/** Every step of the TCP write path keeps its invariant; what follows for every run. */
module TcpProof {
  import opened TcpWrite

  // ----- sequences -----

  lemma {:induction false} OfConcat(a: seq<Packet>, b: seq<Packet>, w: nat, pr: Priority)
    ensures Of(a + b, w, pr) == Of(a, w, pr) + Of(b, w, pr)
    decreases |b|
  {
    if b == [] {
      assert a + b == a;
    } else {
      var n := |b| - 1;
      assert (a + b)[..|a + b| - 1] == a + b[..n];
      OfConcat(a, b[..n], w, pr);
    }
  }

  lemma {:induction false} OfNone(ps: seq<Packet>, w: nat, pr: Priority)
    requires forall k :: 0 <= k < |ps| ==> ps[k].sender != w || ps[k].priority != pr
    ensures Of(ps, w, pr) == []
    decreases |ps|
  {
    if ps != [] {
      OfNone(ps[..|ps| - 1], w, pr);
    }
  }

  /** The parts of the path of a sender's packets. */
  lemma OfPath(s: State, w: nat, pr: Priority)
    ensures Of(Path(s), w, pr) ==
              Of(s.done, w, pr) + Of(Packets(DwList(s)), w, pr) + Of(Packets(s.high), w, pr) + Of(Packets(s.low), w, pr) + Of(s.pipe, w, pr)
  {
    var a := s.done + Packets(DwList(s));
    var b := a + Packets(s.high);
    var c := b + Packets(s.low);
    OfConcat(s.done, Packets(DwList(s)), w, pr);
    OfConcat(a, Packets(s.high), w, pr);
    OfConcat(b, Packets(s.low), w, pr);
    OfConcat(c, s.pipe, w, pr);
  }

  lemma FlatSnoc(ps: seq<Packet>, p: Packet)
    ensures Flat(ps + [p]) == Flat(ps) + p.data
  {
    assert (ps + [p])[..|ps|] == ps;
  }

  lemma {:induction false} UnsentSnoc(list: seq<Buffer>, b: Buffer)
    ensures Unsent(list + [b]) == Unsent(list) + Rest(b)
    decreases |list|
  {
    if list == [] {
      assert [b][1..] == [];
    } else {
      assert (list + [b])[1..] == list[1..] + [b];
      UnsentSnoc(list[1..], b);
    }
  }

  lemma UnsentCons(b: Buffer, list: seq<Buffer>)
    ensures Unsent([b] + list) == Rest(b) + Unsent(list)
  {
    assert ([b] + list)[1..] == list;
  }

  lemma {:induction false} PendingUpdate(workers: seq<Worker>, w: nat, wk: Worker)
    requires w < |workers|
    ensures PendingAll(workers[w := wk]) == PendingAll(workers) - Pending(workers[w]) + Pending(wk)
    decreases |workers|
  {
    if w == 0 {
      assert workers[0 := wk][1..] == workers[1..];
    } else {
      assert workers[w := wk][1..] == workers[1..][w - 1 := wk];
      PendingUpdate(workers[1..], w - 1, wk);
    }
  }

  lemma {:induction false} PacketsConcat(a: seq<Buffer>, b: seq<Buffer>)
    ensures Packets(a + b) == Packets(a) + Packets(b)
    decreases |a|
  {
    if a == [] {
      assert a + b == b;
    } else {
      PacketsConcat(a[1..], b);
      assert (a + b)[1..] == a[1..] + b;
    }
  }

  lemma PacketsOne(b: Buffer)
    ensures Packets([b]) == [b.packet] && Packets([]) == []
  {
    assert [b][1..] == [];
  }

  lemma {:induction false} OfPacketsNone(list: seq<Buffer>, w: nat, pr: Priority)
    requires forall k :: 0 <= k < |list| ==> list[k].packet.sender != w || list[k].packet.priority != pr
    ensures Of(Packets(list), w, pr) == []
    decreases |list|
  {
    if list == [] {
      OfNone([], w, pr);
    } else {
      OfPacketsNone(list[1..], w, pr);
      OfConcat([list[0].packet], Packets(list[1..]), w, pr);
      OfOne(list[0].packet, w, pr);
    }
  }

  // ----- order -----

  /** Steps that keep the path and what workers hold keep the order. */
  lemma SamePathOrders(s: State, s1: State)
    requires Orders(s) && Path(s1) == Path(s) && |s1.workers| == |s.workers|
    requires forall w :: 0 <= w < |s.workers| ==>
               s1.workers[w].issued == s.workers[w].issued && Held(s1.workers[w]) == Held(s.workers[w])
    ensures Orders(s1)
  {
    hide Of, Path, Held;
    forall w, pr | 0 <= w < |s1.workers|
      ensures Of(Path(s1), w, pr) + Of(Held(s1.workers[w]), w, pr) == Of(s1.workers[w].issued, w, pr)
    {
      assert Of(Path(s), w, pr) + Of(Held(s.workers[w]), w, pr) == Of(s.workers[w].issued, w, pr);
    }
  }

  /** A worker's packet is issued. */
  lemma BeginOrders(s: State, w: nat, priority: Priority, data: Bytes)
    requires Orders(s) && w < |s.workers| && s.workers[w].pc == Idle
    ensures Orders(Begin(s, w, priority, data))
  {
    hide Of, Path;
    var p := Packet(w, priority, data);
    var s1 := Begin(s, w, priority, data);
    SamePath(s, s1);
    forall v, pr | 0 <= v < |s1.workers|
      ensures Of(Path(s1), v, pr) + Of(Held(s1.workers[v]), v, pr) == Of(s1.workers[v].issued, v, pr)
    {
      assert Of(Path(s), v, pr) + Of(Held(s.workers[v]), v, pr) == Of(s.workers[v].issued, v, pr);
      if v == w {
        OfConcat(s.workers[w].issued, [p], w, pr);
        OfNone([], w, pr);
      }
    }
  }

  lemma SamePath(s: State, s1: State)
    requires s1.done == s.done && s1.dw == s.dw && s1.high == s.high && s1.low == s.low && s1.pipe == s.pipe
    ensures Path(s1) == Path(s)
  {
  }

  /** Worker `w` hands its packet over: at the end of the path of its own packets of that priority. */
  lemma HandOverOrders(s: State, s1: State, w: nat)
    requires Orders(s) && w < |s.workers| && Held(s.workers[w]) == [s.workers[w].packet] && s.workers[w].packet.sender == w
    requires |s1.workers| == |s.workers| && s1.workers == s.workers[w := s1.workers[w]]
    requires s1.workers[w].issued == s.workers[w].issued && Held(s1.workers[w]) == []
    requires var p := s.workers[w].packet;
             forall v, pr :: Of(Path(s1), v, pr) == Of(Path(s), v, pr) + if v == w && pr == p.priority then [p] else []
    ensures Orders(s1)
  {
    hide Path, Held;
    var p := s.workers[w].packet;
    forall v, pr | 0 <= v < |s1.workers|
      ensures Of(Path(s1), v, pr) + Of(Held(s1.workers[v]), v, pr) == Of(s1.workers[v].issued, v, pr)
    {
      assert Of(Path(s), v, pr) + Of(Held(s.workers[v]), v, pr) == Of(s.workers[v].issued, v, pr);
      OfOne(p, v, pr);
      if v == w {
        OfNone([], v, pr);
      }
    }
  }

  lemma OfOne(p: Packet, v: nat, pr: Priority)
    ensures Of([p], v, pr) == if v == p.sender && pr == p.priority then [p] else []
  {
    assert [p][..0] == [];
  }

  // ----- workers -----

  /** The facts of the workers that did not move. */
  lemma OtherFacts(s: State, s1: State, w: nat)
    requires Inv(s) && w < |s.workers|
    requires |s1.workers| == |s.workers| && s1.workers == s.workers[w := s1.workers[w]]
    requires s1.high == s.high && (s1.dw == s.dw || s.lock == Sender(w))
    requires s1.lock == s.lock || (s.lock == Nobody && s1.lock == Sender(w)) || (s.lock == Sender(w) && s1.lock == Nobody)
    requires s1.pipe == s.pipe || (s1.pipe == s.pipe + [s.workers[w].packet] && s.workers[w].packet.sender == w)
    requires WorkerFacts(s1, w)
    ensures forall v :: 0 <= v < |s1.workers| ==> WorkerFacts(s1, v)
  {
    hide Sizes, Shape, Locks, Counts, Events, Orders, Packets;
    forall v | 0 <= v < |s1.workers|
      ensures WorkerFacts(s1, v)
    {
      if v != w {
        assert WorkerFacts(s, v);
      }
    }
  }

  lemma CountsMove(s: State, s1: State, w: nat)
    requires Counts(s) && w < |s.workers| == |s1.workers| && s1.workers == s.workers[w := s1.workers[w]]
    requires s1.server == s.server && s1.sending <= MAX_SENDING
    requires s1.sending - |s1.pipe| - Pending(s1.workers[w]) == s.sending - |s.pipe| - Pending(s.workers[w])
    ensures Counts(s1)
  {
    PendingUpdate(s.workers, w, s1.workers[w]);
  }

  lemma BeginKeeps(s: State, w: nat, priority: Priority, data: Bytes)
    requires Inv(s) && w < |s.workers| && s.workers[w].pc == Idle
    ensures Inv(Begin(s, w, priority, data))
  {
    hide Orders, Unsent, Flat, PendingAll, Packets, Of;
    var s1 := Begin(s, w, priority, data);
    assert WorkerFacts(s, w);
    BeginOrders(s, w, priority, data);
    CountsMove(s, s1, w);
    OtherFacts(s, s1, w);
  }

  /** The checks a worker makes, and taking and releasing the lock. */
  predicate Looks(pc: WorkerPc) {
    pc in {LookHigh, LookLow, LookDw, LookSending, TryLock, CheckHigh, CheckLow, CheckDw, CheckSending, GiveUp, Written}
  }

  lemma LookFacts(s: State, w: nat)
    requires Inv(s) && WorkerEnabled(s, w, 0) && Looks(s.workers[w].pc)
    ensures WorkerFacts(WorkerStep(s, w, 0), w)
  {
    hide Orders, Sizes, Shape, Events, PendingAll;
    assert WorkerFacts(s, w);
    if s.sending == 0 {
      assert s.pipe == [];
    }
  }

  lemma LookKeeps(s: State, w: nat)
    requires Inv(s) && WorkerEnabled(s, w, 0) && Looks(s.workers[w].pc)
    ensures Inv(WorkerStep(s, w, 0))
  {
    var s1 := WorkerStep(s, w, 0);
    LookFacts(s, w);
    LookFrame(s, w);
    hide Orders, Unsent, Flat, PendingAll, Packets, Of, WorkerStep, WorkerFacts, Path;
    SamePath(s, s1);
    SamePathOrders(s, s1);
    CountsMove(s, s1, w);
    OtherFacts(s, s1, w);
  }

  lemma LookFrame(s: State, w: nat)
    requires Inv(s) && WorkerEnabled(s, w, 0) && Looks(s.workers[w].pc)
    ensures var s1 := WorkerStep(s, w, 0);
            && s1 == s.(workers := s.workers[w := s1.workers[w]], lock := s1.lock) && |s1.workers| == |s.workers|
            && (s1.lock == s.lock || (s.lock == Nobody && s1.lock == Sender(w)) || (s.lock == Sender(w) && s1.lock == Nobody))
            && Pending(s.workers[w]) == 0 && Pending(s1.workers[w]) == 0
            && s1.workers[w].issued == s.workers[w].issued && Held(s1.workers[w]) == Held(s.workers[w])
  {
    hide Orders, Sizes, Shape, Events, PendingAll, Packets;
    assert WorkerFacts(s, w);
  }

  lemma IncSendingKeeps(s: State, w: nat)
    requires Inv(s) && WorkerEnabled(s, w, 0) && s.workers[w].pc == IncSending
    ensures Inv(WorkerStep(s, w, 0))
  {
    hide Orders, Unsent, Flat, PendingAll, Packets, Of, Path;
    var s1 := WorkerStep(s, w, 0);
    assert WorkerFacts(s, w);
    SamePath(s, s1);
    SamePathOrders(s, s1);
    CountsMove(s, s1, w);
    OtherFacts(s, s1, w);
  }

  lemma SendRequestKeeps(s: State, w: nat)
    requires Inv(s) && WorkerEnabled(s, w, 0) && s.workers[w].pc == SendRequest
    ensures Inv(WorkerStep(s, w, 0))
  {
    hide Orders, Unsent, Flat, PendingAll, Packets, Of, Path;
    var s1 := WorkerStep(s, w, 0);
    assert WorkerFacts(s, w);
    forall v, pr
      ensures Of(Path(s1), v, pr) == Of(Path(s), v, pr) + if v == w && pr == s.workers[w].packet.priority then [s.workers[w].packet] else []
    {
      SendRequestPath(s, s1, s.workers[w].packet);
      OfConcat(Path(s), [s.workers[w].packet], v, pr);
      OfOne(s.workers[w].packet, v, pr);
    }
    HandOverOrders(s, s1, w);
    CountsMove(s, s1, w);
    OtherFacts(s, s1, w);
  }

  lemma SendRequestPath(s: State, s1: State, p: Packet)
    requires s1.done == s.done && s1.dw == s.dw && s1.high == s.high && s1.low == s.low && s1.pipe == s.pipe + [p]
    ensures Path(s1) == Path(s) + [p]
  {
    hide Packets;
  }

  /** No packet is written in part when the lists are fresh and there is no direct-write buffer. */
  lemma NoPart(s: State)
    requires s.dw.None? && Fresh(s.high)
    ensures Part(s) == []
  {
    if s.high != [] {
      assert s.high[0].off == 0;
    }
  }

  lemma DirectWriteShape(s: State, w: nat, n: nat)
    requires WorkerEnabled(s, w, n) && s.workers[w].pc == DirectWrite
    requires Shape(s) && s.dw.None? && Fresh(s.high)
    ensures Shape(WorkerStep(s, w, n))
  {
    hide Flat;
    var s1 := WorkerStep(s, w, n);
    var p := s.workers[w].packet;
    NoPart(s);
    assert s.wire == Flat(s.done);
    if n == |p.data| {
      FlatSnoc(s.done, p);
      NoPart(s1);
      assert p.data[..|p.data|] == p.data;
    } else {
      assert Part(s1) == p.data[..n];
    }
  }

  /** A worker that writes directly puts its packet after all its own earlier ones. */
  lemma DirectWriteOrder(s: State, w: nat, n: nat, v: nat, pr: Priority)
    requires WorkerEnabled(s, w, n) && s.workers[w].pc == DirectWrite
    requires s.dw.None? && NoBufferOf(s.high, w) && NoneOf(s.pipe, w)
    requires forall k :: 0 <= k < |s.low| ==> s.low[k].packet.priority == Low
    requires s.workers[w].packet.sender == w && s.workers[w].packet.priority == High
    ensures Of(Path(WorkerStep(s, w, n)), v, pr) ==
              Of(Path(s), v, pr) + if v == w && pr == High then [s.workers[w].packet] else []
  {
    hide Path, Packets, Of;
    var s1 := WorkerStep(s, w, n);
    var p := s.workers[w].packet;
    OfPath(s, v, pr);
    OfPath(s1, v, pr);
    OfConcat(s.done, [p], v, pr);
    OfOne(p, v, pr);
    PacketsOne(Buffer(p, n));
    OfNone([], v, pr);
    if v == w && pr == High {
      OfPacketsNone(s.high, w, pr);
      OfPacketsNone(s.low, w, pr);
      OfNone(s.pipe, w, pr);
    }
  }

  lemma DirectWriteKeeps(s: State, w: nat, n: nat)
    requires Inv(s) && WorkerEnabled(s, w, n) && s.workers[w].pc == DirectWrite
    ensures Inv(WorkerStep(s, w, n))
  {
    hide Orders, Unsent, Flat, PendingAll, Packets, Of, Path, Part;
    var s1 := WorkerStep(s, w, n);
    assert WorkerFacts(s, w);
    DirectWriteShape(s, w, n);
    forall v, pr
      ensures Of(Path(s1), v, pr) == Of(Path(s), v, pr) + if v == w && pr == s.workers[w].packet.priority then [s.workers[w].packet] else []
    {
      DirectWriteOrder(s, w, n, v, pr);
    }
    HandOverOrders(s, s1, w);
    CountsMove(s, s1, w);
    OtherFacts(s, s1, w);
  }

  // ----- the socket thread -----

  lemma ServerFacts(s: State, s1: State)
    requires Inv(s) && s1.workers == s.workers
    requires s1.lock == s.lock || (!s.lock.Sender? && !s1.lock.Sender?)
    requires s1.pipe == s.pipe || (s.pipe != [] && s1.pipe == s.pipe[1..])
    requires s.lock.Sender? ==> s1.dw == s.dw
    requires s.lock.Sender? ==>
               s1.high == s.high || (s.pipe != [] && s1.high == s.high + [Buffer(s.pipe[0], 0)])
    ensures forall w :: 0 <= w < |s1.workers| ==> WorkerFacts(s1, w)
  {
    hide Orders, Sizes, Shape, Events, Counts;
    forall w | 0 <= w < |s1.workers|
      ensures WorkerFacts(s1, w)
    {
      assert WorkerFacts(s, w);
    }
  }

  /** The socket thread keeps the order when it keeps the path of every sender and priority. */
  lemma ServerOrders(s: State, s1: State)
    requires Orders(s) && s1.workers == s.workers
    requires forall w, pr :: Of(Path(s1), w, pr) == Of(Path(s), w, pr)
    ensures Orders(s1)
  {
    hide Of, Path, Held;
    forall w, pr | 0 <= w < |s1.workers|
      ensures Of(Path(s1), w, pr) + Of(Held(s1.workers[w]), w, pr) == Of(s1.workers[w].issued, w, pr)
    {
      assert Of(Path(s), w, pr) + Of(Held(s.workers[w]), w, pr) == Of(s.workers[w].issued, w, pr);
    }
  }

  lemma TakeRequestSizes(s: State)
    requires Sizes(s) && Enabled(s, TakeRequest)
    ensures Sizes(Next(s, TakeRequest))
  {
    var b := Buffer(s.pipe[0], 0);
    UnsentSnoc(s.high, b);
    UnsentSnoc(s.low, b);
    assert [] + [b] == [b];
  }

  lemma TakeRequestShape(s: State)
    requires Shape(s) && Enabled(s, TakeRequest)
    ensures Shape(Next(s, TakeRequest))
  {
    hide Flat;
    var s1 := Next(s, TakeRequest);
    var b := Buffer(s.pipe[0], 0);
    if s.high != [] {
      assert (s.high + [b])[1..] == s.high[1..] + [b];
    } else {
      assert b.packet.data[..0] == [];
      assert [] + [b] == [b];
    }
    assert Part(s1) == Part(s);
  }

  /** Moving `p` from the front of the pipe past the low list does not matter if either is empty. */
  lemma Moved(d: seq<Packet>, h: seq<Packet>, l: seq<Packet>, p: seq<Packet>, rest: seq<Packet>)
    ensures d + h + (l + p) + rest == d + h + l + (p + rest)
    ensures l == [] || p == [] ==> d + (h + p) + l + rest == d + h + l + (p + rest)
  {
  }

  lemma TakeRequestOrder(s: State, w: nat, pr: Priority)
    requires Shape(s) && Enabled(s, TakeRequest)
    ensures Of(Path(Next(s, TakeRequest)), w, pr) == Of(Path(s), w, pr)
  {
    hide Path, Flat, Part, Fresh, HeadOnly, Packets, Of;
    var s1 := Next(s, TakeRequest);
    var p := s.pipe[0];
    var b := Buffer(p, 0);
    OfPath(s, w, pr);
    OfPath(s1, w, pr);
    assert s.pipe == [p] + s.pipe[1..];
    OfConcat([p], s.pipe[1..], w, pr);
    PacketsOne(b);
    OfOne(p, w, pr);
    Moved(Of(s.done, w, pr) + Of(Packets(DwList(s)), w, pr), Of(Packets(s.high), w, pr), Of(Packets(s.low), w, pr),
          Of([p], w, pr), Of(s.pipe[1..], w, pr));
    TakeRequestLists(s, w, pr);
  }

  lemma TakeRequestLists(s: State, w: nat, pr: Priority)
    requires Shape(s) && Enabled(s, TakeRequest)
    ensures var s1 := Next(s, TakeRequest);
            var p := Of([s.pipe[0]], w, pr);
            || (Of(Packets(s1.high), w, pr) == Of(Packets(s.high), w, pr) && Of(Packets(s1.low), w, pr) == Of(Packets(s.low), w, pr) + p)
            || (&& Of(Packets(s1.high), w, pr) == Of(Packets(s.high), w, pr) + p && Of(Packets(s1.low), w, pr) == Of(Packets(s.low), w, pr)
                && (Of(Packets(s.low), w, pr) == [] || p == []))
  {
    hide Path, Flat, Part, Fresh, HeadOnly, Of, Packets;
    var p := s.pipe[0];
    var b := Buffer(p, 0);
    PacketsOne(b);
    OfNone([], w, pr);
    OfOne(p, w, pr);
    if s.high == [] && s.low == [] {
    } else if p.priority == Low {
      PacketsConcat(s.low, [b]);
      OfConcat(Packets(s.low), [p], w, pr);
    } else {
      PacketsConcat(s.high, [b]);
      OfConcat(Packets(s.high), [p], w, pr);
      if pr == High {
        OfPacketsNone(s.low, w, pr);
      }
    }
  }

  lemma TakeRequestKeeps(s: State)
    requires Inv(s) && Enabled(s, TakeRequest)
    ensures Inv(Next(s, TakeRequest))
  {
    hide Orders, Unsent, Flat, PendingAll, Packets, Of, Path, Part, Sizes, Shape;
    var s1 := Next(s, TakeRequest);
    TakeRequestSizes(s);
    TakeRequestShape(s);
    forall w, pr
      ensures Of(Path(s1), w, pr) == Of(Path(s), w, pr)
    {
      TakeRequestOrder(s, w, pr);
    }
    ServerOrders(s, s1);
    assert [] + [Buffer(s.pipe[0], 0)] == [Buffer(s.pipe[0], 0)];
    ServerFacts(s, s1);
  }

  lemma DecSendingKeeps(s: State)
    requires Inv(s) && Enabled(s, DecSending)
    ensures Inv(Next(s, DecSending))
  {
    hide Orders, Unsent, Flat, PendingAll, Packets, Of, Path;
    var s1 := Next(s, DecSending);
    SamePath(s, s1);
    SamePathOrders(s, s1);
    ServerFacts(s, s1);
  }

  lemma MergeShape(s: State)
    requires Shape(s)
    ensures Shape(MergeDirect(s))
  {
    hide Flat;
    if s.dw.Some? {
      assert ([s.dw.value] + s.high)[1..] == s.high;
    }
  }

  lemma MergePath(s: State)
    ensures Path(MergeDirect(s)) == Path(s)
  {
    if s.dw.Some? {
      PacketsConcat([s.dw.value], s.high);
      PacketsOne(s.dw.value);
    }
  }

  lemma LockServerKeeps(s: State)
    requires Inv(s) && Enabled(s, LockServer)
    ensures Inv(Next(s, LockServer))
  {
    hide Orders, Unsent, Flat, PendingAll, Packets, Of, Path, Part, HeadOnly, Fresh;
    var s0 := MergeDirect(s);
    var s1 := Next(s, LockServer);
    MergeShape(s);
    MergePath(s);
    SamePath(s0, s1);
    if s.dw.Some? {
      UnsentCons(s.dw.value, s.high);
    }
    SamePart(s0, s1);
    SamePathOrders(s, s1);
    ServerFacts(s, s1);
  }

  lemma SamePart(s: State, s1: State)
    requires s1.dw == s.dw && s1.high == s.high
    ensures Part(s1) == Part(s)
  {
  }

  lemma ServerMoveKeeps(s: State, step: Step)
    requires Inv(s) && Enabled(s, step) && (step.ServerAgain? || step.ServerTurn? || step.UnlockServer?)
    ensures Inv(Next(s, step))
  {
    hide Orders, Unsent, Flat, PendingAll, Packets, Of, Path, Part;
    var s1 := Next(s, step);
    SamePath(s, s1);
    SamePart(s, s1);
    SamePathOrders(s, s1);
    ServerFacts(s, s1);
  }

  /** One write of the head of `list`: what leaves the list. */
  lemma WriteList(s: State, list: seq<Buffer>, n: nat)
    requires list != [] && HeadOnly(list) && list[0].off + n <= |list[0].packet.data|
    ensures var rest := AfterWrite(list, n);
            && Unsent(rest) == Unsent(list) - n
            && HeadOnly(rest)
            && (n == Rest(list[0]) ==> Fresh(rest))
            && (n != Rest(list[0]) ==> rest != [] && rest[0] == Buffer(list[0].packet, list[0].off + n) && rest[1..] == list[1..])
  {
    var rest := AfterWrite(list, n);
    if n != Rest(list[0]) {
      UnsentCons(rest[0], list[1..]);
      assert rest[1..] == list[1..];
    } else if rest != [] {
      assert rest[0] == list[1..][0];
    }
  }

  /** The written packets and those that wait are together the same as before. */
  lemma WritePackets(s: State, list: seq<Buffer>, n: nat)
    requires list != [] && list[0].off + n <= |list[0].packet.data|
    ensures Written1(s, list, n).done + Packets(AfterWrite(list, n)) == s.done + Packets(list)
  {
    hide Packets;
    var b := list[0];
    PacketsOne(b);
    PacketsOne(b.(off := b.off + n));
    PacketsConcat([b], list[1..]);
    PacketsConcat([b.(off := b.off + n)], list[1..]);
    assert list == [b] + list[1..];
  }

  /** The bytes written continue the packet that was begun. */
  lemma WriteBytes(s: State, list: seq<Buffer>, n: nat)
    requires list != [] && list[0].off + n <= |list[0].packet.data|
    requires s.wire == Flat(s.done) + list[0].packet.data[..list[0].off]
    ensures var s1 := Written1(s, list, n);
            s1.wire == Flat(s1.done) + if n == Rest(list[0]) then [] else list[0].packet.data[..list[0].off + n]
  {
    hide Flat;
    var b := list[0];
    var data := b.packet.data;
    assert data[..b.off] + data[b.off..b.off + n] == data[..b.off + n];
    if n == Rest(b) {
      FlatSnoc(s.done, b.packet);
      assert data[..b.off + n] == data;
    }
  }

  lemma ServerWriteHighShape(s: State, n: nat)
    requires Shape(s) && Enabled(s, ServerWrite(n)) && s.server == SendingHigh && s.dw.None?
    ensures Shape(Next(s, ServerWrite(n)))
  {
    hide Flat;
    var s1 := Next(s, ServerWrite(n));
    WriteList(s, s.high, n);
    WriteBytes(s, s.high, n);
    if n == Rest(s.high[0]) {
      NoPart(s1);
    }
  }

  lemma ServerWriteHighPath(s: State, n: nat)
    requires Enabled(s, ServerWrite(n)) && s.server == SendingHigh && s.dw.None?
    ensures Path(Next(s, ServerWrite(n))) == Path(s)
  {
    WritePackets(s, s.high, n);
  }

  lemma ServerWriteHighKeeps(s: State, n: nat)
    requires Inv(s) && Enabled(s, ServerWrite(n)) && s.server == SendingHigh
    ensures Inv(Next(s, ServerWrite(n)))
  {
    hide Orders, Unsent, Flat, PendingAll, Packets, Of, Path, Part;
    var s1 := Next(s, ServerWrite(n));
    ServerWriteHighShape(s, n);
    ServerWriteHighPath(s, n);
    WriteList(s, s.high, n);
    SamePathOrders(s, s1);
    ServerFacts(s, s1);
  }

  lemma ServerWriteLowShape(s: State, n: nat)
    requires Shape(s) && Enabled(s, ServerWrite(n)) && s.server == SendingLow && s.dw.None? && s.high == []
    ensures Shape(Next(s, ServerWrite(n)))
  {
    hide Flat;
    var s1 := Next(s, ServerWrite(n));
    NoPart(s);
    assert s.low[0].off == 0 && s.low[0].packet.data[..0] == [];
    WriteList(s, s.low, n);
    WriteBytes(s, s.low, n);
    if n == Rest(s.low[0]) || n == 0 {
      NoPart(s1);
    }
  }

  lemma ServerWriteLowPath(s: State, n: nat)
    requires Enabled(s, ServerWrite(n)) && s.server == SendingLow && s.dw.None? && s.high == []
    ensures Path(Next(s, ServerWrite(n))) == Path(s)
  {
    hide Packets;
    var s1 := Next(s, ServerWrite(n));
    var rest := AfterWrite(s.low, n);
    WritePackets(s, s.low, n);
    PacketsOne(s.low[0]);
    if s1.high != [] {
      PacketsConcat(s1.high, s1.low);
      assert rest == s1.high + s1.low;
    }
    assert Path(s) == (s.done + Packets(s.low)) + s.pipe;
    assert Path(s1) == (s1.done + Packets(rest)) + s.pipe;
  }

  lemma ServerWriteLowSizes(s: State, n: nat)
    requires Shape(s) && Sizes(s) && Enabled(s, ServerWrite(n)) && s.server == SendingLow && s.high == []
    ensures Sizes(Next(s, ServerWrite(n)))
  {
    hide Flat, Part;
    var s1 := Next(s, ServerWrite(n));
    var rest := AfterWrite(s.low, n);
    WriteList(s, s.low, n);
    if s1.high != [] {
      UnsentCons(rest[0], []);
      UnsentCons(rest[0], rest[1..]);
      assert [rest[0]] + [] == [rest[0]] && [rest[0]] + rest[1..] == rest;
    }
  }

  lemma ServerWriteLowKeeps(s: State, n: nat)
    requires Inv(s) && Enabled(s, ServerWrite(n)) && s.server == SendingLow
    ensures Inv(Next(s, ServerWrite(n)))
  {
    hide Orders, Unsent, Flat, PendingAll, Packets, Of, Path, Part, Shape, Sizes;
    var s1 := Next(s, ServerWrite(n));
    ServerWriteLowShape(s, n);
    ServerWriteLowPath(s, n);
    ServerWriteLowSizes(s, n);
    SamePathOrders(s, s1);
    ServerFacts(s, s1);
  }

  // ----- every run -----

  /** Every step of every thread keeps the invariant. */
  lemma StepKeeps(s: State, step: Step)
    requires Inv(s) && Enabled(s, step)
    ensures Inv(Next(s, step))
  {
    hide Inv;
    match step
    case StartHigh(w, data) => BeginKeeps(s, w, High, data);
    case StartLow(w, data) => BeginKeeps(s, w, Low, data);
    case Advance(w, n) =>
      match s.workers[w].pc {
        case IncSending => IncSendingKeeps(s, w);
        case SendRequest => SendRequestKeeps(s, w);
        case DirectWrite => DirectWriteKeeps(s, w, n);
        case _ => LookKeeps(s, w);
      }
    case TakeRequest => TakeRequestKeeps(s);
    case DecSending => DecSendingKeeps(s);
    case LockServer => LockServerKeeps(s);
    case ServerWrite(n) =>
      if s.server == SendingHigh { ServerWriteHighKeeps(s, n); } else { ServerWriteLowKeeps(s, n); }
    case _ => ServerMoveKeeps(s, step);
  }

  lemma InitKeeps(workers: nat)
    ensures Inv(Init(workers))
  {
    var s := Init(workers);
    NonePending(s.workers);
    forall w, pr | 0 <= w < workers
      ensures Of(Path(s), w, pr) + Of(Held(s.workers[w]), w, pr) == Of(s.workers[w].issued, w, pr)
    {
      assert Path(s) == [];
    }
  }

  lemma {:induction false} NonePending(workers: seq<Worker>)
    requires forall w :: 0 <= w < |workers| ==> workers[w].pc == Idle
    ensures PendingAll(workers) == 0
    decreases |workers|
  {
    if workers != [] {
      NonePending(workers[1..]);
    }
  }

  /** `steps` can be taken one after the other from `s`. */
  predicate ValidRun(s: State, steps: seq<Step>)
    decreases |steps|
  {
    steps == [] || (Enabled(s, steps[0]) && ValidRun(Next(s, steps[0]), steps[1..]))
  }

  function Run(s: State, steps: seq<Step>): State
    requires ValidRun(s, steps)
    decreases |steps|
  {
    if steps == [] then s else Run(Next(s, steps[0]), steps[1..])
  }

  lemma {:induction false} RunKeeps(s: State, steps: seq<Step>)
    requires Inv(s) && ValidRun(s, steps)
    ensures Inv(Run(s, steps))
    decreases |steps|
  {
    hide Inv, Enabled, Next;
    if steps != [] {
      StepKeeps(s, steps[0]);
      RunKeeps(Next(s, steps[0]), steps[1..]);
    }
  }

  /** What is on the wire is whole packets and part of at most one more, the next of the path. */
  predicate NeverTorn(s: State) {
    || s.wire == Flat(s.done)
    || (&& |Path(s)| > |s.done|
        && exists k :: 0 < k < |Path(s)[|s.done|].data| && s.wire == Flat(s.done) + Path(s)[|s.done|].data[..k])
  }

  lemma ShapeNeverTorn(s: State)
    requires Shape(s)
    ensures NeverTorn(s)
  {
    hide Flat;
    if Part(s) != [] {
      var list := DwList(s) + s.high;
      PacketsConcat(DwList(s), s.high);
      assert Path(s) == s.done + (Packets(list) + Packets(s.low) + s.pipe);
      var b := list[0];
      assert list == [b] + list[1..];
      PacketsOne(b);
      PacketsConcat([b], list[1..]);
      assert Path(s)[|s.done|] == b.packet;
      assert 0 < b.off < |Path(s)[|s.done|].data| && s.wire == Flat(s.done) + Path(s)[|s.done|].data[..b.off];
    } else {
      assert s.wire == Flat(s.done);
    }
  }

  /** The assertions of the socket thread: a low buffer is never partly sent when it takes the lock,
      nothing waits and nothing is counted when it switches the event off, the high list is empty
      when it raises a buffer, and `sending` is not 0 when it is decremented. */
  predicate AssertionsHold(s: State) {
    && Fresh(s.low)
    && (Enabled(s, ServerTurn) && !(s.server == SendingHigh && s.low != []) ==> s.high == [] && s.low == [] && s.wbSize == 0)
    && (s.server == SendingLow ==> s.high == [])
    && (s.server == Queued ==> s.sending != 0)
  }

  /** Only the holder of the lock writes. */
  predicate OneWriter(s: State) {
    forall w :: 0 <= w < |s.workers| && s.workers[w].pc == DirectWrite ==>
      && s.server !in {SendingHigh, SendingLow}
      && forall v :: 0 <= v < |s.workers| && s.workers[v].pc == DirectWrite ==> v == w
  }

  /** Nothing waits anywhere and no worker is sending. */
  predicate Quiet(s: State) {
    s.high == [] && s.low == [] && s.dw.None? && s.pipe == [] && forall w :: 0 <= w < |s.workers| ==> s.workers[w].pc == Idle
  }

  /** In every run of any number of workers and the socket thread, in every interleaving and however
      `write` splits the data: the stream is never torn, every sender's packets of one priority are
      written in the order in which it sent them and exactly once, the counters agree with the
      lists, the assertions hold, and waiting data keeps the write event on. */
  lemma EveryRun(workers: nat, steps: seq<Step>)
    requires ValidRun(Init(workers), steps)
    ensures var s := Run(Init(workers), steps);
            && NeverTorn(s)
            && (forall w, pr :: 0 <= w < |s.workers| ==> Of(s.done, w, pr) <= Of(s.workers[w].issued, w, pr))
            && s.wbSize == Unsent(s.high) + Unsent(s.low)
            && AssertionsHold(s) && OneWriter(s)
            && (s.high != [] || s.low != [] || s.dw.Some? ==> s.event)
            && (Quiet(s) ==> s.wire == Flat(s.done)
                             && forall w, pr :: 0 <= w < |s.workers| ==> Of(s.done, w, pr) == Of(s.workers[w].issued, w, pr))
  {
    hide Inv, Orders, NeverTorn, AssertionsHold, OneWriter, Flat, Of, Quiet, Next, Enabled;
    InitKeeps(workers);
    RunKeeps(Init(workers), steps);
    var s := Run(Init(workers), steps);
    InvNeverTorn(s);
    InvAssertions(s);
    forall w, pr | 0 <= w < |s.workers|
      ensures Of(s.done, w, pr) <= Of(s.workers[w].issued, w, pr)
      ensures Quiet(s) ==> Of(s.done, w, pr) == Of(s.workers[w].issued, w, pr)
    {
      DoneInOrder(s, w, pr);
    }
  }

  lemma InvNeverTorn(s: State)
    requires Inv(s)
    ensures NeverTorn(s) && s.wbSize == Unsent(s.high) + Unsent(s.low)
    ensures s.high != [] || s.low != [] || s.dw.Some? ==> s.event
    ensures Quiet(s) ==> s.wire == Flat(s.done)
  {
    hide NeverTorn, Orders, Flat, Unsent, PendingAll;
    ShapeNeverTorn(s);
  }

  lemma InvAssertions(s: State)
    requires Inv(s)
    ensures AssertionsHold(s) && OneWriter(s)
  {
    hide Orders, Flat, PendingAll, Part;
    forall w | 0 <= w < |s.workers| && s.workers[w].pc == DirectWrite
      ensures s.lock == Sender(w)
    {
      assert WorkerFacts(s, w);
    }
  }

  lemma DoneInOrder(s: State, w: nat, pr: Priority)
    requires Inv(s) && w < |s.workers|
    ensures Of(s.done, w, pr) <= Of(s.workers[w].issued, w, pr)
    ensures Quiet(s) ==> Of(s.done, w, pr) == Of(s.workers[w].issued, w, pr)
  {
    hide Sizes, Shape, Locks, Counts, Events, WorkerFacts, Of, Path;
    assert Of(Path(s), w, pr) + Of(Held(s.workers[w]), w, pr) == Of(s.workers[w].issued, w, pr);
    OfPath(s, w, pr);
    if Quiet(s) {
      OfNone([], w, pr);
    }
  }
}
