/**
  The timer of the server: five levels of slots, changed in place under one lock, proved to
  deliver what a plain list of deadlines would.
 */
module SkynetTimer {
  import opened TimerWheel

  /** A call of `skynet_timeout`. */
  datatype Request = Request(delay: int, event: Event)

  /** The delay is a C `int`. */
  predicate IsRequest(q: Request) {
    0 <= q.delay + HALF < WORD
  }

  /** What a call adds to the list of deadlines when the clock shows `now`. */
  function Enlist(q: Request, now: nat): seq<Entry> {
    if q.delay <= 0 then [] else [Entry(now + q.delay, q.event)]
  }

  /** What a call delivers at once. */
  function AtOnce(q: Request): seq<Event> {
    if q.delay <= 0 then [q.event] else []
  }

  function EnlistAll(qs: seq<Request>, now: nat): seq<Entry> {
    if qs == [] then [] else EnlistAll(qs[..|qs| - 1], now) + Enlist(qs[|qs| - 1], now)
  }

  function AllAtOnce(qs: seq<Request>): seq<Event> {
    if qs == [] then [] else AllAtOnce(qs[..|qs| - 1]) + AtOnce(qs[|qs| - 1])
  }

  lemma BlockEnds(ct: Time, i: nat)
    requires i <= 3 && ct != 0 && ct % Span(i) == 0
    ensures (ct - 1) % Span(i) == Span(i) - 1 && High(ct - 1, i) == High(ct, i) - 1
  {
  }

  lemma EntersFirstNonZero(t: Time, ct: Time, i: nat)
    requires i <= 3 && ct == Next(t) != 0
    requires ct % Span(i) == 0 && High(ct, i) % LEVEL != 0
    ensures Enters(t, i)
  {
    BlockEnds(ct, i);
    HighStep(t, i);
    HighStep(ct, i);
  }

  lemma EntersAtWrap(t: Time)
    requires Next(t) == 0
    ensures Enters(t, 3) && Entered(t, 3) == Place(4, 0)
  {
  }

  /** One round of the loop in `timer_shift`: the digit at level `i` is zero. */
  lemma ZeroDigit(ct: Time, i: nat)
    requires i <= 3 && ct != 0 && ct % Span(i) == 0 && High(ct, i) % LEVEL == 0
    ensures i < 3
    ensures ct % Span(i + 1) == 0 && Span(i + 1) == Span(i) * LEVEL && High(ct, i + 1) == High(ct, i) / LEVEL
  {
  }

  lemma FirstSpan(ct: Time)
    ensures Span(0) == NEAR && High(ct, 0) == ct / NEAR
  {
  }

  lemma ClockWraps(now: nat)
    ensures (now + 1) % WORD == Next(now % WORD) == (now % WORD + 1) % WORD
  {
    WrappedAhead(now, now);
  }

  class Timer {
    const near: array<seq<Node>>
    const t: array2<seq<Node>>
    var time: Time
    ghost var now: nat               // ticks since the start
    ghost var pending: seq<Entry>    // the timers set and not yet delivered, in the order they were set

    ghost predicate Shape() {
      near.Length == NEAR && t.Length0 == 4 && t.Length1 == LEVEL
    }

    ghost function List(k: Place): seq<Node>
      requires Shape() && IsPlace(k)
      reads near, t
    {
      if k.level == 0 then near[k.index] else t[k.level - 1, k.index]
    }

    /** Every slot holds exactly the timers `add_node` would put there now, in the order they were set. */
    ghost predicate Valid()
      reads this, near, t
    {
      && Shape()
      && time == now % WORD
      && InReach(pending, now)
      && forall k :: IsPlace(k) ==> List(k) == Slot(pending, time, k)
    }

    constructor ()
      ensures Valid() && fresh(near) && fresh(t)
      ensures now == 0 && pending == []
    {
      near := new seq<Node>[NEAR](_ => []);
      t := new seq<Node>[4, LEVEL]((_, _) => []);
      time, now, pending := 0, 0, [];
    }

    method AddNode(node: Node)
      requires Shape()
      modifies near, t
      ensures forall k :: IsPlace(k) ==>
        List(k) == if k == PlaceOf(node.expire, time) then old(List(k)) + [node] else old(List(k))
    {
      if node.expire / NEAR == time / NEAR {
        near[node.expire % NEAR] := near[node.expire % NEAR] + [node];
      } else {
        var i, mask := 0, NEAR * LEVEL;
        while i < 3
          invariant i <= 3 && mask == Span(i + 1)
          invariant High(node.expire, i) != High(time, i)
          invariant near[..] == old(near[..])
          invariant forall a, b :: 0 <= a < 4 && 0 <= b < LEVEL ==> t[a, b] == old(t[a, b])
        {
          if node.expire / mask == time / mask {
            break;
          }
          mask := mask * LEVEL;
          i := i + 1;
        }
        LevelIs(node.expire, time, i + 1);
        var index := High(node.expire, i) % LEVEL;
        t[i, index] := t[i, index] + [node];
      }
    }

    /** `move_list`: detach a slot's list and put its nodes again, one by one. */
    method MoveList(level: nat, index: nat)
      requires Shape() && level < 4 && index < LEVEL
      modifies near, t
      ensures forall k :: IsPlace(k) ==>
        List(k) == Sift(if k == Place(level + 1, index) then [] else old(List(k)), old(t[level, index]), time, k)
    {
      hide PlaceOf, Sift;
      var current := t[level, index];
      t[level, index] := [];
      label Detached:
      forall k | IsPlace(k) { SlotNone(time, k, List(k)); }
      var j := 0;
      while j < |current|
        invariant j <= |current|
        invariant forall k :: IsPlace(k) ==> List(k) == Sift(old@Detached(List(k)), current[..j], time, k)
      {
        AddNode(current[j]);
        assert current[..j + 1] == current[..j] + [current[j]];
        forall k | IsPlace(k) { SiftNext(old@Detached(List(k)), current[..j], current[j], time, k); }
        j := j + 1;
      }
      assert current[..j] == current;
    }

    /** A slot is moved when the clock enters it; all slots are then right for the new time. */
    method Cascade(i: nat, ghost was: Time)
      requires Shape() && Enters(was, i) && time == Next(was) && was == now % WORD
      requires InReach(pending, now) && InReach(pending, now + 1)
      requires forall k :: IsPlace(k) ==> List(k) == Slot(pending, was, k)
      modifies near, t
      ensures forall k :: IsPlace(k) ==> List(k) == Slot(pending, time, k)
    {
      hide PlaceOf, Sift, Slot;
      MoveList(i, High(time, i) % LEVEL);
      assert Entered(was, i) == Place(i + 1, High(time, i) % LEVEL);
      assert old(t[i, High(time, i) % LEVEL]) == old(List(Entered(was, i)));
      forall k | IsPlace(k) ensures List(k) == Slot(pending, time, k) {
        SlotsAfterEntering(pending, now, i, k, old(List(k)));
        SlotsAfterEntering(pending, now, i, k, []);
      }
    }

    /** `timer_shift`: one tick.  Nothing may be left over from the tick that ends. */
    method TimerShift()
      requires Valid() && InReach(pending, now + 1)
      modifies this`time, this`now, near, t
      ensures Valid() && now == old(now) + 1
    {
      hide Slot, PlaceOf, Enters, High, Span, Next;
      ghost var was := time;
      ClockWraps(now);
      time := (time + 1) % WORD;
      if time == 0 {
        EntersAtWrap(was);
        Cascade(3, was);
      } else {
        FirstSpan(time);
        var i, mask, rest := 0, NEAR, time / NEAR;
        var moved := false;
        while time % mask == 0
          invariant i <= 3 && mask == Span(i) && rest == High(time, i)
          invariant i > 0 ==> time % mask == 0
          invariant time == Next(was) && now == old(now)
          invariant near[..] == old(near[..])
          invariant forall a, b :: 0 <= a < 4 && 0 <= b < LEVEL ==> t[a, b] == old(t[a, b])
          decreases 3 - i
        {
          if rest % LEVEL != 0 {
            EntersFirstNonZero(was, time, i);
            Cascade(i, was);
            moved := true;
            break;
          }
          ZeroDigit(time, i);
          mask, rest, i := mask * LEVEL, rest / LEVEL, i + 1;
        }
        if !moved {
          forall k | IsPlace(k) ensures List(k) == Slot(pending, time, k) {
            SlotsWithinBlock(pending, was, k);
          }
        }
      }
      now := now + 1;
    }

    /** `skynet_timeout`: an expired delay is answered at once, any other becomes a timer. */
    method Timeout(q: Request) returns (delivered: seq<Event>)
      requires Valid() && IsRequest(q)
      modifies this`pending, near, t
      ensures Valid()
      ensures pending == old(pending) + Enlist(q, now)
      ensures delivered == AtOnce(q)
    {
      if q.delay <= 0 {
        delivered := [q.event];
      } else {
        delivered := [];
        var node := Node((q.delay + time) % WORD, q.event);
        AddNode(node);
        ghost var en := Entry(now + q.delay, q.event);
        assert NodeOf(en) == node by {
          ModShift(now / WORD, q.delay + time);
          assert now == now / WORD * WORD + time;
        }
        pending := pending + [en];
        assert pending[..|pending| - 1] == old(pending);
      }
    }

    method TimeoutAll(qs: seq<Request>) returns (delivered: seq<Event>)
      requires Valid() && forall q :: q in qs ==> IsRequest(q)
      modifies this`pending, near, t
      ensures Valid()
      ensures pending == old(pending) + EnlistAll(qs, now)
      ensures delivered == AllAtOnce(qs)
    {
      delivered := [];
      var j := 0;
      while j < |qs|
        invariant j <= |qs| && Valid()
        invariant pending == old(pending) + EnlistAll(qs[..j], now)
        invariant delivered == AllAtOnce(qs[..j])
      {
        var d := Timeout(qs[j]);
        delivered := delivered + d;
        assert qs[..j + 1][..j] == qs[..j];
        j := j + 1;
      }
      assert qs[..j] == qs;
    }

    /** Detach the list of the present tick: what is due leaves the wheel and nothing else does. */
    method TakeDue() returns (current: seq<Node>)
      requires Valid()
      modifies this`pending, near
      ensures Valid() && InReach(pending, now + 1)
      ensures Events(current) == At(old(pending), now)
      ensures pending == After(old(pending), now)
    {
      hide Slot, PlaceOf;
      var index := time % NEAR;
      assert List(Place(0, index)) == Slot(pending, time, Place(0, index));
      current := near[index];
      near[index] := [];
      DueSlot(pending, now);
      forall k { SlotAfter(pending, now, k); }
      pending := After(pending, now);
    }

    /**
      `timer_execute`.  The lock is free while the detached list is delivered, and other threads
      may then make any calls `others`; none of them adds to the present slot, so there is no
      second round.  `unlocked` says whether such a moment came.
     */
    method TimerExecute(others: seq<Request>) returns (fired: seq<Event>, atOnce: seq<Event>, unlocked: bool)
      requires Valid() && forall q :: q in others ==> IsRequest(q)
      modifies this`pending, near, t
      ensures Valid() && InReach(pending, now + 1)
      ensures fired == At(old(pending), now)
      ensures pending == if unlocked then After(old(pending), now) + EnlistAll(others, now) else After(old(pending), now)
      ensures atOnce == if unlocked then AllAtOnce(others) else []
    {
      hide Slot, PlaceOf, At, After, EnlistAll, AllAtOnce;
      var index := time % NEAR;
      fired, atOnce, unlocked := [], [], false;
      NothingDue(pending, now);
      PresentList();
      while near[index] != []
        invariant Valid()
        invariant !unlocked ==> pending == old(pending) && fired == [] && atOnce == []
        invariant unlocked ==> InReach(pending, now + 1) && fired == At(old(pending), now)
        invariant unlocked ==> pending == After(old(pending), now) + EnlistAll(others, now) && atOnce == AllAtOnce(others)
        invariant Events(near[index]) == At(pending, now)
        decreases !unlocked
      {
        if unlocked { NothingAt(pending, now); }
        var current := TakeDue();
        var f := DispatchList(current);
        fired := fired + f;
        EnlistedAhead(others, now);
        atOnce := TimeoutAll(others);
        PresentList();
        unlocked := true;
      }
    }

    lemma PresentList()
      requires Valid()
      ensures Events(near[time % NEAR]) == At(pending, now)
    {
      DueSlot(pending, now);
      assert List(Place(0, time % NEAR)) == near[time % NEAR];
    }

    /** `timer_update`: the first round finds nothing, the clock ticks, and exactly what is due now is delivered. */
    method TimerUpdate(others: seq<Request>) returns (fired: seq<Event>, atOnce: seq<Event>)
      requires Valid() && InReach(pending, now + 1)
      requires forall q :: q in others ==> IsRequest(q)
      modifies this, near, t
      ensures Valid() && InReach(pending, now + 1)
      ensures now == old(now) + 1
      ensures fired == At(old(pending), now)
      ensures pending == After(old(pending), now) + EnlistAll(others, now)
      ensures atOnce == AllAtOnce(others)
    {
      hide Slot, PlaceOf, At, After, EnlistAll, AllAtOnce;
      NothingAt(pending, now);
      NothingDue(pending, now);
      var early, _, unlocked := TimerExecute([]);
      NoCalls(now);
      assert pending == old(pending) && early == [];
      TimerShift();
      fired, atOnce, unlocked := TimerExecute(others);
      EnlistedAhead(others, now);
      fired := early + fired;
      if !unlocked {
        atOnce := TimeoutAll(others);
      }
    }
  }

  lemma NoCalls(now: nat)
    ensures EnlistAll([], now) == []
  {
  }

  /** `dispatch_list`: one message per node, in list order. */
  method DispatchList(current: seq<Node>) returns (sent: seq<Event>)
    ensures sent == Events(current)
  {
    sent := [];
    var j := 0;
    while j < |current|
      invariant j <= |current| && sent == Events(current[..j])
    {
      sent := sent + [current[j].event];
      j := j + 1;
    }
    assert current[..j] == current;
  }

  lemma {:induction false} NothingAt(p: seq<Entry>, now: nat)
    requires InReach(p, now + 1)
    ensures At(p, now) == []
  {
    if p != [] {
      InReachButLast(p, now + 1);
      NothingAt(p[..|p| - 1], now);
    }
  }

  lemma {:induction false} NothingDue(p: seq<Entry>, now: nat)
    requires InReach(p, now)
    ensures At(p, now) == [] ==> After(p, now) == p
  {
    if p != [] {
      InReachButLast(p, now);
      NothingDue(p[..|p| - 1], now);
    }
  }

  lemma {:induction false} EnlistedAhead(qs: seq<Request>, now: nat)
    requires forall q :: q in qs ==> IsRequest(q)
    ensures forall en :: en in EnlistAll(qs, now) ==> now + 1 <= en.deadline < now + HALF
  {
    if qs != [] {
      EnlistedAhead(qs[..|qs| - 1], now);
      assert IsRequest(qs[|qs| - 1]);
    }
  }

  // ----- whole runs -----

  /** A call, or an update during or after which other threads make the calls `others`. */
  datatype Op = Call(request: Request) | Update(others: seq<Request>)

  predicate IsOp(op: Op) {
    match op
    case Call(q) => IsRequest(q)
    case Update(qs) => forall q :: q in qs ==> IsRequest(q)
  }

  function Ticks(ops: seq<Op>): nat {
    if ops == [] then 0 else Ticks(ops[..|ops| - 1]) + if ops[|ops| - 1].Update? then 1 else 0
  }

  /** Every timer ever set, in order, with the tick it was set plus its delay. */
  function Issued(ops: seq<Op>): seq<Entry> {
    if ops == [] then []
    else
      var before := ops[..|ops| - 1];
      Issued(before) + match ops[|ops| - 1]
                       case Call(q) => Enlist(q, Ticks(before))
                       case Update(qs) => EnlistAll(qs, Ticks(before) + 1)
  }

  lemma {:induction false} AtConcat(p: seq<Entry>, q: seq<Entry>, n: nat)
    ensures At(p + q, n) == At(p, n) + At(q, n)
  {
    if q == [] {
      assert p + q == p;
    } else {
      AtConcat(p, q[..|q| - 1], n);
      assert (p + q)[..|p + q| - 1] == p + q[..|q| - 1];
    }
  }

  lemma AfterNext(p: seq<Entry>, e: Entry, n: nat)
    ensures After(p + [e], n) == After(p, n) + if e.deadline > n then [e] else []
  {
    assert (p + [e])[..|p|] == p;
  }

  lemma {:induction false} AfterConcat(p: seq<Entry>, q: seq<Entry>, n: nat)
    ensures After(p + q, n) == After(p, n) + After(q, n)
  {
    hide After;
    if q == [] {
      assert p + q == p;
      NothingAfter(n);
    } else {
      var q0, e := q[..|q| - 1], q[|q| - 1];
      AfterConcat(p, q0, n);
      AfterNext(p + q0, e, n);
      AfterNext(q0, e, n);
      assert q == q0 + [e] && p + q == (p + q0) + [e];
    }
  }

  lemma NothingAfter(n: nat)
    ensures After([], n) == []
  {
  }

  lemma {:induction false} AfterAll(p: seq<Entry>, n: nat)
    requires forall en :: en in p ==> en.deadline > n
    ensures After(p, n) == p
    ensures forall m: nat :: m <= n ==> At(p, m) == []
  {
    if p != [] {
      AfterAll(p[..|p| - 1], n);
      assert p[|p| - 1] in p;
    }
  }

  lemma {:induction false} LaterOfAfter(p: seq<Entry>, m: nat, n: nat)
    requires m < n
    ensures At(After(p, m), n) == At(p, n)
    ensures After(After(p, m), n) == After(p, n)
  {
    if p != [] {
      LaterOfAfter(p[..|p| - 1], m, n);
      var rest := After(p[..|p| - 1], m);
      assert (rest + [p[|p| - 1]])[..|rest|] == rest;
    }
  }

  /** Timers set later do not change what earlier ticks deliver. */
  lemma IssuedLater(p: seq<Entry>, q: seq<Entry>, now: nat)
    requires forall en :: en in q ==> en.deadline > now
    ensures After(p + q, now) == After(p, now) + q
    ensures forall m: nat :: m <= now ==> At(p + q, m) == At(p, m)
  {
    AfterConcat(p, q, now);
    AfterAll(q, now);
    forall m: nat | m <= now ensures At(p + q, m) == At(p, m) {
      AtConcat(p, q, m);
    }
  }

  lemma NothingIssued()
    ensures Issued([]) == [] && Ticks([]) == 0
    ensures After([], 0) == []
  {
  }

  lemma CallIssues(ops: seq<Op>, i: nat)
    requires i < |ops| && IsOp(ops[i])
    ensures Ticks(ops[..i + 1]) == Ticks(ops[..i]) + if ops[i].Update? then 1 else 0
    ensures
      var q := if ops[i].Call? then Enlist(ops[i].request, Ticks(ops[..i])) else EnlistAll(ops[i].others, Ticks(ops[..i]) + 1);
      && Issued(ops[..i + 1]) == Issued(ops[..i]) + q
      && forall en :: en in q ==> en.deadline > Ticks(ops[..i + 1])
  {
    hide EnlistAll;
    assert ops[..i + 1][..i] == ops[..i];
    if ops[i].Update? {
      EnlistedAhead(ops[i].others, Ticks(ops[..i]) + 1);
    }
  }

  /**
    The wheel over a whole run, of any length and any number of turns of the clock: update `n`
    delivers exactly the timers set at a tick `s` with a delay `d` where `s + d == n`, in the
    order they were set; what is still in the wheel is exactly what was set for later.
   */
  method Run(ops: seq<Op>) returns (fired: seq<seq<Event>>, timer: Timer)
    requires forall op :: op in ops ==> IsOp(op)
    ensures |fired| == Ticks(ops)
    ensures forall n :: 0 <= n < |fired| ==> fired[n] == At(Issued(ops), n + 1)
    ensures timer.Valid() && timer.now == Ticks(ops)
    ensures timer.pending == After(Issued(ops), Ticks(ops))
  {
    hide Issued, Ticks, At, After, EnlistAll, Timer.Valid;
    timer := new Timer();
    fired := [];
    var i := 0;
    NothingIssued();
    assert ops[..0] == [];
    while i < |ops|
      invariant i <= |ops|
      invariant timer.Valid() && InReach(timer.pending, timer.now + 1)
      invariant fresh(timer) && fresh(timer.near) && fresh(timer.t)
      invariant |fired| == timer.now == Ticks(ops[..i])
      invariant timer.pending == After(Issued(ops[..i]), timer.now)
      invariant forall n :: 0 <= n < |fired| ==> fired[n] == At(Issued(ops[..i]), n + 1)
    {
      CallIssues(ops, i);
      ghost var p := Issued(ops[..i]);
      match ops[i] {
        case Call(q) =>
          assert IsOp(ops[i]);
          IssuedLater(p, Enlist(q, timer.now), timer.now);
          var _ := timer.Timeout(q);
        case Update(others) =>
          assert IsOp(ops[i]);
          LaterOfAfter(p, timer.now, timer.now + 1);
          var f, _ := timer.TimerUpdate(others);
          IssuedLater(p, EnlistAll(others, timer.now), timer.now);
          fired := fired + [f];
      }
      i := i + 1;
    }
    assert ops[..i] == ops;
  }

  /** Timer `i` is delivered at its own tick, after exactly the earlier-set timers of that tick. */
  lemma {:induction false} DeliveredInOrder(p: seq<Entry>, i: nat)
    requires i < |p|
    ensures
      var n := p[i].deadline;
      var r := |At(p[..i], n)|;
      r < |At(p, n)| && At(p, n)[r] == p[i].event
  {
    var n := p[i].deadline;
    assert p == p[..i] + p[i..];
    assert p[i..] == [p[i]] + p[i + 1..];
    AtConcat(p[..i], p[i..], n);
    AtConcat([p[i]], p[i + 1..], n);
    assert At([p[i]], n) == [p[i].event] by {
      assert [p[i]][..0] == [];
    }
  }

  function EventsOf(p: seq<Entry>): (r: seq<Event>)
    ensures |r| == |p| && forall i :: 0 <= i < |p| ==> r[i] == p[i].event
  {
    seq(|p|, i requires 0 <= i < |p| => p[i].event)
  }

  /** Everything delivered by the first `n` updates. */
  function DeliveredBy(p: seq<Entry>, n: nat): seq<Event> {
    if n == 0 then [] else DeliveredBy(p, n - 1) + At(p, n)
  }

  lemma {:induction false} SplitAt(p: seq<Entry>, n: nat)
    requires n > 0
    ensures multiset(At(p, n)) + multiset(EventsOf(After(p, n))) == multiset(EventsOf(After(p, n - 1)))
  {
    if p != [] {
      var q, e := p[..|p| - 1], p[|p| - 1];
      SplitAt(q, n);
      assert EventsOf(After(q, n) + [e]) == EventsOf(After(q, n)) + [e.event];
      assert EventsOf(After(q, n - 1) + [e]) == EventsOf(After(q, n - 1)) + [e.event];
    }
  }

  /** Exactly once: at every moment each timer set so far has either been delivered or is still to come. */
  lemma {:induction false} NothingLostOrRepeated(p: seq<Entry>, n: nat)
    requires forall en :: en in p ==> en.deadline > 0
    ensures multiset(DeliveredBy(p, n)) + multiset(EventsOf(After(p, n))) == multiset(EventsOf(p))
  {
    if n == 0 {
      AfterAll(p, 0);
    } else {
      NothingLostOrRepeated(p, n - 1);
      SplitAt(p, n);
    }
  }
}
