/**
  What holds in every state of every run of the scheduler.
 */
module SchedulerProof {
  import opened Scheduler

  /** What one process, or all processes together, have to do with one service. */
  datatype View = View(
    refs: int,       // references to the context
    owns: int,       // possession of the queue
    marks: int,      // about to mark the queue for release
    frees: int,      // about to free the context
    unready: int,    // possession of the queue by its creator, before the service is ready
    runs: int,       // dispatching
    drops: int,      // dropping the messages of a released queue
    empties: int,    // about to free the queue
    making: int,     // about to make the queue
    gone: int)       // its creator, after it has deleted the context itself

  function One(b: bool): int { if b then 1 else 0 }

  function ThenOwns(k: Then, c: Id): int {
    match k
    case KIdle => 0
    case KPop => 0
    case KHold(q) => One(q == c)
    case KReady(q) => One(q == c)
    case KRetire(q) => One(q == c)
    case KDrop(q) => One(q == c)
  }

  function ThenFresh(k: Then, c: Id): int {
    One((k.KReady? || k.KRetire?) && k.q == c)
  }

  function Refs(pc: Pc, c: Id): int {
    match pc
    case Push(d, _) => One(d == c)
    case Lost(d) => One(d == c)
    case Release(d, _) => One(d == c)
    case CreateQueue(d) => One(d == c)
    case Initialise(d) => One(d == c)
    case Run(q, _, _) => One(q == c)
    case Length(q) => One(q == c)
    case Callback(q, _, _) => One(q == c)
    case Turn(q) => One(q == c)
    case PutBack(q, _) => One(q == c)
    case _ => 0
  }

  function Owns(pc: Pc, c: Id): int {
    match pc
    case Idle => 0
    case Grab(_, _) => 0
    case Push(_, _) => 0
    case Lost(_) => 0
    case Retire(_) => 0
    case PopGlobal => 0
    case Release(_, k) => ThenOwns(k, c)
    case Mark(_, k) => ThenOwns(k, c)
    case Free(_, k) => ThenOwns(k, c)
    case CreateQueue(d) => One(d == c)
    case Initialise(d) => One(d == c)
    case SetInit(d) => One(d == c)
    case FirstPush(d, _) => One(d == c)
    case LogLaunch(_) => 0
    case ReadHandle(_, _) => 0
    case RetireFailed(d) => One(d == c)
    case Hold(q) => One(q == c)
    case Run(q, _, _) => One(q == c)
    case Length(q) => One(q == c)
    case Callback(q, _, _) => One(q == c)
    case Turn(q) => One(q == c)
    case PutBack(q, next) => One(q == c) + One(next == c)
    case LetGo(q, _) => One(q == c)
    case Drop(q, _) => One(q == c)
    case FreeQueue(q, _) => One(q == c)
  }

  function Fresh(pc: Pc, c: Id): int {
    match pc
    case CreateQueue(d) => One(d == c)
    case Initialise(d) => One(d == c)
    case SetInit(d) => One(d == c)
    case RetireFailed(d) => One(d == c)
    case Release(_, k) => ThenFresh(k, c)
    case Mark(_, k) => ThenFresh(k, c)
    case Free(_, k) => ThenFresh(k, c)
    case _ => 0
  }

  predicate Dispatches(pc: Pc, c: Id) {
    (pc.Run? || pc.Length? || pc.Callback? || pc.Turn?) && pc.q == c
  }

  /** `skynet_context_release` has told the creator that the context is deleted. */
  predicate Gone(pc: Pc, c: Id) {
    (pc.FirstPush? || pc.ReadHandle?) && !pc.alive && pc.c == c
  }

  function ViewOf(pc: Pc, c: Id): View {
    View(Refs(pc, c), Owns(pc, c),
         One(pc.Mark? && pc.c == c), One(pc.Free? && pc.c == c), Fresh(pc, c),
         One(Dispatches(pc, c)), One((pc.Drop? || pc.FreeQueue?) && pc.q == c), One(pc.FreeQueue? && pc.q == c),
         One(pc.CreateQueue? && pc.c == c), One(Gone(pc, c)))
  }

  function Plus(a: View, b: View): View {
    View(a.refs + b.refs, a.owns + b.owns, a.marks + b.marks, a.frees + b.frees,
         a.unready + b.unready, a.runs + b.runs, a.drops + b.drops, a.empties + b.empties,
         a.making + b.making, a.gone + b.gone)
  }

  function Minus(a: View, b: View): View {
    View(a.refs - b.refs, a.owns - b.owns, a.marks - b.marks, a.frees - b.frees,
         a.unready - b.unready, a.runs - b.runs, a.drops - b.drops, a.empties - b.empties,
         a.making - b.making, a.gone - b.gone)
  }

  const NONE := View(0, 0, 0, 0, 0, 0, 0, 0, 0, 0)

  /** Not negative, and possession by a creator or a dropper is possession. */
  predicate Sane(a: View) {
    && 0 <= a.refs && 0 <= a.marks && 0 <= a.frees && 0 <= a.unready && 0 <= a.runs && 0 <= a.empties
    && a.empties <= a.drops && a.unready + a.runs + a.drops <= a.owns
    && 0 <= a.making <= a.unready && a.making <= a.refs && 0 <= a.gone
  }

  function Sum(procs: seq<Pc>, c: Id): View {
    if procs == [] then NONE else Plus(Sum(procs[..|procs| - 1], c), ViewOf(procs[|procs| - 1], c))
  }

  lemma ViewSane(pc: Pc, c: Id)
    ensures Sane(ViewOf(pc, c))
  {
  }

  lemma PlusMinus(a: View, o: View, n: View, x: View)
    ensures Plus(Plus(Minus(a, o), n), x) == Plus(Minus(Plus(a, x), o), n)
    ensures Minus(Plus(a, x), x) == a
    ensures Sane(Minus(a, o)) && Sane(x) ==> Sane(Minus(Plus(a, x), o))
  {
  }

  lemma {:induction false} SumUpdate(procs: seq<Pc>, p: nat, pc: Pc, c: Id)
    requires p < |procs|
    ensures Sum(procs[p := pc], c) == Plus(Minus(Sum(procs, c), ViewOf(procs[p], c)), ViewOf(pc, c))
    ensures Sane(Minus(Sum(procs, c), ViewOf(procs[p], c)))
  {
    hide ViewOf, Plus, Minus, Sane;
    var n := |procs| - 1;
    var last := ViewOf(procs[n], c);
    ViewSane(procs[n], c);
    if p == n {
      assert procs[p := pc][..n] == procs[..n];
      SumSane(procs[..n], c);
      PlusMinus(Sum(procs[..n], c), last, last, last);
    } else {
      assert procs[p := pc][..n] == procs[..n][p := pc];
      SumUpdate(procs[..n], p, pc, c);
      PlusMinus(Sum(procs[..n], c), ViewOf(procs[p], c), ViewOf(pc, c), last);
    }
  }

  lemma {:induction false} SumSane(procs: seq<Pc>, c: Id)
    ensures Sane(Sum(procs, c))
  {
    if procs != [] {
      SumSane(procs[..|procs| - 1], c);
      ViewSane(procs[|procs| - 1], c);
    }
  }

  /** One service, seen with all processes' views of it and its number of places on the global list. */
  predicate ServiceOk(v: Service, w: View, listed: int) {
    // the context is referenced by the handle table and by exactly the processes that hold it
    && v.ref == One(v.registered) + w.refs
    // the queue has one owner while it is scheduled or released, none otherwise
    && w.owns + listed == One(!v.freed && (v.inGlobal || v.release))
    // the last reference leads to one deletion
    && w.marks + w.frees <= 1
    && (v.ref > 0 ==> w.marks + w.frees == 0)
    && v.live == (v.ref > 0 || w.marks + w.frees == 1)
    && v.release == (v.ref == 0 && w.marks == 0)
    && (v.freed ==> v.release && v.queue == [])
    // an unscheduled queue is empty
    && (!v.inGlobal ==> v.queue == [])
    && v.accepted == v.dispatched + v.dropped + v.queue
    && (v.dropped != [] ==> v.release)
    // a service that is not ready is known only to its creator
    && (v.registered && !v.init ==> w.unready == 1)
    && (w.runs > 0 ==> v.init)
    && (w.drops > 0 ==> v.release)
    && (w.empties > 0 ==> v.queue == [] && !v.inGlobal)
    // the queue is there but for the creator's first step
    && v.made == (w.making == 0)
    && (w.gone > 0 ==> !v.live)
  }

  ghost predicate ServiceInv(s: State, c: Id)
    requires c < |s.services|
  {
    ServiceOk(s.services[c], Sum(s.procs, c), multiset(s.list)[c])
  }

  ghost predicate Inv(s: State) {
    Shaped(s) && forall c :: 0 <= c < |s.services| ==> ServiceInv(s, c)
  }

  // ----- every step keeps the invariant -----

  lemma InRangeGrows(s: State, t: State, pc: Pc)
    requires InRange(s, pc) && |s.services| <= |t.services|
    ensures InRange(t, pc)
  {
  }

  lemma ShapedKeeps(s: State, t: State, p: nat)
    requires Shaped(s) && p < |s.procs| && |t.procs| == |s.procs| && t.procs == s.procs[p := t.procs[p]]
    requires |s.services| <= |t.services| && InRange(t, t.procs[p])
    requires forall c :: c in t.list ==> c < |t.services|
    ensures Shaped(t)
  {
    forall i | 0 <= i < |t.procs| ensures InRange(t, t.procs[i]) {
      if i != p {
        assert t.procs[i] == s.procs[i];
        InRangeGrows(s, t, s.procs[i]);
      }
    }
  }

  lemma ListPop(l: seq<Id>)
    requires l != []
    ensures multiset(l) == multiset{l[0]} + multiset(l[1..])
  {
    assert l == [l[0]] + l[1..];
  }

  /** What a process's own move and a change of the list do to the numbers of service `c`. */
  lemma Moved(s: State, t: State, p: nat, c: Id)
    requires p < |s.procs| && |t.procs| == |s.procs| && t.procs == s.procs[p := t.procs[p]]
    ensures Sum(t.procs, c) == Plus(Minus(Sum(s.procs, c), ViewOf(s.procs[p], c)), ViewOf(t.procs[p], c))
    ensures Sane(Minus(Sum(s.procs, c), ViewOf(s.procs[p], c)))
  {
    SumUpdate(s.procs, p, t.procs[p], c);
  }

  // ----- the numbers of one service through one step -----

  /** The views of all processes after one of them moves from `o` to `n`. */
  function Move(w: View, o: Pc, n: Pc, c: Id): View {
    Plus(Minus(w, ViewOf(o, c)), ViewOf(n, c))
  }

  predicate Rest(w: View, o: Pc, c: Id) {
    Sane(Minus(w, ViewOf(o, c)))
  }

  lemma GrabOk(v: Service, w: View, l: nat, o: Pc, n: Pc, c: Id)
    requires ServiceOk(v, w, l) && Rest(w, o, c) && v.registered
    requires (o.Grab? && n.Push? && n.c == c) || (o == Hold(c) && n.Run? && n.q == c)
    ensures ServiceOk(v.(ref := v.ref + 1), Move(w, o, n, c), l)
  {
  }

  lemma PushOk(v: Service, w: View, l: nat, m: Message, c: Id)
    requires ServiceOk(v, w, l) && Rest(w, Push(c, m), c) && v.made
    ensures ServiceOk(Pushed(v, m), Move(w, Push(c, m), Release(c, KIdle), c), l + One(!v.inGlobal))
  {
  }

  lemma ReleaseOk(v: Service, w: View, l: nat, k: Then, c: Id)
    requires ServiceOk(v, w, l) && Rest(w, Release(c, k), c)
    requires (k.KReady? || k.KRetire? || k.KDrop?) ==> k.q == c
    ensures ServiceOk(v.(ref := v.ref - 1), Move(w, Release(c, k), if v.ref == 1 then Mark(c, k) else Continue(k, true), c), l)
  {
  }

  lemma MarkOk(v: Service, w: View, l: nat, k: Then, c: Id)
    requires ServiceOk(v, w, l) && Rest(w, Mark(c, k), c)
    ensures !v.release && v.live
    ensures ServiceOk(v.(release := true), Move(w, Mark(c, k), Free(c, k), c), l + One(!v.inGlobal))
  {
  }

  lemma FreeOk(v: Service, w: View, l: nat, k: Then, c: Id)
    requires ServiceOk(v, w, l) && Rest(w, Free(c, k), c)
    requires (k.KReady? || k.KRetire? || k.KDrop?) ==> k.q == c
    ensures ServiceOk(v.(live := false), Move(w, Free(c, k), Continue(k, false), c), l)
  {
  }

  lemma RetireOk(v: Service, w: View, l: nat, o: Pc, k: Then, c: Id)
    requires ServiceOk(v, w, l) && Rest(w, o, c) && v.registered
    requires (o == Retire(c) && k == KIdle) || (o == RetireFailed(c) && k == KDrop(c))
    ensures ServiceOk(v.(registered := false), Move(w, o, Release(c, k), c), l)
  {
  }

  lemma CreateQueueOk(v: Service, w: View, l: nat, c: Id)
    requires ServiceOk(v, w, l) && Rest(w, CreateQueue(c), c)
    ensures ServiceOk(v.(made := true), Move(w, CreateQueue(c), Initialise(c), c), l)
  {
  }

  lemma SetInitOk(v: Service, w: View, l: nat, c: Id)
    requires ServiceOk(v, w, l) && Rest(w, SetInit(c), c)
    ensures ServiceOk(v.(init := true), Move(w, SetInit(c), FirstPush(c, true), c), l)
  {
  }

  /** Putting a queue on the list. */
  lemma EnlistOk(v: Service, w: View, l: nat, o: Pc, n: Pc, c: Id)
    requires ServiceOk(v, w, l) && Rest(w, o, c)
    requires (o == FirstPush(c, true) && n == LogLaunch(c)) || (o == FirstPush(c, false) && n == ReadHandle(c, false))
             || (o.LetGo? && o.q == c && n == Away(o.worker))
             || (o.PutBack? && o.q == c && n == Release(c, KHold(o.next)))
    ensures l == 0 && !v.freed
    ensures ServiceOk(v, Move(w, o, n, c), l + 1)
  {
  }

  /** Taking a queue off the list. */
  lemma PopOk(v: Service, w: View, l: nat, o: Pc, n: Pc, c: Id)
    requires ServiceOk(v, w, l) && Rest(w, o, c) && l > 0
    requires (o == PopGlobal && n == Hold(c)) || (o.Turn? && n == PutBack(o.q, c))
    ensures o.Turn? ==> o.q != c
    ensures ServiceOk(v, Move(w, o, n, c), l - 1)
  {
  }

  lemma DispatchOk(v: Service, w: View, l: nat, i: nat, n: nat, c: Id)
    requires ServiceOk(v, w, l) && Rest(w, Run(c, i, n), c)
    ensures ServiceOk(PoppedForDispatch(v),
                      Move(w, Run(c, i, n), if v.queue == [] then Release(c, KPop) else if i == 0 then Length(c) else Callback(c, i, n), c), l)
  {
  }

  lemma DropOk(v: Service, w: View, l: nat, worker: bool, c: Id)
    requires ServiceOk(v, w, l) && Rest(w, Drop(c, worker), c)
    ensures ServiceOk(PoppedToDrop(v), Move(w, Drop(c, worker), if v.queue == [] then FreeQueue(c, worker) else Drop(c, worker), c), l)
  {
    if v.queue != [] {
      Regroup(v.dispatched, v.dropped, v.queue);
    }
  }

  lemma Regroup(a: seq<Message>, b: seq<Message>, r: seq<Message>)
    requires r != []
    ensures a + (b + [r[0]]) + r[1..] == a + b + r
  {
  }

  lemma FreeQueueOk(v: Service, w: View, l: nat, worker: bool, c: Id)
    requires ServiceOk(v, w, l) && Rest(w, FreeQueue(c, worker), c)
    ensures !v.freed && l == 0
    ensures ServiceOk(v.(freed := true), Move(w, FreeQueue(c, worker), Away(worker), c), l)
  {
  }

  /** Moves that change neither the service nor the list. */
  lemma QuietOk(v: Service, w: View, l: nat, o: Pc, n: Pc, c: Id)
    requires ServiceOk(v, w, l) && Rest(w, o, c)
    requires match o
             case Push(d, _) => d == c && n == Lost(c)
             case Lost(d) => d == c && n == o
             case LogLaunch(d) => d == c && n == ReadHandle(c, true)
             case ReadHandle(d, _) => d == c && n == Idle
             case Initialise(d) => d == c && (n == Release(c, KReady(c)) || n == Release(c, KRetire(c)))
             case RetireFailed(d) => d == c && !v.registered && n == LetGo(c, false)
             case Hold(q) => q == c && n == LetGo(c, true)
             case Length(q) => q == c && n.Callback? && n.q == c
             case Callback(q, _, _) => q == c && (n.Run? || n.Turn?) && n.q == c
             case Turn(q) => q == c && (n == Release(c, KHold(c)) || (n.PutBack? && n.q == c != n.next))
             case LetGo(q, worker) => q == c && v.release && n == Drop(c, worker)
             case _ => false
    ensures ServiceOk(v, Move(w, o, n, c), l)
  {
  }

  // ----- every service through every step -----

  /** A process moves, and neither service `c` nor its place on the list is concerned. */
  lemma Untouched(s: State, t: State, p: nat, c: Id)
    requires p < |s.procs| && |t.procs| == |s.procs| && t.procs == s.procs[p := t.procs[p]]
    requires c < |s.services| && |s.services| <= |t.services| && s.services[c] == t.services[c]
    requires ServiceInv(s, c) && multiset(t.list)[c] == multiset(s.list)[c]
    requires ViewOf(s.procs[p], c) == ViewOf(t.procs[p], c)
    ensures ServiceInv(t, c)
  {
    hide Sum, ViewOf, ServiceOk;
    Moved(s, t, p, c);
  }

  ghost predicate Ready(s: State, p: nat, c: Id) {
    Shaped(s) && p < |s.procs| && c < |s.services| && ServiceInv(s, c)
  }

  lemma ReferenceOther(s: State, p: nat, c: Id)
    requires Shaped(s) && p < |s.procs| && c < |s.services|
    requires var pc := s.procs[p]; pc.Grab? || pc.Push? || pc.Lost? || pc.Retire?
    requires var pc := s.procs[p]; pc.c != c || (!pc.Push? && !pc.Lost? && !s.services[c].registered)
    ensures var t := StepReference(s, p);
            && ViewOf(s.procs[p], c) == ViewOf(t.procs[p], c)
            && s.services[c] == t.services[c] && multiset(s.list)[c] == multiset(t.list)[c]
  {
  }

  lemma DeletionOther(s: State, p: nat, c: Id)
    requires Shaped(s) && p < |s.procs| && c < |s.services|
    requires var pc := s.procs[p]; (pc.Release? || pc.Mark? || pc.Free?) && pc.c != c
    ensures var t := StepReference(s, p);
            && ViewOf(s.procs[p], c) == ViewOf(t.procs[p], c)
            && s.services[c] == t.services[c] && multiset(s.list)[c] == multiset(t.list)[c]
  {
  }

  lemma CreatorOther(s: State, p: nat, ok: bool, c: Id)
    requires Shaped(s) && p < |s.procs| && c < |s.services|
    requires IsCreator(s.procs[p])
    requires s.procs[p].c != c
    ensures var t := StepCreator(s, p, ok);
            && ViewOf(s.procs[p], c) == ViewOf(t.procs[p], c)
            && s.services[c] == t.services[c] && multiset(s.list)[c] == multiset(t.list)[c]
  {
  }

  lemma ReleaseOther(s: State, p: nat, c: Id)
    requires Shaped(s) && p < |s.procs| && c < |s.services|
    requires var pc := s.procs[p]; pc.LetGo? || pc.Drop? || pc.FreeQueue?
    requires s.procs[p].q != c
    ensures var t := StepRelease(s, p);
            && ViewOf(s.procs[p], c) == ViewOf(t.procs[p], c)
            && s.services[c] == t.services[c] && multiset(s.list)[c] == multiset(t.list)[c]
  {
  }

  lemma TakeOther(s: State, p: nat, weight: int, c: Id)
    requires Shaped(s) && p < |s.procs| && c < |s.services|
    requires s.procs[p].PopGlobal? || s.procs[p].Turn?
    requires s.procs[p] != Turn(c) && (s.list != [] ==> s.list[0] != c)
    ensures var t := StepWorker(s, p, weight);
            && ViewOf(s.procs[p], c) == ViewOf(t.procs[p], c)
            && s.services[c] == t.services[c] && multiset(s.list)[c] == multiset(t.list)[c]
  {
    if s.list != [] { ListPop(s.list); }
  }

  lemma WorkerOther(s: State, p: nat, weight: int, c: Id)
    requires Shaped(s) && p < |s.procs| && c < |s.services|
    requires var pc := s.procs[p]; pc.Hold? || pc.Run? || pc.Length? || pc.Callback? || pc.PutBack?
    requires s.procs[p].q != c
    ensures var t := StepWorker(s, p, weight);
            && ViewOf(s.procs[p], c) == ViewOf(t.procs[p], c)
            && s.services[c] == t.services[c] && multiset(s.list)[c] == multiset(t.list)[c]
  {
  }

  lemma ReferenceKeeps(s: State, p: nat, c: Id)
    requires Ready(s, p, c)
    requires var pc := s.procs[p]; pc.Grab? || pc.Push? || pc.Lost? || pc.Retire?
    ensures ServiceInv(StepReference(s, p), c)
  {
    hide Sum, Sane, Plus, Minus, ServiceOk, ViewOf;
    var t := StepReference(s, p);
    var v, w, l := s.services[c], Sum(s.procs, c), multiset(s.list)[c];
    Moved(s, t, p, c);
    if s.procs[p].c != c || ((s.procs[p].Grab? || s.procs[p].Retire?) && !v.registered) {
      ReferenceOther(s, p, c);
      Untouched(s, t, p, c);
    } else {
      match s.procs[p] {
        case Grab(_, _) => GrabOk(v, w, l, s.procs[p], t.procs[p], c);
        case Push(_, m) => if v.made { PushOk(v, w, l, m, c); } else { QuietOk(v, w, l, s.procs[p], t.procs[p], c); }
        case Lost(_) => QuietOk(v, w, l, s.procs[p], t.procs[p], c);
        case Retire(_) => RetireOk(v, w, l, s.procs[p], KIdle, c);
      }
    }
  }

  lemma DeletionKeeps(s: State, p: nat, c: Id)
    requires Ready(s, p, c)
    requires var pc := s.procs[p]; pc.Release? || pc.Mark? || pc.Free?
    ensures ServiceInv(StepReference(s, p), c)
  {
    hide Sum, Sane, Plus, Minus, ServiceOk, ViewOf;
    var t := StepReference(s, p);
    var v, w, l := s.services[c], Sum(s.procs, c), multiset(s.list)[c];
    Moved(s, t, p, c);
    if s.procs[p].c != c {
      DeletionOther(s, p, c);
      Untouched(s, t, p, c);
    } else {
      match s.procs[p] {
        case Release(_, k) => ReleaseOk(v, w, l, k, c);
        case Mark(_, k) => MarkOk(v, w, l, k, c);
        case Free(_, k) => FreeOk(v, w, l, k, c);
      }
    }
  }

  lemma CreatorKeeps(s: State, p: nat, ok: bool, c: Id)
    requires Ready(s, p, c)
    requires IsCreator(s.procs[p])
    ensures ServiceInv(StepCreator(s, p, ok), c)
  {
    hide Sum, Sane, Plus, Minus, ServiceOk, ViewOf;
    var t := StepCreator(s, p, ok);
    var v, w, l := s.services[c], Sum(s.procs, c), multiset(s.list)[c];
    Moved(s, t, p, c);
    if s.procs[p].c != c {
      CreatorOther(s, p, ok, c);
      Untouched(s, t, p, c);
    } else {
      match s.procs[p] {
        case CreateQueue(_) => CreateQueueOk(v, w, l, c);
        case LogLaunch(_) => QuietOk(v, w, l, s.procs[p], t.procs[p], c);
        case ReadHandle(_, _) => QuietOk(v, w, l, s.procs[p], t.procs[p], c);
        case Initialise(_) => QuietOk(v, w, l, s.procs[p], t.procs[p], c);
        case SetInit(_) => SetInitOk(v, w, l, c);
        case FirstPush(_, _) => EnlistOk(v, w, l, s.procs[p], t.procs[p], c);
        case RetireFailed(_) =>
          if v.registered { RetireOk(v, w, l, s.procs[p], KDrop(c), c); } else { QuietOk(v, w, l, s.procs[p], t.procs[p], c); }
      }
    }
  }

  lemma ReleaseKeeps(s: State, p: nat, c: Id)
    requires Ready(s, p, c)
    requires var pc := s.procs[p]; pc.LetGo? || pc.Drop? || pc.FreeQueue?
    ensures ServiceInv(StepRelease(s, p), c)
  {
    hide Sum, Sane, Plus, Minus, ServiceOk, ViewOf;
    var t := StepRelease(s, p);
    var v, w, l := s.services[c], Sum(s.procs, c), multiset(s.list)[c];
    Moved(s, t, p, c);
    if s.procs[p].q != c {
      ReleaseOther(s, p, c);
      Untouched(s, t, p, c);
    } else {
      match s.procs[p] {
        case LetGo(_, _) =>
          if v.release { QuietOk(v, w, l, s.procs[p], t.procs[p], c); } else { EnlistOk(v, w, l, s.procs[p], t.procs[p], c); }
        case Drop(_, worker) => DropOk(v, w, l, worker, c);
        case FreeQueue(_, worker) => FreeQueueOk(v, w, l, worker, c);
      }
    }
  }

  lemma TakeKeeps(s: State, p: nat, weight: int, c: Id)
    requires Ready(s, p, c)
    requires s.procs[p].PopGlobal? || s.procs[p].Turn?
    ensures ServiceInv(StepWorker(s, p, weight), c)
  {
    hide Sum, Sane, Plus, Minus, ServiceOk, ViewOf;
    var t := StepWorker(s, p, weight);
    var v, w, l := s.services[c], Sum(s.procs, c), multiset(s.list)[c];
    Moved(s, t, p, c);
    if s.list != [] {
      ListPop(s.list);
      if s.list[0] == c {
        PopOk(v, w, l, s.procs[p], t.procs[p], c);
      } else if s.procs[p] == Turn(c) {
        QuietOk(v, w, l, s.procs[p], t.procs[p], c);
      } else {
        TakeOther(s, p, weight, c);
        Untouched(s, t, p, c);
      }
    } else if s.procs[p] == Turn(c) {
      QuietOk(v, w, l, s.procs[p], t.procs[p], c);
    } else {
      TakeOther(s, p, weight, c);
      Untouched(s, t, p, c);
    }
  }

  lemma WorkerKeeps(s: State, p: nat, weight: int, c: Id)
    requires Ready(s, p, c)
    requires var pc := s.procs[p]; pc.Hold? || pc.Run? || pc.Length? || pc.Callback? || pc.PutBack?
    ensures ServiceInv(StepWorker(s, p, weight), c)
  {
    hide Sum, Sane, Plus, Minus, ServiceOk, ViewOf;
    var t := StepWorker(s, p, weight);
    var v, w, l := s.services[c], Sum(s.procs, c), multiset(s.list)[c];
    Moved(s, t, p, c);
    if s.procs[p].q != c {
      WorkerOther(s, p, weight, c);
      Untouched(s, t, p, c);
    } else {
      match s.procs[p] {
        case Hold(_) =>
          if v.registered { GrabOk(v, w, l, s.procs[p], t.procs[p], c); } else { QuietOk(v, w, l, s.procs[p], t.procs[p], c); }
        case Run(_, i, n) => DispatchOk(v, w, l, i, n, c);
        case Length(_) => QuietOk(v, w, l, s.procs[p], t.procs[p], c);
        case Callback(_, _, _) => QuietOk(v, w, l, s.procs[p], t.procs[p], c);
        case PutBack(_, _) => EnlistOk(v, w, l, s.procs[p], t.procs[p], c);
      }
    }
  }

  // ----- starting an operation -----

  lemma UnknownTo(s: State, pc: Pc, c: Id)
    requires c >= |s.services| && InRange(s, pc)
    ensures ViewOf(pc, c) == NONE
  {
  }

  lemma {:induction false} NobodyKnows(s: State, procs: seq<Pc>, c: Id)
    requires c >= |s.services| && forall p :: 0 <= p < |procs| ==> InRange(s, procs[p])
    ensures Sum(procs, c) == NONE
  {
    hide ViewOf, InRange;
    if procs != [] {
      NobodyKnows(s, procs[..|procs| - 1], c);
      UnknownTo(s, procs[|procs| - 1], c);
    }
  }

  lemma StartKeeps(s: State, p: nat, a: Action, c: Id)
    requires Ready(s, p, c) && s.procs[p] == Idle && !a.Go?
    ensures ServiceInv(Start(s, p, a), c)
  {
    Untouched(s, Start(s, p, a), p, c);
  }

  lemma NewKeeps(s: State, p: nat)
    requires Shaped(s) && p < |s.procs| && s.procs[p] == Idle
    ensures ServiceInv(Start(s, p, StartNew), |s.services|)
  {
    hide Sum, ServiceOk, ViewOf, InRange, Plus, Minus;
    var t, c := Start(s, p, StartNew), |s.services|;
    NobodyKnows(s, s.procs, c);
    assert c !in s.list;
    assert c !in multiset(s.list);
    Moved(s, t, p, c);
    NewOk(t.services[c], Sum(s.procs, c), multiset(s.list)[c], s.procs[p], t.procs[p], c);
  }

  lemma IdleView(o: Pc, c: Id)
    requires o.Idle?
    ensures ViewOf(o, c) == NONE
  {
  }

  lemma CreatorView(n: Pc, c: Id)
    requires n.CreateQueue? && n.c == c
    ensures ViewOf(n, c) == View(1, 1, 0, 0, 1, 0, 0, 0, 1, 0)
  {
  }

  lemma NewOk(v: Service, w: View, l: nat, o: Pc, n: Pc, c: Id)
    requires v == Created() && w == NONE && l == 0
    requires o.Idle? && n.CreateQueue? && n.c == c
    ensures ServiceOk(v, Move(w, o, n, c), l)
  {
    hide ViewOf;
    IdleView(o, c);
    CreatorView(n, c);
  }

  // ----- shape -----

  lemma StepShaped(s: State, st: Step)
    requires Shaped(s) && Enabled(s, st)
    ensures Shaped(Apply(s, st)) && |s.services| <= |Apply(s, st).services|
  {
    var t := Apply(s, st);
    NewRange(s, st);
    ShapedKeeps(s, t, st.p);
  }

  ghost predicate Ranged(s: State, p: nat, t: State) {
    && |s.services| <= |t.services| && p < |t.procs| == |s.procs| && t.procs == s.procs[p := t.procs[p]]
    && InRange(t, t.procs[p])
    && forall c :: c in t.list ==> c < |t.services|
  }

  lemma StartRanged(s: State, p: nat, a: Action)
    requires Shaped(s) && p < |s.procs|
    requires !a.Go?
    ensures Ranged(s, p, Start(s, p, a))
  {
  }

  lemma ReferenceRanged(s: State, p: nat)
    requires Shaped(s) && p < |s.procs|
    requires var pc := s.procs[p]; pc.Grab? || pc.Push? || pc.Lost? || pc.Release? || pc.Mark? || pc.Free? || pc.Retire?
    ensures Ranged(s, p, StepReference(s, p))
  {
  }

  lemma CreatorRanged(s: State, p: nat, ok: bool)
    requires Shaped(s) && p < |s.procs|
    requires IsCreator(s.procs[p])
    ensures Ranged(s, p, StepCreator(s, p, ok))
  {
  }

  lemma ReleaseRanged(s: State, p: nat)
    requires Shaped(s) && p < |s.procs|
    requires var pc := s.procs[p]; pc.LetGo? || pc.Drop? || pc.FreeQueue?
    ensures Ranged(s, p, StepRelease(s, p))
  {
  }

  lemma TakeRanged(s: State, p: nat, weight: int)
    requires Shaped(s) && p < |s.procs|
    requires s.procs[p].PopGlobal? || s.procs[p].Turn?
    ensures Ranged(s, p, StepWorker(s, p, weight))
  {
    if s.list != [] {
      assert s.list[0] in s.list;
      assert forall c :: c in s.list[1..] ==> c in s.list;
    }
  }

  lemma WorkerRanged(s: State, p: nat, weight: int)
    requires Shaped(s) && p < |s.procs|
    requires var pc := s.procs[p]; pc.Hold? || pc.Run? || pc.Length? || pc.Callback? || pc.PutBack?
    ensures Ranged(s, p, StepWorker(s, p, weight))
  {
  }

  lemma NewRange(s: State, st: Step)
    requires Shaped(s) && Enabled(s, st)
    ensures Ranged(s, st.p, Apply(s, st))
  {
    hide Ranged, Start, StepReference, StepCreator, StepRelease, StepWorker;
    var pc := s.procs[st.p];
    if !st.action.Go? { StartRanged(s, st.p, st.action); }
    else if pc.Grab? || pc.Push? || pc.Lost? || pc.Release? || pc.Mark? || pc.Free? || pc.Retire? { ReferenceRanged(s, st.p); }
    else if IsCreator(pc) { CreatorRanged(s, st.p, st.action.ok); }
    else if pc.LetGo? || pc.Drop? || pc.FreeQueue? { ReleaseRanged(s, st.p); }
    else if pc.PopGlobal? || pc.Turn? { TakeRanged(s, st.p, st.action.weight); }
    else { WorkerRanged(s, st.p, st.action.weight); }
  }

  lemma StepKeepsService(s: State, st: Step, c: Id)
    requires Enabled(s, st) && Ready(s, st.p, c)
    ensures c < |Apply(s, st).services| && ServiceInv(Apply(s, st), c)
  {
    hide ServiceInv, Start, StepReference, StepCreator, StepRelease, StepWorker;
    var pc := s.procs[st.p];
    StepShaped(s, st);
    if !st.action.Go? { StartKeeps(s, st.p, st.action, c); }
    else if pc.Grab? || pc.Push? || pc.Lost? || pc.Retire? { ReferenceKeeps(s, st.p, c); }
    else if pc.Release? || pc.Mark? || pc.Free? { DeletionKeeps(s, st.p, c); }
    else if IsCreator(pc) { CreatorKeeps(s, st.p, st.action.ok, c); }
    else if pc.LetGo? || pc.Drop? || pc.FreeQueue? { ReleaseKeeps(s, st.p, c); }
    else if pc.PopGlobal? || pc.Turn? { TakeKeeps(s, st.p, st.action.weight, c); }
    else { WorkerKeeps(s, st.p, st.action.weight, c); }
  }

  lemma StepKeeps(s: State, st: Step)
    requires Inv(s) && Enabled(s, st)
    ensures Inv(Apply(s, st))
  {
    hide ServiceInv;
    StepShaped(s, st);
    var t := Apply(s, st);
    forall c | 0 <= c < |t.services| ensures ServiceInv(t, c) {
      if c < |s.services| { StepKeepsService(s, st, c); }
      else { NewKeeps(s, st.p); }
    }
  }

  lemma {:induction false} RunKeeps(s: State, steps: seq<Step>, t: State)
    requires Inv(s) && Leads(s, steps, t)
    ensures Inv(t)
    decreases |steps|
  {
    if steps != [] {
      StepKeeps(s, steps[0]);
      RunKeeps(Apply(s, steps[0]), steps[1..], t);
    }
  }

  lemma EveryReachableState(t: State)
    requires Reachable(t)
    ensures Inv(t)
  {
    var s, steps :| Initial(s) && Leads(s, steps, t);
    RunKeeps(s, steps, t);
  }
}
