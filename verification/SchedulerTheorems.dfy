/**
  The promises of the scheduler, for every state of every run.
 */
module SchedulerTheorems {
  import opened Scheduler
  import opened SchedulerProof

  // ----- from the numbers back to processes -----

  /** Two different processes' shares add up to no more than the total. */
  lemma Shares(procs: seq<Pc>, p: nat, q: nat, c: Id)
    requires p < |procs| && q < |procs| && p != q
    ensures Owns(procs[p], c) + Owns(procs[q], c) <= Sum(procs, c).owns
  {
    hide ViewOf, Sum;
    SumUpdate(procs, p, Idle, c);
    SumUpdate(procs[p := Idle], q, Idle, c);
    Positions(procs[p], c);
    Positions(procs[q], c);
    Positions(Idle, c);
  }

  lemma Positions(pc: Pc, c: Id)
    ensures ViewOf(pc, c).owns == Owns(pc, c) >= 0 && ViewOf(pc, c).refs == Refs(pc, c) >= 0
    ensures pc.Idle? ==> ViewOf(pc, c) == NONE
    ensures Dispatches(pc, c) ==> Owns(pc, c) == 1 && Refs(pc, c) == 1
  {
  }

  lemma {:induction false} SomeOwner(procs: seq<Pc>, c: Id)
    requires Sum(procs, c).owns > 0
    ensures exists p :: 0 <= p < |procs| && Owns(procs[p], c) > 0
  {
    hide Owns;
    var n := |procs| - 1;
    if Owns(procs[n], c) <= 0 {
      SomeOwner(procs[..n], c);
      var p :| 0 <= p < |procs[..n]| && Owns(procs[..n][p], c) > 0;
      assert procs[p] == procs[..n][p];
    }
  }

  lemma Share(procs: seq<Pc>, p: nat, c: Id)
    requires p < |procs|
    ensures Sane(Minus(Sum(procs, c), ViewOf(procs[p], c)))
  {
    SumUpdate(procs, p, Idle, c);
  }

  // ----- ownership -----

  ghost predicate Owner(s: State, p: nat, c: Id) {
    p < |s.procs| && Owns(s.procs[p], c) > 0
  }

  /** On the global list once and held by no process, or off the list and held by one process. */
  ghost predicate OwnedOnce(s: State, c: Id) {
    || (multiset(s.list)[c] == 1 && forall p: nat :: !Owner(s, p, c))
    || (c !in s.list && exists p: nat :: Owner(s, p, c) && forall q: nat :: Owner(s, q, c) ==> q == p)
  }

  ghost predicate Unowned(s: State, c: Id) {
    c !in s.list && forall p: nat :: !Owner(s, p, c)
  }

  lemma OwnersCounted(s: State, c: Id)
    requires Inv(s) && c < |s.services|
    ensures var n := Sum(s.procs, c).owns;
            && n + multiset(s.list)[c] == One(!s.services[c].freed && (s.services[c].inGlobal || s.services[c].release))
            && (n <= 0 ==> forall p: nat :: !Owner(s, p, c))
            && (n == 1 ==> exists p: nat :: Owner(s, p, c) && forall q: nat :: Owner(s, q, c) ==> q == p)
            && 0 <= n
  {
    hide Sum, Owns;
    assert ServiceInv(s, c);
    var n := Sum(s.procs, c).owns;
    SumSane(s.procs, c);
    if n == 1 {
      SomeOwner(s.procs, c);
      var p :| 0 <= p < |s.procs| && Owns(s.procs[p], c) > 0;
      assert Owner(s, p, c);
      forall q: nat | Owner(s, q, c) ensures q == p {
        if q != p { Shares(s.procs, p, q, c); }
      }
    }
    forall p: nat | n <= 0 ensures !Owner(s, p, c) {
      if p < |s.procs| {
        Share(s.procs, p, c);
        Positions(s.procs[p], c);
      }
    }
  }

  /**
    A queue that is scheduled or released and not yet freed has exactly one owner; any other has
    none.
   */
  lemma Ownership(s: State, c: Id)
    requires Reachable(s) && c < |s.services|
    ensures var v := s.services[c];
            if !v.freed && (v.inGlobal || v.release) then OwnedOnce(s, c) else Unowned(s, c)
  {
    EveryReachableState(s);
    hide Sum, Owner;
    OwnersCounted(s, c);
    assert c in s.list <==> c in multiset(s.list);
  }

  /** No two threads dispatch one service at once, and its context outlives the dispatch. */
  lemma OneDispatcher(s: State, p: nat, q: nat, c: Id)
    requires Reachable(s) && p < |s.procs| && q < |s.procs| && c < |s.services|
    requires Dispatches(s.procs[p], c)
    ensures Dispatches(s.procs[q], c) ==> p == q
    ensures s.services[c].live && !s.services[c].freed && s.services[c].init && c !in s.list
  {
    hide Sum, ViewOf, ServiceOk, Refs, Owns;
    EveryReachableState(s);
    assert ServiceInv(s, c);
    if p != q && Dispatches(s.procs[q], c) {
      Shares(s.procs, p, q, c);
      Positions(s.procs[p], c);
      Positions(s.procs[q], c);
    }
    Share(s.procs, p, c);
    DispatchedService(s.services[c], Sum(s.procs, c), multiset(s.list)[c], s.procs[p], c);
    assert c in s.list <==> c in multiset(s.list);
  }

  lemma DispatchedService(v: Service, w: View, l: nat, pc: Pc, c: Id)
    requires ServiceOk(v, w, l) && Sane(Minus(w, ViewOf(pc, c))) && Dispatches(pc, c)
    ensures v.live && !v.freed && v.init && l == 0 && w.owns <= 1
  {
  }

  /** A message in a queue is never forgotten: the queue is on the list or in some thread's hands. */
  lemma NotStranded(s: State, c: Id)
    requires Reachable(s) && c < |s.services| && s.services[c].queue != []
    ensures OwnedOnce(s, c)
  {
    EveryReachableState(s);
    assert ServiceInv(s, c);
    Ownership(s, c);
  }

  // ----- messages -----

  /** Messages leave in the order they came, each once; they are dropped only after the service is gone. */
  lemma Fifo(s: State, c: Id)
    requires Reachable(s) && c < |s.services|
    ensures var v := s.services[c];
            && v.accepted == v.dispatched + v.dropped + v.queue
            && (v.dropped != [] ==> v.release && !v.registered)
  {
    EveryReachableState(s);
    hide Sum;
    assert ServiceInv(s, c);
    SumSane(s.procs, c);
  }

  predicate Extends(v: Service, w: Service) {
    && v.accepted <= w.accepted && v.dispatched <= w.dispatched && v.dropped <= w.dropped
    && (w.registered ==> v.registered) && (v.release ==> w.release) && (v.freed ==> w.freed) && (w.live ==> v.live)
    && (v.made ==> w.made)
    && (v.freed ==> v.(live := w.live, init := w.init) == w)
  }

  /** A freed queue belongs to a service that the process has nothing to do with any more. */
  predicate Finished(v: Service, pc: Pc, c: Id) {
    v.freed ==> !v.registered && Refs(pc, c) == 0 && Owns(pc, c) == 0 && !(pc.Mark? && pc.c == c)
  }

  lemma PopExtends(v: Service)
    requires !v.freed
    ensures Extends(v, PoppedForDispatch(v))
  {
  }

  lemma DropExtends(v: Service)
    requires !v.freed
    ensures Extends(v, PoppedToDrop(v))
  {
  }

  lemma PushExtends(v: Service, m: Message)
    requires !v.freed
    ensures Extends(v, Pushed(v, m))
  {
  }

  lemma ReferenceExtends(s: State, p: nat, c: Id)
    requires Shaped(s) && p < |s.procs| && c < |s.services| && Finished(s.services[c], s.procs[p], c)
    requires var pc := s.procs[p]; pc.Grab? || pc.Push? || pc.Lost? || pc.Release? || pc.Mark? || pc.Free? || pc.Retire?
    ensures Extends(s.services[c], StepReference(s, p).services[c])
  {
    hide Pushed;
    if s.procs[p].Push? && s.procs[p].c == c { PushExtends(s.services[c], s.procs[p].m); }
  }

  lemma CreatorExtends(s: State, p: nat, ok: bool, c: Id)
    requires Shaped(s) && p < |s.procs| && c < |s.services| && Finished(s.services[c], s.procs[p], c)
    requires IsCreator(s.procs[p])
    ensures Extends(s.services[c], StepCreator(s, p, ok).services[c])
  {
  }

  lemma ReleaseExtends(s: State, p: nat, c: Id)
    requires Shaped(s) && p < |s.procs| && c < |s.services| && Finished(s.services[c], s.procs[p], c)
    requires var pc := s.procs[p]; pc.LetGo? || pc.Drop? || pc.FreeQueue?
    ensures Extends(s.services[c], StepRelease(s, p).services[c])
  {
    hide PoppedToDrop;
    if s.procs[p].Drop? && s.procs[p].q == c { DropExtends(s.services[c]); }
  }

  lemma WorkerExtends(s: State, p: nat, weight: int, c: Id)
    requires Shaped(s) && p < |s.procs| && c < |s.services| && Finished(s.services[c], s.procs[p], c)
    requires var pc := s.procs[p];
             pc.PopGlobal? || pc.Hold? || pc.Run? || pc.Length? || pc.Callback? || pc.Turn? || pc.PutBack?
    ensures Extends(s.services[c], StepWorker(s, p, weight).services[c])
  {
    hide PoppedForDispatch;
    if s.procs[p].Run? && s.procs[p].q == c { PopExtends(s.services[c]); }
  }

  lemma FreedIsFinished(s: State, p: nat, c: Id)
    requires Inv(s) && p < |s.procs| && c < |s.services|
    ensures Finished(s.services[c], s.procs[p], c)
  {
    hide Sum;
    assert ServiceInv(s, c);
    Share(s.procs, p, c);
    assert multiset(s.list)[c] >= 0;
  }

  /** Histories only grow, and nothing happens to a freed queue any more. */
  lemma HistoryGrows(s: State, st: Step, c: Id)
    requires Reachable(s) && Enabled(s, st) && c < |s.services|
    ensures c < |Apply(s, st).services| && Extends(s.services[c], Apply(s, st).services[c])
  {
    hide Inv, Extends, Finished, Start, StepReference, StepCreator, StepRelease, StepWorker;
    EveryReachableState(s);
    InvShaped(s);
    StepShaped(s, st);
    FreedIsFinished(s, st.p, c);
    var pc := s.procs[st.p];
    if !st.action.Go? { StartExtends(s, st.p, st.action, c); }
    else if pc.Grab? || pc.Push? || pc.Lost? || pc.Release? || pc.Mark? || pc.Free? || pc.Retire? { ReferenceExtends(s, st.p, c); }
    else if IsCreator(pc) { CreatorExtends(s, st.p, st.action.ok, c); }
    else if pc.LetGo? || pc.Drop? || pc.FreeQueue? { ReleaseExtends(s, st.p, c); }
    else { WorkerExtends(s, st.p, st.action.weight, c); }
  }

  lemma InvShaped(s: State)
    requires Inv(s)
    ensures Shaped(s)
  {
  }

  lemma StartExtends(s: State, p: nat, a: Action, c: Id)
    requires p < |s.procs| && c < |s.services| && !a.Go?
    ensures c < |Start(s, p, a).services| && Extends(s.services[c], Start(s, p, a).services[c])
  {
  }

  // ----- memory and assertions -----

  /** The queue a process is about to read or change. */
  predicate UsesQueue(pc: Pc, c: Id) {
    match pc
    case Push(d, _) => d == c
    case Mark(d, _) => d == c
    case FirstPush(d, _) => d == c
    case Hold(q) => q == c
    case Run(q, _, _) => q == c
    case Length(q) => q == c
    case PutBack(q, _) => q == c
    case LetGo(q, _) => q == c
    case Drop(q, _) => q == c
    case FreeQueue(q, _) => q == c
    case _ => false
  }

  /** The context a process is about to use; what its creator does with it after giving it up is not among them. */
  predicate UsesContext(pc: Pc, c: Id) {
    match pc
    case Push(d, _) => d == c
    case Release(d, _) => d == c
    case Mark(d, _) => d == c
    case Free(d, _) => d == c
    case CreateQueue(d) => d == c
    case Initialise(d) => d == c
    case _ => Dispatches(pc, c)
  }

  /** The creator writes or reads the context after it has given up its reference. */
  predicate UsesLate(pc: Pc, c: Id) {
    (pc.SetInit? || pc.LogLaunch? || pc.ReadHandle?) && pc.c == c
  }

  /** A queue that a process is about to put on the global list. */
  predicate Enlists(s: State, pc: Pc, c: Id)
    requires c < |s.services|
  {
    match pc
    case Push(d, _) => d == c && !s.services[c].inGlobal
    case Mark(d, _) => d == c && !s.services[c].inGlobal
    case FirstPush(d, _) => d == c
    case PutBack(q, _) => q == c
    case LetGo(q, _) => q == c && !s.services[c].release
    case _ => false
  }

  /**
    No step of any run uses a freed queue (so none is freed twice), or a freed context but for the
    creator's late uses, or, a push apart, a queue that is not there yet; and the assertions of the
    program hold: a queue put on the list is not on it, a queue is marked for release once, a queue
    is freed off the list, and a dispatched service is ready.
   */
  lemma StepsAreSafe(s: State, p: nat, c: Id)
    requires Reachable(s) && p < |s.procs| && c < |s.services|
    ensures var v, pc := s.services[c], s.procs[p];
            && (UsesQueue(pc, c) ==> !v.freed)
            && (UsesQueue(pc, c) && !pc.Push? ==> v.made)
            && (UsesContext(pc, c) ==> v.live)
            && (Enlists(s, pc, c) ==> c !in s.list)
            && (pc.Mark? && pc.c == c ==> !v.release)
            && (pc.FreeQueue? && pc.q == c ==> c !in s.list && v.queue == [] && v.release)
            && (pc.Callback? && pc.q == c ==> v.init)
  {
    EveryReachableState(s);
    hide Sum;
    assert ServiceInv(s, c);
    Share(s.procs, p, c);
    assert c in s.list <==> c in multiset(s.list);
    assert multiset(s.list)[c] >= 0;
  }

  // ----- the life of a context -----

  /** The process has a reference to the context or is deleting it. */
  predicate Holds(pc: Pc, c: Id) {
    Refs(pc, c) > 0 || ((pc.Mark? || pc.Free?) && pc.c == c)
  }

  lemma {:induction false} SomeHolder(procs: seq<Pc>, c: Id)
    ensures var w := Sum(procs, c); w.refs + w.marks + w.frees > 0 <==> exists p :: 0 <= p < |procs| && Holds(procs[p], c)
  {
    hide Refs, ViewOf, Holds;
    if procs != [] {
      var n := |procs| - 1;
      SomeHolder(procs[..n], c);
      SumSane(procs[..n], c);
      HolderView(procs[n], c);
      if exists p :: 0 <= p < n && Holds(procs[..n][p], c) {
        var p :| 0 <= p < n && Holds(procs[..n][p], c);
        assert procs[p] == procs[..n][p];
      }
      forall p | 0 <= p < n ensures procs[p] == procs[..n][p] {
      }
    }
  }

  lemma HolderView(pc: Pc, c: Id)
    ensures var w := ViewOf(pc, c); w.refs >= 0 && w.marks >= 0 && w.frees >= 0 && (w.refs + w.marks + w.frees > 0 <==> Holds(pc, c))
  {
  }

  /** A context is allocated exactly while it is registered, or a process holds or deletes it. */
  lemma ContextLife(s: State, c: Id)
    requires Reachable(s) && c < |s.services|
    ensures s.services[c].live <==> s.services[c].registered || exists p :: 0 <= p < |s.procs| && Holds(s.procs[p], c)
    ensures s.services[c].ref == One(s.services[c].registered) + Sum(s.procs, c).refs
  {
    EveryReachableState(s);
    hide Sum, Holds;
    assert ServiceInv(s, c);
    SomeHolder(s.procs, c);
    SumSane(s.procs, c);
  }

  // ----- at rest -----

  ghost predicate AtRest(s: State) {
    s.list == [] && forall p :: 0 <= p < |s.procs| ==> s.procs[p] == Idle
  }

  lemma {:induction false} NothingHeld(procs: seq<Pc>, c: Id)
    requires forall p :: 0 <= p < |procs| ==> procs[p] == Idle
    ensures Sum(procs, c) == NONE
  {
    hide ViewOf, Plus;
    if procs != [] {
      NothingHeld(procs[..|procs| - 1], c);
      Positions(procs[|procs| - 1], c);
      PlusNone(Sum(procs[..|procs| - 1], c), ViewOf(procs[|procs| - 1], c));
    }
  }

  lemma PlusNone(a: View, b: View)
    requires b == NONE
    ensures Plus(a, b) == a
  {
  }

  /**
    When nothing is left to do, a service is either ready with all its messages dispatched, or it
    is gone with everything freed and every message dispatched or dropped.
   */
  lemma Rest(s: State, c: Id)
    requires Reachable(s) && AtRest(s) && c < |s.services|
    ensures var v := s.services[c];
            || (v.registered && v.ref == 1 && v.live && v.init && !v.freed && v.queue == [] && v.accepted == v.dispatched)
            || (!v.registered && v.ref == 0 && !v.live && v.freed && v.accepted == v.dispatched + v.dropped)
  {
    EveryReachableState(s);
    assert ServiceInv(s, c);
    NothingHeld(s.procs, c);
    hide Sum;
  }

  // ----- the creator's late uses of its context -----

  lemma {:induction false} OneMore(s: State, steps: seq<Step>, t: State, st: Step)
    requires Leads(s, steps, t) && Enabled(t, st)
    ensures Leads(s, steps + [st], Apply(t, st))
    decreases |steps|
  {
    hide Apply;
    var all := steps + [st];
    if steps == [] {
      assert all[1..] == [];
    } else {
      OneMore(Apply(s, steps[0]), steps[1..], t, st);
      assert all[1..] == steps[1..] + [st];
    }
  }

  lemma ReachStep(t: State, st: Step)
    requires Reachable(t) && Enabled(t, st)
    ensures Reachable(Apply(t, st))
  {
    hide Apply;
    var s, steps :| Initial(s) && Leads(s, steps, t);
    OneMore(s, steps, t, st);
  }

  lemma Reaches(t: State, st: Step, u: State)
    requires Reachable(t) && Enabled(t, st) && u == Apply(t, st)
    ensures Reachable(u)
  {
    hide Apply, Reachable;
    ReachStep(t, st);
  }

  /**
    A late use touches freed memory exactly when the service is no longer registered and no other
    process holds its context; always, when the creator itself has deleted it.
   */
  lemma LateUses(s: State, p: nat, c: Id)
    requires Reachable(s) && p < |s.procs| && UsesLate(s.procs[p], c) && c < |s.services|
    ensures s.services[c].live <==> s.services[c].registered || exists q :: 0 <= q < |s.procs| && q != p && Holds(s.procs[q], c)
    ensures s.procs[p] == ReadHandle(c, false) ==> !s.services[c].live
  {
    ContextLife(s, c);
    EveryReachableState(s);
    hide Sum;
    assert ServiceInv(s, c);
    Share(s.procs, p, c);
  }

  function Two(v: Service, a: Pc, b: Pc): State {
    State([v], [], [a, b])
  }

  const GO := Go(0, true)

  lemma Start2()
    ensures Reachable(State([], [], [Idle, Idle]))
  {
    var s := State([], [], [Idle, Idle]);
    assert Initial(s) && Leads(s, [], s);
  }

  /** A new service, registered, and its queue not made yet. */
  lemma Registering()
    ensures Reachable(Two(Created(), CreateQueue(0), Idle))
  {
    hide Reachable;
    Start2();
    Reaches(State([], [], [Idle, Idle]), Step(0, StartNew), Two(Created(), CreateQueue(0), Idle));
  }

  lemma Making()
    ensures Reachable(Two(Created().(made := true), Initialise(0), Idle))
  {
    hide Reachable;
    Registering();
    Reaches(Two(Created(), CreateQueue(0), Idle), Step(0, GO), Two(Created().(made := true), Initialise(0), Idle));
  }

  /** The other thread retires the service, whatever its creator is about. */
  lemma Retired(v: Service, a: Pc)
    requires Reachable(Two(v, a, Idle)) && v.registered
    ensures Reachable(Two(v.(registered := false), a, Release(0, KIdle)))
  {
    hide Reachable;
    Reaches(Two(v, a, Idle), Step(1, StartRetire(0)), Two(v, a, Retire(0)));
    Reaches(Two(v, a, Retire(0)), Step(1, GO), Two(v.(registered := false), a, Release(0, KIdle)));
  }

  lemma Released(v: Service, a: Pc)
    requires Reachable(Two(v, a, Release(0, KIdle))) && v.ref == 2
    ensures Reachable(Two(v.(ref := 1), a, Idle))
  {
    hide Reachable;
    Reaches(Two(v, a, Release(0, KIdle)), Step(1, GO), Two(v.(ref := 1), a, Idle));
  }

  lemma LastReleased(v: Service, a: Pc)
    requires Reachable(Two(v, a, Release(0, KIdle))) && v.ref == 1
    ensures Reachable(Two(v.(ref := 0), a, Mark(0, KIdle)))
  {
    hide Reachable;
    Reaches(Two(v, a, Release(0, KIdle)), Step(1, GO), Two(v.(ref := 0), a, Mark(0, KIdle)));
  }

  lemma Deleted(v: Service, a: Pc)
    requires Reachable(Two(v, a, Mark(0, KIdle))) && v.inGlobal
    ensures Reachable(Two(v.(release := true, live := false), a, Idle))
  {
    hide Reachable;
    var v1 := v.(release := true);
    Reaches(Two(v, a, Mark(0, KIdle)), Step(1, GO), Two(v1, a, Free(0, KIdle)));
    Reaches(Two(v1, a, Free(0, KIdle)), Step(1, GO), Two(v1.(live := false), a, Idle));
  }

  /** The creator ends its initialisation and gives up its reference. */
  lemma Initialised(v: Service)
    requires Reachable(Two(v, Initialise(0), Idle)) && v.ref > 0
    ensures Reachable(Two(v.(ref := v.ref - 1), if v.ref == 1 then Mark(0, KReady(0)) else SetInit(0), Idle))
  {
    hide Reachable;
    Reaches(Two(v, Initialise(0), Idle), Step(0, GO), Two(v, Release(0, KReady(0)), Idle));
    Reaches(Two(v, Release(0, KReady(0)), Idle), Step(0, GO),
            Two(v.(ref := v.ref - 1), if v.ref == 1 then Mark(0, KReady(0)) else SetInit(0), Idle));
  }

  ghost predicate LateOnFreed(pc: Pc) {
    exists s :: Reachable(s) && |s.procs| == 2 && |s.services| == 1 && s.procs[0] == pc && !s.services[0].live
  }

  lemma WritesLate() returns (v: Service)
    ensures Reachable(Two(v, SetInit(0), Idle)) && !v.live
  {
    hide Reachable;
    Making();
    var v0 := Created().(made := true);
    Initialised(v0);
    var v1 := v0.(ref := 1);
    Retired(v1, SetInit(0));
    var v2 := v1.(registered := false);
    LastReleased(v2, SetInit(0));
    var v3 := v2.(ref := 0);
    Deleted(v3, SetInit(0));
    v := v3.(release := true, live := false);
  }

  /**
    The creator gives up its reference before it marks the service ready: a thread that retires
    the service in between leaves the creator to write to a freed context.
   */
  lemma CreatorMayWriteLate()
    ensures LateOnFreed(SetInit(0))
  {
    hide Reachable;
    var v := WritesLate();
    var s := Two(v, SetInit(0), Idle);
    assert !s.services[0].live;
  }

  lemma FirstPushed(v: Service, alive: bool)
    requires Reachable(Two(v, FirstPush(0, alive), Idle))
    ensures Reachable(Enlist(Two(v, if alive then LogLaunch(0) else ReadHandle(0, false), Idle), 0))
  {
    hide Reachable;
    Reaches(Two(v, FirstPush(0, alive), Idle), Step(0, GO),
            Enlist(Two(v, if alive then LogLaunch(0) else ReadHandle(0, false), Idle), 0));
  }

  /** The two log lines of `skynet_context_new` have the same race. */
  lemma CreatorMayReadLate()
    ensures LateOnFreed(LogLaunch(0)) && LateOnFreed(ReadHandle(0, true))
  {
    hide Reachable;
    var v := WritesLate();
    var w := v.(init := true);
    Reaches(Two(v, SetInit(0), Idle), Step(0, GO), Two(w, FirstPush(0, true), Idle));
    FirstPushed(w, true);
    var s := Enlist(Two(w, LogLaunch(0), Idle), 0);
    var t := Enlist(Two(w, ReadHandle(0, true), Idle), 0);
    Reaches(s, Step(0, GO), t);
    assert !s.services[0].live && !t.services[0].live;
  }

  /** A service retired during its own initialisation is deleted by its creator, who then reads its handle. */
  lemma CreatorReadsFreed()
    ensures LateOnFreed(ReadHandle(0, false))
  {
    hide Reachable;
    Making();
    var v := Created().(made := true);
    Retired(v, Initialise(0));
    var v1 := v.(registered := false);
    Released(v1, Initialise(0));
    var v2 := v1.(ref := 1);
    Initialised(v2);
    var v3 := v2.(ref := 0);
    var v4 := v3.(release := true);
    Reaches(Two(v3, Mark(0, KReady(0)), Idle), Step(0, GO), Two(v4, Free(0, KReady(0)), Idle));
    var v5 := v4.(live := false);
    Reaches(Two(v4, Free(0, KReady(0)), Idle), Step(0, GO), Two(v5, FirstPush(0, false), Idle));
    FirstPushed(v5, false);
    var s := Enlist(Two(v5, ReadHandle(0, false), Idle), 0);
    assert !s.services[0].live;
  }

  // ----- a handle is registered before its queue is made -----

  /** The process is about to use a queue that is not there. */
  predicate UsesMissing(s: State, p: nat) {
    p < |s.procs| && InRange(s, s.procs[p]) && s.procs[p].Push? && !s.services[s.procs[p].c].made
  }

  /** A queue that is used is missing exactly for a push while the creator is still about to make it. */
  lemma QueueWindow(s: State, p: nat, c: Id)
    requires Reachable(s) && p < |s.procs| && c < |s.services| && UsesQueue(s.procs[p], c)
    ensures !s.services[c].made <==> s.procs[p].Push? && exists q :: 0 <= q < |s.procs| && s.procs[q] == CreateQueue(c)
    ensures !s.services[c].made <==> UsesMissing(s, p)
  {
    StepsAreSafe(s, p, c);
    EveryReachableState(s);
    hide Sum;
    assert ServiceInv(s, c);
    SomeMaker(s.procs, c);
    SumSane(s.procs, c);
  }

  lemma MakerView(pc: Pc, c: Id)
    ensures ViewOf(pc, c).making == One(pc == CreateQueue(c))
  {
  }

  lemma {:induction false} SomeMaker(procs: seq<Pc>, c: Id)
    ensures Sum(procs, c).making > 0 <==> exists p :: 0 <= p < |procs| && procs[p] == CreateQueue(c)
  {
    hide ViewOf;
    if procs != [] {
      var n := |procs| - 1;
      SomeMaker(procs[..n], c);
      SumSane(procs[..n], c);
      MakerView(procs[n], c);
      if exists p :: 0 <= p < n && procs[..n][p] == CreateQueue(c) {
        var p :| 0 <= p < n && procs[..n][p] == CreateQueue(c);
        assert procs[p] == procs[..n][p];
      }
      forall p | 0 <= p < n ensures procs[p] == procs[..n][p] {
      }
    }
  }

  /** The other thread has grabbed the context in between, and its queue is not there. */
  lemma GrabbedWithoutQueue(m: Message)
    ensures exists s :: Reachable(s) && |s.procs| == 2 && s.procs[1] == Push(0, m) && UsesMissing(s, 1)
                        && Apply(s, Step(1, GO)).procs[1] == Lost(0)
  {
    hide Reachable;
    Registering();
    var v := Created();
    Reaches(Two(v, CreateQueue(0), Idle), Step(1, StartPush(0, m)), Two(v, CreateQueue(0), Grab(0, m)));
    var s := Two(v.(ref := 3), CreateQueue(0), Push(0, m));
    Reaches(Two(v, CreateQueue(0), Grab(0, m)), Step(1, GO), s);
    assert UsesMissing(s, 1);
  }

  /** The step grabs a context whose queue is not there. */
  predicate GrabsEarly(s: State, st: Step)
    requires Enabled(s, st)
  {
    s.procs[st.p].Grab? && Registered(s, s.procs[st.p].c) && !s.services[s.procs[st.p].c].made
  }

  ghost predicate NoEarlyGrab(s: State, steps: seq<Step>)
    decreases |steps|
  {
    steps != [] && Enabled(s, steps[0]) ==> !GrabsEarly(s, steps[0]) && NoEarlyGrab(Apply(s, steps[0]), steps[1..])
  }

  ghost predicate QueuesThere(s: State) {
    forall p :: 0 <= p < |s.procs| ==> !UsesMissing(s, p)
  }

  ghost predicate AlwaysThere(s: State, steps: seq<Step>)
    decreases |steps|
  {
    QueuesThere(s) && (steps != [] && Enabled(s, steps[0]) ==> AlwaysThere(Apply(s, steps[0]), steps[1..]))
  }

  lemma EarlyGrabFails(s: State, st: Step)
    requires Enabled(s, st) && GrabsEarly(s, st)
    ensures !QueuesThere(Apply(s, st))
  {
    assert UsesMissing(Apply(s, st), st.p);
  }

  lemma OnlyGrabsPush(s: State, st: Step)
    requires Shaped(s) && Enabled(s, st) && Apply(s, st).procs[st.p].Push?
    ensures s.procs[st.p].Grab? && Registered(s, s.procs[st.p].c) && Apply(s, st).procs[st.p].c == s.procs[st.p].c
  {
    hide StepCreator, StepRelease, StepWorker;
    if st.action.Go? {
      var pc := s.procs[st.p];
      if IsCreator(pc) { CreatorNoPush(s, st.p, st.action.ok); }
      else if pc.LetGo? || pc.Drop? || pc.FreeQueue? { ReleaseNoPush(s, st.p); }
      else { WorkerNoPush(s, st.p, st.action.weight); }
    }
  }

  lemma CreatorNoPush(s: State, p: nat, ok: bool)
    requires Shaped(s) && p < |s.procs| && !s.procs[p].Push?
    ensures !StepCreator(s, p, ok).procs[p].Push?
  {
  }

  lemma ReleaseNoPush(s: State, p: nat)
    requires Shaped(s) && p < |s.procs| && !s.procs[p].Push?
    ensures !StepRelease(s, p).procs[p].Push?
  {
  }

  lemma WorkerNoPush(s: State, p: nat, weight: int)
    requires Shaped(s) && p < |s.procs| && !s.procs[p].Push?
    ensures !StepWorker(s, p, weight).procs[p].Push?
  {
  }

  lemma OthersStay(s: State, st: Step)
    requires Shaped(s) && Enabled(s, st)
    ensures |Apply(s, st).procs| == |s.procs|
    ensures forall p :: 0 <= p < |s.procs| && p != st.p ==> Apply(s, st).procs[p] == s.procs[p]
  {
    hide Apply;
    NewRange(s, st);
  }

  lemma LateGrabHelps(s: State, st: Step)
    requires Reachable(s) && Enabled(s, st) && QueuesThere(s) && !GrabsEarly(s, st)
    ensures QueuesThere(Apply(s, st))
  {
    hide Apply, Reachable, ServiceInv;
    EveryReachableState(s);
    var t := Apply(s, st);
    OthersStay(s, st);
    forall p | 0 <= p < |t.procs| ensures !UsesMissing(t, p) {
      if t.procs[p].Push? {
        PushInRange(s, st, p);
        if p == st.p { OnlyGrabsPush(s, st); }
        assert !UsesMissing(s, p);
        MadeStays(s, st, t.procs[p].c);
      }
    }
  }

  lemma MadeStays(s: State, st: Step, c: Id)
    requires Reachable(s) && Enabled(s, st) && c < |s.services| && s.services[c].made
    ensures c < |Apply(s, st).services| && Apply(s, st).services[c].made
  {
    hide Apply, Reachable;
    HistoryGrows(s, st, c);
  }

  lemma PushInRange(s: State, st: Step, p: nat)
    requires Shaped(s) && Enabled(s, st) && p < |Apply(s, st).procs| && Apply(s, st).procs[p].Push?
    ensures InRange(s, Apply(s, st).procs[p])
  {
    hide Apply;
    OthersStay(s, st);
    if p == st.p { OnlyGrabsPush(s, st); } else { assert InRange(s, s.procs[p]); }
  }

  /**
    In no state of a run is a thread about to use a missing queue exactly when no step of the run
    grabs a context before its queue is made.
   */
  lemma {:induction false} QueueSafety(s: State, steps: seq<Step>, t: State)
    requires Reachable(s) && QueuesThere(s) && Leads(s, steps, t)
    ensures AlwaysThere(s, steps) <==> NoEarlyGrab(s, steps)
    decreases |steps|
  {
    hide Apply, Reachable, QueuesThere;
    if steps != [] {
      var u := Apply(s, steps[0]);
      ReachStep(s, steps[0]);
      if GrabsEarly(s, steps[0]) {
        EarlyGrabFails(s, steps[0]);
      } else {
        LateGrabHelps(s, steps[0]);
        QueueSafety(u, steps[1..], t);
      }
    }
  }

  /** For every run: a process is never about to use a missing queue if and only if no context is grabbed before its queue is made. */
  lemma QueuesAreSafe(s: State, steps: seq<Step>, t: State)
    requires Initial(s) && Leads(s, steps, t)
    ensures AlwaysThere(s, steps) <==> NoEarlyGrab(s, steps)
  {
    assert Leads(s, [], s);
    QueueSafety(s, steps, t);
  }
}
