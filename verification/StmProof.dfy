/**
  Every run of the shared-memory copies: the lock excludes, and reference counts are exact.
 */
module StmProof {
  import opened Stm

  /** What a thread, or all threads together, have to do with the lock and with one copy. */
  datatype View = View(
    counted: int,    // counted in `read`
    reading: int,    // inside the read lock
    locking: int,    // holder of `write`
    writing: int,    // inside the write lock
    holds: int,      // references to the copy
    grabs: int,      // about to take a reference to it
    frees: int)      // about to free it

  function One(b: bool): int { if b then 1 else 0 }

  function Has(o: Option<Id>, c: Id): int { One(o == Some(c)) }

  predicate Reading(pc: Pc) { pc.ReadCopy? || pc.ReadGrab? || pc.ReadUnlock? }

  predicate Writing(pc: Pc) { pc.WriteSwap? || pc.WriteUnlock? || ((pc.Release? || pc.Free?) && pc.k.ThenUnlock?) }

  function ThenHolds(k: Then, c: Id): int { if k.ThenReplace? then Has(k.got, c) else 0 }

  function Holds(pc: Pc, c: Id): int {
    match pc
    case ReadUnlock(got) => Has(got, c)
    case Compare(got) => Has(got, c)
    case Replace(got) => Has(got, c)
    case WriteSpin(copy) => Has(copy, c)
    case WriteDrain(copy) => Has(copy, c)
    case WriteSwap(copy) => Has(copy, c)
    case WriteUnlock(was) => Has(was, c)
    case Release(d, k) => One(d == c) + ThenHolds(k, c)
    case Free(d, k) => ThenHolds(k, c)
    case _ => 0
  }

  function ViewOf(th: Thread, c: Id): View {
    var pc := th.pc;
    View(One(pc.ReadCheck? || pc.ReadRetreat? || Reading(pc)), One(Reading(pc)),
         One(pc.WriteDrain? || Writing(pc)), One(Writing(pc)),
         Holds(pc, c) + Has(th.box, c), One(pc.ReadGrab? && pc.c == c), One(pc.Free? && pc.c == c))
  }

  function Plus(a: View, b: View): View {
    View(a.counted + b.counted, a.reading + b.reading, a.locking + b.locking, a.writing + b.writing,
         a.holds + b.holds, a.grabs + b.grabs, a.frees + b.frees)
  }

  function Minus(a: View, b: View): View {
    View(a.counted - b.counted, a.reading - b.reading, a.locking - b.locking, a.writing - b.writing,
         a.holds - b.holds, a.grabs - b.grabs, a.frees - b.frees)
  }

  predicate Sane(a: View) {
    0 <= a.grabs <= a.reading <= a.counted && 0 <= a.writing <= a.locking && 0 <= a.holds && 0 <= a.frees
  }

  function Sum(ths: seq<Thread>, c: Id): View {
    if ths == [] then View(0, 0, 0, 0, 0, 0, 0) else Plus(Sum(ths[..|ths| - 1], c), ViewOf(ths[|ths| - 1], c))
  }

  lemma ViewSane(th: Thread, c: Id)
    ensures Sane(ViewOf(th, c))
  {
  }

  lemma {:induction false} SumSane(ths: seq<Thread>, c: Id)
    ensures Sane(Sum(ths, c))
  {
    hide ViewOf;
    if ths != [] {
      SumSane(ths[..|ths| - 1], c);
      ViewSane(ths[|ths| - 1], c);
    }
  }

  lemma PlusMinus(a: View, o: View, n: View, x: View)
    ensures Plus(Plus(Minus(a, o), n), x) == Plus(Minus(Plus(a, x), o), n)
    ensures Minus(Plus(a, x), x) == a
    ensures Sane(Minus(a, o)) && Sane(x) ==> Sane(Minus(Plus(a, x), o))
  {
  }

  lemma {:induction false} SumUpdate(ths: seq<Thread>, t: nat, th: Thread, c: Id)
    requires t < |ths|
    ensures Sum(ths[t := th], c) == Plus(Minus(Sum(ths, c), ViewOf(ths[t], c)), ViewOf(th, c))
    ensures Sane(Minus(Sum(ths, c), ViewOf(ths[t], c)))
  {
    hide ViewOf, Plus, Minus, Sane;
    var n := |ths| - 1;
    var last := ViewOf(ths[n], c);
    ViewSane(ths[n], c);
    if t == n {
      assert ths[t := th][..n] == ths[..n];
      SumSane(ths[..n], c);
      PlusMinus(Sum(ths[..n], c), last, last, last);
    } else {
      assert ths[t := th][..n] == ths[..n][t := th];
      SumUpdate(ths[..n], t, th, c);
      PlusMinus(Sum(ths[..n], c), ViewOf(ths[t], c), ViewOf(th, c), last);
    }
  }

  /** The lock and one copy, seen with all threads' views. */
  predicate Ok(write: bool, read: int, copy: Option<Id>, v: Copy, w: View, c: Id) {
    && read == w.counted
    && w.locking == One(write)
    && (w.writing > 0 ==> w.reading == 0)
    // the count is the current slot and the holders
    && v.ref == Has(copy, c) + w.holds
    // whoever is about to take a reference still sees the current copy
    && (w.grabs > 0 ==> copy == Some(c))
    && w.frees <= 1
    && (v.ref > 0 ==> v.frees == 0 && w.frees == 0)
    && (v.ref == 0 ==> v.frees + w.frees == 1)
  }

  ghost predicate CopyInv(s: State, c: Id)
    requires c < |s.copies|
  {
    Ok(s.write, s.read, s.copy, s.copies[c], Sum(s.threads, c), c)
  }

  ghost predicate Shaped(s: State) {
    && s.copies != [] && Known(s, s.copy)
    && forall t :: 0 <= t < |s.threads| ==> ThreadOk(s, s.threads[t])
  }

  /** Ids are in range, and the box is empty while its old copy is being released. */
  predicate ThreadOk(s: State, th: Thread) {
    && InRange(s, th.pc) && Known(s, th.box)
    && (th.pc.Replace? || ((th.pc.Release? || th.pc.Free?) && th.pc.k.ThenReplace?) ==> th.box == None)
  }

  ghost predicate Inv(s: State) {
    Shaped(s) && forall c :: 0 <= c < |s.copies| ==> CopyInv(s, c)
  }

  // ----- every step keeps the invariant -----

  lemma Moved(s: State, r: State, t: nat, c: Id)
    requires t < |s.threads| == |r.threads| && r.threads == s.threads[t := r.threads[t]]
    ensures Sum(r.threads, c) == Plus(Minus(Sum(s.threads, c), ViewOf(s.threads[t], c)), ViewOf(r.threads[t], c))
    ensures Sane(Minus(Sum(s.threads, c), ViewOf(s.threads[t], c)))
  {
    SumUpdate(s.threads, t, r.threads[t], c);
  }

  ghost predicate Ready(s: State, t: nat, c: Id) {
    Shaped(s) && t < |s.threads| && c < |s.copies| && CopyInv(s, c)
  }

  lemma ReaderKeeps(s: State, t: nat, c: Id)
    requires Ready(s, t, c)
    requires var pc := s.threads[t].pc;
             pc.ReadSpin? || pc.ReadEnter? || pc.ReadCheck? || pc.ReadRetreat? || pc.ReadCopy? || pc.ReadGrab? || pc.ReadUnlock?
    ensures CopyInv(StepReader(s, t), c)
  {
    hide Sum;
    Moved(s, StepReader(s, t), t, c);
  }

  lemma BoxKeeps(s: State, t: nat, c: Id)
    requires Ready(s, t, c)
    requires s.threads[t].pc.Compare? || (s.threads[t].pc.Replace? && s.threads[t].box == None)
    ensures CopyInv(StepReader(s, t), c)
  {
    hide Sum;
    Moved(s, StepReader(s, t), t, c);
  }

  lemma WriterKeeps(s: State, t: nat, c: Id)
    requires Ready(s, t, c)
    requires var pc := s.threads[t].pc; pc.WriteSpin? || pc.WriteDrain? || pc.WriteSwap? || pc.WriteUnlock?
    ensures CopyInv(StepWriter(s, t), c)
  {
    hide Sum;
    Moved(s, StepWriter(s, t), t, c);
  }

  lemma ReleaseKeeps(s: State, t: nat, c: Id)
    requires Ready(s, t, c)
    requires s.threads[t].pc.Release? || s.threads[t].pc.Free?
    ensures CopyInv(StepRelease(s, t), c)
  {
    hide Sum;
    Moved(s, StepRelease(s, t), t, c);
  }

  lemma DropKeeps(s: State, t: nat, c: Id)
    requires Ready(s, t, c) && s.threads[t].pc == Idle
    ensures CopyInv(Start(s, t, StartDrop), c)
  {
    hide Sum;
    Moved(s, Start(s, t, StartDrop), t, c);
  }

  lemma StartKeeps(s: State, t: nat, a: Action, c: Id)
    requires Ready(s, t, c) && s.threads[t].pc == Idle && !a.Go? && !a.StartDrop?
    ensures CopyInv(Start(s, t, a), c)
  {
    hide Sum;
    Moved(s, Start(s, t, a), t, c);
  }

  lemma UnknownTo(s: State, th: Thread, c: Id)
    requires c >= |s.copies| && ThreadOk(s, th)
    ensures var w := ViewOf(th, c); w.holds == 0 && w.grabs == 0 && w.frees == 0
  {
  }

  lemma {:induction false} NobodyKnows(s: State, ths: seq<Thread>, c: Id)
    requires c >= |s.copies| && forall t :: 0 <= t < |ths| ==> ThreadOk(s, ths[t])
    ensures var w := Sum(ths, c); w.holds == 0 && w.grabs == 0 && w.frees == 0
  {
    hide ViewOf, ThreadOk;
    if ths != [] {
      NobodyKnows(s, ths[..|ths| - 1], c);
      UnknownTo(s, ths[|ths| - 1], c);
    }
  }

  lemma SameLockView(th: Thread, c: Id, d: Id)
    ensures var v, w := ViewOf(th, c), ViewOf(th, d);
            v.counted == w.counted && v.reading == w.reading && v.locking == w.locking && v.writing == w.writing
  {
  }

  lemma {:induction false} SameLock(ths: seq<Thread>, c: Id, d: Id)
    ensures var v, w := Sum(ths, c), Sum(ths, d);
            v.counted == w.counted && v.reading == w.reading && v.locking == w.locking && v.writing == w.writing
  {
    hide ViewOf;
    if ths != [] {
      SameLock(ths[..|ths| - 1], c, d);
      SameLockView(ths[|ths| - 1], c, d);
    }
  }

  lemma NewKeeps(s: State, t: nat)
    requires Inv(s) && t < |s.threads| && s.threads[t].pc == Idle
    ensures CopyInv(Start(s, t, StartUpdate), |s.copies|)
  {
    hide Sum;
    var c := |s.copies|;
    assert CopyInv(s, 0);
    SameLock(s.threads, 0, c);
    NobodyKnows(s, s.threads, c);
    assert ThreadOk(s, s.threads[t]);
    Moved(s, Start(s, t, StartUpdate), t, c);
  }

  // ----- shape -----

  lemma ThreadOkGrows(s: State, r: State, th: Thread)
    requires ThreadOk(s, th) && |s.copies| <= |r.copies|
    ensures ThreadOk(r, th)
  {
  }

  ghost predicate Ranged(s: State, t: nat, r: State) {
    && |s.copies| <= |r.copies| && t < |s.threads| == |r.threads| && r.threads == s.threads[t := r.threads[t]]
    && Known(r, r.copy) && ThreadOk(r, r.threads[t])
  }

  lemma StartRanged(s: State, t: nat, a: Action)
    requires Shaped(s) && t < |s.threads|
    requires !a.Go?
    ensures Ranged(s, t, Start(s, t, a))
  {
    assert ThreadOk(s, s.threads[t]);
  }

  lemma ReaderRanged(s: State, t: nat)
    requires Shaped(s) && t < |s.threads|
    requires InRange(s, s.threads[t].pc)
    ensures Ranged(s, t, StepReader(s, t))
  {
    assert ThreadOk(s, s.threads[t]);
  }

  lemma WriterRanged(s: State, t: nat)
    requires Shaped(s) && t < |s.threads|
    requires InRange(s, s.threads[t].pc)
    ensures Ranged(s, t, StepWriter(s, t))
  {
    assert ThreadOk(s, s.threads[t]);
  }

  lemma ReleaseRanged(s: State, t: nat)
    requires Shaped(s) && t < |s.threads|
    requires InRange(s, s.threads[t].pc)
    ensures Ranged(s, t, StepRelease(s, t))
  {
    assert ThreadOk(s, s.threads[t]);
  }

  lemma StepRanged(s: State, st: Step)
    requires Shaped(s) && Enabled(s, st)
    ensures Ranged(s, st.t, Apply(s, st))
  {
    hide Ranged, Start, StepReader, StepWriter, StepRelease, InRange;
    assert ThreadOk(s, s.threads[st.t]);
    if !st.action.Go? {
      StartRanged(s, st.t, st.action);
    } else {
      ReaderRanged(s, st.t);
      WriterRanged(s, st.t);
      ReleaseRanged(s, st.t);
    }
  }

  lemma StepShaped(s: State, st: Step)
    requires Shaped(s) && Enabled(s, st)
    ensures Shaped(Apply(s, st)) && |s.copies| <= |Apply(s, st).copies|
  {
    hide Apply;
    var r := Apply(s, st);
    StepRanged(s, st);
    forall i | 0 <= i < |r.threads| ensures ThreadOk(r, r.threads[i]) {
      if i != st.t {
        assert r.threads[i] == s.threads[i];
        ThreadOkGrows(s, r, s.threads[i]);
      }
    }
  }

  lemma StepKeepsCopy(s: State, st: Step, c: Id)
    requires Enabled(s, st) && Ready(s, st.t, c)
    ensures c < |Apply(s, st).copies| && CopyInv(Apply(s, st), c)
  {
    hide CopyInv, Start, StepReader, StepWriter, StepRelease;
    var th := s.threads[st.t];
    var pc := th.pc;
    assert ThreadOk(s, th);
    StepShaped(s, st);
    if !st.action.Go? {
      if st.action.StartDrop? { DropKeeps(s, st.t, c); } else { StartKeeps(s, st.t, st.action, c); }
    } else if pc.WriteSpin? || pc.WriteDrain? || pc.WriteSwap? || pc.WriteUnlock? { WriterKeeps(s, st.t, c); }
    else if pc.Release? || pc.Free? { ReleaseKeeps(s, st.t, c); }
    else if pc.Compare? || pc.Replace? { BoxKeeps(s, st.t, c); }
    else { ReaderKeeps(s, st.t, c); }
  }

  lemma StepKeeps(s: State, st: Step)
    requires Inv(s) && Enabled(s, st)
    ensures Inv(Apply(s, st))
  {
    hide CopyInv;
    StepShaped(s, st);
    var r := Apply(s, st);
    forall c | 0 <= c < |r.copies| ensures CopyInv(r, c) {
      if c < |s.copies| { StepKeepsCopy(s, st, c); }
      else { NewKeeps(s, st.t); }
    }
  }

  lemma {:induction false} RunKeeps(s: State, steps: seq<Step>, r: State)
    requires Inv(s) && Leads(s, steps, r)
    ensures Inv(r)
    decreases |steps|
  {
    hide Inv, Apply;
    if steps != [] {
      StepKeeps(s, steps[0]);
      RunKeeps(Apply(s, steps[0]), steps[1..], r);
    }
  }

  lemma {:induction false} NothingYet(ths: seq<Thread>, c: Id)
    requires forall t :: 0 <= t < |ths| ==> ths[t].pc == Idle && ths[t].box == None
    ensures Sum(ths, c) == View(0, 0, 0, 0, 0, 0, 0)
  {
    if ths != [] {
      NothingYet(ths[..|ths| - 1], c);
    }
  }

  lemma EveryReachableState(r: State)
    requires Reachable(r)
    ensures Inv(r)
  {
    hide Leads, Initial, Inv;
    var s, steps :| Initial(s) && Leads(s, steps, r);
    InitialInv(s);
    RunKeeps(s, steps, r);
  }

  lemma InitialInv(s: State)
    requires Initial(s)
    ensures Inv(s)
  {
    hide Sum;
    NothingYet(s.threads, 0);
    assert s.copies[0] == Copy(1, 0);
    assert CopyInv(s, 0);
  }

  // ----- the promises -----

  lemma Shares(ths: seq<Thread>, t: nat, u: nat, c: Id)
    requires t < |ths| && u < |ths| && t != u
    ensures Sane(Minus(Minus(Sum(ths, c), ViewOf(ths[t], c)), ViewOf(ths[u], c)))
  {
    hide Sum, ViewOf;
    var idle := Thread(Idle, None);
    SumUpdate(ths, t, idle, c);
    SumUpdate(ths[t := idle], u, idle, c);
    IdleView(idle, c);
  }

  lemma IdleView(th: Thread, c: Id)
    requires th == Thread(Idle, None)
    ensures ViewOf(th, c) == View(0, 0, 0, 0, 0, 0, 0)
  {
  }

  /** The lock: a writer is inside alone. */
  lemma Exclusion(s: State, t: nat, u: nat)
    requires Reachable(s) && t < |s.threads| && u < |s.threads| && t != u
    requires Writing(s.threads[t].pc)
    ensures !Writing(s.threads[u].pc) && !Reading(s.threads[u].pc)
  {
    hide Sum, ViewOf, Reachable, Writing, Reading;
    EveryReachableState(s);
    assert CopyInv(s, 0);
    Shares(s.threads, t, u, 0);
    LockView(s.threads[t], 0);
    LockView(s.threads[u], 0);
  }

  lemma LockView(th: Thread, c: Id)
    ensures ViewOf(th, c).writing == One(Writing(th.pc)) && ViewOf(th, c).reading == One(Reading(th.pc))
    ensures Sane(ViewOf(th, c))
  {
  }

  lemma IdleBox(th: Thread, c: Id)
    requires th.pc == Idle
    ensures ViewOf(th, c).holds == Has(th.box, c) && ViewOf(th, c).frees == 0
  {
  }

  /** A copy's reference count is the current slot plus everything that holds it. */
  lemma CountsAreExact(s: State, c: Id)
    requires Reachable(s) && c < |s.copies|
    ensures s.copies[c].ref == Has(s.copy, c) + Sum(s.threads, c).holds
    ensures s.read == Sum(s.threads, c).counted && s.write == (Sum(s.threads, c).locking == 1)
  {
    EveryReachableState(s);
    assert CopyInv(s, c);
  }

  /** A message is freed at most once, and never while it is current, held, or about to be taken. */
  lemma NeverFreedInUse(s: State, t: nat, c: Id)
    requires Reachable(s) && t < |s.threads| && c < |s.copies|
    ensures s.copies[c].frees <= 1
    ensures s.copies[c].frees == 1 ==>
      && s.copy != Some(c) && s.threads[t].box != Some(c)
      && Holds(s.threads[t].pc, c) == 0
      && s.threads[t].pc != ReadGrab(c) && !(s.threads[t].pc.Free? && s.threads[t].pc.c == c)
  {
    EveryReachableState(s);
    hide Sum;
    assert CopyInv(s, c);
    SumUpdate(s.threads, t, s.threads[t], c);
  }

  /** When no thread is under way, exactly the copies that are neither current nor in a box have been freed. */
  lemma NoLeak(s: State, c: Id)
    requires Reachable(s) && c < |s.copies|
    requires forall t :: 0 <= t < |s.threads| ==> s.threads[t].pc == Idle
    ensures s.copies[c].frees == 0 <==> s.copy == Some(c) || exists t :: 0 <= t < |s.threads| && s.threads[t].box == Some(c)
  {
    EveryReachableState(s);
    assert CopyInv(s, c);
    BoxesOnly(s.threads, c);
  }

  lemma {:induction false} BoxesOnly(ths: seq<Thread>, c: Id)
    requires forall t :: 0 <= t < |ths| ==> ths[t].pc == Idle
    ensures Sum(ths, c).frees == 0
    ensures Sum(ths, c).holds > 0 <==> exists t :: 0 <= t < |ths| && ths[t].box == Some(c)
    ensures Sum(ths, c).holds >= 0
  {
    hide ViewOf;
    if ths != [] {
      var n := |ths| - 1;
      BoxesOnly(ths[..n], c);
      IdleBox(ths[n], c);
      if t :| 0 <= t < n && ths[t].box == Some(c) {
        assert ths[..n][t] == ths[t];
      }
    }
  }
}
