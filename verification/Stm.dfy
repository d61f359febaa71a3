/**
  Shared-memory copies under a spinning reader/writer lock, as interleaved atomic steps of any
  number of threads.  Each thread may read (keeping the copy it saw last in its box), update, drop
  its box, or close the object.
 */
module Stm {

  datatype Option<+T> = None | Some(value: T)

  type Id = nat

  /** One shared copy: its reference count and how often its message has been freed. */
  datatype Copy = Copy(ref: int, frees: nat)

  datatype Pc =
    | Idle
    // rwlock_rlock
    | ReadSpin                     // while write is set
    | ReadEnter                    // count itself in
    | ReadCheck                    // look at write again
    | ReadRetreat                  // count itself out and start over
    // stm_copy, with the read lock
    | ReadCopy
    | ReadGrab(c: Id)              // take a reference to the copy it saw
    | ReadUnlock(got: Option<Id>)
    // lread
    | Compare(got: Option<Id>)
    | Replace(got: Option<Id>)     // the old copy of the box is being released
    // stm_update, and stm_release with nothing: what will be published
    | WriteSpin(copy: Option<Id>)
    | WriteDrain(copy: Option<Id>) // write is set; wait for the readers to leave
    | WriteSwap(copy: Option<Id>)
    | WriteUnlock(was: Option<Id>)
    // stm_releasecopy, and what follows it
    | Release(c: Id, k: Then)
    | Free(c: Id, k: Then)

  /** What a thread does after it has released a copy: `stm_release` still holds the write lock. */
  datatype Then = ThenIdle | ThenReplace(got: Option<Id>) | ThenUnlock

  /** `box` is the copy a reader saw last. */
  datatype Thread = Thread(pc: Pc, box: Option<Id>)

  datatype State = State(write: bool, read: int, copy: Option<Id>, copies: seq<Copy>, threads: seq<Thread>)

  datatype Action = StartRead | StartUpdate | StartClose | StartDrop | Go

  datatype Step = Step(t: nat, action: Action)

  function Goto(s: State, t: nat, pc: Pc): State
    requires t < |s.threads|
  {
    s.(threads := s.threads[t := s.threads[t].(pc := pc)])
  }

  function SetThread(s: State, t: nat, th: Thread): State
    requires t < |s.threads|
  {
    s.(threads := s.threads[t := th])
  }

  function SetRef(s: State, c: Id, ref: int): State
    requires c < |s.copies|
  {
    s.(copies := s.copies[c := s.copies[c].(ref := ref)])
  }

  function After(k: Then): Pc {
    match k
    case ThenIdle => Idle
    case ThenReplace(got) => Replace(got)
    case ThenUnlock => WriteUnlock(None)
  }

  /** Release a copy if there is one, and go on. */
  function Releasing(o: Option<Id>, k: Then): Pc {
    match o
    case Some(c) => Release(c, k)
    case None => After(k)
  }

  predicate Known(s: State, o: Option<Id>) {
    o.Some? ==> o.value < |s.copies|
  }

  predicate InRange(s: State, pc: Pc) {
    match pc
    case ReadGrab(c) => c < |s.copies|
    case ReadUnlock(got) => Known(s, got)
    case Compare(got) => Known(s, got)
    case Replace(got) => Known(s, got)
    case WriteSpin(copy) => Known(s, copy)
    case WriteDrain(copy) => Known(s, copy)
    case WriteSwap(copy) => Known(s, copy)
    case WriteUnlock(was) => Known(s, was)
    case Release(c, k) => c < |s.copies| && (k.ThenReplace? ==> Known(s, k.got))
    case Free(c, k) => c < |s.copies| && (k.ThenReplace? ==> Known(s, k.got))
    case _ => true
  }

  predicate Enabled(s: State, st: Step) {
    && st.t < |s.threads|
    && (st.action.Go? <==> !s.threads[st.t].pc.Idle?)
  }

  function Start(s: State, t: nat, a: Action): State
    requires t < |s.threads| && !a.Go?
  {
    match a
    case StartRead => Goto(s, t, ReadSpin)
    case StartUpdate => Goto(s.(copies := s.copies + [Copy(1, 0)]), t, WriteSpin(Some(|s.copies|)))
    case StartClose => Goto(s, t, WriteSpin(None))
    case StartDrop => SetThread(s, t, Thread(Releasing(s.threads[t].box, ThenIdle), None))
  }

  function StepReader(s: State, t: nat): State
    requires t < |s.threads| && InRange(s, s.threads[t].pc)
  {
    match s.threads[t].pc
    case ReadSpin => if s.write then s else Goto(s, t, ReadEnter)
    case ReadEnter => Goto(s.(read := s.read + 1), t, ReadCheck)
    case ReadCheck => Goto(s, t, if s.write then ReadRetreat else ReadCopy)
    case ReadRetreat => Goto(s.(read := s.read - 1), t, ReadSpin)
    case ReadCopy => Goto(s, t, match s.copy case Some(c) => ReadGrab(c) case None => ReadUnlock(None))
    case ReadGrab(c) => Goto(SetRef(s, c, s.copies[c].ref + 1), t, ReadUnlock(Some(c)))
    case ReadUnlock(got) => Goto(s.(read := s.read - 1), t, Compare(got))
    case Compare(got) =>
      if got == s.threads[t].box then Goto(s, t, Releasing(got, ThenIdle))
      else SetThread(s, t, Thread(Releasing(s.threads[t].box, ThenReplace(got)), None))
    case Replace(got) => SetThread(s, t, Thread(Idle, got))
    case _ => s
  }

  function StepWriter(s: State, t: nat): State
    requires t < |s.threads| && InRange(s, s.threads[t].pc)
  {
    match s.threads[t].pc
    case WriteSpin(copy) => if s.write then s else Goto(s.(write := true), t, WriteDrain(copy))
    case WriteDrain(copy) => if s.read != 0 then s else Goto(s, t, WriteSwap(copy))
    case WriteSwap(copy) =>
      Goto(s.(copy := copy), t, if copy.Some? then WriteUnlock(s.copy) else Releasing(s.copy, ThenUnlock))
    case WriteUnlock(was) => Goto(s.(write := false), t, Releasing(was, ThenIdle))
    case _ => s
  }

  function StepRelease(s: State, t: nat): State
    requires t < |s.threads| && InRange(s, s.threads[t].pc)
  {
    match s.threads[t].pc
    case Release(c, k) =>
      var ref := s.copies[c].ref - 1;
      Goto(SetRef(s, c, ref), t, if ref == 0 then Free(c, k) else After(k))
    case Free(c, k) =>
      Goto(s.(copies := s.copies[c := s.copies[c].(frees := s.copies[c].frees + 1)]), t, After(k))
    case _ => s
  }

  function Apply(s: State, st: Step): State
    requires Enabled(s, st)
  {
    var pc := s.threads[st.t].pc;
    if !st.action.Go? then Start(s, st.t, st.action)
    else if !InRange(s, pc) then s       // never: see StmProof.RunKeeps
    else if pc.WriteSpin? || pc.WriteDrain? || pc.WriteSwap? || pc.WriteUnlock? then StepWriter(s, st.t)
    else if pc.Release? || pc.Free? then StepRelease(s, st.t)
    else StepReader(s, st.t)
  }

  /** A new object: its first copy is the current one. */
  predicate Initial(s: State) {
    && !s.write && s.read == 0 && s.copy == Some(0) && s.copies == [Copy(1, 0)]
    && forall t :: 0 <= t < |s.threads| ==> s.threads[t] == Thread(Idle, None)
  }

  ghost predicate Leads(s: State, steps: seq<Step>, t: State)
    decreases |steps|
  {
    if steps == [] then s == t
    else Enabled(s, steps[0]) && Leads(Apply(s, steps[0]), steps[1..], t)
  }

  ghost predicate Reachable(t: State) {
    exists s, steps :: Initial(s) && Leads(s, steps, t)
  }
}
