/**
  The actor scheduler: services with a message queue and a reference-counted context each, one
  global list of queues, and any number of threads.  Every atomic access (a critical section under
  a queue's lock, the list's lock or the handle table's lock, or one atomic counter update) is one
  step, and the steps of all threads interleave freely.

  A call made from inside a callback is the work of another process of the pool, while the process
  that runs the callback rests.  A handle names one service for ever.

  A thread that pushes a message to a service whose queue has not been made yet is lost: what it does
  then is undefined, and the model keeps it where it is.
 */
module Scheduler {

  type Id = nat
  type Message = int

  datatype Service = Service(
    // context
    ref: int, registered: bool, live: bool, init: bool,
    // message queue
    queue: seq<Message>, inGlobal: bool, release: bool, freed: bool,
    // history: messages pushed, popped for dispatch, and popped to be dropped
    accepted: seq<Message>, dispatched: seq<Message>, dropped: seq<Message>,
    // whether the queue has been made; until then the context's pointer to it is not set
    made: bool)

  /** What a thread does after it has given up a reference. */
  datatype Then =
    | KIdle
    | KPop
    | KHold(q: Id)
    | KReady(q: Id)       // skynet_context_new, initialised: go on if the context survives
    | KRetire(q: Id)      // skynet_context_new, failed: retire the handle
    | KDrop(q: Id)        // skynet_context_new, failed and retired: let go of the queue

  datatype Pc =
    | Idle
    // skynet_context_push
    | Grab(c: Id, m: Message)
    | Push(c: Id, m: Message)
    | Lost(c: Id)                         // it used a queue that was not there: anything may happen
    // skynet_context_release and delete_context
    | Release(c: Id, k: Then)
    | Mark(c: Id, k: Then)
    | Free(c: Id, k: Then)
    // skynet_handle_retire
    | Retire(c: Id)
    // skynet_context_new
    | CreateQueue(c: Id)
    | Initialise(c: Id)
    | SetInit(c: Id)
    | FirstPush(c: Id, alive: bool)       // `alive`: skynet_context_release returned the context
    | LogLaunch(c: Id)                    // skynet_error reads the context
    | ReadHandle(c: Id, alive: bool)      // the log line reads the handle from the context, in either case
    | RetireFailed(c: Id)
    // skynet_context_message_dispatch
    | PopGlobal
    | Hold(q: Id)
    | Run(q: Id, i: nat, n: nat)
    | Length(q: Id)
    | Callback(q: Id, i: nat, n: nat)
    | Turn(q: Id)
    | PutBack(q: Id, next: Id)
    // skynet_mq_release; `worker` tells who called it
    | LetGo(q: Id, worker: bool)
    | Drop(q: Id, worker: bool)
    | FreeQueue(q: Id, worker: bool)

  datatype State = State(services: seq<Service>, list: seq<Id>, procs: seq<Pc>)

  datatype Action =
    | StartPush(c: Id, m: Message)
    | StartRetire(c: Id)
    | StartNew
    | StartWork
    | Go(weight: int, ok: bool)     // `weight` is the worker's, `ok` the result of a service's init function

  datatype Step = Step(p: nat, action: Action)

  // ----- operations on one service -----

  /** The first half of `skynet_context_new`, up to the registration: one reference for the table, one for the creator. */
  function Created(): Service {
    Service(2, true, true, false, [], true, false, false, [], [], [], false)
  }

  function Pushed(v: Service, m: Message): Service {
    v.(queue := v.queue + [m], accepted := v.accepted + [m], inGlobal := true)
  }

  function PoppedForDispatch(v: Service): Service {
    if v.queue == [] then v.(inGlobal := false)
    else v.(queue := v.queue[1..], dispatched := v.dispatched + [v.queue[0]])
  }

  function PoppedToDrop(v: Service): Service {
    if v.queue == [] then v.(inGlobal := false)
    else v.(queue := v.queue[1..], dropped := v.dropped + [v.queue[0]])
  }

  // ----- steps -----

  function Goto(s: State, p: nat, pc: Pc): State
    requires p < |s.procs|
  {
    s.(procs := s.procs[p := pc])
  }

  function Set(s: State, c: Id, v: Service): State
    requires c < |s.services|
  {
    s.(services := s.services[c := v])
  }

  function Enlist(s: State, c: Id): State {
    s.(list := s.list + [c])
  }

  function EnlistIf(s: State, c: Id, b: bool): State {
    if b then Enlist(s, c) else s
  }

  /** `alive`: whether `skynet_context_release` returned the context. */
  function Continue(k: Then, alive: bool): Pc {
    match k
    case KIdle => Idle
    case KPop => PopGlobal
    case KHold(q) => Hold(q)
    case KReady(q) => if alive then SetInit(q) else FirstPush(q, false)
    case KRetire(q) => RetireFailed(q)
    case KDrop(q) => LetGo(q, false)
  }

  predicate Registered(s: State, c: Id) {
    c < |s.services| && s.services[c].registered
  }

  function ShiftRight(x: nat, n: nat): nat {
    if n == 0 then x else ShiftRight(x / 2, n - 1)
  }

  /** How many messages a worker takes before it looks for another queue. */
  function Batch(length: nat, weight: int): nat {
    if weight < 0 then 1 else ShiftRight(length, weight)
  }

  /** The service a process works on next; every index it uses is in range. */
  predicate InRange(s: State, pc: Pc) {
    match pc
    case Idle => true
    case Grab(_, _) => true
    case Retire(_) => true
    case PopGlobal => true
    case Push(c, _) => c < |s.services|
    case Lost(c) => c < |s.services|
    case Release(c, k) => c < |s.services| && ThenInRange(s, c, k)
    case Mark(c, k) => c < |s.services| && ThenInRange(s, c, k)
    case Free(c, k) => c < |s.services| && ThenInRange(s, c, k)
    case CreateQueue(c) => c < |s.services|
    case Initialise(c) => c < |s.services|
    case SetInit(c) => c < |s.services|
    case FirstPush(c, _) => c < |s.services|
    case LogLaunch(c) => c < |s.services|
    case ReadHandle(c, _) => c < |s.services|
    case RetireFailed(c) => c < |s.services|
    case PutBack(q, next) => q < |s.services| && next < |s.services|
    case Hold(q) => q < |s.services|
    case Run(q, _, _) => q < |s.services|
    case Length(q) => q < |s.services|
    case Callback(q, _, _) => q < |s.services|
    case Turn(q) => q < |s.services|
    case LetGo(q, _) => q < |s.services|
    case Drop(q, _) => q < |s.services|
    case FreeQueue(q, _) => q < |s.services|
  }

  predicate ThenInRange(s: State, c: Id, k: Then) {
    match k
    case KIdle => true
    case KPop => true
    case KHold(q) => q < |s.services|
    case KReady(q) => q == c
    case KRetire(q) => q == c
    case KDrop(q) => q == c
  }

  ghost predicate Shaped(s: State) {
    && (forall p :: 0 <= p < |s.procs| ==> InRange(s, s.procs[p]))
    && (forall c :: c in s.list ==> c < |s.services|)
  }

  predicate Enabled(s: State, st: Step) {
    && st.p < |s.procs|
    && (st.action.Go? <==> !s.procs[st.p].Idle?)
  }

  /** Leaves a service it no longer owns. */
  function Away(worker: bool): Pc {
    if worker then PopGlobal else Idle
  }

  function Start(s: State, p: nat, a: Action): State
    requires p < |s.procs| && !a.Go?
  {
    match a
    case StartPush(c, m) => Goto(s, p, Grab(c, m))
    case StartRetire(c) => Goto(s, p, Retire(c))
    case StartWork => Goto(s, p, PopGlobal)
    case StartNew => Goto(s.(services := s.services + [Created()]), p, CreateQueue(|s.services|))
  }

  /** Steps of `skynet_context_push`, `skynet_context_release` and `skynet_handle_retire`. */
  function StepReference(s: State, p: nat): State
    requires p < |s.procs| && InRange(s, s.procs[p])
  {
    match s.procs[p]
    case Grab(c, m) =>
      if Registered(s, c) then Goto(Set(s, c, s.services[c].(ref := s.services[c].ref + 1)), p, Push(c, m))
      else Goto(s, p, Idle)
    case Push(c, m) =>
      if !s.services[c].made then Goto(s, p, Lost(c))
      else Goto(EnlistIf(Set(s, c, Pushed(s.services[c], m)), c, !s.services[c].inGlobal), p, Release(c, KIdle))
    case Release(c, k) =>
      var v := s.services[c].(ref := s.services[c].ref - 1);
      Goto(Set(s, c, v), p, if v.ref == 0 then Mark(c, k) else Continue(k, true))
    case Mark(c, k) =>
      Goto(EnlistIf(Set(s, c, s.services[c].(release := true)), c, !s.services[c].inGlobal), p, Free(c, k))
    case Free(c, k) =>
      Goto(Set(s, c, s.services[c].(live := false)), p, Continue(k, false))
    case Retire(c) =>
      if Registered(s, c) then Goto(Set(s, c, s.services[c].(registered := false)), p, Release(c, KIdle))
      else Goto(s, p, Idle)
    case _ => s
  }

  predicate IsCreator(pc: Pc) {
    || pc.CreateQueue? || pc.Initialise? || pc.SetInit? || pc.FirstPush? || pc.LogLaunch? || pc.ReadHandle?
    || pc.RetireFailed?
  }

  /** Steps of `skynet_context_new` after the service has been registered. */
  function StepCreator(s: State, p: nat, ok: bool): State
    requires p < |s.procs| && InRange(s, s.procs[p])
  {
    match s.procs[p]
    case CreateQueue(c) => Goto(Set(s, c, s.services[c].(made := true)), p, Initialise(c))
    case Initialise(c) => Goto(s, p, Release(c, if ok then KReady(c) else KRetire(c)))
    case SetInit(c) => Goto(Set(s, c, s.services[c].(init := true)), p, FirstPush(c, true))
    case FirstPush(c, alive) => Goto(Enlist(s, c), p, if alive then LogLaunch(c) else ReadHandle(c, false))
    case LogLaunch(c) => Goto(s, p, ReadHandle(c, true))
    case ReadHandle(c, _) => Goto(s, p, Idle)
    case RetireFailed(c) =>
      if s.services[c].registered then Goto(Set(s, c, s.services[c].(registered := false)), p, Release(c, KDrop(c)))
      else Goto(s, p, LetGo(c, false))
    case _ => s
  }

  /** Steps of `skynet_context_message_dispatch`. */
  function StepWorker(s: State, p: nat, weight: int): State
    requires p < |s.procs| && InRange(s, s.procs[p])
  {
    match s.procs[p]
    case PopGlobal =>
      if s.list == [] then Goto(s, p, Idle) else Goto(s.(list := s.list[1..]), p, Hold(s.list[0]))
    case Hold(q) =>
      if s.services[q].registered then Goto(Set(s, q, s.services[q].(ref := s.services[q].ref + 1)), p, Run(q, 0, 1))
      else Goto(s, p, LetGo(q, true))
    case Run(q, i, n) =>
      Goto(Set(s, q, PoppedForDispatch(s.services[q])), p,
           if s.services[q].queue == [] then Release(q, KPop)
           else if i == 0 then Length(q) else Callback(q, i, n))
    case Length(q) => Goto(s, p, Callback(q, 0, Batch(|s.services[q].queue|, weight)))
    case Callback(q, i, n) => Goto(s, p, if i + 1 < n then Run(q, i + 1, n) else Turn(q))
    case Turn(q) =>
      if s.list == [] then Goto(s, p, Release(q, KHold(q)))
      else Goto(s.(list := s.list[1..]), p, PutBack(q, s.list[0]))
    case PutBack(q, next) => Goto(Enlist(s, q), p, Release(q, KHold(next)))
    case _ => s
  }

  /** Steps of `skynet_mq_release`. */
  function StepRelease(s: State, p: nat): State
    requires p < |s.procs| && InRange(s, s.procs[p])
  {
    match s.procs[p]
    case LetGo(q, worker) =>
      if s.services[q].release then Goto(s, p, Drop(q, worker)) else Goto(Enlist(s, q), p, Away(worker))
    case Drop(q, worker) =>
      Goto(Set(s, q, PoppedToDrop(s.services[q])), p,
           if s.services[q].queue == [] then FreeQueue(q, worker) else Drop(q, worker))
    case FreeQueue(q, worker) => Goto(Set(s, q, s.services[q].(freed := true)), p, Away(worker))
    case _ => s
  }

  function Apply(s: State, st: Step): State
    requires Enabled(s, st)
  {
    var pc := s.procs[st.p];
    if !st.action.Go? then Start(s, st.p, st.action)
    else if !InRange(s, pc) then s      // never: see SchedulerProof.RunKeeps
    else if pc.Grab? || pc.Push? || pc.Lost? || pc.Release? || pc.Mark? || pc.Free? || pc.Retire? then StepReference(s, st.p)
    else if IsCreator(pc) then StepCreator(s, st.p, st.action.ok)
    else if pc.LetGo? || pc.Drop? || pc.FreeQueue? then StepRelease(s, st.p)
    else StepWorker(s, st.p, st.action.weight)
  }

  /** Any number of threads, no service yet. */
  predicate Initial(s: State) {
    s.services == [] && s.list == [] && forall p :: 0 <= p < |s.procs| ==> s.procs[p] == Idle
  }

  /** The steps lead from `s` to `t`. */
  ghost predicate Leads(s: State, steps: seq<Step>, t: State)
    decreases |steps|
  {
    if steps == [] then s == t
    else Enabled(s, steps[0]) && Leads(Apply(s, steps[0]), steps[1..], t)
  }

  ghost predicate Reachable(t: State) {
    exists s, steps :: Initial(s) && Leads(s, steps, t)
  }
}
