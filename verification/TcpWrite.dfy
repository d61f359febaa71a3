/**
  The TCP write path of the socket server, for one connected socket, as interleaved steps.

  Worker threads send packets.  A high-priority send first looks, without a lock, whether nothing
  is waiting, then tries the direct-write lock and looks again, and writes to the socket itself;
  otherwise it counts itself in `sending` and passes the packet through a pipe to the socket
  thread, which keeps a high and a low list of write buffers.  Every read of a shared field by a
  worker is a step of its own, so other threads may run between any two of them.
  `write` accepts any prefix of what it is given.
 */
module TcpWrite {

  type Bytes = seq<int>

  datatype Option<+T> = None | Some(value: T)

  datatype Priority = High | Low

  /** A packet, tagged with the worker that sends it. */
  datatype Packet = Packet(sender: nat, priority: Priority, data: Bytes)

  /** A write buffer: the first `off` bytes of the packet have been written. */
  datatype Buffer = Buffer(packet: Packet, off: nat)

  /** Where a worker stands in `socket_server_send` or its low-priority form. */
  datatype WorkerPc =
    | Idle
    | LookHigh | LookLow | LookDw | LookSending        // can_direct_write, without the lock
    | TryLock
    | CheckHigh | CheckLow | CheckDw | CheckSending    // can_direct_write again, with the lock
    | DirectWrite
    | GiveUp                                           // release the lock and take the slow way
    | Written                                          // release the lock and return
    | IncSending
    | SendRequest

  /** `packet` is meaningful when the worker is not idle; `issued` is everything it has sent so far. */
  datatype Worker = Worker(pc: WorkerPc, packet: Packet, issued: seq<Packet>)

  datatype ServerPc =
    | Waiting
    | Queued                 // a request was queued; `sending` is still to be decremented
    | SendingHigh            // in send_buffer with the lock: step 1
    | SendingLow             // step 2
    | Stopped                // about to release the lock

  datatype Owner = Nobody | Server | Sender(w: nat)

  datatype State = State(
    high: seq<Buffer>, low: seq<Buffer>, wbSize: int, sending: nat,
    lock: Owner, dw: Option<Buffer>, event: bool,
    pipe: seq<Packet>,
    workers: seq<Worker>, server: ServerPc,
    wire: Bytes,                     // every byte written to the socket
    done: seq<Packet>)               // the packets written completely, in that order

  // ----- steps -----

  datatype Step =
    | StartHigh(w: nat, data: Bytes)
    | StartLow(w: nat, data: Bytes)
    | Advance(w: nat, n: nat)        // next step of a worker; `n` bytes if it writes
    | TakeRequest                    // socket thread: a request from the pipe
    | DecSending
    | LockServer                     // socket thread: the socket is writable
    | ServerWrite(n: nat)            // one write of the head buffer accepts `n` bytes
    | ServerAgain                    // write would block
    | ServerTurn                     // the list is exhausted: go on
    | UnlockServer

  const MAX_SENDING: nat := 0xffff

  function SetWorker(s: State, w: nat, wk: Worker): State
    requires w < |s.workers|
  {
    s.(workers := s.workers[w := wk])
  }

  function Goto(s: State, w: nat, pc: WorkerPc): State
    requires w < |s.workers|
  {
    SetWorker(s, w, s.workers[w].(pc := pc))
  }

  /** A check that leads on when `ok`, and otherwise to `other`. */
  function Branch(s: State, w: nat, ok: bool, next: WorkerPc, other: WorkerPc): State
    requires w < |s.workers|
  {
    Goto(s, w, if ok then next else other)
  }

  function Begin(s: State, w: nat, priority: Priority, data: Bytes): State
    requires w < |s.workers|
  {
    var p := Packet(w, priority, data);
    SetWorker(s, w, Worker(if priority == High then LookHigh else IncSending, p, s.workers[w].issued + [p]))
  }

  /** The bytes a direct write puts on the wire; what is left goes to the direct-write buffer. */
  function WriteDirectly(s: State, w: nat, n: nat): State
    requires w < |s.workers| && n <= |s.workers[w].packet.data|
  {
    var p := s.workers[w].packet;
    var s1 := Goto(s, w, Written).(wire := s.wire + p.data[..n]);
    if n == |p.data| then s1.(done := s.done + [p])
    else s1.(dw := Some(Buffer(p, n)), event := true)
  }

  predicate WorkerEnabled(s: State, w: nat, n: nat) {
    && w < |s.workers|
    && match s.workers[w].pc
       case Idle => false
       case DirectWrite => n <= |s.workers[w].packet.data|
       case IncSending => s.sending < MAX_SENDING
       case _ => true
  }

  function WorkerStep(s: State, w: nat, n: nat): (r: State)
    requires WorkerEnabled(s, w, n)
    ensures |r.workers| == |s.workers|
  {
    match s.workers[w].pc
    case LookHigh => Branch(s, w, s.high == [], LookLow, IncSending)
    case LookLow => Branch(s, w, s.low == [], LookDw, IncSending)
    case LookDw => Branch(s, w, s.dw.None?, LookSending, IncSending)
    case LookSending => Branch(s, w, s.sending == 0, TryLock, IncSending)
    case TryLock =>
      if s.lock == Nobody then Goto(s, w, CheckHigh).(lock := Sender(w)) else Goto(s, w, IncSending)
    case CheckHigh => Branch(s, w, s.high == [], CheckLow, GiveUp)
    case CheckLow => Branch(s, w, s.low == [], CheckDw, GiveUp)
    case CheckDw => Branch(s, w, s.dw.None?, CheckSending, GiveUp)
    case CheckSending => Branch(s, w, s.sending == 0, DirectWrite, GiveUp)
    case DirectWrite => WriteDirectly(s, w, n)
    case GiveUp => Goto(s, w, IncSending).(lock := Nobody)
    case Written => Goto(s, w, Idle).(lock := Nobody)
    case IncSending => Goto(s, w, SendRequest).(sending := s.sending + 1)
    case SendRequest => Goto(s, w, Idle).(pipe := s.pipe + [s.workers[w].packet])
  }

  /** send_socket: an empty socket takes any packet on the high list. */
  function Queue(s: State, p: Packet): State {
    var b := Buffer(p, 0);
    var s1 := s.(wbSize := s.wbSize + |p.data|);
    if s.high == [] && s.low == [] then s1.(high := [b], event := true)
    else if p.priority == Low then s1.(low := s.low + [b])
    else s1.(high := s.high + [b])
  }

  /** The direct-write buffer goes before the head of the high list. */
  function MergeDirect(s: State): State {
    match s.dw
    case None => s
    case Some(b) => s.(high := [b] + s.high, wbSize := s.wbSize + Rest(b), dw := None)
  }

  function Rest(b: Buffer): int {
    |b.packet.data| - b.off
  }

  /** One accepted write of `n` bytes of the head of `list`, and the list afterwards. */
  function AfterWrite(list: seq<Buffer>, n: nat): seq<Buffer>
    requires list != [] && n <= Rest(list[0])
  {
    if n == Rest(list[0]) then list[1..] else [list[0].(off := list[0].off + n)] + list[1..]
  }

  function Written1(s: State, list: seq<Buffer>, n: nat): State
    requires list != [] && list[0].off + n <= |list[0].packet.data|
  {
    var b := list[0];
    s.(wbSize := s.wbSize - n,
       wire := s.wire + b.packet.data[b.off..b.off + n],
       done := if n == Rest(b) then s.done + [b.packet] else s.done)
  }

  predicate Uncomplete(list: seq<Buffer>) {
    list != [] && list[0].off != 0
  }

  /** Move the head of the low list to the empty high list. */
  function RaiseUncomplete(s: State): State
    requires s.low != []
  {
    s.(low := s.low[1..], high := [s.low[0]])
  }

  /** The list the socket thread is writing from. */
  function Current(s: State): seq<Buffer> {
    if s.server == SendingHigh then s.high else s.low
  }

  predicate Enabled(s: State, step: Step) {
    match step
    case StartHigh(w, _) => w < |s.workers| && s.workers[w].pc == Idle
    case StartLow(w, _) => w < |s.workers| && s.workers[w].pc == Idle
    case Advance(w, n) => WorkerEnabled(s, w, n)
    case TakeRequest => s.server == Waiting && s.pipe != []
    case DecSending => s.server == Queued && s.sending > 0
    case LockServer => s.server == Waiting && s.lock == Nobody
    case ServerWrite(n) =>
      && (s.server == SendingHigh || s.server == SendingLow)
      && Current(s) != [] && Current(s)[0].off + n <= |Current(s)[0].packet.data|
    case ServerAgain => (s.server == SendingHigh || s.server == SendingLow) && Current(s) != []
    case ServerTurn => (s.server == SendingHigh || s.server == SendingLow) && Current(s) == []
    case UnlockServer => s.server == Stopped
  }

  function Next(s: State, step: Step): State
    requires Enabled(s, step)
  {
    match step
    case StartHigh(w, data) => Begin(s, w, High, data)
    case StartLow(w, data) => Begin(s, w, Low, data)
    case Advance(w, n) => WorkerStep(s, w, n)
    case TakeRequest => Queue(s.(pipe := s.pipe[1..], server := Queued), s.pipe[0])
    case DecSending => s.(sending := s.sending - 1, server := Waiting)
    case LockServer => MergeDirect(s).(lock := Server, server := SendingHigh)
    case ServerWrite(n) =>
      var list := Current(s);
      var rest := AfterWrite(list, n);
      var complete := n == Rest(list[0]);
      var s1 := Written1(s, list, n);
      if s.server == SendingHigh then
        s1.(high := rest, server := if complete then SendingHigh else Stopped)
      else if complete then s1.(low := rest)
      else
        // step 3: a low buffer sent in part goes to the high list
        var s2 := s1.(low := rest, server := Stopped);
        if Uncomplete(s2.low) then RaiseUncomplete(s2) else s2
    case ServerAgain => s.(server := Stopped)
    case ServerTurn =>
      if s.server == SendingHigh && s.low != [] then s.(server := SendingLow)
      else s.(event := false, server := Stopped)      // step 4: both lists are empty
    case UnlockServer => s.(lock := Nobody, server := Waiting)
  }

  function Init(workers: nat): State {
    State([], [], 0, 0, Nobody, None, false, [],
          seq(workers, w requires 0 <= w < workers => Worker(Idle, Packet(w, High, []), [])), Waiting, [], [])
  }

  // ----- the invariant -----

  function Flat(ps: seq<Packet>): Bytes {
    if ps == [] then [] else Flat(ps[..|ps| - 1]) + ps[|ps| - 1].data
  }

  function Unsent(list: seq<Buffer>): int {
    if list == [] then 0 else Rest(list[0]) + Unsent(list[1..])
  }

  /** The packets of the buffers, in order. */
  function Packets(list: seq<Buffer>): seq<Packet> {
    if list == [] then [] else [list[0].packet] + Packets(list[1..])
  }

  function DwList(s: State): seq<Buffer> {
    if s.dw.Some? then [s.dw.value] else []
  }

  /** What was written of the packet that is being written, if any. */
  function Part(s: State): Bytes {
    if s.dw.Some? && s.dw.value.off <= |s.dw.value.packet.data| then s.dw.value.packet.data[..s.dw.value.off]
    else if s.high != [] && s.high[0].off <= |s.high[0].packet.data| then s.high[0].packet.data[..s.high[0].off]
    else []
  }

  predicate Fresh(list: seq<Buffer>) {
    forall k :: 0 <= k < |list| ==> list[k].off == 0
  }

  /** Only the head may be sent in part. */
  predicate HeadOnly(list: seq<Buffer>) {
    list == [] || ((list[0].off == 0 || list[0].off < |list[0].packet.data|) && Fresh(list[1..]))
  }

  predicate Locked(pc: WorkerPc) {
    pc in {CheckHigh, CheckLow, CheckDw, CheckSending, DirectWrite, GiveUp, Written}
  }

  predicate ServerLocked(s: State) {
    s.server in {SendingHigh, SendingLow, Stopped}
  }

  /** Whether the worker has counted itself in `sending` but not yet passed its request on. */
  function Pending(wk: Worker): nat {
    if wk.pc == SendRequest then 1 else 0
  }

  function PendingAll(workers: seq<Worker>): nat {
    if workers == [] then 0 else Pending(workers[0]) + PendingAll(workers[1..])
  }

  /** The packets of one sender and priority, in order. */
  function Of(ps: seq<Packet>, w: nat, pr: Priority): (r: seq<Packet>)
    ensures forall k :: 0 <= k < |r| ==> r[k].sender == w && r[k].priority == pr
  {
    if ps == [] then []
    else
      var p := ps[|ps| - 1];
      var r := Of(ps[..|ps| - 1], w, pr);
      if p.sender == w && p.priority == pr then r + [p] else r
  }

  /** Everything handed over, in the order in which it is or will be written. */
  function Path(s: State): seq<Packet> {
    s.done + Packets(DwList(s)) + Packets(s.high) + Packets(s.low) + s.pipe
  }

  /** The packet the worker still holds. */
  function Held(wk: Worker): seq<Packet> {
    if wk.pc == Idle || wk.pc == Written then [] else [wk.packet]
  }

  predicate NoneOf(ps: seq<Packet>, w: nat) {
    forall k :: 0 <= k < |ps| ==> ps[k].sender != w
  }

  predicate NoBufferOf(list: seq<Buffer>, w: nat) {
    forall k :: 0 <= k < |list| ==> list[k].packet.sender != w
  }

  /** What a worker has established by the checks it has made. */
  predicate WorkerFacts(s: State, w: nat)
    requires w < |s.workers|
  {
    var pc := s.workers[w].pc;
    && (Locked(pc) <==> s.lock == Sender(w))
    && (pc != Idle ==> s.workers[w].packet.sender == w)
    && (pc !in {Idle, IncSending, SendRequest} ==> s.workers[w].packet.priority == High)
    // after `sending` was seen to be 0 none of this worker's packets is in the pipe
    && (pc in {TryLock, CheckHigh, CheckLow, CheckDw, CheckSending, DirectWrite} ==> NoneOf(s.pipe, w))
    // after the high list was seen empty under the lock it only takes new buffers of other workers
    && (pc in {CheckLow, CheckDw, CheckSending, DirectWrite} ==> Fresh(s.high) && NoBufferOf(s.high, w))
    && (pc in {CheckSending, DirectWrite} ==> s.dw.None?)
  }

  predicate Sizes(s: State) {
    s.wbSize == Unsent(s.high) + Unsent(s.low)
  }

  predicate Shape(s: State) {
    && HeadOnly(s.high) && Fresh(s.low)
    && (s.dw.Some? ==> s.dw.value.off < |s.dw.value.packet.data| && Fresh(s.high))
    && (forall k :: 0 <= k < |s.low| ==> s.low[k].packet.priority == Low)
    && s.wire == Flat(s.done) + Part(s)
  }

  predicate Locks(s: State) {
    && (ServerLocked(s) <==> s.lock == Server)
    && (s.lock.Sender? ==> s.lock.w < |s.workers|)
    && (ServerLocked(s) ==> s.dw.None?)
    && (s.server == SendingLow ==> s.high == [])
  }

  predicate Counts(s: State) {
    && s.sending == |s.pipe| + PendingAll(s.workers) + (if s.server == Queued then 1 else 0)
    && s.sending <= MAX_SENDING
  }

  /** Data that waits has the write event switched on. */
  predicate Events(s: State) {
    s.high != [] || s.low != [] || s.dw.Some? ==> s.event
  }

  /** Everything a worker sent at one priority is on its way exactly once, in order. */
  predicate Orders(s: State) {
    forall w, pr :: 0 <= w < |s.workers| ==>
      Of(Path(s), w, pr) + Of(Held(s.workers[w]), w, pr) == Of(s.workers[w].issued, w, pr)
  }

  predicate Inv(s: State) {
    && Sizes(s) && Shape(s) && Locks(s) && Counts(s) && Events(s) && Orders(s)
    && forall w :: 0 <= w < |s.workers| ==> WorkerFacts(s, w)
  }
}
