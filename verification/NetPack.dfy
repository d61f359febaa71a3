/**
  The stream framer: packets with a two-byte big-endian length, cut out of byte streams that
  arrive in chunks of any size, many connections mixed.
 */
module NetPack {

  type Byte = x: nat | x < 256
  type Bytes = seq<Byte>

  const HASHSIZE: nat := 4096
  const QUEUESIZE: nat := 1024

  // ----- what a stream means -----

  /** The packets in a stream, and the bytes after the last complete one. */
  datatype Parsed = Parsed(packets: seq<Bytes>, rest: Bytes)

  function SizeOf(hi: Byte, lo: Byte): (n: nat)
    ensures n < 0x1_0000 && n / 256 == hi && n % 256 == lo
  {
    hi * 256 + lo
  }

  function Frames(s: Bytes): (r: Parsed)
    ensures |r.rest| <= |s|
    decreases |s|
  {
    if |s| < 2 then Parsed([], s)
    else
      var n := SizeOf(s[0], s[1]);
      if |s| - 2 < n then Parsed([], s)
      else
        var r := Frames(s[2 + n..]);
        Parsed([s[2..2 + n]] + r.packets, r.rest)
  }

  lemma {:induction false} RestIsIncomplete(s: Bytes)
    ensures Frames(Frames(s).rest) == Parsed([], Frames(s).rest)
    decreases |s|
  {
    if |s| >= 2 && |s| - 2 >= SizeOf(s[0], s[1]) {
      RestIsIncomplete(s[2 + SizeOf(s[0], s[1])..]);
    }
  }

  /** A stream that starts with a complete packet. */
  predicate StartsComplete(s: Bytes) {
    |s| >= 2 && |s| - 2 >= SizeOf(s[0], s[1])
  }

  lemma FramesFirst(s: Bytes)
    ensures !StartsComplete(s) ==> Frames(s) == Parsed([], s)
    ensures StartsComplete(s) ==>
      var n := SizeOf(s[0], s[1]);
      Frames(s) == Parsed([s[2..2 + n]] + Frames(s[2 + n..]).packets, Frames(s[2 + n..]).rest)
  {
  }

  /** Only the incomplete rest matters for what comes later. */
  lemma {:induction false} FramesConcat(s: Bytes, t: Bytes)
    ensures var r := Frames(Frames(s).rest + t);
            Frames(s + t) == Parsed(Frames(s).packets + r.packets, r.rest)
    decreases |s|
  {
    hide Frames;
    FramesFirst(s);
    if StartsComplete(s) {
      var n := SizeOf(s[0], s[1]);
      FramesConcat(s[2 + n..], t);
      FramesFirst(s + t);
      assert (s + t)[0] == s[0] && (s + t)[1] == s[1];
      assert (s + t)[2 + n..] == s[2 + n..] + t;
      assert (s + t)[2..2 + n] == s[2..2 + n];
      var a := Frames(s[2 + n..]);
      Regroup(s[2..2 + n], a.packets, Frames(a.rest + t).packets);
    }
  }

  lemma Regroup(p: Bytes, a: seq<Bytes>, b: seq<Bytes>)
    ensures [p] + (a + b) == [p] + a + b
  {
  }

  /** `lpack`: refused for a message of 64 K or more. */
  function LPack(msg: Bytes): (r: Option<Bytes>)
    ensures r.Some? <==> |msg| < 0x1_0000
    ensures r.Some? ==> Frames(r.value) == Parsed([msg], [])
  {
    if |msg| >= 0x1_0000 then None
    else
      assert Pack(msg)[2 + |msg|..] == [] && Pack(msg)[2..2 + |msg|] == msg;
      Some(Pack(msg))
  }

  function Pack(msg: Bytes): (r: Bytes)
    requires |msg| < 0x1_0000
  {
    [|msg| / 256, |msg| % 256] + msg
  }

  function PackAll(msgs: seq<Bytes>): Bytes
    requires forall m :: m in msgs ==> |m| < 0x1_0000
  {
    if msgs == [] then [] else Pack(msgs[0]) + PackAll(msgs[1..])
  }

  lemma {:induction false} PackThenFrame(msgs: seq<Bytes>)
    requires forall m :: m in msgs ==> |m| < 0x1_0000
    ensures Frames(PackAll(msgs)) == Parsed(msgs, [])
  {
    if msgs != [] {
      PackThenFrame(msgs[1..]);
      var m, s := msgs[0], PackAll(msgs);
      assert SizeOf(s[0], s[1]) == |m|;
      assert s[2..2 + |m|] == m && s[2 + |m|..] == PackAll(msgs[1..]);
      assert msgs == [m] + msgs[1..];
    }
  }

  // ----- the filter -----

  /** A packet that has begun: one header byte when `read` is negative, else `read` bytes of `size`. */
  datatype Uncomplete = Uncomplete(fd: nat, read: int, header: Byte, size: nat, buffer: Bytes)

  predicate UncompleteOk(uc: Uncomplete) {
    uc.read == -1 || (0 <= uc.read < uc.size < 0x1_0000 && |uc.buffer| == uc.read)
  }

  /** The bytes an uncomplete record stands for. */
  function Stands(uc: Uncomplete): (s: Bytes)
    requires UncompleteOk(uc)
    ensures Frames(s) == Parsed([], s) && s != []
  {
    if uc.read < 0 then [uc.header] else [uc.size / 256, uc.size % 256] + uc.buffer
  }

  function HashFd(fd: nat): (h: nat)
    ensures h < HASHSIZE
  {
    (fd / 0x100_0000 + fd / 0x1000 + fd) % 0x1_0000_0000 % HASHSIZE
  }

  /** At most one record per connection, each in its bucket. */
  ghost predicate BucketOk(b: seq<Uncomplete>, h: nat) {
    && (forall i :: 0 <= i < |b| ==> UncompleteOk(b[i]) && HashFd(b[i].fd) == h)
    && (forall i, j :: 0 <= i < j < |b| ==> b[i].fd != b[j].fd)
  }

  ghost function Lookup(b: seq<Uncomplete>, fd: nat): Bytes
    requires forall i :: 0 <= i < |b| ==> UncompleteOk(b[i])
  {
    if b == [] then [] else if b[0].fd == fd then Stands(b[0]) else Lookup(b[1..], fd)
  }

  lemma {:induction false} LookupAbsent(b: seq<Uncomplete>, fd: nat)
    requires forall i :: 0 <= i < |b| ==> UncompleteOk(b[i]) && b[i].fd != fd
    ensures Lookup(b, fd) == []
  {
    if b != [] { LookupAbsent(b[1..], fd); }
  }

  lemma {:induction false} LookupAt(b: seq<Uncomplete>, k: nat)
    requires k < |b| && forall i :: 0 <= i < |b| ==> UncompleteOk(b[i])
    requires forall i, j :: 0 <= i < j < |b| ==> b[i].fd != b[j].fd
    ensures Lookup(b, b[k].fd) == Stands(b[k])
  {
    if k > 0 { LookupAt(b[1..], k - 1); }
  }

  lemma {:induction false} LookupWithout(b: seq<Uncomplete>, k: nat, fd: nat)
    requires k < |b| && forall i :: 0 <= i < |b| ==> UncompleteOk(b[i])
    requires b[k].fd != fd
    ensures Lookup(b[..k] + b[k + 1..], fd) == Lookup(b, fd)
  {
    var c := b[..k] + b[k + 1..];
    if k == 0 {
      assert c == b[1..];
    } else {
      LookupWithout(b[1..], k - 1, fd);
      assert c[1..] == b[1..][..k - 1] + b[1..][k..];
    }
  }

  datatype Option<+T> = None | Some(value: T)

  datatype Result = Nothing | Data(packet: Bytes) | More

  function Tagged(fd: nat, ps: seq<Bytes>): (r: seq<(nat, Bytes)>)
    ensures |r| == |ps| && forall i :: 0 <= i < |ps| ==> r[i] == (fd, ps[i])
  {
    seq(|ps|, i requires 0 <= i < |ps| => (fd, ps[i]))
  }

  /** What a ring holds: from the head up to the tail, around the end. */
  function Around(cells: seq<(nat, Bytes)>, head: nat, tail: nat): seq<(nat, Bytes)>
    requires head < |cells| && tail < |cells|
  {
    if head <= tail then cells[head..tail] else cells[head..] + cells[..tail]
  }

  lemma AroundPush(cells: seq<(nat, Bytes)>, head: nat, tail: nat, x: (nat, Bytes), tail1: nat)
    requires head < |cells| && tail < |cells| && tail1 == (if tail + 1 == |cells| then 0 else tail + 1)
    ensures tail1 != head ==> Around(cells[tail := x], head, tail1) == Around(cells, head, tail) + [x]
    ensures tail1 == head ==> cells[tail := x][head..] + cells[tail := x][..head] == Around(cells, head, tail) + [x]
  {
  }

  lemma AroundPop(cells: seq<(nat, Bytes)>, head: nat, tail: nat, head1: nat)
    requires head < |cells| && tail < |cells| && head != tail && head1 == (if head + 1 == |cells| then 0 else head + 1)
    ensures Around(cells, head, tail) == [cells[head]] + Around(cells, head1, tail)
  {
  }

  /** The cells of a full ring from its head on. */
  lemma AroundFull(cells: seq<(nat, Bytes)>, head: nat, out: seq<(nat, Bytes)>)
    requires head < |cells| && |out| == |cells|
    requires forall i :: 0 <= i < |cells| ==> out[i] == cells[if head + i < |cells| then head + i else head + i - |cells|]
    ensures out == cells[head..] + cells[..head]
  {
  }

  class Filter {
    const hash: array<seq<Uncomplete>>
    var ring: array<(nat, Bytes)>
    var head: nat
    var tail: nat

    ghost predicate Valid()
      reads this, hash
    {
      && hash.Length == HASHSIZE && (forall h :: 0 <= h < HASHSIZE ==> BucketOk(hash[h], h))
      && head < ring.Length && tail < ring.Length
    }

    /** The packets that wait to be fetched. */
    ghost function Queue(): seq<(nat, Bytes)>
      requires Valid()
      reads this, hash, ring
    {
      Around(ring[..], head, tail)
    }

    /** The bytes of a connection's stream that have been received and not yet delivered. */
    ghost function Rest(fd: nat): Bytes
      requires Valid()
      reads this, hash
    {
      assert BucketOk(hash[HashFd(fd)], HashFd(fd));
      Lookup(hash[HashFd(fd)], fd)
    }

    constructor ()
      ensures Valid() && fresh(hash) && fresh(ring) && Queue() == [] && forall fd :: Rest(fd) == []
    {
      hash := new seq<Uncomplete>[HASHSIZE](_ => []);
      ring := new (nat, Bytes)[QUEUESIZE](_ => (0, []));
      head, tail := 0, 0;
    }

    /** `expand_queue`: a full ring moves to one with `QUEUESIZE` more cells. */
    method ExpandQueue()
      requires head == tail < ring.Length
      modifies this`ring, this`head, this`tail
      ensures fresh(ring) && head < ring.Length && tail < ring.Length && ring.Length == old(ring.Length) + QUEUESIZE
      ensures Around(ring[..], head, tail) == old(ring[head..] + ring[..head])
    {
      var cap := ring.Length;
      var cells := new (nat, Bytes)[cap + QUEUESIZE](_ => (0, []));
      var i := 0;
      while i < cap
        modifies cells
        invariant i <= cap
        invariant forall j :: 0 <= j < i ==> cells[j] == ring[if head + j < cap then head + j else head + j - cap]
      {
        var idx := (head + i) % cap;
        WrapIndex(head, i, cap);
        cells[i] := ring[idx];
        i := i + 1;
      }
      AroundFull(ring[..], head, cells[..cap]);
      ring := cells;
      head, tail := 0, cap;
    }

    /** `push_data`. */
    method PushData(fd: nat, packet: Bytes)
      requires Valid()
      modifies this`ring, this`head, this`tail, ring
      ensures Valid() && (ring == old(ring) || fresh(ring))
      ensures Queue() == old(Queue()) + [(fd, packet)]
    {
      hide BucketOk;
      ghost var cells := ring[..];
      ring[tail] := (fd, packet);
      assert ring[..] == cells[tail := (fd, packet)];
      var tail1 := if tail + 1 >= ring.Length then tail + 1 - ring.Length else tail + 1;
      AroundPush(cells, head, tail, (fd, packet), tail1);
      tail := tail1;
      if head == tail {
        ExpandQueue();
      }
    }

    /** `lpop`. */
    method Pop() returns (r: Option<(nat, Bytes)>)
      requires Valid()
      modifies this`head
      ensures Valid()
      ensures r.None? ==> old(Queue()) == [] && Queue() == []
      ensures r.Some? ==> old(Queue()) == [r.value] + Queue()
    {
      hide BucketOk;
      if head == tail {
        return None;
      }
      var np := ring[head];
      var head1 := if head + 1 >= ring.Length then 0 else head + 1;
      AroundPop(ring[..], head, tail, head1);
      head := head1;
      r := Some(np);
    }

    /** `find_uncomplete`: take a connection's record out of its bucket. */
    method Find(fd: nat) returns (r: Option<Uncomplete>)
      requires Valid()
      modifies hash
      ensures Valid() && Rest(fd) == []
      ensures forall other :: other != fd ==> Rest(other) == old(Rest(other))
      ensures r.None? ==> old(Rest(fd)) == []
      ensures r.Some? ==> r.value.fd == fd && UncompleteOk(r.value) && old(Rest(fd)) == Stands(r.value)
    {
      var h := HashFd(fd);
      var b := hash[h];
      assert BucketOk(b, h);
      var i := 0;
      while i < |b|
        invariant i <= |b| && forall j :: 0 <= j < i ==> b[j].fd != fd
      {
        if b[i].fd == fd {
          hash[h] := b[..i] + b[i + 1..];
          LookupAt(b, i);
          LookupAbsent(hash[h], fd);
          forall other | other != fd ensures Lookup(hash[h], other) == Lookup(b, other) {
            LookupWithout(b, i, other);
          }
          return Some(b[i]);
        }
        i := i + 1;
      }
      LookupAbsent(b, fd);
      r := None;
    }

    /** `save_uncomplete`: a record for a connection that has none. */
    method Save(uc: Uncomplete)
      requires Valid() && UncompleteOk(uc) && Rest(uc.fd) == []
      modifies hash
      ensures Valid() && Rest(uc.fd) == Stands(uc)
      ensures forall other :: other != uc.fd ==> Rest(other) == old(Rest(other))
    {
      var h := HashFd(uc.fd);
      var b := hash[h];
      assert BucketOk(b, h);
      if i :| 0 <= i < |b| && b[i].fd == uc.fd { LookupAt(b, i); }
      hash[h] := [uc] + b;
      assert hash[h][1..] == b;
    }

    /** `push_more`: cut whole packets off the buffer and keep the rest. */
    method PushMore(fd: nat, buffer: Bytes)
      requires Valid() && buffer != [] && Rest(fd) == []
      modifies this`ring, this`head, this`tail, ring, hash
      ensures Valid() && Rest(fd) == Frames(buffer).rest
      ensures forall other :: other != fd ==> Rest(other) == old(Rest(other))
      ensures ring == old(ring) || fresh(ring)
      ensures Queue() == old(Queue()) + Tagged(fd, Frames(buffer).packets)
      decreases |buffer|
    {
      hide Lookup, BucketOk, Frames;
      FramesFirst(buffer);
      if |buffer| == 1 {
        Save(Uncomplete(fd, -1, buffer[0], 0, []));
        return;
      }
      var size := SizeOf(buffer[0], buffer[1]);
      var data := buffer[2..];
      if |data| < size {
        Save(Uncomplete(fd, |data|, 0, size, data));
        assert buffer == [buffer[0], buffer[1]] + data;
        return;
      }
      assert buffer[2..2 + size] == data[..size] && buffer[2 + size..] == data[size..];
      PushData(fd, data[..size]);
      if |data| - size > 0 {
        PushMore(fd, data[size..]);
      } else {
        FramesFirst([]);
        assert data[size..] == [];
      }
    }

    /** Keep the beginning of a packet, or deliver the only packet, or queue all packets. */
    method FilterFresh(fd: nat, buffer: Bytes) returns (r: Result)
      requires Valid() && buffer != [] && Rest(fd) == []
      modifies this`ring, this`head, this`tail, ring, hash
      ensures Valid() && Rest(fd) == Frames(buffer).rest
      ensures forall other :: other != fd ==> Rest(other) == old(Rest(other))
      ensures ring == old(ring) || fresh(ring)
      ensures Delivers(r, fd, Frames(buffer), old(Queue()), Queue())
    {
      hide Lookup, BucketOk, Frames, Delivers, Stands;
      FramesFirst(buffer);
      FramesFirst([]);
      DeliversLess(fd, Frames(buffer), Queue());
      if |buffer| == 1 {
        var uc := Uncomplete(fd, -1, buffer[0], 0, []);
        Save(uc);
        StandsFor(uc);
        return Nothing;
      }
      var size := SizeOf(buffer[0], buffer[1]);
      var data := buffer[2..];
      FirstPacket(size, data, buffer);
      if |data| < size {
        var uc := Uncomplete(fd, |data|, 0, size, data);
        Save(uc);
        StandsFor(uc);
        return Nothing;
      }
      if |data| == size {
        assert data[..size] == data && data[size..] == [];
        return Data(data);
      }
      PushData(fd, data[..size]);
      PushMore(fd, data[size..]);
      DeliversMore(fd, data[..size], data[size..], Frames(buffer), old(Queue()), Queue());
      r := More;
    }

    /** Continue a packet that has begun. */
    method FilterBegun(fd: nat, uc0: Uncomplete, buffer0: Bytes) returns (r: Result)
      requires Valid() && buffer0 != [] && Rest(fd) == [] && uc0.fd == fd && UncompleteOk(uc0)
      modifies this`ring, this`head, this`tail, ring, hash
      ensures Valid() && Rest(fd) == Frames(Stands(uc0) + buffer0).rest
      ensures forall other :: other != fd ==> Rest(other) == old(Rest(other))
      ensures ring == old(ring) || fresh(ring)
      ensures Delivers(r, fd, Frames(Stands(uc0) + buffer0), old(Queue()), Queue())
    {
      hide Lookup, BucketOk, Frames, Delivers, Stands;
      var uc, buffer := uc0, buffer0;
      ghost var all := Stands(uc0) + buffer0;
      HeaderKnown(uc, buffer);
      if uc.read < 0 {
        uc := Uncomplete(fd, 0, uc.header, SizeOf(uc.header, buffer[0]), []);
        buffer := buffer[1..];
      }
      ghost var data := uc.buffer + buffer;
      assert all == [uc.size / 256, uc.size % 256] + data;
      FirstPacket(uc.size, data, all);
      FramesFirst([]);
      DeliversLess(fd, Frames(all), Queue());
      var need := uc.size - uc.read;
      if |buffer| < need {
        uc := uc.(buffer := uc.buffer + buffer, read := uc.read + |buffer|);
        Save(uc);
        StandsFor(uc);
        return Nothing;
      }
      var packet := uc.buffer + buffer[..need];
      var more := buffer[need..];
      assert data[..uc.size] == packet && data[uc.size..] == more;
      if more == [] {
        return Data(packet);
      }
      PushData(fd, packet);
      PushMore(fd, more);
      DeliversMore(fd, packet, more, Frames(all), old(Queue()), Queue());
      r := More;
    }

    /** `filter_data_`: one chunk of a connection's stream. */
    method FilterData(fd: nat, buffer: Bytes) returns (r: Result)
      requires Valid() && buffer != []
      modifies this`ring, this`head, this`tail, ring, hash
      ensures Valid() && Rest(fd) == Frames(old(Rest(fd)) + buffer).rest
      ensures forall other :: other != fd ==> Rest(other) == old(Rest(other))
      ensures ring == old(ring) || fresh(ring)
      ensures Delivers(r, fd, Frames(old(Rest(fd)) + buffer), old(Queue()), Queue())
    {
      hide Lookup, BucketOk, Frames, Delivers;
      var uc := Find(fd);
      if uc.Some? {
        r := FilterBegun(fd, uc.value, buffer);
      } else {
        assert [] + buffer == buffer;
        r := FilterFresh(fd, buffer);
      }
    }

    /** `close_uncomplete`. */
    method Close(fd: nat)
      requires Valid()
      modifies hash
      ensures Valid() && Rest(fd) == []
      ensures forall other :: other != fd ==> Rest(other) == old(Rest(other))
    {
      var _ := Find(fd);
    }

    /** `lpop` until nothing is left. */
    method Drain() returns (out: seq<(nat, Bytes)>)
      requires Valid()
      modifies this`head
      ensures Valid() && out == old(Queue()) && Queue() == []
    {
      hide BucketOk, Around;
      out := [];
      while true
        invariant Valid() && out + Queue() == old(Queue())
        decreases |Queue()|
      {
        var np := Pop();
        if np.None? {
          return;
        }
        Popped(out, np.value, Queue());
        out := out + [np.value];
      }
    }
  }

  lemma Popped(out: seq<(nat, Bytes)>, x: (nat, Bytes), q: seq<(nat, Bytes)>)
    ensures out + ([x] + q) == out + [x] + q
  {
  }

  lemma WrapIndex(head: nat, i: nat, cap: nat)
    requires head < cap && i < cap
    ensures (head + i) % cap == if head + i < cap then head + i else head + i - cap
  {
  }

  /** A chunk completes no packet, or exactly one with nothing after it, or some other number, which are queued. */
  ghost predicate Delivers(r: Result, fd: nat, p: Parsed, before: seq<(nat, Bytes)>, after: seq<(nat, Bytes)>) {
    match r
    case Nothing => p.packets == [] && after == before
    case Data(packet) => p == Parsed([packet], []) && after == before
    case More => |p.packets| >= 1 && (|p.packets| > 1 || p.rest != []) && after == before + Tagged(fd, p.packets)
  }

  lemma SomethingLeft(s: Bytes)
    requires s != []
    ensures Frames(s).packets != [] || Frames(s).rest != []
  {
  }

  lemma DeliversMore(fd: nat, first: Bytes, more: Bytes, p: Parsed, before: seq<(nat, Bytes)>, after: seq<(nat, Bytes)>)
    requires more != [] && p == Parsed([first] + Frames(more).packets, Frames(more).rest)
    requires after == before + [(fd, first)] + Tagged(fd, Frames(more).packets)
    ensures Delivers(More, fd, p, before, after)
  {
    hide Frames;
    SomethingLeft(more);
    assert Tagged(fd, p.packets) == [(fd, first)] + Tagged(fd, Frames(more).packets);
  }

  lemma DeliversLess(fd: nat, p: Parsed, before: seq<(nat, Bytes)>)
    ensures p.packets == [] ==> Delivers(Nothing, fd, p, before, before)
    ensures |p.packets| == 1 && p.rest == [] ==> Delivers(Data(p.packets[0]), fd, p, before, before)
  {
  }

  /** The header byte that was kept and the next byte make the size. */
  lemma HeaderKnown(uc: Uncomplete, buffer: Bytes)
    requires UncompleteOk(uc) && buffer != []
    ensures uc.read < 0 ==>
      Stands(uc) + buffer == [SizeOf(uc.header, buffer[0]) / 256, SizeOf(uc.header, buffer[0]) % 256] + [] + buffer[1..]
    ensures uc.read >= 0 ==> Stands(uc) + buffer == [uc.size / 256, uc.size % 256] + uc.buffer + buffer
  {
  }

  lemma StandsFor(uc: Uncomplete)
    requires UncompleteOk(uc)
    ensures uc.read < 0 ==> Stands(uc) == [uc.header]
    ensures uc.read >= 0 ==> Stands(uc) == [uc.size / 256, uc.size % 256] + uc.buffer
  {
  }

  /** Where the first packet of a stream with a known size ends. */
  lemma FirstPacket(size: nat, data: Bytes, all: Bytes)
    requires size < 0x1_0000 && all == [size / 256, size % 256] + data
    ensures |data| < size ==> Frames(all) == Parsed([], all)
    ensures |data| >= size ==>
      Frames(all) == Parsed([data[..size]] + Frames(data[size..]).packets, Frames(data[size..]).rest)
  {
    hide Frames;
    FramesFirst(all);
    assert SizeOf(all[0], all[1]) == size;
    if |data| >= size {
      assert all[2..2 + size] == data[..size] && all[2 + size..] == data[size..];
    }
  }

  // ----- whole runs -----

  /** A chunk of a connection's stream, or the end of the connection (closed, or after an error). */
  datatype Event = Chunk(fd: nat, data: Bytes) | Closed(fd: nat)

  /** What connection `fd` has sent: packets of streams that have ended, and the stream since. */
  function Sent(es: seq<Event>, fd: nat): (seq<Bytes>, Bytes) {
    if es == [] then ([], [])
    else
      var e := es[|es| - 1];
      var (ended, stream) := Sent(es[..|es| - 1], fd);
      if e.fd != fd then (ended, stream)
      else if e.Chunk? then (ended, stream + e.data)
      else (ended + Frames(stream).packets, [])
  }

  /** The packets delivered for connection `fd`, in order. */
  function PacketsFor(out: seq<(nat, Bytes)>, fd: nat): seq<Bytes> {
    if out == [] then []
    else
      var o := out[|out| - 1];
      var before := PacketsFor(out[..|out| - 1], fd);
      if o.0 == fd then before + [o.1] else before
  }

  lemma {:induction false} PacketsForConcat(a: seq<(nat, Bytes)>, b: seq<(nat, Bytes)>, fd: nat)
    ensures PacketsFor(a + b, fd) == PacketsFor(a, fd) + PacketsFor(b, fd)
  {
    if b == [] {
      assert a + b == a;
    } else {
      var n := |b| - 1;
      PacketsForConcat(a, b[..n], fd);
      assert (a + b)[..|a| + n] == a + b[..n];
    }
  }

  lemma {:induction false} PacketsForTagged(ps: seq<Bytes>, owner: nat, fd: nat)
    ensures PacketsFor(Tagged(owner, ps), fd) == if owner == fd then ps else []
  {
    if ps != [] {
      var n := |ps| - 1;
      PacketsForTagged(ps[..n], owner, fd);
      assert Tagged(owner, ps)[..n] == Tagged(owner, ps[..n]);
      assert ps == ps[..n] + [ps[n]];
    }
  }

  /** What one connection's stream, cut anywhere and mixed with others, has come to. */
  ghost predicate Delivered(out: seq<(nat, Bytes)>, rest: Bytes, es: seq<Event>, fd: nat) {
    var (ended, stream) := Sent(es, fd);
    PacketsFor(out, fd) == ended + Frames(stream).packets && rest == Frames(stream).rest
  }

  lemma SentChunk(es: seq<Event>, i: nat, fd: nat)
    requires i < |es| && es[i].Chunk?
    ensures var (ended, stream) := Sent(es[..i], fd);
            Sent(es[..i + 1], fd) == (ended, if es[i].fd == fd then stream + es[i].data else stream)
  {
    hide Frames;
    assert es[..i + 1][..i] == es[..i];
  }

  lemma DeliveredChunk(out: seq<(nat, Bytes)>, rest: Bytes, es: seq<Event>, i: nat, got: seq<(nat, Bytes)>, rest1: Bytes, fd: nat)
    requires i < |es| && es[i].Chunk? && Delivered(out, rest, es[..i], fd)
    requires es[i].fd != fd ==> rest1 == rest
    requires es[i].fd == fd ==> rest1 == Frames(rest + es[i].data).rest
    requires got == Tagged(es[i].fd, if es[i].fd == fd then Frames(rest + es[i].data).packets else SecondOf(got))
    ensures Delivered(out + got, rest1, es[..i + 1], fd)
  {
    hide Frames, Sent, PacketsFor, Tagged, SecondOf;
    var (ended, stream) := Sent(es[..i], fd);
    var d := es[i].data;
    SentChunk(es, i, fd);
    PacketsForConcat(out, got, fd);
    if es[i].fd == fd {
      PacketsForTagged(Frames(rest + d).packets, fd, fd);
      FramesConcat(stream, d);
      Joined(ended, Frames(stream).packets, Frames(rest + d).packets);
    } else {
      PacketsForTagged(SecondOf(got), es[i].fd, fd);
    }
  }

  lemma Joined(a: seq<Bytes>, b: seq<Bytes>, c: seq<Bytes>)
    ensures a + b + c == a + (b + c)
  {
  }

  lemma DeliveredClosed(out: seq<(nat, Bytes)>, rest: Bytes, es: seq<Event>, i: nat, rest1: Bytes, fd: nat)
    requires i < |es| && es[i].Closed? && Delivered(out, rest, es[..i], fd)
    requires rest1 == if es[i].fd == fd then [] else rest
    ensures Delivered(out, rest1, es[..i + 1], fd)
  {
    hide Frames;
    FramesFirst([]);
    assert es[..i + 1][..i] == es[..i];
  }

  function SecondOf(got: seq<(nat, Bytes)>): (r: seq<Bytes>)
    ensures |r| == |got| && forall i :: 0 <= i < |got| ==> r[i] == got[i].1
  {
    seq(|got|, i requires 0 <= i < |got| => got[i].1)
  }

  /**
    Every cut of the streams into chunks and every mixture of connections, opened and closed at any
    time: each connection gets exactly the packets of its own streams, in order, and the filter keeps
    exactly the rest of those still open.
   */
  method Run(es: seq<Event>) returns (out: seq<(nat, Bytes)>, filter: Filter)
    requires forall e :: e in es && e.Chunk? ==> e.data != []
    ensures filter.Valid() && forall fd: nat :: Delivered(out, filter.Rest(fd), es, fd)
  {
    hide Lookup, BucketOk, Frames, Delivered, Around;
    filter := new Filter();
    out := [];
    forall fd: nat ensures Delivered([], [], es[..0], fd) { NothingDelivered(es, fd); }
    var i := 0;
    while i < |es|
      invariant i <= |es| && filter.Valid() && filter.Queue() == []
      invariant fresh(filter) && fresh(filter.hash) && fresh(filter.ring)
      invariant forall fd: nat :: Delivered(out, filter.Rest(fd), es[..i], fd)
    {
      var e := es[i];
      label Before:
      if e.Closed? {
        filter.Close(e.fd);
        forall fd: nat ensures Delivered(out, filter.Rest(fd), es[..i + 1], fd) {
          DeliveredClosed(out, old@Before(filter.Rest(fd)), es, i, filter.Rest(fd), fd);
        }
      } else {
        var r := filter.FilterData(e.fd, e.data);
        var got := if r.Data? then [(e.fd, r.packet)] else [];
        var more := filter.Drain();
        got := got + more;
        ghost var p := Frames(old@Before(filter.Rest(e.fd)) + e.data);
        assert got == Tagged(e.fd, p.packets);
        forall fd: nat ensures Delivered(out + got, filter.Rest(fd), es[..i + 1], fd) {
          DeliveredChunk(out, old@Before(filter.Rest(fd)), es, i, got, filter.Rest(fd), fd);
        }
        out := out + got;
      }
      i := i + 1;
    }
    assert es[..i] == es;
  }

  lemma NothingDelivered(es: seq<Event>, fd: nat)
    ensures Delivered([], [], es[..0], fd)
  {
  }

  /** Packing messages, cutting the bytes anywhere and filtering them is the identity on the stream since the last closing. */
  lemma PackThenFilter(out: seq<(nat, Bytes)>, rest: Bytes, es: seq<Event>, fd: nat, msgs: seq<Bytes>)
    requires Delivered(out, rest, es, fd)
    requires forall m :: m in msgs ==> |m| < 0x1_0000
    requires Sent(es, fd).1 == PackAll(msgs)
    ensures PacketsFor(out, fd) == Sent(es, fd).0 + msgs && rest == []
  {
    PackThenFrame(msgs);
  }
}
