/**
  Messages between the nodes of a cluster: requests and responses, cut into parts of 32 K when they
  are long, and put together again.
 */
module Cluster {
  import opened Ints

  type Byte = x: nat | x < 256
  type Bytes = seq<Byte>

  const MULTI_PART: nat := 0x8000
  const REQUEST_S_MAX: nat := 0x7fff_ffff / 2 - 2
  const RESPONSE_S_MAX: nat := 0x7fff_ffff - 2

  datatype Option<+T> = None | Some(value: T)

  datatype Address = Number(n: nat) | Name(s: Bytes)

  // ----- words -----

  function LE32(n: nat): (s: Bytes)
    requires n < 0x1_0000_0000
    ensures |s| == 4
  {
    [n % 256, n / 256 % 256, n / 256 / 256 % 256, n / 256 / 256 / 256]
  }

  function UnLE32(s: Bytes): (n: nat)
    requires |s| == 4
    ensures n < 0x1_0000_0000
  {
    var b0: nat, b1: nat, b2: nat, b3: nat := s[0], s[1], s[2], s[3];
    b0 + 256 * (b1 + 256 * (b2 + 256 * b3))
  }

  lemma WordBack(n: nat)
    requires n < 0x1_0000_0000
    ensures UnLE32(LE32(n)) == n
  {
  }

  /** A package: its size, big-endian, in front. */
  function Frame(body: Bytes): (f: Bytes)
    requires |body| < 0x1_0000
    ensures |f| == |body| + 2 && f[0] == |body| / 256 && f[1] == |body| % 256 && f[2..] == body
  {
    [|body| / 256, |body| % 256] + body
  }

  // ----- parts -----

  function Parts(msg: Bytes): (ps: seq<Bytes>)
    ensures |ps| >= 1 && forall i :: 0 <= i < |ps| ==> |ps[i]| <= MULTI_PART
    decreases |msg|
  {
    if |msg| <= MULTI_PART then [msg] else [msg[..MULTI_PART]] + Parts(msg[MULTI_PART..])
  }

  function Joined(ps: seq<Bytes>): Bytes {
    if ps == [] then [] else ps[0] + Joined(ps[1..])
  }

  lemma {:induction false} PartsJoin(msg: Bytes)
    ensures Joined(Parts(msg)) == msg
    ensures msg != [] ==> |Parts(msg)| == (|msg| - 1) / MULTI_PART + 1
    decreases |msg|
  {
    var ps := Parts(msg);
    if |msg| <= MULTI_PART {
      assert ps[1..] == [] && ps[0] + [] == msg;
    } else {
      PartsJoin(msg[MULTI_PART..]);
      assert ps[1..] == Parts(msg[MULTI_PART..]);
      assert msg[..MULTI_PART] + msg[MULTI_PART..] == msg;
    }
  }

  // ----- requests -----

  /** What a request package says. */
  datatype Request =
    | Whole(addr: Address, session: nat, msg: Bytes, push: bool)
    | Begin(addr: Address, session: nat, size: nat, push: bool)
    | Part(session: nat, data: Bytes, last: bool)

  predicate ProperAddress(a: Address) {
    match a
    case Number(n) => n < 0x1_0000_0000
    case Name(s) => 1 <= |s| <= 255
  }

  /** A push has the high bit of its session set. */
  function Marked(session: nat, push: bool): nat {
    if push then session + HIGH else session
  }

  /** The first package of a request. */
  function RequestBody(a: Address, session: nat, msg: Bytes, push: bool): (body: Bytes)
    requires ProperAddress(a) && session < HIGH && |msg| < 0x1_0000_0000
    ensures |body| < 0x1_0000
  {
    var s := LE32(Marked(session, push));
    match a
    case Number(n) =>
      if |msg| < MULTI_PART then [0] + LE32(n) + s + msg
      else [if push then 0x41 else 1] + LE32(n) + s + LE32(|msg|)
    case Name(name) =>
      if |msg| < MULTI_PART then [0x80, |name|] + name + s + msg
      else [if push then 0xc1 else 0x81, |name|] + name + s + LE32(|msg|)
  }

  function PartBody(session: nat, push: bool, data: Bytes, last: bool): (body: Bytes)
    requires session < HIGH && |data| <= MULTI_PART
    ensures |body| < 0x1_0000
  {
    [if last then 3 else 2] + LE32(Marked(session, push)) + data
  }

  /** The packages after the first one. */
  function PartBodies(session: nat, push: bool, ps: seq<Bytes>): (bs: seq<Bytes>)
    requires session < HIGH && forall i :: 0 <= i < |ps| ==> |ps[i]| <= MULTI_PART
    ensures |bs| == |ps|
    ensures forall i :: 0 <= i < |ps| ==> bs[i] == PartBody(session, push, ps[i], i == |ps| - 1)
  {
    seq(|ps|, i requires 0 <= i < |ps| => PartBody(session, push, ps[i], i == |ps| - 1))
  }

  function Word(s: Bytes, i: nat): nat
    requires i + 4 <= |s|
  {
    UnLE32(s[i..i + 4])
  }

  /** `lunpackrequest`, on a package without its size. */
  function UnpackRequest(b: Bytes): Option<Request> {
    if b == [] then None
    else if b[0] == 0 then
      if |b| < 9 then None else Some(Whole(Number(Word(b, 1)), Word(b, 5) % HIGH, b[9..], Word(b, 5) >= HIGH))
    else if b[0] == 1 || b[0] == 0x41 then
      if |b| != 13 then None else Some(Begin(Number(Word(b, 1)), Word(b, 5) % HIGH, Word(b, 9), b[0] == 0x41))
    else if b[0] == 2 || b[0] == 3 then
      if |b| < 5 then None else Some(Part(Word(b, 1) % HIGH, b[5..], b[0] == 3))
    else if b[0] == 0x80 then
      if |b| < 2 then None
      else
        var n: nat := b[1];
        if |b| < n + 6 then None
        else Some(Whole(Name(b[2..2 + n]), Word(b, n + 2) % HIGH, b[n + 6..], Word(b, n + 2) >= HIGH))
    else if b[0] == 0x81 || b[0] == 0xc1 then
      if |b| < 2 then None
      else
        var n: nat := b[1];
        if |b| < n + 10 then None
        else Some(Begin(Name(b[2..2 + n]), Word(b, n + 2) % HIGH, Word(b, n + 6), b[0] == 0xc1))
    else None
  }

  lemma MarkBack(session: nat, push: bool)
    requires session < HIGH
    ensures var m := Marked(session, push); m < 0x1_0000_0000 && m % HIGH == session && (m >= HIGH <==> push)
  {
  }

  /** A word inside a package. */
  lemma WordAt(a: Bytes, n: nat, t: Bytes)
    requires n < 0x1_0000_0000
    ensures Word(a + LE32(n) + t, |a|) == n
  {
    hide LE32, UnLE32;
    assert (a + LE32(n) + t)[|a|..|a| + 4] == LE32(n);
    WordBack(n);
  }

  lemma NumberBack(n: nat, session: nat, msg: Bytes, push: bool)
    requires n < 0x1_0000_0000 && session < HIGH && |msg| < 0x1_0000_0000
    ensures UnpackRequest(RequestBody(Number(n), session, msg, push)) ==
      Some(if |msg| < MULTI_PART then Whole(Number(n), session, msg, push) else Begin(Number(n), session, |msg|, push))
  {
    hide LE32, UnLE32, Marked, Word;
    MarkBack(session, push);
    var m := Marked(session, push);
    var b := RequestBody(Number(n), session, msg, push);
    var tag := b[0];
    var t := if |msg| < MULTI_PART then msg else LE32(|msg|);
    assert b == [tag] + LE32(n) + LE32(m) + t;
    WordAt([tag], n, LE32(m) + t);
    WordAt([tag] + LE32(n), m, t);
    assert b == [tag] + LE32(n) + (LE32(m) + t);
    if |msg| >= MULTI_PART {
      WordAt([tag] + LE32(n) + LE32(m), |msg|, []);
      assert b == [tag] + LE32(n) + LE32(m) + LE32(|msg|) + [];
    } else {
      assert b[9..] == msg;
    }
  }

  lemma NameBack(name: Bytes, session: nat, msg: Bytes, push: bool)
    requires 1 <= |name| <= 255 && session < HIGH && |msg| < 0x1_0000_0000
    ensures UnpackRequest(RequestBody(Name(name), session, msg, push)) ==
      Some(if |msg| < MULTI_PART then Whole(Name(name), session, msg, push) else Begin(Name(name), session, |msg|, push))
  {
    hide LE32, UnLE32, Marked, Word;
    MarkBack(session, push);
    var m, k := Marked(session, push), |name|;
    var b := RequestBody(Name(name), session, msg, push);
    var tag := b[0];
    var t := if |msg| < MULTI_PART then msg else LE32(|msg|);
    var head := [tag, k] + name;
    assert b == head + LE32(m) + t;
    WordAt(head, m, t);
    assert b[1] == k && b[2..2 + k] == name;
    if |msg| >= MULTI_PART {
      WordAt(head + LE32(m), |msg|, []);
      assert b == head + LE32(m) + LE32(|msg|) + [];
    } else {
      assert b[k + 6..] == msg;
    }
  }

  lemma PartBack(session: nat, push: bool, data: Bytes, last: bool)
    requires session < HIGH && |data| <= MULTI_PART
    ensures UnpackRequest(PartBody(session, push, data, last)) == Some(Part(session, data, last))
  {
    hide LE32, UnLE32, Marked, Word;
    MarkBack(session, push);
    var b := PartBody(session, push, data, last);
    WordAt([b[0]], Marked(session, push), data);
    assert b[5..] == data;
  }

  /** A message and the packages it becomes, without their sizes. */
  function RequestBodies(a: Address, session: nat, msg: Bytes, push: bool): (bs: seq<Bytes>)
    requires ProperAddress(a) && session < HIGH && |msg| < 0x1_0000_0000
    ensures forall i :: 0 <= i < |bs| ==> |bs[i]| < 0x1_0000
  {
    [RequestBody(a, session, msg, push)] + if |msg| < MULTI_PART then [] else PartBodies(session, push, Parts(msg))
  }

  /** What becomes of a list of parts: the message, a refusal, or a demand for more memory than there is. */
  datatype Assembly = Complete(msg: Bytes) | Refused | NoBuffer(asked: nat)

  /**
    `lconcat`: the parts, if they have the announced size together.  The size is kept in an `int`;
    a negative one is asked of the allocator as an unsigned 64-bit number.
   */
  function Concat(size: int, ps: seq<Bytes>): Assembly {
    var sz := ToInt(size);
    if sz < 0 then NoBuffer(0x1_0000_0000_0000_0000 + sz)
    else if |Joined(ps)| == sz then Complete(Joined(ps))
    else Refused
  }

  /** The parts of a message join to it exactly when its size fits the `int`. */
  lemma JoinsBelow2G(msg: Bytes)
    requires |msg| < 0x1_0000_0000
    ensures Concat(|msg|, Parts(msg)) == Complete(msg) <==> |msg| < HIGH
    ensures |msg| >= HIGH ==> Concat(|msg|, Parts(msg)).NoBuffer? && Concat(|msg|, Parts(msg)).asked > 0xffff_ffff_0000_0000
  {
    hide Parts, Joined, ToInt;
    PartsJoin(msg);
    FitsInt(|msg|);
  }

  /** A message of 2 G, which is packed and announced like any other, and does not come back. */
  lemma TwoGDoNotComeBack(a: Address, session: nat, push: bool)
    requires ProperAddress(a) && session < HIGH
    ensures exists msg: Bytes ::
      && |msg| == HIGH
      && UnpackRequest(RequestBodies(a, session, msg, push)[0]) == Some(Begin(a, session, |msg|, push))
      && Concat(|msg|, Parts(msg)) != Complete(msg)
  {
    hide UnpackRequest, RequestBodies, Concat, Parts;
    var msg: Bytes := seq(HIGH, _ => 0);
    RequestBack(a, session, msg, push);
    JoinsBelow2G(msg);
  }

  /**
    Every request comes back: a short one whole, a long one as an announcement and parts with the
    same session, of which exactly the last is marked, and which join to the message exactly when
    it has fewer than 2^31 bytes.
   */
  lemma RequestBack(a: Address, session: nat, msg: Bytes, push: bool)
    requires ProperAddress(a) && session < HIGH && |msg| < 0x1_0000_0000
    ensures var bs := RequestBodies(a, session, msg, push);
            if |msg| < MULTI_PART then |bs| == 1 && UnpackRequest(bs[0]) == Some(Whole(a, session, msg, push))
            else
              && |bs| == (|msg| - 1) / MULTI_PART + 2
              && UnpackRequest(bs[0]) == Some(Begin(a, session, |msg|, push))
              && (forall i :: 1 <= i < |bs| ==> UnpackRequest(bs[i]) == Some(Part(session, Parts(msg)[i - 1], i == |bs| - 1)))
              && (Concat(|msg|, Parts(msg)) == Complete(msg) <==> |msg| < HIGH)
  {
    hide UnpackRequest, RequestBody, PartBody, Parts, Joined;
    match a {
      case Number(n) => NumberBack(n, session, msg, push);
      case Name(s) => NameBack(s, session, msg, push);
    }
    if |msg| >= MULTI_PART {
      PartsJoin(msg);
      JoinsBelow2G(msg);
      var ps, bs := Parts(msg), RequestBodies(a, session, msg, push);
      forall i | 1 <= i < |bs| ensures UnpackRequest(bs[i]) == Some(Part(session, ps[i - 1], i == |bs| - 1)) {
        PartBack(session, push, ps[i - 1], i == |bs| - 1);
      }
    }
  }

  function Frames(bs: seq<Bytes>): (fs: seq<Bytes>)
    requires forall i :: 0 <= i < |bs| ==> |bs[i]| < 0x1_0000
    ensures |fs| == |bs| && forall i :: 0 <= i < |bs| ==> fs[i] == Frame(bs[i])
  {
    seq(|bs|, i requires 0 <= i < |bs| => Frame(bs[i]))
  }

  /** `packrequest`: refused for a session that is not positive or a name of a bad length. */
  method PackRequest(a: Address, session: int, msg: Bytes, push: bool) returns (r: Option<seq<Bytes>>, next: nat)
    requires session < HIGH && |msg| < 0x1_0000_0000 && (a.Number? ==> a.n < 0x1_0000_0000)
    ensures r.Some? <==> session > 0 && ProperAddress(a)
    ensures r.Some? ==> r.value == Frames(RequestBodies(a, session, msg, push)) && 0 < next <= REQUEST_S_MAX
  {
    hide RequestBody, Parts, PartBody, Frame;
    next := 0;
    if session <= 0 || !ProperAddress(a) {
      return None, 0;
    }
    next := if session + 1 > REQUEST_S_MAX then 50 else session + 1;
    var first := Frame(RequestBody(a, session, msg, push));
    if |msg| < MULTI_PART {
      return Some([first]), next;
    }
    var parts := PackMulti(session, msg, push);
    r := Some([first] + parts);
  }

  /** Where part `i` lies in the message. */
  lemma {:induction false} PartAt(msg: Bytes, i: nat)
    requires i < |Parts(msg)|
    ensures var p := i * MULTI_PART;
            && p <= |msg| && Parts(msg)[i] == msg[p..if |msg| - p > MULTI_PART then p + MULTI_PART else |msg|]
            && (i == |Parts(msg)| - 1 <==> |msg| - p <= MULTI_PART)
    decreases |msg|
  {
    if |msg| > MULTI_PART && i > 0 {
      PartAt(msg[MULTI_PART..], i - 1);
    }
  }

  /** `packreq_multi`. */
  method PackMulti(session: nat, msg: Bytes, push: bool) returns (fs: seq<Bytes>)
    requires session < HIGH && MULTI_PART <= |msg| < 0x1_0000_0000
    ensures fs == Frames(PartBodies(session, push, Parts(msg)))
  {
    hide Parts, PartBody, Frame;
    PartsJoin(msg);
    var part := (|msg| - 1) / MULTI_PART + 1;
    fs := [];
    var sz, ptr, i := |msg|, 0, 0;
    ghost var ps := Parts(msg);
    while i < part
      invariant 0 <= i <= part == |ps| && |fs| == i
      invariant i < part ==> ptr == i * MULTI_PART && ptr + sz == |msg|
      invariant forall j :: 0 <= j < i ==> fs[j] == Frame(PartBody(session, push, ps[j], j == part - 1))
    {
      PartAt(msg, i);
      var s := if sz > MULTI_PART then MULTI_PART else sz;
      fs := fs + [Frame(PartBody(session, push, msg[ptr..ptr + s], sz <= MULTI_PART))];
      sz, ptr, i := sz - s, ptr + s, i + 1;
    }
  }

  /** `lconcat`, filling a buffer of the announced size; `offset` never leaves the range of an `int`. */
  method ConcatParts(size: int, ps: seq<Bytes>) returns (r: Assembly)
    ensures r == Concat(size, ps)
  {
    var sz := ToInt(size);
    if sz < 0 {
      return NoBuffer(0x1_0000_0000_0000_0000 + sz);
    }
    var buffer: Bytes := [];
    var offset, i := 0, 0;
    assert ps[0..] == ps;
    while i < |ps|
      invariant 0 <= i <= |ps| && 0 <= offset == |buffer| <= sz < HIGH && Joined(ps) == buffer + Joined(ps[i..])
    {
      assert ps[i..][1..] == ps[i + 1..];
      assert buffer + (ps[i] + Joined(ps[i + 1..])) == buffer + ps[i] + Joined(ps[i + 1..]);
      if |ps[i]| + offset > sz {
        return Refused;
      }
      buffer := buffer + ps[i];
      offset := offset + |ps[i]|;
      i := i + 1;
    }
    assert ps[i..] == [] && buffer + [] == buffer;
    r := if offset != sz then Refused else Complete(buffer);
  }

  // ----- responses -----

  datatype Response =
    | Error(session: nat, my: nat, msg: Bytes)
    | Ok(session: nat, my: nat, msg: Bytes)
    | MultiBegin(session: nat, my: nat, size: nat)
    | MultiPart(session: nat, my: nat, data: Bytes, last: bool)

  function ResponseBody(session: nat, my: nat, kind: Byte, data: Bytes): (b: Bytes)
    requires session < 0x1_0000_0000 && my < 0x1_0000_0000
    ensures |b| == 9 + |data|
  {
    LE32(session) + LE32(my) + [kind] + data
  }

  function UnpackResponse(b: Bytes): Option<Response> {
    if |b| < 9 then None
    else
      var s, m := Word(b, 0), Word(b, 4);
      if b[8] == 0 then Some(Error(s, m, b[9..]))
      else if b[8] == 1 then Some(Ok(s, m, b[9..]))
      else if b[8] == 2 then (if |b| != 13 then None else Some(MultiBegin(s, m, Word(b, 9))))
      else if b[8] == 3 || b[8] == 4 then Some(MultiPart(s, m, b[9..], b[8] == 4))
      else None
  }

  lemma ResponseFields(session: nat, my: nat, kind: Byte, data: Bytes)
    requires session < 0x1_0000_0000 && my < 0x1_0000_0000
    ensures var b := ResponseBody(session, my, kind, data);
            Word(b, 0) == session && Word(b, 4) == my && b[8] == kind && b[9..] == data
  {
    hide LE32, UnLE32, Word;
    var b := ResponseBody(session, my, kind, data);
    WordAt([], session, LE32(my) + [kind] + data);
    assert b == [] + LE32(session) + (LE32(my) + [kind] + data);
    WordAt(LE32(session), my, [kind] + data);
    assert b == LE32(session) + LE32(my) + ([kind] + data);
  }

  /** The packages of a response; an error message is cut off after 32 K. */
  function ResponseBodies(session: nat, my: nat, ok: bool, msg: Bytes): (bs: seq<Bytes>)
    requires session < 0x1_0000_0000 && my < 0x1_0000_0000 && |msg| < 0x1_0000_0000
    ensures forall i :: 0 <= i < |bs| ==> |bs[i]| < 0x1_0000
  {
    if !ok then [ResponseBody(session, my, 0, if |msg| > MULTI_PART then msg[..MULTI_PART] else msg)]
    else if |msg| <= MULTI_PART then [ResponseBody(session, my, 1, msg)]
    else [ResponseBody(session, my, 2, LE32(|msg|))] + ResponseParts(session, my, Parts(msg))
  }

  function ResponseParts(session: nat, my: nat, ps: seq<Bytes>): (bs: seq<Bytes>)
    requires session < 0x1_0000_0000 && my < 0x1_0000_0000 && forall i :: 0 <= i < |ps| ==> |ps[i]| <= MULTI_PART
    ensures |bs| == |ps|
    ensures forall i :: 0 <= i < |ps| ==> bs[i] == ResponseBody(session, my, if i == |ps| - 1 then 4 else 3, ps[i])
    ensures forall i :: 0 <= i < |ps| ==> |bs[i]| < 0x1_0000
  {
    seq(|ps|, i requires 0 <= i < |ps| => ResponseBody(session, my, if i == |ps| - 1 then 4 else 3, ps[i]))
  }

  /** Every successful response of fewer than 2^31 bytes comes back, and no longer one; an error comes back up to its first 32 K. */
  lemma ResponseBack(session: nat, my: nat, ok: bool, msg: Bytes)
    requires session < 0x1_0000_0000 && my < 0x1_0000_0000 && |msg| < 0x1_0000_0000
    ensures var bs := ResponseBodies(session, my, ok, msg);
            if !ok then |bs| == 1 && UnpackResponse(bs[0]) == Some(Error(session, my, if |msg| > MULTI_PART then msg[..MULTI_PART] else msg))
            else if |msg| <= MULTI_PART then |bs| == 1 && UnpackResponse(bs[0]) == Some(Ok(session, my, msg))
            else
              && |bs| == (|msg| - 1) / MULTI_PART + 2
              && UnpackResponse(bs[0]) == Some(MultiBegin(session, my, |msg|))
              && (forall i :: 1 <= i < |bs| ==> UnpackResponse(bs[i]) == Some(MultiPart(session, my, Parts(msg)[i - 1], i == |bs| - 1)))
              && (Concat(|msg|, Parts(msg)) == Complete(msg) <==> |msg| < HIGH)
  {
    hide ResponseBody, Parts, Joined, LE32, UnLE32;
    if !ok {
      ResponseFields(session, my, 0, if |msg| > MULTI_PART then msg[..MULTI_PART] else msg);
    } else if |msg| <= MULTI_PART {
      ResponseFields(session, my, 1, msg);
    } else {
      PartsJoin(msg);
      JoinsBelow2G(msg);
      SizeBack(session, my, |msg|);
      var ps, bs := Parts(msg), ResponseBodies(session, my, ok, msg);
      forall i | 1 <= i < |bs| ensures UnpackResponse(bs[i]) == Some(MultiPart(session, my, ps[i - 1], i == |bs| - 1)) {
        ResponseFields(session, my, if i == |bs| - 1 then 4 else 3, ps[i - 1]);
      }
    }
  }

  lemma SizeBack(session: nat, my: nat, size: nat)
    requires session < 0x1_0000_0000 && my < 0x1_0000_0000 && size < 0x1_0000_0000
    ensures UnpackResponse(ResponseBody(session, my, 2, LE32(size))) == Some(MultiBegin(session, my, size))
  {
    hide LE32, UnLE32, Word;
    var b := ResponseBody(session, my, 2, LE32(size));
    ResponseFields(session, my, 2, LE32(size));
    WordAt(LE32(session) + LE32(my) + [2], size, []);
    assert b == LE32(session) + LE32(my) + [2] + LE32(size) + [];
  }

  /** `lpackresponse`. */
  method PackResponse(session: nat, my: nat, ok: bool, msg: Bytes) returns (fs: seq<Bytes>, next: nat)
    requires session < 0x1_0000_0000 && my < 0x1_0000_0000 && |msg| < 0x1_0000_0000
    ensures fs == Frames(ResponseBodies(session, my, ok, msg))
    ensures next <= RESPONSE_S_MAX
  {
    hide ResponseBody, Parts, Frame;
    next := (my + 1) % 0x1_0000_0000;
    if next > RESPONSE_S_MAX {
      next := 50;
    }
    var sz := |msg|;
    if !ok {
      if sz > MULTI_PART {
        sz := MULTI_PART;
      }
      assert msg[..|msg|] == msg;
      fs := [Frame(ResponseBody(session, my, 0, msg[..sz]))];
      return;
    }
    if sz <= MULTI_PART {
      fs := [Frame(ResponseBody(session, my, 1, msg))];
      return;
    }
    var parts := ResponseMulti(session, my, msg);
    fs := [Frame(ResponseBody(session, my, 2, LE32(sz)))] + parts;
  }

  method ResponseMulti(session: nat, my: nat, msg: Bytes) returns (fs: seq<Bytes>)
    requires session < 0x1_0000_0000 && my < 0x1_0000_0000 && MULTI_PART < |msg| < 0x1_0000_0000
    ensures fs == Frames(ResponseParts(session, my, Parts(msg)))
  {
    hide ResponseBody, Parts, Frame;
    PartsJoin(msg);
    var part := (|msg| - 1) / MULTI_PART + 1;
    fs := [];
    var sz, ptr, i := |msg|, 0, 0;
    ghost var ps := Parts(msg);
    while i < part
      invariant 0 <= i <= part == |ps| && |fs| == i
      invariant i < part ==> ptr == i * MULTI_PART && ptr + sz == |msg|
      invariant forall j :: 0 <= j < i ==> fs[j] == Frame(ResponseBody(session, my, if j == part - 1 then 4 else 3, ps[j]))
    {
      PartAt(msg, i);
      var s := if sz > MULTI_PART then MULTI_PART else sz;
      fs := fs + [Frame(ResponseBody(session, my, if sz > MULTI_PART then 3 else 4, msg[ptr..ptr + s]))];
      sz, ptr, i := sz - s, ptr + s, i + 1;
    }
  }
}
