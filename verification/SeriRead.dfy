/**
  Reading serialised values with a cursor, and packing and unpacking as a whole.
 */
module SeriRead {
  import opened Ints
  import opened Seri
  import opened SeriCode

  class ReadBlock {
    const buffer: Bytes
    var ptr: nat
    var len: int

    ghost predicate Valid()
      reads this
    {
      ptr <= |buffer| && len == |buffer| - ptr
    }

    ghost function Rest(): Bytes
      requires Valid()
      reads this
    {
      buffer[ptr..]
    }

    constructor (buffer: Bytes)
      ensures Valid() && Rest() == buffer
    {
      this.buffer := buffer;
      ptr, len := 0, |buffer|;
    }

    /** `rb_read`. */
    method Get(sz: nat) returns (r: Option<Bytes>)
      requires Valid()
      modifies this
      ensures Valid()
      ensures match Take(old(Rest()), sz)
              case None => r.None?
              case Some(t) => r == Some(t.value) && Rest() == t.rest
    {
      if len < sz {
        return None;
      }
      r := Some(buffer[ptr..ptr + sz]);
      assert old(Rest())[..sz] == buffer[ptr..ptr + sz];
      assert old(Rest())[sz..] == buffer[ptr + sz..];
      ptr, len := ptr + sz, len - sz;
    }
  }

  /** The outcome of a reading method agrees with what the remaining bytes mean. */
  ghost predicate Agrees<T>(r: Option<T>, rest: Bytes, meant: Option<Read<T>>) {
    match meant
    case None => r.None?
    case Some(t) => r == Some(t.value) && rest == t.rest
  }

  method GetInteger(rb: ReadBlock, cookie: nat) returns (r: Option<int>)
    requires rb.Valid()
    modifies rb
    ensures rb.Valid() && Agrees(r, rb.Rest(), DecodeInteger(cookie, old(rb.Rest())))
  {
    hide FromLE, Take;
    if cookie == 0 {
      return Some(0);
    }
    if cookie != 1 && cookie != 2 && cookie != 4 && cookie != 6 {
      return None;
    }
    var k := if cookie == 6 then 8 else cookie;
    var b := rb.Get(k);
    if b.None? {
      return None;
    }
    var n := FromLE(b.value);
    r := Some(if k == 4 then Signed(n, TWO32) else if k == 8 then Signed(n, TWO64) else n);
  }

  method GetBuffer(rb: ReadBlock, cookie: nat, long: bool) returns (r: Option<Value>)
    requires rb.Valid()
    modifies rb
    ensures rb.Valid() && Agrees(r, rb.Rest(), DecodeString(cookie, long, old(rb.Rest())))
  {
    hide FromLE, Take;
    var n := cookie;
    if long {
      if cookie != 2 && cookie != 4 {
        return None;
      }
      var l := rb.Get(cookie);
      if l.None? {
        return None;
      }
      n := FromLE(l.value);
    }
    // from 2^31 on the program's `int` is negative, and it fails to make a string of that size
    var b := rb.Get(n);
    r := if b.None? then None else Some(String(b.value));
  }

  method GetCount(rb: ReadBlock, cookie: nat) returns (r: Option<int>)
    requires rb.Valid()
    modifies rb
    ensures rb.Valid() && Agrees(r, rb.Rest(), DecodeCount(cookie, old(rb.Rest())))
  {
    hide DecodeInteger;
    if cookie != MAX_COOKIE - 1 {
      return Some(cookie);
    }
    var t := rb.Get(1);
    if t.None? {
      return None;
    }
    var tag := t.value[0];
    if tag % 8 != 2 || tag / 8 == 8 {
      return None;
    }
    var n := GetInteger(rb, tag / 8);
    if n.None? {
      return None;
    }
    r := Some(Signed(n.value % TWO32, TWO32));
  }

  /** `unpack_one` and `push_value`. */
  method UnpackOne(rb: ReadBlock) returns (r: Option<Value>)
    requires rb.Valid()
    modifies rb
    ensures rb.Valid() && Agrees(r, rb.Rest(), Decode(old(rb.Rest())))
    ensures r.Some? ==> |rb.Rest()| < |old(rb.Rest())|
    decreases |rb.Rest()|, 0
  {
    hide DecodeInteger, DecodeString, DecodeCount, DecodeArray, DecodePairs;
    var t := rb.Get(1);
    if t.None? {
      return None;
    }
    ghost var s := rb.Rest();
    var kind, cookie := t.value[0] % 8, t.value[0] / 8;
    assert s == old(rb.Rest())[1..] && t.value[0] == old(rb.Rest())[0];
    if kind == 0 {
      return Some(Nil);
    } else if kind == 1 {
      return Some(Boolean(cookie != 0));
    } else if kind == 2 && cookie != 8 {
      var n := GetInteger(rb, cookie);
      return if n.None? then None else Some(Integer(n.value));
    } else if kind == 2 {
      var b := rb.Get(8);
      return if b.None? then None else Some(Real(b.value));
    } else if kind == 3 {
      var b := rb.Get(8);
      return if b.None? then None else Some(Pointer(b.value));
    } else if kind == 4 || kind == 5 {
      r := GetBuffer(rb, cookie, kind == 5);
    } else if kind == 6 {
      r := UnpackTable(rb, cookie);
    } else {
      return None;
    }
  }

  /** The table that follows its tag. */
  ghost function DecodeTable(cookie: nat, s: Bytes): Option<Read<Value>> {
    var n := DecodeCount(cookie, s);
    if n.None? then None
    else
      var xs := DecodeArray(if n.value.value < 0 then 0 else n.value.value, n.value.rest);
      if xs.None? then None
      else
        var ps := DecodePairs(xs.value.rest);
        if ps.None? then None else Some(Read(Table(xs.value.value, ps.value.value), ps.value.rest))
  }

  method UnpackTable(rb: ReadBlock, cookie: nat) returns (r: Option<Value>)
    requires rb.Valid()
    modifies rb
    ensures rb.Valid() && Agrees(r, rb.Rest(), DecodeTable(cookie, old(rb.Rest())))
    decreases |rb.Rest()|, 3
  {
    hide DecodeCount, DecodeArray, DecodePairs;
    var n := GetCount(rb, cookie);
    if n.None? {
      return None;
    }
    var xs := UnpackArray(rb, if n.value < 0 then 0 else n.value);
    if xs.None? {
      return None;
    }
    var ps := UnpackPairs(rb);
    if ps.None? {
      return None;
    }
    r := Some(Table(xs.value, ps.value));
  }

  /** The items read so far, and what the rest of the loop will add. */
  ghost predicate ArrayGoesOn(n: nat, s: Bytes, xs: seq<Value>, rest: Bytes) {
    && |xs| <= n
    && DecodeArray(n, s) ==
       match DecodeArray(n - |xs|, rest)
       case None => None
       case Some(t) => Some(Read(xs + t.value, t.rest))
  }

  lemma ArrayStart(n: nat, s: Bytes)
    ensures ArrayGoesOn(n, s, [], s)
  {
    hide Decode;
    var d := DecodeArray(n, s);
    if d.Some? { assert [] + d.value.value == d.value.value; }
  }

  lemma ArrayStep(n: nat, s: Bytes, xs: seq<Value>, rest: Bytes)
    requires ArrayGoesOn(n, s, xs, rest) && |xs| < n
    ensures match Decode(rest)
            case None => DecodeArray(n, s).None?
            case Some(x) => ArrayGoesOn(n, s, xs + [x.value], x.rest)
  {
    hide Decode;
    var x := Decode(rest);
    if x.Some? {
      var d := DecodeArray(n - |xs| - 1, x.value.rest);
      if d.Some? { assert xs + ([x.value.value] + d.value.value) == xs + [x.value.value] + d.value.value; }
    }
  }

  lemma ArrayEnd(n: nat, s: Bytes, xs: seq<Value>, rest: Bytes)
    requires ArrayGoesOn(n, s, xs, rest) && |xs| == n
    ensures DecodeArray(n, s) == Some(Read(xs, rest))
  {
    assert xs + [] == xs;
  }

  method UnpackArray(rb: ReadBlock, n: nat) returns (r: Option<seq<Value>>)
    requires rb.Valid()
    modifies rb
    ensures rb.Valid() && Agrees(r, rb.Rest(), DecodeArray(n, old(rb.Rest())))
    ensures |rb.Rest()| <= |old(rb.Rest())| || r.None?
    decreases |rb.Rest()|, 2
  {
    hide Decode, DecodeArray, ArrayGoesOn;
    ghost var s := rb.Rest();
    var xs := [];
    ArrayStart(n, s);
    var i := 0;
    while i < n
      invariant i == |xs| <= n && rb.Valid() && |rb.Rest()| <= |s|
      invariant ArrayGoesOn(n, s, xs, rb.Rest())
    {
      ArrayStep(n, s, xs, rb.Rest());
      var x := UnpackOne(rb);
      if x.None? {
        return None;
      }
      xs := xs + [x.value];
      i := i + 1;
    }
    ArrayEnd(n, s, xs, rb.Rest());
    r := Some(xs);
  }

  ghost predicate PairsGoOn(s: Bytes, ps: seq<Pair>, rest: Bytes) {
    DecodePairs(s) ==
    match DecodePairs(rest)
    case None => None
    case Some(t) => Some(Read(ps + t.value, t.rest))
  }

  lemma PairsStart(s: Bytes)
    ensures PairsGoOn(s, [], s)
  {
    hide Decode;
    var d := DecodePairs(s);
    if d.Some? { assert [] + d.value.value == d.value.value; }
  }

  lemma PairsStep(s: Bytes, ps: seq<Pair>, rest: Bytes)
    requires PairsGoOn(s, ps, rest)
    ensures match Decode(rest)
            case None => DecodePairs(s).None?
            case Some(k) =>
              if k.value == Nil then DecodePairs(s) == Some(Read(ps, k.rest))
              else match Decode(k.rest)
                   case None => DecodePairs(s).None?
                   case Some(v) => if IsNaN(k.value) then DecodePairs(s).None? else PairsGoOn(s, ps + [Pair(k.value, v.value)], v.rest)
  {
    hide Decode;
    var k := Decode(rest);
    if k.Some? {
      if k.value.value == Nil {
        assert ps + [] == ps;
      } else {
        var v := Decode(k.value.rest);
        if v.Some? && !IsNaN(k.value.value) {
          var d := DecodePairs(v.value.rest);
          var p := Pair(k.value.value, v.value.value);
          if d.Some? { assert ps + ([p] + d.value.value) == ps + [p] + d.value.value; }
        }
      }
    }
  }

  method UnpackPairs(rb: ReadBlock) returns (r: Option<seq<Pair>>)
    requires rb.Valid()
    modifies rb
    ensures rb.Valid() && Agrees(r, rb.Rest(), DecodePairs(old(rb.Rest())))
    decreases |rb.Rest()|, 2
  {
    hide Decode, DecodePairs, PairsGoOn;
    ghost var s := rb.Rest();
    var ps := [];
    PairsStart(s);
    while true
      invariant rb.Valid() && |rb.Rest()| <= |s|
      invariant PairsGoOn(s, ps, rb.Rest())
      decreases |rb.Rest()|
    {
      PairsStep(s, ps, rb.Rest());
      var k := UnpackOne(rb);
      if k.None? {
        return None;
      }
      if k.value == Nil {
        return Some(ps);
      }
      var v := UnpackOne(rb);
      if v.None? {
        return None;
      }
      if IsNaN(k.value) {
        return None;
      }
      ps := ps + [Pair(k.value, v.value)];
    }
  }

  // ----- as a whole -----

  /** All values up to the end. */
  function DecodeAll(s: Bytes): Option<seq<Value>>
    decreases |s|
  {
    if s == [] then Some([])
    else
      var x := Decode(s);
      if x.None? then None
      else
        var xs := DecodeAll(x.value.rest);
        if xs.None? then None else Some([x.value.value] + xs.value)
  }

  /** The length of the id; of a buffer of one byte the program also reads the byte `beyond` it. */
  function HeadLength(s: Bytes, beyond: Byte): nat
    requires s != []
  {
    s[0] + 256 * if |s| > 1 then s[1] else beyond
  }

  /** What `luaseri_unpack` makes of a buffer; the lengths are `int`s, and nothing is read when one is not positive. */
  function Unpacked(s: Bytes, beyond: Byte): Option<seq<Value>> {
    if ToInt(|s|) == 0 then Some([])
    else
      var head := 2 + HeadLength(s, beyond);
      var len := ToInt(|s| - head);
      LengthInside(|s|, head);
      if len <= 0 then Some([]) else DecodeAll(s[head..head + len])
  }

  lemma LengthInside(n: nat, head: nat)
    requires head < 0x1_0002
    ensures ToInt(n - head) > 0 ==> head + ToInt(n - head) <= n
  {
    if n >= head { IntIsLess(n - head); }
  }

  lemma {:induction false} AllBack(vs: seq<Value>)
    requires forall i :: 0 <= i < |vs| ==> Proper(vs[i])
    ensures DecodeAll(EncodeAll(vs)) == Some(vs)
  {
    hide Encode, Decode, Proper;
    if vs != [] {
      ValueBack(vs[0], EncodeAll(vs[1..]));
      AllBack(vs[1..]);
      NonEmpty(vs[0]);
      assert vs == [vs[0]] + vs[1..];
    }
  }

  lemma NonEmpty(v: Value)
    ensures Encode(v) != []
  {
  }

  lemma NothingPacked(vs: seq<Value>)
    requires EncodeAll(vs) == []
    ensures vs == []
  {
    hide Encode;
    if vs != [] { NonEmpty(vs[0]); }
  }

  /** `luaseri_pack` and its form with an id: fails exactly when some value is nested too deep. */
  method Pack(id: Bytes, vs: seq<Value>) returns (r: Option<Packed>)
    ensures r.Some? <==> forall i :: 0 <= i < |vs| ==> Shallow(vs[i], 0)
    ensures r.Some? ==> r.value == Serialised(id, EncodeAll(vs))
  {
    hide Shallow, Encode, EncodeAll, Flat, Serialised;
    var wb := new WriteBlock();
    SeriCode.Nothing([], vs, []);
    var i := 0;
    while i < |vs|
      invariant 0 <= i <= |vs| && fresh(wb) && wb.Valid() && wb.Contents() == EncodeAll(vs[..i])
      invariant forall j :: 0 <= j < i ==> Shallow(vs[j], 0)
    {
      EncodeAllSnoc(vs, i);
      var ok := PackOne(wb, vs[i], 0);
      if !ok {
        return None;
      }
      i := i + 1;
    }
    assert vs[..i] == vs;
    var b := wb.Serialise(id);
    r := Some(b);
  }

  /** `luaseri_unpack`. */
  method Unpack(s: Bytes, beyond: Byte) returns (r: Option<seq<Value>>)
    ensures r == Unpacked(s, beyond)
  {
    hide Decode, DecodeAll, ToInt;
    var len := ToInt(|s|);
    if len == 0 {
      return Some([]);
    }
    var head := HeadLength(s, beyond);
    IntAdds(|s|, -(2 + head));
    len := ToInt(len - (2 + head));
    LengthInside(|s|, 2 + head);
    if len <= 0 {
      return Some([]);
    }
    r := UnpackAll(s[2 + head..2 + head + len]);
  }

  method UnpackAll(s: Bytes) returns (r: Option<seq<Value>>)
    ensures r == DecodeAll(s)
  {
    hide Decode, DecodeAll;
    var rb := new ReadBlock(s);
    var vs := [];
    AllStart(s);
    while rb.len > 0
      invariant fresh(rb) && rb.Valid() && AllGoesOn(s, vs, rb.Rest())
      decreases |rb.Rest()|
    {
      AllStep(s, vs, rb.Rest());
      var x := UnpackOne(rb);
      if x.None? {
        return None;
      }
      vs := vs + [x.value];
    }
    AllEnd(s, vs, rb.Rest());
    r := Some(vs);
  }

  ghost predicate AllGoesOn(s: Bytes, vs: seq<Value>, rest: Bytes) {
    DecodeAll(s) == match DecodeAll(rest) case None => None case Some(t) => Some(vs + t)
  }

  lemma AllStart(s: Bytes)
    ensures AllGoesOn(s, [], s)
  {
    hide Decode;
    var d := DecodeAll(s);
    if d.Some? { assert [] + d.value == d.value; }
  }

  lemma AllStep(s: Bytes, vs: seq<Value>, rest: Bytes)
    requires AllGoesOn(s, vs, rest) && rest != []
    ensures match Decode(rest)
            case None => DecodeAll(s).None?
            case Some(x) => AllGoesOn(s, vs + [x.value], x.rest)
  {
    hide Decode;
    var x := Decode(rest);
    if x.Some? {
      var d := DecodeAll(x.value.rest);
      if d.Some? { assert vs + ([x.value.value] + d.value) == vs + [x.value.value] + d.value; }
    }
  }

  lemma AllEnd(s: Bytes, vs: seq<Value>, rest: Bytes)
    requires AllGoesOn(s, vs, rest) && rest == []
    ensures DecodeAll(s) == Some(vs)
  {
    assert vs + [] == vs;
  }
}
