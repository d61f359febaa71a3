/**
  The serialised form of script values, and that reading it back gives the same values.
 */
module Seri {
  import opened Ints

  type Byte = x: nat | x < 256
  type Bytes = seq<Byte>

  datatype Option<+T> = None | Some(value: T)

  /**
    A table is its array part, of the length the program sees, and its other pairs in the order
    they are visited.  Real numbers and pointers are their eight bytes.
   */
  datatype Value =
    | Nil
    | Boolean(b: bool)
    | Integer(i: int)
    | Real(bits: Bytes)
    | Pointer(bits: Bytes)
    | String(s: Bytes)
    | Table(array_: seq<Value>, hash: seq<Pair>)

  datatype Pair = Pair(key: Value, value: Value)

  const MAX_COOKIE: nat := 32
  const MAX_DEPTH: int := 32

  /** Not a number: an exponent of ones and a fraction that is not zero. */
  predicate IsNaN(v: Value) {
    && v.Real? && |v.bits| == 8
    && v.bits[7] % 128 == 127 && v.bits[6] / 16 == 15
    && (v.bits[6] % 16 != 0 || exists i :: 0 <= i < 6 && v.bits[i] != 0)
  }

  /** What a table takes as a key. */
  predicate IsKey(v: Value) {
    v != Nil && !IsNaN(v)
  }

  /** A value of the script language: 64-bit integers, and keys that a table takes. */
  predicate Genuine(v: Value)
    decreases v
  {
    match v
    case Nil => true
    case Boolean(_) => true
    case Integer(i) => -TWO64 / 2 <= i < TWO64 / 2
    case Real(bits) => |bits| == 8
    case Pointer(bits) => |bits| == 8
    case String(_) => true
    case Table(xs, ps) =>
      && (forall i :: 0 <= i < |xs| ==> Genuine(xs[i]))
      && (forall i :: 0 <= i < |ps| ==> Genuine(ps[i].key) && Genuine(ps[i].value) && IsKey(ps[i].key))
  }

  /** All strings and arrays in the value have lengths that fit an `int`. */
  predicate Short(v: Value)
    decreases v
  {
    match v
    case String(s) => |s| < HIGH
    case Table(xs, ps) =>
      && |xs| < HIGH
      && (forall i :: 0 <= i < |xs| ==> Short(xs[i]))
      && (forall i :: 0 <= i < |ps| ==> Short(ps[i].key) && Short(ps[i].value))
    case _ => true
  }

  predicate Proper(v: Value) {
    Genuine(v) && Short(v)
  }

  // ----- bytes -----

  /** Little-endian, `k` bytes. */
  function LE(n: nat, k: nat): (s: Bytes)
    ensures |s| == k
  {
    if k == 0 then [] else [n % 256] + LE(n / 256, k - 1)
  }

  function FromLE(s: Bytes): nat {
    if s == [] then 0 else s[0] + 256 * FromLE(s[1..])
  }

  function Pow256(k: nat): (p: nat)
    ensures p > 0
  {
    if k == 0 then 1 else 256 * Pow256(k - 1)
  }

  lemma {:induction false} FromToLE(n: nat, k: nat)
    requires n < Pow256(k)
    ensures FromLE(LE(n, k)) == n
  {
    if k > 0 {
      FromToLE(n / 256, k - 1);
      assert LE(n, k)[1..] == LE(n / 256, k - 1);
    }
  }

  lemma Sizes()
    ensures Pow256(1) == 0x100 && Pow256(2) == 0x1_0000 && Pow256(4) == TWO32 && Pow256(8) == TWO64
  {
    assert Pow256(4) == 256 * 256 * Pow256(2);
    assert Pow256(8) == 256 * 256 * 256 * 256 * Pow256(4);
  }

  /** The signed number of two's complement bits. */
  function Signed(n: nat, modulus: int): int {
    if n < modulus / 2 then n else n - modulus
  }

  lemma SignedWraps(v: int, modulus: int)
    requires (modulus == TWO32 || modulus == TWO64) && -modulus / 2 <= v < modulus / 2
    ensures 0 <= v % modulus < modulus && Signed(v % modulus, modulus) == v
  {
    if v < 0 { assert v % modulus == v + modulus; }
  }

  // ----- writing -----

  function Tag(t: nat, cookie: nat): Byte
    requires t < 8 && cookie < 32
  {
    t + 8 * cookie
  }

  function EncodeInteger(v: int): Bytes {
    if v == 0 then [Tag(2, 0)]
    else if v < -TWO32 / 2 || v >= TWO32 / 2 then [Tag(2, 6)] + LE(v % TWO64, 8)
    else if v < 0 then [Tag(2, 4)] + LE(v % TWO32, 4)
    else if v < 0x100 then [Tag(2, 1)] + LE(v, 1)
    else if v < 0x1_0000 then [Tag(2, 2)] + LE(v, 2)
    else [Tag(2, 4)] + LE(v, 4)
  }

  /** A type and a count in one byte, which keeps the low bits of a negative count. */
  function CutTag(t: nat, n: int): Byte {
    (t + 8 * n) % 256
  }

  lemma CutTagIs(t: nat, n: int)
    requires t < 8 && 0 <= n < 32
    ensures CutTag(t, n) == Tag(t, n)
  {
  }

  function Chars(s: Bytes): Bytes
    requires |s| < HIGH
  {
    if |s| < MAX_COOKIE then [Tag(4, |s|)] + s
    else if |s| < 0x1_0000 then [Tag(5, 2)] + LE(|s|, 2) + s
    else [Tag(5, 4)] + LE(|s|, 4) + s
  }

  /** The length of a string is cut to an `int`; of a negative one only the tag is written. */
  function EncodeString(s: Bytes): Bytes {
    var n := ToInt(|s|);
    IntIsLess(|s|);
    if n < 0 then [CutTag(4, n)] else Chars(s[..n])
  }

  lemma ShortString(s: Bytes)
    requires |s| < HIGH
    ensures EncodeString(s) == Chars(s)
  {
    assert s[..|s|] == s;
  }

  /** The number of array items, an `int`. */
  function ArrayHead(n: int): Bytes {
    if n >= MAX_COOKIE - 1 then [Tag(6, MAX_COOKIE - 1)] + EncodeInteger(n) else [CutTag(6, n)]
  }

  /** How many items of an array the program sees as such: none when the length is negative as an `int`. */
  function ArrayItems(n: nat): (m: nat)
    ensures m <= n && (n < HIGH ==> m == n)
  {
    IntIsLess(n);
    if ToInt(n) < 0 then 0 else ToInt(n)
  }

  function Encode(v: Value): Bytes
    decreases v
  {
    match v
    case Nil => [Tag(0, 0)]
    case Boolean(b) => [Tag(1, if b then 1 else 0)]
    case Integer(i) => EncodeInteger(i)
    case Real(bits) => [Tag(2, 8)] + bits
    case Pointer(bits) => [Tag(3, 0)] + bits
    case String(s) => EncodeString(s)
    case Table(xs, ps) =>
      ArrayHead(ToInt(|xs|)) + EncodeFirst(xs, ArrayItems(|xs|)) + (EncodeItems(xs, ArrayItems(|xs|)) + EncodePairs(ps)) + [Tag(0, 0)]
  }

  /** The first `m` values. */
  function EncodeFirst(xs: seq<Value>, m: nat): Bytes
    requires m <= |xs|
    decreases xs, m
  {
    if m == 0 then [] else EncodeFirst(xs, m - 1) + Encode(xs[m - 1])
  }

  /** Array items from `m` on, written as pairs. */
  function EncodeItems(xs: seq<Value>, m: nat): Bytes
    requires m <= |xs|
    decreases xs, |xs| - m
  {
    if m == |xs| then [] else EncodeInteger(m + 1) + Encode(xs[m]) + EncodeItems(xs, m + 1)
  }

  function EncodeAll(xs: seq<Value>): Bytes
    decreases xs
  {
    if xs == [] then [] else Encode(xs[0]) + EncodeAll(xs[1..])
  }

  function EncodePairs(ps: seq<Pair>): Bytes
    decreases ps
  {
    if ps == [] then [] else EncodePair(ps[0]) + EncodePairs(ps[1..])
  }

  function EncodePair(p: Pair): Bytes
    decreases p
  {
    Encode(p.key) + Encode(p.value)
  }

  // ----- reading -----

  datatype Read<+T> = Read(value: T, rest: Bytes)

  function Take(s: Bytes, n: nat): (r: Option<Read<Bytes>>)
    ensures r.Some? ==> r.value.value + r.value.rest == s && |r.value.value| == n
    ensures r.Some? <==> n <= |s|
  {
    if |s| < n then None else Some(Read(s[..n], s[n..]))
  }

  /** `get_integer`. */
  function DecodeInteger(cookie: nat, s: Bytes): (r: Option<Read<int>>)
    ensures r.Some? ==> |r.value.rest| <= |s|
  {
    if cookie == 0 then Some(Read(0, s))
    else if cookie !in {1, 2, 4, 6} then None
    else
      var k := if cookie == 6 then 8 else cookie;
      var b := Take(s, k);
      if b.None? then None
      else
        var n := FromLE(b.value.value);
        Some(Read(if k == 4 then Signed(n, TWO32) else if k == 8 then Signed(n, TWO64) else n, b.value.rest))
  }

  function DecodeString(cookie: nat, long: bool, s: Bytes): (r: Option<Read<Value>>)
    ensures r.Some? ==> |r.value.rest| <= |s|
  {
    if !long then
      var b := Take(s, cookie);
      if b.None? then None else Some(Read(String(b.value.value), b.value.rest))
    else if cookie != 2 && cookie != 4 then None
    else
      var l := Take(s, cookie);
      if l.None? then None
      else
        var b := Take(l.value.rest, FromLE(l.value.value));
        if b.None? then None else Some(Read(String(b.value.value), b.value.rest))
  }

  /** How many array items follow, read as a C `int`. */
  function DecodeCount(cookie: nat, s: Bytes): (r: Option<Read<int>>)
    ensures r.Some? ==> |r.value.rest| <= |s|
  {
    if cookie != MAX_COOKIE - 1 then Some(Read(cookie, s))
    else if s == [] || s[0] % 8 != 2 || s[0] / 8 == 8 then None
    else
      var n := DecodeInteger(s[0] / 8, s[1..]);
      if n.None? then None else Some(Read(Signed(n.value.value % TWO32, TWO32), n.value.rest))
  }

  function Decode(s: Bytes): (r: Option<Read<Value>>)
    ensures r.Some? ==> |r.value.rest| < |s|
    decreases |s|, 0
  {
    if s == [] then None
    else
      var t, cookie, s1 := s[0] % 8, s[0] / 8, s[1..];
      match t
      case 0 => Some(Read(Nil, s1))
      case 1 => Some(Read(Boolean(cookie != 0), s1))
      case 2 =>
        if cookie == 8 then
          var b := Take(s1, 8);
          if b.None? then None else Some(Read(Real(b.value.value), b.value.rest))
        else
          var n := DecodeInteger(cookie, s1);
          if n.None? then None else Some(Read(Integer(n.value.value), n.value.rest))
      case 3 =>
        var b := Take(s1, 8);
        if b.None? then None else Some(Read(Pointer(b.value.value), b.value.rest))
      case 4 => DecodeString(cookie, false, s1)
      case 5 => DecodeString(cookie, true, s1)
      case 6 =>
        var n := DecodeCount(cookie, s1);
        if n.None? then None
        else
          var xs := DecodeArray(if n.value.value < 0 then 0 else n.value.value, n.value.rest);
          if xs.None? then None
          else
            var ps := DecodePairs(xs.value.rest);
            if ps.None? then None else Some(Read(Table(xs.value.value, ps.value.value), ps.value.rest))
      case _ => None
  }

  function DecodeArray(n: nat, s: Bytes): (r: Option<Read<seq<Value>>>)
    ensures r.Some? ==> |r.value.rest| <= |s|
    decreases |s|, 1
  {
    if n == 0 then Some(Read([], s))
    else
      var x := Decode(s);
      if x.None? then None
      else
        var xs := DecodeArray(n - 1, x.value.rest);
        if xs.None? then None else Some(Read([x.value.value] + xs.value.value, xs.value.rest))
  }

  function DecodePairs(s: Bytes): (r: Option<Read<seq<Pair>>>)
    ensures r.Some? ==> |r.value.rest| <= |s|
    decreases |s|, 1
  {
    var k := Decode(s);
    if k.None? then None
    else if k.value.value == Nil then Some(Read([], k.value.rest))
    else
      var v := Decode(k.value.rest);
      if v.None? || IsNaN(k.value.value) then None
      else
        var ps := DecodePairs(v.value.rest);
        if ps.None? then None
        else Some(Read([Pair(k.value.value, v.value.value)] + ps.value.value, ps.value.rest))
  }

  // ----- reading back what was written -----

  lemma TakeFront(b: Bytes, t: Bytes)
    ensures Take(b + t, |b|) == Some(Read(b, t))
  {
    assert (b + t)[..|b|] == b && (b + t)[|b|..] == t;
  }

  lemma IntegerBody(v: int, k: nat, n: nat, t: Bytes)
    requires k in {1, 2, 4, 8} && n < Pow256(k)
    requires v == if k == 4 then Signed(n, TWO32) else if k == 8 then Signed(n, TWO64) else n
    ensures DecodeInteger(if k == 8 then 6 else k, LE(n, k) + t) == Some(Read(v, t))
  {
    hide LE, FromLE, Pow256;
    FromToLE(n, k);
    TakeFront(LE(n, k), t);
  }

  function IntegerWidth(v: int): nat {
    if v < -TWO32 / 2 || v >= TWO32 / 2 then 8 else if v < 0 then 4 else if v < 0x100 then 1 else if v < 0x1_0000 then 2 else 4
  }

  function IntegerBits(v: int): nat {
    if IntegerWidth(v) == 8 then v % TWO64 else if v < 0 then v % TWO32 else v
  }

  lemma IntegerBack(v: int, t: Bytes)
    requires -TWO64 / 2 <= v < TWO64 / 2
    ensures var e := EncodeInteger(v);
            e != [] && e[0] % 8 == 2 && e[0] / 8 != 8 && DecodeInteger(e[0] / 8, e[1..] + t) == Some(Read(v, t))
  {
    hide LE, FromLE, Pow256, DecodeInteger;
    Sizes();
    if v == 0 {
      ZeroBack(t);
      assert EncodeInteger(v)[1..] + t == t;
    } else {
      var k, n := IntegerWidth(v), IntegerBits(v);
      if k == 8 { SignedWraps(v, TWO64); }
      if k == 4 { SignedWraps(v, TWO32); }
      IntegerBody(v, k, n, t);
      assert EncodeInteger(v) == [Tag(2, if k == 8 then 6 else k)] + LE(n, k);
    }
  }

  lemma ZeroBack(t: Bytes)
    ensures DecodeInteger(0, t) == Some(Read(0, t))
  {
  }

  lemma DecodeIsString(e: Bytes)
    requires e != [] && (e[0] % 8 == 4 || e[0] % 8 == 5)
    ensures Decode(e) == DecodeString(e[0] / 8, e[0] % 8 == 5, e[1..])
  {
    hide DecodeString, DecodeArray, DecodePairs, DecodeInteger, DecodeCount;
  }

  lemma StringBody(b: Bytes, t: Bytes)
    ensures |b| < MAX_COOKIE ==> DecodeString(|b|, false, b + t) == Some(Read(String(b), t))
    ensures |b| < 0x1_0000 ==> DecodeString(2, true, LE(|b|, 2) + (b + t)) == Some(Read(String(b), t))
    ensures |b| < TWO32 ==> DecodeString(4, true, LE(|b|, 4) + (b + t)) == Some(Read(String(b), t))
  {
    hide LE, FromLE, Pow256, Take;
    Sizes();
    TakeFront(b, t);
    if |b| < 0x1_0000 { FromToLE(|b|, 2); }
    if |b| < TWO32 { FromToLE(|b|, 4); }
    TakeFront(LE(|b|, 2), b + t);
    TakeFront(LE(|b|, 4), b + t);
  }

  lemma ShortBack(b: Bytes, t: Bytes)
    requires |b| < MAX_COOKIE
    ensures Decode([Tag(4, |b|)] + b + t) == Some(Read(String(b), t))
  {
    hide Decode, DecodeString;
    var e := [Tag(4, |b|)] + b + t;
    assert e[0] == Tag(4, |b|) && e[1..] == b + t;
    StringBody(b, t);
    DecodeIsString(e);
  }

  lemma LongBack(b: Bytes, t: Bytes, k: nat)
    requires k == 2 || k == 4
    requires |b| < if k == 2 then 0x1_0000 else TWO32
    ensures Decode([Tag(5, k)] + LE(|b|, k) + b + t) == Some(Read(String(b), t))
  {
    hide LE, Decode, DecodeString;
    Tagged(Tag(5, k), LE(|b|, k), b, t);
    StringBody(b, t);
    DecodeIsString([Tag(5, k)] + LE(|b|, k) + b + t);
  }

  lemma StringBack(b: Bytes, t: Bytes)
    requires |b| < HIGH
    ensures Decode(EncodeString(b) + t) == Some(Read(String(b), t))
  {
    ShortString(b);
    hide LE, Decode, Tag, EncodeString;
    if |b| < MAX_COOKIE {
      ShortBack(b, t);
    } else if |b| < 0x1_0000 {
      LongBack(b, t, 2);
    } else {
      LongBack(b, t, 4);
    }
  }

  lemma Tagged(x: Byte, a: Bytes, b: Bytes, t: Bytes)
    ensures var e := [x] + a + b + t; e[0] == x && e[1..] == a + (b + t)
  {
  }

  lemma CountBack(n: nat, t: Bytes)
    requires n < HIGH
    ensures var e := ArrayHead(n);
            e != [] && e[0] % 8 == 6 && DecodeCount(e[0] / 8, e[1..] + t) == Some(Read(n, t))
  {
    hide EncodeInteger, DecodeInteger;
    var e := ArrayHead(n);
    if n >= MAX_COOKIE - 1 {
      IntegerBack(n, t);
      var b := EncodeInteger(n);
      assert e[1..] + t == b + t;
      assert (b + t)[1..] == b[1..] + t && (b + t)[0] == b[0];
    } else {
      CutTagIs(6, n);
      assert e[1..] + t == t;
    }
  }

  lemma {:induction false} ValueBack(v: Value, t: Bytes)
    requires Proper(v)
    ensures Decode(Encode(v) + t) == Some(Read(v, t))
    decreases v
  {
    hide EncodeInteger, DecodeInteger, EncodeString, Take;
    var e := Encode(v);
    match v {
      case Nil => assert (e + t)[1..] == t;
      case Boolean(_) => assert (e + t)[1..] == t;
      case Integer(i) =>
        IntegerBack(i, t);
        assert (e + t)[1..] == e[1..] + t;
      case Real(bits) =>
        assert (e + t)[1..] == bits + t;
        TakeFront(bits, t);
      case Pointer(bits) =>
        assert (e + t)[1..] == bits + t;
        TakeFront(bits, t);
      case String(b) => StringBack(b, t);
      case Table(xs, ps) =>
        ArrayBack(xs, EncodePairs(ps) + [Tag(0, 0)] + t);
        PairsBack(ps, t);
        TableBack(xs, ps, t);
    }
  }

  lemma DecodeIsTable(e: Bytes, n: nat, s1: Bytes, xs: seq<Value>, s2: Bytes, ps: seq<Pair>, s3: Bytes)
    requires e != [] && e[0] % 8 == 6 && DecodeCount(e[0] / 8, e[1..]) == Some(Read(n, s1))
    requires DecodeArray(n, s1) == Some(Read(xs, s2)) && DecodePairs(s2) == Some(Read(ps, s3))
    ensures Decode(e) == Some(Read(Table(xs, ps), s3))
  {
    hide DecodeArray, DecodePairs, DecodeCount, DecodeInteger, DecodeString;
  }

  lemma Regroup(head: Bytes, a: Bytes, b: Bytes, t: Bytes)
    requires head != []
    ensures var e := head + a + b + t; e[0] == head[0] && e[1..] == head[1..] + (a + (b + t))
  {
  }

  lemma TableBack(xs: seq<Value>, ps: seq<Pair>, t: Bytes)
    requires |xs| < HIGH
    requires DecodeArray(|xs|, EncodeAll(xs) + (EncodePairs(ps) + [Tag(0, 0)] + t)) == Some(Read(xs, EncodePairs(ps) + [Tag(0, 0)] + t))
    requires DecodePairs(EncodePairs(ps) + [Tag(0, 0)] + t) == Some(Read(ps, t))
    ensures Decode(Encode(Table(xs, ps)) + t) == Some(Read(Table(xs, ps), t))
  {
    hide EncodeAll, EncodePairs, DecodeArray, DecodePairs, DecodeCount, ArrayHead, Decode, Encode, EncodeFirst;
    ShortTable(xs, ps);
    var tail := EncodePairs(ps) + [Tag(0, 0)] + t;
    var head, body := ArrayHead(|xs|), EncodeAll(xs) + tail;
    CountBack(|xs|, body);
    var e := Encode(Table(xs, ps)) + t;
    Regroup(head, EncodeAll(xs), EncodePairs(ps) + [Tag(0, 0)], t);
    assert Encode(Table(xs, ps)) == head + EncodeAll(xs) + (EncodePairs(ps) + [Tag(0, 0)]);
    DecodeIsTable(e, |xs|, body, xs, tail, ps, t);
  }

  /** A table whose array fits: its items, then its pairs. */
  lemma ShortTable(xs: seq<Value>, ps: seq<Pair>)
    requires |xs| < HIGH
    ensures Encode(Table(xs, ps)) == ArrayHead(|xs|) + EncodeAll(xs) + EncodePairs(ps) + [Tag(0, 0)]
  {
    hide EncodeFirst, EncodeAll, EncodePairs, ArrayHead;
    FirstIsAll(xs, |xs|);
    assert xs[..|xs|] == xs;
    NoItems(xs);
    assert [] + EncodePairs(ps) == EncodePairs(ps);
  }

  lemma NoItems(xs: seq<Value>)
    ensures EncodeItems(xs, |xs|) == []
  {
  }

  lemma {:induction false} FirstIsAll(xs: seq<Value>, m: nat)
    requires m <= |xs|
    ensures EncodeFirst(xs, m) == EncodeAll(xs[..m])
    decreases m
  {
    hide Encode;
    if m > 0 {
      FirstIsAll(xs, m - 1);
      EncodeAllSnoc(xs, m - 1);
    }
  }

  lemma {:induction false} EncodeAllSnoc(xs: seq<Value>, i: nat)
    requires i < |xs|
    ensures EncodeAll(xs[..i + 1]) == EncodeAll(xs[..i]) + Encode(xs[i])
  {
    hide Encode;
    if i == 0 {
      assert xs[..1][1..] == [];
    } else {
      EncodeAllSnoc(xs[1..], i - 1);
      assert xs[1..][..i] == xs[..i + 1][1..] && xs[1..][..i - 1] == xs[..i][1..];
    }
  }

  lemma {:induction false} ArrayBack(xs: seq<Value>, t: Bytes)
    requires forall i :: 0 <= i < |xs| ==> Proper(xs[i])
    ensures DecodeArray(|xs|, EncodeAll(xs) + t) == Some(Read(xs, t))
    decreases xs
  {
    hide Encode, Decode, Proper;
    if xs == [] {
      assert EncodeAll(xs) + t == t;
    } else {
      var rest := EncodeAll(xs[1..]) + t;
      ValueBack(xs[0], rest);
      ArrayBack(xs[1..], t);
      Assoc(Encode(xs[0]), EncodeAll(xs[1..]), t);
      assert xs == [xs[0]] + xs[1..];
    }
  }

  lemma Assoc(a: Bytes, b: Bytes, c: Bytes)
    ensures a + b + c == a + (b + c)
  {
  }

  lemma {:induction false} PairsBack(ps: seq<Pair>, t: Bytes)
    requires forall i :: 0 <= i < |ps| ==> Proper(ps[i].key) && Proper(ps[i].value) && IsKey(ps[i].key)
    ensures DecodePairs(EncodePairs(ps) + [Tag(0, 0)] + t) == Some(Read(ps, t))
    decreases ps
  {
    hide Encode, Decode, Proper;
    if ps == [] {
      NilBack(t);
      assert EncodePairs(ps) + [Tag(0, 0)] + t == [Tag(0, 0)] + t;
    } else {
      var p := ps[0];
      var rest := EncodePairs(ps[1..]) + [Tag(0, 0)] + t;
      PairBack(p, rest);
      PairsBack(ps[1..], t);
      assert EncodePairs(ps) + [Tag(0, 0)] + t == Encode(p.key) + (Encode(p.value) + rest);
      assert ps == [p] + ps[1..];
    }
  }

  lemma NilBack(t: Bytes)
    ensures Decode([Tag(0, 0)] + t) == Some(Read(Nil, t))
  {
    assert ([Tag(0, 0)] + t)[1..] == t;
  }

  lemma {:induction false} PairBack(p: Pair, t: Bytes)
    requires Proper(p.key) && Proper(p.value)
    ensures Decode(Encode(p.key) + (Encode(p.value) + t)) == Some(Read(p.key, Encode(p.value) + t))
    ensures Decode(Encode(p.value) + t) == Some(Read(p.value, t))
    decreases p
  {
    ValueBack(p.key, Encode(p.value) + t);
    ValueBack(p.value, t);
  }
}
