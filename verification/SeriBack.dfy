/**
  When packed values come back: the program keeps all lengths in an `int`.
 */
module SeriBack {
  import opened Ints
  import opened Seri
  import opened SeriCode
  import opened SeriRead

  // ----- bytes behind what is read do not matter -----

  lemma TakeMore(s: Bytes, n: nat, u: Bytes)
    requires n <= |s|
    ensures Take(s + u, n) == Some(Read(Take(s, n).value.value, Take(s, n).value.rest + u))
  {
    assert (s + u)[..n] == s[..n] && (s + u)[n..] == s[n..] + u;
  }

  /** `r` is an answer, and with `u` behind the bytes it is the answer `q`. */
  ghost predicate Longer<T>(r: Option<Read<T>>, u: Bytes, q: Option<Read<T>>) {
    r.Some? ==> q == Some(Read(r.value.value, r.value.rest + u))
  }

  lemma IntegerMore(cookie: nat, s: Bytes, u: Bytes)
    ensures Longer(DecodeInteger(cookie, s), u, DecodeInteger(cookie, s + u))
  {
    hide FromLE, Take;
    var k := if cookie == 6 then 8 else cookie;
    if k <= |s| { TakeMore(s, k, u); }
  }

  lemma StringMore(cookie: nat, long: bool, s: Bytes, u: Bytes)
    ensures Longer(DecodeString(cookie, long, s), u, DecodeString(cookie, long, s + u))
  {
    hide FromLE, Take;
    if cookie <= |s| {
      TakeMore(s, cookie, u);
      if long && (cookie == 2 || cookie == 4) {
        var l := Take(s, cookie).value;
        var n := FromLE(l.value);
        if n <= |l.rest| { TakeMore(l.rest, n, u); }
      }
    }
  }

  lemma CountMore(cookie: nat, s: Bytes, u: Bytes)
    ensures Longer(DecodeCount(cookie, s), u, DecodeCount(cookie, s + u))
  {
    hide DecodeInteger;
    if s != [] {
      assert (s + u)[0] == s[0] && (s + u)[1..] == s[1..] + u;
      IntegerMore(s[0] / 8, s[1..], u);
    }
  }

  lemma {:induction false} DecodeMore(s: Bytes, u: Bytes)
    ensures Longer(Decode(s), u, Decode(s + u))
    decreases |s|, 0
  {
    hide DecodeInteger, DecodeString, DecodeCount, DecodeArray, DecodePairs, Take;
    if s != [] {
      var s1 := s[1..];
      assert (s + u)[0] == s[0] && (s + u)[1..] == s1 + u;
      match s[0] % 8
      case 2 =>
        IntegerMore(s[0] / 8, s1, u);
        if 8 <= |s1| { TakeMore(s1, 8, u); }
      case 3 => if 8 <= |s1| { TakeMore(s1, 8, u); }
      case 4 => StringMore(s[0] / 8, false, s1, u);
      case 5 => StringMore(s[0] / 8, true, s1, u);
      case 6 =>
        CountMore(s[0] / 8, s1, u);
        var n := DecodeCount(s[0] / 8, s1);
        if n.Some? {
          var m := if n.value.value < 0 then 0 else n.value.value;
          ArrayMore(m, n.value.rest, u);
          var xs := DecodeArray(m, n.value.rest);
          if xs.Some? { PairsMore(xs.value.rest, u); }
        }
      case _ =>
    }
  }

  lemma {:induction false} ArrayMore(n: nat, s: Bytes, u: Bytes)
    ensures Longer(DecodeArray(n, s), u, DecodeArray(n, s + u))
    decreases |s|, 1
  {
    hide Decode;
    if n > 0 {
      DecodeMore(s, u);
      var x := Decode(s);
      if x.Some? { ArrayMore(n - 1, x.value.rest, u); }
    }
  }

  lemma {:induction false} PairsMore(s: Bytes, u: Bytes)
    ensures Longer(DecodePairs(s), u, DecodePairs(s + u))
    decreases |s|, 1
  {
    hide Decode;
    DecodeMore(s, u);
    var k := Decode(s);
    if k.Some? && k.value.value != Nil {
      DecodeMore(k.value.rest, u);
      var v := Decode(k.value.rest);
      if v.Some? { PairsMore(v.value.rest, u); }
    }
  }

  // ----- what is read is not longer than the bytes -----

  lemma {:induction false} DecodeShort(s: Bytes)
    requires |s| < HIGH
    ensures Decode(s).Some? ==> Short(Decode(s).value.value)
    decreases |s|, 0
  {
    hide DecodeInteger, DecodeCount, DecodeArray, DecodePairs, FromLE;
    if s != [] && s[0] % 8 == 6 {
      var n := DecodeCount(s[0] / 8, s[1..]);
      if n.Some? {
        var m := if n.value.value < 0 then 0 else n.value.value;
        ArrayShort(m, n.value.rest);
        var xs := DecodeArray(m, n.value.rest);
        if xs.Some? { PairsShort(xs.value.rest); }
      }
    }
  }

  lemma {:induction false} ArrayShort(n: nat, s: Bytes)
    requires |s| < HIGH
    ensures var r := DecodeArray(n, s); r.Some? ==> |r.value.value| + |r.value.rest| <= |s| && forall i :: 0 <= i < |r.value.value| ==> Short(r.value.value[i])
    decreases |s|, 1
  {
    hide Decode, Short;
    if n > 0 {
      DecodeShort(s);
      var x := Decode(s);
      if x.Some? { ArrayShort(n - 1, x.value.rest); }
    }
  }

  lemma {:induction false} PairsShort(s: Bytes)
    requires |s| < HIGH
    ensures var r := DecodePairs(s); r.Some? ==> forall i :: 0 <= i < |r.value.value| ==> Short(r.value.value[i].key) && Short(r.value.value[i].value)
    decreases |s|, 1
  {
    hide Decode, Short;
    DecodeShort(s);
    var k := Decode(s);
    if k.Some? && k.value.value != Nil {
      DecodeShort(k.value.rest);
      var v := Decode(k.value.rest);
      if v.Some? { PairsShort(v.value.rest); }
    }
  }

  lemma {:induction false} AllShort(s: Bytes)
    requires |s| < HIGH
    ensures var r := DecodeAll(s); r.Some? ==> forall i :: 0 <= i < |r.value| ==> Short(r.value[i])
    decreases |s|
  {
    hide Decode, Short;
    if s != [] {
      DecodeShort(s);
      var x := Decode(s);
      if x.Some? { AllShort(x.value.rest); }
    }
  }

  // ----- a part of the bytes is not enough -----

  lemma {:induction false} CutShort(vs: seq<Value>, p: Bytes, u: Bytes)
    requires (forall i :: 0 <= i < |vs| ==> Proper(vs[i])) && p + u == EncodeAll(vs) && u != []
    ensures DecodeAll(p) != Some(vs)
    decreases |vs|
  {
    hide Encode, Decode, Proper;
    if vs != [] && p != [] {
      var rest := EncodeAll(vs[1..]);
      ValueBack(vs[0], rest);
      DecodeMore(p, u);
      var x := Decode(p);
      if x.Some? {
        CutShort(vs[1..], x.value.rest, u);
      }
    }
  }

  // ----- the round trip -----

  /** Packing gives a buffer, and unpacking it gives the values back. */
  predicate ComesBack(id: Bytes, vs: seq<Value>, beyond: Byte) {
    var p := Serialised(id, EncodeAll(vs));
    p.Buffer? && Unpacked(p.bytes, beyond) == Some(vs)
  }

  lemma HeaderLength(id: Bytes, contents: Bytes, beyond: Byte)
    ensures HeadLength(Header(id) + contents, beyond) == IdLength(id)
  {
    hide IdLength;
    var n := IdLength(id);
    assert LE(n, 2) == [n % 256, n / 256 % 256] by {
      assert LE(n / 256, 1) == [n / 256 % 256] + LE(n / 256 / 256, 0);
    }
    var s := Header(id) + contents;
    assert s[0] == n % 256 && s[1] == n / 256;
  }

  /** What unpacking makes of a header and some bytes, all of a length that fits. */
  lemma UnpackedIs(id: Bytes, contents: Bytes, beyond: Byte)
    requires |Header(id) + contents| < HIGH
    ensures Unpacked(Header(id) + contents, beyond) == if contents == [] then Some([]) else DecodeAll(contents)
  {
    hide DecodeAll, Header, HeadLength;
    HeaderLength(id, contents, beyond);
    var s := Header(id) + contents;
    var head := |Header(id)|;
    assert s[head..head + |contents|] == contents;
  }

  /** The size of the buffer fits exactly below 2^31. */
  lemma BufferFits(id: Bytes, contents: Bytes)
    ensures var p := Serialised(id, contents);
            && (p.Buffer? ==> |p.bytes| < HIGH)
            && (|Header(id)| + |contents| < HIGH ==> p == Buffer(Header(id) + contents))
            && (p == Buffer(Header(id) + contents) ==> |Header(id)| + |contents| < HIGH)
  {
    hide Header, ToInt;
    var len := ToInt(|contents|);
    IntIsLess(|contents|);
    if len >= 0 { FitsInt(len + 2 + IdLength(id)); }
    if |Header(id)| + |contents| < HIGH { assert contents[..|contents|] == contents; }
  }

  /**
    Values of the script language come back, whatever the id, if and only if all strings and arrays
    in them have fewer than 2^31 items and header and values together fewer than 2^31 bytes.
   */
  lemma PackUnpack(id: Bytes, vs: seq<Value>, beyond: Byte)
    requires forall i :: 0 <= i < |vs| ==> Genuine(vs[i])
    ensures ComesBack(id, vs, beyond) <==>
            (forall i :: 0 <= i < |vs| ==> Short(vs[i])) && |Header(id)| + |EncodeAll(vs)| < HIGH
  {
    hide EncodeAll, DecodeAll, Header, Genuine, Short, Serialised, Unpacked;
    var contents := EncodeAll(vs);
    BufferFits(id, contents);
    if (forall i :: 0 <= i < |vs| ==> Short(vs[i])) && |Header(id)| + |contents| < HIGH {
      AllBack(vs);
      UnpackedIs(id, contents, beyond);
      if contents == [] { NothingPacked(vs); }
    }
    if ComesBack(id, vs, beyond) { OnlyShort(id, vs, beyond); }
  }

  lemma OnlyShort(id: Bytes, vs: seq<Value>, beyond: Byte)
    requires (forall i :: 0 <= i < |vs| ==> Genuine(vs[i])) && ComesBack(id, vs, beyond)
    ensures (forall i :: 0 <= i < |vs| ==> Short(vs[i])) && |Header(id)| + |EncodeAll(vs)| < HIGH
  {
    hide EncodeAll, DecodeAll, Header, Genuine, Short, Unpacked, ToInt;
    var contents := EncodeAll(vs);
    var len := ToInt(|contents|);
    IntIsLess(|contents|);
    BufferFits(id, contents);
    var part := contents[..len];
    UnpackedIs(id, part, beyond);
    EmptyIsNone();
    assert DecodeAll(part) == Some(vs);
    AllShort(part);
    if len < |contents| {
      assert part + contents[len..] == contents;
      CutShort(vs, part, contents[len..]);
    }
  }

  lemma EmptyIsNone()
    ensures DecodeAll([]) == Some([])
  {
  }

  // ----- sizes at which it fails -----

  /** A string of 2^31 bytes comes back empty. */
  lemma StringLost(s: Bytes, t: Bytes)
    requires |s| == HIGH
    ensures Decode(Encode(String(s)) + t) == Some(Read(String([]), t))
  {
    hide Decode;
    FitsInt(|s|);
    assert EncodeString(s) == [Tag(4, 0)];
    ShortBack([], t);
    assert [Tag(4, 0)] + [] + t == [Tag(4, 0)] + t;
  }

  /** Two strings of 2^30 bytes each: there is no buffer for both, whatever the id. */
  lemma TwoGAreLost(id: Bytes, s: Bytes)
    requires |s| == HIGH / 2
    ensures var vs := [String(s), String(s)];
            && (forall i :: 0 <= i < |vs| ==> Proper(vs[i]) && Shallow(vs[i], 0))
            && Serialised(id, EncodeAll(vs)).NoBuffer? && Serialised(id, EncodeAll(vs)).asked > 0xffff_ffff_0000_0000
  {
    hide LE;
    ShortString(s);
    var vs := [String(s), String(s)];
    assert EncodeAll(vs[1..]) == Encode(vs[1]) + EncodeAll(vs[1..][1..]);
    assert |Encode(vs[0])| == 5 + HIGH / 2;
    FitsInt(|EncodeAll(vs)|);
  }
}
