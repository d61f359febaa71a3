/**
  The serialiser as it runs: a writer that fills blocks of 128 bytes, and a reader with a cursor.
 */
module SeriCode {
  import opened Ints
  import opened Seri

  const BLOCK_SIZE: nat := 128

  function Flat(bs: seq<Bytes>): Bytes {
    if bs == [] then [] else Flat(bs[..|bs| - 1]) + bs[|bs| - 1]
  }

  /** The bytes before the first zero. */
  function CString(s: Bytes): (r: Bytes)
    ensures |r| <= |s| && r == s[..|r|] && (forall i :: 0 <= i < |r| ==> r[i] != 0) && (|r| < |s| ==> s[|r|] == 0)
  {
    if s == [] || s[0] == 0 then []
    else
      var r := CString(s[1..]);
      assert s[..1 + |r|] == [s[0]] + s[1..][..|r|];
      [s[0]] + r
  }

  /** How many bytes of the id are written: its length up to a zero byte, in 16 bits. */
  function IdLength(id: Bytes): (n: nat)
    ensures n < 0x1_0000 && n <= |CString(id)|
  {
    |CString(id)| % 0x1_0000
  }

  /** What stands before the values: the length of the id, and the id. */
  function Header(id: Bytes): (h: Bytes)
    ensures |h| == 2 + IdLength(id)
  {
    LE(IdLength(id), 2) + CString(id)[..IdLength(id)]
  }

  /** What packing comes to: a buffer, a demand for more memory than there is, or a header written past the end of its buffer. */
  datatype Packed = Buffer(bytes: Bytes) | NoBuffer(asked: nat) | Overrun

  /** `seri`, as a value: the number of bytes of the values and the size of the buffer are `int`s. */
  function Serialised(id: Bytes, contents: Bytes): Packed {
    var len := ToInt(|contents|);
    var sz := ToInt(len + 2 + IdLength(id));
    IntIsLess(|contents|);
    if sz < 0 then NoBuffer(sz + TWO64)
    else if len < 0 then Overrun
    else Buffer(Header(id) + contents[..len])
  }

  /** A value nested no deeper than the limit, when its own depth is `depth`. */
  predicate Shallow(v: Value, depth: int)
    decreases v
  {
    && depth <= MAX_DEPTH
    && (v.Table? ==>
          && (forall i :: 0 <= i < |v.array_| ==> Shallow(v.array_[i], depth + 1))
          && (forall i :: 0 <= i < |v.hash| ==> Shallow(v.hash[i].key, depth + 1) && Shallow(v.hash[i].value, depth + 1)))
  }

  lemma {:induction false} EncodePairsSnoc(ps: seq<Pair>, i: nat)
    requires i < |ps|
    ensures EncodePairs(ps[..i + 1]) == EncodePairs(ps[..i]) + Encode(ps[i].key) + Encode(ps[i].value)
  {
    hide Encode;
    if i == 0 {
      assert ps[..1][1..] == [];
    } else {
      EncodePairsSnoc(ps[1..], i - 1);
      assert ps[1..][..i] == ps[..i + 1][1..] && ps[1..][..i - 1] == ps[..i][1..];
    }
  }

  class WriteBlock {
    var full: seq<Bytes>       // the blocks before the current one
    var current: Bytes         // as far as it is filled
    var len: int               // an `int`: it wraps around

    ghost predicate Valid()
      reads this
    {
      && (forall i :: 0 <= i < |full| ==> |full[i]| == BLOCK_SIZE)
      && |current| <= BLOCK_SIZE && len == ToInt(|Contents()|)
    }

    ghost function Contents(): Bytes
      reads this
    {
      Flat(full) + current
    }

    constructor ()
      ensures Valid() && Contents() == []
    {
      full, current, len := [], [], 0;
    }

    /** `wb_push`: fill up the current block and go on in a new one as often as needed. */
    method Push(buf: Bytes)
      requires Valid()
      modifies this
      ensures Valid() && Contents() == old(Contents()) + buf
    {
      hide Flat;
      var buffer := buf;
      if |current| == BLOCK_SIZE {
        NewBlock();
      }
      while |current| + |buffer| > BLOCK_SIZE
        invariant Valid() && |current| < BLOCK_SIZE
        invariant Contents() + buffer == old(Contents()) + buf
        decreases |buffer|
      {
        ghost var before := Contents();
        var copy := BLOCK_SIZE - |current|;
        Fill(buffer[..copy]);
        Split(before, buffer, copy);
        buffer := buffer[copy..];
        NewBlock();
      }
      Fill(buffer);
    }

    /** Bytes that fit the current block. */
    method Fill(buf: Bytes)
      requires Valid() && |current| + |buf| <= BLOCK_SIZE
      modifies this`current, this`len
      ensures Valid() && Contents() == old(Contents()) + buf && |current| == |old(current)| + |buf|
    {
      hide Flat, ToInt;
      IntAdds(|Contents()|, |buf|);
      current := current + buf;
      len := ToInt(len + |buf|);
      assert Contents() == old(Contents()) + buf;
    }

    method NewBlock()
      requires (forall i :: 0 <= i < |full| ==> |full[i]| == BLOCK_SIZE) && |current| == BLOCK_SIZE && len == ToInt(|Contents()|)
      modifies this
      ensures Valid() && current == [] && Contents() == old(Contents()) && len == old(len)
    {
      assert (full + [current])[..|full|] == full;
      full, current := full + [current], [];
    }

    /** `seri`: the header, then block after block. */
    method Serialise(id: Bytes) returns (r: Packed)
      requires Valid()
      ensures r == Serialised(id, Contents())
    {
      hide LE, ToInt, Flat;
      var id_len := IdLength(id);
      var sz := ToInt(len + 2 + id_len);
      if sz < 0 {
        return NoBuffer(sz + TWO64);
      }
      var buffer := Header(id);
      if len < 0 {
        return Overrun;
      }
      IntIsLess(|Contents()|);
      var values := CopyBlocks();
      r := Buffer(buffer + values);
    }

    /** The loop over the blocks: as many bytes as `len` says. */
    method CopyBlocks() returns (out: Bytes)
      requires Valid() && 0 <= len <= |Contents()|
      ensures out == Contents()[..len]
    {
      hide ToInt;
      out := [];
      var left, i := len, 0;
      FlatLength(full);
      assert full[..0] == [];
      while left > 0
        invariant 0 <= i <= |full| && 0 <= left == len - i * BLOCK_SIZE
        invariant out == Flat(full[..i])
        decreases left
      {
        PrefixOf(full, i, current);
        if left >= BLOCK_SIZE {
          if i == |full| {
            assert full[..i] == full && left == BLOCK_SIZE == |current|;
            out := out + current;
            return;
          }
          out := out + full[i];
          assert full[..i + 1][..i] == full[..i];
          left, i := left - BLOCK_SIZE, i + 1;
        } else {
          var block := if i < |full| then full[i] else current;
          out := out + block[..left];
          return;
        }
      }
      PrefixOf(full, i, current);
    }
  }

  /** The first blocks, and the one behind them, at the front of the contents. */
  lemma {:induction false} PrefixOf(full: seq<Bytes>, i: nat, current: Bytes)
    requires i <= |full| && forall j :: 0 <= j < |full| ==> |full[j]| == BLOCK_SIZE
    ensures |Flat(full[..i])| == i * BLOCK_SIZE <= |Flat(full) + current|
    ensures (Flat(full) + current)[..i * BLOCK_SIZE] == Flat(full[..i])
    ensures i < |full| ==> (i + 1) * BLOCK_SIZE <= |Flat(full) + current| && (Flat(full) + current)[i * BLOCK_SIZE..(i + 1) * BLOCK_SIZE] == full[i]
    ensures i == |full| ==> (Flat(full) + current)[i * BLOCK_SIZE..] == current
    decreases |full|
  {
    var all := Flat(full) + current;
    if i == |full| {
      FlatLength(full);
      assert full[..i] == full;
    } else {
      var n := |full| - 1;
      var front, last := full[..n], full[n];
      FlatLength(full);
      FlatLength(front);
      PrefixOf(front, i, last);
      assert front[..i] == full[..i];
      assert Flat(full) == Flat(front) + last;
      assert all[..i * BLOCK_SIZE] == (Flat(front) + last)[..i * BLOCK_SIZE];
      if i < n {
        assert all[i * BLOCK_SIZE..(i + 1) * BLOCK_SIZE] == (Flat(front) + last)[i * BLOCK_SIZE..(i + 1) * BLOCK_SIZE];
      } else {
        assert all[i * BLOCK_SIZE..(i + 1) * BLOCK_SIZE] == (Flat(front) + last)[i * BLOCK_SIZE..];
      }
    }
  }

  lemma Split(a: Bytes, b: Bytes, n: nat)
    requires n <= |b|
    ensures a + b[..n] + b[n..] == a + b
  {
  }

  lemma {:induction false} FlatLength(bs: seq<Bytes>)
    requires forall i :: 0 <= i < |bs| ==> |bs[i]| == BLOCK_SIZE
    ensures |Flat(bs)| == |bs| * BLOCK_SIZE
  {
    if bs != [] { FlatLength(bs[..|bs| - 1]); }
  }

  // ----- packing -----

  method PushInteger(wb: WriteBlock, v: int)
    requires wb.Valid()
    modifies wb
    ensures wb.Valid() && wb.Contents() == old(wb.Contents()) + EncodeInteger(v)
  {
    hide LE, Flat;
    if v == 0 {
      wb.Push([Tag(2, 0)]);
    } else if v < -TWO32 / 2 || v >= TWO32 / 2 {
      Push2(wb, Tag(2, 6), LE(v % TWO64, 8));
    } else if v < 0 {
      Push2(wb, Tag(2, 4), LE(v % TWO32, 4));
    } else if v < 0x100 {
      Push2(wb, Tag(2, 1), LE(v, 1));
    } else if v < 0x1_0000 {
      Push2(wb, Tag(2, 2), LE(v, 2));
    } else {
      Push2(wb, Tag(2, 4), LE(v, 4));
    }
  }

  /** A tag byte and what belongs to it, in two pushes. */
  method Push2(wb: WriteBlock, tag: Byte, body: Bytes)
    requires wb.Valid()
    modifies wb
    ensures wb.Valid() && wb.Contents() == old(wb.Contents()) + ([tag] + body)
  {
    hide Flat;
    ghost var before := wb.Contents();
    wb.Push([tag]);
    wb.Push(body);
    Assoc(before, [tag], body);
  }

  method PushString(wb: WriteBlock, b: Bytes)
    requires wb.Valid()
    modifies wb
    ensures wb.Valid() && wb.Contents() == old(wb.Contents()) + EncodeString(b)
  {
    var len := ToInt(|b|);
    IntIsLess(|b|);
    if len < 0 {
      wb.Push([CutTag(4, len)]);
    } else {
      PushChars(wb, b[..len]);
    }
  }

  method PushChars(wb: WriteBlock, b: Bytes)
    requires wb.Valid() && |b| < HIGH
    modifies wb
    ensures wb.Valid() && wb.Contents() == old(wb.Contents()) + Chars(b)
  {
    hide LE, Flat;
    ghost var before := wb.Contents();
    if |b| < MAX_COOKIE {
      Push2(wb, Tag(4, |b|), b);
    } else {
      if |b| < 0x1_0000 {
        Push2(wb, Tag(5, 2), LE(|b|, 2));
      } else {
        Push2(wb, Tag(5, 4), LE(|b|, 4));
      }
      ghost var head := if |b| < 0x1_0000 then [Tag(5, 2)] + LE(|b|, 2) else [Tag(5, 4)] + LE(|b|, 4);
      wb.Push(b);
      Assoc(before, head, b);
    }
  }

  /** `pack_one`: fails exactly for a value nested too deep. */
  method PackOne(wb: WriteBlock, v: Value, depth: int) returns (ok: bool)
    requires wb.Valid()
    modifies wb
    ensures wb.Valid()
    ensures ok <==> Shallow(v, depth)
    ensures ok ==> wb.Contents() == old(wb.Contents()) + Encode(v)
    decreases v, 1
  {
    hide LE, Flat, EncodeInteger, EncodeString, EncodeAll, EncodePairs, ArrayHead;
    if depth > MAX_DEPTH {
      return false;
    }
    ok := true;
    match v {
      case Nil => wb.Push([Tag(0, 0)]);
      case Boolean(b) => wb.Push([Tag(1, if b then 1 else 0)]);
      case Integer(i) => PushInteger(wb, i);
      case Real(bits) => Push2(wb, Tag(2, 8), bits);
      case Pointer(bits) => Push2(wb, Tag(3, 0), bits);
      case String(b) => PushString(wb, b);
      case Table(xs, ps) => ok := PackTable(wb, v, depth + 1);
    }
  }

  method PackTable(wb: WriteBlock, v: Value, depth: int) returns (ok: bool)
    requires wb.Valid() && v.Table?
    modifies wb
    ensures wb.Valid()
    ensures ok <==>
      && (forall i :: 0 <= i < |v.array_| ==> Shallow(v.array_[i], depth))
      && (forall i :: 0 <= i < |v.hash| ==> Shallow(v.hash[i].key, depth) && Shallow(v.hash[i].value, depth))
    ensures ok ==> wb.Contents() == old(wb.Contents()) + Encode(v)
    decreases v, 0
  {
    hide LE, Flat, EncodeInteger, Encode, EncodeFirst, EncodeItems, EncodePairs, Shallow, ToInt, CutTag;
    ghost var before := wb.Contents();
    var n := ToInt(|v.array_|);
    if n >= MAX_COOKIE - 1 {
      wb.Push([Tag(6, MAX_COOKIE - 1)]);
      PushInteger(wb, n);
      Assoc(before, [Tag(6, MAX_COOKIE - 1)], EncodeInteger(n));
    } else {
      wb.Push([CutTag(6, n)]);
    }
    assert wb.Contents() == before + ArrayHead(n);
    ok := PackArray(wb, v, depth);
    if ok {
      ok := PackItems(wb, v, depth);
    }
    if ok {
      ok := PackHash(wb, v, depth);
    }
    if ok {
      wb.Push([Tag(0, 0)]);
      TableIs(v, before, v.array_, v.hash);
    }
  }

  /** The array part, as far as the program sees it. */
  method PackArray(wb: WriteBlock, v: Value, depth: int) returns (ok: bool)
    requires wb.Valid() && v.Table?
    modifies wb
    ensures wb.Valid()
    ensures ok <==> forall i :: 0 <= i < ArrayItems(|v.array_|) ==> Shallow(v.array_[i], depth)
    ensures ok ==> wb.Contents() == old(wb.Contents()) + EncodeFirst(v.array_, ArrayItems(|v.array_|))
    decreases v, 0, 0
  {
    hide LE, Flat, Encode, Shallow, ToInt;
    ghost var start := wb.Contents();
    var xs, m := v.array_, ArrayItems(|v.array_|);
    assert start + [] == start;
    var i := 0;
    while i < m
      invariant 0 <= i <= m && wb.Valid() && wb.Contents() == start + EncodeFirst(xs, i)
      invariant forall j :: 0 <= j < i ==> Shallow(xs[j], depth)
    {
      Assoc(start, EncodeFirst(xs, i), Encode(xs[i]));
      var one := PackOne(wb, xs[i], depth);
      if !one {
        return false;
      }
      i := i + 1;
    }
    ok := true;
  }

  /** Items that the program does not see as array items are pairs like others. */
  method PackItems(wb: WriteBlock, v: Value, depth: int) returns (ok: bool)
    requires wb.Valid() && v.Table?
    modifies wb
    ensures wb.Valid()
    ensures ok <==> forall i :: ArrayItems(|v.array_|) <= i < |v.array_| ==> Shallow(v.array_[i], depth)
    ensures ok ==> wb.Contents() == old(wb.Contents()) + EncodeItems(v.array_, ArrayItems(|v.array_|))
    decreases v, 0, 0
  {
    hide LE, Flat, Encode, EncodeInteger, ToInt;
    ghost var start := wb.Contents();
    var xs, m := v.array_, ArrayItems(|v.array_|);
    var i := m;
    assert start + EncodeItems(xs, m) == wb.Contents() + EncodeItems(xs, i);
    while i < |xs|
      invariant m <= i <= |xs| && wb.Valid() && wb.Contents() + EncodeItems(xs, i) == start + EncodeItems(xs, m)
      invariant forall j :: m <= j < i ==> Shallow(xs[j], depth)
    {
      if depth > MAX_DEPTH {
        return false;
      }
      Regroup3(wb.Contents(), EncodeInteger(i + 1), Encode(xs[i]), EncodeItems(xs, i + 1));
      PushInteger(wb, i + 1);
      var one := PackOne(wb, xs[i], depth);
      if !one {
        return false;
      }
      i := i + 1;
    }
    ok := true;
  }

  method PackHash(wb: WriteBlock, v: Value, depth: int) returns (ok: bool)
    requires wb.Valid() && v.Table?
    modifies wb
    ensures wb.Valid()
    ensures ok <==> forall i :: 0 <= i < |v.hash| ==> Shallow(v.hash[i].key, depth) && Shallow(v.hash[i].value, depth)
    ensures ok ==> wb.Contents() == old(wb.Contents()) + EncodePairs(v.hash)
    decreases v, 0, 0
  {
    hide LE, Flat, Encode, EncodePairs, Shallow, ToInt;
    ghost var middle := wb.Contents();
    var ps := v.hash;
    Nothing(middle, [], ps);
    var i := 0;
    while i < |ps|
      invariant 0 <= i <= |ps| && wb.Valid() && wb.Contents() == middle + EncodePairs(ps[..i])
      invariant forall j :: 0 <= j < i ==> Shallow(ps[j].key, depth) && Shallow(ps[j].value, depth)
    {
      EncodePairsSnoc(ps, i);
      Regroup3(middle, EncodePairs(ps[..i]), Encode(ps[i].key), Encode(ps[i].value));
      var p := ps[i];
      assert p.key < p && p.value < p && p < v;
      var one := PackOne(wb, p.key, depth);
      if !one {
        return false;
      }
      one := PackOne(wb, p.value, depth);
      if !one {
        return false;
      }
      i := i + 1;
    }
    assert ps[..i] == ps;
    ok := true;
  }

  lemma Nothing(a: Bytes, xs: seq<Value>, ps: seq<Pair>)
    ensures a + EncodeAll(xs[..0]) == a && a + EncodePairs(ps[..0]) == a
  {
  }

  lemma Regroup3(a: Bytes, b: Bytes, c: Bytes, d: Bytes)
    ensures a + b + c + d == a + (b + c + d)
  {
  }

  lemma TableIs(v: Value, a: Bytes, xs: seq<Value>, ps: seq<Pair>)
    requires v == Table(xs, ps)
    ensures a + ArrayHead(ToInt(|xs|)) + EncodeFirst(xs, ArrayItems(|xs|)) + EncodeItems(xs, ArrayItems(|xs|)) + EncodePairs(ps) + [Tag(0, 0)]
            == a + Encode(v)
  {
    hide EncodeFirst, EncodeItems, EncodePairs, ArrayHead, ToInt;
    Regroup5(a, ArrayHead(ToInt(|xs|)), EncodeFirst(xs, ArrayItems(|xs|)), EncodeItems(xs, ArrayItems(|xs|)), EncodePairs(ps), [Tag(0, 0)]);
  }

  lemma Regroup5(a: Bytes, b: Bytes, c: Bytes, d: Bytes, e: Bytes, f: Bytes)
    ensures a + b + c + d + e + f == a + (b + c + (d + e) + f)
  {
  }
}
