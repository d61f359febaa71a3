/**
  Numbers below 256 as bytes.
 */
module Octets {

  function Octet(x: int): bv8
    requires 0 <= x < 256
  {
    x as bv8
  }

  lemma Back(v: bv8)
    ensures Octet(v as int) == v
  {
  }

  lemma Next(v: bv8)
    requires v != 255
    ensures (v + 1) as int == v as int + 1
  {
  }

  /** The byte of a number. */
  lemma {:induction false} Find(x: int) returns (v: bv8)
    requires 0 <= x < 256
    ensures v as int == x
  {
    if x == 0 {
      v := 0;
    } else {
      v := Find(x - 1);
      Next(v);
      v := v + 1;
    }
  }

  lemma ByteBack(x: int)
    requires 0 <= x < 256
    ensures Octet(x) as int == x
  {
    hide Octet;
    var v := Find(x);
    Back(v);
  }

  lemma ByteNat(x: int, y: int)
    requires 0 <= x < 256 && 0 <= y < 256 && Octet(x) == Octet(y)
    ensures x == y
  {
    hide Octet;
    ByteBack(x);
    ByteBack(y);
  }
}

/**
  SHA-1 over any division of the message into updates, and HMAC on top of it.  The compression
  function of one block is a parameter.
 */
module Sha1 {
  import BignumQuorem
  import opened Octets

  type Byte = bv8
  type Bytes = seq<Byte>
  type Chain = s: seq<bv32> | |s| == 5 witness [0, 0, 0, 0, 0]

  const TWO32: nat := 0x1_0000_0000
  const TWO64: nat := 0x1_0000_0000_0000_0000

  type Compress = (Chain, Bytes) -> Chain

  const INIT: Chain := [0x67452301, 0xEFCDAB89, 0x98BADCFE, 0x10325476, 0xC3D2E1F0]

  // ----- what is to be computed -----

  /** The chaining value after all blocks of a message of whole blocks. */
  function Fold(f: Compress, m: Bytes): Chain
    requires |m| % 64 == 0
  {
    if m == [] then INIT else f(Fold(f, m[..|m| - 64]), m[|m| - 64..])
  }

  lemma FoldNext(f: Compress, m: Bytes, block: Bytes)
    requires |m| % 64 == 0 && |block| == 64
    ensures Fold(f, m + block) == f(Fold(f, m), block)
  {
    assert (m + block)[..|m|] == m && (m + block)[|m|..] == block;
  }

  /** Big-endian, four bytes. */
  function BE(n: nat): (s: Bytes)
    requires n < TWO32
    ensures |s| == 4
  {
    [Octet(n / 0x100_0000), Octet(n / 0x1_0000 % 256), Octet(n / 0x100 % 256), Octet(n % 256)]
  }

  /** The length field: the number of bits, in 64 bits, high word first. */
  function LengthField(bytes: nat): (s: Bytes)
    ensures |s| == 8
  {
    BE(bytes * 8 % TWO64 / TWO32) + BE(bytes * 8 % TWO64 % TWO32)
  }

  /** How many zero bytes follow the byte 0x80, so that the length field ends a block. */
  function ZeroCount(bytes: nat): (z: nat)
    ensures z < 64 && (bytes + 1 + z) % 64 == 56
  {
    (119 - bytes % 64) % 64
  }

  function Zeros(n: nat): (s: Bytes)
    ensures |s| == n && forall i :: 0 <= i < n ==> s[i] == 0
  {
    seq(n, _ => 0)
  }

  /** Section 4 of RFC 3174. */
  function Padded(m: Bytes): (p: Bytes)
    ensures |p| % 64 == 0
  {
    var p := m + ([0x80] + Zeros(ZeroCount(|m|)) + LengthField(|m|));
    PadLength(|m|, ZeroCount(|m|), |p|);
    p
  }

  lemma PadLength(bytes: nat, z: nat, n: nat)
    requires (bytes + 1 + z) % 64 == 56 && n == bytes + (1 + z + 8)
    ensures n % 64 == 0
  {
  }

  /** What is hashed in the end if the two words that count bits have these values. */
  function PaddedWith(m: Bytes, lo: nat, hi: nat): (p: Bytes)
    requires lo < TWO32 && hi < TWO32
    ensures |p| % 64 == 0
  {
    var p := m + ([0x80] + Zeros(ZeroCount(|m|)) + (BE(hi) + BE(lo)));
    PadLength(|m|, ZeroCount(|m|), |p|);
    p
  }

  lemma BigEndian(a: nat, b: nat)
    requires a < TWO32 && b < TWO32 && BE(a) == BE(b)
    ensures a == b
  {
    hide Octet;
    assert BE(a)[0] == BE(b)[0] && BE(a)[1] == BE(b)[1] && BE(a)[2] == BE(b)[2] && BE(a)[3] == BE(b)[3];
    ByteNat(a / 0x100_0000, b / 0x100_0000);
    ByteNat(a / 0x1_0000 % 256, b / 0x1_0000 % 256);
    ByteNat(a / 0x100 % 256, b / 0x100 % 256);
    ByteNat(a % 256, b % 256);
    Quarters(a);
    Quarters(b);
  }

  lemma Quarters(a: nat)
    ensures a == a / 0x100_0000 * 0x100_0000 + a / 0x1_0000 % 256 * 0x1_0000 + a / 0x100 % 256 * 0x100 + a % 256
  {
    assert a / 0x100 / 0x100 == a / 0x1_0000;
    assert a / 0x1_0000 / 0x100 == a / 0x100_0000;
  }

  /** The padding is that of the standard exactly when the words have counted right. */
  lemma PaddedRight(m: Bytes, lo: nat, hi: nat)
    requires lo < TWO32 && hi < TWO32
    ensures PaddedWith(m, lo, hi) == Padded(m) <==> hi * TWO32 + lo == |m| * 8 % TWO64
  {
    hide BE, LengthField, Zeros;
    var n := |m| * 8 % TWO64;
    var h, l := n / TWO32, n % TWO32;
    LengthIs(|m|, l, h);
    if hi * TWO32 + lo == n { ModUnique(n, hi, lo, TWO32); }
    if PaddedWith(m, lo, hi) == Padded(m) {
      var a, b := PaddedWith(m, lo, hi), Padded(m);
      assert a[|a| - 8..] == BE(hi) + BE(lo) && b[|b| - 8..] == BE(h) + BE(l);
      var x, y := BE(hi) + BE(lo), BE(h) + BE(l);
      assert x[..4] == BE(hi) && y[..4] == BE(h) && x[4..] == BE(lo) && y[4..] == BE(l);
      BigEndian(hi, h);
      BigEndian(lo, l);
    }
  }

  function DigestOf(s: Chain): (d: Bytes)
    ensures |d| == 20
  {
    WordBytes(s[0]) + WordBytes(s[1]) + WordBytes(s[2]) + WordBytes(s[3]) + WordBytes(s[4])
  }

  function WordBytes(w: bv32): (d: Bytes)
    ensures |d| == 4
  {
    [(w >> 24) as bv8, ((w >> 16) & 255) as bv8, ((w >> 8) & 255) as bv8, (w & 255) as bv8]
  }

  /** The hash of a message. */
  function Sha(f: Compress, m: Bytes): (d: Bytes)
    ensures |d| == 20
  {
    DigestOf(Fold(f, Padded(m)))
  }

  /** What the program computes if the high word that counts bits has this value; the low word is always right. */
  function ShaWith(f: Compress, m: Bytes, hi: nat): (d: Bytes)
    requires hi < TWO32
    ensures |d| == 20
  {
    DigestOf(Fold(f, PaddedWith(m, |m| * 8 % TWO32, hi)))
  }

  /** The high word as it should be. */
  function HighWord(bytes: nat): (hi: nat)
    ensures hi < TWO32
  {
    bytes * 8 % TWO64 / TWO32
  }

  lemma LowHigh(bytes: nat)
    ensures HighWord(bytes) * TWO32 + bytes * 8 % TWO32 == bytes * 8 % TWO64
  {
    var n := bytes * 8;
    var q := n / TWO64;
    var w := n % TWO64;
    var h, l := w / TWO32, w % TWO32;
    assert n == (q * TWO32 + h) * TWO32 + l;
    ModUnique(n, q * TWO32 + h, l, TWO32);
  }

  lemma ShaWithRight(f: Compress, m: Bytes)
    ensures ShaWith(f, m, HighWord(|m|)) == Sha(f, m)
  {
    hide PaddedWith, Padded, Fold;
    LowHigh(|m|);
    PaddedRight(m, |m| * 8 % TWO32, HighWord(|m|));
  }

  // ----- the context -----

  /** The whole blocks of a message. */
  function Whole(m: Bytes): (w: Bytes)
    ensures |w| % 64 == 0 && |w| <= |m| < |w| + 64
  {
    m[..|m| - |m| % 64]
  }

  /** Adding a length to the two words that count bits; the shifted length has 64 bits. */
  function AddLength(lo: nat, hi: nat, len: nat): (r: (nat, nat))
    requires lo < TWO32 && hi < TWO32
    ensures r.0 < TWO32 && r.1 < TWO32
  {
    var bits := len * 8 % TWO64;
    var lo1 := (lo + bits) % TWO32;
    var hi1 := if lo1 < bits then (hi + 1) % TWO32 else hi;
    (lo1, (hi1 + len / 0x2000_0000) % TWO32)
  }

  /**
    The words count right exactly for a length below 2^29 bytes (or within 2^29 bytes over a
    multiple of 2^61), or when the low word overflows.
   */
  lemma CountsRight(lo: nat, hi: nat, len: nat)
    requires lo < TWO32 && hi < TWO32
    ensures var r := AddLength(lo, hi, len);
            r.1 * TWO32 + r.0 == (hi * TWO32 + lo + len * 8) % TWO64
            <==> len % 0x2000_0000_0000_0000 < 0x2000_0000 || lo + len * 8 % TWO32 >= TWO32
  {
    var k, l := len / 0x2000_0000, len * 8 % TWO32;
    assert len * 8 == k * TWO32 + l;
    var over := if lo + l >= TWO32 then 1 else 0;
    var lo1 := lo + l - over * TWO32;
    WordsCount(hi, k, over, lo1);
    WordsCount(hi, k, 1, lo1);
    WordsCount(hi, k, 0, lo1);
    assert hi * TWO32 + lo + len * 8 == (hi + k + over) * TWO32 + lo1;
    AddLengthIs(lo, hi, len, k, l, lo1);
    OneMore(hi + k);
  }

  lemma OneMore(x: nat)
    ensures (x + 1) % TWO32 != x % TWO32
  {
  }

  /** The low word is right whatever the length. */
  lemma LowWord(lo: nat, hi: nat, len: nat)
    requires lo < TWO32 && hi < TWO32
    ensures AddLength(lo, hi, len).0 == (lo + len * 8) % TWO32
  {
    Bits(len, len / 0x2000_0000, len * 8 % TWO32);
    var k, l := len / 0x2000_0000, len * 8 % TWO32;
    var over := if lo + l >= TWO32 then 1 else 0;
    ModUnique(lo + len * 8, k + over, lo + l - over * TWO32, TWO32);
    ModUnique(lo + len * 8 % TWO64, k % TWO32 + over, lo + l - over * TWO32, TWO32);
  }

  lemma Bits(len: nat, k: nat, l: nat)
    requires k == len / 0x2000_0000 && l == len * 8 % TWO32
    ensures len * 8 == k * TWO32 + l && len * 8 % TWO64 == k % TWO32 * TWO32 + l
    ensures len % 0x2000_0000_0000_0000 < 0x2000_0000 <==> k % TWO32 == 0
  {
    assert len * 8 == k * TWO32 + l;
    WordsCount(0, k, 0, l);
    var q, d := k / TWO32, k % TWO32;
    var e := len % 0x2000_0000;
    assert len == q * 0x2000_0000_0000_0000 + (d * 0x2000_0000 + e);
    ModUnique(len, q, d * 0x2000_0000 + e, 0x2000_0000_0000_0000);
  }

  lemma AddLengthIs(lo: nat, hi: nat, len: nat, k: nat, l: nat, lo1: nat)
    requires lo < TWO32 && hi < TWO32 && k == len / 0x2000_0000 && l == len * 8 % TWO32
    requires lo1 == if lo + l >= TWO32 then lo + l - TWO32 else lo + l
    ensures AddLength(lo, hi, len) ==
      (lo1, (hi + k + if len % 0x2000_0000_0000_0000 >= 0x2000_0000 || lo + l >= TWO32 then 1 else 0) % TWO32)
  {
    Bits(len, k, l);
    LowWord(lo, hi, len);
    var over := if lo + l >= TWO32 then 1 else 0;
    assert (lo + len * 8) % TWO32 == lo1 by { ModUnique(lo + len * 8, k + over, lo1, TWO32); }
    var bits := len * 8 % TWO64;
    var carry := if lo1 < bits then 1 else 0;
    assert carry == if k % TWO32 >= 1 || lo + l >= TWO32 then 1 else 0;
    Carried(hi, carry, k);
  }

  lemma Carried(hi: nat, carry: nat, k: nat)
    requires hi < TWO32 && carry <= 1
    ensures (if carry == 1 then ((hi + 1) % TWO32 + k) % TWO32 else (hi + k) % TWO32) == (hi + k + carry) % TWO32
  {
  }

  lemma ModUnique(x: nat, q: nat, r: nat, m: nat)
    requires m > 0 && x == q * m + r && r < m
    ensures x % m == r && x / m == q
  {
    BignumQuorem.DivUnique(x, m, q, r);
  }

  lemma WordsCount(hi: nat, k: nat, c: nat, lo: nat)
    requires lo < TWO32
    ensures ((hi + k + c) * TWO32 + lo) % TWO64 == (hi + k + c) % TWO32 * TWO32 + lo
  {
    var h := hi + k + c;
    var q, r := h / TWO32, h % TWO32;
    assert h * TWO32 + lo == q * TWO64 + (r * TWO32 + lo);
    ModUnique(h * TWO32 + lo, q, r * TWO32 + lo, TWO64);
  }

  class Context {
    const f: Compress
    var state: Chain
    var count: (nat, nat)        // low and high word of the number of bits
    const buffer: array<Byte>
    ghost var message: Bytes     // everything hashed so far

    ghost predicate Valid()
      reads this, buffer
    {
      && buffer.Length == 64
      && count.0 < TWO32 && count.1 < TWO32
      && count.0 == |message| * 8 % TWO32
      && state == Fold(f, Whole(message))
      && buffer[..|message| % 64] == message[|Whole(message)|..]
    }

    constructor (f: Compress)
      ensures Valid() && message == [] && count == (0, 0) && this.f == f && fresh(buffer)
    {
      this.f := f;
      state := INIT;
      count := (0, 0);
      buffer := new Byte[64];
      message := [];
    }

    /** Copy bytes into the buffer from position `j` on. */
    method Store(j: nat, data: Bytes)
      requires buffer.Length == 64 && j + |data| <= 64
      modifies buffer
      ensures buffer[..j] == old(buffer[..j]) && buffer[j..j + |data|] == data
    {
      var k := 0;
      while k < |data|
        invariant k <= |data| && buffer[..j] == old(buffer[..j]) && buffer[j..j + k] == data[..k]
      {
        buffer[j + k] := data[k];
        k := k + 1;
      }
    }

    /** Compress the blocks that are full now; `i` bytes of the data have been used for them. */
    method Blocks(ghost m: Bytes, j: nat, data: Bytes) returns (i: nat)
      requires buffer.Length == 64 && j == |m| % 64
      requires state == Fold(f, Whole(m)) && buffer[..j] == m[|Whole(m)|..]
      modifies this`state, buffer
      ensures state == Fold(f, Whole(m + data)) && i <= |data|
      ensures i == 0 ==> j + |data| <= 63 && buffer[..j] == old(buffer[..j]) && Whole(m + data) == Whole(m)
      ensures i == 0 ==> |m + data| % 64 == j + |data|
      ensures i != 0 ==> |data| - i <= 63 && Whole(m + data) == m + data[..i] && |m + data| % 64 == |data| - i
    {
      hide Fold, Whole;
      if j + |data| <= 63 {
        NoBlock(m, data);
        return 0;
      }
      i := 64 - j;
      Store(j, data[..i]);
      FullBlock(m, data, i, buffer[..]);
      FoldNext(f, Whole(m), buffer[..]);
      state := f(state, buffer[..]);
      while i + 63 < |data|
        invariant 64 - j <= i <= |data| && (|m| + i) % 64 == 0
        invariant state == Fold(f, m + data[..i])
      {
        FoldNext(f, m + data[..i], data[i..i + 64]);
        assert m + data[..i] + data[i..i + 64] == m + data[..i + 64];
        state := f(state, data[i..i + 64]);
        i := i + 64;
      }
      WholeIs(m, data, i);
    }

    /** Data of any length. */
    method Update(data: Bytes)
      requires Valid()
      modifies this`state, this`count, this`message, buffer
      ensures Valid() && message == old(message) + data
      ensures count == AddLength(old(count.0), old(count.1), |data|)
    {
      hide Fold, Whole, AddLength;
      ghost var m := message;
      var j := count.0 / 8 % 64;
      FillOf(|m|, count.0);
      LowWord(count.0, count.1, |data|);
      NewCount(|m|, |data|, count.0);
      count := AddLength(count.0, count.1, |data|);
      var i := Blocks(m, j, data);
      if i != 0 {
        j := 0;
      }
      Store(j, data[i..]);
      message := m + data;
      Tail(m, data, i, j, buffer[..]);
    }

    /** Pad, append the length, and read the digest off the state. */
    method Final() returns (digest: Bytes)
      requires Valid()
      modifies this`state, this`count, this`message, buffer
      ensures digest == ShaWith(f, old(message), old(count.1))
    {
      hide Fold, Whole, PaddedWith, BE, AddLength;
      ghost var m, lo, hi := message, count.0, count.1;
      var finalcount := BE(count.1) + BE(count.0);
      Update([0x80]);
      ghost var z := 0;
      assert message == m + [0x80] + Zeros(0);
      FillOf(|message|, count.0);
      while count.0 / 8 % 64 != 56
        invariant Valid() && 0 <= z <= ZeroCount(|m|) && message == m + [0x80] + Zeros(z)
        invariant count.0 / 8 % 64 == |message| % 64
        decreases ZeroCount(|m|) - z
      {
        ghost var before := message;
        Update([0]);
        assert Zeros(z) + [0] == Zeros(z + 1);
        assert before + [0] == m + [0x80] + (Zeros(z) + [0]);
        z := z + 1;
        FillOf(|message|, count.0);
      }
      EnoughZeros(|m|, z);
      Update(finalcount);
      PaddedIs(m, message, lo, hi);
      digest := DigestOf(state);
    }
  }

  lemma LengthIs(n: nat, lo: nat, hi: nat)
    requires lo < TWO32 && hi < TWO32 && hi * TWO32 + lo == n * 8 % TWO64
    ensures LengthField(n) == BE(hi) + BE(lo)
  {
    hide BE;
    ModUnique(n * 8 % TWO64, hi, lo, TWO32);
  }

  lemma EnoughZeros(bytes: nat, z: nat)
    requires z <= ZeroCount(bytes) && (bytes + 1 + z) % 64 == 56
    ensures z == ZeroCount(bytes)
  {
  }

  lemma PaddedIs(m: Bytes, p: Bytes, lo: nat, hi: nat)
    requires lo < TWO32 && hi < TWO32
    requires p == m + [0x80] + Zeros(ZeroCount(|m|)) + (BE(hi) + BE(lo))
    ensures p == PaddedWith(m, lo, hi) && Whole(p) == p
  {
    hide BE, Zeros, ZeroCount;
    assert p == m + ([0x80] + Zeros(ZeroCount(|m|)) + (BE(hi) + BE(lo)));
  }

  /** The number of buffered bytes, from the low word alone. */
  lemma FillOf(n: nat, lo: nat)
    requires lo == n * 8 % TWO32
    ensures lo / 8 % 64 == n % 64
  {
    var q := n * 8 / TWO32;
    assert n * 8 == q * TWO32 + lo;
    assert n == q * 0x2000_0000 + lo / 8;
  }

  lemma NewCount(n: nat, len: nat, lo: nat)
    requires lo == n * 8 % TWO32
    ensures (lo + len * 8) % TWO32 == (n + len) * 8 % TWO32
  {
    var q := n * 8 / TWO32;
    var y := lo + len * 8;
    assert (n + len) * 8 == q * TWO32 + y;
    var k, r := y / TWO32, y % TWO32;
    assert (n + len) * 8 == (q + k) * TWO32 + r;
    ModUnique((n + len) * 8, q + k, r, TWO32);
  }

  /** The buffer is filled up with the first bytes of the data. */
  lemma FullBlock(m: Bytes, data: Bytes, i: nat, buffer: Bytes)
    requires i == 64 - |m| % 64 <= |data| && |buffer| == 64
    requires buffer[..|m| % 64] == m[|Whole(m)|..] && buffer[|m| % 64..] == data[..i]
    ensures Whole(m) + buffer == m + data[..i] && |m + data[..i]| % 64 == 0
  {
    var j := |m| % 64;
    assert buffer == buffer[..j] + buffer[j..];
    assert m == Whole(m) + m[|Whole(m)|..];
    assert Whole(m) + (m[|Whole(m)|..] + data[..i]) == Whole(m) + m[|Whole(m)|..] + data[..i];
  }

  lemma WholeIs(m: Bytes, data: Bytes, i: nat)
    requires i <= |data| < i + 64 && (|m| + i) % 64 == 0
    ensures Whole(m + data) == m + data[..i] && |m + data| % 64 == |data| - i
  {
    assert |m + data| - |m + data| % 64 == |m| + i;
  }

  lemma NoBlock(m: Bytes, data: Bytes)
    requires |m| % 64 + |data| <= 63
    ensures Whole(m + data) == Whole(m) && |m + data| % 64 == |m| % 64 + |data|
  {
    assert |m + data| - |m + data| % 64 == |m| - |m| % 64;
  }

  lemma Tail(m: Bytes, data: Bytes, i: nat, j: nat, buffer: Bytes)
    requires i <= |data| && |buffer| == 64 && j + |data| - i <= 63
    requires buffer[j..j + |data| - i] == data[i..]
    requires |m + data| % 64 == j + |data| - i
    requires if i == 0 then buffer[..j] == m[|Whole(m)|..] && Whole(m + data) == Whole(m)
             else j == 0 && Whole(m + data) == m + data[..i]
    ensures buffer[..|m + data| % 64] == (m + data)[|Whole(m + data)|..]
  {
    var n := |data| - i;
    assert buffer[..j + n] == buffer[..j] + buffer[j..j + n];
    if i == 0 {
      assert (m + data)[|Whole(m)|..] == m[|Whole(m)|..] + data;
    } else {
      assert (m + data)[|m| + i..] == data[i..];
    }
  }

  // ----- whole messages -----

  function Join(parts: seq<Bytes>): Bytes {
    if parts == [] then [] else Join(parts[..|parts| - 1]) + parts[|parts| - 1]
  }

  /** The two words after updates with these parts. */
  function CountsOf(parts: seq<Bytes>): (r: (nat, nat))
    ensures r.0 < TWO32 && r.1 < TWO32
  {
    if parts == [] then (0, 0)
    else
      var c := CountsOf(parts[..|parts| - 1]);
      AddLength(c.0, c.1, |parts[|parts| - 1]|)
  }

  /** What the program makes of these parts. */
  function ShaOf(f: Compress, parts: seq<Bytes>): (d: Bytes)
    ensures |d| == 20
  {
    ShaWith(f, Join(parts), CountsOf(parts).1)
  }

  /** The words have counted all updates right. */
  predicate Counted(parts: seq<Bytes>) {
    CountsOf(parts).1 == HighWord(|Join(parts)|)
  }

  lemma {:induction false} LowCounted(parts: seq<Bytes>)
    ensures CountsOf(parts).0 == |Join(parts)| * 8 % TWO32
  {
    if parts != [] {
      hide AddLength;
      var front, last := parts[..|parts| - 1], parts[|parts| - 1];
      LowCounted(front);
      var c := CountsOf(front);
      LowWord(c.0, c.1, |last|);
      NewCount(|Join(front)|, |last|, c.0);
    }
  }

  /** One more part is counted right exactly below 2^29 bytes, or when the low word overflows. */
  lemma CountedNext(parts: seq<Bytes>, part: Bytes)
    requires Counted(parts)
    ensures Counted(parts + [part]) <==>
            |part| % 0x2000_0000_0000_0000 < 0x2000_0000 || |Join(parts)| * 8 % TWO32 + |part| * 8 % TWO32 >= TWO32
  {
    hide AddLength, HighWord, CountsOf, Join;
    var all, n, len := parts + [part], |Join(parts)|, |part|;
    NextPart(parts, part);
    LowCounted(parts);
    LowCounted(all);
    var lo, hi := CountsOf(parts).0, CountsOf(parts).1;
    LowHigh(n);
    LowHigh(n + len);
    CountsRight(lo, hi, len);
    NewTotal(n, len, hi * TWO32 + lo);
  }

  lemma NextPart(parts: seq<Bytes>, part: Bytes)
    ensures var all := parts + [part];
            && Join(all) == Join(parts) + part
            && CountsOf(all) == AddLength(CountsOf(parts).0, CountsOf(parts).1, |part|)
  {
    hide AddLength;
    assert (parts + [part])[..|parts|] == parts;
  }

  lemma NewTotal(n: nat, len: nat, w: nat)
    requires w == n * 8 % TWO64
    ensures (w + len * 8) % TWO64 == (n + len) * 8 % TWO64
  {
    var q := n * 8 / TWO64;
    var y := w + len * 8;
    assert (n + len) * 8 == q * TWO64 + y;
    var k, r := y / TWO64, y % TWO64;
    assert (n + len) * 8 == (q + k) * TWO64 + r;
    ModUnique((n + len) * 8, q + k, r, TWO64);
  }

  lemma {:induction false} ShortCounted(parts: seq<Bytes>)
    requires forall i :: 0 <= i < |parts| ==> |parts[i]| < 0x2000_0000
    ensures Counted(parts)
  {
    if parts != [] {
      hide AddLength, HighWord, Counted, CountsOf, Join;
      var front, last := parts[..|parts| - 1], parts[|parts| - 1];
      ShortCounted(front);
      SmallEnough(|last|);
      CountedNext(front, last);
      assert parts == front + [last];
    }
  }

  lemma SmallEnough(n: nat)
    requires n < 0x2000_0000
    ensures n % 0x2000_0000_0000_0000 < 0x2000_0000
  {
  }

  lemma CountedSha(f: Compress, parts: seq<Bytes>)
    requires Counted(parts)
    ensures ShaOf(f, parts) == Sha(f, Join(parts))
  {
    hide Sha, ShaWith, CountsOf, Join, HighWord;
    ShaWithRight(f, Join(parts));
  }

  /** The program hashes the standard's padded message of the parts exactly when it has counted them right. */
  lemma HashesStandard(parts: seq<Bytes>)
    ensures PaddedWith(Join(parts), |Join(parts)| * 8 % TWO32, CountsOf(parts).1) == Padded(Join(parts)) <==> Counted(parts)
  {
    hide PaddedWith, Padded, Join, CountsOf, HighWord;
    var m := Join(parts);
    PaddedRight(m, |m| * 8 % TWO32, CountsOf(parts).1);
    LowHigh(|m|);
  }

  /** `lsha1` hashes its text in one update: right exactly below 2^29 bytes (modulo 2^61). */
  lemma OneUpdate(text: Bytes)
    ensures Counted([text]) <==> |text| % 0x2000_0000_0000_0000 < 0x2000_0000
  {
    hide AddLength;
    CountedNext([], text);
    assert [] + [text] == [text];
  }

  /** However a message is cut into updates of less than 2^29 bytes, the digest is that of the whole. */
  method HashParts(f: Compress, parts: seq<Bytes>) returns (d: Bytes)
    ensures d == ShaOf(f, parts)
    ensures Counted(parts) ==> d == Sha(f, Join(parts))
    ensures (forall i :: 0 <= i < |parts| ==> |parts[i]| < 0x2000_0000) ==> d == Sha(f, Join(parts))
  {
    hide Sha, ShaWith, AddLength, Counted, HighWord;
    var ctx := new Context(f);
    var i := 0;
    assert parts[..0] == [];
    while i < |parts|
      invariant i <= |parts| && ctx.Valid() && ctx.f == f && fresh(ctx) && fresh(ctx.buffer)
      invariant ctx.message == Join(parts[..i]) && ctx.count == CountsOf(parts[..i])
    {
      ctx.Update(parts[i]);
      assert parts[..i + 1][..i] == parts[..i];
      i := i + 1;
    }
    assert parts[..i] == parts;
    d := ctx.Final();
    if forall i :: 0 <= i < |parts| ==> |parts[i]| < 0x2000_0000 { ShortCounted(parts); }
    if Counted(parts) { CountedSha(f, parts); }
  }

  // ----- HMAC -----

  function XorAll(k: Bytes, c: Byte): (r: Bytes)
    ensures |r| == |k| && forall i :: 0 <= i < |k| ==> r[i] == k[i] ^ c
  {
    seq(|k|, i requires 0 <= i < |k| => k[i] ^ c)
  }

  /** The key as one block; a long key is hashed. */
  function BlockKey(key: Bytes, hashed: Bytes): (k: Bytes)
    requires |hashed| == 20
    ensures |k| == 64
  {
    var short := if |key| > 64 then hashed else key;
    short + Zeros(64 - |short|)
  }

  /** Section 2 of RFC 2104, with inner byte 0x36 and outer byte 0x5c. */
  function Hmac(f: Compress, key: Bytes, text: Bytes): Bytes {
    var k := BlockKey(key, Sha(f, key));
    Sha(f, XorAll(k, 0x5c) + Sha(f, XorAll(k, 0x36) + text))
  }

  /** What the program computes. */
  function HmacOf(f: Compress, key: Bytes, text: Bytes): Bytes {
    var k := BlockKey(key, ShaOf(f, [key]));
    ShaOf(f, [XorAll(k, 0x5c), ShaOf(f, [XorAll(k, 0x36), text])])
  }

  /** `xor_key`, in place. */
  method XorKey(key: array<Byte>, c: Byte)
    modifies key
    ensures key[..] == XorAll(old(key[..]), c)
  {
    var i := 0;
    while i < key.Length
      invariant i <= key.Length
      invariant forall j :: 0 <= j < i ==> key[j] == old(key[j]) ^ c
      invariant forall j :: i <= j < key.Length ==> key[j] == old(key[j])
    {
      key[i] := key[i] ^ c;
      i := i + 1;
    }
  }

  lemma XorTwice(k: Bytes)
    ensures XorAll(XorAll(k, 0x5c), 0x5c ^ 0x36) == XorAll(k, 0x36)
  {
    forall i | 0 <= i < |k| ensures XorAll(XorAll(k, 0x5c), 0x5c ^ 0x36)[i] == XorAll(k, 0x36)[i] {
      XorByte(k[i]);
    }
  }

  lemma XorByte(b: Byte)
    ensures (b ^ 0x5c) ^ (0x5c ^ 0x36) == b ^ 0x36
  {
  }

  /** The key, hashed first if it is longer than a block, and filled up with zeros. */
  method PrepareKey(f: Compress, key: Bytes) returns (rkey: array<Byte>)
    ensures fresh(rkey) && rkey[..] == BlockKey(key, ShaOf(f, [key]))
  {
    hide ShaWith, AddLength;
    rkey := new Byte[64](_ => 0);
    var short := key;
    if |key| > 64 {
      var ctx := new Context(f);
      ctx.Update(key);
      assert [] + key == key;
      Parts1(key);
      short := ctx.Final();
    }
    CopyKey(rkey, short);
  }

  lemma Parts1(a: Bytes)
    ensures Join([a]) == a && CountsOf([a]) == AddLength(0, 0, |a|)
  {
    hide AddLength;
    NextPart([], a);
    assert [] + [a] == [a];
    assert Join([]) + a == a;
  }

  lemma Parts2(a: Bytes, b: Bytes)
    ensures Join([a, b]) == a + b
    ensures CountsOf([a, b]) == AddLength(CountsOf([a]).0, CountsOf([a]).1, |b|)
  {
    hide AddLength;
    NextPart([a], b);
    Parts1(a);
    assert [a] + [b] == [a, b];
  }

  /** The text behind the key's block is counted right exactly below 2^29 bytes, or less than 64 bytes below a multiple of 2^29. */
  lemma TextCounted(k: Bytes, text: Bytes)
    requires |k| == 64
    ensures Counted([k, text]) <==> |text| % 0x2000_0000_0000_0000 < 0x2000_0000 || |text| % 0x2000_0000 >= 0x2000_0000 - 64
  {
    hide AddLength, Counted;
    OneUpdate(k);
    Parts1(k);
    CountedNext([k], text);
    assert [k] + [text] == [k, text];
    EighthOfText(|text|);
  }

  lemma EighthOfText(n: nat)
    ensures 512 + n * 8 % TWO32 >= TWO32 <==> n % 0x2000_0000 >= 0x2000_0000 - 64
  {
    var q, r := n / 0x2000_0000, n % 0x2000_0000;
    assert n * 8 == q * TWO32 + r * 8;
    ModUnique(n * 8, q, r * 8, TWO32);
  }

  /** The program computes the standard's code whenever it counts right: see `OneUpdate` and `TextCounted`. */
  lemma HmacRight(f: Compress, key: Bytes, text: Bytes)
    requires |key| <= 64 || Counted([key])
    requires Counted([XorAll(BlockKey(key, Sha(f, key)), 0x36), text])
    ensures HmacOf(f, key, text) == Hmac(f, key, text)
  {
    hide Sha, ShaOf, Counted, XorAll, AddLength, CountsOf;
    Parts1(key);
    if |key| > 64 { CountedSha(f, [key]); }
    var k := BlockKey(key, Sha(f, key));
    assert BlockKey(key, ShaOf(f, [key])) == k;
    var inner, outer := XorAll(k, 0x36), XorAll(k, 0x5c);
    CountedSha(f, [inner, text]);
    Parts2(inner, text);
    var d := Sha(f, inner + text);
    ShortCounted([outer, d]);
    CountedSha(f, [outer, d]);
    Parts2(outer, d);
  }

  /** `lhmac_sha1`, for keys and texts of every length. */
  method HmacSha1(f: Compress, key: Bytes, text: Bytes) returns (digest: Bytes)
    ensures digest == HmacOf(f, key, text)
    ensures |key| < 0x2000_0000 && |text| < 0x2000_0000 ==> digest == Hmac(f, key, text)
  {
    hide ShaWith, XorAll, BlockKey, Context.Valid, AddLength, Sha, Hmac, Counted;
    var rkey := PrepareKey(f, key);
    ghost var k := rkey[..];
    XorKey(rkey, 0x5c);
    var ctx1 := new Context(f);
    ghost var outer := rkey[..];
    ctx1.Update(rkey[..]);
    assert [] + outer == outer;
    Parts1(outer);
    XorKey(rkey, 0x5c ^ 0x36);
    XorTwice(k);
    var ctx2 := new Context(f);
    ghost var inner := rkey[..];
    ctx2.Update(rkey[..]);
    assert [] + inner == inner;
    Parts1(inner);
    ctx2.Update(text);
    Parts2(inner, text);
    var digest2 := ctx2.Final();
    ctx1.Update(digest2);
    Parts2(outer, digest2);
    digest := ctx1.Final();
    ShortHmac(f, key, text);
  }

  lemma ShortHmac(f: Compress, key: Bytes, text: Bytes)
    ensures |key| < 0x2000_0000 && |text| < 0x2000_0000 ==> HmacOf(f, key, text) == Hmac(f, key, text)
  {
    hide Sha, ShaOf, Counted, AddLength, CountsOf, BlockKey, HmacOf, Hmac;
    if |key| < 0x2000_0000 && |text| < 0x2000_0000 {
      ShortCounted([key]);
      ShortCounted([XorAll(BlockKey(key, Sha(f, key)), 0x36), text]);
      HmacRight(f, key, text);
    }
  }

  method CopyKey(rkey: array<Byte>, key: Bytes)
    requires rkey.Length == 64 && |key| <= 64 && forall i :: 0 <= i < 64 ==> rkey[i] == 0
    modifies rkey
    ensures rkey[..] == key + Zeros(64 - |key|)
  {
    var i := 0;
    while i < |key|
      invariant i <= |key| && rkey[..i] == key[..i] && forall j :: i <= j < 64 ==> rkey[j] == 0
    {
      rkey[i] := key[i];
      i := i + 1;
    }
  }
}
