/**
  Shifting word arrays left, and the shift that leaves a divisor's top word four leading zero bits.
 */
module BignumShift {
  import opened Bignum
  import opened BignumOps

  lemma PowersOfTwo()
    ensures Pow(2, 0) == 1 && Pow(2, 1) == 2 && Pow(2, 2) == 4 && Pow(2, 4) == 16 && Pow(2, 8) == 256
    ensures Pow(2, 16) == 0x1_0000 && Pow(2, 32) == B
  {
    assert Pow(2, 8) == 256;
    PowAdd(2, 8, 8);
    PowAdd(2, 16, 16);
  }

  /** A word shifted left by `k` bits with `z` in the freed bits, and the bits that fall out. */
  function ShiftWord(x: Word, k: nat, z: nat): (r: (Word, nat))
    requires k < 32 && z < Pow(2, k)
    ensures r.1 < Pow(2, k)
    ensures x * Pow(2, k) + z == r.0 + B * r.1
  {
    ShiftParts(x, k);
    (x * Pow(2, k) % B + z, x / Pow(2, 32 - k))
  }

  lemma ShiftParts(x: Word, k: nat)
    requires k < 32
    ensures Pow(2, k) > 0 && Pow(2, 32 - k) > 0
    ensures x * Pow(2, k) == x * Pow(2, k) % B + B * (x / Pow(2, 32 - k))
    ensures x * Pow(2, k) % B <= B - Pow(2, k) && x / Pow(2, 32 - k) < Pow(2, k)
  {
    hide Pow;
    PowPositive(2, k);
    PowPositive(2, 32 - k);
    PowAdd(2, k, 32 - k);
    PowersOfTwo();
    ShiftAlgebra(x, Pow(2, k), Pow(2, 32 - k));
  }

  lemma ShiftAlgebra(x: nat, p: nat, q: nat)
    requires p > 0 && q > 0 && p * q == B && x < B
    ensures x * p == x * p % B + B * (x / q)
    ensures x * p % B <= B - p && x / q < p
  {
    var u, v := x / q, x % q;
    assert x == q * u + v;
    assert x * p == (q * u) * p + v * p;
    assert (q * u) * p == (p * q) * u;
    assert v * p <= B - p by { MulMono(v + 1, q, p); assert (v + 1) * p == v * p + p; }
    MulNat(v, p);
    ModUnique(x * p, u, v * p);
    if u >= p { MulMono(p, u, q); }
  }

  lemma ModUnique(y: nat, u: nat, r: nat)
    requires y == B * u + r && r < B
    ensures y % B == r && y / B == u
  {
  }

  /** `done` and the bits shifted out stand for the low words of `o`, shifted. */
  ghost predicate Shifted(done: seq<Word>, z: nat, o: seq<Word>, k: nat) {
    |done| <= |o| && Value(done) + z * Pow(B, |done|) == Value(o[..|done|]) * Pow(2, k)
  }

  lemma ShiftStep(done: seq<Word>, z: nat, o: seq<Word>, k: nat)
    requires Shifted(done, z, o, k) && |done| < |o| && k < 32 && z < Pow(2, k)
    ensures var (d, z1) := ShiftWord(o[|done|], k, z); Shifted(done + [d], z1, o, k)
  {
    hide Value, Pow, ShiftWord;
    var i := |done|;
    var (d, z1) := ShiftWord(o[i], k, z);
    ValueNext(o, i);
    ValueAppend(done, d);
    PowNext(B, i);
    CarryStep(Value(done), z, Pow(B, i), Value(o[..i]) * Pow(2, k), o[i] * Pow(2, k), z1, d);
    MulSwap(o[i], Pow(2, k), Pow(B, i), Value(o[..i]));
  }

  lemma ShiftedStart(o: seq<Word>, k: nat)
    ensures Shifted([], 0, o, k) && Pow(2, k) > 0
  {
    PowPositive(2, k);
  }

  lemma ShiftedEnd(done: seq<Word>, z: nat, o: seq<Word>, k: nat)
    requires Shifted(done, z, o, k) && |done| == |o|
    ensures Value(done) + z * Pow(B, |o|) == Value(o) * Pow(2, k)
  {
    hide Value;
    assert o[..|o|] == o;
  }

  /** `n` zero words below multiply by `2^(32 n)`. */
  lemma WordShift(s: seq<Word>, t: seq<Word>, n: nat, k: nat)
    requires |s| == n && forall i :: 0 <= i < n ==> s[i] == 0
    ensures Value(s + t) * Pow(2, k) == Value(t) * Pow(2, k) * Pow(2, 32 * n)
    ensures Value(s + t) == Value(t) * Pow(2, 32 * n)
  {
    hide Pow;
    ValueConcat(s, t);
    ValueZeros(s, 0);
    assert s[..0] == [];
    PowersOfTwo();
    PowMul(2, 32, n);
    ShiftReorder(Value(t), Pow(2, k), Pow(2, 32 * n));
  }

  lemma ShiftReorder(v: int, p: int, q: int)
    ensures (q * v) * p == v * p * q && q * v == v * q
  {
    assert (q * v) * p == v * p * q;
  }

  /** The words of `b` shifted left by `k` bits, written from word `n` on; `z` is what falls out at the top. */
  method ShiftWords(b: Bigint, k: nat, x1: array<Word>, n: nat) returns (z: nat)
    requires b.Valid() && k < 32 && b.x != x1 && n + b.wds <= x1.Length
    modifies x1
    ensures x1[..n] == old(x1[..n])
    ensures z < Pow(2, k) && Value(x1[n..n + b.wds]) + z * Pow(B, b.wds) == b.Val() * Pow(2, k)
    ensures b.wds >= 1 && b.x[b.wds - 1] != 0 ==> z != 0 || x1[n + b.wds - 1] != 0
  {
    hide Value, Pow, Shifted, ShiftWord;
    ghost var o := b.Words();
    ShiftedStart(o, k);
    z := 0;
    var i := 0;
    assert x1[n..n] == [];
    while i < b.wds
      invariant i <= b.wds && z < Pow(2, k)
      invariant Shifted(x1[n..n + i], z, o, k)
      invariant x1[..n] == old(x1[..n])
      invariant i > 0 && o[i - 1] != 0 ==> z != 0 || x1[n + i - 1] != 0
    {
      ghost var done := x1[n..n + i];
      ShiftStep(done, z, o, k);
      ShiftNonZero(b.x[i], k, z);
      var (d, z1) := ShiftWord(b.x[i], k, z);
      x1[n + i] := d;
      z := z1;
      assert x1[n..n + i + 1] == done + [d];
      i := i + 1;
    }
    ShiftedEnd(x1[n..n + i], z, o, k);
  }

  lemma ShiftNonZero(x: Word, k: nat, z: nat)
    requires k < 32 && z < Pow(2, k)
    ensures x != 0 ==> ShiftWord(x, k, z).0 != 0 || ShiftWord(x, k, z).1 != 0
  {
    hide Pow, ShiftWord;
    PowPositive(2, k);
    if x != 0 { MulAtLeast(x, Pow(2, k)); }
  }

  method CopyUp(b: Bigint, x1: array<Word>, n: nat)
    requires b.Valid() && b.x != x1 && n + b.wds <= x1.Length
    modifies x1
    ensures x1[..n] == old(x1[..n]) && x1[n..n + b.wds] == b.Words()
  {
    var i := 0;
    while i < b.wds
      invariant i <= b.wds && x1[..n] == old(x1[..n]) && x1[n..n + i] == b.x[..i]
    {
      x1[n + i] := b.x[i];
      i := i + 1;
    }
  }

  /** The shifted words, with one more word if bits fall out at the top. */
  method ShiftInto(b: Bigint, r: nat, x1: array<Word>, n: nat) returns (more: nat)
    requires b.Valid() && b.wds >= 1 && r < 32 && b.x != x1 && n + b.wds < x1.Length
    modifies x1
    ensures x1[..n] == old(x1[..n]) && more <= 1
    ensures Value(x1[n..n + b.wds + more]) == b.Val() * Pow(2, r)
    ensures b.x[b.wds - 1] != 0 ==> x1[n + b.wds + more - 1] != 0
  {
    hide Value, Pow;
    more := 0;
    if r != 0 {
      var z := ShiftWords(b, r, x1, n);
      ghost var done, low := x1[n..n + b.wds], x1[..n];
      OutBitsAreAWord(r);
      x1[n + b.wds] := z;
      assert x1[n..n + b.wds] == done && x1[..n] == low;
      assert x1[n..n + b.wds + 1] == done + [z];
      ValueAppend(done, z);
      if z != 0 {
        more := 1;
      }
    } else {
      CopyUp(b, x1, n);
      PowersOfTwo();
      assert x1[n + b.wds - 1] == x1[n..n + b.wds][b.wds - 1];
    }
  }

  /** `b * 2^k`. */
  method LShift(b: Bigint, k: nat) returns (b1: Bigint)
    requires b.Valid() && b.wds >= 1
    ensures fresh(b1) && fresh(b1.x) && b1.Valid() && b1.wds >= b.wds
    ensures b1.Val() == b.Val() * Pow(2, k)
    ensures b.x[b.wds - 1] != 0 ==> b1.x[b1.wds - 1] != 0
  {
    hide Value, Pow;
    var n := k / 32;
    b1 := Room(b, n + b.wds + 1);
    var i := 0;
    while i < n
      invariant i <= n && forall j :: 0 <= j < i ==> b1.x[j] == 0
      invariant b1.Valid()
    {
      b1.x[i] := 0;
      i := i + 1;
    }
    ghost var zeros := b1.x[..n];
    var more := ShiftInto(b, k % 32, b1.x, n);
    b1.wds := n + b.wds + more;
    assert b1.Words() == zeros + b1.x[n..n + b.wds + more];
    ShiftComposed(zeros, b1.x[n..n + b.wds + more], b.Val(), n, k);
  }

  lemma ShiftComposed(zeros: seq<Word>, t: seq<Word>, v: nat, n: nat, k: nat)
    requires |zeros| == n == k / 32 && forall i :: 0 <= i < n ==> zeros[i] == 0
    requires Value(t) == v * Pow(2, k % 32)
    ensures Value(zeros + t) == v * Pow(2, k)
  {
    hide Value, Pow;
    WordShift(zeros, t, n, 0);
    PowAdd(2, k % 32, 32 * n);
    MulAssoc(v, Pow(2, k % 32), Pow(2, 32 * n));
    assert k % 32 + 32 * n == k;
  }

  lemma OutBitsAreAWord(r: nat)
    requires r < 32
    ensures Pow(2, r) <= B
  {
    hide Pow;
    PowAdd(2, r, 32 - r);
    PowersOfTwo();
    PowPositive(2, 32 - r);
    MulAtLeast(Pow(2, 32 - r), Pow(2, r));
  }

  /** A Bigint with at least `n1` words: the size is doubled as often as needed. */
  method Room(b: Bigint, n1: nat) returns (b1: Bigint)
    requires b.Valid()
    ensures fresh(b1) && fresh(b1.x) && b1.Valid() && b1.wds == 0 && b1.x.Length >= n1
  {
    hide Pow;
    var k1, i := b.k, b.x.Length;
    PowPositive(2, b.k);
    while n1 > i
      invariant i == Pow(2, k1) > 0
      decreases n1 - i
    {
      PowNext(2, k1);
      i := i * 2;
      k1 := k1 + 1;
    }
    b1 := new Bigint.Balloc(k1);
  }

  // ----- dshift -----

  /** The number of leading zero bits of a word. */
  method Hi0Bits(x0: Word) returns (k: nat)
    ensures x0 == 0 ==> k == 32
    ensures x0 != 0 ==> k < 32 && 0x8000_0000 <= x0 * Pow(2, k) < B
  {
    hide Pow;
    PowersOfTwo();
    var x: nat := x0;
    k := 0;
    if x < 0x1_0000 {
      k := 16;
      x := x * 0x1_0000;
    }
    if x < 0x100_0000 {
      PowAdd(2, k, 8);
      MulAssoc(x0, Pow(2, k), 256);
      k := k + 8;
      x := x * 0x100;
    }
    if x < 0x1000_0000 {
      PowAdd(2, k, 4);
      MulAssoc(x0, Pow(2, k), 16);
      k := k + 4;
      x := x * 0x10;
    }
    if x < 0x4000_0000 {
      PowAdd(2, k, 2);
      MulAssoc(x0, Pow(2, k), 4);
      k := k + 2;
      x := x * 4;
    }
    if x < 0x8000_0000 {
      PowAdd(2, k, 1);
      MulAssoc(x0, Pow(2, k), 2);
      k := k + 1;
      if x < 0x4000_0000 {
        return 32;
      }
    }
  }

  /** How much further to shift, after `p2` bits, so that the top word has four leading zero bits. */
  method DShift(b: Bigint, p2: nat) returns (r: nat, ghost h: nat)
    requires b.Valid() && b.wds >= 1 && b.x[b.wds - 1] != 0
    ensures r < 32 && LeadingZeros(b.x[b.wds - 1], h) && (p2 + r + 4 - h) % 32 == 0
  {
    var hi := Hi0Bits(b.x[b.wds - 1]);
    h := hi;
    var rv: int := hi;
    rv := rv - 4;
    if p2 > 0 {
      rv := rv - p2;
    }
    r := rv % 32;
  }

  ghost predicate LeadingZeros(x: Word, h: nat) {
    x != 0 && h < 32 && 0x8000_0000 <= x * Pow(2, h) < B
  }

  /** A number between two multiples of a power of `B` has its top word between them. */
  lemma TopWord(s: seq<Word>, lo: nat, hi: nat, u: nat)
    requires s != [] && s[|s| - 1] != 0 && 0 < lo < hi <= B
    requires lo * Pow(B, u) <= Value(s) < hi * Pow(B, u)
    ensures |s| - 1 == u && lo <= s[|s| - 1] < hi
  {
    hide Value, Pow;
    var n, t: int := |s| - 1, s[|s| - 1];
    var p := Pow(B, n);
    PowPositive(B, n);
    PowPositive(B, u);
    ValueTop(s);
    if n < u {
      PowGrows(n + 1, u);
      PowNext(B, n);
      MulMono(t + 1, B, p);
      MulMono(1, lo, Pow(B, u));
      assert false;
    }
    if u < n {
      PowGrows(u + 1, n);
      PowNext(B, u);
      MulMono(1, t, p);
      MulMono(hi, B, Pow(B, u));
      assert false;
    }
    if t < lo { MulMono(t + 1, lo, p); }
    if t >= hi { MulMono(hi, t, p); }
  }

  /**
    The point of `dshift`: a divisor shifted by `p2` and the answer has exactly four leading zero
    bits in its top word.
   */
  lemma FourLeadingZeros(s: seq<Word>, t: seq<Word>, h: nat, p: nat)
    requires s != [] && LeadingZeros(s[|s| - 1], h) && (p + 4 - h) % 32 == 0
    requires t != [] && t[|t| - 1] != 0 && Value(t) == Value(s) * Pow(2, p)
    ensures 0x800_0000 <= t[|t| - 1] < 0x1000_0000
  {
    hide Value, Pow;
    var n, x: nat := |s| - 1, s[|s| - 1];
    ValueTop(s);
    var w := Pow(B, n);
    var e := p + 32 - h;                     // 2^h times the top word is at least 2^31
    assert e >= 0 && e % 32 == 28;
    ShiftedBounds(Value(s), x, w, h, p, e);
    // 2^e is 2^28 times a power of the base
    var m := e / 32;
    PowAdd(2, 28, 32 * m);
    PowMul(2, 32, m);
    PowersOfTwo();
    TwoTo28();
    PowAdd(B, m, n);
    MulAssoc(0x1000_0000, Pow(B, m), w);
    HalfBound(Pow(B, m + n), Value(t), Pow(2, e) * w);
    TopWord(t, 0x800_0000, 0x1000_0000, m + n);
  }

  lemma TwoTo28()
    ensures Pow(2, 28) == 0x1000_0000
  {
    PowersOfTwo();
    PowAdd(2, 16, 8);
    PowAdd(2, 24, 4);
  }

  lemma HalfBound(q: nat, v: nat, top: nat)
    requires top == 0x1000_0000 * q && top <= 2 * v && v < top
    ensures 0x800_0000 * q <= v < 0x1000_0000 * q
  {
  }

  /** `v * 2^p` lies between half of `2^e * w` and `2^e * w`. */
  lemma ShiftedBounds(v: nat, x: nat, w: nat, h: nat, p: nat, e: nat)
    requires x * w <= v < (x + 1) * w && 0x8000_0000 <= x * Pow(2, h) < B && h < 32 && e == p + 32 - h
    ensures Pow(2, e) * w <= 2 * (v * Pow(2, p)) && v * Pow(2, p) < Pow(2, e) * w
  {
    hide Pow;
    PowersOfTwo();
    PowAdd(2, h, 32 - h);
    PowAdd(2, 32 - h, p);
    PowPositive(2, h);
    PowPositive(2, p);
    var a, c, d := Pow(2, h), Pow(2, 32 - h), Pow(2, p);
    HalfTop(x, a, c);
    BoundsAlgebra(v, x, w, c, d);
  }

  lemma BoundsAlgebra(v: nat, x: nat, w: nat, c: nat, d: nat)
    requires x * w <= v < (x + 1) * w && x + 1 <= c <= 2 * x && d > 0
    ensures c * d * w <= 2 * (v * d) && v * d < c * d * w
  {
    MulMono(x + 1, c, w);
    MulMono(c, 2 * x, w);
    MulAssoc(2, x, w);
    ScaleBounds(v, c * w, d);
    SwapLast(c, w, d);
  }

  lemma SwapLast(c: int, w: int, d: int)
    ensures c * w * d == c * d * w
  {
  }

  lemma HalfTop(x: nat, a: nat, c: nat)
    requires a > 0 && a * c == B && 0x8000_0000 <= x * a < B
    ensures x + 1 <= c <= 2 * x
  {
    if x >= c { MulMono(c, x, a); }
    if 2 * x < c {
      MulMono(2 * x + 1, c, a);
      TwiceAndOne(x, a);
    }
  }

  lemma TwiceAndOne(x: int, a: int)
    ensures (2 * x + 1) * a == 2 * (x * a) + a
  {
  }

  lemma ScaleBounds(v: nat, top: nat, d: nat)
    requires top <= 2 * v && v < top && d > 0
    ensures top * d <= 2 * (v * d) && v * d < top * d
  {
    MulMono(top, 2 * v, d);
    assert 2 * v * d == 2 * (v * d);
    MulMono(v + 1, top, d);
    assert (v + 1) * d == v * d + d;
  }
}
