/**
  The multiple-precision operations behind number conversion, on arrays of 32-bit words with 64-bit
  intermediate results.
 */
module BignumOps {
  import opened Bignum

  /** `2^k` words, the first `wds` of which are in use. */
  class Bigint {
    const k: nat
    const x: array<Word>
    var wds: nat
    var sign: nat

    ghost predicate Valid()
      reads this
    {
      wds <= x.Length && x.Length == Pow(2, k)
    }

    ghost function Words(): seq<Word>
      requires Valid()
      reads this, x
    {
      x[..wds]
    }

    ghost function Val(): nat
      requires Valid()
      reads this, x
    {
      Value(Words())
    }

    /** No leading zero word, except that zero may be written with one word. */
    ghost predicate Normal()
      requires Valid()
      reads this, x
    {
      wds > 1 ==> x[wds - 1] != 0
    }

    constructor Balloc(k: nat)
      ensures this.k == k && Valid() && wds == 0 && sign == 0
      ensures fresh(x) && x.Length == Pow(2, k) > 0
    {
      PowPositive(2, k);
      this.k := k;
      x := new Word[Pow(2, k)];
      wds, sign := 0, 0;
    }
  }

  lemma MulSwap(o: int, m: int, p: int, v: int)
    ensures (v + o * p) * m == v * m + (o * m) * p
  {
    assert (o * p) * m == (o * m) * p;
  }

  /** The words `done` and a carry stand for `m` times the low words of `o`, plus `a`. */
  ghost predicate Scaled(done: seq<Word>, c: nat, o: seq<Word>, m: nat, a: nat) {
    |done| <= |o| && Value(done) + c * Pow(B, |done|) == Value(o[..|done|]) * m + a
  }

  /** One word of `multadd`. */
  lemma MultAddStep(done: seq<Word>, c: nat, o: seq<Word>, m: nat, a: nat, y: nat)
    requires Scaled(done, c, o, m, a) && |done| < |o| && y == o[|done|] * m + c
    ensures Scaled(done + [y % B], y / B, o, m, a)
  {
    hide Value, Pow;
    var i, d, c1 := |done|, y % B, y / B;
    SplitWord(y);
    ValueNext(o, i);
    ValueAppend(done, d);
    PowNext(B, i);
    CarryStep(Value(done), c, Pow(B, i), Value(o[..i]) * m + a, o[i] * m, c1, d);
    MulSwap(o[i], m, Pow(B, i), Value(o[..i]));
  }

  lemma ScaledStart(o: seq<Word>, m: nat, a: nat)
    ensures Scaled([], a, o, m, a)
  {
  }

  lemma ScaledEnd(done: seq<Word>, c: nat, o: seq<Word>, m: nat, a: nat)
    requires Scaled(done, c, o, m, a) && |done| == |o|
    ensures Value(done) + c * Pow(B, |o|) == Value(o) * m + a
  {
    assert o[..|o|] == o;
  }

  /** `b * m + a`, in place when it fits. */
  method MultAdd(b: Bigint, m: nat, a: nat) returns (r: Bigint)
    requires b.Valid() && b.wds >= 1 && m < 0x8000_0000 && a < 0x8000_0000
    modifies b, b.x
    ensures r == b || (fresh(r) && fresh(r.x))
    ensures r.Valid() && r.wds >= old(b.wds)
    ensures r.Val() == old(b.Val()) * m + a
    ensures old(b.x[b.wds - 1]) != 0 && m > 0 ==> r.x[r.wds - 1] != 0
    ensures old(b.Val()) * m + a < Pow(B, b.x.Length) ==> r == b
  {
    hide Scaled, Value, Pow;
    ghost var o := b.x[..b.wds];
    var wds := b.wds;
    var i: nat, carry: nat := 0, a;
    ScaledStart(o, m, a);
    assert b.x[..0] == [];
    while i < wds
      invariant i <= wds == b.wds && b.Valid()
      invariant carry < 0x8000_0000
      invariant Scaled(b.x[..i], carry, o, m, a)
      invariant forall j :: i <= j < wds ==> b.x[j] == o[j]
      invariant i > 0 && o[i - 1] != 0 && m > 0 ==> carry != 0 || b.x[i - 1] != 0
    {
      ghost var done := b.x[..i];
      var y := Times(b.x[i], m, carry);
      MultAddStep(done, carry, o, m, a, y);
      carry := y / B;
      b.x[i] := y % B;
      assert b.x[..i + 1] == done + [y % B];
      i := i + 1;
    }
    ScaledEnd(b.x[..i], carry, o, m, a);
    if carry != 0 {
      MulAtLeast(carry, Pow(B, wds));
      r := AppendWord(b, carry);
    } else {
      r := b;
    }
  }

  /** One more word at the top, in a larger Bigint when there is no room. */
  method AppendWord(b: Bigint, w: Word) returns (r: Bigint)
    requires b.Valid()
    modifies b, b.x
    ensures r == b || (fresh(r) && fresh(r.x))
    ensures r.Valid() && r.wds == old(b.wds) + 1 && r.x[r.wds - 1] == w
    ensures r.Val() == old(b.Val()) + w * Pow(B, old(b.wds))
    ensures r == b <==> old(b.wds) < b.x.Length
  {
    r := b;
    if b.wds >= b.x.Length {
      PowPositive(2, b.k);
      r := new Bigint.Balloc(b.k + 1);
      CopyWords(b, r);
    }
    ghost var done := r.x[..r.wds];
    r.x[r.wds] := w;
    r.wds := r.wds + 1;
    assert r.x[..r.wds] == done + [w];
    ValueAppend(done, w);
  }

  /** A word times a factor plus a carry: it fits 64 bits, and the next carry is below the factor's bound. */
  function Times(w: Word, m: nat, carry: nat): (y: nat)
    requires m < 0x8000_0000 && carry < 0x8000_0000
    ensures y < WRAP && y / B < 0x8000_0000
    ensures y == w * m + carry
    ensures w != 0 && m > 0 ==> y > 0
  {
    MulMono(w, B - 1, m);
    if w > 0 then
      MulAtLeast(w, m);
      w * m + carry
    else carry
  }

  /** Bcopy. */
  method CopyWords(b: Bigint, r: Bigint)
    requires b.Valid() && r.Valid() && b.wds <= r.x.Length && b != r && b.x != r.x
    modifies r, r.x
    ensures r.Valid() && r.wds == b.wds && r.sign == b.sign
    ensures r.x[..r.wds] == b.x[..b.wds]
  {
    var i := 0;
    while i < b.wds
      invariant i <= b.wds && r.x[..i] == b.x[..i]
    {
      r.x[i] := b.x[i];
      i := i + 1;
    }
    r.wds, r.sign := b.wds, b.sign;
  }

  // ----- cmp -----

  /** The highest word that differs decides. */
  lemma HighestDifference(a: seq<Word>, b: seq<Word>, j: nat)
    requires j < |a| == |b| && a[j + 1..] == b[j + 1..] && a[j] < b[j]
    ensures Value(a) < Value(b)
  {
    hide Value, Pow;
    var al, bl := a[..j + 1], b[..j + 1];
    assert a == al + a[j + 1..] && b == bl + b[j + 1..];
    ValueConcat(al, a[j + 1..]);
    ValueConcat(bl, b[j + 1..]);
    ValueTop(al);
    ValueTop(bl);
    var x: int, y: int := a[j], b[j];
    MulMono(x + 1, y, Pow(B, j));
  }

  lemma LongerIsGreater(a: seq<Word>, b: seq<Word>)
    requires |a| < |b| && b[|b| - 1] != 0
    ensures Value(a) < Value(b)
  {
    hide Value;
    ValueBound(a);
    ValueTop(b);
    MulMono(1, b[|b| - 1], Pow(B, |b| - 1));
    PowGrows(|a|, |b| - 1);
  }

  lemma {:induction false} PowGrows(m: nat, n: nat)
    requires m <= n
    ensures Pow(B, m) <= Pow(B, n)
  {
    if m < n {
      PowGrows(m, n - 1);
      PowPositive(B, n - 1);
    }
  }

  /** Two numbers `cmp` can compare: of equal length, or the longer one has no leading zero. */
  ghost predicate Comparable(a: Bigint, b: Bigint)
    reads a, b, a.x, b.x
  {
    && a.Valid() && b.Valid()
    && (a.wds == b.wds ==> a.wds >= 1)
    && (a.wds > b.wds ==> a.x[a.wds - 1] != 0)
    && (b.wds > a.wds ==> b.x[b.wds - 1] != 0)
  }

  method Cmp(a: Bigint, b: Bigint) returns (i: int)
    requires Comparable(a, b)
    ensures i < 0 <==> a.Val() < b.Val()
    ensures i == 0 <==> a.Val() == b.Val()
    ensures a.wds == b.wds && i == 0 ==> a.Words() == b.Words()
  {
    hide Value;
    i := a.wds - b.wds;
    if i < 0 {
      LongerIsGreater(a.Words(), b.Words());
      return;
    }
    if i > 0 {
      LongerIsGreater(b.Words(), a.Words());
      return;
    }
    var j := a.wds;
    while true
      invariant 0 < j <= a.wds
      invariant a.Words()[j..] == b.Words()[j..]
      decreases j
    {
      j := j - 1;
      if a.x[j] != b.x[j] {
        if a.x[j] < b.x[j] {
          HighestDifference(a.Words(), b.Words(), j);
          return -1;
        }
        HighestDifference(b.Words(), a.Words(), j);
        return 1;
      }
      assert a.Words()[j..] == [a.x[j]] + a.Words()[j + 1..];
      assert b.Words()[j..] == [b.x[j]] + b.Words()[j + 1..];
      if j <= 0 {
        assert a.Words() == a.Words()[0..] && b.Words() == b.Words()[0..];
        return 0;
      }
    }
  }

  // ----- diff -----

  /** `done` and a borrow stand for the low words of `a`, minus `q` times the low words of `b`, up to a carry. */
  ghost predicate Subtracted(done: seq<Word>, owed: nat, a: seq<Word>, b: seq<Word>, q: nat) {
    && |done| <= |a| && |done| <= |b|
    && Value(done) + q * Value(b[..|done|]) == Value(a[..|done|]) + owed * Pow(B, |done|)
  }

  lemma SubtractedStart(a: seq<Word>, b: seq<Word>, q: nat)
    ensures Subtracted([], 0, a, b, q)
  {
  }

  /** One word of a multiply-and-subtract chain. */
  lemma SubtractStep(done: seq<Word>, a: seq<Word>, b: seq<Word>, q: nat, carry: nat, borrow: nat, ys: nat)
    requires Subtracted(done, carry + borrow, a, b, q) && |done| < |a| && |done| < |b|
    requires borrow <= 1 && ys == b[|done|] * q + carry
    ensures var (d, owed) := Borrowed(a[|done|], ys % B, borrow);
            Subtracted(done + [d], ys / B + owed, a, b, q)
  {
    hide Value, Pow;
    var i := |done|;
    var (d, owed) := Borrowed(a[i], ys % B, borrow);
    SplitWord(ys);
    ValueNext(a, i);
    ValueNext(b, i);
    ValueAppend(done, d);
    PowNext(B, i);
    SubtractAlgebra(Value(done), Value(b[..i]), Value(a[..i]), q, Pow(B, i), d, b[i], a[i], carry + borrow, ys / B + owed);
  }

  lemma SubtractAlgebra(v: int, vb: int, va: int, q: int, p: int, d: int, y: int, x: int, c: int, c1: int)
    requires v + q * vb == va + c * p
    requires d + y * q + c == x + B * c1
    ensures (v + d * p) + q * (vb + y * p) == (va + x * p) + c1 * (B * p)
  {
    assert (d + y * q + c) * p == (x + B * c1) * p;
    assert q * (vb + y * p) == q * vb + y * q * p;
    assert (d + y * q + c) * p == d * p + y * q * p + c * p;
    assert (x + B * c1) * p == x * p + c1 * (B * p);
  }

  /** When the whole difference is not negative, nothing is owed at the end. */
  lemma SubtractedEnd(done: seq<Word>, owed: nat, a: seq<Word>, b: seq<Word>, q: nat)
    requires Subtracted(done, owed, a, b, q) && |done| == |a| == |b| && q * Value(b) <= Value(a)
    ensures owed == 0 && Value(done) == Value(a) - q * Value(b)
  {
    hide Value, Pow;
    assert a[..|a|] == a && b[..|b|] == b;
    ValueBound(done);
    if owed > 0 { MulAtLeast(owed, Pow(B, |done|)); }
  }

  /** Leading zero words do not count. */
  function Padded(b: seq<Word>, n: nat): (r: seq<Word>)
    requires |b| <= n
    ensures |r| == n && r[..|b|] == b && forall i :: |b| <= i < n ==> r[i] == 0
  {
    b + seq(n - |b|, _ => 0)
  }

  lemma PaddedValue(b: seq<Word>, n: nat)
    requires |b| <= n
    ensures Value(Padded(b, n)) == Value(b)
  {
    ValueZeros(Padded(b, n), |b|);
  }

  lemma ZeroTail(x: seq<Word>, n: nat, m: nat)
    requires n <= m <= |x| && forall i :: n <= i < m ==> x[i] == 0
    ensures Value(x[..n]) == Value(x[..m])
  {
    ValueZeros(x[..m], n);
    assert x[..m][..n] == x[..n];
  }

  /** The words of `a - b`, for `a` the greater. */
  method SubtractWords(a: Bigint, b: Bigint, c: Bigint)
    requires a.Valid() && b.Valid() && c.Valid() && 1 <= b.wds <= a.wds <= c.x.Length
    requires c.x != a.x && c.x != b.x && c != a && c != b && a.Val() >= b.Val()
    modifies c.x
    ensures Value(c.x[..a.wds]) == a.Val() - b.Val()
  {
    hide Value, Subtracted, Borrowed;
    ghost var va, vb := a.Words(), Padded(b.Words(), a.wds);
    PaddedValue(b.Words(), a.wds);
    SubtractedStart(va, vb, 1);
    assert c.x[..0] == [];
    var i, borrow := 0, 0;
    while i < b.wds
      invariant i <= b.wds && borrow <= 1
      invariant Subtracted(c.x[..i], borrow, va, vb, 1)
    {
      ghost var done := c.x[..i];
      SubtractStep(done, va, vb, 1, 0, borrow, vb[i]);
      assert vb[i] == b.x[i] by { assert vb[..b.wds][i] == b.x[i]; }
      var (d, owed) := Borrowed(a.x[i], b.x[i], borrow);
      c.x[i], borrow := d, owed;
      assert c.x[..i + 1] == done + [d];
      i := i + 1;
    }
    while i < a.wds
      invariant b.wds <= i <= a.wds && borrow <= 1
      invariant Subtracted(c.x[..i], borrow, va, vb, 1)
    {
      ghost var done := c.x[..i];
      SubtractStep(done, va, vb, 1, 0, borrow, 0);
      var (d, owed) := Borrowed(a.x[i], 0, borrow);
      c.x[i], borrow := d, owed;
      assert c.x[..i + 1] == done + [d];
      i := i + 1;
    }
    SubtractedEnd(c.x[..i], borrow, va, vb, 1);
  }

  /** `|a - b|` without leading zero words, and the sign of `a - b`. */
  method Diff(a: Bigint, b: Bigint) returns (c: Bigint)
    requires a.Valid() && b.Valid() && a.Normal() && b.Normal() && a.wds >= 1 && b.wds >= 1
    ensures fresh(c) && fresh(c.x) && c.Valid() && c.wds >= 1 && c.Normal()
    ensures a.Val() >= b.Val() ==> c.sign == 0 && c.Val() == a.Val() - b.Val()
    ensures a.Val() < b.Val() ==> c.sign == 1 && c.Val() == b.Val() - a.Val()
  {
    hide Value;
    var i := Cmp(a, b);
    if i == 0 {
      c := new Bigint.Balloc(0);
      c.x[0] := 0;
      c.wds := 1;
      ValueOne(c.x[..1]);
      return;
    }
    var big, small, sign := a, b, 0;
    if i < 0 {
      big, small, sign := b, a, 1;
    }
    if big.wds < small.wds { LongerIsGreater(big.Words(), small.Words()); }
    c := new Bigint.Balloc(big.k);
    c.sign := sign;
    var wa := big.wds;
    SubtractWords(big, small, c);
    wa := DropZeros(c.x, wa);
    c.wds := wa;
  }

  /** Leave out the leading zero words of a number that is not zero. */
  method DropZeros(x: array<Word>, wds: nat) returns (wa: nat)
    requires wds <= x.Length && Value(x[..wds]) > 0
    ensures 0 < wa <= wds && x[wa - 1] != 0
    ensures Value(x[..wa]) == Value(x[..wds])
  {
    hide Value;
    wa := wds;
    NonZero(x[..wa]);
    while x[wa - 1] == 0
      invariant 0 < wa <= wds && Value(x[..wa]) == Value(x[..wds])
      decreases wa
    {
      ZeroTail(x[..], wa - 1, wa);
      assert x[..][..wa - 1] == x[..wa - 1] && x[..][..wa] == x[..wa];
      NonZero(x[..wa - 1]);
      wa := wa - 1;
    }
  }

  lemma NonZero(s: seq<Word>)
    ensures Value(s) > 0 ==> s != []
  {
  }

  lemma ValueOne(s: seq<Word>)
    requires |s| == 1
    ensures Value(s) == s[0]
  {
    assert s[..0] == [];
  }
}
