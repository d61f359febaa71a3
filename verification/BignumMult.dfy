/**
  Multiplication of word arrays, row by row, and the chain of powers of five.
 */
module BignumMult {
  import opened Bignum
  import opened BignumOps

  /** `done` and a carry stand for the low words of `c` plus `y * a`, moved up `j` words. */
  ghost predicate RowDone(done: seq<Word>, carry: nat, c: seq<Word>, a: seq<Word>, y: nat, j: nat, i: nat) {
    && i <= |a| && |done| == j + i <= |c|
    && Value(done) + carry * Pow(B, j + i) == Value(c[..j + i]) + y * Value(a[..i]) * Pow(B, j)
  }

  lemma RowStart(done: seq<Word>, c: seq<Word>, a: seq<Word>, y: nat, j: nat)
    requires j <= |c| && done == c[..j]
    ensures RowDone(done, 0, c, a, y, j, 0)
  {
    assert a[..0] == [];
  }

  /** A product of two words plus two words fits 64 bits. */
  function TimesPlus(x: Word, y: Word, c: Word, carry: Word): (z: nat)
    ensures z < WRAP && z / B < B
    ensures z == x * y + c + carry
  {
    MulMono(x, B - 1, y);
    MulMono(y, B - 1, B - 1);
    MulNat(x, y);
    x * y + c + carry
  }

  lemma RowStep(done: seq<Word>, carry: nat, c: seq<Word>, a: seq<Word>, y: nat, j: nat, i: nat, z: nat)
    requires RowDone(done, carry, c, a, y, j, i) && i < |a| && j + i < |c|
    requires z == a[i] * y + c[j + i] + carry
    ensures RowDone(done + [z % B], z / B, c, a, y, j, i + 1)
  {
    hide Value, Pow;
    var p, d := Pow(B, j + i), z % B;
    SplitWord(z);
    ValueNext(c, j + i);
    ValueNext(a, i);
    ValueAppend(done, d);
    PowNext(B, j + i);
    PowAdd(B, j, i);
    RowAlgebra(Value(a[..i]), a[i], y, Pow(B, i), Pow(B, j), c[j + i]);
    CarryStep(Value(done), carry, p, Value(c[..j + i]) + y * Value(a[..i]) * Pow(B, j), a[i] * y + c[j + i], z / B, d);
  }

  lemma RowAlgebra(va: int, x: int, y: int, pi: int, pj: int, c: int)
    ensures y * (va + x * pi) * pj == y * va * pj + x * y * (pj * pi)
    ensures (x * y + c) * (pj * pi) == x * y * (pj * pi) + c * (pj * pi)
  {
    assert y * (va + x * pi) == y * va + x * y * pi;
    assert (y * va + x * y * pi) * pj == y * va * pj + x * y * pi * pj;
    assert x * y * pi * pj == x * y * (pj * pi);
  }

  /** One row: `y * a` is added `j` words up; the word above the row, which was zero, takes the carry. */
  method MulRow(a: Bigint, y: Word, c: array<Word>, j: nat)
    requires a.Valid() && a.x != c && j + a.wds < c.Length && c[j + a.wds] == 0
    modifies c
    ensures forall k :: j + a.wds < k < c.Length ==> c[k] == old(c[k])
    ensures Value(c[..j + a.wds + 1]) == old(Value(c[..j + a.wds])) + y * a.Val() * Pow(B, j)
  {
    hide Value, RowDone, Pow;
    ghost var c0, va := c[..], a.Words();
    RowStart(c[..j], c0, va, y, j);
    var i: nat, carry: Word := 0, 0;
    while i < a.wds
      invariant i <= a.wds
      invariant RowDone(c[..j + i], carry, c0, va, y, j, i)
      invariant forall k :: j + i <= k < c.Length ==> c[k] == c0[k]
    {
      ghost var done := c[..j + i];
      var z := TimesPlus(a.x[i], y, c[j + i], carry);
      RowStep(done, carry, c0, va, y, j, i, z);
      carry := z / B;
      c[j + i] := z % B;
      assert c[..j + i + 1] == done + [z % B];
      i := i + 1;
    }
    ghost var done := c[..j + i];
    c[j + i] := carry;
    assert c[..j + i + 1] == done + [carry];
    ValueAppend(done, carry);
    RowEnd(done, carry, c0, va, y, j);
  }

  lemma RowEnd(done: seq<Word>, carry: nat, c: seq<Word>, a: seq<Word>, y: nat, j: nat)
    requires RowDone(done, carry, c, a, y, j, |a|)
    ensures Value(done) + carry * Pow(B, j + |a|) == Value(c[..j + |a|]) + y * Value(a) * Pow(B, j)
  {
    assert a[..|a|] == a;
  }

  /** The rows so far make `a` times the low words of `b`. */
  ghost predicate Product(c: seq<Word>, a: seq<Word>, b: seq<Word>, j: nat) {
    && j <= |b| && j + |a| <= |c|
    && Value(c[..j + |a|]) == Value(a) * Value(b[..j])
    && forall k :: j + |a| <= k < |c| ==> c[k] == 0
  }

  lemma ProductNext(c: seq<Word>, c1: seq<Word>, a: seq<Word>, b: seq<Word>, j: nat)
    requires Product(c, a, b, j) && j < |b| && j + |a| < |c| == |c1|
    requires Value(c1[..j + |a| + 1]) == Value(c[..j + |a|]) + b[j] * Value(a) * Pow(B, j)
    requires forall k :: j + |a| < k < |c| ==> c1[k] == 0
    ensures Product(c1, a, b, j + 1)
  {
    hide Value, Pow;
    ValueNext(b, j);
    assert Value(a) * (Value(b[..j]) + b[j] * Pow(B, j)) == Value(a) * Value(b[..j]) + b[j] * Value(a) * Pow(B, j);
  }

  lemma ProductSkip(c: seq<Word>, a: seq<Word>, b: seq<Word>, j: nat)
    requires Product(c, a, b, j) && j < |b| && j + |a| < |c| && b[j] == 0
    ensures Product(c, a, b, j + 1)
  {
    hide Value;
    ValueNext(c, j + |a|);
    ValueNext(b, j);
  }

  /** `a * b`, without leading zero words. */
  method Mult(a0: Bigint, b0: Bigint) returns (c: Bigint)
    requires a0.Valid() && b0.Valid() && a0.wds >= 1 && b0.wds >= 1
    ensures fresh(c) && fresh(c.x) && c.Valid()
    ensures c.Val() == a0.Val() * b0.Val()
    ensures c.wds > 0 ==> c.x[c.wds - 1] != 0
  {
    hide Value, Product, Pow;
    var a, b := a0, b0;
    if a.wds < b.wds {
      a, b := b, a;
    }
    var k := a.k;
    var wc := a.wds + b.wds;
    if wc > a.x.Length {
      k := k + 1;
    }
    PowNext(2, a.k);
    c := new Bigint.Balloc(k);
    var i := 0;
    while i < wc
      invariant i <= wc && forall h :: 0 <= h < i ==> c.x[h] == 0
      invariant c.wds == 0
    {
      c.x[i] := 0;
      i := i + 1;
    }
    c.wds := wc;
    FillRows(a, b, c);
    MulCommutes(a0.Val(), b0.Val());
    TrimProduct(c);
  }

  lemma MulCommutes(a: int, b: int)
    ensures a * b == b * a
  {
  }

  method FillRows(a: Bigint, b: Bigint, c: Bigint)
    requires a.Valid() && b.Valid() && c.Valid() && c.wds == a.wds + b.wds && c.x != a.x && c.x != b.x
    requires forall h :: 0 <= h < c.wds ==> c.x[h] == 0
    modifies c.x
    ensures c.Val() == a.Val() * b.Val()
  {
    hide Value, Product, Pow;
    ghost var va, vb := a.Words(), b.Words();
    ProductStart(c.Words(), va, vb);
    var j := 0;
    while j < b.wds
      invariant j <= b.wds
      invariant Product(c.Words(), va, vb, j)
    {
      ghost var cs := c.Words();
      ProductZero(cs, va, vb, j);
      var y := b.x[j];
      if y != 0 {
        assert c.x[..j + a.wds] == cs[..j + a.wds];
        MulRow(a, y, c.x, j);
        assert c.x[..j + a.wds + 1] == c.Words()[..j + a.wds + 1];
        ProductNext(cs, c.Words(), va, vb, j);
      } else {
        ProductSkip(cs, va, vb, j);
      }
      j := j + 1;
    }
    ProductEnd(c.Words(), va, vb);
  }

  lemma ProductZero(c: seq<Word>, a: seq<Word>, b: seq<Word>, j: nat)
    requires Product(c, a, b, j)
    ensures forall k :: j + |a| <= k < |c| ==> c[k] == 0
  {
  }

  lemma ProductStart(c: seq<Word>, a: seq<Word>, b: seq<Word>)
    requires |a| <= |c| && forall k :: 0 <= k < |c| ==> c[k] == 0
    ensures Product(c, a, b, 0)
  {
    ValueZeros(c[..|a|], 0);
    assert c[..|a|][..0] == [] == b[..0];
  }

  lemma ProductEnd(c: seq<Word>, a: seq<Word>, b: seq<Word>)
    requires Product(c, a, b, |b|) && |c| == |a| + |b|
    ensures Value(c) == Value(a) * Value(b)
  {
    hide Value;
    assert c[..|b| + |a|] == c;
    assert b[..|b|] == b;
  }

  method TrimProduct(c: Bigint)
    requires c.Valid()
    modifies c`wds
    ensures c.Valid() && c.Val() == old(c.Val())
    ensures c.wds > 0 ==> c.x[c.wds - 1] != 0
  {
    hide Value;
    var wc: nat := c.wds;
    while wc > 0 && c.x[wc - 1] == 0
      invariant 0 <= wc <= c.wds && forall j :: wc <= j < c.wds ==> c.x[j] == 0
    {
      wc := wc - 1;
    }
    ZeroTail(c.x[..], wc, c.wds);
    assert c.x[..][..wc] == c.x[..wc] && c.x[..][..c.wds] == c.x[..c.wds];
    c.wds := wc;
  }
}
