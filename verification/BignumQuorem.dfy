/**
  `quorem`: one quotient digit and the remainder, from an estimate with the top words that is at
  most one too small.
 */
module BignumQuorem {
  import opened Bignum
  import opened BignumOps

  lemma DivUnique(v: nat, d: nat, q: nat, r: nat)
    requires d > 0 && v == q * d + r && r < d
    ensures q == v / d && r == v % d
  {
    var q1, r1 := v / d, v % d;
    assert v == q1 * d + r1;
    if q < q1 { MulMono(q + 1, q1, d); }
    if q1 < q { MulMono(q1 + 1, q, d); }
  }

  /** The estimate: the top word over one more than the divisor's top word. */
  function Estimate(t: nat, s: nat): nat {
    t / (s + 1)
  }

  /** The estimate is never too large. */
  lemma EstimateNotTooLarge(b: nat, d: nat, t: nat, s: nat, w: nat)
    requires t * w <= b && d < (s + 1) * w
    ensures Estimate(t, s) * d <= b
  {
    var q := Estimate(t, s);
    assert q * (s + 1) <= t;
    MulMono(q * (s + 1), t, w);
    MulAssoc(q, s + 1, w);
    assert d * q <= ((s + 1) * w) * q by { MulMono(d, (s + 1) * w, q); }
  }

  /** The estimate is at most one too small while it is less than the divisor's top word. */
  lemma EstimateNearlyEnough(b: nat, d: nat, t: nat, s: nat, w: nat)
    requires b < (t + 1) * w && s * w <= d && Estimate(t, s) < s
    ensures b < (Estimate(t, s) + 2) * d
  {
    var q := Estimate(t, s);
    assert t < (q + 1) * (s + 1);
    assert t + 1 <= (q + 1) * (s + 1) == q * s + q + s + 1 <= q * s + 2 * s == (q + 2) * s;
    MulMono(t + 1, (q + 2) * s, w);
    MulAssoc(q + 2, s, w);
    assert (s * w) * (q + 2) <= d * (q + 2) by { MulMono(s * w, d, q + 2); }
  }

  ghost predicate Fits(q: nat, d: nat, v: nat) {
    q * d <= v
  }

  ghost predicate Leaves(v: nat, q: nat, d: nat, r: nat) {
    v == q * d + r
  }

  ghost predicate NearlyFits(v: nat, q: nat, d: nat) {
    v < (q + 2) * d
  }

  /** `b - q * S`, word by word in place; the source's second loop is the case of `q` one. */
  method SubtractMultiple(b: Bigint, S: Bigint, q: nat)
    requires b.Valid() && S.Valid() && b.wds == S.wds && b.x != S.x && b != S
    requires q < 0x8000_0000 && Fits(q, S.Val(), b.Val())
    modifies b.x
    ensures Leaves(old(b.Val()), q, S.Val(), b.Val())
  {
    hide Value, Subtracted, Borrowed;
    ghost var vb, vs := b.Words(), S.Words();
    SubtractedStart(vb, vs, q);
    assert b.x[..0] == [];
    var i: nat, borrow: nat, carry: nat := 0, 0, 0;
    while i < S.wds
      invariant i <= S.wds && borrow <= 1 && carry < 0x8000_0000
      invariant Subtracted(b.x[..i], carry + borrow, vb, vs, q)
      invariant forall j :: i <= j < S.wds ==> b.x[j] == vb[j]
    {
      ghost var done := b.x[..i];
      var ys := Times(S.x[i], q, carry);
      SubtractStep(done, vb, vs, q, carry, borrow, ys);
      carry := ys / B;
      var (d, owed) := Borrowed(b.x[i], ys % B, borrow);
      b.x[i], borrow := d, owed;
      assert b.x[..i + 1] == done + [d];
      i := i + 1;
    }
    SubtractedEnd(b.x[..i], carry + borrow, vb, vs, q);
  }

  /** Leave out leading zero words; `n` is the index of the top word. */
  method Trim(b: Bigint, n: nat)
    requires b.Valid() && b.wds == n + 1
    modifies b`wds
    ensures b.Valid() && b.wds <= n + 1 && b.Val() == old(b.Val())
    ensures b.Normal()
    ensures b.wds == n + 1 || b.x[n] == 0
    ensures b.wds == 0 ==> b.x[0] == 0
  {
    hide Value;
    if b.x[n] == 0 {
      var m := n;
      while m > 1 && b.x[m - 1] == 0
        invariant m <= n && forall j :: m <= j <= n ==> b.x[j] == 0
      {
        m := m - 1;
      }
      ZeroTail(b.x[..], m, n + 1);
      assert b.x[..][..m] == b.x[..m] && b.x[..][..n + 1] == b.x[..n + 1];
      b.wds := m;
    }
  }

  /** What makes one correction enough, and the divisor of the estimate a 32-bit word. */
  ghost predicate Divisible(b: Bigint, S: Bigint)
    reads b, S, b.x, S.x
  {
    && b.Valid() && S.Valid() && b != S && b.x != S.x
    && 1 <= S.wds && 0 < S.x[S.wds - 1] < B - 1 && b.wds <= S.wds
    && (b.wds == S.wds ==> Estimate(b.x[b.wds - 1], S.x[S.wds - 1]) < S.x[S.wds - 1])
  }

  method Quorem(b: Bigint, S: Bigint) returns (q: nat)
    requires Divisible(b, S) && b.Normal()
    modifies b, b.x
    ensures b.Valid() && b.Normal() && b.wds <= S.wds
    ensures old(b.wds) >= 1 ==> b.x.Length >= 1 && (b.wds == 0 ==> b.x[0] == 0)
    ensures S.Val() > 0 && q == old(b.Val()) / S.Val() && b.Val() == old(b.Val()) % S.Val()
  {
    hide Value, Estimate, Fits, Leaves, NearlyFits;
    var n := S.wds;
    ghost var v, d := b.Val(), S.Val();
    DivisorPositive(S.Words());
    if b.wds < n {
      LongerIsGreater(b.Words(), S.Words());
      DivUnique(v, d, 0, v);
      return 0;
    }
    n := n - 1;
    EstimateBounds(b.Words(), S.Words());
    q := b.x[n] / (S.x[n] + 1);
    EstimateSmall(b.x[n], S.x[n], q);
    if q != 0 {
      SubtractMultiple(b, S, q);
      Trim(b, n);
    } else {
      OneOrNone(v, d);
    }
    ghost var q0, r := q, b.Val();
    var c := Cmp(b, S);
    if c >= 0 {
      if b.wds < S.wds { LongerIsGreater(b.Words(), S.Words()); }
      q := q + 1;
      OneOrNone(r, d);
      SubtractMultiple(b, S, 1);
      Trim(b, n);
    }
    Corrected(v, d, q0, r, b.Val());
  }

  lemma DivisorPositive(s: seq<Word>)
    requires s != [] && s[|s| - 1] != 0
    ensures Value(s) > 0
  {
    PowPositive(B, |s| - 1);
    MulAtLeast(s[|s| - 1], Pow(B, |s| - 1));
  }

  lemma EstimateBounds(b: seq<Word>, s: seq<Word>)
    requires |b| == |s| > 0 && Estimate(b[|b| - 1], s[|s| - 1]) < s[|s| - 1]
    ensures var q := Estimate(b[|b| - 1], s[|s| - 1]); Fits(q, Value(s), Value(b)) && NearlyFits(Value(b), q, Value(s))
  {
    hide Value, Pow, Estimate;
    var n := |b| - 1;
    ValueTop(b);
    ValueTop(s);
    EstimateNotTooLarge(Value(b), Value(s), b[n], s[n], Pow(B, n));
    EstimateNearlyEnough(Value(b), Value(s), b[n], s[n], Pow(B, n));
  }

  lemma EstimateSmall(t: Word, s: Word, q: nat)
    requires s > 0 && q == t / (s + 1)
    ensures q < 0x8000_0000 && q == Estimate(t, s)
  {
    assert q * (s + 1) <= t;
    MulMono(2, s + 1, q);
  }

  lemma OneOrNone(v: nat, d: nat)
    ensures Leaves(v, 0, d, v)
    ensures d <= v ==> Fits(1, d, v)
  {
  }

  /** One correction is enough. */
  lemma Corrected(v: nat, d: nat, q: nat, r: nat, r1: nat)
    requires d > 0 && Leaves(v, q, d, r) && NearlyFits(v, q, d)
    ensures r >= d && Leaves(r, 1, d, r1) ==> v / d == q + 1 && v % d == r1
    ensures r < d ==> v / d == q && v % d == r
  {
    assert (q + 2) * d == q * d + 2 * d;
    if r >= d {
      assert (q + 1) * d == q * d + d;
      DivUnique(v, d, q + 1, r - d);
    } else {
      DivUnique(v, d, q, r);
    }
  }
}
