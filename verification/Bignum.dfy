/**
  Word arrays read as natural numbers: 32-bit words, least significant first.
 */
module Bignum {

  const B: int := 0x1_0000_0000
  const WRAP: int := 0x1_0000_0000_0000_0000

  type Word = x: nat | x < B

  function Pow(b: nat, n: nat): nat {
    if n == 0 then 1 else b * Pow(b, n - 1)
  }

  function Value(s: seq<Word>): nat {
    if s == [] then 0 else Value(s[..|s| - 1]) + s[|s| - 1] * Pow(B, |s| - 1)
  }

  lemma {:induction false} PowPositive(b: nat, n: nat)
    requires b > 0
    ensures Pow(b, n) > 0
  {
    if n > 0 {
      PowPositive(b, n - 1);
      assert Pow(b, n) >= Pow(b, n - 1) by { MulAtLeast(b, Pow(b, n - 1)); }
    }
  }

  lemma PowNext(b: nat, n: nat)
    ensures Pow(b, n + 1) == b * Pow(b, n)
  {
  }

  lemma MulAtLeast(a: nat, b: nat)
    requires a > 0
    ensures a * b >= b
  {
    assert a * b == (a - 1) * b + b;
    MulNat(a - 1, b);
  }

  lemma MulNat(a: nat, b: nat)
    ensures a * b >= 0
  {
  }

  lemma MulMono(a: int, b: int, c: nat)
    requires a <= b
    ensures a * c <= b * c
  {
    assert (b - a) * c == b * c - a * c;
    MulNat(b - a, c);
  }

  lemma {:induction false} PowAdd(b: nat, m: nat, n: nat)
    ensures Pow(b, m + n) == Pow(b, m) * Pow(b, n)
  {
    if m > 0 {
      PowAdd(b, m - 1, n);
      MulAssoc(b, Pow(b, m - 1), Pow(b, n));
    }
  }

  lemma MulAssoc(a: int, b: int, c: int)
    ensures a * b * c == a * (b * c)
  {
  }

  lemma {:induction false} PowMul(b: nat, m: nat, n: nat)
    ensures Pow(Pow(b, m), n) == Pow(b, m * n)
  {
    if n > 0 {
      PowMul(b, m, n - 1);
      PowAdd(b, m, m * (n - 1));
      assert m + m * (n - 1) == m * n;
    }
  }

  lemma ValueNext(x: seq<Word>, i: nat)
    requires i < |x|
    ensures Value(x[..i + 1]) == Value(x[..i]) + x[i] * Pow(B, i)
  {
    assert x[..i + 1][..i] == x[..i];
  }

  lemma ValueAppend(s: seq<Word>, w: Word)
    ensures Value(s + [w]) == Value(s) + w * Pow(B, |s|)
  {
    assert (s + [w])[..|s|] == s;
  }

  lemma TopBound(v: nat, top: Word, p: nat)
    requires v < p
    ensures v + top * p < B * p
  {
    var t: int := top;
    assert (t + 1) * p == t * p + p;
    MulMono(t + 1, B, p);
  }

  lemma {:induction false} ValueBound(s: seq<Word>)
    ensures Value(s) < Pow(B, |s|)
  {
    if s != [] {
      var n := |s| - 1;
      ValueBound(s[..n]);
      TopBound(Value(s[..n]), s[n], Pow(B, n));
    }
  }

  /** The words below the top contribute less than one unit of the top word. */
  lemma ValueTop(s: seq<Word>)
    requires s != []
    ensures var n := |s| - 1; s[n] * Pow(B, n) <= Value(s) < (s[n] + 1) * Pow(B, n)
  {
    ValueBound(s[..|s| - 1]);
  }

  lemma {:induction false} ValueZeros(x: seq<Word>, n: nat)
    requires n <= |x| && forall i :: n <= i < |x| ==> x[i] == 0
    ensures Value(x) == Value(x[..n])
    decreases |x|
  {
    if n == |x| {
      assert x[..n] == x;
    } else {
      ValueZeros(x[..|x| - 1], n);
      assert x[..|x| - 1][..n] == x[..n];
    }
  }

  lemma {:induction false} ValueConcat(s: seq<Word>, t: seq<Word>)
    ensures Value(s + t) == Value(s) + Pow(B, |s|) * Value(t)
  {
    if t == [] {
      assert s + t == s;
    } else {
      var n := |t| - 1;
      ValueConcat(s, t[..n]);
      assert (s + t)[..|s| + n] == s + t[..n];
      PowAdd(B, |s|, n);
      Distribute(Pow(B, |s|), Value(t[..n]), t[n], Pow(B, n));
    }
  }

  lemma Distribute(a: int, b: int, c: int, d: int)
    ensures a * (b + c * d) == a * b + c * (a * d)
  {
    assert a * (c * d) == c * (a * d);
  }

  // ----- one word of a carry or borrow chain -----

  lemma SplitWord(y: nat)
    ensures y == y % B + B * (y / B)
  {
  }

  /** `y = x - y - borrow` in 64 unsigned bits: the low word is the digit and bit 32 the borrow. */
  function Borrowed(x: Word, y: Word, borrow: nat): (r: (Word, nat))
    requires borrow <= 1
    ensures r.1 <= 1 && x - y - borrow == r.0 - B * r.1
  {
    var d := (x - y - borrow) % WRAP;
    LowWord(x - y - borrow, d);
    (d % B, d / B % 2)
  }

  lemma LowWord(e: int, d: nat)
    requires -B <= e < B && d == e % WRAP
    ensures d % B == (if e < 0 then e + B else e) && d / B % 2 == if e < 0 then 1 else 0
  {
    if e < 0 {
      assert d == e + WRAP;
      assert d == (B - 1) * B + (e + B);
      assert d / B == B - 1;
    }
  }

  /** Extending a digit-by-digit equation by one place. */
  lemma CarryStep(v: int, c: int, p: int, rest: int, x: int, c1: int, d: int)
    requires v + c * p == rest && x + c == d + B * c1
    ensures v + d * p + c1 * (B * p) == rest + x * p
  {
    assert (x + c) * p == (d + B * c1) * p;
    assert (d + B * c1) * p == d * p + c1 * (B * p);
    assert (x + c) * p == x * p + c * p;
  }
}
