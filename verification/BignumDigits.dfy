/**
  Decimal digits into a Bigint, and a quotient of two Bigints into correctly rounded decimal digits.
 */
module BignumDigits {
  import opened Bignum
  import opened BignumOps
  import opened BignumShift
  import opened BignumQuorem
  import opened BignumDecimal

  function Decimal(ds: seq<nat>): nat {
    if ds == [] then 0 else 10 * Decimal(ds[..|ds| - 1]) + ds[|ds| - 1]
  }

  lemma DecimalAppend(ds: seq<nat>, q: nat)
    ensures Decimal(ds + [q]) == 10 * Decimal(ds) + q
  {
    assert (ds + [q])[..|ds|] == ds;
  }

  // ----- s2b -----

  predicate IsDigit(c: char) {
    '0' <= c <= '9'
  }

  /** The place of digit `i` in a text with `nd0` digits before a decimal point of `dplen` characters. */
  function Place(i: nat, nd0: nat, dplen: nat): nat {
    if i < nd0 then i else i + dplen
  }

  predicate Readable(s: string, nd0: nat, nd: nat, dplen: nat) {
    forall i: nat :: i < nd ==> Place(i, nd0, dplen) < |s| && IsDigit(s[Place(i, nd0, dplen)])
  }

  function DigitsOf(s: string, nd0: nat, nd: nat, dplen: nat): (ds: seq<nat>)
    requires Readable(s, nd0, nd, dplen)
    ensures |ds| == nd
  {
    seq(nd, i requires 0 <= i < nd => (s[Place(i, nd0, dplen)] - '0') as nat)
  }

  lemma {:induction false} DecimalBound(ds: seq<nat>)
    requires forall i :: 0 <= i < |ds| ==> ds[i] <= 9
    ensures Decimal(ds) < Pow(10, |ds|)
  {
    if ds != [] {
      var n := |ds| - 1;
      DecimalBound(ds[..n]);
      PowNext(10, n);
    }
  }

  /** Nine digits fit a word. */
  lemma {:induction false} DigitsFit(n: nat, x: nat)
    requires n <= 9 * x
    ensures Pow(10, n) <= Pow(B, x)
    decreases n
  {
    if n <= 9 {
      if n > 0 {
        SmallPower(n);
        PowPositive(B, x - 1);
        PowNext(B, x - 1);
        MulAtLeast(Pow(B, x - 1), B);
      } else {
        PowPositive(B, x);
      }
    } else {
      DigitsFit(n - 9, x - 1);
      NineMore(n - 9);
      PowNext(B, x - 1);
      MulMono(Pow(10, n - 9), Pow(B, x - 1), 1_000_000_000);
      MulMono(1_000_000_000, B, Pow(B, x - 1));
    }
  }

  lemma SmallPower(n: nat)
    requires n <= 9
    ensures Pow(10, n) <= 1_000_000_000
  {
    assert Pow(10, 1) == 10;
    assert Pow(10, 2) == 100;
    assert Pow(10, 3) == 1000;
    assert Pow(10, 4) == 10000;
    assert Pow(10, 5) == 100000;
    assert Pow(10, 6) == 1000000;
    assert Pow(10, 7) == 10000000;
    assert Pow(10, 8) == 100000000;
  }

  lemma NineMore(n: nat)
    ensures Pow(10, n + 9) == 1_000_000_000 * Pow(10, n)
  {
    PowNext(10, n);
    PowNext(10, n + 1);
    PowNext(10, n + 2);
    PowNext(10, n + 3);
    PowNext(10, n + 4);
    PowNext(10, n + 5);
    PowNext(10, n + 6);
    PowNext(10, n + 7);
    PowNext(10, n + 8);
  }

  lemma {:induction false} PowMore(b: nat, m: nat, n: nat)
    requires b > 0 && m <= n
    ensures Pow(b, m) <= Pow(b, n)
    decreases n
  {
    if m < n {
      PowMore(b, m, n - 1);
      PowNext(b, n - 1);
      PowPositive(b, n - 1);
      MulAtLeast(b, Pow(b, n - 1));
    }
  }

  /** `2^k` is the least power of two that is enough words for `nd` digits. */
  predicate RoomFor(nd: nat, k: nat) {
    var x := (nd + 8) / 9;
    Pow(2, k) >= x && (k > 0 ==> Pow(2, k - 1) < x)
  }

  method SizeFor(nd: nat) returns (k: nat)
    ensures RoomFor(nd, k)
  {
    hide Pow;
    var x := (nd + 8) / 9;
    k := 0;
    var y := 1;
    PowZero();
    while x > y
      invariant y == Pow(2, k) && y >= 1 && (k > 0 ==> Pow(2, k - 1) < x)
      decreases x - y
    {
      PowNext(2, k);
      y, k := 2 * y, k + 1;
    }
  }

  lemma PowZero()
    ensures Pow(2, 0) == 1
  {
  }

  /** The first `i` of `nd` digits fit the room for all. */
  lemma PrefixFits(ds: seq<nat>, i: nat, k: nat)
    requires (forall j :: 0 <= j < |ds| ==> ds[j] <= 9) && i <= |ds| && RoomFor(|ds|, k)
    ensures Decimal(ds[..i]) < Pow(B, Pow(2, k))
  {
    hide Pow, Decimal;
    DecimalBound(ds[..i]);
    DigitsFit(i, (|ds| + 8) / 9);
    PowMore(B, (|ds| + 8) / 9, Pow(2, k));
  }

  lemma NextDigit(ds: seq<nat>, i: nat, k: nat)
    requires (forall j :: 0 <= j < |ds| ==> ds[j] <= 9) && i < |ds| && RoomFor(|ds|, k)
    ensures Decimal(ds[..i + 1]) == Decimal(ds[..i]) * 10 + ds[i] < Pow(B, Pow(2, k))
  {
    hide Pow, Decimal, RoomFor;
    assert ds[..i + 1] == ds[..i] + [ds[i]];
    DecimalAppend(ds[..i], ds[i]);
    PrefixFits(ds, i + 1, k);
  }

  /** The digits beyond the first nine, whose value is given, are multiplied in one by one, in the room made at the start. */
  method S2b(s: string, nd0: nat, nd: nat, y9: Word, dplen: nat) returns (b: Bigint)
    requires Readable(s, nd0, nd, dplen) && nd0 <= nd
    requires y9 == Decimal(DigitsOf(s, nd0, nd, dplen)[..if nd < 9 then nd else 9])
    ensures fresh(b) && fresh(b.x) && b.Valid() && b.Val() == Decimal(DigitsOf(s, nd0, nd, dplen))
    ensures RoomFor(nd, b.k)
  {
    hide Value, Decimal, RoomFor, Pow;
    ghost var ds := DigitsOf(s, nd0, nd, dplen);
    assert forall j :: 0 <= j < nd ==> IsDigit(s[Place(j, nd0, dplen)]);
    var k := SizeFor(nd);
    b := WithWord(k, y9);
    var i, at := 9, 9;
    if 9 < nd0 {
      while i < nd0
        invariant 9 <= i <= nd0 && at == i
        invariant fresh(b) && fresh(b.x) && b.Valid() && b.wds >= 1 && b.Val() == Decimal(ds[..i]) && b.k == k
      {
        assert IsDigit(s[Place(i, nd0, dplen)]);
        b := MultDigit(b, (s[at] - '0') as int, ds, i);
        at, i := at + 1, i + 1;
      }
      at := at + dplen;
    } else {
      at := dplen + 9;
    }
    while i < nd
      invariant 9 <= i && (i <= nd || i == 9) && at == i + dplen && nd0 <= i
      invariant fresh(b) && fresh(b.x) && b.Valid() && b.wds >= 1 && b.Val() == Decimal(ds[..if nd < i then nd else i]) && b.k == k
    {
      assert IsDigit(s[Place(i, nd0, dplen)]);
      b := MultDigit(b, (s[at] - '0') as int, ds, i);
      at, i := at + 1, i + 1;
    }
    assert ds[..nd] == ds;
  }

  method MultDigit(b: Bigint, digit: nat, ghost ds: seq<nat>, ghost i: nat) returns (r: Bigint)
    requires b.Valid() && b.wds >= 1 && i < |ds| && b.Val() == Decimal(ds[..i]) && digit == ds[i] && RoomFor(|ds|, b.k)
    requires forall j :: 0 <= j < |ds| ==> ds[j] <= 9
    modifies b, b.x
    ensures r == b && b.Valid() && b.wds >= 1 && b.Val() == Decimal(ds[..i + 1])
  {
    hide Value, Decimal, RoomFor, Pow;
    NextDigit(ds, i, b.k);
    r := MultAdd(b, 10, digit);
  }

  method WithWord(k: nat, w: Word) returns (b: Bigint)
    ensures fresh(b) && fresh(b.x) && b.Valid() && b.k == k && b.wds == 1 && b.Val() == w
  {
    b := new Bigint.Balloc(k);
    b.x[0] := w;
    b.wds := 1;
    ValueOne(b.Words());
  }

  // ----- digits of a quotient -----

  /** Digits of which the first and the last are not zero. */
  predicate Tidy(ds: seq<nat>) {
    && ds != [] && ds[0] != 0 && ds[|ds| - 1] != 0
    && forall i :: 0 <= i < |ds| ==> ds[i] <= 9
  }

  /** `v / d` rounded to a whole number, ties to even. */
  function RoundHalfEven(v: nat, d: nat): nat
    requires d > 0
  {
    var q, r := v / d, v % d;
    if 2 * r > d || (2 * r == d && q % 2 == 1) then q + 1 else q
  }

  /** Drop trailing zeros. */
  method TrimZeros(ds: seq<nat>) returns (rs: seq<nat>)
    requires ds != [] && ds[0] != 0 && forall i :: 0 <= i < |ds| ==> ds[i] <= 9
    ensures Tidy(rs) && |rs| <= |ds| && Decimal(rs) * Pow(10, |ds| - |rs|) == Decimal(ds)
  {
    hide Decimal, Pow;
    rs := ds;
    TenTo0(Decimal(ds));
    while rs[|rs| - 1] == 0
      invariant rs != [] && |rs| <= |ds| && rs == ds[..|rs|]
      invariant Decimal(rs) * Pow(10, |ds| - |rs|) == Decimal(ds)
      decreases |rs|
    {
      DropZero(rs, |ds| - |rs|);
      rs := rs[..|rs| - 1];
    }
  }

  lemma TenTo0(v: nat)
    ensures Pow(10, 0) == 1 && v * Pow(10, 0) == v
  {
  }

  lemma DropZero(rs: seq<nat>, n: nat)
    requires rs != [] && rs[|rs| - 1] == 0
    ensures Decimal(rs) * Pow(10, n) == Decimal(rs[..|rs| - 1]) * Pow(10, n + 1)
  {
    MulAssoc(Decimal(rs[..|rs| - 1]), 10, Pow(10, n));
  }

  /** Add one in the last place; trailing nines are dropped, and all nines become a single one, a place higher. */
  method RoundUp(ds: seq<nat>) returns (rs: seq<nat>, carried: bool)
    requires ds != [] && ds[0] != 0 && forall i :: 0 <= i < |ds| ==> ds[i] <= 9
    ensures Tidy(rs) && |rs| <= |ds|
    ensures Decimal(rs) * Pow(10, |ds| + (if carried then 1 else 0) - |rs|) == Decimal(ds) + 1
  {
    hide Decimal, Pow;
    rs := ds;
    TenTo0(Decimal(ds) + 1);
    while rs[|rs| - 1] == 9
      invariant rs != [] && |rs| <= |ds| && rs == ds[..|rs|]
      invariant (Decimal(rs) + 1) * Pow(10, |ds| - |rs|) == Decimal(ds) + 1
      decreases |rs|
    {
      DropNine(rs, |ds| - |rs|);
      if |rs| == 1 {
        Decimals(rs[..0]);
        rs, carried := [1], true;
        Decimals(rs);
        return;
      }
      rs := rs[..|rs| - 1];
    }
    var n := |rs| - 1;
    LastUp(rs);
    rs, carried := rs[n := rs[n] + 1], false;
  }

  lemma Decimals(ds: seq<nat>)
    ensures |ds| == 0 ==> Decimal(ds) == 0
    ensures |ds| == 1 ==> Decimal(ds) == ds[0]
  {
    if |ds| == 1 { assert ds[..0] == []; }
  }

  lemma DropNine(rs: seq<nat>, n: nat)
    requires rs != [] && rs[|rs| - 1] == 9
    ensures (Decimal(rs) + 1) * Pow(10, n) == (Decimal(rs[..|rs| - 1]) + 1) * Pow(10, n + 1)
  {
    MulAssoc(Decimal(rs[..|rs| - 1]) + 1, 10, Pow(10, n));
  }

  lemma LastUp(rs: seq<nat>)
    requires rs != []
    ensures var n := |rs| - 1; Decimal(rs[n := rs[n] + 1]) == Decimal(rs) + 1
  {
    var n := |rs| - 1;
    assert rs[n := rs[n] + 1][..n] == rs[..n];
  }

  /** A divisor that `dshift` has prepared. */
  ghost predicate Prepared(S: Bigint)
    reads S, S.x
  {
    S.Valid() && S.wds >= 1 && 0x800_0000 <= S.x[S.wds - 1] < 0x1000_0000
  }

  /** A dividend below ten times a prepared divisor has no more words, and one correction is enough for it. */
  lemma ReadyToDivide(b: Bigint, S: Bigint)
    requires Prepared(S) && Positive(b) && b != S && b.x != S.x && b.Val() < 10 * S.Val()
    ensures Divisible(b, S)
  {
    hide Value;
    if b.wds > S.wds {
      TenTimes(S.Words());
      ValueTop(b.Words());
      PowGrows(S.wds, b.wds - 1);
      MulMono(1, b.x[b.wds - 1], Pow(B, b.wds - 1));
      assert false;
    }
    if b.wds == S.wds { SmallEstimate(b.x[b.wds - 1], S.x[S.wds - 1]); }
  }

  lemma TenTimes(s: seq<Word>)
    requires s != [] && s[|s| - 1] < 0x1000_0000
    ensures 10 * Value(s) < Pow(B, |s|)
  {
    hide Value, Pow;
    var n, t: int := |s| - 1, s[|s| - 1];
    ValueTop(s);
    PowNext(B, n);
    MulMono(t + 1, 0x1000_0000, Pow(B, n));
  }

  lemma SmallEstimate(t: Word, s: Word)
    requires 0x800_0000 <= s
    ensures Estimate(t, s) < s
  {
    var q := Estimate(t, s);
    if q >= 32 {
      MulMono(32, q, s + 1);
      assert false;
    }
  }

  /** Before a digit is taken: the digits so far, and what is still to be divided. */
  ghost predicate Before(v: nat, d: nat, ds: seq<nat>, x: nat) {
    v * Pow(10, |ds|) == 10 * Decimal(ds) * d + x
  }

  /** After it: the digits so far, and the remainder. */
  ghost predicate Taken(v: nat, d: nat, ds: seq<nat>, r: nat) {
    |ds| >= 1 && v * Pow(10, |ds| - 1) == Decimal(ds) * d + r
  }

  lemma TakeDigit(v: nat, d: nat, ds: seq<nat>, x: nat)
    requires Before(v, d, ds, x) && d > 0
    ensures Taken(v, d, ds + [x / d], x % d)
  {
    hide Pow, Decimal;
    DecimalAppend(ds, x / d);
    DigitAlgebra(10 * Decimal(ds), x / d, x % d, d, x);
  }

  lemma DigitAlgebra(n: nat, q: nat, r: nat, d: nat, x: nat)
    requires d > 0 && q == x / d && r == x % d
    ensures n * d + x == (n + q) * d + r
  {
    assert x == q * d + r;
    assert (n + q) * d == n * d + q * d;
  }

  lemma NextPlace(v: nat, d: nat, ds: seq<nat>, r: nat)
    requires Taken(v, d, ds, r)
    ensures Before(v, d, ds, r * 10)
  {
    hide Decimal, Pow;
    PowNext(10, |ds| - 1);
    TenAlgebra(v, Pow(10, |ds| - 1), Decimal(ds), d, r);
  }

  lemma TenAlgebra(v: int, p: int, n: int, d: int, r: int)
    requires v * p == n * d + r
    ensures v * (10 * p) == 10 * n * d + r * 10
  {
    assert v * (10 * p) == 10 * (v * p);
    assert 10 * n * d == 10 * (n * d);
  }

  lemma FirstPlace(v: nat, d: nat)
    ensures Before(v, d, [], v)
  {
  }

  lemma DigitBounds(x: nat, d: nat)
    requires d > 0 && x < 10 * d
    ensures x / d <= 9 && (x >= d ==> x / d >= 1) && x % d < d
    ensures x > 0 && x % d == 0 ==> x / d >= 1
  {
    var q, r := x / d, x % d;
    assert x == q * d + r;
    if q >= 10 { MulMono(10, q, d); }
    if q == 0 { assert q * d == 0; }
  }

  /** Whether a number is zero, as the digit loop asks it. */
  lemma ZeroTest(b: Bigint)
    requires b.Valid() && b.Normal() && b.x.Length >= 1 && (b.wds == 0 ==> b.x[0] == 0)
    ensures (b.x[0] == 0 && b.wds <= 1) <==> b.Val() == 0
    ensures b.Val() != 0 ==> Positive(b)
  {
    hide Value;
    if b.wds == 0 {
      NoValue(b.Words());
    } else if b.wds == 1 {
      ValueOne(b.Words());
    } else {
      DivisorPositive(b.Words());
    }
  }

  lemma NoValue(s: seq<Word>)
    requires s == []
    ensures Value(s) == 0
  {
  }

  ghost predicate Digits(ds: seq<nat>) {
    ds != [] && ds[0] != 0 && forall i :: 0 <= i < |ds| ==> ds[i] <= 9
  }

  lemma MoreDigits(ds: seq<nat>, q: nat)
    requires (if ds == [] then q != 0 else Digits(ds)) && q <= 9
    ensures Digits(ds + [q])
  {
  }

  /** One digit, and whether nothing is left. */
  method TakeOne(b: Bigint, S: Bigint) returns (q: nat, zero: bool)
    requires Prepared(S) && Positive(b) && b != S && b.x != S.x && b.Val() < 10 * S.Val()
    modifies b, b.x
    ensures b.Valid() && S.Val() > 0 && q == old(b.Val()) / S.Val() && b.Val() == old(b.Val()) % S.Val()
    ensures zero <==> b.Val() == 0
    ensures !zero ==> Positive(b)
  {
    hide Value, Divisible;
    ReadyToDivide(b, S);
    PositiveParts(b);
    q := Quorem(b, S);
    ZeroTest(b);
    zero := b.x[0] == 0 && b.wds <= 1;
  }

  /** The digit loop: stop when the remainder is zero or `ilim` digits are out. */
  method TakeDigits(b: Bigint, S: Bigint, ilim: nat) returns (ds: seq<nat>, rest: Bigint, exact: bool)
    requires Prepared(S) && Positive(b) && b != S && b.x != S.x && S.Val() <= b.Val() < 10 * S.Val() && ilim >= 1
    modifies b, b.x
    ensures Digits(ds) && |ds| <= ilim && rest.Valid()
    ensures rest != S && rest.x != S.x && (rest == b || (fresh(rest) && fresh(rest.x)))
    ensures Taken(old(b.Val()), S.Val(), ds, rest.Val()) && rest.Val() < S.Val()
    ensures exact ==> rest.Val() == 0 && ds[|ds| - 1] != 0
    ensures !exact ==> |ds| == ilim && Positive(rest)
  {
    hide Value, Before, Taken, Digits, Positive;
    PositiveParts(b);
    ghost var v, d := b.Val(), S.Val();
    ds, rest := [], b;
    FirstPlace(v, d);
    while true
      invariant |ds| < ilim && (ds != [] ==> Digits(ds))
      invariant rest == b || (fresh(rest) && fresh(rest.x))
      invariant rest != S && rest.x != S.x && Prepared(S) && S.Val() == d
      invariant Positive(rest) && rest.Valid()
      invariant 0 < rest.Val() < 10 * d && (ds == [] ==> rest.Val() >= d)
      invariant Before(v, d, ds, rest.Val())
      decreases ilim - |ds|
    {
      ghost var x := rest.Val();
      DigitBounds(x, d);
      TakeDigit(v, d, ds, x);
      var q;
      q, exact := TakeOne(rest, S);
      MoreDigits(ds, q);
      ds := ds + [q];
      if exact || |ds| >= ilim {
        return;
      }
      PositiveParts(rest);
      NextPlace(v, d, ds, rest.Val());
      rest := MultAdd(rest, 10, 0);
      PositiveFrom(rest);
    }
  }

  lemma PositiveParts(b: Bigint)
    requires Positive(b)
    ensures b.Valid() && b.wds >= 1 && b.x[b.wds - 1] != 0 && b.Normal() && b.Val() > 0
  {
    PositiveValue(b);
  }

  lemma PositiveFrom(b: Bigint)
    requires b.Valid() && b.wds >= 1 && b.x[b.wds - 1] != 0
    ensures Positive(b)
  {
  }

  // ----- rounding -----

  lemma {:induction false} Parity(ds: seq<nat>)
    requires ds != []
    ensures Decimal(ds) % 2 == ds[|ds| - 1] % 2
  {
  }

  lemma RoundFrom(v: nat, d: nat, n: nat, r: nat)
    requires d > 0 && v == n * d + r && r < d
    ensures RoundHalfEven(v, d) == if 2 * r > d || (2 * r == d && n % 2 == 1) then n + 1 else n
  {
    DivUnique(v, d, n, r);
  }

  /** A quotient that ends early is exact at every later place. */
  lemma ExactLater(v: nat, d: nat, ds: seq<nat>, ilim: nat)
    requires d > 0 && Taken(v, d, ds, 0) && |ds| <= ilim
    ensures RoundHalfEven(v * Pow(10, ilim - 1), d) == Decimal(ds) * Pow(10, ilim - |ds|)
  {
    hide Pow, Decimal;
    PowAdd(10, |ds| - 1, ilim - |ds|);
    var p, q, n := Pow(10, |ds| - 1), Pow(10, ilim - |ds|), Decimal(ds);
    ExactAlgebra(v, p, q, n, d);
    RoundFrom(v * (p * q), d, n * q, 0);
  }

  lemma ExactAlgebra(v: int, p: int, q: int, n: int, d: int)
    requires v * p == n * d
    ensures v * (p * q) == n * q * d
  {
    assert v * (p * q) == (v * p) * q;
    assert (n * d) * q == n * q * d;
  }

  lemma LastPlace(v: nat, d: nat, ds: seq<nat>, r: nat)
    requires d > 0 && Taken(v, d, ds, r) && r < d
    ensures RoundHalfEven(v * Pow(10, |ds| - 1), d) ==
      if 2 * r > d || (2 * r == d && ds[|ds| - 1] % 2 == 1) then Decimal(ds) + 1 else Decimal(ds)
  {
    hide Pow;
    Parity(ds);
    RoundFrom(v * Pow(10, |ds| - 1), d, Decimal(ds), r);
  }

  /**
    The digits of `b / S`, which lies between one and ten, rounded to `ilim` digits with ties to
    even.  `carried` says that rounding made it ten.  The first and the last digit are never zero.
   */
  method RoundedDigits(b: Bigint, S: Bigint, ilim: nat) returns (ds: seq<nat>, carried: bool)
    requires Prepared(S) && Positive(b) && b != S && b.x != S.x && S.Val() <= b.Val() < 10 * S.Val() && ilim >= 1
    modifies b, b.x
    ensures Tidy(ds) && |ds| <= ilim && S.Val() > 0
    ensures Decimal(ds) * Pow(10, ilim + (if carried then 1 else 0) - |ds|)
            == RoundHalfEven(old(b.Val()) * Pow(10, ilim - 1), S.Val())
  {
    hide Value, Pow, Decimal, Taken, RoundHalfEven;
    ghost var v, d := b.Val(), S.Val();
    var rest, exact;
    ds, rest, exact := TakeDigits(b, S, ilim);
    PositiveFrom(S);
    PositiveParts(S);
    carried := false;
    if exact {
      ExactLater(v, d, ds, ilim);
      return;
    }
    LastPlace(v, d, ds, rest.Val());
    var twice := LShift(rest, 1);
    PowersOfTwo();
    var j := Cmp(twice, S);
    if j > 0 || (j == 0 && ds[|ds| - 1] % 2 == 1) {
      ds, carried := RoundUp(ds);
    } else {
      ds := TrimZeros(ds);
    }
  }

  // ----- from any quotient -----

  /** Shift dividend and divisor alike, so that the divisor's top word has four leading zero bits. */
  method Scale(b: Bigint, S: Bigint, b2: nat, s2: nat) returns (b1: Bigint, S1: Bigint, ghost i: nat)
    requires Positive(b) && Positive(S) && b != S && b.x != S.x
    ensures Positive(b1) && Prepared(S1) && b1 != S1 && b1.x != S1.x
    ensures b1 == b || (fresh(b1) && fresh(b1.x))
    ensures b1.Val() == b.Val() * Pow(2, b2 + i) && S1.Val() == S.Val() * Pow(2, s2 + i)
  {
    hide Value, Pow, LeadingZeros;
    var r, h := DShift(S, s2);
    i := r;
    b1, S1 := b, S;
    PowersOfTwo();
    if b2 + r > 0 {
      b1 := LShift(b, b2 + r);
    }
    if s2 + r > 0 {
      S1 := LShift(S, s2 + r);
    }
    FourLeadingZeros(S.Words(), S1.Words(), h, s2 + r);
  }

  lemma ScaleRound(v: nat, d: nat, m: nat)
    requires d > 0 && m > 0
    ensures d * m > 0 && RoundHalfEven(v * m, d * m) == RoundHalfEven(v, d)
  {
    hide RoundHalfEven;
    var q, r := v / d, v % d;
    ScaleAlgebra(v, d, m, q, r);
    MulAtLeast(m, d);
    MulMono(r + 1, d, m);
    RoundFrom(v * m, d * m, q, r * m);
    RoundFrom(v, d, q, r);
    Compare(2 * r, d, m);
  }

  lemma ScaleAlgebra(v: nat, d: nat, m: nat, q: nat, r: nat)
    requires d > 0 && q == v / d && r == v % d
    ensures v == q * d + r && v * m == q * (d * m) + r * m && (r + 1) * m == r * m + m
    ensures 2 * (r * m) == 2 * r * m
  {
    assert v == q * d + r;
    assert (q * d) * m == q * (d * m);
  }

  lemma Compare(a: nat, b: nat, m: nat)
    requires m > 0
    ensures a * m > b * m <==> a > b
    ensures a * m == b * m <==> a == b
  {
    if a > b { MulMono(b + 1, a, m); }
    if a < b { MulMono(a + 1, b, m); }
  }

  lemma ScaleParts(v: nat, p2: nat, i: nat, t: nat)
    ensures v * Pow(2, p2 + i) * t == v * Pow(2, p2) * t * Pow(2, i)
    ensures v * Pow(2, p2 + i) == v * Pow(2, p2) * Pow(2, i)
    ensures Pow(2, i) > 0
  {
    hide Pow;
    PowAdd(2, p2, i);
    PowPositive(2, i);
    MulAssoc(v, Pow(2, p2), Pow(2, i));
    SwapLast(v * Pow(2, p2), Pow(2, i), t);
  }

  /**
    The digits of `(b * 2^b2) / (S * 2^s2)`, a quotient between one and ten, rounded to `ilim`
    digits with ties to even.
   */
  method QuotientDigits(b: Bigint, S: Bigint, b2: nat, s2: nat, ilim: nat) returns (ds: seq<nat>, carried: bool)
    requires Positive(b) && Positive(S) && b != S && b.x != S.x && ilim >= 1
    requires S.Val() * Pow(2, s2) <= b.Val() * Pow(2, b2) < 10 * (S.Val() * Pow(2, s2))
    modifies b, b.x
    ensures Tidy(ds) && |ds| <= ilim && S.Val() * Pow(2, s2) > 0
    ensures Decimal(ds) * Pow(10, ilim + (if carried then 1 else 0) - |ds|)
            == RoundHalfEven(old(b.Val()) * Pow(2, b2) * Pow(10, ilim - 1), S.Val() * Pow(2, s2))
  {
    hide Value, Pow, Decimal, RoundHalfEven, Positive, Prepared;
    PositiveParts(b);
    PositiveParts(S);
    ghost var v, d := b.Val() * Pow(2, b2), S.Val() * Pow(2, s2);
    ghost var i;
    ghost var bv, sv := b.Val(), S.Val();
    var b1, S1;
    b1, S1, i := Scale(b, S, b2, s2);
    ScaleParts(bv, b2, i, Pow(10, ilim - 1));
    ScaleParts(sv, s2, i, 1);
    PreparedValid(S1);
    PositiveParts(b1);
    ScaleOrder(v, d, Pow(2, i));
    PowPositive(2, s2);
    MulAtLeast(sv, Pow(2, s2));
    ScaleRound(v * Pow(10, ilim - 1), d, Pow(2, i));
    ds, carried := RoundedDigits(b1, S1, ilim);
  }

  lemma PreparedValid(S: Bigint)
    requires Prepared(S)
    ensures S.Valid()
  {
  }

  lemma ScaleOrder(v: nat, d: nat, m: nat)
    requires d <= v < 10 * d && m > 0
    ensures d * m <= v * m < 10 * (d * m)
  {
    MulMono(d, v, m);
    MulMono(v + 1, 10 * d, m);
    assert (v + 1) * m == v * m + m;
    assert 10 * d * m == 10 * (d * m);
  }
}
