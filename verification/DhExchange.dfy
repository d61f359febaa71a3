/**
  Diffie-Hellman key exchange modulo the largest 64-bit prime, in wrapping 64-bit arithmetic.
 */
module DhExchange {
  import opened Bignum

  const P: int := 0xffff_ffff_ffff_ffc5
  const G: int := 5

  type Word64 = x: nat | x < WRAP

  // ----- arithmetic modulo P -----

  lemma ModIs(x: int, k: int, r: int)
    requires x == r + k * P && 0 <= r < P
    ensures x % P == r
  {
    assert x - r == k * P;
  }

  lemma ModOf(x: int) returns (k: int)
    ensures x == x % P + k * P
  {
    k := x / P;
  }

  /** Reducing a factor first does not change the product. */
  lemma ModMul(x: nat, y: nat)
    ensures (x % P) * y % P == x * y % P
  {
    var k := ModOf(x);
    var j := ModOf((x % P) * y);
    var r := (x % P) * y % P;
    assert x * y == (x % P) * y + k * P * y;
    assert k * P * y == (k * y) * P;
    assert x * y == r + (j + k * y) * P;
    ModIs(x * y, j + k * y, r);
  }

  lemma {:induction false} ModPow(x: nat, n: nat)
    ensures Pow(x % P, n) % P == Pow(x, n) % P
  {
    hide Pow;
    if n == 0 {
      PowZero(x);
      PowZero(x % P);
    } else {
      ModPow(x, n - 1);
      PowNext(x % P, n - 1);
      PowNext(x, n - 1);
      ModMul(x, Pow(x % P, n - 1));
      ModMulRight(x, Pow(x % P, n - 1), Pow(x, n - 1));
    }
  }

  lemma PowZero(x: nat)
    ensures Pow(x, 0) == 1
  {
  }

  lemma ModMulRight(x: nat, y: nat, z: nat)
    requires y % P == z % P
    ensures x * y % P == x * z % P
  {
    ModMul(y, x);
    ModMul(z, x);
    MulComm(x, y);
    MulComm(x, z);
  }

  lemma MulComm(a: int, b: int)
    ensures a * b == b * a
  {
  }

  // ----- the code -----

  /** `m + a`, less `P` if it reaches `P`, without leaving 64 bits; also how often `P` was taken off. */
  function AddMod(m: Word64, a: Word64): (r: (Word64, nat))
    requires m < P && a <= P
    ensures r.0 < P && r.0 + r.1 * P == m + a
  {
    var t := P - a;
    if m >= t then (m - t, 1) else (m + a, 0)
  }

  /** `2 * a`, less `P` if it reaches `P`; `a * 2` may wrap, and the subtraction wraps back. */
  function DoubleMod(a: Word64): (r: (Word64, nat))
    requires a <= P
    ensures r.0 <= P && r.0 + r.1 * P == 2 * a
  {
    if a >= P - a then ((a * 2 % WRAP - P) % WRAP, 1) else (a * 2 % WRAP, 0)
  }

  /** `m` and the remaining product stand for the whole product, up to `k` times `P`. */
  ghost predicate Partial(product: nat, m: nat, a: nat, b: nat, k: nat) {
    product == m + a * b + k * P
  }

  lemma PartialStep(product: nat, m: nat, a: nat, b: nat, k: nat, m1: nat, c: nat, a1: nat, d: nat)
    requires Partial(product, m, a, b, k)
    requires m1 + c * P == m + (if b % 2 == 1 then a else 0) && a1 + d * P == 2 * a
    ensures Partial(product, m1, a1, b / 2, k + c + d * (b / 2))
  {
    var h := b / 2;
    Halve(a, b);
    assert (2 * a) * h == a1 * h + d * h * P by { assert (a1 + d * P) * h == a1 * h + d * P * h; }
    assert (k + c + d * h) * P == k * P + c * P + d * h * P;
  }

  method MulModP(a0: Word64, b0: Word64) returns (m: Word64)
    requires a0 <= P
    ensures m == a0 * b0 % P
  {
    hide Partial, AddMod, DoubleMod;
    m := 0;
    var a: Word64, b: Word64 := a0, b0;
    ghost var product := a0 * b0;
    ghost var k: nat := 0;
    PartialStart(a0, b0);
    while b != 0
      invariant m < P && a <= P
      invariant Partial(product, m, a, b, k)
      decreases b
    {
      ghost var m0: nat, c: nat := m, 0;
      if b % 2 == 1 {
        var sum := AddMod(m, a);
        m := sum.0;
        c := sum.1;
      }
      var twice := DoubleMod(a);
      PartialStep(product, m0, a, b, k, m, c, twice.0, twice.1);
      k := k + c + twice.1 * (b / 2);
      a := twice.0;
      b := b / 2;
    }
    PartialEnd(product, m, a, k);
  }

  lemma PartialStart(a: nat, b: nat)
    ensures Partial(a * b, 0, a, b, 0)
  {
  }

  lemma PartialEnd(product: nat, m: nat, a: nat, k: nat)
    requires Partial(product, m, a, 0, k) && m < P
    ensures m == product % P
  {
    ModIs(product, k, m);
  }

  lemma Halve(a: int, b: nat)
    ensures a * b == (if b % 2 == 1 then a else 0) + (2 * a) * (b / 2)
  {
    var h := b / 2;
    assert a * (2 * h) == (2 * a) * h;
    if b % 2 == 1 { assert a * (2 * h + 1) == a * (2 * h) + a; }
  }

  /** The recursion halves the exponent, which must not be zero. */
  method PowModP(a: Word64, b: Word64) returns (t: Word64)
    requires a <= P && b >= 1
    ensures t <= P
    ensures b == 1 ==> t == a
    ensures b > 1 ==> t < P
    ensures t % P == Pow(a, b) % P
    decreases b
  {
    hide Pow;
    if b == 1 {
      PowOne(a);
      return a;
    }
    var h := b / 2;
    t := PowModP(a, h);
    ghost var r := t;
    t := MulModP(t, t);
    SquareMod(a, h, r);
    if b % 2 == 1 {
      OnceMore(a, h, t);
      t := MulModP(t, a);
    }
  }

  lemma OnceMore(a: nat, h: nat, t: nat)
    requires t == Pow(a, h + h) % P
    ensures t * a % P == Pow(a, h + h + 1) % P
  {
    hide Pow;
    PowNext(a, h + h);
    ModMul(Pow(a, h + h), a);
    MulComm(a, Pow(a, h + h));
  }

  lemma PowOne(a: nat)
    ensures Pow(a, 1) == a
  {
  }

  lemma SquareMod(a: nat, h: nat, r: nat)
    requires r % P == Pow(a, h) % P
    ensures r * r % P == Pow(a, h + h) % P
  {
    hide Pow;
    PowAdd(a, h, h);
    ModMulRight(r, r, Pow(a, h));
    MulComm(r, Pow(a, h));
    ModMulRight(Pow(a, h), r, Pow(a, h));
  }

  method PowModPReduced(a: Word64, b: Word64) returns (t: Word64)
    requires b >= 1
    ensures t % P == Pow(a, b) % P
    // not reduced in exactly one case
    ensures t == Pow(a, b) % P <==> !(a == P && b == 1)
    ensures a == P && b == 1 ==> t == P
  {
    hide Pow;
    var x := a;
    if x > P {
      x := x % P;
    }
    ModPow(a, b);
    t := PowModP(x, b);
    if b == 1 { PowOne(a); }
  }

  /** `ldhexchange`: refused for zero. */
  method Exchange(x: Word64) returns (ok: bool, r: Word64)
    ensures ok <==> x != 0
    ensures ok ==> r == Pow(G, x) % P
  {
    if x == 0 {
      return false, 0;
    }
    r := PowModPReduced(G, x);
    ok := true;
  }

  /** `ldhsecret`: refused for zero. */
  method Secret(x: Word64, y: Word64) returns (ok: bool, r: Word64)
    ensures ok <==> x != 0 && y != 0
    ensures ok && x != P ==> r == Pow(x, y) % P
  {
    if x == 0 || y == 0 {
      return false, 0;
    }
    r := PowModPReduced(x, y);
    ok := true;
  }

  /** `G` has an inverse modulo `P`, so no power of it is zero. */
  lemma {:induction false} PublicValueNotZero(n: nat)
    ensures Pow(G, n) % P != 0
  {
    hide Pow;
    if n == 0 {
      PowZero(G);
    } else {
      PublicValueNotZero(n - 1);
      PowNext(G, n - 1);
      if Pow(G, n) % P == 0 {
        // 5 * inverse == 1 modulo P
        ghost var inverse := (2 * P + 1) / 5;
        ModMulRight(inverse, G * Pow(G, n - 1), 0);
        ghost var p := Pow(G, n - 1);
        assert inverse * (G * p) == (2 * p) * P + p;
        var k := ModOf(p);
        ModIs(inverse * (G * p), 2 * p + k, p % P);
      }
    }
  }

  /** Both sides compute the same secret, and neither is refused. */
  method Agree(x: Word64, y: Word64) returns (s1: Word64, s2: Word64)
    requires x != 0 && y != 0
    ensures s1 == s2 == Pow(G, x * y) % P
  {
    hide Pow;
    var ok1, gx := Exchange(x);
    var ok2, gy := Exchange(y);
    PublicValueNotZero(x);
    PublicValueNotZero(y);
    var ok3, ok4;
    ok3, s1 := Secret(gx, y);
    ok4, s2 := Secret(gy, x);
    assert ok3 && ok4;
    ModPow(Pow(G, x), y);
    ModPow(Pow(G, y), x);
    PowMul(G, x, y);
    PowMul(G, y, x);
    MulComm(x, y);
  }
}
