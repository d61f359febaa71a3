/**
  Powers of five, reading decimal digits, and writing them.
 */
module BignumDecimal {
  import opened Bignum
  import opened BignumOps
  import opened BignumMult
  import opened BignumShift
  import opened BignumQuorem

  // ----- pow5mult -----

  lemma {:induction false} PowSquare(b: nat, n: nat)
    ensures Pow(b * b, n) == Pow(b, n) * Pow(b, n)
  {
    if n > 0 {
      PowSquare(b, n - 1);
      SquareAlgebra(b, Pow(b, n - 1));
    }
  }

  lemma SquareAlgebra(b: int, p: int)
    ensures b * b * (p * p) == (b * p) * (b * p)
  {
    assert b * b * (p * p) == b * (b * p) * p;
  }

  /** One bit of repeated squaring. */
  lemma PowBit(b: nat, n: nat)
    ensures Pow(b, n) == (if n % 2 == 1 then b else 1) * Pow(b * b, n / 2)
  {
    hide Pow;
    var h := n / 2;
    PowSquare(b, h);
    PowAdd(b, h, h);
    if n % 2 == 1 {
      PowNext(b, h + h);
      assert n == h + h + 1;
    } else {
      assert n == h + h;
    }
  }

  /** What node `i` of the chain holds. */
  function Node(i: nat): nat {
    Pow(5, 4 * Pow(2, i))
  }

  lemma NodeNext(i: nat)
    ensures Node(i + 1) == Node(i) * Node(i)
    ensures Node(0) == 625
  {
    PowAdd(5, 4 * Pow(2, i), 4 * Pow(2, i));
    assert 4 * Pow(2, i + 1) == 4 * Pow(2, i) + 4 * Pow(2, i);
    assert Pow(5, 4) == 625;
  }

  lemma QuartersOf(k: nat, v: nat)
    ensures v * Pow(5, k % 4) * Pow(Node(0), k / 4) == v * Pow(5, k)
  {
    hide Pow;
    NodeNext(0);
    PowMul(5, 4, k / 4);
    PowAdd(5, k % 4, 4 * (k / 4));
    FirstPowers();
    MulAssoc(v, Pow(5, k % 4), Pow(5, 4 * (k / 4)));
    assert k % 4 + 4 * (k / 4) == k;
  }

  lemma FirstPowers()
    ensures Pow(5, 0) == 1 && Pow(5, 1) == 5 && Pow(5, 2) == 25 && Pow(5, 3) == 125 && Pow(5, 4) == 625
  {
  }

  /** A number with a top word that is not zero. */
  ghost predicate Positive(b: Bigint)
    reads b, b.x
  {
    b.Valid() && b.wds >= 1 && b.x[b.wds - 1] != 0
  }

  lemma PositiveValue(b: Bigint)
    requires Positive(b)
    ensures b.Val() > 0
  {
    DivisorPositive(b.Words());
  }

  method MultPositive(a: Bigint, b: Bigint) returns (c: Bigint)
    requires Positive(a) && Positive(b)
    ensures fresh(c) && fresh(c.x) && Positive(c) && c.Val() == a.Val() * b.Val()
  {
    hide Value;
    PositiveValue(a);
    PositiveValue(b);
    c := Mult(a, b);
    MulAtLeast(a.Val(), b.Val());
    NonZero(c.Words());
  }

  method FromWord(w: Word) returns (b: Bigint)
    ensures fresh(b) && fresh(b.x) && b.Valid() && b.wds == 1 && b.Val() == w && b.x[0] == w
  {
    b := new Bigint.Balloc(1);
    b.x[0] := w;
    b.wds := 1;
    ValueOne(b.Words());
  }

  /** The chain of cached powers: `5^4`, `5^8`, `5^16` and so on, as far as it was needed. */
  class PowersOfFive {
    var nodes: seq<Bigint>

    ghost predicate Valid()
      reads this, nodes, set n <- nodes :: n.x
    {
      forall i :: 0 <= i < |nodes| ==> Positive(nodes[i]) && nodes[i].Val() == Node(i)
    }

    constructor ()
      ensures Valid() && nodes == []
    {
      nodes := [];
    }

    /** Node `i`, made by squaring the one before if it is not there yet. */
    method Get(i: nat) returns (p: Bigint)
      requires Valid() && i <= |nodes|
      modifies this
      ensures Valid() && i < |nodes| && p == nodes[i] && Positive(p) && p.Val() == Node(i)
      ensures |nodes| >= |old(nodes)|
      ensures forall j :: 0 <= j < |nodes| ==>
        if j < |old(nodes)| then nodes[j] == old(nodes)[j] else fresh(nodes[j]) && fresh(nodes[j].x)
    {
      hide Node, Value;
      if i == |nodes| {
        if i == 0 {
          p := FromWord(625);
          NodeNext(0);
        } else {
          NodeNext(i - 1);
          p := MultPositive(nodes[i - 1], nodes[i - 1]);
        }
        nodes := nodes + [p];
      } else {
        p := nodes[i];
      }
    }
  }

  /** The bits of `k` not yet used, over the squarings to come. */
  ghost predicate ToGo(v: nat, i: nat, k: nat, target: nat) {
    v * Pow(Node(i), k) == target
  }

  lemma UseBit(v: nat, i: nat, k: nat, target: nat)
    requires ToGo(v, i, k, target)
    ensures ToGo(if k % 2 == 1 then v * Node(i) else v, i + 1, k / 2, target)
  {
    hide Pow, Node;
    PowBit(Node(i), k);
    NodeNext(i);
    if k % 2 == 1 { MulAssoc(v, Node(i), Pow(Node(i + 1), k / 2)); }
  }

  lemma QuartersToGo(v: nat, k: nat, target: nat)
    requires v * Pow(Node(0), k) == target
    ensures ToGo(v, 0, k, target)
  {
  }

  lemma NoBitsLeft(v: nat, i: nat, target: nat)
    requires ToGo(v, i, 0, target)
    ensures v == target
  {
  }

  /** Multiply by the nodes that the bits of `k` select. */
  method Squarings(cache: PowersOfFive, b: Bigint, k: nat, ghost target: nat) returns (r: Bigint)
    requires cache.Valid() && Positive(b) && k > 0 && ToGo(b.Val(), 0, k, target)
    modifies cache
    ensures cache.Valid() && |cache.nodes| >= |old(cache.nodes)|
    ensures r == b || (fresh(r) && fresh(r.x))
    ensures Positive(r) && r.Val() == target
  {
    hide Node, ToGo, Value, PowersOfFive.Valid;
    r := b;
    var n, i := k, 0;
    var p5 := cache.Get(0);
    while true
      invariant n > 0 && 0 <= i < |cache.nodes| && Positive(p5) && p5.Val() == Node(i)
      invariant cache.Valid() && |cache.nodes| >= |old(cache.nodes)|
      invariant r == b || (fresh(r) && fresh(r.x))
      invariant Positive(r) && ToGo(r.Val(), i, n, target)
      decreases n
    {
      UseBit(r.Val(), i, n, target);
      if n % 2 == 1 {
        r := MultPositive(r, p5);
      }
      n := n / 2;
      if n == 0 {
        NoBitsLeft(r.Val(), i + 1, target);
        break;
      }
      p5 := cache.Get(i + 1);
      i := i + 1;
    }
  }

  /** `b * 5^k`. */
  method Pow5Mult(cache: PowersOfFive, b: Bigint, k: nat) returns (r: Bigint)
    requires cache.Valid() && Positive(b)
    requires forall i :: 0 <= i < |cache.nodes| ==> cache.nodes[i] != b && cache.nodes[i].x != b.x
    modifies cache, b, b.x
    ensures cache.Valid() && |cache.nodes| >= |old(cache.nodes)|
    ensures r == b || (fresh(r) && fresh(r.x))
    ensures Positive(r) && r.Val() == old(b.Val()) * Pow(5, k)
  {
    hide Pow, Node, ToGo, Value;
    ghost var v := b.Val();
    r := b;
    FirstPowers();
    if k % 4 != 0 {
      r := MultAdd(b, if k % 4 == 1 then 5 else if k % 4 == 2 then 25 else 125, 0);
    }
    QuartersOf(k, v);
    var n := k / 4;
    if n == 0 {
      return;
    }
    QuartersToGo(r.Val(), n, v * Pow(5, k));
    r := Squarings(cache, r, n, v * Pow(5, k));
  }
}
