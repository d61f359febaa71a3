/**
  Following jumps: the program follows a chain of jumps until it ends; the model stops after as
  many jumps as there are instructions.  That is the same for every chain that ends.
 */
module LpegBound {
  import opened LpegVm
  import opened LpegCode

  predicate AtJump(code: seq<Instr>, i: int) {
    0 <= i < |code| && code[i].IJmp?
  }

  lemma {:induction false} JumpsAdd(code: seq<Instr>, i: int, m: nat, n: nat)
    ensures FinalTarget(code, i, m + n) == FinalTarget(code, FinalTarget(code, i, m), n)
    decreases m
  {
    if m > 0 && AtJump(code, i) {
      JumpsAdd(code, i + code[i].offset, m - 1, n);
    } else if m > 0 {
      assert FinalTarget(code, i, n) == i;
    }
  }

  lemma StaysAtEnd(code: seq<Instr>, i: int, m: nat, n: nat)
    requires m <= n && !AtJump(code, FinalTarget(code, i, m))
    ensures FinalTarget(code, i, n) == FinalTarget(code, i, m)
  {
    JumpsAdd(code, i, m, n - m);
  }

  function Below(n: nat): (s: set<int>)
    ensures |s| == n && forall x :: x in s <==> 0 <= x < n
  {
    if n == 0 then {} else Below(n - 1) + {n - 1}
  }

  lemma {:induction false} Fewer(a: set<int>, n: nat)
    requires a <= Below(n)
    ensures |a| <= n
  {
    if n > 0 {
      Fewer(a - {n - 1}, n - 1);
    }
  }

  /** The places a chain has visited in fewer than `n` jumps. */
  function Visited(code: seq<Instr>, i: int, n: nat): set<int> {
    if n == 0 then {} else Visited(code, i, n - 1) + {FinalTarget(code, i, n - 1)}
  }

  lemma {:induction false} WasThere(code: seq<Instr>, i: int, n: nat, x: int)
    requires x in Visited(code, i, n)
    ensures exists k: nat :: k < n && FinalTarget(code, i, k) == x
  {
    if x != FinalTarget(code, i, n - 1) { WasThere(code, i, n - 1, x); }
  }

  /** A chain that stays at jumps long enough comes back to a place it has been. */
  lemma {:induction false} ComesBack(code: seq<Instr>, i: int, n: nat) returns (a: nat, b: nat)
    requires forall k: nat :: k < n ==> AtJump(code, FinalTarget(code, i, k))
    ensures |Visited(code, i, n)| == n || (a < b < n && FinalTarget(code, i, a) == FinalTarget(code, i, b))
    ensures Visited(code, i, n) <= Below(|code|)
  {
    a, b := 0, 0;
    if n > 0 {
      var x := FinalTarget(code, i, n - 1);
      assert AtJump(code, x);
      a, b := ComesBack(code, i, n - 1);
      if !(a < b < n - 1 && FinalTarget(code, i, a) == FinalTarget(code, i, b)) && x in Visited(code, i, n - 1) {
        WasThere(code, i, n - 1, x);
        a :| a < n - 1 && FinalTarget(code, i, a) == x;
        b := n - 1;
      }
    }
  }

  /** A chain that comes back never ends. */
  lemma {:induction false} GoesRound(code: seq<Instr>, i: int, a: nat, b: nat, n: nat)
    requires a < b && FinalTarget(code, i, a) == FinalTarget(code, i, b)
    requires forall k: nat :: k <= b ==> AtJump(code, FinalTarget(code, i, k))
    ensures AtJump(code, FinalTarget(code, i, n))
    decreases n
  {
    if n > b {
      JumpsAdd(code, i, b, n - b);
      JumpsAdd(code, i, a, n - b);
      GoesRound(code, i, a, b, a + (n - b));
    }
  }

  /** If a chain of jumps ends at all, it ends within as many jumps as there are instructions. */
  lemma BoundSuffices(code: seq<Instr>, i: int, n: nat)
    requires !AtJump(code, FinalTarget(code, i, n))
    ensures FinalTarget(code, i, |code|) == FinalTarget(code, i, n)
  {
    var m := |code|;
    if AtJump(code, FinalTarget(code, i, m)) {
      forall k: nat | k < m + 1 ensures AtJump(code, FinalTarget(code, i, k)) {
        if !AtJump(code, FinalTarget(code, i, k)) { StaysAtEnd(code, i, k, m); }
      }
      var a, b := ComesBack(code, i, m + 1);
      Fewer(Visited(code, i, m + 1), m);
      GoesRound(code, i, a, b, n);
    } else if n <= m {
      StaysAtEnd(code, i, n, m);
    } else {
      StaysAtEnd(code, i, m, n);
    }
  }
}
