/**
  What the check for left recursion is for.  A walk that keeps its flag at sub-grammars rejects
  exactly the grammars in which a rule reaches itself by calls made before any input is consumed;
  the code's walk lets such a grammar through exactly where it differs from that walk.
 */
module LpegLeft {
  import opened LpegTree
  import opened LpegAnalysis
  import opened LpegCorrect
  import opened LpegVerify

  /** Whether `t` may match the empty string, following at most `n` calls; `d` is for the grammars inside. */
  function Void(g: seq<Tree>, t: Tree, n: nat, d: nat): bool
    decreases n, t
  {
    match t
    case TChar(_) => false
    case TSet(_) => false
    case TAny => false
    case TFalse => false
    case TTrue => true
    case TRep(_) => true
    case TNot(_) => true
    case TAnd(_) => true
    case TBehind(_, _) => true
    case TSeq(p1, p2) => Void(g, p1, n, d) && Void(g, p2, n, d)
    case TChoice(p1, p2) => Void(g, p1, n, d) || Void(g, p2, n, d)
    case TCapture(_, _, p) => Void(g, p, n, d)
    case TGrammar(_) => Nullable(g, t, d)
    case TCall(k) => k >= |g| || n == 0 || Void(g, g[k], n - 1, d)
  }

  /** It lies between what the program's analysis says at less and at greater depths, which are the same from some depth on. */
  lemma {:induction false} VoidIsNullable(g: seq<Tree>, t: Tree, n: nat, d: nat, x: nat)
    ensures x <= n && x <= d && Void(g, t, n, d) ==> Nullable(g, t, x)
    ensures x >= n + d && Nullable(g, t, x) ==> Void(g, t, n, d)
    decreases x, t
  {
    match t
    case TSeq(p1, p2) => VoidIsNullable(g, p1, n, d, x); VoidIsNullable(g, p2, n, d, x);
    case TChoice(p1, p2) => VoidIsNullable(g, p1, n, d, x); VoidIsNullable(g, p2, n, d, x);
    case TCapture(_, _, p) => VoidIsNullable(g, p, n, d, x);
    case TGrammar(_) =>
      if x <= d && Nullable(g, t, d) { NullableDeeper(g, t, x, d); }
      if x >= d && Nullable(g, t, x) { NullableDeeper(g, t, d, x); }
    case TCall(k) => if k < |g| && x > 0 && n > 0 { VoidIsNullable(g, g[k], n - 1, d, x - 1); }
    case _ =>
  }

  /** The rules that `t` may call before it has consumed any input. */
  function Left(g: seq<Tree>, t: Tree, d: nat): set<nat> {
    match t
    case TCall(k) => {k}
    case TRep(p) => Left(g, p, d)
    case TNot(p) => Left(g, p, d)
    case TAnd(p) => Left(g, p, d)
    case TCapture(_, _, p) => Left(g, p, d)
    case TSeq(p1, p2) => Left(g, p1, d) + if Void(g, p1, MAXRULES, d) then Left(g, p2, d) else {}
    case TChoice(p1, p2) => Left(g, p1, d) + Left(g, p2, d)
    case _ => {}
  }

  lemma {:induction false} LeftIsCalled(g: seq<Tree>, t: Tree, d: nat)
    requires WellFormed(g, t, d)
    ensures Left(g, t, d) <= Calls(t) && forall k :: k in Left(g, t, d) ==> k < |g|
    decreases t
  {
    match t
    case TRep(p) => LeftIsCalled(g, p, d);
    case TNot(p) => LeftIsCalled(g, p, d);
    case TAnd(p) => LeftIsCalled(g, p, d);
    case TCapture(_, _, p) => LeftIsCalled(g, p, d);
    case TSeq(p1, p2) => LeftIsCalled(g, p1, d); LeftIsCalled(g, p2, d);
    case TChoice(p1, p2) => LeftIsCalled(g, p1, d); LeftIsCalled(g, p2, d);
    case _ =>
  }

  /** Each rule calls the next one before it has consumed any input. */
  ghost predicate LeftPath(g: seq<Tree>, ks: seq<nat>, d: nat) {
    && (forall i :: 0 <= i < |ks| ==> ks[i] < |g|)
    && (forall i :: 0 < i < |ks| ==> ks[i] in Left(g, g[ks[i - 1]], d))
  }

  ghost predicate Round(g: seq<Tree>, ks: seq<nat>, d: nat) {
    |ks| >= 2 && ks[0] == ks[|ks| - 1] && LeftPath(g, ks, d)
  }

  /** Some rule reaches itself. */
  ghost predicate LeftRecursive(g: seq<Tree>, d: nat) {
    exists ks :: Round(g, ks, d)
  }

  // ----- what the walk says and where it goes -----

  /** The answer of the strict walk: the flag, or whether the tree may match the empty string. */
  lemma {:induction false} StrictValue(g: seq<Tree>, t: Tree, npassed: nat, nb: bool, n: nat, d: nat)
    requires npassed <= MAXRULES && n >= MAXRULES - npassed && StrictRule(g, t, npassed, nb, d).Some?
    ensures StrictRule(g, t, npassed, nb, d).value == (nb || Void(g, t, n, d))
    decreases MAXRULES - npassed, t
  {
    match t
    case TNot(p) => StrictFlag(g, p, npassed, true, d);
    case TAnd(p) => StrictFlag(g, p, npassed, true, d);
    case TRep(p) => StrictFlag(g, p, npassed, true, d);
    case TCapture(_, _, p) => StrictValue(g, p, npassed, nb, n, d);
    case TCall(k) => StrictValue(g, g[k], npassed + 1, nb, n - 1, d);
    case TSeq(p1, p2) =>
      StrictValue(g, p1, npassed, false, n, d);
      if StrictRule(g, p1, npassed, false, d).value { StrictValue(g, p2, npassed, nb, n, d); }
    case TChoice(p1, p2) =>
      StrictValue(g, p1, npassed, nb, n, d);
      StrictValue(g, p2, npassed, StrictRule(g, p1, npassed, nb, d).value, n, d);
    case _ =>
  }

  /** A walk that ends has walked through every rule called before input is consumed. */
  lemma {:induction false} WalkEnters(g: seq<Tree>, t: Tree, npassed: nat, nb: bool, d: nat, k: nat)
    requires npassed <= MAXRULES && StrictRule(g, t, npassed, nb, d).Some? && k in Left(g, t, d)
    ensures npassed < MAXRULES && k < |g| && StrictRule(g, g[k], npassed + 1, false, d).Some?
    decreases t
  {
    match t
    case TNot(p) => WalkEnters(g, p, npassed, true, d, k);
    case TAnd(p) => WalkEnters(g, p, npassed, true, d, k);
    case TRep(p) => WalkEnters(g, p, npassed, true, d, k);
    case TCapture(_, _, p) => WalkEnters(g, p, npassed, nb, d, k);
    case TCall(_) => StrictMonotone(g, g[k], npassed + 1, nb, false, d, d);
    case TSeq(p1, p2) =>
      if k in Left(g, p1, d) {
        WalkEnters(g, p1, npassed, false, d, k);
      } else {
        StrictValue(g, p1, npassed, false, MAXRULES, d);
        WalkEnters(g, p2, npassed, nb, d, k);
      }
    case TChoice(p1, p2) =>
      if k in Left(g, p1, d) {
        WalkEnters(g, p1, npassed, nb, d, k);
      } else {
        WalkEnters(g, p2, npassed, StrictRule(g, p1, npassed, nb, d).value, d, k);
      }
  }

  /** So it does not come to an end on a round. */
  lemma {:induction false} WalkAlong(g: seq<Tree>, ks: seq<nat>, i: nat, npassed: nat, d: nat)
    requires LeftPath(g, ks, d) && i < |ks| && npassed <= MAXRULES && StrictRule(g, g[ks[0]], npassed, false, d).Some?
    ensures npassed + i <= MAXRULES && StrictRule(g, g[ks[i]], npassed + i, false, d).Some?
    decreases i
  {
    hide StrictRule, Left;
    if i > 0 {
      WalkAlong(g, ks, i - 1, npassed, d);
      WalkEnters(g, g[ks[i - 1]], npassed + i - 1, false, d, ks[i]);
    }
  }

  lemma {:induction false} NoRound(g: seq<Tree>, ks: seq<nat>, npassed: nat, d: nat)
    requires npassed <= MAXRULES && ks != [] && ks[0] < |g| && StrictRule(g, g[ks[0]], npassed, false, d).Some?
    ensures !Round(g, ks, d)
    decreases MAXRULES - npassed
  {
    hide StrictRule, Left;
    if Round(g, ks, d) {
      var n := |ks| - 1;
      WalkAlong(g, ks, n, npassed, d);
      NoRound(g, ks, npassed + n, d);
    }
  }

  /** A walk that fails fails at a rule called before input is consumed. */
  lemma {:induction false} WalkFails(g: seq<Tree>, t: Tree, npassed: nat, nb: bool, d: nat) returns (k: nat, flag: bool)
    requires npassed <= MAXRULES && StrictRule(g, t, npassed, nb, d).None? && WellFormed(g, t, d)
    ensures k in Left(g, t, d) && k < |g|
    ensures npassed < MAXRULES ==> StrictRule(g, g[k], npassed + 1, flag, d).None?
    decreases t
  {
    match t
    case TNot(p) => k, flag := WalkFails(g, p, npassed, true, d);
    case TAnd(p) => k, flag := WalkFails(g, p, npassed, true, d);
    case TRep(p) => k, flag := WalkFails(g, p, npassed, true, d);
    case TCapture(_, _, p) => k, flag := WalkFails(g, p, npassed, nb, d);
    case TCall(j) => k, flag := j, nb;
    case TSeq(p1, p2) =>
      if StrictRule(g, p1, npassed, false, d).None? {
        k, flag := WalkFails(g, p1, npassed, false, d);
      } else {
        StrictValue(g, p1, npassed, false, MAXRULES, d);
        k, flag := WalkFails(g, p2, npassed, nb, d);
      }
    case TChoice(p1, p2) =>
      var v1 := StrictRule(g, p1, npassed, nb, d);
      if v1.None? {
        k, flag := WalkFails(g, p1, npassed, nb, d);
      } else {
        k, flag := WalkFails(g, p2, npassed, v1.value, d);
      }
  }

  lemma {:induction false} LongPath(g: seq<Tree>, k: nat, npassed: nat, nb: bool, d: nat) returns (ks: seq<nat>)
    requires RulesWellFormed(g, d) && k < |g| && npassed <= MAXRULES && StrictRule(g, g[k], npassed, nb, d).None?
    ensures LeftPath(g, ks, d) && |ks| == MAXRULES - npassed + 2 && ks[0] == k
    decreases MAXRULES - npassed
  {
    hide StrictRule, Left, WellFormed;
    var j, flag := WalkFails(g, g[k], npassed, nb, d);
    if npassed == MAXRULES {
      ks := [k, j];
    } else {
      var rest := LongPath(g, j, npassed + 1, flag, d);
      ks := [k] + rest;
      assert forall i :: 0 < i < |ks| ==> ks[i] == rest[i - 1];
      forall i | 0 < i < |ks| ensures ks[i] in Left(g, g[ks[i - 1]], d) {
        if i > 1 { assert rest[i - 1] in Left(g, g[rest[i - 2]], d); }
      }
    }
  }

  /** More numbers below `n` than `n`: one comes twice. */
  lemma {:induction false} ComesTwice(ks: seq<nat>, n: nat) returns (i: nat, j: nat)
    requires |ks| > n && forall x :: 0 <= x < |ks| ==> ks[x] < n
    ensures i < j < |ks| && ks[i] == ks[j]
    decreases n
  {
    i, j := 0, 0;
    assert ks[0] < n;
    if x :| 0 <= x < |ks| && ks[x] == n - 1 {
      if y :| 0 <= y < |ks| && y != x && ks[y] == n - 1 {
        i, j := if x < y then x else y, if x < y then y else x;
      } else {
        var rest := ks[..x] + ks[x + 1..];
        var a, b := ComesTwice(rest, n - 1);
        i, j := if a < x then a else a + 1, if b < x then b else b + 1;
      }
    } else {
      i, j := ComesTwice(ks[1..], n - 1);
      i, j := i + 1, j + 1;
    }
  }

  lemma FoundRound(g: seq<Tree>, ks: seq<nat>, i: nat, j: nat, d: nat)
    requires LeftPath(g, ks, d) && i < j < |ks| && ks[i] == ks[j]
    ensures Round(g, ks[i..j + 1], d)
  {
    hide Left;
    var r := ks[i..j + 1];
    forall x | 0 < x < |r| ensures r[x] in Left(g, g[r[x - 1]], d) {
      assert ks[i + x] in Left(g, g[ks[i + x - 1]], d);
    }
  }

  lemma RoundIsUsed(g: seq<Tree>, ks: seq<nat>, d: nat)
    requires RulesWellFormed(g, d) && Round(g, ks, d)
    ensures ks != [] && ks[0] in Used(g) && ks[0] < |g|
  {
    hide Left, WellFormed, Calls;
    var n := |ks| - 1;
    LeftIsCalled(g, g[ks[n - 1]], d);
    assert ks[n] in Calls(g[ks[n - 1]]);
  }

  /** A grammar of at most `MAXRULES` rules passes the strict walk exactly when no rule reaches itself. */
  lemma StrictIsExact(g: seq<Tree>, d: nat)
    requires RulesWellFormed(g, d) && |g| <= MAXRULES
    ensures StrictGrammar(g, d) <==> !LeftRecursive(g, d)
  {
    hide StrictRule, Left, WellFormed, Used, Round;
    if StrictGrammar(g, d) {
      forall ks ensures !Round(g, ks, d) {
        if Round(g, ks, d) {
          RoundIsUsed(g, ks, d);
          NoRound(g, ks, 0, d);
        }
      }
    }
    if !StrictGrammar(g, d) {
      var k :| k in Used(g) && k < |g| && StrictRule(g, g[k], 0, false, d).None?;
      var ks := LongPath(g, k, 0, false, d);
      var i, j := ComesTwice(ks, |g|);
      FoundRound(g, ks, i, j, d);
    }
  }

  /** The code's walk accepts every rule in use. */
  predicate WalkAccepts(g: seq<Tree>, d: nat) {
    forall k :: k in Used(g) && k < |g| ==> VerifyRule(g, g[k], 0, false, d).Some?
  }

  /**
    The code's walk accepts every grammar without left recursion; and a grammar it accepts is left
    recursive exactly when the strict walk fails for a rule in use, at which the two walks differ and
    the code's walk has met a sub-grammar with its flag set.
   */
  lemma LetThrough(g: seq<Tree>, d: nat)
    requires RulesWellFormed(g, d) && |g| <= MAXRULES
    ensures !LeftRecursive(g, d) ==> WalkAccepts(g, d)
    ensures WalkAccepts(g, d) ==>
      (LeftRecursive(g, d) <==>
        exists k :: k in Used(g) && k < |g| && StrictRule(g, g[k], 0, false, d) != VerifyRule(g, g[k], 0, false, d)
                    && StrictRule(g, g[k], 0, false, d).None?)
    ensures WalkAccepts(g, d) && LeftRecursive(g, d) ==> exists k :: k in Used(g) && k < |g| && Trapped(g, g[k], 0, false, d)
  {
    hide StrictRule, VerifyRule, Trapped, LeftRecursive, WellFormed, Used;
    StrictIsExact(g, d);
    forall k | k in Used(g) && k < |g| && StrictRule(g, g[k], 0, false, d).Some? ensures VerifyRule(g, g[k], 0, false, d).Some? {
      StrictIsAccepted(g, k, d);
    }
    if WalkAccepts(g, d) && LeftRecursive(g, d) {
      var k :| k in Used(g) && k < |g| && StrictRule(g, g[k], 0, false, d).None?;
      assert VerifyRule(g, g[k], 0, false, d).Some?;
      if !Trapped(g, g[k], 0, false, d) { WalksAgree(g, g[k], 0, false, d); }
    }
  }

  /** `S <- !{ sub } S` is left recursive whatever the sub-grammar, and passes the code's check exactly when that is not nullable. */
  lemma SneakyIsLetThrough(sub: seq<Tree>, d: nat)
    requires sub != [] && RulesWellFormed(sub, d)
    ensures LeftRecursive(Sneaky(sub), d) && !StrictGrammar(Sneaky(sub), d)
    ensures WalkAccepts(Sneaky(sub), d) <==> !Nullable([], TGrammar(sub), d)
  {
    var g := Sneaky(sub);
    assert Void(g, TNot(TGrammar(sub)), MAXRULES, d);
    assert g[0] == TSeq(TNot(TGrammar(sub)), TCall(0));
    assert Left(g, TNot(TGrammar(sub)), d) == Left(g, TGrammar(sub), d) == {};
    assert Left(g, TCall(0), d) == {0};
    assert Left(g, g[0], d) == {0};
    assert Round(g, [0, 0], d);
    assert WellFormed(g, TGrammar(sub), d);
    assert WellFormed(g, TNot(TGrammar(sub)), d);
    assert WellFormed(g, TCall(0), d);
    assert WellFormed(g, g[0], d);
    StrictIsExact(g, d);
    LeftRecursionAccepted(sub, d, [], 0, 0);
    assert !CheckLoops(g, TGrammar(sub), d);
    assert !CheckLoops(g, TNot(TGrammar(sub)), d);
    assert !CheckLoops(g, TCall(0), d);
    assert !CheckLoops(g, g[0], d);
    assert 0 in Used(g);
    assert WalkAccepts(g, d) <==> VerifyRule(g, g[0], 0, false, d).Some?;
  }

  /** `S <- { A <- 'a' }* 'x'`: a loop over a sub-grammar that is not nullable sets the flag, and the pattern is accepted at every depth. */
  lemma FlaggedIsAccepted(d: nat)
    ensures var t := TGrammar([TSeq(TRep(TGrammar([TChar(97)])), TChar(120))]);
            Accepted(t, d) && Trapped(t.rules, t.rules[0], 0, false, d)
  {
    var inner := TGrammar([TChar(97)]);
    var rep := TRep(inner);
    var rules := [TSeq(rep, TChar(120))];
    var t := TGrammar(rules);
    assert !CheckAux([TChar(97)], TChar(97), PEnullable, d);
    assert !Nullable(rules, inner, d);
    assert StrictRule(rules, rep, 0, false, d) == StrictRule(rules, inner, 0, true, d) == Some(true);
    assert VerifyRule(rules, rep, 0, false, d) == VerifyRule(rules, inner, 0, true, d) == Some(false);
    assert Trapped(rules, rep, 0, false, d) == Trapped(rules, inner, 0, true, d) == true;
    assert GrammarsOk(inner, d);
    assert WellFormed(rules, rep, d) && GrammarsOk(rep, d);
    assert !CheckLoops(rules, rep, d);
  }
}
