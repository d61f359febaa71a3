/**
  The depth to which the analyses follow calls does not matter beyond some point: for accepted
  patterns every analysis, and with them the code, is the same for all greater depths.  That is why
  the program needs no bound.
 */
module LpegSettle {
  import opened LpegTree
  import opened LpegAnalysis
  import opened LpegVm
  import opened LpegCode
  import opened LpegCorrect
  import opened LpegVerify

  // ----- nullable, nofail, first and headfail: the check for left recursion ends their walks -----

  /** A tree of size at most `n` whose grammars passed the checks. */
  predicate Plain(g: seq<Tree>, used: set<nat>, t: Tree, n: nat, d: nat) {
    Size(t) <= n && Calls(t) <= used && WellFormed(g, t, d) && GrammarsOk(t, d)
  }

  predicate RulesPlain(g: seq<Tree>, used: set<nat>, n: nat, d: nat) {
    forall k :: k in used && k < |g| ==>
      && Plain(g, used, g[k], n, d)
      && StrictRule(g, g[k], 0, false, d).Some?
  }

  /** Calls that a walk may still make, through nested grammars too. */
  function Room(n: nat, stage: Stage): nat {
    (MAXRULES + 1) * n + Level(stage)
  }

  /** The rules of a grammar inside a checked tree. */
  lemma InnerPlain(g: seq<Tree>, used: set<nat>, t: Tree, n: nat, d: nat)
    requires t.TGrammar? && Plain(g, used, t, n, d)
    ensures var rules, m := t.rules, SizeAll(t.rules);
            && rules != [] && m + 1 <= n && RulesPlain(rules, Used(rules), m, d)
            && forall k :: 0 <= k < |rules| ==> Plain(rules, Used(rules), rules[k], m, d)
  {
    hide StrictRule, CheckLoops;
    var rules, m := t.rules, SizeAll(t.rules);
    forall k | 0 <= k < |rules| ensures Plain(rules, Used(rules), rules[k], m, d) {
      SizeOfRule(rules, k);
      assert forall x :: x in Calls(rules[k]) ==> x in Used(rules);
    }
  }

  /** While the walk goes on behind a nullable tree, so does the check. */
  lemma WalkGoesOn(g: seq<Tree>, p: Tree, pred: Pred, stage: Stage, n: nat, d: nat, a: nat)
    requires stage.Walking? && StageOk(g, p, Under(stage, false), d) && a >= d + Room(n, stage) && CheckAux(g, p, pred, a)
    ensures StrictRule(g, p, stage.npassed, false, d) == Some(true)
  {
    hide CheckAux, StrictRule;
    if pred == PEnofail { NofailNullable(g, p, a); }
    assert Nullable(g, p, a);
    var v := StrictRule(g, p, stage.npassed, false, d);
    assert v.Some?;
    if !v.value {
      assert v == Some(false);
      StrictRuleSound(g, p, stage.npassed, false, d);
      NullableDeeper(g, p, d + MAXRULES - stage.npassed, a);
    }
  }

  function Called(stage: Stage): Stage {
    if stage.Fresh? then Walking(0, false) else Walking(stage.npassed + 1, stage.nb)
  }

  /** A call leads to a checked rule, one level down. */
  lemma CallStage(g: seq<Tree>, used: set<nat>, n: nat, t: Tree, stage: Stage, d: nat)
    requires t.TCall? && Plain(g, used, t, n, d) && RulesPlain(g, used, n, d) && StageOk(g, t, stage, d)
    ensures t.rule < |g| && Plain(g, used, g[t.rule], n, d) && StageOk(g, g[t.rule], Called(stage), d)
    ensures Level(Called(stage)) < Level(stage)
  {
  }

  lemma SeqStage(g: seq<Tree>, t: Tree, stage: Stage, d: nat)
    requires t.TSeq? && StageOk(g, t, stage, d)
    ensures StageOk(g, t.p1, Under(stage, false), d) && Level(Under(stage, false)) == Level(stage)
    ensures stage.Walking? && StrictRule(g, t.p1, stage.npassed, false, d) == Some(true) ==> StageOk(g, t.p2, stage, d)
  {
  }

  function Second(g: seq<Tree>, p: Tree, stage: Stage, d: nat): Stage {
    if stage.Fresh? then Fresh else Walking(stage.npassed, StrictRule(g, p, stage.npassed, stage.nb, d) == Some(true))
  }

  lemma ChoiceStage(g: seq<Tree>, t: Tree, stage: Stage, d: nat)
    requires t.TChoice? && StageOk(g, t, stage, d)
    ensures StageOk(g, t.p1, stage, d) && StageOk(g, t.p2, Second(g, t.p1, stage, d), d)
    ensures Level(Second(g, t.p1, stage, d)) == Level(stage)
  {
  }

  lemma UnderStage(g: seq<Tree>, t: Tree, stage: Stage, d: nat)
    requires (t.TNot? || t.TAnd? || t.TRep?) && StageOk(g, t, stage, d)
    ensures StageOk(g, t.p, Under(stage, true), d) && Level(Under(stage, true)) == Level(stage)
  {
  }

  lemma {:induction false} CheckSettles(g: seq<Tree>, used: set<nat>, n: nat, t: Tree, stage: Stage, pred: Pred, d: nat, a: nat, b: nat)
    requires Plain(g, used, t, n, d) && RulesPlain(g, used, n, d) && StageOk(g, t, stage, d)
    requires a >= d + Room(n, stage) && b >= d + Room(n, stage)
    ensures CheckAux(g, t, pred, a) == CheckAux(g, t, pred, b)
    decreases n, Level(stage), t
  {
    hide StrictRule, StageOk, RulesPlain;
    match t
    case TAnd(p) =>
      UnderStage(g, t, stage, d);
      CheckSettles(g, used, n, p, Under(stage, true), pred, d, a, b);
    case TSeq(p1, p2) =>
      SeqStage(g, t, stage, d);
      CheckSettles(g, used, n, p1, Under(stage, false), pred, d, a, b);
      if CheckAux(g, p1, pred, a) {
        if stage.Walking? { WalkGoesOn(g, p1, pred, stage, n, d, a); } else { FreshOk(g, p2, stage, d); }
        CheckSettles(g, used, n, p2, stage, pred, d, a, b);
      }
    case TChoice(p1, p2) =>
      ChoiceStage(g, t, stage, d);
      CheckSettles(g, used, n, p1, stage, pred, d, a, b);
      CheckSettles(g, used, n, p2, Second(g, p1, stage, d), pred, d, a, b);
    case TCapture(_, _, p) =>
      CaptureStage(g, t, stage, d);
      CheckSettles(g, used, n, p, stage, pred, d, a, b);
    case TGrammar(rules) =>
      InnerPlain(g, used, t, n, d);
      FreshOk(rules, rules[0], Fresh, d);
      CheckSettles(rules, Used(rules), SizeAll(rules), rules[0], Fresh, pred, d, a, b);
    case TCall(k) =>
      CallStage(g, used, n, t, stage, d);
      CheckSettles(g, used, n, g[k], Called(stage), pred, d, a - 1, b - 1);
    case _ =>
  }

  lemma FreshOk(g: seq<Tree>, t: Tree, stage: Stage, d: nat)
    requires stage.Fresh?
    ensures StageOk(g, t, stage, d)
  {
  }

  lemma CaptureStage(g: seq<Tree>, t: Tree, stage: Stage, d: nat)
    requires t.TCapture? && StageOk(g, t, stage, d)
    ensures StageOk(g, t.p, stage, d)
  {
  }

  lemma {:induction false} FirstSettles(g: seq<Tree>, used: set<nat>, n: nat, t: Tree, stage: Stage, follow: Charset, d: nat, a: nat, b: nat)
    requires Plain(g, used, t, n, d) && RulesPlain(g, used, n, d) && StageOk(g, t, stage, d)
    requires a >= d + Room(n, stage) && b >= d + Room(n, stage)
    ensures First(g, t, follow, a) == First(g, t, follow, b)
    decreases n, Level(stage), t, 1
  {
    hide StrictRule, StageOk, RulesPlain, CheckAux;
    match t
    case TAnd(p) =>
      UnderStage(g, t, stage, d);
      FirstSettles(g, used, n, p, Under(stage, true), follow, d, a, b);
    case TRep(p) =>
      UnderStage(g, t, stage, d);
      FirstSettles(g, used, n, p, Under(stage, true), follow, d, a, b);
    case TSeq(_, _) => SeqFirstSettles(g, used, n, t, stage, follow, d, a, b);
    case TChoice(p1, p2) =>
      ChoiceStage(g, t, stage, d);
      FirstSettles(g, used, n, p1, stage, follow, d, a, b);
      FirstSettles(g, used, n, p2, Second(g, p1, stage, d), follow, d, a, b);
    case TCapture(_, _, p) =>
      CaptureStage(g, t, stage, d);
      FirstSettles(g, used, n, p, stage, follow, d, a, b);
    case TGrammar(rules) =>
      InnerPlain(g, used, t, n, d);
      FreshOk(rules, rules[0], Fresh, d);
      FirstSettles(rules, Used(rules), SizeAll(rules), rules[0], Fresh, follow, d, a, b);
    case TCall(k) =>
      CallStage(g, used, n, t, stage, d);
      FirstSettles(g, used, n, g[k], Called(stage), follow, d, a - 1, b - 1);
    case _ =>
  }

  lemma {:induction false} SeqFirstSettles(g: seq<Tree>, used: set<nat>, n: nat, t: Tree, stage: Stage, follow: Charset, d: nat, a: nat, b: nat)
    requires t.TSeq? && Plain(g, used, t, n, d) && RulesPlain(g, used, n, d) && StageOk(g, t, stage, d)
    requires a >= d + Room(n, stage) && b >= d + Room(n, stage)
    ensures First(g, t, follow, a) == First(g, t, follow, b)
    decreases n, Level(stage), t, 0
  {
    hide StrictRule, StageOk, RulesPlain, CheckAux;
    var p1, p2 := t.p1, t.p2;
    SeqStage(g, t, stage, d);
    CheckSettles(g, used, n, p1, Under(stage, false), PEnullable, d, a, b);
    if Nullable(g, p1, a) {
      if stage.Walking? { WalkGoesOn(g, p1, PEnullable, stage, n, d, a); } else { FreshOk(g, p2, stage, d); }
      FirstSettles(g, used, n, p2, stage, follow, d, a, b);
      FirstSettles(g, used, n, p1, Under(stage, false), First(g, p2, follow, a).cs, d, a, b);
    } else {
      FirstSettles(g, used, n, p1, Under(stage, false), FULL, d, a, b);
    }
  }

  lemma {:induction false} HeadfailSettles(g: seq<Tree>, used: set<nat>, n: nat, t: Tree, stage: Stage, d: nat, a: nat, b: nat)
    requires Plain(g, used, t, n, d) && RulesPlain(g, used, n, d) && StageOk(g, t, stage, d)
    requires a >= d + MAXRULES + 1 + Room(n, stage) && b >= d + MAXRULES + 1 + Room(n, stage)
    ensures Headfail(g, t, a) == Headfail(g, t, b)
    decreases n, Level(stage), t
  {
    hide StrictRule, StageOk, RulesPlain, CheckAux;
    match t
    case TAnd(p) =>
      UnderStage(g, t, stage, d);
      HeadfailSettles(g, used, n, p, Under(stage, true), d, a, b);
    case TSeq(p1, p2) =>
      SeqStage(g, t, stage, d);
      FreshOk(g, p2, Fresh, d);
      CheckSettles(g, used, n, p2, Fresh, PEnofail, d, a, b);
      HeadfailSettles(g, used, n, p1, Under(stage, false), d, a, b);
    case TChoice(p1, p2) =>
      ChoiceStage(g, t, stage, d);
      HeadfailSettles(g, used, n, p1, stage, d, a, b);
      HeadfailSettles(g, used, n, p2, Second(g, p1, stage, d), d, a, b);
    case TCapture(_, _, p) =>
      CaptureStage(g, t, stage, d);
      HeadfailSettles(g, used, n, p, stage, d, a, b);
    case TGrammar(rules) =>
      InnerPlain(g, used, t, n, d);
      FreshOk(rules, rules[0], Fresh, d);
      HeadfailSettles(rules, Used(rules), SizeAll(rules), rules[0], Fresh, d, a, b);
    case TCall(k) =>
      CallStage(g, used, n, t, stage, d);
      HeadfailSettles(g, used, n, g[k], Called(stage), d, a - 1, b - 1);
    case _ =>
  }

  // ----- captures: no rule is entered twice on one path -----

  function Sum(n: nat): nat {
    if n == 0 then 0 else n + Sum(n - 1)
  }

  lemma {:induction false} SumMore(m: nat, n: nat)
    requires m <= n
    ensures Sum(m) <= Sum(n)
    decreases n
  {
    if m < n { SumMore(m, n - 1); }
  }

  lemma {:induction false} SubsetSize(a: set<nat>, n: nat)
    requires forall x :: x in a ==> x < n
    ensures |a| <= n
  {
    if n > 0 {
      SubsetSize(a - {n - 1}, n - 1);
    } else {
      assert a == {};
    }
  }

  predicate Sized(g: seq<Tree>, n: nat) {
    forall k :: 0 <= k < |g| ==> Size(g[k]) <= n
  }

  lemma {:induction false} RulesFew(rules: seq<Tree>)
    ensures |rules| <= SizeAll(rules)
  {
    if rules != [] { RulesFew(rules[1..]); }
  }

  lemma InnerSized(rules: seq<Tree>)
    ensures Sized(rules, SizeAll(rules))
  {
    forall k | 0 <= k < |rules| ensures Size(rules[k]) <= SizeAll(rules) {
      SizeOfRule(rules, k);
    }
  }

  lemma {:induction false} CapturesSettle(g: seq<Tree>, t: Tree, visited: set<nat>, n: nat, a: nat, b: nat)
    requires Size(t) <= n && Sized(g, n) && (forall k :: k in visited ==> k < |g|)
    requires a >= Sum(n) + |g| - |visited| && b >= Sum(n) + |g| - |visited|
    ensures HasCaptures(g, t, visited, a) == HasCaptures(g, t, visited, b)
    decreases n, if |visited| <= |g| then |g| - |visited| else 0, t
  {
    SubsetSize(visited, |g|);
    match t
    case TRep(p) => CapturesSettle(g, p, visited, n, a, b);
    case TNot(p) => CapturesSettle(g, p, visited, n, a, b);
    case TAnd(p) => CapturesSettle(g, p, visited, n, a, b);
    case TBehind(p, _) => CapturesSettle(g, p, visited, n, a, b);
    case TSeq(p1, p2) =>
      CapturesSettle(g, p1, visited, n, a, b);
      CapturesSettle(g, p2, visited, n, a, b);
    case TChoice(p1, p2) =>
      CapturesSettle(g, p1, visited, n, a, b);
      CapturesSettle(g, p2, visited, n, a, b);
    case TGrammar(rules) =>
      if rules != [] {
        var m := SizeAll(rules);
        RulesFew(rules);
        InnerSized(rules);
        SumMore(m, n - 1);
        SizeOfRule(rules, 0);
        CapturesSettle(rules, rules[0], {}, m, a, b);
      }
    case TCall(k) =>
      if k !in visited && k < |g| {
        SubsetSize(visited + {k}, |g|);
        CapturesSettle(g, g[k], visited + {k}, n, a - 1, b - 1);
      }
    case _ =>
  }

  // ----- fixed lengths: a length that is found stays, and finding takes a bounded time -----

  lemma {:induction false} FixedDeeper(g: seq<Tree>, t: Tree, d: nat, more: nat)
    requires d <= more && FixedLen(g, t, d) >= 0
    ensures FixedLen(g, t, more) == FixedLen(g, t, d)
    decreases d, t
  {
    match t
    case TCapture(_, _, p) => FixedDeeper(g, p, d, more);
    case TGrammar(rules) => FixedDeeper(rules, rules[0], d, more);
    case TCall(k) => FixedDeeper(g, g[k], d - 1, more - 1);
    case TSeq(p1, p2) =>
      FixedDeeper(g, p1, d, more);
      FixedDeeper(g, p2, d, more);
    case TChoice(p1, p2) =>
      FixedDeeper(g, p1, d, more);
      FixedDeeper(g, p2, d, more);
    case _ =>
  }

  /** The rules of `g` have the same length from depth `from` on. */
  ghost predicate RulesStill(g: seq<Tree>, from: nat) {
    forall k, x: nat :: 0 <= k < |g| && x >= from ==> FixedLen(g, g[k], x) == FixedLen(g, g[k], from)
  }

  /** So do the rules of all grammars inside `t`. */
  ghost predicate Still(t: Tree, from: nat)
    decreases t
  {
    match t
    case TRep(p) => Still(p, from)
    case TNot(p) => Still(p, from)
    case TAnd(p) => Still(p, from)
    case TBehind(p, _) => Still(p, from)
    case TCapture(_, _, p) => Still(p, from)
    case TSeq(p1, p2) => Still(p1, from) && Still(p2, from)
    case TChoice(p1, p2) => Still(p1, from) && Still(p2, from)
    case TGrammar(rules) => RulesStill(rules, from) && forall k :: 0 <= k < |rules| ==> Still(rules[k], from)
    case _ => true
  }

  lemma RulesStillMore(g: seq<Tree>, from: nat, more: nat)
    requires RulesStill(g, from) && from <= more
    ensures RulesStill(g, more)
  {
    hide FixedLen;
    forall k, x: nat | 0 <= k < |g| && x >= more ensures FixedLen(g, g[k], x) == FixedLen(g, g[k], more) {
      assert FixedLen(g, g[k], x) == FixedLen(g, g[k], from);
      assert FixedLen(g, g[k], more) == FixedLen(g, g[k], from);
    }
  }

  lemma {:induction false} StillMore(t: Tree, from: nat, more: nat)
    requires Still(t, from) && from <= more
    ensures Still(t, more)
    decreases t
  {
    match t
    case TRep(p) => StillMore(p, from, more);
    case TNot(p) => StillMore(p, from, more);
    case TAnd(p) => StillMore(p, from, more);
    case TBehind(p, _) => StillMore(p, from, more);
    case TCapture(_, _, p) => StillMore(p, from, more);
    case TSeq(p1, p2) => StillMore(p1, from, more); StillMore(p2, from, more);
    case TChoice(p1, p2) => StillMore(p1, from, more); StillMore(p2, from, more);
    case TGrammar(rules) =>
      RulesStillMore(rules, from, more);
      forall k | 0 <= k < |rules| ensures Still(rules[k], more) {
        StillMore(rules[k], from, more);
      }
    case _ =>
  }

  /** If the rules have the same lengths at `a` and `a + 1`, trees have at `a + 1` and `a + 2`. */
  lemma {:induction false} FixedStep(g: seq<Tree>, t: Tree, a: nat, from: nat)
    requires Still(t, from) && from <= a
    requires forall k :: 0 <= k < |g| ==> FixedLen(g, g[k], a) == FixedLen(g, g[k], a + 1)
    ensures FixedLen(g, t, a + 1) == FixedLen(g, t, a + 2)
    decreases t
  {
    match t
    case TCapture(_, _, p) => FixedStep(g, p, a, from);
    case TSeq(p1, p2) => FixedStep(g, p1, a, from); FixedStep(g, p2, a, from);
    case TChoice(p1, p2) => FixedStep(g, p1, a, from); FixedStep(g, p2, a, from);
    case TGrammar(rules) =>
      if rules != [] {
        assert FixedLen(rules, rules[0], a + 1) == FixedLen(rules, rules[0], from);
        assert FixedLen(rules, rules[0], a + 2) == FixedLen(rules, rules[0], from);
      }
    case _ =>
  }

  lemma {:induction false} StaysStill(g: seq<Tree>, a: nat, x: nat, from: nat)
    requires (forall k :: 0 <= k < |g| ==> Still(g[k], from)) && from <= a <= x
    requires forall k :: 0 <= k < |g| ==> FixedLen(g, g[k], a) == FixedLen(g, g[k], a + 1)
    ensures forall k :: 0 <= k < |g| ==> FixedLen(g, g[k], x) == FixedLen(g, g[k], a) == FixedLen(g, g[k], x + 1)
    decreases x - a
  {
    hide FixedLen, Still;
    if x > a {
      StaysStill(g, a, x - 1, from);
      forall k | 0 <= k < |g| ensures FixedLen(g, g[k], x) == FixedLen(g, g[k], x + 1) {
        FixedStep(g, g[k], x - 1, from);
      }
    }
  }

  /** The rules whose length is found at depth `a`. */
  function Found(g: seq<Tree>, a: nat): set<nat> {
    set k | 0 <= k < |g| && FixedLen(g, g[k], a) >= 0
  }

  lemma FoundGrows(g: seq<Tree>, a: nat)
    ensures Found(g, a) <= Found(g, a + 1) && |Found(g, a)| <= |g|
    ensures Found(g, a) == Found(g, a + 1) ==> forall k :: 0 <= k < |g| ==> FixedLen(g, g[k], a) == FixedLen(g, g[k], a + 1)
  {
    hide FixedLen;
    forall k | 0 <= k < |g| && FixedLen(g, g[k], a) >= 0 ensures FixedLen(g, g[k], a + 1) == FixedLen(g, g[k], a) {
      FixedDeeper(g, g[k], a, a + 1);
    }
    SubsetSize(Found(g, a), |g|);
    if Found(g, a) == Found(g, a + 1) {
      forall k | 0 <= k < |g| ensures FixedLen(g, g[k], a) == FixedLen(g, g[k], a + 1) {
        assert k in Found(g, a) <==> k in Found(g, a + 1);
      }
    }
  }

  lemma SmallerSet(a: set<nat>, b: set<nat>)
    requires a <= b && a != b
    ensures |a| < |b|
  {
    var x :| x in b && x !in a;
    Subset(a, b - {x});
  }

  lemma {:induction false} Subset(a: set<nat>, b: set<nat>)
    requires a <= b
    ensures |a| <= |b|
  {
    if a != {} {
      var x :| x in a;
      Subset(a - {x}, b - {x});
    }
  }

  /** Searching deeper and deeper finds no new rule after at most as many steps as there are rules. */
  lemma {:induction false} FindStill(g: seq<Tree>, a: nat, from: nat) returns (r: nat)
    requires (forall k :: 0 <= k < |g| ==> Still(g[k], from)) && from <= a
    ensures a <= r && RulesStill(g, r)
    decreases if |Found(g, a)| <= |g| then |g| - |Found(g, a)| else 0
  {
    hide FixedLen, Still, Found;
    FoundGrows(g, a);
    FoundGrows(g, a + 1);
    if Found(g, a) == Found(g, a + 1) {
      r := a;
      forall k, x: nat | 0 <= k < |g| && x >= a ensures FixedLen(g, g[k], x) == FixedLen(g, g[k], a) {
        StaysStill(g, a, x, from);
      }
    } else {
      SmallerSet(Found(g, a), Found(g, a + 1));
      r := FindStill(g, a + 1, from);
    }
  }

  lemma {:induction false} TreeStill(t: Tree) returns (from: nat)
    ensures Still(t, from)
    decreases t, 0
  {
    from := 0;
    match t
    case TRep(p) => from := TreeStill(p);
    case TNot(p) => from := TreeStill(p);
    case TAnd(p) => from := TreeStill(p);
    case TBehind(p, _) => from := TreeStill(p);
    case TCapture(_, _, p) => from := TreeStill(p);
    case TSeq(p1, p2) =>
      var x := TreeStill(p1);
      var y := TreeStill(p2);
      from := x + y;
      StillMore(p1, x, from);
      StillMore(p2, y, from);
    case TChoice(p1, p2) =>
      var x := TreeStill(p1);
      var y := TreeStill(p2);
      from := x + y;
      StillMore(p1, x, from);
      StillMore(p2, y, from);
    case TGrammar(rules) =>
      var x := AllStill(t, |rules|);
      from := FindStill(rules, x, x);
      forall k | 0 <= k < |rules| ensures Still(rules[k], from) {
        StillMore(rules[k], x, from);
      }
    case _ =>
  }

  lemma {:induction false} AllStill(t: Tree, n: nat) returns (from: nat)
    requires t.TGrammar? && n <= |t.rules|
    ensures forall k :: 0 <= k < n ==> Still(t.rules[k], from)
    decreases t, 0, n
  {
    hide Still;
    from := 0;
    if n > 0 {
      var x := AllStill(t, n - 1);
      var y := TreeStill(t.rules[n - 1]);
      from := x + y;
      forall k | 0 <= k < n ensures Still(t.rules[k], from) {
        if k < n - 1 { StillMore(t.rules[k], x, from); } else { StillMore(t.rules[k], y, from); }
      }
    }
  }

  lemma {:induction false} FixedSettles(g: seq<Tree>, t: Tree, from: nat, a: nat, b: nat)
    requires RulesStill(g, from) && Still(t, from) && a > from && b > from
    ensures FixedLen(g, t, a) == FixedLen(g, t, b)
    decreases t
  {
    match t
    case TCapture(_, _, p) => FixedSettles(g, p, from, a, b);
    case TSeq(p1, p2) => FixedSettles(g, p1, from, a, b); FixedSettles(g, p2, from, a, b);
    case TChoice(p1, p2) => FixedSettles(g, p1, from, a, b); FixedSettles(g, p2, from, a, b);
    case TGrammar(rules) =>
      if rules != [] {
        assert FixedLen(rules, rules[0], a) == FixedLen(rules, rules[0], from);
        assert FixedLen(rules, rules[0], b) == FixedLen(rules, rules[0], from);
      }
    case TCall(k) =>
      if k < |g| {
        assert FixedLen(g, g[k], a - 1) == FixedLen(g, g[k], from);
        assert FixedLen(g, g[k], b - 1) == FixedLen(g, g[k], from);
      }
    case _ =>
  }

  // ----- the code -----

  /** A depth beyond which nothing changes for a tree of size at most `n` in grammar `g`. */
  predicate Deep(g: seq<Tree>, n: nat, d: nat, from: nat, a: nat) {
    a > from && a >= d + 2 * (MAXRULES + 1) + (MAXRULES + 1) * n && a >= Sum(n) + |g|
  }

  /** What the code of the trees of one grammar needs. */
  ghost predicate Settled(g: seq<Tree>, used: set<nat>, n: nat, d: nat, from: nat) {
    RulesPlain(g, used, n, d) && Sized(g, n) && RulesStill(g, from)
  }

  lemma ChecksSettle(g: seq<Tree>, used: set<nat>, n: nat, p: Tree, fl: Charset, d: nat, from: nat, a: nat, b: nat)
    requires Plain(g, used, p, n, d) && Still(p, from) && Settled(g, used, n, d, from)
    requires Deep(g, n, d, from, a) && Deep(g, n, d, from, b)
    ensures First(g, p, fl, a) == First(g, p, fl, b) && Headfail(g, p, a) == Headfail(g, p, b)
    ensures FixedLen(g, p, a) == FixedLen(g, p, b) && HasCaptures(g, p, {}, a) == HasCaptures(g, p, {}, b)
    ensures Nullable(g, p, a) == Nullable(g, p, b) && Nofail(g, p, a) == Nofail(g, p, b)
  {
    hide StrictRule, CheckAux, First, Headfail, FixedLen, HasCaptures, Sum, Size, Still;
    FreshOk(g, p, Fresh, d);
    CheckSettles(g, used, n, p, Fresh, PEnullable, d, a, b);
    CheckSettles(g, used, n, p, Fresh, PEnofail, d, a, b);
    FirstSettles(g, used, n, p, Fresh, fl, d, a, b);
    HeadfailSettles(g, used, n, p, Fresh, d, a, b);
    CapturesSettle(g, p, {}, n, a, b);
    FixedSettles(g, p, from, a, b);
  }

  /** The same for the rules of a grammar inside. */
  lemma InnerSettled(g: seq<Tree>, used: set<nat>, t: Tree, n: nat, d: nat, from: nat, a: nat)
    requires t.TGrammar? && Plain(g, used, t, n, d) && Still(t, from) && Deep(g, n, d, from, a)
    ensures var rules, m := t.rules, SizeAll(t.rules);
            && m < n && Settled(rules, Used(rules), m, d, from) && Deep(rules, m, d, from, a)
            && forall k :: 0 <= k < |rules| ==> Plain(rules, Used(rules), rules[k], m, d) && Still(rules[k], from)
  {
    hide StrictRule, FixedLen;
    InnerPlain(g, used, t, n, d);
    InnerSized(t.rules);
    RulesFew(t.rules);
    SumMore(SizeAll(t.rules), n - 1);
  }

  lemma {:induction false} GenSettles(g: seq<Tree>, used: set<nat>, n: nat, t: Tree, opt: bool, tt: Test, fl: Charset, d: nat, from: nat, a: nat, b: nat)
    requires Plain(g, used, t, n, d) && Still(t, from) && Settled(g, used, n, d, from)
    requires Deep(g, n, d, from, a) && Deep(g, n, d, from, b)
    ensures Gen(g, t, opt, tt, fl, a) == Gen(g, t, opt, tt, fl, b)
    decreases n, t, 1
  {
    hide StrictRule, CheckAux, First, Headfail, FixedLen, HasCaptures, Settled, Deep, RulesStill;
    match t
    case TChoice(_, _) => ChoiceSettles(g, used, n, t, opt, tt, fl, d, from, a, b);
    case TRep(p) =>
      ChecksSettle(g, used, n, p, FULL, d, from, a, b);
      var f := First(g, p, FULL, a);
      GenSettles(g, used, n, p, false, TestOf(f.cs, false), FULL, d, from, a, b);
      GenSettles(g, used, n, p, false, NoTest, FULL, d, from, a, b);
    case TBehind(p, _) =>
      GenSettles(g, used, n, p, false, NoTest, FULL, d, from, a, b);
    case TNot(p) =>
      ChecksSettle(g, used, n, p, FULL, d, from, a, b);
      GenSettles(g, used, n, p, false, NoTest, FULL, d, from, a, b);
    case TAnd(p) =>
      ChecksSettle(g, used, n, p, FULL, d, from, a, b);
      GenSettles(g, used, n, p, false, tt, FULL, d, from, a, b);
    case TCapture(_, _, p) =>
      ChecksSettle(g, used, n, p, FULL, d, from, a, b);
      GenSettles(g, used, n, p, false, tt, fl, d, from, a, b);
    case TSeq(_, _) => SeqSettles(g, used, n, t, opt, tt, fl, d, from, a, b);
    case TGrammar(rules) =>
      InnerSettled(g, used, t, n, d, from, a);
      InnerSettled(g, used, t, n, d, from, b);
      RulesSettle(rules, SizeAll(rules), rules, 0, d, from, a, b);
    case _ =>
  }

  lemma {:induction false} SeqSettles(g: seq<Tree>, used: set<nat>, n: nat, t: Tree, opt: bool, tt: Test, fl: Charset, d: nat, from: nat, a: nat, b: nat)
    requires t.TSeq? && Plain(g, used, t, n, d) && Still(t, from) && Settled(g, used, n, d, from)
    requires Deep(g, n, d, from, a) && Deep(g, n, d, from, b)
    ensures Gen(g, t, opt, tt, fl, a) == Gen(g, t, opt, tt, fl, b)
    decreases n, t, 0
  {
    hide StrictRule, CheckAux, First, Headfail, FixedLen, HasCaptures, Settled, Deep, RulesStill;
    var p1, p2 := t.p1, t.p2;
    ChecksSettle(g, used, n, p1, FULL, d, from, a, b);
    ChecksSettle(g, used, n, p2, fl, d, from, a, b);
    var fl1 := if NeedFollow(p1) then First(g, p2, fl, a).cs else FULL;
    GenSettles(g, used, n, p1, false, tt, fl1, d, from, a, b);
    GenSettles(g, used, n, p2, opt, if FixedLen(g, p1, a) != 0 then NoTest else tt, fl, d, from, a, b);
  }

  lemma {:induction false} ChoiceSettles(g: seq<Tree>, used: set<nat>, n: nat, t: Tree, opt: bool, tt: Test, fl: Charset, d: nat, from: nat, a: nat, b: nat)
    requires t.TChoice? && Plain(g, used, t, n, d) && Still(t, from) && Settled(g, used, n, d, from)
    requires Deep(g, n, d, from, a) && Deep(g, n, d, from, b)
    ensures Gen(g, t, opt, tt, fl, a) == Gen(g, t, opt, tt, fl, b)
    decreases n, t, 0
  {
    hide StrictRule, CheckAux, First, Headfail, FixedLen, HasCaptures, Settled, Deep, RulesStill;
    var p1, p2 := t.p1, t.p2;
    ChecksSettle(g, used, n, p1, FULL, d, from, a, b);
    ChecksSettle(g, used, n, p2, fl, d, from, a, b);
    var f1 := First(g, p1, FULL, a);
    GenSettles(g, used, n, p1, false, TestOf(f1.cs, false), fl, d, from, a, b);
    GenSettles(g, used, n, p1, true, NoTest, FULL, d, from, a, b);
    GenSettles(g, used, n, p1, p2.TTrue?, TestOf(f1.cs, f1.e), FULL, d, from, a, b);
    GenSettles(g, used, n, p2, opt, NoTest, fl, d, from, a, b);
  }

  lemma {:induction false} RulesSettle(g: seq<Tree>, n: nat, rules: seq<Tree>, start: nat, d: nat, from: nat, a: nat, b: nat)
    requires forall k :: 0 <= k < |rules| ==> Plain(g, Used(g), rules[k], n, d) && Still(rules[k], from)
    requires Settled(g, Used(g), n, d, from) && Deep(g, n, d, from, a) && Deep(g, n, d, from, b)
    ensures GenRules(g, rules, start, a) == GenRules(g, rules, start, b)
    decreases n, rules, 2
  {
    hide Gen, Settled, Deep, Plain, Still;
    if rules != [] {
      GenSettles(g, Used(g), n, rules[0], false, NoTest, FULL, d, from, a, b);
      var next := start + |Gen(g, rules[0], false, NoTest, FULL, a) + [IRet]|;
      RulesSettle(g, n, rules[1..], next, d, from, a, b);
    }
  }

  /** The code of an accepted pattern is the same for every depth from some depth on. */
  lemma CodeSettles(t: Tree, d: nat) returns (enough: nat)
    requires Accepted(t, d)
    ensures forall a: nat :: a >= enough ==> Compiled(t, a) == Compiled(t, enough)
  {
    hide WellFormed, GrammarsOk, Gen, CheckLoops;
    var from := TreeStill(t);
    var n := Size(t);
    enough := from + 1 + d + 2 * (MAXRULES + 1) + (MAXRULES + 1) * n + Sum(n);
    forall a: nat | a >= enough ensures Compiled(t, a) == Compiled(t, enough) {
      GenSettles([], Calls(t), n, t, false, NoTest, FULL, d, from, a, enough);
    }
  }

  // ----- acceptance -----

  lemma {:induction false} CapturesDeeper(g: seq<Tree>, t: Tree, visited: set<nat>, d: nat, more: nat)
    requires d <= more && !HasCaptures(g, t, visited, d)
    ensures !HasCaptures(g, t, visited, more)
    decreases d, t
  {
    match t
    case TRep(p) => CapturesDeeper(g, p, visited, d, more);
    case TNot(p) => CapturesDeeper(g, p, visited, d, more);
    case TAnd(p) => CapturesDeeper(g, p, visited, d, more);
    case TBehind(p, _) => CapturesDeeper(g, p, visited, d, more);
    case TSeq(p1, p2) => CapturesDeeper(g, p1, visited, d, more); CapturesDeeper(g, p2, visited, d, more);
    case TChoice(p1, p2) => CapturesDeeper(g, p1, visited, d, more); CapturesDeeper(g, p2, visited, d, more);
    case TGrammar(rules) => if rules != [] { CapturesDeeper(rules, rules[0], {}, d, more); }
    case TCall(k) => if k !in visited && k < |g| { CapturesDeeper(g, g[k], visited + {k}, d - 1, more - 1); }
    case _ =>
  }

  lemma {:induction false} WellFormedDeeper(g: seq<Tree>, t: Tree, d: nat, more: nat)
    requires d <= more && WellFormed(g, t, d)
    ensures WellFormed(g, t, more)
    decreases t
  {
    match t
    case TRep(p) => WellFormedDeeper(g, p, d, more);
    case TNot(p) => WellFormedDeeper(g, p, d, more);
    case TAnd(p) => WellFormedDeeper(g, p, d, more);
    case TCapture(_, _, p) => WellFormedDeeper(g, p, d, more);
    case TSeq(p1, p2) => WellFormedDeeper(g, p1, d, more); WellFormedDeeper(g, p2, d, more);
    case TChoice(p1, p2) => WellFormedDeeper(g, p1, d, more); WellFormedDeeper(g, p2, d, more);
    case TBehind(p, n) =>
      WellFormedDeeper(g, p, d, more);
      FixedDeeper(g, p, d, more);
      CapturesDeeper(g, p, {}, d, more);
    case TGrammar(rules) =>
      forall k | 0 <= k < |rules| ensures WellFormed(rules, rules[k], more) {
        WellFormedDeeper(rules, rules[k], d, more);
      }
    case _ =>
  }

  lemma {:induction false} LoopsDeeper(g: seq<Tree>, t: Tree, d: nat, more: nat)
    requires d <= more && !CheckLoops(g, t, d)
    ensures !CheckLoops(g, t, more)
    decreases t
  {
    match t
    case TRep(p) =>
      LoopsDeeper(g, p, d, more);
      if Nullable(g, p, more) { NullableDeeper(g, p, d, more); }
    case TNot(p) => LoopsDeeper(g, p, d, more);
    case TAnd(p) => LoopsDeeper(g, p, d, more);
    case TBehind(p, _) => LoopsDeeper(g, p, d, more);
    case TCapture(_, _, p) => LoopsDeeper(g, p, d, more);
    case TSeq(p1, p2) => LoopsDeeper(g, p1, d, more); LoopsDeeper(g, p2, d, more);
    case TChoice(p1, p2) => LoopsDeeper(g, p1, d, more); LoopsDeeper(g, p2, d, more);
    case _ =>
  }

  lemma {:induction false} GrammarsDeeper(t: Tree, d: nat, more: nat)
    requires d <= more && GrammarsOk(t, d)
    ensures GrammarsOk(t, more)
    decreases t
  {
    hide StrictRule, VerifyRule, CheckLoops;
    match t
    case TRep(p) => GrammarsDeeper(p, d, more);
    case TNot(p) => GrammarsDeeper(p, d, more);
    case TAnd(p) => GrammarsDeeper(p, d, more);
    case TBehind(p, _) => GrammarsDeeper(p, d, more);
    case TCapture(_, _, p) => GrammarsDeeper(p, d, more);
    case TSeq(p1, p2) => GrammarsDeeper(p1, d, more); GrammarsDeeper(p2, d, more);
    case TChoice(p1, p2) => GrammarsDeeper(p1, d, more); GrammarsDeeper(p2, d, more);
    case TGrammar(rules) =>
      forall k | k in Used(rules) && k < |rules|
        ensures VerifyRule(rules, rules[k], 0, false, more).Some? && StrictRule(rules, rules[k], 0, false, more).Some?
        ensures !CheckLoops(rules, rules[k], more)
      {
        StrictMonotone(rules, rules[k], 0, false, false, d, more);
        LoopsDeeper(rules, rules[k], d, more);
      }
      forall k | 0 <= k < |rules| ensures GrammarsOk(rules[k], more) {
        GrammarsDeeper(rules[k], d, more);
      }
    case _ =>
  }

  /** A pattern accepted at some depth is accepted at every greater one. */
  lemma AcceptedDeeper(t: Tree, d: nat, more: nat)
    requires d <= more && Accepted(t, d)
    ensures Accepted(t, more)
  {
    hide WellFormed, GrammarsOk, CheckLoops;
    WellFormedDeeper([], t, d, more);
    LoopsDeeper([], t, d, more);
    GrammarsDeeper(t, d, more);
  }
}
