/**
  The checks made when a grammar is built -- no left recursion, no empty loop -- and what they
  buy: every accepted pattern has an answer on every subject.

  The check for left recursion has a gap: it forgets that an enclosing predicate, repetition or
  earlier alternative can match the empty string when it meets a sub-grammar that cannot.
  `StrictRule` is the same walk without that slip.  What it accepts the code accepts too, and what
  the code accepts beyond that is left recursive (`LpegLeft.LetThrough`), as `Sneaky` is.
 */
module LpegVerify {
  import opened LpegTree
  import opened LpegAnalysis
  import opened LpegCorrect

  const MAXRULES: nat := 250

  /** Whether a tree has a repetition whose body may match the empty string. */
  predicate CheckLoops(g: seq<Tree>, t: Tree, d: nat)
    decreases t
  {
    match t
    case TRep(p) => Nullable(g, p, d) || CheckLoops(g, p, d)
    case TNot(p) => CheckLoops(g, p, d)
    case TAnd(p) => CheckLoops(g, p, d)
    case TBehind(p, _) => CheckLoops(g, p, d)
    case TCapture(_, _, p) => CheckLoops(g, p, d)
    case TSeq(p1, p2) => CheckLoops(g, p1, d) || CheckLoops(g, p2, d)
    case TChoice(p1, p2) => CheckLoops(g, p1, d) || CheckLoops(g, p2, d)
    case _ => false
  }

  /** Walk everything `t` can reach without consuming input, through at most `MAXRULES` calls;
      `None` when there are more.  The answer is meant to say whether `nb` holds or `t` is nullable. */
  function VerifyRule(g: seq<Tree>, t: Tree, npassed: nat, nb: bool, d: nat): Option<bool>
    decreases MAXRULES - npassed, t
  {
    match t
    case TChar(_) => Some(nb)
    case TSet(_) => Some(nb)
    case TAny => Some(nb)
    case TFalse => Some(nb)
    case TTrue => Some(true)
    case TBehind(_, _) => Some(true)
    case TNot(p) => VerifyRule(g, p, npassed, true, d)
    case TAnd(p) => VerifyRule(g, p, npassed, true, d)
    case TRep(p) => VerifyRule(g, p, npassed, true, d)
    case TCapture(_, _, p) => VerifyRule(g, p, npassed, nb, d)
    case TCall(k) =>
      if k >= |g| || npassed >= MAXRULES then None else VerifyRule(g, g[k], npassed + 1, nb, d)
    case TSeq(p1, p2) =>
      var v1 := VerifyRule(g, p1, npassed, false, d);
      if v1.None? then None
      else if !v1.value then Some(nb)
      else VerifyRule(g, p2, npassed, nb, d)
    case TChoice(p1, p2) =>
      var v1 := VerifyRule(g, p1, npassed, nb, d);
      if v1.None? then None else VerifyRule(g, p2, npassed, v1.value, d)
    case TGrammar(_) => Some(Nullable(g, t, d))
  }

  /** The same walk without the slip: at a sub-grammar the flag `nb` is kept. */
  function StrictRule(g: seq<Tree>, t: Tree, npassed: nat, nb: bool, d: nat): Option<bool>
    decreases MAXRULES - npassed, t
  {
    match t
    case TChar(_) => Some(nb)
    case TSet(_) => Some(nb)
    case TAny => Some(nb)
    case TFalse => Some(nb)
    case TTrue => Some(true)
    case TBehind(_, _) => Some(true)
    case TNot(p) => StrictRule(g, p, npassed, true, d)
    case TAnd(p) => StrictRule(g, p, npassed, true, d)
    case TRep(p) => StrictRule(g, p, npassed, true, d)
    case TCapture(_, _, p) => StrictRule(g, p, npassed, nb, d)
    case TCall(k) =>
      if k >= |g| || npassed >= MAXRULES then None else StrictRule(g, g[k], npassed + 1, nb, d)
    case TSeq(p1, p2) =>
      var v1 := StrictRule(g, p1, npassed, false, d);
      if v1.None? then None
      else if !v1.value then Some(nb)
      else StrictRule(g, p2, npassed, nb, d)
    case TChoice(p1, p2) =>
      var v1 := StrictRule(g, p1, npassed, nb, d);
      if v1.None? then None else StrictRule(g, p2, npassed, v1.value, d)
    case TGrammar(_) => Some(nb || Nullable(g, t, d))
  }

  /** The rules called in a tree, not looking into sub-grammars. */
  function Calls(t: Tree): set<nat> {
    match t
    case TCall(k) => {k}
    case TRep(p) => Calls(p)
    case TNot(p) => Calls(p)
    case TAnd(p) => Calls(p)
    case TBehind(p, _) => Calls(p)
    case TCapture(_, _, p) => Calls(p)
    case TSeq(p1, p2) => Calls(p1) + Calls(p2)
    case TChoice(p1, p2) => Calls(p1) + Calls(p2)
    case _ => {}
  }

  /** The rules that some rule calls, and the initial rule: the others are not checked. */
  function Used(rules: seq<Tree>): (u: set<nat>)
    ensures 0 in u
    ensures forall k, x :: 0 <= k < |rules| && x in Calls(rules[k]) ==> x in u
  {
    {0} + set k, x | 0 <= k < |rules| && x in Calls(rules[k]) :: x
  }

  predicate VerifyGrammar(rules: seq<Tree>, d: nat) {
    forall k :: k in Used(rules) && k < |rules| ==>
      VerifyRule(rules, rules[k], 0, false, d).Some? && !CheckLoops(rules, rules[k], d)
  }

  predicate StrictGrammar(rules: seq<Tree>, d: nat) {
    forall k :: k in Used(rules) && k < |rules| ==> StrictRule(rules, rules[k], 0, false, d).Some?
  }

  // ----- the gap -----

  /** The walk meets a sub-grammar that is not nullable while `nb` is set, and forgets `nb`. */
  predicate Trapped(g: seq<Tree>, t: Tree, npassed: nat, nb: bool, d: nat)
    decreases MAXRULES - npassed, t
  {
    match t
    case TNot(p) => Trapped(g, p, npassed, true, d)
    case TAnd(p) => Trapped(g, p, npassed, true, d)
    case TRep(p) => Trapped(g, p, npassed, true, d)
    case TCapture(_, _, p) => Trapped(g, p, npassed, nb, d)
    case TCall(k) => k < |g| && npassed < MAXRULES && Trapped(g, g[k], npassed + 1, nb, d)
    case TSeq(p1, p2) =>
      || Trapped(g, p1, npassed, false, d)
      || (VerifyRule(g, p1, npassed, false, d) == Some(true) && Trapped(g, p2, npassed, nb, d))
    case TChoice(p1, p2) =>
      || Trapped(g, p1, npassed, nb, d)
      || var v1 := VerifyRule(g, p1, npassed, nb, d);
         (v1.Some? && Trapped(g, p2, npassed, v1.value, d))
    case TGrammar(_) => nb && !Nullable(g, t, d)
    case _ => false
  }

  /** A deeper analysis finds no more trees nullable. */
  lemma {:induction false} NullableDeeper(g: seq<Tree>, t: Tree, d: nat, more: nat)
    requires d <= more && Nullable(g, t, more)
    ensures Nullable(g, t, d)
    decreases d, t
  {
    match t
    case TSeq(p1, p2) => NullableDeeper(g, p1, d, more); NullableDeeper(g, p2, d, more);
    case TChoice(p1, p2) =>
      if Nullable(g, p1, more) { NullableDeeper(g, p1, d, more); } else { NullableDeeper(g, p2, d, more); }
    case TCapture(_, _, p) => NullableDeeper(g, p, d, more);
    case TGrammar(rules) => if rules != [] { NullableDeeper(rules, rules[0], d, more); }
    case TCall(k) => if k < |g| && d > 0 { NullableDeeper(g, g[k], d - 1, more - 1); }
    case _ =>
  }

  /** Away from the gap the two walks are the same. */
  lemma {:induction false} WalksAgree(g: seq<Tree>, t: Tree, npassed: nat, nb: bool, d: nat)
    requires !Trapped(g, t, npassed, nb, d)
    ensures VerifyRule(g, t, npassed, nb, d) == StrictRule(g, t, npassed, nb, d)
    decreases MAXRULES - npassed, t
  {
    match t
    case TNot(p) => WalksAgree(g, p, npassed, true, d);
    case TAnd(p) => WalksAgree(g, p, npassed, true, d);
    case TRep(p) => WalksAgree(g, p, npassed, true, d);
    case TCapture(_, _, p) => WalksAgree(g, p, npassed, nb, d);
    case TCall(k) => if k < |g| && npassed < MAXRULES { WalksAgree(g, g[k], npassed + 1, nb, d); }
    case TSeq(p1, p2) =>
      WalksAgree(g, p1, npassed, false, d);
      if VerifyRule(g, p1, npassed, false, d) == Some(true) { WalksAgree(g, p2, npassed, nb, d); }
    case TChoice(p1, p2) =>
      WalksAgree(g, p1, npassed, nb, d);
      var v1 := VerifyRule(g, p1, npassed, nb, d);
      if v1.Some? { WalksAgree(g, p2, npassed, v1.value, d); }
    case _ =>
  }

  /** `v` is an answer and says no more than `w`, if that is one. */
  predicate NoMore(v: Option<bool>, w: Option<bool>) {
    w.Some? ==> v.Some? && (v.value ==> w.value)
  }

  /** With the flag cleared, and at a greater depth, the strict walk accepts no less and says `true` no more often; nor does the code's walk. */
  lemma {:induction false} StrictMonotone(g: seq<Tree>, t: Tree, npassed: nat, nb: bool, less: bool, d: nat, more: nat)
    requires (less ==> nb) && d <= more
    ensures NoMore(StrictRule(g, t, npassed, less, more), StrictRule(g, t, npassed, nb, d))
    ensures NoMore(VerifyRule(g, t, npassed, less, more), StrictRule(g, t, npassed, nb, d))
    decreases MAXRULES - npassed, t
  {
    match t
    case TNot(p) => StrictMonotone(g, p, npassed, true, true, d, more);
    case TAnd(p) => StrictMonotone(g, p, npassed, true, true, d, more);
    case TRep(p) => StrictMonotone(g, p, npassed, true, true, d, more);
    case TCapture(_, _, p) => StrictMonotone(g, p, npassed, nb, less, d, more);
    case TCall(k) => if k < |g| && npassed < MAXRULES { StrictMonotone(g, g[k], npassed + 1, nb, less, d, more); }
    case TSeq(p1, p2) =>
      StrictMonotone(g, p1, npassed, false, false, d, more);
      StrictMonotone(g, p2, npassed, nb, less, d, more);
      if StrictRule(g, p1, npassed, false, d) == Some(true) { StrictFlag(g, p2, npassed, nb, d); }
    case TChoice(p1, p2) =>
      StrictMonotone(g, p1, npassed, nb, less, d, more);
      var w := StrictRule(g, p1, npassed, nb, d);
      if w.Some? {
        StrictMonotone(g, p2, npassed, w.value, StrictRule(g, p1, npassed, less, more).value, d, more);
        StrictMonotone(g, p2, npassed, w.value, VerifyRule(g, p1, npassed, less, more).value, d, more);
      }
    case TGrammar(_) =>
      if Nullable(g, t, more) { NullableDeeper(g, t, d, more); }
    case _ =>
  }

  /** The strict walk keeps the flag. */
  lemma {:induction false} StrictFlag(g: seq<Tree>, t: Tree, npassed: nat, nb: bool, d: nat)
    ensures nb && StrictRule(g, t, npassed, nb, d).Some? ==> StrictRule(g, t, npassed, nb, d).value
    decreases MAXRULES - npassed, t
  {
    match t
    case TNot(p) => StrictFlag(g, p, npassed, true, d);
    case TAnd(p) => StrictFlag(g, p, npassed, true, d);
    case TRep(p) => StrictFlag(g, p, npassed, true, d);
    case TCapture(_, _, p) => StrictFlag(g, p, npassed, nb, d);
    case TCall(k) => if k < |g| && npassed < MAXRULES { StrictFlag(g, g[k], npassed + 1, nb, d); }
    case TSeq(p1, p2) => StrictFlag(g, p2, npassed, nb, d);
    case TChoice(p1, p2) =>
      StrictFlag(g, p1, npassed, nb, d);
      var v1 := StrictRule(g, p1, npassed, nb, d);
      if v1.Some? { StrictFlag(g, p2, npassed, v1.value, d); }
    case _ =>
  }

  /** What the strict walk accepts, the code's walk accepts too. */
  lemma StrictIsAccepted(rules: seq<Tree>, k: nat, d: nat)
    requires k < |rules| && StrictRule(rules, rules[k], 0, false, d).Some?
    ensures VerifyRule(rules, rules[k], 0, false, d).Some?
  {
    StrictMonotone(rules, rules[k], 0, false, false, d, d);
  }

  /** The answer `false` of the strict walk means: not nullable, and `nb` not set. */
  lemma {:induction false} StrictRuleSound(g: seq<Tree>, t: Tree, npassed: nat, nb: bool, d: nat)
    requires npassed <= MAXRULES && StrictRule(g, t, npassed, nb, d) == Some(false)
    ensures !nb && !Nullable(g, t, d + MAXRULES - npassed)
    decreases MAXRULES - npassed, t
  {
    match t
    case TNot(p) => StrictRuleSound(g, p, npassed, true, d);
    case TAnd(p) => StrictRuleSound(g, p, npassed, true, d);
    case TRep(p) => StrictRuleSound(g, p, npassed, true, d);
    case TCapture(_, _, p) => StrictRuleSound(g, p, npassed, nb, d);
    case TCall(k) => StrictRuleSound(g, g[k], npassed + 1, nb, d);
    case TSeq(p1, p2) =>
      if StrictRule(g, p1, npassed, false, d) == Some(false) {
        StrictRuleSound(g, p1, npassed, false, d);
      } else {
        StrictRuleSound(g, p2, npassed, nb, d);
      }
    case TChoice(p1, p2) =>
      var v1 := StrictRule(g, p1, npassed, nb, d);
      StrictRuleSound(g, p2, npassed, v1.value, d);
      StrictRuleSound(g, p1, npassed, nb, d);
    case TGrammar(_) =>
      if Nullable(g, t, d + MAXRULES - npassed) {
        NullableDeeper(g, t, d, d + MAXRULES - npassed);
      }
    case _ =>
  }

  /** Away from the gap, the same holds of the code's walk. */
  lemma VerifyRuleSound(g: seq<Tree>, t: Tree, npassed: nat, nb: bool, d: nat)
    requires npassed <= MAXRULES && !Trapped(g, t, npassed, nb, d)
    requires VerifyRule(g, t, npassed, nb, d) == Some(false)
    ensures !nb && !Nullable(g, t, d + MAXRULES - npassed)
  {
    WalksAgree(g, t, npassed, nb, d);
    StrictRuleSound(g, t, npassed, nb, d);
  }

  /** S <- !{ sub } S, which is left recursive: a predicate consumes nothing. */
  function Sneaky(sub: seq<Tree>): seq<Tree> {
    [TSeq(TNot(TGrammar(sub)), TCall(0))]
  }

  /** The check rejects `Sneaky(sub)` only when the sub-grammar is nullable.  Otherwise it accepts,
      although the grammar has no answer wherever the sub-grammar fails. */
  lemma LeftRecursionAccepted(sub: seq<Tree>, d: nat, s: seq<Byte>, i: nat, f: nat)
    requires i <= |s|
    ensures VerifyGrammar(Sneaky(sub), d) <==> !Nullable([], TGrammar(sub), d)
    ensures Trapped(Sneaky(sub), Sneaky(sub)[0], 0, false, d) <==> !Nullable([], TGrammar(sub), d)
    ensures Peg([], TGrammar(sub), s, i, f).Fail? ==>
              forall fuel: nat :: Peg([], TGrammar(Sneaky(sub)), s, i, fuel) == Timeout
  {
    var g := Sneaky(sub);
    var inner := TGrammar(sub);
    assert Nullable(g, inner, d) == Nullable([], inner, d);
    assert VerifyRule(g, TNot(inner), 0, false, d) == VerifyRule(g, inner, 0, true, d);
    assert !CheckLoops(g, inner, d) && !CheckLoops(g, TCall(0), d);
    assert !CheckLoops(g, TNot(inner), d);
    assert g[0] == TSeq(TNot(inner), TCall(0));
    assert !CheckLoops(g, g[0], d);
    if Nullable([], inner, d) {
      NullableIsCaught(sub, 0, d);
      assert 0 in Used(g);
      assert !Trapped(g, TNot(inner), 0, false, d);
      NullableIsNotTrapped(sub, 0, d);
    } else {
      assert VerifyRule(g, g[0], 0, false, d) == Some(false);
      assert Trapped(g, TNot(inner), 0, false, d);
    }
    if Peg([], inner, s, i, f).Fail? {
      forall fuel: nat
        ensures Peg([], TGrammar(g), s, i, fuel) == Timeout
      {
        NoAnswer(sub, s, i, f, fuel);
      }
    }
  }

  lemma {:induction false} NullableIsCaught(sub: seq<Tree>, npassed: nat, d: nat)
    requires npassed <= MAXRULES && Nullable([], TGrammar(sub), d)
    ensures VerifyRule(Sneaky(sub), Sneaky(sub)[0], npassed, false, d) == None
    decreases MAXRULES - npassed
  {
    var g := Sneaky(sub);
    var inner := TGrammar(sub);
    assert Nullable(g, inner, d) == Nullable([], inner, d);
    assert VerifyRule(g, TNot(inner), npassed, false, d) == VerifyRule(g, inner, npassed, true, d);
    if npassed < MAXRULES {
      NullableIsCaught(sub, npassed + 1, d);
    }
  }

  lemma {:induction false} NullableIsNotTrapped(sub: seq<Tree>, npassed: nat, d: nat)
    requires npassed <= MAXRULES && Nullable([], TGrammar(sub), d)
    ensures !Trapped(Sneaky(sub), Sneaky(sub)[0], npassed, false, d)
    decreases MAXRULES - npassed
  {
    var g := Sneaky(sub);
    var inner := TGrammar(sub);
    assert Nullable(g, inner, d) == Nullable([], inner, d);
    assert Trapped(g, TNot(inner), npassed, false, d) == Trapped(g, inner, npassed, true, d);
    if npassed < MAXRULES {
      NullableIsNotTrapped(sub, npassed + 1, d);
    }
  }

  lemma {:induction false} NoAnswer(sub: seq<Tree>, s: seq<Byte>, i: nat, f: nat, fuel: nat)
    requires i <= |s| && Peg([], TGrammar(sub), s, i, f).Fail?
    ensures Peg(Sneaky(sub), Sneaky(sub)[0], s, i, fuel) == Timeout
    decreases fuel
  {
    var g := Sneaky(sub);
    var inner := TGrammar(sub);
    assert Peg(g, inner, s, i, fuel) == Peg([], inner, s, i, fuel);
    assert Peg([], inner, s, i, fuel) in {Timeout, Fail} by {
      if Peg([], inner, s, i, fuel) != Timeout {
        FuelIrrelevant([], inner, s, i, fuel, f + fuel);
        FuelIrrelevant([], inner, s, i, f, f + fuel);
      }
    }
    assert Peg(g, TNot(inner), s, i, fuel) in {Timeout, Ok(i, [])};
    if fuel > 0 {
      NoAnswer(sub, s, i, f, fuel - 1);
    }
  }

  // ----- accepted patterns have answers -----

  /** Every grammar inside `t` passed the checks and has no left recursion: see `LpegLeft.StrictIsExact`. */
  predicate GrammarsOk(t: Tree, d: nat)
    decreases t
  {
    match t
    case TRep(p) => GrammarsOk(p, d)
    case TNot(p) => GrammarsOk(p, d)
    case TAnd(p) => GrammarsOk(p, d)
    case TBehind(p, _) => GrammarsOk(p, d)
    case TCapture(_, _, p) => GrammarsOk(p, d)
    case TSeq(p1, p2) => GrammarsOk(p1, d) && GrammarsOk(p2, d)
    case TChoice(p1, p2) => GrammarsOk(p1, d) && GrammarsOk(p2, d)
    case TGrammar(rules) =>
      && VerifyGrammar(rules, d)
      && StrictGrammar(rules, d)
      && (forall k :: 0 <= k < |rules| ==> GrammarsOk(rules[k], d))
    case _ => true
  }

  /** A whole pattern the library accepts: well formed, loops with bodies that consume input, and
      good grammars. */
  predicate Accepted(t: Tree, d: nat) {
    WellFormed([], t, d) && !CheckLoops([], t, d) && GrammarsOk(t, d)
  }

  function Size(t: Tree): nat {
    match t
    case TRep(p) => 1 + Size(p)
    case TNot(p) => 1 + Size(p)
    case TAnd(p) => 1 + Size(p)
    case TBehind(p, _) => 1 + Size(p)
    case TCapture(_, _, p) => 1 + Size(p)
    case TSeq(p1, p2) => 1 + Size(p1) + Size(p2)
    case TChoice(p1, p2) => 1 + Size(p1) + Size(p2)
    case TGrammar(rules) => 1 + SizeAll(rules)
    case _ => 1
  }

  function SizeAll(rules: seq<Tree>): nat {
    if rules == [] then 0 else Size(rules[0]) + SizeAll(rules[1..])
  }

  lemma {:induction false} SizeOfRule(rules: seq<Tree>, k: nat)
    requires k < |rules|
    ensures Size(rules[k]) <= SizeAll(rules)
    decreases k
  {
    if k > 0 {
      SizeOfRule(rules[1..], k - 1);
    }
  }

  lemma {:induction false} CallFreeCalls(t: Tree)
    requires CallFree(t)
    ensures Calls(t) == {}
    decreases t
  {
    match t
    case TRep(p) => CallFreeCalls(p);
    case TNot(p) => CallFreeCalls(p);
    case TAnd(p) => CallFreeCalls(p);
    case TBehind(p, _) => CallFreeCalls(p);
    case TCapture(_, _, p) => CallFreeCalls(p);
    case TSeq(p1, p2) => CallFreeCalls(p1); CallFreeCalls(p2);
    case TChoice(p1, p2) => CallFreeCalls(p1); CallFreeCalls(p2);
    case _ =>
  }

  /** A tree of size at most `n` that can be matched: its own checks passed. */
  predicate TreeFine(g: seq<Tree>, used: set<nat>, t: Tree, n: nat, d: nat) {
    && Size(t) <= n && Calls(t) <= used
    && WellFormed(g, t, d) && !CheckLoops(g, t, d) && GrammarsOk(t, d)
  }

  predicate RulesFine(g: seq<Tree>, used: set<nat>, n: nat, d: nat) {
    forall k :: k in used && k < |g| ==>
      && TreeFine(g, used, g[k], n, d)
      && StrictRule(g, g[k], 0, false, d).Some?
  }

  /** Where the walk of `StrictRule` stands, or `Fresh` when input was consumed since the last call. */
  datatype Stage = Fresh | Walking(npassed: nat, nb: bool)

  predicate StageOk(g: seq<Tree>, t: Tree, stage: Stage, d: nat) {
    stage.Walking? ==>
      && stage.npassed <= MAXRULES
      && StrictRule(g, t, stage.npassed, stage.nb, d).Some?
     
  }

  function Level(stage: Stage): nat {
    if stage.Fresh? || stage.npassed > MAXRULES then MAXRULES + 1 else MAXRULES - stage.npassed
  }

  function Under(stage: Stage, nb: bool): Stage {
    if stage.Fresh? then Fresh else Walking(stage.npassed, nb)
  }

  /** Accepted trees have an answer: some fuel is enough. */
  lemma {:induction false} Terminates(g: seq<Tree>, used: set<nat>, n: nat, t: Tree, stage: Stage, d: nat, s: seq<Byte>, i: nat) returns (fuel: nat)
    requires i <= |s|
    requires TreeFine(g, used, t, n, d) && RulesFine(g, used, n, d) && StageOk(g, t, stage, d)
    ensures Peg(g, t, s, i, fuel) != Timeout
    decreases n, |s| - i, Level(stage), t, 1
  {
    fuel := 0;
    match t
    case TSeq(_, _) => fuel := SeqTerminates(g, used, n, t, stage, d, s, i);
    case TChoice(_, _) => fuel := ChoiceTerminates(g, used, n, t, stage, d, s, i);
    case TRep(_) => fuel := RepTerminates(g, used, n, t, stage, d, s, i);
    case TNot(p) => fuel := Terminates(g, used, n, p, Under(stage, true), d, s, i);
    case TAnd(p) => fuel := Terminates(g, used, n, p, Under(stage, true), d, s, i);
    case TCapture(_, _, p) => fuel := Terminates(g, used, n, p, stage, d, s, i);
    case TCall(k) =>
      var next := if stage.Fresh? then Walking(0, false) else Walking(stage.npassed + 1, stage.nb);
      fuel := Terminates(g, used, n, g[k], next, d, s, i);
      fuel := fuel + 1;
    case TBehind(p, back) =>
      if back <= i {
        CallFreeCalls(p);
        fuel := Terminates(g, {}, Size(p), p, Fresh, d, s, i - back);
      }
    case TGrammar(rules) => fuel := GrammarTerminates(g, used, n, t, d, s, i);
    case _ =>
  }

  lemma {:induction false} SeqTerminates(g: seq<Tree>, used: set<nat>, n: nat, t: Tree, stage: Stage, d: nat, s: seq<Byte>, i: nat) returns (fuel: nat)
    requires i <= |s| && t.TSeq?
    requires TreeFine(g, used, t, n, d) && RulesFine(g, used, n, d) && StageOk(g, t, stage, d)
    ensures Peg(g, t, s, i, fuel) != Timeout
    decreases n, |s| - i, Level(stage), t, 0
  {
    var p1, p2 := t.p1, t.p2;
    fuel := Terminates(g, used, n, p1, Under(stage, false), d, s, i);
    var r1 := Peg(g, p1, s, i, fuel);
    if r1.Ok? {
      var fuel2: nat;
      if r1.pos > i {
        fuel2 := Terminates(g, used, n, p2, Fresh, d, s, r1.pos);
      } else {
        if stage.Walking? && StrictRule(g, p1, stage.npassed, false, d) == Some(false) {
          StrictRuleSound(g, p1, stage.npassed, false, d);
          NullableSound(g, p1, d + MAXRULES - stage.npassed, s, i, fuel);
        }
        fuel2 := Terminates(g, used, n, p2, stage, d, s, r1.pos);
      }
      var most := if fuel < fuel2 then fuel2 else fuel;
      FuelIrrelevant(g, p1, s, i, fuel, most);
      FuelIrrelevant(g, p2, s, r1.pos, fuel2, most);
      fuel := most;
    }
  }

  lemma {:induction false} ChoiceTerminates(g: seq<Tree>, used: set<nat>, n: nat, t: Tree, stage: Stage, d: nat, s: seq<Byte>, i: nat) returns (fuel: nat)
    requires i <= |s| && t.TChoice?
    requires TreeFine(g, used, t, n, d) && RulesFine(g, used, n, d) && StageOk(g, t, stage, d)
    ensures Peg(g, t, s, i, fuel) != Timeout
    decreases n, |s| - i, Level(stage), t, 0
  {
    var p1, p2 := t.p1, t.p2;
    fuel := Terminates(g, used, n, p1, stage, d, s, i);
    var nb2 := if stage.Fresh? then false else StrictRule(g, p1, stage.npassed, stage.nb, d).value;
    var fuel2 := Terminates(g, used, n, p2, Under(stage, nb2), d, s, i);
    var most := if fuel < fuel2 then fuel2 else fuel;
    FuelIrrelevant(g, p1, s, i, fuel, most);
    FuelIrrelevant(g, p2, s, i, fuel2, most);
    fuel := most;
  }

  lemma {:induction false} RepTerminates(g: seq<Tree>, used: set<nat>, n: nat, t: Tree, stage: Stage, d: nat, s: seq<Byte>, i: nat) returns (fuel: nat)
    requires i <= |s| && t.TRep?
    requires TreeFine(g, used, t, n, d) && RulesFine(g, used, n, d) && StageOk(g, t, stage, d)
    ensures Peg(g, t, s, i, fuel) != Timeout
    decreases n, |s| - i, Level(stage), t, 0
  {
    var p := t.p;
    fuel := Terminates(g, used, n, p, Under(stage, true), d, s, i);
    var r1 := Peg(g, p, s, i, fuel);
    if r1.Ok? {
      NullableSound(g, p, d, s, i, fuel);
      var fuel2 := Terminates(g, used, n, t, Fresh, d, s, r1.pos);
      var most := if fuel < fuel2 + 1 then fuel2 + 1 else fuel;
      FuelIrrelevant(g, p, s, i, fuel, most);
      FuelIrrelevant(g, t, s, r1.pos, fuel2, most - 1);
      fuel := most;
    }
  }

  lemma {:induction false} GrammarTerminates(g: seq<Tree>, used: set<nat>, n: nat, t: Tree, d: nat, s: seq<Byte>, i: nat) returns (fuel: nat)
    requires i <= |s| && t.TGrammar? && TreeFine(g, used, t, n, d)
    ensures Peg(g, t, s, i, fuel) != Timeout
    decreases n, |s| - i, 0, t, 0
  {
    var rules := t.rules;
    var inner := Used(rules);
    var m := SizeAll(rules);
    forall k | k in inner && k < |rules|
      ensures TreeFine(rules, inner, rules[k], m, d)
    {
      SizeOfRule(rules, k);
      assert forall x :: x in Calls(rules[k]) ==> x in inner;
    }
    assert TreeFine(rules, inner, rules[0], m, d);
    fuel := Terminates(rules, inner, m, rules[0], Fresh, d, s, i);
  }

  /** An accepted pattern has an answer on every subject, from every position. */
  lemma AcceptedTerminates(t: Tree, d: nat, s: seq<Byte>, i: nat) returns (fuel: nat)
    requires i <= |s| && Accepted(t, d)
    ensures Peg([], t, s, i, fuel) != Timeout
  {
    fuel := Terminates([], Calls(t), Size(t), t, Fresh, d, s, i);
  }
}
