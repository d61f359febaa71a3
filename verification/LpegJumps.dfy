/** Jumps in generated code stay inside it. */
module LpegJumps {
  import opened LpegTree
  import opened LpegAnalysis
  import opened LpegVm
  import opened LpegCode
  import opened LpegCorrect
  import opened LpegCalls

  predicate Contained(code: seq<Instr>) {
    forall x :: 0 <= x < |code| && code[x].IJmp? ==> 0 <= x + code[x].offset <= |code|
  }

  lemma ContainedConcat(a: seq<Instr>, b: seq<Instr>)
    requires Contained(a) && Contained(b)
    ensures Contained(a + b)
  {
  }

  lemma ContainedChoice(cs: Charset, e: bool, c1: seq<Instr>, c2: seq<Instr>, jump: bool)
    requires Contained(c1) && Contained(c2)
    ensures Contained(ChoiceByTest(cs, c1, c2, jump))
    ensures Contained(ChoiceByStack(cs, e, c1, c2))
  {
    var j := if jump then [IJmp(2 + |c2|), Ext] else [];
    assert Contained(j + c2);
    ContainedConcat(c1, j + c2);
    var commit := [ICommit(2 + |c2|), Ext] + c2;
    assert Contained(commit);
    ContainedConcat(c1, commit);
    ContainedConcat([IChoice(4 + |c1|), Ext], c1 + commit);
    ContainedTest(cs, false, TestLen(cs, false) + |c1| + |j|, c1 + (j + c2));
    ContainedTest(cs, e, TestLen(cs, e) + 4 + |c1|, [IChoice(4 + |c1|), Ext] + (c1 + commit));
  }

  lemma ContainedTest(cs: Charset, e: bool, offset: int, rest: seq<Instr>)
    requires Contained(rest) && 0 <= offset <= TestLen(cs, e) + |rest|
    ensures Contained(TestCode(cs, e, offset) + rest)
  {
  }

  lemma ContainedLoop(cs: Charset, e: bool, opt: bool, c: seq<Instr>)
    requires Contained(c)
    ensures Contained(RepByTest(cs, c))
    ensures Contained(RepByStack(cs, e, opt, c))
  {
    hide CharsetType;
    var test := TestCode(cs, false, TestLen(cs, false) + |c| + 2);
    var jmp := [IJmp(-(TestLen(cs, false) + |c|)), Ext];
    var code := RepByTest(cs, c);
    forall x | 0 <= x < |code| && code[x].IJmp?
      ensures 0 <= x + code[x].offset <= |code|
    {
      if |test| <= x < |test| + |c| {
        assert code[x] == c[x - |test|];
      }
    }
    var choice := [if opt then IPartialCommit(2) else IChoice(4 + |c|), Ext];
    ContainedConcat(c, [IPartialCommit(-|c|), Ext]);
    ContainedConcat(choice, c + [IPartialCommit(-|c|), Ext]);
    ContainedTest(cs, e, TestLen(cs, e) + 4 + |c|, choice + (c + [IPartialCommit(-|c|), Ext]));
  }

  lemma ContainedLook(cs: Charset, e: bool, c: seq<Instr>)
    requires Contained(c)
    ensures Contained(NotByTest(cs, e))
    ensures Contained(NotByStack(cs, e, c))
    ensures Contained(AndByStack(c))
  {
    ContainedTest(cs, e, TestLen(cs, e) + 1, [IFail]);
    ContainedConcat(c, [IFailTwice]);
    ContainedConcat([IChoice(3 + |c|), Ext], c + [IFailTwice]);
    ContainedTest(cs, e, TestLen(cs, e) + 3 + |c|, [IChoice(3 + |c|), Ext] + (c + [IFailTwice]));
    ContainedConcat(c, [IBackCommit(3), Ext, IFail]);
    ContainedConcat([IChoice(4 + |c|), Ext], c + [IBackCommit(3), Ext, IFail]);
  }

  /** Positions of rules lie inside their code. */
  predicate PositionsInside(r: RulesCode) {
    forall k :: 0 <= k < |r.positions| ==> r.positions[k] < |r.code|
  }

  lemma ContainedCorrectCalls(r: RulesCode)
    requires Contained(r.code) && PositionsInside(r)
    ensures Contained(CorrectCalls(r.code, r.positions, 0))
  {
    var out := CorrectCalls(r.code, r.positions, 0);
    CorrectCallsResolves(r.code, r.positions, 0);
    forall x | 0 <= x < |out| && out[x].IJmp?
      ensures 0 <= x + out[x].offset <= |out|
    {
      assert Resolved(r.code[x], out, x, r.positions);
    }
  }

  lemma ContainedGrammar(rules: seq<Instr>)
    requires Contained(rules)
    ensures Contained(GrammarCode(rules))
  {
    var head := [ICall(4), Ext, IJmp(2 + |rules|), Ext];
    var code := GrammarCode(rules);
    forall x | 0 <= x < |code| && code[x].IJmp?
      ensures 0 <= x + code[x].offset <= |code|
    {
      if x >= 4 {
        assert code[x] == rules[x - 4];
      }
    }
  }

  lemma {:induction false} GenContained(g: seq<Tree>, t: Tree, opt: bool, tt: Test, fl: Charset, d: nat)
    ensures Contained(Gen(g, t, opt, tt, fl, d))
    decreases t, 1
  {
    hide First, Headfail, FixedLen, HasCaptures, TestOf, NeedFollow, ChoiceByTest, ChoiceByStack,
      RepByTest, RepByStack, NotByTest, NotByStack, AndByStack, GrammarCode, CorrectCalls;
    match t
    case TChoice(p1, p2) => GenContainedChoice(g, p1, p2, opt, tt, fl, d);
    case TRep(p) =>
      var f := First(g, p, FULL, d);
      GenContained(g, p, false, TestOf(f.cs, false), FULL, d);
      GenContained(g, p, false, NoTest, FULL, d);
      ContainedLoop(f.cs, f.e, opt, Gen(g, p, false, TestOf(f.cs, false), FULL, d));
      ContainedLoop(f.cs, f.e, opt, Gen(g, p, false, NoTest, FULL, d));
    case TBehind(p, n) =>
      GenContained(g, p, false, NoTest, FULL, d);
      ContainedConcat(BehindCode(n), Gen(g, p, false, NoTest, FULL, d));
    case TNot(p) =>
      var f := First(g, p, FULL, d);
      GenContained(g, p, false, NoTest, FULL, d);
      ContainedLook(f.cs, f.e, Gen(g, p, false, NoTest, FULL, d));
    case TAnd(p) =>
      var c := Gen(g, p, false, tt, FULL, d);
      GenContained(g, p, false, tt, FULL, d);
      ContainedLook({}, true, c);
      if FixedLen(g, p, d) >= 0 {
        ContainedConcat(c, BehindCode(FixedLen(g, p, d)));
      }
    case TCapture(kind, key, p) =>
      var c := Gen(g, p, false, tt, fl, d);
      GenContained(g, p, false, tt, fl, d);
      ContainedConcat(c, [ICloseCapture]);
      ContainedConcat([IOpenCapture(kind, key)], c + [ICloseCapture]);
    case TGrammar(rules) =>
      var r := GenRules(rules, rules, 0, d);
      GenRulesContained(rules, rules, 0, d);
      GenRulesInside(rules, d);
      ContainedCorrectCalls(r);
      ContainedGrammar(CorrectCalls(r.code, r.positions, 0));
    case TSeq(p1, p2) =>
      var fl1 := if NeedFollow(p1) then First(g, p2, fl, d).cs else FULL;
      var tt2 := if FixedLen(g, p1, d) != 0 then NoTest else tt;
      GenContained(g, p1, false, tt, fl1, d);
      GenContained(g, p2, opt, tt2, fl, d);
      ContainedConcat(Gen(g, p1, false, tt, fl1, d), Gen(g, p2, opt, tt2, fl, d));
    case _ =>
  }

  lemma {:induction false} GenContainedChoice(g: seq<Tree>, p1: Tree, p2: Tree, opt: bool, tt: Test, fl: Charset, d: nat)
    ensures Contained(Gen(g, TChoice(p1, p2), opt, tt, fl, d))
    decreases TChoice(p1, p2), 0
  {
    hide First, Headfail, TestOf, Contained, ChoiceByTest, ChoiceByStack;
    var f1 := First(g, p1, FULL, d);
    var c2 := Gen(g, p2, opt, NoTest, fl, d);
    GenContained(g, p2, opt, NoTest, fl, d);
    if Headfail(g, p1, d) || (!f1.e && f1.cs !! First(g, p2, fl, d).cs) {
      GenContained(g, p1, false, TestOf(f1.cs, false), fl, d);
      ContainedChoice(f1.cs, f1.e, Gen(g, p1, false, TestOf(f1.cs, false), fl, d), c2, !p2.TTrue?);
    } else if opt && p2.TTrue? {
      GenContained(g, p1, true, NoTest, FULL, d);
      ContainedPair(IPartialCommit(2));
      ContainedConcat([IPartialCommit(2), Ext], Gen(g, p1, true, NoTest, FULL, d));
    } else {
      GenContained(g, p1, p2.TTrue?, TestOf(f1.cs, f1.e), FULL, d);
      ContainedChoice(f1.cs, f1.e, Gen(g, p1, p2.TTrue?, TestOf(f1.cs, f1.e), FULL, d), c2, false);
    }
  }

  lemma ContainedPair(i: Instr)
    requires !i.IJmp?
    ensures Contained([i, Ext])
  {
  }

  lemma {:induction false} GenRulesContained(g: seq<Tree>, rules: seq<Tree>, start: nat, d: nat)
    ensures Contained(GenRules(g, rules, start, d).code)
    decreases rules, 0
  {
    hide Gen;
    if rules != [] {
      var c := Gen(g, rules[0], false, NoTest, FULL, d);
      GenContained(g, rules[0], false, NoTest, FULL, d);
      ContainedConcat(c, [IRet]);
      GenRulesContained(g, rules[1..], start + |c + [IRet]|, d);
      ContainedConcat(c + [IRet], GenRules(g, rules[1..], start + |c + [IRet]|, d).code);
    }
  }

  lemma {:induction false} GenRulesPositions(g: seq<Tree>, rules: seq<Tree>, start: nat, d: nat)
    ensures PositionsBetween(GenRules(g, rules, start, d).positions, start, start + |GenRules(g, rules, start, d).code|)
    decreases rules
  {
    hide Gen, PositionsBetween;
    PositionsCons([], start, start, start);
    if rules != [] {
      var c := Gen(g, rules[0], false, NoTest, FULL, d) + [IRet];
      GenRulesPositions(g, rules[1..], start + |c|, d);
      var rest := GenRules(g, rules[1..], start + |c|, d);
      PositionsCons(rest.positions, start, start + |c|, start + |c| + |rest.code|);
    }
  }

  lemma GenRulesInside(rules: seq<Tree>, d: nat)
    ensures PositionsInside(GenRules(rules, rules, 0, d))
  {
    hide GenRules;
    GenRulesPositions(rules, rules, 0, d);
  }

  predicate PositionsBetween(positions: seq<nat>, lo: nat, hi: nat) {
    forall k :: 0 <= k < |positions| ==> lo <= positions[k] < hi
  }

  lemma PositionsCons(positions: seq<nat>, lo: nat, mid: nat, hi: nat)
    requires PositionsBetween(positions, mid, hi) && lo <= mid <= hi
    ensures positions == [] ==> PositionsBetween(positions, lo, lo)
    ensures lo < hi ==> PositionsBetween([lo] + positions, lo, hi)
  {
  }

  /** A chain of jumps followed inside a larger program. */
  lemma {:induction false} ChainInside(pre: seq<Instr>, code: seq<Instr>, a: int, n: nat)
    requires Contained(code) && 0 <= a <= |code|
    ensures 0 <= FinalTarget(code, a, n) <= |code|
    ensures FinalTarget(pre + code, |pre| + a, n) == |pre| + FinalTarget(code, a, n)
    decreases n
  {
    if n > 0 && a < |code| && code[a].IJmp? {
      assert (pre + code)[|pre| + a] == code[a];
      ChainInside(pre, code, a + code[a].offset, n - 1);
    } else if a < |code| {
      assert (pre + code)[|pre| + a] == code[a];
    }
  }
}
