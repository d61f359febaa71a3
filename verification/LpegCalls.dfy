/**
  Resolving the open calls of a grammar: in the code of a grammar every open call has become a
  call of its rule, or a jump to it when jumps from the next instruction lead to a return.
 */
module LpegCalls {
  import opened LpegTree
  import opened LpegAnalysis
  import opened LpegVm
  import opened LpegCode
  import opened LpegCorrect

  /** Cell `x` of `out` is `cell` with an open call resolved. */
  ghost predicate Resolved(cell: Instr, out: seq<Instr>, x: int, positions: seq<nat>) {
    && 0 <= x < |out|
    && if cell.IOpenCall? && cell.rule < |positions| then
         || out[x] == ICall(positions[cell.rule] - x)
         || (out[x] == IJmp(positions[cell.rule] - x) && LeadsToRet(out, x + 2))
       else
         out[x] == cell
  }

  /** Resolving one open call does not break a chain of jumps to a return. */
  lemma {:induction false} ChainSurvives(code: seq<Instr>, i: nat, call: Instr, a: int, n: nat)
    requires i < |code| && code[i].IOpenCall?
    requires IsRet(code, FinalTarget(code, a, n))
    ensures IsRet(code[i := call], FinalTarget(code[i := call], a, n))
    decreases n
  {
    if n > 0 && 0 <= a < |code| && code[a].IJmp? {
      ChainSurvives(code, i, call, a + code[a].offset, n - 1);
    }
  }

  lemma {:induction false} CorrectCallsKeeps(code: seq<Instr>, positions: seq<nat>, i: nat, a: int)
    requires LeadsToRet(code, a)
    ensures LeadsToRet(CorrectCalls(code, positions, i), a)
    decreases |code| - i
  {
    if i < |code| {
      if code[i].IOpenCall? && code[i].rule < |positions| {
        var offset := positions[code[i].rule] - i;
        var call := if IsRet(code, FinalTarget(code, i + 2, |code|)) then IJmp(offset) else ICall(offset);
        var n: nat :| IsRet(code, FinalTarget(code, a, n));
        ChainSurvives(code, i, call, a, n);
        CorrectCallsKeeps(code[i := call], positions, i + 1, a);
      } else {
        CorrectCallsKeeps(code, positions, i + 1, a);
      }
    }
  }

  /** Every open call from cell `i` on is resolved and nothing else changes. */
  lemma {:induction false} CorrectCallsResolves(code: seq<Instr>, positions: seq<nat>, i: nat)
    ensures var out := CorrectCalls(code, positions, i);
            && (forall x :: 0 <= x < |code| && x < i ==> out[x] == code[x])
            && (forall x :: i <= x < |code| ==> Resolved(code[x], out, x, positions))
    decreases |code| - i
  {
    if i < |code| {
      var out := CorrectCalls(code, positions, i);
      if code[i].IOpenCall? && code[i].rule < |positions| {
        var offset := positions[code[i].rule] - i;
        var tail := IsRet(code, FinalTarget(code, i + 2, |code|));
        var call := if tail then IJmp(offset) else ICall(offset);
        var code1 := code[i := call];
        CorrectCallsResolves(code1, positions, i + 1);
        if tail {
          ChainSurvives(code, i, call, i + 2, |code|);
          CorrectCallsKeeps(code1, positions, i + 1, i + 2);
        }
        assert out[i] == code1[i];
        forall x | i <= x < |code|
          ensures Resolved(code[x], out, x, positions)
        {
          if x > i {
            assert Resolved(code1[x], out, x, positions);
          }
        }
      } else {
        CorrectCallsResolves(code, positions, i + 1);
        assert out[i] == code[i];
      }
    }
  }

  /** Open calls in `code` name one of the first `n` rules. */
  predicate CallsBelow(code: seq<Instr>, n: nat) {
    forall x :: 0 <= x < |code| && code[x].IOpenCall? ==> code[x].rule < n
  }

  lemma ConcatCallsBelow(a: seq<Instr>, b: seq<Instr>, n: nat)
    requires CallsBelow(a, n) && CallsBelow(b, n)
    ensures CallsBelow(a + b, n)
  {
  }

  /** The shapes of code add no open calls to those of their parts. */
  lemma ChoiceCallsBelow(cs: Charset, e: bool, c1: seq<Instr>, c2: seq<Instr>, jump: bool, n: nat)
    requires CallsBelow(c1, n) && CallsBelow(c2, n)
    ensures CallsBelow(ChoiceByTest(cs, c1, c2, jump), n)
    ensures CallsBelow(ChoiceByStack(cs, e, c1, c2), n)
  {
  }

  lemma LoopCallsBelow(cs: Charset, e: bool, opt: bool, c: seq<Instr>, n: nat)
    requires CallsBelow(c, n)
    ensures CallsBelow(RepByTest(cs, c), n)
    ensures CallsBelow(RepByStack(cs, e, opt, c), n)
  {
  }

  lemma LookCallsBelow(cs: Charset, e: bool, c: seq<Instr>, n: nat)
    requires CallsBelow(c, n)
    ensures CallsBelow(NotByTest(cs, e), n)
    ensures CallsBelow(NotByStack(cs, e, c), n)
    ensures CallsBelow(AndByStack(c), n)
  {
  }

  lemma GrammarHasNoOpenCall(r: RulesCode, n: nat)
    requires CallsBelow(r.code, |r.positions|)
    ensures CallsBelow(CorrectCalls(r.code, r.positions, 0), 0)
    ensures CallsBelow(GrammarCode(CorrectCalls(r.code, r.positions, 0)), n)
  {
    var out := CorrectCalls(r.code, r.positions, 0);
    CorrectCallsResolves(r.code, r.positions, 0);
    forall x | 0 <= x < |out|
      ensures !out[x].IOpenCall?
    {
      assert Resolved(r.code[x], out, x, r.positions);
    }
  }

  /** Generated code calls only rules of its grammar. */
  lemma {:induction false} GenCallsBelow(g: seq<Tree>, t: Tree, opt: bool, tt: Test, fl: Charset, d: nat)
    requires WellFormed(g, t, d)
    ensures CallsBelow(Gen(g, t, opt, tt, fl, d), |g|)
    decreases t, 1
  {
    hide First, Headfail, FixedLen, HasCaptures, CharsetType, TestOf,
      ChoiceByTest, ChoiceByStack, RepByTest, RepByStack, NotByTest, NotByStack, AndByStack, GrammarCode, NeedFollow;
    match t
    case TChoice(p1, p2) =>
      var f1 := First(g, p1, FULL, d);
      var n := |g|;
      GenCallsBelow(g, p2, opt, NoTest, fl, d);
      var c2 := Gen(g, p2, opt, NoTest, fl, d);
      if Headfail(g, p1, d) || (!f1.e && f1.cs !! First(g, p2, fl, d).cs) {
        var tt1 := TestOf(f1.cs, false);
        GenCallsBelow(g, p1, false, tt1, fl, d);
        ChoiceCallsBelow(f1.cs, f1.e, Gen(g, p1, false, tt1, fl, d), c2, !p2.TTrue?, n);
      } else if opt && p2.TTrue? {
        GenCallsBelow(g, p1, true, NoTest, FULL, d);
      } else {
        var tt1 := TestOf(f1.cs, f1.e);
        GenCallsBelow(g, p1, p2.TTrue?, tt1, FULL, d);
        ChoiceCallsBelow(f1.cs, f1.e, Gen(g, p1, p2.TTrue?, tt1, FULL, d), c2, false, n);
      }
    case TRep(p) =>
      var f := First(g, p, FULL, d);
      GenCallsBelow(g, p, false, TestOf(f.cs, false), FULL, d);
      GenCallsBelow(g, p, false, NoTest, FULL, d);
      LoopCallsBelow(f.cs, f.e, opt, Gen(g, p, false, TestOf(f.cs, false), FULL, d), |g|);
      LoopCallsBelow(f.cs, f.e, opt, Gen(g, p, false, NoTest, FULL, d), |g|);
    case TBehind(p, n) => GenCallsBelow(g, p, false, NoTest, FULL, d);
    case TNot(p) =>
      var f := First(g, p, FULL, d);
      GenCallsBelow(g, p, false, NoTest, FULL, d);
      LookCallsBelow(f.cs, f.e, Gen(g, p, false, NoTest, FULL, d), |g|);
    case TAnd(p) =>
      GenCallsBelow(g, p, false, tt, FULL, d);
      LookCallsBelow({}, true, Gen(g, p, false, tt, FULL, d), |g|);
    case TCapture(_, _, p) => GenCallsBelow(g, p, false, tt, fl, d);
    case TGrammar(rules) =>
      var r := GenRules(rules, rules, 0, d);
      GenRulesCallsBelow(rules, rules, 0, d);
      GrammarHasNoOpenCall(r, |g|);
    case TSeq(p1, p2) =>
      var fl1 := if NeedFollow(p1) then First(g, p2, fl, d).cs else FULL;
      var tt2 := if FixedLen(g, p1, d) != 0 then NoTest else tt;
      GenCallsBelow(g, p1, false, tt, fl1, d);
      GenCallsBelow(g, p2, opt, tt2, fl, d);
      ConcatCallsBelow(Gen(g, p1, false, tt, fl1, d), Gen(g, p2, opt, tt2, fl, d), |g|);
    case _ =>
  }

  lemma {:induction false} GenRulesCallsBelow(g: seq<Tree>, rules: seq<Tree>, start: nat, d: nat)
    requires forall k :: 0 <= k < |rules| ==> WellFormed(g, rules[k], d)
    ensures CallsBelow(GenRules(g, rules, start, d).code, |g|)
    decreases rules, 0
  {
    if rules != [] {
      GenCallsBelow(g, rules[0], false, NoTest, FULL, d);
      var c := Gen(g, rules[0], false, NoTest, FULL, d) + [IRet];
      GenRulesCallsBelow(g, rules[1..], start + |c|, d);
    }
  }

  /** The code of rule `k`, with its return, stands at its position. */
  lemma {:induction false} GenRulesSlice(g: seq<Tree>, rules: seq<Tree>, start: nat, d: nat, k: nat)
    requires k < |rules|
    ensures var r := GenRules(g, rules, start, d);
            var c := Gen(g, rules[k], false, NoTest, FULL, d) + [IRet];
            var at := r.positions[k] - start;
            0 <= at && at + |c| <= |r.code| && r.code[at..at + |c|] == c
    ensures GenRules(g, rules, start, d).positions[0] == start
    decreases k
  {
    hide Gen;
    var c0 := Gen(g, rules[0], false, NoTest, FULL, d) + [IRet];
    var rest := GenRules(g, rules[1..], start + |c0|, d);
    if k == 0 {
      SliceFirst(c0, rest.code);
    } else {
      GenRulesSlice(g, rules[1..], start + |c0|, d, k - 1);
      var c := Gen(g, rules[k], false, NoTest, FULL, d) + [IRet];
      SliceLater(c0, rest.code, rest.positions[k - 1] - start - |c0|, c);
    }
  }

  lemma SliceFirst(a: seq<Instr>, b: seq<Instr>)
    ensures (a + b)[0..|a|] == a
  {
  }

  lemma SliceLater(a: seq<Instr>, b: seq<Instr>, at: nat, c: seq<Instr>)
    requires at + |c| <= |b| && b[at..at + |c|] == c
    ensures (a + b)[|a| + at..|a| + at + |c|] == c
  {
    assert (a + b)[|a| + at..|a| + at + |c|] == b[at..at + |c|];
  }

  /** A chain of jumps to a return is still one when the code is placed in a program. */
  lemma {:induction false} ChainPlaced(prog: seq<Instr>, base: nat, code: seq<Instr>, a: int, n: nat)
    requires base + |code| <= |prog| && prog[base..base + |code|] == code
    requires IsRet(code, FinalTarget(code, a, n))
    ensures IsRet(prog, FinalTarget(prog, base + a, n))
    decreases n
  {
    if n > 0 && 0 <= a < |code| && code[a].IJmp? {
      assert prog[base + a] == prog[base..base + |code|][a];
      ChainPlaced(prog, base, code, a + code[a].offset, n - 1);
    } else {
      assert prog[base + a] == prog[base..base + |code|][a];
    }
  }

  lemma PlacedWithoutCalls(prog: seq<Instr>, base: int, code: seq<Instr>, pos: seq<int>)
    requires Placed(prog, base, code, pos) && CallsBelow(code, 0) && code != []
    ensures 0 <= base && base + |code| <= |prog| && prog[base..base + |code|] == code
  {
    assert CellOk(prog, base + 0, code[0], pos);
    assert CellOk(prog, base + (|code| - 1), code[|code| - 1], pos);
    forall x | 0 <= x < |code|
      ensures prog[base + x] == code[x]
    {
      assert CellOk(prog, base + x, code[x], pos);
    }
  }

  /** The resolved code of rules, placed at `base`, and the resulting positions of the rules. */
  ghost predicate RulesAt(prog: seq<Instr>, base: int, out: seq<Instr>, r: RulesCode, pos: seq<int>) {
    && 0 <= base && base + |out| <= |prog| && prog[base..base + |out|] == out
    && |pos| == |r.positions| && (forall k :: 0 <= k < |pos| ==> pos[k] == base + r.positions[k])
    && |out| == |r.code| && CallsBelow(r.code, |pos|)
    && (forall x :: 0 <= x < |out| ==> Resolved(r.code[x], out, x, r.positions))
  }

  lemma RulesAtIntro(prog: seq<Instr>, base: int, r: RulesCode, outer: seq<int>) returns (pos: seq<int>)
    requires CallsBelow(r.code, |r.positions|) && r.code != []
    requires Placed(prog, base, CorrectCalls(r.code, r.positions, 0), outer)
    ensures RulesAt(prog, base, CorrectCalls(r.code, r.positions, 0), r, pos)
  {
    pos := seq(|r.positions|, k requires 0 <= k < |r.positions| => base + r.positions[k]);
    GrammarHasNoOpenCall(r, 0);
    PlacedWithoutCalls(prog, base, CorrectCalls(r.code, r.positions, 0), outer);
    CorrectCallsResolves(r.code, r.positions, 0);
  }

  /** The code of a grammar holds its rules. */
  lemma GrammarPlaced(prog: seq<Instr>, base: int, rules: seq<Tree>, d: nat, outer: seq<int>) returns (pos: seq<int>)
    requires rules != [] && RulesWellFormed(rules, d)
    requires var r := GenRules(rules, rules, 0, d);
             Placed(prog, base, CorrectCalls(r.code, r.positions, 0), outer)
    ensures RulesPlaced(prog, rules, pos, d) && pos[0] == base
  {
    hide Gen, GenRules, WellFormed, CorrectCalls, CallsBelow, Resolved, Placed, RulesAt;
    var r := GenRules(rules, rules, 0, d);
    GenRulesCallsBelow(rules, rules, 0, d);
    GenRulesSlice(rules, rules, 0, d, 0);
    pos := RulesAtIntro(prog, base, r, outer);
    RuleAt(prog, base, rules, d, r, pos, 0);
    forall k | 0 <= k < |rules|
      ensures Placed(prog, pos[k], Gen(rules, rules[k], false, NoTest, FULL, d) + [IRet], pos)
    {
      RuleAt(prog, base, rules, d, r, pos, k);
    }
  }

  lemma RuleAt(prog: seq<Instr>, base: int, rules: seq<Tree>, d: nat, r: RulesCode, pos: seq<int>, k: nat)
    requires r == GenRules(rules, rules, 0, d) && k < |rules|
    requires RulesAt(prog, base, CorrectCalls(r.code, r.positions, 0), r, pos)
    ensures |pos| == |rules| && pos[k] == base + r.positions[k]
    ensures Placed(prog, pos[k], Gen(rules, rules[k], false, NoTest, FULL, d) + [IRet], pos)
  {
    hide Gen, GenRules, CorrectCalls, CallsBelow, Resolved, Placed;
    GenRulesSlice(rules, rules, 0, d, k);
    SlicePlaced(prog, base, CorrectCalls(r.code, r.positions, 0), r, r.positions[k],
                Gen(rules, rules[k], false, NoTest, FULL, d) + [IRet], pos);
  }

  lemma SlicePlaced(prog: seq<Instr>, base: nat, out: seq<Instr>, r: RulesCode, at: nat, c: seq<Instr>, pos: seq<int>)
    requires RulesAt(prog, base, out, r, pos)
    requires at + |c| <= |r.code| && r.code[at..at + |c|] == c
    ensures Placed(prog, base + at, c, pos)
  {
    forall x | 0 <= x < |c|
      ensures CellOk(prog, base + at + x, c[x], pos)
    {
      assert c[x] == r.code[at..at + |c|][x] == r.code[at + x];
      ResolvedPlaced(prog, base, out, r.code[at + x], at + x, r.positions, pos);
    }
  }

  lemma ResolvedPlaced(prog: seq<Instr>, base: nat, out: seq<Instr>, cell: Instr, x: nat, positions: seq<nat>, pos: seq<int>)
    requires base + |out| <= |prog| && prog[base..base + |out|] == out
    requires Resolved(cell, out, x, positions)
    requires |pos| == |positions| && forall k :: 0 <= k < |pos| ==> pos[k] == base + positions[k]
    requires cell.IOpenCall? ==> cell.rule < |pos|
    ensures CellOk(prog, base + x, cell, pos)
  {
    assert prog[base + x] == prog[base..base + |out|][x];
    if cell.IOpenCall? && out[x].IJmp? {
      var n: nat :| IsRet(out, FinalTarget(out, x + 2, n));
      ChainPlaced(prog, base, out, x + 2, n);
      assert LeadsToRet(prog, base + x + 2);
    }
  }
}
