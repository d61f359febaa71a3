/**
  The code of a pattern does what the pattern means.

  The statement is about code in context.  Code for `t` generated with follow set `fl` is placed
  somewhere in a program and run on an arbitrary stack.  If `t` fails, the machine ends as if it
  backtracked there and then.  If `t` succeeds at `j`, the machine ends as if it continued after
  the code at `j`, or it backtracks although the byte at `j` shows that whatever may follow would
  fail.  With `opt`, the newest choice on the stack is one that resumes right after the commit
  that follows the code, and the machine ends as if that commit had been taken.
 */
module LpegCorrect {
  import opened LpegTree
  import opened LpegAnalysis
  import opened LpegVm
  import opened LpegCode

  // ----- placement of code in a program -----

  /** The jumps from `a` lead to a return. */
  ghost predicate LeadsToRet(prog: seq<Instr>, a: int) {
    exists n: nat :: IsRet(prog, FinalTarget(prog, a, n))
  }

  /** Cell `a` of the program holds `cell`, an open call having become a call or a tail call. */
  ghost predicate CellOk(prog: seq<Instr>, a: int, cell: Instr, pos: seq<int>) {
    && 0 <= a < |prog|
    && if cell.IOpenCall? then
         && cell.rule < |pos|
         && (|| prog[a] == ICall(pos[cell.rule] - a)
             || (prog[a] == IJmp(pos[cell.rule] - a) && LeadsToRet(prog, a + 2)))
       else
         prog[a] == cell
  }

  ghost predicate Placed(prog: seq<Instr>, base: int, code: seq<Instr>, pos: seq<int>) {
    forall x :: 0 <= x < |code| ==> CellOk(prog, base + x, code[x], pos)
  }

  lemma PlacedSplit(prog: seq<Instr>, base: int, a: seq<Instr>, b: seq<Instr>, pos: seq<int>)
    requires Placed(prog, base, a + b, pos)
    ensures Placed(prog, base, a, pos)
    ensures Placed(prog, base + |a|, b, pos)
  {
    forall x | 0 <= x < |a|
      ensures CellOk(prog, base + x, a[x], pos)
    {
      assert (a + b)[x] == a[x];
    }
    forall x | 0 <= x < |b|
      ensures CellOk(prog, base + |a| + x, b[x], pos)
    {
      assert (a + b)[|a| + x] == b[x];
    }
  }

  lemma PlacedHead(prog: seq<Instr>, base: int, code: seq<Instr>, pos: seq<int>)
    requires code != [] && !code[0].IOpenCall?
    requires Placed(prog, base, code, pos)
    ensures 0 <= base < |prog| && prog[base] == code[0]
  {
    assert CellOk(prog, base + 0, code[0], pos);
  }

  /** The rules of the grammar are in the program, each followed by a return. */
  ghost predicate RulesPlaced(prog: seq<Instr>, g: seq<Tree>, pos: seq<int>, d: nat) {
    && |pos| == |g|
    && forall k :: 0 <= k < |g| ==>
         Placed(prog, pos[k], Gen(g, g[k], false, NoTest, FULL, d) + [IRet], pos)
  }

  // ----- trees the library builds -----

  predicate CallFree(t: Tree) {
    match t
    case TCall(_) => false
    case TRep(p) => CallFree(p)
    case TNot(p) => CallFree(p)
    case TAnd(p) => CallFree(p)
    case TBehind(p, _) => CallFree(p)
    case TCapture(_, _, p) => CallFree(p)
    case TSeq(p1, p2) => CallFree(p1) && CallFree(p2)
    case TChoice(p1, p2) => CallFree(p1) && CallFree(p2)
    case _ => true
  }

  /** What the tree constructors and the fixing of calls guarantee: a call names a rule of its
      grammar, a grammar has an initial rule, and look-behind has a body of the recorded fixed
      length without captures and without calls. */
  predicate WellFormed(g: seq<Tree>, t: Tree, d: nat)
    decreases t
  {
    match t
    case TCall(k) => k < |g|
    case TRep(p) => WellFormed(g, p, d)
    case TNot(p) => WellFormed(g, p, d)
    case TAnd(p) => WellFormed(g, p, d)
    case TCapture(_, _, p) => WellFormed(g, p, d)
    case TSeq(p1, p2) => WellFormed(g, p1, d) && WellFormed(g, p2, d)
    case TChoice(p1, p2) => WellFormed(g, p1, d) && WellFormed(g, p2, d)
    case TBehind(p, n) =>
      WellFormed(g, p, d) && CallFree(p) && FixedLen(g, p, d) == n && !HasCaptures(g, p, {}, d)
    case TGrammar(rules) => rules != [] && forall k :: 0 <= k < |rules| ==> WellFormed(rules, rules[k], d)
    case _ => true
  }

  predicate RulesWellFormed(g: seq<Tree>, d: nat) {
    forall k :: 0 <= k < |g| ==> WellFormed(g, g[k], d)
  }

  // ----- the contextual statement -----

  predicate Levels(stack: Stack, n: nat) {
    match stack
    case Empty => true
    case RetAddr(_, rest) => Levels(rest, n)
    case Choice(_, _, lvl, rest) => lvl <= n && Levels(rest, n)
  }

  lemma {:induction false} LevelsGrow(stack: Stack, n: nat, more: nat)
    requires Levels(stack, n) && n <= more
    ensures Levels(stack, more)
    decreases stack
  {
    match stack
    case Empty =>
    case RetAddr(_, rest) => LevelsGrow(rest, n, more);
    case Choice(_, _, _, rest) => LevelsGrow(rest, n, more);
  }

  /** Backtracking forgets captures made since the choice. */
  lemma {:induction false} BacktrackForgets(stack: Stack, caps: seq<Capture>, extra: seq<Capture>)
    requires Levels(stack, |caps|)
    ensures Backtrack(stack, caps + extra) == Backtrack(stack, caps)
    decreases stack
  {
    match stack
    case Empty =>
    case RetAddr(_, rest) => BacktrackForgets(rest, caps, extra);
    case Choice(_, _, lvl, _) => assert (caps + extra)[..lvl] == caps[..lvl];
  }

  predicate TestHolds(tt: Test, s: seq<Byte>, i: nat) {
    match tt
    case NoTest => true
    case TestJmp => false
    case TestAny => i < |s|
    case TestChar(c) => i < |s| && s[i] == c
    case TestSet(cs) => i < |s| && s[i] in cs
  }

  predicate OptOk(prog: seq<Instr>, opt: bool, end: int, stack: Stack) {
    opt ==>
      && stack.Choice?
      && 0 <= end < |prog|
      && prog[end] == ICommit(stack.p - end)
  }

  /** Where the machine continues after a success at `j`. */
  function Goal(opt: bool, end: int, j: nat, stack: Stack, caps: seq<Capture>): State {
    if opt && stack.Choice? then Run(stack.p, j, stack.rest, caps) else Run(end, j, stack, caps)
  }

  ghost predicate SameEnd(m: Machine, a: State, b: State) {
    Final(m, a) == Final(m, b)
  }

  ghost predicate Agrees(m: Machine, st: State, r: Result, opt: bool, end: int, stack: Stack, caps: seq<Capture>, fl: Charset) {
    match r
    case Timeout => true
    case Fail => SameEnd(m, st, Backtrack(stack, caps))
    case Ok(j, added) =>
      || SameEnd(m, st, Goal(opt, end, j, stack, caps + added))
      || (j < |m.subj| && m.subj[j] !in fl && SameEnd(m, st, Backtrack(stack, caps)))
  }

  lemma ReachEnd(m: Machine, opt: bool, end: int, j: nat, stack: Stack, caps: seq<Capture>)
    requires OptOk(m.prog, opt, end, stack) && j <= |m.subj|
    ensures SameEnd(m, Run(end, j, stack, caps), Goal(opt, end, j, stack, caps))
  {
    FinalStep(m, Run(end, j, stack, caps));
  }

  // ----- tests -----

  lemma TestRuns(m: Machine, base: int, cs: Charset, e: bool, off: int, pos: seq<int>, i: nat, stack: Stack, caps: seq<Capture>)
    requires Placed(m.prog, base, TestCode(cs, e, off), pos) && i <= |m.subj|
    ensures e || (i < |m.subj| && m.subj[i] in cs) ==>
              SameEnd(m, Run(base, i, stack, caps), Run(base + TestLen(cs, e), i, stack, caps))
    ensures !e && !(i < |m.subj| && m.subj[i] in cs) ==>
              SameEnd(m, Run(base, i, stack, caps), Run(base + off, i, stack, caps))
  {
    if !e {
      PlacedHead(m.prog, base, TestCode(cs, e, off), pos);
      FinalStep(m, Run(base, i, stack, caps));
    }
  }

  lemma TestOfHolds(cs: Charset, e: bool, s: seq<Byte>, i: nat)
    requires e || (i < |s| && s[i] in cs)
    ensures TestHolds(TestOf(cs, e), s, i)
  {
  }

  // ----- one lemma for each shape of code -----

  lemma LeafCorrect(m: Machine, g: seq<Tree>, pos: seq<int>, t: Tree, opt: bool, tt: Test, fl: Charset, d: nat,
                    base: int, i: nat, stack: Stack, caps: seq<Capture>, fuel: nat)
    requires t.TChar? || t.TAny? || t.TSet? || t.TTrue? || t.TFalse?
    requires i <= |m.subj| && TestHolds(tt, m.subj, i)
    requires Placed(m.prog, base, Gen(g, t, opt, tt, fl, d), pos)
    requires OptOk(m.prog, opt, base + |Gen(g, t, opt, tt, fl, d)|, stack)
    ensures Agrees(m, Run(base, i, stack, caps), Peg(g, t, m.subj, i, fuel), opt,
                   base + |Gen(g, t, opt, tt, fl, d)|, stack, caps, fl)
  {
    hide First, Headfail, FixedLen, HasCaptures, Placed, Backtrack, Final;
    var code := Gen(g, t, opt, tt, fl, d);
    assert caps + [] == caps;
    if t.TTrue? {
      ReachEnd(m, opt, base, i, stack, caps);
    } else {
      PlacedHead(m.prog, base, code, pos);
      FinalStep(m, Run(base, i, stack, caps));
      if Peg(g, t, m.subj, i, fuel).Ok? {
        assert Step(m, Run(base, i, stack, caps)) == Run(base + |code|, i + 1, stack, caps);
        ReachEnd(m, opt, base + |code|, i + 1, stack, caps);
      } else {
        assert Step(m, Run(base, i, stack, caps)) == Backtrack(stack, caps);
      }
    }
  }

  lemma ChoiceByTestPlaced(prog: seq<Instr>, base: int, cs1: Charset, c1: seq<Instr>, c2: seq<Instr>, jump: bool, pos: seq<int>)
    requires Placed(prog, base, ChoiceByTest(cs1, c1, c2, jump), pos)
    ensures var j := if jump then 2 else 0;
            var b1 := base + TestLen(cs1, false);
            && Placed(prog, base, TestCode(cs1, false, TestLen(cs1, false) + |c1| + j), pos)
            && Placed(prog, b1, c1, pos)
            && Placed(prog, b1 + |c1| + j, c2, pos)
            && (jump ==> 0 <= b1 + |c1| < |prog| && prog[b1 + |c1|] == IJmp(2 + |c2|))
            && |ChoiceByTest(cs1, c1, c2, jump)| == TestLen(cs1, false) + |c1| + j + |c2|
  {
    var j := if jump then [IJmp(2 + |c2|), Ext] else [];
    var test := TestCode(cs1, false, TestLen(cs1, false) + |c1| + |j|);
    PlacedSplit(prog, base, test, c1 + (j + c2), pos);
    PlacedSplit(prog, base + |test|, c1, j + c2, pos);
    PlacedSplit(prog, base + |test| + |c1|, j, c2, pos);
    if jump {
      PlacedHead(prog, base + |test| + |c1|, j, pos);
    }
  }

  lemma ChoiceByStackPlaced(prog: seq<Instr>, base: int, cs1: Charset, e1: bool, c1: seq<Instr>, c2: seq<Instr>, pos: seq<int>)
    requires Placed(prog, base, ChoiceByStack(cs1, e1, c1, c2), pos)
    ensures var b0 := base + TestLen(cs1, e1);
            && Placed(prog, base, TestCode(cs1, e1, TestLen(cs1, e1) + 4 + |c1|), pos)
            && 0 <= b0 < |prog| && prog[b0] == IChoice(4 + |c1|)
            && Placed(prog, b0 + 2, c1, pos)
            && 0 <= b0 + 2 + |c1| < |prog| && prog[b0 + 2 + |c1|] == ICommit(2 + |c2|)
            && Placed(prog, b0 + 4 + |c1|, c2, pos)
            && |ChoiceByStack(cs1, e1, c1, c2)| == TestLen(cs1, e1) + 4 + |c1| + |c2|
  {
    var test := TestCode(cs1, e1, TestLen(cs1, e1) + 4 + |c1|);
    var choice := [IChoice(4 + |c1|), Ext];
    var commit := [ICommit(2 + |c2|), Ext];
    PlacedSplit(prog, base, test, choice + (c1 + (commit + c2)), pos);
    PlacedSplit(prog, base + |test|, choice, c1 + (commit + c2), pos);
    PlacedHead(prog, base + |test|, choice, pos);
    PlacedSplit(prog, base + |test| + 2, c1, commit + c2, pos);
    PlacedSplit(prog, base + |test| + 2 + |c1|, commit, c2, pos);
    PlacedHead(prog, base + |test| + 2 + |c1|, commit, pos);
  }

  lemma RepByTestPlaced(prog: seq<Instr>, base: int, cs: Charset, c: seq<Instr>, pos: seq<int>)
    requires Placed(prog, base, RepByTest(cs, c), pos)
    ensures var b1 := base + TestLen(cs, false);
            && Placed(prog, base, TestCode(cs, false, TestLen(cs, false) + |c| + 2), pos)
            && Placed(prog, b1, c, pos)
            && 0 <= b1 + |c| < |prog| && prog[b1 + |c|] == IJmp(-(TestLen(cs, false) + |c|))
            && |RepByTest(cs, c)| == TestLen(cs, false) + |c| + 2
  {
    var test := TestCode(cs, false, TestLen(cs, false) + |c| + 2);
    var jmp := [IJmp(-(TestLen(cs, false) + |c|)), Ext];
    PlacedSplit(prog, base, test, c + jmp, pos);
    PlacedSplit(prog, base + |test|, c, jmp, pos);
    PlacedHead(prog, base + |test| + |c|, jmp, pos);
  }

  lemma RepByStackPlaced(prog: seq<Instr>, base: int, cs: Charset, e: bool, opt: bool, c: seq<Instr>, pos: seq<int>)
    requires Placed(prog, base, RepByStack(cs, e, opt, c), pos)
    ensures var b0 := base + TestLen(cs, e);
            && Placed(prog, base, TestCode(cs, e, TestLen(cs, e) + 4 + |c|), pos)
            && 0 <= b0 < |prog| && prog[b0] == (if opt then IPartialCommit(2) else IChoice(4 + |c|))
            && Placed(prog, b0 + 2, c, pos)
            && 0 <= b0 + 2 + |c| < |prog| && prog[b0 + 2 + |c|] == IPartialCommit(-|c|)
            && |RepByStack(cs, e, opt, c)| == TestLen(cs, e) + 4 + |c|
  {
    var test := TestCode(cs, e, TestLen(cs, e) + 4 + |c|);
    var choice := [if opt then IPartialCommit(2) else IChoice(4 + |c|), Ext];
    var commit := [IPartialCommit(-|c|), Ext];
    PlacedSplit(prog, base, test, choice + (c + commit), pos);
    PlacedSplit(prog, base + |test|, choice, c + commit, pos);
    PlacedHead(prog, base + |test|, choice, pos);
    PlacedSplit(prog, base + |test| + 2, c, commit, pos);
    PlacedHead(prog, base + |test| + 2 + |c|, commit, pos);
  }

  lemma NotByStackPlaced(prog: seq<Instr>, base: int, cs: Charset, e: bool, c: seq<Instr>, pos: seq<int>)
    requires Placed(prog, base, NotByStack(cs, e, c), pos)
    ensures var b0 := base + TestLen(cs, e);
            && Placed(prog, base, TestCode(cs, e, TestLen(cs, e) + 3 + |c|), pos)
            && 0 <= b0 < |prog| && prog[b0] == IChoice(3 + |c|)
            && Placed(prog, b0 + 2, c, pos)
            && 0 <= b0 + 2 + |c| < |prog| && prog[b0 + 2 + |c|] == IFailTwice
            && |NotByStack(cs, e, c)| == TestLen(cs, e) + 3 + |c|
  {
    var test := TestCode(cs, e, TestLen(cs, e) + 3 + |c|);
    var choice := [IChoice(3 + |c|), Ext];
    PlacedSplit(prog, base, test, choice + (c + [IFailTwice]), pos);
    PlacedSplit(prog, base + |test|, choice, c + [IFailTwice], pos);
    PlacedHead(prog, base + |test|, choice, pos);
    PlacedSplit(prog, base + |test| + 2, c, [IFailTwice], pos);
    PlacedHead(prog, base + |test| + 2 + |c|, [IFailTwice], pos);
  }

  lemma AndByStackPlaced(prog: seq<Instr>, base: int, c: seq<Instr>, pos: seq<int>)
    requires Placed(prog, base, AndByStack(c), pos)
    ensures && 0 <= base < |prog| && prog[base] == IChoice(4 + |c|)
            && Placed(prog, base + 2, c, pos)
            && 0 <= base + 2 + |c| && base + 4 + |c| < |prog|
            && prog[base + 2 + |c|] == IBackCommit(3) && prog[base + 4 + |c|] == IFail
  {
    var choice := [IChoice(4 + |c|), Ext];
    var commit := [IBackCommit(3), Ext];
    assert commit + [IFail] == [IBackCommit(3), Ext, IFail];
    PlacedSplit(prog, base, choice, c + (commit + [IFail]), pos);
    PlacedHead(prog, base, choice, pos);
    PlacedSplit(prog, base + 2, c, commit + [IFail], pos);
    PlacedSplit(prog, base + 2 + |c|, commit, [IFail], pos);
    PlacedHead(prog, base + 2 + |c|, commit, pos);
    PlacedHead(prog, base + 4 + |c|, [IFail], pos);
  }
}
