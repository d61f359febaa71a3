/**
  Chains of jumps in the code of accepted patterns end, wherever they start: a chain that runs from
  rule to rule through tail calls would be left recursion, which the check has ruled out.
 */
module LpegEnds {
  import opened LpegTree
  import opened LpegAnalysis
  import opened LpegVm
  import opened LpegCode
  import opened LpegCorrect
  import opened LpegCalls
  import opened LpegJumps
  import opened LpegBound
  import opened LpegVerify
  import opened LpegPeephole

  /** The chain of jumps from `x` ends at `y`. */
  ghost predicate EndsAt(c: seq<Instr>, x: int, y: int) {
    !AtJump(c, y) && exists n: nat :: FinalTarget(c, x, n) == y
  }

  ghost predicate Ends(c: seq<Instr>, x: int) {
    exists n: nat :: !AtJump(c, FinalTarget(c, x, n))
  }

  ghost predicate AllEnd(c: seq<Instr>) {
    forall x :: 0 <= x <= |c| ==> Ends(c, x)
  }

  lemma EndsHere(c: seq<Instr>, x: int)
    requires !AtJump(c, x)
    ensures EndsAt(c, x, x)
  {
    assert FinalTarget(c, x, 0) == x;
  }

  lemma EndsAfterJump(c: seq<Instr>, x: int, y: int)
    requires AtJump(c, x) && EndsAt(c, x + c[x].offset, y)
    ensures EndsAt(c, x, y)
  {
    var n: nat :| FinalTarget(c, x + c[x].offset, n) == y;
    assert FinalTarget(c, x, n + 1) == y;
  }

  lemma EndsIsEndsAt(c: seq<Instr>, x: int)
    ensures Ends(c, x) <==> exists y :: EndsAt(c, x, y)
  {
    hide FinalTarget;
    if Ends(c, x) {
      var n: nat :| !AtJump(c, FinalTarget(c, x, n));
      assert EndsAt(c, x, FinalTarget(c, x, n));
    }
    if y :| EndsAt(c, x, y) {
      var n: nat :| FinalTarget(c, x, n) == y;
      assert !AtJump(c, FinalTarget(c, x, n));
    }
  }

  lemma LeadsOn(c: seq<Instr>, x: int, m: nat, y: int)
    requires EndsAt(c, FinalTarget(c, x, m), y)
    ensures EndsAt(c, x, y)
  {
    hide FinalTarget;
    var n: nat :| FinalTarget(c, FinalTarget(c, x, m), n) == y;
    JumpsAdd(c, x, m, n);
    assert FinalTarget(c, x, m + n) == y;
  }

  /** `c` stands in `p` from `at` on. */
  predicate Stands(p: seq<Instr>, at: nat, c: seq<Instr>) {
    at + |c| <= |p| && forall x :: 0 <= x < |c| ==> p[at + x] == c[x]
  }

  /** A chain inside a part of the code is a chain of the code, up to where it leaves the part. */
  lemma {:induction false} Within(p: seq<Instr>, at: nat, c: seq<Instr>, x: int, n: nat) returns (m: nat)
    requires Stands(p, at, c) && Contained(c) && 0 <= x <= |c|
    ensures 0 <= FinalTarget(c, x, n) <= |c|
    ensures FinalTarget(p, at + x, m) == at + FinalTarget(c, x, n)
    decreases n
  {
    m := 0;
    if n > 0 && AtJump(c, x) {
      m := Within(p, at, c, x + c[x].offset, n - 1);
      m := m + 1;
    }
  }

  lemma EndsInside(c: seq<Instr>, x: int, y: int)
    requires Contained(c) && 0 <= x <= |c| && EndsAt(c, x, y)
    ensures 0 <= y <= |c|
  {
    hide FinalTarget;
    var n: nat :| FinalTarget(c, x, n) == y;
    var _ := Within(c, 0, c, x, n);
  }

  /** A chain that ends inside a part ends there; one that leaves it goes on behind it. */
  lemma PartEnds(p: seq<Instr>, at: nat, c: seq<Instr>, x: int, y: int, z: int)
    requires Stands(p, at, c) && Contained(c) && 0 <= x <= |c| && EndsAt(c, x, y)
    ensures y < |c| ==> EndsAt(p, at + x, at + y)
    ensures y == |c| && EndsAt(p, at + |c|, z) ==> EndsAt(p, at + x, z)
  {
    hide FinalTarget;
    var n: nat :| FinalTarget(c, x, n) == y;
    var m := Within(p, at, c, x, n);
    EndsInside(c, x, y);
    if y < |c| {
      EndsHere(p, at + y);
      LeadsOn(p, at + x, m, at + y);
    } else if EndsAt(p, at + |c|, z) {
      LeadsOn(p, at + x, m, z);
    }
  }

  lemma StandsLeft(a: seq<Instr>, b: seq<Instr>)
    ensures Stands(a + b, 0, a) && Stands(a + b, |a|, b)
  {
  }

  // ----- pieces of code -----

  /** Code whose chains all end, followed by such code. */
  lemma ConcatEnds(a: seq<Instr>, b: seq<Instr>)
    requires AllEnd(a) && AllEnd(b) && Contained(a) && Contained(b)
    ensures AllEnd(a + b)
  {
    hide FinalTarget, EndsAt, Contained, Ends, Stands;
    forall x | 0 <= x <= |a + b| ensures Ends(a + b, x) {
      if x >= |a| { SecondEnds(a, b, x - |a|); } else { FirstEnds(a, b, x); }
    }
  }

  lemma SecondEnds(a: seq<Instr>, b: seq<Instr>, x: int)
    requires Contained(b) && 0 <= x <= |b| && Ends(b, x)
    ensures Ends(a + b, |a| + x)
  {
    hide FinalTarget, Contained, EndsAt;
    StandsLeft(a, b);
    EndsIsEndsAt(b, x);
    var y :| EndsAt(b, x, y);
    OverEnd(a + b);
    PartEnds(a + b, |a|, b, x, y, |a| + |b|);
    EndsInside(b, x, y);
    EndsIsEndsAt(a + b, |a| + x);
  }

  lemma OverEnd(c: seq<Instr>)
    ensures EndsAt(c, |c|, |c|)
  {
    EndsHere(c, |c|);
  }

  lemma FirstEnds(a: seq<Instr>, b: seq<Instr>, x: int)
    requires Contained(a) && Contained(b) && 0 <= x <= |a| && Ends(a, x) && Ends(b, 0)
    ensures Ends(a + b, x)
  {
    hide FinalTarget, Contained, EndsAt;
    StandsLeft(a, b);
    EndsIsEndsAt(a, x);
    var y :| EndsAt(a, x, y);
    SecondEnds(a, b, 0);
    EndsIsEndsAt(a + b, |a|);
    var z :| EndsAt(a + b, |a|, z);
    PartEnds(a + b, 0, a, x, y, z);
    EndsInside(a, x, y);
    EndsIsEndsAt(a + b, x);
  }

  /** Instructions that do not jump, or jump into what follows. */
  predicate Enters(h: seq<Instr>, b: seq<Instr>) {
    forall x :: 0 <= x < |h| && h[x].IJmp? ==> |h| <= x + h[x].offset <= |h| + |b|
  }

  lemma HeadEnds(h: seq<Instr>, b: seq<Instr>)
    requires Enters(h, b) && AllEnd(b) && Contained(b)
    ensures AllEnd(h + b)
  {
    hide FinalTarget, EndsAt, Contained, Ends, Stands;
    var c := h + b;
    forall x | 0 <= x <= |c| ensures Ends(c, x) {
      if x >= |h| {
        SecondEnds(h, b, x - |h|);
      } else if h[x].IJmp? {
        var y := x + h[x].offset;
        SecondEnds(h, b, y - |h|);
        JumpEnds(c, x);
      } else {
        StopEnds(c, x);
      }
    }
  }

  lemma JumpEnds(c: seq<Instr>, x: int)
    requires AtJump(c, x) && Ends(c, x + c[x].offset)
    ensures Ends(c, x)
  {
    hide FinalTarget, EndsAt;
    EndsIsEndsAt(c, x + c[x].offset);
    var y :| EndsAt(c, x + c[x].offset, y);
    EndsAfterJump(c, x, y);
    EndsIsEndsAt(c, x);
  }

  lemma StopEnds(c: seq<Instr>, x: int)
    requires !AtJump(c, x)
    ensures Ends(c, x)
  {
    hide FinalTarget, EndsAt;
    EndsHere(c, x);
    EndsIsEndsAt(c, x);
  }

  predicate NoJump(c: seq<Instr>) {
    forall x :: 0 <= x < |c| ==> !c[x].IJmp?
  }

  lemma NoJumpEnds(c: seq<Instr>)
    requires NoJump(c)
    ensures AllEnd(c) && Contained(c)
  {
    hide Ends, FinalTarget;
    forall x | 0 <= x <= |c| ensures Ends(c, x) {
      StopEnds(c, x);
    }
  }

  lemma TestEnters(cs: Charset, e: bool, offset: int, b: seq<Instr>)
    requires TestLen(cs, e) <= offset <= TestLen(cs, e) + |b|
    ensures Enters(TestCode(cs, e, offset), b)
  {
  }

  lemma TestEnds(cs: Charset, e: bool, offset: int, b: seq<Instr>)
    requires TestLen(cs, e) <= offset <= TestLen(cs, e) + |b| && AllEnd(b) && Contained(b)
    ensures AllEnd(TestCode(cs, e, offset) + b)
  {
    hide AllEnd, Contained, TestCode, TestLen, Enters;
    TestEnters(cs, e, offset, b);
    HeadEnds(TestCode(cs, e, offset), b);
  }

  lemma ChoiceEnds(cs: Charset, e: bool, c1: seq<Instr>, c2: seq<Instr>, jump: bool)
    requires AllEnd(c1) && AllEnd(c2) && Contained(c1) && Contained(c2)
    ensures AllEnd(ChoiceByTest(cs, c1, c2, jump)) && AllEnd(ChoiceByStack(cs, e, c1, c2))
  {
    hide AllEnd, TestCode;
    var j := if jump then [IJmp(2 + |c2|), Ext] else [];
    HeadEnds(j, c2);
    ConcatEnds(c1, j + c2);
    TestEnds(cs, false, TestLen(cs, false) + |c1| + |j|, c1 + (j + c2));
    var commit := [ICommit(2 + |c2|), Ext];
    HeadEnds(commit, c2);
    ConcatEnds(c1, commit + c2);
    ContainedConcat(c1, commit + c2);
    var choice := [IChoice(4 + |c1|), Ext];
    HeadEnds(choice, c1 + (commit + c2));
    ContainedConcat(choice, c1 + (commit + c2));
    TestEnds(cs, e, TestLen(cs, e) + 4 + |c1|, choice + (c1 + (commit + c2)));
  }

  lemma LoopByStackEnds(cs: Charset, e: bool, opt: bool, c: seq<Instr>)
    requires AllEnd(c) && Contained(c)
    ensures AllEnd(RepByStack(cs, e, opt, c))
  {
    hide AllEnd, TestCode;
    var back := [IPartialCommit(-|c|), Ext];
    NoJumpEnds(back);
    ConcatEnds(c, back);
    ContainedConcat(c, back);
    var choice := [if opt then IPartialCommit(2) else IChoice(4 + |c|), Ext];
    HeadEnds(choice, c + back);
    ContainedConcat(choice, c + back);
    TestEnds(cs, e, TestLen(cs, e) + 4 + |c|, choice + (c + back));
  }

  /** The jump back reaches the test, and a test that is itself a jump leaves the loop. */
  lemma LoopByTestEnds(cs: Charset, c: seq<Instr>)
    requires AllEnd(c) && Contained(c)
    ensures AllEnd(RepByTest(cs, c))
  {
    hide FinalTarget, EndsAt, Contained, Ends, Stands, CharsetType;
    var w := RepByTest(cs, c);
    var h := TestCode(cs, false, TestLen(cs, false) + |c| + 2);
    var back := [IJmp(-(TestLen(cs, false) + |c|)), Ext];
    assert w == h + (c + back);
    TestStart(cs, TestLen(cs, false) + |c| + 2);
    StopEnds(w, |w|);
    if h[0].IJmp? { JumpEnds(w, 0); } else { StopEnds(w, 0); }
    assert w[|h| + |c|] == back[0] && w[|h| + |c| + 1] == Ext;
    JumpEnds(w, |h| + |c|);
    forall x | 0 <= x <= |w| ensures Ends(w, x) {
      if x < |h| {
        if x > 0 { StopEnds(w, x); }
      } else if x < |h| + |c| {
        BodyEnds(w, |h|, c, x - |h|);
      } else if x == |h| + |c| + 1 {
        StopEnds(w, x);
      }
    }
  }

  lemma TestStart(cs: Charset, offset: int)
    ensures var h := TestCode(cs, false, offset);
            |h| == TestLen(cs, false) > 0 && (h[0].IJmp? ==> h[0].offset == offset) && forall x :: 0 < x < |h| ==> !h[x].IJmp?
  {
  }

  lemma BodyEnds(p: seq<Instr>, at: nat, c: seq<Instr>, x: int)
    requires at + |c| <= |p| && p[at..at + |c|] == c && Contained(c) && 0 <= x <= |c| && Ends(c, x) && Ends(p, at + |c|)
    ensures Ends(p, at + x)
  {
    hide FinalTarget, Contained, EndsAt;
    SliceStands(p, at, c);
    EndsIsEndsAt(c, x);
    var y :| EndsAt(c, x, y);
    EndsIsEndsAt(p, at + |c|);
    var z :| EndsAt(p, at + |c|, z);
    PartEnds(p, at, c, x, y, z);
    EndsInside(c, x, y);
    EndsIsEndsAt(p, at + x);
  }

  lemma SliceStands(p: seq<Instr>, at: nat, c: seq<Instr>)
    requires at + |c| <= |p| && p[at..at + |c|] == c
    ensures Stands(p, at, c)
  {
    forall x | 0 <= x < |c| ensures p[at + x] == c[x] {
      assert p[at..at + |c|][x] == p[at + x];
    }
  }

  lemma LookEnds(cs: Charset, e: bool, c: seq<Instr>)
    requires AllEnd(c) && Contained(c)
    ensures AllEnd(NotByTest(cs, e)) && AllEnd(NotByStack(cs, e, c)) && AllEnd(AndByStack(c))
  {
    hide AllEnd, TestCode;
    NoJumpEnds([IFail]);
    TestEnds(cs, e, TestLen(cs, e) + 1, [IFail]);
    NoJumpEnds([IFailTwice]);
    ConcatEnds(c, [IFailTwice]);
    ContainedConcat(c, [IFailTwice]);
    var choice := [IChoice(3 + |c|), Ext];
    HeadEnds(choice, c + [IFailTwice]);
    ContainedConcat(choice, c + [IFailTwice]);
    TestEnds(cs, e, TestLen(cs, e) + 3 + |c|, choice + (c + [IFailTwice]));
    var back := [IBackCommit(3), Ext, IFail];
    NoJumpEnds(back);
    ConcatEnds(c, back);
    ContainedConcat(c, back);
    HeadEnds([IChoice(4 + |c|), Ext], c + back);
  }

  // ----- which rules open calls name -----

  predicate CallsIn(code: seq<Instr>, s: set<nat>) {
    forall x :: 0 <= x < |code| && code[x].IOpenCall? ==> code[x].rule in s
  }

  lemma CallsInConcat(a: seq<Instr>, b: seq<Instr>, s: set<nat>)
    requires CallsIn(a, s) && CallsIn(b, s)
    ensures CallsIn(a + b, s)
  {
  }

  lemma CallsInMore(a: seq<Instr>, s: set<nat>, more: set<nat>)
    requires CallsIn(a, s) && s <= more
    ensures CallsIn(a, more)
  {
  }

  lemma CallsInChoice(cs: Charset, e: bool, c1: seq<Instr>, c2: seq<Instr>, jump: bool, s: set<nat>)
    requires CallsIn(c1, s) && CallsIn(c2, s)
    ensures CallsIn(ChoiceByTest(cs, c1, c2, jump), s)
    ensures CallsIn(ChoiceByStack(cs, e, c1, c2), s)
  {
    hide TestCode, CallsIn;
    var j := if jump then [IJmp(2 + |c2|), Ext] else [];
    SimpleCallsIn(j, s);
    CallsInConcat(j, c2, s);
    CallsInConcat(c1, j + c2, s);
    TestCallsIn(cs, false, TestLen(cs, false) + |c1| + |j|, s);
    CallsInConcat(TestCode(cs, false, TestLen(cs, false) + |c1| + |j|), c1 + (j + c2), s);
    var commit, choice := [ICommit(2 + |c2|), Ext], [IChoice(4 + |c1|), Ext];
    SimpleCallsIn(commit, s);
    CallsInConcat(commit, c2, s);
    CallsInConcat(c1, commit + c2, s);
    SimpleCallsIn(choice, s);
    CallsInConcat(choice, c1 + (commit + c2), s);
    TestCallsIn(cs, e, TestLen(cs, e) + 4 + |c1|, s);
    CallsInConcat(TestCode(cs, e, TestLen(cs, e) + 4 + |c1|), choice + (c1 + (commit + c2)), s);
  }

  lemma TestCallsIn(cs: Charset, e: bool, offset: int, s: set<nat>)
    ensures CallsIn(TestCode(cs, e, offset), s)
  {
  }

  lemma CallsInLoop(cs: Charset, e: bool, opt: bool, c: seq<Instr>, s: set<nat>)
    requires CallsIn(c, s)
    ensures CallsIn(RepByTest(cs, c), s)
    ensures CallsIn(RepByStack(cs, e, opt, c), s)
  {
  }

  lemma CallsInLook(cs: Charset, e: bool, c: seq<Instr>, s: set<nat>)
    requires CallsIn(c, s)
    ensures CallsIn(NotByTest(cs, e), s)
    ensures CallsIn(NotByStack(cs, e, c), s)
    ensures CallsIn(AndByStack(c), s)
  {
  }

  lemma GrammarCallsNone(rules: seq<Tree>, d: nat)
    requires RulesWellFormed(rules, d)
    ensures var r := GenRules(rules, rules, 0, d); CallsIn(GrammarCode(CorrectCalls(r.code, r.positions, 0)), {})
  {
    hide Gen, GenRules, CorrectCalls, WellFormed;
    var r := GenRules(rules, rules, 0, d);
    GenRulesCallsBelow(rules, rules, 0, d);
    GrammarHasNoOpenCall(r, 0);
  }

  /** The open calls in the code of a tree are calls of the tree. */
  lemma {:induction false} GenCallsIn(g: seq<Tree>, t: Tree, opt: bool, tt: Test, fl: Charset, d: nat)
    requires WellFormed(g, t, d)
    ensures CallsIn(Gen(g, t, opt, tt, fl, d), Calls(t))
    decreases t
  {
    hide First, Headfail, FixedLen, HasCaptures, CharsetType, TestOf, CallsIn,
      ChoiceByTest, ChoiceByStack, RepByTest, RepByStack, NotByTest, NotByStack, AndByStack, GrammarCode, NeedFollow, CorrectCalls;
    match t
    case TChoice(p1, p2) => ChoiceCallsIn(g, t, opt, tt, fl, d);
    case TRep(p) =>
      var f := First(g, p, FULL, d);
      GenCallsIn(g, p, false, TestOf(f.cs, false), FULL, d);
      GenCallsIn(g, p, false, NoTest, FULL, d);
      CallsInLoop(f.cs, f.e, opt, Gen(g, p, false, TestOf(f.cs, false), FULL, d), Calls(p));
      CallsInLoop(f.cs, f.e, opt, Gen(g, p, false, NoTest, FULL, d), Calls(p));
      if ToCharset(p).Some? { SimpleCallsIn([ISpan(ToCharset(p).value)] + Exts(CHARSETINSTSIZE - 1), Calls(t)); }
    case TBehind(p, n) =>
      GenCallsIn(g, p, false, NoTest, FULL, d);
      SimpleCallsIn(BehindCode(n), Calls(p));
      CallsInConcat(BehindCode(n), Gen(g, p, false, NoTest, FULL, d), Calls(p));
    case TNot(p) =>
      var f := First(g, p, FULL, d);
      GenCallsIn(g, p, false, NoTest, FULL, d);
      CallsInLook(f.cs, f.e, Gen(g, p, false, NoTest, FULL, d), Calls(p));
    case TAnd(p) =>
      var c := Gen(g, p, false, tt, FULL, d);
      GenCallsIn(g, p, false, tt, FULL, d);
      CallsInLook({}, true, c, Calls(p));
      if FixedLen(g, p, d) >= 0 {
        SimpleCallsIn(BehindCode(FixedLen(g, p, d)), Calls(p));
        CallsInConcat(c, BehindCode(FixedLen(g, p, d)), Calls(p));
      }
    case TCapture(kind, key, p) =>
      var c := Gen(g, p, false, tt, fl, d);
      GenCallsIn(g, p, false, tt, fl, d);
      CaptureCallsIn(kind, key, FixedLen(g, p, d), c, Calls(p));
    case TGrammar(rules) =>
      GrammarCallsNone(rules, d);
      var r := GenRules(rules, rules, 0, d);
      CallsInMore(GrammarCode(CorrectCalls(r.code, r.positions, 0)), {}, Calls(t));
    case TSeq(p1, p2) =>
      var fl1 := if NeedFollow(p1) then First(g, p2, fl, d).cs else FULL;
      var tt2 := if FixedLen(g, p1, d) != 0 then NoTest else tt;
      var c1, c2 := Gen(g, p1, false, tt, fl1, d), Gen(g, p2, opt, tt2, fl, d);
      GenCallsIn(g, p1, false, tt, fl1, d);
      GenCallsIn(g, p2, opt, tt2, fl, d);
      CallsInMore(c1, Calls(p1), Calls(t));
      CallsInMore(c2, Calls(p2), Calls(t));
      CallsInConcat(c1, c2, Calls(t));
    case TCall(k) => OneCallIn(k);
    case TChar(c) => SimpleCallsIn(CodeChar(c, tt), Calls(t));
    case TSet(cs) => CharsetCallsIn(cs, tt);
    case _ => SimpleCallsIn(Gen(g, t, opt, tt, fl, d), Calls(t));
  }

  lemma OneCallIn(k: nat)
    ensures CallsIn([IOpenCall(k), Ext], {k})
  {
  }

  lemma CharsetCallsIn(cs: Charset, tt: Test)
    ensures CallsIn(CodeCharset(cs, tt), {})
  {
  }

  lemma SimpleCallsIn(c: seq<Instr>, s: set<nat>)
    requires forall x :: 0 <= x < |c| ==> !c[x].IOpenCall?
    ensures CallsIn(c, s)
  {
  }

  lemma CaptureCallsIn(kind: nat, key: nat, n: int, c: seq<Instr>, s: set<nat>)
    requires CallsIn(c, s)
    ensures n >= 0 ==> CallsIn(c + [IFullCapture(kind, key, n)], s)
    ensures CallsIn([IOpenCapture(kind, key)] + (c + [ICloseCapture]), s)
  {
  }

  lemma {:induction false} ChoiceCallsIn(g: seq<Tree>, t: Tree, opt: bool, tt: Test, fl: Charset, d: nat)
    requires t.TChoice? && WellFormed(g, t, d)
    ensures CallsIn(Gen(g, t, opt, tt, fl, d), Calls(t))
    decreases t, 0
  {
    hide First, Headfail, CharsetType, TestOf, CallsIn, ChoiceByTest, ChoiceByStack;
    var p1, p2 := t.p1, t.p2;
    var f1 := First(g, p1, FULL, d);
    var c2 := Gen(g, p2, opt, NoTest, fl, d);
    GenCallsIn(g, p2, opt, NoTest, fl, d);
    CallsInMore(c2, Calls(p2), Calls(t));
    if Headfail(g, p1, d) || (!f1.e && f1.cs !! First(g, p2, fl, d).cs) {
      var c1 := Gen(g, p1, false, TestOf(f1.cs, false), fl, d);
      GenCallsIn(g, p1, false, TestOf(f1.cs, false), fl, d);
      CallsInMore(c1, Calls(p1), Calls(t));
      CallsInChoice(f1.cs, f1.e, c1, c2, !p2.TTrue?, Calls(t));
    } else if opt && p2.TTrue? {
      var c1 := Gen(g, p1, true, NoTest, FULL, d);
      GenCallsIn(g, p1, true, NoTest, FULL, d);
      CallsInMore(c1, Calls(p1), Calls(t));
      SimpleCallsIn([IPartialCommit(2), Ext], Calls(t));
      CallsInConcat([IPartialCommit(2), Ext], c1, Calls(t));
    } else {
      var c1 := Gen(g, p1, p2.TTrue?, TestOf(f1.cs, f1.e), FULL, d);
      GenCallsIn(g, p1, p2.TTrue?, TestOf(f1.cs, f1.e), FULL, d);
      CallsInMore(c1, Calls(p1), Calls(t));
      CallsInChoice(f1.cs, f1.e, c1, c2, false, Calls(t));
    }
  }

  // ----- where the jumps from the start of the code of a tree lead -----

  /** The walk of the check has passed rule `k` after `npassed` others. */
  ghost predicate Passed(g: seq<Tree>, k: nat, npassed: nat, d: nat) {
    && k < |g| && npassed <= MAXRULES
    && exists nb :: StrictRule(g, g[k], npassed, nb, d).Some?
  }

  /** The end of the chain from the start of `c`: `c` is left only if `exit`, and a call is one that the check has followed. */
  ghost predicate Corner(g: seq<Tree>, c: seq<Instr>, npassed: nat, exit: bool, d: nat) {
    exists y :: EndsAt(c, 0, y) && CornerAt(g, c, y, npassed, exit, d)
  }

  ghost predicate CornerAt(g: seq<Tree>, c: seq<Instr>, y: int, npassed: nat, exit: bool, d: nat) {
    && 0 <= y <= |c|
    && (y == |c| ==> exit)
    && (y < |c| && c[y].IOpenCall? ==> npassed < MAXRULES && Passed(g, c[y].rule, npassed + 1, d))
  }

  lemma CornerStops(g: seq<Tree>, c: seq<Instr>, npassed: nat, exit: bool, d: nat)
    requires c != [] && !c[0].IJmp? && !c[0].IOpenCall?
    ensures Corner(g, c, npassed, exit, d)
  {
    hide FinalTarget, EndsAt;
    EndsHere(c, 0);
    assert CornerAt(g, c, 0, npassed, exit, d);
  }

  lemma CornerEmpty(g: seq<Tree>, npassed: nat, d: nat)
    ensures Corner(g, [], npassed, true, d)
  {
    hide FinalTarget, EndsAt;
    EndsHere([], 0);
    assert CornerAt(g, [], 0, npassed, true, d);
  }

  /** If `a` may be left, what follows matters. */
  lemma CornerConcat(g: seq<Tree>, a: seq<Instr>, b: seq<Instr>, npassed: nat, out: bool, exit: bool, d: nat)
    requires Contained(a) && Contained(b) && Corner(g, a, npassed, out, d)
    requires out ==> Corner(g, b, npassed, exit, d)
    ensures Corner(g, a + b, npassed, exit, d)
  {
    hide FinalTarget, EndsAt, Contained, Passed;
    var y :| EndsAt(a, 0, y) && CornerAt(g, a, y, npassed, out, d);
    var c := a + b;
    StandsLeft(a, b);
    if y < |a| {
      PartEnds(c, 0, a, 0, y, 0);
      assert CornerAt(g, c, y, npassed, exit, d);
    } else {
      var z := CornerShift(g, a, b, npassed, exit, d);
      PartEnds(c, 0, a, 0, y, z);
    }
  }

  lemma CornerShift(g: seq<Tree>, a: seq<Instr>, b: seq<Instr>, npassed: nat, exit: bool, d: nat) returns (z: int)
    requires Contained(b) && Corner(g, b, npassed, exit, d)
    ensures EndsAt(a + b, |a|, z) && CornerAt(g, a + b, z, npassed, exit, d)
  {
    hide FinalTarget, EndsAt, Contained, Passed;
    var y :| EndsAt(b, 0, y) && CornerAt(g, b, y, npassed, exit, d);
    StandsLeft(a, b);
    OverEnd(a + b);
    PartEnds(a + b, |a|, b, 0, y, |a| + |b|);
    z := |a| + y;
  }

  /** A jump from the start to `b`, which ends the code. */
  lemma CornerJump(g: seq<Tree>, a: seq<Instr>, b: seq<Instr>, npassed: nat, exit: bool, d: nat)
    requires a != [] && a[0] == IJmp(|a|) && Contained(b) && Corner(g, b, npassed, exit, d)
    ensures Corner(g, a + b, npassed, exit, d)
  {
    hide FinalTarget, EndsAt, Contained, Passed;
    var z := CornerShift(g, a, b, npassed, exit, d);
    EndsAfterJump(a + b, 0, z);
  }

  /** Code that starts with a test: it is no jump, or it jumps to the rest `b` of the code. */
  lemma CornerTest(g: seq<Tree>, cs: Charset, e: bool, mid: seq<Instr>, b: seq<Instr>, npassed: nat, exit: bool, d: nat)
    requires Contained(b) && Corner(g, b, npassed, exit, d)
    requires e ==> mid != [] && !mid[0].IJmp? && !mid[0].IOpenCall?
    ensures Corner(g, TestCode(cs, e, TestLen(cs, e) + |mid|) + (mid + b), npassed, exit, d)
  {
    hide Corner, Contained, CharsetType;
    var h := TestCode(cs, e, TestLen(cs, e) + |mid|);
    var c := h + (mid + b);
    if e {
      assert c[0] == mid[0];
      CornerStops(g, c, npassed, exit, d);
    } else if h[0].IJmp? {
      assert c == (h + mid) + b;
      CornerJump(g, h + mid, b, npassed, exit, d);
    } else {
      CornerStops(g, c, npassed, exit, d);
    }
  }

  lemma CornerChoice(g: seq<Tree>, cs: Charset, e: bool, c1: seq<Instr>, c2: seq<Instr>, jump: bool, npassed: nat, exit: bool, d: nat)
    requires Contained(c2) && Corner(g, c2, npassed, exit, d)
    ensures Corner(g, ChoiceByTest(cs, c1, c2, jump), npassed, exit, d)
    ensures Corner(g, ChoiceByStack(cs, e, c1, c2), npassed, exit, d)
  {
    hide Corner, Contained, TestCode;
    var j := if jump then [IJmp(2 + |c2|), Ext] else [];
    CornerTest(g, cs, false, c1 + j, c2, npassed, exit, d);
    assert (c1 + j) + c2 == c1 + (j + c2);
    var mid := [IChoice(4 + |c1|), Ext] + (c1 + [ICommit(2 + |c2|), Ext]);
    CornerTest(g, cs, e, mid, c2, npassed, exit, d);
    assert mid + c2 == [IChoice(4 + |c1|), Ext] + (c1 + ([ICommit(2 + |c2|), Ext] + c2));
  }

  /** Loops and negative look-aheads may be left at once. */
  lemma CornerLeft(g: seq<Tree>, cs: Charset, e: bool, opt: bool, c: seq<Instr>, npassed: nat, d: nat)
    ensures Corner(g, RepByTest(cs, c), npassed, true, d) && Corner(g, RepByStack(cs, e, opt, c), npassed, true, d)
    ensures Corner(g, NotByTest(cs, e), npassed, true, d) && Corner(g, NotByStack(cs, e, c), npassed, true, d)
  {
    hide Corner, TestCode;
    CornerEmpty(g, npassed, d);
    var body := c + [IJmp(-(TestLen(cs, false) + |c|)), Ext];
    CornerTest(g, cs, false, body, [], npassed, true, d);
    assert body + [] == body;
    var loop := [if opt then IPartialCommit(2) else IChoice(4 + |c|), Ext] + (c + [IPartialCommit(-|c|), Ext]);
    CornerTest(g, cs, e, loop, [], npassed, true, d);
    assert loop + [] == loop;
    CornerTest(g, cs, e, [IFail], [], npassed, true, d);
    assert [IFail] + [] == [IFail];
    var look := [IChoice(3 + |c|), Ext] + (c + [IFailTwice]);
    CornerTest(g, cs, e, look, [], npassed, true, d);
    assert look + [] == look;
  }

  /** With the flag set, the walk's answer is `true`. */
  lemma FlaggedTrue(g: seq<Tree>, t: Tree, npassed: nat, d: nat)
    requires npassed <= MAXRULES && StrictRule(g, t, npassed, true, d).Some?
    ensures StrictRule(g, t, npassed, true, d) == Some(true)
  {
    hide StrictRule;
    var v := StrictRule(g, t, npassed, true, d);
    if !v.value {
      assert v == Some(false);
      StrictRuleSound(g, t, npassed, true, d);
    }
  }

  /** Whether the walk says that `t` may be passed without consuming input. */
  predicate Passable(g: seq<Tree>, t: Tree, npassed: nat, nb: bool, d: nat) {
    StrictRule(g, t, npassed, nb, d) == Some(true)
  }

  /** The walk goes through the tree. */
  predicate Walked(g: seq<Tree>, t: Tree, npassed: nat, nb: bool, d: nat) {
    npassed <= MAXRULES && StrictRule(g, t, npassed, nb, d).Some?
  }

  lemma SeqWalked(g: seq<Tree>, p1: Tree, p2: Tree, npassed: nat, nb: bool, d: nat)
    requires Walked(g, TSeq(p1, p2), npassed, nb, d)
    ensures Walked(g, p1, npassed, false, d)
    ensures Passable(g, p1, npassed, false, d) ==>
      Walked(g, p2, npassed, nb, d) && Passable(g, TSeq(p1, p2), npassed, nb, d) == Passable(g, p2, npassed, nb, d)
  {
  }

  lemma ChoiceWalked(g: seq<Tree>, p1: Tree, p2: Tree, npassed: nat, nb: bool, d: nat)
    requires Walked(g, TChoice(p1, p2), npassed, nb, d)
    ensures var nb2 := StrictRule(g, p1, npassed, nb, d);
            nb2.Some? && Walked(g, p2, npassed, nb2.value, d)
            && Passable(g, TChoice(p1, p2), npassed, nb, d) == Passable(g, p2, npassed, nb2.value, d)
  {
  }

  lemma FlagWalked(g: seq<Tree>, t: Tree, npassed: nat, nb: bool, d: nat)
    requires (t.TNot? || t.TAnd? || t.TRep?) && Walked(g, t, npassed, nb, d)
    ensures Walked(g, t.p, npassed, true, d) && Passable(g, t.p, npassed, true, d) && Passable(g, t, npassed, nb, d)
  {
    FlaggedTrue(g, t.p, npassed, d);
  }

  lemma CallWalked(g: seq<Tree>, k: nat, npassed: nat, nb: bool, d: nat)
    requires Walked(g, TCall(k), npassed, nb, d)
    ensures npassed < MAXRULES && Passed(g, k, npassed + 1, d)
  {
    assert StrictRule(g, g[k], npassed + 1, nb, d).Some?;
  }

  lemma CornerCall(g: seq<Tree>, k: nat, npassed: nat, exit: bool, d: nat)
    requires npassed < MAXRULES && Passed(g, k, npassed + 1, d)
    ensures Corner(g, [IOpenCall(k), Ext], npassed, exit, d)
  {
    hide FinalTarget, EndsAt, Passed;
    var c := [IOpenCall(k), Ext];
    EndsHere(c, 0);
    assert CornerAt(g, c, 0, npassed, exit, d);
  }

  /** Code without calls, all of whose chains end. */
  lemma CornerNoCalls(g: seq<Tree>, c: seq<Instr>, npassed: nat, d: nat)
    requires AllEnd(c) && Contained(c) && CallsIn(c, {})
    ensures Corner(g, c, npassed, true, d)
  {
    hide FinalTarget, EndsAt, Contained;
    EndsIsEndsAt(c, 0);
    var y :| EndsAt(c, 0, y);
    EndsInside(c, 0, y);
    assert CornerAt(g, c, y, npassed, true, d);
  }

  lemma BehindCorner(g: seq<Tree>, n: nat, npassed: nat, d: nat)
    ensures Corner(g, BehindCode(n), npassed, true, d) && Contained(BehindCode(n)) && AllEnd(BehindCode(n))
  {
    if n > 0 { CornerStops(g, BehindCode(n), npassed, true, d); } else { CornerEmpty(g, npassed, d); }
    NoJumpEnds(BehindCode(n));
  }

  /** The chain from the start of a tree's code follows the walk of the check. */
  lemma {:induction false} CornerOf(g: seq<Tree>, t: Tree, opt: bool, tt: Test, fl: Charset, npassed: nat, nb: bool, d: nat)
    requires WellFormed(g, t, d) && GrammarsOk(t, d) && Walked(g, t, npassed, nb, d)
    ensures Corner(g, Gen(g, t, opt, tt, fl, d), npassed, Passable(g, t, npassed, nb, d), d)
    decreases t, 3
  {
    hide First, Headfail, FixedLen, HasCaptures, CharsetType, TestOf, StrictRule, Walked, Passable, Corner, NeedFollow,
      ChoiceByTest, ChoiceByStack, RepByTest, RepByStack, NotByTest, NotByStack, AndByStack, GrammarCode, CorrectCalls, CodeCharset, VerifyGrammar;
    var exit := Passable(g, t, npassed, nb, d);
    match t
    case TTrue =>
      TrueWalked(g, npassed, nb, d);
      CornerEmpty(g, npassed, d);
    case TSet(cs) => CharsetCorner(g, cs, tt, npassed, exit, d);
    case TChoice(p1, p2) => ChoiceCorner(g, t, opt, tt, fl, npassed, nb, d);
    case TRep(p) =>
      FlagWalked(g, t, npassed, nb, d);
      var f := First(g, p, FULL, d);
      CornerLeft(g, f.cs, f.e, opt, Gen(g, p, false, TestOf(f.cs, false), FULL, d), npassed, d);
      CornerLeft(g, f.cs, f.e, opt, Gen(g, p, false, NoTest, FULL, d), npassed, d);
      if ToCharset(p).Some? { CornerStops(g, [ISpan(ToCharset(p).value)] + Exts(CHARSETINSTSIZE - 1), npassed, exit, d); }
    case TNot(p) =>
      FlagWalked(g, t, npassed, nb, d);
      var f := First(g, p, FULL, d);
      CornerLeft(g, f.cs, f.e, opt, Gen(g, p, false, NoTest, FULL, d), npassed, d);
    case TAnd(p) =>
      FlagWalked(g, t, npassed, nb, d);
      AndCorner(g, p, opt, tt, fl, npassed, d);
    case TBehind(p, n) => BehindFreeCorner(g, t, npassed, nb, d);
    case TCapture(kind, key, p) => CaptureCorner(g, t, tt, fl, npassed, nb, d);
    case TSeq(p1, p2) => SeqCorner(g, t, opt, tt, fl, npassed, nb, d);
    case TCall(k) =>
      CallWalked(g, k, npassed, nb, d);
      CornerCall(g, k, npassed, exit, d);
    case TGrammar(rules) =>
      var r := GenRules(rules, rules, 0, d);
      GrammarCorner(g, CorrectCalls(r.code, r.positions, 0), npassed, exit, d);
    case _ => CornerStops(g, Gen(g, t, opt, tt, fl, d), npassed, exit, d);
  }

  lemma TrueWalked(g: seq<Tree>, npassed: nat, nb: bool, d: nat)
    ensures Passable(g, TTrue, npassed, nb, d)
  {
  }

  lemma CharsetCorner(g: seq<Tree>, cs: Charset, tt: Test, npassed: nat, exit: bool, d: nat)
    ensures Corner(g, CodeCharset(cs, tt), npassed, exit, d)
  {
    hide Corner;
    CornerStops(g, CodeCharset(cs, tt), npassed, exit, d);
  }

  lemma GrammarCorner(g: seq<Tree>, rules: seq<Instr>, npassed: nat, exit: bool, d: nat)
    ensures Corner(g, GrammarCode(rules), npassed, exit, d)
  {
    hide Corner;
    CornerStops(g, GrammarCode(rules), npassed, exit, d);
  }

  lemma {:induction false} ChoiceCorner(g: seq<Tree>, t: Tree, opt: bool, tt: Test, fl: Charset, npassed: nat, nb: bool, d: nat)
    requires t.TChoice? && WellFormed(g, t, d) && GrammarsOk(t, d) && Walked(g, t, npassed, nb, d)
    ensures Corner(g, Gen(g, t, opt, tt, fl, d), npassed, Passable(g, t, npassed, nb, d), d)
    decreases t, 2
  {
    hide First, Headfail, TestOf, StrictRule, Walked, Passable, Corner, ChoiceByTest, ChoiceByStack;
    var p1, p2 := t.p1, t.p2;
    ChoiceWalked(g, p1, p2, npassed, nb, d);
    var nb2 := StrictRule(g, p1, npassed, nb, d).value;
    var exit := Passable(g, t, npassed, nb, d);
    var f1 := First(g, p1, FULL, d);
    var c2 := Gen(g, p2, opt, NoTest, fl, d);
    CornerOf(g, p2, opt, NoTest, fl, npassed, nb2, d);
    GenContained(g, p2, opt, NoTest, fl, d);
    if Headfail(g, p1, d) || (!f1.e && f1.cs !! First(g, p2, fl, d).cs) {
      CornerChoice(g, f1.cs, f1.e, Gen(g, p1, false, TestOf(f1.cs, false), fl, d), c2, !p2.TTrue?, npassed, exit, d);
    } else if opt && p2.TTrue? {
      CornerStops(g, [IPartialCommit(2), Ext] + Gen(g, p1, true, NoTest, FULL, d), npassed, exit, d);
    } else {
      CornerChoice(g, f1.cs, f1.e, Gen(g, p1, p2.TTrue?, TestOf(f1.cs, f1.e), FULL, d), c2, false, npassed, exit, d);
    }
  }

  lemma {:induction false} SeqCorner(g: seq<Tree>, t: Tree, opt: bool, tt: Test, fl: Charset, npassed: nat, nb: bool, d: nat)
    requires t.TSeq? && WellFormed(g, t, d) && GrammarsOk(t, d) && Walked(g, t, npassed, nb, d)
    ensures Corner(g, Gen(g, t, opt, tt, fl, d), npassed, Passable(g, t, npassed, nb, d), d)
    decreases t, 2
  {
    hide First, FixedLen, StrictRule, Walked, Passable, Corner, NeedFollow;
    var p1, p2 := t.p1, t.p2;
    var fl1 := if NeedFollow(p1) then First(g, p2, fl, d).cs else FULL;
    var tt2 := if FixedLen(g, p1, d) != 0 then NoTest else tt;
    SeqWalked(g, p1, p2, npassed, nb, d);
    CornerOf(g, p1, false, tt, fl1, npassed, false, d);
    GenContained(g, p1, false, tt, fl1, d);
    GenContained(g, p2, opt, tt2, fl, d);
    if Passable(g, p1, npassed, false, d) {
      CornerOf(g, p2, opt, tt2, fl, npassed, nb, d);
    }
    CornerConcat(g, Gen(g, p1, false, tt, fl1, d), Gen(g, p2, opt, tt2, fl, d), npassed,
                 Passable(g, p1, npassed, false, d), Passable(g, t, npassed, nb, d), d);
  }

  lemma {:induction false} AndCorner(g: seq<Tree>, p: Tree, opt: bool, tt: Test, fl: Charset, npassed: nat, d: nat)
    requires WellFormed(g, p, d) && GrammarsOk(p, d) && Walked(g, p, npassed, true, d)
    ensures Corner(g, Gen(g, TAnd(p), opt, tt, fl, d), npassed, true, d)
    decreases p, 4
  {
    hide Contained, FixedLen, HasCaptures, StrictRule, Walked, Passable, Corner;
    var c := Gen(g, p, false, tt, FULL, d);
    CornerOf(g, p, false, tt, FULL, npassed, true, d);
    GenContained(g, p, false, tt, FULL, d);
    if FixedLen(g, p, d) >= 0 {
      BehindCorner(g, FixedLen(g, p, d), npassed, d);
      CornerConcat(g, c, BehindCode(FixedLen(g, p, d)), npassed, Passable(g, p, npassed, true, d), true, d);
    }
    CornerStops(g, AndByStack(c), npassed, true, d);
  }

  lemma {:induction false} CaptureCorner(g: seq<Tree>, t: Tree, tt: Test, fl: Charset, npassed: nat, nb: bool, d: nat)
    requires t.TCapture? && WellFormed(g, t, d) && GrammarsOk(t, d) && Walked(g, t, npassed, nb, d)
    ensures forall opt :: Corner(g, Gen(g, t, opt, tt, fl, d), npassed, Passable(g, t, npassed, nb, d), d)
    decreases t, 2
  {
    hide FixedLen, HasCaptures, StrictRule, Passable, Corner;
    var p, exit := t.p, Passable(g, t, npassed, nb, d);
    CaptureWalked(g, t, npassed, nb, d);
    var c := Gen(g, p, false, tt, fl, d);
    CornerOf(g, p, false, tt, fl, npassed, nb, d);
    GenContained(g, p, false, tt, fl, d);
    if FixedLen(g, p, d) >= 0 {
      var full := [IFullCapture(t.kind, t.key, FixedLen(g, p, d))];
      CornerStops(g, full, npassed, exit, d);
      CornerConcat(g, c, full, npassed, Passable(g, p, npassed, nb, d), exit, d);
    }
    CornerStops(g, [IOpenCapture(t.kind, t.key)] + (c + [ICloseCapture]), npassed, exit, d);
  }

  lemma CaptureWalked(g: seq<Tree>, t: Tree, npassed: nat, nb: bool, d: nat)
    requires t.TCapture? && Walked(g, t, npassed, nb, d)
    ensures Walked(g, t.p, npassed, nb, d)
  {
  }

  lemma {:induction false} BehindFreeCorner(g: seq<Tree>, t: Tree, npassed: nat, nb: bool, d: nat)
    requires t.TBehind? && WellFormed(g, t, d) && GrammarsOk(t, d)
    ensures forall opt, tt, fl :: Corner(g, Gen(g, t, opt, tt, fl, d), npassed, Passable(g, t, npassed, nb, d), d)
    decreases t, 2
  {
    hide FixedLen, HasCaptures, Corner, AllEnd, Contained, CallsIn;
    var p, n := t.p, t.n;
    var c := Gen(g, p, false, NoTest, FULL, d);
    assert Passable(g, t, npassed, nb, d);
    EndsOf(g, p, false, NoTest, FULL, d);
    GenContained(g, p, false, NoTest, FULL, d);
    GenCallsIn(g, p, false, NoTest, FULL, d);
    CallFreeCalls(p);
    CornerNoCalls(g, c, npassed, d);
    BehindCorner(g, n, npassed, d);
    CornerConcat(g, BehindCode(n), c, npassed, true, true, d);
  }

  // ----- all chains -----

  /** Wherever it starts, a chain of jumps in the code of a checked tree ends. */
  lemma {:induction false} EndsOf(g: seq<Tree>, t: Tree, opt: bool, tt: Test, fl: Charset, d: nat)
    requires WellFormed(g, t, d) && GrammarsOk(t, d)
    ensures AllEnd(Gen(g, t, opt, tt, fl, d))
    decreases t, 1
  {
    hide First, Headfail, FixedLen, HasCaptures, CharsetType, TestOf, AllEnd, Contained, NeedFollow, VerifyGrammar,
      ChoiceByTest, ChoiceByStack, RepByTest, RepByStack, NotByTest, NotByStack, AndByStack, GrammarCode, CorrectCalls;
    match t
    case TChoice(_, _) => ChoiceEndsOf(g, t, opt, tt, fl, d);
    case TRep(p) =>
      var f := First(g, p, FULL, d);
      var c1, c2 := Gen(g, p, false, TestOf(f.cs, false), FULL, d), Gen(g, p, false, NoTest, FULL, d);
      EndsOf(g, p, false, TestOf(f.cs, false), FULL, d);
      EndsOf(g, p, false, NoTest, FULL, d);
      GenContained(g, p, false, TestOf(f.cs, false), FULL, d);
      GenContained(g, p, false, NoTest, FULL, d);
      LoopByTestEnds(f.cs, c1);
      LoopByStackEnds(f.cs, f.e, opt, c2);
      if ToCharset(p).Some? { NoJumpEnds([ISpan(ToCharset(p).value)] + Exts(CHARSETINSTSIZE - 1)); }
    case TNot(p) =>
      var f := First(g, p, FULL, d);
      EndsOf(g, p, false, NoTest, FULL, d);
      GenContained(g, p, false, NoTest, FULL, d);
      LookEnds(f.cs, f.e, Gen(g, p, false, NoTest, FULL, d));
    case TBehind(p, n) =>
      EndsOf(g, p, false, NoTest, FULL, d);
      GenContained(g, p, false, NoTest, FULL, d);
      BehindCorner(g, n, 0, d);
      ConcatEnds(BehindCode(n), Gen(g, p, false, NoTest, FULL, d));
    case TAnd(p) =>
      var c := Gen(g, p, false, tt, FULL, d);
      EndsOf(g, p, false, tt, FULL, d);
      GenContained(g, p, false, tt, FULL, d);
      LookEnds({}, true, c);
      if FixedLen(g, p, d) >= 0 {
        BehindCorner(g, FixedLen(g, p, d), 0, d);
        ConcatEnds(c, BehindCode(FixedLen(g, p, d)));
      }
    case TCapture(kind, key, p) =>
      EndsOf(g, p, false, tt, fl, d);
      GenContained(g, p, false, tt, fl, d);
      CaptureEnds(kind, key, FixedLen(g, p, d), Gen(g, p, false, tt, fl, d));
    case TSeq(p1, p2) =>
      var fl1 := if NeedFollow(p1) then First(g, p2, fl, d).cs else FULL;
      var tt2 := if FixedLen(g, p1, d) != 0 then NoTest else tt;
      EndsOf(g, p1, false, tt, fl1, d);
      EndsOf(g, p2, opt, tt2, fl, d);
      GenContained(g, p1, false, tt, fl1, d);
      GenContained(g, p2, opt, tt2, fl, d);
      ConcatEnds(Gen(g, p1, false, tt, fl1, d), Gen(g, p2, opt, tt2, fl, d));
    case TGrammar(rules) =>
      var r := GenRules(rules, rules, 0, d);
      var out := CorrectCalls(r.code, r.positions, 0);
      RulesEnd(t, d);
      GrammarEnds(out);
    case TSet(cs) => CharsetEnds(cs, tt);
    case _ => NoJumpEnds(Gen(g, t, opt, tt, fl, d));
  }

  lemma CharsetEnds(cs: Charset, tt: Test)
    ensures AllEnd(CodeCharset(cs, tt))
  {
    hide AllEnd;
    NoJumpEnds(CodeCharset(cs, tt));
  }

  lemma CaptureEnds(kind: nat, key: nat, n: int, c: seq<Instr>)
    requires AllEnd(c) && Contained(c)
    ensures n >= 0 ==> AllEnd(c + [IFullCapture(kind, key, n)])
    ensures AllEnd([IOpenCapture(kind, key)] + (c + [ICloseCapture]))
  {
    hide AllEnd, Contained;
    if n >= 0 {
      NoJumpEnds([IFullCapture(kind, key, n)]);
      ConcatEnds(c, [IFullCapture(kind, key, n)]);
    }
    NoJumpEnds([ICloseCapture]);
    ConcatEnds(c, [ICloseCapture]);
    ContainedConcat(c, [ICloseCapture]);
    HeadEnds([IOpenCapture(kind, key)], c + [ICloseCapture]);
  }

  lemma GrammarEnds(rules: seq<Instr>)
    requires AllEnd(rules) && Contained(rules)
    ensures AllEnd(GrammarCode(rules))
  {
    hide AllEnd, Contained;
    HeadEnds([ICall(4), Ext, IJmp(2 + |rules|), Ext], rules);
  }

  lemma {:induction false} ChoiceEndsOf(g: seq<Tree>, t: Tree, opt: bool, tt: Test, fl: Charset, d: nat)
    requires t.TChoice? && WellFormed(g, t, d) && GrammarsOk(t, d)
    ensures AllEnd(Gen(g, t, opt, tt, fl, d))
    decreases t, 0
  {
    hide First, Headfail, TestOf, AllEnd, Contained, ChoiceByTest, ChoiceByStack;
    var p1, p2 := t.p1, t.p2;
    var f1 := First(g, p1, FULL, d);
    var c2 := Gen(g, p2, opt, NoTest, fl, d);
    EndsOf(g, p2, opt, NoTest, fl, d);
    GenContained(g, p2, opt, NoTest, fl, d);
    if Headfail(g, p1, d) || (!f1.e && f1.cs !! First(g, p2, fl, d).cs) {
      EndsOf(g, p1, false, TestOf(f1.cs, false), fl, d);
      GenContained(g, p1, false, TestOf(f1.cs, false), fl, d);
      ChoiceEnds(f1.cs, f1.e, Gen(g, p1, false, TestOf(f1.cs, false), fl, d), c2, !p2.TTrue?);
    } else if opt && p2.TTrue? {
      EndsOf(g, p1, true, NoTest, FULL, d);
      GenContained(g, p1, true, NoTest, FULL, d);
      HeadEnds([IPartialCommit(2), Ext], Gen(g, p1, true, NoTest, FULL, d));
    } else {
      EndsOf(g, p1, p2.TTrue?, TestOf(f1.cs, f1.e), FULL, d);
      GenContained(g, p1, p2.TTrue?, TestOf(f1.cs, f1.e), FULL, d);
      ChoiceEnds(f1.cs, f1.e, Gen(g, p1, p2.TTrue?, TestOf(f1.cs, f1.e), FULL, d), c2, false);
    }
  }

  /** The code of the rules before the calls are resolved. */
  lemma {:induction false} OpenRulesEnd(t: Tree, rules: seq<Tree>, start: nat, d: nat)
    requires t.TGrammar? && forall k :: 0 <= k < |rules| ==> rules[k] in t.rules && WellFormed(t.rules, rules[k], d) && GrammarsOk(rules[k], d)
    ensures AllEnd(GenRules(t.rules, rules, start, d).code)
    decreases t, 0, |rules|
  {
    hide Gen, AllEnd, Contained, WellFormed, GrammarsOk;
    if rules == [] {
      NoJumpEnds([]);
    } else {
      var g := t.rules;
      var c := Gen(g, rules[0], false, NoTest, FULL, d);
      RuleBelow(t, rules[0]);
      EndsOf(g, rules[0], false, NoTest, FULL, d);
      GenContained(g, rules[0], false, NoTest, FULL, d);
      NoJumpEnds([IRet]);
      ConcatEnds(c, [IRet]);
      ContainedConcat(c, [IRet]);
      OpenRulesEnd(t, rules[1..], start + |c + [IRet]|, d);
      GenRulesContained(g, rules[1..], start + |c + [IRet]|, d);
      ConcatEnds(c + [IRet], GenRules(g, rules[1..], start + |c + [IRet]|, d).code);
    }
  }

  lemma RuleBelow(t: Tree, p: Tree)
    requires t.TGrammar? && p in t.rules
    ensures p < t
  {
    var k :| 0 <= k < |t.rules| && t.rules[k] == p;
  }

  /** Resolving calls leaves jumps alone: a chain goes the same way up to where it ended. */
  lemma {:induction false} SameWay(open: seq<Instr>, out: seq<Instr>, x: int, n: nat) returns (m: nat)
    requires |open| == |out| && forall z :: 0 <= z < |open| && open[z].IJmp? ==> out[z] == open[z]
    ensures FinalTarget(out, x, m) == FinalTarget(open, x, n)
    decreases n
  {
    m := 0;
    if n > 0 && AtJump(open, x) {
      m := SameWay(open, out, x + open[x].offset, n - 1);
      m := m + 1;
    }
  }

  ghost predicate RulesChecked(t: Tree, d: nat) {
    && t.TGrammar? && t.rules != [] && RulesWellFormed(t.rules, d)
    && (forall k :: 0 <= k < |t.rules| ==> GrammarsOk(t.rules[k], d))
    && forall k :: k in Used(t.rules) && k < |t.rules| ==> Passed(t.rules, k, 0, d)
  }

  lemma CheckedRules(g: seq<Tree>, t: Tree, d: nat)
    requires t.TGrammar? && WellFormed(g, t, d) && GrammarsOk(t, d)
    ensures RulesChecked(t, d)
  {
    hide StrictRule, CheckLoops;
  }

  /** A chain that has come to `y` by the jumps of the open code ends, if the start of the rule it calls there leads to an end. */
  lemma ResolvedFrom(open: seq<Instr>, out: seq<Instr>, positions: seq<nat>, x: int, y: int)
    requires |open| == |out| && CallsBelow(open, |positions|) && EndsAt(open, x, y)
    requires forall z :: 0 <= z < |open| ==> Resolved(open[z], out, z, positions)
    requires 0 <= y < |open| && open[y].IOpenCall? ==> open[y].rule < |positions| && Ends(out, positions[open[y].rule])
    ensures Ends(out, x)
  {
    hide FinalTarget, Ends;
    var n: nat :| FinalTarget(open, x, n) == y;
    forall z | 0 <= z < |open| && open[z].IJmp? ensures out[z] == open[z] {
      assert Resolved(open[z], out, z, positions);
    }
    var m := SameWay(open, out, x, n);
    if 0 <= y < |open| {
      assert Resolved(open[y], out, y, positions);
      if out[y].IJmp? { JumpEnds(out, y); } else { StopEnds(out, y); }
    } else {
      StopEnds(out, y);
    }
    EndsIsEndsAt(out, y);
    var z :| EndsAt(out, y, z);
    LeadsOn(out, x, m, z);
    EndsIsEndsAt(out, x);
  }

  /** The chain from the start of a rule that the check has passed. */
  lemma {:induction false} StartEnds(t: Tree, k: nat, npassed: nat, d: nat)
    requires RulesChecked(t, d) && Passed(t.rules, k, npassed, d)
    ensures var r := GenRules(t.rules, t.rules, 0, d); Ends(CorrectCalls(r.code, r.positions, 0), r.positions[k])
    decreases t, 0, MAXRULES - npassed
  {
    hide Gen, GenRules, CorrectCalls, Ends, EndsAt, Corner, Resolved, WellFormed, GrammarsOk, Contained, StrictRule, FinalTarget, CallsBelow;
    var g := t.rules;
    var r := GenRules(g, g, 0, d);
    var out := CorrectCalls(r.code, r.positions, 0);
    var nb :| StrictRule(g, g[k], npassed, nb, d).Some?;
    var c := Gen(g, g[k], false, NoTest, FULL, d);
    var at := r.positions[k];
    RuleBelow(t, g[k]);
    CornerOf(g, g[k], false, NoTest, FULL, npassed, nb, d);
    var y := CornerEnd(g, c, npassed, Passable(g, g[k], npassed, nb, d), d);
    GenContained(g, g[k], false, NoTest, FULL, d);
    RuleStands(g, d, k);
    EndsHere(r.code, at + |c|);
    PartEnds(r.code, at, c, 0, y, at + |c|);
    GenRulesCallsBelow(g, g, 0, d);
    CorrectCallsResolves(r.code, r.positions, 0);
    if y < |c| && c[y].IOpenCall? {
      assert r.code[at + y] == c[y];
      StartEnds(t, c[y].rule, npassed + 1, d);
    }
    ResolvedFrom(r.code, out, r.positions, at, at + y);
  }

  lemma CornerEnd(g: seq<Tree>, c: seq<Instr>, npassed: nat, exit: bool, d: nat) returns (y: int)
    requires Corner(g, c, npassed, exit, d)
    ensures EndsAt(c, 0, y) && CornerAt(g, c, y, npassed, exit, d)
  {
    y :| EndsAt(c, 0, y) && CornerAt(g, c, y, npassed, exit, d);
  }

  lemma RuleStands(g: seq<Tree>, d: nat, k: nat)
    requires k < |g|
    ensures var r, c := GenRules(g, g, 0, d), Gen(g, g[k], false, NoTest, FULL, d);
            Stands(r.code, r.positions[k], c) && r.positions[k] + |c| < |r.code| && r.code[r.positions[k] + |c|] == IRet
  {
    hide Gen, GenRules;
    var r, c := GenRules(g, g, 0, d), Gen(g, g[k], false, NoTest, FULL, d);
    GenRulesSlice(g, g, 0, d, k);
    SliceStands(r.code, r.positions[k], c + [IRet]);
    assert forall x :: 0 <= x < |c| ==> (c + [IRet])[x] == c[x];
    assert (c + [IRet])[|c|] == IRet;
  }

  lemma {:induction false} RulesEnd(t: Tree, d: nat)
    requires t.TGrammar? && WellFormed([], t, d) && GrammarsOk(t, d)
    ensures var r := GenRules(t.rules, t.rules, 0, d);
            AllEnd(CorrectCalls(r.code, r.positions, 0)) && Contained(CorrectCalls(r.code, r.positions, 0))
    decreases t, 0, MAXRULES + 1 + |t.rules|
  {
    hide Gen, GenRules, CorrectCalls, Ends, EndsAt, Resolved, Contained, FinalTarget, CallsBelow, StrictRule, VerifyGrammar, CallsIn;
    var g := t.rules;
    var r := GenRules(g, g, 0, d);
    var out := CorrectCalls(r.code, r.positions, 0);
    CheckedRules([], t, d);
    OpenRulesEnd(t, g, 0, d);
    GenRulesContained(g, g, 0, d);
    GenRulesInside(g, d);
    ContainedCorrectCalls(r);
    GenRulesCallsBelow(g, g, 0, d);
    CorrectCallsResolves(r.code, r.positions, 0);
    RulesCallsIn(t, g, 0, d);
    forall x | 0 <= x <= |out| ensures Ends(out, x) {
      EndsIsEndsAt(r.code, x);
      var y :| EndsAt(r.code, x, y);
      if 0 <= y < |r.code| && r.code[y].IOpenCall? {
        OpenCallUsed(r.code, y, Used(g), |g|);
        StartEnds(t, r.code[y].rule, 0, d);
      }
      ResolvedFrom(r.code, out, r.positions, x, y);
    }
  }

  lemma OpenCallUsed(code: seq<Instr>, y: int, used: set<nat>, n: nat)
    requires CallsIn(code, used) && CallsBelow(code, n) && 0 <= y < |code| && code[y].IOpenCall?
    ensures code[y].rule in used && code[y].rule < n
  {
  }

  lemma {:induction false} RulesCallsIn(t: Tree, rules: seq<Tree>, start: nat, d: nat)
    requires t.TGrammar? && forall k :: 0 <= k < |rules| ==> rules[k] in t.rules && WellFormed(t.rules, rules[k], d)
    ensures CallsIn(GenRules(t.rules, rules, start, d).code, Used(t.rules))
    decreases |rules|
  {
    hide Gen, WellFormed, CallsIn, Calls;
    var used := Used(t.rules);
    if rules == [] {
      SimpleCallsIn([], used);
    } else {
      var g := t.rules;
      var c := Gen(g, rules[0], false, NoTest, FULL, d);
      GenCallsIn(g, rules[0], false, NoTest, FULL, d);
      var k :| 0 <= k < |g| && g[k] == rules[0];
      assert Calls(g[k]) <= used;
      CallsInMore(c, Calls(rules[0]), used);
      SimpleCallsIn([IRet], used);
      CallsInConcat(c, [IRet], used);
      RulesCallsIn(t, rules[1..], start + |c + [IRet]|, d);
      CallsInConcat(c + [IRet], GenRules(g, rules[1..], start + |c + [IRet]|, d).code, used);
    }
  }

  /** In the code of an accepted pattern every chain of jumps ends. */
  lemma JumpsEnd(t: Tree, d: nat)
    requires Accepted(t, d)
    ensures AllEnd(Compiled(t, d))
  {
    hide Gen, AllEnd, Contained, WellFormed, GrammarsOk, CheckLoops;
    EndsOf([], t, false, NoTest, FULL, d);
    GenContained([], t, false, NoTest, FULL, d);
    NoJumpEnds([IEnd]);
    ConcatEnds(Gen([], t, false, NoTest, FULL, d), [IEnd]);
  }

  // ----- while the calls are resolved and the jumps optimised -----

  /** Code that differs from other code only where it does not jump. */
  predicate FewerJumps(c: seq<Instr>, whole: seq<Instr>) {
    |c| == |whole| && forall x :: 0 <= x < |c| && c[x].IJmp? ==> whole[x] == c[x]
  }

  lemma {:induction false} FewerJumpsEnd(c: seq<Instr>, whole: seq<Instr>, x: int, n: nat)
    requires FewerJumps(c, whole) && !AtJump(whole, FinalTarget(whole, x, n))
    ensures Ends(c, x)
    decreases n
  {
    hide Ends;
    if AtJump(c, x) {
      if n > 0 {
        FewerJumpsEnd(c, whole, x + c[x].offset, n - 1);
        JumpEnds(c, x);
      }
    } else {
      StopEnds(c, x);
    }
  }

  /** The chains that the resolution of calls follows, in code with some calls still open, end too. */
  lemma {:induction false} ResolvingEnds(code: seq<Instr>, positions: seq<nat>, i: nat, x: int)
    requires Ends(CorrectCalls(code, positions, i), x)
    ensures Ends(code, x)
  {
    hide FinalTarget, CorrectCalls;
    var out := CorrectCalls(code, positions, i);
    CorrectCallsResolves(code, positions, i);
    forall z | 0 <= z < |code| && code[z].IJmp? ensures out[z] == code[z] {
      if z >= i { assert Resolved(code[z], out, z, positions); }
    }
    var n: nat :| !AtJump(out, FinalTarget(out, x, n));
    FewerJumpsEnd(code, out, x, n);
  }

  /** A walk of as many steps as there are instructions is at the end of its chain. */
  lemma WalkIsEnough(code: seq<Instr>, x: int)
    requires Ends(code, x)
    ensures !AtJump(code, FinalTarget(code, x, |code|))
  {
    hide FinalTarget;
    var n: nat :| !AtJump(code, FinalTarget(code, x, n));
    BoundSuffices(code, x, n);
  }

  lemma AllFewerEnd(c: seq<Instr>, whole: seq<Instr>)
    requires FewerJumps(c, whole) && AllEnd(whole)
    ensures AllEnd(c)
  {
    hide FinalTarget;
    forall x | 0 <= x <= |c| ensures Ends(c, x) {
      assert Ends(whole, x);
      var n: nat :| !AtJump(whole, FinalTarget(whole, x, n));
      FewerJumpsEnd(c, whole, x, n);
    }
  }

  /** A jump that goes straight to the end of its chain. */
  lemma {:induction false} ShortcutEnds(code: seq<Instr>, i: nat, ft: int, x: int, n: nat)
    requires AtJump(code, i) && !AtJump(code, ft) && !AtJump(code, FinalTarget(code, x, n))
    ensures Ends(code[i := IJmp(ft - i)], x)
    decreases n
  {
    hide Ends;
    var c := code[i := IJmp(ft - i)];
    if x == i {
      StopEnds(c, ft);
      JumpEnds(c, x);
    } else if AtJump(c, x) {
      if n > 0 {
        ShortcutEnds(code, i, ft, x + c[x].offset, n - 1);
        JumpEnds(c, x);
      }
    } else {
      StopEnds(c, x);
    }
  }

  lemma PeepholeAtEnds(code: seq<Instr>, i: nat)
    requires i < |code| && AllEnd(code)
    ensures AllEnd(PeepholeAt(code, i))
  {
    hide FinalTarget, Ends;
    var c := PeepholeAt(code, i);
    if !code[i].IJmp? || !c[i].IJmp? {
      AllFewerEnd(c, code);
    } else {
      var ft := FinalTarget(code, i, |code|);
      WalkIsEnough(code, i);
      forall x | 0 <= x <= |c| ensures Ends(c, x) {
        var n := EndSteps(code, x);
        ShortcutEnds(code, i, ft, x, n);
      }
    }
  }

  lemma EndSteps(code: seq<Instr>, x: int) returns (n: nat)
    requires Ends(code, x)
    ensures !AtJump(code, FinalTarget(code, x, n))
  {
    n :| !AtJump(code, FinalTarget(code, x, n));
  }

  lemma {:induction false} PeepholeEnds(code: seq<Instr>, i: nat)
    requires AllEnd(code)
    ensures AllEnd(PeepholeFrom(code, i))
    decreases |code| - i
  {
    hide AllEnd, PeepholeAt;
    if i < |code| {
      PeepholeAtEnds(code, i);
      var code1 := PeepholeAt(code, i);
      PeepholeEnds(code1, i + SizeI(code1[i]));
    }
  }
}
