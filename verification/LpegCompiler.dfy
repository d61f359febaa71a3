/**
  The compiler and the machine in the form the program has them: a code buffer to which
  instructions are appended and in which offsets are patched, and a loop that runs the code.
 */
module LpegCompiler {
  import opened LpegTree
  import opened LpegAnalysis
  import opened LpegVm
  import opened LpegCode
  import opened LpegCorrect
  import opened LpegCalls
  import opened LpegLayout
  import opened LpegJumps
  import opened LpegPeephole
  import opened LpegVerify
  import opened LpegMatch
  import opened LpegTheorem

  const NOINST: int := -1

  predicate HasOffset(i: Instr) {
    Labelled(i) || i.IJmp?
  }

  function SetOffset(i: Instr, offset: int): (r: Instr)
    requires HasOffset(i)
    ensures HasOffset(r)
  {
    i.(offset := offset)
  }

  /** The test that the instruction at `tt` makes. */
  function TestAt(code: seq<Instr>, tt: int): Test {
    if 0 <= tt < |code| then
      match code[tt]
      case ITestChar(c, _) => TestChar(c)
      case ITestSet(cs, _) => TestSet(cs)
      case ITestAny(_) => TestAny
      case IJmp(_) => TestJmp
      case _ => NoTest
    else NoTest
  }

  lemma TestAtEnd(pre: seq<Instr>, cs: Charset, e: bool, offset: int, rest: seq<Instr>)
    ensures TestAt(pre + TestCode(cs, e, offset) + rest, if e then NOINST else |pre|) == TestOf(cs, e)
    ensures !e ==> |pre| < |pre + TestCode(cs, e, offset)|
  {
    if !e {
      assert (pre + TestCode(cs, e, offset) + rest)[|pre|] == TestCode(cs, e, offset)[0];
    }
  }

  /** Patching the offset of a test. */
  lemma PatchTest(pre: seq<Instr>, cs: Charset, from: int, to: int, rest: seq<Instr>)
    ensures var code := pre + TestCode(cs, false, from) + rest;
            && |pre| < |code| && HasOffset(code[|pre|])
            && code[|pre| := SetOffset(code[|pre|], to)] == pre + TestCode(cs, false, to) + rest
  {
    var code := pre + TestCode(cs, false, from) + rest;
    assert code[|pre|] == TestCode(cs, false, from)[0];
  }

  class CompileState {
    var code: seq<Instr>

    constructor ()
      ensures code == []
    {
      code := [];
    }

    method AddInstruction(op: Instr) returns (i: int)
      modifies this
      ensures i == |old(code)| && code == old(code) + [op]
    {
      i := |code|;
      code := code + [op];
    }

    /** An instruction and a cell for its offset, to be set later. */
    method AddOffsetInst(op: Instr) returns (i: int)
      modifies this
      ensures i == |old(code)| && code == old(code) + [op, Ext]
    {
      i := AddInstruction(op);
      var _ := AddInstruction(Ext);
    }

    method JumpToThere(instruction: int, target: int)
      requires 0 <= instruction ==> instruction < |code| && HasOffset(code[instruction])
      modifies this
      ensures code == if instruction < 0 then old(code)
                      else old(code)[instruction := SetOffset(old(code)[instruction], target - instruction)]
    {
      if instruction >= 0 {
        code := code[instruction := SetOffset(code[instruction], target - instruction)];
      }
    }

    method JumpToHere(instruction: int)
      requires 0 <= instruction ==> instruction < |code| && HasOffset(code[instruction])
      modifies this
      ensures code == if instruction < 0 then old(code)
                      else old(code)[instruction := SetOffset(old(code)[instruction], |old(code)| - instruction)]
    {
      JumpToThere(instruction, |code|);
    }

    /** The cells that hold the charset of the instruction before them. */
    method AddCharset(n: nat)
      modifies this
      ensures code == old(code) + Exts(n)
    {
      for i := 0 to n
        invariant code == old(code) + Exts(i)
      {
        var _ := AddInstruction(Ext);
        assert Exts(i) + [Ext] == Exts(i + 1);
        assert old(code) + Exts(i) + [Ext] == old(code) + (Exts(i) + [Ext]);
      }
    }

    method EmitChar(c: Byte, tt: int)
      modifies this
      ensures code == old(code) + CodeChar(c, TestAt(old(code), tt))
    {
      if 0 <= tt < |code| && code[tt].ITestChar? && code[tt].c == c {
        var _ := AddInstruction(IAny);
      } else {
        var _ := AddInstruction(IChar(c));
      }
    }

    method EmitCharset(cs: Charset, tt: int)
      modifies this
      ensures code == old(code) + CodeCharset(cs, TestAt(old(code), tt))
    {
      match CharsetType(cs)
      case KChar(c) => EmitChar(c, tt);
      case KSet =>
        if 0 <= tt < |code| && code[tt].ITestSet? && code[tt].cs == cs {
          var _ := AddInstruction(IAny);
        } else {
          var _ := AddInstruction(ISet(cs));
          AddCharset(CHARSETINSTSIZE - 1);
          assert code == old(code) + ([ISet(cs)] + Exts(CHARSETINSTSIZE - 1));
        }
      case KAny => var _ := AddInstruction(IAny);
      case KFail => var _ := AddInstruction(IFail);
    }

    method EmitTestset(cs: Charset, e: bool) returns (test: int)
      modifies this
      ensures test == (if e then NOINST else |old(code)|)
      ensures code == old(code) + TestCode(cs, e, 0)
    {
      if e {
        test := NOINST;
      } else {
        match CharsetType(cs)
        case KFail => test := AddOffsetInst(IJmp(0));
        case KAny => test := AddOffsetInst(ITestAny(0));
        case KChar(c) => test := AddOffsetInst(ITestChar(c, 0));
        case KSet =>
          test := AddOffsetInst(ITestSet(cs, 0));
          AddCharset(CHARSETINSTSIZE - 1);
          assert [Ext] + Exts(CHARSETINSTSIZE - 1) == Exts(CHARSETINSTSIZE);
          assert code == old(code) + ([ITestSet(cs, 0)] + ([Ext] + Exts(CHARSETINSTSIZE - 1)));
      }
    }

    /** Append the code of `t`.  `tt` is the index of a test that has succeeded, or NOINST. */
    method Codegen(g: seq<Tree>, t: Tree, opt: bool, tt: int, fl: Charset, d: nat)
      requires tt < |code| && WellFormed(g, t, d)
      modifies this
      ensures code == old(code) + Gen(g, t, opt, TestAt(old(code), tt), fl, d)
      decreases t, 1
    {
      hide WellFormed, TestAt, CodeChar, CodeCharset;
      LeafUnfolds(g, t, opt, TestAt(code, tt), fl, d);
      match t
      case TChar(c) => EmitChar(c, tt);
      case TAny => var _ := AddInstruction(IAny);
      case TSet(cs) => EmitCharset(cs, tt);
      case TTrue =>
      case TFalse => var _ := AddInstruction(IFail);
      case TChoice(p1, p2) => EmitChoice(g, p1, p2, opt, tt, fl, d);
      case TRep(p) => EmitRep(g, p, opt, tt, fl, d);
      case TBehind(p, n) => EmitBehind(g, p, n, opt, tt, fl, d);
      case TNot(p) => EmitNot(g, p, opt, tt, fl, d);
      case TAnd(p) => EmitAnd(g, p, opt, tt, fl, d);
      case TCapture(kind, key, p) => EmitCapture(g, kind, key, p, opt, tt, fl, d);
      case TGrammar(rules) => EmitGrammar(g, rules, opt, tt, fl, d);
      case TCall(k) => var _ := AddOffsetInst(IOpenCall(k));
      case TSeq(p1, p2) => EmitSeq(g, p1, p2, opt, tt, fl, d);
    }

    method EmitSeq(g: seq<Tree>, p1: Tree, p2: Tree, opt: bool, tt: int, fl: Charset, d: nat)
      requires tt < |code| && WellFormed(g, TSeq(p1, p2), d)
      modifies this
      ensures code == old(code) + Gen(g, TSeq(p1, p2), opt, TestAt(old(code), tt), fl, d)
      decreases TSeq(p1, p2), 0
    {
      hide Gen, First, FixedLen, WellFormed;
      ghost var pre := code;
      SeqUnfolds(Blank(g, d), p1, p2, opt, TestAt(code, tt), fl, 0, 0);
      if NeedFollow(p1) {
        Codegen(g, p1, false, tt, First(g, p2, fl, d).cs, d);
      } else {
        Codegen(g, p1, false, tt, FULL, d);
      }
      var tt2 := if FixedLen(g, p1, d) != 0 then NOINST else tt;
      ghost var mid := code;
      Codegen(g, p2, opt, tt2, fl, d);
      assert mid[..|pre|] == pre;
    }

    method EmitChoice(g: seq<Tree>, p1: Tree, p2: Tree, opt: bool, tt: int, fl: Charset, d: nat)
      requires tt < |code| && WellFormed(g, TChoice(p1, p2), d)
      modifies this
      ensures code == old(code) + Gen(g, TChoice(p1, p2), opt, TestAt(old(code), tt), fl, d)
      decreases TChoice(p1, p2), 0
    {
      hide Gen, First, Headfail, WellFormed, TestAt, ChoiceByTest, ChoiceByStack;
      ghost var pre := code;
      ChoiceUnfolds(Blank(g, d), p1, p2, opt, TestAt(code, tt), fl, 0, 0);
      var f1 := First(g, p1, FULL, d);
      if Headfail(g, p1, d) || (!f1.e && f1.cs !! First(g, p2, fl, d).cs) {
        EmitChoiceByTest(g, p1, p2, f1.cs, opt, fl, d);
      } else if opt && p2.TTrue? {
        var commit := AddOffsetInst(IPartialCommit(0));
        JumpToHere(commit);
        assert code == pre + [IPartialCommit(2), Ext];
        NoTestAt(code);
        Codegen(g, p1, true, NOINST, FULL, d);
      } else {
        EmitChoiceByStack(g, p1, p2, f1, opt, fl, d);
      }
    }

    /** The first alternative behind a test that goes to the second one, and a jump over that. */
    method EmitChoiceByTest(g: seq<Tree>, p1: Tree, p2: Tree, cs: Charset, opt: bool, fl: Charset, d: nat)
      requires WellFormed(g, p1, d) && WellFormed(g, p2, d)
      modifies this
      ensures code == old(code) + ChoiceByTest(cs, Gen(g, p1, false, TestOf(cs, false), fl, d), Gen(g, p2, opt, NoTest, fl, d), !p2.TTrue?)
      decreases TChoice(p1, p2), 0, 0
    {
      hide Gen, WellFormed, TestCode, TestLen, TestAt, ChoiceByTest;
      ghost var pre := code;
      ghost var c1 := Gen(g, p1, false, TestOf(cs, false), fl, d);
      var jmp := EmitTested(g, p1, cs, !p2.TTrue?, fl, d);
      ghost var to := TestLen(cs, false) + |c1| + if p2.TTrue? then 0 else 2;
      ghost var head := pre + TestCode(cs, false, to) + c1;
      NoTestAt(code);
      Codegen(g, p2, opt, NOINST, fl, d);
      ghost var c2 := Gen(g, p2, opt, NoTest, fl, d);
      PatchAt(head, IJmp(0), 2 + |c2|, c2);
      JumpToHere(jmp);
      ByTestJoins(pre, cs, c1, c2, !p2.TTrue?);
    }

    /** test (fail(p1)) -> here; p1; and, if wanted, a jump with its offset still open */
    method EmitTested(g: seq<Tree>, p1: Tree, cs: Charset, jump: bool, fl: Charset, d: nat) returns (jmp: int)
      requires WellFormed(g, p1, d)
      modifies this
      ensures var c1 := Gen(g, p1, false, TestOf(cs, false), fl, d);
              var to := TestLen(cs, false) + |c1| + if jump then 2 else 0;
              var head := old(code) + TestCode(cs, false, to) + c1;
              && code == (if jump then head + [IJmp(0), Ext] else head)
              && jmp == if jump then |head| else NOINST
      decreases p1, 2
    {
      hide Gen, WellFormed, TestCode, TestLen, TestAt;
      ghost var pre := code;
      var test := EmitTestset(cs, false);
      TestAtEnd(pre, cs, false, 0, []);
      assert code + [] == code;
      Codegen(g, p1, false, test, fl, d);
      ghost var c1 := Gen(g, p1, false, TestOf(cs, false), fl, d);
      jmp := NOINST;
      if jump {
        jmp := AddOffsetInst(IJmp(0));
      } else {
        Append0(code);
      }
      ghost var j := if jump then [IJmp(0), Ext] else [];
      ghost var to := TestLen(cs, false) + |c1| + |j|;
      PatchTest2(pre, cs, false, to, c1, j);
      JumpToHere(test);
      if !jump {
        Append0(pre + TestCode(cs, false, to) + c1);
      }
    }

    /** The first alternative between a choice of the second one and a commit over it, all behind a test. */
    method EmitChoiceByStack(g: seq<Tree>, p1: Tree, p2: Tree, f1: FirstSet, opt: bool, fl: Charset, d: nat)
      requires WellFormed(g, p1, d) && WellFormed(g, p2, d)
      modifies this
      ensures code == old(code) + ChoiceByStack(f1.cs, f1.e, Gen(g, p1, p2.TTrue?, TestOf(f1.cs, f1.e), FULL, d), Gen(g, p2, opt, NoTest, fl, d))
      decreases TChoice(p1, p2), 0, 0
    {
      hide Gen, WellFormed, TestCode, TestLen, TestAt, ChoiceByStack;
      ghost var pre := code;
      ghost var test0 := TestCode(f1.cs, f1.e, 0);
      ghost var c1 := Gen(g, p1, p2.TTrue?, TestOf(f1.cs, f1.e), FULL, d);
      var test, pchoice, pcommit := EmitFirstAlternative(g, p1, p2.TTrue?, f1, d);
      PatchAt2(pre + test0, IChoice(0), 4 + |c1|, c1, [ICommit(0), Ext]);
      JumpToHere(pchoice);
      ghost var to := TestLen(f1.cs, f1.e) + 4 + |c1|;
      PatchTest3(pre, f1.cs, f1.e, to, [IChoice(4 + |c1|), Ext], c1, [ICommit(0), Ext]);
      JumpToHere(test);
      ghost var head := pre + TestCode(f1.cs, f1.e, to) + [IChoice(4 + |c1|), Ext] + c1;
      EmitAfterCommit(g, p2, opt, fl, d, pcommit, head);
      ByStackJoins(pre, f1.cs, f1.e, c1, Gen(g, p2, opt, NoTest, fl, d));
    }

    /** test; choice; p1; commit -- with all offsets still open */
    method EmitFirstAlternative(g: seq<Tree>, p1: Tree, opt: bool, f1: FirstSet, d: nat) returns (test: int, pchoice: int, pcommit: int)
      requires WellFormed(g, p1, d)
      modifies this
      ensures var test0 := TestCode(f1.cs, f1.e, 0);
              var c1 := Gen(g, p1, opt, TestOf(f1.cs, f1.e), FULL, d);
              && test == (if f1.e then NOINST else |old(code)|)
              && pchoice == |old(code)| + |test0| && pcommit == pchoice + 2 + |c1|
              && code == old(code) + test0 + [IChoice(0), Ext] + c1 + [ICommit(0), Ext]
      decreases p1, 2
    {
      hide Gen, WellFormed, TestCode, TestLen, TestAt;
      ghost var pre := code;
      test := EmitTestset(f1.cs, f1.e);
      pchoice := AddOffsetInst(IChoice(0));
      TestAtEnd(pre, f1.cs, f1.e, 0, [IChoice(0), Ext]);
      Codegen(g, p1, opt, test, FULL, d);
      pcommit := AddOffsetInst(ICommit(0));
    }

    /** The second alternative, with the commit at `pcommit` patched to pass over it. */
    method EmitAfterCommit(g: seq<Tree>, p2: Tree, opt: bool, fl: Charset, d: nat, pcommit: int, ghost head: seq<Instr>)
      requires WellFormed(g, p2, d) && code == head + [ICommit(0), Ext] && pcommit == |head|
      modifies this
      ensures var c2 := Gen(g, p2, opt, NoTest, fl, d);
              code == head + [ICommit(2 + |c2|), Ext] + c2
      decreases p2, 2
    {
      hide Gen, WellFormed, TestAt;
      NoTestAt(code);
      Codegen(g, p2, opt, NOINST, fl, d);
      ghost var c2 := Gen(g, p2, opt, NoTest, fl, d);
      PatchAt(head, ICommit(0), 2 + |c2|, c2);
      JumpToHere(pcommit);
    }

    method EmitRep(g: seq<Tree>, p: Tree, opt: bool, tt: int, fl: Charset, d: nat)
      requires tt < |code| && WellFormed(g, TRep(p), d)
      modifies this
      ensures code == old(code) + Gen(g, TRep(p), opt, TestAt(old(code), tt), fl, d)
      decreases TRep(p), 0
    {
      hide Gen, First, Headfail, WellFormed, TestAt, RepByTest, RepByStack;
      RepUnfolds(Blank(g, d), p, opt, TestAt(code, tt), fl);
      if ToCharset(p).Some? {
        var _ := AddInstruction(ISpan(ToCharset(p).value));
        AddCharset(CHARSETINSTSIZE - 1);
        assert code == old(code) + ([ISpan(ToCharset(p).value)] + Exts(CHARSETINSTSIZE - 1));
      } else {
        var f := First(g, p, FULL, d);
        if Headfail(g, p, d) || (!f.e && f.cs !! fl) {
          EmitRepByTest(g, p, f.cs, d);
        } else {
          EmitRepByStack(g, p, f, opt, d);
        }
      }
    }

    /** A test that leaves the loop, the body, and a jump back to the test. */
    method EmitRepByTest(g: seq<Tree>, p: Tree, cs: Charset, d: nat)
      requires WellFormed(g, p, d)
      modifies this
      ensures code == old(code) + RepByTest(cs, Gen(g, p, false, TestOf(cs, false), FULL, d))
      decreases TRep(p), 0, 0
    {
      hide Gen, WellFormed, TestCode, TestLen, TestAt;
      ghost var pre := code;
      var test := EmitTestset(cs, false);
      TestAtEnd(pre, cs, false, 0, []);
      assert code + [] == code;
      Codegen(g, p, false, test, FULL, d);
      ghost var c := Gen(g, p, false, TestOf(cs, false), FULL, d);
      var jmp := AddOffsetInst(IJmp(0));
      ghost var to := TestLen(cs, false) + |c| + 2;
      PatchTest2(pre, cs, false, to, c, [IJmp(0), Ext]);
      JumpToHere(test);
      ghost var head := pre + TestCode(cs, false, to) + c;
      PatchLast(head, IJmp(0), test - jmp);
      JumpToThere(jmp, test);
      RepByTestJoins(pre, cs, c);
    }

    /** A test, a choice of what follows the loop (or a partial commit to the next instruction), and the body with a partial commit back to it. */
    method EmitRepByStack(g: seq<Tree>, p: Tree, f: FirstSet, opt: bool, d: nat)
      requires WellFormed(g, p, d)
      modifies this
      ensures code == old(code) + RepByStack(f.cs, f.e, opt, Gen(g, p, false, NoTest, FULL, d))
      decreases TRep(p), 0, 0
    {
      hide Gen, WellFormed, TestCode, TestLen, TestAt, RepByStack;
      ghost var pre := code;
      ghost var test0 := TestCode(f.cs, f.e, 0);
      var test, pchoice := EmitLoopHead(f, opt);
      ghost var first := if opt then IPartialCommit(2) else IChoice(0);
      ghost var c := Gen(g, p, false, NoTest, FULL, d);
      EmitLoopBody(g, p, d);
      ghost var last := [IPartialCommit(-|c|), Ext];
      PatchAt2(pre + test0, first, 4 + |c|, c, last);
      JumpToHere(pchoice);
      ghost var choice := if opt then IPartialCommit(2) else IChoice(4 + |c|);
      PatchTest3(pre, f.cs, f.e, TestLen(f.cs, f.e) + 4 + |c|, [choice, Ext], c, last);
      JumpToHere(test);
      RepByStackJoins(pre, f.cs, f.e, opt, c);
    }

    /** test; and a choice with its offset open, or a partial commit to the next instruction */
    method EmitLoopHead(f: FirstSet, opt: bool) returns (test: int, pchoice: int)
      modifies this
      ensures var test0 := TestCode(f.cs, f.e, 0);
              && test == (if f.e then NOINST else |old(code)|)
              && code == old(code) + test0 + [if opt then IPartialCommit(2) else IChoice(0), Ext]
              && pchoice == if opt then NOINST else |old(code)| + |test0|
    {
      hide TestCode;
      ghost var pre := code;
      test := EmitTestset(f.cs, f.e);
      pchoice := NOINST;
      if opt {
        var commit := AddOffsetInst(IPartialCommit(0));
        PatchLast(pre + TestCode(f.cs, f.e, 0), IPartialCommit(0), 2);
        JumpToHere(commit);
      } else {
        pchoice := AddOffsetInst(IChoice(0));
      }
    }

    /** The body and a partial commit back to its start. */
    method EmitLoopBody(g: seq<Tree>, p: Tree, d: nat)
      requires WellFormed(g, p, d)
      modifies this
      ensures var c := Gen(g, p, false, NoTest, FULL, d);
              code == old(code) + c + [IPartialCommit(-|c|), Ext]
      decreases p, 2
    {
      hide Gen, WellFormed, TestAt;
      var l2 := |code|;
      ghost var head := code;
      NoTestAt(code);
      Codegen(g, p, false, NOINST, FULL, d);
      var commit := AddOffsetInst(IPartialCommit(0));
      PatchLast(head + Gen(g, p, false, NoTest, FULL, d), IPartialCommit(0), l2 - commit);
      JumpToThere(commit, l2);
    }

    method EmitBehind(g: seq<Tree>, p: Tree, n: nat, opt: bool, tt: int, fl: Charset, d: nat)
      requires tt < |code| && WellFormed(g, TBehind(p, n), d)
      modifies this
      ensures code == old(code) + Gen(g, TBehind(p, n), opt, TestAt(old(code), tt), fl, d)
      decreases TBehind(p, n), 0
    {
      hide Gen, WellFormed, TestAt;
      BehindUnfolds(Blank(g, d), p, n, opt, TestAt(code, tt), fl, 0, 0);
      if n > 0 {
        var _ := AddInstruction(IBehind(n));
      }
      NoTestAt(code);
      Codegen(g, p, false, NOINST, FULL, d);
    }

    method EmitNot(g: seq<Tree>, p: Tree, opt: bool, tt: int, fl: Charset, d: nat)
      requires tt < |code| && WellFormed(g, TNot(p), d)
      modifies this
      ensures code == old(code) + Gen(g, TNot(p), opt, TestAt(old(code), tt), fl, d)
      decreases TNot(p), 0
    {
      hide Gen, First, Headfail, WellFormed, TestAt, TestCode, TestLen;
      ghost var pre := code;
      NotUnfolds(Blank(g, d), p, opt, TestAt(code, tt), fl, 0, 0);
      var f := First(g, p, FULL, d);
      var test := EmitTestset(f.cs, f.e);
      ghost var test0 := TestCode(f.cs, f.e, 0);
      if Headfail(g, p, d) {
        var _ := AddInstruction(IFail);
        PatchTestIf(pre, f.cs, f.e, 0, TestLen(f.cs, f.e) + 1, [IFail]);
      } else {
        ghost var c := Gen(g, p, false, NoTest, FULL, d);
        EmitRefused(g, p, d);
        PatchTest3(pre, f.cs, f.e, TestLen(f.cs, f.e) + 3 + |c|, [IChoice(3 + |c|), Ext], c, [IFailTwice]);
        NotJoins(pre, f.cs, f.e, c);
      }
      JumpToHere(test);
    }

    /** The body under a choice of what follows, and the failure that throws the choice away. */
    method EmitRefused(g: seq<Tree>, p: Tree, d: nat)
      requires WellFormed(g, p, d)
      modifies this
      ensures var c := Gen(g, p, false, NoTest, FULL, d);
              code == old(code) + [IChoice(3 + |c|), Ext] + c + [IFailTwice]
      decreases p, 2
    {
      hide Gen, WellFormed, TestAt;
      ghost var pre := code;
      var pchoice := AddOffsetInst(IChoice(0));
      NoTestAt(code);
      Codegen(g, p, false, NOINST, FULL, d);
      ghost var c := Gen(g, p, false, NoTest, FULL, d);
      var _ := AddInstruction(IFailTwice);
      PatchAt2(pre, IChoice(0), 3 + |c|, c, [IFailTwice]);
      JumpToHere(pchoice);
    }

    method EmitAnd(g: seq<Tree>, p: Tree, opt: bool, tt: int, fl: Charset, d: nat)
      requires tt < |code| && WellFormed(g, TAnd(p), d)
      modifies this
      ensures code == old(code) + Gen(g, TAnd(p), opt, TestAt(old(code), tt), fl, d)
      decreases TAnd(p), 0
    {
      hide Gen, FixedLen, HasCaptures, WellFormed, TestAt, AndByStack, CallFree;
      ghost var pre := code;
      AndUnfolds(Blank(g, d), p, opt, TestAt(code, tt), fl, 0, 0);
      var n := FixedLen(g, p, d);
      if 0 <= n <= MAXBEHIND && !HasCaptures(g, p, {}, d) {
        Codegen(g, p, false, tt, FULL, d);
        if n > 0 {
          var _ := AddInstruction(IBehind(n));
        }
      } else {
        EmitAndByStack(g, p, tt, d);
      }
    }

    /** The body under a choice of a failure, and a commit that goes back in the subject and over the failure. */
    method EmitAndByStack(g: seq<Tree>, p: Tree, tt: int, d: nat)
      requires tt < |code| && WellFormed(g, p, d)
      modifies this
      ensures code == old(code) + AndByStack(Gen(g, p, false, TestAt(old(code), tt), FULL, d))
      decreases p, 3
    {
      hide Gen, WellFormed, TestAt, AndByStack;
      ghost var pre := code;
      ghost var c := Gen(g, p, false, TestAt(pre, tt), FULL, d);
      var pcommit := EmitGuarded(g, p, tt, d);
      var _ := AddInstruction(IFail);
      PatchAt(pre + [IChoice(4 + |c|), Ext] + c, IBackCommit(0), 3, [IFail]);
      JumpToHere(pcommit);
      AndJoins(pre, c);
    }

    /** The body under a choice of what follows, and a back commit with its offset still open. */
    method EmitGuarded(g: seq<Tree>, p: Tree, tt: int, d: nat) returns (pcommit: int)
      requires tt < |code| && WellFormed(g, p, d)
      modifies this
      ensures var c := Gen(g, p, false, TestAt(old(code), tt), FULL, d);
              && pcommit == |old(code)| + 2 + |c|
              && code == old(code) + [IChoice(4 + |c|), Ext] + c + [IBackCommit(0), Ext]
      decreases p, 2
    {
      hide Gen, WellFormed;
      ghost var pre := code;
      var pchoice := AddOffsetInst(IChoice(0));
      Codegen(g, p, false, tt, FULL, d);
      ghost var c := Gen(g, p, false, TestAt(pre, tt), FULL, d);
      pcommit := AddOffsetInst(IBackCommit(0));
      PatchAt2(pre, IChoice(0), 4 + |c|, c, [IBackCommit(0), Ext]);
      JumpToHere(pchoice);
    }

    method EmitCapture(g: seq<Tree>, kind: nat, key: nat, p: Tree, opt: bool, tt: int, fl: Charset, d: nat)
      requires tt < |code| && WellFormed(g, TCapture(kind, key, p), d)
      modifies this
      ensures code == old(code) + Gen(g, TCapture(kind, key, p), opt, TestAt(old(code), tt), fl, d)
      decreases TCapture(kind, key, p), 0
    {
      hide Gen, FixedLen, HasCaptures, WellFormed;
      ghost var pre := code;
      CaptureUnfolds(Blank(g, d), kind, key, p, opt, TestAt(code, tt), fl, 0, 0);
      var n := FixedLen(g, p, d);
      if 0 <= n <= MAXOFF && !HasCaptures(g, p, {}, d) {
        Codegen(g, p, false, tt, fl, d);
        var _ := AddInstruction(IFullCapture(kind, key, n));
      } else {
        var _ := AddInstruction(IOpenCapture(kind, key));
        Codegen(g, p, false, tt, fl, d);
        var _ := AddInstruction(ICloseCapture);
        ghost var c := Gen(g, p, false, TestAt(pre, tt), fl, d);
        assert code == pre + ([IOpenCapture(kind, key)] + (c + [ICloseCapture]));
      }
    }

    /** A call of the first rule, a jump over all rules, and the rules with their calls resolved. */
    method EmitGrammar(g: seq<Tree>, rules: seq<Tree>, opt: bool, tt: int, fl: Charset, d: nat)
      requires tt < |code| && WellFormed(g, TGrammar(rules), d)
      modifies this
      ensures code == old(code) + Gen(g, TGrammar(rules), opt, TestAt(old(code), tt), fl, d)
      decreases TGrammar(rules), 0
    {
      hide Gen, WellFormed, TestAt, GenRules, CorrectCalls, CallsBelow, Contained, Laid;
      ghost var pre := code;
      GrammarUnfolds(Blank(g, d), rules, opt, TestAt(code, tt), fl, 0, 0);
      var start := |code| + 4;
      var positions := EmitFrame(rules, d);
      ghost var r := GenRules(rules, rules, 0, d);
      ghost var head := [ICall(4), Ext, IJmp(2 + |r.code|), Ext];
      GenRulesCallsBelow(rules, rules, 0, d);
      GenRulesContained(rules, rules, 0, d);
      GenRulesInside(rules, d);
      GenRulesLaid(rules, rules, 0, d);
      CorrectCallsInPlace(positions, start, pre + head, r);
      assert code == pre + (head + CorrectCalls(r.code, r.positions, 0));
    }

    /** The same with the calls still open. */
    method EmitFrame(rules: seq<Tree>, d: nat) returns (positions: seq<int>)
      requires RulesWellFormed(rules, d)
      modifies this
      ensures var r := GenRules(rules, rules, 0, d);
              && code == old(code) + [ICall(4), Ext, IJmp(2 + |r.code|), Ext] + r.code
              && |positions| == |rules|
              && forall k :: 0 <= k < |rules| ==> positions[k] == |old(code)| + 4 + r.positions[k]
      decreases TGrammar(rules), 0, 1
    {
      hide Gen, WellFormed, GenRules;
      ghost var pre := code;
      var firstcall := AddOffsetInst(ICall(0));
      var jumptoend := AddOffsetInst(IJmp(0));
      assert code == pre + [ICall(0), Ext] + [IJmp(0), Ext];
      PatchAt(pre, ICall(0), 4, [IJmp(0), Ext]);
      JumpToHere(firstcall);
      positions := EmitRules(rules, d);
      ghost var r := GenRules(rules, rules, 0, d);
      assert code == (pre + [ICall(4), Ext]) + [IJmp(0), Ext] + r.code;
      PatchAt(pre + [ICall(4), Ext], IJmp(0), 2 + |r.code|, r.code);
      JumpToHere(jumptoend);
      assert code == pre + [ICall(4), Ext, IJmp(2 + |r.code|), Ext] + r.code;
    }

    method EmitRules(rules: seq<Tree>, d: nat) returns (positions: seq<int>)
      requires RulesWellFormed(rules, d)
      modifies this
      ensures code == old(code) + GenRules(rules, rules, 0, d).code
      ensures |positions| == |rules|
      ensures forall k :: 0 <= k < |rules| ==> positions[k] == |old(code)| + GenRules(rules, rules, 0, d).positions[k]
      decreases TGrammar(rules), 0, 0
    {
      hide Gen, WellFormed, TestAt;
      ghost var pre := code;
      ghost var all := GenRules(rules, rules, 0, d);
      positions := [];
      assert rules[0..] == rules;
      for k := 0 to |rules|
        invariant |positions| == k && |pre| <= |code|
        invariant pre + all.code == code + GenRules(rules, rules[k..], |code| - |pre|, d).code
        invariant all.positions[k..] == GenRules(rules, rules[k..], |code| - |pre|, d).positions
        invariant forall x :: 0 <= x < k ==> positions[x] == |pre| + all.positions[x]
      {
        ghost var rest := GenRules(rules, rules[k..], |code| - |pre|, d);
        ghost var c := Gen(rules, rules[k], false, NoTest, FULL, d) + [IRet];
        ghost var at := |code| - |pre|;
        ghost var before := code;
        assert rules[k..][0] == rules[k] && rules[k..][1..] == rules[k + 1..];
        assert rest.positions[0] == at;
        assert all.positions[k] == all.positions[k..][0] == at;
        positions := positions + [|code|];
        NoTestAt(code);
        Codegen(rules, rules[k], false, NOINST, FULL, d);
        var _ := AddInstruction(IRet);
        assert code == before + c;
        ghost var next := GenRules(rules, rules[k + 1..], at + |c|, d);
        assert rest.code == c + next.code && rest.positions == [at] + next.positions;
        assert pre + all.code == before + (c + next.code) == code + next.code;
        assert all.positions[k + 1..] == all.positions[k..][1..] == next.positions;
      }
      assert GenRules(rules, rules[|rules|..], |code| - |pre|, d).code == [];
    }

    /** The end of a chain of jumps from `i`, following at most `n` of them. */
    method FindFinalTarget(i: int, n: nat) returns (r: int)
      ensures r == FinalTarget(code, i, n)
    {
      r := i;
      var left := n;
      while left > 0 && 0 <= r < |code| && code[r].IJmp?
        invariant FinalTarget(code, i, n) == FinalTarget(code, r, left)
        decreases left
      {
        r := r + code[r].offset;
        left := left - 1;
      }
    }

    /** Change open calls from `from` on into calls or, before a return, into jumps. */
    method CorrectCallsInPlace(positions: seq<int>, from: nat, ghost head: seq<Instr>, ghost rs: RulesCode)
      requires code == head + rs.code && from == |head| && |positions| == |rs.positions|
      requires forall k :: 0 <= k < |positions| ==> positions[k] == from + rs.positions[k]
      requires CallsBelow(rs.code, |positions|) && Contained(rs.code) && PositionsInside(rs) && Laid(rs.code)
      modifies this
      ensures code == head + CorrectCalls(rs.code, rs.positions, 0)
    {
      hide Laid, Contained, CallsBelow;
      var i := from;
      var to := |code|;
      ghost var c := rs.code;
      assert c[0..] == c;
      while i < to
        invariant from <= i <= to == |code| == from + |c| && |c| == |rs.code|
        invariant code == head + c && Contained(c) && CallsBelow(c, |positions|)
        invariant Laid(c[i - from..])
        invariant CorrectCalls(c, rs.positions, i - from) == CorrectCalls(rs.code, rs.positions, 0)
      {
        ghost var x := i - from;
        assert code[i] == c[x];
        if code[i].IOpenCall? {
          c := CorrectOneCall(positions, from, i, head, c, rs);
        }
        LaidFirst(c, x);
        SkipCells(c, rs.positions, x);
        i := i + SizeI(code[i]);
      }
    }

    method CorrectOneCall(positions: seq<int>, from: nat, i: nat, ghost head: seq<Instr>, ghost c: seq<Instr>, ghost rs: RulesCode)
      returns (ghost c1: seq<Instr>)
      requires code == head + c && from == |head| && |positions| == |rs.positions| && |c| == |rs.code|
      requires forall k :: 0 <= k < |positions| ==> positions[k] == from + rs.positions[k]
      requires CallsBelow(c, |positions|) && Contained(c) && PositionsInside(rs)
      requires from <= i < |code| && code[i].IOpenCall? && Laid(c[i - from..])
      modifies this
      ensures |c1| == |c| && code == head + c1 && c1[i - from] == code[i] && !code[i].IOpenCall?
      ensures CallsBelow(c1, |positions|) && Contained(c1) && Laid(c1[i - from..])
      ensures CorrectCalls(c1, rs.positions, i - from) == CorrectCalls(c, rs.positions, i - from)
    {
      hide Laid, Contained, FinalTarget;
      ghost var x := i - from;
      assert code[i] == c[x];
      LaidFirst(c, x);
      var rule := positions[code[i].rule];
      var ft := FindFinalTarget(i + 2, |code| - from);
      ChainInside(head, c, x + 2, |c|);
      var tail := 0 <= ft < |code| && code[ft].IRet?;
      assert tail == IsRet(c, FinalTarget(c, x + 2, |c|)) by {
        if 0 <= ft - from < |c| {
          assert code[ft] == c[ft - from];
        }
      }
      var call := if tail then IJmp(rule - i) else ICall(rule - i);
      code := code[i := call];
      c1 := c[x := call];
      LaidSameSizes(c[x..], c1[x..]);
      ContainedUpdate(c, x, call);
    }

    /** Optimise the jumps of the whole code. */
    method Peephole()
      modifies this
      ensures code == PeepholeFrom(old(code), 0)
    {
      var i := 0;
      while i < |code|
        invariant 0 <= i
        invariant PeepholeFrom(code, i) == PeepholeFrom(old(code), 0)
        decreases |code| - i
      {
        PeepholeOne(i);
        i := i + SizeI(code[i]);
      }
    }

    method PeepholeOne(i: nat)
      requires i < |code|
      modifies this
      ensures code == PeepholeAt(old(code), i)
    {
      hide FinalTarget;
      if Labelled(code[i]) {
        OptimizeLabelInPlace(i);
      } else if code[i].IJmp? {
        var ft := FindFinalTarget(i, |code|);
        if 0 <= ft < |code| && Leaves(code[ft]) && i + 1 < |code| {
          code := code[i := code[ft]];
          code := code[i + 1 := IAny];
        } else if 0 <= ft < |code| && Commits(code[ft]) {
          PeepholeCommit(i, ft);
        } else {
          JumpToThere(i, ft);
        }
      }
    }

    /** A jump to a commit becomes that commit, with its own offset. */
    method PeepholeCommit(i: nat, ft: int)
      requires i < |code| && 0 <= ft < |code| && Commits(code[ft])
      modifies this
      ensures var code1 := old(code)[i := Relabel(old(code)[ft], FinalTarget(old(code), TargetOf(old(code)[ft], ft), |old(code)|) - i)];
              code == OptimizeLabel(code1, i)
    {
      hide FinalTarget;
      var fft := FindFinalTarget(ft + code[ft].offset, |code|);
      code := code[i := code[ft]];
      JumpToThere(i, fft);
      assert code == old(code)[i := Relabel(old(code)[ft], fft - i)];
      OptimizeLabelInPlace(i);
    }

    method OptimizeLabelInPlace(i: nat)
      requires i < |code| && Labelled(code[i])
      modifies this
      ensures code == OptimizeLabel(old(code), i)
    {
      var ft := FindFinalTarget(i + code[i].offset, |code|);
      JumpToThere(i, ft);
    }

    /** Compile a pattern into an empty buffer. */
    method Compile(t: Tree, d: nat)
      requires code == [] && WellFormed([], t, d)
      modifies this
      ensures code == Optimized(t, d)
    {
      hide Gen, WellFormed, PeepholeFrom, TestAt;
      NoTestAt(code);
      Codegen([], t, false, NOINST, FULL, d);
      var _ := AddInstruction(IEnd);
      assert code == Compiled(t, d);
      Peephole();
    }
  }

  lemma ContainedUpdate(c: seq<Instr>, x: nat, call: Instr)
    requires x < |c| && Contained(c) && (call.IJmp? ==> 0 <= x + call.offset <= |c|)
    ensures Contained(c[x := call])
  {
  }

  /** Cells of an instruction after the first hold no open call. */
  lemma SkipCells(c: seq<Instr>, positions: seq<nat>, x: nat)
    requires x < |c| && Laid(c[x..]) && !c[x].IOpenCall?
    ensures CorrectCalls(c, positions, x) == CorrectCalls(c, positions, x + SizeI(c[x]))
  {
    var n := SizeI(c[x]);
    assert c[x..][0] == c[x];
    forall y | x < y < x + n
      ensures c[y] == Ext
    {
      assert c[y] == c[x..][y - x];
    }
    SkipExts(c, positions, x + 1, x + n);
  }

  lemma {:induction false} SkipExts(c: seq<Instr>, positions: seq<nat>, x: nat, y: nat)
    requires x <= y <= |c| && forall z :: x <= z < y ==> c[z] == Ext
    ensures CorrectCalls(c, positions, x) == CorrectCalls(c, positions, y)
    decreases y - x
  {
    if x < y {
      SkipExts(c, positions, x + 1, y);
    }
  }

  lemma PatchTestIf(pre: seq<Instr>, cs: Charset, e: bool, from: int, to: int, rest: seq<Instr>)
    ensures var code := pre + TestCode(cs, e, from) + rest;
            if e then code == pre + TestCode(cs, e, to) + rest
            else && |pre| < |code| && HasOffset(code[|pre|])
                 && code[|pre| := SetOffset(code[|pre|], to)] == pre + TestCode(cs, e, to) + rest
  {
    if !e {
      PatchTest(pre, cs, from, to, rest);
    }
  }

  /** A context in which only the code of trees matters. */
  function Blank(g: seq<Tree>, d: nat): Context {
    Context(Machine([], []), g, [], d)
  }

  lemma LeafUnfolds(g: seq<Tree>, t: Tree, opt: bool, tt: Test, fl: Charset, d: nat)
    ensures t.TChar? ==> Gen(g, t, opt, tt, fl, d) == CodeChar(t.c, tt)
    ensures t.TAny? ==> Gen(g, t, opt, tt, fl, d) == [IAny]
    ensures t.TSet? ==> Gen(g, t, opt, tt, fl, d) == CodeCharset(t.cs, tt)
    ensures t.TTrue? ==> Gen(g, t, opt, tt, fl, d) == []
    ensures t.TFalse? ==> Gen(g, t, opt, tt, fl, d) == [IFail]
    ensures t.TCall? ==> Gen(g, t, opt, tt, fl, d) == [IOpenCall(t.rule), Ext]
  {
  }

  lemma NoTestAt(code: seq<Instr>)
    ensures TestAt(code, NOINST) == NoTest
  {
  }

  /** Patching the offset of an instruction with one extra cell. */
  lemma PatchAt(head: seq<Instr>, i: Instr, offset: int, rest: seq<Instr>)
    requires HasOffset(i)
    ensures var code := head + [i, Ext] + rest;
            && code[|head|] == i
            && code[|head| := SetOffset(i, offset)] == head + [SetOffset(i, offset), Ext] + rest
  {
  }

  lemma PatchAt2(head: seq<Instr>, i: Instr, offset: int, b: seq<Instr>, c: seq<Instr>)
    requires HasOffset(i)
    ensures var code := head + [i, Ext] + b + c;
            && code[|head|] == i
            && code[|head| := SetOffset(i, offset)] == head + [SetOffset(i, offset), Ext] + b + c
  {
  }

  lemma PatchLast(head: seq<Instr>, i: Instr, offset: int)
    requires HasOffset(i)
    ensures var code := head + [i, Ext];
            && code[|head|] == i
            && code[|head| := SetOffset(i, offset)] == head + [SetOffset(i, offset), Ext]
  {
  }

  lemma Append0(a: seq<Instr>)
    ensures a + [] == a
  {
  }

  /** `code`, with a test at `at` when there is one, has its offset patched to give `result`. */
  ghost predicate Patches(code: seq<Instr>, at: nat, e: bool, to: int, result: seq<Instr>) {
    if e then code == result
    else at < |code| && HasOffset(code[at]) && code[at := SetOffset(code[at], to)] == result
  }

  lemma PatchTest2(pre: seq<Instr>, cs: Charset, e: bool, to: int, a: seq<Instr>, b: seq<Instr>)
    ensures Patches(pre + TestCode(cs, e, 0) + a + b, |pre|, e, to, pre + TestCode(cs, e, to) + a + b)
  {
    hide TestCode;
    PatchTestIf(pre, cs, e, 0, to, a + b);
    assert forall x :: pre + TestCode(cs, e, x) + a + b == pre + TestCode(cs, e, x) + (a + b);
  }

  lemma PatchTest3(pre: seq<Instr>, cs: Charset, e: bool, to: int, a: seq<Instr>, b: seq<Instr>, c: seq<Instr>)
    ensures Patches(pre + TestCode(cs, e, 0) + a + b + c, |pre|, e, to, pre + TestCode(cs, e, to) + a + b + c)
  {
    hide TestCode;
    PatchTest2(pre, cs, e, to, a, b + c);
    assert forall x :: pre + TestCode(cs, e, x) + a + b + c == pre + TestCode(cs, e, x) + a + (b + c);
  }

  lemma RepByTestJoins(pre: seq<Instr>, cs: Charset, c: seq<Instr>)
    ensures pre + TestCode(cs, false, TestLen(cs, false) + |c| + 2) + c + [IJmp(-(TestLen(cs, false) + |c|)), Ext] == pre + RepByTest(cs, c)
    ensures |pre + TestCode(cs, false, 0) + c| == |pre| + TestLen(cs, false) + |c|
  {
  }

  lemma RepByStackJoins(pre: seq<Instr>, cs: Charset, e: bool, opt: bool, c: seq<Instr>)
    ensures pre + TestCode(cs, e, TestLen(cs, e) + 4 + |c|) + [if opt then IPartialCommit(2) else IChoice(4 + |c|), Ext] + c + [IPartialCommit(-|c|), Ext]
            == pre + RepByStack(cs, e, opt, c)
  {
  }

  lemma NotJoins(pre: seq<Instr>, cs: Charset, e: bool, c: seq<Instr>)
    ensures pre + TestCode(cs, e, TestLen(cs, e) + 3 + |c|) + [IChoice(3 + |c|), Ext] + c + [IFailTwice] == pre + NotByStack(cs, e, c)
  {
  }

  lemma AndJoins(pre: seq<Instr>, c: seq<Instr>)
    ensures pre + [IChoice(4 + |c|), Ext] + c + [IBackCommit(3), Ext] + [IFail] == pre + AndByStack(c)
  {
  }

  lemma ByTestJoins(pre: seq<Instr>, cs: Charset, c1: seq<Instr>, c2: seq<Instr>, jump: bool)
    ensures var j := if jump then [IJmp(2 + |c2|), Ext] else [];
            pre + TestCode(cs, false, TestLen(cs, false) + |c1| + |j|) + c1 + j + c2 == pre + ChoiceByTest(cs, c1, c2, jump)
  {
  }

  lemma ByStackJoins(pre: seq<Instr>, cs: Charset, e: bool, c1: seq<Instr>, c2: seq<Instr>)
    ensures pre + TestCode(cs, e, TestLen(cs, e) + 4 + |c1|) + [IChoice(4 + |c1|), Ext] + c1 + [ICommit(2 + |c2|), Ext] + c2
            == pre + ChoiceByStack(cs, e, c1, c2)
  {
  }

  // ----- the machine -----

  /** Execute the instruction at `p`; `failed` means that the pattern failed there. */
  method Execute(prog: seq<Instr>, subj: seq<Byte>, p0: nat, s0: nat, stack0: Stack, caps0: seq<Capture>)
    returns (failed: bool, p: int, s: nat, stack: Stack, caps: seq<Capture>)
    requires p0 < |prog| && s0 <= |subj| && !prog[p0].IEnd?
    requires !Step(Machine(prog, subj), Run(p0, s0, stack0, caps0)).Stuck?
    ensures Step(Machine(prog, subj), Run(p0, s0, stack0, caps0)) ==
              if failed then Backtrack(stack, caps) else Run(p, s, stack, caps)
  {
    hide Backtrack;
    failed, p, s, stack, caps := false, p0, s0, stack0, caps0;
    match prog[p]
    case IRet =>
      p := stack.p;
      stack := stack.rest;
    case IAny =>
      if s < |subj| { p, s := p + 1, s + 1; } else { failed := true; }
    case ITestAny(offset) =>
      if s < |subj| { p := p + 2; } else { p := p + offset; }
    case IChar(c) =>
      if s < |subj| && subj[s] == c { p, s := p + 1, s + 1; } else { failed := true; }
    case ITestChar(c, offset) =>
      if s < |subj| && subj[s] == c { p := p + 2; } else { p := p + offset; }
    case ISet(cs) =>
      if s < |subj| && subj[s] in cs { p, s := p + CHARSETINSTSIZE, s + 1; } else { failed := true; }
    case ITestSet(cs, offset) =>
      if s < |subj| && subj[s] in cs { p := p + 1 + CHARSETINSTSIZE; } else { p := p + offset; }
    case IBehind(n) =>
      if n > s { failed := true; } else { p, s := p + 1, s - n; }
    case ISpan(cs) =>
      s := Span(subj, cs, s);
      p := p + CHARSETINSTSIZE;
    case IJmp(offset) => p := p + offset;
    case IChoice(offset) =>
      stack := Choice(p + offset, s, |caps|, stack);
      p := p + 2;
    case ICall(offset) =>
      stack := RetAddr(p + 2, stack);
      p := p + offset;
    case ICommit(offset) =>
      stack := stack.rest;
      p := p + offset;
    case IPartialCommit(offset) =>
      stack := Choice(stack.p, s, |caps|, stack.rest);
      p := p + offset;
    case IBackCommit(offset) =>
      s := stack.s;
      caps := caps[..stack.caplevel];
      stack := stack.rest;
      p := p + offset;
    case IFailTwice =>
      stack := stack.rest;
      failed := true;
    case IFail => failed := true;
    case ICloseCapture =>
      caps := CloseCapture(caps, s);
      p := p + 1;
    case IOpenCapture(kind, key) =>
      caps := caps + [Capture(kind, key, s, 0)];
      p := p + 1;
    case IFullCapture(kind, key, off) =>
      caps := caps + [Capture(kind, key, s - off, off + 1)];
      p := p + 1;
  }

  method Span(subj: seq<Byte>, cs: Charset, from: nat) returns (s: nat)
    requires from <= |subj|
    ensures s == SpanEnd(subj, cs, from)
  {
    s := from;
    while s < |subj| && subj[s] in cs
      invariant from <= s <= |subj| && SpanEnd(subj, cs, from) == SpanEnd(subj, cs, s)
    {
      s := s + 1;
    }
  }

  /** What matching ends with: a match, no match, or the error that the stack is full. */
  datatype Outcome = Found(end: nat, caps: seq<Capture>) | NotFound | StackOverflow

  function OutcomeOf(l: Limited): Outcome
    requires l.Reached? ==> l.st.Matched? || l.st.NoMatch?
  {
    if l.Overflow? then StackOverflow
    else if l.st.Matched? then Found(l.st.s, l.st.caps) else NotFound
  }

  /**
    Run the code with a stack that grows up to `max` entries; `n` is the number of steps after which
    the unlimited machine stops in `st`.
   */
  method Match(prog: seq<Instr>, subj: seq<Byte>, start: nat, max: nat, ghost n: nat, ghost st: State) returns (r: Outcome)
    requires Iterate(Machine(prog, subj), Init(start), n) == st && (st.Matched? || st.NoMatch?)
    ensures r == OutcomeOf(if TooDeep(Machine(prog, subj), Init(start), n, Limit(max)) then Overflow else Reached(st))
  {
    hide Backtrack, Depth, TooDeep;
    ghost var m := Machine(prog, subj);
    ghost var left, limit := n, Limit(max);
    var p: int, s, stack, caps := 0, start, Choice(GIVEUP, start, 0, Empty), [];
    var size := INITBACK;
    LimitedSame(m, Init(start), n, limit);
    InitDepth(start);
    while true
      invariant Iterate(m, Run(p, s, stack, caps), left) == st
      invariant Depth(stack) <= size && INITBACK <= size <= limit
      invariant LimitedRun(m, Init(start), n, limit) == LimitedRun(m, Run(p, s, stack, caps), left, limit)
      decreases left
    {
      ghost var now := Run(p, s, stack, caps);
      ghost var next := Step(m, now);
      HaltedIsNotStuck(m, now, left);
      assert Iterate(m, next, left - 1) == st;
      LimitedNext(m, now, left, limit);
      left := left - 1;
      if p == GIVEUP {
        IterateHalted(m, NoMatch, left);
        LimitedHalted(m, NoMatch, left, limit);
        return NotFound;
      } else if prog[p].IEnd? {
        IterateHalted(m, Matched(s, caps), left);
        LimitedHalted(m, Matched(s, caps), left, limit);
        return Found(s, caps);
      }
      StepDepth(m, now);
      if (prog[p].IChoice? || prog[p].ICall?) && Depth(stack) == size {
        if size >= max {
          LimitedOver(m, next, left, limit);
          return StackOverflow;
        }
        size := if 2 * size > max then max else 2 * size;
      }
      var failed;
      failed, p, s, stack, caps := Execute(prog, subj, p, s, stack, caps);
      if failed {
        p, s, stack, caps := Resume(stack, caps);
      }
    }
  }

  lemma InitDepth(start: nat)
    ensures Depth(Choice(GIVEUP, start, 0, Empty)) == 1
  {
  }

  lemma LimitedNext(m: Machine, st: State, n: nat, limit: nat)
    requires n > 0 && st.Run? && Depth(st.stack) <= limit
    ensures LimitedRun(m, st, n, limit) == LimitedRun(m, Step(m, st), n - 1, limit)
  {
  }

  lemma LimitedOver(m: Machine, st: State, n: nat, limit: nat)
    requires st.Run? && Depth(st.stack) > limit
    ensures LimitedRun(m, st, n, limit) == Overflow
  {
  }

  lemma {:induction false} LimitedHalted(m: Machine, st: State, n: nat, limit: nat)
    requires !st.Run?
    ensures LimitedRun(m, st, n, limit) == Reached(st)
    decreases n
  {
    if n > 0 { LimitedHalted(m, st, n - 1, limit); }
  }

  /** Pop pending calls, then the newest choice. */
  method Resume(stack0: Stack, caps0: seq<Capture>) returns (p: int, s: nat, stack: Stack, caps: seq<Capture>)
    requires !Backtrack(stack0, caps0).Stuck?
    ensures Backtrack(stack0, caps0) == Run(p, s, stack, caps)
  {
    stack := stack0;
    while stack.RetAddr?
      invariant Backtrack(stack, caps0) == Backtrack(stack0, caps0)
      decreases stack
    {
      stack := stack.rest;
    }
    p, s, caps := stack.p, stack.s, caps0[..stack.caplevel];
    stack := stack.rest;
  }

  function AnswerOf(r: Result): Outcome {
    if r.Ok? then Found(r.pos, r.caps) else NotFound
  }

  /** Two answers of one pattern at one place are the same. */
  lemma OneAnswer(t: Tree, subj: seq<Byte>, start: nat, f: nat, f1: nat)
    requires start <= |subj| && Peg([], t, subj, start, f) != Timeout && Peg([], t, subj, start, f1) != Timeout
    ensures Peg([], t, subj, start, f) == Peg([], t, subj, start, f1)
  {
    hide Peg;
    if f <= f1 {
      FuelIrrelevant([], t, subj, start, f, f1);
    } else {
      FuelIrrelevant([], t, subj, start, f1, f);
    }
  }

  /** At some point of the match the stack is deeper than the limit. */
  ghost predicate NeedsMore(prog: seq<Instr>, subj: seq<Byte>, start: nat, max: nat) {
    exists k: nat :: Over(Iterate(Machine(prog, subj), Init(start), k), Limit(max))
  }

  /**
    Compile a pattern and match it, as `lpeg.match` does: the pattern has an answer, and this is it,
    unless its code needs more stack than allowed.
   */
  method CompileAndMatch(t: Tree, d: nat, subj: seq<Byte>, start: nat, max: nat) returns (r: Outcome)
    requires start <= |subj| && Accepted(t, d)
    ensures exists fuel: nat :: Peg([], t, subj, start, fuel) != Timeout
    ensures r.StackOverflow? <==> NeedsMore(Optimized(t, d), subj, start, max)
    ensures forall fuel: nat :: Peg([], t, subj, start, fuel) != Timeout && !r.StackOverflow? ==> r == AnswerOf(Peg([], t, subj, start, fuel))
  {
    hide Peg, WellFormed, NeedsMore, Optimized, TooDeep, Limit;
    var compst := new CompileState();
    compst.Compile(t, d);
    ghost var fuel := MatchTotal(t, d, subj, start);
    ghost var st := Report(Peg([], t, subj, start, fuel));
    ghost var n: nat :| Iterate(Machine(compst.code, subj), Init(start), n) == st;
    r := Match(compst.code, subj, start, max, n, st);
    WithinSteps(compst.code, subj, start, max, n, st);
    forall f: nat | Peg([], t, subj, start, f) != Timeout && !r.StackOverflow? ensures r == AnswerOf(Peg([], t, subj, start, f)) {
      OneAnswer(t, subj, start, f, fuel);
    }
  }

  lemma WithinSteps(prog: seq<Instr>, subj: seq<Byte>, start: nat, max: nat, n: nat, st: State)
    requires Iterate(Machine(prog, subj), Init(start), n) == st && !st.Run?
    ensures TooDeep(Machine(prog, subj), Init(start), n, Limit(max)) <==> NeedsMore(prog, subj, start, max)
  {
    hide Step, Over, Limit;
    var m, limit := Machine(prog, subj), Limit(max);
    forall k: nat | Over(Iterate(m, Init(start), k), limit) ensures TooDeep(m, Init(start), n, limit) {
      if k > n {
        IterateSum(m, Init(start), n, k - n);
        IterateHalted(m, st, k - n);
        HaltedNotOver(st, limit);
      }
    }
  }
}
