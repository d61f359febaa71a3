/**
  The proof that generated code agrees with the meaning of its pattern, by induction on the fuel
  of the meaning and the pattern, one lemma per kind of node.
 */
module LpegTheorem {
  import opened LpegTree
  import opened LpegAnalysis
  import opened LpegVm
  import opened LpegCode
  import opened LpegCorrect
  import opened LpegShapes
  import opened LpegCalls

  /** A machine whose program holds the rules `g` at positions `pos`. */
  datatype Context = Context(m: Machine, g: seq<Tree>, pos: seq<int>, d: nat)

  ghost predicate ContextOk(cx: Context) {
    RulesPlaced(cx.m.prog, cx.g, cx.pos, cx.d) && RulesWellFormed(cx.g, cx.d)
  }

  function Code(cx: Context, t: Tree, opt: bool, tt: Test, fl: Charset): seq<Instr> {
    Gen(cx.g, t, opt, tt, fl, cx.d)
  }

  function Meaning(cx: Context, t: Tree, i: nat, fuel: nat): Result
    requires i <= |cx.m.subj|
  {
    Peg(cx.g, t, cx.m.subj, i, fuel)
  }

  function FirstOf(cx: Context, t: Tree, fl: Charset): FirstSet {
    First(cx.g, t, fl, cx.d)
  }

  /** The code of `t` is placed at `base` and about to run at `i`, as the compiler promises. */
  ghost predicate Ready(cx: Context, t: Tree, opt: bool, tt: Test, fl: Charset, base: int, i: nat, stack: Stack, caps: seq<Capture>) {
    && ContextOk(cx)
    && WellFormed(cx.g, t, cx.d)
    && i <= |cx.m.subj|
    && Placed(cx.m.prog, base, Code(cx, t, opt, tt, fl), cx.pos)
    && TestHolds(tt, cx.m.subj, i)
    && OptOk(cx.m.prog, opt, base + |Code(cx, t, opt, tt, fl)|, stack)
    && Levels(stack, |caps|)
  }

  ghost predicate Correct(cx: Context, t: Tree, opt: bool, tt: Test, fl: Charset, base: int, i: nat, stack: Stack, caps: seq<Capture>, fuel: nat)
    requires i <= |cx.m.subj|
  {
    Agrees(cx.m, Run(base, i, stack, caps), Meaning(cx, t, i, fuel), opt, base + |Code(cx, t, opt, tt, fl)|, stack, caps, fl)
  }

  lemma {:induction false} GenCorrect(cx: Context, t: Tree, opt: bool, tt: Test, fl: Charset, base: int, i: nat, stack: Stack, caps: seq<Capture>, fuel: nat)
    requires i <= |cx.m.subj|
    requires Ready(cx, t, opt, tt, fl, base, i, stack, caps)
    ensures Correct(cx, t, opt, tt, fl, base, i, stack, caps, fuel)
    decreases fuel, t, 1
  {
    hide Gen, Peg, WellFormed, Agrees, Placed, RulesPlaced, RulesWellFormed;
    match t
    case TSeq(_, _) => SeqCorrect(cx, t, opt, tt, fl, base, i, stack, caps, fuel);
    case TChoice(_, _) => ChoiceCorrect(cx, t, opt, tt, fl, base, i, stack, caps, fuel);
    case TRep(_) => RepCorrect(cx, t, opt, tt, fl, base, i, stack, caps, fuel);
    case TNot(_) => NotCorrect(cx, t, opt, tt, fl, base, i, stack, caps, fuel);
    case TAnd(_) => AndCorrect(cx, t, opt, tt, fl, base, i, stack, caps, fuel);
    case TCall(_) => CallCorrect(cx, t, opt, tt, fl, base, i, stack, caps, fuel);
    case TGrammar(_) => GrammarCorrect(cx, t, opt, tt, fl, base, i, stack, caps, fuel);
    case TBehind(_, _) => BehindCorrect(cx, t, opt, tt, fl, base, i, stack, caps, fuel);
    case TCapture(_, _, _) => CaptureCorrect(cx, t, opt, tt, fl, base, i, stack, caps, fuel);
    case _ => LeafCorrect(cx.m, cx.g, cx.pos, t, opt, tt, fl, cx.d, base, i, stack, caps, fuel);
  }

  // ----- sequences -----

  lemma SeqUnfolds(cx: Context, p1: Tree, p2: Tree, opt: bool, tt: Test, fl: Charset, i: nat, fuel: nat)
    requires i <= |cx.m.subj|
    ensures var fl1 := if NeedFollow(p1) then FirstOf(cx, p2, fl).cs else FULL;
            var tt2 := if FixedLen(cx.g, p1, cx.d) != 0 then NoTest else tt;
            Code(cx, TSeq(p1, p2), opt, tt, fl) == Code(cx, p1, false, tt, fl1) + Code(cx, p2, opt, tt2, fl)
    ensures var r1 := Meaning(cx, p1, i, fuel);
            Meaning(cx, TSeq(p1, p2), i, fuel) == if r1.Ok? then Then(r1, Meaning(cx, p2, r1.pos, fuel)) else r1
    ensures WellFormed(cx.g, TSeq(p1, p2), cx.d) ==> WellFormed(cx.g, p1, cx.d) && WellFormed(cx.g, p2, cx.d)
  {
  }

  lemma {:induction false} SeqCorrect(cx: Context, t: Tree, opt: bool, tt: Test, fl: Charset, base: int, i: nat, stack: Stack, caps: seq<Capture>, fuel: nat)
    requires i <= |cx.m.subj|
    requires t.TSeq? && Ready(cx, t, opt, tt, fl, base, i, stack, caps)
    ensures Correct(cx, t, opt, tt, fl, base, i, stack, caps, fuel)
    decreases fuel, t, 0
  {
    hide Gen, Peg, WellFormed, First, FixedLen, Headfail, HasCaptures, Nullable, Agrees, Placed, RulesPlaced, RulesWellFormed, TestOf, TestLen;
    var p1, p2 := t.p1, t.p2;
    SeqUnfolds(cx, p1, p2, opt, tt, fl, i, fuel);
    var fl1 := if NeedFollow(p1) then FirstOf(cx, p2, fl).cs else FULL;
    var n1 := FixedLen(cx.g, p1, cx.d);
    var tt2 := if n1 != 0 then NoTest else tt;
    var c1 := Code(cx, p1, false, tt, fl1);
    var c2 := Code(cx, p2, opt, tt2, fl);
    PlacedSplit(cx.m.prog, base, c1, c2, cx.pos);
    GenCorrect(cx, p1, false, tt, fl1, base, i, stack, caps, fuel);
    var r1 := Meaning(cx, p1, i, fuel);
    var r2 := Fail;
    if r1.Ok? {
      if n1 == 0 {
        FixedLenSound(cx.g, p1, cx.d, cx.m.subj, i, fuel);
      }
      LevelsGrow(stack, |caps|, |caps + r1.caps|);
      GenCorrect(cx, p2, opt, tt2, fl, base + |c1|, r1.pos, stack, caps + r1.caps, fuel);
      FirstSound(cx.g, p2, fl, cx.d, cx.m.subj, r1.pos, fuel);
      r2 := Meaning(cx, p2, r1.pos, fuel);
    }
    SeqRuns(cx.m, base, base + |c1|, base + |c1| + |c2|, opt, fl1, fl, i, stack, caps, r1, r2);
  }

  // ----- ordered choice -----

  predicate ChoiceTests(cx: Context, p1: Tree, p2: Tree, fl: Charset) {
    Headfail(cx.g, p1, cx.d) || (!FirstOf(cx, p1, FULL).e && FirstOf(cx, p1, FULL).cs !! FirstOf(cx, p2, fl).cs)
  }

  lemma ChoiceUnfolds(cx: Context, p1: Tree, p2: Tree, opt: bool, tt: Test, fl: Charset, i: nat, fuel: nat)
    requires i <= |cx.m.subj|
    ensures var f1 := FirstOf(cx, p1, FULL);
            Code(cx, TChoice(p1, p2), opt, tt, fl) ==
              if ChoiceTests(cx, p1, p2, fl) then
                ChoiceByTest(f1.cs, Code(cx, p1, false, TestOf(f1.cs, false), fl), Code(cx, p2, opt, NoTest, fl), !p2.TTrue?)
              else if opt && p2.TTrue? then
                [IPartialCommit(2), Ext] + Code(cx, p1, true, NoTest, FULL)
              else
                ChoiceByStack(f1.cs, f1.e, Code(cx, p1, p2.TTrue?, TestOf(f1.cs, f1.e), FULL), Code(cx, p2, opt, NoTest, fl))
    ensures Meaning(cx, TChoice(p1, p2), i, fuel) == OrElse(Meaning(cx, p1, i, fuel), Meaning(cx, p2, i, fuel))
    ensures WellFormed(cx.g, TChoice(p1, p2), cx.d) ==> WellFormed(cx.g, p1, cx.d) && WellFormed(cx.g, p2, cx.d)
    ensures p2.TTrue? ==> Code(cx, p2, opt, NoTest, fl) == [] && Meaning(cx, p2, i, fuel) == Ok(i, [])
  {
  }

  /** The first set of an alternative decides whether to try it. */
  lemma FirstDecides(cx: Context, p1: Tree, i: nat, fuel: nat)
    requires i <= |cx.m.subj|
    ensures var f1 := FirstOf(cx, p1, FULL);
            var r1 := Meaning(cx, p1, i, fuel);
            && (!f1.e && !Next(cx.m, i, f1.cs) ==> !r1.Ok?)
            && (Headfail(cx.g, p1, cx.d) ==> !f1.e && (Next(cx.m, i, f1.cs) ==> !r1.Fail?))
            && (!Next(cx.m, i, f1.cs) && !f1.e ==> !r1.Ok?)
  {
    FirstSound(cx.g, p1, FULL, cx.d, cx.m.subj, i, fuel);
    if Headfail(cx.g, p1, cx.d) {
      HeadfailNotEmpty(cx.g, p1, FULL, cx.d);
      if Meaning(cx, p1, i, fuel) != Timeout {
        HeadfailSound(cx.g, p1, cx.d, cx.m.subj, i, fuel);
      }
    }
  }

  lemma {:induction false} ChoiceCorrect(cx: Context, t: Tree, opt: bool, tt: Test, fl: Charset, base: int, i: nat, stack: Stack, caps: seq<Capture>, fuel: nat)
    requires i <= |cx.m.subj|
    requires t.TChoice? && Ready(cx, t, opt, tt, fl, base, i, stack, caps)
    ensures Correct(cx, t, opt, tt, fl, base, i, stack, caps, fuel)
    decreases fuel, t, 0, 1
  {
    hide Gen, Peg, WellFormed, First, FixedLen, Headfail, HasCaptures, Nullable, Agrees, Placed, RulesPlaced, RulesWellFormed, TestOf, TestLen;
    var p1, p2 := t.p1, t.p2;
    ChoiceUnfolds(cx, p1, p2, opt, tt, fl, i, fuel);
    if ChoiceTests(cx, p1, p2, fl) {
      ChoiceByTestCorrect(cx, t, opt, tt, fl, base, i, stack, caps, fuel);
    } else if opt && p2.TTrue? {
      PlacedSplit(cx.m.prog, base, [IPartialCommit(2), Ext], Code(cx, p1, true, NoTest, FULL), cx.pos);
      GenCorrect(cx, p1, true, NoTest, FULL, base + 2, i, Choice(stack.p, i, |caps|, stack.rest), caps, fuel);
      OptionRuns(cx.m, base, base + |Code(cx, t, opt, tt, fl)|, cx.pos, fl, i, stack, caps, Meaning(cx, p1, i, fuel));
    } else {
      ChoiceByStackCorrect(cx, t, opt, tt, fl, base, i, stack, caps, fuel);
    }
  }

  lemma {:induction false} ChoiceByTestCorrect(cx: Context, t: Tree, opt: bool, tt: Test, fl: Charset, base: int, i: nat, stack: Stack, caps: seq<Capture>, fuel: nat)
    requires i <= |cx.m.subj|
    requires t.TChoice? && Ready(cx, t, opt, tt, fl, base, i, stack, caps)
    requires ChoiceTests(cx, t.p1, t.p2, fl)
    ensures Correct(cx, t, opt, tt, fl, base, i, stack, caps, fuel)
    decreases fuel, t, 0, 0
  {
    hide Gen, Peg, WellFormed, First, FixedLen, Headfail, HasCaptures, Nullable, Agrees, Placed, RulesPlaced, RulesWellFormed, TestOf, TestLen, ChoiceByTest;
    var m := cx.m;
    var p1, p2 := t.p1, t.p2;
    ChoiceUnfolds(cx, p1, p2, opt, tt, fl, i, fuel);
    FirstDecides(cx, p1, i, fuel);
    var f1 := FirstOf(cx, p1, FULL);
    var tt1 := TestOf(f1.cs, false);
    var c1 := Code(cx, p1, false, tt1, fl);
    var c2 := Code(cx, p2, opt, NoTest, fl);
    var jump := !p2.TTrue?;
    ChoiceByTestPlaced(m.prog, base, f1.cs, c1, c2, jump, cx.pos);
    var b1 := base + TestLen(f1.cs, false);
    var r1 := Meaning(cx, p1, i, fuel);
    var r2 := Meaning(cx, p2, i, fuel);
    if Next(m, i, f1.cs) {
      TestOfHolds(f1.cs, false, m.subj, i);
      GenCorrect(cx, p1, false, tt1, fl, b1, i, stack, caps, fuel);
      FirstSound(cx.g, p2, fl, cx.d, m.subj, i, fuel);
    } else {
      GenCorrect(cx, p2, opt, NoTest, fl, b1 + |c1| + if jump then 2 else 0, i, stack, caps, fuel);
    }
    ChoiceByTestRuns(m, base, f1.cs, c1, c2, jump, cx.pos, opt, fl, i, stack, caps, r1, r2);
  }

  lemma {:induction false} ChoiceByStackCorrect(cx: Context, t: Tree, opt: bool, tt: Test, fl: Charset, base: int, i: nat, stack: Stack, caps: seq<Capture>, fuel: nat)
    requires i <= |cx.m.subj|
    requires t.TChoice? && Ready(cx, t, opt, tt, fl, base, i, stack, caps)
    requires !ChoiceTests(cx, t.p1, t.p2, fl) && !(opt && t.p2.TTrue?)
    ensures Correct(cx, t, opt, tt, fl, base, i, stack, caps, fuel)
    decreases fuel, t, 0, 0
  {
    hide Gen, Peg, WellFormed, First, FixedLen, Headfail, HasCaptures, Nullable, Agrees, Placed, RulesPlaced, RulesWellFormed, TestOf, TestLen, ChoiceByStack;
    var m := cx.m;
    var p1, p2 := t.p1, t.p2;
    ChoiceUnfolds(cx, p1, p2, opt, tt, fl, i, fuel);
    FirstDecides(cx, p1, i, fuel);
    var f1 := FirstOf(cx, p1, FULL);
    var tt1 := TestOf(f1.cs, f1.e);
    var c1 := Code(cx, p1, p2.TTrue?, tt1, FULL);
    var c2 := Code(cx, p2, opt, NoTest, fl);
    ChoiceByStackPlaced(m.prog, base, f1.cs, f1.e, c1, c2, cx.pos);
    var b0 := base + TestLen(f1.cs, f1.e);
    var r1 := Meaning(cx, p1, i, fuel);
    var r2 := Meaning(cx, p2, i, fuel);
    if f1.e || Next(m, i, f1.cs) {
      TestOfHolds(f1.cs, f1.e, m.subj, i);
      GenCorrect(cx, p1, p2.TTrue?, tt1, FULL, b0 + 2, i, Choice(b0 + 4 + |c1|, i, |caps|, stack), caps, fuel);
    }
    if r1.Fail? {
      GenCorrect(cx, p2, opt, NoTest, fl, b0 + 4 + |c1|, i, stack, caps, fuel);
    }
    ChoiceByStackRuns(m, base, f1.cs, f1.e, c1, c2, cx.pos, p2.TTrue?, opt, fl, i, stack, caps, r1, r2);
  }

  // ----- repetition -----

  predicate RepTests(cx: Context, p: Tree, fl: Charset) {
    Headfail(cx.g, p, cx.d) || (!FirstOf(cx, p, FULL).e && FirstOf(cx, p, FULL).cs !! fl)
  }

  lemma RepUnfolds(cx: Context, p: Tree, opt: bool, tt: Test, fl: Charset)
    ensures var f := FirstOf(cx, p, FULL);
            Code(cx, TRep(p), opt, tt, fl) ==
              if ToCharset(p).Some? then [ISpan(ToCharset(p).value)] + Exts(CHARSETINSTSIZE - 1)
              else if RepTests(cx, p, fl) then RepByTest(f.cs, Code(cx, p, false, TestOf(f.cs, false), FULL))
              else RepByStack(f.cs, f.e, opt, Code(cx, p, false, NoTest, FULL))
    ensures WellFormed(cx.g, TRep(p), cx.d) ==> WellFormed(cx.g, p, cx.d)
  {
  }

  lemma RepMeaning(cx: Context, p: Tree, i: nat, fuel: nat)
    requires i <= |cx.m.subj|
    ensures var r1 := Meaning(cx, p, i, fuel);
            Meaning(cx, TRep(p), i, fuel) ==
              Turn(i, r1, if r1.Ok? && fuel > 0 then Meaning(cx, TRep(p), r1.pos, fuel - 1) else Timeout)
    ensures !Meaning(cx, TRep(p), i, fuel).Fail?
  {
    NofailSound(cx.g, TRep(p), cx.d, cx.m.subj, i, fuel);
  }

  /** A repetition of a charset takes the longest run of its bytes. */
  lemma {:induction false} SpanMeaning(cx: Context, p: Tree, i: nat, fuel: nat)
    requires i <= |cx.m.subj| && ToCharset(p).Some?
    ensures var r := Meaning(cx, TRep(p), i, fuel);
            r.Timeout? || r == Ok(SpanEnd(cx.m.subj, ToCharset(p).value, i), [])
    decreases fuel
  {
    var cs := ToCharset(p).value;
    RepMeaning(cx, p, i, fuel);
    assert Meaning(cx, p, i, fuel) == if Next(cx.m, i, cs) then Ok(i + 1, []) else Fail;
    if fuel > 0 && i < |cx.m.subj| {
      SpanMeaning(cx, p, i + 1, fuel - 1);
    }
  }

  lemma {:induction false} RepCorrect(cx: Context, t: Tree, opt: bool, tt: Test, fl: Charset, base: int, i: nat, stack: Stack, caps: seq<Capture>, fuel: nat)
    requires i <= |cx.m.subj|
    requires t.TRep? && Ready(cx, t, opt, tt, fl, base, i, stack, caps)
    ensures Correct(cx, t, opt, tt, fl, base, i, stack, caps, fuel)
    decreases fuel, t, 0, 1
  {
    hide Gen, Peg, WellFormed, First, FixedLen, Headfail, HasCaptures, Nullable, Agrees, Placed, RulesPlaced, RulesWellFormed, TestOf, TestLen, RepByTest, RepByStack, SpanEnd;
    var m := cx.m;
    var p := t.p;
    RepUnfolds(cx, p, opt, tt, fl);
    var f := FirstOf(cx, p, FULL);
    var end := base + |Code(cx, t, opt, tt, fl)|;
    var r := Meaning(cx, t, i, fuel);
    RepMeaning(cx, p, i, fuel);
    if ToCharset(p).Some? {
      SpanMeaning(cx, p, i, fuel);
      SpanRuns(m, base, ToCharset(p).value, cx.pos, opt, fl, i, stack, caps, r);
    } else if RepTests(cx, p, fl) {
      RepTestLoop(cx, p, fl, base, i, stack, caps, fuel);
      AgreesWithOpt(m, Run(base, i, stack, caps), r, opt, end, stack, caps, fl);
    } else {
      RepByStackCorrect(cx, p, opt, fl, base, i, stack, caps, fuel);
    }
  }

  lemma {:induction false} RepByStackCorrect(cx: Context, p: Tree, opt: bool, fl: Charset, base: int, i: nat, stack: Stack, caps: seq<Capture>, fuel: nat)
    requires i <= |cx.m.subj| && ContextOk(cx) && WellFormed(cx.g, p, cx.d) && Levels(stack, |caps|)
    requires var f := FirstOf(cx, p, FULL);
             var code := RepByStack(f.cs, f.e, opt, Code(cx, p, false, NoTest, FULL));
             Placed(cx.m.prog, base, code, cx.pos) && OptOk(cx.m.prog, opt, base + |code|, stack)
    ensures var f := FirstOf(cx, p, FULL);
            var code := RepByStack(f.cs, f.e, opt, Code(cx, p, false, NoTest, FULL));
            Agrees(cx.m, Run(base, i, stack, caps), Meaning(cx, TRep(p), i, fuel), opt, base + |code|, stack, caps, fl)
    decreases fuel, TRep(p), 0, 0, 1
  {
    hide Gen, Peg, WellFormed, First, FixedLen, Headfail, HasCaptures, Nullable, Agrees, Placed, RulesPlaced, RulesWellFormed, TestOf, TestLen, RepByStack;
    var m := cx.m;
    var f := FirstOf(cx, p, FULL);
    RepMeaning(cx, p, i, fuel);
    var c := Code(cx, p, false, NoTest, FULL);
    RepByStackPlaced(m.prog, base, f.cs, f.e, opt, c, cx.pos);
    FirstDecides(cx, p, i, fuel);
    var b1 := base + TestLen(f.cs, f.e) + 2;
    var q := if opt then stack.p else b1 + |c| + 2;
    RepStackLoop(cx, p, b1, q, i, if opt then stack.rest else stack, caps, fuel);
    RepByStackRuns(m, base, f.cs, f.e, c, cx.pos, opt, fl, i, stack, caps, Meaning(cx, TRep(p), i, fuel));
  }

  lemma {:induction false} RepStackLoop(cx: Context, p: Tree, l1: int, q: int, i: nat, rest: Stack, caps: seq<Capture>, fuel: nat)
    requires i <= |cx.m.subj| && ContextOk(cx) && WellFormed(cx.g, p, cx.d) && Levels(rest, |caps|)
    requires Placed(cx.m.prog, l1, Code(cx, p, false, NoTest, FULL), cx.pos)
    requires var n := |Code(cx, p, false, NoTest, FULL)|;
             0 <= l1 + n < |cx.m.prog| && cx.m.prog[l1 + n] == IPartialCommit(0 - n)
    ensures LoopEnds(cx.m, Run(l1, i, Choice(q, i, |caps|, rest), caps), Meaning(cx, TRep(p), i, fuel), q, rest, caps)
    decreases fuel, TRep(p), 0, 0, 0
  {
    hide Gen, Peg, WellFormed, First, FixedLen, Headfail, HasCaptures, Nullable, Agrees, Placed, RulesPlaced, RulesWellFormed, TestOf, TestLen;
    var n := |Code(cx, p, false, NoTest, FULL)|;
    var stack := Choice(q, i, |caps|, rest);
    RepMeaning(cx, p, i, fuel);
    GenCorrect(cx, p, false, NoTest, FULL, l1, i, stack, caps, fuel);
    var r1 := Meaning(cx, p, i, fuel);
    var r2 := Timeout;
    if r1.Ok? && fuel > 0 {
      r2 := Meaning(cx, TRep(p), r1.pos, fuel - 1);
      LevelsGrow(rest, |caps|, |caps + r1.caps|);
      RepStackLoop(cx, p, l1, q, r1.pos, rest, caps + r1.caps, fuel - 1);
    }
    RepStackTurn(cx.m, l1, n, q, i, rest, caps, r1, r2);
  }

  lemma {:induction false} RepTestLoop(cx: Context, p: Tree, fl: Charset, base: int, i: nat, stack: Stack, caps: seq<Capture>, fuel: nat)
    requires i <= |cx.m.subj| && ContextOk(cx) && WellFormed(cx.g, p, cx.d) && Levels(stack, |caps|)
    requires RepTests(cx, p, fl)
    requires var f := FirstOf(cx, p, FULL);
             Placed(cx.m.prog, base, RepByTest(f.cs, Code(cx, p, false, TestOf(f.cs, false), FULL)), cx.pos)
    ensures var f := FirstOf(cx, p, FULL);
            Agrees(cx.m, Run(base, i, stack, caps), Meaning(cx, TRep(p), i, fuel), false,
                   base + |RepByTest(f.cs, Code(cx, p, false, TestOf(f.cs, false), FULL))|, stack, caps, fl)
    decreases fuel, TRep(p), 0, 0
  {
    hide Gen, Peg, WellFormed, First, FixedLen, Headfail, HasCaptures, Nullable, Agrees, Placed, RulesPlaced, RulesWellFormed, TestOf, TestLen, RepByTest;
    var f := FirstOf(cx, p, FULL);
    var tt := TestOf(f.cs, false);
    var c := Code(cx, p, false, tt, FULL);
    RepByTestPlaced(cx.m.prog, base, f.cs, c, cx.pos);
    FirstDecides(cx, p, i, fuel);
    RepMeaning(cx, p, i, fuel);
    var r1 := Meaning(cx, p, i, fuel);
    var r2 := Timeout;
    if Next(cx.m, i, f.cs) {
      TestOfHolds(f.cs, false, cx.m.subj, i);
      GenCorrect(cx, p, false, tt, FULL, base + TestLen(f.cs, false), i, stack, caps, fuel);
    }
    if r1.Ok? {
      if fuel > 0 {
        r2 := Meaning(cx, TRep(p), r1.pos, fuel - 1);
        LevelsGrow(stack, |caps|, |caps + r1.caps|);
        RepTestLoop(cx, p, fl, base, r1.pos, stack, caps + r1.caps, fuel - 1);
        RepMeaning(cx, p, r1.pos, fuel - 1);
      } else {
        AgreesTimeout(cx.m, Run(base, r1.pos, stack, caps + r1.caps), false, base + |RepByTest(f.cs, c)|, stack, caps + r1.caps, fl);
      }
    }
    RepTestTurn(cx.m, base, f.cs, c, cx.pos, fl, i, stack, caps, r1, r2);
  }

  // ----- predicates -----

  lemma NotUnfolds(cx: Context, p: Tree, opt: bool, tt: Test, fl: Charset, i: nat, fuel: nat)
    requires i <= |cx.m.subj|
    ensures var f := FirstOf(cx, p, FULL);
            Code(cx, TNot(p), opt, tt, fl) ==
              if Headfail(cx.g, p, cx.d) then NotByTest(f.cs, f.e)
              else NotByStack(f.cs, f.e, Code(cx, p, false, NoTest, FULL))
    ensures Meaning(cx, TNot(p), i, fuel) == Unless(i, Meaning(cx, p, i, fuel))
    ensures WellFormed(cx.g, TNot(p), cx.d) ==> WellFormed(cx.g, p, cx.d)
  {
  }

  lemma {:induction false} NotCorrect(cx: Context, t: Tree, opt: bool, tt: Test, fl: Charset, base: int, i: nat, stack: Stack, caps: seq<Capture>, fuel: nat)
    requires i <= |cx.m.subj|
    requires t.TNot? && Ready(cx, t, opt, tt, fl, base, i, stack, caps)
    ensures Correct(cx, t, opt, tt, fl, base, i, stack, caps, fuel)
    decreases fuel, t, 0, 1
  {
    hide Gen, Peg, WellFormed, First, Headfail, Agrees, Placed, RulesPlaced, RulesWellFormed, NotByTest, NotByStack;
    var p := t.p;
    NotUnfolds(cx, p, opt, tt, fl, i, fuel);
    if Headfail(cx.g, p, cx.d) {
      FirstDecides(cx, p, i, fuel);
      NotByTestRuns(cx.m, base, FirstOf(cx, p, FULL).cs, cx.pos, opt, fl, i, stack, caps, Meaning(cx, p, i, fuel));
    } else {
      NotByStackCorrect(cx, p, opt, fl, base, i, stack, caps, fuel);
    }
  }

  lemma {:induction false} NotByStackCorrect(cx: Context, p: Tree, opt: bool, fl: Charset, base: int, i: nat, stack: Stack, caps: seq<Capture>, fuel: nat)
    requires i <= |cx.m.subj| && ContextOk(cx) && WellFormed(cx.g, p, cx.d) && Levels(stack, |caps|)
    requires var f := FirstOf(cx, p, FULL);
             var code := NotByStack(f.cs, f.e, Code(cx, p, false, NoTest, FULL));
             Placed(cx.m.prog, base, code, cx.pos) && OptOk(cx.m.prog, opt, base + |code|, stack)
    ensures var f := FirstOf(cx, p, FULL);
            var code := NotByStack(f.cs, f.e, Code(cx, p, false, NoTest, FULL));
            Agrees(cx.m, Run(base, i, stack, caps), Unless(i, Meaning(cx, p, i, fuel)), opt, base + |code|, stack, caps, fl)
    decreases fuel, TNot(p), 0, 0
  {
    hide Gen, Peg, WellFormed, First, Headfail, Agrees, Placed, RulesPlaced, RulesWellFormed, TestLen, NotByStack;
    FirstDecides(cx, p, i, fuel);
    var f := FirstOf(cx, p, FULL);
    var c := Code(cx, p, false, NoTest, FULL);
    NotByStackPlaced(cx.m.prog, base, f.cs, f.e, c, cx.pos);
    var b1 := base + TestLen(f.cs, f.e) + 2;
    GenCorrect(cx, p, false, NoTest, FULL, b1, i, Choice(b1 + |c| + 1, i, |caps|, stack), caps, fuel);
    NotByStackRuns(cx.m, base, f.cs, f.e, c, cx.pos, opt, fl, i, stack, caps, Meaning(cx, p, i, fuel));
  }

  predicate Plain(cx: Context, p: Tree, max: int) {
    0 <= FixedLen(cx.g, p, cx.d) <= max && !HasCaptures(cx.g, p, {}, cx.d)
  }

  /** A plain tree that succeeds has moved by its fixed length and added no captures. */
  lemma PlainSound(cx: Context, p: Tree, max: int, i: nat, fuel: nat)
    requires i <= |cx.m.subj| && Plain(cx, p, max)
    ensures var r := Meaning(cx, p, i, fuel);
            r.Ok? ==> r == Ok(i + FixedLen(cx.g, p, cx.d), [])
  {
    FixedLenSound(cx.g, p, cx.d, cx.m.subj, i, fuel);
    HasCapturesSound(cx.g, p, cx.d, cx.m.subj, i, fuel);
  }

  lemma AndUnfolds(cx: Context, p: Tree, opt: bool, tt: Test, fl: Charset, i: nat, fuel: nat)
    requires i <= |cx.m.subj|
    ensures Code(cx, TAnd(p), opt, tt, fl) ==
              if Plain(cx, p, MAXBEHIND) then Code(cx, p, false, tt, FULL) + BehindCode(FixedLen(cx.g, p, cx.d))
              else AndByStack(Code(cx, p, false, tt, FULL))
    ensures Meaning(cx, TAnd(p), i, fuel) == Look(i, Meaning(cx, p, i, fuel))
    ensures WellFormed(cx.g, TAnd(p), cx.d) ==> WellFormed(cx.g, p, cx.d)
  {
  }

  lemma {:induction false} AndCorrect(cx: Context, t: Tree, opt: bool, tt: Test, fl: Charset, base: int, i: nat, stack: Stack, caps: seq<Capture>, fuel: nat)
    requires i <= |cx.m.subj|
    requires t.TAnd? && Ready(cx, t, opt, tt, fl, base, i, stack, caps)
    ensures Correct(cx, t, opt, tt, fl, base, i, stack, caps, fuel)
    decreases fuel, t, 0
  {
    hide Gen, Peg, WellFormed, First, FixedLen, Headfail, HasCaptures, Nullable, Agrees, Placed, RulesPlaced, RulesWellFormed, TestOf, TestLen, AndByStack;
    var m := cx.m;
    var p := t.p;
    AndUnfolds(cx, p, opt, tt, fl, i, fuel);
    var c := Code(cx, p, false, tt, FULL);
    var r1 := Meaning(cx, p, i, fuel);
    if Plain(cx, p, MAXBEHIND) {
      var n := FixedLen(cx.g, p, cx.d);
      PlainSound(cx, p, MAXBEHIND, i, fuel);
      PlacedSplit(m.prog, base, c, BehindCode(n), cx.pos);
      GenCorrect(cx, p, false, tt, FULL, base, i, stack, caps, fuel);
      AndByBehindRuns(m, base, base + |c|, n, cx.pos, opt, fl, i, stack, caps, r1);
    } else {
      AndByStackPlaced(m.prog, base, c, cx.pos);
      GenCorrect(cx, p, false, tt, FULL, base + 2, i, Choice(base + |c| + 4, i, |caps|, stack), caps, fuel);
      AndByStackRuns(m, base, c, cx.pos, opt, fl, i, stack, caps, r1);
    }
  }

  lemma BehindUnfolds(cx: Context, p: Tree, n: nat, opt: bool, tt: Test, fl: Charset, i: nat, fuel: nat)
    requires i <= |cx.m.subj|
    ensures Code(cx, TBehind(p, n), opt, tt, fl) == BehindCode(n) + Code(cx, p, false, NoTest, FULL)
    ensures Meaning(cx, TBehind(p, n), i, fuel) == LookBehind(i, n, if n > i then Fail else Meaning(cx, p, i - n, fuel))
    ensures WellFormed(cx.g, TBehind(p, n), cx.d) ==> WellFormed(cx.g, p, cx.d) && Plain(cx, p, n) && FixedLen(cx.g, p, cx.d) == n
  {
  }

  lemma {:induction false} BehindCorrect(cx: Context, t: Tree, opt: bool, tt: Test, fl: Charset, base: int, i: nat, stack: Stack, caps: seq<Capture>, fuel: nat)
    requires i <= |cx.m.subj|
    requires t.TBehind? && Ready(cx, t, opt, tt, fl, base, i, stack, caps)
    ensures Correct(cx, t, opt, tt, fl, base, i, stack, caps, fuel)
    decreases fuel, t, 0
  {
    hide Gen, Peg, WellFormed, First, FixedLen, Headfail, HasCaptures, Nullable, Agrees, Placed, RulesPlaced, RulesWellFormed, TestOf, TestLen;
    var m := cx.m;
    var p, n := t.p, t.n;
    BehindUnfolds(cx, p, n, opt, tt, fl, i, fuel);
    var c := Code(cx, p, false, NoTest, FULL);
    PlacedSplit(m.prog, base, BehindCode(n), c, cx.pos);
    var r1 := Fail;
    if n <= i {
      r1 := Meaning(cx, p, i - n, fuel);
      PlainSound(cx, p, n, i - n, fuel);
      GenCorrect(cx, p, false, NoTest, FULL, base + |BehindCode(n)|, i - n, stack, caps, fuel);
    }
    BehindRuns(m, base, base + |BehindCode(n)| + |c|, n, cx.pos, opt, fl, i, stack, caps, r1);
  }

  // ----- captures -----

  lemma {:induction false} CapturesClosed(g: seq<Tree>, t: Tree, s: seq<Byte>, i: nat, fuel: nat)
    requires i <= |s|
    ensures Peg(g, t, s, i, fuel).Ok? ==> Closed(Peg(g, t, s, i, fuel).caps)
    decreases fuel, t
  {
    match t
    case TRep(p) =>
      CapturesClosed(g, p, s, i, fuel);
      var r := Peg(g, p, s, i, fuel);
      if r.Ok? && fuel > 0 {
        CapturesClosed(g, t, s, r.pos, fuel - 1);
      }
    case TSeq(p1, p2) =>
      CapturesClosed(g, p1, s, i, fuel);
      var r := Peg(g, p1, s, i, fuel);
      if r.Ok? {
        CapturesClosed(g, p2, s, r.pos, fuel);
      }
    case TChoice(p1, p2) =>
      CapturesClosed(g, p1, s, i, fuel);
      CapturesClosed(g, p2, s, i, fuel);
    case TCall(k) =>
      if k < |g| && fuel > 0 {
        CapturesClosed(g, g[k], s, i, fuel - 1);
      }
    case TGrammar(rules) =>
      if rules != [] {
        CapturesClosed(rules, rules[0], s, i, fuel);
      }
    case _ =>
  }

  lemma CaptureUnfolds(cx: Context, kind: nat, key: nat, p: Tree, opt: bool, tt: Test, fl: Charset, i: nat, fuel: nat)
    requires i <= |cx.m.subj|
    ensures Code(cx, TCapture(kind, key, p), opt, tt, fl) ==
              if Plain(cx, p, MAXOFF) then Code(cx, p, false, tt, fl) + [IFullCapture(kind, key, FixedLen(cx.g, p, cx.d))]
              else [IOpenCapture(kind, key)] + (Code(cx, p, false, tt, fl) + [ICloseCapture])
    ensures Meaning(cx, TCapture(kind, key, p), i, fuel) == Capturing(kind, key, i, Meaning(cx, p, i, fuel))
    ensures WellFormed(cx.g, TCapture(kind, key, p), cx.d) ==> WellFormed(cx.g, p, cx.d)
  {
  }

  lemma {:induction false} CaptureCorrect(cx: Context, t: Tree, opt: bool, tt: Test, fl: Charset, base: int, i: nat, stack: Stack, caps: seq<Capture>, fuel: nat)
    requires i <= |cx.m.subj|
    requires t.TCapture? && Ready(cx, t, opt, tt, fl, base, i, stack, caps)
    ensures Correct(cx, t, opt, tt, fl, base, i, stack, caps, fuel)
    decreases fuel, t, 0, 1
  {
    hide Gen, Peg, WellFormed, FixedLen, HasCaptures, Agrees, Placed, RulesPlaced, RulesWellFormed, Captured;
    CaptureUnfolds(cx, t.kind, t.key, t.p, opt, tt, fl, i, fuel);
    if Plain(cx, t.p, MAXOFF) {
      FullCaptureCorrect(cx, t.kind, t.key, t.p, opt, tt, fl, base, i, stack, caps, fuel);
    } else {
      OpenCaptureCorrect(cx, t.kind, t.key, t.p, opt, tt, fl, base, i, stack, caps, fuel);
    }
  }

  lemma {:induction false} FullCaptureCorrect(cx: Context, kind: nat, key: nat, p: Tree, opt: bool, tt: Test, fl: Charset, base: int, i: nat, stack: Stack, caps: seq<Capture>, fuel: nat)
    requires i <= |cx.m.subj| && ContextOk(cx) && WellFormed(cx.g, p, cx.d) && TestHolds(tt, cx.m.subj, i) && Levels(stack, |caps|)
    requires Plain(cx, p, MAXOFF)
    requires var code := Code(cx, p, false, tt, fl) + [IFullCapture(kind, key, FixedLen(cx.g, p, cx.d))];
             Placed(cx.m.prog, base, code, cx.pos) && OptOk(cx.m.prog, opt, base + |code|, stack)
    ensures var code := Code(cx, p, false, tt, fl) + [IFullCapture(kind, key, FixedLen(cx.g, p, cx.d))];
            Agrees(cx.m, Run(base, i, stack, caps), Capturing(kind, key, i, Meaning(cx, p, i, fuel)), opt, base + |code|, stack, caps, fl)
    decreases fuel, TCapture(kind, key, p), 0, 0
  {
    hide Gen, Peg, WellFormed, FixedLen, HasCaptures, Agrees, Placed, RulesPlaced, RulesWellFormed, Captured;
    var c := Code(cx, p, false, tt, fl);
    var n := FixedLen(cx.g, p, cx.d);
    PlainSound(cx, p, MAXOFF, i, fuel);
    PlacedSplit(cx.m.prog, base, c, [IFullCapture(kind, key, n)], cx.pos);
    GenCorrect(cx, p, false, tt, fl, base, i, stack, caps, fuel);
    FullCaptureRuns(cx.m, base, base + |c|, n, kind, key, cx.pos, opt, fl, i, stack, caps, Meaning(cx, p, i, fuel));
  }

  lemma {:induction false} OpenCaptureCorrect(cx: Context, kind: nat, key: nat, p: Tree, opt: bool, tt: Test, fl: Charset, base: int, i: nat, stack: Stack, caps: seq<Capture>, fuel: nat)
    requires i <= |cx.m.subj| && ContextOk(cx) && WellFormed(cx.g, p, cx.d) && TestHolds(tt, cx.m.subj, i) && Levels(stack, |caps|)
    requires var code := [IOpenCapture(kind, key)] + (Code(cx, p, false, tt, fl) + [ICloseCapture]);
             Placed(cx.m.prog, base, code, cx.pos) && OptOk(cx.m.prog, opt, base + |code|, stack)
    ensures var code := [IOpenCapture(kind, key)] + (Code(cx, p, false, tt, fl) + [ICloseCapture]);
            Agrees(cx.m, Run(base, i, stack, caps), Capturing(kind, key, i, Meaning(cx, p, i, fuel)), opt, base + |code|, stack, caps, fl)
    decreases fuel, TCapture(kind, key, p), 0, 0
  {
    hide Gen, Peg, WellFormed, FixedLen, HasCaptures, Agrees, Placed, RulesPlaced, RulesWellFormed, Captured, Capturing, Levels;
    var c := Code(cx, p, false, tt, fl);
    PlacedSplit(cx.m.prog, base, [IOpenCapture(kind, key)], c + [ICloseCapture], cx.pos);
    PlacedSplit(cx.m.prog, base + 1, c, [ICloseCapture], cx.pos);
    var caps1 := caps + [Capture(kind, key, i, 0)];
    LevelsGrow(stack, |caps|, |caps1|);
    CapturesClosed(cx.g, p, cx.m.subj, i, fuel);
    GenCorrect(cx, p, false, tt, fl, base + 1, i, stack, caps1, fuel);
    OpenCaptureRuns(cx.m, base, c, kind, key, cx.pos, opt, fl, i, stack, caps, Meaning(cx, p, i, fuel));
  }

  // ----- calls and grammars -----

  /** Running the code of rule `k` from its first instruction. */
  lemma {:induction false} RuleCorrect(cx: Context, k: nat, i: nat, stack: Stack, caps: seq<Capture>, fuel: nat)
    requires i <= |cx.m.subj| && ContextOk(cx) && k < |cx.g| && Levels(stack, |caps|)
    ensures var ret := cx.pos[k] + |Code(cx, cx.g[k], false, NoTest, FULL)|;
            && IsRet(cx.m.prog, ret)
            && Agrees(cx.m, Run(cx.pos[k], i, stack, caps), Meaning(cx, cx.g[k], i, fuel), false, ret, stack, caps, FULL)
    decreases fuel, cx.g[k], 2
  {
    hide Gen, Peg, WellFormed, Agrees, Placed;
    var c := Code(cx, cx.g[k], false, NoTest, FULL);
    PlacedSplit(cx.m.prog, cx.pos[k], c, [IRet], cx.pos);
    PlacedHead(cx.m.prog, cx.pos[k] + |c|, [IRet], cx.pos);
    GenCorrect(cx, cx.g[k], false, NoTest, FULL, cx.pos[k], i, stack, caps, fuel);
  }

  lemma CallUnfolds(cx: Context, k: nat, opt: bool, tt: Test, fl: Charset, i: nat, fuel: nat)
    requires i <= |cx.m.subj| && k < |cx.g|
    ensures Code(cx, TCall(k), opt, tt, fl) == [IOpenCall(k), Ext]
    ensures Meaning(cx, TCall(k), i, fuel) == if fuel == 0 then Timeout else Meaning(cx, cx.g[k], i, fuel - 1)
  {
  }

  lemma AgreesTimeout(m: Machine, st: State, opt: bool, end: int, stack: Stack, caps: seq<Capture>, fl: Charset)
    ensures Agrees(m, st, Timeout, opt, end, stack, caps, fl)
  {
  }

  lemma CallInRange(cx: Context, k: nat)
    requires ContextOk(cx) && WellFormed(cx.g, TCall(k), cx.d)
    ensures k < |cx.g| == |cx.pos|
  {
  }

  lemma {:induction false} CallCorrect(cx: Context, t: Tree, opt: bool, tt: Test, fl: Charset, base: int, i: nat, stack: Stack, caps: seq<Capture>, fuel: nat)
    requires i <= |cx.m.subj|
    requires t.TCall? && Ready(cx, t, opt, tt, fl, base, i, stack, caps)
    ensures Correct(cx, t, opt, tt, fl, base, i, stack, caps, fuel)
    decreases fuel, t, 0
  {
    hide Gen, Peg, WellFormed, First, FixedLen, Headfail, HasCaptures, Nullable, Agrees, Placed, RulesPlaced, RulesWellFormed, TestOf, TestLen;
    var k := t.rule;
    CallInRange(cx, k);
    CallUnfolds(cx, k, opt, tt, fl, i, fuel);
    if fuel > 0 {
      var ret := cx.pos[k] + |Code(cx, cx.g[k], false, NoTest, FULL)|;
      RuleCorrect(cx, k, i, stack, caps, fuel - 1);
      RuleCorrect(cx, k, i, RetAddr(base + 2, stack), caps, fuel - 1);
      CallRuns(cx.m, base, k, ret, cx.pos, opt, fl, i, stack, caps, Meaning(cx, t, i, fuel));
    } else {
      AgreesTimeout(cx.m, Run(base, i, stack, caps), opt, base + 2, stack, caps, fl);
    }
  }

  lemma GrammarUnfolds(cx: Context, rules: seq<Tree>, opt: bool, tt: Test, fl: Charset, i: nat, fuel: nat)
    requires i <= |cx.m.subj| && WellFormed(cx.g, TGrammar(rules), cx.d)
    ensures rules != [] && RulesWellFormed(rules, cx.d)
    ensures var r := GenRules(rules, rules, 0, cx.d);
            Code(cx, TGrammar(rules), opt, tt, fl) ==
              [ICall(4), Ext, IJmp(2 + |r.code|), Ext] + CorrectCalls(r.code, r.positions, 0)
    ensures Meaning(cx, TGrammar(rules), i, fuel) == Peg(rules, rules[0], cx.m.subj, i, fuel)
  {
  }

  lemma {:induction false} GrammarCorrect(cx: Context, t: Tree, opt: bool, tt: Test, fl: Charset, base: int, i: nat, stack: Stack, caps: seq<Capture>, fuel: nat)
    requires i <= |cx.m.subj|
    requires t.TGrammar? && Ready(cx, t, opt, tt, fl, base, i, stack, caps)
    ensures Correct(cx, t, opt, tt, fl, base, i, stack, caps, fuel)
    decreases fuel, t, 0
  {
    hide Gen, Peg, WellFormed, First, FixedLen, Headfail, HasCaptures, Nullable, Agrees, Placed, RulesPlaced, RulesWellFormed, TestOf, TestLen, GenRules, CorrectCalls;
    var rules := t.rules;
    GrammarUnfolds(cx, rules, opt, tt, fl, i, fuel);
    var r := GenRules(rules, rules, 0, cx.d);
    var head := [ICall(4), Ext, IJmp(2 + |r.code|), Ext];
    PlacedSplit(cx.m.prog, base, head, CorrectCalls(r.code, r.positions, 0), cx.pos);
    var pos := GrammarPlaced(cx.m.prog, base + 4, rules, cx.d, cx.pos);
    PositionsMatch(cx.m.prog, rules, pos, cx.d);
    var inner := Context(cx.m, rules, pos, cx.d);
    RuleCorrect(inner, 0, i, RetAddr(base + 2, stack), caps, fuel);
    var ret := pos[0] + |Code(inner, rules[0], false, NoTest, FULL)|;
    GrammarRuns(cx.m, base, r.code, ret, cx.pos, opt, fl, i, stack, caps, Meaning(inner, rules[0], i, fuel));
  }

  lemma PositionsMatch(prog: seq<Instr>, rules: seq<Tree>, pos: seq<int>, d: nat)
    requires RulesPlaced(prog, rules, pos, d)
    ensures |pos| == |rules|
  {
  }
}
