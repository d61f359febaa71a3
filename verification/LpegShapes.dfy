/**
  What each shape of code does, given what its parts do.  Nothing here depends on how the parts
  were generated: `r1` and `r2` stand for what the parts mean, and the hypotheses say that their
  code agrees with them.
 */
module LpegShapes {
  import opened LpegTree
  import opened LpegAnalysis
  import opened LpegVm
  import opened LpegCode
  import opened LpegCorrect

  /** The next byte exists and is in `cs`. */
  predicate Next(m: Machine, i: nat, cs: Charset) {
    i < |m.subj| && m.subj[i] in cs
  }

  /** Code that agrees without `opt` agrees with it when a commit follows. */
  lemma AgreesWithOpt(m: Machine, st: State, r: Result, opt: bool, end: int, stack: Stack, caps: seq<Capture>, fl: Charset)
    requires OptOk(m.prog, opt, end, stack)
    requires r.Ok? ==> r.pos <= |m.subj|
    requires Agrees(m, st, r, false, end, stack, caps, fl)
    ensures Agrees(m, st, r, opt, end, stack, caps, fl)
  {
    if r.Ok? {
      ReachEnd(m, opt, end, r.pos, stack, caps + r.caps);
    }
  }

  /** The result of a sequence whose parts give `r1` and `r2`. */
  function Then(r1: Result, r2: Result): Result {
    if r1.Ok? then Prepend(r1.caps, r2) else r1
  }

  lemma SeqRuns(m: Machine, base: int, mid: int, end: int, opt: bool, fl1: Charset, fl: Charset, i: nat, stack: Stack, caps: seq<Capture>, r1: Result, r2: Result)
    requires Levels(stack, |caps|)
    requires Agrees(m, Run(base, i, stack, caps), r1, false, mid, stack, caps, fl1)
    requires r1.Ok? ==> Agrees(m, Run(mid, r1.pos, stack, caps + r1.caps), r2, opt, end, stack, caps + r1.caps, fl)
    requires r1.Ok? && r1.pos < |m.subj| && m.subj[r1.pos] !in fl1 ==> Blocked(r2, m.subj, r1.pos, fl)
    ensures Agrees(m, Run(base, i, stack, caps), Then(r1, r2), opt, end, stack, caps, fl)
  {
    if r1.Ok? {
      BacktrackForgets(stack, caps, r1.caps);
      if r2.Ok? {
        assert (caps + r1.caps) + r2.caps == caps + (r1.caps + r2.caps);
      }
    }
  }

  /** The result of a choice whose alternatives give `r1` and `r2`. */
  function OrElse(r1: Result, r2: Result): Result {
    if r1.Fail? then r2 else r1
  }

  lemma ChoiceByTestRuns(m: Machine, base: int, cs1: Charset, c1: seq<Instr>, c2: seq<Instr>, jump: bool, pos: seq<int>,
                         opt: bool, fl: Charset, i: nat, stack: Stack, caps: seq<Capture>, r1: Result, r2: Result)
    requires Placed(m.prog, base, ChoiceByTest(cs1, c1, c2, jump), pos) && i <= |m.subj|
    requires !jump ==> c2 == []
    requires OptOk(m.prog, opt, base + |ChoiceByTest(cs1, c1, c2, jump)|, stack)
    requires r1.Ok? ==> r1.pos <= |m.subj|
    requires var b1 := base + TestLen(cs1, false);
             Next(m, i, cs1) ==> Agrees(m, Run(b1, i, stack, caps), r1, false, b1 + |c1|, stack, caps, fl)
    requires var b2 := base + TestLen(cs1, false) + |c1| + if jump then 2 else 0;
             !Next(m, i, cs1) ==> Agrees(m, Run(b2, i, stack, caps), r2, opt, b2 + |c2|, stack, caps, fl)
    requires Next(m, i, cs1) && r1.Fail? ==> Blocked(r2, m.subj, i, fl)
    requires !Next(m, i, cs1) ==> !r1.Ok?
    ensures Agrees(m, Run(base, i, stack, caps), OrElse(r1, r2), opt, base + |ChoiceByTest(cs1, c1, c2, jump)|, stack, caps, fl)
  {
    hide TestCode, TestLen, CharsetType, Placed, ChoiceByTest;
    ChoiceByTestPlaced(m.prog, base, cs1, c1, c2, jump, pos);
    var b1 := base + TestLen(cs1, false);
    var b2 := b1 + |c1| + if jump then 2 else 0;
    TestRuns(m, base, cs1, false, b2 - base, pos, i, stack, caps);
    if Next(m, i, cs1) && r1.Ok? {
      if jump {
        FinalStep(m, Run(b1 + |c1|, r1.pos, stack, caps + r1.caps));
      }
      ReachEnd(m, opt, b2 + |c2|, r1.pos, stack, caps + r1.caps);
    }
  }

  lemma ChoiceByStackRuns(m: Machine, base: int, cs1: Charset, e1: bool, c1: seq<Instr>, c2: seq<Instr>, pos: seq<int>,
                          opt1: bool, opt: bool, fl: Charset, i: nat, stack: Stack, caps: seq<Capture>, r1: Result, r2: Result)
    requires Placed(m.prog, base, ChoiceByStack(cs1, e1, c1, c2), pos) && i <= |m.subj|
    requires opt1 ==> c2 == []
    requires OptOk(m.prog, opt, base + |ChoiceByStack(cs1, e1, c1, c2)|, stack)
    requires r1.Ok? ==> r1.pos <= |m.subj|
    requires var b1 := base + TestLen(cs1, e1) + 2;
             var stack1 := Choice(b1 + |c1| + 2, i, |caps|, stack);
             e1 || Next(m, i, cs1) ==> Agrees(m, Run(b1, i, stack1, caps), r1, opt1, b1 + |c1|, stack1, caps, FULL)
    requires !(e1 || Next(m, i, cs1)) ==> !r1.Ok?
    requires var b2 := base + TestLen(cs1, e1) + 4 + |c1|;
             r1.Fail? ==> Agrees(m, Run(b2, i, stack, caps), r2, opt, b2 + |c2|, stack, caps, fl)
    ensures Agrees(m, Run(base, i, stack, caps), OrElse(r1, r2), opt, base + |ChoiceByStack(cs1, e1, c1, c2)|, stack, caps, fl)
  {
    hide TestCode, TestLen, CharsetType, Placed, ChoiceByStack;
    ChoiceByStackPlaced(m.prog, base, cs1, e1, c1, c2, pos);
    var b1 := base + TestLen(cs1, e1) + 2;
    var b2 := b1 + |c1| + 2;
    TestRuns(m, base, cs1, e1, b2 - base, pos, i, stack, caps);
    if e1 || Next(m, i, cs1) {
      var stack1 := Choice(b2, i, |caps|, stack);
      FinalStep(m, Run(b1 - 2, i, stack, caps));
      if r1.Ok? {
        FinalStep(m, Run(b1 + |c1|, r1.pos, stack1, caps + r1.caps));
        ReachEnd(m, opt, b2 + |c2|, r1.pos, stack, caps + r1.caps);
      } else {
        assert caps[..|caps|] == caps;
      }
    }
  }

  lemma OptionRuns(m: Machine, base: int, end: int, pos: seq<int>, fl: Charset, i: nat, stack: Stack, caps: seq<Capture>, r1: Result)
    requires Placed(m.prog, base, [IPartialCommit(2), Ext], pos) && i <= |m.subj|
    requires stack.Choice?
    requires var stack1 := Choice(stack.p, i, |caps|, stack.rest);
             Agrees(m, Run(base + 2, i, stack1, caps), r1, true, end, stack1, caps, FULL)
    ensures Agrees(m, Run(base, i, stack, caps), OrElse(r1, Ok(i, [])), true, end, stack, caps, fl)
  {
    PlacedHead(m.prog, base, [IPartialCommit(2), Ext], pos);
    FinalStep(m, Run(base, i, stack, caps));
    assert caps[..|caps|] == caps && caps + [] == caps;
  }

  /** The result of a repetition whose body gives `r1` at `i`, the rest of the repetition giving `r2`. */
  function Turn(i: nat, r1: Result, r2: Result): Result {
    if r1.Timeout? then Timeout else if r1.Fail? then Ok(i, []) else Prepend(r1.caps, r2)
  }

  /** A repetition that started in `st` with its own choice on the stack ends at `q`. */
  ghost predicate LoopEnds(m: Machine, st: State, r: Result, q: int, rest: Stack, caps: seq<Capture>) {
    r.Ok? ==> SameEnd(m, st, Run(q, r.pos, rest, caps + r.caps))
  }

  lemma RepStackTurn(m: Machine, l1: int, n: nat, q: int, i: nat, rest: Stack, caps: seq<Capture>, r1: Result, r2: Result)
    requires 0 <= l1 + n < |m.prog| && m.prog[l1 + n] == IPartialCommit(0 - n)
    requires var stack := Choice(q, i, |caps|, rest);
             Agrees(m, Run(l1, i, stack, caps), r1, false, l1 + n, stack, caps, FULL)
    requires r1.Ok? ==>
               && r1.pos <= |m.subj|
               && var caps1 := caps + r1.caps;
                  LoopEnds(m, Run(l1, r1.pos, Choice(q, r1.pos, |caps1|, rest), caps1), r2, q, rest, caps1)
    ensures LoopEnds(m, Run(l1, i, Choice(q, i, |caps|, rest), caps), Turn(i, r1, r2), q, rest, caps)
  {
    if r1.Ok? {
      FinalStep(m, Run(l1 + n, r1.pos, Choice(q, i, |caps|, rest), caps + r1.caps));
      if r2.Ok? {
        assert (caps + r1.caps) + r2.caps == caps + (r1.caps + r2.caps);
      }
    } else {
      assert caps[..|caps|] == caps && caps + [] == caps;
    }
  }

  lemma RepByStackRuns(m: Machine, base: int, cs: Charset, e: bool, c: seq<Instr>, pos: seq<int>,
                       opt: bool, fl: Charset, i: nat, stack: Stack, caps: seq<Capture>, r: Result)
    requires Placed(m.prog, base, RepByStack(cs, e, opt, c), pos) && i <= |m.subj|
    requires OptOk(m.prog, opt, base + |RepByStack(cs, e, opt, c)|, stack)
    requires !r.Fail?
    requires var b1 := base + TestLen(cs, e) + 2;
             var q := if opt then stack.p else b1 + |c| + 2;
             var rest := if opt then stack.rest else stack;
             e || Next(m, i, cs) ==> LoopEnds(m, Run(b1, i, Choice(q, i, |caps|, rest), caps), r, q, rest, caps)
    requires !(e || Next(m, i, cs)) ==> r.Timeout? || r == Ok(i, [])
    ensures Agrees(m, Run(base, i, stack, caps), r, opt, base + |RepByStack(cs, e, opt, c)|, stack, caps, fl)
  {
    hide TestCode, TestLen, CharsetType, Placed, RepByStack;
    RepByStackPlaced(m.prog, base, cs, e, opt, c, pos);
    var b1 := base + TestLen(cs, e) + 2;
    TestRuns(m, base, cs, e, b1 + |c| + 2 - base, pos, i, stack, caps);
    if e || Next(m, i, cs) {
      FinalStep(m, Run(b1 - 2, i, stack, caps));
    } else {
      assert caps + [] == caps;
      ReachEnd(m, opt, b1 + |c| + 2, i, stack, caps);
    }
  }

  lemma RepTestTurn(m: Machine, base: int, cs: Charset, c: seq<Instr>, pos: seq<int>,
                    fl: Charset, i: nat, stack: Stack, caps: seq<Capture>, r1: Result, r2: Result)
    requires Placed(m.prog, base, RepByTest(cs, c), pos) && i <= |m.subj| && Levels(stack, |caps|)
    requires var b1 := base + TestLen(cs, false);
             Next(m, i, cs) ==> Agrees(m, Run(b1, i, stack, caps), r1, false, b1 + |c|, stack, caps, FULL)
    requires r1.Ok? ==>
               && r1.pos <= |m.subj|
               && Agrees(m, Run(base, r1.pos, stack, caps + r1.caps), r2, false, base + |RepByTest(cs, c)|, stack, caps + r1.caps, fl)
    requires !Next(m, i, cs) ==> !r1.Ok?
    requires Next(m, i, cs) && r1.Fail? ==> m.subj[i] !in fl
    requires !r2.Fail?
    ensures Agrees(m, Run(base, i, stack, caps), Turn(i, r1, r2), false, base + |RepByTest(cs, c)|, stack, caps, fl)
  {
    hide TestCode, TestLen, CharsetType, Placed, RepByTest;
    RepByTestPlaced(m.prog, base, cs, c, pos);
    var b1 := base + TestLen(cs, false);
    TestRuns(m, base, cs, false, b1 + |c| + 2 - base, pos, i, stack, caps);
    assert caps + [] == caps;
    if r1.Ok? {
      FinalStep(m, Run(b1 + |c|, r1.pos, stack, caps + r1.caps));
      BacktrackForgets(stack, caps, r1.caps);
      if r2.Ok? {
        assert (caps + r1.caps) + r2.caps == caps + (r1.caps + r2.caps);
      }
    }
  }

  lemma SpanRuns(m: Machine, base: int, cs: Charset, pos: seq<int>, opt: bool, fl: Charset, i: nat, stack: Stack, caps: seq<Capture>, r: Result)
    requires Placed(m.prog, base, [ISpan(cs)] + Exts(CHARSETINSTSIZE - 1), pos) && i <= |m.subj|
    requires OptOk(m.prog, opt, base + CHARSETINSTSIZE, stack)
    requires r.Timeout? || r == Ok(SpanEnd(m.subj, cs, i), [])
    ensures Agrees(m, Run(base, i, stack, caps), r, opt, base + CHARSETINSTSIZE, stack, caps, fl)
  {
    PlacedHead(m.prog, base, [ISpan(cs)] + Exts(CHARSETINSTSIZE - 1), pos);
    FinalStep(m, Run(base, i, stack, caps));
    assert caps + [] == caps;
    ReachEnd(m, opt, base + CHARSETINSTSIZE, SpanEnd(m.subj, cs, i), stack, caps);
  }

  /** The result of a negative look-ahead whose body gives `r1`. */
  function Unless(i: nat, r1: Result): Result {
    if r1.Timeout? then Timeout else if r1.Fail? then Ok(i, []) else Fail
  }

  lemma NotByTestRuns(m: Machine, base: int, cs: Charset, pos: seq<int>, opt: bool, fl: Charset, i: nat, stack: Stack, caps: seq<Capture>, r1: Result)
    requires Placed(m.prog, base, NotByTest(cs, false), pos) && i <= |m.subj|
    requires OptOk(m.prog, opt, base + |NotByTest(cs, false)|, stack)
    requires !r1.Timeout? ==> (r1.Fail? <==> !Next(m, i, cs))
    ensures Agrees(m, Run(base, i, stack, caps), Unless(i, r1), opt, base + |NotByTest(cs, false)|, stack, caps, fl)
  {
    hide Placed, TestCode;
    var test := TestCode(cs, false, TestLen(cs, false) + 1);
    PlacedSplit(m.prog, base, test, [IFail], pos);
    PlacedHead(m.prog, base + |test|, [IFail], pos);
    TestRuns(m, base, cs, false, |test| + 1, pos, i, stack, caps);
    FinalStep(m, Run(base + |test|, i, stack, caps));
    assert caps + [] == caps;
    ReachEnd(m, opt, base + |test| + 1, i, stack, caps);
  }

  lemma NotByStackRuns(m: Machine, base: int, cs: Charset, e: bool, c: seq<Instr>, pos: seq<int>,
                       opt: bool, fl: Charset, i: nat, stack: Stack, caps: seq<Capture>, r1: Result)
    requires Placed(m.prog, base, NotByStack(cs, e, c), pos) && i <= |m.subj| && Levels(stack, |caps|)
    requires OptOk(m.prog, opt, base + |NotByStack(cs, e, c)|, stack)
    requires r1.Ok? ==> r1.pos <= |m.subj|
    requires var b1 := base + TestLen(cs, e) + 2;
             var stack1 := Choice(b1 + |c| + 1, i, |caps|, stack);
             e || Next(m, i, cs) ==> Agrees(m, Run(b1, i, stack1, caps), r1, false, b1 + |c|, stack1, caps, FULL)
    requires !(e || Next(m, i, cs)) ==> !r1.Ok?
    ensures Agrees(m, Run(base, i, stack, caps), Unless(i, r1), opt, base + |NotByStack(cs, e, c)|, stack, caps, fl)
  {
    hide TestCode, TestLen, CharsetType, Placed, NotByStack;
    NotByStackPlaced(m.prog, base, cs, e, c, pos);
    var b1 := base + TestLen(cs, e) + 2;
    TestRuns(m, base, cs, e, b1 + |c| + 1 - base, pos, i, stack, caps);
    assert caps + [] == caps;
    assert caps[..|caps|] == caps;
    ReachEnd(m, opt, b1 + |c| + 1, i, stack, caps);
    if e || Next(m, i, cs) {
      FinalStep(m, Run(b1 - 2, i, stack, caps));
      if r1.Ok? {
        FinalStep(m, Run(b1 + |c|, r1.pos, Choice(b1 + |c| + 1, i, |caps|, stack), caps + r1.caps));
        BacktrackForgets(stack, caps, r1.caps);
      }
    }
  }

  /** The result of a positive look-ahead whose body gives `r1`. */
  function Look(i: nat, r1: Result): Result {
    if r1.Ok? then Ok(i, []) else r1
  }

  lemma AndByStackRuns(m: Machine, base: int, c: seq<Instr>, pos: seq<int>, opt: bool, fl: Charset, i: nat, stack: Stack, caps: seq<Capture>, r1: Result)
    requires Placed(m.prog, base, AndByStack(c), pos) && i <= |m.subj|
    requires OptOk(m.prog, opt, base + |AndByStack(c)|, stack)
    requires r1.Ok? ==> r1.pos <= |m.subj|
    requires var stack1 := Choice(base + |c| + 4, i, |caps|, stack);
             Agrees(m, Run(base + 2, i, stack1, caps), r1, false, base + 2 + |c|, stack1, caps, FULL)
    ensures Agrees(m, Run(base, i, stack, caps), Look(i, r1), opt, base + |AndByStack(c)|, stack, caps, fl)
  {
    AndByStackPlaced(m.prog, base, c, pos);
    FinalStep(m, Run(base, i, stack, caps));
    assert caps[..|caps|] == caps && caps + [] == caps;
    if r1.Ok? {
      FinalStep(m, Run(base + 2 + |c|, r1.pos, Choice(base + |c| + 4, i, |caps|, stack), caps + r1.caps));
      assert (caps + r1.caps)[..|caps|] == caps;
      ReachEnd(m, opt, base + |c| + 5, i, stack, caps);
    } else {
      FinalStep(m, Run(base + 4 + |c|, i, stack, caps));
    }
  }

  /** Walking back over a match of fixed length is look-ahead. */
  lemma AndByBehindRuns(m: Machine, base: int, mid: int, n: nat, pos: seq<int>, opt: bool, fl: Charset, i: nat, stack: Stack, caps: seq<Capture>, r1: Result)
    requires Placed(m.prog, mid, BehindCode(n), pos) && i <= |m.subj|
    requires OptOk(m.prog, opt, mid + |BehindCode(n)|, stack)
    requires r1.Ok? ==> r1 == Ok(i + n, []) && r1.pos <= |m.subj|
    requires Agrees(m, Run(base, i, stack, caps), r1, false, mid, stack, caps, FULL)
    ensures Agrees(m, Run(base, i, stack, caps), Look(i, r1), opt, mid + |BehindCode(n)|, stack, caps, fl)
  {
    if r1.Ok? {
      assert caps + [] == caps;
      if n > 0 {
        PlacedHead(m.prog, mid, BehindCode(n), pos);
        FinalStep(m, Run(mid, i + n, stack, caps));
      }
      ReachEnd(m, opt, mid + |BehindCode(n)|, i, stack, caps);
    }
  }

  /** The result of a look-behind of `n` bytes whose body gives `r1` at `i - n`. */
  function LookBehind(i: nat, n: nat, r1: Result): Result {
    if n > i then Fail else Look(i, r1)
  }

  lemma BehindRuns(m: Machine, base: int, end: int, n: nat, pos: seq<int>, opt: bool, fl: Charset, i: nat, stack: Stack, caps: seq<Capture>, r1: Result)
    requires Placed(m.prog, base, BehindCode(n), pos) && i <= |m.subj|
    requires OptOk(m.prog, opt, end, stack)
    requires n <= i ==> Agrees(m, Run(base + |BehindCode(n)|, i - n, stack, caps), r1, false, end, stack, caps, FULL)
    requires r1.Ok? ==> r1 == Ok(i, [])
    ensures Agrees(m, Run(base, i, stack, caps), LookBehind(i, n, r1), opt, end, stack, caps, fl)
  {
    if n > 0 {
      PlacedHead(m.prog, base, BehindCode(n), pos);
      FinalStep(m, Run(base, i, stack, caps));
    }
    assert caps + [] == caps;
    ReachEnd(m, opt, end, i, stack, caps);
  }

  /** The result of a capture whose body gives `r1` at `i`. */
  function Capturing(kind: nat, key: nat, i: nat, r1: Result): Result
    requires r1.Ok? ==> i <= r1.pos
  {
    if r1.Ok? then Ok(r1.pos, Captured(kind, key, i, r1.pos, r1.caps)) else r1
  }

  lemma FullCaptureRuns(m: Machine, base: int, mid: int, n: nat, kind: nat, key: nat, pos: seq<int>,
                        opt: bool, fl: Charset, i: nat, stack: Stack, caps: seq<Capture>, r1: Result)
    requires Placed(m.prog, mid, [IFullCapture(kind, key, n)], pos) && n <= MAXOFF
    requires OptOk(m.prog, opt, mid + 1, stack)
    requires r1.Ok? ==> r1 == Ok(i + n, []) && i + n <= |m.subj|
    requires Agrees(m, Run(base, i, stack, caps), r1, false, mid, stack, caps, fl)
    ensures Agrees(m, Run(base, i, stack, caps), Capturing(kind, key, i, r1), opt, mid + 1, stack, caps, fl)
  {
    if r1.Ok? {
      assert caps + [] == caps;
      PlacedHead(m.prog, mid, [IFullCapture(kind, key, n)], pos);
      FinalStep(m, Run(mid, i + n, stack, caps));
      ReachEnd(m, opt, mid + 1, i + n, stack, caps + [Capture(kind, key, i, n + 1)]);
    }
  }

  /** Entries that a match adds never end in an open entry. */
  predicate Closed(caps: seq<Capture>) {
    caps != [] ==> caps[|caps| - 1].siz != 0
  }

  lemma OpenCaptureRuns(m: Machine, base: int, c: seq<Instr>, kind: nat, key: nat, pos: seq<int>,
                        opt: bool, fl: Charset, i: nat, stack: Stack, caps: seq<Capture>, r1: Result)
    requires Placed(m.prog, base, [IOpenCapture(kind, key)] + (c + [ICloseCapture]), pos) && i <= |m.subj| && Levels(stack, |caps|)
    requires OptOk(m.prog, opt, base + |c| + 2, stack)
    requires r1.Ok? ==> i <= r1.pos <= |m.subj| && Closed(r1.caps)
    requires var caps1 := caps + [Capture(kind, key, i, 0)];
             Agrees(m, Run(base + 1, i, stack, caps1), r1, false, base + 1 + |c|, stack, caps1, fl)
    ensures Agrees(m, Run(base, i, stack, caps), Capturing(kind, key, i, r1), opt, base + |c| + 2, stack, caps, fl)
  {
    var entry := Capture(kind, key, i, 0);
    PlacedSplit(m.prog, base, [IOpenCapture(kind, key)], c + [ICloseCapture], pos);
    PlacedHead(m.prog, base, [IOpenCapture(kind, key)], pos);
    PlacedSplit(m.prog, base + 1, c, [ICloseCapture], pos);
    PlacedHead(m.prog, base + 1 + |c|, [ICloseCapture], pos);
    FinalStep(m, Run(base, i, stack, caps));
    BacktrackForgets(stack, caps, [entry]);
    if r1.Ok? {
      var caps2 := caps + [entry] + r1.caps;
      FinalStep(m, Run(base + 1 + |c|, r1.pos, stack, caps2));
      assert CloseCapture(caps2, r1.pos) == caps + Captured(kind, key, i, r1.pos, r1.caps);
      ReachEnd(m, opt, base + |c| + 2, r1.pos, stack, caps + Captured(kind, key, i, r1.pos, r1.caps));
    }
  }

  /** A run of jumps ends where it leads. */
  lemma {:induction false} JumpsRun(m: Machine, a: int, n: nat, i: nat, stack: Stack, caps: seq<Capture>)
    requires i <= |m.subj|
    ensures SameEnd(m, Run(a, i, stack, caps), Run(FinalTarget(m.prog, a, n), i, stack, caps))
    decreases n
  {
    if n > 0 && 0 <= a < |m.prog| && m.prog[a].IJmp? {
      FinalStep(m, Run(a, i, stack, caps));
      JumpsRun(m, a + m.prog[a].offset, n - 1, i, stack, caps);
    }
  }

  /** A call, or a tail call, of a rule whose code starts at `rule` and whose return is at `ret`. */
  lemma CallRuns(m: Machine, base: int, k: nat, ret: int, pos: seq<int>, opt: bool, fl: Charset, i: nat, stack: Stack, caps: seq<Capture>, r: Result)
    requires Placed(m.prog, base, [IOpenCall(k), Ext], pos) && i <= |m.subj|
    requires k < |pos| && IsRet(m.prog, ret)
    requires OptOk(m.prog, opt, base + 2, stack)
    requires r.Ok? ==> r.pos <= |m.subj|
    requires forall stack1 | stack1 == stack || stack1 == RetAddr(base + 2, stack) ::
               Agrees(m, Run(pos[k], i, stack1, caps), r, false, ret, stack1, caps, FULL)
    ensures Agrees(m, Run(base, i, stack, caps), r, opt, base + 2, stack, caps, fl)
  {
    assert CellOk(m.prog, base + 0, [IOpenCall(k), Ext][0], pos);
    FinalStep(m, Run(base, i, stack, caps));
    var stack1 := if m.prog[base].ICall? then RetAddr(base + 2, stack) else stack;
    assert Agrees(m, Run(pos[k], i, stack1, caps), r, false, ret, stack1, caps, FULL);
    if r.Ok? {
      var caps1 := caps + r.caps;
      FinalStep(m, Run(ret, r.pos, stack1, caps1));
      if m.prog[base].IJmp? {
        var n: nat :| IsRet(m.prog, FinalTarget(m.prog, base + 2, n));
        JumpsRun(m, base + 2, n, r.pos, stack, caps1);
        FinalStep(m, Run(FinalTarget(m.prog, base + 2, n), r.pos, stack, caps1));
      }
      ReachEnd(m, opt, base + 2, r.pos, stack, caps1);
    }
  }

  lemma GrammarRuns(m: Machine, base: int, rules: seq<Instr>, ret: int, pos: seq<int>, opt: bool, fl: Charset, i: nat, stack: Stack, caps: seq<Capture>, r: Result)
    requires Placed(m.prog, base, [ICall(4), Ext, IJmp(2 + |rules|), Ext], pos) && i <= |m.subj|
    requires IsRet(m.prog, ret)
    requires OptOk(m.prog, opt, base + 4 + |rules|, stack)
    requires r.Ok? ==> r.pos <= |m.subj|
    requires var stack1 := RetAddr(base + 2, stack);
             Agrees(m, Run(base + 4, i, stack1, caps), r, false, ret, stack1, caps, FULL)
    ensures Agrees(m, Run(base, i, stack, caps), r, opt, base + 4 + |rules|, stack, caps, fl)
  {
    var head := [ICall(4), Ext, IJmp(2 + |rules|), Ext];
    PlacedHead(m.prog, base, head, pos);
    assert CellOk(m.prog, base + 2, head[2], pos);
    FinalStep(m, Run(base, i, stack, caps));
    if r.Ok? {
      FinalStep(m, Run(ret, r.pos, RetAddr(base + 2, stack), caps + r.caps));
      FinalStep(m, Run(base + 2, r.pos, stack, caps + r.caps));
      ReachEnd(m, opt, base + 4 + |rules|, r.pos, stack, caps + r.caps);
    }
  }
}
