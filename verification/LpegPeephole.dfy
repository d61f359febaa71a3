/**
  The jump optimisation that ends compilation, and why it does not change any match.

  Each rewrite is justified on its own: the old program simulates step by step in the new one,
  where program positions may be ahead of the old ones along a chain of jumps.
 */
module LpegPeephole {
  import opened LpegTree
  import opened LpegVm
  import opened LpegCode
  import opened LpegLayout

  /** Following some of the jumps from `a` leads to `b`. */
  ghost predicate JumpsTo(prog: seq<Instr>, a: int, b: int) {
    exists n: nat :: FinalTarget(prog, a, n) == b
  }

  lemma JumpsToSelf(prog: seq<Instr>, a: int)
    ensures JumpsTo(prog, a, a)
  {
    assert FinalTarget(prog, a, 0) == a;
  }

  predicate Labelled(i: Instr) {
    i.IChoice? || i.ICall? || i.ICommit? || i.IPartialCommit? || i.IBackCommit? || i.ITestChar? || i.ITestSet? || i.ITestAny?
  }

  predicate Leaves(i: Instr) {
    i.IRet? || i.IFail? || i.IFailTwice? || i.IEnd?
  }

  predicate Commits(i: Instr) {
    i.ICommit? || i.IPartialCommit? || i.IBackCommit?
  }

  function Relabel(i: Instr, offset: int): Instr
    requires Labelled(i)
  {
    i.(offset := offset)
  }

  function TargetOf(i: Instr, at: int): int
    requires Labelled(i)
  {
    at + i.offset
  }

  // ----- one rewrite -----

  /** `cell` may replace the instruction at `i`. */
  ghost predicate MayReplace(prog: seq<Instr>, i: int, cell: Instr)
    requires 0 <= i < |prog|
  {
    || (Labelled(prog[i]) && exists t :: JumpsTo(prog, TargetOf(prog[i], i), t) && cell == Relabel(prog[i], t - i))
    || (prog[i].IJmp? && exists ft :: JumpsTo(prog, i + prog[i].offset, ft) && Absorbs(prog, i, ft, cell))
  }

  /** `cell` at `i` does what a jump from `i` to `ft` would do next. */
  ghost predicate Absorbs(prog: seq<Instr>, i: int, ft: int, cell: Instr) {
    || cell == IJmp(ft - i)
    || (&& 0 <= ft < |prog|
        && (|| (Leaves(prog[ft]) && cell == prog[ft])
            || (&& Commits(prog[ft])
                && exists t :: JumpsTo(prog, TargetOf(prog[ft], ft), t) && cell == Relabel(prog[ft], t - i))))
  }

  /** `prog1` differs from `prog` in one justified replacement, and in cells that hold no instruction. */
  ghost predicate Rewrites(prog: seq<Instr>, prog1: seq<Instr>, i: int) {
    && |prog1| == |prog|
    && 0 <= i < |prog|
    && MayReplace(prog, i, prog1[i])
    && forall x :: 0 <= x < |prog| && x != i ==> prog1[x] == prog[x] || prog[x] == Ext
  }

  // ----- simulation -----

  ghost predicate StackRel(prog: seq<Instr>, a: Stack, b: Stack) {
    match a
    case Empty => b.Empty?
    case RetAddr(p, rest) => b.RetAddr? && JumpsTo(prog, p, b.p) && StackRel(prog, rest, b.rest)
    case Choice(p, s, lvl, rest) =>
      b.Choice? && JumpsTo(prog, p, b.p) && b.s == s && b.caplevel == lvl && StackRel(prog, rest, b.rest)
  }

  ghost predicate StateRel(prog: seq<Instr>, a: State, b: State) {
    if a.Run? then
      b.Run? && JumpsTo(prog, a.p, b.p) && a.s == b.s && a.caps == b.caps && StackRel(prog, a.stack, b.stack)
    else a == b
  }

  lemma {:induction false} BacktrackRel(prog: seq<Instr>, a: Stack, b: Stack, caps: seq<Capture>)
    requires StackRel(prog, a, b)
    ensures StateRel(prog, Backtrack(a, caps), Backtrack(b, caps))
    decreases a
  {
    match a
    case RetAddr(_, rest) => BacktrackRel(prog, rest, b.rest, caps);
    case _ =>
  }

  /** An instruction that leaves the code does the same wherever it stands. */
  lemma LeavingInstruction(m: Machine, m1: Machine, a: int, a1: int, s: nat, stack: Stack, stack1: Stack, caps: seq<Capture>)
    requires m.subj == m1.subj && 0 <= a < |m.prog| && 0 <= a1 < |m1.prog| && m1.prog[a1] == m.prog[a] && Leaves(m.prog[a])
    requires StackRel(m.prog, stack, stack1)
    ensures StateRel(m.prog, Step(m, Run(a, s, stack, caps)), Step(m1, Run(a1, s, stack1, caps)))
  {
    hide JumpsTo, Backtrack;
    BacktrackRel(m.prog, stack, stack1, caps);
    if !stack.Empty? {
      BacktrackRel(m.prog, stack.rest, stack1.rest, caps);
    }
  }

  lemma PastTheEnd(m: Machine, m1: Machine, a: int, s: nat, stack: Stack, stack1: Stack, caps: seq<Capture>)
    requires m.subj == m1.subj && s > |m.subj| && a != GIVEUP
    ensures StateRel(m.prog, Step(m, Run(a, s, stack, caps)), Step(m1, Run(a, s, stack1, caps)))
  {
  }

  lemma RelabelledTest(m: Machine, m1: Machine, a: int, t: int, s: nat, stack: Stack, stack1: Stack, caps: seq<Capture>)
    requires m.subj == m1.subj && 0 <= a < |m.prog| && a < |m1.prog|
    requires m.prog[a].ITestChar? || m.prog[a].ITestSet? || m.prog[a].ITestAny?
    requires JumpsTo(m.prog, TargetOf(m.prog[a], a), t) && m1.prog[a] == Relabel(m.prog[a], t - a)
    requires StackRel(m.prog, stack, stack1)
    ensures StateRel(m.prog, Step(m, Run(a, s, stack, caps)), Step(m1, Run(a, s, stack1, caps)))
  {
    hide JumpsTo, Backtrack, StackRel;
    JumpsToSelf(m.prog, a + SizeI(m.prog[a]));
  }

  lemma RelabelledChoice(m: Machine, m1: Machine, a: int, t: int, s: nat, stack: Stack, stack1: Stack, caps: seq<Capture>)
    requires m.subj == m1.subj && s <= |m.subj| && 0 <= a < |m.prog| && a < |m1.prog|
    requires m.prog[a].IChoice? && m1.prog[a].IChoice? && t == a + m1.prog[a].offset
    requires JumpsTo(m.prog, a + m.prog[a].offset, t)
    requires StackRel(m.prog, stack, stack1)
    ensures StateRel(m.prog, Step(m, Run(a, s, stack, caps)), Step(m1, Run(a, s, stack1, caps)))
  {
    hide Step;
    JumpsToSelf(m.prog, a + 2);
    PushRel(m.prog, a + m.prog[a].offset, t, s, |caps|, stack, stack1);
    StepChoice(m, a, s, stack, caps);
    StepChoice(m1, a, s, stack1, caps);
  }

  lemma RelabelledCall(m: Machine, m1: Machine, a: int, t: int, s: nat, stack: Stack, stack1: Stack, caps: seq<Capture>)
    requires m.subj == m1.subj && s <= |m.subj| && 0 <= a < |m.prog| && a < |m1.prog|
    requires m.prog[a].ICall? && m1.prog[a].ICall? && t == a + m1.prog[a].offset
    requires JumpsTo(m.prog, a + m.prog[a].offset, t)
    requires StackRel(m.prog, stack, stack1)
    ensures StateRel(m.prog, Step(m, Run(a, s, stack, caps)), Step(m1, Run(a, s, stack1, caps)))
  {
    hide Step;
    JumpsToSelf(m.prog, a + 2);
    PushRel(m.prog, a + 2, a + 2, s, |caps|, stack, stack1);
    StepCall(m, a, s, stack, caps);
    StepCall(m1, a, s, stack1, caps);
  }

  lemma PushRel(prog: seq<Instr>, p: int, p1: int, s: nat, lvl: nat, stack: Stack, stack1: Stack)
    requires StackRel(prog, stack, stack1) && JumpsTo(prog, p, p1)
    ensures StackRel(prog, Choice(p, s, lvl, stack), Choice(p1, s, lvl, stack1))
    ensures StackRel(prog, RetAddr(p, stack), RetAddr(p1, stack1))
  {
  }

  lemma RelabelledCommit(m: Machine, m1: Machine, a: int, a1: int, t: int, s: nat, stack: Stack, stack1: Stack, caps: seq<Capture>)
    requires m.subj == m1.subj && 0 <= a < |m.prog| && 0 <= a1 < |m1.prog| && Commits(m.prog[a])
    requires JumpsTo(m.prog, TargetOf(m.prog[a], a), t) && m1.prog[a1] == Relabel(m.prog[a], t - a1)
    requires StackRel(m.prog, stack, stack1)
    ensures StateRel(m.prog, Step(m, Run(a, s, stack, caps)), Step(m1, Run(a1, s, stack1, caps)))
  {
    hide JumpsTo, Backtrack;
  }

  /** A label may be further along a chain of jumps; a commit may stand elsewhere. */
  lemma RelabelledInstruction(m: Machine, m1: Machine, a: int, a1: int, t: int, s: nat, stack: Stack, stack1: Stack, caps: seq<Capture>)
    requires m.subj == m1.subj && 0 <= a < |m.prog| && 0 <= a1 < |m1.prog|
    requires Labelled(m.prog[a]) && (a == a1 || Commits(m.prog[a]))
    requires JumpsTo(m.prog, TargetOf(m.prog[a], a), t) && m1.prog[a1] == Relabel(m.prog[a], t - a1)
    requires StackRel(m.prog, stack, stack1)
    ensures StateRel(m.prog, Step(m, Run(a, s, stack, caps)), Step(m1, Run(a1, s, stack1, caps)))
  {
    hide Step, StateRel, StackRel;
    if Commits(m.prog[a]) {
      RelabelledCommit(m, m1, a, a1, t, s, stack, stack1, caps);
    } else if s > |m.subj| {
      PastTheEnd(m, m1, a, s, stack, stack1, caps);
    } else if m.prog[a].IChoice? {
      RelabelledChoice(m, m1, a, t, s, stack, stack1, caps);
    } else if m.prog[a].ICall? {
      RelabelledCall(m, m1, a, t, s, stack, stack1, caps);
    } else {
      RelabelledTest(m, m1, a, t, s, stack, stack1, caps);
    }
  }

  /** The remaining instructions only move on, or backtrack. */
  lemma PlainInstruction(m: Machine, m1: Machine, a: int, s: nat, stack: Stack, stack1: Stack, caps: seq<Capture>)
    requires m.subj == m1.subj && 0 <= a < |m.prog| && a < |m1.prog| && m1.prog[a] == m.prog[a]
    requires !Labelled(m.prog[a]) && !Leaves(m.prog[a])
    requires StackRel(m.prog, stack, stack1)
    ensures StateRel(m.prog, Step(m, Run(a, s, stack, caps)), Step(m1, Run(a, s, stack1, caps)))
  {
    hide JumpsTo, Backtrack, SpanEnd, CloseCapture, StackRel;
    BacktrackRel(m.prog, stack, stack1, caps);
    JumpsToSelf(m.prog, a + SizeI(m.prog[a]));
    match m.prog[a]
    case IJmp(offset) => JumpsToSelf(m.prog, a + offset);
    case IAny =>
    case IChar(_) =>
    case ISet(_) =>
    case _ =>
  }

  /** The same instruction takes related states to related states. */
  lemma SameInstruction(m: Machine, m1: Machine, a: int, s: nat, stack: Stack, stack1: Stack, caps: seq<Capture>)
    requires m.subj == m1.subj && 0 <= a < |m.prog| && a < |m1.prog| && m1.prog[a] == m.prog[a]
    requires StackRel(m.prog, stack, stack1)
    ensures StateRel(m.prog, Step(m, Run(a, s, stack, caps)), Step(m1, Run(a, s, stack1, caps)))
  {
    hide Step, StateRel, StackRel;
    if Labelled(m.prog[a]) {
      var t := TargetOf(m.prog[a], a);
      JumpsToSelf(m.prog, t);
      RelabelledInstruction(m, m1, a, a, t, s, stack, stack1, caps);
    } else if Leaves(m.prog[a]) {
      LeavingInstruction(m, m1, a, a, s, stack, stack1, caps);
    } else {
      PlainInstruction(m, m1, a, s, stack, stack1, caps);
    }
  }

  /** While the old program follows jumps, nothing else changes. */
  lemma {:induction false} FollowJumps(m: Machine, a: int, c: nat, s: nat, stack: Stack, caps: seq<Capture>) returns (k: nat)
    requires s <= |m.subj|
    ensures Iterate(m, Run(a, s, stack, caps), k) == Run(FinalTarget(m.prog, a, c), s, stack, caps)
    decreases c
  {
    if c > 0 && 0 <= a < |m.prog| && m.prog[a].IJmp? {
      k := FollowJumps(m, a + m.prog[a].offset, c - 1, s, stack, caps);
      k := k + 1;
    } else {
      k := 0;
    }
  }

  /** A run of the old program that halts properly has a counterpart in the new program. */
  lemma {:induction false} Simulates(m: Machine, m1: Machine, i: int, a: State, b: State, n: nat) returns (k: nat)
    requires Rewrites(m.prog, m1.prog, i) && m1.subj == m.subj
    requires StateRel(m.prog, a, b)
    requires !Iterate(m, a, n).Run? && !Iterate(m, a, n).Stuck?
    ensures Iterate(m1, b, k) == Iterate(m, a, n)
    decreases n, 2
  {
    if !a.Run? {
      IterateHalted(m, a, n);
      k := 0;
    } else if a.p != b.p {
      var c: nat :| FinalTarget(m.prog, a.p, c) == b.p;
      var next := a.p + m.prog[a.p].offset;
      assert FinalTarget(m.prog, next, c - 1) == b.p;
      HaltedIsNotStuck(m, a, n);
      k := Simulates(m, m1, i, Step(m, a), b, n - 1);
    } else {
      k := SimulatesHere(m, m1, i, a, b, n);
    }
  }

  lemma {:induction false} SimulatesHere(m: Machine, m1: Machine, i: int, a: State, b: State, n: nat) returns (k: nat)
    requires Rewrites(m.prog, m1.prog, i) && m1.subj == m.subj
    requires StateRel(m.prog, a, b) && a.Run? && a.p == b.p
    requires !Iterate(m, a, n).Run? && !Iterate(m, a, n).Stuck?
    ensures Iterate(m1, b, k) == Iterate(m, a, n)
    decreases n, 1
  {
    HaltedIsNotStuck(m, a, n);
    if a.p == GIVEUP {
      k := 1;
      IterateHalted(m, Step(m, a), n - 1);
    } else if a.p == i && !Labelled(m.prog[i]) {
      k := SimulatesJump(m, m1, i, a, b, n);
    } else {
      if a.p != i {
        SameInstruction(m, m1, a.p, a.s, a.stack, b.stack, a.caps);
      } else {
        var t :| JumpsTo(m.prog, TargetOf(m.prog[i], i), t) && m1.prog[i] == Relabel(m.prog[i], t - i);
        RelabelledInstruction(m, m1, i, i, t, a.s, a.stack, b.stack, a.caps);
      }
      k := Simulates(m, m1, i, Step(m, a), Step(m1, b), n - 1);
      k := k + 1;
    }
  }

  /** A state that is not stuck after `n` steps is not stuck after one. */
  lemma HaltedIsNotStuck(m: Machine, a: State, n: nat)
    requires a.Run? && !Iterate(m, a, n).Run? && !Iterate(m, a, n).Stuck?
    ensures n > 0 && !Step(m, a).Stuck?
  {
    if Step(m, a).Stuck? {
      IterateHalted(m, Step(m, a), n - 1);
    }
  }

  lemma {:induction false} SimulatesJump(m: Machine, m1: Machine, i: int, a: State, b: State, n: nat) returns (k: nat)
    requires Rewrites(m.prog, m1.prog, i) && m1.subj == m.subj
    requires StateRel(m.prog, a, b) && a.Run? && a.p == b.p == i && m.prog[i].IJmp?
    requires !Iterate(m, a, n).Run? && !Iterate(m, a, n).Stuck?
    ensures Iterate(m1, b, k) == Iterate(m, a, n)
    decreases n, 0
  {
    HaltedIsNotStuck(m, a, n);
    var ft :| JumpsTo(m.prog, i + m.prog[i].offset, ft) && Absorbs(m.prog, i, ft, m1.prog[i]);
    if m1.prog[i] == IJmp(ft - i) {
      k := Simulates(m, m1, i, Step(m, a), Step(m1, b), n - 1);
      k := k + 1;
    } else {
      var rest := AfterJumps(m, i, ft, a, n);
      AbsorbedInstruction(m, m1, i, ft, a.s, a.stack, b.stack, a.caps);
      k := Simulates(m, m1, i, Step(m, Run(ft, a.s, a.stack, a.caps)), Step(m1, b), rest);
      k := k + 1;
    }
  }

  /** What is left of a halting run after its jumps from `i` to `ft` and one more step. */
  lemma AfterJumps(m: Machine, i: int, ft: int, a: State, n: nat) returns (rest: nat)
    requires a.Run? && a.p == i && 0 <= i < |m.prog| && m.prog[i].IJmp? && a.s <= |m.subj|
    requires JumpsTo(m.prog, i + m.prog[i].offset, ft)
    requires !Iterate(m, a, n).Run? && !Iterate(m, a, n).Stuck?
    ensures rest < n && Iterate(m, Step(m, Run(ft, a.s, a.stack, a.caps)), rest) == Iterate(m, a, n)
  {
    hide FinalTarget, Step;
    HaltedIsNotStuck(m, a, n);
    StepJmp(m, i, a.s, a.stack, a.caps);
    var c: nat :| FinalTarget(m.prog, i + m.prog[i].offset, c) == ft;
    var j := FollowJumps(m, i + m.prog[i].offset, c, a.s, a.stack, a.caps);
    var mid := Run(ft, a.s, a.stack, a.caps);
    assert Iterate(m, a, j + 1) == mid;
    StillRunning(m, a, j + 1, n);
    IterateSum(m, a, j + 1, n - j - 1);
    HaltedIsNotStuck(m, mid, n - j - 1);
    rest := n - j - 2;
  }

  lemma StillRunning(m: Machine, a: State, j: nat, n: nat)
    requires Iterate(m, a, j).Run? && !Iterate(m, a, n).Run?
    ensures j < n
  {
    if j >= n {
      IterateSum(m, a, n, j - n);
      IterateHalted(m, Iterate(m, a, n), j - n);
    }
  }

  lemma AbsorbedInstruction(m: Machine, m1: Machine, i: int, ft: int, s: nat, stack: Stack, stack1: Stack, caps: seq<Capture>)
    requires m.subj == m1.subj && 0 <= i < |m1.prog|
    requires StackRel(m.prog, stack, stack1)
    requires Absorbs(m.prog, i, ft, m1.prog[i]) && m1.prog[i] != IJmp(ft - i)
    ensures StateRel(m.prog, Step(m, Run(ft, s, stack, caps)), Step(m1, Run(i, s, stack1, caps)))
  {
    if Leaves(m.prog[ft]) {
      LeavingInstruction(m, m1, ft, i, s, stack, stack1, caps);
    } else {
      var t :| JumpsTo(m.prog, TargetOf(m.prog[ft], ft), t) && m1.prog[i] == Relabel(m.prog[ft], t - i);
      RelabelledInstruction(m, m1, ft, i, t, s, stack, stack1, caps);
    }
  }

  // ----- the whole pass -----

  /** The machine started at `i` stops in `st`, with a match or without. */
  ghost predicate Answers(prog: seq<Instr>, s: seq<Byte>, i: nat, st: State) {
    (st.Matched? || st.NoMatch?) && exists n: nat :: Iterate(Machine(prog, s), Init(i), n) == st
  }

  lemma RewriteAnswers(prog: seq<Instr>, prog1: seq<Instr>, x: int, s: seq<Byte>, i: nat, st: State)
    requires Rewrites(prog, prog1, x) && Answers(prog, s, i, st)
    ensures Answers(prog1, s, i, st)
  {
    var m, m1 := Machine(prog, s), Machine(prog1, s);
    var n: nat :| Iterate(m, Init(i), n) == st;
    JumpsToSelf(prog, 0);
    JumpsToSelf(prog, GIVEUP);
    assert StateRel(prog, Init(i), Init(i));
    var k := Simulates(m, m1, x, Init(i), Init(i), n);
  }

  /** Point the label of the instruction at `i` at the end of its chain of jumps. */
  function OptimizeLabel(code: seq<Instr>, i: nat): (r: seq<Instr>)
    requires i < |code| && Labelled(code[i])
    ensures |r| == |code| && Labelled(r[i]) && SizeI(r[i]) == SizeI(code[i])
    ensures forall x :: 0 <= x < |code| && x != i ==> r[x] == code[x]
  {
    code[i := Relabel(code[i], FinalTarget(code, TargetOf(code[i], i), |code|) - i)]
  }

  /** Optimise the instruction at `i`. */
  function PeepholeAt(code: seq<Instr>, i: nat): (r: seq<Instr>)
    requires i < |code|
    ensures |r| == |code|
  {
    if Labelled(code[i]) then OptimizeLabel(code, i)
    else if !code[i].IJmp? then code
    else
      var ft := FinalTarget(code, i, |code|);
      if 0 <= ft < |code| && Leaves(code[ft]) && i + 1 < |code| then
        code[i := code[ft]][i + 1 := IAny]
      else if 0 <= ft < |code| && Commits(code[ft]) then
        var fft := FinalTarget(code, TargetOf(code[ft], ft), |code|);
        OptimizeLabel(code[i := Relabel(code[ft], fft - i)], i)
      else
        code[i := IJmp(ft - i)]
  }

  function PeepholeFrom(code: seq<Instr>, i: nat): (r: seq<Instr>)
    ensures |r| == |code|
    decreases |code| - i
  {
    if i >= |code| then code
    else
      var code1 := PeepholeAt(code, i);
      PeepholeFrom(code1, i + SizeI(code1[i]))
  }

  lemma LabelRewrites(code: seq<Instr>, i: nat)
    requires i < |code| && Labelled(code[i])
    ensures Rewrites(code, OptimizeLabel(code, i), i)
  {
    var t := FinalTarget(code, TargetOf(code[i], i), |code|);
    assert JumpsTo(code, TargetOf(code[i], i), t);
  }

  lemma FirstJump(code: seq<Instr>, i: nat)
    requires i < |code| && code[i].IJmp?
    ensures JumpsTo(code, i + code[i].offset, FinalTarget(code, i, |code|))
  {
    assert FinalTarget(code, i, |code|) == FinalTarget(code, i + code[i].offset, |code| - 1);
  }

  /** A jump may be replaced by what it leads to. */
  lemma JumpRewrites(code: seq<Instr>, code1: seq<Instr>, i: nat)
    requires i < |code| == |code1| && code[i].IJmp?
    requires forall x :: 0 <= x < |code| && x != i ==> code1[x] == code[x] || code[x] == Ext
    requires var ft := FinalTarget(code, i, |code|);
             || code1[i] == IJmp(ft - i)
             || (0 <= ft < |code| && Leaves(code[ft]) && code1[i] == code[ft])
             || (&& 0 <= ft < |code| && Commits(code[ft])
                 && code1[i] == Relabel(code[ft], FinalTarget(code, TargetOf(code[ft], ft), |code|) - i))
    ensures Rewrites(code, code1, i)
  {
    hide FinalTarget;
    var ft := FinalTarget(code, i, |code|);
    FirstJump(code, i);
    if 0 <= ft < |code| && Commits(code[ft]) {
      assert JumpsTo(code, TargetOf(code[ft], ft), FinalTarget(code, TargetOf(code[ft], ft), |code|));
    }
    assert Absorbs(code, i, ft, code1[i]);
  }

  lemma PeepholeAtAnswers(code: seq<Instr>, i: nat, s: seq<Byte>, j: nat, st: State)
    requires i < |code| && Laid(code[i..]) && Answers(code, s, j, st)
    ensures Answers(PeepholeAt(code, i), s, j, st)
  {
    hide Answers, Laid, FinalTarget, Rewrites;
    LaidFirst(code, i);
    if Labelled(code[i]) {
      LabelRewrites(code, i);
      RewriteAnswers(code, OptimizeLabel(code, i), i, s, j, st);
    } else if code[i].IJmp? {
      var ft := FinalTarget(code, i, |code|);
      if 0 <= ft < |code| && Commits(code[ft]) {
        var fft := FinalTarget(code, TargetOf(code[ft], ft), |code|);
        var code1 := code[i := Relabel(code[ft], fft - i)];
        JumpRewrites(code, code1, i);
        RewriteAnswers(code, code1, i, s, j, st);
        LabelRewrites(code1, i);
        RewriteAnswers(code1, OptimizeLabel(code1, i), i, s, j, st);
      } else {
        JumpRewrites(code, PeepholeAt(code, i), i);
        RewriteAnswers(code, PeepholeAt(code, i), i, s, j, st);
      }
    }
  }

  lemma LaidFirst(code: seq<Instr>, i: nat)
    requires i < |code| && Laid(code[i..])
    ensures i + SizeI(code[i]) <= |code|
    ensures Laid(code[i + SizeI(code[i])..])
    ensures SizeI(code[i]) == 2 ==> code[i + 1] == Ext
  {
    var n := SizeI(code[i]);
    assert code[i..][0] == code[i];
    assert code[i..][n..] == code[i + n..];
    if n == 2 {
      assert code[i + 1] == code[i..][1];
    }
  }

  /** Optimising one instruction keeps the layout of what follows it. */
  lemma PeepholeAtLaid(code: seq<Instr>, i: nat)
    requires i < |code| && Laid(code[i..])
    ensures var code1 := PeepholeAt(code, i);
            i + SizeI(code1[i]) <= |code| && Laid(code1[i + SizeI(code1[i])..])
  {
    hide Laid;
    LaidFirst(code, i);
    var code1 := PeepholeAt(code, i);
    var n := SizeI(code[i]);
    if SizeI(code1[i]) == n {
      assert code1[i + n..] == code[i + n..];
    } else {
      assert code1[i + 1..] == [IAny] + code[i + 2..];
      LaidOne([IAny]);
      LaidConcat([IAny], code[i + 2..]);
    }
  }

  /** The pass changes no answer of the machine, on any subject and from any position. */
  lemma {:induction false} PeepholeAnswers(code: seq<Instr>, i: nat, s: seq<Byte>, j: nat, st: State)
    requires i <= |code| && Laid(code[i..]) && Answers(code, s, j, st)
    ensures Answers(PeepholeFrom(code, i), s, j, st)
    decreases |code| - i
  {
    hide Answers, Laid, PeepholeAt;
    if i < |code| {
      var code1 := PeepholeAt(code, i);
      PeepholeAtAnswers(code, i, s, j, st);
      PeepholeAtLaid(code, i);
      PeepholeAnswers(code1, i + SizeI(code1[i]), s, j, st);
    }
  }
}
