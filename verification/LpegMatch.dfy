/**
  Compiling a pattern and running the machine gives exactly the answer the pattern means.
 */
module LpegMatch {
  import opened LpegTree
  import opened LpegAnalysis
  import opened LpegVm
  import opened LpegCode
  import opened LpegCorrect
  import opened LpegShapes
  import opened LpegCalls
  import opened LpegTheorem
  import opened LpegLayout
  import opened LpegPeephole
  import opened LpegVerify

  /** How the machine reports an answer. */
  function Report(r: Result): State
    requires r != Timeout
  {
    if r.Ok? then Matched(r.pos, r.caps) else NoMatch
  }

  /** Before the jumps are optimised. */
  lemma CompiledAnswers(t: Tree, d: nat, s: seq<Byte>, i: nat, fuel: nat)
    requires i <= |s| && WellFormed([], t, d) && Peg([], t, s, i, fuel) != Timeout
    ensures Answers(Compiled(t, d), s, i, Report(Peg([], t, s, i, fuel)))
  {
    hide Gen, Peg, WellFormed, Agrees;
    var prog := Compiled(t, d);
    var m := Machine(prog, s);
    var cx := Context(m, [], [], d);
    var c := Gen([], t, false, NoTest, FULL, d);
    var r := Peg([], t, s, i, fuel);
    var stack := Choice(GIVEUP, i, 0, Empty);
    WholePlaced(t, d);
    assert ContextOk(cx);
    assert Levels(stack, 0);
    assert Code(cx, t, false, NoTest, FULL) == c;
    GenCorrect(cx, t, false, NoTest, FULL, 0, i, stack, [], fuel);
    AgreesToReport(m, r, |c|, i);
    assert Final(m, Init(i)) == Report(r);
    ReachesFinal(m, Init(i));
  }

  lemma WholePlaced(t: Tree, d: nat)
    requires WellFormed([], t, d)
    ensures Placed(Compiled(t, d), 0, Gen([], t, false, NoTest, FULL, d), [])
  {
    hide Gen, WellFormed;
    var c := Gen([], t, false, NoTest, FULL, d);
    GenCallsBelow([], t, false, NoTest, FULL, d);
    forall x | 0 <= x < |c|
      ensures CellOk(Compiled(t, d), 0 + x, c[x], [])
    {
      assert Compiled(t, d)[x] == c[x];
    }
  }

  lemma AgreesToReport(m: Machine, r: Result, end: nat, i: nat)
    requires r != Timeout && i <= |m.subj| && (r.Ok? ==> r.pos <= |m.subj|)
    requires end < |m.prog| && m.prog[end] == IEnd
    requires Agrees(m, Init(i), r, false, end, Choice(GIVEUP, i, 0, Empty), [], FULL)
    ensures Final(m, Init(i)) == Report(r)
  {
    var stack := Choice(GIVEUP, i, 0, Empty);
    if r.Ok? {
      assert [] + r.caps == r.caps;
      FinalStep(m, Run(end, r.pos, stack, r.caps));
      FinalHalted(m, Matched(r.pos, r.caps));
    } else {
      FinalStep(m, Run(GIVEUP, i, Empty, []));
      FinalHalted(m, NoMatch);
    }
  }

  lemma ReachesFinal(m: Machine, st: State)
    requires !Final(m, st).Run?
    ensures exists n: nat :: Iterate(m, st, n) == Final(m, st)
  {
  }

  /** The code the library keeps for a pattern. */
  function Optimized(t: Tree, d: nat): seq<Instr> {
    PeepholeFrom(Compiled(t, d), 0)
  }

  /** For every well-formed pattern, subject and position: if the pattern has an answer, the machine
      stops with exactly that answer, the same end position and the same captures. */
  lemma CompilerCorrect(t: Tree, d: nat, s: seq<Byte>, i: nat, fuel: nat)
    requires i <= |s| && WellFormed([], t, d) && Peg([], t, s, i, fuel) != Timeout
    ensures Answers(Optimized(t, d), s, i, Report(Peg([], t, s, i, fuel)))
  {
    hide Gen, Peg, WellFormed, Answers, PeepholeFrom, Laid;
    CompiledAnswers(t, d, s, i, fuel);
    var c := Gen([], t, false, NoTest, FULL, d);
    GenLaid([], t, false, NoTest, FULL, d);
    LaidOne([IEnd]);
    LaidConcat(c, [IEnd]);
    assert Compiled(t, d)[0..] == c + [IEnd];
    PeepholeAnswers(Compiled(t, d), 0, s, i, Report(Peg([], t, s, i, fuel)));
  }

  /** Every accepted pattern matches on every subject: the machine always stops, with the answer
      the pattern means, and never in a state where one of its assertions fails. */
  lemma MatchTotal(t: Tree, d: nat, s: seq<Byte>, i: nat) returns (fuel: nat)
    requires i <= |s| && Accepted(t, d)
    ensures Peg([], t, s, i, fuel) != Timeout
    ensures Answers(Optimized(t, d), s, i, Report(Peg([], t, s, i, fuel)))
  {
    fuel := AcceptedTerminates(t, d, s, i);
    CompilerCorrect(t, d, s, i, fuel);
  }

  /** The limited machine reports the answer, or overflows exactly when the run needs more stack than the limit. */
  ghost predicate LimitedAnswer(prog: seq<Instr>, s: seq<Byte>, i: nat, max: nat, answer: State) {
    exists n: nat ::
      LimitedRun(Machine(prog, s), Init(i), n, Limit(max)) ==
        if exists k: nat :: Over(Iterate(Machine(prog, s), Init(i), k), Limit(max)) then Overflow else Reached(answer)
  }

  lemma AnswerLimited(prog: seq<Instr>, s: seq<Byte>, i: nat, max: nat, answer: State)
    requires Answers(prog, s, i, answer) && !answer.Run?
    ensures LimitedAnswer(prog, s, i, max, answer)
  {
    hide LimitedRun, Over, Step, Limit;
    var m, limit := Machine(prog, s), Limit(max);
    var n: nat :| Iterate(m, Init(i), n) == answer;
    LimitedSame(m, Init(i), n, limit);
    forall k: nat | Over(Iterate(m, Init(i), k), limit) ensures TooDeep(m, Init(i), n, limit) {
      if k > n {
        IterateSum(m, Init(i), n, k - n);
        IterateHalted(m, answer, k - n);
        HaltedNotOver(answer, limit);
      }
    }
  }

  lemma HaltedNotOver(st: State, limit: nat)
    requires !st.Run?
    ensures !Over(st, limit)
  {
  }

  /** Every accepted pattern, with any limit on the stack: the answer the pattern means, or an overflow exactly when the limit is passed. */
  lemma MatchLimited(t: Tree, d: nat, s: seq<Byte>, i: nat, max: nat) returns (fuel: nat)
    requires i <= |s| && Accepted(t, d)
    ensures Peg([], t, s, i, fuel) != Timeout
    ensures LimitedAnswer(Optimized(t, d), s, i, max, Report(Peg([], t, s, i, fuel)))
  {
    hide Peg, Optimized, LimitedAnswer;
    fuel := MatchTotal(t, d, s, i);
    AnswerLimited(Optimized(t, d), s, i, max, Report(Peg([], t, s, i, fuel)));
  }
}
