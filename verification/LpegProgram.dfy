/**
  LPeg as a whole: the program, which follows calls and jumps without a bound, is the model at any
  depth that is great enough.
 */
module LpegProgram {
  import opened LpegTree
  import opened LpegVm
  import opened LpegCode
  import opened LpegPeephole
  import opened LpegVerify
  import opened LpegMatch
  import opened LpegSettle
  import opened LpegEnds

  /** At depth `a` the pattern is accepted, all jump chains of its code end, before and after they are optimised, and the machine answers, within any limit of its stack. */
  ghost predicate Works(t: Tree, a: nat) {
    && Accepted(t, a) && AllEnd(Compiled(t, a)) && AllEnd(Optimized(t, a))
    && forall s: seq<Byte>, i: nat, max: nat :: i <= |s| ==> AnswersWell(t, a, s, i, max)
  }

  ghost predicate AnswersWell(t: Tree, a: nat, s: seq<Byte>, i: nat, max: nat)
    requires i <= |s|
  {
    exists fuel: nat ::
      Peg([], t, s, i, fuel) != Timeout
      && Answers(Optimized(t, a), s, i, Report(Peg([], t, s, i, fuel)))
      && LimitedAnswer(Optimized(t, a), s, i, max, Report(Peg([], t, s, i, fuel)))
  }

  lemma EveryDepthWorks(t: Tree, a: nat)
    requires Accepted(t, a)
    ensures Works(t, a)
  {
    hide Accepted, Compiled, Peg, Answers, LimitedAnswer, AllEnd, PeepholeFrom;
    JumpsEnd(t, a);
    PeepholeEnds(Compiled(t, a), 0);
    forall s: seq<Byte>, i: nat, max: nat | i <= |s| ensures AnswersWell(t, a, s, i, max) {
      var fuel := MatchTotal(t, a, s, i);
      AnswerLimited(Optimized(t, a), s, i, max, Report(Peg([], t, s, i, fuel)));
    }
  }

  /**
    For every accepted pattern there is a depth from which on it stays accepted, its code does not
    change any more, the chains of jumps in it end, and the machine answers on every subject as the
    pattern means.
   */
  lemma TheProgram(t: Tree, d: nat) returns (enough: nat)
    requires Accepted(t, d)
    ensures forall a: nat :: a >= enough ==> Works(t, a) && Compiled(t, a) == Compiled(t, enough) && Optimized(t, a) == Optimized(t, enough)
  {
    hide Accepted, Works, Compiled, PeepholeFrom;
    var settled := CodeSettles(t, d);
    enough := if settled < d then d else settled;
    forall a: nat | a >= enough ensures Works(t, a) && Compiled(t, a) == Compiled(t, enough) {
      AcceptedDeeper(t, d, a);
      EveryDepthWorks(t, a);
      assert Compiled(t, a) == Compiled(t, settled) == Compiled(t, enough);
    }
  }
}
