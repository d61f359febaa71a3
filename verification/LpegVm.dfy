/**
  The matching machine of LPeg: instructions, one machine step, and the state a run ends in.

  An instruction takes up as many code cells as in the program: the cell of its opcode followed by
  `Ext` cells for its offset or charset.  Offsets count cells and are relative to the opcode cell.
 */
module LpegVm {
  import opened LpegTree

  datatype Instr =
    | IAny
    | IChar(c: Byte)
    | ISet(cs: Charset)
    | ITestAny(offset: int)
    | ITestChar(c: Byte, offset: int)
    | ITestSet(cs: Charset, offset: int)
    | ISpan(cs: Charset)
    | IBehind(n: nat)
    | IRet
    | IEnd
    | IChoice(offset: int)
    | IJmp(offset: int)
    | ICall(offset: int)
    | IOpenCall(rule: nat)
    | ICommit(offset: int)
    | IPartialCommit(offset: int)
    | IBackCommit(offset: int)
    | IFailTwice
    | IFail
    | IFullCapture(kind: nat, key: nat, off: nat)
    | IOpenCapture(kind: nat, key: nat)
    | ICloseCapture
    | Ext

  const CHARSETINSTSIZE: nat := 9

  /** Number of cells of an instruction. */
  function SizeI(i: Instr): (n: nat)
    ensures 1 <= n <= CHARSETINSTSIZE + 1
  {
    match i
    case ISet(_) => CHARSETINSTSIZE
    case ISpan(_) => CHARSETINSTSIZE
    case ITestSet(_, _) => CHARSETINSTSIZE + 1
    case ITestChar(_, _) => 2
    case ITestAny(_) => 2
    case IChoice(_) => 2
    case IJmp(_) => 2
    case ICall(_) => 2
    case IOpenCall(_) => 2
    case ICommit(_) => 2
    case IPartialCommit(_) => 2
    case IBackCommit(_) => 2
    case _ => 1
  }

  /** The address of the instruction that ends a failed match. */
  const GIVEUP: int := -1

  /** The stack of pending calls and choices, top first. */
  datatype Stack =
    | Empty
    | RetAddr(p: int, rest: Stack)
    | Choice(p: int, s: nat, caplevel: nat, rest: Stack)

  datatype State =
    | Run(p: int, s: nat, stack: Stack, caps: seq<Capture>)
    | Matched(s: nat, caps: seq<Capture>)
    | NoMatch
    | Stuck                                    // an assertion of the machine does not hold

  datatype Machine = Machine(prog: seq<Instr>, subj: seq<Byte>)

  /** Backtrack: drop pending calls and resume the newest choice. */
  function Backtrack(stack: Stack, caps: seq<Capture>): State {
    match stack
    case Empty => Stuck
    case RetAddr(_, rest) => Backtrack(rest, caps)
    case Choice(p, s, lvl, rest) => if lvl <= |caps| then Run(p, s, rest, caps[..lvl]) else Stuck
  }

  /** The end of the longest run of bytes of `cs` from `i`. */
  function SpanEnd(subj: seq<Byte>, cs: Charset, i: nat): (j: nat)
    requires i <= |subj|
    ensures i <= j <= |subj|
    ensures forall k :: i <= k < j ==> subj[k] in cs
    ensures j < |subj| ==> subj[j] !in cs
    decreases |subj| - i
  {
    if i < |subj| && subj[i] in cs then SpanEnd(subj, cs, i + 1) else i
  }

  function CloseCapture(caps: seq<Capture>, s: nat): seq<Capture>
    requires caps != []
  {
    var last := caps[|caps| - 1];
    if last.siz == 0 && last.s <= s && s - last.s < UCHAR_MAX then
      caps[|caps| - 1 := last.(siz := s - last.s + 1)]
    else
      caps + [Capture(CCLOSE, 0, s, 1)]
  }

  function Step(m: Machine, st: State): State {
    if !st.Run? then st
    else
      var Run(p, s, stack, caps) := st;
      if p == GIVEUP then (if stack.Empty? then NoMatch else Stuck)
      else if p < 0 || p >= |m.prog| || s > |m.subj| then Stuck
      else
        var more := s < |m.subj|;
        match m.prog[p]
        case IEnd => if stack.Choice? && stack.rest.Empty? then Matched(s, caps) else Stuck
        case IRet => if stack.RetAddr? then Run(stack.p, s, stack.rest, caps) else Stuck
        case IAny => if more then Run(p + 1, s + 1, stack, caps) else Backtrack(stack, caps)
        case ITestAny(off) => Run(if more then p + 2 else p + off, s, stack, caps)
        case IChar(c) =>
          if more && m.subj[s] == c then Run(p + 1, s + 1, stack, caps) else Backtrack(stack, caps)
        case ITestChar(c, off) =>
          Run(if more && m.subj[s] == c then p + 2 else p + off, s, stack, caps)
        case ISet(cs) =>
          if more && m.subj[s] in cs then Run(p + CHARSETINSTSIZE, s + 1, stack, caps) else Backtrack(stack, caps)
        case ITestSet(cs, off) =>
          Run(if more && m.subj[s] in cs then p + 1 + CHARSETINSTSIZE else p + off, s, stack, caps)
        case IBehind(n) => if n > s then Backtrack(stack, caps) else Run(p + 1, s - n, stack, caps)
        case ISpan(cs) => Run(p + CHARSETINSTSIZE, SpanEnd(m.subj, cs, s), stack, caps)
        case IJmp(off) => Run(p + off, s, stack, caps)
        case IChoice(off) => Run(p + 2, s, Choice(p + off, s, |caps|, stack), caps)
        case ICall(off) => Run(p + off, s, RetAddr(p + 2, stack), caps)
        case ICommit(off) => if stack.Choice? then Run(p + off, s, stack.rest, caps) else Stuck
        case IPartialCommit(off) =>
          if stack.Choice? then Run(p + off, s, Choice(stack.p, s, |caps|, stack.rest), caps) else Stuck
        case IBackCommit(off) =>
          if stack.Choice? && stack.caplevel <= |caps| then
            Run(p + off, stack.s, stack.rest, caps[..stack.caplevel])
          else Stuck
        case IFailTwice => if stack.Empty? then Stuck else Backtrack(stack.rest, caps)
        case IFail => Backtrack(stack, caps)
        case ICloseCapture => if caps == [] then Stuck else Run(p + 1, s, stack, CloseCapture(caps, s))
        case IOpenCapture(kind, key) => Run(p + 1, s, stack, caps + [Capture(kind, key, s, 0)])
        case IFullCapture(kind, key, off) =>
          if off > s then Stuck else Run(p + 1, s, stack, caps + [Capture(kind, key, s - off, off + 1)])
        case IOpenCall(_) => Stuck
        case Ext => Stuck
  }

  lemma StepJmp(m: Machine, p: int, s: nat, stack: Stack, caps: seq<Capture>)
    requires 0 <= p < |m.prog| && s <= |m.subj| && m.prog[p].IJmp?
    ensures Step(m, Run(p, s, stack, caps)) == Run(p + m.prog[p].offset, s, stack, caps)
  {
  }

  lemma StepChoice(m: Machine, p: int, s: nat, stack: Stack, caps: seq<Capture>)
    requires 0 <= p < |m.prog| && s <= |m.subj| && m.prog[p].IChoice?
    ensures Step(m, Run(p, s, stack, caps)) == Run(p + 2, s, Choice(p + m.prog[p].offset, s, |caps|, stack), caps)
  {
  }

  lemma StepCall(m: Machine, p: int, s: nat, stack: Stack, caps: seq<Capture>)
    requires 0 <= p < |m.prog| && s <= |m.subj| && m.prog[p].ICall?
    ensures Step(m, Run(p, s, stack, caps)) == Run(p + m.prog[p].offset, s, RetAddr(p + 2, stack), caps)
  {
  }

  /** The state the machine starts in: one choice, to give up, on the stack. */
  function Init(i: nat): State {
    Run(0, i, Choice(GIVEUP, i, 0, Empty), [])
  }

  function Iterate(m: Machine, st: State, n: nat): State
    decreases n
  {
    if n == 0 then st else Iterate(m, Step(m, st), n - 1)
  }

  ghost predicate Halts(m: Machine, st: State) {
    exists n: nat :: !Iterate(m, st, n).Run?
  }

  /** The state in which the machine halts when started in `st`; a running state if it never halts. */
  ghost function Final(m: Machine, st: State): State {
    if n: nat :| !Iterate(m, st, n).Run? then Iterate(m, st, n)
    else Run(-2, 0, Empty, [])
  }

  lemma {:induction false} IterateHalted(m: Machine, st: State, n: nat)
    requires !st.Run?
    ensures Iterate(m, st, n) == st
    decreases n
  {
    if n > 0 {
      IterateHalted(m, st, n - 1);
    }
  }

  lemma {:induction false} IterateSum(m: Machine, st: State, a: nat, b: nat)
    ensures Iterate(m, st, a + b) == Iterate(m, Iterate(m, st, a), b)
    decreases a
  {
    if a > 0 {
      IterateSum(m, Step(m, st), a - 1, b);
    }
  }

  /** The state in which a run halts does not depend on when one looks. */
  lemma HaltsOnce(m: Machine, st: State, a: nat, b: nat)
    requires !Iterate(m, st, a).Run? && !Iterate(m, st, b).Run?
    ensures Iterate(m, st, a) == Iterate(m, st, b)
  {
    if a <= b {
      IterateSum(m, st, a, b - a);
      IterateHalted(m, Iterate(m, st, a), b - a);
    } else {
      IterateSum(m, st, b, a - b);
      IterateHalted(m, Iterate(m, st, b), a - b);
    }
  }

  lemma FinalIs(m: Machine, st: State, n: nat)
    requires !Iterate(m, st, n).Run?
    ensures Halts(m, st) && Final(m, st) == Iterate(m, st, n)
  {
    var k: nat :| !Iterate(m, st, k).Run? && Final(m, st) == Iterate(m, st, k);
    HaltsOnce(m, st, n, k);
  }

  /** A step does not change where the run ends. */
  lemma FinalStep(m: Machine, st: State)
    ensures Final(m, Step(m, st)) == Final(m, st)
  {
    var next := Step(m, st);
    if st.Run? {
      if Halts(m, next) {
        var n: nat :| !Iterate(m, next, n).Run?;
        FinalIs(m, next, n);
        assert Iterate(m, st, n + 1) == Iterate(m, next, n);
        FinalIs(m, st, n + 1);
      }
      if Halts(m, st) {
        var n: nat :| !Iterate(m, st, n).Run?;
        assert n > 0;
        FinalIs(m, next, n - 1);
      }
    }
  }

  lemma FinalHalted(m: Machine, st: State)
    requires !st.Run?
    ensures Halts(m, st) && Final(m, st) == st
  {
    assert Iterate(m, st, 0) == st;
    FinalIs(m, st, 0);
  }

  // ----- a limited stack -----

  const INITBACK: nat := 400

  function Depth(stack: Stack): nat {
    if stack.Empty? then 0 else Depth(stack.rest) + 1
  }

  /** How deep the stack may grow: the program starts with room for `INITBACK` and grows up to `max`. */
  function Limit(max: nat): nat {
    if max < INITBACK then INITBACK else max
  }

  predicate Over(st: State, limit: nat) {
    st.Run? && Depth(st.stack) > limit
  }

  datatype Limited = Reached(st: State) | Overflow

  /** `n` steps of a machine that stops when its stack would pass the limit. */
  function LimitedRun(m: Machine, st: State, n: nat, limit: nat): Limited
    decreases n
  {
    if Over(st, limit) then Overflow
    else if n == 0 then Reached(st)
    else LimitedRun(m, Step(m, st), n - 1, limit)
  }

  /** The unlimited machine passes the limit within `n` steps. */
  ghost predicate TooDeep(m: Machine, st: State, n: nat, limit: nat) {
    exists k: nat :: k <= n && Over(Iterate(m, st, k), limit)
  }

  /** The limited machine overflows exactly when the unlimited one passes the limit, and else goes the same way. */
  lemma {:induction false} LimitedSame(m: Machine, st: State, n: nat, limit: nat)
    ensures LimitedRun(m, st, n, limit) == if TooDeep(m, st, n, limit) then Overflow else Reached(Iterate(m, st, n))
    decreases n
  {
    hide Step, Over;
    assert Iterate(m, st, 0) == st;
    if !Over(st, limit) && n > 0 {
      var next := Step(m, st);
      LimitedSame(m, next, n - 1, limit);
      if TooDeep(m, st, n, limit) {
        var k: nat :| k <= n && Over(Iterate(m, st, k), limit);
        assert k > 0;
        assert Iterate(m, next, k - 1) == Iterate(m, st, k);
      }
      if TooDeep(m, next, n - 1, limit) {
        var k: nat :| k <= n - 1 && Over(Iterate(m, next, k), limit);
        assert Iterate(m, st, k + 1) == Iterate(m, next, k);
      }
    }
  }

  lemma BacktrackDepth(stack: Stack, caps: seq<Capture>)
    ensures Backtrack(stack, caps).Run? ==> Depth(Backtrack(stack, caps).stack) <= Depth(stack)
  {
  }

  /** Only choices and calls make the stack deeper, by one. */
  lemma StepDepth(m: Machine, st: State)
    requires st.Run? && 0 <= st.p < |m.prog| && st.s <= |m.subj|
    ensures var next := Step(m, st);
            next.Run? ==> if m.prog[st.p].IChoice? || m.prog[st.p].ICall? then Depth(next.stack) == Depth(st.stack) + 1
                          else Depth(next.stack) <= Depth(st.stack)
  {
    hide Backtrack;
    BacktrackDepth(st.stack, st.caps);
    if !st.stack.Empty? { BacktrackDepth(st.stack.rest, st.caps); }
  }
}
