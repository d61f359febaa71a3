/**
  The code LPeg emits for a pattern, as a function of the pattern.

  Offsets are relative, so the code of a tree does not depend on where it is placed.  The program
  passes the index of a dominating test instruction (`tt`); here the test itself is passed.
 */
module LpegCode {
  import opened LpegTree
  import opened LpegAnalysis
  import opened LpegVm

  const MAXBEHIND: int := 255
  const MAXOFF: int := 15

  /** The test instruction known to have succeeded at the current position. */
  datatype Test = NoTest | TestJmp | TestAny | TestChar(c: Byte) | TestSet(cs: Charset)

  datatype CharsetKind = KFail | KChar(c: Byte) | KAny | KSet

  /** Whether a charset is empty, a singleton, full, or none of these. */
  function CharsetType(cs: Charset): (k: CharsetKind)
    ensures k.KFail? <==> cs == {}
    ensures k.KChar? ==> cs == {k.c}
    ensures k.KAny? ==> cs == FULL
    ensures k.KSet? ==> cs != FULL && forall c: Byte :: cs != {c}
  {
    if cs == {} then KFail
    else if cs == FULL then KAny
    else
      var c := Least(cs, 0);
      if cs == {c} then KChar(c) else KSet
  }

  function Least(cs: Charset, from: Byte): (c: Byte)
    requires cs != {} && forall b :: b in cs ==> from <= b
    ensures c in cs
    decreases 256 - from
  {
    if from in cs then from
    else
      assert from < 255 by { if from == 255 { var b :| b in cs; } }
      Least(cs, from + 1)
  }

  function Exts(n: nat): (r: seq<Instr>)
    ensures |r| == n && forall x :: 0 <= x < n ==> r[x] == Ext
  {
    seq(n, _ => Ext)
  }

  function CodeChar(c: Byte, tt: Test): seq<Instr> {
    if tt == TestChar(c) then [IAny] else [IChar(c)]
  }

  function CodeCharset(cs: Charset, tt: Test): seq<Instr> {
    match CharsetType(cs)
    case KChar(c) => CodeChar(c, tt)
    case KSet => if tt == TestSet(cs) then [IAny] else [ISet(cs)] + Exts(CHARSETINSTSIZE - 1)
    case KAny => [IAny]
    case KFail => [IFail]
  }

  /** The test that passes over what follows when the next byte is not in `cs`; none when `e`. */
  function TestCode(cs: Charset, e: bool, offset: int): seq<Instr> {
    if e then []
    else
      match CharsetType(cs)
      case KFail => [IJmp(offset), Ext]
      case KAny => [ITestAny(offset), Ext]
      case KChar(c) => [ITestChar(c, offset), Ext]
      case KSet => [ITestSet(cs, offset)] + Exts(CHARSETINSTSIZE)
  }

  function TestLen(cs: Charset, e: bool): (n: nat)
    ensures forall off :: |TestCode(cs, e, off)| == n
  {
    if e then 0 else if CharsetType(cs).KSet? then CHARSETINSTSIZE + 1 else 2
  }

  function TestOf(cs: Charset, e: bool): Test {
    if e then NoTest
    else
      match CharsetType(cs)
      case KFail => TestJmp
      case KAny => TestAny
      case KChar(c) => TestChar(c)
      case KSet => TestSet(cs)
  }

  /** The first alternative behind a test that goes to the second one, and a jump over that. */
  function ChoiceByTest(cs1: Charset, c1: seq<Instr>, c2: seq<Instr>, jump: bool): seq<Instr> {
    var j := if jump then [IJmp(2 + |c2|), Ext] else [];
    TestCode(cs1, false, TestLen(cs1, false) + |c1| + |j|) + (c1 + (j + c2))
  }

  /** The first alternative between a choice of the second one and a commit over it, all behind a test. */
  function ChoiceByStack(cs1: Charset, e1: bool, c1: seq<Instr>, c2: seq<Instr>): seq<Instr> {
    TestCode(cs1, e1, TestLen(cs1, e1) + 4 + |c1|)
    + ([IChoice(4 + |c1|), Ext] + (c1 + ([ICommit(2 + |c2|), Ext] + c2)))
  }

  /** A test that leaves the loop, the body, and a jump back to the test. */
  function RepByTest(cs: Charset, c: seq<Instr>): seq<Instr> {
    TestCode(cs, false, TestLen(cs, false) + |c| + 2)
    + (c + [IJmp(-(TestLen(cs, false) + |c|)), Ext])
  }

  /** A test, a choice of what follows the loop (or a partial commit to the next instruction), and the body with a partial commit back to it. */
  function RepByStack(cs: Charset, e: bool, opt: bool, c: seq<Instr>): seq<Instr> {
    TestCode(cs, e, TestLen(cs, e) + 4 + |c|)
    + ([if opt then IPartialCommit(2) else IChoice(4 + |c|), Ext] + (c + [IPartialCommit(-|c|), Ext]))
  }

  /** A failure behind a test; or, below, the body under a choice that a success throws away before it fails. */
  function NotByTest(cs: Charset, e: bool): seq<Instr> {
    TestCode(cs, e, TestLen(cs, e) + 1) + [IFail]
  }

  function NotByStack(cs: Charset, e: bool, c: seq<Instr>): seq<Instr> {
    TestCode(cs, e, TestLen(cs, e) + 3 + |c|) + ([IChoice(3 + |c|), Ext] + (c + [IFailTwice]))
  }

  /** The body under a choice of a failure, and a commit that goes back in the subject and over the failure. */
  function AndByStack(c: seq<Instr>): seq<Instr> {
    [IChoice(4 + |c|), Ext] + (c + [IBackCommit(3), Ext, IFail])
  }

  function BehindCode(n: nat): seq<Instr> {
    if n > 0 then [IBehind(n)] else []
  }

  /** A call of the first rule and a jump over all rules. */
  function GrammarCode(rules: seq<Instr>): seq<Instr> {
    [ICall(4), Ext, IJmp(2 + |rules|), Ext] + rules
  }

  /** The end of a chain of jumps from `i`, following at most `n` of them. */
  function FinalTarget(code: seq<Instr>, i: int, n: nat): int
    decreases n
  {
    if n > 0 && 0 <= i < |code| && code[i].IJmp? then FinalTarget(code, i + code[i].offset, n - 1) else i
  }

  predicate IsRet(code: seq<Instr>, i: int) {
    0 <= i < |code| && code[i].IRet?
  }

  /** Resolve the open calls of `code` from cell `i` on; a call followed by a return is a jump. */
  function CorrectCalls(code: seq<Instr>, positions: seq<nat>, i: nat): (r: seq<Instr>)
    ensures |r| == |code|
    decreases |code| - i
  {
    if i >= |code| then code
    else if code[i].IOpenCall? && code[i].rule < |positions| then
      var offset := positions[code[i].rule] - i;
      var call := if IsRet(code, FinalTarget(code, i + 2, |code|)) then IJmp(offset) else ICall(offset);
      CorrectCalls(code[i := call], positions, i + 1)
    else
      CorrectCalls(code, positions, i + 1)
  }

  /** The code of the rules, each followed by a return, and the position of each rule. */
  datatype RulesCode = RulesCode(code: seq<Instr>, positions: seq<nat>)

  function Gen(g: seq<Tree>, t: Tree, opt: bool, tt: Test, fl: Charset, d: nat): seq<Instr>
    decreases t, 1
  {
    match t
    case TChar(c) => CodeChar(c, tt)
    case TAny => [IAny]
    case TSet(cs) => CodeCharset(cs, tt)
    case TTrue => []
    case TFalse => [IFail]
    case TChoice(p1, p2) =>
      var f1 := First(g, p1, FULL, d);
      if Headfail(g, p1, d) || (!f1.e && f1.cs !! First(g, p2, fl, d).cs) then
        ChoiceByTest(f1.cs, Gen(g, p1, false, TestOf(f1.cs, false), fl, d), Gen(g, p2, opt, NoTest, fl, d), !p2.TTrue?)
      else if opt && p2.TTrue? then
        [IPartialCommit(2), Ext] + Gen(g, p1, true, NoTest, FULL, d)
      else
        ChoiceByStack(f1.cs, f1.e, Gen(g, p1, p2.TTrue?, TestOf(f1.cs, f1.e), FULL, d), Gen(g, p2, opt, NoTest, fl, d))
    case TRep(p) =>
      if ToCharset(p).Some? then [ISpan(ToCharset(p).value)] + Exts(CHARSETINSTSIZE - 1)
      else
        var f := First(g, p, FULL, d);
        if Headfail(g, p, d) || (!f.e && f.cs !! fl) then
          RepByTest(f.cs, Gen(g, p, false, TestOf(f.cs, false), FULL, d))
        else
          RepByStack(f.cs, f.e, opt, Gen(g, p, false, NoTest, FULL, d))
    case TBehind(p, n) => BehindCode(n) + Gen(g, p, false, NoTest, FULL, d)
    case TNot(p) =>
      var f := First(g, p, FULL, d);
      if Headfail(g, p, d) then NotByTest(f.cs, f.e)
      else NotByStack(f.cs, f.e, Gen(g, p, false, NoTest, FULL, d))
    case TAnd(p) =>
      var n := FixedLen(g, p, d);
      if 0 <= n <= MAXBEHIND && !HasCaptures(g, p, {}, d) then
        Gen(g, p, false, tt, FULL, d) + BehindCode(n)
      else
        AndByStack(Gen(g, p, false, tt, FULL, d))
    case TCapture(kind, key, p) =>
      var n := FixedLen(g, p, d);
      if 0 <= n <= MAXOFF && !HasCaptures(g, p, {}, d) then
        Gen(g, p, false, tt, fl, d) + [IFullCapture(kind, key, n)]
      else
        [IOpenCapture(kind, key)] + (Gen(g, p, false, tt, fl, d) + [ICloseCapture])
    case TGrammar(rules) =>
      var r := GenRules(rules, rules, 0, d);
      GrammarCode(CorrectCalls(r.code, r.positions, 0))
    case TCall(k) => [IOpenCall(k), Ext]
    case TSeq(p1, p2) =>
      var fl1 := if NeedFollow(p1) then First(g, p2, fl, d).cs else FULL;
      Gen(g, p1, false, tt, fl1, d) + Gen(g, p2, opt, if FixedLen(g, p1, d) != 0 then NoTest else tt, fl, d)
  }

  function GenRules(g: seq<Tree>, rules: seq<Tree>, start: nat, d: nat): (r: RulesCode)
    ensures |r.positions| == |rules|
    decreases rules, 0
  {
    if rules == [] then RulesCode([], [])
    else
      var c := Gen(g, rules[0], false, NoTest, FULL, d) + [IRet];
      var r := GenRules(g, rules[1..], start + |c|, d);
      RulesCode(c + r.code, [start] + r.positions)
  }

  /** The code of a whole pattern, before jumps are optimised. */
  function Compiled(t: Tree, d: nat): seq<Instr> {
    Gen([], t, false, NoTest, FULL, d) + [IEnd]
  }
}
