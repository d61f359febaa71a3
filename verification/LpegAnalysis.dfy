/**
  The static analyses the compiler uses to drop choice points, and their soundness with respect
  to the meaning of patterns.

  The program follows calls without a bound; it may do so because grammars are checked for left
  recursion first.  Here `d` bounds the nesting of calls an analysis follows, and beyond it the
  analysis gives the answer that claims nothing.  All results hold for every `d`.
 */
module LpegAnalysis {
  import opened LpegTree

  /** The charset of a tree that always matches exactly one byte. */
  function ToCharset(t: Tree): Option<Charset> {
    match t
    case TSet(cs) => Some(cs)
    case TChar(c) => Some({c})
    case TAny => Some(FULL)
    case _ => None
  }

  datatype Pred = PEnullable | PEnofail

  function CheckAux(g: seq<Tree>, t: Tree, pred: Pred, d: nat): bool
    decreases d, t
  {
    match t
    case TChar(_) => false
    case TSet(_) => false
    case TAny => false
    case TFalse => false
    case TRep(_) => true
    case TTrue => true
    case TNot(_) => pred == PEnullable
    case TBehind(_, _) => pred == PEnullable
    case TAnd(p) => pred == PEnullable || CheckAux(g, p, pred, d)
    case TSeq(p1, p2) => CheckAux(g, p1, pred, d) && CheckAux(g, p2, pred, d)
    case TChoice(p1, p2) => CheckAux(g, p2, pred, d) || CheckAux(g, p1, pred, d)
    case TCapture(_, _, p) => CheckAux(g, p, pred, d)
    case TGrammar(rules) => if rules == [] then pred == PEnullable else CheckAux(rules, rules[0], pred, d)
    case TCall(k) =>
      if k < |g| && d > 0 then CheckAux(g, g[k], pred, d - 1) else pred == PEnullable
  }

  function Nullable(g: seq<Tree>, t: Tree, d: nat): bool { CheckAux(g, t, PEnullable, d) }

  function Nofail(g: seq<Tree>, t: Tree, d: nat): bool { CheckAux(g, t, PEnofail, d) }

  /** A tree that is not nullable consumes input whenever it succeeds. */
  lemma {:induction false} NullableSound(g: seq<Tree>, t: Tree, d: nat, s: seq<Byte>, i: nat, fuel: nat)
    requires i <= |s| && !Nullable(g, t, d)
    ensures Peg(g, t, s, i, fuel).Ok? ==> Peg(g, t, s, i, fuel).pos > i
    decreases fuel, t
  {
    match t
    case TSeq(p1, p2) =>
      var r := Peg(g, p1, s, i, fuel);
      if !Nullable(g, p1, d) {
        NullableSound(g, p1, d, s, i, fuel);
      } else if r.Ok? {
        NullableSound(g, p2, d, s, r.pos, fuel);
      }
    case TChoice(p1, p2) =>
      NullableSound(g, p1, d, s, i, fuel);
      NullableSound(g, p2, d, s, i, fuel);
    case TCall(k) =>
      if k < |g| && d > 0 && fuel > 0 {
        NullableSound(g, g[k], d - 1, s, i, fuel - 1);
      }
    case TGrammar(rules) =>
      if rules != [] {
        NullableSound(rules, rules[0], d, s, i, fuel);
      }
    case TCapture(_, _, p) => NullableSound(g, p, d, s, i, fuel);
    case _ =>
  }

  /** A nofail tree never fails. */
  lemma {:induction false} NofailSound(g: seq<Tree>, t: Tree, d: nat, s: seq<Byte>, i: nat, fuel: nat)
    requires i <= |s| && Nofail(g, t, d)
    ensures !Peg(g, t, s, i, fuel).Fail?
    decreases fuel, t
  {
    match t
    case TRep(p) =>
      var r := Peg(g, p, s, i, fuel);
      if r.Ok? && fuel > 0 {
        NofailSound(g, t, d, s, r.pos, fuel - 1);
      }
    case TSeq(p1, p2) =>
      NofailSound(g, p1, d, s, i, fuel);
      var r := Peg(g, p1, s, i, fuel);
      if r.Ok? {
        NofailSound(g, p2, d, s, r.pos, fuel);
      }
    case TChoice(p1, p2) =>
      if Nofail(g, p2, d) {
        NofailSound(g, p2, d, s, i, fuel);
      } else {
        NofailSound(g, p1, d, s, i, fuel);
      }
    case TAnd(p) => NofailSound(g, p, d, s, i, fuel);
    case TCall(k) =>
      if k < |g| && d > 0 && fuel > 0 {
        NofailSound(g, g[k], d - 1, s, i, fuel - 1);
      }
    case TGrammar(rules) =>
      if rules != [] {
        NofailSound(rules, rules[0], d, s, i, fuel);
      }
    case TCapture(_, _, p) => NofailSound(g, p, d, s, i, fuel);
    case _ =>
  }

  /** A nofail tree is nullable. */
  lemma {:induction false} NofailNullable(g: seq<Tree>, t: Tree, d: nat)
    requires Nofail(g, t, d)
    ensures Nullable(g, t, d)
    decreases d, t
  {
    match t
    case TSeq(p1, p2) => NofailNullable(g, p1, d); NofailNullable(g, p2, d);
    case TChoice(p1, p2) =>
      if Nofail(g, p2, d) { NofailNullable(g, p2, d); } else { NofailNullable(g, p1, d); }
    case TCall(k) => NofailNullable(g, g[k], d - 1);
    case TGrammar(rules) => NofailNullable(rules, rules[0], d);
    case TCapture(_, _, p) => NofailNullable(g, p, d);
    case _ =>
  }

  /** Number of bytes every match consumes, or -1. */
  function FixedLen(g: seq<Tree>, t: Tree, d: nat): (n: int)
    ensures n >= -1
    decreases d, t
  {
    match t
    case TChar(_) => 1
    case TSet(_) => 1
    case TAny => 1
    case TFalse => 0
    case TTrue => 0
    case TNot(_) => 0
    case TAnd(_) => 0
    case TBehind(_, _) => 0
    case TRep(_) => -1
    case TCapture(_, _, p) => FixedLen(g, p, d)
    case TGrammar(rules) => if rules == [] then -1 else FixedLen(rules, rules[0], d)
    case TCall(k) => if k < |g| && d > 0 then FixedLen(g, g[k], d - 1) else -1
    case TSeq(p1, p2) =>
      var n1 := FixedLen(g, p1, d);
      if n1 < 0 then -1
      else
        var n2 := FixedLen(g, p2, d);
        if n2 < 0 then -1 else n1 + n2
    case TChoice(p1, p2) =>
      var n1 := FixedLen(g, p1, d);
      var n2 := FixedLen(g, p2, d);
      if n1 != n2 || n1 < 0 then -1 else n1
  }

  lemma {:induction false} FixedLenSound(g: seq<Tree>, t: Tree, d: nat, s: seq<Byte>, i: nat, fuel: nat)
    requires i <= |s| && FixedLen(g, t, d) >= 0
    ensures Peg(g, t, s, i, fuel).Ok? ==> Peg(g, t, s, i, fuel).pos == i + FixedLen(g, t, d)
    decreases fuel, t
  {
    match t
    case TSeq(p1, p2) =>
      FixedLenSound(g, p1, d, s, i, fuel);
      var r := Peg(g, p1, s, i, fuel);
      if r.Ok? {
        FixedLenSound(g, p2, d, s, r.pos, fuel);
      }
    case TChoice(p1, p2) =>
      FixedLenSound(g, p1, d, s, i, fuel);
      FixedLenSound(g, p2, d, s, i, fuel);
    case TCall(k) =>
      if fuel > 0 {
        FixedLenSound(g, g[k], d - 1, s, i, fuel - 1);
      }
    case TGrammar(rules) => FixedLenSound(rules, rules[0], d, s, i, fuel);
    case TCapture(_, _, p) => FixedLenSound(g, p, d, s, i, fuel);
    case _ =>
  }

  /** Whether a capture can be reached from `t`; `visited` holds the rules on the path of calls
      that led here, which are not entered again. */
  function HasCaptures(g: seq<Tree>, t: Tree, visited: set<nat>, d: nat): bool
    decreases d, t
  {
    match t
    case TCapture(_, _, _) => true
    case TRep(p) => HasCaptures(g, p, visited, d)
    case TNot(p) => HasCaptures(g, p, visited, d)
    case TAnd(p) => HasCaptures(g, p, visited, d)
    case TBehind(p, _) => HasCaptures(g, p, visited, d)
    case TSeq(p1, p2) => HasCaptures(g, p1, visited, d) || HasCaptures(g, p2, visited, d)
    case TChoice(p1, p2) => HasCaptures(g, p1, visited, d) || HasCaptures(g, p2, visited, d)
    case TGrammar(rules) => rules != [] && HasCaptures(rules, rules[0], {}, d)
    case TCall(k) =>
      if k in visited || k >= |g| then false
      else if d == 0 then true
      else HasCaptures(g, g[k], visited + {k}, d - 1)
    case _ => false
  }

  /** `t` has no capture of its own and calls only rules in `safe`. */
  ghost predicate CaptureFree(g: seq<Tree>, t: Tree, safe: set<nat>) {
    match t
    case TCapture(_, _, _) => false
    case TRep(p) => CaptureFree(g, p, safe)
    case TNot(p) => CaptureFree(g, p, safe)
    case TAnd(p) => CaptureFree(g, p, safe)
    case TBehind(p, _) => CaptureFree(g, p, safe)
    case TSeq(p1, p2) => CaptureFree(g, p1, safe) && CaptureFree(g, p2, safe)
    case TChoice(p1, p2) => CaptureFree(g, p1, safe) && CaptureFree(g, p2, safe)
    case TGrammar(rules) => rules == [] || exists d: nat :: !HasCaptures(rules, rules[0], {}, d)
    case TCall(k) => k in safe || k >= |g|
    case _ => true
  }

  /** Every rule in `closed` is free of captures and calls only rules in `safe`. */
  ghost predicate RulesCaptureFree(g: seq<Tree>, closed: set<nat>, safe: set<nat>) {
    forall k :: k in closed && k < |g| ==> CaptureFree(g, g[k], safe)
  }

  lemma {:induction false} CaptureFreeMonotone(g: seq<Tree>, t: Tree, safe: set<nat>, more: set<nat>)
    requires CaptureFree(g, t, safe) && safe <= more
    ensures CaptureFree(g, t, more)
    decreases t
  {
    match t
    case TRep(p) => CaptureFreeMonotone(g, p, safe, more);
    case TNot(p) => CaptureFreeMonotone(g, p, safe, more);
    case TAnd(p) => CaptureFreeMonotone(g, p, safe, more);
    case TBehind(p, _) => CaptureFreeMonotone(g, p, safe, more);
    case TSeq(p1, p2) => CaptureFreeMonotone(g, p1, safe, more); CaptureFreeMonotone(g, p2, safe, more);
    case TChoice(p1, p2) => CaptureFreeMonotone(g, p1, safe, more); CaptureFreeMonotone(g, p2, safe, more);
    case _ =>
  }

  lemma RulesCaptureFreeMonotone(g: seq<Tree>, closed: set<nat>, safe: set<nat>, more: set<nat>)
    requires RulesCaptureFree(g, closed, safe) && safe <= more
    ensures RulesCaptureFree(g, closed, more)
  {
    forall k | k in closed && k < |g|
      ensures CaptureFree(g, g[k], more)
    {
      CaptureFreeMonotone(g, g[k], safe, more);
    }
  }

  lemma CaptureFreeJoin(g: seq<Tree>, p1: Tree, p2: Tree, f1: set<nat>, f2: set<nat>, visited: set<nat>)
    requires CaptureFree(g, p1, f1 + visited) && RulesCaptureFree(g, f1, f1 + visited)
    requires CaptureFree(g, p2, f2 + visited) && RulesCaptureFree(g, f2, f2 + visited)
    ensures CaptureFree(g, p1, f1 + f2 + visited) && CaptureFree(g, p2, f1 + f2 + visited)
    ensures RulesCaptureFree(g, f1 + f2, f1 + f2 + visited)
  {
    CaptureFreeMonotone(g, p1, f1 + visited, f1 + f2 + visited);
    CaptureFreeMonotone(g, p2, f2 + visited, f1 + f2 + visited);
    RulesCaptureFreeMonotone(g, f1, f1 + visited, f1 + f2 + visited);
    RulesCaptureFreeMonotone(g, f2, f2 + visited, f1 + f2 + visited);
  }

  /** When the search finds no capture, the rules it entered form a closed set without captures. */
  lemma {:induction false} CaptureFreeRules(g: seq<Tree>, t: Tree, visited: set<nat>, d: nat) returns (found: set<nat>)
    requires !HasCaptures(g, t, visited, d)
    ensures CaptureFree(g, t, found + visited)
    ensures RulesCaptureFree(g, found, found + visited)
    decreases d, t
  {
    match t
    case TRep(p) => found := CaptureFreeRules(g, p, visited, d);
    case TNot(p) => found := CaptureFreeRules(g, p, visited, d);
    case TAnd(p) => found := CaptureFreeRules(g, p, visited, d);
    case TBehind(p, _) => found := CaptureFreeRules(g, p, visited, d);
    case TSeq(p1, p2) =>
      var f1 := CaptureFreeRules(g, p1, visited, d);
      var f2 := CaptureFreeRules(g, p2, visited, d);
      found := f1 + f2;
      CaptureFreeJoin(g, p1, p2, f1, f2, visited);
    case TChoice(p1, p2) =>
      var f1 := CaptureFreeRules(g, p1, visited, d);
      var f2 := CaptureFreeRules(g, p2, visited, d);
      found := f1 + f2;
      CaptureFreeJoin(g, p1, p2, f1, f2, visited);
    case TCall(k) =>
      if k in visited || k >= |g| {
        found := {};
      } else {
        found := CaptureFreeRules(g, g[k], visited + {k}, d - 1);
        assert found + (visited + {k}) == (found + {k}) + visited;
        found := found + {k};
      }
    case _ => found := {};
  }

  lemma {:induction false} CaptureFreeSound(g: seq<Tree>, t: Tree, safe: set<nat>, s: seq<Byte>, i: nat, fuel: nat)
    requires i <= |s|
    requires CaptureFree(g, t, safe) && RulesCaptureFree(g, safe, safe)
    ensures Peg(g, t, s, i, fuel).Ok? ==> Peg(g, t, s, i, fuel).caps == []
    decreases fuel, t
  {
    match t
    case TRep(p) =>
      CaptureFreeSound(g, p, safe, s, i, fuel);
      var r := Peg(g, p, s, i, fuel);
      if r.Ok? && fuel > 0 {
        CaptureFreeSound(g, t, safe, s, r.pos, fuel - 1);
      }
    case TSeq(p1, p2) =>
      CaptureFreeSound(g, p1, safe, s, i, fuel);
      var r := Peg(g, p1, s, i, fuel);
      if r.Ok? {
        CaptureFreeSound(g, p2, safe, s, r.pos, fuel);
      }
    case TChoice(p1, p2) =>
      CaptureFreeSound(g, p1, safe, s, i, fuel);
      CaptureFreeSound(g, p2, safe, s, i, fuel);
    case TCall(k) =>
      if k < |g| && fuel > 0 {
        CaptureFreeSound(g, g[k], safe, s, i, fuel - 1);
      }
    case TGrammar(rules) =>
      if rules != [] {
        var d: nat :| !HasCaptures(rules, rules[0], {}, d);
        var found := CaptureFreeRules(rules, rules[0], {}, d);
        assert found + {} == found;
        CaptureFreeSound(rules, rules[0], found, s, i, fuel);
      }
    case _ =>
  }

  /** A tree in which the search finds no capture adds nothing to the capture list. */
  lemma HasCapturesSound(g: seq<Tree>, t: Tree, d: nat, s: seq<Byte>, i: nat, fuel: nat)
    requires i <= |s| && !HasCaptures(g, t, {}, d)
    ensures Peg(g, t, s, i, fuel).Ok? ==> Peg(g, t, s, i, fuel).caps == []
  {
    var found := CaptureFreeRules(g, t, {}, d);
    assert found + {} == found;
    CaptureFreeSound(g, t, found, s, i, fuel);
  }

  /** A first set, and whether the tree may accept the empty string. */
  datatype FirstSet = FirstSet(cs: Charset, e: bool)

  function First(g: seq<Tree>, t: Tree, follow: Charset, d: nat): FirstSet
    decreases d, t
  {
    match t
    case TChar(c) => FirstSet({c}, false)
    case TSet(cs) => FirstSet(cs, false)
    case TAny => FirstSet(FULL, false)
    case TTrue => FirstSet(follow, true)
    case TFalse => FirstSet({}, false)
    case TChoice(p1, p2) =>
      var f1 := First(g, p1, follow, d);
      var f2 := First(g, p2, follow, d);
      FirstSet(f1.cs + f2.cs, f1.e || f2.e)
    case TSeq(p1, p2) =>
      if !Nullable(g, p1, d) then First(g, p1, FULL, d)
      else
        var f2 := First(g, p2, follow, d);
        var f1 := First(g, p1, f2.cs, d);
        FirstSet(f1.cs, f1.e && f2.e)
    case TRep(p) => FirstSet(First(g, p, follow, d).cs + follow, true)
    case TCapture(_, _, p) => First(g, p, follow, d)
    case TGrammar(rules) => if rules == [] then FirstSet(follow, true) else First(rules, rules[0], follow, d)
    case TCall(k) =>
      if k < |g| && d > 0 then First(g, g[k], follow, d - 1) else FirstSet(FULL, true)
    case TAnd(p) =>
      var f := First(g, p, follow, d);
      FirstSet(f.cs * follow, f.e)
    case TNot(p) =>
      if ToCharset(p).Some? then FirstSet(FULL - ToCharset(p).value, true)
      else FirstSet(follow, true)
    case TBehind(_, _) => FirstSet(follow, true)
  }

  /** The answer `r` at `i` is of no use to a continuation that starts with a byte of `follow`:
      it is a failure, or a success at `i` itself in front of a byte outside `follow`. */
  predicate Blocked(r: Result, s: seq<Byte>, i: nat, follow: Charset)
    requires i < |s|
  {
    r.Timeout? || r.Fail? || (r.pos == i && s[i] !in follow)
  }

  /** A byte outside the first set blocks the tree; at the end of the subject a tree whose set may
      be used for a test fails. */
  lemma {:induction false} FirstSound(g: seq<Tree>, t: Tree, follow: Charset, d: nat, s: seq<Byte>, i: nat, fuel: nat)
    requires i <= |s|
    ensures i < |s| && s[i] !in First(g, t, follow, d).cs ==> Blocked(Peg(g, t, s, i, fuel), s, i, follow)
    ensures i == |s| && !First(g, t, follow, d).e ==> !Peg(g, t, s, i, fuel).Ok?
    decreases fuel, t
  {
    match t
    case TChoice(p1, p2) =>
      FirstSound(g, p1, follow, d, s, i, fuel);
      FirstSound(g, p2, follow, d, s, i, fuel);
    case TSeq(p1, p2) =>
      var r := Peg(g, p1, s, i, fuel);
      if !Nullable(g, p1, d) {
        FirstSound(g, p1, FULL, d, s, i, fuel);
      } else {
        FirstSound(g, p1, First(g, p2, follow, d).cs, d, s, i, fuel);
        if r.Ok? {
          FirstSound(g, p2, follow, d, s, r.pos, fuel);
        }
      }
    case TRep(p) =>
      FirstSound(g, p, follow, d, s, i, fuel);
      var r := Peg(g, p, s, i, fuel);
      if r.Ok? && fuel > 0 {
        FirstSound(g, t, follow, d, s, r.pos, fuel - 1);
      }
    case TCapture(_, _, p) => FirstSound(g, p, follow, d, s, i, fuel);
    case TGrammar(rules) =>
      if rules != [] {
        FirstSound(rules, rules[0], follow, d, s, i, fuel);
      }
    case TCall(k) =>
      if k < |g| && d > 0 && fuel > 0 {
        FirstSound(g, g[k], follow, d - 1, s, i, fuel - 1);
      }
    case TAnd(p) => FirstSound(g, p, follow, d, s, i, fuel);
    case _ =>
  }

  function Headfail(g: seq<Tree>, t: Tree, d: nat): bool
    decreases d, t
  {
    match t
    case TChar(_) => true
    case TSet(_) => true
    case TAny => true
    case TFalse => true
    case TTrue => false
    case TRep(_) => false
    case TNot(_) => false
    case TBehind(_, _) => false
    case TCapture(_, _, p) => Headfail(g, p, d)
    case TGrammar(rules) => rules != [] && Headfail(rules, rules[0], d)
    case TAnd(p) => Headfail(g, p, d)
    case TCall(k) => k < |g| && d > 0 && Headfail(g, g[k], d - 1)
    case TSeq(p1, p2) => Nofail(g, p2, d) && Headfail(g, p1, d)
    case TChoice(p1, p2) => Headfail(g, p1, d) && Headfail(g, p2, d)
  }

  lemma {:induction false} NofailFirstEmpty(g: seq<Tree>, t: Tree, follow: Charset, d: nat)
    requires Nofail(g, t, d)
    ensures First(g, t, follow, d).e
    decreases d, t
  {
    match t
    case TSeq(p1, p2) =>
      NofailNullable(g, p1, d);
      NofailFirstEmpty(g, p2, follow, d);
      NofailFirstEmpty(g, p1, First(g, p2, follow, d).cs, d);
    case TChoice(p1, p2) =>
      if Nofail(g, p2, d) { NofailFirstEmpty(g, p2, follow, d); } else { NofailFirstEmpty(g, p1, follow, d); }
    case TAnd(p) => NofailFirstEmpty(g, p, follow, d);
    case TCapture(_, _, p) => NofailFirstEmpty(g, p, follow, d);
    case TGrammar(rules) => NofailFirstEmpty(rules, rules[0], follow, d);
    case TCall(k) => NofailFirstEmpty(g, g[k], follow, d - 1);
    case _ =>
  }

  /** A tree that never fails has every byte in its first set and accepts the empty string. */
  lemma {:induction false} NofailFirstFull(g: seq<Tree>, t: Tree, d: nat)
    requires Nofail(g, t, d)
    ensures First(g, t, FULL, d) == FirstSet(FULL, true)
    decreases d, t
  {
    NofailFirstEmpty(g, t, FULL, d);
    match t
    case TSeq(p1, p2) =>
      NofailNullable(g, p1, d);
      NofailFirstFull(g, p1, d);
      NofailFirstFull(g, p2, d);
    case TChoice(p1, p2) =>
      if Nofail(g, p2, d) { NofailFirstFull(g, p2, d); } else { NofailFirstFull(g, p1, d); }
    case TAnd(p) => NofailFirstFull(g, p, d);
    case TCapture(_, _, p) => NofailFirstFull(g, p, d);
    case TGrammar(rules) => NofailFirstFull(rules, rules[0], d);
    case TCall(k) => NofailFirstFull(g, g[k], d - 1);
    case _ =>
  }

  lemma {:induction false} HeadfailNotEmpty(g: seq<Tree>, t: Tree, follow: Charset, d: nat)
    requires Headfail(g, t, d)
    ensures !First(g, t, follow, d).e
    decreases d, t
  {
    match t
    case TSeq(p1, p2) =>
      HeadfailNotEmpty(g, p1, FULL, d);
      HeadfailNotEmpty(g, p1, First(g, p2, follow, d).cs, d);
    case TChoice(p1, p2) => HeadfailNotEmpty(g, p1, follow, d); HeadfailNotEmpty(g, p2, follow, d);
    case TAnd(p) => HeadfailNotEmpty(g, p, follow, d);
    case TCapture(_, _, p) => HeadfailNotEmpty(g, p, follow, d);
    case TGrammar(rules) => HeadfailNotEmpty(rules, rules[0], follow, d);
    case TCall(k) => HeadfailNotEmpty(g, g[k], follow, d - 1);
    case _ =>
  }

  /** A headfail tree does not fail in front of a byte of its first set. */
  lemma {:induction false} HeadfailAccepts(g: seq<Tree>, t: Tree, d: nat, s: seq<Byte>, i: nat, fuel: nat)
    requires i < |s| && Headfail(g, t, d) && s[i] in First(g, t, FULL, d).cs
    ensures !Peg(g, t, s, i, fuel).Fail?
    decreases fuel, t
  {
    match t
    case TSeq(p1, p2) =>
      NofailFirstFull(g, p2, d);
      HeadfailAccepts(g, p1, d, s, i, fuel);
      var r := Peg(g, p1, s, i, fuel);
      if r.Ok? {
        NofailSound(g, p2, d, s, r.pos, fuel);
      }
    case TChoice(p1, p2) =>
      if s[i] in First(g, p1, FULL, d).cs {
        HeadfailAccepts(g, p1, d, s, i, fuel);
      } else {
        HeadfailAccepts(g, p2, d, s, i, fuel);
      }
    case TAnd(p) => HeadfailAccepts(g, p, d, s, i, fuel);
    case TCapture(_, _, p) => HeadfailAccepts(g, p, d, s, i, fuel);
    case TGrammar(rules) => HeadfailAccepts(rules, rules[0], d, s, i, fuel);
    case TCall(k) =>
      if fuel > 0 {
        HeadfailAccepts(g, g[k], d - 1, s, i, fuel - 1);
      }
    case _ =>
  }

  /** Whether a headfail tree fails depends exactly on the next byte being in its first set. */
  lemma HeadfailSound(g: seq<Tree>, t: Tree, d: nat, s: seq<Byte>, i: nat, fuel: nat)
    requires i <= |s| && Headfail(g, t, d) && Peg(g, t, s, i, fuel) != Timeout
    ensures Peg(g, t, s, i, fuel).Fail? <==> !(i < |s| && s[i] in First(g, t, FULL, d).cs)
  {
    HeadfailNotEmpty(g, t, FULL, d);
    FirstSound(g, t, FULL, d, s, i, fuel);
    if i < |s| && s[i] in First(g, t, FULL, d).cs {
      HeadfailAccepts(g, t, d, s, i, fuel);
    }
  }

  function NeedFollow(t: Tree): bool {
    match t
    case TChoice(_, _) => true
    case TRep(_) => true
    case TCapture(_, _, p) => NeedFollow(p)
    case TSeq(_, p2) => NeedFollow(p2)
    case _ => false
  }
}
