/**
  Pattern trees of LPeg and their meaning as parsing expressions.

  A tree is a value here (the program keeps it as a flat array of nodes), with one constructor
  per node tag; a rule list is a sequence and a call names its rule by number in the innermost
  enclosing grammar.  Run-time captures are not modelled.
 */
module LpegTree {

  type Byte = b: int | 0 <= b < 256

  type Charset = set<Byte>

  /** The charset with every byte. */
  const FULL: Charset := set b: Byte | 0 <= b < 256

  datatype Option<+T> = None | Some(value: T)

  datatype Tree =
    | TChar(c: Byte)
    | TSet(cs: Charset)
    | TAny
    | TTrue
    | TFalse
    | TRep(p: Tree)
    | TSeq(p1: Tree, p2: Tree)
    | TChoice(p1: Tree, p2: Tree)
    | TNot(p: Tree)
    | TAnd(p: Tree)
    | TCall(rule: nat)
    | TGrammar(rules: seq<Tree>)
    | TBehind(p: Tree, n: nat)
    | TCapture(kind: nat, key: nat, p: Tree)

  /** One entry of the capture list: `siz` is 0 for an open entry, 1 for a closing entry and
      length plus one for a capture that fits in a single entry. */
  datatype Capture = Capture(kind: nat, idx: nat, s: nat, siz: nat)

  const CCLOSE: nat := 0
  const UCHAR_MAX: nat := 255

  datatype Result =
    | Timeout                                  // the fuel ran out: no answer
    | Fail
    | Ok(pos: nat, caps: seq<Capture>)

  /** The entries a capture of `s[i..j]` adds when its body added `inner`. */
  function Captured(kind: nat, key: nat, i: nat, j: nat, inner: seq<Capture>): seq<Capture>
    requires i <= j
  {
    if inner == [] && j - i < UCHAR_MAX then
      [Capture(kind, key, i, j - i + 1)]
    else
      [Capture(kind, key, i, 0)] + inner + [Capture(CCLOSE, 0, j, 1)]
  }

  /** The first entries of the answer `r`'s capture list are `caps`. */
  function Prepend(caps: seq<Capture>, r: Result): Result {
    if r.Ok? then Ok(r.pos, caps + r.caps) else r
  }

  /**
    What pattern `t`, inside a grammar with rules `g`, does at position `i` of subject `s`.
    This is the usual definition of parsing expressions.  Every call and every further turn of a
    repetition uses a unit of fuel; an answer other than `Timeout` does not depend on the fuel
    (see `FuelIrrelevant`).
   */
  function Peg(g: seq<Tree>, t: Tree, s: seq<Byte>, i: nat, fuel: nat): (r: Result)
    requires i <= |s|
    ensures r.Ok? ==> i <= r.pos <= |s|
    decreases fuel, t
  {
    match t
    case TChar(c) => if i < |s| && s[i] == c then Ok(i + 1, []) else Fail
    case TSet(cs) => if i < |s| && s[i] in cs then Ok(i + 1, []) else Fail
    case TAny => if i < |s| then Ok(i + 1, []) else Fail
    case TTrue => Ok(i, [])
    case TFalse => Fail
    case TRep(p) =>
      var r := Peg(g, p, s, i, fuel);
      if r.Timeout? then Timeout
      else if r.Fail? then Ok(i, [])
      else if fuel == 0 then Timeout
      else Prepend(r.caps, Peg(g, t, s, r.pos, fuel - 1))
    case TSeq(p1, p2) =>
      var r := Peg(g, p1, s, i, fuel);
      if r.Ok? then Prepend(r.caps, Peg(g, p2, s, r.pos, fuel)) else r
    case TChoice(p1, p2) =>
      var r := Peg(g, p1, s, i, fuel);
      if r.Fail? then Peg(g, p2, s, i, fuel) else r
    case TNot(p) =>
      var r := Peg(g, p, s, i, fuel);
      if r.Timeout? then Timeout else if r.Fail? then Ok(i, []) else Fail
    case TAnd(p) =>
      var r := Peg(g, p, s, i, fuel);
      if r.Ok? then Ok(i, []) else r
    case TCall(k) =>
      if k >= |g| then Fail
      else if fuel == 0 then Timeout
      else Peg(g, g[k], s, i, fuel - 1)
    case TGrammar(rules) =>
      if rules == [] then Fail else Peg(rules, rules[0], s, i, fuel)
    case TBehind(p, n) =>
      if n > i then Fail
      else
        var r := Peg(g, p, s, i - n, fuel);
        if r.Ok? then Ok(i, []) else r
    case TCapture(kind, key, p) =>
      var r := Peg(g, p, s, i, fuel);
      if r.Ok? then Ok(r.pos, Captured(kind, key, i, r.pos, r.caps)) else r
  }

  /** More fuel never changes an answer. */
  lemma {:induction false} FuelIrrelevant(g: seq<Tree>, t: Tree, s: seq<Byte>, i: nat, fuel: nat, more: nat)
    requires i <= |s| && fuel <= more
    requires Peg(g, t, s, i, fuel) != Timeout
    ensures Peg(g, t, s, i, more) == Peg(g, t, s, i, fuel)
    decreases fuel, t
  {
    match t
    case TRep(p) =>
      FuelIrrelevant(g, p, s, i, fuel, more);
      var r := Peg(g, p, s, i, fuel);
      if r.Ok? && fuel > 0 {
        FuelIrrelevant(g, t, s, r.pos, fuel - 1, more - 1);
      }
    case TSeq(p1, p2) =>
      FuelIrrelevant(g, p1, s, i, fuel, more);
      var r := Peg(g, p1, s, i, fuel);
      if r.Ok? {
        FuelIrrelevant(g, p2, s, r.pos, fuel, more);
      }
    case TChoice(p1, p2) =>
      FuelIrrelevant(g, p1, s, i, fuel, more);
      if Peg(g, p1, s, i, fuel).Fail? {
        FuelIrrelevant(g, p2, s, i, fuel, more);
      }
    case TNot(p) => FuelIrrelevant(g, p, s, i, fuel, more);
    case TAnd(p) => FuelIrrelevant(g, p, s, i, fuel, more);
    case TCall(k) =>
      if k < |g| && fuel > 0 {
        FuelIrrelevant(g, g[k], s, i, fuel - 1, more - 1);
      }
    case TGrammar(rules) =>
      if rules != [] {
        FuelIrrelevant(rules, rules[0], s, i, fuel, more);
      }
    case TBehind(p, n) =>
      if n <= i {
        FuelIrrelevant(g, p, s, i - n, fuel, more);
      }
    case TCapture(_, _, p) => FuelIrrelevant(g, p, s, i, fuel, more);
    case _ =>
  }
}
