/**
  A grammar as one flat array: its rules one after the other, each with the distance to the next, and
  calls that hold the distance to their rule.  Finishing the bodies moves no rule, so that in the
  finished array every call leads to the rule it names.
 */
module LpegRules {
  import opened LpegTree
  import opened LpegAssoc

  /** The cells behind the grammar's own, as `buildgrammar` lays them out. */
  function RuleCells(rules: seq<Tree>): (s: seq<Cell>)
    ensures |s| >= 1 && (s[0].Rule? <==> rules != [])
  {
    if rules == [] then [Leaf(TTrue)]
    else Node(Rule(|Flat(rules[0])| + 1), Flat(rules[0]), RuleCells(rules[1..]))
  }

  /** How far behind the grammar's own cell rule `r` stands, when the first stands at `i`. */
  function Position(rules: seq<Tree>, r: nat, i: nat): nat
    requires r < |rules|
  {
    if r == 0 then i else Position(rules[1..], r - 1, i + 1 + |Flat(rules[0])|)
  }

  /** The finished cells of rules the first of which stands `i` cells behind its grammar. */
  function FixedCells(rules: seq<Tree>, i: nat, table: map<nat, nat>): (s: seq<Cell>)
    ensures |s| == |RuleCells(rules)|
  {
    if rules == [] then [Leaf(TTrue)]
    else Node(Rule(|Flat(rules[0])| + 1), Placed(Fixed(rules[0]), i + 1, table), FixedCells(rules[1..], i + 1 + |Flat(rules[0])|, table))
  }

  /** All names called, from left to right. */
  function AllNames(rules: seq<Tree>): seq<nat> {
    if rules == [] then [] else Names(rules[0]) + AllNames(rules[1..])
  }

  lemma RuleParts(s: seq<Cell>, i: nat, rules: seq<Tree>)
    requires rules != [] && i + |RuleCells(rules)| <= |s| && s[i..i + |RuleCells(rules)|] == RuleCells(rules)
    ensures var n, m := |Flat(rules[0])|, |RuleCells(rules)|;
            && s[i] == Rule(n + 1) && m == 1 + n + |RuleCells(rules[1..])|
            && s[i + 1..i + 1 + n] == Flat(rules[0]) && s[i + 1 + n..i + m] == RuleCells(rules[1..])
  {
    hide Flat, RuleCells;
    RuleCellsIs(rules);
    PartsAt(s, i, Rule(|Flat(rules[0])| + 1), Flat(rules[0]), RuleCells(rules[1..]));
  }

  lemma RuleCellsIs(rules: seq<Tree>)
    requires rules != []
    ensures RuleCells(rules) == Node(Rule(|Flat(rules[0])| + 1), Flat(rules[0]), RuleCells(rules[1..]))
  {
    hide Flat, Node;
  }

  /** `finalfix` on the rules of the grammar at `g`, from the one at `i` on. */
  method FixRules(a: array<Cell>, keys: array<nat>, g: nat, i: nat, table: map<nat, nat>, ghost rules: seq<Tree>) returns (unknown: Option<nat>)
    requires g < i && i + |RuleCells(rules)| <= a.Length == keys.Length && a[i..i + |RuleCells(rules)|] == RuleCells(rules)
    requires TableOk(table, g, a.Length)
    modifies a, keys
    ensures unknown == FirstUnknown(AllNames(rules), table)
    ensures unknown.None? ==> a[i..i + |RuleCells(rules)|] == FixedCells(rules, i - g, table)
    ensures unknown.None? ==> keys[..] == Marked(old(keys[..]), AllNames(rules), table, g)
    ensures forall j :: 0 <= j < a.Length && !(i <= j < i + |RuleCells(rules)|) ==> a[j] == old(a[j])
    decreases |rules|, 0
  {
    hide Flat, Fixed, Placed, Marked, FirstUnknown, RuleCells, FixedCells, Names;
    ghost var m := |RuleCells(rules)|;
    assert a[i] == a[i..i + m][0];
    if !a[i].Rule? {
      NoRules(rules, i - g, table, keys[..], g);
      return None;
    }
    RuleParts(a[..], i, rules);
    FirstUnknownConcat(Names(rules[0]), AllNames(rules[1..]), table);
    MarkedConcat(keys[..], Names(rules[0]), AllNames(rules[1..]), table, g);
    unknown := FixRule(a, keys, g, i, table, |Flat(rules[0])|, rules);
  }

  /** One rule, and then the next one. */
  method FixRule(a: array<Cell>, keys: array<nat>, g: nat, i: nat, table: map<nat, nat>, ghost n: nat, ghost rules: seq<Tree>) returns (unknown: Option<nat>)
    requires rules != [] && g < i && n == |Flat(rules[0])| && TableOk(table, g, a.Length)
    requires i + 1 + n + |RuleCells(rules[1..])| <= a.Length == keys.Length && a[i] == Rule(n + 1)
    requires a[i + 1..i + 1 + n] == Flat(rules[0]) && a[i + 1 + n..i + 1 + n + |RuleCells(rules[1..])|] == RuleCells(rules[1..])
    modifies a, keys
    ensures unknown == if FirstUnknown(Names(rules[0]), table).Some? then FirstUnknown(Names(rules[0]), table) else FirstUnknown(AllNames(rules[1..]), table)
    ensures unknown.None? ==> a[i..i + 1 + n + |RuleCells(rules[1..])|] == FixedCells(rules, i - g, table)
    ensures unknown.None? ==> keys[..] == Marked(Marked(old(keys[..]), Names(rules[0]), table, g), AllNames(rules[1..]), table, g)
    ensures forall j :: 0 <= j < a.Length && !(i <= j < i + 1 + n + |RuleCells(rules[1..])|) ==> a[j] == old(a[j])
    decreases |rules| - 1, 1
  {
    hide Flat, Fixed, Placed, Marked, FirstUnknown, RuleCells, FixedCells, Names, AllNames, TableOk;
    ghost var m := 1 + n + |RuleCells(rules[1..])|;
    ghost var s0 := a[..];
    unknown := FinalFix(a, keys, g, i + 1, table, rules[0]);
    if unknown.Some? {
      return;
    }
    ghost var s1 := a[..];
    Kept(s0, s1, i + 1 + n, i + m);
    unknown := FixRules(a, keys, g, i + a[i].ps, table, rules[1..]);
    if unknown.None? {
      Kept(s1, a[..], i + 1, i + 1 + n);
      FixedJoined(a[..], i, n, m, rules, i - g, table);
    }
  }

  lemma FixedJoined(s: seq<Cell>, i: nat, n: nat, m: nat, rules: seq<Tree>, at: nat, table: map<nat, nat>)
    requires rules != [] && n == |Flat(rules[0])| && m == 1 + n + |RuleCells(rules[1..])| && i + m <= |s| && s[i] == Rule(n + 1)
    requires s[i + 1..i + 1 + n] == Placed(Fixed(rules[0]), at + 1, table)
    requires s[i + 1 + n..i + m] == FixedCells(rules[1..], at + 1 + n, table)
    ensures s[i..i + m] == FixedCells(rules, at, table)
  {
    hide Flat, Fixed, Placed, RuleCells, FixedCells;
    Three(s, i, n, m);
    FixedCellsIs(rules, at, table);
  }

  lemma NoRules(rules: seq<Tree>, i: nat, table: map<nat, nat>, keys: seq<nat>, g: nat)
    requires rules == []
    ensures RuleCells(rules) == FixedCells(rules, i, table) && FirstUnknown(AllNames(rules), table) == None
    ensures Marked(keys, AllNames(rules), table, g) == keys
  {
  }

  lemma FixedCellsIs(rules: seq<Tree>, i: nat, table: map<nat, nat>)
    requires rules != []
    ensures FixedCells(rules, i, table) ==
      Node(Rule(|Flat(rules[0])| + 1), Placed(Fixed(rules[0]), i + 1, table), FixedCells(rules[1..], i + 1 + |Flat(rules[0])|, table))
  {
    hide Flat, Fixed, Placed, Node;
  }

  // ----- every call leads to its rule -----

  /** The rules still stand where they stood. */
  lemma {:induction false} RuleStands(rules: seq<Tree>, r: nat, i: nat, table: map<nat, nat>)
    requires r < |rules|
    ensures var x := Position(rules, r, i) - i;
            && 0 <= x < |RuleCells(rules)|
            && RuleCells(rules)[x] == FixedCells(rules, i, table)[x] == Rule(|Flat(rules[r])| + 1)
    decreases r
  {
    hide Flat, Placed, Fixed, RuleCells, FixedCells, Node;
    var n := |Flat(rules[0])|;
    RuleCellsIs(rules);
    FixedCellsIs(rules, i, table);
    var x := Position(rules, r, i) - i;
    NodeAt(Rule(n + 1), Flat(rules[0]), RuleCells(rules[1..]));
    NodeAt(Rule(n + 1), Placed(Fixed(rules[0]), i + 1, table), FixedCells(rules[1..], i + 1 + n, table));
    if r > 0 {
      RuleStands(rules[1..], r - 1, i + 1 + n, table);
      assert x - 1 - n == Position(rules[1..], r - 1, i + 1 + n) - (i + 1 + n);
      assert RuleCells(rules)[1 + n + (x - 1 - n)] == RuleCells(rules[1..])[x - 1 - n];
      assert FixedCells(rules, i, table)[1 + n + (x - 1 - n)] == FixedCells(rules[1..], i + 1 + n, table)[x - 1 - n];
    }
  }

  lemma NodeAt(x: Cell, a: seq<Cell>, b: seq<Cell>)
    ensures Node(x, a, b)[0] == x
    ensures forall k :: 0 <= k < |a| ==> Node(x, a, b)[1 + k] == a[k]
    ensures forall k :: 0 <= k < |b| ==> Node(x, a, b)[1 + |a| + k] == b[k]
  {
  }

  lemma {:induction false} PositionsApart(rules: seq<Tree>, q: nat, r: nat, i: nat)
    requires q < r < |rules|
    ensures i <= Position(rules, q, i) < Position(rules, r, i)
    decreases r
  {
    hide Flat;
    if q > 0 { PositionsApart(rules[1..], q - 1, r - 1, i + 1 + |Flat(rules[0])|); }
    else { PositionFrom(rules[1..], r - 1, i + 1 + |Flat(rules[0])|); }
  }

  lemma {:induction false} PositionFrom(rules: seq<Tree>, r: nat, i: nat)
    requires r < |rules|
    ensures Position(rules, r, i) >= i
    decreases r
  {
    hide Flat;
    if r > 0 { PositionFrom(rules[1..], r - 1, i + 1 + |Flat(rules[0])|); }
  }

  /** A call in finished cells leads to the position of a name that the tree calls. */
  lemma {:induction false} CallTarget(t: Tree, i: int, table: map<nat, nat>, x: nat)
    requires x < |Flat(t)| && Placed(t, i, table)[x].Call?
    ensures exists k :: k in Names(t) && k in table && i + x + Placed(t, i, table)[x].away == table[k]
    decreases t
  {
    hide Flat, Placed, Names;
    if IsTwo(t) {
      TwoCells(t);
      var n := |Flat(t.p1)|;
      PlacedTwo(t, i, table);
      NamesTwo(t);
      if x <= n { CallTarget(t.p1, i + 1, table, x - 1); } else { CallTarget(t.p2, i + 1 + n, table, x - 1 - n); }
    } else if IsOne(t) {
      OneCell(t);
      OnePlaced(t, i, table);
      CallTarget(Child(t), i + 1, table, x - 1);
    } else {
      LeafTarget(t, i, table, x);
    }
  }

  lemma LeafTarget(t: Tree, i: int, table: map<nat, nat>, x: nat)
    requires !IsTwo(t) && !IsOne(t) && x < |Flat(t)| && Placed(t, i, table)[x].Call?
    ensures t.TCall? && t.rule in Names(t) && t.rule in table && i + x + Placed(t, i, table)[x].away == table[t.rule]
  {
  }

  lemma {:induction false} FixedNames(t: Tree)
    ensures Names(Fixed(t)) == Names(t)
    decreases |Flat(t)|
  {
    hide Flat, Rotated, Names;
    if IsTwo(t) {
      var u := Rotated(t);
      TwoCells(u);
      FixedNames(u.p1);
      FixedNames(u.p2);
      FixedOp(t);
      NamesTwo(u);
      NamesTwo(Fixed(t));
      RotatedNames(t, map[]);
    } else if IsOne(t) {
      FixedChild(t);
      FixedNames(Child(t));
      OneCell(t);
      OneCell(Fixed(t));
    } else {
      FixedLeaf(t);
    }
  }

  lemma {:induction false} RuleCallTarget(rules: seq<Tree>, i: nat, table: map<nat, nat>, x: nat)
    requires x < |FixedCells(rules, i, table)| && FixedCells(rules, i, table)[x].Call?
    ensures exists k :: k in AllNames(rules) && k in table && i + x + FixedCells(rules, i, table)[x].away == table[k]
    decreases |rules|
  {
    hide Flat, Placed, Fixed, Names;
    var n := |Flat(rules[0])|;
    var body := Placed(Fixed(rules[0]), i + 1, table);
    if x <= n {
      assert FixedCells(rules, i, table)[x] == body[x - 1];
      CallTarget(Fixed(rules[0]), i + 1, table, x - 1);
      FixedNames(rules[0]);
    } else {
      RuleCallTarget(rules[1..], i + 1 + n, table, x - 1 - n);
    }
  }

  /** The table of a grammar: by name, where its rule stands. */
  function TableOf(rules: seq<Tree>, names: map<nat, nat>): map<nat, nat>
    requires forall k :: k in names ==> names[k] < |rules|
  {
    map k | k in names :: Position(rules, names[k], 1)
  }

  /** In the finished array every call leads to the cell of a rule that the grammar calls by a name of it. */
  lemma CallsReachRules(rules: seq<Tree>, names: map<nat, nat>, x: nat)
    requires forall k :: k in names ==> names[k] < |rules|
    requires x < |RuleCells(rules)| && FixedCells(rules, 1, TableOf(rules, names))[x].Call?
    ensures var cells := FixedCells(rules, 1, TableOf(rules, names));
            var y := x + cells[x].away;
            0 <= y < |cells| && exists k :: k in AllNames(rules) && k in names && cells[y] == Rule(|Flat(rules[names[k]])| + 1) && y + 1 == Position(rules, names[k], 1)
  {
    hide Flat, Placed, Fixed, Names, Position, FixedCells, RuleCells, AllNames;
    var table := TableOf(rules, names);
    RuleCallTarget(rules, 1, table, x);
    var k :| k in AllNames(rules) && k in table && 1 + x + FixedCells(rules, 1, table)[x].away == table[k];
    RuleStands(rules, names[k], 1, table);
  }

  /** Which rule stands where. */
  ghost function RulesAt(rules: seq<Tree>): map<int, nat> {
    var ps: set<int> := set r | 0 <= r < |rules| :: Position(rules, r, 1) as int;
    map p: int | p in ps :: RuleOf(rules, p)
  }

  ghost function RuleOf(rules: seq<Tree>, p: int): (r: nat)
    requires exists r: nat :: r < |rules| && Position(rules, r, 1) == p
    ensures r < |rules| && Position(rules, r, 1) == p
  {
    var r: nat :| r < |rules| && Position(rules, r, 1) == p;
    r
  }

  lemma RulesAtIs(rules: seq<Tree>, r: nat)
    requires r < |rules|
    ensures Position(rules, r, 1) in RulesAt(rules) && RulesAt(rules)[Position(rules, r, 1)] == r
  {
    hide Position;
    forall q | 0 <= q < |rules| && q != r ensures Position(rules, q, 1) != Position(rules, r, 1) {
      if q < r { PositionsApart(rules, q, r, 1); } else { PositionsApart(rules, r, q, 1); }
    }
  }

  /** And it is the rule of the call's own name: read back, each finished body is the rotated body with its names resolved. */
  lemma BodiesReadBack(rules: seq<Tree>, names: map<nat, nat>, t: Tree, i: int)
    requires forall k :: k in names ==> names[k] < |rules|
    ensures ReadBack(Placed(Fixed(t), i, TableOf(rules, names)), i, RulesAt(rules)) == Flat(FixedBy(t, names))
  {
    hide Position, Flat, Placed, Fixed, FixedBy, RulesAt;
    forall k | k in names ensures TableOf(rules, names)[k] in RulesAt(rules) && RulesAt(rules)[TableOf(rules, names)[k]] == names[k] {
      RulesAtIs(rules, names[k]);
    }
    FixedLead(t, i, TableOf(rules, names), names, RulesAt(rules));
  }
}
