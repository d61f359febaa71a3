/**
  Trees as the program keeps them: one flat array of cells, first child right behind its parent,
  second child at a relative position.  Left-associated sequences and choices are rotated in place
  into right-associated ones, which means the same.
 */
module LpegAssoc {
  import opened LpegTree

  /**
    A cell: a node with two children and the relative position of the second, a node with one child, a
    leaf, a call with the relative position of its rule, or a rule with that of the next one.  A call
    by name is a leaf.
   */
  datatype Cell =
    | Two(choice: bool, ps: nat)
    | One(node: Tree)
    | Leaf(node: Tree)
    | Call(away: int)
    | Rule(ps: nat)

  predicate IsTwo(t: Tree) {
    t.TSeq? || t.TChoice?
  }

  predicate IsOne(t: Tree) {
    t.TRep? || t.TNot? || t.TAnd? || t.TBehind? || t.TCapture?
  }

  /** The only child of a node with one child. */
  function Child(t: Tree): (p: Tree)
    requires IsOne(t)
    ensures p < t
  {
    t.p
  }

  /** A node with one child, without it. */
  function Bare(t: Tree): Tree
    requires IsOne(t)
  {
    match t
    case TRep(_) => TRep(TTrue)
    case TNot(_) => TNot(TTrue)
    case TAnd(_) => TAnd(TTrue)
    case TBehind(_, n) => TBehind(TTrue, n)
    case TCapture(kind, key, _) => TCapture(kind, key, TTrue)
  }

  function WithChild(b: Tree, p: Tree): Tree
    requires IsOne(b)
  {
    match b
    case TRep(_) => TRep(p)
    case TNot(_) => TNot(p)
    case TAnd(_) => TAnd(p)
    case TBehind(_, n) => TBehind(p, n)
    case TCapture(kind, key, _) => TCapture(kind, key, p)
  }

  function Op(choice: bool, a: Tree, b: Tree): Tree {
    if choice then TChoice(a, b) else TSeq(a, b)
  }

  /** The cells of a tree.  A grammar inside it has been finished before and is one cell here. */
  function Flat(t: Tree): (s: seq<Cell>)
    ensures |s| >= 1
    ensures s[0].Two? <==> IsTwo(t)
    ensures s[0].Two? ==> s[0].choice == t.TChoice?
  {
    if IsTwo(t) then [Two(t.TChoice?, |Flat(t.p1)| + 1)] + Flat(t.p1) + Flat(t.p2)
    else if IsOne(t) then [One(Bare(t))] + Flat(Child(t))
    else [Leaf(t)]
  }

  // ----- rotation -----

  predicate Same(t: Tree, p: Tree) {
    (t.TSeq? && p.TSeq?) || (t.TChoice? && p.TChoice?)
  }

  /** One turn: `Op (Op t11 t12) t2` becomes `Op t11 (Op t12 t2)`. */
  function Turn(t: Tree): (r: Tree)
    requires IsTwo(t) && Same(t, t.p1)
    ensures IsTwo(r) && Same(t, r) && |Flat(r)| == |Flat(t)| && |Flat(r.p1)| < |Flat(t.p1)|
  {
    Op(t.TChoice?, t.p1.p1, Op(t.TChoice?, t.p1.p2, t.p2))
  }

  /** Turned until the first child is a different operation. */
  function Rotated(t: Tree): (r: Tree)
    requires IsTwo(t)
    ensures IsTwo(r) && !Same(r, r.p1) && |Flat(r)| == |Flat(t)| && r.TChoice? == t.TChoice?
    decreases |Flat(t.p1)|
  {
    if Same(t, t.p1) then Rotated(Turn(t)) else t
  }

  lemma PrependTwice(a: seq<Capture>, b: seq<Capture>, r: Result)
    ensures Prepend(a, Prepend(b, r)) == Prepend(a + b, r)
  {
    if r.Ok? { assert a + (b + r.caps) == a + b + r.caps; }
  }

  lemma TurnMeans(g: seq<Tree>, t: Tree, s: seq<Byte>, i: nat, fuel: nat)
    requires IsTwo(t) && Same(t, t.p1) && i <= |s|
    ensures Peg(g, Turn(t), s, i, fuel) == Peg(g, t, s, i, fuel)
  {
    if t.TSeq? {
      var r1 := Peg(g, t.p1.p1, s, i, fuel);
      if r1.Ok? {
        var r2 := Peg(g, t.p1.p2, s, r1.pos, fuel);
        if r2.Ok? { PrependTwice(r1.caps, r2.caps, Peg(g, t.p2, s, r2.pos, fuel)); }
      }
    }
  }

  lemma {:induction false} RotatedMeans(g: seq<Tree>, t: Tree, s: seq<Byte>, i: nat, fuel: nat)
    requires IsTwo(t) && i <= |s|
    ensures Peg(g, Rotated(t), s, i, fuel) == Peg(g, t, s, i, fuel)
    decreases |Flat(t.p1)|
  {
    hide Peg;
    if Same(t, t.p1) {
      TurnMeans(g, t, s, i, fuel);
      RotatedMeans(g, Turn(t), s, i, fuel);
    }
  }

  /** Move `n` cells one place down, as memmove does. */
  method MoveDown(a: array<Cell>, i: nat, n: nat)
    requires i + 1 + n <= a.Length
    modifies a
    ensures forall j :: i <= j < i + n ==> a[j] == old(a[j + 1])
    ensures forall j :: 0 <= j < a.Length && !(i <= j < i + n) ==> a[j] == old(a[j])
  {
    var k := 0;
    while k < n
      invariant 0 <= k <= n
      invariant forall j :: i <= j < i + k ==> a[j] == old(a[j + 1])
      invariant forall j :: 0 <= j < a.Length && !(i <= j < i + k) ==> a[j] == old(a[j])
    {
      a[i + k] := a[i + k + 1];
      k := k + 1;
    }
  }

  /** The cells of a turned tree, from those of the tree. */
  lemma TurnCells(t: Tree)
    requires IsTwo(t) && Same(t, t.p1)
    ensures var f, op := Flat(t), t.TChoice?;
            var n11, n12 := |Flat(t.p1.p1)|, |Flat(t.p1.p2)|;
            && f[0] == Two(op, n11 + n12 + 2) && f[1] == Two(op, n11 + 1) && |f| > n11 + 2
            && Flat(Turn(t)) == [Two(op, n11 + 1)] + f[2..n11 + 2] + [Two(op, n12 + 1)] + f[n11 + 2..]
  {
    hide Flat;
    var op, a, b, c := t.TChoice?, Flat(t.p1.p1), Flat(t.p1.p2), Flat(t.p2);
    TwoCells(t);
    TwoCells(t.p1);
    TwoCells(Turn(t));
    TwoCells(Turn(t).p2);
    CellsAlgebra(Two(op, |a| + |b| + 2), Two(op, |a| + 1), a, b, c);
    CellsRegroup(Two(op, |a| + 1), a, Two(op, |b| + 1), b, c);
  }

  lemma CellsRegroup(x: Cell, a: seq<Cell>, y: Cell, b: seq<Cell>, c: seq<Cell>)
    ensures [x] + a + ([y] + b + c) == [x] + a + [y] + (b + c)
  {
  }

  lemma TwoCells(t: Tree)
    requires IsTwo(t)
    ensures Flat(t) == [Two(t.TChoice?, |Flat(t.p1)| + 1)] + Flat(t.p1) + Flat(t.p2)
  {
  }

  lemma CellsAlgebra(x: Cell, y: Cell, a: seq<Cell>, b: seq<Cell>, c: seq<Cell>)
    ensures var f := [x] + ([y] + a + b) + c;
            f[0] == x && f[1] == y && f[2..|a| + 2] == a && f[|a| + 2..] == b + c
  {
  }

  /** `correctassociativity`, on the cells from `i` on. */
  method CorrectAssociativity(a: array<Cell>, i: nat, ghost t: Tree)
    requires IsTwo(t) && i + |Flat(t)| <= a.Length && a[i..i + |Flat(t)|] == Flat(t)
    modifies a
    ensures a[i..i + |Flat(t)|] == Flat(Rotated(t))
    ensures forall j :: 0 <= j < a.Length && !(i <= j < i + |Flat(t)|) ==> a[j] == old(a[j])
  {
    hide Flat, Rotated, Turn;
    ghost var u, n := t, |Flat(t)|;
    Child1(a[i..i + n], u);
    while a[i + 1].Two? && a[i + 1].choice == a[i].choice
      invariant IsTwo(u) && |Flat(u)| == n && Rotated(u) == Rotated(t) && n >= 3
      invariant a[i..i + n] == Flat(u) && a[i] == Flat(u)[0] && a[i + 1] == Flat(u)[1]
      invariant forall j :: 0 <= j < a.Length && !(i <= j < i + n) ==> a[j] == old(a[j])
      decreases |Flat(u.p1)|
    {
      Child1(a[i..i + n], u);
      TurnCells(u);
      RotatedTurn(u);
      TurnAt(a, i, n, u);
      u := Turn(u);
      Child1(a[i..i + n], u);
    }
    Child1(a[i..i + n], u);
    RotatedDone(u);
  }

  /** One turn in place. */
  method TurnAt(a: array<Cell>, i: nat, ghost n: nat, ghost u: Tree)
    requires IsTwo(u) && Same(u, u.p1) && n == |Flat(u)| && i + n <= a.Length && a[i..i + n] == Flat(u)
    modifies a
    ensures a[i..i + n] == Flat(Turn(u))
    ensures forall j :: 0 <= j < a.Length && !(i <= j < i + n) ==> a[j] == old(a[j])
  {
    hide Flat, Turn;
    TurnCells(u);
    ghost var before := a[..];
    assert before[i..i + n] == Flat(u);
    assert a[i] == Flat(u)[0] && a[i + 1] == Flat(u)[1];
    var n1size := a[i].ps - 1;
    var n11size := a[i + 1].ps - 1;
    var n12size := n1size - n11size - 1;
    MoveDown(a, i + 1, n11size);
    a[i] := a[i].(ps := n11size + 1);
    a[i + n11size + 1] := Two(a[i].choice, n12size + 1);
    TurnedInPlace(before, a[..], i, u);
    assert a[..][i..i + n] == a[i..i + n];
  }

  /** The effect of one turn on the whole array. */
  lemma TurnedInPlace(before: seq<Cell>, after: seq<Cell>, i: nat, u: Tree)
    requires IsTwo(u) && Same(u, u.p1) && i + |Flat(u)| <= |before| == |after| && before[i..i + |Flat(u)|] == Flat(u)
    requires var n11, n12, op := |Flat(u.p1.p1)|, |Flat(u.p1.p2)|, u.TChoice?;
             && i + n11 + 2 < |before| && after[i] == Two(op, n11 + 1) && after[i + n11 + 1] == Two(op, n12 + 1)
             && (forall j :: i + 1 <= j < i + 1 + n11 ==> after[j] == before[j + 1])
             && (forall j :: i + n11 + 2 <= j < |after| ==> after[j] == before[j])
    ensures after[i..i + |Flat(u)|] == Flat(Turn(u))
  {
    hide Flat, Turn;
    TurnCells(u);
    var f, r, n11 := Flat(u), Flat(Turn(u)), |Flat(u.p1.p1)|;
    forall k | 0 <= k < |f| ensures after[i + k] == r[k] {
      assert before[i..i + |f|][k] == before[i + k];
      TurnedCell(r[0], r[n11 + 1], f, n11, r, k);
      if 1 <= k <= n11 {
        assert before[i..i + |f|][k + 1] == before[i + (k + 1)];
      }
    }
  }

  lemma TurnedCell(x: Cell, y: Cell, f: seq<Cell>, m: nat, r: seq<Cell>, k: nat)
    requires m + 2 < |f| && k < |f| && r == [x] + f[2..m + 2] + [y] + f[m + 2..]
    ensures |r| == |f| && r[k] == if k == 0 then x else if k <= m then f[k + 1] else if k == m + 1 then y else f[k]
  {
  }

  lemma Child1(c: seq<Cell>, u: Tree)
    requires IsTwo(u) && c == Flat(u)
    ensures |c| >= 3 && c[0].Two? && c[0].choice == u.TChoice?
    ensures c[1].Two? && c[1].choice == c[0].choice <==> Same(u, u.p1)
  {
    TwoCells(u);
    assert c[1] == Flat(u.p1)[0];
  }

  lemma RotatedTurn(u: Tree)
    requires IsTwo(u) && Same(u, u.p1)
    ensures Rotated(Turn(u)) == Rotated(u)
  {
  }

  lemma RotatedDone(u: Tree)
    requires IsTwo(u) && !Same(u, u.p1)
    ensures Rotated(u) == u
  {
  }

  // ----- finalfix -----

  /** Every sequence and choice outside inner grammars rotated. */
  function Fixed(t: Tree): (r: Tree)
    ensures |Flat(r)| == |Flat(t)| && IsTwo(r) == IsTwo(t) && IsOne(r) == IsOne(t)
    ensures IsTwo(t) ==> r.TChoice? == t.TChoice?
    decreases |Flat(t)|
  {
    if IsTwo(t) then
      var u := Rotated(t);
      Op(u.TChoice?, Fixed(u.p1), Fixed(u.p2))
    else if IsOne(t) then WithChild(t, Fixed(Child(t)))
    else t
  }

  /** No sequence has a sequence as its first child, and no choice a choice. */
  predicate RightAssociated(t: Tree)
    decreases t
  {
    if IsTwo(t) then !Same(t, t.p1) && RightAssociated(t.p1) && RightAssociated(t.p2)
    else if IsOne(t) then RightAssociated(Child(t))
    else true
  }

  lemma {:induction false} FixedIsRightAssociated(t: Tree)
    ensures RightAssociated(Fixed(t))
    decreases |Flat(t)|
  {
    if IsTwo(t) {
      var u := Rotated(t);
      FixedIsRightAssociated(u.p1);
      FixedIsRightAssociated(u.p2);
    } else if IsOne(t) {
      FixedIsRightAssociated(Child(t));
    }
  }

  function FixedRules(g: seq<Tree>): (r: seq<Tree>)
    ensures |r| == |g| && forall k :: 0 <= k < |g| ==> r[k] == Fixed(g[k])
  {
    seq(|g|, k requires 0 <= k < |g| => Fixed(g[k]))
  }

  /** The fixed tree, in the fixed grammar, means the same. */
  lemma {:induction false} FixedMeans(g: seq<Tree>, t: Tree, s: seq<Byte>, i: nat, fuel: nat)
    requires i <= |s|
    ensures Peg(FixedRules(g), Fixed(t), s, i, fuel) == Peg(g, t, s, i, fuel)
    decreases fuel, |Flat(t)|, 1
  {
    hide Fixed, Flat;
    if IsTwo(t) {
      FixedTwo(g, t, s, i, fuel);
    } else if IsOne(t) {
      FixedUnary(g, t, s, i, fuel);
    } else {
      FixedLeaf(t);
      if t.TCall? && t.rule < |g| && fuel > 0 {
        FixedMeans(g, g[t.rule], s, i, fuel - 1);
      }
    }
  }

  lemma {:induction false} FixedUnary(g: seq<Tree>, t: Tree, s: seq<Byte>, i: nat, fuel: nat)
    requires IsOne(t) && i <= |s|
    ensures Peg(FixedRules(g), Fixed(t), s, i, fuel) == Peg(g, t, s, i, fuel)
    decreases fuel, |Flat(t)|, 0
  {
    hide FixedRules, Fixed, Flat;
    FixedChild(t);
    if t.TRep? {
      FixedMeans(g, t.p, s, i, fuel);
      var r := Peg(g, t.p, s, i, fuel);
      if r.Ok? && fuel > 0 { FixedMeans(g, t, s, r.pos, fuel - 1); }
    } else if t.TBehind? {
      if t.n <= i { FixedMeans(g, t.p, s, i - t.n, fuel); }
    } else {
      FixedMeans(g, t.p, s, i, fuel);
    }
  }

  lemma FixedChild(t: Tree)
    requires IsOne(t)
    ensures Fixed(t) == WithChild(t, Fixed(t.p)) && |Flat(t.p)| < |Flat(t)|
  {
  }

  lemma {:induction false} FixedTwo(g: seq<Tree>, t: Tree, s: seq<Byte>, i: nat, fuel: nat)
    requires IsTwo(t) && i <= |s|
    ensures Peg(FixedRules(g), Fixed(t), s, i, fuel) == Peg(g, t, s, i, fuel)
    decreases fuel, |Flat(t)|, 0
  {
    hide FixedRules, Rotated;
    var u := Rotated(t);
    RotatedMeans(g, t, s, i, fuel);
    TwoCells(u);
    FixedMeans(g, u.p1, s, i, fuel);
    var r := Peg(g, u.p1, s, i, fuel);
    if u.TSeq? {
      if r.Ok? { FixedMeans(g, u.p2, s, r.pos, fuel); }
    } else {
      FixedMeans(g, u.p2, s, i, fuel);
    }
  }

  // ----- open calls -----

  /** The names called in a tree, from left to right; a grammar inside has been finished before. */
  function Names(t: Tree): seq<nat>
    decreases t
  {
    if IsTwo(t) then Names(t.p1) + Names(t.p2)
    else if IsOne(t) then Names(Child(t))
    else if t.TCall? then [t.rule] else []
  }

  /** The first name that is not in the table of rules. */
  function FirstUnknown(names: seq<nat>, table: map<nat, nat>): Option<nat> {
    if names == [] then None
    else if names[0] !in table then Some(names[0])
    else FirstUnknown(names[1..], table)
  }

  lemma {:induction false} FirstUnknownConcat(a: seq<nat>, b: seq<nat>, table: map<nat, nat>)
    ensures FirstUnknown(a + b, table) == if FirstUnknown(a, table).Some? then FirstUnknown(a, table) else FirstUnknown(b, table)
  {
    if a == [] {
      assert a + b == b;
    } else {
      FirstUnknownConcat(a[1..], b, table);
      assert (a + b)[1..] == a[1..] + b;
    }
  }

  lemma {:induction false} UnknownMeans(names: seq<nat>, table: map<nat, nat>)
    ensures FirstUnknown(names, table).None? <==> forall k :: k in names ==> k in table
    ensures FirstUnknown(names, table).Some? ==> FirstUnknown(names, table).value in names && FirstUnknown(names, table).value !in table
  {
    if names != [] {
      UnknownMeans(names[1..], table);
      assert names == [names[0]] + names[1..];
    }
  }

  /** Every call by name made a call of the rule of that name. */
  function Named(t: Tree, table: map<nat, nat>): (r: Tree)
    ensures IsTwo(r) == IsTwo(t) && IsOne(r) == IsOne(t) && r.TChoice? == t.TChoice? && |Flat(r)| == |Flat(t)|
    decreases t
  {
    if IsTwo(t) then Op(t.TChoice?, Named(t.p1, table), Named(t.p2, table))
    else if IsOne(t) then WithChild(t, Named(Child(t), table))
    else if t.TCall? && t.rule in table then TCall(table[t.rule]) else t
  }

  lemma NamesTurned(t: Tree)
    requires IsTwo(t) && Same(t, t.p1)
    ensures Names(Turn(t)) == Names(t)
  {
    hide Names, Flat;
    NamesTwo(t);
    NamesTwo(t.p1);
    NamesTwo(Turn(t));
    NamesTwo(Turn(t).p2);
    NamesRegroup(Names(t.p1.p1), Names(t.p1.p2), Names(t.p2));
  }

  lemma NamesTwo(t: Tree)
    requires IsTwo(t)
    ensures Names(t) == Names(t.p1) + Names(t.p2)
  {
  }

  lemma NamesRegroup(a: seq<nat>, b: seq<nat>, c: seq<nat>)
    ensures a + b + c == a + (b + c)
  {
  }

  lemma NamedTurned(t: Tree, table: map<nat, nat>)
    requires IsTwo(t) && Same(t, t.p1)
    ensures Same(Named(t, table), Named(t, table).p1) && Named(Turn(t), table) == Turn(Named(t, table))
  {
  }

  /** Rotating changes neither the order of the names nor what they become. */
  lemma {:induction false} RotatedNames(t: Tree, table: map<nat, nat>)
    requires IsTwo(t)
    ensures Names(Rotated(t)) == Names(t) && Named(Rotated(t), table) == Rotated(Named(t, table))
    decreases |Flat(t.p1)|
  {
    hide Names, Named;
    if Same(t, t.p1) {
      NamesTurned(t);
      NamedTurned(t, table);
      RotatedNames(Turn(t), table);
      RotatedTurn(Named(t, table));
    } else {
      NotSame(t, table);
      RotatedDone(Named(t, table));
    }
  }

  lemma NotSame(t: Tree, table: map<nat, nat>)
    requires IsTwo(t) && !Same(t, t.p1)
    ensures !Same(Named(t, table), Named(t, table).p1)
  {
  }

  /** What `finalfix` makes of a tree. */
  function FixedBy(t: Tree, table: map<nat, nat>): (r: Tree)
    ensures |Flat(r)| == |Flat(t)|
  {
    Fixed(Named(t, table))
  }

  /** A cell and those of two children. */
  function Node(x: Cell, a: seq<Cell>, b: seq<Cell>): (s: seq<Cell>)
    ensures |s| == 1 + |a| + |b|
  {
    [x] + a + b
  }

  /** The cells of a tree that stands `i` cells behind its grammar, with every call by name turned into the distance to its rule. */
  function Placed(t: Tree, i: int, table: map<nat, nat>): (s: seq<Cell>)
    ensures |s| == |Flat(t)|
    decreases t
  {
    if IsTwo(t) then
      Node(Two(t.TChoice?, |Flat(t.p1)| + 1), Placed(t.p1, i + 1, table), Placed(t.p2, i + 1 + |Flat(t.p1)|, table))
    else if IsOne(t) then [One(Bare(t))] + Placed(Child(t), i + 1, table)
    else if t.TCall? && t.rule in table then [Call(table[t.rule] - i)]
    else [Leaf(t)]
  }

  /** The cells read back: `at` says which rule stands where. */
  function ReadBack(s: seq<Cell>, i: int, at: map<int, nat>): (c: seq<Cell>)
    ensures |c| == |s|
  {
    seq(|s|, k requires 0 <= k < |s| => if s[k].Call? && i + k + s[k].away in at then Leaf(TCall(at[i + k + s[k].away])) else s[k])
  }

  lemma ReadConcat(a: seq<Cell>, b: seq<Cell>, i: int, at: map<int, nat>)
    ensures ReadBack(a + b, i, at) == ReadBack(a, i, at) + ReadBack(b, i + |a|, at)
  {
  }

  /** Where the tree stands does not matter: every call leads to the rule of its name. */
  lemma {:induction false} CallsLead(t: Tree, i: int, table: map<nat, nat>, rules: map<nat, nat>, at: map<int, nat>)
    requires table.Keys == rules.Keys && forall k :: k in table ==> table[k] in at && at[table[k]] == rules[k]
    ensures ReadBack(Placed(t, i, table), i, at) == Flat(Named(t, rules))
    decreases t
  {
    hide ReadBack, Placed, Named, Flat;
    if IsTwo(t) {
      var n := |Flat(t.p1)|;
      CallsLead(t.p1, i + 1, table, rules, at);
      CallsLead(t.p2, i + 1 + n, table, rules, at);
      var x, a, b := [Two(t.TChoice?, n + 1)], Placed(t.p1, i + 1, table), Placed(t.p2, i + 1 + n, table);
      TwoPlaced(t, i, table, rules);
      ReadConcat(x, a, i, at);
      ReadConcat(x + a, b, i, at);
      ReadOne(x[0], i, at);
    } else if IsOne(t) {
      CallsLead(Child(t), i + 1, table, rules, at);
      OnePlaced(t, i, table);
      ReadConcat([One(Bare(t))], Placed(Child(t), i + 1, table), i, at);
      ReadOne(One(Bare(t)), i, at);
      OneNamed(t, rules);
    } else {
      LeafLeads(t, i, table, rules, at);
    }
  }

  lemma TwoPlaced(t: Tree, i: int, table: map<nat, nat>, rules: map<nat, nat>)
    requires IsTwo(t)
    ensures var n := |Flat(t.p1)|;
            && Placed(t, i, table) == [Two(t.TChoice?, n + 1)] + Placed(t.p1, i + 1, table) + Placed(t.p2, i + 1 + n, table)
            && Flat(Named(t, rules)) == [Two(t.TChoice?, n + 1)] + Flat(Named(t.p1, rules)) + Flat(Named(t.p2, rules))
  {
    hide Flat, Placed;
    PlacedTwo(t, i, table);
    OpCells(t.TChoice?, Named(t.p1, rules), Named(t.p2, rules));
  }

  lemma LeafLeads(t: Tree, i: int, table: map<nat, nat>, rules: map<nat, nat>, at: map<int, nat>)
    requires !IsTwo(t) && !IsOne(t)
    requires table.Keys == rules.Keys && forall k :: k in table ==> table[k] in at && at[table[k]] == rules[k]
    ensures ReadBack(Placed(t, i, table), i, at) == Flat(Named(t, rules))
  {
    ReadOne(Placed(t, i, table)[0], i, at);
  }

  /** Resolving names and rotating may be exchanged. */
  lemma {:induction false} NamedFixed(t: Tree, rules: map<nat, nat>)
    ensures Named(Fixed(t), rules) == FixedBy(t, rules)
    decreases |Flat(t)|
  {
    hide Flat, Rotated, Fixed, Named;
    if IsTwo(t) {
      var u := Rotated(t);
      TwoCells(u);
      NamedFixed(u.p1, rules);
      NamedFixed(u.p2, rules);
      FixedOp(t);
      FixedByOp(t, rules);
      NamedOp(Op(u.TChoice?, Fixed(u.p1), Fixed(u.p2)), rules);
    } else if IsOne(t) {
      FixedChild(t);
      NamedFixed(Child(t), rules);
      NamedOne(t, rules);
      NamedOne(Fixed(t), rules);
      FixedChild(Named(t, rules));
    } else {
      FixedLeaf(t);
      FixedLeaf(Named(t, rules));
    }
  }

  lemma NamedOne(t: Tree, rules: map<nat, nat>)
    requires IsOne(t)
    ensures Named(t, rules) == WithChild(t, Named(Child(t), rules)) && Child(Named(t, rules)) == Named(Child(t), rules)
    ensures forall p :: WithChild(Named(t, rules), p) == WithChild(t, p) && WithChild(WithChild(t, Named(Child(t), rules)), p) == WithChild(t, p)
  {
  }

  lemma FixedByOp(t: Tree, table: map<nat, nat>)
    requires IsTwo(t)
    ensures var u := Rotated(t); FixedBy(t, table) == Op(u.TChoice?, FixedBy(u.p1, table), FixedBy(u.p2, table))
  {
    hide Fixed, Rotated, Names;
    RotatedNames(t, table);
    FixedOp(Named(t, table));
    NamedOp(Rotated(t), table);
  }

  lemma NamedOp(u: Tree, table: map<nat, nat>)
    requires IsTwo(u)
    ensures var v := Named(u, table); v.TChoice? == u.TChoice? && v.p1 == Named(u.p1, table) && v.p2 == Named(u.p2, table)
    ensures Named(u, table) == Op(u.TChoice?, Named(u.p1, table), Named(u.p2, table))
  {
  }

  /** In the finished tree every call leads to the rule of its name, wherever the tree stands. */
  lemma FixedLead(t: Tree, i: int, table: map<nat, nat>, rules: map<nat, nat>, at: map<int, nat>)
    requires table.Keys == rules.Keys && forall k :: k in table ==> table[k] in at && at[table[k]] == rules[k]
    ensures ReadBack(Placed(Fixed(t), i, table), i, at) == Flat(FixedBy(t, rules))
  {
    CallsLead(Fixed(t), i, table, rules, at);
    NamedFixed(t, rules);
  }

  lemma ReadOne(c: Cell, i: int, at: map<int, nat>)
    ensures ReadBack([c], i, at) == [if c.Call? && i + c.away in at then Leaf(TCall(at[i + c.away])) else c]
  {
  }

  lemma OneNamed(t: Tree, rules: map<nat, nat>)
    requires IsOne(t)
    ensures Flat(Named(t, rules)) == [One(Bare(t))] + Flat(Named(Child(t), rules))
  {
  }

  /** The key fields of the rules: each called rule gets the name it was called by last. */
  function Marked(keys: seq<nat>, names: seq<nat>, table: map<nat, nat>, g: nat): (r: seq<nat>)
    ensures |r| == |keys|
    decreases |names|
  {
    if names == [] then keys
    else if names[0] in table && g + table[names[0]] < |keys| then Marked(keys[g + table[names[0]] := names[0]], names[1..], table, g)
    else Marked(keys, names[1..], table, g)
  }

  lemma {:induction false} MarkedConcat(keys: seq<nat>, a: seq<nat>, b: seq<nat>, table: map<nat, nat>, g: nat)
    ensures Marked(keys, a + b, table, g) == Marked(Marked(keys, a, table, g), b, table, g)
    decreases |a|
  {
    if a == [] {
      assert a + b == b;
    } else {
      assert (a + b)[1..] == a[1..] + b;
      if a[0] in table && g + table[a[0]] < |keys| {
        MarkedConcat(keys[g + table[a[0]] := a[0]], a[1..], b, table, g);
      } else {
        MarkedConcat(keys, a[1..], b, table, g);
      }
    }
  }

  ghost predicate Calls(names: seq<nat>, table: map<nat, nat>, g: nat, p: nat) {
    exists k :: k in names && k in table && g + table[k] == p
  }

  /** A key field is set exactly where a rule is called, to a name it is called by. */
  lemma {:induction false} MarkedIs(keys: seq<nat>, names: seq<nat>, table: map<nat, nat>, g: nat, p: nat)
    requires p < |keys|
    ensures var r := Marked(keys, names, table, g);
            if Calls(names, table, g, p) then r[p] in names && r[p] in table && g + table[r[p]] == p else r[p] == keys[p]
    decreases |names|
  {
    if names != [] {
      var k, rest := names[0], names[1..];
      var now := if k in table && g + table[k] < |keys| then keys[g + table[k] := k] else keys;
      MarkedIs(now, rest, table, g, p);
      assert names == [k] + rest;
    }
  }

  /** The table's positions lie in the array. */
  predicate TableOk(table: map<nat, nat>, g: nat, n: nat) {
    forall k :: k in table ==> g + table[k] < n
  }

  /**
    `finalfix`, on the cells from `i` on, with the positions of the rules of the grammar at `g` by name
    (none outside a grammar).  It stops at the first name that is not in the table.  A node is rotated
    before the calls below it are turned into distances.
   */
  method FinalFix(a: array<Cell>, keys: array<nat>, g: nat, i: nat, table: map<nat, nat>, ghost t: Tree) returns (unknown: Option<nat>)
    requires i + |Flat(t)| <= a.Length == keys.Length && a[i..i + |Flat(t)|] == Flat(t) && TableOk(table, g, a.Length)
    modifies a, keys
    ensures unknown == FirstUnknown(Names(t), table)
    ensures unknown.None? ==> a[i..i + |Flat(t)|] == Placed(Fixed(t), i - g, table)
    ensures unknown.None? ==> keys[..] == Marked(old(keys[..]), Names(t), table, g)
    ensures forall j :: 0 <= j < a.Length && !(i <= j < i + |Flat(t)|) ==> a[j] == old(a[j])
    decreases |Flat(t)|, 1, 0
  {
    hide Flat, Rotated, Fixed, Names, FirstUnknown, Placed, Marked;
    ghost var n := |Flat(t)|;
    FirstCell(t);
    assert a[i] == a[i..i + n][0];
    if a[i].Two? {
      unknown := FixTwo(a, keys, g, i, table, n, t);
    } else if a[i].One? {
      unknown := FixOne(a, keys, g, i, table, n, t);
    } else {
      LeafFixed(t, i - g, table, keys[..], g);
      unknown := None;
      if a[i].node.TCall? {
        var key := a[i].node.rule;
        if key !in table {
          return Some(key);
        }
        a[i] := Call(table[key] - (i - g));
        keys[g + table[key]] := key;
      }
      assert a[i..i + n] == [a[i]];
    }
  }

  lemma LeafFixed(t: Tree, i: int, table: map<nat, nat>, keys: seq<nat>, g: nat)
    requires !IsTwo(t) && !IsOne(t)
    ensures Flat(t) == [Leaf(t)] && Placed(Fixed(t), i, table) == [if t.TCall? && t.rule in table then Call(table[t.rule] - i) else Leaf(t)]
    ensures FirstUnknown(Names(t), table) == if t.TCall? && t.rule !in table then Some(t.rule) else None
    ensures Marked(keys, Names(t), table, g) ==
            if t.TCall? && t.rule in table && g + table[t.rule] < |keys| then keys[g + table[t.rule] := t.rule] else keys
  {
    if t.TCall? {
      assert Names(t) == [t.rule] && [t.rule][1..] == [];
      assert FirstUnknown([], table) == None;
      var now := if t.rule in table && g + table[t.rule] < |keys| then keys[g + table[t.rule] := t.rule] else keys;
      assert Marked(now, [], table, g) == now;
    }
  }

  method FixTwo(a: array<Cell>, keys: array<nat>, g: nat, i: nat, table: map<nat, nat>, ghost n: nat, ghost t: Tree) returns (unknown: Option<nat>)
    requires IsTwo(t) && n == |Flat(t)| && i + n <= a.Length == keys.Length && a[i..i + n] == Flat(t) && TableOk(table, g, a.Length)
    modifies a, keys
    ensures unknown == FirstUnknown(Names(t), table)
    ensures unknown.None? ==> a[i..i + n] == Placed(Fixed(t), i - g, table)
    ensures unknown.None? ==> keys[..] == Marked(old(keys[..]), Names(t), table, g)
    ensures forall j :: 0 <= j < a.Length && !(i <= j < i + n) ==> a[j] == old(a[j])
    decreases n, 0, 2
  {
    hide Flat, Rotated, Fixed, IsTwo, Same, Names, FirstUnknown, Placed, Marked, TableOk;
    NamesOp(t, table, keys[..], g);
    CorrectAssociativity(a, i, t);
    RotatedParts(t);
    unknown := FixRotated(a, keys, g, i, table, n, Rotated(t));
    FixedOp(t);
  }

  /** The children of a node that has been rotated. */
  method FixRotated(a: array<Cell>, keys: array<nat>, g: nat, i: nat, table: map<nat, nat>, ghost n: nat, ghost u: Tree) returns (unknown: Option<nat>)
    requires IsTwo(u) && n == |Flat(u)| && i + n <= a.Length == keys.Length && a[i..i + n] == Flat(u) && TableOk(table, g, a.Length)
    modifies a, keys
    ensures unknown == if FirstUnknown(Names(u.p1), table).Some? then FirstUnknown(Names(u.p1), table) else FirstUnknown(Names(u.p2), table)
    ensures unknown.None? ==> a[i..i + n] == Placed(Op(u.TChoice?, Fixed(u.p1), Fixed(u.p2)), i - g, table)
    ensures unknown.None? ==> keys[..] == Marked(Marked(old(keys[..]), Names(u.p1), table, g), Names(u.p2), table, g)
    ensures forall j :: 0 <= j < a.Length && !(i <= j < i + n) ==> a[j] == old(a[j])
    decreases n, 0, 1
  {
    hide Flat, Fixed, Names, FirstUnknown, Placed, Marked, TableOk;
    TwoAt(a[..], i, u);
    unknown := FixBoth(a, keys, g, i, table, a[i].ps, n, u.p1, u.p2);
    if unknown.None? {
      Assembled(a[..], i, n, u.TChoice?, Fixed(u.p1), Fixed(u.p2), i - g, table);
    }
  }

  lemma NamesOp(t: Tree, table: map<nat, nat>, keys: seq<nat>, g: nat)
    requires IsTwo(t)
    ensures var u := Rotated(t);
            && FirstUnknown(Names(t), table) ==
                 (if FirstUnknown(Names(u.p1), table).Some? then FirstUnknown(Names(u.p1), table) else FirstUnknown(Names(u.p2), table))
            && Marked(keys, Names(t), table, g) == Marked(Marked(keys, Names(u.p1), table, g), Names(u.p2), table, g)
  {
    hide FirstUnknown, Marked;
    RotatedNames(t, table);
    var u := Rotated(t);
    FirstUnknownConcat(Names(u.p1), Names(u.p2), table);
    MarkedConcat(keys, Names(u.p1), Names(u.p2), table, g);
  }

  lemma RotatedParts(t: Tree)
    requires IsTwo(t)
    ensures IsTwo(Rotated(t)) && (Rotated(t).TSeq? || Rotated(t).TChoice?)
  {
  }

  lemma TwoAt(s: seq<Cell>, i: nat, u: Tree)
    requires IsTwo(u) && i + |Flat(u)| <= |s| && s[i..i + |Flat(u)|] == Flat(u)
    ensures var n1, n2 := |Flat(u.p1)|, |Flat(u.p2)|;
            && |Flat(u)| == 1 + n1 + n2 && s[i] == Two(u.TChoice?, n1 + 1)
            && s[i + 1..i + 1 + n1] == Flat(u.p1) && s[i + 1 + n1..i + 1 + n1 + n2] == Flat(u.p2)
  {
    hide Flat;
    TwoCells(u);
    PartsAt(s, i, Two(u.TChoice?, |Flat(u.p1)| + 1), Flat(u.p1), Flat(u.p2));
  }

  lemma PartsAt(s: seq<Cell>, i: nat, x: Cell, a: seq<Cell>, b: seq<Cell>)
    requires i + 1 + |a| + |b| <= |s| && s[i..i + 1 + |a| + |b|] == [x] + a + b
    ensures s[i] == x && s[i + 1..i + 1 + |a|] == a && s[i + 1 + |a|..i + 1 + |a| + |b|] == b
  {
    Parts(x, a, b);
    Three(s, i, |a|, 1 + |a| + |b|);
  }

  lemma Parts(x: Cell, a: seq<Cell>, b: seq<Cell>)
    ensures var c := [x] + a + b; |c| == 1 + |a| + |b| && c[0] == x && c[1..1 + |a|] == a && c[1 + |a|..] == b
  {
  }

  /** Both children of the node at `i`, the second `ps` cells further. */
  method FixBoth(a: array<Cell>, keys: array<nat>, g: nat, i: nat, table: map<nat, nat>, ps: nat, ghost n: nat, ghost p1: Tree, ghost p2: Tree)
    returns (unknown: Option<nat>)
    requires ps == 1 + |Flat(p1)| && n == ps + |Flat(p2)| && i + n <= a.Length == keys.Length && TableOk(table, g, a.Length)
    requires a[i + 1..i + ps] == Flat(p1) && a[i + ps..i + n] == Flat(p2)
    modifies a, keys
    ensures unknown == if FirstUnknown(Names(p1), table).Some? then FirstUnknown(Names(p1), table) else FirstUnknown(Names(p2), table)
    ensures a[i] == old(a[i])
    ensures unknown.None? ==>
      && a[i + 1..i + ps] == Placed(Fixed(p1), i + 1 - g, table) && a[i + ps..i + n] == Placed(Fixed(p2), i + ps - g, table)
      && keys[..] == Marked(Marked(old(keys[..]), Names(p1), table, g), Names(p2), table, g)
    ensures forall j :: 0 <= j < a.Length && !(i <= j < i + n) ==> a[j] == old(a[j])
    decreases n, 0, 0
  {
    hide Flat, Fixed, Names, FirstUnknown, Placed, Marked, TableOk;
    ghost var s0 := a[..];
    unknown := FinalFix(a, keys, g, i + 1, table, p1);
    if unknown.Some? {
      return;
    }
    ghost var s1 := a[..];
    Kept(s0, s1, i + ps, i + n);
    unknown := FinalFix(a, keys, g, i + ps, table, p2);
    Kept(s1, a[..], i + 1, i + ps);
  }

  /** A node and its two children make the tree. */
  lemma Assembled(s: seq<Cell>, i: nat, n: nat, c: bool, p1: Tree, p2: Tree, at: int, table: map<nat, nat>)
    requires n == 1 + |Flat(p1)| + |Flat(p2)| && i + n <= |s| && s[i] == Two(c, |Flat(p1)| + 1)
    requires s[i + 1..i + 1 + |Flat(p1)|] == Placed(p1, at + 1, table)
    requires s[i + 1 + |Flat(p1)|..i + n] == Placed(p2, at + 1 + |Flat(p1)|, table)
    ensures s[i..i + n] == Placed(Op(c, p1, p2), at, table)
  {
    hide Flat, Placed;
    Three(s, i, |Flat(p1)|, n);
    OpPlaced(c, p1, p2, at, table);
  }

  lemma OpPlaced(c: bool, p1: Tree, p2: Tree, i: int, table: map<nat, nat>)
    ensures Placed(Op(c, p1, p2), i, table) ==
            [Two(c, |Flat(p1)| + 1)] + Placed(p1, i + 1, table) + Placed(p2, i + 1 + |Flat(p1)|, table)
  {
    hide Flat, Placed;
    PlacedTwo(Op(c, p1, p2), i, table);
  }

  lemma PlacedTwo(t: Tree, i: int, table: map<nat, nat>)
    requires IsTwo(t)
    ensures Placed(t, i, table) == Node(Two(t.TChoice?, |Flat(t.p1)| + 1), Placed(t.p1, i + 1, table), Placed(t.p2, i + 1 + |Flat(t.p1)|, table))
  {
    hide Flat, IsOne, Bare, Node;
  }

  lemma Kept(s: seq<Cell>, t: seq<Cell>, lo: nat, hi: nat)
    requires lo <= hi <= |s| == |t| && forall j :: lo <= j < hi ==> s[j] == t[j]
    ensures s[lo..hi] == t[lo..hi]
  {
  }

  /** A node and its two children in an array. */
  lemma Three(s: seq<Cell>, i: nat, n1: nat, n: nat)
    requires 1 + n1 <= n && i + n <= |s|
    ensures s[i..i + n] == [s[i]] + s[i + 1..i + 1 + n1] + s[i + 1 + n1..i + n]
    ensures s[i..i + n][0] == s[i] && s[i..i + n][1..1 + n1] == s[i + 1..i + 1 + n1] && s[i..i + n][1 + n1..] == s[i + 1 + n1..i + n]
  {
    Slice(s, i, n, 1, 1 + n1);
    Slice(s, i, n, 1 + n1, n);
  }

  lemma Slice(s: seq<Cell>, i: nat, n: nat, lo: nat, hi: nat)
    requires i + n <= |s| && lo <= hi <= n
    ensures s[i..i + n][lo..hi] == s[i + lo..i + hi]
  {
    var x, y := s[i..i + n][lo..hi], s[i + lo..i + hi];
    assert |x| == |y|;
    forall k | 0 <= k < |x| ensures x[k] == y[k] {
      assert x[k] == s[i..i + n][lo + k];
      assert s[i..i + n][lo + k] == s[i + (lo + k)];
    }
  }

  method FixOne(a: array<Cell>, keys: array<nat>, g: nat, i: nat, table: map<nat, nat>, ghost n: nat, ghost t: Tree) returns (unknown: Option<nat>)
    requires IsOne(t) && n == |Flat(t)| && i + n <= a.Length == keys.Length && a[i..i + n] == Flat(t) && TableOk(table, g, a.Length)
    modifies a, keys
    ensures unknown == FirstUnknown(Names(t), table)
    ensures unknown.None? ==> a[i..i + n] == Placed(Fixed(t), i - g, table)
    ensures unknown.None? ==> keys[..] == Marked(old(keys[..]), Names(t), table, g)
    ensures forall j :: 0 <= j < a.Length && !(i <= j < i + n) ==> a[j] == old(a[j])
    decreases |Flat(t)|, 0, 0
  {
    hide Flat, Fixed, Names, FirstUnknown, Placed, Marked;
    OneCells(t, i - g, table);
    assert a[i] == a[i..i + n][0];
    assert a[i + 1..i + n] == a[i..i + n][1..];
    unknown := FinalFix(a, keys, g, i + 1, table, Child(t));
    assert a[i..i + n] == [a[i]] + a[i + 1..i + n];
  }

  lemma OneCells(t: Tree, i: int, table: map<nat, nat>)
    requires IsOne(t)
    ensures Flat(t) == [One(Bare(t))] + Flat(Child(t)) && Names(t) == Names(Child(t))
    ensures Placed(Fixed(t), i, table) == [One(Bare(t))] + Placed(Fixed(Child(t)), i + 1, table)
  {
    hide Flat, Names, Placed;
    OneCell(t);
    FixedChild(t);
    OnePlaced(Fixed(t), i, table);
  }

  lemma OneCell(t: Tree)
    requires IsOne(t)
    ensures Flat(t) == [One(Bare(t))] + Flat(Child(t)) && Names(t) == Names(Child(t))
  {
  }

  lemma OnePlaced(t: Tree, i: int, table: map<nat, nat>)
    requires IsOne(t)
    ensures Placed(t, i, table) == [One(Bare(t))] + Placed(Child(t), i + 1, table)
  {
  }

  lemma FirstCell(t: Tree)
    ensures Flat(t)[0].Two? <==> IsTwo(t)
    ensures Flat(t)[0].One? <==> IsOne(t)
  {
  }

  lemma FixedOp(t: Tree)
    requires IsTwo(t)
    ensures var u := Rotated(t); Fixed(t) == Op(u.TChoice?, Fixed(u.p1), Fixed(u.p2))
  {
  }

  lemma OpCells(c: bool, a: Tree, b: Tree)
    ensures Flat(Op(c, a, b)) == [Two(c, |Flat(a)| + 1)] + Flat(a) + Flat(b)
  {
  }

  lemma FixedLeaf(t: Tree)
    requires !IsTwo(t) && !IsOne(t)
    ensures Fixed(t) == t
  {
  }
}
