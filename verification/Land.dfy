/**
  Hands of the card game: sorting, grouping by rank, the type of a play, and which play beats which.
 */
module Land {

  type Card = x: nat | x < 256

  /** The rank: ace and two are high, jokers highest. */
  function Logic(c: Card): (r: nat)
    ensures r <= 30
  {
    if c == 0 then 0
    else if c / 16 * 16 == 0x40 then c % 16 + 15
    else if c % 16 <= 2 then c % 16 + 13 else c % 16
  }

  /** The order of sorting: by rank, then by card. */
  function Key(c: Card): nat {
    256 * Logic(c) + c
  }

  lemma KeyUnique(a: Card, b: Card)
    ensures Key(a) == Key(b) ==> a == b
  {
  }

  ghost predicate Descending(s: seq<Card>) {
    forall i, j :: 0 <= i < j < |s| ==> Key(s[i]) >= Key(s[j])
  }

  /** The descending arrangement of a collection of cards is unique. */
  lemma {:induction false} DescendingUnique(s: seq<Card>, t: seq<Card>)
    requires Descending(s) && Descending(t) && multiset(s) == multiset(t)
    ensures s == t
  {
    hide Key, Descending;
    SameLength(s, t);
    if s != [] {
      HighestFirst(s, t);
      HighestFirst(t, s);
      KeyUnique(s[0], t[0]);
      Tail(s);
      Tail(t);
      DescendingUnique(s[1..], t[1..]);
      assert s == [s[0]] + s[1..] && t == [t[0]] + t[1..];
    }
  }

  lemma Tail(s: seq<Card>)
    requires s != []
    ensures multiset(s[1..]) == multiset(s) - multiset{s[0]}
    ensures Descending(s) ==> Descending(s[1..])
  {
    hide Key;
    assert s == [s[0]] + s[1..];
  }

  lemma SameLength(s: seq<Card>, t: seq<Card>)
    requires multiset(s) == multiset(t)
    ensures |s| == |t|
  {
    assert |multiset(s)| == |s| && |multiset(t)| == |t|;
  }

  lemma HighestFirst(s: seq<Card>, t: seq<Card>)
    requires Descending(t) && multiset(s) == multiset(t) && s != [] && t != []
    ensures Key(s[0]) <= Key(t[0])
  {
    hide Key;
    assert s[0] in multiset(s);
    assert s[0] in t;
  }

  const FULL_COUNT := 54

  /** `SortCardList`: exchange neighbours until a pass changes nothing; more cards than there are are refused. */
  method SortCardList(a: array<Card>) returns (ok: bool)
    modifies a
    ensures ok <==> a.Length <= FULL_COUNT
    ensures ok ==> Descending(a[..]) && multiset(a[..]) == multiset(old(a[..]))
    ensures !ok ==> a[..] == old(a[..])
  {
    hide Key;
    if a.Length == 0 {
      return true;
    }
    if a.Length > FULL_COUNT {
      return false;
    }
    ok := true;
    var last := a.Length - 1;
    var sorted := false;
    while !sorted
      invariant -1 <= last < a.Length && (last < 0 ==> sorted)
      invariant multiset(a[..]) == multiset(old(a[..]))
      invariant sorted ==> Descending(a[..])
      invariant Settled(a[..], last)
      decreases last + 1, !sorted
    {
      sorted := Pass(a, last);
      last := last - 1;
    }
  }

  /** The cards after `last` are in their final places. */
  ghost predicate Settled(s: seq<Card>, last: int) {
    forall i, j :: 0 <= i < j < |s| && last < j ==> Key(s[i]) >= Key(s[j])
  }

  /** During a pass: the card at `i` is the lowest so far. */
  ghost predicate Passing(s: seq<Card>, i: nat, last: int, sorted: bool) {
    && 0 <= i <= last < |s| && Settled(s, last)
    && (forall j :: 0 <= j < i ==> Key(s[j]) >= Key(s[i]))
    && (sorted ==> forall j, k :: 0 <= j < k <= i ==> Key(s[j]) >= Key(s[k]))
  }

  function Exchanged(s: seq<Card>, i: nat): (r: seq<Card>)
    requires i + 1 < |s|
    ensures |r| == |s|
  {
    s[i := s[i + 1]][i + 1 := s[i]]
  }

  lemma ExchangedSame(s: seq<Card>, i: nat)
    requires i + 1 < |s|
    ensures multiset(Exchanged(s, i)) == multiset(s)
  {
    assert s == s[..i] + [s[i], s[i + 1]] + s[i + 2..];
    assert Exchanged(s, i) == s[..i] + [s[i + 1], s[i]] + s[i + 2..];
  }

  lemma PassStep(s: seq<Card>, i: nat, last: int, sorted: bool)
    requires Passing(s, i, last, sorted) && i < last
    ensures Key(s[i]) < Key(s[i + 1]) ==> Passing(Exchanged(s, i), i + 1, last, false)
    ensures Key(s[i]) >= Key(s[i + 1]) ==> Passing(s, i + 1, last, sorted)
  {
    hide Key;
  }

  lemma PassEnd(s: seq<Card>, last: nat, sorted: bool)
    requires Passing(s, last, last, sorted)
    ensures Settled(s, last - 1) && (sorted ==> Descending(s))
  {
    hide Key;
  }

  /** One pass moves the lowest card to `last`; if nothing was exchanged, all is in order. */
  method Pass(a: array<Card>, last: int) returns (sorted: bool)
    requires 0 <= last < a.Length && Settled(a[..], last)
    modifies a
    ensures multiset(a[..]) == multiset(old(a[..])) && Settled(a[..], last - 1)
    ensures sorted ==> Descending(a[..])
    ensures last == 0 ==> sorted
  {
    hide Key, Passing;
    sorted := true;
    var i := 0;
    PassStart(a[..], last);
    while i < last
      invariant 0 <= i <= last && multiset(a[..]) == multiset(old(a[..]))
      invariant Passing(a[..], i, last, sorted)
      invariant last == 0 ==> sorted
    {
      ghost var s := a[..];
      PassStep(s, i, last, sorted);
      if Key(a[i]) < Key(a[i + 1]) {
        sorted := false;
        a[i], a[i + 1] := a[i + 1], a[i];
        ExchangedSame(s, i);
        assert a[..] == Exchanged(s, i);
      }
      i := i + 1;
    }
    PassEnd(a[..], last, sorted);
  }

  lemma PassStart(s: seq<Card>, last: int)
    requires 0 <= last < |s| && Settled(s, last)
    ensures Passing(s, 0, last, true)
  {
  }

  // ----- grouping -----

  /** For each number of cards from one to four, the groups of that many cards of one rank. */
  datatype Groups = Groups(of: seq<seq<seq<Card>>>)

  predicate GroupsOk(g: Groups) {
    && |g.of| == 4
    && forall k :: 0 <= k < 4 ==> forall b :: b in g.of[k] ==> |b| == k + 1
  }

  function NoGroups(): Groups {
    Groups([[], [], [], []])
  }

  function AddGroup(g: Groups, b: seq<Card>): (r: Groups)
    requires GroupsOk(g) && 1 <= |b| <= 4
    ensures GroupsOk(r)
  {
    g.(of := g.of[|b| - 1 := g.of[|b| - 1] + [b]])
  }

  /** How many cards from `i` on have its rank, up to four. */
  function RunLength(s: seq<Card>, i: nat): (n: nat)
    requires i < |s|
    ensures 1 <= n <= 4 && i + n <= |s|
    ensures forall j :: i <= j < i + n ==> Logic(s[j]) == Logic(s[i])
    ensures n == 4 || i + n == |s| || Logic(s[i + n]) != Logic(s[i])
  {
    RunFrom(s, i, 1)
  }

  function RunFrom(s: seq<Card>, i: nat, n: nat): (r: nat)
    requires i < |s| && 1 <= n <= 4 && i + n <= |s|
    requires forall j :: i <= j < i + n ==> Logic(s[j]) == Logic(s[i])
    ensures n <= r <= 4 && i + r <= |s|
    ensures forall j :: i <= j < i + r ==> Logic(s[j]) == Logic(s[i])
    ensures r == 4 || i + r == |s| || Logic(s[i + r]) != Logic(s[i])
    decreases 4 - n
  {
    if n < 4 && i + n < |s| && Logic(s[i + n]) == Logic(s[i]) then RunFrom(s, i, n + 1) else n
  }

  function GroupsFrom(s: seq<Card>, i: nat, g: Groups): (r: Groups)
    requires i <= |s| && GroupsOk(g)
    ensures GroupsOk(r)
    decreases |s| - i
  {
    if i == |s| || Logic(s[i]) == 0 then g
    else
      var n := RunLength(s, i);
      GroupsFrom(s, i + n, AddGroup(g, s[i..i + n]))
  }

  /** `AnalysebCardData`. */
  method AnalyseCards(s: seq<Card>) returns (g: Groups)
    ensures GroupsOk(g) && g == GroupsFrom(s, 0, NoGroups())
  {
    hide Logic, RunLength, AddGroup;
    g := NoGroups();
    var i := 0;
    while i < |s|
      invariant 0 <= i <= |s| && GroupsOk(g)
      invariant GroupsFrom(s, 0, NoGroups()) == GroupsFrom(s, i, g)
      decreases |s| - i
    {
      var v := Logic(s[i]);
      if v == 0 {
        return;
      }
      var same := Run(s, i);
      g := AddGroup(g, s[i..i + same]);
      i := i + same;
    }
  }

  /** The inner loop: how many of the following cards have the same rank. */
  method Run(s: seq<Card>, i: nat) returns (same: nat)
    requires i < |s|
    ensures same == RunLength(s, i)
  {
    hide Logic;
    same := 1;
    var j := i + 1;
    while j < |s|
      invariant j == i + same <= |s| && 1 <= same <= 4
      invariant forall h :: i <= h < i + same ==> Logic(s[h]) == Logic(s[i])
      invariant RunLength(s, i) == RunFrom(s, i, same)
    {
      if Logic(s[j]) != Logic(s[i]) {
        break;
      }
      if same + 1 > 4 {
        same := 4;
        break;
      }
      same := same + 1;
      j := j + 1;
    }
  }

  // ----- what the groups mean -----

  function Flat(bs: seq<seq<Card>>): (m: multiset<Card>) {
    if bs == [] then multiset{} else Flat(bs[..|bs| - 1]) + multiset(bs[|bs| - 1])
  }

  function AllCards(g: Groups): multiset<Card>
    requires GroupsOk(g)
  {
    Flat(g.of[0]) + Flat(g.of[1]) + Flat(g.of[2]) + Flat(g.of[3])
  }

  lemma FlatAppend(bs: seq<seq<Card>>, b: seq<Card>)
    ensures Flat(bs + [b]) == Flat(bs) + multiset(b)
  {
    assert (bs + [b])[..|bs|] == bs;
  }

  lemma AddGroupCards(g: Groups, b: seq<Card>)
    requires GroupsOk(g) && 1 <= |b| <= 4
    ensures AllCards(AddGroup(g, b)) == AllCards(g) + multiset(b)
  {
    hide Flat;
    FlatAppend(g.of[|b| - 1], b);
    var of := AddGroup(g, b).of;
    assert of[|b| - 1] == g.of[|b| - 1] + [b];
    if |b| == 1 {
      assert of[1] == g.of[1] && of[2] == g.of[2] && of[3] == g.of[3];
    } else if |b| == 2 {
      assert of[0] == g.of[0] && of[2] == g.of[2] && of[3] == g.of[3];
    } else if |b| == 3 {
      assert of[0] == g.of[0] && of[1] == g.of[1] && of[3] == g.of[3];
    } else {
      assert of[0] == g.of[0] && of[1] == g.of[1] && of[2] == g.of[2];
    }
  }

  lemma SplitCards(s: seq<Card>, i: nat, n: nat)
    requires i + n <= |s|
    ensures multiset(s[i..]) == multiset(s[i..i + n]) + multiset(s[i + n..])
  {
    assert s[i..] == s[i..i + n] + s[i + n..];
  }

  lemma GroupsNext(s: seq<Card>, i: nat, g: Groups)
    requires i < |s| && GroupsOk(g) && Logic(s[i]) != 0
    ensures GroupsFrom(s, i, g) == GroupsFrom(s, i + RunLength(s, i), AddGroup(g, s[i..i + RunLength(s, i)]))
  {
  }

  /** The groups partition the cards. */
  lemma {:induction false} GroupsPartition(s: seq<Card>, i: nat, g: Groups)
    requires i <= |s| && GroupsOk(g) && forall c :: c in s ==> Logic(c) != 0
    ensures AllCards(GroupsFrom(s, i, g)) == AllCards(g) + multiset(s[i..])
    decreases |s| - i
  {
    hide Logic, AllCards, AddGroup, GroupsFrom, RunLength;
    if i < |s| {
      var n := RunLength(s, i);
      GroupsNext(s, i, g);
      GroupsPartition(s, i + n, AddGroup(g, s[i..i + n]));
      AddGroupCards(g, s[i..i + n]);
      SplitCards(s, i, n);
    } else {
      GroupsDone(s, g);
    }
  }

  lemma GroupsDone(s: seq<Card>, g: Groups)
    requires GroupsOk(g)
    ensures GroupsFrom(s, |s|, g) == g && multiset(s[|s|..]) == multiset{}
  {
  }

  function CountRank(s: seq<Card>, r: nat): nat {
    if s == [] then 0 else CountRank(s[1..], r) + if Logic(s[0]) == r then 1 else 0
  }

  ghost predicate RankIn(g: Groups, k: nat, r: nat)
    requires GroupsOk(g) && k < 4
  {
    exists b :: b in g.of[k] && Logic(b[0]) == r
  }

  lemma RankFalls(s: seq<Card>, i: nat, j: nat)
    requires Descending(s) && i <= j < |s|
    ensures Logic(s[i]) >= Logic(s[j])
  {
    if i < j { assert Key(s[i]) >= Key(s[j]); }
  }

  /** Cards that all have the rank, then cards that do not. */
  lemma {:induction false} CountRun(s: seq<Card>, n: nat, r: nat)
    requires n <= |s| && forall j :: 0 <= j < n ==> Logic(s[j]) == r
    ensures CountRank(s, r) == n + CountRank(s[n..], r)
    ensures forall q :: q != r ==> CountRank(s, q) == CountRank(s[n..], q)
  {
    hide Logic;
    if n == 0 {
      assert s[0..] == s;
    } else {
      CountRun(s[1..], n - 1, r);
      assert s[1..][n - 1..] == s[n..];
    }
  }

  lemma {:induction false} CountNone(s: seq<Card>, r: nat)
    requires forall j :: 0 <= j < |s| ==> Logic(s[j]) != r
    ensures CountRank(s, r) == 0
  {
    hide Logic;
    if s != [] { CountNone(s[1..], r); }
  }

  /** A run of fewer than four is all there is of its rank in a sorted hand. */
  lemma RunIsAll(s: seq<Card>, i: nat)
    requires i < |s| && Descending(s)
    ensures var n, v := RunLength(s, i), Logic(s[i]);
            && CountRank(s[i..], v) == n + CountRank(s[i + n..], v)
            && (n < 4 ==> CountRank(s[i + n..], v) == 0)
            && forall r :: r != v ==> CountRank(s[i..], r) == CountRank(s[i + n..], r)
  {
    hide Logic, CountRank, Descending;
    var n, v := RunLength(s, i), Logic(s[i]);
    var t := s[i..];
    CountRun(t, n, v);
    assert t[n..] == s[i + n..];
    if n < 4 {
      var rest := s[i + n..];
      forall j | 0 <= j < |rest| ensures Logic(rest[j]) != v {
        RankFalls(s, i + n, i + n + j);
        RankFalls(s, i, i + n);
      }
      CountNone(rest, v);
    }
  }

  lemma AddGroupRank(g: Groups, b: seq<Card>, k: nat, r: nat)
    requires GroupsOk(g) && 1 <= |b| <= 4 && k < 4
    ensures RankIn(AddGroup(g, b), k, r) <==> RankIn(g, k, r) || (k == |b| - 1 && Logic(b[0]) == r)
  {
    hide Logic;
    var of := AddGroup(g, b).of;
    if k == |b| - 1 {
      assert of[k] == g.of[k] + [b];
      assert b in of[k];
    } else {
      assert of[k] == g.of[k];
    }
  }

  /** What `c` cards of one rank leave among the groups of `k + 1`. */
  predicate Leaves(c: nat, k: nat) {
    if k < 3 then c % 4 == k + 1 else c >= 4
  }

  /**
    Of a sorted hand, the ranks among the groups of one to three are those with that many cards
    beyond whole fours, and the ranks among the groups of four are those with four cards or more.
   */
  lemma {:induction false} GroupsByCount(s: seq<Card>, i: nat, g: Groups, k: nat, r: nat)
    requires i <= |s| && GroupsOk(g) && k < 4 && Descending(s)
    requires forall c :: c in s ==> Logic(c) != 0
    ensures RankIn(GroupsFrom(s, i, g), k, r) <==> RankIn(g, k, r) || Leaves(CountRank(s[i..], r), k)
    decreases |s| - i
  {
    hide Logic, AddGroup, GroupsFrom, RunLength, CountRank, Descending, RankIn;
    if i < |s| {
      var n := RunLength(s, i);
      var b := s[i..i + n];
      GroupsNext(s, i, g);
      RunIsAll(s, i);
      GroupsByCount(s, i + n, AddGroup(g, b), k, r);
      AddGroupRank(g, b, k, r);
    } else {
      GroupsDone(s, g);
      CountNone(s[i..], r);
    }
  }

  // ----- the sorted hand as a value -----

  function Insert(c: Card, s: seq<Card>): (r: seq<Card>)
    ensures multiset(r) == multiset(s) + multiset{c}
  {
    if s == [] then [c]
    else if Key(c) >= Key(s[0]) then [c] + s
    else
      assert s == [s[0]] + s[1..];
      [s[0]] + Insert(c, s[1..])
  }

  lemma {:induction false} InsertDescending(c: Card, s: seq<Card>)
    requires Descending(s)
    ensures Descending(Insert(c, s))
  {
    hide Key;
    if s != [] && Key(c) < Key(s[0]) {
      InsertDescending(c, s[1..]);
      var t := Insert(c, s[1..]);
      forall x | x in t ensures Key(s[0]) >= Key(x) {
        assert x in multiset(t);
      }
    }
  }

  function Sorted(s: seq<Card>): (r: seq<Card>)
    ensures multiset(r) == multiset(s)
  {
    if s == [] then []
    else
      assert s == [s[0]] + s[1..];
      Insert(s[0], Sorted(s[1..]))
  }

  lemma {:induction false} SortedDescending(s: seq<Card>)
    ensures Descending(Sorted(s))
  {
    if s != [] {
      SortedDescending(s[1..]);
      InsertDescending(s[0], Sorted(s[1..]));
    }
  }

  /** The sorted hand depends only on which cards there are. */
  lemma SortedSame(s: seq<Card>, t: seq<Card>)
    requires multiset(s) == multiset(t)
    ensures Sorted(s) == Sorted(t)
  {
    SortedDescending(s);
    SortedDescending(t);
    DescendingUnique(Sorted(s), Sorted(t));
  }

  // ----- the type of a play -----

  datatype Kind =
    | Error | Single | Double | Three | SingleLine | DoubleLine | ThreeLine
    | ThreeTakeOne | ThreeTakeTwo | FourTakeOne | FourTakeTwo | Bomb | Missile

  /** The kind of a play and the rank that counts; `value` is meaningless for an error. */
  datatype Play = Play(kind: Kind, value: nat)

  /** The rule flags; without any, everything is allowed. */
  datatype Rules = Rules(any: bool, r30: bool, r32: bool, r41: bool, off: bool)

  predicate ThreeAllowed(rules: Rules, count: nat) {
    !rules.any || (rules.r30 && rules.off) || count % 3 == 0
  }

  predicate FourAllowed(rules: Rules, count: nat) {
    !rules.any || (rules.r41 && rules.off) || count % 6 == 0
  }

  function RankOf(g: Groups, k: nat, i: nat): (r: nat)
    requires GroupsOk(g) && k < 4 && i < |g.of[k]|
    ensures r <= 30
  {
    assert g.of[k][i] in g.of[k];
    Logic(g.of[k][i][0])
  }

  predicate BadCard(c: Card) {
    var value, color := c % 16, c / 16 * 16;
    value == 0 || color > 0x40 || (color < 0x40 && value > 0x0D)
  }

  /** How many groups from the first on have ranks that fall by one each. */
  function Links(g: Groups, k: nat, v: nat, i: nat): (n: nat)
    requires GroupsOk(g) && k < 4 && i <= |g.of[k]|
    ensures i <= n <= |g.of[k]|
    decreases |g.of[k]| - i
  {
    if i < |g.of[k]| && v - RankOf(g, k, i) == i then Links(g, k, v, i + 1) else i
  }

  /** A line of groups of `same` cards, at least `min` long, below the rank of a two. */
  function Line(s: seq<Card>, g: Groups, same: nat, min: nat): (b: bool)
    requires GroupsOk(g) && 1 <= same <= 3 && s != []
  {
    && |g.of[same - 1]| * same == |s|
    && Logic(s[0]) < 0x0F
    && Links(g, same - 1, Logic(s[0]), 0) >= min
    && Links(g, same - 1, Logic(s[0]), 0) * same == |s|
  }

  /** The longest run of triples that the scan settles on: its length and its rank; twos are passed over in long plays. */
  function Triples(g: Groups, count: nat, i: nat, link: nat, v: nat): (nat, nat)
    requires GroupsOk(g) && i <= |g.of[2]|
    decreases |g.of[2]| - i
  {
    if i == |g.of[2]| then (link, v)
    else
      var r := RankOf(g, 2, i);
      var v1 := if v == 0xFF then r else v;
      if v == 0xFF && r == 0x0F && count > 5 then Triples(g, count, i + 1, link, 0xFF)
      else if v1 - r == link then Triples(g, count, i + 1, link + 1, v1)
      else if link < 2 then Triples(g, count, i + 1, 1, r)
      else (link, v1)
  }

  /** `AnalyseOutCard` on a sorted play, the types in the order they are tried. */
  function Classify(s: seq<Card>, g: Groups, rules: Rules): Play
    requires GroupsOk(g)
  {
    var n := |s|;
    if n == 0 then Play(Error, 0)
    else if n > 2 && s[0] == 0x42 && s[1] == 0x41 then Play(Error, 0)
    else if exists i :: 0 <= i < n && BadCard(s[i]) then Play(Error, 0)
    else if n == 1 then Play(Single, Logic(s[0]))
    else if n == 2 && Logic(s[0]) == Logic(s[1]) then Play(Double, Logic(s[0]))
    else if n == 3 && |g.of[2]| == 1 && ThreeAllowed(rules, n) then Play(Three, Logic(s[0]))
    else if Line(s, g, 1, 5) then Play(SingleLine, Logic(s[0]))
    else if Line(s, g, 2, 3) then Play(DoubleLine, Logic(s[0]))
    else if Line(s, g, 3, 2) then Play(ThreeLine, Logic(s[0]))
    else
      var t := Triples(g, n, 0, 0, 0xFF);
      if |g.of[3]| == 0 && t.0 * 4 == n then Play(ThreeTakeOne, t.1)
      else if |g.of[3]| == 0 && t.0 * 5 == n && |g.of[1]| == t.0 && (!rules.any || rules.r32) then Play(ThreeTakeTwo, t.1)
      else if n == 6 && |g.of[3]| == 1 && FourAllowed(rules, n) then Play(FourTakeOne, RankOf(g, 3, 0))
      else if n == 8 && |g.of[3]| == 1 && |g.of[1]| == 2 then Play(FourTakeTwo, RankOf(g, 3, 0))
      else if n == 4 && |g.of[3]| == 1 then Play(Bomb, Logic(RankOf(g, 3, 0)))
      else if s[0] == 0x42 && s[1] == 0x41 then Play(Missile, 0x11)
      else Play(Error, 0)
  }

  /** The type of a play, from its cards in any order. */
  function Meaning(cards: seq<Card>, rules: Rules): Play {
    var s := Sorted(cards);
    Classify(s, GroupsFrom(s, 0, NoGroups()), rules)
  }

  /** The type and rank of a play do not depend on the order of its cards. */
  lemma OrderDoesNotMatter(a: seq<Card>, b: seq<Card>, rules: Rules)
    requires multiset(a) == multiset(b)
    ensures Meaning(a, rules) == Meaning(b, rules)
  {
    SortedSame(a, b);
  }

  method TryTypes(s: seq<Card>, g: Groups, rules: Rules) returns (p: Play)
    requires GroupsOk(g)
    ensures p == Classify(s, g, rules)
  {
    hide Logic, BadCard, Links, Triples;
    var n := |s|;
    if n == 0 || (n > 2 && s[0] == 0x42 && s[1] == 0x41) {
      return Play(Error, 0);
    }
    var i := 0;
    while i < n
      invariant 0 <= i <= n && forall j :: 0 <= j < i ==> !BadCard(s[j])
    {
      if BadCard(s[i]) {
        return Play(Error, 0);
      }
      i := i + 1;
    }
    if n == 1 {
      return Play(Single, Logic(s[0]));
    }
    if n == 2 && Logic(s[0]) == Logic(s[1]) {
      return Play(Double, Logic(s[0]));
    }
    if n == 3 && |g.of[2]| == 1 && ThreeAllowed(rules, n) {
      return Play(Three, Logic(s[0]));
    }
    var line := TryLine(s, g, 1, 5);
    if line {
      return Play(SingleLine, Logic(s[0]));
    }
    line := TryLine(s, g, 2, 3);
    if line {
      return Play(DoubleLine, Logic(s[0]));
    }
    line := TryLine(s, g, 3, 2);
    if line {
      return Play(ThreeLine, Logic(s[0]));
    }
    if |g.of[3]| == 0 {
      var link, v := ScanTriples(g, n);
      if link * 4 == n {
        return Play(ThreeTakeOne, v);
      }
      if link * 5 == n && |g.of[1]| == link && (!rules.any || rules.r32) {
        return Play(ThreeTakeTwo, v);
      }
    }
    if n == 6 && |g.of[3]| == 1 && FourAllowed(rules, n) {
      return Play(FourTakeOne, RankOf(g, 3, 0));
    }
    if n == 8 && |g.of[3]| == 1 && |g.of[1]| == 2 {
      return Play(FourTakeTwo, RankOf(g, 3, 0));
    }
    if n == 4 && |g.of[3]| == 1 {
      return Play(Bomb, Logic(RankOf(g, 3, 0)));
    }
    if s[0] == 0x42 && s[1] == 0x41 {
      return Play(Missile, 0x11);
    }
    p := Play(Error, 0);
  }

  method TryLine(s: seq<Card>, g: Groups, same: nat, min: nat) returns (line: bool)
    requires GroupsOk(g) && 1 <= same <= 3 && s != []
    ensures line == Line(s, g, same, min)
  {
    hide Logic;
    if |g.of[same - 1]| * same != |s| || Logic(s[0]) >= 0x0F {
      return false;
    }
    var v, link := Logic(s[0]), 0;
    var i := 0;
    while i < |g.of[same - 1]|
      invariant 0 <= i == link <= |g.of[same - 1]| && Links(g, same - 1, v, 0) == Links(g, same - 1, v, i)
    {
      if v - RankOf(g, same - 1, i) == i {
        link := link + 1;
      } else {
        break;
      }
      i := i + 1;
    }
    line := link >= min && link * same == |s|;
  }

  method ScanTriples(g: Groups, count: nat) returns (link: nat, v: nat)
    requires GroupsOk(g)
    ensures (link, v) == Triples(g, count, 0, 0, 0xFF)
  {
    hide Logic;
    link, v := 0, 0xFF;
    var i := 0;
    while i < |g.of[2]|
      invariant 0 <= i <= |g.of[2]| && Triples(g, count, 0, 0, 0xFF) == Triples(g, count, i, link, v)
    {
      var r := RankOf(g, 2, i);
      if v == 0xFF && r == 0x0F && count > 5 {
        i := i + 1;
        continue;
      }
      if v == 0xFF {
        v := r;
      }
      if v - r == link {
        link := link + 1;
      } else if link < 2 {
        link, v := 1, r;
      } else {
        break;
      }
      i := i + 1;
    }
  }
}
