/**
  What the kinds of plays are, said by how many cards of each rank a play has, for any cards in any
  order; and which plays beat which.
 */
module LandKinds {
  import opened Land

  // ----- the kinds by numbers of cards -----

  predicate Bad(cards: seq<Card>) {
    exists i :: 0 <= i < |cards| && BadCard(cards[i])
  }

  /** Both jokers on top: the large one once, the small one under it. */
  ghost predicate BothJokers(cards: seq<Card>) {
    CountRank(cards, 17) == 1 && CountRank(cards, 16) >= 1 && forall r: nat :: r > 17 ==> CountRank(cards, r) == 0
  }

  /** Cards that may make a play: at least one, none wrong, and nothing beside both jokers. */
  ghost predicate Playable(cards: seq<Card>) {
    cards != [] && !Bad(cards) && !(|cards| > 2 && BothJokers(cards))
  }

  /** `same` cards of each of at least `min` consecutive ranks up to `v`, below the twos, and nothing else. */
  ghost predicate LineOf(cards: seq<Card>, same: nat, min: nat, v: nat)
    requires same > 0
  {
    var m := |cards| / same;
    && m >= min && m * same == |cards| && m <= v + 1 <= 15
    && forall r: nat :: CountRank(cards, r) == if v - m < r <= v then same else 0
  }

  /** A triple that counts: three twos, when nothing is higher, do not in a play of more than five cards. */
  ghost predicate Triple(cards: seq<Card>, r: int) {
    r >= 0 && CountRank(cards, r) == 3 && !(r == 15 && |cards| > 5 && forall q: nat :: q > 15 ==> CountRank(cards, q) != 3)
  }

  /**
    The triples `v`, `v - 1`, ... down to `v - k + 1` are a whole run, no two neighbouring triples
    are higher, and a run of one has nothing lower.
   */
  ghost predicate TopRun(cards: seq<Card>, k: nat, v: nat) {
    && k >= 1
    && (forall r :: v - k < r <= v ==> Triple(cards, r))
    && !Triple(cards, v + 1) && !Triple(cards, v - k)
    && (forall r :: r > v && Triple(cards, r) ==> !Triple(cards, r + 1))
    && (k == 1 ==> forall r :: r < v ==> !Triple(cards, r))
  }

  ghost predicate NoFours(cards: seq<Card>) {
    forall r: nat :: CountRank(cards, r) < 4
  }

  /** How many ranks have two cards beyond whole fours. */
  ghost function Pairs(cards: seq<Card>): nat {
    |set r | 0 <= r <= 30 && CountRank(cards, r) % 4 == 2|
  }

  /** The cards make a play of the kind, and `v` is its rank. */
  ghost predicate Is(cards: seq<Card>, rules: Rules, kind: Kind, v: nat) {
    var n := |cards|;
    Playable(cards) &&
    match kind
    case Error => false
    case Single => n == 1 && CountRank(cards, v) == 1
    case Double => n == 2 && CountRank(cards, v) == 2
    case Three => n == 3 && CountRank(cards, v) == 3
    case SingleLine => LineOf(cards, 1, 5, v)
    case DoubleLine => LineOf(cards, 2, 3, v)
    case ThreeLine => LineOf(cards, 3, 2, v)
    case ThreeTakeOne => NoFours(cards) && n % 4 == 0 && TopRun(cards, n / 4, v)
    case ThreeTakeTwo =>
      NoFours(cards) && n % 5 == 0 && TopRun(cards, n / 5, v) && Pairs(cards) == n / 5 && (!rules.any || rules.r32)
    case FourTakeOne => n == 6 && CountRank(cards, v) >= 4
    case FourTakeTwo => n == 8 && CountRank(cards, v) >= 4 && Pairs(cards) == 2
    case Bomb => n == 4 && exists r: Card :: CountRank(cards, r) == 4 && v == Logic(r)
    case Missile => n == 2 && BothJokers(cards) && v == 0x11
  }

  // ----- from the groups to the numbers -----

  function RankList(g: Groups, k: nat): (l: seq<nat>)
    requires GroupsOk(g) && k < 4
    ensures |l| == |g.of[k]|
  {
    seq(|g.of[k]|, i requires 0 <= i < |g.of[k]| => RankOf(g, k, i))
  }

  ghost predicate Falling(l: seq<nat>) {
    forall i, j :: 0 <= i < j < |l| ==> l[i] > l[j]
  }

  function Size(g: Groups): nat
    requires GroupsOk(g)
  {
    |g.of[0]| + 2 * |g.of[1]| + 3 * |g.of[2]| + 4 * |g.of[3]|
  }

  lemma AddSize(g: Groups, b: seq<Card>)
    requires GroupsOk(g) && 1 <= |b| <= 4
    ensures Size(AddGroup(g, b)) == Size(g) + |b|
  {
  }

  lemma {:induction false} GroupsSize(s: seq<Card>, i: nat, g: Groups)
    requires i <= |s| && GroupsOk(g) && forall c :: c in s ==> Logic(c) != 0
    ensures Size(GroupsFrom(s, i, g)) == Size(g) + |s| - i
    decreases |s| - i
  {
    hide Logic, AddGroup, GroupsFrom, RunLength, Size;
    if i < |s| {
      var n := RunLength(s, i);
      GroupsNext(s, i, g);
      AddSize(g, s[i..i + n]);
      GroupsSize(s, i + n, AddGroup(g, s[i..i + n]));
    } else {
      GroupsDone(s, g);
    }
  }

  /** The ranks of the groups of `k + 1` fall and are above `v`. */
  ghost predicate Above(g: Groups, k: nat, v: nat)
    requires GroupsOk(g) && k < 4
  {
    Falling(RankList(g, k)) && forall r :: r in RankList(g, k) ==> r > v
  }

  lemma FallOn(l: seq<nat>, v: nat)
    requires Falling(l) && forall r :: r in l ==> r > v
    ensures Falling(l + [v])
  {
    forall i | 0 <= i < |l| ensures l[i] > v {
      assert l[i] in l;
    }
  }

  lemma AddAbove(g: Groups, b: seq<Card>, k: nat, v: nat)
    requires GroupsOk(g) && 1 <= |b| <= 4 && k < 3 && Above(g, k, v) && Logic(b[0]) == v
    ensures Falling(RankList(AddGroup(g, b), k))
    ensures |b| == 4 ==> Above(AddGroup(g, b), k, v)
    ensures forall w: nat :: w < v ==> Above(AddGroup(g, b), k, w)
  {
    hide Logic;
    var h := AddGroup(g, b);
    if k == |b| - 1 {
      assert h.of[k] == g.of[k] + [b];
      assert RankList(h, k) == RankList(g, k) + [v];
      FallOn(RankList(g, k), v);
    } else {
      assert h.of[k] == g.of[k];
      assert RankList(h, k) == RankList(g, k);
    }
  }

  lemma NextRank(s: seq<Card>, i: nat)
    requires i < |s| && Descending(s) && i + RunLength(s, i) < |s|
    ensures Logic(s[i + RunLength(s, i)]) <= Logic(s[i])
    ensures RunLength(s, i) < 4 ==> Logic(s[i + RunLength(s, i)]) < Logic(s[i])
  {
    RankFalls(s, i, i + RunLength(s, i));
  }

  lemma {:induction false} GroupsFall(s: seq<Card>, i: nat, g: Groups, k: nat)
    requires i <= |s| && GroupsOk(g) && k < 3 && Descending(s) && forall c :: c in s ==> Logic(c) != 0
    requires Falling(RankList(g, k)) && (i < |s| ==> Above(g, k, Logic(s[i])))
    ensures Falling(RankList(GroupsFrom(s, i, g), k))
    decreases |s| - i
  {
    hide Logic, AddGroup, GroupsFrom, RunLength, Descending, Above, Falling;
    if i < |s| {
      var n := RunLength(s, i);
      var b := s[i..i + n];
      GroupsNext(s, i, g);
      AddAbove(g, b, k, Logic(s[i]));
      if i + n < |s| { NextRank(s, i); }
      GroupsFall(s, i + n, AddGroup(g, b), k);
    } else {
      GroupsDone(s, g);
    }
  }

  lemma RankListIn(g: Groups, k: nat, r: nat)
    requires GroupsOk(g) && k < 4
    ensures r in RankList(g, k) <==> RankIn(g, k, r)
  {
    var l := RankList(g, k);
    if r in l {
      var i :| 0 <= i < |l| && l[i] == r;
      assert g.of[k][i] in g.of[k];
    }
    if RankIn(g, k, r) {
      var b :| b in g.of[k] && Logic(b[0]) == r;
      var i :| 0 <= i < |g.of[k]| && g.of[k][i] == b;
      assert l[i] == r;
    }
  }

  lemma {:induction false} CountInsert(c: Card, s: seq<Card>, r: nat)
    ensures CountRank(Insert(c, s), r) == CountRank(s, r) + if Logic(c) == r then 1 else 0
  {
    hide Logic, Key;
    if s != [] && Key(c) < Key(s[0]) {
      CountInsert(c, s[1..], r);
      assert ([s[0]] + Insert(c, s[1..]))[1..] == Insert(c, s[1..]);
    } else {
      assert ([c] + s)[1..] == s;
    }
  }

  lemma {:induction false} CountSorted(s: seq<Card>, r: nat)
    ensures CountRank(Sorted(s), r) == CountRank(s, r)
  {
    hide Logic;
    if s != [] {
      CountSorted(s[1..], r);
      CountInsert(s[0], Sorted(s[1..]), r);
    }
  }

  lemma {:induction false} CountPositive(s: seq<Card>, r: nat)
    ensures CountRank(s, r) > 0 <==> exists i :: 0 <= i < |s| && Logic(s[i]) == r
    ensures CountRank(s, r) <= |s|
  {
    hide Logic;
    if s != [] {
      CountPositive(s[1..], r);
      if Logic(s[0]) != r && CountRank(s, r) > 0 {
        var i :| 0 <= i < |s[1..]| && Logic(s[1..][i]) == r;
        assert s[i + 1] == s[1..][i];
      }
      if i :| 0 <= i < |s| && Logic(s[i]) == r {
        assert i > 0 ==> s[1..][i - 1] == s[i];
      }
    }
  }

  /** Everything that matters about a hand, its sorted form and its groups. */
  ghost predicate Grouped(cards: seq<Card>, s: seq<Card>, g: Groups) {
    && GroupsOk(g) && |s| == |cards| == Size(g) && s != []
    && (forall k :: 0 <= k < 3 ==> Falling(RankList(g, k)))
    && (forall k, r: nat :: 0 <= k < 4 ==> (r in RankList(g, k) <==> Leaves(CountRank(cards, r), k)))
    && CountRank(cards, Logic(s[0])) > 0
    && (forall r: nat :: CountRank(cards, r) > 0 ==> r <= Logic(s[0]))
  }

  lemma GoodRank(c: Card)
    requires !BadCard(c)
    ensures Logic(c) != 0
  {
  }

  lemma GoodSorted(cards: seq<Card>)
    requires !Bad(cards)
    ensures forall c :: c in Sorted(cards) ==> !BadCard(c) && Logic(c) != 0
  {
    hide Logic, BadCard;
    forall c | c in Sorted(cards) ensures !BadCard(c) && Logic(c) != 0 {
      assert c in multiset(Sorted(cards));
      assert c in cards;
      GoodRank(c);
    }
  }

  lemma TopRank(s: seq<Card>, r: nat)
    requires s != [] && Descending(s)
    ensures CountRank(s, Logic(s[0])) > 0
    ensures CountRank(s, r) > 0 ==> r <= Logic(s[0])
  {
    hide Logic, Descending, CountRank;
    CountPositive(s, Logic(s[0]));
    CountPositive(s, r);
    if CountRank(s, r) > 0 {
      var i :| 0 <= i < |s| && Logic(s[i]) == r;
      RankFalls(s, 0, i);
    }
  }

  lemma HandIsGrouped(cards: seq<Card>)
    requires cards != [] && !Bad(cards)
    ensures var s := Sorted(cards); Grouped(cards, s, GroupsFrom(s, 0, NoGroups()))
  {
    hide Logic, CountRank, GroupsFrom, Sorted, Descending, Bad, RankIn, Size, Falling, RankList;
    var s := Sorted(cards);
    var g := GroupsFrom(s, 0, NoGroups());
    GoodSorted(cards);
    SortedDescending(cards);
    SameLength(s, cards);
    GroupsSize(s, 0, NoGroups());
    NoneYet(0, 0);
    forall k | 0 <= k < 3 ensures Falling(RankList(g, k)) {
      NoneYet(k, Logic(s[0]));
      GroupsFall(s, 0, NoGroups(), k);
    }
    assert s[0..] == s;
    forall k, r: nat | 0 <= k < 4 ensures r in RankList(g, k) <==> Leaves(CountRank(cards, r), k) {
      RankListIn(g, k, r);
      GroupsByCount(s, 0, NoGroups(), k, r);
      NoneIn(k, r);
      CountSorted(cards, r);
    }
    forall r: nat ensures CountRank(cards, r) > 0 ==> r <= Logic(s[0]) {
      TopRank(s, r);
      CountSorted(cards, r);
    }
    TopRank(s, 0);
    CountSorted(cards, Logic(s[0]));
  }

  lemma NoneYet(k: nat, v: nat)
    requires k < 4
    ensures Size(NoGroups()) == 0
    ensures Above(NoGroups(), k, v) && Falling(RankList(NoGroups(), k))
  {
  }

  lemma NoneIn(k: nat, r: nat)
    requires k < 4
    ensures !RankIn(NoGroups(), k, r)
  {
  }

  // ----- falling ranks -----

  lemma {:induction false} FallBounds(l: seq<nat>, i: nat, j: nat)
    requires Falling(l) && i <= j < |l|
    ensures l[i] - l[j] >= j - i
    decreases j - i
  {
    if i < j { FallBounds(l, i + 1, j); }
  }

  /** Falling ranks that are exactly those from `v - |l| + 1` to `v` fall by one each. */
  lemma Consecutive(l: seq<nat>, v: nat)
    requires Falling(l) && forall r: nat :: r in l <==> v - |l| < r <= v
    ensures forall j :: 0 <= j < |l| ==> l[j] == v - j
  {
    var m := |l|;
    forall j | 0 <= j < m ensures l[j] == v - j {
      FallBounds(l, 0, j);
      FallBounds(l, j, m - 1);
      assert l[0] in l && l[m - 1] in l;
    }
  }

  lemma ConsecutiveIn(l: seq<nat>, v: nat)
    requires forall j :: 0 <= j < |l| ==> l[j] == v - j
    ensures forall r: nat :: r in l <==> v - |l| < r <= v
  {
    forall r: nat | v - |l| < r <= v ensures r in l {
      assert l[v - r] == r;
    }
  }

  function Elements(l: seq<nat>): set<nat> {
    set r | r in l
  }

  lemma {:induction false} ElementsCount(l: seq<nat>)
    requires Falling(l)
    ensures |Elements(l)| == |l|
  {
    if l != [] {
      var n := |l| - 1;
      ElementsCount(l[..n]);
      assert Elements(l) == Elements(l[..n]) + {l[n]};
      assert l[n] !in l[..n];
    }
  }

  lemma SameElements(l: seq<nat>, a: set<nat>)
    requires Falling(l) && forall r: nat :: r in l <==> r in a
    ensures |a| == |l|
  {
    ElementsCount(l);
    assert a == Elements(l);
  }

  // ----- lines -----

  lemma {:induction false} LinksFall(g: Groups, k: nat, v: nat, i: nat)
    requires GroupsOk(g) && k < 4 && i <= |g.of[k]|
    ensures forall j :: i <= j < Links(g, k, v, i) ==> RankList(g, k)[j] == v - j
    ensures var n := Links(g, k, v, i); n < |g.of[k]| ==> RankList(g, k)[n] != v - n
    decreases |g.of[k]| - i
  {
    hide RankOf;
    if i < |g.of[k]| && v - RankOf(g, k, i) == i { LinksFall(g, k, v, i + 1); }
  }

  lemma RankListEmpty(g: Groups, k: nat)
    requires GroupsOk(g) && k < 4
    ensures |g.of[k]| == 0 <==> forall r: nat :: r !in RankList(g, k)
  {
    if |g.of[k]| > 0 { assert RankList(g, k)[0] in RankList(g, k); }
  }

  lemma Member(cards: seq<Card>, s: seq<Card>, g: Groups, k: nat, r: nat)
    requires Grouped(cards, s, g) && k < 4
    ensures r in RankList(g, k) <==> Leaves(CountRank(cards, r), k)
  {
    hide CountRank, RankList, Logic, Falling, Leaves;
  }

  /** All cards are in groups of `same`: every rank has `same` cards or none. */
  lemma OnlyGroups(cards: seq<Card>, s: seq<Card>, g: Groups, same: nat, r: nat)
    requires Grouped(cards, s, g) && 1 <= same <= 3 && |g.of[same - 1]| * same == |cards|
    ensures CountRank(cards, r) in {0, same}
    ensures r in RankList(g, same - 1) <==> CountRank(cards, r) == same
  {
    hide CountRank, RankList, Logic, Falling, Size;
    OtherGroups(g, same, |cards|);
    forall k | 0 <= k < 4 ensures (r in RankList(g, k) <==> Leaves(CountRank(cards, r), k)) && (k != same - 1 ==> r !in RankList(g, k)) {
      Member(cards, s, g, k, r);
      RankListEmpty(g, k);
    }
    assert r !in RankList(g, 3);
    assert same != 1 ==> r !in RankList(g, 0);
    assert same != 2 ==> r !in RankList(g, 1);
    assert same != 3 ==> r !in RankList(g, 2);
  }

  lemma GroupsOnly(cards: seq<Card>, s: seq<Card>, g: Groups, same: nat)
    requires Grouped(cards, s, g) && 1 <= same <= 3 && forall r: nat :: CountRank(cards, r) in {0, same}
    ensures |g.of[same - 1]| * same == |cards|
  {
    hide CountRank, RankList, Logic, Falling;
    forall k | 0 <= k < 4 && k != same - 1 ensures |g.of[k]| == 0 {
      RankListEmpty(g, k);
      forall r: nat ensures r !in RankList(g, k) {
        Member(cards, s, g, k, r);
        assert CountRank(cards, r) in {0, same};
      }
    }
  }

  lemma OtherGroups(g: Groups, same: nat, n: nat)
    requires GroupsOk(g) && 1 <= same <= 3 && n == Size(g)
    requires |g.of[same - 1]| * same == n
    ensures forall k :: 0 <= k < 4 && k != same - 1 ==> |g.of[k]| == 0
  {
  }

  lemma LineIsLine(cards: seq<Card>, s: seq<Card>, g: Groups, same: nat, min: nat)
    requires Grouped(cards, s, g) && 1 <= same <= 3
    requires Line(s, g, same, min)
    ensures LineOf(cards, same, min, Logic(s[0]))
  {
    hide CountRank, Logic, Falling, Links, RankList, Grouped, Size;
    GroupedOk(cards, s, g);
    var v, l := Logic(s[0]), RankList(g, same - 1);
    LinksFall(g, same - 1, v, 0);
    var m := |l|;
    Times(m, Links(g, same - 1, v, 0), same);
    ConsecutiveIn(l, v);
    assert m > 0 ==> l[m - 1] == v - (m - 1);
    forall r: nat ensures CountRank(cards, r) == if v - m < r <= v then same else 0 {
      OnlyGroups(cards, s, g, same, r);
    }
  }

  lemma Times(m: nat, n: nat, same: nat)
    requires 1 <= same <= 3
    ensures m * same / same == m
    ensures n * same == m * same ==> n == m
  {
    if same == 1 {
    } else if same == 2 {
      assert m * same == 2 * m && n * same == 2 * n;
    } else {
      assert m * same == 3 * m && n * same == 3 * n;
    }
  }

  lemma GroupedOk(cards: seq<Card>, s: seq<Card>, g: Groups)
    requires Grouped(cards, s, g)
    ensures GroupsOk(g) && |s| == |cards| == Size(g) && s != []
  {
  }

  lemma LineIsFound(cards: seq<Card>, s: seq<Card>, g: Groups, same: nat, min: nat, v: nat)
    requires Grouped(cards, s, g) && 1 <= same <= 3 && min > 0
    requires LineOf(cards, same, min, v)
    ensures Line(s, g, same, min) && v == Logic(s[0])
  {
    hide CountRank, Logic, Falling, Links, RankList, Size;
    var l := RankList(g, same - 1);
    GroupsOnly(cards, s, g, same);
    var m := |l|;
    Times(m, m, same);
    assert CountRank(cards, v) == same;
    assert Logic(s[0]) == v;
    forall r: nat ensures r in l <==> v - m < r <= v {
      OnlyGroups(cards, s, g, same, r);
      assert CountRank(cards, r) == if v - m < r <= v then same else 0;
    }
    Consecutive(l, v);
    LinksFall(g, same - 1, v, 0);
  }

  // ----- triples -----

  /** Whether the scan counts the triple of rank `r`. */
  ghost predicate Counted(l: seq<nat>, count: nat, r: int) {
    r >= 0 && r in l && !(r == 15 == l[0] && count > 5)
  }

  /** Where the scan stands before the group `i`: the last `link` triples fall by one each from `v`, and earlier ones stand alone. */
  ghost predicate Scanned(l: seq<nat>, count: nat, i: nat, link: nat, v: nat) {
    && link <= i <= |l|
    && (link == 0 ==> v == 0xFF && forall j :: 0 <= j < i ==> !Counted(l, count, l[j]))
    && (link > 0 ==> v <= 30 && l[i - 1] == v - link + 1
                     && (forall r :: v - link < r <= v ==> Counted(l, count, r)) && !Counted(l, count, v + 1)
                     && (forall r :: r > v && Counted(l, count, r) ==> !Counted(l, count, r + 1)))
  }

  ghost predicate TopRunIn(l: seq<nat>, count: nat, k: nat, v: nat) {
    && k >= 1
    && (forall r :: v - k < r <= v ==> Counted(l, count, r))
    && !Counted(l, count, v + 1) && !Counted(l, count, v - k)
    && (forall r :: r > v && Counted(l, count, r) ==> !Counted(l, count, r + 1))
    && (k == 1 ==> forall r :: r < v ==> !Counted(l, count, r))
  }

  ghost predicate NoneCounted(l: seq<nat>, count: nat) {
    forall r :: !Counted(l, count, r)
  }

  /** Nothing lies between two neighbours of a falling list, or below its last. */
  lemma Between(l: seq<nat>, i: nat, r: nat)
    requires Falling(l) && 0 < i <= |l| && r in l && r < l[i - 1]
    ensures i < |l| && r <= l[i]
  {
    var j :| 0 <= j < |l| && l[j] == r;
    assert j >= i;
  }

  /** The run ends here: nothing is left, or the next triple is not its neighbour. */
  lemma RunEnds(l: seq<nat>, count: nat, i: nat, link: nat, v: nat)
    requires Falling(l) && Scanned(l, count, i, link, v) && link > 0
    requires i < |l| ==> v - l[i] != link && link >= 2
    ensures TopRunIn(l, count, link, v)
  {
    hide Falling;
    if Counted(l, count, v - link) { Between(l, i, v - link); FallsAt(l, i - 1, i); }
    if link == 1 {
      forall r | r < v ensures !Counted(l, count, r) {
        if Counted(l, count, r) { Between(l, i, r); }
      }
    }
  }

  lemma FallsAt(l: seq<nat>, i: nat, j: nat)
    requires Falling(l) && i < j < |l|
    ensures l[i] > l[j]
  {
  }

  /** The next triple is not the neighbour of a single one: the scan starts again with it. */
  lemma RunRestarts(l: seq<nat>, count: nat, i: nat, v: nat)
    requires Falling(l) && Scanned(l, count, i, 1, v) && i < |l| && v - l[i] != 1 && l[i] <= 30
    ensures Scanned(l, count, i + 1, 1, l[i])
  {
    hide Falling;
    FallsAt(l, i - 1, i);
    FallsAt(l, 0, i);
    var w := l[i];
    assert w in l;
    forall r | w < r && Counted(l, count, r) ensures r >= v {
      if r < v { Between(l, i, r); }
    }
  }

  lemma RunGoesOn(l: seq<nat>, count: nat, i: nat, link: nat, v: nat)
    requires Falling(l) && Scanned(l, count, i, link, v) && link > 0 && i < |l| && v - l[i] == link
    ensures Scanned(l, count, i + 1, link + 1, v)
  {
    hide Falling;
    FallsAt(l, 0, i);
    assert l[i] in l;
  }

  /** The first triple that counts. */
  lemma RunStarts(l: seq<nat>, count: nat, i: nat)
    requires Falling(l) && Scanned(l, count, i, 0, 0xFF) && i < |l| && Counted(l, count, l[i]) && l[i] <= 30
    ensures Scanned(l, count, i + 1, 1, l[i])
  {
    var v := l[i];
    forall r | r > v ensures !Counted(l, count, r) {
      if r in l {
        var j :| 0 <= j < |l| && l[j] == r;
        assert j < i;
      }
    }
  }

  /** The scan finds the top run, if any triple counts at all. */
  lemma {:induction false} ScanFinds(g: Groups, count: nat, i: nat, link: nat, v: nat)
    requires GroupsOk(g) && Falling(RankList(g, 2)) && Scanned(RankList(g, 2), count, i, link, v)
    ensures var l, t := RankList(g, 2), Triples(g, count, i, link, v);
            if t.0 == 0 then NoneCounted(l, count) else TopRunIn(l, count, t.0, t.1)
    decreases |g.of[2]| - i
  {
    hide Falling, RankOf, Scanned, TopRunIn;
    var l := RankList(g, 2);
    ScannedOk(l, count, i, link, v);
    if i == |l| {
      if link == 0 { NoneScanned(l, count); } else { RunEnds(l, count, i, link, v); }
    } else if link == 0 {
      StartScan(l, count, i);
      if l[i] == 15 && count > 5 {
        ScanFinds(g, count, i + 1, 0, 0xFF);
      } else {
        RunStarts(l, count, i);
        ScanFinds(g, count, i + 1, 1, l[i]);
      }
    } else if v - l[i] == link {
      RunGoesOn(l, count, i, link, v);
      ScanFinds(g, count, i + 1, link + 1, v);
    } else if link < 2 {
      RunRestarts(l, count, i, v);
      ScanFinds(g, count, i + 1, 1, l[i]);
    } else {
      RunEnds(l, count, i, link, v);
    }
  }

  lemma ScannedOk(l: seq<nat>, count: nat, i: nat, link: nat, v: nat)
    requires Scanned(l, count, i, link, v)
    ensures link <= i <= |l| && (link == 0 ==> v == 0xFF) && (link > 0 ==> v <= 30)
  {
  }

  lemma NoneScanned(l: seq<nat>, count: nat)
    requires Scanned(l, count, |l|, 0, 0xFF)
    ensures NoneCounted(l, count)
  {
  }

  /** While nothing counts, the scan is at the first triple, or behind three twos on top. */
  lemma StartScan(l: seq<nat>, count: nat, i: nat)
    requires Falling(l) && Scanned(l, count, i, 0, 0xFF) && i < |l|
    ensures if l[i] == 15 && count > 5 then Scanned(l, count, i + 1, 0, 0xFF) else Counted(l, count, l[i])
  {
    if i > 0 {
      assert l[0] in l;
      assert !Counted(l, count, l[0]);
      FallsAt(l, 0, i);
    }
  }

  lemma FoursGrouped(cards: seq<Card>, s: seq<Card>, g: Groups)
    requires Grouped(cards, s, g)
    ensures NoFours(cards) <==> |g.of[3]| == 0
  {
    hide CountRank, RankList, Logic, Falling, Size;
    RankListEmpty(g, 3);
    forall r: nat ensures r in RankList(g, 3) <==> CountRank(cards, r) >= 4 {
      Member(cards, s, g, 3, r);
    }
  }

  lemma TripleCounted(cards: seq<Card>, s: seq<Card>, g: Groups, r: int)
    requires Grouped(cards, s, g) && |g.of[3]| == 0
    ensures Counted(RankList(g, 2), |cards|, r) <==> Triple(cards, r)
  {
    hide CountRank, RankList, Logic, Falling, Size;
    FoursGrouped(cards, s, g);
    var l := RankList(g, 2);
    forall q: nat ensures q in l <==> CountRank(cards, q) == 3 {
      Member(cards, s, g, 2, q);
    }
    if 15 in l {
      var j :| 0 <= j < |l| && l[j] == 15;
      if j > 0 {
        FallsAt(l, 0, j);
        assert l[0] in l;
      } else {
        forall q: nat | q > 15 ensures q !in l {
          TopOf(l, q);
        }
      }
    }
  }

  lemma TopOf(l: seq<nat>, q: nat)
    requires Falling(l) && l != []
    ensures q > l[0] ==> q !in l
  {
  }

  lemma RunOfTriples(cards: seq<Card>, s: seq<Card>, g: Groups, k: nat, v: nat)
    requires Grouped(cards, s, g) && |g.of[3]| == 0
    ensures TopRunIn(RankList(g, 2), |cards|, k, v) <==> TopRun(cards, k, v)
  {
    hide CountRank, RankList, Logic, Falling, Size, Triple, Counted, Grouped;
    GroupedOk(cards, s, g);
    forall r: int ensures Counted(RankList(g, 2), |cards|, r) <==> Triple(cards, r) {
      TripleCounted(cards, s, g, r);
    }
  }

  /** A hand has at most one top run. */
  lemma TopRunUnique(cards: seq<Card>, k: nat, v: nat, j: nat, w: nat)
    requires TopRun(cards, k, v) && TopRun(cards, j, w)
    ensures k == j && v == w
  {
    hide Triple;
    TopRunNotHigher(cards, k, v, j, w);
    TopRunNotHigher(cards, j, w, k, v);
    assert v == w;
    assert k < j ==> Triple(cards, v - k);
    assert j < k ==> Triple(cards, v - j);
  }

  lemma TopRunNotHigher(cards: seq<Card>, k: nat, v: nat, j: nat, w: nat)
    requires TopRun(cards, k, v) && TopRun(cards, j, w)
    ensures w <= v
  {
    hide Triple;
    assert Triple(cards, v) && Triple(cards, w);
    assert j >= 2 ==> Triple(cards, w - 1);
  }

  /** The scan ends with the length and the rank of the top run, or with nothing. */
  lemma ScanIsTopRun(cards: seq<Card>, s: seq<Card>, g: Groups, k: nat, v: nat)
    requires Grouped(cards, s, g) && |g.of[3]| == 0 && k >= 1
    ensures Triples(g, |cards|, 0, 0, 0xFF) == (k, v) <==> TopRun(cards, k, v)
  {
    hide CountRank, Logic, Size, Triple, Counted, TopRun, TopRunIn, Triples;
    var l, t := RankList(g, 2), Triples(g, |cards|, 0, 0, 0xFF);
    ScanFinds(g, |cards|, 0, 0, 0xFF);
    RunOfTriples(cards, s, g, k, v);
    if t.0 == 0 {
      NoneNoRun(l, |cards|, k, v);
    } else {
      RunOfTriples(cards, s, g, t.0, t.1);
      if TopRun(cards, k, v) { TopRunUnique(cards, k, v, t.0, t.1); }
    }
  }

  lemma NoneNoRun(l: seq<nat>, count: nat, k: nat, v: nat)
    requires NoneCounted(l, count)
    ensures !TopRunIn(l, count, k, v)
  {
    hide Counted;
    assert !Counted(l, count, v);
  }

  lemma {:induction false} ScanWithin(g: Groups, count: nat, i: nat, link: nat, v: nat)
    requires GroupsOk(g) && link <= i <= |g.of[2]|
    ensures Triples(g, count, i, link, v).0 <= |g.of[2]|
    decreases |g.of[2]| - i
  {
    hide RankOf;
    if i < |g.of[2]| {
      ScanWithin(g, count, i + 1, link, 0xFF);
      ScanWithin(g, count, i + 1, link + 1, if v == 0xFF then RankOf(g, 2, i) else v);
      ScanWithin(g, count, i + 1, 1, RankOf(g, 2, i));
    }
  }

  /** A line of triples is a top run. */
  lemma LineIsRun(cards: seq<Card>, min: nat, v: nat)
    requires LineOf(cards, 3, min, v) && min >= 2
    ensures TopRun(cards, |cards| / 3, v)
  {
    hide CountRank;
    var m := |cards| / 3;
    forall r: int ensures Triple(cards, r) <==> 0 <= r && v - m < r <= v {
      if r >= 0 { assert CountRank(cards, r) == if v - m < r <= v then 3 else 0; }
    }
  }

  // ----- the remaining kinds -----

  lemma OneCard(s: seq<Card>, r: nat)
    requires |s| == 1
    ensures CountRank(s, r) == if Logic(s[0]) == r then 1 else 0
  {
    hide Logic;
    assert CountRank(s[1..], r) == 0;
  }

  lemma TwoCards(s: seq<Card>, r: nat)
    requires |s| == 2
    ensures CountRank(s, r) == (if Logic(s[0]) == r then 1 else 0) + if Logic(s[1]) == r then 1 else 0
  {
    hide Logic;
    OneCard(s[1..], r);
  }

  lemma ThreeCards(cards: seq<Card>, s: seq<Card>, g: Groups, v: nat)
    requires Grouped(cards, s, g) && |cards| == 3
    ensures |g.of[2]| == 1 && v == Logic(s[0]) <==> CountRank(cards, v) == 3
  {
    hide CountRank, Logic, Falling, RankList;
    var l := RankList(g, 2);
    Member(cards, s, g, 2, v);
    if CountRank(cards, v) == 3 { assert l[0] == v; }
    if |g.of[2]| == 1 {
      OnlyGroups(cards, s, g, 3, Logic(s[0]));
      OnlyGroups(cards, s, g, 3, v);
      assert forall r :: r in l <==> r == l[0];
    }
  }

  lemma PairsGrouped(cards: seq<Card>, s: seq<Card>, g: Groups)
    requires Grouped(cards, s, g)
    ensures Pairs(cards) == |g.of[1]|
  {
    hide CountRank, Logic, Falling, Size;
    var l := RankList(g, 1);
    forall r: nat ensures r in l <==> r <= 30 && CountRank(cards, r) % 4 == 2 {
      Member(cards, s, g, 1, r);
    }
    SameElements(l, set r | 0 <= r <= 30 && CountRank(cards, r) % 4 == 2);
  }

  /** With fewer than eight cards, or eight and two pairs, a rank with four cards or more is the one group of four. */
  lemma FourGrouped(cards: seq<Card>, s: seq<Card>, g: Groups, v: nat)
    requires Grouped(cards, s, g) && (|cards| < 8 || (|cards| == 8 && |g.of[1]| == 2))
    ensures |g.of[3]| == 1 && v == RankOf(g, 3, 0) <==> CountRank(cards, v) >= 4
  {
    hide CountRank, Logic, Falling, RankOf;
    var l := RankList(g, 3);
    Member(cards, s, g, 3, v);
    if CountRank(cards, v) >= 4 {
      assert |l| >= 1;
      assert |l| == 1;
      assert l[0] == v;
    }
    if |l| == 1 && v == RankOf(g, 3, 0) { assert v == l[0]; }
  }

  lemma Joker(c: Card)
    ensures Logic(c) == 17 <==> c == 0x42
    ensures Logic(c) == 16 <==> c == 0x41
  {
  }

  lemma JokersOnTop(s: seq<Card>)
    requires |s| >= 2 && Descending(s) && s[0] == 0x42 && s[1] == 0x41
    ensures BothJokers(s)
  {
    hide Logic, Descending, CountRank;
    Joker(s[0]);
    Joker(s[1]);
    CountRun(s, 1, 17);
    var rest := s[1..];
    forall j | 0 <= j < |rest| ensures Logic(rest[j]) != 17 {
      RankFalls(s, 1, j + 1);
    }
    CountNone(rest, 17);
    CountPositive(s, 16);
    forall r: nat | r > 17 ensures CountRank(s, r) == 0 {
      TopRank(s, r);
    }
  }

  lemma TopIsJokers(s: seq<Card>)
    requires s != [] && Descending(s) && BothJokers(s)
    ensures |s| >= 2 && s[0] == 0x42 && s[1] == 0x41
  {
    hide Logic, Descending, CountRank;
    TopRank(s, 17);
    Joker(s[0]);
    CountPositive(s, 16);
    var i :| 0 <= i < |s| && Logic(s[i]) == 16;
    RankFalls(s, 0, 1);
    RankFalls(s, 1, i);
    Joker(s[1]);
    if Logic(s[1]) == 17 {
      CountRun(s, 2, 17);
    }
  }

  lemma JokersSorted(cards: seq<Card>)
    requires cards != []
    ensures var s := Sorted(cards); |s| == |cards| && (BothJokers(cards) <==> |s| >= 2 && s[0] == 0x42 && s[1] == 0x41)
  {
    hide Logic, Descending, CountRank, Sorted;
    var s := Sorted(cards);
    SameLength(s, cards);
    SortedDescending(cards);
    forall r: nat ensures CountRank(s, r) == CountRank(cards, r) {
      CountSorted(cards, r);
    }
    assert BothJokers(s) <==> BothJokers(cards);
    if BothJokers(s) { TopIsJokers(s); }
    if |s| >= 2 && s[0] == 0x42 && s[1] == 0x41 { JokersOnTop(s); }
  }

  // ----- each kind -----

  /** The test that `AnalyseOutCard` makes for each kind, on the sorted hand and its groups. */
  ghost predicate Tested(s: seq<Card>, g: Groups, rules: Rules, kind: Kind, v: nat)
    requires GroupsOk(g) && s != []
  {
    var n := |s|;
    match kind
    case Error => false
    case Single => n == 1 && v == Logic(s[0])
    case Double => n == 2 && Logic(s[0]) == Logic(s[1]) && v == Logic(s[0])
    case Three => n == 3 && |g.of[2]| == 1 && v == Logic(s[0])
    case SingleLine => Line(s, g, 1, 5) && v == Logic(s[0])
    case DoubleLine => Line(s, g, 2, 3) && v == Logic(s[0])
    case ThreeLine => Line(s, g, 3, 2) && v == Logic(s[0])
    case ThreeTakeOne => var t := Triples(g, n, 0, 0, 0xFF); |g.of[3]| == 0 && t.0 * 4 == n && v == t.1
    case ThreeTakeTwo =>
      var t := Triples(g, n, 0, 0, 0xFF);
      |g.of[3]| == 0 && t.0 * 5 == n && |g.of[1]| == t.0 && (!rules.any || rules.r32) && v == t.1
    case FourTakeOne => n == 6 && |g.of[3]| == 1 && v == RankOf(g, 3, 0)
    case FourTakeTwo => n == 8 && |g.of[3]| == 1 && |g.of[1]| == 2 && v == RankOf(g, 3, 0)
    case Bomb => n == 4 && |g.of[3]| == 1 && v == Logic(RankOf(g, 3, 0))
    case Missile => n == 2 && s[0] == 0x42 && s[1] == 0x41 && v == 0x11
  }

  lemma FewTested(cards: seq<Card>, s: seq<Card>, g: Groups, rules: Rules, kind: Kind, v: nat)
    requires Grouped(cards, s, g) && s == Sorted(cards) && Playable(cards) && kind in {Single, Double, Three, Missile}
    ensures Tested(s, g, rules, kind, v) <==> Is(cards, rules, kind, v)
  {
    hide CountRank, Logic, Falling, RankList, Sorted, Size, LineOf, TopRun, Pairs, Playable, BothJokers;
    CountSorted(cards, v);
    match kind {
      case Single => if |s| == 1 { OneCard(s, v); }
      case Double => if |s| == 2 { TwoCards(s, v); }
      case Three => if |s| == 3 { ThreeCards(cards, s, g, v); }
      case Missile => JokersSorted(cards);
    }
  }

  lemma LinesTested(cards: seq<Card>, s: seq<Card>, g: Groups, rules: Rules, kind: Kind, v: nat)
    requires Grouped(cards, s, g) && Playable(cards) && kind in {SingleLine, DoubleLine, ThreeLine}
    ensures Tested(s, g, rules, kind, v) <==> Is(cards, rules, kind, v)
  {
    hide CountRank, Logic, Falling, RankList, Size, LineOf, TopRun, Pairs, Line, Playable;
    var same, min := if kind == SingleLine then 1 else if kind == DoubleLine then 2 else 3,
                     if kind == SingleLine then 5 else if kind == DoubleLine then 3 else 2;
    if Line(s, g, same, min) { LineIsLine(cards, s, g, same, min); }
    if LineOf(cards, same, min, v) { LineIsFound(cards, s, g, same, min, v); }
  }

  lemma ThreesTested(cards: seq<Card>, s: seq<Card>, g: Groups, rules: Rules, kind: Kind, v: nat)
    requires Grouped(cards, s, g) && Playable(cards) && kind in {ThreeTakeOne, ThreeTakeTwo}
    ensures Tested(s, g, rules, kind, v) <==> Is(cards, rules, kind, v)
  {
    hide CountRank, Logic, Falling, RankList, Size, LineOf, TopRun, Pairs, Triples, Playable, NoFours;
    FoursGrouped(cards, s, g);
    PairsGrouped(cards, s, g);
    var n := |cards|;
    var t := Triples(g, n, 0, 0, 0xFF);
    if |g.of[3]| == 0 {
      if n / 4 >= 1 { ScanIsTopRun(cards, s, g, n / 4, v); }
      if n / 5 >= 1 { ScanIsTopRun(cards, s, g, n / 5, v); }
      RunNotEmpty(cards, n / 4, v);
      RunNotEmpty(cards, n / 5, v);
    }
  }

  lemma RunNotEmpty(cards: seq<Card>, k: nat, v: nat)
    ensures TopRun(cards, k, v) ==> k >= 1
  {
  }

  lemma FoursTested(cards: seq<Card>, s: seq<Card>, g: Groups, rules: Rules, kind: Kind, v: nat)
    requires Grouped(cards, s, g) && Playable(cards) && kind in {FourTakeOne, FourTakeTwo}
    ensures Tested(s, g, rules, kind, v) <==> Is(cards, rules, kind, v)
  {
    hide CountRank, Logic, Falling, RankList, Size, LineOf, TopRun, Pairs, RankOf, Playable;
    PairsGrouped(cards, s, g);
    if |cards| < 8 || (|cards| == 8 && |g.of[1]| == 2) { FourGrouped(cards, s, g, v); }
  }

  lemma BombTested(cards: seq<Card>, s: seq<Card>, g: Groups, rules: Rules, v: nat)
    requires Grouped(cards, s, g) && Playable(cards)
    ensures Tested(s, g, rules, Bomb, v) <==> Is(cards, rules, Bomb, v)
  {
    hide CountRank, Logic, Falling, RankList, Size, LineOf, TopRun, Pairs, RankOf, Playable;
    if |cards| == 4 {
      forall r: Card ensures |g.of[3]| == 1 && r == RankOf(g, 3, 0) <==> CountRank(cards, r) == 4 {
        FourGrouped(cards, s, g, r);
        CountPositive(cards, r);
      }
      if |g.of[3]| == 1 {
        var r: Card := RankOf(g, 3, 0);
        assert CountRank(cards, r) == 4;
      }
    }
  }

  /** Every test is right about the kind. */
  lemma TestedIs(cards: seq<Card>, s: seq<Card>, g: Groups, rules: Rules, kind: Kind, v: nat)
    requires Grouped(cards, s, g) && s == Sorted(cards) && Playable(cards)
    ensures Tested(s, g, rules, kind, v) <==> Is(cards, rules, kind, v)
  {
    hide Tested, Grouped, Playable, Sorted;
    GroupedOk(cards, s, g);
    match kind {
      case Error =>
        NotError(cards, s, g, rules, v);
      case Single => FewTested(cards, s, g, rules, kind, v);
      case Double => FewTested(cards, s, g, rules, kind, v);
      case Three => FewTested(cards, s, g, rules, kind, v);
      case Missile => FewTested(cards, s, g, rules, kind, v);
      case SingleLine => LinesTested(cards, s, g, rules, kind, v);
      case DoubleLine => LinesTested(cards, s, g, rules, kind, v);
      case ThreeLine => LinesTested(cards, s, g, rules, kind, v);
      case ThreeTakeOne => ThreesTested(cards, s, g, rules, kind, v);
      case ThreeTakeTwo => ThreesTested(cards, s, g, rules, kind, v);
      case FourTakeOne => FoursTested(cards, s, g, rules, kind, v);
      case FourTakeTwo => FoursTested(cards, s, g, rules, kind, v);
      case Bomb => BombTested(cards, s, g, rules, v);
    }
  }

  lemma NotError(cards: seq<Card>, s: seq<Card>, g: Groups, rules: Rules, v: nat)
    requires GroupsOk(g) && s != []
    ensures !Tested(s, g, rules, Error, v) && !Is(cards, rules, Error, v)
  {
  }

  // ----- one kind at most -----

  /** Numbers that tell the kinds apart: of cards, of groups of one to four, of linked triples; `equal` is about the first two cards. */
  datatype Profile = Profile(n: nat, a: nat, b: nat, c: nat, d: nat, link: nat, equal: bool)

  ghost function ProfileOf(s: seq<Card>, g: Groups): Profile
    requires GroupsOk(g)
  {
    Profile(|s|, |g.of[0]|, |g.of[1]|, |g.of[2]|, |g.of[3]|, Triples(g, |s|, 0, 0, 0xFF).0, |s| >= 2 && Logic(s[0]) == Logic(s[1]))
  }

  predicate Fits(p: Profile, kind: Kind) {
    match kind
    case Error => false
    case Single => p.n == 1
    case Double => p.n == 2 && p.equal
    case Three => p.n == 3
    case SingleLine => p.a == p.n >= 5
    case DoubleLine => 2 * p.b == p.n >= 6
    case ThreeLine => 3 * p.c == p.n >= 6 && p.link == p.c
    case ThreeTakeOne => p.d == 0 && 4 * p.link == p.n
    case ThreeTakeTwo => p.d == 0 && 5 * p.link == p.n && p.b == p.link
    case FourTakeOne => p.n == 6 && p.d == 1
    case FourTakeTwo => p.n == 8 && p.d == 1
    case Bomb => p.n == 4 && p.d == 1
    case Missile => p.n == 2 && !p.equal
  }

  lemma OneFits(p: Profile, j: Kind, k: Kind)
    requires p.n == p.a + 2 * p.b + 3 * p.c + 4 * p.d > 0 && p.link <= p.c && Fits(p, j) && Fits(p, k)
    ensures j == k
  {
  }

  lemma LineFits(s: seq<Card>, g: Groups, same: nat, min: nat)
    requires GroupsOk(g) && 1 <= same <= 3 && s != [] && Line(s, g, same, min)
    ensures |g.of[same - 1]| * same == |s| && |g.of[same - 1]| >= min
  {
  }

  lemma TestedFits(cards: seq<Card>, s: seq<Card>, g: Groups, rules: Rules, kind: Kind, v: nat)
    requires Grouped(cards, s, g) && Tested(s, g, rules, kind, v)
    ensures Fits(ProfileOf(s, g), kind)
  {
    hide Grouped, Triples, Line, RankOf, Logic, Size;
    GroupedOk(cards, s, g);
    match kind {
      case SingleLine => LineFits(s, g, 1, 5);
      case DoubleLine => LineFits(s, g, 2, 3);
      case ThreeLine =>
        LineFits(s, g, 3, 2);
        LineLinks(cards, s, g);
      case Missile =>
        Joker(s[0]);
        Joker(s[1]);
      case _ =>
    }
  }

  lemma LineLinks(cards: seq<Card>, s: seq<Card>, g: Groups)
    requires Grouped(cards, s, g) && Line(s, g, 3, 2)
    ensures Triples(g, |s|, 0, 0, 0xFF).0 == |g.of[2]|
  {
    hide Triples, Logic, TopRun, Falling, RankList, LineOf, Line, CountRank;
    LineFits(s, g, 3, 2);
    OtherGroups(g, 3, |s|);
    LineIsLine(cards, s, g, 3, 2);
    LineIsRun(cards, 2, Logic(s[0]));
    ScanIsTopRun(cards, s, g, |cards| / 3, Logic(s[0]));
  }

  /** A hand passes at most one of the tests. */
  lemma OneTest(cards: seq<Card>, s: seq<Card>, g: Groups, rules: Rules, j: Kind, u: nat, k: Kind, v: nat)
    requires Grouped(cards, s, g) && Tested(s, g, rules, j, u) && Tested(s, g, rules, k, v)
    ensures j == k && u == v
  {
    hide Grouped, Triples, Line, RankOf, Logic, Size, Fits;
    GroupedOk(cards, s, g);
    TestedFits(cards, s, g, rules, j, u);
    TestedFits(cards, s, g, rules, k, v);
    ScanWithin(g, |s|, 0, 0, 0xFF);
    ProfileAdds(s, g);
    OneFits(ProfileOf(s, g), j, k);
  }

  lemma ProfileAdds(s: seq<Card>, g: Groups)
    requires GroupsOk(g) && |s| == Size(g)
    ensures var p := ProfileOf(s, g); p.n == p.a + 2 * p.b + 3 * p.c + 4 * p.d
  {
  }

  // ----- the theorem -----

  lemma ClassifyTests(s: seq<Card>, g: Groups, rules: Rules)
    requires GroupsOk(g) && s != [] && |s| == Size(g)
    requires !(|s| > 2 && s[0] == 0x42 && s[1] == 0x41) && !Bad(s)
    ensures var p := Classify(s, g, rules); p.kind != Error ==> Tested(s, g, rules, p.kind, p.value)
    ensures forall k, v :: Tested(s, g, rules, k, v) ==> Classify(s, g, rules).kind != Error
  {
    hide Triples, Line, RankOf, Logic, Size, BadCard;
  }

  lemma ClassifyRefuses(s: seq<Card>, g: Groups, rules: Rules)
    requires GroupsOk(g)
    requires (|s| > 2 && s[0] == 0x42 && s[1] == 0x41) || s == [] || Bad(s)
    ensures Classify(s, g, rules).kind == Error
  {
    hide Triples, Line, RankOf, Logic, BadCard;
  }

  lemma BadMoves(s: seq<Card>, cards: seq<Card>)
    requires multiset(s) == multiset(cards) && Bad(s)
    ensures Bad(cards)
  {
    hide BadCard;
    var i :| 0 <= i < |s| && BadCard(s[i]);
    assert s[i] in multiset(s);
    assert s[i] in cards;
  }

  lemma BadSorted(cards: seq<Card>)
    ensures Bad(cards) <==> Bad(Sorted(cards))
  {
    hide Bad, Sorted;
    if Bad(cards) { BadMoves(cards, Sorted(cards)); }
    if Bad(Sorted(cards)) { BadMoves(Sorted(cards), cards); }
  }

  /** The play that the program sees in the cards is of a kind, with a rank, exactly when the cards make such a play. */
  lemma KindOfPlay(cards: seq<Card>, rules: Rules, kind: Kind, v: nat)
    requires kind != Error
    ensures Meaning(cards, rules) == Play(kind, v) <==> Is(cards, rules, kind, v)
  {
    hide Classify, Grouped, Tested, Is, Bad, BothJokers, Sorted, GroupsFrom, BadCard, Size;
    var s := Sorted(cards);
    var g := GroupsFrom(s, 0, NoGroups());
    if !Playable(cards) {
      NotPlayable(cards, rules, kind, v);
    } else {
      SameLength(s, cards);
      BadSorted(cards);
      JokersSorted(cards);
      HandIsGrouped(cards);
      GroupedOk(cards, s, g);
      ClassifyTests(s, g, rules);
      var p := Classify(s, g, rules);
      TestedIs(cards, s, g, rules, kind, v);
      if Tested(s, g, rules, kind, v) { OneTest(cards, s, g, rules, kind, v, p.kind, p.value); }
    }
  }

  lemma NotPlayable(cards: seq<Card>, rules: Rules, kind: Kind, v: nat)
    requires !Playable(cards)
    ensures Meaning(cards, rules).kind == Error && !Is(cards, rules, kind, v)
  {
    hide Classify, Bad, BothJokers, Sorted, GroupsFrom, BadCard;
    var s := Sorted(cards);
    SameLength(s, cards);
    BadSorted(cards);
    if cards != [] { JokersSorted(cards); }
    ClassifyRefuses(s, GroupsFrom(s, 0, NoGroups()), rules);
  }

  /** The program finds no play exactly when the cards make none. */
  lemma NoPlay(cards: seq<Card>, rules: Rules)
    ensures Meaning(cards, rules).kind == Error <==> forall kind, v :: !Is(cards, rules, kind, v)
  {
    hide Meaning, Is;
    var p := Meaning(cards, rules);
    if p.kind != Error { KindOfPlay(cards, rules, p.kind, p.value); }
    forall kind, v | p.kind == Error ensures !Is(cards, rules, kind, v) {
      if kind != Error { KindOfPlay(cards, rules, kind, v); } else { ErrorIsNone(cards, rules, v); }
    }
  }

  lemma ErrorIsNone(cards: seq<Card>, rules: Rules, v: nat)
    ensures !Is(cards, rules, Error, v)
  {
  }

  /** `AnalyseOutCard`: sort a copy, group it, and try the types in turn. */
  method AnalyseOutCard(cards: seq<Card>, rules: Rules) returns (p: Play)
    requires |cards| <= 20
    ensures p == Meaning(cards, rules)
    ensures p.kind != Error ==> Is(cards, rules, p.kind, p.value)
    ensures p.kind == Error ==> forall kind, v :: !Is(cards, rules, kind, v)
  {
    hide Key, Logic, Classify, GroupsFrom, Sorted, Descending, Is;
    var a := new Card[|cards|](i requires 0 <= i < |cards| => cards[i]);
    assert a[..] == cards;
    var _ := SortCardList(a);
    SortedDescending(cards);
    DescendingUnique(a[..], Sorted(cards));
    var g := AnalyseCards(a[..]);
    p := TryTypes(a[..], g, rules);
    NoPlay(cards, rules);
    if p.kind != Error { KindOfPlay(cards, rules, p.kind, p.value); }
  }

  /** Of the rule flags, only the one about triples with pairs decides anything. */
  lemma RulesMatterOnce(cards: seq<Card>, r: Rules, q: Rules)
    requires (!r.any || r.r32) == (!q.any || q.r32)
    ensures var p := Meaning(cards, r); p.kind == Meaning(cards, q).kind && (p.kind != Error ==> p == Meaning(cards, q))
  {
    hide Meaning, Is;
    var p, o := Meaning(cards, r), Meaning(cards, q);
    SameRules(cards, r, q, p.kind, p.value);
    SameRules(cards, r, q, o.kind, o.value);
    if p.kind != Error {
      KindOfPlay(cards, r, p.kind, p.value);
      KindOfPlay(cards, q, p.kind, p.value);
    } else if o.kind != Error {
      KindOfPlay(cards, r, o.kind, o.value);
      KindOfPlay(cards, q, o.kind, o.value);
    }
  }

  lemma SameRules(cards: seq<Card>, r: Rules, q: Rules, kind: Kind, v: nat)
    requires (!r.any || r.r32) == (!q.any || q.r32)
    ensures Is(cards, r, kind, v) <==> Is(cards, q, kind, v)
  {
    hide LineOf, TopRun, Playable, Pairs, NoFours, CountRank, Logic, BothJokers;
  }

  // ----- runs of triples with single cards -----

  function Interval(v: int, k: nat): (a: set<int>)
    ensures |a| == k && forall r :: r in a <==> v - k < r <= v
  {
    if k == 0 then {} else Interval(v, k - 1) + {v - k + 1}
  }

  lemma Subsets<T>(a: set<T>, b: set<T>)
    requires a <= b
    ensures |a| <= |b|
  {
    if a != {} {
      var x :| x in a;
      Subsets(a - {x}, b - {x});
    }
  }

  /** `k` triples in a row and other triples need three cards each. */
  lemma TriplesNeed(cards: seq<Card>, k: nat, v: nat, more: set<int>)
    requires cards != [] && !Bad(cards) && NoFours(cards)
    requires (forall r :: v - k < r <= v ==> Triple(cards, r)) && forall r :: r in more ==> Triple(cards, r) && !(v - k < r <= v)
    ensures 3 * (k + |more|) <= |cards|
  {
    hide CountRank, Logic, Falling, Sorted, GroupsFrom, Bad, NoFours, Triple;
    var s := Sorted(cards);
    var g := GroupsFrom(s, 0, NoGroups());
    HandIsGrouped(cards);
    GroupedOk(cards, s, g);
    FoursGrouped(cards, s, g);
    var l := RankList(g, 2);
    var all: set<int> := Interval(v, k) + more;
    assert Interval(v, k) !! more;
    forall r: int | r in all ensures r >= 0 && r in l {
      TripleCounted(cards, s, g, r);
    }
    ElementsCount(l);
    Subsets<int>(all, Elements(l));
  }

  /**
    `k` triples in a row with as many other cards and no four of a kind are a play of their highest
    rank exactly when the row cannot be made longer.
   */
  lemma TripleRowPlays(cards: seq<Card>, rules: Rules, k: nat, v: nat)
    requires Playable(cards) && NoFours(cards) && 1 <= k && |cards| == 4 * k <= 20
    requires forall r :: v - k < r <= v ==> Triple(cards, r)
    ensures Meaning(cards, rules) == Play(ThreeTakeOne, v) <==> !Triple(cards, v + 1) && !Triple(cards, v - k)
  {
    hide Meaning, Triple, NoFours, LineOf, Pairs, CountRank, Logic, BothJokers;
    KindOfPlay(cards, rules, ThreeTakeOne, v);
    if !Triple(cards, v + 1) && !Triple(cards, v - k) {
      forall r | r > v && Triple(cards, r) ensures !Triple(cards, r + 1) {
        if Triple(cards, r + 1) { TriplesNeed(cards, k, v, {r, r + 1}); }
      }
      if k == 1 {
        forall r | r < v ensures !Triple(cards, r) {
          if Triple(cards, r) { TriplesNeed(cards, k, v, {r}); }
        }
      }
    }
  }

  /** Five triples in a row and one card beside: four of the triples could take the other four cards, and the program sees no play. */
  lemma LongRowFails(cards: seq<Card>, rules: Rules, v: nat)
    requires Playable(cards) && NoFours(cards) && |cards| == 16
    requires forall r :: v - 5 < r <= v ==> Triple(cards, r)
    ensures Meaning(cards, rules).kind == Error
  {
    hide Meaning, Triple, LineOf, TopRun, Is, CountRank, Logic, BothJokers;
    LongRow(cards, v);
    forall kind, w ensures !Is(cards, rules, kind, w) {
      LongRowIs(cards, rules, v, kind, w);
    }
    NoPlay(cards, rules);
  }

  lemma LongRow(cards: seq<Card>, v: nat)
    requires Playable(cards) && NoFours(cards) && |cards| == 16
    requires forall r :: v - 5 < r <= v ==> Triple(cards, r)
    ensures TopRun(cards, 5, v)
  {
    hide Triple, CountRank, BothJokers, NoFours;
    forall r | Triple(cards, r) ensures v - 5 < r <= v {
      if !(v - 5 < r <= v) { TriplesNeed(cards, 5, v, {r}); }
    }
  }

  lemma LongRowIs(cards: seq<Card>, rules: Rules, v: nat, kind: Kind, w: nat)
    requires Playable(cards) && NoFours(cards) && |cards| == 16 && TopRun(cards, 5, v)
    ensures !Is(cards, rules, kind, w)
  {
    hide Triple, CountRank, Logic, BothJokers, LineOf, TopRun, NoFours, Pairs, Playable;
    match kind {
      case SingleLine => HasTriple(cards, v, 1, 5, w);
      case DoubleLine => HasTriple(cards, v, 2, 3, w);
      case ThreeLine => WholeLine(cards, 3, 2, w);
      case ThreeTakeOne => if TopRun(cards, 4, w) { TopRunUnique(cards, 5, v, 4, w); }
      case _ =>
    }
  }

  lemma WholeLine(cards: seq<Card>, same: nat, min: nat, w: nat)
    requires same > 0
    ensures LineOf(cards, same, min, w) ==> |cards| / same * same == |cards|
  {
  }

  lemma HasTriple(cards: seq<Card>, v: nat, same: nat, min: nat, w: nat)
    requires TopRun(cards, 5, v) && 1 <= same <= 2
    ensures !LineOf(cards, same, min, w)
  {
    hide CountRank;
    assert Triple(cards, v);
    assert CountRank(cards, v) == 3;
  }

  // ----- hands from one pack of cards -----

  ghost predicate Distinct(cards: seq<Card>) {
    forall i, j :: 0 <= i < j < |cards| ==> cards[i] != cards[j]
  }

  function OfRank(cards: seq<Card>, r: nat): set<Card> {
    set c | c in cards && Logic(c) == r
  }

  lemma {:induction false} CountDistinct(cards: seq<Card>, r: nat)
    requires Distinct(cards)
    ensures CountRank(cards, r) == |OfRank(cards, r)|
  {
    hide Logic;
    if cards != [] {
      CountDistinct(cards[1..], r);
      if Logic(cards[0]) == r {
        assert OfRank(cards, r) == OfRank(cards[1..], r) + {cards[0]};
      } else {
        assert OfRank(cards, r) == OfRank(cards[1..], r);
      }
    }
  }

  lemma RankCards(c: Card)
    requires !BadCard(c)
    ensures var r := Logic(c);
            if r > 15 then c == 0x40 + r - 15
            else var x := if r > 13 then r - 13 else r; c == x || c == 16 + x || c == 32 + x || c == 48 + x
  {
  }

  /** One pack has four cards of each rank up to two, and one of each higher. */
  lemma PackCounts(cards: seq<Card>, r: nat)
    requires Distinct(cards) && !Bad(cards)
    ensures CountRank(cards, r) <= if r > 15 then 1 else 4
  {
    hide Logic, CountRank, BadCard;
    CountDistinct(cards, r);
    var a := OfRank(cards, r);
    forall c | c in a ensures !BadCard(c) {
    }
    var x := if r > 13 then r - 13 else r;
    if r > 30 {
      assert a == {};
    } else if r > 15 {
      forall c | c in a ensures c == 0x40 + r - 15 {
        RankCards(c);
      }
      Subsets(a, {0x40 + r - 15});
    } else {
      forall c | c in a ensures c in {x, 16 + x, 32 + x, 48 + x} {
        RankCards(c);
      }
      Subsets(a, {x, 16 + x, 32 + x, 48 + x});
    }
  }

  /** A bomb from one pack of cards has its rank. */
  lemma BombOfFour(cards: seq<Card>, rules: Rules, v: nat)
    requires Distinct(cards)
    ensures Is(cards, rules, Bomb, v) <==> Playable(cards) && |cards| == 4 && CountRank(cards, v) == 4
  {
    hide CountRank, BothJokers, Logic, Bad;
    if Playable(cards) {
      if |cards| == 4 && CountRank(cards, v) == 4 {
        PackCounts(cards, v);
        var r: Card := v;
        SameRank(r);
      }
      forall r: Card | CountRank(cards, r) == 4 ensures Logic(r) == r {
        PackCounts(cards, r);
        CountZero(cards);
        SameRank(r);
      }
    }
  }

  lemma CountZero(cards: seq<Card>)
    requires !Bad(cards)
    ensures CountRank(cards, 0) == 0 && CountRank(cards, 1) == 0 && CountRank(cards, 2) == 0
  {
    hide Logic, CountRank;
    forall i | 0 <= i < |cards| ensures Logic(cards[i]) > 2 {
      LowestRank(cards[i]);
    }
    CountNone(cards, 0);
    CountNone(cards, 1);
    CountNone(cards, 2);
  }

  lemma LowestRank(c: Card)
    requires !BadCard(c)
    ensures Logic(c) > 2
  {
  }

  lemma SameRank(r: Card)
    ensures 2 < r <= 15 ==> Logic(r) == r
  {
  }

  // ----- the long row is a hand -----

  function Threes(x: nat): (s: seq<Card>)
    requires x < 16
    ensures |s| == 3
  {
    [x, 16 + x, 32 + x]
  }

  lemma {:induction false} CountAppend(a: seq<Card>, b: seq<Card>, r: nat)
    ensures CountRank(a + b, r) == CountRank(a, r) + CountRank(b, r)
  {
    hide Logic;
    if a == [] {
      assert a + b == b;
    } else {
      CountAppend(a[1..], b, r);
      assert (a + b)[1..] == a[1..] + b;
    }
  }

  lemma CountThrees(x: nat, r: nat)
    requires 3 <= x <= 13
    ensures CountRank(Threes(x), r) == if r == x then 3 else 0
  {
    hide CountRank;
    var s := Threes(x);
    CountRun(s, 3, x);
    CountNone(s[3..], r);
  }

  /** Ten, nine, eight, seven and six three times each, and a three. */
  function TenToSix(): (s: seq<Card>)
    ensures |s| == 16
  {
    Threes(10) + (Threes(9) + (Threes(8) + (Threes(7) + (Threes(6) + [3]))))
  }

  lemma CountTenToSix(r: nat)
    ensures CountRank(TenToSix(), r) == if 6 <= r <= 10 then 3 else if r == 3 then 1 else 0
  {
    hide CountRank;
    var e: seq<Card> := [3];
    OneCard(e, r);
    CountThrees(10, r);
    CountThrees(9, r);
    CountThrees(8, r);
    CountThrees(7, r);
    CountThrees(6, r);
    CountAppend(Threes(6), e, r);
    CountAppend(Threes(7), Threes(6) + e, r);
    CountAppend(Threes(8), Threes(7) + (Threes(6) + e), r);
    CountAppend(Threes(9), Threes(8) + (Threes(7) + (Threes(6) + e)), r);
    CountAppend(Threes(10), Threes(9) + (Threes(8) + (Threes(7) + (Threes(6) + e))), r);
  }

  lemma GoodTenToSix()
    ensures !Bad(TenToSix())
  {
    var s := TenToSix();
    forall i | 0 <= i < |s| ensures !BadCard(s[i]) {
    }
  }

  /** The failing hand: the triples from ten down to seven with four other cards, and no play. */
  lemma TenToSixFails(rules: Rules)
    ensures Meaning(TenToSix(), rules).kind == Error
    ensures forall r: nat :: 7 <= r <= 10 ==> CountRank(TenToSix(), r) == 3
  {
    hide CountRank, TenToSix, Meaning, Bad;
    var s := TenToSix();
    forall r: nat ensures CountRank(s, r) == if 6 <= r <= 10 then 3 else if r == 3 then 1 else 0 {
      CountTenToSix(r);
    }
    GoodTenToSix();
    LongRowFails(s, rules, 10);
  }

  // ----- which play beats which -----

  /** `CompareCard`, from the kinds, the numbers of cards and the ranks. */
  predicate Beats(first: Play, firstCount: nat, next: Play, nextCount: nat) {
    if next.kind == Error || first.kind == Error then false
    else if first.kind == Missile then false
    else if next.kind == Missile then true
    else if first.kind != Bomb && next.kind == Bomb then true
    else if first.kind == Bomb && next.kind != Bomb then false
    else if first.kind != next.kind || firstCount != nextCount then false
    else next.value > first.value
  }

  ghost predicate Over(first: seq<Card>, next: seq<Card>, rules: Rules) {
    Beats(Meaning(first, rules), |first|, Meaning(next, rules), |next|)
  }

  /** The kind `k` is above the kind `j`: both jokers above all, a bomb above all else. */
  predicate HigherKind(j: Kind, k: Kind) {
    j != Missile && (k == Missile || (k == Bomb && j != Bomb))
  }

  /** A play beats another by its kind, or as the same kind of play with as many cards and a higher rank. */
  ghost predicate BeatsBy(first: seq<Card>, next: seq<Card>, rules: Rules) {
    exists j, u, k, v :: Is(first, rules, j, u) && Is(next, rules, k, v)
                         && (HigherKind(j, k) || (j == k && |first| == |next| && u < v))
  }

  lemma OverIsBeatsBy(first: seq<Card>, next: seq<Card>, rules: Rules)
    ensures Over(first, next, rules) <==> BeatsBy(first, next, rules)
  {
    hide Meaning, Is;
    var f, n := Meaning(first, rules), Meaning(next, rules);
    if Over(first, next, rules) {
      KindOfPlay(first, rules, f.kind, f.value);
      KindOfPlay(next, rules, n.kind, n.value);
    }
    if j, u, k, v :| Is(first, rules, j, u) && Is(next, rules, k, v) && (HigherKind(j, k) || (j == k && |first| == |next| && u < v)) {
      ErrorIsNone(first, rules, u);
      ErrorIsNone(next, rules, v);
      KindOfPlay(first, rules, j, u);
      KindOfPlay(next, rules, k, v);
      MissileRank(first, rules, u);
      MissileRank(next, rules, v);
    }
  }

  lemma MissileRank(cards: seq<Card>, rules: Rules, v: nat)
    ensures Is(cards, rules, Missile, v) ==> v == 0x11
  {
  }

  method CompareCard(first: seq<Card>, next: seq<Card>, rules: Rules) returns (r: bool)
    requires |first| <= 20 && |next| <= 20
    ensures r == Over(first, next, rules)
    ensures r == BeatsBy(first, next, rules)
  {
    hide Meaning, Is, BeatsBy;
    var n := AnalyseOutCard(next, rules);
    var f := AnalyseOutCard(first, rules);
    r := Beats(f, |first|, n, |next|);
    OverIsBeatsBy(first, next, rules);
  }

  /** Beating is a strict order on plays, blind to the order of the cards: nothing beats itself or any arrangement of itself. */
  lemma NothingBeatsItself(a: seq<Card>, b: seq<Card>, rules: Rules)
    requires multiset(a) == multiset(b)
    ensures !BeatsBy(a, b, rules)
  {
    hide Meaning, BeatsBy;
    OverIsBeatsBy(a, b, rules);
    OrderDoesNotMatter(a, b, rules);
    SameLength(a, b);
  }

  lemma BeatingIsTransitive(a: seq<Card>, b: seq<Card>, c: seq<Card>, rules: Rules)
    requires BeatsBy(a, b, rules) && BeatsBy(b, c, rules)
    ensures BeatsBy(a, c, rules) && !BeatsBy(c, a, rules)
  {
    hide Meaning, BeatsBy;
    OverIsBeatsBy(a, b, rules);
    OverIsBeatsBy(b, c, rules);
    OverIsBeatsBy(a, c, rules);
    OverIsBeatsBy(c, a, rules);
  }
}
