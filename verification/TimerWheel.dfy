/**
  Where the timing wheel keeps a node, and how the places move as the clock ticks.

  The clock has 32 bits and wraps.  Level 0 is the `near` array, one slot per tick; levels 1 to 4
  are `t[0]` to `t[3]`, whose slots span 2^8, 2^14, 2^20 and 2^26 ticks.  A comparison of two
  times with their low bits or-ed away is a comparison of quotients.
 */
module TimerWheel {

  const WORD: nat := 0x1_0000_0000
  const HALF: nat := 0x8000_0000
  const NEAR: nat := 256
  const LEVEL: nat := 64

  type Time = x: nat | x < WORD

  /** A slot: `near[index]` at level 0, `t[level - 1][index]` above. */
  datatype Place = Place(level: nat, index: nat)

  predicate IsPlace(k: Place) {
    k.level <= 4 && k.index < if k.level == 0 then NEAR else LEVEL
  }

  /** The number of ticks one slot of level `l + 1` spans. */
  function Span(l: nat): (r: nat)
    requires l <= 4
    ensures r > 0
  {
    if l == 0 then 0x100 else if l == 1 then 0x4000 else if l == 2 then 0x10_0000 else if l == 3 then 0x400_0000 else WORD
  }

  function High(e: Time, l: nat): (r: nat)
    requires l <= 4
    ensures r == e / Span(l)
    ensures l == 4 ==> r == 0
  {
    e / Span(l)
  }

  /** The level `add_node` chooses: the lowest at which the two times share their high part. */
  function LevelOf(e: Time, t: Time): (l: nat)
    ensures l <= 4 && High(e, l) == High(t, l)
    ensures l > 0 ==> High(e, l - 1) != High(t, l - 1)
  {
    if High(e, 0) == High(t, 0) then 0
    else if High(e, 1) == High(t, 1) then 1
    else if High(e, 2) == High(t, 2) then 2
    else if High(e, 3) == High(t, 3) then 3
    else 4
  }

  function IndexAt(e: Time, l: nat): (r: nat)
    requires l <= 4
    ensures IsPlace(Place(l, r))
  {
    if l == 0 then e % NEAR else High(e, l - 1) % LEVEL
  }

  function PlaceOf(e: Time, t: Time): (k: Place)
    ensures IsPlace(k)
  {
    Place(LevelOf(e, t), IndexAt(e, LevelOf(e, t)))
  }

  function Next(t: Time): Time {
    if t + 1 == WORD then 0 else t + 1
  }

  /** A deadline at most half a turn after `t`, and not `t` itself. */
  predicate Ahead(e: Time, t: Time) {
    0 < (if e >= t then e - t else e + WORD - t) < HALF
  }

  lemma HighStep(e: Time, l: nat)
    requires l < 4
    ensures High(e, l + 1) == High(e, l) / 64
  {
  }

  lemma {:induction false} HighUp(e: Time, t: Time, l: nat, m: nat)
    requires l <= m <= 4 && High(e, l) == High(t, l)
    ensures High(e, m) == High(t, m)
    decreases m - l
  {
    if l < m {
      HighStep(e, l);
      HighStep(t, l);
      HighUp(e, t, l + 1, m);
    }
  }

  lemma LevelIs(e: Time, t: Time, l: nat)
    requires l <= 4 && High(e, l) == High(t, l)
    requires l > 0 ==> High(e, l - 1) != High(t, l - 1)
    ensures LevelOf(e, t) == l
  {
    var m := LevelOf(e, t);
    if m < l {
      HighUp(e, t, m, l - 1);
    } else if l < m {
      HighUp(e, t, l, m - 1);
    }
  }

  /** The slot of level `i + 1` that the tick to `Next(t)` enters. */
  predicate Enters(t: Time, i: nat) {
    && i <= 3
    && t % Span(i) == Span(i) - 1
    && High(t, i) != High(Next(t), i)
    && High(t, i + 1) == High(Next(t), i + 1)
  }

  function Entered(t: Time, i: nat): (k: Place)
    requires Enters(t, i)
    ensures IsPlace(k)
  {
    Place(i + 1, High(Next(t), i) % LEVEL)
  }

  /** An enclosing block that ends now holds no deadline that is still ahead. */
  lemma BlockIsPast(e: Time, t: Time, i: nat)
    requires Enters(t, i) && Ahead(e, t)
    ensures High(e, i) != High(t, i)
  {
  }

  lemma SameDigit(a: Time, b: Time, i: nat)
    requires i <= 3 && High(a, i + 1) == High(b, i + 1)
    requires High(a, i) % LEVEL == High(b, i) % LEVEL
    ensures High(a, i) == High(b, i)
  {
    HighStep(a, i);
    HighStep(b, i);
    assert High(a, i) == 64 * (High(a, i) / 64) + High(a, i) % 64;
    assert High(b, i) == 64 * (High(b, i) / 64) + High(b, i) % 64;
  }

  /** When the clock enters a slot of level `i + 1`, exactly the deadlines in that slot change place, and they move down. */
  lemma PlacesAfterEntering(e: Time, t: Time, i: nat)
    requires Enters(t, i) && Ahead(e, t)
    ensures PlaceOf(e, t) == Entered(t, i) <==> PlaceOf(e, Next(t)).level <= i
    ensures PlaceOf(e, t) != Entered(t, i) ==> PlaceOf(e, Next(t)) == PlaceOf(e, t)
  {
    var ct := Next(t);
    BlockIsPast(e, t, i);
    var l := LevelOf(e, t);
    if l <= i {
      HighUp(e, t, l, i);
      assert false;
    }
    HighUp(t, ct, i + 1, l);
    if l == i + 1 {
      if High(e, i) == High(ct, i) {
        var m := LevelOf(e, ct);
        if m > i { HighUp(e, ct, i, m - 1); assert false; }
      } else {
        LevelIs(e, ct, i + 1);
        if High(e, i) % LEVEL == High(ct, i) % LEVEL { SameDigit(e, ct, i); assert false; }
      }
    } else {
      HighUp(t, ct, i + 1, l - 1);
      LevelIs(e, ct, l);
    }
  }

  lemma SameBlock(t: Time, l: nat)
    requires l <= 4 && Next(t) % NEAR != 0
    ensures High(t, l) == High(Next(t), l)
  {
    HighUp(t, Next(t), 0, l);
  }

  /** Within a block of 256 ticks nothing changes place. */
  lemma PlacesWithinBlock(e: Time, t: Time)
    requires Next(t) % NEAR != 0
    ensures PlaceOf(e, Next(t)) == PlaceOf(e, t)
  {
    forall l: nat | l <= 4 ensures High(t, l) == High(Next(t), l) {
      SameBlock(t, l);
    }
  }

  /** The slot of the present tick holds the deadline of the present tick and no other. */
  lemma PresentSlot(e: Time, t: Time)
    ensures PlaceOf(e, t) == Place(0, t % NEAR) <==> e == t
  {
  }

  // ----- nodes and the plain list of deadlines -----

  datatype Event = Event(handle: nat, session: int)

  datatype Node = Node(expire: Time, event: Event)

  /** A timer as its owner sees it: `deadline` counts ticks since the start and never wraps. */
  datatype Entry = Entry(deadline: nat, event: Event)

  function NodeOf(en: Entry): Node {
    Node(en.deadline % WORD, en.event)
  }

  /** The nodes of the list of deadlines that belong at `k`, in insertion order. */
  function Slot(p: seq<Entry>, t: Time, k: Place): seq<Node> {
    if p == [] then []
    else
      var rest := Slot(p[..|p| - 1], t, k);
      var n := NodeOf(p[|p| - 1]);
      if PlaceOf(n.expire, t) == k then rest + [n] else rest
  }

  /** The list at `k`, which was `base`, after `add_node` on every node of `ns` in turn. */
  function Sift(base: seq<Node>, ns: seq<Node>, t: Time, k: Place): seq<Node> {
    if ns == [] then base
    else
      var rest := Sift(base, ns[..|ns| - 1], t, k);
      var n := ns[|ns| - 1];
      if PlaceOf(n.expire, t) == k then rest + [n] else rest
  }

  function At(p: seq<Entry>, n: nat): seq<Event> {
    if p == [] then []
    else
      var rest := At(p[..|p| - 1], n);
      if p[|p| - 1].deadline == n then rest + [p[|p| - 1].event] else rest
  }

  function After(p: seq<Entry>, n: nat): (r: seq<Entry>)
    ensures forall en :: en in r <==> en in p && en.deadline > n
  {
    if p == [] then []
    else
      var rest := After(p[..|p| - 1], n);
      assert p == p[..|p| - 1] + [p[|p| - 1]];
      if p[|p| - 1].deadline > n then rest + [p[|p| - 1]] else rest
  }

  function Events(ns: seq<Node>): (r: seq<Event>)
    ensures |r| == |ns|
    ensures forall i :: 0 <= i < |ns| ==> r[i] == ns[i].event
  {
    seq(|ns|, i requires 0 <= i < |ns| => ns[i].event)
  }

  /** Every timer waits for a tick that is not past and less than half a turn away. */
  ghost predicate InReach(p: seq<Entry>, now: nat) {
    forall en :: en in p ==> now <= en.deadline < now + HALF
  }

  lemma InReachButLast(p: seq<Entry>, now: nat)
    requires p != [] && InReach(p, now)
    ensures InReach(p[..|p| - 1], now)
    ensures now <= p[|p| - 1].deadline < now + HALF
  {
    assert p[|p| - 1] in p;
  }

  lemma WrappedAhead(d: nat, now: nat)
    requires now <= d < now + HALF
    ensures d % WORD == now % WORD <==> d == now
    ensures d != now ==> Ahead(d % WORD, now % WORD)
    ensures (now + 1) % WORD == Next(now % WORD)
  {
    var q := now / WORD;
    assert now == q * WORD + now % WORD;
    var x := d - q * WORD;
    assert d % WORD == x % WORD by { assert d == q * WORD + x; ModShift(q, x); }
    assert (now + 1) % WORD == (now % WORD + 1) % WORD by { ModShift(q, now % WORD + 1); }
  }

  lemma {:induction false} ModShift(q: nat, x: nat)
    ensures (q * WORD + x) % WORD == x % WORD
  {
    if q > 0 {
      ModShift(q - 1, x);
      assert q * WORD + x == ((q - 1) * WORD + x) + WORD;
    }
  }

  /** The present slot is exactly what is due. */
  lemma {:induction false} DueSlot(p: seq<Entry>, now: nat)
    requires InReach(p, now)
    ensures Events(Slot(p, now % WORD, Place(0, now % WORD % NEAR))) == At(p, now)
  {
    if p != [] {
      InReachButLast(p, now);
      DueSlot(p[..|p| - 1], now);
      var e := p[|p| - 1];
      WrappedAhead(e.deadline, now);
      PresentSlot(e.deadline % WORD, now % WORD);
    }
  }

  /** Dropping what is due empties the present slot and leaves the others. */
  lemma {:induction false} SlotAfter(p: seq<Entry>, now: nat, k: Place)
    requires InReach(p, now)
    ensures Slot(After(p, now), now % WORD, k) ==
      if k == Place(0, now % WORD % NEAR) then [] else Slot(p, now % WORD, k)
  {
    if p != [] {
      InReachButLast(p, now);
      SlotAfter(p[..|p| - 1], now, k);
      var e := p[|p| - 1];
      WrappedAhead(e.deadline, now);
      PresentSlot(e.deadline % WORD, now % WORD);
      var rest := After(p[..|p| - 1], now);
      assert (rest + [e])[..|rest|] == rest;
    }
  }

  /** Within a block of 256 ticks every slot keeps its list. */
  lemma {:induction false} SlotsWithinBlock(p: seq<Entry>, t: Time, k: Place)
    requires Next(t) % NEAR != 0
    ensures Slot(p, Next(t), k) == Slot(p, t, k)
  {
    if p != [] {
      SlotsWithinBlock(p[..|p| - 1], t, k);
      PlacesWithinBlock(p[|p| - 1].deadline % WORD, t);
    }
  }

  /**
    Entering a slot: its list, put again node by node, gives every lower slot its whole list;
    the slot itself ends up empty, and all others keep theirs.
   */
  lemma {:induction false} SlotsAfterEntering(p: seq<Entry>, now: nat, i: nat, k: Place, base: seq<Node>)
    requires InReach(p, now + 1) && InReach(p, now) && Enters(now % WORD, i)
    ensures
      var t := now % WORD;
      var moved := Slot(p, t, Entered(t, i));
      && (k.level <= i ==> Slot(p, t, k) == [] && Slot(p, Next(t), k) == Sift([], moved, Next(t), k))
      && (k.level > i ==> Sift(base, moved, Next(t), k) == base)
      && (k.level > i ==> Slot(p, Next(t), k) == if k == Entered(t, i) then [] else Slot(p, t, k))
  {
    hide PlaceOf, Ahead, Enters, Slot, Sift;
    var t := now % WORD;
    if p == [] {
      SlotNone(t, k, []);
      SlotNone(Next(t), k, []);
      SlotNone(t, Entered(t, i), base);
      SlotNone(Next(t), k, base);
    } else {
      InReachButLast(p, now + 1);
      InReachButLast(p, now);
      var q, e := p[..|p| - 1], p[|p| - 1];
      SlotsAfterEntering(q, now, i, k, base);
      var n := NodeOf(e);
      WrappedAhead(e.deadline, now);
      PlacesAfterEntering(n.expire, t, i);
      assert p == q + [e];
      SlotNext(q, e, t, k);
      SlotNext(q, e, Next(t), k);
      SlotNext(q, e, t, Entered(t, i));
      SiftNext([], Slot(q, t, Entered(t, i)), n, Next(t), k);
      SiftNext(base, Slot(q, t, Entered(t, i)), n, Next(t), k);
    }
  }

  lemma SlotNone(t: Time, k: Place, base: seq<Node>)
    ensures Slot([], t, k) == [] && Sift(base, [], t, k) == base
  {
  }

  lemma SlotNext(q: seq<Entry>, e: Entry, t: Time, k: Place)
    ensures Slot(q + [e], t, k) ==
      if k == PlaceOf(NodeOf(e).expire, t) then Slot(q, t, k) + [NodeOf(e)] else Slot(q, t, k)
  {
    assert (q + [e])[..|q|] == q;
  }

  lemma SiftNext(base: seq<Node>, ns: seq<Node>, n: Node, t: Time, k: Place)
    ensures Sift(base, ns + [n], t, k) ==
      if k == PlaceOf(n.expire, t) then Sift(base, ns, t, k) + [n] else Sift(base, ns, t, k)
  {
    assert (ns + [n])[..|ns|] == ns;
  }
}
