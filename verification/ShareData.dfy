/**
  A script table frozen into an array part and a hash part: an array of nodes filled in two passes,
  first every key whose own position is free, then the others into the free slots, each linked
  right behind the node at its own position.
 */
module ShareData {
  import opened Ints

  type Int32 = x: int | -0x8000_0000 <= x < 0x8000_0000

  /** A key as a node keeps it: integers have 32 bits. */
  datatype Key = IntKey(i: Int32) | StrKey(s: seq<nat>)

  /** A key as the script has it: integers have 64 bits. */
  datatype LuaKey = LuaInt(n: int) | LuaStr(s: seq<nat>)

  /** A number cast to `int`. */
  function Truncate(n: int): (i: Int32)
    ensures -0x8000_0000 <= n < 0x8000_0000 <==> i == n
  {
    ToInt(n)
  }

  /** The key of a script key: every table function cuts an integer to 32 bits first. */
  function Narrow(k: LuaKey): Key {
    match k
    case LuaInt(n) => IntKey(Truncate(n))
    case LuaStr(s) => StrKey(s)
  }

  function Widen(k: Key): LuaKey {
    match k
    case IntKey(i) => LuaInt(i)
    case StrKey(s) => LuaStr(s)
  }

  predicate Fits(k: LuaKey) {
    k.LuaInt? ==> -0x8000_0000 <= k.n < 0x8000_0000
  }

  /** Cutting loses nothing exactly for strings and integers of 32 bits; any other key falls together with one of those. */
  lemma NarrowIsExact(k: LuaKey)
    ensures Widen(Narrow(k)) == k <==> Fits(k)
    ensures Fits(Widen(Narrow(k))) && Narrow(Widen(Narrow(k))) == Narrow(k)
  {
  }

  /** The 32-bit keys with the values that a script table has for them. */
  ghost predicate Stands<V(!new)>(m: map<Key, V>, src: map<LuaKey, V>) {
    forall k :: k in src ==> Narrow(k) in m && m[Narrow(k)] == src[k]
  }

  /** A table of 32-bit keys can hold every value of a script table under its own key exactly when keys that are cut to the same one have the same value. */
  lemma CutLoses<V(!new)>(src: map<LuaKey, V>)
    ensures (exists m :: Stands(m, src)) <==> forall k, l :: k in src && l in src && Narrow(k) == Narrow(l) ==> src[k] == src[l]
  {
    hide Narrow;
    if forall k, l :: k in src && l in src && Narrow(k) == Narrow(l) ==> src[k] == src[l] {
      var m := CutTable(src);
      assert Stands(m, src);
    }
  }

  ghost function SomeKey<V>(src: map<LuaKey, V>, n: Key): (k: LuaKey)
    requires exists k :: k in src && Narrow(k) == n
    ensures k in src && Narrow(k) == n
  {
    var k :| k in src && Narrow(k) == n;
    k
  }

  ghost function CutTable<V(!new)>(src: map<LuaKey, V>): (m: map<Key, V>)
    requires forall k, l :: k in src && l in src && Narrow(k) == Narrow(l) ==> src[k] == src[l]
    ensures Stands(m, src)
  {
    hide Narrow;
    var cut: set<Key> := set k | k in src :: Narrow(k);
    map n: Key | n in cut :: src[SomeKey(src, n)]
  }

  /** The key of item `a` of the array part, which counts from zero. */
  function ItemKey(a: int): (k: Key)
    ensures 0 <= a < 0x7fff_ffff ==> k == IntKey(a + 1)
  {
    IntKey(Truncate(a + 1))
  }

  datatype Option<+T> = None | Some(value: T)

  /** A node; an unused one has no value.  `next` is a slot, or -1. */
  datatype Node<V> = Node(value: Option<V>, key: Key, keyhash: nat, next: int, nocolliding: bool)

  /** A key and its value; the table is visited in the same order in both passes. */
  datatype Entry<V> = Entry(key: Key, value: V)

  /** The hash of a key; `str` is any hash of strings. */
  function Hash(k: Key, str: seq<nat> -> nat): (h: nat)
    ensures h < 0x1_0000_0000
  {
    match k
    case IntKey(i) => i % 0x1_0000_0000
    case StrKey(s) => str(s) % 0x1_0000_0000
  }

  /** The slot a key belongs to. */
  function Main(k: Key, str: seq<nat> -> nat, n: nat): (m: nat)
    requires n > 0
    ensures m < n
  {
    Hash(k, str) % n
  }

  // ----- the chains, without naming them -----
  //
  // Every slot in use has a stamp: the slots at their own main position the highest, the others the
  // number of the insertion.  A link leads to the slot of the same main position with the next
  // lower stamp.

  datatype Stamps = Stamps(top: nat, at: seq<nat>)

  predicate Used<V>(h: seq<Node<V>>, i: int) {
    0 <= i < |h| && h[i].value.Some?
  }

  ghost predicate SameClass<V>(h: seq<Node<V>>, str: seq<nat> -> nat, i: int, k: int)
    requires 0 <= i < |h| && 0 <= k < |h|
  {
    Main(h[i].key, str, |h|) == Main(h[k].key, str, |h|)
  }

  ghost predicate SlotOk<V>(h: seq<Node<V>>, st: Stamps, str: seq<nat> -> nat, i: int)
    requires |st.at| == |h| && 0 <= i < |h|
  {
    Used(h, i) ==>
      var m := Main(h[i].key, str, |h|);
      && h[i].keyhash == Hash(h[i].key, str)
      && Used(h, m) && SameClass(h, str, m, i)
      && (if i == m then st.at[i] == st.top else st.at[i] < st.top && !h[i].nocolliding && !h[m].nocolliding)
      && (h[i].next == -1 || (Used(h, h[i].next) && SameClass(h, str, i, h[i].next) && st.at[h[i].next] < st.at[i]))
  }

  /** Slots of one main position have different stamps, and no link skips one. */
  ghost predicate PairOk<V>(h: seq<Node<V>>, st: Stamps, str: seq<nat> -> nat, i: int, k: int)
    requires |st.at| == |h| && 0 <= i < |h| && 0 <= k < |h|
  {
    Used(h, i) && Used(h, k) && i != k ==>
      && h[i].key != h[k].key
      && (SameClass(h, str, i, k) ==>
            && st.at[i] != st.at[k]
            && (st.at[k] < st.at[i] ==> 0 <= h[i].next < |h| && st.at[k] <= st.at[h[i].next]))
  }

  ghost predicate Good<V>(h: seq<Node<V>>, st: Stamps, str: seq<nat> -> nat) {
    && |st.at| == |h|
    && (forall i :: 0 <= i < |h| ==> SlotOk(h, st, str, i))
    && (forall i, k :: 0 <= i < |h| && 0 <= k < |h| ==> PairOk(h, st, str, i, k))
  }

  /** The slot `i` holds `key`. */
  predicate Holds<V>(h: seq<Node<V>>, i: int, key: Key) {
    Used(h, i) && h[i].key == key
  }

  ghost predicate Stored<V>(h: seq<Node<V>>, key: Key) {
    exists i :: Holds(h, i, key)
  }

  /** Before the loop: the walk starts at the right end of the right chain, or the key is not there. */
  lemma WalkStart<V>(h: seq<Node<V>>, st: Stamps, str: seq<nat> -> nat, key: Key, i: int)
    requires Good(h, st, str) && Holds(h, i, key)
    ensures var p := Main(key, str, |h|);
            && Used(h, p) && SameClass(h, str, p, i) && st.at[i] <= st.at[p]
            && (h[p].keyhash != Hash(key, str) ==> !h[p].nocolliding)
  {
    var p := Main(key, str, |h|);
    assert SlotOk(h, st, str, i) && SlotOk(h, st, str, p);
  }

  /** One link: it passes no slot that is still ahead. */
  lemma WalkStep<V>(h: seq<Node<V>>, st: Stamps, str: seq<nat> -> nat, cur: int, i: int)
    requires Good(h, st, str) && Used(h, cur) && Used(h, i) && i != cur
    requires SameClass(h, str, cur, i) && st.at[i] <= st.at[cur]
    ensures var n := h[cur].next; Used(h, n) && SameClass(h, str, n, i) && st.at[i] <= st.at[n] < st.at[cur]
  {
    assert PairOk(h, st, str, cur, i) && SlotOk(h, st, str, cur);
  }

  lemma LinkDown<V>(h: seq<Node<V>>, st: Stamps, str: seq<nat> -> nat, cur: int)
    requires Good(h, st, str) && Used(h, cur)
    ensures h[cur].next == -1 || (Used(h, h[cur].next) && st.at[h[cur].next] < st.at[cur])
    ensures h[cur].keyhash == Hash(h[cur].key, str)
  {
    assert SlotOk(h, st, str, cur);
  }

  // ----- the two kinds of insertion -----

  /** A free slot that is the key's main position. */
  lemma FirstPassInsert<V>(h: seq<Node<V>>, st: Stamps, str: seq<nat> -> nat, e: Entry<V>, h1: seq<Node<V>>, st1: Stamps)
    requires Good(h, st, str) && |h| > 0 && !Used(h, Main(e.key, str, |h|)) && !Stored(h, e.key)
    requires var p := Main(e.key, str, |h|);
             h1 == h[p := Node(Some(e.value), e.key, Hash(e.key, str), -1, true)] && st1 == st.(at := st.at[p := st.top])
    ensures Good(h1, st1, str)
  {
    var p := Main(e.key, str, |h|);
    forall i | 0 <= i < |h| ensures SlotOk(h1, st1, str, i) {
      assert SlotOk(h, st, str, i);
    }
    forall i, k | 0 <= i < |h| && 0 <= k < |h| ensures PairOk(h1, st1, str, i, k) {
      assert PairOk(h, st, str, i, k) && SlotOk(h, st, str, i) && SlotOk(h, st, str, k);
      if Used(h, i) { assert Holds(h, i, h[i].key); }
      if Used(h, k) { assert Holds(h, k, h[k].key); }
    }
  }

  /** The state after a second-pass insertion into the free slot `n`. */
  ghost predicate Linked<V>(h: seq<Node<V>>, st: Stamps, str: seq<nat> -> nat, e: Entry<V>, n: nat, stamp: nat,
                            h1: seq<Node<V>>, st1: Stamps)
  {
    && Good(h, st, str) && n < |h| && !Used(h, n) && !Stored(h, e.key) && stamp < st.top
    && (forall i :: Used(h, i) ==> st.at[i] < stamp || st.at[i] == st.top)
    && var p := Main(e.key, str, |h|);
    && Used(h, p) && Main(h[p].key, str, |h|) == p
    && h1 == h[p := h[p].(next := n, nocolliding := false)]
              [n := Node(Some(e.value), e.key, Hash(e.key, str), h[p].next, false)]
    && st1 == st.(at := st.at[n := stamp])
  }

  lemma LinkedSlot<V>(h: seq<Node<V>>, st: Stamps, str: seq<nat> -> nat, e: Entry<V>, n: nat, stamp: nat,
                      h1: seq<Node<V>>, st1: Stamps, i: int)
    requires Linked(h, st, str, e, n, stamp, h1, st1) && 0 <= i < |h|
    ensures SlotOk(h1, st1, str, i)
  {
    hide Hash;
    assert SlotOk(h, st, str, i) && SlotOk(h, st, str, Main(e.key, str, |h|));
  }

  lemma LinkedPair<V>(h: seq<Node<V>>, st: Stamps, str: seq<nat> -> nat, e: Entry<V>, n: nat, stamp: nat,
                      h1: seq<Node<V>>, st1: Stamps, i: int, k: int)
    requires Linked(h, st, str, e, n, stamp, h1, st1) && 0 <= i < |h| && 0 <= k < |h|
    ensures PairOk(h1, st1, str, i, k)
  {
    hide Hash;
    var p := Main(e.key, str, |h|);
    assert PairOk(h, st, str, i, k) && PairOk(h, st, str, p, i) && PairOk(h, st, str, p, k);
    assert SlotOk(h, st, str, i) && SlotOk(h, st, str, k) && SlotOk(h, st, str, p);
    if Used(h, i) { assert Holds(h, i, h[i].key); }
    if Used(h, k) { assert Holds(h, k, h[k].key); }
  }

  /** A free slot elsewhere, linked right behind the main position. */
  lemma SecondPassInsert<V>(h: seq<Node<V>>, st: Stamps, str: seq<nat> -> nat, e: Entry<V>, n: nat, stamp: nat,
                            h1: seq<Node<V>>, st1: Stamps)
    requires Linked(h, st, str, e, n, stamp, h1, st1)
    ensures Good(h1, st1, str)
  {
    hide SlotOk, PairOk;
    forall i | 0 <= i < |h| ensures SlotOk(h1, st1, str, i) {
      LinkedSlot(h, st, str, e, n, stamp, h1, st1, i);
    }
    forall i, k | 0 <= i < |h| && 0 <= k < |h| ensures PairOk(h1, st1, str, i, k) {
      LinkedPair(h, st, str, e, n, stamp, h1, st1, i, k);
    }
  }

  // ----- counting slots -----

  ghost function KeysUpTo<V>(h: seq<Node<V>>, n: nat): set<Key>
    requires n <= |h|
  {
    if n == 0 then {}
    else if Used(h, n - 1) then KeysUpTo(h, n - 1) + {h[n - 1].key}
    else KeysUpTo(h, n - 1)
  }

  lemma {:induction false} KeysAre<V>(h: seq<Node<V>>, n: nat, k: Key)
    requires n <= |h|
    ensures k in KeysUpTo(h, n) <==> exists i :: 0 <= i < n && Holds(h, i, k)
  {
    if n > 0 {
      KeysAre(h, n - 1, k);
      if k in KeysUpTo(h, n) && k !in KeysUpTo(h, n - 1) { assert Holds(h, n - 1, k); }
    }
  }

  lemma {:induction false} CountSlots<V>(h: seq<Node<V>>, st: Stamps, str: seq<nat> -> nat, n: nat)
    requires Good(h, st, str) && n <= |h|
    ensures |KeysUpTo(h, n)| <= n
    ensures |KeysUpTo(h, n)| == n <==> forall i :: 0 <= i < n ==> Used(h, i)
  {
    hide Good;
    if n > 0 {
      CountSlots(h, st, str, n - 1);
      if Used(h, n - 1) {
        KeyElsewhere(h, st, str, n - 1);
      }
    }
  }

  lemma KeyElsewhere<V>(h: seq<Node<V>>, st: Stamps, str: seq<nat> -> nat, n: nat)
    requires Good(h, st, str) && Used(h, n)
    ensures h[n].key !in KeysUpTo(h, n)
  {
    KeysAre(h, n, h[n].key);
    forall i | 0 <= i < n ensures !Holds(h, i, h[n].key) {
      assert PairOk(h, st, str, i, n);
    }
  }

  /** While a key is missing there is a free slot. */
  lemma FreeSlot<V>(h: seq<Node<V>>, st: Stamps, str: seq<nat> -> nat, all: set<Key>, key: Key)
    requires Good(h, st, str) && |all| == |h| && key in all && !Stored(h, key)
    requires forall i :: Used(h, i) ==> h[i].key in all
    ensures exists n :: 0 <= n < |h| && !Used(h, n)
  {
    hide Good;
    CountSlots(h, st, str, |h|);
    forall k | k in KeysUpTo(h, |h|) ensures k in all - {key} {
      KeysAre(h, |h|, k);
    }
    Smaller(KeysUpTo(h, |h|), all - {key});
  }

  lemma {:induction false} Smaller(a: set<Key>, b: set<Key>)
    requires a <= b
    ensures |a| <= |b|
    decreases a
  {
    if a != {} {
      var x :| x in a;
      Smaller(a - {x}, b - {x});
    }
  }

  /** When every key is stored no slot is free. */
  lemma NoFreeSlot<V>(h: seq<Node<V>>, st: Stamps, str: seq<nat> -> nat, all: set<Key>, n: nat)
    requires Good(h, st, str) && |all| == |h| && n < |h|
    requires forall k :: k in all ==> Stored(h, k)
    ensures Used(h, n)
  {
    hide Good;
    CountSlots(h, st, str, |h|);
    forall k | k in all ensures k in KeysUpTo(h, |h|) {
      KeysAre(h, |h|, k);
      assert Stored(h, k);
    }
    Smaller(all, KeysUpTo(h, |h|));
  }

  // ----- the source table -----

  predicate InArray(k: Key, sizearray: nat) {
    k.IntKey? && 0 < k.i <= sizearray
  }

  ghost predicate Enumerates<V>(es: seq<Entry<V>>, src: map<Key, V>) {
    && (forall i :: 0 <= i < |es| ==> es[i].key in src && src[es[i].key] == es[i].value)
    && (forall k :: k in src ==> exists i :: 0 <= i < |es| && es[i].key == k)
    && (forall i, j :: 0 <= i < j < |es| ==> es[i].key != es[j].key)
  }

  ghost function HashKeys<V>(es: seq<Entry<V>>, sizearray: nat, t: nat): set<Key>
    requires t <= |es|
  {
    set i | 0 <= i < t && !InArray(es[i].key, sizearray) :: es[i].key
  }

  /** `countsize`. */
  method CountSize<V>(es: seq<Entry<V>>, sizearray: nat) returns (n: nat)
    requires forall i, j :: 0 <= i < j < |es| ==> es[i].key != es[j].key
    ensures n == |HashKeys(es, sizearray, |es|)|
  {
    n := 0;
    var t := 0;
    while t < |es|
      invariant t <= |es| && n == |HashKeys(es, sizearray, t)|
    {
      if InArray(es[t].key, sizearray) {
        assert HashKeys(es, sizearray, t + 1) == HashKeys(es, sizearray, t);
      } else {
        assert HashKeys(es, sizearray, t + 1) == HashKeys(es, sizearray, t) + {es[t].key};
        assert es[t].key !in HashKeys(es, sizearray, t);
        n := n + 1;
      }
      t := t + 1;
    }
  }

  /** Used slots hold source entries. */
  ghost predicate FromSource<V>(h: seq<Node<V>>, src: map<Key, V>, sizearray: nat) {
    forall i :: Used(h, i) ==>
      h[i].key in src && h[i].value == Some(src[h[i].key]) && !InArray(h[i].key, sizearray)
  }

  ghost predicate Early<V>(es: seq<Entry<V>>, t: nat, k: Key)
    requires t <= |es|
  {
    exists j :: 0 <= j < t && es[j].key == k
  }

  /** The first `t` entries have been through the first pass. */
  ghost predicate FirstPass<V>(h: seq<Node<V>>, st: Stamps, str: seq<nat> -> nat, es: seq<Entry<V>>, src: map<Key, V>, sizearray: nat, t: nat) {
    && t <= |es| && Good(h, st, str) && FromSource(h, src, sizearray)
    && (forall i :: Used(h, i) ==> Main(h[i].key, str, |h|) == i && st.at[i] == st.top && Early(es, t, h[i].key))
    && (forall j :: 0 <= j < t && !InArray(es[j].key, sizearray) ==> |h| > 0 && Used(h, Main(es[j].key, str, |h|)))
  }

  /** All entries have been through the first pass, and the first `t` through the second. */
  ghost predicate SecondPass<V>(h: seq<Node<V>>, st: Stamps, str: seq<nat> -> nat, es: seq<Entry<V>>, src: map<Key, V>, sizearray: nat, t: nat) {
    && t <= |es| && Good(h, st, str) && FromSource(h, src, sizearray) && st.top > |es|
    && (forall i :: Used(h, i) ==>
          (Main(h[i].key, str, |h|) == i && st.at[i] == st.top) || (st.at[i] < t && Early(es, t, h[i].key)))
    && (forall j :: 0 <= j < |es| && !InArray(es[j].key, sizearray) ==>
          |h| > 0 && var m := Main(es[j].key, str, |h|); Used(h, m) && Main(h[m].key, str, |h|) == m)
    && (forall j :: 0 <= j < t && !InArray(es[j].key, sizearray) ==> Stored(h, es[j].key))
  }

  lemma FirstToSecond<V>(h: seq<Node<V>>, st: Stamps, str: seq<nat> -> nat, es: seq<Entry<V>>, src: map<Key, V>, sizearray: nat)
    requires FirstPass(h, st, str, es, src, sizearray, |es|) && st.top > |es|
    ensures SecondPass(h, st, str, es, src, sizearray, 0)
  {
  }

  lemma FirstSkip<V>(h: seq<Node<V>>, st: Stamps, str: seq<nat> -> nat, es: seq<Entry<V>>, src: map<Key, V>, sizearray: nat, t: nat)
    requires FirstPass(h, st, str, es, src, sizearray, t) && t < |es|
    requires !InArray(es[t].key, sizearray) ==> |h| > 0 && Used(h, Main(es[t].key, str, |h|))
    ensures FirstPass(h, st, str, es, src, sizearray, t + 1)
  {
    hide Good;
    forall i | Used(h, i) ensures Early(es, t + 1, h[i].key) {
      assert Early(es, t, h[i].key);
    }
  }

  lemma FirstInsert<V>(h: seq<Node<V>>, st: Stamps, str: seq<nat> -> nat, es: seq<Entry<V>>, src: map<Key, V>, sizearray: nat, t: nat,
                       h1: seq<Node<V>>, st1: Stamps)
    requires FirstPass(h, st, str, es, src, sizearray, t) && t < |es| && Enumerates(es, src) && |h| > 0
    requires var e := es[t]; !InArray(e.key, sizearray) && !Used(h, Main(e.key, str, |h|))
    requires var e, p := es[t], Main(es[t].key, str, |h|);
             h1 == h[p := Node(Some(e.value), e.key, Hash(e.key, str), -1, true)] && st1 == st.(at := st.at[p := st.top])
    ensures FirstPass(h1, st1, str, es, src, sizearray, t + 1)
  {
    hide Good, Hash;
    var e := es[t];
    assert !Stored(h, e.key) by {
      forall i ensures !Holds(h, i, e.key) {
      }
    }
    FirstPassInsert(h, st, str, e, h1, st1);
    GoodLength(h, st, str);
    forall i | Used(h1, i) ensures Early(es, t + 1, h1[i].key) {
      if i == Main(e.key, str, |h|) { assert es[t].key == e.key; } else { assert Used(h, i) && Early(es, t, h[i].key); }
    }
  }

  lemma NotYetStored<V>(h: seq<Node<V>>, st: Stamps, str: seq<nat> -> nat, es: seq<Entry<V>>, src: map<Key, V>, sizearray: nat, t: nat)
    requires SecondPass(h, st, str, es, src, sizearray, t) && t < |es| && Enumerates(es, src) && !InArray(es[t].key, sizearray)
    requires h[Main(es[t].key, str, |h|)].key != es[t].key
    ensures !Stored(h, es[t].key)
  {
    hide Good;
    forall i ensures !Holds(h, i, es[t].key) {
    }
  }

  lemma SecondSkip<V>(h: seq<Node<V>>, st: Stamps, str: seq<nat> -> nat, es: seq<Entry<V>>, src: map<Key, V>, sizearray: nat, t: nat)
    requires SecondPass(h, st, str, es, src, sizearray, t) && t < |es|
    requires !InArray(es[t].key, sizearray) ==> h[Main(es[t].key, str, |h|)].key == es[t].key
    ensures SecondPass(h, st, str, es, src, sizearray, t + 1)
  {
    hide Good;
    forall i | Used(h, i) && Early(es, t, h[i].key) ensures Early(es, t + 1, h[i].key) {
    }
    if !InArray(es[t].key, sizearray) { assert Holds(h, Main(es[t].key, str, |h|), es[t].key); }
  }

  lemma SecondInsert<V>(h: seq<Node<V>>, st: Stamps, str: seq<nat> -> nat, es: seq<Entry<V>>, src: map<Key, V>, sizearray: nat, t: nat,
                        n: nat, h1: seq<Node<V>>, st1: Stamps)
    requires SecondPass(h, st, str, es, src, sizearray, t) && t < |es| && Enumerates(es, src)
    requires !InArray(es[t].key, sizearray) && Linked(h, st, str, es[t], n, t, h1, st1)
    ensures SecondPass(h1, st1, str, es, src, sizearray, t + 1)
  {
    hide Good, Hash;
    var e := es[t];
    SecondPassInsert(h, st, str, e, n, t, h1, st1);
    GoodLength(h, st, str);
    forall i | Used(h1, i) && i != n ensures Used(h, i) && h1[i].key == h[i].key && h1[i].value == h[i].value {
    }
    forall i | Used(h, i) && Early(es, t, h[i].key) ensures Early(es, t + 1, h[i].key) {
    }
    assert Early(es, t + 1, e.key);
    forall j | 0 <= j < t + 1 && !InArray(es[j].key, sizearray) ensures Stored(h1, es[j].key) {
      LinkedStored(h, st, str, e, n, t, h1, st1, es[j].key);
    }
  }

  lemma LinkedStored<V>(h: seq<Node<V>>, st: Stamps, str: seq<nat> -> nat, e: Entry<V>, n: nat, stamp: nat,
                        h1: seq<Node<V>>, st1: Stamps, k: Key)
    requires Linked(h, st, str, e, n, stamp, h1, st1)
    ensures Stored(h, k) || k == e.key ==> Stored(h1, k)
  {
    hide Good, Hash;
    assert Holds(h1, n, e.key);
    if Stored(h, k) {
      var i :| Holds(h, i, k);
      assert Holds(h1, i, k);
    }
  }

  function Leading(ks: seq<Key>): Option<Key> {
    if ks == [] then None else Some(ks[0])
  }

  function Widened(k: Option<Key>): Option<LuaKey> {
    if k.None? then None else Some(Widen(k.value))
  }

  /** The source table as the script sees it, all its integer keys having 32 bits. */
  ghost function InScript<V>(src: map<Key, V>, key: LuaKey): Option<V> {
    if Fits(key) && Narrow(key) in src then Some(src[Narrow(key)]) else None
  }

  class Table<V> {
    const str: seq<nat> -> nat
    const items: array<Option<V>>
    const hash: array<Node<V>>
    ghost var stamps: Stamps

    /** Empty arrays of the given sizes. */
    constructor (str: seq<nat> -> nat, sizearray: nat, sizehash: nat, ghost top: nat)
      ensures this.str == str && items.Length == sizearray && hash.Length == sizehash
      ensures fresh(items) && fresh(hash) && stamps.top == top
      ensures Good(hash[..], stamps, str) && forall i :: !Used(hash[..], i)
      ensures forall i :: 0 <= i < sizearray ==> items[i] == None
    {
      this.str := str;
      items := new Option<V>[sizearray](_ => None);
      hash := new Node<V>[sizehash](_ => Node(None, IntKey(0), 0, 0, false));
      stamps := Stamps(top, seq(sizehash, _ => 0));
    }

    /** `lookup_key` in a finished table: follow the links from the key's main position. */
    method LookupKey(key: Key) returns (r: Option<nat>)
      requires Good(hash[..], stamps, str) && forall i :: 0 <= i < hash.Length ==> Used(hash[..], i)
      ensures r.Some? <==> Stored(hash[..], key)
      ensures r.Some? ==> Holds(hash[..], r.value, key)
    {
      hide Good, SameClass, Hash;
      ghost var h := hash[..];
      if hash.Length == 0 {
        return None;
      }
      var keyhash := Hash(key, str);
      var n: int := keyhash % hash.Length;
      assert n == Main(key, str, |h|);
      GoodLength(h, stamps, str);
      forall i | Holds(h, i, key)
        ensures SameClass(h, str, n, i) && stamps.at[i] <= stamps.at[n] && (h[n].keyhash != keyhash ==> !h[n].nocolliding)
      {
        WalkStart(h, stamps, str, key, i);
      }
      if keyhash != hash[n].keyhash && hash[n].nocolliding {
        return None;
      }
      while true
        invariant Used(h, n)
        invariant forall i :: Holds(h, i, key) ==> SameClass(h, str, n, i) && stamps.at[i] <= stamps.at[n]
        decreases stamps.at[n]
      {
        LinkDown(h, stamps, str, n);
        if keyhash == hash[n].keyhash && hash[n].key == key {
          assert Holds(h, n, key);
          return Some(n);
        }
        forall i | Holds(h, i, key)
          ensures Used(h, h[n].next) && SameClass(h, str, h[n].next, i) && stamps.at[i] <= stamps.at[h[n].next]
        {
          WalkStep(h, stamps, str, n, i);
        }
        if hash[n].next < 0 {
          return None;
        }
        n := hash[n].next;
      }
    }

    /** The array part holds the first `t` entries whose keys belong there. */
    ghost predicate ItemsOk(es: seq<Entry<V>>, t: nat)
      requires t <= |es|
      reads items
    {
      && items.Length < 0x8000_0000
      && (forall j :: 0 <= j < t && InArray(es[j].key, items.Length) ==> items[es[j].key.i - 1] == Some(es[j].value))
      && (forall a :: 0 <= a < items.Length && items[a].Some? ==> Early(es, t, ItemKey(a)))
    }

    /** `fillnocolliding`: the array part, and every key whose main position is free. */
    method FillNoColliding(es: seq<Entry<V>>, ghost src: map<Key, V>)
      requires Enumerates(es, src) && FirstPass(hash[..], stamps, str, es, src, items.Length, 0) && ItemsOk(es, 0)
      requires hash.Length == |HashKeys(es, items.Length, |es|)|
      modifies this`stamps, items, hash
      ensures FirstPass(hash[..], stamps, str, es, src, items.Length, |es|) && stamps.top == old(stamps.top)
      ensures ItemsOk(es, |es|)
    {
      hide FirstPass, Hash, ItemsOk;
      var t := 0;
      while t < |es|
        invariant t <= |es| && stamps.top == old(stamps.top)
        invariant FirstPass(hash[..], stamps, str, es, src, items.Length, t) && ItemsOk(es, t)
      {
        var e := es[t];
        ghost var h, st := hash[..], stamps;
        if InArray(e.key, items.Length) {
          FirstSkip(h, st, str, es, src, items.Length, t);
          SetItem(es, t);
        } else {
          NotEmpty(es, items.Length, t);
          var p := Hash(e.key, str) % hash.Length;
          assert p == Main(e.key, str, |h|);
          if hash[p].value.None? {
            hash[p] := Node(Some(e.value), e.key, Hash(e.key, str), -1, true);
            FirstPassShape(h, st, str, es, src, items.Length, t);
            stamps := st.(at := st.at[p := st.top]);
            assert hash[..] == h[p := hash[p]];
            FirstInsert(h, st, str, es, src, items.Length, t, hash[..], stamps);
          } else {
            FirstSkip(h, st, str, es, src, items.Length, t);
          }
          ItemsSkip(es, t);
        }
        t := t + 1;
      }
    }

    /** `setarray`. */
    method SetItem(es: seq<Entry<V>>, t: nat)
      requires t < |es| && ItemsOk(es, t) && InArray(es[t].key, items.Length)
      requires forall i, j :: 0 <= i < j < |es| ==> es[i].key != es[j].key
      modifies items
      ensures ItemsOk(es, t + 1)
    {
      EarlyGrows(es, t);
      items[es[t].key.i - 1] := Some(es[t].value);
    }

    lemma ItemsSkip(es: seq<Entry<V>>, t: nat)
      requires t < |es| && ItemsOk(es, t) && !InArray(es[t].key, items.Length)
      ensures ItemsOk(es, t + 1)
    {
      EarlyGrows(es, t);
    }

    /** `fillcolliding`: the remaining keys, each into the first free slot. */
    method FillColliding(es: seq<Entry<V>>, ghost src: map<Key, V>)
      requires Enumerates(es, src) && SecondPass(hash[..], stamps, str, es, src, items.Length, 0)
      requires hash.Length == |HashKeys(es, items.Length, |es|)|
      modifies this`stamps, hash
      ensures SecondPass(hash[..], stamps, str, es, src, items.Length, |es|)
    {
      hide SecondPass, Hash, Linked;
      var t := 0;
      while t < |es|
        invariant t <= |es|
        invariant SecondPass(hash[..], stamps, str, es, src, items.Length, t)
      {
        var e := es[t];
        ghost var h, st := hash[..], stamps;
        if !InArray(e.key, items.Length) {
          NotEmpty(es, items.Length, t);
          var p := Hash(e.key, str) % hash.Length;
          assert p == Main(e.key, str, |h|);
          if hash[p].key == e.key {
            SecondSkip(h, st, str, es, src, items.Length, t);
          } else {
            NotYetStored(h, st, str, es, src, items.Length, t);
            SomeSlotFree(h, st, str, es, src, items.Length, t);
            var n := FirstFree();
            LinkSlot(e, p, n);
            stamps := st.(at := st.at[n := t]);
            SecondShape(h, st, str, es, src, items.Length, t, n, hash[..], stamps);
            SecondInsert(h, st, str, es, src, items.Length, t, n, hash[..], stamps);
          }
        } else {
          SecondSkip(h, st, str, es, src, items.Length, t);
        }
        t := t + 1;
      }
    }

    method FirstFree() returns (n: nat)
      requires exists i :: 0 <= i < hash.Length && !Used(hash[..], i)
      ensures n < hash.Length && !Used(hash[..], n)
    {
      n := 0;
      while hash[n].value.Some?
        invariant n < hash.Length && forall i :: 0 <= i < n ==> Used(hash[..], i)
        decreases hash.Length - n
      {
        assert Used(hash[..], n);
        n := n + 1;
      }
    }

    method LinkSlot(e: Entry<V>, p: nat, n: nat)
      requires p < hash.Length && n < hash.Length && p != n
      modifies hash
      ensures var h := old(hash[..]);
              hash[..] == h[p := h[p].(next := n, nocolliding := false)][n := Node(Some(e.value), e.key, Hash(e.key, str), h[p].next, false)]
    {
      var next := hash[p].next;
      hash[p] := hash[p].(next := n, nocolliding := false);
      hash[n] := Node(Some(e.value), e.key, Hash(e.key, str), next, false);
    }

    /** A finished table for the source table `src`. */
    ghost predicate Frozen(src: map<Key, V>)
      reads this, items, hash
    {
      && items.Length < 0x8000_0000
      && Good(hash[..], stamps, str) && FromSource(hash[..], src, items.Length)
      && (forall i :: 0 <= i < hash.Length ==> Used(hash[..], i))
      && (forall k :: k in src && !InArray(k, items.Length) ==> Stored(hash[..], k))
      && (forall a :: 0 <= a < items.Length ==>
            items[a] == if ItemKey(a) in src then Some(src[ItemKey(a)]) else None)
    }

    /** `lindexconf`: agrees with the source table on present and on absent keys. */
    method Index(key: Key, ghost src: map<Key, V>) returns (r: Option<V>)
      requires Frozen(src)
      ensures r == if key in src then Some(src[key]) else None
    {
      hide Good;
      if InArray(key, items.Length) {
        return items[key.i - 1];
      }
      var n := LookupKey(key);
      if n.None? {
        return None;
      }
      assert Holds(hash[..], n.value, key);
      r := hash[n.value].value;
    }

    /** The order of iteration: the array part from index `a`, then the nodes from slot `i`. */
    ghost function Order(a: nat, i: nat): seq<Key>
      requires a <= items.Length && i <= hash.Length
      reads items, hash
      decreases items.Length - a, hash.Length - i
    {
      if a < items.Length then (if items[a].Some? then [ItemKey(a)] + Order(a + 1, i) else Order(a + 1, i))
      else if i < hash.Length then [hash[i].key] + Order(a, i + 1)
      else []
    }

    /** `k` is the first key from where the iteration stands. */
    ghost predicate Standing(k: Option<Key>, a: nat, i: nat)
      reads items, hash
    {
      && a <= items.Length && i <= hash.Length
      && (k.None? ==> Order(a, i) == [])
      && (k.Some? && InArray(k.value, items.Length) ==> a < items.Length && k.value == ItemKey(a) && items[a].Some? && i == 0)
      && (k.Some? && !InArray(k.value, items.Length) ==> a == items.Length && i < hash.Length && k.value == hash[i].key)
    }

    /** `lnextkey`: the key after `prev`, or the first one.  `a` and `i` tell where the iteration then stands. */
    method NextKey(prev: Option<Key>, ghost src: map<Key, V>) returns (r: Option<Key>, ghost a: nat, ghost i: nat)
      requires Frozen(src)
      ensures a <= items.Length && i <= hash.Length
      ensures prev.None? ==> Order(a, i) == Order(0, 0)
      ensures prev.Some? && InArray(prev.value, items.Length) ==> a >= prev.value.i && Order(a, i) == Order(prev.value.i, 0)
      ensures prev.Some? && !InArray(prev.value, items.Length) && prev.value in src ==>
        a == items.Length && i > 0 && Holds(hash[..], i - 1, prev.value)
      ensures Standing(r, a, i)
      ensures prev.None? ==> r == Leading(Order(0, 0))
      ensures prev.Some? && InArray(prev.value, items.Length) ==> r == Leading(Order(prev.value.i, 0))
      ensures prev.Some? && !InArray(prev.value, items.Length) && prev.value !in src ==> r == None
      ensures prev.Some? && !InArray(prev.value, items.Length) && prev.value in src ==>
        exists n :: Holds(hash[..], n, prev.value) && r == if n + 1 < hash.Length then Some(hash[n + 1].key) else None
    {
      hide Good;
      i := 0;
      var from := 0;
      if prev.Some? && !InArray(prev.value, items.Length) {
        var n := LookupKey(prev.value);
        assert prev.value in src ==> Stored(hash[..], prev.value);
        if n.None? {
          return None, items.Length, hash.Length;
        }
        a, i := items.Length, n.value + 1;
        assert Holds(hash[..], n.value, prev.value);
        if n.value + 1 == hash.Length {
          return None, a, i;
        }
        assert Used(hash[..], i);
        return Some(hash[n.value + 1].key), a, i;
      }
      if prev.Some? {
        from := prev.value.i;
      }
      ghost var start := from;
      while from < items.Length
        invariant start <= from <= items.Length && Order(from, 0) == Order(start, 0)
      {
        if items[from].Some? {
          return Some(ItemKey(from)), from, 0;
        }
        from := from + 1;
      }
      a := from;
      if hash.Length > 0 {
        assert Used(hash[..], 0);
        return Some(hash[0].key), a, i;
      }
      r := None;
    }

    lemma Here(a: nat, i: nat, key: Key, src: map<Key, V>)
      requires Frozen(src) && Standing(Some(key), a, i)
      ensures key in src && a <= items.Length && i <= hash.Length
    {
      hide Good;
      if !InArray(key, items.Length) { assert Used(hash[..], i); }
    }

    lemma OrderNext(a: nat, i: nat, key: Key, a1: nat, i1: nat, src: map<Key, V>)
      requires Frozen(src) && Standing(Some(key), a, i) && a1 <= items.Length && i1 <= hash.Length
      requires InArray(key, items.Length) ==> a1 >= key.i && Order(a1, i1) == Order(key.i, 0)
      requires !InArray(key, items.Length) ==> a1 == items.Length && i1 > 0 && Holds(hash[..], i1 - 1, key)
      ensures Order(a, i) == [key] + Order(a1, i1)
      ensures a < a1 || (a == a1 && i < i1)
    {
      if !InArray(key, items.Length) {
        assert Used(hash[..], i);
        assert PairOk(hash[..], stamps, str, i, i1 - 1);
      }
    }

    /** `lindexconf`, for a script key: what is found is right exactly unless a key of more than 32 bits meets a stored one. */
    method IndexConf(key: LuaKey, ghost src: map<Key, V>) returns (r: Option<V>)
      requires Frozen(src)
      ensures r == if Narrow(key) in src then Some(src[Narrow(key)]) else None
      ensures r == InScript(src, key) <==> Fits(key) || Narrow(key) !in src
    {
      r := Index(Narrow(key), src);
    }

    /** `lnextkey`, for a script key. */
    method NextConf(prev: Option<LuaKey>, ghost src: map<Key, V>) returns (r: Option<LuaKey>)
      requires Frozen(src)
      ensures prev.None? ==> r == Widened(Leading(Order(0, 0)))
      ensures prev.Some? && InArray(Narrow(prev.value), items.Length) ==>
        r == Widened(Leading(Order(Narrow(prev.value).i, 0)))
      ensures prev.Some? && !InArray(Narrow(prev.value), items.Length) && Narrow(prev.value) !in src ==> r == None
      ensures prev.Some? && !InArray(Narrow(prev.value), items.Length) && Narrow(prev.value) in src ==>
        exists n :: Holds(hash[..], n, Narrow(prev.value)) && r == Widened(Leading(Order(items.Length, n + 1)))
      ensures r.Some? ==> Fits(r.value)
    {
      var cut := if prev.None? then None else Some(Narrow(prev.value));
      var k, _, _ := NextKey(cut, src);
      r := Widened(k);
    }

    /** Iterating from nil to the end visits the keys in this order. */
    method Visit(ghost src: map<Key, V>) returns (ks: seq<Key>)
      requires Frozen(src)
      ensures ks == Order(0, 0)
    {
      hide Good, Frozen, Order, Standing;
      ks := [];
      var k: Option<Key>;
      ghost var a: nat;
      ghost var i: nat;
      k, a, i := NextKey(None, src);
      while k.Some?
        invariant a <= items.Length && i <= hash.Length && Order(0, 0) == ks + Order(a, i) && Standing(k, a, i)
        decreases items.Length - a, hash.Length - i
      {
        Here(a, i, k.value, src);
        ghost var before, a0, i0 := ks, a, i;
        ks := ks + [k.value];
        var key := k.value;
        k, a, i := NextKey(k, src);
        OrderNext(a0, i0, key, a, i, src);
        assert before + ([key] + Order(a, i)) == ks + Order(a, i);
      }
      AtEnd(a, i);
    }

    lemma AtEnd(a: nat, i: nat)
      requires Standing(None, a, i)
      ensures Order(a, i) == []
    {
    }

    lemma {:induction false} OrderHas(a: nat, i: nat, k: Key)
      requires a <= items.Length && i <= hash.Length
      ensures k in Order(a, i) <==>
        || (exists x :: a <= x < items.Length && items[x].Some? && k == ItemKey(x))
        || (exists x :: i <= x < hash.Length && k == hash[x].key)
      decreases items.Length - a, hash.Length - i
    {
      if a < items.Length { OrderHas(a + 1, i, k); }
      else if i < hash.Length { OrderHas(a, i + 1, k); }
    }

    /** Every key of the source table is visited, and nothing else. */
    lemma VisitsAll(src: map<Key, V>, k: Key)
      requires Frozen(src)
      ensures k in Order(0, 0) <==> k in src
    {
      hide Good;
      OrderHas(0, 0, k);
      if k in src && InArray(k, items.Length) { assert items[k.i - 1].Some?; }
      if k in src && !InArray(k, items.Length) {
        var x :| Holds(hash[..], x, k);
        assert k == hash[x].key;
      }
      forall x | 0 <= x < hash.Length ensures hash[x].key in src { assert Used(hash[..], x); }
    }

    /** No key is visited twice. */
    lemma {:induction false} VisitsOnce(src: map<Key, V>, a: nat, i: nat)
      requires Frozen(src) && a <= items.Length && i <= hash.Length
      ensures forall x, y :: 0 <= x < y < |Order(a, i)| ==> Order(a, i)[x] != Order(a, i)[y]
      decreases items.Length - a, hash.Length - i
    {
      if a < items.Length {
        VisitsOnce(src, a + 1, i);
        OrderHas(a + 1, i, ItemKey(a));
        forall x | 0 <= x < hash.Length ensures hash[x].key != ItemKey(a) { assert Used(hash[..], x); }
      } else if i < hash.Length {
        VisitsOnce(src, a, i + 1);
        OrderHas(a, i + 1, hash[i].key);
        forall x | i < x < hash.Length ensures hash[x].key != hash[i].key {
          assert Used(hash[..], x) && Used(hash[..], i);
          assert PairOk(hash[..], stamps, str, i, x);
        }
      }
    }
  }

  /** `convtable`: count, then fill in two passes; the size of the array part is an `int`. */
  method ConvTable<V>(str: seq<nat> -> nat, es: seq<Entry<V>>, sizearray: nat, ghost src: map<Key, V>) returns (t: Table<V>)
    requires Enumerates(es, src) && sizearray < 0x8000_0000
    ensures t.Frozen(src) && t.items.Length == sizearray && fresh(t)
  {
    hide Good;
    var sizehash := CountSize(es, sizearray);
    t := new Table<V>(str, sizearray, sizehash, |es| + 1);
    t.FillNoColliding(es, src);
    FirstToSecond(t.hash[..], t.stamps, str, es, src, sizearray);
    t.FillColliding(es, src);
    Finished(t, es, src);
  }

  lemma Finished<V>(t: Table<V>, es: seq<Entry<V>>, src: map<Key, V>)
    requires Enumerates(es, src) && SecondPass(t.hash[..], t.stamps, t.str, es, src, t.items.Length, |es|)
    requires t.ItemsOk(es, |es|) && t.hash.Length == |HashKeys(es, t.items.Length, |es|)|
    ensures t.Frozen(src)
  {
    hide Good;
    var h, all := t.hash[..], HashKeys(es, t.items.Length, |es|);
    forall k | k in all ensures Stored(h, k) {
    }
    forall i | 0 <= i < |h| ensures Used(h, i) {
      NoFreeSlot(h, t.stamps, t.str, all, i);
    }
    forall k | k in src && !InArray(k, t.items.Length) ensures Stored(h, k) {
      assert k in all;
    }
    forall a | 0 <= a < t.items.Length
      ensures t.items[a] == if ItemKey(a) in src then Some(src[ItemKey(a)]) else None
    {
      if ItemKey(a) in src {
        var j :| 0 <= j < |es| && es[j].key == ItemKey(a);
      }
    }
  }

  lemma EarlyGrows<V>(es: seq<Entry<V>>, t: nat)
    requires t < |es|
    ensures forall k :: Early(es, t, k) ==> Early(es, t + 1, k)
    ensures Early(es, t + 1, es[t].key)
  {
  }

  lemma NotEmpty<V>(es: seq<Entry<V>>, sizearray: nat, t: nat)
    requires t < |es| && !InArray(es[t].key, sizearray)
    ensures |HashKeys(es, sizearray, |es|)| > 0 && es[t].key in HashKeys(es, sizearray, |es|)
  {
    assert es[t].key in HashKeys(es, sizearray, |es|);
  }

  lemma FirstPassShape<V>(h: seq<Node<V>>, st: Stamps, str: seq<nat> -> nat, es: seq<Entry<V>>, src: map<Key, V>, sizearray: nat, t: nat)
    requires FirstPass(h, st, str, es, src, sizearray, t)
    ensures |st.at| == |h|
  {
  }

  lemma SomeSlotFree<V>(h: seq<Node<V>>, st: Stamps, str: seq<nat> -> nat, es: seq<Entry<V>>, src: map<Key, V>, sizearray: nat, t: nat)
    requires SecondPass(h, st, str, es, src, sizearray, t) && Enumerates(es, src) && t < |es|
    requires !InArray(es[t].key, sizearray) && !Stored(h, es[t].key) && |h| == |HashKeys(es, sizearray, |es|)|
    ensures exists n :: 0 <= n < |h| && !Used(h, n)
    ensures |st.at| == |h| && |h| > 0 && Used(h, Main(es[t].key, str, |h|))
  {
    hide Good;
    NotEmpty(es, sizearray, t);
    forall i | Used(h, i) ensures h[i].key in HashKeys(es, sizearray, |es|) {
      assert h[i].key in src;
    }
    FreeSlot(h, st, str, HashKeys(es, sizearray, |es|), es[t].key);
    GoodLength(h, st, str);
  }

  lemma SecondShape<V>(h: seq<Node<V>>, st: Stamps, str: seq<nat> -> nat, es: seq<Entry<V>>, src: map<Key, V>, sizearray: nat, t: nat,
                       n: nat, h1: seq<Node<V>>, st1: Stamps)
    requires SecondPass(h, st, str, es, src, sizearray, t) && t < |es| && !InArray(es[t].key, sizearray)
    requires !Stored(h, es[t].key) && n < |h| && !Used(h, n) && |st.at| == |h|
    requires var p := Main(es[t].key, str, |h|);
             && h1 == h[p := h[p].(next := n, nocolliding := false)]
                       [n := Node(Some(es[t].value), es[t].key, Hash(es[t].key, str), h[p].next, false)]
             && st1 == st.(at := st.at[n := t])
    ensures Linked(h, st, str, es[t], n, t, h1, st1)
  {
    hide Good, Hash;
  }

  lemma GoodLength<V>(h: seq<Node<V>>, st: Stamps, str: seq<nat> -> nat)
    requires Good(h, st, str)
    ensures |st.at| == |h|
  {
  }
}
