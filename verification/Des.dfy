/**
  DES with padding: the block transformation for any contents of the S-boxes and any key schedule,
  and that decoding undoes encoding.
 */
module Des {
  import opened Ints

  type Byte = bv8
  type Bytes = seq<Byte>
  type Word = bv32

  /** The two halves of a block. */
  datatype Halves = Halves(x: Word, y: Word)

  /** The contents of the S-boxes: box number and six bits to a word. */
  type Boxes = (int, Word) -> Word

  // ----- bytes and words -----

  function Join(w0: Word, w1: Word, w2: Word, w3: Word): Word {
    (w0 << 24) | (w1 << 16) | (w2 << 8) | w3
  }

  function Part(n: Word, i: nat): (w: Word)
    ensures w <= 0xff && w & 0xff == w
  {
    if i == 0 then n >> 24 else if i == 1 then (n >> 16) & 0xff else if i == 2 then (n >> 8) & 0xff else n & 0xff
  }

  lemma JoinParts(n: Word)
    ensures Join(Part(n, 0), Part(n, 1), Part(n, 2), Part(n, 3)) == n
  {
  }

  lemma PartsOfJoin(w0: Word, w1: Word, w2: Word, w3: Word, n: Word)
    requires w0 & 0xff == w0 && w1 & 0xff == w1 && w2 & 0xff == w2 && w3 & 0xff == w3
    requires n == Join(w0, w1, w2, w3)
    ensures Part(n, 0) == w0 && Part(n, 1) == w1 && Part(n, 2) == w2 && Part(n, 3) == w3
  {
  }

  function Wide(b: Byte): (w: Word)
    ensures w <= 0xff && w & 0xff == w
  {
    b as Word
  }

  function Narrow(w: Word): Byte
    requires w <= 0xff
  {
    w as Byte
  }

  lemma NarrowWide(b: Byte)
    ensures Narrow(Wide(b)) == b
  {
  }

  lemma WideNarrow(w: Word)
    requires w <= 0xff
    ensures Wide(Narrow(w)) == w
  {
  }

  function GetWord(b0: Byte, b1: Byte, b2: Byte, b3: Byte): Word {
    Join(Wide(b0), Wide(b1), Wide(b2), Wide(b3))
  }

  function PutWord(n: Word): (s: Bytes)
    ensures |s| == 4
  {
    [Narrow(Part(n, 0)), Narrow(Part(n, 1)), Narrow(Part(n, 2)), Narrow(Part(n, 3))]
  }

  lemma GetPut(n: Word)
    ensures var s := PutWord(n); GetWord(s[0], s[1], s[2], s[3]) == n
  {
    hide Join, Part, Wide, Narrow;
    JoinParts(n);
    WideNarrow(Part(n, 0));
    WideNarrow(Part(n, 1));
    WideNarrow(Part(n, 2));
    WideNarrow(Part(n, 3));
  }

  lemma PutGet(b0: Byte, b1: Byte, b2: Byte, b3: Byte)
    ensures PutWord(GetWord(b0, b1, b2, b3)) == [b0, b1, b2, b3]
  {
    hide Join, Part, Wide, Narrow;
    PartsOfJoin(Wide(b0), Wide(b1), Wide(b2), Wide(b3), GetWord(b0, b1, b2, b3));
    NarrowWide(b0);
    NarrowWide(b1);
    NarrowWide(b2);
    NarrowWide(b3);
  }

  // ----- permutations -----

  function Xor(a: Word, b: Word): Word { a ^ b }

  /** The bits in which `b` differs from `a` moved down by one of five distances, at every other such distance. */
  function Differing(s: nat, a: Word, b: Word): Word {
    if s == 4 then ((a >> 4) ^ b) & 0x0F0F0F0F
    else if s == 16 then ((a >> 16) ^ b) & 0x0000FFFF
    else if s == 2 then ((a >> 2) ^ b) & 0x33333333
    else if s == 8 then ((a >> 8) ^ b) & 0x00FF00FF
    else (a ^ b) & 0xAAAAAAAA
  }

  function Up(s: nat, t: Word): Word {
    if s == 4 then t << 4 else if s == 16 then t << 16 else if s == 2 then t << 2 else if s == 8 then t << 8 else t
  }

  /** Exchange those bits. */
  function Swap(s: nat, a: Word, b: Word): (Word, Word) {
    var t := Differing(s, a, b);
    (Xor(a, Up(s, t)), Xor(b, t))
  }

  lemma Again4(a: Word, b: Word, t: Word, a1: Word, b1: Word)
    requires t == ((a >> 4) ^ b) & 0x0F0F0F0F && a1 == a ^ (t << 4) && b1 == b ^ t
    ensures ((a1 >> 4) ^ b1) & 0x0F0F0F0F == t
  {
  }

  lemma Again16(a: Word, b: Word, t: Word, a1: Word, b1: Word)
    requires t == ((a >> 16) ^ b) & 0x0000FFFF && a1 == a ^ (t << 16) && b1 == b ^ t
    ensures ((a1 >> 16) ^ b1) & 0x0000FFFF == t
  {
  }

  lemma Again2(a: Word, b: Word, t: Word, a1: Word, b1: Word)
    requires t == ((a >> 2) ^ b) & 0x33333333 && a1 == a ^ (t << 2) && b1 == b ^ t
    ensures ((a1 >> 2) ^ b1) & 0x33333333 == t
  {
  }

  lemma Again8(a: Word, b: Word, t: Word, a1: Word, b1: Word)
    requires t == ((a >> 8) ^ b) & 0x00FF00FF && a1 == a ^ (t << 8) && b1 == b ^ t
    ensures ((a1 >> 8) ^ b1) & 0x00FF00FF == t
  {
  }

  lemma Again1(a: Word, b: Word, t: Word, a1: Word, b1: Word)
    requires t == (a ^ b) & 0xAAAAAAAA && a1 == a ^ t && b1 == b ^ t
    ensures (a1 ^ b1) & 0xAAAAAAAA == t
  {
  }

  lemma XorTwice(a: Word, t: Word)
    ensures Xor(Xor(a, t), t) == a
  {
  }

  /** After the exchange the same bits differ. */
  lemma DifferingAgain(s: nat, a: Word, b: Word)
    ensures var t := Differing(s, a, b); Differing(s, Xor(a, Up(s, t)), Xor(b, t)) == t
  {
    if s == 4 {
      var t := ((a >> 4) ^ b) & 0x0F0F0F0F;
      Again4(a, b, t, a ^ (t << 4), b ^ t);
    } else if s == 16 {
      var t := ((a >> 16) ^ b) & 0x0000FFFF;
      Again16(a, b, t, a ^ (t << 16), b ^ t);
    } else if s == 2 {
      var t := ((a >> 2) ^ b) & 0x33333333;
      Again2(a, b, t, a ^ (t << 2), b ^ t);
    } else if s == 8 {
      var t := ((a >> 8) ^ b) & 0x00FF00FF;
      Again8(a, b, t, a ^ (t << 8), b ^ t);
    } else {
      var t := (a ^ b) & 0xAAAAAAAA;
      Again1(a, b, t, a ^ t, b ^ t);
    }
  }

  lemma SwapUndo(s: nat, a: Word, b: Word)
    ensures var r := Swap(s, a, b); Swap(s, r.0, r.1) == (a, b)
  {
    hide Differing, Up, Xor;
    var t := Differing(s, a, b);
    DifferingAgain(s, a, b);
    XorTwice(a, Up(s, t));
    XorTwice(b, t);
  }

  function Left(a: Word): Word { (a << 1) | (a >> 31) }

  function Right(a: Word): Word { (a << 31) | (a >> 1) }

  lemma TurnsUndo(a: Word)
    ensures Right(Left(a)) == a && Left(Right(a)) == a
  {
  }

  /** DES_IP. */
  function IP(h: Halves): Halves {
    var s1 := Swap(4, h.x, h.y);
    var s2 := Swap(16, s1.0, s1.1);
    var s3 := Swap(2, s2.1, s2.0);
    var s4 := Swap(8, s3.0, s3.1);
    var y := Left(s4.0);
    var s5 := Swap(1, s4.1, y);
    Halves(Left(s5.0), s5.1)
  }

  /** DES_FP. */
  function FP(h: Halves): Halves {
    var x := Right(h.x);
    var s5 := Swap(1, x, h.y);
    var y := Right(s5.1);
    var s4 := Swap(8, y, s5.0);
    var s3 := Swap(2, s4.0, s4.1);
    var s2 := Swap(16, s3.1, s3.0);
    var s1 := Swap(4, s2.0, s2.1);
    Halves(s1.0, s1.1)
  }

  /** The final permutation undoes the initial one, and the other way round. */
  lemma PermutationsUndo(h: Halves)
    ensures FP(IP(h)) == h && IP(FP(h)) == h
  {
    hide Swap, Left, Right;
    Forth(h);
    Back(h);
  }

  lemma Forth(h: Halves)
    ensures FP(IP(h)) == h
  {
    hide Swap, Left, Right;
    var s1 := Swap(4, h.x, h.y);
    var s2 := Swap(16, s1.0, s1.1);
    var s3 := Swap(2, s2.1, s2.0);
    var s4 := Swap(8, s3.0, s3.1);
    var y := Left(s4.0);
    var s5 := Swap(1, s4.1, y);
    SwapUndo(4, h.x, h.y);
    SwapUndo(16, s1.0, s1.1);
    SwapUndo(2, s2.1, s2.0);
    SwapUndo(8, s3.0, s3.1);
    SwapUndo(1, s4.1, y);
    TurnsUndo(s4.0);
    TurnsUndo(s5.0);
  }

  lemma Back(h: Halves)
    ensures IP(FP(h)) == h
  {
    hide Swap, Left, Right;
    var x := Right(h.x);
    var s5 := Swap(1, x, h.y);
    var y := Right(s5.1);
    var s4 := Swap(8, y, s5.0);
    var s3 := Swap(2, s4.0, s4.1);
    var s2 := Swap(16, s3.1, s3.0);
    SwapUndo(1, x, h.y);
    SwapUndo(8, y, s5.0);
    SwapUndo(2, s4.0, s4.1);
    SwapUndo(16, s3.1, s3.0);
    SwapUndo(4, s2.0, s2.1);
    TurnsUndo(h.x);
    TurnsUndo(s5.1);
  }

  // ----- rounds -----

  /** What DES_ROUND adds to the other half: eight boxes, four on each turn of the half. */
  function Mangle(sb: Boxes, x: Word, k0: Word, k1: Word): Word {
    var t := k0 ^ x;
    var u := k1 ^ ((x << 28) | (x >> 4));
    sb(8, t & 0x3F) ^ sb(6, (t >> 8) & 0x3F) ^ sb(4, (t >> 16) & 0x3F) ^ sb(2, (t >> 24) & 0x3F)
    ^ sb(7, u & 0x3F) ^ sb(5, (u >> 8) & 0x3F) ^ sb(3, (u >> 16) & 0x3F) ^ sb(1, (u >> 24) & 0x3F)
  }

  type Schedule = s: seq<Word> | |s| == 32 witness seq(32, _ => 0)

  /** A pair of rounds: each half is changed with the help of the other. */
  function Pair(sb: Boxes, h: Halves, k0: Word, k1: Word, k2: Word, k3: Word): Halves {
    var x := Xor(h.x, Mangle(sb, h.y, k0, k1));
    Halves(x, Xor(h.y, Mangle(sb, x, k2, k3)))
  }

  lemma PairUndo(sb: Boxes, h: Halves, k0: Word, k1: Word, k2: Word, k3: Word)
    ensures Pair(sb, Flip(Pair(sb, h, k0, k1, k2, k3)), k2, k3, k0, k1) == Flip(h)
  {
    hide Mangle, Xor;
    var p := Pair(sb, h, k0, k1, k2, k3);
    XorTwice(h.y, Mangle(sb, p.x, k2, k3));
    XorTwice(h.x, Mangle(sb, h.y, k0, k1));
  }

  /** The halves after `n` pairs of rounds. */
  function After(sb: Boxes, sk: Schedule, h: Halves, n: nat): Halves
    requires n <= 8
  {
    if n == 0 then h
    else Pair(sb, After(sb, sk, h, n - 1), sk[4 * n - 4], sk[4 * n - 3], sk[4 * n - 2], sk[4 * n - 1])
  }

  /** The subkeys of the rounds in reverse, each pair of words kept together. */
  function Reversed(sk: Schedule): (r: Schedule)
    ensures forall j :: 0 <= j < 16 ==> r[2 * j] == sk[30 - 2 * j] && r[2 * j + 1] == sk[31 - 2 * j]
  {
    seq(32, i requires 0 <= i < 32 => if i % 2 == 0 then sk[30 - i] else sk[32 - i])
  }

  function Flip(h: Halves): Halves { Halves(h.y, h.x) }

  /** Rounds with reversed subkeys on exchanged halves run backwards. */
  lemma {:induction false} RoundsUndo(sb: Boxes, sk: Schedule, h: Halves, m: nat)
    requires m <= 8
    ensures After(sb, Reversed(sk), Flip(After(sb, sk, h, 8)), m) == Flip(After(sb, sk, h, 8 - m))
  {
    hide Pair, Flip, After, Reversed;
    var last := Flip(After(sb, sk, h, 8));
    AfterNone(sb, Reversed(sk), last);
    if m > 0 {
      RoundsUndo(sb, sk, h, m - 1);
      var n, r := 9 - m, Reversed(sk);
      assert r[2 * (2 * m - 2)] == sk[4 * n - 2] && r[2 * (2 * m - 2) + 1] == sk[4 * n - 1];
      assert r[2 * (2 * m - 1)] == sk[4 * n - 4] && r[2 * (2 * m - 1) + 1] == sk[4 * n - 3];
      AfterNext(sb, r, last, m);
      AfterNext(sb, sk, h, n);
      PairUndo(sb, After(sb, sk, h, n - 1), sk[4 * n - 4], sk[4 * n - 3], sk[4 * n - 2], sk[4 * n - 1]);
    }
  }

  /** des_crypt. */
  function Crypt(sb: Boxes, sk: Schedule, h: Halves): Halves {
    FP(Flip(After(sb, sk, IP(h), 8)))
  }

  lemma CryptUndo(sb: Boxes, sk: Schedule, h: Halves)
    ensures Crypt(sb, Reversed(sk), Crypt(sb, sk, h)) == h
  {
    hide IP, FP, After;
    var z := After(sb, sk, IP(h), 8);
    PermutationsUndo(Flip(z));
    RoundsUndo(sb, sk, IP(h), 8);
    AfterNone(sb, sk, IP(h));
    PermutationsUndo(h);
  }

  lemma AfterNext(sb: Boxes, sk: Schedule, h: Halves, n: nat)
    requires 0 < n <= 8
    ensures After(sb, sk, h, n) == Pair(sb, After(sb, sk, h, n - 1), sk[4 * n - 4], sk[4 * n - 3], sk[4 * n - 2], sk[4 * n - 1])
  {
    hide Pair;
  }

  lemma AfterNone(sb: Boxes, sk: Schedule, h: Halves)
    ensures After(sb, sk, h, 0) == h
  {
  }

  // ----- blocks and texts -----

  function HalvesOf(b: Bytes): Halves
    requires |b| == 8
  {
    Halves(GetWord(b[0], b[1], b[2], b[3]), GetWord(b[4], b[5], b[6], b[7]))
  }

  function BytesOf(h: Halves): (b: Bytes)
    ensures |b| == 8
  {
    PutWord(h.x) + PutWord(h.y)
  }

  function CryptBlock(sb: Boxes, sk: Schedule, b: Bytes): (c: Bytes)
    requires |b| == 8
    ensures |c| == 8
  {
    BytesOf(Crypt(sb, sk, HalvesOf(b)))
  }

  lemma BlockUndo(sb: Boxes, sk: Schedule, b: Bytes)
    requires |b| == 8
    ensures CryptBlock(sb, Reversed(sk), CryptBlock(sb, sk, b)) == b
  {
    hide Crypt, GetWord, PutWord;
    var h := Crypt(sb, sk, HalvesOf(b));
    GetPut(h.x);
    GetPut(h.y);
    CryptUndo(sb, sk, HalvesOf(b));
    PutGet(b[0], b[1], b[2], b[3]);
    PutGet(b[4], b[5], b[6], b[7]);
  }

  function CryptAll(sb: Boxes, sk: Schedule, s: Bytes): (c: Bytes)
    requires |s| % 8 == 0
    ensures |c| == |s|
  {
    if s == [] then [] else CryptAll(sb, sk, s[..|s| - 8]) + CryptBlock(sb, sk, s[|s| - 8..])
  }

  lemma CryptAllNext(sb: Boxes, sk: Schedule, s: Bytes, b: Bytes)
    requires |s| % 8 == 0 && |b| == 8
    ensures CryptAll(sb, sk, s + b) == CryptAll(sb, sk, s) + CryptBlock(sb, sk, b)
  {
    assert (s + b)[..|s|] == s && (s + b)[|s|..] == b;
  }

  lemma {:induction false} TextUndo(sb: Boxes, sk: Schedule, s: Bytes)
    requires |s| % 8 == 0
    ensures CryptAll(sb, Reversed(sk), CryptAll(sb, sk, s)) == s
  {
    hide CryptBlock;
    if s != [] {
      var n := |s| - 8;
      TextUndo(sb, sk, s[..n]);
      BlockUndo(sb, sk, s[n..]);
      CryptAllNext(sb, Reversed(sk), CryptAll(sb, sk, s[..n]), CryptBlock(sb, sk, s[n..]));
    }
  }

  // ----- padding -----

  function Zeros(n: nat): (z: Bytes)
    ensures |z| == n && forall i :: 0 <= i < n ==> z[i] == 0
  {
    seq(n, _ => 0)
  }

  function Padded(t: Bytes): (p: Bytes)
    ensures |p| % 8 == 0 && |p| > 0
  {
    t + [0x80] + Zeros(7 - |t| % 8)
  }

  datatype Option<+T> = None | Some(value: T)

  /** Take off at most seven zeros and then a byte 0x80; `n` bytes have been looked at. */
  function Stripped(s: Bytes, n: nat): Option<Bytes>
    decreases |s|
  {
    if n >= 8 || s == [] then None
    else
      var last, init := s[|s| - 1], s[..|s| - 1];
      if last == 0 then Stripped(init, n + 1) else if last == 0x80 then Some(init) else None
  }

  lemma {:induction false} StripZeros(t: Bytes, z: nat, n: nat)
    requires n + z <= 7
    ensures Stripped(t + [0x80] + Zeros(z), n) == Some(t)
    decreases z
  {
    var s := t + [0x80] + Zeros(z);
    if z == 0 {
      assert s[..|s| - 1] == t;
    } else {
      StripZeros(t, z - 1, n + 1);
      assert s[..|s| - 1] == t + [0x80] + Zeros(z - 1);
    }
  }

  /** A text with its padding, encrypted. */
  function Encoded(sb: Boxes, sk: Schedule, text: Bytes): (c: Bytes)
    ensures |c| == Chunk(|text|)
  {
    CryptAll(sb, sk, Padded(text))
  }

  /** The size of the buffer for a text: the next multiple of eight. */
  function Chunk(n: nat): nat {
    (n / 8 + 1) * 8
  }

  // ----- lengths and indices are 32-bit words -----

  /** What encoding comes to: the buffer, or a read outside the text. */
  datatype Cipher = Cipher(bytes: Bytes) | Astray

  /** The part of the buffer that `ldesencode` writes, when the length of the text is `n` as an `int`. */
  function Written(sb: Boxes, sk: Schedule, text: Bytes, n: int): (w: Bytes)
    requires n <= |text|
    ensures n < 0 ==> |w| == 8
    ensures n >= 0 ==> |w| == Chunk(n)
  {
    if n < 0 then CryptBlock(sb, sk, Zeros(8)) else Encoded(sb, sk, text[..n])
  }

  /** `ldesencode`, as a value; `mem` is what the new buffer holds before. */
  function EncodedIn(sb: Boxes, sk: Schedule, text: Bytes, mem: Bytes): Cipher
    requires |mem| == Chunk(|text|)
  {
    IntIsLess(|text|);
    var n := ToInt(|text|);
    var w := Written(sb, sk, text, n);
    assert |w| <= |mem|;
    if n - 7 < -HIGH then Astray else Cipher(w + mem[|w|..])
  }

  // ----- the loop that strips the padding -----

  /** The guard compares an `int` with an unsigned 64-bit number, so a negative index counts as a huge one. */
  predicate Goes(i: int, n: nat) {
    i % TWO64 >= n - 8
  }

  lemma GoesWhen(i: int, n: nat)
    requires -HIGH <= i < HIGH && n <= TWO64 - HIGH
    ensures Goes(i, n) <==> i < 0 || i >= n - 8
  {
  }

  /** The loop over a buffer of `n` bytes reads index `i` of the memory `mem` around it. */
  ghost predicate Looks(mem: int -> Byte, n: nat, i: int) {
    var top := ToInt(n - 1);
    i <= top && Goes(i, n) && forall j :: i < j <= top ==> Goes(j, n) && mem(j) == 0
  }

  /** Every index the loop reads is inside the buffer. */
  ghost predicate StaysInside(mem: int -> Byte, n: nat) {
    forall i :: Looks(mem, n, i) ==> 0 <= i < n
  }

  predicate OneZeroBlock(s: Bytes) {
    |s| == 8 && forall i :: 0 <= i < 8 ==> s[i] == 0
  }

  /** The loop stays inside exactly unless the text is a single block that decrypts to eight zeros, or its last index is negative as an `int`. */
  lemma StaysInsideUnless(mem: int -> Byte, s: Bytes)
    requires |s| >= 8 && |s| % 8 == 0 && |s| <= TWO64 - HIGH
    requires forall i :: 0 <= i < |s| ==> mem(i) == s[i]
    ensures StaysInside(mem, |s|) <==> !OneZeroBlock(s) && ToInt(|s| - 1) >= 0
  {
    var n := |s|;
    var top := ToInt(n - 1);
    if top < 0 {
      assert Looks(mem, n, top);
    } else if OneZeroBlock(s) {
      assert Looks(mem, n, -1);
    } else if top < n - 1 {
      FarBelow(n);
      assert !Goes(top, n);
    } else {
      forall i | Looks(mem, n, i) ensures 0 <= i < n {
        assert n >= 16 ==> !Goes(n - 9, n);
      }
    }
  }

  /** A wrapped index is far below the one it should be. */
  lemma FarBelow(n: nat)
    requires n >= 1 && 0 <= ToInt(n - 1) < n - 1
    ensures ToInt(n - 1) <= n - 1 - TWO32
  {
  }

  /** With zeros below the buffer too, the loop over eight zeros goes on down. */
  lemma ZeroBlockReadsBelow(mem: int -> Byte, k: int)
    requires 0 <= k < 0x8000_0000 && forall i :: -k <= i < 8 ==> mem(i) == 0
    ensures Looks(mem, 8, -k)
  {
  }

  /** What decoding comes to: a text, a refusal, or a read below the buffer. */
  datatype Outcome = Text(text: Bytes) | Refused | Outside

  /** What the loop makes of a buffer. */
  function Outcomes(s: Bytes): Outcome
    requires s != []
  {
    var top := ToInt(|s| - 1);
    if top < 0 || OneZeroBlock(s) then Outside
    else if top < |s| - 1 then Text(s[..|s| - 1])
    else match Stripped(s, 0) case None => Refused case Some(t) => Text(t)
  }

  /** The decrypted buffer: the index of the blocks wraps at 2^31, and what is behind stays as `mem` has it. */
  function Decrypted(sb: Boxes, sk: Schedule, text: Bytes, mem: Bytes): (s: Bytes)
    requires |text| % 8 == 0 && |mem| == |text|
    ensures |s| == |text|
  {
    if |text| <= HIGH then CryptAll(sb, Reversed(sk), text)
    else CryptAll(sb, Reversed(sk), text[..HIGH]) + mem[HIGH..]
  }

  /** `ldesdecode`, as a value: refused for a bad length or bad padding. */
  function DecodedIn(sb: Boxes, sk: Schedule, text: Bytes, mem: Bytes): Outcome
    requires |mem| == |text|
  {
    if |text| % 8 != 0 || text == [] then Refused
    else if |text| > TWO64 - HIGH then Outside
    else Outcomes(Decrypted(sb, sk, text, mem))
  }

  /** The text comes back, whatever the new buffers hold before. */
  ghost predicate ComesBack(sb: Boxes, sk: Schedule, text: Bytes) {
    forall mem: Bytes, mem1: Bytes :: |mem| == |mem1| == Chunk(|text|) ==>
      var c := EncodedIn(sb, sk, text, mem);
      c.Cipher? && |c.bytes| == Chunk(|text|) && DecodedIn(sb, sk, c.bytes, mem1) == Text(text)
  }

  /** For every schedule and every text: decoding undoes encoding if and only if the text has fewer than 2^31 bytes. */
  lemma DecodeEncode(sb: Boxes, sk: Schedule, text: Bytes)
    requires |text| < TWO64 / 2
    ensures ComesBack(sb, sk, text) <==> |text| < HIGH
  {
    hide EncodedIn, DecodedIn, Encoded;
    if |text| < HIGH {
      forall mem: Bytes, mem1: Bytes | |mem| == |mem1| == Chunk(|text|)
        ensures EncodedIn(sb, sk, text, mem) == Cipher(Encoded(sb, sk, text))
        ensures DecodedIn(sb, sk, Encoded(sb, sk, text), mem1) == Text(text)
      {
        ShortEncoded(sb, sk, text, mem);
        ShortDecoded(sb, sk, text, mem1);
      }
    } else {
      var mem := Zeros(Chunk(|text|));
      var c := EncodedIn(sb, sk, text, mem);
      if c.Cipher? && |c.bytes| == Chunk(|text|) {
        var mem1: Bytes := Zeros(Chunk(|text|))[HIGH := text[if |text| > HIGH then HIGH else 0] ^ 1];
        LongDecoded(sb, sk, text, c.bytes, mem1);
        assert DecodedIn(sb, sk, c.bytes, mem1) != Text(text);
      }
    }
  }

  lemma ShortEncoded(sb: Boxes, sk: Schedule, text: Bytes, mem: Bytes)
    requires |text| < HIGH && |mem| == Chunk(|text|)
    ensures EncodedIn(sb, sk, text, mem) == Cipher(Encoded(sb, sk, text))
  {
    hide Encoded;
    assert text[..|text|] == text;
  }

  lemma ShortDecoded(sb: Boxes, sk: Schedule, text: Bytes, mem: Bytes)
    requires |text| < HIGH && |mem| == Chunk(|text|)
    ensures DecodedIn(sb, sk, Encoded(sb, sk, text), mem) == Text(text)
  {
    hide CryptAll, Stripped, Padded, Reversed;
    TextUndo(sb, sk, Padded(text));
    StripPadded(text);
    PaddedHasMark(text);
  }

  lemma Different(b: Byte)
    ensures b ^ 1 != b
  {
  }

  lemma LongDecoded(sb: Boxes, sk: Schedule, text: Bytes, c: Bytes, mem: Bytes)
    requires HIGH <= |text| < TWO64 / 2 && |c| == |mem| == Chunk(|text|)
    requires mem[HIGH] == text[if |text| > HIGH then HIGH else 0] ^ 1
    ensures DecodedIn(sb, sk, c, mem) != Text(text)
  {
    hide CryptAll, Stripped, Reversed;
    var s := Decrypted(sb, sk, c, mem);
    assert s[HIGH] == mem[HIGH];
    Different(text[if |text| > HIGH then HIGH else 0]);
    if ToInt(|c| - 1) >= 0 {
      FarBelow(|c|);
      assert s[..|s| - 1][HIGH] == s[HIGH];
    }
  }

  /** A text of 2^31 + 7 bytes: none of its blocks is encrypted, and decoding reads outside its buffer. */
  lemma LongTextFails(sb: Boxes, sk: Schedule, text: Bytes, mem: Bytes, mem1: Bytes)
    requires |text| == HIGH + 7 && |mem| == |mem1| == HIGH + 8
    ensures EncodedIn(sb, sk, text, mem) == Cipher(CryptBlock(sb, sk, Zeros(8)) + mem[8..])
    ensures DecodedIn(sb, sk, CryptBlock(sb, sk, Zeros(8)) + mem[8..], mem1) == Outside
  {
    hide CryptAll, CryptBlock, Reversed;
    IntWraps(|text|, 1);
    IntWraps(HIGH + 7, 1);
  }

  lemma PaddedHasMark(text: Bytes)
    ensures !OneZeroBlock(Padded(text))
  {
    assert Padded(text)[|text|] == 0x80;
  }

  lemma StripPadded(text: Bytes)
    ensures Stripped(Padded(text), 0) == Some(text)
  {
    StripZeros(text, 7 - |text| % 8, 0);
  }

  // ----- the loops -----

  /** The index after `n - 7` has been compared, with the limit wrapped too: blocks before it are done. */
  lemma IndexStep(text: Bytes, i: int, n: int, limit: int)
    requires n == ToInt(|text|) && limit == ToInt(n - 7) && 0 <= i < limit && i % 8 == 0
    ensures i + 8 <= |text|
    ensures n - 7 >= -HIGH ==> n >= 8 && i + 8 <= n && ToInt(i + 8) == i + 8
    ensures ToInt(i + 8) == i + 8 || (i + 8 == HIGH && ToInt(i + 8) == -HIGH && n - 7 < -HIGH)
  {
    if n - 7 >= -HIGH {
      assert limit == n - 7;
    } else {
      IntWraps(n - 7, -1);
      IntWraps(HIGH, 1);
    }
  }

  /** `ldesencode`: whole blocks, then a tail of at most seven bytes with its padding; `mem` is what the new buffer holds before. */
  method DesEncode(sb: Boxes, sk: Schedule, text: Bytes, mem: Bytes) returns (r: Cipher)
    requires |mem| == Chunk(|text|)
    ensures r == EncodedIn(sb, sk, text, mem)
  {
    hide CryptAll, CryptBlock, Written, ToInt;
    var n := ToInt(|text|);
    var limit := ToInt(n - 7);
    var buffer := [];
    var i := 0;
    NoText(sb, sk);
    assert text[..0] == [];
    while i < limit
      invariant i == -HIGH || (0 <= i <= |text| && i < HIGH && i % 8 == 0 && buffer == CryptAll(sb, sk, text[..i]))
      invariant i == -HIGH ==> n - 7 < -HIGH
      invariant n - 7 >= -HIGH ==> 0 <= i && (i > 0 ==> i <= n)
      decreases if i < 0 then 0 else HIGH - i + 1
    {
      if i < 0 {
        return Astray;
      }
      IndexStep(text, i, n, limit);
      CryptAllNext(sb, sk, text[..i], text[i..i + 8]);
      assert text[..i] + text[i..i + 8] == text[..i + 8];
      buffer := buffer + CryptBlock(sb, sk, text[i..i + 8]);
      i := ToInt(i + 8);
    }
    Stopped(text, i, n, limit);
    var bytes := ToInt(|text| - i);
    var tail := Tail(text, i, bytes);
    TailIs(sb, sk, text, i, n, tail);
    buffer := buffer + CryptBlock(sb, sk, tail);
    r := Cipher(buffer + mem[|buffer|..]);
  }

  /** Where the loop over the blocks stops, and how many bytes it thinks are left. */
  lemma Stopped(text: Bytes, i: int, n: int, limit: int)
    requires n == ToInt(|text|) && limit == ToInt(n - 7) && limit <= i
    requires i == -HIGH || (0 <= i <= |text| && i < HIGH && i % 8 == 0)
    requires i == -HIGH ==> n - 7 < -HIGH
    requires n - 7 >= -HIGH ==> 0 <= i && (i > 0 ==> i <= n)
    ensures n - 7 >= -HIGH && 0 <= i
    ensures n < 0 ==> i == 0 && ToInt(|text| - i) == n
    ensures n >= 0 ==> i == n / 8 * 8 && ToInt(|text| - i) == n % 8 && i + n % 8 == n <= |text|
  {
    if n - 7 < -HIGH {
      IntWraps(n - 7, -1);
      assert false;
    }
    assert limit == n - 7;
    IntIsLess(|text|);
    IntShift(|text|, i);
  }

  method Tail(text: Bytes, i: nat, bytes: int) returns (tail: Bytes)
    requires bytes < 8 && i + bytes <= |text|
    ensures |tail| == 8 && forall h :: 0 <= h < 8 ==> tail[h] == if h < bytes then text[i + h] else if h == bytes then 0x80 else 0
  {
    tail := [];
    var j := 0;
    while j < 8
      invariant 0 <= j <= 8 && |tail| == j
      invariant forall h :: 0 <= h < j ==> tail[h] == if h < bytes then text[i + h] else if h == bytes then 0x80 else 0
    {
      tail := tail + [if j < bytes then text[i + j] else if j == bytes then 0x80 else 0];
      j := j + 1;
    }
  }

  lemma TailIs(sb: Boxes, sk: Schedule, text: Bytes, i: nat, n: int, tail: Bytes)
    requires n <= |text| && |tail| == 8 && i <= |text| && i % 8 == 0
    requires n < 0 ==> i == 0 && forall h :: 0 <= h < 8 ==> tail[h] == 0
    requires n >= 0 ==> i == n / 8 * 8 && forall h :: 0 <= h < 8 ==> tail[h] == if h < n % 8 then text[i + h] else if h == n % 8 then 0x80 else 0
    ensures CryptAll(sb, sk, text[..i]) + CryptBlock(sb, sk, tail) == Written(sb, sk, text, n)
  {
    hide CryptAll, CryptBlock;
    if n < 0 {
      NoText(sb, sk);
      assert tail == Zeros(8);
    } else {
      CryptAllNext(sb, sk, text[..i], tail);
      assert text[..i] + tail == Padded(text[..n]);
    }
  }

  lemma NoText(sb: Boxes, sk: Schedule)
    ensures CryptAll(sb, sk, []) == []
  {
  }

  /** `ldesdecode`; lengths have 64 bits, and `mem` is what the new buffer holds before. */
  method DesDecode(sb: Boxes, sk: Schedule, text: Bytes, mem: Bytes) returns (r: Outcome)
    requires |text| < TWO64 && |mem| == |text|
    ensures r == DecodedIn(sb, sk, text, mem)
  {
    hide CryptAll, CryptBlock, ToInt;
    if |text| % 8 != 0 || text == [] {
      return Refused;
    }
    var rk := Reversed(sk);
    var buffer := [];
    var i := 0;
    NoText(sb, rk);
    assert text[..0] == [];
    while i % TWO64 < |text|
      invariant i == -HIGH || (0 <= i <= |text| && i < HIGH && i % 8 == 0 && buffer == CryptAll(sb, rk, text[..i]))
      invariant i == -HIGH ==> |text| >= HIGH && buffer == CryptAll(sb, rk, text[..HIGH])
      decreases if i < 0 then 0 else HIGH - i + 1
    {
      if i < 0 {
        return Outside;
      }
      CryptAllNext(sb, rk, text[..i], text[i..i + 8]);
      assert text[..i] + text[i..i + 8] == text[..i + 8];
      buffer := buffer + CryptBlock(sb, rk, text[i..i + 8]);
      IntWraps(HIGH, 1);
      i := ToInt(i + 8);
    }
    if i < 0 {
      assert |text| == HIGH ==> text[..HIGH] == text && buffer + mem[HIGH..] == buffer;
      buffer := buffer + mem[HIGH..];
    } else {
      assert text[..i] == text;
    }
    r := Strip(buffer);
  }

  /** The loop with its guard; the program goes on after a read outside the buffer, the method stops there. */
  method Strip(buffer: Bytes) returns (r: Outcome)
    requires 8 <= |buffer| <= TWO64 - HIGH && |buffer| % 8 == 0
    ensures r == Outcomes(buffer)
  {
    hide ToInt, Goes;
    var padding := 1;
    var top := ToInt(|buffer| - 1);
    var i := top;
    IntIsLess(|buffer| - 1);
    if 0 <= top < |buffer| - 1 { FarBelow(|buffer|); }
    assert top == |buffer| - 1 ==> buffer[..top + 1] == buffer;
    while Goes(i, |buffer|)
      invariant i <= top && padding == 1 + top - i
      invariant top < |buffer| - 1 ==> i == top
      invariant top == |buffer| - 1 ==>
        && -1 <= i && |buffer| - 9 <= i
        && Stripped(buffer, 0) == Stripped(buffer[..i + 1], padding - 1)
        && forall j :: i < j < |buffer| ==> buffer[j] == 0
      decreases i + HIGH + 1
    {
      GoesWhen(i, |buffer|);
      if i < 0 {
        return Outside;
      }
      assert buffer[..i + 1][..i] == buffer[..i];
      if buffer[i] == 0 {
        padding := padding + 1;
      } else if buffer[i] == 0x80 {
        break;
      } else {
        return Refused;
      }
      i := i - 1;
    }
    GoesWhen(i, |buffer|);
    if padding > 8 {
      return Refused;
    }
    r := Text(buffer[..|buffer| - padding]);
  }
}
