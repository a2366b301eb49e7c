/** ChaCha20 with the original 64-bit counter and 64-bit nonce (chacha.c). The rounds are those of
    section 2.3 of RFC 8439; words 12 and 13 of the state are the block counter. */
module ChaCha {
  import Seqs

  type Word = bv32
  type Byte = bv8

  // ---- Words and bytes ----

  function Plus(a: Word, b: Word): Word { a + b }
  function Xor(a: Word, b: Word): Word { a ^ b }
  function XorByte(a: Byte, b: Byte): Byte { a ^ b }

  function Rotate16(v: Word): Word { (v << 16) | (v >> 16) }
  function Rotate12(v: Word): Word { (v << 12) | (v >> 20) }
  function Rotate8(v: Word): Word { (v << 8) | (v >> 24) }
  function Rotate7(v: Word): Word { (v << 7) | (v >> 25) }

  /** Byte t of a word, least significant first. */
  function LittleByte(w: Word, t: nat): Byte
    requires t < 4
  {
    if t == 0 then (w & 0xff) as Byte
    else if t == 1 then ((w >> 8) & 0xff) as Byte
    else if t == 2 then ((w >> 16) & 0xff) as Byte
    else ((w >> 24) & 0xff) as Byte
  }

  function Little(b0: Byte, b1: Byte, b2: Byte, b3: Byte): Word {
    (b0 as Word) | ((b1 as Word) << 8) | ((b2 as Word) << 16) | ((b3 as Word) << 24)
  }

  function LittleAt(s: seq<Byte>, i: nat): Word
    requires i + 4 <= |s|
  {
    Little(s[i], s[i + 1], s[i + 2], s[i + 3])
  }

  lemma XorBytes0(w: Word, b0: Byte, b1: Byte, b2: Byte, b3: Byte)
    ensures LittleByte(Xor(w, Little(b0, b1, b2, b3)), 0) == XorByte(b0, LittleByte(w, 0))
  {
  }

  lemma XorBytes1(w: Word, b0: Byte, b1: Byte, b2: Byte, b3: Byte)
    ensures LittleByte(Xor(w, Little(b0, b1, b2, b3)), 1) == XorByte(b1, LittleByte(w, 1))
  {
  }

  lemma XorBytes2(w: Word, b0: Byte, b1: Byte, b2: Byte, b3: Byte)
    ensures LittleByte(Xor(w, Little(b0, b1, b2, b3)), 2) == XorByte(b2, LittleByte(w, 2))
  {
  }

  lemma XorBytes3(w: Word, b0: Byte, b1: Byte, b2: Byte, b3: Byte)
    ensures LittleByte(Xor(w, Little(b0, b1, b2, b3)), 3) == XorByte(b3, LittleByte(w, 3))
  {
  }

  /** Exclusive-or with a whole word works byte by byte. */
  lemma XorBytes(w: Word, s: seq<Byte>, i: nat, t: nat)
    requires i + 4 <= |s| && t < 4
    ensures LittleByte(Xor(w, LittleAt(s, i)), t) == XorByte(s[i + t], LittleByte(w, t))
  {
    hide LittleByte, Xor, Little, XorByte;
    XorBytes0(w, s[i], s[i + 1], s[i + 2], s[i + 3]);
    XorBytes1(w, s[i], s[i + 1], s[i + 2], s[i + 3]);
    XorBytes2(w, s[i], s[i + 1], s[i + 2], s[i + 3]);
    XorBytes3(w, s[i], s[i + 1], s[i + 2], s[i + 3]);
  }

  lemma XorTwice(a: Byte, b: Byte)
    ensures XorByte(XorByte(a, b), b) == a
  {
  }

  // ---- The block function ----

  type State = x: seq<Word> | |x| == 16 witness [0, 0, 0, 0, 0, 0, 0, 0, 0, 0, 0, 0, 0, 0, 0, 0]

  function Quarter(x: State, a: nat, b: nat, c: nat, d: nat): State
    requires a < 16 && b < 16 && c < 16 && d < 16
  {
    var x := x[a := Plus(x[a], x[b])];
    var x := x[d := Rotate16(Xor(x[d], x[a]))];
    var x := x[c := Plus(x[c], x[d])];
    var x := x[b := Rotate12(Xor(x[b], x[c]))];
    var x := x[a := Plus(x[a], x[b])];
    var x := x[d := Rotate8(Xor(x[d], x[a]))];
    var x := x[c := Plus(x[c], x[d])];
    x[b := Rotate7(Xor(x[b], x[c]))]
  }

  function Columns(x: State): State {
    Quarter(Quarter(Quarter(Quarter(x, 0, 4, 8, 12), 1, 5, 9, 13), 2, 6, 10, 14), 3, 7, 11, 15)
  }

  function Diagonals(x: State): State {
    Quarter(Quarter(Quarter(Quarter(x, 0, 5, 10, 15), 1, 6, 11, 12), 2, 7, 8, 13), 3, 4, 9, 14)
  }

  function DoubleRounds(x: State, n: nat): State {
    if n == 0 then x else Diagonals(Columns(DoubleRounds(x, n - 1)))
  }

  /** Ten double rounds, then the input added back. */
  function Core(j: State): State {
    var x := DoubleRounds(j, 10);
    seq(16, i requires 0 <= i < 16 => Plus(x[i], j[i]))
  }

  /** Byte k of the keystream block for state j. */
  function KeyByte(j: State, k: nat): Byte
    requires k < 64
  {
    LittleByte(Core(j)[k / 4], k % 4)
  }

  // ---- The counter ----

  function PlusOne(v: Word): Word { v + 1 }

  function Next(j: State): State {
    var lo := PlusOne(j[12]);
    if lo == 0 then j[12 := lo][13 := PlusOne(j[13])] else j[12 := lo]
  }

  function Advance(j: State, n: nat): State {
    if n == 0 then j else Next(Advance(j, n - 1))
  }

  /** Words 12 and 13 read as one 64-bit number. */
  function Counter(j: State): bv64 { Pair(j[12], j[13]) }

  function Pair(lo: Word, hi: Word): bv64 { ((hi as bv64) << 32) | (lo as bv64) }

  function Inc64(v: bv64): bv64 { v + 1 }

  lemma PairPlusOne(lo: Word, hi: Word)
    ensures PlusOne(lo) != 0 ==> Pair(PlusOne(lo), hi) == Inc64(Pair(lo, hi))
  {
  }

  lemma PairCarry(lo: Word, hi: Word)
    ensures PlusOne(lo) == 0 ==> Pair(PlusOne(lo), PlusOne(hi)) == Inc64(Pair(lo, hi))
  {
  }

  lemma NextCounts(j: State)
    ensures Counter(Next(j)) == Inc64(Counter(j))
  {
    hide Pair, PlusOne, Inc64;
    PairPlusOne(j[12], j[13]);
    PairCarry(j[12], j[13]);
  }

  /** A natural number as a 64-bit value, bit by bit. */
  function Low64(n: nat): bv64 {
    if n == 0 then 0 else Double(Low64(n / 2), n % 2 == 1)
  }

  function Double(v: bv64, odd: bool): bv64 { if odd then (v << 1) | 1 else v << 1 }

  lemma DoubleStep(v: bv64)
    ensures Double(v, true) == Inc64(Double(v, false))
    ensures Double(Inc64(v), false) == Inc64(Double(v, true))
  {
  }

  lemma {:induction false} Low64Next(n: nat)
    ensures Low64(n + 1) == Inc64(Low64(n))
  {
    hide Double, Inc64;
    var v := Low64(n / 2);
    DoubleStep(v);
    if n % 2 == 1 {
      Low64Next(n / 2);
      assert (n + 1) / 2 == n / 2 + 1 && (n + 1) % 2 == 0;
    } else {
      assert (n + 1) / 2 == n / 2 && (n + 1) % 2 == 1;
      DoubleZero();
    }
  }

  lemma DoubleZero()
    ensures Double(0, false) == 0
  {
  }

  function Pow2(k: bv7): nat { if k == 0 then 1 else 2 * Pow2(k - 1) }

  /** v uses only its k low bits. */
  predicate Fits(v: bv64, k: bv7) { k >= 64 || v >> k == 0 }

  lemma DoubleFits(v: bv64, odd: bool, k: bv7)
    requires k < 64 && Fits(v, k)
    ensures Fits(Double(v, odd), k + 1)
  {
  }

  lemma DoubleInjective(v: bv64, w: bv64, odd: bool, k: bv7)
    requires k < 64 && Fits(v, k) && Fits(w, k) && v != w
    ensures Double(v, odd) != Double(w, odd)
  {
  }

  lemma DoubleParity(v: bv64, w: bv64)
    ensures Double(v, true) != Double(w, false)
  {
  }

  lemma {:induction false} Low64Fits(n: nat, k: bv7)
    requires n < Pow2(k) && k <= 64
    ensures Fits(Low64(n), k)
    decreases k
  {
    hide Double, Fits;
    if n == 0 {
      ZeroFits(k);
    } else {
      Low64Fits(n / 2, k - 1);
      DoubleFits(Low64(n / 2), n % 2 == 1, k - 1);
    }
  }

  lemma ZeroFits(k: bv7)
    ensures Fits(0, k)
  {
  }

  lemma Low64Doubles(n: nat)
    ensures Low64(n) == Double(Low64(n / 2), n % 2 == 1)
  {
    DoubleZero();
  }

  /** Different numbers below 2^64 are different 64-bit values. */
  lemma {:induction false} Low64Injective(a: nat, b: nat, k: bv7)
    requires a < Pow2(k) && b < Pow2(k) && k <= 64 && a != b
    ensures Low64(a) != Low64(b)
    decreases k
  {
    hide Double, Fits, Low64;
    Low64Doubles(a);
    Low64Doubles(b);
    DoubleParity(Low64(a / 2), Low64(b / 2));
    DoubleParity(Low64(b / 2), Low64(a / 2));
    if a % 2 == b % 2 {
      Low64Injective(a / 2, b / 2, k - 1);
      Low64Fits(a / 2, k - 1);
      Low64Fits(b / 2, k - 1);
      DoubleInjective(Low64(a / 2), Low64(b / 2), a % 2 == 1, k - 1);
    }
  }

  /** The k low bits. */
  function Mask(k: bv7): bv64 { if k == 0 then 0 else Double(Mask(k - 1), true) }

  function And64(v: bv64, w: bv64): bv64 { v & w }

  lemma DoubleAgrees(v: bv64, w: bv64, m: bv64, odd: bool)
    requires And64(v, m) == And64(w, m)
    ensures And64(Double(v, odd), Double(m, true)) == And64(Double(w, odd), Double(m, true))
  {
  }

  lemma AgreeOnNothing(v: bv64, w: bv64)
    ensures And64(v, 0) == And64(w, 0)
  {
  }

  /** Numbers that differ by a multiple of 2^k have values that agree on the k low bits. */
  lemma {:induction false} LowBitsAgree(r: nat, m: nat, k: bv7)
    ensures And64(Low64(r + m * Pow2(k)), Mask(k)) == And64(Low64(r), Mask(k))
    decreases k
  {
    hide Double, Low64, And64;
    if k == 0 {
      AgreeOnNothing(Low64(r + m * Pow2(k)), Low64(r));
    } else {
      var n, half := r + m * Pow2(k), m * Pow2(k - 1);
      assert n == r + 2 * half;
      assert n / 2 == r / 2 + half && n % 2 == r % 2;
      LowBitsAgree(r / 2, m, k - 1);
      Low64Doubles(n);
      Low64Doubles(r);
      DoubleAgrees(Low64(n / 2), Low64(r / 2), Mask(k - 1), r % 2 == 1);
    }
  }

  lemma MaskNext(k: bv7)
    ensures Mask(0) == 0 && (0 < k ==> Mask(k) == Double(Mask(k - 1), true))
  {
  }

  lemma FullMask()
    ensures Mask(64) == 0xffff_ffff_ffff_ffff
  {
    hide Mask;
    MaskNext(1); MaskNext(2); MaskNext(3); MaskNext(4); MaskNext(5); MaskNext(6); MaskNext(7); MaskNext(8);
    MaskNext(9); MaskNext(10); MaskNext(11); MaskNext(12); MaskNext(13); MaskNext(14); MaskNext(15); MaskNext(16);
    MaskNext(17); MaskNext(18); MaskNext(19); MaskNext(20); MaskNext(21); MaskNext(22); MaskNext(23); MaskNext(24);
    MaskNext(25); MaskNext(26); MaskNext(27); MaskNext(28); MaskNext(29); MaskNext(30); MaskNext(31); MaskNext(32);
    MaskNext(33); MaskNext(34); MaskNext(35); MaskNext(36); MaskNext(37); MaskNext(38); MaskNext(39); MaskNext(40);
    MaskNext(41); MaskNext(42); MaskNext(43); MaskNext(44); MaskNext(45); MaskNext(46); MaskNext(47); MaskNext(48);
    MaskNext(49); MaskNext(50); MaskNext(51); MaskNext(52); MaskNext(53); MaskNext(54); MaskNext(55); MaskNext(56);
    MaskNext(57); MaskNext(58); MaskNext(59); MaskNext(60); MaskNext(61); MaskNext(62); MaskNext(63); MaskNext(64);
  }

  lemma AndAll(v: bv64)
    ensures And64(v, 0xffff_ffff_ffff_ffff) == v
  {
  }

  lemma Low64Multiples(r: nat, m: nat)
    ensures Low64(r + m * Pow2(64)) == Low64(r)
  {
    hide Low64, Mask, And64, Pow2;
    LowBitsAgree(r, m, 64);
    FullMask();
    AndAll(Low64(r + m * Pow2(64)));
    AndAll(Low64(r));
  }

  lemma {:induction false} Positive(k: bv7)
    ensures Pow2(k) > 0
    decreases k
  {
    if k > 0 { Positive(k - 1); }
  }

  /** The modulus of the counter. */
  function Two64(): (r: nat)
    ensures r > 0
  {
    Positive(64);
    Pow2(64)
  }

  /** A 64-bit value is its number modulo 2^64. */
  lemma Low64Wraps(n: nat)
    ensures Low64(n) == Low64(n % Two64())
  {
    hide Low64, Pow2;
    Low64Multiples(n % Two64(), n / Two64());
  }

  /** The two counter words act as one 64-bit counter: n blocks move it by n, modulo 2^64. */
  lemma {:induction false} AdvanceCounts(j: State, c: nat, n: nat)
    requires Counter(j) == Low64(c)
    ensures Counter(Advance(j, n)) == Low64(c + n)
    decreases n
  {
    hide Counter, Next, Low64, Inc64;
    if n > 0 {
      AdvanceCounts(j, c, n - 1);
      NextCounts(Advance(j, n - 1));
      Low64Next(c + n - 1);
    }
  }

  /** So a stream reuses a counter value exactly when its block numbers agree modulo 2^64. */
  lemma CounterRepeatsIff(j: State, c: nat, m: nat, n: nat)
    requires Counter(j) == Low64(c)
    ensures Counter(Advance(j, m)) == Counter(Advance(j, n)) <==> (c + m) % Two64() == (c + n) % Two64()
  {
    hide Counter, Advance, Low64, Pow2;
    AdvanceCounts(j, c, m);
    AdvanceCounts(j, c, n);
    Low64Wraps(c + m);
    Low64Wraps(c + n);
    if (c + m) % Two64() != (c + n) % Two64() {
      Low64Injective((c + m) % Two64(), (c + n) % Two64(), 64);
    }
  }

  /** No two blocks share a counter value until the counter has passed 2^64. */
  lemma BlocksAreDistinct(j: State, c: nat, m: nat, n: nat)
    requires Counter(j) == Low64(c) && m < n && c + n < Pow2(64)
    ensures Counter(Advance(j, m)) != Counter(Advance(j, n))
  {
    hide Counter, Advance, Low64, Pow2;
    AdvanceCounts(j, c, m);
    AdvanceCounts(j, c, n);
    Low64Injective(c + m, c + n, 64);
  }

  lemma {:induction false} AdvanceAdds(j: State, m: nat, n: nat)
    ensures Advance(j, m + n) == Advance(Advance(j, m), n)
    decreases n
  {
    if n > 0 { AdvanceAdds(j, m, n - 1); }
  }

  // ---- The stream ----

  /** The message combined with the keystream that starts at state j. */
  function Crypt(j: State, m: seq<Byte>): (c: seq<Byte>)
    ensures |c| == |m|
  {
    seq(|m|, k requires 0 <= k < |m| => XorByte(m[k], KeyByte(Advance(j, k / 64), k % 64)))
  }

  function After(j: State, bytes: nat): State { Advance(j, (bytes + 63) / 64) }

  lemma CryptTwice(j: State, m: seq<Byte>)
    ensures Crypt(j, Crypt(j, m)) == m
  {
    hide XorByte, KeyByte, Advance;
    forall k | 0 <= k < |m| ensures Crypt(j, Crypt(j, m))[k] == m[k] {
      XorTwice(m[k], KeyByte(Advance(j, k / 64), k % 64));
    }
  }

  lemma CryptTail(j: State, a: seq<Byte>, b: seq<Byte>, k: nat)
    requires |a| % 64 == 0 && k < |b|
    ensures Crypt(j, a + b)[|a| + k] == Crypt(After(j, |a|), b)[k]
  {
    hide XorByte, KeyByte, Advance;
    var blocks := |a| / 64;
    assert (|a| + 63) / 64 == blocks;
    assert (|a| + k) / 64 == blocks + k / 64 && (|a| + k) % 64 == k % 64;
    AdvanceAdds(j, blocks, k / 64);
  }

  /** Cutting a message at a block boundary changes neither the text nor the final state. */
  lemma CryptSplit(j: State, a: seq<Byte>, b: seq<Byte>)
    requires |a| % 64 == 0
    ensures Crypt(j, a + b) == Crypt(j, a) + Crypt(After(j, |a|), b)
    ensures After(j, |a| + |b|) == After(After(j, |a|), |b|)
  {
    hide XorByte, KeyByte, Advance, Crypt;
    forall k | 0 <= k < |b| ensures Crypt(j, a + b)[|a| + k] == Crypt(After(j, |a|), b)[k] {
      CryptTail(j, a, b, k);
    }
    CryptPrefix(j, a + b, |a|);
    Seqs.Drop(a, b);
    Rejoin(Crypt(j, a + b), Crypt(j, a), Crypt(After(j, |a|), b));
    AfterSplit(j, |a|, |b|);
  }

  lemma AfterSplit(j: State, a: nat, b: nat)
    requires a % 64 == 0
    ensures After(j, a + b) == After(After(j, a), b)
  {
    hide Advance;
    assert (a + 63) / 64 == a / 64 && (a + b + 63) / 64 == a / 64 + (b + 63) / 64;
    AdvanceAdds(j, a / 64, (b + 63) / 64);
  }

  lemma Rejoin(c: seq<Byte>, a: seq<Byte>, b: seq<Byte>)
    requires |c| == |a| + |b| && c[..|a|] == a
    requires forall k :: 0 <= k < |b| ==> c[|a| + k] == b[k]
    ensures c == a + b
  {
    assert c[|a|..] == b;
  }

  /** A prefix of the message gives a prefix of the text. */
  lemma CryptPrefix(j: State, m: seq<Byte>, n: nat)
    requires n <= |m|
    ensures Crypt(j, m)[..n] == Crypt(j, m[..n])
  {
    hide XorByte, KeyByte, Advance;
  }

  /** At most one block's worth of text combined with the keystream block of j. */
  function BlockText(j: State, t: seq<Byte>): (c: seq<Byte>)
    requires |t| <= 64
    ensures |c| == |t|
  {
    seq(|t|, k requires 0 <= k < |t| => XorByte(t[k], KeyByte(j, k)))
  }

  lemma BlockIsCrypt(j: State, t: seq<Byte>)
    requires |t| <= 64
    ensures Crypt(j, t) == BlockText(j, t)
  {
    hide XorByte, KeyByte;
    forall k | 0 <= k < |t| ensures Crypt(j, t)[k] == BlockText(j, t)[k] {
      assert k / 64 == 0 && k % 64 == k;
    }
  }

  lemma CryptNextBlock(start: State, text: seq<Byte>, done: nat, size: nat)
    requires done % 64 == 0 && size <= 64 && done + size <= |text|
    ensures Crypt(start, text[..done + size]) ==
            Crypt(start, text[..done]) + BlockText(Advance(start, done / 64), text[done..done + size])
  {
    hide Crypt, BlockText, Advance;
    var a, b := text[..done], text[done..done + size];
    assert text[..done + size] == a + b;
    CryptSplit(start, a, b);
    assert (done + 63) / 64 == done / 64;
    BlockIsCrypt(Advance(start, done / 64), b);
  }

  // ---- The routines ----

  method QuarterRound(x: array<Word>, a: nat, b: nat, c: nat, d: nat)
    requires x.Length == 16 && a < 16 && b < 16 && c < 16 && d < 16
    modifies x
    ensures x[..] == Quarter(old(x[..]), a, b, c, d)
  {
    hide Plus, Xor, Rotate16, Rotate12, Rotate8, Rotate7;
    x[a] := Plus(x[a], x[b]);
    x[d] := Rotate16(Xor(x[d], x[a]));
    x[c] := Plus(x[c], x[d]);
    x[b] := Rotate12(Xor(x[b], x[c]));
    x[a] := Plus(x[a], x[b]);
    x[d] := Rotate8(Xor(x[d], x[a]));
    x[c] := Plus(x[c], x[d]);
    x[b] := Rotate7(Xor(x[b], x[c]));
  }

  method DoubleRound(x: array<Word>)
    requires x.Length == 16
    modifies x
    ensures x[..] == Diagonals(Columns(old(x[..])))
  {
    hide Quarter;
    QuarterRound(x, 0, 4, 8, 12);
    QuarterRound(x, 1, 5, 9, 13);
    QuarterRound(x, 2, 6, 10, 14);
    QuarterRound(x, 3, 7, 11, 15);
    QuarterRound(x, 0, 5, 10, 15);
    QuarterRound(x, 1, 6, 11, 12);
    QuarterRound(x, 2, 7, 8, 13);
    QuarterRound(x, 3, 4, 9, 14);
  }

  /** The working words for one block: twenty rounds on a copy of the state, state added back. */
  method BlockWords(j: array<Word>) returns (x: array<Word>)
    requires j.Length == 16
    ensures fresh(x) && x.Length == 16 && x[..] == Core(j[..])
  {
    hide Diagonals, Columns, Plus;
    x := new Word[16](i requires 0 <= i < 16 reads j => j[i]);
    assert x[..] == j[..];
    var i := 20;
    while i > 0
      invariant 0 <= i <= 20 && i % 2 == 0
      invariant x[..] == DoubleRounds(j[..], (20 - i) / 2)
    {
      DoubleRound(x);
      i := i - 2;
    }
    ghost var rounds := x[..];
    for k := 0 to 16
      invariant forall i :: 0 <= i < 16 ==> x[i] == if i < k then Plus(rounds[i], j[i]) else rounds[i]
    {
      x[k] := Plus(x[k], j[k]);
    }
    assert x[..] == Core(j[..]);
  }

  method MixIn(x: array<Word>, src: array<Byte>, so: nat)
    requires x.Length == 16 && so + 64 <= src.Length
    modifies x
    ensures forall q :: 0 <= q < 16 ==> x[q] == Xor(old(x[q]), LittleAt(src[so..so + 64], 4 * q))
  {
    hide Xor, Little;
    for i := 0 to 16
      invariant forall q :: 0 <= q < 16 ==>
        x[q] == if q < i then Xor(old(x[q]), LittleAt(src[so..so + 64], 4 * q)) else old(x[q])
    {
      x[i] := Xor(x[i], Little(src[so + 4 * i], src[so + 4 * i + 1], src[so + 4 * i + 2], src[so + 4 * i + 3]));
    }
  }

  method WriteOut(x: array<Word>, dst: array<Byte>, dOff: nat)
    requires x.Length == 16 && dOff + 64 <= dst.Length
    modifies dst
    ensures forall k :: 0 <= k < 64 ==> dst[dOff + k] == LittleByte(x[k / 4], k % 4)
    ensures forall p :: 0 <= p < dst.Length && (p < dOff || dOff + 64 <= p) ==> dst[p] == old(dst[p])
  {
    hide LittleByte;
    for i := 0 to 16
      invariant forall k :: 0 <= k < 4 * i ==> dst[dOff + k] == LittleByte(x[k / 4], k % 4)
      invariant forall p :: 0 <= p < dst.Length && (p < dOff || dOff + 64 <= p) ==> dst[p] == old(dst[p])
    {
      dst[dOff + 4 * i] := LittleByte(x[i], 0);
      dst[dOff + 4 * i + 1] := LittleByte(x[i], 1);
      dst[dOff + 4 * i + 2] := LittleByte(x[i], 2);
      dst[dOff + 4 * i + 3] := LittleByte(x[i], 3);
    }
  }

  /** One block of 64 bytes: all of it is read before any of it is written. */
  method CryptBlock(j: array<Word>, src: array<Byte>, so: nat, dst: array<Byte>, dOff: nat)
    requires j.Length == 16 && so + 64 <= src.Length && dOff + 64 <= dst.Length
    modifies dst
    ensures dst[dOff..dOff + 64] == BlockText(j[..], old(src[so..so + 64]))
    ensures dst[..dOff] == old(dst[..dOff]) && dst[dOff + 64..] == old(dst[dOff + 64..])
  {
    hide Core, Xor, XorByte, LittleAt, LittleByte;
    ghost var text := src[so..so + 64];
    var x := BlockWords(j);
    ghost var key := x[..];
    MixIn(x, src, so);
    WriteOut(x, dst, dOff);
    ghost var out := dst[dOff..dOff + 64];
    forall k | 0 <= k < 64 ensures out[k] == BlockText(j[..], text)[k] {
      assert dst[dOff + k] == LittleByte(x[k / 4], k % 4);
      XorBytes(key[k / 4], text, 4 * (k / 4), k % 4);
    }
  }

  // ---- Key and nonce set-up ----

  function Sigma(): (s: seq<Byte>)
    ensures |s| == 16
  {
    [101, 120, 112, 97, 110, 100, 32, 51, 50, 45, 98, 121, 116, 101, 32, 107]
  }

  function Tau(): (s: seq<Byte>)
    ensures |s| == 16
  {
    [101, 120, 112, 97, 110, 100, 32, 49, 54, 45, 98, 121, 116, 101, 32, 107]
  }

  /** Constants, then the key; a 128-bit key is used twice. */
  function KeyWords(k: seq<Byte>, kbits: nat): seq<Word>
    requires |k| == if kbits == 256 then 32 else 16
  {
    var c := if kbits == 256 then Sigma() else Tau();
    var second := if kbits == 256 then 16 else 0;
    [LittleAt(c, 0), LittleAt(c, 4), LittleAt(c, 8), LittleAt(c, 12),
     LittleAt(k, 0), LittleAt(k, 4), LittleAt(k, 8), LittleAt(k, 12),
     LittleAt(k, second), LittleAt(k, second + 4), LittleAt(k, second + 8), LittleAt(k, second + 12)]
  }

  method KeySetup(x: array<Word>, k: seq<Byte>, kbits: nat)
    requires x.Length == 16 && |k| == if kbits == 256 then 32 else 16
    modifies x
    ensures x[..12] == KeyWords(k, kbits) && x[12..] == old(x[12..])
  {
    hide LittleAt, Sigma, Tau;
    x[4] := LittleAt(k, 0);
    x[5] := LittleAt(k, 4);
    x[6] := LittleAt(k, 8);
    x[7] := LittleAt(k, 12);
    var constants, at := Tau(), 0;
    if kbits == 256 {
      at := 16;
      constants := Sigma();
    }
    x[8] := LittleAt(k, at);
    x[9] := LittleAt(k, at + 4);
    x[10] := LittleAt(k, at + 8);
    x[11] := LittleAt(k, at + 12);
    x[0] := LittleAt(constants, 0);
    x[1] := LittleAt(constants, 4);
    x[2] := LittleAt(constants, 8);
    x[3] := LittleAt(constants, 12);
    Twelve(x[..12]);
  }

  lemma Twelve(s: seq<Word>)
    requires |s| == 12
    ensures s == [s[0], s[1], s[2], s[3], s[4], s[5], s[6], s[7], s[8], s[9], s[10], s[11]]
  {
  }

  /** A state from its key words, the 8-byte nonce and the 8-byte little-endian counter. */
  function Start(key: seq<Word>, iv: seq<Byte>, counter: seq<Byte>): State
    requires |key| == 12 && |iv| == 8 && |counter| == 8
  {
    key + [LittleAt(counter, 0), LittleAt(counter, 4), LittleAt(iv, 0), LittleAt(iv, 4)]
  }

  method IvSetup(x: array<Word>, iv: seq<Byte>, counter: seq<Byte>)
    requires x.Length == 16 && |iv| == 8 && |counter| == 8
    modifies x
    ensures x[..] == Start(old(x[..12]), iv, counter)
  {
    hide LittleAt;
    x[12], x[13], x[14], x[15] := LittleAt(counter, 0), LittleAt(counter, 4), LittleAt(iv, 0), LittleAt(iv, 4);
  }

  // ---- The stream routine ----

  lemma {:induction false} AdvanceKeepsOthers(j: State, n: nat, i: nat)
    requires i < 16 && i != 12 && i != 13
    ensures Advance(j, n)[i] == j[i]
  {
    if n > 0 { AdvanceKeepsOthers(j, n - 1, i); }
  }

  lemma StoredCounter(start: State, n: nat, ctx: State)
    requires ctx == start[12 := Advance(start, n)[12]][13 := Advance(start, n)[13]]
    ensures ctx == Advance(start, n)
  {
    hide Advance;
    forall i | 0 <= i < 16 ensures ctx[i] == Advance(start, n)[i] {
      if i != 12 && i != 13 { AdvanceKeepsOthers(start, n, i); }
    }
  }

  /** The counter step of the block loop. */
  method Bump(j: array<Word>)
    requires j.Length == 16
    modifies j
    ensures j[..] == Next(old(j[..]))
  {
    hide PlusOne;
    j[12] := PlusOne(j[12]);
    if j[12] == 0 { j[13] := PlusOne(j[13]); }
  }

  lemma ShortBlock(j: State, t: seq<Byte>, u: seq<Byte>)
    requires |u| == 64 && t <= u
    ensures BlockText(j, u)[..|t|] == BlockText(j, t)
  {
    hide XorByte, KeyByte;
  }

  /** A short block goes through a 64-byte scratch buffer. */
  method CryptShort(j: array<Word>, src: array<Byte>, so: nat, dst: array<Byte>, dOff: nat, size: nat)
    requires j.Length == 16 && size < 64 && so + size <= src.Length && dOff + size <= dst.Length
    modifies dst
    ensures dst[dOff..dOff + size] == BlockText(j[..], old(src[so..so + size]))
    ensures dst[..dOff] == old(dst[..dOff]) && dst[dOff + size..] == old(dst[dOff + size..])
  {
    hide BlockText;
    ghost var text := src[so..so + size];
    var tmp := new Byte[64];
    for i := 0 to size
      modifies tmp
      invariant forall k :: 0 <= k < i ==> tmp[k] == text[k]
    {
      tmp[i] := src[so + i];
    }
    ShortBlock(j[..], text, tmp[..]);
    assert tmp[0..64] == tmp[..];
    CryptBlock(j, tmp, 0, tmp, 0);
    assert tmp[0..64] == tmp[..];
    ghost var want := tmp[..size];
    for i := 0 to size
      modifies dst
      invariant dst[dOff..dOff + i] == want[..i]
      invariant dst[..dOff] == old(dst[..dOff]) && dst[dOff + size..] == old(dst[dOff + size..])
    {
      dst[dOff + i] := tmp[i];
      assert dst[dOff..dOff + i + 1] == dst[dOff..dOff + i] + [tmp[i]];
      Seqs.Snoc(want, i);
    }
    Seqs.Whole(want);
  }

  method CryptChunk(j: array<Word>, src: array<Byte>, so: nat, dst: array<Byte>, dOff: nat, size: nat)
    requires j.Length == 16 && size <= 64 && so + size <= src.Length && dOff + size <= dst.Length
    modifies dst
    ensures dst[dOff..dOff + size] == BlockText(j[..], old(src[so..so + size]))
    ensures dst[..dOff] == old(dst[..dOff]) && dst[dOff + size..] == old(dst[dOff + size..])
  {
    hide BlockText;
    if size < 64 { CryptShort(j, src, so, dst, dOff, size); } else { CryptBlock(j, src, so, dst, dOff); }
  }

  /** How far the block loop has come: done bytes of the text are encrypted at dOff, the rest is still unread in the
      source, and the destination (dst0 at first) is as it was elsewhere. */
  ghost predicate Streaming(start: State, text: seq<Byte>, src: seq<Byte>, so: nat, dst0: seq<Byte>, dst: seq<Byte>,
                            dOff: nat, done: nat) {
    done <= |text| && so + |text| <= |src| && dOff + |text| <= |dst| == |dst0| &&
    dst[dOff..dOff + done] == Crypt(start, text[..done]) && src[so + done..so + |text|] == text[done..] &&
    dst[..dOff] == dst0[..dOff] && dst[dOff + |text|..] == dst0[dOff + |text|..]
  }

  /** A slice cut in two. */
  lemma SliceSplits(s: seq<Byte>, from: nat, to: nat, size: nat)
    requires from + size <= to <= |s|
    ensures s[from..from + size] == s[from..to][..size] && s[from + size..to] == s[from..to][size..]
    ensures to == |s| ==> s[from..to] == s[from..] && s[from + size..to] == s[from + size..]
  {
  }

  /** The text still to be read is untouched by what was written before it. */
  lemma UnreadStays(text: seq<Byte>, src: seq<Byte>, so: nat, src': seq<Byte>, done: nat, size: nat)
    requires done + size <= |text| && so + |text| <= |src| == |src'| && src[so + done..so + |text|] == text[done..]
    requires src'[so + done + size..so + |text|] == src[so + done + size..so + |text|]
    ensures src'[so + done + size..so + |text|] == text[done + size..]
    ensures src[so + done..so + done + size] == text[done..done + size]
  {
    SliceSplits(src, so + done, so + |text|, size);
    SliceSplits(text, done, |text|, size);
  }

  lemma StreamingNext(start: State, text: seq<Byte>, src: seq<Byte>, so: nat, dst0: seq<Byte>, dst: seq<Byte>,
                      dOff: nat, done: nat, size: nat, src': seq<Byte>, dst': seq<Byte>)
    requires Streaming(start, text, src, so, dst0, dst, dOff, done)
    requires done % 64 == 0 && size <= 64 && done + size <= |text| && |src'| == |src| && |dst'| == |dst|
    requires dst'[..dOff + done] == dst[..dOff + done] && dst'[dOff + done + size..] == dst[dOff + done + size..]
    requires dst'[dOff + done..dOff + done + size] == BlockText(Advance(start, done / 64), src[so + done..so + done + size])
    requires src' == src || (src' == dst' && src == dst && so == dOff)
    ensures Streaming(start, text, src', so, dst0, dst', dOff, done + size)
  {
    hide Crypt, BlockText, Advance;
    OneMoreChunk(dst, dst', dOff, done, size, |text|);
    UnreadStays(text, src, so, src', done, size);
    CryptNextBlock(start, text, done, size);
  }

  lemma StreamingStart(start: State, text: seq<Byte>, src: seq<Byte>, so: nat, dst: seq<Byte>, dOff: nat)
    requires so + |text| <= |src| && dOff + |text| <= |dst| && src[so..so + |text|] == text
    ensures Streaming(start, text, src, so, dst, dst, dOff, 0)
  {
    NothingYet(start);
    Seqs.Whole(text);
  }

  lemma StreamingEnd(start: State, text: seq<Byte>, src: seq<Byte>, so: nat, dst0: seq<Byte>, dst: seq<Byte>, dOff: nat)
    requires Streaming(start, text, src, so, dst0, dst, dOff, |text|)
    ensures dOff + |text| <= |dst| == |dst0| && dst[dOff..dOff + |text|] == Crypt(start, text)
    ensures dst[..dOff] == dst0[..dOff] && dst[dOff + |text|..] == dst0[dOff + |text|..]
  {
    Seqs.Whole(text);
  }

  /** One turn of the block loop on a copy j of the state. */
  method StreamBlock(j: array<Word>, src: array<Byte>, so: nat, dst: array<Byte>, dOff: nat, done: nat, size: nat,
                     ghost start: State, ghost text: seq<Byte>, ghost dst0: seq<Byte>)
    requires j.Length == 16 && so + |text| <= src.Length && dOff + |text| <= dst.Length
    requires (src != dst || so == dOff) && size <= 64 && done % 64 == 0 && done + size <= |text|
    requires j[..] == Advance(start, done / 64) && Streaming(start, text, src[..], so, dst0, dst[..], dOff, done)
    modifies j, dst
    ensures j[..] == Advance(start, done / 64 + 1)
    ensures Streaming(start, text, src[..], so, dst0, dst[..], dOff, done + size)
  {
    hide Crypt, BlockText, Advance, Next, Streaming;
    ghost var before, source := dst[..], src[..];
    CryptChunk(j, src, so + done, dst, dOff + done, size);
    StreamingNext(start, text, source, so, dst0, before, dOff, done, size, src[..], dst[..]);
    AdvanceOne(start, done / 64);
    Bump(j);
  }

  /** The block loop. */
  method StreamBlocks(j: array<Word>, src: array<Byte>, so: nat, dst: array<Byte>, dOff: nat, bytes: nat)
    requires j.Length == 16 && 0 < bytes && so + bytes <= src.Length && dOff + bytes <= dst.Length
    requires src != dst || so == dOff
    modifies j, dst
    ensures dst[dOff..dOff + bytes] == Crypt(old(j[..]), old(src[so..so + bytes]))
    ensures dst[..dOff] == old(dst[..dOff]) && dst[dOff + bytes..] == old(dst[dOff + bytes..])
    ensures j[..] == After(old(j[..]), bytes)
  {
    hide Crypt, BlockText, Advance, Next, Streaming;
    ghost var start: State, text, dst0 := j[..], src[so..so + bytes], dst[..];
    AdvanceNone(start);
    StreamingStart(start, text, src[..], so, dst0, dOff);
    var done := 0;
    while true
      modifies j, dst
      invariant 0 <= done < bytes && done % 64 == 0 && j[..] == Advance(start, done / 64)
      invariant Streaming(start, text, src[..], so, dst0, dst[..], dOff, done)
      decreases bytes - done
    {
      var left := bytes - done;
      var size := if left < 64 then left else 64;
      StreamBlock(j, src, so, dst, dOff, done, size, start, text, dst0);
      done := done + size;
      if left <= 64 { break; }
    }
    StreamingEnd(start, text, src[..], so, dst0, dst[..], dOff);
  }

  /** Encrypts or decrypts, from one buffer to another or in place, and moves the counter. */
  method EncryptBytes(ctx: array<Word>, src: array<Byte>, so: nat, dst: array<Byte>, dOff: nat, bytes: nat)
    requires ctx.Length == 16 && so + bytes <= src.Length && dOff + bytes <= dst.Length
    requires src != dst || so == dOff
    modifies ctx, dst
    ensures dst[dOff..dOff + bytes] == Crypt(old(ctx[..]), old(src[so..so + bytes]))
    ensures dst[..dOff] == old(dst[..dOff]) && dst[dOff + bytes..] == old(dst[dOff + bytes..])
    ensures ctx[..] == After(old(ctx[..]), bytes)
  {
    hide Crypt, Advance;
    ghost var start: State := ctx[..];
    AdvanceNone(start);
    NothingYet(start);
    if bytes == 0 { return; }
    var j := new Word[16](i requires 0 <= i < 16 reads ctx => ctx[i]);
    assert j[..] == start;
    StreamBlocks(j, src, so, dst, dOff, bytes);
    ctx[12] := j[12];
    ctx[13] := j[13];
    StoredCounter(start, (bytes + 63) / 64, ctx[..]);
  }

  /** The buffer around a chunk that has just been written. */
  lemma OneMoreChunk(before: seq<Byte>, after: seq<Byte>, at: nat, done: nat, size: nat, bytes: nat)
    requires |before| == |after| && done + size <= bytes && at + bytes <= |before|
    requires after[..at + done] == before[..at + done] && after[at + done + size..] == before[at + done + size..]
    ensures after[..at] == before[..at] && after[at + bytes..] == before[at + bytes..]
    ensures after[at..at + done + size] == before[at..at + done] + after[at + done..at + done + size]
    ensures after[at + done + size..at + bytes] == before[at + done + size..at + bytes]
  {
    assert after[..at] == after[..at + done][..at];
    assert after[at..at + done] == after[..at + done][at..] == before[..at + done][at..];
    assert after[at + bytes..] == after[at + done + size..][bytes - done - size..];
    assert after[at + done + size..at + bytes] == after[at + done + size..][..bytes - done - size];
    assert before[at + done + size..at + bytes] == before[at + done + size..][..bytes - done - size];
  }

  lemma AdvanceNone(j: State)
    ensures Advance(j, 0) == j
  {
  }

  lemma AdvanceOne(j: State, n: nat)
    ensures Advance(j, n + 1) == Next(Advance(j, n))
  {
  }

  lemma NothingYet(start: State)
    ensures Crypt(start, []) == []
  {
  }
}
