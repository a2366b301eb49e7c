/** Bits of 32-bit words and of bytes, numbered from the least significant. */
module Bits {

  type Word = bv32
  type Byte = bv8

  /** A bit position as a shift count. */
  function Pos(k: nat): bv6
    requires k <= 32
  {
    k as bv6
  }

  function BitAt(w: Word, p: bv6): bool
    requires p < 32
  {
    (w >> p) & 1 == 1
  }

  /** Whether bit k of the word is set. */
  function Bit(w: Word, k: nat): bool
    requires k < 32
  {
    ShiftCount(k);
    BitAt(w, Pos(k))
  }

  function Widen(b: Byte): Word { b as Word }

  function ByteBit(b: Byte, k: nat): bool
    requires k < 8
  {
    Bit(Widen(b), k)
  }

  // ---- The operators that the sources use, by name ----

  function And(a: Word, b: Word): Word { a & b }
  function Not(a: Word): Word { !a }

  function OneAt(p: bv6): Word
    requires p < 32
  {
    (1 as Word) << p
  }

  function Or(a: Word, b: Word): Word { a | b }

  function WithBit(w: Word, k: nat): Word
    requires k < 32
  {
    ShiftCount(k);
    Or(w, OneAt(Pos(k)))
  }

  function WithoutBit(w: Word, k: nat): Word
    requires k < 32
  {
    ShiftCount(k);
    And(w, Not(OneAt(Pos(k))))
  }

  /** The first l bits of a word, as 0xffffffff << (32 - l) makes them. */
  function HighOnes(l: nat): Word
    requires 1 <= l <= 32
  {
    ShiftCount(32 - l);
    OnesFrom(Pos(32 - l))
  }

  function OnesFrom(p: bv6): Word
    requires p < 32
  {
    (0xffff_ffff as Word) << p
  }

  /** Byte j of a word, counted from the least significant. */
  function WordByte(w: Word, j: nat): Byte
    requires j < 4
  {
    ShiftCount(8 * j);
    ByteAt(w, Pos(8 * j))
  }

  function ByteAt(w: Word, p: bv6): Byte
    requires p < 32
  {
    ((w >> p) & 0xff) as Byte
  }

  function Shifted(b: Byte, p: bv6): Word
    requires p < 32
  {
    (b as Word) << p
  }

  function WithByte(w: Word, b: Byte, j: nat): Word
    requires j < 4
  {
    ShiftCount(8 * j);
    Or(w, Shifted(b, Pos(8 * j)))
  }

  // ---- Positions as integers and as shift counts ----

  lemma ShiftCount(k: nat)
    requires k < 32
    ensures Pos(k) < 32
  {
  }

  lemma Position(k: nat)
    requires k <= 32
    ensures Pos(k) as int == k
  {
  }

  lemma SameAt(p: bv6, q: bv6)
    requires p as int == q as int
    ensures p == q
  {
  }

  lemma OrderAt(p: bv6, q: bv6)
    ensures p < q <==> p as int < q as int
  {
  }

  lemma AddAt(p: bv6, q: bv6)
    requires p as int + q as int < 64
    ensures (p + q) as int == p as int + q as int
  {
  }

  lemma Order(k: nat, j: nat)
    requires k <= 32 && j <= 32
    ensures Pos(k) < Pos(j) <==> k < j
    ensures Pos(k) == Pos(j) <==> k == j
  {
    hide Pos;
    Position(k);
    Position(j);
    OrderAt(Pos(k), Pos(j));
  }

  lemma Sum(k: nat, j: nat)
    requires k + j <= 32
    ensures Pos(k) + Pos(j) == Pos(k + j)
  {
    hide Pos;
    Position(k);
    Position(j);
    Position(k + j);
    AddAt(Pos(k), Pos(j));
    SameAt(Pos(k) + Pos(j), Pos(k + j));
  }

  lemma Literals()
    ensures Pos(1) == 1 && Pos(8) == 8 && Pos(24) == 24 && Pos(31) == 31 && Pos(32) == 32
  {
  }

  // ---- The operators, bit by bit, on shift counts ----

  lemma SetAt(w: Word, p: bv6, q: bv6)
    requires p < 32 && q < 32
    ensures BitAt(Or(w, OneAt(p)), q) <==> BitAt(w, q) || q == p
  {
  }

  lemma ClearAt(w: Word, p: bv6, q: bv6)
    requires p < 32 && q < 32
    ensures BitAt(And(w, Not(OneAt(p))), q) <==> BitAt(w, q) && q != p
  {
  }

  lemma MaskAt(s: bv6, q: bv6)
    requires s < 32 && q < 32
    ensures BitAt(OnesFrom(s), q) <==> s <= q
  {
  }

  lemma AndAt(a: Word, b: Word, q: bv6)
    requires q < 32
    ensures BitAt(And(a, b), q) <==> BitAt(a, q) && BitAt(b, q)
  {
  }

  lemma ShiftAt(w: Word, q: bv6)
    requires q < 31
    ensures BitAt(w << 1, q + 1) <==> BitAt(w, q)
    ensures !BitAt(w << 1, 0)
  {
  }

  lemma WordByteAt(w: Word, s: bv6, t: bv6)
    requires s <= 24 && t < 8
    ensures BitAt(Widen(ByteAt(w, s)), t) <==> BitAt(w, s + t)
  {
  }

  lemma WithByteAt(w: Word, b: Byte, s: bv6, q: bv6)
    requires s <= 24 && q < 32
    ensures q < s || s + 8 <= q ==> (BitAt(Or(w, Shifted(b, s)), q) <==> BitAt(w, q))
  {
  }

  lemma WithByteInsideAt(w: Word, b: Byte, s: bv6, t: bv6)
    requires s <= 24 && t < 8
    ensures BitAt(Or(w, Shifted(b, s)), s + t) <==> BitAt(w, s + t) || BitAt(Widen(b), t)
  {
  }

  // ---- The same, on integer positions ----

  lemma SetBit(w: Word, k: nat, j: nat)
    requires k < 32 && j < 32
    ensures Bit(WithBit(w, k), j) <==> Bit(w, j) || j == k
    ensures Bit(WithoutBit(w, k), j) <==> Bit(w, j) && j != k
  {
    hide BitAt, Pos, And, Or, Not, OneAt, OnesFrom, ByteAt, Shifted, Widen;
    ShiftCount(k);
    ShiftCount(j);
    Order(k, j);
    SetAt(w, Pos(k), Pos(j));
    ClearAt(w, Pos(k), Pos(j));
  }

  lemma AndBit(a: Word, b: Word, j: nat)
    requires j < 32
    ensures Bit(And(a, b), j) <==> Bit(a, j) && Bit(b, j)
  {
    hide BitAt, Pos, And, Or, Not, OneAt, OnesFrom, ByteAt, Shifted, Widen;
    ShiftCount(j);
    AndAt(a, b, Pos(j));
  }

  lemma ShiftBit(w: Word, j: nat)
    requires j < 32
    ensures Bit(w << 1, j) <==> j >= 1 && Bit(w, j - 1)
  {
    hide BitAt, Pos, And, Or, Not, OneAt, OnesFrom, ByteAt, Shifted, Widen;
    ShiftCount(j);
    if j > 0 {
      ShiftCount(j - 1);
      Literals();
      Sum(j - 1, 1);
      Order(j - 1, 31);
      ShiftAt(w, Pos(j - 1));
    } else {
      ShiftAt(w, 0);
      ZeroPos();
    }
  }

  lemma ZeroPos()
    ensures Pos(0) == 0
  {
  }

  lemma TopBit(w: Word)
    ensures w & 0x8000_0000 != 0 <==> Bit(w, 31)
  {
    Literals();
  }

  lemma ZeroBit(j: nat)
    requires j < 32
    ensures !Bit(0, j)
  {
  }

  lemma HighOnesBit(l: nat, j: nat)
    requires 1 <= l <= 32 && j < 32
    ensures Bit(HighOnes(l), j) <==> 32 - l <= j
  {
    hide BitAt, Pos, And, Or, Not, OneAt, OnesFrom, ByteAt, Shifted, Widen;
    ShiftCount(j);
    ShiftCount(32 - l);
    Order(j, 32 - l);
    MaskAt(Pos(32 - l), Pos(j));
  }

  lemma WordByteBit(w: Word, j: nat, t: nat)
    requires j < 4 && t < 8
    ensures ByteBit(WordByte(w, j), t) <==> Bit(w, 8 * j + t)
  {
    hide BitAt, Pos, And, Or, Not, OneAt, OnesFrom, ByteAt, Shifted, Widen;
    ShiftCount(8 * j + t);
    ShiftCount(t);
    Literals();
    Order(t, 8);
    Order(24, 8 * j);
    Sum(8 * j, t);
    WordByteAt(w, Pos(8 * j), Pos(t));
  }

  lemma WithByteBit(w: Word, b: Byte, j: nat, k: nat)
    requires j < 4 && k < 32
    ensures Bit(WithByte(w, b, j), k) <==> Bit(w, k) || (8 * j <= k < 8 * j + 8 && ByteBit(b, k - 8 * j))
  {
    hide BitAt, Pos, And, Or, Not, OneAt, OnesFrom, ByteAt, Shifted, Widen;
    Literals();
    ShiftCount(k);
    Order(24, 8 * j);
    if 8 * j <= k < 8 * j + 8 {
      var t := k - 8 * j;
      Sum(8 * j, t);
      Order(t, 8);
      ShiftCount(t);
      WithByteInsideAt(w, b, Pos(8 * j), Pos(t));
    } else {
      Order(k, 8 * j);
      Sum(8 * j, 8);
      Order(k, 8 * j + 8);
      WithByteAt(w, b, Pos(8 * j), Pos(k));
    }
  }

  // ---- Words and bytes with the same bits are the same ----

  lemma SameBits(a: Word, b: Word)
    requires forall k :: 0 <= k < 32 ==> Bit(a, k) == Bit(b, k)
    ensures a == b
  {
    hide BitAt, Pos, And, Or, Not, OneAt, OnesFrom, ByteAt, Shifted, Widen;
    forall p: bv6 | p < 32 ensures BitAt(a, p) == BitAt(b, p) {
      var k := p as int;
      OrderAt(p, 32);
      Literal32();
      Position(k);
      SameAt(Pos(k), p);
      assert Bit(a, k) == Bit(b, k);
    }
    SameBitsAt(a, b);
  }

  lemma Literal32()
    ensures (32 as bv6) as int == 32
  {
  }

  lemma SameBitsAt(a: Word, b: Word)
    requires forall p: bv6 :: p < 32 ==> BitAt(a, p) == BitAt(b, p)
    ensures a == b
  {
    var p: bv6 := 32;
    while p > 0
      invariant p <= 32 && a >> p == b >> p
      decreases p
    {
      p := p - 1;
      assert BitAt(a, p) == BitAt(b, p);
    }
  }
}
