/** The growable bitmap (bitmap.c) as a finite set of naturals, with its big-endian strings. */
module Bitmap {
  import opened Bits

  const BITMAP_MAX: nat := 0x100_0000

  // ---- Sets of naturals, as words and as strings ----

  /** The numbers whose bits are set in a sequence of words. */
  ghost predicate HasBit(ws: seq<Word>, n: nat) {
    n / 32 < |ws| && Bit(ws[n / 32], n % 32)
  }

  ghost function SetOf(ws: seq<Word>): set<nat> {
    set n | 0 <= n < 32 * |ws| && HasBit(ws, n)
  }

  /** The numbers whose bits are set in a big-endian byte string. */
  ghost predicate StringHas(s: seq<Byte>, n: nat) {
    n / 8 < |s| && ByteBit(s[|s| - 1 - n / 8], n % 8)
  }

  ghost function StringSet(s: seq<Byte>): set<nat> {
    set n | 0 <= n < 8 * |s| && StringHas(s, n)
  }

  /** No leading zero byte. */
  predicate Canonical(s: seq<Byte>) { s == [] || s[0] != 0 }

  function Strip(s: seq<Byte>): (t: seq<Byte>)
    ensures Canonical(t)
  {
    if s != [] && s[0] == 0 then Strip(s[1..]) else s
  }

  /** r is one more than the largest element, or 0 for the empty set. */
  ghost predicate IsBound(elements: set<nat>, r: nat) {
    (forall n :: n in elements ==> n < r) && (r > 0 ==> r - 1 in elements)
  }

  lemma BoundIsUnique(s: set<nat>, a: nat, b: nat)
    requires IsBound(s, a) && IsBound(s, b)
    ensures a == b
  {
  }

  // ---- Strings: leading zeros do not matter, and nothing else is lost ----

  lemma {:induction false} StripKeepsSet(s: seq<Byte>)
    ensures StringSet(Strip(s)) == StringSet(s)
  {
    hide ByteBit;
    if s != [] && s[0] == 0 {
      var t := s[1..];
      StripKeepsSet(t);
      forall n: nat ensures StringHas(t, n) == StringHas(s, n) {
        if n / 8 < |t| {
          assert s[|s| - 1 - n / 8] == t[|t| - 1 - n / 8];
        } else if n / 8 < |s| {
          ZeroByteBit(n % 8);
        }
      }
      forall n: nat ensures n in StringSet(t) <==> n in StringSet(s) {
        assert StringHas(t, n) == StringHas(s, n);
      }
    }
  }

  lemma ZeroByteBit(t: nat)
    requires t < 8
    ensures !ByteBit(0, t)
  {
    ZeroBit(t);
  }

  lemma SameByteBits(a: Byte, b: Byte)
    requires forall t :: 0 <= t < 8 ==> ByteBit(a, t) == ByteBit(b, t)
    ensures a == b
  {
    hide Bit;
    forall k | 0 <= k < 32 ensures Bit(Widen(a), k) == Bit(Widen(b), k) {
      if k < 8 { assert ByteBit(a, k) == ByteBit(b, k); }
      else { HighByteBit(a, k); HighByteBit(b, k); }
    }
    SameBits(Widen(a), Widen(b));
  }

  lemma HighByteBit(b: Byte, k: nat)
    requires 8 <= k < 32
    ensures !Bit(Widen(b), k)
  {
    hide BitAt, Pos, Widen;
    ShiftCount(k);
    Literals();
    Order(k, 8);
    HighByteBitAt(b, Pos(k));
  }

  lemma HighByteBitAt(b: Byte, p: bv6)
    requires 8 <= p < 32
    ensures !BitAt(Widen(b), p)
  {
  }

  lemma NonZeroByteHasBit(b: Byte)
    requires b != 0
    ensures exists t :: 0 <= t < 8 && ByteBit(b, t)
  {
    hide ByteBit;
    if forall t :: 0 <= t < 8 ==> !ByteBit(b, t) {
      forall t | 0 <= t < 8 ensures ByteBit(b, t) == ByteBit(0, t) { ZeroByteBit(t); }
      SameByteBits(b, 0);
    }
  }

  /** A canonical string is as long as its largest element needs. */
  lemma CanonicalLength(s: seq<Byte>, r: nat)
    requires Canonical(s) && IsBound(StringSet(s), r)
    ensures |s| == (r + 7) / 8
  {
    hide ByteBit;
    if s != [] {
      NonZeroByteHasBit(s[0]);
      var t :| 0 <= t < 8 && ByteBit(s[0], t);
      var n := 8 * (|s| - 1) + t;
      assert n / 8 == |s| - 1 && n % 8 == t;
      assert n in StringSet(s);
    } else {
      assert StringSet(s) == {};
    }
  }

  lemma BytesFromSet(s: seq<Byte>, t: seq<Byte>)
    requires |s| == |t| && StringSet(s) == StringSet(t)
    ensures s == t
  {
    hide ByteBit;
    forall i | 0 <= i < |s| ensures s[i] == t[i] {
      forall b | 0 <= b < 8 ensures ByteBit(s[i], b) == ByteBit(t[i], b) {
        var n := 8 * (|s| - 1 - i) + b;
        assert n / 8 == |s| - 1 - i && n % 8 == b;
        assert n in StringSet(s) <==> ByteBit(s[i], b);
        assert n in StringSet(t) <==> ByteBit(t[i], b);
      }
      SameByteBits(s[i], t[i]);
    }
  }

  ghost function Bound(s: set<nat>): (r: nat)
    ensures IsBound(s, r)
  {
    if s == {} then 0 else
      var m :| m in s;
      var rest := Bound(s - {m});
      assert s == (s - {m}) + {m};
      if rest > m then rest else m + 1
  }

  /** A canonical string is determined by its set. */
  lemma CanonicalIsUnique(s: seq<Byte>, t: seq<Byte>)
    requires Canonical(s) && Canonical(t) && StringSet(s) == StringSet(t)
    ensures s == t
  {
    var r := Bound(StringSet(s));
    CanonicalLength(s, r);
    CanonicalLength(t, r);
    BytesFromSet(s, t);
  }

  // ---- How words change the set ----

  /** Replacing one word changes only that word's 32 numbers. */
  lemma WordChanged(ws: seq<Word>, vs: seq<Word>, i: nat, k: nat, n: nat)
    requires i < |ws| == |vs| && k < 32 && n == 32 * i + k
    requires forall j :: 0 <= j < |ws| && j != i ==> vs[j] == ws[j]
    ensures (forall b :: 0 <= b < 32 ==> Bit(vs[i], b) == (Bit(ws[i], b) || b == k)) ==> SetOf(vs) == SetOf(ws) + {n}
    ensures (forall b :: 0 <= b < 32 ==> Bit(vs[i], b) == (Bit(ws[i], b) && b != k)) ==> SetOf(vs) == SetOf(ws) - {n}
  {
    hide Bit;
    assert n / 32 == i && n % 32 == k;
    forall m: nat | m / 32 != i ensures HasBit(vs, m) == HasBit(ws, m) {}
    forall m: nat | m / 32 == i && m != n ensures m % 32 != k { assert m == 32 * (m / 32) + m % 32; }
  }

  lemma ZeroWordsAreEmpty(ws: seq<Word>)
    requires forall i :: 0 <= i < |ws| ==> ws[i] == 0
    ensures SetOf(ws) == {}
  {
    hide Bit;
    forall n: nat | n / 32 < |ws| ensures !HasBit(ws, n) { ZeroBit(n % 32); }
  }

  lemma ZeroPadding(ws: seq<Word>, vs: seq<Word>)
    requires |ws| <= |vs| && vs[..|ws|] == ws
    requires forall i :: |ws| <= i < |vs| ==> vs[i] == 0
    ensures SetOf(vs) == SetOf(ws)
  {
    hide Bit;
    forall n: nat ensures HasBit(vs, n) == HasBit(ws, n) {
      if n / 32 < |ws| { assert vs[..|ws|][n / 32] == vs[n / 32]; }
      else if n / 32 < |vs| { ZeroBit(n % 32); }
    }
    forall n: nat ensures n in SetOf(vs) <==> n in SetOf(ws) { assert HasBit(vs, n) == HasBit(ws, n); }
  }

  lemma NonZeroWordHasBit(w: Word)
    requires w != 0
    ensures exists k :: 0 <= k < 32 && Bit(w, k)
  {
    hide Bit;
    if forall k :: 0 <= k < 32 ==> !Bit(w, k) {
      forall k | 0 <= k < 32 ensures Bit(w, k) == Bit(0, k) { ZeroBit(k); }
      SameBits(w, 0);
    }
  }

  /** w is orig moved up by t bits. */
  ghost predicate ShiftedBy(w: Word, orig: Word, t: nat) {
    forall k {:trigger Bit(w, k)} :: 0 <= k < 32 ==> (Bit(w, k) <==> k >= t && Bit(orig, k - t))
  }

  lemma Unshifted(w: Word)
    ensures ShiftedBy(w, w, 0)
  {
  }

  lemma ShiftedTop(w: Word, orig: Word, t: nat)
    requires ShiftedBy(w, orig, t) && t <= 31
    ensures Bit(w, 31) == Bit(orig, 31 - t)
  {
  }

  lemma ShiftMore(w: Word, orig: Word, t: nat)
    requires ShiftedBy(w, orig, t)
    ensures ShiftedBy(w << 1, orig, t + 1)
  {
    hide Bit;
    forall k {:trigger Bit(w << 1, k)} | 0 <= k < 32 ensures Bit(w << 1, k) <==> k >= t + 1 && Bit(orig, k - t - 1) {
      ShiftBit(w, k);
      if k > 0 { assert Bit(w, k - 1) == (k - 1 >= t && Bit(orig, k - 1 - t)); }
    }
  }

  /** When the top word's highest bit is k, the set is bounded by the number just after it. */
  lemma TopWordBounds(ws: seq<Word>, top: nat, k: nat)
    requires top < |ws| && k < 32 && Bit(ws[top], k)
    requires forall i :: top < i < |ws| ==> ws[i] == 0
    requires forall b :: k < b < 32 ==> !Bit(ws[top], b)
    ensures IsBound(SetOf(ws), 32 * top + k + 1)
  {
    hide Bit;
    var m := 32 * top + k;
    assert m / 32 == top && m % 32 == k;
    assert m in SetOf(ws);
    forall n | n in SetOf(ws) ensures n <= m {
      if n / 32 > top { ZeroBit(n % 32); }
    }
  }

  // ---- Strings written from words, and words filled from strings ----

  /** Byte m of the number that the words spell, counted from the least significant. */
  function NumberByte(ws: seq<Word>, m: nat): Byte
    requires m / 4 < |ws|
  {
    WordByte(ws[m / 4], m % 4)
  }

  lemma NumberByteBit(ws: seq<Word>, n: nat)
    requires n / 32 < |ws|
    ensures ByteBit(NumberByte(ws, n / 8), n % 8) == HasBit(ws, n)
  {
    hide Bit, WordByte, ByteBit;
    assert n / 8 / 4 == n / 32 && 8 * (n / 8 % 4) + n % 8 == n % 32;
    WordByteBit(ws[n / 32], n / 8 % 4, n % 8);
  }

  /** The last k bytes before need spell the words, and the rest beyond need is as it was. */
  ghost predicate Spelled(before: seq<Byte>, p: seq<Byte>, ws: seq<Word>, need: nat, k: nat) {
    |p| == |before| && k <= need <= |p| && need <= 4 * |ws| && p[need..] == before[need..] &&
    forall m :: 0 <= m < k ==> p[need - 1 - m] == NumberByte(ws, m)
  }

  lemma NothingSpelled(p: seq<Byte>, ws: seq<Word>, need: nat)
    requires need <= |p| && need <= 4 * |ws|
    ensures Spelled(p, p, ws, need, 0)
  {
  }

  lemma SpelledOneMore(before: seq<Byte>, p: seq<Byte>, ws: seq<Word>, need: nat, k: nat)
    requires Spelled(before, p, ws, need, k) && k < need
    ensures k / 4 < |ws| && need - 1 - k < |p| && Spelled(before, p[need - 1 - k := NumberByte(ws, k)], ws, need, k + 1)
  {
    hide NumberByte;
  }

  lemma AllSpelled(before: seq<Byte>, p: seq<Byte>, ws: seq<Word>, need: nat)
    requires Spelled(before, p, ws, need, need)
    ensures |p| == |before| && need <= |p| && need <= 4 * |ws| && p[need..] == before[need..]
    ensures forall m :: 0 <= m < need ==> p[need - 1 - m] == NumberByte(ws, m)
  {
  }

  /** The same for one number, whether or not the string reaches that far. */
  lemma SpelledNumber(ws: seq<Word>, s: seq<Byte>, bound: nat, n: nat)
    requires IsBound(SetOf(ws), bound) && bound <= 32 * |ws| && |s| == (bound + 7) / 8
    requires n / 8 < |s| ==> n / 8 / 4 < |ws| && s[|s| - 1 - n / 8] == NumberByte(ws, n / 8)
    ensures n in StringSet(s) <==> n in SetOf(ws)
  {
    hide Bit, ByteBit, NumberByte;
    if n / 8 < |s| {
      NumberByteBit(ws, n);
    }
  }

  /** A string that spells the words from its last byte backwards denotes the same set. */
  lemma SpelledString(ws: seq<Word>, s: seq<Byte>, bound: nat)
    requires IsBound(SetOf(ws), bound) && bound <= 32 * |ws| && |s| == (bound + 7) / 8
    requires forall m :: 0 <= m < |s| ==> s[|s| - 1 - m] == NumberByte(ws, m)
    ensures StringSet(s) == SetOf(ws) && Canonical(s)
  {
    hide Bit, ByteBit, NumberByte, SetOf, StringSet;
    forall n: nat ensures n in StringSet(s) <==> n in SetOf(ws) {
      SpelledNumber(ws, s, bound, n);
    }
    if s != [] && s[0] == 0 {
      TopByteNotZero(s, bound);
    }
  }

  lemma TopByteNotZero(s: seq<Byte>, bound: nat)
    requires s != [] && IsBound(StringSet(s), bound) && |s| == (bound + 7) / 8
    ensures s[0] != 0
  {
    hide ByteBit;
    assert StringHas(s, bound - 1);
    ZeroByteBit((bound - 1) % 8);
  }

  /** The words hold the first `done` bytes of a string, each at its place from the string's last byte up. */
  ghost predicate Filled(ws: seq<Word>, s: seq<Byte>, done: nat)
    requires done <= |s|
  {
    forall n: nat :: HasBit(ws, n) <==> (|s| - done <= n / 8 < |s| && ByteBit(s[|s| - 1 - n / 8], n % 8))
  }

  lemma FilledNone(ws: seq<Word>, s: seq<Byte>)
    requires forall i :: 0 <= i < |ws| ==> ws[i] == 0
    ensures Filled(ws, s, 0)
  {
    hide Bit, ByteBit;
    forall n: nat ensures !HasBit(ws, n) { if n / 32 < |ws| { ZeroBit(n % 32); } }
  }

  /** Byte i of the string, stored where it belongs. */
  lemma FilledOneMore(ws: seq<Word>, vs: seq<Word>, s: seq<Byte>, i: nat)
    requires i < |s| && Filled(ws, s, i) && |vs| == |ws|
    requires var m := |s| - 1 - i; m / 4 < |ws| && vs == ws[m / 4 := WithByte(ws[m / 4], s[i], m % 4)]
    ensures Filled(vs, s, i + 1)
  {
    hide Bit, ByteBit, WithByte;
    var m := |s| - 1 - i;
    forall n: nat
      ensures HasBit(vs, n) <==> (m <= n / 8 < |s| && ByteBit(s[|s| - 1 - n / 8], n % 8))
    {
      assert HasBit(ws, n) <==> (m + 1 <= n / 8 < |s| && ByteBit(s[|s| - 1 - n / 8], n % 8));
      assert n / 8 / 4 == n / 32 && 8 * (n / 8 % 4) + n % 8 == n % 32;
      if n / 32 == m / 4 {
        WithByteBit(ws[m / 4], s[i], m % 4, n % 32);
        assert 8 * (m % 4) <= n % 32 < 8 * (m % 4) + 8 <==> n / 8 == m;
      }
    }
  }

  lemma FilledAll(ws: seq<Word>, s: seq<Byte>)
    requires Filled(ws, s, |s|)
    ensures SetOf(ws) == StringSet(s)
  {
    hide Bit, ByteBit;
    forall n: nat ensures n in SetOf(ws) <==> n in StringSet(s) {
      assert HasBit(ws, n) <==> StringHas(s, n);
    }
  }

  class Bitmap {
    var d: array<Word>
    var top: nat

    /** Every word above top is zero, so raising top never brings old bits back. */
    ghost predicate Valid()
      reads this, d
    {
      top < d.Length &&
      (forall i :: top < i < d.Length ==> d[i] == 0) &&
      (forall n :: n in Elements() ==> n <= BITMAP_MAX)
    }

    ghost function Elements(): set<nat>
      reads this, d
    {
      SetOf(d[..])
    }

    constructor ()
      ensures Valid() && Elements() == {} && fresh(d)
    {
      d := new Word[1](_ => 0);
      top := 0;
      new;
      ZeroWordsAreEmpty(d[..]);
    }

    method Zero()
      requires Valid()
      modifies this`top, d
      ensures Valid() && Elements() == {}
      ensures top == 0 && forall i :: 0 <= i < d.Length ==> d[i] == 0
    {
      for i := 0 to d.Length
        modifies d
        invariant forall k :: 0 <= k < i ==> d[k] == 0
      {
        d[i] := 0;
      }
      top := 0;
      ZeroWordsAreEmpty(d[..]);
    }

    method TestBit(n: nat) returns (r: bool)
      requires Valid()
      ensures r <==> n in Elements()
    {
      hide Bit;
      if n / 32 > top {
        if n / 32 < d.Length { ZeroBit(n % 32); }
        return false;
      }
      r := Bit(d[n / 32], n % 32);
    }

    /** Makes room for bit n; fails for bits beyond the limit and when memory runs out. */
    method Reserve(n: nat, alloc: bool) returns (ok: bool)
      requires Valid()
      modifies this`d
      ensures Valid() && Elements() == old(Elements()) && top == old(top)
      ensures ok ==> n <= BITMAP_MAX && n / 32 < d.Length
      ensures !ok ==> n > BITMAP_MAX || (!alloc && n / 32 >= d.Length)
      ensures d == old(d) || fresh(d)
    {
      if n > BITMAP_MAX { return false; }
      var nlen := n / 32 + 1;
      if d.Length < nlen {
        if !alloc { return false; }
        ghost var before := d[..];
        var tmp := new Word[nlen](i reads this, d => if 0 <= i < d.Length then d[i] else 0);
        ZeroPadding(before, tmp[..]);
        d := tmp;
      }
      ok := true;
    }
  
    method SetBit(n: nat, alloc: bool) returns (ok: bool)
      requires Valid()
      modifies this, d
      ensures Valid() && (d == old(d) || fresh(d))
      ensures Elements() == if ok then old(Elements()) + {n} else old(Elements())
      ensures ok ==> n <= BITMAP_MAX
      ensures n <= BITMAP_MAX && alloc ==> ok
    {
      hide Bit, Bits.WithBit;
      ok := Reserve(n, alloc);
      if !ok { return; }
      var offset := n / 32;
      if offset > top { top := offset; }
      ghost var before := d[..];
      d[offset] := WithBit(d[offset], n % 32);
      forall b | 0 <= b < 32 ensures Bit(d[offset], b) == (Bit(before[offset], b) || b == n % 32) {
        Bits.SetBit(before[offset], n % 32, b);
      }
      WordChanged(before, d[..], offset, n % 32, n);
    }

    method Retop()
      requires Valid()
      modifies this`top
      ensures Valid() && Elements() == old(Elements()) && top <= old(top)
      ensures top > 0 ==> d[top] != 0
    {
      while top > 0 && d[top] == 0
        invariant Valid() && Elements() == old(Elements()) && top <= old(top)
      {
        top := top - 1;
      }
    }

    method ClearBit(n: nat)
      requires Valid()
      modifies this`top, d
      ensures Valid() && Elements() == old(Elements()) - {n}
    {
      hide Bit, Bits.WithoutBit;
      if n > BITMAP_MAX { return; }
      var offset := n / 32;
      if offset > top {
        if offset < d.Length { ZeroBit(n % 32); }
        return;
      }
      ghost var before := d[..];
      d[offset] := WithoutBit(d[offset], n % 32);
      forall b | 0 <= b < 32 ensures Bit(d[offset], b) == (Bit(before[offset], b) && b != n % 32) {
        Bits.SetBit(before[offset], n % 32, b);
      }
      WordChanged(before, d[..], offset, n % 32, n);
      Retop();
    }

    /** The number of bits: one more than the largest element. */
    method NBits() returns (bits: nat)
      requires Valid()
      modifies this`top
      ensures Valid() && Elements() == old(Elements())
      ensures IsBound(Elements(), bits) && bits <= 32 * (top + 1)
    {
      hide Bit, ShiftedBy;
      Retop();
      if top == 0 && d[0] == 0 {
        ZeroWordsAreEmpty(d[..]);
        return 0;
      }
      var orig := d[top];
      NonZeroWordHasBit(orig);
      ghost var m :| 0 <= m < 32 && Bit(orig, m);
      var w := orig;
      bits := (top + 1) * 32;
      ghost var t := 0;
      TopBit(w);
      Unshifted(w);
      while w & 0x8000_0000 == 0
        modifies {}
        invariant 0 <= t <= 31 - m && bits == 32 * (top + 1) - t
        invariant ShiftedBy(w, orig, t)
        invariant forall k :: 32 - t <= k < 32 ==> !Bit(orig, k)
        invariant w & 0x8000_0000 != 0 <==> Bit(w, 31)
        decreases 31 - t
      {
        ShiftedTop(w, orig, t);
        ShiftMore(w, orig, t);
        w := w << 1;
        TopBit(w);
        bits := bits - 1;
        t := t + 1;
      }
      ShiftedTop(w, orig, t);
      TopWordBounds(d[..], top, 31 - t);
    }

    method NBytes() returns (n: nat)
      requires Valid()
      modifies this`top
      ensures Valid() && Elements() == old(Elements())
      ensures n == (Bound(Elements()) + 7) / 8 && n <= 4 * (top + 1)
    {
      var bits := NBits();
      BoundIsUnique(Elements(), bits, Bound(Elements()));
      n := (bits + 7) / 8;
    }

    /** The writing loop: bytes from the least significant backwards, word by word. */
    method Spell(p: array<Byte>, need: nat)
      requires top < d.Length && need <= p.Length && need <= 4 * (top + 1)
      modifies p
      ensures forall m :: 0 <= m < need ==> p[need - 1 - m] == NumberByte(d[..], m)
      ensures p[need..] == old(p[need..])
    {
      hide WordByte, Spelled;
      ghost var ws, before := d[..], p[..];
      NothingSpelled(before, ws, need);
      var i, k := 0, 0;
      while i < top + 1
        modifies p
        invariant 0 <= i <= top + 1 && k == (if 4 * i < need then 4 * i else need)
        invariant Spelled(before, p[..], ws, need, k)
      {
        var j := 0;
        while j < 4
          modifies p
          invariant 0 <= j <= 4 && k == (if 4 * i + j < need then 4 * i + j else need)
          invariant Spelled(before, p[..], ws, need, k)
        {
          if k >= need { break; }
          SpelledOneMore(before, p[..], ws, need, k);
          p[need - 1 - k] := WordByte(d[i], j);
          k := k + 1;
          j := j + 1;
        }
        i := i + 1;
      }
      AllSpelled(before, p[..], ws, need);
    }

    /** Writes the shortest big-endian string for the set, if it fits in l bytes. */
    method ToString(p: array<Byte>, l: nat) returns (ok: bool)
      requires Valid() && l <= p.Length
      modifies this`top, p
      ensures Valid() && Elements() == old(Elements())
      ensures var need := (Bound(Elements()) + 7) / 8;
        ok == (l >= need) &&
        (!ok ==> p[..] == old(p[..])) &&
        (ok ==> StringSet(p[..need]) == Elements() && Canonical(p[..need]) && p[need..] == old(p[need..]))
    {
      hide Bit, NumberByte, SetOf, StringSet, Canonical;
      var need := NBytes();
      if l < need { return false; }
      Spell(p, need);
      SpelledString(d[..], p[..need], Bound(Elements()));
      ok := true;
    }

    /** The storing loop of the parser: from the most significant byte, word by word. */
    method Fill(s: seq<Byte>)
      requires s != [] && (|s| - 1) / 4 < d.Length
      requires forall i :: 0 <= i < d.Length ==> d[i] == 0
      modifies this`top, d
      ensures top == (|s| - 1) / 4 && Filled(d[..], s, |s|)
      ensures forall i :: top < i < d.Length ==> d[i] == 0
    {
      hide Bit, ByteBit, WithByte, Filled;
      FilledNone(d[..], s);
      var l := |s|;
      var offset := (l + 3) / 4 - 1;
      var shift := (l + 3) % 4 * 8;
      top := offset;
      for i := 0 to l
        modifies d
        invariant i < l ==> offset == (l - 1 - i) / 4 && shift == 8 * ((l - 1 - i) % 4)
        invariant Filled(d[..], s, i)
        invariant forall k :: top < k < d.Length ==> d[k] == 0
      {
        ghost var before := d[..];
        d[offset] := WithByte(d[offset], s[i], shift / 8);
        FilledOneMore(before, d[..], s, i);
        if shift == 0 {
          offset := offset - 1;
          shift := 24;
        } else {
          shift := shift - 8;
        }
      }
    }

    /** Replaces the set by the one that the string spells; strings over 2^21 bytes are refused. */
    method FromString(s: seq<Byte>, alloc: bool) returns (ok: bool)
      requires Valid()
      modifies this, d
      ensures Valid() && (d == old(d) || fresh(d))
      ensures Elements() == if ok then StringSet(s) else old(Elements())
      ensures ok ==> |s| <= BITMAP_MAX / 8
      ensures |s| <= BITMAP_MAX / 8 && alloc ==> ok
    {
      hide Bit, ByteBit, WithByte, SetOf;
      var l := |s|;
      if l > BITMAP_MAX / 8 { return false; }
      ok := Reserve(l * 8, alloc);
      if !ok { return; }
      Zero();
      FilledNone(d[..], s);
      if l == 0 {
        FilledAll(d[..], s);
        return true;
      }
      Fill(s);
      FilledAll(d[..], s);
      SmallElements(s);
      Retop();
    }
  }

  lemma SmallElements(s: seq<Byte>)
    requires 8 * |s| <= BITMAP_MAX
    ensures forall n :: n in StringSet(s) ==> n <= BITMAP_MAX
  {
  }

  // ---- Round trips ----

  /** Parsing what was written succeeds exactly when no bit at or above 2^24 is set, and then
      the parser holds the same set. Bit 2^24 itself can be set, so the bound is reached. */
  method StringRoundTrip(b: Bitmap, c: Bitmap) returns (ok: bool)
    requires b.Valid() && c.Valid() && b != c && b.d != c.d
    modifies b, c, c.d
    ensures b.Valid() && c.Valid() && b.Elements() == old(b.Elements())
    ensures ok <==> forall n :: n in b.Elements() ==> n < BITMAP_MAX
    ensures ok ==> c.Elements() == b.Elements()
  {
    var need := b.NBytes();
    var p := new Byte[need];
    var written := b.ToString(p, need);
    assert p[..need] == p[..];
    ok := c.FromString(p[..], true);
    ShortIff(b.Elements());
  }

  lemma ShortIff(s: set<nat>)
    ensures (Bound(s) + 7) / 8 <= BITMAP_MAX / 8 <==> forall n :: n in s ==> n < BITMAP_MAX
  {
    var r := Bound(s);
    if r > BITMAP_MAX { assert r - 1 in s; }
  }

  /** Writing what was parsed gives the string without its leading zero bytes. */
  method ParseRoundTrip(b: Bitmap, s: seq<Byte>) returns (ok: bool, t: seq<Byte>)
    requires b.Valid()
    modifies b, b.d
    ensures b.Valid()
    ensures ok <==> |s| <= BITMAP_MAX / 8
    ensures ok ==> t == Strip(s)
  {
    hide StringSet, SetOf, Strip, Canonical, Bound;
    t := [];
    ok := b.FromString(s, true);
    if !ok { return; }
    var need := b.NBytes();
    var p := new Byte[need];
    ok := b.ToString(p, need);
    t := p[..];
    assert p[..need] == t;
    StripKeepsSet(s);
    CanonicalIsUnique(t, Strip(s));
  }

  /** The limit is tight: bit 2^24 can be set, and then the written string cannot be parsed. */
  method TightLimit(b: Bitmap, c: Bitmap) returns (ok: bool)
    requires b.Valid() && c.Valid() && b != c && b.d != c.d
    modifies b, b.d, c, c.d
    ensures b.Valid() && BITMAP_MAX in b.Elements() && !ok
  {
    var stored := b.SetBit(BITMAP_MAX, true);
    ok := StringRoundTrip(b, c);
  }
}
