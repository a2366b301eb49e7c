/** CIDR matching (addrmatch.c): netmasks built word by word, address comparison, and lists that
    mix CIDR networks, wildcards and negation. Section 3.1 of RFC 4632 gives the meaning of a prefix. */
module AddrMatch {
  import opened Bits
  import opened Wrappers

  datatype Family = Inet | Inet6 | Unknown

  /** An address as four words in network order; IPv4 uses the first. */
  datatype RawAddr = Addr(af: Family, words: seq<Word>, scope: Word)
  type Addr = a: RawAddr | |a.words| == 4 witness Addr(Inet, [0, 0, 0, 0], 0)

  function Width(af: Family): nat {
    match af case Inet => 32 case Inet6 => 128 case Unknown => 0
  }

  predicate MaskValid(af: Family, l: nat) { af != Unknown && l <= Width(af) }

  /** Bit q of a word, counted from the most significant. */
  function HighBit(w: Word, q: nat): bool
    requires q < 32
  {
    Bit(w, 31 - q)
  }

  /** Bit p of an address, counted from the first bit of its first byte. */
  function AddrBit(a: Addr, p: nat): bool
    requires p < 128
  {
    HighBit(a.words[p / 32], p % 32)
  }

  // ---- What matching means ----

  /** The first l bits agree. */
  ghost predicate SamePrefix(a: Addr, b: Addr, l: nat) {
    forall p :: 0 <= p < l && p < 128 ==> AddrBit(a, p) == AddrBit(b, p)
  }

  /** Every bit from l to the end of the address is zero. */
  ghost predicate ZeroFrom(a: Addr, l: nat) {
    forall p :: l <= p < Width(a.af) ==> !AddrBit(a, p)
  }

  ghost predicate InNetwork(host: Addr, net: Addr, l: nat) {
    host.af == net.af && MaskValid(host.af, l) &&
    (host.af == Inet6 ==> host.scope == net.scope) &&
    SamePrefix(host, net, l) && ZeroFrom(net, l)
  }

  // ---- Masks, one word at a time ----

  /** The mask word with its first l bits set. */
  function MaskWord(l: nat): Word
    requires l <= 32
  {
    if l == 0 then 0 else HighOnes(l)
  }

  /** How much of a prefix of length l lies in word i. */
  function Share(l: nat, i: nat): (s: nat)
    ensures s <= 32
  {
    if l <= 32 * i then 0 else if l >= 32 * i + 32 then 32 else l - 32 * i
  }

  lemma MaskWordBit(l: nat, q: nat)
    requires l <= 32 && q < 32
    ensures HighBit(MaskWord(l), q) <==> q < l
  {
    if l == 0 { ZeroBit(31 - q); } else { HighOnesBit(l, 31 - q); }
  }

  /** n has h's first l bits and then zeros. */
  ghost predicate WordMatches(h: Word, n: Word, l: nat)
    requires l <= 32
  {
    forall q :: 0 <= q < 32 ==> HighBit(n, q) == (q < l && HighBit(h, q))
  }

  lemma MaskedBit(h: Word, l: nat, q: nat)
    requires l <= 32 && q < 32
    ensures HighBit(And(h, MaskWord(l)), q) == (q < l && HighBit(h, q))
  {
    hide Bit, MaskWord;
    MaskWordBit(l, q);
    AndBit(h, MaskWord(l), 31 - q);
  }

  lemma SameHighBits(a: Word, b: Word)
    requires forall q :: 0 <= q < 32 ==> HighBit(a, q) == HighBit(b, q)
    ensures a == b
  {
    hide Bit;
    forall k | 0 <= k < 32 ensures Bit(a, k) == Bit(b, k) {
      assert HighBit(a, 31 - k) == HighBit(b, 31 - k);
    }
    SameBits(a, b);
  }

  /** Masking word h to l bits gives n exactly when n matches. */
  lemma MaskedWord(h: Word, n: Word, l: nat)
    requires l <= 32
    ensures And(h, MaskWord(l)) == n <==> WordMatches(h, n, l)
  {
    hide HighBit, MaskWord, And;
    forall q | 0 <= q < 32 ensures HighBit(And(h, MaskWord(l)), q) == (q < l && HighBit(h, q)) {
      MaskedBit(h, l, q);
    }
    if WordMatches(h, n, l) { SameHighBits(And(h, MaskWord(l)), n); }
  }

  /** The same statement for the first `count` words of an address. */
  ghost predicate WordsMatch(h: Addr, n: Addr, l: nat, count: nat)
    requires count <= 4
  {
    forall i :: 0 <= i < count ==> WordMatches(h.words[i], n.words[i], Share(l, i))
  }

  lemma WordsMatchIff(h: Addr, n: Addr, l: nat, count: nat)
    requires count <= 4 && l <= 32 * count && Width(n.af) == 32 * count
    ensures WordsMatch(h, n, l, count) <==> SamePrefix(h, n, l) && ZeroFrom(n, l)
  {
    hide HighBit;
    if WordsMatch(h, n, l, count) {
      forall p | 0 <= p < 32 * count ensures AddrBit(n, p) == (p < l && AddrBit(h, p)) {
        var i, q := p / 32, p % 32;
        assert WordMatches(h.words[i], n.words[i], Share(l, i));
        assert HighBit(n.words[i], q) == (q < Share(l, i) && HighBit(h.words[i], q));
      }
    }
    if SamePrefix(h, n, l) && ZeroFrom(n, l) {
      forall i, q | 0 <= i < count && 0 <= q < 32
        ensures HighBit(n.words[i], q) == (q < Share(l, i) && HighBit(h.words[i], q))
      {
        var p := 32 * i + q;
        assert p / 32 == i && p % 32 == q;
        assert AddrBit(n, p) == HighBit(n.words[i], q) && AddrBit(h, p) == HighBit(h.words[i], q);
      }
    }
  }

  // ---- The routines ----

  ghost predicate IsNetmask(n: Addr, af: Family, l: nat) {
    n.af == af && n.scope == 0 &&
    forall i :: 0 <= i < 4 ==> n.words[i] == MaskWord(Share(l, i))
  }

  method AddrNetmask(af: Family, masklen: nat) returns (r: Option<Addr>)
    ensures r.Some? <==> MaskValid(af, masklen)
    ensures r.Some? ==> IsNetmask(r.value, af, masklen)
  {
    hide HighOnes;
    if !MaskValid(af, masklen) { return None; }
    var l := masklen;
    var words: seq<Word> := [0, 0, 0, 0];
    if af == Inet {
      if l == 0 { return Some(Addr(Inet, words, 0)); }
      words := words[0 := HighOnes(l)];
      return Some(Addr(Inet, words, 0));
    }
    var i := 0;
    while i < 4 && l >= 32
      invariant 0 <= i <= 4 && |words| == 4 && l == masklen - 32 * i
      invariant forall k :: 0 <= k < i ==> words[k] == 0xffff_ffff
      invariant forall k :: i <= k < 4 ==> words[k] == 0
    {
      words := words[i := 0xffff_ffff];
      i := i + 1;
      l := l - 32;
    }
    if i < 4 && l != 0 {
      words := words[i := HighOnes(l)];
    }
    FullMask();
    r := Some(Addr(Inet6, words, 0));
  }

  lemma FullMask()
    ensures MaskWord(32) == 0xffff_ffff
  {
  }

  method AddrAnd(a: Addr, b: Addr) returns (dst: Option<Addr>)
    ensures dst.Some? <==> a.af == b.af && a.af != Unknown
    ensures dst.Some? ==> var d := dst.value;
      d.af == a.af && d.scope == a.scope && d.words[0] == And(a.words[0], b.words[0]) &&
      (a.af == Inet6 ==> forall i :: 0 <= i < 4 ==> d.words[i] == And(a.words[i], b.words[i]))
  {
    hide And;
    if a.af != b.af { return None; }
    var words := a.words;
    match a.af {
      case Inet => words := words[0 := And(words[0], b.words[0])];
      case Inet6 =>
        for i := 0 to 4
          invariant |words| == 4
          invariant forall k :: 0 <= k < 4 ==> words[k] == if k < i then And(a.words[k], b.words[k]) else a.words[k]
        {
          words := words[i := And(words[i], b.words[i])];
        }
      case Unknown => return None;
    }
    dst := Some(Addr(a.af, words, a.scope));
  }

  /** Byte j of a word in network order. */
  function NetworkByte(w: Word, j: nat): Word
    requires j < 4
  {
    if j == 0 then w >> 24 else if j == 1 then (w >> 16) & 0xff else if j == 2 then (w >> 8) & 0xff else w & 0xff
  }

  function AddrByte(a: Addr, i: nat): Word
    requires i < 16
  {
    NetworkByte(a.words[i / 4], i % 4)
  }

  lemma SameBytes(v: Word, w: Word)
    ensures v == w <==> NetworkByte(v, 0) == NetworkByte(w, 0) && NetworkByte(v, 1) == NetworkByte(w, 1) &&
                        NetworkByte(v, 2) == NetworkByte(w, 2) && NetworkByte(v, 3) == NetworkByte(w, 3)
  {
  }

  /** How a comes out against b, with the family and the scope settled elsewhere. */
  function Sign(x: Word, y: Word): int { if x > y then 1 else if x == y then 0 else -1 }

  /** r is the sign of a against b at the first byte where they differ, or 0. */
  ghost predicate Lexicographic(a: Addr, b: Addr, r: int) {
    if a.words == b.words then r == 0
    else r != 0 && exists i :: 0 <= i < 16 && FirstDifference(a, b, i) && r == Sign(AddrByte(a, i), AddrByte(b, i))
  }

  ghost predicate FirstDifference(a: Addr, b: Addr, i: nat)
    requires i < 16
  {
    AddrByte(a, i) != AddrByte(b, i) && forall k :: 0 <= k < i ==> AddrByte(a, k) == AddrByte(b, k)
  }

  method CmpBytes(a: Addr, b: Addr) returns (r: int)
    ensures Lexicographic(a, b, r)
  {
    hide NetworkByte, Sign;
    for i := 0 to 16
      invariant forall k :: 0 <= k < i ==> AddrByte(a, k) == AddrByte(b, k)
    {
      if AddrByte(a, i) != AddrByte(b, i) {
        assert FirstDifference(a, b, i);
        SignOfDifferent(AddrByte(a, i), AddrByte(b, i));
        return Sign(AddrByte(a, i), AddrByte(b, i));
      }
    }
    AllBytesSame(a, b);
    r := 0;
  }

  lemma SignOfDifferent(x: Word, y: Word)
    ensures Sign(x, y) == 0 <==> x == y
  {
  }

  ghost predicate Same(a: Addr, b: Addr) {
    a.af == b.af && match a.af
      case Inet => a.words[0] == b.words[0]
      case Inet6 => a.words == b.words && a.scope == b.scope
      case Unknown => false
  }

  method AddrCmp(a: Addr, b: Addr) returns (r: int)
    ensures r == 0 <==> Same(a, b)
    ensures a.af != b.af ==> r == if a.af == Inet6 then 1 else -1
    ensures a.af == b.af == Inet ==> r == Sign(a.words[0], b.words[0])
    ensures a.af == b.af == Inet6 ==>
              if a.words == b.words then r == Sign(a.scope, b.scope) else Lexicographic(a, b, r)
  {
    hide Sign;
    if a.af != b.af { return if a.af == Inet6 then 1 else -1; }
    match a.af {
      case Inet =>
        SignOfDifferent(a.words[0], b.words[0]);
        r := Sign(a.words[0], b.words[0]);
      case Inet6 =>
        r := CmpBytes(a, b);
        if r == 0 {
          SignOfDifferent(a.scope, b.scope);
          r := Sign(a.scope, b.scope);
        }
      case Unknown => return -1;
    }
  }

  lemma AllBytesSame(a: Addr, b: Addr)
    requires forall k :: 0 <= k < 16 ==> AddrByte(a, k) == AddrByte(b, k)
    ensures a.words == b.words
  {
    hide NetworkByte;
    forall i | 0 <= i < 4 ensures a.words[i] == b.words[i] {
      forall j | 0 <= j < 4 ensures NetworkByte(a.words[i], j) == NetworkByte(b.words[i], j) {
        assert AddrByte(a, 4 * i + j) == AddrByte(b, 4 * i + j);
      }
      SameBytes(a.words[i], b.words[i]);
    }
  }

  /** Zero exactly for the hosts of the network. */
  method AddrNetmatch(host: Addr, net: Addr, masklen: nat) returns (r: int)
    ensures r == 0 <==> InNetwork(host, net, masklen)
    ensures r == 0 <==>
      host.af == net.af && ((host.af == Inet && masklen <= 32) || (host.af == Inet6 && masklen <= 128)) &&
      (host.af == Inet6 ==> host.scope == net.scope) &&
      forall p :: 0 <= p < (if host.af == Inet then 32 else 128) ==>
        AddrBit(net, p) == (p < masklen && AddrBit(host, p))
  {
    hide AddrBit;
    if host.af != net.af { return -1; }
    var mask := AddrNetmask(host.af, masklen);
    if mask.None? { return -1; }
    var masked := AddrAnd(host, mask.value);
    if masked.None? { return -1; }
    r := AddrCmp(masked.value, net);
    MaskedIsNetIff(host, mask.value, masked.value, net, masklen);
  }

  lemma MaskedIsNetIff(host: Addr, mask: Addr, masked: Addr, net: Addr, l: nat)
    requires host.af == net.af && MaskValid(host.af, l) && IsNetmask(mask, host.af, l)
    requires masked.af == host.af && masked.scope == host.scope && masked.words[0] == And(host.words[0], mask.words[0])
    requires host.af == Inet6 ==> forall i :: 0 <= i < 4 ==> masked.words[i] == And(host.words[i], mask.words[i])
    ensures Same(masked, net) <==> InNetwork(host, net, l)
  {
    hide WordMatches, SamePrefix, ZeroFrom, MaskWord, And, Not;
    var count := Width(host.af) / 32;
    WordsMatchIff(host, net, l, count);
    forall i | 0 <= i < count
      ensures masked.words[i] == net.words[i] <==> WordMatches(host.words[i], net.words[i], Share(l, i))
    {
      MaskedWord(host.words[i], net.words[i], Share(l, i));
    }
    if host.af == Inet6 {
      assert masked.words == net.words <==> forall i :: 0 <= i < 4 ==> masked.words[i] == net.words[i];
    } else {
      assert WordsMatch(host, net, l, 1) <==> WordMatches(host.words[0], net.words[0], Share(l, 0));
    }
  }

  /** The mask of addr_hostmask has exactly the bits that a netmask lacks. */
  method AddrHostIsAll0s(a: Addr, masklen: nat) returns (r: int)
    ensures r == 0 <==> MaskValid(a.af, masklen) && ZeroFrom(a, masklen)
    ensures r == 0 || r == -1
  {
    hide And, Not, ZeroFrom, MaskWord, Width, Share;
    var mask := AddrNetmask(a.af, masklen);
    if mask.None? { return -1; }
    var m := mask.value;
    var hostmask := Addr(m.af, [Not(m.words[0]), Not(m.words[1]), Not(m.words[2]), Not(m.words[3])], m.scope);
    var rest := AddrAnd(a, hostmask);
    if rest.None? { return -1; }
    var d := rest.value;
    var zero := if a.af == Inet then d.words[0] == 0
                else d.words[0] == 0 && d.words[1] == 0 && d.words[2] == 0 && d.words[3] == 0;
    HostPartZeroIff(a, m, d, masklen);
    r := if zero then 0 else -1;
  }

  lemma MaskedOutWord(w: Word, m: Word)
    ensures And(w, Not(m)) == 0 <==> And(w, m) == w
  {
  }

  lemma HostPartZeroIff(a: Addr, m: Addr, d: Addr, l: nat)
    requires MaskValid(a.af, l) && IsNetmask(m, a.af, l)
    requires d.words[0] == And(a.words[0], Not(m.words[0]))
    requires a.af == Inet6 ==> forall i :: 0 <= i < 4 ==> d.words[i] == And(a.words[i], Not(m.words[i]))
    ensures (forall i :: 0 <= i < Width(a.af) / 32 ==> d.words[i] == 0) <==> ZeroFrom(a, l)
    ensures a.af == Inet ==> (d.words[0] == 0 <==> ZeroFrom(a, l))
    ensures a.af == Inet6 ==> (d.words[0] == 0 && d.words[1] == 0 && d.words[2] == 0 && d.words[3] == 0 <==> ZeroFrom(a, l))
  {
    hide WordMatches, SamePrefix, ZeroFrom, MaskWord, And, Not;
    var count := Width(a.af) / 32;
    WordsMatchIff(a, a, l, count);
    assert SamePrefix(a, a, l) by { PrefixReflexive(a, l); }
    forall i | 0 <= i < count
      ensures d.words[i] == 0 <==> WordMatches(a.words[i], a.words[i], Share(l, i))
    {
      MaskedOutWord(a.words[i], m.words[i]);
      MaskedWord(a.words[i], a.words[i], Share(l, i));
    }
  }

  lemma PrefixReflexive(a: Addr, l: nat)
    ensures SamePrefix(a, a, l)
  {
  }
}
