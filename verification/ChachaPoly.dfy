/** The packet cipher chacha20-poly1305@openssh.com (cipher-chachapoly.c): a header stream, a
    payload stream and a one-time MAC key, all keyed by the packet sequence number. */
module ChachaPoly {
  import opened ChaCha
  import Seqs

  /** The authenticator, as a function of message and one-time key. */
  type Mac = (seq<Byte>, seq<Byte>) -> seq<Byte>

  const TAGLEN: nat := 16
  const UINT_LIMIT: nat := 0x1_0000_0000

  /** The twelve fixed words of each of the two cipher contexts. */
  datatype RawKeys = Keys(main: seq<Word>, header: seq<Word>)
  type Keys = k: RawKeys | |k.main| == 12 && |k.header| == 12
    witness Keys([0, 0, 0, 0, 0, 0, 0, 0, 0, 0, 0, 0], [0, 0, 0, 0, 0, 0, 0, 0, 0, 0, 0, 0])

  /** The nonce: the sequence number as eight big-endian bytes. */
  function SeqBuf(n: bv32): (s: seq<Byte>)
    ensures |s| == 8
  {
    [0, 0, 0, 0, ((n >> 24) & 0xff) as Byte, ((n >> 16) & 0xff) as Byte, ((n >> 8) & 0xff) as Byte, (n & 0xff) as Byte]
  }

  const ZERO8: seq<Byte> := [0, 0, 0, 0, 0, 0, 0, 0]
  const ONE8: seq<Byte> := [1, 0, 0, 0, 0, 0, 0, 0]

  function Zeros(n: nat): (s: seq<Byte>)
    ensures |s| == n
  {
    seq(n, _ => 0)
  }

  function MacStart(k: Keys, n: bv32): State { Start(k.main, SeqBuf(n), ZERO8) }
  function HeaderStart(k: Keys, n: bv32): State { Start(k.header, SeqBuf(n), ZERO8) }
  function PayloadStart(k: Keys, n: bv32): State { Start(k.main, SeqBuf(n), ONE8) }

  function PolyKey(k: Keys, n: bv32): seq<Byte> { Crypt(MacStart(k, n), Zeros(32)) }

  // ---- Sealed packets ----

  /** The two streams over a packet whose first `aadlen` bytes are its header. */
  function Body(k: Keys, n: bv32, text: seq<Byte>, aadlen: nat): (b: seq<Byte>)
    requires aadlen <= |text|
    ensures |b| == |text|
  {
    Crypt(HeaderStart(k, n), text[..aadlen]) + Crypt(PayloadStart(k, n), text[aadlen..])
  }

  /** The tag of an encrypted body; the length handed to the authenticator is a 32-bit number. */
  function Tag(k: Keys, n: bv32, body: seq<Byte>, mac: Mac): seq<Byte> {
    mac(body[..|body| % UINT_LIMIT], PolyKey(k, n))
  }

  function Seal(k: Keys, n: bv32, text: seq<Byte>, aadlen: nat, mac: Mac): seq<Byte>
    requires aadlen <= |text|
  {
    Body(k, n, text, aadlen) + Tag(k, n, Body(k, n, text, aadlen), mac)
  }

  datatype Opened = Refused | Text(text: seq<Byte>)

  function Open(k: Keys, n: bv32, packet: seq<Byte>, aadlen: nat, mac: Mac): Opened
    requires aadlen + TAGLEN <= |packet|
  {
    var body := packet[..|packet| - TAGLEN];
    if Tag(k, n, body, mac) != packet[|packet| - TAGLEN..] then Refused
    else Text(Body(k, n, body, aadlen))
  }

  lemma BodyTwice(k: Keys, n: bv32, text: seq<Byte>, aadlen: nat)
    requires aadlen <= |text|
    ensures Body(k, n, Body(k, n, text, aadlen), aadlen) == text
  {
    hide Crypt, HeaderStart, PayloadStart;
    var h, p := HeaderStart(k, n), PayloadStart(k, n);
    Seqs.Drop(Crypt(h, text[..aadlen]), Crypt(p, text[aadlen..]));
    CryptTwice(h, text[..aadlen]);
    CryptTwice(p, text[aadlen..]);
    Seqs.Split(text, aadlen);
  }

  ghost predicate TagsHaveLength(mac: Mac) { forall m, k :: |mac(m, k)| == TAGLEN }

  /** Opening is exactly the inverse of sealing: a packet opens to a text if and only if it is
      the sealed form of that text. */
  lemma OpensIff(k: Keys, n: bv32, packet: seq<Byte>, text: seq<Byte>, aadlen: nat, mac: Mac)
    requires TagsHaveLength(mac) && aadlen <= |text| && aadlen + TAGLEN <= |packet|
    ensures Open(k, n, packet, aadlen, mac) == Text(text) <==> packet == Seal(k, n, text, aadlen, mac)
  {
    hide Body, Tag;
    var cut := |packet| - TAGLEN;
    var body := packet[..cut];
    Seqs.Split(packet, cut);
    BodyTwice(k, n, body, aadlen);
    BodyTwice(k, n, text, aadlen);
    var sealed := Body(k, n, text, aadlen);
    TagLength(k, n, sealed, mac);
    Seqs.Drop(sealed, Tag(k, n, sealed, mac));
  }

  lemma TagLength(k: Keys, n: bv32, body: seq<Byte>, mac: Mac)
    requires TagsHaveLength(mac)
    ensures |Tag(k, n, body, mac)| == TAGLEN
  {
  }

  /** The big-endian length at the start of a header. */
  function PeekU32(s: seq<Byte>): bv32
    requires |s| >= 4
  {
    ((s[0] as bv32) << 24) | ((s[1] as bv32) << 16) | ((s[2] as bv32) << 8) | (s[3] as bv32)
  }

  function Length(k: Keys, n: bv32, cp: seq<Byte>): bv32
    requires |cp| >= 4
  {
    PeekU32(Crypt(HeaderStart(k, n), cp[..4]))
  }

  /** The length read from the front of a sealed packet is the length in its plain header. */
  lemma LengthOfSealed(k: Keys, n: bv32, text: seq<Byte>, aadlen: nat, mac: Mac)
    requires 4 <= aadlen <= |text|
    ensures |Seal(k, n, text, aadlen, mac)| >= 4
    ensures Length(k, n, Seal(k, n, text, aadlen, mac)) == PeekU32(text)
  {
    hide Crypt, HeaderStart, PayloadStart, Tag, PeekU32;
    var h := HeaderStart(k, n);
    var sealed := Seal(k, n, text, aadlen, mac);
    assert sealed[..4] == Crypt(h, text[..aadlen])[..4];
    CryptPrefix(h, text[..aadlen], 4);
    assert text[..aadlen][..4] == text[..4];
    CryptTwice(h, text[..4]);
    PeekPrefix(text);
  }

  lemma PeekPrefix(s: seq<Byte>)
    requires |s| >= 4
    ensures PeekU32(s[..4]) == PeekU32(s)
  {
  }

  /** Byte order: the most significant byte comes first, in the length as in the sequence number of the nonce. */
  lemma BigEndian(s: seq<Byte>)
    requires |s| >= 4
    ensures var w := PeekU32(s);
      LittleByte(w, 3) == s[0] && LittleByte(w, 2) == s[1] && LittleByte(w, 1) == s[2] && LittleByte(w, 0) == s[3]
  {
  }

  lemma NonceIsBigEndian(n: bv32)
    ensures SeqBuf(n)[..4] == [0, 0, 0, 0] && PeekU32(SeqBuf(n)[4..]) == n
  {
  }

  // ---- A sealed packet, byte by byte ----

  lemma XorZero(b: Byte)
    ensures XorByte(0, b) == b
  {
  }

  /** The authenticator key is the front of block zero of the first key's stream. */
  lemma PolyKeyBytes(k: Keys, n: bv32, i: nat)
    requires i < 32
    ensures |PolyKey(k, n)| == 32 && PolyKey(k, n)[i] == KeyByte(Start(k.main, SeqBuf(n), [0, 0, 0, 0, 0, 0, 0, 0]), i)
  {
    hide XorByte, KeyByte, SeqBuf, LittleAt;
    assert i / 64 == 0 && i % 64 == i;
    XorZero(KeyByte(MacStart(k, n), i));
  }

  lemma CryptByte(j: State, m: seq<Byte>, i: nat)
    requires i < |m|
    ensures Crypt(j, m)[i] == XorByte(m[i], KeyByte(Advance(j, i / 64), i % 64))
  {
    hide XorByte, KeyByte, Advance;
  }

  /** Byte i of a header is hidden by the second key's stream from block zero, byte i of a payload by the first key's from
      block one, and the tag behind them is made from all of both. */
  lemma SealedBytes(k: Keys, n: bv32, text: seq<Byte>, aadlen: nat, mac: Mac, i: nat)
    requires aadlen <= |text| < 0x1_0000_0000 && i < |text|
    ensures var p := Seal(k, n, text, aadlen, mac);
      |p| >= |text| && p[|text|..] == mac(p[..|text|], PolyKey(k, n)) &&
      p[i] == XorByte(text[i],
        if i < aadlen then KeyByte(Advance(Start(k.header, SeqBuf(n), [0, 0, 0, 0, 0, 0, 0, 0]), i / 64), i % 64)
        else KeyByte(Advance(Start(k.main, SeqBuf(n), [1, 0, 0, 0, 0, 0, 0, 0]), (i - aadlen) / 64), (i - aadlen) % 64))
  {
    hide Crypt, XorByte, KeyByte, Advance, SeqBuf, LittleAt, PolyKey;
    var body := Body(k, n, text, aadlen);
    Seqs.Drop(body, Tag(k, n, body, mac));
    Seqs.Whole(body);
    if i < aadlen {
      CryptByte(HeaderStart(k, n), text[..aadlen], i);
    } else {
      CryptByte(PayloadStart(k, n), text[aadlen..], i - aadlen);
    }
  }

  // ---- The MAC key block is never used for payload ----

  lemma CounterZero(k: Keys, n: bv32)
    ensures Counter(MacStart(k, n)) == Low64(0)
  {
  }

  /** The payload stream is the MAC key's stream, one block later. */
  lemma PayloadFollowsMacKey(k: Keys, n: bv32)
    ensures PayloadStart(k, n) == Next(MacStart(k, n))
  {
    hide SeqBuf;
    OneAfterZero();
    assert Next(MacStart(k, n)) == PayloadStart(k, n);
  }

  lemma OneAfterZero()
    ensures LittleAt(ZERO8, 0) == 0 && LittleAt(ZERO8, 4) == 0 && LittleAt(ONE8, 0) == 1 && LittleAt(ONE8, 4) == 0
    ensures PlusOne(0) == 1
  {
  }

  lemma MacKeyBlockNotReused(k: Keys, n: bv32, block: nat)
    requires block + 1 < Pow2(64)
    ensures Counter(Advance(PayloadStart(k, n), block)) != Counter(MacStart(k, n))
  {
    hide Counter, Low64, Pow2, MacStart, PayloadStart, Next;
    PayloadFollowsMacKey(k, n);
    CounterZero(k, n);
    var s := MacStart(k, n);
    AdvanceNone(s);
    AdvanceOne(s, 0);
    AdvanceAdds(s, 1, block);
    BlocksAreDistinct(s, 0, 0, 1 + block);
  }

  // ---- The routines ----

  const SSH_ERR_INVALID_ARGUMENT: int := -10
  const SSH_ERR_MAC_INVALID: int := -30
  const SSH_ERR_MESSAGE_INCOMPLETE: int := -3

  class Context {
    const main: array<Word>
    const header: array<Word>

    ghost predicate Valid()
    {
      main.Length == 16 && header.Length == 16 && main != header
    }

    ghost function Fixed(): Keys
      requires Valid()
      reads main, header
    {
      Keys(main[..12], header[..12])
    }

    constructor ()
      ensures Valid() && fresh(main) && fresh(header)
    {
      main := new Word[16](_ => 0);
      header := new Word[16](_ => 0);
    }

    /** Two 256-bit keys: the first for payload and MAC, the second for headers. */
    method Init(key: seq<Byte>) returns (r: int)
      requires Valid()
      modifies main, header
      ensures r == if |key| == 64 then 0 else SSH_ERR_INVALID_ARGUMENT
      ensures r == 0 ==> Fixed() == Keys(KeyWords(key[..32], 256), KeyWords(key[32..], 256))
      ensures r != 0 ==> Fixed() == old(Fixed())
    {
      hide KeyWords;
      if |key| != 64 { return SSH_ERR_INVALID_ARGUMENT; }
      KeySetup(main, key[..32], 256);
      KeySetup(header, key[32..], 256);
      r := 0;
    }

    /** The one-time authenticator key of a packet. */
    method MacKey(seqnr: bv32) returns (key: array<Byte>)
      requires Valid()
      modifies main
      ensures fresh(key) && key[..] == PolyKey(Fixed(), seqnr) && key.Length == 32 && Fixed() == old(Fixed())
    {
      hide Crypt, SeqBuf, Advance;
      key := new Byte[32](_ => 0);
      assert key[0..32] == Zeros(32);
      IvSetup(main, SeqBuf(seqnr), ZERO8);
      ghost var start: State := main[..];
      EncryptBytes(main, key, 0, key, 0, 32);
      assert key[0..32] == key[..];
      FixedWords(start, 1, main[..]);
      assert start[..12] == old(main[..12]);
    }

    /** Both streams, from src to dest or in place. */
    method CryptBody(seqnr: bv32, dest: array<Byte>, src: array<Byte>, len: nat, aadlen: nat)
      requires Valid() && aadlen + len <= src.Length && aadlen + len <= dest.Length
      modifies main, header, dest
      ensures Fixed() == old(Fixed())
      ensures dest[..aadlen + len] == Body(Fixed(), seqnr, old(src[..aadlen + len]), aadlen)
      ensures dest[aadlen + len..] == old(dest[aadlen + len..])
    {
      hide Crypt, SeqBuf, Advance;
      ghost var keys := Fixed();
      ghost var text := src[..aadlen + len];
      assert text[..aadlen] == src[0..aadlen];
      assert text[aadlen..] == src[aadlen..aadlen + len];
      ghost var tail := dest[aadlen + len..];
      if aadlen > 0 {
        IvSetup(header, SeqBuf(seqnr), ZERO8);
        ghost var hs: State := header[..];
        EncryptBytes(header, src, 0, dest, 0, aadlen);
        FixedWords(hs, (aadlen + 63) / 64, header[..]);
      } else {
        NothingYet(HeaderStart(keys, seqnr));
      }
      ghost var head := dest[..aadlen];
      assert head == Crypt(HeaderStart(keys, seqnr), text[..aadlen]) by { assert dest[0..aadlen] == head; }
      assert src[aadlen..aadlen + len] == text[aadlen..] by {
        if src == dest { assert src[aadlen..aadlen + len] == dest[aadlen..][..len]; }
      }
      assert dest[aadlen + len..] == tail by { assert dest[aadlen + len..] == dest[aadlen..][len..]; }
      IvSetup(main, SeqBuf(seqnr), ONE8);
      ghost var ms: State := main[..];
      EncryptBytes(main, src, aadlen, dest, aadlen, len);
      FixedWords(ms, (len + 63) / 64, main[..]);
      assert dest[..aadlen + len] == dest[..aadlen] + dest[aadlen..aadlen + len];
    }

    /** On encryption the tag is appended; on decryption it is checked before anything is written. */
    method ChachapolyCrypt(seqnr: bv32, dest: array<Byte>, src: array<Byte>, len: nat, aadlen: nat, doEncrypt: bool, mac: Mac)
      returns (r: int)
      requires Valid() && TagsHaveLength(mac)
      requires aadlen + len + (if doEncrypt then 0 else TAGLEN) <= src.Length
      requires aadlen + len + (if doEncrypt then TAGLEN else 0) <= dest.Length
      modifies main, header, dest
      ensures Fixed() == old(Fixed())
      ensures doEncrypt ==> r == 0
      ensures doEncrypt ==>
                dest[..aadlen + len + TAGLEN] == Seal(Fixed(), seqnr, old(src[..aadlen + len]), aadlen, mac)
      ensures !doEncrypt ==>
                match Open(Fixed(), seqnr, old(src[..aadlen + len + TAGLEN]), aadlen, mac)
                case Refused => r == SSH_ERR_MAC_INVALID && dest[..] == old(dest[..])
                case Text(t) => r == 0 && dest[..aadlen + len] == t
    {
      hide Body, PolyKey;
      ghost var text := src[..aadlen + len];
      var polyKey := MacKey(seqnr);
      var covered := (aadlen + len) % UINT_LIMIT;
      if !doEncrypt {
        ghost var packet := src[..aadlen + len + TAGLEN];
        assert packet[..aadlen + len] == text && packet[aadlen + len..] == src[aadlen + len..aadlen + len + TAGLEN];
        assert text[..covered] == src[..covered];
        var expected := mac(src[..covered], polyKey[..]);
        if expected != src[aadlen + len..aadlen + len + TAGLEN] { return SSH_ERR_MAC_INVALID; }
      }
      CryptBody(seqnr, dest, src, len, aadlen);
      if doEncrypt {
        ghost var body := dest[..aadlen + len];
        assert body[..covered] == dest[..covered];
        var tag := mac(dest[..covered], polyKey[..]);
        WriteTag(dest, aadlen + len, tag);
        assert dest[..aadlen + len + TAGLEN] == dest[..aadlen + len] + dest[aadlen + len..aadlen + len + TAGLEN];
      }
      r := 0;
    }

    method GetLength(seqnr: bv32, cp: seq<Byte>) returns (r: int, plen: bv32)
      requires Valid()
      modifies header
      ensures Fixed() == old(Fixed())
      ensures |cp| < 4 ==> r == SSH_ERR_MESSAGE_INCOMPLETE
      ensures |cp| >= 4 ==> r == 0 && plen == Length(Fixed(), seqnr, cp)
    {
      hide Crypt, SeqBuf, Advance, PeekU32;
      if |cp| < 4 { return SSH_ERR_MESSAGE_INCOMPLETE, 0; }
      var input := new Byte[4](i requires 0 <= i < 4 => cp[i]);
      assert input[0..4] == cp[..4];
      var buf := new Byte[4];
      IvSetup(header, SeqBuf(seqnr), ZERO8);
      ghost var hs: State := header[..];
      EncryptBytes(header, input, 0, buf, 0, 4);
      FixedWords(hs, 1, header[..]);
      assert buf[0..4] == buf[..];
      r, plen := 0, PeekU32(buf[..]);
    }
  }

  /** Only the counter words of a context move. */
  lemma FixedWords(start: State, n: nat, end: State)
    requires end == Advance(start, n)
    ensures end[..12] == start[..12]
  {
    hide Advance;
    forall i | 0 <= i < 12 ensures end[i] == start[i] { AdvanceKeepsOthers(start, n, i); }
  }

  method WriteTag(dest: array<Byte>, at: nat, tag: seq<Byte>)
    requires |tag| == TAGLEN && at + TAGLEN <= dest.Length
    modifies dest
    ensures dest[at..at + TAGLEN] == tag && dest[..at] == old(dest[..at])
  {
    for i := 0 to TAGLEN
      invariant dest[at..at + i] == tag[..i] && dest[..at] == old(dest[..at])
    {
      dest[at + i] := tag[i];
      assert dest[at..at + i + 1] == dest[at..at + i] + [tag[i]];
      Seqs.Snoc(tag, i);
    }
    Seqs.Whole(tag);
  }

  /** A packet encrypted by one context and decrypted by another with the same keys comes back
      whole, and its length can be read from its first four bytes if they are all header. */
  method RoundTrip(a: Context, b: Context, seqnr: bv32, text: seq<Byte>, aadlen: nat, mac: Mac)
    returns (r: int, out: seq<Byte>, plen: bv32)
    requires a.Valid() && b.Valid() && TagsHaveLength(mac) && aadlen <= |text|
    requires {a.main, a.header} !! {b.main, b.header} && a.Fixed() == b.Fixed()
    modifies a.main, a.header, b.main, b.header
    ensures r == 0 && out == text
    ensures 4 <= aadlen ==> plen == PeekU32(text)
  {
    hide Seal, Open, Length, PeekU32;
    ghost var keys := a.Fixed();
    var n := |text|;
    var src := new Byte[n](i requires 0 <= i < n => text[i]);
    assert src[..n] == text;
    var dest := new Byte[n + TAGLEN];
    r := a.ChachapolyCrypt(seqnr, dest, src, n - aadlen, aadlen, true, mac);
    ghost var packet := dest[..n + TAGLEN];
    if 4 <= aadlen { LengthOfSealed(keys, seqnr, text, aadlen, mac); }
    OpensIff(keys, seqnr, packet, text, aadlen, mac);
    r, plen := b.GetLength(seqnr, dest[..]);
    assert dest[..] == packet;
    var plain := new Byte[n];
    r := b.ChachapolyCrypt(seqnr, plain, dest, n - aadlen, aadlen, false, mac);
    out := plain[..n];
  }
}
