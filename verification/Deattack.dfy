/** The CRC compensation attack detector (deattack.c): a quadratic scan for duplicate blocks in
    short packets, and an open-addressing table in its place for longer ones. */
module Deattack {
  type Byte = bv8
  type Block = seq<Byte>

  /** A table entry has sixteen bits. */
  type Entry = x: nat | x < 0x1_0000

  const MAX_IDENTICAL: nat := 32
  const SSH_MAXBLOCKS: nat := 32 * 1024
  const SSH_BLOCKSIZE: nat := 8
  const HASH_UNUSED: Entry := 0xffff
  const HASH_MINBLOCKS: nat := 7 * SSH_BLOCKSIZE
  const HASH_START: nat := 8 * 1024 / 2

  datatype Verdict = Clean | Detected | DosDetected | Error

  /** The CRC test of a block against the packet, as a pure function. */
  type Crc = (Block, seq<Block>) -> bool

  // ---- What the detector decides ----

  ghost predicate Duplicate(bs: seq<Block>, j: nat)
    requires j < |bs|
  {
    exists k :: 0 <= k < j && bs[k] == bs[j]
  }

  /** Position j repeats an earlier block and its pattern passes the CRC test. */
  ghost predicate Attack(bs: seq<Block>, crc: Crc, j: nat)
    requires j < |bs|
  {
    Duplicate(bs, j) && crc(bs[j], bs)
  }

  ghost function Duplicates(bs: seq<Block>, j: nat): nat
    requires j <= |bs|
  {
    if j == 0 then 0 else Duplicates(bs, j - 1) + if Duplicate(bs, j - 1) then 1 else 0
  }

  /** The answer of the quadratic scan. */
  ghost function Quadratic(bs: seq<Block>, crc: Crc): Verdict {
    if exists j :: 0 <= j < |bs| && Attack(bs, crc, j) then Detected else Clean
  }

  /** The answer from position j on, when `same` repeats have been seen before it. */
  ghost function Scan(bs: seq<Block>, crc: Crc, j: nat, same: nat): Verdict
    requires j <= |bs|
    decreases |bs| - j
  {
    if j == |bs| then Clean
    else if !Duplicate(bs, j) then Scan(bs, crc, j + 1, same)
    else if same + 1 > MAX_IDENTICAL then DosDetected
    else if crc(bs[j], bs) then Detected
    else Scan(bs, crc, j + 1, same + 1)
  }

  ghost function Answer(bs: seq<Block>, crc: Crc): Verdict { Scan(bs, crc, 0, 0) }

  /** The 33rd repeat, with no attack before it. */
  ghost predicate Overflow(bs: seq<Block>, crc: Crc, j: nat)
    requires j < |bs|
  {
    Duplicate(bs, j) && Duplicates(bs, j) == MAX_IDENTICAL && forall i :: 0 <= i < j ==> !Attack(bs, crc, i)
  }

  lemma {:induction false} DuplicatesGrow(bs: seq<Block>, i: nat, j: nat)
    requires i <= j <= |bs|
    ensures Duplicates(bs, i) <= Duplicates(bs, j)
    decreases j - i
  {
    if i < j { DuplicatesGrow(bs, i, j - 1); }
  }

  lemma {:induction false} ScanMeaning(bs: seq<Block>, crc: Crc, j: nat)
    requires j <= |bs| && Duplicates(bs, j) <= MAX_IDENTICAL
    requires forall i :: 0 <= i < j ==> !Attack(bs, crc, i)
    ensures var v := Scan(bs, crc, j, Duplicates(bs, j));
      v != Error &&
      (v == DosDetected <==> exists k :: j <= k < |bs| && Overflow(bs, crc, k)) &&
      (v != DosDetected ==> v == Quadratic(bs, crc))
    decreases |bs| - j
  {
    if j < |bs| {
      if !Duplicate(bs, j) {
        ScanMeaning(bs, crc, j + 1);
      } else if Duplicates(bs, j) == MAX_IDENTICAL {
        assert Overflow(bs, crc, j);
      } else if crc(bs[j], bs) {
        assert Attack(bs, crc, j);
        forall k | j <= k < |bs| ensures !Overflow(bs, crc, k) {
          if k > j { assert Attack(bs, crc, j); }
        }
      } else {
        ScanMeaning(bs, crc, j + 1);
      }
    }
  }

  /** The answer is the quadratic scan's, except that the 33rd repeat, reached before any attack,
      stops the scan. */
  lemma AnswerMeaning(bs: seq<Block>, crc: Crc)
    ensures Answer(bs, crc) == DosDetected <==> exists k :: 0 <= k < |bs| && Overflow(bs, crc, k)
    ensures Answer(bs, crc) != DosDetected ==> Answer(bs, crc) == Quadratic(bs, crc)
    ensures Duplicates(bs, |bs|) <= MAX_IDENTICAL ==> Answer(bs, crc) == Quadratic(bs, crc)
  {
    ScanMeaning(bs, crc, 0);
    if Duplicates(bs, |bs|) <= MAX_IDENTICAL {
      forall k | 0 <= k < |bs| ensures !Overflow(bs, crc, k) {
        DuplicatesGrow(bs, k + 1, |bs|);
      }
    }
  }

  lemma {:induction false} FewDuplicates(bs: seq<Block>, j: nat)
    requires j <= |bs|
    ensures Duplicates(bs, j) <= j
  {
    if j > 0 { FewDuplicates(bs, j - 1); }
  }

  // ---- The table ----

  /** Four bytes as one number, most significant first. */
  function Number(a: nat, b: nat, c: nat, d: nat): nat { a * 0x100_0000 + b * 0x1_0000 + c * 0x100 + d }

  /** The hash is the block's first four bytes, most significant first. */
  function Hash(b: Block): nat {
    if |b| < 4 then 0 else Number(b[0] as int, b[1] as int, b[2] as int, b[3] as int)
  }

  lemma LastByte(high: nat, low: nat)
    requires low < 0x100
    ensures (high * 0x100 + low) % 0x100 == low && (high * 0x100 + low) / 0x100 == high
  {
  }

  lemma NumberBytes(a: nat, b: nat, c: nat, d: nat)
    requires b < 0x100 && c < 0x100 && d < 0x100
    ensures var n := Number(a, b, c, d);
      n % 0x100 == d && n / 0x100 % 0x100 == c && n / 0x100 / 0x100 % 0x100 == b && n / 0x100 / 0x100 / 0x100 == a
  {
    LastByte(a, b);
    LastByte(a * 0x100 + b, c);
    LastByte((a * 0x100 + b) * 0x100 + c, d);
    assert Number(a, b, c, d) == ((a * 0x100 + b) * 0x100 + c) * 0x100 + d;
  }

  /** Each of those bytes can be read back from it, dividing by 256 again and again. */
  lemma HashBytes(b: Block)
    requires |b| >= 4
    ensures Hash(b) % 0x100 == b[3] as int && Hash(b) / 0x100 % 0x100 == b[2] as int
    ensures Hash(b) / 0x100 / 0x100 % 0x100 == b[1] as int && Hash(b) / 0x100 / 0x100 / 0x100 == b[0] as int
  {
    hide Number;
    NumberBytes(b[0] as int, b[1] as int, b[2] as int, b[3] as int);
  }

  predicate TableSize(n: nat) { n == 4096 || n == 16384 || n == 65536 }

  /** Bitwise and of two numbers. */
  function BitAnd(x: nat, y: nat): nat {
    if x == 0 || y == 0 then 0 else x % 2 * (y % 2) + 2 * BitAnd(x / 2, y / 2)
  }

  predicate PowerOfTwo(n: nat) { n == 1 || (n > 1 && n % 2 == 0 && PowerOfTwo(n / 2)) }

  lemma HalvedRemainder(x: nat, n: nat)
    requires n > 0 && n % 2 == 0
    ensures n / 2 > 0 && x % n == x % 2 + 2 * (x / 2 % (n / 2))
  {
    var m, h := n / 2, x / 2;
    var q, rest := h / m, h % m;
    assert x == x % 2 + 2 * rest + q * n;
    Remainder(x, n, q, x % 2 + 2 * rest);
  }

  lemma Remainder(x: nat, n: nat, q: nat, rest: nat)
    requires n > 0 && x == rest + q * n && rest < n
    ensures x % n == rest
  {
    var p := x / n;
    assert x == x % n + p * n;
    assert (p - q) * n == p * n - q * n;
    SmallMultiple(p - q, n);
  }

  /** A multiple of n strictly between -n and n is zero. */
  lemma SmallMultiple(d: int, n: int)
    requires n > 0
    ensures -n < d * n < n ==> d * n == 0
  {
    if d >= 1 { assert d * n >= n; }
    if d <= -1 { assert d * n <= -n; }
  }

  /** Masking with one less than a power of two is the remainder by it. */
  lemma {:induction false} MaskIsRemainder(x: nat, n: nat)
    requires PowerOfTwo(n)
    ensures BitAnd(x, n - 1) == x % n
  {
    if n > 1 {
      HalvedRemainder(x, n);
      MaskIsRemainder(x / 2, n / 2);
      assert (n - 1) / 2 == n / 2 - 1 && (n - 1) % 2 == 1;
    }
  }

  lemma Doubles(n: nat)
    requires PowerOfTwo(n)
    ensures PowerOfTwo(2 * n)
  {
  }

  lemma Powers()
    ensures PowerOfTwo(4096) && PowerOfTwo(16384) && PowerOfTwo(65536)
  {
    assert PowerOfTwo(256);
    hide PowerOfTwo;
    Doubles(256);
    Doubles(512);
    Doubles(1024);
    Doubles(2048);
    Doubles(4096);
    Doubles(8192);
    Doubles(16384);
    Doubles(32768);
  }

  /** So it is for every table size. */
  lemma MaskInTable(x: nat, n: nat)
    requires TableSize(n)
    ensures BitAnd(x, n - 1) == x % n
  {
    hide PowerOfTwo, BitAnd;
    Powers();
    MaskIsRemainder(x, n);
  }

  function Slot(n: nat, home: nat, d: nat): (i: nat)
    requires 0 < n && home < n && d < n
    ensures i < n
  {
    if home + d < n then home + d else home + d - n
  }

  /** Masking the next index moves to the next slot of the probe sequence. */
  lemma NextSlot(n: nat, home: nat, d: nat)
    requires TableSize(n) && home < n && d + 1 < n
    ensures BitAnd(Slot(n, home, d) + 1, n - 1) == Slot(n, home, d + 1)
  {
    hide BitAnd;
    MaskInTable(Slot(n, home, d) + 1, n);
  }

  lemma FirstSlot(b: Block, n: nat)
    requires TableSize(n)
    ensures BitAnd(Hash(b), n - 1) == Home(b, n) == Slot(n, Home(b, n), 0)
  {
    hide BitAnd;
    MaskInTable(Hash(b), n);
  }

  function Home(b: Block, n: nat): (i: nat)
    requires 0 < n
    ensures i < n
  {
    Hash(b) % n
  }

  /** Slots hold the unused marker or the index of a block before j. */
  ghost predicate Indexed(hs: seq<nat>, j: nat) {
    forall i :: 0 <= i < |hs| ==> hs[i] == HASH_UNUSED || hs[i] < j
  }

  /** Slot d of b's probe sequence holds a block equal to b and everything before it is in use. */
  ghost predicate FoundAt(hs: seq<nat>, bs: seq<Block>, b: Block, d: nat)
    requires hs != [] && Indexed(hs, |bs|) && d < |hs|
  {
    var home := Home(b, |hs|);
    var i := hs[Slot(|hs|, home, d)];
    i != HASH_UNUSED && bs[i] == b &&
    forall e :: 0 <= e < d ==> hs[Slot(|hs|, home, e)] != HASH_UNUSED
  }

  ghost predicate Found(hs: seq<nat>, bs: seq<Block>, b: Block)
    requires hs != [] && Indexed(hs, |bs|)
  {
    exists d :: 0 <= d < |hs| && FoundAt(hs, bs, b, d)
  }

  /** The table after j blocks: every one of them can be found. */
  ghost predicate Represents(hs: seq<nat>, bs: seq<Block>, j: nat) {
    hs != [] && j <= |bs| <= SSH_MAXBLOCKS && Indexed(hs, j) &&
    forall k :: 0 <= k < j ==> Found(hs, bs, bs[k])
  }

  /** What a probe has passed over. */
  ghost predicate Passed(hs: seq<nat>, bs: seq<Block>, b: Block, d: nat)
    requires hs != [] && Indexed(hs, |bs|) && d <= |hs|
  {
    var home := Home(b, |hs|);
    forall e :: 0 <= e < d ==> var i := hs[Slot(|hs|, home, e)]; i != HASH_UNUSED && bs[i] != b
  }

  lemma ProbeMissed(hs: seq<nat>, bs: seq<Block>, j: nat, d: nat)
    requires Represents(hs, bs, j) && j < |bs| && d < |hs|
    requires Passed(hs, bs, bs[j], d) && hs[Slot(|hs|, Home(bs[j], |hs|), d)] == HASH_UNUSED
    ensures !Duplicate(bs, j)
  {
    hide Home;
  }

  lemma ProbeHit(hs: seq<nat>, bs: seq<Block>, j: nat, i: nat)
    requires Represents(hs, bs, j) && j < |bs| && i < |hs|
    requires hs[i] != HASH_UNUSED && bs[hs[i]] == bs[j]
    ensures Duplicate(bs, j)
  {
  }

  /** Storing j at the slot where the probe stopped keeps every earlier block findable. */
  lemma Stored(hs: seq<nat>, bs: seq<Block>, j: nat, d: nat)
    requires Represents(hs, bs, j) && j < |bs| && d < |hs|
    requires var i := hs[Slot(|hs|, Home(bs[j], |hs|), d)];
      Passed(hs, bs, bs[j], d) && (i == HASH_UNUSED || bs[i] == bs[j])
    ensures Represents(hs[Slot(|hs|, Home(bs[j], |hs|), d) := j], bs, j + 1)
  {
    hide Home;
    var s := Slot(|hs|, Home(bs[j], |hs|), d);
    var next := hs[s := j];
    assert Indexed(next, j + 1);
    assert FoundAt(next, bs, bs[j], d);
    forall k | 0 <= k < j ensures Found(next, bs, bs[k]) {
      assert Found(hs, bs, bs[k]);
      var f :| 0 <= f < |hs| && FoundAt(hs, bs, bs[k], f);
      assert FoundAt(next, bs, bs[k], f);
    }
  }

  ghost function Below(n: nat): (r: set<nat>)
    ensures |r| == n && forall i: nat :: i in r <==> i < n
  {
    if n == 0 then {} else Below(n - 1) + {n - 1}
  }

  /** A table with fewer used slots than slots has a free one, which any probe would reach. */
  lemma FreeSlot(hs: seq<nat>, used: set<nat>, home: nat) returns (f: nat)
    requires |used| < |hs| && home < |hs|
    requires forall i :: 0 <= i < |hs| && hs[i] != HASH_UNUSED ==> i in used
    ensures f < |hs| && hs[Slot(|hs|, home, f)] == HASH_UNUSED
  {
    var all := Below(|hs|);
    if all <= used { Contained(all, used); }
    var i :| i in all && i !in used;
    f := if home <= i then i - home else i + |hs| - home;
  }

  lemma Contained(a: set<nat>, b: set<nat>)
    requires a <= b
    ensures |a| <= |b|
  {
    assert b == a + (b - a);
  }

  /** One probe: the slot at which block j belongs, and whether an equal block is there. */
  method Probe(h: array<Entry>, bs: seq<Block>, j: nat, ghost used: set<nat>) returns (d: nat, i: nat, found: bool)
    requires TableSize(h.Length) && Represents(h[..], bs, j) && j < |bs| && |used| <= j < h.Length
    requires forall k :: 0 <= k < h.Length && h[k] != HASH_UNUSED ==> k in used
    ensures d < h.Length && i == Slot(h.Length, Home(bs[j], h.Length), d)
    ensures Passed(h[..], bs, bs[j], d)
    ensures if found then h[i] != HASH_UNUSED && bs[h[i]] == bs[j] else h[i] == HASH_UNUSED
  {
    hide BitAnd, TableSize, Hash, Home;
    FirstSlot(bs[j], h.Length);
    i := BitAnd(Hash(bs[j]), h.Length - 1);
    ghost var free := FreeSlot(h[..], used, i);
    d := 0;
    found := false;
    while h[i] != HASH_UNUSED
      invariant 0 <= d <= free && i == Slot(h.Length, Home(bs[j], h.Length), d) && !found
      invariant Passed(h[..], bs, bs[j], d)
      decreases free - d
    {
      if bs[j] == bs[h[i]] {
        found := true;
        break;
      }
      NextSlot(h.Length, Home(bs[j], h.Length), d);
      i := BitAnd(i + 1, h.Length - 1);
      d := d + 1;
    }
  }

  /** The hashed path, on a table of any earlier contents. Every index stored fits in an entry and differs from the
      unused marker. */
  method HashScan(h: array<Entry>, bs: seq<Block>, crc: Crc) returns (v: Verdict)
    requires TableSize(h.Length) && |bs| < h.Length && |bs| <= SSH_MAXBLOCKS
    modifies h
    ensures v == Answer(bs, crc)
  {
    hide Duplicate, Home, TableSize;
    for i := 0 to h.Length
      invariant forall k :: 0 <= k < i ==> h[k] == HASH_UNUSED
    {
      h[i] := HASH_UNUSED;
    }
    var same: nat, j: nat := 0, 0;
    ghost var used: set<nat> := {};
    while j < |bs|
      invariant 0 <= j <= |bs| && |used| <= j && Represents(h[..], bs, j)
      invariant forall k :: 0 <= k < h.Length && h[k] != HASH_UNUSED ==> k in used
      invariant Answer(bs, crc) == Scan(bs, crc, j, same)
    {
      var d, i, found := Probe(h, bs, j, used);
      if found {
        ProbeHit(h[..], bs, j, i);
        same := same + 1;
        if same > MAX_IDENTICAL { return DosDetected; }
        if crc(bs[j], bs) { return Detected; }
      } else {
        ProbeMissed(h[..], bs, j, d);
      }
      Stored(h[..], bs, j, d);
      ghost var before: seq<nat> := h[..];
      h[i] := j;
      assert h[..] == before[i := j];
      used := used + {i};
      j := j + 1;
    }
    v := Clean;
  }

  /** The quadratic path. */
  method QuadraticScan(bs: seq<Block>, crc: Crc) returns (v: Verdict)
    ensures v == Quadratic(bs, crc)
  {
    for c := 0 to |bs|
      invariant forall j :: 0 <= j < c ==> !Attack(bs, crc, j)
    {
      var d := 0;
      while d < c
        invariant 0 <= d <= c && forall k :: 0 <= k < d ==> bs[k] != bs[c]
      {
        if bs[c] == bs[d] {
          if crc(bs[c], bs) {
            assert Attack(bs, crc, c);
            return Detected;
          }
          break;
        }
        d := d + 1;
      }
    }
    v := Clean;
  }

  // ---- The detector ----

  function Blocks(buf: seq<Byte>): (bs: seq<Block>)
    requires |buf| % SSH_BLOCKSIZE == 0
    ensures |bs| == |buf| / 8
    ensures forall k :: 0 <= k < |bs| ==> |bs[k]| == 8
    ensures forall k, i :: 0 <= k < |bs| && 0 <= i < 8 ==> bs[k][i] == buf[8 * k + i]
  {
    seq(|buf| / SSH_BLOCKSIZE, k requires 0 <= k < |buf| / SSH_BLOCKSIZE => buf[8 * k..8 * k + 8])
  }

  predicate Acceptable(buf: seq<Byte>) {
    |buf| <= SSH_MAXBLOCKS * SSH_BLOCKSIZE && |buf| % SSH_BLOCKSIZE == 0
  }

  class Detector {
    var h: array?<Entry>
    var n: nat

    predicate Valid()
      reads this
    {
      TableSize(n) && (h != null ==> h.Length == n)
    }

    constructor ()
      ensures Valid() && h == null && n == HASH_START
    {
      h, n := null, HASH_START;
    }

    /** The size that the table must have for a packet of so many blocks. */
    method Size(blocks: nat) returns (l: nat)
      requires Valid() && blocks <= SSH_MAXBLOCKS
      ensures TableSize(l) && n <= l && blocks * 3 / 2 <= l
      ensures l > n ==> n < blocks * 3 / 2
    {
      l := n;
      while l < blocks * 3 / 2
        invariant TableSize(l) && n <= l && (l > n ==> n < blocks * 3 / 2)
        decreases 65536 - l
      {
        l := l * 4;
      }
    }

    /** `alloc` says whether memory can be had, which matters if there is no table yet or it is too small. Every
        acceptable packet that gets its table is answered as Answer says, whatever earlier packets left in the table;
        an unacceptable one changes nothing, and one that memory fails leaves no table. */
    method DetectAttack(buf: seq<Byte>, crc: Crc, alloc: bool) returns (v: Verdict)
      requires Valid()
      modifies this, h
      ensures Valid() && n >= old(n) && (h == old(h) || h == null || fresh(h))
      ensures v == Error <==>
        |buf| > 0x4_0000 || |buf| % 8 != 0 || (!alloc && (old(h) == null || old(n) < |Blocks(buf)| * 3 / 2))
      ensures v == Error ==> n == old(n) && h == if |buf| > 0x4_0000 || |buf| % 8 != 0 then old(h) else null
      ensures v != Error ==> v == Answer(Blocks(buf), crc) && h != null && n >= |Blocks(buf)| * 3 / 2
    {
      hide Scan, Duplicates, Quadratic;
      if !Acceptable(buf) { return Error; }
      var bs := Blocks(buf);
      var l := Size(|bs|);
      if h == null {
        if !alloc { return Error; }
        h := new Entry[l](_ => 0);
        n := l;
      } else if l > n {
        if !alloc {
          h := null;
          return Error;
        }
        h := new Entry[l](_ => 0);
        n := l;
      }
      AnswerMeaning(bs, crc);
      NotError(bs, crc);
      if |buf| <= HASH_MINBLOCKS {
        FewDuplicates(bs, |bs|);
        v := QuadraticScan(bs, crc);
      } else {
        v := HashScan(h, bs, crc);
      }
    }
  }

  lemma NotError(bs: seq<Block>, crc: Crc)
    ensures Answer(bs, crc) != Error && Quadratic(bs, crc) != Error
  {
    ScanMeaning(bs, crc, 0);
  }
}
