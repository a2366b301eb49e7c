/** Retrying I/O over short transfers (atomicio.c): the flat loop and the vectored loop. */
module AtomicIo {
  import Seqs

  type Byte = bv8

  const IOV_MAX: nat := 1024

  /** One answer of read/write or readv/writev. `Moved` is a transfer of n > 0 bytes, after which
      the progress callback may ask to stop. */
  datatype Event = Interrupted | WouldBlock | Failed | EndOfFile | Moved(n: nat, stop: bool)

  /** What a call has done by the time its answers run out: still waiting, or returned a count. */
  datatype Status = Waiting | Returned(count: nat)

  datatype Outcome = Outcome(moved: nat, status: Status)

  /** The kernel never moves more than it was offered. */
  predicate Legal(total: nat, pos: nat, script: seq<Event>)
    requires pos <= total
    decreases |script|
  {
    script == [] ||
    match script[0]
    case Moved(n, stop) => 0 < n <= total - pos && Legal(total, pos + n, script[1..])
    case _ => Legal(total, pos, script[1..])
  }

  /** The promise of both loops, as a function of the sizes and of the kernel's answers alone. */
  function Transfer(total: nat, pos: nat, script: seq<Event>): (o: Outcome)
    requires pos <= total && Legal(total, pos, script)
    ensures pos <= o.moved <= total
    ensures o.status.Returned? ==> o.status.count == o.moved || o.status.count == 0
    decreases |script|
  {
    if pos == total then Outcome(pos, Returned(pos))
    else if script == [] then Outcome(pos, Waiting)
    else
      match script[0]
      case Interrupted => Transfer(total, pos, script[1..])
      case WouldBlock => Transfer(total, pos, script[1..])
      case Failed => Outcome(pos, Returned(0))
      case EndOfFile => Outcome(pos, Returned(pos))
      case Moved(n, stop) =>
        if stop then Outcome(pos + n, Returned(pos + n)) else Transfer(total, pos + n, script[1..])
  }

  /** Why a call may come back before everything moved. */
  predicate CutsShort(e: Event, o: Outcome) {
    o.status == Returned(if e.Failed? then 0 else o.moved) &&
    (e.Failed? || e.EndOfFile? || (e.Moved? && e.stop))
  }

  /** Returning without having moved everything means a hard error (and then the count is 0),
      end of file, or a callback that stopped (and then the count is what moved). */
  lemma {:induction false} WhatTheCountMeans(total: nat, pos: nat, script: seq<Event>)
    requires pos <= total && Legal(total, pos, script)
    ensures var o := Transfer(total, pos, script);
      o.status.Returned? && o != Outcome(total, Returned(total)) ==>
        exists k :: 0 <= k < |script| && CutsShort(script[k], o)
    decreases |script|
  {
    if pos < total && script != [] {
      var e := script[0];
      var o := Transfer(total, pos, script);
      if !CutsShort(e, o) {
        WhatTheCountMeans(total, if e.Moved? then pos + e.n else pos, script[1..]);
        if o.status.Returned? && o != Outcome(total, Returned(total)) {
          var k :| 0 <= k < |script[1..]| && CutsShort(script[1..][k], o);
          assert CutsShort(script[k + 1], o);
        }
      }
    }
  }

  /** One answer, read at index k of the script. */
  lemma Answer(total: nat, pos: nat, script: seq<Event>, k: nat)
    requires pos < total && k < |script| && Legal(total, pos, script[k..])
    ensures var e, more := script[k], script[k + 1..];
      var next := if e.Moved? then pos + e.n else pos;
      (e.Moved? ==> 0 < e.n) && next <= total && Legal(total, next, more) &&
      Transfer(total, pos, script[k..]) ==
        if e.Failed? then Outcome(pos, Returned(0))
        else if e.EndOfFile? || (e.Moved? && e.stop) then Outcome(next, Returned(next))
        else Transfer(total, next, more)
  {
    Seqs.DropDrop(script, k, 1);
  }

  lemma NoAnswers(total: nat, pos: nat, script: seq<Event>)
    requires pos <= total
    ensures script[|script|..] == [] && Legal(total, pos, script[|script|..])
    ensures Transfer(total, pos, script[|script|..]) == Outcome(pos, if pos == total then Returned(pos) else Waiting)
  {
  }

  lemma Complete(total: nat, script: seq<Event>)
    requires Legal(total, total, script)
    ensures Transfer(total, total, script) == Outcome(total, Returned(total))
  {
  }

  /** The flat loop. `sent` is what reached the other side, byte for byte. */
  method AtomicIo6(s: seq<Byte>, script: seq<Event>) returns (o: Outcome, sent: seq<Byte>)
    requires Legal(|s|, 0, script)
    ensures o == Transfer(|s|, 0, script)
    ensures sent == s[..o.moved]
  {
    hide Legal, Transfer;
    var pos, at := 0, 0;
    sent := [];
    Seqs.Whole(script);
    while |s| > pos
      invariant 0 <= pos <= |s| && 0 <= at <= |script| && sent == s[..pos]
      invariant Legal(|s|, pos, script[at..])
      invariant Transfer(|s|, 0, script) == Transfer(|s|, pos, script[at..])
      decreases |script| - at
    {
      if at == |script| {
        NoAnswers(|s|, pos, script);
        return Outcome(pos, Waiting), sent;
      }
      var res := script[at];
      Answer(|s|, pos, script, at);
      at := at + 1;
      match res {
        case Interrupted => continue;
        case WouldBlock => continue;
        case Failed => return Outcome(pos, Returned(0)), sent;
        case EndOfFile => return Outcome(pos, Returned(pos)), sent;
        case Moved(n, stop) =>
          Extend(s, pos, n);
          sent := sent + s[pos..][..n];
          pos := pos + n;
          if stop { return Outcome(pos, Returned(pos)), sent; }
      }
    }
    Complete(|s|, script[at..]);
    o := Outcome(pos, Returned(pos));
  }

  lemma Extend(s: seq<Byte>, pos: nat, n: nat)
    requires pos + n <= |s|
    ensures s[..pos] + s[pos..][..n] == s[..pos + n]
  {
  }

  // ---- Vectors ----

  /** The loop only starts when there is a first entry and it is not empty. */
  predicate Starts(iov: seq<seq<Byte>>) { iov != [] && iov[0] != [] }

  function Vectored(iov: seq<seq<Byte>>, script: seq<Event>): (o: Outcome)
    requires Legal(|Seqs.Flatten(iov)|, 0, script)
  {
    if |iov| <= IOV_MAX && Starts(iov) then Transfer(|Seqs.Flatten(iov)|, 0, script)
    else Outcome(0, Returned(0))
  }

  /** The vectored loop agrees with the flat loop on the concatenated buffers for every script
      exactly when it can start, or there is nothing to move. */
  lemma VectoredIsFlatIff(iov: seq<seq<Byte>>)
    ensures (forall script :: Legal(|Seqs.Flatten(iov)|, 0, script) ==>
               Vectored(iov, script) == Transfer(|Seqs.Flatten(iov)|, 0, script))
        <==> Seqs.Flatten(iov) == [] || (|iov| <= 1024 && iov != [] && iov[0] != [])
  {
    var total := |Seqs.Flatten(iov)|;
    if total > 0 && !(|iov| <= IOV_MAX && Starts(iov)) {
      var script := [Moved(total, false)];
      assert script[1..] == [];
      assert Legal(total, total, []);
      assert Legal(total, 0, script);
      assert Transfer(total, 0, script) == Outcome(total, Returned(total));
      assert Vectored(iov, script) != Transfer(total, 0, script);
    }
  }

  lemma FlattenSplit(a: seq<seq<Byte>>, rem: nat)
    requires a != [] && rem <= |Seqs.Flatten(a)|
    ensures rem >= |a[0]| ==> rem - |a[0]| <= |Seqs.Flatten(a[1..])| && Seqs.Flatten(a)[rem..] == Seqs.Flatten(a[1..])[rem - |a[0]|..]
    ensures rem <= |a[0]| ==> Seqs.Flatten(a)[rem..] == a[0][rem..] + Seqs.Flatten(a[1..])
  {
    DropOver(a[0], Seqs.Flatten(a[1..]), rem);
  }

  lemma DropOver(x: seq<Byte>, y: seq<Byte>, rem: nat)
    requires rem <= |x + y|
    ensures rem >= |x| ==> (x + y)[rem..] == y[rem - |x|..]
    ensures rem <= |x| ==> (x + y)[rem..] == x[rem..] + y
  {
  }

  lemma FlattenUnfolds(a: seq<seq<Byte>>)
    ensures a == [] ==> Seqs.Flatten(a) == []
    ensures a != [] ==> Seqs.Flatten(a) == a[0] + Seqs.Flatten(a[1..])
  {
  }

  /** Skips the entries that a transfer of `rem` bytes completed and trims the next one. */
  method Advance(a: array<seq<Byte>>, start: nat, moved: nat) returns (at: nat)
    requires start <= a.Length && moved <= |Seqs.Flatten(a[start..])|
    modifies a
    ensures start <= at <= a.Length
    ensures Seqs.Flatten(a[at..]) == old(Seqs.Flatten(a[start..]))[moved..]
    ensures at < a.Length ==> a[at] != []
  {
    hide Seqs.Flatten;
    at := start;
    var rem := moved;
    ghost var left := Seqs.Flatten(a[start..])[moved..];
    while at < a.Length && rem >= |a[at]|
      invariant start <= at <= a.Length && a[..] == old(a[..])
      invariant 0 <= rem <= |Seqs.Flatten(a[at..])| && Seqs.Flatten(a[at..])[rem..] == left
    {
      FlattenSplit(a[at..], rem);
      assert a[at..][1..] == a[at + 1..];
      rem := rem - |a[at]|;
      at := at + 1;
    }
    FlattenUnfolds(a[at..]);
    // The source's "This shouldn't happen" test is false here.
    assert rem == 0 || (at < a.Length && rem <= |a[at]|);
    if at == a.Length { return; }
    ghost var tail := a[at + 1..];
    FlattenSplit(a[at..], rem);
    assert a[at..][1..] == tail;
    a[at] := a[at][rem..];
    assert a[at..][1..] == tail && a[at..][0] == a[at];
    FlattenUnfolds(a[at..]);
  }

  method AtomicIoV6(iov: seq<seq<Byte>>, script: seq<Event>) returns (o: Outcome, sent: seq<Byte>)
    requires Legal(|Seqs.Flatten(iov)|, 0, script)
    ensures o == Vectored(iov, script)
    ensures sent == Seqs.Flatten(iov)[..o.moved]
  {
    hide Legal, Transfer;
    sent := [];
    if |iov| > IOV_MAX { return Outcome(0, Returned(0)), sent; }
    var a := new seq<Byte>[|iov|](i requires 0 <= i < |iov| => iov[i]);
    var pos, at, used := 0, 0, 0;
    ghost var all := Seqs.Flatten(iov);
    assert a[0..] == iov;
    Seqs.Whole(script);
    Seqs.Whole(all);
    while at < a.Length && |a[at]| > 0
      invariant 0 <= pos <= |all| && 0 <= at <= a.Length && 0 <= used <= |script|
      invariant Seqs.Flatten(a[at..]) == all[pos..] && sent == all[..pos]
      invariant Legal(|all|, pos, script[used..])
      invariant Starts(iov) ==> Transfer(|all|, 0, script) == Transfer(|all|, pos, script[used..])
      invariant Starts(iov) ==> (at < a.Length ==> a[at] != [])
      invariant !Starts(iov) ==> pos == 0 && (at < a.Length ==> a[at] == [])
      decreases |script| - used
    {
      assert a[at..][0] == a[at];
      assert pos < |all|;
      if used == |script| {
        NoAnswers(|all|, pos, script);
        return Outcome(pos, Waiting), sent;
      }
      var res := script[used];
      Answer(|all|, pos, script, used);
      used := used + 1;
      match res {
        case Interrupted => continue;
        case WouldBlock => continue;
        case Failed => return Outcome(pos, Returned(0)), sent;
        case EndOfFile => return Outcome(pos, Returned(pos)), sent;
        case Moved(n, stop) =>
          Extend(all, pos, n);
          Seqs.DropDrop(all, pos, n);
          sent := sent + Seqs.Flatten(a[at..])[..n];
          pos := pos + n;
          at := Advance(a, at, n);
          if stop { return Outcome(pos, Returned(pos)), sent; }
      }
    }
    assert at == a.Length ==> a[at..] == [];
    if Starts(iov) { Complete(|all|, script[used..]); }
    o := Outcome(pos, Returned(pos));
  }
}
