/** Two ends of one channel joined by two ordered links: what every run of the handlers of channels.c,
    in any order and with any descriptor behaviour, keeps about windows and about the bytes carried. */
module ChannelRuns {
  import opened ChannelFlow
  import Seqs

  /** One end, with what its descriptors have supplied (src, srcErr) and accepted (dst, dstErr), and the
      bytes it threw away: dropped because its output was shut, lost in a failed write, refused stderr. */
  datatype Peer = Peer(
    chan: Chan, src: seq<Byte>, dst: seq<Byte>, srcErr: seq<Byte>, dstErr: seq<Byte>,
    dropped: nat, lost: nat, refused: nat)

  datatype Net = Net(a: Peer, b: Peer, ab: seq<Msg>, ba: seq<Msg>, alarm: Alarm)

  datatype Action =
    | ReadSource(bytes: seq<Byte>) | SourceEof | ReadStderr(bytes: seq<Byte>) | StderrEof
    | StopReading | ShutSink | SendPoll | GiveBack | SendClose | Start(usage: Usage, efdOpen: bool, window: nat)
    | WriteSink(result: IoResult) | WriteStderr(result: IoResult)
    | Receive

  // ---- Steps ----

  /** Whether stderr received is written: its descriptor is polled until both directions are over. If the output ended
      without giving up, there is none left to write. */
  predicate WritesExtended(c: Chan) { TakesExtended(c) && !(c.writeFailed && c.istate == Finished) }

  /** An action of one end that takes no message. */
  function Local(p: Peer, act: Action): (Peer, seq<Msg>) {
    var c := p.chan;
    match act
    case ReadSource(bytes) =>
      if c.open && c.istate == Reading then (p.(chan := c.(input := c.input + bytes), src := p.src + bytes), [])
      else (p, [])
    case SourceEof =>
      if c.open && c.istate == Reading then (p.(chan := c.(istate := Draining)), []) else (p, [])
    case ReadStderr(bytes) =>
      if c.open && c.efdOpen && c.usage == ReadErr then
        (p.(chan := c.(extended := c.extended + bytes), srcErr := p.srcErr + bytes), [])
      else (p, [])
    case StderrEof => if c.usage != WriteErr then (p.(chan := c.(efdOpen := false)), []) else (p, [])
    case SendPoll => var (c', out) := Poll(c); (p.(chan := c'), out)
    case GiveBack => var (c', out) := CheckWindow(c); (p.(chan := c'), out)
    case StopReading => if c.istate == Reading then (p.(chan := c.(istate := Finished)), []) else (p, [])
    case ShutSink => (p.(chan := ShutOutput(c), lost := p.lost + |c.output|), [])
    case SendClose => var (c', out) := CloseIfDead(c); (p.(chan := c'), out)
    case Start(usage, efdOpen, window) =>
      var (c', out) := Activate(c, usage, efdOpen, window % LIMIT); (p.(chan := c'), out)
    case WriteSink(r) =>
      var c' := WriteOutput(c, r);
      var gone := |c.output| - |c'.output|;
      (if Fails(r) then p.(chan := c', lost := p.lost + gone)
       else p.(chan := c', dst := p.dst + c.output[..gone]), [])
    case WriteStderr(r) =>
      var c' := if WritesExtended(c) then WriteExtended(c, r) else c;
      (p.(chan := c', dstErr := p.dstErr + c.extended[..|c.extended| - |c'.extended|]), [])
    case Receive => (p, [])
  }

  /** Taking one message from the peer. */
  function Take(p: Peer, m: Msg): (Peer, Alarm) {
    var c := p.chan;
    match m
    case Data(d) =>
      var (c', alarm) := ReceiveData(c, d);
      (p.(chan := c', dropped := p.dropped + if c'.output == c.output then |d| else 0), alarm)
    case Extended(d) =>
      var (c', alarm) := ReceiveExtended(c, d);
      (p.(chan := c', refused := p.refused + if c'.extended == c.extended then |d| else 0), alarm)
    case Adjust(k) => var (c', alarm) := ReceiveAdjust(c, k); (p.(chan := c'), alarm)
    case Eof => (p.(chan := ReceiveEof(c)), Quiet)
    case Close => (p, Quiet)
  }

  /** What taking a close makes the end do. */
  function HangUp(p: Peer): (Peer, seq<Msg>) { var (c', out) := CloseBoth(p.chan); (p.(chan := c'), out) }

  /** Taking the next message, apart from what a close does. */
  function Pop(n: Net): Net
    requires n.ba != []
  {
    var (p, alarm) := Take(n.a, n.ba[0]);
    n.(a := p, ba := n.ba[1..], alarm := if n.alarm == Quiet then alarm else n.alarm)
  }

  function Act(n: Net, act: Action): Net {
    if act != Receive then
      var (p, out) := Local(n.a, act);
      n.(a := p, ab := n.ab + out)
    else if n.ba == [] then n
    else if n.ba[0] != Close then Pop(n)
    else
      var m := Pop(n);
      var (p, out) := HangUp(m.a);
      m.(a := p, ab := m.ab + out)
  }

  function Flip(n: Net): Net { Net(n.b, n.a, n.ba, n.ab, n.alarm) }

  datatype Step = Step(left: bool, act: Action)

  function Next(n: Net, s: Step): Net {
    if s.left then Act(n, s.act) else Flip(Act(Flip(n), s.act))
  }

  function Run(n: Net, steps: seq<Step>): Net
    decreases |steps|
  {
    if steps == [] then n else Run(Next(n, steps[0]), steps[1..])
  }

  // ---- What is in flight ----

  function Size(m: Msg): nat { if m.Data? || m.Extended? then |m.data| else 0 }

  function Bytes(q: seq<Msg>): nat { if q == [] then 0 else Size(q[0]) + Bytes(q[1..]) }

  function Grant(m: Msg): nat { if m.Adjust? then m.bytes else 0 }

  function Grants(q: seq<Msg>): nat { if q == [] then 0 else Grant(q[0]) + Grants(q[1..]) }

  function OutOf(m: Msg): seq<Byte> { if m.Data? then m.data else [] }

  function ErrOf(m: Msg): seq<Byte> { if m.Extended? then m.data else [] }

  function OutText(q: seq<Msg>): seq<Byte> { if q == [] then [] else OutOf(q[0]) + OutText(q[1..]) }

  function ErrText(q: seq<Msg>): seq<Byte> { if q == [] then [] else ErrOf(q[0]) + ErrText(q[1..]) }

  /** Whether end of file has been received once everything in q has been. */
  function EofAfter(eof: bool, q: seq<Msg>): bool
    decreases |q|
  {
    if q == [] then eof else EofAfter(eof || q[0].Eof?, q[1..])
  }

  /** No text follows end of file. */
  predicate WellOrdered(eof: bool, q: seq<Msg>)
    decreases |q|
  {
    q == [] || ((eof ==> q[0].Adjust? || q[0].Close?) && WellOrdered(eof || q[0].Eof?, q[1..]))
  }

  /** Nothing but a window adjustment follows a close. */
  predicate CloseOrdered(closed: bool, q: seq<Msg>)
    decreases |q|
  {
    q == [] || ((closed ==> q[0].Adjust?) && CloseOrdered(closed || q[0].Close?, q[1..]))
  }

  lemma {:induction false} InFlight(q: seq<Msg>, out: seq<Msg>)
    ensures Bytes(q + out) == Bytes(q) + Bytes(out) && Grants(q + out) == Grants(q) + Grants(out)
  {
    if q == [] {
      assert q + out == out;
    } else {
      InFlight(q[1..], out);
      assert (q + out)[1..] == q[1..] + out;
    }
  }

  lemma {:induction false} TextInFlight(q: seq<Msg>, out: seq<Msg>)
    ensures OutText(q + out) == OutText(q) + OutText(out) && ErrText(q + out) == ErrText(q) + ErrText(out)
  {
    hide OutOf, ErrOf;
    if q == [] {
      assert q + out == out;
      Seqs.Whole(OutText(out));
      Seqs.Whole(ErrText(out));
    } else {
      TextInFlight(q[1..], out);
      assert (q + out)[1..] == q[1..] + out;
      Seqs.Assoc(OutOf(q[0]), OutText(q[1..]), OutText(out));
      Seqs.Assoc(ErrOf(q[0]), ErrText(q[1..]), ErrText(out));
    }
  }

  lemma OneMessage(m: Msg, eof: bool)
    ensures Bytes([m]) == Size(m) && Grants([m]) == Grant(m)
    ensures OutText([m]) == OutOf(m) && ErrText([m]) == ErrOf(m)
    ensures EofAfter(eof, [m]) == (eof || m.Eof?) && WellOrdered(eof, [m]) == (eof ==> m.Adjust? || m.Close?)
  {
    assert [m][1..] == [];
    hide OutOf, ErrOf;
    Seqs.Whole(OutOf(m));
    Seqs.Whole(ErrOf(m));
  }

  lemma NoMessage(eof: bool)
    ensures Bytes([]) == 0 == Grants([]) && OutText([]) == [] == ErrText([])
    ensures EofAfter(eof, []) == eof && WellOrdered(eof, [])
  {
  }

  lemma {:induction false} InOrder(eof: bool, q: seq<Msg>, out: seq<Msg>)
    ensures EofAfter(eof, q + out) == EofAfter(EofAfter(eof, q), out)
    ensures WellOrdered(eof, q + out) == (WellOrdered(eof, q) && WellOrdered(EofAfter(eof, q), out))
    decreases |q|
  {
    if q == [] {
      assert q + out == out;
    } else {
      InOrder(eof || q[0].Eof?, q[1..], out);
      assert (q + out)[1..] == q[1..] + out;
    }
  }

  lemma {:induction false} ClosesInOrder(closed: bool, q: seq<Msg>, out: seq<Msg>)
    ensures CloseOrdered(closed, q + out) == (CloseOrdered(closed, q) && CloseOrdered(closed || Close in q, out))
    decreases |q|
  {
    if q == [] {
      assert q + out == out;
    } else {
      ClosesInOrder(closed || q[0].Close?, q[1..], out);
      assert (q + out)[1..] == q[1..] + out;
      assert q == [q[0]] + q[1..];
    }
  }

  lemma {:induction false} NoClose(q: seq<Msg>)
    requires Close !in q
    ensures CloseOrdered(false, q)
  {
    if q != [] { NoClose(q[1..]); }
  }

  lemma {:induction false} NothingFollowsClose(q: seq<Msg>)
    requires CloseOrdered(true, q)
    ensures OutText(q) == [] && ErrText(q) == [] && Close !in q
  {
    if q != [] {
      NothingFollowsClose(q[1..]);
      assert q == [q[0]] + q[1..];
    }
  }

  // ---- The invariant, for the direction from s to r ----

  /** Received stderr not yet written. */
  function Held(c: Chan): seq<Byte> { if c.usage == WriteErr then c.extended else [] }

  /** Stderr read here and not yet sent. */
  function Unsent(c: Chan): seq<Byte> { if c.usage == ReadErr then c.extended else [] }

  /** Every byte of r's window is with s, in flight, granted in flight, or was refused; and the window,
      what is buffered, what waits to be given back and what was lost add up to the window's size. */
  predicate Windows(s: Peer, r: Peer, sr: seq<Msg>, rs: seq<Msg>) {
    r.chan.localWindow == s.chan.remoteWindow + Bytes(sr) + Grants(rs) + r.refused &&
    r.chan.localWindow + r.chan.localConsumed + |r.chan.output| + |Held(r.chan)| + r.lost == r.chan.localWindowMax &&
    r.chan.localWindowMax < LIMIT
  }

  predicate Order(s: Peer, r: Peer, sr: seq<Msg>) {
    WellOrdered(r.chan.eofRcvd, sr) &&
    s.chan.eofSent == EofAfter(r.chan.eofRcvd, sr)
  }

  predicate Stdout(s: Peer, r: Peer, sr: seq<Msg>) {
    (r.dropped == 0 && r.lost == 0 ==> s.src == r.dst + r.chan.output + OutText(sr) + s.chan.input) &&
    r.dst + r.chan.output <= s.src &&
    (r.dropped > 0 || r.lost > 0 ==> !r.chan.outputOpen)
  }

  predicate Stderr(s: Peer, r: Peer, sr: seq<Msg>) {
    (r.refused == 0 ==> s.srcErr == r.dstErr + Held(r.chan) + ErrText(sr) + Unsent(s.chan)) &&
    r.dstErr + Held(r.chan) <= s.srcErr &&
    (r.refused > 0 ==> !TakesExtended(r.chan))
  }

  /** One end on its own: a channel not yet started is empty, and end of file is sent last. */
  predicate Sane(p: Peer) {
    var c := p.chan;
    (!c.open ==>
      c.localWindowMax == 0 && !c.eofSent && !c.efdOpen && c.usage == Ignore && c.input == [] && p.refused == 0) &&
    (c.usage == Ignore ==> c.extended == []) &&
    (c.eofSent ==> c.istate == Finished)
  }

  /** End of file was said after all the text. */
  predicate Emptied(p: Peer) { p.chan.eofSent ==> p.chan.input == [] && !EfdInputActive(p.chan) }

  /** One close at most, after all text, reaches r exactly if s sent it; and while r has sent none, s says end of file
      after all its text. */
  predicate Ended(s: Peer, r: Peer, sr: seq<Msg>) {
    CloseOrdered(r.chan.closeRcvd, sr) && s.chan.closeSent == (r.chan.closeRcvd || Close in sr) &&
    (!r.chan.closeSent ==> Emptied(s))
  }

  /** One end on its own: its output is shut by end of file, by a close or because it gave up writing, only the last
      throws bytes away, and a close is sent after everything received was written, unless it gave up or the stderr
      descriptor is gone. */
  predicate Tidy(p: Peer) {
    var c := p.chan;
    (c.closeSent || c.closeRcvd ==> c.istate == Finished) && (c.writeFailed || c.closeRcvd ==> !c.outputOpen) &&
    (c.writeFailed ==> c.output == []) &&
    (!c.outputOpen ==> c.writeFailed || c.eofRcvd || c.closeRcvd) && (p.dropped > 0 || p.lost > 0 ==> c.writeFailed) &&
    (c.closeSent && !c.writeFailed ==> !c.outputOpen && c.output == [] && (Held(c) == [] || !c.efdOpen))
  }

  predicate Flow(s: Peer, r: Peer, sr: seq<Msg>, rs: seq<Msg>) {
    Windows(s, r, sr, rs) && Order(s, r, sr) && Stdout(s, r, sr) && Stderr(s, r, sr)
  }

  predicate Inv(n: Net) {
    Flow(n.a, n.b, n.ab, n.ba) && Flow(n.b, n.a, n.ba, n.ab) && Sane(n.a) && Sane(n.b) && n.alarm == Quiet &&
    Ended(n.a, n.b, n.ab) && Ended(n.b, n.a, n.ba) && Tidy(n.a) && Tidy(n.b)
  }

  // ---- What each handler may do, seen as sender and as receiver ----

  /** Sending: the window pays for the bytes, and the text leaves the front of what was buffered. */
  predicate Sends(c: Chan, d: Chan, out: seq<Msg>) {
    d.remoteWindow + Bytes(out) == c.remoteWindow && Grants(out) == 0 &&
    c.input == OutText(out) + d.input && Unsent(c) == ErrText(out) + Unsent(d) &&
    WellOrdered(c.eofSent, out) && d.eofSent == EofAfter(c.eofSent, out)
  }

  /** Nothing that concerns receiving has changed. */
  predicate SameReceiver(c: Chan, d: Chan) {
    c.(istate := d.istate, eofSent := d.eofSent, input := d.input, remoteWindow := d.remoteWindow,
       extended := d.extended) == d &&
    (c.usage != ReadErr ==> d.extended == c.extended)
  }

  lemma PollDataSends(c: Chan)
    requires c.remoteWindow < LIMIT && (c.eofSent ==> c.istate == Finished)
    ensures Sends(c, PollData(c).0, PollData(c).1) && SameReceiver(c, PollData(c).0)
  {
    hide EfdInputActive, Sends;
    if PollData(c).1 == [] {
      SendsNothing(c);
    } else if c.input == [] || c.istate == Finished {
      SendsEof(c);
    } else {
      SendsText(c, Min(Min(|c.input|, c.remoteWindow), c.remoteMaxpacket));
    }
  }

  lemma SendsNothing(c: Chan)
    ensures Sends(c, c, [])
  {
    NoMessage(c.eofSent);
    hide Bytes, Grants, OutText, ErrText, WellOrdered, EofAfter, Unsent;
    Seqs.Whole(c.input);
    Seqs.Whole(Unsent(c));
  }

  lemma SendsEof(c: Chan)
    requires !c.eofSent
    ensures Sends(c, c.(istate := Finished, eofSent := true), [Eof])
  {
    OneMessage(Eof, c.eofSent);
    hide Bytes, Grants, OutText, ErrText, WellOrdered, EofAfter, Unsent;
    SameUnsent(c, c.(istate := Finished, eofSent := true));
    Seqs.Whole(c.input);
    Seqs.Whole(Unsent(c));
  }

  lemma SendsText(c: Chan, n: nat)
    requires n <= |c.input| && n <= c.remoteWindow < LIMIT && !c.eofSent
    ensures Sends(c, c.(input := c.input[n..], remoteWindow := Sub32(c.remoteWindow, n)), [Data(c.input[..n])])
  {
    OneMessage(Data(c.input[..n]), c.eofSent);
    hide Bytes, Grants, OutText, ErrText, WellOrdered, EofAfter, Unsent;
    SameUnsent(c, c.(input := c.input[n..], remoteWindow := Sub32(c.remoteWindow, n)));
    Seqs.Split(c.input, n);
    Seqs.Whole(Unsent(c));
  }

  lemma PollExtendedSends(c: Chan)
    requires c.remoteWindow < LIMIT
    ensures Sends(c, PollExtended(c).0, PollExtended(c).1) && SameReceiver(c, PollExtended(c).0)
  {
    var (d, out) := PollExtended(c);
    NoMessage(c.eofSent);
    if out != [] {
      assert out == [out[0]];
      OneMessage(out[0], c.eofSent);
    }
    hide Bytes, Grants, OutText, ErrText, WellOrdered, EofAfter;
    Seqs.Split(c.extended, |c.extended| - |d.extended|);
    Seqs.Whole(c.input);
    Seqs.Whole(Unsent(c));
  }

  lemma PollSends(c: Chan)
    requires c.remoteWindow < LIMIT && (c.eofSent ==> c.istate == Finished)
    ensures Sends(c, Poll(c).0, Poll(c).1) && SameReceiver(c, Poll(c).0)
  {
    hide PollData, PollExtended, Bytes, Grants, OutText, ErrText, WellOrdered, EofAfter;
    if c.open && !Closing(c) {
      PollDataSends(c);
      var (c1, m1) := PollData(c);
      PollExtendedSends(c1);
      var (c2, m2) := PollExtended(c1);
      InFlight(m1, m2);
      TextInFlight(m1, m2);
      InOrder(c.eofSent, m1, m2);
      Seqs.Assoc(OutText(m1), OutText(m2), c2.input);
      Seqs.Assoc(ErrText(m1), ErrText(m2), Unsent(c2));
    } else {
      NoMessage(c.eofSent);
      Seqs.Whole(c.input);
      Seqs.Whole(Unsent(c));
    }
  }

  /** A local action, seen from the direction in which p sends. */
  predicate AsSender(p: Peer, q: Peer, out: seq<Msg>) {
    q.chan.remoteWindow + Bytes(out) == p.chan.remoteWindow &&
    p.src <= q.src && p.chan.input + q.src[|p.src|..] == OutText(out) + q.chan.input &&
    p.srcErr <= q.srcErr && Unsent(p.chan) + q.srcErr[|p.srcErr|..] == ErrText(out) + Unsent(q.chan) &&
    WellOrdered(p.chan.eofSent, out) && q.chan.eofSent == EofAfter(p.chan.eofSent, out)
  }

  /** What the window accounts for, apart from what is left of it. */
  function Owed(p: Peer): nat { p.chan.localConsumed + |p.chan.output| + |Held(p.chan)| + p.lost }

  predicate Accounts(p: Peer, q: Peer, out: seq<Msg>) {
    q.chan.localWindow == p.chan.localWindow + Grants(out) && q.refused == p.refused && q.dropped == p.dropped &&
    q.chan.localWindow + Owed(q) == q.chan.localWindowMax < LIMIT
  }

  predicate Receiving(p: Peer, q: Peer) {
    q.chan.eofRcvd == p.chan.eofRcvd &&
    (q.chan.outputOpen ==> p.chan.outputOpen) &&
    q.lost >= p.lost && (q.lost == p.lost ==> q.dst + q.chan.output == p.dst + p.chan.output) &&
    (q.lost > p.lost ==> q.dst + q.chan.output <= p.dst + p.chan.output && !q.chan.outputOpen) &&
    q.dstErr + Held(q.chan) == p.dstErr + Held(p.chan) &&
    (TakesExtended(q.chan) && p.refused > 0 ==> TakesExtended(p.chan))
  }

  /** A local action, seen from the direction in which p receives. */
  predicate AsReceiver(p: Peer, q: Peer, out: seq<Msg>) { Accounts(p, q, out) && Receiving(p, q) }

  lemma SenderKeeps(s: Peer, s': Peer, r: Peer, sr: seq<Msg>, rs: seq<Msg>, out: seq<Msg>)
    requires Flow(s, r, sr, rs) && AsSender(s, s', out)
    ensures Flow(s', r, sr + out, rs)
  {
    hide Bytes, Grants, OutText, ErrText, WellOrdered, EofAfter;
    InFlight(sr, out);
    TextInFlight(sr, out);
    InOrder(r.chan.eofRcvd, sr, out);
    Regroup(r.dst + r.chan.output, OutText(sr), s.chan.input, s.src, s'.src, OutText(out), s'.chan.input);
    Regroup(r.dstErr + Held(r.chan), ErrText(sr), Unsent(s.chan), s.srcErr, s'.srcErr, ErrText(out), Unsent(s'.chan));
  }

  lemma Regroup(front: seq<Byte>, flight: seq<Byte>, back: seq<Byte>, src: seq<Byte>, src': seq<Byte>,
                out: seq<Byte>, back': seq<Byte>)
    requires src <= src' && back + src'[|src|..] == out + back'
    ensures src == front + flight + back ==> src' == front + (flight + out) + back'
  {
    if src == front + flight + back {
      Seqs.Split(src', |src|);
      Seqs.Assoc(front + flight, back, src'[|src|..]);
      Seqs.Assoc(front + flight, out, back');
      Seqs.Assoc(front, flight, out);
    }
  }

  lemma ReceiverKeeps(s: Peer, r: Peer, r': Peer, sr: seq<Msg>, rs: seq<Msg>, out: seq<Msg>)
    requires Flow(s, r, sr, rs) && AsReceiver(r, r', out)
    ensures Flow(s, r', sr, rs + out)
  {
    hide Bytes, Grants, OutText, ErrText, WellOrdered, EofAfter;
    InFlight(rs, out);
  }

  // ---- Local actions ----

  lemma LocalAsSender(p: Peer, act: Action)
    requires Sane(p) && p.chan.remoteWindow < LIMIT
    ensures AsSender(p, Local(p, act).0, Local(p, act).1)
  {
    hide AsSender, Local;
    match act
    case SendPoll => PollAsSender(p);
    case ReadSource(_) => ReadingAsSender(p, act);
    case ReadStderr(_) => ReadingAsSender(p, act);
    case Start(_, _, _) => StartAsSender(p, act);
    case SendClose => ClosingAsSender(p);
    case GiveBack => WritingAsSender(p, act);
    case WriteSink(_) => WritingAsSender(p, act);
    case WriteStderr(_) => WritingAsSender(p, act);
    case _ => QuietAsSender(p, act);
  }

  lemma PollAsSender(p: Peer)
    requires Sane(p) && p.chan.remoteWindow < LIMIT
    ensures AsSender(p, Local(p, SendPoll).0, Local(p, SendPoll).1)
  {
    hide Bytes, Grants, OutText, ErrText, WellOrdered, EofAfter, Poll, Unsent, SameReceiver;
    PollSends(p.chan);
    Seqs.Whole(p.chan.input);
    Seqs.Whole(Unsent(p.chan));
    Seqs.Whole(p.src);
    Seqs.Whole(p.srcErr);
  }

  lemma ReadingAsSender(p: Peer, act: Action)
    requires Sane(p) && (act.ReadSource? || act.ReadStderr?)
    ensures AsSender(p, Local(p, act).0, Local(p, act).1)
  {
    hide Bytes, Grants, OutText, ErrText, WellOrdered, EofAfter;
    var (q, out) := Local(p, act);
    NoMessage(p.chan.eofSent);
    Seqs.Whole(q.chan.input);
    Seqs.Whole(Unsent(q.chan));
    Seqs.Whole(p.chan.input);
    Seqs.Whole(Unsent(p.chan));
    Seqs.Whole(p.src);
    Seqs.Whole(p.srcErr);
    Seqs.Drop(p.src, act.bytes);
    Seqs.Drop(p.srcErr, act.bytes);
  }

  /** Nothing sent or read: what concerns sending is as it was. */
  lemma NothingAsSender(p: Peer, q: Peer, out: seq<Msg>)
    requires SameSending(p.chan, q.chan) && q.src == p.src && q.srcErr == p.srcErr
    requires Bytes(out) == 0 && OutText(out) == [] && ErrText(out) == []
    requires WellOrdered(p.chan.eofSent, out) && EofAfter(p.chan.eofSent, out) == p.chan.eofSent
    ensures AsSender(p, q, out)
  {
    hide Bytes, OutText, ErrText, WellOrdered, EofAfter, Unsent;
    Seqs.Whole(p.chan.input);
    Seqs.Whole(Unsent(p.chan));
    Seqs.Whole(p.src);
    Seqs.Whole(p.srcErr);
  }

  predicate SameSending(c: Chan, d: Chan) {
    d.remoteWindow == c.remoteWindow && d.input == c.input && d.eofSent == c.eofSent && Unsent(d) == Unsent(c)
  }

  lemma StartAsSender(p: Peer, act: Action)
    requires Sane(p) && act.Start?
    ensures AsSender(p, Local(p, act).0, Local(p, act).1)
  {
    hide Bytes, Grants, OutText, ErrText, WellOrdered, EofAfter, AsSender;
    NoMessage(p.chan.eofSent);
    OneMessage(Adjust(act.window % LIMIT), p.chan.eofSent);
    NothingAsSender(p, Local(p, act).0, Local(p, act).1);
  }

  lemma HangUpAsSender(p: Peer)
    requires Sane(p)
    ensures AsSender(p, HangUp(p).0, HangUp(p).1)
  {
    hide Bytes, Grants, OutText, ErrText, WellOrdered, EofAfter;
    NoMessage(p.chan.eofSent);
    OneMessage(Eof, p.chan.eofSent);
    Seqs.Whole(p.chan.input);
    Seqs.Whole(Unsent(p.chan));
    Seqs.Whole(p.src);
    Seqs.Whole(p.srcErr);
  }

  lemma ClosingAsSender(p: Peer)
    ensures AsSender(p, Local(p, SendClose).0, Local(p, SendClose).1)
  {
    hide Bytes, Grants, OutText, ErrText, WellOrdered, EofAfter, AsSender;
    NoMessage(p.chan.eofSent);
    OneMessage(Close, p.chan.eofSent);
    NothingAsSender(p, Local(p, SendClose).0, Local(p, SendClose).1);
  }

  lemma WritingAsSender(p: Peer, act: Action)
    requires act.GiveBack? || act.WriteSink? || act.WriteStderr?
    ensures AsSender(p, Local(p, act).0, Local(p, act).1)
  {
    hide Bytes, Grants, OutText, ErrText, WellOrdered, EofAfter, CheckWindow, WriteOutput, WriteExtended, AsSender;
    NoMessage(p.chan.eofSent);
    match act {
      case GiveBack => CheckAsSender(p.chan);
      case WriteSink(r) => WriteOutputAsSender(p.chan, r);
      case WriteStderr(r) => WriteExtendedAsSender(p.chan, r);
    }
    NothingAsSender(p, Local(p, act).0, Local(p, act).1);
  }

  lemma QuietAsSender(p: Peer, act: Action)
    requires act.SourceEof? || act.StopReading? || act.ShutSink? || act.StderrEof? || act.Receive?
    ensures AsSender(p, Local(p, act).0, Local(p, act).1)
  {
    hide Bytes, Grants, OutText, ErrText, WellOrdered, EofAfter, AsSender;
    NoMessage(p.chan.eofSent);
    QuietKeepsSending(p, act);
    hide Local;
    NothingAsSender(p, Local(p, act).0, []);
  }

  lemma QuietKeepsSending(p: Peer, act: Action)
    requires act.SourceEof? || act.StopReading? || act.ShutSink? || act.StderrEof? || act.Receive?
    ensures var (q, out) := Local(p, act);
      SameSending(p.chan, q.chan) && q.src == p.src && q.srcErr == p.srcErr && out == []
  {
    var c := p.chan;
    match act
    case SourceEof =>
      if c.open && c.istate == Reading { assert Local(p, act).0 == p.(chan := c.(istate := Draining)); }
    case StopReading =>
      if c.istate == Reading { assert Local(p, act).0 == p.(chan := c.(istate := Finished)); }
    case StderrEof =>
      if c.usage != WriteErr { assert Local(p, act).0 == p.(chan := c.(efdOpen := false)); }
    case _ =>
  }

  /** Nothing that concerns sending has changed. */
  predicate SameSender(c: Chan, d: Chan) {
    d.remoteWindow == c.remoteWindow && d.input == c.input && d.eofSent == c.eofSent && d.istate == c.istate &&
    Unsent(d) == Unsent(c) && d.usage == c.usage && d.open == c.open && d.closeSent == c.closeSent &&
    d.closeRcvd == c.closeRcvd && d.eofRcvd == c.eofRcvd && d.localWindowMax == c.localWindowMax &&
    d.localMaxpacket == c.localMaxpacket && d.remoteMaxpacket == c.remoteMaxpacket && (d.efdOpen ==> c.efdOpen) &&
    (c.extended == [] ==> d.extended == [])
  }

  lemma CheckAsSender(c: Chan)
    ensures var (d, out) := CheckWindow(c);
      SameSender(c, d) && d.outputOpen == c.outputOpen && Bytes(out) == 0 && OutText(out) == [] && ErrText(out) == [] &&
      WellOrdered(c.eofSent, out) && EofAfter(c.eofSent, out) == c.eofSent
  {
    hide Bytes, Grants, OutText, ErrText, WellOrdered, EofAfter;
    NoMessage(c.eofSent);
    OneMessage(Adjust(c.localConsumed), c.eofSent);
  }

  lemma WriteOutputAsSender(c: Chan, r: IoResult)
    ensures SameSender(c, WriteOutput(c, r))
  {
    hide Add32, Unsent;
    if c.output == [] || r == Retry {
      assert WriteOutput(c, r) == c;
    } else if Fails(r) {
      assert WriteOutput(c, r) == ShutOutput(c);
      SameUnsent(c, ShutOutput(c));
    } else {
      var k := Min(r.n, |c.output|);
      var d := c.(output := c.output[k..], localConsumed := Add32(c.localConsumed, k));
      assert WriteOutput(c, r) == d;
      SameUnsent(c, d);
    }
  }

  lemma SameUnsent(c: Chan, d: Chan)
    requires d.usage == c.usage && d.extended == c.extended
    ensures Unsent(d) == Unsent(c)
  {
  }

  lemma WriteExtendedAsSender(c: Chan, r: IoResult)
    ensures SameSender(c, WriteExtended(c, r)) && WriteExtended(c, r).outputOpen == c.outputOpen
  {
    hide Add32, Unsent;
    if !TakesExtended(c) || c.extended == [] || r == Retry {
      assert WriteExtended(c, r) == c;
    } else if Fails(r) {
      assert WriteExtended(c, r) == c.(efdOpen := false);
      SameUnsent(c, c.(efdOpen := false));
    } else {
      var k := Min(r.n, |c.extended|);
      var d := c.(extended := c.extended[k..], localConsumed := Add32(c.localConsumed, k));
      assert WriteExtended(c, r) == d;
      Unread(c, d);
    }
  }

  lemma Unread(c: Chan, d: Chan)
    requires d.usage == c.usage == WriteErr
    ensures Unsent(d) == Unsent(c)
  {
  }

  /** The window and what it accounts for add up. */
  predicate Balanced(p: Peer) { p.chan.localWindow + Owed(p) == p.chan.localWindowMax < LIMIT }

  lemma LocalAsReceiver(p: Peer, act: Action)
    requires Sane(p) && Balanced(p)
    ensures AsReceiver(p, Local(p, act).0, Local(p, act).1)
  {
    hide AsReceiver, Local, Balanced, Sane;
    match act
    case SendPoll => PollAsReceiver(p);
    case GiveBack => CheckAsReceiver(p);
    case WriteSink(r) => WriteSinkAsReceiver(p, r);
    case WriteStderr(r) => WriteStderrAsReceiver(p, r);
    case Start(_, _, _) => StartAsReceiver(p, act);
    case ShutSink => ShutAsReceiver(p);
    case _ => OthersAsReceiver(p, act);
  }

  /** The text received is as it was, and the end may have begun to close or stopped taking stderr. */
  lemma SameText(p: Peer, q: Peer)
    requires q.dst == p.dst && q.dstErr == p.dstErr && q.lost == p.lost && q.chan.output == p.chan.output
    requires Held(q.chan) == Held(p.chan) && q.chan.eofRcvd == p.chan.eofRcvd
    requires q.chan.outputOpen ==> p.chan.outputOpen
    requires TakesExtended(q.chan) && p.refused > 0 ==> TakesExtended(p.chan)
    ensures Receiving(p, q)
  {
    hide Held, TakesExtended;
  }

  lemma StartAsReceiver(p: Peer, act: Action)
    requires Sane(p) && Balanced(p) && act.Start?
    ensures AsReceiver(p, Local(p, act).0, Local(p, act).1)
  {
    hide Grants, Receiving;
    NoMessage(false);
    OneMessage(Adjust(act.window % LIMIT), false);
    SameText(p, Local(p, act).0);
  }

  /** The receiving side is as it was, except that it may have begun to close or stopped taking stderr. */
  predicate Unmoved(p: Peer, q: Peer) {
    q.dst == p.dst && q.dstErr == p.dstErr && q.lost == p.lost && q.dropped == p.dropped && q.refused == p.refused &&
    q.chan.localWindow == p.chan.localWindow && q.chan.localWindowMax == p.chan.localWindowMax &&
    q.chan.localConsumed == p.chan.localConsumed && q.chan.output == p.chan.output &&
    Held(q.chan) == Held(p.chan) && q.chan.eofRcvd == p.chan.eofRcvd &&
    (q.chan.outputOpen ==> p.chan.outputOpen) && (TakesExtended(q.chan) ==> TakesExtended(p.chan))
  }

  lemma UnmovedAsReceiver(p: Peer, q: Peer, out: seq<Msg>)
    requires Balanced(p) && Unmoved(p, q) && Grants(out) == 0
    ensures AsReceiver(p, q, out)
  {
    hide Grants, Held, TakesExtended, Receiving;
    SameText(p, q);
  }

  lemma HangUpAsReceiver(p: Peer)
    requires Balanced(p)
    ensures AsReceiver(p, HangUp(p).0, HangUp(p).1)
  {
    hide Grants, AsReceiver, Balanced;
    NoMessage(false);
    OneMessage(Eof, false);
    UnmovedAsReceiver(p, HangUp(p).0, HangUp(p).1);
  }

  lemma ShutAsReceiver(p: Peer)
    requires Balanced(p)
    ensures AsReceiver(p, Local(p, ShutSink).0, Local(p, ShutSink).1)
  {
    hide Grants;
    NoMessage(false);
    Seqs.Whole(p.dst);
  }

  lemma OthersAsReceiver(p: Peer, act: Action)
    requires Balanced(p) && !act.SendPoll? && !act.GiveBack? && !act.WriteSink? && !act.WriteStderr?
    requires !act.Start? && !act.ShutSink?
    ensures AsReceiver(p, Local(p, act).0, Local(p, act).1)
  {
    hide Grants, AsReceiver, Balanced;
    NoMessage(false);
    OneMessage(Close, false);
    UnmovedAsReceiver(p, Local(p, act).0, Local(p, act).1);
  }

  lemma PollAsReceiver(p: Peer)
    requires Sane(p) && Balanced(p)
    ensures AsReceiver(p, Local(p, SendPoll).0, Local(p, SendPoll).1)
  {
    hide Grants, Poll, Receiving;
    NoGrants(p.chan);
    SameText(p, Local(p, SendPoll).0);
  }

  /** Polling grants nothing, whatever the remote window is. */
  lemma NoGrants(c: Chan)
    ensures Grants(Poll(c).1) == 0 && SameReceiver(c, Poll(c).0)
  {
    hide Grants, PollData, PollExtended;
    var (c1, m1) := PollData(c);
    PollDataGrants(c);
    PollExtendedGrants(c1);
    NoMessage(false);
    InFlight(m1, PollExtended(c1).1);
  }

  lemma PollDataGrants(c: Chan)
    ensures Grants(PollData(c).1) == 0 && SameReceiver(c, PollData(c).0)
  {
    hide Grants, Sub32, EfdInputActive;
    NoMessage(false);
    OneMessage(Eof, false);
    if PollData(c).1 != [] && PollData(c).1 != [Eof] {
      OneMessage(Data(c.input[..Min(Min(|c.input|, c.remoteWindow), c.remoteMaxpacket)]), false);
    }
  }

  lemma PollExtendedGrants(c: Chan)
    ensures Grants(PollExtended(c).1) == 0 && SameReceiver(c, PollExtended(c).0)
  {
    hide Grants, Sub32;
    NoMessage(false);
    if PollExtended(c).1 != [] {
      OneMessage(Extended(c.extended[..Min(Min(|c.extended|, c.remoteWindow), c.remoteMaxpacket)]), false);
    }
  }

  lemma CheckAsReceiver(p: Peer)
    requires Balanced(p)
    ensures AsReceiver(p, Local(p, GiveBack).0, Local(p, GiveBack).1)
  {
    hide Grants, Receiving;
    NoMessage(false);
    OneMessage(Adjust(p.chan.localConsumed), false);
    SameText(p, Local(p, GiveBack).0);
    hide Held, TakesExtended, WantsAdjust;
  }

  lemma WriteSinkAsReceiver(p: Peer, r: IoResult)
    requires Balanced(p)
    ensures AsReceiver(p, Local(p, WriteSink(r)).0, Local(p, WriteSink(r)).1)
  {
    hide Bytes, Grants, OutText, ErrText, WellOrdered, EofAfter;
    NoMessage(false);
    var c, q := p.chan, Local(p, WriteSink(r)).0;
    if Fails(r) {
      Seqs.Whole(p.dst);
    } else {
      var k := |c.output| - |q.chan.output|;
      Seqs.Split(c.output, k);
      Seqs.Whole(c.output);
      Seqs.Assoc(p.dst, c.output[..k], q.chan.output);
    }
  }

  lemma WriteStderrAsReceiver(p: Peer, r: IoResult)
    requires Balanced(p)
    ensures AsReceiver(p, Local(p, WriteStderr(r)).0, Local(p, WriteStderr(r)).1)
  {
    hide Grants;
    NoMessage(false);
    var c, q := p.chan, Local(p, WriteStderr(r)).0;
    Seqs.Whole(c.extended);
    Seqs.Whole(p.dstErr);
    if TakesExtended(c) && c.extended != [] && r != Retry && !Fails(r) {
      var k := Min(r.n, |c.extended|);
      Seqs.Split(c.extended, k);
      Seqs.Assoc(p.dstErr, c.extended[..k], c.extended[k..]);
    }
  }

  lemma LocalStaysSane(p: Peer, act: Action)
    requires Sane(p)
    ensures Sane(Local(p, act).0)
  {
    hide Poll, CheckWindow, WriteOutput, WriteExtended;
    match act
    case SendPoll => PollStaysSane(p);
    case GiveBack => CheckAsSender(p.chan);
    case WriteSink(r) => WriteOutputAsSender(p.chan, r);
    case WriteStderr(r) => WriteExtendedAsSender(p.chan, r);
    case _ =>
  }

  lemma PollStaysSane(p: Peer)
    requires Sane(p)
    ensures Sane(Local(p, SendPoll).0)
  {
    hide Sub32, Min;
  }

  /** What a step of one end does to how the two directions end. */
  predicate Ends(p: Peer, q: Peer, out: seq<Msg>) {
    q.chan.closeRcvd == p.chan.closeRcvd && CloseOrdered(p.chan.closeSent, out) &&
    q.chan.closeSent == (p.chan.closeSent || Close in out) && (Emptied(p) ==> Emptied(q))
  }

  /** Nothing was sent and no close taken. */
  lemma EndsQuietly(p: Peer, q: Peer)
    requires q.chan.closeRcvd == p.chan.closeRcvd && q.chan.closeSent == p.chan.closeSent && (Emptied(p) ==> Emptied(q))
    ensures Ends(p, q, [])
  {
  }

  lemma LocalEnds(p: Peer, act: Action)
    requires Sane(p) && Tidy(p)
    ensures Ends(p, Local(p, act).0, Local(p, act).1)
  {
    hide Poll, CheckWindow, WriteOutput, WriteExtended, Ends;
    match act
    case SendPoll => PollEnds(p);
    case GiveBack => CheckEnds(p);
    case SendClose => ClosingEnds(p);
    case Start(_, _, _) => StartEnds(p, act);
    case WriteSink(r) =>
      WriteOutputAsSender(p.chan, r);
      EndsQuietly(p, Local(p, act).0);
    case WriteStderr(r) =>
      WriteExtendedAsSender(p.chan, r);
      EndsQuietly(p, Local(p, act).0);
    case _ => EndsQuietly(p, Local(p, act).0);
  }

  lemma PollEnds(p: Peer)
    requires Sane(p)
    ensures Ends(p, Local(p, SendPoll).0, Local(p, SendPoll).1)
  {
    hide CloseOrdered;
    PollSpeaks(p);
    if Closing(p.chan) {
      EndsQuietly(p, p);
    } else {
      NoClose(Poll(p.chan).1);
    }
    hide Poll;
  }

  lemma PollSpeaks(p: Peer)
    requires Sane(p)
    ensures var (q, out) := Local(p, SendPoll);
      q.chan.closeRcvd == p.chan.closeRcvd && q.chan.closeSent == p.chan.closeSent && Close !in out &&
      (Emptied(p) ==> Emptied(q))
  {
    hide Sub32, Min;
    var (c1, m1) := PollData(p.chan);
    var (c2, m2) := PollExtended(c1);
    assert Close !in m1 && Close !in m2;
  }

  lemma CheckEnds(p: Peer)
    ensures Ends(p, Local(p, GiveBack).0, Local(p, GiveBack).1)
  {
    hide Add32;
    CheckFrame(p.chan);
    var out := [Adjust(p.chan.localConsumed)];
    assert out[1..] == [] && CloseOrdered(false, out) && Close !in out;
  }

  lemma ClosingEnds(p: Peer)
    ensures Ends(p, Local(p, SendClose).0, Local(p, SendClose).1)
  {
    hide OutputOver;
  }

  lemma StartEnds(p: Peer, act: Action)
    requires Sane(p) && act.Start?
    ensures Ends(p, Local(p, act).0, Local(p, act).1)
  {
  }

  lemma LocalStaysTidy(p: Peer, act: Action)
    requires Sane(p) && Tidy(p)
    ensures Tidy(Local(p, act).0)
  {
    hide Poll, CheckWindow, WriteOutput, WriteExtended;
    match act
    case SendPoll =>
      NoGrants(p.chan);
      PollFinishes(p);
    case GiveBack => CheckFrame(p.chan);
    case WriteSink(r) => WriteSinkStaysTidy(p, r);
    case WriteStderr(r) => WriteStderrStaysTidy(p, r);
    case _ =>
  }

  lemma PollFinishes(p: Peer)
    ensures p.chan.istate == Finished ==> Poll(p.chan).0.istate == Finished
  {
    hide Sub32, Min, EfdInputActive;
  }

  lemma CheckFrame(c: Chan)
    ensures var d := CheckWindow(c).0; c.(localWindow := d.localWindow, localConsumed := d.localConsumed) == d
  {
    hide WantsAdjust, Add32;
  }

  lemma WriteSinkStaysTidy(p: Peer, r: IoResult)
    requires Tidy(p)
    ensures Tidy(Local(p, WriteSink(r)).0)
  {
    hide Add32;
    var c := p.chan;
    if c.output == [] || r == Retry {
      assert WriteOutput(c, r) == c;
    } else if Fails(r) {
      assert WriteOutput(c, r) == ShutOutput(c);
    } else {
      var k := Min(r.n, |c.output|);
      assert WriteOutput(c, r) == c.(output := c.output[k..], localConsumed := Add32(c.localConsumed, k));
    }
    hide WriteOutput;
  }

  lemma WriteStderrStaysTidy(p: Peer, r: IoResult)
    requires Tidy(p)
    ensures Tidy(Local(p, WriteStderr(r)).0)
  {
    hide Add32;
    var c := p.chan;
    if !TakesExtended(c) || c.extended == [] || r == Retry {
      assert WriteExtended(c, r) == c;
    } else if Fails(r) {
      assert WriteExtended(c, r) == c.(efdOpen := false);
    } else {
      var k := Min(r.n, |c.extended|);
      assert WriteExtended(c, r) == c.(extended := c.extended[k..], localConsumed := Add32(c.localConsumed, k));
    }
    hide WriteExtended;
  }

  /** Ends of the two directions, when the left end steps. */
  lemma EndsKept(n: Net, p: Peer, out: seq<Msg>)
    requires Ended(n.a, n.b, n.ab) && Ended(n.b, n.a, n.ba) && Ends(n.a, p, out)
    ensures Ended(p, n.b, n.ab + out) && Ended(n.b, p, n.ba)
  {
    hide CloseOrdered, Emptied;
    ClosesInOrder(n.b.chan.closeRcvd, n.ab, out);
  }

  lemma LocalKeeps(n: Net, act: Action)
    requires Inv(n) && act != Receive
    ensures Inv(Act(n, act))
  {
    hide Bytes, Grants, OutText, ErrText, WellOrdered, EofAfter, Local, Stdout, Stderr, Order, Sane, Ended, Ends, Tidy;
    var (p, out) := Local(n.a, act);
    LocalEnds(n.a, act);
    EndsKept(n, p, out);
    LocalStaysTidy(n.a, act);
    LocalStaysSane(n.a, act);
    LocalAsSender(n.a, act);
    LocalAsReceiver(n.a, act);
    SenderKeeps(n.a, p, n.b, n.ab, n.ba, out);
    ReceiverKeeps(n.b, n.a, p, n.ba, n.ab, out);
  }

  // ---- Taking a message ----

  lemma Popped(q: seq<Msg>, eof: bool)
    requires q != []
    ensures Bytes(q) == Size(q[0]) + Bytes(q[1..]) && Grants(q) == Grant(q[0]) + Grants(q[1..])
    ensures OutText(q) == OutOf(q[0]) + OutText(q[1..]) && ErrText(q) == ErrOf(q[0]) + ErrText(q[1..])
    ensures EofAfter(eof, q) == EofAfter(eof || q[0].Eof?, q[1..])
    ensures WellOrdered(eof, q) == ((eof ==> q[0].Adjust? || q[0].Close?) && WellOrdered(eof || q[0].Eof?, q[1..]))
  {
  }

  /** Taking a message changes what concerns receiving and the window granted, and nothing else. */
  predicate OnlyTakes(c: Chan, d: Chan) {
    c.(outputOpen := d.outputOpen, eofRcvd := d.eofRcvd, output := d.output, extended := d.extended,
       remoteWindow := d.remoteWindow, localWindow := d.localWindow, localConsumed := d.localConsumed) == d &&
    (c.usage != WriteErr ==> d.extended == c.extended)
  }

  lemma TakeFrame(p: Peer, m: Msg)
    ensures var q := Take(p, m).0; OnlyTakes(p.chan, q.chan) && q.src == p.src && q.srcErr == p.srcErr
  {
    hide ReceiveData, ReceiveExtended, ReceiveAdjust;
    match m
    case Data(d) => ReceiveDataFrame(p.chan, d);
    case Extended(d) => ReceiveExtendedFrame(p.chan, d);
    case Adjust(k) => ReceiveAdjustFrame(p.chan, k);
    case Eof =>
    case Close =>
  }

  lemma ReceiveDataFrame(c: Chan, data: seq<Byte>)
    ensures OnlyTakes(c, ReceiveData(c, data).0) && ReceiveData(c, data).0.remoteWindow == c.remoteWindow
  {
    hide Add32, Sub32;
    var w := Sub32(c.localWindow, |data|);
    if !c.open || (c.outputOpen && |data| > c.localWindow) {
      assert ReceiveData(c, data).0 == c;
    } else if !c.outputOpen {
      assert ReceiveData(c, data).0 == c.(localWindow := w, localConsumed := Add32(c.localConsumed, |data|));
    } else {
      assert ReceiveData(c, data).0 == c.(localWindow := w, output := c.output + data);
    }
  }

  lemma ReceiveDataKeepsErr(c: Chan, data: seq<Byte>)
    ensures ReceiveData(c, data).0.extended == c.extended
  {
    hide Add32, Sub32;
    if !c.open || (c.outputOpen && |data| > c.localWindow) {
      assert ReceiveData(c, data).0 == c;
    }
  }

  lemma ReceiveExtendedFrame(c: Chan, data: seq<Byte>)
    ensures OnlyTakes(c, ReceiveExtended(c, data).0) && ReceiveExtended(c, data).0.remoteWindow == c.remoteWindow
  {
    hide Sub32;
    if !c.open || c.eofRcvd || !TakesExtended(c) || |data| > c.localWindow {
      assert ReceiveExtended(c, data).0 == c;
    } else {
      assert ReceiveExtended(c, data).0 ==
        c.(localWindow := Sub32(c.localWindow, |data|), extended := c.extended + data);
    }
  }

  lemma ReceiveAdjustFrame(c: Chan, bytes: nat)
    ensures OnlyTakes(c, ReceiveAdjust(c, bytes).0)
  {
    hide Add32;
    var sum := Add32(c.remoteWindow, bytes);
    if sum < c.remoteWindow {
      assert ReceiveAdjust(c, bytes).0 == c;
    } else {
      assert ReceiveAdjust(c, bytes).0 == c.(remoteWindow := sum);
    }
  }

  /** What concerns sending is as it was, but for a window granted. */
  predicate Granted(p: Peer, q: Peer, k: nat) {
    q.chan.remoteWindow == p.chan.remoteWindow + k && q.chan.input == p.chan.input && q.src == p.src &&
    q.srcErr == p.srcErr && q.chan.eofSent == p.chan.eofSent && Unsent(q.chan) == Unsent(p.chan)
  }

  lemma TakeGrants(p: Peer, m: Msg)
    requires p.chan.remoteWindow + Grant(m) < LIMIT
    ensures Granted(p, Take(p, m).0, Grant(m))
    ensures m.Adjust? ==> Take(p, m).1 == Quiet
  {
    TakeFrame(p, m);
    hide ReceiveData, ReceiveExtended;
    match m
    case Data(d) => ReceiveDataFrame(p.chan, d);
    case Extended(d) => ReceiveExtendedFrame(p.chan, d);
    case Adjust(_) =>
    case Eof =>
    case Close =>
  }

  lemma GrantKeeps(s: Peer, s': Peer, r: Peer, sr: seq<Msg>, rs: seq<Msg>, k: nat)
    requires rs != [] && Flow(s, r, sr, rs) && Granted(s, s', k) && Grants(rs) == k + Grants(rs[1..])
    ensures Flow(s', r, sr, rs[1..])
  {
    hide Bytes, Grants, OutText, ErrText, WellOrdered, EofAfter, Held, TakesExtended, Unsent;
  }

  /** s takes the first message of rs: only a window adjustment concerns what s sends. */
  lemma TakeAsSender(s: Peer, r: Peer, sr: seq<Msg>, rs: seq<Msg>)
    requires Flow(s, r, sr, rs) && rs != []
    ensures Flow(Take(s, rs[0]).0, r, sr, rs[1..])
    ensures rs[0].Adjust? ==> Take(s, rs[0]).1 == Quiet
  {
    hide Bytes, Grants, Take, Granted, Order, Stdout, Stderr;
    Popped(rs, false);
    TakeGrants(s, rs[0]);
    GrantKeeps(s, Take(s, rs[0]).0, r, sr, rs, Grant(rs[0]));
  }

  /** Data within the window moves from the window to the buffer or to what was consumed. */
  lemma DataEffect(p: Peer, d: seq<Byte>)
    requires |d| <= p.chan.localWindow && p.chan.localWindow + p.chan.localConsumed < LIMIT
    requires !p.chan.open ==> d == []
    ensures var (q, alarm) := Take(p, Data(d));
      alarm == Quiet && q.chan.localWindow == p.chan.localWindow - |d| &&
      q.chan.localConsumed + |q.chan.output| == p.chan.localConsumed + |p.chan.output| + |d| &&
      q.chan == p.chan.(localWindow := q.chan.localWindow, localConsumed := q.chan.localConsumed,
                        output := q.chan.output) &&
      q.lost == p.lost && q.refused == p.refused
  {
  }

  /** Receiving keeps the accounts and raises no alarm; what is left is the text. */
  lemma DataAccounts(s: Peer, r: Peer, sr: seq<Msg>, rs: seq<Msg>)
    requires Windows(s, r, sr, rs) && Order(s, r, sr) && Sane(r) && sr != [] && sr[0].Data?
    ensures var r' := Take(r, sr[0]).0; Windows(s, r', sr[1..], rs) && Order(s, r', sr[1..])
    ensures Take(r, sr[0]).1 == Quiet && !r.chan.eofRcvd && (!r.chan.open ==> sr[0].data == [])
    ensures |sr[0].data| <= r.chan.localWindow
  {
    hide Bytes, Grants, OutText, ErrText, WellOrdered, EofAfter, Take;
    Popped(sr, r.chan.eofRcvd);
    DataEffect(r, sr[0].data);
  }

  lemma TakeData(s: Peer, r: Peer, sr: seq<Msg>, rs: seq<Msg>)
    requires Flow(s, r, sr, rs) && Sane(r) && sr != [] && sr[0].Data?
    ensures Flow(s, Take(r, sr[0]).0, sr[1..], rs) && Take(r, sr[0]).1 == Quiet
  {
    hide Bytes, Grants, OutText, ErrText, WellOrdered, EofAfter, Windows, Order, Sane, Add32, Sub32, Held, Unsent;
    DataAccounts(s, r, sr, rs);
    Popped(sr, r.chan.eofRcvd);
    var d, c, text := sr[0].data, r.chan, OutText(sr[1..]);
    SameHeld(c, Take(r, sr[0]).0.chan);
    Whole(r.dstErr + Held(c), ErrText(sr[1..]));
    Shift(r.dst, c.output, d, text, s.chan.input);
    Seqs.Whole(c.output);
  }

  lemma Whole(a: seq<Byte>, b: seq<Byte>)
    ensures [] + b == b && a + ([] + b) == a + b
  {
    Seqs.Whole(b);
  }

  /** Moving the front of what is in flight to the receiver's buffer. */
  lemma Shift(dst: seq<Byte>, output: seq<Byte>, d: seq<Byte>, text: seq<Byte>, input: seq<Byte>)
    ensures dst + output + (d + text) + input == dst + (output + d) + text + input
    ensures dst + (output + d) <= dst + (output + d) + text + input
  {
    Seqs.Assoc(dst + output, d, text);
    Seqs.Assoc(dst, output, d);
    Seqs.Assoc(dst + (output + d), text, input);
  }

  lemma ExtendedAccounts(s: Peer, r: Peer, sr: seq<Msg>, rs: seq<Msg>)
    requires Windows(s, r, sr, rs) && Order(s, r, sr) && Sane(r) && sr != [] && sr[0].Extended?
    ensures var r' := Take(r, sr[0]).0; Windows(s, r', sr[1..], rs) && Order(s, r', sr[1..])
    ensures Take(r, sr[0]).1 == Quiet && !r.chan.eofRcvd && |sr[0].data| <= r.chan.localWindow
    ensures !r.chan.open ==> sr[0].data == [] && !TakesExtended(r.chan)
  {
    hide Bytes, Grants, OutText, ErrText, WellOrdered, EofAfter;
    Popped(sr, r.chan.eofRcvd);
  }

  lemma TakeExtended(s: Peer, r: Peer, sr: seq<Msg>, rs: seq<Msg>)
    requires Flow(s, r, sr, rs) && Sane(r) && sr != [] && sr[0].Extended?
    ensures Flow(s, Take(r, sr[0]).0, sr[1..], rs) && Take(r, sr[0]).1 == Quiet
  {
    hide Bytes, Grants, OutText, ErrText, WellOrdered, EofAfter, Windows, Order, Sane, Add32, Sub32, Unsent;
    ExtendedAccounts(s, r, sr, rs);
    Popped(sr, r.chan.eofRcvd);
    var d, c, text := sr[0].data, r.chan, ErrText(sr[1..]);
    Whole(r.dst + c.output, OutText(sr[1..]));
    if TakesExtended(c) {
      Shift(r.dstErr, Held(c), d, text, Unsent(s.chan));
      Seqs.Whole(c.extended);
    } else {
      Whole(r.dstErr + Held(c), text);
      Seqs.Whole(text);
    }
  }

  lemma TakeAdjust(s: Peer, r: Peer, sr: seq<Msg>, rs: seq<Msg>)
    requires Flow(s, r, sr, rs) && sr != [] && sr[0].Adjust?
    ensures Flow(s, Take(r, sr[0]).0, sr[1..], rs)
  {
    hide Bytes, Grants, OutText, ErrText, WellOrdered, EofAfter, Add32, Held;
    Popped(sr, r.chan.eofRcvd);
    var c := ReceiveAdjust(r.chan, sr[0].bytes).0;
    assert Take(r, sr[0]).0 == r.(chan := c) && c == r.chan.(remoteWindow := c.remoteWindow);
    SameHeld(r.chan, c);
    Whole(r.dst + r.chan.output, OutText(sr[1..]));
    Whole(r.dstErr + Held(r.chan), ErrText(sr[1..]));
  }

  lemma SameHeld(c: Chan, d: Chan)
    requires d.usage == c.usage && d.extended == c.extended
    ensures Held(d) == Held(c)
  {
  }

  lemma TakeEof(s: Peer, r: Peer, sr: seq<Msg>, rs: seq<Msg>)
    requires Flow(s, r, sr, rs) && sr != [] && sr[0].Eof?
    ensures Flow(s, Take(r, sr[0]).0, sr[1..], rs) && Take(r, sr[0]).1 == Quiet
  {
    hide Bytes, Grants, OutText, ErrText, WellOrdered, EofAfter, Held;
    Popped(sr, r.chan.eofRcvd);
    SameHeld(r.chan, ReceiveEof(r.chan));
    Whole(r.dst + r.chan.output, OutText(sr[1..]));
    Whole(r.dstErr + Held(r.chan), ErrText(sr[1..]));
  }

  lemma TakeClose(s: Peer, r: Peer, sr: seq<Msg>, rs: seq<Msg>)
    requires Flow(s, r, sr, rs) && sr != [] && sr[0].Close?
    ensures Flow(s, r, sr[1..], rs)
  {
    hide Bytes, Grants, OutText, ErrText, WellOrdered, EofAfter, Held;
    Popped(sr, r.chan.eofRcvd);
    Whole(r.dst + r.chan.output, OutText(sr[1..]));
    Whole(r.dstErr + Held(r.chan), ErrText(sr[1..]));
  }

  lemma TakeAsReceiver(s: Peer, r: Peer, sr: seq<Msg>, rs: seq<Msg>)
    requires Flow(s, r, sr, rs) && Sane(r) && sr != []
    ensures Flow(s, Take(r, sr[0]).0, sr[1..], rs)
    ensures !sr[0].Adjust? ==> Take(r, sr[0]).1 == Quiet
  {
    hide Flow, Sane;
    match sr[0]
    case Data(_) => TakeData(s, r, sr, rs);
    case Extended(_) => TakeExtended(s, r, sr, rs);
    case Adjust(_) => TakeAdjust(s, r, sr, rs);
    case Eof => TakeEof(s, r, sr, rs);
    case Close => TakeClose(s, r, sr, rs);
  }

  lemma TakeStaysSane(p: Peer, m: Msg)
    requires Sane(p) && (!p.chan.open ==> Size(m) == 0)
    ensures Sane(Take(p, m).0)
  {
    hide Add32, Sub32;
  }

  lemma TakeEnds(p: Peer, m: Msg)
    ensures var q := Take(p, m).0;
      q.chan.closeRcvd == p.chan.closeRcvd && q.chan.closeSent == p.chan.closeSent && (Emptied(p) ==> Emptied(q))
  {
    hide Take;
    TakeFrame(p, m);
  }

  lemma TakeStaysTidy(p: Peer, m: Msg)
    requires Tidy(p) && Take(p, m).1 == Quiet && (!p.chan.open ==> Size(m) == 0)
    requires m.Data? || m.Extended? ==> !p.chan.eofRcvd && !p.chan.closeRcvd
    ensures Tidy(Take(p, m).0)
  {
    match m
    case Data(d) => DataStaysTidy(p, d);
    case Extended(d) => ExtendedStaysTidy(p, d);
    case Adjust(k) =>
      hide Add32;
      assert Take(p, m).0.chan == p.chan.(remoteWindow := Add32(p.chan.remoteWindow, k));
    case Eof =>
    case Close =>
  }

  lemma DataStaysTidy(p: Peer, d: seq<Byte>)
    requires Tidy(p) && Take(p, Data(d)).1 == Quiet && (!p.chan.open ==> d == [])
    requires !p.chan.eofRcvd && !p.chan.closeRcvd
    ensures Tidy(Take(p, Data(d)).0)
  {
    hide Add32, Sub32;
    var c := p.chan;
    if !c.open {
      assert ReceiveData(c, d) == (c, Quiet);
    } else if !c.outputOpen {
      assert ReceiveData(c, d).0 ==
        c.(localWindow := Sub32(c.localWindow, |d|), localConsumed := Add32(c.localConsumed, |d|));
    } else {
      assert ReceiveData(c, d).0 == c.(localWindow := Sub32(c.localWindow, |d|), output := c.output + d);
      Seqs.Whole(c.output);
    }
    hide ReceiveData;
  }

  lemma ExtendedStaysTidy(p: Peer, d: seq<Byte>)
    requires Tidy(p) && Take(p, Extended(d)).1 == Quiet && !p.chan.eofRcvd && !p.chan.closeRcvd
    ensures Tidy(Take(p, Extended(d)).0)
  {
    hide Sub32;
    var c := p.chan;
    if !c.open || !TakesExtended(c) {
      assert ReceiveExtended(c, d) == (c, Quiet);
    } else {
      assert ReceiveExtended(c, d).0 == c.(localWindow := Sub32(c.localWindow, |d|), extended := c.extended + d);
    }
    hide ReceiveExtended;
  }

  /** Text arrives before end of file and before a close. */
  lemma TextIsEarly(n: Net)
    requires Inv(n) && n.ba != [] && (n.ba[0].Data? || n.ba[0].Extended?)
    ensures !n.a.chan.eofRcvd && !n.a.chan.closeRcvd
  {
    hide Windows, Stdout, Stderr, Sane, Tidy;
  }

  /** The left end takes a message other than a close. */
  lemma EndsPopped(n: Net)
    requires n.ba != [] && n.ba[0] != Close && Ended(n.a, n.b, n.ab) && Ended(n.b, n.a, n.ba)
    ensures Ended(Pop(n).a, n.b, n.ab) && Ended(n.b, Pop(n).a, n.ba[1..])
  {
    hide Take, Emptied;
    TakeEnds(n.a, n.ba[0]);
    assert n.ba == [n.ba[0]] + n.ba[1..];
  }

  /** Everything but how the directions end. */
  predicate Sound(n: Net) {
    Flow(n.a, n.b, n.ab, n.ba) && Flow(n.b, n.a, n.ba, n.ab) && Sane(n.a) && Sane(n.b) && n.alarm == Quiet &&
    Tidy(n.a) && Tidy(n.b)
  }

  lemma PopKeeps(n: Net)
    requires Inv(n) && n.ba != []
    ensures Sound(Pop(n)) && (n.ba[0] != Close ==> Inv(Pop(n)))
  {
    if n.ba[0].Data? || n.ba[0].Extended? { TextIsEarly(n); }
    hide Bytes, Grants, OutText, ErrText, WellOrdered, EofAfter, Take, Stdout, Stderr, Order, Ended, Tidy;
    Popped(n.ba, false);
    if n.ba[0] != Close { EndsPopped(n); }
    TakeStaysSane(n.a, n.ba[0]);
    TakeAsSender(n.a, n.b, n.ab, n.ba);
    TakeAsReceiver(n.b, n.a, n.ba, n.ab);
    TakeStaysTidy(n.a, n.ba[0]);
  }

  lemma HangUpTidies(p: Peer)
    requires Sane(p) && Tidy(p)
    ensures Sane(HangUp(p).0) && Tidy(HangUp(p).0)
  {
  }

  lemma HangUpKeeps(n: Net)
    requires Sound(n)
    ensures Sound(n.(a := HangUp(n.a).0, ab := n.ab + HangUp(n.a).1))
  {
    hide Bytes, Grants, OutText, ErrText, WellOrdered, EofAfter, HangUp, Stdout, Stderr, Order, Sane, Tidy;
    var (p, out) := HangUp(n.a);
    HangUpTidies(n.a);
    HangUpAsSender(n.a);
    HangUpAsReceiver(n.a);
    SenderKeeps(n.a, p, n.b, n.ab, n.ba, out);
    ReceiverKeeps(n.b, n.a, p, n.ba, n.ab, out);
  }

  lemma HangUpEnds(n: Net)
    requires n.ba != [] && n.ba[0] == Close && Tidy(n.a) && Ended(n.a, n.b, n.ab) && Ended(n.b, n.a, n.ba)
    ensures var (p, out) := HangUp(n.a); Ended(p, n.b, n.ab + out) && Ended(n.b, p, n.ba[1..])
  {
    var (p, out) := HangUp(n.a);
    ClosesInOrder(n.b.chan.closeRcvd, n.ab, out);
    NothingFollowsClose(n.ba[1..]);
    assert p.chan.closeRcvd && p.chan.closeSent == n.a.chan.closeSent && Close !in out && n.b.chan.closeSent;
    assert CloseOrdered(n.a.chan.closeSent, out);
    hide HangUp, Emptied, CloseOrdered;
  }

  lemma ReceiveKeeps(n: Net)
    requires Inv(n) && n.ba != []
    ensures Inv(Act(n, Receive))
  {
    PopKeeps(n);
    if n.ba[0] == Close {
      HangUpEnds(n);
      hide Flow, Sane, Tidy, HangUp, Ended;
      HangUpKeeps(Pop(n));
    }
  }

  // ---- Every run ----

  lemma StepKeeps(n: Net, s: Step)
    requires Inv(n)
    ensures Inv(Next(n, s))
  {
    hide Flow, Sane, Tidy, Ended, Act;
    var m := if s.left then n else Flip(n);
    if s.act != Receive {
      LocalKeeps(m, s.act);
    } else if m.ba != [] {
      ReceiveKeeps(m);
    } else {
      Idle(m);
    }
  }

  lemma Idle(n: Net)
    requires n.ba == []
    ensures Act(n, Receive) == n
  {
  }

  /** The invariant holds after any run from a state where it holds. */
  lemma {:induction false} RunKeeps(n: Net, steps: seq<Step>)
    requires Inv(n)
    ensures Inv(Run(n, steps))
    decreases |steps|
  {
    hide Inv, Next;
    if steps != [] {
      StepKeeps(n, steps[0]);
      RunKeeps(Next(n, steps[0]), steps[1..]);
    }
  }

  /** An end as channel_new leaves it: nothing buffered, its window untouched; a larval one has no window. */
  predicate Fresh(p: Peer) {
    var c := p.chan;
    c.input == [] && c.output == [] && c.extended == [] && !c.eofSent && !c.eofRcvd &&
    c.outputOpen && !c.writeFailed && !Closing(c) &&
    c.localWindow == c.localWindowMax < LIMIT && c.localConsumed == 0 &&
    (!c.open ==> c.localWindowMax == 0 && c.usage == Ignore && !c.efdOpen) &&
    p.src == [] && p.dst == [] && p.srcErr == [] && p.dstErr == [] && p.dropped == 0 && p.lost == 0 && p.refused == 0
  }

  /** Two fresh ends, each knowing the other's window and packet size. */
  predicate Opened(n: Net) {
    Fresh(n.a) && Fresh(n.b) && n.ab == [] && n.ba == [] && n.alarm == Quiet &&
    n.a.chan.remoteWindow == n.b.chan.localWindow && n.b.chan.remoteWindow == n.a.chan.localWindow &&
    n.a.chan.remoteMaxpacket == n.b.chan.localMaxpacket && n.b.chan.remoteMaxpacket == n.a.chan.localMaxpacket
  }

  lemma OpenedHolds(n: Net)
    requires Opened(n)
    ensures Inv(n)
  {
  }

  /** Over every run from opening: no handler raises an alarm (no overrun, no adjustment past 2^32, no stderr
      after end of file), the sender never holds more window than the receiver has left, and the two accounts of
      the window agree exactly. */
  lemma WindowConserved(n: Net, steps: seq<Step>)
    requires Opened(n)
    ensures var m := Run(n, steps);
      m.alarm == Quiet &&
      m.b.chan.localWindow == m.a.chan.remoteWindow + Bytes(m.ab) + Grants(m.ba) + m.b.refused &&
      m.b.chan.localWindow + Owed(m.b) == m.b.chan.localWindowMax < LIMIT
  {
    hide Opened, Run, Stdout, Stderr, Order, Sane, Ended, Tidy;
    OpenedHolds(n);
    RunKeeps(n, steps);
  }

  /** Over every run: what the sink has accepted is a prefix of what the source supplied. Unless the receiver gave up
      writing, nothing is dropped or lost, nothing missing and nothing reordered: what is not yet accepted is buffered
      or in flight, in order. Stderr likewise, unless some was refused. */
  lemma DeliveredInOrder(n: Net, steps: seq<Step>)
    requires Opened(n)
    ensures var m := Run(n, steps);
      m.b.dst + m.b.chan.output <= m.a.src && m.b.dstErr + Held(m.b.chan) <= m.a.srcErr &&
      (m.b.chan.outputOpen ==> !m.b.chan.writeFailed) &&
      (!m.b.chan.writeFailed ==> m.b.dropped == 0 && m.b.lost == 0) &&
      (m.b.dropped == 0 && m.b.lost == 0 ==> m.a.src == m.b.dst + m.b.chan.output + OutText(m.ab) + m.a.chan.input) &&
      (m.b.refused == 0 ==> m.a.srcErr == m.b.dstErr + Held(m.b.chan) + ErrText(m.ab) + Unsent(m.a.chan))
  {
    hide Opened, Run, Windows, Order, Sane, Ended, OutText, ErrText;
    OpenedHolds(n);
    RunKeeps(n, steps);
  }

  // ---- What a close means ----

  /** Over every run a close arrives once and last: it has been received or is in flight exactly if it was sent, and
      once received no text and no second close is in flight. */
  lemma CloseComesLast(n: Net, steps: seq<Step>)
    requires Opened(n)
    ensures var m := Run(n, steps);
      (m.a.chan.closeSent <==> m.b.chan.closeRcvd || Close in m.ab) &&
      (m.b.chan.closeRcvd ==> OutText(m.ab) == [] && ErrText(m.ab) == [] && Close !in m.ab)
  {
    OpenedHolds(n);
    RunKeeps(n, steps);
    hide Opened, Run, Flow, Sane, Tidy, OutText, ErrText;
    var m := Run(n, steps);
    if m.b.chan.closeRcvd { NothingFollowsClose(m.ab); }
  }

  /** A write of received stderr fails, which closes the descriptor and leaves the rest of it unwritten. */
  predicate FailsErr(p: Peer, act: Action) {
    act.WriteStderr? && WritesExtended(p.chan) && p.chan.extended != [] && Fails(act.result)
  }

  /** Some step of the run is such a failure at the right end. */
  predicate ErrFailed(n: Net, steps: seq<Step>)
    decreases |steps|
  {
    steps != [] && ((!steps[0].left && FailsErr(n.b, steps[0].act)) || ErrFailed(Next(n, steps[0]), steps[1..]))
  }

  /** Stderr is stuck behind a closed descriptor exactly if a write of it has failed. */
  predicate Stranded(p: Peer, failed: bool) { failed <==> Held(p.chan) != [] && !p.chan.efdOpen }

  lemma LocalStrands(p: Peer, act: Action, failed: bool)
    requires Sane(p) && Stranded(p, failed)
    ensures Stranded(Local(p, act).0, failed || FailsErr(p, act))
  {
    hide Poll, CheckWindow, WriteOutput, WriteExtended;
    match act
    case SendPoll => NoGrants(p.chan);
    case GiveBack => CheckFrame(p.chan);
    case WriteSink(r) => WriteOutputFrame(p.chan, r);
    case WriteStderr(r) => WriteStderrStrands(p, r, failed);
    case _ =>
  }

  lemma WriteOutputFrame(c: Chan, r: IoResult)
    ensures var d := WriteOutput(c, r); d.usage == c.usage && d.extended == c.extended && d.efdOpen == c.efdOpen
  {
    hide Add32;
    if c.output == [] || r == Retry {
      assert WriteOutput(c, r) == c;
    } else if Fails(r) {
      assert WriteOutput(c, r) == ShutOutput(c);
    } else {
      var k := Min(r.n, |c.output|);
      assert WriteOutput(c, r) == c.(output := c.output[k..], localConsumed := Add32(c.localConsumed, k));
    }
  }

  lemma WriteStderrStrands(p: Peer, r: IoResult, failed: bool)
    requires Stranded(p, failed)
    ensures Stranded(Local(p, WriteStderr(r)).0, failed || FailsErr(p, WriteStderr(r)))
  {
    hide Add32;
    var c, d := p.chan, Local(p, WriteStderr(r)).0.chan;
    if !WritesExtended(c) || c.extended == [] || r == Retry {
      assert d == c;
    } else if Fails(r) {
      assert d == c.(efdOpen := false);
    } else {
      var k := Min(r.n, |c.extended|);
      assert d == c.(extended := c.extended[k..], localConsumed := Add32(c.localConsumed, k));
    }
    hide Local;
  }

  lemma TakeStrands(p: Peer, m: Msg, failed: bool)
    requires Stranded(p, failed)
    ensures Stranded(Take(p, m).0, failed)
  {
    hide Take;
    TakeFrame(p, m);
    if !p.chan.efdOpen { TakeKeepsHeld(p, m); }
  }

  lemma TakeKeepsHeld(p: Peer, m: Msg)
    requires !p.chan.efdOpen
    ensures Take(p, m).0.chan.extended == p.chan.extended
  {
    hide Add32, Sub32, ReceiveData;
    match m
    case Data(d) => ReceiveDataKeepsErr(p.chan, d);
    case Extended(d) => assert ReceiveExtended(p.chan, d).0 == p.chan;
    case Adjust(k) =>
    case Eof =>
    case Close =>
  }

  lemma ActStrands(n: Net, act: Action, failed: bool)
    requires Sane(n.a) && Stranded(n.a, failed)
    ensures Stranded(Act(n, act).a, failed || FailsErr(n.a, act))
  {
    hide Local, Take, Stranded;
    if act != Receive {
      LocalStrands(n.a, act, failed);
    } else if n.ba != [] {
      TakeStrands(n.a, n.ba[0], failed);
      HangUpStrands(Pop(n).a, failed);
    }
  }

  lemma HangUpStrands(p: Peer, failed: bool)
    requires Stranded(p, failed)
    ensures Stranded(HangUp(p).0, failed)
  {
  }

  lemma RightUnmoved(n: Net, act: Action)
    ensures Act(n, act).b == n.b
  {
  }

  lemma {:induction false} RunStrands(n: Net, steps: seq<Step>, failed: bool)
    requires Inv(n) && Stranded(n.b, failed)
    ensures Stranded(Run(n, steps).b, failed || ErrFailed(n, steps))
    decreases |steps|
  {
    hide Flow, Sane, Ended, Tidy, Act, Stranded, FailsErr;
    if steps != [] {
      var s := steps[0];
      StepKeeps(n, s);
      if s.left {
        RightUnmoved(n, s.act);
        RunStrands(Next(n, s), steps[1..], failed);
      } else {
        ActStrands(Flip(n), s.act, failed);
        RunStrands(Next(n, s), steps[1..], failed || FailsErr(n.b, s.act));
      }
    }
  }

  /** Over every run, once an end that did not give up writing has sent a close, nothing more will come, and its output
      has been written out whole: what is missing is what its peer never sent. So is its stderr if and only if no write
      of it ever failed; otherwise what was left of it at the failure is left for good. */
  lemma CloseIsCleanIff(n: Net, steps: seq<Step>)
    requires Opened(n)
    ensures var m := Run(n, steps);
      m.b.chan.closeSent && !m.b.chan.writeFailed ==>
        m.b.chan.output == [] && OutText(m.ab) == [] && ErrText(m.ab) == [] && m.a.src == m.b.dst + m.a.chan.input &&
        (Held(m.b.chan) == [] <==> !ErrFailed(n, steps)) &&
        (m.b.refused == 0 ==> m.a.srcErr == m.b.dstErr + Held(m.b.chan) + Unsent(m.a.chan)) &&
        (m.b.refused == 0 ==> (m.a.srcErr == m.b.dstErr + Unsent(m.a.chan) <==> !ErrFailed(n, steps)))
  {
    OpenedHolds(n);
    RunKeeps(n, steps);
    RunStrands(n, steps, false);
    var m := Run(n, steps);
    hide Opened, Run, Windows, Sane, OutText, ErrText, ErrFailed;
    if m.b.chan.closeSent && !m.b.chan.writeFailed {
      if m.b.chan.eofRcvd { NothingFollowsEof(m.ab); } else { NothingFollowsClose(m.ab); }
      Missing(m.b.dst, m.a.chan.input);
      Seqs.Whole(m.b.dstErr + Held(m.b.chan));
      Between(m.b.dstErr, Held(m.b.chan), Unsent(m.a.chan));
    }
  }

  lemma Between(a: seq<Byte>, b: seq<Byte>, c: seq<Byte>)
    ensures a + b + c == a + c <==> b == []
  {
    Seqs.Whole(a);
    assert |a + b + c| == |a + c| + |b|;
  }

  // ---- What end of file means ----

  /** Taking a close while draining with text still unsent: end of file goes out ahead of the text. */
  predicate Cuts(n: Net, act: Action) {
    act.Receive? && n.ba != [] && n.ba[0].Close? && n.a.chan.open && n.a.chan.istate == Draining && n.a.chan.input != []
  }

  /** The same for stderr, and stderr read after end of file was sent. */
  predicate CutsErr(n: Net, act: Action) {
    var c := n.a.chan;
    (act.Receive? && n.ba != [] && n.ba[0].Close? && c.open && c.istate == Draining && Unsent(c) != []) ||
    (act.ReadStderr? && act.bytes != [] && c.open && c.efdOpen && c.usage == ReadErr && c.eofSent)
  }

  /** Some step of the run cuts the left end off. */
  predicate CutOff(n: Net, steps: seq<Step>)
    decreases |steps|
  {
    steps != [] && ((steps[0].left && Cuts(n, steps[0].act)) || CutOff(Next(n, steps[0]), steps[1..]))
  }

  predicate CutOffErr(n: Net, steps: seq<Step>)
    decreases |steps|
  {
    steps != [] && ((steps[0].left && CutsErr(n, steps[0].act)) || CutOffErr(Next(n, steps[0]), steps[1..]))
  }

  /** Once end of file is sent, text is left behind exactly if the end was cut off. */
  predicate LeftBehind(p: Peer, cut: bool, cutErr: bool) {
    if p.chan.eofSent then cut == (p.chan.input != []) && cutErr == (Unsent(p.chan) != []) else !cut && !cutErr
  }

  lemma PollLeaves(p: Peer, cut: bool, cutErr: bool)
    requires Sane(p) && LeftBehind(p, cut, cutErr)
    ensures LeftBehind(Local(p, SendPoll).0, cut, cutErr)
  {
    hide Sub32, Min;
  }

  lemma LocalLeaves(n: Net, act: Action, cut: bool, cutErr: bool)
    requires Sane(n.a) && LeftBehind(n.a, cut, cutErr) && act != Receive
    ensures LeftBehind(Local(n.a, act).0, cut || Cuts(n, act), cutErr || CutsErr(n, act))
  {
    hide Poll, CheckWindow, WriteOutput, WriteExtended;
    match act
    case SendPoll => PollLeaves(n.a, cut, cutErr);
    case GiveBack => CheckAsSender(n.a.chan);
    case WriteSink(r) => WriteOutputAsSender(n.a.chan, r);
    case WriteStderr(r) => WriteExtendedAsSender(n.a.chan, r);
    case _ =>
  }

  lemma TakeLeaves(p: Peer, m: Msg, cut: bool, cutErr: bool)
    requires LeftBehind(p, cut, cutErr)
    ensures LeftBehind(Take(p, m).0, cut, cutErr)
  {
    hide Take;
    TakeFrame(p, m);
  }

  lemma HangUpLeaves(n: Net, cut: bool, cutErr: bool)
    requires Sane(n.a) && LeftBehind(n.a, cut, cutErr) && n.ba != [] && n.ba[0].Close?
    ensures LeftBehind(HangUp(n.a).0, cut || Cuts(n, Receive), cutErr || CutsErr(n, Receive))
  {
  }

  lemma StepLeaves(n: Net, s: Step, cut: bool, cutErr: bool)
    requires Sane(n.a) && LeftBehind(n.a, cut, cutErr)
    ensures LeftBehind(Next(n, s).a, cut || (s.left && Cuts(n, s.act)), cutErr || (s.left && CutsErr(n, s.act)))
  {
    hide Local, HangUp, LeftBehind, Sane;
    if s.left {
      if s.act != Receive {
        LocalLeaves(n, s.act, cut, cutErr);
      } else if n.ba != [] && n.ba[0] == Close {
        HangUpLeaves(n, cut, cutErr);
      } else if n.ba != [] {
        TakeLeaves(n.a, n.ba[0], cut, cutErr);
      }
    }
  }

  lemma {:induction false} RunLeaves(n: Net, steps: seq<Step>, cut: bool, cutErr: bool)
    requires Inv(n) && LeftBehind(n.a, cut, cutErr)
    ensures LeftBehind(Run(n, steps).a, cut || CutOff(n, steps), cutErr || CutOffErr(n, steps))
    decreases |steps|
  {
    hide Flow, Sane, Ended, Tidy, Next, LeftBehind, Cuts, CutsErr;
    if steps != [] {
      var s := steps[0];
      StepKeeps(n, s);
      StepLeaves(n, s, cut, cutErr);
      RunLeaves(Next(n, s), steps[1..], cut || (s.left && Cuts(n, s.act)), cutErr || (s.left && CutsErr(n, s.act)));
    }
  }

  /** Over every run, end of file received by an end that has sent no close means that nothing more will come: nothing
      is unsent or in flight, and unless bytes were dropped or lost the end holds all the source supplied. */
  lemma EofBeforeClose(n: Net, steps: seq<Step>)
    requires Opened(n)
    ensures var m := Run(n, steps);
      m.b.chan.eofRcvd && !m.b.chan.closeSent ==>
        m.a.chan.input == [] && OutText(m.ab) == [] && Unsent(m.a.chan) == [] && ErrText(m.ab) == [] &&
        (m.b.dropped == 0 && m.b.lost == 0 ==> m.a.src == m.b.dst + m.b.chan.output) &&
        (m.b.refused == 0 ==> m.a.srcErr == m.b.dstErr + Held(m.b.chan))
  {
    OpenedHolds(n);
    RunKeeps(n, steps);
    hide Opened, Run, Windows, Tidy, CloseOrdered, OutText, ErrText;
    var m := Run(n, steps);
    if m.b.chan.eofRcvd && !m.b.chan.closeSent {
      NothingFollowsEof(m.ab);
      Missing(m.b.dst + m.b.chan.output, []);
      Missing(m.b.dstErr + Held(m.b.chan), []);
    }
  }

  /** And after it has sent a close: nothing is in flight, and nothing is left unsent if and only if no close found the
      sender draining with text unsent (for stderr also: and none was read later). So a receiver that has written
      everything out and dropped nothing has exactly what the source supplied, if and only if the sender was not cut
      off. */
  lemma EofIsComplete(n: Net, steps: seq<Step>)
    requires Opened(n)
    ensures var m := Run(n, steps);
      m.b.chan.eofRcvd ==>
        OutText(m.ab) == [] == ErrText(m.ab) &&
        (m.a.chan.input == [] <==> !CutOff(n, steps)) && (Unsent(m.a.chan) == [] <==> !CutOffErr(n, steps)) &&
        (m.b.dropped == 0 && m.b.lost == 0 && m.b.chan.output == [] ==> (m.b.dst == m.a.src <==> !CutOff(n, steps))) &&
        (m.b.refused == 0 && Held(m.b.chan) == [] ==> (m.b.dstErr == m.a.srcErr <==> !CutOffErr(n, steps)))
  {
    OpenedHolds(n);
    RunKeeps(n, steps);
    RunLeaves(n, steps, false, false);
    hide Opened, Run, Windows, Ended, Tidy, OutText, ErrText, CutOff, CutOffErr;
    var m := Run(n, steps);
    if m.b.chan.eofRcvd {
      NothingFollowsEof(m.ab);
      Missing(m.b.dst, m.a.chan.input);
      Missing(m.b.dstErr, Unsent(m.a.chan));
    }
  }

  lemma Missing(got: seq<Byte>, rest: seq<Byte>)
    ensures got + [] + [] + rest == got + rest && (got + rest == got <==> rest == [])
  {
    Seqs.Whole(got);
    assert |got + rest| == |got| + |rest|;
  }

  lemma {:induction false} RunConcat(n: Net, s: seq<Step>, t: seq<Step>)
    ensures Run(n, s + t) == Run(Run(n, s), t)
    decreases |s|
  {
    hide Next;
    if s == [] {
      assert s + t == t;
    } else {
      RunConcat(Next(n, s[0]), s[1..], t);
      assert (s + t)[0] == s[0] && (s + t)[1..] == s[1..] + t;
    }
  }

  lemma One(n: Net, s: Step)
    ensures Run(n, [s]) == Next(n, s)
  {
    hide Next;
    assert [s][1..] == [];
  }

  /** The right end says end of file, gives up on its output and closes. */
  const GIVE_UP: seq<Step> :=
    [Step(false, SourceEof), Step(false, SendPoll), Step(false, ShutSink), Step(false, SendClose)]

  lemma GivesUp(n: Net)
    requires n.ba == [] && n.b.chan.open && n.b.chan.istate == Reading && n.b.chan.input == []
    requires !Closing(n.b.chan) && !EfdInputActive(n.b.chan)
    ensures var m := Run(n, GIVE_UP);
      m.a == n.a && m.ab == n.ab && m.ba == [Eof, Close] && m.b.dst == n.b.dst && m.b.chan.output == []
  {
    Four(n, GIVE_UP[0], GIVE_UP[1], GIVE_UP[2], GIVE_UP[3]);
    hide Run, Next;
    SaysEof(n);
    ShutsAndCloses(Next(Next(n, GIVE_UP[0]), GIVE_UP[1]));
  }

  lemma SaysEof(n: Net)
    requires n.ba == [] && n.b.chan.open && n.b.chan.istate == Reading && n.b.chan.input == []
    requires !Closing(n.b.chan) && !EfdInputActive(n.b.chan)
    ensures Next(Next(n, Step(false, SourceEof)), Step(false, SendPoll)) ==
      n.(b := n.b.(chan := n.b.chan.(istate := Finished, eofSent := true)), ba := [Eof])
  {
    var m := Next(n, Step(false, SourceEof));
    assert m == n.(b := n.b.(chan := n.b.chan.(istate := Draining)));
    EofPolled(m.b.chan);
    hide Poll;
  }

  lemma ShutsAndCloses(n: Net)
    requires n.ba == [Eof] && n.b.chan.istate == Finished && !n.b.chan.closeSent
    ensures var m := Next(Next(n, Step(false, ShutSink)), Step(false, SendClose));
      m.a == n.a && m.ab == n.ab && m.ba == [Eof, Close] && m.b.dst == n.b.dst && m.b.chan.output == []
  {
    hide EfdOutputActive;
  }

  lemma EofPolled(c: Chan)
    requires c.open && c.istate == Draining && c.input == [] && !Closing(c) && !EfdInputActive(c)
    ensures Poll(c) == (c.(istate := Finished, eofSent := true), [Eof])
  {
    assert [Eof] + [] == [Eof];
  }

  /** Meanwhile the left end reads one byte to the end of its source, and then takes what was sent. */
  function CutShort(x: Byte): seq<Step> {
    [Step(true, ReadSource([x])), Step(true, SourceEof), Step(true, Receive), Step(true, Receive)]
  }

  lemma IsCutShort(n: Net, x: Byte)
    requires n.ab == [] && n.ba == [Eof, Close] && n.a.chan.open && n.a.chan.istate == Reading
    requires n.a.chan.input == [] == n.a.src
    ensures var m := Run(n, CutShort(x));
      m.b == n.b && m.ab == [Eof] && m.a.chan.input == [x] == m.a.src
  {
    var s := CutShort(x);
    var n1 := Next(n, s[0]);
    assert n1.a.chan == n.a.chan.(input := [x]) && n1.a.src == [x] && n1.ab == [] && n1.ba == n.ba && n1.b == n.b;
    var n2 := Next(n1, s[1]);
    assert n2.a == n1.a.(chan := n1.a.chan.(istate := Draining)) && n2.ab == [] && n2.ba == n.ba && n2.b == n.b;
    var n3 := Next(n2, s[2]);
    assert n3.a == n2.a.(chan := ReceiveEof(n2.a.chan)) && n3.ab == [] && n3.ba == [Close] && n3.b == n.b;
    var n4 := Next(n3, s[3]);
    assert n4.ab == [Eof] && n4.a.chan.input == [x] && n4.a.src == [x] && n4.b == n.b;
    hide Next;
    Four(n, s[0], s[1], s[2], s[3]);
  }

  lemma TakesEof(n: Net)
    requires n.ab == [Eof]
    ensures Next(n, Step(false, Receive)) == n.(b := n.b.(chan := ReceiveEof(n.b.chan)), ab := [])
  {
  }

  /** And a sender can be cut off: it takes a close while it still holds a byte of an ended source, and end of file
      arrives without that byte. */
  lemma EofBeforeText(n: Net, x: Byte)
    requires Opened(n) && n.a.chan.open && n.a.chan.istate == Reading
    requires n.b.chan.open && n.b.chan.istate == Reading && !EfdInputActive(n.b.chan)
    ensures var m := Run(n, GIVE_UP + (CutShort(x) + [Step(false, Receive)]));
      m.b.chan.eofRcvd && m.a.chan.input == [x] == m.a.src && m.b.dst == [] && m.b.chan.output == [] && m.ab == []
  {
    GivesUp(n);
    var n1 := Run(n, GIVE_UP);
    IsCutShort(n1, x);
    hide Next, Run;
    var n2, last := Run(n1, CutShort(x)), Step(false, Receive);
    TakesEof(n2);
    One(n2, last);
    RunConcat(n1, CutShort(x), [last]);
    RunConcat(n, GIVE_UP, CutShort(x) + [last]);
  }

  /** The left end sends one byte of stderr, which the right end takes and fails to write. */
  function FailedWrite(x: Byte): seq<Step> {
    [Step(true, ReadStderr([x])), Step(true, SendPoll), Step(false, Receive), Step(false, WriteStderr(Failed))]
  }

  lemma FailsToWrite(n: Net, x: Byte)
    requires n.ab == [] && Talks(n.a.chan) && n.a.chan.extended == [] && n.a.chan.efdOpen && !n.a.chan.eofSent
    requires n.a.chan.usage == ReadErr && 0 < n.a.chan.remoteWindow < LIMIT && n.a.chan.remoteMaxpacket > 0
    requires n.b.chan.open && TakesExtended(n.b.chan) && !n.b.chan.writeFailed && !n.b.chan.eofRcvd
    requires n.b.chan.extended == [] && 0 < n.b.chan.localWindow < LIMIT
    ensures var m := Run(n, FailedWrite(x));
      m.ab == [] && m.ba == n.ba && m.a.srcErr == n.a.srcErr + [x] && m.b.dstErr == n.b.dstErr &&
      m.a.chan == n.a.chan.(remoteWindow := n.a.chan.remoteWindow - 1) && m.b.refused == n.b.refused &&
      m.b.chan == n.b.chan.(localWindow := n.b.chan.localWindow - 1, extended := [x], efdOpen := false)
  {
    var s := FailedWrite(x);
    Four(n, s[0], s[1], s[2], s[3]);
    hide Run, Next;
    SendsErr(n, x);
    TakesAndFails(Next(Next(n, s[0]), s[1]), x);
  }

  lemma SendsErr(n: Net, x: Byte)
    requires n.ab == [] && Talks(n.a.chan) && n.a.chan.extended == [] && n.a.chan.efdOpen && !n.a.chan.eofSent
    requires n.a.chan.usage == ReadErr && 0 < n.a.chan.remoteWindow < LIMIT && n.a.chan.remoteMaxpacket > 0
    ensures Next(Next(n, Step(true, ReadStderr([x]))), Step(true, SendPoll)) ==
      n.(a := n.a.(chan := n.a.chan.(remoteWindow := n.a.chan.remoteWindow - 1), srcErr := n.a.srcErr + [x]),
         ab := [Extended([x])])
  {
    var c := n.a.chan.(extended := [x]);
    var m := Next(n, Step(true, ReadStderr([x])));
    assert m == n.(a := n.a.(chan := c, srcErr := n.a.srcErr + [x]));
    ErrPolled(c, x);
    hide Poll;
  }

  lemma TakesAndFails(n: Net, x: Byte)
    requires n.ab == [Extended([x])] && n.b.chan.open && TakesExtended(n.b.chan) && !n.b.chan.writeFailed
    requires !n.b.chan.eofRcvd && n.b.chan.extended == [] && 0 < n.b.chan.localWindow < LIMIT
    ensures var m := Next(Next(n, Step(false, Receive)), Step(false, WriteStderr(Failed)));
      m.a == n.a && m.ab == [] && m.ba == n.ba && m.b.dstErr == n.b.dstErr && m.b.refused == n.b.refused &&
      m.b.chan == n.b.chan.(localWindow := n.b.chan.localWindow - 1, extended := [x], efdOpen := false)
  {
    var c := n.b.chan;
    var d := c.(localWindow := c.localWindow - 1, extended := [x]);
    assert c.extended + [x] == [x] && Sub32(c.localWindow, 1) == c.localWindow - 1;
    assert ReceiveExtended(c, [x]) == (d, Quiet);
    assert Take(n.b, Extended([x])).0 == n.b.(chan := d);
    assert WriteExtended(d, Failed) == d.(efdOpen := false);
    hide Take, WriteExtended;
    var m := Next(n, Step(false, Receive));
    assert m.b == n.b.(chan := d) && m.a == n.a && m.ab == [] && m.ba == n.ba;
    Seqs.Whole(n.b.dstErr);
  }

  /** The end is open, reads, has nothing to send and is not closing. */
  predicate Talks(c: Chan) { c.open && c.istate == Reading && c.input == [] && !Closing(c) }

  lemma ErrPolled(c: Chan, x: Byte)
    requires Talks(c) && c.extended == [x] && c.usage == ReadErr && !c.eofSent
    requires 0 < c.remoteWindow < LIMIT && c.remoteMaxpacket > 0
    ensures Poll(c) == (c.(extended := [], remoteWindow := c.remoteWindow - 1), [Extended([x])])
  {
    assert [x][..1] == [x] && [x][1..] == [];
    assert [] + [Extended([x])] == [Extended([x])];
  }

  /** The left end has no more to send and says so. */
  const ALL_SENT: seq<Step> :=
    [Step(true, StderrEof), Step(true, SourceEof), Step(true, SendPoll), Step(false, Receive)]

  lemma SendsAll(n: Net)
    requires n.ab == [] && Talks(n.a.chan) && n.a.chan.extended == [] && n.a.chan.usage == ReadErr
    ensures var m := Run(n, ALL_SENT);
      m.ab == [] && m.ba == n.ba && m.a.srcErr == n.a.srcErr && m.b == n.b.(chan := ReceiveEof(n.b.chan)) &&
      m.a.chan == n.a.chan.(efdOpen := false, istate := Finished, eofSent := true)
  {
    Four(n, ALL_SENT[0], ALL_SENT[1], ALL_SENT[2], ALL_SENT[3]);
    EndsBoth(n);
    var c := n.a.chan.(efdOpen := false, istate := Draining);
    var n2 := n.(a := n.a.(chan := c));
    EofPolled(c);
    var n3 := n.(a := n.a.(chan := c.(istate := Finished, eofSent := true)), ab := [Eof]);
    assert Next(n2, ALL_SENT[2]) == n3 by { hide Poll; }
    TakesEof(n3);
    hide Next, Run;
  }

  lemma EndsBoth(n: Net)
    requires Talks(n.a.chan) && n.a.chan.usage == ReadErr
    ensures Next(Next(n, Step(true, StderrEof)), Step(true, SourceEof)) ==
      n.(a := n.a.(chan := n.a.chan.(efdOpen := false, istate := Draining)))
  {
    var m := Next(n, Step(true, StderrEof));
    assert m == n.(a := n.a.(chan := n.a.chan.(efdOpen := false)));
  }

  /** The right end has nothing to send either, and closes. */
  const WIND_UP: seq<Step> :=
    [Step(false, SourceEof), Step(false, SendPoll), Step(true, Receive), Step(false, SendClose)]

  lemma WindsUp(n: Net)
    requires n.ba == [] && n.ab == [] && Talks(n.b.chan) && !EfdInputActive(n.b.chan)
    requires n.b.chan.eofRcvd && OutputOver(n.b.chan)
    ensures var m := Run(n, WIND_UP);
      m.b == n.b.(chan := n.b.chan.(istate := Finished, eofSent := true, closeSent := true)) &&
      m.a.srcErr == n.a.srcErr
  {
    Four(n, WIND_UP[0], WIND_UP[1], WIND_UP[2], WIND_UP[3]);
    SaysEof(n);
    var n2 := Next(Next(n, WIND_UP[0]), WIND_UP[1]);
    var n3 := Next(n2, WIND_UP[2]);
    assert n3 == n2.(a := n2.a.(chan := ReceiveEof(n2.a.chan)), ba := []);
    assert OutputOver(n3.b.chan);
    hide OutputOver;
    var n4 := Next(n3, WIND_UP[3]);
    assert n4.b == n3.b.(chan := n3.b.chan.(closeSent := true));
    hide Next, Run;
  }

  /** A run in which that happens: both ends finish and one closes, never having given up its output, with one byte of
      stderr received and never to be written. */
  lemma CloseStrandsStderr(n: Net, x: Byte)
    requires Opened(n) && Talks(n.a.chan) && Talks(n.b.chan)
    requires n.a.chan.usage == ReadErr && n.a.chan.efdOpen && n.a.chan.remoteWindow > 0 && n.a.chan.remoteMaxpacket > 0
    requires TakesExtended(n.b.chan)
    ensures var m := Run(n, FailedWrite(x) + (ALL_SENT + WIND_UP));
      m.b.chan.closeSent && !m.b.chan.writeFailed && Held(m.b.chan) == [x] == m.a.srcErr && m.b.dstErr == [] &&
      m.b.refused == 0
  {
    FailsToWrite(n, x);
    var n1 := Run(n, FailedWrite(x));
    SendsAll(n1);
    var n2 := Run(n1, ALL_SENT);
    WindsUp(n2);
    hide Run;
    RunConcat(n1, ALL_SENT, WIND_UP);
    RunConcat(n, FailedWrite(x), ALL_SENT + WIND_UP);
  }

  lemma Four(n: Net, s1: Step, s2: Step, s3: Step, s4: Step)
    ensures Run(n, [s1, s2, s3, s4]) == Next(Next(Next(Next(n, s1), s2), s3), s4)
  {
    hide Next;
    var n1, n2, n3 := Next(n, s1), Next(Next(n, s1), s2), Next(Next(Next(n, s1), s2), s3);
    assert [s4][1..] == [];
    assert Run(n3, [s4]) == Next(n3, s4);
    assert [s3, s4][1..] == [s4];
    assert Run(n2, [s3, s4]) == Next(n3, s4);
    assert [s2, s3, s4][1..] == [s3, s4];
    assert Run(n1, [s2, s3, s4]) == Next(n3, s4);
    assert [s1, s2, s3, s4][1..] == [s2, s3, s4];
  }

  lemma {:induction false} NothingFollowsEof(q: seq<Msg>)
    requires WellOrdered(true, q)
    ensures EofAfter(true, q) && OutText(q) == [] && ErrText(q) == []
  {
    if q != [] {
      NothingFollowsEof(q[1..]);
    }
  }
}
