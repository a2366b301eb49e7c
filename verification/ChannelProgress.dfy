/** Progress of channel flow control: exactly when the window comes back, that it never does otherwise, and that
    everything a source has supplied can be delivered. The left end receives and the right one sends. */
module ChannelProgress {
  import opened ChannelFlow
  import opened ChannelRuns
  import Seqs

  // ---- The threshold ----

  /** Received stderr behind a descriptor that is closed or no longer polled: no step will ever write it. */
  function Stuck(c: Chan): nat { if WritesExtended(c) then 0 else |Held(c)| }

  /** Nothing is left that could be written. */
  predicate Drained(c: Chan) { c.output == [] && (Held(c) == [] || !WritesExtended(c)) }

  /** Window leaks when stderr is refused, when a failed write loses bytes and when stderr is stuck. Not all of the
      window has leaked, and with only the refused part left of it the test of channel_check_window passes. The
      product wraps at 2^32. */
  predicate Reopenable(p: Peer) {
    var c := p.chan;
    p.refused + p.lost + Stuck(c) < c.localWindowMax &&
    (c.localWindowMax - p.refused > c.localMaxpacket * 3 % LIMIT || p.refused < c.localWindowMax / 2)
  }

  /** Nothing in flight, nothing left to write, and the sender's window used up. */
  predicate AtRest(n: Net) {
    Inv(n) && n.ab == [] && n.ba == [] && n.b.chan.remoteWindow == 0 &&
    n.a.chan.open && !Closing(n.a.chan) && Drained(n.a.chan)
  }

  /** Then the receiver gives window back if and only if it is reopenable. */
  lemma StalledIff(n: Net)
    requires AtRest(n)
    ensures WantsAdjust(n.a.chan) <==> Reopenable(n.a)
  {
    NoMessage(false);
    hide Stdout, Stderr, Order, Sane, Ended, Tidy;
  }

  /** Without leaks: every window of at least two bytes is given back. A window of one byte is not, except when
      three times the maximum packet size happens to wrap to zero. */
  lemma UnleakedIff(n: Net)
    requires AtRest(n) && n.a.refused == 0 && n.a.lost == 0 && Held(n.a.chan) == []
    ensures WantsAdjust(n.a.chan) <==>
      n.a.chan.localWindowMax >= 2 || (n.a.chan.localWindowMax == 1 && n.a.chan.localMaxpacket * 3 % LIMIT == 0)
  {
    StalledIff(n);
    hide Inv, WantsAdjust;
  }

  /** Over every run: what is left of the receiver's window, counted on the sender's side, decides alone whether window
      is given back, and then all that was consumed is; otherwise nothing happens. */
  lemma GivesBackIff(n: Net, steps: seq<Step>)
    requires Opened(n)
    ensures var m := Run(n, steps);
      var c, left := m.a.chan, m.b.chan.remoteWindow + Bytes(m.ba) + Grants(m.ab) + m.a.refused;
      Next(m, Step(true, GiveBack)) ==
        if c.open && !c.closeSent && !c.closeRcvd && c.localConsumed > 0 &&
           (c.localWindowMax - left > c.localMaxpacket * 3 % LIMIT || left < c.localWindowMax / 2)
        then m.(a := m.a.(chan := c.(localWindow := left + c.localConsumed, localConsumed := 0)),
                ab := m.ab + [Adjust(c.localConsumed)])
        else m
  {
    OpenedHolds(n);
    RunKeeps(n, steps);
    var m := Run(n, steps);
    WindowLeft(m);
    hide Run, Opened, Inv, Bytes, Grants;
    ChecksWindow(m.a.chan);
    GiveBackStep(m);
    hide CheckWindow, Next;
  }

  lemma WindowLeft(n: Net)
    requires Inv(n)
    ensures n.a.chan.localWindow == n.b.chan.remoteWindow + Bytes(n.ba) + Grants(n.ab) + n.a.refused
    ensures n.a.chan.localWindow + n.a.chan.localConsumed <= n.a.chan.localWindowMax < LIMIT
  {
    hide Stdout, Stderr, Order, Sane, Ended, Tidy, Bytes, Grants;
  }

  lemma GiveBackStep(n: Net)
    ensures var (c, out) := CheckWindow(n.a.chan);
      Next(n, Step(true, GiveBack)) ==
        if out == [] then n.(a := n.a.(chan := c)) else n.(a := n.a.(chan := c), ab := n.ab + out)
  {
    hide CheckWindow;
    Seqs.Whole(n.ab);
  }

  lemma ChecksWindow(c: Chan)
    requires c.localWindow + c.localConsumed <= c.localWindowMax < LIMIT
    ensures CheckWindow(c) ==
      if c.open && !c.closeSent && !c.closeRcvd && c.localConsumed > 0 &&
         (c.localWindowMax - c.localWindow > c.localMaxpacket * 3 % LIMIT || c.localWindow < c.localWindowMax / 2)
      then (c.(localWindow := c.localWindow + c.localConsumed, localConsumed := 0), [Adjust(c.localConsumed)])
      else (c, [])
  {
  }

  // ---- Rounds ----

  /** The end has dropped nothing, and drops nothing that may still come: its output is open, or end of file is in. */
  predicate Listening(p: Peer) { p.dropped == 0 && (p.chan.outputOpen || p.chan.eofRcvd) }

  /** What an end keeps while it catches up. */
  predicate Kept(p: Peer, q: Peer) {
    (Listening(p) ==> Listening(q)) &&
    q.chan.open == p.chan.open && Closing(q.chan) == Closing(p.chan) && q.lost == p.lost && q.refused == p.refused &&
    q.chan.localWindowMax == p.chan.localWindowMax && q.chan.localMaxpacket == p.chan.localMaxpacket &&
    WritesExtended(q.chan) == WritesExtended(p.chan) && (!WritesExtended(p.chan) ==> Held(q.chan) == Held(p.chan))
  }

  /** Whether stderr on its way will be taken. */
  predicate StderrTaken(p: Peer, q: seq<Msg>) { WritesExtended(p.chan) || ErrText(q) == [] }

  lemma DataKept(p: Peer, d: seq<Byte>)
    requires p.chan.open && !p.chan.eofRcvd && |d| <= p.chan.localWindow
    ensures Kept(p, Take(p, Data(d)).0)
  {
    hide Add32, Sub32;
    var c, w := p.chan, Sub32(p.chan.localWindow, |d|);
    if c.outputOpen {
      assert ReceiveData(c, d) == (c.(localWindow := w, output := c.output + d), Quiet);
    } else {
      assert ReceiveData(c, d) == (c.(localWindow := w, localConsumed := Add32(c.localConsumed, |d|)), Quiet);
    }
    hide ReceiveData;
  }

  lemma ExtendedKept(p: Peer, d: seq<Byte>)
    requires p.chan.open && !p.chan.eofRcvd && |d| <= p.chan.localWindow && (WritesExtended(p.chan) || d == [])
    ensures Kept(p, Take(p, Extended(d)).0)
  {
    hide Add32, Sub32;
    var c := p.chan;
    Seqs.Whole(c.extended);
    if TakesExtended(c) {
      assert ReceiveExtended(c, d) == (c.(localWindow := Sub32(c.localWindow, |d|), extended := c.extended + d), Quiet);
    } else {
      assert ReceiveExtended(c, d) == (c, Quiet);
    }
    hide ReceiveExtended;
  }

  lemma OtherKept(p: Peer, m: Msg)
    requires !m.Data? && !m.Extended?
    ensures Kept(p, Take(p, m).0)
  {
    hide Add32;
  }

  lemma TakeKept(n: Net)
    requires Inv(n) && n.a.chan.open && n.ba != [] && StderrTaken(n.a, n.ba)
    ensures var p := Take(n.a, n.ba[0]).0; Kept(n.a, p) && StderrTaken(p, n.ba[1..])
  {
    hide Bytes, Grants, OutText, ErrText, WellOrdered, EofAfter, Kept, Take;
    Popped(n.ba, n.a.chan.eofRcvd);
    match n.ba[0] {
      case Data(d) =>
        DataAccounts(n.b, n.a, n.ba, n.ab);
        DataKept(n.a, d);
      case Extended(d) =>
        ExtendedAccounts(n.b, n.a, n.ba, n.ab);
        ExtendedKept(n.a, d);
      case _ => OtherKept(n.a, n.ba[0]);
    }
    StillTaken(n.a, Take(n.a, n.ba[0]).0, n.ba[1..]);
  }

  lemma StillTaken(p: Peer, q: Peer, rest: seq<Msg>)
    requires Kept(p, q) && StderrTaken(p, rest)
    ensures StderrTaken(q, rest)
  {
  }

  /** The left end takes everything sent to it. */
  lemma {:induction false} CatchUp(n: Net) returns (steps: seq<Step>)
    requires Inv(n) && n.a.chan.open && StderrTaken(n.a, n.ba) && Close !in n.ba
    ensures var m := Run(n, steps); Inv(m) && m.ba == [] && m.ab == n.ab && m.b == n.b && Kept(n.a, m.a)
    decreases |n.ba|
  {
    hide Flow, Held, WritesExtended;
    if n.ba == [] {
      steps := [];
    } else {
      var s := Step(true, Receive);
      StepKeeps(n, s);
      TakeKept(n);
      var rest := CatchUp(Next(n, s));
      steps := [s] + rest;
      RunConcat(n, [s], rest);
      One(n, s);
    }
  }

  lemma WritesAll(n: Net)
    ensures var m := Next(n, Step(true, WriteSink(Wrote(|n.a.chan.output|))));
      m.b == n.b && m.ba == n.ba && Kept(n.a, m.a) && m.a.chan.output == []
  {
    hide Add32;
    var c, k := n.a.chan, |n.a.chan.output|;
    if c.output == [] {
      assert WriteOutput(c, Wrote(k)) == c;
    } else {
      assert WriteOutput(c, Wrote(k)) == c.(output := [], localConsumed := Add32(c.localConsumed, k));
    }
    hide WriteOutput;
  }

  lemma WritesAllStderr(n: Net)
    requires n.a.chan.output == []
    ensures var m := Next(n, Step(true, WriteStderr(Wrote(|n.a.chan.extended|))));
      m.b == n.b && m.ba == n.ba && Kept(n.a, m.a) && Drained(m.a.chan)
  {
    hide Add32;
  }

  /** Giving back changes no buffer and no leak. */
  lemma CheckKept(p: Peer)
    ensures var q := Local(p, GiveBack).0; Kept(p, q) && (Drained(p.chan) ==> Drained(q.chan))
  {
    hide Add32, WantsAdjust;
  }

  /** And it leaves the receiver with window to spare, if it is reopenable. */
  lemma CheckSpares(p: Peer)
    requires p.chan.open && !Closing(p.chan) && Reopenable(p) && p.refused <= p.chan.localWindow
    requires p.chan.localWindow + p.chan.localConsumed + p.lost + Stuck(p.chan) == p.chan.localWindowMax < LIMIT
    ensures Local(p, GiveBack).0.chan.localWindow > p.refused
  {
    hide Stuck;
  }

  lemma GivesBack(n: Net)
    requires Inv(n) && n.a.chan.open && !Closing(n.a.chan) && Drained(n.a.chan)
    ensures var m := Next(n, Step(true, GiveBack));
      m.b == n.b && m.ba == n.ba && Kept(n.a, m.a) && Drained(m.a.chan) &&
      (Reopenable(n.a) ==> m.a.chan.localWindow > m.a.refused)
  {
    CheckKept(n.a);
    if Reopenable(n.a) { CheckSpares(n.a); }
    hide Stdout, Stderr, Order, Sane, Ended, Tidy, Local;
  }

  lemma KeptTwice(p: Peer, q: Peer, r: Peer)
    requires Kept(p, q) && Kept(q, r)
    ensures Kept(p, r) && Reopenable(q) == Reopenable(p)
  {
  }

  /** The left end writes out what it can and gives back what it may. */
  lemma Flush(n: Net) returns (steps: seq<Step>)
    requires Inv(n) && n.a.chan.open && !Closing(n.a.chan)
    ensures var m := Run(n, steps);
      Inv(m) && m.ba == n.ba && m.b == n.b && Kept(n.a, m.a) && Drained(m.a.chan) &&
      (Reopenable(n.a) ==> m.a.chan.localWindow > m.a.refused)
  {
    hide Inv, Next, Run, Reopenable, Drained, Held, WritesExtended;
    var s1 := Step(true, WriteSink(Wrote(|n.a.chan.output|)));
    var n1 := Next(n, s1);
    StepKeeps(n, s1);
    WritesAll(n);
    var s2 := Step(true, WriteStderr(Wrote(|n1.a.chan.extended|)));
    var n2 := Next(n1, s2);
    StepKeeps(n1, s2);
    WritesAllStderr(n1);
    var s3 := Step(true, GiveBack);
    var n3 := Next(n2, s3);
    StepKeeps(n2, s3);
    GivesBack(n2);
    KeptTwice(n.a, n1.a, n2.a);
    KeptTwice(n.a, n2.a, n3.a);
    steps := [s1] + ([s2] + [s3]);
    RunConcat(n, [s1], [s2] + [s3]);
    RunConcat(n1, [s2], [s3]);
    One(n, s1);
    One(n1, s2);
    One(n2, s3);
  }

  /** What an end has to send, and may send, is as it was. */
  predicate SenderKept(p: Peer, q: Peer) {
    q.src == p.src && q.srcErr == p.srcErr && q.chan.input == p.chan.input && Unsent(q.chan) == Unsent(p.chan) &&
    q.chan.istate == p.chan.istate && q.chan.open == p.chan.open && Closing(q.chan) == Closing(p.chan) &&
    q.chan.remoteMaxpacket == p.chan.remoteMaxpacket
  }

  lemma TakeKeepsSender(p: Peer, m: Msg)
    ensures SenderKept(p, Take(p, m).0)
  {
    hide Take;
    TakeFrame(p, m);
  }

  /** The right end takes everything sent to it; the left end is not disturbed. */
  lemma {:induction false} OtherCatchesUp(n: Net) returns (steps: seq<Step>)
    requires Inv(n) && Close !in n.ab
    ensures var m := Run(n, steps); Inv(m) && m.ab == [] && m.ba == n.ba && m.a == n.a && SenderKept(n.b, m.b)
    decreases |n.ab|
  {
    hide Flow;
    if n.ab == [] {
      steps := [];
    } else {
      var s := Step(false, Receive);
      StepKeeps(n, s);
      TakeKeepsSender(n.b, n.ab[0]);
      var rest := OtherCatchesUp(Next(n, s));
      steps := [s] + rest;
      RunConcat(n, [s], rest);
      One(n, s);
    }
  }

  /** One round: the receiver takes, writes and gives back everything it can, and the sender hears of it. */
  lemma Round(n: Net) returns (steps: seq<Step>)
    requires Inv(n) && n.a.chan.open && !Closing(n.a.chan) && StderrTaken(n.a, n.ba) && Close !in n.ba
    ensures var m := Run(n, steps);
      Inv(m) && m.ba == [] && Kept(n.a, m.a) && SenderKept(n.b, m.b) && Drained(m.a.chan) &&
      (Reopenable(n.a) ==> m.b.chan.remoteWindow > 0)
  {
    hide Run, Inv, Reopenable, Drained, Held, WritesExtended;
    var s1 := CatchUp(n);
    var n1 := Run(n, s1);
    var s2 := Flush(n1);
    var n2 := Run(n1, s2);
    NoCloseSent(n2);
    var s3 := OtherCatchesUp(n2);
    steps := s1 + (s2 + s3);
    RunConcat(n, s1, s2 + s3);
    RunConcat(n1, s2, s3);
    KeptTwice(n.a, n1.a, n2.a);
    LeftOver(Run(n2, s3));
  }

  lemma NoCloseSent(n: Net)
    requires Inv(n) && !Closing(n.a.chan)
    ensures Close !in n.ab && (!Closing(n.b.chan) ==> Close !in n.ba)
  {
    hide Flow, Sane, Tidy, Emptied, CloseOrdered;
  }

  /** With nothing in flight the sender has what is left of the window, less what was refused. */
  lemma LeftOver(n: Net)
    requires Inv(n) && n.ab == [] && n.ba == []
    ensures n.a.chan.localWindow == n.b.chan.remoteWindow + n.a.refused
  {
    NoMessage(false);
    hide Stdout, Stderr, Order, Sane, Ended, Tidy;
  }

  // ---- No deadlock ----

  /** From any state a run can reach in which the receiver is open and reopenable and neither has closed nor is about to
      hear a close, some continuation leaves the sender with room. */
  lemma NoDeadlock(n: Net, steps: seq<Step>) returns (more: seq<Step>)
    requires Opened(n)
    ensures var m := Run(n, steps);
      m.a.chan.open && !Closing(m.a.chan) && Close !in m.ba && StderrTaken(m.a, m.ba) && Reopenable(m.a) ==>
        Run(m, more).b.chan.remoteWindow > 0
  {
    hide Opened, Inv, Run, StderrTaken, Reopenable;
    OpenedHolds(n);
    RunKeeps(n, steps);
    var m := Run(n, steps);
    more := [];
    if m.a.chan.open && !Closing(m.a.chan) && Close !in m.ba && StderrTaken(m.a, m.ba) && Reopenable(m.a) {
      more := Round(m);
    }
  }

  // ---- A stall is permanent ----

  /** The sender has no window, none is on its way, and the receiver has nothing it would give back. */
  predicate Stalled(n: Net) {
    Inv(n) && n.b.chan.remoteWindow == 0 && Bytes(n.ba) == 0 && Grants(n.ab) == 0 && Idling(n.a.chan)
  }

  /** The receiver's part of a stall. */
  predicate Idling(c: Chan) { c.open && Drained(c) && !WantsAdjust(c) }

  lemma StalledLocally(p: Peer, act: Action)
    requires Idling(p.chan)
    ensures Idling(Local(p, act).0.chan) && Grants(Local(p, act).1) == 0
  {
    hide Grants;
    NoMessage(false);
    match act
    case SendPoll => StalledPolls(p);
    case SendClose =>
      OneMessage(Close, false);
      hide Sub32, Mul32, OutputOver;
    case WriteSink(_) => IdleWrites(p, act);
    case WriteStderr(_) => IdleWrites(p, act);
    case GiveBack => IdleWrites(p, act);
    case Start(_, _, _) => hide Idling;
    case _ => IdleReads(p, act);
  }

  lemma StalledPolls(p: Peer)
    requires Idling(p.chan)
    ensures Idling(Local(p, SendPoll).0.chan) && Grants(Local(p, SendPoll).1) == 0
  {
    hide Grants, Poll, Sub32, Mul32;
    NoGrants(p.chan);
    PollFinishes(p);
  }

  lemma IdleWrites(p: Peer, act: Action)
    requires Idling(p.chan) && (act.WriteSink? || act.WriteStderr? || act.GiveBack?)
    ensures Local(p, act).0.chan == p.chan && Local(p, act).1 == []
  {
    hide Add32, Sub32, Mul32;
    match act
    case WriteSink(r) => assert WriteOutput(p.chan, r) == p.chan;
    case WriteStderr(r) => assert WritesExtended(p.chan) ==> WriteExtended(p.chan, r) == p.chan;
    case GiveBack => assert CheckWindow(p.chan) == (p.chan, []);
  }

  lemma IdleReads(p: Peer, act: Action)
    requires Idling(p.chan)
    requires act.ReadSource? || act.SourceEof? || act.ReadStderr? || act.StderrEof? || act.StopReading? ||
             act.ShutSink? || act.Receive?
    ensures Idling(Local(p, act).0.chan) && Local(p, act).1 == []
  {
    hide Sub32, Mul32;
  }

  lemma StalledTakes(p: Peer, m: Msg)
    requires Idling(p.chan) && Size(m) == 0 && p.chan.localWindow < LIMIT && p.chan.localConsumed < LIMIT
    ensures Idling(Take(p, m).0.chan)
  {
    var c, d := p.chan, Take(p, m).0.chan;
    match m
    case Data(data) =>
      hide ReceiveData, Idling;
      NothingReceived(c);
    case Extended(data) =>
      hide ReceiveExtended, Idling;
      NothingReceived(c);
    case Adjust(_) =>
      hide Add32;
      IdlesOn(c, d);
    case Eof =>
      IdlesOn(c, d);
    case Close =>
  }

  lemma NothingReceived(c: Chan)
    requires c.localWindow < LIMIT && c.localConsumed < LIMIT
    ensures ReceiveData(c, []).0 == c && ReceiveExtended(c, []).0 == c
  {
    Seqs.Whole(c.output);
    Seqs.Whole(c.extended);
  }

  lemma StalledHangsUp(p: Peer)
    requires Idling(p.chan)
    ensures Idling(HangUp(p).0.chan) && Grants(HangUp(p).1) == 0
  {
    hide Grants, Sub32, Mul32;
    NoMessage(false);
    OneMessage(Eof, false);
  }

  /** Whether an end idles depends on its windows and buffers only. */
  lemma IdlesOn(c: Chan, d: Chan)
    requires Idling(c) && d.open && d.output == [] && d.usage == c.usage && d.extended == c.extended
    requires d.localWindow == c.localWindow && d.localConsumed == c.localConsumed && Closing(d) == Closing(c)
    requires d.istate == c.istate && d.writeFailed == c.writeFailed
    requires d.localWindowMax == c.localWindowMax && d.localMaxpacket == c.localMaxpacket && d.efdOpen == c.efdOpen
    ensures Idling(d)
  {
  }

  lemma ReceiverStaysStalled(n: Net, act: Action)
    requires Stalled(n)
    ensures Stalled(Act(n, act))
  {
    hide Bytes, Grants, Local, HangUp, Stdout, Stderr, Order, Sane, Ended, Tidy, Idling, Held;
    StepKeeps(n, Step(true, act));
    if act != Receive {
      StalledLocally(n.a, act);
      InFlight(n.ab, Local(n.a, act).1);
    } else if n.ba != [] {
      Popped(n.ba, false);
      StalledTakes(n.a, n.ba[0]);
      if n.ba[0] == Close {
        StalledHangsUp(n.a);
        InFlight(n.ab, HangUp(n.a).1);
      }
    }
  }

  lemma SenderStaysStalled(n: Net, act: Action)
    requires Stalled(n)
    ensures Stalled(Flip(Act(Flip(n), act)))
  {
    hide Bytes, Grants, OutText, ErrText, WellOrdered, EofAfter, Local, HangUp, Idling, Held;
    hide Stdout, Stderr, Order, Ended, Tidy;
    StepKeeps(n, Step(false, act));
    if act != Receive {
      LocalAsSender(n.b, act);
      InFlight(n.ba, Local(n.b, act).1);
    } else if n.ab != [] {
      Popped(n.ab, false);
      TakeGrants(n.b, n.ab[0]);
      if n.ab[0] == Close {
        HangUpAsSender(n.b);
        InFlight(n.ba, HangUp(n.b).1);
      }
    }
  }

  /** Once stalled, no run at all gives the sender any window. */
  lemma {:induction false} StalledForever(n: Net, steps: seq<Step>)
    requires Stalled(n)
    ensures Run(n, steps).b.chan.remoteWindow == 0
    decreases |steps|
  {
    hide Inv, Act, Idling;
    if steps != [] {
      if steps[0].left {
        ReceiverStaysStalled(n, steps[0].act);
      } else {
        SenderStaysStalled(n, steps[0].act);
      }
      StalledForever(Next(n, steps[0]), steps[1..]);
    }
  }

  /** So in a quiet state the sender can ever get window again if and only if the receiver is reopenable. */
  lemma RegainsIff(n: Net)
    requires AtRest(n)
    ensures (exists steps :: Run(n, steps).b.chan.remoteWindow > 0) <==> Reopenable(n.a)
  {
    StalledIff(n);
    NoMessage(false);
    hide Inv, Run, Reopenable, WantsAdjust, Drained, Bytes, Grants, ErrText;
    if Reopenable(n.a) {
      var steps := Round(n);
    } else {
      forall steps
        ensures Run(n, steps).b.chan.remoteWindow == 0
      {
        StalledForever(n, steps);
      }
    }
  }

  lemma OneBytePoll(c: Chan, x: Byte)
    requires c.open && !Closing(c) && c.istate == Reading && c.input == [x]
    requires c.remoteWindow == 1 && c.remoteMaxpacket > 0
    ensures Poll(c) == (c.(input := [], remoteWindow := 0), [Data([x])])
  {
    assert [x][..1] == [x] && [x][1..] == [];
    assert [Data([x])] + [] == [Data([x])];
  }

  /** The sender reads one byte and sends it on a one-byte window. */
  lemma OneByteSent(n: Net, x: Byte)
    requires n.ba == [] && n.ab == [] && n.b.chan.input == [] && n.b.chan.open && !Closing(n.b.chan)
    requires n.b.chan.istate == Reading && n.b.chan.remoteWindow == 1 && n.b.chan.remoteMaxpacket > 0
    ensures var m := Next(Next(n, Step(false, ReadSource([x]))), Step(false, SendPoll));
      m.a == n.a && m.ba == [Data([x])] && m.ab == [] && m.b.chan.remoteWindow == 0
  {
    var m := Next(n, Step(false, ReadSource([x])));
    assert m.b.chan == n.b.chan.(input := [x]) && m.a == n.a && m.ba == [] && m.ab == [];
    OneBytePoll(m.b.chan, x);
    hide Poll;
  }

  /** The receiver takes the byte and writes it out, and would not give the window back. */
  lemma OneByteWritten(p: Peer, x: Byte)
    requires Fresh(p) && p.chan.open && p.chan.localWindowMax == 1 && p.chan.localMaxpacket * 3 % LIMIT != 0
    ensures Idling(Local(Take(p, Data([x])).0, WriteSink(Wrote(1))).0.chan)
  {
    var q := Take(p, Data([x])).0;
    assert q.chan == p.chan.(localWindow := 0, output := [x]);
    var r := Local(q, WriteSink(Wrote(1))).0;
    assert r.chan == p.chan.(localWindow := 0, localConsumed := 1);
  }

  /** A stall that runs do reach: a one-byte window, used once, written out and never given back. */
  lemma OneByteStall(n: Net, x: Byte)
    requires Opened(n) && n.a.chan.open && n.a.chan.localWindowMax == 1 && n.a.chan.localMaxpacket * 3 % LIMIT != 0
    requires n.b.chan.open && !Closing(n.b.chan) && n.b.chan.istate == Reading && n.b.chan.remoteMaxpacket > 0
    ensures Stalled(Run(n, [Step(false, ReadSource([x])), Step(false, SendPoll), Step(true, Receive),
                            Step(true, WriteSink(Wrote(1)))]))
  {
    var s1, s2, s3, s4 :=
      Step(false, ReadSource([x])), Step(false, SendPoll), Step(true, Receive), Step(true, WriteSink(Wrote(1)));
    OpenedHolds(n);
    RunKeeps(n, [s1, s2, s3, s4]);
    Four(n, s1, s2, s3, s4);
    OneByteSent(n, x);
    OneByteWritten(n.a, x);
    var n2 := Next(Next(n, s1), s2);
    TakesOne(n2, Data([x]));
    WritesOne(Next(n2, s3));
    hide Inv, Run, Next, Local, Take, Idling;
    NoMessage(false);
  }

  lemma TakesOne(n: Net, m: Msg)
    requires n.ba == [m] && m != Close
    ensures var k := Next(n, Step(true, Receive)); k.a == Take(n.a, m).0 && k.ba == [] && k.ab == n.ab && k.b == n.b
  {
    hide Take;
  }

  lemma WritesOne(n: Net)
    ensures var k := Next(n, Step(true, WriteSink(Wrote(1))));
      k.a == Local(n.a, WriteSink(Wrote(1))).0 && k.ba == n.ba && k.ab == n.ab && k.b == n.b
  {
    hide WriteOutput;
  }

  // ---- Everything can be delivered ----

  /** What the sender still holds. */
  function Left(p: Peer): nat { |p.chan.input| + |Unsent(p.chan)| }

  /** The right end can send to the left one: both open and not closing, nothing dropped or lost, the receiver
      listening, the window reopenable, packets of at least one byte, and a reader for any stderr still to come. */
  predicate Healthy(n: Net) {
    Inv(n) && n.a.chan.open && n.b.chan.open && !Closing(n.a.chan) && !Closing(n.b.chan) && n.a.lost == 0 &&
    Listening(n.a) && Reopenable(n.a) && n.b.chan.remoteMaxpacket > 0 &&
    (n.b.chan.istate == Finished ==> n.b.chan.input == []) &&
    StderrTaken(n.a, n.ba) && (WritesExtended(n.a.chan) || Unsent(n.b.chan) == [])
  }

  /** With window and something to send, a poll sends some of it. */
  lemma PollSendsSome(c: Chan)
    requires c.open && !Closing(c) && 0 < c.remoteWindow < LIMIT && c.remoteMaxpacket > 0 && !c.eofSent
    requires (c.istate == Finished ==> c.input == []) && |c.input| + |Unsent(c)| > 0
    ensures var d := Poll(c).0;
      |d.input| + |Unsent(d)| < |c.input| + |Unsent(c)| && (d.istate == Finished ==> d.input == []) &&
      d.open && !Closing(d) && d.remoteMaxpacket == c.remoteMaxpacket && (Unsent(c) == [] ==> Unsent(d) == [])
  {
    hide PollData, PollExtended;
    PollDataShrinks(c);
    PollExtendedShrinks(PollData(c).0);
  }

  lemma PollDataShrinks(c: Chan)
    requires c.remoteWindow > 0 && c.remoteMaxpacket > 0 && (c.istate == Finished ==> c.input == [])
    ensures var d := PollData(c).0;
      (if c.input != [] then |d.input| < |c.input| else d.input == [] && (Unsent(c) != [] ==> d == c)) &&
      (d.istate == Finished ==> d.input == []) && d.extended == c.extended && d.usage == c.usage &&
      d.open == c.open && Closing(d) == Closing(c) && d.remoteMaxpacket == c.remoteMaxpacket
  {
    if c.input != [] {
      PollsText(c);
    } else if c.istate == Draining && !EfdInputActive(c) {
      PollsEof(c);
    } else {
      PollsNothing(c);
    }
    hide PollData, Sub32;
  }

  lemma PollsText(c: Chan)
    requires c.istate != Finished && c.input != [] && c.remoteWindow > 0 && c.remoteMaxpacket > 0
    ensures var n := Min(Min(|c.input|, c.remoteWindow), c.remoteMaxpacket);
      n > 0 && PollData(c).0 == c.(input := c.input[n..], remoteWindow := Sub32(c.remoteWindow, n))
  {
    hide Sub32, EfdInputActive;
  }

  lemma PollsEof(c: Chan)
    requires c.istate == Draining && c.input == [] && !EfdInputActive(c)
    ensures PollData(c).0 == c.(istate := Finished, eofSent := true)
  {
    hide Sub32, Min, EfdInputActive;
  }

  lemma PollsNothing(c: Chan)
    requires c.input == [] && (c.istate == Draining ==> EfdInputActive(c))
    ensures PollData(c).0 == c
  {
    hide Sub32, Min, EfdInputActive;
  }

  lemma PollExtendedShrinks(c: Chan)
    requires c.remoteMaxpacket > 0
    ensures var d := PollExtended(c).0;
      |Unsent(d)| <= |Unsent(c)| &&
      (c.remoteWindow > 0 && !c.eofSent && Unsent(c) != [] ==> |Unsent(d)| < |Unsent(c)|) &&
      d.input == c.input && d.istate == c.istate && d.open == c.open && Closing(d) == Closing(c) &&
      d.remoteMaxpacket == c.remoteMaxpacket
  {
    hide Sub32;
  }

  lemma PollIsProgress(n: Net)
    requires Healthy(n) && n.ba == [] && n.b.chan.remoteWindow > 0 && Left(n.b) > 0
    ensures var m := Next(n, Step(false, SendPoll));
      Healthy(m) && m.a == n.a && Left(m.b) < Left(n.b) && m.b.src == n.b.src && m.b.srcErr == n.b.srcErr
  {
    StepKeeps(n, Step(false, SendPoll));
    NotFinished(n);
    PollSendsSome(n.b.chan);
    PollSends(n.b.chan);
    hide Flow, Poll, Bytes, OutText, ErrText, WellOrdered, EofAfter, Held, Reopenable, WritesExtended;
    var out := Poll(n.b.chan).1;
    assert [] + out == out;
  }

  /** While the receiver has sent no close, the sender says end of file only after everything else. */
  lemma NotFinished(n: Net)
    requires Healthy(n) && Left(n.b) > 0
    ensures !n.b.chan.eofSent && n.b.chan.remoteWindow < LIMIT
  {
    hide Reopenable, Stdout, Stderr, Order;
  }

  /** Stderr arrives too, unless some was refused before or is stuck. */
  predicate ErrWhole(p: Peer) { p.refused == 0 && Stuck(p.chan) == 0 }

  /** With nothing left anywhere, everything has been delivered. */
  lemma AllArrived(n: Net)
    requires Healthy(n) && n.ba == [] && Drained(n.a.chan) && Left(n.b) == 0
    ensures n.a.dst == n.b.src && (ErrWhole(n.a) ==> n.a.dstErr == n.b.srcErr)
  {
    NoMessage(false);
    Seqs.Whole(n.a.dst);
    Seqs.Whole(n.a.dstErr);
    hide Reopenable, Windows, Order, Ended, Tidy;
  }

  lemma StillHealthy(n: Net, m: Net)
    requires Healthy(n) && Inv(m) && m.ba == [] && Kept(n.a, m.a) && SenderKept(n.b, m.b)
    ensures Healthy(m) && Left(m.b) == Left(n.b) && ErrWhole(m.a) == ErrWhole(n.a)
  {
    hide Inv;
    NoMessage(false);
  }

  lemma {:induction false} Delivers(n: Net) returns (steps: seq<Step>)
    requires Healthy(n)
    ensures var m := Run(n, steps);
      m.b.src == n.b.src && m.b.srcErr == n.b.srcErr && m.a.dst == n.b.src &&
      (ErrWhole(n.a) ==> m.a.dstErr == n.b.srcErr)
    decreases Left(n.b)
  {
    hide Run, Inv, Next, Reopenable, WritesExtended, Held, ErrWhole, StderrTaken, Drained, ErrText;
    NoCloseSent(n);
    var s1 := Round(n);
    var n1 := Run(n, s1);
    StillHealthy(n, n1);
    if Left(n1.b) == 0 {
      AllArrived(n1);
      steps := s1;
    } else {
      var s := Step(false, SendPoll);
      var n2 := Next(n1, s);
      PollIsProgress(n1);
      hide Healthy;
      var s2 := Delivers(n2);
      steps := s1 + ([s] + s2);
      RunConcat(n, s1, [s] + s2);
      RunConcat(n1, [s], s2);
      One(n1, s);
    }
  }

  /** From any state a run can reach in which the sender can send, some continuation delivers every byte the source
      has supplied, and every byte of stderr unless some was refused or is stuck. */
  lemma EverythingCanArrive(n: Net, steps: seq<Step>) returns (more: seq<Step>)
    requires Opened(n)
    ensures var m := Run(n, steps);
      Healthy(m) ==>
        var end := Run(m, more); end.a.dst == m.b.src && (ErrWhole(m.a) ==> end.a.dstErr == m.b.srcErr)
  {
    hide Opened, Run, Healthy;
    more := [];
    if Healthy(Run(n, steps)) {
      more := Delivers(Run(n, steps));
    }
  }

  // ---- Packets fit ----

  /** No packet is larger than that, and no output packet is empty. */
  predicate Fits(q: seq<Msg>, maxpacket: nat) {
    forall i :: 0 <= i < |q| ==> Size(q[i]) <= maxpacket && (q[i].Data? ==> q[i].data != [])
  }

  /** The packet sizes announced each way. */
  predicate SameSizes(c: Chan, d: Chan) {
    d.remoteMaxpacket == c.remoteMaxpacket && d.localMaxpacket == c.localMaxpacket
  }

  lemma PollFits(c: Chan)
    ensures Fits(Poll(c).1, c.remoteMaxpacket) && SameSizes(c, Poll(c).0)
  {
    hide Sub32, EfdInputActive;
    var (c1, m1) := PollData(c);
    assert Fits(m1, c.remoteMaxpacket) && SameSizes(c, c1);
    var (c2, m2) := PollExtended(c1);
    assert Fits(m2, c.remoteMaxpacket) && SameSizes(c, c2);
  }

  /** Whatever an end sends respects the packet size its peer announced, which never changes. */
  lemma LocalFits(p: Peer, act: Action)
    ensures Fits(Local(p, act).1, p.chan.remoteMaxpacket) && SameSizes(p.chan, Local(p, act).0.chan)
  {
    hide Poll, CheckWindow, WriteOutput, WriteExtended;
    match act
    case SendPoll => PollFits(p.chan);
    case GiveBack =>
      CheckFits(p.chan);
      CheckAsSender(p.chan);
    case WriteSink(r) => WriteOutputAsSender(p.chan, r);
    case WriteStderr(r) => WriteExtendedAsSender(p.chan, r);
    case _ =>
  }

  lemma CheckFits(c: Chan)
    ensures Fits(CheckWindow(c).1, c.remoteMaxpacket)
  {
    hide WantsAdjust, Add32;
  }

  lemma TakeFits(p: Peer, m: Msg)
    ensures SameSizes(p.chan, Take(p, m).0.chan)
  {
    hide Take;
    TakeFrame(p, m);
  }

  /** No packet in flight is larger than its receiver announced, and each end knows what the other announced. */
  predicate AllFit(n: Net) {
    Fits(n.ab, n.b.chan.localMaxpacket) && Fits(n.ba, n.a.chan.localMaxpacket) &&
    n.a.chan.remoteMaxpacket == n.b.chan.localMaxpacket && n.b.chan.remoteMaxpacket == n.a.chan.localMaxpacket
  }

  lemma ActFits(n: Net, act: Action)
    requires AllFit(n)
    ensures AllFit(Act(n, act))
  {
    hide Local, Take;
    if act != Receive {
      LocalFits(n.a, act);
    } else if n.ba != [] {
      TakeFits(n.a, n.ba[0]);
    }
  }

  lemma {:induction false} RunFits(n: Net, steps: seq<Step>)
    requires AllFit(n)
    ensures AllFit(Run(n, steps))
    decreases |steps|
  {
    hide Act, Fits;
    if steps != [] {
      ActFits(if steps[0].left then n else Flip(n), steps[0].act);
      RunFits(Next(n, steps[0]), steps[1..]);
    }
  }

  /** Over every run no packet in flight is larger than the maximum its receiver announced, and none of output is empty. */
  lemma PacketsFit(n: Net, steps: seq<Step>)
    requires Opened(n)
    ensures var m := Run(n, steps);
      Fits(m.ab, m.b.chan.localMaxpacket) && Fits(m.ba, m.a.chan.localMaxpacket)
  {
    RunFits(n, steps);
  }

  // ---- A poll sends as much as it may ----

  /** How much of the output a poll sends, and whether it says end of file. */
  function Sendable(c: Chan, room: nat, max: nat): nat {
    if c.istate == Finished then 0 else Min(Min(|c.input|, room), max)
  }

  predicate SaysEnd(c: Chan) {
    c.istate == Draining && c.input == [] && !(c.usage == ReadErr && (c.efdOpen || c.extended != []))
  }

  lemma PollDataAmounts(c: Chan)
    requires c.remoteWindow < LIMIT
    ensures var (d, k) := (PollData(c).0, Sendable(c, c.remoteWindow, c.remoteMaxpacket));
      |d.input| == |c.input| - k && d.remoteWindow == c.remoteWindow - k &&
      d.eofSent == (c.eofSent || SaysEnd(c)) && d.istate == (if SaysEnd(c) then Finished else c.istate) &&
      d.extended == c.extended && d.usage == c.usage && d.remoteMaxpacket == c.remoteMaxpacket
  {
    var k := Sendable(c, c.remoteWindow, c.remoteMaxpacket);
    if SaysEnd(c) {
      PollsEof(c);
    } else if c.input == [] || c.istate == Finished || k == 0 {
      assert PollData(c).0 == c;
    } else {
      assert PollData(c).0 == c.(input := c.input[k..], remoteWindow := Sub32(c.remoteWindow, k));
    }
    hide PollData;
  }

  lemma PollExtendedAmounts(c: Chan)
    ensures var d := PollExtended(c).0;
      |Unsent(d)| == |Unsent(c)| -
        (if c.eofSent then 0 else Min(Min(|Unsent(c)|, c.remoteWindow), c.remoteMaxpacket)) &&
      d.input == c.input && d.eofSent == c.eofSent && d.istate == c.istate
  {
    hide Sub32;
    if !c.eofSent && c.remoteWindow > 0 && c.extended != [] && c.usage == ReadErr {
      var n := Min(Min(|c.extended|, c.remoteWindow), c.remoteMaxpacket);
      assert PollExtended(c).0 == c.(extended := c.extended[n..], remoteWindow := Sub32(c.remoteWindow, n));
    } else {
      assert PollExtended(c).0 == c;
    }
    hide PollExtended;
  }

  lemma PollAmounts(c: Chan)
    requires c.open && !Closing(c) && c.remoteWindow < LIMIT
    ensures var (d, k) := (Poll(c).0, Sendable(c, c.remoteWindow, c.remoteMaxpacket));
      |d.input| == |c.input| - k && d.eofSent == (c.eofSent || SaysEnd(c)) &&
      d.istate == (if SaysEnd(c) then Finished else c.istate) &&
      |Unsent(d)| == |Unsent(c)| -
        (if c.eofSent || SaysEnd(c) then 0 else Min(Min(|Unsent(c)|, c.remoteWindow - k), c.remoteMaxpacket))
  {
    hide PollData, PollExtended, SaysEnd, Sendable;
    PollDataAmounts(c);
    PollExtendedAmounts(PollData(c).0);
    SameUnsent(c, PollData(c).0);
  }

  lemma Front(whole: seq<Byte>, front: seq<Byte>, back: seq<Byte>, k: nat)
    requires whole == front + back && k <= |whole| && |back| == |whole| - k
    ensures front == whole[..k] && back == whole[k..]
  {
  }

  /** From n to k the left end has sent the most that the receiver can still take, counted on the receiver's side, and
      that fits its packet size: output first, then stderr from what is left; and it has said end of file exactly if its
      source has ended and nothing is left. */
  predicate MostSent(n: Net, k: Net) {
    var c, max := n.a.chan, n.b.chan.localMaxpacket;
    var room := n.b.chan.localWindow - Bytes(n.ab) - Grants(n.ba) - n.b.refused;
    room >= 0 &&
    var out := Sendable(c, room, max);
    out <= |c.input| && out <= room &&
    var err := if c.eofSent || SaysEnd(c) then 0 else Min(Min(|Unsent(c)|, room - out), max);
    OutText(k.ab) == OutText(n.ab) + c.input[..out] && k.a.chan.input == c.input[out..] &&
    ErrText(k.ab) == ErrText(n.ab) + Unsent(c)[..err] && Unsent(k.a.chan) == Unsent(c)[err..] &&
    k.a.chan.eofSent == (c.eofSent || SaysEnd(c))
  }

  /** So does every poll of an open end that is not closing, over every run. */
  lemma PollSendsMost(n: Net, steps: seq<Step>)
    requires Opened(n)
    ensures var m := Run(n, steps);
      m.a.chan.open && !Closing(m.a.chan) ==> MostSent(m, Next(m, Step(true, SendPoll)))
  {
    OpenedHolds(n);
    OpenedFits(n);
    hide Opened, Run, Inv, AllFit, Next, MostSent;
    RunKeeps(n, steps);
    RunFits(n, steps);
    var m := Run(n, steps);
    if m.a.chan.open && !Closing(m.a.chan) {
      RoomLeft(m);
      PollStep(m);
    }
  }

  lemma OpenedFits(n: Net)
    requires Opened(n)
    ensures AllFit(n)
  {
  }

  lemma RoomLeft(n: Net)
    requires Inv(n) && AllFit(n)
    ensures n.a.chan.remoteWindow == n.b.chan.localWindow - Bytes(n.ab) - Grants(n.ba) - n.b.refused
    ensures n.a.chan.remoteWindow < LIMIT && (n.a.chan.eofSent ==> n.a.chan.istate == Finished)
    ensures n.a.chan.remoteMaxpacket == n.b.chan.localMaxpacket
  {
    hide Stdout, Stderr, Order, Ended, Tidy, Bytes, Grants, Fits;
  }

  lemma PollStep(n: Net)
    requires n.a.chan.open && !Closing(n.a.chan) && n.a.chan.remoteWindow < LIMIT
    requires n.a.chan.eofSent ==> n.a.chan.istate == Finished
    requires n.a.chan.remoteWindow == n.b.chan.localWindow - Bytes(n.ab) - Grants(n.ba) - n.b.refused
    requires n.a.chan.remoteMaxpacket == n.b.chan.localMaxpacket
    ensures MostSent(n, Next(n, Step(true, SendPoll)))
  {
    hide Poll, Bytes, Grants, OutText, ErrText, WellOrdered, EofAfter, SaysEnd, Unsent;
    var c := n.a.chan;
    var (d, sent) := Poll(c);
    PollSends(c);
    PollAmounts(c);
    TextInFlight(n.ab, sent);
    Front(c.input, OutText(sent), d.input, |c.input| - |d.input|);
    Front(Unsent(c), ErrText(sent), Unsent(d), |Unsent(c)| - |Unsent(d)|);
  }

  // ---- A close is answered ----

  /** From any state a run can reach in which an end has finished reading and its output is shut, whether by a close, by
      end of file or by giving up, it can close with local steps alone. So every close can be answered. */
  lemma CloseFollows(n: Net, steps: seq<Step>) returns (more: seq<Step>)
    requires Opened(n)
    ensures var m := Run(n, steps);
      (m.a.chan.closeRcvd ==> m.a.chan.istate == Finished && !m.a.chan.outputOpen) &&
      (m.a.chan.istate == Finished && !m.a.chan.outputOpen ==>
        Run(m, more).a.chan.closeSent && (forall i :: 0 <= i < |more| ==> more[i].left && more[i].act != Receive))
  {
    OpenedHolds(n);
    RunKeeps(n, steps);
    var m := Run(n, steps);
    assert Tidy(m.a);
    hide Opened, Inv;
    more := [];
    if m.a.chan.istate == Finished && !m.a.chan.outputOpen {
      hide Run;
      more := Closes(m);
    }
  }

  lemma Closes(n: Net) returns (steps: seq<Step>)
    requires Tidy(n.a) && n.a.chan.istate == Finished && !n.a.chan.outputOpen
    ensures Run(n, steps).a.chan.closeSent
    ensures forall i :: 0 <= i < |steps| ==> steps[i].left && steps[i].act != Receive
  {
    var s1 := Step(true, WriteSink(Wrote(|n.a.chan.output|)));
    var s2 := Step(true, WriteStderr(Wrote(|n.a.chan.extended|)));
    var s3 := Step(true, SendClose);
    SinkEmptied(n.a);
    var n1 := Next(n, s1);
    StderrEmptied(n1.a, |n.a.chan.extended|);
    var n2 := Next(n1, s2);
    assert OutputOver(n2.a.chan) && n2.a.chan.istate == Finished;
    ClosesNow(n2);
    hide Next, Run;
    steps := [s1] + ([s2] + [s3]);
    RunConcat(n, [s1], [s2] + [s3]);
    RunConcat(n1, [s2], [s3]);
    One(n, s1);
    One(n1, s2);
    One(n2, s3);
  }

  lemma SinkEmptied(p: Peer)
    ensures var c, d := p.chan, Local(p, WriteSink(Wrote(|p.chan.output|))).0.chan;
      d == c.(output := [], localConsumed := d.localConsumed)
  {
    hide Add32;
    var c := p.chan;
    if c.output == [] {
      assert WriteOutput(c, Wrote(|c.output|)) == c;
    } else {
      assert WriteOutput(c, Wrote(|c.output|)) ==
        c.(output := [], localConsumed := Add32(c.localConsumed, |c.output|));
    }
    hide WriteOutput;
  }

  lemma StderrEmptied(p: Peer, k: nat)
    requires p.chan.output == [] && !p.chan.outputOpen && p.chan.istate == Finished && k == |p.chan.extended|
    requires p.chan.writeFailed || p.chan.eofRcvd || p.chan.closeRcvd
    ensures var d := Local(p, WriteStderr(Wrote(k))).0.chan; OutputOver(d) && d.istate == Finished
  {
    hide Add32;
    var c := p.chan;
    if !WritesExtended(c) || c.extended == [] {
      assert Local(p, WriteStderr(Wrote(k))).0.chan == c;
    } else {
      assert Local(p, WriteStderr(Wrote(k))).0.chan == c.(extended := [], localConsumed := Add32(c.localConsumed, k));
    }
    hide Local;
  }

  lemma ClosesNow(n: Net)
    requires OutputOver(n.a.chan) && n.a.chan.istate == Finished
    ensures Next(n, Step(true, SendClose)).a.chan.closeSent
  {
    hide OutputOver;
  }

  // ---- What a write does ----

  /** What writing output makes of an end, for every answer of the descriptor: nothing written is a failure, and a failure
      gives up the buffer and the output. */
  function SinkWritten(p: Peer, r: IoResult): Peer {
    var c := p.chan;
    if c.output == [] || r == Retry then p
    else if r == Failed || r == Wrote(0) then
      p.(chan := c.(output := [], outputOpen := false, writeFailed := true), lost := p.lost + |c.output|)
    else
      var k := if r.n <= |c.output| then r.n else |c.output|;
      p.(chan := c.(output := c.output[k..], localConsumed := c.localConsumed + k), dst := p.dst + c.output[..k])
  }

  /** The same for stderr, while it is written at all: a failure closes the descriptor and keeps the buffer. */
  function ErrWritten(p: Peer, r: IoResult): Peer {
    var c := p.chan;
    if !c.efdOpen || c.usage != WriteErr || (c.writeFailed && c.istate == Finished) || c.extended == [] || r == Retry
    then p
    else if r == Failed || r == Wrote(0) then p.(chan := c.(efdOpen := false))
    else
      var k := if r.n <= |c.extended| then r.n else |c.extended|;
      p.(chan := c.(extended := c.extended[k..], localConsumed := c.localConsumed + k),
         dstErr := p.dstErr + c.extended[..k])
  }

  lemma OutputAfter(c: Chan, r: IoResult)
    requires c.output != [] && r != Retry && c.localConsumed + |c.output| < LIMIT
    ensures Fails(r) ==> WriteOutput(c, r) == ShutOutput(c)
    ensures !Fails(r) ==>
      var k := Min(r.n, |c.output|);
      WriteOutput(c, r) == c.(output := c.output[k..], localConsumed := c.localConsumed + k)
  {
    hide ShutOutput;
    if !Fails(r) { assert Add32(c.localConsumed, Min(r.n, |c.output|)) == c.localConsumed + Min(r.n, |c.output|); }
    hide Add32;
  }

  lemma SinkIdles(p: Peer, r: IoResult)
    requires p.chan.output == [] || r == Retry
    ensures Local(p, WriteSink(r)) == (SinkWritten(p, r), [])
  {
    Seqs.Whole(p.dst);
    Seqs.Whole(p.chan.output);
    assert WriteOutput(p.chan, r) == p.chan;
    hide WriteOutput;
  }

  lemma SinkFails(p: Peer, r: IoResult)
    requires Balanced(p) && p.chan.output != [] && r != Retry && Fails(r)
    ensures Local(p, WriteSink(r)) == (SinkWritten(p, r), [])
  {
    OutputAfter(p.chan, r);
    hide WriteOutput;
  }

  lemma SinkAdvances(p: Peer, r: IoResult)
    requires Balanced(p) && p.chan.output != [] && r != Retry && !Fails(r)
    ensures Local(p, WriteSink(r)) == (SinkWritten(p, r), [])
  {
    OutputAfter(p.chan, r);
    hide WriteOutput;
  }

  lemma SinkWrites(p: Peer, r: IoResult)
    requires Balanced(p)
    ensures Local(p, WriteSink(r)) == (SinkWritten(p, r), [])
  {
    hide Local, SinkWritten, Balanced;
    if p.chan.output == [] || r == Retry {
      SinkIdles(p, r);
    } else if Fails(r) {
      SinkFails(p, r);
    } else {
      SinkAdvances(p, r);
    }
  }

  lemma StderrAfter(c: Chan, r: IoResult)
    requires TakesExtended(c) && c.extended != [] && r != Retry && c.localConsumed + |c.extended| < LIMIT
    ensures Fails(r) ==> WriteExtended(c, r) == c.(efdOpen := false)
    ensures !Fails(r) ==>
      var k := Min(r.n, |c.extended|);
      WriteExtended(c, r) == c.(extended := c.extended[k..], localConsumed := c.localConsumed + k)
  {
    if !Fails(r) { assert Add32(c.localConsumed, Min(r.n, |c.extended|)) == c.localConsumed + Min(r.n, |c.extended|); }
    hide Add32;
  }

  lemma ErrIdles(p: Peer, r: IoResult)
    requires !WritesExtended(p.chan) || p.chan.extended == [] || r == Retry
    ensures Local(p, WriteStderr(r)) == (ErrWritten(p, r), [])
  {
    Seqs.Whole(p.dstErr);
    Seqs.Whole(p.chan.extended);
    assert WritesExtended(p.chan) ==> WriteExtended(p.chan, r) == p.chan;
    hide WriteExtended;
  }

  lemma ErrFails(p: Peer, r: IoResult)
    requires Balanced(p) && WritesExtended(p.chan) && p.chan.extended != [] && r != Retry && Fails(r)
    ensures Local(p, WriteStderr(r)) == (ErrWritten(p, r), [])
  {
    Seqs.Whole(p.dstErr);
    Seqs.Whole(p.chan.extended);
    StderrAfter(p.chan, r);
    hide WriteExtended;
  }

  lemma ErrAdvances(p: Peer, r: IoResult)
    requires Balanced(p) && WritesExtended(p.chan) && p.chan.extended != [] && r != Retry && !Fails(r)
    ensures Local(p, WriteStderr(r)) == (ErrWritten(p, r), [])
  {
    StderrAfter(p.chan, r);
    hide WriteExtended;
  }

  lemma ErrWrites(p: Peer, r: IoResult)
    requires Balanced(p)
    ensures Local(p, WriteStderr(r)) == (ErrWritten(p, r), [])
  {
    hide Local, ErrWritten, Balanced, WritesExtended;
    if !WritesExtended(p.chan) || p.chan.extended == [] || r == Retry {
      ErrIdles(p, r);
    } else if Fails(r) {
      ErrFails(p, r);
    } else {
      ErrAdvances(p, r);
    }
  }

  /** Over every run, these are the effects of a write, and all of them. */
  lemma WritesExactly(n: Net, steps: seq<Step>, r: IoResult)
    requires Opened(n)
    ensures var m := Run(n, steps);
      Next(m, Step(true, WriteSink(r))) == m.(a := SinkWritten(m.a, r)) &&
      Next(m, Step(true, WriteStderr(r))) == m.(a := ErrWritten(m.a, r))
  {
    OpenedHolds(n);
    RunKeeps(n, steps);
    var m := Run(n, steps);
    IsBalanced(m);
    hide Opened, Run, Inv, SinkWritten, ErrWritten;
    SinkWrites(m.a, r);
    ErrWrites(m.a, r);
    hide Local;
    Seqs.Whole(m.ab);
  }

  lemma IsBalanced(n: Net)
    requires Inv(n)
    ensures Balanced(n.a)
  {
    hide Stdout, Stderr, Order, Sane, Ended, Tidy, Bytes, Grants;
  }

  // ---- Giving up is for good ----

  predicate GaveUp(p: Peer) { p.chan.writeFailed && p.chan.istate == Finished }

  lemma GaveUpLocally(p: Peer, act: Action)
    requires Tidy(p) && GaveUp(p)
    ensures var q := Local(p, act).0; GaveUp(q) && q.dst == p.dst && q.dstErr == p.dstErr
  {
    hide Poll, CheckWindow, WriteExtended, Add32;
    match act
    case SendPoll =>
      NoGrants(p.chan);
      PollFinishes(p);
    case GiveBack => CheckFrame(p.chan);
    case WriteSink(r) =>
      assert WriteOutput(p.chan, r) == p.chan;
      Seqs.Whole(p.dst);
      Seqs.Whole(p.chan.output);
    case WriteStderr(r) =>
      Seqs.Whole(p.dstErr);
      Seqs.Whole(p.chan.extended);
    case _ =>
  }

  lemma TakeKeepsSinks(p: Peer, m: Msg)
    ensures var q := Take(p, m).0; q.dst == p.dst && q.dstErr == p.dstErr
  {
    hide ReceiveData, ReceiveExtended, ReceiveAdjust;
  }

  lemma GaveUpActing(n: Net, act: Action)
    requires Tidy(n.a) && GaveUp(n.a)
    ensures var p := Act(n, act).a; GaveUp(p) && p.dst == n.a.dst && p.dstErr == n.a.dstErr
  {
    hide Local, Take, Tidy;
    if act != Receive {
      GaveUpLocally(n.a, act);
    } else if n.ba != [] {
      TakeKeepsSinks(n.a, n.ba[0]);
      TakeFrame(n.a, n.ba[0]);
    }
  }

  /** An end that has given up writing and finished reading writes nothing more, whatever happens: not even stderr it has
      received. */
  lemma {:induction false} GaveUpForGood(n: Net, steps: seq<Step>)
    requires Inv(n) && GaveUp(n.a)
    ensures var m := Run(n, steps); m.a.dst == n.a.dst && m.a.dstErr == n.a.dstErr
    decreases |steps|
  {
    hide Flow, Sane, Ended, Tidy, Act, GaveUp;
    if steps != [] {
      var s := steps[0];
      StepKeeps(n, s);
      if s.left { GaveUpActing(n, s.act); } else { RightUnmoved(Flip(n), s.act); }
      GaveUpForGood(Next(n, s), steps[1..]);
    }
  }
}
