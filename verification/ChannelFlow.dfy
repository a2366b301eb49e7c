/** SSH channel flow control (channels.c, section 5.2 of RFC 4254): the windows, buffers and flags of
    one end of a channel, and what each handler does to them. Counters are 32-bit unsigned. */
module ChannelFlow {

  type Byte = bv8

  const LIMIT: nat := 0x1_0000_0000

  function Add32(a: nat, b: nat): nat { (a + b) % LIMIT }
  function Sub32(a: nat, b: nat): nat { (a - b) % LIMIT }
  function Mul32(a: nat, b: nat): nat { (a * b) % LIMIT }

  function Min(a: nat, b: nat): nat { if a <= b then a else b }

  /** What the two ends exchange. Extended data is stderr. */
  datatype Msg = Data(data: seq<Byte>) | Extended(data: seq<Byte>) | Adjust(bytes: nat) | Eof | Close

  datatype Input = Reading | Draining | Finished

  /** Whether stderr is ignored, read here and sent, or received and written here. */
  datatype Usage = Ignore | ReadErr | WriteErr

  datatype Chan = Chan(
    open: bool, istate: Input, outputOpen: bool, writeFailed: bool, closeSent: bool, closeRcvd: bool,
    eofSent: bool, eofRcvd: bool, efdOpen: bool, usage: Usage,
    input: seq<Byte>, output: seq<Byte>, extended: seq<Byte>,
    remoteWindow: nat, remoteMaxpacket: nat,
    localWindow: nat, localWindowMax: nat, localConsumed: nat, localMaxpacket: nat)

  /** A close has been sent or received. */
  predicate Closing(c: Chan) { c.closeSent || c.closeRcvd }

  /** Why a handler gives up: the peer sent more than its window, adjusted past 2^32, or sent
      stderr after end of file. */
  datatype Alarm = Quiet | Overrun | AdjustOverflow | ExtendedAfterEof

  /** What a write to a descriptor answers. */
  datatype IoResult = Wrote(n: nat) | Retry | Failed

  /** Writing nothing at all counts as a failure. */
  predicate Fails(r: IoResult) { r == Failed || r == Wrote(0) }

  // ---- Sending ----

  predicate EfdInputActive(c: Chan) { c.usage == ReadErr && (c.efdOpen || c.extended != []) }

  /** The stdout part of one round of channel_output_poll. */
  function PollData(c: Chan): (Chan, seq<Msg>) {
    if c.istate != Finished && c.input != [] then
      var n := Min(Min(|c.input|, c.remoteWindow), c.remoteMaxpacket);
      if n == 0 then (c, [])
      else (c.(input := c.input[n..], remoteWindow := Sub32(c.remoteWindow, n)), [Data(c.input[..n])])
    else if c.istate == Draining && !EfdInputActive(c) then
      (c.(istate := Finished, eofSent := true), [Eof])
    else (c, [])
  }

  /** The stderr part. */
  function PollExtended(c: Chan): (Chan, seq<Msg>) {
    if !c.eofSent && c.remoteWindow > 0 && c.extended != [] && c.usage == ReadErr then
      var n := Min(Min(|c.extended|, c.remoteWindow), c.remoteMaxpacket);
      (c.(extended := c.extended[n..], remoteWindow := Sub32(c.remoteWindow, n)), [Extended(c.extended[..n])])
    else (c, [])
  }

  function Poll(c: Chan): (Chan, seq<Msg>) {
    if !c.open || Closing(c) then (c, [])
    else
      var (c1, m1) := PollData(c);
      var (c2, m2) := PollExtended(c1);
      (c2, m1 + m2)
  }

  // ---- Receiving ----

  function ReceiveData(c: Chan, data: seq<Byte>): (Chan, Alarm) {
    if !c.open then (c, Quiet)
    else if !c.outputOpen then
      (c.(localWindow := Sub32(c.localWindow, |data|), localConsumed := Add32(c.localConsumed, |data|)), Quiet)
    else if |data| > c.localWindow then (c, Overrun)
    else (c.(localWindow := Sub32(c.localWindow, |data|), output := c.output + data), Quiet)
  }

  predicate TakesExtended(c: Chan) { c.efdOpen && c.usage == WriteErr }

  function ReceiveExtended(c: Chan, data: seq<Byte>): (Chan, Alarm) {
    if !c.open then (c, Quiet)
    else if c.eofRcvd then (c, ExtendedAfterEof)
    else if !TakesExtended(c) then (c, Quiet)
    else if |data| > c.localWindow then (c, Overrun)
    else (c.(localWindow := Sub32(c.localWindow, |data|), extended := c.extended + data), Quiet)
  }

  function ReceiveAdjust(c: Chan, bytes: nat): (Chan, Alarm) {
    var sum := Add32(c.remoteWindow, bytes);
    if sum < c.remoteWindow then (c, AdjustOverflow) else (c.(remoteWindow := sum), Quiet)
  }

  function ReceiveEof(c: Chan): Chan { c.(eofRcvd := true, outputOpen := false) }

  /** What receiving a close does: a side still draining says end of file at once. */
  function CloseBoth(c: Chan): (Chan, seq<Msg>) {
    var draining := c.open && c.istate == Draining;
    (c.(closeRcvd := true, istate := Finished, outputOpen := false, eofSent := c.eofSent || draining),
     if draining then [Eof] else [])
  }

  predicate EfdOutputActive(c: Chan) {
    c.usage == WriteErr && c.efdOpen && ((!c.eofRcvd && !c.closeRcvd) || c.extended != [])
  }

  /** The output is over: everything received has been written, stderr included unless its descriptor is gone, or
      writing has been given up. */
  predicate OutputOver(c: Chan) { !c.outputOpen && c.output == [] && (c.writeFailed || !EfdOutputActive(c)) }

  /** A close goes out once, when both directions are over. */
  function CloseIfDead(c: Chan): (Chan, seq<Msg>) {
    if c.istate == Finished && OutputOver(c) && !c.closeSent then (c.(closeSent := true), [Close]) else (c, [])
  }

  // ---- Local descriptors ----

  /** Giving up on the output, as a failed write does and a session does when its process has ended. */
  function ShutOutput(c: Chan): Chan { c.(output := [], outputOpen := false, writeFailed := true) }

  /** channel_handle_wfd: what was written counts as consumed; a failed write drops the buffer. */
  function WriteOutput(c: Chan, r: IoResult): Chan {
    if c.output == [] || r == Retry then c
    else if Fails(r) then ShutOutput(c)
    else
      var k := Min(r.n, |c.output|);
      c.(output := c.output[k..], localConsumed := Add32(c.localConsumed, k))
  }

  /** channel_handle_efd, on the side that writes stderr. */
  function WriteExtended(c: Chan, r: IoResult): Chan {
    if !TakesExtended(c) || c.extended == [] || r == Retry then c
    else if Fails(r) then c.(efdOpen := false)
    else
      var k := Min(r.n, |c.extended|);
      c.(extended := c.extended[k..], localConsumed := Add32(c.localConsumed, k))
  }

  /** When channel_check_window gives back what was consumed. */
  predicate WantsAdjust(c: Chan) {
    c.open && !Closing(c) && c.localConsumed > 0 &&
    (Sub32(c.localWindowMax, c.localWindow) > Mul32(c.localMaxpacket, 3) || c.localWindow < c.localWindowMax / 2)
  }

  function CheckWindow(c: Chan): (Chan, seq<Msg>) {
    if WantsAdjust(c) then
      (c.(localWindow := Add32(c.localWindow, c.localConsumed), localConsumed := 0), [Adjust(c.localConsumed)])
    else (c, [])
  }

  /** channel_set_fds on a larval session channel. */
  function Activate(c: Chan, usage: Usage, efdOpen: bool, window: nat): (Chan, seq<Msg>) {
    if c.open then (c, [])
    else
      (c.(open := true, usage := usage, efdOpen := efdOpen, localWindow := window, localWindowMax := window),
       [Adjust(window)])
  }

  // ---- The handlers as the source runs them, on a channel updated in place ----

  class Channel {
    var open: bool
    var istate: Input
    var outputOpen: bool
    var writeFailed: bool
    var closeSent: bool
    var closeRcvd: bool
    var eofSent: bool
    var eofRcvd: bool
    var efdOpen: bool
    var usage: Usage
    var input: seq<Byte>
    var output: seq<Byte>
    var extended: seq<Byte>
    var remoteWindow: nat
    var remoteMaxpacket: nat
    var localWindow: nat
    var localWindowMax: nat
    var localConsumed: nat
    var localMaxpacket: nat

    function View(): Chan
      reads this
    {
      Chan(open, istate, outputOpen, writeFailed, closeSent, closeRcvd, eofSent, eofRcvd, efdOpen, usage,
           input, output, extended, remoteWindow, remoteMaxpacket, localWindow, localWindowMax, localConsumed,
           localMaxpacket)
    }

    method PollInput() returns (sent: seq<Msg>)
      modifies this
      ensures (View(), sent) == PollData(old(View()))
    {
      sent := [];
      if istate != Finished && |input| > 0 {
        var len := |input|;
        if len > remoteWindow { len := remoteWindow; }
        if len > remoteMaxpacket { len := remoteMaxpacket; }
        if len > 0 {
          sent := [Data(input[..len])];
          input := input[len..];
          remoteWindow := Sub32(remoteWindow, len);
        }
      } else if istate == Draining && !(usage == ReadErr && (efdOpen || |extended| > 0)) {
        sent := [Eof];
        eofSent := true;
        istate := Finished;
      }
    }

    method PollStderr() returns (sent: seq<Msg>)
      modifies this
      ensures (View(), sent) == PollExtended(old(View()))
    {
      sent := [];
      if !eofSent && remoteWindow > 0 && |extended| > 0 && usage == ReadErr {
        var len := |extended|;
        if len > remoteWindow { len := remoteWindow; }
        if len > remoteMaxpacket { len := remoteMaxpacket; }
        sent := [Extended(extended[..len])];
        extended := extended[len..];
        remoteWindow := Sub32(remoteWindow, len);
      }
    }

    /** One round of channel_output_poll. */
    method OutputPoll() returns (sent: seq<Msg>)
      modifies this
      ensures (View(), sent) == Poll(old(View()))
    {
      hide PollData, PollExtended;
      if !open || closeSent || closeRcvd { return []; }
      var first := PollInput();
      var second := PollStderr();
      sent := first + second;
    }

    method InputData(data: seq<Byte>) returns (alarm: Alarm)
      modifies this
      ensures (View(), alarm) == ReceiveData(old(View()), data)
    {
      alarm := Quiet;
      if !open { return; }
      if !outputOpen {
        localWindow := Sub32(localWindow, |data|);
        localConsumed := Add32(localConsumed, |data|);
        return;
      }
      if |data| > localWindow { return Overrun; }
      localWindow := Sub32(localWindow, |data|);
      output := output + data;
    }

    method InputExtendedData(data: seq<Byte>) returns (alarm: Alarm)
      modifies this
      ensures (View(), alarm) == ReceiveExtended(old(View()), data)
    {
      alarm := Quiet;
      if !open { return; }
      if eofRcvd { return ExtendedAfterEof; }
      if !efdOpen || usage != WriteErr { return; }
      if |data| > localWindow { return Overrun; }
      localWindow := Sub32(localWindow, |data|);
      extended := extended + data;
    }

    method InputWindowAdjust(adjust: nat) returns (alarm: Alarm)
      modifies this
      ensures (View(), alarm) == ReceiveAdjust(old(View()), adjust)
    {
      var tmp := Add32(remoteWindow, adjust);
      if tmp < remoteWindow { return AdjustOverflow; }
      remoteWindow := tmp;
      alarm := Quiet;
    }

    method CheckWindows() returns (sent: seq<Msg>)
      modifies this
      ensures (View(), sent) == CheckWindow(old(View()))
    {
      sent := [];
      if open && !closeSent && !closeRcvd &&
         (Sub32(localWindowMax, localWindow) > Mul32(localMaxpacket, 3) || localWindow < localWindowMax / 2) &&
         localConsumed > 0 {
        sent := [Adjust(localConsumed)];
        localWindow := Add32(localWindow, localConsumed);
        localConsumed := 0;
      }
    }

    method WriteFailed()
      modifies this
      ensures View() == ShutOutput(old(View()))
    {
      output := [];
      outputOpen := false;
      writeFailed := true;
    }

    method HandleWfd(r: IoResult)
      modifies this
      ensures View() == WriteOutput(old(View()), r)
    {
      if |output| == 0 || r == Retry { return; }
      var olen := |output|;
      if Fails(r) {
        WriteFailed();
        return;
      }
      output := output[Min(r.n, |output|)..];
      localConsumed := Add32(localConsumed, olen - |output|);
    }

    method HandleEfd(r: IoResult)
      modifies this
      ensures View() == WriteExtended(old(View()), r)
    {
      if efdOpen && usage == WriteErr && |extended| > 0 && r != Retry {
        if Fails(r) {
          efdOpen := false;
        } else {
          var len := Min(r.n, |extended|);
          extended := extended[len..];
          localConsumed := Add32(localConsumed, len);
        }
      }
    }

    method InputEof()
      modifies this
      ensures View() == ReceiveEof(old(View()))
    {
      eofRcvd := true;
      outputOpen := false;
    }

    method InputClose() returns (sent: seq<Msg>)
      modifies this
      ensures (View(), sent) == CloseBoth(old(View()))
    {
      closeRcvd := true;
      outputOpen := false;
      sent := [];
      if open && istate == Draining {
        sent := [Eof];
        eofSent := true;
      }
      istate := Finished;
    }

    method SendClose() returns (sent: seq<Msg>)
      modifies this
      ensures (View(), sent) == CloseIfDead(old(View()))
    {
      sent := [];
      if istate == Finished && !outputOpen && |output| == 0 && !closeSent &&
        (writeFailed || usage != WriteErr || !efdOpen || (|extended| == 0 && (eofRcvd || closeRcvd))) {
        sent := [Close];
        closeSent := true;
      }
    }

    /** Only a larval channel may be started; the source stops the program otherwise. */
    method SetFds(usage: Usage, efdOpen: bool, window: nat) returns (sent: seq<Msg>)
      requires !open
      modifies this
      ensures (View(), sent) == Activate(old(View()), usage, efdOpen, window)
    {
      open := true;
      this.usage := usage;
      this.efdOpen := efdOpen;
      localWindow := window;
      localWindowMax := window;
      sent := [Adjust(localWindow)];
    }
  }
}
