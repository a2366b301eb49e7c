/** The client's tilde-escape filter (clientloop.c): bytes typed by the user are forwarded to the
    server, except that an escape character at the start of a line introduces a local command. */
module EscapeFilter {
  import Seqs

  type Byte = b: int | 0 <= b < 256

  const DOT: int := 46
  const CTRL_Z: int := 26
  const AMPERSAND: int := 38
  const EOT: Byte := 4

  predicate IsNewline(ch: int) { ch == 13 || ch == 10 }

  /** The characters that mean a command after the escape character:
      '.', ^Z, 'B', 'R', 'V', 'v', '&', '?', '#' and 'C'. */
  predicate IsCommand(ch: int) {
    ch == DOT || ch == CTRL_Z || ch == 66 || ch == 82 || ch == 86 || ch == 118 ||
    ch == AMPERSAND || ch == 63 || ch == 35 || ch == 67
  }

  datatype Fork = ForkFailed | InParent | InChild

  /** `mux` says that the session is multiplexed over a control channel. */
  datatype Config = Config(escapeChar: int, mux: bool, fork: Fork)

  datatype End = Running | Quit | Abandoned | Exited | Backgrounded

  /** `bin` is what has been forwarded; `commands` are the commands carried out, in order. */
  datatype Session = Session(pending: bool, lastWasCr: bool, bin: seq<Byte>, commands: seq<Byte>, end: End)

  /** The state in which client_loop starts a session. */
  const START: Session := Session(false, true, [], [], Running)

  function RunCommand(cfg: Config, s: Session, ch: Byte): Session {
    var done := s.(pending := false, commands := s.commands + [ch]);
    if ch == DOT then
      if cfg.mux then done.(end := Abandoned, bin := []) else done.(end := Quit)
    else if ch == AMPERSAND && !cfg.mux then
      match cfg.fork
      case ForkFailed => done
      case InParent => done.(end := Exited)
      case InChild => done.(end := Backgrounded, bin := done.bin + [EOT])
    else done
  }

  function Forward(s: Session, bytes: seq<Byte>, ch: Byte): Session {
    s.(pending := false, lastWasCr := IsNewline(ch), bin := s.bin + bytes + [ch])
  }

  /** What one byte does to a live session. */
  function Step(cfg: Config, s: Session, ch: Byte): Session {
    if s.end != Running then s
    else if s.pending then
      if IsCommand(ch) then RunCommand(cfg, s, ch)
      else if ch != cfg.escapeChar then Forward(s, EscapeByte(cfg), ch)
      else Forward(s, [], ch)
    else if s.lastWasCr && ch == cfg.escapeChar then s.(pending := true)
    else Forward(s, [], ch)
  }

  /** The escape character as buffer_put_char stores it. */
  function EscapeByte(cfg: Config): seq<Byte> { [cfg.escapeChar % 256] }

  function Feed(cfg: Config, s: Session, input: seq<Byte>): Session
    decreases |input|
  {
    if input == [] then s else Feed(cfg, Step(cfg, s, input[0]), input[1..])
  }

  /** Cutting the input into chunks changes nothing, wherever the cuts fall. */
  lemma {:induction false} FeedConcat(cfg: Config, s: Session, a: seq<Byte>, b: seq<Byte>)
    ensures Feed(cfg, s, a + b) == Feed(cfg, Feed(cfg, s, a), b)
    decreases |a|
  {
    if a == [] {
      Seqs.Whole(b);
    } else {
      Seqs.Assoc([a[0]], a[1..], b);
      Seqs.Drop([a[0]], a[1..] + b);
      Seqs.Split(a, 1);
      assert a[..1] == [a[0]];
      FeedConcat(cfg, Step(cfg, s, a[0]), a[1..], b);
    }
  }

  function FeedChunks(cfg: Config, s: Session, chunks: seq<seq<Byte>>): Session
    decreases |chunks|
  {
    if chunks == [] then s else FeedChunks(cfg, Feed(cfg, s, chunks[0]), chunks[1..])
  }

  /** Any two ways of cutting the same input agree on the forwarded bytes, on the commands run
      and on the final state of the filter. */
  lemma {:induction false} ChunkingIsInvisible(cfg: Config, s: Session, chunks: seq<seq<Byte>>)
    ensures FeedChunks(cfg, s, chunks) == Feed(cfg, s, Seqs.Flatten(chunks))
    decreases |chunks|
  {
    if chunks != [] {
      FeedConcat(cfg, s, chunks[0], Seqs.Flatten(chunks[1..]));
      ChunkingIsInvisible(cfg, Feed(cfg, s, chunks[0]), chunks[1..]);
    }
  }

  /** How a user types text that must arrive unchanged: the escape character is doubled
      wherever it would be recognised. */
  function Protect(escapeChar: int, lineStart: bool, text: seq<Byte>): seq<Byte>
    decreases |text|
  {
    if text == [] then []
    else
      var more := Protect(escapeChar, IsNewline(text[0]), text[1..]);
      if lineStart && text[0] == escapeChar then [text[0]] + ([text[0]] + more)
      else [text[0]] + more
  }

  lemma FeedOne(cfg: Config, s: Session, ch: Byte, more: seq<Byte>)
    ensures Feed(cfg, s, [ch] + more) == Feed(cfg, Step(cfg, s, ch), more)
  {
    Seqs.Drop([ch], more);
  }

  /** From any live, idle state, protected text is forwarded unchanged and no command runs. */
  lemma {:induction false} ProtectedArrives(cfg: Config, s: Session, text: seq<Byte>)
    requires !IsCommand(cfg.escapeChar) && s.end == Running && !s.pending
    ensures var t := Feed(cfg, s, Protect(cfg.escapeChar, s.lastWasCr, text));
      t.bin == s.bin + text && t.commands == s.commands && t.end == Running && !t.pending
    decreases |text|
  {
    hide Feed;
    if text == [] {
      FeedNothing(cfg, s);
      Seqs.Whole(s.bin);
    } else {
      var ch := text[0];
      var more := Protect(cfg.escapeChar, IsNewline(ch), text[1..]);
      var t := Forward(s, [], ch);
      if s.lastWasCr && ch == cfg.escapeChar {
        FeedOne(cfg, s, ch, [ch] + more);
        FeedOne(cfg, s.(pending := true), ch, more);
      } else {
        FeedOne(cfg, s, ch, more);
      }
      ProtectedArrives(cfg, t, text[1..]);
      Rejoin(s.bin, text);
    }
  }

  lemma FeedAt(cfg: Config, s: Session, buf: seq<Byte>, i: nat)
    requires i < |buf|
    ensures Feed(cfg, s, buf[i..]) == Feed(cfg, Step(cfg, s, buf[i]), buf[i + 1..])
  {
    Seqs.DropDrop(buf, i, 1);
  }

  lemma FeedNothing(cfg: Config, s: Session)
    ensures Feed(cfg, s, []) == s
  {
  }

  lemma Rejoin(bin: seq<Byte>, text: seq<Byte>)
    requires text != []
    ensures (bin + [] + [text[0]]) + text[1..] == bin + text
  {
  }

  // ---- What each pair of bytes does ----

  /** At the start of a line the escape character and one more byte: a command is carried out and nothing forwarded,
      doubling forwards one, and any other byte is forwarded behind the escape character. */
  lemma EscapePair(cfg: Config, s: Session, e: Byte, ch: Byte)
    requires cfg.escapeChar == e && s.end == Running && !s.pending && s.lastWasCr
    ensures var t := Feed(cfg, s, [e, ch]);
      if ch in {46, 26, 66, 82, 86, 118, 38, 63, 35, 67} then
        t.commands == s.commands + [ch] && !t.pending && t.lastWasCr &&
        (t.end, t.bin) ==
          if ch == 46 then (if cfg.mux then (Abandoned, []) else (Quit, s.bin))
          else if ch == 38 && !cfg.mux && cfg.fork == InParent then (Exited, s.bin)
          else if ch == 38 && !cfg.mux && cfg.fork == InChild then (Backgrounded, s.bin + [4])
          else (Running, s.bin)
      else
        t == s.(bin := s.bin + (if ch == e then [e] else [e, ch]), lastWasCr := ch == 13 || ch == 10)
  {
    assert [e, ch] == [e] + ([ch] + []);
    FeedOne(cfg, s, e, [ch] + []);
    FeedOne(cfg, s.(pending := true), ch, []);
    FeedNothing(cfg, Step(cfg, s.(pending := true), ch));
    hide Feed;
    assert e % 256 == e;
    assert s.bin + [e] + [ch] == s.bin + [e, ch];
    Seqs.Whole(s.bin);
  }

  /** Any other byte is forwarded, and only after a carriage return or a newline is the escape character looked for. */
  lemma LineStarts(cfg: Config, s: Session, b: Byte, e: Byte)
    requires cfg.escapeChar == e && s.end == Running && !s.pending && !(s.lastWasCr && b == e)
    ensures var t := Feed(cfg, s, [b, e]);
      t == if b == 13 || b == 10 then s.(bin := s.bin + [b], lastWasCr := true, pending := true)
           else s.(bin := s.bin + [b, e], lastWasCr := e == 13 || e == 10)
  {
    assert [b, e] == [b] + ([e] + []);
    FeedOne(cfg, s, b, [e] + []);
    FeedOne(cfg, Step(cfg, s, b), e, []);
    FeedNothing(cfg, Step(cfg, Step(cfg, s, b), e));
    hide Feed;
    Seqs.Whole(s.bin);
    Seqs.Whole(s.bin + [b]);
    assert s.bin + [b] + [e] == s.bin + [b, e];
  }

  ghost predicate ArrivesUnchanged(cfg: Config, text: seq<Byte>) {
    var t := Feed(cfg, START, Protect(cfg.escapeChar, true, text));
    t.bin == text && t.commands == []
  }

  /** Doubling protects every text exactly when the escape character is not itself the letter of
      a command; carriage return and newline are allowed as escape characters. */
  lemma DoublingProtectsIff(cfg: Config)
    ensures (forall text: seq<Byte> :: ArrivesUnchanged(cfg, text)) <==> !IsCommand(cfg.escapeChar)
  {
    if IsCommand(cfg.escapeChar) {
      var e: Byte := cfg.escapeChar;
      CommandLetterIsNotProtected(cfg, e);
      assert !ArrivesUnchanged(cfg, [e]);
    } else {
      forall text: seq<Byte> ensures ArrivesUnchanged(cfg, text) {
        ProtectedArrives(cfg, START, text);
        Seqs.Whole(text);
      }
    }
  }

  lemma CommandLetterIsNotProtected(cfg: Config, e: Byte)
    requires cfg.escapeChar == e && IsCommand(e)
    ensures !ArrivesUnchanged(cfg, [e])
  {
    var p := START.(pending := true);
    assert [e][1..] == [];
    assert Protect(e, true, [e]) == [e] + [e];
    FeedOne(cfg, START, e, [e]);
    assert [e] == [e] + [];
    FeedOne(cfg, p, e, []);
    assert Feed(cfg, START, [e] + [e]) == RunCommand(cfg, p, e);
    assert RunCommand(cfg, p, e).commands == [e];
  }

  /** The filter as the client runs it, over the channel's filter context and the global
      last_was_cr flag. */
  class Filter {
    const cfg: Config
    var pending: bool
    var lastWasCr: bool
    var bin: seq<Byte>
    var commands: seq<Byte>
    var end: End

    constructor (cfg: Config)
      ensures this.cfg == cfg && State() == START
    {
      this.cfg := cfg;
      pending, lastWasCr, bin, commands, end := false, true, [], [], Running;
    }

    function State(): Session
      reads this
    {
      Session(pending, lastWasCr, bin, commands, end)
    }

    /** Returns the number of bytes forwarded, 0 when a multiplexed session was abandoned,
        and -1 when reading must stop. */
    method ProcessEscapes(buf: seq<Byte>) returns (bytes: int)
      requires end == Running
      modifies this
      ensures State() == Feed(cfg, old(State()), buf)
      ensures end == Running ==> bytes == |bin| - |old(bin)|
      ensures end == Abandoned ==> bytes == 0
      ensures end != Running && end != Abandoned ==> bytes == -1
    {
      hide Feed;
      bytes := 0;
      var i := 0;
      Seqs.Whole(buf);
      while i < |buf|
        invariant 0 <= i <= |buf| && end == Running && bytes == |bin| - |old(bin)|
        invariant Feed(cfg, old(State()), buf) == Feed(cfg, State(), buf[i..])
      {
        var ch := buf[i];
        FeedAt(cfg, State(), buf, i);
        ghost var before := State();
        i := i + 1;
        if pending {
          pending := false;
          if ch == DOT {
            commands := commands + [ch];
            ghost var last := RunCommand(cfg, before, ch);
            if cfg.mux {
              end, bin := Abandoned, [];
              EndedStays(cfg, last, buf[i..]);
              return 0;
            }
            end := Quit;
            EndedStays(cfg, last, buf[i..]);
            return -1;
          } else if ch == AMPERSAND && !cfg.mux {
            commands := commands + [ch];
            ghost var last := RunCommand(cfg, before, ch);
            match cfg.fork {
              case ForkFailed => continue;
              case InParent => end := Exited;
              case InChild => end, bin := Backgrounded, bin + [EOT];
            }
            EndedStays(cfg, last, buf[i..]);
            return -1;
          } else if IsCommand(ch) {
            commands := commands + [ch];
            continue;
          } else if ch != cfg.escapeChar {
            bin := bin + EscapeByte(cfg);
            bytes := bytes + 1;
          }
        } else if lastWasCr && ch == cfg.escapeChar {
          pending := true;
          continue;
        }
        lastWasCr := IsNewline(ch);
        bin := bin + [ch];
        bytes := bytes + 1;
        Seqs.Whole(before.bin);
      }
      FeedNothing(cfg, State());
    }
  }

  lemma {:induction false} EndedStays(cfg: Config, s: Session, input: seq<Byte>)
    requires s.end != Running
    ensures Feed(cfg, s, input) == s
    decreases |input|
  {
    if input != [] { EndedStays(cfg, s, input[1..]); }
  }
}
