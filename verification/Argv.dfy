/** The argument splitter and assembler used for AuthorizedKeysCommand
    (auth2-pubkey.c): a quoting printer and the parser that reads it back. */
module Argv {
  import Seqs

  datatype Result<+T> = Ok(value: T) | InvalidFormat

  predicate IsBlank(c: char) { c == ' ' || c == '\t' }

  /** The characters that a backslash escapes. */
  predicate IsSpecial(c: char) { c == '\\' || c == '\'' || c == '"' }

  predicate HasBlank(a: string) { a != "" && (IsBlank(a[0]) || HasBlank(a[1..])) }

  // ---- What the splitter means, on suffixes of the input ----

  /** A token: its text, what follows its delimiter, and whether it was closed. */
  datatype Token = Token(text: string, rest: string, closed: bool)

  function Push(c: char, t: Token): Token { t.(text := [c] + t.text) }

  /** Reads one token; `quote` is the quote that must close it, or NUL for none. */
  function Scan(s: string, quote: char): (t: Token)
    ensures |t.rest| <= |s|
    ensures s != "" && !IsBlank(s[0]) && quote == '\0' ==> |t.rest| < |s|
    decreases |s|
  {
    if s == "" then Token("", "", quote == '\0')
    else if s[0] == '\\' then
      if |s| > 1 && IsSpecial(s[1]) then Push(s[1], Scan(s[2..], quote))
      else Push('\\', Scan(s[1..], quote))
    else if quote == '\0' && IsBlank(s[0]) then Token("", s[1..], true)
    else if quote != '\0' && s[0] == quote then Token("", s[1..], true)
    else Push(s[0], Scan(s[1..], quote))
  }

  /** How many characters the start-of-token rule skips. */
  function Lead(s: string): (k: nat)
    requires s != ""
    ensures k <= 1
    ensures OpenQuote(s) != '\0' ==> k == 1
  {
    if s[0] == '\\' then (if |s| > 1 && IsSpecial(s[1]) then 1 else 0)
    else if s[0] == '\'' || s[0] == '"' then 1 else 0
  }

  function OpenQuote(s: string): char
    requires s != ""
  {
    if s[0] == '\'' || s[0] == '"' then s[0] else '\0'
  }

  function Append(v: seq<string>, r: Result<seq<string>>): Result<seq<string>> {
    match r case Ok(w) => Ok(v + w) case InvalidFormat => InvalidFormat
  }

  function Split(s: string): Result<seq<string>>
    decreases |s|
  {
    if s == "" then Ok([])
    else if IsBlank(s[0]) then Split(s[1..])
    else
      var t := Scan(s[Lead(s)..], OpenQuote(s));
      if !t.closed then InvalidFormat else Append([t.text], Split(t.rest))
  }

  // ---- The assembler ----

  function Escape(a: string): string {
    if a == "" then ""
    else if IsSpecial(a[0]) then ['\\', a[0]] + Escape(a[1..])
    else [a[0]] + Escape(a[1..])
  }

  function Quoted(a: string): string {
    if HasBlank(a) then ['"'] + Escape(a) + ['"'] else Escape(a)
  }

  function Assemble(v: seq<string>): string {
    if v == [] then "" else Quoted(v[0]) + AssembleMore(v[1..])
  }

  function AssembleMore(v: seq<string>): string {
    if v == [] then "" else " " + (Quoted(v[0]) + AssembleMore(v[1..]))
  }

  function NonEmpty(v: seq<string>): seq<string> {
    if v == [] then [] else (if v[0] == "" then [] else [v[0]]) + NonEmpty(v[1..])
  }

  // ---- What the assembler writes ----

  /** No character needs a backslash. */
  predicate Unescaped(a: string) { forall i :: 0 <= i < |a| ==> a[i] !in ['\\', '\'', '"'] }

  lemma {:induction false} EscapeNothing(a: string)
    requires Unescaped(a)
    ensures Escape(a) == a
  {
    if a != "" { EscapeNothing(a[1..]); }
  }

  lemma {:induction false} BlankInside(a: string)
    ensures HasBlank(a) <==> exists i :: 0 <= i < |a| && a[i] in [' ', '\t']
  {
    if a != "" {
      BlankInside(a[1..]);
      if exists i :: 0 <= i < |a| && a[i] in [' ', '\t'] {
        var i :| 0 <= i < |a| && a[i] in [' ', '\t'];
        if i > 0 { assert a[1..][i - 1] == a[i]; }
      }
    }
  }

  /** Arguments are separated by one space. One without a backslash or a quote is written as it is, between double quotes
      exactly if it has a space or a tab; the others get a backslash each. */
  lemma AssembledText(a: string, c: char, v: seq<string>)
    requires Unescaped(a) && c in ['\\', '\'', '"']
    ensures Assemble([a]) == if exists i :: 0 <= i < |a| && a[i] in [' ', '\t'] then ['"'] + a + ['"'] else a
    ensures Assemble([[c]]) == ['\\', c]
    ensures v != [] ==> Assemble(v + [a]) == Assemble(v) + ([' '] + Assemble([a]))
  {
    EscapeNothing(a);
    BlankInside(a);
    Alone(a);
    Alone([c]);
    assert Escape([c]) == ['\\', c];
    assert !HasBlank([c]);
    if v != [] { AssembleSnoc(v, a); }
  }

  lemma Alone(a: string)
    ensures Assemble([a]) == Quoted(a)
  {
    Seqs.Whole(Quoted(a));
  }

  // ---- What the splitter reads, however it was written ----

  /** Nothing in the text ends or escapes anything inside these quotes. */
  predicate Inside(t: string, q: char) { forall i :: 0 <= i < |t| ==> t[i] !in [q, '\\', '\0'] }

  lemma {:induction false} ScanInside(t: string, q: char, rest: string)
    requires (q == '\'' || q == '"') && Inside(t, q)
    ensures Scan(t + ([q] + rest), q) == Token(t, rest, true)
    ensures Scan(t, q) == Token(t, "", false)
  {
    if t == "" {
      ScanAtEnd(q, rest);
      Seqs.Whole([q] + rest);
    } else {
      hide Scan;
      ScanInside(t[1..], q, rest);
      Seqs.Assoc([t[0]], t[1..], [q] + rest);
      assert t == [t[0]] + t[1..];
      ScanOrdinary(t[0], t[1..] + ([q] + rest), q);
      ScanOrdinary(t[0], t[1..], q);
    }
  }

  lemma ScanAtEnd(q: char, rest: string)
    requires q == '\'' || q == '"'
    ensures Scan([q] + rest, q) == Token("", rest, true) && Scan("", q) == Token("", "", false)
  {
    Seqs.Drop([q], rest);
  }

  /** Text between two quotes of either kind is one argument, blanks and the other quote included; without the second
      quote there is no splitting at all. */
  lemma SplitQuotes(q: char, t: string, rest: string)
    requires (q == '\'' || q == '"') && Inside(t, q)
    ensures Split([q] + (t + ([q] + rest))) == Append([t], Split(rest))
    ensures Split([q] + t) == InvalidFormat
  {
    ScanInside(t, q, rest);
    Seqs.Drop([q], t + ([q] + rest));
    Seqs.Drop([q], t);
    hide Scan;
  }

  /** Characters that mean nothing to the splitter. */
  predicate PlainText(t: string) { forall i :: 0 <= i < |t| ==> t[i] !in [' ', '\t', '\\', '\'', '"', '\0'] }

  lemma {:induction false} ScanBare(t: string, b: char, rest: string)
    requires PlainText(t) && IsBlank(b)
    ensures Scan(t + ([b] + rest), '\0') == Token(t, rest, true)
    ensures Scan(t, '\0') == Token(t, "", true)
  {
    if t == "" {
      Seqs.Whole([b] + rest);
      Seqs.Drop([b], rest);
    } else {
      hide Scan;
      ScanBare(t[1..], b, rest);
      Seqs.Assoc([t[0]], t[1..], [b] + rest);
      assert t == [t[0]] + t[1..];
      ScanOrdinary(t[0], t[1..] + ([b] + rest), '\0');
      ScanOrdinary(t[0], t[1..], '\0');
    }
  }

  /** A run of plain characters up to a space, a tab or the end is one argument, and blanks in front do not count. */
  lemma SplitBare(t: string, b: char, rest: string)
    requires t != "" && PlainText(t) && (b == ' ' || b == '\t')
    ensures Split(t + ([b] + rest)) == Append([t], Split(rest)) && Split(t) == Ok([t])
    ensures Split([b] + rest) == Split(rest)
  {
    hide Scan;
    ScanBare(t, b, rest);
    Seqs.Whole(t + ([b] + rest));
    Seqs.Whole(t);
    Seqs.Whole([t]);
    Seqs.Drop([b], rest);
    assert (t + ([b] + rest))[0] == t[0];
    assert Split("") == Ok([]);
  }

  /** A backslash keeps its own character from ending the argument, quoted or not, and stands for itself before any
      other. */
  lemma ScanBackslash(c: char, tail: string, quote: char)
    ensures Scan(['\\', c] + tail, quote) ==
      if IsSpecial(c) then Push(c, Scan(tail, quote)) else Push('\\', Scan([c] + tail, quote))
  {
    assert (['\\', c] + tail)[1..] == [c] + tail;
    Seqs.Drop(['\\', c], tail);
  }

  lemma ScanDoubled(t: string, b: char, rest: string)
    requires PlainText(t) && IsBlank(b)
    ensures Scan(['\\'] + (t + ([b] + rest)), '\0') == Token(['\\'] + t, rest, true)
  {
    var tail := t + ([b] + rest);
    hide Scan;
    ScanBare(t, b, rest);
    ScanBackslash(tail[0], tail[1..], '\0');
    assert ['\\', tail[0]] + tail[1..] == ['\\'] + tail && [tail[0]] + tail[1..] == tail;
  }

  lemma ScanSingle(c: char, t: string, b: char, rest: string)
    requires PlainText(t) && IsBlank(b) && !IsBlank(c) && c != '\\' && c != '\0'
    ensures Scan([c] + (t + ([b] + rest)), '\0') == Token([c] + t, rest, true)
  {
    hide Scan;
    ScanBare(t, b, rest);
    ScanOrdinary(c, t + ([b] + rest), '\0');
  }

  lemma LeadingBackslash(c: char, tail: string)
    ensures var s := ['\\', c] + tail;
      s[Lead(s)..] == (if IsSpecial(c) then [c] + tail else ['\\'] + ([c] + tail)) && OpenQuote(s) == '\0' && !IsBlank(s[0])
  {
    var s := ['\\', c] + tail;
    assert s[1] == c && s[1..] == [c] + tail && s == ['\\'] + ([c] + tail);
  }

  /** An argument may begin with an escaped character; a backslash in front of any other character stands for itself. */
  lemma SplitLeadingBackslash(c: char, t: string, b: char, rest: string)
    requires PlainText(t) && (b == ' ' || b == '\t') && c != ' ' && c != '\t' && c != '\0'
    ensures Split(['\\', c] + (t + ([b] + rest))) ==
      Append([if c == '\\' || c == '\'' || c == '"' then [c] + t else ['\\'] + ([c] + t)], Split(rest))
  {
    hide Scan, Lead, OpenQuote;
    LeadingBackslash(c, t + ([b] + rest));
    if c == '\\' {
      ScanDoubled(t, b, rest);
    } else if IsSpecial(c) {
      ScanSingle(c, t, b, rest);
    } else {
      assert PlainText([c] + t);
      Seqs.Assoc([c], t, [b] + rest);
      ScanDoubled([c] + t, b, rest);
    }
  }

  // ---- Scanning inverts escaping ----

  lemma ScanEscaped(c: char, tail: string, quote: char)
    requires IsSpecial(c)
    ensures Scan(['\\', c] + tail, quote) == Push(c, Scan(tail, quote))
  {
    Seqs.Drop(['\\', c], tail);
  }

  lemma ScanOrdinary(c: char, tail: string, quote: char)
    requires c != '\\' && c != quote && (quote == '\0' ==> !IsBlank(c))
    ensures Scan([c] + tail, quote) == Push(c, Scan(tail, quote))
  {
    Seqs.Drop([c], tail);
  }

  /** Reading one escaped character of an argument, under any quote it does not end. */
  lemma ScanOne(a: string, rest: string, quote: char)
    requires a != "" && (quote == '\0' ==> !IsBlank(a[0])) && (quote == '\0' || IsSpecial(quote)) && a[0] != '\0'
    ensures Scan(Escape(a) + rest, quote) == Push(a[0], Scan(Escape(a[1..]) + rest, quote))
  {
    var e := Escape(a[1..]);
    if IsSpecial(a[0]) {
      Seqs.Assoc(['\\', a[0]], e, rest);
      ScanEscaped(a[0], e + rest, quote);
    } else {
      Seqs.Assoc([a[0]], e, rest);
      ScanOrdinary(a[0], e + rest, quote);
    }
  }

  lemma PushHead(a: string, t: Token)
    requires a != "" && t.text == a[1..]
    ensures Push(a[0], t) == t.(text := a)
  {
  }

  lemma {:induction false} ScanQuoted(a: string, rest: string)
    requires '\0' !in a
    ensures Scan(Escape(a) + (['"'] + rest), '"') == Token(a, rest, true)
  {
    if a == "" {
      Seqs.Whole(['"'] + rest);
      Seqs.Drop(['"'], rest);
    } else {
      hide Scan, Escape;
      ScanQuoted(a[1..], rest);
      ScanOne(a, ['"'] + rest, '"');
      PushHead(a, Token(a[1..], rest, true));
    }
  }

  /** What may follow an unquoted argument, and what the splitter is left with after it. */
  predicate Stop(rest: string) { rest == "" || rest[0] == ' ' }

  function After(rest: string): string { if rest == "" then "" else rest[1..] }

  lemma {:induction false} ScanPlain(a: string, rest: string)
    requires !HasBlank(a) && '\0' !in a && Stop(rest)
    ensures Scan(Escape(a) + rest, '\0') == Token(a, After(rest), true)
  {
    if a == "" {
      Seqs.Whole(rest);
    } else {
      hide Scan, Escape;
      ScanPlain(a[1..], rest);
      ScanOne(a, rest, '\0');
      PushHead(a, Token(a[1..], After(rest), true));
    }
  }

  lemma ScanLoneBackslash(tail: string)
    requires tail == "" || !IsSpecial(tail[0])
    ensures Scan("\\" + tail, '\0') == Push('\\', Scan(tail, '\0'))
  {
    Seqs.Drop("\\", tail);
  }

  /** The splitter drops the first backslash of an escaped argument, so the rest of a run of
      backslashes is read one character out of step; the text still comes out whole. */
  lemma {:induction false} ScanMisaligned(a: string, rest: string)
    requires a != "" && IsSpecial(a[0]) && !HasBlank(a) && '\0' !in a && Stop(rest)
    ensures Scan([a[0]] + (Escape(a[1..]) + rest), '\0') == Token(a, After(rest), true)
  {
    hide Scan;
    var b := a[1..];
    PushHead(a, Token(b, After(rest), true));
    if a[0] != '\\' {
      ScanPlain(b, rest);
      ScanOrdinary(a[0], Escape(b) + rest, '\0');
    } else if b != "" && IsSpecial(b[0]) {
      ScanMisaligned(b, rest);
      RunOfBackslashes(b, rest);
      ScanEscaped('\\', [b[0]] + (Escape(b[1..]) + rest), '\0');
    } else {
      ScanPlain(b, rest);
      ScanLoneBackslash(Escape(b) + rest);
    }
  }

  lemma RunOfBackslashes(b: string, rest: string)
    requires b != "" && IsSpecial(b[0])
    ensures "\\" + (Escape(b) + rest) == ['\\', '\\'] + ([b[0]] + (Escape(b[1..]) + rest))
  {
  }

  lemma SplitSkipsBlank(rest: string)
    requires Stop(rest)
    ensures Split(rest) == Split(After(rest))
  {
  }

  /** The start-of-token rule on an assembled argument. */
  lemma OpenArgument(a: string, rest: string)
    requires a != "" && '\0' !in a && Stop(rest)
    ensures var s := Quoted(a) + rest;
      s != "" && !IsBlank(s[0]) &&
      Scan(s[Lead(s)..], OpenQuote(s)) == Token(a, if HasBlank(a) then rest else After(rest), true)
  {
    hide Scan, Escape, HasBlank;
    QuotedShape(a, rest);
    if HasBlank(a) {
      ScanQuoted(a, rest);
    } else if IsSpecial(a[0]) {
      ScanMisaligned(a, rest);
    } else {
      ScanPlain(a, rest);
      Seqs.Whole(Quoted(a) + rest);
    }
  }

  lemma QuotedShape(a: string, rest: string)
    requires a != ""
    ensures var s := Quoted(a) + rest;
      if HasBlank(a) then s != "" && s[0] == '"' && s[1..] == Escape(a) + (['"'] + rest)
      else if IsSpecial(a[0]) then |s| > 1 && s[0] == '\\' && s[1] == a[0] && s[1..] == [a[0]] + (Escape(a[1..]) + rest)
      else s != "" && s[0] == a[0] && s == Escape(a) + rest && !IsBlank(a[0])
  {
    if HasBlank(a) {
      hide Escape;
      Wrapped('"', Escape(a), rest);
    } else if IsSpecial(a[0]) {
      Prefixed('\\', a[0], Escape(a[1..]), rest);
    }
  }

  lemma Wrapped(q: char, e: string, rest: string)
    ensures var s := [q] + e + [q] + rest; s[0] == q && s[1..] == e + ([q] + rest)
  {
  }

  lemma Prefixed(b: char, c: char, e: string, rest: string)
    ensures var s := [b, c] + e + rest; s[0] == b && s[1] == c && s[1..] == [c] + (e + rest)
  {
  }

  /** One assembled argument in front of whatever the assembler puts after it. */
  lemma SplitArgument(a: string, rest: string)
    requires a != "" && '\0' !in a && Stop(rest)
    ensures Split(Quoted(a) + rest) == Append([a], Split(rest))
  {
    hide Scan, Lead, OpenQuote, Quoted, HasBlank;
    SplitSkipsBlank(rest);
    OpenArgument(a, rest);
  }

  predicate NulFree(v: seq<string>) { forall k :: 0 <= k < |v| ==> '\0' !in v[k] }

  lemma {:induction false} SplitMore(v: seq<string>)
    requires NulFree(v)
    ensures Split(AssembleMore(v)) == Ok(NonEmpty(v))
  {
    if v != [] {
      SplitMore(v[1..]);
      SplitNext(v);
      Seqs.Drop(" ", Assemble(v));
      SplitSkipsBlank(" " + Assemble(v));
    }
  }

  lemma SplitNext(v: seq<string>)
    requires NulFree(v) && v != []
    requires Split(AssembleMore(v[1..])) == Ok(NonEmpty(v[1..]))
    ensures Split(Assemble(v)) == Ok(NonEmpty(v))
  {
    hide Split, Quoted;
    var rest := AssembleMore(v[1..]);
    if v[0] == "" {
      EmptyArgument(rest);
      Seqs.Whole(NonEmpty(v[1..]));
    } else {
      SplitArgument(v[0], rest);
    }
  }

  lemma EmptyArgument(rest: string)
    ensures Quoted("") + rest == rest
  {
  }

  /** Splitting what was assembled gives back exactly the non-empty arguments, in order. */
  lemma SplitOfAssemble(v: seq<string>)
    requires NulFree(v)
    ensures Split(Assemble(v)) == Ok(NonEmpty(v))
  {
    if v != [] {
      SplitMore(v[1..]);
      SplitNext(v);
    }
  }

  lemma {:induction false} NonEmptyIsIdentityIff(v: seq<string>)
    ensures |NonEmpty(v)| <= |v|
    ensures NonEmpty(v) == v <==> forall k :: 0 <= k < |v| ==> v[k] != ""
  {
    if v != [] {
      NonEmptyIsIdentityIff(v[1..]);
      assert v == [v[0]] + v[1..];
      if v[0] != "" {
        assert NonEmpty(v) == v <==> NonEmpty(v[1..]) == v[1..] by {
          assert NonEmpty(v)[1..] == NonEmpty(v[1..]);
        }
      }
    }
  }

  /** The round trip holds exactly when no argument is empty. */
  lemma RoundTripIff(v: seq<string>)
    requires NulFree(v)
    ensures Split(Assemble(v)) == Ok(v) <==> forall k :: 0 <= k < |v| ==> v[k] != ""
  {
    SplitOfAssemble(v);
    NonEmptyIsIdentityIff(v);
  }

  // ---- The two routines as the source runs them ----

  /** A C string read: the terminator sits at index |s|, and nothing may be read past it. */
  function At(s: string, i: nat): char
    requires i <= |s|
  {
    if i < |s| then s[i] else '\0'
  }

  lemma AppendAssociates(v: seq<string>, a: string, r: Result<seq<string>>)
    ensures Append(v, Append([a], r)) == Append(v + [a], r)
  {
    if r.Ok? { assert v + ([a] + r.value) == v + [a] + r.value; }
  }

  /** What is known when the splitter stands at index i with `argv` already read. */
  ghost predicate Pending(s: string, i: nat, argv: seq<string>)
    requires i <= |s|
  {
    Split(s) == Append(argv, Split(s[i..]))
  }

  lemma PendingStart(s: string)
    ensures Pending(s, 0, [])
  {
    Seqs.Whole(s);
    if Split(s).Ok? { Seqs.Whole(Split(s).value); }
  }

  lemma PendingBlank(s: string, i: nat, argv: seq<string>)
    requires i < |s| && IsBlank(s[i]) && Pending(s, i, argv)
    ensures Pending(s, i + 1, argv)
  {
    Seqs.DropDrop(s, i, 1);
  }

  lemma SplitToken(u: string)
    requires u != "" && !IsBlank(u[0])
    ensures var t := Scan(u[Lead(u)..], OpenQuote(u));
      Split(u) == if !t.closed then InvalidFormat else Append([t.text], Split(t.rest))
  {
  }

  /** A token whose text starts at `body` and which stops at `end`. */
  lemma PendingToken(s: string, i: nat, argv: seq<string>, body: nat, end: nat)
    requires i < |s| && !IsBlank(s[i]) && Pending(s, i, argv)
    requires body == i + Lead(s[i..]) && body <= end <= |s|
    requires ReadTo(s, body, OpenQuote(s[i..]), end)
    ensures var t := Scan(s[body..], OpenQuote(s[i..]));
      if !t.closed then Split(s).InvalidFormat?
      else Pending(s, if end == |s| then |s| else end + 1, argv + [t.text])
  {
    hide Scan, Lead, OpenQuote, Split;
    SplitToken(s[i..]);
    Seqs.DropDrop(s, i, body - i);
    var t := Scan(s[body..], OpenQuote(s[i..]));
    if t.closed {
      AppendAssociates(argv, t.text, Split(t.rest));
      if end == |s| { assert t.rest == s[|s|..]; }
    }
  }

  /** The token at s[body..] stops at `end`, the terminator or its delimiter. */
  ghost predicate ReadTo(s: string, body: nat, quote: char, end: nat)
    requires body <= |s| && end <= |s|
  {
    var t := Scan(s[body..], quote);
    if end == |s| then t.rest == "" && t.closed == (quote == '\0')
    else t.closed && t.rest == s[end + 1..]
  }

  method SplitArgv(s: string) returns (r: Result<seq<string>>)
    requires '\0' !in s
    ensures r == Split(s)
  {
    hide Scan, Split;
    var argv: seq<string> := [];
    var i := 0;
    PendingStart(s);
    while At(s, i) != '\0'
      invariant 0 <= i <= |s| && Pending(s, i, argv)
      decreases |s| - i
    {
      ghost var start := i;
      if IsBlank(At(s, i)) {
        PendingBlank(s, i, argv);
        i := i + 1;
        continue;
      }
      var quote := '\0';
      if At(s, i) == '\\' && IsSpecial(At(s, i + 1)) {
        i := i + 1;
      } else if At(s, i) == '\'' || At(s, i) == '"' {
        quote := At(s, i);
        i := i + 1;
      }
      var arg, end := CopyToken(s, i, quote);
      PendingToken(s, start, argv, i, end);
      i := end;
      if At(s, i) == '\0' && quote != '\0' { return InvalidFormat; }
      argv := argv + [arg];
      if At(s, i) == '\0' { break; }
      i := i + 1;
    }
    Done(s, argv);
    r := Ok(argv);
  }

  lemma Done(s: string, argv: seq<string>)
    requires Pending(s, |s|, argv)
    ensures Split(s) == Ok(argv)
  {
    Seqs.Whole(s);
    Seqs.Whole(argv);
  }

  /** The token that a copy loop has still to read from s[i..], after the text it has stored. */
  ghost predicate Copied(s: string, start: nat, i: nat, quote: char, text: string)
    requires start <= i <= |s|
  {
    var now, whole := Scan(s[i..], quote), Scan(s[start..], quote);
    whole == Token(text + now.text, now.rest, now.closed)
  }

  lemma CopiedStep(s: string, start: nat, i: nat, quote: char, text: string, next: nat, c: char)
    requires start <= i < next <= |s| && Copied(s, start, i, quote, text)
    requires Scan(s[i..], quote) == Push(c, Scan(s[next..], quote))
    ensures Copied(s, start, next, quote, text + [c])
  {
    assert text + ([c] + Scan(s[next..], quote).text) == text + [c] + Scan(s[next..], quote).text;
  }

  lemma CopiedAll(s: string, start: nat, i: nat, quote: char, text: string)
    requires start <= i <= |s| && Copied(s, start, i, quote, text)
    requires i == |s| || (s[i] != '\\' && if quote == '\0' then IsBlank(s[i]) else s[i] == quote)
    ensures ReadTo(s, start, quote, i) && text == Scan(s[start..], quote).text
  {
    Seqs.Whole(text);
    if i < |s| { Seqs.DropDrop(s, i, 1); }
  }

  /** One turn of the copy loop: how far it moves and what it stores. */
  lemma CopyTurn(s: string, i: nat, quote: char)
    requires i < |s|
    requires s[i] == '\\' || !(if quote == '\0' then IsBlank(s[i]) else s[i] == quote)
    ensures var k := if s[i] == '\\' && i + 1 < |s| && IsSpecial(s[i + 1]) then i + 1 else i;
      Scan(s[i..], quote) == Push(s[k], Scan(s[k + 1..], quote))
  {
    Seqs.DropDrop(s, i, 1);
    if s[i] == '\\' && i + 1 < |s| && IsSpecial(s[i + 1]) { Seqs.DropDrop(s, i, 2); }
  }

  /** The copy loop: text of the token at s[start..] into a buffer of strlen(s + start) + 1 bytes. */
  method CopyToken(s: string, start: nat, quote: char) returns (arg: string, end: nat)
    requires start <= |s| && '\0' !in s
    ensures start <= end <= |s|
    ensures arg == Scan(s[start..], quote).text && ReadTo(s, start, quote, end)
  {
    hide Scan;
    var buf := new char[|s| - start + 1];
    var i, j := start, 0;
    Seqs.Whole(Scan(s[start..], quote).text);
    while At(s, i) != '\0'
      invariant start <= i <= |s| && 0 <= j <= i - start
      invariant Copied(s, start, i, quote, buf[..j])
      decreases |s| - i
    {
      ghost var text, from := buf[..j], i;
      if At(s, i) == '\\' {
        if IsSpecial(At(s, i + 1)) { i := i + 1; }
      } else if quote == '\0' && IsBlank(At(s, i)) {
        break;
      } else if quote != '\0' && At(s, i) == quote {
        break;
      }
      CopyTurn(s, from, quote);
      CopiedStep(s, start, from, quote, text, i + 1, s[i]);
      buf[j] := At(s, i);
      assert buf[..j + 1] == text + [s[i]];
      j := j + 1;
      i := i + 1;
    }
    arg, end := buf[..j], i;
    CopiedAll(s, start, i, quote, arg);
  }

  lemma {:induction false} AssembleMoreSnoc(v: seq<string>, a: string)
    ensures AssembleMore(v + [a]) == AssembleMore(v) + (" " + Quoted(a))
  {
    hide Quoted;
    if v == [] {
      Seqs.Whole([a]);
      Seqs.Whole(" " + Quoted(a));
      Seqs.Whole(Quoted(a));
      assert [a][1..] == [];
    } else {
      AssembleMoreSnoc(v[1..], a);
      Seqs.TailSnoc(v, a);
      var q, m, e := Quoted(v[0]), AssembleMore(v[1..]), " " + Quoted(a);
      Seqs.Assoc(q, m, e);
      Seqs.Assoc(" ", q + m, e);
    }
  }

  lemma AssembleSnoc(v: seq<string>, a: string)
    ensures Assemble(v + [a]) == if v == [] then Quoted(a) else Assemble(v) + (" " + Quoted(a))
  {
    hide Quoted;
    if v == [] {
      Seqs.Whole([a]);
      Seqs.Whole(Quoted(a));
      assert [a][1..] == [];
    } else {
      AssembleMoreSnoc(v[1..], a);
      Seqs.TailSnoc(v, a);
      Seqs.Assoc(Quoted(v[0]), AssembleMore(v[1..]), " " + Quoted(a));
    }
  }

  lemma {:induction false} EscapeSnoc(a: string, c: char)
    ensures Escape(a + [c]) == Escape(a) + (if IsSpecial(c) then ['\\', c] else [c])
    ensures HasBlank(a + [c]) == (HasBlank(a) || IsBlank(c))
  {
    var e := if IsSpecial(c) then ['\\', c] else [c];
    if a == "" {
      Seqs.Whole([c]);
      Seqs.Whole(e);
      assert [c][1..] == "";
    } else {
      EscapeSnoc(a[1..], c);
      Seqs.TailSnoc(a, c);
      Seqs.Assoc(if IsSpecial(a[0]) then ['\\', a[0]] else [a[0]], Escape(a[1..]), e);
    }
  }

  /** The inner loop of the assembler: escapes one argument and notes whether it has a blank. */
  method EscapeArgument(a: string) returns (arg: string, ws: bool)
    ensures arg == Escape(a) && ws == HasBlank(a)
  {
    ws, arg := false, "";
    for j := 0 to |a|
      invariant arg == Escape(a[..j]) && ws == HasBlank(a[..j])
    {
      var c := a[j];
      EscapeSnoc(a[..j], c);
      assert a[..j + 1] == a[..j] + [c];
      if IsBlank(c) {
        ws := true;
        arg := arg + [c];
      } else {
        if IsSpecial(c) { arg := arg + ['\\', c]; } else { arg := arg + [c]; }
      }
    }
    assert a[..|a|] == a;
  }

  method AssembleArgv(argv: seq<string>) returns (ret: string)
    ensures ret == Assemble(argv)
  {
    ret := "";
    for i := 0 to |argv|
      invariant ret == Assemble(argv[..i])
    {
      var arg, ws := EscapeArgument(argv[i]);
      AssembleSnoc(argv[..i], argv[i]);
      Seqs.Snoc(argv, i);
      if ws { arg := ['"'] + arg + ['"']; }
      if i != 0 { arg := " " + arg; }
      ret := ret + arg;
    }
    Seqs.Whole(argv);
  }
}
