/** CIDR parsing and address lists (addrmatch.c). */
module AddrList {
  import opened AddrMatch
  import opened Wrappers
  import Seqs

  /** What the code asks of the C library: numeric address parsing (getaddrinfo with
      AI_NUMERICHOST), decimal parsing of a whole string (strtoul), and wildcard matching. */
  datatype Env = Env(pton: string -> Option<Addr>, strtoul: string -> Option<nat>, wild: (string, string) -> bool)

  datatype Cidr = ParseError | Inconsistent | Network(addr: Addr, masklen: nat)

  const ADDRBUF: nat := 64

  /** The first c in s, or |s|. */
  function IndexOf(s: string, c: char): (i: nat)
    ensures i <= |s| && (i < |s| ==> s[i] == c) && forall k :: 0 <= k < i ==> s[k] != c
  {
    if s == "" then 0 else if s[0] == c then 0 else 1 + IndexOf(s[1..], c)
  }

  // ---- One entry ----

  /** The network that an address and a prefix length stand for, when they are consistent. */
  ghost function Checked(a: Addr, l: nat): Cidr {
    if MaskValid(a.af, l) && ZeroFrom(a, l) then Network(a, l) else Inconsistent
  }

  ghost function ParseCidr(env: Env, p: string): Cidr {
    var i := IndexOf(p, '/');
    if |p| >= ADDRBUF then ParseError
    else if i == |p| then
      (match env.pton(p) case None => ParseError case Some(a) => Checked(a, Width(a.af)))
    else
      match env.strtoul(p[i + 1..])
      case None => ParseError
      case Some(l) =>
        if p[i + 1..] == "" || l > 128 then ParseError
        else match env.pton(p[..i]) case None => ParseError case Some(a) => Checked(a, l)
  }

  method AddrPtonCidr(env: Env, p: string) returns (r: Cidr)
    ensures r == ParseCidr(env, p)
  {
    hide ZeroFrom;
    if |p| >= ADDRBUF { return ParseError; }
    var i := IndexOf(p, '/');
    var masklen := 999;
    var name := p;
    if i < |p| {
      name := p[..i];
      var mp := p[i + 1..];
      var n := env.strtoul(mp);
      if n.None? || mp == "" || n.value > 128 { return ParseError; }
      masklen := n.value;
    }
    var a := env.pton(name);
    if a.None? { return ParseError; }
    if i == |p| { masklen := Width(a.value.af); }
    if !MaskValid(a.value.af, masklen) { return Inconsistent; }
    var zero := AddrHostIsAll0s(a.value, masklen);
    if zero != 0 { return Inconsistent; }
    r := Network(a.value, masklen);
  }

  /** A parsed network has no host bits, so only its family, its scope and its prefix decide. */
  lemma ParsedNetworkMatch(env: Env, p: string, host: Addr)
    requires ParseCidr(env, p).Network?
    ensures var n := ParseCidr(env, p);
      MaskValid(n.addr.af, n.masklen) &&
      (InNetwork(host, n.addr, n.masklen) <==>
         host.af == n.addr.af && (host.af == Inet6 ==> host.scope == n.addr.scope) &&
         SamePrefix(host, n.addr, n.masklen))
  {
  }

  /** What one entry says about an address; `addr` is None when the list is only checked. */
  datatype Verdict = Malformed | Hit(negated: bool) | Miss

  datatype Query = Query(text: string, addr: Addr)

  ghost predicate Matches(env: Env, q: Option<Query>, pattern: string) {
    q.Some? && match ParseCidr(env, pattern)
      case Network(net, l) => InNetwork(q.value.addr, net, l)
      case ParseError => env.wild(q.value.text, pattern)
      case Inconsistent => false
  }

  ghost function Entry(env: Env, q: Option<Query>, entry: string): Verdict {
    var neg := entry != "" && entry[0] == '!';
    var pattern := if neg then entry[1..] else entry;
    if pattern == "" || ParseCidr(env, pattern).Inconsistent? then Malformed
    else if Matches(env, q, pattern) then Hit(neg) else Miss
  }

  /** An entry without a mark says what its text matches; with a mark in front the same match is negated; and a mark
      alone, like no text at all, is malformed. */
  lemma EntryText(env: Env, q: Option<Query>, p: string)
    requires p != "" ==> p[0] != '!'
    ensures Entry(env, q, "") == Malformed == Entry(env, q, "!")
    ensures Entry(env, q, ['!'] + p) == match Entry(env, q, p) case Hit(_) => Hit(true) case v => v
    ensures p != "" ==> Entry(env, q, p) == match ParseCidr(env, p)
      case Inconsistent => Malformed
      case ParseError => if q.Some? && env.wild(q.value.text, p) then Hit(false) else Miss
      case Network(net, l) => if q.Some? && InNetwork(q.value.addr, net, l) then Hit(false) else Miss
  {
    hide ParseCidr, InNetwork;
    Seqs.Drop(['!'], p);
    assert "!"[1..] == "";
  }

  /** What a text of fewer than 64 characters means: without a slash, an address with its full width; with one, the
      address before it and a length of at most 128 after it; bits beyond the length make it inconsistent. */
  lemma CidrText(env: Env, a: string, l: string)
    requires '/' !in a && |a| + 1 + |l| < 64
    ensures ParseCidr(env, a) == match env.pton(a)
      case None => ParseError
      case Some(x) => if x.af == Unknown then Inconsistent else Network(x, if x.af == Inet then 32 else 128)
    ensures ParseCidr(env, a + (['/'] + l)) ==
      if l == "" || env.strtoul(l).None? || env.strtoul(l).value > 128 || env.pton(a).None? then ParseError
      else
        var x, n := env.pton(a).value, env.strtoul(l).value;
        if ((x.af == Inet && n <= 32) || x.af == Inet6) && ZeroFrom(x, n) then Network(x, n) else Inconsistent
  {
    var p := a + (['/'] + l);
    assert p[|a|] == '/' && p[..|a|] == a && p[|a| + 1..] == l;
    assert IndexOf(p, '/') == |a| && IndexOf(a, '/') == |a|;
  }

  lemma CidrTooLong(env: Env, p: string)
    requires |p| >= 64
    ensures ParseCidr(env, p) == ParseError
  {
  }

  // ---- Lists ----

  function Entries(list: string): (es: seq<string>)
    ensures es != []
    decreases |list|
  {
    var i := IndexOf(list, ',');
    if i == |list| then [list] else [list[..i]] + Entries(list[i + 1..])
  }

  /** The entries that settle the answer at once. */
  predicate Decides(v: Verdict) { v.Malformed? || (v.Hit? && v.negated) }

  /** The first deciding entry wins; without one, a positive hit anywhere is a match. */
  ghost predicate Answers(vs: seq<Verdict>, ret: int) {
    if exists k :: FirstDecides(vs, k) then
      exists k :: FirstDecides(vs, k) && ret == (if vs[k].Malformed? then -2 else -1)
    else ret == if exists k :: 0 <= k < |vs| && vs[k] == Hit(false) then 1 else 0
  }

  ghost predicate FirstDecides(vs: seq<Verdict>, k: int) {
    0 <= k < |vs| && Decides(vs[k]) && forall j :: 0 <= j < k ==> !Decides(vs[j])
  }

  /** The answer is determined by the verdicts. */
  lemma AnswerIsUnique(vs: seq<Verdict>, r: int, s: int)
    requires Answers(vs, r) && Answers(vs, s)
    ensures r == s
  {
    if exists k :: FirstDecides(vs, k) {
      var j :| FirstDecides(vs, j) && r == (if vs[j].Malformed? then -2 else -1);
      var k :| FirstDecides(vs, k) && s == (if vs[k].Malformed? then -2 else -1);
      assert j == k;
    }
  }

  /** What each answer means: -2 that the list is malformed before any negated match, -1 that a negated match comes before
      anything malformed, 1 that neither comes and there is a plain match, and 0 that there is none. */
  lemma AnswersMean(vs: seq<Verdict>, r: int)
    ensures Answers(vs, r) <==>
      if exists k :: 0 <= k < |vs| && vs[k] == Malformed && Hit(true) !in vs[..k] then r == -2
      else if Hit(true) in vs then r == -1
      else r == if Hit(false) in vs then 1 else 0
  {
    if exists k :: 0 <= k < |vs| && (vs[k] == Malformed || vs[k] == Hit(true)) {
      var k := Earliest(vs);
      assert FirstDecides(vs, k);
      forall j | FirstDecides(vs, j) ensures j == k {}
      forall i | 0 <= i < |vs| && vs[i] == Malformed && Hit(true) !in vs[..i] ensures vs[k] == Malformed {
        if k < i { assert vs[k] == vs[..i][k]; }
      }
      if vs[k] == Malformed { assert Hit(true) !in vs[..k]; }
    }
  }

  lemma {:induction false} Earliest(vs: seq<Verdict>) returns (k: nat)
    requires exists k :: 0 <= k < |vs| && (vs[k] == Malformed || vs[k] == Hit(true))
    ensures k < |vs| && (vs[k] == Malformed || vs[k] == Hit(true))
    ensures forall j :: 0 <= j < k ==> vs[j] != Malformed && vs[j] != Hit(true)
  {
    k := 0;
    while vs[k] != Malformed && vs[k] != Hit(true)
      invariant k < |vs| && forall j :: 0 <= j < k ==> vs[j] != Malformed && vs[j] != Hit(true)
      decreases |vs| - k
    {
      k := k + 1;
    }
  }

  ghost function Judge(env: Env, q: Option<Query>, es: seq<string>): seq<Verdict> {
    if es == [] then [] else [Entry(env, q, es[0])] + Judge(env, q, es[1..])
  }

  ghost function Verdicts(env: Env, q: Option<Query>, list: string): seq<Verdict> {
    Judge(env, q, Entries(list))
  }

  /** The state of the scan: the verdicts so far are undecided and ret remembers a positive hit. */
  ghost predicate Scanned(vs: seq<Verdict>, ret: int) {
    (forall k :: 0 <= k < |vs| ==> !Decides(vs[k])) &&
    ret == if exists k :: 0 <= k < |vs| && vs[k] == Hit(false) then 1 else 0
  }

  lemma ScanOneMore(vs: seq<Verdict>, ret: int, v: Verdict)
    requires Scanned(vs, ret)
    ensures !Decides(v) ==> Scanned(vs + [v], if v == Hit(false) then 1 else ret)
  {
    if !Decides(v) && v == Hit(false) { assert (vs + [v])[|vs|] == v; }
    if !Decides(v) && ret == 1 {
      var k :| 0 <= k < |vs| && vs[k] == Hit(false);
      assert (vs + [v])[k] == Hit(false);
    }
  }

  lemma ScanDecided(done: seq<Verdict>, v: Verdict, more: seq<Verdict>, ret: int)
    requires Scanned(done, ret) && Decides(v)
    ensures Answers(done + [v] + more, if v.Malformed? then -2 else -1)
  {
    var vs := done + [v] + more;
    assert vs[|done|] == v;
    forall j | 0 <= j < |done| ensures !Decides(vs[j]) { assert vs[j] == done[j]; }
    assert FirstDecides(vs, |done|);
  }

  lemma ScanFinished(vs: seq<Verdict>, ret: int)
    requires Scanned(vs, ret)
    ensures Answers(vs, ret)
  {
  }

  lemma VerdictsSplit(env: Env, q: Option<Query>, list: string)
    ensures var i := IndexOf(list, ',');
      Verdicts(env, q, list) ==
        if i == |list| then [Entry(env, q, list)]
        else [Entry(env, q, list[..i])] + Verdicts(env, q, list[i + 1..])
  {
    hide Entry, IndexOf;
    var i := IndexOf(list, ',');
    if i == |list| {
      var none: seq<string> := [];
      assert [list][1..] == none;
      assert Judge(env, q, [list]) == [Entry(env, q, list)] + Judge(env, q, none);
    } else {
      Seqs.Drop([list[..i]], Entries(list[i + 1..]));
    }
  }

  /** addr_match_list. An address that does not parse never matches, whatever the list. */
  method AddrMatchList(env: Env, addr: Option<string>, list: string) returns (ret: int)
    ensures addr.Some? && env.pton(addr.value).None? ==> ret == 0
    ensures addr.Some? && env.pton(addr.value).Some? ==>
              Answers(Verdicts(env, Some(Query(addr.value, env.pton(addr.value).value)), list), ret)
    ensures addr.None? ==> Answers(Verdicts(env, None, list), ret)
  {
    hide *;
    var q := None;
    if addr.Some? {
      var a := env.pton(addr.value);
      if a.None? { return 0; }
      q := Some(Query(addr.value, a.value));
    }
    ret := ScanList(env, q, list);
  }

  /** What the loop knows: the verdicts of the entries before `rest`. */
  ghost predicate Reached(env: Env, q: Option<Query>, list: string, done: seq<Verdict>, rest: string, ret: int) {
    Scanned(done, ret) && Verdicts(env, q, list) == done + Verdicts(env, q, rest)
  }

  lemma ReachedStart(env: Env, q: Option<Query>, list: string)
    ensures Reached(env, q, list, [], list, 0)
  {
    hide Verdicts;
    Seqs.Whole(Verdicts(env, q, list));
  }

  /** The verdicts ahead of the loop: the entry before the first comma, and those after it. */
  lemma VerdictsAhead(env: Env, q: Option<Query>, rest: string, v: Verdict, more: seq<Verdict>)
    requires v == Entry(env, q, rest[..IndexOf(rest, ',')])
    requires more == if IndexOf(rest, ',') == |rest| then [] else Verdicts(env, q, rest[IndexOf(rest, ',') + 1..])
    ensures Verdicts(env, q, rest) == [v] + more
  {
    hide Entry, IndexOf, Verdicts;
    VerdictsSplit(env, q, rest);
    Seqs.Whole(rest);
    Seqs.Whole([v]);
  }

  /** An entry that decides ends the scan. */
  lemma ReachedDecided(env: Env, q: Option<Query>, list: string, done: seq<Verdict>, rest: string, ret: int,
                       v: Verdict, more: seq<Verdict>)
    requires Reached(env, q, list, done, rest, ret) && Decides(v) && Verdicts(env, q, rest) == [v] + more
    ensures Answers(Verdicts(env, q, list), if v.Malformed? then -2 else -1)
  {
    hide Verdicts, Answers, Scanned, Decides;
    Seqs.Assoc(done, [v], more);
    ScanDecided(done, v, more, ret);
  }

  /** The last entry, if it does not decide, leaves what was remembered. */
  lemma ReachedEnd(env: Env, q: Option<Query>, list: string, done: seq<Verdict>, rest: string, ret: int, v: Verdict)
    requires Reached(env, q, list, done, rest, ret) && !Decides(v) && Verdicts(env, q, rest) == [v]
    ensures Answers(Verdicts(env, q, list), if v == Hit(false) then 1 else ret)
  {
    hide Verdicts, Answers, Scanned, Decides;
    ScanOneMore(done, ret, v);
    ScanFinished(done + [v], if v == Hit(false) then 1 else ret);
  }

  /** Any other entry that does not decide carries the scan past its comma. */
  lemma ReachedMore(env: Env, q: Option<Query>, list: string, done: seq<Verdict>, rest: string, ret: int, v: Verdict,
                    left: string)
    requires Reached(env, q, list, done, rest, ret) && !Decides(v)
    requires Verdicts(env, q, rest) == [v] + Verdicts(env, q, left)
    ensures Reached(env, q, list, done + [v], left, if v == Hit(false) then 1 else ret)
  {
    hide Verdicts, Scanned, Decides;
    ScanOneMore(done, ret, v);
    Seqs.Assoc(done, [v], Verdicts(env, q, left));
  }

  method ScanList(env: Env, q: Option<Query>, list: string) returns (ret: int)
    ensures Answers(Verdicts(env, q, list), ret)
  {
    hide Entry, IndexOf, Answers, Reached, Verdicts, Decides;
    ret := 0;
    var rest := list;
    ghost var done: seq<Verdict> := [];
    ReachedStart(env, q, list);
    while true
      invariant Reached(env, q, list, done, rest, ret)
      decreases |rest|
    {
      var i := IndexOf(rest, ',');
      var v := JudgeEntry(env, q, rest[..i]);
      ghost var more := if i == |rest| then [] else Verdicts(env, q, rest[i + 1..]);
      VerdictsAhead(env, q, rest, v, more);
      if Decides(v) {
        ReachedDecided(env, q, list, done, rest, ret, v, more);
        return if v.Malformed? then -2 else -1;
      }
      if i == |rest| {
        Seqs.Whole([v]);
        ReachedEnd(env, q, list, done, rest, ret, v);
      } else {
        ReachedMore(env, q, list, done, rest, ret, v, rest[i + 1..]);
      }
      if v == Hit(false) { ret := 1; }
      if i == |rest| { return; }
      done := done + [v];
      rest := rest[i + 1..];
    }
  }

  /** The body of the list loop: CIDR first, wildcard only when the CIDR parse fails. */
  method JudgeEntry(env: Env, q: Option<Query>, entry: string) returns (v: Verdict)
    ensures v == Entry(env, q, entry)
  {
    hide ParseCidr, InNetwork;
    var neg := entry != "" && entry[0] == '!';
    var cp := if neg then entry[1..] else entry;
    if cp == "" { return Malformed; }
    var r := AddrPtonCidr(env, cp);
    match r {
      case Inconsistent => return Malformed;
      case Network(net, l) =>
        if q.Some? {
          var m := AddrNetmatch(q.value.addr, net, l);
          if m == 0 { return Hit(neg); }
        }
      case ParseError =>
        if q.Some? && env.wild(q.value.text, cp) { return Hit(neg); }
    }
    v := Miss;
  }
}
