/** The AuthenticationMethods lists of auth2.c: comma-separated lists of methods, each method optionally with a
    submethod, consumed from the front as methods succeed. */
module AuthMethods {
  import opened Wrappers
  import Seqs

  // ---- Comma-separated lists ----

  predicate CommaFree(s: string) { ',' !in s }

  /** Everything before the first comma, as strcspn and strsep find it. */
  function Head(s: string): (r: string)
    ensures CommaFree(r) && r <= s && (|r| == |s| || s[|r|] == ',')
  {
    if s == "" || s[0] == ',' then "" else [s[0]] + Head(s[1..])
  }

  /** Everything after the first comma. */
  function Tail(s: string): (r: Option<string>)
    ensures r.None? <==> CommaFree(s)
    ensures r.Some? ==> s == Head(s) + "," + r.value
  {
    if |Head(s)| == |s| then None else Some(s[|Head(s)| + 1..])
  }

  function Split(s: string): (r: seq<string>)
    ensures r != [] && forall i :: 0 <= i < |r| ==> CommaFree(r[i])
    decreases |s|
  {
    match Tail(s)
    case None => [s]
    case Some(rest) => [Head(s)] + Split(rest)
  }

  function Join(entries: seq<string>): string {
    if entries == [] then ""
    else if |entries| == 1 then entries[0]
    else entries[0] + "," + Join(entries[1..])
  }

  lemma {:induction false} SplitJoin(entries: seq<string>)
    requires entries != [] && forall i :: 0 <= i < |entries| ==> CommaFree(entries[i])
    ensures Split(Join(entries)) == entries
  {
    if |entries| == 1 {
      assert CommaFree(Join(entries));
    } else {
      SplitJoin(entries[1..]);
      FirstOff(entries[0], Join(entries[1..]));
    }
  }

  /** The first comma is where the first entry ends. */
  lemma {:induction false} HeadOff(entry: string, rest: string)
    requires CommaFree(entry)
    ensures Head(entry + "," + rest) == entry
  {
    var s := entry + "," + rest;
    if entry != "" {
      assert s[1..] == entry[1..] + "," + rest;
      HeadOff(entry[1..], rest);
    }
  }

  lemma FirstOff(entry: string, rest: string)
    requires CommaFree(entry)
    ensures Split(entry + "," + rest) == [entry] + Split(rest)
  {
    HeadOff(entry, rest);
    var s := entry + "," + rest;
    assert s[|entry|] == ',' && s[|entry| + 1..] == rest;
    hide Head;
  }

  lemma {:induction false} JoinSplit(s: string)
    ensures Join(Split(s)) == s
    decreases |s|
  {
    match Tail(s)
    case None =>
    case Some(rest) =>
      JoinSplit(rest);
      assert Split(s)[1..] == Split(rest);
  }

  /** What follows the first entry: nothing, or a comma and the rest. */
  function After(entries: seq<string>): (r: string)
    ensures r == "" || r[0] == ','
  {
    if |entries| == 1 || entries == [] then "" else "," + Join(entries[1..])
  }

  lemma JoinParts(entries: seq<string>)
    requires entries != []
    ensures Join(entries) == entries[0] + After(entries)
    ensures After(entries) != "" ==> After(entries)[1..] == Join(entries[1..])
    ensures After(entries) == "" ==> entries[1..] == []
  {
    if |entries| > 1 {
      var rest := Join(entries[1..]);
      Seqs.Assoc(entries[0], ",", rest);
      Seqs.Drop(",", rest);
    } else {
      Seqs.Whole(entries[0]);
    }
  }

  // ---- Matching the front of a list ----

  /** A method, and the submethod (the keyboard-interactive device) if one is known. */
  datatype Success = Success(name: string, sub: Option<string>)

  predicate WellNamed(s: Success) {
    s.name != "" && CommaFree(s.name) && ':' !in s.name && (s.sub.Some? ==> CommaFree(s.sub.value))
  }

  datatype Match = NoMatch | Method | Partial | Both

  /** Whether an entry of the list ends at position i. */
  predicate EndsAt(list: string, i: nat)
    requires i <= |list|
  {
    i == |list| || list[i] == ','
  }

  function ListStartsWith(list: string, s: Success): Match {
    if !(s.name <= list) then NoMatch
    else
      var l := |s.name|;
      if l < |list| && list[l] == ':' then
        if s.sub.None? then Partial
        else if s.sub.value <= list[l + 1..] && EndsAt(list, l + 1 + |s.sub.value|) then Both
        else NoMatch
      else if EndsAt(list, l) then Method
      else NoMatch
  }

  /** What is left of the list if it starts with the method. */
  function RemoveMethod(list: string, s: Success): Option<string> {
    var kind := ListStartsWith(list, s);
    if kind != Method && kind != Both then None
    else
      var p := |s.name| + if kind == Both then 1 + |s.sub.value| else 0;
      Some(if p < |list| && list[p] == ',' then list[p + 1..] else list[p..])
  }

  /** An entry asks for the method alone, or for the method with that very submethod. */
  predicate Takes(entry: string, s: Success) {
    entry == s.name || (s.sub.Some? && entry == s.name + ":" + s.sub.value)
  }

  /** What the front of a list means, in terms of its first entry. */
  function EntryMatch(entry: string, s: Success): Match {
    if entry == s.name then Method
    else if s.sub.Some? && entry == s.name + ":" + s.sub.value then Both
    else if s.sub.None? && s.name + ":" <= entry then Partial
    else NoMatch
  }

  /** A front longer than the first entry takes in the comma after it. */
  lemma LongFront(text: string, entry: string, after: string)
    requires (after == "" || after[0] == ',') && text <= entry + after && |text| > |entry|
    ensures ',' in text
  {
    assert text[|entry|] == ',';
  }

  /** A comma-free text is at the front of a list exactly if it is at the front of the first entry. */
  lemma FrontIsPrefix(text: string, entry: string, after: string)
    requires CommaFree(text) && (after == "" || after[0] == ',')
    ensures text <= entry + after <==> text <= entry
  {
    if text <= entry + after && |text| > |entry| {
      LongFront(text, entry, after);
    }
  }

  /** And it ends where an entry ends exactly if it is the first entry. */
  lemma FrontIsEntry(text: string, entry: string, after: string)
    requires CommaFree(entry) && (after == "" || after[0] == ',') && text <= entry
    ensures EndsAt(entry + after, |text|) <==> text == entry
  {
    if |text| < |entry| {
      assert (entry + after)[|text|] == entry[|text|];
    }
  }

  /** The case of an entry that names a submethod. */
  lemma MatchesSub(rest: string, after: string, s: Success)
    requires CommaFree(rest) && WellNamed(s) && (after == "" || after[0] == ',')
    ensures ListStartsWith(s.name + ":" + rest + after, s) == EntryMatch(s.name + ":" + rest, s)
  {
    var l, front := |s.name|, s.name + ":";
    var list := front + rest + after;
    Seqs.Assoc(front, rest, after);
    Seqs.Drop(front, rest + after);
    Seqs.Drop(front, rest);
    assert list[l] == ':' && s.name <= list && list[l + 1..] == rest + after;
    if s.sub.Some? {
      var sub := s.sub.value;
      FrontIsPrefix(sub, rest, after);
      if sub <= rest {
        FrontIsEntry(sub, rest, after);
        assert EndsAt(list, l + 1 + |sub|) == EndsAt(rest + after, |sub|);
      }
    }
  }

  lemma MatchesEntry(entry: string, after: string, s: Success)
    requires CommaFree(entry) && WellNamed(s) && (after == "" || after[0] == ',')
    ensures ListStartsWith(entry + after, s) == EntryMatch(entry, s)
  {
    FrontIsPrefix(s.name, entry, after);
    if s.name <= entry {
      var l := |s.name|;
      if l < |entry| && entry[l] == ':' {
        var rest := entry[l + 1..];
        assert entry == s.name + ":" + rest;
        MatchesSub(rest, after, s);
      } else {
        FrontIsEntry(s.name, entry, after);
      }
    }
  }

  predicate AllCommaFree(entries: seq<string>) { forall i :: 0 <= i < |entries| ==> CommaFree(entries[i]) }

  /** Removing a method removes exactly the first entry, if that entry asks for it. */
  lemma RemovesEntry(entries: seq<string>, s: Success)
    requires AllCommaFree(entries) && WellNamed(s)
    ensures RemoveMethod(Join(entries), s) ==
      if entries != [] && Takes(entries[0], s) then Some(Join(entries[1..])) else None
  {
    if entries != [] {
      JoinParts(entries);
      var entry, after := entries[0], After(entries);
      MatchesEntry(entry, after, s);
      hide ListStartsWith, Join, After;
      Seqs.Drop(entry, after);
      if after != "" {
        Seqs.DropDrop(entry + after, |entry|, 1);
      }
    }
  }

  // ---- How far a list has been consumed ----

  /** How many entries of a list a run of successes has taken off its front. */
  function Consumed(entries: seq<string>, run: seq<Success>): (k: nat)
    ensures k <= |entries|
  {
    if run == [] then 0
    else
      var k := Consumed(entries, run[..|run| - 1]);
      if k < |entries| && Takes(entries[k], run[|run| - 1]) then k + 1 else k
  }

  /** Increasing positions in the run that satisfy the entries one by one. */
  predicate Picks(entries: seq<string>, run: seq<Success>, at: seq<nat>) {
    |at| == |entries| &&
    (forall x :: 0 <= x < |at| ==> at[x] < |run| && Takes(entries[x], run[at[x]])) &&
    (forall x, y :: 0 <= x < y < |at| ==> at[x] < at[y])
  }

  /** The list is an order-preserving subsequence of the successes. */
  ghost predicate Embeds(entries: seq<string>, run: seq<Success>) { exists at :: Picks(entries, run, at) }

  /** The entries consumed were satisfied in order. */
  lemma {:induction false} ConsumedEmbeds(entries: seq<string>, run: seq<Success>) returns (at: seq<nat>)
    ensures Picks(entries[..Consumed(entries, run)], run, at)
  {
    if run == [] {
      at := [];
    } else {
      var n := |run| - 1;
      at := ConsumedEmbeds(entries, run[..n]);
      var k := Consumed(entries, run[..n]);
      if k < |entries| && Takes(entries[k], run[n]) {
        at := at + [n];
      }
    }
  }

  /** No way of satisfying entries in order gets further than consuming them greedily. */
  lemma {:induction false} GreedyIsBest(entries: seq<string>, k: nat, run: seq<Success>, at: seq<nat>)
    requires k <= |entries| && Picks(entries[..k], run, at)
    ensures Consumed(entries, run) >= k
    decreases |run|
  {
    if k > 0 {
      var n := |run| - 1;
      assert at[k - 1] < |run| && Takes(entries[..k][k - 1], run[at[k - 1]]);
      if at[k - 1] == n {
        assert Picks(entries[..k - 1], run[..n], at[..k - 1]);
        GreedyIsBest(entries, k - 1, run[..n], at[..k - 1]);
      } else {
        assert Picks(entries[..k], run[..n], at);
        GreedyIsBest(entries, k, run[..n], at);
      }
    }
  }

  /** A list is used up exactly when it is an order-preserving subsequence of the successes. */
  lemma UsedUpIff(entries: seq<string>, run: seq<Success>)
    ensures Consumed(entries, run) == |entries| <==> Embeds(entries, run)
  {
    assert entries[..|entries|] == entries;
    var at := ConsumedEmbeds(entries, run);
    if Embeds(entries, run) {
      var b :| Picks(entries, run, b);
      GreedyIsBest(entries, |entries|, run, b);
    }
  }

  // ---- All the lists at once ----

  datatype Update = NotFound | Advanced | Complete

  /** auth2_update_methods_lists: it stops at the first list that is used up. */
  function UpdateLists(lists: seq<string>, s: Success): (seq<string>, Update) {
    if lists == [] then ([], NotFound)
    else
      match RemoveMethod(lists[0], s)
      case Some("") => ([""] + lists[1..], Complete)
      case Some(left) =>
        var (rest, r) := UpdateLists(lists[1..], s);
        ([left] + rest, if r == NotFound then Advanced else r)
      case None =>
        var (rest, r) := UpdateLists(lists[1..], s);
        ([lists[0]] + rest, r)
  }

  /** A configured list as its entries; none of them is empty. */
  predicate Entries(conf: seq<string>) {
    conf != [] && AllCommaFree(conf) && forall i :: 0 <= i < |conf| ==> conf[i] != ""
  }

  /** Every stored string is what is left of its configured list, cut at an entry. */
  predicate Stored(confs: seq<seq<string>>, run: seq<Success>, lists: seq<string>) {
    |lists| == |confs| &&
    forall i :: 0 <= i < |confs| ==> lists[i] == Join(confs[i][Consumed(confs[i], run)..])
  }

  predicate AllEntries(confs: seq<seq<string>>) { forall i :: 0 <= i < |confs| ==> Entries(confs[i]) }

  predicate UsedUp(conf: seq<string>, run: seq<Success>) { Consumed(conf, run) == |conf| }

  predicate NoneUsedUp(confs: seq<seq<string>>, run: seq<Success>) {
    forall i :: 0 <= i < |confs| ==> !UsedUp(confs[i], run)
  }

  /** Whether the next entry of a list asks for this success. */
  predicate Wants(conf: seq<string>, run: seq<Success>, s: Success) {
    !UsedUp(conf, run) && Takes(conf[Consumed(conf, run)], s)
  }

  lemma ConsumedOneMore(conf: seq<string>, run: seq<Success>, s: Success)
    ensures Consumed(conf, run + [s]) == Consumed(conf, run) + if Wants(conf, run, s) then 1 else 0
  {
    assert (run + [s])[..|run|] == run;
  }

  lemma JoinEmpty(conf: seq<string>, k: nat)
    requires Entries(conf) && k <= |conf|
    ensures Join(conf[k..]) == "" <==> k == |conf|
  {
    if k < |conf| {
      JoinParts(conf[k..]);
    }
  }

  /** What one success does to one list. */
  lemma ListAdvances(conf: seq<string>, run: seq<Success>, s: Success)
    requires Entries(conf) && WellNamed(s) && !UsedUp(conf, run)
    ensures RemoveMethod(Join(conf[Consumed(conf, run)..]), s) ==
      if Wants(conf, run, s) then Some(Join(conf[Consumed(conf, run + [s])..])) else None
    ensures Wants(conf, run, s) ==> (Join(conf[Consumed(conf, run + [s])..]) == "" <==> UsedUp(conf, run + [s]))
    ensures !Wants(conf, run, s) ==> Consumed(conf, run + [s]) == Consumed(conf, run)
  {
    hide Join, RemoveMethod, Takes;
    ConsumedOneMore(conf, run, s);
    var k := Consumed(conf, run);
    RemovesEntry(conf[k..], s);
    Seqs.DropDrop(conf, k, 1);
    if Wants(conf, run, s) {
      JoinEmpty(conf, k + 1);
    }
    hide Consumed;
  }

  /** One success against all the lists: it completes exactly if it uses some list up, fails exactly if no list
      wants it, and otherwise every stored string is again what is left. */
  lemma {:induction false} UpdateMeaning(confs: seq<seq<string>>, run: seq<Success>, lists: seq<string>, s: Success)
    requires AllEntries(confs) && WellNamed(s) && Stored(confs, run, lists) && NoneUsedUp(confs, run)
    ensures UpdateLists(lists, s).1 == Complete <==> !NoneUsedUp(confs, run + [s])
    ensures UpdateLists(lists, s).1 == NotFound <==> forall i :: 0 <= i < |confs| ==> !Wants(confs[i], run, s)
    ensures UpdateLists(lists, s).1 != Complete ==> Stored(confs, run + [s], UpdateLists(lists, s).0)
    decreases |confs|
  {
    hide Join, RemoveMethod, Takes, Consumed, Entries, Wants, UsedUp;
    if confs != [] {
      assert Stored(confs[1..], run, lists[1..]) && NoneUsedUp(confs[1..], run);
      UpdateMeaning(confs[1..], run, lists[1..], s);
      ListAdvances(confs[0], run, s);
      Unused(confs[0], run, s);
      assert confs == [confs[0]] + confs[1..];
    }
  }

  lemma Unused(conf: seq<string>, run: seq<Success>, s: Success)
    ensures !UsedUp(conf, run) && !Wants(conf, run, s) ==> !UsedUp(conf, run + [s])
  {
    ConsumedOneMore(conf, run, s);
  }

  /** A success completes authentication exactly if some list is now an order-preserving subsequence of all the
      successes so far. */
  lemma CompletesIff(confs: seq<seq<string>>, run: seq<Success>, lists: seq<string>, s: Success)
    requires AllEntries(confs) && WellNamed(s) && Stored(confs, run, lists) && NoneUsedUp(confs, run)
    ensures UpdateLists(lists, s).1 == Complete <==> exists i :: 0 <= i < |confs| && Embeds(confs[i], run + [s])
  {
    hide Embeds, Consumed, UpdateLists, Entries, Stored;
    UpdateMeaning(confs, run, lists, s);
    forall i | 0 <= i < |confs|
      ensures UsedUp(confs[i], run + [s]) <==> Embeds(confs[i], run + [s])
    {
      UsedUpIff(confs[i], run + [s]);
    }
  }

  /** Whether the list starts with exactly this success. */
  predicate Meets(list: string, s: Success) {
    ListStartsWith(list, s) == Method || ListStartsWith(list, s) == Both
  }

  /** A success is found in no list if and only if no list starts with it, method and submethod alike. */
  lemma {:induction false} NotFoundIff(lists: seq<string>, s: Success)
    ensures UpdateLists(lists, s).1 == NotFound <==> forall i :: 0 <= i < |lists| ==> !Meets(lists[i], s)
  {
    hide ListStartsWith;
    if lists != [] {
      NotFoundIff(lists[1..], s);
      assert lists == [lists[0]] + lists[1..];
    }
  }

  /** The lists as configured, before any success. */
  lemma StoredAtFirst(lists: seq<string>, confs: seq<seq<string>>)
    requires |confs| == |lists| && forall i :: 0 <= i < |lists| ==> confs[i] == Split(lists[i])
    ensures Stored(confs, [], lists)
  {
    forall i | 0 <= i < |lists|
      ensures lists[i] == Join(confs[i][Consumed(confs[i], [])..])
    {
      JoinSplit(lists[i]);
      assert confs[i][0..] == confs[i];
    }
  }

  // ---- Validity ----

  /** A row of the table of methods: name and whether enabled. */
  datatype Row = Row(name: string, enabled: bool)

  /** The part of an entry before any colon. */
  function NameOf(entry: string): (r: string)
    ensures r <= entry
  {
    if entry == "" || entry[0] == ':' then "" else [entry[0]] + NameOf(entry[1..])
  }

  lemma {:induction false} NameOfPlain(name: string, rest: string)
    requires ':' !in name
    ensures NameOf(name) == name && NameOf(name + ":" + rest) == name
  {
    if name != "" {
      NameOfPlain(name[1..], rest);
      assert (name + ":" + rest)[1..] == name[1..] + ":" + rest;
    }
  }

  function Find(table: seq<Row>, name: string): Option<Row> {
    if table == [] then None else if table[0].name == name then Some(table[0]) else Find(table[1..], name)
  }

  predicate EntryValid(table: seq<Row>, entry: string, needEnable: bool) {
    Find(table, NameOf(entry)).Some? && (needEnable ==> Find(table, NameOf(entry)).value.enabled)
  }

  /** A list is valid if it is not empty and every entry names a known method, enabled if that is asked. */
  predicate Valid(table: seq<Row>, list: string, needEnable: bool) {
    list != "" && forall i :: 0 <= i < |Split(list)| ==> EntryValid(table, Split(list)[i], needEnable)
  }

  lemma {:induction false} FoundRow(table: seq<Row>, name: string)
    ensures Find(table, name).Some? ==> Find(table, name).value in table && Find(table, name).value.name == name
  {
    if table != [] {
      FoundRow(table[1..], name);
    }
  }

  /** A valid list has no empty entry, since no method has an empty name. */
  lemma ValidEntries(table: seq<Row>, list: string, needEnable: bool)
    requires Valid(table, list, needEnable) && forall i :: 0 <= i < |table| ==> table[i].name != ""
    ensures Entries(Split(list))
  {
    forall i | 0 <= i < |Split(list)|
      ensures Split(list)[i] != ""
    {
      assert EntryValid(table, Split(list)[i], needEnable);
      FoundRow(table, NameOf(Split(list)[i]));
    }
  }

  /** A list that asks for a submethod of an enabled method is valid and offers the method, but a success that reports
      no submethod does not meet it. */
  lemma SubmethodNeverMet(table: seq<Row>, name: string, sub: string)
    requires name != "" && CommaFree(name) && ':' !in name && CommaFree(sub)
    requires Find(table, name).Some? && Find(table, name).value.enabled
    ensures Valid(table, name + ":" + sub, true)
    ensures ListStartsWith(name + ":" + sub, Success(name, None)) == Partial
    ensures !Meets(name + ":" + sub, Success(name, None))
  {
    var list := name + ":" + sub;
    MatchesSub(sub, "", Success(name, None));
    Seqs.Whole(list);
    NameOfPlain(name, sub);
    hide ListStartsWith, Find, NameOf;
    assert CommaFree(list);
    assert Split(list) == [list];
  }

  function ValidLists(table: seq<Row>, options: seq<string>): seq<string> {
    if options == [] then []
    else
      var n := |options| - 1;
      ValidLists(table, options[..n]) + if Valid(table, options[n], true) then [options[n]] else []
  }

  method FindMethod(table: seq<Row>, name: string) returns (r: Option<Row>)
    ensures r == Find(table, name)
  {
    for i := 0 to |table|
      invariant Find(table, name) == Find(table[i..], name)
    {
      if table[i].name == name { return Some(table[i]); }
      assert table[i..][1..] == table[i + 1..];
    }
    r := None;
  }

  /** The entries of the list from some point on. */
  predicate Remaining(all: seq<string>, left: Option<string>, done: nat) {
    done <= |all| && if left.None? then done == |all| else Split(left.value) == all[done..]
  }

  lemma RemainingNext(all: seq<string>, left: string, done: nat)
    requires Remaining(all, Some(left), done)
    ensures done < |all| && all[done] == Head(left) && Remaining(all, Tail(left), done + 1)
  {
    hide Split, Head, Tail;
    Tailed(left);
    Seqs.DropDrop(all, done, 1);
  }

  /** auth2_methods_valid, taking entries off the front as strsep does. */
  method MethodsValid(table: seq<Row>, list: string, needEnable: bool) returns (ok: bool)
    ensures ok == Valid(table, list, needEnable)
  {
    hide Find, Split, Head, Tail, NameOf, Remaining;
    if list == "" { return false; }
    var left := Some(list);
    ghost var all, done: nat := Split(list), 0;
    AllRemains(list);
    while left.Some?
      invariant Remaining(all, left, done)
      invariant forall i :: 0 <= i < done && i < |all| ==> EntryValid(table, all[i], needEnable)
      decreases |all| - done
    {
      RemainingNext(all, left.value, done);
      var row := FindMethod(table, NameOf(Head(left.value)));
      if row.None? || (needEnable && !row.value.enabled) {
        assert !EntryValid(table, all[done], needEnable);
        return false;
      }
      left := Tail(left.value);
      done := done + 1;
    }
    NoneRemains(all, left, done);
    ok := true;
  }

  lemma AllRemains(list: string)
    ensures Remaining(Split(list), Some(list), 0)
  {
    Seqs.Whole(Split(list));
  }

  lemma NoneRemains(all: seq<string>, left: Option<string>, done: nat)
    requires Remaining(all, left, done) && left.None?
    ensures done == |all|
  {
  }

  lemma Tailed(s: string)
    ensures Split(s)[0] == Head(s)
    ensures Tail(s).Some? ==> Split(Tail(s).value) == Split(s)[1..]
    ensures Tail(s).None? ==> |Split(s)| == 1
  {
  }

  // ---- The lists of a connection, updated in place ----

  class MethodLists {
    var authMethods: seq<string>

    constructor ()
      ensures authMethods == []
    {
      authMethods := [];
    }

    method Clear()
      modifies this
      ensures authMethods == []
    {
      authMethods := [];
    }

    method Setup(table: seq<Row>, options: seq<string>)
      modifies this
      ensures authMethods == ValidLists(table, options)
    {
      authMethods := [];
      for i := 0 to |options|
        invariant authMethods == ValidLists(table, options[..i])
      {
        assert options[..i + 1][..i] == options[..i];
        var ok := MethodsValid(table, options[i], true);
        if ok { authMethods := authMethods + [options[i]]; }
      }
      assert options[..|options|] == options;
    }

    method Advance(s: Success) returns (r: Update)
      modifies this
      ensures (authMethods, r) == UpdateLists(old(authMethods), s)
    {
      hide RemoveMethod, UpdateLists;
      FromStart(authMethods, s);
      var found := false;
      for i := 0 to |authMethods|
        invariant |authMethods| == |old(authMethods)|
        invariant UpdateFrom(old(authMethods), 0, false, s) == UpdateFrom(authMethods, i, found, s)
      {
        var left := RemoveMethod(authMethods[i], s);
        if left.Some? {
          found := true;
          authMethods := authMethods[i := left.value];
          if left.value == "" { return Complete; }
        }
      }
      r := if found then Advanced else NotFound;
    }
  }

  /** The same update as a walk over the whole array. */
  function UpdateFrom(lists: seq<string>, i: nat, found: bool, s: Success): (seq<string>, Update)
    requires i <= |lists|
    decreases |lists| - i
  {
    if i == |lists| then (lists, if found then Advanced else NotFound)
    else
      match RemoveMethod(lists[i], s)
      case None => UpdateFrom(lists, i + 1, found, s)
      case Some(left) =>
        if left == "" then (lists[i := left], Complete) else UpdateFrom(lists[i := left], i + 1, true, s)
  }

  lemma {:induction false} WalkIsUpdate(lists: seq<string>, i: nat, found: bool, s: Success)
    requires i <= |lists|
    ensures var (rest, r) := UpdateLists(lists[i..], s);
      UpdateFrom(lists, i, found, s) == (lists[..i] + rest, if found && r == NotFound then Advanced else r)
    decreases |lists| - i
  {
    hide RemoveMethod;
    if i == |lists| {
      assert lists[..i] == lists && lists[i..] == [];
      Seqs.Whole(lists);
    } else {
      Seqs.DropDrop(lists, i, 1);
      match RemoveMethod(lists[i], s)
      case None =>
        WalkIsUpdate(lists, i + 1, found, s);
        Regroup(lists, i, lists[i], UpdateLists(lists[i + 1..], s).0);
      case Some(left) =>
        Regroup(lists, i, left, UpdateLists(lists[i + 1..], s).0);
        Regroup(lists, i, left, lists[i + 1..]);
        if left != "" { WalkIsUpdate(lists[i := left], i + 1, true, s); }
    }
  }

  lemma Regroup(lists: seq<string>, i: nat, left: string, rest: seq<string>)
    requires i < |lists|
    ensures lists[i := left][..i + 1] + rest == lists[..i] + ([left] + rest)
    ensures lists[i := left][i + 1..] == lists[i + 1..] && lists[i := lists[i]] == lists
    ensures rest == lists[i + 1..] ==> lists[i := left] == lists[..i] + ([left] + rest)
  {
  }

  lemma FromStart(lists: seq<string>, s: Success)
    ensures UpdateFrom(lists, 0, false, s) == UpdateLists(lists, s)
  {
    WalkIsUpdate(lists, 0, false, s);
    Seqs.Whole(lists);
    Seqs.Whole(UpdateLists(lists, s).0);
  }
}
