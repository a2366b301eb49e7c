/** Exactly when a message to the authentication state machine counts as a success, and exactly which message ends the
    connection and how. */
module AuthEnds {
  import opened AuthMethods
  import opened AuthDevices
  import opened AuthMachine
  import opened AuthRuns
  import opened AuthEnabled
  import opened Wrappers

  // ---- What a message brings, before it is handled ----

  /** The request repeats user and service, or is the first and some list can be used. */
  predicate Identified(conf: Conf, a: Auth, r: Request) {
    if a.attempt == 0 then Configured(conf) ==> ValidLists(Rows(conf, a.noneOn), conf.options) != []
    else NameOf(r.user) == a.user && r.service == a.service
  }

  predicate ValidUser(a: Auth, r: Request) {
    if a.attempt == 0 then r.known && Serves(r.service) else a.valid
  }

  /** The lists that a request meets. */
  function ListsFor(conf: Conf, a: Auth): seq<string> {
    if a.attempt > 0 then a.lists
    else if Configured(conf) then ValidLists(Rows(conf, a.noneOn), conf.options)
    else []
  }

  /** The method is enabled and stands at the front of some list, with or without a submethod. */
  predicate Available(conf: Conf, noneOn: bool, lists: seq<string>, name: string) {
    Enabled(conf, noneOn, name) &&
    (|conf.options| > 0 ==>
      exists i :: 0 <= i < |lists| && (Split(lists[i])[0] == name || name + ":" <= Split(lists[i])[0]))
  }

  /** The method is available, and a try is left. */
  predicate Tried(conf: Conf, a: Auth, r: Request) {
    Identified(conf, a, r) && a.failures < conf.maxTries && Available(conf, a.noneOn, ListsFor(conf, a), r.name)
  }

  /** The method's own check passes: a good signature by an accepted key not used before, or the plain verdict. */
  predicate Vouched(a: Auth, r: Request, valid: bool) {
    if r.name == PUBKEY then
      valid && r.key.Some? && !AlreadyUsed(a.keys, r.key.value) && r.accepted && r.signed && r.good
    else r.name != KBDINT && r.plain
  }

  /** The message proves a success of a valid user whose login is not denied. */
  predicate Proves(conf: Conf, a: Auth, m: Message) {
    match m
    case Try(r) => Tried(conf, a, r) && ValidUser(a, r) && Vouched(a, r, ValidUser(a, r)) && !r.rootDenied
    case Info(counted, verdict, _, _, rootDenied) => a.handler && counted && verdict == Right && a.valid && !rootDenied
  }

  function Proved(conf: Conf, a: Auth, m: Message): Success {
    match m
    case Try(r) => Success(r.name, None)
    case Info(_, _, _, _, _) =>
      if a.kbd.Some? && a.kbd.value.device.Some? && a.kbd.value.device.value < |conf.devices| then
        Success(KBDINT, Some(conf.devices[a.kbd.value.device.value]))
      else Success(KBDINT, None)
  }

  /** No list starts with the success, method and submethod alike. */
  predicate MetByNone(lists: seq<string>, s: Success) { forall i :: 0 <= i < |lists| ==> !Meets(lists[i], s) }

  /** How a message changes the successes, and every way it can end the connection. */
  predicate Caused(conf: Conf, a: Auth, m: Message, b: Auth) {
    b.run == (if Proves(conf, a, m) then a.run + [Proved(conf, a, m)] else a.run) &&
    (b.end == Fatal(NoMethodsLeft) <==> m.Try? && a.attempt == 0 && !Identified(conf, a, m.request)) &&
    (b.end == Fatal(UserChanged) <==> m.Try? && a.attempt > 0 && !Identified(conf, a, m.request)) &&
    (b.end == Fatal(InvalidUser) <==>
      m.Try? && Tried(conf, a, m.request) && !ValidUser(a, m.request) && Vouched(a, m.request, false)) &&
    (b.end == Fatal(NoHandler) <==> m.Info? && a.attempt > 0 && !a.handler) &&
    (b.end == Fatal(BadReply) <==> m.Info? && a.handler && !m.counted) &&
    (b.end == Fatal(NotInLists) <==>
      Proves(conf, a, m) && Configured(conf) && MetByNone(ListsFor(conf, a), Proved(conf, a, m))) &&
    (b.end == Succeeded <==>
      Proves(conf, a, m) &&
      (Configured(conf) ==> UpdateLists(ListsFor(conf, a), Proved(conf, a, m)).1 == Complete)) &&
    (b.end == Fatal(TooManyFailures) ==> b.failures >= conf.maxTries) &&
    b.end != Fatal(AuthenticatedAndPostponed) && b.end != Fatal(NoContext)
  }

  // ---- Finishing ----

  /** What a finish does to the successes and the end. */
  lemma FinishEnds(conf: Conf, a: Auth, authenticated: bool, s: Success, rootDenied: bool)
    requires a.end == Live && (authenticated ==> !a.postponed)
    ensures var b := Finish(conf, a, authenticated, s, rootDenied);
      b.run == (if authenticated && a.valid && !rootDenied then a.run + [s] else a.run) &&
      (b.end == Fatal(InvalidUser) <==> authenticated && !a.valid) &&
      (b.end == Fatal(NotInLists) <==>
        authenticated && a.valid && !rootDenied && Configured(conf) && MetByNone(a.lists, s)) &&
      (b.end == Succeeded <==>
        authenticated && a.valid && !rootDenied &&
        (Configured(conf) ==> UpdateLists(a.lists, s).1 == Complete)) &&
      (b.end == Fatal(TooManyFailures) ==> b.failures >= conf.maxTries) &&
      (b.end.Fatal? ==> b.end.why in {InvalidUser, NotInLists, TooManyFailures})
  {
    NotFoundIff(a.lists, s);
    hide UpdateLists, Meets;
  }

  // ---- Requests ----

  lemma IdentifyEnds(conf: Conf, a: Auth, r: Request)
    requires a.end == Live
    ensures var b := Identify(conf, a, r);
      (b.end == Live <==> Identified(conf, a, r)) &&
      (b.end != Live ==> b.end == Fatal(if a.attempt == 0 then NoMethodsLeft else UserChanged)) &&
      b.run == a.run && b.keys == a.keys && b.failures == a.failures && b.valid == ValidUser(a, r) &&
      b.lists == ListsFor(conf, a) && b.noneOn == a.noneOn
  {
    hide NameOf, ValidLists, Rows, Serves;
  }

  lemma TryEnds(conf: Conf, a: Auth, r: Request)
    requires a.end == Live && !a.postponed
    ensures var (b, authenticated) := TryMethod(conf, a, r);
      b.end == Live && b.run == a.run && b.lists == a.lists && b.valid == a.valid &&
      (authenticated <==> Vouched(a, r, a.valid)) && (authenticated ==> !b.postponed)
  {
    StartEnds(conf, a, NewExchange(conf, r.devs), r.starts);
    hide ChallengeStart, AlreadyUsed, NewExchange;
    assert |PUBKEY| != |KBDINT|;
  }

  lemma StartEnds(conf: Conf, a: Auth, k: Kbd, starts: bool)
    ensures var b := ChallengeStart(conf, a, k, starts);
      b.end == a.end && b.run == a.run && b.lists == a.lists && b.valid == a.valid
  {
    hide NextDevice;
  }

  /** The front of a list, read as a string, decides what its first entry is. */
  lemma FrontIff(list: string, name: string)
    requires PlainName(name)
    ensures ListStartsWith(list, Success(name, None)) != NoMatch <==>
      Split(list)[0] == name || name + ":" <= Split(list)[0]
  {
    hide ListStartsWith, Split, Head, EntryMatch;
    Tailed(list);
    var entry := Head(list);
    assert list == entry + list[|entry|..];
    MatchesEntry(entry, list[|entry|..], Success(name, None));
    PlainMatch(entry, name);
  }

  lemma PlainMatch(entry: string, name: string)
    ensures EntryMatch(entry, Success(name, None)) != NoMatch <==> entry == name || name + ":" <= entry
  {
  }

  lemma EnabledIsPlain(conf: Conf, noneOn: bool, name: string)
    requires WellConfigured(conf) && Enabled(conf, noneOn, name)
    ensures PlainName(name)
  {
  }

  /** What is offered is exactly what is available. */
  lemma OfferedIff(conf: Conf, a: Auth, name: string)
    requires WellConfigured(conf)
    ensures Offered(conf, a, name) <==> Available(conf, a.noneOn, a.lists, name)
  {
    EnabledIff(conf, a.noneOn, name);
    if Enabled(conf, a.noneOn, name) {
      EnabledIsPlain(conf, a.noneOn, name);
      forall i | 0 <= i < |a.lists|
        ensures ListStartsWith(a.lists[i], Success(name, None)) != NoMatch <==>
          Split(a.lists[i])[0] == name || name + ":" <= Split(a.lists[i])[0]
      {
        FrontIff(a.lists[i], name);
      }
    }
    hide Enabled, Find, Rows, ListStartsWith, Split, PlainName, WellConfigured;
  }

  lemma RequestEnds(conf: Conf, a: Auth, r: Request)
    requires WellConfigured(conf) && a.end == Live
    ensures Caused(conf, a, Try(r), OnRequest(conf, a, r))
  {
    hide Finish, TryMethod, Offered, Identify, Identified, ValidUser, ListsFor, Vouched, UpdateLists, MetByNone;
    hide Available, WellConfigured;
    IdentifyEnds(conf, a, r);
    var b := Identify(conf, a, r);
    if b.end == Live {
      var c := ChallengeStop(b).(postponed := false);
      OfferedIff(conf, c, r.name);
      TryEnds(conf, c, r);
      VouchedSame(a, c, r, c.valid);
      var (d, authenticated) :=
        if Offered(conf, c, r.name) && c.failures < conf.maxTries then TryMethod(conf, c, r) else (c, false);
      FinishEnds(conf, d, authenticated, Success(r.name, None), r.rootDenied);
    }
  }

  lemma VouchedSame(a: Auth, b: Auth, r: Request, valid: bool)
    requires a.keys == b.keys
    ensures Vouched(a, r, valid) == Vouched(b, r, valid)
  {
    hide AlreadyUsed;
  }

  // ---- Replies ----

  lemma InfoEnds(conf: Conf, a: Auth, m: Message)
    requires a.end == Live && m.Info? && KbdOk(conf, a) && (a.handler ==> a.attempt > 0)
    ensures Caused(conf, a, m, OnInfo(conf, a, m))
  {
    hide Finish, Replied, UpdateLists, MetByNone, DeviceAllowed, Fair;
    if a.handler && m.counted {
      var k := a.kbd.value;
      RepliedCounts(conf, a, k, m);
      FinishEnds(conf, Replied(conf, a, k, m), m.verdict == Right && a.valid, Proved(conf, a, m), m.rootDenied);
    }
  }

  /** After any run that is still live, the next message counts as a success if and only if it proves one, and ends the
      connection in each way exactly when its cause is present. */
  lemma EndsBecause(conf: Conf, messages: seq<Message>, m: Message)
    requires WellConfigured(conf) && Run(conf, START, messages).end == Live
    ensures Caused(conf, Run(conf, START, messages), m, Run(conf, START, messages + [m]))
  {
    RunKeeps(conf, messages);
    var a := Run(conf, START, messages);
    assert KbdOk(conf, a) && (a.handler ==> a.attempt > 0) by { hide Run; }
    hide Caused, OnRequest, OnInfo, WellConfigured, KbdOk;
    assert (messages + [m])[..|messages|] == messages;
    match m
    case Try(r) => RequestEnds(conf, a, r);
    case Info(_, _, _, _, _) => InfoEnds(conf, a, m);
  }

  /** A message that adds a success adds no failure. */
  lemma SuccessIsNoMiss(conf: Conf, messages: seq<Message>, m: Message)
    requires Run(conf, START, messages + [m]).run != Run(conf, START, messages).run
    ensures Run(conf, START, messages + [m]).failures == Run(conf, START, messages).failures
  {
    hide Run;
    FailuresAreMisses(conf, messages);
    FailuresAreMisses(conf, messages + [m]);
    assert (messages + [m])[..|messages|] == messages;
  }

  /** With every cause of an end absent, there is none. */
  lemma NoCauseNoEnd(conf: Conf, a: Auth, m: Message, b: Auth)
    requires Caused(conf, a, m, b) && Proves(conf, a, m) && Configured(conf) && b.failures < conf.maxTries
    requires UpdateLists(ListsFor(conf, a), Proved(conf, a, m)).1 == Advanced
    requires !MetByNone(ListsFor(conf, a), Proved(conf, a, m))
    ensures b.end == Live && |b.run| == |a.run| + 1
  {
    hide Vouched, Offered, ValidUser, Identified, UpdateLists, MetByNone, Proved, ListsFor, Configured;
    match b.end
    case Live =>
    case Succeeded =>
    case Fatal(why) =>
      match why {
        case TooManyFailures =>
        case UserChanged =>
        case NoMethodsLeft =>
        case InvalidUser =>
        case AuthenticatedAndPostponed =>
        case NotInLists =>
        case NoHandler =>
        case NoContext =>
        case BadReply =>
      }
  }

  /** A success that advances some list without using one up keeps the connection live. */
  lemma PartialStaysLive(conf: Conf, messages: seq<Message>, m: Message)
    requires WellConfigured(conf) && Configured(conf) && conf.maxTries > 0 && Run(conf, START, messages).end == Live
    requires var a := Run(conf, START, messages);
      Proves(conf, a, m) && UpdateLists(ListsFor(conf, a), Proved(conf, a, m)).1 == Advanced
    ensures Run(conf, START, messages + [m]).end == Live
  {
    hide Run, WellConfigured, Proves, Proved, ListsFor, UpdateLists, Meets, KbdOk, Unlisted, Configured;
    var a, b := Run(conf, START, messages), Run(conf, START, messages + [m]);
    EndsBecause(conf, messages, m);
    assert |b.run| == |a.run| + 1;
    hide Caused;
    SuccessIsNoMiss(conf, messages, m);
    StaysSound(conf, messages);
    NotFoundIff(ListsFor(conf, a), Proved(conf, a, m));
    NoCauseNoEnd(conf, a, m, b);
  }

  // ---- The success that no list wants ----

  /** A single configured list that asks for a submethod of a method that reports none: the list is accepted, the
      method is offered, its check passes, and the success ends the connection. */
  lemma SubmethodIsFatal(conf: Conf, r: Request, sub: string)
    requires WellConfigured(conf) && conf.maxTries > 0 && conf.options == [r.name + ":" + sub] && CommaFree(sub)
    requires Find(Rows(conf, true), r.name).Some? && Find(Rows(conf, true), r.name).value.enabled
    requires r.name != PUBKEY && r.name != KBDINT && r.plain && r.known && Serves(r.service) && !r.rootDenied
    ensures Run(conf, START, [Try(r)]).end == Fatal(NotInLists)
  {
    var list, s := r.name + ":" + sub, Success(r.name, None);
    RowNamed(conf, r.name);
    SubmethodNeverMet(Rows(conf, true), r.name, sub);
    hide Find, Rows, ListStartsWith, Valid, Meets, Serves;
    OnlyList(Rows(conf, true), list);
    assert ListsFor(conf, START) == [list];
    assert Allowed(true, [list], s) by { assert ListStartsWith([list][0], s) != NoMatch; }
    assert Offered(conf, START.(lists := [list]), r.name);
    OfferedIff(conf, START.(lists := [list]), r.name);
    assert Proves(conf, START, Try(r));
    EndsBecause(conf, [], Try(r));
    assert [] + [Try(r)] == [Try(r)];
  }

  lemma RowNamed(conf: Conf, name: string)
    requires WellConfigured(conf) && Find(Rows(conf, true), name).Some?
    ensures PlainName(name)
  {
    FoundRow(Rows(conf, true), name);
    RowsNamed(conf, true);
  }

  lemma OnlyList(table: seq<Row>, list: string)
    requires Valid(table, list, true)
    ensures ValidLists(table, [list]) == [list]
  {
    hide Valid;
    assert [list][..0] == [];
  }
}
