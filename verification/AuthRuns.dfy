/** What every run of the authentication state machine keeps, whatever the client sends and the checks find. */
module AuthRuns {
  import opened AuthMethods
  import opened AuthDevices
  import opened AuthMachine
  import opened Wrappers

  predicate PlainName(name: string) { name != "" && CommaFree(name) && ':' !in name }

  /** The tables compiled into the server: method names are plain words, device names have no comma. */
  predicate WellConfigured(conf: Conf) {
    (forall i :: 0 <= i < |conf.rows| ==> PlainName(conf.rows[i].name)) &&
    (forall i :: 0 <= i < |conf.devices| ==> CommaFree(conf.devices[i]))
  }

  function SplitAll(lists: seq<string>): (r: seq<seq<string>>)
    ensures |r| == |lists| && forall i :: 0 <= i < |r| ==> r[i] == Split(lists[i])
  {
    if lists == [] then [] else SplitAll(lists[..|lists| - 1]) + [Split(lists[|lists| - 1])]
  }

  /** The configured lists that have no disabled method, as entries. */
  function Confs(conf: Conf): seq<seq<string>> { SplitAll(ValidLists(Rows(conf, true), conf.options)) }

  lemma {:induction false} ValidListsAreValid(table: seq<Row>, options: seq<string>)
    ensures forall i :: 0 <= i < |ValidLists(table, options)| ==> Valid(table, ValidLists(table, options)[i], true)
  {
    hide Valid;
    if options != [] {
      ValidListsAreValid(table, options[..|options| - 1]);
    }
  }

  lemma RowsNamed(conf: Conf, noneOn: bool)
    requires WellConfigured(conf)
    ensures forall i :: 0 <= i < |Rows(conf, noneOn)| ==> PlainName(Rows(conf, noneOn)[i].name)
  {
  }

  lemma ConfsHaveEntries(conf: Conf)
    requires WellConfigured(conf)
    ensures AllEntries(Confs(conf))
  {
    var table := Rows(conf, true);
    var lists := ValidLists(table, conf.options);
    ValidListsAreValid(table, conf.options);
    RowsNamed(conf, true);
    hide ValidLists, Entries, Valid, Rows;
    forall i | 0 <= i < |Confs(conf)|
      ensures Entries(Confs(conf)[i])
    {
      ValidEntries(table, lists[i], true);
    }
  }

  // ---- The invariant ----

  function CountPubkey(run: seq<Success>): nat {
    if run == [] then 0
    else CountPubkey(run[..|run| - 1]) + if run[|run| - 1].name == PUBKEY then 1 else 0
  }

  predicate Unequal(keys: seq<Key>) { forall i, j :: 0 <= i < j < |keys| ==> !EqualPublic(keys[i], keys[j]) }

  /** Keys proved are pairwise unequal and pay for the publickey successes; extra ones were denied afterwards. */
  predicate KeysOk(a: Auth, extra: nat) { Unequal(a.keys) && CountPubkey(a.run) + extra <= |a.keys| }

  /** A keyboard-interactive exchange is live exactly while its handler is installed, and then waits on a device
      that the lists allow and that was not chosen before. */
  predicate KbdOk(conf: Conf, a: Auth) {
    a.handler == a.kbd.Some? &&
    (a.kbd.Some? ==>
      var k := a.kbd.value;
      a.postponed && k.ready && k.device.Some? && k.device.value < |conf.devices| && Fair(k) &&
      DeviceAllowed(DeviceEnv(conf, a), k.device.value))
  }

  /** The lists hold what the successes so far have left, and none is used up. */
  predicate ListsOk(conf: Conf, a: Auth) {
    if Configured(conf) then Stored(Confs(conf), a.run, a.lists) && NoneUsedUp(Confs(conf), a.run) else a.run == []
  }

  predicate TriesOk(conf: Conf, a: Auth) { conf.maxTries > 0 ==> a.failures < conf.maxTries }

  predicate RunNamed(a: Auth) { forall i :: 0 <= i < |a.run| ==> WellNamed(a.run[i]) }

  /** Before the first request. */
  predicate Untouched(a: Auth) {
    a.failures == 0 && a.run == [] && a.keys == [] && a.noneOn && !a.handler && a.kbd.None? && !a.postponed
  }

  predicate LiveOk(conf: Conf, a: Auth) {
    if a.attempt == 0 then Untouched(a)
    else KeysOk(a, 0) && KbdOk(conf, a) && ListsOk(conf, a) && TriesOk(conf, a) && RunNamed(a)
  }

  /** Success means a valid user and, if lists are configured, one of them embedded in the successes. */
  ghost predicate SuccessOk(conf: Conf, a: Auth) {
    a.valid && a.run != [] && KeysOk(a, 0) && RunNamed(a) && TriesOk(conf, a) &&
    if Configured(conf) then exists i :: 0 <= i < |Confs(conf)| && Embeds(Confs(conf)[i], a.run) else |a.run| == 1
  }

  /** The only way a success can be in no list: a list's next entry names the method with a submethod. */
  predicate Unlisted(a: Auth) {
    a.run != [] && var s := a.run[|a.run| - 1];
    s.sub.None? && exists i :: 0 <= i < |a.lists| && ListStartsWith(a.lists[i], s) == Partial
  }

  /** No list is used up; without lists, there has been no success. */
  predicate Incomplete(conf: Conf, a: Auth) {
    if Configured(conf) then NoneUsedUp(Confs(conf), a.run) else a.run == []
  }

  predicate FatalOk(conf: Conf, a: Auth, why: Why) {
    why != AuthenticatedAndPostponed && why != NoContext && (why == NotInLists ==> Unlisted(a)) && Incomplete(conf, a) &&
    KeysOk(a, 0) && RunNamed(a) &&
    (conf.maxTries > 0 ==> (why == TooManyFailures <==> a.failures >= conf.maxTries)) &&
    (why == TooManyFailures ==> a.failures >= conf.maxTries)
  }

  ghost predicate Inv(conf: Conf, a: Auth) {
    match a.end
    case Live => LiveOk(conf, a)
    case Succeeded => SuccessOk(conf, a)
    case Fatal(why) => FatalOk(conf, a, why)
  }

  // ---- Finishing ----

  lemma CountOneMore(run: seq<Success>, s: Success)
    ensures CountPubkey(run + [s]) == CountPubkey(run) + if s.name == PUBKEY then 1 else 0
  {
    assert (run + [s])[..|run|] == run;
  }

  /** What must hold when a success is set against the lists. */
  predicate Countable(conf: Conf, a: Auth, s: Success) {
    a.end == Live && a.valid && !a.postponed && a.kbd.None? && !a.handler && WellNamed(s) && RunNamed(a) &&
    ListsOk(conf, a) && TriesOk(conf, a) && Allowed(Configured(conf), a.lists, s) &&
    KeysOk(a, if s.name == PUBKEY then 1 else 0)
  }

  lemma CountKeeps(conf: Conf, a: Auth, s: Success)
    requires WellConfigured(conf) && a.attempt > 0 && Countable(conf, a, s)
    ensures Inv(conf, Count(conf, a.(run := a.run + [s]), s))
  {
    CountOneMore(a.run, s);
    hide Confs, Stored, NoneUsedUp, UpdateLists, Embeds, WellConfigured, ListStartsWith, CountPubkey, Allowed;
    var (lists, u) := UpdateLists(a.lists, s);
    if !Configured(conf) {
    } else {
      ConfsHaveEntries(conf);
      CompletesIff(Confs(conf), a.run, a.lists, s);
      UpdateMeaning(Confs(conf), a.run, a.lists, s);
      if u == NotFound {
        OnlyPartial(a.lists, s);
        UnlistedAfter(a.(run := a.run + [s]), s);
      }
    }
  }

  lemma UnlistedAfter(a: Auth, s: Success)
    requires a.run != [] && a.run[|a.run| - 1] == s && s.sub.None?
    requires exists i :: 0 <= i < |a.lists| && ListStartsWith(a.lists[i], s) == Partial
    ensures Unlisted(a)
  {
  }

  lemma OnlyPartial(lists: seq<string>, s: Success)
    requires Allowed(true, lists, s) && UpdateLists(lists, s).1 == NotFound
    ensures s.sub.None? && exists i :: 0 <= i < |lists| && ListStartsWith(lists[i], s) == Partial
  {
    NotFoundIff(lists, s);
    var i :| 0 <= i < |lists| && ListStartsWith(lists[i], s) != NoMatch;
    assert !Meets(lists[i], s);
  }

  /** What must hold when a handler reaches userauth_finish. */
  predicate Finishable(conf: Conf, a: Auth, authenticated: bool, s: Success) {
    a.end == Live && a.attempt > 0 && RunNamed(a) && ListsOk(conf, a) && TriesOk(conf, a) && KbdOk(conf, a) &&
    (authenticated ==>
      WellNamed(s) && !a.postponed && a.kbd.None? && Allowed(Configured(conf), a.lists, s) &&
      KeysOk(a, if s.name == PUBKEY then 1 else 0)) &&
    KeysOk(a, 0)
  }

  lemma FinishKeeps(conf: Conf, a: Auth, authenticated: bool, s: Success, rootDenied: bool)
    requires WellConfigured(conf) && Finishable(conf, a, authenticated, s)
    ensures Inv(conf, Finish(conf, a, authenticated, s, rootDenied))
  {
    if authenticated && a.valid && !rootDenied {
      CountKeeps(conf, a, s);
    } else {
      hide Confs, Stored, NoneUsedUp, Count, CountPubkey, Allowed, WellConfigured;
    }
  }

  // ---- Requests ----

  /** The state in which a method is tried: an identified user and no exchange under way. */
  predicate Ready(conf: Conf, a: Auth) {
    a.end == Live && a.attempt > 0 && KeysOk(a, 0) && ListsOk(conf, a) && TriesOk(conf, a) && RunNamed(a) &&
    a.kbd.None? && !a.handler && !a.postponed
  }

  lemma IncompleteAtFirst(conf: Conf, a: Auth)
    requires WellConfigured(conf) && a.run == []
    ensures Incomplete(conf, a)
  {
    if Configured(conf) {
      ConfsHaveEntries(conf);
      hide Confs;
    }
  }

  lemma ListsOkAtFirst(conf: Conf, a: Auth)
    requires WellConfigured(conf) && a.run == []
    requires Configured(conf) ==> a.lists == ValidLists(Rows(conf, true), conf.options)
    ensures ListsOk(conf, a)
  {
    if Configured(conf) {
      ConfsHaveEntries(conf);
      StoredAtFirst(a.lists, Confs(conf));
      hide ValidLists, SplitAll, Rows, Stored;
    }
  }

  lemma IdentifyKeeps(conf: Conf, a: Auth, r: Request)
    requires WellConfigured(conf) && a.end == Live && LiveOk(conf, a)
    ensures var b := Identify(conf, a, r);
      if b.end == Live then Ready(conf, ChallengeStop(b).(postponed := false)) else Inv(conf, b)
  {
    var b := Identify(conf, a, r);
    var c := ChallengeStop(b).(postponed := false);
    hide ValidLists, Rows, Confs, Stored, NoneUsedUp, NameOf, Serves, WellConfigured;
    if a.attempt == 0 {
      IncompleteAtFirst(conf, b);
      if b.end == Live { ListsOkAtFirst(conf, c); }
    }
  }

  lemma OfferedIsNamed(conf: Conf, a: Auth, name: string)
    requires WellConfigured(conf) && Offered(conf, a, name)
    ensures WellNamed(Success(name, None)) && Allowed(Configured(conf), a.lists, Success(name, None))
  {
    FoundRow(Rows(conf, a.noneOn), name);
    RowsNamed(conf, a.noneOn);
  }

  lemma {:induction false} SearchBasics(e: Env, k: Kbd)
    requires k.device.None? && Fair(k)
    ensures var r := Search(e, k);
      Fair(r) && (r.device.Some? ==> r.device.value < |e.names| && DeviceAllowed(e, r.device.value))
  {
    SearchStaysFair(e, k);
    var j := SearchMeaning(e, k);
  }

  /** Starting a device leaves a sound exchange behind, or none. */
  lemma StartKeeps(conf: Conf, a: Auth, k: Kbd, starts: bool)
    requires Fair(k)
    ensures var b := ChallengeStart(conf, a, k, starts);
      KbdOk(conf, b) && b == a.(kbd := b.kbd, handler := b.handler, postponed := b.postponed) &&
      (b.kbd.None? ==> b.postponed == a.postponed)
  {
    SearchBasics(DeviceEnv(conf, a), k.(device := None, ready := false));
    hide Search, DeviceAllowed, Fair;
    Reflect(conf, a, ChallengeStart(conf, a, k, starts));
  }

  /** Which devices are allowed depends on the lists only. */
  lemma Reflect(conf: Conf, a: Auth, b: Auth)
    ensures a.lists == b.lists ==> DeviceEnv(conf, a) == DeviceEnv(conf, b)
  {
  }

  lemma RecordKeeps(a: Auth, key: Key)
    requires KeysOk(a, 0) && !AlreadyUsed(a.keys, key)
    ensures KeysOk(a.(keys := a.keys + [key]), 1)
  {
    hide CountPubkey;
  }

  lemma TryPubkeyKeeps(conf: Conf, a: Auth, r: Request, s: Success)
    requires Ready(conf, a) && WellNamed(s) && s.name == PUBKEY && Allowed(Configured(conf), a.lists, s)
    ensures var (b, authenticated) := TryPubkey(a, r); Finishable(conf, b, authenticated, s)
  {
    hide Confs, Stored, NoneUsedUp, CountPubkey, Allowed, WellNamed, Configured, AlreadyUsed;
    if r.key.Some? && !AlreadyUsed(a.keys, r.key.value) { RecordKeeps(a, r.key.value); }
  }

  lemma TryKbdKeeps(conf: Conf, a: Auth, r: Request, s: Success)
    requires Ready(conf, a)
    ensures Finishable(conf, ChallengeStart(conf, a, NewExchange(conf, r.devs), r.starts), false, s)
  {
    StartKeeps(conf, a, NewExchange(conf, r.devs), r.starts);
    hide ChallengeStart, Confs, Stored, NoneUsedUp, CountPubkey, DeviceAllowed, Configured;
  }

  lemma TryKeeps(conf: Conf, a: Auth, r: Request)
    requires WellConfigured(conf) && Ready(conf, a) && Offered(conf, a, r.name)
    ensures var (b, authenticated) := TryMethod(conf, a, r); Finishable(conf, b, authenticated, Success(r.name, None))
  {
    OfferedIsNamed(conf, a, r.name);
    hide Confs, Stored, NoneUsedUp, CountPubkey, Allowed, WellConfigured, Offered, DeviceAllowed, Join, TryPubkey,
      ChallengeStart, WellNamed, Configured, NewExchange;
    var s := Success(r.name, None);
    if r.name == PUBKEY {
      TryPubkeyKeeps(conf, a, r, s);
    } else if r.name == KBDINT {
      TryKbdKeeps(conf, a, r, s);
    }
  }

  lemma RequestKeeps(conf: Conf, a: Auth, r: Request)
    requires WellConfigured(conf) && a.end == Live && LiveOk(conf, a)
    ensures Inv(conf, OnRequest(conf, a, r))
  {
    hide LiveOk, Identify, TryMethod, Finish, Offered, WellConfigured, Inv;
    IdentifyKeeps(conf, a, r);
    var b := Identify(conf, a, r);
    if b.end == Live {
      var c := ChallengeStop(b).(postponed := false);
      var s := Success(r.name, None);
      if Offered(conf, c, r.name) && c.failures < conf.maxTries {
        TryKeeps(conf, c, r);
        var (d, authenticated) := TryMethod(conf, c, r);
        FinishKeeps(conf, d, authenticated, s, r.rootDenied);
      } else {
        NotTried(conf, c, s);
        FinishKeeps(conf, c, false, s, r.rootDenied);
      }
    }
  }

  lemma NotTried(conf: Conf, a: Auth, s: Success)
    requires Ready(conf, a)
    ensures Finishable(conf, a, false, s)
  {
  }

  // ---- Keyboard-interactive replies ----

  lemma InfoKeeps(conf: Conf, a: Auth, m: Message)
    requires WellConfigured(conf) && a.end == Live && LiveOk(conf, a) && m.Info?
    ensures Inv(conf, OnInfo(conf, a, m))
  {
    hide Confs, Stored, NoneUsedUp, CountPubkey, DeviceAllowed, WellNamed, Configured, Finish, ChallengeStart, Fair;
    if a.attempt == 0 { IncompleteAtFirst(conf, a); }
    if a.attempt > 0 && a.handler && m.counted {
      assert KbdOk(conf, a) && a.attempt > 0;
      var k := a.kbd.value;
      var s := Success(KBDINT, Some(conf.devices[k.device.value]));
      DeviceIsNamed(conf, a, k.device.value);
      var authenticated := m.verdict == Right && a.valid;
      if m.verdict == More && m.asks {
        FinishKeeps(conf, a.(postponed := true), authenticated, s, m.rootDenied);
      } else if authenticated {
        FinishKeeps(conf, ChallengeStop(a.(postponed := false)), authenticated, s, m.rootDenied);
      } else {
        StartKeeps(conf, a.(postponed := false), k, m.starts);
        FinishKeeps(conf, ChallengeStart(conf, a.(postponed := false), k, m.starts), authenticated, s, m.rootDenied);
      }
    }
  }

  lemma DeviceIsNamed(conf: Conf, a: Auth, d: nat)
    requires WellConfigured(conf) && d < |conf.devices| && DeviceAllowed(DeviceEnv(conf, a), d)
    ensures var s := Success(KBDINT, Some(conf.devices[d]));
      WellNamed(s) && Allowed(Configured(conf), a.lists, s) && s.name != PUBKEY
  {
    hide Allowed;
    assert |KBDINT| != |PUBKEY|;
  }

  // ---- Every run ----

  lemma StepKeeps(conf: Conf, a: Auth, m: Message)
    requires WellConfigured(conf) && Inv(conf, a)
    ensures Inv(conf, Step(conf, a, m))
  {
    hide LiveOk, OnRequest, OnInfo, WellConfigured;
    if a.end == Live {
      match m
      case Try(r) => RequestKeeps(conf, a, r);
      case Info(_, _, _, _, _) => InfoKeeps(conf, a, m);
    }
  }

  lemma {:induction false} RunKeeps(conf: Conf, messages: seq<Message>)
    requires WellConfigured(conf)
    ensures Inv(conf, Run(conf, START, messages))
  {
    hide Step;
    if messages != [] {
      var n := |messages| - 1;
      RunKeeps(conf, messages[..n]);
      StepKeeps(conf, Run(conf, START, messages[..n]), messages[n]);
    }
  }

  /** Over every run, whatever its end: authentication has succeeded if and only if, with lists configured, one of them
      is an order-preserving subsequence of the successes, or, without, there has been a success. A success is for a
      valid user, and while live each stored string is an end of its list cut at an entry. */
  lemma CompleteExactlyWhen(conf: Conf, messages: seq<Message>)
    requires WellConfigured(conf)
    ensures var a := Run(conf, START, messages);
      (a.end == Succeeded <==>
        if Configured(conf) then exists i :: 0 <= i < |Confs(conf)| && Embeds(Confs(conf)[i], a.run) else a.run != []) &&
      (a.end == Succeeded ==> a.valid && (!Configured(conf) ==> |a.run| == 1)) &&
      (a.end == Live && a.attempt > 0 && Configured(conf) ==> Stored(Confs(conf), a.run, a.lists))
  {
    var a := Run(conf, START, messages);
    RunKeeps(conf, messages);
    if a.end == Live && a.attempt == 0 { IncompleteAtFirst(conf, a); }
    hide Confs, Run, Embeds;
    forall i | 0 <= i < |Confs(conf)|
      ensures UsedUp(Confs(conf)[i], a.run) <==> Embeds(Confs(conf)[i], a.run)
    {
      UsedUpIff(Confs(conf)[i], a.run);
    }
  }

  /** Over every run, with a positive limit: too many failures end it if and only if the failures reach the limit. The
      reply handler is installed exactly while a sound exchange waits; the sanity checks of the handlers never fire;
      and a success is missing from the lists only where a list asks for a submethod that the method does not have. */
  lemma StaysSound(conf: Conf, messages: seq<Message>)
    requires WellConfigured(conf)
    ensures var a := Run(conf, START, messages);
      (conf.maxTries > 0 ==> (a.end == Fatal(TooManyFailures) <==> a.failures >= conf.maxTries)) &&
      (a.end == Fatal(TooManyFailures) ==> a.failures >= conf.maxTries) &&
      (a.end == Live ==> KbdOk(conf, a)) &&
      a.end != Fatal(AuthenticatedAndPostponed) && a.end != Fatal(NoContext) &&
      (a.end == Fatal(NotInLists) ==> Unlisted(a))
  {
    hide Run, Confs, DeviceAllowed;
    RunKeeps(conf, messages);
  }

  /** The message was answered, or was one too many, and brought no success, was not postponed, was not a first try of
      "none" and not a reply before any request. */
  predicate Missed(a: Auth, b: Auth, m: Message) {
    a.end == Live && (b.end == Live || b.end == Fatal(TooManyFailures)) &&
    b.run == a.run && !b.postponed && !(a.attempt == 0 && (m.Info? || m.request.name == NONE))
  }

  function Misses(conf: Conf, messages: seq<Message>): nat {
    if messages == [] then 0
    else
      var n := |messages| - 1;
      Misses(conf, messages[..n]) +
      if Missed(Run(conf, START, messages[..n]), Run(conf, START, messages), messages[n]) then 1 else 0
  }

  /** What a finish adds to the failures. */
  lemma FinishCounts(conf: Conf, a: Auth, authenticated: bool, s: Success, rootDenied: bool)
    requires a.end == Live
    ensures var b := Finish(conf, a, authenticated, s, rootDenied);
      b.postponed == a.postponed &&
      b.failures == a.failures +
        if (b.end == Live || b.end == Fatal(TooManyFailures)) && b.run == a.run && !b.postponed &&
           (a.attempt > 1 || s.name != NONE) then 1 else 0
  {
    hide UpdateLists;
    assert |a.run + [s]| != |a.run|;
  }

  lemma StartCounts(conf: Conf, a: Auth, k: Kbd, starts: bool)
    ensures var b := ChallengeStart(conf, a, k, starts);
      b.failures == a.failures && b.run == a.run && b.attempt == a.attempt && b.end == a.end
  {
    hide NextDevice;
  }

  lemma TryCounts(conf: Conf, a: Auth, r: Request)
    ensures var b := TryMethod(conf, a, r).0;
      b.failures == a.failures && b.run == a.run && b.attempt == a.attempt && b.end == a.end
  {
    StartCounts(conf, a, NewExchange(conf, r.devs), r.starts);
    hide ChallengeStart, AlreadyUsed, NewExchange;
  }

  lemma IdentifyCounts(conf: Conf, a: Auth, r: Request)
    requires a.end == Live
    ensures var b := Identify(conf, a, r);
      b.failures == a.failures && b.run == a.run && b.attempt == a.attempt + 1 && b.end != Fatal(TooManyFailures)
  {
    hide NameOf, ValidLists, Rows, Serves;
  }

  lemma RequestCounts(conf: Conf, a: Auth, r: Request)
    requires a.end == Live
    ensures var b := OnRequest(conf, a, r);
      b.failures == a.failures + if Missed(a, b, Try(r)) then 1 else 0
  {
    hide Finish, TryMethod, Offered, Identify;
    IdentifyCounts(conf, a, r);
    if Identify(conf, a, r).end == Live {
      var c := ChallengeStop(Identify(conf, a, r)).(postponed := false);
      var (d, authenticated) :=
        if Offered(conf, c, r.name) && c.failures < conf.maxTries then TryMethod(conf, c, r) else (c, false);
      TryCounts(conf, c, r);
      FinishCounts(conf, d, authenticated, Success(r.name, None), r.rootDenied);
    }
  }

  /** A reply changes only the exchange. */
  lemma RepliedCounts(conf: Conf, a: Auth, k: Kbd, m: Message)
    requires m.Info?
    ensures var b := Replied(conf, a, k, m);
      b.failures == a.failures && b.run == a.run && b.attempt == a.attempt && b.end == a.end && b.lists == a.lists &&
      b.valid == a.valid && b.user == a.user && b.service == a.service &&
      (m.verdict == Right && a.valid ==> !b.postponed)
  {
    hide NextDevice;
  }

  lemma InfoCounts(conf: Conf, a: Auth, m: Message)
    requires a.end == Live && m.Info?
    ensures var b := OnInfo(conf, a, m); b.failures == a.failures + if Missed(a, b, m) then 1 else 0
  {
    hide Finish, Replied;
    assert |KBDINT| != |NONE|;
    if a.attempt > 0 && a.handler && a.kbd.Some? && a.kbd.value.ready && a.kbd.value.device.Some? &&
       a.kbd.value.device.value < |conf.devices| && m.counted {
      var k := a.kbd.value;
      var s := Success(KBDINT, Some(conf.devices[k.device.value]));
      var authenticated := m.verdict == Right && a.valid;
      RepliedCounts(conf, a, k, m);
      FinishCounts(conf, Replied(conf, a, k, m), authenticated, s, m.rootDenied);
    }
  }

  /** Over every run, whatever its end, the failures are exactly the messages that missed. With StaysSound: a run has
      too many failures if and only if as many messages missed as the limit allows. */
  lemma {:induction false} FailuresAreMisses(conf: Conf, messages: seq<Message>)
    ensures Run(conf, START, messages).failures == Misses(conf, messages)
  {
    hide OnRequest, OnInfo;
    if messages != [] {
      var n := |messages| - 1;
      FailuresAreMisses(conf, messages[..n]);
      var a, m := Run(conf, START, messages[..n]), messages[n];
      if a.end == Live {
        match m
        case Try(r) => RequestCounts(conf, a, r);
        case Info(_, _, _, _, _) => InfoCounts(conf, a, m);
      }
    }
  }

  /** With no tries configured the first request ends the connection. */
  lemma NoTriesNoLife(conf: Conf, a: Auth, r: Request)
    requires a.end == Live && conf.maxTries <= 0
    ensures Step(conf, a, Try(r)).end.Fatal?
  {
    hide Offered, TryMethod, NameOf, ValidLists, Rows, Serves;
  }

  /** Once ended, by success or not, nothing more happens: success is reached at most once. */
  lemma {:induction false} EndedForGood(conf: Conf, a: Auth, more: seq<Message>)
    requires a.end != Live
    ensures Run(conf, a, more) == a
  {
    if more != [] {
      EndedForGood(conf, a, more[..|more| - 1]);
    }
  }

  predicate SameWho(a: Auth, b: Auth) {
    b.user == a.user && b.service == a.service && b.valid == a.valid && b.attempt >= a.attempt
  }

  lemma FinishSame(conf: Conf, a: Auth, authenticated: bool, s: Success, rootDenied: bool)
    ensures SameWho(a, Finish(conf, a, authenticated, s, rootDenied))
  {
    hide UpdateLists;
  }

  lemma StartSame(conf: Conf, a: Auth, k: Kbd, starts: bool)
    ensures SameWho(a, ChallengeStart(conf, a, k, starts))
  {
    hide NextDevice;
  }

  lemma TrySame(conf: Conf, a: Auth, r: Request)
    ensures SameWho(a, TryMethod(conf, a, r).0)
  {
    StartSame(conf, a, NewExchange(conf, r.devs), r.starts);
    hide ChallengeStart, AlreadyUsed, NewExchange;
  }

  lemma SameUserOnce(conf: Conf, a: Auth, m: Message)
    requires a.attempt > 0
    ensures SameWho(a, Step(conf, a, m))
  {
    hide Finish, TryMethod, ChallengeStart, Offered, NameOf, Introduce;
    if a.end == Live {
      match m
      case Try(r) =>
        var b := Identify(conf, a, r);
        if b.end == Live {
          var c := ChallengeStop(b).(postponed := false);
          var (d, authenticated) :=
            if Offered(conf, c, r.name) && c.failures < conf.maxTries then TryMethod(conf, c, r) else (c, false);
          TrySame(conf, c, r);
          FinishSame(conf, d, authenticated, Success(r.name, None), r.rootDenied);
        }
      case Info(_, verdict, asks, starts, rootDenied) =>
        InfoSame(conf, a, m);
    }
  }

  lemma InfoSame(conf: Conf, a: Auth, m: Message)
    requires m.Info?
    ensures SameWho(a, OnInfo(conf, a, m))
  {
    hide Finish, Replied;
    if a.attempt > 0 && a.handler && a.kbd.Some? && a.kbd.value.device.Some? && a.kbd.value.device.value < |conf.devices| {
      var k := a.kbd.value;
      var s := Success(KBDINT, Some(conf.devices[k.device.value]));
      var authenticated := m.verdict == Right && a.valid;
      RepliedCounts(conf, a, k, m);
      FinishSame(conf, Replied(conf, a, k, m), authenticated, s, m.rootDenied);
    }
  }

  /** The first request fixes user, service and whether the user is valid, for the whole run. */
  lemma {:induction false} SameUser(conf: Conf, a: Auth, more: seq<Message>)
    requires a.attempt > 0
    ensures SameWho(a, Run(conf, a, more))
  {
    hide Step;
    if more != [] {
      var n := |more| - 1;
      SameUser(conf, a, more[..n]);
      SameUserOnce(conf, Run(conf, a, more[..n]), more[n]);
    }
  }

  // ---- Keys pay for publickey entries ----

  /** The entries that ask for a public key. */
  function CountEntries(entries: seq<string>): nat {
    if entries == [] then 0
    else CountEntries(entries[..|entries| - 1]) + if NameOf(entries[|entries| - 1]) == PUBKEY then 1 else 0
  }

  lemma TakenByName(entry: string, s: Success)
    requires Takes(entry, s) && WellNamed(s)
    ensures NameOf(entry) == s.name
  {
    NameOfPlain(s.name, if s.sub.Some? then s.sub.value else "");
  }

  lemma {:induction false} ConsumedPubkeys(entries: seq<string>, run: seq<Success>)
    requires forall i :: 0 <= i < |run| ==> WellNamed(run[i])
    ensures CountEntries(entries[..Consumed(entries, run)]) <= CountPubkey(run)
  {
    hide Takes, NameOf, WellNamed;
    if run != [] {
      var n := |run| - 1;
      ConsumedPubkeys(entries, run[..n]);
      var k := Consumed(entries, run[..n]);
      if k < |entries| && Takes(entries[k], run[n]) {
        TakenByName(entries[k], run[n]);
        assert entries[..k + 1][..k] == entries[..k];
      }
    }
  }

  /** Over every run, whatever its end, the recorded keys are pairwise unequal, and no list has had more publickey
      entries taken off it than there are keys. */
  lemma KeysPayForEntries(conf: Conf, messages: seq<Message>, i: nat)
    requires WellConfigured(conf) && i < |Confs(conf)|
    ensures var a := Run(conf, START, messages);
      Unequal(a.keys) && CountEntries(Confs(conf)[i][..Consumed(Confs(conf)[i], a.run)]) <= |a.keys|
  {
    hide Confs, Run;
    RunKeeps(conf, messages);
    var a := Run(conf, START, messages);
    ConsumedPubkeys(Confs(conf)[i], a.run);
  }
}
