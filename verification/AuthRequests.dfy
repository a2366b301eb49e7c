/** What one request does besides succeeding: whom it names, and when its answer is put off. */
module AuthRequests {
  import opened AuthMethods
  import opened AuthDevices
  import opened AuthMachine
  import opened AuthRuns
  import opened AuthEnabled
  import opened AuthEnds
  import opened Wrappers

  // ---- Whom a connection is about ----

  lemma {:induction false} RunOn(conf: Conf, a: Auth, first: seq<Message>, more: seq<Message>)
    ensures Run(conf, a, first + more) == Run(conf, Run(conf, a, first), more)
    decreases |more|
  {
    hide Step;
    if more == [] {
      assert first + more == first;
    } else {
      var n := |more| - 1;
      RunOn(conf, a, first, more[..n]);
      assert (first + more)[..|first| + n] == first + more[..n];
    }
  }

  lemma {:induction false} RepliesBefore(conf: Conf, early: seq<Message>)
    requires forall i :: 0 <= i < |early| ==> early[i].Info?
    ensures Run(conf, START, early) == START
  {
    if early != [] { RepliesBefore(conf, early[..|early| - 1]); }
  }

  /** Over every run with a request in it, user, service and validity are those of the first one. */
  lemma UserIsFirst(conf: Conf, early: seq<Message>, r: Request, more: seq<Message>)
    requires forall i :: 0 <= i < |early| ==> early[i].Info?
    ensures var a := Run(conf, START, early + ([Try(r)] + more));
      a.user == NameOf(r.user) && a.service == r.service && a.valid == (r.known && r.service == "ssh-connection") &&
      a.attempt > 0
  {
    RepliesBefore(conf, early);
    RunOn(conf, START, early, [Try(r)] + more);
    RunOn(conf, START, [Try(r)], more);
    assert [Try(r)][..0] == [];
    var a := Step(conf, START, Try(r));
    assert Run(conf, START, [Try(r)]) == a;
    FirstRequest(conf, r);
    hide Run, Step;
    SameUser(conf, a, more);
  }

  lemma FirstRequest(conf: Conf, r: Request)
    ensures var a := Step(conf, START, Try(r));
      a.user == NameOf(r.user) && a.service == r.service && a.valid == (r.known && r.service == "ssh-connection") &&
      a.attempt == 1
  {
    hide TryMethod, Finish, Offered, ValidLists, Rows, NameOf;
    var b := Identify(conf, START, r);
    if b.end == Live {
      var c := ChallengeStop(b).(postponed := false);
      TryWho(conf, c, r);
      var (d, authenticated) :=
        if Offered(conf, c, r.name) && c.failures < conf.maxTries then TryMethod(conf, c, r) else (c, false);
      FinishWho(conf, d, authenticated, Success(r.name, None), r.rootDenied);
    }
  }

  predicate Whom(a: Auth, b: Auth) {
    b.user == a.user && b.service == a.service && b.valid == a.valid && b.attempt == a.attempt
  }

  lemma TryWho(conf: Conf, a: Auth, r: Request)
    ensures Whom(a, TryMethod(conf, a, r).0)
  {
    hide NextDevice, AlreadyUsed, NewExchange;
  }

  lemma FinishWho(conf: Conf, a: Auth, authenticated: bool, s: Success, rootDenied: bool)
    ensures Whom(a, Finish(conf, a, authenticated, s, rootDenied))
  {
    hide UpdateLists;
  }

  // ---- When the answer is put off ----

  /** The pieces a keyboard-interactive request goes through: the client's, or all devices. */
  function Asked(conf: Conf, r: Request): seq<string> { if r.devs == "" then conf.devices else Split(r.devs) }

  /** Some piece, before any empty one, is the front of the name of a device that the lists allow. */
  predicate DeviceThere(conf: Conf, lists: seq<string>, pieces: seq<string>) {
    exists x, i :: 0 <= x < |pieces| && (forall y :: 0 <= y <= x ==> pieces[y] != "") && 0 <= i < |conf.devices| &&
                   pieces[x] <= conf.devices[i] && DeviceAllowed(Env(conf.devices, Configured(conf), lists), i)
  }

  lemma PiecesAsked(conf: Conf, r: Request)
    requires WellConfigured(conf)
    ensures var p := Pieces(NewExchange(conf, r.devs).devices); p == Asked(conf, r) || (Asked(conf, r) == [] && p == [""])
  {
    if r.devs == "" && conf.devices != [] { SplitJoin(conf.devices); }
    hide Split;
    if r.devs == "" && conf.devices == [] { EmptySplit(); }
  }

  lemma EmptySplit()
    ensures Split("") == [""]
  {
  }

  /** A device is found if and only if there is one for some piece. */
  lemma FindsDevice(e: Env, k: Kbd)
    requires k.device.None? && k.done == {}
    ensures var pieces := Pieces(k.devices);
      Search(e, k).device.Some? <==>
        exists x, i :: 0 <= x < |pieces| && (forall y :: 0 <= y <= x ==> pieces[y] != "") && 0 <= i < |e.names| &&
                       pieces[x] <= e.names[i] && DeviceAllowed(e, i)
  {
    var j := SearchMeaning(e, k);
    var pieces, found := Pieces(k.devices), Search(e, k);
    hide Search, DeviceAllowed, Matching;
    if found.device.Some? {
      assert pieces[j] <= e.names[found.device.value];
    } else {
      forall x, i | 0 <= x < |pieces| && (forall y :: 0 <= y <= x ==> pieces[y] != "") && 0 <= i < |e.names|
        ensures !(pieces[x] <= e.names[i] && DeviceAllowed(e, i))
      {
        assert x < j;
        assert Hopeless(e, pieces[x], k.done);
        assert !Eligible(e, pieces[x], k.done, i);
      }
    }
  }

  /** The key is good and acceptable and was not used before, but there is no signature yet. */
  predicate Probe(a: Auth, r: Request, valid: bool) {
    r.name == PUBKEY && valid && r.key.Some? && !AlreadyUsed(a.keys, r.key.value) && r.accepted && r.good && !r.signed
  }

  /** The answer is put off: a key is only asked about, or a device takes over. */
  predicate PutOff(conf: Conf, a: Auth, r: Request, valid: bool, lists: seq<string>) {
    Probe(a, r, valid) || (r.name == KBDINT && conf.challenge && r.starts && DeviceThere(conf, lists, Asked(conf, r)))
  }

  lemma StartPutsOff(conf: Conf, a: Auth, k: Kbd, starts: bool)
    requires !a.postponed
    ensures ChallengeStart(conf, a, k, starts).postponed <==>
      starts && Search(DeviceEnv(conf, a), k.(device := None, ready := false)).device.Some?
  {
    hide Search;
  }

  lemma KbdPutsOff(conf: Conf, a: Auth, r: Request)
    requires WellConfigured(conf) && !a.postponed
    ensures ChallengeStart(conf, a, NewExchange(conf, r.devs), r.starts).postponed <==>
      r.starts && DeviceThere(conf, a.lists, Asked(conf, r))
  {
    var k := NewExchange(conf, r.devs).(device := None, ready := false);
    assert k.done == {} && Pieces(k.devices) == Pieces(NewExchange(conf, r.devs).devices);
    hide Search, NewExchange, Pieces, Asked, DeviceAllowed, ChallengeStart;
    StartPutsOff(conf, a, NewExchange(conf, r.devs), r.starts);
    PiecesAsked(conf, r);
    FindsDevice(DeviceEnv(conf, a), k);
    assert DeviceEnv(conf, a) == Env(conf.devices, Configured(conf), a.lists);
  }

  lemma TryPutsOff(conf: Conf, a: Auth, r: Request)
    requires WellConfigured(conf) && !a.postponed
    ensures TryMethod(conf, a, r).0.postponed <==> PutOff(conf, a, r, a.valid, a.lists)
    ensures TryMethod(conf, a, r).0.postponed ==> !TryMethod(conf, a, r).1
  {
    hide AlreadyUsed, DeviceThere, ChallengeStart, NewExchange, Asked, WellConfigured;
    assert |PUBKEY| != |KBDINT|;
    KbdPutsOff(conf, a, r);
  }

  lemma FinishPutsOff(conf: Conf, a: Auth, authenticated: bool, s: Success, rootDenied: bool)
    requires a.end == Live && (authenticated ==> !a.postponed)
    ensures var b := Finish(conf, a, authenticated, s, rootDenied);
      b.postponed == a.postponed && (b.postponed ==> b == a)
  {
    hide UpdateLists;
  }

  /** After every live run, the answer to a request is put off if and only if its method is tried and asks for more; then
      the connection goes on, with no success, no failure and the same lists. */
  lemma PutOffIff(conf: Conf, messages: seq<Message>, r: Request)
    requires WellConfigured(conf) && Run(conf, START, messages).end == Live
    ensures var a := Run(conf, START, messages);
      var b := Step(conf, a, Try(r));
      (Identified(conf, a, r) ==>
        (b.postponed <==> Tried(conf, a, r) && PutOff(conf, a, r, ValidUser(a, r), ListsFor(conf, a)))) &&
      (Identified(conf, a, r) && b.postponed ==>
        b.end == Live && b.run == a.run && b.failures == a.failures && b.lists == ListsFor(conf, a))
  {
    var a := Run(conf, START, messages);
    hide Run, Step, Identified, Tried, PutOff;
    if Identified(conf, a, r) { RequestPutsOff(conf, a, r); }
  }

  lemma RequestPutsOff(conf: Conf, a: Auth, r: Request)
    requires WellConfigured(conf) && a.end == Live && Identified(conf, a, r)
    ensures var b := Step(conf, a, Try(r));
      (b.postponed <==> Tried(conf, a, r) && PutOff(conf, a, r, ValidUser(a, r), ListsFor(conf, a))) &&
      (b.postponed ==> b.end == Live && b.run == a.run && b.failures == a.failures && b.lists == ListsFor(conf, a))
  {
    hide TryMethod, Finish, Offered, Identify, Identified, ValidUser, ListsFor, PutOff, WellConfigured, Available, Vouched;
    IdentifyEnds(conf, a, r);
    var b := Identify(conf, a, r);
    var c := ChallengeStop(b).(postponed := false);
    OfferedIff(conf, c, r.name);
    TryPutsOff(conf, c, r);
    TryCounts(conf, c, r);
    TryEnds(conf, c, r);
    PutOffSame(conf, a, c, r, c.valid, c.lists);
    var (d, authenticated) :=
      if Offered(conf, c, r.name) && c.failures < conf.maxTries then TryMethod(conf, c, r) else (c, false);
    FinishPutsOff(conf, d, authenticated, Success(r.name, None), r.rootDenied);
  }

  lemma PutOffSame(conf: Conf, a: Auth, b: Auth, r: Request, valid: bool, lists: seq<string>)
    requires a.keys == b.keys
    ensures PutOff(conf, a, r, valid, lists) == PutOff(conf, b, r, valid, lists)
  {
    hide AlreadyUsed, DeviceThere;
  }
}
