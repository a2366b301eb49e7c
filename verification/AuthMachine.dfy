/** The server's user authentication state machine (auth2.c, auth2-chall.c, auth2-pubkey.c; section 5 of RFC 4252
    and section 3.4 of RFC 4256): what each message from the client does. What the methods' own checks find (a
    password, a signature, a device's verdict) comes in with the message. */
module AuthMachine {
  import opened AuthMethods
  import opened AuthDevices
  import opened Wrappers

  const KBDINT := "keyboard-interactive"
  const PUBKEY := "publickey"
  const NONE := "none"

  /** A public key; certificates on the same key differ in cert only and count as equal. */
  datatype Key = Key(plain: nat, cert: nat)

  predicate EqualPublic(a: Key, b: Key) { a.plain == b.plain }

  datatype Conf = Conf(maxTries: int, rows: seq<Row>, options: seq<string>, devices: seq<string>, challenge: bool)

  /** Why the connection ends without success. */
  datatype Why =
    | TooManyFailures | UserChanged | NoMethodsLeft | InvalidUser | AuthenticatedAndPostponed | NotInLists
    | NoHandler | NoContext | BadReply

  datatype End = Live | Succeeded | Fatal(why: Why)

  /** The authentication context, and the successes counted so far. */
  datatype Auth = Auth(
    attempt: nat, failures: nat, user: string, service: string, valid: bool, postponed: bool,
    handler: bool, kbd: Option<Kbd>, lists: seq<string>, keys: seq<Key>, noneOn: bool, end: End, run: seq<Success>)

  const START := Auth(0, 0, "", "", false, false, false, None, [], [], true, Live, [])

  /** A request, with what the server's checks would find: whether the user is known, whether a root login by this
      method is denied, the plain method's verdict, the key if it decodes and whether its type is accepted, whether
      there is a signature and whether it (or, without one, the key) is good, and whether a device starts. */
  datatype Request = Request(
    user: string, service: string, name: string, known: bool, rootDenied: bool, plain: bool,
    key: Option<Key>, accepted: bool, signed: bool, good: bool, devs: string, starts: bool)

  datatype Verdict = Right | More | Wrong

  datatype Message =
    | Try(request: Request)
    | Info(counted: bool, verdict: Verdict, asks: bool, starts: bool, rootDenied: bool)

  // ---- Parts ----

  /** The table of methods; "none" comes first and is on until it has been tried. */
  function Rows(conf: Conf, noneOn: bool): seq<Row> { [Row(NONE, noneOn)] + conf.rows }

  /** Whether AuthenticationMethods is configured. */
  predicate Configured(conf: Conf) { |conf.options| > 0 }

  function DeviceEnv(conf: Conf, a: Auth): Env { Env(conf.devices, Configured(conf), a.lists) }

  /** authmethod_lookup: enabled, and at the front of some list. */
  predicate Offered(conf: Conf, a: Auth, name: string) {
    var row := Find(Rows(conf, a.noneOn), name);
    row.Some? && row.value.enabled && Allowed(Configured(conf), a.lists, Success(name, None))
  }

  predicate AlreadyUsed(keys: seq<Key>, key: Key) { exists i :: 0 <= i < |keys| && EqualPublic(key, keys[i]) }

  function ChallengeStop(a: Auth): Auth { a.(handler := false, kbd := None) }

  function ChallengeStart(conf: Conf, a: Auth, k: Kbd, starts: bool): Auth {
    var next := NextDevice(DeviceEnv(conf, a), k);
    if next.device.None? || !starts then ChallengeStop(a)
    else a.(kbd := Some(next.(ready := true)), handler := true, postponed := true)
  }

  function NewExchange(conf: Conf, devs: string): Kbd {
    Kbd(Some(if devs == "" then Join(conf.devices) else devs), {}, None, false, [])
  }

  function TryPubkey(a: Auth, r: Request): (Auth, bool) {
    if !a.valid || r.key.None? || AlreadyUsed(a.keys, r.key.value) || !r.accepted || !r.good then (a, false)
    else if r.signed then (a.(keys := a.keys + [r.key.value]), true)
    else (a.(postponed := true), false)
  }

  function TryMethod(conf: Conf, a: Auth, r: Request): (Auth, bool) {
    if r.name == PUBKEY then TryPubkey(a, r)
    else if r.name == KBDINT then
      (if conf.challenge then ChallengeStart(conf, a, NewExchange(conf, r.devs), r.starts) else a, false)
    else if r.name == NONE then (a.(noneOn := false), r.plain)
    else (a, r.plain)
  }

  /** userauth_finish. */
  function Finish(conf: Conf, a: Auth, authenticated: bool, s: Success, rootDenied: bool): Auth {
    if authenticated && !a.valid then a.(end := Fatal(InvalidUser))
    else if authenticated && a.postponed then a.(end := Fatal(AuthenticatedAndPostponed))
    else if authenticated && !rootDenied then Count(conf, a.(run := a.run + [s]), s)
    else if a.postponed then a
    else Fail(conf, a, s.name)
  }

  /** A success is set against the lists, if there are any. */
  function Count(conf: Conf, a: Auth, s: Success): Auth {
    if !Configured(conf) then a.(end := Succeeded)
    else
      var (lists, u) := UpdateLists(a.lists, s);
      match u
      case NotFound => a.(end := Fatal(NotInLists))
      case Complete => a.(lists := lists, end := Succeeded)
      case Advanced => Reply(conf, a.(lists := lists))
  }

  /** A failure is counted, except a first try of "none". */
  function Fail(conf: Conf, a: Auth, name: string): Auth {
    Reply(conf, if a.attempt > 1 || name != NONE then a.(failures := a.failures + 1) else a)
  }

  function Reply(conf: Conf, a: Auth): Auth {
    if a.failures >= conf.maxTries then a.(end := Fatal(TooManyFailures)) else a
  }

  // ---- Messages ----

  predicate Serves(service: string) { service == "ssh-connection" }

  /** The first request fixes user, service and lists. */
  function Introduce(conf: Conf, a: Auth, user: string, r: Request): Auth {
    var lists := if !Configured(conf) then [] else ValidLists(Rows(conf, a.noneOn), conf.options);
    var b := a.(attempt := 1, user := user, service := r.service, lists := lists, valid := r.known && Serves(r.service));
    if Configured(conf) && |lists| == 0 then b.(end := Fatal(NoMethodsLeft)) else b
  }

  /** Later requests must repeat user and service. */
  function Identify(conf: Conf, a: Auth, r: Request): Auth {
    if a.attempt == 0 then Introduce(conf, a, NameOf(r.user), r)
    else
      var b := a.(attempt := a.attempt + 1);
      if NameOf(r.user) != a.user || r.service != a.service then b.(end := Fatal(UserChanged)) else b
  }

  function OnRequest(conf: Conf, a: Auth, r: Request): Auth {
    var b := Identify(conf, a, r);
    if b.end != Live then b
    else
      var c := ChallengeStop(b).(postponed := false);
      var (d, authenticated) :=
        if Offered(conf, c, r.name) && c.failures < conf.maxTries then TryMethod(conf, c, r) else (c, false);
      Finish(conf, d, authenticated, Success(r.name, None), r.rootDenied)
  }

  /** The exchange after a reply to device k: asked again, done, or on to the next device. */
  function Replied(conf: Conf, a: Auth, k: Kbd, m: Message): Auth
    requires m.Info?
  {
    if m.verdict == More && m.asks then a.(postponed := true)
    else if m.verdict == Right && a.valid then ChallengeStop(a.(postponed := false))
    else ChallengeStart(conf, a.(postponed := false), k, m.starts)
  }

  /** Before the first request a reply is only answered as unimplemented; the request clears the handler. */
  function OnInfo(conf: Conf, a: Auth, m: Message): Auth
    requires m.Info?
  {
    if a.attempt == 0 then a
    else if !a.handler then a.(end := Fatal(NoHandler))
    else if a.kbd.None? || !a.kbd.value.ready || a.kbd.value.device.None? ||
            a.kbd.value.device.value >= |conf.devices| then a.(end := Fatal(NoContext))
    else if !m.counted then a.(end := Fatal(BadReply))
    else
      var k := a.kbd.value;
      var s := Success(KBDINT, Some(conf.devices[k.device.value]));
      Finish(conf, Replied(conf, a, k, m), m.verdict == Right && a.valid, s, m.rootDenied)
  }

  /** One message; once it has ended the machine takes no more. */
  function Step(conf: Conf, a: Auth, m: Message): Auth {
    if a.end != Live then a
    else
      match m
      case Try(r) => OnRequest(conf, a, r)
      case Info(_, _, _, _, _) => OnInfo(conf, a, m)
  }

  function Run(conf: Conf, a: Auth, messages: seq<Message>): Auth {
    if messages == [] then a
    else
      var n := |messages| - 1;
      Step(conf, Run(conf, a, messages[..n]), messages[n])
  }

  // ---- The handlers as the source runs them, on the one authentication context ----

  method UserkeyAlreadyUsed(keys: seq<Key>, key: Key) returns (used: bool)
    ensures used == AlreadyUsed(keys, key)
  {
    for i := 0 to |keys|
      invariant forall x :: 0 <= x < i ==> !EqualPublic(key, keys[x])
    {
      if EqualPublic(key, keys[i]) { return true; }
    }
    used := false;
  }

  class Authctxt {
    const conf: Conf
    var attempt: nat
    var failures: nat
    var user: string
    var service: string
    var valid: bool
    var postponed: bool
    var handler: bool
    var kbd: Option<Kbd>
    var methods: MethodLists
    var keys: seq<Key>
    var noneOn: bool
    var end: End
    ghost var run: seq<Success>

    ghost function View(): Auth
      reads this, methods
    {
      Auth(attempt, failures, user, service, valid, postponed, handler, kbd, methods.authMethods, keys, noneOn, end, run)
    }

    constructor (conf: Conf)
      ensures this.conf == conf && View() == START && fresh(methods)
    {
      this.conf := conf;
      attempt, failures, user, service, valid := 0, 0, "", "", false;
      postponed, handler, kbd, keys, noneOn, end, run := false, false, None, [], true, Live, [];
      methods := new MethodLists();
    }

    method Stop()
      modifies this`handler, this`kbd
      ensures View() == ChallengeStop(old(View()))
    {
      handler := false;
      kbd := None;
    }

    method StartDevice(k: Kbd, starts: bool)
      modifies this`handler, this`kbd, this`postponed
      ensures View() == ChallengeStart(conf, old(View()), k, starts)
    {
      hide NextDevice;
      var next := NextDevice(Env(conf.devices, Configured(conf), methods.authMethods), k);
      if next.device.None? || !starts {
        Stop();
        return;
      }
      kbd := Some(next.(ready := true));
      handler := true;
      postponed := true;
    }

    method Pubkey(r: Request) returns (authenticated: bool)
      modifies this`keys, this`postponed
      ensures (View(), authenticated) == TryPubkey(old(View()), r)
    {
      hide AlreadyUsed;
      authenticated := false;
      if !valid || r.key.None? { return; }
      var used := UserkeyAlreadyUsed(keys, r.key.value);
      if used || !r.accepted { return; }
      if r.signed {
        if r.good {
          authenticated := true;
          keys := keys + [r.key.value];
        }
      } else if r.good {
        postponed := true;
      }
    }

    method TryUserauth(r: Request) returns (authenticated: bool)
      modifies this`keys, this`postponed, this`handler, this`kbd, this`noneOn
      ensures (View(), authenticated) == TryMethod(conf, old(View()), r)
    {
      hide TryPubkey, ChallengeStart;
      if r.name == PUBKEY {
        authenticated := Pubkey(r);
      } else if r.name == KBDINT {
        if conf.challenge { StartDevice(NewExchange(conf, r.devs), r.starts); }
        authenticated := false;
      } else {
        if r.name == NONE { noneOn := false; }
        authenticated := r.plain;
      }
    }

    method UserauthFinish(authenticated: bool, s: Success, rootDenied: bool)
      modifies this`failures, this`end, this`run, methods
      ensures View() == Finish(conf, old(View()), authenticated, s, rootDenied)
    {
      hide UpdateLists;
      var accepted, partial := authenticated, false;
      if !valid && accepted {
        end := Fatal(InvalidUser);
        return;
      }
      if accepted && postponed {
        end := Fatal(AuthenticatedAndPostponed);
        return;
      }
      if accepted && rootDenied { accepted := false; }
      if accepted { run := run + [s]; }
      if accepted && Configured(conf) {
        ghost var lists := methods.authMethods;
        var u := methods.Advance(s);
        if u == NotFound {
          // Nothing was removed from any list.
          NotFoundKeeps(lists, s);
          end := Fatal(NotInLists);
          return;
        }
        if u != Complete {
          accepted := false;
          partial := true;
        }
      }
      if postponed { return; }
      if accepted {
        end := Succeeded;
      } else {
        if !partial && (attempt > 1 || s.name != NONE) { failures := failures + 1; }
        if failures >= conf.maxTries { end := Fatal(TooManyFailures); }
      }
    }

    method SetupLists()
      modifies methods
      ensures methods.authMethods == if !Configured(conf) then [] else ValidLists(Rows(conf, noneOn), conf.options)
    {
      hide ValidLists, Rows;
      if !Configured(conf) {
        methods.Clear();
      } else {
        methods.Setup(Rows(conf, noneOn), conf.options);
      }
    }

    method IntroduceUser(name: string, r: Request)
      modifies this`attempt, this`user, this`service, this`valid, this`end, methods
      ensures View() == Introduce(conf, old(View()), name, r)
    {
      hide ValidLists, Serves, Rows;
      attempt := 1;
      user := name;
      valid := r.known && Serves(r.service);
      service := r.service;
      SetupLists();
      if Configured(conf) && |methods.authMethods| == 0 { end := Fatal(NoMethodsLeft); }
    }

    method IdentifyUser(r: Request)
      modifies this`attempt, this`user, this`service, this`valid, this`end, methods
      ensures View() == Identify(conf, old(View()), r)
    {
      hide Introduce, NameOf;
      var name := NameOf(r.user);
      if attempt == 0 {
        IntroduceUser(name, r);
      } else {
        attempt := attempt + 1;
        if name != user || r.service != service { end := Fatal(UserChanged); }
      }
    }

    /** authmethod_lookup. */
    method LookupMethod(name: string) returns (offered: bool)
      ensures offered == Offered(conf, View(), name)
    {
      hide Allowed, Find, Rows;
      var row := FindMethod(Rows(conf, noneOn), name);
      if row.None? || !row.value.enabled { return false; }
      offered := MethodAllowed(Configured(conf), methods.authMethods, Success(name, None));
    }

    method UserauthRequest(r: Request)
      requires end == Live
      modifies this, methods
      ensures methods == old(methods) && View() == OnRequest(conf, old(View()), r)
    {
      hide Identify, TryMethod, Finish, Offered;
      IdentifyUser(r);
      if end != Live { return; }
      Stop();
      postponed := false;
      var authenticated := false;
      var offered := LookupMethod(r.name);
      if offered && failures < conf.maxTries {
        authenticated := TryUserauth(r);
      }
      UserauthFinish(authenticated, Success(r.name, None), r.rootDenied);
    }

    method InfoResponse(m: Message)
      requires m.Info? && end == Live
      modifies this, methods
      ensures methods == old(methods) && View() == OnInfo(conf, old(View()), m)
    {
      hide ChallengeStart, Finish;
      if attempt == 0 { return; }
      if !handler {
        end := Fatal(NoHandler);
        return;
      }
      if kbd.None? || !kbd.value.ready || kbd.value.device.None? || kbd.value.device.value >= |conf.devices| {
        end := Fatal(NoContext);
        return;
      }
      if !m.counted {
        end := Fatal(BadReply);
        return;
      }
      var k := kbd.value;
      postponed := false;
      var authenticated := false;
      match m.verdict {
        case Right => authenticated := valid;
        case More => if m.asks { postponed := true; }
        case Wrong =>
      }
      if !postponed {
        if authenticated { Stop(); } else { StartDevice(k, m.starts); }
      }
      UserauthFinish(authenticated, Success(KBDINT, Some(conf.devices[k.device.value])), m.rootDenied);
    }
  }

  lemma {:induction false} NotFoundKeeps(lists: seq<string>, s: Success)
    requires UpdateLists(lists, s).1 == NotFound
    ensures UpdateLists(lists, s).0 == lists
  {
    hide RemoveMethod;
    if lists != [] {
      NotFoundKeeps(lists[1..], s);
    }
  }
}
