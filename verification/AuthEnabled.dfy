/** Which methods can ever succeed: enabled ones, and "none" once. */
module AuthEnabled {
  import opened AuthMethods
  import opened AuthDevices
  import opened AuthMachine
  import opened Wrappers

  /** The first row of that name in the configured table is switched on. */
  predicate On(conf: Conf, name: string) {
    exists i :: 0 <= i < |conf.rows| && conf.rows[i] == Row(name, true) &&
                forall j :: 0 <= j < i ==> conf.rows[j].name != name
  }

  function CountNone(run: seq<Success>): nat {
    if run == [] then 0 else CountNone(run[..|run| - 1]) + if run[|run| - 1].name == NONE then 1 else 0
  }

  /** Every success is of an enabled method, except "none", which is spent by its first try; and an exchange is under
      way only with keyboard-interactive enabled. */
  predicate Licensed(conf: Conf, a: Auth) {
    (forall i :: 0 <= i < |a.run| ==> a.run[i].name == NONE || On(conf, a.run[i].name)) &&
    CountNone(a.run) <= (if a.noneOn then 0 else 1) && (a.kbd.Some? ==> On(conf, KBDINT))
  }

  lemma {:induction false} FoundFirst(table: seq<Row>, name: string) returns (i: nat)
    requires Find(table, name).Some?
    ensures i < |table| && table[i] == Find(table, name).value && table[i].name == name
    ensures forall j :: 0 <= j < i ==> table[j].name != name
  {
    if table[0].name == name {
      i := 0;
    } else {
      var k := FoundFirst(table[1..], name);
      i := k + 1;
      forall j | 0 <= j < i ensures table[j].name != name {
        if j > 0 { assert table[j] == table[1..][j - 1]; }
      }
    }
  }

  lemma {:induction false} FindsFirst(table: seq<Row>, name: string, i: nat)
    requires i < |table| && table[i].name == name && forall j :: 0 <= j < i ==> table[j].name != name
    ensures Find(table, name) == Some(table[i])
  {
    if i > 0 {
      assert table[0].name != name;
      forall j | 0 <= j < i - 1 ensures table[1..][j].name != name { assert table[1..][j] == table[j + 1]; }
      FindsFirst(table[1..], name, i - 1);
    }
  }

  /** A method is enabled and the table says so, or is "none" not tried yet. */
  predicate Enabled(conf: Conf, noneOn: bool, name: string) { if name == NONE then noneOn else On(conf, name) }

  lemma EnabledIff(conf: Conf, noneOn: bool, name: string)
    ensures var row := Find(Rows(conf, noneOn), name); row.Some? && row.value.enabled <==> Enabled(conf, noneOn, name)
  {
    var table := Rows(conf, noneOn);
    if name == NONE {
      FindsFirst(table, name, 0);
    } else {
      if Find(table, name).Some? {
        var i := FoundFirst(table, name);
        assert i > 0 && conf.rows[i - 1] == table[i];
        forall j | 0 <= j < i - 1 ensures conf.rows[j].name != name { assert conf.rows[j] == table[j + 1]; }
      }
      if On(conf, name) {
        var i :| 0 <= i < |conf.rows| && conf.rows[i] == Row(name, true) &&
                 forall j :: 0 <= j < i ==> conf.rows[j].name != name;
        forall j | 0 <= j < i + 1 ensures table[j].name != name { if j > 0 { assert table[j] == conf.rows[j - 1]; } }
        FindsFirst(table, name, i + 1);
      }
    }
  }

  /** The first row of that name is there and, if that is asked, enabled. */
  predicate HasRow(table: seq<Row>, name: string, needEnable: bool) {
    exists i :: 0 <= i < |table| && table[i].name == name && (needEnable ==> table[i].enabled) &&
                forall j :: 0 <= j < i ==> table[j].name != name
  }

  /** A configured list is accepted if and only if it is not empty and each entry, up to any colon, names such a row. */
  lemma AcceptedIff(table: seq<Row>, list: string, needEnable: bool)
    ensures Valid(table, list, needEnable) <==>
      list != "" && forall i :: 0 <= i < |Split(list)| ==> HasRow(table, NameOf(Split(list)[i]), needEnable)
  {
    forall name: string
      ensures HasRow(table, name, needEnable) <==>
        Find(table, name).Some? && (needEnable ==> Find(table, name).value.enabled)
    {
      HasRowIff(table, name, needEnable);
    }
    hide HasRow, Find, NameOf, Split;
  }

  lemma HasRowIff(table: seq<Row>, name: string, needEnable: bool)
    ensures HasRow(table, name, needEnable) <==>
      Find(table, name).Some? && (needEnable ==> Find(table, name).value.enabled)
  {
    if Find(table, name).Some? { var i := FoundFirst(table, name); }
    if HasRow(table, name, needEnable) {
      var i :| 0 <= i < |table| && table[i].name == name && (needEnable ==> table[i].enabled) &&
               forall j :: 0 <= j < i ==> table[j].name != name;
      FindsFirst(table, name, i);
    }
  }

  /** What is offered is enabled. */
  lemma OfferedIsOn(conf: Conf, a: Auth, name: string)
    requires Offered(conf, a, name)
    ensures Enabled(conf, a.noneOn, name)
  {
    hide Allowed, On;
    EnabledIff(conf, a.noneOn, name);
  }

  /** Whether a success may be counted: its method is enabled, or it is "none" and the first. */
  predicate May(conf: Conf, a: Auth, s: Success) {
    if s.name == NONE then CountNone(a.run) == 0 && !a.noneOn else On(conf, s.name)
  }

  lemma FinishLicensed(conf: Conf, a: Auth, authenticated: bool, s: Success, rootDenied: bool)
    requires Licensed(conf, a) && (authenticated ==> May(conf, a, s))
    ensures Licensed(conf, Finish(conf, a, authenticated, s, rootDenied))
  {
    FinishFrame(conf, a, authenticated, s, rootDenied);
    if authenticated && May(conf, a, s) { CountedLicensed(conf, a, s); }
    hide Finish, On, CountNone;
  }

  /** Apart from the successes, which may grow by one, a finish leaves what is licensed alone. */
  lemma FinishFrame(conf: Conf, a: Auth, authenticated: bool, s: Success, rootDenied: bool)
    ensures var b := Finish(conf, a, authenticated, s, rootDenied);
      b.noneOn == a.noneOn && b.kbd == a.kbd && (b.run == a.run || (authenticated && b.run == a.run + [s]))
  {
    hide UpdateLists;
  }

  lemma CountedLicensed(conf: Conf, a: Auth, s: Success)
    requires Licensed(conf, a) && May(conf, a, s)
    ensures Licensed(conf, a.(run := a.run + [s]))
  {
    hide On;
    assert (a.run + [s])[..|a.run|] == a.run;
  }

  lemma StartLicensed(conf: Conf, a: Auth, k: Kbd, starts: bool)
    requires Licensed(conf, a) && On(conf, KBDINT)
    ensures Licensed(conf, ChallengeStart(conf, a, k, starts))
  {
    hide NextDevice, On;
  }

  lemma TryLicensed(conf: Conf, a: Auth, r: Request)
    requires Licensed(conf, a) && Offered(conf, a, r.name)
    ensures var (b, authenticated) := TryMethod(conf, a, r);
      Licensed(conf, b) && (authenticated ==> May(conf, b, Success(r.name, None)))
  {
    OfferedIsOn(conf, a, r.name);
    hide Offered, On, AlreadyUsed, NewExchange, ChallengeStart;
    assert |KBDINT| != |NONE| && |PUBKEY| != |NONE|;
    if r.name == KBDINT { StartLicensed(conf, a, NewExchange(conf, r.devs), r.starts); }
  }

  lemma IdentifyLicensed(conf: Conf, a: Auth, r: Request)
    requires Licensed(conf, a)
    ensures Licensed(conf, Identify(conf, a, r)) && Licensed(conf, ChallengeStop(Identify(conf, a, r)))
  {
    hide On, NameOf, ValidLists, Rows, Serves;
  }

  lemma RequestLicensed(conf: Conf, a: Auth, r: Request)
    requires Licensed(conf, a)
    ensures Licensed(conf, OnRequest(conf, a, r))
  {
    hide Identify, TryMethod, Finish, Offered, On, May;
    IdentifyLicensed(conf, a, r);
    var b := Identify(conf, a, r);
    if b.end == Live {
      var c := ChallengeStop(b).(postponed := false);
      var s := Success(r.name, None);
      if Offered(conf, c, r.name) && c.failures < conf.maxTries {
        TryLicensed(conf, c, r);
        var (d, authenticated) := TryMethod(conf, c, r);
        FinishLicensed(conf, d, authenticated, s, r.rootDenied);
      } else {
        FinishLicensed(conf, c, false, s, r.rootDenied);
      }
    }
  }

  lemma RepliedLicensed(conf: Conf, a: Auth, k: Kbd, m: Message)
    requires Licensed(conf, a) && On(conf, KBDINT) && m.Info?
    ensures Licensed(conf, Replied(conf, a, k, m))
  {
    hide ChallengeStart, On;
    StartLicensed(conf, a.(postponed := false), k, m.starts);
  }

  lemma InfoLicensed(conf: Conf, a: Auth, m: Message)
    requires Licensed(conf, a) && m.Info?
    ensures Licensed(conf, OnInfo(conf, a, m))
  {
    hide Replied, Finish, On;
    assert |KBDINT| != |NONE|;
    if a.attempt > 0 && a.handler && a.kbd.Some? && a.kbd.value.ready && a.kbd.value.device.Some? &&
       a.kbd.value.device.value < |conf.devices| && m.counted {
      var k := a.kbd.value;
      var s := Success(KBDINT, Some(conf.devices[k.device.value]));
      RepliedLicensed(conf, a, k, m);
      FinishLicensed(conf, Replied(conf, a, k, m), m.verdict == Right && a.valid, s, m.rootDenied);
    }
  }

  lemma {:induction false} RunLicensed(conf: Conf, messages: seq<Message>)
    ensures Licensed(conf, Run(conf, START, messages))
  {
    hide OnRequest, OnInfo, On;
    if messages != [] {
      var n := |messages| - 1;
      RunLicensed(conf, messages[..n]);
      var a := Run(conf, START, messages[..n]);
      if a.end == Live {
        match messages[n]
        case Try(r) => RequestLicensed(conf, a, r);
        case Info(_, _, _, _, _) => InfoLicensed(conf, a, messages[n]);
      }
    }
  }

  /** Over every run, whatever its end and configuration: each success is of a method whose first row in the table is
      enabled, and "none" succeeds at most once and not while its first try is still to come. */
  lemma OnlyEnabledSucceed(conf: Conf, messages: seq<Message>)
    ensures var a := Run(conf, START, messages);
      (forall i :: 0 <= i < |a.run| && a.run[i].name != NONE ==> On(conf, a.run[i].name)) &&
      CountNone(a.run) <= 1 && (a.noneOn ==> CountNone(a.run) == 0)
  {
    hide Run, On;
    RunLicensed(conf, messages);
  }
}
