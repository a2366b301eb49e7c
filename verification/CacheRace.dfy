/** Any number of threads on the cache of cache.c: getattr and readdir read the write counter, ask the file
    system behind, and install what they got; writers write behind and then invalidate. Each access to the table
    is one atomic step, and steps of different threads interleave freely. */
module CacheRace {
  import opened CacheTable
  import opened Wrappers

  /** A thread between its counter read and its installs: the counter it saw, how many invalidations had been
      made by then, and the attributes it fetched but has not yet installed. */
  datatype Reader = Reader(ctr: nat, since: nat, got: Option<(string, Stat)>)

  /** pending: writes that have reached the file system behind but not yet run their invalidation. */
  datatype World = World(
    backing: map<string, Stat>, cache: Cache, pending: multiset<string>, done: nat, readers: map<nat, Reader>)

  datatype Step =
    | ReadCtr(t: nat)
    | Fetch(t: nat, path: string)
    | Install(t: nat, now: nat)
    | Write(path: string, stat: Stat)
    | Invalidate(path: string)
    | Forget(path: string)

  function Next(w: World, conf: Config, s: Step): World {
    match s
    case ReadCtr(t) => w.(readers := w.readers[t := Reader(w.cache.writeCtr, w.done, None)])
    case Fetch(t, path) =>
      if t in w.readers && path in w.backing then
        w.(readers := w.readers[t := w.readers[t].(got := Some((path, w.backing[path])))])
      else w
    case Install(t, now) =>
      if t in w.readers && w.readers[t].got.Some? then
        var r := w.readers[t];
        w.(cache := AddAttr(w.cache, conf, r.got.value.0, r.got.value.1, r.ctr, now),
           readers := w.readers[t := r.(got := None)])
      else w
    case Write(path, stat) => w.(backing := w.backing[path := stat], pending := w.pending + multiset{path})
    case Invalidate(path) =>
      if path in w.pending then
        w.(cache := InvalidateWrite(w.cache, path), pending := w.pending - multiset{path}, done := w.done + 1)
      else w
    case Forget(path) => w.(cache := Purge(w.cache, path), pending := w.pending - multiset{path})
  }

  function Run(w: World, conf: Config, steps: seq<Step>): World
    decreases |steps|
  {
    if steps == [] then w else Run(Next(w, conf, steps[0]), conf, steps[1..])
  }

  /** The attributes are what the file system behind has now, or a write to the path is pending. */
  predicate Current(w: World, path: string, stat: Stat) {
    path in w.pending || (path in w.backing && w.backing[path] == stat)
  }

  /** A cached stat differs from the file system behind only while a write to its path is pending. */
  predicate Safe(w: World) { forall path :: path in w.cache.table ==> Current(w, path, w.cache.table[path].stat) }

  /** What a thread holds is current, or an invalidation has happened since it read the counter. */
  predicate Honest(w: World, r: Reader) {
    r.ctr == r.since % CTR_LIMIT && r.since <= w.done &&
    (r.got.Some? ==> Current(w, r.got.value.0, r.got.value.1) || r.since < w.done)
  }

  predicate Inv(w: World) {
    Safe(w) && w.cache.writeCtr == w.done % CTR_LIMIT && forall t :: t in w.readers ==> Honest(w, w.readers[t])
  }

  /** When an uncounted change to a path purges its key: whatever a thread has fetched of that path and not installed
      is what the file system behind has, or another write to the path is pending, or the counter has moved since. */
  predicate Undisturbed(w: World, path: string) {
    forall t :: t in w.readers && w.readers[t].got.Some? && w.readers[t].got.value.0 == path ==>
      (path in w.backing && w.backing[path] == w.readers[t].got.value.1) || w.pending[path] > 1 ||
      w.readers[t].since < w.done
  }

  /** A thread's install does not span 2^64 invalidations, and an uncounted change catches no thread between fetching
      the path and installing it. */
  predicate Timely(w: World, s: Step) {
    match s
    case Install(t, _) => t in w.readers ==> w.done - w.readers[t].since < CTR_LIMIT
    case Forget(path) => Undisturbed(w, path)
    case _ => true
  }

  predicate TimelyRun(w: World, conf: Config, steps: seq<Step>)
    decreases |steps|
  {
    steps == [] || (Timely(w, steps[0]) && TimelyRun(Next(w, conf, steps[0]), conf, steps[1..]))
  }

  /** An install that goes through saw exactly the present number of invalidations. */
  lemma SameCounter(since: nat, done: nat)
    requires since <= done && done - since < CTR_LIMIT && since % CTR_LIMIT == done % CTR_LIMIT
    ensures since == done
  {
  }

  lemma AddAttrEntries(c: Cache, conf: Config, path: string, stat: Stat, wrctr: nat, now: nat)
    ensures var d := AddAttr(c, conf, path, stat, wrctr, now);
      d.writeCtr == c.writeCtr &&
      (forall p :: p in d.table && p != path ==> p in c.table && d.table[p].stat == c.table[p].stat) &&
      (wrctr == c.writeCtr ==> path in d.table && d.table[path].stat == stat) &&
      (wrctr != c.writeCtr ==> d == c)
  {
  }

  lemma InstallKeeps(w: World, conf: Config, t: nat, now: nat)
    requires Inv(w) && Timely(w, Install(t, now))
    ensures Inv(Next(w, conf, Install(t, now)))
  {
    if t in w.readers && w.readers[t].got.Some? {
      hide AddAttr;
      var r := w.readers[t];
      AddAttrEntries(w.cache, conf, r.got.value.0, r.got.value.1, r.ctr, now);
      assert Honest(w, r);
      if r.ctr == w.cache.writeCtr { SameCounter(r.since, w.done); }
      var w' := Next(w, conf, Install(t, now));
      forall u | u in w'.readers
        ensures Honest(w', w'.readers[u])
      {
        assert Honest(w, w.readers[u]);
      }
    }
  }

  lemma WriteKeeps(w: World, conf: Config, path: string, stat: Stat)
    requires Inv(w)
    ensures Inv(Next(w, conf, Write(path, stat)))
  {
    var w' := Next(w, conf, Write(path, stat));
    forall t | t in w'.readers
      ensures Honest(w', w'.readers[t])
    {
      assert Honest(w, w.readers[t]);
    }
  }

  lemma InvalidateKeeps(w: World, conf: Config, path: string)
    requires Inv(w)
    ensures Inv(Next(w, conf, Invalidate(path)))
  {
    var w' := Next(w, conf, Invalidate(path));
    forall t | t in w'.readers
      ensures Honest(w', w'.readers[t])
    {
      assert Honest(w, w.readers[t]);
    }
  }

  lemma ForgetKeeps(w: World, conf: Config, path: string)
    requires Inv(w) && Undisturbed(w, path)
    ensures Inv(Next(w, conf, Forget(path)))
  {
    var w' := Next(w, conf, Forget(path));
    forall t | t in w'.readers
      ensures Honest(w', w'.readers[t])
    {
      assert Honest(w, w.readers[t]);
    }
  }

  lemma ReaderKeeps(w: World, conf: Config, s: Step)
    requires Inv(w) && (s.ReadCtr? || s.Fetch?)
    ensures Inv(Next(w, conf, s))
  {
    var w' := Next(w, conf, s);
    forall t | t in w'.readers
      ensures Honest(w', w'.readers[t])
    {
      if t in w.readers { assert Honest(w, w.readers[t]); }
    }
  }

  /** Every timely run, of any threads in any interleaving, keeps the invariant. */
  lemma {:induction false} RunKeeps(w: World, conf: Config, steps: seq<Step>)
    requires Inv(w) && TimelyRun(w, conf, steps)
    ensures Inv(Run(w, conf, steps))
    decreases |steps|
  {
    hide Inv, Next;
    if steps != [] {
      match steps[0] {
        case Install(t, now) => InstallKeeps(w, conf, t, now);
        case Write(path, stat) => WriteKeeps(w, conf, path, stat);
        case Invalidate(path) => InvalidateKeeps(w, conf, path);
        case Forget(path) => ForgetKeeps(w, conf, path);
        case _ => ReaderKeeps(w, conf, steps[0]);
      }
      RunKeeps(Next(w, conf, steps[0]), conf, steps[1..]);
    }
  }

  /** An empty cache and no thread under way. */
  predicate Initial(w: World) {
    w.cache.table == map[] && w.cache.writeCtr == 0 && w.pending == multiset{} && w.done == 0 && w.readers == map[]
  }

  lemma NeverStale(w: World, conf: Config, steps: seq<Step>)
    requires Initial(w) && TimelyRun(w, conf, steps)
    ensures Safe(Run(w, conf, steps))
  {
    hide Run, TimelyRun;
    RunKeeps(w, conf, steps);
  }

  /** An install of attributes that are out of date, let through because the counter reads as it did. */
  predicate StaleInstall(w: World, s: Step) {
    s.Install? && s.t in w.readers && w.readers[s.t].got.Some? && w.readers[s.t].ctr == w.cache.writeCtr &&
    !Current(w, w.readers[s.t].got.value.0, w.readers[s.t].got.value.1)
  }

  /** From any safe state, whatever changes were made before and counted or not, exactly the stale installs leave a
      stale entry behind. */
  lemma InstallStaleIff(w: World, conf: Config, t: nat, now: nat)
    requires Safe(w)
    ensures !Safe(Next(w, conf, Install(t, now))) <==> StaleInstall(w, Install(t, now))
  {
    if t in w.readers && w.readers[t].got.Some? {
      hide AddAttr;
      var r := w.readers[t];
      var path, stat := r.got.value.0, r.got.value.1;
      AddAttrEntries(w.cache, conf, path, stat, r.ctr, now);
      var w' := Next(w, conf, Install(t, now));
      if r.ctr == w.cache.writeCtr && !Current(w, path, stat) {
        assert !Current(w', path, w'.cache.table[path].stat);
      }
    }
  }

  lemma StepSafeIff(w: World, conf: Config, s: Step)
    requires Safe(w)
    ensures Safe(Next(w, conf, s)) <==> !StaleInstall(w, s)
  {
    if s.Install? {
      InstallStaleIff(w, conf, s.t, s.now);
    }
  }

  predicate AlwaysSafe(w: World, conf: Config, steps: seq<Step>)
    decreases |steps|
  {
    Safe(w) && (steps != [] ==> AlwaysSafe(Next(w, conf, steps[0]), conf, steps[1..]))
  }

  predicate NoStaleInstall(w: World, conf: Config, steps: seq<Step>)
    decreases |steps|
  {
    steps == [] || (!StaleInstall(w, steps[0]) && NoStaleInstall(Next(w, conf, steps[0]), conf, steps[1..]))
  }

  /** Over any run at all, uncounted changes included, the cache is safe throughout if and only if no stale install
      happens. */
  lemma {:induction false} RunSafeIff(w: World, conf: Config, steps: seq<Step>)
    requires Safe(w)
    ensures AlwaysSafe(w, conf, steps) <==> NoStaleInstall(w, conf, steps)
    decreases |steps|
  {
    hide Safe, StaleInstall, Next;
    if steps != [] {
      StepSafeIff(w, conf, steps[0]);
      if Safe(Next(w, conf, steps[0])) {
        RunSafeIff(Next(w, conf, steps[0]), conf, steps[1..]);
      }
    }
  }

  /** While the invariant holds, a stale install takes a positive multiple of 2^64 invalidations since the counter was
      read, with no write pending on the path. */
  lemma WrapIff(w: World, t: nat, now: nat)
    requires Inv(w) && t in w.readers && w.readers[t].got.Some?
    ensures var r := w.readers[t];
      StaleInstall(w, Install(t, now)) <==>
        !Current(w, r.got.value.0, r.got.value.1) && w.done > r.since && (w.done - r.since) % CTR_LIMIT == 0
  {
    assert Honest(w, w.readers[t]);
    SameRemainder(w.readers[t].since, w.done);
  }

  /** An uncounted change keeps the invariant if and only if it disturbs no thread. */
  lemma ForgetKeepsIff(w: World, conf: Config, path: string)
    requires Inv(w)
    ensures Inv(Next(w, conf, Forget(path))) <==> Undisturbed(w, path)
  {
    if Undisturbed(w, path) {
      ForgetKeeps(w, conf, path);
    } else {
      var t := Disturbed(w, path);
      assert !Honest(Next(w, conf, Forget(path)), w.readers[t]);
    }
  }

  /** The thread that an uncounted change catches. */
  lemma Disturbed(w: World, path: string) returns (t: nat)
    requires Inv(w) && !Undisturbed(w, path)
    ensures t in w.readers && w.readers[t].got.Some? && w.readers[t].got.value.0 == path
    ensures !(path in w.backing && w.backing[path] == w.readers[t].got.value.1) && w.pending[path] <= 1
    ensures w.readers[t].since == w.done && w.readers[t].ctr == w.cache.writeCtr
  {
    t :| t in w.readers && w.readers[t].got.Some? && w.readers[t].got.value.0 == path &&
      !(path in w.backing && w.backing[path] == w.readers[t].got.value.1) && w.pending[path] <= 1 &&
      w.readers[t].since >= w.done;
    assert Honest(w, w.readers[t]);
  }

  /** If it disturbs one, that thread's install is stale whenever it comes next. */
  lemma DisturbedInstallsStale(w: World, conf: Config, path: string, now: nat) returns (t: nat)
    requires Inv(w) && !Undisturbed(w, path)
    ensures StaleInstall(Next(w, conf, Forget(path)), Install(t, now))
    ensures !Safe(Next(Next(w, conf, Forget(path)), conf, Install(t, now)))
  {
    t := Disturbed(w, path);
    var w' := Next(w, conf, Forget(path));
    assert Safe(w');
    InstallStaleIff(w', conf, t, now);
  }

  lemma SameRemainder(since: nat, done: nat)
    requires since <= done
    ensures since % CTR_LIMIT == done % CTR_LIMIT <==> (done - since) % CTR_LIMIT == 0
  {
  }

  // ---- Where the protection ends ----

  lemma {:induction false} RunConcat(w: World, conf: Config, a: seq<Step>, b: seq<Step>)
    ensures Run(w, conf, a + b) == Run(Run(w, conf, a), conf, b)
    decreases |a|
  {
    hide Next;
    if a == [] {
      assert a + b == b;
    } else {
      RunConcat(Next(w, conf, a[0]), conf, a[1..], b);
      assert (a + b)[0] == a[0] && (a + b)[1..] == a[1..] + b;
    }
  }

  lemma RunTwo(w: World, conf: Config, a: Step, b: Step)
    ensures Run(w, conf, [a]) == Next(w, conf, a)
    ensures Run(w, conf, [a, b]) == Next(Next(w, conf, a), conf, b)
  {
    hide Next;
    assert [a][1..] == [] && [b][1..] == [] && [a, b][1..] == [b];
    assert Run(Next(w, conf, a), conf, [b]) == Next(Next(w, conf, a), conf, b);
  }

  /** One thread writing the same path k times over, each write followed by its invalidation. */
  function Rewrites(path: string, stat: Stat, k: nat): seq<Step> {
    if k == 0 then [] else [Write(path, stat), Invalidate(path)] + Rewrites(path, stat, k - 1)
  }

  lemma RewriteOnce(w: World, conf: Config, path: string, stat: Stat)
    requires w.cache.table == map[]
    ensures var w' := Run(w, conf, [Write(path, stat), Invalidate(path)]);
      w' == w.(backing := w.backing[path := stat], done := w.done + 1,
               cache := w.cache.(writeCtr := (w.cache.writeCtr + 1) % CTR_LIMIT))
  {
    RunTwo(w, conf, Write(path, stat), Invalidate(path));
    var w' := Next(Next(w, conf, Write(path, stat)), conf, Invalidate(path));
    assert w'.pending == w.pending;
    assert w'.cache.table == map[];
  }

  lemma {:induction false} RewriteMany(w: World, conf: Config, path: string, stat: Stat, k: nat)
    requires w.cache.table == map[] && w.cache.writeCtr == w.done % CTR_LIMIT
    ensures var w' := Run(w, conf, Rewrites(path, stat, k));
      w'.cache.table == map[] && w'.cache.writeCtr == w'.done % CTR_LIMIT && w'.done == w.done + k &&
      w'.readers == w.readers && w'.pending == w.pending && (k > 0 ==> path in w'.backing && w'.backing[path] == stat) &&
      (k == 0 ==> w'.backing == w.backing)
    decreases k
  {
    hide Next;
    if k > 0 {
      var two := [Write(path, stat), Invalidate(path)];
      RewriteOnce(w, conf, path, stat);
      RunConcat(w, conf, two, Rewrites(path, stat, k - 1));
      RewriteMany(Run(w, conf, two), conf, path, stat, k - 1);
    }
  }

  /** Without the bound on overlap the property fails: a reader that sleeps through 2^64 writes to its path finds
      the counter where it left it and installs attributes that are long out of date, with nothing pending. */
  lemma WrapBreaks(w: World, conf: Config, path: string, stat: Stat, now: nat) returns (steps: seq<Step>)
    requires Initial(w) && path in w.backing && w.backing[path] != stat
    ensures !Safe(Run(w, conf, steps)) && Run(w, conf, steps).pending == multiset{}
  {
    hide AddAttr;
    var start := [ReadCtr(0), Fetch(0, path)];
    var w1 := Run(w, conf, start);
    RunTwo(w, conf, ReadCtr(0), Fetch(0, path));
    var many := Rewrites(path, stat, CTR_LIMIT);
    var w2 := Run(w1, conf, many);
    RewriteMany(w1, conf, path, stat, CTR_LIMIT);
    var last := [Install(0, now)];
    var w3 := Run(w2, conf, last);
    RunTwo(w2, conf, Install(0, now), Install(0, now));
    AddAttrEntries(w2.cache, conf, path, w.backing[path], 0, now);
    assert !Current(w3, path, w3.cache.table[path].stat);
    steps := start + (many + last);
    RunConcat(w, conf, start, many + last);
    RunConcat(w1, conf, many, last);
  }

  /** A change that purges without counting, as chmod and truncate do, is not protected: a reader that fetched
      before it installs the old attributes after it. */
  lemma UncountedBreaks(w: World, conf: Config, path: string, stat: Stat, now: nat)
    requires Initial(w) && path in w.backing && w.backing[path] != stat
    ensures var end := Run(w, conf, [ReadCtr(0), Fetch(0, path), Write(path, stat), Forget(path), Install(0, now)]);
      !Safe(end) && end.pending == multiset{}
  {
    hide AddAttr;
    var w1 := Next(w, conf, ReadCtr(0));
    var w2 := Next(w1, conf, Fetch(0, path));
    var w3 := Next(w2, conf, Write(path, stat));
    var w4 := Next(w3, conf, Forget(path));
    var w5 := Next(w4, conf, Install(0, now));
    AddAttrEntries(w4.cache, conf, path, w.backing[path], 0, now);
    assert !Current(w5, path, w5.cache.table[path].stat);
    hide Next, Safe;
    var steps := [ReadCtr(0), Fetch(0, path), Write(path, stat), Forget(path), Install(0, now)];
    var s1, s2, s3, s4 := steps[1..], steps[1..][1..], steps[1..][1..][1..], steps[1..][1..][1..][1..];
    assert s4[1..] == [];
    assert Run(w4, conf, s4) == w5;
    assert Run(w3, conf, s3) == w5;
    assert Run(w2, conf, s2) == w5;
    assert Run(w1, conf, s1) == w5;
  }
}
