/** What the upkeep of the cache leaves alone: cleaning up is never noticed, a change purges no more than it has to, and
    a listing leaves the attributes of its entries behind. */
module CacheUpkeep {
  import opened CacheTable
  import opened CachePaths
  import opened BackingTree
  import opened CacheCoherence
  import opened Wrappers

  // ---- Cleaning up ----

  /** A node is kept at least as long as each of its parts. */
  predicate Lasting(node: Node) {
    node.valid >= node.statValid && node.valid >= node.dirValid && node.valid >= node.linkValid
  }

  ghost predicate AllLasting(c: Cache) { forall k :: k in c.table ==> Lasting(c.table[k]) }

  /** Cleaning up drops the nodes that have expired, when the table is too big or it is time, and never twice within the
      shortest interval; it touches nothing else. */
  lemma CleansWhenDue(c: Cache, conf: Config, now: nat, k: string)
    ensures var d := Clean(c, conf, now);
      var due := now > c.lastCleaned + conf.minCleanInterval &&
        (|c.table| > conf.maxSize || now > c.lastCleaned + conf.cleanInterval);
      (k in d.table <==> k in c.table && (due ==> c.table[k].valid >= now)) &&
      (k in d.table ==> d.table[k] == c.table[k]) && d.lastCleaned == (if due then now else c.lastCleaned) &&
      d.writeCtr == c.writeCtr
  {
  }

  /** No search from then on finds less for it. */
  lemma CleaningIsInvisible(c: Cache, conf: Config, now: nat, k: string, later: nat)
    requires AllLasting(c) && now <= later
    ensures var d := Clean(c, conf, now);
      FreshAttr(d, k, later) == FreshAttr(c, k, later) && FreshDir(d, k, later) == FreshDir(c, k, later) &&
      FreshLink(d, k, later) == FreshLink(c, k, later) && AllLasting(d)
  {
    CleansWhenDue(c, conf, now, k);
    if k in c.table { assert Lasting(c.table[k]); }
  }

  lemma PutLasts(c: Cache, conf: Config, k: string, node: Node, now: nat)
    requires AllLasting(c) && Lasting(node)
    ensures AllLasting(Clean(Put(c, k, node), conf, now))
  {
  }

  lemma AttrLasts(c: Cache, conf: Config, k: string, stat: Stat, wrctr: nat, now: nat)
    requires AllLasting(c)
    ensures AllLasting(AddAttr(c, conf, k, stat, wrctr, now))
  {
    hide Clean;
    PutLasts(c, conf, k, WithAttr(Get(c, k), stat, now + conf.statTimeout), now);
  }

  lemma {:induction false} FillLasts(c: Cache, conf: Config, path: string, entries: seq<DirEntry>, wrctr: nat)
    requires AllLasting(c)
    ensures AllLasting(FillAll(c, conf, path, entries, wrctr))
  {
    hide AddAttr;
    if entries != [] {
      var n := |entries| - 1;
      FillLasts(c, conf, path, entries[..n], wrctr);
      var e := entries[n];
      AttrLasts(FillAll(c, conf, path, entries[..n], wrctr), conf, ChildKey(path, e.name), e.stat, wrctr, e.now);
    }
  }

  lemma LinkLasts(c: Cache, conf: Config, k: string, answer: Option<string>, size: nat, now: nat)
    requires AllLasting(c) && size > 0
    ensures AllLasting(ServeLink(c, conf, k, answer, size, now).0)
  {
    if answer.Some? {
      var link := Cut(Cut(answer.value, size), size);
      PutLasts(c, conf, k, WithLink(Get(c, k), link, now + conf.linkTimeout), now);
    }
    hide Clean;
  }

  lemma DirLasts(c: Cache, conf: Config, k: string, answer: Option<seq<DirEntry>>, now: nat)
    requires AllLasting(c)
    ensures AllLasting(ServeDir(c, conf, k, answer, now).0)
  {
    hide FillAll, Clean, Names;
    if answer.Some? {
      FillLasts(c, conf, k, answer.value, c.writeCtr);
      var d := FillAll(c, conf, k, answer.value, c.writeCtr);
      PutLasts(d, conf, k, WithDir(Get(d, k), Names(answer.value), now + conf.dirTimeout), now);
    }
  }

  lemma PurgeLasts(c: Cache, req: Request)
    requires AllLasting(c)
    ensures AllLasting(Invalidated(c, req))
  {
    hide ParentKey, Render;
  }

  lemma ServeLasts(c: Cache, conf: Config, fs: FS, t: Turn)
    requires AllLasting(c) && (t.req.ReadLink? ==> t.req.size > 0)
    ensures AllLasting(Serve(c, conf, fs, t).0)
  {
    hide AllLasting, AddAttr, ServeLink, ServeDir, Invalidated, Render, Succeeds;
    match t.req
    case GetAttr(p) => if p in fs { AttrLasts(c, conf, Render(p), fs[p].stat, c.writeCtr, t.now); }
    case ReadLink(p, size) => LinkLasts(c, conf, Render(p), LinkOf(fs, p), size, t.now);
    case ReadDir(p, entries) =>
      DirLasts(c, conf, Render(p), if DirOf(fs, p).Some? then Some(entries) else None, t.now);
    case _ => PurgeLasts(c, t.req);
  }

  /** The cache after a run of requests. */
  ghost function CacheAfter(c: Cache, conf: Config, fs: FS, turns: seq<Turn>): Cache
    requires TruthfulRun(fs, turns)
    decreases |turns|
  {
    if turns == [] then c
    else CacheAfter(Serve(c, conf, fs, turns[0]).0, conf, After(fs, turns[0]), turns[1..])
  }

  lemma {:induction false} RunLasts(c: Cache, conf: Config, fs: FS, turns: seq<Turn>)
    requires AllLasting(c) && TruthfulRun(fs, turns)
    ensures AllLasting(CacheAfter(c, conf, fs, turns))
    decreases |turns|
  {
    if turns != [] {
      ServeLasts(c, conf, fs, turns[0]);
      hide Serve, After;
      RunLasts(Serve(c, conf, fs, turns[0]).0, conf, After(fs, turns[0]), turns[1..]);
    }
  }

  /** After any run of requests from an empty cache, cleaning up changes no later search. */
  lemma CleaningIsNeverNoticed(conf: Config, fs: FS, turns: seq<Turn>, ctr: nat, start: nat, now: nat, k: string,
                               later: nat)
    requires TruthfulRun(fs, turns) && now <= later
    ensures var c := CacheAfter(Cache(map[], ctr, start), conf, fs, turns);
      var d := Clean(c, conf, now);
      FreshAttr(d, k, later) == FreshAttr(c, k, later) && FreshDir(d, k, later) == FreshDir(c, k, later) &&
      FreshLink(d, k, later) == FreshLink(c, k, later)
  {
    RunLasts(Cache(map[], ctr, start), conf, fs, turns);
    hide CacheAfter, Clean;
    CleaningIsInvisible(CacheAfter(Cache(map[], ctr, start), conf, fs, turns), conf, now, k, later);
  }

  // ---- Purging ----

  /** The paths a change may purge: its own and its parent's, and for a rename also everything whose key starts with the
      characters of the old one, the new path and its parent. */
  predicate Purged(req: Request, q: Path) {
    match req
    case MakeNew(p, _, _) => q == p || (p != [] && q == Parent(p)) || (p == [] && q == [])
    case Unmake(p, _) => q == p || (p != [] && q == Parent(p)) || (p == [] && q == [])
    case Change(p, _) => q == p
    case WriteTo(p, _) => q == p
    case MoveTo(m) =>
      Render(m.from) <= Render(q) || q == m.to || (m.from != [] && q == Parent(m.from)) ||
      (m.to != [] && q == Parent(m.to)) || ((m.from == [] || m.to == []) && q == [])
    case _ => false
  }

  lemma ParentIsPurged(c: Cache, p: Path, q: Path)
    ensures var parent := if p == [] then [] else Parent(p);
      (Render(q) in PurgeParent(c, Render(p)).table <==> Render(q) in c.table && q != parent) &&
      (Render(q) in PurgeParent(c, Render(p)).table ==>
        PurgeParent(c, Render(p)).table[Render(q)] == c.table[Render(q)])
  {
    var parent: Path := if p == [] then [] else Parent(p);
    if p != [] { ParentOfKey(p); } else { RootKey(); }
    if Render(q) == Render(parent) { RenderInjective(q, parent); }
    hide ParentKey, Render;
  }

  lemma RootKey()
    ensures ParentKey(Render([])) == Some(Render([]))
  {
    assert LastSlash("/") == Some(0);
  }

  lemma OnePurged(c: Cache, p: Path, q: Path)
    ensures (Render(q) in Purge(c, Render(p)).table <==> Render(q) in c.table && q != p) &&
      (Render(q) in Purge(c, Render(p)).table ==> Purge(c, Render(p)).table[Render(q)] == c.table[Render(q)])
  {
    if Render(q) == Render(p) { RenderInjective(q, p); }
    hide Render;
  }

  /** A change purges exactly those: every other node stays as it was. */
  lemma PurgesExactly(c: Cache, req: Request, q: Path)
    ensures var d := Invalidated(c, req);
      (Render(q) in d.table <==> Render(q) in c.table && !Purged(req, q)) &&
      (Render(q) in d.table ==> d.table[Render(q)] == c.table[Render(q)])
  {
    hide Purge, PurgeParent, Render;
    match req
    case MakeNew(p, _, _) => DirPurged(c, p, q);
    case Unmake(p, _) => DirPurged(c, p, q);
    case Change(p, _) => OnePurged(c, p, q);
    case WriteTo(p, _) => OnePurged(c, p, q);
    case MoveTo(m) => RenamePurged(c, m.from, m.to, q);
    case _ =>
  }

  lemma DirPurged(c: Cache, p: Path, q: Path)
    ensures var d := InvalidateDir(c, Render(p));
      (Render(q) in d.table <==>
        Render(q) in c.table && q != p && q != (if p == [] then [] else Parent(p))) &&
      (Render(q) in d.table ==> d.table[Render(q)] == c.table[Render(q)])
  {
    hide Purge, PurgeParent, Render;
    OnePurged(c, p, q);
    ParentIsPurged(Purge(c, Render(p)), p, q);
  }

  lemma RenamePurged(c: Cache, from: Path, to: Path, q: Path)
    ensures var d := DoRename(c, Render(from), Render(to));
      (Render(q) in d.table <==>
        Render(q) in c.table && !(Render(from) <= Render(q)) && q != to &&
        q != (if from == [] then [] else Parent(from)) && q != (if to == [] then [] else Parent(to))) &&
      (Render(q) in d.table ==> d.table[Render(q)] == c.table[Render(q)])
  {
    hide Purge, PurgeParent, Render;
    var c1 := DelChildren(c, Render(from));
    var c2 := Purge(c1, Render(from));
    var c3 := Purge(c2, Render(to));
    OnePurged(c1, from, q);
    OnePurged(c2, to, q);
    ParentIsPurged(c3, from, q);
    ParentIsPurged(PurgeParent(c3, Render(from)), to, q);
  }

  // ---- What a listing leaves behind ----

  /** Installing an entry's attributes is seen at its key only. */
  lemma FillSeen(c: Cache, conf: Config, path: string, e: DirEntry, k: string, later: nat)
    requires AllLasting(c) && e.now <= later
    ensures FreshAttr(Fill(c, conf, path, e, c.writeCtr), k, later) ==
      if e.stat.mode / 4096 % 16 != 0 && ChildKey(path, e.name) == k
      then (if later <= e.now + conf.statTimeout then Some(e.stat) else None)
      else FreshAttr(c, k, later)
  {
    var put := Put(c, ChildKey(path, e.name), WithAttr(Get(c, ChildKey(path, e.name)), e.stat, e.now + conf.statTimeout));
    assert AllLasting(put);
    CleaningIsInvisible(put, conf, e.now, k, later);
    hide Clean, ChildKey;
  }

  lemma {:induction false} FillKeepsCounter(c: Cache, conf: Config, path: string, entries: seq<DirEntry>, wrctr: nat)
    ensures FillAll(c, conf, path, entries, wrctr).writeCtr == c.writeCtr
  {
    if entries != [] { FillKeepsCounter(c, conf, path, entries[..|entries| - 1], wrctr); }
  }

  /** What the entries, read in order, say about a key: the last one of known kind decides. */
  function Told(conf: Config, path: string, entries: seq<DirEntry>, k: string, later: nat, before: Option<Stat>)
    : Option<Stat>
  {
    if entries == [] then before
    else
      var e := entries[|entries| - 1];
      if e.stat.mode / 4096 % 16 != 0 && ChildKey(path, e.name) == k
      then (if later <= e.now + conf.statTimeout then Some(e.stat) else None)
      else Told(conf, path, entries[..|entries| - 1], k, later, before)
  }

  lemma {:induction false} FillTells(c: Cache, conf: Config, path: string, entries: seq<DirEntry>, k: string, later: nat)
    requires AllLasting(c) && forall i :: 0 <= i < |entries| ==> entries[i].now <= later
    ensures FreshAttr(FillAll(c, conf, path, entries, c.writeCtr), k, later) ==
      Told(conf, path, entries, k, later, FreshAttr(c, k, later))
  {
    hide Fill, FreshAttr, ChildKey;
    if entries != [] {
      var n := |entries| - 1;
      FillTells(c, conf, path, entries[..n], k, later);
      FillLasts(c, conf, path, entries[..n], c.writeCtr);
      FillKeepsCounter(c, conf, path, entries[..n], c.writeCtr);
      FillSeen(FillAll(c, conf, path, entries[..n], c.writeCtr), conf, path, entries[n], k, later);
    }
  }

  /** A listing answered from behind leaves the attributes of every entry of known kind in the cache, each until it
      expires, and those of every other key as they were. Time zero stands for a part never filled in. */
  lemma ListingTells(c: Cache, conf: Config, path: string, entries: seq<DirEntry>, now: nat, k: string, later: nat)
    requires AllLasting(c) && FreshDir(c, path, now).None? && now <= later && later > 0
    requires forall i :: 0 <= i < |entries| ==> entries[i].now <= later
    ensures FreshAttr(ServeDir(c, conf, path, Some(entries), now).0, k, later) ==
      Told(conf, path, entries, k, later, FreshAttr(c, k, later))
  {
    FillTells(c, conf, path, entries, k, later);
    FillLasts(c, conf, path, entries, c.writeCtr);
    var d := FillAll(c, conf, path, entries, c.writeCtr);
    hide FillAll, Told, Names;
    var put := Put(d, path, WithDir(Get(d, path), Names(entries), now + conf.dirTimeout));
    assert AllLasting(put);
    CleaningIsInvisible(put, conf, now, k, later);
    hide Clean;
  }
}
