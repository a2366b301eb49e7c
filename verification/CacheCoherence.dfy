/** The cache of cache.c in front of a tree file system, one request at a time: it answers every request exactly
    as the file system behind it would. */
module CacheCoherence {
  import opened CacheTable
  import opened CachePaths
  import opened BackingTree
  import opened Wrappers

  datatype Request =
    | GetAttr(path: Path)
    | ReadLink(path: Path, size: nat)
    | ReadDir(path: Path, entries: seq<DirEntry>)
    | MakeNew(path: Path, entry: Entry, parent: Entry)
    | Unmake(path: Path, parent: Entry)
    | Change(path: Path, stat: Stat)
    | WriteTo(path: Path, stat: Stat)
    | MoveTo(move: Move)

  /** A request, the time it is served, and whether the file system behind refuses the change it asks for. */
  datatype Turn = Turn(req: Request, now: nat, refused: bool)

  datatype Response = Attr(Option<Stat>) | Target(Option<string>) | Listing(Option<seq<string>>) | Done(ok: bool)

  // ---- The file system behind, asked directly ----

  function AttrOf(fs: FS, p: Path): Option<Stat> { if p in fs then Some(fs[p].stat) else None }

  function LinkOf(fs: FS, p: Path): Option<string> {
    if p in fs && fs[p].body.Symlink? then Some(fs[p].body.target) else None
  }

  function DirOf(fs: FS, p: Path): Option<seq<string>> {
    if p in fs && fs[p].body.Dir? then Some(fs[p].body.listing) else None
  }

  ghost predicate Succeeds(fs: FS, t: Turn) {
    !t.refused &&
    match t.req
    case MakeNew(p, entry, parent) => CanMake(fs, p, entry, parent)
    case Unmake(p, parent) => CanRemove(fs, p, parent)
    case Change(p, _) => p in fs
    case WriteTo(p, _) => p in fs
    case MoveTo(m) => CanRename(fs, m) || (m.from == m.to && m.from in fs)
    case _ => true
  }

  ghost function After(fs: FS, t: Turn): FS {
    if !Succeeds(fs, t) then fs
    else
      match t.req
      case MakeNew(p, entry, parent) => Make(fs, p, entry, parent)
      case Unmake(p, parent) => Remove(fs, p, parent)
      case Change(p, stat) => Alter(fs, p, stat)
      case WriteTo(p, stat) => Alter(fs, p, stat)
      case MoveTo(m) => if m.from == m.to then fs else Rename(fs, m)
      case _ => fs
  }

  ghost function Bare(fs: FS, t: Turn): Response
    requires t.req.ReadLink? ==> t.req.size > 0
  {
    match t.req
    case GetAttr(p) => Attr(AttrOf(fs, p))
    case ReadLink(p, size) => Target(if LinkOf(fs, p).Some? then Some(Cut(LinkOf(fs, p).value, size)) else None)
    case ReadDir(p, _) => Listing(DirOf(fs, p))
    case _ => Done(Succeeds(fs, t))
  }

  // ---- Through the cache ----

  ghost function Serve(c: Cache, conf: Config, fs: FS, t: Turn): (Cache, Response)
    requires t.req.ReadLink? ==> t.req.size > 0
  {
    match t.req
    case GetAttr(p) => var (c', r) := ServeAttr(c, conf, Render(p), AttrOf(fs, p), t.now); (c', Attr(r))
    case ReadLink(p, size) =>
      var (c', r) := ServeLink(c, conf, Render(p), LinkOf(fs, p), size, t.now); (c', Target(r))
    case ReadDir(p, entries) =>
      var answer := if DirOf(fs, p).Some? then Some(entries) else None;
      var (c', r) := ServeDir(c, conf, Render(p), answer, t.now); (c', Listing(r))
    case _ => (if Succeeds(fs, t) then Invalidated(c, t.req) else c, Done(Succeeds(fs, t)))
  }

  function Invalidated(c: Cache, req: Request): Cache {
    match req
    case MakeNew(p, _, _) => InvalidateDir(c, Render(p))
    case Unmake(p, _) => InvalidateDir(c, Render(p))
    case Change(p, _) => Purge(c, Render(p))
    case WriteTo(p, _) => InvalidateWrite(c, Render(p))
    case MoveTo(m) => DoRename(c, Render(m.from), Render(m.to))
    case _ => c
  }

  // ---- Coherence ----

  /** Whatever part of a node was filled in is what the file system behind has at that path. A link may be cut off, but
      not within its first room characters. */
  predicate NodeOk(node: Node, fs: FS, p: Path, room: nat) {
    (node.statValid > 0 ==> AttrOf(fs, p) == Some(node.stat)) &&
    (node.linkValid > 0 ==>
      LinkOf(fs, p).Some? && node.link <= LinkOf(fs, p).value && |node.link| >= Min(room, |LinkOf(fs, p).value|)) &&
    (node.dir.Some? ==> DirOf(fs, p) == node.dir)
  }

  ghost predicate Coherent(c: Cache, fs: FS, room: nat) {
    forall p: Path :: Render(p) in c.table ==> NodeOk(c.table[Render(p)], fs, p, room)
  }

  /** c' holds some of the nodes of c. */
  ghost predicate Fewer(c': Cache, c: Cache) {
    forall k :: k in c'.table ==> k in c.table && c'.table[k] == c.table[k]
  }

  /** Dropping nodes keeps coherence with a file system that agrees at the paths still cached. */
  lemma Frame(c: Cache, c': Cache, fs: FS, fs': FS, room: nat)
    requires Coherent(c, fs, room) && Fewer(c', c)
    requires forall p: Path :: Render(p) in c'.table && p in fs ==> p in fs' && fs'[p] == fs[p]
    ensures Coherent(c', fs', room)
  {
  }

  lemma PutKeeps(c: Cache, fs: FS, conf: Config, p: Path, node: Node, now: nat, room: nat)
    requires Coherent(c, fs, room) && NodeOk(node, fs, p, room)
    ensures Coherent(Clean(Put(c, Render(p), node), conf, now), fs, room)
  {
    forall q: Path | Render(q) in Put(c, Render(p), node).table
      ensures NodeOk(Put(c, Render(p), node).table[Render(q)], fs, q, room)
    {
      if Render(q) == Render(p) { RenderInjective(q, p); }
    }
    Frame(Put(c, Render(p), node), Clean(Put(c, Render(p), node), conf, now), fs, fs, room);
  }

  lemma GetOk(c: Cache, fs: FS, p: Path, room: nat)
    requires Coherent(c, fs, room)
    ensures NodeOk(Get(c, Render(p)), fs, p, room)
  {
  }

  lemma AddAttrKeeps(c: Cache, fs: FS, conf: Config, p: Path, stat: Stat, wrctr: nat, now: nat, room: nat)
    requires Coherent(c, fs, room) && AttrOf(fs, p) == Some(stat)
    ensures Coherent(AddAttr(c, conf, Render(p), stat, wrctr, now), fs, room)
  {
    hide Clean, Coherent;
    GetOk(c, fs, p, room);
    PutKeeps(c, fs, conf, p, WithAttr(Get(c, Render(p)), stat, now + conf.statTimeout), now, room);
  }

  /** Attributes stored under a key that is no path's key disturb nothing. */
  lemma AddAliasKeeps(c: Cache, fs: FS, conf: Config, key: string, stat: Stat, wrctr: nat, now: nat, room: nat)
    requires Coherent(c, fs, room) && forall q: Path :: Render(q) != key
    ensures Coherent(AddAttr(c, conf, key, stat, wrctr, now), fs, room)
  {
    if wrctr == c.writeCtr {
      var put := Put(c, key, WithAttr(Get(c, key), stat, now + conf.statTimeout));
      assert Coherent(put, fs, room);
      Frame(put, Clean(put, conf, now), fs, fs, room);
    }
  }

  // ---- Reading keeps coherence and answers as the file system behind would ----

  /** The file system behind reports a directory entry truthfully: its attributes, if it gives any, are those of
      the entry. What it says of the aliases does not matter. */
  predicate TrueEntry(fs: FS, p: Path, e: DirEntry) {
    KnownKind(e.stat) ==>
      IsAlias(e.name) || (IsName(e.name) && AttrOf(fs, p + [e.name]) == Some(e.stat))
  }

  /** What a request must satisfy to be one the file system behind and the kernel can make: time is positive, a
      buffer has room for its terminator, and a listing is reported truthfully. */
  predicate Truthful(fs: FS, t: Turn) {
    t.now > 0 &&
    match t.req
    case ReadLink(p, size) => size > 0
    case ReadDir(p, entries) =>
      DirOf(fs, p).Some? ==>
        Names(entries) == DirOf(fs, p).value && forall i :: 0 <= i < |entries| ==> TrueEntry(fs, p, entries[i])
    case _ => true
  }

  /** A link is read into a buffer with the room, or one it fits. */
  predicate Roomy(fs: FS, t: Turn, room: nat) {
    t.req.ReadLink? && LinkOf(fs, t.req.path).Some? ==>
      t.req.size > room || |LinkOf(fs, t.req.path).value| < t.req.size
  }

  /** A link is answered from a node that holds less of it than the buffer could take. */
  predicate ShortHit(c: Cache, fs: FS, t: Turn) {
    t.req.ReadLink? && t.req.size > 0 && LinkOf(fs, t.req.path).Some? &&
    FreshLink(c, Render(t.req.path), t.now).Some? &&
    |FreshLink(c, Render(t.req.path), t.now).value| < Min(|LinkOf(fs, t.req.path).value|, t.req.size - 1)
  }

  lemma FillKeeps(c: Cache, fs: FS, conf: Config, p: Path, e: DirEntry, wrctr: nat, room: nat)
    requires Coherent(c, fs, room) && TrueEntry(fs, p, e)
    ensures Coherent(Fill(c, conf, Render(p), e, wrctr), fs, room)
  {
    hide Coherent, AddAttr, Render, ChildKey;
    if KnownKind(e.stat) {
      if IsAlias(e.name) {
        var key := ChildKey(Render(p), e.name);
        forall q: Path
          ensures Render(q) != key
        {
          AliasKey(p, e.name, q);
        }
        AddAliasKeeps(c, fs, conf, key, e.stat, wrctr, e.now, room);
      } else {
        ChildKeyOf(p, e.name);
        AddAttrKeeps(c, fs, conf, p + [e.name], e.stat, wrctr, e.now, room);
      }
    }
  }

  lemma {:induction false} FillAllKeeps(c: Cache, fs: FS, conf: Config, p: Path, entries: seq<DirEntry>, wrctr: nat, room: nat)
    requires Coherent(c, fs, room) && forall i :: 0 <= i < |entries| ==> TrueEntry(fs, p, entries[i])
    ensures Coherent(FillAll(c, conf, Render(p), entries, wrctr), fs, room)
  {
    hide Coherent, Fill, TrueEntry;
    if entries != [] {
      var n := |entries| - 1;
      FillAllKeeps(c, fs, conf, p, entries[..n], wrctr, room);
      FillKeeps(FillAll(c, conf, Render(p), entries[..n], wrctr), fs, conf, p, entries[n], wrctr, room);
    }
  }

  lemma AddDirKeeps(c: Cache, fs: FS, conf: Config, p: Path, names: seq<string>, now: nat, room: nat)
    requires Coherent(c, fs, room) && DirOf(fs, p) == Some(names)
    ensures Coherent(AddDir(c, conf, Render(p), names, now), fs, room)
  {
    hide Clean, Coherent;
    GetOk(c, fs, p, room);
    PutKeeps(c, fs, conf, p, WithDir(Get(c, Render(p)), names, now + conf.dirTimeout), now, room);
  }

  lemma AddLinkKeeps(c: Cache, fs: FS, conf: Config, p: Path, target: string, size: nat, now: nat, room: nat)
    requires Coherent(c, fs, room) && LinkOf(fs, p) == Some(target) && size > 0 && (size > room || |target| < size)
    ensures Coherent(AddLink(c, conf, Render(p), Cut(target, size), size, now), fs, room)
  {
    hide Clean, Coherent;
    GetOk(c, fs, p, room);
    assert Cut(Cut(target, size), size) == Cut(target, size);
    PutKeeps(c, fs, conf, p, WithLink(Get(c, Render(p)), Cut(target, size), now + conf.linkTimeout), now, room);
  }

  /** A prefix of the target answers as the target does exactly if it is not short. */
  lemma CutSame(link: string, target: string, size: nat)
    requires link <= target && size > 0
    ensures Cut(link, size) == Cut(target, size) <==> |link| >= Min(|target|, size - 1)
  {
    if |link| < Min(|target|, size - 1) {
      assert |Cut(link, size)| < |Cut(target, size)|;
    }
  }

  lemma LinkIsTransparentIff(c: Cache, conf: Config, fs: FS, t: Turn, room: nat)
    requires Coherent(c, fs, room) && Truthful(fs, t) && Roomy(fs, t, room) && t.req.ReadLink?
    ensures Serve(c, conf, fs, t).1 == Bare(fs, t) <==> !ShortHit(c, fs, t)
    ensures Coherent(Serve(c, conf, fs, t).0, fs, room)
  {
    hide AddLink;
    var p, size := t.req.path, t.req.size;
    if LinkOf(fs, p).Some? {
      var target := LinkOf(fs, p).value;
      AddLinkKeeps(c, fs, conf, p, target, size, t.now, room);
      if FreshLink(c, Render(p), t.now).Some? { CutSame(FreshLink(c, Render(p), t.now).value, target, size); }
      hide Cut;
    }
  }

  lemma ReadIsTransparent(c: Cache, conf: Config, fs: FS, t: Turn, room: nat)
    requires Coherent(c, fs, room) && Truthful(fs, t) && (t.req.GetAttr? || t.req.ReadDir?)
    ensures Serve(c, conf, fs, t).1 == Bare(fs, t) && Coherent(Serve(c, conf, fs, t).0, fs, room)
  {
    hide AddAttr, AddDir, FillAll;
    var key := Render(t.req.path);
    match t.req
    case GetAttr(p) =>
      if p in fs { AddAttrKeeps(c, fs, conf, p, fs[p].stat, c.writeCtr, t.now, room); }
    case ReadDir(p, entries) =>
      if DirOf(fs, p).Some? {
        FillAllKeeps(c, fs, conf, p, entries, c.writeCtr, room);
        AddDirKeeps(FillAll(c, conf, key, entries, c.writeCtr), fs, conf, p, Names(entries), t.now, room);
      }
  }

  // ---- Changing: each operation drops every node its change could make wrong ----

  lemma PurgedParent(c: Cache, p: Path)
    requires p != []
    ensures PurgeParent(c, Render(p)) == Purge(c, Render(Parent(p)))
  {
    ParentOfKey(p);
  }

  lemma MakeInvalidates(c: Cache, fs: FS, p: Path, entry: Entry, parent: Entry, room: nat)
    requires Coherent(c, fs, room) && CanMake(fs, p, entry, parent)
    ensures Coherent(InvalidateDir(c, Render(p)), Make(fs, p, entry, parent), room)
  {
    hide Render, PurgeParent, Plus;
    PurgedParent(Purge(c, Render(p)), p);
    Frame(c, InvalidateDir(c, Render(p)), fs, Make(fs, p, entry, parent), room);
  }

  lemma RemoveInvalidates(c: Cache, fs: FS, p: Path, parent: Entry, room: nat)
    requires Coherent(c, fs, room) && CanRemove(fs, p, parent)
    ensures Coherent(InvalidateDir(c, Render(p)), Remove(fs, p, parent), room)
  {
    hide Render, PurgeParent, Minus, Childless;
    PurgedParent(Purge(c, Render(p)), p);
    Frame(c, InvalidateDir(c, Render(p)), fs, Remove(fs, p, parent), room);
  }

  lemma AlterInvalidates(c: Cache, fs: FS, p: Path, stat: Stat, room: nat)
    requires Coherent(c, fs, room) && p in fs
    ensures Coherent(Purge(c, Render(p)), Alter(fs, p, stat), room)
    ensures Coherent(InvalidateWrite(c, Render(p)), Alter(fs, p, stat), room)
  {
    hide Render;
    Frame(c, Purge(c, Render(p)), fs, Alter(fs, p, stat), room);
    Frame(c, InvalidateWrite(c, Render(p)), fs, Alter(fs, p, stat), room);
  }

  /** What a rename leaves cached. */
  lemma LeftAfterRename(c: Cache, from: Path, to: Path)
    requires from != [] && to != []
    ensures var c' := DoRename(c, Render(from), Render(to));
      Fewer(c', c) &&
      forall k :: k in c'.table ==>
        !(Render(from) <= k) && k != Render(to) && k != Render(Parent(from)) && k != Render(Parent(to))
  {
    hide Render, PurgeParent, Parent;
    var c1 := Purge(Purge(DelChildren(c, Render(from)), Render(from)), Render(to));
    PurgedParent(c1, from);
    PurgedParent(PurgeParent(c1, Render(from)), to);
  }

  /** A path still cached and still there after a rename has the entry it had. */
  lemma RenameSpares(fs: FS, m: Move, q: Path)
    requires Tree(fs) && CanRename(fs, m) && q in fs
    requires !(Render(m.from) <= Render(q)) && q != m.to && q != Parent(m.from) && q != Parent(m.to)
    ensures q in Rename(fs, m) && Rename(fs, m)[q] == fs[q]
  {
    if m.from <= q { BelowIsPrefix(m.from, q); }
    if m.to < q { NothingBelow(fs, m.to, q); }
    hide Rename, Render, Tree, Parent, CanRename;
    assert !(m.to <= q);
    OriginOutside(m, q);
    Renames(fs, m);
    RenameAt(fs, m, q);
  }

  lemma Renames(fs: FS, m: Move)
    requires CanRename(fs, m)
    ensures m.from != [] && m.to != [] && m.from in fs
  {
  }

  lemma RenameInvalidates(c: Cache, fs: FS, m: Move, room: nat)
    requires Coherent(c, fs, room) && Tree(fs) && CanRename(fs, m)
    ensures Coherent(DoRename(c, Render(m.from), Render(m.to)), Rename(fs, m), room)
  {
    hide Render, Rename, Tree, Parent, CanRename, DoRename;
    Renames(fs, m);
    LeftAfterRename(c, m.from, m.to);
    var c' := DoRename(c, Render(m.from), Render(m.to));
    forall q: Path | Render(q) in c'.table && q in fs
      ensures q in Rename(fs, m) && Rename(fs, m)[q] == fs[q]
    {
      RenameSpares(fs, m, q);
    }
    Frame(c, c', fs, Rename(fs, m), room);
  }

  /** Renaming a file to itself changes nothing behind; the cache only drops nodes. */
  lemma SelfRenameInvalidates(c: Cache, fs: FS, p: Path, room: nat)
    requires Coherent(c, fs, room)
    ensures Coherent(DoRename(c, Render(p), Render(p)), fs, room)
  {
    hide Render;
    Frame(c, DoRename(c, Render(p), Render(p)), fs, fs, room);
  }

  lemma ChangeIsTransparent(c: Cache, conf: Config, fs: FS, t: Turn, room: nat)
    requires Tree(fs) && Coherent(c, fs, room) && !t.req.GetAttr? && !t.req.ReadLink? && !t.req.ReadDir?
    ensures Serve(c, conf, fs, t).1 == Bare(fs, t)
    ensures Tree(After(fs, t)) && Coherent(Serve(c, conf, fs, t).0, After(fs, t), room)
  {
    hide Tree, Coherent, Make, Remove, Alter, Rename, CanMake, CanRemove, CanRename, Render,
      InvalidateDir, InvalidateWrite, Purge, DoRename;
    if Succeeds(fs, t) {
      match t.req
      case MakeNew(p, entry, parent) =>
        MakeKeepsTree(fs, p, entry, parent);
        MakeInvalidates(c, fs, p, entry, parent, room);
      case Unmake(p, parent) =>
        RemoveKeepsTree(fs, p, parent);
        RemoveInvalidates(c, fs, p, parent, room);
      case Change(p, stat) =>
        AlterKeepsTree(fs, p, stat);
        AlterInvalidates(c, fs, p, stat, room);
      case WriteTo(p, stat) =>
        AlterKeepsTree(fs, p, stat);
        AlterInvalidates(c, fs, p, stat, room);
      case MoveTo(m) =>
        if m.from == m.to {
          SelfRenameInvalidates(c, fs, m.from, room);
        } else {
          RenameKeepsTree(fs, m);
          RenameInvalidates(c, fs, m, room);
        }
    }
  }

  // ---- Every run ----

  ghost predicate TruthfulRun(fs: FS, turns: seq<Turn>)
    decreases |turns|
  {
    turns == [] || (Truthful(fs, turns[0]) && TruthfulRun(After(fs, turns[0]), turns[1..]))
  }

  /** The answers of the file system behind on its own. */
  ghost function BareRun(fs: FS, turns: seq<Turn>): seq<Response>
    requires TruthfulRun(fs, turns)
    decreases |turns|
  {
    if turns == [] then [] else [Bare(fs, turns[0])] + BareRun(After(fs, turns[0]), turns[1..])
  }

  /** The answers through the cache. */
  ghost function ServeRun(c: Cache, conf: Config, fs: FS, turns: seq<Turn>): seq<Response>
    requires TruthfulRun(fs, turns)
    decreases |turns|
  {
    if turns == [] then []
    else
      var (c', r) := Serve(c, conf, fs, turns[0]);
      [r] + ServeRun(c', conf, After(fs, turns[0]), turns[1..])
  }

  lemma TurnIsTransparent(c: Cache, conf: Config, fs: FS, t: Turn, room: nat)
    requires Tree(fs) && Coherent(c, fs, room) && Truthful(fs, t) && Roomy(fs, t, room)
    ensures Serve(c, conf, fs, t).1 == Bare(fs, t) <==> !ShortHit(c, fs, t)
    ensures Tree(After(fs, t)) && Coherent(Serve(c, conf, fs, t).0, After(fs, t), room)
  {
    if t.req.ReadLink? {
      LinkIsTransparentIff(c, conf, fs, t, room);
      hide Tree, Coherent, Serve, Bare, ShortHit;
    } else {
      hide Tree, Coherent, Serve, Bare;
      if t.req.GetAttr? || t.req.ReadDir? {
        ReadIsTransparent(c, conf, fs, t, room);
      } else {
        ChangeIsTransparent(c, conf, fs, t, room);
      }
    }
  }

  /** Some turn of the run is answered from a link that was cut too short. */
  ghost predicate ShortRun(c: Cache, conf: Config, fs: FS, turns: seq<Turn>)
    requires TruthfulRun(fs, turns)
    decreases |turns|
  {
    turns != [] &&
    (ShortHit(c, fs, turns[0]) || ShortRun(Serve(c, conf, fs, turns[0]).0, conf, After(fs, turns[0]), turns[1..]))
  }

  lemma Unlimited(fs: FS, t: Turn)
    requires Truthful(fs, t)
    ensures Roomy(fs, t, 0)
  {
  }

  lemma {:induction false} RunIsTransparentIff(c: Cache, conf: Config, fs: FS, turns: seq<Turn>)
    requires Tree(fs) && Coherent(c, fs, 0) && TruthfulRun(fs, turns)
    ensures ServeRun(c, conf, fs, turns) == BareRun(fs, turns) <==> !ShortRun(c, conf, fs, turns)
    decreases |turns|
  {
    hide Tree, Coherent, Serve, Bare, After, ShortHit, Roomy;
    if turns != [] {
      var t := turns[0];
      Unlimited(fs, t);
      TurnIsTransparent(c, conf, fs, t, 0);
      var c' := Serve(c, conf, fs, t).0;
      RunIsTransparentIff(c', conf, After(fs, t), turns[1..]);
      HeadAndTail(Serve(c, conf, fs, t).1, ServeRun(c', conf, After(fs, t), turns[1..]), Bare(fs, t),
                  BareRun(After(fs, t), turns[1..]));
    }
  }

  lemma HeadAndTail(a: Response, s: seq<Response>, b: Response, t: seq<Response>)
    ensures [a] + s == [b] + t <==> a == b && s == t
  {
    if [a] + s == [b] + t {
      assert ([a] + s)[0] == a && ([b] + t)[0] == b;
      assert ([a] + s)[1..] == s && ([b] + t)[1..] == t;
    }
  }

  /** From an empty cache, any run of requests over any tree gets, answer for answer, what the file system behind
      would have given without a cache, whatever the clock, the timeouts and the evictions, if and only if no link is
      answered from a node that was cut shorter than the buffer asks for. */
  lemma CacheIsTransparentIff(conf: Config, ctr: nat, cleaned: nat, fs: FS, turns: seq<Turn>)
    requires Tree(fs) && TruthfulRun(fs, turns)
    ensures var c := Cache(map[], ctr, cleaned);
      ServeRun(c, conf, fs, turns) == BareRun(fs, turns) <==> !ShortRun(c, conf, fs, turns)
  {
    RunIsTransparentIff(Cache(map[], ctr, cleaned), conf, fs, turns);
  }

  /** Every link of the run is read into a buffer for exactly room characters, or fits both its buffer and the room. */
  ghost predicate OneSize(fs: FS, turns: seq<Turn>, room: nat)
    decreases |turns|
  {
    turns == [] ||
    ((turns[0].req.ReadLink? && LinkOf(fs, turns[0].req.path).Some? ==>
        var length, size := |LinkOf(fs, turns[0].req.path).value|, turns[0].req.size;
        size == room + 1 || (length < size && length <= room)) &&
     OneSize(After(fs, turns[0]), turns[1..], room))
  }

  lemma {:induction false} OneSizeNeverShort(c: Cache, conf: Config, fs: FS, turns: seq<Turn>, room: nat)
    requires Tree(fs) && Coherent(c, fs, room) && TruthfulRun(fs, turns) && OneSize(fs, turns, room)
    ensures !ShortRun(c, conf, fs, turns)
    decreases |turns|
  {
    hide Tree, Serve, Bare, After;
    if turns != [] {
      var t := turns[0];
      assert Roomy(fs, t, room);
      assert !ShortHit(c, fs, t);
      hide ShortHit, Coherent, Roomy;
      TurnIsTransparent(c, conf, fs, t, room);
      OneSizeNeverShort(Serve(c, conf, fs, t).0, conf, After(fs, t), turns[1..], room);
    }
  }

  /** In particular the cache is transparent when all links are read with one buffer size, as the kernel does, or fit
      their buffers. */
  lemma CacheIsTransparent(conf: Config, ctr: nat, cleaned: nat, fs: FS, turns: seq<Turn>, room: nat)
    requires Tree(fs) && TruthfulRun(fs, turns) && OneSize(fs, turns, room)
    ensures ServeRun(Cache(map[], ctr, cleaned), conf, fs, turns) == BareRun(fs, turns)
  {
    var c := Cache(map[], ctr, cleaned);
    assert Coherent(c, fs, room);
    hide Coherent, ServeRun, BareRun, ShortRun, OneSize, TruthfulRun;
    OneSizeNeverShort(c, conf, fs, turns, room);
    CacheIsTransparentIff(conf, ctr, cleaned, fs, turns);
  }

  // ---- What is remembered, and for how long ----

  /** Attributes fetched once are answered from the cache, whatever the file system behind says by then, until they
      expire, and not after. */
  lemma RemembersAttr(c: Cache, conf: Config, path: string, stat: Stat, other: Option<Stat>, now: nat, later: nat)
    requires FreshAttr(c, path, now).None?
    ensures var c' := ServeAttr(c, conf, path, Some(stat), now).0;
      ServeAttr(c', conf, path, other, later).1 == if later <= now + conf.statTimeout then Some(stat) else other
  {
    hide AddAttr;
    Installed(c, conf, path, stat, now);
  }

  lemma Installed(c: Cache, conf: Config, path: string, stat: Stat, now: nat)
    ensures var d := AddAttr(c, conf, path, stat, c.writeCtr, now);
      path in d.table && d.table[path].stat == stat && d.table[path].statValid == now + conf.statTimeout
  {
  }

  /** The same for listings. */
  lemma RemembersDir(c: Cache, conf: Config, path: string, entries: seq<DirEntry>, other: Option<seq<DirEntry>>,
                     now: nat, later: nat)
    requires FreshDir(c, path, now).None?
    ensures var c' := ServeDir(c, conf, path, Some(entries), now).0;
      ServeDir(c', conf, path, other, later).1 ==
        if later <= now + conf.dirTimeout then Some(Names(entries))
        else if other.Some? then Some(Names(other.value)) else None
  {
    hide AddDir, FillAll, Names;
    InstalledDir(FillAll(c, conf, path, entries, c.writeCtr), conf, path, Names(entries), now);
  }

  lemma InstalledDir(c: Cache, conf: Config, path: string, names: seq<string>, now: nat)
    ensures var d := AddDir(c, conf, path, names, now);
      path in d.table && d.table[path].dir == Some(names) && d.table[path].dirValid == now + conf.dirTimeout
  {
  }

  /** And for links, whatever the two buffer sizes: until the link expires the answer is what the first buffer held of
      it, cut to the second; after that it is what the file system behind says, cut to the second. */
  lemma RemembersLink(c: Cache, conf: Config, path: string, target: string, other: Option<string>, first: nat,
                      second: nat, now: nat, later: nat)
    requires first > 0 && second > 0 && FreshLink(c, path, now).None?
    ensures var c' := ServeLink(c, conf, path, Some(target), first, now).0;
      ServeLink(c', conf, path, other, second, later).1 ==
        if later <= now + conf.linkTimeout then Some(Cut(Cut(target, first), second))
        else if other.Some? then Some(Cut(other.value, second)) else None
  {
    hide AddLink;
    InstalledLink(c, conf, path, Cut(target, first), first, now);
    assert Cut(Cut(target, first), first) == Cut(target, first);
  }

  lemma InstalledLink(c: Cache, conf: Config, path: string, link: string, size: nat, now: nat)
    requires size > 0
    ensures var d := AddLink(c, conf, path, link, size, now);
      path in d.table && d.table[path].link == Cut(link, size) && d.table[path].linkValid == now + conf.linkTimeout
  {
  }

  // ---- Links read into a short buffer ----

  /** A link first read with one buffer size and answered from the cache for another: the cached answer is the
      file system's exactly if the new buffer is no larger, or the old one held the whole target. */
  lemma SecondReadIff(c: Cache, conf: Config, path: string, target: string, first: nat, second: nat, now: nat,
                      later: nat)
    requires first > 0 && second > 0 && FreshLink(c, path, now).None? && later <= now + conf.linkTimeout
    ensures var c' := ServeLink(c, conf, path, Some(target), first, now).0;
      ServeLink(c', conf, path, Some(target), second, later).1 == Some(Cut(target, second)) <==>
        second <= first || |target| < first
  {
    var c' := ServeLink(c, conf, path, Some(target), first, now).0;
    assert Cut(Cut(target, first), first) == Cut(target, first);
    assert FreshLink(c', path, later) == Some(Cut(target, first));
    if second <= first || |target| < first {
      assert Cut(Cut(target, first), second) == Cut(target, second);
    } else {
      assert |Cut(Cut(target, first), second)| == first - 1 < |Cut(target, second)|;
    }
  }
}
