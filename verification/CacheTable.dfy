/** The path-keyed table of cache.c: its nodes, its write counter, and the operations that fill, search and
    purge it under the mutex. */
module CacheTable {
  import opened Wrappers

  /** File attributes; zero is what a new node holds. */
  datatype Stat = Stat(mode: nat, data: nat)

  const ZERO_STAT := Stat(0, 0)

  /** A node. A time of zero means the part was never filled in. */
  datatype Node = Node(
    stat: Stat, statValid: nat, dir: Option<seq<string>>, dirValid: nat, link: string, linkValid: nat, valid: nat)

  const EMPTY_NODE := Node(ZERO_STAT, 0, None, 0, "", 0, 0)

  datatype Config = Config(
    statTimeout: nat, dirTimeout: nat, linkTimeout: nat, maxSize: nat, cleanInterval: nat, minCleanInterval: nat)

  datatype Cache = Cache(table: map<string, Node>, writeCtr: nat, lastCleaned: nat)

  const CTR_LIMIT: nat := 0x1_0000_0000_0000_0000

  function Max(a: nat, b: nat): nat { if a >= b then a else b }

  // ---- Purging ----

  /** The index of the last '/', as strrchr finds it. */
  function LastSlash(path: string): (r: Option<nat>)
    ensures r.None? <==> '/' !in path
    ensures r.Some? ==> r.value < |path| && path[r.value] == '/' && '/' !in path[r.value + 1..]
  {
    if path == [] then None
    else if path[|path| - 1] == '/' then Some(|path| - 1)
    else
      var n := |path| - 1;
      var r := LastSlash(path[..n]);
      assert path == path[..n] + [path[n]];
      if r.Some? then assert path[r.value + 1..] == path[..n][r.value + 1..] + [path[n]]; r else r
  }

  /** One step of the search from the end. */
  lemma LastSlashBack(path: string, i: nat)
    requires 0 < i <= |path|
    ensures LastSlash(path[..i]) == if path[i - 1] == '/' then Some(i - 1) else LastSlash(path[..i - 1])
  {
    assert path[..i][..i - 1] == path[..i - 1];
  }

  /** The key cache_purge_parent removes, if any. */
  function ParentKey(path: string): Option<string> {
    match LastSlash(path)
    case None => None
    case Some(i) => Some(if i == 0 then "/" else path[..i])
  }

  function Purge(c: Cache, path: string): Cache { c.(table := c.table - {path}) }

  function PurgeParent(c: Cache, path: string): Cache {
    match ParentKey(path)
    case None => c
    case Some(parent) => Purge(c, parent)
  }

  function InvalidateDir(c: Cache, path: string): Cache { PurgeParent(Purge(c, path), path) }

  function InvalidateWrite(c: Cache, path: string): Cache {
    Purge(c, path).(writeCtr := (c.writeCtr + 1) % CTR_LIMIT)
  }

  /** Drops every entry whose key starts with the path's characters. */
  function DelChildren(c: Cache, path: string): Cache {
    c.(table := map k | k in c.table && !(path <= k) :: c.table[k])
  }

  function DoRename(c: Cache, from: string, to: string): Cache {
    PurgeParent(PurgeParent(Purge(Purge(DelChildren(c, from), from), to), from), to)
  }

  // ---- Filling ----

  function Get(c: Cache, path: string): Node { if path in c.table then c.table[path] else EMPTY_NODE }

  /** Drops expired nodes, when the table is too big or it is time. */
  function Clean(c: Cache, conf: Config, now: nat): Cache {
    if now > c.lastCleaned + conf.minCleanInterval &&
       (|c.table| > conf.maxSize || now > c.lastCleaned + conf.cleanInterval)
    then Cache(map k | k in c.table && now <= c.table[k].valid :: c.table[k], c.writeCtr, now)
    else c
  }

  function WithAttr(node: Node, stat: Stat, t: nat): Node {
    node.(stat := stat, statValid := t, valid := Max(t, node.valid))
  }

  function WithDir(node: Node, dir: seq<string>, t: nat): Node {
    node.(dir := Some(dir), dirValid := t, valid := Max(t, node.valid))
  }

  function WithLink(node: Node, link: string, t: nat): Node {
    node.(link := link, linkValid := t, valid := Max(t, node.valid))
  }

  function Put(c: Cache, path: string, node: Node): Cache { c.(table := c.table[path := node]) }

  /** Installs attributes only if no write was invalidated since the counter was read. */
  function AddAttr(c: Cache, conf: Config, path: string, stat: Stat, wrctr: nat, now: nat): Cache {
    if wrctr != c.writeCtr then c
    else Clean(Put(c, path, WithAttr(Get(c, path), stat, now + conf.statTimeout)), conf, now)
  }

  function AddDir(c: Cache, conf: Config, path: string, dir: seq<string>, now: nat): Cache {
    Clean(Put(c, path, WithDir(Get(c, path), dir, now + conf.dirTimeout)), conf, now)
  }

  function Min(a: nat, b: nat): nat { if a <= b then a else b }

  /** What a buffer of size characters, the last one reserved for the terminator, holds of a string. */
  function Cut(text: string, size: nat): string
    requires size > 0
  {
    text[..Min(|text|, size - 1)]
  }

  function AddLink(c: Cache, conf: Config, path: string, link: string, size: nat, now: nat): Cache
    requires size > 0
  {
    Clean(Put(c, path, WithLink(Get(c, path), Cut(link, size), now + conf.linkTimeout)), conf, now)
  }

  // ---- Searching ----

  function FreshAttr(c: Cache, path: string, now: nat): Option<Stat> {
    if path in c.table && c.table[path].statValid >= now then Some(c.table[path].stat) else None
  }

  function FreshDir(c: Cache, path: string, now: nat): Option<seq<string>> {
    if path in c.table && c.table[path].dirValid >= now then c.table[path].dir else None
  }

  function FreshLink(c: Cache, path: string, now: nat): Option<string> {
    if path in c.table && c.table[path].linkValid >= now then Some(c.table[path].link) else None
  }

  // ---- The read operations in front of the file system behind, whose answer is a parameter ----

  function ServeAttr(c: Cache, conf: Config, path: string, answer: Option<Stat>, now: nat): (Cache, Option<Stat>) {
    match FreshAttr(c, path, now)
    case Some(stat) => (c, Some(stat))
    case None =>
      (if answer.Some? then AddAttr(c, conf, path, answer.value, c.writeCtr, now) else c, answer)
  }

  function ServeLink(c: Cache, conf: Config, path: string, answer: Option<string>, size: nat, now: nat)
    : (Cache, Option<string>)
    requires size > 0
  {
    match FreshLink(c, path, now)
    case Some(link) => (c, Some(Cut(link, size)))
    case None =>
      if answer.None? then (c, None)
      else (AddLink(c, conf, path, Cut(answer.value, size), size, now), Some(Cut(answer.value, size)))
  }

  /** A directory entry as the file system behind reports it, at the time it is reported. */
  datatype DirEntry = DirEntry(name: string, stat: Stat, now: nat)

  /** Whether the mode says what kind of file it is (the bits of S_IFMT). */
  predicate KnownKind(stat: Stat) { stat.mode / 4096 % 16 != 0 }

  /** The key of a directory's entry. */
  function ChildKey(path: string, name: string): string {
    (if |path| <= 1 then "" else path) + "/" + name
  }

  function Fill(c: Cache, conf: Config, path: string, e: DirEntry, wrctr: nat): Cache {
    if KnownKind(e.stat) then AddAttr(c, conf, ChildKey(path, e.name), e.stat, wrctr, e.now) else c
  }

  function FillAll(c: Cache, conf: Config, path: string, entries: seq<DirEntry>, wrctr: nat): Cache {
    if entries == [] then c
    else
      var n := |entries| - 1;
      Fill(FillAll(c, conf, path, entries[..n], wrctr), conf, path, entries[n], wrctr)
  }

  function Names(entries: seq<DirEntry>): (r: seq<string>)
    ensures |r| == |entries| && forall i :: 0 <= i < |r| ==> r[i] == entries[i].name
  {
    if entries == [] then [] else Names(entries[..|entries| - 1]) + [entries[|entries| - 1].name]
  }

  function ServeDir(c: Cache, conf: Config, path: string, answer: Option<seq<DirEntry>>, now: nat)
    : (Cache, Option<seq<string>>)
  {
    match FreshDir(c, path, now)
    case Some(names) => (c, Some(names))
    case None =>
      if answer.None? then (c, None)
      else
        var c' := FillAll(c, conf, path, answer.value, c.writeCtr);
        (AddDir(c', conf, path, Names(answer.value), now), Some(Names(answer.value)))
  }

  lemma Overwrite(table: map<string, Node>, path: string, a: Node, b: Node)
    ensures table[path := a][path := b] == table[path := b]
  {
  }

  // ---- The operations as the source runs them, on the one shared table ----

  class Store {
    var table: map<string, Node>
    var writeCtr: nat
    var lastCleaned: nat
    const conf: Config

    function View(): Cache
      reads this
    {
      Cache(table, writeCtr, lastCleaned)
    }

    method FindLastSlash(path: string) returns (r: Option<nat>)
      ensures r == LastSlash(path)
    {
      hide LastSlash;
      var i := |path|;
      assert path[..i] == path;
      while i > 0
        invariant 0 <= i <= |path| && LastSlash(path) == LastSlash(path[..i])
      {
        LastSlashBack(path, i);
        if path[i - 1] == '/' { return Some(i - 1); }
        i := i - 1;
      }
      r := None;
    }

    method PurgeParentOf(path: string)
      modifies this`table
      ensures View() == PurgeParent(old(View()), path)
    {
      var s := FindLastSlash(path);
      if s.Some? {
        if s.value == 0 {
          table := table - {"/"};
        } else {
          table := table - {path[..s.value]};
        }
      }
    }

    method InvalidatePath(path: string)
      modifies this`table
      ensures View() == Purge(old(View()), path)
    {
      table := table - {path};
    }

    method InvalidateWritten(path: string)
      modifies this`table, this`writeCtr
      ensures View() == InvalidateWrite(old(View()), path)
    {
      table := table - {path};
      writeCtr := (writeCtr + 1) % CTR_LIMIT;
    }

    method InvalidateDirectory(path: string)
      modifies this`table
      ensures View() == InvalidateDir(old(View()), path)
    {
      table := table - {path};
      PurgeParentOf(path);
    }

    method Renamed(from: string, to: string)
      modifies this`table
      ensures View() == DoRename(old(View()), from, to)
    {
      table := map k | k in table && !(from <= k) :: table[k];
      table := table - {from};
      table := table - {to};
      PurgeParentOf(from);
      PurgeParentOf(to);
    }

    method CleanUp(now: nat)
      modifies this`table, this`lastCleaned
      ensures View() == Clean(old(View()), conf, now)
    {
      if now > lastCleaned + conf.minCleanInterval &&
         (|table| > conf.maxSize || now > lastCleaned + conf.cleanInterval) {
        table := map k | k in table && now <= table[k].valid :: table[k];
        lastCleaned := now;
      }
    }

    method GetNode(path: string) returns (node: Node)
      modifies this`table
      ensures node == Get(old(View()), path) && table == old(table)[path := node]
    {
      if path in table {
        node := table[path];
      } else {
        node := EMPTY_NODE;
        table := table[path := node];
      }
    }

    method CacheAttr(path: string, stat: Stat, wrctr: nat, now: nat)
      modifies this`table, this`lastCleaned
      ensures View() == AddAttr(old(View()), conf, path, stat, wrctr, now)
    {
      hide Clean;
      if wrctr == writeCtr {
        var node := GetNode(path);
        Overwrite(old(table), path, node, WithAttr(node, stat, now + conf.statTimeout));
        node := node.(stat := stat, statValid := now + conf.statTimeout);
        if node.statValid > node.valid { node := node.(valid := node.statValid); }
        table := table[path := node];
        CleanUp(now);
      }
    }

    method CacheDir(path: string, dir: seq<string>, now: nat)
      modifies this`table, this`lastCleaned
      ensures View() == AddDir(old(View()), conf, path, dir, now)
    {
      hide Clean;
      var node := GetNode(path);
      Overwrite(old(table), path, node, WithDir(node, dir, now + conf.dirTimeout));
      node := node.(dir := Some(dir), dirValid := now + conf.dirTimeout);
      if node.dirValid > node.valid { node := node.(valid := node.dirValid); }
      table := table[path := node];
      CleanUp(now);
    }

    method StrNLen(text: string, max: nat) returns (len: nat)
      ensures len == Min(|text|, max)
    {
      len := 0;
      while len < max && len < |text|
        invariant len <= Min(|text|, max)
      {
        len := len + 1;
      }
    }

    method CacheLink(path: string, link: string, size: nat, now: nat)
      requires size > 0
      modifies this`table, this`lastCleaned
      ensures View() == AddLink(old(View()), conf, path, link, size, now)
    {
      hide Clean;
      var node := GetNode(path);
      var len := StrNLen(link, size - 1);
      Overwrite(old(table), path, node, WithLink(node, Cut(link, size), now + conf.linkTimeout));
      node := node.(link := link[..len], linkValid := now + conf.linkTimeout);
      if node.linkValid > node.valid { node := node.(valid := node.linkValid); }
      table := table[path := node];
      CleanUp(now);
    }

    method GetAttr(path: string, answer: Option<Stat>, now: nat) returns (r: Option<Stat>)
      modifies this`table, this`lastCleaned
      ensures (View(), r) == ServeAttr(old(View()), conf, path, answer, now)
    {
      hide AddAttr;
      if path in table && table[path].statValid >= now {
        return Some(table[path].stat);
      }
      r := answer;
      if r.Some? {
        CacheAttr(path, r.value, writeCtr, now);
      }
    }

    method ReadLink(path: string, answer: Option<string>, size: nat, now: nat) returns (r: Option<string>)
      requires size > 0
      modifies this`table, this`lastCleaned
      ensures (View(), r) == ServeLink(old(View()), conf, path, answer, size, now)
    {
      hide AddLink;
      if path in table && table[path].linkValid >= now {
        return Some(Cut(table[path].link, size));
      }
      if answer.None? { return None; }
      r := Some(Cut(answer.value, size));
      CacheLink(path, r.value, size, now);
    }

    method ReadDir(path: string, answer: Option<seq<DirEntry>>, now: nat) returns (r: Option<seq<string>>)
      modifies this`table, this`lastCleaned
      ensures (View(), r) == ServeDir(old(View()), conf, path, answer, now)
    {
      hide AddDir, AddAttr;
      if path in table && table[path].dirValid >= now && table[path].dir.Some? {
        return table[path].dir;
      }
      if answer.None? { return None; }
      var entries := answer.value;
      var wrctr := writeCtr;
      var dir: seq<string> := [];
      for i := 0 to |entries|
        invariant writeCtr == wrctr
        invariant dir == Names(entries[..i])
        invariant View() == FillAll(old(View()), conf, path, entries[..i], wrctr)
      {
        var e := entries[i];
        assert entries[..i + 1][..i] == entries[..i];
        dir := dir + [e.name];
        if KnownKind(e.stat) {
          CacheAttr(ChildKey(path, e.name), e.stat, wrctr, e.now);
        }
      }
      assert entries[..|entries|] == entries;
      CacheDir(path, dir, now);
      r := Some(dir);
    }
  }
}
