/** The file system behind the cache: a tree of files, directories and symbolic links, without hard links, and
    what each changing operation does to it. */
module BackingTree {
  import opened CacheTable
  import opened CachePaths

  /** A directory lists its children, and possibly the two aliases, in its own order. */
  datatype Body = File | Dir(listing: seq<string>) | Symlink(target: string)

  datatype Entry = Entry(stat: Stat, body: Body)

  type FS = map<Path, Entry>

  /** Every path but the root is listed in its parent directory. */
  predicate Rooted(fs: FS, p: Path) {
    p == [] || (Parent(p) in fs && fs[Parent(p)].body.Dir? && Base(p) in fs[Parent(p)].body.listing)
  }

  /** Everything a directory lists exists. */
  ghost predicate Filled(fs: FS, p: Path)
    requires p in fs
  {
    fs[p].body.Dir? ==>
      forall s :: s in fs[p].body.listing ==> IsAlias(s) || (IsName(s) && p + [s] in fs)
  }

  ghost predicate Tree(fs: FS) {
    (forall p :: p in fs ==> Rooted(fs, p)) && (forall p :: p in fs ==> Filled(fs, p))
  }

  /** Absent, a file, or an empty directory. */
  predicate Childless(fs: FS, p: Path) {
    p in fs && fs[p].body.Dir? ==> forall s :: s in fs[p].body.listing ==> IsAlias(s)
  }

  /** What lies below a path is listed in it, step by step. */
  lemma {:induction false} ListedAbove(fs: FS, p: Path, q: Path)
    requires Tree(fs) && q in fs && p < q
    ensures p in fs && fs[p].body.Dir? && q[|p|] in fs[p].body.listing
    decreases |q|
  {
    assert Rooted(fs, q);
    if |q| == |p| + 1 {
      assert Parent(q) == p;
    } else {
      assert p < Parent(q);
      ListedAbove(fs, p, Parent(q));
    }
  }

  /** Nothing exists below what has no children. */
  lemma NothingBelow(fs: FS, p: Path, q: Path)
    requires Tree(fs) && Childless(fs, p) && p < q
    ensures q !in fs
  {
    if q in fs {
      ListedAbove(fs, p, q);
    }
  }

  // ---- Changes ----

  ghost predicate Plus(a: Entry, name: string, b: Entry) {
    a.body.Dir? && b.body.Dir? && forall s :: s in b.body.listing <==> s in a.body.listing || s == name
  }

  ghost predicate Minus(a: Entry, name: string, b: Entry) {
    a.body.Dir? && b.body.Dir? && forall s :: s in b.body.listing <==> s in a.body.listing && s != name
  }

  /** mknod, mkdir, symlink and create: a new childless entry, listed in its parent. create may also reopen a file. */
  ghost predicate CanMake(fs: FS, p: Path, entry: Entry, parent: Entry) {
    p != [] &&
    if p in fs then !fs[p].body.Dir? && !entry.body.Dir?
    else
      Parent(p) in fs && Plus(fs[Parent(p)], Base(p), parent) &&
      (entry.body.Dir? ==> forall s :: s in entry.body.listing ==> IsAlias(s))
  }

  function Make(fs: FS, p: Path, entry: Entry, parent: Entry): FS
    requires p != []
  {
    if p in fs then fs[p := entry] else fs[Parent(p) := parent][p := entry]
  }

  /** unlink and rmdir: a childless entry goes. */
  ghost predicate CanRemove(fs: FS, p: Path, parent: Entry) {
    p != [] && p in fs && Childless(fs, p) && Parent(p) in fs && Minus(fs[Parent(p)], Base(p), parent)
  }

  function Remove(fs: FS, p: Path, parent: Entry): FS
    requires p != []
  {
    (fs - {p})[Parent(p) := parent]
  }

  /** chmod, chown, utimens, truncate and write: the attributes of one entry change. */
  function Alter(fs: FS, p: Path, stat: Stat): FS
    requires p in fs
  {
    fs[p := fs[p].(stat := stat)]
  }

  lemma MakeKeepsRooted(fs: FS, p: Path, entry: Entry, parent: Entry, q: Path)
    requires Tree(fs) && CanMake(fs, p, entry, parent) && q in Make(fs, p, entry, parent)
    ensures Rooted(Make(fs, p, entry, parent), q)
  {
    if q in fs { assert Rooted(fs, q); }
    hide Tree, Parent, Base;
  }

  lemma MakeKeepsFilled(fs: FS, p: Path, entry: Entry, parent: Entry, q: Path)
    requires CanMake(fs, p, entry, parent) && q in fs && Filled(fs, q) && q != p
    ensures Filled(Make(fs, p, entry, parent), q)
  {
    var fs' := Make(fs, p, entry, parent);
    assert Parent(p) + [Base(p)] == p;
    hide Parent, Base;
  }

  lemma MakeFillsNew(fs: FS, p: Path, entry: Entry, parent: Entry)
    requires CanMake(fs, p, entry, parent)
    ensures Filled(Make(fs, p, entry, parent), p)
  {
  }

  lemma MakeKeepsTree(fs: FS, p: Path, entry: Entry, parent: Entry)
    requires Tree(fs) && CanMake(fs, p, entry, parent)
    ensures Tree(Make(fs, p, entry, parent))
  {
    hide Rooted, Filled, Plus, Parent, Base;
    var fs' := Make(fs, p, entry, parent);
    forall q | q in fs'
      ensures Rooted(fs', q) && Filled(fs', q)
    {
      MakeKeepsRooted(fs, p, entry, parent, q);
      if q == p { MakeFillsNew(fs, p, entry, parent); } else { MakeKeepsFilled(fs, p, entry, parent, q); }
    }
  }

  lemma RemoveKeepsRooted(fs: FS, p: Path, parent: Entry, q: Path)
    requires CanRemove(fs, p, parent) && Rooted(fs, q) && q != p
    ensures Rooted(Remove(fs, p, parent), q)
  {
    if q != [] {
      Apart(p, q);
      hide Parent, Base;
    }
  }

  lemma RemoveKeepsFilled(fs: FS, p: Path, parent: Entry, q: Path)
    requires CanRemove(fs, p, parent) && q in fs && Filled(fs, q) && q != p
    ensures Filled(Remove(fs, p, parent), q)
  {
    var fs' := Remove(fs, p, parent);
    if fs'[q].body.Dir? {
      forall s | s in fs'[q].body.listing
        ensures IsAlias(s) || (IsName(s) && q + [s] in fs')
      {
        assert s in fs[q].body.listing;
        if IsName(s) {
          Child(q, s);
          hide Parent, Base;
        }
      }
    }
  }

  lemma RemoveKeepsTree(fs: FS, p: Path, parent: Entry)
    requires Tree(fs) && CanRemove(fs, p, parent)
    ensures Tree(Remove(fs, p, parent))
  {
    hide Rooted, Filled, Plus, Minus, Childless, Parent, Base;
    var fs' := Remove(fs, p, parent);
    forall q | q in fs'
      ensures Rooted(fs', q) && Filled(fs', q)
    {
      StillThere(fs, p, parent, q);
      RemoveKeepsRooted(fs, p, parent, q);
      RemoveKeepsFilled(fs, p, parent, q);
    }
  }

  lemma StillThere(fs: FS, p: Path, parent: Entry, q: Path)
    requires CanRemove(fs, p, parent) && q in Remove(fs, p, parent)
    ensures q in fs && q != p
  {
  }

  lemma AlterKeepsTree(fs: FS, p: Path, stat: Stat)
    requires Tree(fs) && p in fs
    ensures Tree(Alter(fs, p, stat))
  {
    var fs' := Alter(fs, p, stat);
    forall q | q in fs'
      ensures Rooted(fs', q)
    {
      assert Rooted(fs, q);
    }
    forall q | q in fs'
      ensures Filled(fs', q)
    {
      assert Filled(fs, q);
    }
  }

  // ---- Rename ----

  /** A rename, with the attributes the moved entry has after it and the two parents after it. */
  datatype Move = Move(from: Path, to: Path, stat: Stat, fromParent: Entry, toParent: Entry)

  /** The target is absent, a file or an empty directory, and not inside what moves. */
  ghost predicate CanRename(fs: FS, m: Move) {
    m.from != [] && m.to != [] && m.from in fs && !(m.from <= m.to) && Childless(fs, m.to) &&
    Parent(m.from) in fs && Parent(m.to) in fs &&
    if Parent(m.from) == Parent(m.to) then
      m.fromParent == m.toParent && fs[Parent(m.to)].body.Dir? && m.toParent.body.Dir? &&
      forall s :: s in m.toParent.body.listing <==>
        s == Base(m.to) || (s in fs[Parent(m.to)].body.listing && s != Base(m.from))
    else
      Minus(fs[Parent(m.from)], Base(m.from), m.fromParent) && Plus(fs[Parent(m.to)], Base(m.to), m.toParent)
  }

  /** Where the entry found at q after the move was before it. */
  function Origin(m: Move, q: Path): Path { if m.to <= q then m.from + q[|m.to|..] else q }

  predicate Survives(fs: FS, m: Move, q: Path) { Origin(m, q) in fs && (m.to <= q || !(m.from <= q)) }

  function Keys(fs: FS, m: Move): (r: set<Path>)
    ensures forall q :: q in r <==> Survives(fs, m, q)
  {
    var moved := set q | q in fs && m.from <= q :: m.to + q[|m.from|..];
    var stay := set q | q in fs && !(m.from <= q) && !(m.to <= q);
    assert forall q :: m.to <= q && Origin(m, q) in fs ==> q in moved by {
      forall q | m.to <= q && Origin(m, q) in fs
        ensures q in moved
      {
        assert m.from <= Origin(m, q) && m.to + Origin(m, q)[|m.from|..] == q;
      }
    }
    assert forall q :: q in moved ==> m.to <= q && Origin(m, q) in fs by {
      forall q | q in moved
        ensures m.to <= q && Origin(m, q) in fs
      {
        var o :| o in fs && m.from <= o && q == m.to + o[|m.from|..];
        assert Origin(m, q) == o;
      }
    }
    moved + stay
  }

  /** The entry at each path after the move. */
  function EntryAfter(fs: FS, m: Move, q: Path): Entry
    requires m.from != [] && m.to != [] && m.from in fs && Survives(fs, m, q)
  {
    if q == m.to then Entry(m.stat, fs[m.from].body)
    else if q == Parent(m.to) then m.toParent
    else if q == Parent(m.from) then m.fromParent
    else fs[Origin(m, q)]
  }

  function Rename(fs: FS, m: Move): FS
    requires m.from != [] && m.to != [] && m.from in fs
  {
    map q | q in Keys(fs, m) :: EntryAfter(fs, m, q)
  }

  predicate Outside(m: Move, q: Path) { !(m.from <= q) && !(m.to <= q) }

  lemma ParentsOutside(fs: FS, m: Move)
    requires Tree(fs) && CanRename(fs, m)
    ensures Outside(m, Parent(m.from)) && Outside(m, Parent(m.to))
  {
    if m.to <= Parent(m.from) {
      assert m.to < m.from;
      ListedAbove(fs, m.to, m.from);
    }
  }

  lemma OriginBelow(m: Move, q: Path)
    requires m.to != [] && m.to < q
    ensures m.to <= Parent(q) && Origin(m, q) != [] && Parent(Origin(m, q)) == Origin(m, Parent(q))
    ensures Base(Origin(m, q)) == Base(q)
  {
    assert Parent(Origin(m, q)) == m.from + Parent(q)[|m.to|..];
  }

  lemma OriginOfTarget(m: Move)
    ensures Origin(m, m.to) == m.from
  {
  }

  lemma RenameAt(fs: FS, m: Move, q: Path)
    requires m.from != [] && m.to != [] && m.from in fs
    ensures q in Rename(fs, m) <==> Survives(fs, m, q)
    ensures Survives(fs, m, q) ==> Rename(fs, m)[q] == EntryAfter(fs, m, q)
  {
    hide Survives, EntryAfter, Keys;
  }

  lemma RootedBelow(fs: FS, m: Move, q: Path)
    requires CanRename(fs, m) && Survives(fs, m, q) && m.to < q
    requires Rooted(fs, Origin(m, q)) && Outside(m, Parent(m.to)) && Outside(m, Parent(m.from))
    ensures Rooted(Rename(fs, m), q)
  {
    hide Rename, Base, Childless, Plus, Minus, Origin;
    OriginBelow(m, q);
    OriginOfTarget(m);
    RenameAt(fs, m, Parent(q));
    hide Parent;
  }

  lemma ParentOutside(m: Move, q: Path)
    requires q != [] && Outside(m, q)
    ensures Outside(m, Parent(q))
  {
  }

  lemma RootedOutside(fs: FS, m: Move, q: Path)
    requires CanRename(fs, m) && Outside(m, q) && Rooted(fs, q)
    ensures Rooted(Rename(fs, m), q)
  {
    hide Rename, Childless, Parent, Base;
    if q != [] {
      ParentOutside(m, q);
      Apart(q, m.from);
      RenameAt(fs, m, Parent(q));
    }
  }

  lemma RootedTarget(fs: FS, m: Move)
    requires CanRename(fs, m) && Outside(m, Parent(m.to))
    ensures Rooted(Rename(fs, m), m.to)
  {
    hide Rename, Childless, Parent, Base;
    RenameAt(fs, m, Parent(m.to));
  }

  /** A child of what is below the target comes from a child of its origin. */
  lemma ChildBelow(m: Move, q: Path, n: Name)
    requires m.to <= q
    ensures m.to <= q + [n] && Origin(m, q + [n]) == Origin(m, q) + [n]
  {
  }

  lemma FilledBelow(fs: FS, m: Move, q: Path)
    requires CanRename(fs, m) && Survives(fs, m, q) && m.to <= q && Filled(fs, Origin(m, q))
    requires Outside(m, Parent(m.to)) && Outside(m, Parent(m.from))
    ensures q in Rename(fs, m) && Filled(Rename(fs, m), q)
  {
    hide Rename, Childless, Parent, Base, Origin, Plus, Minus;
    RenameAt(fs, m, q);
    OriginOfTarget(m);
    var fs' := Rename(fs, m);
    assert fs'[q].body == fs[Origin(m, q)].body;
    if fs'[q].body.Dir? {
      forall s | s in fs'[q].body.listing
        ensures IsAlias(s) || (IsName(s) && q + [s] in fs')
      {
        if IsName(s) {
          ChildBelow(m, q, s);
          RenameAt(fs, m, q + [s]);
        }
      }
    }
  }

  /** A child of what is outside both places is outside too, unless it is one of the two itself. */
  lemma ChildOutside(m: Move, q: Path, n: Name)
    requires m.from != [] && m.to != [] && Outside(m, q)
    ensures Outside(m, q + [n]) || q + [n] == m.from || q + [n] == m.to
  {
  }

  lemma FilledOutside(fs: FS, m: Move, q: Path)
    requires CanRename(fs, m) && q in fs && Outside(m, q) && Filled(fs, q)
    ensures q in Rename(fs, m) && Filled(Rename(fs, m), q)
  {
    hide Rename, Childless, Parent, Base;
    RenameAt(fs, m, q);
    var fs' := Rename(fs, m);
    if fs'[q].body.Dir? {
      forall s | s in fs'[q].body.listing
        ensures IsAlias(s) || (IsName(s) && q + [s] in fs')
      {
        ListedAfter(fs, m, q, s);
        if IsName(s) {
          Child(q, s);
          ChildOutside(m, q, s);
          OriginOfTarget(m);
          RenameAt(fs, m, q + [s]);
          if q + [s] != m.to { Apart(q + [s], m.to); }
        }
      }
    }
  }

  /** What a directory outside both places lists after the move: what it listed, less what moved away, plus what
      moved in. */
  lemma ListedAfter(fs: FS, m: Move, q: Path, s: string)
    requires CanRename(fs, m) && q in fs && Outside(m, q)
    requires EntryAfter(fs, m, q).body.Dir? && s in EntryAfter(fs, m, q).body.listing
    ensures (q == Parent(m.to) && s == Base(m.to)) ||
            (fs[q].body.Dir? && s in fs[q].body.listing && (q == Parent(m.from) ==> s != Base(m.from)))
  {
    hide Parent, Base, Childless;
  }

  lemma RenameKeepsTree(fs: FS, m: Move)
    requires Tree(fs) && CanRename(fs, m)
    ensures Tree(Rename(fs, m))
  {
    ParentsOutside(fs, m);
    hide Rename, Rooted, Filled, Childless, Parent, Base, Origin, Plus, Minus;
    var fs' := Rename(fs, m);
    forall q | q in fs'
      ensures Rooted(fs', q) && Filled(fs', q)
    {
      RenameAt(fs, m, q);
      assert Rooted(fs, Origin(m, q)) && Filled(fs, Origin(m, q));
      if m.to <= q {
        FilledBelow(fs, m, q);
        if q == m.to { RootedTarget(fs, m); } else { RootedBelow(fs, m, q); }
      } else {
        OriginOutside(m, q);
        FilledOutside(fs, m, q);
        RootedOutside(fs, m, q);
      }
    }
  }

  lemma OriginOutside(m: Move, q: Path)
    requires !(m.to <= q)
    ensures Origin(m, q) == q
  {
  }
}
