/** Paths as components and as the strings that key the cache. */
module CachePaths {
  import opened CacheTable
  import opened Wrappers

  predicate IsAlias(s: string) { s == "." || s == ".." }

  predicate IsName(s: string) { s != "" && '/' !in s && !IsAlias(s) }

  /** A file name that is not one of the two directory aliases. */
  type Name = s: string | IsName(s) witness "a"

  type Path = seq<Name>

  function Joined(p: Path): string {
    if p == [] then "" else Joined(p[..|p| - 1]) + "/" + p[|p| - 1]
  }

  function Render(p: Path): string { if p == [] then "/" else Joined(p) }

  function Parent(p: Path): Path
    requires p != []
  {
    p[..|p| - 1]
  }

  function Base(p: Path): Name
    requires p != []
  {
    p[|p| - 1]
  }

  lemma Child(p: Path, n: Name)
    ensures Parent(p + [n]) == p && Base(p + [n]) == n
  {
  }

  lemma Apart(p: Path, q: Path)
    requires p != [] && q != [] && p != q
    ensures Parent(p) != Parent(q) || Base(p) != Base(q)
  {
    assert p == Parent(p) + [Base(p)] && q == Parent(q) + [Base(q)];
  }

  /** The last slash is where the last component begins. */
  lemma {:induction false} LastSlashOf(front: string, name: string)
    requires '/' !in name
    ensures LastSlash(front + "/" + name) == Some(|front|)
    decreases |name|
  {
    var s := front + "/" + name;
    if name == "" {
      assert s[|s| - 1] == '/';
    } else {
      var n := |name| - 1;
      assert s[|s| - 1] == name[n] && s[..|s| - 1] == front + "/" + name[..n];
      LastSlashOf(front, name[..n]);
    }
  }

  lemma JoinedNonempty(p: Path)
    requires p != []
    ensures |Joined(p)| >= 2 && Joined(p)[0] == '/'
  {
    if Parent(p) != [] { JoinedNonempty(Parent(p)); }
  }

  /** Cutting a key at its last slash gives the parent's key. */
  lemma ParentOfKey(p: Path)
    requires p != []
    ensures ParentKey(Render(p)) == Some(Render(Parent(p)))
  {
    var front := Joined(Parent(p));
    LastSlashOf(front, Base(p));
    assert (front + "/" + Base(p))[..|front|] == front;
    if Parent(p) != [] { JoinedNonempty(Parent(p)); }
  }

  /** Two keys with the same string have the same last component and the same rest. */
  lemma SamePieces(a: string, x: string, b: string, y: string)
    requires '/' !in x && '/' !in y && a + "/" + x == b + "/" + y
    ensures a == b && x == y
  {
    LastSlashOf(a, x);
    LastSlashOf(b, y);
    var s := a + "/" + x;
    assert s[..|a|] == a && s[..|b|] == b && s[|a| + 1..] == x && s[|b| + 1..] == y;
  }

  lemma {:induction false} JoinedInjective(p: Path, q: Path)
    requires Joined(p) == Joined(q)
    ensures p == q
  {
    if p == [] {
      if q != [] { JoinedNonempty(q); }
    } else if q == [] {
      JoinedNonempty(p);
    } else {
      SamePieces(Joined(Parent(p)), Base(p), Joined(Parent(q)), Base(q));
      JoinedInjective(Parent(p), Parent(q));
      assert p == Parent(p) + [Base(p)] && q == Parent(q) + [Base(q)];
    }
  }

  /** Different paths have different keys. */
  lemma RenderInjective(p: Path, q: Path)
    requires Render(p) == Render(q)
    ensures p == q
  {
    if p != [] { JoinedNonempty(p); }
    if q != [] { JoinedNonempty(q); }
    if p != [] && q != [] { JoinedInjective(p, q); }
  }

  /** A key is a prefix, as a string, of the keys of everything below it. */
  lemma {:induction false} BelowIsPrefix(p: Path, q: Path)
    requires p != [] && p <= q
    ensures Render(p) <= Render(q)
    decreases |q|
  {
    if |p| == |q| {
      assert p == q;
    } else {
      assert p <= Parent(q);
      BelowIsPrefix(p, Parent(q));
    }
  }

  /** Directory listings name their entries by the key the entry has itself. */
  lemma ChildKeyOf(p: Path, n: Name)
    ensures ChildKey(Render(p), n) == Render(p + [n])
  {
    assert Parent(p + [n]) == p && Base(p + [n]) == n;
    if p != [] { JoinedNonempty(p); }
  }

  /** The aliases "." and ".." get keys that belong to no path. */
  lemma AliasKey(p: Path, alias: string, q: Path)
    requires IsAlias(alias)
    ensures ChildKey(Render(p), alias) != Render(q)
  {
    if p != [] { JoinedNonempty(p); }
    assert |ChildKey(Render(p), alias)| >= 2;
    if q != [] && ChildKey(Render(p), alias) == Render(q) {
      SamePieces(if p == [] then "" else Joined(p), alias, Joined(Parent(q)), Base(q));
    }
  }
}
