/** Choosing the next keyboard-interactive device (auth2-chall.c): the client's comma-separated list of device
    name prefixes is taken piece by piece, each device at most once. */
module AuthDevices {
  import opened AuthMethods
  import opened Wrappers
  import Seqs

  /** A keyboard-interactive exchange: the pieces left to try, the devices already used, the device in use and
      whether its context is set up; and, in order, the devices chosen so far. */
  datatype Kbd = Kbd(devices: Option<string>, done: set<nat>, device: Option<nat>, ready: bool, chosen: seq<nat>)

  /** Whether some list starts with the method, or there are no lists. */
  predicate Allowed(configured: bool, lists: seq<string>, s: Success) {
    configured ==> exists i :: 0 <= i < |lists| && ListStartsWith(lists[i], s) != NoMatch
  }

  /** What stays the same during a search: the device names, and which of them the lists allow. */
  datatype Env = Env(names: seq<string>, configured: bool, lists: seq<string>)

  predicate DeviceAllowed(e: Env, i: nat)
    requires i < |e.names|
  {
    Allowed(e.configured, e.lists, Success("keyboard-interactive", Some(e.names[i])))
  }

  /** A device a piece may choose: not used yet, allowed, and the piece is the front of its name. */
  predicate Eligible(e: Env, piece: string, done: set<nat>, i: nat) {
    i < |e.names| && i !in done && DeviceAllowed(e, i) && piece <= e.names[i]
  }

  /** The eligible devices below n. */
  function Matching(e: Env, piece: string, done: set<nat>, n: nat): (r: set<nat>)
    requires n <= |e.names|
    ensures forall i: nat :: i in r <==> i < n && Eligible(e, piece, done, i)
  {
    if n == 0 then {}
    else if Eligible(e, piece, done, n - 1) then Matching(e, piece, done, n - 1) + {n - 1}
    else Matching(e, piece, done, n - 1)
  }

  /** The last eligible device below n: the inner loop runs on past a match. */
  function LastMatching(e: Env, piece: string, done: set<nat>, n: nat): (r: Option<nat>)
    requires n <= |e.names|
    ensures r.None? ==> forall i :: 0 <= i < n ==> !Eligible(e, piece, done, i)
    ensures r.Some? ==> r.value < n && Eligible(e, piece, done, r.value)
    ensures r.Some? ==> forall i :: r.value < i < n ==> !Eligible(e, piece, done, i)
  {
    if n == 0 then None
    else if Eligible(e, piece, done, n - 1) then Some(n - 1)
    else LastMatching(e, piece, done, n - 1)
  }

  /** The search from the present front piece. An empty piece ends it. */
  function Search(e: Env, k: Kbd): Kbd
    decreases if k.devices.Some? then |k.devices.value| + 1 else 0
  {
    if k.devices.None? || Head(k.devices.value) == "" then k
    else
      var piece := Head(k.devices.value);
      var found := LastMatching(e, piece, k.done, |e.names|);
      var left := k.(devices := Tail(k.devices.value), done := k.done + Matching(e, piece, k.done, |e.names|));
      if found.Some? then left.(device := found, chosen := k.chosen + [found.value]) else Search(e, left)
  }

  function NextDevice(e: Env, k: Kbd): Kbd { Search(e, k.(device := None, ready := false)) }

  // ---- What the search finds ----

  function Pieces(devices: Option<string>): seq<string> { if devices.Some? then Split(devices.value) else [] }

  predicate Hopeless(e: Env, piece: string, done: set<nat>) {
    forall i :: 0 <= i < |e.names| ==> !Eligible(e, piece, done, i)
  }

  lemma PiecesTail(s: string)
    ensures Pieces(Some(s))[0] == Head(s) && Pieces(Tail(s)) == Pieces(Some(s))[1..]
  {
    Tailed(s);
  }

  /** What it means that the search found what it found at piece j. */
  predicate Found(e: Env, k: Kbd, r: Kbd, pieces: seq<string>, j: nat) {
    if r.device.Some? then
      j < |pieces| && pieces[j] != "" && Eligible(e, pieces[j], k.done, r.device.value) &&
      (forall i :: r.device.value < i < |e.names| ==> !Eligible(e, pieces[j], k.done, i)) &&
      r.done == k.done + Matching(e, pieces[j], k.done, |e.names|) &&
      r.chosen == k.chosen + [r.device.value] && Pieces(r.devices) == pieces[j + 1..]
    else
      j <= |pieces| && (j == |pieces| || pieces[j] == "") && r.done == k.done && r.chosen == k.chosen
  }

  lemma SearchNow(e: Env, k: Kbd)
    requires k.device.None?
    requires k.devices.Some? ==>
      Head(k.devices.value) == "" || LastMatching(e, Head(k.devices.value), k.done, |e.names|).Some?
    ensures Found(e, k, Search(e, k), Pieces(k.devices), 0)
  {
    if k.devices.Some? { PiecesTail(k.devices.value); }
    hide Eligible, Split, Head, Tail;
  }

  lemma SearchOn(e: Env, k: Kbd)
    requires k.devices.Some? && Head(k.devices.value) != ""
    requires LastMatching(e, Head(k.devices.value), k.done, |e.names|).None?
    ensures Search(e, k) == Search(e, k.(devices := Tail(k.devices.value)))
    ensures Hopeless(e, Head(k.devices.value), k.done)
  {
    hide Eligible, Head, Tail;
    assert k.done + Matching(e, Head(k.devices.value), k.done, |e.names|) == k.done;
  }

  /** The search finds the first piece that any device is eligible for, among the pieces before an empty one, and
      takes the last such device; if there is no such piece it finds nothing. */
  lemma {:induction false} SearchMeaning(e: Env, k: Kbd) returns (j: nat)
    requires k.device.None?
    ensures Found(e, k, Search(e, k), Pieces(k.devices), j) && j <= |Pieces(k.devices)|
    ensures forall x :: 0 <= x < j ==> Pieces(k.devices)[x] != "" && Hopeless(e, Pieces(k.devices)[x], k.done)
    decreases if k.devices.Some? then |k.devices.value| + 1 else 0
  {
    hide Search, Hopeless, Split, Head, LastMatching, Matching, Eligible;
    if k.devices.None? || Head(k.devices.value) == "" ||
       LastMatching(e, Head(k.devices.value), k.done, |e.names|).Some? {
      SearchNow(e, k);
      j := 0;
    } else {
      var s := k.devices.value;
      PiecesTail(s);
      SearchOn(e, k);
      var left := k.(devices := Tail(s));
      Shorter(s);
      hide Tail, Found;
      var i := SearchMeaning(e, left);
      FoundLater(e, k, left, Search(e, left), Pieces(Some(s)), i);
      j := i + 1;
    }
  }

  lemma Shorter(s: string)
    ensures Tail(s).Some? ==> |Tail(s).value| < |s|
  {
  }

  lemma FoundLater(e: Env, k: Kbd, left: Kbd, r: Kbd, pieces: seq<string>, j: nat)
    requires pieces != [] && left.done == k.done && left.chosen == k.chosen && Found(e, left, r, pieces[1..], j)
    ensures Found(e, k, r, pieces, j + 1)
  {
    hide Eligible, Matching;
    if r.device.Some? { Seqs.DropDrop(pieces, 1, j + 1); }
  }

  predicate Distinct(s: seq<nat>) { forall i, j :: 0 <= i < j < |s| ==> s[i] != s[j] }

  /** No device is ever chosen twice in one exchange. */
  predicate Fair(k: Kbd) { Distinct(k.chosen) && forall i :: 0 <= i < |k.chosen| ==> k.chosen[i] in k.done }

  lemma {:induction false} SearchStaysFair(e: Env, k: Kbd)
    requires Fair(k)
    ensures Fair(Search(e, k))
    decreases if k.devices.Some? then |k.devices.value| + 1 else 0
  {
    if k.devices.Some? && Head(k.devices.value) != "" {
      var piece := Head(k.devices.value);
      var left := k.(devices := Tail(k.devices.value), done := k.done + Matching(e, piece, k.done, |e.names|));
      if LastMatching(e, piece, k.done, |e.names|).None? {
        SearchStaysFair(e, left);
      }
    }
  }

  // ---- The nested loops ----

  method MethodAllowed(configured: bool, lists: seq<string>, s: Success) returns (ok: bool)
    ensures ok == Allowed(configured, lists, s)
  {
    if !configured { return true; }
    for i := 0 to |lists|
      invariant forall x :: 0 <= x < i ==> ListStartsWith(lists[x], s) == NoMatch
    {
      if ListStartsWith(lists[i], s) != NoMatch { return true; }
    }
    ok := false;
  }

  class Exchange {
    var devices: Option<string>
    var done: set<nat>
    var device: Option<nat>
    var ready: bool
    ghost var chosen: seq<nat>

    ghost function View(): Kbd
      reads this
    {
      Kbd(devices, done, device, ready, chosen)
    }

    /** Marks every eligible device used and keeps the last. */
    method TryPiece(e: Env, piece: string)
      requires device.None?
      modifies this`done, this`device
      ensures done == old(done) + Matching(e, piece, old(done), |e.names|)
      ensures device == LastMatching(e, piece, old(done), |e.names|)
    {
      for i := 0 to |e.names|
        invariant done == old(done) + Matching(e, piece, old(done), i)
        invariant device == LastMatching(e, piece, old(done), i)
      {
        var allowed := MethodAllowed(e.configured, e.lists, Success("keyboard-interactive", Some(e.names[i])));
        if i in done || !allowed { continue; }
        if piece <= e.names[i] {
          device := Some(i);
          done := done + {i};
        }
      }
    }

    /** kbdint_next_device. */
    method Next(e: Env) returns (found: bool)
      modifies this
      ensures View() == NextDevice(e, old(View())) && found == device.Some?
    {
      hide Matching, LastMatching, Head, Tail;
      device := None;
      ready := false;
      while devices.Some? && device.None?
        invariant NextDevice(e, old(View())) == if device.None? then Search(e, View()) else View()
        decreases if devices.Some? then |devices.value| + 1 else 0
      {
        var piece := Head(devices.value);
        if piece == "" { break; }
        TryPiece(e, piece);
        devices := Tail(devices.value);
        if device.Some? { chosen := chosen + [device.value]; }
      }
      found := device.Some?;
    }
  }
}
