/** The binding table of src/path/binding.c: two ordered lists, a stack of
    covered bindings per guest path, and a sorted lookup cache. */
module Bindings {
  import opened Wrappers
  import opened Paths

  datatype MountKind = MountNone | MountTmpfs | MountInternal

  /** covered is the binding of the same guest path this one hides. */
  datatype Binding = Binding(host: Path, guest: Path, kind: MountKind, covered: Option<Binding>)

  datatype Side = Guest | Host

  /** What the guest list means: the visible binding of every bound path. */
  type View = map<Path, Binding>

  predicate WellFormed(b: Binding) {
    && IsPath(b.host)
    && IsPath(b.guest)
    && (b.covered.Some? ==> b.covered.value.guest == b.guest && WellFormed(b.covered.value))
  }

  ghost predicate Keyed(m: View) {
    forall p :: p in m ==> m[p].guest == p && WellFormed(m[p])
  }

  // ----- lookup and translation -----

  /** The visible binding of the longest bound prefix. */
  function Lookup(m: View, p: Path): Option<Binding>
    decreases |p|
  {
    if p in m then Some(m[p])
    else if |p| == 0 then None
    else Lookup(m, p[..|p| - 1])
  }

  /** The host path a guest path stands for. */
  function Translate(m: View, p: Path): Option<Path>
    decreases |p|
  {
    if p in m then Some(m[p].host)
    else if |p| == 0 then None
    else match Translate(m, p[..|p| - 1])
      case None => None
      case Some(h) => Some(h + [p[|p| - 1]])
  }

  lemma PrefixOfInit(g: Path, p: Path)
    requires p != []
    ensures g <= p <==> g == p || g <= p[..|p| - 1]
  {
    if g <= p && |g| < |p| { assert p[..|p| - 1][..|g|] == g; }
  }

  /** Lookup is longest-prefix match, stated without recursion. */
  lemma {:induction false} LookupIsLongestPrefix(m: View, p: Path)
    requires Keyed(m)
    ensures Lookup(m, p).None? <==> forall g :: g in m ==> !(g <= p)
    ensures forall b :: Lookup(m, p) == Some(b) <==>
                        b.guest in m && m[b.guest] == b && b.guest <= p && forall g :: g in m && g <= p ==> g <= b.guest
    decreases |p|
  {
    if p in m {
      assert p <= p;
      forall b: Binding | b.guest in m && m[b.guest] == b && b.guest <= p && forall g :: g in m && g <= p ==> g <= b.guest
        ensures Lookup(m, p) == Some(b)
      {
        assert p <= b.guest;
        assert p == b.guest;
      }
    } else if p != [] {
      LookupIsLongestPrefix(m, p[..|p| - 1]);
      forall g | g in m ensures g <= p <==> g <= p[..|p| - 1] {
        PrefixOfInit(g, p);
      }
    } else {
      forall g | g in m ensures !(g <= p) {
        assert g <= p ==> g == p;
      }
    }
  }

  lemma {:induction false} LookupCovers(m: View, p: Path, g: Path)
    requires Keyed(m) && g in m && g <= p
    ensures Lookup(m, p).Some?
    ensures var b := Lookup(m, p).value; b.guest in m && m[b.guest] == b && g <= b.guest <= p && WellFormed(b)
    decreases |p|
  {
    if p !in m {
      PrefixOfInit(g, p);
      LookupCovers(m, p[..|p| - 1], g);
    }
  }

  /** Translation is substitution by the binding lookup selects. */
  lemma {:induction false} TranslateSubstitutes(m: View, p: Path)
    requires Keyed(m)
    ensures match Lookup(m, p)
            case None => Translate(m, p) == None
            case Some(b) => b.guest <= p && Translate(m, p) == Some(b.host + p[|b.guest|..])
    decreases |p|
  {
    if p in m {
      assert m[p].host + p[|p|..] == m[p].host;
    } else if p != [] {
      var q := p[..|p| - 1];
      TranslateSubstitutes(m, q);
      if Lookup(m, q).Some? {
        var b := Lookup(m, q).value;
        PrefixOfInit(b.guest, p);
        assert p[|b.guest|..] == q[|b.guest|..] + [p[|p| - 1]];
        assert b.host + p[|b.guest|..] == b.host + q[|b.guest|..] + [p[|p| - 1]];
      }
    }
  }

  function HostAt(m: View, p: Path): Option<Path> {
    if p in m then Some(m[p].host) else None
  }

  /** Two subtrees translate alike when their roots do and the same hosts are
      bound at the same places below them along the way. */
  lemma {:induction false} SameSubtree(m1: View, a: Path, m2: View, b: Path, s: Path)
    requires Translate(m1, a) == Translate(m2, b)
    requires forall y :: y <= s && y != [] ==> HostAt(m1, a + y) == HostAt(m2, b + y)
    ensures Translate(m1, a + s) == Translate(m2, b + s)
    decreases |s|
  {
    if |s| == 0 {
      assert a + s == a && b + s == b;
    } else {
      var t := s[..|s| - 1];
      assert (a + s)[..|a + s| - 1] == a + t && (b + s)[..|b + s| - 1] == b + t;
      assert s <= s;
      forall y | y <= t && y != [] ensures HostAt(m1, a + y) == HostAt(m2, b + y) {
        PrefixOfInit(y, s);
      }
      SameSubtree(m1, a, m2, b, t);
      assert HostAt(m1, a + s) == HostAt(m2, b + s);
    }
  }

  /** Where p would go without a binding of its own. */
  function ThroughParent(m: View, p: Path): Option<Path>
    requires p != []
  {
    match Translate(m, p[..|p| - 1])
    case None => None
    case Some(h) => Some(h + [p[|p| - 1]])
  }

  /** What is bound at p in m1, or at q in m2 alone, makes no difference. */
  predicate AgreeAt(m1: View, p: Path, m2: View, q: Path) {
    if p in m1 then Some(m1[p].host) == Translate(m2, q)
    else if q in m2 && q != [] then Some(m2[q].host) == ThroughParent(m2, q)
    else true
  }

  /** The path itself and every path on the way to it translate alike. */
  ghost predicate TranslateAlike(m1: View, a: Path, m2: View, b: Path, s: Path) {
    forall x :: x <= s ==> Translate(m1, a + x) == Translate(m2, b + x)
  }

  ghost predicate BoundAlike(m1: View, a: Path, m2: View, b: Path, s: Path) {
    forall y :: y <= s && y != [] ==> AgreeAt(m1, a + y, m2, b + y)
  }

  lemma AlikeAtRoot(m1: View, a: Path, m2: View, b: Path, s: Path)
    requires s == []
    ensures TranslateAlike(m1, a, m2, b, s) <==> Translate(m1, a) == Translate(m2, b)
  {
    assert a + s == a && b + s == b && s <= s;
    if Translate(m1, a) == Translate(m2, b) {
      forall x | x <= s ensures Translate(m1, a + x) == Translate(m2, b + x) {
        assert x == s;
      }
    }
  }

  lemma AlikeStep(m1: View, a: Path, m2: View, b: Path, s: Path)
    requires s != []
    ensures TranslateAlike(m1, a, m2, b, s) <==>
            TranslateAlike(m1, a, m2, b, s[..|s| - 1]) && Translate(m1, a + s) == Translate(m2, b + s)
  {
    var t := s[..|s| - 1];
    assert s <= s;
    if TranslateAlike(m1, a, m2, b, s) {
      forall x | x <= t ensures Translate(m1, a + x) == Translate(m2, b + x) { PrefixOfInit(x, s); }
    } else if TranslateAlike(m1, a, m2, b, t) && Translate(m1, a + s) == Translate(m2, b + s) {
      forall x | x <= s ensures Translate(m1, a + x) == Translate(m2, b + x) { PrefixOfInit(x, s); }
    }
  }

  lemma BoundAlikeStep(m1: View, a: Path, m2: View, b: Path, s: Path)
    requires s != []
    ensures BoundAlike(m1, a, m2, b, s) <==>
            BoundAlike(m1, a, m2, b, s[..|s| - 1]) && AgreeAt(m1, a + s, m2, b + s)
  {
    var t := s[..|s| - 1];
    assert s <= s;
    if BoundAlike(m1, a, m2, b, s) {
      forall y | y <= t && y != [] ensures AgreeAt(m1, a + y, m2, b + y) { PrefixOfInit(y, s); }
    } else if BoundAlike(m1, a, m2, b, t) && AgreeAt(m1, a + s, m2, b + s) {
      forall y | y <= s && y != [] ensures AgreeAt(m1, a + y, m2, b + y) { PrefixOfInit(y, s); }
    }
  }

  lemma AgreeStep(m1: View, a: Path, m2: View, b: Path, s: Path)
    requires s != [] && Translate(m1, a + s[..|s| - 1]) == Translate(m2, b + s[..|s| - 1])
    ensures Translate(m1, a + s) == Translate(m2, b + s) <==> AgreeAt(m1, a + s, m2, b + s)
  {
    var t := s[..|s| - 1];
    assert (a + s)[..|a + s| - 1] == a + t && (b + s)[..|b + s| - 1] == b + t;
  }

  /** The exact condition for two subtrees to translate alike all the way down
      to s: their roots do, and no binding on the way tells them apart. */
  lemma {:induction false} SubtreesAgree(m1: View, a: Path, m2: View, b: Path, s: Path)
    ensures TranslateAlike(m1, a, m2, b, s) <==> Translate(m1, a) == Translate(m2, b) && BoundAlike(m1, a, m2, b, s)
    decreases |s|
  {
    if |s| == 0 {
      AlikeAtRoot(m1, a, m2, b, s);
    } else {
      var t := s[..|s| - 1];
      SubtreesAgree(m1, a, m2, b, t);
      AlikeStep(m1, a, m2, b, s);
      BoundAlikeStep(m1, a, m2, b, s);
      assert t <= t;
      if TranslateAlike(m1, a, m2, b, t) { AgreeStep(m1, a, m2, b, s); }
    }
  }

  // ----- what the table operations do to a view -----

  /** b as it stands once inserted: hiding whatever its guest path showed. */
  function Covering(m: View, b: Binding): Binding {
    if b.guest in m then b.(covered := Some(m[b.guest])) else b
  }

  function Inserted(m: View, b: Binding): View {
    m[b.guest := Covering(m, b)]
  }

  function Removed(m: View, b: Binding): View {
    if b.guest in m && m[b.guest] == b then m - {b.guest} else m
  }

  function Mounted(m: View, host: Path, guest: Path, kind: MountKind): View {
    Inserted(m, Binding(host, guest, kind, None))
  }

  /** Taking the top binding off a guest path. */
  function Uncovered(m: View, g: Path): View
    requires g in m
  {
    match m[g].covered
    case None => m - {g}
    case Some(c) => m[g := c]
  }

  // ----- lists -----

  ghost predicate Distinct(list: seq<Binding>) {
    forall i, j :: 0 <= i < j < |list| ==> list[i].guest != list[j].guest
  }

  ghost predicate Represents(list: seq<Binding>, m: View) {
    var represents :=
      && Distinct(list)
      && (forall b :: b in list ==> b.guest in m && m[b.guest] == b && WellFormed(b))
      && (forall p :: p in m ==> m[p] in list && m[p].guest == p);
    represents
  }

  /** "/" is nowhere but at the end, where get_root looks for it. */
  ghost predicate RootLast(list: seq<Binding>) {
    forall i :: 0 <= i < |list| - 1 ==> list[i].guest != []
  }

  ghost predicate Descending(list: seq<Binding>, key: Binding -> nat) {
    forall i, j :: 0 <= i < j < |list| ==> key(list[i]) >= key(list[j])
  }

  ghost predicate SortedByLength(list: seq<Binding>) {
    forall i, j :: 0 <= i < j < |list| ==> Length(list[i].guest) >= Length(list[j].guest)
  }

  function Key(side: Side, b: Binding): Path {
    if side.Guest? then b.guest else b.host
  }

  function Keys(side: Side, list: seq<Binding>): (paths: seq<Path>)
    ensures |paths| == |list| && forall i :: 0 <= i < |list| ==> paths[i] == Key(side, list[i])
  {
    seq(|list|, i requires 0 <= i < |list| => Key(side, list[i]))
  }

  ghost predicate HasBelow(paths: seq<Path>, p: Path, from: int) {
    exists i :: 0 <= i < |paths| && from <= i && p < paths[i]
  }

  ghost predicate HasAbove(paths: seq<Path>, p: Path, to: int) {
    exists i :: 0 < i < |paths| && i < to && paths[i] < p
  }

  /** Where insort_binding links a path that is not in the list yet: after the
      last entry below it, else before the first entry above it that is not the
      first of the list, else at the head. */
  ghost predicate InsertPosition(paths: seq<Path>, p: Path, k: int) {
    var fits :=
      if HasBelow(paths, p, 0) then
        0 < k <= |paths| && p < paths[k - 1] && !HasBelow(paths, p, k)
      else if HasAbove(paths, p, |paths|) then
        0 < k < |paths| && paths[k] < p && !HasAbove(paths, p, k)
      else
        k == 0;
    fits
  }

  /** Where a binding goes that may stand beside others of the same path. */
  ghost predicate PlacedAt(paths: seq<Path>, p: Path, k: int) {
    if p in paths then FirstEqual(paths, p, k - 1) else InsertPosition(paths, p, k)
  }

  /** What insort_binding leaves of the host list. */
  ghost predicate HostPlaced(before: seq<Binding>, after: seq<Binding>, b: Binding) {
    exists k :: 0 <= k <= |before| && PlacedAt(Keys(Host, before), b.host, k) && after == SplicedIn(before, k, b)
  }

  /** What insort_binding leaves of the guest list. */
  ghost predicate GuestPlaced(before: seq<Binding>, after: seq<Binding>, b: Binding) {
    var paths := Keys(Guest, before);
    if b.guest in paths then
      exists k :: FirstEqual(paths, b.guest, k) && after == before[k := b]
    else
      exists k :: 0 <= k <= |before| && InsertPosition(paths, b.guest, k) && after == SplicedIn(before, k, b)
  }

  ghost predicate FirstEqual(paths: seq<Path>, p: Path, k: int) {
    0 <= k < |paths| && paths[k] == p && p !in paths[..k]
  }

  /** The scan of insort_binding. */
  method FindPlace(paths: seq<Path>, p: Path) returns (k: nat, equal: bool)
    requires IsPath(p) && forall i :: 0 <= i < |paths| ==> IsPath(paths[i])
    ensures equal <==> p in paths
    ensures equal ==> FirstEqual(paths, p, k)
    ensures !equal ==> k <= |paths| && InsertPosition(paths, p, k)
  {
    var prev, next := -1, 0;
    for i := 0 to |paths|
      invariant -1 <= prev && (prev < i || prev == -1)
      invariant prev >= 0 ==> p < paths[prev]
      invariant forall j :: prev < j < i ==> !(p < paths[j])
      invariant 0 <= next && (next < i || next == 0)
      invariant next > 0 ==> paths[next] < p
      invariant forall j :: 0 < j < i && (next == 0 || j < next) ==> !(paths[j] < p)
      invariant p !in paths[..i]
    {
      CompareRendered(p, paths[i]);
      var cmp := ComparePaths(Render(p), Render(paths[i]));
      if cmp == PathsAreEqual {
        return i, true;
      }
      if cmp == Path1IsPrefix {
        prev := i;
      }
      if cmp == Path2IsPrefix && next == 0 {
        next := i;
      }
    }
    return if prev >= 0 then prev + 1 else next, false;
  }

  // ----- splicing lists -----

  /** s with x linked in at position k. */
  function SplicedIn<T>(s: seq<T>, k: nat, x: T): (r: seq<T>)
    requires k <= |s|
    ensures |r| == |s| + 1 && r[k] == x
    ensures forall i :: 0 <= i < k ==> r[i] == s[i]
    ensures forall i :: k < i < |r| ==> r[i] == s[i - 1]
  {
    seq(|s| + 1, i requires 0 <= i <= |s| => if i < k then s[i] else if i == k then x else s[i - 1])
  }

  /** s with position k unlinked. */
  function SplicedOut<T>(s: seq<T>, k: nat): (r: seq<T>)
    requires k < |s|
    ensures |r| == |s| - 1
    ensures forall i :: 0 <= i < k ==> r[i] == s[i]
    ensures forall i :: k <= i < |r| ==> r[i] == s[i + 1]
  {
    seq(|s| - 1, i requires 0 <= i < |s| - 1 => if i < k then s[i] else s[i + 1])
  }

  // ----- the host list -----

  lemma PlaceExists(paths: seq<Path>, p: Path) returns (k: nat)
    ensures k <= |paths| && PlacedAt(paths, p, k)
  {
    var prev, next := -1, 0;
    for i := 0 to |paths|
      invariant -1 <= prev && (prev < i || prev == -1)
      invariant prev >= 0 ==> p < paths[prev]
      invariant forall j :: prev < j < i ==> !(p < paths[j])
      invariant 0 <= next && (next < i || next == 0)
      invariant next > 0 ==> paths[next] < p
      invariant forall j :: 0 < j < i && (next == 0 || j < next) ==> !(paths[j] < p)
      invariant p !in paths[..i]
    {
      if paths[i] == p {
        return i + 1;
      }
      if p < paths[i] { prev := i; }
      if paths[i] < p && next == 0 { next := i; }
    }
    return if prev >= 0 then prev + 1 else next;
  }

  lemma SomePlace(paths: seq<Path>, p: Path)
    ensures exists k: nat :: k <= |paths| && PlacedAt(paths, p, k)
  {
    var _ := PlaceExists(paths, p);
  }

  lemma InPrefix<T>(s: seq<T>, i: nat, n: nat)
    requires i < n <= |s|
    ensures s[i] in s[..n]
  {
    assert s[..n][i] == s[i];
  }

  lemma PlaceUnique(paths: seq<Path>, p: Path, j: nat, k: nat)
    requires PlacedAt(paths, p, j) && PlacedAt(paths, p, k)
    ensures j == k
  {}

  /** The host list with b linked where it goes. */
  ghost function HostInserted(list: seq<Binding>, b: Binding): seq<Binding> {
    SomePlace(Keys(Host, list), b.host);
    var k: nat :| k <= |list| && PlacedAt(Keys(Host, list), b.host, k);
    SplicedIn(list, k, b)
  }

  lemma LinkIsPlaced(list: seq<Binding>, k: nat, b: Binding)
    requires MayLink(list, k, b.guest)
    ensures GuestPlaced(list, SplicedIn(list, k, b), b)
  {}

  lemma CoverIsPlaced(list: seq<Binding>, k: nat, b: Binding)
    requires k < |list| && FirstEqual(Keys(Guest, list), b.guest, k)
    ensures GuestPlaced(list, list[k := b], b)
  {}

  lemma InsertedIsPlaced(list: seq<Binding>, b: Binding)
    ensures HostPlaced(list, HostInserted(list, b), b)
  {
    var k := PlaceExists(Keys(Host, list), b.host);
    InsertedAt(list, b, k);
  }

  lemma InsertedAt(list: seq<Binding>, b: Binding, k: nat)
    requires k <= |list| && PlacedAt(Keys(Host, list), b.host, k)
    ensures HostInserted(list, b) == SplicedIn(list, k, b)
  {
    forall j: nat | j <= |list| && PlacedAt(Keys(Host, list), b.host, j) ensures j == k {
      PlaceUnique(Keys(Host, list), b.host, j, k);
    }
  }

  /** The list without the first entry b. */
  function Unlisted(list: seq<Binding>, b: Binding): seq<Binding> {
    if |list| == 0 then []
    else if list[0] == b then list[1..]
    else [list[0]] + Unlisted(list[1..], b)
  }

  lemma {:induction false} FirstOf(list: seq<Binding>, b: Binding) returns (k: nat)
    requires b in list
    ensures k < |list| && list[k] == b && b !in list[..k]
  {
    k := 0;
    if list[0] != b {
      var j := FirstOf(list[1..], b);
      k := j + 1;
      assert list[..k] == [list[0]] + list[1..][..j];
    }
  }

  lemma {:induction false} UnlistedAt(list: seq<Binding>, b: Binding, k: nat)
    requires k < |list| && list[k] == b && b !in list[..k]
    ensures Unlisted(list, b) == SplicedOut(list, k)
  {
    if k > 0 {
      var rest := list[1..];
      InPrefix(list, 0, k);
      assert list[..k] == [list[0]] + rest[..k - 1];
      UnlistedAt(rest, b, k - 1);
      assert SplicedOut(list, k) == [list[0]] + SplicedOut(rest, k - 1);
    }
  }

  function HostRemoved(m: View, host: seq<Binding>, b: Binding): seq<Binding> {
    if b.guest in m && m[b.guest] == b then Unlisted(host, b) else host
  }

  /** Without whatever is bound at g. */
  function HostWithout(m: View, host: seq<Binding>, g: Path): seq<Binding> {
    if g in m then Unlisted(host, m[g]) else host
  }

  /** The host list after b is bound: what it covers goes, b comes in its place. */
  ghost function HostMounted(m: View, host: seq<Binding>, b: Binding): seq<Binding> {
    HostInserted(HostWithout(m, host, b.guest), Covering(m, b))
  }

  /** And after the top binding of g is taken off: what it covered comes back. */
  ghost function HostUncovered(m: View, host: seq<Binding>, g: Path): seq<Binding>
    requires g in m
  {
    match m[g].covered
    case None => Unlisted(host, m[g])
    case Some(c) => HostInserted(Unlisted(host, m[g]), c)
  }

  lemma SplicedInMultiset<T>(s: seq<T>, k: nat, x: T)
    requires k <= |s|
    ensures multiset(SplicedIn(s, k, x)) == multiset(s) + multiset{x}
  {
    assert s == s[..k] + s[k..];
    assert SplicedIn(s, k, x) == s[..k] + [x] + s[k..];
  }

  lemma SplicedOutMultiset<T>(s: seq<T>, k: nat)
    requires k < |s|
    ensures multiset(SplicedOut(s, k)) == multiset(s) - multiset{s[k]}
  {
    assert s == s[..k] + [s[k]] + s[k + 1..];
    assert SplicedOut(s, k) == s[..k] + s[k + 1..];
  }

  lemma SplicedInMembers<T>(s: seq<T>, k: nat, x: T)
    requires k <= |s|
    ensures forall y :: y in SplicedIn(s, k, x) <==> y in s || y == x
  {
    var r := SplicedIn(s, k, x);
    forall y | y in s ensures y in r {
      var i :| 0 <= i < |s| && s[i] == y;
      assert r[if i < k then i else i + 1] == y;
    }
    assert r[k] == x;
  }

  lemma InsertRepresents(list: seq<Binding>, m: View, k: nat, b: Binding)
    requires Represents(list, m) && k <= |list| && b.guest !in m && WellFormed(b)
    ensures Represents(SplicedIn(list, k, b), m[b.guest := b])
  {
    SplicedInMembers(list, k, b);
    assert forall i :: 0 <= i < |list| ==> list[i] in list;
  }

  lemma LinkKeepsRootLast(list: seq<Binding>, k: nat, b: Binding)
    requires RootLast(list) && k <= |list| && (b.guest == [] ==> k == |list|)
    requires forall i :: 0 <= i < |list| ==> list[i].guest != b.guest
    requires list != [] && list[|list| - 1].guest == [] && b.guest != [] ==> k < |list|
    ensures RootLast(SplicedIn(list, k, b))
  {
    var l := SplicedIn(list, k, b);
    forall i | 0 <= i < |l| - 1 ensures l[i].guest != [] {
      if i < k && i == |list| - 1 { assert l[i] == list[|list| - 1]; }
    }
  }

  lemma LinkedList(list: seq<Binding>, m: View, k: nat, b: Binding)
    requires Represents(list, m) && RootLast(list) && b.guest !in m && WellFormed(b)
    requires k <= |list| && (b.guest == [] ==> k == |list|)
    requires list != [] && list[|list| - 1].guest == [] && b.guest != [] ==> k < |list|
    ensures var l := SplicedIn(list, k, b);
            Represents(l, m[b.guest := b]) && RootLast(l) && multiset(l) == multiset(list) + multiset{b}
  {
    SplicedInMultiset(list, k, b);
    InsertRepresents(list, m, k, b);
    assert forall i :: 0 <= i < |list| ==> list[i] in list;
    LinkKeepsRootLast(list, k, b);
  }

  lemma ReplaceRepresents(list: seq<Binding>, m: View, k: nat, b: Binding)
    requires Represents(list, m) && k < |list| && b.guest == list[k].guest && WellFormed(b)
    ensures Represents(list[k := b], m[b.guest := b])
  {
    var l := list[k := b];
    var m' := m[b.guest := b];
    forall x | x in l ensures x.guest in m' && m'[x.guest] == x && WellFormed(x) {
      var i :| 0 <= i < |l| && l[i] == x;
      if i != k { assert list[i] in list; }
    }
    forall p | p in m' ensures m'[p] in l && m'[p].guest == p {
      if p == b.guest {
        assert l[k] == b;
      } else {
        var i :| 0 <= i < |list| && list[i] == m[p];
        assert l[i] == m[p];
      }
    }
  }

  lemma SplicedOutMembers(list: seq<Binding>, k: nat)
    requires Distinct(list) && k < |list|
    ensures Distinct(SplicedOut(list, k))
    ensures forall x :: x in SplicedOut(list, k) <==> x in list && x.guest != list[k].guest
  {
    var l := SplicedOut(list, k);
    forall x | x in list && x.guest != list[k].guest ensures x in l {
      var i :| 0 <= i < |list| && list[i] == x;
      assert l[if i < k then i else i - 1] == x;
    }
  }

  lemma RemoveRepresents(list: seq<Binding>, m: View, k: nat)
    requires Represents(list, m) && k < |list|
    ensures list[k].guest in m && m[list[k].guest] == list[k]
    ensures Represents(SplicedOut(list, k), m - {list[k].guest})
  {
    SplicedOutMembers(list, k);
    assert list[k] in list;
  }

  lemma SubMembers(a: seq<Binding>, b: Binding, c: seq<Binding>)
    requires multiset(c) == multiset(a) + multiset{b}
    ensures forall i :: 0 <= i < |a| ==> a[i] in c
    ensures b in c
  {
    forall x | x in a ensures x in c {
      assert x in multiset(c);
    }
    assert b in multiset(c);
  }

  lemma LinkedMember(list: seq<Binding>, other: seq<Binding>, m: View, b: Binding)
    requires Represents(list, m) && multiset(other) == multiset(list)
    ensures b in other <==> b in list
    ensures b in list <==> b.guest in m && m[b.guest] == b
  {
    assert b in multiset(other) <==> b in multiset(list);
  }

  lemma SameMembers(a: seq<Binding>, b: seq<Binding>)
    requires multiset(a) == multiset(b)
    ensures forall x :: x in a <==> x in b
  {
    forall x ensures x in a <==> x in b {
      assert x in multiset(a) <==> x in multiset(b);
    }
  }

  /** insort_binding never links anything behind "/", and "/" itself goes last. */
  lemma PositionKeepsRootLast(paths: seq<Path>, p: Path, k: nat)
    requires k <= |paths| && InsertPosition(paths, p, k) && p !in paths
    ensures p == [] ==> k == |paths|
    ensures p != [] && paths != [] && paths[|paths| - 1] == [] ==> k < |paths|
  {
    if p == [] && paths != [] {
      assert forall i :: 0 <= i < |paths| ==> paths[i] != [] && [] < paths[i];
      assert [] < paths[|paths| - 1];
      assert HasBelow(paths, p, 0);
      assert k < |paths| ==> HasBelow(paths, p, k);
    } else if p != [] && paths != [] && paths[|paths| - 1] == [] {
      assert !(p < paths[|paths| - 1]);
    }
  }

  method InsertDescending(list: seq<Binding>, b: Binding, key: Binding -> nat) returns (r: seq<Binding>)
    requires Descending(list, key)
    ensures multiset(r) == multiset(list) + multiset{b} && Descending(r, key)
  {
    var k := 0;
    while k < |list| && key(list[k]) >= key(b)
      invariant 0 <= k <= |list|
      invariant forall j :: 0 <= j < k ==> key(list[j]) >= key(b)
    {
      k := k + 1;
    }
    SplicedInMultiset(list, k, b);
    r := SplicedIn(list, k, b);
  }

  /** qsort: any order of entries with equal keys would do. */
  method SortDescending(list: seq<Binding>, key: Binding -> nat) returns (sorted: seq<Binding>)
    ensures multiset(sorted) == multiset(list) && Descending(sorted, key)
  {
    sorted := [];
    for i := 0 to |list|
      invariant multiset(sorted) == multiset(list[..i])
      invariant Descending(sorted, key)
    {
      sorted := InsertDescending(sorted, list[i], key);
      assert list[..i + 1] == list[..i] + [list[i]];
    }
    assert list[..|list|] == list;
  }

  method SortByDescLength(list: seq<Binding>) returns (sorted: seq<Binding>)
    ensures multiset(sorted) == multiset(list) && SortedByLength(sorted)
  {
    sorted := SortDescending(list, (b: Binding) => Length(b.guest));
  }

  // ----- host-side scan -----

  /** The first binding of the host list whose host path is a prefix. */
  function HostScan(list: seq<Binding>, p: Path): Option<Binding> {
    if |list| == 0 then None
    else if list[0].host <= p then Some(list[0])
    else HostScan(list[1..], p)
  }

  lemma {:induction false} HostScanAt(list: seq<Binding>, p: Path, i: nat)
    requires i <= |list| && forall j :: 0 <= j < i ==> !(list[j].host <= p)
    ensures i < |list| && list[i].host <= p ==> HostScan(list, p) == Some(list[i])
    ensures i == |list| ==> HostScan(list, p) == None
  {
    if i > 0 {
      HostScanAt(list[1..], p, i - 1);
    }
  }

  lemma {:induction false} HostScanConcat(a: seq<Binding>, c: seq<Binding>, p: Path)
    ensures HostScan(a + c, p) == if HostScan(a, p).Some? then HostScan(a, p) else HostScan(c, p)
  {
    if |a| == 0 {
      assert a + c == c;
    } else {
      assert (a + c)[1..] == a[1..] + c;
      HostScanConcat(a[1..], c, p);
    }
  }

  lemma {:induction false} HostScanFinds(list: seq<Binding>, p: Path, i: nat)
    requires i < |list| && list[i].host <= p
    ensures HostScan(list, p).Some?
  {
    if !(list[0].host <= p) { HostScanFinds(list[1..], p, i - 1); }
  }

  /** What the host side answers once b is linked: an entry before b's place goes
      on answering, and b answers what is left. */
  lemma HostScanPlaced(list: seq<Binding>, b: Binding, p: Path, k: nat)
    requires k <= |list| && PlacedAt(Keys(Host, list), b.host, k)
    ensures HostScan(HostInserted(list, b), p) ==
            if HostScan(list[..k], p).Some? || !(b.host <= p) then HostScan(list, p) else Some(b)
    ensures HostScan(list, p).None? ==> HostScan(list[..k], p).None?
  {
    InsertedAt(list, b, k);
    assert SplicedIn(list, k, b) == list[..k] + ([b] + list[k..]) && list == list[..k] + list[k..];
    HostScanConcat(list[..k], [b] + list[k..], p);
    HostScanConcat(list[..k], list[k..], p);
    HostScanConcat([b], list[k..], p);
  }

  /** An older entry of the same host path answers wherever it did before, and so
      does one that is more specific; where nothing answered, the new one does. */
  lemma HostScanInserted(list: seq<Binding>, b: Binding, p: Path)
    ensures var was, now := HostScan(list, p), HostScan(HostInserted(list, b), p);
            && (now == was || now == Some(b))
            && ((exists x :: x in list && x.host == b.host) || !(b.host <= p) ==> now == was)
            && (was.Some? && b.host < was.value.host ==> now == was)
            && (was.None? && b.host <= p ==> now == Some(b))
  {
    var k := PlaceExists(Keys(Host, list), b.host);
    HostScanPlaced(list, b, p, k);
    if b.host <= p {
      if exists x :: x in list && x.host == b.host {
        EqualComesFirst(list, b, p, k);
      }
      if HostScan(list, p).Some? && b.host < HostScan(list, p).value.host {
        LongerComesFirst(list, b, p, k);
      }
    }
  }

  lemma EqualComesFirst(list: seq<Binding>, b: Binding, p: Path, k: nat)
    requires k <= |list| && PlacedAt(Keys(Host, list), b.host, k) && b.host <= p
    requires exists x :: x in list && x.host == b.host
    ensures HostScan(list[..k], p).Some?
  {
    var paths := Keys(Host, list);
    var i :| 0 <= i < |list| && list[i].host == b.host;
    assert paths[i] == b.host && b.host in paths;
    HostScanFinds(list[..k], p, k - 1);
  }

  lemma LongerComesFirst(list: seq<Binding>, b: Binding, p: Path, k: nat)
    requires k <= |list| && PlacedAt(Keys(Host, list), b.host, k) && b.host <= p
    requires HostScan(list, p).Some? && b.host < HostScan(list, p).value.host
    ensures HostScan(list[..k], p).Some?
  {
    var paths := Keys(Host, list);
    HostScanMember(list, p);
    if b.host in paths {
      HostScanFinds(list[..k], p, k - 1);
    } else {
      var i :| 0 <= i < |list| && list[i] == HostScan(list, p).value;
      assert b.host < paths[i] && HasBelow(paths, b.host, 0);
      assert i >= k ==> HasBelow(paths, b.host, k);
      HostScanFinds(list[..k], p, i);
    }
  }

  /** With no entry at or below its host path, a new binding answers everything below
      it, unless the first entry of the list and some later one are both above it:
      then it is linked behind the first one, which goes on answering. */
  lemma NewAnswersExactly(list: seq<Binding>, b: Binding, p: Path)
    requires b.host <= p && forall x :: x in list ==> !(b.host <= x.host)
    ensures HostScan(HostInserted(list, b), p) == Some(b) <==>
            !(list != [] && list[0].host < b.host && exists i :: 0 < i < |list| && list[i].host < b.host)
  {
    var paths := Keys(Host, list);
    var k := PlaceExists(paths, b.host);
    HostScanPlaced(list, b, p, k);
    assert b.host !in paths && !HasBelow(paths, b.host, 0) by {
      forall i | 0 <= i < |paths| ensures !(b.host <= paths[i]) { assert list[i] in list; }
    }
    if exists i :: 0 < i < |list| && list[i].host < b.host {
      var i :| 0 < i < |list| && list[i].host < b.host;
      assert paths[i] < b.host && HasAbove(paths, b.host, |paths|);
      FirstAlone(list, b, p, k);
    } else {
      assert !HasAbove(paths, b.host, |paths|) by {
        forall i | 0 < i < |paths| ensures !(paths[i] < b.host) { assert paths[i] == list[i].host; }
      }
      assert k == 0 && list[..0] == [];
      HostScanMember(list, p);
      assert b !in list;
    }
  }

  /** Of the entries before the place only the first can cover a path below b. */
  lemma FirstAlone(list: seq<Binding>, b: Binding, p: Path, k: nat)
    requires 0 < k < |list| && b.host <= p && forall x :: x in list ==> !(b.host <= x.host)
    requires !HasAbove(Keys(Host, list), b.host, k)
    ensures HostScan(list[..k], p).Some? <==> list[0].host < b.host
    ensures HostScan(list, p) != Some(b)
  {
    var paths, before := Keys(Host, list), list[..k];
    HostScanMember(list, p);
    HostScanMember(before, p);
    assert list[0] in list && before[0] == list[0];
    if list[0].host < b.host { HostScanFinds(before, p, 0); }
    if HostScan(before, p).Some? {
      var x := HostScan(before, p).value;
      var i :| 0 <= i < |before| && before[i] == x;
      assert list[i] in list;
      PrefixesCompare(x.host, b.host, p);
      NotAbove(paths, b.host, k, i);
      assert paths[i] == x.host;
    }
    assert b !in list;
  }

  lemma NotAbove(paths: seq<Path>, p: Path, k: nat, i: nat)
    requires !HasAbove(paths, p, k) && i < k <= |paths|
    ensures i > 0 ==> !(paths[i] < p)
  {}

  lemma PrefixesCompare(a: Path, b: Path, p: Path)
    requires a <= p && b <= p
    ensures a <= b || b <= a
  {
    assert |a| <= |b| ==> b[..|a|] == p[..|a|];
    assert |b| <= |a| ==> a[..|b|] == p[..|b|];
  }

  /** Taking an entry off changes only what it answered itself. */
  lemma {:induction false} HostScanUnlisted(list: seq<Binding>, x: Binding, p: Path)
    ensures HostScan(list, p) != Some(x) ==> HostScan(Unlisted(list, x), p) == HostScan(list, p)
  {
    if |list| > 0 && list[0] != x {
      HostScanUnlisted(list[1..], x, p);
      assert Unlisted(list, x)[1..] == Unlisted(list[1..], x);
    }
  }

  /** After a bind every host path whose answer was not hidden by it is found where
      it was, as long as an older entry of the bound host path is there, or the
      answer is more specific, or the bound host path does not cover it. */
  lemma MountKeepsHostAnswers(m: View, host: seq<Binding>, b: Binding, p: Path)
    requires b.guest in m ==> HostScan(host, p) != Some(m[b.guest])
    requires (exists x :: x in HostWithout(m, host, b.guest) && x.host == b.host) || !(b.host <= p)
             || (HostScan(host, p).Some? && b.host < HostScan(host, p).value.host)
    ensures Detranslated(HostMounted(m, host, b), p) == Detranslated(host, p)
  {
    if b.guest in m { HostScanUnlisted(host, m[b.guest], p); }
    HostScanInserted(HostWithout(m, host, b.guest), Covering(m, b), p);
  }

  /** A mount of a path where nothing was bound, and its umount, leave the host
      list as it was. */
  lemma HostUmountUndoesMount(m: View, host: seq<Binding>, b: Binding)
    requires b.guest !in m && b !in host && b.covered.None?
    ensures HostUncovered(Inserted(m, b), HostMounted(m, host, b), b.guest) == host
  {
    var k := PlaceExists(Keys(Host, host), b.host);
    InsertedAt(host, b, k);
    UnlistedSplice(host, b, k);
  }

  lemma UnlistedSplice(list: seq<Binding>, b: Binding, k: nat)
    requires k <= |list| && b !in list
    ensures Unlisted(SplicedIn(list, k, b), b) == list
  {
    var l := SplicedIn(list, k, b);
    assert l[k] == b && l[..k] == list[..k];
    UnlistedAt(l, b, k);
    assert SplicedOut(l, k) == list;
  }

  /** Over a bound path they do so exactly when the hidden binding stood where it is
      put when it comes back. */
  lemma HostRestoredExactly(m: View, host: seq<Binding>, b: Binding, i: nat)
    requires b.guest in m && b !in host && b.covered.None? && i < |host| && host[i] == m[b.guest] && m[b.guest].guest == b.guest
    requires forall j :: 0 <= j < |host| && host[j] == m[b.guest] ==> j == i
    requires Covering(m, b) !in host
    ensures HostUncovered(Inserted(m, b), HostMounted(m, host, b), b.guest) == host <==>
            PlacedAt(Keys(Host, SplicedOut(host, i)), m[b.guest].host, i)
  {
    var hidden, rest, top := m[b.guest], SplicedOut(host, i), Covering(m, b);
    assert hidden !in host[..i];
    UnlistedAt(host, hidden, i);
    assert Unlisted(host, hidden) == rest;
    assert forall x :: x in rest ==> x in host;
    var k := PlaceExists(Keys(Host, rest), top.host);
    InsertedAt(rest, top, k);
    UnlistedSplice(rest, top, k);
    var j := PlaceExists(Keys(Host, rest), hidden.host);
    InsertedAt(rest, hidden, j);
    if PlacedAt(Keys(Host, rest), hidden.host, i) {
      PlaceUnique(Keys(Host, rest), hidden.host, i, j);
      assert SplicedIn(rest, i, hidden) == host;
    } else {
      assert SplicedIn(rest, j, hidden)[j] == hidden;
    }
  }

  /** Two paths bound to one host path: while the first is mounted over, the second
      takes its place on the host list, and keeps it after the umount. */
  lemma MountAndUmountReorder()
    ensures var x, y := Binding(["h"], ["a"], MountNone, None), Binding(["h"], ["b"], MountNone, None);
            var z := Binding(["z"], ["a"], MountNone, None);
            var host, m: View := [x, y], map[["a"] := x, ["b"] := y];
            var after := HostUncovered(Inserted(m, z), HostMounted(m, host, z), ["a"]);
            && Uncovered(Inserted(m, z), ["a"]) == m
            && Detranslated(host, ["h", "f"]) == Some(["a", "f"]) && Detranslated(after, ["h", "f"]) == Some(["b", "f"])
  {
    var x, y := Binding(["h"], ["a"], MountNone, None), Binding(["h"], ["b"], MountNone, None);
    var z := Binding(["z"], ["a"], MountNone, None);
    var host, m: View := [x, y], map[["a"] := x, ["b"] := y];
    var top := Covering(m, z);
    assert host[1..] == [y] && Unlisted(host, x) == [y];
    assert Keys(Host, [y]) == [["h"]];
    assert PlacedAt([["h"]], ["z"], 0);
    InsertedAt([y], top, 0);
    assert SplicedIn([y], 0, top) == [top, y];
    assert [top, y][1..] == [y] && Unlisted([top, y], top) == [y];
    assert [["h"]][..0] == [];
    assert PlacedAt([["h"]], ["h"], 1);
    InsertedAt([y], x, 1);
    assert SplicedIn([y], 1, x) == [y, x];
    assert ["h", "f"][1..] == ["f"] && ["a"] + ["f"] == ["a", "f"] && ["b"] + ["f"] == ["b", "f"];
    assert Inserted(m, z)[["a"]] == top && top.covered == Some(x);
  }

  /** Among entries sorted by length, whatever order the list had, the first
      match is the longest prefix. */
  lemma FirstMatchIsLongest(entries: seq<Binding>, m: View, path: Path, i: nat)
    requires IsPath(path) && Keyed(m) && SortedByLength(entries) && i < |entries|
    requires forall b :: b in entries <==> b.guest in m && m[b.guest] == b
    requires entries[i].guest <= path && forall j :: 0 <= j < i ==> !(entries[j].guest <= path)
    ensures Lookup(m, path) == Some(entries[i])
  {
    var b := entries[i];
    assert b in entries;
    LookupCovers(m, path, b.guest);
    var best := Lookup(m, path).value;
    assert best in entries;
    NoneIsLonger(entries, path, i, best);
  }

  lemma NoneIsLonger(entries: seq<Binding>, path: Path, i: nat, best: Binding)
    requires SortedByLength(entries) && i < |entries| && best in entries && IsPath(best.guest)
    requires forall j :: 0 <= j < i ==> !(entries[j].guest <= path)
    requires entries[i].guest <= best.guest <= path
    ensures best.guest == entries[i].guest
  {
    var j :| 0 <= j < |entries| && entries[j] == best;
    PrefixAsLong(entries[i].guest, best.guest);
  }

  lemma NoMatchIsNone(entries: seq<Binding>, m: View, path: Path)
    requires Keyed(m) && forall b :: b in entries <==> b.guest in m && m[b.guest] == b
    requires forall i :: 0 <= i < |entries| ==> !(entries[i].guest <= path)
    ensures Lookup(m, path) == None
  {
    LookupIsLongestPrefix(m, path);
    forall g | g in m ensures !(g <= path) {
      var i :| 0 <= i < |entries| && entries[i] == m[g];
    }
  }

  method MatchesEntry(entry: Path, path: Path) returns (matches: bool)
    requires IsPath(entry) && IsPath(path)
    ensures matches <==> entry <= path
  {
    EntryMatchesRendered(entry, path);
    matches := EntryMatches(Render(entry), Render(path));
  }

  /** The cached scan. */
  method ScanEntries(entries: seq<Binding>, ghost m: View, path: Path) returns (r: Option<Binding>)
    requires IsPath(path) && Keyed(m) && SortedByLength(entries)
    requires forall b :: b in entries <==> b.guest in m && m[b.guest] == b
    ensures r == Lookup(m, path)
  {
    for i := 0 to |entries|
      invariant forall j :: 0 <= j < i ==> !(entries[j].guest <= path)
    {
      assert entries[i] in entries;
      var matches := MatchesEntry(entries[i].guest, path);
      if matches {
        FirstMatchIsLongest(entries, m, path, i);
        return Some(entries[i]);
      }
    }
    NoMatchIsNone(entries, m, path);
    return None;
  }

  method ComparesAsPrefix(prefix: Path, path: Path) returns (covers: bool)
    requires IsPath(prefix) && IsPath(path)
    ensures covers <==> prefix <= path
  {
    CompareRendered(prefix, path);
    var cmp := ComparePaths(Render(prefix), Render(path));
    covers := cmp == PathsAreEqual || cmp == Path1IsPrefix;
  }

  /** The uncached scan of get_binding: the first entry that covers the path. */
  method ScanList(side: Side, list: seq<Binding>, path: Path) returns (r: Option<Binding>)
    requires IsPath(path) && forall b :: b in list ==> WellFormed(b)
    ensures r.None? ==> forall b :: b in list ==> !(Key(side, b) <= path)
    ensures r.Some? ==> r.value in list && Key(side, r.value) <= path
    ensures side.Host? ==> r == HostScan(list, path)
  {
    for i := 0 to |list|
      invariant forall j :: 0 <= j < i ==> !(Key(side, list[j]) <= path)
    {
      var b := list[i];
      assert b in list;
      var covers := ComparesAsPrefix(Key(side, b), path);
      if covers {
        if side == Host { HostScanAt(list, path, i); }
        return Some(b);
      }
    }
    if side == Host { HostScanAt(list, path, |list|); }
    return None;
  }

  /** Where a host path shows up in the guest tree, in host-list order. */
  function Detranslated(list: seq<Binding>, p: Path): Option<Path> {
    match HostScan(list, p)
    case None => None
    case Some(b) => Some(b.guest + DropHost(b, p))
  }

  function DropHost(b: Binding, p: Path): Path {
    if b.host <= p then p[|b.host|..] else []
  }

  /** detranslate undoes translate whenever the host scan picks the binding the
      guest lookup picked. */
  lemma DetranslateUndoesTranslate(m: View, hostList: seq<Binding>, p: Path)
    requires Keyed(m) && Lookup(m, p).Some?
    requires var b := Lookup(m, p).value; HostScan(hostList, b.host + DropGuest(b, p)) == Some(b)
    ensures Translate(m, p).Some? && Detranslated(hostList, Translate(m, p).value) == Some(p)
  {
    TranslateSubstitutes(m, p);
    var b := Lookup(m, p).value;
    assert (b.host + p[|b.guest|..])[|b.host|..] == p[|b.guest|..];
    assert b.guest + p[|b.guest|..] == p;
  }

  function DropGuest(b: Binding, p: Path): Path {
    if b.guest <= p then p[|b.guest|..] else []
  }

  lemma FoundBinding(side: Side, m: View, hostList: seq<Binding>, path: Path)
    requires Keyed(m)
    ensures side.Guest? ==>
              match Lookup(m, path)
              case None => Translate(m, path) == None
              case Some(b) => b.guest in m && m[b.guest] == b && b.guest <= path
                              && Translate(m, path) == Some(b.host + path[|b.guest|..])
    ensures side.Host? ==>
              match HostScan(hostList, path)
              case None => Detranslated(hostList, path) == None
              case Some(b) => b in hostList && b.host <= path
                              && Detranslated(hostList, path) == Some(b.guest + path[|b.host|..])
  {
    TranslateSubstitutes(m, path);
    LookupIsLongestPrefix(m, path);
    HostScanMember(hostList, path);
  }

  /** The rewriting half of substitute_binding: bindings whose two sides are
      equal need none, which is what keeps "/" from being rewritten to "/". */
  function SubstitutePrefix(side: Side, b: Binding, path: Path): (r: string)
    requires WellFormed(b) && IsPath(path) && Key(side, b) <= path
    ensures r == Render((if side.Guest? then b.host else b.guest) + path[|Key(side, b)|..])
  {
    var orig, repl := Key(side, b), if side == Guest then b.host else b.guest;
    assert orig + path[|orig|..] == path;
    SubstituteRendered(orig, repl, path[|orig|..]);
    if Compare(Render(b.host), Render(b.guest)) == PathsAreEqual then
      CompareRendered(b.host, b.guest);
      Render(path)
    else
      CompareRendered(b.host, b.guest);
      Substituted(Render(path), Length(orig), Render(repl))
  }

  lemma GuestKeys(list: seq<Binding>, m: View)
    requires Represents(list, m)
    ensures forall i :: 0 <= i < |list| ==> list[i] in list && IsPath(list[i].guest)
    ensures forall p :: p in m <==> p in Keys(Guest, list)
  {
    var paths := Keys(Guest, list);
    forall p | p in m ensures p in paths {
      var i :| 0 <= i < |list| && list[i] == m[p];
      assert paths[i] == p;
    }
  }

  method FindHostPlace(list: seq<Binding>, b: Binding) returns (k: nat)
    requires IsPath(b.host) && forall i :: 0 <= i < |list| ==> WellFormed(list[i])
    ensures k <= |list| && PlacedAt(Keys(Host, list), b.host, k)
  {
    var equal: bool;
    k, equal := FindPlace(Keys(Host, list), b.host);
    if equal {
      k := k + 1;
    }
  }

  /** The list with b linked. */
  method LinkedHost(list: seq<Binding>, b: Binding) returns (r: seq<Binding>)
    requires IsPath(b.host) && forall i :: 0 <= i < |list| ==> WellFormed(list[i])
    ensures r == HostInserted(list, b) && HostPlaced(list, r, b) && multiset(r) == multiset(list) + multiset{b}
  {
    var k := FindHostPlace(list, b);
    r := SplicedIn(list, k, b);
    InsertedAt(list, b, k);
    InsertedIsPlaced(list, b);
    SplicedInMultiset(list, k, b);
  }

  /** A path that is not in the list is linked at k, and "/" stays the last one. */
  ghost predicate MayLink(list: seq<Binding>, k: nat, g: Path) {
    && k <= |list| && (g == [] ==> k == |list|)
    && (g != [] && list != [] && list[|list| - 1].guest == [] ==> k < |list|)
    && g !in Keys(Guest, list) && InsertPosition(Keys(Guest, list), g, k)
  }

  /** The scan of the guest list. */
  method LocateGuest(list: seq<Binding>, ghost m: View, g: Path) returns (k: nat, equal: bool)
    requires Represents(list, m) && IsPath(g)
    ensures equal <==> g in m
    ensures equal ==> k < |list| && FirstEqual(Keys(Guest, list), g, k) && list[k].guest == g
    ensures !equal ==> MayLink(list, k, g)
  {
    GuestKeys(list, m);
    k, equal := FindPlace(Keys(Guest, list), g);
    if !equal { PositionKeepsRootLast(Keys(Guest, list), g, k); }
  }

  // ----- the mutable table -----

  class Namespace {
    ghost var view: View
    var guest: seq<Binding>
    var host: seq<Binding>
    var entries: seq<Binding>  // the sorted cache; empty when it has to be rebuilt
    var cachedRoot: Option<Path>

    ghost predicate GuestLinked()
      reads `view, `guest, `entries, `cachedRoot
    {
      var linked :=
        && Represents(guest, view)
        && RootLast(guest)
        && (entries != [] ==> multiset(entries) == multiset(guest) && SortedByLength(entries))
        && (cachedRoot.Some? ==>
              guest != [] && guest[|guest| - 1].guest == [] && cachedRoot.value == guest[|guest| - 1].host);
      linked
    }

    ghost predicate Linked()
      reads this
    {
      var linked := GuestLinked() && multiset(host) == multiset(guest);
      linked
    }

    /** Between two operations the table also has a root. */
    ghost predicate Valid()
      reads this
    {
      var valid := Linked() && [] in view;
      valid
    }

    /** A namespace that binds nothing but the root. */
    constructor (rootfs: Path)
      requires IsPath(rootfs)
      ensures Valid() && view == map[[] := Binding(rootfs, [], MountNone, None)]
    {
      var root := Binding(rootfs, [], MountNone, None);
      view := map[[] := root];
      guest, host := [root], [root];
      entries, cachedRoot := [], None;
    }

    method InvalidateCache()
      requires GuestLinked()
      modifies this`entries, this`cachedRoot
      ensures GuestLinked() && entries == [] && cachedRoot == None
    {
      entries := [];
      cachedRoot := None;
    }

    method BuildGuestBindingCache()
      requires GuestLinked()
      modifies this`entries
      ensures GuestLinked() && (entries == [] <==> guest == [])
    {
      if |entries| > 0 {
        return;
      }
      entries := SortByDescLength(guest);
      assert |multiset(entries)| == |entries| && |multiset(guest)| == |guest|;
    }

    method FindBestPrefix(path: Path) returns (r: Option<Binding>)
      requires GuestLinked() && IsPath(path)
      modifies this`entries
      ensures GuestLinked() && r == Lookup(view, path)
    {
      if |entries| == 0 {
        BuildGuestBindingCache();
      }
      LookupIsLongestPrefix(view, path);
      if |entries| == 0 {
        return None;
      }
      SameMembers(entries, guest);
      r := ScanEntries(entries, view, path);
    }

    method GetBinding(side: Side, path: Path) returns (r: Option<Binding>)
      requires Linked() && IsPath(path)
      modifies this`entries
      ensures Linked()
      ensures side.Guest? ==> r == Lookup(view, path)
      ensures side.Host? ==> r == HostScan(host, path)
    {
      if side == Guest {
        r := FindBestPrefix(path);
        if r.Some? {
          return;
        }
      }
      LookupIsLongestPrefix(view, path);
      SameMembers(host, guest);
      r := ScanList(side, if side == Guest then guest else host, path);
    }

    method GetRoot() returns (r: Option<Path>)
      requires Linked()
      modifies this`cachedRoot
      ensures Linked() && r == HostAt(view, [])
    {
      if cachedRoot.Some? {
        assert guest[|guest| - 1] in guest;
        return cachedRoot;
      }
      if |guest| == 0 {
        return None;
      }
      var last := guest[|guest| - 1];
      assert last in guest;
      CompareRendered(last.guest, []);
      var cmp := ComparePaths(Render(last.guest), "/");
      if cmp != PathsAreEqual {
        return None;
      }
      cachedRoot := Some(last.host);
      return cachedRoot;
    }

    /** substitute_binding on the spelling of a path.  None is -ENOENT. */
    method SubstituteBinding(side: Side, path: Path) returns (r: Option<string>)
      requires Linked() && IsPath(path)
      modifies this`entries
      ensures Linked()
      ensures var target := if side.Guest? then Translate(view, path) else Detranslated(host, path);
              (r.None? <==> target.None?) && (r.Some? ==> r.value == Render(target.value))
    {
      var found := GetBinding(side, path);
      if found.None? {
        TranslateSubstitutes(view, path);
        return None;
      }
      var b := found.value;
      FoundBinding(side, view, host, path);
      SameMembers(host, guest);
      r := Some(SubstitutePrefix(side, b, path));
    }

    /** detranslate_path without a referrer.  None is -EPERM. */
    method DetranslatePath(path: Path) returns (r: Option<string>)
      requires Valid() && IsPath(path)
      modifies this`entries, this`cachedRoot
      ensures Valid()
      ensures var target := Detranslated(host, path);
              (r.None? <==> target.None?) && (r.Some? ==> r.value == Render(target.value))
    {
      r := SubstituteBinding(Host, path);
      if r.Some? {
        return;
      }
      var root := GetRoot();
      HostScanNone(host, path);
      SameMembers(host, guest);
      CompareRendered(root.value, path);
      var cmp := ComparePaths(Render(root.value), Render(path));
      if cmp == Path1IsPrefix || cmp == PathsAreEqual {
        assert false;
      }
    }

    method UnlinkHost(b: Binding)
      requires b in host
      modifies this`host
      ensures multiset(host) == multiset(old(host)) - multiset{b}
      ensures host == Unlisted(old(host), b)
    {
      ghost var first := FirstOf(host, b);
      var k :| 0 <= k < |host| && host[k] == b && b !in host[..k];
      UnlistedAt(host, b, k);
      SplicedOutMultiset(host, k);
      host := SplicedOut(host, k);
    }

    method UnlinkGuest(b: Binding)
      requires GuestLinked() && b in guest && entries == [] && cachedRoot == None
      modifies this`guest, this`view
      ensures GuestLinked() && view == old(view) - {b.guest}
      ensures multiset(guest) == multiset(old(guest)) - multiset{b}
    {
      var k :| 0 <= k < |guest| && guest[k] == b;
      SplicedOutMultiset(guest, k);
      RemoveRepresents(guest, view, k);
      guest := SplicedOut(guest, k);
      view := view - {b.guest};
    }

    method RemoveBindingFromAllLists(b: Binding)
      requires Linked()
      modifies this
      ensures Linked() && view == Removed(old(view), b) && entries == [] && cachedRoot == None
      ensures host == HostRemoved(old(view), old(host), b)
    {
      InvalidateCache();
      LinkedMember(guest, host, view, b);
      if b in guest {
        // every linked binding is on both lists
        UnlinkGuest(b);
        UnlinkHost(b);
      }
    }

    /** insort_binding on the guest side: a binding of the same path is covered
        and leaves both lists, its place going to the new one. */
    method InsortGuest(b: Binding) returns (linked: Binding)
      requires Linked() && WellFormed(b)
      modifies this
      ensures GuestLinked() && view == Inserted(old(view), b) && linked == view[b.guest] && linked in guest
      ensures multiset(guest) == multiset(host) + multiset{linked}
      ensures GuestPlaced(old(guest), guest, linked)
      ensures host == HostWithout(old(view), old(host), b.guest)
    {
      InvalidateCache();
      var k, equal := LocateGuest(guest, view, b.guest);
      ghost var was := guest;
      if equal {
        linked := CoverAt(k, b);
        CoverIsPlaced(was, k, linked);
      } else {
        linked := b;
        LinkGuestAt(k, b);
        LinkIsPlaced(was, k, b);
      }
    }

    method CoverAt(k: nat, b: Binding) returns (linked: Binding)
      requires Linked() && entries == [] && cachedRoot == None
      requires WellFormed(b) && k < |guest| && guest[k].guest == b.guest
      modifies this
      ensures GuestLinked() && b.guest in old(view) && view == Inserted(old(view), b) && linked == view[b.guest]
      ensures guest == old(guest)[k := linked]
      ensures host == HostWithout(old(view), old(host), b.guest)
      ensures multiset(guest) == multiset(host) + multiset{linked}
    {
      var hidden := guest[k];
      assert hidden in guest;
      SameMembers(host, guest);
      linked := b.(covered := Some(hidden));
      ReplaceRepresents(guest, view, k, linked);
      UnlinkHost(hidden);
      guest := guest[k := linked];
      view := view[b.guest := linked];
    }

    method LinkGuestAt(k: nat, b: Binding)
      requires Linked() && entries == [] && cachedRoot == None
      requires WellFormed(b) && b.guest !in view && MayLink(guest, k, b.guest)
      modifies this
      ensures GuestLinked() && view == old(view)[b.guest := b]
      ensures guest == SplicedIn(old(guest), k, b) && host == old(host)
      ensures multiset(guest) == multiset(host) + multiset{b}
    {
      LinkedList(guest, view, k, b);
      guest := SplicedIn(guest, k, b);
      view := view[b.guest := b];
    }

    /** insort_binding on the host side, where equal paths may pile up. */
    method InsortHost(b: Binding)
      requires GuestLinked() && WellFormed(b) && multiset(guest) == multiset(host) + multiset{b}
      modifies this`host
      ensures Linked()
      ensures HostPlaced(old(host), host, b) && host == HostInserted(old(host), b)
    {
      SubMembers(host, b, guest);
      host := LinkedHost(host, b);
    }

    method InsortBinding(b: Binding) returns (linked: Binding)
      requires Linked() && WellFormed(b)
      modifies this
      ensures Linked() && view == Inserted(old(view), b) && linked == view[b.guest]
      ensures host == HostMounted(old(view), old(host), b)
    {
      linked := InsortGuest(b);
      InsortHost(linked);
    }

    /** insort_binding4: a fresh binding, which covers nothing until inserted. */
    method Insort(hostPath: Path, guestPath: Path, kind: MountKind) returns (b: Binding)
      requires Linked() && IsPath(hostPath) && IsPath(guestPath)
      modifies this
      ensures Linked() && view == Mounted(old(view), hostPath, guestPath, kind)
      ensures host == HostMounted(old(view), old(host), Binding(hostPath, guestPath, kind, None))
    {
      b := InsortBinding(Binding(hostPath, guestPath, kind, None));
    }

    method CopyBinding(b: Binding, guestPath: Path) returns (copy: Binding)
      requires Linked() && WellFormed(b) && IsPath(guestPath)
      modifies this
      ensures Linked() && view == Mounted(old(view), b.host, guestPath, b.kind)
      ensures host == HostMounted(old(view), old(host), Binding(b.host, guestPath, b.kind, None))
    {
      copy := Insort(b.host, guestPath, b.kind);
    }

    method RemoveBindingAndRestoreCovered(b: Binding)
      requires Linked() && b in guest
      modifies this
      ensures Linked() && b.guest in old(view) && view == Uncovered(old(view), b.guest)
      ensures host == HostUncovered(old(view), old(host), b.guest)
    {
      var covered := b.covered;
      RemoveBindingFromAllLists(b);
      if covered.Some? {
        var _ := InsortBinding(covered.value);
      }
    }
  }

  lemma {:induction false} HostScanMember(list: seq<Binding>, p: Path)
    ensures HostScan(list, p).Some? ==> HostScan(list, p).value in list && HostScan(list, p).value.host <= p
  {
    if list != [] && !(list[0].host <= p) { HostScanMember(list[1..], p); }
  }

  lemma {:induction false} HostScanNone(list: seq<Binding>, p: Path)
    ensures HostScan(list, p).None? <==> forall b :: b in list ==> !(b.host <= p)
  {
    if |list| > 0 { HostScanNone(list[1..], p); }
  }
}
