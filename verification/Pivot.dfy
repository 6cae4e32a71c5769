/** pivot_root as src/syscall/enter.c emulates it: every binding below the new
    root moves up, every other one is copied below put_old and left behind. */
module Pivot {
  import opened Wrappers
  import opened Paths
  import opened Bindings
  import opened Mounts

  /** Where the old root shows up once put_old is seen from the new root. */
  function PutOldAfter(newRoot: Path, putOld: Path): Option<Path> {
    if newRoot < putOld then Some(putOld[|newRoot|..]) else None
  }

  /** Bindings the pivot takes away from where they were; a pivot to "/" takes none. */
  predicate AtOrUnder(newRoot: Path, g: Path) {
    newRoot != [] && newRoot <= g
  }

  function Copied(m: View, b: Binding, p: Path): View {
    Mounted(m, b.host, p, b.kind)
  }

  function PivotStep(m: View, b: Binding, newRoot: Path, putOld: Option<Path>): View {
    if b.guest == [] then m
    else if b.guest == newRoot then
      Removed(if putOld.Some? && b.covered.Some? then Copied(m, b.covered.value, putOld.value + b.guest) else m, b)
    else if AtOrUnder(newRoot, b.guest) then
      Removed(Copied(m, b, b.guest[|newRoot|..]), b)
    else if putOld.Some? && !(putOld.value <= b.guest) then
      Copied(m, b, putOld.value + b.guest)
    else m
  }

  function PivotFold(m: View, snapshot: seq<Binding>, newRoot: Path, putOld: Option<Path>): View
    decreases |snapshot|
  {
    if |snapshot| == 0 then m
    else PivotFold(PivotStep(m, snapshot[0], newRoot, putOld), snapshot[1..], newRoot, putOld)
  }

  /** The two roots are exchanged first. */
  function PivotStart(m: View, newRootHost: Path, putOld: Option<Path>): View
    requires [] in m
  {
    var root := m[[]];
    var swapped := Mounted(Removed(m, root), newRootHost, [], MountNone);
    if putOld.Some? then Mounted(swapped, root.host, putOld.value, MountNone) else swapped
  }

  /** The table after a pivot to newRoot, whose host path is given. */
  function PivotView(m: View, list: seq<Binding>, host: Path, newRoot: Path, putOld: Option<Path>): View
    requires [] in m
  {
    PivotFold(PivotStart(m, host, putOld), list, newRoot, putOld)
  }

  // ----- the same on the host list -----

  ghost function HostCopied(m: View, host: seq<Binding>, b: Binding, p: Path): seq<Binding> {
    HostMounted(m, host, Binding(b.host, p, b.kind, None))
  }

  ghost function HostPivotStep(m: View, host: seq<Binding>, b: Binding, newRoot: Path, putOld: Option<Path>): seq<Binding> {
    if b.guest == [] then host
    else if b.guest == newRoot then
      if putOld.Some? && b.covered.Some? then
        var c, p := b.covered.value, putOld.value + b.guest;
        HostRemoved(Copied(m, c, p), HostCopied(m, host, c, p), b)
      else HostRemoved(m, host, b)
    else if AtOrUnder(newRoot, b.guest) then
      HostRemoved(Copied(m, b, b.guest[|newRoot|..]), HostCopied(m, host, b, b.guest[|newRoot|..]), b)
    else if putOld.Some? && !(putOld.value <= b.guest) then
      HostCopied(m, host, b, putOld.value + b.guest)
    else host
  }

  ghost function HostPivotFold(m: View, host: seq<Binding>, snapshot: seq<Binding>, newRoot: Path, putOld: Option<Path>): seq<Binding>
    decreases |snapshot|
  {
    if |snapshot| == 0 then host
    else
      HostPivotFold(PivotStep(m, snapshot[0], newRoot, putOld), HostPivotStep(m, host, snapshot[0], newRoot, putOld), snapshot[1..],
                    newRoot, putOld)
  }

  ghost function HostPivotStart(m: View, host: seq<Binding>, newRootHost: Path, putOld: Option<Path>): seq<Binding>
    requires [] in m
  {
    var root := m[[]];
    var b := Binding(newRootHost, [], MountNone, None);
    var swapped := HostMounted(Removed(m, root), HostRemoved(m, host, root), b);
    if putOld.Some? then
      HostMounted(Inserted(Removed(m, root), b), swapped, Binding(root.host, putOld.value, MountNone, None))
    else swapped
  }

  /** The host list after a pivot. */
  ghost function HostPivoted(m: View, host: seq<Binding>, list: seq<Binding>, newRootHost: Path, newRoot: Path, putOld: Option<Path>)
    : seq<Binding>
    requires [] in m
  {
    HostPivotFold(PivotStart(m, newRootHost, putOld), HostPivotStart(m, host, newRootHost, putOld), list, newRoot, putOld)
  }

  // ----- the operation -----

  /** A canonical path as canonicalize leaves it, the mark of a final "." included. */
  function Marked(p: Path, dotted: bool): string {
    if dotted then Joined(Render(p), ".") else Render(p)
  }

  /** What is left of it after chop_finality, which takes the dot of a last name
      for the mark if there is none. */
  function Unmarked(p: Path, dotted: bool): Path {
    if dotted then p else ChoppedPath(p)
  }

  lemma ChopMarked(p: Path, dotted: bool)
    requires IsPath(p)
    ensures IsPath(Unmarked(p, dotted)) && Split(Chopped(Marked(p, dotted))) == Unmarked(p, dotted)
    ensures Unmarked(p, dotted) == p <==> dotted || !EndsInDot(p)
  {
    if dotted {
      ChopUndoesFinality(p);
    } else {
      ChopRendered(p);
      ChopShrinks(p);
    }
    SplitSpelling(Chopped(Marked(p, dotted)), Unmarked(p, dotted));
  }

  /** put_old is not chopped: a mark stays behind it, as a last name ".". */
  function Kept(p: Path, dotted: bool): Path {
    if dotted then p + ["."] else p
  }

  lemma KeptMarked(p: Path, dotted: bool)
    requires IsPath(p)
    ensures IsPath(Kept(p, dotted)) && Split(Marked(p, dotted)) == Kept(p, dotted)
  {
    if dotted {
      JoinRendered(p, ["."]);
      TailOfOne(["."]);
    }
    SplitRender(Kept(p, dotted));
  }

  /** The chop of a last name "x." leaves a slash, and what ends in a slash is
      neither the spelling of a path nor that of a directory above one. */
  predicate KeepsSlash(p: Path, dotted: bool) {
    !dotted && |p| > 1 && EndsInDot(p) && |p[|p| - 1]| == 2
  }

  /** The comparisons of the loop: the same path, or below it. */
  predicate AtOrBelowText(text: string, s: string) {
    s == text || text + "/" <= s
  }

  /** The new root as the loop compares with it: one that keeps its slash is met
      by no binding, as with "/". */
  function NewRootKey(asked: Path, dotted: bool): Path {
    if KeepsSlash(asked, dotted) then [] else Unmarked(asked, dotted)
  }

  function PutOldKey(asked: Path, dotted: bool, putOld: Path, oldDotted: bool): Option<Path> {
    if KeepsSlash(asked, dotted) then None else PutOldAfter(Unmarked(asked, dotted), Kept(putOld, oldDotted))
  }

  /** The pivot to a path that resolves to `asked`: its translation and the path
      itself are chopped one by one, put_old is not. */
  function Pivoted(m: View, list: seq<Binding>, asked: Path, dotted: bool, putOld: Path, oldDotted: bool): View
    requires [] in m
  {
    match Translate(m, asked)
    case None => m
    case Some(host) =>
      PivotView(m, list, Unmarked(host, dotted), NewRootKey(asked, dotted), PutOldKey(asked, dotted, putOld, oldDotted))
  }

  method EmulatePivotRoot(ns: Namespace, asked: Path, dotted: bool, putOld: Path, oldDotted: bool)
    requires ns.Valid() && IsPath(asked) && IsPath(putOld)
    modifies ns
    ensures ns.Valid()
    ensures [] in old(ns.view)
    ensures ns.view == Pivoted(old(ns.view), old(ns.guest), asked, dotted, putOld, oldDotted)
    ensures Translate(old(ns.view), asked).Some?
    ensures ns.host == HostPivoted(old(ns.view), old(ns.host), old(ns.guest), Unmarked(Translate(old(ns.view), asked).value, dotted),
                                   NewRootKey(asked, dotted), PutOldKey(asked, dotted, putOld, oldDotted))
  {
    var newRootHost := TranslatedPath(ns, asked, dotted);
    var newRoot := GuestPath(asked, dotted);
    var after := OldRootPath(newRoot, putOld, oldDotted);
    PivotedIs(ns.view, ns.guest, asked, dotted, putOld, oldDotted, newRootHost);
    PivotTo(ns, newRootHost, newRoot.GetOr([]), after);
  }

  /** The bindings are copied before anything is changed. */
  method PivotTo(ns: Namespace, newRootHost: Path, newRoot: Path, putOld: Option<Path>)
    requires ns.Valid() && IsPath(newRootHost) && IsPath(newRoot) && (putOld.Some? ==> IsPath(putOld.value))
    modifies ns
    ensures ns.Valid()
    ensures [] in old(ns.view)
    ensures ns.view == PivotFold(PivotStart(old(ns.view), newRootHost, putOld), old(ns.guest), newRoot, putOld)
    ensures ns.host == HostPivoted(old(ns.view), old(ns.host), old(ns.guest), newRootHost, newRoot, putOld)
  {
    var snapshot := ns.guest;
    GuestKeys(ns.guest, ns.view);
    SwapRoots(ns, newRootHost, putOld);
    RelinkAll(ns, snapshot, newRoot, putOld);
  }

  lemma PivotedIs(m: View, list: seq<Binding>, asked: Path, dotted: bool, putOld: Path, oldDotted: bool, host: Path)
    requires [] in m && Translate(m, asked).Some? && host == Unmarked(Translate(m, asked).value, dotted)
    ensures var after := PutOldKey(asked, dotted, putOld, oldDotted);
            Pivoted(m, list, asked, dotted, putOld, oldDotted) ==
            PivotFold(PivotStart(m, host, after), list, NewRootKey(asked, dotted), after)
  {}

  /** What guest_canonicalize leaves of new_root, if a path can match it. */
  method GuestPath(p: Path, dotted: bool) returns (q: Option<Path>)
    requires IsPath(p)
    ensures q == if KeepsSlash(p, dotted) then None else Some(Unmarked(p, dotted))
    ensures q.Some? ==> IsPath(q.value) && Chopped(Marked(p, dotted)) == Render(q.value)
    ensures q.None? ==> forall g :: IsPath(g) ==> !AtOrBelowText(Chopped(Marked(p, dotted)), Render(g))
  {
    var text := Chopped(Marked(p, dotted));
    ChopMarked(p, dotted);
    SlashKept(p, dotted);
    if |text| > 1 && text[|text| - 1] == '/' {
      forall g | IsPath(g) ensures !AtOrBelowText(text, Render(g)) { NoSlashBehind(text, g); }
      return None;
    }
    return Some(Split(text));
  }

  lemma SlashKept(p: Path, dotted: bool)
    requires IsPath(p)
    ensures var text := Chopped(Marked(p, dotted));
            && (|text| > 1 && text[|text| - 1] == '/' <==> KeepsSlash(p, dotted))
            && (!KeepsSlash(p, dotted) ==> text == Render(Unmarked(p, dotted)))
  {
    if dotted {
      ChopUndoesFinality(p);
      NoSlashAtEnd(p);
    } else {
      ChopRendered(p);
      NoSlashAtEnd(ChoppedPath(p));
      if EndsInDot(p) {
        SlashOfDotted(p);
      } else {
        ChopKeepsPlainPaths(p);
      }
    }
  }

  lemma SlashOfDotted(p: Path)
    requires IsPath(p) && EndsInDot(p)
    ensures Chopped(Render(p)) == if |p| > 1 && |p[|p| - 1]| == 2 then Render(ChoppedPath(p)) + "/" else Render(ChoppedPath(p))
  {
    var init, n := SplitLast(p);
    var text := Tail(init) + ("/" + n);
    RenderIsLong(p);
    assert text[|text| - 1] == n[|n| - 1] == '.';
    assert text[..|text| - 2] == Tail(init) + ("/" + n)[..|n| - 1];
    if |n| > 2 {
      var kept := n[..|n| - 2];
      TailAppend(init, [kept]);
      TailOfOne([kept]);
    }
  }

  /** A spelling ends in a slash only if it is "/", and has no two in a row. */
  lemma NoSlashAtEnd(p: Path)
    requires IsPath(p)
    ensures var s := Render(p); |s| > 1 ==> s[|s| - 1] != '/'
  {
    if p != [] {
      LastCharOfTail(p);
      assert IsName(p[|p| - 1]);
    }
  }

  lemma {:induction false} NoTwoSlashes(p: Path, i: nat)
    requires IsPath(p) && i + 1 < |Tail(p)| && Tail(p)[i] == '/'
    ensures Tail(p)[i + 1] != '/'
    decreases |p|
  {
    var n, rest := p[0], Tail(p[1..]);
    assert IsName(n) && Tail(p) == "/" + n + rest;
    if i > |n| {
      assert Tail(p)[i] == rest[i - 1 - |n|] && Tail(p)[i + 1] == rest[i - |n|];
      NoTwoSlashes(p[1..], i - 1 - |n|);
    } else {
      assert forall k :: 0 < k <= |n| ==> Tail(p)[k] == n[k - 1];
      assert Tail(p)[1] == n[0];
    }
  }

  lemma NoSlashBehind(text: string, g: Path)
    requires |text| > 1 && text[|text| - 1] == '/' && IsPath(g)
    ensures !AtOrBelowText(text, Render(g))
  {
    NoSlashAtEnd(g);
    if text + "/" <= Render(g) {
      assert Render(g)[|text| - 1] == (text + "/")[|text| - 1] && Render(g)[|text|] == (text + "/")[|text|];
      NoTwoSlashes(g, |text| - 1);
    }
  }

  /** Where put_old is seen from the new root. */
  method OldRootPath(newRoot: Option<Path>, putOld: Path, oldDotted: bool) returns (after: Option<Path>)
    requires IsPath(putOld)
    ensures after == if newRoot.None? then None else PutOldAfter(newRoot.value, Kept(putOld, oldDotted))
    ensures after.Some? ==> IsPath(after.value)
  {
    KeptMarked(putOld, oldDotted);
    var path := Split(Marked(putOld, oldDotted));
    after := if newRoot.None? then None else PutOldAfter(newRoot.value, path);
  }

  /** The mark stays behind the path while its prefix is substituted. */
  method TranslatedPath(ns: Namespace, p: Path, dotted: bool) returns (host: Path)
    requires ns.Valid() && IsPath(p)
    modifies ns`entries
    ensures ns.Valid() && IsPath(host)
    ensures Translate(ns.view, p).Some? && host == Unmarked(Translate(ns.view, p).value, dotted)
  {
    var text := ns.SubstituteBinding(Guest, p);
    TranslateIsPath(ns.guest, ns.view, p);
    var result := text.value;
    if dotted {
      result := Joined(result, ".");
    }
    ChopMarked(Translate(ns.view, p).value, dotted);
    host := Split(Chopped(result));
  }

  /** Puts the new root's host at "/" and the old root's at put_old. */
  method SwapRoots(ns: Namespace, newRootHost: Path, putOld: Option<Path>)
    requires ns.Valid() && IsPath(newRootHost) && (putOld.Some? ==> IsPath(putOld.value))
    modifies ns
    ensures [] in old(ns.view)
    ensures ns.Valid() && ns.view == PivotStart(old(ns.view), newRootHost, putOld)
    ensures ns.host == HostPivotStart(old(ns.view), old(ns.host), newRootHost, putOld)
  {
    var rootBinding := ns.GetBinding(Guest, []);
    LookupAtPath(ns.guest, ns.view, []);
    var root := rootBinding.value;
    ns.RemoveBindingFromAllLists(root);
    var _ := ns.Insort(newRootHost, [], MountNone);
    if putOld.Some? {
      var _ := ns.Insort(root.host, putOld.value, MountNone);
    }
  }

  /** A translated path is a path, and there always is one under a root. */
  lemma {:induction false} TranslateIsPath(list: seq<Binding>, m: View, p: Path)
    requires Represents(list, m) && [] in m && IsPath(p)
    ensures Translate(m, p).Some? && IsPath(Translate(m, p).value)
    decreases |p|
  {
    if p !in m { TranslateIsPath(list, m, p[..|p| - 1]); }
  }

  method RelinkAll(ns: Namespace, snapshot: seq<Binding>, newRoot: Path, putOld: Option<Path>)
    requires ns.Valid() && IsPath(newRoot) && (putOld.Some? ==> IsPath(putOld.value))
    requires forall i :: 0 <= i < |snapshot| ==> WellFormed(snapshot[i])
    modifies ns
    ensures ns.Valid() && ns.view == PivotFold(old(ns.view), snapshot, newRoot, putOld)
    ensures ns.host == HostPivotFold(old(ns.view), old(ns.host), snapshot, newRoot, putOld)
  {
    for i := 0 to |snapshot|
      invariant ns.Valid()
      invariant HostPivotFold(old(ns.view), old(ns.host), snapshot, newRoot, putOld) ==
                HostPivotFold(ns.view, ns.host, snapshot[i..], newRoot, putOld)
      invariant PivotFold(old(ns.view), snapshot, newRoot, putOld) == PivotFold(ns.view, snapshot[i..], newRoot, putOld)
    {
      assert snapshot[i..][1..] == snapshot[i + 1..];
      Relink(ns, snapshot[i], newRoot, putOld);
    }
  }

  method Relink(ns: Namespace, b: Binding, newRoot: Path, putOld: Option<Path>)
    requires ns.Valid() && WellFormed(b) && IsPath(newRoot) && (putOld.Some? ==> IsPath(putOld.value))
    modifies ns
    ensures ns.Valid() && ns.view == PivotStep(old(ns.view), b, newRoot, putOld)
    ensures ns.host == HostPivotStep(old(ns.view), old(ns.host), b, newRoot, putOld)
  {
    if b.guest == [] {
      return;
    }
    if b.guest == newRoot {
      if putOld.Some? && b.covered.Some? {
        var _ := ns.CopyBinding(b.covered.value, putOld.value + b.guest);
      }
      ns.RemoveBindingFromAllLists(b);
      return;
    }
    if newRoot != [] && newRoot <= b.guest {
      var _ := ns.CopyBinding(b, b.guest[|newRoot|..]);
      ns.RemoveBindingFromAllLists(b);
      return;
    }
    if putOld.Some? {
      if putOld.value <= b.guest {
        return;
      }
      var _ := ns.CopyBinding(b, putOld.value + b.guest);
    }
  }

  // ----- one path through the loop -----

  lemma TailDistinct(list: seq<Binding>)
    requires list != [] && Distinct(list)
    ensures Distinct(list[1..])
    ensures HostIn(list[1..], list[0].guest) == None
  {
    var rest := list[1..];
    assert forall i :: 0 <= i < |rest| ==> rest[i] == list[i + 1];
    HostInMembers(rest, list[0].guest);
  }

  /** The host that relinking b binds at q, if it binds anything there. */
  function Landing(b: Binding, newRoot: Path, putOld: Option<Path>, q: Path): Option<Path> {
    if b.guest == [] then None
    else if b.guest == newRoot then
      if putOld.Some? && b.covered.Some? && q == putOld.value + b.guest then Some(b.covered.value.host) else None
    else if AtOrUnder(newRoot, b.guest) then
      if b.guest == newRoot + q then Some(b.host) else None
    else if putOld.Some? && !(putOld.value <= b.guest) && q == putOld.value + b.guest then Some(b.host)
    else None
  }

  /** Of several, the last one is on top. */
  function LastLanding(list: seq<Binding>, newRoot: Path, putOld: Option<Path>, q: Path): Option<Path> {
    if |list| == 0 then None
    else match LastLanding(list[1..], newRoot, putOld, q)
      case Some(h) => Some(h)
      case None => Landing(list[0], newRoot, putOld, q)
  }

  /** A binding of q that is still to be taken away is either what q shows now
      or covered by it. */
  ghost predicate PendingRemovals(m: View, list: seq<Binding>, q: Path) {
    forall i :: 0 <= i < |list| && list[i].guest == q ==>
      q in m && (m[q] == list[i] || |Stack(m[q])| > |Stack(list[i])|)
  }

  ghost predicate WillBeRemoved(m: View, list: seq<Binding>, q: Path) {
    exists i :: 0 <= i < |list| && list[i].guest == q && q in m && m[q] == list[i]
  }

  /** What one step does to a path other than "/". */
  lemma StepAt(m: View, b: Binding, newRoot: Path, putOld: Option<Path>, q: Path)
    requires q != [] && (putOld.Some? ==> putOld.value != [])
    ensures var m', landing := PivotStep(m, b, newRoot, putOld), Landing(b, newRoot, putOld, q);
            if landing.Some? then
              q in m' && m'[q].host == landing.value && (q in m ==> |Stack(m'[q])| > |Stack(m[q])|)
            else if AtOrUnder(newRoot, q) && b.guest == q && q in m && m[q] == b then
              q !in m'
            else
              (q in m' <==> q in m) && (q in m ==> m'[q] == m[q])
  {
    if AtOrUnder(newRoot, b.guest) {
      var suffix := b.guest[|newRoot|..];
      assert newRoot + suffix == b.guest;
      SuffixDetermined(newRoot, suffix, q);
    }
    if putOld.Some? { assert putOld.value + b.guest != b.guest; }
  }

  lemma {:induction false} FoldAt(m: View, list: seq<Binding>, newRoot: Path, putOld: Option<Path>, q: Path)
    requires Distinct(list) && PendingRemovals(m, list, q)
    requires q != [] && (putOld.Some? ==> putOld.value != [])
    ensures HostAt(PivotFold(m, list, newRoot, putOld), q) ==
            match LastLanding(list, newRoot, putOld, q)
            case Some(h) => Some(h)
            case None => if AtOrUnder(newRoot, q) && WillBeRemoved(m, list, q) then None else HostAt(m, q)
    decreases |list|
  {
    if |list| > 0 {
      var b, rest := list[0], list[1..];
      var m' := PivotStep(m, b, newRoot, putOld);
      TailDistinct(list);
      HostInMembers(rest, b.guest);
      StepAt(m, b, newRoot, putOld, q);
      PendingAfterStep(m, list, newRoot, putOld, q);
      FoldAt(m', rest, newRoot, putOld, q);
    }
  }

  lemma PendingAfterStep(m: View, list: seq<Binding>, newRoot: Path, putOld: Option<Path>, q: Path)
    requires list != [] && Distinct(list) && PendingRemovals(m, list, q)
    requires q != [] && (putOld.Some? ==> putOld.value != [])
    ensures var m' := PivotStep(m, list[0], newRoot, putOld);
            && PendingRemovals(m', list[1..], q)
            && if Landing(list[0], newRoot, putOld, q).Some? || list[0].guest == q then !WillBeRemoved(m', list[1..], q)
               else WillBeRemoved(m', list[1..], q) <==> WillBeRemoved(m, list, q)
  {
    var b, rest := list[0], list[1..];
    var m' := PivotStep(m, b, newRoot, putOld);
    var lands := Landing(b, newRoot, putOld, q).Some?;
    StepAt(m, b, newRoot, putOld, q);
    forall i | 0 <= i < |rest| && rest[i].guest == q
      ensures q in m && q in m' && b.guest != q
      ensures m'[q] == rest[i] || |Stack(m'[q])| > |Stack(rest[i])|
      ensures if lands then m'[q] != rest[i] else m'[q] == m[q]
    {
      assert list[i + 1] == rest[i];
    }
    if WillBeRemoved(m, list, q) && b.guest != q {
      var i :| 0 <= i < |list| && list[i].guest == q && q in m && m[q] == list[i];
      assert rest[i - 1] == list[i];
    }
  }

  /** The loop as seen from one path, when it runs over the list of the table it
      started from. */
  lemma FoldFromStart(m: View, list: seq<Binding>, host: Path, newRoot: Path, putOld: Option<Path>, q: Path)
    requires Represents(list, m) && [] in m && q != [] && (putOld.Some? ==> putOld.value != [])
    ensures HostAt(PivotView(m, list, host, newRoot, putOld), q) ==
            match LastLanding(list, newRoot, putOld, q)
            case Some(h) => Some(h)
            case None =>
              if putOld == Some(q) then HostAt(m, [])
              else if AtOrUnder(newRoot, q) then None
              else HostAt(m, q)
  {
    var start := PivotStart(m, host, putOld);
    StartAt(m, host, putOld, q);
    forall i | 0 <= i < |list| && list[i].guest == q
      ensures q in m && m[q] == list[i]
      ensures q in start && (start[q] == list[i] || |Stack(start[q])| > |Stack(list[i])|)
    {
      assert list[i] in list;
    }
    FoldAt(start, list, newRoot, putOld, q);
    if q in m {
      var i :| 0 <= i < |list| && list[i] == m[q];
      assert list[i].guest == q;
    }
  }

  lemma StartAt(m: View, host: Path, putOld: Option<Path>, q: Path)
    requires [] in m && m[[]].guest == [] && q != [] && (putOld.Some? ==> putOld.value != [])
    ensures var start := PivotStart(m, host, putOld);
            if putOld == Some(q) then
              q in start && start[q].host == m[[]].host && (q in m ==> |Stack(start[q])| > |Stack(m[q])|)
            else
              (q in start <==> q in m) && (q in m ==> start[q] == m[q])
  {}

  // ----- what the old root looks like afterwards -----

  /** The old root without its new one: everything below the new root gone, and
      on it whatever the new root's own mount had covered. */
  function OldTree(m: View, newRoot: Path): View {
    if |newRoot| == 0 then m
    else Unmounted(map q | q in m && !(newRoot < q) :: m[q], newRoot)
  }

  lemma {:induction false} OldTreeOutside(m: View, newRoot: Path, p: Path)
    requires !AtOrUnder(newRoot, p)
    ensures Translate(OldTree(m, newRoot), p) == Translate(m, p)
    decreases |p|
  {
    if |p| > 0 {
      PrefixOfInit(newRoot, p);
      OldTreeOutside(m, newRoot, p[..|p| - 1]);
    }
  }

  /** What y's own binding leaves at putOld + y. */
  function CopyHost(m: View, newRoot: Path, putOld: Path, y: Path): Option<Path> {
    if y == [] || y !in m then None
    else if y == newRoot then
      if m[y].covered.Some? then Some(m[y].covered.value.host) else None
    else if AtOrUnder(newRoot, y) || putOld <= y then None
    else Some(m[y].host)
  }

  /** What moves there from below the new root. */
  function MoveHost(m: View, newRoot: Path, q: Path): Option<Path> {
    if newRoot != [] then HostAt(m, newRoot + q) else None
  }

  /** Where the binding of g stands in the list. */
  function Place(list: seq<Binding>, g: Path): nat {
    if |list| == 0 || list[0].guest == g then 0 else 1 + Place(list[1..], g)
  }

  /** The exact table below put_old: of the copy of y's binding and the one moved
      up from the new root the later in the list, else what had been bound there,
      unless it went with the new root; put_old itself shows the old root. */
  function BelowPutOld(m: View, list: seq<Binding>, newRoot: Path, putOld: Path, y: Path): Option<Path> {
    var copy, move := CopyHost(m, newRoot, putOld, y), MoveHost(m, newRoot, putOld + y);
    if move.Some? && (copy.None? || Place(list, y) < Place(list, newRoot + (putOld + y))) then move
    else if copy.Some? then copy
    else if y == [] then HostAt(m, [])
    else if AtOrUnder(newRoot, putOld + y) then None
    else HostAt(m, putOld + y)
  }

  /** What the entry of g, if there is one, binds at q. */
  function LandingOf(list: seq<Binding>, g: Path, newRoot: Path, putOld: Option<Path>, q: Path): Option<Path> {
    if |list| == 0 then None
    else if list[0].guest == g then Landing(list[0], newRoot, putOld, q)
    else LandingOf(list[1..], g, newRoot, putOld, q)
  }

  lemma {:induction false} LandingOfUnbound(list: seq<Binding>, g: Path, newRoot: Path, putOld: Option<Path>, q: Path)
    requires HostIn(list, g).None?
    ensures LandingOf(list, g, newRoot, putOld, q).None?
  {
    if |list| > 0 { LandingOfUnbound(list[1..], g, newRoot, putOld, q); }
  }

  lemma {:induction false} LandingOfMember(list: seq<Binding>, b: Binding, newRoot: Path, putOld: Option<Path>, q: Path)
    requires Distinct(list) && b in list
    ensures LandingOf(list, b.guest, newRoot, putOld, q) == Landing(b, newRoot, putOld, q)
  {
    if list[0] != b {
      TailDistinct(list);
      HostInMembers(list[1..], list[0].guest);
      LandingOfMember(list[1..], b, newRoot, putOld, q);
    }
  }

  lemma LandingAt(list: seq<Binding>, m: View, g: Path, newRoot: Path, putOld: Option<Path>, q: Path)
    requires Represents(list, m)
    ensures LandingOf(list, g, newRoot, putOld, q) == if g in m then Landing(m[g], newRoot, putOld, q) else None
  {
    if g in m {
      LandingOfMember(list, m[g], newRoot, putOld, q);
    } else {
      HostInIsHostAt(list, m, g);
      LandingOfUnbound(list, g, newRoot, putOld, q);
    }
  }

  /** Only the entries of y and of newRoot + putOld + y can bind putOld + y. */
  lemma {:induction false} LastLandingBelow(list: seq<Binding>, newRoot: Path, putOld: Path, y: Path, q: Path, g: Path)
    requires Distinct(list) && q == putOld + y && g == newRoot + q && y != g
    ensures var copy, move := LandingOf(list, y, newRoot, Some(putOld), q), LandingOf(list, g, newRoot, Some(putOld), q);
            LastLanding(list, newRoot, Some(putOld), q) ==
            if move.Some? && (copy.None? || Place(list, y) < Place(list, g)) then move else copy
    decreases |list|
  {
    if |list| > 0 {
      var b, rest := list[0], list[1..];
      TailDistinct(list);
      LastLandingBelow(rest, newRoot, putOld, y, q, g);
      SuffixDetermined(putOld, b.guest, y);
      if b.guest == y { LandingOfUnbound(rest, y, newRoot, Some(putOld), q); }
      if b.guest == g { LandingOfUnbound(rest, g, newRoot, Some(putOld), q); }
    }
  }

  lemma PivotedBelowPutOld(m: View, list: seq<Binding>, host: Path, newRoot: Path, putOld: Path, y: Path)
    requires Represents(list, m) && [] in m && putOld != []
    ensures HostAt(PivotView(m, list, host, newRoot, Some(putOld)), putOld + y) == BelowPutOld(m, list, newRoot, putOld, y)
  {
    var q, g := putOld + y, newRoot + (putOld + y);
    assert |g| == |newRoot| + |putOld| + |y|;
    FoldFromStart(m, list, host, newRoot, Some(putOld), q);
    LastLandingBelow(list, newRoot, putOld, y, q, g);
    LandingAt(list, m, y, newRoot, Some(putOld), q);
    LandingAt(list, m, g, newRoot, Some(putOld), q);
    CopyLands(m, newRoot, putOld, y, q);
    MoveLands(m, newRoot, putOld, q, g);
    SuffixDetermined(putOld, y, []);
    assert putOld + [] == putOld;
  }

  lemma CopyLands(m: View, newRoot: Path, putOld: Path, y: Path, q: Path)
    requires q == putOld + y && putOld != [] && (y in m ==> m[y].guest == y)
    ensures CopyHost(m, newRoot, putOld, y) == if y in m then Landing(m[y], newRoot, Some(putOld), q) else None
  {
    assert |newRoot + q| > |y|;
  }

  lemma MoveLands(m: View, newRoot: Path, putOld: Path, q: Path, g: Path)
    requires g == newRoot + q && q != [] && putOld <= q && (g in m ==> m[g].guest == g)
    ensures MoveHost(m, newRoot, q) == if g in m then Landing(m[g], newRoot, Some(putOld), q) else None
  {
    if newRoot == [] {
      assert g == q;
    } else {
      assert newRoot <= g && g != newRoot;
    }
  }

  /** Whether put_old leaves y where the old tree had it: what is bound there
      leads to the same place, or nothing is bound there and nothing is missed. */
  predicate ExposedAlike(m: View, list: seq<Binding>, newRoot: Path, putOld: Path, y: Path) {
    var tree := OldTree(m, newRoot);
    match BelowPutOld(m, list, newRoot, putOld, y)
    case Some(h) => Translate(tree, y) == Some(h)
    case None => y in tree && y != [] ==> HostAt(tree, y) == ThroughParent(tree, y)
  }

  lemma ExposedUpTo(m: View, list: seq<Binding>, host: Path, newRoot: Path, putOld: Path, p: Path)
    requires Represents(list, m) && [] in m && putOld != []
    ensures TranslateAlike(PivotView(m, list, host, newRoot, Some(putOld)), putOld, OldTree(m, newRoot), [], p) <==>
            forall y :: y <= p ==> ExposedAlike(m, list, newRoot, putOld, y)
  {
    var after, tree := PivotView(m, list, host, newRoot, Some(putOld)), OldTree(m, newRoot);
    SubtreesAgree(after, putOld, tree, [], p);
    RootExposed(m, list, host, newRoot, putOld);
    assert [] <= p;
    forall y | y != [] ensures AgreeAt(after, putOld + y, tree, [] + y) <==> ExposedAlike(m, list, newRoot, putOld, y) {
      assert [] + y == y;
      PivotedBelowPutOld(m, list, host, newRoot, putOld, y);
    }
  }

  lemma RootExposed(m: View, list: seq<Binding>, host: Path, newRoot: Path, putOld: Path)
    requires Represents(list, m) && [] in m && putOld != []
    ensures ExposedAlike(m, list, newRoot, putOld, []) <==>
            Translate(PivotView(m, list, host, newRoot, Some(putOld)), putOld) == Translate(OldTree(m, newRoot), [])
  {
    PivotedBelowPutOld(m, list, host, newRoot, putOld, []);
    assert putOld + [] == putOld;
  }

  // ----- when it is not exposed at all -----

  /** What a guest path can be: nothing canonical has a name ".". */
  predicate Canonical(p: Path) {
    forall i :: 0 <= i < |p| ==> p[i] != "."
  }

  /** The old root gets a place that can be reached: put_old was given without a
      final ".", and the new root keeps no slash. */
  predicate Shows(asked: Path, dotted: bool, oldDotted: bool) {
    !oldDotted && !KeepsSlash(asked, dotted)
  }

  /** The table after the same pivot without a put_old. */
  function Bare(m: View, list: seq<Binding>, asked: Path, dotted: bool): View
    requires [] in m
  {
    match Translate(m, asked)
    case None => m
    case Some(host) => PivotView(m, list, Unmarked(host, dotted), NewRootKey(asked, dotted), None)
  }

  /** What is bound there, away from "/". */
  function BareHost(m: View, newRoot: Path, q: Path): Option<Path> {
    if newRoot != [] && newRoot + q in m then HostAt(m, newRoot + q)
    else if AtOrUnder(newRoot, q) then None
    else HostAt(m, q)
  }

  lemma MarkIsNoPrefix(a: Path, b: Path, q: Path)
    requires a < Kept(b, true) && Kept(b, true)[|a|..] <= q
    ensures !Canonical(q)
  {
    var after := Kept(b, true)[|a|..];
    assert q[|after| - 1] == after[|after| - 1] == ".";
  }

  /** Unless the old root shows, every canonical path translates as if there were
      no put_old. */
  lemma PivotHidesOldRoot(m: View, list: seq<Binding>, asked: Path, dotted: bool, putOld: Path, oldDotted: bool, s: Path)
    requires Represents(list, m) && [] in m && IsPath(asked) && Canonical(s) && !Shows(asked, dotted, oldDotted)
    ensures Translate(Pivoted(m, list, asked, dotted, putOld, oldDotted), s) == Translate(Bare(m, list, asked, dotted), s)
  {
    TranslateIsPath(list, m, asked);
    var host, newRoot := Unmarked(Translate(m, asked).value, dotted), NewRootKey(asked, dotted);
    var after := PutOldKey(asked, dotted, putOld, oldDotted);
    forall y | y <= s ensures HostAt(PivotView(m, list, host, newRoot, after), [] + y) == HostAt(PivotView(m, list, host, newRoot, None), [] + y) {
      assert [] + y == y;
      assert Canonical(y);
      if after.Some? && after.value <= y { MarkIsNoPrefix(Unmarked(asked, dotted), putOld, y); }
      PivotedHost(m, list, host, newRoot, after, y);
      PivotedHost(m, list, host, newRoot, None, y);
    }
    var top: Path := [];
    assert top <= s && top + top == top && top + s == s;
    assert HostAt(PivotView(m, list, host, newRoot, after), []) == HostAt(PivotView(m, list, host, newRoot, None), []);
    SameSubtree(PivotView(m, list, host, newRoot, after), [], PivotView(m, list, host, newRoot, None), [], s);
  }

  /** Whether what the new root has at y below put_old is what the old tree has at
      y anyway. */
  predicate SeenAlike(m: View, list: seq<Binding>, asked: Path, dotted: bool, putOld: Path, y: Path)
    requires [] in m
  {
    var tree := OldTree(m, Unmarked(asked, dotted));
    if y == [] then Translate(Bare(m, list, asked, dotted), putOld) == HostAt(m, [])
    else
      match BareHost(m, NewRootKey(asked, dotted), putOld + y)
      case Some(h) => Translate(tree, y) == Some(h)
      case None => y in tree ==> HostAt(tree, y) == ThroughParent(tree, y)
  }

  lemma SeenAt(m: View, list: seq<Binding>, asked: Path, dotted: bool, putOld: Path, y: Path)
    requires Represents(list, m) && [] in m && IsPath(asked) && putOld != [] && y != []
    ensures SeenAlike(m, list, asked, dotted, putOld, y) <==>
            AgreeAt(Bare(m, list, asked, dotted), putOld + y, OldTree(m, Unmarked(asked, dotted)), y)
  {
    BareHostAt(m, list, asked, dotted, putOld + y);
  }

  lemma OldTreeRoot(m: View, newRoot: Path)
    requires [] in m
    ensures Translate(OldTree(m, newRoot), []) == HostAt(m, [])
  {}

  lemma BareHostAt(m: View, list: seq<Binding>, asked: Path, dotted: bool, q: Path)
    requires Represents(list, m) && [] in m && IsPath(asked) && q != []
    ensures HostAt(Bare(m, list, asked, dotted), q) == BareHost(m, NewRootKey(asked, dotted), q)
  {
    TranslateIsPath(list, m, asked);
    PivotedHost(m, list, Unmarked(Translate(m, asked).value, dotted), NewRootKey(asked, dotted), None, q);
  }

  lemma SeenUpTo(m: View, list: seq<Binding>, asked: Path, dotted: bool, putOld: Path, p: Path)
    requires Represents(list, m) && [] in m && IsPath(asked) && putOld != []
    ensures TranslateAlike(Bare(m, list, asked, dotted), putOld, OldTree(m, Unmarked(asked, dotted)), [], p) <==>
            forall y :: y <= p ==> SeenAlike(m, list, asked, dotted, putOld, y)
  {
    var bare, tree := Bare(m, list, asked, dotted), OldTree(m, Unmarked(asked, dotted));
    SubtreesAgree(bare, putOld, tree, [], p);
    OldTreeRoot(m, Unmarked(asked, dotted));
    assert SeenAlike(m, list, asked, dotted, putOld, []) <==> Translate(bare, putOld) == Translate(tree, []);
    assert [] <= p;
    forall y | y != [] ensures AgreeAt(bare, putOld + y, tree, [] + y) <==> SeenAlike(m, list, asked, dotted, putOld, y) {
      assert [] + y == y;
      SeenAt(m, list, asked, dotted, putOld, y);
    }
  }

  lemma ShownUpTo(m: View, list: seq<Binding>, asked: Path, dotted: bool, putOld: Path, p: Path)
    requires Represents(list, m) && [] in m && IsPath(asked) && Unmarked(asked, dotted) < putOld && Shows(asked, dotted, false)
    ensures var newRoot := Unmarked(asked, dotted); var below := putOld[|newRoot|..];
            TranslateAlike(Pivoted(m, list, asked, dotted, putOld, false), below, OldTree(m, newRoot), [], p) <==>
            forall y :: y <= p ==> ExposedAlike(m, list, newRoot, below, y)
  {
    TranslateIsPath(list, m, asked);
    var newRoot := Unmarked(asked, dotted);
    ExposedUpTo(m, list, Unmarked(Translate(m, asked).value, dotted), newRoot, putOld[|newRoot|..], p);
  }

  lemma HiddenUpTo(m: View, list: seq<Binding>, asked: Path, dotted: bool, putOld: Path, oldDotted: bool, below: Path, p: Path)
    requires Represents(list, m) && [] in m && IsPath(asked) && !Shows(asked, dotted, oldDotted)
    requires Canonical(below) && below != [] && Canonical(p)
    ensures var tree := OldTree(m, Unmarked(asked, dotted));
            TranslateAlike(Pivoted(m, list, asked, dotted, putOld, oldDotted), below, tree, [], p) <==>
            forall y :: y <= p ==> SeenAlike(m, list, asked, dotted, below, y)
  {
    SeenUpTo(m, list, asked, dotted, below, p);
    var after, bare := Pivoted(m, list, asked, dotted, putOld, oldDotted), Bare(m, list, asked, dotted);
    forall x | x <= p ensures Translate(after, below + x) == Translate(bare, below + x) {
      PivotHidesOldRoot(m, list, asked, dotted, putOld, oldDotted, below + x);
    }
  }

  /** Whether y is found below put_old: as what was put there, or by chance. */
  predicate PivotAlike(m: View, list: seq<Binding>, asked: Path, dotted: bool, putOld: Path, oldDotted: bool, y: Path)
    requires [] in m && Unmarked(asked, dotted) < putOld
  {
    var newRoot := Unmarked(asked, dotted);
    if Shows(asked, dotted, oldDotted) then ExposedAlike(m, list, newRoot, putOld[|newRoot|..], y)
    else SeenAlike(m, list, asked, dotted, putOld[|newRoot|..], y)
  }

  /** The exact condition for one path and everything on the way to it. */
  lemma PivotExposesUpTo(m: View, list: seq<Binding>, asked: Path, dotted: bool, putOld: Path, oldDotted: bool, p: Path)
    requires Represents(list, m) && [] in m && IsPath(asked) && Unmarked(asked, dotted) < putOld
    requires Canonical(putOld) && Canonical(p)
    ensures var newRoot := Unmarked(asked, dotted); var after := Pivoted(m, list, asked, dotted, putOld, oldDotted);
            TranslateAlike(after, putOld[|newRoot|..], OldTree(m, newRoot), [], p) <==>
            forall y :: y <= p ==> PivotAlike(m, list, asked, dotted, putOld, oldDotted, y)
  {
    if Shows(asked, dotted, oldDotted) {
      var newRoot := Unmarked(asked, dotted);
      ShownUpTo(m, list, asked, dotted, putOld, p);
      assert forall y :: PivotAlike(m, list, asked, dotted, putOld, oldDotted, y) <==>
                         ExposedAlike(m, list, newRoot, putOld[|newRoot|..], y);
    } else {
      var below := putOld[|Unmarked(asked, dotted)|..];
      HiddenUpTo(m, list, asked, dotted, putOld, oldDotted, below, p);
      assert forall y :: PivotAlike(m, list, asked, dotted, putOld, oldDotted, y) <==> SeenAlike(m, list, asked, dotted, below, y);
    }
  }

  /** The old root is found again below put_old, minus the new root, exactly when
      put_old was given without a final "." (and the new root keeps no slash) and
      no path there is led elsewhere: by what moved up onto it, by what had been
      bound there before, or by a mount at or below put_old that is not copied.
      Otherwise it is there only if the new root's own tree shows it by chance. */
  lemma PivotExposesOldRoot(m: View, list: seq<Binding>, asked: Path, dotted: bool, putOld: Path, oldDotted: bool)
    requires Represents(list, m) && [] in m && IsPath(asked) && Unmarked(asked, dotted) < putOld && Canonical(putOld)
    ensures var newRoot := Unmarked(asked, dotted); var below := putOld[|newRoot|..];
            var after := Pivoted(m, list, asked, dotted, putOld, oldDotted);
            (forall p :: Canonical(p) ==> Translate(after, below + p) == Translate(OldTree(m, newRoot), p)) <==>
            if Shows(asked, dotted, oldDotted) then forall y :: Canonical(y) ==> ExposedAlike(m, list, newRoot, below, y)
            else forall y :: Canonical(y) ==> SeenAlike(m, list, asked, dotted, below, y)
  {
    var newRoot := Unmarked(asked, dotted);
    var after, below, tree := Pivoted(m, list, asked, dotted, putOld, oldDotted), putOld[|newRoot|..], OldTree(m, newRoot);
    forall y | Canonical(y) ensures PivotAlike(m, list, asked, dotted, putOld, oldDotted, y) ==
      if Shows(asked, dotted, oldDotted) then ExposedAlike(m, list, newRoot, below, y) else SeenAlike(m, list, asked, dotted, below, y) {}
    if forall p :: Canonical(p) ==> Translate(after, below + p) == Translate(tree, p) {
      forall y | Canonical(y) ensures PivotAlike(m, list, asked, dotted, putOld, oldDotted, y) {
        PivotExposesUpTo(m, list, asked, dotted, putOld, oldDotted, y);
        forall x | x <= y ensures Translate(after, below + x) == Translate(tree, [] + x) { assert [] + x == x; }
        assert y <= y;
      }
    } else if forall y :: Canonical(y) ==> PivotAlike(m, list, asked, dotted, putOld, oldDotted, y) {
      forall p | Canonical(p) ensures Translate(after, below + p) == Translate(tree, p) {
        PivotExposesUpTo(m, list, asked, dotted, putOld, oldDotted, p);
        assert p <= p && [] + p == p;
      }
    }
  }

  /** Nothing was bound at or below put_old, on either side of the pivot, on the
      way to p. */
  ghost predicate Untouched(m: View, putOld: Path, below: Path, p: Path) {
    forall y :: y <= p ==> below + y !in m && putOld + y !in m && (below <= y ==> y !in m)
  }

  /** It is enough that put_old was untouched; then paths outside the new root are
      where they were. */
  lemma PivotExposesUntouched(m: View, list: seq<Binding>, asked: Path, dotted: bool, putOld: Path, p: Path)
    requires Represents(list, m) && [] in m && IsPath(asked) && Shows(asked, dotted, false)
    requires Unmarked(asked, dotted) < putOld && Canonical(putOld) && Canonical(p)
    requires Untouched(m, putOld, putOld[|Unmarked(asked, dotted)|..], p)
    ensures var newRoot := Unmarked(asked, dotted); var below := putOld[|newRoot|..];
            var after := Pivoted(m, list, asked, dotted, putOld, false);
            && Translate(after, below + p) == Translate(OldTree(m, newRoot), p)
            && (!AtOrUnder(newRoot, p) ==> Translate(after, below + p) == Translate(m, p))
  {
    var newRoot := Unmarked(asked, dotted);
    var below := putOld[|newRoot|..];
    forall y | y <= p ensures PivotAlike(m, list, asked, dotted, putOld, false, y) {
      assert putOld + y == newRoot + (below + y);
      ExposedUntouched(m, list, newRoot, below, y, below + y, putOld + y);
    }
    PivotExposesUpTo(m, list, asked, dotted, putOld, false, p);
    assert p <= p && [] + p == p;
    if !AtOrUnder(newRoot, p) { OldTreeOutside(m, newRoot, p); }
  }

  /** With a final "." behind put_old there is no new sight of the old root:
      unless something left behind comes between, put_old and what is below it go
      on showing what was there before. */
  lemma PivotToMarkedPutOld(m: View, list: seq<Binding>, asked: Path, dotted: bool, below: Path, p: Path)
    requires Represents(list, m) && [] in m && IsPath(asked) && (dotted || !EndsInDot(asked))
    requires Canonical(below) && Canonical(p) && Unshadowed(m, asked, below + p)
    ensures Translate(m, asked).Some?
    ensures Translate(Pivoted(m, list, asked, dotted, asked + below, true), below + p) == Translate(m, asked + (below + p)) <==>
            dotted || !EndsInDot(Translate(m, asked).value) || Moved(m, asked, below + p)
  {
    PivotHidesOldRoot(m, list, asked, dotted, asked + below, true, below + p);
    BareShowsNewRoot(m, list, asked, dotted, below + p);
  }

  lemma BareShowsNewRoot(m: View, list: seq<Binding>, asked: Path, dotted: bool, s: Path)
    requires Represents(list, m) && [] in m && IsPath(asked) && (dotted || !EndsInDot(asked)) && Unshadowed(m, asked, s)
    ensures Translate(m, asked).Some?
    ensures Translate(Bare(m, list, asked, dotted), s) == Translate(m, asked + s) <==>
            dotted || !EndsInDot(Translate(m, asked).value) || Moved(m, asked, s)
  {
    TranslateIsPath(list, m, asked);
    var host := Translate(m, asked).value;
    ChopMarked(host, dotted);
    PivotShowsNewRoot(m, list, Unmarked(host, dotted), asked, None, s);
  }

  /** pivot_root("/n", "/n/o/."): everything about the table is as it should be,
      but the old root sits at "/o/.", and "/o/x" is the new root's own. */
  lemma PivotLosesMarkedPutOld()
    ensures var root := Binding(["r"], [], MountNone, None);
            var list, m: View := [root], map[[] := root];
            var after := Pivoted(m, list, ["n"], false, ["n", "o"], true);
            && Represents(list, m) && (forall y :: ExposedAlike(m, list, ["n"], ["o"], y))
            && HostAt(after, ["o", "."]) == Some(["r"])
            && Translate(after, ["o", "x"]) == Some(["r", "n", "o", "x"])
  {
    var root := Binding(["r"], [], MountNone, None);
    var list, m: View := [root], map[[] := root];
    assert Represents(list, m) by { assert list[0] == root; }
    forall y ensures ExposedAlike(m, list, ["n"], ["o"], y) {
      assert OldTree(m, ["n"]) == m;
      assert (["n"] + (["o"] + y))[0] == "n" && (["o"] + y)[0] == "o";
    }
    assert ["n"] < ["n", "o", "."] && ["n", "o"] + ["."] == ["n", "o", "."] && ["n", "o", "."][1..] == ["o", "."];
    OnlyRootBound(m, list, root, false, ["n", "o"], ["o", "."], ["o", "x"]);
    assert ["r", "n"] + ["o", "x"] == ["r", "n", "o", "x"];
  }

  /** pivot_root(".", ".") in /n: the old root sits at "/." and nothing but that
      name leads there. */
  lemma PivotToItselfLosesOldRoot()
    ensures var root := Binding(["r"], [], MountNone, None);
            var list, m: View := [root], map[[] := root];
            var after := Pivoted(m, list, ["n"], true, ["n"], true);
            && Represents(list, m) && HostAt(after, ["."]) == Some(["r"])
            && forall x :: Canonical(x) ==> Translate(after, x) == Some(["r", "n"] + x)
  {
    var root := Binding(["r"], [], MountNone, None);
    var list, m: View := [root], map[[] := root];
    assert Represents(list, m) by { assert list[0] == root; }
    assert ["n"] < ["n", "."] && ["n"] + ["."] == ["n", "."] && ["n", "."][1..] == ["."];
    forall x | Canonical(x) ensures Translate(Pivoted(m, list, ["n"], true, ["n"], true), x) == Some(["r", "n"] + x) {
      OnlyRootBound(m, list, root, true, ["n"], ["."], x);
    }
    assert Canonical([]);
    OnlyRootBound(m, list, root, true, ["n"], ["."], []);
  }

  /** A pivot to /n where nothing but "/" is bound. */
  lemma OnlyRootBound(m: View, list: seq<Binding>, root: Binding, dotted: bool, putOld: Path, after: Path, x: Path)
    requires root == Binding(["r"], [], MountNone, None) && list == [root] && m == map[[] := root] && Represents(list, m)
    requires after != [] && PutOldAfter(["n"], Kept(putOld, true)) == Some(after) && Canonical(x)
    ensures HostAt(Pivoted(m, list, ["n"], dotted, putOld, true), after) == Some(["r"])
    ensures Translate(Pivoted(m, list, ["n"], dotted, putOld, true), x) == Some(["r", "n"] + x)
  {
    assert ["n"][..0] == [] && ["r"] + ["n"] == ["r", "n"];
    assert Translate(m, ["n"]) == Some(["r", "n"]);
    assert !KeepsSlash(["n"], dotted) && Unmarked(["n"], dotted) == ["n"] && Unmarked(["r", "n"], dotted) == ["r", "n"];
    PivotedBelowPutOld(m, list, ["r", "n"], ["n"], after, []);
    assert after + [] == after && after[0..] == after;
    UnboundBelow(m, ["n"], x);
    PivotHidesOldRoot(m, list, ["n"], dotted, putOld, true, x);
    forall y | LeftBehind(m, ["n"], y) ensures false {}
    PivotShowsNewRoot(m, list, ["r", "n"], ["n"], None, x);
  }

  lemma {:induction false} UnboundBelow(m: View, a: Path, x: Path)
    requires forall g :: g in m ==> g == []
    requires a != [] && Translate(m, a).Some?
    ensures Translate(m, a + x) == Some(Translate(m, a).value + x)
    decreases |x|
  {
    if |x| == 0 {
      assert a + x == a && Translate(m, a).value + x == Translate(m, a).value;
    } else {
      var t := x[..|x| - 1];
      assert (a + x)[..|a + x| - 1] == a + t;
      UnboundBelow(m, a, t);
      assert t + [x[|x| - 1]] == x;
      assert Translate(m, a).value + t + [x[|x| - 1]] == Translate(m, a).value + x;
    }
  }

  lemma ExposedUntouched(m: View, list: seq<Binding>, newRoot: Path, putOld: Path, y: Path, q: Path, g: Path)
    requires Represents(list, m) && [] in m && putOld != []
    requires q == putOld + y && g == newRoot + q && q !in m && g !in m && (putOld <= y ==> y !in m)
    ensures ExposedAlike(m, list, newRoot, putOld, y)
  {
    var tree := OldTree(m, newRoot);
    var copy := CopyHost(m, newRoot, putOld, y);
    assert MoveHost(m, newRoot, q).None?;
    assert copy == if y == [] then None else HostAt(tree, y);
    assert BelowPutOld(m, list, newRoot, putOld, y) == if y == [] then HostAt(m, []) else copy;
  }

  /** A mount that sat under put_old stays there and hides the old root's own
      contents. */
  lemma PivotKeepsMountsUnderPutOld()
    ensures var inner := Binding(["h"], ["o", "y"], MountNone, None);
            var root := Binding(["r"], [], MountNone, None);
            var list, m: View := [inner, root], map[[] := root, ["o", "y"] := inner];
            && Represents(list, m) && Translate(m, ["n"]) == Some(["r", "n"]) && Translate(m, ["y"]) == Some(["r", "y"])
            && Translate(PivotView(m, list, ["r", "n"], ["n"], Some(["o"])), ["o", "y"]) == Some(["h"])
  {
    var inner, root := Binding(["h"], ["o", "y"], MountNone, None), Binding(["r"], [], MountNone, None);
    var list, m: View := [inner, root], map[[] := root, ["o", "y"] := inner];
    assert Represents(list, m) by { assert list[0] == inner && list[1] == root; }
    assert ["y"][..0] == [] && ["r"] + ["y"] == ["r", "y"];
    assert ["n"][..0] == [] && ["r"] + ["n"] == ["r", "n"];
    assert ["o"] + ["y"] == ["o", "y"];
    PivotedBelowPutOld(m, list, ["r", "n"], ["n"], ["o"], ["y"]);
    assert (["n"] + (["o"] + ["y"]))[0] == "n";
    assert ["o", "y"][0] == "o";
  }

  // ----- what the new root looks like afterwards -----

  /** Outside put_old only what moves up from the new root can land. */
  lemma {:induction false} LastLandingOutside(list: seq<Binding>, newRoot: Path, putOld: Option<Path>, q: Path, g: Path)
    requires q != [] && g == newRoot + q && (putOld.Some? ==> !(putOld.value <= q))
    requires Distinct(list)
    ensures LastLanding(list, newRoot, putOld, q) == if newRoot != [] then HostIn(list, g) else None
  {
    if |list| > 0 {
      TailDistinct(list);
      LastLandingOutside(list[1..], newRoot, putOld, q, g);
      assert newRoot <= g && (newRoot != [] ==> g != newRoot);
    }
  }

  /** The exact table after a pivot, for every path not under put_old: what was
      bound below the new root has moved up, and of the rest only bindings
      outside the new root are left behind. */
  lemma PivotedHost(m: View, list: seq<Binding>, host: Path, newRoot: Path, putOld: Option<Path>, q: Path)
    requires Represents(list, m) && [] in m
    requires putOld.Some? ==> !(putOld.value <= q)
    ensures HostAt(PivotView(m, list, host, newRoot, putOld), q) ==
            if |q| == 0 then Some(host)
            else if newRoot != [] && newRoot + q in m then HostAt(m, newRoot + q)
            else if AtOrUnder(newRoot, q) then None
            else HostAt(m, q)
  {
    if |q| == 0 {
      RootSurvives(PivotStart(m, host, putOld), list, newRoot, putOld);
    } else {
      FoldFromStart(m, list, host, newRoot, putOld, q);
      LastLandingOutside(list, newRoot, putOld, q, newRoot + q);
      HostInIsHostAt(list, m, newRoot + q);
    }
  }

  lemma {:induction false} RootSurvives(m: View, list: seq<Binding>, newRoot: Path, putOld: Option<Path>)
    requires [] in m && (putOld.Some? ==> putOld.value != [])
    ensures HostAt(PivotFold(m, list, newRoot, putOld), []) == HostAt(m, [])
    decreases |list|
  {
    if |list| > 0 {
      RootSurvives(PivotStep(m, list[0], newRoot, putOld), list[1..], newRoot, putOld);
    }
  }

  /** y is bound in the old tree and stays there after the pivot. */
  predicate LeftBehind(m: View, newRoot: Path, y: Path) {
    y != [] && y in m && !AtOrUnder(newRoot, y)
  }

  /** No binding left behind comes between s and what moved up. */
  ghost predicate Unshadowed(m: View, newRoot: Path, s: Path) {
    forall y :: y <= s && LeftBehind(m, newRoot, y) ==> exists z :: y <= z <= s && newRoot + z in m
  }

  /** Something bound below the new root is on the way to s. */
  ghost predicate Moved(m: View, newRoot: Path, s: Path) {
    exists z :: z <= s && z != [] && newRoot + z in m
  }

  /** The new root's tree is what the guest sees: outside put_old a path
      translates as it did below the new root, exactly when the new root's host
      is the right one, or the path leads through a binding that moved up. */
  lemma {:induction false} PivotShowsNewRoot(m: View, list: seq<Binding>, host: Path, newRoot: Path,
                                             putOld: Option<Path>, s: Path)
    requires Represents(list, m) && [] in m
    requires putOld.Some? ==> !(putOld.value <= s)
    requires Unshadowed(m, newRoot, s)
    ensures Translate(PivotView(m, list, host, newRoot, putOld), s) == Translate(m, newRoot + s) <==>
            Translate(m, newRoot) == Some(host) || Moved(m, newRoot, s)
    decreases |s|
  {
    var after := PivotView(m, list, host, newRoot, putOld);
    PivotedHost(m, list, host, newRoot, putOld, s);
    if |s| == 0 {
      assert newRoot + s == newRoot;
      assert HostAt(after, s) == Some(host);
    } else if newRoot + s in m {
      assert s <= s;
      assert newRoot == [] ==> newRoot + s == s;
    } else {
      var t := s[..|s| - 1];
      assert (newRoot + s)[..|newRoot + s| - 1] == newRoot + t;
      NotBoundAtShadow(m, newRoot, s);
      assert newRoot == [] ==> newRoot + s == s;
      assert s !in after;
      PutOldOfInit(putOld, s);
      UnshadowedInit(m, newRoot, s);
      MovedInit(m, newRoot, s);
      TranslateTotal(m, newRoot + t);
      PivotShowsNewRoot(m, list, host, newRoot, putOld, t);
      if Translate(after, t).Some? {
        LastCancels(Translate(after, t).value, Translate(m, newRoot + t).value, s[|s| - 1]);
      }
    }
  }

  lemma LastCancels(a: Path, b: Path, c: Name)
    ensures a + [c] == b + [c] <==> a == b
  {
    assert a == (a + [c])[..|a + [c]| - 1] && b == (b + [c])[..|b + [c]| - 1];
  }

  lemma MovedInit(m: View, newRoot: Path, s: Path)
    requires s != [] && newRoot + s !in m
    ensures Moved(m, newRoot, s) <==> Moved(m, newRoot, s[..|s| - 1])
  {
    var t := s[..|s| - 1];
    if Moved(m, newRoot, s) {
      var z :| z <= s && z != [] && newRoot + z in m;
      PrefixOfInit(z, s);
    }
    if Moved(m, newRoot, t) {
      var z :| z <= t && z != [] && newRoot + z in m;
      PrefixOfInit(z, s);
    }
  }

  lemma {:induction false} TranslateTotal(m: View, p: Path)
    requires [] in m
    ensures Translate(m, p).Some?
    decreases |p|
  {
    if p !in m { TranslateTotal(m, p[..|p| - 1]); }
  }

  /** The host is the right one exactly when chop_finality leaves it alone: the
      path was given with a final ".", or its host's last name has none. */
  lemma PivotKeepsPlainRoot(m: View, list: seq<Binding>, asked: Path, dotted: bool, putOld: Path, oldDotted: bool, s: Path)
    requires Represents(list, m) && [] in m && IsPath(asked)
    requires dotted || !EndsInDot(asked)
    requires !(asked < Kept(putOld, oldDotted) && Kept(putOld, oldDotted)[|asked|..] <= s)
    requires Unshadowed(m, asked, s) && !Moved(m, asked, s)
    ensures Translate(m, asked).Some?
    ensures Translate(Pivoted(m, list, asked, dotted, putOld, oldDotted), s) == Translate(m, asked + s) <==>
            dotted || !EndsInDot(Translate(m, asked).value)
  {
    TranslateIsPath(list, m, asked);
    var host := Translate(m, asked).value;
    ChopMarked(asked, dotted);
    ChopMarked(host, dotted);
    PivotShowsNewRoot(m, list, Unmarked(host, dotted), asked, PutOldAfter(asked, Kept(putOld, oldDotted)), s);
  }

  /** A new root that keeps its slash moves nothing: the root's host is exchanged
      and every binding stays. */
  lemma PivotOfSlashedRoot(m: View, list: seq<Binding>, asked: Path, dotted: bool, putOld: Path, oldDotted: bool, q: Path)
    requires Represents(list, m) && [] in m && IsPath(asked) && KeepsSlash(asked, dotted)
    ensures Translate(m, asked).Some?
    ensures HostAt(Pivoted(m, list, asked, dotted, putOld, oldDotted), q) ==
            if q == [] then Some(ChoppedPath(Translate(m, asked).value)) else HostAt(m, q)
  {
    TranslateIsPath(list, m, asked);
    PivotedHost(m, list, Unmarked(Translate(m, asked).value, dotted), [], None, q);
  }

  /** A guest path bound to the host's "/h.": after a pivot to it "/" is the
      host's own root. */
  lemma PivotLosesDottedHost()
    ensures var n, root := Binding(["h."], ["n"], MountNone, None), Binding(["r"], [], MountNone, None);
            var list, m: View := [n, root], map[[] := root, ["n"] := n];
            && Represents(list, m) && Translate(m, ["n", "x"]) == Some(["h.", "x"])
            && Translate(Pivoted(m, list, ["n"], false, ["n", "o"], false), ["x"]) == Some(["x"])
  {
    var n, root := Binding(["h."], ["n"], MountNone, None), Binding(["r"], [], MountNone, None);
    var list, m: View := [n, root], map[[] := root, ["n"] := n];
    assert Represents(list, m) by { assert list[0] == n && list[1] == root; }
    assert ["n", "x"][..1] == ["n"] && ["h."] + ["x"] == ["h.", "x"];
    assert ["n"][0] != ["x"][0] && ["n"] + ["x"] == ["n", "x"];
    DottedPivot(m, list, n);
  }

  lemma DottedPivot(m: View, list: seq<Binding>, n: Binding)
    requires Represents(list, m) && [] in m && ["n"] in m && m[["n"]].host == ["h."]
    requires ["x"] !in m && ["n", "x"] !in m
    ensures Translate(Pivoted(m, list, ["n"], false, ["n", "o"], false), ["x"]) == Some(["x"])
  {
    assert ["h."][..0] == [];
    assert ["n"] < ["n", "o"] && ["n", "o"][1..] == ["o"];
    assert Pivoted(m, list, ["n"], false, ["n", "o"], false) == PivotView(m, list, [], ["n"], Some(["o"]));
    assert ["o"][0] != ["x"][0] && ["n"] + ["x"] == ["n", "x"] && ["n"][0] != ["x"][0];
    UnboundGoesToRoot(m, list, [], ["n"], ["o"], ["x"]);
    assert [] + ["x"] == ["x"];
  }

  lemma UnboundGoesToRoot(m: View, list: seq<Binding>, host: Path, newRoot: Path, putOld: Path, x: Path)
    requires Represents(list, m) && [] in m && |x| == 1 && newRoot != []
    requires x !in m && newRoot + x !in m && !(putOld <= x)
    ensures Translate(PivotView(m, list, host, newRoot, Some(putOld)), x) == Some(host + x)
  {
    PivotedHost(m, list, host, newRoot, Some(putOld), x);
    var t := x[..0];
    EmptyPrefix(putOld);
    PivotedHost(m, list, host, newRoot, Some(putOld), t);
    assert x == [x[0]];
  }

  lemma PutOldOfInit(putOld: Option<Path>, s: Path)
    requires s != [] && (putOld.Some? ==> !(putOld.value <= s))
    ensures putOld.Some? ==> !(putOld.value <= s[..|s| - 1])
  {
    if putOld.Some? { PrefixOfInit(putOld.value, s); }
  }

  lemma NotBoundAtShadow(m: View, newRoot: Path, s: Path)
    requires Unshadowed(m, newRoot, s) && s != [] && newRoot + s !in m
    ensures !LeftBehind(m, newRoot, s)
  {
    assert s <= s;
    if LeftBehind(m, newRoot, s) {
      var z :| s <= z <= s && newRoot + z in m;
      SamePath(s, z);
    }
  }

  lemma SamePath(a: Path, b: Path)
    requires a <= b <= a
    ensures a == b
  {}

  lemma UnshadowedInit(m: View, newRoot: Path, s: Path)
    requires Unshadowed(m, newRoot, s) && s != [] && newRoot + s !in m
    ensures Unshadowed(m, newRoot, s[..|s| - 1])
  {
    var t := s[..|s| - 1];
    forall y | y <= t && LeftBehind(m, newRoot, y) ensures exists z :: y <= z <= t && newRoot + z in m {
      PrefixOfInit(y, s);
      var z :| y <= z <= s && newRoot + z in m;
      PrefixOfInit(z, s);
    }
  }

  /** And only then: a shadowed path goes where the longest binding left behind
      sends it. */
  lemma {:induction false} PivotShowsLeftBehind(m: View, list: seq<Binding>, host: Path, newRoot: Path,
                                                putOld: Option<Path>, s: Path)
    returns (y: Path)
    requires Represents(list, m) && [] in m && newRoot != []
    requires putOld.Some? ==> !(putOld.value <= s)
    requires !Unshadowed(m, newRoot, s)
    ensures y <= s && LeftBehind(m, newRoot, y)
    ensures forall x :: x <= s && LeftBehind(m, newRoot, x) ==> x <= y
    ensures Translate(PivotView(m, list, host, newRoot, putOld), s) == Some(m[y].host + s[|y|..])
    decreases |s|
  {
    var after := PivotView(m, list, host, newRoot, putOld);
    PivotedHost(m, list, host, newRoot, putOld, s);
    if |s| == 0 {
      RootUnshadowed(m, newRoot);
      assert false;
    } else if newRoot + s in m {
      MovedUnshadowed(m, newRoot, s);
      assert false;
    } else if LeftBehind(m, newRoot, s) {
      y := s;
      assert m[y].host + s[|y|..] == m[y].host;
    } else {
      var t := s[..|s| - 1];
      PutOldOfInit(putOld, s);
      ShadowedInit(m, newRoot, s);
      y := PivotShowsLeftBehind(m, list, host, newRoot, putOld, t);
      forall x | x <= s && LeftBehind(m, newRoot, x) ensures x <= y { PrefixOfInit(x, s); }
      PrefixOfInit(y, s);
      assert s[|y|..] == t[|y|..] + [s[|s| - 1]];
      assert m[y].host + s[|y|..] == m[y].host + t[|y|..] + [s[|s| - 1]];
    }
  }

  lemma RootUnshadowed(m: View, newRoot: Path)
    ensures Unshadowed(m, newRoot, [])
  {
    forall y | LeftBehind(m, newRoot, y) ensures !(y <= []) {
      EmptyPrefix(y);
    }
  }

  lemma EmptyPrefix(y: Path)
    ensures y <= [] ==> y == []
  {}

  lemma MovedUnshadowed(m: View, newRoot: Path, s: Path)
    requires newRoot + s in m
    ensures Unshadowed(m, newRoot, s)
  {
    assert s <= s;
    forall y | y <= s && LeftBehind(m, newRoot, y) ensures exists z :: y <= z <= s && newRoot + z in m {
      assert y <= s <= s && newRoot + s in m;
    }
  }

  lemma ShadowedInit(m: View, newRoot: Path, s: Path)
    requires !Unshadowed(m, newRoot, s) && s != [] && !LeftBehind(m, newRoot, s)
    ensures !Unshadowed(m, newRoot, s[..|s| - 1])
  {
    var t := s[..|s| - 1];
    var y :| y <= s && LeftBehind(m, newRoot, y) && !exists z :: y <= z <= s && newRoot + z in m;
    PrefixOfInit(y, s);
    if exists z :: y <= z <= t && newRoot + z in m {
      var z :| y <= z <= t && newRoot + z in m;
      PrefixOfInit(z, s);
    }
  }

  /** A pivot to "/" itself only adds the alias, unless its host is chopped: all
      that is not bound elsewhere goes with the root. */
  lemma PivotToRootKeepsView(m: View, list: seq<Binding>, host: Path, putOld: Option<Path>, s: Path)
    requires Represents(list, m) && [] in m
    requires putOld.Some? ==> !(putOld.value <= s)
    ensures Translate(PivotView(m, list, host, [], putOld), s) == Translate(m, s) <==>
            Translate(m, []) == Some(host) || exists z :: z <= s && z != [] && z in m
  {
    assert [] + s == s;
    forall z ensures [] + z in m <==> z in m { assert [] + z == z; }
    forall y | y <= s && LeftBehind(m, [], y) ensures exists z :: y <= z <= s && [] + z in m {
      assert y <= y && [] + y in m;
    }
    PivotShowsNewRoot(m, list, host, [], putOld, s);
    if exists z :: z <= s && z != [] && z in m {
      var z :| z <= s && z != [] && z in m;
      assert [] + z in m;
    }
  }
}
