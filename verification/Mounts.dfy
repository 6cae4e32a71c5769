/** mount, recursive bind and umount as src/syscall/enter.c emulates them: by
    rewriting the binding table and nothing else. */
module Mounts {
  import opened Wrappers
  import opened Paths
  import opened Bindings

  // ----- recursive bind -----

  datatype RecursiveBinding = RecursiveBinding(host: Path, suffix: Path, kind: MountKind)

  /** The mounts nested strictly below source, in list order. */
  function SnapshotOf(list: seq<Binding>, source: Path): seq<RecursiveBinding> {
    if |list| == 0 then []
    else if source < list[0].guest then
      [RecursiveBinding(list[0].host, list[0].guest[|source|..], list[0].kind)] + SnapshotOf(list[1..], source)
    else SnapshotOf(list[1..], source)
  }

  function Replayed(m: View, snapshot: seq<RecursiveBinding>, target: Path): View
    decreases |snapshot|
  {
    if |snapshot| == 0 then m
    else Replayed(Mounted(m, snapshot[0].host, target + snapshot[0].suffix, snapshot[0].kind), snapshot[1..], target)
  }

  /** The view after a mount; source is what a recursive bind copies from. */
  function MountedView(m: View, list: seq<Binding>, host: Path, target: Path, kind: MountKind, source: Option<Path>): View {
    match source
    case None => Mounted(m, host, target, kind)
    case Some(s) => Replayed(Mounted(m, host, target, kind), SnapshotOf(list, s), target)
  }

  /** The host list after the same steps. */
  ghost function HostReplayed(m: View, host: seq<Binding>, snapshot: seq<RecursiveBinding>, target: Path): seq<Binding>
    decreases |snapshot|
  {
    if |snapshot| == 0 then host
    else
      var b := Binding(snapshot[0].host, target + snapshot[0].suffix, snapshot[0].kind, None);
      HostReplayed(Inserted(m, b), HostMounted(m, host, b), snapshot[1..], target)
  }

  ghost function HostAfterMount(m: View, host: seq<Binding>, list: seq<Binding>, b: Binding, source: Option<Path>): seq<Binding> {
    match source
    case None => HostMounted(m, host, b)
    case Some(s) => HostReplayed(Inserted(m, b), HostMounted(m, host, b), SnapshotOf(list, s), b.guest)
  }

  lemma {:induction false} SnapshotAppend(list: seq<Binding>, source: Path, b: Binding)
    ensures SnapshotOf(list + [b], source) ==
            SnapshotOf(list, source)
            + (if source < b.guest then [RecursiveBinding(b.host, b.guest[|source|..], b.kind)] else [])
  {
    if |list| == 0 {
      assert list + [b] == [b];
    } else {
      assert (list + [b])[1..] == list[1..] + [b];
      SnapshotAppend(list[1..], source, b);
    }
  }

  predicate GoodSnapshot(snapshot: seq<RecursiveBinding>) {
    forall i :: 0 <= i < |snapshot| ==> IsPath(snapshot[i].host) && IsPath(snapshot[i].suffix)
  }

  /** Where a recursive bind looks for nested mounts.  The path that comes back
      from the host carries no mark, yet chop_finality is applied to it. */
  function SnapshotSource(hostList: seq<Binding>, sourceHost: Path): Option<Path> {
    match Detranslated(hostList, sourceHost)
    case None => None
    case Some(source) => Some(ChoppedPath(source))
  }

  method SnapshotRecursiveBindings(ns: Namespace, sourceHost: Path) returns (snapshot: seq<RecursiveBinding>)
    requires ns.Valid() && IsPath(sourceHost)
    modifies ns`entries, ns`cachedRoot
    ensures ns.Valid() && GoodSnapshot(snapshot)
    ensures match SnapshotSource(ns.host, sourceHost)
            case None => snapshot == []
            case Some(source) => snapshot == SnapshotOf(ns.guest, source)
  {
    snapshot := [];
    var text := ns.DetranslatePath(sourceHost);
    if text.None? {
      return;
    }
    DetranslatedIsPath(ns.guest, ns.host, ns.view, sourceHost);
    ghost var source := Detranslated(ns.host, sourceHost).value;
    ChopRendered(source);
    snapshot := CollectNested(ns.guest, Chopped(text.value), ChoppedPath(source));
  }

  lemma DetranslatedIsPath(guestList: seq<Binding>, hostList: seq<Binding>, m: View, p: Path)
    requires Represents(guestList, m) && multiset(hostList) == multiset(guestList) && IsPath(p)
    ensures forall i :: 0 <= i < |guestList| ==> WellFormed(guestList[i])
    ensures Detranslated(hostList, p).Some? ==> IsPath(Detranslated(hostList, p).value)
  {
    SameMembers(hostList, guestList);
    HostScanMember(hostList, p);
    assert forall i :: 0 <= i < |guestList| ==> guestList[i] in guestList;
  }

  /** On the spelling of the source, which may have kept a slash behind it. */
  method CollectNested(list: seq<Binding>, text: string, ghost source: Path) returns (snapshot: seq<RecursiveBinding>)
    requires IsPath(source) && Spells(text, source) && forall i :: 0 <= i < |list| ==> WellFormed(list[i])
    ensures snapshot == SnapshotOf(list, source) && GoodSnapshot(snapshot)
  {
    snapshot := [];
    for i := 0 to |list|
      invariant snapshot == SnapshotOf(list[..i], source) && GoodSnapshot(snapshot)
    {
      assert list[..i + 1] == list[..i] + [list[i]];
      SnapshotAppend(list[..i], source, list[i]);
      var suffix := SuffixBelow(text, source, list[i].guest);
      if suffix.None? {
        continue;
      }
      snapshot := snapshot + [RecursiveBinding(list[i].host, suffix.value, list[i].kind)];
    }
    assert list[..|list|] == list;
  }

  method SuffixBelow(text: string, ghost source: Path, guest: Path) returns (suffix: Option<Path>)
    requires IsPath(source) && Spells(text, source) && IsPath(guest)
    ensures suffix == if source < guest then Some(guest[|source|..]) else None
    ensures suffix.Some? ==> IsPath(suffix.value)
  {
    CompareSpelled(text, source, guest);
    CompareRendered(source, guest);
    var cmp := ComparePaths(text, Render(guest));
    if cmp != Path1IsPrefix {
      return None;
    }
    assert guest == source + guest[|source|..];
    SuffixSpelled(text, source, guest, guest[|source|..]);
    var rest := Render(guest);
    if |text| != 1 {
      rest := rest[|text|..];
    }
    return Some(Split(rest));
  }

  method ReplayRecursiveBindings(ns: Namespace, snapshot: seq<RecursiveBinding>, target: Path)
    requires ns.Linked() && IsPath(target) && GoodSnapshot(snapshot)
    modifies ns
    ensures ns.Linked() && ns.view == Replayed(old(ns.view), snapshot, target)
    ensures ns.host == HostReplayed(old(ns.view), old(ns.host), snapshot, target)
  {
    for i := 0 to |snapshot|
      invariant ns.Linked()
      invariant HostReplayed(old(ns.view), old(ns.host), snapshot, target) == HostReplayed(ns.view, ns.host, snapshot[i..], target)
      invariant Replayed(old(ns.view), snapshot, target) == Replayed(ns.view, snapshot[i..], target)
    {
      var r := snapshot[i];
      assert snapshot[i..][1..] == snapshot[i + 1..];
      var _ := ns.Insort(r.host, target + r.suffix, r.kind);
    }
  }

  /** emulate_mount once its source and target are resolved. */
  method EmulateMount(ns: Namespace, hostPath: Path, target: Path, kind: MountKind, recursive: bool)
    requires ns.Valid() && IsPath(hostPath) && IsPath(target)
    modifies ns
    ensures ns.Valid()
    ensures ns.view == MountedView(old(ns.view), old(ns.guest), hostPath, target, kind,
                                   if recursive then SnapshotSource(old(ns.host), hostPath) else None)
    ensures ns.host == HostAfterMount(old(ns.view), old(ns.host), old(ns.guest), Binding(hostPath, target, kind, None),
                                      if recursive then SnapshotSource(old(ns.host), hostPath) else None)
  {
    var snapshot := [];
    if recursive {
      snapshot := SnapshotRecursiveBindings(ns, hostPath);
    }
    var _ := ns.Insort(hostPath, target, kind);
    ReplayKeepsKeys(ns.view, snapshot, target);
    ReplayRecursiveBindings(ns, snapshot, target);
  }

  lemma {:induction false} ReplayKeepsKeys(m: View, snapshot: seq<RecursiveBinding>, target: Path)
    ensures m.Keys <= Replayed(m, snapshot, target).Keys
    decreases |snapshot|
  {
    if |snapshot| > 0 {
      ReplayKeepsKeys(Mounted(m, snapshot[0].host, target + snapshot[0].suffix, snapshot[0].kind), snapshot[1..], target);
    }
  }

  /** The host of the first entry bound at exactly p. */
  function HostIn(list: seq<Binding>, p: Path): Option<Path> {
    if |list| == 0 then None
    else if list[0].guest == p then Some(list[0].host)
    else HostIn(list[1..], p)
  }

  lemma {:induction false} HostInMembers(list: seq<Binding>, p: Path)
    ensures HostIn(list, p).None? ==> forall b :: b in list ==> b.guest != p
    ensures HostIn(list, p).Some? ==> exists b :: b in list && b.guest == p && b.host == HostIn(list, p).value
  {
    if list != [] && list[0].guest != p { HostInMembers(list[1..], p); }
  }

  lemma HostInIsHostAt(list: seq<Binding>, m: View, p: Path)
    requires Represents(list, m)
    ensures HostIn(list, p) == HostAt(m, p)
  {
    HostInMembers(list, p);
  }

  /** What a replay binds where. */
  lemma {:induction false} ReplayedHosts(m: View, list: seq<Binding>, source: Path, target: Path, y: Path)
    requires Distinct(list)
    ensures HostAt(Replayed(m, SnapshotOf(list, source), target), target + y) ==
            if y == [] || HostIn(list, source + y).None? then HostAt(m, target + y) else HostIn(list, source + y)
    decreases |list|
  {
    if |list| > 0 {
      var b, rest := list[0], list[1..];
      assert forall i, j :: 0 <= i < j < |rest| ==> rest[i] == list[i + 1] && rest[j] == list[j + 1];
      if source < b.guest {
        var suffix := b.guest[|source|..];
        assert source + suffix == b.guest;
        var m' := Mounted(m, b.host, target + suffix, b.kind);
        assert SnapshotOf(list, source)[1..] == SnapshotOf(rest, source);
        ReplayedHosts(m', rest, source, target, y);
        SuffixDetermined(source, y, suffix);
        SuffixDetermined(target, y, suffix);
        if y == suffix {
          HostInMembers(rest, source + y);
          assert HostIn(rest, source + y).None? by {
            forall x | x in rest ensures x.guest != source + y {
              var i :| 0 <= i < |rest| && rest[i] == x;
              assert list[i + 1].guest != list[0].guest;
            }
          }
        }
      } else {
        ReplayedHosts(m, rest, source, target, y);
        assert y != [] ==> source < source + y;
      }
    }
  }

  lemma SuffixDetermined(a: Path, x: Path, y: Path)
    ensures a + x == a + y <==> x == y
  {
    assert (a + x)[|a|..] == x && (a + y)[|a|..] == y;
  }

  /** What a recursive bind that looks for mounts below `from` binds below its target. */
  lemma MountedHosts(m: View, list: seq<Binding>, host: Path, target: Path, kind: MountKind, from: Path, y: Path)
    requires Represents(list, m)
    ensures HostAt(MountedView(m, list, host, target, kind, Some(from)), target + y) ==
            if y == [] then Some(host) else if from + y in m then HostAt(m, from + y) else HostAt(m, target + y)
  {
    var base := Mounted(m, host, target, kind);
    ReplayedHosts(base, list, from, target, y);
    HostInIsHostAt(list, m, from + y);
    SuffixDetermined(target, y, []);
    assert target + [] == target;
  }

  /** Whether the bind leaves target + y where source + y is: a copied mount goes
      where the source's path goes, so does one that was there before, and no
      mount of the source is missed. */
  predicate NestedAlike(m: View, source: Path, from: Path, target: Path, y: Path) {
    if from + y in m then HostAt(m, from + y) == Translate(m, source + y)
    else if target + y in m then HostAt(m, target + y) == Translate(m, source + y)
    else if source + y in m && source + y != [] then HostAt(m, source + y) == ThroughParent(m, source + y)
    else true
  }

  /** The exact condition for one path and everything on the way to it. */
  lemma RecursiveBindUpTo(m: View, list: seq<Binding>, host: Path, source: Path, from: Path, target: Path,
                          kind: MountKind, s: Path)
    requires Represents(list, m)
    ensures TranslateAlike(MountedView(m, list, host, target, kind, Some(from)), target, m, source, s) <==>
            Translate(m, source) == Some(host) && forall y :: y <= s && y != [] ==> NestedAlike(m, source, from, target, y)
  {
    var after := MountedView(m, list, host, target, kind, Some(from));
    MountedHosts(m, list, host, target, kind, from, []);
    assert target + [] == target;
    SubtreesAgree(after, target, m, source, s);
    forall y | y != [] ensures AgreeAt(after, target + y, m, source + y) <==> NestedAlike(m, source, from, target, y) {
      MountedHosts(m, list, host, target, kind, from, y);
    }
  }

  /** A recursive bind shows the source tree, nested mounts included, at the
      target, whatever the source is called, exactly when the source is where the
      host path is found and every mount agrees. */
  lemma RecursiveBindExactly(m: View, list: seq<Binding>, host: Path, source: Path, from: Path, target: Path,
                             kind: MountKind)
    requires Represents(list, m)
    ensures var after := MountedView(m, list, host, target, kind, Some(from));
            (forall s :: Translate(after, target + s) == Translate(m, source + s)) <==>
            Translate(m, source) == Some(host) && forall y :: y != [] ==> NestedAlike(m, source, from, target, y)
  {
    var after := MountedView(m, list, host, target, kind, Some(from));
    assert source + [] == source && target + [] == target;
    if forall s :: Translate(after, target + s) == Translate(m, source + s) {
      forall y | y != [] ensures NestedAlike(m, source, from, target, y) {
        RecursiveBindUpTo(m, list, host, source, from, target, kind, y);
        assert y <= y;
      }
      MountedHosts(m, list, host, target, kind, from, []);
      assert Translate(after, target + []) == Translate(m, source + []);
    } else if Translate(m, source) == Some(host) && forall y :: y != [] ==> NestedAlike(m, source, from, target, y) {
      forall s ensures Translate(after, target + s) == Translate(m, source + s) {
        RecursiveBindUpTo(m, list, host, source, from, target, kind, s);
        assert s <= s;
      }
    }
  }

  /** Unless the source's last name ends in a dot, only a mount that was below
      the target before can spoil the picture: the bind shows the source exactly
      when every such mount is covered by a copy or leads where the source does.
      Source and target may overlap in either direction. */
  lemma RecursiveBindShowsSource(m: View, guestList: seq<Binding>, hostList: seq<Binding>,
                                 hostPath: Path, source: Path, target: Path, kind: MountKind)
    requires Represents(guestList, m)
    requires Detranslated(hostList, hostPath) == Some(source)
    requires !EndsInDot(source)
    ensures var after := MountedView(m, guestList, hostPath, target, kind, SnapshotSource(hostList, hostPath));
            (forall s :: Translate(after, target + s) == Translate(m, source + s)) <==>
            && Translate(m, source) == Some(hostPath)
            && forall y :: y != [] && target + y in m && source + y !in m
                           ==> Some(m[target + y].host) == Translate(m, source + y)
  {
    RecursiveBindExactly(m, guestList, hostPath, source, source, target, kind);
    forall y | y != []
      ensures NestedAlike(m, source, source, target, y) <==>
              (target + y in m && source + y !in m ==> Some(m[target + y].host) == Translate(m, source + y))
    {
    }
  }

  /** A root and two other bindings, as a list and as a table. */
  function ThreeBound(host: Path, a: Binding, b: Binding): View {
    map[[] := Binding(host, [], MountNone, None), a.guest := a, b.guest := b]
  }

  function ThreeListed(host: Path, a: Binding, b: Binding): seq<Binding> {
    [a, b, Binding(host, [], MountNone, None)]
  }

  lemma ThreeRepresented(host: Path, a: Binding, b: Binding)
    requires IsPath(host) && WellFormed(a) && WellFormed(b)
    requires a.guest != [] && b.guest != [] && a.guest != b.guest
    ensures Represents(ThreeListed(host, a, b), ThreeBound(host, a, b))
  {
    var list := ThreeListed(host, a, b);
    assert list[0] == a && list[1] == b && list[2] == Binding(host, [], MountNone, None);
  }

  /** A source whose last name does end in a dot: "/x." is taken for a marked "/",
      and the mounts below "/" are copied instead of its own. */
  lemma RecursiveBindOfDottedSource()
    ensures var x, dev := Binding(["h"], ["x."], MountNone, None), Binding(["d"], ["dev"], MountNone, None);
            var list, m := ThreeListed(["r"], x, dev), ThreeBound(["r"], x, dev);
            && Represents(list, m) && Detranslated(list, ["h"]) == Some(["x."]) && SnapshotSource(list, ["h"]) == Some([])
            && Translate(m, ["x."]) == Some(["h"]) && Translate(m, ["x.", "dev"]) == Some(["h", "dev"])
            && Translate(MountedView(m, list, ["h"], ["t"], MountNone, SnapshotSource(list, ["h"])), ["t", "dev"]) == Some(["d"])
  {
    var x, dev := Binding(["h"], ["x."], MountNone, None), Binding(["d"], ["dev"], MountNone, None);
    var list, m := ThreeListed(["r"], x, dev), ThreeBound(["r"], x, dev);
    assert ["x."][0] != ["dev"][0];
    ThreeRepresented(["r"], x, dev);
    DottedSource(list, x);
    DottedView(m, list, dev);
    assert ["x.", "dev"][..1] == ["x."] && ["h"] + ["dev"] == ["h", "dev"];
  }

  lemma DottedSource(list: seq<Binding>, x: Binding)
    requires list != [] && list[0] == x && x.host == ["h"] && x.guest == ["x."]
    ensures Detranslated(list, ["h"]) == Some(["x."]) && SnapshotSource(list, ["h"]) == Some([])
  {
    assert HostScan(list, ["h"]) == Some(x);
    assert DropHost(x, ["h"]) == [] && ["x."] + [] == ["x."];
    assert ["x."][..0] == [];
  }

  lemma DottedView(m: View, list: seq<Binding>, dev: Binding)
    requires Represents(list, m) && dev.guest in m && m[dev.guest] == dev && dev.guest == ["dev"]
    ensures Translate(MountedView(m, list, ["h"], ["t"], MountNone, Some([])), ["t", "dev"]) == Some(dev.host)
  {
    MountedHosts(m, list, ["h"], ["t"], MountNone, [], ["dev"]);
    assert ["t"] + ["dev"] == ["t", "dev"] && [] + ["dev"] == ["dev"];
  }

  /** Something bound strictly below the target stays visible there, and leads
      elsewhere than the source does. */
  lemma RecursiveBindLeavesOlderMountsBelowTarget()
    ensures var root := Binding(["r"], [], MountNone, None);
            var older := Binding(["old"], ["t", "x"], MountNone, None);
            var list := [older, root];
            var m: View := map[[] := root, ["t", "x"] := older];
            Represents(list, m) && Translate(m, ["s"]) == Some(["r", "s"])
            && Translate(MountedView(m, list, ["r", "s"], ["t"], MountNone, Some(["s"])), ["t", "x"]) == Some(["old"])
            && Translate(m, ["s", "x"]) == Some(["r", "s", "x"])
  {
    var root := Binding(["r"], [], MountNone, None);
    var older := Binding(["old"], ["t", "x"], MountNone, None);
    var list := [older, root];
    var m: View := map[[] := root, ["t", "x"] := older];
    assert Translate(m, []) == Some(["r"]);
    assert ["s"][..0] == [] && ["r"] + ["s"] == ["r", "s"];
    assert Translate(m, ["s"]) == Some(["r", "s"]);
    assert ["s", "x"][..1] == ["s"] && ["s", "x"][0] != ["t", "x"][0];
    assert SnapshotOf([root], ["s"]) == [];
    assert list[1..] == [root];
    assert SnapshotOf(list, ["s"]) == [];
    assert Represents(list, m) by {
      assert list[0] == older && list[1] == root;
    }
    assert ["r", "s"] + ["x"] == ["r", "s", "x"];
  }

  /** A mount, recursive or not, changes nothing outside its target. */
  lemma {:induction false} MountIsLocal(m: View, list: seq<Binding>, hostPath: Path, target: Path, kind: MountKind,
                                        source: Option<Path>, p: Path)
    requires !(target <= p)
    ensures Translate(MountedView(m, list, hostPath, target, kind, source), p) == Translate(m, p)
    decreases |p|
  {
    var base := Mounted(m, hostPath, target, kind);
    if source.Some? { ReplayIsLocal(base, SnapshotOf(list, source.value), target, p); }
    if |p| > 0 {
      PrefixOfInit(target, p);
      MountIsLocal(m, list, hostPath, target, kind, source, p[..|p| - 1]);
    }
  }

  lemma {:induction false} ReplayIsLocal(m: View, snapshot: seq<RecursiveBinding>, target: Path, p: Path)
    requires !(target <= p)
    ensures HostAt(Replayed(m, snapshot, target), p) == HostAt(m, p)
    decreases |snapshot|
  {
    if |snapshot| > 0 {
      var r := snapshot[0];
      ReplayIsLocal(Mounted(m, r.host, target + r.suffix, r.kind), snapshot[1..], target, p);
    }
  }

  // ----- umount -----

  function Unmounted(m: View, g: Path): View {
    if g == [] || g !in m then m else Uncovered(m, g)
  }

  /** emulate_umount: "/" and paths that are not mount points are left alone. */
  method EmulateUmount(ns: Namespace, target: Path)
    requires ns.Valid() && IsPath(target)
    modifies ns
    ensures ns.Valid() && ns.view == Unmounted(old(ns.view), target)
    ensures ns.host == if target == [] || target !in old(ns.view) then old(ns.host) else HostUncovered(old(ns.view), old(ns.host), target)
  {
    if |target| == 0 {
      return;
    }
    var binding := ns.GetBinding(Guest, target);
    LookupAtPath(ns.guest, ns.view, target);
    if binding.None? {
      return;
    }
    if binding.value.guest != target {
      return;
    }
    ns.RemoveBindingAndRestoreCovered(binding.value);
  }

  lemma LookupAtPath(list: seq<Binding>, m: View, p: Path)
    requires Represents(list, m)
    ensures p in m ==> Lookup(m, p) == Some(m[p]) && m[p].guest == p && m[p] in list
    ensures p !in m && Lookup(m, p).Some? ==> Lookup(m, p).value.guest != p
  {
    LookupIsLongestPrefix(m, p);
  }

  // ----- mounts at one path are a stack -----

  datatype Layer = Layer(host: Path, kind: MountKind)

  type Stacks = map<Path, seq<Layer>>

  /** A binding and everything it covers, top first. */
  function Stack(b: Binding): (layers: seq<Layer>)
    ensures layers != []
  {
    [Layer(b.host, b.kind)] + if b.covered.Some? then Stack(b.covered.value) else []
  }

  function StacksOf(m: View): Stacks {
    map p | p in m :: Stack(m[p])
  }

  datatype Op = DoMount(host: Path, guest: Path, kind: MountKind) | DoUmount(target: Path)

  function Step(m: View, op: Op): View {
    match op
    case DoMount(h, g, k) => Mounted(m, h, g, k)
    case DoUmount(g) => Unmounted(m, g)
  }

  /** What op ought to do when every path just has a stack of mounts. */
  function StackStep(s: Stacks, op: Op): Stacks {
    match op
    case DoMount(h, g, k) => s[g := [Layer(h, k)] + if g in s then s[g] else []]
    case DoUmount(g) =>
      if g == [] || g !in s then s
      else if |s[g]| <= 1 then s - {g}
      else s[g := s[g][1..]]
  }

  function Run(m: View, ops: seq<Op>): View
    decreases |ops|
  {
    if |ops| == 0 then m else Run(Step(m, ops[0]), ops[1..])
  }

  function StackRun(s: Stacks, ops: seq<Op>): Stacks
    decreases |ops|
  {
    if |ops| == 0 then s else StackRun(StackStep(s, ops[0]), ops[1..])
  }

  lemma StepRefinesStackStep(m: View, op: Op)
    requires Keyed(m)
    ensures StacksOf(Step(m, op)) == StackStep(StacksOf(m), op)
  {
    match op
    case DoMount(h, g, k) =>
      var b := Covering(m, Binding(h, g, k, None));
      assert Stack(b) == [Layer(h, k)] + if g in m then Stack(m[g]) else [];
    case DoUmount(g) =>
      if g != [] && g in m {
        var b := m[g];
        assert Stack(b) == [Layer(b.host, b.kind)] + if b.covered.Some? then Stack(b.covered.value) else [];
        if b.covered.Some? { assert Stack(b)[1..] == Stack(b.covered.value); }
      }
  }

  lemma StepKeepsKeyed(m: View, op: Op)
    requires Keyed(m)
    requires op.DoMount? ==> IsPath(op.host) && IsPath(op.guest)
    ensures Keyed(Step(m, op))
  {
    match op
    case DoMount(h, g, k) =>
      assert WellFormed(Covering(m, Binding(h, g, k, None)));
    case DoUmount(g) =>
  }

  predicate GoodOps(ops: seq<Op>) {
    forall i :: 0 <= i < |ops| && ops[i].DoMount? ==> IsPath(ops[i].host) && IsPath(ops[i].guest)
  }

  /** Over every run of mounts and umounts, at any paths in any order, the
      covered chains behave as one stack per path. */
  lemma {:induction false} RunRefinesStackRun(m: View, ops: seq<Op>)
    requires Keyed(m) && GoodOps(ops)
    ensures Keyed(Run(m, ops)) && StacksOf(Run(m, ops)) == StackRun(StacksOf(m), ops)
    decreases |ops|
  {
    if |ops| > 0 {
      StepRefinesStackStep(m, ops[0]);
      StepKeepsKeyed(m, ops[0]);
      RunRefinesStackRun(Step(m, ops[0]), ops[1..]);
    }
  }

  /** The stacks say everything: equal stacks mean the same table. */
  lemma StacksDetermineView(m1: View, m2: View)
    requires Keyed(m1) && Keyed(m2) && StacksOf(m1) == StacksOf(m2)
    ensures m1 == m2
  {
    assert m1.Keys == StacksOf(m1).Keys == StacksOf(m2).Keys == m2.Keys;
    forall p | p in m1 ensures m1[p] == m2[p] {
      assert StacksOf(m1)[p] == StacksOf(m2)[p];
      StackDeterminesBinding(m1[p], m2[p]);
    }
  }

  lemma {:induction false} StackDeterminesBinding(a: Binding, b: Binding)
    requires WellFormed(a) && WellFormed(b) && a.guest == b.guest && Stack(a) == Stack(b)
    ensures a == b
  {
    assert Stack(a)[0] == Stack(b)[0];
    assert Stack(a)[1..] == if a.covered.Some? then Stack(a.covered.value) else [];
    assert Stack(b)[1..] == if b.covered.Some? then Stack(b.covered.value) else [];
    if a.covered.Some? && b.covered.Some? {
      StackDeterminesBinding(a.covered.value, b.covered.value);
    }
  }

  /** A mount and the umount of its path cancel, except at "/", which cannot be
      unmounted. */
  lemma UmountUndoesMount(m: View, host: Path, guest: Path, kind: MountKind)
    requires Keyed(m)
    ensures Unmounted(Mounted(m, host, guest, kind), guest) == m <==> guest != []
  {
    var after := Mounted(m, host, guest, kind);
    if |guest| == 0 {
      if [] in m { CoveredIsSmaller(after[[]]); }
    } else if guest in m {
      assert Uncovered(after, guest) == m;
    } else {
      assert after - {guest} == m;
    }
  }

  lemma CoveredIsSmaller(b: Binding)
    ensures b.covered != Some(b)
  {
    if b.covered.Some? { StackGrows(b); }
  }

  lemma StackGrows(b: Binding)
    requires b.covered.Some?
    ensures |Stack(b)| == 1 + |Stack(b.covered.value)|
  {}

  /** Properly nested mounts and umounts. */
  datatype Nest = Done | Bracket(host: Path, guest: Path, kind: MountKind, inner: Nest, next: Nest)

  predicate GoodNest(n: Nest) {
    n.Bracket? ==> IsPath(n.host) && IsPath(n.guest) && n.guest != [] && GoodNest(n.inner) && GoodNest(n.next)
  }

  function RunNest(m: View, n: Nest): View
    decreases n
  {
    match n
    case Done => m
    case Bracket(h, g, k, inner, next) => RunNest(Unmounted(RunNest(Mounted(m, h, g, k), inner), g), next)
  }

  /** Any nesting of mounts and umounts leaves the table as it was. */
  lemma {:induction false} NestRestoresView(m: View, n: Nest)
    requires Keyed(m) && GoodNest(n)
    ensures RunNest(m, n) == m
    decreases n
  {
    match n
    case Done =>
    case Bracket(h, g, k, inner, next) =>
      StepKeepsKeyed(m, DoMount(h, g, k));
      NestRestoresView(Mounted(m, h, g, k), inner);
      UmountUndoesMount(m, h, g, k);
      NestRestoresView(m, next);
  }
}
