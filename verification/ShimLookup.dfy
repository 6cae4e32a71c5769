/** The shim's path translation, and where it agrees with the tracer's. */
module ShimLookup {
  import opened Wrappers
  import opened Paths
  import opened Bindings
  import opened Shim

  /** prefix_match */
  predicate Covers(b: Bind, path: string) {
    b.guest == "/" || AtBoundary(b.guest, path)
  }

  /** The first of the longest entries that cover a path. */
  function Scan(binds: seq<Bind>, path: string): (r: Option<nat>)
    ensures r.Some? ==> r.value < |binds|
  {
    if |binds| == 0 then None
    else
      var i := |binds| - 1;
      var best := Scan(binds[..i], path);
      if Covers(binds[i], path) && (best.None? || |binds[i].guest| > |binds[best.value].guest|) then Some(i) else best
  }

  /** What to_host makes of an entry; a result that would not fit leaves the path. */
  function Rest(b: Bind, path: string): string
    requires path != "" && Covers(b, path)
  {
    var rest := if b.guest == "/" then path[1..] else path[|b.guest|..];
    if rest != "" && rest[0] == '/' then rest[1..] else rest
  }

  function Replaced(b: Bind, path: string): string
    requires path != "" && Covers(b, path) && b.host != ""
  {
    var slash := b.host[|b.host| - 1] == '/';
    var rest := Rest(b, path);
    if |b.host| + (if slash then 0 else 1) + |rest| + 1 >= PATH_MAX then path
    else (if slash then b.host else b.host + "/") + rest
  }

  /** The lookup's answer: from the entry chosen, from the root, or the path. */
  function Answer(binds: seq<Bind>, chosen: Option<nat>, rootfs: string, path: string): string
    requires path != "" && (chosen.Some? ==> chosen.value < |binds| && Covers(binds[chosen.value], path) && binds[chosen.value].host != "")
  {
    if chosen.Some? then Replaced(binds[chosen.value], path)
    else if rootfs != "" && |rootfs| + |path| + 1 < PATH_MAX then rootfs + path
    else path
  }

  lemma {:induction false} ScanCovers(binds: seq<Bind>, path: string)
    ensures var r := Scan(binds, path);
            r.Some? ==> Covers(binds[r.value], path)
                        && forall j :: 0 <= j < |binds| && Covers(binds[j], path) ==> |binds[j].guest| <= |binds[r.value].guest|
    ensures Scan(binds, path).None? ==> forall j :: 0 <= j < |binds| ==> !Covers(binds[j], path)
  {
    if |binds| > 0 {
      ScanCovers(binds[..|binds| - 1], path);
    }
  }

  /** parse_binds keeps only entries whose halves are not empty. */
  ghost predicate Usable(binds: seq<Bind>) {
    forall i :: 0 <= i < |binds| ==> binds[i].guest != "" && binds[i].host != ""
  }

  class Table {
    const binds: seq<Bind>
    const rootfs: string
    var last: int

    constructor (binds: seq<Bind>, rootfs: string)
      ensures this.binds == binds && this.rootfs == rootfs && last == -1
    {
      this.binds, this.rootfs, last := binds, rootfs, -1;
    }

    /** The entry to_host uses: the last hit, if it covers the path and is not
        the root, else the scan's. */
    ghost function Chosen(path: string): Option<nat>
      requires -1 <= last < |binds|
      reads this
    {
      if Remembered(path) then Some(last) else Scan(binds, path)
    }

    ghost predicate Remembered(path: string)
      requires -1 <= last < |binds|
      reads this
    {
      last >= 0 && |binds[last].guest| > 1 && Covers(binds[last], path)
    }

    /** to_host */
    method ToHost(path: string) returns (host: string)
      requires -1 <= last < |binds| && Usable(binds)
      modifies this
      ensures -1 <= last < |binds|
      ensures if path == "" || path[0] != '/' then host == path && last == old(last)
              else
                var chosen := old(Chosen(path));
                (chosen.Some? ==> Covers(binds[chosen.value], path))
                && host == Answer(binds, chosen, rootfs, path)
                && last == (if chosen.Some? then chosen.value else -1)
    {
      if path == "" || path[0] != '/' {
        return path;
      }
      ScanCovers(binds, path);
      var best: int := -1;
      if last >= 0 && |binds[last].guest| > 1 && Covers(binds[last], path) {
        best := last;
      } else {
        best := ScanAll(path);
        last := best;
      }
      if best >= 0 {
        host := Splice(binds[best], path);
      } else if rootfs != "" {
        host := if |rootfs| + |path| + 1 >= PATH_MAX then path else rootfs + path;
      } else {
        host := path;
      }
    }

    method ScanAll(path: string) returns (best: int)
      ensures -1 <= best < |binds|
      ensures Scan(binds, path) == if best >= 0 then Some(best) else None
    {
      best := -1;
      for i := 0 to |binds|
        invariant -1 <= best < i
        invariant Scan(binds[..i], path) == if best >= 0 then Some(best) else None
      {
        assert binds[..i + 1][..i] == binds[..i];
        if Covers(binds[i], path) && (best == -1 || |binds[i].guest| > |binds[best].guest|) {
          best := i;
        }
      }
      assert binds[..|binds|] == binds;
    }
  }

  method Splice(b: Bind, path: string) returns (host: string)
    requires path != "" && Covers(b, path) && b.host != ""
    ensures host == Replaced(b, path)
  {
    var rest := if b.guest == "/" then path[1..] else path[|b.guest|..];
    if rest != "" && rest[0] == '/' {
      rest := rest[1..];
    }
    var slash := b.host[|b.host| - 1] == '/';
    var need := |b.host| + (if slash then 0 else 1) + |rest| + 1;
    if need >= PATH_MAX {
      return path;
    }
    host := b.host;
    if !slash {
      host := host + "/";
    }
    host := host + rest;
  }

  // ----- against the tracer -----

  /** The bindings the tracer serialises, as its guest list has them. */
  ghost predicate Lists(bs: seq<Binding>, m: View) {
    && Keyed(m)
    && (forall i :: 0 <= i < |bs| ==> bs[i].guest in m && m[bs[i].guest] == bs[i])
    && (forall g :: g in m ==> exists i :: 0 <= i < |bs| && bs[i].guest == g)
  }

  lemma CoversRendered(b: Binding, p: Path)
    requires IsPath(b.guest) && IsPath(p)
    ensures Covers(EntryOf(b), Render(p)) <==> b.guest <= p
  {
    TailPrefix(b.guest, p);
    if b.guest != [] {
      RenderIsLong(b.guest);
      if p == [] {
        assert !(Render(b.guest) <= "/");
      }
    }
  }

  /** The scan finds the binding the tracer's lookup finds. */
  lemma ScanIsLookup(bs: seq<Binding>, m: View, p: Path)
    requires Lists(bs, m) && IsPath(p)
    ensures match Scan(Entries(bs), Render(p))
            case None => Lookup(m, p) == None
            case Some(i) => Lookup(m, p) == Some(bs[i])
  {
    var binds, path := Entries(bs), Render(p);
    ScanCovers(binds, path);
    forall i | 0 <= i < |bs| ensures Covers(binds[i], path) <==> bs[i].guest <= p {
      assert WellFormed(m[bs[i].guest]);
      CoversRendered(bs[i], p);
    }
    LookupIsLongestPrefix(m, p);
    var r := Scan(binds, path);
    if r.Some? {
      var b := bs[r.value];
      forall g | g in m && g <= p ensures g <= b.guest {
        var j :| 0 <= j < |bs| && bs[j].guest == g;
        assert |binds[j].guest| <= |binds[r.value].guest|;
        ShorterIsPrefix(g, b.guest, p);
      }
    }
  }

  lemma ShorterIsPrefix(g: Path, h: Path, p: Path)
    requires g <= p && h <= p && IsPath(p) && Length(g) <= Length(h)
    ensures g <= h
  {
    if |g| > |h| {
      assert h <= g && IsPath(g);
      LengthMonotone(h, g);
    }
  }

  /** What the shim puts behind the host prefix. */
  lemma RestIsSuffix(b: Binding, p: Path)
    requires IsPath(b.guest) && IsPath(p) && b.guest <= p && Covers(EntryOf(b), Render(p))
    ensures var d := p[|b.guest|..];
            Rest(EntryOf(b), Render(p)) == if d == [] then "" else Tail(d)[1..]
  {
    var d := p[|b.guest|..];
    assert p == b.guest + d;
    TailAppend(b.guest, d);
    if d != [] {
      var rest := TailHead(d);
    }
    if b.guest != [] {
      RenderIsLong(b.guest);
    }
  }

  /** The shim's answer is the tracer's translation, but for a slash behind a
      binding's own host path. */
  lemma ShimAgrees(bs: seq<Binding>, m: View, p: Path, rootfs: string)
    requires Lists(bs, m) && IsPath(p) && Lookup(m, p).Some?
    requires Length(Translate(m, p).GetOr([])) + 2 < PATH_MAX
    ensures var chosen := Scan(Entries(bs), Render(p));
            && chosen.Some? && Covers(Entries(bs)[chosen.value], Render(p))
            && var b := bs[chosen.value]; var host := Translate(m, p).GetOr([]);
               && Translate(m, p).Some?
               && Answer(Entries(bs), chosen, rootfs, Render(p)) == Render(host) + (if p == b.guest && host != [] then "/" else "")
  {
    ScanIsLookup(bs, m, p);
    ScanCovers(Entries(bs), Render(p));
    var chosen := Scan(Entries(bs), Render(p));
    var b := bs[chosen.value];
    LookupTranslates(m, p, b);
    AnswerIs(Entries(bs), chosen, rootfs, b, p);
  }

  /** And so it does on what it reads out of the environment, as long as its table
      holds all the bindings and none of them has a tab or a newline where it
      separates. */
  lemma ShimAgreesAsParsed(bs: seq<Binding>, m: View, p: Path, rootfs: string, binds: seq<Bind>)
    requires Lists(bs, m) && IsPath(p) && Lookup(m, p).Some?
    requires Length(Translate(m, p).GetOr([])) + 2 < PATH_MAX
    requires |bs| <= MAX_BINDS && forall i :: 0 <= i < |bs| ==> Clean(EntryOf(bs[i]))
    requires binds == Parsed(Serialised(Entries(bs)), MAX_BINDS)
    ensures var chosen := Scan(binds, Render(p));
            && |binds| == |bs| && chosen.Some? && Covers(binds[chosen.value], Render(p)) && binds[chosen.value].host != ""
            && Translate(m, p).Some?
            && var b := bs[chosen.value]; var host := Translate(m, p).value;
               Answer(binds, chosen, rootfs, Render(p)) == Render(host) + (if p == b.guest && host != [] then "/" else "")
  {
    BindingsSurvive(Entries(bs), MAX_BINDS);
    ShimAgrees(bs, m, p, rootfs);
  }

  lemma LookupTranslates(m: View, p: Path, b: Binding)
    requires Keyed(m) && Lookup(m, p) == Some(b)
    ensures WellFormed(b) && b.guest <= p && Translate(m, p) == Some(b.host + p[|b.guest|..])
  {
    TranslateSubstitutes(m, p);
    LookupIsLongestPrefix(m, p);
  }

  lemma AnswerIs(binds: seq<Bind>, chosen: Option<nat>, rootfs: string, b: Binding, p: Path)
    requires chosen.Some? && chosen.value < |binds| && binds[chosen.value] == EntryOf(b) && Covers(EntryOf(b), Render(p))
    requires IsPath(b.guest) && IsPath(b.host) && IsPath(p) && b.guest <= p && Length(b.host + p[|b.guest|..]) + 2 < PATH_MAX
    ensures Answer(binds, chosen, rootfs, Render(p)) == Render(b.host + p[|b.guest|..]) + (if p == b.guest && b.host != [] then "/" else "")
    ensures p == b.guest ==> b.host + p[|b.guest|..] == b.host
    ensures p != b.guest ==> b.host + p[|b.guest|..] != []
  {
    ReplacedIsJoined(b, p);
  }

  lemma ReplacedIsJoined(b: Binding, p: Path)
    requires IsPath(b.guest) && IsPath(b.host) && IsPath(p) && b.guest <= p && Covers(EntryOf(b), Render(p))
    requires Length(b.host + p[|b.guest|..]) + 2 < PATH_MAX
    ensures Replaced(EntryOf(b), Render(p)) == Render(b.host + p[|b.guest|..]) + (if p == b.guest && b.host != [] then "/" else "")
  {
    var d := p[|b.guest|..];
    RestIsSuffix(b, p);
    JoinRendered(b.host, d);
    var isRoot := RenderHead(b.host);
    if d == [] {
      assert b.host + d == b.host && p == b.guest;
    } else {
      var rest := TailHead(d);
      assert p != b.guest;
      assert Joined(Render(b.host), rest) == (if isRoot then Render(b.host) else Render(b.host) + "/") + rest;
    }
  }

  // ----- the remembered entry -----

  /** Some entry lies strictly inside another. */
  ghost predicate Inside(binds: seq<Bind>, last: nat)
    requires last < |binds|
  {
    exists j :: 0 <= j < |binds| && binds[j].guest != binds[last].guest && Covers(binds[last], binds[j].guest)
  }

  ghost predicate Distinct(binds: seq<Bind>) {
    forall i, j :: 0 <= i < |binds| && 0 <= j < |binds| && binds[i].guest == binds[j].guest ==> i == j
  }

  /** Remembering an entry is harmless for every path it covers exactly when no
      entry lies strictly inside it. */
  lemma RememberedIsScanned(binds: seq<Bind>, last: nat)
    requires last < |binds| && Distinct(binds) && Usable(binds) && |binds[last].guest| > 1
    requires forall i :: 0 <= i < |binds| ==> binds[i].guest[0] == '/' && (|binds[i].guest| > 1 ==> binds[i].guest[|binds[i].guest| - 1] != '/')
    ensures (forall path :: path != "" && Covers(binds[last], path) ==> Scan(binds, path) == Some(last)) <==> !Inside(binds, last)
  {
    if Inside(binds, last) {
      var j :| 0 <= j < |binds| && binds[j].guest != binds[last].guest && Covers(binds[last], binds[j].guest);
      var path := binds[j].guest;
      ScanCovers(binds, path);
      assert Covers(binds[j], path) && |binds[j].guest| > |binds[last].guest|;
      assert path != "" && Covers(binds[last], path) && Scan(binds, path) != Some(last);
    } else {
      forall path | path != "" && Covers(binds[last], path) ensures Scan(binds, path) == Some(last) {
        ScanCovers(binds, path);
        var i := Scan(binds, path).value;
        BothCover(binds[last], binds[i], path);
      }
    }
  }

  lemma BothCover(a: Bind, b: Bind, path: string)
    requires |a.guest| > 1 && b.guest != "" && |b.guest| >= |a.guest| && Covers(a, path) && Covers(b, path)
    requires |b.guest| > 1 ==> b.guest[|b.guest| - 1] != '/'
    ensures Covers(a, b.guest)
  {
    assert a.guest <= path && b.guest <= path;
    assert b.guest[..|a.guest|] == path[..|a.guest|] == a.guest;
    if |b.guest| > |a.guest| {
      assert b.guest[|a.guest|] == path[|a.guest|];
    }
  }
}
