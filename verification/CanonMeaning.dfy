/** What the canonicaliser computes: the path a plain, iterative walk in the
    style of POSIX pathname resolution reaches, where the components of a link's
    target are put in front of the components still to come. */
module CanonMeaning {
  import opened Wrappers
  import opened Paths
  import opened Canon

  /** Where the walk ends, and how many of the links it may follow are left. */
  datatype Place = Place(path: Path, left: nat)

  function LinkStart(text: string, at: Path): Path {
    if Absolute(text) then [] else at
  }

  /** What stands in the way when a name in the middle of a path does not lead on. */
  function Obstacle(entry: Entry): Error
    requires entry.Other?
  {
    if entry.present then NotDirectory else NoEntry
  }

  /** fuel is how many links it may follow; when they do not suffice, it stops
      with TooManyLinks. */
  function Posix(fs: Fs, at: Path, names: seq<Name>, deref: bool, fuel: nat): Result<Place, Error>
    decreases fuel, |names|
  {
    if |names| == 0 then Ok(Place(at, fuel))
    else
      var name, rest := names[0], names[1..];
      if |name| >= 255 then Err(NameTooLong)
      else if name == "." then Posix(fs, at, rest, deref, fuel)
      else if name == ".." then Posix(fs, Parent(at), rest, deref, fuel)
      else if |Render(at + [name])| > 4094 then Err(NameTooLong)
      else
        var entry := fs.entry(at + [name]);
        if entry.Directory? || (entry.Link? && (entry.read.Gone? || (|rest| == 0 && !deref))) then Posix(fs, at + [name], rest, deref, fuel)
        else if entry.Other? then (if |rest| == 0 then Ok(Place(at + [name], fuel)) else Err(Obstacle(entry)))
        else if entry.read.Failed? then Err(Io(entry.read.code))
        else if fuel == 0 then Err(TooManyLinks)
        else if |entry.read.text| > 4095 then Err(NameTooLong)
        else Posix(fs, LinkStart(entry.read.text, at), Split(entry.read.text) + rest, deref, fuel - 1)
  }

  predicate LeadsOn(entry: Entry) {
    entry.Directory? || (entry.Link? && entry.read.Gone?)
  }

  /** Every step on the way to p is a directory, p included. */
  ghost predicate Walkable(fs: Fs, p: Path) {
    forall k :: 0 <= k <= |p| ==> LeadsOn(fs.entry(p[..k]))
  }

  lemma WalkableChild(fs: Fs, p: Path, name: Name)
    requires Walkable(fs, p) && LeadsOn(fs.entry(p + [name]))
    ensures Walkable(fs, p + [name])
  {
    var q := p + [name];
    forall k | 0 <= k <= |q| ensures LeadsOn(fs.entry(q[..k])) {
      if k == |q| { assert q[..k] == q; } else { assert q[..k] == p[..k]; }
    }
  }

  lemma WalkableParent(fs: Fs, p: Path)
    requires Walkable(fs, p)
    ensures Walkable(fs, Parent(p)) && Walkable(fs, [])
  {
    forall k | 0 <= k <= |Parent(p)| ensures LeadsOn(fs.entry(Parent(p)[..k])) {
      assert Parent(p)[..k] == p[..k];
    }
    var root: Path := [];
    assert p[..0] == root;
    forall k | 0 <= k <= |root| ensures LeadsOn(fs.entry(root[..k])) {
      assert root[..k] == p[..0];
    }
  }

  lemma WalkableItself(fs: Fs, p: Path)
    requires Walkable(fs, p)
    ensures LeadsOn(fs.entry(p))
  {
    assert p[..|p|] == p;
  }

  /** Walking two lists of names: the first one in full, links at its end
      included, and then the second, if the first one leads on. */
  lemma {:induction false} PosixSplit(fs: Fs, at: Path, names: seq<Name>, rest: seq<Name>, deref: bool, fuel: nat)
    requires Walkable(fs, at) && rest != []
    ensures Posix(fs, at, names + rest, deref, fuel) ==
            match Posix(fs, at, names, true, fuel)
            case Err(e) => Err(e)
            case Ok(place) =>
              if fs.entry(place.path).Other? then Err(Obstacle(fs.entry(place.path))) else Posix(fs, place.path, rest, deref, place.left)
    decreases fuel, |names|
  {
    if |names| == 0 {
      assert names + rest == rest;
      WalkableItself(fs, at);
    } else {
      var name, tail := names[0], names[1..];
      assert (names + rest)[1..] == tail + rest;
      WalkableParent(fs, at);
      var entry := fs.entry(at + [name]);
      if name == "." {
        PosixSplit(fs, at, tail, rest, deref, fuel);
      } else if name == ".." {
        PosixSplit(fs, Parent(at), tail, rest, deref, fuel);
      } else if LeadsOn(entry) && |Render(at + [name])| <= 4094 {
        WalkableChild(fs, at, name);
        PosixSplit(fs, at + [name], tail, rest, deref, fuel);
      } else if entry.Link? && entry.read.Target? && fuel > 0 {
        var text := entry.read.text;
        assert Split(text) + (tail + rest) == (Split(text) + tail) + rest;
        PosixSplit(fs, LinkStart(text, at), Split(text) + tail, rest, deref, fuel - 1);
      }
    }
  }

  /** Where a walk that follows every link ends: no link, and reached through
      directories only. */
  ghost predicate Settled(fs: Fs, p: Path) {
    Walkable(fs, Parent(p)) && (LeadsOn(fs.entry(p)) || fs.entry(p).Other?)
  }

  lemma {:induction false} PosixSettles(fs: Fs, at: Path, names: seq<Name>, fuel: nat)
    requires Walkable(fs, at)
    ensures var r := Posix(fs, at, names, true, fuel); r.Ok? ==> Settled(fs, r.value.path)
    decreases fuel, |names|
  {
    WalkableParent(fs, at);
    if |names| == 0 {
      WalkableItself(fs, at);
    } else {
      var name, rest := names[0], names[1..];
      var entry := fs.entry(at + [name]);
      if name == "." {
        PosixSettles(fs, at, rest, fuel);
      } else if name == ".." {
        PosixSettles(fs, Parent(at), rest, fuel);
      } else if LeadsOn(entry) {
        WalkableChild(fs, at, name);
        PosixSettles(fs, at + [name], rest, fuel);
      } else if entry.Other? {
        assert Parent(at + [name]) == at;
      } else if entry.read.Target? && fuel > 0 {
        PosixSettles(fs, LinkStart(entry.read.text, at), Split(entry.read.text) + rest, fuel - 1);
      }
    }
  }

  lemma SettledLeadsOn(fs: Fs, p: Path)
    requires Settled(fs, p) && !fs.entry(p).Other?
    ensures Walkable(fs, p)
  {
    if p != [] {
      assert p == Parent(p) + [p[|p| - 1]];
      WalkableChild(fs, Parent(p), p[|p| - 1]);
    }
  }

  // ----- strings and components -----

  predicate EndsInSlash(s: string) {
    s != "" && s[|s| - 1] == '/'
  }

  lemma {:induction false} SkipFacts(s: string)
    ensures Split(SkipSlashes(s)) == Split(s)
    ensures SkipSlashes(s) != "" ==> EndsInSlash(SkipSlashes(s)) == EndsInSlash(s)
    ensures SkipSlashes(s) == "" && s != "" ==> EndsInSlash(s)
  {
    if s != "" && s[0] == '/' {
      SkipFacts(s[1..]);
    }
  }

  /** next_component takes the components of the string one by one. */
  lemma NextSplits(s: string)
    ensures var (name, rest, finality) := Next(s);
            && Split(s) == (if name == "" then [] else [name] + Split(rest))
            && (finality != NotFinal ==> Split(rest) == [])
            && (finality == NotFinal ==> EndsInSlash(rest) == EndsInSlash(s) && Split(rest) != [])
            && (name != "" && finality != NotFinal ==> (finality == FinalSlash <==> EndsInSlash(s)))
            && (name == "" ==> finality == FinalNormal)
  {
    SkipFacts(s);
    var t := SkipSlashes(s);
    if t != "" {
      SkipFacts(t[NameLength(t)..]);
    }
  }

  // ----- the two agree -----

  /** A walk, as a function of the number of links it may follow. */
  type Budgeted = nat -> Result<Place, Error>

  function PosixFrom(fs: Fs, at: Path, names: seq<Name>, d: bool): Budgeted {
    (fuel: nat) => Posix(fs, at, names, d, fuel)
  }

  /** The walk of a text from a place: a text that is too long is not walked, and
      the empty one leads where it starts, if that is not too long. */
  function PosixText(fs: Fs, at: Path, text: string, d: bool): Budgeted {
    (fuel: nat) =>
      if |text| > 4095 || (text == "" && |Render(at)| > 4094) then Err(NameTooLong)
      else Posix(fs, LinkStart(text, at), Split(text), d, fuel)
  }

  /** With links enough, the walk stops for this reason. */
  ghost predicate StopsWith(walk: Budgeted, e: Error) {
    && (forall fuel: nat :: walk(fuel) == Err(e) || walk(fuel) == Err(TooManyLinks))
    && exists fuel: nat :: walk(fuel) == Err(e)
  }

  /** The result r is what the walk gives: the same path after the same number of
      links, or the same error; and links are too many only where the walk itself
      is not done after n of them. */
  ghost predicate Gives(walk: Budgeted, r: Result<Canonical, Error>, n: int) {
    match r
    case Ok(c) => forall fuel: nat :: walk(fuel) == if fuel >= c.links then Ok(Place(c.path, fuel - c.links)) else Err(TooManyLinks)
    case Err(e) =>
      if e.TooManyLinks? then forall fuel: nat :: fuel <= n ==> walk(fuel) == Err(TooManyLinks)
      else StopsWith(walk, e)
  }

  /** The walk follows so many links and then goes on as rest does. */
  ghost predicate Continues(walk: Budgeted, links: nat, rest: Budgeted) {
    forall fuel: nat :: walk(fuel) == if fuel >= links then rest(fuel - links) else Err(TooManyLinks)
  }

  /** One step and then the rest. */
  lemma StepThenRest(walk: Budgeted, links: nat, rest: Budgeted, r: Result<Canonical, Error>, n: int, left: int)
    requires Continues(walk, links, rest) && Gives(rest, r, left) && n - links <= left
    ensures Gives(walk, After(links, r), n)
  {
    if r.Err? && !r.error.TooManyLinks? {
      var fuel: nat :| rest(fuel) == Err(r.error);
      assert walk(fuel + links) == Err(r.error);
    }
  }

  ghost predicate Agrees(r: Result<Canonical, Error>, fs: Fs, at: Path, names: seq<Name>, deref: bool, n: int) {
    Gives(PosixFrom(fs, at, names, deref), r, n)
  }

  /** One component entered is one name walked. */
  ghost predicate Enters(step: Result<Reached, Error>, fs: Fs, at: Path, names: seq<Name>, tail: seq<Name>, d: bool, n: int) {
    match step
    case Err(e) => Gives(PosixFrom(fs, at, names, d), Err(e), n)
    case Ok(reached) => Continues(PosixFrom(fs, at, names, d), reached.links, PosixFrom(fs, reached.path, tail, d))
  }

  lemma ChildIsLonger(p: Path, name: Name)
    ensures |Render(p + [name])| > 4094 || |Render(p)| <= 4094
  {
    TailAppend(p, [name]);
    assert Tail([name]) == "/" + name + Tail([name][1..]);
  }

  /** A link whose target resolves to what r says. */
  lemma LinkEnters(fs: Fs, at: Path, name: Name, tail: seq<Name>, d: bool, text: string, r: Result<Canonical, Error>, n: int)
    requires Walkable(fs, at) && IsFollowed(fs, at, name, tail, d, text)
    requires Gives(PosixText(fs, at, text, true), r, n - 1)
    ensures r.Err? ==> Enters(Err(r.error), fs, at, [name] + tail, tail, d, n)
    ensures r.Ok? && tail != [] && fs.entry(r.value.path).Other? ==>
              Enters(Err(Obstacle(fs.entry(r.value.path))), fs, at, [name] + tail, tail, d, n)
    ensures r.Ok? && (tail == [] || !fs.entry(r.value.path).Other?) ==>
              Enters(Ok(Reached(r.value.path, r.value.links + 1)), fs, at, [name] + tail, tail, d, n)
    ensures r.Ok? ==> Settled(fs, r.value.path)
  {
    WalkableParent(fs, at);
    var whole, first := PosixFrom(fs, at, [name] + tail, d), PosixText(fs, at, text, true);
    forall fuel: nat ensures whole(fuel) == if fuel == 0 then Err(TooManyLinks) else Spliced(fs, first(fuel - 1), tail, d) {
      LinkUnfolds(fs, at, name, tail, d, text, fuel);
    }
    SpliceGives(fs, whole, first, r, tail, d, n);
    if r.Ok? {
      PosixSettles(fs, LinkStart(text, at), Split(text), r.value.links);
      assert first(r.value.links) == Ok(Place(r.value.path, 0));
    } else {
      assert r == Err(r.error);
    }
  }

  /** The name is a link, and one that is followed. */
  predicate IsFollowed(fs: Fs, at: Path, name: Name, tail: seq<Name>, d: bool, text: string) {
    && |name| < 255 && name != "." && name != ".." && |Render(at + [name])| <= 4094
    && fs.entry(at + [name]) == Link(Target(text)) && (tail != [] || d)
  }

  lemma SpliceGives(fs: Fs, whole: Budgeted, first: Budgeted, r: Result<Canonical, Error>, tail: seq<Name>, d: bool, n: int)
    requires forall fuel: nat :: whole(fuel) == if fuel == 0 then Err(TooManyLinks) else Spliced(fs, first(fuel - 1), tail, d)
    requires Gives(first, r, n - 1)
    ensures r.Err? ==> Gives(whole, r, n)
    ensures r.Ok? && tail != [] && fs.entry(r.value.path).Other? ==> StopsWith(whole, Obstacle(fs.entry(r.value.path)))
    ensures r.Ok? && (tail == [] || !fs.entry(r.value.path).Other?) ==>
              Continues(whole, r.value.links + 1, PosixFrom(fs, r.value.path, tail, d))
  {
    if r.Ok? {
      assert whole(r.value.links + 1) == Spliced(fs, first(r.value.links), tail, d);
      if tail == [] || !fs.entry(r.value.path).Other? {
        SpliceContinues(fs, whole, first, r.value, tail, d);
      }
    } else if !r.error.TooManyLinks? {
      var fuel: nat :| first(fuel) == Err(r.error);
      assert whole(fuel + 1) == Spliced(fs, first(fuel), tail, d);
    }
  }

  lemma SpliceContinues(fs: Fs, whole: Budgeted, first: Budgeted, c: Canonical, tail: seq<Name>, d: bool)
    requires forall fuel: nat :: whole(fuel) == if fuel == 0 then Err(TooManyLinks) else Spliced(fs, first(fuel - 1), tail, d)
    requires Gives(first, Ok(c), 0) && (tail == [] || !fs.entry(c.path).Other?)
    ensures Continues(whole, c.links + 1, PosixFrom(fs, c.path, tail, d))
  {
    var rest := PosixFrom(fs, c.path, tail, d);
    forall fuel: nat ensures whole(fuel) == if fuel >= c.links + 1 then rest(fuel - (c.links + 1)) else Err(TooManyLinks) {
      if fuel > 0 {
        assert first(fuel - 1) == if fuel - 1 >= c.links then Ok(Place(c.path, fuel - 1 - c.links)) else Err(TooManyLinks);
      }
    }
  }

  /** What is left to do once the first part of a walk is done. */
  function Spliced(fs: Fs, first: Result<Place, Error>, tail: seq<Name>, d: bool): Result<Place, Error> {
    match first
    case Err(e) => Err(e)
    case Ok(place) =>
      if |tail| == 0 then first
      else if fs.entry(place.path).Other? then Err(Obstacle(fs.entry(place.path)))
      else Posix(fs, place.path, tail, d, place.left)
  }

  lemma LinkUnfolds(fs: Fs, at: Path, name: Name, tail: seq<Name>, d: bool, text: string, fuel: nat)
    requires Walkable(fs, at) && IsFollowed(fs, at, name, tail, d, text)
    ensures Posix(fs, at, [name] + tail, d, fuel) ==
            if fuel == 0 then Err(TooManyLinks) else Spliced(fs, PosixText(fs, at, text, true)(fuel - 1), tail, d)
  {
    assert ([name] + tail)[1..] == tail;
    ChildIsLonger(at, name);
    if fuel > 0 && |text| <= 4095 {
      WalkableParent(fs, at);
      if tail == [] {
        assert Split(text) + tail == Split(text);
      } else {
        PosixSplit(fs, LinkStart(text, at), Split(text), tail, d, fuel - 1);
      }
    }
  }

  lemma {:induction false} EnterAgrees(fs: Fs, name: Name, finality: Finality, deref: bool, at: Path, level: nat, followed: nat, tail: seq<Name>, d: bool)
    requires level <= fs.limit && Walkable(fs, at) && name != "" && |name| < 255 && (tail == [] <==> finality != NotFinal)
    requires tail == [] ==> d == (deref || finality != FinalNormal)
    ensures var step := Enter(fs, name, finality, deref, at, level, followed);
            && Enters(step, fs, at, [name] + tail, tail, d, fs.limit - level - followed)
            && (step.Ok? && finality == NotFinal ==> Walkable(fs, step.value.path))
    decreases Depth(fs, level), 0, 0
  {
    assert ([name] + tail)[1..] == tail;
    WalkableParent(fs, at);
    if name != "." && name != ".." {
      var next := at + [name];
      var entry := fs.entry(next);
      if |Render(next)| > 4094 {
        Stopped(fs, at, name, tail, d, NameTooLong);
      } else if entry.Other? && finality == NotFinal {
        Stopped(fs, at, name, tail, d, Obstacle(entry));
      } else if LeadsOn(entry) {
        WalkableChild(fs, at, name);
      } else if entry.Link? && entry.read.Failed? && (tail != [] || d) {
        Stopped(fs, at, name, tail, d, Io(entry.read.code));
      } else if entry.Link? && entry.read.Target? && (tail != [] || d) {
        var r := Resolve(fs, entry.read.text, true, Some(at), level + followed + 1);
        ResolveAgrees(fs, entry.read.text, true, at, level + followed + 1);
        LinkEnters(fs, at, name, tail, d, entry.read.text, r, fs.limit - level - followed);
        if r.Ok? && !fs.entry(r.value.path).Other? {
          SettledLeadsOn(fs, r.value.path);
        }
      }
    }
  }

  /** The walk stops at its first name, whatever it may follow. */
  lemma Stopped(fs: Fs, at: Path, name: Name, tail: seq<Name>, d: bool, e: Error)
    requires ([name] + tail)[1..] == tail && forall fuel: nat :: Posix(fs, at, [name] + tail, d, fuel) == Err(e)
    ensures StopsWith(PosixFrom(fs, at, [name] + tail, d), e)
  {
    assert PosixFrom(fs, at, [name] + tail, d)(0) == Err(e);
  }

  lemma EmptyAgrees(fs: Fs, s: string, deref: bool, at: Path, level: nat, followed: nat, n: int)
    requires level <= fs.limit && Walkable(fs, at) && Next(s).0 == "" && Next(s).2 == FinalNormal && !TooLong(at)
    ensures Agrees(Walk(fs, s, deref, at, level, followed), fs, at, [], deref || EndsInSlash(s), n)
  {
    WalkableItself(fs, at);
    assert Enter(fs, "", FinalNormal, deref, at, level, followed) == Ok(Reached(at, 0));
    assert Walk(fs, s, deref, at, level, followed) == Ok(Canonical(at, FinalNormal, 0));
  }

  /** The walk after its first step. */
  function Later(fs: Fs, step: Result<Reached, Error>, name: Name, rest: string, finality: Finality, deref: bool, level: nat, followed: nat)
    : Result<Canonical, Error>
    requires level <= fs.limit
  {
    match step
    case Err(e) => Err(e)
    case Ok(reached) =>
      if finality != NotFinal then Ok(Canonical(reached.path, Mark(name, finality), 0))
      else Walk(fs, rest, deref, reached.path, level, followed + (if reached.links > 0 then 1 else 0))
  }

  lemma WalkIsStepped(fs: Fs, s: string, deref: bool, at: Path, level: nat, followed: nat, step: Result<Reached, Error>,
                      later: Result<Canonical, Error>)
    requires level <= fs.limit && |Next(s).0| < NAME_MAX && step == Enter(fs, Next(s).0, Next(s).2, deref, at, level, followed)
    requires later == Later(fs, step, Next(s).0, Next(s).1, Next(s).2, deref, level, followed)
    ensures Walk(fs, s, deref, at, level, followed) == if step.Ok? then After(step.value.links, later) else Err(step.error)
  {}

  lemma ArrivedGives(fs: Fs, at: Path, names: seq<Name>, d: bool, finality: Finality, n: int)
    requires names == []
    ensures Gives(PosixFrom(fs, at, names, d), Ok(Canonical(at, finality, 0)), n)
  {}

  /** A first step and what comes later make the whole. */
  lemma StepAgrees(fs: Fs, at: Path, name: Name, tail: seq<Name>, d: bool, step: Result<Reached, Error>,
                   later: Result<Canonical, Error>, n: int)
    requires Enters(step, fs, at, [name] + tail, tail, d, n)
    requires step.Ok? ==> Gives(PosixFrom(fs, step.value.path, tail, d), later, n - (if step.value.links > 0 then 1 else 0))
    ensures Gives(PosixFrom(fs, at, [name] + tail, d), if step.Ok? then After(step.value.links, later) else Err(step.error), n)
  {
    if step.Ok? {
      StepThenRest(PosixFrom(fs, at, [name] + tail, d), step.value.links, PosixFrom(fs, step.value.path, tail, d), later, n,
                   n - (if step.value.links > 0 then 1 else 0));
    }
  }

  lemma {:induction false} WalkAgrees(fs: Fs, s: string, deref: bool, at: Path, level: nat, followed: nat)
    requires level <= fs.limit && Walkable(fs, at) && (Split(s) != [] || !TooLong(at))
    ensures Agrees(Walk(fs, s, deref, at, level, followed), fs, at, Split(s), deref || EndsInSlash(s), fs.limit - level - followed)
    decreases Depth(fs, level), 1, |s|
  {
    var n := fs.limit - level - followed;
    var next := Next(s);
    NextSplits(s);
    if next.0 == "" {
      EmptyAgrees(fs, s, deref, at, level, followed, n);
    } else if |next.0| >= 255 {
      Stopped(fs, at, next.0, Split(next.1), deref || EndsInSlash(s), NameTooLong);
    } else {
      NamedAgrees(fs, s, next.0, next.1, next.2, deref, at, level, followed);
    }
  }

  lemma {:induction false} NamedAgrees(fs: Fs, s: string, name: Name, rest: string, finality: Finality, deref: bool, at: Path,
                                       level: nat, followed: nat)
    requires level <= fs.limit && Walkable(fs, at) && Next(s) == (name, rest, finality) && name != "" && |name| < 255
    ensures Agrees(Walk(fs, s, deref, at, level, followed), fs, at, [name] + Split(rest), deref || EndsInSlash(s), fs.limit - level - followed)
    decreases Depth(fs, level), 1, |s|, 0
  {
    var d, tail := deref || EndsInSlash(s), Split(rest);
    NextSplits(s);
    var step := EnterFound(fs, name, finality, deref, at, level, followed, tail, d);
    if step.Ok? {
      LaterAgrees(fs, step.value, name, rest, finality, deref, level, followed, d, |s|);
    }
    Compose(fs, s, name, rest, finality, deref, at, level, followed, d, step);
  }

  lemma {:induction false} EnterFound(fs: Fs, name: Name, finality: Finality, deref: bool, at: Path, level: nat, followed: nat, tail: seq<Name>,
                                      d: bool)
    returns (step: Result<Reached, Error>)
    requires level <= fs.limit && Walkable(fs, at) && name != "" && |name| < 255 && (tail == [] <==> finality != NotFinal)
    requires tail == [] ==> d == (deref || finality != FinalNormal)
    ensures step == Enter(fs, name, finality, deref, at, level, followed)
    ensures Enters(step, fs, at, [name] + tail, tail, d, fs.limit - level - followed)
    ensures step.Ok? && finality == NotFinal ==> Walkable(fs, step.value.path)
    decreases Depth(fs, level), 0, 1
  {
    EnterAgrees(fs, name, finality, deref, at, level, followed, tail, d);
    step := Enter(fs, name, finality, deref, at, level, followed);
  }

  lemma Compose(fs: Fs, s: string, name: Name, rest: string, finality: Finality, deref: bool, at: Path, level: nat, followed: nat, d: bool,
                step: Result<Reached, Error>)
    requires level <= fs.limit && Next(s) == (name, rest, finality) && |name| < 255
    requires step == Enter(fs, name, finality, deref, at, level, followed)
    requires Enters(step, fs, at, [name] + Split(rest), Split(rest), d, fs.limit - level - followed)
    requires step.Ok? ==>
               Gives(PosixFrom(fs, step.value.path, Split(rest), d), Later(fs, step, name, rest, finality, deref, level, followed),
                     fs.limit - level - followed - (if step.value.links > 0 then 1 else 0))
    ensures Agrees(Walk(fs, s, deref, at, level, followed), fs, at, [name] + Split(rest), d, fs.limit - level - followed)
  {
    var later := Later(fs, step, name, rest, finality, deref, level, followed);
    StepAgrees(fs, at, name, Split(rest), d, step, later, fs.limit - level - followed);
    WalkIsStepped(fs, s, deref, at, level, followed, step, later);
  }

  lemma {:induction false} LaterAgrees(fs: Fs, reached: Reached, name: Name, rest: string, finality: Finality, deref: bool, level: nat,
                                       followed: nat, d: bool, length: nat)
    requires level <= fs.limit && (finality == NotFinal ==> Walkable(fs, reached.path) && Split(rest) != [] && |rest| < length)
    requires if finality == NotFinal then d == (deref || EndsInSlash(rest)) else Split(rest) == []
    ensures Gives(PosixFrom(fs, reached.path, Split(rest), d), Later(fs, Ok(reached), name, rest, finality, deref, level, followed),
                  fs.limit - level - followed - (if reached.links > 0 then 1 else 0))
    decreases Depth(fs, level), 1, length, 0, 0
  {
    if finality == NotFinal {
      WalkAgrees(fs, rest, deref, reached.path, level, followed + (if reached.links > 0 then 1 else 0));
    } else {
      ArrivedGives(fs, reached.path, Split(rest), d, Mark(name, finality), fs.limit - level - followed - (if reached.links > 0 then 1 else 0));
    }
  }

  lemma EmptyTooLong(fs: Fs, deref: bool, base: Path, level: nat)
    requires level <= fs.limit && TooLong(base)
    ensures Resolve(fs, "", deref, Some(base), level) == Err(NameTooLong)
  {
    assert Next("") == ("", "", FinalNormal);
    assert Enter(fs, "", FinalNormal, deref, base, level, 0) == Err(NameTooLong);
    assert Walk(fs, "", deref, base, level, 0) == Err(NameTooLong);
  }

  /** canonicalize and the plain walk agree: they reach the same path after the
      same number of links, or stop for the same reason; and it gives up on links
      only where the walk is not done after as many as the depth has left. */
  lemma {:induction false} ResolveAgrees(fs: Fs, s: string, deref: bool, base: Path, level: nat)
    requires Walkable(fs, base)
    ensures Gives(PosixText(fs, base, s, deref || EndsInSlash(s)), Resolve(fs, s, deref, Some(base), level), fs.limit - level)
    decreases Depth(fs, level), 2, 0
  {
    var walk := PosixText(fs, base, s, deref || EndsInSlash(s));
    if level <= fs.limit {
      assert s == "" ==> Split(s) == [] && Next(s) == ("", "", FinalNormal);
      if |s| >= PATH_MAX || (s == "" && TooLong(base)) {
        assert walk(0) == Err(NameTooLong);
        if |s| < PATH_MAX { EmptyTooLong(fs, deref, base, level); }
      } else {
        WalkableParent(fs, base);
        SlashesLeadToRoot(s);
        WalkAgrees(fs, s, deref, LinkStart(s, base), level, 0);
        var names := PosixFrom(fs, LinkStart(s, base), Split(s), deref || EndsInSlash(s));
        assert forall fuel: nat :: walk(fuel) == names(fuel);
        SameGives(names, walk, Resolve(fs, s, deref, Some(base), level), fs.limit - level);
      }
    }
  }

  /** Without any name in it a text is empty or absolute. */
  lemma SlashesLeadToRoot(s: string)
    ensures Split(s) == [] ==> s == "" || Absolute(s)
  {}

  lemma SameGives(a: Budgeted, b: Budgeted, r: Result<Canonical, Error>, n: int)
    requires Gives(a, r, n) && forall fuel: nat :: b(fuel) == a(fuel)
    ensures Gives(b, r, n)
  {
    if r.Err? && !r.error.TooManyLinks? {
      var fuel: nat :| a(fuel) == Err(r.error);
      assert b(fuel) == Err(r.error);
    }
  }

  /** Wherever the walk is done within the limit, canonicalize gives its answer,
      path or error. */
  lemma ResolveIsTheWalk(fs: Fs, s: string, deref: bool, base: Path, level: nat)
    requires Walkable(fs, base) && level <= fs.limit
    requires PosixText(fs, base, s, deref || EndsInSlash(s))(fs.limit - level) != Err(TooManyLinks)
    ensures match PosixText(fs, base, s, deref || EndsInSlash(s))(fs.limit - level)
            case Err(e) => Resolve(fs, s, deref, Some(base), level) == Err(e)
            case Ok(place) =>
              var r := Resolve(fs, s, deref, Some(base), level);
              r.Ok? && r.value.path == place.path && r.value.links == fs.limit - level - place.left
  {
    ResolveAgrees(fs, s, deref, base, level);
  }

  /** Without a base the caller's path starts at "/", and a link's target has no
      place to start from. */
  lemma ResolveFromNowhere(fs: Fs, s: string, deref: bool, level: nat)
    requires level <= fs.limit && |s| < 4096
    ensures Resolve(fs, s, deref, None, level) ==
            if s == "" || s[0] != '/' then (if level == 0 then Resolve(fs, s, deref, Some([]), 0) else Err(Invalid))
            else Resolve(fs, s, deref, Some([]), level)
  {}

  /** The mark at the end is that of the caller's own last name, whatever links
      were followed on the way. */
  lemma {:induction false} WalkMarks(fs: Fs, s: string, deref: bool, at: Path, level: nat, followed: nat)
    requires level <= fs.limit
    ensures var r := Walk(fs, s, deref, at, level, followed); r.Ok? ==> r.value.finality == MarkOf(Split(s), EndsInSlash(s))
    decreases |s|
  {
    var next := Next(s);
    NextSplits(s);
    var step := Enter(fs, next.0, next.2, deref, at, level, followed);
    if next.2 == NotFinal && step.Ok? {
      WalkMarks(fs, next.1, deref, step.value.path, level, followed + (if step.value.links > 0 then 1 else 0));
      assert Split(s)[|Split(s)| - 1] == Split(next.1)[|Split(next.1)| - 1];
    }
  }

  function MarkOf(names: seq<Name>, slash: bool): Finality {
    if names == [] then FinalNormal
    else if names[|names| - 1] == "." then FinalDot
    else if names[|names| - 1] == ".." || slash then FinalSlash
    else FinalNormal
  }

  lemma ResolveMarks(fs: Fs, s: string, deref: bool, base: Path, level: nat)
    ensures var r := Resolve(fs, s, deref, Some(base), level); r.Ok? ==> r.value.finality == MarkOf(Split(s), EndsInSlash(s))
  {
    if level <= fs.limit && |s| < PATH_MAX {
      WalkMarks(fs, s, deref, Begin(s, Some(base), level).value, level, 0);
    }
  }

  // ----- how many links -----

  function PowerOfTwo(n: nat): nat {
    if n == 0 then 1 else 2 * PowerOfTwo(n - 1)
  }

  /** Fewer than two to the n links were followed. */
  predicate Bounded(r: Result<Canonical, Error>, n: nat) {
    r.Ok? ==> r.value.links < PowerOfTwo(n)
  }

  lemma {:induction false} WalkLinks(fs: Fs, s: string, deref: bool, at: Path, level: nat, followed: nat)
    requires level + followed <= fs.limit
    ensures Bounded(Walk(fs, s, deref, at, level, followed), fs.limit - level - followed)
    decreases Depth(fs, level), 1, 2 * |s| + 2
  {
    var next := Next(s);
    GoLinks(fs, next.0, next.1, next.2, deref, at, level, followed);
    WalkIs(fs, s, next.0, next.1, next.2, deref, at, level, followed);
  }

  lemma {:induction false} GoLinks(fs: Fs, name: Name, rest: string, finality: Finality, deref: bool, at: Path, level: nat, followed: nat)
    requires level + followed <= fs.limit
    ensures Bounded(Go(fs, name, rest, finality, deref, at, level, followed, 0), fs.limit - level - followed)
    decreases Depth(fs, level), 1, if finality == NotFinal then 2 * |rest| + 3 else 1
  {
    EnterLinks(fs, name, finality, deref, at, level, followed);
    var step := StepOf(fs, name, finality, deref, at, level, followed);
    var count := followed + if step.Ok? && step.value.links > 0 then 1 else 0;
    if step.Ok? && finality == NotFinal {
      WalkLinks(fs, rest, deref, step.value.path, level, count);
    }
    ProceedLinks(fs, name, rest, finality, deref, level, followed, step, count);
    GoBounded(fs, name, rest, finality, deref, at, level, followed, step, fs.limit - level - followed);
  }

  lemma StepOf(fs: Fs, name: Name, finality: Finality, deref: bool, at: Path, level: nat, followed: nat)
    returns (step: Result<Reached, Error>)
    requires level <= fs.limit
    ensures step == Enter(fs, name, finality, deref, at, level, followed)
  {
    step := Enter(fs, name, finality, deref, at, level, followed);
  }

  lemma GoBounded(fs: Fs, name: Name, rest: string, finality: Finality, deref: bool, at: Path, level: nat, followed: nat,
                  step: Result<Reached, Error>, n: nat)
    requires level <= fs.limit && step == Enter(fs, name, finality, deref, at, level, followed)
    requires Bounded(Proceed(fs, name, rest, finality, deref, level, followed, 0, step), n)
    ensures Bounded(Go(fs, name, rest, finality, deref, at, level, followed, 0), n)
  {}

  lemma ProceedLinks(fs: Fs, name: Name, rest: string, finality: Finality, deref: bool, level: nat, followed: nat,
                     step: Result<Reached, Error>, count: nat)
    requires level + followed <= fs.limit && count == followed + if step.Ok? && step.value.links > 0 then 1 else 0
    requires step.Ok? && step.value.links > 0 ==>
               level + count <= fs.limit && step.value.links <= PowerOfTwo(fs.limit - level - count)
    requires step.Ok? && finality == NotFinal ==>
               Bounded(Walk(fs, rest, deref, step.value.path, level, count), fs.limit - level - count)
    ensures Bounded(Proceed(fs, name, rest, finality, deref, level, followed, 0, step), fs.limit - level - followed)
  {
    PowerPositive(fs.limit - level - followed);
  }

  lemma {:induction false} EnterLinks(fs: Fs, name: Name, finality: Finality, deref: bool, at: Path, level: nat, followed: nat)
    requires level + followed <= fs.limit
    ensures var step := Enter(fs, name, finality, deref, at, level, followed);
            step.Ok? && step.value.links > 0 ==>
              level + followed < fs.limit && step.value.links <= PowerOfTwo(fs.limit - level - followed - 1)
    ensures PowerOfTwo(fs.limit - level - followed) > 0
    decreases Depth(fs, level), 0, 0
  {
    PowerPositive(fs.limit - level - followed);
    if name != "." && name != ".." {
      var entry := fs.entry(Child(at, name));
      if entry.Link? && entry.read.Target? && level + followed < fs.limit {
        ResolveLinks(fs, entry.read.text, true, Some(at), level + followed + 1);
      }
    }
  }

  lemma {:induction false} PowerPositive(n: nat)
    ensures PowerOfTwo(n) > 0
  {
    if n > 0 { PowerPositive(n - 1); }
  }

  /** A call that succeeds followed fewer than two to the depth left links: the
      links of one walk count towards the depth too. */
  lemma {:induction false} ResolveLinks(fs: Fs, s: string, deref: bool, base: Option<Path>, level: nat)
    ensures var r := Resolve(fs, s, deref, base, level);
            r.Ok? ==> level <= fs.limit && Bounded(r, fs.limit - level)
    decreases Depth(fs, level), 2, 0
  {
    if level <= fs.limit && |s| < PATH_MAX && Begin(s, base, level).Some? {
      WalkLinks(fs, s, deref, Begin(s, base, level).value, level, 0);
    }
  }

  /** A link to itself is given up on, whatever the limit. */
  lemma {:induction false} SelfLinkIsGivenUp(fs: Fs, name: Name, level: nat)
    requires IsName(name) && name != "." && name != ".." && |name| < 255
    requires fs.entry([name]) == Link(Target("/" + name))
    ensures Resolve(fs, "/" + name, true, Some([]), level) == Err(TooManyLinks)
    decreases Depth(fs, level)
  {
    if level <= fs.limit {
      var s := "/" + name;
      assert s[1..] == name && SkipSlashes(name) == name && SkipSlashes(s) == name;
      NameLengthOfName(name, "");
      assert name + "" == name && name[|name|..] == "" && name[..|name|] == name;
      assert Next(s) == (name, "", FinalNormal);
      var root: Path := [];
      assert Child(root, name) == [name];
      assert Render([name]) == "/" + name by { assert Tail([name][1..]) == ""; }
      SelfLinkIsGivenUp(fs, name, level + 1);
      assert Enter(fs, name, FinalNormal, true, root, level, 0) == Err(TooManyLinks);
    }
  }

  /** A slash behind the last name is seen, and leaves no mark: with or without it
      the path is spelled alike, because all that is joined to it is nothing. */
  lemma TrailingSlashLeavesNoMark(fs: Fs, name: Name, slash: string)
    requires IsName(name) && name != "." && name != ".." && |name| < 255 && !fs.entry([name]).Link?
    requires slash == "" || slash == "/"
    ensures Resolve(fs, "/" + name + slash, true, Some([]), 0) ==
            Ok(Canonical([name], if slash == "" then FinalNormal else FinalSlash, 0))
    ensures Joined(Render([name]), "") == Render([name]) == "/" + name
  {
    var finality := if slash == "" then FinalNormal else FinalSlash;
    OnlyComponent(name, slash);
    OneNameWalk(fs, "/" + name + slash, name, finality);
    assert Render([name]) == "/" + name by { assert Tail([name][1..]) == ""; }
  }

  lemma OnlyComponent(name: Name, slash: string)
    requires IsName(name) && (slash == "" || slash == "/")
    ensures Next("/" + name + slash) == (name, "", if slash == "" then FinalNormal else FinalSlash)
  {
    var s := "/" + name + slash;
    var t := name + slash;
    assert s[1..] == t && SkipSlashes(t) == t && SkipSlashes(s) == t;
    NameLengthOfName(name, slash);
    assert t[|name|..] == slash && t[..|name|] == name;
    assert slash != "" ==> slash[1..] == "";
  }

  lemma OneNameWalk(fs: Fs, s: string, name: Name, finality: Finality)
    requires IsName(name) && name != "." && name != ".." && |name| < 255 && !fs.entry([name]).Link?
    requires Absolute(s) && |s| < PATH_MAX && finality != NotFinal && Next(s) == (name, "", finality)
    ensures Resolve(fs, s, true, Some([]), 0) == Ok(Canonical([name], finality, 0))
  {
    var root: Path := [];
    assert Child(root, name) == [name];
    assert Render([name]) == "/" + name by { assert Tail([name][1..]) == ""; }
    assert Enter(fs, name, finality, true, root, 0, 0) == Ok(Reached([name], 0));
    assert Walk(fs, s, true, root, 0, 0) == Ok(Canonical([name], finality, 0));
  }

  // ----- normal form -----

  /** Absolute, with no empty, "." or ".." component. */
  predicate Normal(p: Path) {
    IsPath(p) && forall i :: 0 <= i < |p| ==> p[i] != "." && p[i] != ".."
  }

  lemma {:induction false} SplitIsPath(s: string)
    requires NUL !in s
    ensures IsPath(Split(s))
    decreases |s|
  {
    if s != "" {
      if s[0] == '/' {
        SplitIsPath(s[1..]);
      } else {
        SplitIsPath(s[NameLength(s)..]);
      }
    }
  }

  lemma {:induction false} PosixNormal(fs: Fs, at: Path, names: seq<Name>, deref: bool, fuel: nat)
    requires CStrings(fs) && Normal(at) && IsPath(names)
    ensures var r := Posix(fs, at, names, deref, fuel); r.Ok? ==> Normal(r.value.path)
    decreases fuel, |names|
  {
    if |names| > 0 {
      var name, rest := names[0], names[1..];
      var entry := fs.entry(at + [name]);
      if name == "." {
        PosixNormal(fs, at, rest, deref, fuel);
      } else if name == ".." {
        PosixNormal(fs, Parent(at), rest, deref, fuel);
      } else if entry.Link? && entry.read.Target? && fuel > 0 && (rest != [] || deref) {
        SplitIsPath(entry.read.text);
        PosixNormal(fs, LinkStart(entry.read.text, at), Split(entry.read.text) + rest, deref, fuel - 1);
      } else {
        PosixNormal(fs, at + [name], rest, deref, fuel);
      }
    }
  }

  /** Every canonical path is in normal form, and resolved: directories all the
      way, and a link at its end only when the caller asked for it. */
  lemma ResolveNormalises(fs: Fs, s: string, deref: bool, base: Path, level: nat)
    requires CStrings(fs) && NUL !in s && Walkable(fs, base) && Normal(base)
    ensures var r := Resolve(fs, s, deref, Some(base), level);
            r.Ok? ==> Normal(r.value.path) && (deref || EndsInSlash(s) ==> Settled(fs, r.value.path))
  {
    var r := Resolve(fs, s, deref, Some(base), level);
    if r.Ok? {
      var d, c := deref || EndsInSlash(s), r.value;
      ResolveAgrees(fs, s, deref, base, level);
      assert PosixText(fs, base, s, d)(c.links) == Ok(Place(c.path, 0));
      WalkableParent(fs, base);
      SplitIsPath(s);
      PosixNormal(fs, LinkStart(s, base), Split(s), d, c.links);
      if d {
        PosixSettles(fs, LinkStart(s, base), Split(s), c.links);
      }
    }
  }

  // ----- without links -----

  function Fold(at: Path, names: seq<Name>): Path
    decreases |names|
  {
    if |names| == 0 then at
    else Fold(if names[0] == "." then at else if names[0] == ".." then Parent(at) else at + [names[0]], names[1..])
  }

  lemma {:induction false} PosixFolds(fs: Fs, at: Path, names: seq<Name>, deref: bool, fuel: nat)
    requires forall p :: !fs.entry(p).Link?
    ensures var r := Posix(fs, at, names, deref, fuel); r.Ok? ==> r.value == Place(Fold(at, names), fuel)
    decreases |names|
  {
    if |names| > 0 {
      PosixFolds(fs, if names[0] == "." then at else if names[0] == ".." then Parent(at) else at + [names[0]], names[1..], deref, fuel);
    }
  }

  /** With no links at all, canonicalising is folding the components. */
  lemma ResolveWithoutLinks(fs: Fs, s: string, deref: bool, base: Path, level: nat)
    requires Walkable(fs, base) && forall p :: !fs.entry(p).Link?
    ensures var r := Resolve(fs, s, deref, Some(base), level);
            r.Ok? ==> r.value.path == Fold(LinkStart(s, base), Split(s)) && r.value.links == 0
  {
    var r := Resolve(fs, s, deref, Some(base), level);
    if r.Ok? {
      var d, c := deref || EndsInSlash(s), r.value;
      ResolveAgrees(fs, s, deref, base, level);
      assert PosixText(fs, base, s, d)(c.links) == Ok(Place(c.path, 0));
      PosixFolds(fs, LinkStart(s, base), Split(s), d, c.links);
      assert c.links == 0;
    }
  }
}
