/** The canonicaliser of src/path/canon.c: component by component, following
    symbolic links by recursion, under a depth that also counts the links of one
    walk.  The file system seen through the bindings is a parameter. */
module Canon {
  import opened Wrappers
  import opened Paths

  const NAME_MAX: nat := 255

  datatype Error = TooManyLinks | NameTooLong | NoEntry | NotDirectory | Invalid | Io(code: int)

  /** What reading a link gives: its target as the guest sees it; the link was
      replaced by something else meanwhile; or a failure. */
  datatype LinkRead = Target(text: string) | Gone | Failed(code: int)

  datatype Entry = Directory | Other(present: bool) | Link(read: LinkRead)

  /** A guest file system, and the system's MAXSYMLINKS. */
  datatype Fs = Fs(entry: Path -> Entry, limit: nat)

  datatype Finality = NotFinal | FinalNormal | FinalSlash | FinalDot

  function SkipSlashes(s: string): (t: string)
    ensures |t| <= |s| && (t == "" || t[0] != '/')
  {
    if s == "" || s[0] != '/' then s else SkipSlashes(s[1..])
  }

  /** The next component, what is left, and whether it was the last one. */
  function Next(s: string): (r: (string, string, Finality))
    ensures r.2 == NotFinal ==> |r.1| < |s| && r.1 != "" && r.0 != ""
    ensures r.2 != NotFinal ==> r.1 == ""
    ensures '/' !in r.0
  {
    var t := SkipSlashes(s);
    var n := NameLength(t);
    var u := SkipSlashes(t[n..]);
    (t[..n], u, if u != "" then NotFinal else if n < |t| then FinalSlash else FinalNormal)
  }

  function Parent(p: Path): Path {
    if |p| == 0 then p else p[..|p| - 1]
  }

  /** join_paths of a guest path and a component; nothing changes for the
      empty component a bare "/" yields. */
  function Child(p: Path, component: string): Path {
    if component == "" then p else p + [component]
  }

  predicate TooLong(p: Path) {
    Length(p) + 1 >= PATH_MAX
  }

  /** Where a walk stands, and how many links it followed to get there. */
  datatype Reached = Reached(path: Path, links: nat)

  datatype Canonical = Canonical(path: Path, finality: Finality, links: nat)

  /** The depth left. */
  function Depth(fs: Fs, level: nat): nat {
    if level > fs.limit then 0 else fs.limit + 1 - level
  }

  /** A component in the middle of a path must lead on. */
  function Checked(fs: Fs, path: Path, links: nat, finality: Finality): Result<Reached, Error> {
    var entry := fs.entry(path);
    if entry.Other? && finality == NotFinal then Err(if entry.present then NotDirectory else NoEntry)
    else Ok(Reached(path, links))
  }

  /** One component: nothing, one step up, one step down, or a link followed. */
  function Enter(fs: Fs, component: string, finality: Finality, deref: bool, guest: Path, level: nat, followed: nat): Result<Reached, Error>
    requires level <= fs.limit
    decreases Depth(fs, level), 0, 0
  {
    if component == "." then Ok(Reached(guest, 0))
    else if component == ".." then Ok(Reached(Parent(guest), 0))
    else
      var next := Child(guest, component);
      if TooLong(next) then Err(NameTooLong)
      else
        var entry := fs.entry(next);
        if !entry.Link? then Checked(fs, next, 0, finality)
        else if (finality == FinalNormal && !deref) || entry.read.Gone? then Ok(Reached(next, 0))
        else if entry.read.Failed? then Err(Io(entry.read.code))
        else
          match Resolve(fs, entry.read.text, true, Some(guest), level + followed + 1)
          case Err(e) => Err(e)
          case Ok(c) => Checked(fs, c.path, c.links + 1, finality)
  }

  /** The finality once "." and ".." have had their say. */
  function Mark(component: string, finality: Finality): Finality {
    if component == "." then FinalDot else if component == ".." then FinalSlash else finality
  }

  /** The components of s from guest on. */
  function Walk(fs: Fs, s: string, deref: bool, guest: Path, level: nat, followed: nat): Result<Canonical, Error>
    requires level <= fs.limit
    decreases Depth(fs, level), 1, |s|
  {
    var (component, rest, finality) := Next(s);
    if |component| >= NAME_MAX then Err(NameTooLong)
    else
      match Enter(fs, component, finality, deref, guest, level, followed)
      case Err(e) => Err(e)
      case Ok(reached) =>
        if finality != NotFinal then Ok(Canonical(reached.path, Mark(component, finality), reached.links))
        else After(reached.links, Walk(fs, rest, deref, reached.path, level, followed + (if reached.links > 0 then 1 else 0)))
  }

  function After(links: nat, r: Result<Canonical, Error>): Result<Canonical, Error> {
    match r
    case Err(e) => Err(e)
    case Ok(c) => Ok(c.(links := links + c.links))
  }

  predicate Absolute(s: string) {
    s != "" && s[0] == '/'
  }

  /** Where a walk begins; None: the caller's path is no absolute path. */
  function Begin(s: string, base: Option<Path>, level: nat): Option<Path> {
    if Absolute(s) then Some([])
    else if base.None? && level == 0 then Some([])
    else base
  }

  /** What canonicalize computes. */
  function Resolve(fs: Fs, s: string, deref: bool, base: Option<Path>, level: nat): Result<Canonical, Error>
    decreases Depth(fs, level), 2, 0
  {
    if level > fs.limit then Err(TooManyLinks)
    else if |s| >= PATH_MAX then Err(NameTooLong)
    else if Begin(s, base, level).None? then Err(Invalid)
    else Walk(fs, s, deref, Begin(s, base, level).value, level, 0)
  }

  // ----- the code -----

  /** pop_component on a spelling, trailing slashes or not. */
  method PopComponent(path: string, ghost p: Path, ghost slashes: nat) returns (r: string)
    requires IsPath(p) && |path| == |Render(p)| + slashes && Render(p) <= path
    requires forall i :: |Render(p)| <= i < |path| ==> path[i] == '/'
    ensures r == Render(Parent(p))
  {
    ghost var cut := PopCut(p);
    ghost var s := Render(p);
    assert forall i :: 0 <= i < |s| ==> path[i] == s[i];
    assert path[..cut] == s[..cut];
    r := PopBytes(path, |s|, cut);
  }

  /** The two scans from the end; end is where trailing slashes begin. */
  method PopBytes(path: string, ghost end: nat, ghost cut: nat) returns (r: string)
    requires 1 <= cut <= end <= |path| && (cut == end ==> cut == 1)
    requires forall i :: end <= i < |path| ==> path[i] == '/'
    requires forall i :: cut < i < end ==> path[i] != '/'
    requires 1 < cut < end ==> path[cut] == '/' && path[end - 1] != '/'
    ensures r == path[..cut]
  {
    var len := |path| - 1;
    if len <= 0 {
      return path;
    }
    while len > 1 && path[len] == '/'
      invariant end - 1 <= len < |path| && 0 < len
      decreases len
    {
      len := len - 1;
    }
    while len > 1 && path[len] != '/'
      invariant 0 < len < |path| && cut <= len && (len > 1 ==> len < end)
      decreases len
    {
      len := len - 1;
    }
    return path[..len];
  }

  /** Where the last name begins, less its slash; 1 when only the root is left. */
  lemma PopCut(p: Path) returns (cut: nat)
    requires IsPath(p)
    ensures var s := Render(p);
            && 1 <= cut <= |s| && s[..cut] == Render(Parent(p)) && (cut == |s| ==> p == [] && cut == 1)
            && (p != [] ==> s[|s| - 1] != '/')
            && (forall i :: cut < i < |s| ==> s[i] != '/')
            && (1 < cut < |s| ==> s[cut] == '/')
  {
    if p == [] {
      return 1;
    }
    var init, last := p[..|p| - 1], p[|p| - 1];
    assert p == init + [last] && IsName(last);
    TailAppend(init, [last]);
    assert Tail([last]) == "/" + last by { assert Tail([last][1..]) == ""; }
    var s := Render(p);
    assert s == Tail(init) + ("/" + last);
    if init == [] {
      cut := 1;
      assert s == "/" + last;
    } else {
      cut := |Tail(init)|;
      RenderIsLong(init);
    }
  }

  /** next_component at a cursor. */
  method NextComponent(s: string, start: nat) returns (component: string, cursor: nat, finality: Finality)
    requires start <= |s|
    ensures cursor <= |s|
    ensures var next := Next(s[start..]); component == next.0 && s[cursor..] == next.1 && finality == next.2
  {
    var begin := SkipFrom(s, start);
    cursor := NameEnd(s, begin);
    component := s[begin..cursor];
    SliceParts(s, begin, cursor);
    var wantDir := cursor < |s| && s[cursor] == '/';
    cursor := SkipFrom(s, cursor);
    if cursor == |s| {
      finality := if wantDir then FinalSlash else FinalNormal;
    } else {
      finality := NotFinal;
    }
  }

  method SkipFrom(s: string, start: nat) returns (cursor: nat)
    requires start <= |s|
    ensures start <= cursor <= |s| && s[cursor..] == SkipSlashes(s[start..])
  {
    cursor := start;
    while cursor < |s| && s[cursor] == '/'
      invariant start <= cursor <= |s| && SkipSlashes(s[cursor..]) == SkipSlashes(s[start..])
    {
      assert s[cursor..][1..] == s[cursor + 1..];
      cursor := cursor + 1;
    }
  }

  method NameEnd(s: string, begin: nat) returns (cursor: nat)
    requires begin <= |s|
    ensures begin <= cursor <= |s| && NameLength(s[begin..]) == cursor - begin
  {
    cursor := begin;
    while cursor < |s| && s[cursor] != '/'
      invariant begin <= cursor <= |s|
      invariant NameLength(s[begin..]) == cursor - begin + NameLength(s[cursor..])
    {
      assert s[cursor..][1..] == s[cursor + 1..];
      cursor := cursor + 1;
    }
  }

  lemma SliceParts(s: string, begin: nat, end: nat)
    requires begin <= end <= |s|
    ensures s[begin..][..end - begin] == s[begin..end] && s[begin..][end - begin..] == s[end..]
  {}

  /** Link targets are C strings. */
  ghost predicate CStrings(fs: Fs) {
    forall p :: fs.entry(p).Link? && fs.entry(p).read.Target? ==> NUL !in fs.entry(p).read.text
  }

  lemma {:induction false} SkipKeeps(s: string)
    ensures NUL !in s ==> NUL !in SkipSlashes(s)
  {
    if s != "" && s[0] == '/' {
      SkipKeeps(s[1..]);
    }
  }

  lemma NextIsName(s: string)
    requires NUL !in s
    ensures Next(s).0 == "" || IsName(Next(s).0)
    ensures NUL !in Next(s).1
  {
    SkipKeeps(s);
    var t := SkipSlashes(s);
    SkipKeeps(t[NameLength(t)..]);
  }

  lemma JoinChild(p: Path, component: string)
    requires IsPath(p) && (component == "" || IsName(component))
    ensures IsPath(Child(p, component))
    ensures JoinFits(Render(p), component) <==> !TooLong(Child(p, component))
    ensures Joined(Render(p), component) == Render(Child(p, component))
  {
    if component != "" {
      var q := [component];
      assert Tail(q) == "/" + component by { assert Tail(q[1..]) == ""; }
      assert Tail(q)[1..] == component;
      JoinRendered(p, q);
      var isRoot := RenderHead(p);
    }
  }

  /** The walk, given its next component. */
  function Go(fs: Fs, component: string, rest: string, finality: Finality, deref: bool, guest: Path, level: nat, followed: nat, links: nat)
    : Result<Canonical, Error>
    requires level <= fs.limit
  {
    if |component| >= NAME_MAX then Err(NameTooLong)
    else Proceed(fs, component, rest, finality, deref, level, followed, links, Enter(fs, component, finality, deref, guest, level, followed))
  }

  function Proceed(fs: Fs, component: string, rest: string, finality: Finality, deref: bool, level: nat, followed: nat, links: nat,
      step: Result<Reached, Error>): Result<Canonical, Error>
    requires level <= fs.limit
  {
    match step
    case Err(e) => Err(e)
    case Ok(reached) =>
      if finality != NotFinal then Ok(Canonical(reached.path, Mark(component, finality), links + reached.links))
      else After(links + reached.links, Walk(fs, rest, deref, reached.path, level, followed + (if reached.links > 0 then 1 else 0)))
  }

  lemma WalkGoes(fs: Fs, s: string, deref: bool, guest: Path, level: nat, followed: nat, links: nat)
    requires level <= fs.limit
    ensures var next := Next(s);
            After(links, Walk(fs, s, deref, guest, level, followed)) == Go(fs, next.0, next.1, next.2, deref, guest, level, followed, links)
  {
    var next := Next(s);
    WalkIs(fs, s, next.0, next.1, next.2, deref, guest, level, followed);
    GoAfter(fs, next.0, next.1, next.2, deref, guest, level, followed, links);
  }

  lemma WalkIs(fs: Fs, s: string, component: string, rest: string, finality: Finality, deref: bool, guest: Path, level: nat, followed: nat)
    requires level <= fs.limit && Next(s) == (component, rest, finality)
    ensures Walk(fs, s, deref, guest, level, followed) == Go(fs, component, rest, finality, deref, guest, level, followed, 0)
  {}

  lemma GoAfter(fs: Fs, component: string, rest: string, finality: Finality, deref: bool, guest: Path, level: nat, followed: nat, links: nat)
    requires level <= fs.limit
    ensures After(links, Go(fs, component, rest, finality, deref, guest, level, followed, 0)) ==
            Go(fs, component, rest, finality, deref, guest, level, followed, links)
  {}

  class Resolver {
    const fs: Fs
    var guest: string

    constructor (fs: Fs, guest: string)
      ensures this.fs == fs && this.guest == guest
    {
      this.fs, this.guest := fs, guest;
    }

    /** lstat of the translated path; in the middle of a path only directories
        and links will do. */
    method SubstituteBindingStat(path: string, finality: Finality) returns (r: Result<Entry, Error>)
      ensures var entry := fs.entry(Split(path));
              r == if entry.Other? && finality == NotFinal then Err(if entry.present then NotDirectory else NoEntry) else Ok(entry)
    {
      var entry := fs.entry(Split(path));
      if entry.Other? && finality == NotFinal {
        return Err(if entry.present then NotDirectory else NoEntry);
      }
      return Ok(entry);
    }

    /** One turn of the loop, from the component on; count is symlinks_followed. */
    method EnterComponent(component: string, finality: Finality, deref: bool, level: nat, followed: nat, ghost at: Path)
      returns (failure: Option<Error>, count: nat)
      requires level <= fs.limit && CStrings(fs)
      requires IsPath(at) && guest == Render(at) && (component == "" || IsName(component))
      modifies this`guest
      ensures match Enter(fs, component, finality, deref, at, level, followed)
              case Err(e) => failure == Some(e)
              case Ok(reached) =>
                && failure == None && IsPath(reached.path) && guest == Render(reached.path)
                && count == followed + (if reached.links > 0 then 1 else 0)
      decreases Depth(fs, level), 0, 1
    {
      count := followed;
      if component == "." {
        return None, count;
      }
      if component == ".." {
        guest := PopComponent(guest, at, 0);
        return None, count;
      }
      failure, count := EnterName(component, finality, deref, level, followed, at);
    }

    method JoinGuest(component: string, ghost at: Path, ghost next: Path) returns (scratch: Option<string>)
      requires IsPath(at) && guest == Render(at) && (component == "" || IsName(component)) && next == Child(at, component)
      ensures scratch.None? <==> TooLong(next)
      ensures scratch.Some? ==> IsPath(next) && scratch.value == Render(next) && Split(scratch.value) == next
    {
      JoinChild(at, component);
      SplitRender(next);
      scratch := JoinPaths([guest, component]);
    }

    /** The component is a name, or the empty one. */
    method EnterName(component: string, finality: Finality, deref: bool, level: nat, followed: nat, ghost at: Path)
      returns (failure: Option<Error>, count: nat)
      requires level <= fs.limit && CStrings(fs) && component != "." && component != ".."
      requires IsPath(at) && guest == Render(at) && (component == "" || IsName(component))
      modifies this`guest
      ensures match Enter(fs, component, finality, deref, at, level, followed)
              case Err(e) => failure == Some(e)
              case Ok(reached) =>
                && failure == None && IsPath(reached.path) && guest == Render(reached.path)
                && count == followed + (if reached.links > 0 then 1 else 0)
      decreases Depth(fs, level), 0, 0
    {
      count := followed;
      ghost var next := Child(at, component);
      var scratch := JoinGuest(component, at, next);
      if scratch.None? {
        return Some(NameTooLong), count;
      }
      var entry := SubstituteBindingStat(scratch.value, finality);
      if entry.Err? {
        return Some(entry.error), count;
      }
      if !entry.value.Link? || (finality == FinalNormal && !deref) || entry.value.read.Gone? {
        guest := scratch.value;
        return None, count;
      }
      if entry.value.read.Failed? {
        return Some(Io(entry.value.read.code)), count;
      }
      count := count + 1;
      failure := FollowLink(entry.value.read.text, finality, level + count, at);
    }

    /** The target is canonicalised from where the walk stands, and looked at. */
    method FollowLink(text: string, finality: Finality, level: nat, ghost at: Path) returns (failure: Option<Error>)
      requires CStrings(fs) && NUL !in text && IsPath(at) && guest == Render(at) && level > 0
      modifies this`guest
      ensures match Resolve(fs, text, true, Some(at), level)
              case Err(e) => failure == Some(e)
              case Ok(c) =>
                match Checked(fs, c.path, c.links + 1, finality)
                case Err(e) => failure == Some(e)
                case Ok(_) => failure == None && IsPath(c.path) && guest == Render(c.path)
      decreases Depth(fs, level), 3, 0
    {
      failure := Canonicalize(text, true, level, Some(at));
      if failure.Some? {
        return;
      }
      ghost var c := Resolve(fs, text, true, Some(at), level);
      SplitRender(c.value.path);
      var entry := SubstituteBindingStat(guest, finality);
      if entry.Err? {
        return Some(entry.error);
      }
    }

    /** canonicalize; base is what the guest buffer spells on entry, if it is
        an absolute path. */
    method Canonicalize(user: string, deref: bool, level: nat, ghost base: Option<Path>) returns (failure: Option<Error>)
      requires CStrings(fs) && NUL !in user
      requires match base case None => !Absolute(guest) case Some(p) => IsPath(p) && guest == Render(p)
      modifies this`guest
      ensures match Resolve(fs, user, deref, base, level)
              case Err(e) => failure == Some(e)
              case Ok(c) =>
                && failure == None && IsPath(c.path)
                && (level != 0 || c.finality != FinalDot ==> guest == Render(c.path))
                && (level == 0 && c.finality == FinalDot && JoinFits(Render(c.path), ".") ==> guest == Joined(Render(c.path), "."))
      decreases Depth(fs, level), 2, 0
    {
      if level > fs.limit {
        return Some(TooManyLinks);
      }
      if |user| >= PATH_MAX {
        return Some(NameTooLong);
      }
      if !Absolute(user) {
        if !Absolute(guest) {
          if level != 0 {
            return Some(Invalid);
          }
          guest := "/";
        }
      } else {
        guest := "/";
      }
      var finality;
      failure, finality := WalkComponents(user, deref, level, Begin(user, base, level).value);
      if failure.Some? {
        return;
      }
      if level == 0 && finality != FinalNormal {
        var joined := JoinPaths([guest, if finality == FinalDot then "." else ""]);
        guest := joined.GetOr(guest);
      }
    }

    /** The loop of canonicalize. */
    method WalkComponents(user: string, deref: bool, level: nat, ghost start: Path) returns (failure: Option<Error>, finality: Finality)
      requires level <= fs.limit && CStrings(fs) && NUL !in user && IsPath(start) && guest == Render(start)
      modifies this`guest
      ensures match Walk(fs, user, deref, start, level, 0)
              case Err(e) => failure == Some(e)
              case Ok(c) => failure == None && IsPath(c.path) && guest == Render(c.path) && finality == c.finality != NotFinal
      decreases Depth(fs, level), 1, 1
    {
      ghost var at, links: nat := start, 0;
      ghost var whole := Walk(fs, user, deref, start, level, 0);
      var cursor: nat, followed: nat := 0, 0;
      failure, finality := None, NotFinal;
      assert user[0..] == user;
      while finality == NotFinal
        invariant cursor <= |user| && NUL !in user[cursor..]
        invariant IsPath(at) && guest == Render(at) && failure == None
        invariant whole == if finality == NotFinal then After(links, Walk(fs, user[cursor..], deref, at, level, followed))
                           else Ok(Canonical(at, finality, links))
        decreases finality == NotFinal, |user| - cursor
      {
        failure, finality, cursor, followed, at, links := Turn(user, cursor, deref, level, followed, at, links, whole);
        if failure.Some? {
          return;
        }
      }
    }

    /** One turn of the loop. */
    method Turn(user: string, start: nat, deref: bool, level: nat, followed: nat,
        ghost at: Path, ghost links: nat, ghost whole: Result<Canonical, Error>)
      returns (failure: Option<Error>, finality: Finality, cursor: nat, count: nat, ghost reached: Path, ghost total: nat)
      requires level <= fs.limit && CStrings(fs) && start <= |user| && NUL !in user[start..]
      requires IsPath(at) && guest == Render(at)
      requires whole == After(links, Walk(fs, user[start..], deref, at, level, followed))
      modifies this`guest
      ensures failure.Some? ==> whole == Err(failure.value)
      ensures failure.None? ==>
                && IsPath(reached) && guest == Render(reached)
                && cursor <= |user| && NUL !in user[cursor..] && (finality == NotFinal ==> cursor > start)
                && whole == if finality == NotFinal then After(total, Walk(fs, user[cursor..], deref, reached, level, count))
                            else Ok(Canonical(reached, finality, total))
      decreases Depth(fs, level), 1, 0
    {
      NextIsName(user[start..]);
      WalkGoes(fs, user[start..], deref, at, level, followed, links);
      var component;
      component, cursor, finality := NextComponent(user, start);
      failure, finality, count, reached, total := Advance(component, user[cursor..], finality, deref, level, followed, at, links);
    }

    method Advance(component: string, ghost rest: string, fin: Finality, deref: bool, level: nat, followed: nat, ghost at: Path, ghost links: nat)
      returns (failure: Option<Error>, finality: Finality, count: nat, ghost reached: Path, ghost total: nat)
      requires level <= fs.limit && CStrings(fs)
      requires IsPath(at) && guest == Render(at) && (component == "" || IsName(component))
      modifies this`guest
      ensures finality == NotFinal <==> fin == NotFinal
      ensures failure.Some? ==> Go(fs, component, rest, fin, deref, at, level, followed, links) == Err(failure.value)
      ensures failure.None? ==>
                && IsPath(reached) && guest == Render(reached)
                && Go(fs, component, rest, fin, deref, at, level, followed, links) ==
                   if finality == NotFinal then After(total, Walk(fs, rest, deref, reached, level, count)) else Ok(Canonical(reached, finality, total))
      decreases Depth(fs, level), 0, 2
    {
      finality, count, reached, total := fin, followed, at, links;
      if |component| >= NAME_MAX {
        failure := Some(NameTooLong);
        return;
      }
      ghost var step := Enter(fs, component, fin, deref, at, level, followed);
      failure, count := EnterComponent(component, fin, deref, level, followed, at);
      if failure.Some? {
        return;
      }
      reached, total := step.value.path, links + step.value.links;
      if fin != NotFinal {
        if component == "." {
          finality := FinalDot;
        } else if component == ".." {
          finality := FinalSlash;
        }
      }
    }
  }
}
