/** Paths, once as sequences of component names and once as the C strings the
    tracer rewrites.  The lemmas here say that the string routines of
    src/path/path.c mean exactly the component operations the namespace model
    uses. */
module Paths {
  import opened Wrappers

  type Name = string
  type Path = seq<Name>

  const PATH_MAX: nat := 4096
  const NUL: char := '\0'

  /** A component that can stand between two slashes. */
  predicate IsName(n: Name) {
    n != "" && forall i :: 0 <= i < |n| ==> n[i] != '/' && n[i] != NUL
  }

  predicate IsPath(p: Path) {
    forall i :: 0 <= i < |p| ==> IsName(p[i])
  }

  /** "/a/b" for ["a", "b"], and the empty string for the root. */
  function Tail(p: Path): string {
    if |p| == 0 then "" else "/" + p[0] + Tail(p[1..])
  }

  /** The normalised spelling: as Tail, but "/" for the root. */
  function Render(p: Path): (s: string)
    ensures s != "" && s[0] == '/'
  {
    if |p| == 0 then "/" else Tail(p)
  }

  /** The length a Binding records for a path. */
  function Length(p: Path): nat {
    |Render(p)|
  }

  lemma {:induction false} TailAppend(p: Path, q: Path)
    ensures Tail(p + q) == Tail(p) + Tail(q)
  {
    if |p| == 0 {
      assert p + q == q;
    } else {
      assert (p + q)[1..] == p[1..] + q;
      TailAppend(p[1..], q);
    }
  }

  /** How many bytes stand before the next slash or the end. */
  function NameLength(s: string): (n: nat)
    ensures n <= |s| && (n == |s| || s[n] == '/')
    ensures forall i :: 0 <= i < n ==> s[i] != '/'
  {
    if s == "" || s[0] == '/' then 0 else 1 + NameLength(s[1..])
  }

  /** The non-empty components of a C string. */
  function Split(s: string): Path {
    if s == "" then []
    else if s[0] == '/' then Split(s[1..])
    else [s[..NameLength(s)]] + Split(s[NameLength(s)..])
  }

  lemma NameLengthOfName(n: Name, t: string)
    requires IsName(n) && (t == "" || t[0] == '/')
    ensures NameLength(n + t) == |n|
  {
    var s := n + t;
    assert forall i :: 0 <= i < |n| ==> s[i] == n[i] != '/';
    assert |s| == |n| || s[|n|] == '/';
  }

  lemma {:induction false} SplitTail(p: Path, slash: string)
    requires IsPath(p) && (slash == "" || slash == "/")
    ensures Split(Tail(p) + slash) == p
  {
    if |p| == 0 {
      assert Tail(p) + slash == slash;
      assert slash != "" ==> slash[1..] == "";
    } else {
      assert IsName(p[0]);
      var rest := Tail(p[1..]) + slash;
      SplitTail(p[1..], slash);
      assert rest == "" || rest[0] == '/' by {
        assert |p| == 1 ==> Tail(p[1..]) == "" && rest == slash;
      }
      SplitFirst(p[0], rest);
      assert Tail(p) + slash == "/" + p[0] + rest;
      assert p == [p[0]] + p[1..];
    }
  }

  lemma SplitFirst(n: Name, rest: string)
    requires IsName(n) && (rest == "" || rest[0] == '/')
    ensures Split("/" + n + rest) == [n] + Split(rest)
  {
    assert "/" + n + rest == "/" + (n + rest);
    SplitSlash(n + rest);
    NameLengthOfName(n, rest);
    SplitName(n, rest);
  }

  lemma SplitSlash(t: string)
    ensures Split("/" + t) == Split(t)
  {
    assert ("/" + t)[1..] == t;
  }

  lemma SplitName(n: Name, rest: string)
    requires IsName(n) && NameLength(n + rest) == |n|
    ensures Split(n + rest) == [n] + Split(rest)
  {
    assert (n + rest)[..|n|] == n && (n + rest)[|n|..] == rest;
    assert (n + rest)[0] == n[0];
  }

  /** Reading a normalised spelling back gives the path. */
  lemma SplitRender(p: Path)
    requires IsPath(p)
    ensures Split(Render(p)) == p
  {
    SplitTail(p, "");
    assert Tail(p) + "" == Tail(p);
    assert Split("/") == [] by { assert "/"[1..] == ""; }
  }

  // ----- compare_paths2 -----

  datatype Comparison = PathsAreEqual | Path1IsPrefix | Path2IsPrefix | PathsAreNotComparable

  /** The byte at index i of a C string, the terminator included. */
  function At(s: string, i: nat): char
    requires i <= |s|
  {
    if i < |s| then s[i] else NUL
  }

  /** The length left once one trailing slash is ignored. */
  function Trimmed(s: string): (n: nat)
    requires s != ""
    ensures n <= |s|
  {
    if s[|s| - 1] == '/' then |s| - 1 else |s|
  }

  function Compare(path1: string, path2: string): Comparison {
    if path1 == "" || path2 == "" then PathsAreNotComparable
    else
      var len1, len2 := Trimmed(path1), Trimmed(path2);
      var minLen := if len1 < len2 then len1 else len2;
      var end := if len1 < len2 then At(path2, minLen) else At(path1, minLen);
      if end != '/' && end != NUL then PathsAreNotComparable
      else if path1[..minLen] != path2[..minLen] then PathsAreNotComparable
      else if len1 == len2 then PathsAreEqual
      else if len1 < len2 then Path1IsPrefix
      else Path2IsPrefix
  }

  method ComparePaths(path1: string, path2: string) returns (c: Comparison)
    ensures c == Compare(path1, path2)
  {
    if path1 == "" || path2 == "" {
      return PathsAreNotComparable;
    }
    var len1, len2 := |path1|, |path2|;
    if path1[len1 - 1] == '/' {
      len1 := len1 - 1;
    }
    if path2[len2 - 1] == '/' {
      len2 := len2 - 1;
    }
    var minLen: nat;
    var end: char;
    if len1 < len2 {
      minLen := len1;
      end := At(path2, minLen);
    } else {
      minLen := len2;
      end := At(path1, minLen);
    }
    if end != '/' && end != NUL {
      return PathsAreNotComparable;
    }
    for i := 0 to minLen
      invariant path1[..i] == path2[..i]
    {
      if path1[i] != path2[i] {
        assert path1[..minLen][i] != path2[..minLen][i];
        return PathsAreNotComparable;
      }
    }
    if len1 == len2 {
      return PathsAreEqual;
    }
    return if len1 < len2 then Path1IsPrefix else Path2IsPrefix;
  }

  /** No rendered path but the root ends in a slash. */
  lemma {:induction false} TrimmedRender(p: Path)
    requires IsPath(p)
    ensures Trimmed(Render(p)) == |Tail(p)|
    ensures p != [] ==> Tail(p) != "" && Tail(p)[0] == '/' && Tail(p)[|Tail(p)| - 1] != '/'
  {
    if |p| > 1 {
      TrimmedRender(p[1..]);
      assert IsName(p[1]);
    } else if |p| == 1 {
      assert IsName(p[0]);
      assert Tail(p[1..]) == "";
    }
  }

  /** s is a prefix of t that ends where t ends or where a slash follows. */
  predicate AtBoundary(s: string, t: string) {
    s <= t && (|s| == |t| || t[|s|] == '/')
  }

  lemma PrefixCancel<T>(x: seq<T>, s: seq<T>, t: seq<T>)
    ensures x + s <= x + t <==> s <= t
  {
    if s <= t { assert (x + t)[..|x + s|] == x + s; }
    if x + s <= x + t { assert t[..|s|] == (x + t)[|x|..|x + s|] == (x + s)[|x|..] == s; }
  }

  lemma BoundaryCancel(x: string, s: string, t: string)
    ensures AtBoundary(x + s, x + t) <==> AtBoundary(s, t)
  {
    PrefixCancel(x, s, t);
    if |s| < |t| { assert (x + t)[|x + s|] == t[|s|]; }
  }

  /** Prefixes of the spelling that stop at a component boundary are the
      component prefixes. */
  lemma {:induction false} TailPrefix(p: Path, q: Path)
    requires IsPath(p) && IsPath(q)
    ensures AtBoundary(Tail(p), Tail(q)) <==> p <= q
  {
    if |p| == 0 {
      if |q| > 0 { TrimmedRender(q); }
    } else if q == [] {
      TrimmedRender(p);
    } else if p[0] == q[0] {
      TailPrefix(p[1..], q[1..]);
      BoundaryCancel("/" + p[0], Tail(p[1..]), Tail(q[1..]));
      PrefixCancel([p[0]], p[1..], q[1..]);
      assert p == [p[0]] + p[1..] && q == [p[0]] + q[1..];
    } else {
      if p[1..] != [] { TrimmedRender(p[1..]); }
      if q[1..] != [] { TrimmedRender(q[1..]); }
      if AtBoundary(Tail(p), Tail(q)) {
        FirstNameDetermined(p[0], Tail(p[1..]), q[0], Tail(q[1..]));
      }
    }
  }

  /** Two spellings that agree up to a boundary agree on their first name. */
  lemma FirstNameDetermined(a: Name, ta: string, b: Name, tb: string)
    requires IsName(a) && IsName(b)
    requires (ta == "" || ta[0] == '/') && (tb == "" || tb[0] == '/')
    requires AtBoundary("/" + a + ta, "/" + b + tb)
    ensures a == b
  {
    var s, t := "/" + a + ta, "/" + b + tb;
    assert forall i {:trigger s[i]} {:trigger t[i]} :: 0 <= i < |s| ==> s[i] == t[i];
    assert forall i :: 1 <= i <= |a| ==> s[i] == a[i - 1] != '/';
    assert forall i :: 1 <= i <= |b| ==> t[i] == b[i - 1] != '/';
    assert |s| == 1 + |a| || s[1 + |a|] == '/';
    assert |t| == 1 + |b| || t[1 + |b|] == '/';
    assert |a| == |b|;
    forall i | 0 <= i < |a| ensures a[i] == b[i] {
      assert s[1 + i] == t[1 + i];
    }
  }

  /** The comparison in terms of the two strings without their trailing slash. */
  lemma CompareTrimmed(s: string, t: string, a: string, b: string)
    requires s != "" && t != "" && a == s[..Trimmed(s)] && b == t[..Trimmed(t)]
    requires NUL !in a && NUL !in b
    ensures Compare(s, t) ==
            if a == b then PathsAreEqual
            else if AtBoundary(a, b) then Path1IsPrefix
            else if AtBoundary(b, a) then Path2IsPrefix
            else PathsAreNotComparable
  {
    if |a| <= |b| {
      assert t[..|a|] == b[..|a|];
    } else {
      assert s[..|b|] == a[..|b|];
    }
  }

  /** compare_paths decides the component prefix order. */
  lemma CompareRendered(p: Path, q: Path)
    requires IsPath(p) && IsPath(q)
    ensures Compare(Render(p), Render(q)) ==
            if p == q then PathsAreEqual
            else if p <= q then Path1IsPrefix
            else if q <= p then Path2IsPrefix
            else PathsAreNotComparable
  {
    TrimmedRender(p);
    TrimmedRender(q);
    TailPrefix(p, q);
    TailPrefix(q, p);
    NoNulInTail(p);
    NoNulInTail(q);
    CompareTrimmed(Render(p), Render(q), Tail(p), Tail(q));
    if p <= q && q <= p { assert p == q; }
  }

  lemma NoNulInTail(p: Path)
    requires IsPath(p)
    ensures NUL !in Tail(p)
  {
    forall i | 0 <= i < |Tail(p)| ensures Tail(p)[i] != NUL {
      TailHasNoNul(p, i);
    }
  }

  lemma {:induction false} TailHasNoNul(p: Path, i: nat)
    requires IsPath(p) && i < |Tail(p)|
    ensures Tail(p)[i] != NUL
  {
    assert IsName(p[0]);
    if i > |p[0]| { TailHasNoNul(p[1..], i - 1 - |p[0]|); }
  }

  // ----- the matching test of find_best_prefix -----

  /** The test find_best_prefix applies to a cached entry. */
  predicate EntryMatches(entry: string, path: string)
    requires entry != "" && path != ""
  {
    && |entry| <= |path|
    && entry[0] == path[0]
    && !(|entry| > 1 && |entry| < |path| && path[|entry|] != '/')
    && entry == path[..|entry|]
  }

  lemma EntryMatchesRendered(p: Path, q: Path)
    requires IsPath(p) && IsPath(q)
    ensures EntryMatches(Render(p), Render(q)) <==> p <= q
  {
    TailPrefix(p, q);
    if p != [] && q != [] {
      RenderIsLong(p);
    } else if p != [] {
      assert IsName(p[0]);
    }
  }

  /** Longer prefixes have longer spellings, so sorting by length is sorting by depth. */
  lemma LengthMonotone(p: Path, q: Path)
    requires IsPath(q) && p <= q && p != q
    ensures Length(p) < Length(q)
  {
    var d := q[|p|..];
    assert q == p + d;
    TailAppend(p, d);
    assert IsName(d[0]);
    assert |Tail(d)| >= 2;
  }

  lemma PrefixAsLong(p: Path, q: Path)
    requires IsPath(q) && p <= q && Length(p) >= Length(q)
    ensures p == q
  {
    if p != q { LengthMonotone(p, q); }
  }

  // ----- join_paths -----

  /** join_paths for two operands, when the result fits. */
  function Joined(a: string, b: string): string {
    if a == "" then b
    else if b == "" then a
    else if a[|a| - 1] != '/' && b[0] != '/' then a + "/" + b
    else if a[|a| - 1] == '/' && b[0] == '/' then a + b[1..]
    else a + b
  }

  /** Whether b can be joined to a; the slash that is dropped between two
      slashes still counts. */
  predicate StepFits(a: string, b: string) {
    b == "" || |a| + |b| + (if a != "" && a[|a| - 1] != '/' && b[0] != '/' then 1 else 0) + 1 < PATH_MAX
  }

  /** Whether two operands can be joined. */
  predicate JoinFits(a: string, b: string) {
    (a == "" || |a| + 1 < PATH_MAX) && StepFits(a, b)
  }

  /** join_paths for any number of operands behind what is joined so far. */
  function JoinedAll(acc: string, parts: seq<string>): Option<string>
    decreases |parts|
  {
    if |parts| == 0 then Some(acc)
    else if !StepFits(acc, parts[0]) then None
    else JoinedAll(Joined(acc, parts[0]), parts[1..])
  }

  lemma JoinedAllStep(acc: string, parts: seq<string>, i: nat)
    requires i < |parts|
    ensures JoinedAll(acc, parts[i..]) ==
            if StepFits(acc, parts[i]) then JoinedAll(Joined(acc, parts[i]), parts[i + 1..]) else None
  {
    assert parts[i..][1..] == parts[i + 1..];
  }

  lemma JoinTwo(a: string, b: string)
    ensures JoinedAll("", [a, b]) == if JoinFits(a, b) then Some(Joined(a, b)) else None
  {
    var parts := [a, b];
    JoinedAllStep("", parts, 0);
    JoinedAllStep(a, parts, 1);
    assert parts[0..] == parts && |parts[2..]| == 0;
  }

  method JoinPaths(parts: seq<string>) returns (r: Option<string>)
    ensures r == JoinedAll("", parts)
    ensures |parts| == 2 ==> r == if JoinFits(parts[0], parts[1]) then Some(Joined(parts[0], parts[1])) else None
    ensures r.Some? ==> |r.value| + 1 < PATH_MAX
  {
    var result := "";
    var i := 0;
    if |parts| == 2 {
      JoinTwo(parts[0], parts[1]);
      assert parts == [parts[0], parts[1]];
    }
    ghost var joined := JoinedAll("", parts);
    assert parts[0..] == parts;
    while i < |parts|
      invariant 0 <= i <= |parts|
      invariant |result| + 1 < PATH_MAX
      invariant joined == JoinedAll(result, parts[i..])
    {
      var path := parts[i];
      JoinedAllStep(result, parts, i);
      i := i + 1;
      if path == "" {
        continue;
      }
      var needSlash := result != "" && result[|result| - 1] != '/' && path[0] != '/';
      var newLen := |result| + |path| + (if needSlash then 1 else 0);
      if newLen + 1 >= PATH_MAX {
        return None;
      }
      if needSlash {
        result := result + "/";
      } else if result != "" && result[|result| - 1] == '/' && path[0] == '/' {
        path := path[1..];
      }
      assert "" + path == path;
      result := result + path;
    }
    return Some(result);
  }

  lemma JoinOneSlash(a: string, rest: string)
    requires a == "/" || (a != "" && a[|a| - 1] != '/')
    requires rest != "" && rest[0] != '/'
    ensures Joined(a, rest) == Joined(a, "/" + rest) == (if a == "/" then "/" + rest else a + ("/" + rest))
  {
    assert ("/" + rest)[1..] == rest;
    assert a + "/" + rest == a + ("/" + rest);
  }

  /** Joining a spelling and a suffix spelling concatenates the components,
      with or without the slash that leads the suffix. */
  lemma JoinRendered(p: Path, q: Path)
    requires IsPath(p) && IsPath(q)
    ensures Joined(Render(p), Tail(q)) == Render(p + q)
    ensures q != [] ==> Joined(Render(p), Tail(q)[1..]) == Render(p + q)
  {
    TailAppend(p, q);
    if |q| == 0 {
      assert p + q == p;
    } else {
      var rest := TailHead(q);
      var _ := RenderHead(p);
      assert Render(p + q) == Tail(p) + Tail(q);
      JoinOneSlash(Render(p), rest);
    }
  }

  function Concat(parts: seq<Path>): Path {
    if |parts| == 0 then [] else parts[0] + Concat(parts[1..])
  }

  ghost predicate AreTails(suffixes: seq<string>, parts: seq<Path>) {
    |suffixes| == |parts| && forall i :: 0 <= i < |parts| ==> IsPath(parts[i]) && suffixes[i] == Tail(parts[i])
  }

  /** However many suffixes are joined to a spelling, what fits is the spelling
      of all the components in a row. */
  lemma {:induction false} JoinAllRendered(p: Path, text: string, suffixes: seq<string>, parts: seq<Path>)
    requires IsPath(p) && text == Render(p) && AreTails(suffixes, parts)
    ensures var r := JoinedAll(text, suffixes); r.Some? ==> r.value == Render(p + Concat(parts))
    decreases |parts|
  {
    if |parts| == 0 {
      assert p + Concat(parts) == p;
    } else {
      var q, rest := parts[0], parts[1..];
      JoinRendered(p, q);
      JoinAllRendered(p + q, Joined(text, suffixes[0]), suffixes[1..], rest);
      assert p + (q + Concat(rest)) == (p + q) + Concat(rest);
    }
  }

  lemma TailHead(q: Path) returns (rest: string)
    requires IsPath(q) && q != []
    ensures rest != "" && rest[0] != '/' && Tail(q) == "/" + rest && Tail(q)[1..] == rest
  {
    assert IsName(q[0]);
    rest := q[0] + Tail(q[1..]);
    assert Tail(q) == "/" + rest;
  }

  lemma RenderHead(p: Path) returns (isRoot: bool)
    requires IsPath(p)
    ensures isRoot <==> Render(p) == "/"
    ensures isRoot ==> Tail(p) == ""
    ensures !isRoot ==> Render(p) == Tail(p) && Tail(p) != "" && Tail(p)[|Tail(p)| - 1] != '/'
  {
    isRoot := p == [];
    if !isRoot { TrimmedRender(p); RenderIsLong(p); }
  }

  // ----- substitute_path_prefix -----

  /** The string substitute_path_prefix leaves behind, when it fits. */
  function Substituted(path: string, oldLen: nat, newPrefix: string): string
    requires oldLen <= |path|
  {
    if |newPrefix| == 1 then
      if |path| == oldLen then "/" else path[oldLen..]
    else if oldLen == 1 then
      if |path| == 1 then newPrefix else newPrefix + path
    else newPrefix + path[oldLen..]
  }

  /** The C string held by a buffer: everything before its first terminator. */
  ghost predicate Holds(buffer: array<char>, s: string)
    reads buffer
  {
    && |s| < buffer.Length
    && buffer[..|s|] == s
    && buffer[|s|] == NUL
    && NUL !in s
  }

  method Memmove(buffer: array<char>, dst: nat, src: nat, n: nat)
    requires dst + n <= buffer.Length && src + n <= buffer.Length
    modifies buffer
    ensures buffer[..dst] == old(buffer[..dst])
    ensures buffer[dst..dst + n] == old(buffer[src..src + n])
    ensures buffer[dst + n..] == old(buffer[dst + n..])
  {
    ghost var was := buffer[..];
    forall i | 0 <= i < n {
      buffer[dst + i] := buffer[src + i];
    }
    assert buffer[dst..dst + n] == was[src..src + n];
  }

  method Memcpy(buffer: array<char>, dst: nat, data: string)
    requires dst + |data| <= buffer.Length
    modifies buffer
    ensures buffer[..dst] == old(buffer[..dst])
    ensures buffer[dst..dst + |data|] == data
    ensures buffer[dst + |data|..] == old(buffer[dst + |data|..])
  {
    forall i | 0 <= i < |data| {
      buffer[dst + i] := data[i];
    }
  }

  /** Overwrites the first cut bytes of the string with prefix. */
  method ReplaceHead(path: array<char>, ghost s: string, len: nat, cut: nat, prefix: string)
    requires Holds(path, s) && len == |s| && cut <= len && |prefix| + (len - cut) < path.Length
    requires NUL !in prefix
    modifies path
    ensures Holds(path, prefix + s[cut..])
  {
    var n := |prefix|;
    Memmove(path, n, cut, len - cut);
    ghost var moved := path[n..];
    assert moved[..len - cut] == s[cut..] by {
      assert moved[..len - cut] == path[n..n + (len - cut)];
    }
    Memcpy(path, 0, prefix);
    assert path[n..] == moved;
    path[n + (len - cut)] := NUL;
    assert path[n..][..len - cut] == moved[..len - cut];
    assert path[..n + (len - cut)] == path[..n] + path[n..][..len - cut];
  }

  /** In place, as the tracer does it.  None is -ENAMETOOLONG. */
  method SubstitutePathPrefix(path: array<char>, ghost s: string, oldLen: nat, newPrefix: string)
    returns (r: Option<nat>)
    requires path.Length == PATH_MAX && Holds(path, s) && oldLen <= |s|
    requires NUL !in newPrefix && newPrefix != "" && (|newPrefix| == 1 ==> newPrefix == "/")
    modifies path
    ensures r.Some? <==> |Substituted(s, oldLen, newPrefix)| < PATH_MAX
    ensures r.Some? ==> r.value == |Substituted(s, oldLen, newPrefix)|
    ensures Holds(path, if r.Some? then Substituted(s, oldLen, newPrefix) else s)
  {
    var pathLen := Strlen(path, s);
    var newPrefixLen := |newPrefix|;
    var newLen: nat;
    if newPrefixLen == 1 {
      newLen := pathLen - oldLen;
      if newLen == 0 {
        path[0] := '/';
        newLen := 1;
        path[newLen] := NUL;
        assert path[..1] == "/";
      } else {
        ReplaceHead(path, s, pathLen, oldLen, "");
        assert "" + s[oldLen..] == s[oldLen..];
      }
      return Some(newLen);
    }
    if oldLen == 1 {
      if pathLen == 1 {
        newLen := newPrefixLen;
        if newLen >= PATH_MAX {
          return None;
        }
        ReplaceHead(path, s, pathLen, 1, newPrefix);
        assert newPrefix + s[1..] == newPrefix;
        return Some(newLen);
      }
      newLen := newPrefixLen + pathLen;
      if newLen >= PATH_MAX {
        return None;
      }
      ReplaceHead(path, s, pathLen, 0, newPrefix);
      assert s[0..] == s;
      return Some(newLen);
    }
    newLen := newPrefixLen + (pathLen - oldLen);
    if newLen >= PATH_MAX {
      return None;
    }
    ReplaceHead(path, s, pathLen, oldLen, newPrefix);
    return Some(newLen);
  }

  method Strlen(buffer: array<char>, ghost s: string) returns (n: nat)
    requires Holds(buffer, s)
    ensures n == |s|
  {
    n := 0;
    while buffer[n] != NUL
      invariant n <= |s|
      invariant n < |s| ==> buffer[n] == s[n]
      decreases |s| - n
    {
      n := n + 1;
      assert buffer[..|s|] == s;
    }
  }

  /** Replacing one normalised prefix by another replaces the components, in
      every case but one: rewriting "/" to "/" eats the leading slash.  The
      tracer never asks for that one, because such a binding needs no
      substitution. */
  lemma SubstituteRendered(g: Path, h: Path, rest: Path)
    requires IsPath(g) && IsPath(h) && IsPath(rest)
    ensures Length(g) <= |Render(g + rest)|
    ensures Substituted(Render(g + rest), Length(g), Render(h)) == Render(h + rest)
            <==> !(g == [] && h == [] && rest != [])
  {
    TailAppend(g, rest);
    TailAppend(h, rest);
    if |g| == 0 { assert g + rest == rest; } else { assert g + rest != []; }
    if |h| == 0 { assert h + rest == rest; } else { assert h + rest != []; RenderIsLong(h); }
    if |rest| == 0 {
      assert g + rest == g && h + rest == h;
      if |g| > 0 { RenderIsLong(g); }
    } else {
      RenderIsLong(rest);
      if |g| == 0 {
        if |h| == 0 {
          assert |Substituted(Render(rest), 1, "/")| < |Render(rest)|;
        }
      } else {
        RenderIsLong(g);
        assert Render(g + rest)[Length(g)..] == Tail(rest);
      }
    }
  }

  lemma RenderIsLong(p: Path)
    requires IsPath(p) && p != []
    ensures Length(p) > 1
  {
    assert IsName(p[0]);
  }

  /** Translating with a binding and translating back is the identity. */
  lemma SubstitutionRoundTrip(g: Path, h: Path, rest: Path)
    requires IsPath(g) && IsPath(h) && IsPath(rest)
    requires !(g == [] && h == [])
    ensures Length(g) <= |Render(g + rest)|
    ensures var there := Substituted(Render(g + rest), Length(g), Render(h));
            Length(h) <= |there| && Substituted(there, Length(h), Render(g)) == Render(g + rest)
  {
    SubstituteRendered(g, h, rest);
    SubstituteRendered(h, g, rest);
  }

  // ----- chop_finality -----

  function Chopped(path: string): string {
    if |path| < 2 then path
    else if path[|path| - 1] == '.' then (if |path| == 2 then path[..1] else path[..|path| - 2])
    else if path[|path| - 1] == '/' then path[..|path| - 1]
    else path
  }

  /** A path without a finality mark survives chop_finality only when its last
      name does not end in a dot: "/ab." loses two bytes. */
  lemma ChopKeepsPlainPaths(p: Path)
    requires IsPath(p)
    ensures Chopped(Render(p)) == Render(p) <==> !EndsInDot(p)
  {
    if |p| > 0 {
      RenderIsLong(p);
      LastCharOfTail(p);
    }
  }

  /** The last name ends in a dot, which chop_finality takes for a mark. */
  predicate EndsInDot(p: Path) {
    p != [] && p[|p| - 1] != "" && p[|p| - 1][|p[|p| - 1]| - 1] == '.'
  }

  /** What chop_finality makes of a path that carries no mark: a last name that
      ends in a dot loses two bytes, or is lost itself. */
  function ChoppedPath(p: Path): Path {
    if !EndsInDot(p) then p
    else
      var init, n := p[..|p| - 1], p[|p| - 1];
      if |n| <= 2 then init else init + [n[..|n| - 2]]
  }

  /** s spells p, perhaps with a slash behind it. */
  predicate Spells(s: string, p: Path) {
    s == Render(p) || (p != [] && s == Render(p) + "/")
  }

  lemma SplitSpelling(s: string, p: Path)
    requires IsPath(p) && Spells(s, p)
    ensures Split(s) == p
  {
    SplitRender(p);
    if p != [] { SplitTail(p, "/"); }
  }

  lemma TailOfOne(p: Path)
    requires |p| == 1
    ensures Tail(p) == "/" + p[0]
  {
    assert Tail(p[1..]) == "";
  }

  lemma ChopShrinks(p: Path)
    requires IsPath(p)
    ensures ChoppedPath(p) == p <==> !EndsInDot(p)
  {
    if EndsInDot(p) {
      var n := p[|p| - 1];
      assert |n| > 2 ==> ChoppedPath(p)[|p| - 1] == n[..|n| - 2];
    }
  }

  /** chop_finality in terms of names.  A name of two bytes leaves its slash. */
  lemma ChopRendered(p: Path)
    requires IsPath(p)
    ensures IsPath(ChoppedPath(p)) && Spells(Chopped(Render(p)), ChoppedPath(p))
  {
    if EndsInDot(p) {
      ChopDottedPath(p, Render(p), ChoppedPath(p));
    } else {
      ChopKeepsPlainPaths(p);
    }
  }

  lemma ChopDottedPath(p: Path, s: string, q: Path)
    requires IsPath(p) && EndsInDot(p) && s == Render(p) && q == ChoppedPath(p)
    ensures IsPath(q) && Spells(Chopped(s), q)
  {
    var init, n := SplitLast(p);
    ChopDotted(init, n);
  }

  lemma SplitLast(p: Path) returns (init: Path, n: Name)
    requires IsPath(p) && p != []
    ensures init == p[..|p| - 1] && n == p[|p| - 1]
    ensures IsPath(init) && IsName(n) && Render(p) == Tail(init) + ("/" + n)
  {
    init, n := p[..|p| - 1], p[|p| - 1];
    assert IsName(n) && p == init + [n];
    TailAppend(init, [n]);
    TailOfOne([n]);
  }

  lemma ChopDotted(init: Path, n: Name)
    requires IsPath(init) && IsName(n) && n[|n| - 1] == '.'
    ensures var q := if |n| <= 2 then init else init + [n[..|n| - 2]];
            IsPath(q) && Spells(Chopped(Tail(init) + ("/" + n)), q)
  {
    ChopEnd(Tail(init), n);
    var isRoot := RenderHead(init);
    if |n| == 2 {
      assert n[..0] == "" && "/" + n[..0] == "/";
    } else if |n| > 2 {
      var short := n[..|n| - 2];
      assert IsName(short);
      TailAppend(init, [short]);
      TailOfOne([short]);
    }
  }

  lemma ChopEnd(s: string, n: Name)
    requires n != "" && n[|n| - 1] == '.'
    ensures Chopped(s + ("/" + n)) ==
            if |n| == 1 then (if s == "" then "/" else s)
            else s + ("/" + n[..|n| - 2])
  {
    var t := s + ("/" + n);
    if |n| == 1 {
      assert t[..|t| - 2] == s;
      assert s == "" ==> t[..1] == "/";
    } else {
      assert t[..|t| - 2] == s + ("/" + n[..|n| - 2]);
    }
  }

  /** compare_paths takes no notice of a slash behind its first path. */
  lemma CompareTrailingSlash(s: string, t: string)
    requires s != "" && t != "" && s[|s| - 1] != '/'
    ensures Compare(s + "/", t) == Compare(s, t)
  {
    var n := if |s| < Trimmed(t) then |s| else Trimmed(t);
    assert (s + "/")[..n] == s[..n];
  }

  lemma CompareSpelled(s: string, p: Path, q: Path)
    requires IsPath(p) && Spells(s, p)
    ensures Compare(s, Render(q)) == Compare(Render(p), Render(q))
  {
    if p != [] && s == Render(p) + "/" {
      TrimmedRender(p);
      CompareTrailingSlash(Render(p), Render(q));
    }
  }

  /** Behind the spelling of a prefix stands the spelling of the suffix, with or
      without the slash that leads it; behind "/" there is no slash to step over. */
  lemma SuffixSpelled(s: string, p: Path, q: Path, rest: Path)
    requires IsPath(q) && q == p + rest && rest != [] && Spells(s, p)
    ensures |s| <= |Render(q)|
    ensures Split(if |s| == 1 then Render(q) else Render(q)[|s|..]) == rest
  {
    assert IsPath(rest) by { assert forall i :: 0 <= i < |rest| ==> rest[i] == q[|p| + i]; }
    TailAppend(p, rest);
    SplitTail(rest, "");
    assert Tail(rest) + "" == Tail(rest);
    var t := TailHead(rest);
    SplitSlash(t);
    if p == [] {
      assert rest == q;
    } else {
      assert IsName(p[0]) by { assert p[0] == q[0]; }
      DropHead(Tail(p), t);
    }
  }

  lemma DropHead(s: string, t: string)
    ensures (s + ("/" + t))[|s|..] == "/" + t
    ensures (s + ("/" + t))[|s + "/"|..] == t
  {}

  lemma {:induction false} LastCharOfTail(p: Path)
    requires IsPath(p) && p != []
    ensures var n := p[|p| - 1]; n != "" && Tail(p) != "" && Tail(p)[|Tail(p)| - 1] == n[|n| - 1]
  {
    assert IsName(p[|p| - 1]);
    if |p| > 1 {
      LastCharOfTail(p[1..]);
      assert p[1..][|p[1..]| - 1] == p[|p| - 1];
    } else {
      assert Tail(p[1..]) == "";
    }
  }

  /** The two finality marks canonicalize appends are taken off again. */
  lemma ChopUndoesFinality(p: Path)
    requires IsPath(p)
    ensures Chopped(Joined(Render(p), ".")) == Render(p)
    ensures p != [] ==> Chopped(Render(p) + "/") == Render(p)
  {
    if |p| > 0 {
      RenderIsLong(p);
      TrimmedRender(p);
      assert Joined(Render(p), ".") == Render(p) + "/" + ".";
    }
  }
}
