/** Vectors of pointers in a tracee's memory (src/execve/aoxp.c): fetched,
    edited in place, and pushed back with their new strings behind them. */
module Aoxp {
  import opened Wrappers

  // a word is 8 bytes
  const NUL: char := '\0'

  /** A byte of memory: a character, or the k-th byte of a stored word. */
  datatype Cell = Char(c: char) | Part(word: nat, k: nat)

  /** What each address holds; None where nothing is mapped. */
  type Memory = nat -> Option<Cell>

  const TOP: nat := 0x1_0000_0000_0000_0000  // no word reaches beyond it

  /** peek_word; None is a fault. */
  function Word(mem: Memory, addr: nat): Option<nat> {
    if addr < TOP && mem(addr).Some? && mem(addr).value.Part?
       && forall a: nat :: addr <= a < addr + 8 ==> mem(a) == Some(Part(mem(addr).value.word, a - addr))
    then Some(mem(addr).value.word) else None
  }

  /** A C string stands at an address. */
  ghost predicate StringAt(mem: Memory, addr: nat, s: string) {
    && NUL !in s
    && forall a: nat :: addr <= a <= addr + |s| ==> mem(a) == Some(Char(CharAt(s, a - addr)))
  }

  /** A byte of a C string, its terminator included. */
  function CharAt(s: string, i: nat): char {
    if i < |s| then s[i] else NUL
  }

  /** The remote address, and the local copy or replacement. */
  datatype XPointer = XPointer(remote: nat, local: Option<string>)

  /** A replacement: it exists only on this side. */
  predicate IsFresh(x: XPointer) {
    x.local.Some? && x.remote == 0
  }

  /** The string an entry stands for; None for the null pointer. */
  ghost predicate Means(mem: Memory, x: XPointer, s: Option<string>) {
    match s
    case None => x == XPointer(0, None)
    case Some(text) =>
      if x.remote != 0 then StringAt(mem, x.remote, text) && (x.local.Some? ==> x.local.value == text)
      else x.local == s && NUL !in text
  }

  ghost predicate AllMean(mem: Memory, xs: seq<XPointer>, strings: seq<Option<string>>) {
    |xs| == |strings| && forall i :: 0 <= i < |xs| ==> Means(mem, xs[i], strings[i])
  }

  /** What a reader of the vector at addr finds. */
  ghost predicate VectorAt(mem: Memory, addr: nat, strings: seq<Option<string>>) {
    forall i :: 0 <= i < |strings| ==>
      var pointer := Word(mem, addr + 8 * i);
      match strings[i]
      case None => pointer == Some(0)
      case Some(text) => pointer.Some? && pointer.value != 0 && StringAt(mem, pointer.value, text)
  }

  // ----- the block that is pushed -----

  function WordCells(w: nat): (r: seq<Cell>)
    ensures |r| == 8 && forall k :: 0 <= k < 8 ==> r[k] == Part(w, k)
  {
    [Part(w, 0), Part(w, 1), Part(w, 2), Part(w, 3), Part(w, 4), Part(w, 5), Part(w, 6), Part(w, 7)]
  }

  function PodCells(pod: seq<nat>): (r: seq<Cell>)
    ensures |r| == 8 * |pod|
  {
    if |pod| == 0 then [] else PodCells(pod[..|pod| - 1]) + WordCells(pod[|pod| - 1])
  }

  function CharCells(s: string): (r: seq<Cell>)
    ensures |r| == |s| && forall k :: 0 <= k < |s| ==> r[k] == Char(s[k])
  {
    seq(|s|, k requires 0 <= k < |s| => Char(s[k]))
  }

  /** The replacements one after the other, each with its terminator. */
  function FreshText(xs: seq<XPointer>): string {
    if |xs| == 0 then ""
    else
      var last := xs[|xs| - 1];
      FreshText(xs[..|xs| - 1]) + (if IsFresh(last) then last.local.value + [NUL] else "")
  }

  /** writev_data */
  function Written(mem: Memory, base: nat, cells: seq<Cell>): Memory {
    (a: nat) => if base <= a < base + |cells| then Some(cells[a - base]) else mem(a)
  }

  function Replacements(items: seq<string>): (r: seq<XPointer>)
    ensures |r| == |items| && forall i :: 0 <= i < |r| ==> r[i] == XPointer(0, Some(items[i]))
  {
    seq(|items|, i requires 0 <= i < |items| => XPointer(0, Some(items[i])))
  }

  class Array {
    var xs: seq<XPointer>

    constructor ()
      ensures xs == []
    {
      xs := [];
    }

    /** fetch_array_of_xpointers without a limit: up to and with the null. */
    method Fetch(mem: Memory, addr: nat) returns (ok: bool)
      modifies this
      ensures ok ==> |xs| > 0 && forall i :: 0 <= i < |xs| ==> Word(mem, addr + 8 * i) == Some(xs[i].remote) && xs[i].local == None
      ensures ok ==> forall i :: 0 <= i < |xs| ==> (xs[i].remote == 0 <==> i == |xs| - 1)
      ensures !ok ==> Word(mem, addr + 8 * |xs|) == None
      ensures !ok ==> forall i :: 0 <= i < |xs| ==> Word(mem, addr + 8 * i) == Some(xs[i].remote) && xs[i].remote != 0 && xs[i].local == None
    {
      xs := [];
      ok := true;
      while true
        invariant forall i :: 0 <= i < |xs| ==> Word(mem, addr + 8 * i) == Some(xs[i].remote) && xs[i].local == None && xs[i].remote != 0
        decreases TOP - (addr + 8 * |xs|)
      {
        var pointer := Word(mem, addr + 8 * |xs|);
        if pointer.None? {
          return false;
        }
        xs := xs + [XPointer(pointer.value, None)];
        if pointer.value == 0 {
          return;
        }
      }
    }

    /** resize_array_of_xpointers by a positive number of entries. */
    method Insert(index: nat, delta: nat)
      requires delta > 0
      modifies this
      ensures var at := if index > |old(xs)| then |old(xs)| else index;
              xs == old(xs)[..at] + seq(delta, _ => XPointer(0, None)) + old(xs)[at..]
    {
      var at := if index > |xs| then |xs| else index;
      xs := xs[..at] + seq(delta, _ => XPointer(0, None)) + xs[at..];
    }

    /** write_xpointee_as_string */
    method WriteString(index: nat, s: string) returns (ok: bool)
      modifies this
      ensures ok == (index < |old(xs)|)
      ensures xs == if ok then old(xs)[index := XPointer(0, Some(s))] else old(xs)
    {
      if index >= |xs| {
        return false;
      }
      xs := xs[index := XPointer(0, Some(s))];
      return true;
    }

    /** write_xpointees from the first entry on. */
    method WriteStrings(items: seq<string>) returns (ok: bool)
      requires |items| <= |xs|
      modifies this
      ensures ok && xs == Replacements(items) + old(xs)[|items|..]
    {
      ghost var was := xs;
      ok := true;
      for i := 0 to |items|
        invariant ok && |xs| == |was|
        invariant forall k :: 0 <= k < i ==> xs[k] == XPointer(0, Some(items[k]))
        invariant forall k :: i <= k < |was| ==> xs[k] == was[k]
      {
        ok := WriteString(i, items[i]);
      }
    }

    /** push_array_of_xpointers, once a block has been found at base.  If the
        entries stood for strings, and none of the strings that are kept reaches
        into the block, whoever reads the new vector finds exactly those strings. */
    method Push(mem: Memory, base: nat, ghost strings: seq<Option<string>>) returns (mem': Memory, pushed: bool)
      requires 0 < base <= TOP - BlockSize(xs)
      modifies this
      ensures pushed == exists i :: 0 <= i < |old(xs)| && IsFresh(old(xs)[i])
      ensures !pushed ==> mem' == mem && xs == old(xs)
      ensures pushed && AllMean(mem, old(xs), strings) && KeptApart(old(xs), strings, base, BlockSize(old(xs))) ==>
                VectorAt(mem', base, strings) && AllMean(mem', xs, strings)
    {
      ghost var was := xs;
      var text;
      text, pushed := Collect();
      if !pushed {
        return mem, false;
      }
      var pod := Assign(base);
      ghost var cells := PodCells(pod) + CharCells(text);
      mem' := Written(mem, base, PodCells(pod) + CharCells(text));
      if AllMean(mem, was, strings) && KeptApart(was, strings, base, BlockSize(was)) {
        PushedMeans(mem, mem', base, was, xs, pod, cells, strings);
      }
    }

    /** The first pass: what is to be written behind the pointers. */
    method Collect() returns (text: string, found: bool)
      ensures text == FreshText(xs) && found == exists i :: 0 <= i < |xs| && IsFresh(xs[i])
    {
      text, found := "", false;
      for i := 0 to |xs|
        invariant text == FreshText(xs[..i])
        invariant found == exists j :: 0 <= j < i && IsFresh(xs[j])
      {
        assert xs[..i + 1][..i] == xs[..i];
        if IsFresh(xs[i]) {
          text, found := text + (xs[i].local.value + [NUL]), true;
        }
      }
      assert xs[..|xs|] == xs;
    }

    /** The second pass: every replacement gets its own address. */
    method Assign(base: nat) returns (pod: seq<nat>)
      modifies this
      ensures |pod| == |xs| == |old(xs)|
      ensures forall j :: 0 <= j < |xs| ==> xs[j] == Placed(old(xs), j, base) && pod[j] == xs[j].remote
    {
      ghost var was := xs;
      var n := |xs|;
      pod := [];
      var off := 8 * n;
      for i := 0 to n
        invariant |pod| == i && |xs| == n && off == 8 * n + |FreshText(was[..i])|
        invariant forall j :: 0 <= j < i ==> xs[j] == Placed(was, j, base) && pod[j] == xs[j].remote
        invariant forall j :: i <= j < n ==> xs[j] == was[j]
      {
        assert was[..i + 1][..i] == was[..i];
        if xs[i].local.Some? && xs[i].remote == 0 {
          xs := xs[i := xs[i].(remote := base + off)];
          off := off + |xs[i].local.value| + 1;
        }
        pod := pod + [xs[i].remote];
      }
    }
  }

  function BlockSize(xs: seq<XPointer>): nat {
    8 * |xs| + |FreshText(xs)|
  }

  /** A string that stays where it is does not reach into the block. */
  ghost predicate Apart(s: Option<string>, addr: nat, base: nat, size: nat) {
    s.Some? ==> addr + |s.value| < base || base + size <= addr
  }

  ghost predicate KeptApart(xs: seq<XPointer>, strings: seq<Option<string>>, base: nat, size: nat) {
    |xs| == |strings| && forall i :: 0 <= i < |xs| && xs[i].remote != 0 ==> Apart(strings[i], xs[i].remote, base, size)
  }

  /** Where push puts an entry. */
  function Placed(xs: seq<XPointer>, i: nat, base: nat): XPointer
    requires i < |xs|
  {
    if IsFresh(xs[i]) then xs[i].(remote := base + 8 * |xs| + |FreshText(xs[..i])|) else xs[i]
  }

  // ----- what the reader finds -----

  lemma {:induction false} PodAt(pod: seq<nat>, i: nat, k: nat)
    requires i < |pod| && k < 8
    ensures 8 * i + k < |PodCells(pod)| && PodCells(pod)[8 * i + k] == Part(pod[i], k)
    decreases |pod|
  {
    var init := pod[..|pod| - 1];
    if i < |init| {
      PodAt(init, i, k);
    }
  }

  lemma {:induction false} FreshPrefix(xs: seq<XPointer>, i: nat)
    requires i <= |xs|
    ensures FreshText(xs[..i]) <= FreshText(xs)
    decreases |xs| - i
  {
    if i < |xs| {
      FreshPrefix(xs, i + 1);
      assert xs[..i + 1][..i] == xs[..i];
    } else {
      assert xs[..i] == xs;
    }
  }

  /** A replacement's text, found in the joint text. */
  lemma FreshIn(xs: seq<XPointer>, i: nat)
    requires i < |xs| && IsFresh(xs[i])
    ensures var at := |FreshText(xs[..i])|; var s := xs[i].local.value;
            at + |s| + 1 <= |FreshText(xs)| && FreshText(xs)[at..at + |s| + 1] == s + [NUL]
  {
    FreshPrefix(xs, i + 1);
    assert xs[..i + 1][..i] == xs[..i];
    var at := |FreshText(xs[..i])|;
    assert FreshText(xs[..i + 1]) == FreshText(xs[..i]) + (xs[i].local.value + [NUL]);
    assert FreshText(xs)[..|FreshText(xs[..i + 1])|] == FreshText(xs[..i + 1]);
  }

  ghost predicate CellsIn(mem: Memory, base: nat, cells: seq<Cell>) {
    forall a: nat :: base <= a < base + |cells| ==> mem(a) == Some(cells[a - base])
  }

  /** The bytes of the words are in memory. */
  ghost predicate PodIn(mem: Memory, base: nat, pod: seq<nat>) {
    CellsIn(mem, base, PodCells(pod))
  }

  lemma PodCell(mem: Memory, base: nat, pod: seq<nat>, i: nat, a: nat)
    requires PodIn(mem, base, pod) && i < |pod| && base + 8 * i <= a < base + 8 * i + 8
    ensures mem(a) == Some(Part(pod[i], a - (base + 8 * i)))
  {
    PodAt(pod, i, a - (base + 8 * i));
  }

  /** Eight bytes of one word are a word. */
  lemma WordFrom(mem: Memory, addr: nat, w: nat)
    requires addr < TOP && forall a: nat :: addr <= a < addr + 8 ==> mem(a) == Some(Part(w, a - addr))
    ensures Word(mem, addr) == Some(w)
  {
    assert mem(addr) == Some(Part(w, 0));
  }

  /** A word of the block reads back. */
  lemma WordReads(mem: Memory, base: nat, pod: seq<nat>, i: nat, addr: nat)
    requires PodIn(mem, base, pod) && i < |pod| && addr == base + 8 * i < TOP
    ensures Word(mem, addr) == Some(pod[i])
  {
    var w := pod[i];
    forall a: nat | addr <= a < addr + 8 ensures mem(a) == Some(Part(w, a - addr)) {
      PodCell(mem, base, pod, i, a);
    }
    WordFrom(mem, addr, w);
  }

  lemma CharInSlice(text: string, at: nat, s: string, i: nat)
    requires at + |s| + 1 <= |text| && text[at..at + |s| + 1] == s + [NUL] && i <= |s|
    ensures text[at + i] == CharAt(s, i)
  {
    assert text[at + i] == (s + [NUL])[i];
  }

  /** The bytes of the text are in memory. */
  ghost predicate TextIn(mem: Memory, base: nat, text: string) {
    CellsIn(mem, base, CharCells(text))
  }

  /** So does a string of it. */
  lemma TextReads(mem: Memory, base: nat, text: string, at: nat, s: string)
    requires TextIn(mem, base, text) && NUL !in s
    requires at + |s| + 1 <= |text| && text[at..at + |s| + 1] == s + [NUL]
    ensures StringAt(mem, base + at, s)
  {
    var addr := base + at;
    forall a: nat | addr <= a <= addr + |s| ensures mem(a) == Some(Char(CharAt(s, a - addr))) {
      CharInSlice(text, at, s, a - addr);
    }
  }

  lemma StringStays(mem: Memory, mem': Memory, addr: nat, s: string, base: nat, size: nat)
    requires StringAt(mem, addr, s) && (addr + |s| < base || base + size <= addr)
    requires forall a: nat :: !(base <= a < base + size) ==> mem'(a) == mem(a)
    ensures StringAt(mem', addr, s)
  {}

  /** The block is in memory, and nothing else has changed. */
  ghost predicate BlockIn(mem: Memory, mem': Memory, base: nat, cells: seq<Cell>) {
    && CellsIn(mem', base, cells)
    && (forall a: nat :: !(base <= a < base + |cells|) ==> mem'(a) == mem(a))
  }

  lemma BlockParts(mem: Memory, base: nat, pod: seq<nat>, text: string, at: nat)
    requires CellsIn(mem, base, PodCells(pod) + CharCells(text)) && at == base + 8 * |pod|
    ensures PodIn(mem, base, pod) && TextIn(mem, at, text)
  {
    SplitCells(mem, base, PodCells(pod), CharCells(text), at);
  }

  lemma SplitCells(mem: Memory, base: nat, words: seq<Cell>, chars: seq<Cell>, at: nat)
    requires CellsIn(mem, base, words + chars) && at == base + |words|
    ensures CellsIn(mem, base, words) && CellsIn(mem, at, chars)
  {
    forall a: nat | base <= a < base + |words| ensures mem(a) == Some(words[a - base]) {
      assert (words + chars)[a - base] == words[a - base];
    }
    forall a: nat | at <= a < at + |chars| ensures mem(a) == Some(chars[a - at]) {
      assert (words + chars)[a - base] == chars[a - base - |words|];
    }
  }

  /** A replaced string of the pushed vector. */
  lemma FreshMeans(mem': Memory, base: nat, was: seq<XPointer>, s: string, i: nat)
    requires i < |was| && IsFresh(was[i]) && was[i].local.value == s && NUL !in s
    requires TextIn(mem', base + 8 * |was|, FreshText(was))
    ensures StringAt(mem', Placed(was, i, base).remote, s)
  {
    FreshIn(was, i);
    TextReads(mem', base + 8 * |was|, FreshText(was), |FreshText(was[..i])|, s);
  }

  /** One entry of the pushed vector. */
  lemma EntryMeans(mem: Memory, mem': Memory, base: nat, was: seq<XPointer>, pod: seq<nat>, size: nat, s: Option<string>, i: nat)
    requires 0 < base <= TOP - size && 8 * |pod| <= size && |pod| == |was| && i < |was| && Means(mem, was[i], s)
    requires PodIn(mem', base, pod) && TextIn(mem', base + 8 * |was|, FreshText(was)) && pod[i] == Placed(was, i, base).remote
    requires forall a: nat :: !(base <= a < base + size) ==> mem'(a) == mem(a)
    requires was[i].remote != 0 ==> Apart(s, was[i].remote, base, size)
    ensures Word(mem', base + 8 * i) == Some(pod[i])
    ensures Means(mem', Placed(was, i, base), s) && (s.Some? <==> pod[i] != 0)
    ensures s.Some? ==> StringAt(mem', pod[i], s.value)
  {
    WordReads(mem', base, pod, i, base + 8 * i);
    if s.Some? {
      if IsFresh(was[i]) {
        FreshMeans(mem', base, was, s.value, i);
      } else {
        StringStays(mem, mem', was[i].remote, s.value, base, size);
      }
    }
  }

  lemma PushedMeans(mem: Memory, mem': Memory, base: nat, was: seq<XPointer>, xs: seq<XPointer>, pod: seq<nat>, cells: seq<Cell>, strings: seq<Option<string>>)
    requires 0 < base <= TOP - |cells| && |pod| == |was| == |xs| && AllMean(mem, was, strings)
    requires forall j :: 0 <= j < |xs| ==> xs[j] == Placed(was, j, base) && pod[j] == xs[j].remote
    requires cells == PodCells(pod) + CharCells(FreshText(was)) && BlockIn(mem, mem', base, cells)
    requires KeptApart(was, strings, base, |cells|)
    ensures VectorAt(mem', base, strings) && AllMean(mem', xs, strings)
  {
    BlockParts(mem', base, pod, FreshText(was), base + 8 * |was|);
    forall i | 0 <= i < |xs|
      ensures Means(mem', xs[i], strings[i])
      ensures Word(mem', base + 8 * i) == Some(pod[i]) && (strings[i].Some? <==> pod[i] != 0)
      ensures strings[i].Some? ==> StringAt(mem', pod[i], strings[i].value)
    {
      EntryMeans(mem, mem', base, was, pod, |cells|, strings[i], i);
    }
  }
}
