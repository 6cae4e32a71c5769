/** From program headers to memory mappings (src/execve/enter.c), and what
    carrying the mappings out does to memory. */
module ElfMap {
  import opened Wrappers

  const WORD: nat := 0x1_0000_0000_0000_0000
  const EXEC_PIC_ADDRESS: nat := 0x30_0000_0000
  const INTERP_PIC_ADDRESS: nat := 0x3f_0000_0000
  const CLEAR_LIMIT: nat := 2 * 1024 * 1024

  /** 64-bit addition. */
  function Plus(a: nat, b: nat): (r: nat)
    ensures a + b < WORD ==> r == a + b
  {
    (a + b) % WORD
  }

  /** x & page_mask. */
  function Floor(x: nat, page: nat): (r: nat)
    requires page > 0
    ensures r <= x < r + page
  {
    x - x % page
  }

  /** A PT_LOAD header. */
  datatype Segment = Segment(vaddr: nat, filesz: nat, memsz: nat, offset: nat, readable: bool, writable: bool, executable: bool)

  datatype Mapping = Mapping(addr: nat, length: nat, prot: nat, anonymous: bool, offset: nat, clearLength: nat)

  /** What a well-formed header promises; see chapter 5 of the System V gABI. */
  ghost predicate Loadable(s: Segment, page: nat) {
    && 0 < page <= CLEAR_LIMIT
    && s.filesz <= s.memsz
    && s.vaddr + s.memsz + page < WORD
    && s.offset % page == s.vaddr % page
  }

  function Prot(s: Segment): nat {
    (if s.readable then 1 else 0) + (if s.writable then 2 else 0) + (if s.executable then 4 else 0)
  }

  /** One page past the page that holds vaddr + size. */
  function PageEnd(s: Segment, size: nat, page: nat): nat
    requires page > 0
  {
    Floor(Plus(Plus(s.vaddr, size), page), page)
  }

  /** The mappings of one header: file pages, then anonymous pages if the bss
      reaches beyond them. */
  function SegmentMappings(s: Segment, page: nat): (r: seq<Mapping>)
    requires page > 0
    ensures 1 <= |r| <= 2
  {
    var start, end := Floor(s.vaddr, page), PageEnd(s, s.filesz, page);
    var clear := if s.memsz > s.filesz then Minus(end, Plus(s.vaddr, s.filesz)) else 0;
    var file := Mapping(start, Minus(end, start), Prot(s), false, Floor(s.offset, page), clear);
    var newEnd := PageEnd(s, s.memsz, page);
    if s.memsz > s.filesz && newEnd > end then [file, Mapping(end, newEnd - end, Prot(s), true, 0, 0)] else [file]
  }

  /** 64-bit subtraction. */
  function Minus(a: nat, b: nat): (r: nat)
    ensures b <= a < WORD ==> r == a - b
  {
    (a - b) % WORD
  }

  /** Every page of a segment may be read, written and run as its header says. */
  lemma ProtectionsAreTheHeaders(s: Segment, page: nat, i: nat)
    requires page > 0 && i < |SegmentMappings(s, page)|
    ensures var p := SegmentMappings(s, page)[i].prot;
            && p < 8 && (p % 2 == 1 <==> s.readable) && (p / 2 % 2 == 1 <==> s.writable) && (p / 4 == 1 <==> s.executable)
  {
    MappingProt(s, page, i);
    ProtBits(s);
  }

  lemma MappingProt(s: Segment, page: nat, i: nat)
    requires page > 0 && i < |SegmentMappings(s, page)|
    ensures SegmentMappings(s, page)[i].prot == Prot(s)
  {}

  lemma ProtBits(s: Segment)
    ensures var p := Prot(s);
            && p < 8 && (p % 2 == 1 <==> s.readable) && (p / 2 % 2 == 1 <==> s.writable) && (p / 4 == 1 <==> s.executable)
  {}

  function Shifted(m: Mapping, base: nat): Mapping {
    m.(addr := Plus(m.addr, base))
  }

  function AllShifted(mappings: seq<Mapping>, base: nat): (r: seq<Mapping>)
    ensures |r| == |mappings| && forall i :: 0 <= i < |r| ==> r[i] == Shifted(mappings[i], base)
  {
    seq(|mappings|, i requires 0 <= i < |mappings| => Shifted(mappings[i], base))
  }

  /** The mappings of a list of headers, in header order. */
  function AllMappings(segments: seq<Segment>, page: nat): seq<Mapping>
    requires page > 0
  {
    if |segments| == 0 then []
    else AllMappings(segments[..|segments| - 1], page) + SegmentMappings(segments[|segments| - 1], page)
  }

  class LoadInfo {
    var mappings: seq<Mapping>
    var entry: nat
    const dynamic: bool  // e_type is ET_DYN
    const page: nat

    constructor (dynamic: bool, entry: nat, page: nat)
      ensures mappings == [] && this.entry == entry && this.dynamic == dynamic && this.page == page
    {
      mappings := [];
      this.entry, this.dynamic, this.page := entry, dynamic, page;
    }

    method MapSegment(ph: Segment)
      requires page > 0
      modifies this`mappings
      ensures mappings == old(mappings) + SegmentMappings(ph, page)
    {
      var start := Floor(ph.vaddr, page);
      var end := Floor(Plus(Plus(ph.vaddr, ph.filesz), page), page);
      var m := Mapping(start, Minus(end, start), Prot(ph), false, Floor(ph.offset, page), 0);
      if ph.memsz > ph.filesz {
        m := m.(clearLength := Minus(end, Plus(ph.vaddr, ph.filesz)));
        mappings := mappings + [m];
        var newEnd := Floor(Plus(Plus(ph.vaddr, ph.memsz), page), page);
        if newEnd <= end {
          return;
        }
        mappings := mappings + [Mapping(end, newEnd - end, m.prot, true, 0, 0)];
        return;
      }
      mappings := mappings + [m];
    }

    /** ph_callback over the program headers. */
    method MapSegments(phs: seq<Segment>)
      requires page > 0
      modifies this`mappings
      ensures mappings == old(mappings) + AllMappings(phs, page)
    {
      assert AllMappings(phs[..0], page) == [];
      for i := 0 to |phs|
        invariant mappings == old(mappings) + AllMappings(phs[..i], page)
      {
        assert phs[..i + 1][..|phs[..i + 1]| - 1] == phs[..i];
        MapSegment(phs[i]);
      }
      assert phs[..|phs|] == phs;
    }

    method ApplyLoadBase(base: nat)
      modifies this`mappings, this`entry
      ensures mappings == AllShifted(old(mappings), base) && entry == Plus(old(entry), base)
    {
      for i := 0 to |mappings|
        invariant |mappings| == |old(mappings)| && entry == old(entry)
        invariant forall k :: 0 <= k < i ==> mappings[k] == Shifted(old(mappings)[k], base)
        invariant forall k :: i <= k < |mappings| ==> mappings[k] == old(mappings)[k]
      {
        mappings := mappings[i := mappings[i].(addr := Plus(mappings[i].addr, base))];
      }
      entry := Plus(entry, base);
    }
  }

  /** The load bias compute_load_addresses picks for an object. */
  function LoadBase(dynamic: bool, mappings: seq<Mapping>, picAddress: nat): nat {
    if |mappings| > 0 && dynamic && mappings[0].addr == 0 then picAddress else 0
  }

  function Rebased(mappings: seq<Mapping>, base: nat): seq<Mapping> {
    if base == 0 then mappings else AllShifted(mappings, base)
  }

  /** An interpreter is placed only beside a main object that maps something. */
  method ComputeLoadAddresses(main: LoadInfo, interp: Option<LoadInfo>)
    requires interp.Some? ==> interp.value != main
    modifies main, if interp.Some? then {interp.value} else {}
    ensures var base := LoadBase(main.dynamic, old(main.mappings), EXEC_PIC_ADDRESS);
            main.mappings == Rebased(old(main.mappings), base)
            && main.entry == (if base == 0 then old(main.entry) else Plus(old(main.entry), base))
    ensures interp.Some? ==>
              var i := interp.value;
              var base := if old(main.mappings) == [] then 0 else LoadBase(i.dynamic, old(i.mappings), INTERP_PIC_ADDRESS);
              i.mappings == Rebased(old(i.mappings), base)
              && i.entry == (if base == 0 then old(i.entry) else Plus(old(i.entry), base))
  {
    if |main.mappings| == 0 {
      return;
    }
    if main.dynamic && main.mappings[0].addr == 0 {
      main.ApplyLoadBase(EXEC_PIC_ADDRESS);
    }
    if interp.None? || |interp.value.mappings| == 0 {
      return;
    }
    if interp.value.dynamic && interp.value.mappings[0].addr == 0 {
      interp.value.ApplyLoadBase(INTERP_PIC_ADDRESS);
    }
  }

  // ----- memory -----

  /** What each address holds; None where nothing is mapped. */
  type Memory = nat -> Option<nat>

  /** A file's bytes; what lies past its end is not modelled. */
  type File = nat -> nat

  /** mmap with MAP_FIXED: whatever was there is gone. */
  function MapFile(mem: Memory, addr: nat, length: nat, file: File, offset: nat): Memory {
    (a: nat) => if addr <= a < addr + length then Some(file(offset + (a - addr))) else mem(a)
  }

  function Zeroed(mem: Memory, start: nat, end: nat): Memory {
    (a: nat) => if start <= a < end then Some(0) else mem(a)
  }

  /** The guarded clear of the loader. */
  function Cleared(mem: Memory, start: nat, end: nat): Memory {
    if end <= start || end - start > CLEAR_LIMIT then mem else Zeroed(mem, start, end)
  }

  /** Carrying out one mapping. */
  function Mapped(mem: Memory, m: Mapping, file: File): Memory {
    if m.anonymous then Zeroed(mem, m.addr, m.addr + m.length)
    else
      var mapped := MapFile(mem, m.addr, m.length, file, m.offset);
      if m.clearLength == 0 then mapped
      else Cleared(mapped, Minus(m.addr + m.length, m.clearLength), m.addr + m.length)
  }

  function AllMapped(mem: Memory, mappings: seq<Mapping>, file: File): Memory {
    if |mappings| == 0 then mem
    else Mapped(AllMapped(mem, mappings[..|mappings| - 1], file), mappings[|mappings| - 1], file)
  }

  lemma {:induction false} AllMappedConcat(mem: Memory, a: seq<Mapping>, b: seq<Mapping>, file: File)
    ensures AllMapped(mem, a + b, file) == AllMapped(AllMapped(mem, a, file), b, file)
  {
    if |b| == 0 {
      assert a + b == a;
    } else {
      assert (a + b)[..|a + b| - 1] == a + b[..|b| - 1];
      AllMappedConcat(mem, a, b[..|b| - 1], file);
    }
  }

  /** A segment put down at a load base. */
  datatype Placed = Placed(segment: Segment, base: nat, file: File)

  function PlacedMappings(p: Placed, page: nat): seq<Mapping>
    requires page > 0
  {
    AllShifted(SegmentMappings(p.segment, page), p.base)
  }

  ghost predicate PlacedWell(p: Placed, page: nat) {
    && Loadable(p.segment, page)
    && p.base % page == 0
    && p.base + p.segment.vaddr + p.segment.memsz + page < WORD
  }

  /** The byte a loaded segment has d bytes from its start. */
  function ImageByte(p: Placed, d: nat): nat {
    if d < p.segment.filesz then p.file(p.segment.offset + d) else 0
  }

  function Start(p: Placed): nat {
    p.base + p.segment.vaddr
  }

  ghost predicate HoldsImage(mem: Memory, p: Placed) {
    forall a: nat :: Start(p) <= a < Start(p) + p.segment.memsz ==> mem(a) == Some(ImageByte(p, a - Start(p)))
  }

  /** The pages the mappings of a segment replace. */
  function FirstPage(p: Placed, page: nat): nat
    requires page > 0
  {
    p.base + Floor(p.segment.vaddr, page)
  }

  function PagesEnd(p: Placed, page: nat): nat
    requires page > 0
  {
    p.base + Floor(p.segment.vaddr + p.segment.memsz + page, page)
  }

  /** Nothing outside the segment's pages differs. */
  ghost predicate SameOutside(mem: Memory, after: Memory, p: Placed, page: nat)
    requires page > 0
  {
    forall a: nat :: a < FirstPage(p, page) || a >= PagesEnd(p, page) ==> after(a) == mem(a)
  }

  /** clear_length never exceeds a page, so the loader's guard never drops a
      clear, and there is one exactly when the segment has a bss. */
  lemma ClearLengthIsAtMostOnePage(s: Segment, page: nat)
    requires Loadable(s, page)
    ensures var m := SegmentMappings(s, page)[0];
            && m.clearLength <= page <= CLEAR_LIMIT
            && (s.memsz > s.filesz <==> m.clearLength > 0)
            && m.clearLength <= m.length
  {}

  lemma {:induction false} FloorMonotone(x: nat, y: nat, page: nat)
    requires page > 0 && x <= y
    ensures Floor(x, page) <= Floor(y, page)
  {
    if Floor(x, page) > Floor(y, page) {
      FloorGap(x, y, page);
    }
  }

  lemma FloorGap(x: nat, y: nat, page: nat)
    requires page > 0
    ensures Floor(x, page) > Floor(y, page) ==> Floor(x, page) >= Floor(y, page) + page
  {
    var i, j := x / page, y / page;
    assert Floor(x, page) == i * page && Floor(y, page) == j * page;
    if i > j {
      assert i * page >= (j + 1) * page == j * page + page;
    } else {
      assert i * page <= j * page;
    }
  }

  /** The numbers of a placed segment's mappings, free of wrap-around. */
  lemma SegmentNumbers(p: Placed, page: nat)
    requires PlacedWell(p, page)
    ensures var s := p.segment; var ms := PlacedMappings(p, page); var file := ms[0];
            && !file.anonymous && file.addr == FirstPage(p, page)
            && file.addr + file.length == p.base + Floor(s.vaddr + s.filesz + page, page) > Start(p) + s.filesz
            && s.offset - file.offset == s.vaddr - Floor(s.vaddr, page)
            && file.clearLength == (if s.memsz > s.filesz then file.addr + file.length - (Start(p) + s.filesz) else 0) <= CLEAR_LIMIT
    ensures var s := p.segment; var ms := PlacedMappings(p, page); var end := ms[0].addr + ms[0].length;
            && (|ms| == 1 ==> PagesEnd(p, page) == end)
            && (|ms| == 2 ==> ms[1].anonymous && ms[1].addr == end && end + ms[1].length == PagesEnd(p, page) > end)
    ensures PagesEnd(p, page) > Start(p) + p.segment.memsz
  {
    var s := p.segment;
    ClearLengthIsAtMostOnePage(s, page);
    FloorMonotone(s.vaddr, s.vaddr + s.filesz + page, page);
    FloorMonotone(s.vaddr + s.filesz + page, s.vaddr + s.memsz + page, page);
  }

  lemma TwoMapped(mem: Memory, ms: seq<Mapping>, file: File)
    requires 1 <= |ms| <= 2
    ensures AllMapped(mem, ms, file) == if |ms| == 1 then Mapped(mem, ms[0], file) else Mapped(Mapped(mem, ms[0], file), ms[1], file)
  {
    assert AllMapped(mem, ms[..0], file) == mem;
    assert ms[..1][..0] == ms[..0];
    assert |ms| == 1 ==> ms[..1] == ms;
  }

  /** Carrying out the mappings of one segment. */
  function PlaceOne(mem: Memory, p: Placed, page: nat): Memory
    requires page > 0
  {
    AllMapped(mem, PlacedMappings(p, page), p.file)
  }

  /** One file mapping, and anonymous pages after it, in numbers: dataEnd is
      where the file bytes end, end where the file pages do. */
  lemma MappedByte(mem: Memory, file: Mapping, rest: seq<Mapping>, content: File, a: nat)
    requires !file.anonymous && |rest| <= 1 && file.clearLength <= file.length && file.clearLength <= CLEAR_LIMIT
    requires file.addr + file.length < WORD
    requires |rest| == 1 ==> rest[0].anonymous && rest[0].addr == file.addr + file.length
    ensures var end := file.addr + file.length;
            AllMapped(mem, [file] + rest, content)(a) ==
            if file.addr <= a < end - file.clearLength then Some(content(file.offset + (a - file.addr)))
            else if end - file.clearLength <= a < end + (if |rest| == 1 then rest[0].length else 0) then Some(0)
            else mem(a)
  {
    TwoMapped(mem, [file] + rest, content);
  }

  /** Carrying out the mappings of one segment leaves its image in place and
      touches nothing outside its pages. */
  lemma SegmentImage(mem: Memory, p: Placed, page: nat)
    requires PlacedWell(p, page)
    ensures HoldsImage(PlaceOne(mem, p, page), p) && SameOutside(mem, PlaceOne(mem, p, page), p, page)
  {
    forall a: nat
      ensures Start(p) <= a < Start(p) + p.segment.memsz ==> PlaceOne(mem, p, page)(a) == Some(ImageByte(p, a - Start(p)))
      ensures a < FirstPage(p, page) || a >= PagesEnd(p, page) ==> PlaceOne(mem, p, page)(a) == mem(a)
    {
      SegmentByte(mem, p, page, a);
    }
  }

  lemma SegmentByte(mem: Memory, p: Placed, page: nat, a: nat)
    requires PlacedWell(p, page)
    ensures Start(p) <= a < Start(p) + p.segment.memsz ==> PlaceOne(mem, p, page)(a) == Some(ImageByte(p, a - Start(p)))
    ensures a < FirstPage(p, page) || a >= PagesEnd(p, page) ==> PlaceOne(mem, p, page)(a) == mem(a)
  {
    SegmentNumbers(p, page);
    var ms := PlacedMappings(p, page);
    assert ms == [ms[0]] + ms[1..];
    MappedByte(mem, ms[0], ms[1..], p.file, a);
    if Start(p) <= a < Start(p) + p.segment.filesz {
      assert ms[0].offset + (a - ms[0].addr) == p.segment.offset + (a - Start(p));
    }
  }

  // ----- several segments, of one or more objects -----

  /** Carrying out segments one after the other, each from its own file. */
  function AllPlaced(mem: Memory, ps: seq<Placed>, page: nat): Memory
    requires page > 0
  {
    if |ps| == 0 then mem
    else PlaceOne(AllPlaced(mem, ps[..|ps| - 1], page), ps[|ps| - 1], page)
  }

  /** The pages of a later segment stay clear of an earlier one's bytes. */
  ghost predicate NoClobber(ps: seq<Placed>, page: nat)
    requires page > 0
  {
    forall i, j :: 0 <= i < j < |ps| ==>
      Start(ps[i]) + ps[i].segment.memsz <= FirstPage(ps[j], page) || PagesEnd(ps[j], page) <= Start(ps[i])
  }

  ghost predicate AllPlacedWell(ps: seq<Placed>, page: nat) {
    page > 0 && forall i :: 0 <= i < |ps| ==> PlacedWell(ps[i], page)
  }

  /** The final image: every segment's file bytes where it was to be loaded, and
      zeros for the rest of its memory. */
  lemma {:induction false} LoadedImage(mem: Memory, ps: seq<Placed>, page: nat)
    requires AllPlacedWell(ps, page) && NoClobber(ps, page)
    ensures forall i :: 0 <= i < |ps| ==> HoldsImage(AllPlaced(mem, ps, page), ps[i])
  {
    if |ps| > 0 {
      var init, last := ps[..|ps| - 1], ps[|ps| - 1];
      var before := AllPlaced(mem, init, page);
      LoadedImage(mem, init, page);
      SegmentImage(before, last, page);
      var after := PlaceOne(before, last, page);
      forall i | 0 <= i < |ps| ensures HoldsImage(after, ps[i]) {
        if i < |init| {
          assert HoldsImage(before, init[i]);
          ImageKept(before, after, ps[i], last, page);
        }
      }
    }
  }

  lemma ImageKept(before: Memory, after: Memory, p: Placed, last: Placed, page: nat)
    requires page > 0 && HoldsImage(before, p) && SameOutside(before, after, last, page)
    requires Start(p) + p.segment.memsz <= FirstPage(last, page) || PagesEnd(last, page) <= Start(p)
    ensures HoldsImage(after, p)
  {
    forall a: nat | Start(p) <= a < Start(p) + p.segment.memsz ensures after(a) == Some(ImageByte(p, a - Start(p))) {
      assert after(a) == before(a);
    }
  }

  /** Headers in ascending order, each ending at or below the next one's page. */
  ghost predicate Ascending(segments: seq<Segment>, page: nat)
    requires page > 0
  {
    forall i :: 0 <= i < |segments| - 1 ==> segments[i].vaddr + segments[i].memsz <= Floor(segments[i + 1].vaddr, page)
  }

  function PlaceAll(segments: seq<Segment>, base: nat, file: File): (r: seq<Placed>)
    ensures |r| == |segments| && forall i :: 0 <= i < |r| ==> r[i] == Placed(segments[i], base, file)
  {
    seq(|segments|, i requires 0 <= i < |segments| => Placed(segments[i], base, file))
  }

  lemma {:induction false} AscendingReaches(segments: seq<Segment>, page: nat, i: nat, j: nat)
    requires page > 0 && Ascending(segments, page) && i < j < |segments|
    ensures segments[i].vaddr + segments[i].memsz <= Floor(segments[j].vaddr, page)
    decreases j
  {
    if i < j - 1 {
      AscendingReaches(segments, page, i, j - 1);
      assert segments[j - 1].vaddr + segments[j - 1].memsz <= Floor(segments[j - 1 + 1].vaddr, page);
    }
  }

  /** What an ELF object promises about its headers is enough for its own image. */
  lemma AscendingNeverClobbers(segments: seq<Segment>, base: nat, file: File, page: nat)
    requires page > 0 && Ascending(segments, page)
    ensures NoClobber(PlaceAll(segments, base, file), page)
  {
    var ps := PlaceAll(segments, base, file);
    forall i, j | 0 <= i < j < |ps| ensures Start(ps[i]) + ps[i].segment.memsz <= FirstPage(ps[j], page) {
      AscendingReaches(segments, page, i, j);
    }
  }

  lemma ShiftedConcat(mem: Memory, a: seq<Mapping>, b: seq<Mapping>, base: nat, file: File)
    ensures AllMapped(mem, AllShifted(a + b, base), file) == AllMapped(AllMapped(mem, AllShifted(a, base), file), AllShifted(b, base), file)
  {
    assert AllShifted(a + b, base) == AllShifted(a, base) + AllShifted(b, base);
    AllMappedConcat(mem, AllShifted(a, base), AllShifted(b, base), file);
  }

  /** One thing after the other, whatever carrying one out does. */
  function Folded(place: (Memory, Placed) -> Memory, mem: Memory, ps: seq<Placed>): Memory {
    if |ps| == 0 then mem else place(Folded(place, mem, ps[..|ps| - 1]), ps[|ps| - 1])
  }

  lemma {:induction false} FoldedConcat(place: (Memory, Placed) -> Memory, mem: Memory, a: seq<Placed>, b: seq<Placed>)
    ensures Folded(place, mem, a + b) == Folded(place, Folded(place, mem, a), b)
    decreases |b|
  {
    if |b| == 0 {
      assert a + b == a;
    } else {
      assert (a + b)[..|a + b| - 1] == a + b[..|b| - 1];
      FoldedConcat(place, mem, a, b[..|b| - 1]);
    }
  }

  /** place is putting down one segment, and nothing is said about how. */
  ghost predicate Places(place: (Memory, Placed) -> Memory, page: nat)
    requires page > 0
  {
    forall m, p {:trigger PlaceOne(m, p, page)} :: place(m, p) == PlaceOne(m, p, page)
  }

  lemma {:induction false} PlacedIsFolded(place: (Memory, Placed) -> Memory, mem: Memory, ps: seq<Placed>, page: nat)
    requires page > 0 && Places(place, page)
    ensures AllPlaced(mem, ps, page) == Folded(place, mem, ps)
    decreases |ps|
  {
    if |ps| > 0 { PlacedIsFolded(place, mem, ps[..|ps| - 1], page); }
  }

  /** The mappings an object's headers compile to, shifted to its base and
      carried out, are its segments put down one by one. */
  lemma {:induction false} ObjectMappings(place: (Memory, Placed) -> Memory, mem: Memory, segments: seq<Segment>, base: nat, file: File,
                                          page: nat)
    requires page > 0 && Places(place, page)
    ensures AllMapped(mem, AllShifted(AllMappings(segments, page), base), file) == Folded(place, mem, PlaceAll(segments, base, file))
  {
    if |segments| > 0 {
      var init, last := segments[..|segments| - 1], segments[|segments| - 1];
      ObjectMappings(place, mem, init, base, file, page);
      assert PlaceAll(segments, base, file)[..|segments| - 1] == PlaceAll(init, base, file);
      ShiftedConcat(mem, AllMappings(init, page), SegmentMappings(last, page), base, file);
      assert PlaceOne(Folded(place, mem, PlaceAll(init, base, file)), Placed(last, base, file), page) ==
             Folded(place, mem, PlaceAll(segments, base, file));
    }
  }
}
