/** From program headers to a running program: what src/execve computes, leaves on
    the stack and has the loader replay, put together. */
module ProgramLoad {
  import opened Wrappers
  import opened ElfMap
  import opened LoadScript
  import opened Loader

  // ----- what stays as it was -----

  /** No page of these segments lies in the range. */
  ghost predicate ClearOf(ps: seq<Placed>, page: nat, r: Range)
    requires page > 0
  {
    forall i :: 0 <= i < |ps| ==> r.hi <= FirstPage(ps[i], page) || PagesEnd(ps[i], page) <= r.lo
  }

  ghost predicate AllClear(mappings: seq<Mapping>, r: Range) {
    forall i :: 0 <= i < |mappings| ==> Tame(mappings[i]) && Apart(mappings[i], r)
  }

  /** The mappings of a segment stay within its pages. */
  lemma SegmentClear(p: Placed, page: nat, r: Range)
    requires PlacedWell(p, page) && (r.hi <= FirstPage(p, page) || PagesEnd(p, page) <= r.lo)
    ensures AllClear(PlacedMappings(p, page), r)
  {
    SegmentNumbers(p, page);
  }

  /** So do those of an object. */
  lemma {:induction false} ObjectClear(segments: seq<Segment>, base: nat, file: File, page: nat, r: Range)
    requires AllPlacedWell(PlaceAll(segments, base, file), page) && ClearOf(PlaceAll(segments, base, file), page, r)
    ensures AllClear(AllShifted(AllMappings(segments, page), base), r)
  {
    if |segments| > 0 {
      var init, last := segments[..|segments| - 1], segments[|segments| - 1];
      var ps := PlaceAll(segments, base, file);
      assert ps[|ps| - 1] == Placed(last, base, file);
      assert forall i :: 0 <= i < |init| ==> PlaceAll(init, base, file)[i] == ps[i];
      ObjectClear(init, base, file, page, r);
      SegmentClear(ps[|ps| - 1], page, r);
      ClearConcat(AllMappings(init, page), SegmentMappings(last, page), base, r);
    }
  }

  lemma ClearConcat(a: seq<Mapping>, b: seq<Mapping>, base: nat, r: Range)
    requires AllClear(AllShifted(a, base), r) && AllClear(AllShifted(b, base), r)
    ensures AllClear(AllShifted(a + b, base), r)
  {
    assert AllShifted(a + b, base) == AllShifted(a, base) + AllShifted(b, base);
  }

  lemma {:induction false} PlacedKeeps(mem: Memory, ps: seq<Placed>, page: nat, r: Range)
    requires AllPlacedWell(ps, page) && ClearOf(ps, page, r)
    ensures SameOn(mem, AllPlaced(mem, ps, page), r)
  {
    if |ps| > 0 {
      var init, last := ps[..|ps| - 1], ps[|ps| - 1];
      PlacedKeeps(mem, init, page, r);
      SegmentImage(AllPlaced(mem, init, page), last, page);
    }
  }

  // ----- the block on the stack -----

  /** What transfer_load_script leaves below the stack pointer: the script, and from
      addr1 on the strings, the second one at addr2. */
  ghost predicate IsTransferred(block: Block, sp: nat, page: nat, addr1: nat, addr2: nat, main: Object, interp: Option<Object>,
                                rawPath: Option<string>, info: StartInfo)
    requires page > 0
  {
    && block.words == EncodeAll(ScriptOf(sp, page, addr1, addr2, main, interp, info))
    && block.base + 8 * |block.words| == addr1 && addr2 == addr1 + |main.userPath| + 1 && addr1 + |block.tail| == sp
    && Strings(main, interp, rawPath) <= block.tail
  }

  /** The block stands in memory, words and strings. */
  ghost predicate InMemory(block: Block, mem: Memory) {
    var strings := block.base + 8 * |block.words|;
    && HoldsWords(WordsOf(mem), block.base, block.words)
    && forall i :: 0 <= i < |block.tail| ==> mem(strings + i) == Some(block.tail[i] as int)
  }

  function ByteOf(w: nat, i: nat): nat {
    if i == 0 then w % 256 else ByteOf(w / 256, i - 1)
  }

  /** write_data: words byte by byte, the lowest first, then the strings. */
  function Written(mem: Memory, block: Block): Memory {
    var strings := block.base + 8 * |block.words|;
    (a: nat) =>
      if block.base <= a < strings then Some(ByteOf(block.words[(a - block.base) / 8], (a - block.base) % 8))
      else if strings <= a < strings + |block.tail| then Some(block.tail[a - strings] as int)
      else mem(a)
  }

  function Power256(n: nat): nat {
    if n == 0 then 1 else 256 * Power256(n - 1)
  }

  lemma {:induction false} ReadsBack(mem: Memory, a: nat, n: nat, w: nat)
    requires w < Power256(n) && forall i :: 0 <= i < n ==> mem(a + i) == Some(ByteOf(w, i))
    ensures ReadBytes(mem, a, a + n) == Some(w)
    decreases n
  {
    if n > 0 {
      assert mem(a + 0) == Some(ByteOf(w, 0));
      forall i | 0 <= i < n - 1 ensures mem(a + 1 + i) == Some(ByteOf(w / 256, i)) {
        assert mem(a + (i + 1)) == Some(ByteOf(w, i + 1));
      }
      ReadsBack(mem, a + 1, n - 1, w / 256);
      assert a + 1 + (n - 1) == a + n;
    }
  }

  lemma WordIsEightBytes()
    ensures Power256(8) == WORD
  {
    assert Power256(2) == 65536;
    assert Power256(4) == 65536 * 65536;
    assert Power256(6) == 65536 * 65536 * 65536;
  }

  ghost predicate WordsFit(words: seq<nat>) {
    forall i :: 0 <= i < |words| ==> words[i] < WORD
  }

  /** What has been written is what is read. */
  lemma WrittenIsInMemory(mem: Memory, block: Block)
    requires WordsFit(block.words)
    ensures InMemory(block, Written(mem, block))
  {
    forall i | 0 <= i < |block.words| ensures WordsOf(Written(mem, block))(block.base + 8 * i) == Some(block.words[i]) {
      WrittenWord(mem, block, i, block.words[i], Written(mem, block));
    }
  }

  lemma WrittenWord(mem: Memory, block: Block, i: nat, word: nat, after: Memory)
    requires i < |block.words| && word == block.words[i] < WORD && after == Written(mem, block)
    ensures WordsOf(after)(block.base + 8 * i) == Some(word)
  {
    var a := block.base + 8 * i;
    forall j | 0 <= j < 8 ensures after(a + j) == Some(ByteOf(word, j)) {
      WithinWord(i, j);
    }
    WordIsEightBytes();
    ReadsBack(after, a, 8, word);
  }

  lemma WithinWord(i: nat, j: nat)
    requires j < 8
    ensures (8 * i + j) / 8 == i && (8 * i + j) % 8 == j
  {}

  lemma StringInMemory(block: Block, mem: Memory, at: nat, s: string)
    requires InMemory(block, mem) && StringAt(block, at, s) && IsByteString(s)
    requires block.base + 8 * |block.words| + |block.tail| <= WORD
    ensures HoldsString(mem, at, s)
    ensures block.base <= at && at + |s| < block.base + 8 * |block.words| + |block.tail|
  {
    var strings := block.base + 8 * |block.words|;
    var d := at - strings;
    var text := s + "\0";
    assert block.tail[d..d + |s| + 1] == text;
    forall i | 0 <= i <= |s| ensures mem(at + i) == Some(text[i] as int) {
      assert mem(strings + (d + i)) == Some(block.tail[d + i] as int);
      assert block.tail[d + i] == block.tail[d..d + |s| + 1][i];
    }
    forall i | 0 <= i < |s| ensures mem(at + i) == Some(s[i] as int) {
      assert text[i] == s[i];
    }
    assert text[|s|] == '\0';
  }

  // ----- names -----

  /** Both names lead to their files. */
  ghost predicate NamesLead(files: string -> Option<File>, main: Object, interp: Option<Object>, image: Image, interpImage: Option<Image>)
    requires interp.Some? == interpImage.Some?
  {
    && IsByteString(main.userPath) && files(main.userPath) == Some(image.file)
    && (interp.Some? ==> IsByteString(interp.value.userPath) && files(interp.value.userPath) == Some(interpImage.value.file))
  }

  /** The addresses in the script open the files of that name, the second one
      after whatever the first object's mappings have done outside the block. */
  lemma NamesOpen(k: Kernel, block: Block, mem: Memory, later: Memory, sp: nat, addr1: nat, addr2: nat,
                  main: Object, interp: Option<Object>, rawPath: Option<string>, image: Image, interpImage: Option<Image>, r: Range)
    requires InMemory(block, mem) && Strings(main, interp, rawPath) <= block.tail
    requires addr1 == block.base + 8 * |block.words| && addr2 == addr1 + |main.userPath| + 1
    requires addr1 + |block.tail| == sp <= WORD
    requires SameOn(mem, later, r) && r == Range(block.base, sp)
    requires interp.Some? == interpImage.Some? && NamesLead(k.files, main, interp, image, interpImage)
    ensures Opens(k, mem, addr1, image.file) && (interp.Some? ==> Opens(k, later, addr2, interpImage.value.file))
  {
    StringsInPlace(block, main, interp, rawPath);
    StringInMemory(block, mem, addr1, main.userPath);
    HeldString(mem, addr1, main.userPath);
    if interp.Some? {
      var name := interp.value.userPath;
      StringInMemory(block, mem, addr2, name);
      StringKept(mem, later, addr2, name, r);
      HeldString(later, addr2, name);
    }
  }

  // ----- the program the loader starts -----

  /** The program runs from info, with the interpreter's (or its own) base in
      atBase, and every segment is in place. */
  ghost predicate ProgramLoaded(end: Machine, info: StartInfo, main: Object, interp: Option<Object>, ps: seq<Placed>) {
    && end.Started? && end.info == info && !end.traced
    && |main.mappings| > 0 && (interp.Some? ==> |interp.value.mappings| > 0)
    && end.atBase == (if interp.Some? then interp.value.mappings[0].addr else main.mappings[0].addr)
    && forall i :: 0 <= i < |ps| ==> HoldsImage(end.mem, ps[i])
  }

  /** What the script maps is what the two objects map. */
  lemma ScriptKeepsClear(sp: nat, page: nat, addr1: nat, addr2: nat, main: Object, interp: Option<Object>, info: StartInfo,
                         block: Range, own: Range)
    requires page > 0 && AllClear(main.mappings, block) && AllClear(main.mappings, own)
    requires interp.Some? ==> AllClear(interp.value.mappings, block) && AllClear(interp.value.mappings, own)
    ensures KeepsClear(ScriptOf(sp, page, addr1, addr2, main, interp, info), block, own)
  {
    StatementsClear(main.mappings, block, own);
    ClearParts([Open(addr1)], MmapStatements(main.mappings), block, own);
    if interp.Some? {
      StatementsClear(interp.value.mappings, block, own);
      ClearParts([OpenNext(addr2)], MmapStatements(interp.value.mappings), block, own);
    }
    var objects := [Open(addr1)] + MmapStatements(main.mappings) + InterpPart(addr2, interp);
    ClearParts([Open(addr1)] + MmapStatements(main.mappings), InterpPart(addr2, interp), block, own);
    ClearParts(objects, StackPart(sp, page, NeedsExecStack(main, interp)), block, own);
    ClearParts(objects + StackPart(sp, page, NeedsExecStack(main, interp)), [Begin(info, false)], block, own);
  }

  lemma StatementsClear(mappings: seq<Mapping>, block: Range, own: Range)
    requires AllClear(mappings, block) && AllClear(mappings, own)
    ensures KeepsClear(MmapStatements(mappings), block, own)
  {}

  lemma ClearParts(a: seq<Statement>, b: seq<Statement>, block: Range, own: Range)
    requires KeepsClear(a, block, own) && KeepsClear(b, block, own)
    ensures KeepsClear(a + b, block, own)
  {}

  lemma ClearSplit(a: seq<Placed>, b: seq<Placed>, page: nat, r: Range)
    requires AllPlacedWell(a + b, page) && ClearOf(a + b, page, r)
    ensures AllPlacedWell(a, page) && ClearOf(a, page, r) && AllPlacedWell(b, page) && ClearOf(b, page, r)
  {
    forall i | 0 <= i < |a| ensures PlacedWell(a[i], page) && (r.hi <= FirstPage(a[i], page) || PagesEnd(a[i], page) <= r.lo) {
      assert (a + b)[i] == a[i];
    }
    forall i | 0 <= i < |b| ensures PlacedWell(b[i], page) && (r.hi <= FirstPage(b[i], page) || PagesEnd(b[i], page) <= r.lo) {
      assert (a + b)[|a| + i] == b[i];
    }
  }

  /** The objects' mappings stay clear of what their images stay clear of. */
  lemma ImagesClear(main: Object, interp: Option<Object>, image: Image, interpImage: Option<Image>, page: nat, r: Range)
    requires page > 0 && Describes(main, image, page) && MatchingImages(interp, interpImage, page)
    requires AllPlacedWell(WholeImage(image, interpImage), page) && ClearOf(WholeImage(image, interpImage), page, r)
    ensures AllClear(main.mappings, r) && (interp.Some? ==> AllClear(interp.value.mappings, r))
    ensures forall mem :: SameOn(mem, MainPlaced(mem, image, page), r)
  {
    var ours := PlaceAll(image.segments, image.base, image.file);
    ClearSplit(ours, InterpImage(interpImage), page, r);
    ObjectClear(image.segments, image.base, image.file, page, r);
    if interp.Some? {
      ObjectClear(interpImage.value.segments, interpImage.value.base, interpImage.value.file, page, r);
    }
    forall mem ensures SameOn(mem, MainPlaced(mem, image, page), r) {
      PlacedKeeps(mem, ours, page, r);
    }
  }

  /** A block whose words are a script is replayed as that script. */
  lemma BlockReplays(k: Kernel, own: Range, block: Block, mem: Memory, r: Range, script: seq<Statement>, end: Machine)
    requires InMemory(block, mem) && block.words == EncodeAll(script)
    requires r.lo == block.base && block.base + 8 * |block.words| <= r.hi <= WORD && KeepsClear(script, r, own)
    requires end == RunScript(k, Running(mem, None, 0, true), script) && !end.Running?
    ensures RunFrom(k, own, Running(mem, None, 0, true), block.base) == end
  {
    RunHeld(k, own, Running(mem, None, 0, true), block.base, script, r);
  }

  /** Replaying the block is carrying out the mappings of both objects. */
  lemma BlockRuns(k: Kernel, own: Range, block: Block, mem: Memory, sp: nat, page: nat, rawPath: Option<string>,
      main: Object, interp: Option<Object>, image: Image, interpImage: Option<Image>, addr1: nat, addr2: nat, info: StartInfo, r: Range)
    requires page > 0 && r == Range(block.base, sp) && AllGranted(k, main, interp) && interp.Some? == interpImage.Some?
    requires StartsWithFile(main) && (interp.Some? ==> StartsWithFile(interp.value))
    requires IsTransferred(block, sp, page, addr1, addr2, main, interp, rawPath, info) && InMemory(block, mem) && sp <= WORD
    requires NamesLead(k.files, main, interp, image, interpImage)
    requires SameOn(mem, AllMapped(mem, main.mappings, image.file), r)
    requires KeepsClear(ScriptOf(sp, page, addr1, addr2, main, interp, info), r, own)
    ensures RunFrom(k, own, Running(mem, None, 0, true), block.base) ==
            Started(BothMapped(mem, main, interp, image.file, FileOf(interpImage, image)),
                    if interp.Some? then interp.value.mappings[0].addr else main.mappings[0].addr, info, false)
  {
    NamesOpen(k, block, mem, AllMapped(mem, main.mappings, image.file), sp, addr1, addr2, main, interp, rawPath, image, interpImage, r);
    RunWholeScript(k, mem, sp, page, addr1, addr2, main, interp, info, image.file, FileOf(interpImage, image));
    var script := ScriptOf(sp, page, addr1, addr2, main, interp, info);
    BlockReplays(k, own, block, mem, r, script, RunScript(k, Running(mem, None, 0, true), script));
  }

  function FileOf(image: Option<Image>, other: Image): File {
    if image.Some? then image.value.file else other.file
  }

  /** From the block transfer_load_script leaves to a running program: replayed by
      the loader out of the memory it maps over, it puts every segment of the
      executable and of its interpreter in place, zeros included, and starts with
      the numbers of the headers, if no segment overwrites another's bytes, the
      block, or the loader.  The block and the loader are untouched. */
  lemma ScriptLoadsProgram(k: Kernel, own: Range, block: Block, mem: Memory, sp: nat, page: nat, addr1: nat, addr2: nat,
      rawPath: Option<string>, main: Object, interp: Option<Object>, info: StartInfo, image: Image, interpImage: Option<Image>, r: Range)
    requires page > 0 && r == Range(block.base, sp) && Describes(main, image, page) && MatchingImages(interp, interpImage, page) && AllGranted(k, main, interp)
    requires IsTransferred(block, sp, page, addr1, addr2, main, interp, rawPath, info) && InMemory(block, mem) && sp <= WORD
    requires NamesLead(k.files, main, interp, image, interpImage)
    requires AllPlacedWell(WholeImage(image, interpImage), page) && NoClobber(WholeImage(image, interpImage), page)
    requires ClearOf(WholeImage(image, interpImage), page, r) && ClearOf(WholeImage(image, interpImage), page, own)
    ensures var end := RunFrom(k, own, Running(mem, None, 0, true), block.base);
            && ProgramLoaded(end, info, main, interp, WholeImage(image, interpImage))
            && SameOn(mem, end.mem, r) && SameOn(mem, end.mem, own)
  {
    ImagesClear(main, interp, image, interpImage, page, r);
    ImagesClear(main, interp, image, interpImage, page, own);
    ScriptKeepsClear(sp, page, addr1, addr2, main, interp, info, r, own);
    BothPlaced((m, p) => PlaceOne(m, p, page), mem, main, interp, image, interpImage, FileOf(interpImage, image), page);
    BlockRuns(k, own, block, mem, sp, page, rawPath, main, interp, image, interpImage, addr1, addr2, info, r);
    EverythingInPlace(mem, WholeImage(image, interpImage), page, r, own);
  }

  lemma EverythingInPlace(mem: Memory, ps: seq<Placed>, page: nat, block: Range, own: Range)
    requires AllPlacedWell(ps, page) && NoClobber(ps, page) && ClearOf(ps, page, block) && ClearOf(ps, page, own)
    ensures var end := AllPlaced(mem, ps, page);
            (forall i :: 0 <= i < |ps| ==> HoldsImage(end, ps[i])) && SameOn(mem, end, block) && SameOn(mem, end, own)
  {
    LoadedImage(mem, ps, page);
    PlacedKeeps(mem, ps, page, block);
    PlacedKeeps(mem, ps, page, own);
  }

  /** Two objects in ascending order each, apart from one another: enough for
      nothing to be overwritten. */
  lemma ApartNeverClobbers(image: Image, interpImage: Option<Image>, page: nat)
    requires page > 0 && Ascending(image.segments, page) && (interpImage.Some? ==> Ascending(interpImage.value.segments, page))
    requires PagesApart(PlaceAll(image.segments, image.base, image.file), InterpImage(interpImage), page)
    ensures NoClobber(WholeImage(image, interpImage), page)
  {
    AscendingNeverClobbers(image.segments, image.base, image.file, page);
    if interpImage.Some? {
      AscendingNeverClobbers(interpImage.value.segments, interpImage.value.base, interpImage.value.file, page);
    }
    var ours, theirs := PlaceAll(image.segments, image.base, image.file), InterpImage(interpImage);
    forall i, j | 0 <= i < j < |ours + theirs|
      ensures Start((ours + theirs)[i]) + (ours + theirs)[i].segment.memsz <= FirstPage((ours + theirs)[j], page)
              || PagesEnd((ours + theirs)[j], page) <= Start((ours + theirs)[i])
    {
      if i >= |ours| {
        assert (ours + theirs)[i] == theirs[i - |ours|] && (ours + theirs)[j] == theirs[j - |ours|];
      } else if j >= |ours| {
        assert (ours + theirs)[j] == theirs[j - |ours|];
      }
    }
  }

  /** No page of theirs reaches into a segment of ours. */
  ghost predicate PagesApart(ours: seq<Placed>, theirs: seq<Placed>, page: nat)
    requires page > 0
  {
    forall i, j :: 0 <= i < |ours| && 0 <= j < |theirs| ==>
      Start(ours[i]) + ours[i].segment.memsz <= FirstPage(theirs[j], page) || PagesEnd(theirs[j], page) <= Start(ours[i])
  }

  // ----- all of it -----

  /** An ELF file as execve finds it. */
  datatype Elf = Elf(segments: seq<Segment>, dynamic: bool, file: File, path: string, entry: nat, phoff: nat, phentsize: nat,
    phnum: nat, execStack: bool)

  /** The object compute_load_addresses leaves of it. */
  function ObjectFrom(elf: Elf, mappings: seq<Mapping>, pic: nat): Object {
    var base := LoadBase(elf.dynamic, mappings, pic);
    Object(Rebased(mappings, base), if base == 0 then elf.entry else Plus(elf.entry, base),
           elf.phoff, elf.phentsize, elf.phnum, elf.path, elf.execStack)
  }

  function ObjectOf(elf: Elf, pic: nat, page: nat): Object
    requires page > 0
  {
    ObjectFrom(elf, AllMappings(elf.segments, page), pic)
  }

  function ImageOf(elf: Elf, pic: nat, page: nat): Image
    requires page > 0
  {
    Image(elf.segments, LoadBase(elf.dynamic, AllMappings(elf.segments, page), pic), elf.file)
  }

  function InterpObject(interp: Option<Elf>, page: nat): Option<Object>
    requires page > 0
  {
    if interp.Some? then Some(ObjectOf(interp.value, INTERP_PIC_ADDRESS, page)) else None
  }

  function InterpImageOf(interp: Option<Elf>, page: nat): Option<Image>
    requires page > 0
  {
    if interp.Some? then Some(ImageOf(interp.value, INTERP_PIC_ADDRESS, page)) else None
  }

  lemma {:induction false} MappingsInWord(segments: seq<Segment>, page: nat)
    requires page > 0 && forall i :: 0 <= i < |segments| ==> Loadable(segments[i], page)
    ensures forall i :: 0 <= i < |AllMappings(segments, page)| ==> AllMappings(segments, page)[i].addr < WORD
  {
    if |segments| > 0 { MappingsInWord(segments[..|segments| - 1], page); }
  }

  lemma UnshiftedIsItself(mappings: seq<Mapping>)
    requires forall i :: 0 <= i < |mappings| ==> mappings[i].addr < WORD
    ensures AllShifted(mappings, 0) == mappings
  {
    forall i | 0 <= i < |mappings| ensures Shifted(mappings[i], 0) == mappings[i] {
      assert Plus(mappings[i].addr, 0) == mappings[i].addr;
    }
  }

  /** With or without a load bias, the mappings are those of the headers at their
      base. */
  lemma RebasedDescribes(elf: Elf, pic: nat, page: nat)
    requires page > 0 && |elf.segments| > 0 && forall i :: 0 <= i < |elf.segments| ==> Loadable(elf.segments[i], page)
    ensures Describes(ObjectOf(elf, pic, page), ImageOf(elf, pic, page), page)
  {
    MappingsInWord(elf.segments, page);
    UnshiftedIsItself(AllMappings(elf.segments, page));
  }

  /** What a file has to promise: well-formed headers in ascending order. */
  ghost predicate WellFormed(elf: Elf, page: nat) {
    && page > 0 && |elf.segments| > 0 && Ascending(elf.segments, page)
    && forall i :: 0 <= i < |elf.segments| ==> Loadable(elf.segments[i], page)
  }

  /** What the address space has to have room for: both images, apart from one
      another, from the stack block and from the loader. */
  ghost predicate RoomFor(image: Image, interpImage: Option<Image>, page: nat, block: Range, own: Range) {
    && AllPlacedWell(WholeImage(image, interpImage), page)
    && PagesApart(PlaceAll(image.segments, image.base, image.file), InterpImage(interpImage), page)
    && ClearOf(WholeImage(image, interpImage), page, block) && ClearOf(WholeImage(image, interpImage), page, own)
  }

  /** Everything the load depends on; block is where the script will stand. */
  ghost predicate Loads(k: Kernel, own: Range, sp: nat, page: nat, main: Object, interp: Option<Object>, rawPath: Option<string>,
                        image: Image, interpImage: Option<Image>, block: Range)
  {
    && page > 0 && |main.mappings| > 0 && sp <= WORD && interp.Some? == interpImage.Some?
    && StringsAt(sp, main, interp, rawPath) == block.lo + 8 * ScriptWords(main, interp) && block.hi == sp
    && NamesLead(k.files, main, interp, image, interpImage) && AllGranted(k, main, interp)
    && RoomFor(image, interpImage, page, block, own)
  }

  /** transfer_load_script, with its block written into memory. */
  method TransferBlock(mem: Memory, sp: nat, page: nat, main: Object, interp: Option<Object>, rawPath: Option<string>,
                       ghost addr1: nat, ghost addr2: nat, ghost info: StartInfo)
    returns (block: Block, after: Memory)
    requires page > 0 && |main.mappings| > 0 && 8 * ScriptWords(main, interp) <= StringsAt(sp, main, interp, rawPath)
    requires addr1 == StringsAt(sp, main, interp, rawPath) && addr2 == addr1 + |main.userPath| + 1
    requires info == ScriptInfo(sp, main, interp, rawPath) && ScriptFits(sp, page, main, interp, info, addr1, addr2)
    ensures IsTransferred(block, sp, page, addr1, addr2, main, interp, rawPath, info) && InMemory(block, after)
  {
    block := Transfer(sp, page, main, interp, rawPath, addr1, addr2, info);
    after := Written(mem, block);
    WrittenIsInMemory(mem, block);
  }

  method Transfer(sp: nat, page: nat, main: Object, interp: Option<Object>, rawPath: Option<string>,
                  ghost addr1: nat, ghost addr2: nat, ghost info: StartInfo)
    returns (block: Block)
    requires page > 0 && |main.mappings| > 0 && 8 * ScriptWords(main, interp) <= StringsAt(sp, main, interp, rawPath)
    requires addr1 == StringsAt(sp, main, interp, rawPath) && addr2 == addr1 + |main.userPath| + 1
    requires info == ScriptInfo(sp, main, interp, rawPath)
    ensures IsTransferred(block, sp, page, addr1, addr2, main, interp, rawPath, info)
  {
    block := TransferLoadScript(sp, page, main, interp, rawPath);
  }

  /** Every number of the script fits its word. */
  ghost predicate ScriptFits(sp: nat, page: nat, main: Object, interp: Option<Object>, info: StartInfo, addr1: nat, addr2: nat)
    requires page > 0
  {
    WordsFit(EncodeAll(ScriptOf(sp, page, addr1, addr2, main, interp, info)))
  }

  method ReadHeaders(elf: Elf, page: nat) returns (l: LoadInfo)
    requires page > 0
    ensures fresh(l) && l.mappings == AllMappings(elf.segments, page) && l.entry == elf.entry && l.dynamic == elf.dynamic
  {
    l := new LoadInfo(elf.dynamic, elf.entry, page);
    l.MapSegments(elf.segments);
    assert [] + AllMappings(elf.segments, page) == AllMappings(elf.segments, page);
  }

  /** Headers to mappings, and mappings to their addresses. */
  method Addressed(main: Elf, interp: Option<Elf>, page: nat, ghost mappings: seq<Mapping>, ghost m: Object, ghost i: Option<Object>)
    returns (objects: (Object, Option<Object>))
    requires page > 0 && mappings == AllMappings(main.segments, page) && |mappings| > 0
    requires m == ObjectFrom(main, mappings, EXEC_PIC_ADDRESS) && i == InterpObject(interp, page)
    ensures objects == (m, i)
  {
    var l := ReadHeaders(main, page);
    var theirs: Option<Object>;
    if interp.None? {
      ComputeLoadAddresses(l, None);
      theirs := None;
    } else {
      var il := ReadHeaders(interp.value, page);
      theirs := AddressedPair(l, il, interp.value, il.mappings);
    }
    objects := (Object(l.mappings, l.entry, main.phoff, main.phentsize, main.phnum, main.path, main.execStack), theirs);
  }

  method AddressedPair(l: LoadInfo, il: LoadInfo, e: Elf, ghost mappings: seq<Mapping>) returns (i: Option<Object>)
    requires l != il && |l.mappings| > 0 && il.mappings == mappings && il.entry == e.entry && il.dynamic == e.dynamic
    modifies l, il
    ensures var base := LoadBase(l.dynamic, old(l.mappings), EXEC_PIC_ADDRESS);
            l.mappings == Rebased(old(l.mappings), base) && l.entry == (if base == 0 then old(l.entry) else Plus(old(l.entry), base))
    ensures i == Some(ObjectFrom(e, mappings, INTERP_PIC_ADDRESS))
  {
    ComputeLoadAddresses(l, Some(il));
    i := Some(Object(il.mappings, il.entry, e.phoff, e.phentsize, e.phnum, e.path, e.execStack));
  }

  method Replayed(k: Kernel, own: Range, mem: Memory, script: nat, stack: array<nat>, ghost envs: nat, ghost pairs: nat, ghost end: Machine,
                  ghost main: Object, ghost interp: Option<Object>, ghost info: StartInfo, ghost ps: seq<Placed>)
    returns (outcome: Outcome, p: Process)
    requires end == RunFrom(k, own, Running(mem, None, 0, true), script) && ProgramLoaded(end, info, main, interp, ps)
    requires InitialStack(stack[..], envs, pairs)
    modifies stack
    ensures outcome == Branch(info, false)
    ensures stack[..] == Patched(old(stack[..]), envs, pairs, info, p.atBase)
    ensures |main.mappings| > 0 && (interp.Some? ==> |interp.value.mappings| > 0)
    ensures p.atBase == if interp.Some? then interp.value.mappings[0].addr else main.mappings[0].addr
    ensures forall q :: q in ps ==> HoldsImage(p.mem, q)
  {
    p := new Process(k, own, mem);
    outcome := p.Start(script, stack, envs, pairs);
    SameImages(end.mem, p.mem, ps);
  }

  /** Mapping, transferring and replaying, in that order. */
  method RunProgram(k: Kernel, own: Range, mem: Memory, sp: nat, page: nat, main: Elf, interp: Option<Elf>, rawPath: Option<string>,
                     stack: array<nat>, ghost envs: nat, ghost pairs: nat, ghost m: Object, ghost i: Option<Object>,
                     ghost image: Image, ghost interpImage: Option<Image>, ghost addr1: nat, ghost addr2: nat,
                     ghost info: StartInfo, ghost room: Range)
    returns (outcome: Outcome, p: Process)
    requires WellFormed(main, page) && (interp.Some? ==> WellFormed(interp.value, page))
    requires m == ObjectOf(main, EXEC_PIC_ADDRESS, page) && i == InterpObject(interp, page)
    requires image == ImageOf(main, EXEC_PIC_ADDRESS, page) && interpImage == InterpImageOf(interp, page)
    requires Loads(k, own, sp, page, m, i, rawPath, image, interpImage, room)
    requires addr1 == StringsAt(sp, m, i, rawPath) && addr2 == addr1 + |m.userPath| + 1
    requires info == ScriptInfo(sp, m, i, rawPath) && ScriptFits(sp, page, m, i, info, addr1, addr2)
    requires InitialStack(stack[..], envs, pairs)
    modifies stack
    ensures outcome == Branch(info, false)
    ensures stack[..] == Patched(old(stack[..]), envs, pairs, info, p.atBase)
    ensures |m.mappings| > 0 && (i.Some? ==> |i.value.mappings| > 0)
    ensures p.atBase == if i.Some? then i.value.mappings[0].addr else m.mappings[0].addr
    ensures forall q :: q in WholeImage(image, interpImage) ==> HoldsImage(p.mem, q)
  {
    BothDescribed(main, interp, page, m, i, image, interpImage);
    var objects := Addressed(main, interp, page, AllMappings(main.segments, page), m, i);
    var block, after := TransferBlock(mem, sp, page, objects.0, objects.1, rawPath, addr1, addr2, info);
    LoadsRun(k, own, block, after, sp, page, rawPath, m, i, image, interpImage, addr1, addr2, info, room);
    outcome, p := Replayed(k, own, after, block.base, stack, envs, pairs,
                           RunFrom(k, own, Running(after, None, 0, true), block.base), m, i, info, WholeImage(image, interpImage));
  }

  /** execve from the program headers to the first instruction of the program: the
      tracer's half, and the loader's.  m, i, image and interpImage are what the two
      files are to become, room is where the script will stand. */
  method LoadProgram(k: Kernel, own: Range, mem: Memory, sp: nat, page: nat, main: Elf, interp: Option<Elf>, rawPath: Option<string>,
                     stack: array<nat>, ghost envs: nat, ghost pairs: nat, ghost m: Object, ghost i: Option<Object>,
                     ghost image: Image, ghost interpImage: Option<Image>, ghost addr1: nat, ghost addr2: nat,
                     ghost info: StartInfo, ghost room: Range)
    returns (outcome: Outcome, p: Process)
    requires WellFormed(main, page) && (interp.Some? ==> WellFormed(interp.value, page))
    requires m == ObjectOf(main, EXEC_PIC_ADDRESS, page) && i == InterpObject(interp, page)
    requires image == ImageOf(main, EXEC_PIC_ADDRESS, page) && interpImage == InterpImageOf(interp, page)
    requires Loads(k, own, sp, page, m, i, rawPath, image, interpImage, room)
    requires addr1 == StringsAt(sp, m, i, rawPath) && addr2 == addr1 + |m.userPath| + 1
    requires info == ScriptInfo(sp, m, i, rawPath) && ScriptFits(sp, page, m, i, info, addr1, addr2)
    requires InitialStack(stack[..], envs, pairs)
    modifies stack
    ensures outcome == Branch(info, false)
    ensures stack[..] == Patched(old(stack[..]), envs, pairs, info, p.atBase)
    ensures info.stackPointer == sp && info.entryPoint == EntryOf(if interp.Some? then interp.value else main, page, interp.Some?)
    ensures var auxv := AuxvAt(old(stack[..]), envs);
            && AuxReads(old(stack[..]), stack[..], auxv, (main.phoff + FirstAddress(main, page, false)) % 0x1_0000_0000_0000_0000,
                        main.phentsize, main.phnum, FirstAddress(if interp.Some? then interp.value else main, page, interp.Some?),
                        EntryOf(main, page, false), old(stack[1]))
            && OnlyValues(old(stack[..]), stack[..], auxv, pairs)
    ensures forall q :: q in WholeImage(image, interpImage) ==> HoldsImage(p.mem, q)
  {
    ghost var was := stack[..];
    outcome, p := RunProgram(k, own, mem, sp, page, main, interp, rawPath, stack, envs, pairs, m, i, image, interpImage, addr1, addr2, info, room);
    Numbers(main, interp, rawPath, sp, page, m, i, info);
    PatchedReads(was, envs, pairs, info, p.atBase);
  }

  /** How far an object is moved: one that may stand anywhere, and whose headers
      begin in the first page, goes where its kind goes. */
  function Bias(elf: Elf, page: nat, isInterp: bool): nat
    requires |elf.segments| > 0
  {
    if elf.dynamic && elf.segments[0].vaddr < page then (if isInterp then 0x3f_0000_0000 else 0x30_0000_0000) else 0
  }

  /** The page where an object begins. */
  function FirstAddress(elf: Elf, page: nat, isInterp: bool): nat
    requires |elf.segments| > 0 && page > 0
  {
    elf.segments[0].vaddr - elf.segments[0].vaddr % page + Bias(elf, page, isInterp)
  }

  function EntryOf(elf: Elf, page: nat, isInterp: bool): nat
    requires |elf.segments| > 0
  {
    if Bias(elf, page, isInterp) == 0 then elf.entry else (elf.entry + Bias(elf, page, isInterp)) % 0x1_0000_0000_0000_0000
  }

  lemma ObjectNumbers(elf: Elf, page: nat, isInterp: bool)
    requires WellFormed(elf, page)
    ensures var o := ObjectOf(elf, if isInterp then INTERP_PIC_ADDRESS else EXEC_PIC_ADDRESS, page);
            && |o.mappings| > 0 && o.mappings[0].addr == FirstAddress(elf, page, isInterp) && o.entry == EntryOf(elf, page, isInterp)
  {
    FirstMapping(elf.segments, page);
    FloorIsZero(elf.segments[0].vaddr, page);
  }

  /** What the script says, as numbers of the headers. */
  lemma Numbers(main: Elf, interp: Option<Elf>, rawPath: Option<string>, sp: nat, page: nat, m: Object, i: Option<Object>, info: StartInfo)
    requires WellFormed(main, page) && (interp.Some? ==> WellFormed(interp.value, page))
    requires m == ObjectOf(main, EXEC_PIC_ADDRESS, page) && i == InterpObject(interp, page)
    requires |m.mappings| > 0 && StringsAt(sp, m, i, rawPath) >= 0 && info == ScriptInfo(sp, m, i, rawPath)
    ensures info.stackPointer == sp && info.entryPoint == EntryOf(if interp.Some? then interp.value else main, page, interp.Some?)
    ensures info.atPhdr == (main.phoff + FirstAddress(main, page, false)) % 0x1_0000_0000_0000_0000
    ensures info.atPhent == main.phentsize && info.atPhnum == main.phnum && info.atEntry == EntryOf(main, page, false)
    ensures i.Some? ==> |i.value.mappings| > 0
    ensures (if i.Some? then i.value.mappings[0].addr else m.mappings[0].addr) ==
            FirstAddress(if interp.Some? then interp.value else main, page, interp.Some?)
  {
    ObjectNumbers(main, page, false);
    if interp.Some? { ObjectNumbers(interp.value, page, true); }
  }

  lemma FloorIsZero(x: nat, page: nat)
    requires page > 0
    ensures x - x % page == 0 <==> x < page
  {
    if x < page { assert x % page == x; }
  }

  lemma BothDescribed(main: Elf, interp: Option<Elf>, page: nat, m: Object, i: Option<Object>, image: Image, interpImage: Option<Image>)
    requires WellFormed(main, page) && (interp.Some? ==> WellFormed(interp.value, page))
    requires m == ObjectOf(main, EXEC_PIC_ADDRESS, page) && i == InterpObject(interp, page)
    requires image == ImageOf(main, EXEC_PIC_ADDRESS, page) && interpImage == InterpImageOf(interp, page)
    ensures Describes(m, image, page) && MatchingImages(i, interpImage, page) && |AllMappings(main.segments, page)| > 0
    ensures Ascending(image.segments, page) && (interpImage.Some? ==> Ascending(interpImage.value.segments, page))
  {
    FirstMapping(main.segments, page);
    RebasedDescribes(main, EXEC_PIC_ADDRESS, page);
    if interp.Some? { RebasedDescribes(interp.value, INTERP_PIC_ADDRESS, page); }
  }

  lemma SameImages(a: Memory, b: Memory, ps: seq<Placed>)
    requires Same(b, a) && forall i :: 0 <= i < |ps| ==> HoldsImage(a, ps[i])
    ensures forall q :: q in ps ==> HoldsImage(b, q)
  {
    forall q | q in ps ensures HoldsImage(b, q) {
      var i :| 0 <= i < |ps| && ps[i] == q;
      assert HoldsImage(a, ps[i]);
    }
  }

  /** What has been prepared runs as it should. */
  lemma LoadsRun(k: Kernel, own: Range, block: Block, mem: Memory, sp: nat, page: nat, rawPath: Option<string>, main: Object,
                 interp: Option<Object>, image: Image, interpImage: Option<Image>, addr1: nat, addr2: nat, info: StartInfo, room: Range)
    requires page > 0 && Describes(main, image, page) && MatchingImages(interp, interpImage, page)
    requires Ascending(image.segments, page) && (interpImage.Some? ==> Ascending(interpImage.value.segments, page))
    requires Loads(k, own, sp, page, main, interp, rawPath, image, interpImage, room) && addr1 == StringsAt(sp, main, interp, rawPath)
    requires IsTransferred(block, sp, page, addr1, addr2, main, interp, rawPath, info) && InMemory(block, mem)
    ensures ProgramLoaded(RunFrom(k, own, Running(mem, None, 0, true), block.base), info, main, interp, WholeImage(image, interpImage))
  {
    BlockBegins(block, sp, page, addr1, addr2, main, interp, rawPath, info);
    ApartNeverClobbers(image, interpImage, page);
    ScriptLoadsProgram(k, own, block, mem, sp, page, addr1, addr2, rawPath, main, interp, info, image, interpImage, room);
  }

  lemma BlockBegins(block: Block, sp: nat, page: nat, addr1: nat, addr2: nat, main: Object, interp: Option<Object>,
                    rawPath: Option<string>, info: StartInfo)
    requires page > 0 && IsTransferred(block, sp, page, addr1, addr2, main, interp, rawPath, info)
    ensures block.base + 8 * ScriptWords(main, interp) == addr1
  {
    ScriptLength(sp, page, addr1, addr2, main, interp, info);
  }

  /** script_sz is the size of the script. */
  lemma ScriptLength(sp: nat, page: nat, addr1: nat, addr2: nat, main: Object, interp: Option<Object>, info: StartInfo)
    requires page > 0
    ensures |EncodeAll(ScriptOf(sp, page, addr1, addr2, main, interp, info))| == ScriptWords(main, interp)
  {
    var open, maps := [Open(addr1)], MmapStatements(main.mappings);
    var next, stack := InterpPart(addr2, interp), StackPart(sp, page, NeedsExecStack(main, interp));
    EncodeAllConcat(open, maps);
    EncodeAllConcat(open + maps, next);
    EncodeAllConcat(open + maps + next, stack);
    EncodeAllConcat(open + maps + next + stack, [Begin(info, false)]);
    EncodeOne(Open(addr1));
    EncodeOne(Begin(info, false));
    MappingsLength(main.mappings, maps);
    if interp.Some? {
      EncodeAllConcat([OpenNext(addr2)], MmapStatements(interp.value.mappings));
      EncodeOne(OpenNext(addr2));
      MappingsLength(interp.value.mappings, MmapStatements(interp.value.mappings));
    }
    if NeedsExecStack(main, interp) { EncodeOne(MakeStackExec(Floor(sp, page))); }
  }

  lemma {:induction false} MappingsLength(mappings: seq<Mapping>, statements: seq<Statement>)
    requires statements == MmapStatements(mappings)
    ensures |EncodeAll(statements)| == 6 * |mappings|
    decreases |mappings|
  {
    if |mappings| > 0 {
      assert statements[1..] == MmapStatements(mappings[1..]);
      MappingsLength(mappings[1..], statements[1..]);
    }
  }
}
