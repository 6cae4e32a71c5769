/** brk emulated with one private mapping (src/syscall/heap.c): the break is kept
    a page above the mapping's start, and moved with mremap. */
module Heap {
  import opened Wrappers

  const WORD: int := 0x1_0000_0000_0000_0000

  /** The system call made in brk's place, and its register arguments. */
  datatype Call =
    | Brk(request: int)
    | Mmap(hint: int, length: int)
    | Mremap(start: int, oldLength: int, newLength: int)
    | Void

  /** A mapping the kernel holds: its first byte and its length, in whole pages. */
  datatype Mapping = Mapping(start: int, length: int)

  predicate IsError(result: int) {
    WORD - 4096 < result < WORD
  }

  function RoundUp(x: int, page: int): int
    requires page > 0
  {
    (x + page - 1) / page * page
  }

  /** Whole pages, and no more of them than it takes; the errors are the 4095 values
      below the top. */
  lemma PagesAndErrors(x: int, page: int)
    requires page > 0 && x >= 0
    ensures RoundUp(x, page) % page == 0 && x <= RoundUp(x, page) < x + page
    ensures IsError(x) <==> 0xffff_ffff_ffff_f001 <= x <= 0xffff_ffff_ffff_ffff
  {
    var y := x + page - 1;
    assert y == y / page * page + y % page;
    MultipleOfPage(y / page, page);
  }

  lemma MultipleOfPage(k: int, page: int)
    requires page > 0
    ensures k * page % page == 0
  {
    var q, r := k * page / page, k * page % page;
    assert page * (k - q) == r;
    assert k - q >= 1 ==> page * (k - q) >= page;
    assert k - q <= -1 ==> page * (k - q) <= -page;
  }

  /** What the kernel may answer.  mmap picks a place of its own and never the
      lowest page; mremap without MREMAP_MAYMOVE keeps the start. */
  predicate MayAnswer(call: Call, heap: Option<Mapping>, page: int, result: int, after: Option<Mapping>)
    requires page > 0
  {
    && 0 <= result < WORD
    && match call
       case Brk(_) => after == heap
       case Void => after == heap
       case Mmap(_, length) =>
         if IsError(result) then after == heap
         else 0 < result && result + RoundUp(length, page) < WORD && after == Some(Mapping(result, RoundUp(length, page)))
       case Mremap(start, oldLength, newLength) =>
         if IsError(result) then after == heap
         else
           heap.Some? && heap.value.start == start == result && RoundUp(oldLength, page) == heap.value.length
           && start + RoundUp(newLength, page) < WORD && after == Some(Mapping(start, RoundUp(newLength, page)))
  }

  class Tracee {
    var base: int
    var size: int
    var disabled: bool
    const page: int
    const bssEnd: int                // end of the program's last mapping
    var region: Option<Mapping>      // the kernel's side

    /** Once there is a heap, the break lies within its one mapping, which starts
        a page below the base. */
    ghost predicate Valid()
      reads this
    {
      && 0 < page
      && 0 <= base && 0 <= size
      && (base == 0 ==> size == 0)
      && (base != 0 ==>
            && region.Some? && region.value.start == base - page > 0
            && region.value.length == RoundUp(size + page, page)
            && base + size <= region.value.start + region.value.length < WORD)
    }

    constructor (page: int, bssEnd: int)
      requires page > 0
      ensures Valid() && base == 0 && !disabled && this.page == page && this.bssEnd == bssEnd
    {
      base, size, disabled := 0, 0, false;
      this.page, this.bssEnd := page, bssEnd;
      region := None;
    }

    /** translate_brk_enter */
    method Enter(request: int) returns (call: Call)
      requires Valid() && 0 <= request < WORD
      ensures disabled || (base == 0 && request != 0) ==> call == Brk(request)
      ensures !disabled && base == 0 && request == 0 ==> call == Mmap(bssEnd, page)
      ensures !disabled && base != 0 && request < base ==> call == Void
      ensures !disabled && base != 0 && request >= base ==> call == Mremap(base - page, size + page, request - base + page)
    {
      if disabled {
        return Brk(request);
      }
      if base == 0 {
        if request != 0 {
          return Brk(request);
        }
        return Mmap(bssEnd, page);
      }
      if request < base {
        return Void;
      }
      var newSize := request - base;
      return Mremap(base - page, size + page, newSize + page);
    }

    /** translate_brk_exit */
    method Exit(request: int, call: Call, result: int) returns (reported: int)
      requires !disabled && 0 <= result < WORD
      modifies this`base, this`size, this`disabled
      ensures match call
              case Void => base == old(base) && size == old(size) && disabled == old(disabled) && reported == base + size
              case Mmap(_, _) =>
                && disabled == old(disabled)
                && if IsError(result) then base == old(base) && size == old(size) && reported == 0
                   else base == result + page && size == 0 && reported == base
              case Mremap(_, _, newLength) =>
                && disabled == old(disabled) && base == old(base) && reported == base + size
                && size == if IsError(result) || base != result + page then old(size) else newLength - page
              case Brk(_) => base == old(base) && size == old(size) && reported == result && disabled == (result == request)
    {
      reported := result;
      match call {
        case Void =>
          reported := base + size;
        case Mmap(_, _) =>
          if IsError(result) {
            reported := 0;
          } else {
            base, size := result + page, 0;
            reported := base;
          }
        case Mremap(_, _, newLength) =>
          if !(IsError(result) || base != result + page) {
            size := newLength - page;
          }
          reported := base + size;
        case Brk(_) =>
          if result == request {
            disabled := true;
          }
      }
    }

    /** A whole request, whatever the kernel answers.  With a heap, the caller is
        told the break, which has moved to the request if the kernel agreed and
        has not moved otherwise; asking for nothing tells where it is. */
    method Request(request: int, result: int, after: Option<Mapping>) returns (reported: int)
      requires Valid() && !disabled && 0 <= request < WORD
      requires MayAnswer(CallFor(request), region, page, result, after)
      modifies this
      ensures Valid() && region == after
      ensures base != 0 ==> reported == base + size
      ensures old(base) != 0 ==> base == old(base) && !disabled
      ensures old(base) != 0 ==>
                reported == if request < base || IsError(result) then base + old(size) else request
    {
      var made := Enter(request);
      if base != 0 && request >= base {
        RoundCovers(request - base + page, page);
      }
      RoundCovers(0 + page, page);
      region := after;
      reported := Exit(request, made, result);
    }

    /** What Enter chooses. */
    function CallFor(request: int): Call
      reads this
    {
      if disabled || (base == 0 && request != 0) then Brk(request)
      else if base == 0 then Mmap(bssEnd, page)
      else if request < base then Void
      else Mremap(base - page, size + page, request - base + page)
    }
  }

  lemma RoundCovers(x: int, page: int)
    requires page > 0 && x >= 0
    ensures x <= RoundUp(x, page)
  {}

  // ----- every run -----

  /** The heap as brk(2) describes it: where it begins, and the break. */
  datatype Break = Break(start: int, current: int)

  /** What brk(2) promises of one request: the break is where it was asked to be,
      or where it was. */
  predicate BreakMoves(before: Break, request: int, reported: int, after: Break) {
    && after.start == before.start
    && reported == after.current
    && (after.current == request || after.current == before.current)
    && after.current >= after.start
    && (request < before.start ==> after.current == before.current)
  }

  /** An answer the kernel may give: any of them. */
  method Kernel(call: Call, heap: Option<Mapping>, page: int) returns (result: int, after: Option<Mapping>)
    requires page > 0
    ensures MayAnswer(call, heap, page, result, after)
  {
    assert MayAnswer(call, heap, page, WORD - 1, heap);
    result, after :| MayAnswer(call, heap, page, result, after);
  }

  /** Any number of requests: each does what brk(2) promises, whatever the kernel
      answers. */
  method Serve(t: Tracee, requests: seq<int>) returns (reported: seq<int>, breaks: seq<Break>)
    requires t.Valid() && t.base != 0 && !t.disabled
    requires forall i :: 0 <= i < |requests| ==> 0 <= requests[i] < WORD
    modifies t
    ensures t.Valid() && t.base != 0 && !t.disabled && |reported| == |requests| && |breaks| == |requests| + 1
    ensures breaks[0] == old(Break(t.base, t.base + t.size)) && breaks[|requests|] == Break(t.base, t.base + t.size)
    ensures forall i :: 0 <= i < |requests| ==> BreakMoves(breaks[i], requests[i], reported[i], breaks[i + 1])
  {
    reported, breaks := [], [Break(t.base, t.base + t.size)];
    for i := 0 to |requests|
      invariant t.Valid() && t.base != 0 && !t.disabled && |reported| == i && |breaks| == i + 1
      invariant breaks[0] == old(Break(t.base, t.base + t.size)) && breaks[i] == Break(t.base, t.base + t.size)
      invariant forall k :: 0 <= k < i ==> BreakMoves(breaks[k], requests[k], reported[k], breaks[k + 1])
    {
      var result, after := Kernel(t.CallFor(requests[i]), t.region, t.page);
      var told := t.Request(requests[i], result, after);
      reported, breaks := reported + [told], breaks + [Break(t.base, t.base + t.size)];
    }
  }
}
