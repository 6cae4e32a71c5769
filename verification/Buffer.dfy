/** The byte queue of src/backend/um_supervisor.c: a window of a block that is
    compacted, then doubled, but never beyond a limit. */
module Buffer {
  const FIRST_CAPACITY: nat := 4096

  datatype Write = Took(n: nat) | Again | Failed

  class UmBuffer {
    var data: array<int>
    var start: nat
    var end: nat
    const limit: nat
    ghost var appended: seq<int>  // everything ever taken in
    ghost var flushed: seq<int>   // everything ever given out

    /** A first-in first-out queue within its bounds. */
    ghost predicate Valid()
      reads this, data
    {
      var result :=
        && start <= end <= data.Length
        && end - start <= limit
        && data.Length <= (if limit < FIRST_CAPACITY then FIRST_CAPACITY else limit)
        && appended == flushed + data[start..end];
      result
    }

    ghost function Contents(): (c: seq<int>)
      requires start <= end <= data.Length
      reads this, data
      ensures |c| == end - start
    {
      data[start..end]
    }

    constructor (limit: nat)
      ensures Valid() && fresh(data) && this.limit == limit && Contents() == [] && appended == [] && flushed == []
    {
      data := new int[0];
      start, end, appended, flushed := 0, 0, [], [];
      this.limit := limit;
    }

    /** memmove to the front. */
    method Compact()
      requires Valid()
      modifies this`start, this`end, data
      ensures Valid() && start == 0 && Contents() == old(Contents())
    {
      ghost var was := data[start..end];
      var length := end - start;
      var i := 0;
      while i < length
        invariant 0 <= i <= length && start == old(start) && end == old(end)
        invariant forall k :: 0 <= k < i ==> data[k] == was[k]
        invariant forall k :: start + i <= k < end ==> data[k] == was[k - start]
      {
        data[i] := data[start + i];
        i := i + 1;
      }
      start, end := 0, length;
      assert data[start..end] == was;
    }

    /** The doubling loop: enough, and within the limit once it has grown. */
    static method Grow(capacity: nat, needed: nat, limit: nat) returns (r: nat)
      requires needed <= limit
      ensures needed <= r && (r <= FIRST_CAPACITY || r <= limit || r == capacity)
      ensures capacity <= r || r == limit
    {
      r := if capacity == 0 then FIRST_CAPACITY else capacity;
      while r < needed
        invariant 0 < r
        invariant r == capacity || r == FIRST_CAPACITY || r <= limit
        invariant capacity <= r
        decreases limit - r
      {
        if r > limit / 2 {
          return limit;
        }
        r := r * 2;
      }
    }

    /** um_buffer_reserve: room for more bytes.  It fails only where the limit
        would be exceeded, or where the allocator fails. */
    method Reserve(additional: nat, allocates: bool) returns (ok: bool)
      requires Valid()
      modifies this`data, this`start, this`end, data
      ensures Valid() && Contents() == old(Contents()) && (data == old(data) || fresh(data))
      ensures ok ==> end + additional <= data.Length && end - start + additional <= limit
      ensures !ok ==> old(end - start) + additional > limit || !allocates
    {
      var length := end - start;
      if additional > limit - length {
        return false;
      }
      var needed := length + additional;
      if needed <= data.Length - start {
        return true;
      }
      if start != 0 {
        Compact();
        if needed <= data.Length {
          return true;
        }
      }
      var capacity := Grow(data.Length, needed, limit);
      if !allocates {
        return false;
      }
      Reallocate(capacity);
      return true;
    }

    method Reallocate(capacity: nat)
      requires Valid() && start == 0 && end <= capacity
      requires capacity <= (if limit < FIRST_CAPACITY then FIRST_CAPACITY else limit)
      modifies this`data
      ensures Valid() && fresh(data) && data.Length == capacity && Contents() == old(Contents())
    {
      var replacement := new int[capacity];
      forall k | 0 <= k < end {
        replacement[k] := data[k];
      }
      assert replacement[..end] == data[..end];
      data := replacement;
    }

    /** um_buffer_append: all of it, or nothing. */
    method Append(bytes: seq<int>, allocates: bool) returns (ok: bool)
      requires Valid()
      modifies this, data
      ensures Valid() && (data == old(data) || fresh(data))
      ensures Contents() == old(Contents()) + (if ok then bytes else [])
      ensures appended == old(appended) + (if ok then bytes else []) && flushed == old(flushed)
      ensures !ok ==> |old(Contents())| + |bytes| > limit || !allocates
    {
      ok := Reserve(|bytes|, allocates);
      if !ok {
        return;
      }
      CopyIn(bytes);
      ghost var window := data[start..end + |bytes|];
      end := end + |bytes|;
      appended := appended + bytes;
      assert data[start..end] == window;
    }

    /** memcpy behind the contents. */
    method CopyIn(bytes: seq<int>)
      requires start <= end && end + |bytes| <= data.Length
      modifies data
      ensures data[start..end + |bytes|] == old(data[start..end]) + bytes
    {
      forall k | 0 <= k < |bytes| {
        data[end + k] := bytes[k];
      }
      assert data[end..end + |bytes|] == bytes;
      assert data[start..end + |bytes|] == data[start..end] + data[end..end + |bytes|];
    }

    /** um_buffer_consume */
    method Consume(length: nat)
      requires Valid() && length <= end - start
      modifies this`start, this`end, this`flushed
      ensures Valid() && flushed == old(flushed) + old(Contents())[..length] && Contents() == old(Contents())[length..]
    {
      ghost var was := Contents();
      flushed := flushed + was[..length];
      start := start + length;
      assert data[start..end] == was[length..];
      if start == end {
        start, end := 0, 0;
      }
    }

    /** um_flush_buffer: as much as the descriptor takes, in order; answers is what
        write(2) will say.  A write that would block leaves the rest for later; one
        that fails is reported, and loses nothing either. */
    method Flush(answers: seq<Write>) returns (ok: bool, written: seq<int>)
      requires Valid() && |answers| >= |Contents()| && AllSome(answers)
      modifies this`start, this`end, this`flushed
      ensures Valid() && written + Contents() == old(Contents()) && flushed == old(flushed) + written
      ensures |written| == Taken(|old(Contents())|, answers)
      ensures !ok <==> Fails(|old(Contents())|, answers)
    {
      ok, written := true, [];
      ghost var all, was := Contents(), flushed;
      var turn := 0;
      while start < end
        invariant Valid() && written + Contents() == all && flushed == was + written && ok
        invariant turn <= |answers| && |answers| - turn >= |Contents()|
        invariant |written| + Taken(|Contents()|, answers[turn..]) == Taken(|all|, answers)
        invariant Fails(|Contents()|, answers[turn..]) <==> Fails(|all|, answers)
        decreases end - start
      {
        var write := TryWrite(end - start, answers[turn]);
        assert answers[turn..][0] == answers[turn] && answers[turn..][1..] == answers[turn + 1..];
        if !write.Took? {
          ok := write.Again?;
          return;
        }
        var part := WriteSome(write.n, all, was, written);
        written, turn := written + part, turn + 1;
      }
    }

    /** What write(2) answers, never more than there is. */
    static method TryWrite(count: nat, answer: Write) returns (w: Write)
      requires count > 0 && (answer.Took? ==> answer.n > 0)
      ensures w == if answer.Took? && answer.n > count then Took(count) else answer
    {
      w := if answer.Took? && answer.n > count then Took(count) else answer;
    }

    method WriteSome(n: nat, ghost all: seq<int>, ghost was: seq<int>, ghost written: seq<int>) returns (part: seq<int>)
      requires Valid() && 0 < n <= end - start && written + Contents() == all && flushed == was + written
      modifies this`start, this`end, this`flushed
      ensures Valid() && (written + part) + Contents() == all && flushed == was + (written + part)
      ensures |part| == n && end - start == old(end - start) - n
    {
      ghost var before := Contents();
      part := data[start..start + n];
      assert part == before[..n];
      Consume(n);
      Regroup(written, before, n);
      assert was + (written + part) == (was + written) + part;
    }
  }

  lemma Regroup(a: seq<int>, b: seq<int>, n: nat)
    requires n <= |b|
    ensures (a + b[..n]) + b[n..] == a + b
  {
    assert b == b[..n] + b[n..];
  }

  // ----- what a series of writes comes to -----

  predicate AllSome(answers: seq<Write>) {
    forall i :: 0 <= i < |answers| && answers[i].Took? ==> answers[i].n > 0
  }

  /** How many of n bytes the writes take, up to the first that takes none. */
  function Taken(n: nat, answers: seq<Write>): nat {
    if n == 0 || |answers| == 0 || !answers[0].Took? then 0
    else if answers[0].n >= n then n
    else answers[0].n + Taken(n - answers[0].n, answers[1..])
  }

  /** With bytes left, the first write that takes none fails. */
  predicate Fails(n: nat, answers: seq<Write>) {
    n > 0 && |answers| > 0
    && (answers[0].Failed? || (answers[0].Took? && answers[0].n < n && Fails(n - answers[0].n, answers[1..])))
  }

  function Offered(answers: seq<Write>): nat {
    if |answers| == 0 then 0 else (if answers[0].Took? then answers[0].n else 0) + Offered(answers[1..])
  }

  /** A failure is reported exactly when some write fails before any blocks and
      before those in front of it have taken everything. */
  lemma {:induction false} FailureIsTheFirst(n: nat, answers: seq<Write>)
    requires AllSome(answers)
    ensures Fails(n, answers) <==>
            exists i :: 0 <= i < |answers| && answers[i].Failed? && Offered(answers[..i]) < n
                        && forall j :: 0 <= j < i ==> answers[j].Took?
    decreases |answers|
  {
    if |answers| > 0 {
      var first, rest := answers[0], answers[1..];
      if first.Took? && first.n < n {
        FailureIsTheFirst(n - first.n, rest);
      }
      if Fails(n, answers) {
        if first.Failed? {
          assert answers[..0] == [];
        } else {
          var i :| 0 <= i < |rest| && rest[i].Failed? && Offered(rest[..i]) < n - first.n && forall j :: 0 <= j < i ==> rest[j].Took?;
          assert answers[..i + 1] == [first] + rest[..i] && answers[i + 1] == rest[i];
          assert forall j :: 0 < j < i + 1 ==> answers[j] == rest[j - 1];
        }
      }
      forall i | 0 <= i < |answers| && answers[i].Failed? && Offered(answers[..i]) < n && (forall j :: 0 <= j < i ==> answers[j].Took?)
        ensures Fails(n, answers)
      {
        if i > 0 {
          assert answers[..i] == [first] + rest[..i - 1] && answers[0].Took?;
          assert Offered(answers[..i]) == first.n + Offered(rest[..i - 1]);
          assert rest[i - 1].Failed? && forall j :: 0 <= j < i - 1 ==> rest[j].Took? by {
            forall j | 0 <= j < i - 1 ensures rest[j].Took? { assert answers[j + 1].Took?; }
          }
        }
      }
    }
  }
}
