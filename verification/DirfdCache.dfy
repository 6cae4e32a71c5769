/** The directory-descriptor cache of src/path/path.c: a fixed table with a
    last-hit hint, round-robin eviction, and duplicated host descriptors that it
    owns.  Beside it runs the unbounded table it stands for. */
module DirfdCache {
  const SIZE: nat := 64

  type Key = (int, int)

  datatype Dir = Dir(proc: string, guest: string)

  /** A slot is live when fd is not negative; host is -1 when there is none. */
  datatype Slot = Slot(pid: int, fd: int, host: int, dir: Dir)

  const FREE: Slot := Slot(0, -1, -1, Dir("", ""))

  type Table = seq<Slot>

  function KeyOf(s: Slot): Key {
    (s.pid, s.fd)
  }

  ghost predicate Live(t: Table, i: int) {
    0 <= i < |t| && t[i].fd >= 0
  }

  ghost predicate UniqueKeys(t: Table) {
    forall i, j :: Live(t, i) && Live(t, j) && KeyOf(t[i]) == KeyOf(t[j]) ==> i == j
  }

  /** What is remembered is right; what is right may be forgotten. */
  ghost predicate Agrees(t: Table, ideal: map<Key, Dir>) {
    forall i :: Live(t, i) ==> Right(t[i], ideal)
  }

  ghost predicate Right(s: Slot, ideal: map<Key, Dir>) {
    KeyOf(s) in ideal && ideal[KeyOf(s)] == s.dir && !Refused(s.fd, s.dir)
  }

  /** Agrees, but for what it says about one key. */
  ghost predicate AgreesBeside(t: Table, ideal: map<Key, Dir>, key: Key) {
    forall i :: Live(t, i) && KeyOf(t[i]) != key ==> Right(t[i], ideal)
  }

  /** Every open host descriptor is in exactly one slot, and that one is live. */
  ghost predicate Owns(t: Table, open: set<int>) {
    && (forall i :: 0 <= i < |t| ==> t[i].host >= -1 && (t[i].host >= 0 ==> t[i].host in open && t[i].fd >= 0))
    && (forall i, j :: 0 <= i < |t| && 0 <= j < |t| && t[i].host >= 0 && t[i].host == t[j].host ==> i == j)
    && (forall h :: h in open ==> h >= 0 && exists i :: 0 <= i < |t| && t[i].host == h)
  }

  function HostsOf(s: Slot): set<int> {
    if s.host >= 0 then {s.host} else {}
  }

  /** Putting a slot in the place of another. */
  lemma Replaced(t: Table, open: set<int>, i: nat, s: Slot)
    requires i < |t| && UniqueKeys(t) && Owns(t, open)
    requires s.host >= -1 && (s.host >= 0 ==> s.fd >= 0 && (s.host !in open || s.host == t[i].host))
    requires s.fd >= 0 ==> forall j :: Live(t, j) && KeyOf(t[j]) == KeyOf(s) ==> j == i
    ensures UniqueKeys(t[i := s]) && Owns(t[i := s], open - HostsOf(t[i]) + HostsOf(s))
  {
    var t', open' := t[i := s], open - HostsOf(t[i]) + HostsOf(s);
    forall j, k | Live(t', j) && Live(t', k) && KeyOf(t'[j]) == KeyOf(t'[k]) ensures j == k {
      assert j != i ==> Live(t, j);
      assert k != i ==> Live(t, k);
    }
    forall h | h in open' ensures h >= 0 && exists j :: 0 <= j < |t'| && t'[j].host == h {
      if h == s.host {
        assert t'[i].host == h;
      } else {
        var j :| 0 <= j < |t| && t[j].host == h;
        assert t'[j].host == h;
      }
    }
  }

  ghost predicate Cached(t: Table, key: Key) {
    exists i :: Live(t, i) && KeyOf(t[i]) == key
  }

  /** A table without the live slots that match. */
  function Drop(t: Table, gone: Slot -> bool): (r: Table)
    ensures |r| == |t|
  {
    seq(|t|, i requires 0 <= i < |t| => if t[i].fd >= 0 && gone(t[i]) then FREE else t[i])
  }

  function Is(key: Key): Slot -> bool {
    (s: Slot) => KeyOf(s) == key
  }

  function InRange(pid: int, first: int, last: int): Slot -> bool {
    (s: Slot) => s.pid == pid && first <= s.fd <= last
  }

  function Of(pid: int): Slot -> bool {
    (s: Slot) => s.pid == pid
  }

  lemma DropOne(t: Table, i: nat)
    requires Live(t, i) && UniqueKeys(t)
    ensures Drop(t, Is(KeyOf(t[i]))) == t[i := FREE]
  {
    forall j | 0 <= j < |t| ensures Drop(t, Is(KeyOf(t[i])))[j] == t[i := FREE][j] {
      assert j != i && Live(t, j) ==> KeyOf(t[j]) != KeyOf(t[i]);
    }
  }

  lemma DropNone(t: Table, key: Key)
    requires key.1 < 0 || !Cached(t, key)
    ensures Drop(t, Is(key)) == t
  {
    forall j | 0 <= j < |t| ensures Drop(t, Is(key))[j] == t[j] {
      assert Live(t, j) && KeyOf(t[j]) == key ==> Cached(t, key);
    }
  }

  /** What fork makes of the ideal table. */
  function Inherited(ideal: map<Key, Dir>, parent: int, child: int): map<Key, Dir> {
    var copies := map k: Key | k in (set p | p in ideal.Keys && p.0 == parent :: (child, p.1)) && (parent, k.1) in ideal :: ideal[(parent, k.1)];
    (map k | k in ideal && k.0 != child :: ideal[k]) + copies
  }

  /** After fork the child has exactly what its parent has, and every other process
      what it had. */
  lemma InheritedMeans(ideal: map<Key, Dir>, parent: int, child: int, pid: int, fd: int)
    ensures var now, source := Inherited(ideal, parent, child), (if pid == child then parent else pid, fd);
            && ((pid, fd) in now <==> source in ideal)
            && ((pid, fd) in now ==> now[(pid, fd)] == ideal[source])
  {
    if pid == child && (parent, fd) in ideal {
      assert (child, fd) in (set p | p in ideal.Keys && p.0 == parent :: (child, p.1));
    }
  }

  class Cache {
    var slots: array<Slot>
    var next: nat
    var last: int
    var open: set<int>           // the host descriptors open on the table's behalf
    ghost var spare: set<int>    // those of them a caller still has to place
    ghost var ideal: map<Key, Dir>

    ghost predicate Shape()
      reads this, slots
    {
      var result := slots.Length == SIZE && next < SIZE && -1 <= last < SIZE && UniqueKeys(slots[..]) && spare <= open && Owns(slots[..], open - spare);
      result
    }

    ghost predicate Valid()
      reads this, slots
    {
      Shape() && spare == {} && Agrees(slots[..], ideal)
    }

    constructor ()
      ensures Valid() && fresh(slots) && ideal == map[] && open == {}
    {
      slots := new Slot[SIZE](_ => FREE);
      next, last, open, spare, ideal := 0, -1, {}, {}, map[];
    }

    /** dirfd_cache_slot: the hint only saves the scan. */
    method SlotOf(pid: int, fd: int) returns (slot: int)
      requires Shape()
      modifies this`last
      ensures Shape() && (slot == -1 || (0 <= slot < SIZE))
      ensures slot == -1 <==> fd < 0 || !Cached(slots[..], (pid, fd))
      ensures slot >= 0 ==> Live(slots[..], slot) && KeyOf(slots[slot]) == (pid, fd)
    {
      if fd < 0 {
        return -1;
      }
      if last >= 0 && slots[last].pid == pid && slots[last].fd == fd {
        assert Live(slots[..], last);
        return last;
      }
      var index := 0;
      while index < SIZE
        invariant 0 <= index <= SIZE && last == old(last)
        invariant forall i :: 0 <= i < index ==> KeyOf(slots[i]) != (pid, fd)
      {
        if slots[index].pid == pid && slots[index].fd == fd {
          last := index;
          assert Live(slots[..], index);
          return index;
        }
        index := index + 1;
      }
      return -1;
    }

    /** close_host_dirfd_slot */
    method CloseHost(index: nat)
      requires Shape() && index < SIZE
      modifies this`open, slots
      ensures Shape() && slots[..] == old(slots[..])[index := old(slots[index]).(host := -1)]
    {
      ghost var was, owned := slots[..], open - spare;
      Replaced(was, owned, index, was[index].(host := -1));
      if slots[index].host >= 0 {
        open := open - {slots[index].host};
        slots[index] := slots[index].(host := -1);
      }
      assert slots[..] == was[index := was[index].(host := -1)];
      assert open - spare == owned - HostsOf(was[index]) + HostsOf(was[index].(host := -1));
    }

    /** Closes what the slot holds and fills it anew. */
    method Put(index: nat, s: Slot)
      requires Shape() && index < SIZE
      requires s.host >= -1 && (s.host >= 0 ==> s.host in spare && s.fd >= 0)
      requires s.fd >= 0 ==> forall j :: Live(slots[..], j) && KeyOf(slots[j]) == KeyOf(s) ==> j == index
      modifies this`open, this`spare, slots
      ensures Shape() && slots[..] == old(slots[..])[index := s] && spare == old(spare) - HostsOf(s)
    {
      ghost var was := slots[..];
      CloseHost(index);
      ghost var closed, owned := slots[..], open - spare;
      assert forall j :: Live(closed, j) ==> Live(was, j) && KeyOf(closed[j]) == KeyOf(was[j]);
      Replaced(closed, owned, index, s);
      slots[index] := s;
      spare := spare - HostsOf(s);
      assert slots[..] == closed[index := s];
      assert open - spare == owned - HostsOf(closed[index]) + HostsOf(s);
    }

    /** forget_translated_dirfd */
    method Forget(pid: int, fd: int)
      requires Shape()
      modifies this`open, this`spare, this`last, slots
      ensures Shape() && spare == old(spare) && slots[..] == Drop(old(slots[..]), Is((pid, fd)))
    {
      var slot := SlotOf(pid, fd);
      if slot < 0 {
        DropNone(slots[..], (pid, fd));
        return;
      }
      DropOne(slots[..], slot);
      if last == slot {
        last := -1;
      }
      Put(slot, FREE);
    }

    /** forget_translated_dirfds_range */
    method ForgetRange(pid: int, first: int, upTo: int)
      requires Shape()
      modifies this`open, this`spare, this`last, slots
      ensures Shape() && spare == old(spare) && slots[..] == Drop(old(slots[..]), InRange(pid, first, upTo))
    {
      ghost var was := slots[..];
      var index := 0;
      while index < SIZE
        invariant 0 <= index <= SIZE && Shape() && spare == old(spare) && |was| == SIZE
        invariant forall i :: 0 <= i < index ==> slots[i] == Drop(was, InRange(pid, first, upTo))[i]
        invariant forall i :: index <= i < SIZE ==> slots[i] == was[i]
      {
        var fd := slots[index].fd;
        if slots[index].pid == pid && fd >= 0 && fd >= first && fd <= upTo {
          DropOne(slots[..], index);
          Forget(pid, fd);
        }
        index := index + 1;
      }
      assert slots[..] == Drop(was, InRange(pid, first, upTo));
    }

    /** clear_translated_dirfds */
    method Clear(pid: int)
      requires Shape()
      modifies this`open, this`spare, this`last, slots
      ensures Shape() && spare == old(spare) && slots[..] == Drop(old(slots[..]), Of(pid))
    {
      ghost var was := slots[..];
      var index := 0;
      while index < SIZE
        invariant 0 <= index <= SIZE && Shape() && spare == old(spare) && |was| == SIZE
        invariant forall i :: 0 <= i < index ==> slots[i] == Drop(was, Of(pid))[i]
        invariant forall i :: index <= i < SIZE ==> slots[i] == was[i]
      {
        if slots[index].pid == pid {
          if slots[index].fd >= 0 {
            DropOne(slots[..], index);
          } else {
            DropNone(slots[..], KeyOf(slots[index]));
          }
          Forget(pid, slots[index].fd);
        }
        index := index + 1;
      }
      assert slots[..] == Drop(was, Of(pid));
    }

    /** remember_translated_dirfd: one slot changes, the key's own if it has one,
        else the next in turn. */
    method Remember(pid: int, fd: int, dir: Dir)
      requires Shape()
      modifies this`open, this`spare, this`last, this`next, slots
      ensures Shape() && spare == old(spare)
      ensures if Refused(fd, dir) then slots[..] == old(slots[..])
              else exists slot :: StoredAt(old(slots[..]), slots[..], slot, pid, fd, dir)
                                  && (!Cached(old(slots[..]), (pid, fd)) ==> slot == old(next))
      ensures next == if Refused(fd, dir) || Cached(old(slots[..]), (pid, fd)) then old(next) else (old(next) + 1) % SIZE
    {
      if Refused(fd, dir) {
        return;
      }
      ghost var was := slots[..];
      var slot := SlotOf(pid, fd);
      if slot >= 0 {
        if slots[slot].dir == dir {
          assert StoredAt(was, slots[..], slot, pid, fd, dir);
          return;
        }
      } else {
        slot := next;
        next := (next + 1) % SIZE;
      }
      Put(slot, Slot(pid, fd, -1, dir));
      assert StoredAt(was, slots[..], slot, pid, fd, dir);
    }

    /** dup_cloexec: a descriptor that is not yet in use, or none. */
    method Duplicate(host: int) returns (copy: int)
      requires Shape() && spare == {}
      modifies this`open, this`spare
      ensures Shape() && copy >= -1 && spare == (if copy >= 0 then {copy} else {})
    {
      if host < 0 {
        return -1;
      }
      assert open - spare == open && -1 !in open;
      copy :| copy >= -1 && copy !in open;
      if copy >= 0 {
        ghost var owned := open - spare;
        open, spare := open + {copy}, {copy};
        assert open - spare == owned;
      }
    }

    /** attach_host_dirfd: the descriptor goes into the key's slot, or is closed. */
    method Attach(pid: int, fd: int, host: int, statable: bool)
      requires Shape() && host >= -1 && spare == (if host >= 0 then {host} else {})
      modifies this`open, this`spare, this`last, slots
      ensures Shape() && spare == {} && SameDirs(old(slots[..]), slots[..])
    {
      if host < 0 {
        return;
      }
      ghost var owned := open - spare;
      var slot := -1;
      if statable {
        slot := SlotOf(pid, fd);
      }
      if slot < 0 {
        open, spare := open - {host}, {};
        assert open - spare == owned;
        return;
      }
      Put(slot, slots[slot].(host := host));
      assert spare == {};
    }

    /** copy_translated_dirfd, for dup: the ideal table copies its entry. */
    method Copy(pid: int, source: int, target: int, statable: bool)
      requires Valid()
      modifies this, slots
      ensures Valid() && slots == old(slots)
      ensures ideal == CopiedEntry(old(ideal), (pid, source), (pid, target))
    {
      ghost var had := ideal;
      var slot := SlotOf(pid, source);
      ideal := CopiedEntry(ideal, (pid, source), (pid, target));
      CopyBeside(slots[..], had, (pid, source), (pid, target));
      if slot < 0 {
        DropAgrees(slots[..], ideal, (pid, target));
        Forget(pid, target);
        return;
      }
      var dir := slots[slot].dir;
      var copy := Duplicate(slots[slot].host);
      Store(pid, target, dir);
      AttachCopy(pid, target, copy, statable);
    }

    /** inherit_translated_dirfds, for fork: the child starts with its parent's
        entries, as many as the table can hold. */
    method Inherit(parent: int, child: int, statable: bool)
      requires Valid()
      modifies this, slots
      ensures Valid() && slots == old(slots)
      ensures ideal == Inherited(old(ideal), parent, child)
    {
      ClearAgrees(slots[..], ideal, parent, child);
      ghost var had := ideal;
      ideal := Inherited(ideal, parent, child);
      Clear(child);
      var index := 0;
      while index < SIZE
        invariant 0 <= index <= SIZE && Valid() && slots == old(slots) && ideal == Inherited(had, parent, child)
      {
        var slot := slots[index];
        if slot.pid == parent {
          if slot.fd >= 0 {
            assert Live(slots[..], index) && slots[..][index] == slot;
            InheritedEntry(had, parent, child, slot);
          }
          InheritOne(slot, child, statable);
        }
        index := index + 1;
      }
    }

    method InheritOne(slot: Slot, child: int, statable: bool)
      requires Valid() && (slot.fd >= 0 ==> !Refused(slot.fd, slot.dir) && (child, slot.fd) in ideal && ideal[(child, slot.fd)] == slot.dir)
      modifies this`open, this`spare, this`last, this`next, slots
      ensures Valid()
    {
      var copy := Duplicate(slot.host);
      Store(child, slot.fd, slot.dir);
      AttachCopy(child, slot.fd, copy, statable);
    }

    /** What the cache answers is what the ideal table says. */
    method Recall(pid: int, fd: int) returns (known: bool, dir: Dir)
      requires Valid()
      modifies this`last
      ensures Valid() && (known ==> (pid, fd) in ideal && ideal[(pid, fd)] == dir)
      ensures known <==> fd >= 0 && Cached(slots[..], (pid, fd))
    {
      var slot := SlotOf(pid, fd);
      known, dir := slot >= 0, Dir("", "");
      if known {
        assert Live(slots[..], slot);
        dir := slots[slot].dir;
      }
    }

    /** A guest descriptor's directory becomes known. */
    method Learn(pid: int, fd: int, dir: Dir)
      requires Valid()
      modifies this, slots
      ensures Valid() && slots == old(slots)
      ensures ideal == if Refused(fd, dir) then old(ideal) else old(ideal)[(pid, fd) := dir]
      ensures fd >= 0 && dir.proc != "" && dir.guest != "" && dir.proc[0] == '/' && dir.guest[0] == '/' ==> Cached(slots[..], (pid, fd))
    {
      if Refused(fd, dir) {
        return;
      }
      ideal := ideal[(pid, fd) := dir];
      Store(pid, fd, dir);
    }

    /** A guest descriptor is closed. */
    method Close(pid: int, fd: int)
      requires Valid()
      modifies this, slots
      ensures Valid() && slots == old(slots)
      ensures ideal == if fd < 0 then old(ideal) else old(ideal) - {(pid, fd)}
    {
      if fd >= 0 {
        ideal := ideal - {(pid, fd)};
      }
      DropAgrees(slots[..], ideal, (pid, fd));
      Forget(pid, fd);
    }

    /** close_range, and exec. */
    method CloseRange(pid: int, first: int, upTo: int)
      requires Valid()
      modifies this, slots
      ensures Valid() && slots == old(slots)
      ensures ideal == map k | k in old(ideal) && !(k.0 == pid && first <= k.1 <= upTo) :: old(ideal)[k]
    {
      DropKeepsAgreement(slots[..], ideal, InRange(pid, first, upTo));
      ideal := map k | k in ideal && !InRange(pid, first, upTo)(Slot(k.0, k.1, -1, ideal[k])) :: ideal[k];
      ForgetRange(pid, first, upTo);
    }

    /** Remembers what the ideal table says. */
    method Store(pid: int, fd: int, dir: Dir)
      requires Shape() && AgreesBeside(slots[..], ideal, (pid, fd))
      requires if fd < 0 then Agrees(slots[..], ideal) else !Refused(fd, dir) && (pid, fd) in ideal && ideal[(pid, fd)] == dir
      modifies this`open, this`spare, this`last, this`next, slots
      ensures Shape() && spare == old(spare) && Agrees(slots[..], ideal)
      ensures !Refused(fd, dir) ==> Cached(slots[..], (pid, fd))
    {
      ghost var was := slots[..];
      Remember(pid, fd, dir);
      StoreAgrees(was, slots[..], ideal, pid, fd, dir);
    }

    method AttachCopy(pid: int, fd: int, host: int, statable: bool)
      requires Shape() && host >= -1 && spare == (if host >= 0 then {host} else {}) && Agrees(slots[..], ideal)
      modifies this`open, this`spare, this`last, slots
      ensures Valid()
    {
      ghost var was := slots[..];
      Attach(pid, fd, host, statable);
      SameDirsAgree(was, slots[..], ideal);
    }
  }

  lemma ClearAgrees(t: Table, ideal: map<Key, Dir>, parent: int, child: int)
    requires Agrees(t, ideal)
    ensures Agrees(Drop(t, Of(child)), Inherited(ideal, parent, child))
  {
    var t' := Drop(t, Of(child));
    forall i | Live(t', i) ensures Right(t'[i], Inherited(ideal, parent, child)) {
      assert Live(t, i) && t'[i] == t[i] && t[i].pid != child;
    }
  }

  lemma DropKeepsAgreement(t: Table, ideal: map<Key, Dir>, gone: Slot -> bool)
    requires Agrees(t, ideal)
    ensures Agrees(Drop(t, gone), (map k | k in ideal && !gone(Slot(k.0, k.1, -1, ideal[k])) :: ideal[k]))
    requires forall s: Slot :: gone(s) == gone(Slot(s.pid, s.fd, -1, s.dir))
  {
    var t' := Drop(t, gone);
    forall i | Live(t', i) ensures Right(t'[i], (map k | k in ideal && !gone(Slot(k.0, k.1, -1, ideal[k])) :: ideal[k])) {
      assert Live(t, i) && t'[i] == t[i] && !gone(t[i]);
    }
  }

  /** A child's entry is its parent's. */
  lemma InheritedEntry(ideal: map<Key, Dir>, parent: int, child: int, s: Slot)
    requires s.pid == parent && s.fd >= 0 && Right(s, Inherited(ideal, parent, child))
    ensures var k := (child, s.fd); k in Inherited(ideal, parent, child) && Inherited(ideal, parent, child)[k] == s.dir
  {
    var copies := set p | p in ideal.Keys && p.0 == parent :: (child, p.1);
    assert (parent, s.fd) in ideal;
    assert (child, s.fd) in copies;
  }

  lemma CopyBeside(t: Table, ideal: map<Key, Dir>, source: Key, target: Key)
    requires Agrees(t, ideal)
    ensures AgreesBeside(t, CopiedEntry(ideal, source, target), target)
    ensures target.1 < 0 ==> Agrees(t, CopiedEntry(ideal, source, target))
  {}

  lemma DropAgrees(t: Table, ideal: map<Key, Dir>, key: Key)
    requires AgreesBeside(t, ideal, key) && (key.1 < 0 ==> Agrees(t, ideal))
    ensures Agrees(Drop(t, Is(key)), ideal)
  {
    var t' := Drop(t, Is(key));
    forall i | Live(t', i) ensures Right(t'[i], ideal) {
      assert Live(t, i) && t'[i] == t[i];
    }
  }

  /** dup: the target stands for what the source stands for. */
  function CopiedEntry(ideal: map<Key, Dir>, source: Key, target: Key): map<Key, Dir> {
    if target.1 < 0 then ideal else if source in ideal then ideal[target := ideal[source]] else ideal - {target}
  }

  lemma SameDirsAgree(t: Table, t': Table, ideal: map<Key, Dir>)
    requires SameDirs(t, t') && Agrees(t, ideal)
    ensures Agrees(t', ideal)
  {
    forall i | Live(t', i) ensures Right(t'[i], ideal) {
      assert Live(t, i) && Right(t[i], ideal);
    }
  }

  /** Storing what the ideal table says of a key. */
  lemma StoreAgrees(t: Table, t': Table, ideal: map<Key, Dir>, pid: int, fd: int, dir: Dir)
    requires AgreesBeside(t, ideal, (pid, fd)) && UniqueKeys(t')
    requires if Refused(fd, dir) then t' == t && Agrees(t, ideal) else exists slot :: StoredAt(t, t', slot, pid, fd, dir)
    requires !Refused(fd, dir) ==> (pid, fd) in ideal && ideal[(pid, fd)] == dir
    ensures Agrees(t', ideal)
  {
    if !Refused(fd, dir) {
      var slot :| StoredAt(t, t', slot, pid, fd, dir);
      forall i | Live(t', i) ensures Right(t'[i], ideal) {
        if i != slot {
          assert Live(t, i) && KeyOf(t'[i]) != KeyOf(t'[slot]);
        }
      }
    }
  }

  predicate Refused(fd: int, dir: Dir) {
    fd < 0 || dir.proc == "" || dir.proc[0] != '/' || dir.guest == "" || dir.guest[0] != '/'
  }

  /** One slot changed, to the key and its directory; no other slot has it. */
  ghost predicate StoredAt(t: Table, t': Table, slot: int, pid: int, fd: int, dir: Dir) {
    && |t'| == |t| && Live(t', slot) && KeyOf(t'[slot]) == (pid, fd) && t'[slot].dir == dir
    && t' == t[slot := t'[slot]]
  }

  /** Nothing but host descriptors differs. */
  ghost predicate SameDirs(t: Table, t': Table) {
    |t'| == |t| && forall i :: 0 <= i < |t| ==> t'[i] == t[i].(host := t'[i].host)
  }
}
