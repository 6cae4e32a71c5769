/** The descriptor-path cache of src/syscall/exit.c: the same bargain as the
    directory cache, without a hint and without host descriptors. */
module ProcFdCache {
  import opened DirfdCache

  const PATHS: nat := 128

  /** What the table starts as, all zeros: an entry of pid 0, which no process has. */
  const ZERO: Slot := Slot(0, 0, -1, Dir("", ""))

  ghost predicate Used(t: Table, i: int) {
    0 <= i < |t| && t[i].fd >= 0 && t[i].pid != 0
  }

  ghost predicate UsedOnce(t: Table) {
    forall i, j :: Used(t, i) && Used(t, j) && KeyOf(t[i]) == KeyOf(t[j]) ==> i == j
  }

  ghost predicate Known(t: Table, key: Key) {
    exists i :: Used(t, i) && KeyOf(t[i]) == key
  }

  class PathCache {
    var slots: array<Slot>  // dir.proc is the guest path, dir.guest the host path
    var next: nat
    ghost var ideal: map<Key, Dir>

    ghost predicate Shape()
      reads this, slots
    {
      var result := slots.Length == PATHS && next < PATHS && UsedOnce(slots[..]);
      result
    }

    ghost predicate Valid()
      reads this, slots
    {
      Shape() && Remembers(slots[..], ideal)
    }

    constructor ()
      ensures Valid() && fresh(slots) && ideal == map[]
    {
      slots := new Slot[PATHS](_ => ZERO);
      next, ideal := 0, map[];
    }

    method Scan(pid: int, fd: int) returns (slot: nat)
      requires Shape() && fd >= 0 && pid != 0
      ensures slot <= PATHS
      ensures slot == PATHS <==> !Known(slots[..], (pid, fd))
      ensures slot < PATHS ==> Used(slots[..], slot) && KeyOf(slots[slot]) == (pid, fd)
    {
      slot := 0;
      while slot < PATHS
        invariant slot <= PATHS && forall i :: 0 <= i < slot ==> KeyOf(slots[i]) != (pid, fd)
      {
        if slots[slot].pid == pid && slots[slot].fd == fd {
          assert Used(slots[..], slot);
          return;
        }
        slot := slot + 1;
      }
    }

    /** remember_proc_fd_path, of what the ideal table says. */
    method Remember(pid: int, fd: int, dir: Dir)
      requires Shape() && pid != 0 && RemembersBeside(slots[..], ideal, (pid, fd))
      requires if Rejected(fd, dir) then Remembers(slots[..], ideal) else (pid, fd) in ideal && ideal[(pid, fd)] == dir
      modifies this`next, slots
      ensures Valid()
      ensures if Rejected(fd, dir) then slots[..] == old(slots[..]) else IsPut(old(slots[..]), old(next), slots[..], Slot(pid, fd, -1, dir))
    {
      if Rejected(fd, dir) {
        return;
      }
      ghost var was := slots[..];
      var slot := Scan(pid, fd);
      if slot == PATHS {
        slot := next;
        next := (next + 1) % PATHS;
      }
      var s := Slot(pid, fd, -1, dir);
      slots[slot] := s;
      assert slots[..] == was[slot := s];
      assert slots[slot] == s && Used(slots[..], slot);
      PutKeeps(was, ideal, slot, s);
    }

    /** The three loops that forget. */
    method ForgetWhere(gone: Slot -> bool)
      requires Shape()
      modifies slots
      ensures Shape() && slots[..] == Drop(old(slots[..]), gone)
    {
      ghost var was := slots[..];
      var index := 0;
      while index < PATHS
        invariant 0 <= index <= PATHS && slots.Length == PATHS && |was| == PATHS
        invariant forall i :: 0 <= i < index ==> slots[i] == Drop(was, gone)[i]
        invariant forall i :: index <= i < PATHS ==> slots[i] == was[i]
      {
        if slots[index].fd >= 0 && gone(slots[index]) {
          slots[index] := FREE;
        }
        index := index + 1;
      }
      assert slots[..] == Drop(was, gone);
      DropUnique(was, gone);
    }

    /** remember_proc_fd_path */
    method Learn(pid: int, fd: int, dir: Dir)
      requires Valid() && pid != 0
      modifies this, slots
      ensures Valid() && slots == old(slots)
      ensures ideal == if Rejected(fd, dir) then old(ideal) else old(ideal)[(pid, fd) := dir]
      ensures if Rejected(fd, dir) then slots[..] == old(slots[..]) else IsPut(old(slots[..]), old(next), slots[..], Slot(pid, fd, -1, dir))
      ensures fd >= 0 && dir.proc != "" && dir.proc[0] == '/' ==> Known(slots[..], (pid, fd))
    {
      if !Rejected(fd, dir) {
        ideal := ideal[(pid, fd) := dir];
      }
      Remember(pid, fd, dir);
    }

    /** forget_proc_fd_path */
    method Forget(pid: int, fd: int)
      requires Valid()
      modifies this, slots
      ensures Valid() && slots == old(slots) && ideal == old(ideal) - {(pid, fd)}
    {
      DropRemembers(slots[..], ideal, Is((pid, fd)), ideal - {(pid, fd)});
      ideal := ideal - {(pid, fd)};
      ForgetWhere(Is((pid, fd)));
    }

    /** forget_proc_fd_paths_range */
    method ForgetRange(pid: int, first: int, last: int)
      requires Valid()
      modifies this, slots
      ensures Valid() && slots == old(slots)
      ensures ideal == map k | k in old(ideal) && !(k.0 == pid && first <= k.1 <= last) :: old(ideal)[k]
    {
      ghost var left := map k | k in ideal && !(k.0 == pid && first <= k.1 <= last) :: ideal[k];
      DropRemembers(slots[..], ideal, InRange(pid, first, last), left);
      ideal := left;
      ForgetWhere(InRange(pid, first, last));
    }

    /** inherit_proc_fd_paths */
    method Inherit(parent: int, child: int)
      requires Valid() && parent != 0 && child != 0
      modifies this, slots
      ensures Valid() && slots == old(slots) && ideal == Inherited(old(ideal), parent, child)
    {
      ghost var had := ideal;
      DropRemembers(slots[..], ideal, Of(child), Inherited(ideal, parent, child));
      ideal := Inherited(ideal, parent, child);
      ForgetWhere(Of(child));
      var index := 0;
      while index < PATHS
        invariant 0 <= index <= PATHS && Valid() && slots == old(slots) && ideal == Inherited(had, parent, child)
      {
        var slot := slots[index];
        if slot.pid == parent {
          if slot.fd >= 0 {
            assert Used(slots[..], index) && slots[..][index] == slot;
            InheritedPath(had, parent, child, slot);
          }
          Remember(child, slot.fd, slot.dir);
        }
        index := index + 1;
      }
    }

    /** copy_proc_fd_path: a source that has been forgotten forgets the target. */
    method Copy(pid: int, source: int, target: int)
      requires Valid() && source >= 0 && pid != 0
      modifies this, slots
      ensures Valid() && slots == old(slots) && ideal == CopiedEntry(old(ideal), (pid, source), (pid, target))
      ensures Known(old(slots[..]), (pid, source)) && target >= 0 ==> Known(slots[..], (pid, target))
    {
      var slot := Scan(pid, source);
      ghost var had := ideal;
      ideal := CopiedEntry(ideal, (pid, source), (pid, target));
      CopyRemembers(slots[..], had, (pid, source), (pid, target));
      if slot < PATHS {
        Remember(pid, target, slots[slot].dir);
      } else {
        ForgetWhere(Is((pid, target)));
      }
    }
  }

  /** The entry is there afterwards: in the slot of its key, or if there was none,
      in the one whose turn it is; no other slot has changed. */
  ghost predicate IsPut(before: Table, turn: nat, after: Table, s: Slot) {
    && |after| == |before|
    && exists slot :: Used(after, slot) && after == before[slot := s]
         && if Known(before, KeyOf(s)) then KeyOf(before[slot]) == KeyOf(s) && Used(before, slot) else slot == turn
  }

  predicate Rejected(fd: int, dir: Dir) {
    fd < 0 || dir.proc == "" || dir.proc[0] != '/'
  }

  ghost predicate True(s: Slot, ideal: map<Key, Dir>) {
    KeyOf(s) in ideal && ideal[KeyOf(s)] == s.dir && !Rejected(s.fd, s.dir)
  }

  ghost predicate Remembers(t: Table, ideal: map<Key, Dir>) {
    forall i :: Used(t, i) ==> True(t[i], ideal)
  }

  ghost predicate RemembersBeside(t: Table, ideal: map<Key, Dir>, key: Key) {
    forall i :: Used(t, i) && KeyOf(t[i]) != key ==> True(t[i], ideal)
  }

  lemma PutKeeps(t: Table, ideal: map<Key, Dir>, slot: nat, s: Slot)
    requires slot < |t| && UsedOnce(t) && RemembersBeside(t, ideal, KeyOf(s)) && True(s, ideal)
    requires forall j :: Used(t, j) && KeyOf(t[j]) == KeyOf(s) ==> j == slot
    ensures UsedOnce(t[slot := s]) && Remembers(t[slot := s], ideal)
  {
    var t' := t[slot := s];
    forall i | Used(t', i) ensures True(t'[i], ideal) {
      assert i != slot ==> Used(t, i) && KeyOf(t[i]) != KeyOf(s);
    }
    forall i, j | Used(t', i) && Used(t', j) && KeyOf(t'[i]) == KeyOf(t'[j]) ensures i == j {
      assert i != slot ==> Used(t, i);
      assert j != slot ==> Used(t, j);
    }
  }

  lemma DropUnique(t: Table, gone: Slot -> bool)
    requires UsedOnce(t)
    ensures UsedOnce(Drop(t, gone))
  {
    var t' := Drop(t, gone);
    forall i, j | Used(t', i) && Used(t', j) && KeyOf(t'[i]) == KeyOf(t'[j]) ensures i == j {
      assert Used(t, i) && Used(t, j);
    }
  }

  lemma DropRemembers(t: Table, ideal: map<Key, Dir>, gone: Slot -> bool, left: map<Key, Dir>)
    requires Remembers(t, ideal)
    requires forall s: Slot :: !gone(s) && True(s, ideal) ==> True(s, left)
    ensures Remembers(Drop(t, gone), left)
  {
    var t' := Drop(t, gone);
    forall i | Used(t', i) ensures True(t'[i], left) {
      assert Used(t, i) && t'[i] == t[i] && !gone(t[i]);
    }
  }

  lemma InheritedPath(ideal: map<Key, Dir>, parent: int, child: int, s: Slot)
    requires s.pid == parent && s.fd >= 0 && True(s, Inherited(ideal, parent, child))
    ensures True(s.(pid := child), Inherited(ideal, parent, child))
  {
    var copies := set p | p in ideal.Keys && p.0 == parent :: (child, p.1);
    assert (parent, s.fd) in ideal;
    assert (child, s.fd) in copies;
  }

  lemma CopyRemembers(t: Table, ideal: map<Key, Dir>, source: Key, target: Key)
    requires Remembers(t, ideal)
    ensures RemembersBeside(t, CopiedEntry(ideal, source, target), target)
    ensures target.1 < 0 ==> Remembers(t, CopiedEntry(ideal, source, target))
    ensures Remembers(Drop(t, Is(target)), CopiedEntry(ideal, source, target))
  {
    var t', left := Drop(t, Is(target)), CopiedEntry(ideal, source, target);
    forall i | Used(t', i) ensures True(t'[i], left) {
      assert Used(t, i) && t'[i] == t[i];
    }
  }
}
