/** Client slots of one thread: assign_to_thread (src/datum_sockets.c) and
    datum_socket_thread_client_count_decrement (src/datum_sockets.h).  A slot is free when its
    file descriptor is 0; both operations run under the thread's lock. */
module ClientSlots {
  import opened Wrappers

  function Occupied(fds: seq<int>): (n: nat)
    ensures n <= |fds|
  {
    if fds == [] then 0 else Occupied(fds[..|fds| - 1]) + if fds[|fds| - 1] != 0 then 1 else 0
  }

  lemma {:induction false} OccupiedUpdate(fds: seq<int>, i: nat, fd: int)
    requires i < |fds|
    ensures Occupied(fds[i := fd]) == Occupied(fds) - (if fds[i] != 0 then 1 else 0) + (if fd != 0 then 1 else 0)
    decreases |fds|
  {
    var front := fds[..|fds| - 1];
    if i < |front| {
      OccupiedUpdate(front, i, fd);
      assert fds[i := fd][..|fds| - 1] == front[i := fd];
    } else {
      assert fds[i := fd][..|fds| - 1] == front;
    }
  }

  ghost predicate NoneFree(fds: seq<int>) { forall i | 0 <= i < |fds| :: fds[i] != 0 }

  lemma {:induction false} AllOccupied(fds: seq<int>)
    ensures Occupied(fds) == |fds| <==> NoneFree(fds)
    decreases |fds|
  {
    if fds != [] {
      var front, last := fds[..|fds| - 1], fds[|fds| - 1];
      AllOccupied(front);
      assert fds == front + [last];
    }
  }

  class Thread {
    const fds: array<int>
    var connected: nat
    var next: nat

    /** The count is right; while there is room the hint names a free slot, and when there is none
        it names the last slot. */
    ghost predicate Valid()
      reads this, fds
    {
      && fds.Length > 0 && next < fds.Length && connected == Occupied(fds[..])
      && (connected < fds.Length ==> fds[next] == 0)
      && (connected == fds.Length ==> next == fds.Length - 1)
    }

    constructor (max: nat)
      requires max > 0
      ensures Valid() && fresh(fds) && fds.Length == max && connected == 0
    {
      fds := new int[max](_ => 0);
      connected, next := 0, 0;
      new;
      NoneOccupied(fds[..]);
    }

    /** The circular search for the next free slot after cid. */
    method SearchNext(cid: nat) returns (i: nat)
      requires cid < fds.Length
      ensures i < fds.Length
      ensures i != cid ==> fds[i] == 0
      ensures i == cid ==> forall k | 0 <= k < fds.Length && k != cid :: fds[k] != 0
    {
      i := if cid + 1 == fds.Length then 0 else cid + 1;
      while i != cid
        invariant i < fds.Length
        invariant i > cid ==> forall k | cid < k < i :: fds[k] != 0
        invariant i <= cid ==> (forall k | cid < k < fds.Length :: fds[k] != 0) && forall k | 0 <= k < i :: fds[k] != 0
        decreases if i > cid then fds.Length + cid - i else cid - i
      {
        if fds[i] == 0 { return; }
        i := i + 1;
        if i >= fds.Length { i := 0; }
      }
    }

    /** assign_to_thread: a slot is given out exactly when there is room; it was free, no other
        slot changes, and the scan for a lost free slot is never needed. */
    method Assign(fd: int) returns (slot: Option<nat>)
      requires Valid() && fd != 0
      modifies this, fds
      ensures Valid()
      ensures slot.Some? <==> old(connected) < fds.Length
      ensures slot.None? ==> fds[..] == old(fds[..]) && connected == old(connected)
      ensures slot.Some? ==> slot.value < fds.Length && old(fds[..])[slot.value] == 0
                             && fds[..] == old(fds[..])[slot.value := fd] && connected == old(connected) + 1
    {
      if connected >= fds.Length { return None; }
      var cid := next;
      if fds[cid] != 0 {
        assert false;
      }
      var i := SearchNext(cid);
      ghost var was := fds[..];
      next := if i == cid then fds.Length - 1 else i;
      connected := connected + 1;
      fds[cid] := fd;
      assert fds[..] == was[cid := fd];
      OccupiedUpdate(was, cid, fd);
      AllOccupied(fds[..]);
      if i == cid {
        assert NoneFree(fds[..]);
      } else {
        assert fds[..][i] == 0;
      }
      slot := Some(cid);
    }

    /** A client leaves: its slot is free again and the hint moves down to it if it is lower. */
    method Leave(cid: nat)
      requires Valid() && cid < fds.Length && fds[cid] != 0
      modifies this, fds
      ensures Valid() && connected == old(connected) - 1 && fds[..] == old(fds[..])[cid := 0]
    {
      ghost var was := fds[..];
      AllOccupied(was);
      OccupiedUpdate(was, cid, 0);
      connected := connected - 1;
      if cid < next { next := cid; }
      fds[cid] := 0;
      assert fds[..] == was[cid := 0];
    }
  }

  lemma {:induction false} NoneOccupied(fds: seq<int>)
    requires forall i | 0 <= i < |fds| :: fds[i] == 0
    ensures Occupied(fds) == 0
    decreases |fds|
  {
    if fds != [] { NoneOccupied(fds[..|fds| - 1]); }
  }

  datatype Event = Connect(fd: int) | Disconnect(cid: nat)

  /** Any run of connects and disconnects keeps all of this, and no live slot is reassigned. */
  method Serve(t: Thread, events: seq<Event>)
    requires t.Valid() && forall k | 0 <= k < |events| :: events[k].Connect? ==> events[k].fd != 0
    modifies t, t.fds
    ensures t.Valid()
  {
    for k := 0 to |events|
      invariant t.Valid()
    {
      match events[k]
      case Connect(fd) =>
        var _ := t.Assign(fd);
      case Disconnect(cid) =>
        if cid < t.fds.Length && t.fds[cid] != 0 { t.Leave(cid); }
    }
  }
}
