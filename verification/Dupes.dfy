/** The duplicate-share table of src/datum_stratum_dupes.c: the check that records, and the
    cleanup of a full table. */
module Dupes {
  import opened DupeIndex
  import opened DupePatch
  import opened DupeArena
  import opened DupeFill

  class Table {
    var items: seq<Item>
    var index: seq<int>
    var current: nat
    ghost var lists: seq<seq<nat>>

    ghost predicate Valid()
      reads this
    {
      && |items| >= 4 && current < |items| && ArenaOk(items, current)
      && Indexed(items, index, current, lists)
    }

    ghost function Contents(): set<Share>
      reads this
      requires current <= |items|
    {
      Recorded(items, current)
    }

    constructor (max: nat)
      requires max >= 4
      ensures Valid() && Contents() == {} && |items| == max && current == 0
    {
      items := seq(max, _ => EMPTY);
      index := seq(BUCKETS, _ => NIL);
      current := 0;
      lists := seq(BUCKETS, _ => []);
      EmptyIndex(seq(max, _ => EMPTY));
    }

    // ---- cleanup ----

    /** datum_stratum_dupes_reorganize over an arena whose first n positions are in use; whatever
        the old links were, it ends with every bucket rebuilt. */
    method Reorganize(ghost n: nat)
      requires ArenaOk(items, n) && index == seq(BUCKETS, _ => NIL)
      modifies this
      ensures |items| == |old(items)| && forall i | 0 <= i < |items| :: items[i].share == old(items)[i].share
      ensures forall i | n <= i < |items| :: items[i] == old(items)[i]
      ensures current == n && Indexed(items, index, n, lists)
    {
      var i := 0;
      lists := seq(BUCKETS, _ => []);
      EmptyIndex(items);
      while i < |items| && items[i].share.ntime != 0
        invariant i <= n && |items| == |old(items)|
        invariant forall j | 0 <= j < |items| :: items[j].share == old(items)[j].share
        invariant forall j | i <= j < |items| :: items[j] == old(items)[j]
        invariant Indexed(items, index, i, lists)
        decreases |items| - i
      {
        PlaceItem(i);
        i := i + 1;
      }
      current := i;
    }

    /** One turn of the relink loop. */
    method PlaceItem(i: nat)
      requires i < |items| && Indexed(items, index, i, lists)
      modifies `items, `index, `lists
      ensures |items| == |old(items)| && forall j | 0 <= j < |items| :: items[j].share == old(items)[j].share
      ensures forall j | i < j < |items| :: items[j] == old(items)[j]
      ensures Indexed(items, index, i + 1, lists)
    {
      var b := Bucket(items[i].share);
      var prev, cur;
      ghost var l';
      prev, cur, l' := Locate(items, index, i, lists);
      items := Link(items, i, prev, cur);
      if prev == NIL { index := index[b := i]; }
      lists := lists[b := l'];
    }

    /** datum_stratum_dupes_cleanup of a full table, for any links. */
    method Cleanup(e: Env)
      requires Sorts(e) && |items| >= 4 && ArenaOk(items, |items|)
      modifies this
      ensures Valid() && Contents() == Retained(e, old(Recorded(items, |items|)), old(|items|))
      ensures |items| == Resized(e, old(Recorded(items, |items|)), old(|items|))
      ensures Arranged(items, current, e.qsort(old(items)))
      ensures current <= old(|items|) <= |items|
      ensures current == old(|items|) <==> Grows(e, old(Recorded(items, |items|)), old(|items|))
    {
      ghost var n;
      items, n := SortAndCut(e, items);
      index := seq(BUCKETS, _ => NIL);
      ghost var cut := items;
      Reorganize(n);
      SameShares(cut, items, n);
    }

    // ---- recording a share ----

    /** datum_stratum_add_new_dupe: the next free slot, spliced in after prev if there is one; a
        table this fills is cleaned up, after which the slot may hold something else. */
    method Add(e: Env, s: Share, prev: int) returns (slot: nat)
      requires Sorts(e) && |items| >= 4 && current < |items| && ArenaOk(items, current)
      requires s.ntime != 0 && s !in Contents() && (prev == NIL || 0 <= prev < current)
      modifies this
      ensures slot == old(current) < |items|
      ensures old(current) + 1 < old(|items|) ==>
        && items == Spliced(old(items), slot, s, prev) && current == slot + 1
        && index == old(index) && lists == old(lists)
      ensures old(current) + 1 == old(|items|) ==>
        && Valid() && Contents() == Retained(e, old(Contents()) + {s}, old(|items|))
        && |items| == Resized(e, old(Contents()) + {s}, old(|items|))
        && Arranged(items, current, e.qsort(Spliced(old(items), slot, s, prev)))
        && current <= old(|items|) <= |items|
        && (current == old(|items|) <==> Grows(e, old(Contents()) + {s}, old(|items|)))
    {
      slot := current;
      AddedShare(items, current, s, prev);
      items := Spliced(items, current, s, prev);
      current := current + 1;
      if current >= |items| { Cleanup(e); }
    }

    /** The place of s: the walk of the check, for a bucket with or without entries. */
    method Search(s: Share) returns (dup: bool, prev: int, cur: int, ghost k: nat)
      requires Valid()
      ensures dup == (s in Contents())
      ensures !dup ==> PlaceOf(items, current, lists, s, prev, cur, k)
    {
      var b := Bucket(s);
      assert BucketOk(items, current, index[b], b, lists[b]);
      dup, prev, cur, k := FindShare(items, current, index[b], s, b, lists[b]);
    }

    /** Insertion after prev. */
    method AddAfter(e: Env, s: Share, prev: int, ghost cur: int, ghost k: nat)
      requires Valid() && Sorts(e) && s.ntime != 0 && s !in Contents() && prev != NIL
      requires PlaceOf(items, current, lists, s, prev, cur, k)
      modifies this
      ensures Valid()
      ensures Contents() == if old(current) + 1 < old(|items|) then old(Contents()) + {s}
                            else Retained(e, old(Contents()) + {s}, old(|items|))
      ensures |items| == if old(current) + 1 < old(|items|) then old(|items|)
                         else Resized(e, old(Contents()) + {s}, old(|items|))
      ensures old(current) + 1 < old(|items|) ==> Appended(items, current, old(items), old(current), s)
    {
      ghost var lists' := AfterPrev(items, index, current, lists, s, prev, cur, k);
      AddedShare(items, current, s, prev);
      var slot := Add(e, s, prev);
      if slot + 1 < old(|items|) { lists := lists'; }
    }

    /** Insertion at the front of a bucket that does not fill the table. */
    method AddFront(e: Env, s: Share, cur: int, ghost k: nat)
      requires Valid() && Sorts(e) && s.ntime != 0 && s !in Contents() && current + 1 < |items|
      requires PlaceOf(items, current, lists, s, NIL, cur, k) && Lowest(Contents(), s)
      modifies this
      ensures Valid() && Contents() == old(Contents()) + {s} && Appended(items, current, old(items), old(current), s)
    {
      ghost var lists' := AtFront(items, index, current, lists, s, cur, k);
      ghost var items0, index0 := WriteFront(e, s, cur);
      lists := lists';
    }

    /** Insertion at the front of a bucket that fills the table: the slot goes into the index after the
        cleanup.  What that means is FrontFilled. */
    method FillFront(e: Env, s: Share, cur: int)
      requires Valid() && Sorts(e) && s.ntime != 0 && s !in Contents() && current + 1 == |items|
      requires NIL <= cur < current && Lowest(Contents(), s)
      modifies this
      ensures current <= |items| && Contents() == Retained(e, old(Contents()) + {s}, old(|items|))
      ensures |items| == Resized(e, old(Contents()) + {s}, old(|items|))
      ensures FrontFilled(e, old(items), s, cur, items, index, current)
      ensures FillOk(e, old(items), s, cur) ==> Valid()
    {
      ghost var was, slot := items, current;
      assert slot == |was| - 1;
      ghost var items0, index0 := WriteFront(e, s, cur);
      PatchFills(e, was, s, cur, slot, items0, index0, current, lists);
    }

    /** Lines 301 and 316-318: the new entry, then its slot into the index and the old head into its link. */
    method WriteFront(e: Env, s: Share, cur: int) returns (ghost items0: seq<Item>, ghost index0: seq<int>)
      requires Valid() && Sorts(e) && s.ntime != 0 && s !in Contents() && Lowest(Contents(), s)
      modifies this
      ensures current <= |items| && old(current) < |items0| && |items| == |items0|
      ensures items == Patched(items0, old(current), cur) && |index0| == BUCKETS
        && index == index0[Bucket(s) := old(current)]
      ensures Contents() == if old(current) + 1 < old(|items|) then old(Contents()) + {s}
                            else Retained(e, old(Contents()) + {s}, old(|items|))
      ensures |items| == if old(current) + 1 < old(|items|) then old(|items|)
                         else Resized(e, old(Contents()) + {s}, old(|items|))
      ensures old(current) + 1 < old(|items|) ==>
        && items0 == Spliced(old(items), old(current), s, NIL) && index0 == old(index) && current == old(current) + 1
        && ArenaOk(items, current)
      ensures old(current) + 1 == old(|items|) ==>
        && Cleaned(e, old(items), s, items0, index0, current, lists)
        && |items| >= 4 && current < |items| && ArenaOk(items, current)
    {
      var slot := AddApart(e, s);
      items0, index0 := items, index;
      Patch(slot, s, cur);
    }

    /** The new entry, linked to nothing yet; where it fills the table, what the cleanup makes of it. */
    method AddApart(e: Env, s: Share) returns (slot: nat)
      requires Valid() && Sorts(e) && s.ntime != 0 && s !in Contents() && Lowest(Contents(), s)
      modifies this
      ensures slot == old(current) < |items| && current <= |items| && |index| == BUCKETS && ArenaOk(items, current)
      ensures Contents() == if slot + 1 < old(|items|) then old(Contents()) + {s}
                            else Retained(e, old(Contents()) + {s}, old(|items|))
      ensures |items| == if slot + 1 < old(|items|) then old(|items|)
                         else Resized(e, old(Contents()) + {s}, old(|items|))
      ensures slot + 1 < old(|items|) ==>
        items == Spliced(old(items), slot, s, NIL) && index == old(index) && current == slot + 1
      ensures slot + 1 == old(|items|) ==>
        Cleaned(e, old(items), s, items, index, current, lists) && |items| >= 4 && current < |items|
    {
      ghost var was, held := items, Contents();
      AddedShare(was, current, s, NIL);
      SplicedAtFront(was, current, s);
      ghost var full, order := was[current := Item(s, NIL)], FillOrder(e, was, s);
      assert ArenaOk(full, current + 1) && (current + 1 == |was| ==> order == e.qsort(full));
      slot := Add(e, s, NIL);
      if slot + 1 == |was| {
        assert full == was[|was| - 1 := Item(s, NIL)] && Arranged(items, current, order);
        assert Recorded(was, |was| - 1) == held && Recorded(items, current) == Contents();
        IsCleaned(e, was, s, items, index, current, lists);
      }
    }

    /** The two writes themselves. */
    method Patch(slot: nat, s: Share, cur: int)
      requires slot < |items| && |index| == BUCKETS && current <= |items|
      modifies `items, `index
      ensures items == Patched(old(items), slot, cur) && index == old(index)[Bucket(s) := slot]
      ensures |items| == |old(items)| && Contents() == old(Contents())
      ensures ArenaOk(old(items), current) ==> ArenaOk(items, current)
    {
      SameShares(items, Patched(items, slot, cur), current);
      index := index[Bucket(s) := slot];
      items := Patched(items, slot, cur);
    }

    /** datum_stratum_check_for_dupe */
    method CheckForDupe(e: Env, s: Share) returns (dup: bool)
      requires Valid() && Sorts(e) && s.ntime != 0
      modifies this
      ensures dup == (s in old(Contents()))
      ensures dup ==> Valid() && items == old(items) && index == old(index) && current == old(current)
      ensures !dup && old(current) + 1 < old(|items|) ==>
        && Valid() && Contents() == old(Contents()) + {s}
        && Appended(items, current, old(items), old(current), s)
      ensures !dup && old(current) + 1 == old(|items|) ==>
        && current <= |items| && Contents() == Retained(e, old(Contents()) + {s}, old(|items|))
        && |items| == Resized(e, old(Contents()) + {s}, old(|items|))
        && (!FrontInsert(old(items), old(index), s) ==> Valid())
        && (FrontInsert(old(items), old(index), s) ==>
              && FrontFilled(e, old(items), s, old(index)[Bucket(s)], items, index, current)
              && (FillOk(e, old(items), s, old(index)[Bucket(s)]) ==> Valid()))
    {
      var prev, cur;
      ghost var k;
      dup, prev, cur, k := Search(s);
      if dup { return; }
      PlaceAtFront(items, index, current, lists, s, prev, cur, k);
      if prev != NIL {
        AddAfter(e, s, prev, cur, k);
      } else if current + 1 < |items| {
        AddFront(e, s, cur, k);
      } else {
        FillFront(e, s, cur);
      }
    }

    /** What a user of the table relies on. */
    ghost function Abstract(): Ref
      reads this
      requires current <= |items|
    {
      Ref(Contents(), |items|)
    }

    /** One check against the reference: it answers like the set, leaves what the set becomes, and keeps
        the table in order exactly when it is harmless. */
    method CheckOne(c: Call) returns (dup: bool, ok: bool)
      requires Valid() && Sorts(c.e) && c.s.ntime != 0
      modifies this
      ensures dup == (c.s in old(Contents())) && current <= |items|
      ensures Abstract() == RefCheck(old(Abstract()), c)
      ensures ok == old(CheckIsHarmless(c.e, items, index, current, c.s))
      ensures ok ==> Valid()
      ensures !ok ==> !WellFormed(items, index, current)
    {
      ok := CheckIsHarmless(c.e, items, index, current, c.s);
      RecordedCount(items, current);
      dup := CheckForDupe(c.e, c.s);
    }

    /** The table is where the reference is after as many checks as were answered. */
    ghost predicate Follows(r: Ref, calls: seq<Call>, answers: seq<bool>, ok: bool)
      reads this
    {
      && AnswersLike(r, calls, answers) && current <= |items| && Abstract() == RefRun(r, calls[..|answers|])
      && if ok then Valid() else !WellFormed(items, index, current)
    }

    method CheckNext(ghost r: Ref, calls: seq<Call>, answers: seq<bool>) returns (answers': seq<bool>, ok: bool)
      requires Follows(r, calls, answers, true) && |answers| < |calls|
      requires Sorts(calls[|answers|].e) && calls[|answers|].s.ntime != 0
      modifies this
      ensures Follows(r, calls, answers', ok) && |answers'| == |answers| + 1
    {
      var dup;
      dup, ok := CheckOne(calls[|answers|]);
      AnswersNext(r, calls, answers, dup);
      RefRunNext(r, calls, |answers|);
      answers' := answers + [dup];
    }

    /** A run of checks, cleanups included, answers like the reference, up to its end or to the first check
        that is not harmless; only such a check leaves a table that is not well-formed. */
    method CheckAll(calls: seq<Call>) returns (answers: seq<bool>, ok: bool)
      requires Valid() && forall i | 0 <= i < |calls| :: Sorts(calls[i].e) && calls[i].s.ntime != 0
      modifies this
      ensures Follows(old(Abstract()), calls, answers, ok) && (ok ==> |answers| == |calls|)
    {
      ghost var r := Abstract();
      answers, ok := [], true;
      while ok && |answers| < |calls|
        invariant Follows(r, calls, answers, ok)
        decreases |calls| - |answers|
      {
        answers, ok := CheckNext(r, calls, answers);
      }
    }
  }
}
