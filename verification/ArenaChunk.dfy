/** The page map of a chunk and the counters that arena.c keeps of its runs, updated in place.

    Besides the chunk's own counters the class has the arena's, as far as they depend on this chunk. */
module ArenaChunk {
  import opened Wrappers
  import opened ArenaRuns
  import opened ArenaMap
  import opened ArenaPurge

  class Chunk {
    const mapBias: nat
    const pages: array<Tag>
    var nrunsAvail: int
    var nrunsAdjac: int
    var ndirty: int
    var arenaDirty: int
    var runsAvail: set<(nat, nat)>
    var inDirtyTree: bool
    var nactive: int
    /** The chunk is the arena's spare. */
    var spare: bool

    /** The runs that the page map describes. */
    ghost var runs: seq<Run>
    /** Dirty and active pages of the arena's other chunks. */
    ghost const othersDirty: int
    ghost const othersActive: int

    ghost function Now(): Counters
      reads this
    {
      Counters(nrunsAvail, nrunsAdjac, ndirty, arenaDirty, runsAvail, inDirtyTree)
    }

    ghost predicate Valid()
      reads this, pages
    {
      Kept(pages[..], runs, Now(), nactive - othersActive, spare, mapBias, othersDirty)
    }

    /** A new chunk: one clean free run, which goes on the list. */
    constructor (bias: nat, npages: nat, dirty: int, active: int)
      requires bias < npages
      ensures Valid() && !spare && runs == [Run(bias, npages - bias, true, false)] && fresh(pages)
      ensures mapBias == bias && pages.Length == npages && othersDirty == dirty && othersActive == active
    {
      mapBias := bias;
      pages := new Tag[npages](_ => Tag(true, 0, false));
      nrunsAvail, nrunsAdjac, ndirty, runsAvail, inDirtyTree := 0, 0, 0, {}, false;
      arenaDirty, nactive, othersDirty, othersActive := dirty, active, dirty, active;
      spare := false;
      runs := [Run(bias, npages - bias, true, false)];
      new;
      hide Kept, Inserted;
      UnallocatedSet(bias, npages - bias, false);
      UnallocatedSet(npages - 1, npages - bias, false);
      NewKept(pages[..], bias, dirty);
      AvailInsert(bias, npages - bias, false, false);
    }

    // ----- the tags -----

    method UnallocatedSet(pageind: nat, size: nat, dirty: bool)
      requires pageind < pages.Length
      modifies pages
      ensures pages[..] == old(pages[..])[pageind := Tag(false, size, dirty)]
    {
      pages[pageind] := Tag(false, size, dirty);
    }

    method UnallocatedSizeSet(pageind: nat, size: nat)
      requires pageind < pages.Length
      modifies pages
      ensures pages[..] == old(pages[..])[pageind := old(pages[pageind]).(size := size)]
    {
      pages[pageind] := pages[pageind].(size := size);
    }

    method LargeSet(pageind: nat, size: nat, dirty: bool)
      requires pageind < pages.Length
      modifies pages
      ensures pages[..] == old(pages[..])[pageind := Tag(true, size, dirty)]
    {
      pages[pageind] := Tag(true, size, dirty);
    }

    /** The last page first, in case the run has only one. */
    method MarkLarge(runInd: nat, need: nat, dirty: bool)
      requires 0 < need && runInd + need <= pages.Length
      modifies pages
      ensures pages[..] == Redo(old(pages[..]), Run(runInd, need, false, dirty))
    {
      LargeSet(runInd + need - 1, 0, dirty);
      LargeSet(runInd, need, dirty);
    }

    // ----- the list of free runs -----

    method AvailInsert(pageind: nat, len: nat, maybePred: bool, maybeSucc: bool)
      requires 0 < len && pageind + len <= pages.Length && len == pages[pageind].size
      requires Differs(pages[..], mapBias, pageind, len, maybePred, maybeSucc)
      modifies this`nrunsAvail, this`nrunsAdjac, this`ndirty, this`arenaDirty, this`runsAvail, this`inDirtyTree
      ensures Now() == Inserted(old(Now()), pageind, len, pages[pageind].dirty,
                              Pairs(pages[..], mapBias, pageind, len, maybePred, maybeSucc))
    {
      hide AdjacPred, AdjacSucc, Differs;
      if ndirty != 0 { inDirtyTree := false; }
      if maybePred && AdjacPred(pages[..], mapBias, pageind) { nrunsAdjac := nrunsAdjac + 1; }
      if maybeSucc && AdjacSucc(pages[..], pageind, len) { nrunsAdjac := nrunsAdjac + 1; }
      nrunsAvail := nrunsAvail + 1;
      if pages[pageind].dirty {
        arenaDirty := arenaDirty + len;
        ndirty := ndirty + len;
      }
      if ndirty != 0 { inDirtyTree := true; }
      runsAvail := runsAvail + {(pageind, len)};
    }

    method AvailRemove(pageind: nat, len: nat, maybePred: bool, maybeSucc: bool)
      requires 0 < len && pageind + len <= pages.Length && len == pages[pageind].size
      requires Differs(pages[..], mapBias, pageind, len, maybePred, maybeSucc)
      modifies this`nrunsAvail, this`nrunsAdjac, this`ndirty, this`arenaDirty, this`runsAvail, this`inDirtyTree
      ensures Now() == Removed(old(Now()), pageind, len, pages[pageind].dirty,
                              Pairs(pages[..], mapBias, pageind, len, maybePred, maybeSucc))
    {
      hide AdjacPred, AdjacSucc, Differs;
      if ndirty != 0 { inDirtyTree := false; }
      if maybePred && AdjacPred(pages[..], mapBias, pageind) { nrunsAdjac := nrunsAdjac - 1; }
      if maybeSucc && AdjacSucc(pages[..], pageind, len) { nrunsAdjac := nrunsAdjac - 1; }
      nrunsAvail := nrunsAvail - 1;
      if pages[pageind].dirty {
        arenaDirty := arenaDirty - len;
        ndirty := ndirty - len;
      }
      if ndirty != 0 { inDirtyTree := true; }
      runsAvail := runsAvail - {(pageind, len)};
    }

    // ----- taking pages into use -----

    /** Takes free run i off the list, and puts back what the need leaves of it. */
    method SplitRemove(ghost i: nat, runInd: nat, dirty: bool, need: nat)
      requires Mapped(pages[..], runs, mapBias) && Counts(Now(), runs, othersDirty) && Coalesced(runs)
      requires i < |runs| && runs[i].free && runs[i].start == runInd && runs[i].dirty == dirty && 0 < need <= runs[i].len
      modifies pages, this`nrunsAvail, this`nrunsAdjac, this`ndirty, this`arenaDirty, this`runsAvail, this`inDirtyTree,
               this`nactive
      ensures End(runs[i]) <= pages.Length && pages[..] == SplitTags(old(pages[..]), runs[i], need)
      ensures Counts(Now(), Split(runs, i, need), othersDirty)
      ensures nactive == old(nactive) + need
    {
      hide Mapped, Tiles, Counts, Split, Differs, Pairs, One, PredFree, SuccFree, Coalesced, Described, Removed,
        Inserted;
      SplitSees(pages[..], runs, i, need, mapBias);
      MappedTiles(pages[..], runs, mapBias);
      SplitCounts(Now(), runs, i, need, othersDirty, mapBias, pages.Length);
      var total := pages[runInd].size;
      assert pages[runInd + total - 1].dirty == dirty;
      var rem := total - need;
      AvailRemove(runInd, total, true, true);
      nactive := nactive + need;
      if rem > 0 {
        UnallocatedSet(runInd + need, rem, dirty);
        UnallocatedSet(runInd + total - 1, rem, dirty);
        assert pages[..] == SplitTags(old(pages[..]), runs[i], need);
        AvailInsert(runInd + need, rem, false, true);
      }
    }

    /** The first pages of free run i come into use. */
    method SplitLarge(ghost i: nat, runInd: nat, need: nat)
      requires Valid() && !spare
      requires i < |runs| && runs[i].free && runs[i].start == runInd && 0 < need <= runs[i].len
      modifies this, pages
      ensures Valid() && !spare && runs == Split(old(runs), i, need)
    {
      hide Kept;
      hide Mapped, Tiles, Counts, Coalesced, Active, Described, Differs, Pairs, Split, SplitTags, Redo;
      KeptParts(pages[..], runs, Now(), nactive - othersActive, spare, mapBias, othersDirty);
      SplitSees(pages[..], runs, i, need, mapBias);
      var dirty := pages[runInd].dirty;
      ghost var m := pages[..];
      SplitRemove(i, runInd, dirty, need);
      SplitKept(m, runs, Now(), nactive - othersActive, i, need, mapBias, othersDirty);
      MarkLarge(runInd, need, dirty);
      runs := Split(runs, i, need);
    }

    /** The first pages of the best free run on the list; the spare, whose run is not listed, is used only if there is
        none.  Without a run another chunk is needed. */
    method AllocLarge(need: nat) returns (r: Option<nat>, ghost i: nat)
      requires Valid() && 0 < need <= pages.Length - mapBias
      modifies this, pages
      ensures Valid()
      ensures r.None? <==> !old(spare) && forall k :: 0 <= k < |old(runs)| && old(runs)[k].free ==> old(runs)[k].len < need
      ensures r.None? ==> runs == old(runs) && spare == old(spare) && pages[..] == old(pages[..])
      ensures r.Some? ==>
                && i < |old(runs)| && old(runs)[i].free && r.value == old(runs)[i].start && old(runs)[i].len >= need
                && (forall k :: 0 <= k < |old(runs)| && old(runs)[k].free && old(runs)[k].len >= need ==>
                      FitsBetter((old(runs)[i].start, old(runs)[i].len), (old(runs)[k].start, old(runs)[k].len)))
                && !spare && runs == Split(old(runs), i, need)
    {
      hide Kept, Split, BestFit;
      var size;
      r, size, i := Search(need);
      if r.Some? {
        SplitLarge(i, r.value, need);
      } else if spare {
        SpareWhole(pages[..], runs, Now(), nactive - othersActive, mapBias, othersDirty);
        ChunkReuse();
        i, r := 0, Some(mapBias);
        SplitLarge(0, mapBias, need);
      }
    }

    /** The best run on the list that is large enough. */
    method Search(need: nat) returns (r: Option<nat>, size: nat, ghost i: nat)
      requires Valid()
      ensures r.None? <==> spare || forall k :: 0 <= k < |runs| && runs[k].free ==> runs[k].len < need
      ensures r.Some? ==>
                && i < |runs| && runs[i].free && r.value == runs[i].start && runs[i].len == size >= need
                && forall k :: 0 <= k < |runs| && runs[k].free && runs[k].len >= need ==>
                     FitsBetter((runs[i].start, runs[i].len), (runs[k].start, runs[k].len))
    {
      hide Kept, FitsBetter;
      i, size := 0, 0;
      Listed(pages[..], runs, Now(), nactive - othersActive, spare, mapBias, othersDirty);
      if x :| x in runsAvail && BestFit(runsAvail, need, x) {
        r, size := Some(x.0), x.1;
        i :| 0 <= i < |runs| && runs[i].free && x == (runs[i].start, runs[i].len);
      } else {
        r := None;
        if k :| 0 <= k < |runs| && runs[k].free && runs[k].len >= need && !spare {
          BestFitExists(runsAvail, need, (runs[k].start, runs[k].len));
        }
      }
    }

    // ----- giving pages back -----

    /** Joins run i, just freed, to the free run behind it if that is as dirty. */
    method CoalesceForward(ghost i: nat, runInd: nat, runPages: nat, d: bool) returns (len: nat)
      requires Freed(pages[..], runs, Now(), i, d, mapBias, othersDirty)
      requires runs[i].start == runInd && runs[i].len == runPages
      modifies this`nrunsAvail, this`nrunsAdjac, this`ndirty, this`arenaDirty, this`runsAvail, this`inDirtyTree, this`runs,
               pages
      ensures Freed(pages[..], runs, Now(), i, d, mapBias, othersDirty) && runs == JoinRight(old(runs), i, d)
      ensures runs[i].start == runInd && runs[i].len == len
      ensures i + 1 < |runs| && runs[i + 1].free ==> runs[i + 1].dirty != d
    {
      hide Mapped, Counts, Freed, Described, Differs, Pairs, Redo, CoalescedBut, Removed, PredFree, SuccFree;
      FreedParts(pages[..], runs, Now(), i, d, mapBias, othersDirty);
      ForwardSees(pages[..], runs, i, d, mapBias);
      JoinRightCoalesced(runs, i, d);
      len := runPages;
      if runInd + runPages < pages.Length && !pages[runInd + runPages].inUse && pages[runInd + runPages].dirty == d {
        ForwardKept(pages[..], runs, Now(), i, d, mapBias, othersDirty);
        var next := pages[runInd + runPages].size;
        AvailRemove(runInd + runPages, next, false, true);
        len := len + next;
        SizeRun(runInd, len, d);
        runs := JoinRight(runs, i, d);
      }
    }

    /** Joins run i to the free run before it if that is as dirty. */
    method CoalesceBackward(ghost i: nat, runInd: nat, runPages: nat, d: bool) returns (ind: nat, len: nat, ghost j: nat)
      requires Freed(pages[..], runs, Now(), i, d, mapBias, othersDirty)
      requires runs[i].start == runInd && runs[i].len == runPages
      requires i + 1 < |runs| && runs[i + 1].free ==> runs[i + 1].dirty != d
      modifies this`nrunsAvail, this`nrunsAdjac, this`ndirty, this`arenaDirty, this`runsAvail, this`inDirtyTree, this`runs,
               pages
      ensures Freed(pages[..], runs, Now(), j, d, mapBias, othersDirty) && runs == JoinLeft(old(runs), i, d)
      ensures Coalesced(runs) && runs[j].start == ind && runs[j].len == len
    {
      hide Mapped, Counts, Freed, Described, Differs, Pairs, Redo, CoalescedBut, Removed, PredFree, SuccFree, Coalesced;
      FreedParts(pages[..], runs, Now(), i, d, mapBias, othersDirty);
      BackwardSees(pages[..], runs, i, d, mapBias);
      JoinLeftCoalesced(runs, i, d);
      ind, len, j := runInd, runPages, i;
      if runInd > mapBias && !pages[runInd - 1].inUse && pages[runInd - 1].dirty == d {
        BackwardKept(pages[..], runs, Now(), i, d, mapBias, othersDirty);
        var prev := pages[runInd - 1].size;
        ind := ind - prev;
        AvailRemove(ind, prev, true, false);
        len := len + prev;
        SizeRun(ind, len, d);
        runs := JoinLeft(runs, i, d);
        j := i - 1;
      }
    }

    /** The size is written at both ends of a joined run. */
    method SizeRun(ind: nat, len: nat, ghost d: bool)
      requires 1 < len && ind + len <= pages.Length
      requires !pages[ind].inUse && pages[ind].dirty == d && !pages[ind + len - 1].inUse && pages[ind + len - 1].dirty == d
      modifies pages
      ensures pages[..] == Redo(old(pages[..]), Run(ind, len, true, d))
    {
      UnallocatedSizeSet(ind, len);
      UnallocatedSizeSet(ind + len - 1, len);
    }

    /** A chunk that is one free run becomes the arena's spare: its run leaves the list. */
    method ChunkDealloc()
      requires Valid() && !spare && |runs| == 1 && runs[0].free
      modifies this
      ensures Valid() && spare && runs == old(runs) && nactive == old(nactive)
    {
      hide Kept, Removed;
      SpareKept(pages[..], runs, Now(), nactive - othersActive, mapBias, othersDirty);
      assert !pages[mapBias].inUse && !pages[pages.Length - 1].inUse;
      assert pages[mapBias].size == pages[pages.Length - 1].size == pages.Length - mapBias;
      assert pages[mapBias].dirty == pages[pages.Length - 1].dirty;
      AvailRemove(mapBias, pages.Length - mapBias, false, false);
      spare := true;
    }

    /** The spare chunk is used again. */
    method ChunkReuse()
      requires Valid() && spare
      modifies this
      ensures Valid() && !spare && runs == old(runs) && nactive == old(nactive)
    {
      hide Kept, Inserted;
      ReuseKept(pages[..], runs, Now(), nactive - othersActive, mapBias, othersDirty);
      spare := false;
      AvailInsert(mapBias, pages.Length - mapBias, false, false);
    }

    /** Run i is given back.  It is dirty if the caller says so, or if it was and the caller has not cleaned it. */
    method Dealloc(ghost i: nat, runInd: nat, dirty: bool, cleaned: bool)
      requires Valid() && !spare && i < |runs| && !runs[i].free && runs[i].start == runInd
      modifies this, pages
      ensures Valid() && runs == Release(old(runs), i, dirty || (!cleaned && old(runs)[i].dirty))
      ensures spare == (|runs| == 1)
    {
      hide Mapped, Counts, Freed, Kept, Differs, Pairs, Redo, CoalescedBut, Coalesced, Inserted, Active, JoinLeft,
        JoinRight, Tiles, PredFree, SuccFree, AdjacPred, AdjacSucc;
      ghost var before := runs;
      KeptParts(pages[..], runs, Now(), nactive - othersActive, spare, mapBias, othersDirty);
      Neighbours(pages[..], runs, i, mapBias);
      var runPages := pages[runInd].size;
      nactive := nactive - runPages;
      var d := dirty;
      assert pages[runInd].dirty == pages[runInd + runPages - 1].dirty;
      if !cleaned && pages[runInd].dirty { d := true; }
      GivenFreed(pages[..], runs, Now(), i, d, mapBias, othersDirty);
      ReleaseActive(runs, i, d);
      FreeRun(runInd, runPages, d);
      runs := Given(runs, i, d);
      assert runs[i] == Run(runInd, runPages, true, d);
      runPages := CoalesceForward(i, runInd, runPages, d);
      var ind;
      ghost var j;
      ind, runPages, j := CoalesceBackward(i, runInd, runPages, d);
      ListRun(j, ind, runPages, d);
    }

    /** The joined run goes on the list; a chunk that is one free run becomes the spare. */
    method ListRun(ghost j: nat, ind: nat, len: nat, ghost d: bool)
      requires Freed(pages[..], runs, Now(), j, d, mapBias, othersDirty) && Coalesced(runs) && !spare
      requires runs[j].start == ind && runs[j].len == len && nactive == othersActive + Active(runs)
      modifies this
      ensures Valid() && runs == old(runs) && spare == (|runs| == 1)
    {
      hide Mapped, Counts, Freed, Kept, Differs, Pairs, Coalesced, Inserted, Active, Tiles;
      FreedParts(pages[..], runs, Now(), j, d, mapBias, othersDirty);
      ListedKept(pages[..], runs, Now(), j, d, mapBias, othersDirty);
      AvailInsert(ind, len, true, true);
      if len == pages.Length - mapBias { ChunkDealloc(); }
    }

    method FreeRun(runInd: nat, len: nat, d: bool)
      requires 0 < len && runInd + len <= pages.Length
      modifies pages
      ensures pages[..] == Redo(old(pages[..]), Run(runInd, len, true, d))
    {
      UnallocatedSet(runInd, len, d);
      UnallocatedSet(runInd + len - 1, len, d);
    }

    /** Cuts run i in two; its tail is not yet given back. */
    method MarkCut(ghost i: nat, pageind: nat, n: nat)
      requires Valid() && !spare && i < |runs| && !runs[i].free && runs[i].start == pageind && 0 < n < runs[i].len
      modifies this`runs, pages
      ensures Valid() && !spare && runs == Cut(old(runs), i, n)
    {
      hide Kept, Redo, Cut;
      CutKept(pages[..], runs, Now(), nactive - othersActive, i, n, mapBias, othersDirty);
      var dirty, oldPages := pages[pageind].dirty, pages[pageind].size;
      MarkLarge(pageind, n, dirty);
      LargeSet(pageind + n, oldPages - n, dirty);
      runs := Cut(runs, i, n);
    }

    method TrimHead(ghost i: nat, pageind: nat, oldPages: nat, newPages: nat)
      requires Valid() && !spare && i < |runs| && !runs[i].free && runs[i].start == pageind
      requires runs[i].len == oldPages && 0 < newPages < oldPages
      modifies this, pages
      ensures
        var cut := Cut(old(runs), i, oldPages - newPages);
        Valid() && runs == Release(cut, i, old(runs)[i].dirty) && spare == (|runs| == 1)
    {
      hide Kept;
      MarkCut(i, pageind, oldPages - newPages);
      Dealloc(i, pageind, false, false);
    }

    method TrimTail(ghost i: nat, pageind: nat, oldPages: nat, newPages: nat, dirty: bool)
      requires Valid() && !spare && i < |runs| && !runs[i].free && runs[i].start == pageind
      requires runs[i].len == oldPages && 0 < newPages < oldPages
      modifies this, pages
      ensures
        var cut := Cut(old(runs), i, newPages);
        Valid() && runs == Release(cut, i + 1, dirty || old(runs)[i].dirty) && spare == (|runs| == 1)
    {
      hide Kept;
      MarkCut(i, pageind, newPages);
      Dealloc(i + 1, pageind + newPages, dirty, false);
    }

    // ----- growing in place -----

    /** Run i grows into the free run behind it, if that is large enough for size and takes up to extra pages more.
        A size below the old one never succeeds: the difference wraps around. */
    method RallocGrow(ghost i: nat, pageind: nat, oldPages: nat, size: nat, extra: nat) returns (failed: bool)
      requires Valid() && !spare && i < |runs| && !runs[i].free && runs[i].start == pageind && runs[i].len == oldPages
      requires size + extra > oldPages
      modifies this, pages
      ensures Valid() && !spare
      ensures failed == !(i + 1 < |old(runs)| && old(runs)[i + 1].free && size >= oldPages
                          && old(runs)[i + 1].len >= size - oldPages)
      ensures failed ==> runs == old(runs) && pages[..] == old(pages[..])
      ensures !failed ==>
                var follow := old(runs)[i + 1].len;
                var more := if oldPages + follow <= size + extra then follow else size + extra - oldPages;
                0 < more <= follow && runs == Grown(Split(old(runs), i + 1, more), i)
    {
      hide Kept, Redo, Grown, Mapped, Counts, Coalesced, Active, Tiles, Split, PredFree, SuccFree, AdjacPred, AdjacSucc;
      KeptParts(pages[..], runs, Now(), nactive - othersActive, spare, mapBias, othersDirty);
      Neighbours(pages[..], runs, i, mapBias);
      failed := true;
      if pageind + oldPages < pages.Length && !pages[pageind + oldPages].inUse
         && size >= oldPages && pages[pageind + oldPages].size >= size - oldPages {
        var follow := pages[pageind + oldPages].size;
        var more := if oldPages + follow <= size + extra then follow else size + extra - oldPages;
        SplitFirst(runs, i + 1, more);
        SplitLarge(i + 1, pageind + oldPages, more);
        GrownKept(pages[..], runs, Now(), nactive - othersActive, i, mapBias, othersDirty);
        MarkGrown(pageind, oldPages + more);
        runs := Grown(runs, i);
        failed := false;
      }
    }

    /** The grown run is dirty if either part was. */
    method MarkGrown(pageind: nat, len: nat)
      requires 1 < len && pageind + len <= pages.Length
      modifies pages
      ensures pages[..] == Redo(old(pages[..]), Run(pageind, len, false, old(pages[pageind].dirty || pages[pageind + len - 1].dirty)))
    {
      var dirty := pages[pageind].dirty || pages[pageind + len - 1].dirty;
      LargeSet(pageind, len, dirty);
      LargeSet(pageind + len - 1, 0, dirty);
    }

    // ----- purging -----

    /** Takes dirty free runs into use: all of them, or those beside another free run. */
    method StashDirty(all: bool) returns (list: seq<nat>)
      requires Valid() && !spare
      modifies this, pages
      ensures Valid() && !spare && runs == Stashed(old(runs), all, |old(runs)|)
      ensures list == Starts(Taken(old(runs), all, |old(runs)|))
      ensures nrunsAdjac == 0 && (all ==> ndirty == 0)
    {
      hide Kept, Stashed, Taken, Purgeable, Mapped, Tiles, Coalesced, Split, Active, Counts, Picked, AdjacPred,
        AdjacSucc;
      ghost var before, n := runs, |runs|;
      ghost var k := 0;
      var pageind := mapBias;
      list := [];
      StashStart(pages[..], runs, all, Now(), nactive - othersActive, mapBias, othersDirty);
      while pageind < pages.Length
        invariant Coalesced(before) && Tiles(before, mapBias, pages.Length) && n == |before|
        invariant Valid() && !spare && k <= n && runs == Stashed(before, all, k) && list == Starts(Taken(before, all, k))
        invariant if k < n then pageind == before[k].start < pages.Length else pageind == pages.Length
        decreases n - k
      {
        var len;
        len, list := StashOne(before, k, all, pageind, list);
        pageind := pageind + len;
        k := k + 1;
      }
      StashDone(pages[..], before, all, Now(), nactive - othersActive, mapBias, othersDirty);
    }

    /** Looks at run k. */
    method StashOne(ghost before: seq<Run>, ghost k: nat, all: bool, pageind: nat, sofar: seq<nat>)
      returns (len: nat, list: seq<nat>)
      requires Valid() && !spare && Coalesced(before) && Tiles(before, mapBias, pages.Length) && k < |before|
      requires runs == Stashed(before, all, k) && sofar == Starts(Taken(before, all, k)) && pageind == before[k].start
      modifies this, pages
      ensures Valid() && !spare && runs == Stashed(before, all, k + 1) && list == Starts(Taken(before, all, k + 1))
      ensures if k + 1 < |before| then pageind + len == before[k + 1].start < pages.Length else pageind + len == pages.Length
    {
      hide Kept, Stashed, Taken, Purgeable, Mapped, Tiles, Coalesced, Split, Active, Counts, Picked, AdjacPred,
        AdjacSucc;
      list := sofar;
      KeptParts(pages[..], runs, Now(), nactive - othersActive, spare, mapBias, othersDirty);
      StashSees(pages[..], before, all, k, mapBias);
      len := pages[pageind].size;
      if !pages[pageind].inUse {
        assert pages[pageind].dirty == pages[pageind + len - 1].dirty;
        if pages[pageind].dirty && (all || AdjacPred(pages[..], mapBias, pageind) || AdjacSucc(pages[..], pageind, len)) {
          SplitLarge(k, pageind, len);
          list := list + [pageind];
        }
      }
    }

    /** The pages of the stashed runs are given to the system meanwhile; here they are only counted. */
    method PurgeStashed(list: seq<nat>, ghost taken: seq<Run>) returns (npurged: nat)
      requires Mapped(pages[..], runs, mapBias) && Pending(runs, taken) && list == Starts(taken)
      ensures npurged == Pages(taken)
    {
      hide Mapped, Described;
      npurged := 0;
      for n := 0 to |list|
        invariant npurged == Pages(taken[..n])
      {
        ghost var i := RunTags(pages[..], runs, mapBias, taken[n]);
        DescribedSize(pages[..], taken[n]);
        PagesTo(taken, n);
        npurged := npurged + pages[list[n]].size;
      }
      assert taken[..|list|] == taken;
    }

    /** Gives the stashed runs back clean. */
    method UnstashPurged(list: seq<nat>, ghost taken: seq<Run>)
      requires Valid() && !spare && Pending(runs, taken) && list == Starts(taken) && Apart(runs, taken)
      modifies this, pages
      ensures Valid() && nactive == old(nactive) - Pages(taken) && Dirty(runs) == Dirty(old(runs))
      ensures spare ==> |runs| == 1 && !runs[0].dirty
      ensures nrunsAdjac == 0
    {
      hide Kept, Pending, Apart, Release, Mapped, Active, Dirty, Described, Counts, Coalesced;
      var n := 0;
      assert taken[0..] == taken;
      while n < |list|
        invariant n <= |list| && Valid() && Pending(runs, taken[n..]) && Apart(runs, taken[n..])
        invariant spare ==> |runs| == 1 && !runs[0].dirty && n == |list|
        invariant nactive == old(nactive) - Pages(taken) + Pages(taken[n..]) && Dirty(runs) == Dirty(old(runs))
      {
        ghost var i := UnstashStep(runs, taken[n..]);
        KeptParts(pages[..], runs, Now(), nactive - othersActive, spare, mapBias, othersDirty);
        assert taken[n..][1..] == taken[n + 1..];
        Dealloc(i, list[n], false, true);
        KeptParts(pages[..], runs, Now(), nactive - othersActive, spare, mapBias, othersDirty);
        n := n + 1;
      }
      assert Pages(taken[n..]) == 0;
      UnstashDone(pages[..], runs, taken[n..], Now(), nactive - othersActive, spare, mapBias, othersDirty);
    }

    /** Purges dirty pages: all of them, if asked or if none are fragments, else those that are.  The caller takes the
        chunk from the tree of chunks with dirty pages, so it is never the spare. */
    method Purge(everything: bool) returns (npurged: nat)
      requires Valid() && inDirtyTree
      modifies this, pages
      ensures Valid() && nactive == old(nactive) && nrunsAdjac == 0
      ensures ndirty == old(ndirty) - npurged && npurged > 0
      ensures npurged == Pages(Taken(old(runs), everything || old(nrunsAdjac) == 0, |old(runs)|))
      ensures everything || old(nrunsAdjac) == 0 ==> ndirty == 0
    {
      hide Kept, Pending, Apart, Mapped, Active, Dirty, Described, Counts, Coalesced, Taken, Tiles, Stashed,
        Starts, Adjac;
      SpareNotDirty(pages[..], runs, Now(), nactive - othersActive, spare, mapBias, othersDirty);
      ghost var before := runs;
      var all := everything || nrunsAdjac == 0;
      PurgeStart(pages[..], runs, all, Now(), nactive - othersActive, mapBias, othersDirty);
      ghost var taken := Taken(runs, all, |runs|);
      var list := StashDirty(all);
      KeptParts(pages[..], runs, Now(), nactive - othersActive, spare, mapBias, othersDirty);
      npurged := PurgeStashed(list, taken);
      UnstashPurged(list, taken);
      PurgeDone(pages[..], runs, Now(), nactive - othersActive, spare, mapBias, othersDirty);
    }
  }
}
