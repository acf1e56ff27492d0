/** An arena with its chunks: where runs come from, what becomes of the spare chunk, and how dirty pages are purged
    until few are left.  Each chunk counts its share; the arena's counters are the sums. */
module ArenaPool {
  import opened Wrappers
  import opened ArenaRuns
  import opened ArenaMap
  import opened ArenaOrder
  import opened ArenaPurge
  import opened ArenaChunk

  const WORD: int := 0x1_0000_0000_0000_0000

  function Sum(s: seq<int>): int { if s == [] then 0 else Sum(s[..|s| - 1]) + s[|s| - 1] }

  lemma {:induction false} SumUpdate(s: seq<int>, k: nat, v: int)
    requires k < |s|
    ensures Sum(s[k := v]) == Sum(s) - s[k] + v
  {
    var n := |s| - 1;
    if k == n { assert s[k := v][..n] == s[..n]; }
    else {
      assert s[k := v][..n] == s[..n][k := v];
      SumUpdate(s[..n], k, v);
    }
  }

  lemma {:induction false} SumWithout(s: seq<int>, k: nat)
    requires k < |s| && s[k] == 0
    ensures Sum(s[..k] + s[k + 1..]) == Sum(s)
  {
    var n := |s| - 1;
    if k == n { assert s[..k] + s[k + 1..] == s[..n]; }
    else {
      var u := s[..k] + s[k + 1..];
      assert u[..|u| - 1] == s[..n][..k] + s[..n][k + 1..];
      SumWithout(s[..n], k);
    }
  }

  lemma {:induction false} SumInsert(s: seq<int>, k: nat)
    requires k <= |s|
    ensures Sum(s[..k] + [0] + s[k..]) == Sum(s)
  {
    var u := s[..k] + [0] + s[k..];
    SumWithout(u, k);
    assert u[..k] + u[k + 1..] == s;
  }

  lemma {:induction false} SumPositive(s: seq<int>)
    requires forall i :: 0 <= i < |s| ==> s[i] >= 0
    ensures Sum(s) >= 0 && (Sum(s) == 0 <==> forall i :: 0 <= i < |s| ==> s[i] == 0)
  {
    if s != [] {
      SumPositive(s[..|s| - 1]);
      if Sum(s) == 0 { forall i | 0 <= i < |s| ensures s[i] == 0 { if i < |s| - 1 { assert s[..|s| - 1][i] == 0; } } }
    }
  }

  function PagesOf(cs: seq<Chunk>): set<array<Tag>> { set i | 0 <= i < |cs| :: cs[i].pages }

  ghost function Dirties(cs: seq<Chunk>): (s: seq<int>)
    reads cs
    ensures |s| == |cs| && forall i :: 0 <= i < |s| ==> s[i] == cs[i].ndirty
  {
    if cs == [] then [] else Dirties(cs[..|cs| - 1]) + [cs[|cs| - 1].ndirty]
  }

  ghost function Actives(cs: seq<Chunk>): (s: seq<int>)
    reads cs
    ensures |s| == |cs| && forall i :: 0 <= i < |s| ==> s[i] == cs[i].nactive
  {
    if cs == [] then [] else Actives(cs[..|cs| - 1]) + [cs[|cs| - 1].nactive]
  }

  /** In the order of the tree of free runs: smaller ones first, then by chunk and place. */
  predicate FitsFirst(size: nat, k: nat, page: nat, size': nat, k': nat, page': nat) {
    size < size' || (size == size' && (k < k' || (k == k' && page <= page')))
  }

  /** Different chunks have different maps. */
  ghost predicate Separate(cs: seq<Chunk>) {
    forall i, j :: 0 <= i < j < |cs| ==> cs[i] != cs[j] && cs[i].pages != cs[j].pages
  }

  class Arena {
    const mapBias: nat
    const npages: nat
    /** Two to the power of opt_lg_dirty_mult. */
    const mult: nat
    /** In the order of their addresses. */
    var chunks: seq<Chunk>
    var spare: Chunk?
    var ndirty: int
    var nactive: int

    ghost predicate Good(c: Chunk)
      reads c, c.pages
    {
      c.Valid() && c.mapBias == mapBias && c.pages.Length == npages && c.othersDirty == 0 && c.othersActive == 0
    }

    ghost predicate Valid()
      reads this, chunks, PagesOf(chunks)
    {
      && mapBias < npages && mult > 0 && Separate(chunks)
      && (forall i :: 0 <= i < |chunks| ==> Good(chunks[i]) && (chunks[i].spare <==> spare == chunks[i]))
      && (spare != null ==> spare in chunks)
      && ndirty == Sum(Dirties(chunks)) && nactive == Sum(Actives(chunks))
    }

    constructor (mapBias: nat, npages: nat, mult: nat)
      requires mapBias < npages && mult > 0
      ensures Valid() && chunks == [] && this.mapBias == mapBias && this.npages == npages && this.mult == mult
    {
      this.mapBias, this.npages, this.mult := mapBias, npages, mult;
      chunks, spare, ndirty, nactive := [], null, 0, 0;
    }

    /** What chunk k counts has changed; the arena's counters follow. */
    method Follow(c: Chunk, d0: int, a0: int, ghost k: nat, ghost ds: seq<int>, ghost as_: seq<int>)
      requires k < |chunks| && chunks[k] == c && |ds| == |as_| == |chunks| && ds[k] == d0 && as_[k] == a0
      requires Dirties(chunks) == ds[k := c.ndirty] && Actives(chunks) == as_[k := c.nactive]
      requires ndirty == Sum(ds) && nactive == Sum(as_)
      modifies this`ndirty, this`nactive
      ensures ndirty == Sum(Dirties(chunks)) && nactive == Sum(Actives(chunks))
      ensures ndirty == old(ndirty) + c.ndirty - d0 && nactive == old(nactive) + c.nactive - a0
    {
      hide Sum, Dirties, Actives;
      SumUpdate(ds, k, c.ndirty);
      SumUpdate(as_, k, c.nactive);
      ndirty := ndirty + c.ndirty - d0;
      nactive := nactive + c.nactive - a0;
    }

    /** The first pages of a free run of chunk k come into use. */
    method SplitIn(c: Chunk, ghost k: nat, ghost i: nat, runInd: nat, need: nat)
      requires Valid() && k < |chunks| && chunks[k] == c && !c.spare
      requires i < |c.runs| && c.runs[i].free && c.runs[i].start == runInd && 0 < need <= c.runs[i].len
      modifies this`ndirty, this`nactive, c, c.pages
      ensures Valid() && nactive == old(nactive) + need && c.runs == Split(old(c.runs), i, need)
    {
      hide Split, Sum, Dirties, Actives, Good;
      ghost var ds, as_ := Dirties(chunks), Actives(chunks);
      var d0, a0 := c.ndirty, c.nactive;
      TakeOf(c, i, runInd, need);
      Follow(c, d0, a0, k, ds, as_);
    }

    method TakeOf(c: Chunk, ghost i: nat, runInd: nat, need: nat)
      requires Good(c) && !c.spare
      requires i < |c.runs| && c.runs[i].free && c.runs[i].start == runInd && 0 < need <= c.runs[i].len
      modifies c, c.pages
      ensures Good(c) && !c.spare && c.nactive == old(c.nactive) + need && c.runs == Split(old(c.runs), i, need)
    {
      hide Kept, Split, Active;
      KeptParts(c.pages[..], c.runs, c.Now(), c.nactive - c.othersActive, c.spare, c.mapBias, c.othersDirty);
      SplitActive(c.runs, i, need);
      c.SplitLarge(i, runInd, need);
      KeptParts(c.pages[..], c.runs, c.Now(), c.nactive - c.othersActive, c.spare, c.mapBias, c.othersDirty);
    }

    method GiveTo(c: Chunk, ghost i: nat, runInd: nat, dirty: bool, cleaned: bool)
      requires Good(c) && !c.spare && i < |c.runs| && !c.runs[i].free && c.runs[i].start == runInd
      modifies c, c.pages
      ensures Good(c) && c.spare == (|c.runs| == 1) && c.nactive == old(c.nactive) - old(c.runs[i].len)
      ensures c.runs == Release(old(c.runs), i, dirty || (!cleaned && old(c.runs)[i].dirty))
    {
      hide Kept, Release, Active;
      KeptParts(c.pages[..], c.runs, c.Now(), c.nactive - c.othersActive, c.spare, c.mapBias, c.othersDirty);
      ReleaseActive(c.runs, i, dirty || (!cleaned && c.runs[i].dirty));
      c.Dealloc(i, runInd, dirty, cleaned);
      KeptParts(c.pages[..], c.runs, c.Now(), c.nactive - c.othersActive, c.spare, c.mapBias, c.othersDirty);
    }

    /** Valid, but for chunk c, which has become a spare chunk and is not yet the arena's. */
    ghost predicate ValidBut(c: Chunk)
      reads this, chunks, PagesOf(chunks)
    {
      && mapBias < npages && mult > 0 && Separate(chunks)
      && (forall i :: 0 <= i < |chunks| ==>
            Good(chunks[i]) && (chunks[i].spare <==> spare == chunks[i] || c == chunks[i]))
      && (spare != null ==> spare in chunks)
      && ndirty == Sum(Dirties(chunks)) && nactive == Sum(Actives(chunks))
    }

    /** A run of chunk k is given back.  If the chunk is one free run then, it becomes the spare, and another spare is given
        to the system. */
    method Dealloc(c: Chunk, ghost k: nat, ghost i: nat, runInd: nat, dirty: bool, cleaned: bool)
      requires Valid() && k < |chunks| && chunks[k] == c && !c.spare
      requires i < |c.runs| && !c.runs[i].free && c.runs[i].start == runInd
      modifies this`ndirty, this`nactive, this`chunks, this`spare, c, c.pages
      ensures Valid() && c in chunks && nactive == old(nactive) - old(c.runs[i].len)
      ensures c.runs == Release(old(c.runs), i, dirty || (!cleaned && old(c.runs)[i].dirty))
      ensures if |c.runs| == 1 then spare == c && forall x :: x in chunks <==> x in old(chunks) && x != old(spare)
              else spare == old(spare) && chunks == old(chunks)
    {
      hide Release, Sum, Dirties, Actives, Good, Separate;
      GiveBack(c, k, i, runInd, dirty, cleaned);
      if c.spare {
        if spare != null { Discard(c); }
        spare := c;
      }
    }

    method GiveBack(c: Chunk, ghost k: nat, ghost i: nat, runInd: nat, dirty: bool, cleaned: bool)
      requires Valid() && k < |chunks| && chunks[k] == c && !c.spare
      requires i < |c.runs| && !c.runs[i].free && c.runs[i].start == runInd
      modifies this`ndirty, this`nactive, c, c.pages
      ensures nactive == old(nactive) - old(c.runs[i].len) && spare != c
      ensures c.runs == Release(old(c.runs), i, dirty || (!cleaned && old(c.runs)[i].dirty))
      ensures c.spare == (|c.runs| == 1) && if c.spare then ValidBut(c) else Valid()
    {
      hide Release, Sum, Dirties, Actives, Good;
      ghost var ds, as_ := Dirties(chunks), Actives(chunks);
      var d0, a0 := c.ndirty, c.nactive;
      GiveTo(c, i, runInd, dirty, cleaned);
      Follow(c, d0, a0, k, ds, as_);
    }

    lemma SpareIsNothing(c: Chunk)
      requires Good(c) && c.spare
      ensures c.ndirty == 0 && c.nactive == 0
    {
      hide Kept;
      SpareCountsNothing(c.pages[..], c.runs, c.Now(), c.nactive - c.othersActive, c.mapBias, c.othersDirty);
    }

    /** The old spare chunk leaves the arena; another one, c, takes its place. */
    method Discard(c: Chunk)
      requires ValidBut(c) && spare != null && spare != c && c in chunks
      modifies this`chunks
      ensures forall x :: x in chunks <==> x in old(chunks) && x != spare
      ensures Separate(chunks) && ndirty == Sum(Dirties(chunks)) && nactive == Sum(Actives(chunks))
      ensures forall i :: 0 <= i < |chunks| ==> Good(chunks[i]) && (chunks[i].spare <==> c == chunks[i])
    {
      hide Sum, Dirties, Actives, Good, Separate;
      var j: nat :| j < |chunks| && chunks[j] == spare;
      SpareIsNothing(chunks[j]);
      WithoutSpare(chunks, j);
      Left(chunks, j);
      chunks := chunks[..j] + chunks[j + 1..];
    }

    // ----- taking a run from any chunk -----

    /** A free run that is large enough, of a chunk that is not the spare. */
    ghost predicate Fits(k: nat, i: nat, need: nat)
      reads this, chunks
    {
      k < |chunks| && !chunks[k].spare && i < |chunks[k].runs| && chunks[k].runs[i].free && chunks[k].runs[i].len >= need
    }

    /** The first of these in the order of the tree. */
    ghost predicate Best(k: nat, i: nat, need: nat, n: nat)
      reads this, chunks
    {
      && Fits(k, i, need) && k < n
      && forall k': nat, i': nat :: k' < n && Fits(k', i', need) ==>
           FitsFirst(chunks[k].runs[i].len, k, chunks[k].runs[i].start, chunks[k'].runs[i'].len, k', chunks[k'].runs[i'].start)
    }

    ghost predicate AnyFits(need: nat)
      reads this, chunks
    {
      exists k: nat, i: nat :: Fits(k, i, need)
    }

    ghost predicate NoneFits(need: nat, n: nat)
      reads this, chunks
    {
      forall k: nat, i: nat :: k < n ==> !Fits(k, i, need)
    }

    /** What Search finds in a chunk. */
    ghost predicate FoundIn(c: Chunk, need: nat, r: Option<nat>, size: nat, i: nat)
      reads c
    {
      && (r.None? <==> c.spare || forall k :: 0 <= k < |c.runs| && c.runs[k].free ==> c.runs[k].len < need)
      && (r.Some? ==>
            && i < |c.runs| && c.runs[i].free && r.value == c.runs[i].start && c.runs[i].len == size >= need
            && forall k :: 0 <= k < |c.runs| && c.runs[k].free && c.runs[k].len >= need ==>
                 FitsBetter((c.runs[i].start, c.runs[i].len), (c.runs[k].start, c.runs[k].len)))
    }

    method SearchAll(need: nat) returns (found: bool, k: nat, page: nat, ghost i: nat)
      requires Valid()
      ensures found <==> AnyFits(need)
      ensures found ==> Best(k, i, need, |chunks|) && chunks[k].runs[i].start == page
    {
      hide Sum, Dirties, Actives, Separate, NoneFits, FoundIn, Good;
      found, k, page, i := false, 0, 0, 0;
      var size := 0;
      NoneYet(need);
      for n := 0 to |chunks|
        invariant if found then Best(k, i, need, n) && chunks[k].runs[i].start == page && chunks[k].runs[i].len == size
                  else NoneFits(need, n)
      {
        var r, len, j := SearchIn(chunks[n], need);
        if r.None? { NotHere(found, k, i, need, n, len, j); } else { Here(found, k, i, need, n, r, len, j); }
        if r.Some? && (!found || len < size) {
          found, k, page, i, size := true, n, r.value, j, len;
        }
      }
      if !found { NoneAtAll(need); }
    }

    lemma NoneYet(need: nat)
      ensures NoneFits(need, 0)
    {
    }

    lemma NoneAtAll(need: nat)
      requires NoneFits(need, |chunks|)
      ensures !AnyFits(need)
    {
    }

    lemma NotHere(found: bool, k: nat, i: nat, need: nat, n: nat, len: nat, j: nat)
      requires n < |chunks| && FoundIn(chunks[n], need, None, len, j)
      requires if found then Best(k, i, need, n) else NoneFits(need, n)
      ensures if found then Best(k, i, need, n + 1) else NoneFits(need, n + 1)
    {
    }

    lemma Here(found: bool, k: nat, i: nat, need: nat, n: nat, r: Option<nat>, len: nat, j: nat)
      requires n < |chunks| && r.Some? && FoundIn(chunks[n], need, r, len, j)
      requires if found then Best(k, i, need, n) else NoneFits(need, n)
      ensures if !found || len < chunks[k].runs[i].len then Best(n, j, need, n + 1) && chunks[n].runs[j].start == r.value
                                                             && chunks[n].runs[j].len == len
              else Best(k, i, need, n + 1)
    {
    }

    method SearchIn(c: Chunk, need: nat) returns (r: Option<nat>, size: nat, ghost i: nat)
      requires Good(c)
      ensures FoundIn(c, need, r, size, i)
    {
      hide Kept;
      r, size, i := c.Search(need);
    }

    /** The first pages of the best run of all chunks; else of the spare chunk; else of a new chunk, if there is more
        memory, which goes to its place among the others. */
    method AllocLarge(need: nat, more: bool, at: nat) returns (ok: bool, k: nat, ghost i: nat, page: nat)
      requires Valid() && 0 < need <= npages - mapBias && at <= |chunks|
      modifies this, chunks, PagesOf(chunks)
      ensures Valid()
      ensures ok <==> more || old(spare) != null || old(AnyFits(need))
      ensures !ok ==> chunks == old(chunks) && nactive == old(nactive)
      ensures ok ==> nactive == old(nactive) + need && k < |chunks|
      ensures ok && old(AnyFits(need)) ==>
                && chunks == old(chunks) && spare == old(spare) && old(Best(k, i, need, |chunks|))
                && chunks[k].runs == Split(old(chunks[k].runs), i, need)
      ensures ok && old(spare) != null && !old(AnyFits(need)) ==>
                chunks == old(chunks) && spare == null && chunks[k] == old(spare)
                && |old(spare.runs)| == 1 && old(spare.runs)[0].len == npages - mapBias
                && chunks[k].runs == Split(old(spare.runs), 0, need)
      ensures ok && old(spare) == null && !old(AnyFits(need)) ==>
                chunks == old(chunks[..at]) + [chunks[k]] + old(chunks[at..]) && fresh(chunks[k]) && fresh(chunks[k].pages)
                && k == at && !chunks[k].spare && chunks[k].runs == Split([Run(mapBias, npages - mapBias, true, false)], 0, need)
    {
      hide Sum, Dirties, Actives, Separate, Good, Split, AnyFits;
      ok := true;
      var found;
      found, k, page, i := SearchAll(need);
      if found {
        SplitIn(chunks[k], k, i, page, need);
      } else if spare != null {
        k, i, page := UseSpare(need);
      } else if more {
        k, i, page := UseNew(need, at);
      } else {
        ok := false;
      }
    }

    method UseSpare(need: nat) returns (k: nat, ghost i: nat, page: nat)
      requires Valid() && 0 < need <= npages - mapBias && spare != null
      modifies this`spare, this`ndirty, this`nactive, spare, spare.pages
      ensures Valid() && spare == null && nactive == old(nactive) + need && i == 0 && page == mapBias
      ensures |old(spare.runs)| == 1 && old(spare.runs)[0].len == npages - mapBias
      ensures k < |chunks| && chunks[k] == old(spare) && chunks[k].runs == Split(old(spare.runs), 0, need)
    {
      hide Sum, Dirties, Actives, Good, Split;
      var c := spare;
      k :| 0 <= k < |chunks| && chunks[k] == c;
      ghost var ds, as_ := Dirties(chunks), Actives(chunks);
      var d0, a0 := c.ndirty, c.nactive;
      Reuse(c, need);
      spare := null;
      assert Dirties(chunks) == ds[k := c.ndirty];
      assert Actives(chunks) == as_[k := c.nactive];
      Follow(c, d0, a0, k, ds, as_);
      i, page := 0, mapBias;
    }

    method Reuse(c: Chunk, need: nat)
      requires Good(c) && c.spare && 0 < need <= npages - mapBias && mapBias < npages
      modifies c, c.pages
      ensures |old(c.runs)| == 1 && old(c.runs)[0].len == npages - mapBias
      ensures Good(c) && !c.spare && c.nactive == old(c.nactive) + need && c.runs == Split(old(c.runs), 0, need)
    {
      hide Kept, Split;
      SpareWhole(c.pages[..], c.runs, c.Now(), c.nactive - c.othersActive, c.mapBias, c.othersDirty);
      c.ChunkReuse();
      TakeOf(c, 0, mapBias, need);
    }

    method UseNew(need: nat, at: nat) returns (k: nat, ghost i: nat, page: nat)
      requires Valid() && 0 < need <= npages - mapBias && spare == null && at <= |chunks|
      modifies this`chunks, this`ndirty, this`nactive
      ensures Valid() && nactive == old(nactive) + need && i == 0 && page == mapBias && k == at < |chunks|
      ensures chunks == old(chunks[..at]) + [chunks[k]] + old(chunks[at..]) && fresh(chunks[k]) && fresh(chunks[k].pages)
      ensures !chunks[k].spare
      ensures chunks[k].runs == Split([Run(mapBias, npages - mapBias, true, false)], 0, need)
    {
      hide Sum, Dirties, Actives, Good, Split, Separate;
      AddChunk(at);
      k, i, page := at, 0, mapBias;
      SplitIn(chunks[at], at, 0, mapBias, need);
    }

    /** A new chunk at its place among the others. */
    method AddChunk(at: nat)
      requires Valid() && at <= |chunks|
      modifies this`chunks
      ensures Valid() && at < |chunks| && fresh(chunks[at]) && fresh(chunks[at].pages)
      ensures chunks == old(chunks[..at]) + [chunks[at]] + old(chunks[at..])
      ensures !chunks[at].spare && chunks[at].runs == [Run(mapBias, npages - mapBias, true, false)]
    {
      hide Sum, Dirties, Actives, Good;
      var c := NewChunk();
      WithChunk(chunks, at, c);
      chunks := chunks[..at] + [c] + chunks[at..];
    }

    method NewChunk() returns (c: Chunk)
      requires mapBias < npages
      ensures fresh(c) && fresh(c.pages) && Good(c) && !c.spare && c.ndirty == 0 && c.nactive == 0
      ensures c.runs == [Run(mapBias, npages - mapBias, true, false)]
    {
      hide Kept;
      c := new Chunk(mapBias, npages, 0, 0);
      KeptParts(c.pages[..], c.runs, c.Now(), c.nactive - c.othersActive, c.spare, c.mapBias, c.othersDirty);
      OneCleanRun(c.runs);
    }

    // ----- purging -----

    /** The first chunk in the order of purging, if any has dirty pages. */
    method FirstDirty() returns (r: Option<nat>)
      requires Valid()
      ensures r.None? ==> ndirty == 0 && NoneDirty(|chunks|)
      ensures r.Some? ==> r.value < |chunks| && chunks[r.value].inDirtyTree && IsFirst(r.value, |chunks|)
      ensures r.Some? ==> LeastFragmented(r.value)
      ensures
        r.Some? && (exists i :: 0 <= i < |chunks| && chunks[i].inDirtyTree && chunks[i].nrunsAdjac == 0)
        ==> chunks[r.value].nrunsAdjac == 0
    {
      hide Sum, Dirties, Actives, Separate, Good, LeastFragmented;
      r := None;
      for n := 0 to |chunks|
        invariant if r.Some? then IsFirst(r.value, n) else NoneDirty(n)
      {
        InOrder(chunks[n], n);
        if chunks[n].inDirtyTree {
          if r.None? {
            r := Some(n);
          } else {
            InOrder(chunks[r.value], r.value);
            var comes := Before(KeyOf(chunks[n], n), KeyOf(chunks[r.value], r.value));
            ComesFirst(r.value, n, comes);
            if comes { r := Some(n); }
          }
        }
      }
      if r.None? { NoDirtyPages(); } else { FirstIsLeast(r.value); }
    }

    /** Chunk k has dirty pages, and of all chunks that have some it is the least fragmented one; of several it is the last one
        if they have no fragments, and else the first one. */
    ghost predicate LeastFragmented(k: nat)
      reads this, chunks
    {
      && k < |chunks| && chunks[k].inDirtyTree && InTree(KeyOf(chunks[k], k))
      && forall i :: 0 <= i < |chunks| && i != k && chunks[i].inDirtyTree ==>
           InTree(KeyOf(chunks[i], i)) &&
           var x, y := Fragmentation(KeyOf(chunks[k], k)), Fragmentation(KeyOf(chunks[i], i));
           x < y || (x == y && if chunks[k].nrunsAdjac == 0 then k > i else k < i)
    }

    lemma FirstIsLeast(k: nat)
      requires Valid() && IsFirst(k, |chunks|)
      ensures LeastFragmented(k)
      ensures
        (exists i :: 0 <= i < |chunks| && chunks[i].inDirtyTree && chunks[i].nrunsAdjac == 0) ==> chunks[k].nrunsAdjac == 0
    {
      hide DirtyComp, Fragmentation, Sum, Dirties, Actives, Separate, Good;
      InOrder(chunks[k], k);
      var a := KeyOf(chunks[k], k);
      forall i | 0 <= i < |chunks| && i != k && chunks[i].inDirtyTree
        ensures
          var x, y := Fragmentation(a), Fragmentation(KeyOf(chunks[i], i));
          x < y || (x == y && if chunks[k].nrunsAdjac == 0 then k > i else k < i)
        ensures chunks[i].nrunsAdjac == 0 ==> chunks[k].nrunsAdjac == 0
      {
        var b := KeyOf(chunks[i], i);
        InOrder(chunks[i], i);
        assert Before(a, b);
        BeforeExactly(a, b);
        if b.adjac == 0 < a.adjac { UnfragmentedFirst(b, a); }
      }
    }

    /** The first round wraps around only if every chunk with dirty pages has fragments. */
    lemma WrapsOnlyFragmented(all: bool, asked: int)
      requires Valid() && FirstOvershoots(all, asked)
      ensures forall i :: 0 <= i < |chunks| && chunks[i].inDirtyTree ==> chunks[i].nrunsAdjac != 0
    {
      hide LeastFragmented, Pages, Taken, Sum, Dirties, Actives, Separate, Good;
      var k: nat :| IsFirst(k, |chunks|) && Overshoots(chunks[k], all, asked);
      FirstIsLeast(k);
    }

    ghost predicate NoneDirty(n: nat)
      reads this, chunks
    {
      forall i :: 0 <= i < n && i < |chunks| ==> !chunks[i].inDirtyTree
    }

    ghost predicate IsFirst(k: nat, n: nat)
      reads this, chunks
    {
      && k < n <= |chunks| && chunks[k].inDirtyTree && InTree(KeyOf(chunks[k], k))
      && forall i :: 0 <= i < n && i != k && chunks[i].inDirtyTree ==>
           InTree(KeyOf(chunks[i], i)) && Before(KeyOf(chunks[k], k), KeyOf(chunks[i], i))
    }

    lemma DirtyBound(c: Chunk)
      requires Good(c) && c.inDirtyTree
      ensures c.ndirty <= npages - mapBias
    {
      InOrder(c, 0);
      hide Kept;
      DirtyAtMost(c.pages[..], c.runs, c.Now(), c.nactive - c.othersActive, c.mapBias, c.othersDirty);
    }

    lemma InOrder(c: Chunk, n: nat)
      requires Good(c)
      ensures c.ndirty >= 0 && c.inDirtyTree == (c.ndirty != 0) && c.nactive >= 0
      ensures c.inDirtyTree ==> InTree(KeyOf(c, n)) && !c.spare
      ensures c.nrunsAdjac >= 0
    {
      hide Kept;
      DirtyOrNot(c.pages[..], c.runs, c.Now(), c.nactive - c.othersActive, c.spare, c.mapBias, c.othersDirty);
      if c.inDirtyTree { SpareNotDirty(c.pages[..], c.runs, c.Now(), c.nactive - c.othersActive, c.spare, c.mapBias, c.othersDirty); }
    }

    lemma ComesFirst(k: nat, n: nat, comes: bool)
      requires IsFirst(k, n) && n < |chunks| && chunks[n].inDirtyTree && InTree(KeyOf(chunks[n], n))
      requires comes == Before(KeyOf(chunks[n], n), KeyOf(chunks[k], k))
      ensures IsFirst(if comes then n else k, n + 1)
    {
      hide DirtyComp;
      var a, b := KeyOf(chunks[n], n), KeyOf(chunks[k], k);
      if comes {
        forall i | 0 <= i < n && i != k && chunks[i].inDirtyTree ensures Before(a, KeyOf(chunks[i], i)) {
          DirtyCompTransitive(a, b, KeyOf(chunks[i], i));
        }
      } else {
        DirtyCompTotal(a, b);
      }
    }

    lemma NoDirtyPages()
      requires Valid() && NoneDirty(|chunks|)
      ensures ndirty == 0
    {
      hide Sum, Dirties, Good;
      forall i | 0 <= i < |chunks| ensures Dirties(chunks)[i] == 0 { InOrder(chunks[i], i); }
      SumPositive(Dirties(chunks));
    }

    lemma CountsPositive()
      requires Valid()
      ensures ndirty >= 0 && nactive >= 0
    {
      hide Sum, Dirties, Actives, Good;
      forall i | 0 <= i < |chunks| ensures Dirties(chunks)[i] >= 0 && Actives(chunks)[i] >= 0 { InOrder(chunks[i], i); }
      SumPositive(Dirties(chunks));
      SumPositive(Actives(chunks));
    }

    /** Purges chunk k, which may become the spare by that. */
    method PurgeChunk(c: Chunk, ghost k: nat, all: bool) returns (npurged: nat)
      requires Valid() && k < |chunks| && chunks[k] == c && c.inDirtyTree
      modifies this`ndirty, this`nactive, this`chunks, this`spare, c, c.pages
      ensures Valid() && nactive == old(nactive) && ndirty == old(ndirty) - npurged && 0 < npurged <= old(c.ndirty)
      ensures npurged == Pages(Taken(old(c.runs), all || old(c.nrunsAdjac) == 0, |old(c.runs)|)) && c.nrunsAdjac == 0
      ensures all || old(c.nrunsAdjac) == 0 ==> npurged == old(c.ndirty)
      ensures forall x :: x in chunks ==> x in old(chunks)
    {
      hide Sum, Dirties, Actives, Good, Separate, Taken, Pages;
      InOrder(c, k);
      npurged := PurgeCounted(c, k, all);
      if c.spare {
        if spare != null { Discard(c); }
        spare := c;
      }
    }

    method PurgeCounted(c: Chunk, ghost k: nat, all: bool) returns (npurged: nat)
      requires Valid() && k < |chunks| && chunks[k] == c && c.inDirtyTree && !c.spare
      modifies this`ndirty, this`nactive, c, c.pages
      ensures nactive == old(nactive) && ndirty == old(ndirty) - npurged && 0 < npurged <= old(c.ndirty) && spare != c
      ensures npurged == Pages(Taken(old(c.runs), all || old(c.nrunsAdjac) == 0, |old(c.runs)|)) && c.nrunsAdjac == 0
      ensures all || old(c.nrunsAdjac) == 0 ==> npurged == old(c.ndirty)
      ensures if c.spare then ValidBut(c) else Valid()
    {
      hide Sum, Dirties, Actives, Good, Taken, Pages;
      ghost var ds, as_ := Dirties(chunks), Actives(chunks);
      var d0, a0 := c.ndirty, c.nactive;
      npurged := PurgeIn(c, all);
      Follow(c, d0, a0, k, ds, as_);
    }

    method PurgeIn(c: Chunk, all: bool) returns (npurged: nat)
      requires Good(c) && c.inDirtyTree
      modifies c, c.pages
      ensures Good(c) && c.nactive == old(c.nactive) && c.ndirty == old(c.ndirty) - npurged && 0 < npurged <= old(c.ndirty)
      ensures npurged == Pages(Taken(old(c.runs), all || old(c.nrunsAdjac) == 0, |old(c.runs)|)) && c.nrunsAdjac == 0
      ensures all || old(c.nrunsAdjac) == 0 ==> npurged == old(c.ndirty)
    {
      hide Kept, Taken, Pages;
      npurged := c.Purge(all);
      DirtyOrNot(c.pages[..], c.runs, c.Now(), c.nactive - c.othersActive, c.spare, c.mapBias, c.othersDirty);
    }

    /** Purges until few enough pages are dirty.  What is left to do is kept in a word.  A chunk that is purged of its
        fragments may give more than that: then the word wraps around, and purging goes on until no page is dirty. */
    method Purge(all: bool) returns (ghost over: bool)
      requires Valid() && (all || ndirty > Allowed(nactive, mult)) && ndirty < WORD / 2
      modifies this, chunks, PagesOf(chunks)
      ensures Valid() && nactive == old(nactive)
      ensures ndirty == 0 || (!all && ndirty <= Allowed(nactive, mult))
      ensures over ==> ndirty == 0
      ensures old(FirstOvershoots(all, ToPurge(all))) ==> over
      ensures all || old(NoFragments()) ==> !over
      ensures !all && !over ==> ndirty + (npages - mapBias) > Allowed(nactive, mult)
    {
      hide Sum, Dirties, Actives, Good, Separate, PagesOf, Allowed, IsFirst, Overshoots;
      CountsPositive();
      var npurgatory: int := ToPurge(all);
      ghost var asked, more := npurgatory, 0;
      over := false;
      ghost var d0, cs0 := ndirty, chunks;
      ghost var tidy, wraps, begun := NoFragments(), FirstOvershoots(all, npurgatory), false;
      if all { AllIsExact(); }
      while npurgatory > 0
        invariant Valid() && nactive == old(nactive) && 0 <= npurgatory < WORD && 0 <= ndirty <= d0 && more >= 0
        invariant forall c :: c in chunks ==> c in cs0
        invariant if over then asked <= d0 - ndirty && npurgatory >= WORD - (d0 - ndirty)
                  else npurgatory == asked + more - (d0 - ndirty) && npurgatory < WORD / 2
        invariant tidy ==> NoFragments() && !over
        invariant all ==> npurgatory == ndirty && !over
        invariant if begun then wraps ==> over else wraps == FirstOvershoots(all, npurgatory)
        invariant all ==> !wraps
        invariant !begun ==> npurgatory > 0 || all
        invariant !all && !over && npurgatory > 0 ==> ndirty == Allowed(nactive, mult) + npurgatory
        invariant !all && !over ==> ndirty + (npages - mapBias) > Allowed(nactive, mult)
        decreases ndirty
      {
        var k := FirstDirty();
        if k.None? {
          NoneOvershoots(all, npurgatory);
          return;
        }
        FirstIsOne(k.value, all, npurgatory);
        if all { AllIsExact(); }
        MemberPages(chunks, k.value, cs0);
        ghost var grown;
        npurgatory, grown := PurgeRound(chunks[k.value], k.value, all, npurgatory);
        more := more + grown;
        over := over || npurgatory >= WORD / 2;
        begun := true;
      }
    }

    /** The chunk that is purged first overshoots. */
    ghost predicate FirstOvershoots(all: bool, asked: int)
      reads this, chunks
    {
      exists k: nat :: IsFirst(k, |chunks|) && Overshoots(chunks[k], all, asked)
    }

    lemma NoneOvershoots(all: bool, asked: int)
      requires NoneDirty(|chunks|)
      ensures !FirstOvershoots(all, asked)
    {
    }

    /** There is only one first chunk. */
    lemma FirstIsOne(k: nat, all: bool, asked: int)
      requires IsFirst(k, |chunks|)
      ensures FirstOvershoots(all, asked) == Overshoots(chunks[k], all, asked)
    {
      hide Overshoots, DirtyComp;
      forall j: nat | IsFirst(j, |chunks|) ensures j == k {
        if j != k { DirtyCompTotal(KeyOf(chunks[j], j), KeyOf(chunks[k], k)); }
      }
    }

    /** When all pages are asked for, no chunk has more. */
    lemma AllIsExact()
      requires Valid()
      ensures forall k: nat :: k < |chunks| && chunks[k].inDirtyTree ==> !Overshoots(chunks[k], true, ndirty)
      ensures !FirstOvershoots(true, ndirty)
    {
      hide Sum, Dirties, Actives, Good, Separate, Taken, Pages;
      forall k: nat | k < |chunks| && chunks[k].inDirtyTree ensures !Overshoots(chunks[k], true, ndirty) {
        PartOfAll(k);
        TakesAll(chunks[k]);
      }
    }

    lemma TakesAll(c: Chunk)
      requires Good(c) && c.inDirtyTree
      ensures Pages(Taken(c.runs, true, |c.runs|)) == c.ndirty
    {
      hide Kept, Taken, Pages;
      InOrder(c, 0);
      PurgeStart(c.pages[..], c.runs, true, c.Now(), c.nactive - c.othersActive, c.mapBias, c.othersDirty);
    }

    /** A chunk has fragments, and more pages in them than are left to purge.  Just then a round wraps around. */
    ghost predicate Overshoots(c: Chunk, all: bool, asked: int)
      reads c
    {
      c.nrunsAdjac != 0 && Pages(Taken(c.runs, all, |c.runs|)) > asked
    }

    /** How many dirty pages are to be purged. */
    function ToPurge(all: bool): int
      requires mult > 0
      reads this
    {
      if all then ndirty else ndirty - Allowed(nactive, mult)
    }

    /** No chunk has free runs side by side. */
    ghost predicate NoFragments()
      reads this, chunks
    {
      forall c :: c in chunks ==> c.nrunsAdjac == 0
    }

    /** One chunk is purged.  If it has more dirty pages than are asked for and none of them are fragments, all of them
        become what is asked for. */
    method PurgeRound(c: Chunk, ghost k: nat, all: bool, asked: int) returns (left: int, ghost grown: int)
      requires Valid() && k < |chunks| && chunks[k] == c && c.inDirtyTree && 0 < asked < WORD && ndirty < WORD / 2
      modifies this`ndirty, this`nactive, this`chunks, this`spare, c, c.pages
      ensures Valid() && nactive == old(nactive) && 0 <= ndirty < old(ndirty) && grown >= 0
      ensures grown > 0 ==> asked + grown <= old(ndirty) && left == 0
      ensures old(ndirty) - ndirty <= npages - mapBias
      ensures left > asked <==> old(Overshoots(c, all, asked))
      ensures left > asked ==> left >= WORD - old(ndirty)
      ensures old(NoFragments()) ==> NoFragments() && left <= asked
      ensures
        var rest := asked + grown - (old(ndirty) - ndirty);
        left == if rest >= 0 then rest else rest + WORD
      ensures forall x :: x in chunks ==> x in old(chunks)
    {
      hide Sum, Dirties, Actives, Good, Separate, Taken, Pages;
      InOrder(c, k);
      PartOfAll(k);
      DirtyBound(c);
      var npurgeable := c.ndirty;
      left, grown := asked, 0;
      if npurgeable > left && c.nrunsAdjac == 0 {
        grown := npurgeable - left;
        left := npurgeable;
      }
      left := Wrap(left - npurgeable);
      var npurged := PurgeChunk(c, k, all);
      CountsPositive();
      left := Wrap(left + (npurgeable - npurged));
    }

    lemma PartOfAll(k: nat)
      requires Valid() && k < |chunks|
      ensures chunks[k].ndirty <= ndirty
    {
      hide Sum, Dirties, Good;
      forall i | 0 <= i < |chunks| ensures Dirties(chunks)[i] >= 0 { InOrder(chunks[i], i); }
      SumPart(Dirties(chunks), k);
    }
  }

  /** A chunk that counts nothing may be left out of the sums. */
  lemma WithoutSpare(cs: seq<Chunk>, j: nat)
    requires j < |cs| && cs[j].ndirty == 0 && cs[j].nactive == 0
    ensures
      var u := cs[..j] + cs[j + 1..];
      Sum(Dirties(u)) == Sum(Dirties(cs)) && Sum(Actives(u)) == Sum(Actives(cs))
  {
    hide Sum, Dirties, Actives;
    var u := cs[..j] + cs[j + 1..];
    SumWithout(Dirties(cs), j);
    SumWithout(Actives(cs), j);
    assert Dirties(u) == Dirties(cs)[..j] + Dirties(cs)[j + 1..] && Actives(u) == Actives(cs)[..j] + Actives(cs)[j + 1..];
  }

  lemma OneCleanRun(rs: seq<Run>)
    requires |rs| == 1 && rs[0].free && !rs[0].dirty
    ensures Dirty(rs) == 0 && Active(rs) == 0
  {
    assert rs[..|rs| - 1] == [];
  }

  /** A chunk that counts nothing may be added. */
  lemma WithChunk(cs: seq<Chunk>, at: nat, c: Chunk)
    requires at <= |cs| && c.ndirty == 0 && c.nactive == 0 && Separate(cs)
    requires forall i :: 0 <= i < |cs| ==> cs[i] != c && cs[i].pages != c.pages
    ensures
      var u := cs[..at] + [c] + cs[at..];
      && Sum(Dirties(u)) == Sum(Dirties(cs)) && Sum(Actives(u)) == Sum(Actives(cs)) && Separate(u)
      && u[at] == c && forall i :: 0 <= i < |u| ==> u[i] == c || u[i] in cs
  {
    hide Sum, Dirties, Actives;
    var u := cs[..at] + [c] + cs[at..];
    SumInsert(Dirties(cs), at);
    SumInsert(Actives(cs), at);
    assert Dirties(u) == Dirties(cs)[..at] + [0] + Dirties(cs)[at..] && Actives(u) == Actives(cs)[..at] + [0] + Actives(cs)[at..];
    forall i | 0 <= i < |u| ensures u[i] == if i < at then cs[i] else if i == at then c else cs[i - 1] {}
  }

  /** How many dirty pages are let be, for so many in use: a share that is a power of two. */
  function Allowed(nactive: int, mult: nat): (n: int)
    requires mult > 0
    ensures nactive >= 0 ==> n >= 0
  {
    nactive / mult
  }

  function Wrap(x: int): int { if x < 0 then x + WORD else if x >= WORD then x - WORD else x }

  /** A chunk as the order of purging sees it; its place stands for its address. */
  function KeyOf(c: Chunk, n: nat): Key
    reads c
  {
    Key(if c.nrunsAvail < 0 then 0 else c.nrunsAvail, if c.nrunsAdjac < 0 then 0 else c.nrunsAdjac, n)
  }

  lemma {:induction false} SumPart(s: seq<int>, k: nat)
    requires k < |s| && forall i :: 0 <= i < |s| ==> s[i] >= 0
    ensures s[k] <= Sum(s)
  {
    if k < |s| - 1 { SumPart(s[..|s| - 1], k); } else { SumPositive(s[..|s| - 1]); }
  }

  lemma MemberPages(cs: seq<Chunk>, k: nat, cs0: seq<Chunk>)
    requires k < |cs| && forall c :: c in cs ==> c in cs0
    ensures cs[k] in cs0 && cs[k].pages in PagesOf(cs0)
  {
    assert cs[k] in cs;
    var j :| 0 <= j < |cs0| && cs0[j] == cs[k];
  }

  /** What is left of the chunks. */
  lemma Left(cs: seq<Chunk>, j: nat)
    requires j < |cs| && Separate(cs)
    ensures
      var u := cs[..j] + cs[j + 1..];
      && Separate(u) && (forall i :: 0 <= i < |u| ==> u[i] in cs && u[i] != cs[j])
      && forall x :: x in u <==> x in cs && x != cs[j]
  {
    var u := cs[..j] + cs[j + 1..];
    assert forall i :: 0 <= i < |u| ==> u[i] == cs[if i < j then i else i + 1];
    forall x ensures x in u <==> x in cs && x != cs[j] {
      if i :| 0 <= i < |u| && u[i] == x { assert cs[if i < j then i else i + 1] == x; }
      if x != cs[j] { if i :| 0 <= i < |cs| && cs[i] == x { assert u[if i < j then i else i - 1] == x; } }
    }
  }
}
