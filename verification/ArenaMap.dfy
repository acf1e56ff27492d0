/** The page map of a chunk as arena.c reads and writes it: a run is described by the tags of its first and its
    last page only.  And what the counters of a chunk should say. */
module ArenaMap {
  import opened ArenaRuns

  /** The map bits of a page that matter here: in use, size of the run in pages, dirty. */
  datatype Tag = Tag(inUse: bool, size: nat, dirty: bool)

  ghost predicate Described(m: seq<Tag>, r: Run) {
    && 0 < r.len && End(r) <= |m|
    && m[r.start] == Tag(!r.free, r.len, r.dirty)
    && m[End(r) - 1] == Tag(!r.free, if r.free || r.len == 1 then r.len else 0, r.dirty)
  }

  ghost predicate Mapped(m: seq<Tag>, rs: seq<Run>, from: nat) {
    && Tiles(rs, from, |m|)
    && forall i :: 0 <= i < |rs| ==> Described(m, rs[i])
  }

  lemma MappedTiles(m: seq<Tag>, rs: seq<Run>, from: nat)
    requires Mapped(m, rs, from)
    ensures Tiles(rs, from, |m|)
  {
  }

  /** Runs i to j are redone as others that cover the same pages; no other page is written. */
  lemma Redone(m: seq<Tag>, m2: seq<Tag>, rs: seq<Run>, i: nat, j: nat, mid: seq<Run>, from: nat)
    requires Mapped(m, rs, from) && i < j <= |rs| && |m2| == |m| && mid != []
    requires Tiles(mid, rs[i].start, End(rs[j - 1]))
    requires forall k :: 0 <= k < |mid| ==> Described(m2, mid[k])
    requires forall p :: 0 <= p < rs[i].start && p < |m| ==> m2[p] == m[p]
    requires forall p :: End(rs[j - 1]) <= p < |m| ==> m2[p] == m[p]
    ensures Mapped(m2, rs[..i] + mid + rs[j..], from)
  {
    var u := rs[..i] + mid + rs[j..];
    forall k | 0 <= k < i ensures Described(m2, rs[k]) { Ordered(rs, from, |m|, k, i); }
    forall k | j <= k < |rs| ensures Described(m2, rs[k]) { Ordered(rs, from, |m|, j - 1, k); }
    SpliceTiles(rs, i, j, mid, from, |m|);
  }

  lemma RedoneOne(m: seq<Tag>, m2: seq<Tag>, rs: seq<Run>, i: nat, j: nat, r: Run, from: nat)
    requires Mapped(m, rs, from) && i < j <= |rs| && |m2| == |m|
    requires r.start == rs[i].start && End(r) == End(rs[j - 1]) && Described(m2, r)
    requires forall p :: 0 <= p < |m| && (p < r.start || End(r) <= p) ==> m2[p] == m[p]
    ensures Mapped(m2, rs[..i] + [r] + rs[j..], from)
  {
    Within(rs, from, |m|, i);
    Redone(m, m2, rs, i, j, [r], from);
  }

  lemma RedoneTwo(m: seq<Tag>, m2: seq<Tag>, rs: seq<Run>, i: nat, a: Run, b: Run, from: nat)
    requires Mapped(m, rs, from) && i < |rs| && |m2| == |m|
    requires a.start == rs[i].start && End(a) == b.start && End(b) == End(rs[i])
    requires Described(m2, a) && Described(m2, b)
    requires forall p :: 0 <= p < |m| && (p < a.start || End(b) <= p) ==> m2[p] == m[p]
    ensures Mapped(m2, rs[..i] + [a, b] + rs[i + 1..], from)
  {
    Within(rs, from, |m|, i);
    Redone(m, m2, rs, i, i + 1, [a, b], from);
  }

  // ----- the neighbours of a run, as the map tells -----

  /** Is the page before a run free?  Two free runs side by side are never of the same kind. */
  predicate AdjacPred(m: seq<Tag>, from: nat, pageind: nat)
    requires pageind <= |m|
  {
    pageind > from && !m[pageind - 1].inUse
  }

  predicate AdjacSucc(m: seq<Tag>, pageind: nat, len: nat)
    requires pageind + len <= |m|
  {
    pageind + len < |m| && !m[pageind + len].inUse
  }

  /** Where a neighbour is looked at and found free, it is of the other kind. */
  predicate Differs(m: seq<Tag>, from: nat, pageind: nat, len: nat, pred: bool, succ: bool)
    requires 0 < len && pageind + len <= |m|
  {
    && (pred && AdjacPred(m, from, pageind) ==> m[pageind - 1].dirty != m[pageind].dirty)
    && (succ && AdjacSucc(m, pageind, len) ==> m[pageind + len].dirty != m[pageind].dirty)
  }

  /** How many of the neighbours that are looked at are free. */
  function Pairs(m: seq<Tag>, from: nat, pageind: nat, len: nat, pred: bool, succ: bool): nat
    requires pageind + len <= |m|
  {
    One(pred && AdjacPred(m, from, pageind)) + One(succ && AdjacSucc(m, pageind, len))
  }

  /** The map says the truth about the neighbours. */
  lemma Neighbours(m: seq<Tag>, rs: seq<Run>, i: nat, from: nat)
    requires Mapped(m, rs, from) && i < |rs|
    ensures from <= rs[i].start < End(rs[i]) <= |m| && Described(m, rs[i])
    ensures (rs[i].start == from <==> i == 0) && (End(rs[i]) == |m| <==> i == |rs| - 1)
    ensures AdjacPred(m, from, rs[i].start) == PredFree(rs, i)
    ensures AdjacSucc(m, rs[i].start, rs[i].len) == SuccFree(rs, i)
    ensures i > 0 ==> Described(m, rs[i - 1]) && End(rs[i - 1]) == rs[i].start
    ensures i + 1 < |rs| ==> Described(m, rs[i + 1]) && rs[i + 1].start == End(rs[i])
  {
    Within(rs, from, |m|, i);
    if i > 0 { assert Described(m, rs[i - 1]); }
    if i + 1 < |rs| { assert Described(m, rs[i + 1]); }
  }

  // ----- the counters -----

  /** What arena.c counts of a chunk: free runs, pairs of them, dirty free pages in the chunk and in the arena, the
      free runs themselves, and whether the chunk is in the tree of chunks with dirty pages. */
  datatype Counters = Counters(nrunsAvail: int, nrunsAdjac: int, ndirty: int, arenaDirty: int,
                               runsAvail: set<(nat, nat)>, inDirtyTree: bool)

  /** The counters say what counting anew would; others is what other chunks add to the arena's count. */
  ghost predicate Counts(c: Counters, rs: seq<Run>, others: int) {
    && c.nrunsAvail == Avail(rs) && c.nrunsAdjac == Adjac(rs) && c.ndirty == Dirty(rs)
    && c.runsAvail == FreeRuns(rs) && c.inDirtyTree == (c.ndirty != 0) && c.arenaDirty == others + c.ndirty
  }

  /** arena_avail_insert for a run with so many free neighbours. */
  function Inserted(c: Counters, pageind: nat, len: nat, dirty: bool, pairs: nat): Counters {
    var more := if dirty then len else 0;
    Counters(c.nrunsAvail + 1, c.nrunsAdjac + pairs, c.ndirty + more, c.arenaDirty + more,
             c.runsAvail + {(pageind, len)}, c.ndirty + more != 0 || (c.ndirty == 0 && c.inDirtyTree))
  }

  /** arena_avail_remove. */
  function Removed(c: Counters, pageind: nat, len: nat, dirty: bool, pairs: nat): Counters {
    var less := if dirty then len else 0;
    Counters(c.nrunsAvail - 1, c.nrunsAdjac - pairs, c.ndirty - less, c.arenaDirty - less,
             c.runsAvail - {(pageind, len)}, c.ndirty - less != 0 || (c.ndirty == 0 && c.inDirtyTree))
  }

  /** Putting a run on the free list keeps the counters right, and more runs than pairs are counted. */
  lemma InsertedCounts(c: Counters, rs: seq<Run>, i: nat, others: int, from: nat, to: nat)
    requires Counts(c, rs, others) && Tiles(rs, from, to) && i < |rs| && !rs[i].free
    ensures
      var n := Inserted(c, rs[i].start, rs[i].len, rs[i].dirty, One(PredFree(rs, i)) + One(SuccFree(rs, i)));
      Counts(n, rs[i := rs[i].(free := true)], others) && n.nrunsAvail > n.nrunsAdjac
  {
    ToggleAll(rs, i, true, from, to);
  }

  /** Taking a run off the free list keeps the counters right. */
  lemma RemovedCounts(c: Counters, rs: seq<Run>, i: nat, others: int, from: nat, to: nat)
    requires Counts(c, rs, others) && Tiles(rs, from, to) && i < |rs| && rs[i].free
    ensures
      var n := Removed(c, rs[i].start, rs[i].len, rs[i].dirty, One(PredFree(rs, i)) + One(SuccFree(rs, i)));
      Counts(n, rs[i := rs[i].(free := false)], others)
      && (n.nrunsAvail > n.nrunsAdjac || (n.nrunsAvail == 0 && n.nrunsAdjac == 0))
  {
    ToggleAll(rs, i, false, from, to);
  }

  /** Run i taken for one in use: while it is worked on, it is on no list. */
  function Held(rs: seq<Run>, i: nat): seq<Run>
    requires i < |rs|
  {
    rs[i := rs[i].(free := false)]
  }

  /** Splitting a free run takes it off the list and puts back what remains. */
  lemma SplitCounts(c: Counters, rs: seq<Run>, i: nat, need: nat, others: int, from: nat, to: nat)
    requires Counts(c, rs, others) && Tiles(rs, from, to) && i < |rs| && rs[i].free && 0 < need <= rs[i].len
    ensures
      var r := rs[i];
      var c1 := Removed(c, r.start, r.len, r.dirty, One(PredFree(rs, i)) + One(SuccFree(rs, i)));
      var c2 := Inserted(c1, r.start + need, r.len - need, r.dirty, One(SuccFree(rs, i)));
      Counts(if need == r.len then c1 else c2, Split(rs, i, need), others)
  {
    hide Tiles, Avail, Adjac, Dirty, FreeRuns, Counts, Removed, Inserted;
    var used := Held(rs, i);
    RemovedCounts(c, rs, i, others, from, to);
    KindTiles(rs, i, used[i], from, to);
    if need < rs[i].len {
      CutTiles(used, i, need, from, to);
      var c1 := Removed(c, rs[i].start, rs[i].len, rs[i].dirty, One(PredFree(rs, i)) + One(SuccFree(rs, i)));
      RestCounts(c1, used, i, need, others, from, to);
    }
  }

  /** The rest of a run that was split goes on the list. */
  lemma RestCounts(c: Counters, used: seq<Run>, i: nat, need: nat, others: int, from: nat, to: nat)
    requires Counts(c, used, others) && Tiles(used, from, to) && i < |used| && !used[i].free && 0 < need < used[i].len
    ensures
      var r, two := used[i], Cut(used, i, need);
      Counts(Inserted(c, r.start + need, r.len - need, r.dirty, One(SuccFree(used, i))),
             two[i + 1 := two[i + 1].(free := true)], others)
  {
    hide Tiles, Avail, Adjac, Dirty, FreeRuns, Inserted;
    CutCounts(used, i, need);
    CutTiles(used, i, need, from, to);
    var two := Cut(used, i, need);
    assert PredFree(two, i + 1) == false && SuccFree(two, i + 1) == SuccFree(used, i);
    assert Counts(c, two, others);
    InsertedCounts(c, two, i + 1, others, from, to);
  }

  /** Taking the run behind run i off the list, to join it to run i. */
  lemma JoinRightCounts(c: Counters, g: seq<Run>, i: nat, others: int, from: nat, to: nat)
    requires i + 1 < |g| && Counts(c, Held(g, i), others) && Tiles(g, from, to) && g[i + 1].free
    ensures
      var r := g[i + 1];
      var c1 := Removed(c, r.start, r.len, r.dirty, One(SuccFree(g, i + 1)));
      Counts(c1, Held(Merge(g, i), i), others)
  {
    hide Tiles, Avail, Adjac, Dirty, FreeRuns;
    var h := Held(g, i);
    KindTiles(g, i, h[i], from, to);
    RemovedCounts(c, h, i + 1, others, from, to);
    var w := Held(h, i + 1);
    assert PredFree(h, i + 1) == false && SuccFree(h, i + 1) == SuccFree(g, i + 1);
    MergeCounts(w, i);
    MergeFree(w, i);
    assert Merge(w, i) == Held(Merge(g, i), i);
  }

  /** Taking the run before run i off the list, to join run i to it. */
  lemma JoinLeftCounts(c: Counters, g: seq<Run>, i: nat, others: int, from: nat, to: nat)
    requires 0 < i < |g| && Counts(c, Held(g, i), others) && Tiles(g, from, to) && g[i - 1].free
    ensures
      var r := g[i - 1];
      var c1 := Removed(c, r.start, r.len, r.dirty, One(PredFree(g, i - 1)));
      Counts(c1, Held(Merge(g, i - 1), i - 1), others)
  {
    hide Tiles, Avail, Adjac, Dirty, FreeRuns;
    var h := Held(g, i);
    KindTiles(g, i, h[i], from, to);
    RemovedCounts(c, h, i - 1, others, from, to);
    var w := Held(h, i - 1);
    assert SuccFree(h, i - 1) == false && PredFree(h, i - 1) == PredFree(g, i - 1);
    MergeCounts(w, i - 1);
    MergeFree(w, i - 1);
    assert Merge(w, i - 1) == Held(Merge(g, i - 1), i - 1);
  }

  // ----- how the operations write the map -----

  /** The tags of a run are written at its two ends, the last page first. */
  function Redo(m: seq<Tag>, r: Run): (u: seq<Tag>)
    requires 0 < r.len && End(r) <= |m|
    ensures |u| == |m| && Described(u, r)
    ensures forall p :: 0 <= p < |m| && (p < r.start || End(r) <= p) ==> u[p] == m[p]
  {
    m[End(r) - 1 := Tag(!r.free, if r.free then r.len else 0, r.dirty)][r.start := Tag(!r.free, r.len, r.dirty)]
  }

  /** Runs i to j become one. */
  lemma RedoMapped(m: seq<Tag>, rs: seq<Run>, i: nat, j: nat, r: Run, from: nat)
    requires Mapped(m, rs, from) && i < j <= |rs| && r.start == rs[i].start && End(r) == End(rs[j - 1])
    ensures 0 < r.len && End(r) <= |m| && Mapped(Redo(m, r), rs[..i] + [r] + rs[j..], from)
  {
    hide Mapped, Redo, Described, Tiles;
    MappedTiles(m, rs, from);
    Within(rs, from, |m|, i);
    Within(rs, from, |m|, j - 1);
    if i < j - 1 { Ordered(rs, from, |m|, i, j - 1); }
    RedoneOne(m, Redo(m, r), rs, i, j, r, from);
  }

  /** A run is given back, or taken into use whole. */
  lemma KindMapped(m: seq<Tag>, rs: seq<Run>, i: nat, r: Run, from: nat)
    requires Mapped(m, rs, from) && i < |rs| && r.start == rs[i].start && r.len == rs[i].len
    ensures 0 < r.len && End(r) <= |m| && Mapped(Redo(m, r), rs[i := r], from)
  {
    hide Mapped, Redo;
    RedoMapped(m, rs, i, i + 1, r, from);
    assert rs[..i] + [r] + rs[i + 1..] == rs[i := r];
  }

  /** The two parts of a run that is divided. */
  function Part1(r: Run, n: nat): Run { Run(r.start, n, false, r.dirty) }
  function Part2(r: Run, n: nat): Run
    requires n <= r.len
  {
    Run(r.start + n, r.len - n, r.free, r.dirty)
  }

  /** A run is divided in two. */
  lemma PartsMapped(m: seq<Tag>, rs: seq<Run>, i: nat, n: nat, from: nat)
    requires Mapped(m, rs, from) && i < |rs| && 0 < n < rs[i].len
    ensures
      var a, b := Part1(rs[i], n), Part2(rs[i], n);
      End(b) <= |m| && Mapped(Redo(Redo(m, b), a), rs[..i] + [a, b] + rs[i + 1..], from)
  {
    hide Mapped, Redo, Tiles;
    MappedTiles(m, rs, from);
    Within(rs, from, |m|, i);
    var a, b := Part1(rs[i], n), Part2(rs[i], n);
    var u := Redo(Redo(m, b), a);
    assert u[b.start] == Redo(m, b)[b.start] && u[End(b) - 1] == Redo(m, b)[End(b) - 1];
    RedoneTwo(m, u, rs, i, a, b, from);
  }

  /** A free run is split: the ends of the rest are written, if there is any, then those of the part in use. */
  function SplitTags(m: seq<Tag>, r: Run, need: nat): (u: seq<Tag>)
    requires 0 < need <= r.len && End(r) <= |m|
    ensures |u| == |m|
  {
    if need == r.len then m else Redo(m, Part2(r, need))
  }

  lemma SplitMapped(m: seq<Tag>, rs: seq<Run>, i: nat, need: nat, from: nat)
    requires Mapped(m, rs, from) && i < |rs| && rs[i].free && 0 < need <= rs[i].len
    ensures End(rs[i]) <= |m|
    ensures Mapped(Redo(SplitTags(m, rs[i], need), Part1(rs[i], need)), Split(rs, i, need), from)
  {
    hide Mapped, Redo, Split, Tiles;
    SplitParts(rs, i, need);
    MappedTiles(m, rs, from);
    Within(rs, from, |m|, i);
    if need == rs[i].len {
      KindMapped(m, rs, i, Part1(rs[i], need), from);
    } else {
      PartsMapped(m, rs, i, need, from);
    }
  }

  lemma SplitParts(rs: seq<Run>, i: nat, need: nat)
    requires i < |rs| && rs[i].free && 0 < need <= rs[i].len
    ensures
      var a, b := Part1(rs[i], need), Part2(rs[i], need);
      Split(rs, i, need) == if need == rs[i].len then rs[i := a] else rs[..i] + [a, b] + rs[i + 1..]
  {
  }

  /** The run split off is in use, and runs before it are as they were. */
  lemma SplitFirst(rs: seq<Run>, i: nat, need: nat)
    requires i < |rs| && rs[i].free && 0 < need <= rs[i].len
    ensures
      var u := Split(rs, i, need);
      i < |u| && u[i] == Part1(rs[i], need) && forall k :: 0 <= k < i ==> u[k] == rs[k]
  {
  }

  /** What is seen of the neighbours before and after the rest of a split run is recorded. */
  lemma SplitSees(m: seq<Tag>, rs: seq<Run>, i: nat, need: nat, from: nat)
    requires Mapped(m, rs, from) && Coalesced(rs) && i < |rs| && rs[i].free && 0 < need <= rs[i].len
    ensures
      var r := rs[i];
      && from <= r.start && End(r) <= |m| && m[r.start] == Tag(false, r.len, r.dirty) && m[End(r) - 1].dirty == r.dirty
      && Differs(m, from, r.start, r.len, true, true)
      && Pairs(m, from, r.start, r.len, true, true) == One(PredFree(rs, i)) + One(SuccFree(rs, i))
      && (need < r.len ==>
          var u := SplitTags(m, r, need);
          && u[r.start + need] == Tag(false, r.len - need, r.dirty)
          && Differs(u, from, r.start + need, r.len - need, false, true)
          && Pairs(u, from, r.start + need, r.len - need, false, true) == One(SuccFree(rs, i)))
  {
    hide Mapped, Tiles;
    Neighbours(m, rs, i, from);
  }

  /** A run in use is cut in two; the last page of its tail needs no new tag. */
  lemma CutMapped(m: seq<Tag>, rs: seq<Run>, i: nat, n: nat, from: nat)
    requires Mapped(m, rs, from) && i < |rs| && !rs[i].free && 0 < n < rs[i].len
    ensures End(rs[i]) <= |m|
    ensures
      var a, b := Part1(rs[i], n), Part2(rs[i], n);
      Mapped(Redo(m, a)[b.start := Tag(true, b.len, b.dirty)], Cut(rs, i, n), from)
  {
    hide Mapped;
    var a, b := Part1(rs[i], n), Part2(rs[i], n);
    PartsMapped(m, rs, i, n, from);
    Neighbours(m, rs, i, from);
    assert Redo(Redo(m, b), a) == Redo(m, a)[b.start := Tag(true, b.len, b.dirty)];
    assert rs[..i] + [a, b] + rs[i + 1..] == Cut(rs, i, n);
  }

  // ----- what holds between operations -----

  /** The map describes coalesced runs and the counters are those of these runs; a spare chunk is one free run
      that is on no list. */
  ghost predicate Kept(m: seq<Tag>, rs: seq<Run>, c: Counters, active: int, spare: bool, from: nat, others: int) {
    && Mapped(m, rs, from) && Coalesced(rs) && active == Active(rs)
    && rs != [] && (spare ==> |rs| == 1 && rs[0].free)
    && Counts(c, if spare then Held(rs, 0) else rs, others)
  }

  lemma SplitKept(m: seq<Tag>, rs: seq<Run>, c: Counters, active: int, i: nat, need: nat, from: nat, others: int)
    requires Mapped(m, rs, from) && Coalesced(rs) && active == Active(rs) + need
    requires i < |rs| && rs[i].free && 0 < need <= rs[i].len && Counts(c, Split(rs, i, need), others)
    ensures End(rs[i]) <= |m|
    ensures Kept(Redo(SplitTags(m, rs[i], need), Part1(rs[i], need)), Split(rs, i, need), c, active, false, from, others)
  {
    hide Mapped, Coalesced, Active, Counts, Redo;
    SplitMapped(m, rs, i, need, from);
    SplitActive(rs, i, need);
    SplitCoalesced(rs, i, need);
  }

  lemma KeptParts(m: seq<Tag>, rs: seq<Run>, c: Counters, active: int, spare: bool, from: nat, others: int)
    requires Kept(m, rs, c, active, spare, from, others)
    ensures Mapped(m, rs, from) && Coalesced(rs) && active == Active(rs) && rs != []
    ensures spare ==> |rs| == 1 && rs[0].free
    ensures Counts(c, if spare then Held(rs, 0) else rs, others)
  {
  }

  lemma DirtyAtMost(m: seq<Tag>, rs: seq<Run>, c: Counters, active: int, from: nat, others: int)
    requires Kept(m, rs, c, active, false, from, others)
    ensures c.ndirty <= |m| - from
  {
    KeptParts(m, rs, c, active, false, from, others);
    MappedTiles(m, rs, from);
    DirtyWithin(rs, from, |m|);
  }

  // ----- giving a run back -----

  /** Run i has just been freed in the map, but is on no list yet. */
  ghost predicate Freed(m: seq<Tag>, g: seq<Run>, c: Counters, i: nat, d: bool, from: nat, others: int) {
    && Mapped(m, g, from) && i < |g| && g[i].free && g[i].dirty == d && CoalescedBut(g, i)
    && Counts(c, Held(g, i), others)
  }

  lemma FreedParts(m: seq<Tag>, g: seq<Run>, c: Counters, i: nat, d: bool, from: nat, others: int)
    requires Freed(m, g, c, i, d, from, others)
    ensures Mapped(m, g, from) && i < |g| && g[i].free && g[i].dirty == d && CoalescedBut(g, i)
    ensures Counts(c, Held(g, i), others)
  {
  }

  /** A run in use becomes free. */
  lemma GivenFreed(m: seq<Tag>, rs: seq<Run>, c: Counters, i: nat, d: bool, from: nat, others: int)
    requires Mapped(m, rs, from) && Coalesced(rs) && Counts(c, rs, others) && i < |rs| && !rs[i].free
    ensures
      var r := Run(rs[i].start, rs[i].len, true, d);
      0 < r.len && End(r) <= |m| && Freed(Redo(m, r), Given(rs, i, d), c, i, d, from, others)
  {
    hide Mapped, Coalesced, CoalescedBut, Avail, Adjac, Dirty, FreeRuns, Redo;
    var r := Run(rs[i].start, rs[i].len, true, d);
    var u := r.(free := false);
    KindMapped(m, rs, i, r, from);
    GivenCoalesced(rs, i, d);
    Toggle(rs, i, u);
    UsedFree(rs, i, u);
    assert Held(Given(rs, i, d), i) == rs[i := u];
  }

  /** What is seen behind run i: a free run as dirty as it is just when the two are to be joined. */
  lemma ForwardSees(m: seq<Tag>, g: seq<Run>, i: nat, d: bool, from: nat)
    requires Mapped(m, g, from) && i < |g| && g[i].free && g[i].dirty == d && CoalescedBut(g, i)
    ensures from <= g[i].start < End(g[i]) <= |m|
    ensures (End(g[i]) < |m| && !m[End(g[i])].inUse && m[End(g[i])].dirty == d)
            <==> (i + 1 < |g| && g[i + 1].free && g[i + 1].dirty == d)
    ensures i + 1 < |g| && g[i + 1].free && g[i + 1].dirty == d ==>
              var r := g[i + 1];
              && r.start == End(g[i]) && 0 < r.len && End(r) <= |m|
              && m[g[i].start] == Tag(false, g[i].len, d)
              && m[r.start] == m[End(r) - 1] == Tag(false, r.len, d)
              && Differs(m, from, r.start, r.len, false, true)
              && Pairs(m, from, r.start, r.len, false, true) == One(SuccFree(g, i + 1))
  {
    hide Mapped, Tiles;
    Neighbours(m, g, i, from);
    if i + 1 < |g| { Neighbours(m, g, i + 1, from); }
  }

  lemma ForwardKept(m: seq<Tag>, g: seq<Run>, c: Counters, i: nat, d: bool, from: nat, others: int)
    requires Freed(m, g, c, i, d, from, others) && i + 1 < |g| && g[i + 1].free && g[i + 1].dirty == d
    ensures
      var r, u := Run(g[i].start, g[i].len + g[i + 1].len, true, d), g[i + 1];
      0 < r.len && End(r) <= |m|
      && Freed(Redo(m, r), JoinRight(g, i, d), Removed(c, u.start, u.len, d, One(SuccFree(g, i + 1))), i, d, from, others)
  {
    hide Mapped, CoalescedBut, Counts, Redo, Tiles, Removed;
    var r := Run(g[i].start, g[i].len + g[i + 1].len, true, d);
    MappedTiles(m, g, from);
    Beside(g, from, |m|, i);
    RedoMapped(m, g, i, i + 2, r, from);
    JoinRightCoalesced(g, i, d);
    JoinRightCounts(c, g, i, others, from, |m|);
    assert g[..i] + [r] + g[i + 2..] == Merge(g, i) == JoinRight(g, i, d);
  }

  /** What is seen before run i. */
  lemma BackwardSees(m: seq<Tag>, g: seq<Run>, i: nat, d: bool, from: nat)
    requires Mapped(m, g, from) && i < |g| && g[i].free && g[i].dirty == d && CoalescedBut(g, i)
    ensures from <= g[i].start < End(g[i]) <= |m|
    ensures (g[i].start > from && !m[g[i].start - 1].inUse && m[g[i].start - 1].dirty == d)
            <==> (i > 0 && g[i - 1].free && g[i - 1].dirty == d)
    ensures i > 0 && g[i - 1].free && g[i - 1].dirty == d ==>
              var r := g[i - 1];
              && End(r) == g[i].start && 0 < r.len
              && m[End(g[i]) - 1] == Tag(false, g[i].len, d)
              && m[r.start] == m[End(r) - 1] == Tag(false, r.len, d)
              && Differs(m, from, r.start, r.len, true, false)
              && Pairs(m, from, r.start, r.len, true, false) == One(PredFree(g, i - 1))
  {
    hide Mapped, Tiles;
    Neighbours(m, g, i, from);
    if i > 0 { Neighbours(m, g, i - 1, from); }
  }

  lemma BackwardKept(m: seq<Tag>, g: seq<Run>, c: Counters, i: nat, d: bool, from: nat, others: int)
    requires Freed(m, g, c, i, d, from, others) && 0 < i && g[i - 1].free && g[i - 1].dirty == d
    requires i + 1 < |g| && g[i + 1].free ==> g[i + 1].dirty != d
    ensures
      var r, u := Run(g[i - 1].start, g[i - 1].len + g[i].len, true, d), g[i - 1];
      0 < r.len && End(r) <= |m|
      && Freed(Redo(m, r), JoinLeft(g, i, d), Removed(c, u.start, u.len, d, One(PredFree(g, i - 1))), i - 1, d, from, others)
      && Coalesced(JoinLeft(g, i, d)) && JoinLeft(g, i, d)[i - 1] == r
  {
    hide Mapped, Counts, Redo, Tiles, Removed;
    var r := Run(g[i - 1].start, g[i - 1].len + g[i].len, true, d);
    MappedTiles(m, g, from);
    Beside(g, from, |m|, i - 1);
    RedoMapped(m, g, i - 1, i + 1, r, from);
    JoinLeftCoalesced(g, i, d);
    JoinLeftCounts(c, g, i, others, from, |m|);
    assert g[..i - 1] + [r] + g[i + 1..] == Merge(g, i - 1) == JoinLeft(g, i, d);
  }

  /** The run goes on the list. */
  lemma ListedKept(m: seq<Tag>, u: seq<Run>, c: Counters, i: nat, d: bool, from: nat, others: int)
    requires Freed(m, u, c, i, d, from, others) && Coalesced(u)
    ensures
      var r := u[i];
      && from <= r.start < End(r) <= |m|
      && m[r.start] == m[End(r) - 1] == Tag(false, r.len, d) && Differs(m, from, r.start, r.len, true, true)
      && Kept(m, u, Inserted(c, r.start, r.len, d, Pairs(m, from, r.start, r.len, true, true)), Active(u), false, from, others)
      && (r.len == |m| - from <==> |u| == 1) && u[if |u| == 1 then 0 else i].free
  {
    hide Mapped, Counts, Tiles, Inserted;
    var h := Held(u, i);
    MappedTiles(m, u, from);
    Neighbours(m, u, i, from);
    KindTiles(u, i, h[i], from, |m|);
    InsertedCounts(c, h, i, others, from, |m|);
    assert h[i := u[i]] == u;
    assert PredFree(h, i) == PredFree(u, i) && SuccFree(h, i) == SuccFree(u, i);
  }

  // ----- a chunk that is one free run -----

  lemma SpareKept(m: seq<Tag>, rs: seq<Run>, c: Counters, active: int, from: nat, others: int)
    requires Kept(m, rs, c, active, false, from, others) && |rs| == 1 && rs[0].free
    ensures
      var r := rs[0];
      && r.start == from < End(r) == |m| && m[from] == m[|m| - 1] == Tag(false, r.len, r.dirty)
      && Kept(m, rs, Removed(c, from, r.len, r.dirty, 0), active, true, from, others)
  {
    Neighbours(m, rs, 0, from);
    RemovedCounts(c, rs, 0, others, from, |m|);
  }

  lemma ReuseKept(m: seq<Tag>, rs: seq<Run>, c: Counters, active: int, from: nat, others: int)
    requires Kept(m, rs, c, active, true, from, others)
    ensures
      var r := rs[0];
      && r.start == from < End(r) == |m| && m[from] == m[|m| - 1] == Tag(false, r.len, r.dirty)
      && Kept(m, rs, Inserted(c, from, r.len, r.dirty, 0), active, false, from, others)
  {
    var h := Held(rs, 0);
    Neighbours(m, rs, 0, from);
    KindTiles(rs, 0, h[0], from, |m|);
    InsertedCounts(c, h, 0, others, from, |m|);
    assert h[0 := rs[0]] == rs;
  }

  // ----- cutting and growing runs in use -----

  lemma CutKept(m: seq<Tag>, rs: seq<Run>, c: Counters, active: int, i: nat, n: nat, from: nat, others: int)
    requires Kept(m, rs, c, active, false, from, others) && i < |rs| && !rs[i].free && 0 < n < rs[i].len
    ensures End(rs[i]) <= |m| && from <= rs[i].start
    ensures m[rs[i].start] == Tag(true, rs[i].len, rs[i].dirty) && m[End(rs[i]) - 1] == Tag(true, 0, rs[i].dirty)
    ensures
      var a, b := Part1(rs[i], n), Part2(rs[i], n);
      Kept(Redo(m, a)[b.start := Tag(true, b.len, b.dirty)], Cut(rs, i, n), c, active, false, from, others)
  {
    hide Mapped, Coalesced, Active, Redo, Avail, Adjac, Dirty, FreeRuns;
    Neighbours(m, rs, i, from);
    CutMapped(m, rs, i, n, from);
    CutCounts(rs, i, n);
    CutCoalesced(rs, i, n);
  }

  lemma GrownKept(m: seq<Tag>, rs: seq<Run>, c: Counters, active: int, i: nat, from: nat, others: int)
    requires Kept(m, rs, c, active, false, from, others) && i + 1 < |rs| && !rs[i].free && !rs[i + 1].free
    ensures
      var r := Run(rs[i].start, rs[i].len + rs[i + 1].len, false, rs[i].dirty || rs[i + 1].dirty);
      && 1 < r.len && End(r) <= |m| && m[r.start].dirty == rs[i].dirty && m[End(r) - 1].dirty == rs[i + 1].dirty
      && Kept(Redo(m, r), Grown(rs, i), c, active, false, from, others)
  {
    hide Mapped, Coalesced, Active, Redo, Avail, Adjac, Dirty, FreeRuns;
    var r := Run(rs[i].start, rs[i].len + rs[i + 1].len, false, rs[i].dirty || rs[i + 1].dirty);
    Neighbours(m, rs, i, from);
    Neighbours(m, rs, i + 1, from);
    RedoMapped(m, rs, i, i + 2, r, from);
    GrownCounts(rs, i);
    GrownCoalesced(rs, i);
  }

  /** A run that is known to be of the chunk, as the map tells. */
  lemma RunTags(m: seq<Tag>, rs: seq<Run>, from: nat, r: Run) returns (i: nat)
    requires Mapped(m, rs, from) && r in rs
    ensures i < |rs| && rs[i] == r && End(r) <= |m| && Described(m, r)
  {
    i :| 0 <= i < |rs| && rs[i] == r;
  }

  /** A chunk in the tree of dirty chunks has dirty pages, more free runs than pairs, and is not the spare. */
  lemma SpareNotDirty(m: seq<Tag>, rs: seq<Run>, c: Counters, active: int, spare: bool, from: nat, others: int)
    requires Kept(m, rs, c, active, spare, from, others) && c.inDirtyTree
    ensures !spare && Dirty(rs) == c.ndirty > 0 && c.nrunsAdjac < c.nrunsAvail
  {
    DirtyIsFree(rs);
    FewerPairs(rs);
    if |rs| == 1 { HeldClean(rs); }
  }

  lemma HeldClean(rs: seq<Run>)
    requires |rs| == 1
    ensures Dirty(Held(rs, 0)) == 0
  {
    assert Held(rs, 0)[..0] == [];
  }

  lemma DescribedSize(m: seq<Tag>, r: Run)
    requires Described(m, r)
    ensures End(r) <= |m| && m[r.start].size == r.len > 0
  {
  }

  /** A new chunk is one clean free run. */
  lemma NewKept(m: seq<Tag>, from: nat, others: int)
    requires from < |m| && m[from] == m[|m| - 1] == Tag(false, |m| - from, false)
    ensures
      var rs := [Run(from, |m| - from, true, false)];
      Kept(m, rs, Inserted(Counters(0, 0, 0, others, {}, false), from, |m| - from, false, 0), Active(rs), false, from, others)
      && Active(rs) == 0
  {
    var r := Run(from, |m| - from, true, false);
    assert [r][..0] == [];
    var f := FreeRuns([r]);
    assert f == {(r.start, r.len)} by {
      assert [r][0].free;
      assert (r.start, r.len) in f;
    }
    assert Described(m, r);
  }

  /** The runs on the list are the free runs of the map; of a spare chunk none is listed. */
  lemma Listed(m: seq<Tag>, rs: seq<Run>, c: Counters, active: int, spare: bool, from: nat, others: int)
    requires Kept(m, rs, c, active, spare, from, others)
    ensures forall x :: x in c.runsAvail ==> exists i :: 0 <= i < |rs| && rs[i].free && x == (rs[i].start, rs[i].len)
    ensures !spare ==> forall i :: 0 <= i < |rs| && rs[i].free ==> (rs[i].start, rs[i].len) in c.runsAvail
    ensures spare ==> c.runsAvail == {}
  {
  }

  lemma SpareWhole(m: seq<Tag>, rs: seq<Run>, c: Counters, active: int, from: nat, others: int)
    requires Kept(m, rs, c, active, true, from, others)
    ensures |rs| == 1 && rs[0].free && rs[0].start == from && rs[0].len == |m| - from
  {
    Neighbours(m, rs, 0, from);
  }

  /** A spare chunk has no part in the arena's counts. */
  lemma SpareCountsNothing(m: seq<Tag>, rs: seq<Run>, c: Counters, active: int, from: nat, others: int)
    requires Kept(m, rs, c, active, true, from, others)
    ensures c.ndirty == 0 && active == 0
  {
    HeldClean(rs);
    assert rs[..|rs| - 1] == [] && Active([]) == 0;
    assert Active(rs) == Active(rs[..|rs| - 1]) + UsedPages(rs[|rs| - 1]);
  }

  /** In the tree of dirty chunks is just a chunk with dirty pages; their number is not negative. */
  lemma DirtyOrNot(m: seq<Tag>, rs: seq<Run>, c: Counters, active: int, spare: bool, from: nat, others: int)
    requires Kept(m, rs, c, active, spare, from, others)
    ensures c.ndirty >= 0 && c.inDirtyTree == (c.ndirty != 0) && c.nrunsAvail >= 0 && c.nrunsAdjac >= 0 && active >= 0
    ensures c.inDirtyTree ==> c.nrunsAdjac < c.nrunsAvail
  {
    if c.inDirtyTree { SpareNotDirty(m, rs, c, active, spare, from, others); }
  }
}
