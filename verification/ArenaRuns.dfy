/** The page runs of a jemalloc chunk (arena.c): how they tile the chunk, and the counters that arena.c keeps
    of them, here counted anew. */
module ArenaRuns {
  import opened Wrappers

  /** A run of pages: where it starts, how long it is, whether it is free, and whether it is dirty. */
  datatype Run = Run(start: nat, len: nat, free: bool, dirty: bool)

  function End(r: Run): nat { r.start + r.len }

  /** The runs cover the pages from one place to another without gaps. */
  ghost predicate Tiles(rs: seq<Run>, from: nat, to: nat) {
    && (forall i :: 0 <= i < |rs| ==> rs[i].len > 0)
    && (forall i, j :: 0 <= i && j == i + 1 && j < |rs| ==> rs[j].start == End(rs[i]))
    && (if rs == [] then from == to else rs[0].start == from && End(rs[|rs| - 1]) == to)
  }

  /** Earlier runs end before later ones start. */
  lemma {:induction false} Ordered(rs: seq<Run>, from: nat, to: nat, i: nat, j: nat)
    requires Tiles(rs, from, to) && i < j < |rs|
    ensures End(rs[i]) <= rs[j].start
    decreases j - i
  {
    if j > i + 1 { Ordered(rs, from, to, i, j - 1); }
  }

  lemma Within(rs: seq<Run>, from: nat, to: nat, i: nat)
    requires Tiles(rs, from, to) && i < |rs|
    ensures from <= rs[i].start < End(rs[i]) <= to
    ensures (rs[i].start == from <==> i == 0) && (End(rs[i]) == to <==> i == |rs| - 1)
  {
    if i > 0 { Ordered(rs, from, to, 0, i); }
    if i < |rs| - 1 { Ordered(rs, from, to, i, |rs| - 1); }
  }

  lemma Beside(rs: seq<Run>, from: nat, to: nat, i: nat)
    requires Tiles(rs, from, to) && i + 1 < |rs|
    ensures rs[i].len > 0 && rs[i + 1].len > 0 && End(rs[i]) == rs[i + 1].start
  {
  }

  // ----- what the counters count -----

  /** Free runs. */
  function Avail(rs: seq<Run>): nat {
    if rs == [] then 0 else Avail(rs[..|rs| - 1]) + One(rs[|rs| - 1].free)
  }

  function One(b: bool): nat { if b then 1 else 0 }

  /** Pairs of free runs side by side. */
  function Adjac(rs: seq<Run>): nat {
    if |rs| < 2 then 0
    else Adjac(rs[..|rs| - 1]) + One(rs[|rs| - 2].free && rs[|rs| - 1].free)
  }

  /** Pages of dirty free runs. */
  function Dirty(rs: seq<Run>): nat {
    if rs == [] then 0 else Dirty(rs[..|rs| - 1]) + DirtyPages(rs[|rs| - 1])
  }

  function DirtyPages(r: Run): nat { if r.free && r.dirty then r.len else 0 }

  /** The dirty pages are among all pages. */
  lemma {:induction false} DirtyWithin(rs: seq<Run>, from: nat, to: nat)
    requires Tiles(rs, from, to)
    ensures Dirty(rs) <= to - from
  {
    if rs != [] {
      var n := |rs| - 1;
      if n > 0 { DirtyWithin(rs[..n], from, rs[n].start); }
    }
  }

  /** Pages in use. */
  function Active(rs: seq<Run>): nat {
    if rs == [] then 0 else Active(rs[..|rs| - 1]) + UsedPages(rs[|rs| - 1])
  }

  function UsedPages(r: Run): nat { if r.free then 0 else r.len }

  /** The free runs, as runs_avail holds them. */
  ghost function FreeRuns(rs: seq<Run>): set<(nat, nat)> {
    set i | 0 <= i < |rs| && rs[i].free :: (rs[i].start, rs[i].len)
  }

  /** The neighbours of run i that are free. */
  function PredFree(rs: seq<Run>, i: nat): bool
    requires i < |rs|
  {
    i > 0 && rs[i - 1].free
  }

  function SuccFree(rs: seq<Run>, i: nat): bool
    requires i < |rs|
  {
    i + 1 < |rs| && rs[i + 1].free
  }

  // ----- how the counts change -----

  /** Run i is put on or taken off the free list. */
  lemma {:induction false} Toggle(rs: seq<Run>, i: nat, r: Run)
    requires i < |rs|
    ensures
      var u := rs[i := r];
      && Avail(u) + One(rs[i].free) == Avail(rs) + One(r.free)
      && Dirty(u) + DirtyPages(rs[i]) == Dirty(rs) + DirtyPages(r)
      && Active(u) + UsedPages(rs[i]) == Active(rs) + UsedPages(r)
      && Adjac(u) + One(rs[i].free && PredFree(rs, i)) + One(rs[i].free && SuccFree(rs, i))
         == Adjac(rs) + One(r.free && PredFree(rs, i)) + One(r.free && SuccFree(rs, i))
    decreases |rs|
  {
    var n := |rs| - 1;
    var u := rs[i := r];
    if i == n {
      assert u[..n] == rs[..n];
    } else {
      assert u[..n] == rs[..n][i := r];
      Toggle(rs[..n], i, r);
    }
  }

  /** Runs i to j are redone as others that cover the same pages. */
  lemma SpliceTiles(rs: seq<Run>, i: nat, j: nat, mid: seq<Run>, from: nat, to: nat)
    requires Tiles(rs, from, to) && i < j <= |rs| && mid != [] && Tiles(mid, rs[i].start, End(rs[j - 1]))
    ensures Tiles(rs[..i] + mid + rs[j..], from, to)
  {
    var u := rs[..i] + mid + rs[j..];
    forall k, l | 0 <= k && l == k + 1 && l < |u| ensures u[l].start == End(u[k]) {
      if l < i { assert u[k] == rs[k] && u[l] == rs[l]; }
      else if l == i { assert u[k] == rs[k] && u[l] == mid[0]; }
      else if l < i + |mid| { assert u[k] == mid[k - i] && u[l] == mid[l - i]; }
      else if l == i + |mid| { assert u[k] == mid[|mid| - 1] && u[l] == rs[j]; }
      else { assert u[k] == rs[k - i - |mid| + j] && u[l] == rs[l - i - |mid| + j]; }
    }
  }

  /** Runs i and i + 1, both in use, become one. */
  function Merge(rs: seq<Run>, i: nat): seq<Run>
    requires i + 1 < |rs|
  {
    rs[..i] + [Run(rs[i].start, rs[i].len + rs[i + 1].len, rs[i].free, rs[i].dirty)] + rs[i + 2..]
  }

  lemma {:induction false} MergeCounts(rs: seq<Run>, i: nat)
    requires i + 1 < |rs| && !rs[i].free && !rs[i + 1].free
    ensures
      var u := Merge(rs, i);
      Avail(u) == Avail(rs) && Dirty(u) == Dirty(rs) && Active(u) == Active(rs) && Adjac(u) == Adjac(rs)
    decreases |rs|
  {
    var n := |rs| - 1;
    var u := Merge(rs, i);
    if i + 1 == n {
      assert u[..|u| - 1] == rs[..i] && rs[..n][..i] == rs[..i];
      assert Avail(rs[..n]) == Avail(rs[..i]) && Adjac(rs[..n]) == Adjac(rs[..i]);
    } else {
      assert u[..|u| - 1] == Merge(rs[..n], i);
      MergeCounts(rs[..n], i);
    }
  }

  lemma MergeFree(rs: seq<Run>, i: nat)
    requires i + 1 < |rs| && !rs[i].free && !rs[i + 1].free
    ensures FreeRuns(Merge(rs, i)) == FreeRuns(rs)
  {
    var u := Merge(rs, i);
    forall x | x in FreeRuns(u) ensures x in FreeRuns(rs) {
      var k :| 0 <= k < |u| && u[k].free && x == (u[k].start, u[k].len);
      if k < i { assert rs[k].free && x == (rs[k].start, rs[k].len); }
      else { assert rs[k + 1].free && x == (rs[k + 1].start, rs[k + 1].len); }
    }
    forall x | x in FreeRuns(rs) ensures x in FreeRuns(u) {
      var k :| 0 <= k < |rs| && rs[k].free && x == (rs[k].start, rs[k].len);
      if k < i { assert u[k].free && x == (u[k].start, u[k].len); }
      else { assert u[k - 1].free && x == (u[k - 1].start, u[k - 1].len); }
    }
  }

  /** Run i, in use, is cut behind its first n pages. */
  function Cut(rs: seq<Run>, i: nat, n: nat): seq<Run>
    requires i < |rs| && 0 < n < rs[i].len
  {
    rs[..i] + [Run(rs[i].start, n, rs[i].free, rs[i].dirty), Run(rs[i].start + n, rs[i].len - n, rs[i].free, rs[i].dirty)]
    + rs[i + 1..]
  }

  lemma CutMerge(rs: seq<Run>, i: nat, n: nat)
    requires i < |rs| && 0 < n < rs[i].len
    ensures Merge(Cut(rs, i, n), i) == rs
  {
  }

  lemma CutCounts(rs: seq<Run>, i: nat, n: nat)
    requires i < |rs| && 0 < n < rs[i].len && !rs[i].free
    ensures
      var u := Cut(rs, i, n);
      Avail(u) == Avail(rs) && Dirty(u) == Dirty(rs) && Active(u) == Active(rs) && Adjac(u) == Adjac(rs)
      && FreeRuns(u) == FreeRuns(rs)
  {
    CutMerge(rs, i, n);
    MergeCounts(Cut(rs, i, n), i);
    MergeFree(Cut(rs, i, n), i);
  }

  lemma CutTiles(rs: seq<Run>, i: nat, n: nat, from: nat, to: nat)
    requires Tiles(rs, from, to) && i < |rs| && 0 < n < rs[i].len
    ensures Tiles(Cut(rs, i, n), from, to)
  {
  }

  /** Putting a run on the free list or taking it off, as a set. */
  lemma ToggleFree(rs: seq<Run>, i: nat, from: nat, to: nat)
    requires Tiles(rs, from, to) && i < |rs|
    ensures
      var r := rs[i];
      && FreeRuns(rs[i := r.(free := true)]) == FreeRuns(rs) + {(r.start, r.len)}
      && FreeRuns(rs[i := r.(free := false)]) == FreeRuns(rs) - {(r.start, r.len)}
  {
    var r := rs[i];
    var u, w := rs[i := r.(free := true)], rs[i := r.(free := false)];
    forall k | 0 <= k < |rs| && k != i ensures rs[k].start != r.start {
      if k < i { Ordered(rs, from, to, k, i); } else { Ordered(rs, from, to, i, k); }
    }
    assert u[i].free && (u[i].start, u[i].len) == (r.start, r.len);
    forall x | x in FreeRuns(rs) ensures x in FreeRuns(u) && (x != (r.start, r.len) ==> x in FreeRuns(w)) {
      var k :| 0 <= k < |rs| && rs[k].free && x == (rs[k].start, rs[k].len);
      assert u[k].free && x == (u[k].start, u[k].len);
      if k != i { assert w[k].free && x == (w[k].start, w[k].len); }
    }
    forall x | x in FreeRuns(u) ensures x in FreeRuns(rs) || x == (r.start, r.len) {
      var k :| 0 <= k < |u| && u[k].free && x == (u[k].start, u[k].len);
      if k != i { assert rs[k].free && x == (rs[k].start, rs[k].len); }
    }
    forall x | x in FreeRuns(w) ensures x in FreeRuns(rs) && x != (r.start, r.len) {
      var k :| 0 <= k < |w| && w[k].free && x == (w[k].start, w[k].len);
      assert k != i && rs[k].free && x == (rs[k].start, rs[k].len);
    }
  }

  // ----- no two free runs of the same kind side by side -----

  ghost predicate Coalesced(rs: seq<Run>) {
    forall i, j :: 0 <= i && j == i + 1 && j < |rs| && rs[i].free && rs[j].free ==> rs[i].dirty != rs[j].dirty
  }

  // ----- what the operations make of the runs -----

  /** The first need pages of free run i are taken into use. */
  function Split(rs: seq<Run>, i: nat, need: nat): seq<Run>
    requires i < |rs| && 0 < need <= rs[i].len
  {
    var used := rs[i := rs[i].(free := false)];
    if need == rs[i].len then used
    else
      var two := Cut(used, i, need);
      two[i + 1 := two[i + 1].(free := true)]
  }

  /** Two runs of the same kind become one. */
  function Join(rs: seq<Run>, i: nat, d: bool): seq<Run>
    requires i + 1 < |rs|
  {
    if rs[i].free && rs[i + 1].free && rs[i].dirty == d && rs[i + 1].dirty == d then Merge(rs, i) else rs
  }

  /** Run i, just freed, joins the free run behind it if that is as dirty, and then the one before it. */
  function JoinRight(g: seq<Run>, i: nat, d: bool): seq<Run>
    requires i < |g|
  {
    if i + 1 < |g| then Join(g, i, d) else g
  }

  function JoinLeft(g: seq<Run>, i: nat, d: bool): seq<Run>
    requires i < |g|
  {
    if i > 0 then Join(g, i - 1, d) else g
  }

  /** Run i becomes free. */
  function Given(rs: seq<Run>, i: nat, d: bool): seq<Run>
    requires i < |rs|
  {
    rs[i := Run(rs[i].start, rs[i].len, true, d)]
  }

  /** Run i is given back: it joins free neighbours that are as dirty as it is. */
  function Release(rs: seq<Run>, i: nat, d: bool): seq<Run>
    requires i < |rs|
  {
    JoinLeft(JoinRight(Given(rs, i, d), i, d), i, d)
  }

  /** Runs i and i + 1, both in use, become one that is dirty if either was. */
  function Grown(rs: seq<Run>, i: nat): seq<Run>
    requires i + 1 < |rs|
  {
    rs[..i] + [Run(rs[i].start, rs[i].len + rs[i + 1].len, false, rs[i].dirty || rs[i + 1].dirty)] + rs[i + 2..]
  }

  lemma KindTiles(rs: seq<Run>, i: nat, r: Run, from: nat, to: nat)
    requires Tiles(rs, from, to) && i < |rs| && r.start == rs[i].start && r.len == rs[i].len
    ensures Tiles(rs[i := r], from, to)
  {
  }

  /** All that the counters count, when a run is put on the free list or taken off. */
  lemma ToggleAll(rs: seq<Run>, i: nat, f: bool, from: nat, to: nat)
    requires Tiles(rs, from, to) && i < |rs| && rs[i].free == !f
    ensures
      var u, r := rs[i := rs[i].(free := f)], rs[i];
      var pairs, dirty := One(PredFree(rs, i)) + One(SuccFree(rs, i)), if r.dirty then r.len else 0;
      && Tiles(u, from, to)
      && (if f then Avail(u) == Avail(rs) + 1 && Adjac(u) == Adjac(rs) + pairs && Dirty(u) == Dirty(rs) + dirty
          else Avail(u) == Avail(rs) - 1 && Adjac(u) == Adjac(rs) - pairs && Dirty(u) == Dirty(rs) - dirty)
      && FreeRuns(u) == (if f then FreeRuns(rs) + {(rs[i].start, rs[i].len)} else FreeRuns(rs) - {(rs[i].start, rs[i].len)})
      && (Adjac(u) < Avail(u) || (Adjac(u) == 0 && Avail(u) == 0))
  {
    hide Tiles, Avail, Adjac, Dirty, FreeRuns;
    Toggle(rs, i, rs[i].(free := f));
    ToggleFree(rs, i, from, to);
    KindTiles(rs, i, rs[i].(free := f), from, to);
    FewerPairs(rs[i := rs[i].(free := f)]);
  }

  lemma SplitCoalesced(rs: seq<Run>, i: nat, need: nat)
    requires Coalesced(rs) && i < |rs| && rs[i].free && 0 < need <= rs[i].len
    ensures Coalesced(Split(rs, i, need))
  {
    var u := Split(rs, i, need);
    forall k, l | 0 <= k && l == k + 1 && l < |u| && u[k].free && u[l].free ensures u[k].dirty != u[l].dirty {
      if need == rs[i].len {
        assert rs[k].free && rs[l].free;
      } else if k < i - 1 {
        assert u[k] == rs[k] && u[l] == rs[l];
      } else if k > i {
        assert u[l] == rs[l - 1] && (if k == i + 1 then u[k].dirty == rs[i].dirty && u[k].free == rs[i].free else u[k] == rs[k - 1]);
      }
    }
  }

  /** No two free runs of the same kind side by side, but perhaps at run i. */
  ghost predicate CoalescedBut(rs: seq<Run>, i: nat) {
    forall k, l :: 0 <= k && l == k + 1 && l < |rs| && k != i && l != i && rs[k].free && rs[l].free
                   ==> rs[k].dirty != rs[l].dirty
  }

  /** Joining to the right leaves pairs of the same kind only before run i. */
  lemma JoinRightCoalesced(g: seq<Run>, i: nat, d: bool)
    requires CoalescedBut(g, i) && i < |g| && g[i].free && g[i].dirty == d
    ensures
      var u := JoinRight(g, i, d);
      && i < |u| && u[i].free && u[i].dirty == d && u[i].start == g[i].start && CoalescedBut(u, i)
      && (i + 1 < |u| && u[i + 1].free ==> u[i + 1].dirty != d)
  {
    var u := JoinRight(g, i, d);
    if u != g {
      assert i + 2 < |g| ==> u[i + 1] == g[i + 2] && (g[i + 1].free && g[i + 2].free ==> g[i + 1].dirty != g[i + 2].dirty);
      forall k, l | 0 <= k && l == k + 1 && l < |u| && k != i && l != i && u[k].free && u[l].free
        ensures u[k].dirty != u[l].dirty
      {
        if l < i { assert u[k] == g[k] && u[l] == g[l]; } else { assert u[k] == g[k + 1] && u[l] == g[l + 1]; }
      }
    }
  }

  /** Joining to the left then leaves none. */
  lemma JoinLeftCoalesced(g: seq<Run>, i: nat, d: bool)
    requires CoalescedBut(g, i) && i < |g| && g[i].free && g[i].dirty == d
    requires i + 1 < |g| && g[i + 1].free ==> g[i + 1].dirty != d
    ensures Coalesced(JoinLeft(g, i, d))
  {
    var u := JoinLeft(g, i, d);
    forall k, l | 0 <= k && l == k + 1 && l < |u| && u[k].free && u[l].free ensures u[k].dirty != u[l].dirty {
      if u != g {
        if l < i - 1 { assert u[k] == g[k] && u[l] == g[l]; }
        else if l == i - 1 { assert u[k] == g[k] && g[l].free && g[l].dirty == u[l].dirty; }
        else if k == i - 1 { assert u[l] == g[i + 1] && u[k].dirty == d; }
        else { assert u[k] == g[k + 1] && u[l] == g[l + 1]; }
      }
    }
  }

  lemma GivenCoalesced(rs: seq<Run>, i: nat, d: bool)
    requires Coalesced(rs) && i < |rs|
    ensures CoalescedBut(Given(rs, i, d), i)
  {
  }

  /** Giving back what was split off undoes the split. */
  lemma SplitThenRelease(rs: seq<Run>, i: nat, need: nat)
    requires Coalesced(rs) && i < |rs| && rs[i].free && 0 < need <= rs[i].len
    ensures Release(Split(rs, i, need), i, rs[i].dirty) == rs
  {
    var u, d := Split(rs, i, need), rs[i].dirty;
    if need == rs[i].len {
      assert Given(u, i, d) == rs;
    } else {
      assert Merge(Given(u, i, d), i) == rs;
    }
  }

  // ----- pages in use -----

  lemma SplitActive(rs: seq<Run>, i: nat, need: nat)
    requires i < |rs| && rs[i].free && 0 < need <= rs[i].len
    ensures Active(Split(rs, i, need)) == Active(rs) + need
  {
    hide Avail, Adjac, Dirty, Active, PredFree, SuccFree;
    var used := rs[i := rs[i].(free := false)];
    Toggle(rs, i, used[i]);
    if need < rs[i].len {
      CutCounts(used, i, need);
      var two := Cut(used, i, need);
      Toggle(two, i + 1, two[i + 1].(free := true));
    }
  }

  /** Joining free runs changes nothing in the numbers of pages in use and of dirty ones. */
  lemma JoinActive(g: seq<Run>, i: nat, d: bool)
    requires i + 1 < |g|
    ensures Active(Join(g, i, d)) == Active(g) && Dirty(Join(g, i, d)) == Dirty(g)
  {
    hide Avail, Adjac, Dirty, Active, PredFree, SuccFree, One, Merge;
    var u := Join(g, i, d);
    if u != g {
      var w := g[i := g[i].(free := false)];
      var v := w[i + 1 := w[i + 1].(free := false)];
      Toggle(g, i, w[i]);
      Toggle(w, i + 1, v[i + 1]);
      MergeCounts(v, i);
      MergeAt(g, i);
      MergeAt(v, i);
      Toggle(Merge(v, i), i, u[i]);
      MergeLike(g, v, i);
    }
  }

  lemma MergeAt(rs: seq<Run>, i: nat)
    requires i + 1 < |rs|
    ensures i < |Merge(rs, i)| && Merge(rs, i)[i] == Run(rs[i].start, rs[i].len + rs[i + 1].len, rs[i].free, rs[i].dirty)
  {
  }

  /** Merging two runs depends on the others only as they are, and on the first of the two. */
  lemma MergeLike(g: seq<Run>, v: seq<Run>, i: nat)
    requires i + 1 < |g| == |v| && g[i].len == v[i].len && g[i + 1].len == v[i + 1].len && g[i].start == v[i].start
    requires g[..i] == v[..i] && g[i + 2..] == v[i + 2..]
    ensures i < |Merge(v, i)| && i < |Merge(g, i)| && Merge(v, i)[i := Merge(g, i)[i]] == Merge(g, i)
  {
  }

  lemma ReleaseActive(rs: seq<Run>, i: nat, d: bool)
    requires i < |rs| && !rs[i].free
    ensures Active(Release(rs, i, d)) == Active(rs) - rs[i].len
  {
    hide Avail, Adjac, Dirty, Active, PredFree, SuccFree;
    var g := Given(rs, i, d);
    Toggle(rs, i, g[i]);
    if i + 1 < |g| { JoinActive(g, i, d); }
    if i > 0 { JoinActive(JoinRight(g, i, d), i - 1, d); }
  }

  // ----- growing a run in use -----

  lemma UsedFree(rs: seq<Run>, i: nat, r: Run)
    requires i < |rs| && !rs[i].free && !r.free
    ensures FreeRuns(rs[i := r]) == FreeRuns(rs)
  {
    var w := rs[i := r];
    forall x | x in FreeRuns(rs) ensures x in FreeRuns(w) {
      var k :| 0 <= k < |rs| && rs[k].free && x == (rs[k].start, rs[k].len);
      assert w[k] == rs[k];
    }
    forall x | x in FreeRuns(w) ensures x in FreeRuns(rs) {
      var k :| 0 <= k < |w| && w[k].free && x == (w[k].start, w[k].len);
      assert w[k] == rs[k];
    }
  }

  lemma GrownCounts(rs: seq<Run>, i: nat)
    requires i + 1 < |rs| && !rs[i].free && !rs[i + 1].free
    ensures
      var u := Grown(rs, i);
      Avail(u) == Avail(rs) && Dirty(u) == Dirty(rs) && Active(u) == Active(rs) && Adjac(u) == Adjac(rs)
      && FreeRuns(u) == FreeRuns(rs)
  {
    hide Avail, Adjac, Dirty, Active, FreeRuns;
    var w := rs[i := rs[i].(dirty := rs[i].dirty || rs[i + 1].dirty)];
    Toggle(rs, i, w[i]);
    UsedFree(rs, i, w[i]);
    MergeCounts(w, i);
    MergeFree(w, i);
    assert Merge(w, i) == Grown(rs, i);
  }

  lemma GrownCoalesced(rs: seq<Run>, i: nat)
    requires Coalesced(rs) && i + 1 < |rs|
    ensures Coalesced(Grown(rs, i))
  {
    var u := Grown(rs, i);
    forall k, l | 0 <= k && l == k + 1 && l < |u| && u[k].free && u[l].free ensures u[k].dirty != u[l].dirty {
      if l < i { assert u[k] == rs[k] && u[l] == rs[l]; } else { assert u[k] == rs[k + 1] && u[l] == rs[l + 1]; }
    }
  }

  lemma CutCoalesced(rs: seq<Run>, i: nat, n: nat)
    requires Coalesced(rs) && i < |rs| && 0 < n < rs[i].len && !rs[i].free
    ensures Coalesced(Cut(rs, i, n))
  {
    var u := Cut(rs, i, n);
    forall k, l | 0 <= k && l == k + 1 && l < |u| && u[k].free && u[l].free ensures u[k].dirty != u[l].dirty {
      if l < i { assert u[k] == rs[k] && u[l] == rs[l]; } else { assert u[k] == rs[k - 1] && u[l] == rs[l - 1]; }
    }
  }

  /** There are more free runs than pairs of them. */
  lemma {:induction false} FewerPairs(rs: seq<Run>)
    ensures Adjac(rs) + One(rs != [] && rs[|rs| - 1].free) <= Avail(rs)
    ensures Avail(rs) > 0 ==> Adjac(rs) < Avail(rs)
  {
    if rs != [] { FewerPairs(rs[..|rs| - 1]); }
  }

  lemma {:induction false} DirtyIsFree(rs: seq<Run>)
    ensures Dirty(rs) > 0 ==> Avail(rs) > 0
  {
    if rs != [] { DirtyIsFree(rs[..|rs| - 1]); }
  }

  // ----- the best fit -----

  /** In the order of sizes, and of places where the sizes are the same. */
  predicate FitsBetter(x: (nat, nat), y: (nat, nat)) {
    x.1 < y.1 || (x.1 == y.1 && x.0 <= y.0)
  }

  /** The smallest run that is large enough, and of those the first. */
  predicate BestFit(s: set<(nat, nat)>, need: nat, x: (nat, nat)) {
    x in s && x.1 >= need && forall y :: y in s && y.1 >= need ==> FitsBetter(x, y)
  }

  /** If some run is large enough there is a best one. */
  lemma {:induction false} BestFitExists(s: set<(nat, nat)>, need: nat, z: (nat, nat))
    requires z in s && z.1 >= need
    ensures exists x :: BestFit(s, need, x)
    decreases |s|
  {
    if y :| y in s && y.1 >= need && !FitsBetter(z, y) {
      var t := set x | x in s && (x.1 >= need ==> !FitsBetter(z, x));
      assert z !in t && t < s;
      Fewer(t, s);
      BestFitExists(t, need, y);
      var b :| BestFit(t, need, b);
      assert BestFit(s, need, b);
    } else {
      assert BestFit(s, need, z);
    }
  }

}
