/** Purging dirty pages in arena.c: dirty free runs are taken into use for a while, and given back clean. */
module ArenaPurge {
  import opened ArenaRuns
  import opened ArenaMap

  /** A dirty free run that is purged: any, or only one beside another free run. */
  predicate Purgeable(rs: seq<Run>, i: nat, all: bool)
    requires i < |rs|
  {
    rs[i].free && rs[i].dirty && (all || PredFree(rs, i) || SuccFree(rs, i))
  }

  /** The first k runs have been looked at. */
  function Stashed(rs: seq<Run>, all: bool, k: nat): (u: seq<Run>)
    requires k <= |rs|
    ensures |u| == |rs|
    ensures forall i :: 0 <= i < |rs| ==> u[i] == if i < k && Purgeable(rs, i, all) then rs[i].(free := false) else rs[i]
  {
    if k == 0 then rs
    else
      var u := Stashed(rs, all, k - 1);
      if Purgeable(rs, k - 1, all) then u[k - 1 := rs[k - 1].(free := false)] else u
  }

  /** Which runs are purged, in the order of their places. */
  function Picked(rs: seq<Run>, all: bool, k: nat): (p: seq<nat>)
    requires k <= |rs|
    ensures forall n :: 0 <= n < |p| ==> p[n] < k && Purgeable(rs, p[n], all)
    ensures forall a, b :: 0 <= a < b < |p| ==> p[a] < p[b]
  {
    if k == 0 then []
    else if Purgeable(rs, k - 1, all) then Picked(rs, all, k - 1) + [k - 1]
    else Picked(rs, all, k - 1)
  }

  /** The runs that are purged, in use meanwhile. */
  function Taken(rs: seq<Run>, all: bool, k: nat): (t: seq<Run>)
    requires k <= |rs|
    ensures |t| == |Picked(rs, all, k)|
    ensures forall n :: 0 <= n < |t| ==> t[n] == rs[Picked(rs, all, k)[n]].(free := false)
  {
    if k == 0 then []
    else if Purgeable(rs, k - 1, all) then Taken(rs, all, k - 1) + [rs[k - 1].(free := false)]
    else Taken(rs, all, k - 1)
  }

  function Pages(t: seq<Run>): nat {
    if t == [] then 0 else t[0].len + Pages(t[1..])
  }

  function Starts(t: seq<Run>): (l: seq<nat>)
    ensures |l| == |t| && forall n :: 0 <= n < |t| ==> l[n] == t[n].start
  {
    if t == [] then [] else Starts(t[..|t| - 1]) + [t[|t| - 1].start]
  }

  lemma {:induction false} PagesPlus(t: seq<Run>, r: Run)
    ensures Pages(t + [r]) == Pages(t) + r.len
  {
    if t != [] {
      assert (t + [r])[1..] == t[1..] + [r];
      PagesPlus(t[1..], r);
    }
  }

  /** What is seen of a dirty run's neighbours is not disturbed by earlier runs having been taken. */
  lemma SeenUndisturbed(rs: seq<Run>, all: bool, k: nat)
    requires Coalesced(rs) && k < |rs| && rs[k].free && rs[k].dirty
    ensures
      var u := Stashed(rs, all, k);
      u[k] == rs[k] && PredFree(u, k) == PredFree(rs, k) && SuccFree(u, k) == SuccFree(rs, k)
  {
  }

  lemma StashStep(rs: seq<Run>, all: bool, k: nat)
    requires k < |rs| && rs[k].len > 0
    ensures
      var u := Stashed(rs, all, k);
      Stashed(rs, all, k + 1) == if Purgeable(rs, k, all) then Split(u, k, rs[k].len) else u
  {
    assert Stashed(rs, all, k + 1) == (if Purgeable(rs, k, all) then Split(Stashed(rs, all, k), k, rs[k].len)
                                       else Stashed(rs, all, k));
  }

  /** The pages taken are no longer counted as dirty, but as in use. */
  lemma {:induction false} StashCounts(rs: seq<Run>, all: bool, k: nat)
    requires k <= |rs|
    ensures Dirty(Stashed(rs, all, k)) + Pages(Taken(rs, all, k)) == Dirty(rs)
    ensures Active(Stashed(rs, all, k)) == Active(rs) + Pages(Taken(rs, all, k))
  {
    if k > 0 {
      StashCounts(rs, all, k - 1);
      if Purgeable(rs, k - 1, all) {
        var used := rs[k - 1].(free := false);
        PagesPlus(Taken(rs, all, k - 1), used);
        Toggle(Stashed(rs, all, k - 1), k - 1, used);
      }
    }
  }

  /** The runs taken are runs of the chunk, in use, and in the order of their places; runs that were in use before
      are not among them. */
  lemma TakenAre(rs: seq<Run>, all: bool, k: nat, from: nat, to: nat)
    requires Tiles(rs, from, to) && k <= |rs|
    ensures Pending(Stashed(rs, all, k), Taken(rs, all, k))
    ensures forall i :: 0 <= i < |rs| && !rs[i].free ==> Stays(rs[i], Taken(rs, all, k))
  {
    hide Purgeable, Tiles, Stashed, Taken, Picked;
    var t, u, p := Taken(rs, all, k), Stashed(rs, all, k), Picked(rs, all, k);
    forall n | 0 <= n < |t| ensures t[n] in u && !t[n].free { assert u[p[n]] == t[n]; }
    forall a, b | 0 <= a < b < |t| ensures t[a].start < t[b].start { Apiece(rs, p[a], p[b], from, to); }
    forall i | 0 <= i < |rs| && !rs[i].free ensures Stays(rs[i], t) {
      forall n | 0 <= n < |t| ensures t[n].start != rs[i].start {
        PickedFree(rs, all, k, n);
        if p[n] < i { Apiece(rs, p[n], i, from, to); } else { Apiece(rs, i, p[n], from, to); }
      }
    }
  }

  lemma PickedFree(rs: seq<Run>, all: bool, k: nat, n: nat)
    requires k <= |rs| && n < |Picked(rs, all, k)|
    ensures rs[Picked(rs, all, k)[n]].free
  {
  }

  lemma Apiece(rs: seq<Run>, i: nat, j: nat, from: nat, to: nat)
    requires Tiles(rs, from, to) && i < j < |rs|
    ensures rs[i].start < rs[j].start
  {
    Ordered(rs, from, to, i, j);
  }

  /** Runs of the chunk that are in use and are still to be given back. */
  ghost predicate Pending(rs: seq<Run>, t: seq<Run>) {
    && (forall n :: 0 <= n < |t| ==> t[n] in rs && !t[n].free)
    && forall a, b :: 0 <= a < b < |t| ==> t[a].start < t[b].start
  }

  // ----- no dirty free run beside another free one -----

  /** In use, and not to be given back. */
  ghost predicate Stays(r: Run, t: seq<Run>) {
    !r.free && forall n :: 0 <= n < |t| ==> t[n].start != r.start
  }

  /** Beside a dirty free run there are only runs that stay in use. */
  ghost predicate Apart(rs: seq<Run>, t: seq<Run>) {
    forall i, j :: 0 <= i && j == i + 1 && j < |rs| ==>
      (rs[i].free && rs[i].dirty ==> Stays(rs[j], t)) && (rs[j].free && rs[j].dirty ==> Stays(rs[i], t))
  }

  lemma StashApart(rs: seq<Run>, all: bool, from: nat, to: nat)
    requires Tiles(rs, from, to) && Coalesced(rs)
    ensures Apart(Stashed(rs, all, |rs|), Taken(rs, all, |rs|))
  {
    hide Stays, Stashed, Taken, Picked, Tiles;
    var u, t := Stashed(rs, all, |rs|), Taken(rs, all, |rs|);
    TakenAre(rs, all, |rs|, from, to);
    forall i, j | 0 <= i && j == i + 1 && j < |u|
      ensures (u[i].free && u[i].dirty ==> Stays(u[j], t)) && (u[j].free && u[j].dirty ==> Stays(u[i], t))
    {
      if u[i].free && u[i].dirty { assert !Purgeable(rs, i, all) && !SuccFree(rs, i); }
      if u[j].free && u[j].dirty { assert !Purgeable(rs, j, all) && !PredFree(rs, j); }
    }
  }

  /** Where no two free runs of a kind and no dirty and free runs meet, no free runs meet. */
  lemma {:induction false} ApartNoPairs(rs: seq<Run>, t: seq<Run>)
    requires Apart(rs, t) && Coalesced(rs)
    ensures Adjac(rs) == 0
  {
    if |rs| >= 2 {
      var n := |rs| - 1;
      var p := rs[..n];
      assert Apart(p, t) by {
        forall i, j | 0 <= i && j == i + 1 && j < |p|
          ensures (p[i].free && p[i].dirty ==> Stays(p[j], t)) && (p[j].free && p[j].dirty ==> Stays(p[i], t))
        {
          assert p[i] == rs[i] && p[j] == rs[j];
        }
      }
      assert Coalesced(p);
      ApartNoPairs(p, t);
      assert !(rs[n - 1].free && rs[n].free);
    }
  }

  /** Joining clean runs keeps dirty ones apart. */
  lemma JoinApart(g: seq<Run>, i: nat, t: seq<Run>)
    requires Apart(g, t) && i + 1 < |g|
    ensures Apart(Join(g, i, false), t)
  {
    var u := Join(g, i, false);
    if u != g {
      forall k, l | 0 <= k && l == k + 1 && l < |u|
        ensures (u[k].free && u[k].dirty ==> Stays(u[l], t)) && (u[l].free && u[l].dirty ==> Stays(u[k], t))
      {
        if l < i { assert u[k] == g[k] && u[l] == g[l]; }
        else if l == i { assert u[k] == g[k] && g[l].free && !u[l].dirty && u[l].free; }
        else if k == i { assert u[l] == g[l + 1] && g[k + 1].free && !u[k].dirty && u[k].free; }
        else { assert u[k] == g[k + 1] && u[l] == g[l + 1]; }
      }
    }
  }

  /** Giving back clean the first of the runs that are pending. */
  lemma ReleaseApart(rs: seq<Run>, i: nat, t: seq<Run>)
    requires t != [] && Apart(rs, t) && i < |rs| && rs[i] == t[0] && !rs[i].free
    ensures Apart(Release(rs, i, false), t[1..])
  {
    var g, s := Given(rs, i, false), t[1..];
    forall r | Stays(r, t) ensures Stays(r, s) {
      forall n | 0 <= n < |s| ensures s[n].start != r.start { assert s[n] == t[n + 1]; }
    }
    forall k, l | 0 <= k && l == k + 1 && l < |g|
      ensures (g[k].free && g[k].dirty ==> Stays(g[l], s)) && (g[l].free && g[l].dirty ==> Stays(g[k], s))
    {
      if k == i { assert g[l] == rs[l]; assert !Stays(rs[i], t); }
      else if l == i { assert g[k] == rs[k]; assert !Stays(rs[i], t); }
      else { assert g[k] == rs[k] && g[l] == rs[l]; }
    }
    if i + 1 < |g| { JoinApart(g, i, s); }
    if i > 0 { JoinApart(JoinRight(g, i, false), i - 1, s); }
  }

  /** Other runs in use are not touched. */
  lemma ReleaseKeeps(rs: seq<Run>, i: nat, d: bool, r: Run)
    requires i < |rs| && r in rs && !r.free && r != rs[i]
    ensures r in Release(rs, i, d)
  {
    var g := Given(rs, i, d);
    assert r in g by {
      var k :| 0 <= k < |rs| && rs[k] == r;
      assert g[k] == r;
    }
    if i + 1 < |g| { JoinKeeps(g, i, d, r); }
    if i > 0 { JoinKeeps(JoinRight(g, i, d), i - 1, d, r); }
  }

  lemma JoinKeeps(g: seq<Run>, i: nat, d: bool, r: Run)
    requires i + 1 < |g| && r in g && !r.free
    ensures r in Join(g, i, d)
  {
    var u := Join(g, i, d);
    if u != g {
      var k :| 0 <= k < |g| && g[k] == r;
      assert u[if k < i then k else k - 1] == r;
    }
  }

  lemma ReleasePending(rs: seq<Run>, i: nat, t: seq<Run>)
    requires t != [] && Pending(rs, t) && i < |rs| && rs[i] == t[0]
    ensures Pending(Release(rs, i, false), t[1..])
  {
    var s := t[1..];
    forall n | 0 <= n < |s| ensures s[n] in Release(rs, i, false) {
      assert s[n] == t[n + 1];
      ReleaseKeeps(rs, i, false, s[n]);
    }
  }

  /** Giving a run back clean makes no page dirty. */
  lemma ReleaseDirty(rs: seq<Run>, i: nat)
    requires i < |rs| && !rs[i].free
    ensures Dirty(Release(rs, i, false)) == Dirty(rs)
  {
    hide Avail, Adjac, Dirty, Active, PredFree, SuccFree;
    var g := Given(rs, i, false);
    Toggle(rs, i, g[i]);
    if i + 1 < |g| { JoinActive(g, i, false); }
    if i > 0 { JoinActive(JoinRight(g, i, false), i - 1, false); }
  }

  // ----- how many pages are purged -----

  lemma {:induction false} NoDirty(rs: seq<Run>)
    requires forall i :: 0 <= i < |rs| ==> !(rs[i].free && rs[i].dirty)
    ensures Dirty(rs) == 0
  {
    if rs != [] { NoDirty(rs[..|rs| - 1]); }
  }

  lemma {:induction false} NothingTaken(rs: seq<Run>, all: bool, k: nat)
    requires k <= |rs| && Taken(rs, all, k) == []
    ensures Stashed(rs, all, k) == rs
  {
    if k > 0 { NothingTaken(rs, all, k - 1); }
  }

  /** All dirty pages are purged, or some that are fragments: there is progress in either case. */
  lemma PurgedPages(rs: seq<Run>, all: bool, from: nat, to: nat)
    requires Tiles(rs, from, to) && Coalesced(rs)
    ensures all ==> Pages(Taken(rs, all, |rs|)) == Dirty(rs)
    ensures Adjac(rs) > 0 ==> Pages(Taken(rs, all, |rs|)) > 0
  {
    var u, t := Stashed(rs, all, |rs|), Taken(rs, all, |rs|);
    StashCounts(rs, all, |rs|);
    if all { NoDirty(u); }
    if Adjac(rs) > 0 {
      StashApart(rs, all, from, to);
      StashTiles(rs, all, |rs|);
      ApartNoPairs(u, t);
      if t == [] { NothingTaken(rs, all, |rs|); }
      TakenAre(rs, all, |rs|, from, to);
      assert t[0] in u;
    }
  }

  lemma StashTiles(rs: seq<Run>, all: bool, k: nat)
    requires k <= |rs| && Coalesced(rs)
    ensures Coalesced(Stashed(rs, all, k))
    ensures forall i :: 0 <= i < |rs| ==> Stashed(rs, all, k)[i].len == rs[i].len
  {
  }

  /** The pages of the first n runs and of one more. */
  lemma {:induction false} PagesTo(t: seq<Run>, n: nat)
    requires n < |t|
    ensures Pages(t[..n + 1]) == Pages(t[..n]) + t[n].len
  {
    assert t[..n + 1] == t[..n] + [t[n]];
    PagesPlus(t[..n], t[n]);
  }

  // ----- as the map tells -----

  lemma StashStart(m: seq<Tag>, rs: seq<Run>, all: bool, c: Counters, active: int, from: nat, others: int)
    requires Kept(m, rs, c, active, false, from, others)
    ensures Coalesced(rs) && Tiles(rs, from, |m|) && rs == Stashed(rs, all, 0) && Starts(Taken(rs, all, 0)) == [] && rs != []
    ensures rs[0].start == from < |m|
  {
    Within(rs, from, |m|, 0);
  }

  /** What is seen when run k is looked at, and what is to become of it. */
  lemma StashSees(m: seq<Tag>, rs: seq<Run>, all: bool, k: nat, from: nat)
    requires Coalesced(rs) && Tiles(rs, from, |m|) && k < |rs| && Mapped(m, Stashed(rs, all, k), from)
    ensures
      var r, u := rs[k], Stashed(rs, all, k);
      && from <= r.start && 0 < r.len && End(r) <= |m| && u[k] == r
      && m[r.start] == Tag(!r.free, r.len, r.dirty) && m[End(r) - 1].dirty == r.dirty
      && Purgeable(rs, k, all) == (r.free && r.dirty && (all || AdjacPred(m, from, r.start) || AdjacSucc(m, r.start, r.len)))
      && Stashed(rs, all, k + 1) == (if Purgeable(rs, k, all) then Split(u, k, r.len) else u)
      && Starts(Taken(rs, all, k + 1)) == Starts(Taken(rs, all, k)) + (if Purgeable(rs, k, all) then [r.start] else [])
      && (if k + 1 < |rs| then End(r) == rs[k + 1].start < |m| else End(r) == |m|)
  {
    hide Mapped, Tiles, Split, Picked;
    var u := Stashed(rs, all, k);
    Within(rs, from, |m|, k);
    if k + 1 < |rs| {
      Beside(rs, from, |m|, k);
      Within(rs, from, |m|, k + 1);
    }
    Neighbours(m, u, k, from);
    StashStep(rs, all, k);
    if rs[k].free && rs[k].dirty { SeenUndisturbed(rs, all, k); }
  }

  /** When all runs have been looked at, no free runs are left side by side. */
  lemma StashDone(m: seq<Tag>, rs: seq<Run>, all: bool, c: Counters, active: int, from: nat, others: int)
    requires Coalesced(rs) && Tiles(rs, from, |m|)
    requires Kept(m, Stashed(rs, all, |rs|), c, active, false, from, others)
    ensures c.nrunsAdjac == 0 && (all ==> c.ndirty == 0) && c.ndirty == Dirty(rs) - Pages(Taken(rs, all, |rs|))
    ensures active == Active(rs) + Pages(Taken(rs, all, |rs|))
  {
    hide Mapped, Tiles, Taken, Picked, Apart, Coalesced, Adjac, Dirty, Active;
    var u, t := Stashed(rs, all, |rs|), Taken(rs, all, |rs|);
    StashApart(rs, all, from, |m|);
    ApartNoPairs(u, t);
    StashCounts(rs, all, |rs|);
    PurgedPages(rs, all, from, |m|);
  }

  lemma ReleaseClean(rs: seq<Run>, i: nat)
    requires i < |rs|
    ensures |Release(rs, i, false)| == 1 ==> !Release(rs, i, false)[0].dirty
  {
    var g := Given(rs, i, false);
    var u := JoinRight(g, i, false);
    assert !u[i].dirty;
  }

  /** The first of the runs that are pending is given back clean. */
  lemma UnstashStep(rs: seq<Run>, t: seq<Run>) returns (i: nat)
    requires Pending(rs, t) && Apart(rs, t) && t != []
    ensures i < |rs| && rs[i] == t[0] && !rs[i].free
    ensures
      var u := Release(rs, i, false);
      && Pending(u, t[1..]) && Apart(u, t[1..]) && Dirty(u) == Dirty(rs) && Active(u) == Active(rs) - t[0].len
      && Pages(t) == t[0].len + Pages(t[1..]) && (|u| == 1 ==> !u[0].dirty && (u[0].free ==> t[1..] == []))
  {
    hide Release, Apart, Dirty, Active;
    assert t[0] in rs;
    i :| 0 <= i < |rs| && rs[i] == t[0];
    ReleasePending(rs, i, t);
    ReleaseApart(rs, i, t);
    ReleaseDirty(rs, i);
    ReleaseActive(rs, i, false);
    var u := Release(rs, i, false);
    ReleaseClean(rs, i);
    assert t[1..] != [] ==> t[1..][0] in u && !t[1..][0].free;
  }

  lemma UnstashDone(m: seq<Tag>, rs: seq<Run>, t: seq<Run>, c: Counters, active: int, spare: bool, from: nat, others: int)
    requires Kept(m, rs, c, active, spare, from, others) && Apart(rs, t)
    ensures c.nrunsAdjac == 0 && active == Active(rs)
  {
    ApartNoPairs(rs, t);
  }

  lemma PurgeStart(m: seq<Tag>, rs: seq<Run>, all: bool, c: Counters, active: int, from: nat, others: int)
    requires Kept(m, rs, c, active, false, from, others) && c.ndirty > 0 && (c.nrunsAdjac == 0 ==> all)
    ensures
      var u, t := Stashed(rs, all, |rs|), Taken(rs, all, |rs|);
      && Pending(u, t) && Apart(u, t) && Pages(t) > 0 && (all ==> Pages(t) == c.ndirty)
      && Dirty(u) == c.ndirty - Pages(t) && Active(u) == active + Pages(t)
  {
    hide Mapped, Taken, Picked, Coalesced, Stashed, Pending, Apart, Avail, Active, Adjac, Dirty, Tiles;
    MappedTiles(m, rs, from);
    TakenAre(rs, all, |rs|, from, |m|);
    StashApart(rs, all, from, |m|);
    PurgedPages(rs, all, from, |m|);
    StashCounts(rs, all, |rs|);
  }

  lemma PurgeDone(m: seq<Tag>, rs: seq<Run>, c: Counters, active: int, spare: bool, from: nat, others: int)
    requires Kept(m, rs, c, active, spare, from, others) && (spare ==> !rs[0].dirty)
    ensures c.ndirty == Dirty(rs)
  {
    if spare {
      assert rs[..0] == [] && Held(rs, 0)[..0] == [];
    }
  }
}
