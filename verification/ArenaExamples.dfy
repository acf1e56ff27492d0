/** Two runs of an arena that show what the contracts say can happen: purging that goes too far, and growing in place that is
    refused although there is room. */
module ArenaExamples {
  import opened Wrappers
  import opened ArenaRuns
  import opened ArenaMap
  import opened ArenaPurge
  import opened ArenaOrder
  import opened ArenaChunk
  import opened ArenaPool

  const PAGES: nat := 1000

  /** 80 pages in use, 12 given back dirty, the others never used. */
  function Fragmented(): seq<Run> { [Run(1, 80, false, false), Run(81, 12, true, true), Run(93, 907, true, false)] }

  /** An arena that has come to have these runs. */
  method Fragment() returns (a: Arena, c: Chunk)
    ensures a.Valid() && fresh(a) && fresh(c) && fresh(c.pages) && a.chunks == [c] && c.runs == Fragmented() && !c.spare && a.mult == 8
  {
    hide Split, Release, Sum, Dirties, Actives, Separate, Kept;
    a := new Arena(1, PAGES, 8);
    var ok, k, page;
    ghost var i;
    ok, k, i, page := a.AllocLarge(80, true, 0);
    c := a.chunks[0];
    FirstSplit();
    assert a.chunks == [c] && c.runs == [Run(1, 80, false, false), Run(81, 919, true, false)];
    Twelve(a, c);
    ok, k, i, page := a.AllocLarge(12, false, 0);
    SecondSplit();
    a.Dealloc(c, 0, 1, 81, true, false);
    ThenReleased();
  }

  lemma Twelve(a: Arena, c: Chunk)
    requires a.chunks == [c] && !c.spare && c.runs == [Run(1, 80, false, false), Run(81, 919, true, false)]
    ensures a.AnyFits(12) && forall k: nat, i: nat :: a.Best(k, i, 12, 1) ==> k == 0 && i == 1
  {
    assert a.Fits(0, 1, 12);
  }

  /** One eighth of the pages in use may be dirty, which is 10: so 2 are to be purged.  The 12 dirty pages are a fragment, they
      all go at once, and what is left to purge wraps around. */
  method PurgeWraps() returns (a: Arena, ghost over: bool)
    ensures a.Valid() && over && a.ndirty == 0 && a.nactive == 80
  {
    hide Sum, Dirties, Actives, Separate, Kept, Allowed;
    var c;
    a, c := Fragment();
    Overshooting(a, c);
    over := a.Purge(false);
  }

  lemma FirstSplit()
    ensures Split([Run(1, 999, true, false)], 0, 80) == [Run(1, 80, false, false), Run(81, 919, true, false)]
  {
  }

  lemma SecondSplit()
    ensures Split([Run(1, 80, false, false), Run(81, 919, true, false)], 1, 12)
         == [Run(1, 80, false, false), Run(81, 12, false, false), Run(93, 907, true, false)]
  {
  }

  lemma ThenReleased()
    ensures Release([Run(1, 80, false, false), Run(81, 12, false, false), Run(93, 907, true, false)], 1, true) == Fragmented()
  {
  }

  /** What is counted of these runs, and what is taken of them to be purged. */
  lemma FragmentCounts()
    ensures Dirty(Fragmented()) == 12 && Active(Fragmented()) == 80 && Adjac(Fragmented()) == 1
    ensures Pages(Taken(Fragmented(), false, 3)) == 12
  {
    var rs := Fragmented();
    var r0, r1, r2 := rs[0], rs[1], rs[2];
    assert rs[..2] == [r0, r1] && [r0, r1][..1] == [r0] && [r0][..0] == [];
    assert Dirty([r0]) == 0 && Dirty([r0, r1]) == 12 && Active([r0]) == 80 && Active([r0, r1]) == 80;
    assert Adjac([r0, r1]) == 0;
    assert Taken(rs, false, 1) == [] && Taken(rs, false, 2) == [r1.(free := false)] && Taken(rs, false, 3) == Taken(rs, false, 2);
  }

  lemma Overshooting(a: Arena, c: Chunk)
    requires a.Valid() && a.chunks == [c] && c.runs == Fragmented() && !c.spare && a.mult == 8
    ensures a.ndirty == 12 && a.nactive == 80 && a.ToPurge(false) == 2 && a.FirstOvershoots(false, 2)
    ensures Allowed(a.nactive, a.mult) == 10
  {
    hide Kept, Sum, Dirties, Actives, Separate, Taken, Pages;
    FragmentCounts();
    assert a.Good(a.chunks[0]);
    a.InOrder(c, 0);
    KeptParts(c.pages[..], c.runs, c.Now(), c.nactive - c.othersActive, c.spare, c.mapBias, c.othersDirty);
    OnlyOne(Dirties(a.chunks), 12);
    OnlyOne(Actives(a.chunks), 80);
    assert a.IsFirst(0, 1);
    assert a.Overshoots(a.chunks[0], false, 2);
  }

  lemma OnlyOne(s: seq<int>, x: int)
    requires |s| == 1 && s[0] == x
    ensures Sum(s) == x
  {
    assert s[..0] == [];
  }

  /** A run of 10 pages with 989 free pages behind it is asked to take 5 to 25: it is not grown. */
  method GrowingRefused() returns (c: Chunk, failed: bool)
    ensures c.Valid() && failed && c.runs == [Run(1, 10, false, false), Run(11, 989, true, false)]
  {
    hide Kept, Split, Grown;
    c := new Chunk(1, PAGES, 0, 0);
    TenPages();
    c.SplitLarge(0, 1, 10);
    failed := c.RallocGrow(0, 1, 10, 5, 20);
  }

  lemma TenPages()
    ensures Split([Run(1, 999, true, false)], 0, 10) == [Run(1, 10, false, false), Run(11, 989, true, false)]
  {
  }
}
