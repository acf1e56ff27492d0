/** Recycling of address space in chunk.c: extents are taken out and put back, and both trees hold the same ones. */
module Chunks {
  import opened Wrappers
  import opened Division
  import opened Extents

  const WORD: nat := 0x1_0000_0000_0000_0000

  class Recycler {
    const chunkSize: nat
    /** The tree ordered by size and the one ordered by address. */
    var szad: set<Extent>
    var ad: set<Extent>

    ghost predicate Valid()
      reads this
    {
      szad == ad && Sound(ad, chunkSize) && forall e :: e in ad ==> End(e) <= WORD
    }

    constructor (chunkSize: nat)
      requires chunkSize > 0
      ensures Valid() && ad == {} && this.chunkSize == chunkSize
    {
      this.chunkSize := chunkSize;
      szad, ad := {}, {};
    }

    /** extent_tree_szad_nsearch. */
    method SearchSize(size: nat) returns (r: Option<Extent>)
      ensures r.Some? ==> BestFit(szad, size, r.value)
      ensures r.None? ==> forall e :: e in szad ==> e.size < size
    {
      if e :| e in szad && BestFit(szad, size, e) { return Some(e); }
      r := None;
      if e :| e in szad && e.size >= size { BestFitExists(szad, size, e); }
    }

    /** extent_tree_ad_nsearch. */
    method SearchAddr(addr: nat) returns (r: Option<Extent>)
      ensures r.Some? ==> FirstFrom(ad, addr, r.value)
      ensures r.None? ==> forall e :: e in ad ==> e.addr < addr
    {
      if e :| e in ad && FirstFrom(ad, addr, e) { return Some(e); }
      r := None;
      if e :| e in ad && e.addr >= addr { FirstFromExists(ad, addr, e); }
    }

    /** extent_tree_ad_prev. */
    method Prev(addr: nat) returns (r: Option<Extent>)
      ensures r.Some? ==> LastBefore(ad, addr, r.value)
      ensures r.None? ==> forall e :: e in ad ==> e.addr >= addr
    {
      if e :| e in ad && LastBefore(ad, addr, e) { return Some(e); }
      r := None;
      if e :| e in ad && e.addr < addr { LastBeforeExists(ad, addr, e); }
    }

    /** Take a range of some size and alignment out of the first extent that is surely large enough (chunk_recycle).  Two
        pieces may be left over and need a node more: if there is none the range goes back, to the system or to the
        extents, and the piece behind it is lost. */
    method Recycle(size: nat, alignment: nat, base: bool, zero: bool, node: bool, unmaps: bool, unzeroed: bool, node2: bool)
      returns (ret: Option<nat>, zeroed: bool, ghost e: Extent)
      requires Valid() && 0 < size < WORD && Mod(size, chunkSize) == 0
      requires 0 < alignment < WORD && Mod(alignment, chunkSize) == 0
      modifies this
      ensures Valid()
      ensures
        if base || size + alignment - chunkSize >= WORD || forall f :: f in old(ad) ==> f.size < size + alignment - chunkSize then
          ret.None? && ad == old(ad) && zeroed == zero
        else
          zeroed == (zero || e.zeroed) && chunkSize <= alignment
          && Recycled(old(ad), ad, chunkSize, size, alignment, e, ret, node, unmaps, unzeroed, node2)
    {
      hide Sound, Mod, TakenOut, BestFit, AlignUp, Recorded;
      ret, zeroed, e := None, zero, Extent(0, 0, false);
      if base { return; }
      Large(alignment, chunkSize);
      var sum := size + alignment - chunkSize;
      var allocSize := if sum >= WORD then sum - WORD else sum;
      if allocSize < size { return; }
      var found := SearchSize(allocSize);
      FitOrNot(szad, allocSize, found);
      if found.None? { return; }
      var x := found.value;
      e := x;
      zeroed := zero || x.zeroed;
      ret := TakeFrom(x, size, alignment, node, unmaps, unzeroed, node2);
    }

    /** Take the range out of extent x. */
    method TakeFrom(x: Extent, size: nat, alignment: nat, node: bool, unmaps: bool, unzeroed: bool, node2: bool) returns (ret: Option<nat>)
      requires Valid() && 0 < size < WORD && Mod(size, chunkSize) == 0
      requires 0 < alignment < WORD && Mod(alignment, chunkSize) == 0 && chunkSize <= alignment
      requires BestFit(ad, size + alignment - chunkSize, x)
      modifies this
      ensures Valid() && Recycled(old(ad), ad, chunkSize, size, alignment, x, ret, node, unmaps, unzeroed, node2)
    {
      hide Sound, Mod, TakenOut, BestFit, AlignUp, Recorded, Covered, Piece, Dropped;
      IsFit(ad, size + alignment - chunkSize, x);
      Member(ad, chunkSize, x);
      Shorter(ad, chunkSize, x);
      LeadBound(x.addr, alignment, chunkSize);
      var a := AlignUp(x.addr, alignment);
      var lead, trail := a - x.addr, x.size - (a - x.addr) - size;
      ModSum(a, size, chunkSize);
      ModSum(x.addr, x.size, chunkSize);
      ghost var s0 := ad;
      ghost var before, behind := Piece(x.addr, lead, x.zeroed), Piece(a + size, trail, x.zeroed);
      PieceFull(x.addr, lead, x.zeroed);
      PieceFull(a + size, trail, x.zeroed);
      PieceFull(End(x), 0, x.zeroed);
      szad := szad - {x};
      ad := ad - {x};
      var left := true;
      if lead != 0 {
        szad := szad + {Extent(x.addr, lead, x.zeroed)};
        ad := ad + {Extent(x.addr, lead, x.zeroed)};
        left := false;
      }
      if trail != 0 {
        if !left && !node {
          Carved(s0, ad, x, a, End(x));
          CarvedSound(s0, ad, chunkSize, x, a, End(x));
          GivenBack(s0, ad, a, End(x), size);
          DroppedIs(s0, ad, chunkSize, a, End(x), size, unmaps, unzeroed, node2);
          if !unmaps { Record(a, size, unzeroed, node2); }
          return None;
        }
        szad := szad + {Extent(a + size, trail, x.zeroed)};
        ad := ad + {Extent(a + size, trail, x.zeroed)};
      }
      Carved(s0, ad, x, a, a + size);
      CarvedSound(s0, ad, chunkSize, x, a, a + size);
      ret := Some(a);
    }

    /** Put a range back (chunk_record).  node tells whether a node can be allocated, unzeroed whether the pages may
        hold anything.  Without a node the range is lost, unless an extent begins right behind it. */
    method Record(chunk: nat, size: nat, unzeroed: bool, node: bool)
      requires Valid() && size > 0 && Mod(chunk, chunkSize) == 0 && Mod(size, chunkSize) == 0 && chunk + size <= WORD
      requires forall x :: chunk <= x < chunk + size ==> !Covered(ad, x)
      modifies this
      ensures Valid()
      ensures
        var lost := !node && forall e :: e in old(ad) ==> e.addr != chunk + size;
        if lost then ad == old(ad) else Recorded(old(ad), ad, chunk, size, unzeroed)
    {
      hide Sound, Mod, Recorded, Covered, LastBefore, FirstFrom, Touching;
      Outside(ad, chunkSize, chunk, size);
      ghost var s0 := ad;
      var next := SearchAddr(chunk + size);
      var joinNext := next.Some? && next.value.addr == chunk + size;
      if !joinNext && !node { return; }
      var n := CoalesceForward(chunk, size, unzeroed, next);
      var prev := Prev(n.addr);
      PrevOf(s0, ad, chunk, n, next, joinNext, prev);
      if prev.Some? { Member(s0, chunkSize, prev.value); }
      ghost var out, from, to := Joins(s0, chunkSize, chunk, size, next, prev);
      JoinsTouching(s0, chunkSize, chunk, size, next, prev);
      ghost var n0, s1 := n, ad;
      n := CoalesceBackward(chunk, n, prev);
      Exchanged(s0, s1, ad, n0, n, next, joinNext, prev, prev.Some? && End(prev.value) == chunk);
      StillSound(s0, chunkSize, out, n);
      Replaced(s0, ad, out, n, chunk, size, unzeroed);
    }

    /** The extent right behind the range takes it in, or a new extent is made for it. */
    method CoalesceForward(chunk: nat, size: nat, unzeroed: bool, next: Option<Extent>) returns (n: Extent)
      requires szad == ad && Sound(ad, chunkSize) && size > 0 && Mod(size, chunkSize) == 0
      requires next.Some? ==> next.value in ad
      modifies this
      ensures szad == ad && n.addr == chunk && Mod(n.size, chunkSize) == 0
      ensures
        if next.Some? && next.value.addr == chunk + size then
          ad == old(ad) - {next.value} + {n} && End(n) == End(next.value) && n.zeroed == (next.value.zeroed && !unzeroed)
        else ad == old(ad) + {n} && End(n) == chunk + size && n.zeroed == !unzeroed
    {
      hide Sound, Mod;
      n := Extent(chunk, size, !unzeroed);
      if next.Some? && next.value.addr == chunk + size {
        Member(ad, chunkSize, next.value);
        ModSum(next.value.size, size, chunkSize);
        szad := szad - {next.value};
        n := Extent(chunk, next.value.size + size, next.value.zeroed && !unzeroed);
        szad := szad + {n};
        ad := ad - {next.value} + {n};
      } else {
        ad := ad + {n};
        szad := szad + {n};
      }
    }

    /** The extent that ends where the range begins is taken in. */
    method CoalesceBackward(chunk: nat, n: Extent, prev: Option<Extent>) returns (m: Extent)
      requires szad == ad && n in ad && n.addr == chunk && chunkSize > 0 && Mod(n.size, chunkSize) == 0
      requires prev.Some? ==> prev.value in ad && prev.value != n && Mod(prev.value.size, chunkSize) == 0
      modifies this
      ensures szad == ad && Mod(m.size, chunkSize) == 0 && End(m) == End(n)
      ensures
        if prev.Some? && End(prev.value) == chunk then
          ad == old(ad) - {n} - {prev.value} + {m} && m.addr == prev.value.addr && m.zeroed == (n.zeroed && prev.value.zeroed)
        else ad == old(ad) && m == n
    {
      hide Mod;
      m := n;
      if prev.Some? && End(prev.value) == chunk {
        ModSum(n.size, prev.value.size, chunkSize);
        szad := szad - {prev.value};
        ad := ad - {prev.value};
        szad := szad - {n};
        m := Extent(prev.value.addr, n.size + prev.value.size, n.zeroed && prev.value.zeroed);
        szad := szad + {m};
        ad := ad - {n} + {m};
      }
    }
  }

  /** The extent before the range is the same with the range in place. */
  lemma PrevOf(s0: set<Extent>, s1: set<Extent>, chunk: nat, n: Extent, next: Option<Extent>, joinNext: bool, prev: Option<Extent>)
    requires n.addr == chunk && (joinNext ==> next.Some? && next.value.addr >= chunk)
    requires s1 == (if joinNext then s0 - {next.value} else s0) + {n}
    requires if prev.Some? then LastBefore(s1, chunk, prev.value) else forall e :: e in s1 ==> e.addr >= chunk
    ensures if prev.Some? then LastBefore(s0, chunk, prev.value) && prev.value in s0 && prev.value in s1 && prev.value != n
            else forall e :: e in s0 ==> e.addr >= chunk
  {
  }

  /** What the two steps have exchanged for the last extent. */
  lemma Exchanged(s0: set<Extent>, s1: set<Extent>, s2: set<Extent>, n: Extent, m: Extent, next: Option<Extent>, joinNext: bool,
                  prev: Option<Extent>, joinPrev: bool)
    requires (joinNext ==> next.Some?) && (joinPrev ==> prev.Some? && prev.value in s0 && prev.value != n) && n !in s0
    requires s1 == (if joinNext then s0 - {next.value} else s0) + {n}
    requires if joinPrev then s2 == s1 - {n} - {prev.value} + {m} else s2 == s1 && m == n
    ensures s2 == s0 - ((if joinNext then {next.value} else {}) + (if joinPrev then {prev.value} else {})) + {m}
  {
  }

  lemma Large(alignment: nat, d: nat)
    requires d > 0 && alignment > 0 && Mod(alignment, d) == 0
    ensures alignment >= d
  {
    LeadBound(0, alignment, d);
  }

  lemma FitOrNot(s: set<Extent>, size: nat, r: Option<Extent>)
    requires r.Some? ==> BestFit(s, size, r.value)
    requires r.None? ==> forall e :: e in s ==> e.size < size
    ensures r.Some? ==> r.value in s && r.value.size >= size
    ensures r.None? <==> forall e :: e in s ==> e.size < size
  {
  }

  lemma IsFit(s: set<Extent>, size: nat, e: Extent)
    requires BestFit(s, size, e)
    ensures e in s && e.size >= size
  {
  }

  /** What was taken out is not covered. */
  lemma GivenBack(s0: set<Extent>, s: set<Extent>, from: nat, to: nat, size: nat)
    requires TakenOut(s0, s, from, to) && from + size <= to
    ensures forall x :: from <= x < from + size ==> !Covered(s, x)
  {
  }

  lemma PieceFull(addr: nat, size: nat, zeroed: bool)
    ensures Piece(addr, size, zeroed) == if size > 0 then {Extent(addr, size, zeroed)} else {}
  {
  }

  lemma DroppedIs(s0: set<Extent>, t: set<Extent>, chunkSize: nat, from: nat, to: nat, size: nat, unmaps: bool, unzeroed: bool, node2: bool)
    requires TakenOut(s0, t, from, to) && Sound(t, chunkSize) && from + size < to
    ensures forall e :: e in t ==> e.addr != from + size
    ensures unmaps || !node2 ==> Dropped(s0, t, from, to, size, unmaps, unzeroed, node2)
    ensures
      !unmaps && node2 ==>
        forall s :: Recorded(t, s, from, size, unzeroed) ==> Dropped(s0, s, from, to, size, unmaps, unzeroed, node2)
  {
    hide Recorded;
    forall e | e in t ensures e.addr != from + size {
      assert Covered(t, e.addr);
    }
  }
}
