/** The extents of address space that chunk.c keeps for recycling: one tree orders them by size, the other by
    address. */
module Extents {
  import opened Wrappers
  import opened Division

  datatype Extent = Extent(addr: nat, size: nat, zeroed: bool)

  function End(e: Extent): nat { e.addr + e.size }

  /** An address is in some extent. */
  ghost predicate Covered(s: set<Extent>, x: int) {
    exists e :: e in s && e.addr <= x < End(e)
  }

  /** An address is in an extent known to be zeroed. */
  ghost predicate Zeroed(s: set<Extent>, x: int) {
    exists e :: e in s && e.addr <= x < End(e) && e.zeroed
  }

  /** Extents are whole chunks, do not overlap, and are never side by side. */
  ghost predicate Sound(s: set<Extent>, chunkSize: nat) {
    && chunkSize > 0
    && (forall e :: e in s ==> e.size > 0 && Mod(e.addr, chunkSize) == 0 && Mod(e.size, chunkSize) == 0)
    && forall e, f :: e in s && f in s && e != f ==> End(e) < f.addr || End(f) < e.addr
  }

  // ----- the orders of the trees -----

  /** extent_szad_comp. */
  predicate SizeOrder(e: Extent, f: Extent) {
    e.size < f.size || (e.size == f.size && e.addr <= f.addr)
  }

  /** The first extent of at least some size. */
  predicate BestFit(s: set<Extent>, size: nat, e: Extent) {
    e in s && e.size >= size && forall f :: f in s && f.size >= size ==> SizeOrder(e, f)
  }

  /** The first extent at or behind an address. */
  predicate FirstFrom(s: set<Extent>, addr: nat, e: Extent) {
    e in s && e.addr >= addr && forall f :: f in s && f.addr >= addr ==> e.addr <= f.addr
  }

  /** The last extent before an address. */
  predicate LastBefore(s: set<Extent>, addr: nat, e: Extent) {
    e in s && e.addr < addr && forall f :: f in s && f.addr < addr ==> f.addr <= e.addr
  }

  lemma {:induction false} BestFitExists(s: set<Extent>, size: nat, z: Extent)
    requires z in s && z.size >= size
    ensures exists e :: BestFit(s, size, e)
    decreases |s|
  {
    if y :| y in s && y.size >= size && !SizeOrder(z, y) {
      var t := set x | x in s && (x.size >= size ==> !SizeOrder(z, x));
      assert z in s && z !in t;
      Fewer(t, s);
      BestFitExists(t, size, y);
      var b :| BestFit(t, size, b);
      assert BestFit(s, size, b);
    } else {
      assert BestFit(s, size, z);
    }
  }

  lemma {:induction false} FirstFromExists(s: set<Extent>, addr: nat, z: Extent)
    requires z in s && z.addr >= addr
    ensures exists e :: FirstFrom(s, addr, e)
    decreases z.addr
  {
    if y :| y in s && y.addr >= addr && y.addr < z.addr {
      FirstFromExists(s, addr, y);
    } else {
      assert FirstFrom(s, addr, z);
    }
  }

  lemma {:induction false} LastBeforeExists(s: set<Extent>, addr: nat, z: Extent)
    requires z in s && z.addr < addr
    ensures exists e :: LastBefore(s, addr, e)
    decreases addr - z.addr
  {
    if y :| y in s && y.addr < addr && y.addr > z.addr {
      LastBeforeExists(s, addr, y);
    } else {
      assert LastBefore(s, addr, z);
    }
  }

  // ----- alignment -----

  /** The smallest multiple of the alignment that is not below the address. */
  function AlignUp(addr: nat, alignment: nat): (a: nat)
    requires alignment > 0
    ensures addr <= a < addr + alignment && Mod(a, alignment) == 0
  {
    var r := Mod(addr, alignment);
    var a := if r == 0 then addr else addr - r + alignment;
    AlignedUp(addr, alignment);
    a
  }

  lemma AlignedUp(addr: nat, alignment: nat)
    requires alignment > 0
    ensures
      var r := Mod(addr, alignment);
      var a := if r == 0 then addr else addr - r + alignment;
      addr <= a < addr + alignment && Mod(a, alignment) == 0
  {
    hide Div, Mod;
    var q, r := Div(addr, alignment), Mod(addr, alignment);
    assert (q + 1) * alignment == q * alignment + alignment;
    if r > 0 { DivUnique(addr - r + alignment, alignment, q + 1, 0); }
  }

  // ----- putting a range back -----

  /** A range that no extent covers lies beside all of them. */
  lemma Outside(s: set<Extent>, chunkSize: nat, chunk: nat, size: nat)
    requires Sound(s, chunkSize) && size > 0 && forall x :: chunk <= x < chunk + size ==> !Covered(s, x)
    ensures forall e :: e in s ==> End(e) <= chunk || chunk + size <= e.addr
    ensures forall e :: e in s ==> e.addr != chunk
  {
    forall e | e in s ensures End(e) <= chunk || chunk + size <= e.addr {
      var x := if e.addr >= chunk then e.addr else chunk;
      if x < chunk + size && x < End(e) { assert Covered(s, x); }
    }
  }

  /** The extents, and the new range apart from them but perhaps for a side where one ends. */
  ghost predicate Recorded(s0: set<Extent>, s: set<Extent>, chunk: nat, size: nat, unzeroed: bool) {
    && (forall x {:trigger Covered(s, x)} :: Covered(s, x) <==> Covered(s0, x) || chunk <= x < chunk + size)
    && (forall x {:trigger Zeroed(s, x)} :: Zeroed(s, x) ==> Zeroed(s0, x) || (chunk <= x < chunk + size && !unzeroed))
    && exists n :: InPlaceOf(s0, s, Touching(s0, chunk, size), n, unzeroed)
  }

  /** The extents that end where the range begins, or begin where it ends. */
  function Touching(s: set<Extent>, chunk: nat, size: nat): set<Extent> {
    set e | e in s && (End(e) == chunk || e.addr == chunk + size)
  }

  /** One extent takes the place of others; it is zeroed exactly if they and what is new all are. */
  ghost predicate InPlaceOf(s0: set<Extent>, s: set<Extent>, out: set<Extent>, n: Extent, unzeroed: bool) {
    s == s0 - out + {n} && (n.zeroed <==> !unzeroed && forall e :: e in out ==> e.zeroed)
  }

  /** One extent takes the place of others that cover, with a new range, the same addresses. */
  lemma Replaced(s0: set<Extent>, s: set<Extent>, out: set<Extent>, n: Extent, chunk: nat, size: nat, unzeroed: bool)
    requires out <= s0 && s == s0 - out + {n}
    requires forall x :: n.addr <= x < End(n) <==> Covered(out, x) || chunk <= x < chunk + size
    requires n.zeroed <==> !unzeroed && forall e :: e in out ==> e.zeroed
    requires out == Touching(s0, chunk, size)
    ensures Recorded(s0, s, chunk, size, unzeroed)
  {
    assert InPlaceOf(s0, s, Touching(s0, chunk, size), n, unzeroed);
    forall x ensures Covered(s, x) <==> Covered(s0, x) || chunk <= x < chunk + size {
      var replaced := Covered(out, x);
      if Covered(s, x) {
        var e :| e in s && e.addr <= x < End(e);
        if e != n { assert e in s0; }
        else if replaced {
          var f :| f in out && f.addr <= x < End(f);
          assert f in s0;
        }
      }
      if Covered(s0, x) {
        var e :| e in s0 && e.addr <= x < End(e);
        if e in out { assert Covered(out, x); assert n in s; } else { assert e in s; }
      }
      if chunk <= x < chunk + size { assert n in s; }
    }
    forall x | Zeroed(s, x) ensures Zeroed(s0, x) || (chunk <= x < chunk + size && !unzeroed) {
      var e :| e in s && e.addr <= x < End(e) && e.zeroed;
      if e in s0 { assert Zeroed(s0, x); }
      else {
        assert n.addr <= x < End(n);
        var replaced := Covered(out, x);
        if !(chunk <= x < chunk + size) {
          var f :| f in out && f.addr <= x < End(f);
          assert f in s0;
        }
      }
    }
  }

  /** Between which extents a range lies: joined with those that it touches, it is apart from all others. */
  lemma Joins(s: set<Extent>, chunkSize: nat, chunk: nat, size: nat, next: Option<Extent>, prev: Option<Extent>)
    returns (out: set<Extent>, from: nat, to: nat)
    requires Sound(s, chunkSize) && size > 0 && forall e :: e in s ==> End(e) <= chunk || chunk + size <= e.addr
    requires if next.Some? then FirstFrom(s, chunk + size, next.value) else forall e :: e in s ==> e.addr < chunk + size
    requires if prev.Some? then LastBefore(s, chunk, prev.value) else forall e :: e in s ==> e.addr >= chunk
    ensures
      var joinNext, joinPrev := next.Some? && next.value.addr == chunk + size, prev.Some? && End(prev.value) == chunk;
      && out == (if joinNext then {next.value} else {}) + (if joinPrev then {prev.value} else {})
      && from == (if joinPrev then prev.value.addr else chunk) && to == (if joinNext then End(next.value) else chunk + size)
    ensures out <= s && from < to && forall e :: e in s && e !in out ==> End(e) < from || to < e.addr
    ensures forall x :: from <= x < to <==> Covered(out, x) || chunk <= x < chunk + size
  {
    var joinNext, joinPrev := next.Some? && next.value.addr == chunk + size, prev.Some? && End(prev.value) == chunk;
    out := (if joinNext then {next.value} else {}) + (if joinPrev then {prev.value} else {});
    from := if joinPrev then prev.value.addr else chunk;
    to := if joinNext then End(next.value) else chunk + size;
    forall e | e in s && e !in out ensures End(e) < from || to < e.addr {
      if e.addr >= chunk + size { assert next.value.addr <= e.addr; } else { assert e.addr <= prev.value.addr; }
    }
    forall x ensures from <= x < to <==> Covered(out, x) || chunk <= x < chunk + size {
      if joinNext && chunk + size <= x < to { assert next.value in out; }
      if joinPrev && from <= x < chunk { assert prev.value in out; }
      if Covered(out, x) { var e :| e in out && e.addr <= x < End(e); }
    }
  }

  /** These are all that touch it. */
  lemma JoinsTouching(s: set<Extent>, chunkSize: nat, chunk: nat, size: nat, next: Option<Extent>, prev: Option<Extent>)
    requires Sound(s, chunkSize) && size > 0
    requires if next.Some? then FirstFrom(s, chunk + size, next.value) else forall e :: e in s ==> e.addr < chunk + size
    requires if prev.Some? then LastBefore(s, chunk, prev.value) else forall e :: e in s ==> e.addr >= chunk
    ensures
      var joinNext, joinPrev := next.Some? && next.value.addr == chunk + size, prev.Some? && End(prev.value) == chunk;
      Touching(s, chunk, size) == (if joinNext then {next.value} else {}) + (if joinPrev then {prev.value} else {})
  {
    hide Mod;
  }

  /** An extent apart from all others, in place of those it joined. */
  lemma StillSound(s: set<Extent>, chunkSize: nat, out: set<Extent>, n: Extent)
    requires Sound(s, chunkSize) && out <= s && n.size > 0 && Mod(n.addr, chunkSize) == 0 && Mod(n.size, chunkSize) == 0
    requires forall e :: e in s && e !in out ==> End(e) < n.addr || End(n) < e.addr
    ensures Sound(s - out + {n}, chunkSize)
  {
    hide Mod;
  }

  lemma Member(s: set<Extent>, chunkSize: nat, e: Extent)
    requires Sound(s, chunkSize) && e in s
    ensures e.size > 0 && Mod(e.addr, chunkSize) == 0 && Mod(e.size, chunkSize) == 0
  {
  }

  // ----- taking a range out -----

  /** What is left of an extent at one side. */
  function Piece(addr: nat, size: nat, zeroed: bool): set<Extent> {
    if size > 0 then {Extent(addr, size, zeroed)} else {}
  }

  /** The range is taken out; all else is covered, and known to be zeroed, as before. */
  ghost predicate TakenOut(s0: set<Extent>, s: set<Extent>, from: nat, to: nat) {
    forall x {:trigger Covered(s, x)} {:trigger Zeroed(s, x)} ::
      (Covered(s, x) <==> Covered(s0, x) && !(from <= x < to)) && (Zeroed(s, x) <==> Zeroed(s0, x) && !(from <= x < to))
  }

  /** An extent loses the range from one place to another and keeps what is before and behind. */
  lemma Carved(s0: set<Extent>, s: set<Extent>, e: Extent, from: nat, to: nat)
    requires e in s0 && e.addr <= from < to <= End(e)
    requires forall f :: f in s0 && f != e ==> End(f) <= e.addr || End(e) <= f.addr
    requires s == s0 - {e} + Piece(e.addr, from - e.addr, e.zeroed) + Piece(to, End(e) - to, e.zeroed)
    ensures TakenOut(s0, s, from, to)
  {
    hide Piece, Covered, Zeroed;
    forall x {:trigger Covered(s, x)} {:trigger Zeroed(s, x)}
      ensures (Covered(s, x) <==> Covered(s0, x) && !(from <= x < to)) && (Zeroed(s, x) <==> Zeroed(s0, x) && !(from <= x < to))
    {
      if Covered(s, x) {
        var f := Holder(s, x);
        WasThere(s0, s, e, from, to, f, x);
      } else {
        ZeroedCovered(s, x);
      }
      if Covered(s0, x) && !(from <= x < to) {
        var f := Holder(s0, x);
        IsThere(s0, s, e, from, to, f, x);
      } else {
        ZeroedCovered(s0, x);
      }
    }
  }

  /** The extent that covers an address, a zeroed one if there is one. */
  lemma Holder(s: set<Extent>, x: int) returns (f: Extent)
    requires Covered(s, x)
    ensures f in s && f.addr <= x < End(f) && (Zeroed(s, x) ==> f.zeroed)
  {
    if Zeroed(s, x) {
      f :| f in s && f.addr <= x < End(f) && f.zeroed;
    } else {
      f :| f in s && f.addr <= x < End(f);
    }
  }

  lemma ZeroedCovered(s: set<Extent>, x: int)
    ensures Zeroed(s, x) ==> Covered(s, x)
  {
  }

  lemma WasThere(s0: set<Extent>, s: set<Extent>, e: Extent, from: nat, to: nat, f: Extent, x: int)
    requires e in s0 && e.addr <= from < to <= End(e) && f in s && f.addr <= x < End(f)
    requires forall f :: f in s0 && f != e ==> End(f) <= e.addr || End(e) <= f.addr
    requires s == s0 - {e} + Piece(e.addr, from - e.addr, e.zeroed) + Piece(to, End(e) - to, e.zeroed)
    ensures !(from <= x < to) && Covered(s0, x) && (f.zeroed ==> Zeroed(s0, x))
  {
    if f in s0 && f != e {
      assert Covered(s0, x) && (f.zeroed ==> Zeroed(s0, x));
    } else {
      assert e.addr <= x < End(e) && e.zeroed == f.zeroed;
    }
  }

  lemma IsThere(s0: set<Extent>, s: set<Extent>, e: Extent, from: nat, to: nat, f: Extent, x: int)
    requires e in s0 && e.addr <= from < to <= End(e) && f in s0 && f.addr <= x < End(f) && !(from <= x < to)
    requires s == s0 - {e} + Piece(e.addr, from - e.addr, e.zeroed) + Piece(to, End(e) - to, e.zeroed)
    ensures Covered(s, x) && (f.zeroed ==> Zeroed(s, x))
  {
    var g := if f != e then f else if x < from then Extent(e.addr, from - e.addr, e.zeroed) else Extent(to, End(e) - to, e.zeroed);
    assert g in s && g.addr <= x < End(g) && g.zeroed == f.zeroed;
  }

  lemma CarvedSound(s0: set<Extent>, s: set<Extent>, chunkSize: nat, e: Extent, from: nat, to: nat)
    requires Sound(s0, chunkSize) && e in s0 && e.addr <= from < to <= End(e)
    requires Mod(from, chunkSize) == 0 && Mod(to, chunkSize) == 0
    requires s == s0 - {e} + Piece(e.addr, from - e.addr, e.zeroed) + Piece(to, End(e) - to, e.zeroed)
    ensures Sound(s, chunkSize)
  {
    hide Mod, Sound, Piece;
    Member(s0, chunkSize, e);
    ModSum(e.addr, e.size, chunkSize);
    ModDifference(from, e.addr, chunkSize);
    ModDifference(End(e), to, chunkSize);
    var s1 := s0 - {e} + Piece(e.addr, from - e.addr, e.zeroed);
    Shorter(s0, chunkSize, e);
    PieceIs(e.addr, from - e.addr, e.zeroed);
    WithPiece(s0 - {e}, chunkSize, e.addr, from - e.addr, e.zeroed);
    WithPiece(s1, chunkSize, to, End(e) - to, e.zeroed);
  }

  lemma PieceIs(addr: nat, size: nat, zeroed: bool)
    ensures forall f :: f in Piece(addr, size, zeroed) ==> f.addr == addr && f.size == size
  {
  }

  lemma WithPiece(s: set<Extent>, chunkSize: nat, addr: nat, size: nat, zeroed: bool)
    requires Sound(s, chunkSize) && Mod(addr, chunkSize) == 0 && Mod(size, chunkSize) == 0
    requires forall e :: e in s ==> End(e) < addr || addr + size < e.addr
    ensures Sound(s + Piece(addr, size, zeroed), chunkSize)
  {
    hide Sound, Mod;
    if size > 0 { Addable(s, chunkSize, Extent(addr, size, zeroed)); } else { assert s + Piece(addr, size, zeroed) == s; }
  }

  lemma Shorter(s: set<Extent>, chunkSize: nat, e: Extent)
    requires Sound(s, chunkSize) && e in s
    ensures Sound(s - {e}, chunkSize) && forall f :: f in s && f != e ==> End(f) < e.addr || End(e) < f.addr
  {
  }

  lemma Addable(s: set<Extent>, chunkSize: nat, n: Extent)
    requires Sound(s, chunkSize) && n.size > 0 && Mod(n.addr, chunkSize) == 0 && Mod(n.size, chunkSize) == 0
    requires forall e :: e in s ==> End(e) < n.addr || End(n) < e.addr
    ensures Sound(s + {n}, chunkSize)
  {
    hide Mod;
  }

  /** What recycling comes to, with e as the extent that the range is taken from. */
  ghost predicate Recycled(s0: set<Extent>, s: set<Extent>, chunkSize: nat, size: nat, alignment: nat, e: Extent, ret: Option<nat>,
                           node: bool, unmaps: bool, unzeroed: bool, node2: bool)
    requires 0 < alignment && chunkSize <= size + alignment
  {
    var a := AlignUp(e.addr, alignment);
    && BestFit(s0, size + alignment - chunkSize, e) && a + size <= End(e)
    && if a > e.addr && a + size < End(e) && !node then ret.None? && Dropped(s0, s, a, End(e), size, unmaps, unzeroed, node2)
       else ret == Some(a) && TakenOut(s0, s, a, a + size)
  }

  /** The range goes back, to the system or else to the extents if there is a node for it, and what is behind it is lost. */
  ghost predicate Dropped(s0: set<Extent>, s: set<Extent>, from: nat, to: nat, size: nat, unmaps: bool, unzeroed: bool, node2: bool) {
    exists t: set<Extent> :: TakenOut(s0, t, from, to) && if !unmaps && node2 then Recorded(t, s, from, size, unzeroed) else s == t
  }

  /** From a multiple of d, the next multiple of a multiple k of d is at most k - d away. */
  lemma LeadBound(addr: nat, k: nat, d: nat)
    requires d > 0 && k > 0 && Mod(addr, d) == 0 && Mod(k, d) == 0
    ensures k >= d && AlignUp(addr, k) - addr <= k - d && Mod(AlignUp(addr, k), d) == 0
  {
    hide Div, Mod, AlignUp;
    var a := AlignUp(addr, k);
    ModTimes(Div(a, k), k, d);
    ModDifference(a, addr, d);
    ModDifference(k, a - addr, d);
    var gap := k - (a - addr);
    assert gap > 0 && gap == Div(gap, d) * d;
    if Div(gap, d) >= 1 { Multiple(Div(gap, d), d); }
    assert k == Div(k, d) * d;
    if Div(k, d) >= 1 { Multiple(Div(k, d), d); }
  }

}
