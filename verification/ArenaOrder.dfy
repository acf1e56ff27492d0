/** The order in which arena.c purges chunks: the least fragmented ones first, although its comment (arena.c:119-121) says the
    opposite. */
module ArenaOrder {

  /** A chunk as the comparison sees it: free runs, pairs of free runs side by side, address. */
  datatype Key = Key(avail: nat, adjac: nat, addr: nat)

  /** A chunk in the tree has free runs, and fewer pairs than runs. */
  predicate InTree(k: Key) { k.adjac < k.avail }

  /** Where two sizes differ the one or the other sign. */
  function Sign(x: int, y: int): int { if x > y then 1 else if x < y then -1 else 0 }

  /** arena_chunk_dirty_comp, for keys of chunks in the tree; the same address is the same chunk. */
  function DirtyComp(a: Key, b: Key): (c: int)
    requires InTree(a) && InTree(b)
  {
    if a.addr == b.addr then 0
    else
      var aVal, bVal := (a.avail - a.adjac) * b.avail, (b.avail - b.adjac) * a.avail;
      if aVal < bVal then 1
      else if aVal > bVal then -1
      else if a.adjac == 0 then -Sign(a.addr, b.addr)
      else Sign(a.addr, b.addr)
  }

  predicate Before(a: Key, b: Key)
    requires InTree(a) && InTree(b)
  {
    DirtyComp(a, b) < 0
  }

  /** Equally fragmented chunks are both without pairs, or neither is; so the tie is broken the same way from both
      sides. */
  lemma TieAgrees(a: Key, b: Key)
    requires InTree(a) && InTree(b) && (a.avail - a.adjac) * b.avail == (b.avail - b.adjac) * a.avail
    ensures a.adjac == 0 <==> b.adjac == 0
  {
    assert a.avail * b.avail - a.adjac * b.avail == b.avail * a.avail - b.adjac * a.avail;
    assert a.adjac * b.avail == b.adjac * a.avail;
    Zero(a.adjac, b.avail);
    Zero(b.adjac, a.avail);
  }

  lemma Zero(x: nat, y: nat)
    requires y > 0
    ensures x * y == 0 <==> x == 0
  {
    if x > 0 { assert x * y >= y by { assert (x - 1) * y >= 0; } }
  }

  /** Fractions in order: if p/q > r/s and r/s >= t/u then p/q > t/u. */
  lemma Cross(p: nat, q: nat, r: nat, s: nat, t: nat, u: nat)
    requires q > 0 && s > 0 && u > 0
    requires p * s >= r * q && r * u >= t * s
    ensures p * u >= t * q
    ensures p * s > r * q || r * u > t * s ==> p * u > t * q
    ensures p * s == r * q && r * u == t * s ==> p * u == t * q
  {
    Times(p * s, r * q, u);
    Times(r * u, t * s, q);
    assert p * s * u == (p * u) * s && r * q * u == r * u * q && t * s * q == (t * q) * s;
    Divide(p * u, t * q, s);
  }

  lemma Times(x: nat, y: nat, z: nat)
    requires x >= y && z > 0
    ensures x * z >= y * z && (x > y ==> x * z > y * z)
  {
    assert (x - y) * z >= 0;
    assert x * z == y * z + (x - y) * z;
    Zero(x - y, z);
  }

  lemma Divide(x: nat, y: nat, z: nat)
    requires z > 0 && x * z >= y * z
    ensures x >= y && (x * z > y * z ==> x > y) && (x * z == y * z ==> x == y)
  {
    if x < y { Times(y, x, z); }
    if x > y { Times(x, y, z); }
  }

  /** The comparison is a strict total order of the chunks in the tree: exactly one of two different chunks comes first,
      whichever way they are compared. */
  lemma DirtyCompTotal(a: Key, b: Key)
    requires InTree(a) && InTree(b) && (a.addr == b.addr ==> a == b)
    ensures DirtyComp(a, b) == -DirtyComp(b, a)
    ensures DirtyComp(a, b) == 0 <==> a == b
  {
    if (a.avail - a.adjac) * b.avail == (b.avail - b.adjac) * a.avail { TieAgrees(a, b); }
  }

  lemma DirtyCompTransitive(a: Key, b: Key, c: Key)
    requires InTree(a) && InTree(b) && InTree(c) && Before(a, b) && Before(b, c)
    requires a.addr == c.addr ==> a == c
    ensures Before(a, c)
  {
    var na, nb, nc := a.avail - a.adjac, b.avail - b.adjac, c.avail - c.adjac;
    Cross(na, a.avail, nb, b.avail, nc, c.avail);
    if na * b.avail == nb * a.avail { TieAgrees(a, b); }
    if nb * c.avail == nc * b.avail { TieAgrees(b, c); }
    if na * c.avail == nc * a.avail { TieAgrees(a, c); }
  }

  // ----- what the order is -----

  /** Of the free runs of a chunk, the part that would go away if free runs side by side were joined. */
  function Fragmentation(k: Key): real
    requires InTree(k)
  {
    k.adjac as real / k.avail as real
  }

  lemma Quotients(x: nat, y: nat, u: nat, v: nat)
    requires y > 0 && v > 0
    ensures x as real / y as real < u as real / v as real <==> x * v < u * y
  {
    var p, q := x as real / y as real, u as real / v as real;
    assert p * y as real == x as real && q * v as real == u as real;
    assert (x * v) as real == p * ((y * v) as real) && (u * y) as real == q * ((y * v) as real) by {
      assert (x * v) as real == x as real * v as real && (u * y) as real == u as real * y as real;
      assert (y * v) as real == y as real * v as real;
    }
    assert y * v > 0;
    RealTimes(p, q, (y * v) as real);
  }

  lemma RealTimes(p: real, q: real, z: real)
    requires z > 0.0
    ensures p * z < q * z <==> p < q
  {
    if p < q { assert (q - p) * z > 0.0; }
    if p > q { assert (p - q) * z > 0.0; }
  }

  /** The less fragmented chunk comes first.  Of chunks without pairs the one at the higher address does, of others that are
      equally fragmented the one at the lower address. */
  lemma BeforeExactly(a: Key, b: Key)
    requires InTree(a) && InTree(b) && a.addr != b.addr
    ensures
      Before(a, b) <==>
      Fragmentation(a) < Fragmentation(b) ||
      (Fragmentation(a) == Fragmentation(b) && if a.adjac == 0 then a.addr > b.addr else a.addr < b.addr)
  {
    hide Fragmentation;
    FragmentationLess(a, b);
    FragmentationLess(b, a);
    assert (a.avail - a.adjac) * b.avail == a.avail * b.avail - a.adjac * b.avail;
    assert (b.avail - b.adjac) * a.avail == a.avail * b.avail - b.adjac * a.avail;
  }

  lemma FragmentationLess(a: Key, b: Key)
    requires InTree(a) && InTree(b)
    ensures Fragmentation(a) < Fragmentation(b) <==> a.adjac * b.avail < b.adjac * a.avail
  {
    Quotients(a.adjac, a.avail, b.adjac, b.avail);
  }

  /** A chunk without pairs comes before every chunk with pairs. */
  lemma UnfragmentedFirst(a: Key, b: Key)
    requires InTree(a) && InTree(b) && a.adjac == 0 < b.adjac && a.addr != b.addr
    ensures Before(a, b) && !Before(b, a)
  {
    Zero(b.adjac, a.avail);
  }

  /** Two free runs side by side against one free run: the source's comment has the first chunk purged first, the code the
      second one. */
  lemma CommentIsReversed()
    ensures
      var one, two := Key(1, 0, 5), Key(2, 1, 3);
      Fragmentation(one) < Fragmentation(two) && Before(one, two)
  {
  }
}
