/** The cuckoo hash of ckh.c as functions of its cell table.  Random numbers come from a finite supply; an
    insertion that uses it up is Stalled, which says nothing. */
module Cuckoo {
  import opened Wrappers
  import opened Entries
  import opened Division

  type Cell<K, V> = Option<Entry<K, V>>

  /** Hash functions, number of cells of a bucket and of buckets. */
  datatype Shape<!K> = Shape(h1: K -> nat, h2: K -> nat, cells: nat, buckets: nat)

  predicate Sized<K, V>(p: Shape<K>, tab: seq<Cell<K, V>>) {
    p.cells > 0 && p.buckets > 0 && |tab| == p.buckets * p.cells
  }

  function First<K>(p: Shape<K>, k: K): (b: nat)
    requires p.buckets > 0
    ensures b < p.buckets
  {
    p.h1(k) % p.buckets
  }

  function Second<K>(p: Shape<K>, k: K): (b: nat)
    requires p.buckets > 0
    ensures b < p.buckets
  {
    p.h2(k) % p.buckets
  }

  /** Cell i of a bucket. */
  function At<K>(p: Shape<K>, bucket: nat, i: nat): (c: nat)
    requires bucket < p.buckets && i < p.cells
    ensures c < p.buckets * p.cells
  {
    Rows(bucket, p.buckets, p.cells);
    bucket * p.cells + i
  }

  lemma Rows(a: nat, b: nat, p: nat)
    requires a < b
    ensures a * p + p <= b * p
  {
    var d: nat := b - a - 1;
    assert b * p == (d + (a + 1)) * p == d * p + (a + 1) * p;
  }

  // ----- what a table holds -----

  ghost function Items<K, V>(tab: seq<Cell<K, V>>): multiset<Entry<K, V>> {
    if tab == [] then multiset{} else Items(tab[..|tab| - 1]) + Held(tab[|tab| - 1])
  }

  ghost function Held<K, V>(c: Cell<K, V>): multiset<Entry<K, V>> { if c.Some? then multiset{c.value} else multiset{} }

  lemma {:induction false} ItemsUpdate<K, V>(tab: seq<Cell<K, V>>, i: nat, c: Cell<K, V>)
    requires i < |tab|
    ensures Items(tab[i := c]) + Held(tab[i]) == Items(tab) + Held(c)
  {
    hide Held;
    var n := |tab| - 1;
    var u := tab[i := c];
    assert Items(u) == Items(u[..n]) + Held(u[n]);
    if i == n {
      assert u[..n] == tab[..n];
    } else {
      ItemsUpdate(tab[..n], i, c);
      assert u[..n] == tab[..n][i := c] && tab[..n][i] == tab[i];
      Shift(Items(u[..n]), Held(tab[i]), Items(tab[..n]), Held(c), Held(tab[n]));
    }
  }

  lemma {:induction false} ItemsIn<K, V>(tab: seq<Cell<K, V>>, e: Entry<K, V>)
    ensures e in Items(tab) <==> exists i :: 0 <= i < |tab| && tab[i] == Some(e)
  {
    hide Held, Items;
    ItemsLast(tab, e);
    if tab != [] {
      var n := |tab| - 1;
      ItemsIn(tab[..n], e);
      if i :| 0 <= i < n && tab[..n][i] == Some(e) { assert tab[i] == Some(e); }
      if i :| 0 <= i < |tab| && tab[i] == Some(e) { if i < n { assert tab[..n][i] == Some(e); } }
    }
  }

  lemma ItemsLast<K, V>(tab: seq<Cell<K, V>>, e: Entry<K, V>)
    ensures tab == [] ==> e !in Items(tab)
    ensures tab != [] ==> (e in Items(tab) <==> e in Items(tab[..|tab| - 1]) || tab[|tab| - 1] == Some(e))
  {
  }

  /** Every item is in one of its two buckets. */
  ghost predicate Placed<K, V>(p: Shape<K>, tab: seq<Cell<K, V>>)
    requires Sized(p, tab)
  {
    forall b: nat, i: nat :: b < p.buckets && i < p.cells && tab[At(p, b, i)].Some? ==>
                               b == First(p, tab[At(p, b, i)].value.key) || b == Second(p, tab[At(p, b, i)].value.key)
  }

  /** Cells are where their numbers say. */
  lemma AtUnique<K>(p: Shape<K>, b: nat, i: nat, b': nat, i': nat)
    requires b < p.buckets && i < p.cells && b' < p.buckets && i' < p.cells && At(p, b, i) == At(p, b', i')
    ensures b == b' && i == i'
  {
    hide Div, Mod;
    DivUnique(At(p, b, i), p.cells, b, i);
    DivUnique(At(p, b, i), p.cells, b', i');
  }

  lemma CellOf<K>(p: Shape<K>, c: nat) returns (b: nat, i: nat)
    requires p.cells > 0 && c < p.buckets * p.cells
    ensures b < p.buckets && i < p.cells && At(p, b, i) == c
  {
    hide Div, Mod;
    b, i := Div(c, p.cells), Mod(c, p.cells);
    RowOf(b, p.buckets, p.cells, c);
  }

  lemma RowOf(b: nat, buckets: nat, cells: nat, c: nat)
    requires b * cells <= c < buckets * cells
    ensures b < buckets
  {
    if buckets <= b { AtLeast(buckets, b, cells); }
  }

  lemma AtLeast(a: nat, b: nat, p: nat)
    requires a <= b
    ensures a * p <= b * p
  {
    assert (b - a) * p >= 0;
  }

  /** Putting an item into one of its buckets keeps everything in place. */
  lemma PutPlaced<K, V>(p: Shape<K>, tab: seq<Cell<K, V>>, b: nat, i: nat, c: Cell<K, V>)
    requires Sized(p, tab) && Placed(p, tab) && b < p.buckets && i < p.cells
    requires c.Some? ==> b == First(p, c.value.key) || b == Second(p, c.value.key)
    ensures Placed(p, tab[At(p, b, i) := c])
  {
    var u := tab[At(p, b, i) := c];
    forall b': nat, i': nat | b' < p.buckets && i' < p.cells && u[At(p, b', i')].Some?
      ensures b' == First(p, u[At(p, b', i')].value.key) || b' == Second(p, u[At(p, b', i')].value.key)
    {
      if At(p, b', i') == At(p, b, i) { AtUnique(p, b', i', b, i); }
    }
  }

  // ----- insertion -----

  predicate FullBucket<K, V>(p: Shape<K>, tab: seq<Cell<K, V>>, b: nat)
    requires Sized(p, tab) && b < p.buckets
  {
    forall i: nat :: i < p.cells ==> tab[At(p, b, i)].Some?
  }

  /** The i-th place to look at, starting with the offset and going around. */
  function Around(i: nat, offset: nat, cells: nat): (j: nat)
    requires cells > 0
    ensures j < cells
  {
    Mod(i + offset, cells)
  }

  /** The first free cell of a bucket, looking from the given offset on; cells if there is none. */
  function Free<K, V>(p: Shape<K>, tab: seq<Cell<K, V>>, b: nat, offset: nat, i: nat): (j: nat)
    requires Sized(p, tab) && b < p.buckets && i <= p.cells
    ensures i <= j <= p.cells && (j < p.cells ==> tab[At(p, b, Around(j, offset, p.cells))].None?)
    ensures forall k: nat :: i <= k < j ==> tab[At(p, b, Around(k, offset, p.cells))].Some?
    decreases p.cells - i
  {
    if i == p.cells || tab[At(p, b, Around(i, offset, p.cells))].None? then i else Free(p, tab, b, offset, i + 1)
  }

  /** If the search finds no free cell, there is none. */
  lemma NoneFree<K, V>(p: Shape<K>, tab: seq<Cell<K, V>>, b: nat, offset: nat)
    requires Sized(p, tab) && b < p.buckets && Free(p, tab, b, offset, 0) == p.cells
    ensures FullBucket(p, tab, b)
  {
    hide Around, At;
    forall i: nat | i < p.cells ensures tab[At(p, b, i)].Some? {
      var k := Turn(offset, p.cells, i);
      assert tab[At(p, b, Around(k, offset, p.cells))].Some?;
    }
  }

  /** Going around meets every cell. */
  lemma Turn(offset: nat, cells: nat, i: nat) returns (k: nat)
    requires i < cells
    ensures k < cells && Around(k, offset, cells) == i
  {
    hide Div, Mod;
    var q, r := Div(offset, cells), Mod(offset, cells);
    assert (q + 1) * cells == q * cells + cells;
    if i >= r {
      k := i - r;
      DivUnique(k + offset, cells, q, i);
    } else {
      k := i - r + cells;
      DivUnique(k + offset, cells, q + 1, i);
    }
  }

  /** ckh_try_bucket_insert: the new table, or nothing if the bucket is full. */
  function TryBucket<K, V>(p: Shape<K>, tab: seq<Cell<K, V>>, b: nat, item: Entry<K, V>, offset: nat): Option<seq<Cell<K, V>>>
    requires Sized(p, tab) && b < p.buckets
  {
    var j := Free(p, tab, b, offset, 0);
    if j < p.cells then Some(tab[At(p, b, Around(j, offset, p.cells)) := Some(item)]) else None
  }

  /** What an insertion comes to: a table with the item, a table that lacks the item in hand, or nothing
      because the random numbers ran out. */
  datatype Try<K, V> =
    | Inserted(tab: seq<Cell<K, V>>)
    | Cycle(tab: seq<Cell<K, V>>, hand: Entry<K, V>)
    | Stalled

  /** The bucket an evicted item moves to. */
  function Other<K>(p: Shape<K>, k: K, b: nat): (t: nat)
    requires p.buckets > 0
    ensures t < p.buckets
  {
    if Second(p, k) == b then First(p, k) else Second(p, k)
  }

  /** ckh_evict_reloc_insert: the item in hand goes into a full bucket, and the item it evicts to its other
      bucket, until there is room or the first bucket comes around again. */
  function Evict<K, V>(p: Shape<K>, tab: seq<Cell<K, V>>, arg: nat, b: nat, item: Entry<K, V>, rnd: seq<nat>): Try<K, V>
    requires Sized(p, tab) && arg < p.buckets && b < p.buckets && FullBucket(p, tab, b)
    decreases |rnd|
  {
    if |rnd| < 2 then Stalled
    else
      var c := At(p, b, Around(0, rnd[0], p.cells));
      var out := tab[c].value;
      var tab' := tab[c := Some(item)];
      var t := Other(p, out.key, b);
      if t == arg then Cycle(tab', out)
      else
        var next := TryBucket(p, tab', t, out, rnd[1]);
        if next.Some? then Inserted(next.value)
        else
          NoneFree(p, tab', t, rnd[1]);
          Evict(p, tab', arg, t, out, rnd[2..])
  }

  /** ckh_try_insert. */
  function TryInsert<K, V>(p: Shape<K>, tab: seq<Cell<K, V>>, item: Entry<K, V>, rnd: seq<nat>): Try<K, V>
    requires Sized(p, tab)
  {
    if |rnd| < 2 then Stalled
    else
      var b1, b2 := First(p, item.key), Second(p, item.key);
      var t1 := TryBucket(p, tab, b1, item, rnd[0]);
      if t1.Some? then Inserted(t1.value)
      else
        var t2 := TryBucket(p, tab, b2, item, rnd[1]);
        if t2.Some? then Inserted(t2.value)
        else
          NoneFree(p, tab, b2, rnd[1]);
          Evict(p, tab, b2, b2, item, rnd[2..])
  }

  // ----- what insertion keeps -----

  /** The table is in order, and it holds what the old one held and the new item, but for what is in hand. */
  ghost predicate Conserves<K, V>(p: Shape<K>, tab: seq<Cell<K, V>>, item: Entry<K, V>, r: Try<K, V>)
    requires Sized(p, tab)
  {
    match r
    case Inserted(tab') => Sized(p, tab') && Placed(p, tab') && Items(tab') == Items(tab) + multiset{item}
    case Cycle(tab', hand) =>
      Sized(p, tab') && Placed(p, tab') && Items(tab') + multiset{hand} == Items(tab) + multiset{item}
    case Stalled => true
  }

  lemma PutItems<K, V>(tab: seq<Cell<K, V>>, c: nat, item: Entry<K, V>)
    requires c < |tab| && tab[c].None?
    ensures Items(tab[c := Some(item)]) == Items(tab) + multiset{item}
  {
    ItemsUpdate(tab, c, Some(item));
  }

  lemma SwapItems<K, V>(tab: seq<Cell<K, V>>, c: nat, item: Entry<K, V>)
    requires c < |tab| && tab[c].Some?
    ensures Items(tab[c := Some(item)]) + multiset{tab[c].value} == Items(tab) + multiset{item}
  {
    ItemsUpdate(tab, c, Some(item));
  }

  lemma BucketConserves<K, V>(p: Shape<K>, tab: seq<Cell<K, V>>, b: nat, item: Entry<K, V>, offset: nat)
    requires Sized(p, tab) && Placed(p, tab) && b < p.buckets && (b == First(p, item.key) || b == Second(p, item.key))
    ensures
      var t := TryBucket(p, tab, b, item, offset);
      t.Some? ==> Sized(p, t.value) && Placed(p, t.value) && Items(t.value) == Items(tab) + multiset{item}
  {
    hide Placed, Items, At, Around;
    var j := Free(p, tab, b, offset, 0);
    if j < p.cells {
      var i := Around(j, offset, p.cells);
      PutItems(tab, At(p, b, i), item);
      PutPlaced(p, tab, b, i, Some(item));
    }
  }

  lemma ConservesOn<K, V>(p: Shape<K>, tab: seq<Cell<K, V>>, item: Entry<K, V>, tab': seq<Cell<K, V>>, out: Entry<K, V>, r: Try<K, V>)
    requires Sized(p, tab) && Sized(p, tab') && Items(tab') + multiset{out} == Items(tab) + multiset{item}
    requires Conserves(p, tab', out, r)
    ensures Conserves(p, tab, item, r)
  {
    hide Items, Placed;
  }

  /** At every step of the eviction, nothing is lost and nothing is out of place. */
  lemma {:induction false} EvictConserves<K, V>(p: Shape<K>, tab: seq<Cell<K, V>>, arg: nat, b: nat, item: Entry<K, V>, rnd: seq<nat>)
    requires Sized(p, tab) && Placed(p, tab) && arg < p.buckets && b < p.buckets && FullBucket(p, tab, b)
    requires b == First(p, item.key) || b == Second(p, item.key)
    ensures Conserves(p, tab, item, Evict(p, tab, arg, b, item, rnd))
    decreases |rnd|
  {
    hide Placed, Items, At, Around, FullBucket, Free;
    if |rnd| >= 2 {
      var i := Around(0, rnd[0], p.cells);
      FullCell(p, tab, b, i);
      var c := At(p, b, i);
      var out := tab[c].value;
      var tab' := tab[c := Some(item)];
      var t := Other(p, out.key, b);
      SwapItems(tab, c, item);
      PutPlaced(p, tab, b, i, Some(item));
      if t != arg {
        BucketConserves(p, tab', t, out, rnd[1]);
        if TryBucket(p, tab', t, out, rnd[1]).None? {
          NoneFree(p, tab', t, rnd[1]);
          EvictConserves(p, tab', arg, t, out, rnd[2..]);
          ConservesOn(p, tab, item, tab', out, Evict(p, tab', arg, t, out, rnd[2..]));
        }
      }
    }
  }

  /** Inserting conserves the items: only what is in hand at a cycle is missing. */
  lemma InsertConserves<K, V>(p: Shape<K>, tab: seq<Cell<K, V>>, item: Entry<K, V>, rnd: seq<nat>)
    requires Sized(p, tab) && Placed(p, tab)
    ensures Conserves(p, tab, item, TryInsert(p, tab, item, rnd))
  {
    if |rnd| >= 2 {
      var b1, b2 := First(p, item.key), Second(p, item.key);
      BucketConserves(p, tab, b1, item, rnd[0]);
      BucketConserves(p, tab, b2, item, rnd[1]);
      hide Placed, Items, At, Around;
      if TryBucket(p, tab, b1, item, rnd[0]).None? && TryBucket(p, tab, b2, item, rnd[1]).None? {
        NoneFree(p, tab, b2, rnd[1]);
        EvictConserves(p, tab, b2, b2, item, rnd[2..]);
      }
    }
  }

  // ----- when an insertion fails, and what is lost then -----

  /** A free cell in one of the two buckets is all that an insertion needs. */
  lemma RoomSuffices<K, V>(p: Shape<K>, tab: seq<Cell<K, V>>, item: Entry<K, V>, rnd: seq<nat>)
    requires Sized(p, tab) && |rnd| >= 2
    requires !FullBucket(p, tab, First(p, item.key)) || !FullBucket(p, tab, Second(p, item.key))
    ensures TryInsert(p, tab, item, rnd).Inserted?
  {
    var b1, b2 := First(p, item.key), Second(p, item.key);
    if TryBucket(p, tab, b1, item, rnd[0]).None? { NoneFree(p, tab, b1, rnd[0]); }
    if TryBucket(p, tab, b2, item, rnd[1]).None? { NoneFree(p, tab, b2, rnd[1]); }
  }

  /** While items are evicted from other buckets, the bucket where it all began is not touched. */
  lemma {:induction false} EvictKeepsBucket<K, V>(p: Shape<K>, tab: seq<Cell<K, V>>, arg: nat, b: nat, item: Entry<K, V>,
                                                  rnd: seq<nat>, i: nat)
    requires Sized(p, tab) && arg < p.buckets && b < p.buckets && FullBucket(p, tab, b) && b != arg && i < p.cells
    ensures
      match Evict(p, tab, arg, b, item, rnd)
      case Inserted(u) => |u| == |tab| && u[At(p, arg, i)] == tab[At(p, arg, i)]
      case Cycle(u, _) => |u| == |tab| && u[At(p, arg, i)] == tab[At(p, arg, i)]
      case Stalled => true
    decreases |rnd|
  {
    if |rnd| >= 2 {
      hide At, Around, FullBucket, Free;
      FullCell(p, tab, b, Around(0, rnd[0], p.cells));
      var c := At(p, b, Around(0, rnd[0], p.cells));
      var out := tab[c].value;
      var tab' := tab[c := Some(item)];
      var t := Other(p, out.key, b);
      Elsewhere(p, arg, i, b, Around(0, rnd[0], p.cells));
      if t != arg {
        var j := Free(p, tab', t, rnd[1], 0);
        if j < p.cells {
          Elsewhere(p, arg, i, t, Around(j, rnd[1], p.cells));
        } else {
          NoneFree(p, tab', t, rnd[1]);
          EvictKeepsBucket(p, tab', arg, t, out, rnd[2..], i);
        }
      }
    }
  }

  lemma FullCell<K, V>(p: Shape<K>, tab: seq<Cell<K, V>>, b: nat, i: nat)
    requires Sized(p, tab) && b < p.buckets && i < p.cells && FullBucket(p, tab, b)
    ensures tab[At(p, b, i)].Some?
  {
  }

  lemma Elsewhere<K>(p: Shape<K>, b: nat, i: nat, b': nat, i': nat)
    requires b < p.buckets && i < p.cells && b' < p.buckets && i' < p.cells && b != b'
    ensures At(p, b, i) != At(p, b', i')
  {
    if At(p, b, i) == At(p, b', i') { AtUnique(p, b, i, b', i'); }
  }

  /** The new item goes into its second bucket and is never evicted from there. */
  lemma NewItemStays<K, V>(p: Shape<K>, tab: seq<Cell<K, V>>, item: Entry<K, V>, rnd: seq<nat>)
    requires Sized(p, tab) && TryInsert(p, tab, item, rnd).Cycle?
    ensures Some(item) in TryInsert(p, tab, item, rnd).tab
  {
    hide At, Around, FullBucket, Free;
    var b := Second(p, item.key);
    NoneFree(p, tab, b, rnd[1]);
    var r := rnd[2..];
    assert Evict(p, tab, b, b, item, r).Cycle?;
    var i := Around(0, r[0], p.cells);
    FullCell(p, tab, b, i);
    var c := At(p, b, i);
    var out := tab[c].value;
    var tab' := tab[c := Some(item)];
    var t := Other(p, out.key, b);
    assert tab'[c] == Some(item);
    if t != b && TryBucket(p, tab', t, out, r[1]).None? {
      NoneFree(p, tab', t, r[1]);
      EvictKeepsBucket(p, tab', b, t, out, r[2..], i);
    }
  }

  /** A failed insertion never leaves the table as it was: the new item is in it, and an old one has lost its place. */
  lemma FailureLosesOld<K, V>(p: Shape<K>, tab: seq<Cell<K, V>>, item: Entry<K, V>, rnd: seq<nat>)
    requires Sized(p, tab) && Placed(p, tab) && item !in Items(tab) && TryInsert(p, tab, item, rnd).Cycle?
    ensures
      var r := TryInsert(p, tab, item, rnd);
      && r.hand != item && r.hand in Items(tab) && item in Items(r.tab)
      && Items(r.tab) == Items(tab) + multiset{item} - multiset{r.hand} != Items(tab)
  {
    hide Items, Placed;
    var r := TryInsert(p, tab, item, rnd);
    InsertConserves(p, tab, item, rnd);
    NewItemStays(p, tab, item, rnd);
    var c :| 0 <= c < |r.tab| && r.tab[c] == Some(item);
    ItemsIn(r.tab, item);
    OneOfTwo(Items(r.tab), r.hand, Items(tab), item);
  }

  lemma OneOfTwo<T>(u: multiset<T>, h: T, t: multiset<T>, x: T)
    requires u + multiset{h} == t + multiset{x} && x !in t && x in u
    ensures h != x && h in t && u == t + multiset{x} - multiset{h}
  {
    assert (u + multiset{h})[x] == u[x] + multiset{h}[x] && (t + multiset{x})[x] == 1;
    assert h in u + multiset{h};
    assert u == (u + multiset{h}) - multiset{h};
  }

  /** So it is in every table of one bucket that is full: the new item takes the place of another, which a caller
      who cannot grow the table loses. */
  lemma NewItemDisplaces<K, V>(p: Shape<K>, tab: seq<Cell<K, V>>, item: Entry<K, V>, rnd: seq<nat>)
    requires p.buckets == 1 && Sized(p, tab) && FullBucket(p, tab, 0) && |rnd| >= 4
    ensures
      var c := Around(0, rnd[2], p.cells);
      tab[c].Some? && TryInsert(p, tab, item, rnd) == Cycle(tab[c := Some(item)], tab[c].value)
  {
    forall o: nat ensures TryBucket(p, tab, 0, item, o).None? { FullMeansNone(p, tab, item, o); }
    var c := Around(0, rnd[2], p.cells);
    assert At(p, 0, c) == c;
    assert rnd[2..][0] == rnd[2];
  }

  lemma FullMeansNone<K, V>(p: Shape<K>, tab: seq<Cell<K, V>>, item: Entry<K, V>, o: nat)
    requires Sized(p, tab) && p.buckets == 1 && FullBucket(p, tab, 0)
    ensures TryBucket(p, tab, 0, item, o).None?
  {
  }

  // ----- search -----

  /** ckh_bucket_search: the cell of a bucket from i on that has the key; cells if none has. */
  function InBucket<K(==), V>(p: Shape<K>, tab: seq<Cell<K, V>>, b: nat, k: K, i: nat): (j: nat)
    requires Sized(p, tab) && b < p.buckets && i <= p.cells
    ensures i <= j <= p.cells
    ensures j < p.cells ==> tab[At(p, b, j)].Some? && tab[At(p, b, j)].value.key == k
    ensures forall l: nat :: i <= l < j ==> tab[At(p, b, l)].Some? ==> tab[At(p, b, l)].value.key != k
    decreases p.cells - i
  {
    if i == p.cells || (tab[At(p, b, i)].Some? && tab[At(p, b, i)].value.key == k) then i
    else InBucket(p, tab, b, k, i + 1)
  }

  /** ckh_isearch: the cell that has the key. */
  function Search<K(==), V>(p: Shape<K>, tab: seq<Cell<K, V>>, k: K): (c: Option<nat>)
    requires Sized(p, tab)
    ensures c.Some? ==> c.value < |tab| && tab[c.value].Some? && tab[c.value].value.key == k
  {
    var i := InBucket(p, tab, First(p, k), k, 0);
    if i < p.cells then Some(At(p, First(p, k), i))
    else
      var j := InBucket(p, tab, Second(p, k), k, 0);
      if j < p.cells then Some(At(p, Second(p, k), j)) else None
  }

  /** Looking into two buckets finds every key. */
  lemma SearchFinds<K, V>(p: Shape<K>, tab: seq<Cell<K, V>>, k: K)
    requires Sized(p, tab) && Placed(p, tab)
    ensures Search(p, tab, k).Some? <==> HasKey(Items(tab), k)
    ensures Search(p, tab, k).Some? ==> tab[Search(p, tab, k).value].value in Items(tab)
  {
    var r := Search(p, tab, k);
    if r.Some? { ItemsIn(tab, tab[r.value].value); }
    if e :| e in Items(tab) && e.key == k {
      ItemsIn(tab, e);
      var c: nat :| c < |tab| && tab[c] == Some(e);
      var b, i := CellOf(p, c);
      assert tab[At(p, b, i)].Some? && tab[At(p, b, i)].value.key == k;
    }
  }
}
