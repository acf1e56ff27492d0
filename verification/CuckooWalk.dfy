/** Where an insertion into full buckets comes to: the walk from bucket to bucket that the random numbers lay down, and when a
    table takes all that there is. */
module CuckooWalk {
  import opened Wrappers
  import opened Entries
  import opened Division
  import opened Cuckoo

  // ----- the walk of evictions -----

  /** The table after some evictions, the item then without a place, and the bucket it may go to. */
  datatype Walk<K, V> = Walk(tab: seq<Cell<K, V>>, hand: Entry<K, V>, bucket: nat)

  /** The walk after n evictions, each from the cell that the random numbers say; None if a cell was empty. */
  function After<K, V>(p: Shape<K>, tab: seq<Cell<K, V>>, b: nat, item: Entry<K, V>, rnd: seq<nat>, n: nat): (w: Option<Walk<K, V>>)
    requires Sized(p, tab) && b < p.buckets && 2 * n <= |rnd|
    ensures w.Some? ==> Sized(p, w.value.tab) && w.value.bucket < p.buckets
    decreases n
  {
    if n == 0 then Some(Walk(tab, item, b))
    else
      var w := After(p, tab, b, item, rnd, n - 1);
      if w.None? then None
      else
        var c := At(p, w.value.bucket, Around(0, rnd[2 * n - 2], p.cells));
        if w.value.tab[c].None? then None
        else
          var out := w.value.tab[c].value;
          Some(Walk(w.value.tab[c := Some(w.value.hand)], out, Other(p, out.key, w.value.bucket)))
  }

  /** The walk has come through full buckets only, and not to the one where it began. */
  ghost predicate OnTheWay<K, V>(p: Shape<K>, tab: seq<Cell<K, V>>, b: nat, item: Entry<K, V>, rnd: seq<nat>, n: nat)
    requires Sized(p, tab) && b < p.buckets && 2 * n <= |rnd|
  {
    forall k :: 0 < k <= n ==>
                  var w := After(p, tab, b, item, rnd, k);
                  w.Some? && w.value.bucket != b && FullBucket(p, w.value.tab, w.value.bucket)
  }

  /** The n-th eviction is the last one: it comes to a bucket with room, or back to where it began. */
  ghost predicate Ends<K, V>(p: Shape<K>, tab: seq<Cell<K, V>>, b: nat, item: Entry<K, V>, rnd: seq<nat>, n: nat)
    requires Sized(p, tab) && b < p.buckets && 0 < n && 2 * n <= |rnd|
  {
    && OnTheWay(p, tab, b, item, rnd, n - 1)
    && var w := After(p, tab, b, item, rnd, n);
       w.Some? && (w.value.bucket == b || !FullBucket(p, w.value.tab, w.value.bucket))
  }

  /** What the eviction comes to when it ends with w. */
  ghost predicate ComesTo<K, V>(p: Shape<K>, b: nat, w: Walk<K, V>, r: Try<K, V>)
    requires Sized(p, w.tab) && w.bucket < p.buckets
  {
    if w.bucket == b then r == Cycle(w.tab, w.hand)
    else
      r.Inserted? && exists i: nat :: i < p.cells && w.tab[At(p, w.bucket, i)].None?
                                      && r.tab == w.tab[At(p, w.bucket, i) := Some(w.hand)]
  }

  /** An item that is evicted from one of its buckets may go to its other one. */
  lemma OtherIs<K>(p: Shape<K>, k: K, b: nat)
    requires p.buckets > 0 && (b == First(p, k) || b == Second(p, k))
    ensures {b, Other(p, k, b)} == {First(p, k), Second(p, k)}
  {
  }

  /** After one eviction the walk goes on like a walk of its own. */
  lemma {:induction false} AfterFirst<K, V>(p: Shape<K>, tab: seq<Cell<K, V>>, b: nat, item: Entry<K, V>, rnd: seq<nat>, n: nat)
    requires Sized(p, tab) && b < p.buckets && 2 * n + 2 <= |rnd| && After(p, tab, b, item, rnd, 1).Some?
    ensures
      var w := After(p, tab, b, item, rnd, 1).value;
      After(p, tab, b, item, rnd, n + 1) == After(p, w.tab, w.bucket, w.hand, rnd[2..], n)
    decreases n
  {
    hide At, Around, Other;
    if n > 0 {
      AfterFirst(p, tab, b, item, rnd, n - 1);
      assert rnd[2..][2 * n - 2] == rnd[2 * n];
    }
  }

  lemma FreeIsFree<K, V>(p: Shape<K>, tab: seq<Cell<K, V>>, b: nat, item: Entry<K, V>, offset: nat)
    requires Sized(p, tab) && b < p.buckets
    ensures
      var t := TryBucket(p, tab, b, item, offset);
      if FullBucket(p, tab, b) then t.None?
      else t.Some? && exists i: nat :: i < p.cells && tab[At(p, b, i)].None? && t.value == tab[At(p, b, i) := Some(item)]
  {
    var j := Free(p, tab, b, offset, 0);
    if j == p.cells { NoneFree(p, tab, b, offset); }
    else { assert Around(j, offset, p.cells) < p.cells; }
    hide At, Around;
  }

  /** One eviction. */
  lemma FirstEviction<K, V>(p: Shape<K>, tab: seq<Cell<K, V>>, arg: nat, b: nat, item: Entry<K, V>, rnd: seq<nat>)
    requires Sized(p, tab) && arg < p.buckets && b < p.buckets && FullBucket(p, tab, b) && |rnd| >= 2
    ensures After(p, tab, b, item, rnd, 1).Some?
    ensures
      var w, r := After(p, tab, b, item, rnd, 1).value, Evict(p, tab, arg, b, item, rnd);
      if w.bucket == arg then r == Cycle(w.tab, w.hand)
      else if FullBucket(p, w.tab, w.bucket) then r == Evict(p, w.tab, arg, w.bucket, w.hand, rnd[2..])
      else ComesTo(p, arg, w, r)
  {
    hide At, Around, FullBucket, Free;
    FullCell(p, tab, b, Around(0, rnd[0], p.cells));
    assert After(p, tab, b, item, rnd, 0) == Some(Walk(tab, item, b));
    var w := After(p, tab, b, item, rnd, 1).value;
    FreeIsFree(p, w.tab, w.bucket, w.hand, rnd[1]);
  }

  /** The eviction comes to just what its walk comes to, for every length of the walk. */
  lemma {:induction false} EvictWalks<K, V>(p: Shape<K>, tab: seq<Cell<K, V>>, arg: nat, b: nat, item: Entry<K, V>, rnd: seq<nat>, n: nat)
    requires Sized(p, tab) && arg < p.buckets && b < p.buckets && FullBucket(p, tab, b) && 0 < n && 2 * n <= |rnd|
    requires forall k :: 0 < k < n ==>
                           var w := After(p, tab, b, item, rnd, k);
                           w.Some? && w.value.bucket != arg && FullBucket(p, w.value.tab, w.value.bucket)
    requires
      var w := After(p, tab, b, item, rnd, n);
      w.Some? && (w.value.bucket == arg || !FullBucket(p, w.value.tab, w.value.bucket))
    ensures ComesTo(p, arg, After(p, tab, b, item, rnd, n).value, Evict(p, tab, arg, b, item, rnd))
    decreases n
  {
    hide At, Around, FullBucket, Free, Evict, Other, After, ComesTo;
    FirstEviction(p, tab, arg, b, item, rnd);
    var w := After(p, tab, b, item, rnd, 1).value;
    if n == 1 {
      if w.bucket == arg { CycleComes(p, arg, w); }
    } else {
      forall k: nat | k < n ensures After(p, tab, b, item, rnd, k + 1) == After(p, w.tab, w.bucket, w.hand, rnd[2..], k) {
        AfterFirst(p, tab, b, item, rnd, k);
      }
      assert After(p, tab, b, item, rnd, (n - 1) + 1) == After(p, w.tab, w.bucket, w.hand, rnd[2..], n - 1);
      EvictWalks(p, w.tab, arg, w.bucket, w.hand, rnd[2..], n - 1);
    }
  }

  lemma CycleComes<K, V>(p: Shape<K>, b: nat, w: Walk<K, V>)
    requires Sized(p, w.tab) && w.bucket < p.buckets && w.bucket == b
    ensures ComesTo(p, b, w, Cycle(w.tab, w.hand))
  {
  }

  /** An eviction ends with the first bucket on its walk that has room, where the item then in hand is put, or when it is back at
      the bucket where it began. */
  lemma EvictExactly<K, V>(p: Shape<K>, tab: seq<Cell<K, V>>, b: nat, item: Entry<K, V>, rnd: seq<nat>, n: nat)
    requires Sized(p, tab) && b < p.buckets && FullBucket(p, tab, b) && 0 < n && 2 * n <= |rnd| && Ends(p, tab, b, item, rnd, n)
    ensures ComesTo(p, b, After(p, tab, b, item, rnd, n).value, Evict(p, tab, b, b, item, rnd))
  {
    hide After, FullBucket, ComesTo, Evict;
    EvictWalks(p, tab, b, b, item, rnd, n);
  }

  // ----- when there is room for all -----

  function Cleared<K, V>(p: Shape<K>, tab: seq<Cell<K, V>>, b: nat, n: nat): (t: seq<Cell<K, V>>)
    requires Sized(p, tab) && b < p.buckets && n <= p.cells
    ensures |t| == |tab|
  {
    if n == 0 then tab else Cleared(p, tab, b, n - 1)[At(p, b, n - 1) := None]
  }

  lemma {:induction false} ClearedAt<K, V>(p: Shape<K>, tab: seq<Cell<K, V>>, b: nat, n: nat, i: nat)
    requires Sized(p, tab) && b < p.buckets && n <= i < p.cells
    ensures Cleared(p, tab, b, n)[At(p, b, i)] == tab[At(p, b, i)]
  {
    hide At;
    if n > 0 {
      ClearedAt(p, tab, b, n - 1, i);
      if At(p, b, i) == At(p, b, n - 1) { AtUnique(p, b, i, b, n - 1); }
    }
  }

  lemma {:induction false} FullHolds<K, V>(p: Shape<K>, tab: seq<Cell<K, V>>, b: nat, n: nat)
    requires Sized(p, tab) && b < p.buckets && FullBucket(p, tab, b) && n <= p.cells
    ensures |Items(tab)| == |Items(Cleared(p, tab, b, n))| + n
  {
    hide At, Items;
    if n > 0 {
      FullHolds(p, tab, b, n - 1);
      FullCell(p, tab, b, n - 1);
      ClearedAt(p, tab, b, n - 1, n - 1);
      OneCleared(Cleared(p, tab, b, n - 1), At(p, b, n - 1));
    }
  }

  lemma OneCleared<K, V>(tab: seq<Cell<K, V>>, c: nat)
    requires c < |tab| && tab[c].Some?
    ensures |Items(tab)| == |Items(tab[c := None])| + 1
  {
    ItemsUpdate(tab, c, None);
    hide Items;
    assert |Items(tab[c := None]) + Held(tab[c])| == |Items(tab) + Held(None)|;
  }

  /** A bucket is full only if the table holds as many items as a bucket has cells. */
  lemma FewLeaveRoom<K, V>(p: Shape<K>, tab: seq<Cell<K, V>>, b: nat)
    requires Sized(p, tab) && b < p.buckets && |Items(tab)| < p.cells
    ensures !FullBucket(p, tab, b)
  {
    if FullBucket(p, tab, b) { FullHolds(p, tab, b, p.cells); }
  }

  // ----- filling a table -----

  /** The items of a table, cell by cell. */
  function InOrder<K, V>(tab: seq<Cell<K, V>>): seq<Entry<K, V>> {
    if tab == [] then [] else InOrder(tab[..|tab| - 1]) + if tab[|tab| - 1].Some? then [tab[|tab| - 1].value] else []
  }

  lemma {:induction false} EvictSized<K, V>(p: Shape<K>, tab: seq<Cell<K, V>>, arg: nat, b: nat, item: Entry<K, V>, rnd: seq<nat>)
    requires Sized(p, tab) && arg < p.buckets && b < p.buckets && FullBucket(p, tab, b)
    ensures var r := Evict(p, tab, arg, b, item, rnd); r.Inserted? || r.Cycle? ==> |r.tab| == |tab|
    decreases |rnd|
  {
    hide At, Around, FullBucket, Free, Evict;
    if |rnd| >= 2 {
      FirstEviction(p, tab, arg, b, item, rnd);
      var w := After(p, tab, b, item, rnd, 1).value;
      if w.bucket != arg && FullBucket(p, w.tab, w.bucket) { EvictSized(p, w.tab, arg, w.bucket, w.hand, rnd[2..]); }
    } else {
      EvictStalls(p, tab, arg, b, item, rnd);
    }
  }

  lemma EvictStalls<K, V>(p: Shape<K>, tab: seq<Cell<K, V>>, arg: nat, b: nat, item: Entry<K, V>, rnd: seq<nat>)
    requires Sized(p, tab) && arg < p.buckets && b < p.buckets && FullBucket(p, tab, b) && |rnd| < 2
    ensures Evict(p, tab, arg, b, item, rnd) == Stalled
  {
  }

  lemma TrySized<K, V>(p: Shape<K>, tab: seq<Cell<K, V>>, item: Entry<K, V>, rnd: seq<nat>)
    requires Sized(p, tab)
    ensures var r := TryInsert(p, tab, item, rnd); r.Inserted? || r.Cycle? ==> Sized(p, r.tab)
  {
    hide At, Around, FullBucket, Free, Evict;
    if |rnd| >= 2 {
      var b := Second(p, item.key);
      if TryBucket(p, tab, b, item, rnd[1]).None? {
        NoneFree(p, tab, b, rnd[1]);
        EvictSized(p, tab, b, b, item, rnd[2..]);
      }
    }
  }

  /** The first n items are put in, one attempt after the other; or else what the first attempt comes to that puts none in. */
  function Refill<K, V>(p: Shape<K>, tab: seq<Cell<K, V>>, items: seq<Entry<K, V>>, random: nat -> seq<nat>, prng: nat, n: nat)
    : (r: Try<K, V>)
    requires Sized(p, tab) && n <= |items|
    ensures r.Inserted? ==> Sized(p, r.tab)
    decreases n
  {
    if n == 0 then Inserted(tab)
    else
      var r := Refill(p, tab, items, random, prng, n - 1);
      if r.Inserted? then
        TrySized(p, r.tab, items[n - 1], random(prng + n - 1));
        TryInsert(p, r.tab, items[n - 1], random(prng + n - 1))
      else r
  }

  lemma {:induction false} RefillStays<K, V>(p: Shape<K>, tab: seq<Cell<K, V>>, items: seq<Entry<K, V>>, random: nat -> seq<nat>,
                                             prng: nat, m: nat, n: nat)
    requires Sized(p, tab) && m <= n <= |items| && !Refill(p, tab, items, random, prng, m).Inserted?
    ensures Refill(p, tab, items, random, prng, n) == Refill(p, tab, items, random, prng, m)
    decreases n
  {
    hide TryInsert;
    if m < n { RefillStays(p, tab, items, random, prng, m, n - 1); }
  }

  /** As many items as a bucket has cells always get in, if the random numbers last for the first two looks. */
  lemma {:induction false} FewGetIn<K, V>(p: Shape<K>, tab: seq<Cell<K, V>>, items: seq<Entry<K, V>>, random: nat -> seq<nat>,
                                          prng: nat, n: nat)
    requires Sized(p, tab) && Placed(p, tab) && Items(tab) == multiset{} && n <= |items| <= p.cells
    requires forall k: nat :: |random(k)| >= 2
    ensures
      var r := Refill(p, tab, items, random, prng, n);
      r.Inserted? && Placed(p, r.tab) && |Items(r.tab)| == n
    decreases n
  {
    hide TryInsert, Placed, Items, FullBucket;
    if n > 0 {
      FewGetIn(p, tab, items, random, prng, n - 1);
      var t, item := Refill(p, tab, items, random, prng, n - 1).tab, items[n - 1];
      FewLeaveRoom(p, t, First(p, item.key));
      assert |random(prng + n - 1)| >= 2;
      RoomSuffices(p, t, item, random(prng + n - 1));
      InsertConserves(p, t, item, random(prng + n - 1));
    }
  }

  lemma InOrderNext<K, V>(t: seq<Cell<K, V>>, i: nat)
    requires i < |t|
    ensures InOrder(t[..i + 1]) == InOrder(t[..i]) + if t[i].Some? then [t[i].value] else []
  {
    assert t[..i + 1][..i] == t[..i];
  }

  lemma {:induction false} InOrderPrefix<K, V>(t: seq<Cell<K, V>>, i: nat)
    requires i <= |t|
    ensures InOrder(t[..i]) <= InOrder(t)
    decreases |t| - i
  {
    if i < |t| {
      InOrderPrefix(t, i + 1);
      InOrderNext(t, i);
    } else {
      assert t[..i] == t;
    }
  }

  lemma {:induction false} InOrderItems<K, V>(t: seq<Cell<K, V>>)
    ensures multiset(InOrder(t)) == Items(t) && |InOrder(t)| == |Items(t)|
  {
    if t != [] { InOrderItems(t[..|t| - 1]); }
  }

  /** How many allocations succeed before the first that does not. */
  function Leading(allocs: seq<bool>): (n: nat)
    ensures n <= |allocs|
  {
    if allocs == [] || !allocs[0] then 0 else 1 + Leading(allocs[1..])
  }
}
