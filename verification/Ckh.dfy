/** The cuckoo hash table of ckh.c, updated in place. */
module Ckh {
  import opened Wrappers
  import opened Entries
  import opened Division
  import opened ReverseBits
  import opened Cuckoo
  import opened CuckooWalk

  /** What an insertion or a rebuild comes to.  Unfinished stands for an eviction that is still going on
      when the random numbers run out. */
  datatype Outcome = Done | OutOfSpace | Unfinished

  class Ckh<K(==), V> {
    const h1: K -> nat
    const h2: K -> nat
    /** Cells of a bucket. */
    const cells: nat
    /** The random numbers drawn by the n-th attempt to insert. */
    const random: nat -> seq<nat>
    const lgMinBuckets: nat

    var tab: array<Cell<K, V>>
    var count: nat
    var lgCurBuckets: nat
    var prng: nat

    constructor (h1: K -> nat, h2: K -> nat, cells: nat, random: nat -> seq<nat>, lg: nat)
      requires cells > 0
      ensures Valid() && fresh(tab) && Items(tab[..]) == multiset{}
    {
      this.h1, this.h2, this.cells, this.random, this.lgMinBuckets := h1, h2, cells, random, lg;
      NonZero(P(lg), cells);
      tab := new Cell<K, V>[P(lg) * cells](_ => None);
      count, lgCurBuckets, prng := 0, lg, 0;
      new;
      EmptyTable(Now(), tab[..]);
    }

    function ShapeFor(lg: nat): Shape<K>
      reads this
    {
      Shape(h1, h2, cells, P(lg))
    }

    function Now(): Shape<K>
      reads this
    {
      ShapeFor(lgCurBuckets)
    }

    /** A new table with 2^lg buckets takes these items, each with the next of the attempts. */
    ghost predicate Takes(lg: nat, items: seq<Entry<K, V>>, attempt: nat)
    {
      cells > 0 &&
      (NonZero(P(lg), cells);
       Refill(Shape(h1, h2, cells, P(lg)), NoCells(P(lg) * cells), items, random, attempt, |items|).Inserted?)
    }

    /** No more items than a bucket has cells are always taken. */
    lemma FewAreTaken(lg: nat, items: seq<Entry<K, V>>, attempt: nat)
      requires cells > 0 && |items| <= cells && forall k: nat :: |random(k)| >= 2
      ensures Takes(lg, items, attempt)
    {
      var p: Shape<K> := Shape(h1, h2, cells, P(lg));
      NonZero(P(lg), cells);
      EmptyTable<K, V>(p, NoCells(P(lg) * cells));
      FewGetIn(p, NoCells(P(lg) * cells), items, random, attempt, |items|);
    }

    /** The table is in order. */
    ghost predicate Orderly()
      reads this, tab
    {
      Sized(Now(), tab[..]) && Placed(Now(), tab[..])
    }

    ghost predicate Valid()
      reads this, tab
    {
      Orderly() && count == |Items(tab[..])| && Unique(Items(tab[..]))
    }

    /** Put an item into a bucket if there is a free cell; true if there is none. */
    method TryBucketInsert(bucket: nat, item: Entry<K, V>, offset: nat) returns (full: bool)
      requires Sized(Now(), tab[..]) && bucket < P(lgCurBuckets)
      modifies this`count, tab
      ensures
        var t := TryBucket(Now(), old(tab[..]), bucket, item, offset);
        full == t.None? && tab[..] == (if full then old(tab[..]) else t.value) && count == old(count) + if full then 0 else 1
    {
      hide At, Around;
      var p := Now();
      var i := 0;
      while i < cells
        invariant 0 <= i <= cells && tab[..] == old(tab[..]) && count == old(count)
        invariant Free(p, tab[..], bucket, offset, i) == Free(p, tab[..], bucket, offset, 0)
      {
        var c := At(p, bucket, Around(i, offset, cells));
        if tab[c].None? {
          tab[c] := Some(item);
          count := count + 1;
          return false;
        }
        i := i + 1;
      }
      full := true;
    }

    /** Evict and relocate until there is room, or the first bucket comes around again; then the item in
        hand is given back. */
    method EvictRelocInsert(arg: nat, item: Entry<K, V>, rnd: seq<nat>) returns (r: Outcome, hand: Entry<K, V>)
      requires Sized(Now(), tab[..]) && arg < P(lgCurBuckets) && FullBucket(Now(), tab[..], arg)
      modifies this`count, tab
      ensures
        var t := Evict(Now(), old(tab[..]), arg, arg, item, rnd);
        match t
        case Inserted(u) => r == Done && tab[..] == u && count == old(count) + 1
        case Cycle(u, h) => r == OutOfSpace && tab[..] == u && hand == h && count == old(count)
        case Stalled => r == Unfinished
    {
      hide At, Around, FullBucket, Free;
      var p, left := Now(), rnd;
      var bucket: nat := arg;
      hand := item;
      while |left| >= 2
        invariant Sized(p, tab[..]) && bucket < p.buckets && FullBucket(p, tab[..], bucket) && count == old(count)
        invariant Evict(p, tab[..], arg, bucket, hand, left) == Evict(p, old(tab[..]), arg, arg, item, rnd)
        decreases |left|
      {
        ghost var before := tab[..];
        FullCell(p, tab[..], bucket, Around(0, left[0], cells));
        var c := At(p, bucket, Around(0, left[0], cells));
        var out := tab[c].value;
        tab[c] := Some(hand);
        assert tab[..] == before[c := Some(hand)];
        hand := out;
        var t := Other(p, hand.key, bucket);
        if t == arg { return OutOfSpace, hand; }
        bucket := t;
        var full := TryBucketInsert(bucket, hand, left[1]);
        if !full { return Done, hand; }
        NoneFree(p, tab[..], bucket, left[1]);
        left := left[2..];
      }
      r := Unfinished;
    }

    /** Try to insert an item; out of space means that the item given back is not in the table. */
    method Attempt(item: Entry<K, V>) returns (r: Outcome, hand: Entry<K, V>)
      requires Sized(Now(), tab[..])
      modifies this`count, this`prng, tab
      ensures prng == old(prng) + 1
      ensures
        var t := Cuckoo.TryInsert(Now(), old(tab[..]), item, random(old(prng)));
        match t
        case Inserted(u) => r == Done && tab[..] == u && count == old(count) + 1
        case Cycle(u, h) => r == OutOfSpace && tab[..] == u && hand == h && count == old(count)
        case Stalled => r == Unfinished
    {
      hide FullBucket, Evict, TryBucket;
      var p, rnd := Now(), random(prng);
      prng := prng + 1;
      hand := item;
      if |rnd| < 2 { return Unfinished, hand; }
      var full := TryBucketInsert(First(p, item.key), item, rnd[0]);
      if !full { return Done, hand; }
      full := TryBucketInsert(Second(p, item.key), item, rnd[1]);
      if !full { return Done, hand; }
      TryBucketNone(p, tab[..], Second(p, item.key), item, rnd[1]);
      r, hand := EvictRelocInsert(Second(p, item.key), item, rnd[2..]);
    }

    /** A free cell in one of the two buckets of a key. */
    ghost predicate Room(k: K)
      requires Orderly()
      reads this, tab
    {
      !FullBucket(Now(), tab[..], First(Now(), k)) || !FullBucket(Now(), tab[..], Second(Now(), k))
    }

    /** Attempt, in terms of what the table holds.  What is in hand after failing with a new item is an old one. */
    method TryInsert(item: Entry<K, V>) returns (r: Outcome, hand: Entry<K, V>)
      requires Orderly()
      modifies this`count, this`prng, tab
      ensures old(Room(item.key)) && |random(old(prng))| >= 2 ==> r == Done
      ensures r == OutOfSpace && item !in old(Items(tab[..])) ==> hand != item && hand in old(Items(tab[..]))
      ensures
        match r
        case Done => Orderly() && Items(tab[..]) == old(Items(tab[..])) + multiset{item} && count == old(count) + 1
        case OutOfSpace =>
          Orderly() && Items(tab[..]) + multiset{hand} == old(Items(tab[..])) + multiset{item} && count == old(count)
        case Unfinished => true
      ensures prng == old(prng) + 1
      ensures
        match Cuckoo.TryInsert(Now(), old(tab[..]), item, random(old(prng)))
        case Inserted(u) => r == Done && tab[..] == u
        case Cycle(_, _) => r == OutOfSpace
        case Stalled => r == Unfinished
      ensures r == OutOfSpace ==> old(Items(tab[..])) != multiset{}
    {
      hide Cuckoo.TryInsert, Sized, Placed, Items, FullBucket;
      if Items(tab[..]) == multiset{} { EmptyHasRoom(Now(), tab[..], item, random(prng)); }
      InsertConserves(Now(), tab[..], item, random(prng));
      if Room(item.key) && |random(prng)| >= 2 { RoomSuffices(Now(), tab[..], item, random(prng)); }
      if Cuckoo.TryInsert(Now(), tab[..], item, random(prng)).Cycle? && item !in Items(tab[..]) {
        FailureLosesOld(Now(), tab[..], item, random(prng));
      }
      r, hand := Attempt(item);
    }

    /** Fill the new table with the items of an old one.  When that fails the count is as before. */
    method Rebuild(old_: array<Cell<K, V>>) returns (r: Outcome)
      requires Orderly() && Items(tab[..]) == multiset{} && old_ != tab && count == |Items(old_[..])|
      modifies this`count, this`prng, tab
      ensures r == Done ==> Orderly() && Items(tab[..]) == Items(old_[..])
      ensures r != Unfinished ==> count == old(count)
      ensures prng >= old(prng) + if old(count) > 0 then 1 else 0
      ensures
        var items := InOrder(old_[..]);
        match Refill(Now(), old(tab[..]), items, random, old(prng), |items|)
        case Inserted(u) => r == Done && tab[..] == u
        case Cycle(_, _) => r == OutOfSpace
        case Stalled => r == Unfinished
    {
      hide Sized, Placed, Items, Cuckoo.TryInsert, Refill, InOrder;
      ghost var p, t0, was := Now(), tab[..], old_[..];
      ghost var items := InOrder(was);
      InOrderItems(was);
      RefillNone(p, t0, items, random, prng);
      var total := count;
      count := 0;
      var i, nins := 0, 0;
      NoneYet(was);
      NoneInOrder(was);
      while nins < total
        invariant 0 <= i <= old_.Length && 0 <= nins <= total && count == nins && total == |Items(was)|
        invariant Orderly() && Items(tab[..]) == Items(was[..i]) && nins == |Items(tab[..])|
        invariant old_[..] == was && Now() == p && prng == old(prng) + nins
        invariant nins == |InOrder(was[..i])| && Refill(p, t0, items, random, old(prng), nins) == Inserted(tab[..])
        decreases old_.Length - i
      {
        NotAllYet(was, i);
        NextCell(was, i);
        assert old_[i] == was[i];
        if old_[i].Some? {
          NextItem(was, i);
          RefillNext(p, t0, items, random, old(prng), nins);
          var hand;
          r, hand := TryInsert(old_[i].value);
          if r != Done { RefillStays(p, t0, items, random, old(prng), nins + 1, |items|); }
          if r == Unfinished { return; }
          if r == OutOfSpace {
            count := total;
            return;
          }
          nins := nins + 1;
        } else {
          NoItem(was, i);
        }
        i := i + 1;
      }
      AllThere(was, i);
      r := Done;
    }

    /** Move to a larger table; allocs tells which allocations succeed.  Failing leaves everything as it was. */
    method Grow(allocs: seq<bool>) returns (r: Outcome, left: seq<bool>)
      requires Orderly() && count == |Items(tab[..])|
      modifies this`tab, this`count, this`prng, this`lgCurBuckets
      ensures |left| < |allocs| || r == OutOfSpace
      ensures allocs == [] || !allocs[0] ==> r == OutOfSpace
      ensures r == Done ==> lgCurBuckets > old(lgCurBuckets)
      ensures r == Done ==> Orderly() && fresh(tab) && Items(tab[..]) == old(Items(tab[..])) && count == old(count)
      ensures r == OutOfSpace ==> tab == old(tab) && lgCurBuckets == old(lgCurBuckets) && count == old(count)
      ensures prng >= old(prng) && |left| <= |allocs| && Leading(allocs) >= |allocs| - |left|
      ensures r == OutOfSpace && old(count) > 0 ==> prng >= old(prng) + Leading(allocs)
      ensures r == Done ==> lgCurBuckets <= old(lgCurBuckets) + (|allocs| - |left|) && Leading(allocs) == |allocs| - |left| + Leading(left)
      ensures r == Done && old(count) > 0 ==> prng >= old(prng) + (|allocs| - |left|)
      ensures
        allocs != [] && allocs[0] && Takes(old(lgCurBuckets) + 1, InOrder(old(tab[..])), old(prng))
        ==> r == Done && lgCurBuckets == old(lgCurBuckets) + 1
    {
      hide Sized, Placed, Items, Takes, InOrder;
      var lg := lgCurBuckets;
      ghost var lgPrev, total, was, first := lgCurBuckets, count, tab[..], prng;
      left := allocs;
      while true
        invariant tab == old(tab) && tab[..] == old(tab[..]) && lgCurBuckets == lgPrev && count == total && |left| <= |allocs|
        invariant Orderly() && count == |Items(tab[..])|
        invariant lg >= lgPrev && (left == allocs || (allocs != [] && allocs[0]))
        invariant lg == lgPrev + (|allocs| - |left|) && Leading(allocs) == |allocs| - |left| + Leading(left)
        invariant prng >= old(prng) + if total > 0 then |allocs| - |left| else 0
        invariant |left| == |allocs| ==> prng == first
        invariant |left| < |allocs| ==> !Takes(lgPrev + 1, InOrder(was), first)
        invariant tab[..] == was
        decreases |left|
      {
        lg := lg + 1;
        if left == [] || !left[0] { return OutOfSpace, left; }
        left := left[1..];
        r := MoveTo(lg);
        if r != OutOfSpace { return; }
      }
    }

    /** Swap in a new table with 2^lg buckets and fill it with the items; if that fails, go back to the old table. */
    method MoveTo(lg: nat) returns (r: Outcome)
      requires Orderly() && count == |Items(tab[..])|
      modifies this`tab, this`count, this`prng, this`lgCurBuckets
      ensures r == Done <==> Takes(lg, InOrder(old(tab[..])), old(prng))
      ensures r == Done ==> Orderly() && fresh(tab) && Items(tab[..]) == old(Items(tab[..])) && lgCurBuckets == lg
      ensures r == OutOfSpace ==> tab == old(tab) && lgCurBuckets == old(lgCurBuckets)
      ensures r != Unfinished ==> count == old(count)
      ensures old(tab[..]) == old(tab)[..] && prng >= old(prng) + if old(count) > 0 then 1 else 0
    {
      hide Sized, Placed, Items, Refill, InOrder;
      HasCells();
      var lgPrev := lgCurBuckets;
      ghost var was, first := tab[..], prng;
      var oldTab := SwapIn(lg);
      r := Rebuild(oldTab);
      assert oldTab[..] == was;
      TakesIs(lg, InOrder(was), first);
      if r == OutOfSpace {
        tab := oldTab;
        lgCurBuckets := lgPrev;
      }
    }

    lemma HasCells()
      requires Orderly()
      ensures cells > 0
    {
    }

    lemma TakesIs(lg: nat, items: seq<Entry<K, V>>, attempt: nat)
      requires cells > 0
      ensures Sized(ShapeFor(lg), NoCells<K, V>(P(lg) * cells))
      ensures Takes(lg, items, attempt) <==> Refill(ShapeFor(lg), NoCells(P(lg) * cells), items, random, attempt, |items|).Inserted?
    {
      NonZero(P(lg), cells);
    }

    /** Install an empty table with 2^lg buckets and give the old one back. */
    method SwapIn(lg: nat) returns (oldTab: array<Cell<K, V>>)
      requires cells > 0
      modifies this`tab, this`lgCurBuckets
      ensures oldTab == old(tab) && oldTab[..] == old(tab[..]) && fresh(tab) && lgCurBuckets == lg
      ensures Orderly() && Items(tab[..]) == multiset{} && tab[..] == NoCells(P(lg) * cells)
    {
      oldTab := tab;
      NonZero(P(lg), cells);
      tab := new Cell<K, V>[P(lg) * cells](_ => None);
      lgCurBuckets := lg;
      EmptyTable(Now(), tab[..]);
    }

    /** Halve the table if that works out. */
    method Shrink(alloc: bool) returns (r: Outcome)
      requires Orderly() && count == |Items(tab[..])| && lgCurBuckets > 0
      modifies this`tab, this`count, this`prng, this`lgCurBuckets
      ensures r != Unfinished ==> Orderly() && (tab == old(tab) || fresh(tab)) && Items(tab[..]) == old(Items(tab[..]))
      ensures r != Unfinished ==> count == old(count)
      ensures r == Done <==> alloc && Takes(old(lgCurBuckets) - 1, InOrder(old(tab[..])), old(prng))
      ensures r == Done ==> lgCurBuckets == old(lgCurBuckets) - 1 && fresh(tab)
      ensures r == OutOfSpace ==> lgCurBuckets == old(lgCurBuckets) && tab == old(tab) && tab[..] == old(tab[..])
    {
      hide Sized, Placed, Items, Takes, InOrder;
      if !alloc { return OutOfSpace; }
      r := MoveTo(lgCurBuckets - 1);
    }

    /** Insert a new key.  If the table cannot be grown, the item in hand is lost: an old one, unless a larger table
        was made first and its failed insertion gave the new one back.  The map is as it was only in that case. */
    method Insert(item: Entry<K, V>, allocs: seq<bool>) returns (r: Outcome, lost: Entry<K, V>)
      requires Valid() && !HasKey(Items(tab[..]), item.key)
      modifies this, tab
      ensures old(Room(item.key)) && |random(old(prng))| >= 2 ==> r == Done
      ensures r == Done ==> Valid() && MapOf(Items(tab[..])) == old(MapOf(Items(tab[..])))[item.key := item.value]
      ensures r == OutOfSpace ==> Valid() && count == old(count)
                                  && Items(tab[..]) + multiset{lost} == old(Items(tab[..])) + multiset{item}
      ensures r == OutOfSpace && (lgCurBuckets == old(lgCurBuckets) || allocs == [] || !allocs[0])
              ==> lost != item && lost in old(Items(tab[..]))
      ensures r == OutOfSpace ==> (MapOf(Items(tab[..])) == old(MapOf(Items(tab[..]))) <==> lost == item)
      ensures r == OutOfSpace ==> prng > old(prng) + Leading(allocs)
    {
      hide Sized, Placed, Items, Unique, MapOf, HasKey, FullBucket, First, Second, Takes, Cuckoo.TryInsert;
      ghost var before := Items(tab[..]);
      ghost var all := before + multiset{item};
      AddNew(before, item, all);
      var left := allocs;
      lost := item;
      while true
        invariant Orderly() && (tab == old(tab) || fresh(tab)) && Items(tab[..]) + multiset{lost} == all
        invariant count == |Items(tab[..])| == |before| && lgCurBuckets >= old(lgCurBuckets)
        invariant if lgCurBuckets == old(lgCurBuckets)
                  then lost == item && Items(tab[..]) == before && left == allocs && tab[..] == old(tab[..]) && prng == old(prng)
                  else allocs != [] && allocs[0] && !(old(Room(item.key)) && |random(old(prng))| >= 2)
        invariant prng + Leading(left) >= old(prng) + Leading(allocs)
        decreases |left|
      {
        r, lost := TryInsert(lost);
        if r == Unfinished { return; }
        if r == Done { return; }
        r, left := Grow(left);
        if r == Unfinished { return; }
        if r == OutOfSpace {
          LostChangesMap(before, item, Items(tab[..]), lost, all);
          return;
        }
      }
    }

    /** The cell of a key. */
    method FindCell(k: K) returns (c: Option<nat>)
      requires Sized(Now(), tab[..])
      ensures c == Search(Now(), tab[..], k)
    {
      hide At;
      var p := Now();
      c := SearchBucket(First(p, k), k);
      if c.Some? { return; }
      c := SearchBucket(Second(p, k), k);
    }

    method SearchBucket(b: nat, k: K) returns (c: Option<nat>)
      requires Sized(Now(), tab[..]) && b < P(lgCurBuckets)
      ensures
        var i := InBucket(Now(), tab[..], b, k, 0);
        c == if i < cells then Some(At(Now(), b, i)) else None
    {
      hide At;
      var p := Now();
      var i := 0;
      while i < cells
        invariant 0 <= i <= cells && InBucket(p, tab[..], b, k, i) == InBucket(p, tab[..], b, k, 0)
      {
        var cell := tab[At(p, b, i)];
        if cell.Some? && cell.value.key == k { return Some(At(p, b, i)); }
        i := i + 1;
      }
      c := None;
    }

    /** Look a key up. */
    method Find(k: K) returns (v: Option<V>)
      requires Valid()
      ensures v == var m := MapOf(Items(tab[..])); if k in m then Some(m[k]) else None
    {
      SearchFinds(Now(), tab[..], k);
      var c := FindCell(k);
      v := if c.Some? then Some(tab[c.value].value.value) else None;
    }

    lemma SomeFound(k: K)
      requires Valid()
      ensures Search(Now(), tab[..], k).Some? ==> k in MapOf(Items(tab[..]))
    {
      SearchFinds(Now(), tab[..], k);
    }

    lemma ShrinksIfFew()
      requires Valid() && lgCurBuckets > 0
      ensures count <= cells && (forall k: nat :: |random(k)| >= 2) ==> Takes(lgCurBuckets - 1, InOrder(tab[..]), prng)
    {
      hide Placed, Items, Unique;
      InOrderItems(tab[..]);
      if count <= cells && forall k: nat :: |random(k)| >= 2 { FewAreTaken(lgCurBuckets - 1, InOrder(tab[..]), prng); }
    }

    /** Remove a key, and shrink the table when it has become sparse. */
    method Remove(k: K, alloc: bool) returns (v: Option<V>, r: Outcome)
      requires Valid()
      modifies this, tab
      ensures v.Some? <==> k in old(MapOf(Items(tab[..])))
      ensures v.Some? ==> v.value == old(MapOf(Items(tab[..])))[k]
      ensures r != Unfinished ==> Valid() && MapOf(Items(tab[..])) == old(MapOf(Items(tab[..]))) - {k}
      ensures
        var sparse := v.Some? && 4 * (old(count) - 1) < P(old(lgCurBuckets)) * cells && old(lgCurBuckets) > lgMinBuckets;
        && (r != Unfinished ==> lgCurBuckets == old(lgCurBuckets) - if sparse && r == Done then 1 else 0)
        && (!sparse ==> r == Done)
        && (sparse && alloc && old(count) - 1 <= cells && (forall k: nat :: |random(k)| >= 2) ==> r == Done)
    {
      hide Sized, Placed, Items, Unique, MapOf, HasKey, Search, Takes;
      r := Done;
      v := Find(k);
      var c := FindCell(k);
      if c.None? {
        NothingRemoved(Now(), tab[..], k);
        return;
      }
      SomeFound(k);
      Clear(c.value);
      if 4 * count < P(lgCurBuckets) * cells && lgCurBuckets > lgMinBuckets {
        ShrinksIfFew();
        r := Shrink(alloc);
      }
    }

    /** Empty a cell. */
    method Clear(c: nat)
      requires Valid() && c < tab.Length && tab[c].Some?
      modifies this`count, tab
      ensures Valid() && MapOf(Items(tab[..])) == old(MapOf(Items(tab[..]))) - {old(tab[c].value.key)}
      ensures count == old(count) - 1
    {
      hide Sized, Placed, Items, Unique, MapOf, HasKey;
      ghost var t, item := tab[..], tab[c].value;
      RemoveMap(Now(), t, c);
      tab[c] := None;
      assert tab[..] == t[c := None];
      count := count - 1;
    }
  }

  function NoCells<K, V>(n: nat): (t: seq<Cell<K, V>>)
    ensures |t| == n && forall i :: 0 <= i < n ==> t[i].None?
  {
    seq(n, _ => None)
  }

  lemma NoneInOrder<K, V>(t: seq<Cell<K, V>>)
    ensures InOrder(t[..0]) == []
  {
  }

  /** The next item, in order. */
  lemma NextItem<K, V>(t: seq<Cell<K, V>>, i: nat)
    requires i < |t| && t[i].Some?
    ensures |InOrder(t[..i + 1])| == |InOrder(t[..i])| + 1 && |InOrder(t[..i])| < |InOrder(t)|
    ensures InOrder(t)[|InOrder(t[..i])|] == t[i].value
  {
    InOrderNext(t, i);
    InOrderPrefix(t, i + 1);
  }

  lemma NoItem<K, V>(t: seq<Cell<K, V>>, i: nat)
    requires i < |t| && t[i].None?
    ensures InOrder(t[..i + 1]) == InOrder(t[..i])
  {
    InOrderNext(t, i);
  }

  /** An empty table has room. */
  lemma EmptyHasRoom<K, V>(p: Shape<K>, tab: seq<Cell<K, V>>, item: Entry<K, V>, rnd: seq<nat>)
    requires Sized(p, tab) && Items(tab) == multiset{}
    ensures !Cuckoo.TryInsert(p, tab, item, rnd).Cycle?
  {
    FewLeaveRoom(p, tab, First(p, item.key));
    if |rnd| >= 2 { RoomSuffices(p, tab, item, rnd); }
  }

  lemma RefillNone<K, V>(p: Shape<K>, tab: seq<Cell<K, V>>, items: seq<Entry<K, V>>, random: nat -> seq<nat>, prng: nat)
    requires Sized(p, tab)
    ensures Refill(p, tab, items, random, prng, 0) == Inserted(tab)
  {
  }

  lemma RefillNext<K, V>(p: Shape<K>, tab: seq<Cell<K, V>>, items: seq<Entry<K, V>>, random: nat -> seq<nat>, prng: nat, n: nat)
    requires Sized(p, tab) && n < |items| && Refill(p, tab, items, random, prng, n).Inserted?
    ensures
      var r := Refill(p, tab, items, random, prng, n);
      Sized(p, r.tab) && Refill(p, tab, items, random, prng, n + 1) == Cuckoo.TryInsert(p, r.tab, items[n], random(prng + n))
  {
    hide Cuckoo.TryInsert;
  }

  lemma RemoveMap<K, V>(p: Shape<K>, tab: seq<Cell<K, V>>, c: nat)
    requires Sized(p, tab) && Placed(p, tab) && Unique(Items(tab)) && c < |tab| && tab[c].Some?
    ensures Sized(p, tab[c := None]) && Placed(p, tab[c := None]) && Unique(Items(tab[c := None]))
    ensures MapOf(Items(tab[c := None])) == MapOf(Items(tab)) - {tab[c].value.key}
    ensures |Items(tab)| == |Items(tab[c := None])| + 1
  {
    hide Sized, Placed, Items, Unique, MapOf, HasKey;
    TakeOut(p, tab, c);
    OneMore(Items(tab[c := None]), tab[c].value, Items(tab));
    MapRemove(Items(tab[c := None]), tab[c].value, Items(tab));
  }

  lemma AddNew<K, V>(items: multiset<Entry<K, V>>, item: Entry<K, V>, all: multiset<Entry<K, V>>)
    requires all == items + multiset{item} && Unique(items) && !HasKey(items, item.key)
    ensures item !in items && |all| == |items| + 1
    ensures Unique(all) && MapOf(all) == MapOf(items)[item.key := item.value]
  {
    hide Unique, MapOf;
    MapAdd(items, item, all);
  }

  /** The map is the same only if what is lost is what was to be inserted. */
  lemma LostChangesMap<K, V>(before: multiset<Entry<K, V>>, item: Entry<K, V>, after: multiset<Entry<K, V>>,
                             lost: Entry<K, V>, all: multiset<Entry<K, V>>)
    requires all == before + multiset{item} == after + multiset{lost}
    requires Unique(before) && Unique(all) && !HasKey(before, item.key)
    ensures Unique(after)
    ensures MapOf(after) == MapOf(before) <==> lost == item
  {
    hide Unique, MapOf, HasKey;
    UniqueRemove(after, lost, all);
    MapAdd(before, item, all);
    MapRemove(after, lost, all);
    if lost == item {
      MapMinus(MapOf(before), item.key, item.value);
    } else {
      OneMore(before, item, all);
      OneMore(after, lost, all);
      assert lost in before;
    }
  }

  lemma NothingRemoved<K, V>(p: Shape<K>, tab: seq<Cell<K, V>>, k: K)
    requires Sized(p, tab) && Placed(p, tab) && Unique(Items(tab)) && Search(p, tab, k).None?
    ensures k !in MapOf(Items(tab)) && MapOf(Items(tab)) - {k} == MapOf(Items(tab))
  {
    SearchFinds(p, tab, k);
    hide Unique, Items, Search;
  }

  lemma TakeOut<K, V>(p: Shape<K>, tab: seq<Cell<K, V>>, c: nat)
    requires Sized(p, tab) && Placed(p, tab) && c < |tab| && tab[c].Some?
    ensures Sized(p, tab[c := None]) && Placed(p, tab[c := None])
    ensures Items(tab) == Items(tab[c := None]) + multiset{tab[c].value}
  {
    var b, i := CellOf(p, c);
    PutPlaced(p, tab, b, i, None);
    ItemsUpdate(tab, c, None);
  }

  lemma NoneYet<K, V>(t: seq<Cell<K, V>>)
    ensures Items(t[..0]) == multiset{}
  {
  }

  lemma NextCell<K, V>(t: seq<Cell<K, V>>, i: nat)
    requires i < |t|
    ensures Items(t[..i + 1]) == if t[i].Some? then Items(t[..i]) + multiset{t[i].value} else Items(t[..i])
  {
    assert t[..i + 1][..i] == t[..i];
  }

  lemma {:induction false} PrefixOf<K, V>(t: seq<Cell<K, V>>, i: nat)
    requires i <= |t|
    ensures Items(t[..i]) <= Items(t)
    decreases |t|
  {
    hide Items;
    if i < |t| {
      var n := |t| - 1;
      PrefixOf(t[..n], i);
      assert t[..n][..i] == t[..i];
      NextCell(t, n);
      assert t[..n + 1] == t;
    } else {
      assert t[..i] == t;
    }
  }

  lemma NotAllYet<K, V>(t: seq<Cell<K, V>>, i: nat)
    requires i <= |t| && |Items(t[..i])| < |Items(t)|
    ensures i < |t|
  {
    assert t[..|t|] == t;
  }

  lemma AllThere<K, V>(t: seq<Cell<K, V>>, i: nat)
    requires i <= |t| && |Items(t[..i])| == |Items(t)|
    ensures Items(t[..i]) == Items(t)
  {
    PrefixOf(t, i);
    SameSize(Items(t[..i]), Items(t));
  }

  lemma SameSize<T>(a: multiset<T>, b: multiset<T>)
    requires a <= b && |a| == |b|
    ensures a == b
  {
    assert b == a + (b - a);
  }

  lemma EmptyTable<K, V>(p: Shape<K>, tab: seq<Cell<K, V>>)
    requires Sized(p, tab) && forall i :: 0 <= i < |tab| ==> tab[i].None?
    ensures Placed(p, tab) && Items(tab) == multiset{}
  {
    NoItems(tab);
  }

  lemma {:induction false} NoItems<K, V>(tab: seq<Cell<K, V>>)
    requires forall i :: 0 <= i < |tab| ==> tab[i].None?
    ensures Items(tab) == multiset{}
  {
    if tab != [] { NoItems(tab[..|tab| - 1]); }
  }

  lemma TryBucketNone<K, V>(p: Shape<K>, tab: seq<Cell<K, V>>, b: nat, item: Entry<K, V>, offset: nat)
    requires Sized(p, tab) && b < p.buckets && TryBucket(p, tab, b, item, offset).None?
    ensures FullBucket(p, tab, b)
  {
    NoneFree(p, tab, b, offset);
  }

  lemma NonZero(a: nat, b: nat)
    requires a > 0 && b > 0
    ensures a * b > 0
  {
  }
}
