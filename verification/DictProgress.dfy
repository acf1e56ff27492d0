/** Rehashing goes on and comes to its end: what the operations of dict.c do to the tables themselves, and how large these
    are. */
module DictProgress {
  import opened Wrappers
  import opened Entries
  import opened DictTables
  import opened DictState

  // ----- one step -----

  /** One bucket has been moved, the first that was not empty; or table 0 was empty and table 1 has taken its place. */
  ghost predicate Moved<K, V>(st: St<K, V>, st': St<K, V>) {
    if st.used0 == 0 then st' == St(st.t1, st.used1, [], 0, -1, st.iterators)
    else
      var i := st'.rehashidx - 1;
      && 0 <= st.rehashidx <= i < |st.t0| && st.t0[i] != [] && (forall k :: st.rehashidx <= k < i ==> st.t0[k] == [])
      && st'.t0 == st.t0[i := []] && |st'.t1| == |st.t1| && Items(st'.t1) == Items(st.t1) + multiset(st.t0[i])
      && st'.iterators == st.iterators
  }

  lemma StepMoves<K, V>(hash: K -> nat, st: St<K, V>)
    requires Valid(hash, st) && Rehashing(st)
    ensures if st.iterators == 0 then Moved(st, RehashStep(hash, st)) else RehashStep(hash, st) == st
  {
    hide RehashOne;
    RehashPlace(hash, st);
    if st.used0 != 0 {
      RehashGoesOn(hash, st, 1);
      OneMoves(hash, st);
    }
  }

  lemma OneMoves<K, V>(hash: K -> nat, st: St<K, V>)
    requires Valid(hash, st) && Rehashing(st) && st.used0 != 0 && NextFull(st.t0, st.rehashidx) < |st.t0|
    ensures 0 <= st.rehashidx <= |st.t0| && st.t1 != [] && Moved(st, RehashOne(hash, st))
  {
    hide Items, Unique, MoveChain;
    MoveChainKeeps(hash, st.t1, st.t0[NextFull(st.t0, st.rehashidx)]);
  }

  // ----- operations -----

  /** The same rehash, further on. */
  predicate GoesOn<K, V>(st: St<K, V>, st': St<K, V>) {
    && Rehashing(st') && |st'.t0| == |st.t0| && |st'.t1| == |st.t1| && st'.rehashidx > st.rehashidx
    && st'.iterators == st.iterators
  }

  /** The rehash is over: table 1 has become table 0.  If there is another one, it is one to a larger table. */
  predicate Ended<K, V>(st: St<K, V>, st': St<K, V>) {
    |st'.t0| == |st.t1| && st'.iterators == st.iterators && (Rehashing(st') ==> |st'.t1| > |st'.t0|)
  }

  /** Nothing stands in the way of a step. */
  predicate Steps<K, V>(st: St<K, V>) { Rehashing(st) && st.iterators == 0 }

  predicate Progress<K, V>(st: St<K, V>, st': St<K, V>) {
    if st.used0 == 0 then Ended(st, st') else GoesOn(st, st')
  }

  lemma StepProgress<K, V>(hash: K -> nat, st: St<K, V>)
    requires Valid(hash, st) && Steps(st)
    ensures Progress(st, RehashStep(hash, st)) && (Rehashing(RehashStep(hash, st)) <==> st.used0 != 0)
  {
    StepMoves(hash, st);
    hide Valid, RehashStep, Items;
  }

  /** Finding a key. */
  lemma FindProgress<K, V>(hash: K -> nat, st: St<K, V>)
    requires Valid(hash, st) && Steps(st)
    ensures st.t0 != [] && Progress(st, RehashStep(hash, st)) && (Rehashing(RehashStep(hash, st)) <==> st.used0 != 0)
  {
    StepProgress(hash, st);
    TableSizes(hash, st);
    hide Valid, RehashStep;
  }

  lemma DeleteProgress<K, V>(hash: K -> nat, st: St<K, V>, k: K)
    requires Valid(hash, st) && Steps(st)
    ensures var st' := Delete(hash, st, k).0; Progress(st, st') && (Rehashing(st') <==> st.used0 != 0)
  {
    hide Valid, RehashStep, Delete, Lookup;
    StepProgress(hash, st);
    TableSizes(hash, st);
    DeleteIs(hash, st, k);
    var st1 := RehashStep(hash, st);
    if Lookup(hash, st1, k).Some? { RemoveSizes(hash, st1, k); }
  }

  lemma RemoveSizes<K, V>(hash: K -> nat, st: St<K, V>, k: K)
    requires Lookup(hash, st, k).Some?
    ensures
      var st' := Remove(hash, st, k);
      |st'.t0| == |st.t0| && |st'.t1| == |st.t1| && st'.rehashidx == st.rehashidx && st'.iterators == st.iterators
  {
  }

  lemma AssignSizes<K, V>(hash: K -> nat, st: St<K, V>, k: K, v: V)
    requires Lookup(hash, st, k).Some?
    ensures
      var st' := Assign(hash, st, k, v);
      |st'.t0| == |st.t0| && |st'.t1| == |st.t1| && st'.rehashidx == st.rehashidx && st'.iterators == st.iterators
  {
  }

  lemma InsertSizes<K, V>(hash: K -> nat, st: St<K, V>, e: Entry<K, V>)
    requires st.t0 != [] && (Rehashing(st) ==> st.t1 != [])
    ensures
      var st' := Insert(hash, st, e);
      && |st'.t0| == |st.t0| && |st'.t1| == |st.t1| && st'.rehashidx == st.rehashidx && st'.iterators == st.iterators
      && st'.used0 == st.used0 + if Rehashing(st) then 0 else 1
  {
  }

  /** What making room does. */
  lemma ExpandedSizes<K, V>(hash: K -> nat, st: St<K, V>, canResize: bool)
    requires Valid(hash, st) && st.t0 != []
    ensures
      var st' := ExpandIfNeeded(st, canResize);
      && st'.iterators == st.iterators && |st'.t0| == |st.t0| && st'.used0 == st.used0
      && (Rehashing(st) ==> st' == st)
      && (!Rehashing(st) && Rehashing(st') ==> |st'.t1| > |st'.t0| && st'.used0 > 0)
  {
    hide Valid;
  }

  lemma AddProgress<K, V>(hash: K -> nat, st: St<K, V>, canResize: bool, k: K, v: V)
    requires Valid(hash, st) && Steps(st)
    ensures
      var st' := Add(hash, st, canResize, k, v).0;
      Progress(st, st') && (st.used0 == 0 && Rehashing(st') ==> st'.used0 > 0)
  {
    hide Valid, RehashStep, Add, Lookup, ExpandIfNeeded, Insert;
    StepProgress(hash, st);
    TableSizes(hash, st);
    AddIs(hash, st, canResize, k, v);
    var st1 := RehashStep(hash, st);
    ExpandedSizes(hash, st1, canResize);
    var st2 := ExpandIfNeeded(st1, canResize);
    InsertSizes(hash, st2, Entry(k, v));
  }

  lemma ReplaceProgress<K, V>(hash: K -> nat, st: St<K, V>, canResize: bool, k: K, v: V)
    requires Valid(hash, st) && Steps(st)
    ensures var st' := Replace(hash, st, canResize, k, v).0; Ended(st, st') || (st.used0 != 0 && GoesOn(st, st'))
  {
    hide Valid, RehashStep, Add, Replace, Lookup, Assign;
    AddProgress(hash, st, canResize, k, v);
    ReplaceIs(hash, st, canResize, k, v);
    var st1 := Add(hash, st, canResize, k, v).0;
    if Rehashing(st1) { StepProgress(hash, st1); } else { StepIdle(hash, st1); }
    var st2 := RehashStep(hash, st1);
    if Lookup(hash, st2, k).Some? { AssignSizes(hash, st2, k, v); }
  }

  // ----- sizes -----

  /** The capacity is the least power of two, from the initial size on, that is not below what is asked for. */
  lemma {:induction false} NextPowerLeast(i: nat, size: int)
    requires IsPow2(i)
    ensures var r := NextPower(i, size); IsPow2(r) && r >= i && r >= size && (r == i || r < 2 * size)
    ensures forall q: nat :: IsPow2(q) && q >= i && q >= size ==> NextPower(i, size) <= q
    decreases size - i
  {
    if i < size {
      assert IsPow2(i * 2);
      NextPowerLeast(i * 2, size);
      forall q: nat | IsPow2(q) && q >= i && q >= size ensures q >= 2 * i { NextPow2(i, q); }
    }
  }

  /** Between a power of two and its double there is none. */
  lemma {:induction false} NextPow2(i: nat, q: nat)
    requires IsPow2(i) && IsPow2(q) && q > i
    ensures q >= 2 * i
    decreases i
  {
    if i > 1 { NextPow2(i / 2, q / 2); }
  }

  /** A table that is full when a key is added, or too full while resizing is not allowed, starts to grow to at least twice
      what it holds. */
  lemma AddGrows<K, V>(hash: K -> nat, st: St<K, V>, canResize: bool, k: K, v: V)
    requires Valid(hash, st) && !Rehashing(st) && st.t0 != []
    ensures
      var st' := Add(hash, st, canResize, k, v).0;
      && |st'.t0| == |st.t0|
      && (Rehashing(st') <==> st.used0 >= |st.t0| && (canResize || st.used0 / |st.t0| > DICT_FORCE_RESIZE_RATIO))
      && (Rehashing(st') ==> st'.rehashidx == 0 && 2 * st.used0 <= |st'.t1|
                             && (|st'.t1| == DICT_HT_INITIAL_SIZE || |st'.t1| < 4 * st.used0))
      && (canResize ==> Rehashing(st') || st'.used0 <= |st'.t0|)
  {
    hide Valid, RehashStep, Add, Lookup, Insert;
    StepIdle(hash, st);
    AddIs(hash, st, canResize, k, v);
    assert IsPow2(4) by { assert IsPow2(2); }
    NextPowerLeast(DICT_HT_INITIAL_SIZE, st.used0 * 2);
    InsertSizes(hash, ExpandIfNeeded(st, canResize), Entry(k, v));
  }
}
