/** What the operations of dict.c do to the two tables, and what that means for the map they represent. */
module DictState {
  import opened Wrappers
  import opened Entries
  import opened DictTables

  const DICT_HT_INITIAL_SIZE := 4
  const DICT_FORCE_RESIZE_RATIO := 5

  /** The fields of a dictionary: tables 0 and 1 with their counts, the next bucket to move (-1 when no
      rehashing is in progress), the number of safe iterators. */
  datatype St<K, V> = St(t0: Table<K, V>, used0: int, t1: Table<K, V>, used1: int, rehashidx: int, iterators: int)

  predicate Rehashing<K, V>(st: St<K, V>) { st.rehashidx != -1 }

  /** Everything both tables hold. */
  ghost function All<K, V>(st: St<K, V>): multiset<Entry<K, V>> { Items(st.t0) + Items(st.t1) }

  /** The tables are in order: sizes are powers of two, entries are where their hashes say, the counters
      are exact, the buckets already moved are empty. */
  ghost predicate Shape<K, V>(hash: K -> nat, st: St<K, V>) {
    && (st.t0 == [] || IsPow2(|st.t0|)) && (st.t1 == [] || IsPow2(|st.t1|))
    && Placed(hash, st.t0) && Placed(hash, st.t1)
    && st.used0 == |Items(st.t0)| && st.used1 == |Items(st.t1)|
    && (if Rehashing(st) then
          st.t0 != [] && st.t1 != [] && 0 <= st.rehashidx <= |st.t0|
          && forall i :: 0 <= i < st.rehashidx ==> st.t0[i] == []
        else st.t1 == [])
  }

  ghost predicate Valid<K, V>(hash: K -> nat, st: St<K, V>) { Shape(hash, st) && Unique(All(st)) }

  /** The map that a dictionary represents. */
  ghost function Contents<K, V>(hash: K -> nat, st: St<K, V>): map<K, V>
    requires Valid(hash, st)
  {
    MapOf(All(st))
  }

  function Empty<K, V>(): St<K, V> { St([], 0, [], 0, -1, 0) }

  // ----- expansion -----

  function NextPower(i: nat, size: int): (r: nat)
    requires i > 0
    ensures r >= i && r >= size && (IsPow2(i) ==> IsPow2(r))
    decreases size - i
  {
    if i >= size then i else assert IsPow2(i) ==> IsPow2(i * 2); NextPower(i * 2, size)
  }

  function NoBuckets<K, V>(n: nat): (t: Table<K, V>)
    ensures |t| == n
  {
    seq(n, _ => [])
  }

  predicate CanExpand<K, V>(st: St<K, V>, size: int) { !Rehashing(st) && st.used0 <= size }

  /** dictExpand: a first table, or a second one to move the entries to. */
  function Expand<K, V>(st: St<K, V>, size: int): St<K, V> {
    if !CanExpand(st, size) then st
    else
      var t := NoBuckets(NextPower(DICT_HT_INITIAL_SIZE, size));
      if st.t0 == [] then st.(t0 := t, used0 := 0) else st.(t1 := t, used1 := 0, rehashidx := 0)
  }

  /** Is the table so full that an insertion expands it? */
  predicate NeedsExpand<K, V>(st: St<K, V>, canResize: bool) {
    !Rehashing(st) && st.t0 != [] && st.used0 >= |st.t0| && (canResize || st.used0 / |st.t0| > DICT_FORCE_RESIZE_RATIO)
  }

  function ExpandIfNeeded<K, V>(st: St<K, V>, canResize: bool): St<K, V> {
    if Rehashing(st) then st
    else if st.t0 == [] then Expand(st, DICT_HT_INITIAL_SIZE)
    else if NeedsExpand(st, canResize) then Expand(st, st.used0 * 2)
    else st
  }

  lemma EmptyBuckets<K, V>(hash: K -> nat, n: nat)
    ensures Items(NoBuckets<K, V>(n)) == multiset{} && Placed(hash, NoBuckets<K, V>(n))
  {
    ItemsEmpty(NoBuckets<K, V>(n));
  }

  /** Expansion keeps the entries; it can only be refused while rehashing or for too small a size. */
  lemma ExpandKeeps<K, V>(hash: K -> nat, st: St<K, V>, size: int)
    requires Valid(hash, st)
    ensures Valid(hash, Expand(st, size)) && All(Expand(st, size)) == All(st)
  {
    EmptyBuckets<K, V>(hash, NextPower(DICT_HT_INITIAL_SIZE, size));
    ItemsEmpty(st.t1);
    assert IsPow2(DICT_HT_INITIAL_SIZE) by { assert IsPow2(2); }
    if CanExpand(st, size) && st.t0 == [] {
      assert Items(st.t0) == multiset{};
      assert st.t1 == [];
    }
  }

  lemma ExpandIfNeededKeeps<K, V>(hash: K -> nat, st: St<K, V>, canResize: bool)
    requires Valid(hash, st)
    ensures
      var st' := ExpandIfNeeded(st, canResize);
      Valid(hash, st') && All(st') == All(st) && st'.t0 != []
  {
    hide NeedsExpand, Valid, All, Expand;
    HasTable(hash, st, DICT_HT_INITIAL_SIZE);
    HasTable(hash, st, st.used0 * 2);
    ExpandKeeps(hash, st, DICT_HT_INITIAL_SIZE);
    ExpandKeeps(hash, st, st.used0 * 2);
  }

  /** A first table is made, and none is taken away. */
  lemma HasTable<K, V>(hash: K -> nat, st: St<K, V>, size: int)
    requires Valid(hash, st)
    ensures Rehashing(st) ==> st.t0 != []
    ensures st.t0 != [] || (size >= 0 && !Rehashing(st)) ==> Expand(st, size).t0 != []
  {
    hide Unique, Placed;
    if st.t0 == [] { assert Items(st.t0) == multiset{}; }
  }

  // ----- rehashing -----

  /** Move the entries of a chain, one after the other, into a table. */
  function MoveChain<K, V>(hash: K -> nat, t: Table<K, V>, c: Chain<K, V>): (u: Table<K, V>)
    requires t != []
    ensures |u| == |t|
    decreases |c|
  {
    if c == [] then t else MoveChain(hash, Push(hash, t, c[0]), c[1..])
  }

  lemma {:induction false} MoveChainKeeps<K, V>(hash: K -> nat, t: Table<K, V>, c: Chain<K, V>)
    requires t != [] && Placed(hash, t)
    ensures Placed(hash, MoveChain(hash, t, c)) && Items(MoveChain(hash, t, c)) == Items(t) + multiset(c)
    decreases |c|
  {
    if c != [] {
      PushKeeps(hash, t, c[0]);
      MoveChainKeeps(hash, Push(hash, t, c[0]), c[1..]);
      assert c == [c[0]] + c[1..];
    }
  }

  /** The first bucket from i on that is not empty. */
  function NextFull<K, V>(t: Table<K, V>, i: nat): (j: nat)
    requires i <= |t|
    ensures i <= j <= |t| && (j < |t| ==> t[j] != []) && forall k :: i <= k < j ==> t[k] == []
    decreases |t| - i
  {
    if i == |t| || t[i] != [] then i else NextFull(t, i + 1)
  }

  /** While table 0 holds entries, there is a bucket left to move. */
  lemma SomeBucketLeft<K, V>(hash: K -> nat, st: St<K, V>)
    requires Valid(hash, st) && Rehashing(st) && st.used0 != 0
    ensures NextFull(st.t0, st.rehashidx) < |st.t0|
  {
    ItemsEmpty(st.t0);
  }

  /** One step of dictRehash: move one bucket. */
  function RehashOne<K, V>(hash: K -> nat, st: St<K, V>): St<K, V>
    requires Rehashing(st) && st.t1 != [] && 0 <= st.rehashidx <= |st.t0| && NextFull(st.t0, st.rehashidx) < |st.t0|
  {
    var i := NextFull(st.t0, st.rehashidx);
    var c := st.t0[i];
    st.(t0 := st.t0[i := []], used0 := st.used0 - |c|,
        t1 := MoveChain(hash, st.t1, c), used1 := st.used1 + |c|, rehashidx := i + 1)
  }

  lemma BucketMoved<K, V>(hash: K -> nat, t: Table<K, V>, i: nat)
    requires i < |t| && Placed(hash, t)
    ensures Placed(hash, t[i := []]) && Items(t[i := []]) + multiset(t[i]) == Items(t)
  {
    ItemsUpdate(t, i, []);
  }

  lemma Regroup<T>(a: multiset<T>, c: multiset<T>, b: multiset<T>, d: multiset<T>)
    requires a + c == b
    ensures a + (d + c) == b + d && |b| == |a| + |c| && |d + c| == |d| + |c|
  {
  }

  lemma RehashOneKeeps<K, V>(hash: K -> nat, st: St<K, V>)
    requires Valid(hash, st) && Rehashing(st) && st.used0 != 0
    ensures NextFull(st.t0, st.rehashidx) < |st.t0|
    ensures Valid(hash, RehashOne(hash, st)) && All(RehashOne(hash, st)) == All(st)
  {
    SomeBucketLeft(hash, st);
    RehashOneShape(hash, st);
    hide Shape, Unique, All, RehashOne;
  }

  lemma RehashOneShape<K, V>(hash: K -> nat, st: St<K, V>)
    requires Shape(hash, st) && Rehashing(st) && NextFull(st.t0, st.rehashidx) < |st.t0|
    ensures Shape(hash, RehashOne(hash, st)) && All(RehashOne(hash, st)) == All(st)
  {
    hide IsPow2, Placed, Items, MoveChain;
    var i := NextFull(st.t0, st.rehashidx);
    var c, st' := st.t0[i], RehashOne(hash, st);
    assert forall k :: 0 <= k < i + 1 ==> st'.t0[k] == [];
    hide NextFull;
    BucketMoved(hash, st.t0, i);
    MoveChainKeeps(hash, st.t1, c);
    Regroup(Items(st'.t0), multiset(c), Items(st.t0), Items(st.t1));
    assert |multiset(c)| == |c|;
  }

  /** dictRehash with n steps. */
  ghost function Rehash<K, V>(hash: K -> nat, st: St<K, V>, n: nat): (st': St<K, V>)
    requires Valid(hash, st)
    ensures Valid(hash, st') && All(st') == All(st)
    decreases n
  {
    if !Rehashing(st) || n == 0 then st
    else if st.used0 == 0 then
      ItemsEmpty(st.t1[..0]);
      St(st.t1, st.used1, [], 0, -1, st.iterators)
    else
      RehashOneKeeps(hash, st);
      Rehash(hash, RehashOne(hash, st), n - 1)
  }

  lemma RehashEnds<K, V>(hash: K -> nat, st: St<K, V>, n: nat)
    requires Valid(hash, st) && Rehashing(st) && n > 0 && st.used0 == 0
    ensures Rehash(hash, st, n) == St(st.t1, st.used1, [], 0, -1, st.iterators)
  {
  }

  lemma RehashGoesOn<K, V>(hash: K -> nat, st: St<K, V>, n: nat)
    requires Valid(hash, st) && Rehashing(st) && n > 0 && st.used0 != 0
    ensures NextFull(st.t0, st.rehashidx) < |st.t0| && Valid(hash, RehashOne(hash, st))
    ensures Rehash(hash, st, n) == Rehash(hash, RehashOne(hash, st), n - 1)
  {
    RehashOneKeeps(hash, st);
    hide Shape, Unique, All, RehashOne;
  }

  /** Lookups and updates move one bucket on, unless a safe iterator is running. */
  ghost function RehashStep<K, V>(hash: K -> nat, st: St<K, V>): (st': St<K, V>)
    requires Valid(hash, st)
    ensures Valid(hash, st') && All(st') == All(st)
  {
    if st.iterators == 0 then Rehash(hash, st, 1) else st
  }

  // ----- lookup -----

  function FindIn<K(==), V>(hash: K -> nat, t: Table<K, V>, k: K): Option<V> {
    if t == [] then None
    else
      var c := t[Bucket(hash, t, k)];
      var j := Position(c, k);
      if j < |c| then Some(c[j].value) else None
  }

  /** What is found of a key: in table 0, or else in table 1. */
  function Lookup<K(==), V>(hash: K -> nat, st: St<K, V>, k: K): Option<V> {
    var v := FindIn(hash, st.t0, k);
    if v.Some? then v else FindIn(hash, st.t1, k)
  }

  lemma FindInIs<K, V>(hash: K -> nat, t: Table<K, V>, k: K)
    requires Placed(hash, t)
    ensures FindIn(hash, t, k).Some? ==> Entry(k, FindIn(hash, t, k).value) in Items(t)
    ensures FindIn(hash, t, k).None? ==> !HasKey(Items(t), k)
  {
    if t != [] {
      var i := Bucket(hash, t, k);
      var j := Position(t[i], k);
      if j < |t[i]| { assert t[i][j] in t[i]; PlacedIn(hash, t, t[i][j]); }
      forall e | e in Items(t) && e.key == k ensures j < |t[i]| { PlacedIn(hash, t, e); }
    }
  }

  /** Lookup finds exactly what the dictionary contains. */
  lemma LookupIsContents<K, V>(hash: K -> nat, st: St<K, V>, k: K)
    requires Valid(hash, st)
    ensures Lookup(hash, st, k) == if k in Contents(hash, st) then Some(Contents(hash, st)[k]) else None
  {
    FindInIs(hash, st.t0, k);
    FindInIs(hash, st.t1, k);
    if Lookup(hash, st, k).Some? {
      assert Entry(k, Lookup(hash, st, k).value) in All(st);
    } else {
      assert forall e :: e in All(st) ==> e in Items(st.t0) || e in Items(st.t1);
    }
  }

  lemma ContentsKeys<K, V>(hash: K -> nat, st: St<K, V>, k: K)
    requires Valid(hash, st)
    ensures k in Contents(hash, st) <==> HasKey(All(st), k)
  {
    hide Unique, Items;
    if e :| e in All(st) && e.key == k { assert e.key in Contents(hash, st); }
  }

  // ----- insertion -----

  /** A new entry goes to table 1 while rehashing, to table 0 otherwise. */
  function Insert<K, V>(hash: K -> nat, st: St<K, V>, e: Entry<K, V>): St<K, V>
    requires st.t0 != [] && (Rehashing(st) ==> st.t1 != [])
  {
    if Rehashing(st) then st.(t1 := Push(hash, st.t1, e), used1 := st.used1 + 1)
    else st.(t0 := Push(hash, st.t0, e), used0 := st.used0 + 1)
  }

  lemma InsertKeeps<K, V>(hash: K -> nat, st: St<K, V>, e: Entry<K, V>)
    requires Valid(hash, st) && st.t0 != [] && !HasKey(All(st), e.key)
    ensures Valid(hash, Insert(hash, st, e)) && Contents(hash, Insert(hash, st, e)) == Contents(hash, st)[e.key := e.value]
  {
    hide Unique, IsPow2, HasKey, MapOf, Items, Placed, Bucket;
    var st' := Insert(hash, st, e);
    if Rehashing(st) {
      PushKeeps(hash, st.t1, e);
    } else {
      PushKeeps(hash, st.t0, e);
      assert All(st') == All(st) + multiset{e};
    }
    MapAdd(All(st), e, All(st'));
  }

  /** dictAdd: the new state and whether the key was new. */
  ghost function Add<K, V>(hash: K -> nat, st: St<K, V>, canResize: bool, k: K, v: V): (r: (St<K, V>, bool))
    requires Valid(hash, st)
    ensures Valid(hash, r.0)
  {
    var st1 := RehashStep(hash, st);
    ExpandIfNeededKeeps(hash, st1, canResize);
    var st2 := ExpandIfNeeded(st1, canResize);
    if Lookup(hash, st2, k).Some? then (st2, false)
    else
      LookupIsContents(hash, st2, k);
      ContentsKeys(hash, st2, k);
      InsertKeeps(hash, st2, Entry(k, v));
      (Insert(hash, st2, Entry(k, v)), true)
  }

  /** Adding a key that is there changes nothing; any other key is added. */
  lemma AddContents<K, V>(hash: K -> nat, st: St<K, V>, canResize: bool, k: K, v: V)
    requires Valid(hash, st)
    ensures
      var (st', ok) := Add(hash, st, canResize, k, v);
      var m := Contents(hash, st);
      ok == (k !in m) && Contents(hash, st') == if k in m then m else m[k := v]
  {
    hide Shape, Unique, MapOf, All, Lookup, Insert, ExpandIfNeeded, RehashStep, HasKey;
    var st1 := RehashStep(hash, st);
    var st2 := ExpandIfNeeded(st1, canResize);
    ExpandIfNeededKeeps(hash, st1, canResize);
    LookupIsContents(hash, st2, k);
    ContentsKeys(hash, st2, k);
    if k !in Contents(hash, st2) { InsertKeeps(hash, st2, Entry(k, v)); }
  }

  // ----- replacement -----

  /** Set the value of a key that is there. */
  function Assign<K(==), V>(hash: K -> nat, st: St<K, V>, k: K, v: V): St<K, V>
    requires Lookup(hash, st, k).Some?
  {
    if FindIn(hash, st.t0, k).Some? then
      var i := Bucket(hash, st.t0, k);
      st.(t0 := SetValue(st.t0, i, Position(st.t0[i], k), v))
    else
      var i := Bucket(hash, st.t1, k);
      st.(t1 := SetValue(st.t1, i, Position(st.t1[i], k), v))
  }

  /** Remove a key that is there. */
  function Remove<K(==), V>(hash: K -> nat, st: St<K, V>, k: K): St<K, V>
    requires Lookup(hash, st, k).Some?
  {
    if FindIn(hash, st.t0, k).Some? then
      var i := Bucket(hash, st.t0, k);
      st.(t0 := Unlink(st.t0, i, Position(st.t0[i], k)), used0 := st.used0 - 1)
    else
      var i := Bucket(hash, st.t1, k);
      st.(t1 := Unlink(st.t1, i, Position(st.t1[i], k)), used1 := st.used1 - 1)
  }

  lemma RemoveKeeps<K, V>(hash: K -> nat, st: St<K, V>, k: K)
    requires Valid(hash, st) && Lookup(hash, st, k).Some?
    ensures Valid(hash, Remove(hash, st, k)) && Contents(hash, Remove(hash, st, k)) == Contents(hash, st) - {k}
  {
    var t := if FindIn(hash, st.t0, k).Some? then st.t0 else st.t1;
    var i := Bucket(hash, t, k);
    var j := Position(t[i], k);
    RemoveShape(hash, st, k);
    MapRemove(All(Remove(hash, st, k)), t[i][j], All(st));
  }

  /** The table in which the key is found. */
  function TableOf<K(==), V>(hash: K -> nat, st: St<K, V>, k: K): (t: Table<K, V>)
    requires Lookup(hash, st, k).Some?
    ensures t != [] && Position(t[Bucket(hash, t, k)], k) < |t[Bucket(hash, t, k)]|
  {
    if FindIn(hash, st.t0, k).Some? then st.t0 else st.t1
  }

  lemma RemoveShape<K, V>(hash: K -> nat, st: St<K, V>, k: K)
    requires Shape(hash, st) && Lookup(hash, st, k).Some?
    ensures
      var t := TableOf(hash, st, k);
      var i := Bucket(hash, t, k);
      All(st) == All(Remove(hash, st, k)) + multiset{t[i][Position(t[i], k)]}
    ensures Shape(hash, Remove(hash, st, k))
  {
    hide IsPow2, Placed, Items, Unlink;
    var t := TableOf(hash, st, k);
    var i := Bucket(hash, t, k);
    var j := Position(t[i], k);
    UnlinkKeeps(hash, t, i, j);
    UnlinkEmpty(t, i, j);
    hide Position;
  }

  lemma UnlinkEmpty<K, V>(t: Table<K, V>, i: nat, j: nat)
    requires i < |t| && j < |t[i]|
    ensures forall k :: 0 <= k < |t| && t[k] == [] ==> Unlink(t, i, j)[k] == []
  {
  }

  /** What setting the value does to the table that has the key. */
  lemma AssignTable<K, V>(hash: K -> nat, t: Table<K, V>, i: nat, j: nat, v: V)
    requires i < |t| && j < |t[i]| && Placed(hash, t)
    ensures
      var u, e := SetValue(t, i, j, v), Entry(t[i][j].key, v);
      && Placed(hash, u) && Items(u) == Items(Unlink(t, i, j)) + multiset{e} && |Items(u)| == |Items(t)|
      && forall k :: 0 <= k < |t| && t[k] == [] ==> u[k] == []
  {
    hide Placed, Items, Unlink;
    SetValueKeeps(hash, t, i, j, v);
    UnlinkKeeps(hash, t, i, j);
  }

  lemma AssignShape<K, V>(hash: K -> nat, st: St<K, V>, k: K, v: V)
    requires Shape(hash, st) && Lookup(hash, st, k).Some?
    ensures Shape(hash, Assign(hash, st, k, v))
    ensures All(Assign(hash, st, k, v)) == All(Remove(hash, st, k)) + multiset{Entry(k, v)}
  {
    var t := TableOf(hash, st, k);
    var i := Bucket(hash, t, k);
    var j := Position(t[i], k);
    AssignTable(hash, t, i, j, v);
    hide IsPow2, Placed, Items, Unlink, SetValue, Bucket, Position, Shape;
    var less, e, u := Items(Unlink(t, i, j)), Entry(k, v), SetValue(t, i, j, v);
    if FindIn(hash, st.t0, k).Some? {
      Exchange(less, Items(st.t1), e);
      SwapTable0(hash, st, u);
    } else {
      Exchange(less, Items(st.t0), e);
      SwapTable1(hash, st, u);
    }
  }

  lemma SwapTable0<K, V>(hash: K -> nat, st: St<K, V>, u: Table<K, V>)
    requires Shape(hash, st) && Placed(hash, u) && |u| == |st.t0| && |Items(u)| == |Items(st.t0)|
    requires forall k :: 0 <= k < |u| && st.t0[k] == [] ==> u[k] == []
    ensures Shape(hash, st.(t0 := u))
  {
    hide IsPow2, Placed, Items;
  }

  lemma SwapTable1<K, V>(hash: K -> nat, st: St<K, V>, u: Table<K, V>)
    requires Shape(hash, st) && Placed(hash, u) && |u| == |st.t1| && |Items(u)| == |Items(st.t1)|
    ensures Shape(hash, st.(t1 := u))
  {
    hide IsPow2, Placed, Items;
  }

  lemma Exchange<T>(a: multiset<T>, b: multiset<T>, e: T)
    ensures (a + multiset{e}) + b == (a + b) + multiset{e}
    ensures b + (a + multiset{e}) == (b + a) + multiset{e}
  {
  }

  lemma AssignKeeps<K, V>(hash: K -> nat, st: St<K, V>, k: K, v: V)
    requires Valid(hash, st) && Lookup(hash, st, k).Some?
    ensures Valid(hash, Assign(hash, st, k, v)) && Contents(hash, Assign(hash, st, k, v)) == Contents(hash, st)[k := v]
  {
    hide Shape, Unique, MapOf, All, Lookup, Remove, Assign, HasKey;
    RemoveKeeps(hash, st, k);
    AssignShape(hash, st, k, v);
    var less, st' := Remove(hash, st, k), Assign(hash, st, k, v);
    ContentsKeys(hash, less, k);
    MapAdd(All(less), Entry(k, v), All(st'));
    assert (Contents(hash, st) - {k})[k := v] == Contents(hash, st)[k := v];
  }

  /** dictReplace: add, or find the key and set its value. */
  ghost function Replace<K, V>(hash: K -> nat, st: St<K, V>, canResize: bool, k: K, v: V): (r: (St<K, V>, bool))
    requires Valid(hash, st)
    ensures Valid(hash, r.0)
  {
    var (st1, ok) := Add(hash, st, canResize, k, v);
    AddContents(hash, st, canResize, k, v);
    if ok then (st1, true)
    else
      var st2 := RehashStep(hash, st1);
      LookupIsContents(hash, st2, k);
      AssignKeeps(hash, st2, k, v);
      (Assign(hash, st2, k, v), false)
  }

  /** Replacing maps the key to the value, whether it was there or not. */
  lemma ReplaceContents<K, V>(hash: K -> nat, st: St<K, V>, canResize: bool, k: K, v: V)
    requires Valid(hash, st)
    ensures
      var (st', isNew) := Replace(hash, st, canResize, k, v);
      isNew == (k !in Contents(hash, st)) && Contents(hash, st') == Contents(hash, st)[k := v]
  {
    var (st1, ok) := Add(hash, st, canResize, k, v);
    AddContents(hash, st, canResize, k, v);
    if !ok {
      var st2 := RehashStep(hash, st1);
      LookupIsContents(hash, st2, k);
      AssignKeeps(hash, st2, k, v);
    }
  }

  // ----- deletion -----

  ghost function Delete<K, V>(hash: K -> nat, st: St<K, V>, k: K): (r: (St<K, V>, bool))
    requires Valid(hash, st)
    ensures Valid(hash, r.0)
  {
    if st.t0 == [] then (st, false)
    else
      var st1 := RehashStep(hash, st);
      if Lookup(hash, st1, k).None? then (st1, false)
      else
        RemoveKeeps(hash, st1, k);
        (Remove(hash, st1, k), true)
  }

  /** Without a table there is no key. */
  lemma NoTable<K, V>(hash: K -> nat, st: St<K, V>)
    requires Valid(hash, st)
    ensures st.t0 == [] ==> Contents(hash, st) == map[]
  {
    hide Unique;
  }

  /** Deletion removes exactly the key, and says whether it was there. */
  lemma DeleteContents<K, V>(hash: K -> nat, st: St<K, V>, k: K)
    requires Valid(hash, st)
    ensures
      var (st', ok) := Delete(hash, st, k);
      ok == (k in Contents(hash, st)) && Contents(hash, st') == Contents(hash, st) - {k}
  {
    hide Shape, Unique, MapOf, All, Lookup, Remove, RehashStep, HasKey;
    NoTable(hash, st);
    LookupIsContents(hash, st, k);
    if st.t0 != [] {
      var st1 := RehashStep(hash, st);
      LookupIsContents(hash, st1, k);
      if Lookup(hash, st1, k).Some? { RemoveKeeps(hash, st1, k); }
    }
    assert k !in Contents(hash, st) ==> Contents(hash, st) - {k} == Contents(hash, st);
  }

  /** The counters give the number of keys. */
  lemma UsedIsSize<K, V>(hash: K -> nat, st: St<K, V>)
    requires Valid(hash, st)
    ensures st.used0 + st.used1 == |Contents(hash, st)|
  {
    CountKeys(All(st));
  }

  lemma {:induction false} CountKeys<K, V>(items: multiset<Entry<K, V>>)
    requires Unique(items)
    ensures |MapOf(items)| == |items|
    decreases |items|
  {
    if items == multiset{} {
      assert MapOf(items) == map[];
    } else {
      var e :| e in items;
      var less := items - multiset{e};
      assert items == less + multiset{e};
      UniqueRemove(less, e, items);
      CountKeys(less);
      MapAdd(less, e, items);
    }
  }

  // ----- small facts for the methods -----

  lemma NoTableNoEntries<K, V>(hash: K -> nat, st: St<K, V>)
    requires Valid(hash, st) && st.t0 == []
    ensures st.used0 == 0
  {
    hide Unique;
  }

  lemma UsedHasTable<K, V>(hash: K -> nat, st: St<K, V>)
    requires Valid(hash, st) && st.used0 + st.used1 != 0
    ensures st.t0 != []
  {
    hide Unique;
  }

  lemma SameInOrder<K, V>(hash: K -> nat, st: St<K, V>, n: int)
    requires Valid(hash, st)
    ensures Valid(hash, st.(iterators := n))
  {
    hide Unique, Placed, Items;
  }

  lemma TableSizes<K, V>(hash: K -> nat, st: St<K, V>)
    requires Valid(hash, st)
    ensures Rehashing(st) ==> st.t0 != [] && st.t1 != []
    ensures !Rehashing(st) ==> st.t1 == []
  {
    hide Unique;
  }

  lemma AddIs<K, V>(hash: K -> nat, st: St<K, V>, canResize: bool, k: K, v: V)
    requires Valid(hash, st)
    ensures
      var st2 := ExpandIfNeeded(RehashStep(hash, st), canResize);
      && st2.t0 != [] && (Rehashing(st2) ==> st2.t1 != [])
      && Add(hash, st, canResize, k, v)
         == if Lookup(hash, st2, k).Some? then (st2, false) else (Insert(hash, st2, Entry(k, v)), true)
  {
    ExpandIfNeededKeeps(hash, RehashStep(hash, st), canResize);
    TableSizes(hash, ExpandIfNeeded(RehashStep(hash, st), canResize));
    hide Shape, Unique, Lookup, RehashStep, ExpandIfNeeded, Insert, All;
  }

  lemma ReplaceIs<K, V>(hash: K -> nat, st: St<K, V>, canResize: bool, k: K, v: V)
    requires Valid(hash, st)
    ensures
      var (st1, isNew) := Add(hash, st, canResize, k, v);
      var st2 := RehashStep(hash, st1);
      if isNew then Replace(hash, st, canResize, k, v) == (st1, true)
      else Lookup(hash, st2, k).Some? && Replace(hash, st, canResize, k, v) == (Assign(hash, st2, k, v), false)
  {
    hide Shape, Unique, All, MapOf, RehashStep, Assign, Add, Lookup, HasKey;
    var st1 := Add(hash, st, canResize, k, v).0;
    AddContents(hash, st, canResize, k, v);
    LookupIsContents(hash, RehashStep(hash, st1), k);
  }

  lemma DeleteNone<K, V>(hash: K -> nat, st: St<K, V>, k: K)
    requires Valid(hash, st) && st.t0 == []
    ensures Delete(hash, st, k) == (st, false)
  {
  }

  lemma FindStep<K, V>(hash: K -> nat, st: St<K, V>)
    requires Valid(hash, st) && st.t0 != []
    ensures Contents(hash, RehashStep(hash, st)) == Contents(hash, st) && RehashStep(hash, st).t0 != []
  {
    hide Shape, Unique, MapOf, All, Rehash;
    RehashKeepsTable(hash, st, 1);
  }

  lemma DeleteIs<K, V>(hash: K -> nat, st: St<K, V>, k: K)
    requires Valid(hash, st) && st.t0 != []
    ensures
      var st1 := RehashStep(hash, st);
      && st1.t0 != []
      && Delete(hash, st, k) == if Lookup(hash, st1, k).None? then (st1, false) else (Remove(hash, st1, k), true)
  {
    TableSizes(hash, st);
    RehashKeepsTable(hash, st, 1);
    hide Shape, Unique, All, Remove, Lookup;
  }

  lemma {:induction false} RehashKeepsTable<K, V>(hash: K -> nat, st: St<K, V>, n: nat)
    requires Valid(hash, st) && st.t0 != []
    ensures Rehash(hash, st, n).t0 != []
    decreases n
  {
    hide Unique, IsPow2, All;
    if Rehashing(st) && n > 0 && st.used0 != 0 {
      RehashGoesOn(hash, st, n);
      RehashKeepsTable(hash, RehashOne(hash, st), n - 1);
    }
  }

  lemma RehashPlace<K, V>(hash: K -> nat, st: St<K, V>)
    requires Valid(hash, st) && Rehashing(st)
    ensures 0 <= st.rehashidx <= |st.t0| && st.t1 != []
  {
    hide Unique;
  }

  lemma StepIdle<K, V>(hash: K -> nat, st: St<K, V>)
    requires Valid(hash, st) && !Rehashing(st)
    ensures RehashStep(hash, st) == st
  {
  }
}
