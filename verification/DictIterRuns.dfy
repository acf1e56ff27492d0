/** Iterations with a safe iterator, interleaved with updates: every entry that is there at the start and
    is not deleted is returned exactly once. */
module DictIterRuns {
  import opened Wrappers
  import opened Entries
  import opened DictTables
  import opened DictState
  import opened DictIter

  lemma NothingInBuckets<K, V>(n: nat, index: int, saved: Option<K>, k: K)
    ensures !AheadIn(NoBuckets<K, V>(n), index, saved, k)
  {
  }

  /** A new table holds nothing to iterate over. */
  lemma ExpandAhead<K, V>(hash: K -> nat, st: St<K, V>, canResize: bool, it: It<K>, k: K)
    requires Valid(hash, st) && ItOk(st, it)
    ensures
      var st' := ExpandIfNeeded(st, canResize);
      ItOk(st', it) && (Ahead(st', it, k) <==> Ahead(st, it, k)) && st'.iterators == st.iterators
  {
    var st' := ExpandIfNeeded(st, canResize);
    if st' != st {
      NothingInBuckets<K, V>(|st'.t0|, it.index, Saved(it), k);
      NothingInBuckets<K, V>(|st'.t1|, -1, None, k);
      hide Shape, Unique, IsPow2, NextPower;
      TableSizes(hash, st);
    }
  }

  lemma InsertAhead<K, V>(hash: K -> nat, st: St<K, V>, e: Entry<K, V>, it: It<K>, k: K)
    requires st.t0 != [] && (Rehashing(st) ==> st.t1 != []) && ItOk(st, it)
    requires Saved(it) != Some(e.key) && k != e.key
    ensures
      var st' := Insert(hash, st, e);
      ItOk(st', it) && (Ahead(st', it, k) <==> Ahead(st, it, k)) && st'.iterators == st.iterators
  {
    hide AheadIn, Push;
    if Rehashing(st) {
      PushAhead(hash, st.t1, e, -1, None, k);
      if it.table == 1 { PushAhead(hash, st.t1, e, it.index, Saved(it), k); }
    } else {
      PushAhead(hash, st.t0, e, it.index, Saved(it), k);
    }
  }

  lemma AssignAhead<K, V>(hash: K -> nat, st: St<K, V>, k': K, v: V, it: It<K>, k: K)
    requires Lookup(hash, st, k').Some? && ItOk(st, it)
    ensures
      var st' := Assign(hash, st, k', v);
      ItOk(st', it) && (Ahead(st', it, k) <==> Ahead(st, it, k)) && st'.iterators == st.iterators
  {
    var in0 := FindIn(hash, st.t0, k').Some?;
    var t := TableOf(hash, st, k');
    var i := Bucket(hash, t, k');
    var p := Position(t[i], k');
    hide AheadIn, SetValue;
    if in0 == (it.table == 0) { SetAhead(t, i, p, v, it.index, Saved(it), k); }
    if !in0 { SetAhead(t, i, p, v, -1, None, k); }
  }

  lemma RemoveAhead<K, V>(hash: K -> nat, st: St<K, V>, k': K, it: It<K>, k: K)
    requires Lookup(hash, st, k').Some? && ItOk(st, it)
    requires Saved(it) != Some(k') && k != k'
    ensures
      var st' := Remove(hash, st, k');
      ItOk(st', it) && (Ahead(st', it, k) <==> Ahead(st, it, k)) && st'.iterators == st.iterators
  {
    var in0 := FindIn(hash, st.t0, k').Some?;
    var t := TableOf(hash, st, k');
    var i := Bucket(hash, t, k');
    var p := Position(t[i], k');
    hide AheadIn, Unlink;
    if in0 == (it.table == 0) { UnlinkAhead(t, i, p, it.index, Saved(it), k); }
    if !in0 { UnlinkAhead(t, i, p, -1, None, k); }
  }

  /** What happens while the iterator is open. */
  datatype Event<K, V> =
    | NextE
    | AddE(k: K, v: V, canResize: bool)
    | ReplaceE(k: K, v: V, canResize: bool)
    | DeleteE(k: K)
    | FindE(k: K)

  /** The dictionary, the iterator, the keys returned so far, and those of them that the caller may delete
      because they have not been added again. */
  datatype Iteration<!K, V> = Iteration(st: St<K, V>, it: It<K>, returned: seq<K>, passed: iset<K>)

  /** Iterating may go on: a safe iterator is open, and nothing passed is ahead. */
  ghost predicate Ok<K, V>(hash: K -> nat, r: Iteration<K, V>) {
    && Valid(hash, r.st) && r.st.iterators > 0 && ItOk(r.st, r.it)
    && forall k :: k in r.passed ==> !Ahead(r.st, r.it, k)
  }

  lemma StepNone<K, V>(hash: K -> nat, st: St<K, V>)
    requires Valid(hash, st) && st.iterators > 0
    ensures RehashStep(hash, st) == st
  {
  }

  /** A safe caller deletes only what was returned. */
  predicate Allowed<K, V>(r: Iteration<K, V>, e: Event<K, V>) {
    e.DeleteE? ==> e.k in r.passed
  }

  ghost function React<K, V>(hash: K -> nat, r: Iteration<K, V>, e: Event<K, V>): Iteration<K, V>
    requires Ok(hash, r)
  {
    TableSizes(hash, r.st);
    match e
    case NextE =>
      var (it', k) := Next(r.st, r.it);
      if k.None? then r.(it := it')
      else r.(it := it', returned := r.returned + [k.value], passed := r.passed + iset{k.value})
    case AddE(k, v, canResize) =>
      var (st', isNew) := Add(hash, r.st, canResize, k, v);
      r.(st := st', passed := if isNew then r.passed - iset{k} else r.passed)
    case ReplaceE(k, v, canResize) =>
      var (st', isNew) := Replace(hash, r.st, canResize, k, v);
      r.(st := st', passed := if isNew then r.passed - iset{k} else r.passed)
    case DeleteE(k) => r.(st := Delete(hash, r.st, k).0)
    case FindE(k) => if r.st.t0 == [] then r else r.(st := RehashStep(hash, r.st))
  }

  /** The last event of a run returned nothing. */
  ghost predicate Finished<K, V>(hash: K -> nat, r: Iteration<K, V>)
    requires Ok(hash, r)
  {
    TableSizes(hash, r.st);
    Next(r.st, r.it).1.None?
  }

  lemma AddReacts<K, V>(hash: K -> nat, r: Iteration<K, V>, k': K, v: V, canResize: bool, k: K)
    requires Ok(hash, r)
    ensures
      var (st', isNew) := Add(hash, r.st, canResize, k', v);
      && ItOk(st', r.it) && st'.iterators == r.st.iterators
      && (!isNew || k != k' ==> (Ahead(st', r.it, k) <==> Ahead(r.st, r.it, k)))
  {
    var st2 := ExpandIfNeeded(r.st, canResize);
    StepNone(hash, r.st);
    AddIs(hash, r.st, canResize, k', v);
    ExpandAhead(hash, r.st, canResize, r.it, k);
    ExpandIfNeededKeeps(hash, r.st, canResize);
    hide Shape, Unique, Ahead, Add, RehashStep, ExpandIfNeeded, Insert, ItOk, All;
    if Lookup(hash, st2, k').None? {
      LookupIsContents(hash, st2, k');
      AheadIsThere(hash, st2, r.it, k');
      if k != k' { InsertAhead(hash, st2, Entry(k', v), r.it, k); }
      else { InsertOk(hash, st2, Entry(k', v), r.it); }
    }
  }

  lemma InsertOk<K, V>(hash: K -> nat, st: St<K, V>, e: Entry<K, V>, it: It<K>)
    requires st.t0 != [] && (Rehashing(st) ==> st.t1 != []) && ItOk(st, it) && Saved(it) != Some(e.key)
    ensures ItOk(Insert(hash, st, e), it) && Insert(hash, st, e).iterators == st.iterators
  {
    var c := if Rehashing(st) then st.t1 else st.t0;
    if Saved(it).Some? { PositionPush(TableAt(st, it.table)[it.index], e, it.next.value); }
  }

  lemma ReplaceReacts<K, V>(hash: K -> nat, r: Iteration<K, V>, k': K, v: V, canResize: bool, k: K)
    requires Ok(hash, r)
    ensures
      var (st', isNew) := Replace(hash, r.st, canResize, k', v);
      && ItOk(st', r.it) && st'.iterators == r.st.iterators
      && (!isNew || k != k' ==> (Ahead(st', r.it, k) <==> Ahead(r.st, r.it, k)))
  {
    AddReacts(hash, r, k', v, canResize, k);
    ReplaceIs(hash, r.st, canResize, k', v);
    var (st1, isNew) := Add(hash, r.st, canResize, k', v);
    StepNone(hash, st1);
    hide Shape, Unique, Ahead, Add, Replace, RehashStep, Assign, ItOk;
    if !isNew { AssignAhead(hash, st1, k', v, r.it, k); }
  }

  lemma DeleteReacts<K, V>(hash: K -> nat, r: Iteration<K, V>, k': K, k: K)
    requires Ok(hash, r) && k' in r.passed
    ensures
      var (st', ok) := Delete(hash, r.st, k');
      && ItOk(st', r.it) && st'.iterators == r.st.iterators
      && (k != k' ==> (Ahead(st', r.it, k) <==> Ahead(r.st, r.it, k)))
      && !Ahead(st', r.it, k')
  {
    StepNone(hash, r.st);
    AheadIsThere(hash, r.st, r.it, k');
    if r.st.t0 == [] {
      DeleteNone(hash, r.st, k');
    } else {
      DeleteIs(hash, r.st, k');
      DeleteContents(hash, r.st, k');
      var st' := Delete(hash, r.st, k').0;
      hide Shape, Unique, Ahead, Delete, RehashStep, Remove, ItOk;
      if Lookup(hash, r.st, k').Some? {
        if k != k' { RemoveAhead(hash, r.st, k', r.it, k); } else { RemoveOk(hash, r.st, k', r.it); }
        AheadIsThere(hash, st', r.it, k');
      }
    }
  }

  lemma RemoveOk<K, V>(hash: K -> nat, st: St<K, V>, k': K, it: It<K>)
    requires Lookup(hash, st, k').Some? && ItOk(st, it) && Saved(it) != Some(k')
    ensures ItOk(Remove(hash, st, k'), it) && Remove(hash, st, k').iterators == st.iterators
  {
    var t := TableOf(hash, st, k');
    var i := Bucket(hash, t, k');
    var p := Position(t[i], k');
    if Saved(it).Some? && it.index == i && (FindIn(hash, st.t0, k').Some? == (it.table == 0)) {
      PositionWithout(t[i], p, it.next.value);
    }
  }

  /** Iterating keeps making sense. */
  lemma ReactOk<K, V>(hash: K -> nat, r: Iteration<K, V>, e: Event<K, V>)
    requires Ok(hash, r) && Allowed(r, e)
    ensures Ok(hash, React(hash, r, e))
  {
    var r' := React(hash, r, e);
    ValidOnePlace(hash, r.st);
    TableSizes(hash, r.st);
    hide Shape, Unique, Ahead, Add, Replace, Delete, RehashStep, ItOk, OnePlace, Next;
    NextOk(r.st, r.it);
    if e.AddE? { AddReacts(hash, r, e.k, e.v, e.canResize, e.k); }
    if e.ReplaceE? { ReplaceReacts(hash, r, e.k, e.v, e.canResize, e.k); }
    if e.DeleteE? { DeleteReacts(hash, r, e.k, e.k); }
    if e.FindE? { StepNone(hash, r.st); }
    forall k | k in r'.passed ensures !Ahead(r'.st, r'.it, k) {
      match e
      case NextE => NextPasses(r.st, r.it, k);
      case AddE(k', v, canResize) => AddReacts(hash, r, k', v, canResize, k);
      case ReplaceE(k', v, canResize) => ReplaceReacts(hash, r, k', v, canResize, k);
      case DeleteE(k') => DeleteReacts(hash, r, k', k);
      case FindE(_) =>
    }
  }

  /** A key that stays in the dictionary is ahead until it is returned, once. */
  ghost predicate Once<K, V>(hash: K -> nat, r: Iteration<K, V>, k: K)
    requires Ok(hash, r)
  {
    k in Contents(hash, r.st) && multiset(r.returned)[k] == if Ahead(r.st, r.it, k) then 0 else 1
  }

  lemma ReactOnce<K, V>(hash: K -> nat, r: Iteration<K, V>, e: Event<K, V>, k: K)
    requires Ok(hash, r) && Allowed(r, e) && Once(hash, r, k) && e != DeleteE(k)
    ensures Ok(hash, React(hash, r, e)) && Once(hash, React(hash, r, e), k)
  {
    ReactOk(hash, r, e);
    if e.NextE? { NextOnce(hash, r, k); } else { UpdateOnce(hash, r, e, k); }
  }

  lemma UpdateOnce<K, V>(hash: K -> nat, r: Iteration<K, V>, e: Event<K, V>, k: K)
    requires Ok(hash, r) && Allowed(r, e) && Once(hash, r, k) && e != DeleteE(k) && !e.NextE?
    requires Ok(hash, React(hash, r, e))
    ensures Once(hash, React(hash, r, e), k)
  {
    hide Shape, Unique, MapOf, All, Ahead, Add, Replace, Delete, RehashStep, ItOk, Next;
    match e
    case AddE(k', v, canResize) =>
      AddReacts(hash, r, k', v, canResize, k);
      AddContents(hash, r.st, canResize, k', v);
    case ReplaceE(k', v, canResize) =>
      ReplaceReacts(hash, r, k', v, canResize, k);
      ReplaceContents(hash, r.st, canResize, k', v);
    case DeleteE(k') =>
      DeleteReacts(hash, r, k', k);
      DeleteContents(hash, r.st, k');
    case FindE(_) => StepNone(hash, r.st);
  }

  lemma NextOnce<K, V>(hash: K -> nat, r: Iteration<K, V>, k: K)
    requires Ok(hash, r) && Once(hash, r, k) && Ok(hash, React(hash, r, NextE))
    ensures Once(hash, React(hash, r, NextE), k)
  {
    ValidOnePlace(hash, r.st);
    TableSizes(hash, r.st);
    NextPasses(r.st, r.it, k);
    hide Shape, Unique, MapOf, All, Ahead, ItOk, OnePlace, Next;
    var n := Next(r.st, r.it).1;
    if n.Some? { OneMoreReturned(r.returned, n.value, k); }
  }

  lemma OneMoreReturned<K>(s: seq<K>, x: K, k: K)
    ensures multiset(s + [x])[k] == multiset(s)[k] + if x == k then 1 else 0
  {
  }

  ghost predicate AllAllowed<K, V>(hash: K -> nat, r: Iteration<K, V>, es: seq<Event<K, V>>)
    requires Ok(hash, r)
    decreases |es|
  {
    |es| > 0 ==> Allowed(r, es[0]) && (ReactOk(hash, r, es[0]); AllAllowed(hash, React(hash, r, es[0]), es[1..]))
  }

  ghost function ReactAll<K, V>(hash: K -> nat, r: Iteration<K, V>, es: seq<Event<K, V>>): (r': Iteration<K, V>)
    requires Ok(hash, r) && AllAllowed(hash, r, es)
    ensures Ok(hash, r')
    decreases |es|
  {
    if |es| == 0 then r else ReactOk(hash, r, es[0]); ReactAll(hash, React(hash, r, es[0]), es[1..])
  }

  /** An iteration about to start: its iterator counts as open from the first dictNext on. */
  ghost function Started<K, V>(hash: K -> nat, st: St<K, V>): (r: Iteration<K, V>)
    requires Valid(hash, st) && st.iterators > 0
    ensures Ok(hash, r)
  {
    Iteration(st, Fresh(), [], iset{})
  }

  /** At the start, everything is ahead. */
  lemma AllAhead<K, V>(hash: K -> nat, st: St<K, V>, k: K)
    requires Valid(hash, st) && k in Contents(hash, st)
    ensures Ahead(st, Fresh(), k)
  {
    ContentsKeys(hash, st, k);
    TableSizes(hash, st);
    hide Shape, Unique, PlaceAhead;
    var e :| e in All(st) && e.key == k;
    if e in Items(st.t0) { AheadInAll(st.t0, e); } else { AheadInAll(st.t1, e); }
    if !Rehashing(st) { assert Items(st.t1) == multiset{}; }
  }

  lemma AheadInAll<K, V>(t: Table<K, V>, e: Entry<K, V>)
    requires e in Items(t)
    ensures AheadIn(t, -1, None, e.key)
  {
    ItemsIn(t, e);
    var i :| 0 <= i < |t| && e in t[i];
    var j :| 0 <= j < |t[i]| && t[i][j] == e;
    assert PlaceAhead(t, -1, None, i, j);
  }

  lemma {:induction false} AllOnce<K, V>(hash: K -> nat, r: Iteration<K, V>, es: seq<Event<K, V>>, k: K)
    requires Ok(hash, r) && AllAllowed(hash, r, es) && Once(hash, r, k)
    requires forall i :: 0 <= i < |es| ==> es[i] != DeleteE(k)
    ensures Once(hash, ReactAll(hash, r, es), k)
    decreases |es|
  {
    hide Ok, Once, React, Allowed;
    if |es| > 0 {
      ReactOnce(hash, r, es[0], k);
      AllOnce(hash, React(hash, r, es[0]), es[1..], k);
    }
  }

  /** With a safe iterator, an entry that is there at the start and is not deleted is returned at most once,
      and exactly once when dictNext has no more to return, whatever else is added, replaced or looked up
      meanwhile and whatever returned entries are deleted. */
  lemma IteratesOnce<K, V>(hash: K -> nat, st: St<K, V>, es: seq<Event<K, V>>, k: K)
    requires Valid(hash, st) && st.iterators > 0 && k in Contents(hash, st)
    requires AllAllowed(hash, Started(hash, st), es) && forall i :: 0 <= i < |es| ==> es[i] != DeleteE(k)
    ensures
      var r := ReactAll(hash, Started(hash, st), es);
      multiset(r.returned)[k] <= 1 && (Finished(hash, r) ==> multiset(r.returned)[k] == 1)
  {
    AllAhead(hash, st, k);
    var r := Started(hash, st);
    assert Once(hash, r, k);
    hide Shape, Unique, Ahead, React, ItOk, Next, OnePlace;
    AllOnce(hash, r, es, k);
    var r' := ReactAll(hash, r, es);
    ValidOnePlace(hash, r'.st);
    TableSizes(hash, r'.st);
    NextPasses(r'.st, r'.it, k);
  }
}
