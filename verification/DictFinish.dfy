/** A rehash comes to its end within as many operations as table 0 has buckets left, and one. */
module DictFinish {
  import opened DictTables
  import opened DictState
  import opened DictProgress
  import opened DictRuns

  /** An operation that takes a step of rehashing. */
  predicate StepsOn<K, V>(op: Op<K, V>) { op.AddOp? || op.ReplaceOp? || op.DeleteOp? || op.FindOp? }

  lemma DoProgress<K, V>(hash: K -> nat, st: St<K, V>, op: Op<K, V>)
    requires Valid(hash, st) && DictProgress.Steps(st) && StepsOn(op)
    ensures var st' := Do(hash, st, op); Ended(st, st') || (st.used0 != 0 && GoesOn(st, st'))
    ensures op.FindOp? || op.DeleteOp? ==> (Rehashing(Do(hash, st, op)) ==> GoesOn(st, Do(hash, st, op)))
  {
    hide Valid, RehashStep, Add, Replace, Delete;
    match op
    case AddOp(k, v, canResize) => AddProgress(hash, st, canResize, k, v);
    case ReplaceOp(k, v, canResize) => ReplaceProgress(hash, st, canResize, k, v);
    case DeleteOp(k) => DeleteProgress(hash, st, k);
    case FindOp(k) => FindProgress(hash, st);
  }

  /** Operation n of a run ends the rehash that was going on when the run began. */
  ghost predicate EndsIt<K, V>(hash: K -> nat, st: St<K, V>, ops: seq<Op<K, V>>, n: nat)
    requires Valid(hash, st) && n < |ops|
  {
    var a, b := Run(hash, st, ops[..n]), Run(hash, st, ops[..n + 1]);
    && Rehashing(a) && |a.t0| == |st.t0| && |a.t1| == |st.t1| && Ended(a, b)
  }

  lemma RunOne<K, V>(hash: K -> nat, st: St<K, V>, ops: seq<Op<K, V>>)
    requires Valid(hash, st) && |ops| > 0
    ensures Run(hash, st, ops[..0]) == st && Run(hash, st, ops[..1]) == Do(hash, st, ops[0])
  {
    hide Valid, Do;
    assert ops[..1][0] == ops[0] && ops[..1][1..] == [];
  }

  lemma RunMore<K, V>(hash: K -> nat, st: St<K, V>, ops: seq<Op<K, V>>, n: nat)
    requires Valid(hash, st) && 0 < |ops| && n < |ops|
    ensures Run(hash, st, ops[..n + 1]) == Run(hash, Do(hash, st, ops[0]), ops[1..][..n])
  {
    hide Valid, Do;
    assert ops[..n + 1][0] == ops[0] && ops[..n + 1][1..] == ops[1..][..n];
  }

  /** In any run of such operations with no safe iterator, the rehash that is going on ends after at most one operation for each
      bucket left, and one. */
  lemma {:induction false} RehashFinishes<K, V>(hash: K -> nat, st: St<K, V>, ops: seq<Op<K, V>>) returns (n: nat)
    requires Valid(hash, st) && DictProgress.Steps(st) && (forall k :: 0 <= k < |ops| ==> StepsOn(ops[k]))
    requires |ops| > |st.t0| - st.rehashidx
    ensures 0 <= st.rehashidx <= |st.t0| && n <= |st.t0| - st.rehashidx && EndsIt(hash, st, ops, n)
    decreases |ops|
  {
    hide Valid, Do, Ended;
    RehashPlace(hash, st);
    RunOne(hash, st, ops);
    DoProgress(hash, st, ops[0]);
    if Ended(st, Do(hash, st, ops[0])) { return 0; }
    var st1 := Do(hash, st, ops[0]);
    RehashPlace(hash, st1);
    n := RehashFinishes(hash, st1, ops[1..]);
    RunMore(hash, st, ops, n);
    RunMore(hash, st, ops, n + 1);
    n := n + 1;
  }

  /** Lookups and deletions alone leave no rehash behind; then the table can be resized again. */
  lemma {:induction false} LookupsFinish<K, V>(hash: K -> nat, st: St<K, V>, ops: seq<Op<K, V>>)
    requires Valid(hash, st) && st.iterators == 0 && forall k :: 0 <= k < |ops| ==> ops[k].FindOp? || ops[k].DeleteOp?
    requires Rehashing(st) ==> |ops| > |st.t0| - st.rehashidx
    ensures var st' := Run(hash, st, ops); !Rehashing(st') && st'.iterators == 0 && CanExpand(st', Minimal(st'))
    decreases |ops|
  {
    hide Valid, Do, Ended;
    if Rehashing(st) { RehashPlace(hash, st); }
    if ops != [] {
      if Rehashing(st) { DoProgress(hash, st, ops[0]); EndedIterators(hash, st, ops[0]); } else { DoIdle(hash, st, ops[0]); }
      LookupsFinish(hash, Do(hash, st, ops[0]), ops[1..]);
    }
  }

  lemma EndedIterators<K, V>(hash: K -> nat, st: St<K, V>, op: Op<K, V>)
    requires Valid(hash, st)
    ensures var st' := Do(hash, st, op); Ended(st, st') ==> st'.iterators == st.iterators
  {
    hide Valid, Do;
  }

  /** Without a rehash going on, a lookup or deletion starts none. */
  lemma DoIdle<K, V>(hash: K -> nat, st: St<K, V>, op: Op<K, V>)
    requires Valid(hash, st) && !Rehashing(st) && (op.FindOp? || op.DeleteOp?)
    ensures var st' := Do(hash, st, op); !Rehashing(st') && st'.iterators == st.iterators
  {
    hide Valid, RehashStep, Delete, Lookup;
    StepIdle(hash, st);
    if op.DeleteOp? {
      if st.t0 == [] { DeleteNone(hash, st, op.k); }
      else {
        DeleteIs(hash, st, op.k);
        if Lookup(hash, st, op.k).Some? { RemoveSizes(hash, st, op.k); }
      }
    }
  }
}
