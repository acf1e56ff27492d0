/** A scan that misses a key because the table shrinks to a quarter between two of its calls: the inner loop
    of dictScan (dict.c:799) visits only the expansions from the cursor's own high bits upwards. */
module DictShrink {
  import opened Entries
  import opened DictTables
  import opened DictState
  import opened Division
  import opened ReverseBits
  import opened ScanCursor
  import opened DictScan
  import opened DictRuns

  function Identity(k: nat): nat { k }

  /** Sixteen buckets that hold the key 4. */
  function Before(): St<nat, nat> { St(NoBuckets(16)[4 := [Entry(4, 0)]], 1, [], 0, -1, 0) }

  /** The same after dictResize. */
  function After(): St<nat, nat> { Expand(Before(), Minimal(Before())) }

  lemma FourBuckets()
    ensures After() == Before().(t1 := NoBuckets(4), rehashidx := 0)
  {
    assert NextPower(DICT_HT_INITIAL_SIZE, 4) == 4;
  }

  lemma BothValid()
    ensures Valid(Identity, Before()) && Valid(Identity, After())
    ensures Present(Identity, Before(), 4) && Present(Identity, After(), 4)
  {
    hide Shape, Unique, Items, MapOf, Expand;
    var e := Entry(4, 0);
    BeforeValid();
    ExpandKeeps(Identity, Before(), Minimal(Before()));
    assert e in All(Before()) && e in All(After());
    ContentsKeys(Identity, Before(), 4);
    ContentsKeys(Identity, After(), 4);
  }

  lemma BeforeValid()
    ensures Valid(Identity, Before()) && All(Before()) == multiset{Entry(4, 0)}
  {
    hide Placed, IsPow2;
    var t, e := NoBuckets<nat, nat>(16), Entry(4, 0);
    EmptyBuckets<nat, nat>(Identity, 16);
    assert Push(Identity, t, e) == Before().t0 by { assert [e] + t[4] == [e]; }
    PushKeeps(Identity, t, e);
    assert Items(Before().t0) == multiset{e};
    ItemsEmpty<nat, nat>([]);
    SixteenIsPower();
    NothingPlaced(Identity);
  }

  lemma SixteenIsPower()
    ensures IsPow2(16)
  {
    assert IsPow2(1) && IsPow2(2) && IsPow2(4) && IsPow2(8);
  }

  lemma NothingPlaced(hash: nat -> nat)
    ensures Placed<nat, nat>(hash, []) && Items<nat, nat>([]) == multiset{}
  {
  }

  /** The cursors of the scan: one call before, four after the resize. */
  function Cursors(): seq<nat> { [0, 8, 2, 1, 3, 0] }

  lemma BitsAre()
    ensures Bits(Small(Before())) == Bits(Large(Before())) == 4
    ensures Bits(Small(After())) == 2 && Bits(Large(After())) == 4
  {
    FourBuckets();
    assert Log2(4) == 1 + Log2(2) && Log2(2) == 1 + Log2(1);
    assert Log2(16) == 1 + Log2(8) && Log2(8) == 1 + Log2(4);
  }

  lemma Powers()
    ensures P(0) == 1 && P(1) == 2 && P(2) == 4 && P(3) == 8 && P(4) == 16
  {
  }

  lemma Reversals()
    ensures Rev(4, 0) == 0 && Rev(4, 1) == 8
    ensures Rev(2, 0) == 0 && Rev(2, 1) == 2 && Rev(2, 2) == 1 && Rev(2, 3) == 3 && Rev(2, 8) == 0
  {
    Powers();
    assert Rev(1, 0) == 0 && Rev(1, 1) == 1 && Rev(1, 4) == 0;
    assert Rev(2, 0) == 0;
    assert Rev(3, 0) == 0;
  }

  lemma CallBefore(w: nat)
    requires w >= 4
    ensures Fits(w, Before()) && Scan(w, Before(), 0).0 == 8
  {
    BitsAre();
    Reversals();
    Powers();
    NextIs(w, 4, 0);
    hide Visits, Next, Rev, P;
  }

  lemma CallAfter(w: nat, v: nat)
    requires w >= 4 && v in {8, 2, 1, 3}
    ensures Fits(w, After()) && Scan(w, After(), v).0 == if v == 8 then 2 else if v == 2 then 1 else if v == 1 then 3 else 0
  {
    BitsAre();
    FourBuckets();
    var st := After();
    assert st.used0 + st.used1 == 1;
    assert Fits(w, st);
    hide Visits, Next, Rev, P, After, Small, Large;
    Reversals();
    Powers();
    NextIs(w, 2, v);
  }

  /** One call finds the tables a, the others find b. */
  function States(a: St<nat, nat>, b: St<nat, nat>): seq<St<nat, nat>> { [a, b, b, b, b] }

  predicate CallsFrom(w: nat, st: St<nat, nat>, v: nat, v': nat) { Fits(w, st) && Scan(w, st, v).0 == v' }

  lemma IsScanRun(w: nat, a: St<nat, nat>, b: St<nat, nat>)
    requires Valid(Identity, a) && Valid(Identity, b)
    requires CallsFrom(w, a, 0, 8)
    requires CallsFrom(w, b, 8, 2) && CallsFrom(w, b, 2, 1) && CallsFrom(w, b, 1, 3) && CallsFrom(w, b, 3, 0)
    ensures ScanRun(w, Identity, States(a, b), Cursors())
  {
    hide Valid, Scan, Fits;
  }

  lemma {:induction false} ChainsMiss(t: Table<nat, nat>, buckets: seq<nat>, k: nat)
    requires forall i :: i in buckets && i < |t| ==> forall e :: e in t[i] ==> e.key != k
    ensures forall e :: e in Chains(t, buckets) ==> e.key != k
  {
    if buckets != [] { ChainsMiss(t, buckets[1..], k); }
  }

  /** After the resize, none of the cursors leads to bucket 4 of the larger table. */
  lemma NotVisited(w: nat, v: nat)
    requires w >= 4 && v in {8, 2, 1, 3}
    ensures 4 !in Visits(w, 2, 4, v)
  {
    Powers();
    VisitsAre(w, 2, 4, v, 4);
    hide P, Visits;
    DivUnique(4, 16, 0, 4);
    DivUnique(4, 4, 1, 0);
    DivUnique(1, 4, 0, 1);
    if v == 8 {
      DivUnique(8, 4, 2, 0);
      DivUnique(2, 4, 0, 2);
      assert High(2, 4, 4) == 1 && High(2, 4, 8) == 2;
    } else {
      DivUnique(v, 4, 0, v);
    }
  }

  lemma NotReportedBefore(w: nat)
    requires w >= 4
    ensures Fits(w, Before()) && !Reports(w, Before(), 0, 4)
  {
    BitsAre();
    Powers();
    var st := Before();
    hide Visits, Next;
    DivUnique(0, 16, 0, 0);
    ChainsMiss(Small(st), [Mod(0, P(Bits(Small(st))))], 4);
  }

  lemma NotReportedAfter(w: nat, v: nat)
    requires w >= 4 && v in {8, 2, 1, 3}
    ensures Fits(w, After()) && !Reports(w, After(), v, 4)
  {
    BitsAre();
    FourBuckets();
    Powers();
    var st := After();
    NotVisited(w, v);
    ChainsMiss(Large(st), Visits(w, 2, 4, v), 4);
    hide Visits, Next;
    ChainsMiss(Small(st), [Mod(v, P(Bits(Small(st))))], 4);
  }

  lemma NoneReports(w: nat, a: St<nat, nat>, b: St<nat, nat>)
    requires ScanRun(w, Identity, States(a, b), Cursors())
    requires Fits(w, a) && Fits(w, b) && !Reports(w, a, 0, 4)
    requires !Reports(w, b, 8, 4) && !Reports(w, b, 2, 4) && !Reports(w, b, 1, 4) && !Reports(w, b, 3, 4)
    ensures !Reported(w, Identity, States(a, b), Cursors(), 4, 5)
  {
    hide Reports, ScanRun;
  }

  lemma DoResize(st: St<nat, nat>)
    requires Valid(Identity, st)
    ensures Do(Identity, st, ResizeOp(true)) == Expand(st, Minimal(st))
  {
    hide Valid, Expand;
  }

  lemma ResizeShrinks()
    ensures Shrinks(Before(), ResizeOp(true))
  {
    var st := Before();
    assert NextPower(DICT_HT_INITIAL_SIZE, 4) == 4;
    assert Minimal(st) == 4 && |st.t0| == 16 && CanExpand(st, 4);
  }

  /** There is a scan, from tables a through a resize to tables b, during which the key 4 is there at every
      call, and no call reports it. */
  lemma ShrinkingMisses(w: nat) returns (a: St<nat, nat>, b: St<nat, nat>)
    requires w >= 4
    ensures ScanRun(w, Identity, States(a, b), Cursors())
    ensures Valid(Identity, a) && Valid(Identity, b) && Present(Identity, a, 4) && Present(Identity, b, 4)
    ensures !Reported(w, Identity, States(a, b), Cursors(), 4, 5)
    ensures b == Do(Identity, a, ResizeOp(true)) && Shrinks(a, ResizeOp(true))
  {
    hide ScanRun, Reported, Reports, Present, Valid, Scan, Fits, Do, Shrinks;
    a, b := Before(), After();
    BothValid();
    DoResize(a);
    ResizeShrinks();
    CallBefore(w);
    CallAfter(w, 8);
    CallAfter(w, 2);
    CallAfter(w, 1);
    CallAfter(w, 3);
    NotReportedBefore(w);
    NotReportedAfter(w, 8);
    NotReportedAfter(w, 2);
    NotReportedAfter(w, 1);
    NotReportedAfter(w, 3);
    hide Before, After;
    IsScanRun(w, a, b);
    NoneReports(w, a, b);
  }
}
