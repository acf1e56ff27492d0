/** The dictionary of dict.c: bucket arrays updated in place.  Each operation is proved to do what
    module DictState says. */
module Dict {
  import opened Wrappers
  import opened Entries
  import opened DictTables
  import opened DictState
  import opened DictProgress
  import opened Division
  import opened ReverseBits
  import opened ScanCursor
  import DictScan
  import opened DictIter

  class Dict<K(==), V> {
    const hash: K -> nat
    /** Bits of an unsigned long. */
    const word: nat
    var t0: array<Chain<K, V>>
    var t1: array<Chain<K, V>>
    var used0: int
    var used1: int
    var rehashidx: int
    var iterators: int

    constructor (hash: K -> nat, word: nat)
      ensures this.hash == hash && this.word == word && State() == DictState.Empty() && fresh(t0) && fresh(t1) && Separate() && InOrder()
    {
      this.hash, this.word := hash, word;
      t0, t1 := new Chain[0], new Chain[0];
      used0, used1, rehashidx, iterators := 0, 0, -1, 0;
      new;
      assert Items<K, V>([]) == multiset{};
    }

    ghost predicate Separate()
      reads this
    {
      t0 != t1
    }

    ghost function State(): St<K, V>
      reads this, t0, t1
    {
      St(t0[..], used0, t1[..], used1, rehashidx, iterators)
    }

    ghost predicate InOrder()
      reads this, t0, t1
    {
      Separate() && Valid(hash, State())
    }

    predicate IsRehashing()
      reads this
    {
      rehashidx != -1
    }

    /** Make a larger table; the entries stay where they are until rehash steps move them. */
    method Expand(size: int) returns (ok: bool)
      requires InOrder()
      modifies this
      ensures InOrder() && (t0 == old(t0) || fresh(t0)) && (t1 == old(t1) || fresh(t1))
      ensures ok == CanExpand(old(State()), size) && State() == DictState.Expand(old(State()), size)
    {
      hide Shape, Unique, All, NextPower;
      ExpandKeeps(hash, State(), size);
      if IsRehashing() || used0 > size { return false; }
      var realsize := Power(size);
      var n := new Chain<K, V>[realsize](_ => []);
      assert n[..] == NoBuckets(realsize);
      ghost var st := State();
      if t0.Length == 0 {
        t0 := n;
        used0 := 0;
      } else {
        t1 := n;
        used1 := 0;
        rehashidx := 0;
      }
      ok := true;
    }

    /** The table capacity is a power of two. */
    static method Power(size: int) returns (i: nat)
      ensures i == NextPower(DICT_HT_INITIAL_SIZE, size)
    {
      i := DICT_HT_INITIAL_SIZE;
      while i < size
        invariant i > 0 && NextPower(i, size) == NextPower(DICT_HT_INITIAL_SIZE, size)
        decreases size - i
      {
        i := i * 2;
      }
    }

    /** Resize the table to the smallest size that holds its entries. */
    method Resize(canResize: bool) returns (ok: bool)
      requires InOrder()
      modifies this
      ensures InOrder() && (t0 == old(t0) || fresh(t0)) && (t1 == old(t1) || fresh(t1))
      ensures ok == (canResize && !Rehashing(old(State())))
      ensures
        var n := if old(used0) < DICT_HT_INITIAL_SIZE then DICT_HT_INITIAL_SIZE else old(used0);
        State() == if canResize then DictState.Expand(old(State()), n) else old(State())
    {
      if !canResize || IsRehashing() { return false; }
      var minimal := used0;
      if minimal < DICT_HT_INITIAL_SIZE { minimal := DICT_HT_INITIAL_SIZE; }
      ok := Expand(minimal);
    }

    /** Move the entries of one chain to table 1. */
    method MoveBucket(c: Chain<K, V>)
      requires Separate() && t1.Length > 0
      modifies this`used0, this`used1, t1
      ensures t0[..] == old(t0[..]) && t1[..] == MoveChain(hash, old(t1[..]), c)
      ensures used0 == old(used0) - |c| && used1 == old(used1) + |c|
    {
      var de := 0;
      while de < |c|
        invariant 0 <= de <= |c| && t0[..] == old(t0[..])
        invariant MoveChain(hash, t1[..], c[de..]) == MoveChain(hash, old(t1[..]), c)
        invariant used0 == old(used0) - de && used1 == old(used1) + de
      {
        ghost var t := t1[..];
        var h := hash(c[de].key) % t1.Length;
        t1[h] := [c[de]] + t1[h];
        used0 := used0 - 1;
        used1 := used1 + 1;
        assert t1[..] == Push(hash, t, c[de]);
        assert c[de..][0] == c[de] && c[de..][1..] == c[de + 1..];
        de := de + 1;
      }
    }

    /** Move the next bucket that is not empty. */
    method MoveNext()
      requires InOrder() && IsRehashing() && used0 != 0
      modifies this, t0, t1
      ensures InOrder() && t0 == old(t0) && t1 == old(t1)
      ensures
        var st := old(State());
        NextFull(st.t0, st.rehashidx) < |st.t0| && State() == RehashOne(hash, st) && Rehashing(State())
    {
      hide Valid, Push, MoveChain, NextFull;
      ghost var st := State();
      RehashOneKeeps(hash, st);
      RehashPlace(hash, st);
      SkipEmpty();
      MoveBucket(t0[rehashidx]);
      t0[rehashidx] := [];
      rehashidx := rehashidx + 1;
      assert State() == RehashOne(hash, st);
    }

    /** Find the next bucket that is not empty. */
    method SkipEmpty()
      requires 0 <= rehashidx <= t0.Length && NextFull(t0[..], rehashidx) < t0.Length
      modifies this`rehashidx
      ensures rehashidx == NextFull(t0[..], old(rehashidx))
    {
      while t0[rehashidx] == []
        invariant 0 <= rehashidx < t0.Length && NextFull(t0[..], rehashidx) == NextFull(t0[..], old(rehashidx))
        decreases t0.Length - rehashidx
      {
        rehashidx := rehashidx + 1;
      }
    }

    /** Perform n steps of incremental rehashing. */
    method Rehash(n: nat) returns (more: bool)
      requires InOrder()
      modifies this, t0, t1
      ensures InOrder() && (t0 == old(t0) || t0 == old(t1)) && (t1 == old(t1) || fresh(t1))
      ensures State() == DictState.Rehash(hash, old(State()), n)
      ensures more == Rehashing(State())
    {
      hide Shape, Unique, All, RehashOne, NextFull;
      if !IsRehashing() { return false; }
      var left := n;
      while left > 0
        invariant 0 <= left <= n && InOrder() && Rehashing(State()) && t0 == old(t0) && t1 == old(t1)
        invariant DictState.Rehash(hash, State(), left) == DictState.Rehash(hash, old(State()), n)
      {
        if used0 == 0 {
          RehashEnds(hash, State(), left);
          t0, used0 := t1, used1;
          t1, used1 := new Chain[0], 0;
          rehashidx := -1;
          assert t1[..] == [];
          return false;
        }
        RehashGoesOn(hash, State(), left);
        MoveNext();
        left := left - 1;
      }
      more := true;
    }

    /** A step of rehashing, unless safe iterators are running. */
    method RehashStep()
      requires InOrder()
      modifies this, t0, t1
      ensures InOrder() && (t0 == old(t0) || t0 == old(t1)) && (t1 == old(t1) || fresh(t1))
      ensures State() == DictState.RehashStep(hash, old(State()))
    {
      if iterators == 0 { var _ := Rehash(1); }
    }

    /** The place of a key in a chain. */
    static method PositionIn(c: Chain<K, V>, k: K) returns (j: nat)
      ensures j == Position(c, k)
    {
      j := 0;
      while j < |c| && c[j].key != k
        invariant 0 <= j <= |c| && Position(c, k) == j + Position(c[j..], k)
      {
        assert c[j..][1..] == c[j + 1..];
        j := j + 1;
      }
    }

    /** Expand the hash table if needed.  This never fails. */
    method ExpandWhenFull(canResize: bool) returns (ok: bool)
      requires InOrder()
      modifies this
      ensures InOrder() && (t0 == old(t0) || fresh(t0)) && (t1 == old(t1) || fresh(t1))
      ensures ok && State() == ExpandIfNeeded(old(State()), canResize) && t0.Length > 0
    {
      ExpandIfNeededKeeps(hash, State(), canResize);
      hide Valid;
      if IsRehashing() { return true; }
      if t0.Length == 0 {
        NoTableNoEntries(hash, State());
        ok := Expand(DICT_HT_INITIAL_SIZE);
        return;
      }
      if used0 >= t0.Length && (canResize || used0 / t0.Length > DICT_FORCE_RESIZE_RATIO) {
        ok := Expand(used0 * 2);
        return;
      }
      ok := true;
    }

    /** The table with the given number. */
    function Ht(table: int): (t: array<Chain<K, V>>)
      reads this
    {
      if table == 0 then t0 else t1
    }

    /** The bucket for a new key, in the table that takes new entries; -1 if the key is there already. */
    method KeyIndex(canResize: bool, k: K) returns (index: int)
      requires InOrder()
      modifies this
      ensures InOrder() && (t0 == old(t0) || fresh(t0)) && (t1 == old(t1) || fresh(t1))
      ensures State() == ExpandIfNeeded(old(State()), canResize) && t0.Length > 0 && (IsRehashing() ==> t1.Length > 0)
      ensures index == -1 <==> Lookup(hash, State(), k).Some?
      ensures index != -1 ==> index == Bucket(hash, if Rehashing(State()) then t1[..] else t0[..], k)
    {
      var ok := ExpandWhenFull(canResize);
      if !ok { return -1; }
      TableSizes(hash, State());
      hide Valid, ExpandIfNeeded;
      index := Search(k);
    }

    /** Look for a key in the tables in use; -1 if it is there, else its bucket in the last table. */
    method Search(k: K) returns (index: int)
      requires t0.Length > 0 && (if Rehashing(State()) then t1.Length > 0 else t1.Length == 0)
      ensures index == -1 <==> Lookup(hash, State(), k).Some?
      ensures index != -1 ==> index == Bucket(hash, if Rehashing(State()) then t1[..] else t0[..], k)
    {
      var h := hash(k);
      index := h % t0.Length;
      var he := PositionIn(t0[index], k);
      if he < |t0[index]| { return -1; }
      if IsRehashing() {
        index := h % t1.Length;
        he := PositionIn(t1[index], k);
        if he < |t1[index]| { return -1; }
      }
    }

    /** Add a key and the value the caller fills in; nothing happens if the key is there. */
    method Add(canResize: bool, k: K, v: V) returns (ok: bool)
      requires InOrder()
      modifies this, t0, t1
      ensures InOrder() && (t0 == old(t0) || t0 == old(t1) || fresh(t0)) && (t1 == old(t1) || fresh(t1))
      ensures (State(), ok) == DictState.Add(hash, old(State()), canResize, k, v)
      ensures Steps(old(State())) ==> Progress(old(State()), State())
    {
      hide Shape, Unique, Lookup, DictState.RehashStep, ExpandIfNeeded, Insert, DictState.Add, All, Bucket, Placed, Progress;
      if Steps(State()) { AddProgress(hash, State(), canResize, k, v); }
      if IsRehashing() { RehashStep(); } else { StepIdle(hash, State()); }
      var index := KeyIndex(canResize, k);
      AddIs(hash, old(State()), canResize, k, v);
      if index == -1 { return false; }
      InsertAt(index, Entry(k, v));
      ok := true;
    }

    /** Put a new entry in front of its chain. */
    method InsertAt(index: int, e: Entry<K, V>)
      requires Separate() && t0.Length > 0 && (IsRehashing() ==> t1.Length > 0)
      requires index == Bucket(hash, if Rehashing(State()) then t1[..] else t0[..], e.key)
      modifies this`used0, this`used1, t0, t1
      ensures State() == Insert(hash, old(State()), e)
    {
      if IsRehashing() {
        t1[index] := [e] + t1[index];
        used1 := used1 + 1;
      } else {
        t0[index] := [e] + t0[index];
        used0 := used0 + 1;
      }
    }

    /** Add a key, or replace its value; tells whether the key was added. */
    method Replace(canResize: bool, k: K, v: V) returns (isNew: bool)
      requires InOrder()
      modifies this, t0, t1
      ensures InOrder() && (t0 == old(t0) || t0 == old(t1) || fresh(t0)) && (t1 == old(t1) || fresh(t1))
      ensures (State(), isNew) == DictState.Replace(hash, old(State()), canResize, k, v)
      ensures Steps(old(State())) ==> Ended(old(State()), State()) || (old(used0) != 0 && GoesOn(old(State()), State()))
    {
      hide Shape, Unique, All, MapOf, DictState.RehashStep, DictState.Replace, DictState.Add, Assign, Lookup, HasKey, Ended,
        GoesOn, Progress;
      if Steps(State()) { ReplaceProgress(hash, State(), canResize, k, v); }
      ghost var st := State();
      isNew := Add(canResize, k, v);
      ReplaceIs(hash, st, canResize, k, v);
      if isNew { return; }
      if IsRehashing() { RehashStep(); } else { StepIdle(hash, State()); }
      AssignKeeps(hash, State(), k, v);
      SetAt(k, v);
    }

    /** Set the value of a key that is there. */
    method SetAt(k: K, v: V)
      requires Separate() && Lookup(hash, State(), k).Some?
      modifies t0, t1
      ensures State() == Assign(hash, old(State()), k, v)
    {
      var h := hash(k);
      if t0.Length > 0 {
        var idx := h % t0.Length;
        var he := PositionIn(t0[idx], k);
        if he < |t0[idx]| {
          t0[idx] := t0[idx][he := Entry(t0[idx][he].key, v)];
          return;
        }
      }
      var idx := h % t1.Length;
      var he := PositionIn(t1[idx], k);
      t1[idx] := t1[idx][he := Entry(t1[idx][he].key, v)];
    }

    /** Search and remove a key. */
    method Delete(k: K) returns (ok: bool)
      requires InOrder()
      modifies this, t0, t1
      ensures InOrder() && (t0 == old(t0) || t0 == old(t1)) && (t1 == old(t1) || fresh(t1))
      ensures (State(), ok) == DictState.Delete(hash, old(State()), k)
      ensures Steps(old(State())) ==> Progress(old(State()), State()) && (IsRehashing() <==> old(used0) != 0)
    {
      hide Shape, Unique, All, MapOf, DictState.RehashStep, DictState.Delete, Remove, Lookup, Progress;
      if Steps(State()) { DeleteProgress(hash, State(), k); }
      if t0.Length == 0 {
        DeleteNone(hash, State(), k);
        return false;
      }
      DeleteIs(hash, State(), k);
      if IsRehashing() { RehashStep(); } else { StepIdle(hash, State()); }
      TableSizes(hash, State());
      if Lookup(hash, State(), k).Some? { RemoveKeeps(hash, State(), k); }
      ok := UnlinkIn(k);
    }

    /** Take a key out of the chain that has it. */
    method UnlinkIn(k: K) returns (ok: bool)
      requires Separate() && t0.Length > 0 && (if IsRehashing() then t1.Length > 0 else t1.Length == 0)
      modifies this`used0, this`used1, t0, t1
      ensures ok == Lookup(hash, old(State()), k).Some?
      ensures State() == if ok then Remove(hash, old(State()), k) else old(State())
    {
      var h := hash(k);
      var idx := h % t0.Length;
      var he := PositionIn(t0[idx], k);
      if he < |t0[idx]| {
        t0[idx] := t0[idx][..he] + t0[idx][he + 1..];
        used0 := used0 - 1;
        return true;
      }
      if !IsRehashing() { return false; }
      idx := h % t1.Length;
      he := PositionIn(t1[idx], k);
      if he < |t1[idx]| {
        t1[idx] := t1[idx][..he] + t1[idx][he + 1..];
        used1 := used1 - 1;
        return true;
      }
      ok := false;
    }

    /** Find the value of a key.  This may move a bucket, but it does not change what is in the dictionary. */
    method Find(k: K) returns (v: Option<V>)
      requires InOrder()
      modifies this, t0, t1
      ensures InOrder() && (t0 == old(t0) || t0 == old(t1)) && (t1 == old(t1) || fresh(t1))
      ensures State() == if old(State()).t0 == [] then old(State()) else DictState.RehashStep(hash, old(State()))
      ensures Contents(hash, State()) == old(Contents(hash, State()))
      ensures v == if k in old(Contents(hash, State())) then Some(old(Contents(hash, State()))[k]) else None
      ensures Steps(old(State())) ==> Progress(old(State()), State()) && (IsRehashing() <==> old(used0) != 0)
    {
      hide Shape, Unique, MapOf, DictState.RehashStep, All, Lookup, Progress;
      if Steps(State()) { FindProgress(hash, State()); }
      NoTable(hash, State());
      if t0.Length == 0 { return None; }
      FindStep(hash, State());
      if IsRehashing() { RehashStep(); } else { StepIdle(hash, State()); }
      TableSizes(hash, State());
      LookupIsContents(hash, State(), k);
      v := ValueOf(k);
    }

    method ValueOf(k: K) returns (v: Option<V>)
      requires t0.Length > 0 && (if IsRehashing() then t1.Length > 0 else t1.Length == 0)
      ensures v == Lookup(hash, State(), k)
    {
      var h := hash(k);
      var idx := h % t0.Length;
      var he := PositionIn(t0[idx], k);
      if he < |t0[idx]| { return Some(t0[idx][he].value); }
      if !IsRehashing() { return None; }
      idx := h % t1.Length;
      he := PositionIn(t1[idx], k);
      return if he < |t1[idx]| then Some(t1[idx][he].value) else None;
    }

    /** A safe iterator starts. */
    method OpenIterator()
      requires InOrder()
      modifies this`iterators
      ensures InOrder() && State() == old(State()).(iterators := old(iterators) + 1)
    {
      SameInOrder(hash, State(), iterators + 1);
      iterators := iterators + 1;
    }

    /** Report the entries of a chain. */
    method Emit(chain: Chain<K, V>, reported: seq<Entry<K, V>>) returns (r: seq<Entry<K, V>>)
      ensures r == reported + chain
    {
      r := reported;
      var de := 0;
      while de < |chain|
        invariant 0 <= de <= |chain| && r == reported + chain[..de]
      {
        r := r + [chain[de]];
        de := de + 1;
      }
    }

    /** One call of a scan: report some buckets, and move the cursor on. */
    method Scan(v: nat) returns (v': nat, reported: seq<Entry<K, V>>)
      requires InOrder() && DictScan.Fits(word, State())
      ensures v' == DictScan.Scan(word, State(), v).0 && reported == DictScan.Scan(word, State(), v).1
    {
      if used0 + used1 == 0 { return 0, []; }
      ghost var st := State();
      hide Valid, P, Mod, ScanCursor.Next, DictScan.Log2, DictScan.Chains, DictScan.Visits, DictScan.Scan,
        DictScan.SizesFit;
      DictScan.ScanIs(word, hash, st, v);
      if !IsRehashing() {
        v', reported := ScanTables(v, t0, t0, false);
      } else if t0.Length > t1.Length {
        v', reported := ScanTables(v, t1, t0, true);
      } else {
        v', reported := ScanTables(v, t0, t1, true);
      }
    }

    method ScanTables(v: nat, small: array<Chain<K, V>>, large: array<Chain<K, V>>, both: bool)
      returns (v': nat, reported: seq<Entry<K, V>>)
      requires DictScan.SizesFit(word, |small[..]|, |large[..]|) && DictScan.SizesFit(word, |small[..]|, |small[..]|)
      ensures v' == ScanCursor.Next(word, DictScan.Log2(|small[..]|), v)
      ensures
        var visits := DictScan.Visits(word, DictScan.Log2(|small[..]|), DictScan.Log2(|large[..]|), v);
        reported == small[..][Mod(v, |small[..]|)] + if both then DictScan.Chains(large[..], visits) else []
    {
      hide P, Mod, ScanCursor.Next, DictScan.Log2, DictScan.Chains, DictScan.Visits;
      reported := Emit(small[Mod(v, small.Length)], []);
      v' := v;
      if both {
        v', reported := Expansions(v, small, large, reported);
      }
      DictScan.SameNext(word, DictScan.Log2(small.Length), v, v');
      v' := NextCursor(v', small.Length);
    }

    /** Set the bits of the cursor that the mask leaves out and increment the reversed cursor. */
    method NextCursor(v: nat, size: nat) returns (v': nat)
      requires DictScan.SizesFit(word, size, size)
      ensures v' == ScanCursor.Next(word, DictScan.Log2(size), v)
    {
      PowMonotone(DictScan.Log2(size), word);
      v' := Rev(word, Mod(v, size) + (P(word) - size));
      v' := Rev(word, Mod(v' + 1, P(word)));
    }

    /** Report the buckets of the larger table that the cursor expands to. */
    method Expansions(v: nat, small: array<Chain<K, V>>, large: array<Chain<K, V>>, before: seq<Entry<K, V>>)
      returns (v': nat, reported: seq<Entry<K, V>>)
      requires DictScan.SizesFit(word, |small[..]|, |large[..]|)
      ensures
        var b0, b1 := DictScan.Log2(small.Length), DictScan.Log2(large.Length);
        && Mod(v', P(b0)) == Mod(v, P(b0))
        && reported == before + DictScan.Chains(large[..], DictScan.Visits(word, b0, b1, v))
    {
      hide P, Mod, Div, High, DictScan.UpBy, DictScan.Visits, DictScan.Chains;
      ghost var b0, b1 := DictScan.Log2(small.Length), DictScan.Log2(large.Length);
      v', reported := v, before;
      var more := true;
      while more
        invariant Mod(v', P(b0)) == Mod(v, P(b0))
        invariant
          before + DictScan.Chains(large[..], DictScan.Visits(word, b0, b1, v))
          == reported + if more then DictScan.Chains(large[..], DictScan.Visits(word, b0, b1, v')) else []
        decreases if more then 1 + P(b1 - b0) - High(b0, b1, v') else 0
      {
        DictScan.UpHigh(word, b0, b1, v');
        DictScan.UpIs(word, b0, v');
        DictScan.VisitsStep(large[..], word, b0, b1, v');
        reported := Emit(large[Mod(v', large.Length)], reported);
        v' := DictScan.UpBy(word, small.Length, v');
        var high := HighPart(v', small.Length, large.Length);
        more := high != 0;
      }
    }

    /** The bits of the cursor that the larger mask has and the smaller one has not. */
    method HighPart(v: nat, small: nat, large: nat) returns (h: nat)
      requires DictScan.SizesFit(word, small, large)
      ensures h == High(DictScan.Log2(small), DictScan.Log2(large), v)
    {
      DictScan.Ratio(word, small, large);
      h := Mod(Div(v, small), Div(large, small));
    }
  }

  /** An iterator; a safe one keeps rehashing from going on while it is open. */
  class DictIterator<K(==), V> {
    const d: Dict<K, V>
    const safe: bool
    var table: int
    var index: int
    var entry: Option<K>
    var nextEntry: Option<K>

    constructor (d: Dict<K, V>, safe: bool)
      ensures this.d == d && this.safe == safe && Current() == Fresh()
    {
      this.d, this.safe := d, safe;
      table, index := 0, -1;
      entry, nextEntry := None, None;
    }

    ghost function Current(): It<K>
      reads this
    {
      It(table, index, entry, nextEntry)
    }

    /** The iterator fits the dictionary as it is. */
    ghost predicate Fitting()
      reads this, d, d.t0, d.t1
    {
      d.InOrder() && ItOk(d.State(), Current())
    }

    /** The next entry, or nothing.  The first call opens a safe iterator. */
    method Next() returns (r: Option<K>)
      requires Fitting()
      modifies this, d`iterators
      ensures Fitting()
      ensures
        var first := old(Current().index == -1 && Current().table == 0 && Current().entry.None?);
        d.State() == old(d.State()).(iterators := old(d.iterators) + if first && safe then 1 else 0)
      ensures
        var st := old(d.State());
        (Rehashing(st) ==> st.t1 != []) && Current() == DictIter.Next(st, old(Current())).0 && r == DictIter.Next(st, old(Current())).1
    {
      hide Valid, OnePlace, ItOk, DictIter.Next, TableAt, ItRange;
      ghost var st, it0 := d.State(), Current();
      TableSizes(d.hash, st);
      ValidOnePlace(d.hash, st);
      NextOk(st, it0);
      ItOkRange(st, it0);
      if entry.None? && index == -1 && table == 0 && safe { d.OpenIterator(); }
      ItOkSame(st, d.iterators, DictIter.Next(st, it0).0);
      r := Advance(st);
    }

    /** Turn by turn until there is an entry, or there is none left. */
    method Advance(ghost st: St<K, V>) returns (r: Option<K>)
      requires ItOk(st, Current()) && ItRange(st, Current()) && (Rehashing(st) ==> st.t1 != []) && OnePlace(st)
      requires d.State() == st.(iterators := d.iterators)
      modifies this
      ensures Current() == DictIter.Next(st, old(Current())).0 && r == DictIter.Next(st, old(Current())).1
    {
      ghost var it0 := Current();
      hide OnePlace, ItOk, Turn, DictIter.Next;
      while true
        invariant ItOk(st, Current())
        invariant ItRange(st, Current()) && DictIter.Next(st, Current()) == DictIter.Next(st, it0)
        decreases 1 - table, if index < |TableAt(st, table)| then |TableAt(st, table)| - index else 0, entry.Some?
      {
        TurnOk(st, Current());
        ItOkRange(st, Turn(st, Current()).0);
        NextTurn(st, Current());
        var done := Go(st);
        if done { return None; }
        if entry.Some? { return entry; }
      }
    }

    /** One turn: on to the saved entry, or to the next bucket. */
    method Go(ghost st: St<K, V>) returns (done: bool)
      requires ItRange(st, Current()) && (Rehashing(st) ==> st.t1 != []) && d.State() == st.(iterators := d.iterators)
      modifies this
      ensures Current() == Turn(st, old(Current())).0 && done == Turn(st, old(Current())).1
    {
      var ht := d.Ht(table);
      if entry.None? {
        index := index + 1;
        if index >= ht.Length {
          if d.IsRehashing() && table == 0 {
            table, index := 1, 0;
            ht := d.t1;
          } else {
            return true;
          }
        }
        entry := KeyAt(ht[index], 0);
        nextEntry := KeyAt(ht[index], 1);
      } else {
        entry := nextEntry;
        if entry.Some? { nextEntry := After(ht[index], entry.value); }
      }
      done := false;
    }

    /** Close an iterator that was opened. */
    method Release()
      modifies d`iterators
      ensures d.iterators == old(d.iterators) - if safe && !(index == -1 && table == 0) then 1 else 0
    {
      if !(index == -1 && table == 0) && safe { d.iterators := d.iterators - 1; }
    }
  }
}
