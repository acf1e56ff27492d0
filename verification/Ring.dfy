/** The lock-free ring queue (messagequeue.c, and alike contextqueue.c and arraylockfreequeue.c), run by
    many threads.  Each shared read, write and compare-and-swap is one step of one thread.

    Indices count tickets without bound; a slot is selected by the index modulo the size.  Two ghost
    sequences record what was pushed, in the order in which it was published, and what was popped. */
module Ring {
  import opened Wrappers
  import opened Division

  const MOD32: nat := 0x1_0000_0000

  /** Where a thread is.  The arguments are its local variables. */
  datatype Pc<T> =
    | Idle
    | PushReadWrite(msg: T)             // about to read writeIndex
    | PushReadRead(msg: T, cur: nat)    // about to read readIndex and to compare
    | PushClaim(msg: T, cur: nat)       // about to swap writeIndex
    | PushStore(msg: T, cur: nat)       // ticket claimed, about to store the message
    | PushPublish(msg: T, cur: nat)     // about to swap maximumReadIndex
    | PushCount                         // about to add to count
    | PushDone(ok: bool)
    | PopReadRead                       // about to read readIndex
    | PopReadMax(cur: nat)              // about to read maximumReadIndex and to compare
    | PopLoad(cur: nat)                 // about to copy the message
    | PopClaim(msg: T, cur: nat)        // about to swap readIndex
    | PopCount(msg: T)                  // about to subtract from count
    | PopDone(got: Option<T>)

  datatype Ring<T> = Ring(
    size: nat, writeIndex: nat, readIndex: nat, maximumReadIndex: nat, count: nat, slots: seq<T>,
    threads: seq<Pc<T>>, pushed: seq<T>, popped: seq<T>)

  /** What an idle thread starts to do. */
  datatype Call<T> = Push(msg: T) | Pop

  function CountToIndex(size: nat, count: nat): (i: nat)
    requires size > 0
    ensures i < size
  {
    count % size
  }

  function Goto<T>(s: Ring<T>, i: nat, pc: Pc<T>): Ring<T>
    requires i < |s.threads|
  {
    s.(threads := s.threads[i := pc])
  }

  /** One step of thread i; call is what it starts if it is idle. */
  function Step<T>(s: Ring<T>, i: nat, call: Call<T>): (s': Ring<T>)
    requires i < |s.threads| && s.size > 0 && |s.slots| == s.size
    ensures |s'.threads| == |s.threads| && s'.size == s.size && |s'.slots| == s.size
  {
    match s.threads[i]
    case Idle => Goto(s, i, if call.Push? then PushReadWrite(call.msg) else PopReadRead)
    case PushReadWrite(msg) => Goto(s, i, PushReadRead(msg, s.writeIndex))
    case PushReadRead(msg, cur) =>
      if CountToIndex(s.size, cur + 1) == CountToIndex(s.size, s.readIndex) then Goto(s, i, PushDone(false))
      else Goto(s, i, PushClaim(msg, cur))
    case PushClaim(msg, cur) =>
      if s.writeIndex == cur then Goto(s.(writeIndex := cur + 1), i, PushStore(msg, cur))
      else Goto(s, i, PushReadWrite(msg))
    case PushStore(msg, cur) =>
      Goto(s.(slots := s.slots[CountToIndex(s.size, cur) := msg]), i, PushPublish(msg, cur))
    case PushPublish(msg, cur) =>
      if s.maximumReadIndex == cur then
        Goto(s.(maximumReadIndex := cur + 1, pushed := s.pushed + [msg]), i, PushCount)
      else s
    case PushCount => Goto(s.(count := (s.count + 1) % MOD32), i, PushDone(true))
    case PushDone(_) => Goto(s, i, Idle)
    case PopReadRead => Goto(s, i, PopReadMax(s.readIndex))
    case PopReadMax(cur) =>
      if CountToIndex(s.size, cur) == CountToIndex(s.size, s.maximumReadIndex) then Goto(s, i, PopDone(None))
      else Goto(s, i, PopLoad(cur))
    case PopLoad(cur) => Goto(s, i, PopClaim(s.slots[CountToIndex(s.size, cur)], cur))
    case PopClaim(msg, cur) =>
      if s.readIndex == cur then Goto(s.(readIndex := cur + 1, popped := s.popped + [msg]), i, PopCount(msg))
      else Goto(s, i, PopReadRead)
    case PopCount(msg) => Goto(s.(count := (s.count + MOD32 - 1) % MOD32), i, PopDone(Some(msg)))
    case PopDone(_) => Goto(s, i, Idle)
  }

  // ----- the invariant -----

  /** A thread that has claimed a ticket and not yet published it. */
  predicate Owns<T>(pc: Pc<T>, t: nat) { (pc.PushStore? || pc.PushPublish?) && pc.cur == t }

  /** What a thread may rely on. */
  ghost predicate ThreadOk<T>(s: Ring<T>, pc: Pc<T>)
    requires s.size > 0 && |s.slots| == s.size && |s.pushed| == s.maximumReadIndex
  {
    match pc
    case PushReadRead(_, cur) => cur <= s.writeIndex
    case PushClaim(_, cur) => cur <= s.writeIndex && (cur == s.writeIndex ==> cur + 1 < s.readIndex + s.size)
    case PushStore(_, cur) => s.maximumReadIndex <= cur < s.writeIndex
    case PushPublish(msg, cur) =>
      s.maximumReadIndex <= cur < s.writeIndex && s.slots[CountToIndex(s.size, cur)] == msg
    case PopReadMax(cur) => cur <= s.readIndex
    case PopLoad(cur) => cur <= s.readIndex && (cur == s.readIndex ==> cur < s.maximumReadIndex)
    case PopClaim(msg, cur) =>
      cur <= s.readIndex && (cur == s.readIndex ==> cur < s.maximumReadIndex && msg == s.pushed[cur])
    case _ => true
  }

  /** How many threads have published but not yet counted, or popped but not yet counted. */
  function Uncounted<T>(threads: seq<Pc<T>>): int {
    if threads == [] then 0
    else
      var pc := threads[|threads| - 1];
      Uncounted(threads[..|threads| - 1]) + (if pc.PushCount? then 1 else if pc.PopCount? then -1 else 0)
  }

  ghost predicate Indices<T>(s: Ring<T>) {
    && s.size > 0 && |s.slots| == s.size
    && s.readIndex <= s.maximumReadIndex <= s.writeIndex < s.readIndex + s.size
    && |s.pushed| == s.maximumReadIndex && s.popped == s.pushed[..s.readIndex]
  }

  ghost predicate SlotsHold<T>(s: Ring<T>)
    requires Indices(s)
  {
    forall t :: s.readIndex <= t < s.maximumReadIndex ==> s.slots[CountToIndex(s.size, t)] == s.pushed[t]
  }

  ghost predicate Threads<T>(s: Ring<T>)
    requires Indices(s)
  {
    && (forall i :: 0 <= i < |s.threads| ==> ThreadOk(s, s.threads[i]))
    && (forall i, j, t: nat ::
          0 <= i < |s.threads| && 0 <= j < |s.threads| && Owns(s.threads[i], t) && Owns(s.threads[j], t) ==> i == j)
  }

  ghost predicate HasOwner<T>(threads: seq<Pc<T>>, t: nat) { exists i :: 0 <= i < |threads| && Owns(threads[i], t) }

  /** Every claimed ticket has a thread that will publish it. */
  ghost predicate Claimed<T>(s: Ring<T>)
    requires Indices(s)
  {
    forall t: nat :: s.maximumReadIndex <= t < s.writeIndex ==> HasOwner(s.threads, t)
  }

  ghost predicate Counted<T>(s: Ring<T>)
    requires Indices(s)
  {
    s.count == (s.maximumReadIndex - s.readIndex - Uncounted(s.threads)) % MOD32
  }

  ghost predicate Inv<T>(s: Ring<T>) { Indices(s) && SlotsHold(s) && Threads(s) && Claimed(s) && Counted(s) }

  /** A new queue and its threads. */
  predicate Initial<T>(s: Ring<T>) {
    && s.size > 0 && |s.slots| == s.size && s.writeIndex == s.readIndex == s.maximumReadIndex == 0 && s.count == 0
    && |s.pushed| == |s.popped| == 0 && forall i :: 0 <= i < |s.threads| ==> s.threads[i].Idle?
  }

  lemma {:induction false} NoneUncounted<T>(threads: seq<Pc<T>>)
    requires forall i :: 0 <= i < |threads| ==> !threads[i].PushCount? && !threads[i].PopCount?
    ensures Uncounted(threads) == 0
  {
    if threads != [] { NoneUncounted(threads[..|threads| - 1]); }
  }

  lemma InitialInv<T>(s: Ring<T>)
    requires Initial(s)
    ensures Inv(s)
  {
    NoneUncounted(s.threads);
  }

  function Weight<T>(pc: Pc<T>): int { if pc.PushCount? then 1 else if pc.PopCount? then -1 else 0 }

  lemma {:induction false} UncountedUpdate<T>(threads: seq<Pc<T>>, i: nat, pc: Pc<T>)
    requires i < |threads|
    ensures Uncounted(threads[i := pc]) == Uncounted(threads) - Weight(threads[i]) + Weight(pc)
  {
    var n := |threads| - 1;
    var u := threads[i := pc];
    if i == n {
      assert u[..n] == threads[..n];
    } else {
      UncountedUpdate(threads[..n], i, pc);
      assert u[..n] == threads[..n][i := pc];
    }
  }

  /** Tickets less than a round apart use different slots. */
  lemma DifferentSlots(size: nat, a: nat, b: nat)
    requires size > 0 && a < b < a + size
    ensures CountToIndex(size, a) != CountToIndex(size, b)
  {
    var q, r, e := Div(a, size), Mod(a, size), b - a;
    RoundOn(q, size);
    if r + e < size { DivUnique(b, size, q, r + e); } else { DivUnique(b, size, q + 1, r + e - size); }
  }

  lemma RoundOn(q: nat, size: nat)
    ensures (q + 1) * size == q * size + size
  {
  }

  lemma SameSlot(size: nat, a: nat)
    requires size > 0
    ensures CountToIndex(size, a + size) == CountToIndex(size, a)
  {
    RoundOn(Div(a, size), size);
    DivUnique(a + size, size, Div(a, size) + 1, Mod(a, size));
  }

  // ----- every step keeps the invariant -----

  /** Tickets that were claimed still are if they keep their owners. */
  lemma StillClaimed<T>(s: Ring<T>, s': Ring<T>)
    requires Indices(s) && Indices(s') && Claimed(s) && |s'.threads| == |s.threads|
    requires s'.maximumReadIndex >= s.maximumReadIndex
    requires forall t: nat, i :: s'.maximumReadIndex <= t < s'.writeIndex && t < s.writeIndex && 0 <= i < |s.threads| && Owns(s.threads[i], t)
                                 ==> Owns(s'.threads[i], t)
    requires forall t: nat :: s.writeIndex <= t < s'.writeIndex ==> HasOwner(s'.threads, t)
    ensures Claimed(s')
  {
    forall t: nat | s'.maximumReadIndex <= t < s'.writeIndex ensures HasOwner(s'.threads, t) {
      if t < s.writeIndex {
        assert HasOwner(s.threads, t);
        var i :| 0 <= i < |s.threads| && Owns(s.threads[i], t);
        assert Owns(s'.threads[i], t);
      }
    }
  }

  /** Nothing changes but where thread i is, and it owns no ticket it did not own before. */
  lemma GotoInv<T>(s: Ring<T>, i: nat, pc: Pc<T>)
    requires Inv(s) && i < |s.threads|
    requires ThreadOk(s, pc) && Weight(pc) == Weight(s.threads[i])
    requires forall t: nat :: Owns(pc, t) <==> Owns(s.threads[i], t)
    ensures Inv(Goto(s, i, pc))
  {
    UncountedUpdate(s.threads, i, pc);
    assert SlotsHold(Goto(s, i, pc));
    StillClaimed(s, Goto(s, i, pc));
  }

  /** Claiming a ticket. */
  lemma ClaimInv<T>(s: Ring<T>, i: nat, msg: T, cur: nat)
    requires Inv(s) && i < |s.threads| && s.threads[i] == PushClaim(msg, cur) && s.writeIndex == cur
    ensures Inv(Goto(s.(writeIndex := cur + 1), i, PushStore(msg, cur)))
  {
    var s' := Goto(s.(writeIndex := cur + 1), i, PushStore(msg, cur));
    UncountedUpdate(s.threads, i, PushStore(msg, cur));
    assert ThreadOk(s, s.threads[i]);
    assert Indices(s') && SlotsHold(s');
    forall j | 0 <= j < |s'.threads| ensures ThreadOk(s', s'.threads[j]) { assert ThreadOk(s, s.threads[j]); }
    forall j, t: nat | 0 <= j < |s.threads| && Owns(s.threads[j], t) ensures t < cur { assert ThreadOk(s, s.threads[j]); }
    assert Owns(s'.threads[i], cur);
    StillClaimed(s, s');
  }

  /** Storing the message into the slot of a claimed ticket. */
  lemma StoreInv<T>(s: Ring<T>, i: nat, msg: T, cur: nat)
    requires Inv(s) && i < |s.threads| && s.threads[i] == PushStore(msg, cur)
    ensures Inv(Goto(s.(slots := s.slots[CountToIndex(s.size, cur) := msg]), i, PushPublish(msg, cur)))
  {
    var s' := Goto(s.(slots := s.slots[CountToIndex(s.size, cur) := msg]), i, PushPublish(msg, cur));
    UncountedUpdate(s.threads, i, PushPublish(msg, cur));
    assert ThreadOk(s, s.threads[i]) && Owns(s.threads[i], cur);
    forall t | s.readIndex <= t < s.writeIndex && t != cur
      ensures CountToIndex(s.size, t) != CountToIndex(s.size, cur)
    {
      if t < cur { DifferentSlots(s.size, t, cur); } else { DifferentSlots(s.size, cur, t); }
    }
    assert SlotsHold(s');
    forall j | 0 <= j < |s'.threads| ensures ThreadOk(s', s'.threads[j]) {
      var pc := s.threads[j];
      assert ThreadOk(s, pc);
      if j != i && pc.PushPublish? { assert Owns(pc, pc.cur); assert pc.cur != cur; }
    }
    StillClaimed(s, s');
  }

  /** Publishing: the enqueue. */
  lemma PublishInv<T>(s: Ring<T>, i: nat, msg: T, cur: nat)
    requires Inv(s) && i < |s.threads| && s.threads[i] == PushPublish(msg, cur) && s.maximumReadIndex == cur
    ensures Inv(Goto(s.(maximumReadIndex := cur + 1, pushed := s.pushed + [msg]), i, PushCount))
  {
    hide CountToIndex;
    var s' := Goto(s.(maximumReadIndex := cur + 1, pushed := s.pushed + [msg]), i, PushCount);
    UncountedUpdate(s.threads, i, PushCount);
    assert ThreadOk(s, s.threads[i]) && Owns(s.threads[i], cur);
    assert Indices(s');
    assert SlotsHold(s');
    forall j | 0 <= j < |s'.threads| ensures ThreadOk(s', s'.threads[j]) {
      var pc := s.threads[j];
      assert ThreadOk(s, pc);
      if j != i && (pc.PushStore? || pc.PushPublish?) { assert Owns(pc, pc.cur); assert pc.cur != cur; }
    }
    StillClaimed(s, s');
    forall j, k, t: nat | 0 <= j < |s'.threads| && 0 <= k < |s'.threads| && Owns(s'.threads[j], t) && Owns(s'.threads[k], t)
      ensures j == k
    {
      assert Owns(s.threads[j], t) && Owns(s.threads[k], t);
    }
  }

  /** Taking a ticket out: the dequeue. */
  lemma TakeInv<T>(s: Ring<T>, i: nat, msg: T, cur: nat)
    requires Inv(s) && i < |s.threads| && s.threads[i] == PopClaim(msg, cur) && s.readIndex == cur
    ensures Inv(Goto(s.(readIndex := cur + 1, popped := s.popped + [msg]), i, PopCount(msg)))
  {
    hide CountToIndex;
    var s' := Goto(s.(readIndex := cur + 1, popped := s.popped + [msg]), i, PopCount(msg));
    UncountedUpdate(s.threads, i, PopCount(msg));
    assert ThreadOk(s, s.threads[i]);
    assert Indices(s') by { assert s'.popped == s'.pushed[..cur + 1]; }
    assert SlotsHold(s');
    StillClaimed(s, s');
    forall j | 0 <= j < |s'.threads| ensures ThreadOk(s', s'.threads[j]) { assert ThreadOk(s, s.threads[j]); }
    forall j, k, t: nat | 0 <= j < |s'.threads| && 0 <= k < |s'.threads| && Owns(s'.threads[j], t) && Owns(s'.threads[k], t)
      ensures j == k
    {
      assert Owns(s.threads[j], t) && Owns(s.threads[k], t);
    }
  }

  lemma ModAdd(a: int, b: int)
    ensures (a % MOD32 + b) % MOD32 == (a + b) % MOD32
  {
  }

  /** Counting, up or down. */
  lemma CountInv<T>(s: Ring<T>, i: nat, pc: Pc<T>, up: bool)
    requires Inv(s) && i < |s.threads| && (pc.PushDone? || pc.PopDone?)
    requires if up then s.threads[i].PushCount? else s.threads[i].PopCount?
    ensures Inv(Goto(s.(count := (s.count + if up then 1 else MOD32 - 1) % MOD32), i, pc))
  {
    hide CountToIndex;
    UncountedUpdate(s.threads, i, pc);
    var n := s.maximumReadIndex - s.readIndex - Uncounted(s.threads);
    var s' := Goto(s.(count := (s.count + if up then 1 else MOD32 - 1) % MOD32), i, pc);
    ModAdd(n, if up then 1 else MOD32 - 1);
    if !up { ModAdd(MOD32, n - 1); }
    assert Counted(s');
    forall j | 0 <= j < |s'.threads| ensures ThreadOk(s', s'.threads[j]) { assert ThreadOk(s, s.threads[j]); }
    assert SlotsHold(s');
    StillClaimed(s, s');
  }

  /** Looking for room: if nobody else has claimed a ticket meanwhile, there is. */
  lemma RoomInv<T>(s: Ring<T>, i: nat, msg: T, cur: nat)
    requires Inv(s) && i < |s.threads| && s.threads[i] == PushReadRead(msg, cur)
    ensures
      Inv(Goto(s, i, if CountToIndex(s.size, cur + 1) == CountToIndex(s.size, s.readIndex) then PushDone(false)
                     else PushClaim(msg, cur)))
  {
    assert ThreadOk(s, s.threads[i]);
    assert Indices(s);
    hide Inv, CountToIndex;
    if CountToIndex(s.size, cur + 1) == CountToIndex(s.size, s.readIndex) { GotoInv(s, i, PushDone(false)); }
    else {
      SameSlot(s.size, s.readIndex);
      GotoInv(s, i, PushClaim(msg, cur));
    }
  }

  lemma PushStepInv<T>(s: Ring<T>, i: nat, call: Call<T>)
    requires Inv(s) && i < |s.threads|
    requires var pc := s.threads[i]; pc.PushReadWrite? || pc.PushReadRead? || pc.PushClaim? || pc.PushStore? || pc.PushPublish?
    ensures Inv(Step(s, i, call))
  {
    assert ThreadOk(s, s.threads[i]);
    assert Indices(s);
    hide Inv, CountToIndex;
    match s.threads[i]
    case PushReadWrite(msg) => GotoInv(s, i, PushReadRead(msg, s.writeIndex));
    case PushReadRead(msg, cur) => RoomInv(s, i, msg, cur);
    case PushClaim(msg, cur) =>
      if s.writeIndex == cur { ClaimInv(s, i, msg, cur); } else { GotoInv(s, i, PushReadWrite(msg)); }
    case PushStore(msg, cur) => StoreInv(s, i, msg, cur);
    case PushPublish(msg, cur) => if s.maximumReadIndex == cur { PublishInv(s, i, msg, cur); }
  }

  lemma PopStepInv<T>(s: Ring<T>, i: nat, call: Call<T>)
    requires Inv(s) && i < |s.threads|
    requires var pc := s.threads[i]; pc.PopReadRead? || pc.PopReadMax? || pc.PopLoad? || pc.PopClaim?
    ensures Inv(Step(s, i, call))
  {
    assert ThreadOk(s, s.threads[i]);
    assert Indices(s) && SlotsHold(s);
    hide Inv, CountToIndex;
    match s.threads[i]
    case PopReadRead => GotoInv(s, i, PopReadMax(s.readIndex));
    case PopReadMax(cur) =>
      if CountToIndex(s.size, cur) == CountToIndex(s.size, s.maximumReadIndex) { GotoInv(s, i, PopDone(None)); }
      else { GotoInv(s, i, PopLoad(cur)); }
    case PopLoad(cur) => GotoInv(s, i, PopClaim(s.slots[CountToIndex(s.size, cur)], cur));
    case PopClaim(msg, cur) =>
      if s.readIndex == cur { TakeInv(s, i, msg, cur); } else { GotoInv(s, i, PopReadRead); }
  }

  /** Every step of every thread keeps the invariant. */
  lemma StepInv<T>(s: Ring<T>, i: nat, call: Call<T>)
    requires Inv(s) && i < |s.threads|
    ensures Inv(Step(s, i, call))
  {
    assert Indices(s);
    hide Inv, SlotsHold, Threads, Counted, ThreadOk;
    match s.threads[i]
    case Idle => GotoInv(s, i, if call.Push? then PushReadWrite(call.msg) else PopReadRead);
    case PushCount => CountInv(s, i, PushDone(true), true);
    case PushDone(_) => GotoInv(s, i, Idle);
    case PopReadRead => PopStepInv(s, i, call);
    case PopReadMax(_) => PopStepInv(s, i, call);
    case PopLoad(_) => PopStepInv(s, i, call);
    case PopClaim(_, _) => PopStepInv(s, i, call);
    case PopCount(msg) => CountInv(s, i, PopDone(Some(msg)), false);
    case PopDone(_) => GotoInv(s, i, Idle);
    case _ => PushStepInv(s, i, call);
  }

  // ----- what the queue is -----

  /** The messages in the queue, oldest first. */
  ghost function Queue<T>(s: Ring<T>): seq<T>
    requires Inv(s)
  {
    s.pushed[s.readIndex..]
  }

  /** Each step does nothing to the queue, or appends the message of a pusher about to publish, or takes
      out the first message, which the popper holds from then on. */
  lemma StepRefines<T>(s: Ring<T>, i: nat, call: Call<T>)
    requires Inv(s) && i < |s.threads|
    ensures Inv(Step(s, i, call))
    ensures
      var s', pc := Step(s, i, call), s.threads[i];
      var pc' := s'.threads[i];
      if pc.PushPublish? && pc'.PushCount? then
        Queue(s') == Queue(s) + [pc.msg] && s'.pushed == s.pushed + [pc.msg] && s'.popped == s.popped
      else if pc.PopClaim? && pc'.PopCount? then
        |Queue(s)| > 0 && pc'.msg == Queue(s)[0] && Queue(s') == Queue(s)[1..]
        && s'.popped == s.popped + [pc'.msg] && s'.pushed == s.pushed
      else Queue(s') == Queue(s) && s'.pushed == s.pushed && s'.popped == s.popped
  {
    StepInv(s, i, call);
    assert ThreadOk(s, s.threads[i]);
  }

  ghost function Run<T>(s: Ring<T>, schedule: seq<(nat, Call<T>)>): (s': Ring<T>)
    requires Inv(s) && forall k :: 0 <= k < |schedule| ==> schedule[k].0 < |s.threads|
    ensures Inv(s') && |s'.threads| == |s.threads|
    decreases |schedule|
  {
    if |schedule| == 0 then s
    else
      StepInv(s, schedule[0].0, schedule[0].1);
      Run(Step(s, schedule[0].0, schedule[0].1), schedule[1..])
  }

  /** In every run from a new queue: what was popped and what is in the queue is what was pushed, in order,
      and there are never more messages in the queue than fit. */
  lemma RunIsFifo<T>(s: Ring<T>, schedule: seq<(nat, Call<T>)>)
    requires Initial(s) && forall k :: 0 <= k < |schedule| ==> schedule[k].0 < |s.threads|
    ensures Inv(s)
    ensures
      var s' := Run(s, schedule);
      s'.popped + Queue(s') == s'.pushed && |Queue(s')| < s.size
  {
    InitialInv(s);
    RunSize(s, schedule);
  }

  lemma {:induction false} RunSize<T>(s: Ring<T>, schedule: seq<(nat, Call<T>)>)
    requires Inv(s) && forall k :: 0 <= k < |schedule| ==> schedule[k].0 < |s.threads|
    ensures Run(s, schedule).size == s.size
    decreases |schedule|
  {
    hide Inv, Step;
    Basics(s);
    if |schedule| > 0 {
      StepInv(s, schedule[0].0, schedule[0].1);
      RunSize(Step(s, schedule[0].0, schedule[0].1), schedule[1..]);
    }
  }

  ghost predicate AllIdle<T>(s: Ring<T>) { forall i :: 0 <= i < |s.threads| ==> s.threads[i].Idle? }

  /** When no operation is under way, nothing is half done and the counter is exact. */
  lemma QuietIsExact<T>(s: Ring<T>)
    requires Inv(s) && AllIdle(s)
    ensures s.maximumReadIndex == s.writeIndex && s.count == |Queue(s)| % MOD32
  {
    NoneUncounted(s.threads);
    assert !HasOwner(s.threads, s.maximumReadIndex);
  }

  /** Thread i alone takes n steps. */
  function Solo<T>(s: Ring<T>, i: nat, call: Call<T>, n: nat): Ring<T>
    requires i < |s.threads| && s.size > 0 && |s.slots| == s.size
    decreases n
  {
    if n == 0 then s else Solo(Step(s, i, call), i, call, n - 1)
  }

  /** Undisturbed, a push fails exactly if size - 1 messages are in the queue. */
  lemma SoloPush<T>(s: Ring<T>, i: nat, msg: T)
    requires Inv(s) && AllIdle(s) && i < |s.threads|
    ensures
      if |Queue(s)| == s.size - 1 then Solo(s, i, Push(msg), 3) == Goto(s, i, PushDone(false))
      else
        var s' := Solo(s, i, Push(msg), 7);
        s'.threads == s.threads[i := PushDone(true)] && Inv(s') && Queue(s') == Queue(s) + [msg]
  {
    QuietIsExact(s);
    PushChecks(s, i, msg);
    if |Queue(s)| < s.size - 1 {
      var s3 := Goto(s, i, PushClaim(msg, s.writeIndex));
      GotoInv(s, i, PushClaim(msg, s.writeIndex));
      PushFinishes(s3, i, msg);
      SoloAdd(s, i, Push(msg), 3, 4);
    }
  }

  lemma {:induction false} SoloAdd<T>(s: Ring<T>, i: nat, call: Call<T>, n: nat, m: nat)
    requires i < |s.threads| && s.size > 0 && |s.slots| == s.size
    ensures var s' := Solo(s, i, call, n); |s'.threads| == |s.threads| && s'.size == s.size && |s'.slots| == s'.size
    ensures Solo(s, i, call, n + m) == Solo(Solo(s, i, call, n), i, call, m)
    decreases n
  {
    hide Step;
    if n > 0 { SoloAdd(Step(s, i, call), i, call, n - 1, m); }
  }

  /** The first three steps of a push look whether there is room. */
  lemma PushChecks<T>(s: Ring<T>, i: nat, msg: T)
    requires Inv(s) && i < |s.threads| && s.threads[i].Idle?
    ensures
      Solo(s, i, Push(msg), 3)
      == Goto(s, i, if s.writeIndex + 1 == s.readIndex + s.size then PushDone(false) else PushClaim(msg, s.writeIndex))
  {
    Basics(s);
    ThreeSteps(s, i, Push(msg));
    PushReads(s, i, msg);
    PushCompares(s, i, msg);
  }

  lemma PushReads<T>(s: Ring<T>, i: nat, msg: T)
    requires i < |s.threads| && s.threads[i].Idle? && s.size > 0 && |s.slots| == s.size
    ensures Step(Step(s, i, Push(msg)), i, Push(msg)) == Goto(s, i, PushReadRead(msg, s.writeIndex))
  {
    hide CountToIndex;
    GotoGoto(s, i, PushReadWrite(msg), PushReadRead(msg, s.writeIndex));
  }

  lemma PushCompares<T>(s: Ring<T>, i: nat, msg: T)
    requires Inv(s) && i < |s.threads| && s.size > 0 && |s.slots| == s.size
    ensures
      Step(Goto(s, i, PushReadRead(msg, s.writeIndex)), i, Push(msg))
      == Goto(s, i, if s.writeIndex + 1 == s.readIndex + s.size then PushDone(false) else PushClaim(msg, s.writeIndex))
  {
    RoomSeen(s);
    hide CountToIndex, Inv;
    GotoGoto(s, i, PushReadRead(msg, s.writeIndex),
             if s.writeIndex + 1 == s.readIndex + s.size then PushDone(false) else PushClaim(msg, s.writeIndex));
  }

  /** The indices agree modulo the size exactly if there is no room. */
  lemma RoomSeen<T>(s: Ring<T>)
    requires Inv(s)
    ensures s.size > 0
    ensures CountToIndex(s.size, s.writeIndex + 1) == CountToIndex(s.size, s.readIndex)
            <==> s.writeIndex + 1 == s.readIndex + s.size
  {
    if s.writeIndex + 1 == s.readIndex + s.size { SameSlot(s.size, s.readIndex); }
    else { DifferentSlots(s.size, s.readIndex, s.writeIndex + 1); }
  }

  lemma GotoGoto<T>(s: Ring<T>, i: nat, a: Pc<T>, b: Pc<T>)
    requires i < |s.threads|
    ensures Goto(Goto(s, i, a), i, b) == Goto(s, i, b)
  {
    assert s.threads[i := a][i := b] == s.threads[i := b];
  }

  lemma ThreeSteps<T>(s: Ring<T>, i: nat, call: Call<T>)
    requires i < |s.threads| && s.size > 0 && |s.slots| == s.size
    ensures
      var s1 := Step(s, i, call);
      i < |s1.threads| && s1.size > 0 && |s1.slots| == s1.size &&
      var s2 := Step(s1, i, call);
      i < |s2.threads| && s2.size > 0 && |s2.slots| == s2.size && Solo(s, i, call, 3) == Step(s2, i, call)
  {
    hide Step;
    var s1 := Step(s, i, call);
    var s2 := Step(s1, i, call);
    assert Solo(s, i, call, 3) == Solo(s1, i, call, 2) == Solo(s2, i, call, 1) == Solo(Step(s2, i, call), i, call, 0);
  }

  /** The next four do it. */
  lemma PushFinishes<T>(s: Ring<T>, i: nat, msg: T)
    requires Inv(s) && i < |s.threads| && s.threads[i] == PushClaim(msg, s.writeIndex) && s.maximumReadIndex == s.writeIndex
    ensures
      var s' := Solo(s, i, Push(msg), 4);
      s'.threads == s.threads[i := PushDone(true)] && Inv(s') && Queue(s') == Queue(s) + [msg]
      && s'.maximumReadIndex == s'.writeIndex == s.writeIndex + 1 && s'.readIndex == s.readIndex && s'.size == s.size
  {
    hide Inv, CountToIndex, Queue;
    var call := Push(msg);
    Basics(s);
    var s1 := Step(s, i, call);
    StepRefines(s, i, call);
    Basics(s1);
    var s2 := Step(s1, i, call);
    StepRefines(s1, i, call);
    Basics(s2);
    var s3 := Step(s2, i, call);
    StepRefines(s2, i, call);
    Basics(s3);
    var s4 := Step(s3, i, call);
    StepRefines(s3, i, call);
    Basics(s4);
    assert Solo(s, i, call, 4) == Solo(s1, i, call, 3) == Solo(s2, i, call, 2) == Solo(s3, i, call, 1) == Solo(s4, i, call, 0);
  }

  lemma Basics<T>(s: Ring<T>)
    requires Inv(s)
    ensures s.size > 0 && |s.slots| == s.size && s.readIndex <= s.maximumReadIndex == |s.pushed|
    ensures |Queue(s)| == s.maximumReadIndex - s.readIndex
  {
  }

  /** Undisturbed, a pop fails exactly if the queue is empty; else it returns the oldest message. */
  lemma SoloPop<T>(s: Ring<T>, i: nat)
    requires Inv(s) && AllIdle(s) && i < |s.threads|
    ensures
      if |Queue(s)| == 0 then Solo(s, i, Pop, 3) == Goto(s, i, PopDone(None))
      else
        var s' := Solo(s, i, Pop, 6);
        s'.threads == s.threads[i := PopDone(Some(Queue(s)[0]))] && Inv(s') && Queue(s') == Queue(s)[1..]
  {
    PopChecks(s, i);
    if |Queue(s)| > 0 {
      var s3 := Goto(s, i, PopLoad(s.readIndex));
      GotoInv(s, i, PopLoad(s.readIndex));
      PopFinishes(s3, i);
      SoloAdd(s, i, Pop, 3, 3);
    }
  }

  lemma PopChecks<T>(s: Ring<T>, i: nat)
    requires Inv(s) && i < |s.threads| && s.threads[i].Idle?
    ensures
      Solo(s, i, Pop, 3)
      == Goto(s, i, if s.readIndex == s.maximumReadIndex then PopDone(None) else PopLoad(s.readIndex))
  {
    if s.readIndex < s.maximumReadIndex { DifferentSlots(s.size, s.readIndex, s.maximumReadIndex); }
    Basics(s);
    hide CountToIndex, Inv;
    var s1, s2 := Goto(s, i, PopReadRead), Goto(s, i, PopReadMax(s.readIndex));
    GotoGoto(s, i, PopReadRead, s2.threads[i]);
    assert Step(s1, i, Pop) == s2;
    var pc := if s.readIndex == s.maximumReadIndex then PopDone(None) else PopLoad(s.readIndex);
    GotoGoto(s, i, s2.threads[i], pc);
    assert Step(s2, i, Pop) == Goto(s2, i, pc);
    ThreeSteps(s, i, Pop);
  }

  lemma PopFinishes<T>(s: Ring<T>, i: nat)
    requires Inv(s) && i < |s.threads| && s.threads[i] == PopLoad(s.readIndex) && s.readIndex < s.maximumReadIndex
    ensures
      var s' := Solo(s, i, Pop, 3);
      s'.threads == s.threads[i := PopDone(Some(Queue(s)[0]))] && Inv(s') && Queue(s') == Queue(s)[1..]
      && s'.readIndex == s.readIndex + 1 && s'.maximumReadIndex == s.maximumReadIndex && s'.size == s.size
  {
    hide Inv, CountToIndex, Queue;
    Basics(s);
    var s1 := Step(s, i, Pop);
    StepRefines(s, i, Pop);
    Basics(s1);
    var s2 := Step(s1, i, Pop);
    StepRefines(s1, i, Pop);
    Basics(s2);
    var s3 := Step(s2, i, Pop);
    StepRefines(s2, i, Pop);
    Basics(s3);
    assert Solo(s, i, Pop, 3) == Solo(s1, i, Pop, 2) == Solo(s2, i, Pop, 1) == Solo(s3, i, Pop, 0);
  }

  // ----- the size -----

  /** nextpow2 on 32-bit words. */
  function NextPow2(num: bv32): bv32 {
    var n0 := num - 1;
    var n1 := n0 | (n0 >> 1);
    var n2 := n1 | (n1 >> 2);
    var n3 := n2 | (n2 >> 4);
    var n4 := n3 | (n3 >> 8);
    var n5 := n4 | (n4 >> 16);
    n5 + 1
  }

  /** For all sizes that a word can hold the result is the least power of two that is not smaller. */
  lemma NextPow2Is(num: bv32)
    requires 1 <= num <= 0x8000_0000
    ensures var p := NextPow2(num); p & (p - 1) == 0 && p >= num && (p >> 1) < num
  {
  }
}
