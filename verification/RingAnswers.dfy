/** When a push says that the queue is full, and a pop that it is empty (messagequeue.c:52-107), whatever other threads do
    between the two reads. */
module RingAnswers {
  import opened Wrappers
  import opened Division
  import opened Ring

  /** The indices that the push compares agree: the queue is full, or the ticket that seemed to be the next one has been
      claimed, published and taken out by others meanwhile. */
  ghost predicate SeemsFull<T>(s: Ring<T>, cur: nat)
    requires s.size > 0
  {
    || (s.writeIndex == cur && s.writeIndex + 1 == s.readIndex + s.size)
    || (s.readIndex > cur && (s.readIndex - cur - 1) % s.size == 0)
  }

  /** The indices that the pop compares agree: the queue is empty, or a full round of messages or more has been published since
      readIndex was read. */
  ghost predicate SeemsEmpty<T>(s: Ring<T>, cur: nat)
    requires s.size > 0
  {
    || (s.readIndex == cur && s.maximumReadIndex == cur)
    || (s.readIndex > cur && s.maximumReadIndex > cur && (s.maximumReadIndex - cur) % s.size == 0)
  }

  lemma SameIndex(size: nat, a: nat, b: nat)
    requires size > 0 && a <= b
    ensures CountToIndex(size, a) == CountToIndex(size, b) <==> (b - a) % size == 0
  {
    var q, r := Div(a, size), Mod(a, size);
    var p, e := Div(b - a, size), Mod(b - a, size);
    Sum(p, q, size);
    if r + e < size { DivUnique(b, size, q + p, r + e); }
    else {
      RoundOn(q + p, size);
      DivUnique(b, size, q + p + 1, r + e - size);
    }
  }

  lemma Sum(p: nat, q: nat, size: nat)
    ensures (q + p) * size == q * size + p * size
  {
  }

  lemma LessThanRound(n: nat, size: nat)
    requires 0 < n <= size
    ensures n % size == 0 <==> n == size
  {
    if n < size { DivUnique(n, size, 0, n); } else { DivUnique(n, size, 1, 0); }
  }

  /** A push comes to the answer full just in this case. */
  lemma FullExactly<T>(s: Ring<T>, i: nat, call: Call<T>)
    requires Inv(s) && i < |s.threads| && !s.threads[i].PushDone?
    ensures s.size > 0 && |s.slots| == s.size
    ensures Step(s, i, call).threads[i] == PushDone(false) <==> s.threads[i].PushReadRead? && SeemsFull(s, s.threads[i].cur)
  {
    Basics(s);
    assert ThreadOk(s, s.threads[i]);
    if s.threads[i].PushReadRead? { CompareFull(s, s.threads[i].cur); }
    hide CountToIndex, Inv, SeemsFull;
  }

  lemma CompareFull<T>(s: Ring<T>, cur: nat)
    requires Inv(s) && cur <= s.writeIndex
    ensures s.size > 0 && (CountToIndex(s.size, cur + 1) == CountToIndex(s.size, s.readIndex) <==> SeemsFull(s, cur))
  {
    assert Indices(s);
    hide Inv, CountToIndex;
    if s.readIndex > cur { SameIndex(s.size, cur + 1, s.readIndex); }
    else {
      SameIndex(s.size, s.readIndex, cur + 1);
      LessThanRound(cur + 1 - s.readIndex, s.size);
    }
  }

  /** A pop comes to the answer that there is nothing just in this case. */
  lemma EmptyExactly<T>(s: Ring<T>, i: nat, call: Call<T>)
    requires Inv(s) && i < |s.threads| && !s.threads[i].PopDone?
    ensures s.size > 0 && |s.slots| == s.size
    ensures Step(s, i, call).threads[i] == PopDone(None) <==> s.threads[i].PopReadMax? && SeemsEmpty(s, s.threads[i].cur)
  {
    Basics(s);
    assert ThreadOk(s, s.threads[i]);
    if s.threads[i].PopReadMax? { CompareEmpty(s, s.threads[i].cur); }
    hide CountToIndex, Inv, SeemsEmpty;
  }

  lemma CompareEmpty<T>(s: Ring<T>, cur: nat)
    requires Inv(s) && cur <= s.readIndex
    ensures s.size > 0 && (CountToIndex(s.size, cur) == CountToIndex(s.size, s.maximumReadIndex) <==> SeemsEmpty(s, cur))
  {
    assert Indices(s);
    hide Inv, CountToIndex;
    var n := s.maximumReadIndex - cur;
    SameIndex(s.size, cur, s.maximumReadIndex);
    if 0 < n <= s.size { LessThanRound(n, s.size); }
  }

  /** An operation under way ends with one of these answers or with its effect, and in no other way. */
  lemma EndsWithAnswer<T>(s: Ring<T>, i: nat, call: Call<T>)
    requires Inv(s) && i < |s.threads|
    ensures s.size > 0 && |s.slots| == s.size
    ensures
      var pc, pc' := s.threads[i], Step(s, i, call).threads[i];
      && (pc'.Idle? ==> pc.PushDone? || pc.PopDone?)
      && (pc' == PushDone(true) ==> pc.PushCount?)
      && (pc'.PopDone? && pc'.got.Some? ==> pc == PopCount(pc'.got.value))
  {
    Basics(s);
    hide CountToIndex, Inv;
  }

  // ----- a push that fails although the queue is empty -----

  lemma {:induction false} RunAdd<T>(s: Ring<T>, a: seq<(nat, Call<T>)>, b: seq<(nat, Call<T>)>)
    requires Inv(s) && (forall k :: 0 <= k < |a| ==> a[k].0 < |s.threads|) && forall k :: 0 <= k < |b| ==> b[k].0 < |s.threads|
    ensures Run(s, a + b) == Run(Run(s, a), b)
    decreases |a|
  {
    Basics(s);
    if |a| == 0 { assert a + b == b; }
    else {
      StepInv(s, a[0].0, a[0].1);
      assert (a + b)[0] == a[0] && (a + b)[1..] == a[1..] + b;
      hide Inv, Step;
      RunAdd(Step(s, a[0].0, a[0].1), a[1..], b);
    }
  }

  function Times<T>(i: nat, call: Call<T>, n: nat): (r: seq<(nat, Call<T>)>)
    ensures |r| == n && forall k :: 0 <= k < n ==> r[k] == (i, call)
  {
    if n == 0 then [] else [(i, call)] + Times(i, call, n - 1)
  }

  lemma {:induction false} SoloRun<T>(s: Ring<T>, i: nat, call: Call<T>, n: nat)
    requires Inv(s) && i < |s.threads|
    ensures s.size > 0 && |s.slots| == s.size && Run(s, Times(i, call, n)) == Solo(s, i, call, n)
    decreases n
  {
    Basics(s);
    if n > 0 {
      StepInv(s, i, call);
      hide Inv, Step;
      var r := Times(i, call, n);
      assert r[0] == (i, call) && r[1..] == Times(i, call, n - 1);
      SoloRun(Step(s, i, call), i, call, n - 1);
    }
  }

  /** Thread 0 reads writeIndex; thread 1 pushes and pops a message; thread 0 reads readIndex. */
  function Overtaken<T>(msg: T, x: T): seq<(nat, Call<T>)> {
    Times(0, Push(msg), 2) + Times(1, Push(x), 8) + Times(1, Pop, 6) + Times(0, Push(msg), 1)
  }

  lemma OneStep<T>(s: Ring<T>, i: nat, call: Call<T>)
    requires Inv(s) && i < |s.threads|
    ensures s.size > 0 && |s.slots| == s.size && Solo(s, i, call, 1) == Step(s, i, call) && Inv(Step(s, i, call))
  {
    Basics(s);
    StepInv(s, i, call);
    hide Inv, Step;
    assert Solo(s, i, call, 1) == Solo(Step(s, i, call), i, call, 0);
  }

  /** Thread 0 has read writeIndex. */
  lemma FirstReads<T>(s: Ring<T>, msg: T)
    requires Initial(s) && |s.threads| >= 2
    ensures Inv(s)
    ensures
      var s' := Run(s, Times(0, Push(msg), 2));
      Inv(s') && s' == Goto(s, 0, PushReadRead(msg, 0))
  {
    InitialInv(s);
    SoloRun(s, 0, Push(msg), 2);
    PushReads(s, 0, msg);
    StepInv(s, 0, Push(msg));
    hide Inv, Step;
    var s1 := Step(s, 0, Push(msg));
    assert Solo(s, 0, Push(msg), 2) == Solo(s1, 0, Push(msg), 1);
    OneStep(s1, 0, Push(msg));
  }

  /** A thread that has its answer goes back to being idle. */
  lemma GoesIdle<T>(s: Ring<T>, i: nat, call: Call<T>)
    requires Inv(s) && i < |s.threads| && (s.threads[i].PushDone? || s.threads[i].PopDone?)
    ensures Inv(Goto(s, i, Idle)) && Solo(s, i, call, 1) == Goto(s, i, Idle) && Queue(Goto(s, i, Idle)) == Queue(s)
  {
    OneStep(s, i, call);
    StepRefines(s, i, call);
    hide CountToIndex, Inv;
  }

  /** Thread 1 pushes, whatever thread 0 has read. */
  lemma OtherPushes<T>(s: Ring<T>, x: T)
    requires Inv(s) && |s.threads| >= 2 && s.threads[1].Idle? && s.size >= 2
    requires s.writeIndex == s.readIndex == s.maximumReadIndex == 0
    ensures
      var s' := Run(s, Times(1, Push(x), 8));
      Inv(s') && s'.threads == s.threads && Queue(s') == [x] && s'.readIndex == 0 && s'.maximumReadIndex == 1 && s'.size == s.size
  {
    hide Inv, Step, Run, CountToIndex, Solo, Queue;
    Basics(s);
    SoloRun(s, 1, Push(x), 8);
    PushChecks(s, 1, x);
    var s3 := Goto(s, 1, PushClaim(x, 0));
    ClaimReady(s, x);
    SoloAdd(s, 1, Push(x), 3, 5);
    SoloAdd(s3, 1, Push(x), 4, 1);
    PushFinishes(s3, 1, x);
    var s7 := Solo(s3, 1, Push(x), 4);
    assert s7.threads[1] == PushDone(true);
    GoesIdle(s7, 1, Push(x));
    assert s3.threads[1 := PushDone(true)][1 := Idle] == s.threads;
  }

  lemma ClaimReady<T>(s: Ring<T>, x: T)
    requires Inv(s) && |s.threads| >= 2 && s.threads[1].Idle? && s.size >= 2
    requires s.writeIndex == s.readIndex == s.maximumReadIndex == 0
    ensures var s3 := Goto(s, 1, PushClaim(x, 0)); Inv(s3) && Queue(s3) == []
  {
    GotoInv(s, 1, PushClaim(x, 0));
  }

  lemma OtherPops<T>(s: Ring<T>, x: T)
    requires Inv(s) && |s.threads| >= 2 && s.threads[1].Idle? && Queue(s) == [x] && s.readIndex == 0 && s.maximumReadIndex == 1
    ensures
      var s' := Run(s, Times(1, Pop, 6));
      Inv(s') && s'.threads == s.threads[1 := PopDone(Some(x))] && Queue(s') == [] && s'.readIndex == 1 && s'.size == s.size
  {
    SoloRun(s, 1, Pop, 6);
    PopChecks(s, 1);
    var s3 := Goto(s, 1, PopLoad(0));
    GotoInv(s, 1, PopLoad(0));
    SoloAdd(s, 1, Pop, 3, 3);
    PopFinishes(s3, 1);
  }

  /** In a new queue that nobody has filled, a push says full and the queue is empty. */
  lemma FullWhenEmpty<T>(s: Ring<T>, msg: T, x: T)
    requires Initial(s) && |s.threads| >= 2 && s.size >= 2
    ensures Inv(s)
    ensures var s' := Run(s, Overtaken(msg, x)); s'.threads[0] == PushDone(false) && Queue(s') == []
  {
    hide Inv, Step, Queue, Run, Solo, CountToIndex;
    FirstReads(s, msg);
    var a, b, c, d := Times(0, Push(msg), 2), Times(1, Push(x), 8), Times(1, Pop, 6), Times(0, Push(msg), 1);
    RunAdd(s, a + b + c, d);
    RunAdd(s, a + b, c);
    RunAdd(s, a, b);
    var s1 := Run(s, a);
    OtherPushes(s1, x);
    var s2 := Run(s1, b);
    OtherPops(s2, x);
    var s3 := Run(s2, c);
    assert s3.threads[0] == PushReadRead(msg, 0);
    SoloRun(s3, 0, Push(msg), 1);
    LastReads(s3, msg);
  }

  lemma LastReads<T>(s: Ring<T>, msg: T)
    requires Inv(s) && |s.threads| >= 1 && s.threads[0] == PushReadRead(msg, 0) && s.readIndex == 1 && Queue(s) == []
    ensures s.size > 0 && |s.slots| == s.size
    ensures var s' := Solo(s, 0, Push(msg), 1); Inv(s') && |s'.threads| >= 1 && s'.threads[0] == PushDone(false) && Queue(s') == []
  {
    OneStep(s, 0, Push(msg));
    FullExactly(s, 0, Push(msg));
    assert SeemsFull(s, 0);
    StepRefines(s, 0, Push(msg));
    hide Inv, Step, Queue;
  }
}
