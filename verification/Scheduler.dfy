/** The worker pool (worker_pool.c, context.c) on top of the lock-free queues: any number of threads send
    messages and run contexts; each step of a thread touches shared memory once.

    The right to run a context is a token.  A sender creates it when it sets inGlobal, it travels through
    the run queue to a worker, and it ends when the worker clears inGlobal. */
module Scheduler {
  import opened Wrappers
  import opened Ring

  /** Where a thread is in handle.  Outside is a thread that is no worker. */
  datatype Worker<M> =
    | Outside
    | Popping                        // contextQueuePop
    | Dispatching(c: nat)            // messageQueuePop in contextDispatchMessage
    | Handling(c: nat, msg: M)       // the callback
    | Checking(c: nat)               // workerPoolHaveWork
    | Requeueing(c: nat)             // contextQueuePush
    | Releasing(c: nat)              // the asserted CAS(&ctx->inGlobal, 1, 0)
    | Resting
    | AssertionFailed

  /** Where a thread is in workerPoolSend. */
  datatype Sender<M> =
    | Quiet
    | Mailing(c: nat, msg: M)        // messageQueuePush
    | Claiming(c: nat)               // CAS(&toctx->inGlobal, 0, 1)
    | Enqueueing(c: nat)             // contextQueuePush

  datatype Sched<M> = Sched(
    inGlobal: seq<int>, queue: Ring<nat>, mail: seq<Ring<M>>, workers: seq<Worker<M>>, senders: seq<Sender<M>>,
    handled: seq<seq<M>>)

  /** What the code cannot decide by itself: whom to send what, how a callback ends (contextDispatchMessage
      returns 0, or -1 or -2), whether there seems to be work. */
  datatype Choice<M> = SendTo(c: nat, msg: M) | Work(ok: bool)

  ghost predicate Sizes<M>(s: Sched<M>) {
    && |s.mail| == |s.inGlobal| == |s.handled| && |s.senders| == |s.workers|
    && Inv(s.queue) && |s.queue.threads| == |s.workers|
    && forall c :: 0 <= c < |s.mail| ==> Inv(s.mail[c]) && |s.mail[c].threads| == |s.workers|
  }

  /** All contexts mentioned exist. */
  predicate Exists<M>(s: Sched<M>, i: nat)
    requires i < |s.workers| == |s.senders|
  {
    && (match s.workers[i]
        case Dispatching(c) => c < |s.inGlobal|
        case Handling(c, _) => c < |s.inGlobal|
        case Checking(c) => c < |s.inGlobal|
        case Requeueing(c) => c < |s.inGlobal|
        case Releasing(c) => c < |s.inGlobal|
        case _ => true)
    && (match s.senders[i]
        case Quiet => true
        case Mailing(c, _) => c < |s.inGlobal|
        case Claiming(c) => c < |s.inGlobal|
        case Enqueueing(c) => c < |s.inGlobal|)
  }

  predicate IsPush<T>(pc: Pc<T>) {
    pc.PushReadWrite? || pc.PushReadRead? || pc.PushClaim? || pc.PushStore? || pc.PushPublish? || pc.PushCount? || pc.PushDone?
  }

  /** Which thread uses the run queue for what. */
  predicate QueueUse<M>(w: Worker<M>, d: Sender<M>, pc: Pc<nat>) {
    if w.Popping? then d.Quiet? && !IsPush(pc)
    else if w.Requeueing? then d.Quiet? && (pc.Idle? || IsPush(pc))
    else if d.Enqueueing? then pc.Idle? || IsPush(pc)
    else pc.Idle?
  }

  /** Which thread uses the mailbox of c for what. */
  predicate MailUse<M>(w: Worker<M>, d: Sender<M>, pc: Pc<M>, c: nat) {
    if w.Dispatching? && w.c == c then d.Quiet? && !IsPush(pc)
    else if d.Mailing? && d.c == c then pc.Idle? || IsPush(pc)
    else pc.Idle?
  }

  /** Only callbacks and threads that are no workers send. */
  predicate SendsInCallback<M>(w: Worker<M>, d: Sender<M>) { d.Quiet? || w.Outside? || w.Handling? }

  // ----- steps -----

  function SetWorker<M>(s: Sched<M>, i: nat, w: Worker<M>): Sched<M>
    requires i < |s.workers|
  {
    s.(workers := s.workers[i := w])
  }

  function SetSender<M>(s: Sched<M>, i: nat, d: Sender<M>): Sched<M>
    requires i < |s.senders|
  {
    s.(senders := s.senders[i := d])
  }

  ghost function WorkerStep<M>(s: Sched<M>, i: nat, ch: Choice<M>): Sched<M>
    requires Sizes(s) && i < |s.workers| && Exists(s, i)
  {
    match s.workers[i]
    case Outside => s
    case Popping =>
      var pc := s.queue.threads[i];
      var s1 := s.(queue := Step(s.queue, i, Pop));
      if pc.PopDone? then
        SetWorker(s1, i, if pc.got.Some? && pc.got.value < |s.inGlobal| then Dispatching(pc.got.value) else Resting)
      else s1
    case Dispatching(c) =>
      var pc := s.mail[c].threads[i];
      var s1 := s.(mail := s.mail[c := Step(s.mail[c], i, Pop)]);
      if pc.PopDone? then
        if pc.got.Some? then SetWorker(s1, i, Handling(c, pc.got.value)).(handled := s.handled[c := s.handled[c] + [pc.got.value]])
        else SetWorker(s1, i, Releasing(c))
      else s1
    case Handling(c, _) =>
      if s.senders[i].Quiet? then SetWorker(s, i, if ch == Work(true) then Checking(c) else Releasing(c)) else s
    case Checking(c) => SetWorker(s, i, if ch == Work(true) then Requeueing(c) else Dispatching(c))
    case Requeueing(c) =>
      var s1 := s.(queue := Step(s.queue, i, Push(c)));
      if s.queue.threads[i].PushDone? then SetWorker(s1, i, Resting) else s1
    case Releasing(c) =>
      if s.inGlobal[c] == 1 then SetWorker(s.(inGlobal := s.inGlobal[c := 0]), i, Resting)
      else SetWorker(s, i, AssertionFailed)
    case Resting => SetWorker(s, i, Popping)
    case AssertionFailed => s
  }

  /** Messages are sent by callbacks and by threads that are no workers. */
  ghost function SenderStep<M>(s: Sched<M>, i: nat, ch: Choice<M>): Sched<M>
    requires Sizes(s) && i < |s.workers| && Exists(s, i)
  {
    if !s.workers[i].Outside? && !s.workers[i].Handling? then s
    else match s.senders[i]
      case Quiet => if ch.SendTo? && ch.c < |s.inGlobal| then SetSender(s, i, Mailing(ch.c, ch.msg)) else s
      case Mailing(c, msg) =>
        var pc := s.mail[c].threads[i];
        var s1 := s.(mail := s.mail[c := Step(s.mail[c], i, Push(msg))]);
        if pc.PushDone? then SetSender(s1, i, if pc.ok then Claiming(c) else Quiet) else s1
      case Claiming(c) =>
        if s.inGlobal[c] == 0 then SetSender(s.(inGlobal := s.inGlobal[c := 1]), i, Enqueueing(c))
        else SetSender(s, i, Quiet)
      case Enqueueing(c) =>
        var s1 := s.(queue := Step(s.queue, i, Push(c)));
        if s.queue.threads[i].PushDone? then SetSender(s1, i, Quiet) else s1
  }

  // ----- tokens -----

  /** Does an operation on the run queue hold the token of c? */
  predicate RingHolds(pc: Pc<nat>, c: nat) {
    match pc
    case PushReadWrite(m) => m == c
    case PushReadRead(m, _) => m == c
    case PushClaim(m, _) => m == c
    case PushStore(m, _) => m == c
    case PushPublish(m, _) => m == c
    case PopCount(m) => m == c
    case PopDone(got) => got == Some(c)
    case _ => false
  }

  predicate WorkerHolds<M>(w: Worker<M>, pc: Pc<nat>, c: nat) {
    match w
    case Dispatching(x) => x == c
    case Handling(x, _) => x == c
    case Checking(x) => x == c
    case Releasing(x) => x == c
    case Requeueing(x) => x == c && pc.Idle?
    case _ => false
  }

  predicate SenderHolds<M>(d: Sender<M>, pc: Pc<nat>, c: nat) { d.Enqueueing? && d.c == c && pc.Idle? }

  function Hold<M>(w: Worker<M>, d: Sender<M>, pc: Pc<nat>, c: nat): (n: nat) {
    (if RingHolds(pc, c) then 1 else 0) + (if WorkerHolds(w, pc, c) then 1 else 0) + (if SenderHolds(d, pc, c) then 1 else 0)
  }

  /** Tokens of c in the hands of the first n threads. */
  function Held<M>(ws: seq<Worker<M>>, ds: seq<Sender<M>>, pcs: seq<Pc<nat>>, c: nat, n: nat): (k: nat)
    requires n <= |ws| && n <= |ds| && n <= |pcs|
  {
    if n == 0 then 0 else Held(ws, ds, pcs, c, n - 1) + Hold(ws[n - 1], ds[n - 1], pcs[n - 1], c)
  }

  ghost function Tokens<M>(s: Sched<M>, c: nat): nat
    requires Sizes(s)
  {
    multiset(Queue(s.queue))[c] + Held(s.workers, s.senders, s.queue.threads, c, |s.workers|)
  }

  lemma {:induction false} HeldUpdate<M>(ws: seq<Worker<M>>, ds: seq<Sender<M>>, pcs: seq<Pc<nat>>, c: nat, n: nat, i: nat,
                                         w: Worker<M>, d: Sender<M>, pc: Pc<nat>)
    requires n <= |ws| && n <= |ds| && n <= |pcs| && i < |ws| && i < |ds| && i < |pcs|
    ensures
      Held(ws[i := w], ds[i := d], pcs[i := pc], c, n)
      == if i < n then Held(ws, ds, pcs, c, n) - Hold(ws[i], ds[i], pcs[i], c) + Hold(w, d, pc, c) else Held(ws, ds, pcs, c, n)
  {
    if n > 0 { HeldUpdate(ws, ds, pcs, c, n - 1, i, w, d, pc); }
  }

  lemma {:induction false} HeldAtLeast<M>(ws: seq<Worker<M>>, ds: seq<Sender<M>>, pcs: seq<Pc<nat>>, c: nat, n: nat, i: nat)
    requires n <= |ws| && n <= |ds| && n <= |pcs| && i < n
    ensures Held(ws, ds, pcs, c, n) >= Hold(ws[i], ds[i], pcs[i], c)
  {
    if i < n - 1 { HeldAtLeast(ws, ds, pcs, c, n - 1, i); }
  }

  lemma {:induction false} HeldAtLeastTwo<M>(ws: seq<Worker<M>>, ds: seq<Sender<M>>, pcs: seq<Pc<nat>>, c: nat, n: nat, i: nat, j: nat)
    requires n <= |ws| && n <= |ds| && n <= |pcs| && i < j < n
    ensures Held(ws, ds, pcs, c, n) >= Hold(ws[i], ds[i], pcs[i], c) + Hold(ws[j], ds[j], pcs[j], c)
  {
    if j < n - 1 { HeldAtLeastTwo(ws, ds, pcs, c, n - 1, i, j); } else { HeldAtLeast(ws, ds, pcs, c, n - 1, i); }
  }

  // ----- the invariant -----

  ghost predicate Roles<M>(s: Sched<M>)
    requires Sizes(s)
  {
    && (forall i :: 0 <= i < |s.workers| ==>
          Exists(s, i) && !s.workers[i].AssertionFailed? && SendsInCallback(s.workers[i], s.senders[i])
          && QueueUse(s.workers[i], s.senders[i], s.queue.threads[i]))
    && (forall i, c :: 0 <= i < |s.workers| && 0 <= c < |s.mail| ==>
          MailUse(s.workers[i], s.senders[i], s.mail[c].threads[i], c))
  }

  /** At most one token per context, none if inGlobal is 0. */
  ghost predicate OneToken<M>(s: Sched<M>)
    requires Sizes(s)
  {
    forall c :: 0 <= c < |s.inGlobal| ==> 0 <= s.inGlobal[c] <= 1 && Tokens(s, c) <= s.inGlobal[c]
  }

  /** A message that was popped and not yet handed over. */
  predicate HasMsg<M>(pc: Pc<M>) { pc.PopCount? || (pc.PopDone? && pc.got.Some?) }

  function MsgOf<M>(pc: Pc<M>): M
    requires HasMsg(pc)
  {
    if pc.PopCount? then pc.msg else pc.got.value
  }

  predicate InHand<M>(s: Sched<M>, c: nat, i: nat)
    requires i < |s.workers| && c < |s.mail| && |s.mail[c].threads| == |s.workers|
  {
    s.workers[i].Dispatching? && s.workers[i].c == c && HasMsg(s.mail[c].threads[i])
  }

  /** The messages handled are those popped from the mailbox, in order, but for one still in hand. */
  ghost predicate InOrder<M>(s: Sched<M>, c: nat)
    requires Sizes(s) && c < |s.mail|
  {
    && (forall i :: 0 <= i < |s.workers| && InHand(s, c, i) ==>
          s.mail[c].popped == s.handled[c] + [MsgOf(s.mail[c].threads[i])])
    && ((forall i :: 0 <= i < |s.workers| ==> !InHand(s, c, i)) ==> s.mail[c].popped == s.handled[c])
  }

  ghost predicate Good<M>(s: Sched<M>) {
    Sizes(s) && Roles(s) && OneToken(s) && forall c :: 0 <= c < |s.mail| ==> InOrder(s, c)
  }

  // ----- what the invariant promises -----

  /** A worker that is dispatching a context or handling one of its messages. */
  predicate Runs<M>(w: Worker<M>, c: nat) { (w.Dispatching? || w.Handling? || w.Checking? || w.Releasing?) && w.c == c }

  /** No two workers run the same context, and its inGlobal is set while one does. */
  lemma OneWorker<M>(s: Sched<M>, c: nat, i: nat, j: nat)
    requires Good(s) && i < |s.workers| && j < |s.workers| && c < |s.inGlobal|
    requires Runs(s.workers[i], c) && Runs(s.workers[j], c)
    ensures i == j && s.inGlobal[c] == 1
  {
    HeldAtLeast(s.workers, s.senders, s.queue.threads, c, |s.workers|, i);
    assert Tokens(s, c) <= s.inGlobal[c] <= 1;
    assert Hold(s.workers[i], s.senders[i], s.queue.threads[i], c) >= 1;
    assert Hold(s.workers[j], s.senders[j], s.queue.threads[j], c) >= 1;
    hide Sizes, Roles, InOrder, Hold;
    if i < j { HeldAtLeastTwo(s.workers, s.senders, s.queue.threads, c, |s.workers|, i, j); }
    if j < i { HeldAtLeastTwo(s.workers, s.senders, s.queue.threads, c, |s.workers|, j, i); }
  }

  /** The assertion in handle holds: a worker about to release its context finds inGlobal set. */
  lemma ReleaseSucceeds<M>(s: Sched<M>, i: nat)
    requires Good(s) && i < |s.workers| && s.workers[i].Releasing?
    ensures s.workers[i].c < |s.inGlobal| && s.inGlobal[s.workers[i].c] == 1
  {
    assert Exists(s, i);
    OneWorker(s, s.workers[i].c, i, i);
  }

  /** Messages are handled in the order in which the mailbox got them. */
  lemma HandledInOrder<M>(s: Sched<M>, c: nat)
    requires Good(s) && c < |s.mail|
    ensures s.handled[c] <= s.mail[c].pushed
  {
    assert InOrder(s, c);
    assert s.mail[c].popped == s.mail[c].pushed[..s.mail[c].readIndex];
    if i :| 0 <= i < |s.workers| && InHand(s, c, i) { assert s.handled[c] <= s.mail[c].popped; }
  }

  // ----- every step keeps the invariant: the run queue -----

  /** Where a step of the queue takes a thread. */
  lemma QueueStepThread<T>(q: Ring<T>, i: nat, call: Call<T>)
    requires i < |q.threads| && q.size > 0 && |q.slots| == q.size
    ensures
      var q', pc := Step(q, i, call), q.threads[i];
      var pc' := q'.threads[i];
      && q'.threads == q.threads[i := pc']
      && (pc.PopDone? || pc.PushDone? ==> pc'.Idle?)
      && (pc.Idle? && call.Push? ==> pc' == PushReadWrite(call.msg))
      && (pc.Idle? && call.Pop? ==> pc' == PopReadRead)
      && (IsPush(pc) && !pc.PushDone? ==> IsPush(pc') && !pc'.Idle?)
      && (!IsPush(pc) && !pc.Idle? ==> !IsPush(pc'))
  {
    hide CountToIndex;
  }

  /** Apart from taking from and appending to the queue, a step keeps what a thread holds, or drops it. */
  lemma QueueStepHolds(q: Ring<nat>, i: nat, call: Call<nat>, c: nat)
    requires i < |q.threads| && q.size > 0 && |q.slots| == q.size
    ensures
      var pc, pc' := q.threads[i], Step(q, i, call).threads[i];
      && (pc.PushPublish? && pc'.PushCount? ==> !RingHolds(pc', c) && (RingHolds(pc, c) <==> pc.msg == c))
      && (pc.PopClaim? && pc'.PopCount? ==> !RingHolds(pc, c) && (RingHolds(pc', c) <==> pc'.msg == c))
      && (!pc.Idle? && !(pc.PushPublish? && pc'.PushCount?) && !(pc.PopClaim? && pc'.PopCount?) && RingHolds(pc', c)
          ==> RingHolds(pc, c))
  {
    hide CountToIndex;
  }

  function One(b: bool): nat { if b then 1 else 0 }

  /** A step on the run queue moves tokens, or drops one; only the start of a push brings one in. */
  lemma QueueStepTokens(q: Ring<nat>, i: nat, call: Call<nat>, c: nat)
    requires Inv(q) && i < |q.threads|
    ensures
      var q', pc := Step(q, i, call), q.threads[i];
      Inv(q') &&
      var n, n' := multiset(Queue(q))[c], multiset(Queue(q'))[c];
      var h, h' := One(RingHolds(pc, c)), One(RingHolds(q'.threads[i], c));
      && (!pc.Idle? ==> n' + h' <= n + h)
      && (pc.PopDone? || pc.PushDone? || pc.Idle? ==> n' == n)
  {
    hide Step, Inv, RingHolds, Queue;
    Basics(q);
    StepRefines(q, i, call);
    QueueStepHolds(q, i, call, c);
    QueueStepThread(q, i, call);
    var q' := Step(q, i, call);
    var a, b := Queue(q), Queue(q');
    if |a| > 0 && b == a[1..] { assert a == [a[0]] + b; }
  }

  // ----- one thread moves -----

  /** Only thread i has moved. */
  ghost predicate Moves<M>(s: Sched<M>, s': Sched<M>, i: nat) {
    && Sizes(s) && Sizes(s') && i < |s.workers| == |s'.workers| && |s'.mail| == |s.mail|
    && s'.workers == s.workers[i := s'.workers[i]] && s'.senders == s.senders[i := s'.senders[i]]
    && s'.queue.threads == s.queue.threads[i := s'.queue.threads[i]]
    && forall c :: 0 <= c < |s.mail| ==> s'.mail[c].threads == s.mail[c].threads[i := s'.mail[c].threads[i]]
  }

  lemma RolesKept<M>(s: Sched<M>, s': Sched<M>, i: nat)
    requires Moves(s, s', i) && Roles(s)
    requires Exists(s', i) && !s'.workers[i].AssertionFailed? && SendsInCallback(s'.workers[i], s'.senders[i])
    requires QueueUse(s'.workers[i], s'.senders[i], s'.queue.threads[i])
    requires forall c :: 0 <= c < |s.mail| ==> MailUse(s'.workers[i], s'.senders[i], s'.mail[c].threads[i], c)
    ensures Roles(s')
  {
    hide QueueUse, MailUse, SendsInCallback;
    forall j | 0 <= j < |s'.workers|
      ensures Exists(s', j) && !s'.workers[j].AssertionFailed? && SendsInCallback(s'.workers[j], s'.senders[j])
              && QueueUse(s'.workers[j], s'.senders[j], s'.queue.threads[j])
    {
      if j != i { assert Exists(s, j); }
    }
    forall j, c | 0 <= j < |s'.workers| && 0 <= c < |s'.mail|
      ensures MailUse(s'.workers[j], s'.senders[j], s'.mail[c].threads[j], c)
    {
      if j != i { assert MailUse(s.workers[j], s.senders[j], s.mail[c].threads[j], c); }
    }
  }

  /** The tokens of c after the move of thread i. */
  lemma TokensMoved<M>(s: Sched<M>, s': Sched<M>, i: nat, c: nat)
    requires Moves(s, s', i)
    ensures
      Tokens(s', c) - Tokens(s, c)
      == multiset(Queue(s'.queue))[c] - multiset(Queue(s.queue))[c]
         + Hold(s'.workers[i], s'.senders[i], s'.queue.threads[i], c) - Hold(s.workers[i], s.senders[i], s.queue.threads[i], c)
  {
    HeldUpdate(s.workers, s.senders, s.queue.threads, c, |s.workers|, i, s'.workers[i], s'.senders[i], s'.queue.threads[i]);
    hide Queue;
  }

  /** The move creates no token. */
  ghost predicate NoMore<M>(s: Sched<M>, s': Sched<M>, i: nat, c: nat)
    requires Moves(s, s', i)
  {
    multiset(Queue(s'.queue))[c] + Hold(s'.workers[i], s'.senders[i], s'.queue.threads[i], c)
    <= multiset(Queue(s.queue))[c] + Hold(s.workers[i], s.senders[i], s.queue.threads[i], c)
  }

  lemma OneTokenKept<M>(s: Sched<M>, s': Sched<M>, i: nat)
    requires Moves(s, s', i) && OneToken(s) && s'.inGlobal == s.inGlobal
    requires forall c: nat :: c < |s.inGlobal| ==> NoMore(s, s', i, c)
    ensures OneToken(s')
  {
    forall c: nat | c < |s.inGlobal| ensures Tokens(s', c) <= s'.inGlobal[c] {
      assert NoMore(s, s', i, c);
      TokensMoved(s, s', i, c);
      assert Tokens(s, c) <= s.inGlobal[c];
    }
  }

  /** Nothing about the messages of c changes. */
  lemma InOrderKept<M>(s: Sched<M>, s': Sched<M>, i: nat, c: nat)
    requires Moves(s, s', i) && c < |s.mail| && InOrder(s, c)
    requires s'.mail[c].popped == s.mail[c].popped && s'.handled[c] == s.handled[c]
    requires InHand(s', c, i) <==> InHand(s, c, i)
    requires InHand(s, c, i) ==> MsgOf(s'.mail[c].threads[i]) == MsgOf(s.mail[c].threads[i])
    ensures InOrder(s', c)
  {
    forall j | 0 <= j < |s.workers|
      ensures InHand(s', c, j) <==> InHand(s, c, j)
      ensures InHand(s, c, j) ==> MsgOf(s'.mail[c].threads[j]) == MsgOf(s.mail[c].threads[j])
    {
      if j != i { assert s'.workers[j] == s.workers[j] && s'.mail[c].threads[j] == s.mail[c].threads[j]; }
    }
  }

  // ----- every step keeps the invariant -----

  /** What thread i has in hand apart from its operation on the run queue. */
  function Own<M>(w: Worker<M>, d: Sender<M>, pc: Pc<nat>, c: nat): nat {
    One(WorkerHolds(w, pc, c)) + One(SenderHolds(d, pc, c))
  }

  function AfterQueue<M>(s: Sched<M>, i: nat, call: Call<nat>, w: Worker<M>, d: Sender<M>): Sched<M>
    requires i < |s.workers| == |s.senders| == |s.queue.threads| && s.queue.size > 0 && |s.queue.slots| == s.queue.size
  {
    SetSender(SetWorker(s.(queue := Step(s.queue, i, call)), i, w), i, d)
  }

  /** The thread does not create a token with this step. */
  ghost predicate Fair<M>(s: Sched<M>, s': Sched<M>, i: nat, c: nat)
    requires i < |s.workers| && i < |s.senders| && i < |s.queue.threads|
    requires i < |s'.workers| && i < |s'.senders| && i < |s'.queue.threads|
  {
    var pc, pc' := s.queue.threads[i], s'.queue.threads[i];
    var own, own' := Own(s.workers[i], s.senders[i], pc, c), Own(s'.workers[i], s'.senders[i], pc', c);
    if pc.Idle? || pc.PopDone? || pc.PushDone? then One(RingHolds(pc', c)) + own' <= One(RingHolds(pc, c)) + own
    else own' <= own
  }

  /** A step on the run queue by a thread that has nothing to do with a mailbox. */
  lemma QueueMove<M>(s: Sched<M>, s': Sched<M>, i: nat, call: Call<nat>)
    requires Good(s) && i < |s.workers| && |s'.workers| == |s'.senders| == |s.workers|
    requires s' == AfterQueue(s, i, call, s'.workers[i], s'.senders[i])
    requires !s.workers[i].Dispatching? && !s.senders[i].Mailing? && !s'.senders[i].Mailing?
    requires s'.workers[i].Dispatching? ==> s'.senders[i].Quiet?
    requires Exists(s', i) && !s'.workers[i].AssertionFailed? && SendsInCallback(s'.workers[i], s'.senders[i])
    requires QueueUse(s'.workers[i], s'.senders[i], s'.queue.threads[i])
    requires forall c: nat :: c < |s.inGlobal| ==> Fair(s, s', i, c)
    ensures Good(s')
  {
    Basics(s.queue);
    QueueStepThread(s.queue, i, call);
    StepInv(s.queue, i, call);
    hide Step, Queue, Inv, QueueUse, Exists, SendsInCallback;
    assert Moves(s, s', i);
    forall c | 0 <= c < |s.mail| ensures s.mail[c].threads[i].Idle? {
      assert MailUse(s.workers[i], s.senders[i], s.mail[c].threads[i], c);
    }
    RolesKept(s, s', i);
    forall c: nat | c < |s.inGlobal| ensures NoMore(s, s', i, c) {
      assert Fair(s, s', i, c);
      QueueStepTokens(s.queue, i, call, c);
    }
    OneTokenKept(s, s', i);
    hide Roles, OneToken, Fair, NoMore;
    forall c: nat | c < |s.mail| ensures InOrder(s', c) {
      assert InOrder(s, c);
      assert !InHand(s, c, i) && !InHand(s', c, i);
      InOrderKept(s, s', i, c);
    }
  }

  lemma PoppingGood<M>(s: Sched<M>, i: nat, ch: Choice<M>)
    requires Good(s) && i < |s.workers| && Exists(s, i) && s.workers[i].Popping?
    ensures Good(WorkerStep(s, i, ch))
  {
    QueueUseOf(s, i);
    Basics(s.queue);
    QueueStepThread(s.queue, i, Pop);
    hide Step, Good, Sizes;
    QueueMove(s, WorkerStep(s, i, ch), i, Pop);
  }

  lemma QueueUseOf<M>(s: Sched<M>, i: nat)
    requires Good(s) && i < |s.workers|
    ensures Exists(s, i) && QueueUse(s.workers[i], s.senders[i], s.queue.threads[i])
    ensures SendsInCallback(s.workers[i], s.senders[i]) && Inv(s.queue) && i < |s.queue.threads|
  {
  }

  lemma RequeueingGood<M>(s: Sched<M>, i: nat, ch: Choice<M>)
    requires Good(s) && i < |s.workers| && Exists(s, i) && s.workers[i].Requeueing?
    ensures Good(WorkerStep(s, i, ch))
  {
    QueueUseOf(s, i);
    Basics(s.queue);
    QueueStepThread(s.queue, i, Push(s.workers[i].c));
    hide Step, Good, Sizes;
    QueueMove(s, WorkerStep(s, i, ch), i, Push(s.workers[i].c));
  }

  lemma EnqueueingGood<M>(s: Sched<M>, i: nat, ch: Choice<M>)
    requires Good(s) && i < |s.workers| && Exists(s, i) && s.senders[i].Enqueueing?
    ensures Good(SenderStep(s, i, ch))
  {
    QueueUseOf(s, i);
    Basics(s.queue);
    QueueStepThread(s.queue, i, Push(s.senders[i].c));
    hide Step, Good, Sizes;
    QueueMove(s, SenderStep(s, i, ch), i, Push(s.senders[i].c));
  }

  // ----- the mailboxes -----

  /** What a step on a mailbox pops is from then on in the thread's hands. */
  lemma MailStep<M>(q: Ring<M>, i: nat, call: Call<M>)
    requires Inv(q) && i < |q.threads|
    ensures
      var q', pc := Step(q, i, call), q.threads[i];
      var pc' := q'.threads[i];
      && Inv(q')
      && (if pc.PopClaim? && pc'.PopCount? then q'.popped == q.popped + [pc'.msg] else q'.popped == q.popped)
      && (HasMsg(pc') <==> (pc.PopClaim? && pc'.PopCount?) || pc.PopCount?)
      && (pc.PopCount? ==> pc'.PopDone? && MsgOf(pc') == MsgOf(pc))
  {
    StepRefines(q, i, call);
    hide CountToIndex, Inv;
  }

  function AfterMail<M>(s: Sched<M>, i: nat, c: nat, call: Call<M>, w: Worker<M>, d: Sender<M>, h: seq<M>): Sched<M>
    requires i < |s.workers| == |s.senders| && c < |s.mail| == |s.handled| && i < |s.mail[c].threads|
    requires s.mail[c].size > 0 && |s.mail[c].slots| == s.mail[c].size
  {
    SetSender(SetWorker(s.(mail := s.mail[c := Step(s.mail[c], i, call)], handled := s.handled[c := h]), i, w), i, d)
  }

  /** A step on the mailbox of c by a thread that has no operation on the run queue. */
  lemma GoodInOrder<M>(s: Sched<M>, c: nat)
    requires Good(s) && c < |s.mail|
    ensures InOrder(s, c)
  {
  }

  lemma MailMove<M>(s: Sched<M>, s': Sched<M>, i: nat, c: nat, call: Call<M>)
    requires Good(s) && i < |s.workers| && c < |s.mail|
    requires |s'.workers| == |s'.senders| == |s.workers| && |s'.handled| == |s.mail|
    requires s' == AfterMail(s, i, c, call, s'.workers[i], s'.senders[i], s'.handled[c])
    requires Exists(s', i) && !s'.workers[i].AssertionFailed? && SendsInCallback(s'.workers[i], s'.senders[i])
    requires s.queue.threads[i].Idle? && !s'.workers[i].Popping? && !s'.workers[i].Requeueing? && !s'.senders[i].Enqueueing?
    requires (s.workers[i].Dispatching? ==> s.workers[i].c == c) && (s.senders[i].Mailing? ==> s.senders[i].c == c)
    requires (s'.workers[i].Dispatching? ==> s'.workers[i].c == c) && (s'.senders[i].Mailing? ==> s'.senders[i].c == c)
    requires forall x: nat :: x < |s.inGlobal| ==>
               Own(s'.workers[i], s'.senders[i], Idle, x) <= Own(s.workers[i], s.senders[i], Idle, x)
    requires MailUse(s'.workers[i], s'.senders[i], Step(s.mail[c], i, call).threads[i], c)
    requires Sizes(s') && InOrder(s', c)
    ensures Good(s')
  {
    hide Step, Queue, Inv, Exists, SendsInCallback, OneToken, InOrder;
    Basics(s.mail[c]);
    QueueStepThread(s.mail[c], i, call);
    StepInv(s.mail[c], i, call);
    assert Moves(s, s', i);
    forall x | 0 <= x < |s.mail| && x != c ensures s.mail[x].threads[i].Idle? && s'.mail[x].threads[i].Idle? {
      MailUseOf(s, i, x);
    }
    RolesKept(s, s', i);
    forall x: nat | x < |s.inGlobal| ensures NoMore(s, s', i, x) {
      assert Own(s'.workers[i], s'.senders[i], Idle, x) <= Own(s.workers[i], s.senders[i], Idle, x);
    }
    OneTokenKept(s, s', i);
    forall x: nat | x < |s.mail| ensures InOrder(s', x) {
      if x != c {
        GoodInOrder(s, x);
        InOrderKept(s, s', i, x);
      }
    }
  }

  lemma AfterMailSizes<M>(s: Sched<M>, i: nat, c: nat, call: Call<M>, w: Worker<M>, d: Sender<M>, h: seq<M>)
    requires Sizes(s) && i < |s.workers| && c < |s.mail|
    ensures i < |s.mail[c].threads| && s.mail[c].size > 0 && |s.mail[c].slots| == s.mail[c].size
    ensures Sizes(AfterMail(s, i, c, call, w, d, h))
  {
    Basics(s.mail[c]);
    QueueStepThread(s.mail[c], i, call);
    StepInv(s.mail[c], i, call);
    hide Step, Inv;
  }

  /** Nobody else dispatches the context that thread i dispatches. */
  lemma NotInOtherHands<M>(s: Sched<M>, i: nat)
    requires Good(s) && i < |s.workers| && s.workers[i].Dispatching?
    ensures s.workers[i].c < |s.mail|
    ensures forall j :: 0 <= j < |s.workers| && j != i ==> !InHand(s, s.workers[i].c, j)
  {
    var c := s.workers[i].c;
    assert Exists(s, i);
    forall j: nat | j < |s.workers| && j != i ensures !InHand(s, c, j) {
      if s.workers[j].Dispatching? && s.workers[j].c == c { OneWorker(s, c, i, j); }
    }
  }

  lemma DispatchInOrder<M>(s: Sched<M>, i: nat, ch: Choice<M>)
    requires Good(s) && i < |s.workers| && Exists(s, i) && s.workers[i].Dispatching?
    ensures Sizes(WorkerStep(s, i, ch)) && InOrder(WorkerStep(s, i, ch), s.workers[i].c)
  {
    var c, s' := s.workers[i].c, WorkerStep(s, i, ch);
    AfterMailSizes(s, i, c, Pop, s'.workers[i], s'.senders[i], s'.handled[c]);
    NotInOtherHands(s, i);
    MailStep(s.mail[c], i, Pop);
    QueueStepThread(s.mail[c], i, Pop);
    assert InOrder(s, c);
    assert s' == AfterMail(s, i, c, Pop, s'.workers[i], s'.senders[i], s'.handled[c]) by {
      assert s.senders == s.senders[i := s'.senders[i]];
      assert s.handled == s.handled[c := s.handled[c]];
      assert s.workers == s.workers[i := s.workers[i]];
    }
    hide Step, Inv, Good, Sizes;
    var q := s'.mail[c];
    forall j | 0 <= j < |s'.workers| && j != i ensures !InHand(s', c, j) {
      assert !InHand(s, c, j);
      assert s'.workers[j] == s.workers[j] && q.threads[j] == s.mail[c].threads[j];
    }
    var pc, pc' := s.mail[c].threads[i], q.threads[i];
    if InHand(s, c, i) {
      assert s.mail[c].popped == s.handled[c] + [MsgOf(pc)];
    } else {
      assert s.mail[c].popped == s.handled[c];
    }
    InHandOrDone(s', c, i);
  }

  lemma InHandOrDone<M>(s: Sched<M>, c: nat, i: nat)
    requires Sizes(s) && i < |s.workers| && c < |s.mail|
    requires forall j :: 0 <= j < |s.workers| && j != i ==> !InHand(s, c, j)
    requires s.mail[c].popped == if InHand(s, c, i) then s.handled[c] + [MsgOf(s.mail[c].threads[i])] else s.handled[c]
    ensures InOrder(s, c)
  {
  }

  lemma MailUseOf<M>(s: Sched<M>, i: nat, c: nat)
    requires Good(s) && i < |s.workers| && c < |s.inGlobal|
    ensures Sizes(s) && |s.mail| == |s.inGlobal| == |s.handled| && |s.senders| == |s.workers|
    ensures Inv(s.mail[c]) && i < |s.mail[c].threads| && MailUse(s.workers[i], s.senders[i], s.mail[c].threads[i], c)
  {
  }

  lemma DispatchingGood<M>(s: Sched<M>, i: nat, ch: Choice<M>)
    requires Good(s) && i < |s.workers| && Exists(s, i) && s.workers[i].Dispatching?
    ensures Good(WorkerStep(s, i, ch))
  {
    hide Step, Inv, Good, Sizes, InOrder;
    MailUseOf(s, i, s.workers[i].c);
    var c, s' := s.workers[i].c, WorkerStep(s, i, ch);
    QueueUseOf(s, i);
    DispatchInOrder(s, i, ch);
    Basics(s.mail[c]);
    QueueStepThread(s.mail[c], i, Pop);
    AfterMailSizes(s, i, c, Pop, s'.workers[i], s'.senders[i], s'.handled[c]);
    assert s' == AfterMail(s, i, c, Pop, s'.workers[i], s'.senders[i], s'.handled[c]) by {
      assert s.senders == s.senders[i := s'.senders[i]];
      assert s.handled == s.handled[c := s.handled[c]];
      assert s.workers == s.workers[i := s.workers[i]];
    }
    MailMove(s, s', i, c, Pop);
  }

  lemma MailingInOrder<M>(s: Sched<M>, i: nat, ch: Choice<M>)
    requires Good(s) && i < |s.workers| && Exists(s, i) && s.senders[i].Mailing?
    requires s.workers[i].Outside? || s.workers[i].Handling?
    ensures
      var c, s' := s.senders[i].c, SenderStep(s, i, ch);
      && i < |s.mail[c].threads| && s.mail[c].size > 0 && |s.mail[c].slots| == s.mail[c].size
      && |s'.workers| == |s'.senders| == |s.workers| && |s'.handled| == |s.mail|
      && s' == AfterMail(s, i, c, Push(s.senders[i].msg), s'.workers[i], s'.senders[i], s'.handled[c])
      && Sizes(s') && InOrder(s', c)
  {
    var c, s', call := s.senders[i].c, SenderStep(s, i, ch), Push(s.senders[i].msg);
    AfterMailSizes(s, i, c, call, s'.workers[i], s'.senders[i], s'.handled[c]);
    MailStep(s.mail[c], i, call);
    QueueStepThread(s.mail[c], i, call);
    assert InOrder(s, c);
    assert MailUse(s.workers[i], s.senders[i], s.mail[c].threads[i], c);
    assert s' == AfterMail(s, i, c, call, s'.workers[i], s'.senders[i], s'.handled[c]) by {
      assert s.senders == s.senders[i := s.senders[i]];
      assert s.handled == s.handled[c := s.handled[c]];
      assert s.workers == s.workers[i := s.workers[i]];
    }
    hide Step, Inv, Good, Sizes;
    var q := s'.mail[c];
    forall j | 0 <= j < |s'.workers| ensures InHand(s', c, j) <==> InHand(s, c, j)
      ensures InHand(s, c, j) ==> MsgOf(q.threads[j]) == MsgOf(s.mail[c].threads[j])
    {
      if j != i { assert s'.workers[j] == s.workers[j] && q.threads[j] == s.mail[c].threads[j]; }
    }
  }

  lemma MailingGood<M>(s: Sched<M>, i: nat, ch: Choice<M>)
    requires Good(s) && i < |s.workers| && Exists(s, i) && s.senders[i].Mailing?
    requires s.workers[i].Outside? || s.workers[i].Handling?
    ensures Good(SenderStep(s, i, ch))
  {
    var c, s', call := s.senders[i].c, SenderStep(s, i, ch), Push(s.senders[i].msg);
    QueueUseOf(s, i);
    MailingInOrder(s, i, ch);
    assert MailUse(s.workers[i], s.senders[i], s.mail[c].threads[i], c);
    QueueStepThread(s.mail[c], i, call);
    hide Step, Inv, Good, Sizes, InOrder;
    MailMove(s, s', i, c, call);
  }

  // ----- steps that touch no queue -----

  /** The tokens that thread i holds of context x grow by no more than inGlobal does. */
  ghost predicate Balanced<M>(s: Sched<M>, s': Sched<M>, i: nat, x: nat)
    requires i < |s.workers| == |s.senders| == |s'.workers| == |s'.senders| && x < |s.inGlobal| == |s'.inGlobal|
  {
    0 <= s'.inGlobal[x] <= 1 &&
    Own(s'.workers[i], s'.senders[i], Idle, x) - s'.inGlobal[x] <= Own(s.workers[i], s.senders[i], Idle, x) - s.inGlobal[x]
  }

  /** Thread i moves on, and inGlobal may change. */
  lemma PlainMove<M>(s: Sched<M>, s': Sched<M>, i: nat)
    requires Good(s) && i < |s.workers|
    requires |s'.workers| == |s'.senders| == |s.workers| && |s'.inGlobal| == |s.inGlobal|
    requires s' == SetSender(SetWorker(s.(inGlobal := s'.inGlobal), i, s'.workers[i]), i, s'.senders[i])
    requires !s.workers[i].Dispatching? && !s.senders[i].Mailing?
    requires s.queue.threads[i].Idle?
    requires Exists(s', i) && !s'.workers[i].AssertionFailed? && SendsInCallback(s'.workers[i], s'.senders[i])
    requires s'.workers[i].Popping? || s'.workers[i].Requeueing? || s'.workers[i].Dispatching? ==> s'.senders[i].Quiet?
    requires forall x: nat :: x < |s.inGlobal| ==> Balanced(s, s', i, x)
    ensures Good(s')
  {
    hide Queue, Inv, Exists, SendsInCallback;
    assert Moves(s, s', i);
    forall x | 0 <= x < |s.mail| ensures s.mail[x].threads[i].Idle? {
      assert MailUse(s.workers[i], s.senders[i], s.mail[x].threads[i], x);
    }
    RolesKept(s, s', i);
    forall x: nat | x < |s.inGlobal| ensures 0 <= s'.inGlobal[x] <= 1 && Tokens(s', x) <= s'.inGlobal[x] {
      TokensMoved(s, s', i, x);
      assert Balanced(s, s', i, x);
      assert 0 <= s.inGlobal[x] <= 1 && Tokens(s, x) <= s.inGlobal[x];
    }
    hide Roles, OneToken, Tokens;
    forall x: nat | x < |s.mail| ensures InOrder(s', x) {
      assert InOrder(s, x);
      InOrderKept(s, s', i, x);
    }
  }

  lemma InGlobalIsBit<M>(s: Sched<M>)
    requires Good(s)
    ensures |s.senders| == |s.workers| && forall x: nat :: x < |s.inGlobal| ==> 0 <= s.inGlobal[x] <= 1
  {
  }

  lemma WorkerPlainGood<M>(s: Sched<M>, i: nat, ch: Choice<M>)
    requires Good(s) && i < |s.workers| && Exists(s, i)
    requires var w := s.workers[i]; w.Handling? || w.Checking? || w.Releasing? || w.Resting?
    ensures Good(WorkerStep(s, i, ch))
  {
    var w, s' := s.workers[i], WorkerStep(s, i, ch);
    if w.Handling? && !s.senders[i].Quiet? { return; }
    QueueUseOf(s, i);
    InGlobalIsBit(s);
    if w.Releasing? { ReleaseSucceeds(s, i); }
    hide Good, Sizes;
    assert s.senders == s.senders[i := s.senders[i]];
    PlainMove(s, s', i);
  }

  lemma SenderPlainGood<M>(s: Sched<M>, i: nat, ch: Choice<M>)
    requires Good(s) && i < |s.workers| && Exists(s, i)
    requires s.senders[i].Quiet? || s.senders[i].Claiming?
    ensures Good(SenderStep(s, i, ch))
  {
    var s' := SenderStep(s, i, ch);
    if s' == s { return; }
    QueueUseOf(s, i);
    InGlobalIsBit(s);
    hide Good, Sizes;
    assert s.workers == s.workers[i := s.workers[i]];
    PlainMove(s, s', i);
  }

  // ----- runs -----

  /** Thread i takes a step, as a worker or as a sender. */
  ghost function Next<M>(s: Sched<M>, i: nat, sends: bool, ch: Choice<M>): Sched<M>
    requires Sizes(s) && i < |s.workers| && Exists(s, i)
  {
    if sends then SenderStep(s, i, ch) else WorkerStep(s, i, ch)
  }

  /** Every step of every thread keeps the invariant. */
  lemma NextGood<M>(s: Sched<M>, i: nat, sends: bool, ch: Choice<M>)
    requires Good(s) && i < |s.workers|
    ensures Sizes(s) && Exists(s, i) && Good(Next(s, i, sends, ch))
  {
    QueueUseOf(s, i);
    hide Good;
    if sends {
      if s.workers[i].Outside? || s.workers[i].Handling? {
        if s.senders[i].Mailing? { MailingGood(s, i, ch); }
        else if s.senders[i].Enqueueing? { EnqueueingGood(s, i, ch); }
        else { SenderPlainGood(s, i, ch); }
      }
    } else {
      var w := s.workers[i];
      if w.Popping? { PoppingGood(s, i, ch); }
      else if w.Dispatching? { DispatchingGood(s, i, ch); }
      else if w.Requeueing? { RequeueingGood(s, i, ch); }
      else if w.Handling? || w.Checking? || w.Releasing? || w.Resting? { WorkerPlainGood(s, i, ch); }
    }
  }

  /** A pool before its threads start: empty queues, nothing running, inGlobal 0. */
  ghost predicate Start<M>(s: Sched<M>) {
    && |s.mail| == |s.inGlobal| == |s.handled| && |s.senders| == |s.workers| == |s.queue.threads|
    && Initial(s.queue) && (forall c :: 0 <= c < |s.mail| ==> Initial(s.mail[c]) && |s.mail[c].threads| == |s.workers|)
    && (forall c :: 0 <= c < |s.inGlobal| ==> s.inGlobal[c] == 0 && s.handled[c] == [])
    && forall i :: 0 <= i < |s.workers| ==> (s.workers[i].Outside? || s.workers[i].Popping?) && s.senders[i].Quiet?
  }

  lemma {:induction false} NothingHeld<M>(s: Sched<M>, c: nat, n: nat)
    requires Start(s) && n <= |s.workers|
    ensures Held(s.workers, s.senders, s.queue.threads, c, n) == 0
  {
    if n > 0 { NothingHeld(s, c, n - 1); }
  }

  lemma StartGood<M>(s: Sched<M>)
    requires Start(s)
    ensures Good(s)
  {
    InitialInv(s.queue);
    forall c | 0 <= c < |s.mail| ensures Inv(s.mail[c]) { InitialInv(s.mail[c]); }
    forall c: nat | c < |s.inGlobal| ensures Tokens(s, c) == 0 { NothingHeld(s, c, |s.workers|); }
  }

  /** One entry of a schedule: which thread moves, as what, with which choice. */
  datatype Turn<M> = Turn(i: nat, sends: bool, ch: Choice<M>)

  ghost function RunAll<M>(s: Sched<M>, turns: seq<Turn<M>>): (s': Sched<M>)
    requires Good(s) && forall k :: 0 <= k < |turns| ==> turns[k].i < |s.workers|
    ensures Good(s')
    decreases |turns|
  {
    if |turns| == 0 then s
    else
      NextGood(s, turns[0].i, turns[0].sends, turns[0].ch);
      SameThreads(s, turns[0].i, turns[0].sends, turns[0].ch);
      RunAll(Next(s, turns[0].i, turns[0].sends, turns[0].ch), turns[1..])
  }

  lemma SameThreads<M>(s: Sched<M>, i: nat, sends: bool, ch: Choice<M>)
    requires Sizes(s) && i < |s.workers| && Exists(s, i)
    ensures |Next(s, i, sends, ch).workers| == |s.workers|
  {
    hide Step;
  }

  /** Workers i and j do not both run c unless they are one, and neither does while its inGlobal is 0. */
  predicate Apart<M>(s: Sched<M>, i: nat, j: nat, c: nat)
    requires i < |s.workers| && j < |s.workers| && c < |s.inGlobal|
  {
    Runs(s.workers[i], c) && Runs(s.workers[j], c) ==> i == j && s.inGlobal[c] == 1
  }

  ghost predicate Exclusive<M>(s: Sched<M>) {
    forall i: nat, j: nat, c: nat :: i < |s.workers| && j < |s.workers| && c < |s.inGlobal| ==> Apart(s, i, j, c)
  }

  /** What the invariant says about one moment. */
  ghost predicate Safe<M>(s: Sched<M>) {
    && Exclusive(s)
    && (forall i :: 0 <= i < |s.workers| ==> !s.workers[i].AssertionFailed?)
    && |s.handled| == |s.mail| && forall c :: 0 <= c < |s.mail| ==> s.handled[c] <= s.mail[c].pushed
  }

  lemma GoodIsExclusive<M>(s: Sched<M>)
    requires Good(s)
    ensures Exclusive(s)
  {
    forall i: nat, j: nat, c: nat | i < |s.workers| && j < |s.workers| && c < |s.inGlobal|
      ensures Apart(s, i, j, c)
    {
      if Runs(s.workers[i], c) && Runs(s.workers[j], c) { OneWorker(s, c, i, j); }
    }
  }

  lemma GoodIsSafe<M>(s: Sched<M>)
    requires Good(s)
    ensures Safe(s)
  {
    GoodIsExclusive(s);
    hide Exclusive;
    forall i | 0 <= i < |s.workers| ensures !s.workers[i].AssertionFailed? { assert Exists(s, i); }
    forall c | 0 <= c < |s.mail| ensures s.handled[c] <= s.mail[c].pushed { HandledInOrder(s, c); }
  }

  /** In every run of the pool: workers exclude each other from a context, the assertion in handle never
      fails, and every context handles its messages in mailbox order. */
  lemma PoolIsSafe<M>(s: Sched<M>, turns: seq<Turn<M>>)
    requires Start(s) && forall k :: 0 <= k < |turns| ==> turns[k].i < |s.workers|
    ensures Good(s) && Safe(RunAll(s, turns))
  {
    StartGood(s);
    GoodIsSafe(RunAll(s, turns));
  }
}
