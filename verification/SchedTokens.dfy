/** The right to run a context is neither lost nor doubled: inGlobal is set exactly while one thread or the run queue has it,
    as long as the run queue takes what is pushed. */
module SchedTokens {
  import opened Wrappers
  import opened Ring
  import opened Scheduler

  /** The run queue answers to thread i that it is full, and the context c is not queued. */
  predicate Refused(pc: Pc<nat>, pc': Pc<nat>, c: nat) { pc.PushReadRead? && pc.msg == c && pc' == PushDone(false) }

  // ----- the run queue -----

  lemma StepHolds(q: Ring<nat>, i: nat, call: Call<nat>, c: nat)
    requires i < |q.threads| && q.size > 0 && |q.slots| == q.size
    ensures
      var pc, pc' := q.threads[i], Step(q, i, call).threads[i];
      var published, taken := pc.PushPublish? && pc'.PushCount?, pc.PopClaim? && pc'.PopCount?;
      && (published ==> !RingHolds(pc', c) && (RingHolds(pc, c) <==> pc.msg == c))
      && (taken ==> !RingHolds(pc, c) && (RingHolds(pc', c) <==> pc'.msg == c))
      && (Refused(pc, pc', c) ==> RingHolds(pc, c) && !RingHolds(pc', c))
      && (pc.PopDone? || pc.PushDone? ==> pc'.Idle?)
      && (pc.Idle? ==> (RingHolds(pc', c) <==> call == Push(c)))
      && (!pc.Idle? && !pc.PopDone? && !pc.PushDone? && !published && !taken && !Refused(pc, pc', c) ==>
            (RingHolds(pc', c) <==> RingHolds(pc, c)))
  {
    hide CountToIndex;
  }

  /** What the queue has of c and the thread holds of it together. */
  lemma StepTokens(q: Ring<nat>, i: nat, call: Call<nat>, c: nat)
    requires Inv(q) && i < |q.threads|
    ensures
      var q', pc := Step(q, i, call), q.threads[i];
      var pc' := q'.threads[i];
      Inv(q') &&
      var n, n' := multiset(Queue(q))[c], multiset(Queue(q'))[c];
      var h, h' := One(RingHolds(pc, c)), One(RingHolds(pc', c));
      if pc.Idle? then n' == n && h == 0 && h' == One(call == Push(c))
      else if pc.PushDone? || pc.PopDone? then n' == n && h' == 0 && pc'.Idle?
      else n' + h' == n + h - One(Refused(pc, pc', c))
  {
    hide Step, Inv, RingHolds, Queue;
    Basics(q);
    StepRefines(q, i, call);
    StepHolds(q, i, call, c);
    NoneHeld(q.threads[i], c);
    NoneHeld(Step(q, i, call).threads[i], c);
    var a, b := Queue(q), Queue(Step(q, i, call));
    if |a| > 0 && b == a[1..] { assert a == [a[0]] + b; }
  }

  lemma NoneHeld(pc: Pc<nat>, c: nat)
    ensures pc.Idle? || pc.PushDone? ==> !RingHolds(pc, c)
    ensures pc.PopDone? ==> (RingHolds(pc, c) <==> pc.got == Some(c))
  {
  }

  // ----- one step of the pool -----

  ghost function Balance<M>(s: Sched<M>, c: nat): int
    requires Sizes(s) && c < |s.inGlobal|
  {
    Tokens(s, c) - s.inGlobal[c]
  }

  /** What has to be shown of a move. */
  ghost predicate Even<M>(s: Sched<M>, s': Sched<M>, i: nat, c: nat)
    requires Moves(s, s', i) && c < |s.inGlobal| == |s'.inGlobal|
  {
    multiset(Queue(s'.queue))[c] + Hold(s'.workers[i], s'.senders[i], s'.queue.threads[i], c) - s'.inGlobal[c]
    == multiset(Queue(s.queue))[c] + Hold(s.workers[i], s.senders[i], s.queue.threads[i], c) - s.inGlobal[c]
       - One(Refused(s.queue.threads[i], s'.queue.threads[i], c))
  }

  lemma EvenBalance<M>(s: Sched<M>, s': Sched<M>, i: nat, c: nat)
    requires Moves(s, s', i) && c < |s.inGlobal| == |s'.inGlobal| && Even(s, s', i, c)
    ensures Balance(s', c) == Balance(s, c) - One(Refused(s.queue.threads[i], s'.queue.threads[i], c))
  {
    TokensMoved(s, s', i, c);
    hide Moves, Queue, Hold;
  }

  /** A step on the run queue. */
  lemma QueueStepMoves<M>(s: Sched<M>, s': Sched<M>, i: nat, call: Call<nat>)
    requires Sizes(s) && i < |s.workers| && |s'.workers| == |s'.senders| == |s.workers|
    requires s.queue.size > 0 && |s.queue.slots| == s.queue.size
    requires s' == AfterQueue(s, i, call, s'.workers[i], s'.senders[i])
    ensures Moves(s, s', i) && |s'.inGlobal| == |s.inGlobal|
  {
    Basics(s.queue);
    QueueStepThread(s.queue, i, call);
    StepInv(s.queue, i, call);
    hide Step, Inv;
  }

  lemma PoppingEven<M>(s: Sched<M>, i: nat, ch: Choice<M>, c: nat)
    requires Good(s) && i < |s.workers| && Exists(s, i) && s.workers[i].Popping? && c < |s.inGlobal|
    ensures Moves(s, WorkerStep(s, i, ch), i) && Even(s, WorkerStep(s, i, ch), i, c)
  {
    hide Step, Good, Inv, Queue, Moves, Sizes;
    QueueUseOf(s, i);
    Basics(s.queue);
    StepTokens(s.queue, i, Pop, c);
    NoneHeld(s.queue.threads[i], c);
    PoppingShape(s, i, ch);
    QueueStepMoves(s, WorkerStep(s, i, ch), i, Pop);
  }

  lemma PoppingShape<M>(s: Sched<M>, i: nat, ch: Choice<M>)
    requires Good(s) && i < |s.workers| && Exists(s, i) && s.workers[i].Popping?
    ensures Sizes(s) && |s.senders| == |s.workers| == |s.queue.threads| && s.queue.size > 0 && |s.queue.slots| == s.queue.size
    ensures
      var s' := WorkerStep(s, i, ch);
      && s' == AfterQueue(s, i, Pop, s'.workers[i], s'.senders[i]) && |s'.workers| == |s'.senders| == |s.workers|
      && s'.senders[i] == s.senders[i]
      && s'.workers[i] == (if s.queue.threads[i].PopDone? then
                             if s.queue.threads[i].got.Some? && s.queue.threads[i].got.value < |s.inGlobal| then
                               Dispatching(s.queue.threads[i].got.value)
                             else Resting
                           else Popping)
  {
    hide Step, Inv;
    Basics(s.queue);
    assert s.senders == s.senders[i := s.senders[i]];
    assert s.workers == s.workers[i := s.workers[i]];
  }

  lemma RequeueingEven<M>(s: Sched<M>, i: nat, ch: Choice<M>, c: nat)
    requires Good(s) && i < |s.workers| && Exists(s, i) && s.workers[i].Requeueing? && c < |s.inGlobal|
    ensures Moves(s, WorkerStep(s, i, ch), i) && Even(s, WorkerStep(s, i, ch), i, c)
  {
    hide Step, Good, Inv, Queue, Moves, Sizes;
    QueueUseOf(s, i);
    Basics(s.queue);
    StepTokens(s.queue, i, Push(s.workers[i].c), c);
    NoneHeld(s.queue.threads[i], c);
    StepNotIdle(s.queue, i, Push(s.workers[i].c));
    RequeueingShape(s, i, ch);
    QueueStepMoves(s, WorkerStep(s, i, ch), i, Push(s.workers[i].c));
  }

  lemma RequeueingShape<M>(s: Sched<M>, i: nat, ch: Choice<M>)
    requires Good(s) && i < |s.workers| && Exists(s, i) && s.workers[i].Requeueing?
    ensures Sizes(s) && |s.senders| == |s.workers| == |s.queue.threads| && s.queue.size > 0 && |s.queue.slots| == s.queue.size
    ensures
      var s' := WorkerStep(s, i, ch);
      && s' == AfterQueue(s, i, Push(s.workers[i].c), s'.workers[i], s'.senders[i]) && |s'.workers| == |s'.senders| == |s.workers|
      && s'.senders[i] == s.senders[i] && s'.workers[i] == if s.queue.threads[i].PushDone? then Resting else s.workers[i]
  {
    hide Step, Inv;
    Basics(s.queue);
    assert s.senders == s.senders[i := s.senders[i]];
    assert s.workers == s.workers[i := s.workers[i]];
  }

  lemma EnqueueingEven<M>(s: Sched<M>, i: nat, ch: Choice<M>, c: nat)
    requires Good(s) && i < |s.workers| && Exists(s, i) && s.senders[i].Enqueueing? && c < |s.inGlobal|
    requires s.workers[i].Outside? || s.workers[i].Handling?
    ensures Moves(s, SenderStep(s, i, ch), i) && Even(s, SenderStep(s, i, ch), i, c)
  {
    hide Step, Good, Inv, Queue, Moves, Sizes;
    GoodSizes(s);
    QueueUseOf(s, i);
    Basics(s.queue);
    StepTokens(s.queue, i, Push(s.senders[i].c), c);
    NoneHeld(s.queue.threads[i], c);
    StepNotIdle(s.queue, i, Push(s.senders[i].c));
    EnqueueingShape(s, i, ch);
    QueueStepMoves(s, SenderStep(s, i, ch), i, Push(s.senders[i].c));
  }

  lemma EnqueueingShape<M>(s: Sched<M>, i: nat, ch: Choice<M>)
    requires Good(s) && i < |s.workers| && Exists(s, i) && s.senders[i].Enqueueing?
    requires s.workers[i].Outside? || s.workers[i].Handling?
    ensures Sizes(s) && |s.senders| == |s.workers| == |s.queue.threads| && s.queue.size > 0 && |s.queue.slots| == s.queue.size
    ensures
      var s' := SenderStep(s, i, ch);
      && s' == AfterQueue(s, i, Push(s.senders[i].c), s'.workers[i], s'.senders[i]) && |s'.workers| == |s'.senders| == |s.workers|
      && s'.workers[i] == s.workers[i] && s'.senders[i] == if s.queue.threads[i].PushDone? then Quiet else s.senders[i]
  {
    hide Step, Inv;
    Basics(s.queue);
    assert s.senders == s.senders[i := s.senders[i]];
    assert s.workers == s.workers[i := s.workers[i]];
  }

  /** A push under way is not back at the beginning. */
  lemma StepNotIdle(q: Ring<nat>, i: nat, call: Call<nat>)
    requires i < |q.threads| && q.size > 0 && |q.slots| == q.size
    ensures Step(q, i, call).threads[i].Idle? ==> q.threads[i].PushDone? || q.threads[i].PopDone?
  {
    hide CountToIndex;
  }

  /** A step on a mailbox. */
  lemma MailEven<M>(s: Sched<M>, s': Sched<M>, i: nat, x: nat, call: Call<M>, c: nat)
    requires Good(s) && i < |s.workers| && x < |s.mail| && c < |s.inGlobal|
    requires |s'.workers| == |s'.senders| == |s.workers| == |s.senders| && |s'.handled| == |s.mail| == |s.handled|
    requires i < |s.mail[x].threads| && s.mail[x].size > 0 && |s.mail[x].slots| == s.mail[x].size
    requires s' == AfterMail(s, i, x, call, s'.workers[i], s'.senders[i], s'.handled[x])
    requires i < |s.queue.threads| && s.queue.threads[i].Idle?
    requires Own(s'.workers[i], s'.senders[i], Idle, c) == Own(s.workers[i], s.senders[i], Idle, c)
    ensures Moves(s, s', i) && |s'.inGlobal| == |s.inGlobal| && Even(s, s', i, c)
  {
    hide Step, Inv, Queue, Roles, OneToken, InOrder;
    AfterMailSizes(s, i, x, call, s'.workers[i], s'.senders[i], s'.handled[x]);
    QueueStepThread(s.mail[x], i, call);
    hide Sizes;
  }

  lemma DispatchingEven<M>(s: Sched<M>, i: nat, ch: Choice<M>, c: nat)
    requires Good(s) && i < |s.workers| && Exists(s, i) && s.workers[i].Dispatching? && c < |s.inGlobal|
    ensures Moves(s, WorkerStep(s, i, ch), i) && Even(s, WorkerStep(s, i, ch), i, c)
  {
    hide Step, Inv, Good, Sizes, InOrder, Moves;
    GoodSizes(s);
    var x, s' := s.workers[i].c, WorkerStep(s, i, ch);
    MailUseOf(s, i, x);
    QueueUseOf(s, i);
    Basics(s.mail[x]);
    assert s' == AfterMail(s, i, x, Pop, s'.workers[i], s'.senders[i], s'.handled[x]) by {
      assert s.senders == s.senders[i := s'.senders[i]];
      assert s.handled == s.handled[x := s.handled[x]];
      assert s.workers == s.workers[i := s.workers[i]];
    }
    MailEven(s, s', i, x, Pop, c);
  }

  lemma MailingEven<M>(s: Sched<M>, i: nat, ch: Choice<M>, c: nat)
    requires Good(s) && i < |s.workers| && Exists(s, i) && s.senders[i].Mailing? && c < |s.inGlobal|
    requires s.workers[i].Outside? || s.workers[i].Handling?
    ensures Moves(s, SenderStep(s, i, ch), i) && Even(s, SenderStep(s, i, ch), i, c)
  {
    hide Step, Inv, Good, Sizes, InOrder, Moves;
    GoodSizes(s);
    var x, s', call := s.senders[i].c, SenderStep(s, i, ch), Push(s.senders[i].msg);
    MailUseOf(s, i, x);
    QueueUseOf(s, i);
    Basics(s.mail[x]);
    assert s' == AfterMail(s, i, x, call, s'.workers[i], s'.senders[i], s'.handled[x]) by {
      assert s.senders == s.senders[i := s.senders[i]];
      assert s.handled == s.handled[x := s.handled[x]];
      assert s.workers == s.workers[i := s.workers[i]];
    }
    MailEven(s, s', i, x, call, c);
  }

  /** A step that touches no queue. */
  lemma PlainEven<M>(s: Sched<M>, s': Sched<M>, i: nat, c: nat)
    requires Sizes(s) && i < |s.workers| && c < |s.inGlobal| && |s'.workers| == |s'.senders| == |s.workers| && |s'.inGlobal| == |s.inGlobal|
    requires s' == SetSender(SetWorker(s.(inGlobal := s'.inGlobal), i, s'.workers[i]), i, s'.senders[i])
    requires i < |s.queue.threads| && s.queue.threads[i].Idle?
    requires
      Own(s'.workers[i], s'.senders[i], Idle, c) - s'.inGlobal[c] == Own(s.workers[i], s.senders[i], Idle, c) - s.inGlobal[c]
    ensures Moves(s, s', i) && Even(s, s', i, c)
  {
    hide Inv, Queue;
    assert forall x :: 0 <= x < |s.mail| ==> s.mail[x].threads == s.mail[x].threads[i := s.mail[x].threads[i]];
  }

  lemma WorkerPlainEven<M>(s: Sched<M>, i: nat, ch: Choice<M>, c: nat)
    requires Good(s) && i < |s.workers| && Exists(s, i) && c < |s.inGlobal|
    requires var w := s.workers[i]; w.Outside? || w.Handling? || w.Checking? || w.Releasing? || w.Resting?
    requires s.workers[i].Outside? || s.workers[i].Handling? ==> s.senders[i].Quiet?
    ensures Moves(s, WorkerStep(s, i, ch), i) && Even(s, WorkerStep(s, i, ch), i, c)
  {
    var w, s' := s.workers[i], WorkerStep(s, i, ch);
    QueueUseOf(s, i);
    GoodSizes(s);
    if w.Releasing? { ReleaseSucceeds(s, i); }
    hide Good, Sizes, Moves, Even;
    assert s.senders == s.senders[i := s.senders[i]];
    assert s.workers == s.workers[i := s.workers[i]];
    PlainEven(s, s', i, c);
  }

  lemma GoodSizes<M>(s: Sched<M>)
    requires Good(s)
    ensures Sizes(s) && |s.senders| == |s.workers| == |s.queue.threads| && |s.mail| == |s.inGlobal|
  {
  }

  lemma SenderPlainEven<M>(s: Sched<M>, i: nat, ch: Choice<M>, c: nat)
    requires Good(s) && i < |s.workers| && Exists(s, i) && c < |s.inGlobal|
    requires (s.workers[i].Outside? || s.workers[i].Handling?) && (s.senders[i].Quiet? || s.senders[i].Claiming?)
    ensures Moves(s, SenderStep(s, i, ch), i) && Even(s, SenderStep(s, i, ch), i, c)
  {
    var s' := SenderStep(s, i, ch);
    QueueUseOf(s, i);
    GoodSizes(s);
    InGlobalIsBit(s);
    hide Good, Sizes, Moves, Even;
    assert s.senders == s.senders[i := s.senders[i]];
    assert s.workers == s.workers[i := s.workers[i]];
    PlainEven(s, s', i, c);
  }

  /** Nothing is done. */
  lemma NothingEven<M>(s: Sched<M>, i: nat, c: nat)
    requires Good(s) && i < |s.workers| && c < |s.inGlobal|
    ensures Moves(s, s, i) && Even(s, s, i, c)
  {
    hide Inv, Queue;
    assert s.workers == s.workers[i := s.workers[i]] && s.senders == s.senders[i := s.senders[i]];
    assert s.queue.threads == s.queue.threads[i := s.queue.threads[i]];
    assert forall x :: 0 <= x < |s.mail| ==> s.mail[x].threads == s.mail[x].threads[i := s.mail[x].threads[i]];
  }

  lemma NextEven<M>(s: Sched<M>, i: nat, sends: bool, ch: Choice<M>, c: nat)
    requires Good(s) && i < |s.workers| && c < |s.inGlobal|
    ensures Sizes(s) && Exists(s, i)
    ensures var s' := Next(s, i, sends, ch); Moves(s, s', i) && |s'.inGlobal| == |s.inGlobal| && Even(s, s', i, c)
  {
    QueueUseOf(s, i);
    GoodSizes(s);
    SameGlobals(s, i, sends, ch);
    hide Good, Sizes, Moves, Even;
    var w, d := s.workers[i], s.senders[i];
    if sends {
      if !w.Outside? && !w.Handling? { NothingEven(s, i, c); }
      else if d.Mailing? { MailingEven(s, i, ch, c); }
      else if d.Enqueueing? { EnqueueingEven(s, i, ch, c); }
      else { SenderPlainEven(s, i, ch, c); }
    } else {
      if w.Popping? { PoppingEven(s, i, ch, c); }
      else if w.Dispatching? { DispatchingEven(s, i, ch, c); }
      else if w.Requeueing? { RequeueingEven(s, i, ch, c); }
      else if w.Outside? || (w.Handling? && !d.Quiet?) || w.AssertionFailed? { NothingEven(s, i, c); }
      else { WorkerPlainEven(s, i, ch, c); }
    }
  }

  lemma SameGlobals<M>(s: Sched<M>, i: nat, sends: bool, ch: Choice<M>)
    requires Sizes(s) && i < |s.workers| && Exists(s, i)
    ensures |Next(s, i, sends, ch).inGlobal| == |s.inGlobal|
  {
    hide Step, Inv;
  }

  /** With each step of each thread, the tokens of a context less its inGlobal stay as they are, but for one token that is lost
      when the run queue answers that it is full. */
  lemma Conserves<M>(s: Sched<M>, i: nat, sends: bool, ch: Choice<M>, c: nat)
    requires Good(s) && i < |s.workers| && c < |s.inGlobal|
    ensures Sizes(s) && Exists(s, i)
    ensures
      var s' := Next(s, i, sends, ch);
      && Sizes(s') && i < |s.queue.threads| && i < |s'.queue.threads| && |s'.inGlobal| == |s.inGlobal|
      && Balance(s', c) == Balance(s, c) - One(Refused(s.queue.threads[i], s'.queue.threads[i], c))
  {
    NextEven(s, i, sends, ch, c);
    GoodSizes(s);
    var s' := Next(s, i, sends, ch);
    assert Sizes(s') && i < |s'.queue.threads|;
    EvenBalance(s, s', i, c);
    hide Good, Even, Next, Balance;
  }
}
