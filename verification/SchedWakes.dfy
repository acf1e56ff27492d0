/** When a message is left in a mailbox: exactly if a worker clears inGlobal while there is one, and no sender is still to look at
    inGlobal. */
module SchedWakes {
  import opened Wrappers
  import opened Ring
  import opened Scheduler
  import opened SchedTokens
  import opened SchedRuns
  import opened SchedSolo
  import opened SchedSend

  /** Sender j has put a message into the mailbox of c and will then try to set inGlobal. */
  ghost predicate Waker<M>(s: Sched<M>, c: nat, j: nat)
    requires Sizes(s) && c < |s.mail|
  {
    j < |s.senders| &&
    (s.senders[j] == Claiming(c) ||
     (s.senders[j].Mailing? && s.senders[j].c == c && (s.mail[c].threads[j].PushCount? || s.mail[c].threads[j] == PushDone(true))))
  }

  ghost predicate SomeWaker<M>(s: Sched<M>, c: nat)
    requires Sizes(s) && c < |s.mail|
  {
    exists j :: Waker(s, c, j)
  }

  /** What is in the mailbox will be seen to. */
  ghost predicate Awake<M>(s: Sched<M>, c: nat)
    requires Sizes(s) && c < |s.mail|
  {
    Queue(s.mail[c]) == [] || s.inGlobal[c] == 1 || SomeWaker(s, c)
  }

  /** A worker clears inGlobal although there is a message. */
  ghost predicate ReleasesLate<M>(s: Sched<M>, i: nat, sends: bool, c: nat)
    requires Sizes(s) && i < |s.workers| && c < |s.mail|
  {
    !sends && s.workers[i] == Releasing(c) && Queue(s.mail[c]) != [] && !SomeWaker(s, c)
  }

  /** Others than the thread that moves are wakers as before. */
  lemma OtherWakers<M>(s: Sched<M>, s': Sched<M>, i: nat, c: nat, j: nat)
    requires Moves(s, s', i) && c < |s.mail| && j != i
    ensures Waker(s', c, j) == Waker(s, c, j)
  {
    hide Inv;
  }

  // ----- the worker's steps -----

  lemma WorkerAwake<M>(s: Sched<M>, i: nat, ch: Choice<M>, c: nat)
    requires Good(s) && i < |s.workers| && Exists(s, i) && c < |s.mail| == |s.inGlobal| && Moves(s, WorkerStep(s, i, ch), i)
    requires Awake(s, c)
    ensures Awake(WorkerStep(s, i, ch), c) <==> !ReleasesLate(s, i, false, c)
  {
    hide Good, Sizes, Moves, Inv, Queue, Step;
    GoodSizes(s);
    var s' := WorkerStep(s, i, ch);
    SameSender(s, i, ch, c);
    forall j | j != i ensures Waker(s', c, j) == Waker(s, c, j) { OtherWakers(s, s', i, c, j); }
    assert SomeWaker(s', c) == SomeWaker(s, c);
    if s.workers[i] == Releasing(c) { ReleaseSucceeds(s, i); }
  }

  /** A worker's step leaves its sender alone, brings no message into a mailbox, and changes inGlobal of c only by releasing c. */
  lemma SameSender<M>(s: Sched<M>, i: nat, ch: Choice<M>, c: nat)
    requires Good(s) && i < |s.workers| && Exists(s, i) && c < |s.mail| == |s.inGlobal|
    ensures Sizes(s) && |s.senders| == |s.workers| && Sizes(WorkerStep(s, i, ch))
    ensures
      var s' := WorkerStep(s, i, ch);
      && |s'.mail| == |s.mail| && |s'.inGlobal| == |s.inGlobal| && s'.senders == s.senders
      && Waker(s', c, i) == Waker(s, c, i)
      && (Queue(s.mail[c]) == [] ==> Queue(s'.mail[c]) == [])
      && (s.workers[i] != Releasing(c) ==> s'.inGlobal[c] == s.inGlobal[c])
      && (s.workers[i] == Releasing(c) ==> s'.inGlobal[c] == 0 && s'.mail == s.mail)
  {
    hide Good, Sizes, Inv, Queue, Step;
    NextGood(s, i, false, ch);
    GoodSizes(s);
    GoodSizes(WorkerStep(s, i, ch));
    MailUseOf(s, i, c);
    if s.workers[i] == Releasing(c) { ReleaseSucceeds(s, i); }
    if s.workers[i] == Dispatching(c) { PopQueue(s.mail[c], i); }
  }

  lemma PopQueue<T>(q: Ring<T>, i: nat)
    requires Inv(q) && i < |q.threads| && !IsPush(q.threads[i])
    ensures q.size > 0 && |q.slots| == q.size && Inv(Step(q, i, Pop)) && (Queue(q) == [] ==> Queue(Step(q, i, Pop)) == [])
  {
    Basics(q);
    StepRefines(q, i, Pop);
    hide Step, Inv, Queue;
  }

  // ----- the sender's steps -----

  lemma SenderAwake<M>(s: Sched<M>, i: nat, ch: Choice<M>, c: nat)
    requires Good(s) && i < |s.workers| && Exists(s, i) && c < |s.mail| == |s.inGlobal| && Moves(s, SenderStep(s, i, ch), i)
    requires Awake(s, c)
    ensures Awake(SenderStep(s, i, ch), c)
  {
    hide Good, Sizes, Moves, Inv, Queue, Step;
    GoodSizes(s);
    var s' := SenderStep(s, i, ch);
    InGlobalIsBit(s);
    SentAwake(s, i, ch, c);
    if j :| Waker(s, c, j) && j != i { OtherWakers(s, s', i, c, j); assert Waker(s', c, j); }
    if Waker(s', c, i) { assert SomeWaker(s', c); }
  }

  /** The sender that has made the mailbox not empty is a waker, and one that stops being a waker has seen to inGlobal. */
  lemma SentAwake<M>(s: Sched<M>, i: nat, ch: Choice<M>, c: nat)
    requires Good(s) && i < |s.workers| && Exists(s, i) && c < |s.mail| == |s.inGlobal|
    ensures Sizes(s) && |s.senders| == |s.workers| && Sizes(SenderStep(s, i, ch))
    ensures
      var s' := SenderStep(s, i, ch);
      && |s'.mail| == |s.mail| && |s'.inGlobal| == |s.inGlobal|
      && (Queue(s.mail[c]) == [] ==> Queue(s'.mail[c]) == [] || Waker(s', c, i))
      && (Waker(s, c, i) ==> Waker(s', c, i) || s'.inGlobal[c] == 1)
      && (s.inGlobal[c] == 1 ==> s'.inGlobal[c] == 1)
  {
    hide Good, Sizes, Inv, Queue, Step;
    NextGood(s, i, true, ch);
    GoodSizes(s);
    GoodSizes(SenderStep(s, i, ch));
    InGlobalIsBit(s);
    QueueUseOf(s, i);
    MailUseOf(s, i, c);
    if s.senders[i].Mailing? && s.senders[i].c == c { PushQueue(s.mail[c], i, s.senders[i].msg); }
  }

  lemma PushQueue<T>(q: Ring<T>, i: nat, msg: T)
    requires Inv(q) && i < |q.threads| && (q.threads[i].Idle? || IsPush(q.threads[i]))
    ensures q.size > 0 && |q.slots| == q.size
    ensures
      var q' := Step(q, i, Push(msg));
      && Inv(q') && i < |q'.threads|
      && (Queue(q) == [] ==> Queue(q') == [] || q'.threads[i].PushCount?)
      && (q.threads[i].PushCount? ==> q'.threads[i] == PushDone(true)) && (q.threads[i].PushDone? ==> q'.threads[i].Idle?)
  {
    Basics(q);
    StepRefines(q, i, Push(msg));
    hide CountToIndex, Inv, Queue;
  }

  // ----- every step -----

  /** A context whose messages will be seen to stays so with each step of each thread, but exactly for a worker that clears
      inGlobal late. */
  lemma AwakeExactly<M>(s: Sched<M>, i: nat, sends: bool, ch: Choice<M>, c: nat)
    requires Good(s) && i < |s.workers| && c < |s.mail| == |s.inGlobal| && Sizes(s) && Awake(s, c)
    ensures Exists(s, i) && Sizes(Next(s, i, sends, ch)) && c < |Next(s, i, sends, ch).mail|
    ensures Awake(Next(s, i, sends, ch), c) <==> !ReleasesLate(s, i, sends, c)
  {
    hide Good, Sizes, Moves, Awake, Even;
    NextEven(s, i, sends, ch, c);
    MovesSizes(s, Next(s, i, sends, ch), i);
    if sends { SenderAwake(s, i, ch, c); } else { WorkerAwake(s, i, ch, c); }
  }

  lemma MovesSizes<M>(s: Sched<M>, s': Sched<M>, i: nat)
    requires Moves(s, s', i)
    ensures Sizes(s') && |s'.mail| == |s.mail|
  {
  }

  ghost predicate AnyLate<M>(s: Sched<M>, turns: seq<Turn<M>>, c: nat)
    requires Good(s) && c < |s.mail| && forall k :: 0 <= k < |turns| ==> turns[k].i < |s.workers|
    decreases |turns|
  {
    |turns| > 0 &&
    (var t := turns[0];
     NextGood(s, t.i, t.sends, t.ch);
     SameThreads(s, t.i, t.sends, t.ch);
     NextMail(s, t.i, t.sends, t.ch);
     ReleasesLate(s, t.i, t.sends, c) || AnyLate(Next(s, t.i, t.sends, t.ch), turns[1..], c))
  }

  lemma NextMail<M>(s: Sched<M>, i: nat, sends: bool, ch: Choice<M>)
    requires Sizes(s) && i < |s.workers| && Exists(s, i)
    ensures |Next(s, i, sends, ch).mail| == |s.mail|
  {
    hide Step, Inv;
  }

  /** In a run without such a release, a mailbox with messages has a context that is queued or run by a worker, or one is about to
      be, as long as the run queue does not refuse it. */
  lemma {:induction false} NothingIsLeft<M>(s: Sched<M>, turns: seq<Turn<M>>, c: nat)
    requires Good(s) && c < |s.mail| && (forall k :: 0 <= k < |turns| ==> turns[k].i < |s.workers|) && Sizes(s) && Awake(s, c)
    requires !AnyLate(s, turns, c)
    ensures var s' := RunAll(s, turns); Sizes(s') && c < |s'.mail| && Awake(s', c)
    decreases |turns|
  {
    hide Good, Sizes, Next, Awake, ReleasesLate;
    GoodSizes(s);
    if |turns| > 0 {
      var t := turns[0];
      NextGood(s, t.i, t.sends, t.ch);
      SameThreads(s, t.i, t.sends, t.ch);
      NextMail(s, t.i, t.sends, t.ch);
      AwakeExactly(s, t.i, t.sends, t.ch, c);
      NothingIsLeft(Next(s, t.i, t.sends, t.ch), turns[1..], c);
    }
  }

  /** It does happen: one message sent and handled, and another one sent just before the worker clears inGlobal. */
  lemma ItIsLeft<M(!new)>(s: Sched<M>, i: nat, j: nat, c: nat, msg: M, second: M) returns (r: Sched<M>)
    requires Calm(s, i, j, c) && forall k :: 0 <= k < |s.senders| ==> s.senders[k].Quiet?
    ensures Leads(s, r) && Good(r) && c < |r.mail| && Sizes(r) && Queue(r.mail[c]) == [second] && Queue(r.queue) == [] && !Awake(r, c)
  {
    hide Good, Leads, Sizes, Inv, Queue, Exists, AllIdle;
    r := MessageIsLeft(s, i, j, c, msg, second);
    GoodSizes(r);
    assert forall k :: !Waker(r, c, k);
  }
}
