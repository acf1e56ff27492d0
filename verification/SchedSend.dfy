/** One message in a pool that is quiet otherwise, from the send to its end; and how a message can be left in the mailbox. */
module SchedSend {
  import opened Wrappers
  import opened Ring
  import opened Scheduler
  import opened SchedSolo

  function WithMail<M>(s: Sched<M>, c: nat, q: Ring<M>): Sched<M>
    requires c < |s.mail|
  {
    s.(mail := s.mail[c := q])
  }

  // ----- the sender -----

  /** The message gets into the mailbox. */
  lemma Sends<M(!new)>(s: Sched<M>, i: nat, c: nat, msg: M)
    requires Good(s) && i < |s.workers| == |s.senders| && c < |s.mail| == |s.inGlobal| && Usable(s.mail[c], i)
    requires s.workers[i].Outside? && s.senders[i].Quiet?
    requires Inv(s.mail[c]) && AllIdle(s.mail[c]) && |Queue(s.mail[c])| < s.mail[c].size - 1
    ensures Leads(s, SetSender(WithMail(s, c, Pushed(s.mail[c], i, msg)), i, Claiming(c)))
  {
    hide Good, Leads, Step, Exists, Sizes, Undone, Solo, Inv, Queue, Pushed;
    PoolShape(s, i);
    PushWhole(s.mail[c], i, msg);
    var p := Solo(s.mail[c], i, Push(msg), 7);
    var s1 := SetSender(s, i, Mailing(c, msg));
    LeadsOne(s, i, true, SendTo(c, msg), s1);
    GoodEnd(s, s1);
    MailingSolo(s1, i, c, msg, 7);
    var s2 := WithMail(s1, c, p);
    GoodEnd(s1, s2);
    PoolShape(s2, i);
    var s3 := SetSender(WithMail(s2, c, Pushed(s.mail[c], i, msg)), i, Claiming(c));
    assert Next(s2, i, true, Work(true)) == s3;
    LeadsOne(s2, i, true, Work(true), s3);
    LeadsTrans(s, s1, s2);
    LeadsTrans(s, s2, s3);
    assert s.mail[c := p][c := Pushed(s.mail[c], i, msg)] == s.mail[c := Pushed(s.mail[c], i, msg)];
    assert s.senders[i := Mailing(c, msg)][i := Claiming(c)] == s.senders[i := Claiming(c)];
  }

  lemma GoodEnd<M(!new)>(s: Sched<M>, s': Sched<M>)
    requires Leads(s, s')
    ensures Good(s) && Good(s') && |s'.workers| == |s.workers|
  {
    hide Good;
  }

  /** The context gets into the run queue, unless its inGlobal is set. */
  lemma Claims<M(!new)>(s: Sched<M>, i: nat, c: nat)
    requires Good(s) && i < |s.workers| == |s.senders| && c < |s.inGlobal| && s.workers[i].Outside? && s.senders[i] == Claiming(c)
    ensures
      Leads(s, if s.inGlobal[c] == 0 then SetSender(s.(inGlobal := s.inGlobal[c := 1]), i, Enqueueing(c)) else SetSender(s, i, Quiet))
  {
    hide Good, Leads, Step, Exists, Sizes;
    PoolShape(s, i);
    LeadsOne(s, i, true, Work(true),
             if s.inGlobal[c] == 0 then SetSender(s.(inGlobal := s.inGlobal[c := 1]), i, Enqueueing(c)) else SetSender(s, i, Quiet));
  }

  lemma Enqueues<M(!new)>(s: Sched<M>, i: nat, c: nat)
    requires Good(s) && i < |s.workers| == |s.senders| && Usable(s.queue, i) && s.workers[i].Outside? && s.senders[i] == Enqueueing(c)
    requires Inv(s.queue) && AllIdle(s.queue) && |Queue(s.queue)| < s.queue.size - 1
    ensures Leads(s, SetSender(s.(queue := Pushed(s.queue, i, c)), i, Quiet))
  {
    hide Good, Leads, Step, Exists, Sizes, Undone, Solo, Inv, Queue, Pushed;
    PoolShape(s, i);
    PushWhole(s.queue, i, c);
    EnqueueingSolo(s, i, c, 7);
    var s1 := s.(queue := Solo(s.queue, i, Push(c), 7));
    GoodEnd(s, s1);
    PoolShape(s1, i);
    var s2 := SetSender(s.(queue := Pushed(s.queue, i, c)), i, Quiet);
    assert Next(s1, i, true, Work(true)) == s2;
    LeadsOne(s1, i, true, Work(true), s2);
    LeadsTrans(s, s1, s2);
  }

  // ----- the worker -----

  lemma Takes<M(!new)>(s: Sched<M>, j: nat, c: nat)
    requires Good(s) && j < |s.workers| && Usable(s.queue, j) && s.workers[j].Popping? && c < |s.inGlobal|
    requires Inv(s.queue) && AllIdle(s.queue) && Queue(s.queue) == [c]
    ensures Leads(s, SetWorker(s.(queue := Popped(s.queue, j)), j, Dispatching(c)))
  {
    hide Good, Leads, Step, Exists, Sizes, Undone, Solo, Inv, Queue, Popped;
    PoolShape(s, j);
    PopWhole(s.queue, j);
    PoppingSolo(s, j, 6);
    var s1 := s.(queue := Solo(s.queue, j, Pop, 6));
    GoodEnd(s, s1);
    PoolShape(s1, j);
    var s2 := SetWorker(s.(queue := Popped(s.queue, j)), j, Dispatching(c));
    assert Next(s1, j, false, Work(true)) == s2;
    LeadsOne(s1, j, false, Work(true), s2);
    LeadsTrans(s, s1, s2);
  }

  function Handled<M>(s: Sched<M>, c: nat, msg: M): Sched<M>
    requires c < |s.handled|
  {
    s.(handled := s.handled[c := s.handled[c] + [msg]])
  }

  lemma Handles<M(!new)>(s: Sched<M>, j: nat, c: nat, msg: M)
    requires Good(s) && j < |s.workers| && c < |s.mail| == |s.handled| && Usable(s.mail[c], j) && s.workers[j] == Dispatching(c)
    requires Inv(s.mail[c]) && AllIdle(s.mail[c]) && Queue(s.mail[c]) == [msg]
    ensures Leads(s, Handled(SetWorker(WithMail(s, c, Popped(s.mail[c], j)), j, Handling(c, msg)), c, msg))
  {
    hide Good, Leads, Step, Exists, Sizes, Undone, Solo, Inv, Queue, Popped;
    PoolShape(s, j);
    PopWhole(s.mail[c], j);
    DispatchingSolo(s, j, c, 6);
    var p := Solo(s.mail[c], j, Pop, 6);
    var s1 := WithMail(s, c, p);
    GoodEnd(s, s1);
    PoolShape(s1, j);
    var s2 := Handled(SetWorker(WithMail(s, c, Popped(s.mail[c], j)), j, Handling(c, msg)), c, msg);
    assert s.mail[c := p][c := Popped(s.mail[c], j)] == s.mail[c := Popped(s.mail[c], j)];
    assert Next(s1, j, false, Work(true)) == s2;
    LeadsOne(s1, j, false, Work(true), s2);
    LeadsTrans(s, s1, s2);
  }

  /** Back from the callback, with no other work about: the worker goes on with the same context. */
  lemma GoesOnWith<M(!new)>(s: Sched<M>, j: nat, c: nat, msg: M)
    requires Good(s) && j < |s.workers| == |s.senders| && s.workers[j] == Handling(c, msg) && s.senders[j].Quiet?
    ensures Leads(s, SetWorker(s, j, Dispatching(c)))
  {
    hide Good, Leads, Step, Exists, Sizes;
    PoolShape(s, j);
    var s1 := SetWorker(s, j, Checking(c));
    LeadsOne(s, j, false, Work(true), s1);
    GoodEnd(s, s1);
    PoolShape(s1, j);
    var s2 := SetWorker(s, j, Dispatching(c));
    assert s.workers[j := Checking(c)][j := Dispatching(c)] == s.workers[j := Dispatching(c)];
    LeadsOne(s1, j, false, Work(false), s2);
    LeadsTrans(s, s1, s2);
  }

  lemma FindsNothing<M(!new)>(s: Sched<M>, j: nat, c: nat)
    requires Good(s) && j < |s.workers| && c < |s.mail| == |s.handled| && Usable(s.mail[c], j) && s.workers[j] == Dispatching(c)
    requires Inv(s.mail[c]) && AllIdle(s.mail[c]) && Queue(s.mail[c]) == []
    ensures Leads(s, SetWorker(s, j, Releasing(c)))
  {
    hide Good, Leads, Step, Exists, Sizes, Undone, Solo, Inv, Queue;
    PoolShape(s, j);
    PopNothing(s.mail[c], j);
    DispatchingSolo(s, j, c, 3);
    var p := Solo(s.mail[c], j, Pop, 3);
    var s1 := WithMail(s, c, p);
    GoodEnd(s, s1);
    PoolShape(s1, j);
    var s2 := SetWorker(s, j, Releasing(c));
    assert s.mail[c := p][c := s.mail[c]] == s.mail;
    assert Next(s1, j, false, Work(true)) == s2;
    LeadsOne(s1, j, false, Work(true), s2);
    LeadsTrans(s, s1, s2);
  }

  lemma Releases<M(!new)>(s: Sched<M>, j: nat, c: nat)
    requires Good(s) && j < |s.workers| && c < |s.inGlobal| && s.workers[j] == Releasing(c)
    ensures Leads(s, SetWorker(s.(inGlobal := s.inGlobal[c := 0]), j, Resting))
  {
    ReleaseSucceeds(s, j);
    hide Good, Leads, Step, Exists, Sizes;
    PoolShape(s, j);
    LeadsOne(s, j, false, Work(true), SetWorker(s.(inGlobal := s.inGlobal[c := 0]), j, Resting));
  }

  // ----- from the send to the end -----

  /** Thread i may send to c, worker j waits for work, and nothing is under way or left over. */
  ghost predicate Calm<M>(s: Sched<M>, i: nat, j: nat, c: nat) {
    && Good(s) && i < |s.workers| && j < |s.workers| && i != j && c < |s.inGlobal| && s.inGlobal[c] == 0
    && s.workers[i].Outside? && s.senders[i].Quiet? && s.workers[j].Popping? && s.senders[j].Quiet?
    && AllIdle(s.queue) && Queue(s.queue) == [] && s.queue.size >= 2
    && AllIdle(s.mail[c]) && Queue(s.mail[c]) == [] && s.mail[c].size >= 2
  }

  /** A pool that has just started is calm. */
  lemma StartIsCalm<M>(s: Sched<M>, i: nat, j: nat, c: nat)
    requires Start(s) && i < |s.workers| && j < |s.workers| && c < |s.inGlobal| && s.workers[i].Outside? && s.workers[j].Popping?
    requires s.queue.size >= 2 && s.mail[c].size >= 2
    ensures Calm(s, i, j, c)
  {
    StartGood(s);
    hide Good;
  }

  /** Only message msg to c has come and gone; worker j is at w. */
  ghost predicate Between<M>(s: Sched<M>, r: Sched<M>, j: nat, c: nat, msg: M, w: Worker<M>, bit: int, left: seq<M>)
    requires Good(s) && Good(r) && c < |s.mail| && c < |s.inGlobal| && c < |s.handled| && j < |s.workers|
  {
    && r.workers == s.workers[j := w] && r.senders == s.senders && r.inGlobal == s.inGlobal[c := bit]
    && r.handled == s.handled[c := s.handled[c] + [msg]]
    && AllIdle(r.queue) && Queue(r.queue) == [] && r.queue.size == s.queue.size
    && |r.mail| == |s.mail| && (forall x :: 0 <= x < |s.mail| && x != c ==> r.mail[x] == s.mail[x])
    && AllIdle(r.mail[c]) && Queue(r.mail[c]) == left && r.mail[c].size == s.mail[c].size
  }

  /** The message is sent, the context queued. */
  lemma Sent<M(!new)>(s: Sched<M>, i: nat, j: nat, c: nat, msg: M)
    requires Calm(s, i, j, c)
    ensures |s.mail| == |s.inGlobal| == |s.handled| && |s.senders| == |s.workers| && Usable(s.mail[c], i) && Usable(s.queue, i)
    ensures
      var m, q := Pushed(s.mail[c], i, msg), Pushed(s.queue, i, c);
      && Leads(s, WithMail(s, c, m).(queue := q, inGlobal := s.inGlobal[c := 1]))
      && Inv(m) && AllIdle(m) && Queue(m) == [msg] && m.size == s.mail[c].size && m.threads == s.mail[c].threads
      && Inv(q) && AllIdle(q) && Queue(q) == [c] && q.size == s.queue.size && q.threads == s.queue.threads
  {
    hide Good, Leads, Sizes, Inv, Queue, Pushed, AllIdle, Exists;
    PoolShape(s, i);
    var m, q := Pushed(s.mail[c], i, msg), Pushed(s.queue, i, c);
    SendingFields(s, i, c, m, q);
    PushWhole(s.mail[c], i, msg);
    PushWhole(s.queue, i, c);
    SentAndClaimed(s, i, j, c, msg);
    var s1 := SetSender(WithMail(s, c, m), i, Claiming(c));
    var s2 := SetSender(s1.(inGlobal := s1.inGlobal[c := 1]), i, Enqueueing(c));
    GoodEnd(s, s2);
    Enqueues(s2, i, c);
    LeadsTrans(s, s2, SetSender(s2.(queue := q), i, Quiet));
  }

  lemma SentAndClaimed<M(!new)>(s: Sched<M>, i: nat, j: nat, c: nat, msg: M)
    requires Calm(s, i, j, c)
    ensures |s.mail| == |s.inGlobal| == |s.handled| && |s.senders| == |s.workers| && Usable(s.mail[c], i) && Usable(s.queue, i)
    ensures
      var s1 := SetSender(WithMail(s, c, Pushed(s.mail[c], i, msg)), i, Claiming(c));
      c < |s1.inGlobal| && i < |s1.senders| && Leads(s, SetSender(s1.(inGlobal := s1.inGlobal[c := 1]), i, Enqueueing(c)))
  {
    hide Good, Leads, Sizes, Inv, Queue, Pushed, AllIdle, Exists;
    PoolShape(s, i);
    var m := Pushed(s.mail[c], i, msg);
    SendingFields(s, i, c, m, s.queue);
    Sends(s, i, c, msg);
    var s1 := SetSender(WithMail(s, c, m), i, Claiming(c));
    GoodEnd(s, s1);
    Claims(s1, i, c);
    LeadsTrans(s, s1, SetSender(s1.(inGlobal := s1.inGlobal[c := 1]), i, Enqueueing(c)));
  }

  /** The states in between, field by field. */
  lemma SendingFields<M>(s: Sched<M>, i: nat, c: nat, m: Ring<M>, q: Ring<nat>)
    requires i < |s.workers| == |s.senders| && c < |s.mail| == |s.inGlobal| && s.senders[i].Quiet?
    ensures
      var s1 := SetSender(WithMail(s, c, m), i, Claiming(c));
      && s1.workers == s.workers && |s1.senders| == |s.senders| && s1.senders[i] == Claiming(c) && s1.inGlobal == s.inGlobal
      && s1.queue == s.queue &&
      var s2 := SetSender(s1.(inGlobal := s1.inGlobal[c := 1]), i, Enqueueing(c));
      && s2.workers == s.workers && |s2.senders| == |s.senders| && s2.senders[i] == Enqueueing(c) && s2.queue == s.queue
      && SetSender(s2.(queue := q), i, Quiet) == WithMail(s, c, m).(queue := q, inGlobal := s.inGlobal[c := 1])
  {
    assert s.senders[i := Claiming(c)][i := Enqueueing(c)][i := Quiet] == s.senders;
  }

  /** The worker takes it and handles it. */
  lemma TakenAndHandled<M(!new)>(s: Sched<M>, j: nat, c: nat, msg: M)
    requires Good(s) && j < |s.workers| == |s.senders| && c < |s.mail| == |s.inGlobal| == |s.handled|
    requires s.workers[j].Popping? && Usable(s.mail[c], j) && Usable(s.queue, j)
    requires Inv(s.queue) && AllIdle(s.queue) && Queue(s.queue) == [c] && Inv(s.mail[c]) && AllIdle(s.mail[c]) && Queue(s.mail[c]) == [msg]
    ensures
      var s1 := SetWorker(s.(queue := Popped(s.queue, j)), j, Dispatching(c));
      |s1.workers| == |s.workers| && Leads(s, Handled(SetWorker(WithMail(s1, c, Popped(s.mail[c], j)), j, Handling(c, msg)), c, msg))
  {
    hide Good, Leads, Sizes, Inv, Queue, Popped, AllIdle, Exists;
    var m, q := Popped(s.mail[c], j), Popped(s.queue, j);
    Takes(s, j, c);
    var s1 := SetWorker(s.(queue := q), j, Dispatching(c));
    GoodEnd(s, s1);
    Placed(s, j, c, q, m, msg);
    Handles(s1, j, c, msg);
    LeadsTrans(s, s1, Handled(SetWorker(WithMail(s1, c, m), j, Handling(c, msg)), c, msg));
  }

  /** ... and finds nothing more. */
  lemma HandledAndNothing<M(!new)>(s: Sched<M>, j: nat, c: nat, msg: M)
    requires Good(s) && j < |s.workers| == |s.senders| && c < |s.mail| == |s.handled| && Usable(s.mail[c], j)
    requires s.workers[j] == Handling(c, msg) && s.senders[j].Quiet? && Inv(s.mail[c]) && AllIdle(s.mail[c]) && Queue(s.mail[c]) == []
    ensures Leads(s, SetWorker(SetWorker(s, j, Dispatching(c)), j, Releasing(c)))
  {
    hide Good, Leads, Sizes, Inv, Queue, AllIdle, Exists;
    GoesOnWith(s, j, c, msg);
    var s1 := SetWorker(s, j, Dispatching(c));
    GoodEnd(s, s1);
    FindsNothing(s1, j, c);
    LeadsTrans(s, s1, SetWorker(s1, j, Releasing(c)));
  }

  lemma Worked<M(!new)>(s: Sched<M>, j: nat, c: nat, msg: M)
    requires Good(s) && j < |s.workers| == |s.senders| && c < |s.mail| == |s.inGlobal| == |s.handled|
    requires s.workers[j].Popping? && s.senders[j].Quiet? && Usable(s.mail[c], j) && Usable(s.queue, j)
    requires Inv(s.queue) && AllIdle(s.queue) && Queue(s.queue) == [c] && Inv(s.mail[c]) && AllIdle(s.mail[c]) && Queue(s.mail[c]) == [msg]
    ensures
      var m, q := Popped(s.mail[c], j), Popped(s.queue, j);
      && Leads(s, Handled(SetWorker(WithMail(s, c, m).(queue := q), j, Releasing(c)), c, msg))
      && Inv(m) && AllIdle(m) && Queue(m) == [] && m.size == s.mail[c].size
      && Inv(q) && AllIdle(q) && Queue(q) == [] && q.size == s.queue.size
  {
    hide Good, Leads, Sizes, Inv, Queue, Popped, AllIdle, Exists;
    var m, q := Popped(s.mail[c], j), Popped(s.queue, j);
    PopWhole(s.mail[c], j);
    PopWhole(s.queue, j);
    TakenAndHandled(s, j, c, msg);
    Placed(s, j, c, q, m, msg);
    var s2 := Handled(SetWorker(WithMail(SetWorker(s.(queue := q), j, Dispatching(c)), c, m), j, Handling(c, msg)), c, msg);
    GoodEnd(s, s2);
    UsableAgain(s.mail[c], m, j);
    HandledAndNothing(s2, j, c, msg);
    LeadsTrans(s, s2, SetWorker(SetWorker(s2, j, Dispatching(c)), j, Releasing(c)));
  }

  lemma UsableAgain<T>(q: Ring<T>, m: Ring<T>, j: nat)
    requires Inv(m) && m.threads == q.threads && Usable(q, j)
    ensures Usable(m, j)
  {
    Basics(m);
    hide Inv;
  }

  /** The states in between, field by field. */
  lemma Placed<M>(s: Sched<M>, j: nat, c: nat, q: Ring<nat>, m: Ring<M>, msg: M)
    requires j < |s.workers| == |s.senders| && c < |s.mail| == |s.handled|
    ensures
      var s1 := SetWorker(s.(queue := q), j, Dispatching(c));
      var s2 := Handled(SetWorker(WithMail(s1, c, m), j, Handling(c, msg)), c, msg);
      var s3 := SetWorker(s2, j, Dispatching(c));
      && s1.mail == s.mail && |s1.workers| == |s.workers| && s1.workers[j] == Dispatching(c) && s1.senders == s.senders
      && s1.handled == s.handled && s1.inGlobal == s.inGlobal
      && s2.workers[j] == Handling(c, msg) && s2.senders == s.senders && |s2.workers| == |s.workers|
      && |s2.mail| == |s.mail| == |s2.handled| && s2.mail[c] == m
      && s3.workers[j] == Dispatching(c) && |s3.workers| == |s.workers| && |s3.mail| == |s.mail| == |s3.handled| && s3.mail[c] == m
      && SetWorker(s3, j, Releasing(c)) == Handled(SetWorker(WithMail(s, c, m).(queue := q), j, Releasing(c)), c, msg)
  {
    assert s.workers[j := Dispatching(c)][j := Handling(c, msg)][j := Dispatching(c)][j := Releasing(c)] == s.workers[j := Releasing(c)];
  }

  /** Sent and handled: the worker is about to release the context. */
  lemma AboutToRelease<M(!new)>(s: Sched<M>, i: nat, j: nat, c: nat, msg: M) returns (r: Sched<M>)
    requires Calm(s, i, j, c)
    ensures |s.mail| == |s.inGlobal| == |s.handled| && |s.senders| == |s.workers|
    ensures Leads(s, r) && Good(r) && Between(s, r, j, c, msg, Releasing(c), 1, [])
  {
    hide Good, Leads, Sizes, Inv, Queue, Pushed, Popped, AllIdle, Exists;
    PoolShape(s, i);
    PoolShape(s, j);
    Sent(s, i, j, c, msg);
    var m, q := Pushed(s.mail[c], i, msg), Pushed(s.queue, i, c);
    var s1 := WithMail(s, c, m).(queue := q, inGlobal := s.inGlobal[c := 1]);
    GoodEnd(s, s1);
    UsableAgain(s.mail[c], m, j);
    UsableAgain(s.queue, q, j);
    Worked(s1, j, c, msg);
    r := Handled(SetWorker(WithMail(s1, c, Popped(m, j)).(queue := Popped(q, j)), j, Releasing(c)), c, msg);
    GoodEnd(s1, r);
    LeadsTrans(s, s1, r);
  }

  /** In a pool that is quiet a message that is sent is handled, and all is as before but for that. */
  lemma MessageIsHandled<M(!new)>(s: Sched<M>, i: nat, j: nat, c: nat, msg: M) returns (r: Sched<M>)
    requires Calm(s, i, j, c)
    ensures |s.mail| == |s.inGlobal| == |s.handled| && |s.senders| == |s.workers|
    ensures Leads(s, r) && Good(r) && Between(s, r, j, c, msg, Resting, 0, [])
  {
    hide Good, Leads, Sizes, Inv, Queue, AllIdle, Exists;
    var r1 := AboutToRelease(s, i, j, c, msg);
    Releases(r1, j, c);
    r := SetWorker(r1.(inGlobal := r1.inGlobal[c := 0]), j, Resting);
    GoodEnd(r1, r);
    LeadsTrans(s, r1, r);
    assert s.inGlobal[c := 1][c := 0] == s.inGlobal[c := 0];
    assert s.workers[j := Releasing(c)][j := Resting] == s.workers[j := Resting];
  }

  /** If a second message is sent while the worker that found the mailbox empty has not yet cleared inGlobal, it stays in the
      mailbox: nothing is queued, inGlobal is 0, and no thread has anything to do with the context. */
  lemma MessageIsLeft<M(!new)>(s: Sched<M>, i: nat, j: nat, c: nat, msg: M, second: M) returns (r: Sched<M>)
    requires Calm(s, i, j, c)
    ensures |s.mail| == |s.inGlobal| == |s.handled| && |s.senders| == |s.workers|
    ensures Leads(s, r) && Good(r) && Between(s, r, j, c, msg, Resting, 0, [second])
  {
    hide Good, Leads, Sizes, Inv, Queue, AllIdle, Exists, Pushed;
    var r1 := AboutToRelease(s, i, j, c, msg);
    PoolShape(r1, i);
    PushWhole(r1.mail[c], i, second);
    Sends(r1, i, c, second);
    var m := Pushed(r1.mail[c], i, second);
    var r2 := SetSender(WithMail(r1, c, m), i, Claiming(c));
    GoodEnd(r1, r2);
    Claims(r2, i, c);
    var r3 := SetSender(r2, i, Quiet);
    GoodEnd(r2, r3);
    Releases(r3, j, c);
    r := SetWorker(r3.(inGlobal := r3.inGlobal[c := 0]), j, Resting);
    GoodEnd(r3, r);
    LeadsTrans(s, r1, r2);
    LeadsTrans(s, r2, r3);
    LeadsTrans(s, r3, r);
    assert s.inGlobal[c := 1][c := 0] == s.inGlobal[c := 0];
    assert s.workers[j := Releasing(c)][j := Resting] == s.workers[j := Resting];
    assert s.senders[i := Claiming(c)][i := Quiet] == s.senders;
  }
}
