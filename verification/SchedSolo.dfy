/** What one message goes through in a pool that is quiet otherwise: it is sent by one thread and handled by one worker. */
module SchedSolo {
  import opened Wrappers
  import opened Ring
  import opened Scheduler

  // ----- one queue -----

  predicate Finished<T>(pc: Pc<T>) { pc.PushDone? || pc.PopDone? }

  /** Thread i takes n steps before it has its answer. */
  ghost predicate Undone<T>(q: Ring<T>, i: nat, call: Call<T>, n: nat)
    requires i < |q.threads| && q.size > 0 && |q.slots| == q.size
    decreases n
  {
    n == 0 || (!Finished(q.threads[i]) && Undone(Step(q, i, call), i, call, n - 1))
  }

  lemma {:induction false} UndoneAdd<T>(q: Ring<T>, i: nat, call: Call<T>, n: nat, m: nat)
    requires i < |q.threads| && q.size > 0 && |q.slots| == q.size && Undone(q, i, call, n)
    ensures var q' := Solo(q, i, call, n); |q'.threads| == |q.threads| && q'.size == q.size && |q'.slots| == q'.size
    ensures Undone(Solo(q, i, call, n), i, call, m) ==> Undone(q, i, call, n + m)
    decreases n
  {
    hide Step;
    if n > 0 { UndoneAdd(Step(q, i, call), i, call, n - 1, m); }
  }

  lemma UndoneOne<T>(q: Ring<T>, i: nat, call: Call<T>, n: nat)
    requires i < |q.threads| && q.size > 0 && |q.slots| == q.size
    requires !Finished(q.threads[i]) && Undone(Step(q, i, call), i, call, n)
    ensures Undone(q, i, call, n + 1)
  {
    hide Step;
  }

  lemma ThreeUndone<T>(q: Ring<T>, i: nat, call: Call<T>)
    requires i < |q.threads| && q.size > 0 && |q.slots| == q.size && q.threads[i].Idle?
    ensures Undone(q, i, call, 3)
  {
    var q1 := Step(q, i, call);
    var q2 := Step(q1, i, call);
    hide CountToIndex, Undone;
    assert !Finished(q1.threads[i]) && !Finished(q2.threads[i]);
    hide Step;
    assert Undone(Step(q2, i, call), i, call, 0) by { NoSteps(Step(q2, i, call), i, call); }
    UndoneOne(q2, i, call, 0);
    UndoneOne(q1, i, call, 1);
    UndoneOne(q, i, call, 2);
  }

  lemma NoSteps<T>(q: Ring<T>, i: nat, call: Call<T>)
    requires i < |q.threads| && q.size > 0 && |q.slots| == q.size
    ensures Undone(q, i, call, 0)
  {
  }

  lemma FourUndone<T>(q: Ring<T>, i: nat, msg: T)
    requires i < |q.threads| && q.size > 0 && |q.slots| == q.size
    requires q.threads[i] == PushClaim(msg, q.writeIndex) && q.maximumReadIndex == q.writeIndex
    ensures Undone(q, i, Push(msg), 4)
  {
    var call := Push(msg);
    var q1 := Step(q, i, call);
    var q2 := Step(q1, i, call);
    var q3 := Step(q2, i, call);
    hide CountToIndex, Undone;
    assert !Finished(q1.threads[i]) && !Finished(q2.threads[i]) && !Finished(q3.threads[i]);
    hide Step;
    NoSteps(Step(q3, i, call), i, call);
    UndoneOne(q3, i, call, 0);
    UndoneOne(q2, i, call, 1);
    UndoneOne(q1, i, call, 2);
    UndoneOne(q, i, call, 3);
  }

  lemma TakeUndone<T>(q: Ring<T>, i: nat)
    requires i < |q.threads| && q.size > 0 && |q.slots| == q.size && q.threads[i] == PopLoad(q.readIndex)
    ensures Undone(q, i, Pop, 3)
  {
    var q1 := Step(q, i, Pop);
    var q2 := Step(q1, i, Pop);
    hide CountToIndex, Undone;
    assert !Finished(q1.threads[i]) && !Finished(q2.threads[i]);
    hide Step;
    NoSteps(Step(q2, i, Pop), i, Pop);
    UndoneOne(q2, i, Pop, 0);
    UndoneOne(q1, i, Pop, 1);
    UndoneOne(q, i, Pop, 2);
  }

  /** The queue after an undisturbed push, and after an undisturbed pop. */
  function Pushed<T>(q: Ring<T>, i: nat, msg: T): (q': Ring<T>)
    requires i < |q.threads| && q.size > 0 && |q.slots| == q.size
  {
    var p := Solo(q, i, Push(msg), 7);
    if i < |p.threads| then Goto(p, i, Idle) else q
  }

  function Popped<T>(q: Ring<T>, i: nat): (q': Ring<T>)
    requires i < |q.threads| && q.size > 0 && |q.slots| == q.size
  {
    var p := Solo(q, i, Pop, 6);
    if i < |p.threads| then Goto(p, i, Idle) else q
  }

  lemma PushWhole<T>(q: Ring<T>, i: nat, msg: T)
    requires Inv(q) && AllIdle(q) && i < |q.threads| && |Queue(q)| < q.size - 1
    ensures q.size > 0 && |q.slots| == q.size && Undone(q, i, Push(msg), 7)
    ensures
      var p := Solo(q, i, Push(msg), 7);
      p.threads == q.threads[i := PushDone(true)] && p.size == q.size && |p.slots| == p.size && Step(p, i, Push(msg)) == Pushed(q, i, msg)
    ensures
      var q' := Pushed(q, i, msg);
      Inv(q') && AllIdle(q') && q'.threads == q.threads && q'.size == q.size && Queue(q') == Queue(q) + [msg]
  {
    hide Inv, Step, Solo, Queue, Undone, CountToIndex;
    Basics(q);
    SoloPush(q, i, msg);
    PushWholeUndone(q, i, msg);
    var p := Solo(q, i, Push(msg), 7);
    Rests(p, i, Push(msg));
    assert q.threads[i := PushDone(true)][i := Idle] == q.threads;
    UndoneAdd(q, i, Push(msg), 7, 0);
  }

  lemma PushWholeUndone<T>(q: Ring<T>, i: nat, msg: T)
    requires Inv(q) && AllIdle(q) && i < |q.threads| && |Queue(q)| < q.size - 1
    ensures q.size > 0 && |q.slots| == q.size && Undone(q, i, Push(msg), 7)
  {
    Basics(q);
    ThreeUndone(q, i, Push(msg));
    PushChecks(q, i, msg);
    QuietIsExact(q);
    var p := Goto(q, i, PushClaim(msg, q.writeIndex));
    hide Inv, Step, Solo, Undone;
    FourUndone(p, i, msg);
    UndoneAdd(q, i, Push(msg), 3, 4);
  }

  lemma Rests<T>(p: Ring<T>, i: nat, call: Call<T>)
    requires Inv(p) && i < |p.threads| && Finished(p.threads[i])
    ensures p.size > 0 && |p.slots| == p.size
    ensures Step(p, i, call) == Goto(p, i, Idle) && Inv(Goto(p, i, Idle)) && Queue(Goto(p, i, Idle)) == Queue(p)
  {
    Basics(p);
    StepRefines(p, i, call);
    hide CountToIndex, Inv;
  }

  lemma PopWhole<T>(q: Ring<T>, i: nat)
    requires Inv(q) && AllIdle(q) && i < |q.threads| && |Queue(q)| > 0
    ensures q.size > 0 && |q.slots| == q.size && Undone(q, i, Pop, 6)
    ensures
      var p := Solo(q, i, Pop, 6);
      && p.threads == q.threads[i := PopDone(Some(Queue(q)[0]))] && p.size == q.size && |p.slots| == p.size
      && Step(p, i, Pop) == Popped(q, i)
    ensures
      var q' := Popped(q, i);
      Inv(q') && AllIdle(q') && q'.threads == q.threads && q'.size == q.size && Queue(q') == Queue(q)[1..]
  {
    hide Inv, Step, Solo, Queue, Undone, CountToIndex;
    Basics(q);
    SoloPop(q, i);
    PopWholeUndone(q, i);
    var p := Solo(q, i, Pop, 6);
    Rests(p, i, Pop);
    assert q.threads[i := p.threads[i]][i := Idle] == q.threads;
    UndoneAdd(q, i, Pop, 6, 0);
  }

  lemma PopWholeUndone<T>(q: Ring<T>, i: nat)
    requires Inv(q) && AllIdle(q) && i < |q.threads| && |Queue(q)| > 0
    ensures q.size > 0 && |q.slots| == q.size && Undone(q, i, Pop, 6)
  {
    Basics(q);
    ThreeUndone(q, i, Pop);
    PopChecks(q, i);
    var p := Goto(q, i, PopLoad(q.readIndex));
    hide Inv, Step, Solo, Undone;
    TakeUndone(p, i);
    UndoneAdd(q, i, Pop, 3, 3);
  }

  /** Nothing is found in an empty queue, and nothing is changed. */
  lemma PopNothing<T>(q: Ring<T>, i: nat)
    requires Inv(q) && AllIdle(q) && i < |q.threads| && Queue(q) == []
    ensures q.size > 0 && |q.slots| == q.size && Undone(q, i, Pop, 3)
    ensures
      var p := Solo(q, i, Pop, 3);
      p.threads == q.threads[i := PopDone(None)] && p.size == q.size && |p.slots| == p.size && Step(p, i, Pop) == q
  {
    hide Inv, Step, Solo, Queue, Undone, CountToIndex;
    Basics(q);
    SoloPop(q, i);
    ThreeUndone(q, i, Pop);
    Answered(q, i, PopDone(None), Pop);
  }

  lemma Answered<T>(q: Ring<T>, i: nat, pc: Pc<T>, call: Call<T>)
    requires i < |q.threads| && q.size > 0 && |q.slots| == q.size && q.threads[i].Idle? && Finished(pc)
    ensures Step(Goto(q, i, pc), i, call) == q
  {
    assert q.threads[i := pc][i := Idle] == q.threads;
  }

  // ----- steps of the pool -----

  ghost predicate Scheduled<M>(s: Sched<M>, turns: seq<Turn<M>>) { forall k :: 0 <= k < |turns| ==> turns[k].i < |s.workers| }

  /** Some schedule takes the pool from s to s'. */
  ghost predicate Leads<M(!new)>(s: Sched<M>, s': Sched<M>) {
    Good(s) && Good(s') && |s'.workers| == |s.workers| && exists turns :: Scheduled(s, turns) && RunAll(s, turns) == s'
  }

  lemma LeadsSelf<M(!new)>(s: Sched<M>)
    requires Good(s)
    ensures Leads(s, s)
  {
    assert Scheduled(s, []) && RunAll(s, []) == s;
  }

  /** One step, and then others. */
  lemma LeadsFirst<M(!new)>(s: Sched<M>, i: nat, sends: bool, ch: Choice<M>, s': Sched<M>)
    requires Good(s) && i < |s.workers| && Sizes(s) && Exists(s, i) && Leads(Next(s, i, sends, ch), s')
    ensures Leads(s, s')
  {
    hide Good, Sizes, Exists, Next;
    NextGood(s, i, sends, ch);
    SameThreads(s, i, sends, ch);
    var n := Next(s, i, sends, ch);
    var turns :| Scheduled(n, turns) && RunAll(n, turns) == s';
    var all := [Turn(i, sends, ch)] + turns;
    assert all[1..] == turns;
    assert Scheduled(s, all);
    assert RunAll(s, all) == s';
  }

  lemma LeadsOne<M(!new)>(s: Sched<M>, i: nat, sends: bool, ch: Choice<M>, s': Sched<M>)
    requires Good(s) && i < |s.workers| && Sizes(s) && Exists(s, i) && Next(s, i, sends, ch) == s'
    ensures Leads(s, s')
  {
    hide Good, Sizes, Exists, Next, Leads;
    NextGood(s, i, sends, ch);
    LeadsSelf(s');
    LeadsFirst(s, i, sends, ch, s');
  }

  lemma {:induction false} LeadsOn<M(!new)>(s: Sched<M>, turns: seq<Turn<M>>, s': Sched<M>)
    requires Good(s) && Scheduled(s, turns) && Leads(RunAll(s, turns), s')
    ensures Leads(s, s')
    decreases |turns|
  {
    hide Good, Sizes, Exists, Next, Leads;
    if |turns| > 0 {
      var t := turns[0];
      NextGood(s, t.i, t.sends, t.ch);
      SameThreads(s, t.i, t.sends, t.ch);
      LeadsOn(Next(s, t.i, t.sends, t.ch), turns[1..], s');
      LeadsFirst(s, t.i, t.sends, t.ch, s');
    }
  }

  lemma LeadsTrans<M(!new)>(s: Sched<M>, s1: Sched<M>, s2: Sched<M>)
    requires Leads(s, s1) && Leads(s1, s2)
    ensures Leads(s, s2)
  {
    hide Good, RunAll;
    var turns :| Scheduled(s, turns) && RunAll(s, turns) == s1;
    LeadsOn(s, turns, s2);
  }

  // ----- operations of the pool on one queue -----

  ghost predicate Usable<T>(q: Ring<T>, i: nat) { i < |q.threads| && q.size > 0 && |q.slots| == q.size }

  lemma PoolShape<M>(s: Sched<M>, i: nat)
    requires Good(s) && i < |s.workers|
    ensures Sizes(s) && Exists(s, i) && |s.senders| == |s.workers| && |s.mail| == |s.inGlobal| == |s.handled| && Usable(s.queue, i)
    ensures Inv(s.queue) && forall c: nat :: c < |s.mail| ==> Inv(s.mail[c]) && Usable(s.mail[c], i)
  {
    QueueUseOf(s, i);
    Basics(s.queue);
    forall c: nat | c < |s.mail| ensures Inv(s.mail[c]) && Usable(s.mail[c], i) { Basics(s.mail[c]); }
    hide Inv;
  }

  /** A sender puts its message into a mailbox. */
  lemma {:induction false} MailingSolo<M(!new)>(s: Sched<M>, i: nat, c: nat, msg: M, n: nat)
    requires Good(s) && i < |s.workers| == |s.senders| && c < |s.mail| && Usable(s.mail[c], i)
    requires s.workers[i].Outside? && s.senders[i] == Mailing(c, msg) && Undone(s.mail[c], i, Push(msg), n)
    ensures Leads(s, s.(mail := s.mail[c := Solo(s.mail[c], i, Push(msg), n)]))
    decreases n
  {
    hide Good, Leads, Step, Exists, Sizes;
    PoolShape(s, i);
    if n == 0 {
      assert s.(mail := s.mail[c := s.mail[c]]) == s;
      LeadsSelf(s);
    } else {
      NextGood(s, i, true, Work(true));
      var q := Step(s.mail[c], i, Push(msg));
      var s1 := s.(mail := s.mail[c := q]);
      assert Next(s, i, true, Work(true)) == s1;
      MailingSolo(s1, i, c, msg, n - 1);
      assert s.mail[c := q][c := Solo(q, i, Push(msg), n - 1)] == s.mail[c := Solo(s.mail[c], i, Push(msg), n)];
      LeadsFirst(s, i, true, Work(true), s.(mail := s.mail[c := Solo(s.mail[c], i, Push(msg), n)]));
    }
  }

  /** A sender puts a context into the run queue. */
  lemma {:induction false} EnqueueingSolo<M(!new)>(s: Sched<M>, i: nat, c: nat, n: nat)
    requires Good(s) && i < |s.workers| == |s.senders| && Usable(s.queue, i)
    requires s.workers[i].Outside? && s.senders[i] == Enqueueing(c) && Undone(s.queue, i, Push(c), n)
    ensures Leads(s, s.(queue := Solo(s.queue, i, Push(c), n)))
    decreases n
  {
    hide Good, Leads, Step, Exists, Sizes;
    PoolShape(s, i);
    if n == 0 { LeadsSelf(s); }
    else {
      NextGood(s, i, true, Work(true));
      var s1 := s.(queue := Step(s.queue, i, Push(c)));
      assert Next(s, i, true, Work(true)) == s1;
      EnqueueingSolo(s1, i, c, n - 1);
      LeadsFirst(s, i, true, Work(true), s.(queue := Solo(s.queue, i, Push(c), n)));
    }
  }

  /** A worker takes a context out of the run queue. */
  lemma {:induction false} PoppingSolo<M(!new)>(s: Sched<M>, j: nat, n: nat)
    requires Good(s) && j < |s.workers| && Usable(s.queue, j) && s.workers[j].Popping? && Undone(s.queue, j, Pop, n)
    ensures Leads(s, s.(queue := Solo(s.queue, j, Pop, n)))
    decreases n
  {
    hide Good, Leads, Step, Exists, Sizes;
    PoolShape(s, j);
    if n == 0 { LeadsSelf(s); }
    else {
      NextGood(s, j, false, Work(true));
      var s1 := s.(queue := Step(s.queue, j, Pop));
      assert Next(s, j, false, Work(true)) == s1;
      PoppingSolo(s1, j, n - 1);
      LeadsFirst(s, j, false, Work(true), s.(queue := Solo(s.queue, j, Pop, n)));
    }
  }

  /** A worker takes a message out of the mailbox of its context. */
  lemma {:induction false} DispatchingSolo<M(!new)>(s: Sched<M>, j: nat, c: nat, n: nat)
    requires Good(s) && j < |s.workers| && c < |s.mail| && Usable(s.mail[c], j)
    requires s.workers[j] == Dispatching(c) && Undone(s.mail[c], j, Pop, n)
    ensures Leads(s, s.(mail := s.mail[c := Solo(s.mail[c], j, Pop, n)]))
    decreases n
  {
    hide Good, Leads, Step, Exists, Sizes;
    PoolShape(s, j);
    if n == 0 {
      assert s.(mail := s.mail[c := s.mail[c]]) == s;
      LeadsSelf(s);
    } else {
      NextGood(s, j, false, Work(true));
      var q := Step(s.mail[c], j, Pop);
      var s1 := s.(mail := s.mail[c := q]);
      assert Next(s, j, false, Work(true)) == s1;
      DispatchingSolo(s1, j, c, n - 1);
      assert s.mail[c := q][c := Solo(q, j, Pop, n - 1)] == s.mail[c := Solo(s.mail[c], j, Pop, n)];
      LeadsFirst(s, j, false, Work(true), s.(mail := s.mail[c := Solo(s.mail[c], j, Pop, n)]));
    }
  }
}
