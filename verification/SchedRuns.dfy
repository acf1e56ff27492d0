/** Runs of the pool: what becomes of the right to run a context, and what one message goes through. */
module SchedRuns {
  import opened Wrappers
  import opened Ring
  import opened Scheduler
  import opened SchedTokens

  // ----- all runs -----

  /** How often in a run the run queue answers that it is full to a push of c. */
  ghost function Refusals<M>(s: Sched<M>, turns: seq<Turn<M>>, c: nat): nat
    requires Good(s) && forall k :: 0 <= k < |turns| ==> turns[k].i < |s.workers|
    decreases |turns|
  {
    if |turns| == 0 then 0
    else
      var t := turns[0];
      NextGood(s, t.i, t.sends, t.ch);
      SameThreads(s, t.i, t.sends, t.ch);
      var s' := Next(s, t.i, t.sends, t.ch);
      One(Refused(s.queue.threads[t.i], s'.queue.threads[t.i], c)) + Refusals(s', turns[1..], c)
  }

  /** In every run the tokens of a context are as many as its inGlobal says, less one for each refusal. */
  lemma {:induction false} RunBalance<M>(s: Sched<M>, turns: seq<Turn<M>>, c: nat)
    requires Good(s) && c < |s.inGlobal| && forall k :: 0 <= k < |turns| ==> turns[k].i < |s.workers|
    ensures
      var s' := RunAll(s, turns);
      && Sizes(s') && |s'.inGlobal| == |s.inGlobal|
      && Balance(s', c) == Balance(s, c) - Refusals(s, turns, c)
    decreases |turns|
  {
    hide Good, Sizes, Next, Balance;
    GoodSizes(s);
    if |turns| > 0 {
      var t := turns[0];
      NextGood(s, t.i, t.sends, t.ch);
      SameThreads(s, t.i, t.sends, t.ch);
      Conserves(s, t.i, t.sends, t.ch, c);
      RunBalance(Next(s, t.i, t.sends, t.ch), turns[1..], c);
    }
  }

  lemma StartBalance<M>(s: Sched<M>, c: nat)
    requires Start(s) && c < |s.inGlobal|
    ensures Good(s) && Sizes(s) && Balance(s, c) == 0
  {
    StartGood(s);
    NothingHeld(s, c, |s.workers|);
    assert Queue(s.queue) == [];
  }

  lemma BalanceBounds<M>(s: Sched<M>, c: nat)
    requires Good(s) && c < |s.inGlobal|
    ensures Sizes(s) && 0 <= s.inGlobal[c] <= 1 && 0 <= Tokens(s, c) <= s.inGlobal[c] && -1 <= Balance(s, c) <= 0
  {
    hide Queue;
  }

  /** In each run of a pool a context is refused at most once.  If it is not, its inGlobal is set exactly while there is one
      token of it; once it has been refused, its inGlobal stays set and there is no token of it any more. */
  lemma TokensAreExact<M>(s: Sched<M>, turns: seq<Turn<M>>, c: nat)
    requires Start(s) && c < |s.inGlobal| && forall k :: 0 <= k < |turns| ==> turns[k].i < |s.workers|
    ensures Good(s)
    ensures
      var s' := RunAll(s, turns);
      && Sizes(s') && |s'.inGlobal| == |s.inGlobal| && Refusals(s, turns, c) <= 1
      && (if Refusals(s, turns, c) == 0 then Tokens(s', c) == s'.inGlobal[c] else Tokens(s', c) == 0 && s'.inGlobal[c] == 1)
  {
    StartBalance(s, c);
    RunBalance(s, turns, c);
    BalanceBounds(RunAll(s, turns), c);
    hide Good, Start, Sizes, Tokens, Refusals;
  }

  /** A context that has been refused is never run again, whatever is sent to it. */
  lemma RefusedIsLost<M>(s: Sched<M>, turns: seq<Turn<M>>, c: nat, i: nat)
    requires Start(s) && c < |s.inGlobal| && forall k :: 0 <= k < |turns| ==> turns[k].i < |s.workers|
    requires Good(s) && Refusals(s, turns, c) > 0 && i < |s.workers|
    ensures var s' := RunAll(s, turns); i < |s'.workers| && !Runs(s'.workers[i], c)
  {
    TokensAreExact(s, turns, c);
    var s' := RunAll(s, turns);
    RunThreads(s, turns);
    RunnerHolds(s', c, i);
    hide Good, Start, Tokens, Refusals;
  }

  lemma RunnerHolds<M>(s: Sched<M>, c: nat, i: nat)
    requires Good(s) && c < |s.inGlobal| && i < |s.workers| && Tokens(s, c) == 0
    ensures !Runs(s.workers[i], c)
  {
    HeldAtLeast(s.workers, s.senders, s.queue.threads, c, |s.workers|, i);
    hide Queue, Inv;
  }

  lemma {:induction false} RunThreads<M>(s: Sched<M>, turns: seq<Turn<M>>)
    requires Good(s) && forall k :: 0 <= k < |turns| ==> turns[k].i < |s.workers|
    ensures |RunAll(s, turns).workers| == |s.workers|
    decreases |turns|
  {
    hide Good, Next;
    if |turns| > 0 {
      var t := turns[0];
      NextGood(s, t.i, t.sends, t.ch);
      SameThreads(s, t.i, t.sends, t.ch);
      RunThreads(Next(s, t.i, t.sends, t.ch), turns[1..]);
    }
  }
}
