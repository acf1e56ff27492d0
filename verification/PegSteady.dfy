/** A condition on a program under which peephole as written does what is meant: no jump that leads to a
    commit stands behind an offset or a buffer. */
module PegSteady {
  import opened PegTree
  import opened PegMachine
  import opened PegCode
  import opened PegClose
  import opened PegThread
  import opened PegPass

  ghost predicate LeadsToCommit(c: seq<Slot>, i: int) { exists op :: Commits(op) && EndsAt(c, i, op) }

  ghost predicate Clear(c: seq<Slot>) {
    forall i :: IsOp(c, i, IJmp) && LeadsToCommit(c, i) ==> i > 0 && c[i - 1].Inst?
  }

  predicate Labelled(op: Opcode) { HasLabel(op) || op == IJmp }

  /** What the pass leaves of the program it began with. */
  ghost predicate Kept(c0: seq<Slot>, c: seq<Slot>) {
    && |c| == |c0|
    && (forall k :: 0 <= k < |c| && c[k].Inst? && Labelled(c[k].op) ==>
                      c0[k].Inst? && Labelled(c0[k].op) && (c[k].op == IJmp ==> c0[k].op == IJmp))
    && (forall k :: 0 <= k < |c| && c0[k].Inst? && SizeI(c0[k].op) == 1 ==> c[k] == c0[k])
    && (forall k, op :: EndsAt(c0, k, op) ==> EndsAt(c, k, op))
  }

  lemma RewritingKeepsOp(c: seq<Slot>, d: seq<Slot>, i: int, ft: int, x: int, op: Opcode)
    requires Rewrites(c, d, i, ft) && EndsAt(c, x, op)
    ensures EndsAt(d, x, op)
  {
    var j :| JumpsTo(c, x, j) && Stops(c, j) && c[j].op == op;
    var n: nat :| JumpsIn(c, x, j, n);
    RewritingKeepsEnd(c, d, i, ft, x, j, n);
  }

  /** What is rewritten. */
  lemma RewritesLabel(c: seq<Slot>, d: seq<Slot>, i: int, ft: int)
    requires Rewrites(c, d, i, ft)
    ensures |d| == |c| && 0 <= i && i + 1 < |c| && c[i].Inst? && Labelled(c[i].op) && d[i].Inst?
    ensures d[i].op == IJmp ==> c[i].op == IJmp
    ensures d[i + 1].Off? || d[i + 1] == Inst(IAny, 0)
    ensures forall k :: 0 <= k < |c| && k != i && k != i + 1 ==> d[k] == c[k]
  {
  }

  lemma LabelledSize(op: Opcode)
    ensures Labelled(op) ==> SizeI(op) >= 2
  {
  }

  lemma KeptOn(c0: seq<Slot>, c: seq<Slot>, d: seq<Slot>, i: int, ft: int)
    requires Aligned(c0) && Kept(c0, c) && Rewrites(c, d, i, ft)
    ensures Kept(c0, d)
  {
    RewritesLabel(c, d, i, ft);
    forall k, op | EndsAt(c0, k, op) ensures EndsAt(d, k, op) { RewritingKeepsOp(c, d, i, ft, k, op); }
    hide EndsAt, Rewrites, SizeI;
    LabelledSize(c0[i].op);
    assert AlignedAt(c0, i);
  }

  // ----- the pass that is meant -----

  /** Where the intended pass goes from a place that it reaches. */
  ghost predicate Goes(c0: seq<Slot>, c: seq<Slot>, i: nat, p: Pass) {
    p.At? && Threading(c0, p.code, p.i) && (p.code == c || exists ft :: Rewrites(c, p.code, i, ft))
  }

  lemma GoesLabel(c0: seq<Slot>, c: seq<Slot>, i: nat)
    requires Threading(c0, c, i) && i < |c| && c[i].Inst? && HasLabel(c[i].op)
    ensures Goes(c0, c, i, PassStep(false, At(c, i)))
  {
    ThreadingAt(c0, c, i);
    var ft :| JumpsTo(c, Target(c, i), ft) && Stops(c, ft);
    GoesTo(c0, c, i, ft);
  }

  lemma GoesTo(c0: seq<Slot>, c: seq<Slot>, i: nat, ft: int)
    requires Threading(c0, c, i) && i + 1 < |c| && c[i].Inst? && HasLabel(c[i].op) && HasOff(c, i)
    requires JumpsTo(c, Target(c, i), ft) && Stops(c, ft)
    ensures Goes(c0, c, i, PassStep(false, At(c, i)))
  {
    hide Threading, JumpsTo, Copies, Done, Stops, PassStep, SizeI;
    LabelMoved(c0, c, i, ft);
    Relabelled(c, i, ft);
    PassesLabel(false, c, i, ft);
    assert Rewrites(c, c[i + 1 := Off(ft - i)], i, ft);
  }

  lemma GoesJump(c0: seq<Slot>, c: seq<Slot>, i: nat)
    requires Threading(c0, c, i) && i < |c| && IsOp(c, i, IJmp)
    ensures Goes(c0, c, i, PassStep(false, At(c, i)))
  {
    ThreadingAt(c0, c, i);
    var ft :| JumpsTo(c, i, ft) && Stops(c, ft);
    if Leaves(c[ft].op) { GoesLeave(c0, c, i, ft); }
    else if Commits(c[ft].op) { GoesCommit(c0, c, i, ft); }
    else { GoesFurther(c0, c, i, ft); }
  }

  lemma GoesLeave(c0: seq<Slot>, c: seq<Slot>, i: nat, ft: int)
    requires Threading(c0, c, i) && IsOp(c, i, IJmp) && HasOff(c, i) && JumpsTo(c, i, ft) && Stops(c, ft) && Leaves(c[ft].op)
    ensures Goes(c0, c, i, PassStep(false, At(c, i)))
  {
    hide Threading, JumpsTo, Relabels, Copies, PassStep, SizeI;
    LeaveCopied(c0, c, i, ft);
    CopyIs(c, i, ft, Inst(IAny, 0));
    PassesLeave(false, c, i, ft);
    assert Rewrites(c, c[i := c[ft]][i + 1 := Inst(IAny, 0)], i, ft);
  }

  lemma GoesCommit(c0: seq<Slot>, c: seq<Slot>, i: nat, ft: int)
    requires Threading(c0, c, i) && IsOp(c, i, IJmp) && HasOff(c, i) && JumpsTo(c, i, ft) && Stops(c, ft) && Commits(c[ft].op)
    ensures Goes(c0, c, i, PassStep(false, At(c, i)))
  {
    CommitLabel(c0, c, i, ft);
    var fft :| JumpsTo(c, Target(c, ft), fft) && Stops(c, fft);
    GoesBack(c0, c, i, ft, fft);
  }

  lemma GoesBack(c0: seq<Slot>, c: seq<Slot>, i: nat, ft: int, fft: int)
    requires Threading(c0, c, i) && IsOp(c, i, IJmp) && HasOff(c, i) && JumpsTo(c, i, ft) && Stops(c, ft) && Commits(c[ft].op)
    requires HasOff(c, ft) && JumpsTo(c, Target(c, ft), fft) && Stops(c, fft)
    ensures Goes(c0, c, i, PassStep(false, At(c, i)))
  {
    hide Threading, JumpsTo, Relabels, Copies, PassStep, SizeI;
    CommitCopied(c0, c, i, ft, fft);
    assert i + (fft - i) == fft;
    CopyIs(c, i, ft, Off(fft - i));
    PassesCommit(false, c, i, ft, fft);
    assert Rewrites(c, c[i := c[ft]][i + 1 := Off(fft - i)], i, ft);
  }

  lemma GoesFurther(c0: seq<Slot>, c: seq<Slot>, i: nat, ft: int)
    requires Threading(c0, c, i) && IsOp(c, i, IJmp) && HasOff(c, i) && JumpsTo(c, i, ft) && Stops(c, ft)
    requires !Leaves(c[ft].op) && !Commits(c[ft].op)
    ensures Goes(c0, c, i, PassStep(false, At(c, i)))
  {
    hide Threading, JumpsTo, Relabels, Copies, Done, PassStep, SizeI, Leaves, Commits, Stops;
    JumpMoved(c0, c, i, ft);
    FurtherRelabels(c, i, ft);
    PassesJump(false, c, i, ft);
    assert Rewrites(c, c[i + 1 := Off(ft - i)], i, ft);
    assert c[i + 1 := Off(ft - i)][i] == c[i];
  }

  lemma FurtherRelabels(c: seq<Slot>, i: nat, ft: int)
    requires IsOp(c, i, IJmp) && HasOff(c, i) && JumpsTo(c, i, ft) && Stops(c, ft)
    requires !Leaves(c[ft].op) && !Commits(c[ft].op)
    ensures Relabels(c, c[i + 1 := Off(ft - i)], i)
  {
    JumpOn(c, i, ft);
    hide JumpsTo, Done, Relabels;
    Relabelled(c, i, ft);
  }

  lemma GoesOn(c0: seq<Slot>, c: seq<Slot>, i: nat)
    requires Threading(c0, c, i)
    ensures Goes(c0, c, i, PassStep(false, At(c, i)))
  {
    hide Rewrites, PassStep, HasLabel, SizeI;
    if i >= |c| { PassEnded(c, i); }
    else {
      ThreadingAt(c0, c, i);
      hide Threading;
      if HasLabel(c[i].op) { GoesLabel(c0, c, i); }
      else if c[i].op == IJmp { GoesJump(c0, c, i); }
      else { NothingToDo(c0, c, i); PassesOther(false, c, i); }
    }
  }

  lemma PassEnded(c: seq<Slot>, i: nat)
    requires i >= |c|
    ensures PassStep(false, At(c, i)) == At(c, i)
  {
  }

  lemma {:induction false} RunThreads(c: seq<Slot>, n: nat)
    requires LabelsEnd(c) && Aligned(c)
    ensures var p := PassRun(false, c, n); p.At? && Threading(c, p.code, p.i) && Kept(c, p.code)
  {
    hide Threading, Rewrites, PassStep, LabelsEnd, Aligned, EndsAt;
    if n == 0 { ThreadingStarts(c); }
    else {
      RunThreads(c, n - 1);
      var p, q := PassRun(false, c, n - 1), PassRun(false, c, n);
      GoesOn(c, p.code, p.i);
      hide Kept;
      if q.code != p.code {
        var ft :| Rewrites(p.code, q.code, p.i, ft);
        KeptOn(c, p.code, q.code, p.i, ft);
      }
    }
  }

  // ----- the pass that is written -----

  lemma SmallBefore(c: seq<Slot>, i: int)
    requires Aligned(c) && 0 < i < |c| && c[i].Inst? && c[i - 1].Inst?
    ensures SizeI(c[i - 1].op) == 1
  {
    assert AlignedAt(c, i - 1);
  }

  lemma LeadsToFinal(c: seq<Slot>, i: int, op: Opcode)
    requires EndsAt(c, i, op) && Final(c, i).Lands?
    ensures var j := Final(c, i).j; 0 <= j < |c| && RawOp(c[j]) == op
  {
    var j :| JumpsTo(c, i, j) && Stops(c, j) && c[j].op == op;
    FinalIs(c, i, j);
  }

  lemma TurnedIsJump(c0: seq<Slot>, c: seq<Slot>, i: nat)
    requires Threading(c0, c, i) && i < |c| && TurnsCommit(c, i)
    ensures IsOp(c, i, IJmp) && Final(c, i).Lands? && 0 <= Final(c, i).j < |c| && Commits(RawOp(c[Final(c, i).j]))
  {
  }

  lemma ClearBack(c0: seq<Slot>, c: seq<Slot>, i: nat)
    requires LabelsEnd(c0) && Aligned(c0) && Clear(c0) && Threading(c0, c, i) && Kept(c0, c)
    ensures StepsBack(At(c, i))
  {
    if i < |c| && TurnsCommit(c, i) {
      TurnedIsJump(c0, c, i);
      hide Threading, Aligned, SizeI, HasLabel, Final, TurnsCommit;
      JumpEnds(c0, i);
      var j :| JumpsTo(c0, i, j) && Stops(c0, j);
      assert EndsAt(c0, i, c0[j].op);
      hide EndsAt, LabelsEnd;
      LeadsToFinal(c, i, c0[j].op);
      assert LeadsToCommit(c0, i);
      SmallBefore(c0, i);
    }
  }

  /** If no jump that leads to a commit stands behind an offset or a buffer, the pass as written goes the
      way of the pass that is meant. */
  lemma ClearIsSame(c: seq<Slot>)
    requires LabelsEnd(c) && Aligned(c) && Clear(c)
    ensures SamePasses(c)
  {
    forall n: nat ensures StepsBack(PassRun(false, c, n)) {
      RunThreads(c, n);
      var p := PassRun(false, c, n);
      ClearBack(c, p.code, p.i);
    }
    SamePass(c);
  }
}
