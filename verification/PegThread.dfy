/** The rewritings of peephole: labels that lead to jumps are moved to where the jumps end, and a jump to
    an instruction that never continues behind itself becomes that instruction.  Each rewriting keeps
    every result of the program. */
module PegThread {
  import opened PegTree
  import opened PegMachine
  import opened PegCode
  import opened PegClose

  predicate HasLabel(op: Opcode) {
    op in {IChoice, ICall, ICommit, IPartialCommit, IBackCommit, ITestChar, ITestSet, ITestAny}
  }

  /** Instructions with an unconditional implicit jump. */
  predicate Leaves(op: Opcode) { op in {IRet, IFail, IFailTwice, IEnd} }

  /** Instructions with an unconditional explicit jump. */
  predicate Commits(op: Opcode) { op in {ICommit, IPartialCommit, IBackCommit} }

  /** The label of i is moved along jumps. */
  ghost predicate Relabels(c: seq<Slot>, d: seq<Slot>, i: int) {
    && 0 <= i && i + 1 < |c| && c[i].Inst? && (HasLabel(c[i].op) || c[i].op == IJmp) && HasOff(c, i)
    && exists o: int :: d == c[i + 1 := Off(o)] && JumpsTo(c, Target(c, i), i + o)
  }

  /** The jump at i becomes the instruction at ft, where it ends up. */
  ghost predicate Copies(c: seq<Slot>, d: seq<Slot>, i: int, ft: int) {
    && 0 <= i && i + 1 < |c| && IsOp(c, i, IJmp) && HasOff(c, i) && JumpsTo(c, i, ft)
    && 0 <= ft < |c| && c[ft].Inst?
    && ((Leaves(c[ft].op) && d == c[i := c[ft]][i + 1 := Inst(IAny, 0)]) ||
        (Commits(c[ft].op) && HasOff(c, ft) &&
         exists o: int :: d == c[i := c[ft]][i + 1 := Off(o)] && JumpsTo(c, Target(c, ft), i + o)))
  }

  ghost predicate Rewrites(c: seq<Slot>, d: seq<Slot>, i: int, ft: int) {
    Relabels(c, d, i) || Copies(c, d, i, ft)
  }

  // ----- a run of the one program seen in the other -----

  ghost predicate Threaded(c: seq<Slot>, x: Stk, y: Stk)
    decreases x
  {
    match x
    case Empty => y == Empty
    case Choice(pc, pos, below) => y.Choice? && JumpsTo(c, pc, y.pc) && y.pos == pos && Threaded(c, below, y.below)
    case Ret(pc, below) => y.Ret? && JumpsTo(c, pc, y.pc) && Threaded(c, below, y.below)
  }

  /** b is where d is when c is in a: further along the jumps, or at the copy of the instruction at ft to
      which a leads. */
  ghost predicate Ahead(c: seq<Slot>, d: seq<Slot>, i: int, ft: int, a: State, b: State) {
    match a
    case Run(p, pos, x) =>
      b.Run? && b.pos == pos && Threaded(c, x, b.stk) &&
      (JumpsTo(c, p, b.pc) || (Copies(c, d, i, ft) && b.pc == i && JumpsTo(c, p, ft)))
    case _ => b == a
  }

  lemma JumpsToSelf(c: seq<Slot>, i: int)
    ensures JumpsTo(c, i, i)
  {
    assert JumpsIn(c, i, i, 0);
  }

  /** One jump further, or there already. */
  lemma JumpOn(c: seq<Slot>, p: int, q: int)
    requires JumpsTo(c, p, q)
    ensures p == q || (IsOp(c, p, IJmp) && HasOff(c, p) && JumpsTo(c, Target(c, p), q))
  {
    var n: nat :| JumpsIn(c, p, q, n);
    if n > 0 { assert JumpsIn(c, Target(c, p), q, n - 1); }
  }

  lemma {:induction false} BacktrackAhead(c: seq<Slot>, d: seq<Slot>, i: int, ft: int, x: Stk, y: Stk)
    requires Threaded(c, x, y)
    ensures Ahead(c, d, i, ft, Backtrack(x), Backtrack(y))
    decreases x
  {
    match x
    case Ret(_, below) => BacktrackAhead(c, d, i, ft, below, y.below);
    case _ =>
  }

  /** The rewritings touch an instruction and its offset only. */
  ghost predicate SameElsewhere(c: seq<Slot>, d: seq<Slot>, i: int) {
    && |d| == |c| && 0 <= i && i + 1 < |c| && c[i].Inst? && d[i].Inst? && c[i + 1].Off? && !d[i + 1].Buf?
    && forall k :: 0 <= k < |c| && k != i && k != i + 1 ==> d[k] == c[k]
  }

  lemma RewritesSame(c: seq<Slot>, d: seq<Slot>, i: int, ft: int)
    requires Rewrites(c, d, i, ft)
    ensures SameElsewhere(c, d, i)
    ensures d[i + 1].Off? || d[i + 1] == Inst(IAny, 0)
  {
  }

  lemma SameBuffers(c: seq<Slot>, d: seq<Slot>, i: int, p: int, b: Byte)
    requires SameElsewhere(c, d, i)
    ensures InBuffer(d, p, b) == InBuffer(c, p, b)
  {
  }

  lemma {:induction false} SameSpans(c: seq<Slot>, d: seq<Slot>, i: int, p: int, s: seq<Byte>, pos: nat)
    requires SameElsewhere(c, d, i)
    ensures SpanEnd(d, p, s, pos) == SpanEnd(c, p, s, pos)
    decreases |s| - pos
  {
    if pos < |s| {
      SameBuffers(c, d, i, p, s[pos]);
      SameSpans(c, d, i, p, s, pos + 1);
    }
  }

  lemma SameOffset(c: seq<Slot>, d: seq<Slot>, i: int, p: int)
    requires SameElsewhere(c, d, i) && p != i
    ensures HasOff(c, p) && c[p].Inst? ==> HasOff(d, p) && Target(d, p) == Target(c, p)
  {
  }

  /** Away from the rewritten instruction, both programs do the same. */
  lemma StepElsewhere(c: seq<Slot>, d: seq<Slot>, s: seq<Byte>, i: int, ft: int, a: State, b: State)
    requires SameElsewhere(c, d, i) && a.Run? && b.Run? && b.pos == a.pos && Threaded(c, a.stk, b.stk)
    requires b.pc == a.pc != i && Step(c, s, a) != Stuck
    ensures Ahead(c, d, i, ft, Step(c, s, a), Step(d, s, b))
  {
    var p := a.pc;
    if p == GIVEUP { return; }
    if c[p].Inst? && (HasLabel(c[p].op) || c[p].op == IJmp) { StepElsewhereLabel(c, d, s, i, ft, a, b); }
    else { StepElsewherePlain(c, d, s, i, ft, a, b); }
  }

  lemma StepElsewhereLabel(c: seq<Slot>, d: seq<Slot>, s: seq<Byte>, i: int, ft: int, a: State, b: State)
    requires SameElsewhere(c, d, i) && a.Run? && b.Run? && b.pos == a.pos && Threaded(c, a.stk, b.stk)
    requires b.pc == a.pc != i && Step(c, s, a) != Stuck
    requires 0 <= a.pc < |c| && c[a.pc].Inst? && (HasLabel(c[a.pc].op) || c[a.pc].op == IJmp)
    ensures Ahead(c, d, i, ft, Step(c, s, a), Step(d, s, b))
  {
    hide SpanEnd, InBuffer, JumpsTo, HasOff, Target, Copies;
    if a.pos < |s| { SameBuffers(c, d, i, a.pc + 2, s[a.pos]); }
    SameOffset(c, d, i, a.pc);
    forall q ensures JumpsTo(c, q, q) { JumpsToSelf(c, q); }
  }

  lemma StepElsewherePlain(c: seq<Slot>, d: seq<Slot>, s: seq<Byte>, i: int, ft: int, a: State, b: State)
    requires SameElsewhere(c, d, i) && a.Run? && b.Run? && b.pos == a.pos && Threaded(c, a.stk, b.stk)
    requires b.pc == a.pc != i && Step(c, s, a) != Stuck
    requires 0 <= a.pc < |c| && c[a.pc].Inst? && !HasLabel(c[a.pc].op) && c[a.pc].op != IJmp
    ensures Ahead(c, d, i, ft, Step(c, s, a), Step(d, s, b))
  {
    hide SpanEnd, InBuffer, JumpsTo, HasOff, Target, Copies;
    BacktrackAhead(c, d, i, ft, a.stk, b.stk);
    if a.stk.Choice? { BacktrackAhead(c, d, i, ft, a.stk.below, b.stk.below); }
    if a.pos < |s| { SameBuffers(c, d, i, a.pc + 1, s[a.pos]); }
    SameSpans(c, d, i, a.pc + 1, s, a.pos);
    forall q ensures JumpsTo(c, q, q) { JumpsToSelf(c, q); }
  }

  /** The instruction with the moved label. */
  lemma StepRelabelled(c: seq<Slot>, d: seq<Slot>, s: seq<Byte>, i: int, ft: int, a: State, b: State)
    requires Relabels(c, d, i) && a.Run? && b.Run? && b.pos == a.pos && Threaded(c, a.stk, b.stk)
    requires b.pc == a.pc == i && Step(c, s, a) != Stuck
    ensures Ahead(c, d, i, ft, Step(c, s, a), Step(d, s, b))
  {
    hide SpanEnd, JumpsTo;
    RewritesSame(c, d, i, ft);
    if a.pos < |s| { SameBuffers(c, d, i, i + 2, s[a.pos]); }
    forall q ensures JumpsTo(c, q, q) { JumpsToSelf(c, q); }
  }

  /** The copied instruction, run in both programs at its own place. */
  lemma StepCopied(c: seq<Slot>, d: seq<Slot>, s: seq<Byte>, i: int, ft: int, a: State, b: State)
    requires Copies(c, d, i, ft) && a.Run? && b.Run? && b.pos == a.pos && Threaded(c, a.stk, b.stk)
    requires a.pc == ft && b.pc == i && Step(c, s, a) != Stuck
    ensures Ahead(c, d, i, ft, Step(c, s, a), Step(d, s, b))
  {
    hide SpanEnd, JumpsTo;
    BacktrackAhead(c, d, i, ft, a.stk, b.stk);
    if a.stk.Choice? { BacktrackAhead(c, d, i, ft, a.stk.below, b.stk.below); }
    forall q ensures JumpsTo(c, q, q) { JumpsToSelf(c, q); }
  }

  lemma StepAhead(c: seq<Slot>, d: seq<Slot>, s: seq<Byte>, i: int, ft: int, a: State, b: State)
    requires Rewrites(c, d, i, ft) && Ahead(c, d, i, ft, a, b) && a.Run?
    requires Step(c, s, a) != Stuck
    ensures Ahead(c, d, i, ft, Step(c, s, a), Step(d, s, b)) || Ahead(c, d, i, ft, Step(c, s, a), b)
  {
    RewritesSame(c, d, i, ft);
    if JumpsTo(c, a.pc, b.pc) {
      JumpOn(c, a.pc, b.pc);
      if a.pc == b.pc {
        if a.pc != i { StepElsewhere(c, d, s, i, ft, a, b); }
        else if Relabels(c, d, i) { StepRelabelled(c, d, s, i, ft, a, b); }
        else { JumpOn(c, i, ft); }
      }
    } else {
      JumpOn(c, a.pc, ft);
      if a.pc == ft { StepCopied(c, d, s, i, ft, a, b); }
    }
  }

  lemma {:induction false} RunAhead(c: seq<Slot>, d: seq<Slot>, s: seq<Byte>, i: int, ft: int, a: State, b: State,
                                    n: nat, r: State)
    requires Rewrites(c, d, i, ft) && Ahead(c, d, i, ft, a, b)
    requires Steps(c, s, a, n) == r && Halted(r) && r != Stuck
    ensures Reaches(d, s, b, r)
    decreases n
  {
    if n == 0 || !a.Run? {
      if n > 0 { HaltedStays(c, s, a, n); }
      Stay(d, s, b);
    } else {
      var a' := Step(c, s, a);
      if a' == Stuck { HaltedStays(c, s, a', n - 1); }
      StepAhead(c, d, s, i, ft, a, b);
      if Ahead(c, d, i, ft, a', b) {
        RunAhead(c, d, s, i, ft, a', b, n - 1, r);
      } else {
        RunAhead(c, d, s, i, ft, a', Step(d, s, b), n - 1, r);
        One(d, s, b);
        Trans(d, s, b, Step(d, s, b), r);
      }
    }
  }

  /** Every result of c is a result of d. */
  ghost predicate Keeps(c: seq<Slot>, d: seq<Slot>) {
    forall s: seq<Byte>, init: nat, r: State ::
      Reaches(c, s, Start(init), r) && Halted(r) && r != Stuck ==> Reaches(d, s, Start(init), r)
  }

  /** A rewriting keeps every result. */
  lemma RewritingKeeps(c: seq<Slot>, d: seq<Slot>, i: int, ft: int)
    requires Rewrites(c, d, i, ft)
    ensures Keeps(c, d)
  {
    forall s: seq<Byte>, init: nat, r: State | Reaches(c, s, Start(init), r) && Halted(r) && r != Stuck
      ensures Reaches(d, s, Start(init), r)
    {
      var n: nat :| Steps(c, s, Start(init), n) == r;
      JumpsToSelf(c, 0);
      JumpsToSelf(c, GIVEUP);
      RunAhead(c, d, s, i, ft, Start(init), Start(init), n, r);
    }
  }

  // ----- jumps end -----

  ghost predicate Stops(c: seq<Slot>, j: int) { 0 <= j < |c| && c[j].Inst? && c[j].op != IJmp }

  /** The jumps starting at i end at an instruction that is no jump. */
  ghost predicate Ends(c: seq<Slot>, i: int) { exists j :: JumpsTo(c, i, j) && Stops(c, j) }

  /** ... which is an op. */
  ghost predicate EndsAt(c: seq<Slot>, i: int, op: Opcode) {
    exists j :: JumpsTo(c, i, j) && Stops(c, j) && c[j].op == op
  }

  /** All labels lead to an instruction. */
  ghost predicate LabelsEnd(c: seq<Slot>) {
    forall k :: 0 <= k < |c| && c[k].Inst? && (HasLabel(c[k].op) || c[k].op == IJmp) ==>
                  HasOff(c, k) && Ends(c, Target(c, k))
  }

  lemma {:induction false} JumpsCompose(c: seq<Slot>, x: int, y: int, z: int, n: nat, m: nat)
    requires JumpsIn(c, x, y, n) && JumpsIn(c, y, z, m)
    ensures JumpsIn(c, x, z, n + m)
    decreases n
  {
    if n > 0 { JumpsCompose(c, Target(c, x), y, z, n - 1, m); }
  }

  lemma JumpsTrans(c: seq<Slot>, x: int, y: int, z: int)
    requires JumpsTo(c, x, y) && JumpsTo(c, y, z)
    ensures JumpsTo(c, x, z)
  {
    var n: nat :| JumpsIn(c, x, y, n);
    var m: nat :| JumpsIn(c, y, z, m);
    JumpsCompose(c, x, y, z, n, m);
  }

  lemma JumpFirst(c: seq<Slot>, x: int, y: int)
    requires IsOp(c, x, IJmp) && HasOff(c, x) && JumpsTo(c, Target(c, x), y)
    ensures JumpsTo(c, x, y)
  {
    var n: nat :| JumpsIn(c, Target(c, x), y, n);
    assert JumpsIn(c, x, y, n + 1);
  }

  /** Jumps are deterministic: every place on the way is on the way to the end. */
  lemma {:induction false} JumpsPrefix(c: seq<Slot>, x: int, y: int, j: int, m: nat, n: nat)
    requires JumpsIn(c, x, y, m) && JumpsIn(c, x, j, n) && !IsOp(c, j, IJmp)
    ensures m <= n && JumpsIn(c, y, j, n - m)
    decreases m
  {
    if m > 0 { JumpsPrefix(c, Target(c, x), y, j, m - 1, n - 1); }
  }

  lemma StoppedStays(c: seq<Slot>, d: seq<Slot>, i: int, ft: int, j: int)
    requires Rewrites(c, d, i, ft) && Stops(c, j)
    ensures Stops(d, j) && d[j].op == c[j].op
  {
  }

  lemma CopiedOp(c: seq<Slot>, d: seq<Slot>, i: int, ft: int, j: int, n: nat)
    requires Copies(c, d, i, ft) && JumpsIn(c, i, j, n) && Stops(c, j)
    ensures Stops(d, i) && d[i].op == c[j].op
  {
    var m: nat :| JumpsIn(c, i, ft, m);
    JumpsPrefix(c, i, ft, j, m, n);
  }

  lemma {:induction false} RewritingKeepsEnd(c: seq<Slot>, d: seq<Slot>, i: int, ft: int, x: int, j: int, n: nat)
    requires Rewrites(c, d, i, ft) && JumpsIn(c, x, j, n) && Stops(c, j)
    ensures EndsAt(d, x, c[j].op)
    decreases n
  {
    RewritesSame(c, d, i, ft);
    hide JumpsTo, HasLabel, Leaves, Commits;
    if n == 0 {
      JumpsToSelf(d, x);
      StoppedStays(c, d, i, ft, x);
    } else if x == i && !Relabels(c, d, i) {
      JumpsToSelf(d, x);
      CopiedOp(c, d, i, ft, j, n);
    } else if x == i {
      var o: int :| d == c[i + 1 := Off(o)] && JumpsTo(c, Target(c, i), i + o);
      var m: nat :| JumpsIn(c, Target(c, i), i + o, m);
      JumpsPrefix(c, Target(c, i), i + o, j, m, n - 1);
      RewritingKeepsEnd(c, d, i, ft, i + o, j, n - 1 - m);
      var e :| JumpsTo(d, i + o, e) && Stops(d, e) && d[e].op == c[j].op;
      JumpFirst(d, x, e);
    } else {
      SameOffset(c, d, i, x);
      RewritingKeepsEnd(c, d, i, ft, Target(c, x), j, n - 1);
      var e :| JumpsTo(d, Target(d, x), e) && Stops(d, e) && d[e].op == c[j].op;
      JumpFirst(d, x, e);
    }
  }

  lemma RewritingKeepsEnds(c: seq<Slot>, d: seq<Slot>, i: int, ft: int, x: int)
    requires Rewrites(c, d, i, ft) && Ends(c, x)
    ensures Ends(d, x)
  {
    var j :| JumpsTo(c, x, j) && Stops(c, j);
    var n: nat :| JumpsIn(c, x, j, n);
    RewritingKeepsEnd(c, d, i, ft, x, j, n);
  }

  /** A place on the way of jumps that end has jumps that end. */
  lemma EndsOnTheWay(c: seq<Slot>, x: int, y: int)
    requires Ends(c, x) && JumpsTo(c, x, y)
    ensures Ends(c, y)
  {
    var j :| JumpsTo(c, x, j) && Stops(c, j);
    var n: nat :| JumpsIn(c, x, j, n);
    var m: nat :| JumpsIn(c, x, y, m);
    JumpsPrefix(c, x, y, j, m, n);
    assert JumpsTo(c, y, j);
  }

  lemma RewrittenLabelEnds(c: seq<Slot>, d: seq<Slot>, i: int, ft: int)
    requires Rewrites(c, d, i, ft) && LabelsEnd(c)
    requires HasLabel(d[i].op) || d[i].op == IJmp
    ensures HasOff(d, i) && Ends(d, Target(d, i))
  {
    hide Ends, JumpsTo;
    var from := if Relabels(c, d, i) then i else ft;
    var o: int :| d[i + 1] == Off(o) && JumpsTo(c, Target(c, from), i + o);
    EndsOnTheWay(c, Target(c, from), i + o);
    RewritingKeepsEnds(c, d, i, ft, i + o);
  }

  lemma RewritingKeepsLabels(c: seq<Slot>, d: seq<Slot>, i: int, ft: int)
    requires Rewrites(c, d, i, ft) && LabelsEnd(c)
    ensures LabelsEnd(d)
  {
    hide Ends, JumpsTo, Relabels, Copies;
    RewritesSame(c, d, i, ft);
    forall k | 0 <= k < |d| && d[k].Inst? && (HasLabel(d[k].op) || d[k].op == IJmp)
      ensures HasOff(d, k) && Ends(d, Target(d, k))
    {
      if k != i {
        SameOffset(c, d, i, k);
        RewritingKeepsEnds(c, d, i, ft, Target(c, k));
      } else {
        RewrittenLabelEnds(c, d, i, ft);
      }
    }
  }

  // ----- what peephole achieves -----

  /** The label of instruction k leads straight to an instruction that is no jump; a jump does not lead to
      an instruction that could stand in its place. */
  ghost predicate Done(c: seq<Slot>, k: int) {
    0 <= k < |c| && c[k].Inst? && (HasLabel(c[k].op) || c[k].op == IJmp) ==>
      && HasOff(c, k) && Stops(c, Target(c, k))
      && (c[k].op == IJmp ==> !Leaves(c[Target(c, k)].op) && !Commits(c[Target(c, k)].op))
  }

  lemma KeepsTrans(c: seq<Slot>, d: seq<Slot>, e: seq<Slot>)
    requires Keeps(c, d) && Keeps(d, e)
    ensures Keeps(c, e)
  {
  }

  lemma DoneKept(c: seq<Slot>, d: seq<Slot>, i: int, ft: int, k: int)
    requires Rewrites(c, d, i, ft) && Done(c, k) && k < i
    ensures Done(d, k)
  {
    RewritesSame(c, d, i, ft);
    if 0 <= k && c[k].Inst? { SameOffset(c, d, i, k); }
  }

  /** State of the peephole loop: everything before i is done, from i on the code is still aligned. */
  ghost predicate Threading(c0: seq<Slot>, c: seq<Slot>, i: int) {
    && |c| == |c0| && 0 <= i <= |c| && Keeps(c0, c) && LabelsEnd(c)
    && (forall k :: 0 <= k < i ==> Done(c, k))
    && (i < |c| ==> c[i].Inst?)
    && (forall k :: i <= k < |c| && c[k].Inst? ==> AlignedAt(c, k))
  }

  lemma ThreadingStarts(c: seq<Slot>)
    requires LabelsEnd(c) && Aligned(c)
    ensures Threading(c, c, 0)
  {
  }

  /** An instruction that is done may be passed. */
  lemma ThreadingPasses(c0: seq<Slot>, c: seq<Slot>, i: int)
    requires Threading(c0, c, i) && i < |c| && Done(c, i)
    ensures Threading(c0, c, i + SizeI(c[i].op))
  {
    hide Keeps, LabelsEnd, SizeI, Done, AlignedAt;
    SizePositive(c[i].op);
    InsideOf(c, i);
    var e := i + SizeI(c[i].op);
    forall k | 0 <= k < e ensures Done(c, k) {
      if k > i { NotDoneYet(c, k); }
    }
  }

  lemma SizePositive(op: Opcode)
    ensures SizeI(op) > 0
  {
  }

  lemma InsideOf(c: seq<Slot>, i: int)
    requires 0 <= i < |c| && c[i].Inst? && AlignedAt(c, i)
    ensures var e := i + SizeI(c[i].op); e <= |c| && (e < |c| ==> c[e].Inst?) && forall m :: i < m < e ==> !c[m].Inst?
  {
  }

  /** What is no instruction needs nothing done. */
  lemma NotDoneYet(c: seq<Slot>, k: int)
    requires 0 <= k < |c| && !c[k].Inst?
    ensures Done(c, k)
  {
  }

  /** A rewriting at i keeps all that has been achieved. */
  lemma ThreadingRewrites(c0: seq<Slot>, c: seq<Slot>, d: seq<Slot>, i: int, ft: int)
    requires Threading(c0, c, i) && Rewrites(c, d, i, ft)
    requires (SizeI(d[i].op) == SizeI(c[i].op) == 2 && d[i + 1].Off?) || (SizeI(c[i].op) == 2 && SizeI(d[i].op) == 1 && d[i + 1].Inst?)
          || (d[i].op == c[i].op && d[i + 1].Off?)
    ensures Threading(c0, d, i)
  {
    RewritingKeeps(c, d, i, ft);
    RewritingKeepsLabels(c, d, i, ft);
    RewritesSame(c, d, i, ft);
    AlignedAfter(c, d, i);
    hide Keeps, LabelsEnd, Done, AlignedAt, SizeI, Rewrites;
    KeepsTrans(c0, c, d);
    forall k | 0 <= k < i ensures Done(d, k) { DoneKept(c, d, i, ft, k); }
  }

  lemma AlignedAfter(c: seq<Slot>, d: seq<Slot>, i: int)
    requires SameElsewhere(c, d, i) && 0 <= i < |c|
    requires forall k :: i <= k < |c| && c[k].Inst? ==> AlignedAt(c, k)
    requires (SizeI(d[i].op) == SizeI(c[i].op) == 2 && d[i + 1].Off?) || (SizeI(c[i].op) == 2 && SizeI(d[i].op) == 1 && d[i + 1].Inst?)
          || (d[i].op == c[i].op && d[i + 1].Off?)
    requires d[i + 1].Off? || d[i + 1] == Inst(IAny, 0)
    ensures forall k :: i <= k < |d| && d[k].Inst? ==> AlignedAt(d, k)
  {
    hide AlignedAt;
    forall k | i <= k < |d| && d[k].Inst? ensures AlignedAt(d, k) { AlignedAfterAt(c, d, i, k); }
  }

  lemma AlignedAfterAt(c: seq<Slot>, d: seq<Slot>, i: int, k: int)
    requires SameElsewhere(c, d, i) && 0 <= i <= k < |c| && d[k].Inst?
    requires AlignedAt(c, i) && (c[k].Inst? ==> AlignedAt(c, k))
    requires (SizeI(d[i].op) == SizeI(c[i].op) == 2 && d[i + 1].Off?) || (SizeI(c[i].op) == 2 && SizeI(d[i].op) == 1 && d[i + 1].Inst?)
          || (d[i].op == c[i].op && d[i + 1].Off?)
    requires d[i + 1].Off? || d[i + 1] == Inst(IAny, 0)
    ensures AlignedAt(d, k)
  {
    assert SizeI(IAny) == 1;
    hide SizeI;
  }

  // ----- one turn of the loop, case by case -----

  lemma JumpEnds(c: seq<Slot>, i: int)
    requires LabelsEnd(c) && IsOp(c, i, IJmp)
    ensures HasOff(c, i) && Ends(c, i)
  {
    var j :| JumpsTo(c, Target(c, i), j) && Stops(c, j);
    JumpFirst(c, i, j);
  }

  /** The instruction that the loop looks at. */
  lemma ThreadingAt(c0: seq<Slot>, c: seq<Slot>, i: int)
    requires Threading(c0, c, i) && i < |c|
    ensures |c| == |c0| && 0 <= i && c[i].Inst? && i < i + SizeI(c[i].op) <= |c|
    ensures HasLabel(c[i].op) || c[i].op == IJmp ==> i + 1 < |c| && HasOff(c, i) && Ends(c, Target(c, i))
    ensures c[i].op == IJmp ==> IsOp(c, i, IJmp) && Ends(c, i)
  {
    assert AlignedAt(c, i);
    if c[i].op == IJmp { JumpEnds(c, i); }
  }

  lemma StopsAt(c: seq<Slot>, ft: int)
    requires Stops(c, ft)
    ensures 0 <= ft < |c| && c[ft].Inst? && c[ft].op != IJmp
  {
  }

  lemma CommitLabel(c0: seq<Slot>, c: seq<Slot>, i: int, ft: int)
    requires Threading(c0, c, i) && Stops(c, ft) && Commits(c[ft].op)
    ensures HasOff(c, ft) && Ends(c, Target(c, ft))
  {
  }

  /** The label of i is moved to ft. */
  lemma Relabelled(c: seq<Slot>, i: int, ft: int)
    requires 0 <= i && i + 1 < |c| && c[i].Inst? && (HasLabel(c[i].op) || c[i].op == IJmp) && HasOff(c, i)
    requires JumpsTo(c, Target(c, i), ft) && Stops(c, ft)
    requires c[i].op == IJmp ==> !Leaves(c[ft].op) && !Commits(c[ft].op)
    ensures var d := c[i + 1 := Off(ft - i)]; Relabels(c, d, i) && Done(d, i)
  {
    hide JumpsTo;
    assert JumpsTo(c, Target(c, i), i + (ft - i));
    assert Target(c[i + 1 := Off(ft - i)], i) == ft;
  }

  lemma LabelMoved(c0: seq<Slot>, c: seq<Slot>, i: int, ft: int)
    requires Threading(c0, c, i) && 0 <= i && i + 1 < |c| && c[i].Inst? && HasLabel(c[i].op) && HasOff(c, i)
    requires JumpsTo(c, Target(c, i), ft) && Stops(c, ft)
    ensures var d := c[i + 1 := Off(ft - i)]; Threading(c0, d, i + SizeI(d[i].op))
  {
    hide Threading, Done, Relabels, Copies, Stops, SizeI;
    var d := c[i + 1 := Off(ft - i)];
    Relabelled(c, i, ft);
    ThreadingRewrites(c0, c, d, i, ft);
    ThreadingPasses(c0, d, i);
  }

  lemma JumpMoved(c0: seq<Slot>, c: seq<Slot>, i: int, ft: int)
    requires Threading(c0, c, i) && 0 <= i && i + 1 < |c| && IsOp(c, i, IJmp) && HasOff(c, i)
    requires JumpsTo(c, i, ft) && Stops(c, ft) && !Leaves(c[ft].op) && !Commits(c[ft].op)
    ensures var d := c[i + 1 := Off(ft - i)]; Threading(c0, d, i + SizeI(d[i].op))
  {
    hide Threading, Done, Relabels, Copies, SizeI;
    var d := c[i + 1 := Off(ft - i)];
    JumpOn(c, i, ft);
    Relabelled(c, i, ft);
    ThreadingRewrites(c0, c, d, i, ft);
    ThreadingPasses(c0, d, i);
  }

  lemma CopyIs(c: seq<Slot>, i: int, ft: int, second: Slot)
    requires 0 <= i && i + 1 < |c| && IsOp(c, i, IJmp) && HasOff(c, i)
    requires JumpsTo(c, i, ft) && Stops(c, ft)
    requires (Leaves(c[ft].op) && second == Inst(IAny, 0)) ||
             (Commits(c[ft].op) && second.Off? && HasOff(c, ft) && JumpsTo(c, Target(c, ft), i + second.d))
    ensures var d := c[i := c[ft]][i + 1 := second]; Copies(c, d, i, ft) && d[i] == c[ft] && d[i + 1] == second
    ensures SizeI(c[i].op) == 2 && SizeI(c[ft].op) == if Leaves(c[ft].op) then 1 else 2
  {
    hide JumpsTo;
  }

  lemma LeaveCopied(c0: seq<Slot>, c: seq<Slot>, i: int, ft: int)
    requires Threading(c0, c, i) && 0 <= i && i + 1 < |c| && IsOp(c, i, IJmp) && HasOff(c, i)
    requires JumpsTo(c, i, ft) && Stops(c, ft) && Leaves(c[ft].op)
    ensures var d := c[i := c[ft]][i + 1 := Inst(IAny, 0)]; Threading(c0, d, i + SizeI(d[i].op))
  {
    var d := c[i := c[ft]][i + 1 := Inst(IAny, 0)];
    CopyIs(c, i, ft, Inst(IAny, 0));
    assert |d| == |c|;
    hide Threading, Relabels, Copies, SizeI, JumpsTo, HasOff, Done, Leaves;
    ThreadingRewrites(c0, c, d, i, ft);
    LeaveDone(d, i);
    ThreadingPasses(c0, d, i);
  }

  lemma LeaveDone(d: seq<Slot>, i: int)
    requires 0 <= i < |d| && d[i].Inst? && Leaves(d[i].op)
    ensures Done(d, i)
  {
  }

  lemma CommitCopied(c0: seq<Slot>, c: seq<Slot>, i: int, ft: int, fft: int)
    requires Threading(c0, c, i) && 0 <= i && i + 1 < |c| && IsOp(c, i, IJmp) && HasOff(c, i)
    requires JumpsTo(c, i, ft) && Stops(c, ft) && Commits(c[ft].op) && HasOff(c, ft)
    requires JumpsTo(c, Target(c, ft), fft)
    ensures var d := c[i := c[ft]][i + 1 := Off(fft - i)]; Threading(c0, d, i) && !IsOp(d, i, IJmp)
  {
    hide Threading, Relabels, Copies, SizeI, JumpsTo, HasOff, Done, Leaves;
    var second := Off(fft - i);
    assert i + second.d == fft;
    var d := c[i := c[ft]][i + 1 := second];
    CopyIs(c, i, ft, second);
    CommitStays(c[ft].op);
    ThreadingRewrites(c0, c, d, i, ft);
  }

  lemma CommitStays(op: Opcode)
    ensures Commits(op) ==> !Leaves(op) && op != IJmp
  {
  }

  lemma NothingToDo(c0: seq<Slot>, c: seq<Slot>, i: int)
    requires Threading(c0, c, i) && i < |c| && c[i].Inst? && !HasLabel(c[i].op) && c[i].op != IJmp
    ensures Threading(c0, c, i + SizeI(c[i].op))
  {
    ThreadingPasses(c0, c, i);
  }

  lemma ThreadingEnds(c0: seq<Slot>, c: seq<Slot>, i: int)
    requires Threading(c0, c, i) && i >= |c|
    ensures i == |c| == |c0| && Keeps(c0, c) && forall k :: 0 <= k < |c| ==> Done(c, k)
  {
  }
}
