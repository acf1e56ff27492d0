/** Closing the calls of a grammar puts its rules in place. */
module PegClose {
  import opened Wrappers
  import opened PegTree
  import opened PegAnalysis
  import opened PegMachine
  import opened PegCode
  import opened PegBlocks

  // ----- patterns the theorem is about -----

  /** Calls go to existing rules, and a look-behind knows the length of its pattern. */
  ghost predicate WellFormed(g: seq<Tree>, t: Tree)
    decreases t
  {
    match t
    case TRep(p) => WellFormed(g, p)
    case TSeq(p1, p2) => WellFormed(g, p1) && WellFormed(g, p2)
    case TChoice(p1, p2) => WellFormed(g, p1) && WellFormed(g, p2)
    case TNot(p) => WellFormed(g, p)
    case TAnd(p) => WellFormed(g, p)
    case TBehind(n, p) => WellFormed(g, p) && n == FixedLen(g, p) && n > 0
    case TCall(r) => r < |g|
    case TGrammar(rs) => |rs| > 0 && forall n :: 0 <= n < |rs| ==> WellFormed(rs, rs[n])
    case _ => true
  }

  /** Does the code of t depend on opt? */
  ghost predicate UsesOpt(g: seq<Tree>, t: Tree, fl: Charset)
    decreases t
  {
    match t
    case TSeq(_, p2) => UsesOpt(g, p2, fl)
    case TChoice(p1, p2) => (p2.TTrue? && !TestDecides(g, p1, p2, fl)) || UsesOpt(g, p2, fl)
    case TRep(p) =>
      ToCharset(p).None? && (TestEndsLoop(g, p, fl) ==> UsesOpt(g, p, FULL))
    case _ => false
  }

  /** coderep passes opt on into a loop body that it guards by a test.  A body whose code depends on opt
      then leaves the loop instead of repeating it.  SafeOpt excludes just that. */
  ghost predicate SafeOpt(g: seq<Tree>, t: Tree, opt: bool, fl: Charset)
    decreases t
  {
    match t
    case TSeq(p1, p2) => SafeOpt(g, p1, false, FollowOf(g, p1, p2, fl)) && SafeOpt(g, p2, opt, fl)
    case TChoice(p1, p2) =>
      if TestDecides(g, p1, p2, fl) then SafeOpt(g, p1, false, fl) && SafeOpt(g, p2, opt, fl)
      else if opt && p2.TTrue? then SafeOpt(g, p1, true, FULL)
      else SafeOpt(g, p1, p2.TTrue?, FULL) && SafeOpt(g, p2, opt, fl)
    case TRep(p) =>
      ToCharset(p).Some? ||
      (SafeOpt(g, p, false, FULL) && (opt && TestEndsLoop(g, p, fl) ==> !UsesOpt(g, p, FULL)))
    case TNot(p) => HeadFail(g, p) || SafeOpt(g, p, false, FULL)
    case TAnd(p) => SafeOpt(g, p, false, FULL)
    case TBehind(_, p) => SafeOpt(g, p, false, FULL)
    case TGrammar(rs) => forall n :: 0 <= n < |rs| ==> SafeOpt(rs, rs[n], false, FULL)
    case _ => true
  }

  lemma {:induction false} OptUnused(tl: bool, g: seq<Tree>, t: Tree, tt: Test, fl: Charset)
    requires !UsesOpt(g, t, fl)
    ensures Gen(tl, g, t, true, tt, fl) == Gen(tl, g, t, false, tt, fl)
    decreases t
  {
    match t
    case TSeq(p1, p2) => OptUnused(tl, g, p2, TestAfter(g, p1, tt), fl);
    case TChoice(p1, p2) => OptUnused(tl, g, p2, NoTest, fl);
    case TRep(p) =>
      if ToCharset(p).None? { OptUnused(tl, g, p, TestOf(First(g, p, FULL).cs, false), FULL); }
    case _ =>
  }

  ghost predicate RulesSafe(g: seq<Tree>) {
    forall n :: 0 <= n < |g| ==> SafeOpt(g, g[n], false, FULL)
  }

  /** The rules of grammar g are in place at positions rp. */
  ghost predicate RulesLoaded(code: seq<Slot>, g: seq<Tree>, rp: seq<int>) {
    && |rp| == |g|
    && (forall n :: 0 <= n < |g| ==> WellFormed(g, g[n]))
    && (forall n :: 0 <= n < |g| ==>
          Loaded(code, rp[n], Gen(false, g, g[n], false, NoTest, FULL) + [Inst(IRet, 0)], rp))
  }

  // ----- closing calls -----

  /** Open calls go to one of n rules and are followed by their hole; there is no other hole. */
  ghost predicate OpenCallsOk(c: seq<Slot>, n: nat) {
    && (forall k :: 0 <= k < |c| && IsOp(c, k, IOpenCall) ==> k + 1 < |c| && c[k + 1].Hole? && 0 <= c[k].arg < n)
    && (forall k :: 0 <= k < |c| && c[k].Hole? ==> IsOp(c, k - 1, IOpenCall))
  }

  /** What closing without tail calls makes of slot k. */
  function Closed(c: seq<Slot>, pos: seq<int>, k: int): Slot
    requires 0 <= k < |c|
  {
    if IsOp(c, k, IOpenCall) then Inst(ICall, c[k].arg)
    else if c[k].Hole? && IsOp(c, k - 1, IOpenCall) && 0 <= c[k - 1].arg < |pos|
    then Off(pos[c[k - 1].arg] - (k - 1))
    else c[k]
  }

  /** The first i slots are closed, the others still as they were in c. */
  ghost predicate ClosedUpTo(c: seq<Slot>, d: seq<Slot>, pos: seq<int>, i: nat) {
    && |d| == |c|
    && (forall k :: 0 <= k < |c| && k < i ==> d[k] == Closed(c, pos, k))
    && (forall k :: i <= k < |c| ==> d[k] == c[k])
  }

  lemma {:induction false} ClosedSlots(c: seq<Slot>, d: seq<Slot>, pos: seq<int>, i: nat)
    requires OpenCallsOk(c, |pos|) && i <= |c| && ClosedUpTo(c, d, pos, i)
    requires i < |c| ==> !c[i].Hole?
    ensures ClosedUpTo(c, CloseCalls(false, d, pos, i), pos, |c|)
    decreases |c| - i
  {
    if i < |c| {
      if IsOp(c, i, IOpenCall) {
        var d' := d[i := Inst(ICall, c[i].arg)][i + 1 := Off(pos[c[i].arg] - i)];
        assert ClosedUpTo(c, d', pos, i + 2);
        ClosedSlots(c, d', pos, i + 2);
      } else {
        ClosedSlots(c, d, pos, i + 1);
      }
    }
  }

  // ----- code with and without tail calls -----

  /** Slot k is a call in c and, since a return follows, a jump in d. */
  ghost predicate TailCall(c: seq<Slot>, d: seq<Slot>, k: int) {
    0 <= k < |d| && IsOp(c, k, ICall) && d[k] == Inst(IJmp, c[k].arg) && LeadsToRet(d, k + 2)
  }

  /** c and d are the same but for tail calls. */
  ghost predicate Twins(c: seq<Slot>, d: seq<Slot>) {
    |c| == |d| && forall k :: 0 <= k < |c| ==> d[k] == c[k] || TailCall(c, d, k)
  }

  lemma {:induction false} JumpsMove(a: seq<Slot>, b: seq<Slot>, m: int, i: int, j: int, n: nat)
    requires JumpsIn(a, i, j, n)
    requires forall k :: 0 <= k < |a| && (a[k].Off? || IsOp(a, k, IJmp)) ==> 0 <= m + k < |b| && b[m + k] == a[k]
    ensures JumpsIn(b, m + i, m + j, n)
    decreases n
  {
    if n > 0 {
      assert a[i + 1].Off? && b[m + i + 1] == b[m + (i + 1)] == a[i + 1];
      JumpsMove(a, b, m, Target(a, i), j, n - 1);
    }
  }

  /** Jumps to a return are not disturbed by what happens to other slots. */
  lemma LeadsMove(a: seq<Slot>, b: seq<Slot>, m: int, i: int)
    requires LeadsToRet(a, i)
    requires forall k :: 0 <= k < |a| && (a[k].Off? || IsOp(a, k, IJmp) || IsOp(a, k, IRet)) ==>
                           0 <= m + k < |b| && b[m + k] == a[k]
    ensures LeadsToRet(b, m + i)
  {
    var j :| JumpsTo(a, i, j) && IsOp(a, j, IRet);
    var n: nat :| JumpsIn(a, i, j, n);
    JumpsMove(a, b, m, i, j, n);
    assert JumpsTo(b, m + i, m + j) && IsOp(b, m + j, IRet);
  }

  ghost predicate HolesFollow(c: seq<Slot>) {
    forall k :: 0 <= k < |c| && IsOp(c, k, IOpenCall) ==> k + 1 < |c| && c[k + 1].Hole?
  }

  lemma CloseOne(c: seq<Slot>, d: seq<Slot>, i: nat, off: Slot)
    requires Twins(c, d) && HolesFollow(c) && i + 1 < |c| && IsOp(c, i, IOpenCall) && !off.Inst?
    ensures HolesFollow(c[i := Inst(ICall, c[i].arg)][i + 1 := off])
    ensures
      var op := if LeadsToRet(d, i + 2) then IJmp else ICall;
      Twins(c[i := Inst(ICall, c[i].arg)][i + 1 := off], d[i := Inst(op, c[i].arg)][i + 1 := off])
  {
    hide LeadsToRet;
    var op := if LeadsToRet(d, i + 2) then IJmp else ICall;
    var c', d' := c[i := Inst(ICall, c[i].arg)][i + 1 := off], d[i := Inst(op, c[i].arg)][i + 1 := off];
    assert d[i] == c[i] && d[i + 1] == c[i + 1] && c[i + 1].Hole?;
    forall k | 0 <= k < |c'| && IsOp(c', k, IOpenCall) ensures k + 1 < |c'| && c'[k + 1].Hole? {
      assert IsOp(c, k, IOpenCall);
      assert c[k + 1].Hole? && k != i && k != i + 1;
    }
    forall k | 0 <= k < |c| ensures d'[k] == c'[k] || TailCall(c', d', k) {
      if (k == i && op == IJmp) || (k != i && k != i + 1 && TailCall(c, d, k)) { LeadsMove(d, d', 0, k + 2); }
    }
  }

  lemma {:induction false} CloseTwins(c: seq<Slot>, d: seq<Slot>, pos: seq<int>, i: nat)
    requires Twins(c, d) && i <= |c|
    requires HolesFollow(c)
    ensures Twins(CloseCalls(false, c, pos, i), CloseCalls(true, d, pos, i))
    decreases |c| - i
  {
    if i >= |c| { return; }
    assert d[i] == c[i] || TailCall(c, d, i);
    if IsOp(c, i, IOpenCall) && i + 1 < |c| && 0 <= c[i].arg < |pos| {
      var n := c[i].arg;
      var op := if LeadsToRet(d, i + 2) then IJmp else ICall;
      var c', d' := c[i := Inst(ICall, n)][i + 1 := Off(pos[n] - i)], d[i := Inst(op, n)][i + 1 := Off(pos[n] - i)];
      CloseOne(c, d, i, Off(pos[n] - i));
      CloseTwins(c', d', pos, i + 2);
    } else {
      CloseTwins(c, d, pos, i + 1);
    }
  }

  /** The code is a row of instructions, each followed by the slots its size says. */
  ghost predicate Aligned(c: seq<Slot>) {
    (|c| > 0 ==> c[0].Inst?) && forall k :: 0 <= k < |c| && c[k].Inst? ==> AlignedAt(c, k)
  }

  ghost predicate AlignedAt(c: seq<Slot>, k: int)
    requires 0 <= k < |c| && c[k].Inst?
  {
    var e := k + SizeI(c[k].op);
    e <= |c| && (e < |c| ==> c[e].Inst?) && forall m :: k < m < e ==> !c[m].Inst?
  }

  lemma AlignedJoin(a: seq<Slot>, b: seq<Slot>)
    requires Aligned(a) && Aligned(b)
    ensures Aligned(a + b)
  {
    hide AlignedAt;
    var c := a + b;
    forall k | 0 <= k < |c| && c[k].Inst? ensures AlignedAt(c, k) {
      if k < |a| { AlignedLeft(a, b, c, k); } else { AlignedRight(a, b, c, k - |a|); }
    }
  }

  lemma AlignedLeft(a: seq<Slot>, b: seq<Slot>, c: seq<Slot>, k: int)
    requires c == a + b && 0 <= k < |a| && a[k].Inst? && AlignedAt(a, k) && (|b| > 0 ==> b[0].Inst?)
    ensures AlignedAt(c, k)
  {
    assert a <= c;
    var e := k + SizeI(a[k].op);
    forall m | k < m < e ensures !c[m].Inst? { assert c[m] == a[m]; }
    if e < |c| { assert c[e] == if e < |a| then a[e] else b[0]; }
  }

  lemma AlignedRight(a: seq<Slot>, b: seq<Slot>, c: seq<Slot>, k: int)
    requires c == a + b && 0 <= k < |b| && b[k].Inst? && AlignedAt(b, k)
    ensures AlignedAt(c, |a| + k)
  {
    var e := |a| + k + SizeI(b[k].op);
    forall m | |a| + k < m < e ensures !c[m].Inst? { assert c[m] == b[m - |a|]; }
    if e < |c| { assert c[e] == b[e - |a|]; }
  }

  /** Instructions may be replaced by others of the same size. */
  lemma AlignedSame(c: seq<Slot>, d: seq<Slot>)
    requires Aligned(c) && |d| == |c|
    requires forall k :: 0 <= k < |c| ==> if c[k].Inst? then d[k].Inst? && SizeI(d[k].op) == SizeI(c[k].op) else !d[k].Inst?
    ensures Aligned(d)
  {
    hide SizeI, AlignedAt;
    forall k | 0 <= k < |d| && d[k].Inst? ensures AlignedAt(d, k) {
      assert AlignedAt(c, k);
      AlignedSameAt(c, d, k);
    }
  }

  lemma AlignedSameAt(c: seq<Slot>, d: seq<Slot>, k: int)
    requires 0 <= k < |c| == |d| && c[k].Inst? && d[k].Inst? && AlignedAt(c, k) && SizeI(d[k].op) == SizeI(c[k].op)
    requires forall m :: 0 <= m < |c| ==> c[m].Inst? == d[m].Inst?
    ensures AlignedAt(d, k)
  {
    hide SizeI;
  }

  /** Twins whose calls are still to be closed. */
  ghost predicate OpenTwins(c: seq<Slot>, d: seq<Slot>, n: nat) {
    Twins(c, d) && OpenCallsOk(c, n) && Aligned(c)
  }

  lemma Plain(c: seq<Slot>, n: nat)
    requires forall k :: 0 <= k < |c| ==> !c[k].Hole? && !IsOp(c, k, IOpenCall)
    requires Aligned(c)
    ensures OpenTwins(c, c, n)
  {
  }

  lemma TwinSize(c: seq<Slot>, d: seq<Slot>, n: nat)
    requires OpenTwins(c, d, n)
    ensures |c| == |d|
  {
  }

  lemma PlainJump(op: Opcode, off: int, n: nat)
    requires op != IOpenCall && SizeI(op) == 2
    ensures OpenTwins(Jump(op, off), Jump(op, off), n)
  {
    assert AlignedAt(Jump(op, off), 0);
    Plain(Jump(op, off), n);
  }

  lemma PlainInst(op: Opcode, arg: int, n: nat)
    requires SizeI(op) == 1
    ensures OpenTwins([Inst(op, arg)], [Inst(op, arg)], n)
  {
    assert AlignedAt([Inst(op, arg)], 0);
    Plain([Inst(op, arg)], n);
  }

  lemma Join(a: seq<Slot>, a': seq<Slot>, b: seq<Slot>, b': seq<Slot>, n: nat)
    requires OpenTwins(a, a', n) && OpenTwins(b, b', n)
    ensures OpenTwins(a + b, a' + b', n)
  {
    hide Twins, OpenCallsOk, Aligned;
    JoinOpen(a, b, n);
    AlignedJoin(a, b);
    JoinTwins(a, a', b, b');
  }

  lemma JoinTwins(a: seq<Slot>, a': seq<Slot>, b: seq<Slot>, b': seq<Slot>)
    requires Twins(a, a') && Twins(b, b')
    ensures Twins(a + b, a' + b')
  {
    hide TailCall;
    var c, d := a + b, a' + b';
    forall k: nat | k < |c| ensures d[k] == c[k] || TailCall(c, d, k) {
      if k < |a| { JoinLeft(a, a', b, b', k); } else { JoinRight(a, a', b, b', k - |a|); }
    }
  }

  lemma JoinLeft(a: seq<Slot>, a': seq<Slot>, b: seq<Slot>, b': seq<Slot>, k: nat)
    requires |a| == |a'| && |b| == |b'| && k < |a| && (a'[k] == a[k] || TailCall(a, a', k))
    ensures (a' + b')[k] == (a + b)[k] || TailCall(a + b, a' + b', k)
  {
    hide TailCall;
    if a'[k] != a[k] { TailCallMoves(a, a', a + b, a' + b', 0, k); }
  }

  lemma JoinRight(a: seq<Slot>, a': seq<Slot>, b: seq<Slot>, b': seq<Slot>, k: nat)
    requires |a| == |a'| && |b| == |b'| && k < |b| && (b'[k] == b[k] || TailCall(b, b', k))
    ensures (a' + b')[|a| + k] == (a + b)[|a| + k] || TailCall(a + b, a' + b', |a| + k)
  {
    hide TailCall;
    if b'[k] != b[k] { TailCallMoves(b, b', a + b, a' + b', |a|, k); }
  }

  /** A tail call stays one in a larger piece of code. */
  lemma TailCallMoves(a: seq<Slot>, a': seq<Slot>, c: seq<Slot>, d: seq<Slot>, m: int, k: int)
    requires |a| == |a'| && TailCall(a, a', k) && 0 <= m && m + |a| <= |c| == |d|
    requires forall j :: 0 <= j < |a| ==> a[j] == c[m + j]
    requires forall j :: 0 <= j < |a| ==> a'[j] == d[m + j]
    ensures TailCall(c, d, m + k)
  {
    hide LeadsToRet;
    LeadsMove(a', d, m, k + 2);
  }

  lemma JoinOpen(a: seq<Slot>, b: seq<Slot>, n: nat)
    requires OpenCallsOk(a, n) && OpenCallsOk(b, n)
    ensures OpenCallsOk(a + b, n)
  {
    var c := a + b;
    forall k | 0 <= k < |c| && IsOp(c, k, IOpenCall)
      ensures k + 1 < |c| && c[k + 1].Hole? && 0 <= c[k].arg < n
    {
      if k < |a| { assert IsOp(a, k, IOpenCall); } else { assert IsOp(b, k - |a|, IOpenCall); }
    }
    forall k | 0 <= k < |c| && c[k].Hole? ensures IsOp(c, k - 1, IOpenCall) {
      if k < |a| { assert a[k].Hole?; } else { assert b[k - |a|].Hole?; assert IsOp(b, k - |a| - 1, IOpenCall); }
    }
  }

  lemma TestPlain(cs: Charset, e: bool, off: int, n: nat)
    ensures OpenTwins(TestCode(cs, e, Off(off)), TestCode(cs, e, Off(off)), n)
  {
    var c := TestCode(cs, e, Off(off));
    if |c| > 0 { assert AlignedAt(c, 0); }
    Plain(c, n);
  }

  lemma PlainSet(cs: Charset, tt: Test, n: nat)
    ensures OpenTwins(SetCode(cs, tt), SetCode(cs, tt), n)
  {
    var c := SetCode(cs, tt);
    assert AlignedAt(c, 0);
    Plain(c, n);
  }

  lemma PlainSpan(cs: Charset, n: nat)
    ensures OpenTwins([Inst(ISpan, 0)] + Buffer(cs), [Inst(ISpan, 0)] + Buffer(cs), n)
  {
    var c := [Inst(ISpan, 0)] + Buffer(cs);
    assert AlignedAt(c, 0);
    Plain(c, n);
  }

  lemma PlainNot(f: FirstInfo, n: nat)
    ensures OpenTwins(NotByTest(f), NotByTest(f), n)
  {
    hide TestCode;
    var tst := TestCode(f.cs, f.e, Off(|TestCode(f.cs, f.e, Hole)| + 1));
    TestPlain(f.cs, f.e, |TestCode(f.cs, f.e, Hole)| + 1, n);
    PlainInst(IFail, 0, n);
    Join(tst, tst, [Inst(IFail, 0)], [Inst(IFail, 0)], n);
  }

  lemma PlainBack(k: int, n: nat)
    ensures
      var back := if k > 0 then [Inst(IBehind, k)] else [];
      OpenTwins(back, back, n)
  {
    if k > 0 { PlainInst(IBehind, k, n); } else { Plain([], n); }
  }

  lemma OpenCallTwin(r: nat, n: nat)
    requires r < n
    ensures OpenTwins([Inst(IOpenCall, r), Hole], [Inst(IOpenCall, r), Hole], n)
  {
    assert AlignedAt([Inst(IOpenCall, r), Hole], 0);
  }

  lemma JoinChoiceByTest(cs: Charset, b1: seq<Slot>, b1': seq<Slot>, b2: seq<Slot>, b2': seq<Slot>, empty2: bool, n: nat)
    requires OpenTwins(b1, b1', n) && OpenTwins(b2, b2', n)
    ensures OpenTwins(ChoiceByTest(cs, b1, b2, empty2), ChoiceByTest(cs, b1', b2', empty2), n)
  {
    hide OpenTwins, TestCode;
    TwinSize(b1, b1', n);
    TwinSize(b2, b2', n);
    TestSize(cs, false, 0);
    var jmp := if empty2 then [] else Jump(IJmp, 2 + |b2|);
    var off := TestLen(cs, false) + |b1| + |jmp|;
    var tst := TestCode(cs, false, Off(off));
    TestPlain(cs, false, off, n);
    if empty2 { Plain(jmp, n); } else { PlainJump(IJmp, 2 + |b2|, n); }
    Join(tst, tst, b1, b1', n);
    Join(tst + b1, tst + b1', jmp, jmp, n);
    Join(tst + b1 + jmp, tst + b1' + jmp, b2, b2', n);
  }

  lemma JoinChoice(f: FirstInfo, b1: seq<Slot>, b1': seq<Slot>, b2: seq<Slot>, b2': seq<Slot>, n: nat)
    requires OpenTwins(b1, b1', n) && OpenTwins(b2, b2', n)
    ensures OpenTwins(ChoiceByChoice(f, b1, b2), ChoiceByChoice(f, b1', b2'), n)
  {
    hide OpenTwins, TestCode;
    TwinSize(b1, b1', n);
    TwinSize(b2, b2', n);
    TestSize(f.cs, f.e, 0);
    var off := TestLen(f.cs, f.e) + 2 + |b1| + 2;
    var tst, ch, co := TestCode(f.cs, f.e, Off(off)), Jump(IChoice, 2 + |b1| + 2), Jump(ICommit, 2 + |b2|);
    TestPlain(f.cs, f.e, off, n);
    PlainJump(IChoice, 2 + |b1| + 2, n);
    PlainJump(ICommit, 2 + |b2|, n);
    Join(tst, tst, ch, ch, n);
    Join(tst + ch, tst + ch, b1, b1', n);
    Join(tst + ch + b1, tst + ch + b1', co, co, n);
    Join(tst + ch + b1 + co, tst + ch + b1' + co, b2, b2', n);
  }

  lemma JoinLoopByTest(cs: Charset, b: seq<Slot>, b': seq<Slot>, n: nat)
    requires OpenTwins(b, b', n)
    ensures OpenTwins(LoopByTest(cs, b), LoopByTest(cs, b'), n)
  {
    hide OpenTwins, TestCode;
    TwinSize(b, b', n);
    TestSize(cs, false, 0);
    var off := TestLen(cs, false) + |b| + 2;
    var tst, jmp := TestCode(cs, false, Off(off)), Jump(IJmp, -(TestLen(cs, false) + |b|));
    TestPlain(cs, false, off, n);
    PlainJump(IJmp, -(TestLen(cs, false) + |b|), n);
    Join(tst, tst, b, b', n);
    Join(tst + b, tst + b', jmp, jmp, n);
  }

  lemma JoinLoop(f: FirstInfo, opt: bool, b: seq<Slot>, b': seq<Slot>, n: nat)
    requires OpenTwins(b, b', n)
    ensures OpenTwins(LoopByChoice(f, opt, b), LoopByChoice(f, opt, b'), n)
  {
    hide OpenTwins, TestCode;
    TwinSize(b, b', n);
    TestSize(f.cs, f.e, 0);
    var off := TestLen(f.cs, f.e) + 2 + |b| + 2;
    var enter := if opt then Jump(IPartialCommit, 2) else Jump(IChoice, 2 + |b| + 2);
    var tst, back := TestCode(f.cs, f.e, Off(off)), Jump(IPartialCommit, -|b|);
    TestPlain(f.cs, f.e, off, n);
    if opt { PlainJump(IPartialCommit, 2, n); } else { PlainJump(IChoice, 2 + |b| + 2, n); }
    PlainJump(IPartialCommit, -|b|, n);
    Join(tst, tst, enter, enter, n);
    Join(tst + enter, tst + enter, b, b', n);
    Join(tst + enter + b, tst + enter + b', back, back, n);
  }

  lemma JoinNot(f: FirstInfo, b: seq<Slot>, b': seq<Slot>, n: nat)
    requires OpenTwins(b, b', n)
    ensures OpenTwins(NotByChoice(f, b), NotByChoice(f, b'), n)
  {
    hide OpenTwins, TestCode;
    TwinSize(b, b', n);
    TestSize(f.cs, f.e, 0);
    var off := TestLen(f.cs, f.e) + 2 + |b| + 1;
    var tst, ch, ft := TestCode(f.cs, f.e, Off(off)), Jump(IChoice, 2 + |b| + 1), [Inst(IFailTwice, 0)];
    TestPlain(f.cs, f.e, off, n);
    PlainJump(IChoice, 2 + |b| + 1, n);
    PlainInst(IFailTwice, 0, n);
    Join(tst, tst, ch, ch, n);
    Join(tst + ch, tst + ch, b, b', n);
    Join(tst + ch + b, tst + ch + b', ft, ft, n);
  }

  lemma JoinAnd(b: seq<Slot>, b': seq<Slot>, n: nat)
    requires OpenTwins(b, b', n)
    ensures OpenTwins(AndByChoice(b), AndByChoice(b'), n)
  {
    hide OpenTwins, TestCode;
    
    TwinSize(b, b', n);
    var ch, bc, fa := Jump(IChoice, 2 + |b| + 2), Jump(IBackCommit, 3), [Inst(IFail, 0)];
    PlainJump(IChoice, 2 + |b| + 2, n);
    PlainJump(IBackCommit, 3, n);
    PlainInst(IFail, 0, n);
    Join(ch, ch, b, b', n);
    Join(ch + b, ch + b', bc, bc, n);
    Join(ch + b + bc, ch + b' + bc, fa, fa, n);
  }

  /** The code with tail calls is the code without them, but for the tail calls. */
  lemma {:induction false} GenTwins(g: seq<Tree>, t: Tree, opt: bool, tt: Test, fl: Charset)
    requires WellFormed(g, t)
    ensures OpenTwins(Gen(false, g, t, opt, tt, fl), Gen(true, g, t, opt, tt, fl), |g|)
    decreases t, 1
  {
    hide GetFirst, HeadFailAux, CheckAux, FixedLenX, OpenTwins;
    match t
    case TChar(c) => PlainInst(if tt == Tested({c}) then IAny else IChar, if tt == Tested({c}) then 0 else c, |g|);
    case TAny => PlainInst(IAny, 0, |g|);
    case TFalse => PlainInst(IFail, 0, |g|);
    case TTrue => Plain([], |g|);
    case TCall(r) => OpenCallTwin(r, |g|);
    case TSet(cs) => PlainSet(cs, tt, |g|);
    case TSeq(p1, p2) =>
      var fl1, tt2 := FollowOf(g, p1, p2, fl), TestAfter(g, p1, tt);
      GenTwins(g, p1, false, tt, fl1);
      GenTwins(g, p2, opt, tt2, fl);
      Join(Gen(false, g, p1, false, tt, fl1), Gen(true, g, p1, false, tt, fl1),
           Gen(false, g, p2, opt, tt2, fl), Gen(true, g, p2, opt, tt2, fl), |g|);
    case TChoice(_, _) => ChoiceTwins(g, t, opt, tt, fl);
    case TRep(_) => RepTwins(g, t, opt, tt, fl);
    case TNot(p) =>
      var f := First(g, p, FULL);
      if HeadFail(g, p) { PlainNot(f, |g|); }
      else {
        GenTwins(g, p, false, NoTest, FULL);
        JoinNot(f, Gen(false, g, p, false, NoTest, FULL), Gen(true, g, p, false, NoTest, FULL), |g|);
      }
    case TAnd(p) =>
      GenTwins(g, p, false, tt, FULL);
      var b, b', n := Gen(false, g, p, false, tt, FULL), Gen(true, g, p, false, tt, FULL), FixedLen(g, p);
      var back := if n > 0 then [Inst(IBehind, n)] else [];
      PlainBack(n, |g|);
      Join(b, b', back, back, |g|);
      JoinAnd(b, b', |g|);
    case TBehind(n, p) =>
      GenTwins(g, p, false, NoTest, FULL);
      var back := if n > 0 then [Inst(IBehind, n)] else [];
      PlainBack(n, |g|);
      Join(back, back, Gen(false, g, p, false, NoTest, FULL), Gen(true, g, p, false, NoTest, FULL), |g|);
    case TGrammar(rs) => GrammarTwins(g, t, opt, tt, fl);
  }

  lemma {:induction false} ChoiceTwins(g: seq<Tree>, t: Tree, opt: bool, tt: Test, fl: Charset)
    requires t.TChoice? && WellFormed(g, t)
    ensures OpenTwins(Gen(false, g, t, opt, tt, fl), Gen(true, g, t, opt, tt, fl), |g|)
    decreases t, 0
  {
    hide GetFirst, HeadFailAux, CheckAux, FixedLenX, OpenTwins;
    var p1, p2, f1 := t.p1, t.p2, First(g, t.p1, FULL);
    GenTwins(g, p2, opt, NoTest, fl);
    var b2, b2' := Gen(false, g, p2, opt, NoTest, fl), Gen(true, g, p2, opt, NoTest, fl);
    if TestDecides(g, p1, p2, fl) {
      var tt1 := TestOf(f1.cs, false);
      GenTwins(g, p1, false, tt1, fl);
      JoinChoiceByTest(f1.cs, Gen(false, g, p1, false, tt1, fl), Gen(true, g, p1, false, tt1, fl), b2, b2', p2.TTrue?, |g|);
    } else if opt && p2.TTrue? {
      GenTwins(g, p1, true, NoTest, FULL);
      Plain(Jump(IPartialCommit, 2), |g|);
      Join(Jump(IPartialCommit, 2), Jump(IPartialCommit, 2),
           Gen(false, g, p1, true, NoTest, FULL), Gen(true, g, p1, true, NoTest, FULL), |g|);
    } else {
      var tt1 := TestOf(f1.cs, f1.e);
      GenTwins(g, p1, p2.TTrue?, tt1, FULL);
      JoinChoice(f1, Gen(false, g, p1, p2.TTrue?, tt1, FULL), Gen(true, g, p1, p2.TTrue?, tt1, FULL), b2, b2', |g|);
    }
  }

  lemma {:induction false} RepTwins(g: seq<Tree>, t: Tree, opt: bool, tt: Test, fl: Charset)
    requires t.TRep? && WellFormed(g, t)
    ensures OpenTwins(Gen(false, g, t, opt, tt, fl), Gen(true, g, t, opt, tt, fl), |g|)
    decreases t, 0
  {
    hide GetFirst, HeadFailAux, CheckAux, FixedLenX, OpenTwins;
    var p, f := t.p, First(g, t.p, FULL);
    if ToCharset(p).Some? {
      PlainSpan(ToCharset(p).value, |g|);
    } else if TestEndsLoop(g, p, fl) {
      var ttb := TestOf(f.cs, false);
      GenTwins(g, p, opt, ttb, FULL);
      JoinLoopByTest(f.cs, Gen(false, g, p, opt, ttb, FULL), Gen(true, g, p, opt, ttb, FULL), |g|);
    } else {
      GenTwins(g, p, false, NoTest, FULL);
      JoinLoop(f, opt, Gen(false, g, p, false, NoTest, FULL), Gen(true, g, p, false, NoTest, FULL), |g|);
    }
  }

  lemma {:induction false} GrammarTwins(g: seq<Tree>, t: Tree, opt: bool, tt: Test, fl: Charset)
    requires t.TGrammar? && WellFormed(g, t)
    ensures OpenTwins(Gen(false, g, t, opt, tt, fl), Gen(true, g, t, opt, tt, fl), |g|)
    decreases t, 0
  {
    hide OpenTwins, CloseCalls, RulesCode, RulePositions;
    var rs := t.rules;
    ClosedTwins(rs, |g|);
    var body, body' := RulesCode(false, rs, |rs|), RulesCode(true, rs, |rs|);
    var r, r' := CloseCalls(false, body, RulePositions(false, rs), 0), CloseCalls(true, body', RulePositions(true, rs), 0);
    PlainJump(ICall, 4, |g|);
    PlainJump(IJmp, 2 + |body|, |g|);
    var head := Jump(ICall, 4) + Jump(IJmp, 2 + |body|);
    Join(Jump(ICall, 4), Jump(ICall, 4), Jump(IJmp, 2 + |body|), Jump(IJmp, 2 + |body|), |g|);
    Join(head, head, r, r', |g|);
  }

  lemma {:induction false} ClosedTwins(rs: seq<Tree>, n: nat)
    requires forall m :: 0 <= m < |rs| ==> WellFormed(rs, rs[m])
    ensures |RulesCode(false, rs, |rs|)| == |RulesCode(true, rs, |rs|)|
    ensures OpenTwins(CloseCalls(false, RulesCode(false, rs, |rs|), RulePositions(false, rs), 0),
                      CloseCalls(true, RulesCode(true, rs, |rs|), RulePositions(true, rs), 0), n)
    decreases rs, |rs| + 1
  {
    hide Gen;
    RulesTwins(rs, |rs|);
    var body, body' := RulesCode(false, rs, |rs|), RulesCode(true, rs, |rs|);
    var pos := RulePositions(false, rs);
    forall m | 0 <= m < |rs| ensures pos[m] == RulePositions(true, rs)[m] { RulesTwins(rs, m); }
    assert pos == RulePositions(true, rs);
    ClosedIsClosed(body, body', pos, n);
  }

  lemma ClosedIsClosed(body: seq<Slot>, body': seq<Slot>, pos: seq<int>, n: nat)
    requires OpenTwins(body, body', |pos|)
    ensures OpenTwins(CloseCalls(false, body, pos, 0), CloseCalls(true, body', pos, 0), n)
  {
    hide LeadsToRet, CloseCalls, Twins, SizeI, AlignedAt;
    assert |body| > 0 ==> !body[0].Hole?;
    hide Aligned;
    CloseTwins(body, body', pos, 0);
    ClosedSlots(body, body, pos, 0);
    ClosedHasNoOpen(body, CloseCalls(false, body, pos, 0), pos, n);
  }

  lemma ClosedHasNoOpen(c: seq<Slot>, d: seq<Slot>, pos: seq<int>, n: nat)
    requires OpenCallsOk(c, |pos|) && Aligned(c) && ClosedUpTo(c, d, pos, |c|)
    ensures OpenCallsOk(d, n) && Aligned(d)
  {
    hide Aligned;
    forall k | 0 <= k < |c|
      ensures if c[k].Inst? then d[k].Inst? && SizeI(d[k].op) == SizeI(c[k].op) else !d[k].Inst?
      ensures !IsOp(d, k, IOpenCall) && !d[k].Hole?
    {
      assert d[k] == Closed(c, pos, k);
    }
    AlignedSame(c, d);
  }

  lemma {:induction false} RulesTwins(rs: seq<Tree>, n: nat)
    requires n <= |rs| && forall m :: 0 <= m < |rs| ==> WellFormed(rs, rs[m])
    ensures OpenTwins(RulesCode(false, rs, n), RulesCode(true, rs, n), |rs|)
    decreases rs, n
  {
    hide OpenTwins, Gen;
    if n == 0 { Plain([], |rs|); }
    else {
      RulesTwins(rs, n - 1);
      var c, c' := RulesCode(false, rs, n - 1), RulesCode(true, rs, n - 1);
      GenTwins(rs, rs[n - 1], false, NoTest, FULL);
      var b, b' := Gen(false, rs, rs[n - 1], false, NoTest, FULL), Gen(true, rs, rs[n - 1], false, NoTest, FULL);
      PlainInst(IRet, 0, |rs|);
      Join(c, c', b, b', |rs|);
      Join(c + b, c' + b', [Inst(IRet, 0)], [Inst(IRet, 0)], |rs|);
    }
  }

  // ----- a grammar in place -----

  /** The code of a grammar calls its first rule, jumps behind the rules, and has the rules in place. */
  lemma LayoutGrammar(code: seq<Slot>, p: int, rs: seq<Tree>, rp: seq<int>) returns (rp': seq<int>)
    requires WellFormed([], TGrammar(rs))
    requires
      var body := RulesCode(false, rs, |rs|);
      Loaded(code, p, Jump(ICall, 4) + Jump(IJmp, 2 + |body|) + CloseCalls(false, body, RulePositions(false, rs), 0), rp)
    ensures IsOp(code, p, ICall) && HasOff(code, p) && |rp'| > 0 && Target(code, p) == rp'[0]
    ensures IsOp(code, p + 2, IJmp) && HasOff(code, p + 2)
    ensures Target(code, p + 2) == p + 4 + |RulesCode(false, rs, |rs|)|
    ensures RulesLoaded(code, rs, rp')
    ensures forall n :: 0 <= n < |rs| ==> rp'[n] == p + 4 + |RulesCode(false, rs, n)|
  {
    var body, pos := RulesCode(false, rs, |rs|), RulePositions(false, rs);
    Split(code, p, Jump(ICall, 4) + Jump(IJmp, 2 + |body|), CloseCalls(false, body, pos, 0), rp);
    Split(code, p, Jump(ICall, 4), Jump(IJmp, 2 + |body|), rp);
    LoadedJump(code, p, ICall, 4, rp);
    LoadedJump(code, p + 2, IJmp, 2 + |body|, rp);
    rp' := RulesInPlace(code, p + 4, rs, rp);
  }

  lemma RulesInPlace(code: seq<Slot>, at: int, rs: seq<Tree>, rp: seq<int>) returns (rp': seq<int>)
    requires forall m :: 0 <= m < |rs| ==> WellFormed(rs, rs[m])
    requires Loaded(code, at, CloseCalls(false, RulesCode(false, rs, |rs|), RulePositions(false, rs), 0), rp)
    ensures RulesLoaded(code, rs, rp') && |rp'| == |rs|
    ensures forall n :: 0 <= n < |rs| ==> rp'[n] == at + |RulesCode(false, rs, n)|
  {
    hide Gen, CloseCalls, Loaded, WellFormed;
    var pos := RulePositions(false, rs);
    rp' := seq(|rs|, n requires 0 <= n < |rs| => at + pos[n]);
    ClosedLoaded(code, at, rs, rp, rp');
    forall n | 0 <= n < |rs|
      ensures Loaded(code, rp'[n], Gen(false, rs, rs[n], false, NoTest, FULL) + [Inst(IRet, 0)], rp')
    {
      RulePlaced(code, at, rs, rp', n, |rs|);
    }
  }

  lemma ClosedLoaded(code: seq<Slot>, at: int, rs: seq<Tree>, rp: seq<int>, rp': seq<int>)
    requires forall m :: 0 <= m < |rs| ==> WellFormed(rs, rs[m])
    requires Loaded(code, at, CloseCalls(false, RulesCode(false, rs, |rs|), RulePositions(false, rs), 0), rp)
    requires |rp'| == |rs| && forall n :: 0 <= n < |rs| ==> rp'[n] == at + |RulesCode(false, rs, n)|
    ensures Loaded(code, at, RulesCode(false, rs, |rs|), rp')
  {
    hide WellFormed, Gen, RulesCode, CloseCalls, Aligned, Twins;
    var body, pos := RulesCode(false, rs, |rs|), RulePositions(false, rs);
    RulesTwins(rs, |rs|);
    ClosedSlots(body, body, pos, 0);
    var r := CloseCalls(false, body, pos, 0);
    forall k | 0 <= k < |body| ensures SlotLoaded(code, at + k, body[k], rp') {
      LoadedAt(code, at, r, rp, k);
      assert r[k] == Closed(body, pos, k);
      if body[k].Hole? {
        assert IsOp(body, k - 1, IOpenCall);
        LoadedAt(code, at, r, rp, k - 1);
        assert r[k - 1] == Closed(body, pos, k - 1);
        assert code[at + k - 1] == code[at + (k - 1)];
      }
    }
  }

  lemma {:induction false} RulePlaced(code: seq<Slot>, at: int, rs: seq<Tree>, rp: seq<int>, n: nat, m: nat)
    requires n < m <= |rs|
    requires Loaded(code, at, RulesCode(false, rs, m), rp)
    ensures Loaded(code, at + |RulesCode(false, rs, n)|, Gen(false, rs, rs[n], false, NoTest, FULL) + [Inst(IRet, 0)], rp)
    decreases m
  {
    var body := Gen(false, rs, rs[m - 1], false, NoTest, FULL) + [Inst(IRet, 0)];
    assert RulesCode(false, rs, m) == RulesCode(false, rs, m - 1) + body;
    Split(code, at, RulesCode(false, rs, m - 1), body, rp);
    if n < m - 1 { RulePlaced(code, at, rs, rp, n, m - 1); }
  }
}
