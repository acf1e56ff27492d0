/** Running the blocks that codegen puts together, whatever the code inside them. */
module PegBlocks {
  import opened PegTree
  import opened PegAnalysis
  import opened PegMachine
  import opened PegCode

  // ----- code in place -----

  /** Slot a of the program is slot x of a piece of code, open calls closed by the rule positions rp. */
  ghost predicate SlotLoaded(code: seq<Slot>, a: int, x: Slot, rp: seq<int>)
    requires 0 <= a < |code|
  {
    if x.Inst? && x.op == IOpenCall then code[a] == Inst(ICall, x.arg)
    else if x.Hole? then
      IsOp(code, a - 1, ICall) && 0 <= code[a - 1].arg < |rp| && code[a] == Off(rp[code[a - 1].arg] - (a - 1))
    else code[a] == x
  }

  ghost predicate Loaded(code: seq<Slot>, p: int, c: seq<Slot>, rp: seq<int>) {
    0 <= p && p + |c| <= |code| && forall k :: 0 <= k < |c| ==> SlotLoaded(code, p + k, c[k], rp)
  }

  lemma Split(code: seq<Slot>, p: int, a: seq<Slot>, b: seq<Slot>, rp: seq<int>)
    requires Loaded(code, p, a + b, rp)
    ensures Loaded(code, p, a, rp) && Loaded(code, p + |a|, b, rp)
  {
    forall k | 0 <= k < |a| ensures SlotLoaded(code, p + k, a[k], rp) { assert (a + b)[k] == a[k]; }
    forall k | 0 <= k < |b| ensures SlotLoaded(code, p + |a| + k, b[k], rp) {
      assert (a + b)[|a| + k] == b[k];
      assert SlotLoaded(code, p + (|a| + k), (a + b)[|a| + k], rp);
    }
  }

  lemma LoadedAt(code: seq<Slot>, p: int, c: seq<Slot>, rp: seq<int>, k: int)
    requires Loaded(code, p, c, rp) && 0 <= k < |c|
    ensures 0 <= p + k < |code| && SlotLoaded(code, p + k, c[k], rp)
  {
  }

  lemma LoadedInst(code: seq<Slot>, p: int, op: Opcode, arg: int, rp: seq<int>)
    requires Loaded(code, p, [Inst(op, arg)], rp) && op != IOpenCall
    ensures IsOp(code, p, op) && code[p].arg == arg
  {
    LoadedAt(code, p, [Inst(op, arg)], rp, 0);
  }

  lemma LoadedJump(code: seq<Slot>, p: int, op: Opcode, off: int, rp: seq<int>)
    requires Loaded(code, p, Jump(op, off), rp) && op != IOpenCall
    ensures IsOp(code, p, op) && HasOff(code, p) && Target(code, p) == p + off
  {
    LoadedAt(code, p, Jump(op, off), rp, 0);
    LoadedAt(code, p, Jump(op, off), rp, 1);
  }

  // ----- tests and character sets -----

  lemma LoadedBuffer(code: seq<Slot>, p: int, cs: Charset, rp: seq<int>, c: Byte)
    requires Loaded(code, p, Buffer(cs), rp)
    ensures InBuffer(code, p, c) <==> c in cs
  {
    LoadedAt(code, p, Buffer(cs), rp, c / 32);
    assert Buffer(cs)[c / 32] == Buf(Part(cs, c / 32));
  }

  lemma ClassIs(cs: Charset)
    ensures ClassOf(cs).CEmpty? ==> cs == {}
    ensures ClassOf(cs).CAll? ==> cs == FULL
    ensures ClassOf(cs).CSingle? ==> cs == {ClassOf(cs).c}
  {
  }

  ghost function TestLen(cs: Charset, e: bool): nat { |TestCode(cs, e, Hole)| }

  /** Does a test of cs let the machine pass at i? */
  predicate Passes(cs: Charset, e: bool, s: seq<Byte>, i: nat) {
    e || (i < |s| && s[i] in cs)
  }

  /** A test falls through exactly on the characters of its set, and jumps otherwise. */
  lemma TestRuns(code: seq<Slot>, s: seq<Byte>, p: int, cs: Charset, e: bool, off: int, rp: seq<int>, i: nat, stk: Stk)
    requires Loaded(code, p, TestCode(cs, e, Off(off)), rp)
    ensures Reaches(code, s, Run(p, i, stk), Run(if Passes(cs, e, s, i) then p + TestLen(cs, e) else p + off, i, stk))
  {
    hide Loaded, Reaches, Step, TestCode, ClassOf, InBuffer;
    if e {
      NoTestLen(cs);
      Stay(code, s, Run(p, i, stk));
    } else {
      if ClassOf(cs).COther? { TestSetStep(code, s, p, cs, off, rp, i, stk); } else { TestStep(code, s, p, cs, off, rp, i, stk); }
      One(code, s, Run(p, i, stk));
    }
  }

  lemma NoTestLen(cs: Charset)
    ensures TestLen(cs, true) == 0
  {
  }

  lemma TestSetStep(code: seq<Slot>, s: seq<Byte>, p: int, cs: Charset, off: int, rp: seq<int>, i: nat, stk: Stk)
    requires Loaded(code, p, TestCode(cs, false, Off(off)), rp) && ClassOf(cs).COther?
    ensures Step(code, s, Run(p, i, stk)) == Run(if Passes(cs, false, s, i) then p + TestLen(cs, false) else p + off, i, stk)
  {
    hide Loaded, InBuffer, Buffer, ClassOf;
    var test := [Inst(ITestSet, 0), Off(off)];
    Split(code, p, test, Buffer(cs), rp);
    LoadedAt(code, p, test, rp, 0);
    LoadedAt(code, p, test, rp, 1);
    if i < |s| { LoadedBuffer(code, p + 2, cs, rp, s[i]); }
  }

  lemma TestStep(code: seq<Slot>, s: seq<Byte>, p: int, cs: Charset, off: int, rp: seq<int>, i: nat, stk: Stk)
    requires Loaded(code, p, TestCode(cs, false, Off(off)), rp) && !ClassOf(cs).COther?
    ensures Step(code, s, Run(p, i, stk)) == Run(if Passes(cs, false, s, i) then p + TestLen(cs, false) else p + off, i, stk)
  {
    hide Loaded, Buffer;
    ClassIs(cs);
    LoadedAt(code, p, TestCode(cs, false, Off(off)), rp, 0);
    LoadedAt(code, p, TestCode(cs, false, Off(off)), rp, 1);
  }

  lemma TestSize(cs: Charset, e: bool, off: int)
    ensures |TestCode(cs, e, Off(off))| == TestLen(cs, e)
  {
  }

  // ----- the contract of a piece of code -----

  /** Matching succeeded up to j.  Without opt the machine gets behind the code at j, or it backtracks
      where no continuation could succeed.  With opt it may also leave through the top choice. */
  ghost predicate Succeeds(code: seq<Slot>, s: seq<Byte>, a: State, q: int, j: nat, stk: Stk, opt: bool, fl: Charset) {
    if opt then
      stk.Choice? &&
      (Reaches(code, s, a, Run(stk.pc, j, stk.below)) ||
       exists x: nat :: Reaches(code, s, a, Run(q, j, Choice(stk.pc, x, stk.below))))
    else
      Reaches(code, s, a, Run(q, j, stk)) ||
      (j < |s| && s[j] !in fl && Reaches(code, s, a, Backtrack(stk)))
  }

  /** The machine, in state a, does what a match result o asks for; q is the place behind the code. */
  ghost predicate Gives(code: seq<Slot>, s: seq<Byte>, a: State, q: int, o: Outcome, stk: Stk, opt: bool, fl: Charset) {
    match o
    case Unknown => true
    case Fail => Reaches(code, s, a, Backtrack(stk))
    case Ok(j) => Succeeds(code, s, a, q, j, stk, opt, fl)
  }

  /** What comes first on the way may be put in front. */
  lemma From(code: seq<Slot>, s: seq<Byte>, a: State, b: State, q: int, o: Outcome, stk: Stk, opt: bool, fl: Charset)
    requires Reaches(code, s, a, b)
    requires Gives(code, s, b, q, o, stk, opt, fl)
    ensures Gives(code, s, a, q, o, stk, opt, fl)
  {
    if o.Fail? { Trans(code, s, a, b, Backtrack(stk)); }
    if o.Ok? {
      if opt {
        if Reaches(code, s, b, Run(stk.pc, o.pos, stk.below)) {
          Trans(code, s, a, b, Run(stk.pc, o.pos, stk.below));
        } else {
          var x: nat :| Reaches(code, s, b, Run(q, o.pos, Choice(stk.pc, x, stk.below)));
          Trans(code, s, a, b, Run(q, o.pos, Choice(stk.pc, x, stk.below)));
        }
      } else if Reaches(code, s, b, Run(q, o.pos, stk)) {
        Trans(code, s, a, b, Run(q, o.pos, stk));
      } else {
        Trans(code, s, a, b, Backtrack(stk));
      }
    }
  }

  /** Getting behind the code with the stack as it was is success in either mode. */
  lemma GetsBehind(code: seq<Slot>, s: seq<Byte>, a: State, q: int, j: nat, stk: Stk, opt: bool, fl: Charset)
    requires Reaches(code, s, a, Run(q, j, stk))
    requires opt ==> stk.Choice?
    ensures Gives(code, s, a, q, Ok(j), stk, opt, fl)
  {
  }

  // ----- choices -----

  function OrElse(o1: Outcome, o2: Outcome): Outcome { if o1.Fail? then o2 else o1 }

  lemma LayoutChoiceByTest(code: seq<Slot>, p: int, cs: Charset, b1: seq<Slot>, b2: seq<Slot>, empty2: bool, rp: seq<int>)
    returns (n: int, l: int, q: int)
    requires Loaded(code, p, ChoiceByTest(cs, b1, b2, empty2), rp)
    ensures n == p + TestLen(cs, false) && l == n + |b1| + (if empty2 then 0 else 2) && q == l + |b2|
    ensures q == p + |ChoiceByTest(cs, b1, b2, empty2)|
    ensures Loaded(code, p, TestCode(cs, false, Off(l - p)), rp)
    ensures Loaded(code, n, b1, rp) && Loaded(code, l, b2, rp)
    ensures !empty2 ==>
              IsOp(code, n + |b1|, IJmp) && HasOff(code, n + |b1|) && Target(code, n + |b1|) == q
  {
    hide TestCode;
    var jmp := if empty2 then [] else Jump(IJmp, 2 + |b2|);
    n := p + TestLen(cs, false);
    l := n + |b1| + |jmp|;
    q := l + |b2|;
    var tst := TestCode(cs, false, Off(l - p));
    TestSize(cs, false, l - p);
    Split(code, p, tst + b1 + jmp, b2, rp);
    Split(code, p, tst + b1, jmp, rp);
    Split(code, p, tst, b1, rp);
    if !empty2 { LoadedJump(code, n + |b1|, IJmp, 2 + |b2|, rp); }
  }

  lemma RunChoiceByTest(code: seq<Slot>, s: seq<Byte>, p: int, cs: Charset, b1: seq<Slot>, b2: seq<Slot>, empty2: bool,
                        rp: seq<int>, i: nat, stk: Stk, opt: bool, fl: Charset, o1: Outcome, o2: Outcome)
    requires Loaded(code, p, ChoiceByTest(cs, b1, b2, empty2), rp)
    requires empty2 ==> b2 == []
    requires opt ==> fl == FULL && stk.Choice?
    requires
      var n, l := p + TestLen(cs, false), p + TestLen(cs, false) + |b1| + (if empty2 then 0 else 2);
      if Passes(cs, false, s, i) then
        Gives(code, s, Run(n, i, stk), n + |b1|, o1, stk, false, fl) &&
        (o1.Fail? && o2.Ok? ==> o2.pos == i && s[i] !in fl)
      else
        !o1.Ok? && Gives(code, s, Run(l, i, stk), l + |b2|, o2, stk, opt, fl)
    ensures Gives(code, s, Run(p, i, stk), p + |ChoiceByTest(cs, b1, b2, empty2)|, OrElse(o1, o2), stk, opt, fl)
  {
    hide TestCode;
    var n, l, q := LayoutChoiceByTest(code, p, cs, b1, b2, empty2, rp);
    TestRuns(code, s, p, cs, false, l - p, rp, i, stk);
    var a := Run(p, i, stk);
    if Passes(cs, false, s, i) {
      From(code, s, a, Run(n, i, stk), n + |b1|, o1, stk, false, fl);
      if o1.Ok? && Reaches(code, s, a, Run(n + |b1|, o1.pos, stk)) {
        if !empty2 { Then(code, s, a, Run(n + |b1|, o1.pos, stk)); }
        GetsBehind(code, s, a, q, o1.pos, stk, opt, fl);
      }
    } else {
      From(code, s, a, Run(l, i, stk), q, o2, stk, opt, fl);
    }
  }

  lemma LayoutChoice(code: seq<Slot>, p: int, f: FirstInfo, b1: seq<Slot>, b2: seq<Slot>, rp: seq<int>)
    returns (n: int, c: int, l: int, q: int)
    requires Loaded(code, p, ChoiceByChoice(f, b1, b2), rp)
    ensures n == p + TestLen(f.cs, f.e) && c == n + 2 + |b1| && l == c + 2 && q == l + |b2|
    ensures q == p + |ChoiceByChoice(f, b1, b2)|
    ensures Loaded(code, p, TestCode(f.cs, f.e, Off(l - p)), rp)
    ensures IsOp(code, n, IChoice) && HasOff(code, n) && Target(code, n) == l
    ensures Loaded(code, n + 2, b1, rp) && Loaded(code, l, b2, rp)
    ensures IsOp(code, c, ICommit) && HasOff(code, c) && Target(code, c) == q
  {
    hide TestCode;
    n := p + TestLen(f.cs, f.e);
    c := n + 2 + |b1|;
    l, q := c + 2, c + 2 + |b2|;
    var tst := TestCode(f.cs, f.e, Off(l - p));
    TestSize(f.cs, f.e, l - p);
    Split(code, p, tst + Jump(IChoice, 2 + |b1| + 2) + b1 + Jump(ICommit, 2 + |b2|), b2, rp);
    Split(code, p, tst + Jump(IChoice, 2 + |b1| + 2) + b1, Jump(ICommit, 2 + |b2|), rp);
    Split(code, p, tst + Jump(IChoice, 2 + |b1| + 2), b1, rp);
    Split(code, p, tst, Jump(IChoice, 2 + |b1| + 2), rp);
    LoadedJump(code, n, IChoice, 2 + |b1| + 2, rp);
    LoadedJump(code, c, ICommit, 2 + |b2|, rp);
  }

  lemma RunChoice(code: seq<Slot>, s: seq<Byte>, p: int, f: FirstInfo, b1: seq<Slot>, b2: seq<Slot>, empty2: bool,
                  rp: seq<int>, i: nat, stk: Stk, opt: bool, fl: Charset, o1: Outcome, o2: Outcome)
    requires Loaded(code, p, ChoiceByChoice(f, b1, b2), rp)
    requires empty2 ==> b2 == []
    requires opt ==> fl == FULL && stk.Choice?
    requires
      var n, l := p + TestLen(f.cs, f.e), p + TestLen(f.cs, f.e) + 2 + |b1| + 2;
      && (if Passes(f.cs, f.e, s, i)
          then Gives(code, s, Run(n + 2, i, Choice(l, i, stk)), n + 2 + |b1|, o1, Choice(l, i, stk), empty2, FULL)
          else !o1.Ok?)
      && (o1.Fail? ==> Gives(code, s, Run(l, i, stk), l + |b2|, o2, stk, opt, fl))
    requires o1.Ok? && o1.pos < |s| ==> s[o1.pos] in FULL
    ensures Gives(code, s, Run(p, i, stk), p + |ChoiceByChoice(f, b1, b2)|, OrElse(o1, o2), stk, opt, fl)
  {
    hide TestCode;
    var n, c, l, q := LayoutChoice(code, p, f, b1, b2, rp);
    TestRuns(code, s, p, f.cs, f.e, l - p, rp, i, stk);
    var a, stk1 := Run(p, i, stk), Choice(l, i, stk);
    if Passes(f.cs, f.e, s, i) {
      Then(code, s, a, Run(n, i, stk));
      From(code, s, a, Run(n + 2, i, stk1), c, o1, stk1, empty2, FULL);
      if o1.Ok? {
        if empty2 && !Reaches(code, s, a, Run(l, o1.pos, stk)) {
          var x: nat :| Reaches(code, s, a, Run(c, o1.pos, Choice(l, x, stk)));
          Then(code, s, a, Run(c, o1.pos, Choice(l, x, stk)));
        } else if !empty2 {
          Then(code, s, a, Run(c, o1.pos, stk1));
        }
        GetsBehind(code, s, a, q, o1.pos, stk, opt, fl);
      }
    }
    if o1.Fail? { From(code, s, a, Run(l, i, stk), q, o2, stk, opt, fl); }
  }

  // ----- repetitions -----

  lemma LayoutLoopByTest(code: seq<Slot>, p: int, cs: Charset, b: seq<Slot>, rp: seq<int>)
    returns (n: int, j: int, q: int)
    requires Loaded(code, p, LoopByTest(cs, b), rp)
    ensures n == p + TestLen(cs, false) && j == n + |b| && q == j + 2 == p + |LoopByTest(cs, b)|
    ensures Loaded(code, p, TestCode(cs, false, Off(q - p)), rp) && Loaded(code, n, b, rp)
    ensures IsOp(code, j, IJmp) && HasOff(code, j) && Target(code, j) == p
  {
    hide TestCode;
    n := p + TestLen(cs, false);
    j := n + |b|;
    q := j + 2;
    var tst := TestCode(cs, false, Off(q - p));
    TestSize(cs, false, q - p);
    Split(code, p, tst + b, Jump(IJmp, p - j), rp);
    Split(code, p, tst, b, rp);
    LoadedJump(code, j, IJmp, p - j, rp);
  }

  /** One round of a loop guarded by a test; o is the result of the body, o' of the remaining rounds. */
  lemma RunLoopByTest(code: seq<Slot>, s: seq<Byte>, p: int, cs: Charset, b: seq<Slot>, rp: seq<int>, i: nat, stk: Stk,
                      opt: bool, fl: Charset, o: Outcome, o': Outcome)
    requires Loaded(code, p, LoopByTest(cs, b), rp)
    requires opt ==> fl == FULL && stk.Choice?
    requires
      var n, q := p + TestLen(cs, false), p + |LoopByTest(cs, b)|;
      if Passes(cs, false, s, i) then
        Gives(code, s, Run(n, i, stk), n + |b|, o, stk, false, FULL) && (o.Fail? ==> s[i] !in fl)
      else !o.Ok?
    requires o.Ok? ==> Gives(code, s, Run(p, o.pos, stk), p + |LoopByTest(cs, b)|, o', stk, opt, fl)
    requires o.Ok? && o.pos < |s| ==> s[o.pos] in FULL
    ensures Gives(code, s, Run(p, i, stk), p + |LoopByTest(cs, b)|,
                  if o.Fail? then Ok(i) else if o.Ok? then o' else Unknown, stk, opt, fl)
  {
    hide TestCode;
    var n, j, q := LayoutLoopByTest(code, p, cs, b, rp);
    TestRuns(code, s, p, cs, false, q - p, rp, i, stk);
    var a := Run(p, i, stk);
    if Passes(cs, false, s, i) {
      From(code, s, a, Run(n, i, stk), j, o, stk, false, FULL);
      if o.Ok? {
        Then(code, s, a, Run(j, o.pos, stk));
        From(code, s, a, Run(p, o.pos, stk), q, o', stk, opt, fl);
      }
    } else {
      GetsBehind(code, s, a, q, i, stk, opt, fl);
    }
  }

  lemma LayoutLoop(code: seq<Slot>, p: int, f: FirstInfo, opt: bool, b: seq<Slot>, rp: seq<int>)
    returns (n: int, c: int, q: int)
    requires Loaded(code, p, LoopByChoice(f, opt, b), rp)
    ensures n == p + TestLen(f.cs, f.e) && c == n + 2 + |b| && q == c + 2 == p + |LoopByChoice(f, opt, b)|
    ensures Loaded(code, p, TestCode(f.cs, f.e, Off(q - p)), rp) && Loaded(code, n + 2, b, rp)
    ensures IsOp(code, n, if opt then IPartialCommit else IChoice) && HasOff(code, n)
    ensures Target(code, n) == if opt then n + 2 else q
    ensures IsOp(code, c, IPartialCommit) && HasOff(code, c) && Target(code, c) == n + 2
  {
    hide TestCode;
    n := p + TestLen(f.cs, f.e);
    c := n + 2 + |b|;
    q := c + 2;
    var enter := if opt then Jump(IPartialCommit, 2) else Jump(IChoice, 2 + |b| + 2);
    var tst := TestCode(f.cs, f.e, Off(q - p));
    TestSize(f.cs, f.e, q - p);
    Split(code, p, tst + enter + b, Jump(IPartialCommit, -|b|), rp);
    Split(code, p, tst + enter, b, rp);
    Split(code, p, tst, enter, rp);
    if opt { LoadedJump(code, n, IPartialCommit, 2, rp); } else { LoadedJump(code, n, IChoice, 2 + |b| + 2, rp); }
    LoadedJump(code, c, IPartialCommit, -|b|, rp);
  }

  // ----- predicates -----

  lemma RunNotByTest(code: seq<Slot>, s: seq<Byte>, p: int, f: FirstInfo, rp: seq<int>, i: nat, stk: Stk, opt: bool, fl: Charset)
    requires Loaded(code, p, NotByTest(f), rp)
    requires opt ==> stk.Choice?
    ensures Gives(code, s, Run(p, i, stk), p + |NotByTest(f)|, if Passes(f.cs, f.e, s, i) then Fail else Ok(i), stk, opt, fl)
  {
    hide TestCode, Loaded;
    var n := TestLen(f.cs, f.e);
    TestSize(f.cs, f.e, n + 1);
    Split(code, p, TestCode(f.cs, f.e, Off(n + 1)), [Inst(IFail, 0)], rp);
    LoadedInst(code, p + n, IFail, 0, rp);
    TestRuns(code, s, p, f.cs, f.e, n + 1, rp, i, stk);
    if Passes(f.cs, f.e, s, i) { Then(code, s, Run(p, i, stk), Run(p + n, i, stk)); }
    else { GetsBehind(code, s, Run(p, i, stk), p + n + 1, i, stk, opt, fl); }
  }

  lemma LayoutNot(code: seq<Slot>, p: int, f: FirstInfo, b: seq<Slot>, rp: seq<int>)
    returns (n: int, c: int, q: int)
    requires Loaded(code, p, NotByChoice(f, b), rp)
    ensures n == p + TestLen(f.cs, f.e) && c == n + 2 + |b| && q == c + 1 == p + |NotByChoice(f, b)|
    ensures Loaded(code, p, TestCode(f.cs, f.e, Off(q - p)), rp) && Loaded(code, n + 2, b, rp)
    ensures IsOp(code, n, IChoice) && HasOff(code, n) && Target(code, n) == q && IsOp(code, c, IFailTwice)
  {
    hide TestCode;
    n := p + TestLen(f.cs, f.e);
    c := n + 2 + |b|;
    q := c + 1;
    var tst := TestCode(f.cs, f.e, Off(q - p));
    TestSize(f.cs, f.e, q - p);
    Split(code, p, tst + Jump(IChoice, 2 + |b| + 1) + b, [Inst(IFailTwice, 0)], rp);
    Split(code, p, tst + Jump(IChoice, 2 + |b| + 1), b, rp);
    Split(code, p, tst, Jump(IChoice, 2 + |b| + 1), rp);
    LoadedJump(code, n, IChoice, 2 + |b| + 1, rp);
    LoadedInst(code, c, IFailTwice, 0, rp);
  }

  function Negated(o: Outcome, i: nat): Outcome { if o.Fail? then Ok(i) else if o.Ok? then Fail else Unknown }

  lemma RunNot(code: seq<Slot>, s: seq<Byte>, p: int, f: FirstInfo, b: seq<Slot>, rp: seq<int>, i: nat, stk: Stk,
               opt: bool, fl: Charset, o: Outcome)
    requires Loaded(code, p, NotByChoice(f, b), rp)
    requires opt ==> stk.Choice?
    requires
      var n, q := p + TestLen(f.cs, f.e), p + |NotByChoice(f, b)|;
      if Passes(f.cs, f.e, s, i)
      then Gives(code, s, Run(n + 2, i, Choice(q, i, stk)), n + 2 + |b|, o, Choice(q, i, stk), false, FULL)
      else !o.Ok?
    requires o.Ok? && o.pos < |s| ==> s[o.pos] in FULL
    ensures Gives(code, s, Run(p, i, stk), p + |NotByChoice(f, b)|, Negated(o, i), stk, opt, fl)
  {
    hide TestCode;
    var n, c, q := LayoutNot(code, p, f, b, rp);
    TestRuns(code, s, p, f.cs, f.e, q - p, rp, i, stk);
    var a, stk' := Run(p, i, stk), Choice(q, i, stk);
    if Passes(f.cs, f.e, s, i) {
      Then(code, s, a, Run(n, i, stk));
      From(code, s, a, Run(n + 2, i, stk'), c, o, stk', false, FULL);
      if o.Ok? { Then(code, s, a, Run(c, o.pos, stk')); }
    }
    if o.Fail? { GetsBehind(code, s, a, q, i, stk, opt, fl); }
  }

  lemma LayoutAnd(code: seq<Slot>, p: int, b: seq<Slot>, rp: seq<int>) returns (c: int, q: int)
    requires Loaded(code, p, AndByChoice(b), rp)
    ensures c == p + 2 + |b| && q == c + 3 == p + |AndByChoice(b)|
    ensures IsOp(code, p, IChoice) && HasOff(code, p) && Target(code, p) == q - 1
    ensures Loaded(code, p + 2, b, rp)
    ensures IsOp(code, c, IBackCommit) && HasOff(code, c) && Target(code, c) == q && IsOp(code, q - 1, IFail)
  {
    c := p + 2 + |b|;
    q := c + 3;
    Split(code, p, Jump(IChoice, 2 + |b| + 2) + b + Jump(IBackCommit, 3), [Inst(IFail, 0)], rp);
    Split(code, p, Jump(IChoice, 2 + |b| + 2) + b, Jump(IBackCommit, 3), rp);
    Split(code, p, Jump(IChoice, 2 + |b| + 2), b, rp);
    LoadedJump(code, p, IChoice, 2 + |b| + 2, rp);
    LoadedJump(code, c, IBackCommit, 3, rp);
    LoadedInst(code, q - 1, IFail, 0, rp);
  }

  function BackTo(o: Outcome, i: nat): Outcome { if o.Ok? then Ok(i) else o }

  lemma RunAnd(code: seq<Slot>, s: seq<Byte>, p: int, b: seq<Slot>, rp: seq<int>, i: nat, stk: Stk,
               opt: bool, fl: Charset, o: Outcome)
    requires Loaded(code, p, AndByChoice(b), rp)
    requires opt ==> stk.Choice?
    requires
      var stk' := Choice(p + |AndByChoice(b)| - 1, i, stk);
      Gives(code, s, Run(p + 2, i, stk'), p + 2 + |b|, o, stk', false, FULL)
    requires o.Ok? && o.pos < |s| ==> s[o.pos] in FULL
    ensures Gives(code, s, Run(p, i, stk), p + |AndByChoice(b)|, BackTo(o, i), stk, opt, fl)
  {
    var c, q := LayoutAnd(code, p, b, rp);
    var a, stk' := Run(p, i, stk), Choice(q - 1, i, stk);
    One(code, s, a);
    From(code, s, a, Run(p + 2, i, stk'), c, o, stk', false, FULL);
    if o.Ok? {
      Then(code, s, a, Run(c, o.pos, stk'));
      GetsBehind(code, s, a, q, i, stk, opt, fl);
    } else if o.Fail? {
      Then(code, s, a, Run(q - 1, i, stk));
    }
  }

  /** b; behind n, for a body that takes exactly n characters. */
  lemma RunThenBack(code: seq<Slot>, s: seq<Byte>, p: int, b: seq<Slot>, n: nat, rp: seq<int>, i: nat, stk: Stk,
                    opt: bool, fl: Charset, o: Outcome)
    requires Loaded(code, p, b + (if n > 0 then [Inst(IBehind, n)] else []), rp)
    requires opt ==> stk.Choice?
    requires Gives(code, s, Run(p, i, stk), p + |b|, o, stk, false, FULL)
    requires o.Ok? ==> o.pos == i + n
    requires o.Ok? && o.pos < |s| ==> s[o.pos] in FULL
    ensures Gives(code, s, Run(p, i, stk), p + |b| + (if n > 0 then 1 else 0), BackTo(o, i), stk, opt, fl)
  {
    var back := if n > 0 then [Inst(IBehind, n)] else [];
    Split(code, p, b, back, rp);
    var a := Run(p, i, stk);
    if o.Ok? {
      if n > 0 {
        LoadedInst(code, p + |b|, IBehind, n, rp);
        Then(code, s, a, Run(p + |b|, o.pos, stk));
      }
      GetsBehind(code, s, a, p + |b| + |back|, i, stk, opt, fl);
    }
  }

  /** behind n; b, for a body that takes exactly n characters. */
  lemma RunBehind(code: seq<Slot>, s: seq<Byte>, p: int, b: seq<Slot>, n: nat, rp: seq<int>, i: nat, stk: Stk,
                  opt: bool, fl: Charset, o: Outcome)
    requires Loaded(code, p, (if n > 0 then [Inst(IBehind, n)] else []) + b, rp)
    requires opt ==> stk.Choice?
    requires
      var p' := p + (if n > 0 then 1 else 0);
      n <= i ==> Gives(code, s, Run(p', i - n, stk), p' + |b|, o, stk, false, FULL)
    requires n <= i && o.Ok? ==> o.pos == i && (i < |s| ==> s[i] in FULL)
    ensures Gives(code, s, Run(p, i, stk), p + (if n > 0 then 1 else 0) + |b|,
                  if n > i then Fail else BackTo(o, i), stk, opt, fl)
  {
    var back := if n > 0 then [Inst(IBehind, n)] else [];
    Split(code, p, back, b, rp);
    var a := Run(p, i, stk);
    Stay(code, s, a);
    if n > 0 {
      LoadedInst(code, p, IBehind, n, rp);
      One(code, s, a);
    }
    if n <= i {
      From(code, s, a, Run(p + |back|, i - n, stk), p + |back| + |b|, o, stk, false, FULL);
      if o.Ok? { GetsBehind(code, s, a, p + |back| + |b|, i, stk, opt, fl); }
    }
  }
}
