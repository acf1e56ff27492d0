/** The pass of peephole over slots as they lie in memory, once as it is meant (a jump that has become a
    commit is looked at again) and once as it is written: after i-- the loop adds the size of the slot in
    front (lpcode.c:905-944), which need not be an instruction.  Both go the same way exactly if that
    slot counts as one.

    An instruction shares its slot with an offset of 32 bits and with four bytes of a character set; its
    opcode is the lowest byte.  What addinstruction leaves unwritten is not read as an offset. */
module PegPass {
  import opened Wrappers
  import opened PegTree
  import opened PegMachine
  import opened PegCode
  import opened PegClose
  import opened PegThread

  // ----- slots in memory -----

  /** The instruction of an opcode; giveup and captures, which the pass steps over, count as IAny. */
  function OpOf(n: nat): Opcode {
    match n
    case 1 => IChar
    case 2 => ISet
    case 3 => ITestAny
    case 4 => ITestChar
    case 5 => ITestSet
    case 6 => ISpan
    case 7 => IBehind
    case 8 => IRet
    case 9 => IEnd
    case 10 => IChoice
    case 11 => IJmp
    case 12 => ICall
    case 13 => IOpenCall
    case 14 => ICommit
    case 15 => IPartialCommit
    case 16 => IBackCommit
    case 17 => IFailTwice
    case 18 => IFail
    case _ => IAny
  }

  predicate HasBit(cs: Charset, k: nat) { exists c :: c in cs && c % 32 == k }

  /** The bits of a part of a character set from the k-th on, as a number. */
  function Bits(cs: Charset, k: nat): nat
    decreases 32 - k
  {
    if k >= 32 then 0 else (if HasBit(cs, k) then 1 else 0) + 2 * Bits(cs, k + 1)
  }

  /** ... read as a signed offset. */
  function Word(cs: Charset): int { Bits(cs, 0) - if HasBit(cs, 31) then 0x1_0000_0000 else 0 }

  function RawOff(x: Slot): Option<int> {
    match x
    case Off(d) => Some(d)
    case Buf(cs) => Some(Word(cs))
    case _ => None
  }

  function RawOp(x: Slot): Opcode {
    if x.Inst? then x.op else if RawOff(x).Some? then OpOf(RawOff(x).value % 256) else IAny
  }

  function RawSize(x: Slot): nat { SizeI(RawOp(x)) }

  // ----- jumps in memory -----

  predicate RawHasOff(c: seq<Slot>, i: int) { 0 <= i && i + 1 < |c| && RawOff(c[i + 1]).Some? }

  function RawTarget(c: seq<Slot>, i: int): int
    requires RawHasOff(c, i)
  {
    i + RawOff(c[i + 1]).value
  }

  predicate Jumping(c: seq<Slot>, i: int) { RawHasOff(c, i) && RawOp(c[i]) == IJmp }

  predicate Resting(c: seq<Slot>, i: int) { 0 <= i < |c| && RawOp(c[i]) != IJmp }

  predicate Chases(c: seq<Slot>, i: int, j: int, n: nat)
    decreases n
  {
    if n == 0 then i == j else Jumping(c, i) && Chases(c, RawTarget(c, i), j, n - 1)
  }

  ghost predicate RestsAt(c: seq<Slot>, i: int, j: int) { Resting(c, j) && exists n: nat :: Chases(c, i, j, n) }

  ghost predicate StraysAt(c: seq<Slot>, i: int, j: int) {
    !Resting(c, j) && !Jumping(c, j) && exists n: nat :: Chases(c, i, j, n)
  }

  datatype Landing = Lands(j: int) | Endless | Lost

  /** What finaltarget does: it ends behind the jumps, never ends, or reads what was never written. */
  ghost function Final(c: seq<Slot>, i: int): Landing {
    if exists j :: RestsAt(c, i, j) then (var j :| RestsAt(c, i, j); Lands(j))
    else if exists j :: StraysAt(c, i, j) then Lost
    else Endless
  }

  ghost function FinalOfLabel(c: seq<Slot>, i: int): Landing {
    if RawHasOff(c, i) then Final(c, RawTarget(c, i)) else Lost
  }

  // ----- the pass -----

  /** The loop looks at slot i (all is done if there is none), is caught in finaltarget, or reads or
      writes what is not the program's. */
  datatype Pass = At(code: seq<Slot>, i: nat) | Hangs | Stray

  ghost function Onward(l: Landing, p: Pass): Pass {
    match l
    case Lands(_) => p
    case Endless => Hangs
    case Lost => Stray
  }

  /** Where the loop goes on when the jump at i has become a commit. */
  function AfterCommit(written: bool, d: seq<Slot>, i: nat): Pass
    requires i < |d|
  {
    if !written then At(d, i) else if i == 0 then Stray else At(d, i - 1 + RawSize(d[i - 1]))
  }

  lemma MeantStays(d: seq<Slot>, i: nat)
    requires i < |d|
    ensures AfterCommit(false, d, i) == At(d, i)
  {
  }

  ghost function PassStep(written: bool, p: Pass): Pass {
    if p.At? && p.i < |p.code| then
      if HasLabel(RawOp(p.code[p.i])) then PassLabel(p.code, p.i)
      else if RawOp(p.code[p.i]) == IJmp then PassJump(written, p.code, p.i)
      else At(p.code, p.i + RawSize(p.code[p.i]))
    else p
  }

  ghost function PassLabel(c: seq<Slot>, i: nat): Pass
    requires i < |c|
  {
    var l := FinalOfLabel(c, i);
    if l.Lands? then At(c[i + 1 := Off(l.j - i)], i + RawSize(c[i])) else Onward(l, Stray)
  }

  ghost predicate TurnsCommit(c: seq<Slot>, i: nat) {
    var l := Final(c, i);
    && Jumping(c, i) && l.Lands? && 0 <= l.j < |c| && Commits(RawOp(c[l.j])) && FinalOfLabel(c, l.j).Lands?
  }

  ghost function PassJump(written: bool, c: seq<Slot>, i: nat): Pass
    requires i < |c|
  {
    var l := Final(c, i);
    if !l.Lands? then Onward(l, Stray)
    else if !(i + 1 < |c| && 0 <= l.j < |c|) then Stray
    else if Leaves(RawOp(c[l.j])) then At(c[i := c[l.j]][i + 1 := Inst(IAny, 0)], i + RawSize(c[l.j]))
    else if Commits(RawOp(c[l.j])) then
      var ll := FinalOfLabel(c, l.j);
      if ll.Lands? then AfterCommit(written, c[i := c[l.j]][i + 1 := Off(ll.j - i)], i) else Onward(ll, Stray)
    else At(c[i + 1 := Off(l.j - i)], i + RawSize(c[i]))
  }

  ghost function PassRun(written: bool, c: seq<Slot>, n: nat): Pass {
    if n == 0 then At(c, 0) else PassStep(written, PassRun(written, c, n - 1))
  }

  /** The pass over c ends and leaves d. */
  ghost predicate PassEnds(written: bool, c: seq<Slot>, d: seq<Slot>) {
    exists n: nat :: PassRun(written, c, n) == At(d, |d|)
  }

  // ----- when both are the same -----

  /** A jump that becomes a commit has a slot of size one in front. */
  ghost predicate StepsBack(p: Pass) {
    p.At? && p.i < |p.code| && TurnsCommit(p.code, p.i) ==> p.i > 0 && RawSize(p.code[p.i - 1]) == 1
  }

  ghost predicate AlwaysStepsBack(c: seq<Slot>) { forall n: nat :: StepsBack(PassRun(false, c, n)) }

  ghost predicate SamePasses(c: seq<Slot>) { forall n: nat :: PassRun(true, c, n) == PassRun(false, c, n) }

  lemma SameStep(p: Pass)
    ensures PassStep(true, p) == PassStep(false, p) <==> StepsBack(p)
  {
    if p.At? && p.i < |p.code| && RawOp(p.code[p.i]) == IJmp && Final(p.code, p.i).Lands? { LandsIn(p.code, p.i); }
  }

  lemma LandsIn(c: seq<Slot>, i: nat)
    requires i < |c| && RawOp(c[i]) == IJmp && Final(c, i).Lands?
    ensures Jumping(c, i) && Resting(c, Final(c, i).j)
  {
    var j := Final(c, i).j;
    assert RestsAt(c, i, j);
    var n: nat :| Chases(c, i, j, n);
  }

  /** The pass as written and the pass as meant go the same way if and only if each jump that is turned
      into a commit has a slot in front that counts as one. */
  lemma SamePass(c: seq<Slot>)
    ensures SamePasses(c) <==> AlwaysStepsBack(c)
  {
    hide PassRun, PassStep, StepsBack;
    if SamePasses(c) {
      forall n: nat ensures StepsBack(PassRun(false, c, n)) { BackSoFar(c, n); }
    }
    if AlwaysStepsBack(c) {
      forall n: nat ensures PassRun(true, c, n) == PassRun(false, c, n) { SameSoFar(c, n); }
    }
  }

  lemma RunNext(written: bool, c: seq<Slot>, n: nat)
    ensures PassRun(written, c, n + 1) == PassStep(written, PassRun(written, c, n))
  {
  }

  lemma BackSoFar(c: seq<Slot>, n: nat)
    requires SamePasses(c)
    ensures StepsBack(PassRun(false, c, n))
  {
    hide PassRun, PassStep, StepsBack;
    RunNext(true, c, n);
    RunNext(false, c, n);
    assert PassRun(true, c, n) == PassRun(false, c, n) && PassRun(true, c, n + 1) == PassRun(false, c, n + 1);
    SameStep(PassRun(false, c, n));
  }

  lemma {:induction false} SameSoFar(c: seq<Slot>, n: nat)
    requires AlwaysStepsBack(c)
    ensures PassRun(true, c, n) == PassRun(false, c, n)
  {
    if n > 0 {
      SameSoFar(c, n - 1);
      SameStep(PassRun(false, c, n - 1));
    }
  }

  // ----- jumps of a program -----

  lemma {:induction false} JumpsChase(c: seq<Slot>, i: int, j: int, n: nat)
    requires JumpsIn(c, i, j, n)
    ensures Chases(c, i, j, n)
    decreases n
  {
    if n > 0 { JumpsChase(c, Target(c, i), j, n - 1); }
  }

  lemma {:induction false} OneRest(c: seq<Slot>, i: int, j: int, n: nat, k: int, m: nat)
    requires Chases(c, i, j, n) && Chases(c, i, k, m) && Resting(c, j) && Resting(c, k)
    ensures j == k
    decreases n
  {
    if n > 0 && m > 0 { OneRest(c, RawTarget(c, i), j, n - 1, k, m - 1); }
  }

  lemma FinalIs(c: seq<Slot>, i: int, j: int)
    requires JumpsTo(c, i, j) && Stops(c, j)
    ensures Final(c, i) == Lands(j)
  {
    var n: nat :| JumpsIn(c, i, j, n);
    JumpsChase(c, i, j, n);
    assert RestsAt(c, i, j);
    var k := Final(c, i).j;
    assert RestsAt(c, i, k);
    var m: nat :| Chases(c, i, k, m);
    OneRest(c, i, j, n, k, m);
  }

  // ----- the pass over a program -----

  lemma PassesLabel(written: bool, c: seq<Slot>, i: nat, ft: int)
    requires i < |c| && c[i].Inst? && HasLabel(c[i].op) && HasOff(c, i) && JumpsTo(c, Target(c, i), ft) && Stops(c, ft)
    ensures PassStep(written, At(c, i)) == At(c[i + 1 := Off(ft - i)], i + SizeI(c[i].op))
  {
    FinalIs(c, Target(c, i), ft);
    hide Final, SizeI;
  }

  lemma PassesLeave(written: bool, c: seq<Slot>, i: nat, ft: int)
    requires IsOp(c, i, IJmp) && HasOff(c, i) && JumpsTo(c, i, ft) && Stops(c, ft) && Leaves(c[ft].op)
    ensures PassStep(written, At(c, i)) == At(c[i := c[ft]][i + 1 := Inst(IAny, 0)], i + SizeI(c[ft].op))
  {
    FinalIs(c, i, ft);
    hide Final, SizeI;
  }

  lemma PassesCommit(written: bool, c: seq<Slot>, i: nat, ft: int, fft: int)
    requires IsOp(c, i, IJmp) && HasOff(c, i) && JumpsTo(c, i, ft) && Stops(c, ft) && Commits(c[ft].op)
    requires HasOff(c, ft) && JumpsTo(c, Target(c, ft), fft) && Stops(c, fft)
    ensures PassStep(written, At(c, i)) == AfterCommit(written, c[i := c[ft]][i + 1 := Off(fft - i)], i)
  {
    FinalIs(c, i, ft);
    FinalIs(c, Target(c, ft), fft);
    hide Final, SizeI;
  }

  lemma PassesJump(written: bool, c: seq<Slot>, i: nat, ft: int)
    requires IsOp(c, i, IJmp) && HasOff(c, i) && JumpsTo(c, i, ft) && Stops(c, ft)
    requires !Leaves(c[ft].op) && !Commits(c[ft].op)
    ensures PassStep(written, At(c, i)) == At(c[i + 1 := Off(ft - i)], i + SizeI(c[i].op))
  {
    FinalIs(c, i, ft);
    hide Final, SizeI;
  }

  lemma PassesOther(written: bool, c: seq<Slot>, i: nat)
    requires i < |c| && c[i].Inst? && !HasLabel(c[i].op) && c[i].op != IJmp
    ensures PassStep(written, At(c, i)) == At(c, i + SizeI(c[i].op))
  {
  }

  lemma PassStarts(c: seq<Slot>)
    ensures PassRun(false, c, 0) == At(c, 0)
  {
  }

  /** One turn of the loop. */
  lemma PassTurns(c0: seq<Slot>, c: seq<Slot>, i: nat, d: seq<Slot>, j: nat, n: nat)
    requires PassRun(false, c0, n) == At(c, i) && PassStep(false, At(c, i)) == At(d, j)
    ensures PassRun(false, c0, n + 1) == At(d, j)
  {
  }

  lemma PassDone(c: seq<Slot>, d: seq<Slot>, n: nat)
    requires PassRun(false, c, n) == At(d, |d|)
    ensures PassEnds(false, c, d) && (AlwaysStepsBack(c) ==> PassEnds(true, c, d))
  {
    hide PassRun;
    if AlwaysStepsBack(c) { SamePass(c); }
  }
}
