/** rev of dict.c, bit for bit: reverse a 64-bit word by swapping ever smaller blocks. */
module WordReverse {
  import opened Division
  import opened ReverseBits

  function Bit(v: bv64, i: bv64): bv64
    requires i < 64
  {
    (v >> i) & 1
  }

  /** Words whose low s bits of each 2 s bits are set. */
  predicate BlockMask(s: bv64, mask: bv64) {
    (s == 32 && mask == 0x0000_0000_FFFF_FFFF) || (s == 16 && mask == 0x0000_FFFF_0000_FFFF)
    || (s == 8 && mask == 0x00FF_00FF_00FF_00FF) || (s == 4 && mask == 0x0F0F_0F0F_0F0F_0F0F)
    || (s == 2 && mask == 0x3333_3333_3333_3333) || (s == 1 && mask == 0x5555_5555_5555_5555)
  }

  function HalfSize(s: bv64): bv64 { s >> 1 }

  function FinerMask(mask: bv64, s: bv64): bv64
    requires s < 64
  {
    mask ^ (mask << s)
  }

  function Flip(x: bv64, s: bv64): bv64 { x ^ s }

  function Swapped(v: bv64, s: bv64, mask: bv64): bv64
    requires s < 64
  {
    ((v >> s) & mask) | ((v << s) & !mask)
  }

  lemma Swap32(v: bv64, i: bv64)
    requires i < 64
    ensures i ^ 32 < 64 && Bit(Swapped(v, 32, 0x0000_0000_FFFF_FFFF), i) == Bit(v, i ^ 32)
  {
  }

  lemma Swap16(v: bv64, i: bv64)
    requires i < 64
    ensures i ^ 16 < 64 && Bit(Swapped(v, 16, 0x0000_FFFF_0000_FFFF), i) == Bit(v, i ^ 16)
  {
  }

  lemma Swap8(v: bv64, i: bv64)
    requires i < 64
    ensures i ^ 8 < 64 && Bit(Swapped(v, 8, 0x00FF_00FF_00FF_00FF), i) == Bit(v, i ^ 8)
  {
  }

  lemma Swap4(v: bv64, i: bv64)
    requires i < 64
    ensures i ^ 4 < 64 && Bit(Swapped(v, 4, 0x0F0F_0F0F_0F0F_0F0F), i) == Bit(v, i ^ 4)
  {
  }

  lemma Swap2(v: bv64, i: bv64)
    requires i < 64
    ensures i ^ 2 < 64 && Bit(Swapped(v, 2, 0x3333_3333_3333_3333), i) == Bit(v, i ^ 2)
  {
  }

  lemma Swap1(v: bv64, i: bv64)
    requires i < 64
    ensures i ^ 1 < 64 && Bit(Swapped(v, 1, 0x5555_5555_5555_5555), i) == Bit(v, i ^ 1)
  {
  }

  /** Swapping the blocks of s bits exchanges the bits whose numbers differ by s. */
  lemma SwapBit(v: bv64, s: bv64, mask: bv64, i: bv64)
    requires BlockMask(s, mask) && i < 64
    ensures i ^ s < 64 && Bit(Swapped(v, s, mask), i) == Bit(v, i ^ s)
  {
    if s == 32 { Swap32(v, i); }
    else if s == 16 { Swap16(v, i); }
    else if s == 8 { Swap8(v, i); }
    else if s == 4 { Swap4(v, i); }
    else if s == 2 { Swap2(v, i); }
    else { Swap1(v, i); }
  }

  lemma FlipBits(i: bv64, x: bv64, s: bv64)
    requires i < 64 && x < 64 && s < 64
    ensures i ^ x < 64 && (i ^ s) ^ x == i ^ Flip(x, s) && i ^ s < 64 && Flip(x, s) < 64
  {
  }

  /** Block size, mask and the bits flipped so far, from step to step. */
  predicate Stage(s: bv64, mask: bv64, x: bv64) {
    (s == 64 && mask == 0xFFFF_FFFF_FFFF_FFFF && x == 0)
    || (BlockMask(s, mask) && ((s == 32 && x == 32) || (s == 16 && x == 48) || (s == 8 && x == 56) || (s == 4 && x == 60)
                               || (s == 2 && x == 62) || (s == 1 && x == 63)))
  }

  lemma NextStage(s: bv64, mask: bv64, x: bv64)
    requires Stage(s, mask, x) && s > 1
    ensures
      var s' := HalfSize(s);
      s' < s && s' < 64 && BlockMask(s', FinerMask(mask, s')) && Stage(s', FinerMask(mask, s'), Flip(x, s'))
  {
    if s == 64 { assert s >> 1 == 32; }
    else if s == 32 { assert s >> 1 == 16; }
    else if s == 16 { assert s >> 1 == 8; }
    else if s == 8 { assert s >> 1 == 4; }
    else if s == 4 { assert s >> 1 == 2; }
    else { assert s >> 1 == 1; }
  }

  lemma LastStage(s: bv64, mask: bv64, x: bv64)
    requires Stage(s, mask, x) && s <= 1
    ensures x == 63
  {
  }

  /** Bit i of w is bit i ^ x of v. */
  ghost predicate Moved(v: bv64, w: bv64, x: bv64) {
    x < 64 && forall i: bv64 {:trigger Bit(w, i)} :: i < 64 ==> i ^ x < 64 && Bit(w, i) == Bit(v, i ^ x)
  }

  lemma MovedOn(v: bv64, w: bv64, x: bv64, s: bv64, mask: bv64)
    requires Moved(v, w, x) && BlockMask(s, mask) && s < 64
    ensures Moved(v, Swapped(w, s, mask), Flip(x, s))
  {
    hide Swapped, Bit, BlockMask, Flip;
    FlipBits(0, x, s);
    forall i: bv64 | i < 64
      ensures i ^ Flip(x, s) < 64 && Bit(Swapped(w, s, mask), i) == Bit(v, i ^ Flip(x, s))
    {
      SwapBit(w, s, mask, i);
      FlipBits(i, x, s);
      FlipBits(i, Flip(x, s), 0);
    }
  }

  /** Reverse the bits of a word. */
  method Reverse(v: bv64) returns (r: bv64)
    ensures forall i: bv64 :: i < 64 ==> Bit(r, i) == Bit(v, 63 - i)
    ensures Number(r) == Rev(64, Number(v))
  {
    r := v;
    var s: bv64 := 64;
    var mask: bv64 := 0xFFFF_FFFF_FFFF_FFFF;
    ghost var x: bv64 := 0;
    NotMoved(v);
    hide Stage, Moved, BlockMask, Bit, HalfSize, FinerMask, Flip, Swapped, Rev, Number;
    assert Stage(s, mask, x) by { FirstStage(); }
    while s > 1
      invariant Stage(s, mask, x) && Moved(v, r, x)
      decreases s
    {
      NextStage(s, mask, x);
      s := HalfSize(s);
      mask := FinerMask(mask, s);
      MovedOn(v, r, x, s, mask);
      r := Swapped(r, s, mask);
      x := Flip(x, s);
    }
    LastStage(s, mask, x);
    AllReversed(v, r);
    NumberReversed(v, r);
  }

  lemma FirstStage()
    ensures Stage(64, 0xFFFF_FFFF_FFFF_FFFF, 0)
  {
  }

  lemma NotMoved(v: bv64)
    ensures Moved(v, v, 0)
  {
    forall i: bv64 {:trigger Bit(v, i)} | i < 64 ensures i ^ 0 < 64 && Bit(v, i) == Bit(v, i ^ 0) { assert i ^ 0 == i; }
  }

  lemma AllReversed(v: bv64, r: bv64)
    requires Moved(v, r, 63)
    ensures forall i: bv64 :: i < 64 ==> Bit(r, i) == Bit(v, 63 - i)
  {
    forall i: bv64 | i < 64 ensures Bit(r, i) == Bit(v, 63 - i) { Mirror(i); }
  }

  lemma Mirror(i: bv64)
    requires i < 64
    ensures i ^ 63 == 63 - i
  {
  }

  // ----- words as numbers -----

  /** The place of a bit as a number. */
  function Place(i: bv64): nat
    requires i <= 64
  {
    if Zero(i) then 0 else 1 + Place(Pred(i))
  }

  predicate Zero(i: bv64) { i == 0 }

  function Pred(i: bv64): (j: bv64)
    requires !Zero(i)
    ensures j < i
  {
    i - 1
  }

  function Succ(i: bv64): (j: bv64)
    requires i < 64
    ensures i < j <= 64 && !Zero(j) && Pred(j) == i && 64 - j < 64 - i
  {
    i + 1
  }

  function One(v: bv64, i: bv64): nat
    requires i < 64
  {
    if Bit(v, i) == 1 then 1 else 0
  }

  /** The number that bits i to 63 of a word stand for. */
  function From(v: bv64, i: bv64): nat
    requires i <= 64
    decreases 64 - i
  {
    if i >= 64 then 0 else One(v, i) + 2 * From(v, Succ(i))
  }

  /** The number that a word stands for. */
  function Number(v: bv64): nat { From(v, 0) }

  function Across(i: bv64): (j: bv64)
    requires i < 64
    ensures j < 64
  {
    63 - i
  }

  lemma PlaceSucc(i: bv64)
    requires i < 64
    ensures Place(Succ(i)) == Place(i) + 1
  {
  }

  function Plus(a: bv64, b: bv64): (c: bv64)
    requires a <= 32 && b <= 32
    ensures c <= 64
  {
    a + b
  }

  lemma PlusZero(a: bv64, b: bv64)
    requires a <= 32 && b <= 32
    ensures Zero(b) ==> Plus(a, b) == a
    ensures !Zero(b) ==> Pred(b) <= 32 && !Zero(Plus(a, b)) && Pred(Plus(a, b)) == Plus(a, Pred(b))
  {
  }

  lemma {:induction false} PlacePlus(a: bv64, b: bv64)
    requires a <= 32 && b <= 32
    ensures Place(Plus(a, b)) == Place(a) + Place(b)
    decreases b
  {
    hide Plus, Zero, Pred;
    PlusZero(a, b);
    if !Zero(b) { PlacePlus(a, Pred(b)); }
  }

  lemma Doubles()
    ensures Plus(1, 1) == 2 && Plus(2, 2) == 4 && Plus(4, 4) == 8 && Plus(8, 8) == 16 && Plus(16, 16) == 32
    ensures Plus(32, 32) == 64 && !Zero(1) && Zero(0) && Pred(1) == 0 && !Zero(64) && Pred(64) == 63
  {
  }

  lemma PlaceEnd()
    ensures Place(64) == 64 && Place(63) == 63
  {
    hide Plus, Zero, Pred;
    Doubles();
    PlacePlus(1, 1);
    PlacePlus(2, 2);
    PlacePlus(4, 4);
    PlacePlus(8, 8);
    PlacePlus(16, 16);
    PlacePlus(32, 32);
    assert Place(1) == 1;
  }

  lemma AcrossPred(i: bv64)
    requires i < 64
    ensures if Zero(i) then Across(i) == 63 else !Zero(Pred(i)) || Pred(i) == 0
    ensures !Zero(i) ==> Succ(Across(i)) == Across(Pred(i))
  {
  }

  lemma {:induction false} PlaceAcross(i: bv64)
    requires i < 64
    ensures Place(Across(i)) + Place(i) == 63
    decreases i
  {
    hide Zero, Pred, Across, Succ;
    AcrossPred(i);
    if Zero(i) {
      PlaceEnd();
    } else {
      PlaceAcross(Pred(i));
      PlaceSucc(Across(i));
    }
  }

  /** Dividing by a power of two drops bits. */
  lemma {:induction false} Drop(v: bv64, i: bv64)
    requires i <= 64
    ensures Div(Number(v), P(Place(i))) == From(v, i)
    decreases i
  {
    hide Div, Mod, One, From, Pred, Succ;
    if Zero(i) {
      DivUnique(Number(v), 1, Number(v), 0);
    } else {
      Drop(v, Pred(i));
      Back(i);
      Last(v, Pred(i));
      DivHalf(Number(v), P(Place(Pred(i))));
    }
  }

  lemma DivHalf(x: nat, p: nat)
    requires p > 0
    ensures Div(x, 2 * p) == Div(x, p) / 2
  {
    hide Div, Mod;
    var q, r := Div(x, p), Mod(x, p);
    Twice(q / 2, q % 2, p);
    assert (q % 2) * p + r < 2 * p;
    DivUnique(x, 2 * p, q / 2, (q % 2) * p + r);
  }

  /** What the loop computes is the reversal of the number. */
  lemma {:induction false} ReversedFrom(v: bv64, r: bv64, i: bv64)
    requires i <= 64 && forall j: bv64 {:trigger Bit(r, j)} :: j < 64 ==> Bit(r, j) == Bit(v, Across(j))
    ensures Place(i) <= 64 && From(r, i) == Rev(64 - Place(i), Number(v))
    decreases 64 - i
  {
    hide Div, Mod, Place, Succ, Across, P, Bit, Number, One, From, Rev;
    PlaceEnd();
    if i < 64 {
      PlaceSucc(i);
      ReversedFrom(v, r, Succ(i));
      RevLast(64 - Place(i), Number(v));
      PlaceAcross(i);
      Drop(v, Across(i));
      assert Bit(r, i) == Bit(v, Across(i));
      OneSame(r, i, v, Across(i));
      Last(v, Across(i));
      Parts(r, i);
    } else {
      AtEnd(i, r, Number(v));
    }
  }

  lemma OneSame(r: bv64, i: bv64, v: bv64, j: bv64)
    requires i < 64 && j < 64 && Bit(r, i) == Bit(v, j)
    ensures One(r, i) == One(v, j)
  {
    hide Bit;
  }

  lemma AtEnd(i: bv64, r: bv64, n: nat)
    requires 64 <= i <= 64
    ensures i == 64 && From(r, i) == 0 && Rev(0, n) == 0
  {
  }

  lemma Last(v: bv64, i: bv64)
    requires i < 64
    ensures From(v, i) % 2 == One(v, i) && From(v, i) / 2 == From(v, Succ(i))
  {
    hide One, Succ, From;
    Parts(v, i);
    Halves(From(v, i), From(v, Succ(i)), One(v, i));
  }

  lemma Parts(v: bv64, i: bv64)
    requires i < 64
    ensures From(v, i) == One(v, i) + 2 * From(v, Succ(i)) && One(v, i) < 2
  {
    hide Bit, Succ;
  }

  lemma Back(i: bv64)
    requires i <= 64 && !Zero(i)
    ensures Pred(i) < 64 && Succ(Pred(i)) == i && Place(i) == Place(Pred(i)) + 1
  {
    hide Place;
    PlaceSucc(Pred(i));
  }

  lemma NumberReversed(v: bv64, r: bv64)
    requires forall i: bv64 :: i < 64 ==> Bit(r, i) == Bit(v, 63 - i)
    ensures Number(r) == Rev(64, Number(v))
  {
    hide Bit, Rev, From, Across;
    forall j: bv64 {:trigger Bit(r, j)} | j < 64 ensures Bit(r, j) == Bit(v, Across(j)) { AcrossIs(j); }
    ReversedFrom(v, r, 0);
    NoPlace();
  }

  lemma NoPlace()
    ensures Place(0) == 0
  {
  }

  lemma AcrossIs(j: bv64)
    requires j < 64
    ensures Across(j) == 63 - j
  {
  }
}
