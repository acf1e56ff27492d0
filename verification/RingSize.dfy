/** The size of a queue: messageQueueCreate rounds it up to a power of two, so that countToIndex may mask a count where the
    model of the queue takes a remainder. */
module RingSize {
  import opened Division
  import opened ReverseBits
  import opened Ring

  function Half(w: bv32): bv32 { w >> 1 }

  predicate Odd(w: bv32) { w & 1 == 1 }

  predicate NoBits(w: bv32) { w == 0 }

  /** The number that a word stands for. */
  function Number(w: bv32): (n: nat)
    ensures NoBits(w) <==> n == 0
    decreases w
  {
    HalfLess(w);
    if NoBits(w) then 0 else 2 * Number(Half(w)) + if Odd(w) then 1 else 0
  }

  lemma HalfLess(w: bv32)
    ensures !NoBits(w) ==> Half(w) < w
    ensures !NoBits(w) && NoBits(Half(w)) ==> Odd(w)
  {
  }

  /** A single bit is set. */
  predicate OneBit(p: bv32) { p != 0 && p & (p - 1) == 0 }

  function Masked(w: bv32, p: bv32): bv32
    requires OneBit(p)
  {
    w & (p - 1)
  }

  lemma OneBitHalf(p: bv32)
    requires OneBit(p)
    ensures !NoBits(p) && (Odd(p) <==> NoBits(Half(p))) && (!Odd(p) ==> OneBit(Half(p)))
  {
  }

  lemma MaskedHalf(w: bv32, p: bv32)
    requires OneBit(p)
    ensures Odd(p) ==> NoBits(Masked(w, p))
    ensures !Odd(p) ==> OneBit(Half(p)) && (Odd(Masked(w, p)) <==> Odd(w)) && Half(Masked(w, p)) == Masked(Half(w), Half(p))
  {
  }

  lemma Unfold(w: bv32)
    ensures Number(w) == 2 * Number(Half(w)) + if Odd(w) then 1 else 0
    ensures !NoBits(w) ==> Number(w) > Number(Half(w))
  {
    HalfLess(w);
    NoneHalf(w);
  }

  lemma NoneHalf(w: bv32)
    ensures NoBits(w) ==> NoBits(Half(w)) && !Odd(w)
  {
  }

  lemma {:induction false} OneBitIsPower(p: bv32) returns (k: nat)
    requires OneBit(p)
    ensures Number(p) == P(k)
    decreases Number(p)
  {
    hide OneBit, Odd, Half, NoBits, Number;
    OneBitHalf(p);
    Unfold(p);
    if Odd(p) {
      k := 0;
    } else {
      var j := OneBitIsPower(Half(p));
      k := j + 1;
    }
  }

  predicate AtMost(a: bv32, b: bv32) { a <= b }

  /** Halves and last bits say which of two words is the smaller one, and whether they are the same. */
  lemma Compared(a: bv32, b: bv32)
    requires AtMost(a, b)
    ensures AtMost(Half(a), Half(b)) && (Half(a) == Half(b) && Odd(a) ==> Odd(b))
  {
  }

  lemma Differing(a: bv32, b: bv32)
    requires a != b
    ensures Half(a) != Half(b) || Odd(a) != Odd(b)
    ensures !NoBits(a) || !NoBits(b)
  {
  }

  lemma {:induction false} NumberInjective(a: bv32, b: bv32)
    requires a != b
    ensures Number(a) != Number(b)
    decreases Number(a) + Number(b)
  {
    hide Odd, Half, NoBits, Number;
    Differing(a, b);
    Unfold(a);
    Unfold(b);
    if Half(a) != Half(b) { NumberInjective(Half(a), Half(b)); }
  }

  lemma {:induction false} NumberOrder(a: bv32, b: bv32)
    requires AtMost(a, b)
    ensures Number(a) <= Number(b)
    decreases Number(b)
  {
    hide Odd, Half, NoBits, Number, AtMost;
    Compared(a, b);
    Unfold(a);
    Unfold(b);
    if NoBits(b) {
      NothingBelow(a, b);
    } else {
      NumberOrder(Half(a), Half(b));
      if Half(a) != Half(b) { NumberInjective(Half(a), Half(b)); }
    }
  }

  lemma NothingBelow(a: bv32, b: bv32)
    requires AtMost(a, b) && NoBits(b)
    ensures a == b
  {
  }

  /** Masking a word by a power of two less one is taking the remainder. */
  lemma {:induction false} MaskIsRemainder(w: bv32, p: bv32)
    requires OneBit(p)
    ensures Number(p) > 0 && Number(Masked(w, p)) == Mod(Number(w), Number(p))
    decreases Number(p)
  {
    hide OneBit, Odd, Half, NoBits, Masked, Div, Mod, Number;
    OneBitHalf(p);
    MaskedHalf(w, p);
    Unfold(p);
    if Odd(p) {
      DivUnique(Number(w), 1, Number(w), 0);
    } else {
      MaskIsRemainder(Half(w), Half(p));
      TwiceMod(Number(Half(w)), Number(Half(p)), if Odd(w) then 1 else 0);
      Unfold(w);
      Unfold(Masked(w, p));
    }
  }

  lemma TwiceMod(x: nat, q: nat, bit: nat)
    requires q > 0 && bit < 2
    ensures Mod(2 * x + bit, 2 * q) == 2 * Mod(x, q) + bit
  {
    hide Div, Mod;
    var d, r := Div(x, q), Mod(x, q);
    assert 2 * x + bit == d * (2 * q) + (2 * r + bit);
    DivUnique(2 * x + bit, 2 * q, d, 2 * r + bit);
  }

  lemma NextIsOneBit(num: bv32)
    requires 1 <= num <= 0x8000_0000
    ensures var p := NextPow2(num); OneBit(p) && AtMost(num, p) && AtMost(Half(p), num) && Half(p) != num
  {
    NextPow2Is(num);
  }

  /** A queue made for num messages has a size that is the least power of two not below num, and the place that
      countToIndex finds by masking is that of the model. */
  lemma CreatedSize(num: bv32, count: bv32) returns (k: nat)
    requires 1 <= num <= 0x8000_0000
    ensures
      var p := NextPow2(num);
      && Number(p) == P(k) && Number(num) <= P(k) && (k > 0 ==> P(k - 1) < Number(num))
      && OneBit(p) && Number(Masked(count, p)) == CountToIndex(P(k), Number(count))
  {
    NextIsOneBit(num);
    k := SizeOf(num, NextPow2(num), count);
  }

  lemma SizeOf(num: bv32, p: bv32, count: bv32) returns (k: nat)
    requires OneBit(p) && AtMost(num, p) && AtMost(Half(p), num) && Half(p) != num
    ensures Number(p) == P(k) && Number(num) <= P(k) && (k > 0 ==> P(k - 1) < Number(num))
    ensures Number(Masked(count, p)) == CountToIndex(P(k), Number(count))
  {
    hide OneBit, Odd, Half, NoBits, Masked, Number, Mod, Div, CountToIndex, AtMost;
    k := OneBitIsPower(p);
    NumberOrder(num, p);
    MaskIsRemainder(count, p);
    Remainder(P(k), Number(count));
    OneBitHalf(p);
    Unfold(p);
    NumberOrder(Half(p), num);
    NumberInjective(Half(p), num);
  }

  lemma Remainder(size: nat, n: nat)
    requires size > 0
    ensures Mod(n, size) == CountToIndex(size, n)
  {
  }

  /** A new queue, with room for a power of two of messages, is one that the runs of the queue begin with. */
  lemma CreatedIsInitial<T>(num: bv32, s: Ring<T>)
    requires 1 <= num <= 0x8000_0000 && s.size == Number(NextPow2(num)) == |s.slots|
    requires s.writeIndex == s.readIndex == s.maximumReadIndex == s.count == 0 && s.pushed == s.popped == []
    requires forall i :: 0 <= i < |s.threads| ==> s.threads[i].Idle?
    ensures Initial(s) && exists k: nat :: s.size == P(k)
  {
    hide NextPow2, OneBit, Number, P;
    var k := CreatedSize(num, 0);
    assert s.size == P(k);
  }
}
