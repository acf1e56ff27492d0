/** The cursor of dictScan: a word of w bits that counts with its bits reversed. */
module ScanCursor {
  import opened Division
  import opened ReverseBits

  /** Numbers in the order in which the cursor goes through them. */
  function Order(w: nat, x: nat): nat { Rev(w, x) }

  /** The cursor behind that of a table with 2^b buckets: set the bits that the mask leaves out, reverse,
      increment, reverse. */
  function Next(w: nat, b: nat, v: nat): (v': nat)
    requires b <= w
  {
    PowMonotone(b, w);
    var masked := Mod(v, P(b)) + (P(w) - P(b));
    Rev(w, Mod(Rev(w, masked) + 1, P(w)))
  }

  lemma {:induction false} PowMonotone(a: nat, b: nat)
    requires a <= b
    ensures P(a) <= P(b)
    decreases b
  {
    if a < b { PowMonotone(a, b - 1); }
  }

  lemma Product(a: nat, p: nat)
    requires a >= 1
    ensures (a - 1) * p == a * p - p && (a - 1) * p + p == a * p
  {
  }

  lemma Smaller(a: nat, b: nat, p: nat)
    requires a < b
    ensures a * p + p <= b * p
  {
    hide P;
    var d: nat := b - a - 1;
    assert b * p == (d + (a + 1)) * p == d * p + (a + 1) * p;
  }

  /** The reversed cursor goes on to the next multiple of 2^(w - b), or back to 0. */
  lemma NextIs(w: nat, b: nat, v: nat)
    requires b <= w
    ensures
      var m := Rev(b, v);
      Order(w, Next(w, b, v)) == if m + 1 == P(b) then 0 else (m + 1) * P(w - b)
    ensures Next(w, b, v) == Rev(b, if Rev(b, v) + 1 == P(b) then 0 else Rev(b, v) + 1)
  {
    hide Rev, P, Div, Mod;
    PowMonotone(b, w);
    var n := w - b;
    var low, masked := Mod(v, P(b)), Mod(v, P(b)) + (P(w) - P(b));
    PowAdd(b, n);
    Product(P(n), P(b));
    DivUnique(masked, P(b), P(n) - 1, low);
    RevSplit(b, n, masked);
    RevOnes(n);
    RevLow(b, v);
    RevLow(b, masked);
    var m := Rev(b, v);
    Product(m + 1, P(n));
    var y := Mod(Rev(w, masked) + 1, P(w));
    if m + 1 == P(b) {
      DivUnique(P(w), P(w), 1, 0);
    } else {
      Smaller(m + 1, P(b), P(n));
      PositivePow(n);
      DivUnique((m + 1) * P(n), P(w), 0, (m + 1) * P(n));
    }
    var q := if m + 1 == P(b) then 0 else m + 1;
    assert y == q * P(n);
    RevRev(w, y);
    PositivePow(w);
    DivUnique(y, P(w), 0, y);
    RevSplit(n, b, y);
    DivUnique(y, P(n), q, 0);
    RevLow(n, y);
    RevZero(n);
  }

  lemma PositivePow(n: nat)
    ensures P(n) > 0
  {
  }

  lemma {:induction false} RevZero(n: nat)
    ensures Rev(n, 0) == 0
  {
    if n > 0 { RevZero(n - 1); }
  }

  /** The cursor has no bits that the table does not need. */
  lemma NextBound(w: nat, b: nat, v: nat)
    requires b <= w
    ensures Next(w, b, v) < P(b)
  {
    NextIs(w, b, v);
  }

  // ----- which numbers a call has left behind -----

  lemma OrderSplit(w: nat, b: nat, x: nat)
    requires b <= w
    ensures Rev(b, x) * P(w - b) <= Order(w, x) < Rev(b, x) * P(w - b) + P(w - b)
    ensures Order(w, x) == Rev(b, x) * P(w - b) + Rev(w - b, Div(x, P(b)))
  {
    hide Rev, P, Div, Mod;
    RevSplit(b, w - b, x);
    RevBound(w - b, Div(x, P(b)));
  }

  lemma RevBound(n: nat, v: nat)
    ensures Rev(n, v) < P(n)
  {
  }

  /** The call takes the cursor v past x, or to the end. */
  predicate Passes(w: nat, b: nat, v: nat, x: nat)
    requires b <= w
  {
    Next(w, b, v) == 0 || Order(w, x) < Order(w, Next(w, b, v))
  }

  /** In terms of the reversed low bits: exactly the numbers whose low bits do not come after the cursor's. */
  lemma PassesIs(w: nat, b: nat, v: nat, x: nat)
    requires b <= w
    ensures Passes(w, b, v, x) <==> Rev(b, x) <= Rev(b, v)
  {
    hide Rev, P, Div, Mod, Next, Order;
    var m, p := Rev(b, v), P(w - b);
    NextOrder(w, b, v);
    RevBound(b, x);
    RevBound(b, v);
    OrderSplit(w, b, x);
    Interval(Rev(b, x), m + 1, p, Order(w, x));
  }

  /** The cursor comes around to 0, or it comes in the order behind the bucket. */
  lemma NextOrder(w: nat, b: nat, v: nat)
    requires b <= w
    ensures Next(w, b, v) == 0 <==> Rev(b, v) + 1 == P(b)
    ensures Next(w, b, v) != 0 ==> Order(w, Next(w, b, v)) == (Rev(b, v) + 1) * P(w - b)
  {
    hide Rev, P, Div, Mod, Order;
    NextIs(w, b, v);
    OrderZero(w, Next(w, b, v));
    PositivePow(w - b);
    NonZero(Rev(b, v) + 1, P(w - b));
  }

  lemma Interval(a: nat, b: nat, p: nat, x: nat)
    requires p > 0 && a * p <= x < a * p + p
    ensures x < b * p <==> a < b
    ensures b > 0 ==> b * p > 0
  {
    if a < b { Smaller(a, b, p); }
    else if a > b { Smaller(b, a, p); }
    if b > 0 { NonZero(b, p); }
  }

  /** Cursors are words, so only 0 has order 0. */
  lemma OrderZero(w: nat, v: nat)
    ensures v < P(w) ==> (Order(w, v) == 0 <==> v == 0)
  {
    RevZero(w);
    RevInjective(w, v, 0);
    hide Rev, P, Div, Mod;
    if v < P(w) {
      DivUnique(v, P(w), 0, v);
      DivUnique(0, P(w), 0, 0);
    }
  }

  /** What the cursor passes with one call is behind it already or has the same low bits. */
  lemma Passed(w: nat, b: nat, v: nat, x: nat)
    requires b <= w && Passes(w, b, v, x)
    ensures Order(w, x) < Order(w, v) || Mod(x, P(b)) == Mod(v, P(b))
  {
    hide Rev, P, Div, Mod, Passes, Order;
    PassesIs(w, b, v, x);
    OrderSplit(w, b, x);
    OrderSplit(w, b, v);
    RevInjective(b, x, v);
    if Rev(b, x) < Rev(b, v) { Smaller(Rev(b, x), Rev(b, v), P(w - b)); }
  }

  lemma SameLowPassed(w: nat, b: nat, v: nat, x: nat)
    requires b <= w && Mod(x, P(b)) == Mod(v, P(b))
    ensures Passes(w, b, v, x)
  {
    PassesIs(w, b, v, x);
    RevInjective(b, x, v);
  }

  lemma NonZero(a: nat, p: nat)
    requires a > 0 && p > 0
    ensures a * p > 0
  {
  }

  // ----- the expansions of a cursor into a larger table -----

  /** The bits of x between those of the smaller and those of the larger mask. */
  function High(b0: nat, b1: nat, x: nat): (h: nat)
    requires b0 <= b1
    ensures h < P(b1 - b0)
  {
    Mod(Div(x, P(b0)), P(b1 - b0))
  }

  /** Are these ones, all to the right? */
  predicate OnlyOnes(h: nat) { exists j: nat {:trigger P(j)} :: j <= h && h + 1 == P(j) }

  lemma NoOnes()
    ensures OnlyOnes(0)
  {
    assert 0 + 1 == P(0);
  }

  /** Within a block of equal low bits, the order is that of the high bits. */
  lemma HighOrder(w: nat, b0: nat, b1: nat, x: nat, y: nat)
    requires b0 <= b1 <= w && Mod(x, P(b0)) == Mod(y, P(b0))
    requires Rev(b1 - b0, High(b0, b1, x)) < Rev(b1 - b0, High(b0, b1, y))
    ensures Order(w, x) < Order(w, y)
  {
    hide Rev, P, Div, Mod;
    var d, n := b1 - b0, w - b1;
    RevInjective(b0, x, y);
    HighSplit(w, b0, b1, x);
    HighSplit(w, b0, b1, y);
    var rx, ry := Rev(d, High(b0, b1, x)), Rev(d, High(b0, b1, y));
    Smaller(rx, ry, P(n));
  }

  lemma HighSplit(w: nat, b0: nat, b1: nat, x: nat)
    requires b0 <= b1 <= w
    ensures
      var r := Rev(b1 - b0, High(b0, b1, x)) * P(w - b1);
      Rev(b0, x) * P(w - b0) + r <= Order(w, x) < Rev(b0, x) * P(w - b0) + r + P(w - b1)
  {
    hide Rev, P, Div, Mod;
    var top := Div(x, P(b0));
    OrderSplit(w, b0, x);
    OrderSplit(w - b0, b1 - b0, top);
    RevLow(b1 - b0, top);
  }

  /** For numbers of j bits, the order is the same among d bits. */
  lemma Extend(d: nat, j: nat, a: nat, b: nat)
    requires j <= d && a < P(j) && b < P(j) && Rev(j, a) < Rev(j, b)
    ensures Rev(d, a) < Rev(d, b)
  {
    hide Rev, P, Div, Mod;
    var n := d - j;
    RevSplit(j, n, a);
    RevSplit(j, n, b);
    DivUnique(a, P(j), 0, a);
    DivUnique(b, P(j), 0, b);
    RevZero(n);
    Smaller(Rev(j, a), Rev(j, b), P(n));
    PositivePow(n);
  }

  /** After ones alone, nothing with smaller high bits is still to come ... */
  lemma OnesComeLast(d: nat, h: nat, x: nat)
    requires OnlyOnes(h) && h < P(d) && x < h
    ensures Rev(d, x) < Rev(d, h)
  {
    hide Rev, P, Div, Mod;
    var j: nat :| j <= h && h + 1 == P(j);
    if j > d { PowMonotone(d + 1, j); PStep(d + 1); }
    RevOnes(j);
    RevBound(j, x);
    RevInjective(j, x, h);
    DivUnique(h, P(j), 0, h);
    DivUnique(x, P(j), 0, x);
    Extend(d, j, x, h);
  }

  /** ... after any other bits, something is. */
  lemma OthersLeaveGaps(d: nat, h: nat) returns (x: nat)
    requires !OnlyOnes(h) && h < P(d)
    ensures x < h && Rev(d, x) > Rev(d, h)
  {
    NoOnes();
    var j := TopBit(h);
    PowAbove(j);
    assert h + 1 != P(j + 1);
    if j >= d { PowMonotone(d, j); }
    x := P(j) - 1;
    GapAt(j, h);
    Extend(d, j + 1, h, x);
  }

  /** The ones below the highest bit of h come after h. */
  lemma GapAt(j: nat, h: nat)
    requires P(j) <= h < P(j + 1) && h + 1 != P(j + 1)
    ensures Rev(j + 1, P(j) - 1) > Rev(j + 1, h)
  {
    var x := P(j) - 1;
    assert P(j + 1) == 2 * P(j);
    hide Rev, P, Div, Mod;
    RevLast(j + 1, h);
    RevLast(j + 1, x);
    DivUnique(h, P(j), 1, h - P(j));
    DivUnique(x, P(j), 0, x);
    RevOnes(j);
    RevBound(j, h);
    RevInjective(j, h, x);
  }

  lemma Compose(b0: nat, b1: nat, high: nat, low: nat) returns (x: nat)
    requires b0 <= b1 && high < P(b1 - b0) && low < P(b0)
    ensures Mod(x, P(b0)) == low && High(b0, b1, x) == high
  {
    hide P, Mod, Div;
    x := high * P(b0) + low;
    DivUnique(x, P(b0), high, low);
    DivUnique(high, P(b1 - b0), 0, high);
  }

  /** If the high bits of the cursor are ones alone, what it passes is behind it already or among the
      expansions from the cursor on. */
  lemma CompletePassed(w: nat, b0: nat, b1: nat, v: nat, x: nat)
    requires b0 <= b1 <= w && OnlyOnes(High(b0, b1, v)) && Passes(w, b0, v, x)
    ensures Order(w, x) < Order(w, v) || (Mod(x, P(b0)) == Mod(v, P(b0)) && High(b0, b1, x) >= High(b0, b1, v))
  {
    hide OnlyOnes, High, Passes, Order, P, Mod, Div;
    Passed(w, b0, v, x);
    if Mod(x, P(b0)) == Mod(v, P(b0)) && High(b0, b1, x) < High(b0, b1, v) {
      OnesComeLast(b1 - b0, High(b0, b1, v), High(b0, b1, x));
      HighOrder(w, b0, b1, x, v);
    }
  }

  /** Otherwise it passes something that is neither. */
  lemma IncompletePassed(w: nat, b0: nat, b1: nat, v: nat) returns (x: nat)
    requires b0 <= b1 <= w && !OnlyOnes(High(b0, b1, v))
    ensures Passes(w, b0, v, x) && Order(w, x) > Order(w, v)
    ensures Mod(x, P(b0)) == Mod(v, P(b0)) && High(b0, b1, x) < High(b0, b1, v)
  {
    var high := OthersLeaveGaps(b1 - b0, High(b0, b1, v));
    hide OnlyOnes, Passes, Order, P, Mod, Div, Rev, High;
    x := Compose(b0, b1, high, Mod(v, P(b0)));
    HighOrder(w, b0, b1, v, x);
    SameLowPassed(w, b0, v, x);
  }

  lemma {:induction false} PowAbove(j: nat)
    ensures j + 1 <= P(j)
  {
    if j > 0 { PowAbove(j - 1); }
  }

  lemma {:induction false} TopBit(h: nat) returns (j: nat)
    requires h > 0
    ensures P(j) <= h < P(j + 1)
  {
    if h == 1 { j := 0; assert P(1) == 2 * P(0); }
    else {
      j := TopBit(h / 2);
      j := j + 1;
      assert P(j + 1) == 2 * P(j) && P(j) == 2 * P(j - 1);
    }
  }
}
