/** Reversal of binary numbers, in the terms that dictScan needs. */
module ReverseBits {
  import opened Division

  function P(n: nat): (p: nat)
    ensures p > 0
  {
    if n == 0 then 1 else 2 * P(n - 1)
  }

  /** The n low bits of v in reverse order. */
  function Rev(n: nat, v: nat): (r: nat)
    ensures r < P(n)
  {
    if n == 0 then 0 else (v % 2) * P(n - 1) + Rev(n - 1, v / 2)
  }

  // ----- powers of two -----

  lemma {:induction false} PowAdd(a: nat, b: nat)
    ensures P(a + b) == P(a) * P(b)
  {
    if a > 0 {
      PowAdd(a - 1, b);
      assert P(a + b) == 2 * P(a + b - 1);
    }
  }

  /** Dividing by 2 first. */
  lemma DivTwice(v: nat, b: nat)
    requires b > 0
    ensures Div(v, P(b)) == Div(v / 2, P(b - 1))
    ensures Mod(v, P(b)) == 2 * Mod(v / 2, P(b - 1)) + v % 2
  {
    hide Div, Mod;
    var q, r := Div(v / 2, P(b - 1)), Mod(v / 2, P(b - 1));
    assert v / 2 == q * P(b - 1) + r;
    assert v == q * P(b) + (2 * r + v % 2);
    DivUnique(v, P(b), q, 2 * r + v % 2);
  }

  lemma Regroup(bit: nat, p: nat, low: nat, q: nat)
    requires bit < 2
    ensures bit * (p * q) + low * q == (bit * p + low) * q
  {
    if bit == 1 { assert (p + low) * q == p * q + low * q; }
  }

  lemma PStep(n: nat)
    requires n > 0
    ensures P(n) == 2 * P(n - 1) && P(0) == 1
  {
  }

  lemma RevStep(n: nat, v: nat)
    ensures n > 0 ==> Rev(n, v) == (v % 2) * P(n - 1) + Rev(n - 1, v / 2)
    ensures n == 0 ==> Rev(n, v) == 0
  {
  }

  // ----- reversal -----

  /** The reversal of a number is that of its low part followed by that of its high part. */
  lemma {:induction false} RevSplit(b: nat, n: nat, v: nat)
    ensures Rev(b + n, v) == Rev(b, v) * P(n) + Rev(n, Div(v, P(b)))
    decreases b
  {
    hide Div, Mod, Rev;
    RevStep(b, v);
    RevStep(b + n, v);
    if b > 0 {
      hide P;
      RevSplit(b - 1, n, v / 2);
      DivTwice(v, b);
      PowAdd(b - 1, n);
      Regroup(v % 2, P(b - 1), Rev(b - 1, v / 2), P(n));
    } else {
      DivUnique(v, 1, v, 0);
    }
  }

  /** The last bit of a reversal is the highest of the number. */
  lemma RevLast(n: nat, v: nat)
    requires n > 0
    ensures Rev(n, v) == 2 * Rev(n - 1, v) + Div(v, P(n - 1)) % 2
  {
    var top := Div(v, P(n - 1));
    PStep(1);
    RevStep(1, top);
    RevStep(0, top / 2);
    hide Rev, P, Div, Mod;
    RevSplit(n - 1, 1, v);
    assert n - 1 + 1 == n;
  }

  /** Reversing twice gives the number back. */
  lemma {:induction false} RevRev(n: nat, v: nat)
    ensures Rev(n, Rev(n, v)) == Mod(v, P(n))
  {
    hide Rev, P, Div, Mod;
    if n == 0 {
      RevNone(v);
    } else {
      PStep(n);
      RevLast(n, v);
      var bit, x := Div(v, P(n - 1)) % 2, Rev(n, v);
      Halves(x, Rev(n - 1, v), bit);
      RevRev(n - 1, v);
      RevStep(n, x);
      HighBit(v, P(n - 1));
    }
  }

  lemma RevNone(v: nat)
    ensures Rev(0, Rev(0, v)) == Mod(v, P(0))
  {
    DivUnique(v, 1, v, 0);
  }

  lemma Halves(x: nat, half: nat, bit: nat)
    requires x == 2 * half + bit && bit < 2
    ensures x % 2 == bit && x / 2 == half
  {
  }

  lemma HighBit(v: nat, p: nat)
    requires p > 0
    ensures Mod(v, 2 * p) == (Div(v, p) % 2) * p + Mod(v, p)
  {
    hide Div, Mod;
    var q, r := Div(v, p), Mod(v, p);
    var bit := q % 2;
    Twice(q / 2, bit, p);
    assert bit * p + r < 2 * p;
    DivUnique(v, 2 * p, q / 2, bit * p + r);
  }

  lemma Twice(k: nat, bit: nat, p: nat)
    ensures (2 * k + bit) * p == k * (2 * p) + bit * p
  {
  }

  lemma RevInjective(n: nat, a: nat, b: nat)
    ensures Rev(n, a) == Rev(n, b) <==> Mod(a, P(n)) == Mod(b, P(n))
  {
    hide Div, Mod;
    RevRev(n, a);
    RevRev(n, b);
    if Mod(a, P(n)) == Mod(b, P(n)) { RevLow(n, a); RevLow(n, b); }
  }

  /** Only the low bits matter. */
  lemma {:induction false} RevLow(n: nat, v: nat)
    ensures Rev(n, Mod(v, P(n))) == Rev(n, v)
  {
    hide Div, Mod;
    if n > 0 {
      DivTwice(v, n);
      RevLow(n - 1, v / 2);
    }
  }

  /** Bit i of the reversal is bit n - 1 - i of the number. */
  lemma {:induction false} RevBit(n: nat, v: nat, i: nat)
    requires i < n
    ensures Div(Rev(n, v), P(i)) % 2 == Div(v, P(n - 1 - i)) % 2
    decreases i
  {
    hide Rev, P, Div, Mod;
    var x, bit := Rev(n, v), Div(v, P(n - 1)) % 2;
    RevLast(n, v);
    Halves(x, Rev(n - 1, v), bit);
    if i == 0 {
      DivByOne(x);
    } else {
      DivTwice(x, i);
      RevBit(n - 1, v, i - 1);
    }
  }

  lemma DivByOne(x: nat)
    ensures Div(x, P(0)) == x
  {
    hide Div, Mod;
    DivUnique(x, 1, x, 0);
  }

  /** A number of n ones: the reversal of the largest number is the largest. */
  lemma {:induction false} RevOnes(n: nat)
    ensures Rev(n, P(n) - 1) == P(n) - 1
  {
    hide Rev, P;
    RevStep(n, P(n) - 1);
    if n > 0 {
      PStep(n);
      Halves(P(n) - 1, P(n - 1) - 1, 1);
      RevOnes(n - 1);
    } else {
      PStep(1);
    }
  }

}
