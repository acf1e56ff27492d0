/** Division of natural numbers by what it means: quotient and remainder are unique. */
module Division {

  function Div(x: nat, d: nat): (q: nat)
    requires d > 0
    ensures q * d <= x < q * d + d
  {
    DivBounds(x, d);
    x / d
  }

  function Mod(x: nat, d: nat): (r: nat)
    requires d > 0
    ensures r < d && r <= x && x == Div(x, d) * d + r
  {
    DivBounds(x, d);
    x % d
  }

  lemma DivBounds(x: nat, d: nat)
    requires d > 0
    ensures x / d >= 0 && x == (x / d) * d + x % d
  {
  }

  lemma DivUnique(x: nat, d: nat, q: nat, r: nat)
    requires x == q * d + r && r < d
    ensures Div(x, d) == q && Mod(x, d) == r
  {
    hide Div, Mod;
    var q', r' := Div(x, d), Mod(x, d);
    assert x == q' * d + r';
    assert (q - q') * d == r' - r;
    if q < q' { Multiple(q' - q, d); } else if q > q' { Multiple(q - q', d); }
  }

  lemma Multiple(k: int, d: nat)
    requires k >= 1
    ensures k * d >= d
  {
  }

  // ----- multiples -----

  lemma ModSum(a: nat, b: nat, d: nat)
    requires d > 0 && Mod(a, d) == 0 && Mod(b, d) == 0
    ensures Mod(a + b, d) == 0
  {
    hide Div, Mod;
    var p, q := Div(a, d), Div(b, d);
    assert a + b == (p + q) * d;
    DivUnique(a + b, d, p + q, 0);
  }

  lemma ModDifference(a: nat, b: nat, d: nat)
    requires d > 0 && b <= a && Mod(a, d) == 0 && Mod(b, d) == 0
    ensures Mod(a - b, d) == 0
  {
    hide Div, Mod;
    var p, q := Div(a, d), Div(b, d);
    assert a - b == (p - q) * d;
    if p < q { Multiple(q - p, d); }
    DivUnique(a - b, d, p - q, 0);
  }

  lemma ModTimes(n: nat, k: nat, d: nat)
    requires d > 0 && Mod(k, d) == 0
    ensures Mod(n * k, d) == 0
  {
    hide Div, Mod;
    var q := Div(k, d);
    assert n * k == (n * q) * d;
    DivUnique(n * k, d, n * q, 0);
  }
}
