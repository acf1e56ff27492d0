/** The bytes that lua-seri.c writes, said without regard to how they are put together: header, width and digits of numbers,
    lengths of strings, and what cannot be written. */
module SeriFormat {
  import opened Wrappers
  import opened Seri

  // ----- numbers -----

  /** Byte i of the digits of v to the base 256, lowest first. */
  function DigitAt(v: nat, i: nat): (d: nat) { v / Pow256(i) % 256 }

  lemma {:induction false} DigitUp(v: nat, i: nat)
    ensures DigitAt(v, i + 1) == DigitAt(v / 256, i)
  {
    QuotientTwice(v, 256, Pow256(i));
  }

  lemma QuotientTwice(v: nat, a: nat, b: nat)
    requires a > 0 && b > 0
    ensures a * b > 0 && v / (a * b) == v / a / b
  {
    var q, r := v / a, v % a;
    var p, s := q / b, q % b;
    assert v == (p * b + s) * a + r;
    Spread(p, b, s, a);
    Below(s, b, a, r);
    Unique(v, a * b, p, s * a + r);
  }

  lemma Spread(p: nat, b: nat, s: nat, a: nat)
    ensures (p * b + s) * a == p * (a * b) + s * a
  {
    assert (p * b) * a == p * (a * b);
  }

  lemma Below(s: nat, b: nat, a: nat, r: nat)
    requires s < b && r < a
    ensures s * a + r < a * b
  {
    var d := b - 1 - s;
    Spread(d, 1, s + 1, a);
    assert (d + (s + 1)) * a == b * a && (s + 1) * a == s * a + a;
  }

  lemma Unique(v: nat, n: nat, q: nat, r: nat)
    requires n > 0 && v == q * n + r && r < n
    ensures v / n == q
  {
    var d := v / n - q;
    assert v == (v / n) * n + v % n;
    assert d * n == r - v % n;
  }

  lemma {:induction false} DigitsAre(v: nat, n: nat, i: nat)
    requires i < n
    ensures LittleEndian(v, n)[i] == DigitAt(v, i)
    decreases n
  {
    if i > 0 {
      DigitUp(v, i - 1);
      DigitsAre(v / 256, n - 1, i - 1);
    }
  }

  /** The digits of v, as many as n, follow the header. */
  ghost predicate HasDigits(s: seq<Byte>, at: nat, v: nat, n: nat) {
    at + n <= |s| && forall i: nat :: i < n ==> s[at + i] == DigitAt(v, i)
  }

  lemma DigitsIn(head: seq<Byte>, v: nat, n: nat, rest: seq<Byte>)
    ensures HasDigits(head + LittleEndian(v, n) + rest, |head|, v, n)
  {
    forall i: nat | i < n ensures (head + LittleEndian(v, n) + rest)[|head| + i] == DigitAt(v, i) { DigitsAre(v, n, i); }
  }

  /** An integer is a header with the type in its low three bits and the number of bytes that follow in the others, and the digits
      of its two's complement.  There are 0, 1, 2 or 4 bytes, and as few of them as hold the number. */
  lemma IntegerFormat(x: int, t: int, n: nat)
    requires Int32(x) && 0 <= t < 8
    ensures
      var s := PackInteger(x, t);
      var k := |s| - 1;
      k in {0, 1, 2, 4} && s[0] == t + 8 * k && HasDigits(s, 1, Word(x), k) && Word(x) < Pow256(k)
      && (n in {0, 1, 2, 4} && Word(x) < Pow256(n) ==> k <= n)
  {
    Powers();
    hide LittleEndian, Pow256;
    var k := |PackInteger(x, t)| - 1;
    if x != 0 {
      DigitsIn([Combine(t, k)], Word(x), k, []);
      assert PackInteger(x, t) == [Combine(t, k)] + LittleEndian(Word(x), k) + [];
    }
  }

  /** Reading takes any such number of bytes, written as short as may be or not: four of them are signed, fewer are not. */
  lemma IntegerRead(w: nat, n: nat, rest: seq<Byte>)
    requires n in {0, 1, 2, 4} && w < Pow256(n)
    ensures n == 4 ==> w < 0x1_0000_0000
    ensures GetInteger(LittleEndian(w, n) + rest, n) == Got(if n == 4 then Signed(w) else w, rest)
  {
    Powers();
    LittleEndianBack(w, n);
    PrefixOff(LittleEndian(w, n), rest);
    hide LittleEndian, FromLittleEndian, Pow256;
    if n == 0 { assert LittleEndian(w, 0) + rest == rest by { NoDigits(w); } }
  }

  lemma NoDigits(w: nat)
    ensures LittleEndian(w, 0) == []
  {
  }

  /** No other number of bytes is read as an integer, and no other type as a value. */
  lemma OthersInvalid(s: seq<Byte>, n: nat)
    ensures n !in {0, 1, 2, 4} ==> GetInteger(s, n).Invalid?
    ensures s != [] && s[0] % 8 == 7 ==> UnpackOne(s).Invalid?
  {
  }

  lemma Powers()
    ensures Pow256(0) == 1 && Pow256(1) == 0x100 && Pow256(2) == 0x1_0000 && Pow256(4) == 0x1_0000_0000
  {
    assert Pow256(1) == 256 * Pow256(0) && Pow256(2) == 256 * Pow256(1);
    assert Pow256(3) == 256 * Pow256(2) && Pow256(4) == 256 * Pow256(3);
  }

  // ----- strings -----

  /** A string of up to 31 bytes has its length in the header; a longer one has two bytes for it, or four if two are too few. */
  lemma StringFormat(t: seq<Byte>)
    requires |t| < 0x8000_0000
    ensures
      var s := PackString(t);
      if |t| < 32 then s == [4 + 8 * |t|] + t
      else
        var k := if |t| < 0x1_0000 then 2 else 4;
        |s| == 1 + k + |t| && s[0] == 5 + 8 * k && HasDigits(s, 1, |t|, k) && s[1 + k..] == t
  {
    hide LittleEndian;
    if |t| >= 32 {
      var k := if |t| < 0x1_0000 then 2 else 4;
      DigitsIn([Combine(TYPE_LONG_STRING, k)], |t|, k, t);
    }
  }

  // ----- other values -----

  lemma ScalarFormat(v: Value, depth: nat)
    requires WellFormed(v) && depth <= 32
    ensures
      var s := PackOne(v, depth);
      match v
      case Nil => s == Some([0])
      case Bool(b) => s == Some([if b then 9 else 1])
      case Num(Other(bits)) => s == Some([66] + bits)
      case Ptr(bits) => s == Some([3] + bits)
      case _ => true
  {
    hide PackInteger, PackString, PackArray, PackHash;
  }

  /** A table has the length of its array part in the header, up to 30, or else in an integer behind it; it ends with a nil. */
  lemma TableFormat(v: Value, depth: nat)
    requires v.Table? && WellFormed(v) && PackOne(v, depth).Some?
    ensures
      var s, n := PackOne(v, depth).value, |v.arr|;
      |s| >= 2 && s[|s| - 1] == 0 && if n < 31 then s[0] == 6 + 8 * n else s[0] == 254 && PackInteger(n, 2) <= s[1..]
  {
    HashEnds(v, 0, depth + 1);
    hide PackInteger, PackArray, PackHash;
  }

  lemma {:induction false} HashEnds(v: Value, i: nat, depth: nat)
    requires v.Table? && WellFormed(v) && i <= |v.entries|
    ensures var h := PackHash(v, i, depth); h.Some? ==> |h.value| > 0 && h.value[|h.value| - 1] == 0
    decreases |v.entries| - i
  {
    hide PackOne;
    if i < |v.entries| {
      assert EntryWellFormed(v.entries[i]);
      HashEnds(v, i + 1, depth);
    }
  }

  // ----- what can be written -----

  /** Tables in tables, counted from the outermost one; keys and values of the array part's places are written once. */
  function Height(v: Value): nat
    decreases v, 2, 0
  {
    if v.Table? then Larger(ArrayHeight(v, 0), HashHeight(v, 0)) else 0
  }

  function Larger(a: nat, b: nat): nat { if a < b then b else a }

  function ArrayHeight(v: Value, i: nat): nat
    requires v.Table? && i <= |v.arr|
    decreases v, 1, |v.arr| - i
  {
    if i == |v.arr| then 0 else Larger(1 + Height(v.arr[i]), ArrayHeight(v, i + 1))
  }

  function HashHeight(v: Value, i: nat): nat
    requires v.Table? && i <= |v.entries|
    decreases v, 1, |v.entries| - i
  {
    if i == |v.entries| then 0
    else
      var e := v.entries[i];
      if IsArrayKey(e.key, |v.arr|) then HashHeight(v, i + 1)
      else Larger(1 + Larger(Height(e.key), Height(e.val)), HashHeight(v, i + 1))
  }

  /** Nothing in it is a function, a thread or a full userdata. */
  predicate Plain(v: Value)
    decreases v, 2, 0
  {
    match v
    case Unsupported => false
    case Table(arr, entries) => PlainArray(v, 0) && PlainHash(v, 0)
    case _ => true
  }

  predicate PlainArray(v: Value, i: nat)
    requires v.Table? && i <= |v.arr|
    decreases v, 1, |v.arr| - i
  {
    i == |v.arr| || (Plain(v.arr[i]) && PlainArray(v, i + 1))
  }

  predicate PlainHash(v: Value, i: nat)
    requires v.Table? && i <= |v.entries|
    decreases v, 1, |v.entries| - i
  {
    i == |v.entries| ||
    var e := v.entries[i];
    (IsArrayKey(e.key, |v.arr|) || (Plain(e.key) && Plain(e.val))) && PlainHash(v, i + 1)
  }

  /** Writing raises an error exactly for what is no plain value, and for tables more than 32 deep. */
  lemma {:induction false} PackedExactly(v: Value, depth: nat)
    requires WellFormed(v)
    ensures PackOne(v, depth).Some? <==> Plain(v) && depth + Height(v) <= 32
    decreases v, 2, 0
  {
    if v.Table? && depth <= 32 {
      ArrayExactly(v, 0, depth + 1);
      HashExactly(v, 0, depth + 1);
    }
  }

  lemma {:induction false} ArrayExactly(v: Value, i: nat, depth: nat)
    requires v.Table? && WellFormed(v) && i <= |v.arr| && depth > 0
    ensures PackArray(v, i, depth).Some? <==> PlainArray(v, i) && (ArrayHeight(v, i) == 0 || depth - 1 + ArrayHeight(v, i) <= 32)
    decreases v, 1, |v.arr| - i
  {
    if i < |v.arr| {
      PackedExactly(v.arr[i], depth);
      ArrayExactly(v, i + 1, depth);
    }
  }

  lemma {:induction false} HashExactly(v: Value, i: nat, depth: nat)
    requires v.Table? && WellFormed(v) && i <= |v.entries| && depth > 0
    ensures PackHash(v, i, depth).Some? <==> PlainHash(v, i) && (HashHeight(v, i) == 0 || depth - 1 + HashHeight(v, i) <= 32)
    decreases v, 1, |v.entries| - i
  {
    if i < |v.entries| {
      var e := v.entries[i];
      assert EntryWellFormed(e);
      HashExactly(v, i + 1, depth);
      if !IsArrayKey(e.key, |v.arr|) {
        PackedExactly(e.key, depth);
        PackedExactly(e.val, depth);
      }
    }
  }
}
