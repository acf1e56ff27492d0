/** The binary format of lua-seri.c: what packing writes, what unpacking reads, and that they are inverse. */
module Seri {
  import opened Wrappers

  type Byte = x: int | 0 <= x < 256

  const TYPE_NIL := 0
  const TYPE_BOOLEAN := 1
  const TYPE_NUMBER := 2
  const TYPE_USERDATA := 3
  const TYPE_SHORT_STRING := 4
  const TYPE_LONG_STRING := 5
  const TYPE_TABLE := 6

  const MAX_COOKIE := 32
  const MAX_DEPTH := 32

  /** A Lua number: one that equals a 32-bit integer, or any other double by its eight bytes. */
  datatype Number = Whole(x: int) | Other(bits: seq<Byte>)

  /** A Lua value.  A table is given by the values at 1 to its raw length and by all its entries in the
      order of lua_next; Unsupported stands for functions, threads and full userdata. */
  datatype Value =
    | Nil
    | Bool(b: bool)
    | Num(n: Number)
    | Ptr(bits: seq<Byte>)
    | Str(s: seq<Byte>)
    | Table(arr: seq<Value>, entries: seq<Entry>)
    | Unsupported

  datatype Entry = Entry(key: Value, val: Value)

  // ----- bytes -----

  /** The low n bytes of a number, lowest first. */
  function LittleEndian(v: nat, n: nat): (s: seq<Byte>)
    ensures |s| == n
    decreases n
  {
    if n == 0 then [] else [v % 256] + LittleEndian(v / 256, n - 1)
  }

  function FromLittleEndian(s: seq<Byte>): nat {
    if s == [] then 0 else s[0] + 256 * FromLittleEndian(s[1..])
  }

  function Pow256(n: nat): (p: nat)
    ensures p > 0
  {
    if n == 0 then 1 else 256 * Pow256(n - 1)
  }

  lemma {:induction false} LittleEndianBack(v: nat, n: nat)
    requires v < Pow256(n)
    ensures FromLittleEndian(LittleEndian(v, n)) == v
    decreases n
  {
    if n > 0 { LittleEndianBack(v / 256, n - 1); }
  }

  /** A 32-bit int as a word, and back. */
  function Word(x: int): (w: nat)
    requires -0x8000_0000 <= x < 0x8000_0000
    ensures w < 0x1_0000_0000
  {
    if x < 0 then x + 0x1_0000_0000 else x
  }

  function Signed(w: nat): (x: int)
    requires w < 0x1_0000_0000
    ensures -0x8000_0000 <= x < 0x8000_0000 && Word(x) == w
  {
    if w >= 0x8000_0000 then w - 0x1_0000_0000 else w
  }

  function Combine(t: int, cookie: int): (b: Byte)
    requires 0 <= t < 8 && 0 <= cookie < 32
    ensures b % 8 == t && b / 8 == cookie
  {
    t + 8 * cookie
  }

  // ----- packing -----

  predicate Int32(x: int) { -0x8000_0000 <= x < 0x8000_0000 }

  function PackInteger(x: int, t: int): (s: seq<Byte>)
    requires Int32(x) && 0 <= t < 8
    ensures |s| > 0
  {
    if x == 0 then [Combine(t, 0)]
    else if x < 0 then [Combine(t, 4)] + LittleEndian(Word(x), 4)
    else if x < 0x100 then [Combine(t, 1)] + LittleEndian(x, 1)
    else if x < 0x10000 then [Combine(t, 2)] + LittleEndian(x, 2)
    else [Combine(t, 4)] + LittleEndian(Word(x), 4)
  }

  function PackString(s: seq<Byte>): seq<Byte>
    requires |s| < 0x8000_0000
  {
    if |s| < MAX_COOKIE then [Combine(TYPE_SHORT_STRING, |s|)] + s
    else if |s| < 0x10000 then [Combine(TYPE_LONG_STRING, 2)] + LittleEndian(|s|, 2) + s
    else [Combine(TYPE_LONG_STRING, 4)] + LittleEndian(|s|, 4) + s
  }

  /** The byte that announces a table, with its array size. */
  function PackArraySize(n: nat): seq<Byte>
    requires n < 0x8000_0000
  {
    if n >= MAX_COOKIE - 1 then [Combine(TYPE_TABLE, MAX_COOKIE - 1)] + PackInteger(n, TYPE_NUMBER)
    else [Combine(TYPE_TABLE, n)]
  }

  /** Values as Lua can hold them. */
  predicate WellFormed(v: Value) {
    match v
    case Num(Whole(x)) => Int32(x)
    case Num(Other(bits)) => |bits| == 8
    case Ptr(bits) => |bits| == 8
    case Str(s) => |s| < 0x8000_0000
    case Table(arr, entries) =>
      && |arr| < 0x8000_0000
      && (forall i :: 0 <= i < |arr| ==> WellFormed(arr[i]))
      && (forall i :: 0 <= i < |entries| ==> EntryWellFormed(entries[i]))
    case _ => true
  }

  predicate EntryWellFormed(e: Entry) { !e.key.Nil? && WellFormed(e.key) && WellFormed(e.val) }

  /** Is this the key of a place in the array part? */
  predicate IsArrayKey(k: Value, n: nat) { k.Num? && k.n.Whole? && 0 < k.n.x <= n }

  function Append(a: Option<seq<Byte>>, b: Option<seq<Byte>>): Option<seq<Byte>> {
    if a.Some? && b.Some? then Some(a.value + b.value) else None
  }

  lemma AppendNothing(a: Option<seq<Byte>>)
    ensures Append(Some([]), a) == a
  {
    if a.Some? { assert [] + a.value == a.value; }
  }

  lemma AppendTwice(a: seq<Byte>, b: seq<Byte>, c: Option<seq<Byte>>)
    ensures Append(Some(a + b), c) == Append(Some(a), Append(Some(b), c))
  {
    if c.Some? { assert (a + b) + c.value == a + (b + c.value); }
  }

  /** What _pack_one writes; nothing if it raises an error. */
  function PackOne(v: Value, depth: nat): Option<seq<Byte>>
    requires WellFormed(v)
    decreases v, 2, 0
  {
    if depth > MAX_DEPTH then None
    else match v
      case Nil => Some([Combine(TYPE_NIL, 0)])
      case Bool(b) => Some([Combine(TYPE_BOOLEAN, if b then 1 else 0)])
      case Num(Whole(x)) => Some(PackInteger(x, TYPE_NUMBER))
      case Num(Other(bits)) => Some([Combine(TYPE_NUMBER, 8)] + bits)
      case Ptr(bits) => Some([Combine(TYPE_USERDATA, 0)] + bits)
      case Str(s) => Some(PackString(s))
      case Table(arr, entries) =>
        Append(Some(PackArraySize(|arr|)), Append(PackArray(v, 0, depth + 1), PackHash(v, 0, depth + 1)))
      case Unsupported => None
  }

  /** The array part from place i on. */
  function PackArray(v: Value, i: nat, depth: nat): Option<seq<Byte>>
    requires v.Table? && WellFormed(v) && i <= |v.arr|
    decreases v, 1, |v.arr| - i
  {
    if i == |v.arr| then Some([]) else Append(PackOne(v.arr[i], depth), PackArray(v, i + 1, depth))
  }

  /** The entries from the i-th on, without those of the array part, and the nil that ends them. */
  function PackHash(v: Value, i: nat, depth: nat): Option<seq<Byte>>
    requires v.Table? && WellFormed(v) && i <= |v.entries|
    decreases v, 1, |v.entries| - i
  {
    if i == |v.entries| then Some([Combine(TYPE_NIL, 0)])
    else
      var e := v.entries[i];
      assert EntryWellFormed(e);
      if IsArrayKey(e.key, |v.arr|) then PackHash(v, i + 1, depth)
      else Append(PackOne(e.key, depth), Append(PackOne(e.val, depth), PackHash(v, i + 1, depth)))
  }

  /** _luaseri_pack: all values from the i-th on, one after the other. */
  function PackAll(vs: seq<Value>, i: nat): Option<seq<Byte>>
    requires i <= |vs| && forall j :: 0 <= j < |vs| ==> WellFormed(vs[j])
    decreases |vs| - i
  {
    if i == |vs| then Some([]) else Append(PackOne(vs[i], 0), PackAll(vs, i + 1))
  }

  // ----- unpacking -----

  datatype Read<+T> = Invalid | Got(value: T, rest: seq<Byte>)

  /** _get_integer. */
  function GetInteger(s: seq<Byte>, cookie: nat): (r: Read<int>)
    ensures r.Got? ==> |r.rest| <= |s| && Int32(r.value)
  {
    match cookie
    case 0 => Got(0, s)
    case 1 => if |s| < 1 then Invalid else Bounded(s[..1]); Got(FromLittleEndian(s[..1]), s[1..])
    case 2 => if |s| < 2 then Invalid else Bounded(s[..2]); Got(FromLittleEndian(s[..2]), s[2..])
    case 4 => if |s| < 4 then Invalid else Bounded(s[..4]); Got(Signed(FromLittleEndian(s[..4])), s[4..])
    case _ => Invalid
  }

  lemma {:induction false} Bounded(s: seq<Byte>)
    ensures FromLittleEndian(s) < Pow256(|s|)
    ensures Pow256(1) == 0x100 && Pow256(2) == 0x1_0000 && Pow256(4) == 0x1_0000_0000
  {
    assert Pow256(3) == 256 * Pow256(2);
    if s != [] { Bounded(s[1..]); }
  }

  function GetNumber(s: seq<Byte>, cookie: nat): (r: Read<Number>)
    ensures r.Got? ==> |r.rest| <= |s|
  {
    if cookie == 8 then
      if |s| < 8 then Invalid else Got(Other(s[..8]), s[8..])
    else
      var r := GetInteger(s, cookie);
      if r.Got? then Got(Whole(r.value), r.rest) else Invalid
  }

  /** The array size of a table with the given cookie. */
  function GetArraySize(s: seq<Byte>, cookie: nat): (r: Read<int>)
    ensures r.Got? ==> |r.rest| <= |s|
  {
    if cookie != MAX_COOKIE - 1 then Got(cookie, s)
    else if s == [] || s[0] % 8 != TYPE_NUMBER then Invalid
    else
      var r := GetNumber(s[1..], s[0] / 8);
      if r.Got? && r.value.Whole? then Got(r.value.x, r.rest) else Invalid
  }

  function GetString(s: seq<Byte>, len: nat): (r: Read<Value>)
    ensures r.Got? ==> |r.rest| <= |s|
  {
    if len >= 0x8000_0000 || |s| < len then Invalid else Got(Str(s[..len]), s[len..])
  }

  function UnpackOne(s: seq<Byte>): (r: Read<Value>)
    ensures r.Got? ==> |r.rest| < |s|
    decreases |s|, 0
  {
    if s == [] then Invalid else PushValue(s[1..], s[0] % 8, s[0] / 8)
  }

  function PushValue(s: seq<Byte>, t: int, cookie: nat): (r: Read<Value>)
    ensures r.Got? ==> |r.rest| <= |s|
    decreases |s|, 3
  {
    if t == TYPE_NIL then Got(Nil, s)
    else if t == TYPE_BOOLEAN then Got(Bool(cookie != 0), s)
    else if t == TYPE_NUMBER then
      var r := GetNumber(s, cookie);
      if r.Got? then Got(Num(r.value), r.rest) else Invalid
    else if t == TYPE_USERDATA then if |s| < 8 then Invalid else Got(Ptr(s[..8]), s[8..])
    else if t == TYPE_SHORT_STRING then GetString(s, cookie)
    else if t == TYPE_LONG_STRING then
      if cookie == 2 then if |s| < 2 then Invalid else GetString(s[2..], FromLittleEndian(s[..2]))
      else if cookie == 4 then if |s| < 4 then Invalid else GetString(s[4..], FromLittleEndian(s[..4]))
      else Invalid
    else if t == TYPE_TABLE then
      var n := GetArraySize(s, cookie);
      if n.Invalid? then Invalid
      else
        var a := UnpackArray(n.rest, if n.value < 0 then 0 else n.value);
        if a.Invalid? then Invalid
        else
          var h := UnpackHash(a.rest);
          if h.Invalid? then Invalid else Got(Table(a.value, h.value), h.rest)
    else Invalid
  }

  function UnpackArray(s: seq<Byte>, n: nat): (r: Read<seq<Value>>)
    ensures r.Got? ==> |r.rest| <= |s|
    decreases |s|, 1
  {
    if n == 0 then Got([], s)
    else
      var x := UnpackOne(s);
      if x.Invalid? then Invalid
      else
        var xs := UnpackArray(x.rest, n - 1);
        if xs.Invalid? then Invalid else Got([x.value] + xs.value, xs.rest)
  }

  function UnpackHash(s: seq<Byte>): (r: Read<seq<Entry>>)
    ensures r.Got? ==> |r.rest| <= |s|
    decreases |s|, 1
  {
    var k := UnpackOne(s);
    if k.Invalid? then Invalid
    else if k.value.Nil? then Got([], k.rest)
    else
      var x := UnpackOne(k.rest);
      if x.Invalid? then Invalid
      else
        var es := UnpackHash(x.rest);
        if es.Invalid? then Invalid else Got([Entry(k.value, x.value)] + es.value, es.rest)
  }

  /** _luaseri_unpack: values until the bytes are used up. */
  function UnpackAll(s: seq<Byte>): Option<seq<Value>>
    decreases |s|
  {
    if s == [] then Some([])
    else
      var x := UnpackOne(s);
      if x.Invalid? then None
      else
        var xs := UnpackAll(x.rest);
        if xs.None? then None else Some([x.value] + xs.value)
  }

  // ----- round trip -----

  /** A value without the table entries that repeat the array part. */
  function Strip(v: Value): Value
    decreases v, 2, 0
  {
    if v.Table? then Table(StripArray(v, 0), StripEntries(v, 0)) else v
  }

  function StripArray(v: Value, i: nat): (a: seq<Value>)
    requires v.Table? && i <= |v.arr|
    ensures |a| == |v.arr| - i
    decreases v, 1, |v.arr| - i
  {
    if i == |v.arr| then [] else [Strip(v.arr[i])] + StripArray(v, i + 1)
  }

  function StripEntries(v: Value, i: nat): seq<Entry>
    requires v.Table? && i <= |v.entries|
    decreases v, 1, |v.entries| - i
  {
    if i == |v.entries| then []
    else
      var e := v.entries[i];
      if IsArrayKey(e.key, |v.arr|) then StripEntries(v, i + 1)
      else [Entry(Strip(e.key), Strip(e.val))] + StripEntries(v, i + 1)
  }

  /** How many bytes an integer takes, and its cookie. */
  function Width(x: int): nat {
    if x == 0 then 0 else if x < 0 then 4 else if x < 0x100 then 1 else if x < 0x10000 then 2 else 4
  }

  function Body(x: int): (s: seq<Byte>)
    requires Int32(x)
    ensures |s| == Width(x)
  {
    LittleEndian(Word(x), Width(x))
  }

  lemma PackIntegerIs(x: int, t: int)
    requires Int32(x) && 0 <= t < 8
    ensures PackInteger(x, t) == [Combine(t, Width(x))] + Body(x)
  {
  }

  lemma BodyBack(x: int)
    requires Int32(x)
    ensures x != 0 ==> FromLittleEndian(Body(x)) == Word(x)
  {
    Bounded([]);
    if x != 0 { LittleEndianBack(Word(x), Width(x)); }
  }

  lemma IntegerBack(x: int, t: int, rest: seq<Byte>)
    requires Int32(x) && 0 <= t < 8
    ensures
      var s := PackInteger(x, t) + rest;
      s[0] % 8 == t && GetInteger(s[1..], s[0] / 8) == Got(x, rest)
  {
    var s, n := PackInteger(x, t) + rest, Width(x);
    PackIntegerIs(x, t);
    BodyBack(x);
    SignedWord(x);
    hide PackInteger, LittleEndian, FromLittleEndian, Body, Combine;
    assert s[1..] == Body(x) + rest && s[0] == Combine(t, n);
    assert (Body(x) + rest)[..n] == Body(x) && (Body(x) + rest)[n..] == rest;
  }

  lemma SignedWord(x: int)
    requires Int32(x)
    ensures Signed(Word(x)) == x
  {
  }

  lemma PrefixOff(a: seq<Byte>, b: seq<Byte>)
    ensures (a + b)[..|a|] == a && (a + b)[|a|..] == b
  {
  }

  lemma LongStringBack(t: seq<Byte>, n: nat, rest: seq<Byte>)
    requires (n == 2 && |t| < 0x10000) || (n == 4 && |t| < 0x8000_0000)
    ensures UnpackOne([Combine(TYPE_LONG_STRING, n)] + LittleEndian(|t|, n) + t + rest) == Got(Str(t), rest)
  {
    hide LittleEndian, FromLittleEndian;
    var len := LittleEndian(|t|, n);
    Bounded([]);
    LittleEndianBack(|t|, n);
    var s := [Combine(TYPE_LONG_STRING, n)] + len + t + rest;
    assert s[1..] == len + (t + rest);
    PrefixOff(len, t + rest);
    PrefixOff(t, rest);
  }

  lemma StringBack(t: seq<Byte>, rest: seq<Byte>)
    requires |t| < 0x8000_0000
    ensures UnpackOne(PackString(t) + rest) == Got(Str(t), rest)
  {
    hide LittleEndian, FromLittleEndian, UnpackArray, UnpackHash;
    if |t| < MAX_COOKIE {
      assert (PackString(t) + rest)[1..] == t + rest;
      PrefixOff(t, rest);
    } else {
      var n := if |t| < 0x10000 then 2 else 4;
      LongStringBack(t, n, rest);
    }
  }

  lemma ArraySizeBack(n: nat, rest: seq<Byte>)
    requires n < 0x8000_0000
    ensures
      var s := PackArraySize(n) + rest;
      s[0] % 8 == TYPE_TABLE && GetArraySize(s[1..], s[0] / 8) == Got(n, rest)
  {
    hide PackInteger, LittleEndian, FromLittleEndian;
    var s := PackArraySize(n) + rest;
    if n >= MAX_COOKIE - 1 {
      IntegerBack(n, TYPE_NUMBER, rest);
      assert s[1..] == PackInteger(n, TYPE_NUMBER) + rest;
      NotEight(n, TYPE_NUMBER);
    } else {
      assert s[1..] == rest;
    }
  }

  lemma NotEight(x: int, t: int)
    requires Int32(x) && 0 <= t < 8
    ensures PackInteger(x, t)[0] / 8 != 8
  {
  }

  /** Unpacking what _pack_one wrote gives the value back and leaves what follows. */
  lemma {:induction false} OneBack(v: Value, depth: nat, rest: seq<Byte>)
    requires WellFormed(v) && PackOne(v, depth).Some?
    ensures UnpackOne(PackOne(v, depth).value + rest) == Got(Strip(v), rest)
    decreases v, 2, 0
  {
    var s := PackOne(v, depth).value + rest;
    match v
    case Num(Whole(x)) => IntegerBack(x, TYPE_NUMBER, rest); NotEight(x, TYPE_NUMBER);
    case Num(Other(bits)) => assert s[1..] == bits + rest;
    case Ptr(bits) => assert s[1..] == bits + rest;
    case Str(t) => StringBack(t, rest);
    case Table(arr, entries) => TableBack(v, depth, rest);
    case Nil => assert s[1..] == rest;
    case Bool(_) => assert s[1..] == rest;
    case Unsupported =>
  }

  lemma {:induction false} TableBack(v: Value, depth: nat, rest: seq<Byte>)
    requires v.Table? && WellFormed(v) && PackOne(v, depth).Some?
    ensures UnpackOne(PackOne(v, depth).value + rest) == Got(Strip(v), rest)
    decreases v, 1, |v.arr| + |v.entries| + 1
  {
    var size, a, h := PackArraySize(|v.arr|), PackArray(v, 0, depth + 1).value, PackHash(v, 0, depth + 1).value;
    var s := PackOne(v, depth).value + rest;
    assert s == size + (a + (h + rest));
    ArraySizeBack(|v.arr|, a + (h + rest));
    ArrayBack(v, 0, depth + 1, h + rest);
    HashBack(v, 0, depth + 1, rest);
  }

  lemma {:induction false} ArrayBack(v: Value, i: nat, depth: nat, rest: seq<Byte>)
    requires v.Table? && WellFormed(v) && i <= |v.arr| && PackArray(v, i, depth).Some?
    ensures UnpackArray(PackArray(v, i, depth).value + rest, |v.arr| - i) == Got(StripArray(v, i), rest)
    decreases v, 1, |v.arr| - i
  {
    hide PackOne, UnpackOne, PushValue, Strip;
    if i < |v.arr| {
      var x, xs := PackOne(v.arr[i], depth).value, PackArray(v, i + 1, depth).value;
      assert PackArray(v, i, depth).value + rest == x + (xs + rest);
      OneBack(v.arr[i], depth, xs + rest);
      ArrayBack(v, i + 1, depth, rest);
    } else {
      assert PackArray(v, i, depth).value + rest == rest;
    }
  }

  lemma {:induction false} HashBack(v: Value, i: nat, depth: nat, rest: seq<Byte>)
    requires v.Table? && WellFormed(v) && i <= |v.entries| && PackHash(v, i, depth).Some?
    ensures UnpackHash(PackHash(v, i, depth).value + rest) == Got(StripEntries(v, i), rest)
    decreases v, 1, |v.entries| - i
  {
    var s := PackHash(v, i, depth).value + rest;
    if i == |v.entries| {
      assert s == [Combine(TYPE_NIL, 0)] + rest && s[1..] == rest;
      assert UnpackOne(s) == Got(Nil, rest);
    } else {
      var e := v.entries[i];
      assert EntryWellFormed(e);
      HashBack(v, i + 1, depth, rest);
      if !IsArrayKey(e.key, |v.arr|) {
        var k, x, es := PackOne(e.key, depth).value, PackOne(e.val, depth).value, PackHash(v, i + 1, depth).value;
        assert s == k + (x + (es + rest));
        OneBack(e.key, depth, x + (es + rest));
        OneBack(e.val, depth, es + rest);
      }
    }
  }

  function StripAll(vs: seq<Value>, i: nat): seq<Value>
    requires i <= |vs|
    decreases |vs| - i
  {
    if i == |vs| then [] else [Strip(vs[i])] + StripAll(vs, i + 1)
  }

  /** What _luaseri_pack packs, _luaseri_unpack unpacks, and it uses up all bytes. */
  lemma {:induction false} AllBack(vs: seq<Value>, i: nat)
    requires i <= |vs| && forall j :: 0 <= j < |vs| ==> WellFormed(vs[j])
    requires PackAll(vs, i).Some?
    ensures UnpackAll(PackAll(vs, i).value) == Some(StripAll(vs, i))
    decreases |vs| - i
  {
    if i < |vs| {
      var x, xs := PackOne(vs[i], 0).value, PackAll(vs, i + 1).value;
      OneBack(vs[i], 0, xs);
      AllBack(vs, i + 1);
    }
  }

  // ----- what a table means -----

  /** The value of the first entry with the key. */
  function Find(es: seq<Entry>, k: Value): Value {
    if es == [] then Nil else if es[0].key == k then es[0].val else Find(es[1..], k)
  }

  /** Table lookup. */
  function Get(t: Value, k: Value): Value
    requires t.Table?
  {
    if IsArrayKey(k, |t.arr|) then t.arr[k.n.x - 1] else Find(t.entries, k)
  }

  lemma {:induction false} StripArrayAt(v: Value, i: nat, j: nat)
    requires v.Table? && i <= j < |v.arr|
    ensures StripArray(v, i)[j - i] == Strip(v.arr[j])
    decreases j - i
  {
    if i < j { StripArrayAt(v, i + 1, j); }
  }

  lemma {:induction false} FindStripped(v: Value, i: nat, k: Value)
    requires v.Table? && i <= |v.entries| && !k.Table? && !IsArrayKey(k, |v.arr|)
    ensures Find(StripEntries(v, i), k) == Strip(Find(v.entries[i..], k))
    decreases |v.entries| - i
  {
    if i < |v.entries| {
      FindStripped(v, i + 1, k);
      assert v.entries[i..][1..] == v.entries[i + 1..];
      assert IsArrayKey(v.entries[i].key, |v.arr|) ==> v.entries[i].key != k;
    }
  }

  /** Under every key that is no table, the unpacked table holds the packed table's value, whatever the
      order of the entries was. */
  lemma GetStripped(v: Value, k: Value)
    requires v.Table? && !k.Table?
    ensures Get(Strip(v), k) == Strip(Get(v, k))
  {
    if IsArrayKey(k, |v.arr|) { StripArrayAt(v, 0, k.n.x - 1); }
    else {
      FindStripped(v, 0, k);
      assert v.entries[0..] == v.entries;
    }
  }
}
