/** The reader of lua-seri.c, over a flat buffer (rball_init). */
module SeriReader {
  import opened Wrappers
  import opened Seri

  /** Put values read before in front of those still to be read. */
  function Before<T>(xs: seq<T>, r: Read<seq<T>>): Read<seq<T>> {
    if r.Invalid? then Invalid else Got(xs + r.value, r.rest)
  }

  lemma BeforeNothing<T>(r: Read<seq<T>>)
    ensures Before([], r) == r
  {
    if r.Got? { assert [] + r.value == r.value; }
  }

  lemma BeforeOne<T>(xs: seq<T>, x: T, r: Read<seq<T>>)
    ensures Before(xs + [x], r) == Before(xs, Before([x], r))
  {
    if r.Got? { assert (xs + [x]) + r.value == xs + ([x] + r.value); }
  }

  class ReadBlock {
    const buffer: array<Byte>
    var len: nat
    var ptr: nat

    constructor (buffer: array<Byte>, size: nat)
      requires size <= buffer.Length
      ensures this.buffer == buffer && Valid() && Rest() == buffer[..size]
    {
      this.buffer := buffer;
      len, ptr := size, 0;
    }

    ghost predicate Valid()
      reads this
    {
      ptr + len <= buffer.Length
    }

    /** The bytes not read yet. */
    ghost function Rest(): (s: seq<Byte>)
      requires Valid()
      reads this, buffer
      ensures |s| == len
    {
      buffer[ptr..ptr + len]
    }

    /** rb_read: the next bytes, if there are so many. */
    method Fetch(sz: nat) returns (r: Option<seq<Byte>>)
      requires Valid()
      modifies this
      ensures Valid()
      ensures if old(len) < sz then r.None? && Rest() == old(Rest())
              else r == Some(old(Rest())[..sz]) && Rest() == old(Rest())[sz..]
    {
      if len < sz { return None; }
      ghost var s := Rest();
      var at := ptr;
      ptr := ptr + sz;
      len := len - sz;
      r := Some(buffer[at..at + sz]);
      assert r.value == s[..sz] && Rest() == s[sz..];
    }

    method ReadInteger(cookie: nat) returns (r: Option<int>)
      requires Valid()
      modifies this
      ensures Valid()
      ensures var g := GetInteger(old(Rest()), cookie); if g.Got? then r == Some(g.value) && Rest() == g.rest else r.None?
    {
      hide FromLittleEndian;
      if cookie == 0 { return Some(0); }
      if cookie !in {1, 2, 4} { return None; }
      var n := Fetch(cookie);
      if n.None? { return None; }
      Bounded(n.value);
      var w := FromLittleEndian(n.value);
      r := Some(if cookie == 4 then Signed(w) else w);
    }

    method ReadNumber(cookie: nat) returns (r: Option<Number>)
      requires Valid()
      modifies this
      ensures Valid()
      ensures var g := GetNumber(old(Rest()), cookie); if g.Got? then r == Some(g.value) && Rest() == g.rest else r.None?
    {
      hide GetInteger;
      if cookie == 8 {
        var n := Fetch(8);
        return if n.Some? then Some(Other(n.value)) else None;
      }
      var x := ReadInteger(cookie);
      r := if x.Some? then Some(Whole(x.value)) else None;
    }

    method ReadArraySize(cookie: nat) returns (r: Option<int>)
      requires Valid()
      modifies this
      ensures Valid()
      ensures var g := GetArraySize(old(Rest()), cookie); if g.Got? then r == Some(g.value) && Rest() == g.rest else r.None?
    {
      hide GetNumber;
      if cookie != MAX_COOKIE - 1 { return Some(cookie); }
      var t := Fetch(1);
      if t.None? || t.value[0] % 8 != TYPE_NUMBER { return None; }
      var n := ReadNumber(t.value[0] / 8);
      r := if n.Some? && n.value.Whole? then Some(n.value.x) else None;
    }

    method ReadString(n: nat) returns (r: Option<Value>)
      requires Valid()
      modifies this
      ensures Valid()
      ensures var g := GetString(old(Rest()), n); if g.Got? then r == Some(g.value) && Rest() == g.rest else r.None?
    {
      if n >= 0x8000_0000 { return None; }
      var s := Fetch(n);
      r := if s.Some? then Some(Str(s.value)) else None;
    }

    method ReadOne() returns (r: Option<Value>)
      requires Valid()
      modifies this
      ensures Valid()
      ensures var g := UnpackOne(old(Rest())); if g.Got? then r == Some(g.value) && Rest() == g.rest else r.None?
      decreases len, 0
    {
      hide PushValue;
      var t := Fetch(1);
      if t.None? { return None; }
      r := ReadValue(t.value[0] % 8, t.value[0] / 8);
    }

    method ReadLongString(cookie: nat) returns (r: Option<Value>)
      requires Valid()
      modifies this
      ensures Valid()
      ensures
        var g := PushValue(old(Rest()), TYPE_LONG_STRING, cookie);
        if g.Got? then r == Some(g.value) && Rest() == g.rest else r.None?
    {
      hide FromLittleEndian, GetString;
      if cookie != 2 && cookie != 4 { return None; }
      var n := Fetch(cookie);
      if n.None? { return None; }
      r := ReadString(FromLittleEndian(n.value));
    }

    method ReadValue(t: int, cookie: nat) returns (r: Option<Value>)
      requires Valid()
      modifies this
      ensures Valid()
      ensures var g := PushValue(old(Rest()), t, cookie); if g.Got? then r == Some(g.value) && Rest() == g.rest else r.None?
      decreases len, 3
    {
      hide GetNumber, GetString, GetArraySize, UnpackArray, UnpackHash;
      if t == TYPE_NIL { r := Some(Nil); }
      else if t == TYPE_BOOLEAN { r := Some(Bool(cookie != 0)); }
      else if t == TYPE_NUMBER {
        var n := ReadNumber(cookie);
        r := if n.Some? then Some(Num(n.value)) else None;
      }
      else if t == TYPE_USERDATA {
        var p := Fetch(8);
        r := if p.Some? then Some(Ptr(p.value)) else None;
      }
      else if t == TYPE_SHORT_STRING { r := ReadString(cookie); }
      else if t == TYPE_LONG_STRING { r := ReadLongString(cookie); }
      else if t == TYPE_TABLE { r := ReadTable(cookie); }
      else { r := None; }
    }

    method ReadTable(cookie: nat) returns (r: Option<Value>)
      requires Valid()
      modifies this
      ensures Valid()
      ensures
        var g := PushValue(old(Rest()), TYPE_TABLE, cookie);
        if g.Got? then r == Some(g.value) && Rest() == g.rest else r.None?
      decreases len, 2
    {
      hide GetArraySize, UnpackArray, UnpackHash;
      var n := ReadArraySize(cookie);
      if n.None? { return None; }
      var arr := ReadArray(if n.value < 0 then 0 else n.value);
      if arr.None? { return None; }
      var entries := ReadHash();
      r := if entries.Some? then Some(Table(arr.value, entries.value)) else None;
    }

    method ReadArray(n: nat) returns (r: Option<seq<Value>>)
      requires Valid()
      modifies this
      ensures Valid()
      ensures var g := UnpackArray(old(Rest()), n); if g.Got? then r == Some(g.value) && Rest() == g.rest else r.None?
      decreases len, 1
    {
      hide UnpackOne;
      ghost var all := UnpackArray(Rest(), n);
      var xs := [];
      BeforeNothing(all);
      var i := 0;
      while i < n
        invariant 0 <= i <= n && Valid() && len <= old(len)
        invariant Before(xs, UnpackArray(Rest(), n - i)) == all
      {
        ghost var s := Rest();
        var x := ReadOne();
        if x.None? { return None; }
        assert UnpackArray(s, n - i) == Before([x.value], UnpackArray(Rest(), n - i - 1));
        BeforeOne(xs, x.value, UnpackArray(Rest(), n - i - 1));
        xs := xs + [x.value];
        i := i + 1;
      }
      assert UnpackArray(Rest(), 0) == Got([], Rest()) && xs + [] == xs;
      r := Some(xs);
    }

    method ReadHash() returns (r: Option<seq<Entry>>)
      requires Valid()
      modifies this
      ensures Valid()
      ensures var g := UnpackHash(old(Rest())); if g.Got? then r == Some(g.value) && Rest() == g.rest else r.None?
      decreases len, 1
    {
      hide UnpackOne;
      ghost var all := UnpackHash(Rest());
      var es := [];
      BeforeNothing(all);
      while true
        invariant Valid() && len <= old(len) && Before(es, UnpackHash(Rest())) == all
        decreases len
      {
        ghost var s := Rest();
        var k := ReadOne();
        if k.None? { return None; }
        if k.value.Nil? {
          assert UnpackHash(s) == Got([], Rest()) && es + [] == es;
          return Some(es);
        }
        var x := ReadOne();
        if x.None? { return None; }
        assert UnpackHash(s) == Before([Entry(k.value, x.value)], UnpackHash(Rest()));
        BeforeOne(es, Entry(k.value, x.value), UnpackHash(Rest()));
        es := es + [Entry(k.value, x.value)];
      }
    }
  }

  /** _luaseri_unpack: all values of a buffer, or an error. */
  method LuaSeriUnpack(buffer: array<Byte>, size: nat) returns (r: Option<seq<Value>>)
    requires size <= buffer.Length
    ensures r == UnpackAll(buffer[..size])
  {
    hide UnpackOne;
    var rb := new ReadBlock(buffer, size);
    ghost var all := UnpackAll(buffer[..size]);
    var xs: seq<Value> := [];
    InFrontNothing(all);
    while rb.len > 0
      invariant rb.Valid() && rb.buffer == buffer && fresh(rb)
      invariant all == InFront(xs, UnpackAll(rb.Rest()))
      decreases rb.len
    {
      ghost var s := rb.Rest();
      var x := rb.ReadOne();
      if x.None? { return None; }
      assert UnpackAll(s) == InFront([x.value], UnpackAll(rb.Rest()));
      InFrontOne(xs, x.value, UnpackAll(rb.Rest()));
      xs := xs + [x.value];
    }
    InFrontEnd(xs);
    assert rb.Rest() == [];
    r := Some(xs);
  }

  function InFront(xs: seq<Value>, r: Option<seq<Value>>): Option<seq<Value>> {
    if r.None? then None else Some(xs + r.value)
  }

  lemma InFrontNothing(r: Option<seq<Value>>)
    ensures InFront([], r) == r
  {
    if r.Some? { assert [] + r.value == r.value; }
  }

  lemma InFrontOne(xs: seq<Value>, x: Value, r: Option<seq<Value>>)
    ensures InFront(xs + [x], r) == InFront(xs, InFront([x], r))
  {
    if r.Some? { assert (xs + [x]) + r.value == xs + ([x] + r.value); }
  }

  lemma InFrontEnd(xs: seq<Value>)
    ensures InFront(xs, UnpackAll([])) == Some(xs)
  {
    assert xs + [] == xs;
  }
}
