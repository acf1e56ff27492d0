/** Reading looks at no more than what it uses up, so a message that is cut off anywhere is not read as a value. */
module SeriCut {
  import opened Wrappers
  import opened Seri

  /** The same, with more bytes behind. */
  function Behind<T>(r: Read<T>, t: seq<Byte>): Read<T> { if r.Got? then Got(r.value, r.rest + t) else Invalid }

  lemma Parts(s: seq<Byte>, t: seq<Byte>, n: nat)
    requires n <= |s|
    ensures (s + t)[..n] == s[..n] && (s + t)[n..] == s[n..] + t
  {
  }

  lemma IntegerOn(s: seq<Byte>, cookie: nat, t: seq<Byte>)
    requires GetInteger(s, cookie).Got?
    ensures GetInteger(s + t, cookie) == Behind(GetInteger(s, cookie), t)
  {
    hide FromLittleEndian;
    if cookie <= |s| { Parts(s, t, cookie); }
  }

  lemma NumberOn(s: seq<Byte>, cookie: nat, t: seq<Byte>)
    requires GetNumber(s, cookie).Got?
    ensures GetNumber(s + t, cookie) == Behind(GetNumber(s, cookie), t)
  {
    hide GetInteger;
    if cookie == 8 { Parts(s, t, 8); } else { IntegerOn(s, cookie, t); }
  }

  lemma ArraySizeOn(s: seq<Byte>, cookie: nat, t: seq<Byte>)
    requires GetArraySize(s, cookie).Got?
    ensures GetArraySize(s + t, cookie) == Behind(GetArraySize(s, cookie), t)
  {
    hide GetNumber;
    if cookie == MAX_COOKIE - 1 {
      Parts(s, t, 1);
      NumberOn(s[1..], s[0] / 8, t);
    }
  }

  lemma StringOn(s: seq<Byte>, len: nat, t: seq<Byte>)
    requires GetString(s, len).Got?
    ensures GetString(s + t, len) == Behind(GetString(s, len), t)
  {
    Parts(s, t, len);
  }

  /** More bytes behind a value change nothing of it. */
  lemma {:induction false} OneOn(s: seq<Byte>, t: seq<Byte>)
    requires UnpackOne(s).Got?
    ensures UnpackOne(s + t) == Behind(UnpackOne(s), t)
    decreases |s|, 0
  {
    hide PushValue;
    Parts(s, t, 1);
    assert (s + t)[0] == s[0];
    ValueOn(s[1..], s[0] % 8, s[0] / 8, t);
  }

  lemma {:induction false} ValueOn(s: seq<Byte>, ty: int, cookie: nat, t: seq<Byte>)
    requires PushValue(s, ty, cookie).Got?
    ensures PushValue(s + t, ty, cookie) == Behind(PushValue(s, ty, cookie), t)
    decreases |s|, 3
  {
    hide GetNumber, GetString, GetArraySize, UnpackArray, UnpackHash, FromLittleEndian;
    if ty == TYPE_NUMBER { NumberOn(s, cookie, t); }
    else if ty == TYPE_USERDATA { Parts(s, t, 8); }
    else if ty == TYPE_SHORT_STRING { StringOn(s, cookie, t); }
    else if ty == TYPE_LONG_STRING {
      Parts(s, t, cookie);
      StringOn(s[cookie..], FromLittleEndian(s[..cookie]), t);
    } else if ty == TYPE_TABLE {
      ArraySizeOn(s, cookie, t);
      var n := GetArraySize(s, cookie);
      ArrayOn(n.rest, if n.value < 0 then 0 else n.value, t);
      HashOn(UnpackArray(n.rest, if n.value < 0 then 0 else n.value).rest, t);
    }
  }

  lemma {:induction false} ArrayOn(s: seq<Byte>, n: nat, t: seq<Byte>)
    requires UnpackArray(s, n).Got?
    ensures UnpackArray(s + t, n) == Behind(UnpackArray(s, n), t)
    decreases |s|, 1
  {
    hide UnpackOne;
    if n > 0 {
      OneOn(s, t);
      ArrayOn(UnpackOne(s).rest, n - 1, t);
    }
  }

  lemma {:induction false} HashOn(s: seq<Byte>, t: seq<Byte>)
    requires UnpackHash(s).Got?
    ensures UnpackHash(s + t) == Behind(UnpackHash(s), t)
    decreases |s|, 1
  {
    hide UnpackOne;
    OneOn(s, t);
    var k := UnpackOne(s);
    if !k.value.Nil? {
      OneOn(k.rest, t);
      HashOn(UnpackOne(k.rest).rest, t);
    }
  }

  /** No beginning of what was written for a value is read as a value. */
  lemma CutIsInvalid(v: Value, depth: nat, n: nat)
    requires WellFormed(v) && PackOne(v, depth).Some? && n < |PackOne(v, depth).value|
    ensures UnpackOne(PackOne(v, depth).value[..n]).Invalid?
  {
    hide PackOne, UnpackOne;
    var s := PackOne(v, depth).value;
    OneBack(v, depth, []);
    assert s[..n] + s[n..] == s && s + [] == s;
    if UnpackOne(s[..n]).Got? { OneOn(s[..n], s[n..]); }
  }

  /** The first n bytes are the bytes of some of the values, from the i-th on. */
  predicate Boundary(vs: seq<Value>, i: nat, n: nat)
    requires i <= |vs| && forall j :: 0 <= j < |vs| ==> WellFormed(vs[j])
    decreases |vs| - i
  {
    n == 0 ||
    (i < |vs| && PackOne(vs[i], 0).Some? && |PackOne(vs[i], 0).value| <= n && Boundary(vs, i + 1, n - |PackOne(vs[i], 0).value|))
  }

  /** A message that is cut off is read exactly if it is cut between two values. */
  lemma {:induction false} CutBetween(vs: seq<Value>, i: nat, n: nat)
    requires (forall j :: 0 <= j < |vs| ==> WellFormed(vs[j])) && i <= |vs| && PackAll(vs, i).Some? && n <= |PackAll(vs, i).value|
    ensures UnpackAll(PackAll(vs, i).value[..n]).Some? <==> Boundary(vs, i, n)
    decreases |vs| - i
  {
    hide PackOne, UnpackOne;
    var s := PackAll(vs, i).value;
    if 0 < n {
      var a, b := PackOne(vs[i], 0).value, PackAll(vs, i + 1).value;
      assert s == a + b;
      if n < |a| {
        CutIsInvalid(vs[i], 0, n);
        assert s[..n] == a[..n];
      } else {
        OneBack(vs[i], 0, b[..n - |a|]);
        assert s[..n] == a + b[..n - |a|];
        CutBetween(vs, i + 1, n - |a|);
      }
    }
  }
}
