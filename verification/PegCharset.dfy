/** charsettype (lpcode.c): is a character set empty, a single character, full, or none of these? */
module PegCharset {
  import opened PegTree
  import opened PegCode

  const CHARSETSIZE := 32
  const BITSPERCHAR := 8

  /** The bits of a character set in byte i of its representation. */
  function ByteOf(cs: Charset, i: int): Charset { set c | c in cs && c / BITSPERCHAR == i }

  /** All characters of the first i bytes. */
  ghost function UpTo(i: int): Charset { set c | c in FULL && c < BITSPERCHAR * i }

  lemma ByteFull(cs: Charset, i: int)
    requires 0 <= i < CHARSETSIZE
    ensures |ByteOf(cs, i)| <= BITSPERCHAR
    ensures |ByteOf(cs, i)| == BITSPERCHAR <==> ByteOf(cs, i) == UpTo(i + 1) - UpTo(i)
  {
    var b := UpTo(i + 1) - UpTo(i);
    RangeSize(BITSPERCHAR * i, BITSPERCHAR);
    assert b == Range(BITSPERCHAR * i, BITSPERCHAR);
    SubsetSize(ByteOf(cs, i), b);
  }

  ghost function Range(from: int, n: nat): Charset { set c | c in FULL && from <= c < from + n }

  lemma {:induction false} RangeSize(from: nat, n: nat)
    requires from + n <= 256
    ensures |Range(from, n)| == n
  {
    if n > 0 {
      RangeSize(from, n - 1);
      assert Range(from, n) == Range(from, n - 1) + {from + n - 1};
    } else {
      assert Range(from, 0) == {};
    }
  }

  lemma SubsetSize(a: Charset, b: Charset)
    requires a <= b
    ensures |a| <= |b|
    ensures |a| == |b| <==> a == b
  {
    assert b == a + (b - a);
    assert |b| == |a| + |b - a|;
  }

  /** What the classification knows after i bytes: the set is still empty, still a single character, or
      still full. */
  ghost predicate Scanned(cs: Charset, i: int, count: int, candidate: int) {
    && 0 <= i <= CHARSETSIZE && count >= 0
    && (count == 0 ==> cs * UpTo(i) == {})
    && (count == 1 ==> 0 <= candidate < i && |ByteOf(cs, candidate)| == 1 && cs * UpTo(i) == ByteOf(cs, candidate))
    && (count > 1 ==> count == BITSPERCHAR * i && UpTo(i) <= cs)
  }

  lemma NextByte(cs: Charset, i: int)
    ensures cs * UpTo(i + 1) == cs * UpTo(i) + (if 0 <= i < CHARSETSIZE then ByteOf(cs, i) else cs * UpTo(i + 1))
  {
  }

  lemma ScanEmpty(cs: Charset, i: int, count: int, candidate: int)
    requires Scanned(cs, i, count, candidate) && i < CHARSETSIZE && ByteOf(cs, i) == {}
    ensures if count > 1 then ClassOf(cs) == COther else Scanned(cs, i + 1, count, candidate)
  {
    NextByte(cs, i);
    if count > 1 {
      assert BITSPERCHAR * i !in ByteOf(cs, i);
      NotAll(cs, BITSPERCHAR * i);
      assert 0 in UpTo(i) && 1 in UpTo(i);
      AtLeastTwo(cs, 0, 1);
    }
  }

  lemma ScanFull(cs: Charset, i: int, count: int, candidate: int)
    requires Scanned(cs, i, count, candidate) && i < CHARSETSIZE && |ByteOf(cs, i)| == BITSPERCHAR
    ensures if count < i * BITSPERCHAR then ClassOf(cs) == COther
            else Scanned(cs, i + 1, count + BITSPERCHAR, candidate)
  {
    NextByte(cs, i);
    ByteFull(cs, i);
    assert BITSPERCHAR * i in ByteOf(cs, i) && BITSPERCHAR * i + 1 in ByteOf(cs, i);
    if count < i * BITSPERCHAR {
      OneMissingBefore(cs, i, count, candidate);
      AtLeastTwo(cs, BITSPERCHAR * i, BITSPERCHAR * i + 1);
    }
  }

  /** Not all characters of the bytes before are there: one of the first two is missing. */
  lemma OneMissingBefore(cs: Charset, i: int, count: int, candidate: int)
    requires Scanned(cs, i, count, candidate) && count < i * BITSPERCHAR
    ensures cs != FULL
  {
    hide ByteOf, ClassOf;
    var two: Charset := {0, 1};
    assert two <= UpTo(i);
    if two <= cs {
      assert two <= cs * UpTo(i);
      SubsetSize(two, cs * UpTo(i));
    }
    assert two <= FULL;
  }

  lemma ScanOne(cs: Charset, i: int, count: int, candidate: int)
    requires Scanned(cs, i, count, candidate) && i < CHARSETSIZE && |ByteOf(cs, i)| == 1
    ensures if count > 0 then ClassOf(cs) == COther else Scanned(cs, i + 1, 1, i)
  {
    NextByte(cs, i);
    if count > 0 {
      SomeMissingHere(cs, i);
      var x :| x in ByteOf(cs, i);
      var y: Byte :| y in cs * UpTo(i) by {
        if count > 1 { assert 0 in UpTo(i); } else { var z :| z in ByteOf(cs, candidate); }
      }
      AtLeastTwo(cs, x, y);
    }
  }

  lemma ScanSome(cs: Charset, i: int)
    requires 0 <= i < CHARSETSIZE && 1 < |ByteOf(cs, i)| < BITSPERCHAR
    ensures ClassOf(cs) == COther
  {
    SomeMissingHere(cs, i);
    var x :| x in ByteOf(cs, i);
    var one: Charset := {x};
    SubsetSize(one, ByteOf(cs, i));
    assert ByteOf(cs, i) - one != {};
    var y :| y in ByteOf(cs, i) - one;
    AtLeastTwo(cs, x, y);
  }

  /** Classify a set by looking at its bytes in turn. */
  method CharsetType(cs: Charset) returns (r: Class)
    ensures r == ClassOf(cs)
  {
    var count := 0;
    var candidate := -1;
    var i := 0;
    assert UpTo(0) == {};
    while i < CHARSETSIZE
      invariant Scanned(cs, i, count, candidate)
    {
      var b := ByteOf(cs, i);
      if b == {} {
        ScanEmpty(cs, i, count, candidate);
        if count > 1 { return COther; }
      } else if |b| == BITSPERCHAR {
        ScanFull(cs, i, count, candidate);
        if count < i * BITSPERCHAR { return COther; }
        count := count + BITSPERCHAR;
      } else if |b| == 1 {
        ScanOne(cs, i, count, candidate);
        if count > 0 { return COther; }
        count := 1;
        candidate := i;
      } else {
        ByteFull(cs, i);
        ScanSome(cs, i);
        return COther;
      }
      i := i + 1;
    }
    assert UpTo(CHARSETSIZE) == FULL;
    assert cs <= FULL;
    assert cs * FULL == cs;
    if count == 0 {
      r := CEmpty;
    } else if count == 1 {
      var c :| c in ByteOf(cs, candidate);
      Singleton(cs, c);
      r := CSingle(c);
    } else {
      assert 0 in FULL && cs == FULL;
      r := CAll;
    }
  }

  lemma NotAll(cs: Charset, c: int)
    requires 0 <= c < 256 && (c as Byte) !in cs
    ensures cs != FULL
  {
    assert c in FULL;
  }

  lemma AtLeastTwo(cs: Charset, x: int, y: int)
    requires 0 <= x < 256 && 0 <= y < 256 && x in cs && y in cs && x != y && cs != FULL
    ensures ClassOf(cs) == COther
  {
    forall c: Byte ensures cs != {c} {
      assert x != c || y != c;
    }
  }

  lemma SomeMissingHere(cs: Charset, i: int)
    requires 0 <= i < CHARSETSIZE && |ByteOf(cs, i)| < BITSPERCHAR
    ensures cs != FULL
  {
    ByteFull(cs, i);
    assert ByteOf(FULL, i) == UpTo(i + 1) - UpTo(i);
  }

  lemma Singleton(cs: Charset, c: Byte)
    requires c in cs && |cs| == 1
    ensures ClassOf(cs) == CSingle(c)
  {
    assert |cs - {c}| == 0;
    assert cs == {c};
    assert 0 in FULL && 1 in FULL;
    forall d | d in cs && cs == {d} ensures d == c {}
  }
}
