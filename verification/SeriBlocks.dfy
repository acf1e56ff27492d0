/** The writer of lua-seri.c: a chain of blocks of 128 bytes that is flattened when it is complete. */
module SeriBlocks {
  import opened Wrappers
  import opened Seri

  const BLOCK_SIZE := 128

  /** Block and place of byte k of the chain. */
  predicate Holds(blocks: seq<array<Byte>>, flat: seq<Byte>)
    reads blocks
  {
    && |flat| <= BLOCK_SIZE * |blocks|
    && (forall i :: 0 <= i < |blocks| ==> blocks[i].Length == BLOCK_SIZE)
    && forall i, j :: 0 <= i < |blocks| && 0 <= j < BLOCK_SIZE && BLOCK_SIZE * i + j < |flat|
                      ==> blocks[i][j] == flat[BLOCK_SIZE * i + j]
  }

  class WriteBlock {
    var blocks: seq<array<Byte>>
    var ptr: nat
    var len: nat
    /** The bytes written so far, and the blocks. */
    ghost var flat: seq<Byte>
    ghost var repr: set<array<Byte>>

    ghost predicate Valid()
      reads this, repr
    {
      && (forall i :: 0 <= i < |blocks| ==> blocks[i] in repr)
      && |blocks| > 0 && ptr <= BLOCK_SIZE && len == |flat| == BLOCK_SIZE * (|blocks| - 1) + ptr
      && (forall i, j :: 0 <= i < j < |blocks| ==> blocks[i] != blocks[j])
      && Holds(blocks, flat)
    }

    constructor ()
      ensures Valid() && flat == LittleEndian(0, 4) && fresh(repr)
    {
      var b := new Byte[BLOCK_SIZE](_ => 0);
      blocks := [b];
      ptr, len, flat, repr := 0, 0, [], {b};
      new;
      Push(LittleEndian(0, 4));
    }

    /** Start a new block behind the full one. */
    method NewBlock()
      requires Valid() && ptr == BLOCK_SIZE
      modifies this
      ensures Valid() && fresh(repr - old(repr)) && old(repr) <= repr && ptr == 0 && flat == old(flat)
    {
      var b := new Byte[BLOCK_SIZE](_ => 0);
      blocks := blocks + [b];
      repr := repr + {b};
      ptr := 0;
    }

    /** Copy bytes that fit into the current block. */
    method Copy(buf: seq<Byte>)
      requires Valid() && ptr + |buf| <= BLOCK_SIZE
      modifies this`ptr, this`len, this`flat, blocks[|blocks| - 1]
      ensures Valid() && flat == old(flat) + buf && ptr == old(ptr) + |buf|
    {
      var b := blocks[|blocks| - 1];
      var i := 0;
      while i < |buf|
        invariant 0 <= i <= |buf| && Valid() && b == blocks[|blocks| - 1]
        invariant flat == old(flat) + buf[..i] && ptr == old(ptr) + i
      {
        b[ptr] := buf[i];
        flat := flat + [buf[i]];
        ptr := ptr + 1;
        len := len + 1;
        i := i + 1;
      }
    }

    /** Append bytes, over as many blocks as it takes. */
    method Push(buf: seq<Byte>)
      requires Valid()
      modifies this, repr
      ensures Valid() && fresh(repr - old(repr)) && flat == old(flat) + buf
    {
      var buffer, full := buf, ptr == BLOCK_SIZE;
      while full || ptr + |buffer| > BLOCK_SIZE
        invariant Valid() && fresh(repr - old(repr)) && flat + buffer == old(flat) + buf && (full <==> ptr == BLOCK_SIZE)
        decreases |buffer|, if full then 1 else 0
      {
        if full { NewBlock(); }
        full := false;
        if ptr + |buffer| > BLOCK_SIZE {
          var copy := BLOCK_SIZE - ptr;
          Copy(buffer[..copy]);
          buffer := buffer[copy..];
          full := true;
        }
      }
      Copy(buffer);
    }

    /** Write the total length into the header. */
    method Close()
      requires Valid() && |flat| >= 4
      modifies this`flat, blocks[0]
      ensures blocks == old(blocks) && |blocks| > 0 && Holds(blocks, flat)
      ensures flat == LittleEndian(old(len), 4) + old(flat)[4..] && |flat| == len
    {
      hide Holds, LittleEndian;
      var header, i := LittleEndian(len, 4), 0;
      while i < 4
        invariant 0 <= i <= 4 && |flat| == len && |blocks| > 0 && Holds(blocks, flat)
        invariant flat == header[..i] + old(flat)[i..]
        invariant forall k, l :: 0 <= k < l < |blocks| ==> blocks[k] != blocks[l]
      {
        Overwritten(header, old(flat), flat, i);
        Overwrite(i, header[i]);
        i := i + 1;
      }
    }

    /** Change a byte of the first block. */
    method Overwrite(i: nat, x: Byte)
      requires |blocks| > 0 && Holds(blocks, flat) && i < BLOCK_SIZE && i < |flat|
      requires forall k, l :: 0 <= k < l < |blocks| ==> blocks[k] != blocks[l]
      modifies this`flat, blocks[0]
      ensures Holds(blocks, flat) && flat == old(flat)[i := x]
    {
      blocks[0][i] := x;
      flat := flat[i := x];
    }

    /** Copy the bytes behind the header into one buffer (_seri). */
    method Flatten() returns (buffer: array<Byte>)
      requires |blocks| > 0 && Holds(blocks, flat) && |flat| >= 4 && FromLittleEndian(flat[..4]) == |flat|
      ensures fresh(buffer) && buffer[..] == flat[4..]
    {
      var b := blocks[0];
      assert [b[0], b[1], b[2], b[3]] == flat[..4];
      var left := FromLittleEndian([b[0], b[1], b[2], b[3]]) - 4;
      buffer := new Byte[left];
      var ptr := 0;
      if left < BLOCK_SIZE - 4 {
        ptr := CopyOut(buffer, ptr, 0, 4, left);
      } else {
        ptr := CopyOut(buffer, ptr, 0, 4, BLOCK_SIZE - 4);
        left := left - (BLOCK_SIZE - 4);
        var i := 1;
        while left > 0
          invariant 1 <= i && 0 <= left && ptr == BLOCK_SIZE * i - 4 && ptr + left == buffer.Length == |flat| - 4
          invariant fresh(buffer) && buffer[..ptr] == flat[4..ptr + 4] && Holds(blocks, flat)
          decreases left
        {
          var n := if left >= BLOCK_SIZE then BLOCK_SIZE else left;
          ptr := CopyOut(buffer, ptr, i, 0, n);
          left := left - n;
          if n < BLOCK_SIZE { break; }
          i := i + 1;
        }
      }
      assert ptr == buffer.Length && buffer[..] == buffer[..ptr] && flat[4..] == flat[4..ptr + 4];
    }

    /** Copy n bytes of block i, from place j on. */
    method CopyOut(buffer: array<Byte>, at: nat, i: nat, j: nat, n: nat) returns (end: nat)
      requires Holds(blocks, flat) && i < |blocks| && j + n <= BLOCK_SIZE && BLOCK_SIZE * i + j == at + 4
      requires at + n <= buffer.Length == |flat| - 4 && forall k :: 0 <= k < |blocks| ==> blocks[k] != buffer
      requires buffer[..at] == flat[4..at + 4]
      modifies buffer
      ensures end == at + n && buffer[..end] == flat[4..end + 4] && Holds(blocks, flat)
    {
      end := at;
      var k := 0;
      while k < n
        invariant 0 <= k <= n && end == at + k && buffer[..end] == flat[4..end + 4] && Holds(blocks, flat)
      {
        buffer[end] := blocks[i][j + k];
        end := end + 1;
        k := k + 1;
      }
    }

    // ----- values -----

    /** A type byte and a number of n bytes. */
    method PushTagged(t: int, cookie: nat, x: nat, n: nat)
      requires Valid() && 0 <= t < 8 && cookie < 32
      modifies this, repr
      ensures Valid() && fresh(repr - old(repr)) && flat == old(flat) + ([Combine(t, cookie)] + LittleEndian(x, n))
    {
      hide LittleEndian, Combine, Valid;
      Push([Combine(t, cookie)]);
      Push(LittleEndian(x, n));
    }

    method PushInteger(x: int, t: int)
      requires Valid() && Int32(x) && 0 <= t < 8
      modifies this, repr
      ensures Valid() && fresh(repr - old(repr)) && flat == old(flat) + PackInteger(x, t)
    {
      hide LittleEndian, Combine, Valid;
      if x == 0 { Push([Combine(t, 0)]); }
      else if x < 0 { PushTagged(t, 4, Word(x), 4); }
      else if x < 0x100 { PushTagged(t, 1, x, 1); }
      else if x < 0x10000 { PushTagged(t, 2, x, 2); }
      else { PushTagged(t, 4, Word(x), 4); }
    }

    method PushString(s: seq<Byte>)
      requires Valid() && |s| < 0x8000_0000
      modifies this, repr
      ensures Valid() && fresh(repr - old(repr)) && flat == old(flat) + PackString(s)
    {
      hide LittleEndian, Combine, Valid;
      ghost var before := flat;
      if |s| < MAX_COOKIE {
        Push([Combine(TYPE_SHORT_STRING, |s|)]);
        if |s| > 0 { Push(s); }
        Assoc(before, [Combine(TYPE_SHORT_STRING, |s|)], s);
      } else {
        var n := if |s| < 0x10000 then 2 else 4;
        PushTagged(TYPE_LONG_STRING, n, |s|, n);
        Push(s);
        Assoc(before, [Combine(TYPE_LONG_STRING, n)] + LittleEndian(|s|, n), s);
      }
    }

    /** The announcement of a table. */
    method PushArraySize(n: nat)
      requires Valid() && n < 0x8000_0000
      modifies this, repr
      ensures Valid() && fresh(repr - old(repr)) && flat == old(flat) + PackArraySize(n)
    {
      hide PackInteger, Combine, Valid;
      ghost var before := flat;
      if n >= MAX_COOKIE - 1 {
        Push([Combine(TYPE_TABLE, MAX_COOKIE - 1)]);
        PushInteger(n, TYPE_NUMBER);
        Assoc(before, [Combine(TYPE_TABLE, MAX_COOKIE - 1)], PackInteger(n, TYPE_NUMBER));
      } else {
        Push([Combine(TYPE_TABLE, n)]);
      }
    }

    /** Pack a value.  An error leaves the chain in no particular state. */
    method Pack(v: Value, depth: nat) returns (ok: bool)
      requires Valid() && WellFormed(v)
      modifies this, repr
      ensures ok == PackOne(v, depth).Some?
      ensures ok ==> Valid() && fresh(repr - old(repr)) && flat == old(flat) + PackOne(v, depth).value
      decreases v, 2
    {
      hide PackInteger, PackString, LittleEndian, PackArraySize, Valid;
      if depth > MAX_DEPTH { return false; }
      match v
      case Nil => Push([Combine(TYPE_NIL, 0)]); ok := true;
      case Bool(b) => Push([Combine(TYPE_BOOLEAN, if b then 1 else 0)]); ok := true;
      case Num(Whole(x)) => PushInteger(x, TYPE_NUMBER); ok := true;
      case Num(Other(bits)) =>
        Push([Combine(TYPE_NUMBER, 8)]);
        Push(bits);
        ok := true;
      case Ptr(bits) =>
        Push([Combine(TYPE_USERDATA, 0)]);
        Push(bits);
        ok := true;
      case Str(s) => PushString(s); ok := true;
      case Table(_, _) =>
        ok := PackTableArray(v, depth + 1);
        if ok { ok := PackTableHash(v, depth + 1); }
      case Unsupported => ok := false;
    }

    method PackTableArray(v: Value, depth: nat) returns (ok: bool)
      requires Valid() && v.Table? && WellFormed(v)
      modifies this, repr
      ensures ok == PackArray(v, 0, depth).Some?
      ensures ok ==> Valid() && fresh(repr - old(repr)) && flat == old(flat) + (PackArraySize(|v.arr|) + PackArray(v, 0, depth).value)
      decreases v, 1
    {
      hide PackArraySize, PackOne, Valid, Combine;
      ghost var start := flat;
      var n := |v.arr|;
      PushArraySize(n);
      ghost var before, done := flat, [];
      AppendNothing(PackArray(v, 0, depth));
      var i := 0;
      while i < n
        invariant 0 <= i <= n && Valid() && fresh(repr - old(repr)) && flat == before + done
        invariant Append(Some(done), PackArray(v, i, depth)) == PackArray(v, 0, depth)
      {
        ok := Pack(v.arr[i], depth);
        if !ok { return; }
        ghost var x := PackOne(v.arr[i], depth).value;
        AppendTwice(done, x, PackArray(v, i + 1, depth));
        done := done + x;
        i := i + 1;
      }
      AppendEmpty(done);
      Assoc(start, PackArraySize(n), done);
      ok := true;
    }

    method PackEntry(e: Entry, depth: nat) returns (ok: bool)
      requires Valid() && EntryWellFormed(e)
      modifies this, repr
      ensures ok == (PackOne(e.key, depth).Some? && PackOne(e.val, depth).Some?)
      ensures ok ==> Valid() && fresh(repr - old(repr))
                     && flat == old(flat) + PackOne(e.key, depth).value + PackOne(e.val, depth).value
      decreases e
    {
      hide PackOne, Valid;
      ok := Pack(e.key, depth);
      if ok { ok := Pack(e.val, depth); }
    }

    method PackTableHash(v: Value, depth: nat) returns (ok: bool)
      requires Valid() && v.Table? && WellFormed(v)
      modifies this, repr
      ensures ok == PackHash(v, 0, depth).Some?
      ensures ok ==> Valid() && fresh(repr - old(repr)) && flat == old(flat) + PackHash(v, 0, depth).value
      decreases v, 1
    {
      hide PackInteger, LittleEndian, PackOne, Valid, Combine;
      ghost var before, done := flat, [];
      AppendNothing(PackHash(v, 0, depth));
      var i := 0;
      while i < |v.entries|
        invariant 0 <= i <= |v.entries| && Valid() && fresh(repr - old(repr)) && flat == before + done
        invariant Append(Some(done), PackHash(v, i, depth)) == PackHash(v, 0, depth)
      {
        var e := v.entries[i];
        assert EntryWellFormed(e);
        if !IsArrayKey(e.key, |v.arr|) {
          ok := PackEntry(e, depth);
          if !ok { return; }
          ghost var k, x := PackOne(e.key, depth).value, PackOne(e.val, depth).value;
          AppendTwice(done, k, Append(Some(x), PackHash(v, i + 1, depth)));
          AppendTwice(done + k, x, PackHash(v, i + 1, depth));
          done := done + k + x;
        }
        i := i + 1;
      }
      Push([Combine(TYPE_NIL, 0)]);
      ok := true;
    }
  }

  lemma Overwritten(header: seq<Byte>, f: seq<Byte>, g: seq<Byte>, i: nat)
    requires i < |header| <= |f| && g == header[..i] + f[i..]
    ensures g[i := header[i]] == header[..i + 1] + f[i + 1..]
  {
  }

  /** _luaseri_pack: pack values, one after the other, and flatten the blocks. */
  method LuaSeriPack(vs: seq<Value>) returns (buffer: Option<array<Byte>>)
    requires forall j :: 0 <= j < |vs| ==> WellFormed(vs[j])
    requires PackAll(vs, 0).Some? ==> |PackAll(vs, 0).value| + 4 < 0x8000_0000
    ensures buffer.Some? <==> PackAll(vs, 0).Some?
    ensures buffer.Some? ==> buffer.value[..] == PackAll(vs, 0).value
  {
    hide PackOne, LittleEndian;
    var wb := new WriteBlock();
    ghost var before, done := wb.flat, [];
    AppendNothing(PackAll(vs, 0));
    var i := 0;
    while i < |vs|
      invariant 0 <= i <= |vs| && wb.Valid() && fresh(wb) && fresh(wb.repr)
      invariant wb.flat == before + done && Append(Some(done), PackAll(vs, i)) == PackAll(vs, 0)
    {
      var ok := wb.Pack(vs[i], 0);
      if !ok { return None; }
      ghost var x := PackOne(vs[i], 0).value;
      AppendTwice(done, x, PackAll(vs, i + 1));
      done := done + x;
      i := i + 1;
    }
    HeaderBack(wb.len);
    wb.Close();
    assert wb.flat[..4] == LittleEndian(wb.len, 4) && wb.flat[4..] == done;
    var b := wb.Flatten();
    buffer := Some(b);
  }

  lemma Assoc(a: seq<Byte>, b: seq<Byte>, c: seq<Byte>)
    ensures (a + b) + c == a + (b + c) && a + [] == a && b + [] == b
  {
  }

  lemma AppendEmpty(a: seq<Byte>)
    ensures Append(Some(a), Some([])) == Some(a)
  {
    assert a + [] == a;
  }

  lemma HeaderBack(n: nat)
    requires n < 0x8000_0000
    ensures FromLittleEndian(LittleEndian(n, 4)) == n
  {
    Bounded([]);
    LittleEndianBack(n, 4);
  }
}
