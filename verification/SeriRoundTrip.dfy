/** Packing values and unpacking the bytes again. */
module SeriRoundTrip {
  import opened Wrappers
  import opened Seri
  import opened SeriBlocks
  import opened SeriReader

  /** Through the block chain, the flat buffer and the reader, every list of values comes back, if it can be packed.
      StripAll leaves out of a table only the hash entries that repeat its array part. */
  method PackAndUnpack(vs: seq<Value>) returns (packed: bool, back: Option<seq<Value>>)
    requires forall j :: 0 <= j < |vs| ==> WellFormed(vs[j])
    requires PackAll(vs, 0).Some? ==> |PackAll(vs, 0).value| + 4 < 0x8000_0000
    ensures packed <==> PackAll(vs, 0).Some?
    ensures packed ==> back == Some(StripAll(vs, 0))
  {
    hide PackAll, UnpackAll, StripAll, WellFormed;
    var buffer := LuaSeriPack(vs);
    packed, back := buffer.Some?, None;
    if packed {
      AllBack(vs, 0);
      assert buffer.value[..buffer.value.Length] == buffer.value[..];
      back := LuaSeriUnpack(buffer.value, buffer.value.Length);
    }
  }
}
