/** Byte buffers that are written range by range. */
module Buffers {

  newtype byte = x: int | 0 <= x < 256

  function Overwrite(buffer: seq<byte>, at: nat, bytes: seq<byte>): (after: seq<byte>)
    requires at + |bytes| <= |buffer|
    ensures |after| == |buffer|
  {
    buffer[..at] + bytes + buffer[at + |bytes|..]
  }

  /** buffer[at : at + n].copy_(bytes) */
  method CopyInto(buffer: array<byte>, at: nat, bytes: seq<byte>)
    requires at + |bytes| <= buffer.Length
    modifies buffer
    ensures buffer[..] == Overwrite(old(buffer[..]), at, bytes)
  {
    forall k | 0 <= k < |bytes| {
      buffer[at + k] := bytes[k];
    }
  }

  /** What is written is there, and what lies outside stays. */
  lemma OverwriteAt(buffer: seq<byte>, at: nat, bytes: seq<byte>, lo: nat, hi: nat)
    requires at + |bytes| <= |buffer| && lo <= hi <= |buffer|
    ensures Overwrite(buffer, at, bytes)[at..at + |bytes|] == bytes
    ensures hi <= at || at + |bytes| <= lo ==> Overwrite(buffer, at, bytes)[lo..hi] == buffer[lo..hi]
  {
    var after := Overwrite(buffer, at, bytes);
    assert forall k :: 0 <= k < |bytes| ==> after[at + k] == bytes[k];
    assert forall k :: 0 <= k < |buffer| && (k < at || at + |bytes| <= k) ==> after[k] == buffer[k];
  }
}
