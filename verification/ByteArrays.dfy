/** Copying bytes into an array. */
module ByteArrays {
  import opened LittleEndian

  /** The byte array s with w written over it at offset off. */
  function Patch(s: seq<Byte>, off: nat, w: seq<Byte>): seq<Byte>
    requires off + |w| <= |s|
  {
    s[..off] + w + s[off + |w|..]
  }

  /** memcpy of w to offset off. */
  method Copy(a: array<Byte>, off: nat, w: seq<Byte>)
    requires off + |w| <= a.Length
    modifies a
    ensures a[..] == Patch(old(a[..]), off, w)
  {
    var i := 0;
    while i < |w|
      invariant 0 <= i <= |w|
      invariant forall j :: 0 <= j < a.Length ==> a[j] == if off <= j < off + i then w[j - off] else old(a[j])
    {
      a[off + i] := w[i];
      i := i + 1;
    }
  }
}
