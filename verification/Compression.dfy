/** zlib, as a pair of functions the model knows nothing about. */
module Compression {
  import opened LittleEndian

  /** Size of the scratch buffers of compress and uncompress. */
  const SCRATCH: nat := 0x2_0000

  /** What the two calls produce for a payload, whatever their return code. */
  datatype Zlib = Zlib(deflate: seq<Byte> -> seq<Byte>, inflate: seq<Byte> -> seq<Byte>)

  /** The calls are told the size of the scratch buffer and do not write past it. */
  function Scratched(s: seq<Byte>): (r: seq<Byte>)
    ensures |r| <= SCRATCH
  {
    if |s| <= SCRATCH then s else s[..SCRATCH]
  }

  function Deflated(z: Zlib, p: seq<Byte>): seq<Byte> { Scratched(z.deflate(p)) }

  function Inflated(z: Zlib, p: seq<Byte>): seq<Byte> { Scratched(z.inflate(p)) }

  /** Payload p comes back after compression and uncompression. */
  predicate Good(z: Zlib, p: seq<Byte>) {
    Inflated(z, Deflated(z, p)) == p
  }

  /** A payload over 128 KiB never comes back; one up to that size does when its compressed form
      fits too and zlib itself is lossless. */
  lemma GoodBySize(z: Zlib, p: seq<Byte>)
    ensures |p| > 0x2_0000 ==> !Good(z, p)
    ensures |p| <= 0x2_0000 && |z.deflate(p)| <= 0x2_0000 && z.inflate(z.deflate(p)) == p ==> Good(z, p)
  {
  }
}
