/** Unsigned integers as the bytes of a little-endian host. */
module LittleEndian {

  type Byte = b: int | 0 <= b < 256

  const U32_RANGE: nat := 0x1_0000_0000
  const U64_RANGE: nat := 0x1_0000_0000_0000_0000

  type U32 = n: int | 0 <= n < U32_RANGE
  type U64 = n: int | 0 <= n < U64_RANGE

  function Range(k: nat): (r: nat)
    ensures r >= 1
  {
    if k == 0 then 1 else 256 * Range(k - 1)
  }

  lemma WordRanges()
    ensures Range(4) == U32_RANGE && Range(8) == U64_RANGE
  {
  }

  /** The k low bytes of n, lowest first. */
  function Le(n: nat, k: nat): (s: seq<Byte>)
    ensures |s| == k
  {
    if k == 0 then [] else [n % 256] + Le(n / 256, k - 1)
  }

  /** Four bytes, the lowest first. */
  lemma FourBytes(n: U32)
    ensures Le(n, 4) == [n % 0x100, n / 0x100 % 0x100, n / 0x1_0000 % 0x100, n / 0x100_0000 % 0x100]
    ensures var s := Le(n, 4);
            n == s[0] as int + 0x100 * s[1] as int + 0x1_0000 * s[2] as int + 0x100_0000 * s[3] as int
  {
    assert n / 0x100 / 0x100 == n / 0x1_0000 && n / 0x1_0000 / 0x100 == n / 0x100_0000;
    var t := n / 0x100_0000;
    assert Le(t, 1) == [t % 0x100] + Le(t / 0x100, 0) == [t % 0x100];
    assert Le(n / 0x1_0000, 2) == [n / 0x1_0000 % 0x100] + Le(t, 1);
    assert Le(n / 0x100, 3) == [n / 0x100 % 0x100] + Le(n / 0x1_0000, 2);
  }

  function FromLe(s: seq<Byte>): nat {
    if s == [] then 0 else s[0] + 256 * FromLe(s[1..])
  }

  lemma {:induction false} ReadsBack(n: nat, k: nat)
    requires n < Range(k)
    ensures FromLe(Le(n, k)) == n
  {
    if k > 0 {
      ReadsBack(n / 256, k - 1);
      assert Le(n, k)[1..] == Le(n / 256, k - 1);
    }
  }

  lemma ReadsBack32(n: U32)
    ensures FromLe(Le(n, 4)) == n
  {
    WordRanges();
    ReadsBack(n, 4);
  }

  lemma ReadsBack64(n: U64)
    ensures FromLe(Le(n, 8)) == n
  {
    WordRanges();
    ReadsBack(n, 8);
  }

  lemma {:induction false} WritesBack(s: seq<Byte>)
    ensures Le(FromLe(s), |s|) == s
  {
    if s != [] {
      var n := FromLe(s[1..]);
      assert (s[0] + 256 * n) % 256 == s[0] && (s[0] + 256 * n) / 256 == n;
      WritesBack(s[1..]);
    }
  }

  lemma {:induction false} FromLeBound(s: seq<Byte>)
    ensures FromLe(s) < Range(|s|)
  {
    if s != [] {
      FromLeBound(s[1..]);
    }
  }

  function Word32(s: seq<Byte>): (n: U32)
    requires |s| == 4
  {
    WordRanges(); FromLeBound(s);
    FromLe(s)
  }

  function Word64(s: seq<Byte>): (n: U64)
    requires |s| == 8
  {
    WordRanges(); FromLeBound(s);
    FromLe(s)
  }
}
