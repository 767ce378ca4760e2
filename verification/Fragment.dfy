/** A data fragment: what one data source sends for one event, and its bytes in a buffer. */
module Fragment {
  import opened LittleEndian

  /** Header bytes: detector, source and event id of 4 bytes, bunch crossing of 8. */
  const HEADER: nat := 20

  /** Bytes that one `read` of a fragment file may return. */
  const READ_MAX: nat := 0x2_0000

  datatype Fragment = Fragment(det: U32, src: U32, evt: U32, bx: U64, payload: seq<Byte>)
  {
    function Named(): Name { Name(det, src, evt, bx) }

    /** Header and payload, as laid out in the buffer. */
    function Bytes(): (s: seq<Byte>)
      ensures |s| == HEADER + |payload|
    {
      Le(det, 4) + Le(src, 4) + Le(evt, 4) + Le(bx, 8) + payload
    }
  }

  /** The four numbers that make up a file name. */
  datatype Name = Name(det: U32, src: U32, evt: U32, bx: U64)

  /** A buffer's bytes read through its getters. */
  function Parse(s: seq<Byte>): Fragment
    requires |s| >= HEADER
  {
    Fragment(Word32(s[0..4]), Word32(s[4..8]), Word32(s[8..12]), Word64(s[12..20]), s[20..])
  }

  lemma ParseBytes(f: Fragment)
    ensures Parse(f.Bytes()) == f
  {
    var s := f.Bytes();
    assert s[0..4] == Le(f.det, 4) && s[4..8] == Le(f.src, 4) && s[8..12] == Le(f.evt, 4);
    assert s[12..20] == Le(f.bx, 8) && s[20..] == f.payload;
    ReadsBack32(f.det);
    ReadsBack32(f.src);
    ReadsBack32(f.evt);
    ReadsBack64(f.bx);
  }

  /** Where the tags and the payload lie, the lowest byte of a number first. */
  lemma HeaderLayout(f: Fragment)
    ensures var s := f.Bytes();
            && |s| == 20 + |f.payload| && s[20..] == f.payload
            && f.det == s[0] as int + 0x100 * s[1] as int + 0x1_0000 * s[2] as int + 0x100_0000 * s[3] as int
            && f.src == s[4] as int + 0x100 * s[5] as int + 0x1_0000 * s[6] as int + 0x100_0000 * s[7] as int
            && f.evt == s[8] as int + 0x100 * s[9] as int + 0x1_0000 * s[10] as int + 0x100_0000 * s[11] as int
            && s[12..20] == Le(f.bx, 8)
            && f.Named().det == f.det && f.Named().src == f.src && f.Named().evt == f.evt && f.Named().bx == f.bx
  {
    FourBytes(f.det);
    FourBytes(f.src);
    FourBytes(f.evt);
    hide Le;
    var s := f.Bytes();
    assert s[0..4] == Le(f.det, 4) && s[4..8] == Le(f.src, 4) && s[8..12] == Le(f.evt, 4);
    assert s[0] == s[0..4][0] && s[4] == s[4..8][0] && s[8] == s[8..12][0];
  }

  /** The bytes of a fragment cut short are those of the fragment with its payload cut short. */
  lemma CutBytes(f: Fragment, k: nat)
    requires HEADER <= k <= |f.Bytes()|
    ensures Parse(f.Bytes()[..k]) == f.(payload := f.payload[..k - HEADER])
  {
    var g := f.(payload := f.payload[..k - HEADER]);
    assert f.Bytes()[..k] == g.Bytes();
    ParseBytes(g);
  }

  /** A fragment as one read of its file gives it. */
  function Cut(f: Fragment): Fragment {
    if HEADER + |f.payload| <= READ_MAX then f else f.(payload := f.payload[..READ_MAX - HEADER])
  }

  /** A file of content `was` after bytes have been written from its start: it is opened
      without truncation. */
  function Overwrite(was: seq<Byte>, bytes: seq<Byte>): seq<Byte> {
    bytes + if |was| > |bytes| then was[|bytes|..] else []
  }

  /** What was written is in front, what was there before behind it. */
  lemma OverwriteAt(was: seq<Byte>, bytes: seq<Byte>, i: nat)
    requires i < |Overwrite(was, bytes)|
    ensures |Overwrite(was, bytes)| == if |was| > |bytes| then |was| else |bytes|
    ensures Overwrite(was, bytes)[i] == if i < |bytes| then bytes[i] else was[i]
  {
  }

  /** The first READ_MAX bytes of a file. */
  function OneRead(s: seq<Byte>): (r: seq<Byte>)
    ensures r <= s && |r| == if |s| < 0x2_0000 then |s| else 0x2_0000
  {
    if |s| <= READ_MAX then s else s[..READ_MAX]
  }

  lemma ReadIsCut(f: Fragment)
    ensures Parse(OneRead(f.Bytes())) == Cut(f)
    ensures Cut(f) == f <==> |f.Bytes()| <= READ_MAX
  {
    hide Parse, Fragment.Bytes;
    if |f.Bytes()| <= READ_MAX {
      ParseBytes(f);
    } else {
      CutBytes(f, READ_MAX);
    }
  }

  lemma BytesParse(s: seq<Byte>)
    requires |s| >= HEADER
    ensures Parse(s).Bytes() == s
  {
    WritesBack(s[0..4]);
    WritesBack(s[4..8]);
    WritesBack(s[8..12]);
    WritesBack(s[12..20]);
    assert s == s[0..4] + s[4..8] + s[8..12] + s[12..20] + s[20..];
  }

  /** dskey, source_id and detector_id: 12 bits of each id. */
  function DsKey(det: nat, src: nat): nat { src % 0x1000 + det % 0x1000 * 0x1000 }
  function SourceOf(key: nat): nat { key % 0x1000 }
  function DetectorOf(key: nat): nat { key / 0x1000 % 0x1000 }

  /** Unpacking a key gives the low 12 bits of the two ids; further bits play no part. */
  lemma KeyUnpacks(det: nat, src: nat)
    ensures SourceOf(DsKey(det, src)) == src % 0x1000 && DetectorOf(DsKey(det, src)) == det % 0x1000
    ensures DsKey(det, src) % 0x1000 == src % 0x1000 && DsKey(det, src) / 0x1000 == det % 0x1000
    ensures forall high: nat ::
        SourceOf(0x100_0000 * high + DsKey(det, src)) == src % 0x1000
        && DetectorOf(0x100_0000 * high + DsKey(det, src)) == det % 0x1000
  {
  }

  /** Two sources share a key just when they agree modulo 4096, so below 4096 never. */
  lemma KeyInjective(det: nat, src: nat, det': nat, src': nat)
    ensures DsKey(det, src) == DsKey(det', src')
       <==> det % 0x1000 == det' % 0x1000 && src % 0x1000 == src' % 0x1000
  {
    KeyUnpacks(det, src);
    KeyUnpacks(det', src');
    hide SourceOf, DetectorOf;
  }
}
