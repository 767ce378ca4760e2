/** The format of the writer's files, and a reader for it. A file is a sequence of records; a
    record is its number, the number of buffers, and each buffer with its size in front, its
    payload compressed. */
module EventFile {
  import opened LittleEndian
  import opened Fragment
  import opened Compression
  import opened Options

  /** The number of buffers of an event fits the 32 bits the file has for it. */
  predicate Countable(fs: seq<Fragment>) { |fs| < U32_RANGE }

  /** A fragment as a reader gets it back. */
  function Restored(z: Zlib, f: Fragment): Fragment { f.(payload := Inflated(z, Deflated(z, f.payload))) }

  function RestoredAll(z: Zlib, fs: seq<Fragment>): seq<Fragment> {
    seq(|fs|, i requires 0 <= i < |fs| => Restored(z, fs[i]))
  }

  function RestoredEvents(z: Zlib, evs: seq<seq<Fragment>>): seq<seq<Fragment>> {
    seq(|evs|, i requires 0 <= i < |evs| => RestoredAll(z, evs[i]))
  }

  ghost predicate AllGood(z: Zlib, fs: seq<Fragment>) {
    forall i :: 0 <= i < |fs| ==> Good(z, fs[i].payload)
  }

  lemma GoodOrNot(z: Zlib, fs: seq<Fragment>)
    ensures RestoredAll(z, fs) == fs <==> AllGood(z, fs)
  {
  }

  /** The events come back unchanged if and only if zlib copes with every payload in them. */
  lemma RestoredWhenGood(z: Zlib, evs: seq<seq<Fragment>>)
    ensures RestoredEvents(z, evs) == evs <==> forall i :: 0 <= i < |evs| ==> AllGood(z, evs[i])
  {
    forall i | 0 <= i < |evs| ensures RestoredAll(z, evs[i]) == evs[i] <==> AllGood(z, evs[i]) {
      GoodOrNot(z, evs[i]);
    }
    if RestoredEvents(z, evs) == evs {
      forall i | 0 <= i < |evs| ensures AllGood(z, evs[i]) {
        assert RestoredEvents(z, evs)[i] == RestoredAll(z, evs[i]);
      }
    }
  }

  function Packed(z: Zlib, f: Fragment): Fragment { f.(payload := Deflated(z, f.payload)) }

  /** One buffer in a record. */
  function Block(z: Zlib, f: Fragment): seq<Byte> {
    Le(|Packed(z, f).Bytes()|, 4) + Packed(z, f).Bytes()
  }

  function BlocksOf(z: Zlib, fs: seq<Fragment>): seq<Byte> {
    if fs == [] then [] else Block(z, fs[0]) + BlocksOf(z, fs[1..])
  }

  function Record(z: Zlib, number: U32, fs: seq<Fragment>): seq<Byte> {
    Le(number, 4) + Le(|fs|, 4) + BlocksOf(z, fs)
  }

  /** Where things lie in a record: the number, the number of buffers, then each buffer behind its
      size, which counts header and compressed payload. */
  lemma RecordLayout(z: Zlib, number: U32, fs: seq<Fragment>)
    requires Countable(fs)
    ensures var r := Record(z, number, fs);
            && |r| >= 8 && r[8..] == BlocksOf(z, fs)
            && number == r[0] as int + 0x100 * r[1] as int + 0x1_0000 * r[2] as int + 0x100_0000 * r[3] as int
            && |fs| == r[4] as int + 0x100 * r[5] as int + 0x1_0000 * r[6] as int + 0x100_0000 * r[7] as int
    ensures fs != [] ==>
        var b, size := BlocksOf(z, fs), 20 + |Deflated(z, fs[0].payload)|;
        && |b| >= 4 + size
        && size == b[0] as int + 0x100 * b[1] as int + 0x1_0000 * b[2] as int + 0x100_0000 * b[3] as int
        && b[4..4 + size] == fs[0].(payload := Deflated(z, fs[0].payload)).Bytes()
        && b[4 + size..] == BlocksOf(z, fs[1..])
  {
    hide Le, Fragment.Bytes;
    var r := Record(z, number, fs);
    FourBytes(number);
    FourBytes(|fs|);
    assert r[0..4] == Le(number, 4) && r[4..8] == Le(|fs|, 4);
    assert r[0] == r[0..4][0] && r[4] == r[4..8][0];
    if fs != [] {
      var b, size := BlocksOf(z, fs), |Packed(z, fs[0]).Bytes()|;
      FourBytes(size);
      assert b[0..4] == Le(size, 4) && b[4..4 + size] == Packed(z, fs[0]).Bytes();
      assert b[0] == b[0..4][0];
    }
  }

  /** A file with the events evs, numbered from 0 in 32 bits. */
  function FileBytes(z: Zlib, evs: seq<seq<Fragment>>): seq<Byte> {
    if evs == [] then []
    else FileBytes(z, evs[..|evs| - 1]) + Record(z, (|evs| - 1) % U32_RANGE, evs[|evs| - 1])
  }

  // ----- reading

  function ReadBlocks(z: Zlib, s: seq<Byte>, n: nat): Option<(seq<Fragment>, seq<Byte>)> {
    if n == 0 then Some(([], s))
    else if |s| < 4 then None
    else
      var size := Word32(s[..4]);
      if size < HEADER || |s| < 4 + size then None
      else
        var f := Parse(s[4..4 + size]);
        match ReadBlocks(z, s[4 + size..], n - 1)
        case None => None
        case Some((fs, rest)) => Some(([f.(payload := Inflated(z, f.payload))] + fs, rest))
  }

  datatype Numbered = Numbered(number: U32, frags: seq<Fragment>)

  lemma ReadBlocksShrinks(z: Zlib, s: seq<Byte>, n: nat)
    ensures var r := ReadBlocks(z, s, n); r.Some? ==> |r.value.1| <= |s|
  {
  }

  function Prepend(evs: seq<Numbered>, r: Option<seq<Numbered>>): Option<seq<Numbered>> {
    if r.Some? then Some(evs + r.value) else None
  }

  function ReadFile(z: Zlib, s: seq<Byte>): Option<seq<Numbered>>
    decreases |s|
  {
    if s == [] then Some([])
    else if |s| < 8 then None
    else
      ReadBlocksShrinks(z, s[8..], Word32(s[4..8]));
      match ReadBlocks(z, s[8..], Word32(s[4..8]))
      case None => None
      case Some((fs, rest)) =>
        Prepend([Numbered(Word32(s[..4]), fs)], ReadFile(z, rest))
  }

  lemma PrependTwice(a: seq<Numbered>, b: seq<Numbered>, r: Option<seq<Numbered>>)
    ensures Prepend(a, Prepend(b, r)) == Prepend(a + b, r)
  {
    if r.Some? {
      assert a + (b + r.value) == a + b + r.value;
    }
  }

  // ----- the round trip

  lemma ReadBlock(z: Zlib, f: Fragment, rest: seq<Byte>)
    ensures var (s, size) := (Block(z, f) + rest, |Packed(z, f).Bytes()|);
            && |s| >= 4 + size && size < U32_RANGE && Word32(s[..4]) == size && size >= HEADER
            && Parse(s[4..4 + size]) == Packed(z, f) && s[4 + size..] == rest
  {
    var g := Packed(z, f);
    var s, size := Block(z, f) + rest, |g.Bytes()|;
    assert s[..4] == Le(size, 4);
    ReadsBack32(size);
    assert s[4..4 + size] == g.Bytes();
    ParseBytes(g);
  }

  lemma PackedRestored(z: Zlib, f: Fragment)
    ensures Packed(z, f).(payload := Inflated(z, Packed(z, f).payload)) == Restored(z, f)
  {
  }

  lemma {:induction false} ReadBlocksBack(z: Zlib, fs: seq<Fragment>, rest: seq<Byte>)
    ensures ReadBlocks(z, BlocksOf(z, fs) + rest, |fs|) == Some((RestoredAll(z, fs), rest))
  {
    hide Block, Packed, Parse, Fragment.Bytes;
    if fs == [] {
      assert BlocksOf(z, fs) + rest == rest;
    } else {
      var f := fs[0];
      var more := BlocksOf(z, fs[1..]) + rest;
      assert BlocksOf(z, fs) + rest == Block(z, f) + more;
      ReadBlock(z, f, more);
      ReadBlocksBack(z, fs[1..], rest);
      PackedRestored(z, f);
      assert [Restored(z, f)] + RestoredAll(z, fs[1..]) == RestoredAll(z, fs);
    }
  }

  ghost predicate AllCountable(evs: seq<seq<Fragment>>) {
    forall fs :: fs in evs ==> Countable(fs)
  }

  /** The events of a file, numbered modulo 2^32 from k. */
  function Numbering(evs: seq<seq<Fragment>>, k: nat): seq<Numbered> {
    seq(|evs|, i requires 0 <= i < |evs| => Numbered((k + i) % U32_RANGE, evs[i]))
  }

  lemma ReadRecord(z: Zlib, number: U32, fs: seq<Fragment>, rest: seq<Byte>)
    requires Countable(fs)
    ensures ReadFile(z, Record(z, number, fs) + rest)
         == Prepend([Numbered(number, RestoredAll(z, fs))], ReadFile(z, rest))
  {
    var s := Record(z, number, fs) + rest;
    assert s[..4] == Le(number, 4) && s[4..8] == Le(|fs|, 4);
    ReadsBack32(number);
    ReadsBack32(|fs|);
    assert s[8..] == BlocksOf(z, fs) + rest;
    ReadBlocksBack(z, fs, rest);
  }

  lemma PrependNone(a: seq<Numbered>, r: Option<seq<Numbered>>)
    requires a == []
    ensures Prepend(a, r) == r
  {
    if r.Some? {
      assert a + r.value == r.value;
    }
  }

  /** A file can be read record by record. */
  lemma {:induction false} ReadJoined(z: Zlib, evs: seq<seq<Fragment>>, tail: seq<Byte>)
    requires AllCountable(evs)
    ensures ReadFile(z, FileBytes(z, evs) + tail)
         == Prepend(Numbering(RestoredEvents(z, evs), 0), ReadFile(z, tail))
  {
    hide ReadFile, Record, Countable, Prepend, RestoredAll;
    if evs == [] {
      assert FileBytes(z, evs) + tail == tail;
      PrependNone(Numbering(RestoredEvents(z, evs), 0), ReadFile(z, tail));
    } else {
      var init, fs, k := evs[..|evs| - 1], evs[|evs| - 1], (|evs| - 1) % U32_RANGE;
      var more := Record(z, k, fs) + tail;
      assert FileBytes(z, evs) + tail == FileBytes(z, init) + more;
      ReadJoined(z, init, more);
      ReadRecord(z, k, fs, tail);
      var before := Numbering(RestoredEvents(z, init), 0);
      assert Numbering(RestoredEvents(z, evs), 0) == before + [Numbered(k, RestoredAll(z, fs))];
      PrependTwice(before, [Numbered(k, RestoredAll(z, fs))], ReadFile(z, tail));
    }
  }

  /** A file reads back as the events written to it, in order, numbered 0, 1, 2, ..., each
      payload as zlib gives it back. */
  lemma FileRoundTrip(z: Zlib, evs: seq<seq<Fragment>>)
    requires AllCountable(evs)
    ensures ReadFile(z, FileBytes(z, evs)) == Some(Numbering(RestoredEvents(z, evs), 0))
  {
    ReadJoined(z, evs, []);
    assert FileBytes(z, evs) + [] == FileBytes(z, evs);
    var all := Numbering(RestoredEvents(z, evs), 0);
    assert all + [] == all;
  }

  lemma {:induction false} BlocksAppend(z: Zlib, fs: seq<Fragment>, f: Fragment)
    ensures BlocksOf(z, fs + [f]) == BlocksOf(z, fs) + Block(z, f)
  {
    if fs == [] {
      assert fs + [f] == [f] && [f][1..] == [];
    } else {
      BlocksAppend(z, fs[1..], f);
      assert (fs + [f])[1..] == fs[1..] + [f];
    }
  }

  /** Bytes a record adds to the writer's size count: its buffers, without the framing. */
  function PackedSize(z: Zlib, fs: seq<Fragment>): nat {
    if fs == [] then 0 else PackedSize(z, fs[..|fs| - 1]) + |Packed(z, fs[|fs| - 1]).Bytes()|
  }

  lemma {:induction false} PackedSizeBound(z: Zlib, fs: seq<Fragment>)
    ensures PackedSize(z, fs) <= |fs| * (SCRATCH + HEADER)
  {
    if fs != [] {
      PackedSizeBound(z, fs[..|fs| - 1]);
    }
  }
}
