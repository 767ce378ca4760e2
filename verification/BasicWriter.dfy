/** The writer of events: numbered records in files, a new file when one has grown past the
    limit. */
module BasicWriter {
  import opened LittleEndian
  import opened Fragment
  import opened Compression
  import opened EventFile
  import opened Options
  import opened Transport

  /** Size at which a new file is begun. */
  const LIMIT: nat := 1900 * 1024 * 1024

  /** Buffer b holds fragment f and has room for it compressed. */
  ghost predicate Holds(z: Zlib, b: Buffer, f: Fragment)
    reads b, b.data
  {
    && HEADER + b.psize <= b.data.Length && b.Content() == f
    && HEADER + |Deflated(z, f.payload)| <= b.data.Length
  }

  /** No two of the buffers share memory. */
  ghost predicate Apart(vbuf: seq<Buffer>) {
    forall i, j :: 0 <= i < j < |vbuf| ==> vbuf[i] != vbuf[j] && vbuf[i].data != vbuf[j].data
  }

  /** Each file holds the events logged for it. */
  ghost predicate FilesShow(z: Zlib, files: seq<seq<Byte>>, log: seq<seq<seq<Fragment>>>) {
    && |files| == |log|
    && forall i :: 0 <= i < |files| ==> files[i] == FileBytes(z, log[i]) && AllCountable(log[i])
  }

  /** All events written, over all files in order. */
  ghost function Written(log: seq<seq<seq<Fragment>>>): seq<seq<Fragment>> {
    if log == [] then [] else Written(log[..|log| - 1]) + log[|log| - 1]
  }

  function Unnumbered(evs: seq<Numbered>): seq<seq<Fragment>> {
    seq(|evs|, i requires 0 <= i < |evs| => evs[i].frags)
  }

  lemma UnnumberedBack(evs: seq<seq<Fragment>>)
    ensures Unnumbered(Numbering(evs, 0)) == evs
  {
  }

  /** The events of all files, one file after the other, as a reader finds them. */
  function ReadFiles(z: Zlib, files: seq<seq<Byte>>): Option<seq<seq<Fragment>>> {
    if files == [] then Some([])
    else
      match (ReadFiles(z, files[..|files| - 1]), ReadFile(z, files[|files| - 1]))
      case (Some(before), Some(evs)) => Some(before + Unnumbered(evs))
      case _ => None
  }

  lemma RestoredJoin(z: Zlib, a: seq<seq<Fragment>>, b: seq<seq<Fragment>>)
    ensures RestoredEvents(z, a + b) == RestoredEvents(z, a) + RestoredEvents(z, b)
  {
  }

  /** Round trip over all files, whatever rotations there were: all events written come back
      in order, each payload as zlib gives it back, and every file is numbered from 0. */
  lemma {:induction false} FilesRead(z: Zlib, files: seq<seq<Byte>>, log: seq<seq<seq<Fragment>>>)
    requires FilesShow(z, files, log)
    ensures ReadFiles(z, files) == Some(RestoredEvents(z, Written(log)))
    ensures forall i :: 0 <= i < |files| ==> ReadFile(z, files[i]) == Some(Numbering(RestoredEvents(z, log[i]), 0))
  {
    hide FileBytes, ReadFile, AllCountable, Numbering, Unnumbered, RestoredAll;
    if files == [] {
      assert RestoredEvents(z, Written(log)) == [];
    } else {
      var n := |files| - 1;
      FilesRead(z, files[..n], log[..n]);
      FileRoundTrip(z, log[n]);
      UnnumberedBack(RestoredEvents(z, log[n]));
      RestoredJoin(z, Written(log[..n]), log[n]);
    }
  }

  /** So the files read back as the events written if and only if zlib copes with every
      payload in them. */
  lemma FilesRoundTrip(z: Zlib, files: seq<seq<Byte>>, log: seq<seq<seq<Fragment>>>)
    requires FilesShow(z, files, log)
    ensures ReadFiles(z, files).Some? && |ReadFiles(z, files).value| == |Written(log)|
    ensures ReadFiles(z, files) == Some(Written(log))
       <==> forall fs :: fs in Written(log) ==> AllGood(z, fs)
  {
    hide FilesShow, ReadFiles, Written, AllGood, RestoredAll;
    FilesRead(z, files, log);
    RestoredWhenGood(z, Written(log));
  }

  lemma FileGrows(z: Zlib, evs: seq<seq<Fragment>>, fs: seq<Fragment>)
    ensures FileBytes(z, evs + [fs]) == FileBytes(z, evs) + Record(z, |evs| % U32_RANGE, fs)
  {
  }

  lemma WrittenGrows(log: seq<seq<seq<Fragment>>>, fs: seq<Fragment>)
    requires log != []
    ensures var n := |log| - 1; Written(log[n := log[n] + [fs]]) == Written(log) + [fs]
  {
  }

  lemma OneMoreEvent(z: Zlib, files: seq<seq<Byte>>, log: seq<seq<seq<Fragment>>>, fs: seq<Fragment>)
    requires FilesShow(z, files, log) && files != [] && Countable(fs)
    ensures var n := |files| - 1;
            var (files', log') := (files[n := files[n] + Record(z, |log[n]| % U32_RANGE, fs)], log[n := log[n] + [fs]]);
            FilesShow(z, files', log') && Written(log') == Written(log) + [fs]
  {
    hide FileBytes, Record, Written;
    var n := |files| - 1;
    FileGrows(z, log[n], fs);
    WrittenGrows(log, fs);
  }

  lemma OneMoreFile(z: Zlib, files: seq<seq<Byte>>, log: seq<seq<seq<Fragment>>>)
    requires FilesShow(z, files, log)
    ensures FilesShow(z, files + [[]], log + [[]]) && Written(log + [[]]) == Written(log)
  {
  }

  lemma FilesAlike(z: Zlib, files: seq<seq<Byte>>, log: seq<seq<seq<Fragment>>>)
    requires FilesShow(z, files, log)
    ensures |files| == |log|
  {
  }

  lemma RecordIs(z: Zlib, number: U32, fs: seq<Fragment>, bytes: seq<Byte>)
    requires bytes == Le(number, 4) + Le(|fs|, 4) + BlocksOf(z, fs)
    ensures bytes == Record(z, number, fs)
  {
  }

  lemma NextNumber(n: nat)
    ensures (n % U32_RANGE + 1) % U32_RANGE == (n + 1) % U32_RANGE
  {
  }

  /** The record with the writer's number is the next one of the last file. */
  lemma Appended(z: Zlib, files: seq<seq<Byte>>, log: seq<seq<seq<Fragment>>>, fs: seq<Fragment>,
                 event: U32, bytes: seq<Byte>)
    requires FilesShow(z, files, log) && Countable(fs)
    requires files != [] && |log| > 0 && event == |log[|log| - 1]| % U32_RANGE
    requires bytes == Le(event, 4) + Le(|fs|, 4) + BlocksOf(z, fs)
    ensures |files| == |log|
    ensures var n := |files| - 1;
            var (files', log') := (files[n := files[n] + bytes], log[n := log[n] + [fs]]);
            && FilesShow(z, files', log') && Written(log') == Written(log) + [fs]
            && (event + 1) % U32_RANGE == |log'[n]| % U32_RANGE
  {
    hide FilesShow, Written, Record, FileBytes, BlocksOf, Le;
    FilesAlike(z, files, log);
    RecordIs(z, event, fs, bytes);
    OneMoreEvent(z, files, log, fs);
    NextNumber(|log[|log| - 1]|);
  }

  /** One buffer, compressed in place, as it goes to the file. */
  method CompressBlock(z: Zlib, b: Buffer, ghost f: Fragment) returns (bsize: U32, block: seq<Byte>)
    requires Holds(z, b, f)
    modifies b`psize, b.data
    ensures bsize == |Packed(z, f).Bytes()| && block == Block(z, f)
    ensures HEADER + b.psize <= b.data.Length && b.Content() == Packed(z, f)
  {
    assert b.data[..HEADER + b.psize][HEADER..] == b.data[HEADER..HEADER + b.psize];
    b.Compress(z);
    bsize := b.Size();
    block := Le(bsize, 4) + b.data[..bsize];
    BytesParse(b.data[..HEADER + b.psize]);
  }

  lemma AddsUp(a: nat, b: nat, c: nat)
    ensures ((a + b) % U32_RANGE + c) % U32_RANGE == (a + (b + c)) % U32_RANGE
  {
  }

  lemma NoBuffer(z: Zlib, fs: seq<Fragment>)
    ensures BlocksOf(z, fs[..0]) == [] && PackedSize(z, fs[..0]) == 0
  {
  }

  lemma NextBuffer(z: Zlib, fs: seq<Fragment>, i: nat)
    requires i < |fs|
    ensures BlocksOf(z, fs[..i + 1]) == BlocksOf(z, fs[..i]) + Block(z, fs[i])
    ensures PackedSize(z, fs[..i + 1]) == PackedSize(z, fs[..i]) + |Packed(z, fs[i]).Bytes()|
  {
    assert fs[..i + 1] == fs[..i] + [fs[i]];
    BlocksAppend(z, fs[..i], fs[i]);
  }

  class BasicWriter {
    var run: int
    var event: U32
    var totalSize: U32
    var started: bool
    var fdOut: int

    /** The files begun so far, oldest first; fdOut is the last one when positive. */
    var files: seq<seq<Byte>>

    /** What was written to each of them: lists of events. */
    ghost var log: seq<seq<seq<Fragment>>>

    const zlib: Zlib

    ghost predicate Valid()
      reads this
    {
      && FilesShow(zlib, files, log)
      && (fdOut > 0 ==> files != [] && |log| > 0 && event == |log[|log| - 1]| % U32_RANGE)
      && totalSize <= LIMIT
    }

    constructor (z: Zlib)
      ensures Valid() && !started && fdOut == -1 && files == [] && zlib == z && run == event == totalSize == 0
    {
      zlib := z;
      run, event, totalSize, started, fdOut := 0, 0, 0, false, -1;
      files, log := [], [];
    }

    /** fd: what opening a new file gives, negative on failure. */
    method Start(nr: int, fd: int)
      requires Valid()
      modifies this
      ensures Valid() && run == nr && fdOut == fd && totalSize == old(totalSize)
      ensures fd < 0 ==> files == old(files) && log == old(log) && event == old(event) && started == old(started)
      ensures fd >= 0 ==> files == old(files) + [[]] && log == old(log) + [[]] && event == 0 && started
      ensures Written(log) == Written(old(log))
    {
      hide FilesShow, Written;
      OneMoreFile(zlib, files, log);
      run := nr;
      fdOut := fd;
      if fd < 0 {
        return;
      }
      files, log := files + [[]], log + [[]];
      event := 0;
      started := true;
    }

    method Stop()
      requires Valid()
      modifies this
      ensures Valid() && !started && files == old(files) && log == old(log) && totalSize == old(totalSize)
      ensures fdOut == (if old(fdOut) > 0 then -1 else old(fdOut)) && run == old(run) && event == old(event)
    {
      started := false;
      if fdOut > 0 {
        fdOut := -1;
      }
    }

    /** One event, held by buffers vbuf as fragments fs. fd: what opening a new file would
        give. */
    method ProcessEvent(key: U32, vbuf: seq<Buffer>, ghost fs: seq<Fragment>, fd: int)
      requires Valid() && |fs| == |vbuf| < U32_RANGE && Apart(vbuf)
      requires forall i :: 0 <= i < |vbuf| ==> Holds(zlib, vbuf[i], fs[i])
      modifies this, vbuf, set b | b in vbuf :: b.data
      ensures Valid() && (fd >= 0 ==> started == old(started)) && (fdOut == old(fdOut) || fdOut == fd)
      ensures run == old(run)
      // nothing is written when the writer is stopped or has no file
      ensures !(old(started) && old(fdOut) > 0) ==>
          files == old(files) && log == old(log) && event == old(event) && totalSize == old(totalSize)
      // otherwise the event is the next one written
      ensures old(started) && old(fdOut) > 0 ==> Written(log) == Written(old(log)) + [fs]
      // and a new file is begun when the limit is passed, unless 32 bits do not hold the size
      ensures old(started) && old(fdOut) > 0 && old(totalSize) + PackedSize(zlib, fs) < U32_RANGE ==>
          if old(totalSize) + PackedSize(zlib, fs) > 1900 * 1024 * 1024 then
            totalSize == 0 && fdOut == fd && (fd >= 0 ==> event == 0 && |files| == |old(files)| + 1)
          else
            totalSize == old(totalSize) + PackedSize(zlib, fs) && |files| == |old(files)| && fdOut == old(fdOut)
    {
      hide FilesShow, Written, Holds, Record, FileBytes, PackedSize, BlocksOf;
      if !started {
        return;
      }
      if fdOut > 0 {
        WriteEvent(vbuf, fs);
      }
      if totalSize > LIMIT {
        totalSize := 0;
        Start(run, fd);
      }
    }

    /** The record of one event, appended to the open file. */
    method WriteEvent(vbuf: seq<Buffer>, ghost fs: seq<Fragment>)
      requires Valid() && started && fdOut > 0 && |fs| == |vbuf| < U32_RANGE && Apart(vbuf)
      requires forall i :: 0 <= i < |vbuf| ==> Holds(zlib, vbuf[i], fs[i])
      modifies this, vbuf, set b | b in vbuf :: b.data
      ensures FilesShow(zlib, files, log) && |files| == |old(files)| && files != []
      ensures |log| > 0 && event == |log[|log| - 1]| % U32_RANGE
      ensures Written(log) == Written(old(log)) + [fs]
      ensures totalSize == (old(totalSize) + PackedSize(zlib, fs)) % U32_RANGE
      ensures run == old(run) && started == old(started) && fdOut == old(fdOut)
    {
      hide FilesShow, Written, Holds, Record, FileBytes, PackedSize, BlocksOf;
      var bytes := WriteBuffers(vbuf, Le(event, 4) + Le(|vbuf|, 4), fs);
      Appended(zlib, files, log, fs, event, bytes);
      files := files[|files| - 1 := files[|files| - 1] + bytes];
      log := log[|log| - 1 := log[|log| - 1] + [fs]];
      event := (event + 1) % U32_RANGE;
    }

    /** Write the buffers of one event, each compressed in place, behind bytes `head`. */
    method WriteBuffers(vbuf: seq<Buffer>, head: seq<Byte>, ghost fs: seq<Fragment>) returns (bytes: seq<Byte>)
      requires |fs| == |vbuf| && Apart(vbuf)
      requires forall i :: 0 <= i < |vbuf| ==> Holds(zlib, vbuf[i], fs[i])
      modifies this`totalSize, vbuf, set b | b in vbuf :: b.data
      ensures bytes == head + BlocksOf(zlib, fs)
      ensures totalSize == (old(totalSize) + PackedSize(zlib, fs)) % U32_RANGE
    {
      hide Holds, Block, BlocksOf, PackedSize, Packed;
      NoBuffer(zlib, fs);
      assert head + [] == head;
      bytes := head;
      var i := 0;
      while i < |vbuf|
        invariant 0 <= i <= |vbuf|
        invariant bytes == head + BlocksOf(zlib, fs[..i])
        invariant totalSize == (old(totalSize) + PackedSize(zlib, fs[..i])) % U32_RANGE
        invariant forall j :: i <= j < |vbuf| ==> Holds(zlib, vbuf[j], fs[j])
      {
        var bsize, block := CompressBlock(zlib, vbuf[i], fs[i]);
        NextBuffer(zlib, fs, i);
        AddsUp(old(totalSize), PackedSize(zlib, fs[..i]), bsize);
        assert head + BlocksOf(zlib, fs[..i]) + block == head + (BlocksOf(zlib, fs[..i]) + block);
        totalSize := (totalSize + bsize) % U32_RANGE;
        bytes := bytes + block;
        i := i + 1;
      }
      assert fs[..|fs|] == fs;
    }
  }

  /** With few enough buffers an event in 32 bits: the writer's size count never wraps. */
  lemma SizeNeverWraps(z: Zlib, fs: seq<Fragment>, total: nat)
    requires total <= LIMIT
    requires |fs| * (0x2_0000 + 20) <= 0xFFFF_FFFF - 1900 * 1024 * 1024
    ensures total + PackedSize(z, fs) < U32_RANGE
  {
    PackedSizeBound(z, fs);
  }
}
