/** The event builder with the writer as its processor: what the scanner hands over goes into
    the files. */
module Pipeline {
  import opened LittleEndian
  import opened Fragment
  import opened FragmentName
  import opened EventBuilder
  import opened EventPool
  import opened RunLog
  import opened ShmDirectory
  import opened ShmDriver
  import opened Transport
  import opened Compression
  import opened EventFile
  import opened BasicWriter
  import opened Options

  /** Bytes of the buffers that the scanner makes. */
  const BUFFER_SIZE: nat := 0x8_0000

  function Groups(evs: seq<Event>): seq<seq<Fragment>> {
    seq(|evs|, i requires 0 <= i < |evs| => evs[i].frags)
  }

  lemma {:induction false} AddAllFull(N: nat, b: Builder, fs: seq<Fragment>)
    ensures b.handed <= AddAll(N, b, fs).handed
    ensures forall i :: |b.handed| <= i < |AddAll(N, b, fs).handed| ==> |AddAll(N, b, fs).handed[i].frags| == N
  {
    if fs != [] {
      AddAllFull(N, b, fs[..|fs| - 1]);
    }
  }

  /** A turn hands over groups of one fragment for each source, behind those handed over before. */
  lemma TurnHandsOver(N: nat, order: seq<Name>, memory: nat -> Memory, was: Snapshot, now: Snapshot)
    requires Turn(N, order, memory, was, now)
    ensures was.b.handed <= now.b.handed
    ensures forall i :: |was.b.handed| <= i < |now.b.handed| ==> |now.b.handed[i].frags| == N
  {
    hide AddAll, LastCompletion, PullsOf, Stale;
    if !Refused(N, order) {
      AddAllFull(N, was.b, PullsOf(was.data, order, |order|, memory));
    }
  }

  /** The files with a marker that can be opened have a header. The buffer of one without would
      have a payload size past its end, which the writer would take. */
  ghost predicate WithHeaders(data: map<Name, seq<Byte>>, markers: set<Name>) {
    forall n :: n in markers && n in data ==> |data[n]| >= HEADER
  }

  lemma StillWithHeaders(N: nat, order: seq<Name>, memory: nat -> Memory, was: Snapshot, now: Snapshot)
    requires Turn(N, order, memory, was, now) && WithHeaders(was.data, was.markers)
    ensures WithHeaders(now.data, now.markers)
  {
    hide Pass, PullsOf, Alphabetical;
  }

  /** A buffer with the bytes of a fragment. */
  method Filled(z: Zlib, f: Fragment) returns (b: Buffer)
    requires HEADER + |f.payload| <= READ_MAX
    ensures fresh(b) && fresh(b.data) && Holds(z, b, f)
  {
    hide Fragment.Bytes, Parse;
    b := new Buffer(BUFFER_SIZE);
    b.Receive(f.Bytes());
    ParseBytes(f);
  }

  /** The buffers of a group. */
  method FilledAll(z: Zlib, fs: seq<Fragment>) returns (vbuf: seq<Buffer>)
    requires forall f :: f in fs ==> HEADER + |f.payload| <= READ_MAX
    ensures |vbuf| == |fs| && Apart(vbuf)
    ensures forall i :: 0 <= i < |fs| ==> fresh(vbuf[i]) && fresh(vbuf[i].data) && Holds(z, vbuf[i], fs[i])
  {
    hide Holds;
    vbuf := [];
    var i := 0;
    while i < |fs|
      invariant 0 <= i <= |fs| && |vbuf| == i && Apart(vbuf)
      invariant forall j :: 0 <= j < i ==> fresh(vbuf[j]) && fresh(vbuf[j].data) && Holds(z, vbuf[j], fs[j])
    {
      var b := Filled(z, fs[i]);
      vbuf := vbuf + [b];
      i := i + 1;
    }
  }

  class Pipeline {
    const driver: ShmDriver
    const dir: Directory
    const writer: BasicWriter

    ghost predicate Valid()
      reads this, driver, writer
    {
      && driver.Valid() && writer.Valid()
      && Written(writer.log) == Groups(HandedIn(driver.log))
      && (InRun(driver.log) ==> Writing())
    }

    ghost predicate Writing()
      reads this, writer
    {
      writer.started && writer.fdOut > 0
    }

    constructor (z: Zlib)
      ensures Valid() && driver.AtRest() && driver.datasources == [] && writer.zlib == z
      ensures fresh(driver) && fresh(dir) && fresh(writer)
    {
      driver := new ShmDriver();
      dir := new Directory();
      writer := new BasicWriter(z);
      new;
      driver.RegisterProcessor(0);
    }

    /** fd: the descriptor of the file that the writer opens. */
    method Start(nr: int, fd: int)
      requires Valid() && driver.AtRest() && fd > 0
      modifies driver, writer
      ensures Valid() && driver.running && driver.log == old(driver.log) + [Started(nr)]
    {
      hide Runs, InRun, HandedIn, Owned, FromReads, FilesShow, Written;
      LogGrows(driver.log, Started(nr));
      driver.Start(nr);
      writer.Start(nr, fd);
    }

    /** A step of the scanner thread. fds: the descriptors of the files that the writer opens
        when it begins new ones. */
    method Step(memory: nat -> Memory, fds: nat -> int) returns (ghost order: seq<Name>)
      requires Valid() && driver.thread != Gone && |driver.datasources| < U32_RANGE
      requires WithHeaders(dir.data, dir.markers) && (dir.markers != {} ==> driver.datasources != [])
      requires forall i :: fds(i) > 0
      modifies driver, writer, dir
      ensures Valid() && InRun(driver.log) && Continues(old(driver.log), driver.log)
      ensures WithHeaders(dir.data, dir.markers)
      ensures old(driver.thread) == Head ==>
          && driver.thread == (if driver.running then InTurn else Gone)
          && driver.SnapshotWith(dir) == old(driver.SnapshotWith(dir))
      ensures old(driver.thread) == InTurn ==>
          && driver.thread == Head
          && Turn(|driver.datasources|, order, memory, old(driver.SnapshotWith(dir)), driver.SnapshotWith(dir))
    {
      hide Runs, InRun, HandedIn, Owned, FromReads, FilesShow, Written, Turn, WithHeaders, Continues;
      var before, turn := HandedIn(driver.log), driver.thread == InTurn;
      ghost var was := driver.SnapshotWith(dir);
      order := driver.ScannerStep(dir, memory);
      if turn {
        TurnHandsOver(|driver.datasources|, order, memory, was, driver.SnapshotWith(dir));
        StillWithHeaders(|driver.datasources|, order, memory, was, driver.SnapshotWith(dir));
      }
      Feed(before, fds);
    }

    /** The writer gets the events handed over after those in before. */
    method Feed(before: seq<Event>, fds: nat -> int)
      requires driver.Valid() && writer.Valid() && Writing()
      requires Written(writer.log) == Groups(before) && before <= HandedIn(driver.log)
      requires forall i :: |before| <= i < |HandedIn(driver.log)| ==> |HandedIn(driver.log)[i].frags| < U32_RANGE
      requires forall i :: fds(i) > 0
      modifies writer
      ensures writer.Valid() && Writing() && Written(writer.log) == Groups(HandedIn(driver.log))
    {
      hide Runs, InRun, HandedIn, Owned, FilesShow, Written, Apart, Holds;
      var handed := HandedIn(driver.log);
      var i := |before|;
      while i < |handed|
        invariant |before| <= i <= |handed| && writer.Valid() && Writing()
        invariant Written(writer.log) == Groups(handed[..i])
      {
        assert handed[i] in handed;
        var vbuf := FilledAll(writer.zlib, handed[i].frags);
        writer.ProcessEvent(handed[i].evt % U32_RANGE, vbuf, handed[i].frags, fds(i));
        assert handed[..i + 1] == handed[..i] + [handed[i]];
        assert Groups(handed[..i + 1]) == Groups(handed[..i]) + [handed[i].frags];
        i := i + 1;
      }
      assert handed[..|handed|] == handed;
    }

    /** The scanner ends its turn and is joined, then the writer is stopped. */
    method Stop(memory: nat -> Memory, fds: nat -> int) returns (ghost order: seq<Name>)
      requires Valid() && driver.running && |driver.datasources| < U32_RANGE
      requires WithHeaders(dir.data, dir.markers) && (dir.markers != {} ==> driver.datasources != [])
      requires forall i :: fds(i) > 0
      modifies driver, writer, dir
      ensures Valid() && driver.AtRest() && !writer.started
      ensures exists before :: Continues(old(driver.log), before) && driver.log == before + [Stopped]
      ensures if old(driver.thread) == InTurn
              then Turn(|driver.datasources|, order, memory, old(driver.SnapshotWith(dir)), driver.SnapshotWith(dir))
              else driver.SnapshotWith(dir) == old(driver.SnapshotWith(dir))
    {
      hide Runs, InRun, HandedIn, Owned, FromReads, FilesShow, Written, Turn, WithHeaders, Continues;
      var before, turn := HandedIn(driver.log), driver.thread == InTurn;
      ghost var was := driver.SnapshotWith(dir);
      order := driver.Stop(dir, memory);
      if turn {
        TurnHandsOver(|driver.datasources|, order, memory, was, driver.SnapshotWith(dir));
      }
      Feed(before, fds);
      writer.Stop();
    }

    /** The files read back as the groups handed over since the beginning, in order, each
        payload as zlib gives it back: as the very groups if and only if zlib copes with every
        payload in them. */
    lemma FilesHoldTheHandedOver()
      requires Valid()
      ensures var (z, groups) := (writer.zlib, Groups(HandedIn(driver.log)));
              && ReadFiles(z, writer.files) == Some(RestoredEvents(z, groups))
              && (ReadFiles(z, writer.files) == Some(groups) <==> forall fs :: fs in groups ==> AllGood(z, fs))
    {
      hide FilesShow, Written, ReadFiles, HandedIn, RestoredEvents, AllGood, Groups;
      FilesRead(writer.zlib, writer.files, writer.log);
      FilesRoundTrip(writer.zlib, writer.files, writer.log);
    }
  }
}
