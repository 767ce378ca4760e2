/** The shared-memory protocol: any number of `store` calls, the driver's owner, who starts and
    stops it, and the scanner thread, interleaved over a directory of fragment files and a
    directory of markers. Each step is one system call of a writer or of the scanner, one step
    of the scanner's own work, or one step of the owner. */
module ShmProtocol {
  import opened LittleEndian
  import opened Fragment
  import opened EventBuilder
  import opened EventPool
  import opened RunLog
  import opened Sequences

  /** Age limit of incomplete events, in seconds. */
  const DELAY: real := 10.0

  /** A store call: the data file opened, then written, then closed and its marker created;
      or given up after a short write. */
  datatype Phase = Opened | Written | Marked | Failed

  datatype Store = Store(f: Fragment, phase: Phase)

  /** Where the scanner is; at the head of its loop when Idle. todo: names still to be treated,
      the current one first; f: what was read from the current file; last: completion time
      seen in this pass. */
  datatype Scan =
    | Idle
    | Listing
    | Pulling(todo: seq<Name>, last: real)
    | Read(f: Fragment, todo: seq<Name>, last: real)
    | Unmarked(f: Fragment, todo: seq<Name>, last: real)
    | Unlinked(f: Fragment, todo: seq<Name>, last: real)
    | Mismatch
    | Purging(todo: seq<Name>)
    | PurgedData(todo: seq<Name>)
    | Broken

  /** Where the owner is: before a start, after it, or in a stop, waiting for the thread. */
  datatype Owner = Off | On | Stopping

  /** data and markers are the two directories; scan and b are the scanner's memory; running is
      `_running`, thread tells whether the scanner thread exists. The rest is history: the
      builder as the current pass found it and what the pass has pulled, the last store call of
      each name, the fragments whose marker was created, as one read gives them, what was
      purged and what aged out, and the calls made to the processors. */
  datatype State = State(
    data: map<Name, seq<Byte>>, markers: set<Name>,
    scan: Scan, b: Builder, running: bool, thread: bool, owner: Owner,
    found: Builder, pulled: seq<Fragment>,
    stores: map<Name, Store>, marked: multiset<Fragment>,
    purged: multiset<Fragment>, aged: multiset<Fragment>, log: seq<Call>)

  const EMPTY: Builder := Builder(map[], [])

  const INITIAL: State := State(
    map[], {}, Idle, EMPTY, false, false, Off, EMPTY, [], map[], multiset{}, multiset{}, multiset{}, [])

  datatype Step =
    | OpenData(f: Fragment)
    | WriteData(n: Name, bytes: nat)
    | Mark(n: Name)
    | StartRun(run: int)
    | ClearRunning
    | JoinAndStop
    | TestRunning
    | List(order: seq<Name>)
    | ReadData
    | UnlinkMarker
    | UnlinkData
    | Insert
    | EndPass
    | PurgeList(order: seq<Name>)
    | PurgeData
    | PurgeMarker

  /** A listing of a directory, in any order. */
  ghost predicate Lists(order: seq<Name>, names: set<Name>) {
    Distinct(order) && Elements(order) == names
  }

  /** A store call for the name is under way. */
  ghost predicate BeingStored(s: State, n: Name) {
    n in s.stores && (s.stores[n].phase == Opened || s.stores[n].phase == Written)
  }

  /** The steps the code can take; it starts and stops the driver in turns, and no name has two
      store calls under way at once. */
  ghost predicate Possible(s: State, step: Step) {
    match step
    case OpenData(f) => !BeingStored(s, f.Named())
    case WriteData(n, k) => n in s.stores && s.stores[n].phase == Opened && k <= |s.stores[n].f.Bytes()|
    case Mark(n) => n in s.stores && s.stores[n].phase == Written
    case StartRun(_) => s.owner == Off
    case ClearRunning => s.owner == On
    case JoinAndStop => s.owner == Stopping && !s.thread
    case TestRunning => s.thread && s.scan == Idle
    case List(order) => s.scan == Listing && Lists(order, s.markers)
    case ReadData => s.scan.Pulling? && s.scan.todo != []
    case UnlinkMarker => s.scan.Read? && s.scan.todo != []
    case UnlinkData => s.scan.Unmarked? && s.scan.todo != []
    case Insert => s.scan.Unlinked? && s.scan.todo != []
    case EndPass => s.scan.Pulling? && s.scan.todo == []
    case PurgeList(order) => s.scan == Mismatch && Lists(order, s.markers)
    case PurgeData => s.scan.Purging? && s.scan.todo != []
    case PurgeMarker => s.scan.PurgedData? && s.scan.todo != []
  }

  /** The scanner has unlinked the marker of n and not yet its data file. */
  ghost predicate AboutToUnlink(sc: Scan, n: Name) {
    sc.Unmarked? && sc.todo != [] && sc.todo[0] == n
  }

  /** A name may be stored again once its marker is gone, unless the scanner is about to unlink
      the data file, or an earlier, failed store has left more bytes than are to be written. */
  ghost predicate MayStore(s: State, f: Fragment) {
    && f.Named() !in s.markers
    && !AboutToUnlink(s.scan, f.Named())
    && (f.Named() in s.data ==> |s.data[f.Named()]| <= |f.Bytes()|)
  }

  /** The steps of a run: possible ones, in which names are stored again only when they may. */
  ghost predicate Enabled(s: State, step: Step) {
    Possible(s, step) && (step.OpenData? ==> MayStore(s, step.f))
  }

  /** What one read gives of the fragment last stored under n. */
  ghost function FragmentOf(s: State, n: Name): multiset<Fragment> {
    if n in s.stores then multiset{Cut(s.stores[n].f)} else multiset{}
  }

  /** Incomplete entries older than the age limit, counted from time last, are dropped. */
  ghost function Aged(N: nat, s: State, last: real): State
  {
    var gone := Stale(N, s.b.held, last, DELAY);
    s.(scan := Idle, b := s.b.(held := s.b.held - gone), aged := s.aged + Pool(Restrict(s.b.held, gone)))
  }

  /** The bytes go into the file; into none that can be found when it has been unlinked. */
  ghost function WrittenData(s: State, n: Name, bytes: seq<Byte>): map<Name, seq<Byte>> {
    if n in s.data then s.data[n := Overwrite(s.data[n], bytes)] else s.data
  }

  /** A fragment joins its event; when that completes the event, the processors are called. */
  ghost function Inserted(N: nat, s: State): State
    requires s.scan.Unlinked? && s.scan.todo != []
  {
    var v := Entry(s.b.held, s.scan.f);
    s.(b := Add(N, s.b, s.scan.f), pulled := s.pulled + [s.scan.f],
       log := if Completes(N, s.b, s.scan.f) then s.log + [Handled(Event(s.scan.f.evt, v))] else s.log,
       scan := Pulling(s.scan.todo[1..], if |v| == N then Time(v[0]) else s.scan.last))
  }

  ghost function Apply(N: nat, s: State, step: Step): State
    requires N >= 1 && Possible(s, step)
  {
    match step
    case OpenData(f) =>
      s.(data := if f.Named() in s.data then s.data else s.data[f.Named() := []],
         stores := s.stores[f.Named() := Store(f, Opened)])
    case WriteData(n, k) =>
      var whole := s.stores[n].f.Bytes();
      s.(data := WrittenData(s, n, whole[..k]),
         stores := s.stores[n := s.stores[n].(phase := if k == |whole| then Written else Failed)])
    case Mark(n) =>
      s.(markers := s.markers + {n}, stores := s.stores[n := s.stores[n].(phase := Marked)],
         marked := s.marked + FragmentOf(s, n))
    case StartRun(nr) => s.(owner := On, running := true, thread := true, log := s.log + [Started(nr)])
    case ClearRunning => s.(owner := Stopping, running := false)
    case JoinAndStop => s.(owner := Off, log := s.log + [Stopped])
    case TestRunning => if s.running then s.(scan := Listing) else s.(thread := false)
    case List(order) =>
      s.(scan := if order == [] then Idle else if |order| % N != 0 then Mismatch else Pulling(order, 0.0),
         found := s.b, pulled := [])
    case ReadData =>
      var n := s.scan.todo[0];
      if n in s.data && |s.data[n]| >= HEADER then
        s.(scan := Read(Parse(OneRead(s.data[n])), s.scan.todo, s.scan.last))
      else s.(scan := Broken)
    case UnlinkMarker =>
      s.(markers := s.markers - {s.scan.todo[0]}, scan := Unmarked(s.scan.f, s.scan.todo, s.scan.last))
    case UnlinkData =>
      s.(data := s.data - {s.scan.todo[0]}, scan := Unlinked(s.scan.f, s.scan.todo, s.scan.last))
    case Insert => Inserted(N, s)
    case EndPass => if s.scan.last == 0.0 then s.(scan := Idle) else Aged(N, s, s.scan.last)
    case PurgeList(order) => s.(scan := if order == [] then Idle else Purging(order))
    case PurgeData =>
      s.(data := s.data - {s.scan.todo[0]}, scan := PurgedData(s.scan.todo))
    case PurgeMarker =>
      var n := s.scan.todo[0];
      s.(markers := s.markers - {n}, purged := s.purged + FragmentOf(s, n),
         scan := if |s.scan.todo| == 1 then Idle else Purging(s.scan.todo[1..]))
  }

  // ----- the invariant

  /** The file opened for n is not longer than the fragment to be written. */
  ghost predicate HasRoom(s: State, n: Name) {
    n in s.stores && n in s.data && |s.data[n]| <= |s.stores[n].f.Bytes()|
  }

  /** The data file of n holds the whole fragment. */
  ghost predicate Complete(s: State, n: Name) {
    n in s.stores && n in s.data && s.data[n] == s.stores[n].f.Bytes()
  }

  ghost predicate BeingPurged(sc: Scan, n: Name) {
    sc.PurgedData? && sc.todo != [] && sc.todo[0] == n
  }

  /** Store calls, and what is in the files. Only the file whose marker the purge is about to
      remove may be missing. */
  ghost predicate Files(s: State) {
    && (forall n :: n in s.stores ==> s.stores[n].f.Named() == n)
    && (forall n :: n in s.markers ==> n in s.stores && s.stores[n].phase == Marked)
    && (forall n :: n in s.stores && s.stores[n].phase == Opened ==> HasRoom(s, n))
    && (forall n :: n in s.stores && s.stores[n].phase == Written ==> Complete(s, n))
    && (forall n :: n in s.markers && !BeingPurged(s.scan, n) ==> Complete(s, n))
  }

  ghost predicate TailMarked(s: State, todo: seq<Name>) {
    todo != [] && Distinct(todo) && Elements(todo[1..]) <= s.markers
  }

  /** f is what one read gives of the fragment stored under n. */
  ghost predicate Holding(s: State, n: Name, f: Fragment) {
    n in s.stores && s.stores[n].phase == Marked && f == Cut(s.stores[n].f)
  }

  /** The scanner's list: distinct names with a marker; only the current name has lost its
      marker once that is unlinked. What it read is what was stored. */
  ghost predicate Scanning(s: State) {
    match s.scan
    case Idle => true
    case Listing => true
    case Mismatch => true
    case Broken => false
    case Pulling(todo, _) => Distinct(todo) && Elements(todo) <= s.markers
    case Purging(todo) => todo != [] && Distinct(todo) && Elements(todo) <= s.markers
    case PurgedData(todo) => todo != [] && Distinct(todo) && Elements(todo) <= s.markers
    case Read(f, todo, _) => todo != [] && Distinct(todo) && Elements(todo) <= s.markers && Holding(s, todo[0], f)
    case Unmarked(f, todo, _) => TailMarked(s, todo) && todo[0] !in s.markers && Holding(s, todo[0], f)
    case Unlinked(_, todo, _) => TailMarked(s, todo)
  }

  /** The fragments of a set of stored names, as one read gives them. */
  ghost function FragsOf(stores: map<Name, Store>, names: set<Name>): set<Fragment> {
    set n | n in names && n in stores :: Cut(stores[n].f)
  }

  /** Fragments with a marker now. */
  ghost function Pending(s: State): multiset<Fragment> {
    multiset(FragsOf(s.stores, s.markers))
  }

  /** The fragment the scanner has in its hands: no marker any more, not in the map yet. */
  ghost function InHand(sc: Scan): multiset<Fragment> {
    if sc.Unmarked? || sc.Unlinked? then multiset{sc.f} else multiset{}
  }

  /** Where fragments with a marker end up: each is in exactly one place. */
  ghost predicate Conserved(s: State) {
    s.marked == Pending(s) + InHand(s.scan) + (Pool(s.b.held) + HandedPool(s.b.handed)) + s.purged + s.aged
  }

  /** No event is event 0, and each holds its own fragments. */
  ghost predicate HandedOk(h: seq<Event>) {
    forall ev :: ev in h ==> ev.evt != 0 && forall f :: f in ev.frags ==> f.evt == ev.evt
  }

  ghost predicate InPass(sc: Scan) {
    sc.Pulling? || sc.Read? || sc.Unmarked? || sc.Unlinked?
  }

  /** During a pass the builder is the one the pass found, with what was pulled so far added;
      writers do not disturb it. */
  ghost predicate PassSoFar(N: nat, s: State) {
    InPass(s.scan) ==>
      && s.b == AddAll(N, s.found, s.pulled)
      && s.scan.last == LastCompletion(N, s.found, s.pulled)
      && WellFormed(N, s.found.held)
  }

  ghost predicate Building(N: nat, s: State) {
    WellFormed(N, s.b.held) && HandedOk(s.b.handed) && PassSoFar(N, s)
  }

  /** The scanner is at work only in its thread, the thread exists only between a start and the
      end of the join, and the processors have seen runs, with the very events handed over. */
  ghost predicate Owned(s: State) {
    && (s.scan != Idle ==> s.thread)
    && (s.thread ==> s.owner != Off)
    && (s.running <==> s.owner == On)
    && (InRun(s.log) <==> s.owner != Off)
    && Runs(s.log) && HandedIn(s.log) == s.b.handed
  }

  ghost predicate Inv(N: nat, s: State) {
    Files(s) && Scanning(s) && Conserved(s) && Building(N, s) && Owned(s)
  }

  // ----- fragments of sets of names

  ghost predicate NamesOk(stores: map<Name, Store>) {
    forall n :: n in stores ==> stores[n].f.Named() == n
  }

  lemma FragsPlus(stores: map<Name, Store>, names: set<Name>, n: Name)
    requires NamesOk(stores) && n in stores && n !in names
    ensures multiset(FragsOf(stores, names + {n})) == multiset(FragsOf(stores, names)) + multiset{Cut(stores[n].f)}
  {
    forall m | m in stores ensures Cut(stores[m].f).Named() == m {
    }
    hide Cut;
    assert FragsOf(stores, names + {n}) == FragsOf(stores, names) + {Cut(stores[n].f)};
    assert Cut(stores[n].f) !in FragsOf(stores, names);
  }

  lemma FragsSame(stores: map<Name, Store>, stores': map<Name, Store>, names: set<Name>)
    requires forall n :: n in names ==> n in stores && n in stores' && stores'[n].f == stores[n].f
    ensures FragsOf(stores', names) == FragsOf(stores, names)
  {
    hide Cut;
  }

  // ----- the steps of the writers

  /** What a writer does is not seen by the scanner and the owner. */
  lemma WriterOnly(N: nat, s: State, s': State)
    requires s' == s.(data := s'.data, markers := s'.markers, stores := s'.stores, marked := s'.marked)
    ensures Building(N, s) ==> Building(N, s')
    ensures Owned(s) ==> Owned(s')
  {
    hide WellFormed, HandedOk, AddAll, LastCompletion, Runs, InRun, HandedIn;
  }

  /** A store call that has not come to its marker yet does not show in the accounts, nor to
      the scanner. */
  lemma NotMarkedYet(s: State, s': State, n: Name)
    requires Files(s) && Scanning(s) && Conserved(s) && n !in s.markers && !AboutToUnlink(s.scan, n)
    requires s' == s.(data := s'.data, stores := s'.stores)
    requires n in s'.stores && s'.stores == s.stores[n := s'.stores[n]]
    ensures Scanning(s') && Conserved(s')
  {
    hide Pool, HandedPool, FragsOf, Distinct, Cut, Fragment.Bytes;
    FragsSame(s.stores, s'.stores, s.markers);
    if s.scan.Read? {
      assert s.scan.todo[0] in Elements(s.scan.todo);
    }
  }

  lemma OpenFiles(s: State, s': State, f: Fragment)
    requires Files(s) && !BeingStored(s, f.Named()) && MayStore(s, f)
    requires s' == s.(data := if f.Named() in s.data then s.data else s.data[f.Named() := []],
                      stores := s.stores[f.Named() := Store(f, Opened)])
    ensures Files(s')
  {
    hide Fragment.Bytes;
    var n := f.Named();
    assert HasRoom(s', n);
    forall m | m in s.stores && m != n
      ensures (HasRoom(s, m) ==> HasRoom(s', m)) && (Complete(s, m) ==> Complete(s', m))
    {
    }
    hide HasRoom, Complete;
  }

  lemma OpenKeeps(N: nat, s: State, f: Fragment)
    requires N >= 1 && Inv(N, s) && Enabled(s, OpenData(f))
    ensures Inv(N, Apply(N, s, OpenData(f)))
  {
    hide Files, Scanning, Conserved, Building, Owned, Fragment.Bytes;
    var s' := Apply(N, s, OpenData(f));
    OpenFiles(s, s', f);
    NotMarkedYet(s, s', f.Named());
    WriterOnly(N, s, s');
  }

  lemma WriteFiles(s: State, s': State, n: Name, k: nat)
    requires Files(s) && n in s.stores && s.stores[n].phase == Opened && k <= |s.stores[n].f.Bytes()|
    requires var whole := s.stores[n].f.Bytes();
      s' == s.(data := WrittenData(s, n, whole[..k]),
               stores := s.stores[n := s.stores[n].(phase := if k == |whole| then Written else Failed)])
    ensures Files(s')
  {
    hide Fragment.Bytes;
    var whole := s.stores[n].f.Bytes();
    assert HasRoom(s, n);
    assert whole[..|whole|] == whole;
  }

  /** A name with a store call under way has no marker, and the scanner is not at it. */
  lemma NotListed(s: State, n: Name)
    requires Files(s) && Scanning(s) && BeingStored(s, n)
    ensures n !in s.markers && !AboutToUnlink(s.scan, n)
  {
    hide Fragment.Bytes, Distinct, Elements, Cut, Complete, HasRoom;
  }

  lemma WriteKeeps(N: nat, s: State, n: Name, k: nat)
    requires N >= 1 && Inv(N, s) && Enabled(s, WriteData(n, k))
    ensures Inv(N, Apply(N, s, WriteData(n, k)))
  {
    hide Files, Scanning, Conserved, Building, Owned, Fragment.Bytes, WrittenData;
    var s' := Apply(N, s, WriteData(n, k));
    NotListed(s, n);
    WriteFiles(s, s', n, k);
    NotMarkedYet(s, s', n);
    WriterOnly(N, s, s');
  }

  lemma MarkFiles(s: State, s': State, n: Name)
    requires Files(s) && Scanning(s) && n in s.stores && s.stores[n].phase == Written
    requires s' == s.(markers := s.markers + {n}, stores := s.stores[n := s.stores[n].(phase := Marked)],
                      marked := s'.marked)
    ensures Files(s') && Scanning(s')
  {
    hide Fragment.Bytes, Cut, Distinct;
    if s.scan.Read? {
      assert s.scan.todo[0] in Elements(s.scan.todo);
    }
  }

  lemma MarkCounts(s: State, s': State, n: Name)
    requires Files(s) && Conserved(s) && n in s.stores && s.stores[n].phase == Written
    requires s' == s.(markers := s.markers + {n}, stores := s.stores[n := s.stores[n].(phase := Marked)],
                      marked := s.marked + FragmentOf(s, n))
    ensures Conserved(s')
  {
    hide Fragment.Bytes, FragsOf, Cut, Pool, HandedPool, Complete, HasRoom;
    FragsSame(s.stores, s'.stores, s.markers + {n});
    FragsPlus(s.stores, s.markers, n);
  }

  lemma MarkKeeps(N: nat, s: State, n: Name)
    requires N >= 1 && Inv(N, s) && Enabled(s, Mark(n))
    ensures Inv(N, Apply(N, s, Mark(n)))
  {
    hide Files, Scanning, Conserved, Building, Owned, FragmentOf;
    var s' := Apply(N, s, Mark(n));
    MarkFiles(s, s', n);
    MarkCounts(s, s', n);
    WriterOnly(N, s, s');
  }

  // ----- the steps of the owner

  /** The directories and the store calls are untouched. */
  lemma SameFiles(s: State, s': State)
    requires s'.data == s.data && s'.markers == s.markers && s'.stores == s.stores
    requires s'.scan == s.scan || !s.scan.PurgedData?
    ensures Pending(s') == Pending(s) && (Files(s) ==> Files(s'))
  {
    hide FragsOf, Fragment.Bytes;
  }

  lemma OwnerKeeps(N: nat, s: State, step: Step)
    requires N >= 1 && Inv(N, s) && Enabled(s, step)
    requires step.StartRun? || step.ClearRunning? || step.JoinAndStop?
    ensures Inv(N, Apply(N, s, step))
  {
    hide WellFormed, HandedOk, AddAll, LastCompletion, Runs, InRun, HandedIn, Files, Pending, Pool, HandedPool, Cut,
         Elements, Distinct;
    SameFiles(s, Apply(N, s, step));
    if step.StartRun? {
      LogGrows(s.log, Started(step.run));
    } else if step.JoinAndStop? {
      LogGrows(s.log, Stopped);
    }
  }

  // ----- the steps of the scanner

  /** Where the scanner is changes only the account of what is in its hands. */
  lemma Moves(s: State, s': State)
    requires Files(s) && Conserved(s) && !s.scan.PurgedData? && InHand(s.scan) == InHand(s'.scan)
    requires s' == s.(scan := s'.scan, found := s'.found, pulled := s'.pulled, thread := s'.thread)
    ensures Files(s') && Conserved(s')
  {
    hide Pool, HandedPool, Files, Pending;
    SameFiles(s, s');
  }

  /** A step within a turn that leaves the builder alone. */
  lemma SameBuilder(N: nat, s: State, s': State)
    requires s' == s.(data := s'.data, markers := s'.markers, scan := s'.scan, purged := s'.purged)
    requires InPass(s'.scan) ==> InPass(s.scan) && s'.scan.last == s.scan.last
    requires s.scan != Idle
    ensures Building(N, s) ==> Building(N, s')
    ensures Owned(s) ==> Owned(s')
  {
    hide WellFormed, HandedOk, AddAll, LastCompletion, Runs, InRun, HandedIn;
  }

  /** At the head of a turn, and between the two listings, nothing is under way. */
  lemma TurnKeeps(N: nat, s: State, step: Step)
    requires N >= 1 && Inv(N, s) && Enabled(s, step) && (step.PurgeList? || step.TestRunning?)
    ensures Inv(N, Apply(N, s, step))
  {
    hide WellFormed, HandedOk, AddAll, LastCompletion, Runs, InRun, HandedIn, Files, Conserved, Distinct, Elements;
    Moves(s, Apply(N, s, step));
  }

  lemma ListBuilds(N: nat, s: State, s': State)
    requires Building(N, s) && (InPass(s'.scan) ==> s'.scan.Pulling? && s'.scan.last == 0.0)
    requires s' == s.(scan := s'.scan, found := s.b, pulled := [])
    ensures Building(N, s')
  {
    hide WellFormed, HandedOk, AddAll, LastCompletion;
    NothingArrives(N, s.b);
  }

  lemma ListKeeps(N: nat, s: State, order: seq<Name>)
    requires N >= 1 && Inv(N, s) && Enabled(s, List(order))
    ensures Inv(N, Apply(N, s, List(order)))
  {
    hide Building, Runs, InRun, HandedIn, Files, Conserved, Distinct, Elements;
    var s' := Apply(N, s, List(order));
    Moves(s, s');
    ListBuilds(N, s, s');
  }

  /** A pull of a listed name succeeds and reads what one read gives of the stored fragment. */
  lemma PullReads(N: nat, s: State)
    requires N >= 1 && Inv(N, s) && Enabled(s, ReadData)
    ensures var (s', n) := (Apply(N, s, ReadData), s.scan.todo[0]);
            n in s.stores && s'.scan == Read(Cut(s.stores[n].f), s.scan.todo, s.scan.last)
  {
    hide Building, Owned, Conserved, Cut, Fragment.Bytes, Parse, OneRead, Distinct;
    var n := s.scan.todo[0];
    assert n in Elements(s.scan.todo);
    assert Complete(s, n);
    ReadIsCut(s.stores[n].f);
  }

  lemma MarkerMeansMarked(s: State, n: Name)
    requires Files(s) && n in s.markers
    ensures n in s.stores && s.stores[n].phase == Marked
  {
  }

  lemma OnlyReads(N: nat, s: State)
    requires N >= 1 && Enabled(s, ReadData)
    ensures Apply(N, s, ReadData) == s.(scan := Apply(N, s, ReadData).scan)
  {
  }

  lemma ReadKeeps(N: nat, s: State)
    requires N >= 1 && Inv(N, s) && Enabled(s, ReadData)
    ensures Inv(N, Apply(N, s, ReadData))
  {
    hide Files, Conserved, Building, Owned, Apply, Cut, Distinct;
    var n := s.scan.todo[0];
    assert n in Elements(s.scan.todo);
    MarkerMeansMarked(s, n);
    PullReads(N, s);
    var s' := s.(scan := Read(Cut(s.stores[n].f), s.scan.todo, s.scan.last));
    Moves(s, s');
    SameBuilder(N, s, s');
    OnlyReads(N, s);
  }

  lemma TailNames(todo: seq<Name>)
    requires todo != [] && Distinct(todo)
    ensures Distinct(todo[1..]) && Elements(todo) == Elements(todo[1..]) + {todo[0]} && todo[0] !in Elements(todo[1..])
  {
  }

  lemma MarkerGone(s: State, n: Name)
    requires Files(s) && n in s.markers
    ensures n in s.stores
    ensures Pending(s) == multiset(FragsOf(s.stores, s.markers - {n})) + multiset{Cut(s.stores[n].f)}
  {
    hide Fragment.Bytes, Cut, FragsOf;
    FragsPlus(s.stores, s.markers - {n}, n);
    assert s.markers - {n} + {n} == s.markers;
  }

  lemma UnlinkMarkerFiles(s: State, s': State, n: Name)
    requires Files(s) && s.scan.Read? && s'.scan.Unmarked?
    requires s' == s.(markers := s.markers - {n}, scan := s'.scan)
    ensures Files(s')
  {
    hide Fragment.Bytes;
  }

  lemma UnlinkMarkerKeeps(N: nat, s: State)
    requires N >= 1 && Inv(N, s) && Enabled(s, UnlinkMarker)
    ensures Inv(N, Apply(N, s, UnlinkMarker))
  {
    hide Files, Building, Owned, Cut, FragsOf, Distinct, Elements, Pool, HandedPool;
    var n, s' := s.scan.todo[0], Apply(N, s, UnlinkMarker);
    TailNames(s.scan.todo);
    MarkerGone(s, n);
    UnlinkMarkerFiles(s, s', n);
    SameBuilder(N, s, s');
  }

  lemma UnlinkDataFiles(s: State, s': State, n: Name)
    requires Files(s) && n in s.stores && s.stores[n].phase == Marked && n !in s.markers
    requires s.scan.Unmarked? && s'.scan.Unlinked? && s' == s.(data := s.data - {n}, scan := s'.scan)
    ensures Files(s')
  {
    hide Fragment.Bytes;
  }

  lemma UnlinkDataKeeps(N: nat, s: State)
    requires N >= 1 && Inv(N, s) && Enabled(s, UnlinkData)
    ensures Inv(N, Apply(N, s, UnlinkData))
  {
    hide Files, Building, Owned, Cut, FragsOf, Distinct, Elements, Pool, HandedPool;
    UnlinkDataFiles(s, Apply(N, s, UnlinkData), s.scan.todo[0]);
    SameBuilder(N, s, Apply(N, s, UnlinkData));
  }

  /** An arrival moves one fragment from the scanner's hands into the builder. */
  lemma InsertCounts(N: nat, s: State)
    requires s.scan.Unlinked? && s.scan.todo != [] && Files(s) && Conserved(s)
    ensures Files(Inserted(N, s)) && Conserved(Inserted(N, s))
  {
    hide Pool, HandedPool, Add, Completes, Entry, Time, Pending, Files;
    AddConserves(N, s.b, s.scan.f);
    SameFiles(s, Inserted(N, s));
  }

  lemma InsertBuilder(N: nat, b: Builder, f: Fragment)
    requires N >= 1 && WellFormed(N, b.held) && HandedOk(b.handed)
    ensures WellFormed(N, Add(N, b, f).held) && HandedOk(Add(N, b, f).handed)
  {
  }

  lemma InsertBuilds(N: nat, s: State)
    requires N >= 1 && s.scan.Unlinked? && s.scan.todo != [] && Building(N, s)
    ensures Building(N, Inserted(N, s))
  {
    hide Add, AddAll, LastCompletion, WellFormed, HandedOk, Entry, Time, Completes;
    OneArrives(N, s.found, s.pulled, s.scan.f);
    InsertBuilder(N, s.b, s.scan.f);
  }

  /** The processors are called exactly when an event is handed over, in a run. */
  lemma InsertLogs(N: nat, s: State)
    requires s.scan.Unlinked? && s.scan.todo != [] && Owned(s)
    ensures Owned(Inserted(N, s))
  {
    hide Runs, InRun, HandedIn, Time;
    if Completes(N, s.b, s.scan.f) {
      LogGrows(s.log, Handled(Event(s.scan.f.evt, Entry(s.b.held, s.scan.f))));
    }
  }

  lemma InsertKeeps(N: nat, s: State)
    requires N >= 1 && Inv(N, s) && Enabled(s, Insert)
    ensures Inv(N, Apply(N, s, Insert))
  {
    hide Files, Conserved, Building, Owned, Add, Entry, Distinct, Elements;
    TailNames(s.scan.todo);
    InsertCounts(N, s);
    InsertBuilds(N, s);
    InsertLogs(N, s);
  }

  lemma BackToHead(N: nat, s: State, s': State)
    requires s.scan.Pulling? && s' == s.(scan := Idle)
    ensures Building(N, s) ==> Building(N, s')
    ensures Owned(s) ==> Owned(s')
  {
    hide WellFormed, HandedOk, AddAll, LastCompletion, Runs, InRun, HandedIn;
  }

  lemma AgedCounts(N: nat, s: State, last: real)
    requires N >= 1 && WellFormed(N, s.b.held) && Conserved(s) && s.scan.Pulling?
    ensures Conserved(Aged(N, s, last))
  {
    hide Pool, HandedPool, WellFormed, Stale, Restrict, Pending;
    AgeingLaw(N, s.b.held, last, DELAY);
    SameFiles(s, Aged(N, s, last));
  }

  lemma AgedKeeps(N: nat, s: State, last: real)
    requires N >= 1 && Inv(N, s) && s.scan.Pulling?
    ensures Inv(N, Aged(N, s, last))
  {
    hide Pool, Conserved, WellFormed, HandedOk, Stale, Restrict, AddAll, LastCompletion, Runs, InRun, HandedIn, Files,
         Distinct, Elements;
    AgeingLaw(N, s.b.held, last, DELAY);
    AgedCounts(N, s, last);
    SameFiles(s, Aged(N, s, last));
  }

  lemma EndPassKeeps(N: nat, s: State)
    requires N >= 1 && Inv(N, s) && Enabled(s, EndPass)
    ensures Inv(N, Apply(N, s, EndPass))
  {
    hide Files, Conserved, Building, Owned, Distinct, Elements, Aged;
    if s.scan.last == 0.0 {
      Moves(s, s.(scan := Idle));
      BackToHead(N, s, s.(scan := Idle));
    } else {
      AgedKeeps(N, s, s.scan.last);
    }
  }

  lemma PurgeFiles(s: State, s': State, n: Name)
    requires Files(s) && n in s.markers && (s.scan.Purging? || BeingPurged(s.scan, n))
    ensures s' == s.(data := s.data - {n}, scan := s'.scan) && BeingPurged(s'.scan, n) ==> Files(s')
    ensures s' == s.(markers := s.markers - {n}, scan := s'.scan, purged := s'.purged) && !s'.scan.PurgedData?
        ==> Files(s')
  {
    hide Fragment.Bytes;
  }

  lemma PurgeDataKeeps(N: nat, s: State)
    requires N >= 1 && Inv(N, s) && Enabled(s, PurgeData)
    ensures Inv(N, Apply(N, s, PurgeData))
  {
    hide Files, Building, Owned, FragsOf, Distinct, Pool, HandedPool;
    assert s.scan.todo[0] in Elements(s.scan.todo);
    hide Elements;
    PurgeFiles(s, Apply(N, s, PurgeData), s.scan.todo[0]);
    SameBuilder(N, s, Apply(N, s, PurgeData));
  }

  lemma PurgeMarkerCounts(s: State, s': State, n: Name)
    requires Files(s) && Conserved(s) && n in s.markers && s.scan.PurgedData?
    requires s' == s.(markers := s.markers - {n}, scan := s'.scan, purged := s.purged + FragmentOf(s, n))
    requires s'.scan.Purging? || s'.scan.Idle?
    ensures Conserved(s')
  {
    hide Files, FragsOf, Cut, Pool, HandedPool;
    MarkerGone(s, n);
  }

  lemma PurgeMarkerKeeps(N: nat, s: State)
    requires N >= 1 && Inv(N, s) && Enabled(s, PurgeMarker)
    ensures Inv(N, Apply(N, s, PurgeMarker))
  {
    hide Files, Building, Owned, Conserved, FragmentOf, Distinct, Elements;
    TailNames(s.scan.todo);
    PurgeMarkerCounts(s, Apply(N, s, PurgeMarker), s.scan.todo[0]);
    PurgeFiles(s, Apply(N, s, PurgeMarker), s.scan.todo[0]);
    SameBuilder(N, s, Apply(N, s, PurgeMarker));
  }

  lemma StepKeeps(N: nat, s: State, step: Step)
    requires N >= 1 && Inv(N, s) && Enabled(s, step)
    ensures Inv(N, Apply(N, s, step))
  {
    hide Inv, Apply, Possible, MayStore;
    match step
    case OpenData(f) => OpenKeeps(N, s, f);
    case WriteData(n, k) => WriteKeeps(N, s, n, k);
    case Mark(n) => MarkKeeps(N, s, n);
    case StartRun(_) => OwnerKeeps(N, s, step);
    case ClearRunning => OwnerKeeps(N, s, step);
    case JoinAndStop => OwnerKeeps(N, s, step);
    case TestRunning => TurnKeeps(N, s, step);
    case List(order) => ListKeeps(N, s, order);
    case ReadData => ReadKeeps(N, s);
    case UnlinkMarker => UnlinkMarkerKeeps(N, s);
    case UnlinkData => UnlinkDataKeeps(N, s);
    case Insert => InsertKeeps(N, s);
    case EndPass => EndPassKeeps(N, s);
    case PurgeList(_) => TurnKeeps(N, s, step);
    case PurgeData => PurgeDataKeeps(N, s);
    case PurgeMarker => PurgeMarkerKeeps(N, s);
  }

  // ----- runs

  /** The run `steps` leads from state s0 to state s. */
  ghost predicate Follows(N: nat, s0: State, steps: seq<Step>, s: State)
    requires N >= 1
    decreases |steps|
  {
    if steps == [] then s == s0
    else Enabled(s0, steps[0]) && Follows(N, Apply(N, s0, steps[0]), steps[1..], s)
  }

  /** The run leads from the very start to state s. */
  ghost predicate Leads(N: nat, steps: seq<Step>, s: State)
    requires N >= 1
  {
    Follows(N, INITIAL, steps, s)
  }

  lemma {:induction false} FollowsOn(N: nat, s0: State, a: seq<Step>, m: State, b: seq<Step>, s: State)
    requires N >= 1 && Follows(N, s0, a, m) && Follows(N, m, b, s)
    ensures Follows(N, s0, a + b, s)
    decreases |a|
  {
    hide Apply, Possible;
    if a == [] {
      assert a + b == b;
    } else {
      FollowsOn(N, Apply(N, s0, a[0]), a[1..], m, b, s);
      assert (a + b)[1..] == a[1..] + b;
    }
  }

  lemma OneStep(N: nat, s: State, step: Step)
    requires N >= 1 && Inv(N, s) && Enabled(s, step)
    ensures Follows(N, s, [step], Apply(N, s, step)) && Inv(N, Apply(N, s, step))
  {
    hide Apply, Enabled, Inv;
    StepKeeps(N, s, step);
    assert [step][1..] == [];
  }

  lemma InitialInv(N: nat)
    ensures Inv(N, INITIAL)
  {
  }

  lemma {:induction false} RunKeeps(N: nat, s0: State, steps: seq<Step>, s: State)
    requires N >= 1 && Inv(N, s0) && Follows(N, s0, steps, s)
    ensures Inv(N, s)
    decreases |steps|
  {
    hide Inv, Apply, Possible;
    if steps != [] {
      StepKeeps(N, s0, steps[0]);
      RunKeeps(N, Apply(N, s0, steps[0]), steps[1..], s);
    }
  }

  lemma RunInv(N: nat, steps: seq<Step>, s: State)
    requires N >= 1 && Leads(N, steps, s)
    ensures Inv(N, s)
  {
    hide Inv, Follows;
    InitialInv(N);
    RunKeeps(N, INITIAL, steps, s);
  }

  /** Between two runs of the scanner sources may be added to the driver. */
  lemma MoreSources(N: nat, M: nat, s: State)
    requires 1 <= N <= M && Inv(N, s) && !InPass(s.scan)
    ensures Inv(M, s)
  {
    hide Files, Scanning, Conserved, Owned, HandedOk;
  }

  /** Safety of the marker: in every state of every run a visible marker means that the data
      file is complete, except for the one name that the scanner's own purge is at. */
  lemma MarkerMeansComplete(N: nat, steps: seq<Step>, s: State, n: Name)
    requires N >= 1 && Leads(N, steps, s) && n in s.markers
    ensures n in s.stores && s.stores[n].phase == Marked
    ensures BeingPurged(s.scan, n) || (n in s.data && s.data[n] == s.stores[n].f.Bytes())
  {
    RunInv(N, steps, s);
    hide Apply, Enabled, Leads, Conserved, Fragment.Bytes;
  }

  /** The scanner never fails to open a listed file, and what it has read of one is what one
      read gives of the fragment stored under that name: all of it if and only if it is not
      longer than a read. What it has unlinked is a fragment whose marker was created. */
  lemma ScannerReadsWhole(N: nat, steps: seq<Step>, s: State)
    requires N >= 1 && Leads(N, steps, s)
    ensures s.scan != Broken
    ensures s.scan.Read? || s.scan.Unmarked? ==>
        && s.scan.todo != [] && s.scan.todo[0] in s.stores
        && var f := s.stores[s.scan.todo[0]].f;
           s.scan.f == Cut(f) && (s.scan.f == f <==> |f.Bytes()| <= READ_MAX)
    ensures s.scan.Unlinked? ==> s.scan.f in s.marked
  {
    RunInv(N, steps, s);
    hide Apply, Enabled, Leads, Files, Fragment.Bytes, Cut, Building, Owned, Pool, HandedPool, Pending;
    if s.scan.Read? || s.scan.Unmarked? {
      ReadIsCut(s.stores[s.scan.todo[0]].f);
    }
  }

  /** Conservation: in every state of every run, each fragment whose marker was ever created
      is, with its multiplicity, in exactly one place. */
  lemma Conservation(N: nat, steps: seq<Step>, s: State)
    requires N >= 1 && Leads(N, steps, s)
    ensures s.marked == Pending(s) + InHand(s.scan) + Pool(s.b.held) + HandedPool(s.b.handed) + s.purged + s.aged
  {
    RunInv(N, steps, s);
    hide Leads, Files, Scanning, Building, Owned, Pool, HandedPool, Pending, InHand;
  }

  /** The counting law holds in every pass of every run, however the writers interleave: for
      an event with p fragments held when the pass began and q pulled since, (p + q) / N events
      have been handed over and (p + q) % N fragments are held; for event 0 none and all. */
  lemma CountingInEveryPass(N: nat, steps: seq<Step>, s: State, e: nat)
    requires N >= 1 && Leads(N, steps, s) && InPass(s.scan)
    ensures var n := |Held(s.found.held, e)| + |Of(s.pulled, e)|;
            && |HandedFor(s.b.handed, e)| - |HandedFor(s.found.handed, e)| == (if e == 0 then 0 else n / N)
            && |Held(s.b.held, e)| == (if e == 0 then n else n % N)
  {
    hide Leads, Files, Scanning, Conserved, Owned, HandedOk, AddAll, LastCompletion, HandedFor, Of;
    RunInv(N, steps, s);
    CountingLaw(N, s.found, s.pulled, s.pulled, e);
  }

  // ----- starting and stopping

  /** In every state of every run the processors have been called in runs, with the very events
      handed over, and after a stop no event comes before another start: the scanner, which
      looks at `_running` only at the head of its loop, is always gone by then. */
  lemma NoEventAfterStop(N: nat, steps: seq<Step>, s: State, i: nat, j: nat)
    requires N >= 1 && Leads(N, steps, s)
    ensures Runs(s.log) && HandedIn(s.log) == s.b.handed
    ensures s.log != [] && s.log[|s.log| - 1] == Stopped ==> !s.thread && !s.running && s.scan == Idle
    ensures i < j < |s.log| && s.log[i] == Stopped && s.log[j].Handled? ==> exists k :: i < k < j && s.log[k].Started?
    ensures i < j < |s.log| && s.log[i].Started? && s.log[j].Started? ==> exists k :: i < k < j && s.log[k].Stopped?
  {
    hide Leads, Files, Scanning, Conserved, Building, Runs, HandedIn;
    RunInv(N, steps, s);
    if i < j < |s.log| && s.log[i] == Stopped && s.log[j].Handled? {
      EventsInRuns(s.log, i, j);
    }
    if i < j < |s.log| && s.log[i].Started? && s.log[j].Started? {
      StartsApart(s.log, i, j);
    }
  }

  predicate OfScanner(step: Step) {
    !(step.OpenData? || step.WriteData? || step.Mark? || step.StartRun? || step.ClearRunning? || step.JoinAndStop?)
  }

  /** How far the scanner is from its end once `_running` is false: the part of its turn, and
      the steps it takes over the names in hand. */
  ghost function Left(s: State): (nat, nat) {
    match s.scan
    case Listing => (4, 0)
    case Mismatch => (3, 0)
    case Pulling(todo, _) => (2, 4 * |todo|)
    case Read(_, todo, _) => (2, if todo == [] then 0 else 4 * |todo| - 1)
    case Unmarked(_, todo, _) => (2, if todo == [] then 0 else 4 * |todo| - 2)
    case Unlinked(_, todo, _) => (2, if todo == [] then 0 else 4 * |todo| - 3)
    case Purging(todo) => (2, 2 * |todo|)
    case PurgedData(todo) => (2, if todo == [] then 0 else 2 * |todo| - 1)
    case Idle => (if s.thread then 1 else 0, 0)
    case Broken => (0, 0)
  }

  lemma StepAside(N: nat, s: State, step: Step)
    requires N >= 1 && Enabled(s, step) && !OfScanner(step) && s.owner == Stopping
    ensures Left(Apply(N, s, step)) == Left(s)
  {
    hide FragmentOf, WrittenData;
  }

  lemma StepNearer(N: nat, s: State, step: Step)
    requires N >= 1 && Enabled(s, step) && OfScanner(step) && !s.running && Apply(N, s, step).scan != Broken
    ensures var (now, was) := (Left(Apply(N, s, step)), Left(s));
            now.0 < was.0 || (now.0 == was.0 && now.1 < was.1)
  {
    hide Lists, Add, Cut, Parse, OneRead, Stale, Restrict, Pool, Completes, Entry, Time, FragmentOf;
  }

  lemma {:induction false} HasListing(names: set<Name>)
    ensures exists order :: Lists(order, names)
  {
    if names == {} {
      assert Lists([], names);
    } else {
      var n :| n in names;
      HasListing(names - {n});
      var order :| Lists(order, names - {n});
      ElementsPlus(order, n);
      assert forall i :: 0 <= i < |order| ==> order[i] in Elements(order);
      assert Lists(order + [n], names);
    }
  }

  lemma CanStep(s: State)
    requires s.thread && Scanning(s)
    ensures exists own :: OfScanner(own) && Enabled(s, own)
  {
    hide Elements, Distinct, Cut;
    HasListing(s.markers);
    var order :| Lists(order, s.markers);
    hide Lists;
    var own := match s.scan
      case Idle => TestRunning
      case Listing => List(order)
      case Mismatch => PurgeList(order)
      case Pulling(todo, _) => if todo == [] then EndPass else ReadData
      case Read(_, _, _) => UnlinkMarker
      case Unmarked(_, _, _) => UnlinkData
      case Unlinked(_, _, _) => Insert
      case Purging(_) => PurgeData
      case PurgedData(_) => PurgeMarker
      case Broken => TestRunning;
    assert OfScanner(own) && Enabled(s, own);
  }

  /** The join in a stop returns: while the thread exists the scanner can take a step, each of
      its steps brings it nearer to its end, and no writer's step takes it away from there. */
  lemma JoinReturns(N: nat, steps: seq<Step>, s: State, step: Step)
    requires N >= 1 && Leads(N, steps, s) && s.owner == Stopping
    ensures s.thread ==> exists own :: OfScanner(own) && Enabled(s, own)
    ensures !s.thread ==> Enabled(s, JoinAndStop)
    ensures Enabled(s, step) && OfScanner(step) ==>
        var (now, was) := (Left(Apply(N, s, step)), Left(s));
        now.0 < was.0 || (now.0 == was.0 && now.1 < was.1)
    ensures Enabled(s, step) && !OfScanner(step) ==> Left(Apply(N, s, step)) == Left(s)
  {
    hide Leads, Apply, Files, Conserved, Building, Lists, Elements, Distinct, Left;
    RunInv(N, steps, s);
    if s.thread {
      CanStep(s);
    }
    if Enabled(s, step) {
      if OfScanner(step) {
        StepKeeps(N, s, step);
        StepNearer(N, s, step);
      } else {
        StepAside(N, s, step);
      }
    }
  }
}
