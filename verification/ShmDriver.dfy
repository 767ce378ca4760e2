/** The event builder object: the event map with the buffers it owns, its start and stop, and
    its scanner thread. Its abstract value is a Builder; every buffer is freed exactly once,
    when its entry goes. */
module ShmDriver {
  import opened LittleEndian
  import opened Fragment
  import opened FragmentName
  import opened EventBuilder
  import opened EventPool
  import opened Deferred
  import opened RunLog
  import opened ShmDirectory
  import opened NatSets
  import opened Sequences

  /** A fragment that came out of one read. */
  type Pulled = f: Fragment | HEADER + |f.payload| <= READ_MAX
    witness Fragment(0, 0, 0, 0, [])

  /** A heap buffer into which one fragment was pulled, with its payload size. */
  class PulledBuffer {
    const frag: Pulled
    const psize: U32

    constructor (f: Pulled, size: U32)
      ensures frag == f && psize == size
    {
      frag, psize := f, size;
    }
  }

  type BufferMap = map<nat, seq<PulledBuffer>>

  function Frags(s: seq<PulledBuffer>): (fs: seq<Fragment>)
    ensures |fs| == |s| && forall i :: 0 <= i < |s| ==> fs[i] == s[i].frag
  {
    seq(|s|, i requires 0 <= i < |s| => s[i].frag)
  }

  function HeldFrags(m: BufferMap): EventMap { map e | e in m :: Frags(m[e]) }

  /** The live buffers are exactly those in the map, each in one place, under its own event. */
  ghost predicate Owned(m: BufferMap, live: set<PulledBuffer>) {
    && (forall e :: e in m ==> m[e] != [] && Distinct(m[e]))
    && (forall e, b :: e in m && b in m[e] ==> b in live && b.frag.evt == e)
    && (forall b :: b in live ==> b.frag.evt in m && b in m[b.frag.evt])
  }

  /** Every fragment of the events came out of one read. */
  ghost predicate FromReads(evs: seq<Event>) {
    forall ev :: ev in evs ==> forall f :: f in ev.frags ==> HEADER + |f.payload| <= READ_MAX
  }

  /** Bytes that a fresh buffer happens to have where the header goes. */
  type Memory = s: seq<Byte> | |s| == HEADER
    witness seq(HEADER, i => 0)

  /** The bytes that the pull of n puts into a buffer; none when the file cannot be opened. */
  function BytesRead(data: map<Name, seq<Byte>>, n: Name): seq<Byte> {
    if n in data then OneRead(data[n]) else []
  }

  /** What a buffer holds after the pull of n: what one read gives. Where that is less than a
      header, fresh memory shows through in the tags, and there is no payload. */
  function PullOf(data: map<Name, seq<Byte>>, n: Name, memory: Memory): Pulled {
    var s := BytesRead(data, n);
    if |s| >= HEADER then Parse(s) else Parse(s + memory[|s|..])
  }

  /** The payload size after that, in 32 bits: negative, as it were, for a file without a
      header, and left as it was when the file cannot be opened. */
  function SizeOf(data: map<Name, seq<Byte>>, n: Name): U32 {
    if n in data then (|BytesRead(data, n)| + U32_RANGE - HEADER) % U32_RANGE else 0
  }

  /** The fragments that the pulls of the first i names give. */
  function PullsOf(data: map<Name, seq<Byte>>, order: seq<Name>, i: nat, memory: nat -> Memory): (fs: seq<Fragment>)
    requires i <= |order|
  {
    seq(i, j requires 0 <= j < i => PullOf(data, order[j], memory(j)))
  }

  /** The abstract effect of a pass over fragments fs: they join their events, and when some
      event was completed, incomplete ones more than 10 s older are dropped. */
  function Pass(N: nat, b: Builder, fs: seq<Fragment>): Builder {
    var (b', last) := (AddAll(N, b, fs), LastCompletion(N, b, fs));
    if last == 0.0 then b' else b'.(held := b'.held - Stale(N, b'.held, last, 10.0))
  }

  /** What a turn of the scanner works on: the builder and the two directories. */
  datatype Snapshot = Snapshot(b: Builder, data: map<Name, seq<Byte>>, markers: set<Name>)

  /** A turn purges when the number of names does not fit the number of sources. */
  predicate Refused(N: nat, order: seq<Name>) { order != [] && N > 0 && |order| % N != 0 }

  /** A turn over the listing `order`: all listed data files go; a name that has none keeps its
      marker unless everything is purged; what was pulled goes through the builder. */
  ghost predicate Turn(N: nat, order: seq<Name>, memory: nat -> Memory, was: Snapshot, now: Snapshot) {
    && Alphabetical(order) && Elements(order) == was.markers
    && now.data == was.data - was.markers
    && if Refused(N, order) then now.markers == {} && now.b == was.b
       else
         && now.markers == was.markers - was.data.Keys
         && now.b == Pass(N, was.b, PullsOf(was.data, order, |order|, memory))
  }

  /** The fragments of event e among those a turn has pulled. */
  function PulledOf(was: Snapshot, order: seq<Name>, memory: nat -> Memory, e: nat): seq<Fragment> {
    Of(PullsOf(was.data, order, |order|, memory), e)
  }

  /** A turn in numbers: with a number of names that N does not divide, nothing is pulled and
      every marker goes; else, with p fragments of a real event held and q pulled, (p + q) / N
      groups of it are handed over; event 0 never is. */
  lemma TurnCounts(N: nat, order: seq<Name>, memory: nat -> Memory, was: Snapshot, now: Snapshot, e: nat)
    requires N >= 1 && WellFormed(N, was.b.held) && Turn(N, order, memory, was, now)
    ensures |was.markers| % N != 0 ==> now.b == was.b && now.markers == {}
    ensures |was.markers| % N == 0 ==>
        |HandedFor(now.b.handed, e)| - |HandedFor(was.b.handed, e)|
        == if e == 0 then 0 else (|Held(was.b.held, e)| + |PulledOf(was, order, memory, e)|) / N
  {
    hide AddAll, LastCompletion, PullsOf, Stale, Alphabetical, HandedFor, Of;
    AlphabeticalIsDistinct(order);
    DistinctSize(order);
    var fs := PullsOf(was.data, order, |order|, memory);
    CountingLaw(N, was.b, fs, fs, e);
  }

  /** The log has gone on with hand-overs only. */
  ghost predicate Continues(before: seq<Call>, after: seq<Call>) {
    before <= after && forall k :: |before| <= k < |after| ==> after[k].Handled?
  }

  lemma ContinuesOn(a: seq<Call>, b: seq<Call>, c: seq<Call>)
    requires Continues(a, b) && Continues(b, c)
    ensures Continues(a, c)
  {
  }

  lemma ContinuesBy(a: seq<Call>, c: Call)
    requires c.Handled?
    ensures Continues(a, a + [c]) && Continues(a, a)
  {
  }

  /** The id of the newest event, when some have been handed over since h0. */
  function Newest(before: nat, h0: seq<Event>, h: seq<Event>): nat {
    if |h| > |h0| then h[|h| - 1].evt else before
  }

  lemma OneAdded(N: nat, b: Builder, f: Fragment)
    ensures b.handed <= Add(N, b, f).handed
    ensures var h := Add(N, b, f).handed;
            if Completes(N, b, f) then |h| == |b.handed| + 1 && h[|b.handed|].evt == f.evt else h == b.handed
  {
  }

  /** The scanner thread: none, at the head of its loop, or in a turn. */
  datatype Thread = Gone | Head | InTurn

  /** The entries that a pass drops when it has completed an event. */
  ghost function Aged(N: nat, b: Builder, fs: seq<Fragment>): set<nat> {
    Stale(N, AddAll(N, b, fs).held, LastCompletion(N, b, fs), 10.0)
  }

  /** Fragment number i of the batch brings its entry to N fragments, the last one to do so. */
  ghost predicate LastToFill(N: nat, b: Builder, fs: seq<Fragment>, i: nat)
    requires i < |fs|
  {
    && |Entry(AddAll(N, b, fs[..i]).held, fs[i])| == N
    && forall j :: i < j < |fs| ==> |Entry(AddAll(N, b, fs[..j]).held, fs[j])| != N
  }

  /** A batch fills an entry a last time or never. */
  lemma LastFill(N: nat, b: Builder, fs: seq<Fragment>, n: nat)
    requires n <= |fs| && forall j :: n <= j < |fs| ==> |Entry(AddAll(N, b, fs[..j]).held, fs[j])| != N
    ensures (forall j :: 0 <= j < |fs| ==> |Entry(AddAll(N, b, fs[..j]).held, fs[j])| != N)
         || exists i :: 0 <= i < |fs| && LastToFill(N, b, fs, i)
    decreases n
  {
    hide AddAll, Entry;
    if n > 0 && |Entry(AddAll(N, b, fs[..n - 1]).held, fs[n - 1])| == N {
      assert LastToFill(N, b, fs, n - 1);
    } else if n > 0 {
      LastFill(N, b, fs, n - 1);
    }
  }

  lemma {:induction false} CompletionAt(N: nat, b: Builder, fs: seq<Fragment>, i: nat)
    requires i < |fs| && LastToFill(N, b, fs, i)
    ensures LastCompletion(N, b, fs) == Entry(AddAll(N, b, fs[..i]).held, fs[i])[0].bx as real * 0.0000002
  {
    hide AddAll, Entry;
    var init := fs[..|fs| - 1];
    if i < |fs| - 1 {
      assert init[..i] == fs[..i];
      forall j | i < j < |init| ensures |Entry(AddAll(N, b, init[..j]).held, init[j])| != N {
        assert init[..j] == fs[..j];
      }
      CompletionAt(N, b, init, i);
    }
  }

  lemma {:induction false} NoCompletion(N: nat, b: Builder, fs: seq<Fragment>)
    requires forall j :: 0 <= j < |fs| ==> |Entry(AddAll(N, b, fs[..j]).held, fs[j])| != N
    ensures LastCompletion(N, b, fs) == 0.0
  {
    hide AddAll, Entry;
    if fs != [] {
      var init := fs[..|fs| - 1];
      forall j | 0 <= j < |init| ensures |Entry(AddAll(N, b, init[..j]).held, init[j])| != N {
        assert init[..j] == fs[..j];
      }
      NoCompletion(N, b, init);
    }
  }

  /** The ageing of a pass in bunch crossings, of which 50,000,000 make ten seconds. L is that
      of the first fragment of the last entry that the batch filled: the incomplete entries
      that began earlier than that go, and no others; none goes when L is 0. */
  lemma PassInCrossings(N: nat, b: Builder, fs: seq<Fragment>, i: nat)
    requires N >= 1 && WellFormed(N, b.held) && i < |fs| && LastToFill(N, b, fs, i)
    ensures var m: EventMap, left: EventMap := AddAll(N, b, fs).held, Pass(N, b, fs).held;
            var L: nat := Entry(AddAll(N, b, fs[..i]).held, fs[i])[0].bx;
            && (forall e :: e in left ==> e in m && m[e] == left[e])
            && forall e :: e in m ==>
                 m[e] != [] && (e !in left <==> L != 0 && |m[e]| != N && m[e][0].bx + 50_000_000 < L)
  {
    hide AddAll, LastCompletion, Entry;
    AddAllKeepsWellFormed(N, b, fs);
    CompletionAt(N, b, fs, i);
  }

  lemma PassWithoutCompletion(N: nat, b: Builder, fs: seq<Fragment>)
    requires forall j :: 0 <= j < |fs| ==> |Entry(AddAll(N, b, fs[..j]).held, fs[j])| != N
    ensures Pass(N, b, fs) == AddAll(N, b, fs)
  {
    hide AddAll, LastCompletion, Entry;
    NoCompletion(N, b, fs);
  }

  /** After a pass the map is well formed; when the last completion was at time T other than
      0, no incomplete event is left that began before T - 10. Nothing is lost but what ages. */
  lemma PassLaw(N: nat, b: Builder, fs: seq<Fragment>)
    requires N >= 1 && WellFormed(N, b.held)
    ensures var b': Builder, T: real := Pass(N, b, fs), LastCompletion(N, b, fs);
            && WellFormed(N, b'.held)
            && (T != 0.0 ==> forall e :: e in b'.held && |b'.held[e]| != N
                               ==> b'.held[e][0].bx as real * 0.0000002 >= T - 10.0)
            && (T == 0.0 ==>
                  Pool(b'.held) + HandedPool(b'.handed) == Pool(b.held) + HandedPool(b.handed) + multiset(fs))
            && (T != 0.0 ==>
                  Pool(b'.held) + HandedPool(b'.handed) + Pool(Restrict(AddAll(N, b, fs).held, Aged(N, b, fs)))
                  == Pool(b.held) + HandedPool(b.handed) + multiset(fs))
  {
    hide AddAll, LastCompletion, Pool, HandedPool, Restrict;
    AddAllKeepsWellFormed(N, b, fs);
    AddAllConserves(N, b, fs);
    AgeingLaw(N, AddAll(N, b, fs).held, LastCompletion(N, b, fs), 10.0);
  }

  /** A fresh buffer, and the pull of n into it. */
  method PullBuffer(dir: Directory, n: Name, memory: Memory) returns (b: PulledBuffer)
    modifies dir
    ensures fresh(b) && b.frag == PullOf(old(dir.data), n, memory) && b.psize == SizeOf(old(dir.data), n)
    ensures n in old(dir.data) && |old(dir.data)[n]| < 20 ==>
        b.frag.payload == [] && b.psize == 0x1_0000_0000 - 20 + |old(dir.data)[n]|
    // the size is that of the payload just when there is a header, or no file at all
    ensures b.psize == |b.frag.payload| <==> n in old(dir.data) ==> |old(dir.data)[n]| >= HEADER
    ensures dir.data == old(dir.data) - {n}
    ensures dir.markers == old(dir.markers) - ({n} * old(dir.data).Keys)
  {
    var r := dir.Pull(n);
    match r
    case None => b := new PulledBuffer(Parse([] + memory[0..]), 0);
    case Some(s) =>
      var f := if |s| >= HEADER then Parse(s) else Parse(s + memory[|s|..]);
      b := new PulledBuffer(f, (|s| + U32_RANGE - HEADER) % U32_RANGE);
  }

  lemma NoPulls(data: map<Name, seq<Byte>>, order: seq<Name>, memory: nat -> Memory)
    ensures PullsOf(data, order, 0, memory) == []
  {
  }

  lemma NothingPulled(N: nat, b: Builder, data: map<Name, seq<Byte>>, order: seq<Name>, memory: nat -> Memory)
    ensures AddAll(N, b, PullsOf(data, order, 0, memory)) == b
    ensures LastCompletion(N, b, PullsOf(data, order, 0, memory)) == 0.0
  {
  }

  lemma NextPull(data: map<Name, seq<Byte>>, order: seq<Name>, i: nat, memory: nat -> Memory, f: Fragment)
    requires i < |order| && Distinct(order) && f == PullOf(data - Elements(order[..i]), order[i], memory(i))
    ensures PullsOf(data, order, i + 1, memory) == PullsOf(data, order, i, memory) + [f]
  {
  }

  /** ev is a full entry of m, with a key other than 0. */
  ghost predicate IsFull(N: nat, m: EventMap, ev: Event) {
    ev.evt in m && ev.frags == m[ev.evt] && |ev.frags| == N && ev.evt != 0
  }

  /** k: the full entries of m with keys outside todo, in the order of their keys. */
  ghost predicate Passed(N: nat, m: EventMap, todo: set<nat>, k: seq<Event>) {
    && (forall ev :: ev in k <==> IsFull(N, m, ev) && ev.evt !in todo)
    && (forall i, j :: 0 <= i < j < |k| ==> k[i].evt < k[j].evt)
    && (forall x, ev :: x in todo && ev in k ==> ev.evt < x)
  }

  lemma PassedNothing(N: nat, m: EventMap)
    ensures Passed(N, m, m.Keys, [])
  {
  }

  lemma PassedAll(N: nat, m: EventMap, k: seq<Event>)
    requires Passed(N, m, {}, k)
    ensures forall ev :: ev in k <==> ev in FullEvents(N, m)
    ensures forall i, j :: 0 <= i < j < |k| ==> k[i].evt < k[j].evt
  {
  }

  /** An entry that is not handed over. */
  lemma PassedBy(N: nat, m: EventMap, todo: set<nat>, k: seq<Event>, e: nat)
    requires Passed(N, m, todo, k) && e in todo && e in m && (|m[e]| != N || e == 0)
    ensures Passed(N, m, todo - {e}, k)
  {
  }

  /** An entry that is, the first of those to come. */
  lemma PassedOne(N: nat, m: EventMap, todo: set<nat>, k: seq<Event>, e: nat)
    requires Passed(N, m, todo, k) && e in todo && e in m && |m[e]| == N && e != 0
    requires forall x :: x in todo ==> e <= x
    ensures Passed(N, m, todo - {e}, k + [Event(e, m[e])])
  {
    assert IsFull(N, m, Event(e, m[e]));
    forall ev: Event | ev.evt == e ensures IsFull(N, m, ev) <==> ev == Event(e, m[e]) {
    }
    hide IsFull;
  }

  function Join(m: BufferMap, b: PulledBuffer): BufferMap {
    m[b.frag.evt := (if b.frag.evt in m then m[b.frag.evt] else []) + [b]]
  }

  lemma Joined(m: BufferMap, live: set<PulledBuffer>, b: PulledBuffer)
    requires Owned(m, live) && b !in live
    ensures Owned(Join(m, b), live + {b})
    ensures HeldFrags(Join(m, b)) == HeldFrags(m)[b.frag.evt := Entry(HeldFrags(m), b.frag)]
    ensures Frags(Join(m, b)[b.frag.evt]) == Entry(HeldFrags(m), b.frag)
    ensures b.frag.evt !in m ==> Join(m, b)[b.frag.evt] == [b]
  {
    var v := Join(m, b)[b.frag.evt];
    assert Frags(v) == Entry(HeldFrags(m), b.frag);
    assert forall x :: x in v <==> x == b || (b.frag.evt in m && x in m[b.frag.evt]);
  }

  lemma ErasedAfterJoin(m: BufferMap, b: PulledBuffer)
    ensures HeldFrags(Join(m, b)) - {b.frag.evt} == HeldFrags(m) - {b.frag.evt}
  {
  }

  lemma KeysLess(m: BufferMap, gone: set<nat>)
    ensures m - (gone - gone) == m
    ensures HeldFrags(m - gone) == HeldFrags(m) - gone
  {
  }

  lemma OneKeyLess(m: BufferMap, gone: set<nat>, vr: set<nat>, e: nat)
    requires e in gone && e !in vr
    ensures m - (gone - (vr + {e})) - {e} == m - (gone - vr)
  {
  }

  lemma NothingLive(m: BufferMap, live: set<PulledBuffer>)
    requires Owned(m, live) && m == map[]
    ensures live == {}
  {
  }

  lemma StillOwned(m: BufferMap, live: set<PulledBuffer>, e: nat, live': set<PulledBuffer>)
    requires Owned(m, live) && e in m && live' == live - Elements(m[e])
    ensures Owned(m - {e}, live')
  {
  }

  class ShmDriver {
    var datasources: seq<nat>
    var processors: seq<nat>
    var eventMap: BufferMap
    var run: int
    var evt: nat
    var running: bool
    var thread: Thread

    /** The calls each processor has got. */
    var log: seq<Call>

    ghost var made: set<PulledBuffer>
    ghost var freed: set<PulledBuffer>

    ghost predicate Valid()
      reads this
    {
      && freed <= made && Owned(eventMap, made - freed)
      && Runs(log) && FromReads(HandedIn(log))
      && (thread != Gone ==> InRun(log))
      && (running ==> thread != Gone)
    }

    /** Not started: no thread, no open run. */
    ghost predicate AtRest()
      reads this
    {
      !running && thread == Gone && !InRun(log)
    }

    ghost function Value(): Builder
      reads this
    {
      Builder(HeldFrags(eventMap), HandedIn(log))
    }

    ghost function SnapshotWith(dir: Directory): Snapshot
      reads this, dir
    {
      Snapshot(Value(), dir.data, dir.markers)
    }

    constructor ()
      ensures Valid() && AtRest() && datasources == [] && processors == []
      ensures Value() == Builder(map[], []) && log == [] && made == {} && run == 0 && evt == 0
    {
      datasources, processors, eventMap := [], [], map[];
      run, evt, running, thread := 0, 0, false, Gone;
      log, made, freed := [], {}, {};
    }

    method RegisterProcessor(p: nat)
      requires Valid()
      modifies this`processors
      ensures Valid() && processors == old(processors) + [p]
    {
      processors := processors + [p];
    }

    method RegisterDataSource(det: nat, ds: nat)
      requires Valid()
      modifies this`datasources
      ensures Valid() && datasources == old(datasources) + [DsKey(det, ds)]
    {
      datasources := datasources + [DsKey(det, ds)];
    }

    /** delete: only for a live buffer. */
    ghost method Free(b: PulledBuffer)
      requires b in made && b !in freed
      modifies this`freed
      ensures freed == old(freed) + {b}
    {
      freed := freed + {b};
    }

    /** Delete all buffers of an entry and erase it. */
    method EraseEntry(e: nat)
      requires Valid() && e in eventMap
      modifies this`freed, this`eventMap
      ensures Valid() && eventMap == old(eventMap) - {e}
      ensures freed == old(freed) + Elements(old(eventMap)[e])
    {
      var v := eventMap[e];
      var i := 0;
      while i < |v|
        invariant 0 <= i <= |v|
        invariant eventMap == old(eventMap) && freed == old(freed) + Elements(v[..i])
        invariant forall j :: i <= j < |v| ==> v[j] in made - freed
      {
        assert Elements(v[..i + 1]) == Elements(v[..i]) + {v[i]};
        assert forall j :: i < j < |v| ==> v[j] != v[i];
        Free(v[i]);
        i := i + 1;
      }
      assert v[..|v|] == v;
      eventMap := eventMap - {e};
      StillOwned(old(eventMap), made - old(freed), e, made - freed);
    }

    /** The processors are called with an entry of the map. */
    method HandOver(e: nat)
      requires Valid() && InRun(log) && e in eventMap
      modifies this`evt, this`log
      ensures Valid() && InRun(log) && Continues(old(log), log) && evt == e
      ensures HandedIn(log) == HandedIn(old(log)) + [Event(e, Frags(eventMap[e]))]
    {
      hide Owned, Runs, InRun, HandedIn;
      var call := Handled(Event(e, Frags(eventMap[e])));
      evt := e;
      LogGrows(log, call);
      ContinuesBy(log, call);
      log := log + [call];
    }

    method ProcessEvent(idx: nat)
      requires Valid() && InRun(log) && idx in eventMap
      modifies this`freed, this`eventMap, this`evt, this`log
      ensures Valid() && InRun(log) && Continues(old(log), log)
      ensures if |old(eventMap)[idx]| == |datasources| && idx != 0 then
                && Value() == Builder(old(Value()).held - {idx},
                                      old(Value()).handed + [Event(idx, Frags(old(eventMap)[idx]))])
                && evt == idx
                && freed == old(freed) + Elements(old(eventMap)[idx])
              else
                Value() == old(Value()) && evt == old(evt) && freed == old(freed) && eventMap == old(eventMap)
    {
      hide Owned, Runs, InRun, HandedIn, FromReads, Continues;
      ContinuesBy(log, Handled(Event(0, [])));
      if |eventMap[idx]| != |datasources| {
        return;
      }
      if idx == 0 {
        return;
      }
      HandOver(idx);
      KeysLess(eventMap, {idx});
      EraseEntry(idx);
    }

    /** The scan loop's body after a pull: the buffer joins its event, and the event is handed
        over when complete. twrite is the completion time seen so far in the pass. */
    method Insert(b: PulledBuffer, twrite: real) returns (last: real)
      requires Valid() && InRun(log) && b !in made
      modifies this`freed, this`eventMap, this`evt, this`log, this`made
      ensures Valid() && InRun(log) && Continues(old(log), log) && made == old(made) + {b}
      ensures Value() == Add(|datasources|, old(Value()), b.frag)
      ensures evt == if Completes(|datasources|, old(Value()), b.frag) then b.frag.evt else old(evt)
      ensures var v := Entry(old(Value()).held, b.frag);
              last == if |v| == |datasources| then Time(v[0]) else twrite
    {
      hide Owned, Runs, InRun, HandedIn, FromReads, Continues, Time, HeldFrags, Frags;
      ContinuesBy(log, Handled(Event(0, [])));
      var idx: nat := b.frag.evt;
      last := twrite;
      ghost var m, live := eventMap, made - freed;
      if idx in eventMap {
        eventMap := eventMap[idx := eventMap[idx] + [b]];
      } else {
        eventMap := eventMap[idx := [b]];
      }
      made := made + {b};
      Joined(m, live, b);
      assert made - freed == live + {b};
      if |eventMap[idx]| == |datasources| {
        last := Time(eventMap[idx][0].frag);
        ProcessEvent(idx);
      }
      ErasedAfterJoin(m, b);
    }

    method CleanBufferMap(lastTime: real, delay: real)
      requires Valid()
      modifies this`freed, this`eventMap
      ensures Valid()
      ensures var v := old(Value());
              Value() == v.(held := v.held - Stale(|datasources|, v.held, lastTime, delay))
    {
      hide Owned, Stale;
      var vr := StaleEntries(lastTime, delay);
      ghost var gone, m := vr, eventMap;
      KeysLess(m, gone);
      while vr != {}
        invariant Valid() && vr <= gone <= m.Keys
        invariant eventMap == m - (gone - vr)
        decreases vr
      {
        var e :| e in vr;
        vr := vr - {e};
        EraseEntry(e);
        OneKeyLess(m, gone, vr, e);
      }
      assert gone - {} == gone;
    }

    /** The keys of the entries to drop. */
    method StaleEntries(lastTime: real, delay: real) returns (vr: set<nat>)
      requires Valid()
      ensures vr == Stale(|datasources|, HeldFrags(eventMap), lastTime, delay) && vr <= eventMap.Keys
    {
      vr := {};
      var todo := eventMap.Keys;
      while todo != {}
        invariant todo <= eventMap.Keys
        invariant vr == Stale(|datasources|, HeldFrags(eventMap), lastTime, delay) - todo
        decreases todo
      {
        var e :| e in todo;
        if |eventMap[e]| != |datasources| && lastTime - Time(eventMap[e][0].frag) > delay {
          vr := vr + {e};
        }
        todo := todo - {e};
      }
    }

    /** One pass of the deferred loop: full entries are handed over in the order of their event
        ids, then every full entry is erased. */
    method ProcessEventsPass() returns (ghost k: seq<Event>)
      requires Valid() && InRun(log)
      modifies this`freed, this`eventMap, this`evt, this`log
      ensures Valid()
      ensures HandedIn(log) == HandedIn(old(log)) + k && Value().held == Leftover(|datasources|, old(Value()).held)
      ensures forall ev :: ev in k <==> ev in FullEvents(|datasources|, old(Value()).held)
      ensures forall i, j :: 0 <= i < j < |k| ==> k[i].evt < k[j].evt
    {
      hide Owned, FullEvents, Leftover, Runs, InRun, HandedIn, FromReads, Passed, Continues;
      k := [];
      ghost var m := HeldFrags(eventMap);
      assert m.Keys == eventMap.Keys;
      PassedNothing(|datasources|, m);
      var todo := eventMap.Keys;
      while todo != {}
        invariant todo <= eventMap.Keys && eventMap == old(eventMap) && freed == old(freed)
        invariant Valid() && InRun(log) && HandedIn(log) == HandedIn(old(log)) + k
        invariant Passed(|datasources|, m, todo, k)
        decreases todo
      {
        var e := Least(todo);
        if |eventMap[e]| == |datasources| && e != 0 {
          PassedOne(|datasources|, m, todo, k, e);
          HandOver(e);
          k := k + [Event(e, Frags(eventMap[e]))];
        } else {
          PassedBy(|datasources|, m, todo, k, e);
        }
        todo := todo - {e};
      }
      PassedAll(|datasources|, m, k);
      EraseFull();
    }

    method EraseFull()
      requires Valid()
      modifies this`freed, this`eventMap
      ensures Valid() && HeldFrags(eventMap) == Leftover(|datasources|, old(HeldFrags(eventMap)))
    {
      ghost var m := eventMap;
      var todo := eventMap.Keys;
      while todo != {}
        invariant Valid() && todo <= eventMap.Keys
        invariant eventMap == map e | e in m && (e in todo || |m[e]| != |datasources|) :: m[e]
        decreases todo
      {
        var e :| e in todo;
        todo := todo - {e};
        if |eventMap[e]| == |datasources| {
          EraseEntry(e);
        }
      }
    }

    /** One turn of the scan loop over the directory. order: the listing; memory: the tags that
        the i-th fresh buffer shows. */
    method ScanPass(dir: Directory, memory: nat -> Memory) returns (ghost order: seq<Name>)
      requires Valid() && InRun(log)
      requires dir.markers != {} ==> datasources != []
      modifies this`freed, this`eventMap, this`evt, this`log, this`made, dir
      ensures Valid() && InRun(log) && Continues(old(log), log)
      ensures dir.markers <= old(dir.markers)
      ensures Turn(|datasources|, order, memory, old(SnapshotWith(dir)), SnapshotWith(dir))
      // the event shown is the newest one handed over
      ensures HandedIn(old(log)) <= HandedIn(log) && evt == Newest(old(evt), HandedIn(old(log)), HandedIn(log))
    {
      hide Owned, HeldFrags, Add, AddAll, LastCompletion, PullsOf, Stale, Runs, InRun, HandedIn, FromReads,
           Alphabetical, LessAtFirstDifference, Print, Distinct, Continues;
      ContinuesBy(log, Handled(Event(0, [])));
      var vnames := dir.Ls();
      order := vnames;
      DistinctSize(vnames);
      if |vnames| == 0 {
        NothingPulled(|datasources|, Value(), dir.data, vnames, memory);
        return;
      }
      if |vnames| % |datasources| != 0 {
        dir.Purge();
        return;
      }
      var twrite := PullAll(dir, vnames, memory);
      if twrite != 0.0 {
        CleanBufferMap(twrite, 10.0);
      }
    }

    /** The loop over the listed names. */
    method PullAll(dir: Directory, vnames: seq<Name>, memory: nat -> Memory)
      returns (twrite: real)
      requires Valid() && InRun(log)
      requires Distinct(vnames) && Elements(vnames) == dir.markers
      modifies this`freed, this`eventMap, this`evt, this`log, this`made, dir
      ensures Valid() && InRun(log) && Continues(old(log), log)
      ensures dir.data == old(dir.data) - old(dir.markers) && dir.markers == old(dir.markers) - old(dir.data).Keys
      ensures var fs := PullsOf(old(dir.data), vnames, |vnames|, memory);
              && Value() == AddAll(|datasources|, old(Value()), fs)
              && twrite == LastCompletion(|datasources|, old(Value()), fs)
      ensures HandedIn(old(log)) <= HandedIn(log) && evt == Newest(old(evt), HandedIn(old(log)), HandedIn(log))
    {
      hide Owned, HeldFrags, Add, AddAll, LastCompletion, PullOf, PullsOf, Entry, Time, Elements, Runs, InRun, HandedIn,
           FromReads, Continues;
      twrite := 0.0;
      NothingPulled(|datasources|, Value(), dir.data, vnames, memory);
      ContinuesBy(log, Handled(Event(0, [])));
      PrefixElements(vnames);
      var i := 0;
      while i < |vnames|
        invariant 0 <= i <= |vnames| && Valid() && InRun(log) && Continues(old(log), log)
        invariant dir.markers == old(dir.markers) - (Elements(vnames[..i]) * old(dir.data).Keys)
        invariant dir.data == old(dir.data) - Elements(vnames[..i])
        invariant Value() == AddAll(|datasources|, old(Value()), PullsOf(old(dir.data), vnames, i, memory))
        invariant twrite == LastCompletion(|datasources|, old(Value()), PullsOf(old(dir.data), vnames, i, memory))
        invariant HandedIn(old(log)) <= HandedIn(log) && evt == Newest(old(evt), HandedIn(old(log)), HandedIn(log))
      {
        NextElement(vnames, i);
        var b := PullBuffer(dir, vnames[i], memory(i));
        NextPull(old(dir.data), vnames, i, memory, b.frag);
        OneArrives(|datasources|, old(Value()), PullsOf(old(dir.data), vnames, i, memory), b.frag);
        ghost var before, v := log, Value();
        twrite := Insert(b, twrite);
        ContinuesOn(old(log), before, log);
        OneAdded(|datasources|, v, b.frag);
        i := i + 1;
      }
    }

    /** `_run` and `_evt` are set, the processors are started, and the scanner thread is made. */
    method Start(nr: int)
      requires Valid() && AtRest()
      modifies this`run, this`evt, this`running, this`thread, this`log
      ensures Valid() && running && run == nr && evt == 0 && thread == Head
      ensures log == old(log) + [Started(nr)] && Value() == old(Value())
    {
      hide Owned, Runs, InRun, HandedIn, FromReads;
      run, evt := nr, 0;
      LogGrows(log, Started(nr));
      log := log + [Started(nr)];
      running, thread := true, Head;
    }

    /** A step of the scanner thread: the test at the head of its loop, or a turn. */
    method ScannerStep(dir: Directory, memory: nat -> Memory) returns (ghost order: seq<Name>)
      requires Valid() && thread != Gone
      requires dir.markers != {} ==> datasources != []
      modifies this`freed, this`eventMap, this`evt, this`log, this`made, this`thread, dir
      ensures Valid() && InRun(log) && Continues(old(log), log)
      ensures dir.markers <= old(dir.markers)
      ensures old(thread) == Head ==>
          thread == (if running then InTurn else Gone) && log == old(log) && SnapshotWith(dir) == old(SnapshotWith(dir))
      ensures old(thread) == InTurn ==>
          thread == Head && Turn(|datasources|, order, memory, old(SnapshotWith(dir)), SnapshotWith(dir))
      ensures HandedIn(old(log)) <= HandedIn(log) && evt == Newest(old(evt), HandedIn(old(log)), HandedIn(log))
    {
      hide Owned, Runs, InRun, HandedIn, FromReads, Turn;
      order := [];
      match thread
      case Head =>
        thread := if running then InTurn else Gone;
      case InTurn =>
        order := ScanPass(dir, memory);
        thread := Head;
    }

    /** `_running` becomes false, the thread is joined, and the processors are stopped. */
    method Stop(dir: Directory, memory: nat -> Memory) returns (ghost order: seq<Name>)
      requires Valid() && running
      requires dir.markers != {} ==> datasources != []
      modifies this`freed, this`eventMap, this`evt, this`log, this`made, this`thread, this`running, dir
      ensures Valid() && AtRest() && dir.markers <= old(dir.markers)
      // the thread ends its turn, with its hand-overs, before the processors are stopped
      ensures exists before :: Continues(old(log), before) && log == before + [Stopped]
      ensures HandedIn(old(log)) <= HandedIn(log) && evt == Newest(old(evt), HandedIn(old(log)), HandedIn(log))
      ensures if old(thread) == InTurn
              then Turn(|datasources|, order, memory, old(SnapshotWith(dir)), SnapshotWith(dir))
              else SnapshotWith(dir) == old(SnapshotWith(dir)) && log == old(log) + [Stopped]
    {
      hide Owned, Runs, InRun, HandedIn, FromReads, Turn, Continues;
      order := [];
      running := false;
      ContinuesBy(log, Handled(Event(0, [])));
      while thread != Gone
        invariant Valid() && InRun(log) && !running && Continues(old(log), log)
        invariant dir.markers <= old(dir.markers)
        invariant thread == InTurn ==> old(thread) == InTurn
        invariant HandedIn(old(log)) <= HandedIn(log)
        invariant evt == Newest(old(evt), HandedIn(old(log)), HandedIn(log))
        invariant if old(thread) == InTurn && thread != InTurn
                  then Turn(|datasources|, order, memory, old(SnapshotWith(dir)), SnapshotWith(dir))
                  else SnapshotWith(dir) == old(SnapshotWith(dir)) && log == old(log)
        decreases if thread == InTurn then 2 else if thread == Head then 1 else 0
      {
        ghost var before, turn := log, thread == InTurn;
        ghost var o := ScannerStep(dir, memory);
        ContinuesOn(old(log), before, log);
        if turn {
          order := o;
        }
      }
      LogGrows(log, Stopped);
      log := log + [Stopped];
    }

    /** Destroys everything, as the destructor and `clear` do. */
    method Clear()
      requires Valid()
      modifies this`freed, this`eventMap, this`processors, this`datasources
      ensures Valid() && eventMap == map[] && freed == made && processors == [] && datasources == []
    {
      while eventMap.Keys != {}
        invariant Valid()
        decreases eventMap.Keys
      {
        var e :| e in eventMap;
        EraseEntry(e);
      }
      NothingLive(eventMap, made - freed);
      assert made == freed + (made - freed);
      processors, datasources := [], [];
    }
  }
}
