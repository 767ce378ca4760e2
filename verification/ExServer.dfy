/** The example data server: data sources created and deleted by FSM commands, and one reader
    thread for each source while running. Commands are atomic; between them, and while STOP
    waits for the threads, the threads take their steps in any order. */
module ExServer {
  import opened Fsm
  import opened Options
  import opened Sequences

  datatype Action = Configure | Start | Stop | Halt

  /** The transitions registered. */
  function Rows(): seq<Row<Action>> {
    [
      Row("CONFIGURE", Transition("CREATED", "CONFIGURED", Configure)),
      Row("CONFIGURE", Transition("CONFIGURED", "CONFIGURED", Configure)),
      Row("START", Transition("CONFIGURED", "RUNNING", Start)),
      Row("STOP", Transition("RUNNING", "CONFIGURED", Stop)),
      Row("HALT", Transition("RUNNING", "CREATED", Halt)),
      Row("HALT", Transition("CONFIGURED", "CREATED", Halt))
    ]
  }

  lemma TableRow(cmd: string, t: Transition<Action>)
    requires Row(cmd, t) in Rows()
    ensures match t.callback
            case Configure => (t.initial == "CREATED" || t.initial == "CONFIGURED") && t.final == "CONFIGURED"
            case Start => t.initial == "CONFIGURED" && t.final == "RUNNING"
            case Stop => t.initial == "RUNNING" && t.final == "CONFIGURED"
            case Halt => (t.initial == "RUNNING" || t.initial == "CONFIGURED") && t.final == "CREATED"
  {
  }

  lemma RowsDiffer(i: nat, j: nat)
    requires i < j < |Rows()|
    ensures Rows()[i].cmd != Rows()[j].cmd || Rows()[i].tr.initial != Rows()[j].tr.initial
  {
  }

  lemma EachRowCounts(i: nat)
    requires i < |Rows()|
    ensures var row := Rows()[i]; FirstRow(Rows(), row.cmd, row.tr.initial) == Some(row.tr)
  {
    hide FirstRow, Rows;
    forall a, b | 0 <= a < b < |Rows()|
      ensures Rows()[a].cmd != Rows()[b].cmd || Rows()[a].tr.initial != Rows()[b].tr.initial
    {
      RowsDiffer(a, b);
    }
    RowCounts(Rows(), i);
  }

  /** What the commands do. */
  lemma SessionRows()
    ensures FirstRow(Rows(), "CONFIGURE", "CREATED") == Some(Transition("CREATED", "CONFIGURED", Configure))
    ensures FirstRow(Rows(), "CONFIGURE", "CONFIGURED") == Some(Transition("CONFIGURED", "CONFIGURED", Configure))
    ensures FirstRow(Rows(), "START", "CONFIGURED") == Some(Transition("CONFIGURED", "RUNNING", Start))
    ensures FirstRow(Rows(), "STOP", "RUNNING") == Some(Transition("RUNNING", "CONFIGURED", Stop))
    ensures FirstRow(Rows(), "HALT", "RUNNING") == Some(Transition("RUNNING", "CREATED", Halt))
    ensures FirstRow(Rows(), "HALT", "CONFIGURED") == Some(Transition("CONFIGURED", "CREATED", Halt))
  {
    hide FirstRow;
    forall i | 0 <= i < |Rows()|
      ensures var row := Rows()[i]; FirstRow(Rows(), row.cmd, row.tr.initial) == Some(row.tr)
    {
      EachRowCounts(i);
    }
    assert Rows()[0].cmd == "CONFIGURE" && Rows()[1].cmd == "CONFIGURE" && Rows()[2].cmd == "START";
    assert Rows()[3].cmd == "STOP" && Rows()[4].cmd == "HALT" && Rows()[5].cmd == "HALT";
  }

  /** A data source on the heap. */
  class DataSource {
    const det: nat
    const src: nat

    constructor (d: nat, s: nat)
      ensures det == d && src == s
    {
      det, src := d, s;
    }
  }

  /** Where a reader thread is: at the head of its loop, past the sleep, about to publish, about
      to note the event number, or gone. It reads the event number afresh in each step. */
  datatype Pc = Top | Woken | Publishing | Noting | Gone

  datatype Reader = Reader(ds: DataSource, last: nat, pc: Pc)

  /** The sources are those asked for. */
  ghost predicate AreFor(sources: seq<DataSource>, det: nat, sids: seq<nat>) {
    |sources| == |sids| && forall i :: 0 <= i < |sids| ==> sources[i].det == det && sources[i].src == sids[i]
  }

  /** One new reader for each source. */
  ghost predicate AtTop(readers: seq<Reader>, sources: seq<DataSource>) {
    |readers| == |sources| && forall i :: 0 <= i < |sources| ==> readers[i] == Reader(sources[i], 0, Top)
  }

  /** Steps a reader may still take once `_running` is false. */
  function StepsLeft(r: Reader): nat {
    match r.pc case Top => 1 case Woken => 1 case Publishing => 3 case Noting => 2 case Gone => 0
  }

  /** One publication: a source's data for an event. */
  datatype Message = Message(ds: DataSource, evt: nat)

  /** What a step makes of a reader, and what it publishes. */
  function Next(r: Reader, running: bool, event: nat): Reader {
    match r.pc
    case Top => r.(pc := if running then Woken else Gone)
    case Woken => r.(pc := if !running then Gone else if event == r.last then Top else Publishing)
    case Publishing => r.(pc := Noting)
    case Noting => r.(last := event, pc := Top)
    case Gone => r
  }

  function Said(r: Reader, event: nat): seq<Message> {
    if r.pc == Publishing then [Message(r.ds, event)] else []
  }

  /** In one run each source publishes rising event numbers, none of them 0: no source ever
      sends an event twice. */
  ghost predicate Increasing(published: seq<Message>, event: nat) {
    && (forall i :: 0 <= i < |published| ==> 0 < published[i].evt <= event)
    && (forall i, j :: 0 <= i < j < |published| && published[i].ds == published[j].ds
          ==> published[i].evt < published[j].evt)
  }

  /** The number noted is not ahead of the event number, and behind it in a publication. */
  ghost predicate Behind(r: Reader, event: nat) {
    r.last <= event && (r.pc == Publishing || r.pc == Noting ==> r.last < event)
  }

  /** Each reader has its own source, and has noted a number not below the last one published
      for it, unless it is just about to. */
  ghost predicate Reading(readers: seq<Reader>, published: seq<Message>, event: nat) {
    && (forall i, j :: 0 <= i < j < |readers| ==> readers[i].ds != readers[j].ds)
    && (forall i :: 0 <= i < |readers| ==> Behind(readers[i], event))
    && (forall i, k :: 0 <= i < |readers| && 0 <= k < |published| && published[k].ds == readers[i].ds
          ==> published[k].evt <= (if readers[i].pc == Noting then event else readers[i].last))
  }

  /** The log has only grown, by messages from live sources. */
  ghost predicate Extends(before: seq<Message>, after: seq<Message>, live: set<DataSource>) {
    before <= after && forall k :: |before| <= k < |after| ==> after[k].ds in live
  }

  lemma StepReads(readers: seq<Reader>, published: seq<Message>, i: nat, running: bool, event: nat)
    requires i < |readers| && Increasing(published, event) && Reading(readers, published, event)
    ensures var said := published + Said(readers[i], event);
            Increasing(said, event) && Reading(readers[i := Next(readers[i], running, event)], said, event)
  {
  }

  lemma StepEnds(r: Reader, event: nat)
    requires r.pc != Gone
    ensures StepsLeft(Next(r, false, event)) < StepsLeft(r)
  {
  }

  lemma StillExtends(before: seq<Message>, after: seq<Message>, r: Reader, event: nat, live: set<DataSource>)
    requires Extends(before, after, live) && r.ds in live
    ensures Extends(before, after + Said(r, event), live)
  {
  }

  lemma NothingMore(log: seq<Message>, live: set<DataSource>)
    ensures Extends(log, log, live)
  {
  }

  /** The message that one of the readers is about to publish. */
  ghost predicate Decided(m: Message, readers: seq<Reader>, event: nat) {
    exists j :: 0 <= j < |readers| && readers[j].pc == Publishing && m == Message(readers[j].ds, event)
  }

  /** What is published once `_running` is false: the message of each reader that had already
      decided to, and no other. */
  ghost predicate LastWords(before: seq<Message>, after: seq<Message>, readers: seq<Reader>, event: nat) {
    && before <= after
    && (forall k :: |before| <= k < |after| ==> Decided(after[k], readers, event))
    && (forall r :: r in readers && r.pc == Publishing ==> Message(r.ds, event) in after[|before|..])
  }

  /** ... while the readers have come from `was` to `now`. */
  ghost predicate WordsSoFar(before: seq<Message>, after: seq<Message>, was: seq<Reader>, now: seq<Reader>,
                             event: nat)
  {
    && before <= after && |now| == |was|
    && (forall j :: 0 <= j < |was| ==>
          now[j].ds == was[j].ds && (now[j].pc == Publishing ==> was[j].pc == Publishing))
    && (forall k :: |before| <= k < |after| ==> Decided(after[k], was, event))
    && (forall j :: 0 <= j < |was| && was[j].pc == Publishing && now[j].pc != Publishing ==>
          Message(was[j].ds, event) in after[|before|..])
  }

  lemma NoWords(log: seq<Message>, readers: seq<Reader>, event: nat)
    ensures WordsSoFar(log, log, readers, readers, event)
  {
  }

  lemma WordsGrow(before: seq<Message>, after: seq<Message>, was: seq<Reader>, now: seq<Reader>, event: nat, j: nat)
    requires WordsSoFar(before, after, was, now, event) && j < |now|
    ensures WordsSoFar(before, after + Said(now[j], event), was, now[j := Next(now[j], false, event)], event)
  {
    var said := after + Said(now[j], event);
    assert said[|before|..] == after[|before|..] + Said(now[j], event);
    forall k | |before| <= k < |said| ensures Decided(said[k], was, event) {
      if k < |after| {
        assert said[k] == after[k];
      } else {
        assert said[k] == Message(was[j].ds, event);
      }
    }
  }

  lemma AllHaveSpoken(before: seq<Message>, after: seq<Message>, was: seq<Reader>, now: seq<Reader>, event: nat)
    requires WordsSoFar(before, after, was, now, event)
    requires forall j :: 0 <= j < |now| ==> now[j].pc == Gone
    ensures LastWords(before, after, was, event)
  {
    forall r | r in was && r.pc == Publishing ensures Message(r.ds, event) in after[|before|..] {
      var j :| 0 <= j < |was| && was[j] == r;
      assert now[j].pc != Publishing;
    }
  }

  /** The steps left to all readers once `_running` is false. */
  function AllLeft(readers: seq<Reader>): nat {
    if readers == [] then 0 else AllLeft(readers[..|readers| - 1]) + StepsLeft(readers[|readers| - 1])
  }

  lemma {:induction false} OneStepLess(readers: seq<Reader>, j: nat, r: Reader)
    requires j < |readers| && StepsLeft(r) < StepsLeft(readers[j])
    ensures AllLeft(readers[j := r]) < AllLeft(readers)
  {
    var n := |readers| - 1;
    if j < n {
      OneStepLess(readers[..n], j, r);
      assert readers[j := r][..n] == readers[..n][j := r];
    } else {
      assert readers[j := r][..n] == readers[..n];
    }
  }

  lemma NobodyReads(published: seq<Message>, event: nat)
    ensures Reading([], published, event)
  {
  }

  lemma NothingPublished()
    ensures Increasing([], 0)
  {
  }

  /** The coupling of state, threads and sources: threads exist only while running, each of
      them on a source that is live; the sources are exactly what has been created and not
      deleted. */
  ghost predicate Lifecycle(state: string, running: bool, sources: seq<DataSource>, readers: seq<Reader>,
                            live: set<DataSource>)
  {
    && (running <==> state == "RUNNING")
    && Distinct(sources)
    && live == Elements(sources)
    && (!running ==> readers == [])
    && (forall r :: r in readers ==> r.ds in live)
    && (state == "CREATED" ==> sources == [])
  }

  lemma Idle(state: string, running: bool, sources: seq<DataSource>, readers: seq<Reader>, live: set<DataSource>)
    requires Lifecycle(state, running, sources, readers, live) && state == "CREATED"
    ensures !running
  {
  }

  class ExServer {
    const fsm: Machine<Action>
    var sources: seq<DataSource>
    var running: bool
    var event: nat
    var readers: seq<Reader>

    /** Sources created and not deleted yet. */
    ghost var live: set<DataSource>

    /** What was published since the last START. */
    ghost var published: seq<Message>

    ghost predicate Valid()
      reads this, fsm
    {
      && fsm.Valid() && fsm.rows == Rows()
      && Lifecycle(fsm.state, running, sources, readers, live)
      && Increasing(published, event)
      && Reading(readers, published, event)
    }

    constructor ()
      ensures Valid() && fsm.state == "CREATED" && sources == [] && fresh(fsm)
    {
      var f := NewMachine(Rows());
      fsm, sources, running, event, readers := f, [], false, 0, [];
      live, published := {}, [];
    }

    /** Any access to a source: it must not have been deleted. */
    ghost method Use(ds: DataSource)
      requires ds in live
    {
    }

    /** delete, for a source that is live. */
    ghost method Delete(ds: DataSource)
      requires ds in live
      modifies this`live
      ensures live == old(live) - {ds}
    {
      live := live - {ds};
    }

    method DeleteSources()
      requires Distinct(sources) && live == Elements(sources)
      modifies this`live, this`sources
      ensures sources == [] && live == {}
    {
      var i := 0;
      while i < |sources|
        invariant 0 <= i <= |sources| && sources == old(sources)
        invariant live == Elements(sources[i..])
      {
        assert sources[i] in sources[i..];
        assert sources[i..] == [sources[i]] + sources[i + 1..];
        assert sources[i] !in sources[i + 1..];
        assert Elements(sources[i..]) == {sources[i]} + Elements(sources[i + 1..]);
        Delete(sources[i]);
        i := i + 1;
      }
      sources := [];
    }

    // ----- callbacks

    method ConfigureCallback(det: nat, sids: seq<nat>)
      requires Distinct(sources) && live == Elements(sources)
      modifies this`live, this`sources
      ensures Distinct(sources) && live == Elements(sources)
      ensures |sources| == |sids| && forall i :: 0 <= i < |sids| ==> sources[i].det == det && sources[i].src == sids[i]
    {
      DeleteSources();
      var i := 0;
      while i < |sids|
        invariant 0 <= i <= |sids| && |sources| == i && Distinct(sources)
        invariant live == Elements(sources)
        invariant forall j :: 0 <= j < i ==> sources[j].det == det && sources[j].src == sids[j]
      {
        var ds := new DataSource(det, sids[i]);
        assert ds !in sources;
        ElementsPlus(sources, ds);
        sources := sources + [ds];
        live := live + {ds};
        i := i + 1;
      }
    }

    method StartCallback()
      requires readers == [] && Distinct(sources)
      modifies this`running, this`event, this`readers, this`published
      ensures running && event == 0 && AtTop(readers, sources) && published == []
      ensures Reading(readers, published, event)
    {
      event, running := 0, true;
      published := [];
      var i := 0;
      while i < |sources|
        invariant 0 <= i <= |sources| && |readers| == i && running && event == 0 && published == []
        invariant forall j :: 0 <= j < i ==> readers[j] == Reader(sources[j], 0, Top)
      {
        readers := readers + [Reader(sources[i], 0, Top)];
        i := i + 1;
      }
    }

    /** `_running` becomes false, and the threads are waited for one after the other, while all of
        them take their steps in any order. Those about to publish still do; no others do. */
    method StopCallback()
      requires forall r :: r in readers ==> r.ds in live
      requires Increasing(published, event) && Reading(readers, published, event)
      modifies this`running, this`readers, this`published
      ensures !running && readers == []
      ensures Increasing(published, event) && Extends(old(published), published, live)
      ensures LastWords(old(published), published, old(readers), event)
    {
      hide Increasing, Reading, Extends, LastWords, WordsSoFar, AllLeft;
      running := false;
      NothingMore(published, live);
      NoWords(published, readers, event);
      var i, n := 0, |readers|;
      while i < n
        invariant 0 <= i <= n == |readers| && !running
        invariant forall j :: 0 <= j < i ==> readers[j].pc == Gone
        invariant forall r :: r in readers ==> r.ds in live
        invariant Increasing(published, event) && Reading(readers, published, event)
        invariant Extends(old(published), published, live)
        invariant WordsSoFar(old(published), published, old(readers), readers, event)
      {
        while readers[i].pc != Gone
          invariant i < n == |readers| && !running
          invariant forall j :: 0 <= j < i ==> readers[j].pc == Gone
          invariant forall r :: r in readers ==> r.ds in live
          invariant Increasing(published, event) && Reading(readers, published, event)
          invariant Extends(old(published), published, live)
          invariant WordsSoFar(old(published), published, old(readers), readers, event)
          decreases AllLeft(readers)
        {
          var j: nat :| j < n && readers[j].pc != Gone;
          StepEnds(readers[j], event);
          OneStepLess(readers, j, Next(readers[j], false, event));
          StillExtends(old(published), published, readers[j], event, live);
          WordsGrow(old(published), published, old(readers), readers, event, j);
          Step(j);
        }
        i := i + 1;
      }
      AllHaveSpoken(old(published), published, old(readers), readers, event);
      readers := [];
    }

    /** One step of a reader thread. */
    method Step(i: nat)
      requires i < |readers| && (forall r :: r in readers ==> r.ds in live)
      requires Increasing(published, event) && Reading(readers, published, event)
      modifies this`readers, this`published
      ensures readers == old(readers)[i := Next(old(readers)[i], running, event)]
      ensures published == old(published) + Said(old(readers)[i], event)
      ensures forall r :: r in readers ==> r.ds in live
      ensures Increasing(published, event) && Reading(readers, published, event)
    {
      var r := readers[i];
      assert r in readers;
      StepReads(readers, published, i, running, event);
      match r.pc {
        case Top => r := r.(pc := if running then Woken else Gone);
        case Woken => r := r.(pc := if !running then Gone else if event == r.last then Top else Publishing);
        case Publishing =>
          Use(r.ds);
          published := published + [Message(r.ds, event)];
          r := r.(pc := Noting);
        case Noting =>
          r := r.(last := event, pc := Top);
        case Gone =>
      }
      readers := readers[i := r];
    }

    /** A thread step in a run of the server. What is published comes from a live source. */
    method ReaderStep(i: nat)
      requires Valid() && i < |readers|
      modifies this`readers, this`published
      ensures Valid() && Extends(old(published), published, live)
      ensures readers == old(readers)[i := Next(old(readers)[i], running, event)]
      ensures published == old(published) + Said(old(readers)[i], event)
    {
      hide Means, Increasing, Reading;
      Step(i);
    }

    /** A whole turn of a reader's loop while running: a new event number is published, once, and
        noted. */
    method NewsTurn(i: nat)
      requires Valid() && running && i < |readers| && readers[i].pc == Top && event != readers[i].last
      modifies this`readers, this`published
      ensures Valid() && published == old(published) + [Message(old(readers[i].ds), event)]
      ensures readers == old(readers)[i := Reader(old(readers[i].ds), event, Top)]
    {
      hide Means, Increasing, Reading;
      Step(i);
      Step(i);
      Step(i);
      Step(i);
    }

    /** ... and one without news is a turn without a publication. */
    method QuietTurn(i: nat)
      requires Valid() && running && i < |readers| && readers[i].pc == Top && event == readers[i].last
      modifies this`readers, this`published
      ensures Valid() && published == old(published) && readers == old(readers)
    {
      hide Means, Increasing, Reading;
      Step(i);
      Step(i);
    }

    /** The main program counts events up. */
    method IncrementEvent()
      requires Valid()
      modifies this`event
      ensures Valid() && event == old(event) + 1
    {
      hide Means;
      event := event + 1;
    }

    // ----- transitions

    method Command(cmd: string, det: nat, sids: seq<nat>) returns (accepted: bool)
      requires Valid()
      modifies this, fsm`state
      ensures Valid()
      ensures accepted <==> FirstRow(Rows(), cmd, old(fsm.state)).Some?
      ensures fsm.state == if accepted then FirstRow(Rows(), cmd, old(fsm.state)).value.final else old(fsm.state)
      ensures !accepted ==>
          sources == old(sources) && readers == old(readers) && running == old(running) && live == old(live)
      ensures accepted ==> match FirstRow(Rows(), cmd, old(fsm.state)).value.callback
                           case Configure => AreFor(sources, det, sids)
                           case Start => sources == old(sources) && AtTop(readers, sources)
                           case Stop => readers == [] && sources == old(sources)
                           case Halt => readers == [] && sources == [] && live == {}
      // a command that ends a run leaves what was published, and adds what was about to be
      ensures accepted && old(running) ==>
          LastWords(old(published), published, old(readers), old(event))
    {
      hide FirstRow, Means, Increasing, Reading, Rows;
      NothingPublished();
      FirstRowIsRow(Rows(), cmd, fsm.state);
      var r := fsm.Find(cmd);
      if r.None? {
        return false;
      }
      var t := r.value;
      TableRow(cmd, t);
      match t.callback {
        case Configure => ConfigureCallback(det, sids);
        case Start => StartCallback();
        case Stop => StopCallback();
        case Halt =>
          if running {
            StopCallback();
          }
          DeleteSources();
      }
      if readers == [] {
        NobodyReads(published, event);
      }
      fsm.SetState(t.final);
      accepted := true;
    }

    // ----- a whole session

    /** Configured again before the start, stopped and started again, halted while running, and
        once more while configured: each command is accepted, and nothing is left. */
    method Session(det: nat, sids: seq<nat>) returns (accepted: seq<bool>)
      requires Valid() && fsm.state == "CREATED"
      modifies this, fsm`state
      ensures Valid() && fsm.state == "CREATED" && !running && readers == [] && sources == [] && live == {}
      ensures accepted == [true, true, true, true, true, true, true, true]
    {
      hide FirstRow, Means, Rows, Increasing, Reading, AreFor, AtTop, Lifecycle;
      SessionRows();
      var ok1 := Command("CONFIGURE", det, []);
      var ok2 := Command("CONFIGURE", det, sids);
      var ok3 := Command("START", 0, []);
      var ok4 := Command("STOP", 0, []);
      var ok5 := Command("START", 0, []);
      var ok6 := Command("HALT", 0, []);
      var ok7 := Command("CONFIGURE", det, sids);
      var ok8 := Command("HALT", 0, []);
      accepted := [ok1, ok2, ok3, ok4, ok5, ok6, ok7, ok8];
      Idle(fsm.state, running, sources, readers, live);
    }
  }
}
