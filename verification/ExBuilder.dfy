/** The example event builder: the driver object, its run, and the data sockets, under a state
    machine. Commands are atomic; between them the scanner thread takes its steps. */
module ExBuilder {
  import opened Fragment
  import opened EventBuilder
  import opened EventPool
  import opened GroupCover
  import P = ShmProtocol
  import opened RunLog
  import opened ShmDirectory
  import opened ShmDriver
  import opened Fsm
  import opened Options

  datatype Action = Configure | AddSources | Register | Start | Stop | Halt | Destroy

  /** The transitions registered. */
  function Rows(): seq<Row<Action>> {
    [
      Row("CONFIGURE", Transition("CREATED", "CONFIGURED", Configure)),
      Row("ADDSOURCES", Transition("CONFIGURED", "CONFIGURED", AddSources)),
      Row("REGISTER", Transition("CONFIGURED", "REGISTERED", Register)),
      Row("START", Transition("REGISTERED", "RUNNING", Start)),
      Row("STOP", Transition("RUNNING", "REGISTERED", Stop)),
      Row("HALT", Transition("RUNNING", "CONFIGURED", Halt)),
      Row("DESTROY", Transition("CONFIGURED", "CREATED", Destroy))
    ]
  }

  /** The states before and after an action. */
  function From(a: Action): string {
    match a
    case Configure => "CREATED"
    case AddSources => "CONFIGURED"
    case Register => "CONFIGURED"
    case Start => "REGISTERED"
    case Stop => "RUNNING"
    case Halt => "RUNNING"
    case Destroy => "CONFIGURED"
  }

  function To(a: Action): string {
    match a
    case Configure => "CONFIGURED"
    case AddSources => "CONFIGURED"
    case Register => "REGISTERED"
    case Start => "RUNNING"
    case Stop => "REGISTERED"
    case Halt => "CONFIGURED"
    case Destroy => "CREATED"
  }

  lemma TableRow(cmd: string, t: Transition<Action>)
    requires Row(cmd, t) in Rows()
    ensures t.initial == From(t.callback) && t.final == To(t.callback)
    ensures t.callback == Stop || t.callback == Halt ==> t.initial == "RUNNING"
  {
  }

  /** No command has two rows. */
  lemma RowsDiffer(i: nat, j: nat)
    requires i < j < |Rows()|
    ensures Rows()[i].cmd != Rows()[j].cmd
  {
  }

  lemma EachRowCounts(i: nat)
    requires i < |Rows()|
    ensures var row := Rows()[i]; FirstRow(Rows(), row.cmd, row.tr.initial) == Some(row.tr)
  {
    hide FirstRow, Rows;
    forall a, b | 0 <= a < b < |Rows()| ensures Rows()[a].cmd != Rows()[b].cmd {
      RowsDiffer(a, b);
    }
    RowCounts(Rows(), i);
  }

  /** What the commands do. */
  lemma SessionRows()
    ensures FirstRow(Rows(), "CONFIGURE", "CREATED") == Some(Transition("CREATED", "CONFIGURED", Configure))
    ensures FirstRow(Rows(), "ADDSOURCES", "CONFIGURED") == Some(Transition("CONFIGURED", "CONFIGURED", AddSources))
    ensures FirstRow(Rows(), "REGISTER", "CONFIGURED") == Some(Transition("CONFIGURED", "REGISTERED", Register))
    ensures FirstRow(Rows(), "START", "REGISTERED") == Some(Transition("REGISTERED", "RUNNING", Start))
    ensures FirstRow(Rows(), "STOP", "RUNNING") == Some(Transition("RUNNING", "REGISTERED", Stop))
    ensures FirstRow(Rows(), "HALT", "RUNNING") == Some(Transition("RUNNING", "CONFIGURED", Halt))
    ensures FirstRow(Rows(), "DESTROY", "CONFIGURED") == Some(Transition("CONFIGURED", "CREATED", Destroy))
  {
    hide FirstRow;
    forall i | 0 <= i < |Rows()|
      ensures var row := Rows()[i]; FirstRow(Rows(), row.cmd, row.tr.initial) == Some(row.tr)
    {
      EachRowCounts(i);
    }
    assert Rows()[0].cmd == "CONFIGURE" && Rows()[1].cmd == "ADDSOURCES" && Rows()[2].cmd == "REGISTER";
    assert Rows()[3].cmd == "START" && Rows()[4].cmd == "STOP" && Rows()[5].cmd == "HALT";
    assert Rows()[6].cmd == "DESTROY";
  }

  /** A data source, by detector and source id. */
  type Source = (nat, nat)

  function Pairs(det: nat, sids: seq<nat>): seq<Source> {
    seq(|sids|, i requires 0 <= i < |sids| => (det, sids[i]))
  }

  function KeysOf(s: seq<Source>): (keys: seq<nat>)
    ensures |keys| == |s|
  {
    seq(|s|, i requires 0 <= i < |s| => DsKey(s[i].0, s[i].1))
  }

  lemma KeysGrow(s: seq<Source>, d: Source)
    ensures KeysOf(s + [d]) == KeysOf(s) + [DsKey(d.0, d.1)]
  {
  }

  /** An accepted command, with what ADDSOURCES lists. */
  datatype Order = Order(action: Action, det: nat, sids: seq<nat>)

  /** The sources that the commands have registered with the driver of now. */
  function RegisteredBy(history: seq<Order>): seq<Source> {
    if history == [] then []
    else
      var (before, last) := (RegisteredBy(history[..|history| - 1]), history[|history| - 1]);
      match last.action
      case Configure => []
      case AddSources => before + Pairs(last.det, last.sids)
      case _ => before
  }

  lemma OneMoreOrder(history: seq<Order>, order: Order)
    ensures RegisteredBy(history + [order]) ==
        match order.action
        case Configure => []
        case AddSources => RegisteredBy(history) + Pairs(order.det, order.sids)
        case _ => RegisteredBy(history)
  {
  }

  ghost predicate AddedAt(history: seq<Order>, i: nat)
    requires i < |history|
  {
    && history[i].action == AddSources && history[i].sids != []
    && forall j :: i < j < |history| ==> history[j].action != Configure
  }

  /** Some ADDSOURCES since the last CONFIGURE listed a source. */
  ghost predicate SourceAdded(history: seq<Order>) {
    exists i :: 0 <= i < |history| && AddedAt(history, i)
  }

  /** How a further command bears on that. */
  lemma AddedNow(before: seq<Order>, last: Order)
    ensures SourceAdded(before + [last]) <==>
        (last.action == AddSources && last.sids != []) || (last.action != Configure && SourceAdded(before))
  {
    var history := before + [last];
    assert history[|before|] == last;
    if last.action == AddSources && last.sids != [] {
      assert AddedAt(history, |before|);
    }
    if last.action != Configure && SourceAdded(before) {
      var i :| 0 <= i < |before| && AddedAt(before, i);
      assert history[i] == before[i] && AddedAt(history, i);
    }
    if SourceAdded(history) {
      var i :| 0 <= i < |history| && AddedAt(history, i);
      if i < |before| {
        assert before[i] == history[i];
        assert forall j :: i < j < |before| ==> before[j] == history[j];
        assert AddedAt(before, i);
      }
    }
  }

  lemma NoneAdded()
    ensures !SourceAdded([])
  {
  }

  /** The driver has a source, without which its scanner divides by zero, just after the
      commands that include such an ADDSOURCES. */
  lemma {:induction false} HasSourceWhen(history: seq<Order>)
    ensures RegisteredBy(history) != [] <==> SourceAdded(history)
  {
    hide SourceAdded;
    if history == [] {
      NoneAdded();
    } else {
      var before, last := history[..|history| - 1], history[|history| - 1];
      HasSourceWhen(before);
      AddedNow(before, last);
      assert before + [last] == history;
    }
  }

  lemma AtRest(N: nat, s: P.State)
    requires P.Inv(N, s) && s.owner == P.Off
    ensures s.scan == P.Idle
  {
  }

  /** After HALT has left sources behind in the driver: in a run from the state it is left in,
      with whatever is held and pending there, an event is not completed as long as all its
      fragments, those left there included, are from the sources added since, no two from the
      same one. */
  lemma LostSourcesStall(lost: seq<Source>, sources: seq<Source>, s0: P.State, steps: seq<P.Step>, s: P.State,
                         e: nat)
    requires lost != [] && P.Inv(|lost|, s0) && s0.owner == P.Off
    requires P.Follows(|KeysOf(lost + sources)|, s0, steps, s)
    requires FairFor(KeysOf(sources), Available(s0, s), e)
    ensures forall i :: |s0.b.handed| <= i < |s.b.handed| ==> s.b.handed[i].evt != e
  {
    hide FairFor, Available, P.Follows;
    AtRest(|lost|, s0);
    P.MoreSources(|lost|, |KeysOf(lost + sources)|, s0);
    hide P.Inv;
    NeverCompleted(|KeysOf(lost + sources)|, KeysOf(sources), s0, steps, s, e);
  }

  /** And a completion when there are two from the same one: the source d of before is added
      again, and its event numbers start again. */
  lemma LostSourceCompletes(d: Source, f: Fragment, g: Fragment)
    requires f.evt == g.evt != 0
    ensures AddAll(|KeysOf([d] + [d])|, Builder(map[f.evt := [f]], []), [g]).handed == [Event(f.evt, [f, g])]
  {
    NothingArrives(2, Builder(map[f.evt := [f]], []));
    OneArrives(2, Builder(map[f.evt := [f]], []), [], g);
    assert [] + [g] == [g] && [f] + [g] == [f, g];
  }

  /** The writer, which is the driver's one processor. */
  const WRITER: nat := 0

  /** What LIST finds behind its pointer: nothing defined before the first CONFIGURE, a null
      pointer after DESTROY, or the driver. */
  datatype Answer = Undefined | NullPointer | Shown(run: int, evt: nat)

  /** The driver runs exactly in state RUNNING, and has these sources. */
  ghost predicate Coupled(evb: ShmDriver, state: string, registered: seq<Source>)
    reads evb
  {
    && evb.Valid()
    && (evb.running <==> state == "RUNNING")
    && (!evb.running ==> evb.AtRest())
    && evb.datasources == KeysOf(registered) && evb.processors == [WRITER]
  }

  /** A change between states that are not RUNNING. */
  lemma StillCoupled(evb: ShmDriver, state: string, state': string, registered: seq<Source>)
    requires Coupled(evb, state, registered) && (state == "RUNNING" <==> state' == "RUNNING")
    ensures Coupled(evb, state', registered)
  {
  }

  class ExBuilder {
    const fsm: Machine<Action>

    /** The driver pointer has been assigned; the constructor leaves it as it is. */
    var initialised: bool

    var evb: ShmDriver?
    var sources: seq<Source>

    /** Sources still registered in the driver whose sockets HALT has deleted. */
    ghost var lost: seq<Source>

    ghost var history: seq<Order>

    /** The driver is as state s has it. */
    ghost predicate DriverIn(s: string)
      reads this`evb, this`lost, this`sources, evb
    {
      if s == "CREATED" then evb == null else evb != null && Coupled(evb, s, lost + sources)
    }

    ghost predicate Valid()
      reads this, fsm, evb
    {
      && fsm.Valid() && fsm.rows == Rows()
      && (initialised <==> history != [])
      && DriverIn(fsm.state) && (evb == null <==> fsm.state == "CREATED")
      && (evb != null ==> initialised && RegisteredBy(history) == lost + sources)
    }

    constructor ()
      ensures Valid() && fsm.state == "CREATED" && sources == [] && history == [] && fresh(fsm)
    {
      var f := NewMachine(Rows());
      fsm, initialised, evb, sources, lost, history := f, false, null, [], [], [];
    }

    method ConfigureCallback(dir: Directory)
      modifies this`evb, this`initialised, this`sources, this`lost, dir
      ensures sources == [] && lost == [] && initialised && fresh(evb)
      ensures lost + sources == [] && Coupled(evb, "CONFIGURED", lost + sources)
      ensures evb.log == [] && dir.markers == {} && dir.data == old(dir.data) - old(dir.markers)
    {
      hide Runs, InRun, Owned, FromReads, HandedIn;
      sources, lost := [], [];
      evb := new ShmDriver();
      initialised := true;
      dir.Purge();
      evb.RegisterProcessor(WRITER);
    }

    method AddSourcesCallback(det: nat, sids: seq<nat>)
      requires evb != null && Coupled(evb, "CONFIGURED", lost + sources)
      modifies this`sources, evb`datasources
      ensures sources == old(sources) + Pairs(det, sids) && Coupled(evb, "CONFIGURED", lost + sources)
      ensures old(evb.datasources) <= evb.datasources
      ensures evb.datasources[|old(evb.datasources)|..]
           == seq(|sids|, i requires 0 <= i < |sids| => DsKey(det, sids[i]))
    {
      hide Runs, InRun, Owned, FromReads, HandedIn, KeysOf;
      var i := 0;
      while i < |sids|
        invariant 0 <= i <= |sids| && sources == old(sources) + Pairs(det, sids[..i])
        invariant Coupled(evb, "CONFIGURED", lost + sources)
        invariant evb.datasources == old(evb.datasources) + seq(i, j requires 0 <= j < i => DsKey(det, sids[j]))
      {
        assert Pairs(det, sids[..i + 1]) == Pairs(det, sids[..i]) + [(det, sids[i])];
        KeysGrow(lost + sources, (det, sids[i]));
        assert lost + sources + [(det, sids[i])] == lost + (sources + [(det, sids[i])]);
        sources := sources + [(det, sids[i])];
        evb.RegisterDataSource(det, sids[i]);
        i := i + 1;
      }
      assert sids[..|sids|] == sids;
    }

    method StartCallback(run: int)
      requires evb != null && Coupled(evb, "REGISTERED", lost + sources)
      modifies evb
      ensures Coupled(evb, "RUNNING", lost + sources)
      ensures evb.log == old(evb.log) + [Started(run)] && evb.run == run
    {
      hide Runs, InRun, Owned, FromReads, HandedIn, KeysOf;
      evb.Start(run);
    }

    /** memory: as in a turn of the scanner, which may be under way. */
    method StopCallback(dir: Directory, memory: nat -> Memory)
      requires evb != null && Coupled(evb, "RUNNING", lost + sources)
      requires dir.markers != {} ==> lost + sources != []
      modifies evb, dir
      ensures Coupled(evb, "REGISTERED", lost + sources) && dir.markers <= old(dir.markers)
      ensures exists before :: Continues(old(evb.log), before) && evb.log == before + [Stopped]
    {
      hide Runs, InRun, Owned, FromReads, HandedIn, KeysOf, Turn, Continues;
      ghost var o := evb.Stop(dir, memory);
    }

    method HaltCallback(dir: Directory, memory: nat -> Memory)
      requires evb != null && Coupled(evb, "RUNNING", lost + sources)
      requires dir.markers != {} ==> lost + sources != []
      modifies this`lost, this`sources, evb, dir
      ensures Coupled(evb, "CONFIGURED", lost + sources) && dir.markers <= old(dir.markers)
      ensures exists before :: Continues(old(evb.log), before) && evb.log == before + [Stopped]
      ensures sources == [] && lost == old(lost) + old(sources)
    {
      hide Continues;
      StopCallback(dir, memory);
      StillCoupled(evb, "REGISTERED", "CONFIGURED", lost + sources);
      assert lost + sources + [] == lost + sources;
      lost, sources := lost + sources, [];
    }

    /** The driver is destroyed, with the buffers it still holds. */
    method DestroyCallback()
      requires evb != null && Coupled(evb, "CONFIGURED", lost + sources)
      modifies this`evb, evb
      ensures evb == null
      ensures var d := old(evb); d.eventMap == map[] && d.freed == d.made
    {
      hide Runs, InRun, Owned, FromReads, HandedIn, KeysOf;
      evb.Clear();
      evb := null;
    }

    /** The callback of an action. */
    method Run(a: Action, det: nat, sids: seq<nat>, run: int, dir: Directory, memory: nat -> Memory)
      requires DriverIn(From(a))
      requires (a == Stop || a == Halt) && dir.markers != {} ==> lost + sources != []
      modifies this`evb, this`initialised, this`sources, this`lost, evb, dir
      ensures DriverIn(To(a)) && (evb == null <==> To(a) == "CREATED")
      ensures initialised == (old(initialised) || a == Configure) && (a != Configure ==> old(evb) != null)
      ensures if a == Configure then fresh(evb) else if a == Destroy then evb == null else evb == old(evb)
      ensures lost + sources == match a
                                case Configure => []
                                case AddSources => old(lost + sources) + Pairs(det, sids)
                                case _ => old(lost + sources)
      ensures match a
              case Configure => sources == [] && lost == [] && evb != null && evb.log == [] && dir.markers == {}
              case AddSources => sources == old(sources) + Pairs(det, sids) && lost == old(lost)
              case Halt => sources == [] && lost == old(lost) + old(sources)
              case _ => sources == old(sources) && lost == old(lost)
      ensures a != Configure && a != Stop && a != Halt ==> dir.data == old(dir.data) && dir.markers == old(dir.markers)
      ensures dir.markers <= old(dir.markers)
      ensures a == AddSources ==>
          && evb == old(evb) && evb != null && old(evb.datasources) <= evb.datasources
          && evb.datasources[|old(evb.datasources)|..] == seq(|sids|, i requires 0 <= i < |sids| => DsKey(det, sids[i]))
      ensures a == Destroy ==> var d := old(evb); d != null && d.eventMap == map[] && d.freed == d.made
      ensures a == Start ==>
          evb == old(evb) && evb != null && evb.log == old(evb.log) + [Started(run)] && evb.run == run
      ensures a == Stop || a == Halt ==>
          && evb == old(evb) && evb != null
          && exists before :: Continues(old(evb.log), before) && evb.log == before + [Stopped]
    {
      hide Coupled, Continues, Pairs;
      assert lost + (sources + Pairs(det, sids)) == lost + sources + Pairs(det, sids);
      assert lost + sources + [] == lost + sources;
      match a {
        case Configure => ConfigureCallback(dir);
        case AddSources => AddSourcesCallback(det, sids);
        case Register => StillCoupled(evb, "CONFIGURED", "REGISTERED", lost + sources);
        case Start => StartCallback(run);
        case Stop => StopCallback(dir, memory);
        case Halt => HaltCallback(dir, memory);
        case Destroy => DestroyCallback();
      }
    }

    /** det, sids and run stand for the content of the message. done: the action taken. */
    method Command(cmd: string, det: nat, sids: seq<nat>, run: int, dir: Directory, memory: nat -> Memory)
      returns (done: Option<Action>)
      requires Valid()
      requires fsm.state == "RUNNING" && dir.markers != {} ==> RegisteredBy(history) != []
      modifies this`evb, this`initialised, this`sources, this`lost, this`history, fsm`state, evb, dir
      ensures Valid()
      ensures var row := FirstRow(Rows(), cmd, old(fsm.state));
              if row.Some? then done == Some(row.value.callback) && fsm.state == row.value.final
              else done == None && fsm.state == old(fsm.state)
      ensures done == None ==>
          evb == old(evb) && sources == old(sources) && lost == old(lost) && history == old(history)
      ensures done.Some? && done != Some(Configure) && done != Some(Destroy) ==> evb == old(evb)
      ensures done == Some(Configure) ==> fresh(evb)
      ensures done == Some(Destroy) ==> evb == null && sources == old(sources)
      ensures done.Some? ==> history == old(history) + [Order(done.value, det, sids)]
      ensures done == Some(Configure) ==>
          sources == [] && lost == [] && evb != null && evb.log == [] && dir.markers == {}
      ensures done == Some(AddSources) ==>
          && evb == old(evb) && evb != null && old(evb.datasources) <= evb.datasources
          && evb.datasources[|old(evb.datasources)|..] == seq(|sids|, i requires 0 <= i < |sids| => DsKey(det, sids[i]))
      ensures dir.markers <= old(dir.markers)
      ensures done == Some(AddSources) ==> sources == old(sources) + Pairs(det, sids) && lost == old(lost)
      ensures done == Some(Start) ==>
          evb == old(evb) && evb != null && evb.log == old(evb.log) + [Started(run)] && evb.run == run
      // the processors are stopped after the last event
      ensures done == Some(Stop) || done == Some(Halt) ==>
          && evb == old(evb) && evb != null
          && exists before :: Continues(old(evb.log), before) && evb.log == before + [Stopped]
      // halting deletes the sockets and leaves the driver's list as it is
      ensures done == Some(Halt) ==> sources == [] && lost == old(lost) + old(sources)
      // no buffer outlives the driver
      ensures done == Some(Destroy) ==> var d := old(evb); d != null && d.eventMap == map[] && d.freed == d.made
      ensures done == Some(Register) || done == Some(Start) || done == Some(Stop) ==>
          sources == old(sources) && lost == old(lost)
    {
      hide FirstRow, Means, DriverIn, Continues, RegisteredBy, Pairs, Rows, From, To;
      FirstRowIsRow(Rows(), cmd, fsm.state);
      var r := fsm.Find(cmd);
      if r.None? {
        return None;
      }
      var a := r.value.callback;
      TableRow(cmd, r.value);
      ghost var order := Order(a, det, sids);
      OneMoreOrder(history, order);
      Run(a, det, sids, run, dir, memory);
      history := history + [order];
      fsm.SetState(r.value.final);
      done := Some(a);
    }

    /** A step of the scanner thread in a run of the builder. */
    method ScannerStep(dir: Directory, memory: nat -> Memory) returns (ghost order: seq<Name>)
      requires Valid() && fsm.state == "RUNNING"
      requires dir.markers != {} ==> RegisteredBy(history) != []
      modifies evb, dir
      ensures Valid() && evb != null && Continues(old(evb.log), evb.log)
      ensures old(evb.thread) == InTurn ==>
          Turn(|lost + sources|, order, memory, old(evb.SnapshotWith(dir)), evb.SnapshotWith(dir))
      ensures old(evb.thread) != InTurn ==> evb.SnapshotWith(dir) == old(evb.SnapshotWith(dir))
    {
      hide Means, Runs, InRun, Owned, FromReads, HandedIn, Turn, Continues, RegisteredBy, KeysOf;
      order := evb.ScannerStep(dir, memory);
    }

    /** LIST dereferences the driver in every state. */
    method List() returns (r: Answer)
      requires Valid()
      ensures r == Undefined <==> history == []
      ensures r == NullPointer <==> fsm.state == "CREATED" && history != []
      ensures r.Shown? ==> evb != null && r == Shown(evb.run, evb.evt)
    {
      r := if !initialised then Undefined else if evb == null then NullPointer else Shown(evb.run, evb.evt);
    }

    /** A whole session, in which no fragment comes: each command is accepted, the driver sees two
        runs, and nothing is left of it. */
    method Session(det: nat, sids: seq<nat>, first: int, second: int, dir: Directory, memory: nat -> Memory)
      returns (done: seq<Option<Action>>)
      requires Valid() && fsm.state == "CREATED"
      modifies this`evb, this`initialised, this`sources, this`lost, this`history, fsm`state, evb, dir
      ensures Valid() && fsm.state == "CREATED" && evb == null && sources == []
      ensures done == [Some(Configure), Some(AddSources), Some(Register), Some(Start), Some(Stop), Some(Start),
                       Some(Halt), Some(Destroy)]
    {
      hide FirstRow, Means, Rows, DriverIn, RegisteredBy, Continues, Pairs;
      SessionRows();
      var d1 := Command("CONFIGURE", 0, [], 0, dir, memory);
      var d2 := Command("ADDSOURCES", det, sids, 0, dir, memory);
      var d3 := Command("REGISTER", 0, [], 0, dir, memory);
      var d4 := Command("START", 0, [], first, dir, memory);
      var d5 := Command("STOP", 0, [], 0, dir, memory);
      var d6 := Command("START", 0, [], second, dir, memory);
      var d7 := Command("HALT", 0, [], 0, dir, memory);
      var d8 := Command("DESTROY", 0, [], 0, dir, memory);
      done := [d1, d2, d3, d4, d5, d6, d7, d8];
    }
  }
}
