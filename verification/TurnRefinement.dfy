/** The driver object's turn against the protocol: what one turn of the object does is what the
    scanner's steps of the protocol do when nobody else takes one in between. */
module TurnRefinement {
  import opened Fragment
  import opened FragmentName
  import opened EventBuilder
  import opened EventPool
  import opened ShmProtocol
  import opened Sequences
  import Object = ShmDriver

  /** The steps, all of them the scanner's, lead from s to s'. */
  ghost predicate Goes(N: nat, s: State, steps: seq<Step>, s': State)
    requires N >= 1
  {
    Follows(N, s, steps, s') && forall step :: step in steps ==> OfScanner(step)
  }

  lemma GoesOn(N: nat, s: State, a: seq<Step>, m: State, b: seq<Step>, s': State)
    requires N >= 1 && Goes(N, s, a, m) && Goes(N, m, b, s')
    ensures Goes(N, s, a + b, s')
  {
    hide Follows;
    FollowsOn(N, s, a, m, b, s');
  }

  lemma OwnStep(N: nat, s: State, step: Step)
    requires N >= 1 && Inv(N, s) && Enabled(s, step) && OfScanner(step)
    ensures Goes(N, s, [step], Apply(N, s, step)) && Inv(N, Apply(N, s, step))
  {
    hide Apply, Possible, Inv, Follows;
    OneStep(N, s, step);
  }

  /** All that a turn works on. */
  ghost function SnapshotOf(s: State): Object.Snapshot { Object.Snapshot(s.b, s.data, s.markers) }

  // ----- a pull

  /** s' is s after the pull of the first name still to be treated, and its insertion. */
  ghost predicate AfterPull(s: State, s': State) {
    && s.scan.Pulling? && s.scan.todo != []
    && var n := s.scan.todo[0];
    && n in s.data && |s.data[n]| >= HEADER
    && s'.scan.Pulling? && s'.scan.todo == s.scan.todo[1..]
    && s'.data == s.data - {n} && s'.markers == s.markers - {n}
    && s'.pulled == s.pulled + [Parse(OneRead(s.data[n]))] && s'.found == s.found && s'.marked == s.marked
  }

  lemma PullSteps(N: nat, s: State) returns (steps: seq<Step>, s': State)
    requires N >= 1 && Inv(N, s) && s.scan.Pulling? && s.scan.todo != []
    ensures Goes(N, s, steps, s') && Inv(N, s') && AfterPull(s, s')
  {
    hide Inv, Goes, Parse, OneRead, Cut, Add, Completes, Entry, Time;
    PullReads(N, s);
    var s1 := Apply(N, s, ReadData);
    OwnStep(N, s, ReadData);
    var s2 := Apply(N, s1, UnlinkMarker);
    OwnStep(N, s1, UnlinkMarker);
    var s3 := Apply(N, s2, UnlinkData);
    OwnStep(N, s2, UnlinkData);
    s' := Apply(N, s3, Insert);
    OwnStep(N, s3, Insert);
    GoesOn(N, s, [ReadData], s1, [UnlinkMarker], s2);
    GoesOn(N, s2, [UnlinkData], s3, [Insert], s');
    steps := [ReadData] + [UnlinkMarker] + ([UnlinkData] + [Insert]);
    GoesOn(N, s, [ReadData] + [UnlinkMarker], s2, [UnlinkData] + [Insert], s');
  }

  /** s is a state in a pass over the listing `order`, begun in state s0, with i names pulled. */
  ghost predicate InPassOver(s0: State, order: seq<Name>, i: nat, memory: nat -> Object.Memory, s: State)
    requires i <= |order|
  {
    && s.scan.Pulling? && s.scan.todo == order[i..] && s.found == s0.b
    && s.data == s0.data - Elements(order[..i])
    && s.markers == s0.markers - Elements(order[..i])
    && s.pulled == Object.PullsOf(s0.data, order, i, memory)
  }

  lemma OneMorePulled(s0: State, order: seq<Name>, i: nat, memory: nat -> Object.Memory, s: State, s': State)
    requires i < |order| && Distinct(order) && InPassOver(s0, order, i, memory, s) && AfterPull(s, s')
    ensures InPassOver(s0, order, i + 1, memory, s')
  {
    hide Parse;
    NextElement(order, i);
    Object.NextPull(s0.data, order, i, memory, s'.pulled[i]);
    hide Elements, Distinct;
    assert order[i..][0] == order[i] && order[i..][1..] == order[i + 1..];
  }

  lemma {:induction false} PullRest(N: nat, s0: State, order: seq<Name>, i: nat, memory: nat -> Object.Memory, s: State)
    returns (steps: seq<Step>, s': State)
    requires N >= 1 && Inv(N, s) && i <= |order| && Distinct(order) && InPassOver(s0, order, i, memory, s)
    ensures Goes(N, s, steps, s') && Inv(N, s') && InPassOver(s0, order, |order|, memory, s')
    decreases |order| - i
  {
    hide Inv, AfterPull, Elements, Distinct, Object.PullsOf;
    if i == |order| {
      steps, s' := [], s;
    } else {
      var first, m := PullSteps(N, s);
      OneMorePulled(s0, order, i, memory, s, m);
      var rest;
      rest, s' := PullRest(N, s0, order, i + 1, memory, m);
      steps := first + rest;
      GoesOn(N, s, first, m, rest, s');
    }
  }

  // ----- the purge

  lemma PurgeSteps(N: nat, s: State) returns (steps: seq<Step>, s': State)
    requires N >= 1 && Inv(N, s) && s.scan.Purging?
    ensures Goes(N, s, steps, s') && Inv(N, s')
    ensures s.scan.todo != [] && s'.scan == if |s.scan.todo| == 1 then Idle else Purging(s.scan.todo[1..])
    ensures s'.data == s.data - {s.scan.todo[0]} && s'.markers == s.markers - {s.scan.todo[0]} && s'.b == s.b
  {
    hide Goes, FragmentOf, Files, Conserved, Building, Owned, Distinct, Elements;
    var s1 := Apply(N, s, PurgeData);
    OwnStep(N, s, PurgeData);
    s' := Apply(N, s1, PurgeMarker);
    OwnStep(N, s1, PurgeMarker);
    steps := [PurgeData] + [PurgeMarker];
    GoesOn(N, s, [PurgeData], s1, [PurgeMarker], s');
  }

  lemma NoNames(names: seq<Name>)
    requires names == []
    ensures Elements(names) == {}
  {
  }

  lemma {:induction false} PurgeRest(N: nat, s: State) returns (steps: seq<Step>, s': State)
    requires N >= 1 && Inv(N, s) && s.scan.Purging? && s.scan.todo != [] && Distinct(s.scan.todo)
    ensures Goes(N, s, steps, s') && Inv(N, s') && s'.scan == Idle && s'.b == s.b
    ensures s'.data == s.data - Elements(s.scan.todo) && s'.markers == s.markers - Elements(s.scan.todo)
    decreases |s.scan.todo|
  {
    hide Inv, Goes, Distinct, Elements;
    var todo := s.scan.todo;
    TailNames(todo);
    var first, m := PurgeSteps(N, s);
    if |todo| == 1 {
      NoNames(todo[1..]);
      steps, s' := first, m;
    } else {
      var rest;
      rest, s' := PurgeRest(N, m);
      steps := first + rest;
      GoesOn(N, s, first, m, rest, s');
    }
  }

  // ----- the turn

  lemma MarkersHaveFiles(s: State)
    requires Files(s) && s.scan == Idle
    ensures s.markers <= s.data.Keys
  {
  }

  /** The test at the head of the loop, and the listing. */
  lemma ListSteps(N: nat, s: State, order: seq<Name>) returns (steps: seq<Step>, s': State)
    requires N >= 1 && Inv(N, s) && s.scan == Idle && s.thread && s.running && Lists(order, s.markers)
    ensures Goes(N, s, steps, s') && Inv(N, s')
    ensures s' == s.(scan := s'.scan, found := s.b, pulled := [])
    ensures s'.scan == if order == [] then Idle else if |order| % N != 0 then Mismatch else Pulling(order, 0.0)
  {
    hide Inv, Goes, Lists;
    var s1 := Apply(N, s, TestRunning);
    OwnStep(N, s, TestRunning);
    s' := Apply(N, s1, List(order));
    OwnStep(N, s1, List(order));
    steps := [TestRunning] + [List(order)];
    GoesOn(N, s, [TestRunning], s1, [List(order)], s');
  }

  lemma PassIs(N: nat, b0: Builder, fs: seq<Fragment>, b: Builder, last: real)
    requires b == AddAll(N, b0, fs) && last == LastCompletion(N, b0, fs)
    ensures Object.Pass(N, b0, fs)
         == if last == 0.0 then b else Builder(b.held - Stale(N, b.held, last, DELAY), b.handed)
  {
    hide AddAll, LastCompletion, Stale;
  }

  lemma PassIsSoFar(N: nat, s: State)
    requires Building(N, s) && InPass(s.scan)
    ensures s.b == AddAll(N, s.found, s.pulled) && s.scan.last == LastCompletion(N, s.found, s.pulled)
  {
    hide AddAll, LastCompletion, WellFormed, HandedOk;
  }

  lemma PassEnds(N: nat, s: State)
    requires N >= 1 && Inv(N, s) && Enabled(s, EndPass)
    ensures var s' := Apply(N, s, EndPass);
            s'.scan == Idle && s'.b == Object.Pass(N, s.found, s.pulled) && s'.data == s.data && s'.markers == s.markers
  {
    hide Files, Scanning, Conserved, Building, Owned, AddAll, LastCompletion, Stale, Pool, Restrict, Object.Pass;
    PassIsSoFar(N, s);
    PassIs(N, s.found, s.pulled, s.b, s.scan.last);
  }

  /** The pass over a listing that fits the number of sources. */
  lemma PassSteps(N: nat, s0: State, order: seq<Name>, memory: nat -> Object.Memory, s: State)
    returns (steps: seq<Step>, s': State)
    requires N >= 1 && Inv(N, s) && Distinct(order) && Elements(order) == s.markers && s.markers <= s.data.Keys
    requires s.scan == Pulling(order, 0.0) && s.found == s.b && s.pulled == []
    requires s0.b == s.b && s0.data == s.data && s0.markers == s.markers
    requires Alphabetical(order) && !Object.Refused(N, order)
    ensures Goes(N, s, steps, s') && s'.scan == Idle
    ensures Object.Turn(N, order, memory, SnapshotOf(s0), SnapshotOf(s'))
  {
    hide Inv, Goes, Elements, Distinct, Alphabetical, Object.PullsOf;
    PrefixElements(order);
    Object.NoPulls(s0.data, order, memory);
    assert order[0..] == order;
    var pulls, m := PullRest(N, s0, order, 0, memory, s);
    s' := Apply(N, m, EndPass);
    OwnStep(N, m, EndPass);
    steps := pulls + [EndPass];
    GoesOn(N, s, pulls, m, [EndPass], s');
    PassEnds(N, m);
  }

  /** The purge of a listing that does not fit. */
  lemma RefusedSteps(N: nat, s: State, order: seq<Name>) returns (steps: seq<Step>, s': State)
    requires N >= 1 && Inv(N, s) && s.scan == Mismatch && order != [] && Lists(order, s.markers)
    ensures Goes(N, s, steps, s') && s'.scan == Idle
    ensures s'.b == s.b && s'.data == s.data - s.markers && s'.markers == {}
  {
    hide Inv, Goes, Elements, Distinct;
    var s1 := Apply(N, s, PurgeList(order));
    OwnStep(N, s, PurgeList(order));
    var rest;
    rest, s' := PurgeRest(N, s1);
    steps := [PurgeList(order)] + rest;
    GoesOn(N, s, [PurgeList(order)], s1, rest, s');
  }

  /** From the head of the scanner's loop, its steps alone do what a turn of the object does. */
  lemma TurnIsRun(N: nat, s: State, order: seq<Name>, memory: nat -> Object.Memory)
    returns (steps: seq<Step>, s': State)
    requires N >= 1 && Inv(N, s) && s.scan == Idle && s.thread && s.running
    requires Alphabetical(order) && Elements(order) == s.markers
    ensures Goes(N, s, steps, s') && s'.scan == Idle
    ensures Object.Turn(N, order, memory, SnapshotOf(s), SnapshotOf(s'))
  {
    AlphabeticalIsDistinct(order);
    MarkersHaveFiles(s);
    hide Inv, Goes, Apply, Elements, Distinct, Alphabetical, AddAll, LastCompletion, Object.PullsOf, Stale;
    var first, s1 := ListSteps(N, s, order);
    if order == [] {
      NoNames(order);
      Object.NothingPulled(N, s.b, s.data, order, memory);
      steps, s' := first, s1;
    } else if |order| % N != 0 {
      var rest;
      rest, s' := RefusedSteps(N, s1, order);
      steps := first + rest;
      GoesOn(N, s, first, s1, rest, s');
    } else {
      var rest;
      rest, s' := PassSteps(N, s, order, memory, s1);
      steps := first + rest;
      GoesOn(N, s, first, s1, rest, s');
    }
  }
}
