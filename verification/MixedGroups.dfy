/** What leftovers of an earlier run can do: a run of the protocol, over a stop and a start, in
    which an event is handed over with two fragments of one source. */
module MixedGroups {
  import opened Fragment
  import opened EventBuilder
  import opened EventPool
  import opened RunLog
  import opened ShmProtocol
  import opened TurnRefinement
  import opened StoreAgain
  import opened GroupCover

  /** The driver is started for two sources, f is stored, and the driver is stopped before its
      scanner has looked: the marker of f is there when it is started again. */
  lemma LeftBehind(f: Fragment) returns (steps: seq<Step>, s: State)
    ensures Leads(2, steps, s) && Inv(2, s)
    ensures s == INITIAL.(data := map[f.Named() := f.Bytes()], markers := {f.Named()},
                          stores := map[f.Named() := Store(f, Marked)], marked := multiset{Cut(f)},
                          log := [Started(1), Stopped])
  {
    hide Inv, Follows, Fragment.Bytes, Cut;
    InitialInv(2);
    var s1 := Apply(2, INITIAL, StartRun(1));
    OneStep(2, INITIAL, StartRun(1));
    var store, s2 := WholeStore(2, s1, f);
    var s3 := Apply(2, s2, ClearRunning);
    OneStep(2, s2, ClearRunning);
    var s4 := Apply(2, s3, TestRunning);
    OneStep(2, s3, TestRunning);
    s := Apply(2, s4, JoinAndStop);
    OneStep(2, s4, JoinAndStop);
    FollowsOn(2, INITIAL, [StartRun(1)], s1, store, s2);
    FollowsOn(2, s2, [ClearRunning], s3, [TestRunning], s4);
    FollowsOn(2, s2, [ClearRunning] + [TestRunning], s4, [JoinAndStop], s);
    steps := [StartRun(1)] + store + ([ClearRunning] + [TestRunning] + [JoinAndStop]);
    FollowsOn(2, INITIAL, [StartRun(1)] + store, s2, [ClearRunning] + [TestRunning] + [JoinAndStop], s);
    assert [] + [Started(1)] + [Stopped] == [Started(1), Stopped];
  }

  lemma ListsTwo(a: Name, b: Name)
    requires a != b
    ensures Lists([a, b], {a} + {b})
  {
    assert [a, b][0] == a && [a, b][1] == b;
  }

  /** The driver is started again, g is stored, and the scanner lists both names. */
  lemma BothListed(s0: State, f: Fragment, g: Fragment) returns (steps: seq<Step>, s: State)
    requires Inv(2, s0) && s0.owner == Off && s0.scan == Idle && s0.markers == {f.Named()}
    requires !BeingStored(s0, g.Named()) && g.Named() !in s0.data && f.Named() != g.Named()
    ensures Follows(2, s0, steps, s) && Inv(2, s)
    ensures s.scan == Pulling([f.Named(), g.Named()], 0.0)
    ensures s.data == s0.data[g.Named() := g.Bytes()] && s.b == s0.b && s.found == s.b && s.pulled == []
    ensures s.marked == s0.marked + multiset{Cut(g)}
  {
    hide Inv, Follows, Fragment.Bytes, Cut;
    var order := [f.Named(), g.Named()];
    var s1 := Apply(2, s0, StartRun(2));
    OneStep(2, s0, StartRun(2));
    var store, s2 := WholeStore(2, s1, g);
    var s3 := Apply(2, s2, TestRunning);
    OneStep(2, s2, TestRunning);
    ListsTwo(f.Named(), g.Named());
    s := Apply(2, s3, List(order));
    OneStep(2, s3, List(order));
    FollowsOn(2, s0, [StartRun(2)], s1, store, s2);
    FollowsOn(2, s2, [TestRunning], s3, [List(order)], s);
    steps := [StartRun(2)] + store + ([TestRunning] + [List(order)]);
    FollowsOn(2, s0, [StartRun(2)] + store, s2, [TestRunning] + [List(order)], s);
  }

  /** Two fragments of one event complete it. */
  lemma PassOfTwo(s: State, f: Fragment, g: Fragment)
    requires Inv(2, s) && InPass(s.scan) && s.found == EMPTY && s.pulled == [f, g] && f.evt == g.evt != 0
    ensures s.b.handed == [Event(f.evt, [f, g])]
  {
    hide Files, Scanning, Conserved, Owned;
    PassIsSoFar(2, s);
    NothingArrives(2, EMPTY);
    OneArrives(2, EMPTY, [], f);
    OneArrives(2, EMPTY, [f], g);
    hide AddAll, LastCompletion;
    assert [] + [f] == [f] && [f] + [g] == [f, g];
  }

  /** Both are pulled, and handed over together. */
  lemma BothPulled(s: State, f: Fragment, g: Fragment) returns (steps: seq<Step>, s': State)
    requires Inv(2, s) && s.scan == Pulling([f.Named(), g.Named()], 0.0) && f.Named() != g.Named()
    requires s.found == EMPTY && s.pulled == [] && f.evt == g.evt != 0
    requires f.Named() in s.data && s.data[f.Named()] == f.Bytes()
    requires g.Named() in s.data && s.data[g.Named()] == g.Bytes()
    ensures Follows(2, s, steps, s') && Inv(2, s') && s'.marked == s.marked
    ensures s'.b.handed == [Event(f.evt, [Cut(f), Cut(g)])]
  {
    hide Inv, Follows, Parse, OneRead, Fragment.Bytes;
    ReadIsCut(f);
    ReadIsCut(g);
    var one, m := PullSteps(2, s);
    var two;
    two, s' := PullSteps(2, m);
    steps := one + two;
    FollowsOn(2, s, one, m, two, s');
    assert s'.pulled == [Cut(f), Cut(g)];
    PassOfTwo(s', Cut(f), Cut(g));
  }

  lemma FoundWithMarker(s: State, f: Fragment)
    requires s.markers == {f.Named()} && s.stores == map[f.Named() := Store(f, Marked)]
    ensures Cut(f) in Leftover(s)
  {
    assert Cut(f) in FragsOf(s.stores, s.markers);
  }

  lemma TwoOfOne(keys: seq<nat>, f: Fragment, g: Fragment)
    requires KeyOf(f) == KeyOf(g)
    ensures !Covers(keys, [f, g])
  {
    assert [f, g][0] == f && [f, g][1] == g;
  }

  /** Two fragments of one event, sent by one source in different runs, the first of them left
      with its marker: the second run hands the event over with both, although in each run the
      source has sent one fragment of it. */
  lemma MixedAcrossRuns(f: Fragment, g: Fragment)
    returns (steps0: seq<Step>, s0: State, steps: seq<Step>, s: State)
    requires f.Named() != g.Named() && f.evt == g.evt != 0
    ensures Leads(2, steps0, s0) && Inv(2, s0) && s0.log == [Started(1), Stopped] && s0.b.handed == []
    ensures Follows(2, s0, steps, s)
    ensures Cut(f) in Leftover(s0) && s0.marked == multiset{Cut(f)} && s.marked - s0.marked == multiset{Cut(g)}
    ensures s.b.handed == [Event(f.evt, [Cut(f), Cut(g)])]
    ensures KeyOf(f) == KeyOf(g) ==> forall keys: seq<nat> :: !Covers(keys, s.b.handed[0].frags)
  {
    hide Inv, Follows, Fragment.Bytes;
    steps0, s0 := LeftBehind(f);
    var list, m := BothListed(s0, f, g);
    var pulls;
    pulls, s := BothPulled(m, f, g);
    steps := list + pulls;
    FollowsOn(2, s0, list, m, pulls, s);
    FoundWithMarker(s0, f);
    if KeyOf(f) == KeyOf(g) {
      forall keys: seq<nat> ensures !Covers(keys, [Cut(f), Cut(g)]) {
        TwoOfOne(keys, Cut(f), Cut(g));
      }
    }
  }
}
