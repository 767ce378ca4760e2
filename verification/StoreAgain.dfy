/** Storing a name again: why the protocol's steps have the guard `MayStore`, clause by clause,
    and runs that lead to the states in question. */
module StoreAgain {
  import opened Fragment
  import opened ShmProtocol
  import opened Sequences

  /** A marker that the purge is not at, without the complete data file. */
  ghost predicate Misleads(s: State, n: Name) {
    n in s.markers && !BeingPurged(s.scan, n) && !Complete(s, n)
  }

  /** Not while the marker is there: when the file is opened while the scanner is at its pull,
      both are unlinked under the store, and the marker that it then creates has no data file. */
  lemma StoreUnderMarker(N: nat, s: State, f: Fragment)
    requires N >= 1 && Inv(N, s) && s.scan.Read? && s.scan.todo != [] && s.scan.todo[0] == f.Named()
    ensures f.Named() in s.markers && Possible(s, OpenData(f))
    ensures var s1 := Apply(N, s, OpenData(f));
            Possible(s1, UnlinkMarker) &&
            var s2 := Apply(N, s1, UnlinkMarker);
            Possible(s2, UnlinkData) &&
            var s3 := Apply(N, s2, UnlinkData);
            Possible(s3, WriteData(f.Named(), |f.Bytes()|)) &&
            var s4 := Apply(N, s3, WriteData(f.Named(), |f.Bytes()|));
            Possible(s4, Mark(f.Named())) &&
            var s5 := Apply(N, s4, Mark(f.Named()));
            Misleads(s5, f.Named()) && f.Named() !in s5.data
  {
    hide Conserved, Building, Owned, Fragment.Bytes, Cut, Distinct, Overwrite;
    assert s.scan.todo[0] in Elements(s.scan.todo);
    hide Elements;
  }

  /** Not between the two unlinks of a pull: when the file is opened there, the second unlink
      takes it away, and the marker that the store then creates has no data file. */
  lemma SecondStoreBetweenUnlinks(N: nat, s: State, f: Fragment)
    requires N >= 1 && Inv(N, s) && AboutToUnlink(s.scan, f.Named())
    ensures f.Named() !in s.markers && Possible(s, OpenData(f))
    ensures var s1 := Apply(N, s, OpenData(f));
            Possible(s1, UnlinkData) &&
            var s2 := Apply(N, s1, UnlinkData);
            Possible(s2, WriteData(f.Named(), |f.Bytes()|)) &&
            var s3 := Apply(N, s2, WriteData(f.Named(), |f.Bytes()|));
            Possible(s3, Mark(f.Named())) &&
            var s4 := Apply(N, s3, Mark(f.Named()));
            Misleads(s4, f.Named()) && f.Named() !in s4.data
  {
    hide Files, Conserved, Building, Owned, Fragment.Bytes, Cut, Distinct, Elements, Overwrite;
  }

  /** Not over a longer file, as a failed store leaves it: its tail stays. */
  lemma ShorterOverLonger(N: nat, s: State, f: Fragment)
    requires N >= 1 && Possible(s, OpenData(f)) && !s.scan.PurgedData?
    requires f.Named() in s.data && |s.data[f.Named()]| > |f.Bytes()|
    ensures var s1 := Apply(N, s, OpenData(f));
            Possible(s1, WriteData(f.Named(), |f.Bytes()|)) &&
            var s2 := Apply(N, s1, WriteData(f.Named(), |f.Bytes()|));
            Possible(s2, Mark(f.Named())) &&
            var s3 := Apply(N, s2, Mark(f.Named()));
            Misleads(s3, f.Named())
  {
    hide Fragment.Bytes, Cut;
  }

  // ----- runs that lead there

  /** A store call that nothing comes between. */
  lemma WholeStore(N: nat, s: State, f: Fragment) returns (steps: seq<Step>, s': State)
    requires N >= 1 && Inv(N, s) && !BeingStored(s, f.Named()) && MayStore(s, f)
    ensures Follows(N, s, steps, s') && Inv(N, s')
    ensures s' == s.(data := s.data[f.Named() := f.Bytes()], markers := s.markers + {f.Named()},
                     stores := s.stores[f.Named() := Store(f, Marked)], marked := s.marked + multiset{Cut(f)})
  {
    hide Inv, Follows, Fragment.Bytes, Cut;
    var n, k := f.Named(), |f.Bytes()|;
    assert f.Bytes()[..k] == f.Bytes();
    var s1 := Apply(N, s, OpenData(f));
    OneStep(N, s, OpenData(f));
    assert Overwrite(s1.data[n], f.Bytes()) == f.Bytes();
    var s2 := Apply(N, s1, WriteData(n, k));
    OneStep(N, s1, WriteData(n, k));
    s' := Apply(N, s2, Mark(n));
    OneStep(N, s2, Mark(n));
    FollowsOn(N, s, [OpenData(f)], s1, [WriteData(n, k)], s2);
    steps := [OpenData(f)] + [WriteData(n, k)] + [Mark(n)];
    FollowsOn(N, s, [OpenData(f)] + [WriteData(n, k)], s2, [Mark(n)], s');
  }

  /** The driver is started for one source, and f is stored. */
  lemma StoredReached(f: Fragment) returns (steps: seq<Step>, s: State)
    ensures Leads(1, steps, s) && Inv(1, s) && s.scan == Idle && s.running && s.thread && s.markers == {f.Named()}
  {
    hide Inv, Follows, Fragment.Bytes, Cut;
    InitialInv(1);
    var s1 := Apply(1, INITIAL, StartRun(1));
    OneStep(1, INITIAL, StartRun(1));
    var store;
    store, s := WholeStore(1, s1, f);
    steps := [StartRun(1)] + store;
    FollowsOn(1, INITIAL, [StartRun(1)], s1, store, s);
  }

  lemma ListsOne(n: Name)
    ensures Lists([n], {n})
  {
    assert n in Elements([n]) by { assert [n][0] == n; }
  }

  /** A run that leads to the pull of f: the state StoreUnderMarker speaks of. */
  lemma PullReached(f: Fragment) returns (steps: seq<Step>, s: State)
    ensures Leads(1, steps, s) && Inv(1, s) && s.scan.Read? && s.scan.todo == [f.Named()]
  {
    hide Inv, Follows, Cut, Parse, OneRead;
    var order := [f.Named()];
    var before, s0 := StoredReached(f);
    var s1 := Apply(1, s0, TestRunning);
    OneStep(1, s0, TestRunning);
    ListsOne(f.Named());
    var s2 := Apply(1, s1, List(order));
    OneStep(1, s1, List(order));
    PullReads(1, s2);
    s := Apply(1, s2, ReadData);
    OneStep(1, s2, ReadData);
    FollowsOn(1, INITIAL, before, s0, [TestRunning], s1);
    FollowsOn(1, INITIAL, before + [TestRunning], s1, [List(order)], s2);
    steps := before + [TestRunning] + [List(order)] + [ReadData];
    FollowsOn(1, INITIAL, before + [TestRunning] + [List(order)], s2, [ReadData], s);
  }

  /** A run that leads between its two unlinks: the state SecondStoreBetweenUnlinks speaks of. */
  lemma BetweenUnlinksReached(f: Fragment) returns (steps: seq<Step>, s: State)
    ensures Leads(1, steps, s) && Inv(1, s) && AboutToUnlink(s.scan, f.Named())
  {
    hide Inv, Follows, Cut;
    var before, s0 := PullReached(f);
    s := Apply(1, s0, UnlinkMarker);
    OneStep(1, s0, UnlinkMarker);
    steps := before + [UnlinkMarker];
    FollowsOn(1, INITIAL, before, s0, [UnlinkMarker], s);
  }

  /** A run with a store that fails after more bytes than f has: the state ShorterOverLonger
      speaks of. */
  lemma LongerReached(f: Fragment) returns (steps: seq<Step>, s: State)
    ensures Leads(1, steps, s) && Inv(1, s) && Possible(s, OpenData(f)) && s.scan == Idle
    ensures f.Named() !in s.markers && f.Named() in s.data && |s.data[f.Named()]| > |f.Bytes()|
  {
    hide Inv, Follows;
    var g, n, k := f.(payload := f.payload + [0, 0]), f.Named(), |f.Bytes()| + 1;
    InitialInv(1);
    var s1 := Apply(1, INITIAL, OpenData(g));
    OneStep(1, INITIAL, OpenData(g));
    s := Apply(1, s1, WriteData(n, k));
    OneStep(1, s1, WriteData(n, k));
    steps := [OpenData(g)] + [WriteData(n, k)];
    FollowsOn(1, INITIAL, [OpenData(g)], s1, [WriteData(n, k)], s);
  }
}
