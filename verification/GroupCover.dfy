/** What the events handed over consist of, in a run of the protocol from any state: from where
    their fragments come, and when each event has exactly one fragment of each source. */
module GroupCover {
  import opened Fragment
  import opened EventBuilder
  import opened EventPool
  import opened ShmProtocol
  import opened Sequences

  // ----- what only grows

  /** From s0 to s: nothing handed over, marked, purged or aged is forgotten, and each event
      handed over in between has N fragments. */
  ghost predicate Grows(N: nat, s0: State, s: State) {
    && s0.marked <= s.marked && s0.purged <= s.purged && s0.aged <= s.aged
    && s0.b.handed <= s.b.handed
    && forall i :: |s0.b.handed| <= i < |s.b.handed| ==> |s.b.handed[i].frags| == N
  }

  lemma StepGrows(N: nat, s: State, step: Step)
    requires N >= 1 && Enabled(s, step)
    ensures Grows(N, s, Apply(N, s, step))
  {
    hide Lists, Stale, Restrict, Pool, FragmentOf, WrittenData, Parse, OneRead;
  }

  lemma {:induction false} RunGrows(N: nat, s0: State, steps: seq<Step>, s: State)
    requires N >= 1 && Follows(N, s0, steps, s)
    ensures Grows(N, s0, s)
    decreases |steps|
  {
    hide Apply, Possible;
    if steps != [] {
      StepGrows(N, s0, steps[0]);
      RunGrows(N, Apply(N, s0, steps[0]), steps[1..], s);
    }
  }

  // ----- where the fragments come from

  /** Fragments that a run from s0 finds: with a marker, in the scanner's hands, or held. */
  ghost function Leftover(s0: State): multiset<Fragment> {
    Pending(s0) + InHand(s0.scan) + Pool(s0.b.held)
  }

  /** All fragments that the run from s0 to s can hand over: those it finds, and those that get
      a marker in it. */
  ghost function Available(s0: State, s: State): multiset<Fragment> {
    Leftover(s0) + (s.marked - s0.marked)
  }

  /** The events handed over between s0 and s. */
  ghost function NewlyHanded(s0: State, s: State): seq<Event> {
    if s0.b.handed <= s.b.handed then s.b.handed[|s0.b.handed|..] else []
  }

  lemma {:induction false} HandedPoolJoin(h: seq<Event>, k: seq<Event>)
    ensures HandedPool(h + k) == HandedPool(h) + HandedPool(k)
  {
    if k == [] {
      assert h + k == h;
    } else {
      var init, ev := k[..|k| - 1], k[|k| - 1];
      HandedPoolJoin(h, init);
      assert (h + k)[..|h + k| - 1] == h + init && (h + k)[|h + k| - 1] == ev;
      assert HandedPool(h + k) == HandedPool(h + init) + multiset(ev.frags);
      assert HandedPool(k) == HandedPool(init) + multiset(ev.frags);
      hide HandedPool;
    }
  }

  lemma Balance(marked0: multiset<Fragment>, left0: multiset<Fragment>, handed0: multiset<Fragment>,
                purged0: multiset<Fragment>, aged0: multiset<Fragment>, marked: multiset<Fragment>,
                left: multiset<Fragment>, handed: multiset<Fragment>, purged: multiset<Fragment>,
                aged: multiset<Fragment>)
    requires marked0 == left0 + handed0 + purged0 + aged0
    requires marked == left + (handed0 + handed) + purged + aged
    requires marked0 <= marked && purged0 <= purged && aged0 <= aged
    ensures handed <= left0 + (marked - marked0)
  {
  }

  /** What a run hands over it has found or been given, with multiplicity. */
  lemma HandedFromAvailable(N: nat, s0: State, steps: seq<Step>, s: State)
    requires N >= 1 && Inv(N, s0) && Follows(N, s0, steps, s)
    ensures s0.b.handed <= s.b.handed && HandedPool(NewlyHanded(s0, s)) <= Available(s0, s)
  {
    hide Follows, Files, Scanning, Building, Owned, Pending, Pool, HandedPool, InHand;
    RunKeeps(N, s0, steps, s);
    RunGrows(N, s0, steps, s);
    assert s.b.handed == s0.b.handed + NewlyHanded(s0, s);
    HandedPoolJoin(s0.b.handed, NewlyHanded(s0, s));
    Balance(s0.marked, Leftover(s0), HandedPool(s0.b.handed), s0.purged, s0.aged, s.marked, Leftover(s),
            HandedPool(NewlyHanded(s0, s)), s.purged, s.aged);
  }

  lemma {:induction false} HandedPart(h: seq<Event>, i: nat)
    requires i < |h|
    ensures multiset(h[i].frags) <= HandedPool(h)
  {
    if i < |h| - 1 {
      HandedPart(h[..|h| - 1], i);
    }
  }

  lemma {:induction false} HandedTwice(h: seq<Event>, i: nat, j: nat)
    requires i < j < |h|
    ensures multiset(h[i].frags) + multiset(h[j].frags) <= HandedPool(h)
  {
    var init := h[..|h| - 1];
    if j == |h| - 1 {
      HandedPart(init, i);
    } else {
      HandedTwice(init, i, j);
    }
  }

  /** An event handed over in the run: N of its own fragments, all available to the run. */
  lemma NewEvent(N: nat, s0: State, steps: seq<Step>, s: State, i: nat)
    requires N >= 1 && Inv(N, s0) && Follows(N, s0, steps, s) && |s0.b.handed| <= i < |s.b.handed|
    ensures var ev := s.b.handed[i];
            && ev.evt != 0 && |ev.frags| == N && (forall f :: f in ev.frags ==> f.evt == ev.evt)
            && multiset(ev.frags) <= Available(s0, s)
  {
    hide Follows, Files, Scanning, Owned, Conserved, HandedPool, WellFormed, PassSoFar, Available;
    RunKeeps(N, s0, steps, s);
    RunGrows(N, s0, steps, s);
    HandedFromAvailable(N, s0, steps, s);
    assert s.b.handed[i] in s.b.handed;
    HandedPart(NewlyHanded(s0, s), i - |s0.b.handed|);
  }

  // ----- exact cover

  /** A group of such fragments has distinct keys, all of them registered. */
  lemma GroupFrom(keys: seq<nat>, all: multiset<Fragment>, fs: seq<Fragment>, e: nat)
    requires FairFor(keys, all, e) && multiset(fs) <= all && forall f :: f in fs ==> f.evt == e
    ensures forall f :: f in fs ==> KeyOf(f) in keys
    ensures forall i, j :: 0 <= i < j < |fs| ==> KeyOf(fs[i]) != KeyOf(fs[j])
  {
    hide KeyOf, OneEach;
    GroupKeysDistinct(all, fs, e);
    forall f | f in fs ensures KeyOf(f) in keys {
      assert f in multiset(fs);
    }
  }

  /** In a run from any state, with what it finds counted in: an event for which no source has
      two fragments, and only registered sources have one, is handed over with exactly one
      fragment of each source. */
  lemma ExactCover(keys: seq<nat>, s0: State, steps: seq<Step>, s: State, i: nat)
    requires |keys| >= 1 && Distinct(keys) && Inv(|keys|, s0) && Follows(|keys|, s0, steps, s)
    requires |s0.b.handed| <= i < |s.b.handed| && FairFor(keys, Available(s0, s), s.b.handed[i].evt)
    ensures var ev := s.b.handed[i];
            ev.evt != 0 && Covers(keys, ev.frags) && forall f :: f in ev.frags ==> f.evt == ev.evt
  {
    hide Follows, Inv, Available, OneEach, Covers, Distinct, KeyOf;
    var ev := s.b.handed[i];
    NewEvent(|keys|, s0, steps, s, i);
    GroupFrom(keys, Available(s0, s), ev.frags, ev.evt);
    Pigeonhole(keys, ev.frags);
  }

  lemma SharedElement(all: multiset<Fragment>, a: seq<Fragment>, b: seq<Fragment>, f: Fragment, g: Fragment)
    requires multiset(a) + multiset(b) <= all
    requires f in a && g in b
    ensures f in all && g in all && (f == g ==> all[f] >= 2)
  {
  }

  /** Two groups of one event cannot both cover the sources. */
  lemma NotBoth(keys: seq<nat>, all: multiset<Fragment>, a: seq<Fragment>, b: seq<Fragment>, e: nat)
    requires |keys| >= 1 && Covers(keys, a) && Covers(keys, b) && OneEach(all, e)
    requires forall f :: f in a || f in b ==> f.evt == e
    ensures !(multiset(a) + multiset(b) <= all)
  {
    assert keys[0] in keys;
    var f :| f in a && KeyOf(f) == keys[0];
    var g :| g in b && KeyOf(g) == keys[0];
    if multiset(a) + multiset(b) <= all {
      SharedElement(all, a, b, f, g);
      assert false;
    }
  }

  /** ... and such an event is handed over at most once in the run. */
  lemma HandedOverOnce(keys: seq<nat>, s0: State, steps: seq<Step>, s: State, i: nat, j: nat)
    requires |keys| >= 1 && Distinct(keys) && Inv(|keys|, s0) && Follows(|keys|, s0, steps, s)
    requires |s0.b.handed| <= i < j < |s.b.handed| && FairFor(keys, Available(s0, s), s.b.handed[i].evt)
    ensures s.b.handed[i].evt != s.b.handed[j].evt
  {
    hide Follows, Inv, Available, HandedPool, Covers, OneEach, Distinct, KeyOf;
    var a, b := s.b.handed[i], s.b.handed[j];
    if a.evt == b.evt {
      ExactCover(keys, s0, steps, s, i);
      ExactCover(keys, s0, steps, s, j);
      HandedFromAvailable(|keys|, s0, steps, s);
      HandedTwice(NewlyHanded(s0, s), i - |s0.b.handed|, j - |s0.b.handed|);
      NotBoth(keys, Available(s0, s), a.frags, b.frags, a.evt);
    }
  }

  /** With more sources registered than send for an event, it is not handed over in the run. */
  lemma NeverCompleted(N: nat, keys: seq<nat>, s0: State, steps: seq<Step>, s: State, e: nat)
    requires N > |keys| && Inv(N, s0) && Follows(N, s0, steps, s) && FairFor(keys, Available(s0, s), e)
    ensures forall i :: |s0.b.handed| <= i < |s.b.handed| ==> s.b.handed[i].evt != e
  {
    hide Follows, Inv, Available, FairFor, KeyOf;
    forall i | |s0.b.handed| <= i < |s.b.handed| ensures s.b.handed[i].evt != e {
      var ev := s.b.handed[i];
      NewEvent(N, s0, steps, s, i);
      if ev.evt == e {
        GroupFrom(keys, Available(s0, s), ev.frags, e);
        TooFewKeys(keys, ev.frags);
        assert false;
      }
    }
  }

  // ----- two ways to meet the hypothesis

  /** A run that finds nothing of event e: what its sources send in it counts. */
  lemma FairInRun(keys: seq<nat>, s0: State, s: State, e: nat)
    requires forall f :: f in Leftover(s0) ==> f.evt != e
    requires FairFor(keys, s.marked - s0.marked, e)
    ensures FairFor(keys, Available(s0, s), e)
  {
    hide Leftover, KeyOf;
  }

  lemma NothingAtStart(s: State)
    ensures Available(INITIAL, s) == s.marked && INITIAL.b.handed == []
  {
  }

  /** From the very start all fragments ever marked count. */
  lemma FromTheStart(keys: seq<nat>, steps: seq<Step>, s: State, i: nat)
    requires |keys| >= 1 && Distinct(keys) && Leads(|keys|, steps, s) && i < |s.b.handed|
    requires FairFor(keys, s.marked, s.b.handed[i].evt)
    ensures Covers(keys, s.b.handed[i].frags)
    ensures forall j :: i < j < |s.b.handed| ==> s.b.handed[j].evt != s.b.handed[i].evt
  {
    hide Follows, FairFor, Covers;
    InitialInv(|keys|);
    NothingAtStart(s);
    hide Inv, Available;
    ExactCover(keys, INITIAL, steps, s, i);
    forall j | i < j < |s.b.handed| ensures s.b.handed[j].evt != s.b.handed[i].evt {
      HandedOverOnce(keys, INITIAL, steps, s, i, j);
    }
  }

  // ----- the same by detector and source id

  /** A registered data source. */
  datatype Source = Source(det: nat, src: nat) {
    ghost predicate Small() { det < 0x1000 && src < 0x1000 }
    ghost function Key(): nat { DsKey(det, src) }
  }

  ghost function SourceKeys(sources: seq<Source>): seq<nat> {
    seq(|sources|, i requires 0 <= i < |sources| => sources[i].Key())
  }

  ghost function SourceOfFragment(f: Fragment): Source { Source(f.det, f.src) }

  /** Distinct sources with ids of 12 bits; every fragment of event e is from one of them, and
      no two are from the same one. */
  ghost predicate RegisteredFor(sources: seq<Source>, all: multiset<Fragment>, e: nat) {
    && Distinct(sources) && (forall i :: 0 <= i < |sources| ==> sources[i].Small())
    && (forall f :: f in all && f.evt == e ==> all[f] == 1 && SourceOfFragment(f) in sources)
    && (forall f, g :: f in all && g in all && f.evt == g.evt == e && SourceOfFragment(f) == SourceOfFragment(g)
          ==> f == g)
  }

  /** For small ids the key tells the source. */
  lemma SmallKeys(a: Source, b: Source)
    requires a.Small() && b.Small() && a.Key() == b.Key()
    ensures a == b
  {
  }

  lemma KeysAreFair(sources: seq<Source>, all: multiset<Fragment>, e: nat)
    requires RegisteredFor(sources, all, e)
    ensures FairFor(SourceKeys(sources), all, e) && Distinct(SourceKeys(sources))
    ensures |SourceKeys(sources)| == |sources|
  {
    hide DsKey;
    var keys := SourceKeys(sources);
    forall i, j | 0 <= i < j < |keys| ensures keys[i] != keys[j] {
      if keys[i] == keys[j] {
        SmallKeys(sources[i], sources[j]);
      }
    }
    forall f | f in all && f.evt == e ensures KeyOf(f) in keys {
      var i :| 0 <= i < |sources| && sources[i] == SourceOfFragment(f);
      assert keys[i] == KeyOf(f);
    }
    forall f, g | f in all && g in all && f.evt == g.evt == e && KeyOf(f) == KeyOf(g)
      ensures f == g
    {
      SmallKeys(SourceOfFragment(f), SourceOfFragment(g));
    }
  }

  /** A handed-over fragment with the key of d is from d. */
  lemma FromRegistered(sources: seq<Source>, all: multiset<Fragment>, e: nat, f: Fragment, d: Source)
    requires RegisteredFor(sources, all, e) && f in all && f.evt == e && d in sources && KeyOf(f) == d.Key()
    ensures SourceOfFragment(f) == d
  {
    hide DsKey;
    SmallKeys(SourceOfFragment(f), d);
  }

  /** Every such event handed over holds exactly one fragment of each registered source. */
  lemma EachSourceOnce(sources: seq<Source>, s0: State, steps: seq<Step>, s: State, i: nat, d: Source)
    requires |sources| >= 1 && Inv(|sources|, s0) && Follows(|sources|, s0, steps, s) && d in sources
    requires |s0.b.handed| <= i < |s.b.handed|
    requires RegisteredFor(sources, Available(s0, s), s.b.handed[i].evt)
    ensures var fs := s.b.handed[i].frags;
            exists x :: 0 <= x < |fs| && SourceOfFragment(fs[x]) == d
              && forall y :: 0 <= y < |fs| && SourceOfFragment(fs[y]) == d ==> y == x
  {
    hide Follows, Inv, Available, RegisteredFor, FairFor, DsKey;
    var keys, ev, all := SourceKeys(sources), s.b.handed[i], Available(s0, s);
    KeysAreFair(sources, all, ev.evt);
    ExactCover(keys, s0, steps, s, i);
    NewEvent(|keys|, s0, steps, s, i);
    var k :| 0 <= k < |sources| && sources[k] == d;
    assert keys[k] == d.Key() && keys[k] in keys;
    var f :| f in ev.frags && KeyOf(f) == d.Key();
    assert f in multiset(ev.frags);
    FromRegistered(sources, all, ev.evt, f, d);
    var x :| 0 <= x < |ev.frags| && ev.frags[x] == f;
    forall y | 0 <= y < |ev.frags| && SourceOfFragment(ev.frags[y]) == d ensures y == x {
      assert KeyOf(ev.frags[y]) == KeyOf(ev.frags[x]);
    }
  }
}
