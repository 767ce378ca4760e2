/** The deferred hand-over, in which a second loop looks for full entries in the event map
    (`processEvents`), against the eager one, in which an event is handed over by the arrival
    that completes it (`scanMemory`). */
module Deferred {
  import opened Fragment
  import opened EventBuilder

  /** A batch only stored in the event map. */
  function Collect(m: EventMap, fs: seq<Fragment>): EventMap {
    if fs == [] then m
    else
      var (init, f) := (Collect(m, fs[..|fs| - 1]), fs[|fs| - 1]);
      init[f.evt := Entry(init, f)]
  }

  /** The events one pass over the map hands over: full entries, event 0 excepted. */
  function FullEvents(N: nat, m: EventMap): set<Event> {
    set e | e in m && |m[e]| == N && e != 0 :: Event(e, m[e])
  }

  /** What the pass leaves: every full entry is erased, event 0 not excepted. */
  function Leftover(N: nat, m: EventMap): EventMap {
    map e | e in m && |m[e]| != N :: m[e]
  }

  lemma {:induction false} CollectHolds(m: EventMap, fs: seq<Fragment>, e: nat)
    ensures Held(Collect(m, fs), e) == Held(m, e) + Of(fs, e)
  {
    if fs != [] {
      CollectHolds(m, fs[..|fs| - 1], e);
    }
  }

  /** No event gets more than N fragments from map and batch together. */
  ghost predicate NoneOverfull(N: nat, m: EventMap, fs: seq<Fragment>) {
    forall e: nat :: e != 0 ==> |Held(m, e) + Of(fs, e)| <= N
  }

  lemma BlocksOfShort<T>(N: nat, s: seq<T>)
    requires N >= 1 && |s| <= N
    ensures Blocks(N, s) == (if |s| == N then [s] else [])
    ensures Rest(N, s) == (if |s| == N then [] else s)
  {
    if |s| == N {
      assert s[..N] == s && s[N..] == [];
    }
  }

  lemma {:induction false} AddAllAppends(N: nat, b: Builder, fs: seq<Fragment>)
    ensures b.handed <= AddAll(N, b, fs).handed
  {
    if fs != [] {
      AddAllAppends(N, b, fs[..|fs| - 1]);
    }
  }

  lemma {:induction false} HandedForJoin(h: seq<Event>, k: seq<Event>, e: nat)
    ensures HandedFor(h + k, e) == HandedFor(h, e) + HandedFor(k, e)
  {
    if k == [] {
      assert h + k == h;
    } else {
      var init, last := k[..|k| - 1], k[|k| - 1];
      HandedForJoin(h, init, e);
      assert (h + k)[..|h + k| - 1] == h + init;
      assert (h + k)[|h + k| - 1] == last;
      var own := if last.evt == e then [last.frags] else [];
      assert HandedFor(h, e) + HandedFor(init, e) + own == HandedFor(h, e) + (HandedFor(init, e) + own);
    }
  }

  lemma {:induction false} InHandedFor(k: seq<Event>, ev: Event)
    ensures ev in k <==> ev.frags in HandedFor(k, ev.evt)
  {
    if k != [] {
      InHandedFor(k[..|k| - 1], ev);
      assert k == k[..|k| - 1] + [k[|k| - 1]];
    }
  }

  /** The groups the deferred pass hands over for one event: at most one. */
  function FullFor(N: nat, m: EventMap, e: nat): seq<seq<Fragment>> {
    if e != 0 && e in m && |m[e]| == N then [m[e]] else []
  }

  lemma InFullFor(N: nat, m: EventMap, ev: Event)
    ensures ev in FullEvents(N, m) <==> ev.frags in FullFor(N, m, ev.evt)
  {
  }

  /** What the eager path does to one event. */
  lemma Eager(N: nat, b: Builder, fs: seq<Fragment>, e: nat)
    requires N >= 1 && WellFormed(N, b.held)
    ensures b.handed <= AddAll(N, b, fs).handed
    ensures var (b', s) := (AddAll(N, b, fs), Held(b.held, e) + Of(fs, e));
            && HandedFor(b'.handed[|b.handed|..], e) == (if e == 0 then [] else Blocks(N, s))
            && Held(b'.held, e) == (if e == 0 then s else Rest(N, s))
  {
    hide AddAll, HandedFor, Blocks, Rest, Of;
    var b' := AddAll(N, b, fs);
    AddAllAppends(N, b, fs);
    var k := b'.handed[|b.handed|..];
    assert b'.handed == b.handed + k;
    HandedForJoin(b.handed, k, e);
    if e == 0 {
      BatchLawZero(N, b, fs);
    } else {
      BatchLaw(N, b, fs, e);
    }
    assert HandedFor(k, e) == HandedFor(b'.handed, e)[|HandedFor(b.handed, e)|..];
  }

  /** What storing the batch and one deferred pass do to one event. */
  lemma DeferredPass(N: nat, m: EventMap, fs: seq<Fragment>, e: nat)
    requires N >= 1
    ensures var (m', s) := (Collect(m, fs), Held(m, e) + Of(fs, e));
            && FullFor(N, m', e) == (if e != 0 && |s| == N then [s] else [])
            && Held(Leftover(N, m'), e) == (if |s| == N then [] else s)
  {
    hide Collect, Of;
    CollectHolds(m, fs, e);
  }

  lemma BlocksOfLong<T>(N: nat, s: seq<T>)
    requires N >= 1 && |s| > N
    ensures Blocks(N, s) != [] && |Rest(N, s)| < N
  {
    BlockSizes(N, s);
  }

  /** For one event, with the fragments s held and arriving: both paths hand over the same
      groups if and only if there are at most N fragments or the event is event 0; they leave
      the same if and only if there are at most N, or for event 0 any number but N. */
  lemma WhenPathsAgree(N: nat, b: Builder, fs: seq<Fragment>, e: nat)
    requires N >= 1 && WellFormed(N, b.held)
    ensures b.handed <= AddAll(N, b, fs).handed
    ensures var (b', m, s) := (AddAll(N, b, fs), Collect(b.held, fs), Held(b.held, e) + Of(fs, e));
            && (HandedFor(b'.handed[|b.handed|..], e) == FullFor(N, m, e) <==> e == 0 || |s| <= N)
            && (Held(b'.held, e) == Held(Leftover(N, m), e) <==> if e == 0 then |s| != N else |s| <= N)
  {
    hide AddAll, Collect, HandedFor, FullFor, Leftover, Blocks, Rest, Of;
    Eager(N, b, fs, e);
    DeferredPass(N, b.held, fs, e);
    var s := Held(b.held, e) + Of(fs, e);
    if |s| <= N {
      BlocksOfShort(N, s);
    } else {
      BlocksOfLong(N, s);
    }
  }

  /** Both paths hand over the same groups of event e and leave the same fragments of it. */
  ghost predicate SameFor(N: nat, b: Builder, fs: seq<Fragment>, e: nat) {
    var (b', m) := (AddAll(N, b, fs), Collect(b.held, fs));
    && b.handed <= b'.handed
    && HandedFor(b'.handed[|b.handed|..], e) == FullFor(N, m, e)
    && Held(b'.held, e) == Held(Leftover(N, m), e)
  }

  /** The number of fragments of event e with which the two paths agree on it. */
  predicate AgreesWith(N: nat, e: nat, size: nat) { if e == 0 then size != N else size <= N }

  lemma SameForWhen(N: nat, b: Builder, fs: seq<Fragment>, e: nat)
    requires N >= 1 && WellFormed(N, b.held)
    ensures SameFor(N, b, fs, e) <==> AgreesWith(N, e, |Held(b.held, e) + Of(fs, e)|)
  {
    hide AddAll, Collect, HandedFor, FullFor, Leftover, Held, Of;
    WhenPathsAgree(N, b, fs, e);
  }

  /** The two paths agree on all events if and only if no event but event 0 gets more than N
      fragments and event 0 does not have exactly N. */
  lemma PathsAgree(N: nat, b: Builder, fs: seq<Fragment>)
    requires N >= 1 && WellFormed(N, b.held)
    ensures (forall e: nat :: SameFor(N, b, fs, e))
       <==> NoneOverfull(N, b.held, fs) && |Held(b.held, 0) + Of(fs, 0)| != N
  {
    hide SameFor, Held, Of;
    forall e: nat
      ensures SameFor(N, b, fs, e) <==> AgreesWith(N, e, |Held(b.held, e) + Of(fs, e)|)
    {
      SameForWhen(N, b, fs, e);
    }
    if forall e: nat :: SameFor(N, b, fs, e) {
      assert SameFor(N, b, fs, 0);
      forall e: nat | e != 0 ensures |Held(b.held, e) + Of(fs, e)| <= N {
        assert SameFor(N, b, fs, e);
      }
    }
  }

  /** So, when no event is overfull, the eager path hands over the very events that storing the
      batch and one deferred pass hand over, and only event 0 may be left differently. */
  lemma EagerRefinesDeferred(N: nat, b: Builder, fs: seq<Fragment>)
    requires N >= 1 && WellFormed(N, b.held) && NoneOverfull(N, b.held, fs)
    ensures b.handed <= AddAll(N, b, fs).handed
    ensures var (b', m) := (AddAll(N, b, fs), Collect(b.held, fs));
            && (forall ev :: ev in b'.handed[|b.handed|..] <==> ev in FullEvents(N, m))
            && (forall e: nat :: e != 0 ==> Held(b'.held, e) == Held(Leftover(N, m), e))
  {
    hide AddAll, Collect, HandedFor, FullFor, FullEvents, Leftover, Of;
    var b', m := AddAll(N, b, fs), Collect(b.held, fs);
    AddAllAppends(N, b, fs);
    forall ev ensures ev in b'.handed[|b.handed|..] <==> ev in FullEvents(N, m) {
      InHandedFor(b'.handed[|b.handed|..], ev);
      InFullFor(N, m, ev);
      WhenPathsAgree(N, b, fs, ev.evt);
    }
    forall e: nat | e != 0 ensures Held(b'.held, e) == Held(Leftover(N, m), e) {
      WhenPathsAgree(N, b, fs, e);
    }
  }
}
