/** Conservation, ageing and exact cover for the event map. */
module EventPool {
  import opened Fragment
  import opened EventBuilder
  import opened Sequences

  /** Any key of the map. */
  ghost function Pick(m: EventMap): nat
    requires m.Keys != {}
    ensures Pick(m) in m
  {
    var e :| e in m; e
  }

  /** All fragments held, as a multiset. */
  ghost function Pool(m: EventMap): multiset<Fragment>
    decreases m.Keys
  {
    if m.Keys == {} then multiset{} else multiset(m[Pick(m)]) + Pool(m - {Pick(m)})
  }

  /** All fragments handed over. */
  ghost function HandedPool(h: seq<Event>): multiset<Fragment> {
    if h == [] then multiset{} else HandedPool(h[..|h| - 1]) + multiset(h[|h| - 1].frags)
  }

  /** The pool does not depend on the order in which entries are counted. */
  lemma {:induction false} PoolSplit(m: EventMap, e: nat)
    requires e in m
    ensures Pool(m) == multiset(m[e]) + Pool(m - {e})
    decreases m.Keys
  {
    var x := Pick(m);
    if x != e {
      PoolSplit(m - {x}, e);
      PoolSplit(m - {e}, x);
      assert m - {x} - {e} == m - {e} - {x};
    }
  }

  lemma PoolPut(m: EventMap, e: nat, v: seq<Fragment>)
    ensures Pool(m[e := v]) == Pool(m - {e}) + multiset(v)
  {
    PoolSplit(m[e := v], e);
    assert m[e := v] - {e} == m - {e};
  }

  lemma PoolWithout(m: EventMap, e: nat)
    ensures Pool(m) == multiset(Held(m, e)) + Pool(m - {e})
  {
    if e in m {
      PoolSplit(m, e);
    } else {
      assert m - {e} == m;
    }
  }

  lemma HandedPoolPush(h: seq<Event>, ev: Event)
    ensures HandedPool(h + [ev]) == HandedPool(h) + multiset(ev.frags)
  {
  }

  /** No fragment is lost or doubled by an arrival: it is held or handed over. */
  lemma AddConserves(N: nat, b: Builder, f: Fragment)
    ensures var b' := Add(N, b, f);
            Pool(b'.held) + HandedPool(b'.handed) == Pool(b.held) + HandedPool(b.handed) + multiset{f}
  {
    hide Pool, HandedPool, Held;
    var v := Entry(b.held, f);
    PoolWithout(b.held, f.evt);
    assert multiset(v) == multiset(Held(b.held, f.evt)) + multiset{f};
    PoolPut(b.held, f.evt, v);
    HandedPoolPush(b.handed, Event(f.evt, v));
  }

  lemma {:induction false} AddAllConserves(N: nat, b: Builder, fs: seq<Fragment>)
    ensures var b' := AddAll(N, b, fs);
            Pool(b'.held) + HandedPool(b'.handed) == Pool(b.held) + HandedPool(b.handed) + multiset(fs)
  {
    hide Pool, HandedPool, Add;
    if fs != [] {
      var init, f := fs[..|fs| - 1], fs[|fs| - 1];
      AddAllConserves(N, b, init);
      AddConserves(N, AddAll(N, b, init), f);
      assert fs == init + [f];
    }
  }

  /** The entries of m with a key in s. */
  function Restrict(m: EventMap, s: set<nat>): EventMap { map e | e in m && e in s :: m[e] }

  lemma NothingRestricted(m: EventMap)
    ensures Pool(Restrict(m, {})) == multiset{}
  {
  }

  lemma OneMoreOut(m: EventMap, gone: set<nat>, e: nat)
    requires e in gone && e in m
    ensures Pool(m - (gone - {e})) == Pool(m - gone) + multiset(m[e])
    ensures Pool(Restrict(m, gone)) == Pool(Restrict(m, gone - {e})) + multiset(m[e])
  {
    hide Pool;
    var a, b := m - (gone - {e}), Restrict(m, gone);
    PoolSplit(a, e);
    assert a - {e} == m - gone;
    PoolSplit(b, e);
    assert b - {e} == Restrict(m, gone - {e});
  }

  /** Taking whole entries out conserves: what they held is what is gone. */
  lemma {:induction false} RemoveConserves(m: EventMap, gone: set<nat>)
    requires gone <= m.Keys
    ensures Pool(m) == Pool(m - gone) + Pool(Restrict(m, gone))
    decreases gone
  {
    hide Pool, Restrict;
    if gone == {} {
      assert m - gone == m;
      NothingRestricted(m);
    } else {
      var e :| e in gone;
      RemoveConserves(m, gone - {e});
      OneMoreOut(m, gone, e);
    }
  }

  // ----- ageing, in real arithmetic

  /** The time of a fragment: its bunch crossing in units of 200 ns. */
  function Time(f: Fragment): real { f.bx as real * 0.0000002 }

  /** The incomplete entries that began more than delay before the last completion. */
  function Stale(N: nat, m: EventMap, last: real, delay: real): set<nat> {
    set e | e in m && m[e] != [] && |m[e]| != N && last - Time(m[e][0]) > delay
  }

  /** Ageing keeps the map well formed; every incomplete entry left began, by the bunch crossing
      of its first fragment in units of 200 ns, at most delay before the last completion, every
      entry gone was incomplete and older. */
  lemma AgeingLaw(N: nat, m: EventMap, last: real, delay: real)
    requires WellFormed(N, m)
    ensures var gone := Stale(N, m, last, delay);
            var left: EventMap := m - gone;
            && gone <= m.Keys && WellFormed(N, left)
            && (forall e :: e in left ==> left[e] == m[e])
            && (forall e :: e in left ==> |left[e]| == N || left[e][0].bx as real * 0.0000002 >= last - delay)
            && (forall e :: e in m && e !in left ==> |m[e]| != N && m[e][0].bx as real * 0.0000002 < last - delay)
            && Pool(m) == Pool(left) + Pool(Restrict(m, gone))
  {
    hide Pool, Restrict;
    RemoveConserves(m, Stale(N, m, last, delay));
  }

  /** Time of the last entry that reached N fragments in the batch; 0 when none did. Event 0
      counts here too. */
  function LastCompletion(N: nat, b: Builder, fs: seq<Fragment>): real {
    if fs == [] then 0.0
    else
      var (init, f) := (fs[..|fs| - 1], fs[|fs| - 1]);
      var v := Entry(AddAll(N, b, init).held, f);
      if |v| == N then Time(v[0]) else LastCompletion(N, b, init)
  }

  /** How a batch grows. */
  lemma NothingArrives(N: nat, b: Builder)
    ensures AddAll(N, b, []) == b && LastCompletion(N, b, []) == 0.0
  {
  }

  lemma OneArrives(N: nat, b: Builder, fs: seq<Fragment>, f: Fragment)
    ensures AddAll(N, b, fs + [f]) == Add(N, AddAll(N, b, fs), f)
    ensures LastCompletion(N, b, fs + [f]) ==
        var v := Entry(AddAll(N, b, fs).held, f); if |v| == N then Time(v[0]) else LastCompletion(N, b, fs)
  {
  }

  // ----- exact cover

  function KeyOf(f: Fragment): nat { DsKey(f.det, f.src) }

  ghost function Keys(fs: seq<Fragment>): seq<nat> {
    seq(|fs|, i requires 0 <= i < |fs| => KeyOf(fs[i]))
  }

  /** Each registered key has exactly one fragment in the group. */
  ghost predicate Covers(keys: seq<nat>, fs: seq<Fragment>) {
    && |fs| == |keys|
    && (forall f :: f in fs ==> KeyOf(f) in keys)
    && (forall k :: k in keys ==> exists f :: f in fs && KeyOf(f) == k)
    && (forall i, j :: 0 <= i < j < |fs| ==> KeyOf(fs[i]) != KeyOf(fs[j]))
  }

  /** Pigeonhole: as many fragments as registered keys, from registered sources, no two from
      the same one, cover all sources. */
  lemma Pigeonhole(keys: seq<nat>, fs: seq<Fragment>)
    requires Distinct(keys) && |fs| == |keys|
    requires forall f :: f in fs ==> KeyOf(f) in keys
    requires forall i, j :: 0 <= i < j < |fs| ==> KeyOf(fs[i]) != KeyOf(fs[j])
    ensures Covers(keys, fs)
  {
    var ks := Keys(fs);
    DistinctSize(ks);
    DistinctSize(keys);
    FullSubset(Elements(ks), Elements(keys));
    forall k | k in keys ensures exists f :: f in fs && KeyOf(f) == k {
      assert k in Elements(keys);
      var i :| 0 <= i < |ks| && ks[i] == k;
      assert fs[i] in fs;
    }
  }

  /** There are no more fragments with distinct keys than there are keys. */
  lemma TooFewKeys(keys: seq<nat>, fs: seq<Fragment>)
    requires forall f :: f in fs ==> KeyOf(f) in keys
    requires forall i, j :: 0 <= i < j < |fs| ==> KeyOf(fs[i]) != KeyOf(fs[j])
    ensures |fs| <= |keys|
  {
    var ks := Keys(fs);
    DistinctSize(ks);
    SizeBound(keys);
    forall i | 0 <= i < |ks| ensures ks[i] in Elements(keys) {
      assert fs[i] in fs;
    }
    SubsetSize(Elements(ks), Elements(keys));
  }

  /** No two fragments of event e are from the same source. */
  ghost predicate OneEach(all: multiset<Fragment>, e: nat) {
    && (forall f :: f in all && f.evt == e ==> all[f] == 1)
    && (forall f, g :: f in all && g in all && f.evt == g.evt == e && KeyOf(f) == KeyOf(g) ==> f == g)
  }

  /** ... and each is from one of the sources of these keys. */
  ghost predicate FairFor(keys: seq<nat>, all: multiset<Fragment>, e: nat) {
    && OneEach(all, e)
    && (forall f :: f in all && f.evt == e ==> KeyOf(f) in keys)
  }

  lemma InSeqInMultiset<T>(s: seq<T>, all: multiset<T>, i: nat)
    requires i < |s| && multiset(s) <= all
    ensures s[i] in all && multiset(s)[s[i]] <= all[s[i]]
  {
  }

  lemma TwiceInSeq<T>(s: seq<T>, i: nat, j: nat)
    requires i < j < |s| && s[i] == s[j]
    ensures multiset(s)[s[i]] >= 2
  {
    assert s == s[..i] + [s[i]] + s[i + 1..j] + [s[j]] + s[j + 1..];
  }

  /** A group of event e drawn from such fragments has distinct keys. */
  lemma GroupKeysDistinct(all: multiset<Fragment>, fs: seq<Fragment>, e: nat)
    requires OneEach(all, e) && multiset(fs) <= all
    requires forall f :: f in fs ==> f.evt == e
    ensures forall i, j :: 0 <= i < j < |fs| ==> KeyOf(fs[i]) != KeyOf(fs[j])
  {
    forall i, j | 0 <= i < j < |fs| ensures KeyOf(fs[i]) != KeyOf(fs[j]) {
      if KeyOf(fs[i]) == KeyOf(fs[j]) {
        InSeqInMultiset(fs, all, i);
        InSeqInMultiset(fs, all, j);
        TwiceInSeq(fs, i, j);
        assert false;
      }
    }
  }
}
