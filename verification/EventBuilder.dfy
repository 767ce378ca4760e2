/** Grouping fragments into events, on values: what arriving fragments do to the event map
    and which events are handed over. N is the number of registered data sources. */
module EventBuilder {
  import opened Fragment

  type EventMap = map<nat, seq<Fragment>>

  datatype Event = Event(evt: nat, frags: seq<Fragment>)

  /** The fragments waiting in the event map and the events handed to the processors so far. */
  datatype Builder = Builder(held: EventMap, handed: seq<Event>)

  function Held(m: EventMap, e: nat): seq<Fragment> {
    if e in m then m[e] else []
  }

  /** The entry of f's event once f has joined it. */
  function Entry(m: EventMap, f: Fragment): seq<Fragment> {
    Held(m, f.evt) + [f]
  }

  /** The arrival of f completes its event: the entry reaches N fragments; event 0 is never
      complete. */
  predicate Completes(N: nat, b: Builder, f: Fragment) { |Entry(b.held, f)| == N && f.evt != 0 }

  /** One fragment arrives; the event it completes is handed over. */
  function Add(N: nat, b: Builder, f: Fragment): Builder {
    var v := Entry(b.held, f);
    if Completes(N, b, f) then Builder(b.held - {f.evt}, b.handed + [Event(f.evt, v)])
    else b.(held := b.held[f.evt := v])
  }

  /** A batch of fragments arrives, one after the other. */
  function AddAll(N: nat, b: Builder, fs: seq<Fragment>): Builder {
    if fs == [] then b else Add(N, AddAll(N, b, fs[..|fs| - 1]), fs[|fs| - 1])
  }

  /** The fragments of event e in fs, in order. */
  function Of(fs: seq<Fragment>, e: nat): seq<Fragment> {
    if fs == [] then []
    else Of(fs[..|fs| - 1], e) + if fs[|fs| - 1].evt == e then [fs[|fs| - 1]] else []
  }

  /** The fragment groups handed over for event e, in order. */
  function HandedFor(h: seq<Event>, e: nat): seq<seq<Fragment>> {
    if h == [] then []
    else HandedFor(h[..|h| - 1], e) + if h[|h| - 1].evt == e then [h[|h| - 1].frags] else []
  }

  /** The event map between steps: no empty entry, each fragment under its own event, and
      fewer than N fragments except for event 0. */
  predicate WellFormed(N: nat, m: EventMap) {
    forall e :: e in m ==>
      && |m[e]| > 0
      && (forall f :: f in m[e] ==> f.evt == e)
      && (e != 0 ==> |m[e]| < N)
  }

  lemma {:induction false} AddAllKeepsWellFormed(N: nat, b: Builder, fs: seq<Fragment>)
    requires N >= 1 && WellFormed(N, b.held)
    ensures WellFormed(N, AddAll(N, b, fs).held)
  {
    if fs != [] {
      AddAllKeepsWellFormed(N, b, fs[..|fs| - 1]);
    }
  }

  /** s cut into blocks of N; a shorter rest is left. */
  function Blocks<T>(N: nat, s: seq<T>): seq<seq<T>>
    requires N >= 1
  {
    if |s| < N then [] else [s[..N]] + Blocks(N, s[N..])
  }

  function Rest<T>(N: nat, s: seq<T>): seq<T>
    requires N >= 1
  {
    if |s| < N then s else Rest(N, s[N..])
  }

  lemma {:induction false} BlockSizes<T>(N: nat, s: seq<T>)
    requires N >= 1
    ensures |s| == |Blocks(N, s)| * N + |Rest(N, s)| && |Rest(N, s)| < N
    ensures forall b :: b in Blocks(N, s) ==> |b| == N
  {
    if |s| >= N {
      BlockSizes(N, s[N..]);
      assert |Blocks(N, s)| * N == |Blocks(N, s[N..])| * N + N;
    }
  }

  lemma EuclidOf(x: nat, n: nat)
    requires n >= 1
    ensures x == x / n * n + x % n && 0 <= x % n < n
  {
  }

  lemma SmallMultiple(n: int, d: int, y: int)
    requires n >= 1 && d * n == y && -n < y < n
    ensures d == 0
  {
  }

  /** Division with remainder has one answer. */
  lemma Division(x: nat, n: nat, q: nat, r: nat)
    requires n >= 1 && x == q * n + r && r < n
    ensures q == x / n && r == x % n
  {
    EuclidOf(x, n);
    SmallMultiple(n, q - x / n, x % n - r);
  }

  lemma BlockCount<T>(N: nat, s: seq<T>)
    requires N >= 1
    ensures |Blocks(N, s)| == |s| / N && |Rest(N, s)| == |s| % N
  {
    BlockSizes(N, s);
    Division(|s|, N, |Blocks(N, s)|, |Rest(N, s)|);
  }

  lemma {:induction false} BlocksGrow<T>(N: nat, s: seq<T>, x: T)
    requires N >= 1
    ensures var r := Rest(N, s) + [x];
            if |r| == N then Blocks(N, s + [x]) == Blocks(N, s) + [r] && Rest(N, s + [x]) == []
            else Blocks(N, s + [x]) == Blocks(N, s) && Rest(N, s + [x]) == r
  {
    var t := s + [x];
    if |s| < N {
      if |t| == N {
        assert t[..N] == t && t[N..] == [];
      }
    } else {
      BlocksGrow(N, s[N..], x);
      assert t[N..] == s[N..] + [x] && t[..N] == s[..N];
    }
  }

  /** What one fragment does to one event. */
  lemma AddLaw(N: nat, b: Builder, f: Fragment, e: nat)
    ensures var (b', v) := (Add(N, b, f), Held(b.held, e) + [f]);
            if f.evt != e then HandedFor(b'.handed, e) == HandedFor(b.handed, e) && Held(b'.held, e) == Held(b.held, e)
            else if |v| == N && e != 0 then
              HandedFor(b'.handed, e) == HandedFor(b.handed, e) + [v] && Held(b'.held, e) == []
            else HandedFor(b'.handed, e) == HandedFor(b.handed, e) && Held(b'.held, e) == v
  {
  }

  /** What a batch does to one event: the fragments held and arriving, in order, are handed
      over in blocks of N, and the rest stays. */
  lemma {:induction false} BatchLaw(N: nat, b: Builder, fs: seq<Fragment>, e: nat)
    requires N >= 1 && e != 0 && |Held(b.held, e)| < N
    ensures var (b', s) := (AddAll(N, b, fs), Held(b.held, e) + Of(fs, e));
            HandedFor(b'.handed, e) == HandedFor(b.handed, e) + Blocks(N, s) && Held(b'.held, e) == Rest(N, s)
  {
    hide Add, Held, HandedFor;
    var h, p := HandedFor(b.handed, e), Held(b.held, e);
    if fs == [] {
      assert p + [] == p && h + [] == h;
    } else {
      var init, f := fs[..|fs| - 1], fs[|fs| - 1];
      BatchLaw(N, b, init, e);
      var m, s := AddAll(N, b, init), p + Of(init, e);
      AddLaw(N, m, f, e);
      if f.evt == e {
        BlocksGrow(N, s, f);
        assert s + [f] == p + Of(fs, e);
        assert h + Blocks(N, s) + [Rest(N, s) + [f]] == h + (Blocks(N, s) + [Rest(N, s) + [f]]);
      } else {
        assert Of(fs, e) == Of(init, e);
      }
    }
  }

  /** Event 0 is never handed over, its fragments stay. */
  lemma {:induction false} BatchLawZero(N: nat, b: Builder, fs: seq<Fragment>)
    ensures var b' := AddAll(N, b, fs);
            HandedFor(b'.handed, 0) == HandedFor(b.handed, 0) && Held(b'.held, 0) == Held(b.held, 0) + Of(fs, 0)
  {
    hide Add, Held, HandedFor;
    if fs != [] {
      var init, f := fs[..|fs| - 1], fs[|fs| - 1];
      BatchLawZero(N, b, init);
      AddLaw(N, AddAll(N, b, init), f, 0);
    }
  }

  /** The number of fragments of an event does not depend on the order of the listing. */
  lemma {:induction false} OfCounts(fs: seq<Fragment>, e: nat, x: Fragment)
    ensures multiset(Of(fs, e))[x] == if x.evt == e then multiset(fs)[x] else 0
  {
    if fs != [] {
      var init := fs[..|fs| - 1];
      OfCounts(init, e, x);
      assert fs == init + [fs[|fs| - 1]];
    }
  }

  lemma OrderIsIrrelevant(fs: seq<Fragment>, gs: seq<Fragment>, e: nat)
    requires multiset(fs) == multiset(gs)
    ensures multiset(Of(fs, e)) == multiset(Of(gs, e)) && |Of(fs, e)| == |Of(gs, e)|
  {
    forall x ensures multiset(Of(fs, e))[x] == multiset(Of(gs, e))[x] {
      OfCounts(fs, e, x);
      OfCounts(gs, e, x);
    }
    assert |Of(fs, e)| == |multiset(Of(fs, e))| && |Of(gs, e)| == |multiset(Of(gs, e))|;
  }

  /** The counting law, for any listing gs of the batch fs: with p fragments held and q
      arriving, (p + q) / N events are handed over and (p + q) % N fragments remain; for
      event 0 none and all. */
  lemma CountingLaw(N: nat, b: Builder, fs: seq<Fragment>, gs: seq<Fragment>, e: nat)
    requires N >= 1 && (e != 0 ==> |Held(b.held, e)| < N)
    requires multiset(fs) == multiset(gs)
    ensures var (b', n) := (AddAll(N, b, gs), |Held(b.held, e)| + |Of(fs, e)|);
            && |HandedFor(b'.handed, e)| - |HandedFor(b.handed, e)| == (if e == 0 then 0 else n / N)
            && |Held(b'.held, e)| == (if e == 0 then n else n % N)
  {
    OrderIsIrrelevant(fs, gs, e);
    if e == 0 {
      BatchLawZero(N, b, gs);
    } else {
      BatchLaw(N, b, gs, e);
      BlockCount(N, Held(b.held, e) + Of(gs, e));
    }
  }
}
