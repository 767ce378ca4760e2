/** The log tailer's ring buffer: one pass over a stream through a fixed buffer, keeping a
    shifting table of pointers to the last lines.

    The proof follows a tape: the ghost sequence of every byte position the buffer pointer
    has passed, one revolution of the buffer being exactly its length. The buffer always
    shows the last stretch of the tape, from the oldest kept line to the pointer. */
module FileTailer {
  import opened TailText

  /** Where a line starts: the tape position of the revolution, the offset in the buffer,
      and how many of its characters fit before the end of the buffer (negative: all). */
  datatype Spot = Spot(rev: nat, at: nat, cut: int) {
    ghost function Start(): nat { rev + at }
    ghost function Row(): Entry { Entry(at, if cut < 0 then NULL else 0) }
  }

  /** cells: the tape; base: tape position of buffer offset 0 in this revolution; spots: one
      for each complete line; cur: the line being read. */
  datatype Tape = Tape(cells: seq<char>, base: nat, spots: seq<Spot>, cur: Spot)

  /** The buffer offset of tape position v, for the current and the previous revolution. */
  ghost function Phys(M: nat, base: nat, v: nat): int {
    if v >= base then v - base else v - base + M
  }

  /** A tape of length len, in the revolution that began at base, with the stretch from o on
      to be kept in a buffer of M bytes. */
  ghost predicate Window(M: nat, len: nat, base: nat, o: nat) {
    base <= len < base + M && o <= len <= o + M
  }

  /** The buffer b shows the tape from position o on. */
  ghost predicate Shows(b: seq<char>, cells: seq<char>, base: nat, o: nat)
    requires Window(|b|, |cells|, base, o)
  {
    forall v :: o <= v < |cells| ==> b[Phys(|b|, base, v)] == cells[v]
  }

  /** The first part of a line on the tape. */
  ghost predicate HeadOnTape(M: nat, cells: seq<char>, p: Spot, l: seq<char>) {
    && p.at < M - 1
    && 0 < p.cut <= |l| && p.at + p.cut == M - 1
    && p.rev + M <= |cells|
    && cells[p.rev + p.at..p.rev + M] == l[..p.cut] + [NUL]
  }

  ghost predicate LineOnTape(M: nat, cells: seq<char>, p: Spot, l: seq<char>) {
    if p.cut < 0 then
      && p.at < M - 1 && p.at + |l| + 1 <= M
      && p.rev + p.at + |l| + 1 <= |cells|
      && cells[p.rev + p.at..p.rev + p.at + |l| + 1] == l + [NUL]
    else
      && HeadOnTape(M, cells, p, l)
      && p.cut < |l| && |l| - p.cut < M
      && p.rev + M + |l| - p.cut + 1 <= |cells|
      && cells[p.rev + M..p.rev + M + |l| - p.cut + 1] == l[p.cut..] + [NUL]
  }

  /** The line being read, with l read so far. */
  ghost predicate CurOnTape(M: nat, g: Tape, l: seq<char>) {
    if g.cur.cut < 0 then
      && g.cur.rev == g.base && g.cur.at < M - 1
      && |g.cells| == g.cur.Start() + |l|
      && g.cells[g.cur.Start()..] == l
    else
      && HeadOnTape(M, g.cells, g.cur, l)
      && g.cur.rev + M == g.base
      && g.cells[g.base..] == l[g.cur.cut..]
  }

  /** The tape position from which nothing may be overwritten. */
  ghost function Oldest(g: Tape, f: nat, started: bool): nat
    requires f <= |g.spots|
  {
    if f < |g.spots| then g.spots[f].Start()
    else if started then g.cur.Start()
    else |g.cells|
  }

  /** From spot p to the pointer, at tape position len, there are `need` bytes, and one more
      at most if the end of the buffer has been passed on the way. */
  ghost predicate Spans(len: nat, base: nat, p: Spot, need: int) {
    p.Start() + need <= len <= p.Start() + need + if p.rev < base then 1 else 0
  }

  /** The complete lines from number f on, the kept ones, are on the tape in order, after
      position o and within the last two revolutions. */
  ghost predicate Kept(M: nat, cells: seq<char>, base: nat, spots: seq<Spot>, done: seq<seq<char>>, f: nat, o: nat) {
    && |spots| == |done| && f <= |done|
    && (forall d :: f <= d < |done| ==> LineOnTape(M, cells, spots[d], done[d]))
    && (forall d :: f <= d < |done| ==> o <= spots[d].Start() && (spots[d].rev == base || spots[d].rev + M == base))
    && (forall d, d' :: f <= d < d' < |done| ==> spots[d].Start() < spots[d'].Start())
  }

  /** The kept lines with `open` characters of the next one account for the tape since then. */
  ghost predicate Filled(len: nat, base: nat, spots: seq<Spot>, done: seq<seq<char>>, open: nat, f: nat)
    requires |spots| == |done|
  {
    forall d :: f <= d < |done| ==> Spans(len, base, spots[d], Bytes(done, |done|) - Bytes(done, d) + open)
  }

  /** The pointer table t: rows of the kept lines last, empty rows before them; while a line
      is being read the last row is its own. */
  ghost predicate Table(t: seq<Entry>, g: Tape, f: nat, started: bool)
    requires f <= |g.spots|
  {
    var last := |t| - if started then 1 else 0;
    var k := |g.spots| - f;
    && k <= last
    && (forall j :: 0 <= j < last - k ==> t[j] == EMPTY)
    && (forall j :: last - k <= j < last ==> t[j] == g.spots[f + (j - (last - k))].Row())
    && (started ==> t[last] == Entry(if g.cur.cut < 0 then NULL else g.cur.at, NULL))
  }

  /** The line being read, if one is. */
  ghost predicate Current(M: nat, g: Tape, open: seq<char>, f: nat, started: bool, o: nat)
    requires f <= |g.spots|
  {
    && (open != [] ==> started)
    && (started ==> CurOnTape(M, g, open) && o <= g.cur.Start())
    && (started && f < |g.spots| ==> g.spots[|g.spots| - 1].Start() < g.cur.Start())
    && (!started ==> |g.cells| < g.base + M - 1)
  }

  /** The kept lines start where their lengths put them, and so does the next one. */
  ghost predicate OnPlace(M: nat, done: seq<seq<char>>, g: Tape, f: nat, started: bool)
    requires |g.spots| == |done|
  {
    && (forall d :: f <= d < |done| ==> PlaceOf(M, done, d) == Place(g.spots[d].rev, g.spots[d].at))
    && PlaceOf(M, done, |done|) == if started then Place(g.cur.rev, g.cur.at) else Place(g.base, |g.cells| - g.base)
  }

  /** The invariant of the whole pass: complete lines `done` and `open` characters of the
      next line have been read. */
  ghost predicate Inv(b: seq<char>, t: seq<Entry>, done: seq<seq<char>>, open: seq<char>, g: Tape, f: nat,
                      started: bool)
  {
    && |b| >= 2 && |t| >= 1
    && |g.spots| == |done|
    && f == |done| - Min(|done|, |t| - if started then 1 else 0)
    && Kept(|b|, g.cells, g.base, g.spots, done, f, Oldest(g, f, started))
    && Filled(|g.cells|, g.base, g.spots, done, |open|, f)
    && OnPlace(|b|, done, g, f, started)
    && Current(|b|, g, open, f, started, Oldest(g, f, started))
    && Table(t, g, f, started)
    && Window(|b|, |g.cells|, g.base, Oldest(g, f, started))
    && Shows(b, g.cells, g.base, Oldest(g, f, started))
  }

  lemma TapeGrows(M: nat, cells: seq<char>, more: seq<char>, p: Spot, l: seq<char>)
    requires LineOnTape(M, cells, p, l)
    ensures LineOnTape(M, cells + more, p, l)
  {
  }

  lemma KeptGrows(M: nat, cells: seq<char>, base: nat, spots: seq<Spot>, done: seq<seq<char>>, f: nat, o: nat,
                  more: seq<char>)
    requires Kept(M, cells, base, spots, done, f, o)
    ensures Kept(M, cells + more, base, spots, done, f, o)
  {
  }

  lemma KeptLaps(M: nat, cells: seq<char>, base: nat, spots: seq<Spot>, done: seq<seq<char>>, f: nat, o: nat)
    requires Kept(M, cells, base, spots, done, f, o)
    requires forall d :: f <= d < |done| ==> spots[d].rev == base
    ensures Kept(M, cells, base + M, spots, done, f, o)
  {
  }

  lemma FilledGrows(len: nat, base: nat, spots: seq<Spot>, done: seq<seq<char>>, open: nat, f: nat, n: nat)
    requires |spots| == |done|
    requires Filled(len, base, spots, done, open, f)
    ensures Filled(len + n, base, spots, done, open + n, f)
  {
  }

  /** Closing the revolution: at most one byte more, charged to the passing of the end. */
  lemma FilledLaps(M: nat, len: nat, base: nat, spots: seq<Spot>, done: seq<seq<char>>, open: nat, f: nat, extra: nat)
    requires |spots| == |done| && M > 0 && extra <= 1
    requires Filled(len, base, spots, done, open, f)
    requires forall d :: f <= d < |done| ==> spots[d].rev == base
    ensures Filled(len + extra, base + M, spots, done, open, f)
  {
  }

  /** Writing one more byte at the pointer keeps the picture, if that byte is free. */
  lemma ShowsOneMore(b: seq<char>, cells: seq<char>, base: nat, o: nat, c: char)
    requires Window(|b|, |cells|, base, o) && Shows(b, cells, base, o) && |cells| + 1 < base + |b|
    requires |cells| < o + |b|
    ensures Shows(b[|cells| - base := c], cells + [c], base, o)
  {
  }

  /** The same at the last byte of the buffer, from which the pointer goes back to 0. */
  lemma ShowsLap(b: seq<char>, cells: seq<char>, base: nat, o: nat, c: char)
    requires Window(|b|, |cells|, base, o) && Shows(b, cells, base, o) && |cells| + 1 == base + |b|
    requires base <= o
    ensures Shows(b[|b| - 1 := c], cells + [c], base + |b|, o)
  {
  }

  /** Once the pointer is far enough in a revolution, everything kept began in it. */
  lemma NothingOlder(b: seq<char>, t: seq<Entry>, done: seq<seq<char>>, open: seq<char>, g: Tape, f: nat)
    requires Inv(b, t, done, open, g, f, true)
    requires g.base <= Oldest(g, f, true) + 1
    ensures g.base <= Oldest(g, f, true)
    ensures forall d :: f <= d < |g.spots| ==> g.spots[d].rev == g.base
    ensures g.cur.cut < 0 && g.cur.at < |b| - 1
  {
  }

  /** Beginning, cutting and reading on leave the starts of the lines alone. */
  lemma PlacesStay(M: nat, done: seq<seq<char>>, g: Tape, f: nat, started: bool, g': Tape, f': nat)
    requires |g.spots| == |done| && OnPlace(M, done, g, f, started) && f <= f' && g'.spots == g.spots
    requires if started then g'.cur.rev == g.cur.rev && g'.cur.at == g.cur.at
             else g'.cur.rev == g.base && g'.cur.at == |g.cells| - g.base
    ensures OnPlace(M, done, g', f', true)
  {
  }

  lemma KeptNarrows(M: nat, cells: seq<char>, base: nat, spots: seq<Spot>, done: seq<seq<char>>, f: nat, o: nat,
                    f': nat)
    requires Kept(M, cells, base, spots, done, f, o) && f <= f' <= |done|
    ensures Kept(M, cells, base, spots, done, f', if f' < |done| then spots[f'].Start() else |cells|)
    ensures f' < |done| ==> o <= spots[f'].Start() < |cells|
  {
  }

  lemma FilledNarrows(len: nat, base: nat, spots: seq<Spot>, done: seq<seq<char>>, open: nat, f: nat, f': nat)
    requires |spots| == |done|
    requires Filled(len, base, spots, done, open, f) && f <= f'
    ensures Filled(len, base, spots, done, open, f')
  {
  }

  lemma TableShifts(t: seq<Entry>, g: Tape, g': Tape, f: nat, f': nat)
    requires |t| >= 1 && f <= f' <= |g.spots| && Table(t, g, f, false)
    requires f == |g.spots| - Min(|g.spots|, |t|) && f' == |g.spots| - Min(|g.spots|, |t| - 1)
    requires g'.spots == g.spots && g'.cur.cut < 0
    ensures Table(t[1..] + [EMPTY], g', f', true)
  {
  }

  lemma CurrentBegins(M: nat, g: Tape, done: seq<seq<char>>, f: nat, o: nat, f': nat)
    requires Kept(M, g.cells, g.base, g.spots, done, f, o)
    requires Window(M, |g.cells|, g.base, o) && Current(M, g, [], f, false, o) && f <= f' <= |g.spots|
    ensures var g' := g.(cur := Spot(g.base, |g.cells| - g.base, -1));
            Current(M, g', [], f', true, if f' < |done| then g.spots[f'].Start() else |g.cells|)
  {
  }

  lemma ShowsNarrows(b: seq<char>, cells: seq<char>, base: nat, o: nat, o': nat)
    requires Window(|b|, |cells|, base, o) && Shows(b, cells, base, o)
    requires o <= o' <= |cells|
    ensures Shows(b, cells, base, o')
  {
  }

  /** A new line is begun: the table is shifted. */
  lemma BeginLine(b: seq<char>, t: seq<Entry>, done: seq<seq<char>>, g: Tape, f: nat) returns (g': Tape, f': nat)
    requires Inv(b, t, done, [], g, f, false)
    ensures g' == g.(cur := Spot(g.base, |g.cells| - g.base, -1))
    ensures f' <= |g.spots| && Inv(b, t[1..] + [EMPTY], done, [], g', f', true)
  {
    hide Kept, Filled, OnPlace, Current, Table, Shows;
    g' := g.(cur := Spot(g.base, |g.cells| - g.base, -1));
    f' := |done| - Min(|done|, |t| - 1);
    var o, o' := Oldest(g, f, false), Oldest(g', f', true);
    KeptNarrows(|b|, g.cells, g.base, g.spots, done, f, o, f');
    FilledNarrows(|g.cells|, g.base, g.spots, done, 0, f, f');
    PlacesStay(|b|, done, g, f, false, g', f');
    TableShifts(t, g, g', f, f');
    CurrentBegins(|b|, g, done, f, o, f');
    assert Shows(b, g.cells, g.base, o') by { ShowsNarrows(b, g.cells, g.base, o, o'); }
  }

  lemma LastSpot(M: nat, g: Tape, done: seq<seq<char>>, f: nat, o: nat)
    requires Kept(M, g.cells, g.base, g.spots, done, f, o)
    ensures forall d :: f <= d < |done| ==> g.spots[d].Start() < |g.cells|
  {
  }

  lemma TableWraps(t: seq<Entry>, g: Tape, g': Tape, f: nat)
    requires |t| >= 1 && f <= |g.spots| && Table(t, g, f, true)
    requires g.cur.cut < 0 <= g'.cur.cut && g' == Tape(g'.cells, g'.base, g.spots, g.cur.(cut := g'.cur.cut))
    ensures Table(t[|t| - 1 := t[|t| - 1].(head := g.cur.at)], g', f, true)
  {
  }

  lemma CurrentWraps(M: nat, g: Tape, open: seq<char>, f: nat, o: nat)
    requires f <= |g.spots|
    requires Current(M, g, open, f, true, o) && g.cur.cut < 0
    requires |g.cells| == g.base + M - 1
    ensures Current(M, Tape(g.cells + [NUL], g.base + M, g.spots, g.cur.(cut := M - 1 - g.cur.at)), open, f, true, o)
  {
  }

  /** The line reaches the end of the buffer: its first half is closed and entered. */
  lemma WrapLine(b: seq<char>, t: seq<Entry>, done: seq<seq<char>>, open: seq<char>, g: Tape, f: nat) returns (g': Tape)
    requires Inv(b, t, done, open, g, f, true)
    requires |g.cells| == g.base + |b| - 1
    ensures g.cur.cut < 0 && g.cur.at < |b| - 1
    ensures g' == Tape(g.cells + [NUL], g.base + |b|, g.spots, g.cur.(cut := |b| - 1 - g.cur.at))
    ensures Inv(b[|b| - 1 := NUL], t[|t| - 1 := t[|t| - 1].(head := g.cur.at)], done, open, g', f, true)
  {
    hide Kept, Filled, OnPlace, Current, Table, Shows;
    var M := |b|;
    NothingOlder(b, t, done, open, g, f);
    g' := Tape(g.cells + [NUL], g.base + M, g.spots, g.cur.(cut := M - 1 - g.cur.at));
    var o := Oldest(g, f, true);
    ShowsLap(b, g.cells, g.base, o, NUL);
    KeptGrows(M, g.cells, g.base, g.spots, done, f, o, [NUL]);
    KeptLaps(M, g'.cells, g.base, g.spots, done, f, o);
    FilledLaps(M, |g.cells|, g.base, g.spots, done, |open|, f, 1);
    CurrentWraps(M, g, open, f, o);
    PlacesStay(|b|, done, g, f, true, g', f);
    TableWraps(t, g, g', f);
  }

  /** The room test is exact: it passes just when two more bytes may be written. */
  lemma RoomTest(b: seq<char>, t: seq<Entry>, done: seq<seq<char>>, open: seq<char>, g: Tape, f: nat, index: nat)
    requires Inv(b, t, done, open, g, f, true)
    requires |g.cells| < g.base + |b| - 1
    requires index == |t| - Min(|t|, |g.spots| + 1)
    ensures 0 <= index < |t|
    ensures (|g.cells| - g.base != t[index].head && |g.cells| - g.base + 1 != t[index].head)
       <==> |g.cells| + 1 < Oldest(g, f, true) + |b|
  {
    hide Filled, OnPlace, Shows;
    if f < |g.spots| {
      assert t[index] == g.spots[f].Row();
      LastSpot(|b|, g, done, f, Oldest(g, f, true));
      assert LineOnTape(|b|, g.cells, g.spots[f], done[f]);
    }
  }

  lemma TableSame(t: seq<Entry>, g: Tape, g': Tape, f: nat)
    requires |t| >= 1 && f <= |g.spots| && Table(t, g, f, true)
    requires g'.spots == g.spots && g'.cur == g.cur
    ensures Table(t, g', f, true)
  {
  }

  lemma CurGrows(M: nat, g: Tape, open: seq<char>, c: char)
    requires CurOnTape(M, g, open)
    ensures CurOnTape(M, g.(cells := g.cells + [c]), open + [c])
  {
    var cells := g.cells + [c];
    if g.cur.cut < 0 {
      assert cells[g.cur.Start()..] == g.cells[g.cur.Start()..] + [c];
    } else {
      assert cells[g.cur.rev + g.cur.at..g.cur.rev + M] == g.cells[g.cur.rev + g.cur.at..g.cur.rev + M];
      assert (open + [c])[..g.cur.cut] == open[..g.cur.cut];
      assert cells[g.base..] == g.cells[g.base..] + [c];
      assert (open + [c])[g.cur.cut..] == open[g.cur.cut..] + [c];
    }
  }

  lemma CurrentGrows(M: nat, g: Tape, open: seq<char>, f: nat, o: nat, c: char)
    requires f <= |g.spots|
    requires Current(M, g, open, f, true, o)
    ensures Current(M, g.(cells := g.cells + [c]), open + [c], f, true, o)
  {
    CurGrows(M, g, open, c);
  }

  /** An ordinary character is stored. */
  lemma PutChar(b: seq<char>, t: seq<Entry>, done: seq<seq<char>>, open: seq<char>, g: Tape, f: nat, c: char)
    returns (g': Tape)
    requires Inv(b, t, done, open, g, f, true)
    requires |g.cells| < g.base + |b| - 1
    requires |g.cells| < Oldest(g, f, true) + |b|
    ensures g' == g.(cells := g.cells + [c])
    ensures Inv(b[|g.cells| - g.base := c], t, done, open + [c], g', f, true)
  {
    hide Kept, Filled, OnPlace, Current, Table, Shows;
    g' := g.(cells := g.cells + [c]);
    var o := Oldest(g, f, true);
    ShowsOneMore(b, g.cells, g.base, o, c);
    KeptGrows(|b|, g.cells, g.base, g.spots, done, f, o, [c]);
    FilledGrows(|g.cells|, g.base, g.spots, done, |open|, f, 1);
    CurrentGrows(|b|, g, open, f, o, c);
    PlacesStay(|b|, done, g, f, true, g', f);
    TableSame(t, g, g', f);
  }

  /** The tape and the buffer after a line's closing NUL: the pointer has moved by one byte,
      and to offset 0 when at most one byte is left; that byte, if any, is passed over. */
  ghost function Closed(b: seq<char>, g: Tape): Tape
    requires |b| >= 1
  {
    var room := g.base + |b| - |g.cells|;
    if room > 2 then Tape(g.cells + [NUL], g.base, g.spots + [g.cur], g.cur)
    else if room == 2 then Tape(g.cells + [NUL] + [b[|b| - 1]], g.base + |b|, g.spots + [g.cur], g.cur)
    else Tape(g.cells + [NUL], g.base + |b|, g.spots + [g.cur], g.cur)
  }

  /** All that the closing NUL does to the tape and the buffer. */
  ghost predicate ClosedWell(b: seq<char>, done: seq<seq<char>>, open: seq<char>, g: Tape, g': Tape, f: nat, o: nat)
    requires |g.spots| == |done|
  {
    && Kept(|b|, g'.cells, g'.base, g.spots, done, f, o)
    && Filled(|g'.cells|, g'.base, g.spots, done, |open| + 1, f)
    && LineOnTape(|b|, g'.cells, g.cur, open)
    && Spans(|g'.cells|, g'.base, g.cur, |open| + 1)
    && (g.cur.rev == g'.base || g.cur.rev + |b| == g'.base)
    && Window(|b|, |g'.cells|, g'.base, o)
    && Shows(b, g'.cells, g'.base, o)
  }

  /** What the line being read contributes when it is closed. */
  lemma CurrentLine(M: nat, g: Tape, open: seq<char>, f: nat, o: nat)
    requires f <= |g.spots| && Window(M, |g.cells|, g.base, o) && g.base < |g.cells|
    requires Current(M, g, open, f, true, o)
    requires g.cur.cut >= 0 ==> |g.cells| < o + M
    ensures LineOnTape(M, g.cells + [NUL], g.cur, open)
    ensures Spans(|g.cells| + 1, g.base, g.cur, |open| + 1)
    ensures g.cur.rev == g.base || g.cur.rev + M == g.base
    ensures o <= g.cur.Start()
    ensures f < |g.spots| ==> g.spots[|g.spots| - 1].Start() < g.cur.Start()
  {
  }

  /** More than two bytes are left. */
  lemma CloseWithin(b: seq<char>, t: seq<Entry>, done: seq<seq<char>>, open: seq<char>, g: Tape, f: nat)
    requires Inv(b, t, done, open, g, f, true)
    requires g.base < |g.cells| < Oldest(g, f, true) + |b|
    requires |g.cells| < g.base + |b| - 2
    ensures ClosedWell(b[|g.cells| - g.base := NUL], done, open, g, Closed(b, g), f, Oldest(g, f, true))
  {
    hide Kept, Filled, OnPlace, Current, Table, Shows, CurOnTape, LineOnTape, Bytes;
    var M, o := |b|, Oldest(g, f, true);
    CurrentLine(M, g, open, f, o);
    KeptGrows(M, g.cells, g.base, g.spots, done, f, o, [NUL]);
    FilledGrows(|g.cells|, g.base, g.spots, done, |open|, f, 1);
    ShowsOneMore(b, g.cells, g.base, o, NUL);
  }

  /** One byte is left over. */
  lemma CloseSkipping(b: seq<char>, t: seq<Entry>, done: seq<seq<char>>, open: seq<char>, g: Tape, f: nat)
    requires Inv(b, t, done, open, g, f, true)
    requires g.base < |g.cells| < Oldest(g, f, true) + |b|
    requires |g.cells| == g.base + |b| - 2
    ensures ClosedWell(b[|g.cells| - g.base := NUL], done, open, g, Closed(b, g), f, Oldest(g, f, true))
  {
    hide Kept, Filled, OnPlace, Current, Table, Shows, CurOnTape, LineOnTape, Bytes;
    var M, o := |b|, Oldest(g, f, true);
    var b' := b[|g.cells| - g.base := NUL];
    CurrentLine(M, g, open, f, o);
    NothingOlder(b, t, done, open, g, f);
    KeptGrows(M, g.cells, g.base, g.spots, done, f, o, [NUL]);
    KeptLaps(M, g.cells + [NUL], g.base, g.spots, done, f, o);
    KeptGrows(M, g.cells + [NUL], g.base + M, g.spots, done, f, o, [b[M - 1]]);
    FilledGrows(|g.cells|, g.base, g.spots, done, |open|, f, 1);
    FilledLaps(M, |g.cells| + 1, g.base, g.spots, done, |open| + 1, f, 1);
    ShowsOneMore(b, g.cells, g.base, o, NUL);
    assert b'[M - 1] == b[M - 1] && b'[M - 1 := b[M - 1]] == b';
    ShowsLap(b', g.cells + [NUL], g.base, o, b[M - 1]);
    TapeGrows(M, g.cells + [NUL], [b[M - 1]], g.cur, open);
  }

  /** The NUL is the last byte. */
  lemma CloseAtEnd(b: seq<char>, t: seq<Entry>, done: seq<seq<char>>, open: seq<char>, g: Tape, f: nat)
    requires Inv(b, t, done, open, g, f, true)
    requires g.base < |g.cells| < Oldest(g, f, true) + |b|
    requires |g.cells| == g.base + |b| - 1
    ensures ClosedWell(b[|g.cells| - g.base := NUL], done, open, g, Closed(b, g), f, Oldest(g, f, true))
  {
    hide Kept, Filled, OnPlace, Current, Table, Shows, CurOnTape, LineOnTape, Bytes;
    var M, o := |b|, Oldest(g, f, true);
    CurrentLine(M, g, open, f, o);
    NothingOlder(b, t, done, open, g, f);
    KeptGrows(M, g.cells, g.base, g.spots, done, f, o, [NUL]);
    KeptLaps(M, g.cells + [NUL], g.base, g.spots, done, f, o);
    FilledGrows(|g.cells|, g.base, g.spots, done, |open|, f, 1);
    FilledLaps(M, |g.cells| + 1, g.base, g.spots, done, |open| + 1, f, 0);
    ShowsLap(b, g.cells, g.base, o, NUL);
  }

  lemma CloseTape(b: seq<char>, t: seq<Entry>, done: seq<seq<char>>, open: seq<char>, g: Tape, f: nat)
    requires Inv(b, t, done, open, g, f, true)
    requires g.base < |g.cells| < Oldest(g, f, true) + |b|
    ensures ClosedWell(b[|g.cells| - g.base := NUL], done, open, g, Closed(b, g), f, Oldest(g, f, true))
  {
    hide Kept, Filled, OnPlace, Current, Table, Shows, ClosedWell, Closed;
    if |g.cells| < g.base + |b| - 2 {
      CloseWithin(b, t, done, open, g, f);
    } else if |g.cells| == g.base + |b| - 2 {
      CloseSkipping(b, t, done, open, g, f);
    } else {
      CloseAtEnd(b, t, done, open, g, f);
    }
  }

  lemma KeptAdds(M: nat, cells: seq<char>, base: nat, spots: seq<Spot>, done: seq<seq<char>>, f: nat, o: nat,
                 p: Spot, l: seq<char>)
    requires Kept(M, cells, base, spots, done, f, o)
    requires LineOnTape(M, cells, p, l) && o <= p.Start() && (p.rev == base || p.rev + M == base)
    requires f < |spots| ==> spots[|spots| - 1].Start() < p.Start()
    ensures Kept(M, cells, base, spots + [p], done + [l], f, o)
  {
  }

  lemma FilledAdds(len: nat, base: nat, spots: seq<Spot>, done: seq<seq<char>>, f: nat, p: Spot, l: seq<char>)
    requires |spots| == |done| && f <= |done|
    requires Filled(len, base, spots, done, |l| + 1, f)
    requires Spans(len, base, p, |l| + 1)
    ensures Filled(len, base, spots + [p], done + [l], 0, f)
  {
    var spots', done' := spots + [p], done + [l];
    BytesOfPrefix(done, done', |done|);
    forall d | f <= d < |done'|
      ensures Spans(len, base, spots'[d], Bytes(done', |done'|) - Bytes(done', d) + 0)
    {
      if d < |done| {
        BytesOfPrefix(done, done', d);
        assert Spans(len, base, spots[d], Bytes(done, |done|) - Bytes(done, d) + (|l| + 1));
      }
    }
  }

  lemma PlaceAfter(M: nat, ls: seq<seq<char>>, n: nat)
    requires n < |ls|
    ensures PlaceOf(M, ls, n + 1) == NextPlace(M, PlaceOf(M, ls, n), |ls[n]|)
  {
  }

  /** A closed line has the place it was begun at, and the next one starts behind it. */
  lemma PlacesNext(b: seq<char>, done: seq<seq<char>>, open: seq<char>, g: Tape, f: nat, o: nat)
    requires |b| >= 2 && |g.spots| == |done| && f <= |done| && OnPlace(|b|, done, g, f, true)
    requires Current(|b|, g, open, f, true, o) && g.base < |g.cells| < g.base + |b|
    requires g.cur.cut >= 0 ==> |g.cells| < g.base + |b| - 1
    ensures OnPlace(|b|, done + [open], Closed(b, g), f, false)
  {
    hide PlaceOf;
    var done', g' := done + [open], Closed(b, g);
    forall d | f <= d < |done'|
      ensures PlaceOf(|b|, done', d) == Place(g'.spots[d].rev, g'.spots[d].at)
    {
      PlaceOfPrefix(|b|, done, done', d);
    }
    PlaceOfPrefix(|b|, done, done', |done|);
    PlaceAfter(|b|, done', |done|);
  }

  lemma TableEnds(t: seq<Entry>, g: Tape, g': Tape, f: nat)
    requires |t| >= 1 && f <= |g.spots| && Table(t, g, f, true)
    requires g'.spots == g.spots + [g.cur]
    ensures Table(t[|t| - 1 := g.cur.Row()], g', f, false)
  {
  }

  lemma CurrentEnds(M: nat, g: Tape, f: nat, o: nat)
    requires f < |g.spots|
    requires g.base <= |g.cells| < g.base + M - 1
    ensures Current(M, g, [], f, false, o)
  {
  }

  /** The line is closed by a NUL and entered in the table. */
  lemma EndLine(b: seq<char>, t: seq<Entry>, done: seq<seq<char>>, open: seq<char>, g: Tape, f: nat) returns (g': Tape)
    requires Inv(b, t, done, open, g, f, true) && open != []
    requires g.base < |g.cells| < Oldest(g, f, true) + |b|
    ensures g' == Closed(b, g)
    ensures Inv(b[|g.cells| - g.base := NUL], t[|t| - 1 := g.cur.Row()], done + [open], [], g', f, false)
  {
    hide Kept, Filled, OnPlace, Current, Table, Shows, CurOnTape, LineOnTape, Spans, Bytes;
    var M, o := |b|, Oldest(g, f, true);
    g' := Closed(b, g);
    CurrentLine(M, g, open, f, o);
    CloseTape(b, t, done, open, g, f);
    KeptAdds(M, g'.cells, g'.base, g.spots, done, f, o, g.cur, open);
    FilledAdds(|g'.cells|, g'.base, g.spots, done, f, g.cur, open);
    PlacesNext(b, done, open, g, f, o);
    TableEnds(t, g, g', f);
    CurrentEnds(M, g', f, o);
  }

  /** The table t shows the last lines of ls in order, one a row, after empty rows. */
  ghost predicate TableShows(b: seq<char>, t: seq<Entry>, ls: seq<seq<char>>) {
    forall j :: 0 <= j < |t| ==>
      var i := |ls| - |t| + j;
      if i < 0 then t[j] == EMPTY else Placed(b, t[j], ls[i])
  }

  /** The same, read with C strings. */
  ghost predicate TableReads(b: seq<char>, t: seq<Entry>, ls: seq<seq<char>>) {
    forall j :: 0 <= j < |t| ==>
      var i := |ls| - |t| + j;
      if i < 0 then t[j] == EMPTY
      else t[j].head >= 0 && t[j].rest >= NULL && ReadEntry(b, t[j]) == ls[i]
  }

  lemma ShownReads(b: seq<char>, t: seq<Entry>, ls: seq<seq<char>>)
    requires TableShows(b, t, ls)
    requires forall l :: l in ls ==> NUL !in l
    ensures TableReads(b, t, ls)
  {
    forall j | 0 <= j < |t| && |ls| - |t| + j >= 0
      ensures t[j].head >= 0 && t[j].rest >= NULL && ReadEntry(b, t[j]) == ls[|ls| - |t| + j]
    {
      PlacedReadsBack(b, t[j], ls[|ls| - |t| + j]);
    }
  }

  /** A line on the tape that the buffer still shows is placed in the buffer. */
  lemma ShownIsPlaced(b: seq<char>, cells: seq<char>, base: nat, o: nat, p: Spot, l: seq<char>)
    requires Window(|b|, |cells|, base, o) && Shows(b, cells, base, o)
    requires LineOnTape(|b|, cells, p, l)
    requires o <= p.Start() && (p.rev == base || p.rev + |b| == base)
    ensures Placed(b, p.Row(), l)
  {
  }

  lemma TableRowsShow(b: seq<char>, t: seq<Entry>, done: seq<seq<char>>, g: Tape, f: nat, started: bool)
    requires |t| >= 1 && |g.spots| == |done| && f <= |done| && Table(t, g, f, started)
    requires f == |done| - Min(|done|, |t| - if started then 1 else 0)
    requires forall d :: f <= d < |done| ==> Placed(b, g.spots[d].Row(), done[d])
    ensures TableShows(b, t[..|t| - if started then 1 else 0], done)
  {
    hide Placed;
  }

  /** Safety at every step: no byte of a complete line still in the table is lost. */
  lemma CompleteLinesSafe(b: seq<char>, t: seq<Entry>, done: seq<seq<char>>, open: seq<char>, g: Tape, f: nat,
                          started: bool)
    requires Inv(b, t, done, open, g, f, started)
    ensures TableShows(b, t[..|t| - if started then 1 else 0], done)
  {
    hide Filled, OnPlace, Current, Shows, LineOnTape, Placed;
    forall d | f <= d < |done| ensures Placed(b, g.spots[d].Row(), done[d]) {
      ShownIsPlaced(b, g.cells, g.base, Oldest(g, f, started), g.spots[d], done[d]);
    }
    hide Kept;
    TableRowsShow(b, t, done, g, f, started);
  }

  /** Between lines, the last lines fit in the buffer together. */
  lemma LastWindow(b: seq<char>, t: seq<Entry>, done: seq<seq<char>>, g: Tape, f: nat)
    requires Inv(b, t, done, [], g, f, false)
    ensures WindowBytes(done, |t|, |done|) <= |b|
  {
  }

  lemma WindowsExtend(ls: seq<seq<char>>, l: seq<char>, n: nat, cap: nat)
    requires WindowsWithin(ls, n, cap)
    requires WindowBytes(ls + [l], n, |ls| + 1) <= cap
    ensures WindowsWithin(ls + [l], n, cap)
  {
    hide Bytes;
    var ms := ls + [l];
    forall x | 0 <= x <= |ls| ensures WindowBytes(ms, n, x) <= cap {
      assert WindowBytes(ls, n, x) <= cap;
      BytesOfPrefix(ls, ms, x);
      BytesOfPrefix(ls, ms, x - Min(n, x));
    }
  }

  /** ... in terms of where the lines come to lie. */
  lemma NoRoomAt(M: nat, n: nat, g: Tape, done: seq<seq<char>>, open: seq<char>, f: nat, all: seq<seq<char>>)
    requires n >= 1 && |g.spots| == |done| && f == |done| - Min(|done|, n - 1) && OnPlace(M, done, g, f, true)
    requires Current(M, g, open, f, true, Oldest(g, f, true))
    requires |g.cells| < g.base + M - 1 && |g.cells| + 1 >= Oldest(g, f, true) + M
    requires done <= all && |done| < |all| && |all[|done|]| > |open|
    ensures !RoomAt(M, n, all, |done|)
  {
    hide PlaceOf;
    PlaceOfPrefix(M, done, all, |done|);
    PlaceOfPrefix(M, done, all, f);
    assert |done| + 1 - Min(n, |done| + 1) == f;
  }

  lemma BytesNext(ls: seq<seq<char>>, n: nat)
    requires n < |ls|
    ensures Bytes(ls, n + 1) == Bytes(ls, n) + |ls[n]| + 1
  {
  }

  /** The lines kept and the line being read account for the tape since the oldest byte. */
  lemma SinceOldest(M: nat, g: Tape, done: seq<seq<char>>, open: seq<char>, f: nat)
    requires |g.spots| == |done| && f <= |done|
    requires Kept(M, g.cells, g.base, g.spots, done, f, Oldest(g, f, true))
    requires Filled(|g.cells|, g.base, g.spots, done, |open|, f)
    requires Current(M, g, open, f, true, Oldest(g, f, true))
    ensures var (o, need) := (Oldest(g, f, true), Bytes(done, |done|) - Bytes(done, f) + |open|);
            o + need <= |g.cells| <= o + need + 1 && (o >= g.base ==> |g.cells| == o + need)
  {
  }

  /** The line that character i belongs to is longer than its part before i. */
  lemma NextLine(input: seq<char>, i: nat)
    requires i < |input|
    ensures var (done, all) := (Complete(input[..i]), Lines(input));
            done <= all && |done| < |all| && |all[|done|]| > |Open(input[..i])|
  {
    hide Complete, Open;
    PrefixLines(input, i);
    PrefixLines(input, i + 1);
    Extend(input[..i], input[i]);
    assert input[..i + 1] == input[..i] + [input[i]];
    var done := Complete(input[..i]);
    if input[i] == '\n' {
      assert Complete(input[..i + 1])[|done|] == Open(input[..i]) + ['\n'];
    }
  }

  /** When the room test fails, the line being read does not fit with the lines kept. */
  lemma NoRoom(b: seq<char>, t: seq<Entry>, input: seq<char>, i: nat, g: Tape, f: nat)
    requires i < |input|
    requires Inv(b, t, Complete(input[..i]), Open(input[..i]), g, f, true)
    requires |g.cells| < g.base + |b| - 1
    requires |g.cells| + 1 >= Oldest(g, f, true) + |b|
    ensures !WindowsWithin(Lines(input), |t|, |b| - 1)
    ensures !RoomFor(|b|, |t|, Lines(input))
  {
    hide Table, Shows, Kept, Filled, OnPlace, Current, CurOnTape, Complete, Open, Bytes, RoomAt;
    var done, open, all := Complete(input[..i]), Open(input[..i]), Lines(input);
    NextLine(input, i);
    var x := |done| + 1;
    BytesOfPrefix(done, all, |done|);
    BytesOfPrefix(done, all, f);
    BytesNext(all, |done|);
    SinceOldest(|b|, g, done, open, f);
    assert WindowBytes(all, |t|, x) > |b| - 1;
    NoRoomAt(|b|, |t|, g, done, open, f, all);
  }

  /** Between lines, the last line ends within a revolution of the oldest one kept. */
  lemma LastRoom(b: seq<char>, t: seq<Entry>, done: seq<seq<char>>, g: Tape, f: nat)
    requires Inv(b, t, done, [], g, f, false) && done != []
    ensures RoomAt(|b|, |t|, done, |done| - 1)
  {
    hide PlaceOf, Filled, Current, Table, Shows;
    var d := |done| - 1;
    assert LineOnTape(|b|, g.cells, g.spots[d], done[d]);
    assert d + 1 - Min(|t|, d + 1) == f;
  }

  lemma RoomExtends(M: nat, n: nat, ls: seq<seq<char>>, l: seq<char>)
    requires RoomFor(M, n, ls) && RoomAt(M, n, ls + [l], |ls|)
    ensures RoomFor(M, n, ls + [l])
  {
    hide PlaceOf;
    var ms := ls + [l];
    forall d | 0 <= d < |ls| ensures RoomAt(M, n, ms, d) {
      assert RoomAt(M, n, ls, d);
      PlaceOfPrefix(M, ls, ms, d);
      PlaceOfPrefix(M, ls, ms, d + 1 - Min(n, d + 1));
    }
  }

  /** What has found room so far: in terms of places, and of bytes. */
  ghost predicate HadRoom(M: nat, n: nat, ls: seq<seq<char>>) {
    RoomFor(M, n, ls) && WindowsWithin(ls, n, M)
  }

  lemma RoomStays(b: seq<char>, t: seq<Entry>, done: seq<seq<char>>, l: seq<char>, g: Tape, f: nat)
    requires Inv(b, t, done + [l], [], g, f, false) && HadRoom(|b|, |t|, done)
    ensures HadRoom(|b|, |t|, done + [l])
  {
    hide Inv, WindowsWithin, RoomFor, RoomAt, Bytes;
    LastWindow(b, t, done + [l], g, f);
    WindowsExtend(done, l, |t|, |b|);
    LastRoom(b, t, done + [l], g, f);
    RoomExtends(|b|, |t|, done, l);
  }

  /** The source's pointers, as offsets, against the tape. */
  ghost predicate Pointers(g: Tape, started: bool, buffp: int, linestart: int, wrap: int) {
    && buffp == |g.cells| - g.base
    && (wrap == 0 || wrap == 1)
    && if started then
         (wrap == 1 <==> g.cur.cut >= 0) && linestart == if wrap == 1 then 0 else g.cur.at
       else
         wrap == 0 && linestart == buffp
  }

  lemma RoomHad(M: nat, n: nat, ls: seq<seq<char>>)
    requires HadRoom(M, n, ls)
    ensures WindowsWithin(ls, n, M) && RoomFor(M, n, ls)
  {
  }

  lemma RoomTestIndex(done: nat, nlines: nat)
    requires nlines >= 1
    ensures 0 <= nlines - Min(nlines, done + 1) < nlines
  {
  }

  /** The table and the buffer after the end of the stream. */
  lemma FinalTable(b: seq<char>, t: seq<Entry>, input: seq<char>, g: Tape, f: nat)
    requires Inv(b, t, Complete(input), Open(input), g, f, Open(input) != [])
    requires HadRoom(|b|, |t|, Complete(input))
    requires Open(input) != [] ==> g.base < |g.cells| < Oldest(g, f, true) + |b|
    ensures HadRoom(|b|, |t|, Lines(input))
    ensures if Open(input) == [] then TableShows(b, t, Lines(input))
            else TableShows(b[|g.cells| - g.base := NUL], t[|t| - 1 := g.cur.Row()], Lines(input))
  {
    hide Kept, Filled, OnPlace, Current, Table, Shows, LineOnTape, Complete, Open, TableShows, HadRoom, Bytes;
    var done, open := Complete(input), Open(input);
    if open == [] {
      assert t[..|t|] == t && Lines(input) == done;
      CompleteLinesSafe(b, t, done, [], g, f, false);
    } else {
      var b', t' := b[|g.cells| - g.base := NUL], t[|t| - 1 := g.cur.Row()];
      var g' := EndLine(b, t, done, open, g, f);
      assert t'[..|t'|] == t';
      CompleteLinesSafe(b', t', done + [open], [], g', f, false);
      RoomStays(b', t', done, open, g', f);
    }
  }

  lemma EmptyStream(s: seq<char>, n: nat, cap: nat)
    requires s == []
    ensures Complete(s) == [] && Open(s) == [] && HadRoom(cap, n, Complete(s))
  {
  }

  /** The row of the line being read. */
  lemma OwnRow(t: seq<Entry>, g: Tape, f: nat)
    requires |t| >= 1 && f <= |g.spots| && Table(t, g, f, true)
    ensures t[|t| - 1] == Entry(if g.cur.cut < 0 then NULL else g.cur.at, NULL)
  {
  }

  lemma InitialInv(b: seq<char>, t: seq<Entry>)
    requires |b| >= 2 && |t| >= 1
    requires forall j :: 0 <= j < |t| ==> t[j] == EMPTY
    ensures Inv(b, t, [], [], Tape([], 0, [], Spot(0, 0, -1)), 0, false)
  {
  }

  /** The source's test for a new line is exact. */
  lemma AtLineStart(b: seq<char>, t: seq<Entry>, done: seq<seq<char>>, open: seq<char>, g: Tape, f: nat,
                    buffp: int, linestart: int, wrap: int)
    requires Inv(b, t, done, open, g, f, open != [])
    requires Pointers(g, open != [], buffp, linestart, wrap)
    ensures buffp == linestart && wrap == 0 <==> open == []
  {
  }

  /** What has been read has had room. */
  lemma RoomSoFar(b: seq<char>, t: seq<Entry>, input: seq<char>, g: Tape, f: nat)
    requires Inv(b, t, Complete(input), Open(input), g, f, Open(input) != [])
    requires HadRoom(|b|, |t|, Complete(input))
    requires Open(input) != [] ==> g.base < |g.cells| < Oldest(g, f, true) + |b|
    ensures RoomFor(|b|, |t|, Lines(input))
  {
    hide Inv, Complete, Open, TableShows, HadRoom, RoomFor, WindowsWithin;
    FinalTable(b, t, input, g, f);
    RoomHad(|b|, |t|, Lines(input));
  }

  method Shift(lines: array<Entry>)
    requires lines.Length >= 1
    modifies lines
    ensures lines[..] == old(lines[1..]) + [EMPTY]
  {
    var i := 0;
    while i < lines.Length - 1
      invariant 0 <= i <= lines.Length - 1
      invariant forall j :: 0 <= j < i ==> lines[j] == old(lines[j + 1])
      invariant forall j :: i <= j < lines.Length ==> lines[j] == old(lines[j])
    {
      lines[i] := lines[i + 1];
      i := i + 1;
    }
    lines[lines.Length - 1] := EMPTY;
  }

  method TestForRoom(lines: array<Entry>, index: nat, buffp: nat) returns (room: bool)
    requires index < lines.Length
    ensures room <==> buffp != lines[index].head && buffp + 1 != lines[index].head
  {
    room := !(buffp == lines[index].head || buffp + 1 == lines[index].head);
  }

  /** The line being read is entered in its row: the first pointer, or the second once it has
      gone round the end of the buffer. */
  method Enter(lines: array<Entry>, wrap: int, linestart: nat)
    requires lines.Length >= 1
    modifies lines
    ensures var (t, n) := (old(lines[..]), lines.Length);
            lines[..] == t[n - 1 := if wrap == 0 then t[n - 1].(head := linestart) else t[n - 1].(rest := linestart)]
  {
    var n := lines.Length;
    lines[n - 1] := if wrap == 0 then lines[n - 1].(head := linestart) else lines[n - 1].(rest := linestart);
  }

  /** The first part of the loop body: begin a line, go round the end of the buffer. */
  method Advance(lines: array<Entry>, buff: array<char>, nfound0: nat, buffp0: nat, linestart0: nat, wrap0: nat,
                 ghost done: seq<seq<char>>, ghost open: seq<char>, ghost g0: Tape, ghost f0: nat)
    returns (nfound: nat, buffp: nat, linestart: nat, wrap: nat, ghost g: Tape, ghost f: nat)
    requires Inv(buff[..], lines[..], done, open, g0, f0, open != [])
    requires Pointers(g0, open != [], buffp0, linestart0, wrap0)
    requires nfound0 == Min(lines.Length, |done| + if open != [] then 1 else 0)
    modifies lines, buff
    ensures Inv(buff[..], lines[..], done, open, g, f, true)
    ensures Pointers(g, true, buffp, linestart, wrap)
    ensures nfound == Min(lines.Length, |done| + 1) && buffp < buff.Length - 1
    ensures g.spots == g0.spots
  {
    hide Kept, Filled, OnPlace, Current, Table, Shows;
    nfound, buffp, linestart, wrap, g, f := nfound0, buffp0, linestart0, wrap0, g0, f0;
    AtLineStart(buff[..], lines[..], done, open, g, f, buffp, linestart, wrap);
    if buffp == linestart && wrap == 0 {
      if nfound < lines.Length {
        nfound := nfound + 1;
      }
      g, f := BeginLine(buff[..], lines[..], done, g, f);
      Shift(lines);
    }
    if buffp == buff.Length - 1 {
      g := WrapLine(buff[..], lines[..], done, open, g, f);
      buff[buffp] := NUL;
      Enter(lines, 0, linestart);
      wrap := 1;
      linestart, buffp := 0, 0;
    }
  }

  /** The last part of the loop body: store the character, and close the line after a newline. */
  method Store(c: char, lines: array<Entry>, buff: array<char>, buffp0: nat, linestart0: nat, wrap0: nat,
               ghost done: seq<seq<char>>, ghost open: seq<char>, ghost g0: Tape, ghost f: nat)
    returns (buffp: nat, linestart: nat, wrap: nat, ghost g: Tape)
    requires Inv(buff[..], lines[..], done, open, g0, f, true)
    requires Pointers(g0, true, buffp0, linestart0, wrap0)
    requires buffp0 < buff.Length - 1
    requires |g0.cells| + 1 < Oldest(g0, f, true) + buff.Length
    modifies lines, buff
    ensures if c == '\n' then Inv(buff[..], lines[..], done + [open + [c]], [], g, f, false)
            else Inv(buff[..], lines[..], done, open + [c], g, f, true)
    ensures Pointers(g, c != '\n', buffp, linestart, wrap)
    ensures |g.spots| == |g0.spots| + if c == '\n' then 1 else 0
    ensures c != '\n' ==>
        |g.cells| < Oldest(g, f, true) + buff.Length && 0 < buffp <= buff.Length && buff[buffp - 1] == c
    ensures c == '\n' ==> buffp == 0 || (buffp <= buff.Length && buff[buffp - 1] == NUL)
  {
    hide Kept, Filled, OnPlace, Current, Table, Shows;
    buffp, linestart, wrap := buffp0, linestart0, wrap0;
    g := PutChar(buff[..], lines[..], done, open, g0, f, c);
    buff[buffp] := c;
    buffp := buffp + 1;
    if c == '\n' {
      OwnRow(lines[..], g, f);
      g := EndLine(buff[..], lines[..], done, open + [c], g, f);
      buff[buffp] := NUL;
      buffp := buffp + 1;
      Enter(lines, wrap, linestart);
      wrap := 0;
      if buffp >= buff.Length - 1 {
        buffp := 0;
      }
      linestart := buffp;
    }
  }

  method ClearTable(lines: array<Entry>)
    modifies lines
    ensures forall j :: 0 <= j < lines.Length ==> lines[j] == EMPTY
  {
    var i := 0;
    while i < lines.Length
      invariant 0 <= i <= lines.Length
      invariant forall j :: 0 <= j < i ==> lines[j] == EMPTY
    {
      lines[i] := EMPTY;
      i := i + 1;
    }
  }

  /** The row and the bytes of a line that has been begun at offset `at` and not been entered:
      until it has gone round the end of the buffer its row is empty; from then on the row has
      its first half, closed by a NUL, and no second one. */
  ghost predicate Unfinished(b: seq<char>, e: Entry, at: int, open: seq<char>, round: bool) {
    && 0 <= at < |b| - 1 && e.rest == NULL
    && var cut := |b| - 1 - at;
       if round then
         && cut <= |open| < cut + |b|
         && e.head == at && b[at..] == open[..cut] + [NUL] && b[..|open| - cut] == open[cut..]
       else |open| <= cut && e.head == NULL && b[at..at + |open|] == open
  }

  /** The last complete lines are in the table, and the line begun behind them is unfinished. */
  ghost predicate LeftOpen(b: seq<char>, t: seq<Entry>, done: seq<seq<char>>, open: seq<char>, round: bool) {
    && t != [] && TableShows(b, t[..|t| - 1], done)
    && Unfinished(b, t[|t| - 1], PlaceOf(|b|, done, |done|).at, open, round)
  }

  /** The line begun behind `done`, with `open` characters and `more` of them to come, reaches
      past the last byte but one of a buffer of M bytes. */
  ghost predicate GoneRound(M: nat, done: seq<seq<char>>, open: seq<char>, more: nat) {
    PlaceOf(M, done, |done|).at + |open| + more > M - 1
  }

  /** What the buffer shows of the line being read. */
  lemma OpenShown(b: seq<char>, g: Tape, open: seq<char>, o: nat)
    requires Window(|b|, |g.cells|, g.base, o) && Shows(b, g.cells, g.base, o)
    requires CurOnTape(|b|, g, open) && o <= g.cur.Start() && g.cur.cut < 0
    ensures g.cur.at + |open| == |g.cells| - g.base
    ensures b[g.cur.at..g.cur.at + |open|] == open
  {
    forall i | 0 <= i < |open| ensures b[g.cur.at + i] == open[i] {
      assert g.cells[g.cur.Start()..][i] == open[i];
      assert b[Phys(|b|, g.base, g.cur.Start() + i)] == g.cells[g.cur.Start() + i];
    }
  }

  lemma OpenHalvesShown(b: seq<char>, g: Tape, open: seq<char>, o: nat)
    requires Window(|b|, |g.cells|, g.base, o) && Shows(b, g.cells, g.base, o)
    requires CurOnTape(|b|, g, open) && o <= g.cur.Start() && g.cur.cut >= 0
    ensures g.cur.at + |open| == |b| - 1 + |g.cells| - g.base && g.cur.cut == |b| - 1 - g.cur.at
    ensures b[g.cur.at..] == open[..g.cur.cut] + [NUL] && b[..|open| - g.cur.cut] == open[g.cur.cut..]
  {
    var cut, at := g.cur.cut, g.cur.at;
    assert |g.cells| == g.base + |open| - cut;
    forall i | 0 <= i <= cut ensures b[at + i] == (open[..cut] + [NUL])[i] {
      assert g.cells[g.cur.rev + at..g.cur.rev + |b|][i] == (open[..cut] + [NUL])[i];
      assert b[Phys(|b|, g.base, g.cur.Start() + i)] == g.cells[g.cur.Start() + i];
    }
    forall i | 0 <= i < |open| - cut ensures b[i] == open[cut..][i] {
      assert g.cells[g.base..][i] == open[cut..][i];
      assert b[Phys(|b|, g.base, g.base + i)] == g.cells[g.base + i];
    }
  }

  lemma AtInBuffer(M: nat, g: Tape, open: seq<char>)
    requires CurOnTape(M, g, open)
    ensures 0 <= g.cur.at < M - 1 && g.cur.cut <= |open|
  {
  }

  lemma UnfinishedRow(b: seq<char>, t: seq<Entry>, done: seq<seq<char>>, open: seq<char>, g: Tape, f: nat)
    requires Inv(b, t, done, open, g, f, true)
    ensures var at := PlaceOf(|b|, done, |done|).at;
            && Unfinished(b, t[|t| - 1], at, open, g.cur.cut >= 0)
            && at + |open| == |g.cells| - g.base + if g.cur.cut >= 0 then |b| - 1 else 0
  {
    hide Kept, Filled, PlaceOf, Shows, Table, HeadOnTape;
    OwnRow(t, g, f);
    if g.cur.cut < 0 {
      OpenShown(b, g, open, Oldest(g, f, true));
    } else {
      OpenHalvesShown(b, g, open, Oldest(g, f, true));
      AtInBuffer(|b|, g, open);
    }
  }

  /** The end of the stream: a last line without a newline is closed and entered, unless it ends
      in a NUL. The outcome of the room test is ignored, and the byte written is free all the same. */
  method Finish(input: seq<char>, lines: array<Entry>, buff: array<char>, nfound: nat, buffp: nat, linestart: nat,
                wrap: nat, ghost g: Tape, ghost f: nat)
    requires Inv(buff[..], lines[..], Complete(input), Open(input), g, f, Open(input) != [])
    requires Pointers(g, Open(input) != [], buffp, linestart, wrap)
    requires nfound == Min(lines.Length, |g.spots| + if Open(input) != [] then 1 else 0)
    requires Open(input) != [] ==>
        && |g.cells| < Oldest(g, f, true) + buff.Length
        && 0 < buffp && |input| > 0 && buff[buffp - 1] == input[|input| - 1]
    requires Open(input) == [] ==> buffp == 0 || buff[buffp - 1] == NUL
    requires HadRoom(buff.Length, lines.Length, Complete(input))
    modifies lines, buff
    ensures Open(input) == [] || input[|input| - 1] != NUL ==> TableShows(buff[..], lines[..], Lines(input))
    ensures NUL !in input ==> TableReads(buff[..], lines[..], Lines(input))
    ensures Open(input) != [] && input[|input| - 1] == NUL ==>
        var (done, open) := (Complete(input), Open(input));
        LeftOpen(buff[..], lines[..], done, open, GoneRound(buff.Length, done, open, 0))
    ensures HadRoom(buff.Length, lines.Length, Lines(input))
  {
    hide Kept, Filled, OnPlace, Current, Table, Shows, Complete, Open, TableShows, TableReads, HadRoom, Unfinished,
         PlaceOf;
    FinalTable(buff[..], lines[..], input, g, f);
    if Open(input) != [] {
      CompleteLinesSafe(buff[..], lines[..], Complete(input), Open(input), g, f, true);
      UnfinishedRow(buff[..], lines[..], Complete(input), Open(input), g, f);
    }
    if buffp != 0 && buff[buffp - 1] != NUL {
      OwnRow(lines[..], g, f);
      RoomTestIndex(|g.spots|, lines.Length);
      var ignored := TestForRoom(lines, lines.Length - nfound, buffp);
      buff[buffp] := NUL;
      Enter(lines, wrap, linestart);
    }
    if NUL !in input {
      ShownReads(buff[..], lines[..], Lines(input)) by { NulFreeLines(input); }
    }
  }

  /** One pass over the stream. `fits` tells whether the pass reached the end of the stream;
      otherwise it stopped for lack of room, with `consumed` characters stored. */
  method FileTail(input: seq<char>, lines: array<Entry>, buff: array<char>) returns (fits: bool, consumed: nat)
    requires lines.Length >= 1 && buff.Length >= 2
    modifies lines, buff
    ensures consumed <= |input| && (fits ==> consumed == |input|)
    // the whole stream: the table shows its last lines
    ensures fits && (Open(input) == [] || input[|input| - 1] != NUL) ==> TableShows(buff[..], lines[..], Lines(input))
    ensures fits && NUL !in input ==> TableReads(buff[..], lines[..], Lines(input))
    // a last line that ends in a NUL is not entered
    ensures fits && Open(input) != [] && input[|input| - 1] == NUL ==>
        var (done, open) := (Complete(input), Open(input));
        LeftOpen(buff[..], lines[..], done, open, GoneRound(buff.Length, done, open, 0))
    // no room: the complete lines before the one being read are all still there, and it is not
    // entered; it stopped at the first character without room
    ensures !fits ==>
        && consumed < |input|
        && var (done, open) := (Complete(input[..consumed]), Open(input[..consumed]));
        && LeftOpen(buff[..], lines[..], done, open, GoneRound(buff.Length, done, open, 1))
        && RoomFor(buff.Length, lines.Length, Lines(input[..consumed]))
        && !RoomFor(buff.Length, lines.Length, Lines(input[..consumed + 1]))
    // there is room just when the lines have room where they come to lie ...
    ensures fits <==> RoomFor(buff.Length, lines.Length, Lines(input))
    // ... which their lengths tell up to one byte
    ensures WindowsWithin(Lines(input), lines.Length, buff.Length - 1) ==> fits
    ensures fits ==> WindowsWithin(Lines(input), lines.Length, buff.Length)
  {
    hide Kept, Filled, OnPlace, Current, Table, Shows, LineOnTape, HeadOnTape, CurOnTape, Complete, Open, TableShows,
         TableReads, HadRoom, WindowsWithin, RoomFor, Placed, Bytes, Unfinished, PlaceOf;
    ClearTable(lines);
    var nlines, maxbuff := lines.Length, buff.Length;
    var nfound, wrap, linestart, buffp := 0, 0, 0, 0;
    ghost var g, f := Tape([], 0, [], Spot(0, 0, -1)), 0;
    InitialInv(buff[..], lines[..]);
    consumed, fits := 0, true;
    EmptyStream(input[..0], nlines, maxbuff);
    while consumed < |input|
      invariant consumed <= |input| && fits
      invariant Inv(buff[..], lines[..], Complete(input[..consumed]), Open(input[..consumed]), g, f,
                    Open(input[..consumed]) != [])
      invariant Pointers(g, Open(input[..consumed]) != [], buffp, linestart, wrap)
      invariant nfound == Min(nlines, |g.spots| + if Open(input[..consumed]) != [] then 1 else 0)
      invariant Open(input[..consumed]) != [] ==>
          && |g.cells| < Oldest(g, f, true) + maxbuff
          && 0 < buffp && consumed > 0 && buff[buffp - 1] == input[consumed - 1]
      invariant Open(input[..consumed]) == [] ==> buffp == 0 || buff[buffp - 1] == NUL
      invariant HadRoom(maxbuff, nlines, Complete(input[..consumed]))
    {
      var c := input[consumed];
      ghost var done, open := Complete(input[..consumed]), Open(input[..consumed]);
      RoomSoFar(buff[..], lines[..], input[..consumed], g, f);
      nfound, buffp, linestart, wrap, g, f := Advance(lines, buff, nfound, buffp, linestart, wrap, done, open, g, f);
      RoomTest(buff[..], lines[..], done, open, g, f, nlines - nfound);
      var room := TestForRoom(lines, nlines - nfound, buffp);
      if !room {
        NoRoom(buff[..], lines[..], input, consumed, g, f);
        NoRoom(buff[..], lines[..], input[..consumed + 1], consumed, g, f) by {
          assert input[..consumed + 1][..consumed] == input[..consumed];
        }
        CompleteLinesSafe(buff[..], lines[..], done, open, g, f, true);
        UnfinishedRow(buff[..], lines[..], done, open, g, f);
        fits := false;
        return;
      }
      buffp, linestart, wrap, g := Store(c, lines, buff, buffp, linestart, wrap, done, open, g, f);
      Extend(input[..consumed], c);
      assert input[..consumed + 1] == input[..consumed] + [c];
      if c == '\n' {
        RoomStays(buff[..], lines[..], done, open + [c], g, f);
      }
      consumed := consumed + 1;
    }
    assert input[..consumed] == input;
    Finish(input, lines, buff, nfound, buffp, linestart, wrap, g, f);
    RoomHad(maxbuff, nlines, Lines(input));
  }
}
