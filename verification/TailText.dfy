/** The text side of the log tailer: how a character stream splits into lines, how much
    buffer space lines need, and how C reads a string back out of the buffer. */
module TailText {

  const NUL: char := '\0'

  /** The null pointer of the C source; other pointers are offsets into the buffer. */
  const NULL: int := -1

  /** One row of the pointer table: the start of a line, and the start of its second half
      when the line was split at the end of the buffer. */
  datatype Entry = Entry(head: int, rest: int)

  const EMPTY: Entry := Entry(NULL, NULL)

  /** What follows the last newline. */
  ghost function Open(s: seq<char>): seq<char> {
    if s == [] || s[|s| - 1] == '\n' then [] else Open(s[..|s| - 1]) + [s[|s| - 1]]
  }

  /** The newline-terminated lines of a stream, each with its newline. */
  ghost function Complete(s: seq<char>): seq<seq<char>> {
    if s == [] then []
    else
      var (init, c) := (s[..|s| - 1], s[|s| - 1]);
      if c == '\n' then Complete(init) + [Open(init) + [c]] else Complete(init)
  }

  /** All lines; a last line without a newline counts when it is not empty. */
  ghost function Lines(s: seq<char>): seq<seq<char>> {
    Complete(s) + if Open(s) == [] then [] else [Open(s)]
  }

  ghost function Join(ls: seq<seq<char>>): seq<char> {
    if ls == [] then [] else Join(ls[..|ls| - 1]) + ls[|ls| - 1]
  }

  ghost predicate IsTerminated(l: seq<char>) {
    |l| > 0 && l[|l| - 1] == '\n' && '\n' !in l[..|l| - 1]
  }

  lemma JoinLast(ls: seq<seq<char>>, l: seq<char>)
    ensures Join(ls + [l]) == Join(ls) + l
  {
  }

  lemma Extend(s: seq<char>, c: char)
    ensures Complete(s + [c]) == if c == '\n' then Complete(s) + [Open(s) + [c]] else Complete(s)
    ensures Open(s + [c]) == if c == '\n' then [] else Open(s) + [c]
  {
  }

  /** The two functions above are the splitting of a stream into lines: nothing is lost or
      reordered, every complete line has exactly one newline, at its end, and the open part
      has none. */
  lemma {:induction false} SplitIsFaithful(s: seq<char>)
    ensures Join(Complete(s)) + Open(s) == s
    ensures forall l :: l in Complete(s) ==> IsTerminated(l)
    ensures '\n' !in Open(s)
  {
    if s != [] {
      var init, c := s[..|s| - 1], s[|s| - 1];
      assert s == init + [c];
      SplitIsFaithful(init);
      Extend(init, c);
      hide Join, Complete, Open;
      if c == '\n' {
        var l := Open(init) + [c];
        assert l[..|l| - 1] == Open(init);
        JoinLast(Complete(init), l);
        assert Join(Complete(init)) + l == init + [c];
      } else {
        assert Join(Complete(init)) + (Open(init) + [c]) == init + [c];
      }
    }
  }

  /** Reading on never changes the lines already complete, and the line being read only grows. */
  lemma {:induction false} PrefixLines(s: seq<char>, i: nat)
    requires i <= |s|
    ensures Complete(s[..i]) <= Complete(s)
    ensures Open(s[..i]) != [] || i < |s| ==>
        |Complete(s[..i])| < |Lines(s)| && Open(s[..i]) <= Lines(s)[|Complete(s[..i])|]
    decreases |s| - i
  {
    if i == |s| {
      assert s[..i] == s;
    } else {
      var p := s[..i];
      assert s[..i + 1] == p + [s[i]];
      PrefixLines(s, i + 1);
      Extend(p, s[i]);
    }
  }

  /** Buffer bytes taken by the first n lines: each is followed by a NUL. */
  ghost function Bytes(ls: seq<seq<char>>, n: nat): nat
    requires n <= |ls|
  {
    if n == 0 then 0 else Bytes(ls, n - 1) + |ls[n - 1]| + 1
  }

  lemma {:induction false} BytesOfPrefix(ls: seq<seq<char>>, ms: seq<seq<char>>, n: nat)
    requires n <= |ls| && ls <= ms
    ensures Bytes(ls, n) == Bytes(ms, n)
  {
    if n > 0 {
      BytesOfPrefix(ls, ms, n - 1);
    }
  }

  function Min(a: int, b: int): int { if a < b then a else b }

  /** Bytes taken by the last n of the first x lines. */
  ghost function WindowBytes(ls: seq<seq<char>>, n: nat, x: nat): int
    requires x <= |ls|
  {
    Bytes(ls, x) - Bytes(ls, x - Min(n, x))
  }

  /** Every run of n consecutive lines, and every shorter run from the start, needs at most
      cap bytes. */
  ghost predicate WindowsWithin(ls: seq<seq<char>>, n: nat, cap: int) {
    forall x :: 0 <= x <= |ls| ==> WindowBytes(ls, n, x) <= cap
  }

  // ----- where lines come to lie in a buffer of M bytes

  /** The start of a line: bytes passed in whole revolutions of the buffer, and the offset. */
  datatype Place = Place(rev: int, at: int) {
    function Position(): int { rev + at }
  }

  /** A line of len characters from place p on is cut when it and its NUL do not fit before
      the end of the buffer. */
  predicate Cut(M: nat, p: Place, len: nat) { p.at + len > M - 1 }

  /** The position after the line's closing NUL; a cut line has a second NUL. */
  function EndOf(M: nat, p: Place, len: nat): int {
    p.Position() + len + 1 + if Cut(M, p, len) then 1 else 0
  }

  /** Where the next line starts: behind the line, or at offset 0 when that is less than two
      bytes from the end of the buffer. */
  function NextPlace(M: nat, p: Place, len: nat): Place {
    var rev := if Cut(M, p, len) then p.rev + M else p.rev;
    var at := EndOf(M, p, len) - rev;
    if at >= M - 1 then Place(rev + M, 0) else Place(rev, at)
  }

  /** Where line number n starts. */
  ghost function PlaceOf(M: nat, ls: seq<seq<char>>, n: nat): Place
    requires n <= |ls|
  {
    if n == 0 then Place(0, 0) else NextPlace(M, PlaceOf(M, ls, n - 1), |ls[n - 1]|)
  }

  lemma {:induction false} PlaceOfPrefix(M: nat, ls: seq<seq<char>>, ms: seq<seq<char>>, n: nat)
    requires n <= |ls| && ls <= ms
    ensures PlaceOf(M, ls, n) == PlaceOf(M, ms, n)
  {
    if n > 0 {
      PlaceOfPrefix(M, ls, ms, n - 1);
    }
  }

  /** Line d ends at most one revolution after the start of the oldest of the n lines up to it. */
  ghost predicate RoomAt(M: nat, n: nat, ls: seq<seq<char>>, d: nat)
    requires d < |ls|
  {
    EndOf(M, PlaceOf(M, ls, d), |ls[d]|) <= PlaceOf(M, ls, d + 1 - Min(n, d + 1)).Position() + M
  }

  /** A buffer of M bytes has room for any n consecutive lines where they come to lie. */
  ghost predicate RoomFor(M: nat, n: nat, ls: seq<seq<char>>) {
    forall d :: 0 <= d < |ls| ==> RoomAt(M, n, ls, d)
  }

  /** The C string that starts at offset p. */
  ghost function CString(b: seq<char>, p: nat): seq<char>
    decreases |b| - p
  {
    if p >= |b| || b[p] == NUL then [] else [b[p]] + CString(b, p + 1)
  }

  /** A table row read as the tailer's caller should read it: the string at the head, then
      the one at the rest when there is one. */
  ghost function ReadEntry(b: seq<char>, e: Entry): seq<char>
    requires e.head >= 0 && e.rest >= -1
  {
    CString(b, e.head) + if e.rest == NULL then [] else CString(b, e.rest)
  }

  /** Line l lies in buffer b as row e says: in one piece, or cut at the last byte of the
      buffer and continued from offset 0; each piece is closed by a NUL. */
  ghost predicate Placed(b: seq<char>, e: Entry, l: seq<char>) {
    && 0 <= e.head < |b|
    && if e.rest == NULL then
         e.head + |l| + 1 <= |b| && b[e.head..e.head + |l| + 1] == l + [NUL]
       else
         var cut := |b| - 1 - e.head;
         && e.rest == 0
         && cut < |l| && |l| - cut < |b|
         && b[e.head..] == l[..cut] + [NUL]
         && b[..|l| - cut + 1] == l[cut..] + [NUL]
  }

  lemma {:induction false} CStringOf(b: seq<char>, p: nat, l: seq<char>)
    requires NUL !in l
    requires p + |l| + 1 <= |b| && b[p..p + |l| + 1] == l + [NUL]
    ensures CString(b, p) == l
    decreases |l|
  {
    var piece := b[p..p + |l| + 1];
    assert b[p] == piece[0];
    if l != [] {
      assert b[p + 1..p + 1 + |l[1..]| + 1] == piece[1..];
      CStringOf(b, p + 1, l[1..]);
    }
  }

  /** A placed line without NULs is read back exactly. */
  lemma PlacedReadsBack(b: seq<char>, e: Entry, l: seq<char>)
    requires Placed(b, e, l) && NUL !in l
    ensures e.head >= 0 && e.rest >= -1 && ReadEntry(b, e) == l
  {
    if e.rest == NULL {
      CStringOf(b, e.head, l);
    } else {
      var cut := |b| - 1 - e.head;
      assert b[e.head..e.head + cut + 1] == b[e.head..];
      CStringOf(b, e.head, l[..cut]);
      assert b[0..|l| - cut + 1] == b[..|l| - cut + 1];
      CStringOf(b, 0, l[cut..]);
      assert l[..cut] + l[cut..] == l;
    }
  }

  lemma {:induction false} NulFreeLines(s: seq<char>)
    requires NUL !in s
    ensures forall l :: l in Lines(s) ==> NUL !in l
  {
    if s != [] {
      NulFreeLines(s[..|s| - 1]);
      assert Open(s[..|s| - 1]) == [] || Open(s[..|s| - 1]) in Lines(s[..|s| - 1]);
    }
  }
}
