/** The names of fragment files: printing the four numbers, and scanning them back. */
module FragmentName {
  import opened LittleEndian
  import opened Fragment
  import opened Options
  import opened Sequences

  predicate IsDigit(c: char) { '0' <= c <= '9' }

  function DigitOf(d: nat): char
    requires d < 10
  {
    '0' + d as char
  }

  function ValueOf(c: char): nat
    requires IsDigit(c)
  {
    c as nat - '0' as nat
  }

  /** Decimal digits, without leading zeros. */
  function Decimal(n: nat): string {
    if n < 10 then [DigitOf(n)] else Decimal(n / 10) + [DigitOf(n % 10)]
  }

  function Value(s: string): nat
    requires forall c :: c in s ==> IsDigit(c)
  {
    if s == [] then 0 else 10 * Value(s[..|s| - 1]) + ValueOf(s[|s| - 1])
  }

  lemma {:induction false} DecimalValue(n: nat)
    ensures Decimal(n) != [] && (forall c :: c in Decimal(n) ==> IsDigit(c)) && Value(Decimal(n)) == n
  {
    if n >= 10 {
      DecimalValue(n / 10);
      assert Decimal(n)[..|Decimal(n)| - 1] == Decimal(n / 10);
    }
  }

  /** The length of the digits at the start of s. */
  function DigitRun(s: string): (k: nat)
    ensures k <= |s| && forall c :: c in s[..k] ==> IsDigit(c)
  {
    if s == [] || !IsDigit(s[0]) then 0 else 1 + DigitRun(s[1..])
  }

  lemma {:induction false} DigitRunStops(d: string, rest: string)
    requires forall c :: c in d ==> IsDigit(c)
    requires rest == [] || !IsDigit(rest[0])
    ensures DigitRun(d + rest) == |d|
  {
    if d == [] {
      assert d + rest == rest;
    } else {
      DigitRunStops(d[1..], rest);
      assert (d + rest)[1..] == d[1..] + rest;
    }
  }

  /** One unsigned conversion: the number and what follows it; none without a digit, or out
      of range. */
  function ScanNumber(s: string, range: nat): Option<(nat, string)> {
    var k := DigitRun(s);
    if k == 0 || Value(s[..k]) >= range then None else Some((Value(s[..k]), s[k..]))
  }

  lemma ScanDecimal(n: nat, rest: string, range: nat)
    requires n < range && (rest == [] || !IsDigit(rest[0]))
    ensures ScanNumber(Decimal(n) + rest, range) == Some((n, rest))
  {
    DecimalValue(n);
    DigitRunStops(Decimal(n), rest);
    assert (Decimal(n) + rest)[..|Decimal(n)|] == Decimal(n);
  }

  /** Decimal notation, digit by digit, without zeros in front. */
  lemma DecimalDigits(q: nat, d: nat)
    requires d < 10
    ensures Decimal(d) == ["0123456789"[d]]
    ensures q > 0 ==> Decimal(10 * q + d) == Decimal(q) + ["0123456789"[d]]
  {
    assert (10 * q + d) / 10 == q && (10 * q + d) % 10 == d;
    assert "0123456789"[d] == DigitOf(d);
  }

  const PREFIX: string := "Event"

  /** `name`, and the name that `store` prints. */
  function Print(n: Name): string {
    PREFIX + "_" + Decimal(n.det) + "_" + Decimal(n.src) + "_" + Decimal(n.evt) + "_" + Decimal(n.bx)
  }

  /** The file a fragment is stored in. */
  lemma FileOf(f: Fragment)
    ensures Print(f.Named())
         == "Event_" + Decimal(f.det) + "_" + Decimal(f.src) + "_" + Decimal(f.evt) + "_" + Decimal(f.bx)
  {
    assert PREFIX + "_" == "Event_";
  }

  /** A name as it stands in the directory. */
  lemma PrintedName()
    ensures Print(Name(12, 345, 6, 7890)) == "Event_12_345_6_7890"
  {
    DecimalDigits(1, 2);
    DecimalDigits(3, 4);
    DecimalDigits(34, 5);
    DecimalDigits(0, 6);
    DecimalDigits(7, 8);
    DecimalDigits(78, 9);
    DecimalDigits(789, 0);
    assert Decimal(1) == "1" && Decimal(3) == "3" && Decimal(7) == "7";
    assert Decimal(12) == "12" && Decimal(345) == "345" && Decimal(6) == "6" && Decimal(7890) == "7890";
  }

  /** A literal underscore, then a number. */
  function ScanField(s: string, range: nat): Option<(nat, string)> {
    if s == [] || s[0] != '_' then None else ScanNumber(s[1..], range)
  }

  /** The scan shared by `detId`, `sourceId`, `eventId` and `bxId`. */
  function Scan(s: string): Option<Name> {
    if !(PREFIX <= s) then None
    else
      match ScanField(s[|PREFIX|..], U32_RANGE)
      case None => None
      case Some((d, s1)) =>
        match ScanField(s1, U32_RANGE)
        case None => None
        case Some((src, s2)) =>
          match ScanField(s2, U32_RANGE)
          case None => None
          case Some((e, s3)) =>
            match ScanField(s3, U64_RANGE)
            case None => None
            case Some((b, _)) => Some(Name(d, src, e, b))
  }

  lemma AfterUnderscore(d: string, rest: string)
    ensures var s := "_" + d + rest; s[0] == '_' && s[1..] == d + rest
  {
  }

  lemma ScanFieldBack(n: nat, rest: string, range: nat)
    requires n < range && (rest == [] || rest[0] == '_')
    ensures ScanField("_" + Decimal(n) + rest, range) == Some((n, rest))
  {
    hide ScanNumber, Decimal;
    ScanDecimal(n, rest, range);
    AfterUnderscore(Decimal(n), rest);
  }

  /** Scanning a printed name gives back all four numbers. */
  lemma NameRoundTrip(n: Name)
    ensures Scan(Print(n)) == Some(n)
  {
    hide ScanField, Decimal;
    var s4 := "_" + Decimal(n.bx) + "";
    var s3 := "_" + Decimal(n.evt) + s4;
    var s2 := "_" + Decimal(n.src) + s3;
    var s1 := "_" + Decimal(n.det) + s2;
    assert Print(n) == PREFIX + s1;
    assert Print(n)[|PREFIX|..] == s1;
    ScanFieldBack(n.det, s2, U32_RANGE);
    ScanFieldBack(n.src, s3, U32_RANGE);
    ScanFieldBack(n.evt, s4, U32_RANGE);
    ScanFieldBack(n.bx, "", U64_RANGE);
  }

  /** So two fragments share a file name just when all four numbers agree. */
  lemma NamesDoNotCollide(a: Name, b: Name)
    ensures Print(a) == Print(b) <==> a == b
  {
    NameRoundTrip(a);
    NameRoundTrip(b);
  }

  // ----- the order of a listing

  /** The order of `strcmp`. */
  predicate Precedes(a: string, b: string) {
    b != [] && (a == [] || a[0] < b[0] || (a[0] == b[0] && Precedes(a[1..], b[1..])))
  }

  /** a comes before b: at the first place where they differ a has ended or has the lesser
      character. */
  lemma {:induction false} PrecedesAtFirstDifference(a: string, b: string)
    ensures Precedes(a, b) <==>
            exists k :: 0 <= k <= |a| && k < |b| && a[..k] == b[..k] && (k == |a| || a[k] < b[k])
  {
    if b == [] || a == [] {
      if b != [] {
        assert a[..0] == b[..0];
      }
    } else if a[0] == b[0] {
      var a', b' := a[1..], b[1..];
      PrecedesAtFirstDifference(a', b');
      if Precedes(a, b) {
        var k :| 0 <= k <= |a'| && k < |b'| && a'[..k] == b'[..k] && (k == |a'| || a'[k] < b'[k]);
        assert a[..k + 1] == [a[0]] + a'[..k] && b[..k + 1] == [b[0]] + b'[..k];
      }
      if k :| 0 <= k <= |a| && k < |b| && a[..k] == b[..k] && (k == |a| || a[k] < b[k]) {
        assert a'[..k - 1] == a[..k][1..] && b'[..k - 1] == b[..k][1..];
      }
    } else {
      assert a[..0] == b[..0];
      forall k | 0 < k <= |a| && k < |b| ensures a[..k] != b[..k] {
        assert a[..k][0] != b[..k][0];
      }
    }
  }

  lemma {:induction false} PrecedesIsTotal(a: string, b: string)
    ensures a == b || Precedes(a, b) || Precedes(b, a)
  {
    if a != [] && b != [] && a[0] == b[0] {
      PrecedesIsTotal(a[1..], b[1..]);
      assert a[1..] == b[1..] ==> a == [a[0]] + a[1..] == b;
    }
  }

  lemma {:induction false} PrecedesIsStrict(a: string)
    ensures !Precedes(a, a)
  {
    if a != [] {
      PrecedesIsStrict(a[1..]);
    }
  }

  lemma {:induction false} PrecedesChains(a: string, b: string, c: string)
    requires Precedes(a, b) && Precedes(b, c)
    ensures Precedes(a, c)
  {
    if a != [] && a[0] == b[0] == c[0] {
      PrecedesChains(a[1..], b[1..], c[1..]);
    }
  }

  /** n is the first of the names when they are sorted as strings. */
  predicate IsFirst(n: Name, names: set<Name>) {
    n in names && forall m :: m in names && m != n ==> Precedes(Print(n), Print(m))
  }

  lemma {:induction false} FirstExists(names: set<Name>)
    requires names != {}
    ensures exists n :: IsFirst(n, names)
  {
    hide Print, Precedes;
    var y :| y in names;
    var rest := names - {y};
    if rest == {} {
      assert names == {y};
      assert IsFirst(y, names);
    } else {
      FirstExists(rest);
      var z :| IsFirst(z, rest);
      NamesDoNotCollide(y, z);
      PrecedesIsTotal(Print(y), Print(z));
      assert names == rest + {y};
      if Precedes(Print(y), Print(z)) {
        forall m | m in rest && m != z ensures Precedes(Print(y), Print(m)) {
          PrecedesChains(Print(y), Print(z), Print(m));
        }
        assert IsFirst(y, names);
      } else {
        assert IsFirst(z, names);
      }
    }
  }

  /** The names in the order of a listing. */
  ghost predicate Alphabetical(names: seq<Name>) {
    forall i, j :: 0 <= i < j < |names| ==> Precedes(Print(names[i]), Print(names[j]))
  }

  /** a has ended, or has the lesser character, at the first place where it differs from b. */
  ghost predicate LessAtFirstDifference(a: string, b: string) {
    exists k :: 0 <= k <= |a| && k < |b| && a[..k] == b[..k] && (k == |a| || a[k] < b[k])
  }

  lemma AlphabeticalByCharacter(names: seq<Name>)
    requires Alphabetical(names)
    ensures forall i, j :: 0 <= i < j < |names| ==> LessAtFirstDifference(Print(names[i]), Print(names[j]))
  {
    hide Print, Precedes;
    forall i, j | 0 <= i < j < |names| ensures LessAtFirstDifference(Print(names[i]), Print(names[j])) {
      PrecedesAtFirstDifference(Print(names[i]), Print(names[j]));
    }
  }

  lemma AlphabeticalIsDistinct(names: seq<Name>)
    requires Alphabetical(names)
    ensures Distinct(names)
  {
    hide Print, Precedes;
    forall i, j | 0 <= i < j < |names| ensures names[i] != names[j] {
      PrecedesIsStrict(Print(names[i]));
    }
  }
}
