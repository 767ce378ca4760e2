/** Percent-encoding of URLs: the table-driven encoder on C strings, the one on strings, and
    the decoder of RFC 3986, section 2.1. Also the escaping of JSON strings. */
module UrlCodec {
  import opened LittleEndian
  import opened ByteArrays

  const PERCENT: Byte := 0x25

  const PLUS: Byte := 0x2B

  const SPACE: Byte := 0x20

  /** isalnum in the C locale. */
  predicate IsAlnum(b: int) { 0x30 <= b <= 0x39 || 0x41 <= b <= 0x5A || 0x61 <= b <= 0x7A }

  /** The unreserved characters of RFC 3986, section 2.3. */
  predicate Unreserved(b: int) { IsAlnum(b) || b == 0x7E || b == 0x2D || b == 0x2E || b == 0x5F }

  function Rfc3986(b: Byte): Byte { if Unreserved(b) then b else 0 }

  function Html5(b: Byte): Byte {
    if IsAlnum(b) || b == 0x2A || b == 0x2D || b == 0x2E || b == 0x5F then b
    else if b == SPACE then PLUS
    else 0
  }

  const RFC_TABLE: seq<Byte> := seq(256, i requires 0 <= i < 256 => Rfc3986(i))

  const HTML_TABLE: seq<Byte> := seq(256, i requires 0 <= i < 256 => Html5(i))

  /** An upper-case hexadecimal digit. */
  function Hex(d: nat): (b: Byte)
    requires d < 16
    ensures IsAlnum(b)
  {
    if d < 10 then 0x30 + d else 0x41 + (d - 10)
  }

  /** One character encoded: its table entry, or a percent sign and two hexadecimal digits. */
  function Code(t: seq<Byte>, b: Byte): (e: seq<Byte>)
    requires |t| == 256
    ensures 1 <= |e| <= 3 && 0 !in e
  {
    if t[b] != 0 then [t[b]] else [PERCENT, Hex(b / 16), Hex(b % 16)]
  }

  function Encoded(t: seq<Byte>, s: seq<Byte>): seq<Byte>
    requires |t| == 256
  {
    if s == [] then [] else Encoded(t, s[..|s| - 1]) + Code(t, s[|s| - 1])
  }

  method TablesInit(rfc3986: array<Byte>, html5: array<Byte>)
    requires rfc3986.Length == 256 && html5.Length == 256 && rfc3986 != html5
    modifies rfc3986, html5
    ensures rfc3986[..] == RFC_TABLE && html5[..] == HTML_TABLE
  {
    var i := 0;
    while i < 256
      invariant 0 <= i <= 256
      invariant forall j :: 0 <= j < i ==> rfc3986[j] == RFC_TABLE[j] && html5[j] == HTML_TABLE[j]
    {
      rfc3986[i] := if IsAlnum(i) || i == 0x7E || i == 0x2D || i == 0x2E || i == 0x5F then i else 0;
      html5[i] := if IsAlnum(i) || i == 0x2A || i == 0x2D || i == 0x2E || i == 0x5F then i
                  else if i == SPACE then PLUS else 0;
      i := i + 1;
    }
  }

  /** sprintf of one code at offset p, with its NUL. */
  method Print(enc: array<Byte>, p: nat, e: seq<Byte>)
    requires p + |e| < enc.Length
    modifies enc
    ensures enc[..] == old(enc[..p]) + e + [0] + old(enc[p + |e| + 1..])
  {
    Copy(enc, p, e + [0]);
  }

  /** The end of a printed code: the pointer moves on by at least one, to the next NUL. */
  method SkipToNul(enc: array<Byte>, p: nat, ghost e: seq<Byte>) returns (end: nat)
    requires e != [] && 0 !in e && p + |e| < enc.Length && enc[p..p + |e| + 1] == e + [0]
    ensures end == p + |e|
  {
    ghost var w := enc[p..p + |e| + 1];
    assert forall j :: p <= j <= p + |e| ==> enc[j] == w[j - p];
    end := p + 1;
    while enc[end] != 0
      invariant p < end <= p + |e|
      decreases p + |e| - end
    {
      end := end + 1;
    }
  }

  /** One turn's sprintf, of either kind. */
  method PrintCode(table: array<Byte>, b: Byte, enc: array<Byte>, p: nat)
    requires table.Length == 256 && table != enc && p + 3 < enc.Length
    modifies enc
    ensures enc[..] == var e := Code(table[..], b); old(enc[..p]) + e + [0] + old(enc[p + |e| + 1..])
  {
    if table[b] != 0 {
      Print(enc, p, [table[b]]);
    } else {
      Print(enc, p, [PERCENT, Hex(b / 16), Hex(b % 16)]);
    }
  }

  lemma NothingEncoded(t: seq<Byte>, s: seq<Byte>)
    requires |t| == 256
    ensures Encoded(t, s[..0]) == []
  {
  }

  lemma OneEncoded(t: seq<Byte>, s: seq<Byte>, i: nat)
    requires |t| == 256 && i < |s|
    ensures Encoded(t, s[..i + 1]) == Encoded(t, s[..i]) + Code(t, s[i])
  {
    assert s[..i + 1][..i] == s[..i];
  }

  /** A code printed over the NUL that closes what has been encoded so far. */
  lemma Overwritten(was: seq<Byte>, before: seq<Byte>, done: seq<Byte>, e: seq<Byte>, first: bool)
    requires |was| == |before| && |done| + |e| < |was|
    requires if first then done == [] && was == before else was == done + [0] + before[|done| + 1..]
    ensures var now := was[..|done|] + e + [0] + was[|done| + |e| + 1..];
            && (e != [] ==> now == (done + e) + [0] + before[|done| + |e| + 1..])
            && now[|done|..|done| + |e| + 1] == e + [0]
  {
  }

  /** `url_encode` on a C string s with its NUL left out. It writes nothing for the empty
      string, not even a NUL. */
  method UrlEncode(table: array<Byte>, s: seq<Byte>, enc: array<Byte>) returns (end: nat)
    requires table.Length == 256 && table != enc && 0 !in s
    requires enc.Length >= 3 * |s| + 1
    modifies enc
    ensures end <= 3 * |s|
    ensures s != [] ==> enc[..] == Encoded(table[..], s) + [0] + old(enc[end + 1..])
    ensures s == [] ==> enc[..] == old(enc[..])
    ensures end == |Encoded(table[..], s)|
  {
    hide Encoded, Code;
    ghost var t := table[..];
    end := 0;
    NothingEncoded(t, s);
    var i := 0;
    while i < |s|
      invariant 0 <= i <= |s| && end <= 3 * i && table[..] == t
      invariant end == |Encoded(t, s[..i])|
      invariant i > 0 ==> enc[..] == Encoded(t, s[..i]) + [0] + old(enc[end + 1..])
      invariant i == 0 ==> enc[..] == old(enc[..])
    {
      ghost var p, was, e, done := end, enc[..], Code(t, s[i]), Encoded(t, s[..i]);
      OneEncoded(t, s, i);
      PrintCode(table, s[i], enc, end);
      Overwritten(was, old(enc[..]), done, e, i == 0);
      end := SkipToNul(enc, end, e);
      i := i + 1;
    }
    assert s[..|s|] == s;
  }

  /** `url_encode` on strings. */
  method UrlEncodeString(value: seq<Byte>) returns (escaped: seq<Byte>)
    ensures escaped == Encoded(RFC_TABLE, value)
  {
    escaped := [];
    var i := 0;
    while i < |value|
      invariant 0 <= i <= |value|
      invariant escaped == Encoded(RFC_TABLE, value[..i])
    {
      assert value[..i + 1][..i] == value[..i];
      var c := value[i];
      if IsAlnum(c) || c == 0x2D || c == 0x5F || c == 0x2E || c == 0x7E {
        escaped := escaped + [c];
      } else {
        escaped := escaped + [PERCENT] + [Hex(c / 16), Hex(c % 16)];
      }
      i := i + 1;
    }
    assert value[..|value|] == value;
  }

  /** With the RFC 3986 table the two encoders give the same bytes. */
  method BothEncode(s: seq<Byte>, enc: array<Byte>) returns (end: nat, escaped: seq<Byte>)
    requires 0 !in s && enc.Length >= 3 * |s| + 1
    modifies enc
    ensures escaped == Encoded(RFC_TABLE, s) && end == |escaped| < enc.Length && enc[..end] == escaped
    ensures s != [] ==> enc[end] == 0
  {
    var rfc, html := new Byte[256], new Byte[256];
    TablesInit(rfc, html);
    end := UrlEncode(rfc, s, enc);
    escaped := UrlEncodeString(s);
  }

  const UPPER := "ABCDEFGHIJKLMNOPQRSTUVWXYZ"

  const LOWER := "abcdefghijklmnopqrstuvwxyz"

  const DIGITS := "0123456789"

  const ALNUM := UPPER + LOWER + DIGITS

  const HEX_DIGITS := "0123456789ABCDEF"

  function Text(e: seq<Byte>): string { seq(|e|, i requires 0 <= i < |e| => e[i] as char) }

  /** A string of consecutive characters holds those in its range. */
  lemma ByIndex(cs: string, first: Byte, b: Byte)
    requires forall i :: 0 <= i < |cs| ==> cs[i] as int == first + i
    ensures b as char in cs <==> first <= b < first + |cs|
  {
    if first <= b < first + |cs| {
      assert cs[b - first] == b as char;
    }
  }

  lemma AlnumByCharacter(b: Byte)
    ensures IsAlnum(b) <==> b as char in ALNUM
  {
    ByIndex(UPPER, 0x41, b);
    ByIndex(LOWER, 0x61, b);
    ByIndex(DIGITS, 0x30, b);
    hide UPPER, LOWER, DIGITS;
  }

  lemma HexByCharacter(d: nat)
    requires d < 16
    ensures Hex(d) as char == HEX_DIGITS[d]
  {
  }

  /** The two encodings spelled out: which characters stay, and what the others become. */
  lemma CodesByCharacter(b: Byte)
    ensures var escape := ['%', HEX_DIGITS[b / 16], HEX_DIGITS[b % 16]];
            && Text(Code(RFC_TABLE, b)) == (if b as char in ALNUM + "-._~" then [b as char] else escape)
            && Text(Code(HTML_TABLE, b)) == if b as char in ALNUM + "-._*" then [b as char]
                                            else if b as char == ' ' then "+"
                                            else escape
  {
    AlnumByCharacter(b);
    HexByCharacter(b / 16);
    HexByCharacter(b % 16);
    hide IsAlnum, Hex, ALNUM;
  }

  // ----- decoding

  function HexValue(b: Byte): nat {
    if 0x30 <= b <= 0x39 then b - 0x30
    else if 0x41 <= b <= 0x46 then b - 0x41 + 10
    else if 0x61 <= b <= 0x66 then b - 0x61 + 10
    else 0
  }

  /** Percent-decoding; form tells whether a plus sign stands for a space. */
  function Decoded(e: seq<Byte>, form: bool): seq<Byte> {
    if e == [] then []
    else if e[0] == PERCENT && |e| >= 3 then [HexValue(e[1]) % 16 * 16 + HexValue(e[2]) % 16] + Decoded(e[3..], form)
    else if form && e[0] == PLUS then [SPACE] + Decoded(e[1..], form)
    else [e[0]] + Decoded(e[1..], form)
  }

  /** A table whose entries decode to what they stand for. */
  ghost predicate Decodable(t: seq<Byte>, form: bool) {
    && |t| == 256
    && forall b: Byte :: t[b] != 0 ==> t[b] != PERCENT && (if form && t[b] == PLUS then SPACE else t[b]) == b
  }

  lemma TablesDecodable()
    ensures Decodable(RFC_TABLE, false) && Decodable(HTML_TABLE, true)
  {
  }

  lemma HexBack(d: nat)
    requires d < 16
    ensures HexValue(Hex(d)) == d
  {
  }

  /** An escape decodes to the byte whose two digits it has. */
  lemma DecodeEscape(b: Byte, rest: seq<Byte>, form: bool)
    ensures Decoded([PERCENT, Hex(b / 16), Hex(b % 16)] + rest, form) == [b] + Decoded(rest, form)
  {
    var e := [PERCENT, Hex(b / 16), Hex(b % 16)] + rest;
    assert e[3..] == rest;
    HexBack(b / 16);
    HexBack(b % 16);
    hide Hex, HexValue;
    assert Decoded(e, form) == [HexValue(e[1]) % 16 * 16 + HexValue(e[2]) % 16] + Decoded(e[3..], form);
  }

  lemma DecodeSingle(c: Byte, rest: seq<Byte>, form: bool)
    requires c != PERCENT
    ensures Decoded([c] + rest, form) == [if form && c == PLUS then SPACE else c] + Decoded(rest, form)
  {
  }

  lemma DecodeCode(t: seq<Byte>, form: bool, b: Byte, rest: seq<Byte>)
    requires Decodable(t, form)
    ensures Decoded(Code(t, b) + rest, form) == [b] + Decoded(rest, form)
  {
    hide Decoded;
    if t[b] == 0 {
      DecodeEscape(b, rest, form);
    } else {
      DecodeSingle(t[b], rest, form);
    }
  }

  lemma {:induction false} DecodeJoined(t: seq<Byte>, form: bool, s: seq<Byte>, rest: seq<Byte>)
    requires Decodable(t, form)
    ensures Decoded(Encoded(t, s) + rest, form) == s + Decoded(rest, form)
  {
    hide Decoded;
    if s == [] {
      assert [] + rest == rest;
      assert [] + Decoded(rest, form) == Decoded(rest, form);
    } else {
      var init, b := s[..|s| - 1], s[|s| - 1];
      assert Encoded(t, s) + rest == Encoded(t, init) + (Code(t, b) + rest);
      DecodeJoined(t, form, init, Code(t, b) + rest);
      DecodeCode(t, form, b, rest);
      assert init + ([b] + Decoded(rest, form)) == s + Decoded(rest, form);
    }
  }

  /** Decoding undoes encoding, with either table, for all strings. */
  lemma UrlRoundTrip(s: seq<Byte>)
    ensures Decoded(Encoded(RFC_TABLE, s), false) == s
    ensures Decoded(Encoded(HTML_TABLE, s), true) == s
  {
    TablesDecodable();
    DecodeJoined(RFC_TABLE, false, s, []);
    DecodeJoined(HTML_TABLE, true, s, []);
    assert Encoded(RFC_TABLE, s) + [] == Encoded(RFC_TABLE, s);
    assert Encoded(HTML_TABLE, s) + [] == Encoded(HTML_TABLE, s);
    assert s + Decoded([], false) == s && s + Decoded([], true) == s;
  }

  // ----- JSON strings

  /** The letter of a two-character escape, for the characters that have one. */
  function EscapeLetter(c: char): char {
    match c
    case '\\' => '\\'
    case '\"' => '\"'
    case '/' => '/'
    case '\n' => 'n'
    case '\r' => 'r'
    case '\t' => 't'
    case _ => if c == 8 as char then 'b' else if c == 12 as char then 'f' else ' '
  }

  function EscapeChar(c: char): string {
    if EscapeLetter(c) == ' ' then [c] else ['\\', EscapeLetter(c)]
  }

  function Escaped(s: string): string {
    if s == [] then [] else Escaped(s[..|s| - 1]) + EscapeChar(s[|s| - 1])
  }

  method EscapeJsonString(input: string) returns (ss: string)
    ensures ss == Escaped(input)
  {
    ss := "";
    var i := 0;
    while i < |input|
      invariant 0 <= i <= |input| && ss == Escaped(input[..i])
    {
      assert input[..i + 1][..i] == input[..i];
      var c := input[i];
      if c == '\\' { ss := ss + "\\\\"; }
      else if c == '\"' { ss := ss + "\\\""; }
      else if c == '/' { ss := ss + "\\/"; }
      else if c == 8 as char { ss := ss + "\\b"; }
      else if c == 12 as char { ss := ss + "\\f"; }
      else if c == '\n' { ss := ss + "\\n"; }
      else if c == '\r' { ss := ss + "\\r"; }
      else if c == '\t' { ss := ss + "\\t"; }
      else { ss := ss + [c]; }
      i := i + 1;
    }
    assert input[..|input|] == input;
  }

  function Unescaped(e: string): string {
    if e == [] then []
    else if e[0] == '\\' && |e| >= 2 then
      [match e[1]
       case 'n' => '\n'
       case 'r' => '\r'
       case 't' => '\t'
       case 'b' => 8 as char
       case 'f' => 12 as char
       case c => c] + Unescaped(e[2..])
    else [e[0]] + Unescaped(e[1..])
  }

  lemma UnescapeChar(c: char, rest: string)
    ensures Unescaped(EscapeChar(c) + rest) == [c] + Unescaped(rest)
  {
  }

  lemma {:induction false} UnescapeJoined(s: string, rest: string)
    ensures Unescaped(Escaped(s) + rest) == s + Unescaped(rest)
  {
    hide Unescaped, EscapeChar;
    if s == [] {
      assert [] + rest == rest;
      assert [] + Unescaped(rest) == Unescaped(rest);
    } else {
      var init, c := s[..|s| - 1], s[|s| - 1];
      assert Escaped(s) + rest == Escaped(init) + (EscapeChar(c) + rest);
      UnescapeJoined(init, EscapeChar(c) + rest);
      UnescapeChar(c, rest);
      assert init + ([c] + Unescaped(rest)) == s + Unescaped(rest);
    }
  }

  /** Reading the escapes back gives the string. */
  lemma JsonRoundTrip(s: string)
    ensures Unescaped(Escaped(s)) == s
  {
    UnescapeJoined(s, []);
    assert Escaped(s) + [] == Escaped(s);
    assert s + Unescaped([]) == s;
  }

  /** What may stand between the quotation marks of a JSON string (section 7 of RFC 8259). */
  predicate JsonCharacters(e: string) {
    e == []
    || (if e[0] == '\\' then |e| >= 2 && e[1] in "\"\\/bfnrt" && JsonCharacters(e[2..])
        else e[0] >= ' ' && e[0] != '\"' && JsonCharacters(e[1..]))
  }

  /** A control character without an escape of its own; such a one is left as it is. */
  predicate RawControl(c: char) { c < ' ' && c !in [8 as char, '\t', '\n', 12 as char, '\r'] }

  lemma CharIsJson(c: char, rest: string)
    ensures JsonCharacters(EscapeChar(c) + rest) <==> !RawControl(c) && JsonCharacters(rest)
  {
    assert ([c] + rest)[1..] == rest && (['\\', EscapeLetter(c)] + rest)[2..] == rest;
  }

  lemma {:induction false} JoinedIsJson(s: string, rest: string)
    ensures JsonCharacters(Escaped(s) + rest) <==> (forall c :: c in s ==> !RawControl(c)) && JsonCharacters(rest)
  {
    hide JsonCharacters, EscapeChar, RawControl;
    if s == [] {
      assert [] + rest == rest;
    } else {
      var init, c := s[..|s| - 1], s[|s| - 1];
      assert Escaped(s) + rest == Escaped(init) + (EscapeChar(c) + rest);
      JoinedIsJson(init, EscapeChar(c) + rest);
      CharIsJson(c, rest);
      assert s == init + [c];
    }
  }

  /** The escaped form is a JSON string when, and only when, no control character without an
      escape occurs. */
  lemma EscapedIsJson(s: string)
    ensures JsonCharacters(Escaped(s)) <==> forall c :: c in s ==> !RawControl(c)
  {
    JoinedIsJson(s, []);
    assert Escaped(s) + [] == Escaped(s);
  }

  /** ... so a bell, say, spoils the query. */
  lemma BellIsNotJson()
    ensures !JsonCharacters(Escaped([7 as char]))
  {
    EscapedIsJson([7 as char]);
  }

  /** Characters with an escape get it, and no others. */
  lemma EscapesByCharacter(c: char)
    ensures Escaped([c]) ==
      if c in "\"\\/" then ['\\', c]
      else if c == 8 as char then "\\b"
      else if c == 12 as char then "\\f"
      else if c == '\n' then "\\n"
      else if c == '\r' then "\\r"
      else if c == '\t' then "\\t"
      else [c]
  {
    assert Escaped([]) == [];
  }
}
