/** JSON text as the standard library reads and writes it: `json.loads` (strict strings,
    whitespace around values, no trailing data) and `json.dumps` of a list of strings with its
    default settings (ASCII-only output, `", "` between items). */
module JsonText {
  import opened Wrappers

  /** A decoded value; numbers keep their text. */
  datatype Json =
    | JNull
    | JBool(b: bool)
    | JNumber(lexeme: string)
    | JString(s: string)
    | JArray(items: seq<Json>)
    | JObject(members: seq<(string, Json)>)

  datatype DecodeError = DecodeError

  // ---------------------------------------------------------------------------------------
  // Decoding

  predicate IsWs(c: char) { c == ' ' || c == '\t' || c == '\n' || c == '\r' }

  predicate IsAsciiDigit(c: char) { '0' <= c <= '9' }

  /** The text after any leading whitespace. */
  function SkipWs(s: string): (r: string)
    ensures |r| <= |s|
    ensures r == [] || !IsWs(r[0])
  {
    if s != [] && IsWs(s[0]) then SkipWs(s[1..]) else s
  }

  function HexValue(c: char): (r: Option<nat>)
    ensures r.Some? ==> r.value < 16
  {
    if '0' <= c <= '9' then Some(c as int - '0' as int)
    else if 'a' <= c <= 'f' then Some(c as int - 'a' as int + 10)
    else if 'A' <= c <= 'F' then Some(c as int - 'A' as int + 10)
    else None
  }

  /** Four hexadecimal digits, in either case. */
  function ParseHex4(s: string): (r: Option<(nat, string)>)
    ensures r.Some? ==> r.value.0 < 0x10000 && |s| >= 4 && r.value.1 == s[4..]
  {
    if |s| < 4 then None
    else
      var a, b, c, d := HexValue(s[0]), HexValue(s[1]), HexValue(s[2]), HexValue(s[3]);
      if a.None? || b.None? || c.None? || d.None? then None
      else Some((((a.value * 16 + b.value) * 16 + c.value) * 16 + d.value, s[4..]))
  }

  /** The character of a `\u` escape that follows the `\u`: a high surrogate must be followed by
      an escaped low surrogate, and the pair stands for one character beyond the 16-bit range. */
  function ParseUnicodeEscape(s: string): (r: Option<(char, string)>)
    ensures r.Some? ==> |r.value.1| < |s|
  {
    match ParseHex4(s)
    case None => None
    case Some((hi, t)) =>
      if 0xD800 <= hi <= 0xDBFF && |t| >= 2 && t[0] == '\\' && t[1] == 'u' then
        match ParseHex4(t[2..])
        case None => None
        case Some((lo, u)) =>
          if 0xDC00 <= lo <= 0xDFFF then Some(((0x10000 + (hi - 0xD800) * 1024 + (lo - 0xDC00)) as char, u))
          else None
      else if 0xD800 <= hi <= 0xDFFF then None
      else Some((hi as char, t))
  }

  /** The character of an escape, given the text after the backslash. */
  function ParseEscape(s: string): (r: Option<(char, string)>)
    ensures r.Some? ==> |r.value.1| < |s|
  {
    if s == [] then None
    else if s[0] == '"' then Some(('"', s[1..]))
    else if s[0] == '\\' then Some(('\\', s[1..]))
    else if s[0] == '/' then Some(('/', s[1..]))
    else if s[0] == 'b' then Some((8 as char, s[1..]))
    else if s[0] == 'f' then Some((12 as char, s[1..]))
    else if s[0] == 'n' then Some(('\n', s[1..]))
    else if s[0] == 'r' then Some(('\r', s[1..]))
    else if s[0] == 't' then Some(('\t', s[1..]))
    else if s[0] == 'u' then ParseUnicodeEscape(s[1..])
    else None
  }

  /** A string's contents after its opening quote, up to and without the closing quote; a
      control character before the closing quote is an error. */
  function ParseStringBody(s: string): (r: Option<(string, string)>)
    ensures r.Some? ==> |r.value.1| < |s|
    decreases |s|
  {
    if s == [] then None
    else if s[0] == '"' then Some(([], s[1..]))
    else if s[0] == '\\' then
      match ParseEscape(s[1..])
      case None => None
      case Some((c, t)) =>
        match ParseStringBody(t)
        case None => None
        case Some((body, u)) => Some(([c] + body, u))
    else if s[0] < ' ' then None
    else
      match ParseStringBody(s[1..])
      case None => None
      case Some((body, u)) => Some(([s[0]] + body, u))
  }

  /** The number of leading ASCII digits. */
  function LeadingDigits(s: string): (n: nat)
    ensures n <= |s| && forall i :: 0 <= i < n ==> IsAsciiDigit(s[i])
    ensures n < |s| ==> !IsAsciiDigit(s[n])
  {
    if s != [] && IsAsciiDigit(s[0]) then 1 + LeadingDigits(s[1..]) else 0
  }

  /** The length of an exponent part `[eE][-+]?digits`, or 0 when there is none. */
  function ExponentLength(v: string): (n: nat)
    ensures n <= |v|
  {
    if v != [] && (v[0] == 'e' || v[0] == 'E') then
      var sign := if |v| >= 2 && (v[1] == '+' || v[1] == '-') then 1 else 0;
      var d := LeadingDigits(v[1 + sign..]);
      if d > 0 then 1 + sign + d else 0
    else 0
  }

  /** The longest number at the start of `s`: `-?(0|[1-9][0-9]*)(\.[0-9]+)?([eE][-+]?[0-9]+)?`. */
  function ParseNumber(s: string): (r: Option<(string, string)>)
    ensures r.Some? ==> r.value.0 != [] && s == r.value.0 + r.value.1
  {
    var sign := if s != [] && s[0] == '-' then 1 else 0;
    var t := s[sign..];
    if t == [] || !IsAsciiDigit(t[0]) then None
    else
      var intLen := if t[0] == '0' then 1 else 1 + LeadingDigits(t[1..]);
      var u := t[intLen..];
      var fracLen := if |u| >= 2 && u[0] == '.' && IsAsciiDigit(u[1]) then 1 + LeadingDigits(u[1..]) else 0;
      var v := u[fracLen..];
      var n := sign + intLen + fracLen + ExponentLength(v);
      assert s[..n] + s[n..] == s;
      Some((s[..n], s[n..]))
  }

  predicate StartsWith(s: string, p: string) { |p| <= |s| && s[..|p|] == p }

  /** One value at the start of `s` (no leading whitespace) and the text after it, tried in the
      decoder's order: string, object, array, then the literals and numbers. */
  function ParseValue(s: string): (r: Option<(Json, string)>)
    ensures r.Some? ==> |r.value.1| < |s|
    decreases |s|, 1
  {
    if s == [] then None
    else if s[0] == '"' then ParseStringValue(s)
    else if s[0] == '{' then ParseObject(s)
    else if s[0] == '[' then ParseArray(s)
    else ParseScalar(s)
  }

  function ParseStringValue(s: string): (r: Option<(Json, string)>)
    requires s != [] && s[0] == '"'
    ensures r.Some? ==> |r.value.1| < |s|
  {
    match ParseStringBody(s[1..])
    case None => None
    case Some((str, t)) => Some((JString(str), t))
  }

  /** An object: `{}` with optional whitespace inside, or its members. */
  function ParseObject(s: string): (r: Option<(Json, string)>)
    requires s != [] && s[0] == '{'
    ensures r.Some? ==> |r.value.1| < |s|
    decreases |s|, 0
  {
    var t := SkipWs(s[1..]);
    if t != [] && t[0] == '}' then Some((JObject([]), t[1..]))
    else
      match ParseMembers(t)
      case None => None
      case Some((ms, u)) => Some((JObject(ms), u))
  }

  /** An array: `[]` with optional whitespace inside, or its elements. */
  function ParseArray(s: string): (r: Option<(Json, string)>)
    requires s != [] && s[0] == '['
    ensures r.Some? ==> |r.value.1| < |s|
    decreases |s|, 0
  {
    var t := SkipWs(s[1..]);
    if t != [] && t[0] == ']' then Some((JArray([]), t[1..]))
    else
      match ParseElements(t)
      case None => None
      case Some((vs, u)) => Some((JArray(vs), u))
  }

  /** `null`, `true`, `false`, a number, then `NaN`, `Infinity` and `-Infinity`. */
  function ParseScalar(s: string): (r: Option<(Json, string)>)
    ensures r.Some? ==> |r.value.1| < |s|
  {
    if StartsWith(s, "null") then Some((JNull, s[4..]))
    else if StartsWith(s, "true") then Some((JBool(true), s[4..]))
    else if StartsWith(s, "false") then Some((JBool(false), s[5..]))
    else
      match ParseNumber(s)
      case Some((lexeme, t)) => Some((JNumber(lexeme), t))
      case None =>
        if StartsWith(s, "NaN") then Some((JNumber("NaN"), s[3..]))
        else if StartsWith(s, "Infinity") then Some((JNumber("Infinity"), s[8..]))
        else if StartsWith(s, "-Infinity") then Some((JNumber("-Infinity"), s[9..]))
        else None
  }

  /** The elements of a non-empty array and the text after its closing bracket. */
  function ParseElements(s: string): (r: Option<(seq<Json>, string)>)
    ensures r.Some? ==> |r.value.1| < |s|
    decreases |s|, 2
  {
    match ParseValue(s)
    case None => None
    case Some((v, t)) =>
      var u := SkipWs(t);
      if u != [] && u[0] == ']' then Some(([v], u[1..]))
      else if u != [] && u[0] == ',' then
        match ParseElements(SkipWs(u[1..]))
        case None => None
        case Some((vs, w)) => Some(([v] + vs, w))
      else None
  }

  /** The members of a non-empty object and the text after its closing brace. */
  function ParseMembers(s: string): (r: Option<(seq<(string, Json)>, string)>)
    ensures r.Some? ==> |r.value.1| < |s|
    decreases |s|, 2
  {
    if s == [] || s[0] != '"' then None
    else
      match ParseStringBody(s[1..])
      case None => None
      case Some((key, t)) =>
        var u := SkipWs(t);
        if u == [] || u[0] != ':' then None
        else
          match ParseValue(SkipWs(u[1..]))
          case None => None
          case Some((v, w)) =>
            var x := SkipWs(w);
            if x != [] && x[0] == '}' then Some(([(key, v)], x[1..]))
            else if x != [] && x[0] == ',' then
              match ParseMembers(SkipWs(x[1..]))
              case None => None
              case Some((ms, y)) => Some(([(key, v)] + ms, y))
            else None
  }

  /** `json.loads`: one value, with only whitespace around it. */
  function Loads(text: string): Result<Json, DecodeError> {
    match ParseValue(SkipWs(text))
    case None => Err(DecodeError)
    case Some((v, rest)) => if SkipWs(rest) == [] then Ok(v) else Err(DecodeError)
  }

  // ---------------------------------------------------------------------------------------
  // Encoding

  function HexDigit(n: nat): (c: char)
    requires n < 16
    ensures HexValue(c) == Some(n)
  {
    if n < 10 then ('0' as int + n) as char else ('a' as int + n - 10) as char
  }

  /** Four lower-case hexadecimal digits. */
  function Hex4(n: nat): (s: string)
    requires n < 0x10000
    ensures |s| == 4
  {
    var n1 := n / 16;
    var n2 := n1 / 16;
    [HexDigit(n2 / 16), HexDigit(n2 % 16), HexDigit(n1 % 16), HexDigit(n % 16)]
  }

  /** How `json.dumps` writes a character inside a string: a short escape for the quote, the
      backslash and five control characters, the character itself from space to tilde, and `\u`
      escapes for everything else, as a surrogate pair beyond the 16-bit range. */
  function EscapeChar(c: char): string {
    if c == '"' then "\\\""
    else if c == '\\' then "\\\\"
    else if c == '\n' then "\\n"
    else if c == '\r' then "\\r"
    else if c == '\t' then "\\t"
    else if c == 8 as char then "\\b"
    else if c == 12 as char then "\\f"
    else if ' ' <= c <= '~' then [c]
    else if c as int < 0x10000 then "\\u" + Hex4(c as int)
    else
      var v := c as int - 0x10000;
      "\\u" + Hex4(0xD800 + v / 1024) + "\\u" + Hex4(0xDC00 + v % 1024)
  }

  function Escape(s: string): string {
    if s == [] then [] else EscapeChar(s[0]) + Escape(s[1..])
  }

  /** A string literal. */
  function Quote(s: string): string {
    "\"" + Escape(s) + "\""
  }

  /** Texts joined with `", "`. */
  function JoinItems(qs: seq<string>): string {
    if qs == [] then []
    else if |qs| == 1 then qs[0]
    else qs[0] + ", " + JoinItems(qs[1..])
  }

  /** The string literals of a list. */
  function Quoted(l: seq<string>): (qs: seq<string>)
    ensures |qs| == |l| && forall i :: 0 <= i < |l| ==> qs[i] == Quote(l[i])
  {
    seq(|l|, i requires 0 <= i < |l| => Quote(l[i]))
  }

  /** The items of a list, joined with `", "`. */
  function Items(l: seq<string>): string {
    JoinItems(Quoted(l))
  }

  /** `json.dumps` of a list of strings. */
  function DumpStrings(l: seq<string>): (text: string)
    ensures text != [] && text[0] == '['
  {
    "[" + Items(l) + "]"
  }

  /** A list of strings as decoded values. */
  function Strings(l: seq<string>): (vs: seq<Json>)
    ensures |vs| == |l| && forall i :: 0 <= i < |l| ==> vs[i] == JString(l[i])
  {
    if l == [] then [] else [JString(l[0])] + Strings(l[1..])
  }

  // ---------------------------------------------------------------------------------------
  // Decoding what was encoded

  lemma Hex4Parses(n: nat, rest: string)
    requires n < 0x10000
    ensures ParseHex4(Hex4(n) + rest) == Some((n, rest))
  {
    var s := Hex4(n) + rest;
    assert s[4..] == rest;
  }

  /** What follows the contents of a string, read on from an escaped character. */
  function Prepend(c: char, r: Option<(string, string)>): Option<(string, string)> {
    match r
    case None => None
    case Some((body, u)) => Some(([c] + body, u))
  }

  /** An escaped character followed by more string contents reads back as the character
      followed by those contents. */
  lemma EscapeCharParses(c: char, rest: string)
    ensures ParseStringBody(EscapeChar(c) + rest) == Prepend(c, ParseStringBody(rest))
  {
    if c == '"' || c == '\\' || c == '\n' || c == '\r' || c == '\t' || c == 8 as char || c == 12 as char {
      ShortEscapeParses(c, rest);
    } else if ' ' <= c <= '~' {
      var s := [c] + rest;
      assert s[1..] == rest;
    } else if c as int < 0x10000 {
      BmpEscapeParses(c, rest);
    } else {
      PairEscapeParses(c, rest);
    }
  }

  lemma ShortEscapeParses(c: char, rest: string)
    requires c == '"' || c == '\\' || c == '\n' || c == '\r' || c == '\t' || c == 8 as char || c == 12 as char
    ensures ParseStringBody(EscapeChar(c) + rest) == Prepend(c, ParseStringBody(rest))
  {
    var e := EscapeChar(c);
    assert |e| == 2 && e[0] == '\\';
    var s := e + rest;
    assert s[1..] == [e[1]] + rest;
    assert s[1..][1..] == rest;
    assert ParseEscape(s[1..]) == Some((c, rest));
  }

  lemma BmpEscapeParses(c: char, rest: string)
    requires !(' ' <= c <= '~') && c as int < 0x10000
    requires !(c == '"' || c == '\\' || c == '\n' || c == '\r' || c == '\t' || c == 8 as char || c == 12 as char)
    ensures ParseStringBody(EscapeChar(c) + rest) == Prepend(c, ParseStringBody(rest))
  {
    var h := Hex4(c as int);
    assert EscapeChar(c) + rest == "\\u" + (h + rest);
    Hex4Parses(c as int, rest);
    assert ParseUnicodeEscape(h + rest) == Some((c, rest));
    UnicodeEscapeStep(h + rest, c, rest);
  }

  lemma PairEscapeParses(c: char, rest: string)
    requires c as int >= 0x10000
    ensures ParseStringBody(EscapeChar(c) + rest) == Prepend(c, ParseStringBody(rest))
  {
    var v := c as int - 0x10000;
    var hi, lo := 0xD800 + v / 1024, 0xDC00 + v % 1024;
    var pair := Hex4(hi) + "\\u" + Hex4(lo) + rest;
    PairEscapeText(c, rest);
    PairOfChar(c, rest);
    UnicodeEscapeStep(pair, c, rest);
  }

  lemma PairEscapeText(c: char, rest: string)
    requires c as int >= 0x10000
    ensures var v := c as int - 0x10000;
      EscapeChar(c) + rest == "\\u" + (Hex4(0xD800 + v / 1024) + "\\u" + Hex4(0xDC00 + v % 1024) + rest)
  {
  }

  /** An escaped surrogate pair reads back as the character it encodes. */
  lemma PairOfChar(c: char, rest: string)
    requires c as int >= 0x10000
    ensures var v := c as int - 0x10000;
      ParseUnicodeEscape(Hex4(0xD800 + v / 1024) + "\\u" + Hex4(0xDC00 + v % 1024) + rest) == Some((c, rest))
  {
    var v := c as int - 0x10000;
    var hi, lo := 0xD800 + v / 1024, 0xDC00 + v % 1024;
    SurrogateFields(c);
    var tail := "\\u" + Hex4(lo) + rest;
    assert Hex4(hi) + "\\u" + Hex4(lo) + rest == Hex4(hi) + tail;
    Hex4Parses(hi, tail);
    assert tail[0] == '\\' && tail[1] == 'u' && tail[2..] == Hex4(lo) + rest;
    Hex4Parses(lo, rest);
    UnicodePairStep(Hex4(hi) + tail, hi, tail, lo, rest);
    assert (0x10000 + (hi - 0xD800) * 1024 + (lo - 0xDC00)) as char == c;
  }

  lemma UnicodePairStep(x: string, hi: nat, t: string, lo: nat, u: string)
    requires ParseHex4(x) == Some((hi, t)) && 0xD800 <= hi <= 0xDBFF
    requires |t| >= 2 && t[0] == '\\' && t[1] == 'u'
    requires ParseHex4(t[2..]) == Some((lo, u)) && 0xDC00 <= lo <= 0xDFFF
    ensures ParseUnicodeEscape(x) == Some(((0x10000 + (hi - 0xD800) * 1024 + (lo - 0xDC00)) as char, u))
  {
  }

  lemma SurrogateFields(c: char)
    requires c as int >= 0x10000
    ensures var v := c as int - 0x10000;
      var hi, lo := 0xD800 + v / 1024, 0xDC00 + v % 1024;
      0xD800 <= hi <= 0xDBFF && 0xDC00 <= lo <= 0xDFFF
      && 0x10000 + (hi - 0xD800) * 1024 + (lo - 0xDC00) == c as int
  {
  }

  /** A `\u` escape inside a string is read by `ParseUnicodeEscape`. */
  lemma UnicodeEscapeStep(x: string, c: char, t: string)
    requires ParseUnicodeEscape(x) == Some((c, t))
    ensures ParseStringBody("\\u" + x) == Prepend(c, ParseStringBody(t))
  {
    var s := "\\u" + x;
    assert s[1..] == ['u'] + x;
    assert s[1..][1..] == x;
  }

  /** A string's escaped contents followed by the closing quote read back as the string. */
  lemma {:induction false} EscapeParses(s: string, rest: string)
    ensures ParseStringBody(Escape(s) + "\"" + rest) == Some((s, rest))
  {
    if s == [] {
      assert Escape(s) + "\"" + rest == "\"" + rest;
    } else {
      var tail := Escape(s[1..]) + "\"" + rest;
      assert Escape(s) + "\"" + rest == EscapeChar(s[0]) + tail;
      EscapeParses(s[1..], rest);
      EscapeCharParses(s[0], tail);
      assert [s[0]] + s[1..] == s;
    }
  }

  /** A string literal reads back as the string. */
  lemma QuoteParses(s: string, rest: string)
    ensures ParseValue(Quote(s) + rest) == Some((JString(s), rest))
  {
    var text := Quote(s) + rest;
    assert text[1..] == Escape(s) + "\"" + rest;
    EscapeParses(s, rest);
  }

  /** The last element of an array. */
  lemma ElementsLast(s: string, v: Json, rest: string)
    requires ParseValue(s) == Some((v, "]" + rest))
    ensures ParseElements(s) == Some(([v], rest))
  {
    assert SkipWs("]" + rest) == "]" + rest;
    assert ("]" + rest)[1..] == rest;
  }

  /** An element followed by `", "` and more elements. */
  lemma ElementsNext(s: string, v: Json, next: string, vs: seq<Json>, w: string)
    requires ParseValue(s) == Some((v, ", " + next))
    requires next == [] || !IsWs(next[0])
    requires ParseElements(next) == Some((vs, w))
    ensures ParseElements(s) == Some(([v] + vs, w))
  {
    SeparatorSkipped(next);
  }

  /** After `", "` the next element starts. */
  lemma SeparatorSkipped(next: string)
    requires next == [] || !IsWs(next[0])
    ensures var after := ", " + next; SkipWs(after) == after && after[0] == ',' && SkipWs(after[1..]) == next
  {
    var after := ", " + next;
    assert after[1..] == " " + next;
    assert (" " + next)[1..] == next;
  }

  /** Texts each of which reads back as a value, whatever follows it. */
  ghost predicate ElementTexts(qs: seq<string>, vs: seq<Json>) {
    |qs| == |vs|
    && (forall i :: 0 <= i < |qs| ==> qs[i] != [] && !IsWs(qs[i][0]))
    && (forall i, r :: 0 <= i < |qs| ==> ParseValue(qs[i] + r) == Some((vs[i], r)))
  }

  /** String literals read back as the strings. */
  lemma QuotedTexts(l: seq<string>)
    ensures ElementTexts(Quoted(l), Strings(l))
  {
    var qs := Quoted(l);
    forall i, r | 0 <= i < |qs| ensures ParseValue(qs[i] + r) == Some((Strings(l)[i], r)) {
      QuoteParses(l[i], r);
    }
  }

  /** Elements joined with `", "` and the closing bracket read back as the elements. */
  lemma {:induction false} JoinParses(qs: seq<string>, vs: seq<Json>, rest: string)
    requires qs != [] && ElementTexts(qs, vs)
    ensures ParseElements(JoinItems(qs) + ("]" + rest)) == Some((vs, rest))
    decreases |qs|
  {
    if |qs| == 1 {
      assert JoinItems(qs) == qs[0];
      ElementsLast(JoinItems(qs) + ("]" + rest), vs[0], rest);
      assert vs == [vs[0]];
    } else {
      var next := JoinItems(qs[1..]) + ("]" + rest);
      JoinText(qs, "]" + rest);
      assert ParseValue(qs[0] + (", " + next)) == Some((vs[0], ", " + next));
      JoinStarts(qs[1..], "]" + rest);
      assert ElementTexts(qs[1..], vs[1..]) by {
        forall i, r | 0 <= i < |qs[1..]| ensures ParseValue(qs[1..][i] + r) == Some((vs[1..][i], r)) {
          assert qs[1..][i] == qs[i + 1];
        }
      }
      JoinParses(qs[1..], vs[1..], rest);
      ElementsNext(qs[0] + (", " + next), vs[0], next, vs[1..], rest);
      assert [vs[0]] + vs[1..] == vs;
    }
  }

  lemma JoinText(qs: seq<string>, tail: string)
    requires |qs| >= 2
    ensures JoinItems(qs) + tail == qs[0] + (", " + (JoinItems(qs[1..]) + tail))
  {
    var a, j := qs[0], JoinItems(qs[1..]);
    assert JoinItems(qs) == a + ", " + j;
    Regroup4(a, ", ", j, tail);
  }

  lemma Regroup4(a: string, b: string, c: string, d: string)
    ensures a + b + c + d == a + (b + (c + d))
  {
  }

  /** Joined texts start with the first text. */
  lemma JoinStarts(qs: seq<string>, rest: string)
    requires qs != [] && qs[0] != []
    ensures (JoinItems(qs) + rest)[0] == qs[0][0]
  {
  }

  /** The round trip: a list of strings written with `json.dumps` reads back with `json.loads`
      as the same list, the empty list included. */
  lemma LoadsDumpStrings(l: seq<string>)
    ensures Loads(DumpStrings(l)) == Ok(JArray(Strings(l)))
  {
    var text := DumpStrings(l);
    if l == [] {
      assert Quoted(l) == [];
      assert text == "[]";
      EmptyListParses();
    } else {
      ListParses(l);
    }
    assert SkipWs(text) == text;
  }

  lemma ListParses(l: seq<string>)
    requires l != []
    ensures ParseValue(DumpStrings(l)) == Some((JArray(Strings(l)), []))
  {
    var text := DumpStrings(l);
    var qs := Quoted(l);
    QuotedTexts(l);
    assert text[1..] == JoinItems(qs) + ("]" + []);
    JoinStarts(qs, "]");
    assert qs[0][0] == '"';
    JoinParses(qs, Strings(l), []);
  }

  lemma EmptyListParses()
    ensures ParseValue("[]") == Some((JArray([]), []))
  {
    var text := "[]";
    assert text[1..] == "]";
    assert SkipWs("]") == "]";
    assert "]"[1..] == [];
  }

  /** A character no JSON value starts with. */
  predicate NoValueStart(c: char) {
    !IsWs(c) && c != '"' && c != '{' && c != '[' && c != 'n' && c != 't' && c != 'f'
    && c != '-' && c != 'N' && c != 'I' && !IsAsciiDigit(c)
  }

  /** Text that is empty or only whitespace is malformed, and so is text that starts with a
      character no value starts with, such as a bare file name or URL. */
  lemma LoadsRejectsNonValues(text: string)
    requires SkipWs(text) == [] || NoValueStart(SkipWs(text)[0])
    ensures Loads(text).Err?
  {
    var s := SkipWs(text);
    if s != [] {
      ScalarRejects(s);
    }
  }

  lemma ScalarRejects(s: string)
    requires s != [] && NoValueStart(s[0])
    ensures ParseScalar(s).None?
  {
    NotStartsWith(s, "null");
    NotStartsWith(s, "true");
    NotStartsWith(s, "false");
    NotStartsWith(s, "NaN");
    NotStartsWith(s, "Infinity");
    NotStartsWith(s, "-Infinity");
  }

  lemma NotStartsWith(s: string, p: string)
    requires s != [] && p != [] && s[0] != p[0]
    ensures !StartsWith(s, p)
  {
  }

  /** An unterminated empty array is malformed. */
  lemma LoadsRejectsUnclosedArray()
    ensures Loads("[").Err?
  {
    assert SkipWs("[") == "[";
    assert "["[1..] == [];
  }
}
