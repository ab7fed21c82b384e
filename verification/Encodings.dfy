/** Two small encodings of the page templates, with their readers. */
module Encodings {
  import opened Wrappers
  import opened Sequences
  import opened Decimals
  import opened Texts
  import opened Minify

  // ---- series_data and parseSeries

  datatype Point = Point(minute: int, value: int)

  function Item(p: Point): string {
    Format(p.minute) + ":" + Format(p.value)
  }

  function Items(values: seq<Point>): seq<string> {
    if values == [] then [] else [Item(values[0])] + Items(values[1..])
  }

  function SeriesData(values: seq<Point>): string {
    Join(Items(values), ',')
  }

  // Number() of a decimal integer, and of the empty text; None stands for what is not finite.
  function Number(s: string): Option<int> {
    if s == "" then Some(0) else Parse(s)
  }

  function ParseItem(item: string): Option<Point> {
    var parts := Split(item, ':');
    if |parts| < 2 then None
    else
      match (Number(parts[0]), Number(parts[1]))
      case (Some(minute), Some(value)) => Some(Point(minute, value))
      case _ => None
  }

  function ParseItems(items: seq<string>): seq<Point> {
    if items == [] then [] else
      (match ParseItem(items[0]) case Some(p) => [p] case None => []) + ParseItems(items[1..])
  }

  function ParseSeries(raw: string): seq<Point> {
    ParseItems(NonEmpty(Split(raw, ',')))
  }

  lemma ParseItemOfItem(p: Point)
    ensures ParseItem(Item(p)) == Some(p)
    ensures Item(p) != "" && ',' !in Item(p)
  {
    var a, b := Format(p.minute), Format(p.value);
    ParseFormat(p.minute);
    ParseFormat(p.value);
    assert ':' !in a && ':' !in b && ',' !in a && ',' !in b;
    assert Join([a], ':') == a && [a, b][..1] == [a];
    assert Join([a, b], ':') == a + ":" + b;
    SplitJoin([a, b], ':');
  }

  lemma {:induction false} ParseItemsOfItems(values: seq<Point>)
    ensures ParseItems(Items(values)) == values
    ensures forall item :: item in Items(values) ==> item != "" && ',' !in item
    ensures |Items(values)| == |values|
  {
    if values != [] {
      ParseItemOfItem(values[0]);
      ParseItemsOfItems(values[1..]);
      assert Items(values)[1..] == Items(values[1..]);
      assert values == [values[0]] + values[1..];
    }
  }

  // The dashboard's script reads back every series the template prints.
  lemma SeriesRoundTrip(values: seq<Point>)
    ensures ParseSeries(SeriesData(values)) == values
  {
    ParseItemsOfItems(values);
    if values == [] {
      assert Split("", ',') == [""];
      assert NonEmpty([""]) == [];
    } else {
      SplitJoin(Items(values), ',');
      NonEmptyAll(Items(values));
    }
  }

  // ---- svg_data_uri

  type Byte = b: nat | b < 256

  const PREFIX := "data:image/svg+xml,"

  // UTF-8 of one character (section 3 of RFC 3629).
  function Utf8Char(c: char): seq<Byte> {
    var n := c as int;
    if n < 0x80 then [n]
    else if n < 0x800 then [0xC0 + n / 64, 0x80 + n % 64]
    else if n < 0x1_0000 then [0xE0 + n / 64 / 64, 0x80 + n / 64 % 64, 0x80 + n % 64]
    else [0xF0 + n / 64 / 64 / 64, 0x80 + n / 64 / 64 % 64, 0x80 + n / 64 % 64, 0x80 + n % 64]
  }

  function Utf8(s: string): seq<Byte> {
    if s == "" then [] else Utf8Char(s[0]) + Utf8(s[1..])
  }

  // How many bytes a character takes, by its first (0 for a byte that starts none), and what the first adds.
  function Width(b: Byte): nat {
    if b < 0x80 then 1 else if b < 0xC0 then 0 else if b < 0xE0 then 2 else if b < 0xF0 then 3
    else if b < 0xF8 then 4 else 0
  }

  function Lead(b: Byte): nat {
    if b < 0x80 then b else if b < 0xE0 then b % 32 else if b < 0xF0 then b % 16 else b % 8
  }

  // The number that the bytes of one character stand for.
  function Scalar(bytes: seq<Byte>): int
    requires bytes != []
  {
    var n := |bytes| - 1;
    if n == 0 then Lead(bytes[0]) else 64 * Scalar(bytes[..n]) + bytes[n] - 0x80
  }

  function Utf8Decoded(bytes: seq<Byte>): Option<string> {
    if bytes == [] then Some("") else
      var n := Width(bytes[0]);
      if n == 0 || |bytes| < n then None
      else
        var value := Scalar(bytes[..n]);
        match Utf8Decoded(bytes[n..])
        case Some(rest) =>
          if 0 <= value < 0xD800 || 0xE000 <= value < 0x11_0000 then Some([value as char] + rest) else None
        case None => None
  }

  lemma ScalarSnoc(front: seq<Byte>, b: Byte)
    requires front != []
    ensures Scalar(front + [b]) == 64 * Scalar(front) + b - 0x80
  {
    assert (front + [b])[..|front|] == front;
  }

  lemma ScalarOfTwo(a: Byte, b: Byte)
    ensures Scalar([a, b]) == 64 * Lead(a) + b - 0x80
  {
    ScalarSnoc([a], b);
    assert [a, b] == [a] + [b];
  }

  lemma ScalarOfThree(a: Byte, b: Byte, c: Byte)
    ensures Scalar([a, b, c]) == 4096 * Lead(a) + 64 * (b - 0x80) + c - 0x80
  {
    ScalarOfTwo(a, b);
    ScalarSnoc([a, b], c);
    assert [a, b, c] == [a, b] + [c];
  }

  lemma ScalarOfFour(a: Byte, b: Byte, c: Byte, e: Byte)
    ensures Scalar([a, b, c, e]) == 262144 * Lead(a) + 4096 * (b - 0x80) + 64 * (c - 0x80) + e - 0x80
  {
    ScalarOfThree(a, b, c);
    ScalarSnoc([a, b, c], e);
    assert [a, b, c, e] == [a, b, c] + [e];
  }

  lemma Utf8CharIs(c: char)
    ensures Utf8Char(c) != [] && Width(Utf8Char(c)[0]) == |Utf8Char(c)|
    ensures Scalar(Utf8Char(c)) == c as int
  {
    var bytes, n := Utf8Char(c), c as int;
    if n >= 0x1_0000 {
      ScalarOfFour(bytes[0], bytes[1], bytes[2], bytes[3]);
      assert Lead(bytes[0]) == n / 64 / 64 / 64;
    } else if n >= 0x800 {
      ScalarOfThree(bytes[0], bytes[1], bytes[2]);
      assert Lead(bytes[0]) == n / 64 / 64;
    } else if n >= 0x80 {
      ScalarOfTwo(bytes[0], bytes[1]);
      assert Lead(bytes[0]) == n / 64;
    }
  }

  lemma {:induction false} Utf8RoundTrip(s: string)
    ensures Utf8Decoded(Utf8(s)) == Some(s)
  {
    if s != "" {
      Utf8RoundTrip(s[1..]);
      Utf8CharIs(s[0]);
      var own, rest := Utf8Char(s[0]), Utf8(s[1..]);
      assert (own + rest)[..|own|] == own && (own + rest)[|own|..] == rest;
      assert [s[0]] + s[1..] == s;
    }
  }

  predicate MustEscape(b: Byte) {
    var c := b as char;
    || b <= 31 || b >= 127
    || c == ' ' || c == '"' || c == '#' || c == '%' || c == '&' || c == '<' || c == '>' || c == '?'
    || c == '`' || c == '{' || c == '}' || c == '|' || c == '\'' || c == '\\' || c == '^'
  }

  function HexDigit(d: nat): char
    requires d < 16
  {
    if d < 10 then ('0' as int + d) as char else ('A' as int + (d - 10)) as char
  }

  function Escaped(b: Byte): string {
    if MustEscape(b) then "%" + [HexDigit(b / 16), HexDigit(b % 16)] else [b as char]
  }

  function EscapedAll(bytes: seq<Byte>): string {
    if bytes == [] then "" else EscapedAll(bytes[..|bytes| - 1]) + Escaped(bytes[|bytes| - 1])
  }

  // ---- Percent-decoding (section 2.1 of RFC 3986)

  function HexValue(c: char): Option<nat> {
    if '0' <= c <= '9' then Some(c as int - '0' as int)
    else if 'A' <= c <= 'F' then Some(c as int - 'A' as int + 10)
    else if 'a' <= c <= 'f' then Some(c as int - 'a' as int + 10)
    else None
  }

  function PercentDecoded(s: string): Option<seq<Byte>> {
    if s == "" then Some([])
    else if s[0] == '%' then
      if |s| < 3 then None
      else
        match (HexValue(s[1]), HexValue(s[2]), PercentDecoded(s[3..]))
        case (Some(high), Some(low), Some(rest)) =>
          if 16 * high + low < 256 then Some([16 * high + low] + rest) else None
        case _ => None
    else if s[0] as int < 128 then
      match PercentDecoded(s[1..])
      case Some(rest) => Some([s[0] as int] + rest)
      case None => None
    else None
  }

  // ---- The characters of a URI (sections 2.2, 2.3 and 3.3 of RFC 3986)

  predicate IsUnreserved(c: char) {
    'A' <= c <= 'Z' || 'a' <= c <= 'z' || '0' <= c <= '9' || c == '-' || c == '.' || c == '_' || c == '~'
  }

  predicate IsSubDelimiter(c: char) {
    || c == '!' || c == '$' || c == '&' || c == '\'' || c == '(' || c == ')'
    || c == '*' || c == '+' || c == ',' || c == ';' || c == '='
  }

  // pchar, but for escapes, and the slash between segments
  predicate IsPathCharacter(c: char) {
    IsUnreserved(c) || IsSubDelimiter(c) || c == ':' || c == '@' || c == '/'
  }

  // What may stand raw: path characters that mean nothing in an attribute's value, and square brackets.
  predicate IsRaw(c: char) {
    (IsPathCharacter(c) && c != '&' && c != '\'') || c == '[' || c == ']'
  }

  predicate IsHex(c: char) {
    HexValue(c).Some?
  }

  predicate IsUpperHex(c: char) {
    c in "0123456789ABCDEF"
  }

  // Every character is allowed to stand raw or belongs to an escape of two hexadecimal digits.
  predicate Escapes(s: string, raw: char -> bool, hex: char -> bool) {
    if s == "" then true
    else if s[0] == '%' then
      |s| >= 3 && hex(s[1]) && hex(s[2]) && Escapes(s[3..], raw, hex)
    else raw(s[0]) && Escapes(s[1..], raw, hex)
  }

  // A path as section 3.3 of RFC 3986 has it.
  predicate IsPath(s: string) {
    Escapes(s, IsPathCharacter, IsHex)
  }

  predicate IsBracket(b: Byte) {
    b == '[' as int || b == ']' as int
  }

  // The code's list leaves exactly those characters raw.
  lemma RawIs(b: Byte)
    ensures MustEscape(b) <==> !IsRaw(b as char)
    ensures !MustEscape(b) ==> (IsPathCharacter(b as char) <==> !IsBracket(b))
  {
  }

  lemma HexRoundTrip(d: nat)
    requires d < 16
    ensures HexValue(HexDigit(d)) == Some(d) && IsUpperHex(HexDigit(d))
  {
  }

  lemma DecodeEscaped(b: Byte, rest: string)
    ensures PercentDecoded(rest).Some? ==> PercentDecoded(Escaped(b) + rest) == Some([b] + PercentDecoded(rest).value)
    ensures Escapes(rest, IsRaw, IsUpperHex) ==> Escapes(Escaped(b) + rest, IsRaw, IsUpperHex)
    ensures IsPath(Escaped(b) + rest) <==> !IsBracket(b) && IsPath(rest)
  {
    var s := Escaped(b) + rest;
    RawIs(b);
    if MustEscape(b) {
      HexRoundTrip(b / 16);
      HexRoundTrip(b % 16);
      assert s[0] == '%' && s[1] == HexDigit(b / 16) && s[2] == HexDigit(b % 16) && s[3..] == rest;
    } else {
      assert s[0] == b as char && s[1..] == rest;
    }
  }

  lemma {:induction false} EscapedAllFirst(bytes: seq<Byte>)
    requires bytes != []
    ensures EscapedAll(bytes) == Escaped(bytes[0]) + EscapedAll(bytes[1..])
  {
    var n := |bytes| - 1;
    if n > 0 {
      EscapedAllFirst(bytes[..n]);
      assert bytes[..n][1..] == bytes[1..][..n - 1];
      var middle := EscapedAll(bytes[1..n]);
      assert Escaped(bytes[0]) + (middle + Escaped(bytes[n])) == (Escaped(bytes[0]) + middle) + Escaped(bytes[n]);
    } else {
      assert bytes[..0] == [] && bytes[1..] == [];
      assert "" + Escaped(bytes[0]) == Escaped(bytes[0]) + "";
    }
  }

  ghost predicate NoBracket(bytes: seq<Byte>) {
    forall b :: b in bytes ==> !IsBracket(b)
  }

  // Decoding the body of the URI gives the bytes back, for every input. Its raw characters are never such as
  // to start a query or a fragment or to end an attribute; they all belong in a path exactly if there is no
  // square bracket among the bytes.
  lemma {:induction false} PercentRoundTrip(bytes: seq<Byte>)
    ensures PercentDecoded(EscapedAll(bytes)) == Some(bytes)
    ensures Escapes(EscapedAll(bytes), IsRaw, IsUpperHex)
    ensures IsPath(EscapedAll(bytes)) <==> NoBracket(bytes)
  {
    if bytes != [] {
      EscapedAllFirst(bytes);
      PercentRoundTrip(bytes[1..]);
      assert [bytes[0]] + bytes[1..] == bytes;
      DecodeEscaped(bytes[0], EscapedAll(bytes[1..]));
      assert NoBracket(bytes) <==> !IsBracket(bytes[0]) && NoBracket(bytes[1..]);
    }
  }

  lemma NoBracketConcat(a: seq<Byte>, b: seq<Byte>)
    ensures NoBracket(a + b) <==> NoBracket(a) && NoBracket(b)
  {
    forall x | x in a ensures x in a + b { }
    forall x | x in b ensures x in a + b { }
  }

  lemma {:induction false} Utf8Brackets(s: string)
    ensures NoBracket(Utf8(s)) <==> '[' !in s && ']' !in s
  {
    if s == "" {
      assert NoBracket([]);
    } else {
      Utf8Brackets(s[1..]);
      Utf8CharBracket(s[0]);
      var a, b := Utf8Char(s[0]), Utf8(s[1..]);
      assert s == [s[0]] + s[1..];
      assert forall c :: c in s <==> c == s[0] || c in s[1..];
      assert Utf8(s) == a + b;
      NoBracketConcat(a, b);
    }
  }

  lemma Utf8CharBracket(c: char)
    ensures NoBracket(Utf8Char(c)) <==> c != '[' && c != ']'
  {
    if c == '[' || c == ']' {
      var b := Utf8Char(c)[0];
      assert b in Utf8Char(c) && IsBracket(b);
    }
  }

  // What the body of a URI tells of a text.
  ghost predicate Carries(body: string, text: string) {
    && PercentDecoded(body).Some? && Utf8Decoded(PercentDecoded(body).value) == Some(text)
    && Escapes(body, IsRaw, IsUpperHex)
    && (IsPath(body) <==> '[' !in text && ']' !in text)
  }

  lemma BodyCarries(text: string)
    ensures Carries(EscapedAll(Utf8(text)), text)
  {
    PercentRoundTrip(Utf8(text));
    Utf8RoundTrip(text);
    Utf8Brackets(text);
  }

  method SvgDataUri(svg: string) returns (uri: string)
    ensures "data:image/svg+xml," <= uri
    ensures exists i: nat, j: nat :: TrimsTo(svg, i, j) && Carries(uri[|"data:image/svg+xml,"|..], svg[i..j])
  {
    uri := PREFIX;
    var trimmed := Trim(svg);
    var bytes := Utf8(trimmed);
    for i := 0 to |bytes|
      invariant uri == PREFIX + EscapedAll(bytes[..i])
    {
      assert bytes[..i + 1][..i] == bytes[..i];
      var byte := bytes[i];
      Associative(PREFIX, EscapedAll(bytes[..i]), Escaped(byte));
      if MustEscape(byte) {
        uri := uri + ("%" + [HexDigit(byte / 16), HexDigit(byte % 16)]);
      } else {
        uri := uri + [byte as char];
      }
    }
    assert bytes[..|bytes|] == bytes;
    assert uri[|PREFIX|..] == EscapedAll(bytes);
    BodyCarries(trimmed);
  }
}
