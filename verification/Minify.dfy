/** The build script's CSS and JavaScript minifiers, against a lexer and a printer of tokens. */
module Minify {
  import opened Wrappers
  import opened Sequences

  datatype Dialect = Css | Js

  // char::is_whitespace: the Unicode White_Space property.
  predicate IsWhitespace(c: char) {
    || '\t' <= c <= '\r' || c == ' ' || c == '\U{85}' || c == '\U{A0}' || c == '\U{1680}'
    || '\U{2000}' <= c <= '\U{200A}' || c == '\U{2028}' || c == '\U{2029}' || c == '\U{202F}'
    || c == '\U{205F}' || c == '\U{3000}'
  }

  // The 25 characters of the property.
  lemma WhitespaceIs(c: char)
    ensures IsWhitespace(c) <==>
              c as int in {0x9, 0xA, 0xB, 0xC, 0xD, 0x20, 0x85, 0xA0, 0x1680, 0x2000, 0x2001, 0x2002, 0x2003, 0x2004,
                           0x2005, 0x2006, 0x2007, 0x2008, 0x2009, 0x200A, 0x2028, 0x2029, 0x202F, 0x205F, 0x3000}
  {
  }

  predicate IsIdentChar(c: char) {
    'a' <= c <= 'z' || 'A' <= c <= 'Z' || '0' <= c <= '9' || c == '_' || c == '$' || c == '-'
  }

  predicate IsCssPunctuation(c: char) {
    c in "{}:;,>+~()"
  }

  predicate IsQuote(d: Dialect, c: char) {
    c == '\'' || c == '"' || (d.Js? && c == '`')
  }

  predicate NeedsCssSpace(previous: Option<char>, current: char) {
    previous.Some? && IsIdentChar(previous.value) && IsIdentChar(current)
  }

  predicate NeedsJsSpace(previous: Option<char>, current: char) {
    && previous.Some?
    && (|| (IsIdentChar(previous.value) && IsIdentChar(current))
        || (IsIdentChar(previous.value) && current in "[({'\"`")
        || ((previous.value == '+' || previous.value == '-') && previous.value == current))
  }

  predicate NeedsSpace(d: Dialect, previous: Option<char>, current: char) {
    if d.Css? then NeedsCssSpace(previous, current) else NeedsJsSpace(previous, current)
  }

  // ---- Tokens

  // A string literal as written, quotes included, or any other single character.
  datatype Token = Code(c: char) | Str(text: string)

  // A token, and whether space or a comment came before it.
  datatype Item = Item(separated: bool, token: Token)

  function Text(t: Token): string {
    match t
    case Code(c) => [c]
    case Str(text) => text
  }

  // The length of a string literal's rest, after its opening quote: to the closing quote or the end.
  function StringRest(s: string, quote: char): (n: nat)
    ensures n <= |s|
  {
    if s == "" then 0
    else if s[0] == '\\' then if |s| == 1 then 1 else 2 + StringRest(s[2..], quote)
    else if s[0] == quote then 1
    else 1 + StringRest(s[1..], quote)
  }

  // The length of a block comment's rest, after its opening.
  function BlockRest(s: string): (n: nat)
    ensures n <= |s|
  {
    if s == "" then 0
    else if s[0] == '*' && |s| > 1 && s[1] == '/' then 2
    else 1 + BlockRest(s[1..])
  }

  // The length of a line comment's rest, its line break included.
  function LineRest(s: string): (n: nat)
    ensures n <= |s|
  {
    if s == "" then 0
    else if s[0] == '\n' || s[0] == '\r' then 1
    else 1 + LineRest(s[1..])
  }

  predicate StartsLineComment(d: Dialect, s: string) {
    d.Js? && |s| > 1 && s[0] == '/' && s[1] == '/'
  }

  predicate StartsBlockComment(s: string) {
    |s| > 1 && s[0] == '/' && s[1] == '*'
  }

  function Lex(d: Dialect, s: string, separated: bool): seq<Item>
    decreases |s|
  {
    if s == "" then []
    else if StartsLineComment(d, s) then Lex(d, s[2 + LineRest(s[2..])..], true)
    else if StartsBlockComment(s) then Lex(d, s[2 + BlockRest(s[2..])..], true)
    else if IsQuote(d, s[0]) then
      var n := 1 + StringRest(s[1..], s[0]);
      [Item(separated, Str(s[..n]))] + Lex(d, s[n..], false)
    else if IsWhitespace(s[0]) then Lex(d, s[1..], true)
    else [Item(separated, Code(s[0]))] + Lex(d, s[1..], false)
  }

  function Last(s: string, otherwise: Option<char>): Option<char> {
    if s == "" then otherwise else Some(s[|s| - 1])
  }

  function Gap(d: Dialect, separated: bool, previous: Option<char>, text: string): string {
    if text != "" && separated && NeedsSpace(d, previous, text[0]) then " " else ""
  }

  // The tokens in order, with one space between two that were apart and need one.
  function Print(d: Dialect, items: seq<Item>, previous: Option<char>): string
    decreases |items|
  {
    if items == [] then "" else
      var text := Text(items[0].token);
      Gap(d, items[0].separated, previous, text) + text + Print(d, items[1..], Last(text, previous))
  }

  function TrimEnd(s: string): string {
    if s != "" && IsWhitespace(s[|s| - 1]) then TrimEnd(s[..|s| - 1]) else s
  }

  function TrimStart(s: string): string {
    if s != "" && IsWhitespace(s[0]) then TrimStart(s[1..]) else s
  }

  // The stretch from i to j, with nothing but white space around it and none at its ends.
  ghost predicate TrimsTo(s: string, i: nat, j: nat) {
    && i <= j <= |s|
    && (forall k :: 0 <= k < i || j <= k < |s| ==> IsWhitespace(s[k]))
    && (i < j ==> !IsWhitespace(s[i]) && !IsWhitespace(s[j - 1]))
  }

  lemma {:induction false} TrimStartIs(s: string) returns (i: nat)
    ensures i <= |s| && TrimStart(s) == s[i..]
    ensures forall k :: 0 <= k < i ==> IsWhitespace(s[k])
    ensures i < |s| ==> !IsWhitespace(s[i])
  {
    i := 0;
    if s != "" && IsWhitespace(s[0]) {
      var j := TrimStartIs(s[1..]);
      i := j + 1;
      assert forall k :: 0 < k < |s| ==> s[k] == s[1..][k - 1];
    }
  }

  lemma {:induction false} TrimEndAt(s: string) returns (j: nat)
    ensures j <= |s| && TrimEnd(s) == s[..j]
    ensures forall k :: j <= k < |s| ==> IsWhitespace(s[k])
    ensures j > 0 ==> !IsWhitespace(s[j - 1])
  {
    j := |s|;
    if s != "" && IsWhitespace(s[|s| - 1]) {
      j := TrimEndAt(s[..|s| - 1]);
    }
  }

  // str::trim takes away the white space at both ends, and nothing else.
  lemma TrimIs(s: string) returns (i: nat, j: nat)
    ensures TrimsTo(s, i, j) && TrimEnd(TrimStart(s)) == s[i..j]
  {
    i := TrimStartIs(s);
    var rest := s[i..];
    var n := TrimEndAt(rest);
    j := i + n;
    assert rest[..n] == s[i..j];
    forall k | j <= k < |s| ensures IsWhitespace(s[k]) {
      assert rest[k - i] == s[k];
    }
    if i < j {
      assert rest[n - 1] == s[j - 1];
    }
  }

  // The reference minifier.
  function Minified(d: Dialect, source: string): string {
    TrimEnd(TrimStart(Print(d, Lex(d, source, false), None)))
  }

  // ---- What is still to be printed when the loop stands before s

  function Remaining(d: Dialect, s: string, quote: Option<char>, pending: bool, previous: Option<char>): string {
    match quote
    case None => Print(d, Lex(d, s, pending), previous)
    case Some(q) =>
      var n := StringRest(s, q);
      s[..n] + Print(d, Lex(d, s[n..], false), Last(s[..n], previous))
  }

  // A character, or an escape and the character it escapes, goes through inside a string.
  lemma RemainingInString(d: Dialect, s: string, q: char, pending: bool, previous: Option<char>, k: nat)
    requires 1 <= k <= |s|
    requires k == if s[0] == '\\' && |s| > 1 then 2 else 1
    ensures Remaining(d, s, Some(q), pending, previous)
            == s[..k] + Remaining(d, s[k..], if s[0] != '\\' && s[0] == q then None else Some(q), false, Some(s[k - 1]))
  {
    var n := StringRest(s, q);
    if s[0] != '\\' && s[0] == q {
      assert s[..n] == s[..k];
    } else {
      var m := StringRest(s[k..], q);
      assert n == k + m;
      assert s[..n] == s[..k] + s[k..][..m];
      assert s[n..] == s[k..][m..];
      assert Last(s[..n], previous) == Last(s[k..][..m], Some(s[k - 1]));
      assert s[..k] + (s[k..][..m] + Remaining(d, s[n..], None, false, Last(s[..n], previous)))
          == s[..n] + Remaining(d, s[n..], None, false, Last(s[..n], previous));
    }
  }

  lemma Regroup(a: string, b: string, c: string, e: string)
    ensures a + (b + c + e) == (a + b + c) + e
    ensures a + b + (c + e) == (a + (b + c)) + e
  {
  }

  lemma RemainingAtQuote(d: Dialect, s: string, pending: bool, previous: Option<char>)
    requires s != "" && IsQuote(d, s[0])
    requires !StartsLineComment(d, s) && !StartsBlockComment(s)
    ensures Remaining(d, s, None, pending, previous)
            == Gap(d, pending, previous, [s[0]]) + [s[0]] + Remaining(d, s[1..], Some(s[0]), false, Some(s[0]))
  {
    var c, body := s[0], s[1..];
    var m := StringRest(body, c);
    var text, rest := s[..1 + m], s[1 + m..];
    assert text == [c] + body[..m] && rest == body[m..];
    var items := Lex(d, rest, false);
    PrintFirst(d, Item(pending, Str(text)), items, previous);
    assert Last(text, previous) == Last(body[..m], Some(c));
    Regroup(Gap(d, pending, previous, [c]), [c], body[..m], Print(d, items, Last(text, previous)));
  }

  lemma PrintFirst(d: Dialect, first: Item, rest: seq<Item>, previous: Option<char>)
    ensures var text := Text(first.token);
            Print(d, [first] + rest, previous)
            == Gap(d, first.separated, previous, text) + text + Print(d, rest, Last(text, previous))
  {
    assert ([first] + rest)[1..] == rest;
  }

  lemma RemainingAtCode(d: Dialect, s: string, pending: bool, previous: Option<char>)
    requires s != "" && !IsQuote(d, s[0]) && !IsWhitespace(s[0])
    requires !StartsLineComment(d, s) && !StartsBlockComment(s)
    ensures Remaining(d, s, None, pending, previous)
            == Gap(d, pending, previous, [s[0]]) + [s[0]] + Remaining(d, s[1..], None, false, Some(s[0]))
  {
    PrintFirst(d, Item(pending, Code(s[0])), Lex(d, s[1..], false), previous);
  }

  // ---- The minifiers

  predicate EndsInSpace(s: string) {
    s != "" && s[|s| - 1] == ' '
  }

  method TrimSpace(value: string) returns (trimmed: string)
    ensures trimmed <= value && !EndsInSpace(trimmed)
    ensures forall i :: |trimmed| <= i < |value| ==> value[i] == ' '
    ensures !EndsInSpace(value) ==> trimmed == value
  {
    trimmed := value;
    while EndsInSpace(trimmed)
      decreases |trimmed|
      invariant trimmed <= value
      invariant forall i :: |trimmed| <= i < |value| ==> value[i] == ' '
      invariant !EndsInSpace(value) ==> trimmed == value
    {
      trimmed := trimmed[..|trimmed| - 1];
    }
  }

  // The loop that skips a block comment, from after its opening.
  method SkipBlock(source: string, from: nat) returns (i: nat)
    requires from <= |source|
    ensures i == from + BlockRest(source[from..])
  {
    i := from;
    while i < |source|
      invariant from <= i <= |source|
      invariant from + BlockRest(source[from..]) == i + BlockRest(source[i..])
    {
      assert source[i..][1..] == source[i + 1..];
      var next := source[i];
      i := i + 1;
      if next == '*' && i < |source| && source[i] == '/' {
        i := i + 1;
        return;
      }
    }
  }

  method SkipLine(source: string, from: nat) returns (i: nat)
    requires from <= |source|
    ensures i == from + LineRest(source[from..])
  {
    i := from;
    while i < |source|
      invariant from <= i <= |source|
      invariant from + LineRest(source[from..]) == i + LineRest(source[i..])
    {
      assert source[i..][1..] == source[i + 1..];
      var next := source[i];
      i := i + 1;
      if next == '\n' || next == '\r' {
        return;
      }
    }
  }

  // What the loops keep: what is out and what remains make up the whole; no space ends `out` in code.
  ghost predicate Progress(d: Dialect, source: string, i: nat, out: string, quote: Option<char>, pending: bool) {
    && i <= |source|
    && Print(d, Lex(d, source, false), None) == out + Remaining(d, source[i..], quote, pending, Last(out, None))
    && (quote.None? ==> !EndsInSpace(out))
    && (quote.Some? ==> IsQuote(d, quote.value) && !pending)
  }

  predicate LineCommentAt(d: Dialect, source: string, i: nat) {
    d.Js? && i + 1 < |source| && source[i] == '/' && source[i + 1] == '/'
  }

  predicate BlockCommentAt(source: string, i: nat) {
    i + 1 < |source| && source[i] == '/' && source[i + 1] == '*'
  }

  lemma CommentsAt(d: Dialect, source: string, i: nat)
    requires i < |source|
    ensures StartsLineComment(d, source[i..]) == LineCommentAt(d, source, i)
    ensures StartsBlockComment(source[i..]) == BlockCommentAt(source, i)
  {
  }

  // Inside a string: one character, or an escape with its character.
  method StringStep(d: Dialect, source: string, i: nat, out: string, q: char)
    returns (j: nat, more: string, quote: Option<char>)
    requires i < |source| && Progress(d, source, i, out, Some(q), false)
    ensures i < j && Progress(d, source, j, more, quote, false)
  {
    var ch := source[i];
    more, quote, j := out + [ch], Some(q), i + 1;
    OneMore(out, source, i);
    if ch == '\\' {
      if j < |source| {
        TwoMore(out, source, i);
        more, j := more + [source[j]], j + 1;
      }
    } else if ch == q {
      quote := None;
    }
    StringProgress(d, source, i, out, q, j - i);
  }

  lemma OneMore(out: string, source: string, i: nat)
    requires i < |source|
    ensures out + [source[i]] == out + source[i..i + 1]
  {
    assert source[i..i + 1] == [source[i]];
  }

  lemma TwoMore(out: string, source: string, i: nat)
    requires i + 1 < |source|
    ensures out + [source[i]] + [source[i + 1]] == out + source[i..i + 2]
  {
    assert source[i..i + 2] == [source[i]] + [source[i + 1]];
    Associative(out, [source[i]], [source[i + 1]]);
  }

  // What goes out is no longer to come.
  lemma Advance(d: Dialect, source: string, i: nat, out: string, quote: Option<char>, pending: bool,
                j: nat, more: string, quote': Option<char>, pending': bool)
    requires Progress(d, source, i, out, quote, pending) && j <= |source|
    requires Remaining(d, source[i..], quote, pending, Last(out, None))
             == more + Remaining(d, source[j..], quote', pending', Last(out + more, None))
    requires quote'.None? ==> !EndsInSpace(out + more)
    requires quote'.Some? ==> IsQuote(d, quote'.value) && !pending'
    ensures Progress(d, source, j, out + more, quote', pending')
  {
    Associative(out, more, Remaining(d, source[j..], quote', pending', Last(out + more, None)));
  }

  lemma LastOf(out: string, more: string)
    requires more != ""
    ensures Last(out + more, None) == Some(more[|more| - 1])
    ensures EndsInSpace(out + more) <==> more[|more| - 1] == ' '
  {
  }

  lemma StringProgress(d: Dialect, source: string, i: nat, out: string, q: char, k: nat)
    requires i < |source| && Progress(d, source, i, out, Some(q), false)
    requires k == if source[i] == '\\' && i + 1 < |source| then 2 else 1
    ensures Progress(d, source, i + k, out + source[i..i + k],
                     if source[i] != '\\' && source[i] == q then None else Some(q), false)
  {
    var quote := if source[i] != '\\' && source[i] == q then None else Some(q);
    RemainingInString(d, source[i..], q, false, Last(out, None), k);
    Stretch(source, i, k);
    Tail(source, i, i + k);
    LastOf(out, source[i..i + k]);
    Advance(d, source, i, out, Some(q), false, i + k, source[i..i + k], quote, false);
  }

  lemma SkipComment(d: Dialect, source: string, i: nat, out: string, pending: bool, j: nat)
    requires i < |source| && Progress(d, source, i, out, None, pending)
    requires (LineCommentAt(d, source, i) && j == i + 2 + LineRest(source[i + 2..]))
          || (!LineCommentAt(d, source, i) && BlockCommentAt(source, i) && j == i + 2 + BlockRest(source[i + 2..]))
    ensures Progress(d, source, j, out, None, true)
  {
    CommentsAt(d, source, i);
    Tail(source, i, i + 2);
    Tail(source, i, j);
    assert Lex(d, source[i..], pending) == Lex(d, source[j..], true);
    Skipped(d, source, i, out, pending, j);
  }

  lemma Skipped(d: Dialect, source: string, i: nat, out: string, pending: bool, j: nat)
    requires i <= j <= |source| && Progress(d, source, i, out, None, pending)
    requires Lex(d, source[i..], pending) == Lex(d, source[j..], true)
    ensures Progress(d, source, j, out, None, true)
  {
  }

  lemma Stretch(s: string, i: nat, k: nat)
    requires i + k <= |s|
    ensures s[i..][..k] == s[i..i + k]
  {
  }

  lemma Tail(s: string, i: nat, j: nat)
    requires i <= j <= |s|
    ensures s[i..][j - i..] == s[j..]
  {
  }

  lemma SkipWhitespace(d: Dialect, source: string, i: nat, out: string, pending: bool)
    requires i < |source| && Progress(d, source, i, out, None, pending)
    requires IsWhitespace(source[i])
    ensures Progress(d, source, i + 1, out, None, true)
  {
    CommentsAt(d, source, i);
    Tail(source, i, i + 1);
    Skipped(d, source, i, out, pending, i + 1);
  }

  // In code: the first character of a token, after a space if one is pending and needed.
  method PushToken(d: Dialect, source: string, i: nat, out: string, pending: bool) returns (more: string)
    requires i < |source| && Progress(d, source, i, out, None, pending)
    requires !LineCommentAt(d, source, i) && !BlockCommentAt(source, i) && !IsWhitespace(source[i])
    ensures more == out + Gap(d, pending, Last(out, None), [source[i]]) + [source[i]]
    ensures Progress(d, source, i + 1, more, if IsQuote(d, source[i]) then Some(source[i]) else None, false)
  {
    var c := source[i];
    var space := "";
    if pending && NeedsSpace(d, Last(out, None), c) {
      space := " ";
    }
    more := out + space + [c];
    TokenProgress(d, source, i, out, pending);
  }

  // Punctuation drops the space before it; there never is one, so it prints like any other token.
  method PushPunctuation(source: string, i: nat, out: string, pending: bool) returns (more: string)
    requires i < |source| && Progress(Css, source, i, out, None, pending)
    requires IsCssPunctuation(source[i])
    ensures Progress(Css, source, i + 1, more, None, false)
  {
    PunctuationIs(source[i]);
    TokenProgress(Css, source, i, out, pending);
    NoGapBefore(source[i], pending, out);
    var trimmed := TrimSpace(out);
    more := trimmed + [source[i]];
  }

  lemma NoGapBefore(c: char, pending: bool, out: string)
    requires IsCssPunctuation(c)
    ensures out + Gap(Css, pending, Last(out, None), [c]) == out
    ensures !IsQuote(Css, c)
  {
    PunctuationIs(c);
    assert Gap(Css, pending, Last(out, None), [c]) == "";
    assert out + "" == out;
  }

  lemma PunctuationIs(c: char)
    requires IsCssPunctuation(c)
    ensures !IsIdentChar(c) && !IsQuote(Css, c) && !IsWhitespace(c) && c != '/'
  {
  }

  lemma TokenProgress(d: Dialect, source: string, i: nat, out: string, pending: bool)
    requires i < |source| && Progress(d, source, i, out, None, pending)
    requires !LineCommentAt(d, source, i) && !BlockCommentAt(source, i) && !IsWhitespace(source[i])
    ensures Progress(d, source, i + 1, out + Gap(d, pending, Last(out, None), [source[i]]) + [source[i]],
                     if IsQuote(d, source[i]) then Some(source[i]) else None, false)
  {
    var s, c := source[i..], source[i];
    CommentsAt(d, source, i);
    var quote := if IsQuote(d, c) then Some(c) else None;
    if IsQuote(d, c) {
      RemainingAtQuote(d, s, pending, Last(out, None));
    } else {
      RemainingAtCode(d, s, pending, Last(out, None));
    }
    assert s[1..] == source[i + 1..];
    Regroup(out, Gap(d, pending, Last(out, None), [c]), [c], Remaining(d, source[i + 1..], quote, false, Some(c)));
  }

  lemma ProgressEnd(d: Dialect, source: string, out: string, quote: Option<char>, pending: bool)
    requires Progress(d, source, |source|, out, quote, pending)
    ensures out == Print(d, Lex(d, source, false), None)
  {
    assert source[|source|..] == "";
  }

  method Trim(s: string) returns (trimmed: string)
    ensures trimmed == TrimEnd(TrimStart(s))
    ensures exists i: nat, j: nat :: TrimsTo(s, i, j) && trimmed == s[i..j]
  {
    ghost var i, j := TrimIs(s);
    trimmed := s;
    while trimmed != "" && IsWhitespace(trimmed[0])
      invariant TrimStart(trimmed) == TrimStart(s)
      decreases |trimmed|
    {
      trimmed := trimmed[1..];
    }
    while trimmed != "" && IsWhitespace(trimmed[|trimmed| - 1])
      invariant TrimEnd(trimmed) == TrimEnd(TrimStart(s))
      decreases |trimmed|
    {
      trimmed := trimmed[..|trimmed| - 1];
    }
  }

  method MinifyCss(source: string) returns (minified: string)
    ensures minified == Minified(Css, source)
  {
    var out := "";
    var i: nat, quote: Option<char>, pending := 0, None, false;
    while i < |source|
      invariant Progress(Css, source, i, out, quote, pending)
      decreases |source| - i
    {
      var ch := source[i];
      if quote.Some? {
        i, out, quote := StringStep(Css, source, i, out, quote.value);
      } else if ch == '/' && i + 1 < |source| && source[i + 1] == '*' {
        var j := SkipBlock(source, i + 2);
        SkipComment(Css, source, i, out, pending, j);
        i, pending := j, true;
      } else if ch == '\'' || ch == '"' {
        out := PushToken(Css, source, i, out, pending);
        i, pending, quote := i + 1, false, Some(ch);
      } else if IsWhitespace(ch) {
        SkipWhitespace(Css, source, i, out, pending);
        i, pending := i + 1, true;
      } else if IsCssPunctuation(ch) {
        out := PushPunctuation(source, i, out, pending);
        i, pending := i + 1, false;
      } else {
        out := PushToken(Css, source, i, out, pending);
        i, pending := i + 1, false;
      }
    }
    ProgressEnd(Css, source, out, quote, pending);
    minified := Trim(out);
  }

  method MinifyJs(source: string) returns (minified: string)
    ensures minified == Minified(Js, source)
  {
    var out := "";
    var i: nat, quote: Option<char>, pending := 0, None, false;
    while i < |source|
      invariant Progress(Js, source, i, out, quote, pending)
      decreases |source| - i
    {
      var ch := source[i];
      if quote.Some? {
        i, out, quote := StringStep(Js, source, i, out, quote.value);
      } else if ch == '/' && i + 1 < |source| && source[i + 1] == '/' {
        var j := SkipLine(source, i + 2);
        SkipComment(Js, source, i, out, pending, j);
        i, pending := j, true;
      } else if ch == '/' && i + 1 < |source| && source[i + 1] == '*' {
        var j := SkipBlock(source, i + 2);
        SkipComment(Js, source, i, out, pending, j);
        i, pending := j, true;
      } else if ch == '\'' || ch == '"' || ch == '`' {
        out := PushToken(Js, source, i, out, pending);
        i, pending, quote := i + 1, false, Some(ch);
      } else if IsWhitespace(ch) {
        SkipWhitespace(Js, source, i, out, pending);
        i, pending := i + 1, true;
      } else {
        out := PushToken(Js, source, i, out, pending);
        i, pending := i + 1, false;
      }
    }
    ProgressEnd(Js, source, out, quote, pending);
    minified := Trim(out);
  }
}
