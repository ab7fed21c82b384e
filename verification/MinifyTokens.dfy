/** What minifying keeps: the tokens, and their spacing where it matters; and when it is idempotent. */
module MinifyTokens {
  import opened Wrappers
  import opened Minify

  // Whether a string literal's rest has its closing quote.
  predicate Closes(s: string, quote: char) {
    if s == "" then false
    else if s[0] == '\\' then |s| > 1 && Closes(s[2..], quote)
    else s[0] == quote || Closes(s[1..], quote)
  }

  // Two code characters that, side by side, would start a comment.
  predicate OpensComment(d: Dialect, a: Token, b: Token) {
    a == Code('/') && (b == Code('*') || (d.Js? && b == Code('/')))
  }

  predicate ValidToken(d: Dialect, t: Token, last: bool) {
    match t
    case Code(c) => !IsQuote(d, c) && !IsWhitespace(c)
    case Str(text) =>
      && text != "" && IsQuote(d, text[0])
      && StringRest(text[1..], text[0]) == |text| - 1
      && (last || Closes(text[1..], text[0]))
  }

  // What every lexed sequence satisfies: only the last string may be open, and two characters that would
  // open a comment were apart.
  predicate ValidItems(d: Dialect, items: seq<Item>) {
    items == []
    || (&& ValidToken(d, items[0].token, |items| == 1)
        && (|items| > 1 && OpensComment(d, items[0].token, items[1].token) ==> items[1].separated)
        && ValidItems(d, items[1..]))
  }

  // No code '/' is next to a code '*' (or, in JavaScript, '/') in the sequence of tokens. Since the two
  // are only tokens when something separates them, that is: none is separated from it by space and
  // comments alone.
  predicate NoOpening(d: Dialect, items: seq<Item>) {
    items == []
    || ((|items| > 1 ==> !OpensComment(d, items[0].token, items[1].token)) && NoOpening(d, items[1..]))
  }

  // ---- String literals

  lemma {:induction false} StringRestIs(s: string, quote: char)
    ensures var n := StringRest(s, quote);
            && StringRest(s[..n], quote) == n
            && (Closes(s, quote) ==> Closes(s[..n], quote))
            && (!Closes(s, quote) ==> n == |s|)
  {
    var n := StringRest(s, quote);
    if s == "" {
    } else if s[0] == '\\' {
      if |s| > 1 {
        StringRestIs(s[2..], quote);
        assert s[..n][2..] == s[2..][..n - 2];
      }
    } else if s[0] != quote {
      StringRestIs(s[1..], quote);
      assert s[..n][1..] == s[1..][..n - 1];
    }
  }

  // What follows a closed string is not part of it.
  lemma {:induction false} StringRestAppend(s: string, quote: char, more: string)
    requires Closes(s, quote) && StringRest(s, quote) == |s|
    ensures StringRest(s + more, quote) == |s|
  {
    if s[0] == '\\' {
      assert (s + more)[2..] == s[2..] + more;
      StringRestAppend(s[2..], quote, more);
    } else if s[0] != quote {
      assert (s + more)[1..] == s[1..] + more;
      StringRestAppend(s[1..], quote, more);
    }
  }

  lemma {:induction false} ClosedEndsInQuote(s: string, quote: char)
    requires Closes(s, quote) && StringRest(s, quote) == |s|
    ensures s != "" && s[|s| - 1] == quote
  {
    if s[0] == '\\' {
      ClosedEndsInQuote(s[2..], quote);
    } else if s[0] != quote {
      ClosedEndsInQuote(s[1..], quote);
    }
  }

  // An open string cut short is still open.
  lemma {:induction false} OpenPrefix(s: string, quote: char, k: nat)
    requires !Closes(s, quote) && k <= |s|
    ensures StringRest(s[..k], quote) == k
  {
    var p := s[..k];
    if k == 0 {
    } else if s[0] == '\\' {
      if k > 1 {
        OpenPrefix(s[2..], quote, k - 2);
        assert p[2..] == s[2..][..k - 2];
      }
    } else {
      OpenPrefix(s[1..], quote, k - 1);
      assert p[1..] == s[1..][..k - 1];
    }
  }

  // ---- What the lexer yields

  lemma {:induction false} SeparatedFirst(d: Dialect, s: string)
    ensures Lex(d, s, true) != [] ==> Lex(d, s, true)[0].separated
    decreases |s|
  {
    if s == "" {
    } else if StartsLineComment(d, s) {
      SeparatedFirst(d, s[2 + LineRest(s[2..])..]);
    } else if StartsBlockComment(s) {
      SeparatedFirst(d, s[2 + BlockRest(s[2..])..]);
    } else if !IsQuote(d, s[0]) && IsWhitespace(s[0]) {
      SeparatedFirst(d, s[1..]);
    }
  }

  // A first token that nothing precedes starts where the text starts.
  lemma UnseparatedFirst(d: Dialect, s: string)
    requires Lex(d, s, false) != [] && !Lex(d, s, false)[0].separated
    ensures s != "" && Text(Lex(d, s, false)[0].token) != "" && Text(Lex(d, s, false)[0].token)[0] == s[0]
  {
    if StartsLineComment(d, s) {
      SeparatedFirst(d, s[2 + LineRest(s[2..])..]);
    } else if StartsBlockComment(s) {
      SeparatedFirst(d, s[2 + BlockRest(s[2..])..]);
    } else if !IsQuote(d, s[0]) && IsWhitespace(s[0]) {
      SeparatedFirst(d, s[1..]);
    }
  }

  lemma {:induction false} LexValid(d: Dialect, s: string, separated: bool)
    ensures ValidItems(d, Lex(d, s, separated))
    decreases |s|
  {
    if s == "" {
    } else if StartsLineComment(d, s) {
      LexValid(d, s[2 + LineRest(s[2..])..], true);
    } else if StartsBlockComment(s) {
      LexValid(d, s[2 + BlockRest(s[2..])..], true);
    } else if IsQuote(d, s[0]) {
      LexValidString(d, s, separated);
    } else if IsWhitespace(s[0]) {
      LexValid(d, s[1..], true);
    } else {
      var rest := Lex(d, s[1..], false);
      LexValid(d, s[1..], false);
      if rest != [] && !rest[0].separated {
        UnseparatedFirst(d, s[1..]);
      }
      assert ([Item(separated, Code(s[0]))] + rest)[1..] == rest;
    }
  }

  lemma {:induction false} LexValidString(d: Dialect, s: string, separated: bool)
    requires s != "" && IsQuote(d, s[0]) && !StartsLineComment(d, s) && !StartsBlockComment(s)
    ensures ValidItems(d, Lex(d, s, separated))
    decreases |s|, 0
  {
    var m := StringRest(s[1..], s[0]);
    StringRestIs(s[1..], s[0]);
    var text, rest := s[..1 + m], Lex(d, s[1 + m..], false);
    assert text[1..] == s[1..][..m];
    LexValid(d, s[1 + m..], false);
    assert ([Item(separated, Str(text))] + rest)[1..] == rest;
    if !Closes(s[1..], s[0]) {
      assert s[1 + m..] == "";
    }
  }

  // ---- Lexing what is printed

  // The same tokens, marked as apart where a space is printed.
  function Normalized(d: Dialect, items: seq<Item>, previous: Option<char>): seq<Item>
    decreases |items|
  {
    if items == [] then [] else
      var text := Text(items[0].token);
      [items[0].(separated := Gap(d, items[0].separated, previous, text) != "")]
      + Normalized(d, items[1..], Last(text, previous))
  }

  lemma LexGap(d: Dialect, gap: string, s: string)
    requires gap == "" || gap == " "
    ensures Lex(d, gap + s, false) == Lex(d, s, gap != "")
  {
    if gap == "" {
      assert gap + s == s;
    } else {
      assert (gap + s)[1..] == s;
    }
  }

  lemma PrintShape(d: Dialect, items: seq<Item>, previous: Option<char>)
    requires items != []
    ensures var text := Text(items[0].token);
            Print(d, items, previous)
            == Gap(d, items[0].separated, previous, text) + (text + Print(d, items[1..], Last(text, previous)))
  {
    var text := Text(items[0].token);
    var gap, rest := Gap(d, items[0].separated, previous, text), Print(d, items[1..], Last(text, previous));
    assert gap + (text + rest) == gap + text + rest;
  }

  // A valid token in front of a text that does not continue it is lexed as that token.
  lemma LexToken(d: Dialect, t: Token, rest: string, separated: bool)
    requires ValidToken(d, t, rest == "")
    requires t == Code('/') && rest != "" ==> rest[0] != '*' && (d.Js? ==> rest[0] != '/')
    ensures Lex(d, Text(t) + rest, separated) == [Item(separated, t)] + Lex(d, rest, false)
  {
    var s := Text(t) + rest;
    match t
    case Code(c) =>
      assert s[1..] == rest;
    case Str(text) =>
      var body, q := text[1..], text[0];
      assert s[1..] == body + rest;
      if rest != "" {
        StringRestAppend(body, q, rest);
      } else {
        assert body + rest == body;
      }
      assert s[..|text|] == text && s[|text|..] == rest;
  }

  lemma TextStarts(d: Dialect, t: Token)
    requires ValidToken(d, t, true) || ValidToken(d, t, false)
    ensures Text(t) != "" && !IsWhitespace(Text(t)[0])
    ensures Text(t)[0] == '*' ==> t == Code('*')
    ensures Text(t)[0] == '/' ==> t == Code('/')
  {
  }

  // The text after a token starts a comment with it just when the next token would.
  lemma PrintStarts(d: Dialect, items: seq<Item>, previous: Option<char>)
    requires ValidItems(d, items) && items != []
    ensures Print(d, items, previous) != ""
    ensures var first := Print(d, items, previous)[0];
            first == ' ' || first == Text(items[0].token)[0]
    ensures Gap(d, items[0].separated, previous, Text(items[0].token)) == "" ==>
              Print(d, items, previous)[0] == Text(items[0].token)[0]
  {
    TextStarts(d, items[0].token);
  }

  // Lexing the printed form of a sequence peels off its first token, unless that opens a comment.
  lemma LexPrinted(d: Dialect, items: seq<Item>, previous: Option<char>)
    requires ValidItems(d, items) && items != []
    requires |items| > 1 ==> !OpensComment(d, items[0].token, items[1].token)
    ensures var text := Text(items[0].token);
            Lex(d, Print(d, items, previous), false)
            == [items[0].(separated := Gap(d, items[0].separated, previous, text) != "")]
               + Lex(d, Print(d, items[1..], Last(text, previous)), false)
  {
    var t := items[0].token;
    var text := Text(t);
    var gap, rest := Gap(d, items[0].separated, previous, text), Print(d, items[1..], Last(text, previous));
    FollowedBy(d, items, Last(text, previous));
    LexToken(d, t, rest, gap != "");
    LexGap(d, gap, text + rest);
    PrintShape(d, items, previous);
  }

  // What is printed after the first token does not continue it.
  lemma FollowedBy(d: Dialect, items: seq<Item>, previous: Option<char>)
    requires ValidItems(d, items) && items != []
    requires |items| > 1 ==> !OpensComment(d, items[0].token, items[1].token)
    ensures var t, rest := items[0].token, Print(d, items[1..], previous);
            && ValidToken(d, t, rest == "")
            && (t == Code('/') && rest != "" ==> rest[0] != '*' && (d.Js? ==> rest[0] != '/'))
  {
    if |items| > 1 {
      PrintStarts(d, items[1..], previous);
      TextStarts(d, items[1].token);
    }
  }

  lemma {:induction false} Relex(d: Dialect, items: seq<Item>, previous: Option<char>)
    requires ValidItems(d, items) && NoOpening(d, items)
    ensures Lex(d, Print(d, items, previous), false) == Normalized(d, items, previous)
    decreases |items|
  {
    if items != [] {
      LexPrinted(d, items, previous);
      Relex(d, items[1..], Last(Text(items[0].token), previous));
    }
  }

  lemma {:induction false} PrintNormalized(d: Dialect, items: seq<Item>, previous: Option<char>)
    ensures Print(d, Normalized(d, items, previous), previous) == Print(d, items, previous)
    decreases |items|
  {
    if items != [] {
      var text := Text(items[0].token);
      var first := items[0].(separated := Gap(d, items[0].separated, previous, text) != "");
      PrintNormalized(d, items[1..], Last(text, previous));
      PrintFirst(d, first, Normalized(d, items[1..], Last(text, previous)), previous);
    }
  }

  // ---- Trimming

  lemma {:induction false} TrimEndIs(s: string)
    ensures TrimEnd(s) <= s
    ensures TrimEnd(s) != "" ==> !IsWhitespace(TrimEnd(s)[|TrimEnd(s)| - 1])
    ensures s != "" && !IsWhitespace(s[0]) ==> TrimEnd(s) != ""
    ensures TrimEnd(TrimEnd(s)) == TrimEnd(s)
  {
    if s != "" && IsWhitespace(s[|s| - 1]) {
      TrimEndIs(s[..|s| - 1]);
    }
  }

  lemma {:induction false} TrimEndConcat(a: string, b: string)
    requires TrimEnd(b) != ""
    ensures TrimEnd(a + b) == a + TrimEnd(b)
  {
    assert b != "";
    if IsWhitespace(b[|b| - 1]) {
      assert (a + b)[..|a + b| - 1] == a + b[..|b| - 1];
      TrimEndConcat(a, b[..|b| - 1]);
    }
  }

  // Trimming the output can only reach into a last string that was never closed.
  function TrimmedToken(t: Token): Token {
    match t
    case Code(_) => t
    case Str(text) => Str(TrimEnd(text))
  }

  function TrimmedItems(items: seq<Item>): seq<Item> {
    if items == [] then []
    else if |items| == 1 then [items[0].(token := TrimmedToken(items[0].token))]
    else [items[0]] + TrimmedItems(items[1..])
  }

  lemma TrimmedTokenIs(d: Dialect, t: Token)
    requires ValidToken(d, t, true)
    ensures ValidToken(d, TrimmedToken(t), true)
    ensures ValidToken(d, t, false) ==> TrimmedToken(t) == t
    ensures Text(TrimmedToken(t)) == TrimEnd(Text(t)) != ""
    ensures Text(TrimmedToken(t))[0] == Text(t)[0]
    ensures TrimmedToken(TrimmedToken(t)) == TrimmedToken(t)
  {
    TrimEndIs(Text(t));
    if t.Str? {
      var text := t.text;
      var body, q, cut := text[1..], text[0], TrimEnd(text);
      assert cut[0] == q;
      assert cut[1..] == body[..|cut| - 1];
      if Closes(body, q) {
        ClosedEndsInQuote(body, q);
        assert text[|text| - 1] == q;
      } else {
        OpenPrefix(body, q, |cut| - 1);
      }
    }
  }

  lemma {:induction false} TrimmedItemsAre(d: Dialect, items: seq<Item>, previous: Option<char>)
    requires ValidItems(d, items)
    ensures var cut := TrimmedItems(items);
            && |cut| == |items|
            && ValidItems(d, cut)
            && (NoOpening(d, cut) <==> NoOpening(d, items))
            && TrimmedItems(cut) == cut
            && TrimEnd(Print(d, items, previous)) == Print(d, cut, previous)
            && (items != [] ==> cut[0].separated == items[0].separated)
            && (items != [] ==> forall x :: OpensComment(d, x, cut[0].token) <==> OpensComment(d, x, items[0].token))
    decreases |items|
  {
    if items == [] {
    } else if |items| == 1 {
      TrimmedTokenIs(d, items[0].token);
      PrintOne(d, items[0], previous);
      PrintOne(d, items[0].(token := TrimmedToken(items[0].token)), previous);
      TrimEndConcat(Gap(d, items[0].separated, previous, Text(items[0].token)), Text(items[0].token));
    } else {
      var text := Text(items[0].token);
      TrimmedItemsAre(d, items[1..], Last(text, previous));
      var rest := TrimmedItems(items[1..]);
      assert ([items[0]] + rest)[1..] == rest;
      PrintStarts(d, rest, Last(text, previous));
      TrimEndConcat(Gap(d, items[0].separated, previous, text) + text, Print(d, items[1..], Last(text, previous)));
    }
  }

  lemma PrintOne(d: Dialect, item: Item, previous: Option<char>)
    ensures Print(d, [item], previous) == Gap(d, item.separated, previous, Text(item.token)) + Text(item.token)
  {
    assert [item][1..] == [];
    assert Print(d, [], Last(Text(item.token), previous)) == "";
  }

  // The minified text is the printed form of the tokens.
  lemma MinifiedIsPrinted(d: Dialect, source: string)
    ensures ValidItems(d, TrimmedItems(Lex(d, source, false)))
    ensures Minified(d, source) == Print(d, TrimmedItems(Lex(d, source, false)), None)
  {
    var items := Lex(d, source, false);
    LexValid(d, source, false);
    TrimmedItemsAre(d, items, None);
    if items != [] {
      TextStarts(d, items[0].token);
      PrintStarts(d, items, None);
    }
  }

  // ---- Main results

  // Trimming takes nothing away exactly if the last token does not end in white space, as only an open
  // string can.
  lemma {:induction false} TrimTakesNothingIff(d: Dialect, items: seq<Item>)
    requires ValidItems(d, items)
    ensures TrimmedItems(items) == items <==> items == [] || !EndsInWhitespace(items[|items| - 1].token)
    ensures items != [] && EndsInWhitespace(items[|items| - 1].token) ==>
              !ValidToken(d, items[|items| - 1].token, false)
  {
    if |items| == 1 {
      TrimmedTokenIs(d, items[0].token);
      TrimEndIs(Text(items[0].token));
    } else if items != [] {
      TrimTakesNothingIff(d, items[1..]);
      assert items == [items[0]] + items[1..];
      assert TrimmedItems(items)[1..] == TrimmedItems(items[1..]);
    }
  }

  predicate EndsInWhitespace(t: Token) {
    Text(t) != "" && IsWhitespace(Text(t)[|Text(t)| - 1])
  }

  // A space in the source can matter to CSS and still go: '.' is no identifier character.
  lemma SpaceBeforeDotIsLost()
    ensures Minified(Css, "0 .") == "0."
  {
    var items := [Item(false, Code('0')), Item(true, Code('.'))];
    assert "0 ."[1..] == " ." && " ."[1..] == "." && "."[1..] == "";
    assert Lex(Css, "0 .", false) == items;
    assert items[1..] == [Item(true, Code('.'))] && items[1..][1..] == [];
    assert Print(Css, items, None) == "0.";
  }

  // Lexing the minified text gives the source's tokens back, in order and unchanged (but for trailing
  // space of a last, open string), apart exactly where a space was needed.
  lemma TokensKept(d: Dialect, source: string)
    requires NoOpening(d, Lex(d, source, false))
    ensures Lex(d, Minified(d, source), false) == Normalized(d, TrimmedItems(Lex(d, source, false)), None)
  {
    MinifiedIsPrinted(d, source);
    LexValid(d, source, false);
    TrimmedItemsAre(d, Lex(d, source, false), None);
    Relex(d, TrimmedItems(Lex(d, source, false)), None);
  }

  // The character a token ends in, and the one it starts with.
  function Ends(t: Token): Option<char> {
    Last(Text(t), None)
  }

  predicate ApartInPrint(d: Dialect, a: Token, b: Item) {
    b.separated && Text(b.token) != "" && NeedsSpace(d, Ends(a), Text(b.token)[0])
  }

  lemma {:induction false} NormalizedAt(d: Dialect, items: seq<Item>, previous: Option<char>, k: nat)
    requires ValidItems(d, items) && k < |items|
    ensures |Normalized(d, items, previous)| == |items|
    ensures Normalized(d, items, previous)[k].token == items[k].token
    ensures k > 0 ==> Normalized(d, items, previous)[k].separated == ApartInPrint(d, items[k - 1].token, items[k])
    decreases |items|
  {
    var text := Text(items[0].token);
    TextStarts(d, items[0].token);
    var rest := Normalized(d, items[1..], Last(text, previous));
    if k > 0 {
      NormalizedAt(d, items[1..], Last(text, previous), k - 1);
      assert Last(text, previous) == Ends(items[0].token);
      assert Normalized(d, items, previous)[k] == rest[k - 1];
      if k == 1 {
        NormalizedFirst(d, items[1..], Last(text, previous));
      }
    } else if |items| > 1 {
      NormalizedAt(d, items[1..], Last(text, previous), 0);
    }
  }

  lemma NormalizedFirst(d: Dialect, items: seq<Item>, previous: Option<char>)
    requires items != []
    ensures Normalized(d, items, previous)[0].separated
            == (Gap(d, items[0].separated, previous, Text(items[0].token)) != "")
  {
  }

  // Two neighbouring tokens come back as they were, but for trailing space of a last, open string; they are
  // apart in the output exactly if they were apart in the source and the printer puts a space between them.
  lemma PairKept(d: Dialect, source: string, k: nat)
    requires NoOpening(d, Lex(d, source, false))
    requires k + 1 < |Lex(d, source, false)|
    ensures var items, again := Lex(d, source, false), Lex(d, Minified(d, source), false);
            && |again| == |items|
            && again[k].token == items[k].token
            && again[k + 1].token == (if k + 2 < |items| then items[k + 1].token else TrimmedToken(items[k + 1].token))
            && (again[k + 1].separated <==> ApartInPrint(d, items[k].token, items[k + 1]))
  {
    TokensKept(d, source);
    LexValid(d, source, false);
    PairNormalized(d, Lex(d, source, false), k);
  }

  lemma PairNormalized(d: Dialect, items: seq<Item>, k: nat)
    requires ValidItems(d, items) && k + 1 < |items|
    ensures var again := Normalized(d, TrimmedItems(items), None);
            && |again| == |items|
            && again[k].token == items[k].token
            && again[k + 1].token == (if k + 2 < |items| then items[k + 1].token else TrimmedToken(items[k + 1].token))
            && (again[k + 1].separated <==> ApartInPrint(d, items[k].token, items[k + 1]))
  {
    TrimmedItemsAre(d, items, None);
    TrimmedAt(d, items, k);
    TrimmedAt(d, items, k + 1);
    NormalizedAt(d, TrimmedItems(items), None, k);
    NormalizedAt(d, TrimmedItems(items), None, k + 1);
  }

  // A code character that words are made of: an ASCII digit or letter, '_', '$' or '-'.
  predicate IsWordPart(t: Token) {
    t.Code? && (48 <= t.c as int <= 57 || 65 <= t.c as int <= 90 || 97 <= t.c as int <= 122
                || t.c == '_' || t.c == '$' || t.c == '-')
  }

  // The neighbours whose space matters: parts of words; in JavaScript also two equal signs, and a part of a
  // word before a bracket or a string.
  predicate SpaceMatters(d: Dialect, a: Token, b: Token) {
    || (IsWordPart(a) && IsWordPart(b))
    || (d.Js? && (a == b == Code('+') || a == b == Code('-')))
    || (d.Js? && IsWordPart(a) && (b.Str? || b == Code('[') || b == Code('(') || b == Code('{')))
  }

  lemma {:induction false} ValidAt(d: Dialect, items: seq<Item>, k: nat)
    requires ValidItems(d, items) && k < |items|
    ensures ValidToken(d, items[k].token, k == |items| - 1)
  {
    if k > 0 {
      ValidAt(d, items[1..], k - 1);
    }
  }

  // A closed string ends in a quote, which is part of no word.
  lemma EndsIs(d: Dialect, t: Token)
    requires ValidToken(d, t, false)
    ensures t.Code? ==> Ends(t) == Some(t.c)
    ensures t.Str? ==> Ends(t).Some? && IsQuote(d, Ends(t).value)
  {
    if t.Str? {
      ClosedEndsInQuote(t.text[1..], t.text[0]);
    }
  }

  // The printer's rule, character by character.
  lemma RuleIs(d: Dialect, c: char, e: char)
    ensures NeedsSpace(d, Some(c), e) <==>
              || (IsWordPart(Code(c)) && IsWordPart(Code(e)))
              || (d.Js? && (c == e == '+' || c == e == '-'))
              || (d.Js? && IsWordPart(Code(c)) && (IsQuote(Js, e) || e == '[' || e == '(' || e == '{'))
    ensures IsQuote(d, c) ==> !IsWordPart(Code(c)) && c != '+' && c != '-'
  {
    assert e in "[({'\"`" <==> e == '[' || e == '(' || e == '{' || IsQuote(Js, e);
  }

  lemma NeededIff(d: Dialect, a: Token, b: Token)
    requires ValidToken(d, a, false) && ValidToken(d, b, true)
    ensures Text(b) != "" && (NeedsSpace(d, Ends(a), Text(b)[0]) <==> SpaceMatters(d, a, b))
  {
    EndsIs(d, a);
    RuleIs(d, Ends(a).value, Text(b)[0]);
    if b.Str? {
      RuleIs(d, b.text[0], b.text[0]);
    }
  }

  // Two neighbouring tokens come back, apart exactly if they were apart and their space matters.
  lemma SpacingKept(d: Dialect, source: string, k: nat)
    requires NoOpening(d, Lex(d, source, false))
    requires k + 1 < |Lex(d, source, false)|
    ensures var items, again := Lex(d, source, false), Lex(d, Minified(d, source), false);
            && |again| == |items|
            && again[k].token == items[k].token
            && again[k + 1].token == (if k + 2 < |items| then items[k + 1].token else TrimmedToken(items[k + 1].token))
            && (again[k + 1].separated <==>
                  items[k + 1].separated && SpaceMatters(d, items[k].token, items[k + 1].token))
  {
    var items := Lex(d, source, false);
    PairKept(d, source, k);
    LexValid(d, source, false);
    ValidAt(d, items, k);
    ValidAt(d, items, k + 1);
    NeededIff(d, items[k].token, items[k + 1].token);
  }

  // ---- Nothing else is printed

  function Characters(items: seq<Item>): nat {
    if items == [] then 0 else |Text(items[0].token)| + Characters(items[1..])
  }

  // How many neighbours were apart and their space matters.
  function Spaces(d: Dialect, items: seq<Item>): nat {
    if |items| < 2 then 0 else
      (if items[1].separated && SpaceMatters(d, items[0].token, items[1].token) then 1 else 0) + Spaces(d, items[1..])
  }

  lemma {:induction false} LengthAfter(d: Dialect, items: seq<Item>, t: Token, previous: Option<char>)
    requires ValidItems(d, items) && items != []
    requires ValidToken(d, t, false) && previous == Ends(t)
    ensures |Print(d, items, previous)|
            == Characters(items) + Spaces(d, items)
               + if items[0].separated && SpaceMatters(d, t, items[0].token) then 1 else 0
    decreases |items|
  {
    var text := Text(items[0].token);
    NeededIff(d, t, items[0].token);
    if |items| > 1 {
      assert Last(text, previous) == Ends(items[0].token);
      LengthAfter(d, items[1..], items[0].token, Last(text, previous));
    } else {
      assert items[1..] == [];
    }
  }

  // The minified text is as long as its tokens and one space for each pair that must stay apart.
  lemma MinifiedLength(d: Dialect, source: string)
    ensures var cut := TrimmedItems(Lex(d, source, false));
            |Minified(d, source)| == Characters(cut) + Spaces(d, cut)
  {
    var cut := TrimmedItems(Lex(d, source, false));
    MinifiedIsPrinted(d, source);
    if cut != [] {
      var text := Text(cut[0].token);
      if |cut| > 1 {
        TextStarts(d, cut[0].token);
        LengthAfter(d, cut[1..], cut[0].token, Last(text, None));
      } else {
        assert cut[1..] == [];
      }
    }
  }

  // No two words are fused and none is split: two parts of words come back as they are, apart exactly when
  // they were apart in the source.
  lemma IdentifiersKept(d: Dialect, source: string, k: nat)
    requires NoOpening(d, Lex(d, source, false))
    requires k + 1 < |Lex(d, source, false)|
    requires IsWordPart(Lex(d, source, false)[k].token) && IsWordPart(Lex(d, source, false)[k + 1].token)
    ensures var items, again := Lex(d, source, false), Lex(d, Minified(d, source), false);
            && |again| == |items|
            && again[k].token == items[k].token && again[k + 1].token == items[k + 1].token
            && (again[k + 1].separated <==> items[k + 1].separated)
  {
    SpacingKept(d, source, k);
  }

  lemma {:induction false} TrimmedAt(d: Dialect, items: seq<Item>, k: nat)
    requires ValidItems(d, items) && k < |items|
    ensures |TrimmedItems(items)| == |items|
    ensures TrimmedItems(items)[k].separated == items[k].separated
    ensures TrimmedItems(items)[k].token == if k + 1 < |items| then items[k].token else TrimmedToken(items[k].token)
    ensures Text(TrimmedItems(items)[k].token) != "" && Text(items[k].token) != ""
    ensures Text(TrimmedItems(items)[k].token)[0] == Text(items[k].token)[0]
  {
    if |items| > 1 {
      TextStarts(d, items[0].token);
      TrimmedAt(d, items[1..], if k > 0 then k - 1 else 0);
    } else {
      TrimmedTokenIs(d, items[0].token);
    }
  }

  lemma PrintFirstLength(d: Dialect, first: Item, rest: seq<Item>, previous: Option<char>)
    ensures var text := Text(first.token);
            |Print(d, [first] + rest, previous)|
            <= |text| + |Print(d, rest, Last(text, previous))| + if first.separated then 1 else 0
  {
    PrintFirst(d, first, rest, previous);
  }

  // Printing never lengthens a text, but for the space that stands for what came before it.
  lemma {:induction false} PrintedLength(d: Dialect, s: string, separated: bool, previous: Option<char>)
    ensures |Print(d, Lex(d, s, separated), previous)| <= |s| + if separated then 1 else 0
    decreases |s|
  {
    if s == "" {
    } else if StartsLineComment(d, s) {
      PrintedLength(d, s[2 + LineRest(s[2..])..], true, previous);
    } else if StartsBlockComment(s) {
      PrintedLength(d, s[2 + BlockRest(s[2..])..], true, previous);
    } else if IsQuote(d, s[0]) {
      var n := 1 + StringRest(s[1..], s[0]);
      PrintedLength(d, s[n..], false, Last(s[..n], previous));
      PrintFirstLength(d, Item(separated, Str(s[..n])), Lex(d, s[n..], false), previous);
    } else if IsWhitespace(s[0]) {
      PrintedLength(d, s[1..], true, previous);
    } else {
      PrintedLength(d, s[1..], false, Some(s[0]));
      PrintFirstLength(d, Item(separated, Code(s[0])), Lex(d, s[1..], false), previous);
    }
  }

  // A '/' printed next to what makes it a comment is lost when the output is minified again.
  lemma {:induction false} OpeningShrinks(d: Dialect, items: seq<Item>, previous: Option<char>)
    requires ValidItems(d, items) && !NoOpening(d, items)
    ensures |Print(d, Lex(d, Print(d, items, previous), false), previous)| < |Print(d, items, previous)|
    decreases |items|
  {
    var text := Text(items[0].token);
    if |items| > 1 && OpensComment(d, items[0].token, items[1].token) {
      OpeningLost(d, items, previous);
    } else {
      LexPrinted(d, items, previous);
      OpeningShrinks(d, items[1..], Last(text, previous));
      var first := items[0].(separated := Gap(d, items[0].separated, previous, text) != "");
      PrintFirst(d, first, Lex(d, Print(d, items[1..], Last(text, previous)), false), previous);
    }
  }

  lemma OpeningLost(d: Dialect, items: seq<Item>, previous: Option<char>)
    requires ValidItems(d, items) && |items| > 1 && OpensComment(d, items[0].token, items[1].token)
    ensures |Print(d, Lex(d, Print(d, items, previous), false), previous)| < |Print(d, items, previous)|
  {
    var rest := Print(d, items[1..], Some('/'));
    PrintStarts(d, items[1..], Some('/'));
    assert rest[0] == Text(items[1].token)[0];
    PrintShape(d, items, previous);
    assert Print(d, items, previous) == "/" + rest;
    CommentLost(d, rest, previous);
  }

  lemma CommentLost(d: Dialect, rest: string, previous: Option<char>)
    requires rest != "" && (rest[0] == '*' || (d.Js? && rest[0] == '/'))
    ensures |Print(d, Lex(d, "/" + rest, false), previous)| < |"/" + rest|
  {
    var s := "/" + rest;
    assert s[0] == '/' && s[1] == rest[0];
    var n := if StartsLineComment(d, s) then 2 + LineRest(s[2..]) else 2 + BlockRest(s[2..]);
    PrintedLength(d, s[n..], true, previous);
  }

  lemma {:induction false} TrimStartShorter(s: string)
    ensures |TrimStart(s)| <= |s|
  {
    if s != "" && IsWhitespace(s[0]) {
      TrimStartShorter(s[1..]);
    }
  }

  // Minifying again changes nothing exactly when the source has no code '/' that only space and comments
  // separate from a code '*' (or, for JavaScript, '/').
  lemma IdempotentIff(d: Dialect, source: string)
    ensures Minified(d, Minified(d, source)) == Minified(d, source) <==> NoOpening(d, Lex(d, source, false))
  {
    var items := Lex(d, source, false);
    var cut, out := TrimmedItems(items), Minified(d, source);
    LexValid(d, source, false);
    TrimmedItemsAre(d, items, None);
    MinifiedIsPrinted(d, source);
    if NoOpening(d, items) {
      TokensKept(d, source);
      PrintNormalized(d, cut, None);
      TrimmedItemsAre(d, cut, None);
      if cut != [] {
        TextStarts(d, cut[0].token);
        PrintStarts(d, cut, None);
      }
    } else {
      OpeningShrinks(d, cut, None);
      var again := Print(d, Lex(d, out, false), None);
      TrimStartShorter(again);
      TrimEndIs(TrimStart(again));
    }
  }

  // The minified text lexes to the source's tokens exactly when the source has no such '/'.
  lemma TokensKeptIff(d: Dialect, source: string)
    ensures Lex(d, Minified(d, source), false) == Normalized(d, TrimmedItems(Lex(d, source, false)), None)
            <==> NoOpening(d, Lex(d, source, false))
  {
    var items := Lex(d, source, false);
    var cut := TrimmedItems(items);
    if NoOpening(d, items) {
      TokensKept(d, source);
    } else if Lex(d, Minified(d, source), false) == Normalized(d, cut, None) {
      LexValid(d, source, false);
      TrimmedItemsAre(d, items, None);
      TrimmedItemsAre(d, cut, None);
      MinifiedIsPrinted(d, source);
      PrintNormalized(d, cut, None);
      if cut != [] {
        TextStarts(d, cut[0].token);
        PrintStarts(d, cut, None);
      }
      IdempotentIff(d, source);
      assert false;
    }
  }

  // Four tokens of which one comes back: the others are a comment of the minified text.
  lemma CommentMade()
    ensures Lex(Js, "a / *b", false)
            == [Item(false, Code('a')), Item(true, Code('/')), Item(true, Code('*')), Item(false, Code('b'))]
    ensures Minified(Js, "a / *b") == "a/*b"
    ensures Lex(Js, "a/*b", false) == [Item(false, Code('a'))]
  {
    LexSource();
    PrintTokens();
    LexComment();
  }

  lemma LexStar()
    ensures Lex(Js, " *b", false) == [Item(true, Code('*')), Item(false, Code('b'))]
  {
    assert " *b"[1..] == "*b" && "*b"[1..] == "b" && "b"[1..] == "";
    assert Lex(Js, "b", false) == [Item(false, Code('b'))];
    assert Lex(Js, "*b", true) == [Item(true, Code('*'))] + Lex(Js, "b", false);
  }

  lemma LexSource()
    ensures Lex(Js, "a / *b", false)
            == [Item(false, Code('a')), Item(true, Code('/')), Item(true, Code('*')), Item(false, Code('b'))]
  {
    LexStar();
    assert "a / *b"[1..] == " / *b" && " / *b"[1..] == "/ *b" && "/ *b"[1..] == " *b";
    assert Lex(Js, "/ *b", true) == [Item(true, Code('/'))] + Lex(Js, " *b", false);
    assert Lex(Js, " / *b", false) == Lex(Js, "/ *b", true);
    assert Lex(Js, "a / *b", false) == [Item(false, Code('a'))] + Lex(Js, " / *b", false);
  }

  lemma PrintStar()
    ensures Print(Js, [Item(true, Code('*')), Item(false, Code('b'))], Some('/')) == "*b"
  {
    var b, star := Item(false, Code('b')), Item(true, Code('*'));
    PrintOne(Js, b, Some('*'));
    PrintFirst(Js, star, [b], Some('/'));
    assert [star] + [b] == [star, b];
  }

  lemma PrintTokens()
    ensures Minified(Js, "a / *b") == "a/*b"
  {
    LexSource();
    PrintStar();
    var a, slash := Item(false, Code('a')), Item(true, Code('/'));
    var rest := [Item(true, Code('*')), Item(false, Code('b'))];
    PrintFirst(Js, slash, rest, Some('a'));
    assert Print(Js, [slash] + rest, Some('a')) == "/*b";
    PrintFirst(Js, a, [slash] + rest, None);
    assert [a] + ([slash] + rest) == Lex(Js, "a / *b", false);
  }

  lemma LexComment()
    ensures Lex(Js, "a/*b", false) == [Item(false, Code('a'))]
  {
    assert "a/*b"[1..] == "/*b" && "/*b"[2..] == "b" && "b"[1..] == "";
    assert BlockRest("b") == 1 + BlockRest("");
    assert "/*b"[3..] == "" && Lex(Js, "/*b", false) == Lex(Js, "", true);
  }
}
