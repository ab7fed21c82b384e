/** What the minifiers' lexer makes of a source: every character is in one token, in white space or in a comment. */
module MinifySource {
  import opened Minify

  predicate IsLineBreak(c: char) {
    c == '\n' || c == '\r'
  }

  predicate ClosesAt(s: string, i: nat) {
    i + 1 < |s| && s[i] == '*' && s[i + 1] == '/'
  }

  // One whole comment; only at the end of the source may its closing be missing.
  ghost predicate IsLineComment(d: Dialect, s: string, atEnd: bool) {
    && StartsLineComment(d, s)
    && (forall i :: 2 <= i < |s| - 1 ==> !IsLineBreak(s[i]))
    && (atEnd || (|s| > 2 && IsLineBreak(s[|s| - 1])))
  }

  ghost predicate IsBlockComment(d: Dialect, s: string, atEnd: bool) {
    && StartsBlockComment(s) && !StartsLineComment(d, s)
    && (forall i :: 2 <= i < |s| - 2 ==> !ClosesAt(s, i))
    && (atEnd || (|s| >= 4 && ClosesAt(s, |s| - 2)))
  }

  ghost predicate IsComment(d: Dialect, s: string, atEnd: bool) {
    IsLineComment(d, s, atEnd) || IsBlockComment(d, s, atEnd)
  }

  // White space and comments only.
  ghost predicate Blank(d: Dialect, s: string, atEnd: bool)
    decreases |s|
  {
    || s == ""
    || (IsWhitespace(s[0]) && Blank(d, s[1..], atEnd))
    || exists n :: 0 < n <= |s| && IsComment(d, s[..n], atEnd && n == |s|) && Blank(d, s[n..], atEnd)
  }

  // The token that a text starts with, where no comment starts: a string literal to its closing quote or the
  // end, or any other character that is not white space.
  ghost predicate Starts(d: Dialect, s: string, t: Token) {
    && s != "" && !StartsLineComment(d, s) && !StartsBlockComment(s)
    && match t
       case Code(c) => c == s[0] && !IsQuote(d, c) && !IsWhitespace(c)
       case Str(text) => IsQuote(d, s[0]) && text == s[..1 + StringRest(s[1..], s[0])]
  }

  // The source is the tokens in order, with blanks between them just where they are marked as separated.
  ghost predicate Splits(d: Dialect, s: string, items: seq<Item>, separated: bool)
    decreases |items|
  {
    if items == [] then Blank(d, s, true) else exists k: nat :: SplitsAt(d, s, items, separated, k)
  }

  ghost predicate SplitsAt(d: Dialect, s: string, items: seq<Item>, separated: bool, k: nat)
    requires items != []
    decreases |items|, 0
  {
    && k <= |s| && Blank(d, s[..k], false) && Starts(d, s[k..], items[0].token)
    && items[0].separated == (separated || k > 0)
    && Splits(d, s[k + |Text(items[0].token)|..], items[1..], false)
  }

  lemma {:induction false} BlockRestIs(s: string)
    ensures var n := BlockRest(s);
            && (forall i :: 0 <= i < n - 2 ==> !ClosesAt(s, i))
            && (n < |s| ==> n >= 2 && ClosesAt(s, n - 2))
            && (n == |s| && !(n >= 2 && ClosesAt(s, n - 2)) ==> forall i :: 0 <= i < |s| ==> !ClosesAt(s, i))
  {
    if s != "" && !ClosesAt(s, 0) {
      BlockRestIs(s[1..]);
      assert forall i :: 0 < i < |s| ==> ClosesAt(s, i) == ClosesAt(s[1..], i - 1);
    }
  }

  lemma {:induction false} LineRestIs(s: string)
    ensures var n := LineRest(s);
            && (forall i :: 0 <= i < n - 1 ==> !IsLineBreak(s[i]))
            && (n < |s| ==> n >= 1 && IsLineBreak(s[n - 1]))
  {
    if s != "" && !IsLineBreak(s[0]) {
      LineRestIs(s[1..]);
      assert forall i :: 0 < i < |s| ==> s[i] == s[1..][i - 1];
    }
  }

  // The comment at the head of a text, as the lexer skips it.
  function CommentLength(d: Dialect, s: string): (n: nat)
    requires StartsLineComment(d, s) || StartsBlockComment(s)
    ensures 2 <= n <= |s|
  {
    if StartsLineComment(d, s) then 2 + LineRest(s[2..]) else 2 + BlockRest(s[2..])
  }

  lemma CommentIs(d: Dialect, s: string)
    requires StartsLineComment(d, s) || StartsBlockComment(s)
    ensures var n := CommentLength(d, s); IsComment(d, s[..n], n == |s|)
  {
    var n, rest := CommentLength(d, s), s[2..];
    var comment := s[..n];
    if StartsLineComment(d, s) {
      LineRestIs(rest);
      assert forall i :: 2 <= i < n ==> comment[i] == rest[i - 2];
      assert IsLineComment(d, comment, n == |s|);
    } else {
      BlockRestIs(rest);
      assert forall i :: 2 <= i < n - 1 ==> ClosesAt(comment, i) == ClosesAt(rest, i - 2);
      assert IsBlockComment(d, comment, n == |s|);
    }
  }

  // White space or a closed comment in front of a split source.
  lemma SplitsAfterBlank(d: Dialect, s: string, n: nat, items: seq<Item>, separated: bool)
    requires 0 < n <= |s| && Splits(d, s[n..], items, true)
    requires forall k :: n <= k <= |s| && Blank(d, s[n..k], false) && k < |s| ==> Blank(d, s[..k], false)
    requires Blank(d, s[n..], true) ==> Blank(d, s, true)
    ensures Splits(d, s, items, separated)
  {
    if items != [] {
      var k: nat :| SplitsAt(d, s[n..], items, true, k);
      var text := Text(items[0].token);
      assert s[n..][..k] == s[n..n + k] && s[n..][k..] == s[n + k..];
      assert s[n..][k + |text|..] == s[n + k + |text|..];
      assert SplitsAt(d, s, items, separated, n + k);
    }
  }

  lemma BlankAfterComment(d: Dialect, s: string, n: nat, k: nat)
    requires 0 < n <= k < |s| && IsComment(d, s[..n], n == |s|) && Blank(d, s[n..k], false)
    ensures Blank(d, s[..k], false)
  {
    assert s[..k][..n] == s[..n] && s[..k][n..] == s[n..k];
  }

  lemma BlankAfterSpace(d: Dialect, s: string, k: nat)
    requires 0 < k <= |s| && IsWhitespace(s[0]) && Blank(d, s[1..k], false)
    ensures Blank(d, s[..k], false)
  {
    assert s[..k][1..] == s[1..k];
  }

  lemma SplitsComment(d: Dialect, s: string, n: nat, items: seq<Item>, separated: bool)
    requires 0 < n <= |s| && IsComment(d, s[..n], n == |s|) && Splits(d, s[n..], items, true)
    ensures Splits(d, s, items, separated)
  {
    forall k | n <= k <= |s| && Blank(d, s[n..k], false) && k < |s| ensures Blank(d, s[..k], false) {
      BlankAfterComment(d, s, n, k);
    }
    SplitsAfterBlank(d, s, n, items, separated);
  }

  lemma SplitsToken(d: Dialect, s: string, t: Token, rest: seq<Item>, separated: bool)
    requires Starts(d, s, t) && Splits(d, s[|Text(t)|..], rest, false)
    ensures Splits(d, s, [Item(separated, t)] + rest, separated)
  {
    var items := [Item(separated, t)] + rest;
    assert items[1..] == rest && s[..0] == "" && s[0..] == s && s[0 + |Text(t)|..] == s[|Text(t)|..];
    assert SplitsAt(d, s, items, separated, 0);
  }

  // The lexer loses nothing and makes up nothing.
  lemma {:induction false} LexSplits(d: Dialect, s: string, separated: bool)
    ensures Splits(d, s, Lex(d, s, separated), separated)
    decreases |s|
  {
    if s == "" {
    } else if StartsLineComment(d, s) || StartsBlockComment(s) {
      var n := CommentLength(d, s);
      CommentIs(d, s);
      LexSplits(d, s[n..], true);
      SplitsComment(d, s, n, Lex(d, s[n..], true), separated);
    } else if IsQuote(d, s[0]) {
      var n := 1 + StringRest(s[1..], s[0]);
      LexSplits(d, s[n..], false);
      SplitsToken(d, s, Str(s[..n]), Lex(d, s[n..], false), separated);
    } else if IsWhitespace(s[0]) {
      LexSplits(d, s[1..], true);
      forall k | 1 <= k <= |s| && Blank(d, s[1..k], false) && k < |s| ensures Blank(d, s[..k], false) {
        BlankAfterSpace(d, s, k);
      }
      SplitsAfterBlank(d, s, 1, Lex(d, s[1..], true), separated);
    } else {
      LexSplits(d, s[1..], false);
      SplitsToken(d, s, Code(s[0]), Lex(d, s[1..], false), separated);
    }
  }
}
