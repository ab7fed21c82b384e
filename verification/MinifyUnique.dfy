/** The lexer's tokens are the only ones that split a source. */
module MinifyUnique {
  import opened Minify
  import opened MinifySource

  // A comment at the head of a text, closed or up to its end, is the one the lexer skips.
  lemma CommentEnds(d: Dialect, s: string, n: nat, atEnd: bool)
    requires 0 < n <= |s| && IsComment(d, s[..n], atEnd && n == |s|)
    ensures StartsLineComment(d, s) || StartsBlockComment(s)
    ensures n == CommentLength(d, s)
  {
    var comment, rest := s[..n], s[2..];
    assert forall i :: 0 <= i < n ==> comment[i] == s[i];
    if StartsLineComment(d, s) {
      LineRestIs(rest);
      assert forall i :: 0 <= i < |rest| ==> rest[i] == s[i + 2];
      LineEnds(rest, n - 2);
    } else {
      BlockRestIs(rest);
      assert forall i :: 0 <= i < n - 3 ==> ClosesAt(comment, i + 2) == ClosesAt(rest, i);
      BlockEnds(rest, n - 2);
    }
  }

  lemma {:induction false} LineEnds(s: string, n: nat)
    requires n <= |s| && forall i :: 0 <= i < n - 1 ==> !IsLineBreak(s[i])
    requires n == |s| || (n > 0 && IsLineBreak(s[n - 1]))
    ensures LineRest(s) == n
  {
    if s != "" && !IsLineBreak(s[0]) {
      assert forall i :: 0 <= i < |s| - 1 ==> s[1..][i] == s[i + 1];
      LineEnds(s[1..], n - 1);
    }
  }

  lemma {:induction false} BlockEnds(s: string, n: nat)
    requires n <= |s| && forall i :: 0 <= i < n - 2 ==> !ClosesAt(s, i)
    requires n == |s| || (n >= 2 && ClosesAt(s, n - 2))
    ensures BlockRest(s) == n
  {
    if s != "" && !ClosesAt(s, 0) {
      assert forall i :: 0 <= i < |s| - 1 ==> ClosesAt(s[1..], i) == ClosesAt(s, i + 1);
      BlockEnds(s[1..], n - 1);
    }
  }

  lemma Slices(s: string, n: nat, k: nat)
    requires n <= k <= |s|
    ensures s[..k][..n] == s[..n]
    ensures s[n..][..k - n] == s[..k][n..]
    ensures s[n..][k - n..] == s[k..]
  {
  }

  // The lexer passes over a blank.
  lemma {:induction false} LexSkipsBlank(d: Dialect, s: string, k: nat, separated: bool)
    requires k <= |s| && Blank(d, s[..k], false)
    ensures Lex(d, s, separated) == Lex(d, s[k..], separated || k > 0)
    decreases k
  {
    var blank := s[..k];
    if k == 0 {
      assert s[0..] == s;
    } else if IsWhitespace(blank[0]) && Blank(d, blank[1..], false) {
      Slices(s, 1, k);
      LexSkipsBlank(d, s[1..], k - 1, true);
    } else {
      var n :| 0 < n <= k && IsComment(d, blank[..n], false) && Blank(d, blank[n..], false);
      Slices(s, n, k);
      CommentEnds(d, s, n, false);
      LexSkipsBlank(d, s[n..], k - n, true);
    }
  }

  lemma {:induction false} LexOfBlank(d: Dialect, s: string, separated: bool)
    requires Blank(d, s, true)
    ensures Lex(d, s, separated) == []
    decreases |s|
  {
    if s != "" {
      if IsWhitespace(s[0]) && Blank(d, s[1..], true) {
        LexOfBlank(d, s[1..], true);
      } else {
        var n :| 0 < n <= |s| && IsComment(d, s[..n], true && n == |s|) && Blank(d, s[n..], true);
        CommentEnds(d, s, n, true);
        LexOfBlank(d, s[n..], true);
      }
    }
  }

  lemma LexFirst(d: Dialect, s: string, t: Token, separated: bool)
    requires Starts(d, s, t)
    ensures Lex(d, s, separated) == [Item(separated, t)] + Lex(d, s[|Text(t)|..], false)
  {
  }

  lemma FirstGap(d: Dialect, s: string, items: seq<Item>, separated: bool) returns (k: nat)
    requires items != [] && Splits(d, s, items, separated)
    ensures SplitsAt(d, s, items, separated, k)
  {
    k :| SplitsAt(d, s, items, separated, k);
  }

  lemma {:induction false} SplitsUnique(d: Dialect, s: string, items: seq<Item>, separated: bool)
    requires Splits(d, s, items, separated)
    ensures items == Lex(d, s, separated)
    decreases |items|
  {
    if items == [] {
      LexOfBlank(d, s, separated);
    } else {
      var k := FirstGap(d, s, items, separated);
      var t, rest := items[0].token, s[k..];
      LexSkipsBlank(d, s, k, separated);
      LexFirst(d, rest, t, separated || k > 0);
      assert s[k + |Text(t)|..] == rest[|Text(t)|..];
      SplitsUnique(d, rest[|Text(t)|..], items[1..], false);
      assert items == [items[0]] + items[1..];
    }
  }

  // The lexer yields the one sequence of tokens that splits the source.
  lemma SplitsIff(d: Dialect, s: string, items: seq<Item>, separated: bool)
    ensures Splits(d, s, items, separated) <==> items == Lex(d, s, separated)
  {
    LexSplits(d, s, separated);
    if Splits(d, s, items, separated) {
      SplitsUnique(d, s, items, separated);
    }
  }
}
