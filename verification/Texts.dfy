/** Splitting text at a character and joining it again. */
module Texts {
  import opened Sequences

  // The pieces between separators; one more than there are separators.
  function Split(s: string, separator: char): (parts: seq<string>)
    ensures parts != []
  {
    if s == "" then [""] else
      var n := |s| - 1;
      var parts := Split(s[..n], separator);
      var m := |parts| - 1;
      if s[n] == separator then parts + [""] else parts[..m] + [parts[m] + [s[n]]]
  }

  function Join(parts: seq<string>, separator: char): string {
    if parts == [] then ""
    else if |parts| == 1 then parts[0]
    else Join(parts[..|parts| - 1], separator) + [separator] + parts[|parts| - 1]
  }

  function NonEmpty(parts: seq<string>): seq<string> {
    Select(parts, (part: string) => part != "")
  }

  lemma {:induction false} JoinSnoc(parts: seq<string>, last: string, separator: char)
    ensures Join(parts + [last], separator) == if parts == [] then last else Join(parts, separator) + [separator] + last
  {
    var all := parts + [last];
    assert all[..|all| - 1] == parts;
  }

  lemma {:induction false} JoinSplit(s: string, separator: char)
    ensures Join(Split(s, separator), separator) == s
  {
    if s != "" {
      var n := |s| - 1;
      JoinSplit(s[..n], separator);
      var parts := Split(s[..n], separator);
      var m := |parts| - 1;
      assert parts == parts[..m] + [parts[m]];
      assert s == s[..n] + [s[n]];
      JoinSnoc(parts[..m], parts[m], separator);
      if s[n] == separator {
        JoinSnoc(parts, "", separator);
        assert Join(parts, separator) + [separator] + "" == s;
      } else {
        JoinSnoc(parts[..m], parts[m] + [s[n]], separator);
        if m > 0 {
          var before := Join(parts[..m], separator) + [separator];
          assert before + (parts[m] + [s[n]]) == (before + parts[m]) + [s[n]];
        }
      }
    }
  }

  // What one more character does to the pieces.
  function WithChar(parts: seq<string>, c: char, separator: char): seq<string>
    requires parts != []
  {
    if c == separator then parts + [""] else Extended(parts, [c])
  }

  // More text for the last piece.
  function Extended(parts: seq<string>, more: string): (r: seq<string>)
    requires parts != []
    ensures r != []
  {
    parts[..|parts| - 1] + [parts[|parts| - 1] + more]
  }

  lemma SplitSnoc(s: string, c: char, separator: char)
    ensures Split(s + [c], separator) == WithChar(Split(s, separator), c, separator)
  {
    assert (s + [c])[..|s|] == s;
  }

  lemma ExtendedTwice(parts: seq<string>, a: string, b: string)
    requires parts != []
    ensures Extended(Extended(parts, a), b) == Extended(parts, a + b)
    ensures Extended(parts, "") == parts
  {
    var m := |parts| - 1;
    assert (parts[m] + a) + b == parts[m] + (a + b);
    assert Extended(parts, a)[..m] == parts[..m];
    assert parts[m] + "" == parts[m];
  }

  lemma {:induction false} SplitAppend(s: string, part: string, separator: char)
    requires separator !in part
    ensures Split(s + part, separator) == Extended(Split(s, separator), part)
    decreases |part|
  {
    var parts := Split(s, separator);
    if part == "" {
      assert s + part == s;
      ExtendedTwice(parts, "", "");
    } else {
      var n := |part| - 1;
      var c, front := part[n], part[..n];
      assert c in part && part == front + [c];
      SplitAppend(s, front, separator);
      assert s + part == (s + front) + [c];
      SplitSnoc(s + front, c, separator);
      ExtendedTwice(parts, front, [c]);
    }
  }

  lemma SplitPiece(s: string, part: string, separator: char)
    requires separator !in part
    ensures Split(s + [separator] + part, separator) == Split(s, separator) + [part]
  {
    SplitSnoc(s, separator, separator);
    SplitAppend(s + [separator], part, separator);
    var parts := Split(s, separator);
    assert (parts + [""])[..|parts|] == parts && "" + part == part;
  }

  // Pieces without separators come back as they were joined.
  lemma {:induction false} SplitJoin(parts: seq<string>, separator: char)
    requires parts != [] && forall part :: part in parts ==> separator !in part
    ensures Split(Join(parts, separator), separator) == parts
  {
    var m := |parts| - 1;
    var last := parts[m];
    assert last in parts;
    if m == 0 {
      SplitAppend("", last, separator);
      assert "" + last == last;
    } else {
      var before := parts[..m];
      assert forall part :: part in before ==> part in parts;
      SplitJoin(before, separator);
      SplitPiece(Join(before, separator), last, separator);
      assert before + [last] == parts;
    }
  }

  lemma {:induction false} NonEmptyAll(parts: seq<string>)
    requires forall part :: part in parts ==> part != ""
    ensures NonEmpty(parts) == parts
  {
    if parts != [] {
      assert parts[0] in parts;
      assert forall part :: part in parts[1..] ==> part in parts;
      NonEmptyAll(parts[1..]);
    }
  }

  lemma NonEmptyMembers(parts: seq<string>)
    ensures forall part :: part in NonEmpty(parts) ==> part in parts && part != ""
    ensures forall part :: part in parts && part != "" ==> part in NonEmpty(parts)
  {
    SelectMembers(parts, (part: string) => part != "");
  }
}
