/** `loadRemaining`: reading rows, one to a line, from a response cut into arbitrary chunks. */
module LineReader {
  import opened Wrappers
  import Texts

  // What TextDecoder's last call returns when the response ends inside a character.
  const REPLACEMENT := "\U{FFFD}"

  // A text as the lines that a newline ends, and the unfinished line after the last newline.
  datatype Parts = Parts(done: seq<string>, open: string)

  function WithChar(parts: Parts, c: char): Parts {
    if c == '\n' then Parts(parts.done + [parts.open], "") else Parts(parts.done, parts.open + [c])
  }

  // String.prototype.split("\n")
  function Split(text: string): (lines: seq<string>)
    ensures lines != []
  {
    Texts.Split(text, '\n')
  }

  function Scan(text: string): Parts {
    var lines := Split(text);
    Parts(lines[..|lines| - 1], lines[|lines| - 1])
  }

  lemma ScanSnoc(text: string, c: char)
    ensures Scan(text + [c]) == WithChar(Scan(text), c)
  {
    var lines := Split(text);
    Texts.SplitSnoc(text, c, '\n');
    if c == '\n' {
      assert lines == lines[..|lines| - 1] + [lines[|lines| - 1]];
    }
  }

  function Joined(chunks: seq<string>): string {
    if chunks == [] then "" else Joined(chunks[..|chunks| - 1]) + chunks[|chunks| - 1]
  }

  function Complete(text: string): seq<string> {
    Scan(text).done
  }

  function Unfinished(text: string): string {
    Scan(text).open
  }

  // Splitting is what it should be: lines without newlines that make up the text again.
  function Unsplit(done: seq<string>): string {
    if done == [] then "" else Unsplit(done[..|done| - 1]) + done[|done| - 1] + "\n"
  }

  lemma {:induction false} SplitIsExact(text: string)
    ensures text == Unsplit(Complete(text)) + Unfinished(text)
    ensures '\n' !in Unfinished(text) && forall line :: line in Complete(text) ==> '\n' !in line
  {
    if text != "" {
      var n := |text| - 1;
      SplitIsExact(text[..n]);
      assert text == text[..n] + [text[n]];
      ScanSnoc(text[..n], text[n]);
      var before, after := Scan(text[..n]), Scan(text);
      assert text == text[..n] + [text[n]];
      if text[n] == '\n' {
        assert after.done[..|before.done|] == before.done;
      } else {
        assert (Unsplit(before.done) + before.open) + [text[n]] == Unsplit(before.done) + (before.open + [text[n]]);
      }
    }
  }

  lemma {:induction false} NoNewline(text: string)
    requires '\n' !in text
    ensures Scan(text) == Parts([], text)
  {
    if text != "" {
      var n := |text| - 1;
      assert text[n] in text;
      NoNewline(text[..n]);
      assert text[..n] + [text[n]] == text;
      ScanSnoc(text[..n], text[n]);
    }
  }

  // Only the unfinished line takes part in what a further chunk completes.
  lemma {:induction false} ScanConcat(a: string, b: string)
    ensures var tail := Scan(Unfinished(a) + b);
            Scan(a + b) == Parts(Complete(a) + tail.done, tail.open)
  {
    if b == "" {
      assert a + b == a && Unfinished(a) + b == Unfinished(a);
      SplitIsExact(a);
      NoNewline(Unfinished(a));
    } else {
      var n := |b| - 1;
      ScanConcat(a, b[..n]);
      ScanLast(a, b);
      ScanLast(Unfinished(a), b);
      var tail := Scan(Unfinished(a) + b[..n]);
      assert Complete(a) + (tail.done + [tail.open]) == (Complete(a) + tail.done) + [tail.open];
    }
  }

  lemma ScanLast(a: string, b: string)
    requires b != ""
    ensures Scan(a + b) == WithChar(Scan(a + b[..|b| - 1]), b[|b| - 1])
  {
    var n := |b| - 1;
    assert b == b[..n] + [b[n]];
    assert a + b == (a + b[..n]) + [b[n]];
    ScanSnoc(a + b[..n], b[n]);
  }

  lemma LastLine(text: string, tail: string)
    requires '\n' !in tail
    ensures Split(text + tail) == Complete(text) + [Unfinished(text) + tail]
  {
    ScanConcat(text, tail);
    SplitIsExact(text);
    NoNewline(Unfinished(text) + tail);
    var lines := Split(text + tail);
    assert lines == lines[..|lines| - 1] + [lines[|lines| - 1]];
    assert Complete(text) + [] == Complete(text);
  }

  // ---- What one line does

  // The rows waiting in the batch and the batches handed to appendRows.
  datatype State<R> = State(batch: seq<R>, appended: seq<seq<R>>)

  // JSON.parse and rowFromStream: no row for a malformed line. The number of rows already in the
  // page is the index of a row that brings none.
  type Parser<R> = (string, nat) -> Option<R>

  function Total<R>(batches: seq<seq<R>>): nat {
    if batches == [] then 0 else Total(batches[..|batches| - 1]) + |batches[|batches| - 1]|
  }

  function Flushed<R>(st: State<R>): State<R> {
    if st.batch == [] then st else State([], st.appended + [st.batch])
  }

  function Pushed<R>(parse: Parser<R>, initial: nat, st: State<R>, line: string): State<R> {
    if line == "" then st else
      match parse(line, initial + Total(st.appended))
      case None => FlushedIfFull(st)
      case Some(row) => FlushedIfFull(st.(batch := st.batch + [row]))
  }

  function FlushedIfFull<R>(st: State<R>): State<R> {
    if |st.batch| >= 100 then Flushed(st) else st
  }

  function PushedAll<R>(parse: Parser<R>, initial: nat, st: State<R>, lines: seq<string>): State<R> {
    if lines == [] then st else
      var n := |lines| - 1;
      Pushed(parse, initial, PushedAll(parse, initial, st, lines[..n]), lines[n])
  }

  lemma {:induction false} PushedAllConcat<R>(parse: Parser<R>, initial: nat, st: State<R>, a: seq<string>,
      b: seq<string>)
    ensures PushedAll(parse, initial, st, a + b) == PushedAll(parse, initial, PushedAll(parse, initial, st, a), b)
    decreases |b|
  {
    if b == [] {
      assert a + b == a;
    } else {
      var n := |b| - 1;
      PushedAllConcat(parse, initial, st, a, b[..n]);
      assert (a + b)[..|a + b| - 1] == a + b[..n];
    }
  }

  lemma PushedLast<R>(parse: Parser<R>, initial: nat, st: State<R>, lines: seq<string>, last: string)
    ensures PushedAll(parse, initial, st, lines + [last])
            == Pushed(parse, initial, PushedAll(parse, initial, st, lines), last)
  {
    assert (lines + [last])[..|lines|] == lines;
  }

  lemma StreamStep<R>(parse: Parser<R>, initial: nat, st: State<R>, before: string, chunk: string)
    ensures Unfinished(before + chunk) == Unfinished(Unfinished(before) + chunk)
    ensures PushedAll(parse, initial, st, Complete(before + chunk))
            == PushedAll(parse, initial, PushedAll(parse, initial, st, Complete(before)),
                Complete(Unfinished(before) + chunk))
  {
    ScanConcat(before, chunk);
    PushedAllConcat(parse, initial, st, Complete(before), Complete(Unfinished(before) + chunk));
  }

  lemma StreamEnd<R>(parse: Parser<R>, initial: nat, st: State<R>, text: string, tail: string)
    requires '\n' !in tail
    ensures PushedAll(parse, initial, st, Split(text + tail))
            == Pushed(parse, initial, PushedAll(parse, initial, st, Complete(text)), Unfinished(text) + tail)
  {
    LastLine(text, tail);
    PushedLast(parse, initial, st, Complete(text), Unfinished(text) + tail);
  }

  // Splitting the whole text, pushing every line and flushing once: the reference behaviour.
  function Batches<R>(parse: Parser<R>, initial: nat, text: string): seq<seq<R>> {
    Flushed(PushedAll(parse, initial, State([], []), Split(text))).appended
  }

  class Loader<R> {
    const parse: Parser<R>
    const initial: nat
    var batch: seq<R>
    var appended: seq<seq<R>>

    constructor (parse: Parser<R>, initial: nat)
      ensures this.parse == parse && this.initial == initial && View() == State([], [])
    {
      this.parse, this.initial := parse, initial;
      batch, appended := [], [];
    }

    ghost function View(): State<R>
      reads this
    {
      State(batch, appended)
    }

    method Flush()
      modifies this
      ensures View() == Flushed(old(View()))
    {
      if |batch| == 0 {
        return;
      }
      appended := appended + [batch];
      batch := [];
    }

    method PushLine(line: string)
      modifies this
      ensures View() == Pushed(parse, initial, old(View()), line)
    {
      if line == "" {
        return;
      }
      var row := parse(line, initial + Total(appended));
      if row.Some? {
        batch := batch + [row.value];
      }
      if |batch| >= 100 {
        Flush();
      }
    }

    method PushLines(lines: seq<string>)
      modifies this
      ensures View() == PushedAll(parse, initial, old(View()), lines)
    {
      for i := 0 to |lines|
        invariant View() == PushedAll(parse, initial, old(View()), lines[..i])
      {
        assert lines[..i + 1][..i] == lines[..i];
        PushLine(lines[i]);
      }
      assert lines[..|lines|] == lines;
    }

    // The response is one text.
    method LoadText(text: string)
      requires View() == State([], [])
      modifies this
      ensures batch == [] && appended == Batches(parse, initial, text)
    {
      PushLines(Split(text));
      Flush();
    }

    // The response is a stream of chunks, which may end inside a character.
    method LoadStream(chunks: seq<string>, cutOff: bool)
      requires View() == State([], [])
      modifies this
      ensures batch == []
      ensures appended == Batches(parse, initial, Joined(chunks) + if cutOff then "\U{FFFD}" else "")
    {
      var buffer := "";
      ghost var start := View();
      for i := 0 to |chunks|
        invariant buffer == Unfinished(Joined(chunks[..i]))
        invariant View() == PushedAll(parse, initial, start, Complete(Joined(chunks[..i])))
      {
        ghost var before := Joined(chunks[..i]);
        assert chunks[..i + 1][..i] == chunks[..i];
        assert Joined(chunks[..i + 1]) == before + chunks[i];
        StreamStep(parse, initial, start, before, chunks[i]);
        buffer := buffer + chunks[i];
        var lines := Split(buffer);
        buffer := lines[|lines| - 1];
        PushLines(lines[..|lines| - 1]);
      }
      assert chunks[..|chunks|] == chunks;
      ghost var text := Joined(chunks);
      var tail := if cutOff then REPLACEMENT else "";
      StreamEnd(parse, initial, start, text, tail);
      buffer := buffer + tail;
      PushLine(buffer);
      Flush();
    }
  }

  // ---- What the reference behaviour appends

  function Concatenated<R>(batches: seq<seq<R>>): seq<R> {
    if batches == [] then [] else Concatenated(batches[..|batches| - 1]) + batches[|batches| - 1]
  }

  // The rows of the lines in order; when a line is read, whole batches have been appended.
  function WholeBatches(rows: nat): nat {
    rows - rows % 100
  }

  function NextRows<R>(parse: Parser<R>, initial: nat, rows: seq<R>, line: string): seq<R> {
    if line == "" then rows else
      match parse(line, initial + WholeBatches(|rows|))
      case None => rows
      case Some(row) => rows + [row]
  }

  function Rows<R>(parse: Parser<R>, initial: nat, lines: seq<string>): seq<R> {
    if lines == [] then [] else
      var n := |lines| - 1;
      NextRows(parse, initial, Rows(parse, initial, lines[..n]), lines[n])
  }

  ghost predicate Full<R>(batches: seq<seq<R>>) {
    forall b :: b in batches ==> |b| == 100
  }

  lemma {:induction false} FullTotal<R>(batches: seq<seq<R>>)
    requires Full(batches)
    ensures Total(batches) == |Concatenated(batches)| == 100 * |batches|
  {
    if batches != [] {
      FullTotal(batches[..|batches| - 1]);
    }
  }

  // What holds between lines: full batches so far, and no row lost or out of order.
  ghost predicate Accounts<R>(st: State<R>, rows: seq<R>) {
    && Full(st.appended) && |st.batch| < 100
    && Concatenated(st.appended) + st.batch == rows
  }

  lemma AccountsTotal<R>(st: State<R>, rows: seq<R>)
    requires Accounts(st, rows)
    ensures Total(st.appended) == WholeBatches(|rows|)
  {
    FullTotal(st.appended);
    assert |rows| == 100 * |st.appended| + |st.batch|;
  }

  lemma AccountsRow<R>(st: State<R>, rows: seq<R>, row: R)
    requires Accounts(st, rows)
    ensures Accounts(FlushedIfFull(st.(batch := st.batch + [row])), rows + [row])
  {
    var batch, done := st.batch + [row], st.appended;
    assert Concatenated(done) + batch == rows + [row];
    assert (done + [batch])[..|done|] == done;
  }

  lemma PushedLine<R>(parse: Parser<R>, initial: nat, st: State<R>, rows: seq<R>, line: string)
    requires Accounts(st, rows)
    ensures Accounts(Pushed(parse, initial, st, line), NextRows(parse, initial, rows, line))
  {
    AccountsTotal(st, rows);
    if line != "" {
      match parse(line, initial + Total(st.appended))
      case None =>
        assert Pushed(parse, initial, st, line) == st;
      case Some(row) =>
        AccountsRow(st, rows, row);
        assert NextRows(parse, initial, rows, line) == rows + [row];
    }
  }

  lemma {:induction false} PushedRows<R>(parse: Parser<R>, initial: nat, lines: seq<string>)
    ensures Accounts(PushedAll(parse, initial, State([], []), lines), Rows(parse, initial, lines))
  {
    if lines != [] {
      var n := |lines| - 1;
      PushedRows(parse, initial, lines[..n]);
      PushedLine(parse, initial, PushedAll(parse, initial, State([], []), lines[..n]),
                 Rows(parse, initial, lines[..n]), lines[n]);
    }
  }

  // The rows in order, in batches of 1 to 100, all but the last of 100.
  ghost predicate AreBatches<R>(batches: seq<seq<R>>, rows: seq<R>) {
    && Concatenated(batches) == rows
    && (forall i :: 0 <= i < |batches| ==> 1 <= |batches[i]| <= 100)
    && (forall i :: 0 <= i < |batches| - 1 ==> |batches[i]| == 100)
  }

  // What a last flush makes of such a state.
  lemma FlushedAccounts<R>(st: State<R>, rows: seq<R>)
    requires Accounts(st, rows)
    ensures AreBatches(Flushed(st).appended, rows)
  {
    assert forall i :: 0 <= i < |st.appended| ==> st.appended[i] in st.appended;
    if st.batch != [] {
      assert (st.appended + [st.batch])[..|st.appended|] == st.appended;
    }
  }

  lemma BatchesAreRows<R>(parse: Parser<R>, initial: nat, text: string)
    ensures AreBatches(Batches(parse, initial, text), Rows(parse, initial, Split(text)))
  {
    PushedRows(parse, initial, Split(text));
    FlushedAccounts(PushedAll(parse, initial, State([], []), Split(text)), Rows(parse, initial, Split(text)));
  }
}
