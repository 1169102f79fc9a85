/** Reading an append-only JSONL transcript piece by piece, in hooks/langfuse_hook.py.

    The file is a string of characters and JSON decoding is a function `parse` from a line to an
    optional row. Between two reads the file may grow anywhere, also in the middle of a line. */
module Transcript {
  import opened Text
  import opened Wrappers

  type Parser<!Row> = string -> Option<Row>

  /** The rows of a list of lines: blank lines and lines that are not JSON are skipped. */
  function Rows<Row>(lines: seq<string>, parse: Parser<Row>): seq<Row> {
    if lines == [] then []
    else Rows(lines[..|lines| - 1], parse) + RowOf(lines[|lines| - 1], parse)
  }

  function RowOf<Row>(line: string, parse: Parser<Row>): seq<Row> {
    var text := Strip(line);
    if text == "" || parse(text) == None then [] else [parse(text).value]
  }

  /** A line adds the row that its stripped text parses to; blank lines and lines that do not parse
      add nothing. */
  lemma RowsOfLine<Row>(lines: seq<string>, line: string, parse: Parser<Row>)
    ensures Rows<Row>([], parse) == []
    ensures Strip(line) == "" || parse(Strip(line)) == None ==> Rows(lines + [line], parse) == Rows(lines, parse)
    ensures Strip(line) != "" && parse(Strip(line)).Some? ==> Rows(lines + [line], parse) == Rows(lines, parse) + [parse(Strip(line)).value]
  {
    assert (lines + [line])[..|lines|] == lines;
  }

  /** The lines of a text that are complete, and what follows the last newline. */
  function Complete(text: string): seq<string> {
    var pieces := Split(text, '\n');
    pieces[..|pieces| - 1]
  }

  function Unfinished(text: string): string {
    var pieces := Split(text, '\n');
    pieces[|pieces| - 1]
  }

  /** What a session remembers between reads. */
  class Session {
    var offset: nat
    var buffer: string

    constructor ()
      ensures offset == 0 && buffer == ""
    {
      offset, buffer := 0, "";
    }

    /** Reads what was added since the last read. `file` is None when the transcript is missing or
        cannot be read; then, and when nothing was added, nothing changes. */
    method Read<Row>(file: Option<string>, parse: Parser<Row>) returns (rows: seq<Row>)
      modifies this
      ensures file == None || |file.value| <= old(offset) ==> rows == [] && offset == old(offset) && buffer == old(buffer)
      ensures file.Some? && |file.value| > old(offset) ==>
                var text := old(buffer) + file.value[old(offset)..];
                offset == |file.value| && buffer == Unfinished(text) && rows == Rows(Complete(text), parse)
    {
      hide Split;
      if file == None || |file.value| <= offset {
        return [];
      }
      var lines := Split(buffer + file.value[offset..], '\n');
      ghost var complete := lines[..|lines| - 1];
      buffer := lines[|lines| - 1];
      offset := |file.value|;
      rows := [];
      var i := 0;
      while i < |lines| - 1
        invariant 0 <= i <= |lines| - 1
        invariant rows == Rows(complete[..i], parse)
      {
        var line := Strip(lines[i]);
        assert complete[..i + 1][..i] == complete[..i];
        i := i + 1;
        if line == "" {
          continue;
        }
        var row := parse(line);
        if row.Some? {
          rows := rows + [row.value];
        }
      }
      assert complete[..i] == complete;
    }
  }

  // ---------------------------------------------------------------- runs

  datatype Event =
    | Append(text: string)
    | ReadFile
    | ReadFails

  /** The file, what the session remembers, and all rows read so far. */
  datatype World<Row> = World(file: string, offset: nat, buffer: string, rows: seq<Row>)

  function Step<Row>(w: World<Row>, e: Event, parse: Parser<Row>): World<Row> {
    match e
    case Append(text) => w.(file := w.file + text)
    case ReadFails => w
    case ReadFile =>
      if |w.file| <= w.offset then w
      else
        var text := w.buffer + w.file[w.offset..];
        World(w.file, |w.file|, Unfinished(text), w.rows + Rows(Complete(text), parse))
  }

  function Run<Row>(events: seq<Event>, parse: Parser<Row>): World<Row> {
    if events == [] then World("", 0, "", [])
    else Step(Run(events[..|events| - 1], parse), events[|events| - 1], parse)
  }

  lemma {:induction false} RowsAppend<Row>(a: seq<string>, b: seq<string>, parse: Parser<Row>)
    ensures Rows(a + b, parse) == Rows(a, parse) + Rows(b, parse)
  {
    hide RowOf;
    if b == [] {
      assert a + b == a;
    } else {
      RowsAppend(a, b[..|b| - 1], parse);
      assert (a + b)[..|a + b| - 1] == a + b[..|b| - 1];
    }
  }

  /** In every run the rows returned so far are those of one parse of the complete lines of what
      was read, and the buffer is exactly the text after the last newline of it. */
  lemma {:induction false} IncrementalIsBatch<Row>(events: seq<Event>, parse: Parser<Row>)
    ensures var w := Run(events, parse);
            && w.offset <= |w.file|
            && w.rows == Rows(Complete(w.file[..w.offset]), parse)
            && w.buffer == Unfinished(w.file[..w.offset])
  {
    hide Split;
    hide Rows;
    if events == [] {
      NothingRead(parse);
    } else {
      var front, e := events[..|events| - 1], events[|events| - 1];
      IncrementalIsBatch(front, parse);
      var w := Run(front, parse);
      var read := w.file[..w.offset];
      match e {
        case Append(text) =>
          assert (w.file + text)[..w.offset] == read;
        case ReadFails =>
        case ReadFile =>
          if |w.file| > w.offset {
            var added := w.file[w.offset..];
            assert w.file[..|w.file|] == read + added;
            ContinueReading(read, added, parse);
          }
      }
    }
  }

  lemma NothingRead<Row>(parse: Parser<Row>)
    ensures Rows(Complete(""), parse) == [] && Unfinished("") == ""
  {
  }

  lemma ContinueReading<Row>(read: string, added: string, parse: Parser<Row>)
    ensures var text := Unfinished(read) + added;
            && Unfinished(read + added) == Unfinished(text)
            && Rows(Complete(read + added), parse) == Rows(Complete(read), parse) + Rows(Complete(text), parse)
  {
    hide Split;
    hide Rows;
    var text := Unfinished(read) + added;
    SplitContinues(read, added, '\n');
    assert Complete(read + added) == Complete(read) + Complete(text);
    RowsAppend(Complete(read), Complete(text), parse);
  }

  /** So when and how often the file was read does not matter: two runs that end with a read of the
      same file have returned the same rows and hold the same buffer. */
  lemma ReadingScheduleIsIrrelevant<Row>(a: seq<Event>, b: seq<Event>, parse: Parser<Row>)
    requires Run(a, parse).file == Run(b, parse).file
    ensures Run(a + [ReadFile], parse) == Run(b + [ReadFile], parse)
    ensures var file := Run(a, parse).file; Run(a + [ReadFile], parse).rows == Rows(Complete(file), parse)
  {
    hide Split;
    hide Rows;
    var file := Run(a, parse).file;
    assert file[..|file|] == file;
    assert (a + [ReadFile])[..|a|] == a && (b + [ReadFile])[..|b|] == b;
    IncrementalIsBatch(a, parse);
    IncrementalIsBatch(b, parse);
    IncrementalIsBatch(a + [ReadFile], parse);
    IncrementalIsBatch(b + [ReadFile], parse);
  }
}
