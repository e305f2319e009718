/**
  The loader: turns the lines of a semicolon-delimited file into records.
  The first line is a header and is dropped by position; every later line is
  trimmed, skipped when blank, split on ';', skipped when it does not have
  exactly five parts, and skipped with a diagnostic when its fourth or fifth
  part is not an `int`. File reading is left to the caller: the loader gets the
  lines. Instead of printing a diagnostic it returns the trimmed lines that
  would have been named in one.
 */
module FileUtil {
  import opened JavaText
  import opened Media

  /** The five fields of an accepted line, before they become a Track or a Video. */
  datatype Row = Row(title: string, creator: string, classifier: string, duration: int, metric: int)

  /** What the loader does with one (non-header) line. */
  datatype LineOutcome =
    | Blank                        // empty after trimming: skipped silently
    | WrongFieldCount              // not five parts: skipped silently
    | Unparsable(trimmed: string)  // a number failed to parse: skipped, one diagnostic
    | Accepted(row: Row)           // one record

  /** The fate of one data line. */
  function Classify(line: string): (r: LineOutcome)
  {
    var trimmed := Trim(line);
    if trimmed == "" then Blank
    else
      var parts := JavaSplit(trimmed, ';');
      if |parts| != 5 then WrongFieldCount
      else
        match (ParseInt(parts[3]), ParseInt(parts[4]))
        case (Some(duration), Some(metric)) =>
          Accepted(Row(parts[0], parts[1], parts[2], duration, metric))
        case _ => Unparsable(trimmed)
  }

  /** The row a line contributes: one if it is accepted, none otherwise. */
  function RowOf(line: string): (r: seq<Row>)
  {
    match Classify(line)
    case Accepted(row) => [row]
    case _ => []
  }

  /** The diagnostic a line contributes: its trimmed text if a number failed to
      parse, nothing otherwise. */
  function DiagnosticOf(line: string): (r: seq<string>)
  {
    match Classify(line)
    case Unparsable(trimmed) => [trimmed]
    case _ => []
  }

  /** What `each` makes of every line of `body`, concatenated in line order. */
  function Collect<T>(body: seq<string>, each: string -> seq<T>): (r: seq<T>)
  {
    if body == [] then [] else Collect(body[..|body| - 1], each) + each(body[|body| - 1])
  }

  /** The rows of a run of data lines, in line order. */
  function RowsOf(body: seq<string>): (r: seq<Row>)
  {
    Collect(body, RowOf)
  }

  /** The diagnostics of a run of data lines, in line order. */
  function DiagnosticsOf(body: seq<string>): (r: seq<string>)
  {
    Collect(body, DiagnosticOf)
  }

  /** The rows of a whole file: everything after the first line. */
  function LoadedRows(lines: seq<string>): (r: seq<Row>)
  {
    if lines == [] then [] else RowsOf(lines[1..])
  }

  /** The diagnostics of a whole file: everything after the first line. */
  function LoadedDiagnostics(lines: seq<string>): (r: seq<string>)
  {
    if lines == [] then [] else DiagnosticsOf(lines[1..])
  }

  function TrackOf(row: Row): (r: Track)
  {
    Track(row.title, row.creator, row.classifier, row.duration, row.metric)
  }

  function VideoOf(row: Row): (r: Video)
  {
    Video(row.title, row.creator, row.classifier, row.duration, row.metric)
  }

  /** One Track per row, same position. */
  function TracksOf(rows: seq<Row>): (r: seq<Track>)
  {
    seq(|rows|, k requires 0 <= k < |rows| => TrackOf(rows[k]))
  }

  /** One Video per row, same position. */
  function VideosOf(rows: seq<Row>): (r: seq<Video>)
  {
    seq(|rows|, k requires 0 <= k < |rows| => VideoOf(rows[k]))
  }

  // ---------------------------------------------------------------------------
  // One line
  // ---------------------------------------------------------------------------

  /** A line that is blank once trimmed contributes neither a row nor a diagnostic. */
  lemma BlankLine(line: string)
    requires Trim(line) == ""
    ensures RowOf(line) == [] && DiagnosticOf(line) == []
  {
  }

  /** A line that does not split into exactly five parts contributes neither a
      row nor a diagnostic. */
  lemma WrongCountLine(line: string)
    requires Trim(line) != "" && |JavaSplit(Trim(line), ';')| != 5
    ensures RowOf(line) == [] && DiagnosticOf(line) == []
  {
  }

  /** A five-part line whose fourth and fifth parts both parse contributes one
      row made of its three text parts verbatim and the two parsed numbers. */
  lemma AcceptedLine(line: string, parts: seq<string>, duration: int, metric: int)
    requires Trim(line) != "" && parts == JavaSplit(Trim(line), ';') && |parts| == 5
    requires ParseInt(parts[3]) == Some(duration) && ParseInt(parts[4]) == Some(metric)
    ensures RowOf(line) == [Row(parts[0], parts[1], parts[2], duration, metric)]
    ensures DiagnosticOf(line) == []
  {
  }

  /** A five-part line with a number that does not parse contributes no row and
      exactly one diagnostic, which names the trimmed line. */
  lemma UnparsableLine(line: string, parts: seq<string>)
    requires Trim(line) != "" && parts == JavaSplit(Trim(line), ';') && |parts| == 5
    requires ParseInt(parts[3]).None? || ParseInt(parts[4]).None?
    ensures RowOf(line) == [] && DiagnosticOf(line) == [Trim(line)]
  {
  }

  /** Conversely, every row comes from a non-blank five-part line: its text
      fields are the first three parts verbatim and its numbers are what
      parseInt makes of the fourth and fifth parts. */
  lemma RowSource(line: string, row: Row)
    requires row in RowOf(line)
    ensures Trim(line) != ""
    ensures var parts := JavaSplit(Trim(line), ';');
      |parts| == 5 && row.title == parts[0] && row.creator == parts[1] && row.classifier == parts[2] &&
      ParseInt(parts[3]) == Some(row.duration) && ParseInt(parts[4]) == Some(row.metric)
  {
  }

  /** Every diagnostic comes from a non-blank five-part line with a number that
      does not parse, and it is that line trimmed. */
  lemma DiagnosticSource(line: string, message: string)
    requires message in DiagnosticOf(line)
    ensures message == Trim(line) != ""
    ensures var parts := JavaSplit(Trim(line), ';');
      |parts| == 5 && (ParseInt(parts[3]).None? || ParseInt(parts[4]).None?)
  {
  }

  /** A field with a space (or any other trimmable char) next to its number is
      not trimmed, so the line is reported instead of accepted. */
  lemma PaddedNumberRejected(line: string, parts: seq<string>, field: nat, k: nat)
    requires Trim(line) != "" && parts == JavaSplit(Trim(line), ';') && |parts| == 5
    requires field == 3 || field == 4
    requires k < |parts[field]| && IsTrimmable(parts[field][k])
    ensures RowOf(line) == [] && DiagnosticOf(line) == [Trim(line)]
  {
    ParseIntRejectsTrimmable(parts[field], k);
  }

  /** Trailing empty fields are dropped before the count: a line ending in ';'
      still has five parts and is accepted. */
  lemma TrailingSeparatorAccepted()
    ensures RowOf("a;b;c;1;2;") == [Row("a", "b", "c", 1, 2)]
  {
    assert Trim("a;b;c;1;2;") == "a;b;c;1;2;";
    JavaSplitTrailingExample();
    ParseIntExamples();
    AcceptedLine("a;b;c;1;2;", ["a", "b", "c", "1", "2"], 1, 2);
  }

  // ---------------------------------------------------------------------------
  // Runs of lines
  // ---------------------------------------------------------------------------

  lemma {:induction false} CollectAppend<T>(a: seq<string>, b: seq<string>, each: string -> seq<T>)
    ensures Collect(a + b, each) == Collect(a, each) + Collect(b, each)
  {
    if b == [] {
      assert a + b == a;
    } else {
      var b', last := b[..|b| - 1], b[|b| - 1];
      CollectAppend(a, b', each);
      assert (a + b)[..|a + b| - 1] == a + b' && (a + b)[|a + b| - 1] == last;
      assert Collect(a + b, each) == Collect(a, each) + Collect(b', each) + each(last);
      assert Collect(b, each) == Collect(b', each) + each(last);
    }
  }

  lemma CollectInsert<T>(before: seq<string>, line: string, after: seq<string>, each: string -> seq<T>)
    ensures Collect(before + [line] + after, each) == Collect(before, each) + each(line) + Collect(after, each)
  {
    CollectAppend(before + [line], after, each);
    CollectAppend(before, [line], each);
    assert [line][..0] == [];
  }

  lemma CollectSkip<T>(before: seq<string>, line: string, after: seq<string>, each: string -> seq<T>)
    requires each(line) == []
    ensures Collect(before + [line] + after, each) == Collect(before + after, each)
  {
    CollectInsert(before, line, after, each);
    CollectAppend(before, after, each);
    assert Collect(before, each) + each(line) == Collect(before, each);
  }

  /** The loader handles lines one at a time: the rows and diagnostics of two
      runs of lines in a row are those of the first run followed by those of
      the second. */
  lemma RowsOfAppend(a: seq<string>, b: seq<string>)
    ensures RowsOf(a + b) == RowsOf(a) + RowsOf(b)
    ensures DiagnosticsOf(a + b) == DiagnosticsOf(a) + DiagnosticsOf(b)
  {
    CollectAppend(a, b, RowOf);
    CollectAppend(a, b, DiagnosticOf);
  }

  /** Each line contributes at most one row or one diagnostic, never both. */
  lemma {:induction false} AtMostOnePerLine(body: seq<string>)
    ensures |RowsOf(body)| + |DiagnosticsOf(body)| <= |body|
  {
    if body != [] {
      AtMostOnePerLine(body[..|body| - 1]);
    }
  }

  /** At most one record per line after the header, and nothing at all for an
      empty or header-only file. */
  lemma LoadedBound(lines: seq<string>)
    ensures |LoadedRows(lines)| + |LoadedDiagnostics(lines)| <= if lines == [] then 0 else |lines| - 1
    ensures |lines| <= 1 ==> LoadedRows(lines) == [] && LoadedDiagnostics(lines) == []
  {
    if lines != [] {
      AtMostOnePerLine(lines[1..]);
    }
  }

  /** The first line is dropped by position: whatever it holds, the result is
      that of the lines after it. */
  lemma HeaderIgnored(header: string, body: seq<string>)
    ensures LoadedRows([header] + body) == RowsOf(body)
    ensures LoadedDiagnostics([header] + body) == DiagnosticsOf(body)
  {
    assert ([header] + body)[1..] == body;
  }

  /** A line that contributes nothing (blank, or the wrong number of parts) can
      be removed from anywhere without changing the result. */
  lemma SkippedLineInvisible(before: seq<string>, line: string, after: seq<string>)
    requires RowOf(line) == [] && DiagnosticOf(line) == []
    ensures RowsOf(before + [line] + after) == RowsOf(before + after)
    ensures DiagnosticsOf(before + [line] + after) == DiagnosticsOf(before + after)
  {
    CollectSkip(before, line, after, RowOf);
    CollectSkip(before, line, after, DiagnosticOf);
  }

  /** A line whose numbers do not parse adds its one diagnostic in its place and
      the lines after it are processed as if it were not there. */
  lemma UnparsableLineInPlace(before: seq<string>, line: string, after: seq<string>)
    requires Classify(line).Unparsable?
    ensures RowsOf(before + [line] + after) == RowsOf(before + after)
    ensures DiagnosticsOf(before + [line] + after)
         == DiagnosticsOf(before) + [Trim(line)] + DiagnosticsOf(after)
  {
    CollectSkip(before, line, after, RowOf);
    CollectInsert(before, line, after, DiagnosticOf);
  }

  /** An accepted line adds its one row in its place. */
  lemma AcceptedLineInPlace(before: seq<string>, line: string, after: seq<string>)
    requires Classify(line).Accepted?
    ensures RowsOf(before + [line] + after)
         == RowsOf(before) + [Classify(line).row] + RowsOf(after)
    ensures DiagnosticsOf(before + [line] + after) == DiagnosticsOf(before + after)
  {
    CollectInsert(before, line, after, RowOf);
    CollectSkip(before, line, after, DiagnosticOf);
  }

  // ---------------------------------------------------------------------------
  // The loader
  // ---------------------------------------------------------------------------

  /** The body of the loader's loop for one line, written as statements: trim,
      give up on a blank line, split, give up on a wrong part count, parse the
      two numbers and either build the row or report the trimmed line. Its
      contract only links it to `Classify`; the rules it follows are the
      lemmas about `Classify` above. */
  method ParseLine(raw: string) returns (outcome: LineOutcome)
    ensures outcome == Classify(raw)
  {
    var line := Trim(raw);
    if line == "" {
      return Blank;
    }
    var parts := JavaSplit(line, ';');
    if |parts| != 5 {
      return WrongFieldCount;
    }
    var duration := ParseInt(parts[3]);
    var metric := ParseInt(parts[4]);
    if duration.Some? && metric.Some? {
      outcome := Accepted(Row(parts[0], parts[1], parts[2], duration.value, metric.value));
    } else {
      outcome := Unparsable(line);
    }
  }

  /** One more line of the body adds what that line yields. */
  lemma LoadStep(body: seq<string>, n: nat)
    requires n < |body|
    ensures RowsOf(body[..n + 1]) == RowsOf(body[..n]) + RowOf(body[n])
    ensures DiagnosticsOf(body[..n + 1]) == DiagnosticsOf(body[..n]) + DiagnosticOf(body[n])
  {
    assert body[..n + 1][..n] == body[..n];
  }

  lemma TracksOfSnoc(rows: seq<Row>, row: Row)
    ensures TracksOf(rows + [row]) == TracksOf(rows) + [TrackOf(row)]
  {
  }

  lemma VideosOfSnoc(rows: seq<Row>, row: Row)
    ensures VideosOf(rows + [row]) == VideosOf(rows) + [VideoOf(row)]
  {
  }

  /** `readTracks`, given the file's lines: one Track per accepted line, in order,
      and the trimmed text of each line whose numbers do not parse. */
  method ReadTracks(lines: seq<string>) returns (tracks: seq<Track>, diagnostics: seq<string>)
    ensures tracks == TracksOf(LoadedRows(lines))
    ensures diagnostics == LoadedDiagnostics(lines)
  {
    tracks, diagnostics := [], [];
    ghost var body := if lines == [] then [] else lines[1..];
    var i := 1;
    while i < |lines|
      invariant 1 <= i <= |body| + 1
      invariant tracks == TracksOf(RowsOf(body[..i - 1]))
      invariant diagnostics == DiagnosticsOf(body[..i - 1])
    {
      LoadStep(body, i - 1);
      assert body[i - 1] == lines[i];
      var outcome := ParseLine(lines[i]);
      if outcome.Accepted? {
        TracksOfSnoc(RowsOf(body[..i - 1]), outcome.row);
        tracks := tracks + [TrackOf(outcome.row)];
      } else if outcome.Unparsable? {
        diagnostics := diagnostics + [outcome.trimmed];
      }
      i := i + 1;
    }
    assert body[..i - 1] == body;
  }

  /** `readVideos`, given the file's lines: the same lines are accepted, skipped
      and reported as by ReadTracks, and the same rows become Videos. */
  method ReadVideos(lines: seq<string>) returns (videos: seq<Video>, diagnostics: seq<string>)
    ensures videos == VideosOf(LoadedRows(lines))
    ensures diagnostics == LoadedDiagnostics(lines)
  {
    videos, diagnostics := [], [];
    ghost var body := if lines == [] then [] else lines[1..];
    var i := 1;
    while i < |lines|
      invariant 1 <= i <= |body| + 1
      invariant videos == VideosOf(RowsOf(body[..i - 1]))
      invariant diagnostics == DiagnosticsOf(body[..i - 1])
    {
      LoadStep(body, i - 1);
      assert body[i - 1] == lines[i];
      var outcome := ParseLine(lines[i]);
      if outcome.Accepted? {
        VideosOfSnoc(RowsOf(body[..i - 1]), outcome.row);
        videos := videos + [VideoOf(outcome.row)];
      } else if outcome.Unparsable? {
        diagnostics := diagnostics + [outcome.trimmed];
      }
      i := i + 1;
    }
    assert body[..i - 1] == body;
  }
}
