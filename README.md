# Media aggregation: loader and statistics writer

This project is a Dafny model of the two utilities of a small Java media-playlist
application:

- **`FileUtil`** reads a semicolon-delimited file of tracks or videos into records.
  - The first line is a header and is dropped by position.
  - Every later line is trimmed. It is skipped when it is blank, and skipped when
    `split(";")` does not give exactly five parts.
  - The fourth and fifth parts go through `Integer.parseInt`. When one fails, the
    line is skipped and reported on the console.
  - Every other line becomes one `Track` or `Video`, in file order.
- **`MediaStatisticsWriter`** computes four statistics of a playlist and renders
  them into a fixed text layout:
  - the count;
  - the average duration, cut toward zero, 0 for an empty playlist;
  - a top three: tracks by rating and then duration, videos by views, with a
    stable sort;
  - a case-insensitive category list: "Pop" tracks or "Education" videos.

Modules:

- `JavaText` (`java_text.dfy`) models the Java library behaviour the code relies on:
  - `String.trim` (strips every char up to U+0020);
  - `String.split` with a one-char delimiter, which drops trailing empty strings;
  - `Integer.parseInt`;
  - `Integer.toString`, which is what `StringBuilder.append(int)` writes;
  - `String.equalsIgnoreCase`;
  - text built line by line (`Unlines`).
- `Media` (`media.dfy`) holds the two record types.
- `Ranking` (`ranking.dfy`) is a stable insertion sort in descending order of a
  lexicographic key, plus `limit(n)`. Together they model
  `stream().sorted(comparator).limit(3)`.
- `FileUtil` (`file_util.dfy`) is the loader.
  - `Classify` states what happens to one line.
  - `RowsOf` and `DiagnosticsOf` state what a run of lines yields.
  - `ReadTracks` and `ReadVideos` are the source's indexed loops. They are proved
    to compute exactly those specifications.
- `MediaStatisticsWriter` (`media_statistics_writer.dfy`) is the writer.
  - The statistics are functions, as the stream pipelines are.
  - `TrackReportLines` and `VideoReportLines` give the report line by line.
  - `WriteTrackStats` and `WriteVideoStats` append to a string as the
    `StringBuilder` code does. They are proved to produce exactly that text.

File access is not modelled. The loader receives the file's lines and returns
the records. In place of the console messages, it also returns the trimmed text of
each line a message would name. The writer returns the report text instead of
writing it to a file.

## Model

| member | source | states |
|---|---|---|
| FileUtil.ReadTracks | src/com/example/media/util/FileUtil.java:55-89 | The loop builds exactly one Track per accepted line after the header, in line order, with the fields `TracksOf(LoadedRows(lines))` describes. It reports exactly the trimmed lines whose numbers fail to parse, in line order. |
| FileUtil.ReadVideos | src/com/example/media/util/FileUtil.java:116-146 | The same skip, accept and report rules as ReadTracks, over the same rows, building Videos. |
| FileUtil.BlankLine | src/com/example/media/util/FileUtil.java:65-66 | A line that is empty after trimming gives no record and no diagnostic. |
| FileUtil.WrongCountLine | src/com/example/media/util/FileUtil.java:71-72 | A line whose split does not have exactly five parts is skipped silently: no record, no diagnostic. |
| FileUtil.AcceptedLine | src/com/example/media/util/FileUtil.java:74-83 | A five-part line whose fourth and fifth parts parse gives one record. Its text fields are parts 0-2 verbatim and its numbers are the parsed values. It gives no diagnostic. |
| FileUtil.UnparsableLine | src/com/example/media/util/FileUtil.java:74-86 | A five-part line with a fourth or fifth part that does not parse gives no record and exactly one diagnostic, the trimmed line. |
| FileUtil.RowSource | src/com/example/media/util/FileUtil.java:71-83 | Conversely, every record comes from a non-blank line that splits into five parts. Its fields are the first three parts and the parsed fourth and fifth. |
| FileUtil.DiagnosticSource | src/com/example/media/util/FileUtil.java:71-86 | Conversely, every diagnostic is the trimmed text of a non-blank five-part line with a number that fails to parse. |
| FileUtil.PaddedNumberRejected | src/com/example/media/util/FileUtil.java:65-79 | Only the whole line is trimmed. So a numeric field that holds a space, or any other char up to U+0020, fails the parse and the line is reported, not accepted. |
| FileUtil.TrailingSeparatorAccepted | src/com/example/media/util/FileUtil.java:71-72 | `a;b;c;1;2;` splits into five parts, because split drops the trailing empty string. The line is accepted as ("a","b","c",1,2). |
| FileUtil.RowsOfAppend | src/com/example/media/util/FileUtil.java:64-87 | Records and diagnostics of two consecutive runs of lines are those of the first run followed by those of the second, so file order is kept. |
| FileUtil.AtMostOnePerLine | src/com/example/media/util/FileUtil.java:64-87 | Each line yields at most one record or one diagnostic, never both. |
| FileUtil.LoadedBound | src/com/example/media/util/FileUtil.java:56-88 | A file of n lines yields at most n-1 records and diagnostics together. An empty or header-only file yields none. |
| FileUtil.HeaderIgnored | src/com/example/media/util/FileUtil.java:64 | The first line never contributes, whatever it holds. The result is that of the lines after it. |
| FileUtil.SkippedLineInvisible | src/com/example/media/util/FileUtil.java:66-72 | A blank or wrong-count line can be removed from anywhere in the file without changing the records or the diagnostics. |
| FileUtil.UnparsableLineInPlace | src/com/example/media/util/FileUtil.java:84-86 | A line whose number fails adds its one diagnostic at its place. The records are as if the line were absent, so processing continues with the next line. |
| FileUtil.AcceptedLineInPlace | src/com/example/media/util/FileUtil.java:83 | An accepted line adds its one record at its place, between the records of the lines before and after it. |
| FileUtil.TracksOfSnoc | src/com/example/media/util/FileUtil.java:83 | Adding a row at the end of the rows adds its Track at the end of the list. |
| FileUtil.VideosOfSnoc | src/com/example/media/util/FileUtil.java:140 | Adding a row at the end of the rows adds its Video at the end of the list. |
| JavaText.TrimSlice | src/com/example/media/util/FileUtil.java:65 | `trim` keeps one contiguous slice of the line. Everything it cuts is at most U+0020. The slice, when not empty, starts and ends with a char above U+0020. |
| JavaText.TrimEmptyIff | src/com/example/media/util/FileUtil.java:65-66 | A line is blank after trimming if and only if every char of it is at most U+0020. |
| JavaText.TrimIdempotent | src/com/example/media/util/FileUtil.java:65 | Trimming an already trimmed line changes nothing. |
| JavaText.DropTrailingEmpty | src/com/example/media/util/FileUtil.java:71 | Split keeps a prefix of the pieces: only empty pieces are dropped, and the last kept piece is not empty. |
| JavaText.JavaSplitParts | src/com/example/media/util/FileUtil.java:71 | Split parts hold no ';'. A line without ';' is one part. Otherwise the parts are the pieces between the ';' with the trailing empty ones dropped. |
| JavaText.JoinSplitAll | src/com/example/media/util/FileUtil.java:71 | Gluing the pieces back together with the delimiter gives the line again. |
| JavaText.SplitAllJoin | src/com/example/media/util/FileUtil.java:71 | Splitting delimiter-free pieces glued with the delimiter gives back the pieces. |
| JavaText.SplitAllPrefix | src/com/example/media/util/FileUtil.java:71 | A delimiter-free head followed by the delimiter is the first piece. |
| JavaText.JavaSplitTrailingExample | src/com/example/media/util/FileUtil.java:71 | `"a;b;c;1;2;".split(";")` is `["a","b","c","1","2"]`. |
| JavaText.ParseInt | src/com/example/media/util/FileUtil.java:78-79 | A parsed value is in the int range. It comes from a string that is an optional sign followed by digits only, with at least one digit. |
| JavaText.ParseIntExamples | src/com/example/media/util/FileUtil.java:78-79 | "1", "2", "+7" and "-7" parse. "", "-" and " 1" do not. |
| JavaText.ParseIntNumeral | src/com/example/media/util/FileUtil.java:78-79 | Every numeral, an optional `+` or `-` and then one or more digits, leading zeros allowed, parses to its signed value when that value is an int and fails otherwise. With ParseInt's own clauses, which say nothing else parses, this fixes the result on every input. |
| JavaText.ParseIntOutOfRange | src/com/example/media/util/FileUtil.java:78-79 | Every numeral whose signed value is outside the int range fails to parse, whatever its sign and leading zeros, so its line is reported. |
| JavaText.ParseIntBounds | src/com/example/media/util/FileUtil.java:78-79 | "2147483647" and "-2147483648" parse to the int bounds. "+2147483648" and "-2147483649" fail. |
| JavaText.ParseIntRejectsTrimmable | src/com/example/media/util/FileUtil.java:78-79 | A string holding any char at most U+0020 never parses. |
| JavaText.ParseIntToString | src/com/example/media/util/MediaStatisticsWriter.java:74-75 | Every int the writer appends as a numeral parses back to the same int. |
| JavaText.NatToStringValue | src/com/example/media/util/MediaStatisticsWriter.java:74 | The numeral of a natural number is non-empty decimal digits whose value is the number. |
| JavaText.IntToStringChars | src/com/example/media/util/MediaStatisticsWriter.java:74-81 | An appended int holds only digits and a minus sign, so never a line feed. |
| JavaText.UnlinesAppend | src/com/example/media/util/MediaStatisticsWriter.java:73-85 | Text built line by line from two runs of lines is the text of the first run followed by that of the second. |
| JavaText.UnlinesJoin | src/com/example/media/util/MediaStatisticsWriter.java:73-85 | Text made of lines, each ending in "\n", is the lines joined with "\n" plus a final empty piece. |
| JavaText.SplitUnlines | src/com/example/media/util/MediaStatisticsWriter.java:73-85 | Cutting such text at its line feeds gives back the lines, when no line holds a line feed. |
| MediaStatisticsWriter.TruncDiv | src/com/example/media/util/MediaStatisticsWriter.java:75 | The `(int)` cast of a quotient cuts toward zero. For a sum a and count b, q·b is within one b of a, on the side of zero. |
| MediaStatisticsWriter.AverageTruncates | src/com/example/media/util/MediaStatisticsWriter.java:56-59 | The average is 0 for no records. Otherwise it is the sum over the count cut toward zero, for negative sums too. |
| MediaStatisticsWriter.AverageWithin | src/com/example/media/util/MediaStatisticsWriter.java:129-132 | For a non-empty playlist the average lies between the least and the greatest duration. |
| MediaStatisticsWriter.SumBounds | src/com/example/media/util/MediaStatisticsWriter.java:57-58 | n durations within [lo, hi] sum to a value within [n·lo, n·hi]. |
| MediaStatisticsWriter.TopTracksFromInput | src/com/example/media/util/MediaStatisticsWriter.java:62-66 | The top three has min(3, n) entries. It is a sub-multiset of the playlist, so entries are taken without duplication. |
| MediaStatisticsWriter.TopTracksOrdered | src/com/example/media/util/MediaStatisticsWriter.java:63-65 | Entries are in rating order, with the longer first on equal rating. No track left out ranks strictly above a track taken. |
| MediaStatisticsWriter.TopTracksStable | src/com/example/media/util/MediaStatisticsWriter.java:62-66 | Tracks with equal rating and duration appear in playlist order. Those taken are the first such tracks. |
| MediaStatisticsWriter.TopVideosFromInput | src/com/example/media/util/MediaStatisticsWriter.java:135-138 | The top three has min(3, n) entries, drawn from the playlist without duplication. |
| MediaStatisticsWriter.TopVideosOrdered | src/com/example/media/util/MediaStatisticsWriter.java:136 | Entries are in descending order of views. No video left out has more views than a video taken. |
| MediaStatisticsWriter.TopVideosStable | src/com/example/media/util/MediaStatisticsWriter.java:135-138 | Videos with equal views keep their playlist order. Those taken are the first ones. |
| Ranking.SortDescendingSorted | src/com/example/media/util/MediaStatisticsWriter.java:62-66 | The sort is a permutation of its input, in descending key order. |
| Ranking.SortDescendingStable | src/com/example/media/util/MediaStatisticsWriter.java:135-137 | For every key, the elements carrying it keep their input order. |
| Ranking.InsertDescending | src/com/example/media/util/MediaStatisticsWriter.java:63-64 | Inserting into a descending sequence keeps it descending. |
| Ranking.InsertWithKey | src/com/example/media/util/MediaStatisticsWriter.java:135-137 | Inserting puts the element before the others of its key and leaves every other key's elements as they were. |
| Ranking.TopNSize | src/com/example/media/util/MediaStatisticsWriter.java:65 | `limit(n)` keeps min(n, size) elements. |
| Ranking.TopNFromInput | src/com/example/media/util/MediaStatisticsWriter.java:62-66 | The first n of the sorted sequence are a sub-multiset of the input, in descending key order. |
| Ranking.TopNNoneOmittedAbove | src/com/example/media/util/MediaStatisticsWriter.java:62-66 | Nothing left out outranks anything taken. |
| Ranking.TopNStable | src/com/example/media/util/MediaStatisticsWriter.java:135-138 | For every key, the elements taken are a prefix of the input's elements of that key. |
| MediaStatisticsWriter.FilterExact | src/com/example/media/util/MediaStatisticsWriter.java:69-71 | `filter` keeps each accepted element exactly as often as it occurs and drops every other element. |
| MediaStatisticsWriter.FilterAppend | src/com/example/media/util/MediaStatisticsWriter.java:141-143 | `filter` works piece by piece, so the kept elements stay in input order. |
| MediaStatisticsWriter.PopIgnoringCase | src/com/example/media/util/MediaStatisticsWriter.java:70 | A genre matches "Pop" ignoring case if and only if it is three letters p, o, p, each in either case. |
| MediaStatisticsWriter.PopTracksExact | src/com/example/media/util/MediaStatisticsWriter.java:69-71 | The Pop list holds every track whose genre equals "Pop" ignoring case, as often as it occurs, and nothing else. |
| MediaStatisticsWriter.EducationVideosExact | src/com/example/media/util/MediaStatisticsWriter.java:141-143 | The Education list holds every video whose category equals "Education" ignoring case, as often as it occurs, and nothing else. |
| MediaStatisticsWriter.WriteTrackStats | src/com/example/media/util/MediaStatisticsWriter.java:52-88 | The appends and the two loops produce exactly `TrackReport(tracks)`: the lines of `TrackReportLines`, each followed by "\n". |
| MediaStatisticsWriter.WriteVideoStats | src/com/example/media/util/MediaStatisticsWriter.java:125-159 | The appends and the two loops produce exactly `VideoReport(videos)`: the lines of `VideoReportLines`, each followed by "\n". |
| MediaStatisticsWriter.RankedTrackStep | src/com/example/media/util/MediaStatisticsWriter.java:78-82 | One pass of the ranking loop extends the text by exactly ranked line i+1, the entry numbered i+1. |
| MediaStatisticsWriter.PopStep | src/com/example/media/util/MediaStatisticsWriter.java:85 | One `forEach` step extends the text by exactly the next Pop line, `"- " + title + " "`. |
| MediaStatisticsWriter.RankedVideoStep | src/com/example/media/util/MediaStatisticsWriter.java:150-154 | One pass of the ranking loop extends the text by exactly ranked line i+1. |
| MediaStatisticsWriter.EducationStep | src/com/example/media/util/MediaStatisticsWriter.java:157 | One `forEach` step extends the text by exactly the next Education line. |
| MediaStatisticsWriter.SummaryText | src/com/example/media/util/MediaStatisticsWriter.java:74-77 | The three summary appends produce four lines: the count, the average followed by " seconds", an empty line, and the ranking heading. |
| MediaStatisticsWriter.PopHeadingText | src/com/example/media/util/MediaStatisticsWriter.java:84 | `" \nPOP tacks: \n"` is the two lines " " and "POP tacks: ". |
| MediaStatisticsWriter.EducationHeadingText | src/com/example/media/util/MediaStatisticsWriter.java:156 | `"\nEducation videos:\n"` is an empty line and "Education videos:". |
| MediaStatisticsWriter.TrackReportParts | src/com/example/media/util/MediaStatisticsWriter.java:73-85 | The track report is the summary text, the ranked text, the Pop heading and the Pop lines, in that order. |
| MediaStatisticsWriter.VideoReportParts | src/com/example/media/util/MediaStatisticsWriter.java:145-157 | The video report is the summary text, the ranked text, the Education heading and the Education lines, in that order. |
| MediaStatisticsWriter.TrackReportLayout | src/com/example/media/util/MediaStatisticsWriter.java:73-85 | When no title holds a line feed, cutting the track report at its line feeds gives exactly its lines, plus the empty piece after the final "\n". |
| MediaStatisticsWriter.VideoReportLayout | src/com/example/media/util/MediaStatisticsWriter.java:145-157 | The same for the video report. |
| MediaStatisticsWriter.RankedTrackLinesSingle | src/com/example/media/util/MediaStatisticsWriter.java:80-81 | No ranked track line holds a line feed when no title does. |
| MediaStatisticsWriter.RankedVideoLinesSingle | src/com/example/media/util/MediaStatisticsWriter.java:152-153 | No ranked video line holds a line feed when no title does. |
| MediaStatisticsWriter.PopLinesSingle | src/com/example/media/util/MediaStatisticsWriter.java:85 | No Pop line holds a line feed when no title does. |
| MediaStatisticsWriter.EducationLinesSingle | src/com/example/media/util/MediaStatisticsWriter.java:157 | No Education line holds a line feed when no title does. |
| MediaStatisticsWriter.TwoTrackExample | src/com/example/media/util/MediaStatisticsWriter.java:55-71 | For "Shape of You" (Pop, 240 s, rating 9) and "Teen Spirit" (Rock, 301 s, rating 10), the average is 270. The top order is Teen Spirit, then Shape of You. The Pop list is Shape of You. |

## Left out

- File access is not modelled. This covers `Files.readAllLines`, `Files.write`, `Paths.get` and the platform charset of `getBytes()`.
  - The loader takes the file's lines as a sequence.
  - The writer returns the report string. The file name parameter is dropped.
  - An `IOException` has no counterpart.
- Console output is not modelled. A line whose number fails to parse is returned, trimmed, in a list of diagnostics. The fixed message prefix that the source prints before it is not modelled.
- `Playlist`, `Track` and `Video` are not part of this model.
  - The playlist is a sequence of records.
  - The records are plain five-field values. A constructor that validated its arguments and threw would turn an accepted line into a reported one; that case is not modelled.
- MediaStatisticsWriter.AverageDuration: `IntStream.average()` sums in a `long` and divides as `double` before the cast. The model divides exactly and cuts toward zero. The two agree whenever the absolute value of the sum is below 2^53. Above that, or if the `long` sum overflows, they can differ.
- JavaText.ParseInt: only ASCII digits are accepted. Java's `Character.digit` also accepts other Unicode decimal digits.
- JavaText.EqualsIgnoreCase: it folds ASCII letters only. Java also compares Unicode upper- and lower-case forms, so for example a dotless ı would also match "i".
- The count is `|tracks|`, an unbounded integer. A Java list cannot exceed the `int` range here, so no wrap-around is modelled.
- The documentation comment of the track writer names the heading "Pop tracks:", while the code writes "POP tacks: " after a line holding one space. The model follows the code.

