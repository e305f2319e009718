/**
  The report writer: from the records of a playlist it computes the count, the
  average duration, a top three and a category list, and renders them into a
  fixed text layout. Writing the text to a file is left to the caller: the
  writer returns the report.
 */
module MediaStatisticsWriter {
  import opened JavaText
  import opened Media
  import opened Ranking

  // ---------------------------------------------------------------------------
  // Average duration
  // ---------------------------------------------------------------------------

  function Sum(xs: seq<int>): (r: int)
  {
    if xs == [] then 0 else Sum(xs[..|xs| - 1]) + xs[|xs| - 1]
  }

  lemma DivRange(a: int, b: int)
    requires a >= 0 && b > 0
    ensures 0 <= (a / b) * b <= a < (a / b) * b + b
  {
    var q, r := a / b, a % b;
    assert a == b * q + r && 0 <= r < b;
    assert q >= 0;
    assert b * q == q * b;
  }

  /** Division rounding toward zero, as a cast of the quotient to `int` does. */
  function TruncDiv(a: int, b: int): (q: int)
    requires b > 0
    ensures a >= 0 ==> 0 <= q * b <= a < q * b + b
    ensures a < 0 ==> q * b - b < a <= q * b <= 0
  {
    if a >= 0 then
      DivRange(a, b);
      a / b
    else
      DivRange(-a, b);
      var q := (-a) / b;
      assert (-q) * b == -(q * b);
      -q
  }

  /** `mapToInt(getDuration).average().orElse(0)` cast to `int`: the mean
      truncated toward zero, and 0 when there is nothing to average. */
  function AverageDuration(durations: seq<int>): (avg: int)
  {
    if durations == [] then 0 else TruncDiv(Sum(durations), |durations|)
  }

  function TrackDurations(tracks: seq<Track>): (r: seq<int>)
  {
    seq(|tracks|, k requires 0 <= k < |tracks| => tracks[k].duration)
  }

  function VideoDurations(videos: seq<Video>): (r: seq<int>)
  {
    seq(|videos|, k requires 0 <= k < |videos| => videos[k].duration)
  }

  lemma {:induction false} SumBounds(xs: seq<int>, lo: int, hi: int)
    requires forall k :: 0 <= k < |xs| ==> lo <= xs[k] <= hi
    ensures |xs| * lo <= Sum(xs) <= |xs| * hi
  {
    if xs != [] {
      SumBounds(xs[..|xs| - 1], lo, hi);
    }
  }

  /** The average lies between the least and the greatest duration. */
  lemma AverageWithin(durations: seq<int>, lo: int, hi: int)
    requires durations != []
    requires forall k :: 0 <= k < |durations| ==> lo <= durations[k] <= hi
    ensures lo <= AverageDuration(durations) <= hi
  {
    var n := |durations|;
    var avg := AverageDuration(durations);
    SumBounds(durations, lo, hi);
    if avg < lo {
      MulMono(avg + 1, lo, n);
    } else if avg > hi {
      MulMono(hi + 1, avg, n);
    }
  }

  lemma MulMono(x: int, y: int, n: nat)
    requires x <= y
    ensures x * n <= y * n
  {
    assert y * n - x * n == (y - x) * n;
  }

  /** The average is the sum over the count, cut toward zero. */
  lemma AverageTruncates(durations: seq<int>)
    ensures durations == [] ==> AverageDuration(durations) == 0
    ensures var n, s, avg := |durations|, Sum(durations), AverageDuration(durations);
      n > 0 ==> (s >= 0 ==> avg * n <= s < avg * n + n) && (s < 0 ==> avg * n - n < s <= avg * n)
  {
  }

  // ---------------------------------------------------------------------------
  // Top three
  // ---------------------------------------------------------------------------

  /** Rating descending, then duration descending. */
  function TrackKey(t: Track): (r: Key) { Key(t.rating, t.duration) }

  /** Views descending, nothing else. */
  function VideoKey(v: Video): (r: Key) { Key(v.views, 0) }

  function TopTracks(tracks: seq<Track>): (r: seq<Track>)
  {
    TopN(tracks, 3, TrackKey)
  }

  function TopVideos(videos: seq<Video>): (r: seq<Video>)
  {
    TopN(videos, 3, VideoKey)
  }

  /** `t` sorts before `u` under the track comparator. */
  predicate RanksAbove(t: Track, u: Track)
  {
    t.rating > u.rating || (t.rating == u.rating && t.duration > u.duration)
  }

  /** The top three has min(3, n) entries, all drawn from the input without
      duplication. */
  lemma TopTracksFromInput(tracks: seq<Track>)
    ensures |TopTracks(tracks)| == if |tracks| < 3 then |tracks| else 3
    ensures multiset(TopTracks(tracks)) <= multiset(tracks)
  {
    TopNFromInput(tracks, 3, TrackKey);
  }

  /** Entries are in rating order, longer first on equal rating, and no track
      left out ranks above a track taken. */
  lemma TopTracksOrdered(tracks: seq<Track>)
    ensures var top := TopTracks(tracks);
      forall i, j :: 0 <= i < j < |top| ==> !RanksAbove(top[j], top[i])
    ensures var top := TopTracks(tracks);
      forall x, y :: x in multiset(tracks) - multiset(top) && y in top ==> !RanksAbove(x, y)
  {
    var top := TopTracks(tracks);
    TopNFromInput(tracks, 3, TrackKey);
    TopNNoneOmittedAbove(tracks, 3, TrackKey);
    forall i, j | 0 <= i < j < |top| ensures !RanksAbove(top[j], top[i]) {
      assert AtLeast(TrackKey(top[i]), TrackKey(top[j]));
    }
    forall x, y | x in multiset(tracks) - multiset(top) && y in top ensures !RanksAbove(x, y) {
      assert AtLeast(TrackKey(y), TrackKey(x));
    }
  }

  /** Tracks of equal rating and duration keep their playlist order. */
  lemma TopTracksStable(tracks: seq<Track>, rating: int, duration: int)
    ensures IsPrefix(WithKey(TopTracks(tracks), TrackKey, Key(rating, duration)),
                     WithKey(tracks, TrackKey, Key(rating, duration)))
  {
    TopNStable(tracks, 3, TrackKey, Key(rating, duration));
  }

  lemma TopVideosFromInput(videos: seq<Video>)
    ensures |TopVideos(videos)| == if |videos| < 3 then |videos| else 3
    ensures multiset(TopVideos(videos)) <= multiset(videos)
  {
    TopNFromInput(videos, 3, VideoKey);
  }

  /** Entries are in views order and no video left out has more views than a
      video taken. */
  lemma TopVideosOrdered(videos: seq<Video>)
    ensures var top := TopVideos(videos);
      forall i, j :: 0 <= i < j < |top| ==> top[i].views >= top[j].views
    ensures var top := TopVideos(videos);
      forall x, y :: x in multiset(videos) - multiset(top) && y in top ==> x.views <= y.views
  {
    var top := TopVideos(videos);
    TopNFromInput(videos, 3, VideoKey);
    TopNNoneOmittedAbove(videos, 3, VideoKey);
    forall i, j | 0 <= i < j < |top| ensures top[i].views >= top[j].views {
      assert AtLeast(VideoKey(top[i]), VideoKey(top[j]));
    }
    forall x, y | x in multiset(videos) - multiset(top) && y in top ensures x.views <= y.views {
      assert AtLeast(VideoKey(y), VideoKey(x));
    }
  }

  /** The sort is stable: among videos with the same number of views, those
      taken are the first ones in playlist order, in that order. */
  lemma TopVideosStable(videos: seq<Video>, views: int)
    ensures IsPrefix(WithKey(TopVideos(videos), VideoKey, Key(views, 0)),
                     WithKey(videos, VideoKey, Key(views, 0)))
  {
    TopNStable(videos, 3, VideoKey, Key(views, 0));
  }

  // ---------------------------------------------------------------------------
  // Category lists
  // ---------------------------------------------------------------------------

  /** The elements that `keep` accepts, in their order. */
  function Filter<T>(s: seq<T>, keep: T -> bool): (r: seq<T>)
  {
    if s == [] then [] else (if keep(s[0]) then [s[0]] else []) + Filter(s[1..], keep)
  }

  /** Filter keeps exactly the accepted elements, each as often as it occurs. */
  lemma {:induction false} FilterExact<T>(s: seq<T>, keep: T -> bool)
    ensures forall x :: multiset(Filter(s, keep))[x] == if keep(x) then multiset(s)[x] else 0
  {
    if s != [] {
      FilterExact(s[1..], keep);
      assert s == [s[0]] + s[1..];
    }
  }

  /** Filter keeps the input order: it works piece by piece. */
  lemma {:induction false} FilterAppend<T>(a: seq<T>, b: seq<T>, keep: T -> bool)
    ensures Filter(a + b, keep) == Filter(a, keep) + Filter(b, keep)
  {
    if a == [] {
      assert a + b == b;
    } else {
      FilterAppend(a[1..], b, keep);
      assert (a + b)[0] == a[0] && (a + b)[1..] == a[1..] + b;
      var head := if keep(a[0]) then [a[0]] else [];
      assert Filter(a + b, keep) == head + (Filter(a[1..], keep) + Filter(b, keep));
      assert Filter(a, keep) == head + Filter(a[1..], keep);
    }
  }

  predicate IsPop(t: Track) { EqualsIgnoreCase(t.genre, "Pop") }

  predicate IsEducation(v: Video) { EqualsIgnoreCase(v.category, "Education") }

  function PopTracks(tracks: seq<Track>): (r: seq<Track>)
  {
    Filter(tracks, IsPop)
  }

  function EducationVideos(videos: seq<Video>): (r: seq<Video>)
  {
    Filter(videos, IsEducation)
  }

  /** A genre matches "Pop" ignoring case exactly when it is three letters
      p, o, p, each in either case. */
  lemma PopIgnoringCase(genre: string)
    ensures EqualsIgnoreCase(genre, "Pop") <==>
      |genre| == 3 && genre[0] in "pP" && genre[1] in "oO" && genre[2] in "pP"
  {
  }

  /** The Pop list holds every Pop track of the playlist as often as it occurs
      there, and nothing else. */
  lemma PopTracksExact(tracks: seq<Track>)
    ensures forall t :: multiset(PopTracks(tracks))[t] == if IsPop(t) then multiset(tracks)[t] else 0
  {
    FilterExact(tracks, IsPop);
  }

  /** The Education list holds every Education video of the playlist as often as
      it occurs there, and nothing else. */
  lemma EducationVideosExact(videos: seq<Video>)
    ensures forall v :: multiset(EducationVideos(videos))[v] == if IsEducation(v) then multiset(videos)[v] else 0
  {
    FilterExact(videos, IsEducation);
  }

  // ---------------------------------------------------------------------------
  // The reports
  // ---------------------------------------------------------------------------

  function RankedTrackLine(number: int, t: Track): (r: string)
  {
    IntToString(number) + ". " + t.title + " (rating " + IntToString(t.rating) + ")"
  }

  function RankedVideoLine(number: int, v: Video): (r: string)
  {
    IntToString(number) + ". " + v.title + " (" + IntToString(v.views) + " views)"
  }

  /** The ranked lines, numbered from 1. */
  function RankedTrackLines(top: seq<Track>): (r: seq<string>)
  {
    seq(|top|, k requires 0 <= k < |top| => RankedTrackLine(k + 1, top[k]))
  }

  function RankedVideoLines(top: seq<Video>): (r: seq<string>)
  {
    seq(|top|, k requires 0 <= k < |top| => RankedVideoLine(k + 1, top[k]))
  }

  /** One "- title " line per Pop track (the space before the line feed is part
      of the layout). */
  function PopLines(pop: seq<Track>): (r: seq<string>)
  {
    seq(|pop|, k requires 0 <= k < |pop| => "- " + pop[k].title + " ")
  }

  function EducationLines(education: seq<Video>): (r: seq<string>)
  {
    seq(|education|, k requires 0 <= k < |education| => "- " + education[k].title)
  }

  /** The summary at the top of the track report. */
  function TrackSummaryLines(tracks: seq<Track>): (r: seq<string>)
  {
    [" Tracks count: " + IntToString(|tracks|),
     " Average duration: " + IntToString(AverageDuration(TrackDurations(tracks))) + " seconds",
     "",
     " TOP 3 tracks by rating: "]
  }

  function VideoSummaryLines(videos: seq<Video>): (r: seq<string>)
  {
    [" Videos count: " + IntToString(|videos|),
     " Average duration: " + IntToString(AverageDuration(VideoDurations(videos))) + " seconds",
     "",
     " Top 3 videos by views: "]
  }

  /** The heading of the Pop list reads "POP tacks: " and is preceded by a line
      holding one space. */
  const PopHeading: seq<string> := [" ", "POP tacks: "]

  const EducationHeading: seq<string> := ["", "Education videos:"]

  /** The lines of the track report, line feeds left out. */
  function TrackReportLines(tracks: seq<Track>): (r: seq<string>)
  {
    TrackSummaryLines(tracks) + RankedTrackLines(TopTracks(tracks)) + PopHeading + PopLines(PopTracks(tracks))
  }

  function VideoReportLines(videos: seq<Video>): (r: seq<string>)
  {
    VideoSummaryLines(videos) + RankedVideoLines(TopVideos(videos)) + EducationHeading
    + EducationLines(EducationVideos(videos))
  }

  function TrackReport(tracks: seq<Track>): (r: string)
  {
    Unlines(TrackReportLines(tracks))
  }

  function VideoReport(videos: seq<Video>): (r: string)
  {
    Unlines(VideoReportLines(videos))
  }

  /** No line of `lines` holds a line feed. */
  ghost predicate SingleLines(lines: seq<string>)
  {
    forall k :: 0 <= k < |lines| ==> '\n' !in lines[k]
  }

  lemma SingleLinesAppend(a: seq<string>, b: seq<string>)
    requires SingleLines(a) && SingleLines(b)
    ensures SingleLines(a + b)
  {
    forall k | 0 <= k < |a + b| ensures '\n' !in (a + b)[k] {
      if k >= |a| {
        assert (a + b)[k] == b[k - |a|];
      }
    }
  }

  lemma SummaryLinesSingle(countLabel: string, count: int, average: int, heading: string)
    requires '\n' !in countLabel && '\n' !in heading
    ensures SingleLines([countLabel + IntToString(count),
                         " Average duration: " + IntToString(average) + " seconds", "", heading])
  {
    IntToStringChars(count);
    IntToStringChars(average);
  }

  lemma HeadingsSingle()
    ensures SingleLines(PopHeading) && SingleLines(EducationHeading)
  {
  }

  lemma RankedTrackLineSingle(number: int, t: Track)
    requires '\n' !in t.title
    ensures '\n' !in RankedTrackLine(number, t)
  {
    IntToStringChars(number);
    IntToStringChars(t.rating);
  }

  lemma RankedVideoLineSingle(number: int, v: Video)
    requires '\n' !in v.title
    ensures '\n' !in RankedVideoLine(number, v)
  {
    IntToStringChars(number);
    IntToStringChars(v.views);
  }

  lemma RankedTrackLinesSingle(tracks: seq<Track>)
    requires forall t :: t in tracks ==> '\n' !in t.title
    ensures SingleLines(RankedTrackLines(TopTracks(tracks)))
  {
    var top := TopTracks(tracks);
    TopTracksFromInput(tracks);
    forall k | 0 <= k < |top| ensures '\n' !in RankedTrackLines(top)[k] {
      assert top[k] in multiset(top);
      RankedTrackLineSingle(k + 1, top[k]);
    }
  }

  lemma RankedVideoLinesSingle(videos: seq<Video>)
    requires forall v :: v in videos ==> '\n' !in v.title
    ensures SingleLines(RankedVideoLines(TopVideos(videos)))
  {
    var top := TopVideos(videos);
    TopVideosFromInput(videos);
    forall k | 0 <= k < |top| ensures '\n' !in RankedVideoLines(top)[k] {
      assert top[k] in multiset(top);
      RankedVideoLineSingle(k + 1, top[k]);
    }
  }

  lemma PopLinesSingle(tracks: seq<Track>)
    requires forall t :: t in tracks ==> '\n' !in t.title
    ensures SingleLines(PopLines(PopTracks(tracks)))
  {
    var pop := PopTracks(tracks);
    PopTracksExact(tracks);
    forall k | 0 <= k < |pop| ensures '\n' !in PopLines(pop)[k] {
      assert pop[k] in multiset(pop);
    }
  }

  lemma EducationLinesSingle(videos: seq<Video>)
    requires forall v :: v in videos ==> '\n' !in v.title
    ensures SingleLines(EducationLines(EducationVideos(videos)))
  {
    var education := EducationVideos(videos);
    EducationVideosExact(videos);
    forall k | 0 <= k < |education| ensures '\n' !in EducationLines(education)[k] {
      assert education[k] in multiset(education);
    }
  }

  /** A report made of four runs of single lines splits back into its lines. */
  lemma ReportSplits(summary: seq<string>, ranked: seq<string>, heading: seq<string>, listed: seq<string>)
    requires SingleLines(summary) && SingleLines(ranked) && SingleLines(heading) && SingleLines(listed)
    ensures SplitAll(Unlines(summary + ranked + heading + listed), '\n') == summary + ranked + heading + listed + [""]
  {
    SingleLinesAppend(summary, ranked);
    SingleLinesAppend(summary + ranked, heading);
    SingleLinesAppend(summary + ranked + heading, listed);
    SplitUnlines(summary + ranked + heading + listed);
  }

  /** With no line feed inside a title, every piece of the track report is one
      line: cutting the report at its line feeds gives back its lines, and the
      empty piece after the final line feed. */
  lemma TrackReportLayout(tracks: seq<Track>)
    requires forall t :: t in tracks ==> '\n' !in t.title
    ensures SplitAll(TrackReport(tracks), '\n') == TrackReportLines(tracks) + [""]
  {
    SummaryLinesSingle(" Tracks count: ", |tracks|, AverageDuration(TrackDurations(tracks)),
      " TOP 3 tracks by rating: ");
    RankedTrackLinesSingle(tracks);
    HeadingsSingle();
    PopLinesSingle(tracks);
    ReportSplits(TrackSummaryLines(tracks), RankedTrackLines(TopTracks(tracks)), PopHeading,
      PopLines(PopTracks(tracks)));
  }

  lemma VideoReportLayout(videos: seq<Video>)
    requires forall v :: v in videos ==> '\n' !in v.title
    ensures SplitAll(VideoReport(videos), '\n') == VideoReportLines(videos) + [""]
  {
    SummaryLinesSingle(" Videos count: ", |videos|, AverageDuration(VideoDurations(videos)),
      " Top 3 videos by views: ");
    RankedVideoLinesSingle(videos);
    HeadingsSingle();
    EducationLinesSingle(videos);
    ReportSplits(VideoSummaryLines(videos), RankedVideoLines(TopVideos(videos)), EducationHeading,
      EducationLines(EducationVideos(videos)));
  }

  // ---------------------------------------------------------------------------
  // Rendering with a StringBuilder
  // ---------------------------------------------------------------------------

  lemma Assoc(x: string, y: string, z: string)
    ensures x + y + z == x + (y + z)
  {
  }

  lemma Regroup(x: string, a: string, b: string, c: string, d: string, e: string)
    ensures x + a + b + c + d + e == x + (a + b + c + d + e)
  {
  }

  lemma UnlinesSnoc(lines: seq<string>, line: string)
    ensures Unlines(lines + [line]) == Unlines(lines) + line + "\n"
  {
    UnlinesAppend(lines, [line]);
    assert [line][1..] == [];
  }

  /** Appending the text of line `line` to the text of `lines` gives the text of
      both. */
  lemma AppendLine(head: string, lines: seq<string>, line: string, text: string)
    requires text == line + "\n"
    ensures head + Unlines(lines) + text == head + Unlines(lines + [line])
  {
    UnlinesSnoc(lines, line);
  }

  lemma RankedTrackStep(head: string, top: seq<Track>, i: nat)
    requires i < |top|
    ensures var number, t := IntToString(i + 1), top[i];
      head + Unlines(RankedTrackLines(top[..i])) + number + ". " + t.title + " (rating "
        + IntToString(t.rating) + ")\n"
      == head + Unlines(RankedTrackLines(top[..i + 1]))
  {
    var number, t := IntToString(i + 1), top[i];
    var rating := IntToString(t.rating);
    var x := head + Unlines(RankedTrackLines(top[..i]));
    assert RankedTrackLines(top[..i + 1]) == RankedTrackLines(top[..i]) + [RankedTrackLine(i + 1, t)];
    var y := number + ". " + t.title + " (rating " + rating;
    Regroup(x, number, ". ", t.title, " (rating ", rating);
    assert ")\n" == ")" + "\n";
    Assoc(x, y, ")\n");
    Assoc(y, ")", "\n");
    AppendLine(head, RankedTrackLines(top[..i]), RankedTrackLine(i + 1, t), RankedTrackLine(i + 1, t) + "\n");
  }

  lemma PopStep(head: string, pop: seq<Track>, k: nat)
    requires k < |pop|
    ensures head + Unlines(PopLines(pop[..k])) + "- " + pop[k].title + " \n"
      == head + Unlines(PopLines(pop[..k + 1]))
  {
    var x := head + Unlines(PopLines(pop[..k]));
    var line := "- " + pop[k].title + " ";
    assert PopLines(pop[..k + 1]) == PopLines(pop[..k]) + [line];
    assert x + "- " + pop[k].title + " \n" == x + (line + "\n");
    AppendLine(head, PopLines(pop[..k]), line, line + "\n");
  }

  /** The three appends of the summary produce its four lines. */
  lemma SummaryText(countLabel: string, count: string, average: string, heading: string, headingText: string)
    requires headingText == heading + "\n"
    ensures "" + countLabel + count + "\n" + " Average duration: " + average + " seconds\n\n" + headingText
      == Unlines([countLabel + count, " Average duration: " + average + " seconds", "", heading])
  {
    var first := countLabel + count;
    var second := " Average duration: " + average + " seconds";
    var t1 := "" + countLabel + count + "\n";
    Assoc("", countLabel, count);
    UnlinesSnoc([], first);
    assert [] + [first] == [first];
    assert t1 == Unlines([first]);
    UnlinesSnoc([first], second);
    assert [first] + [second] == [first, second];
    UnlinesSnoc([first, second], "");
    assert [first, second] + [""] == [first, second, ""];
    UnlinesSnoc([first, second, ""], heading);
    assert [first, second, ""] + [heading] == [first, second, "", heading];
    var tail := " seconds" + "\n" + "" + "\n";
    assert " seconds\n\n" == tail;
    assert t1 + second + "\n" + "" + "\n" == t1 + " Average duration: " + average + tail;
    Assoc(t1 + " Average duration: " + average + tail, heading, "\n");
  }

  lemma PopHeadingText()
    ensures Unlines(PopHeading) == " \nPOP tacks: \n"
  {
    UnlinesSnoc([" "], "POP tacks: ");
    assert PopHeading == [" "] + ["POP tacks: "];
  }

  lemma TrackReportParts(tracks: seq<Track>)
    ensures TrackReport(tracks)
      == Unlines(TrackSummaryLines(tracks)) + Unlines(RankedTrackLines(TopTracks(tracks)))
         + Unlines(PopHeading) + Unlines(PopLines(PopTracks(tracks)))
  {
    var summary, ranked := TrackSummaryLines(tracks), RankedTrackLines(TopTracks(tracks));
    UnlinesAppend(summary + ranked + PopHeading, PopLines(PopTracks(tracks)));
    UnlinesAppend(summary + ranked, PopHeading);
    UnlinesAppend(summary, ranked);
  }

  /** `writeTrackStats` without the file: the same computations, and the text
      the StringBuilder holds at the end. */
  method WriteTrackStats(tracks: seq<Track>) returns (report: string)
    ensures report == TrackReport(tracks)
  {
    var count := |tracks|;
    var averageDuration := AverageDuration(TrackDurations(tracks));
    var top3 := TopTracks(tracks);
    var popTracks := PopTracks(tracks);

    var sb := "";
    sb := sb + " Tracks count: " + IntToString(count) + "\n";
    sb := sb + " Average duration: " + IntToString(averageDuration) + " seconds\n\n";
    sb := sb + " TOP 3 tracks by rating: \n";
    ghost var summary := Unlines(TrackSummaryLines(tracks));
    SummaryText(" Tracks count: ", IntToString(count), IntToString(averageDuration),
      " TOP 3 tracks by rating: ", " TOP 3 tracks by rating: \n");
    assert RankedTrackLines(top3[..0]) == [];
    for i := 0 to |top3|
      invariant sb == summary + Unlines(RankedTrackLines(top3[..i]))
    {
      var t := top3[i];
      RankedTrackStep(summary, top3, i);
      sb := sb + IntToString(i + 1) + ". " + t.title + " (rating " + IntToString(t.rating) + ")\n";
    }
    assert top3[..|top3|] == top3;
    ghost var ranked := summary + Unlines(RankedTrackLines(top3));
    PopHeadingText();
    sb := sb + " \nPOP tacks: \n";
    assert PopLines(popTracks[..0]) == [];
    for k := 0 to |popTracks|
      invariant sb == ranked + Unlines(PopHeading) + Unlines(PopLines(popTracks[..k]))
    {
      PopStep(ranked + Unlines(PopHeading), popTracks, k);
      sb := sb + "- " + popTracks[k].title + " \n";
    }
    assert popTracks[..|popTracks|] == popTracks;
    TrackReportParts(tracks);
    report := sb;
  }

  lemma RankedVideoStep(head: string, top: seq<Video>, i: nat)
    requires i < |top|
    ensures var number, v := IntToString(i + 1), top[i];
      head + Unlines(RankedVideoLines(top[..i])) + number + ". " + v.title + " ("
        + IntToString(v.views) + " views)\n"
      == head + Unlines(RankedVideoLines(top[..i + 1]))
  {
    var number, v := IntToString(i + 1), top[i];
    var views := IntToString(v.views);
    var x := head + Unlines(RankedVideoLines(top[..i]));
    assert RankedVideoLines(top[..i + 1]) == RankedVideoLines(top[..i]) + [RankedVideoLine(i + 1, v)];
    var y := number + ". " + v.title + " (" + views;
    Regroup(x, number, ". ", v.title, " (", views);
    assert " views)\n" == " views)" + "\n";
    Assoc(x, y, " views)\n");
    Assoc(y, " views)", "\n");
    AppendLine(head, RankedVideoLines(top[..i]), RankedVideoLine(i + 1, v), RankedVideoLine(i + 1, v) + "\n");
  }

  lemma EducationStep(head: string, education: seq<Video>, k: nat)
    requires k < |education|
    ensures head + Unlines(EducationLines(education[..k])) + "- " + education[k].title + "\n"
      == head + Unlines(EducationLines(education[..k + 1]))
  {
    var line := "- " + education[k].title;
    assert EducationLines(education[..k + 1]) == EducationLines(education[..k]) + [line];
    AppendLine(head, EducationLines(education[..k]), line, line + "\n");
  }

  lemma EducationHeadingText()
    ensures Unlines(EducationHeading) == "\nEducation videos:\n"
  {
    UnlinesSnoc([""], "Education videos:");
    assert EducationHeading == [""] + ["Education videos:"];
  }

  lemma VideoReportParts(videos: seq<Video>)
    ensures VideoReport(videos)
      == Unlines(VideoSummaryLines(videos)) + Unlines(RankedVideoLines(TopVideos(videos)))
         + Unlines(EducationHeading) + Unlines(EducationLines(EducationVideos(videos)))
  {
    var summary, ranked := VideoSummaryLines(videos), RankedVideoLines(TopVideos(videos));
    UnlinesAppend(summary + ranked + EducationHeading, EducationLines(EducationVideos(videos)));
    UnlinesAppend(summary + ranked, EducationHeading);
    UnlinesAppend(summary, ranked);
  }

  /** `writeVideoStats` without the file. */
  method WriteVideoStats(videos: seq<Video>) returns (report: string)
    ensures report == VideoReport(videos)
  {
    var count := |videos|;
    var averageDuration := AverageDuration(VideoDurations(videos));
    var top3 := TopVideos(videos);
    var educationVideos := EducationVideos(videos);

    var sb := "";
    sb := sb + " Videos count: " + IntToString(count) + "\n";
    sb := sb + " Average duration: " + IntToString(averageDuration) + " seconds\n\n";
    sb := sb + " Top 3 videos by views: \n";
    ghost var summary := Unlines(VideoSummaryLines(videos));
    SummaryText(" Videos count: ", IntToString(count), IntToString(averageDuration),
      " Top 3 videos by views: ", " Top 3 videos by views: \n");
    assert RankedVideoLines(top3[..0]) == [];
    for i := 0 to |top3|
      invariant sb == summary + Unlines(RankedVideoLines(top3[..i]))
    {
      var v := top3[i];
      RankedVideoStep(summary, top3, i);
      sb := sb + IntToString(i + 1) + ". " + v.title + " (" + IntToString(v.views) + " views)\n";
    }
    assert top3[..|top3|] == top3;
    ghost var ranked := summary + Unlines(RankedVideoLines(top3));
    EducationHeadingText();
    sb := sb + "\nEducation videos:\n";
    assert EducationLines(educationVideos[..0]) == [];
    for k := 0 to |educationVideos|
      invariant sb == ranked + Unlines(EducationHeading) + Unlines(EducationLines(educationVideos[..k]))
    {
      EducationStep(ranked + Unlines(EducationHeading), educationVideos, k);
      sb := sb + "- " + educationVideos[k].title + "\n";
    }
    assert educationVideos[..|educationVideos|] == educationVideos;
    VideoReportParts(videos);
    report := sb;
  }

  /** Two tracks, one Pop and one Rock with the higher rating. */
  lemma TwoTrackExample()
    ensures var shape := Track("Shape of You", "Ed Sheeran", "Pop", 240, 9);
      var spirit := Track("Teen Spirit", "Nirvana", "Rock", 301, 10);
      var tracks := [shape, spirit];
      AverageDuration(TrackDurations(tracks)) == 270
      && TopTracks(tracks) == [spirit, shape]
      && PopTracks(tracks) == [shape]
  {
    var shape := Track("Shape of You", "Ed Sheeran", "Pop", 240, 9);
    var spirit := Track("Teen Spirit", "Nirvana", "Rock", 301, 10);
    var tracks := [shape, spirit];
    assert TrackDurations(tracks) == [240, 301];
    assert Sum([240, 301]) == 541 by {
      assert [240, 301][..1] == [240];
    }
    assert tracks[1..] == [spirit];
    assert SortDescending([spirit], TrackKey) == [spirit];
    assert IsPop(shape) && !IsPop(spirit);
    assert Filter([spirit], IsPop) == [];
  }
}
