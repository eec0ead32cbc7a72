/** createVideo: the output file name, the input pattern that reads the
    captured frames back, the filter chains, the normalisation of ffmpeg's
    progress events, and how the returned promise settles. */
module Encoder {
  import opened Wrappers
  import opened JsNumbers
  import opened Text
  import opened RenderRequest
  import Frames

  function FormatName(format: Format): string {
    match format
    case MP4 => "MP4"
    case GIF => "GIF"
  }

  /** `format.toLowerCase()`. */
  function Extension(format: Format): string {
    Lower(FormatName(format))
  }

  lemma ExtensionValues()
    ensures Extension(MP4) == "mp4" && Extension(GIF) == "gif"
  {
    assert Lower("MP4") == [LowerChar('M')] + Lower("P4");
    assert Lower("P4") == [LowerChar('P')] + Lower("4");
    assert Lower("4") == [LowerChar('4')] + Lower("");
    assert Lower("GIF") == [LowerChar('G')] + Lower("IF");
    assert Lower("IF") == [LowerChar('I')] + Lower("F");
    assert Lower("F") == [LowerChar('F')] + Lower("");
  }

  /** `video_<jobId>_<Date.now()>.<format in lower case>`. */
  function OutputFileName(jobId: string, timestamp: nat, format: Format): string {
    "video_" + jobId + "_" + Decimal(timestamp) + "." + Extension(format)
  }

  /** `path.join(outputDir, name)` for a directory without a trailing
      separator. */
  function OutputPath(outputDir: string, name: string): string {
    outputDir + "/" + name
  }

  /** Two jobs never write to the same output path: in one directory the
      path determines the job id, the time stamp and the format (for ids
      without `_`, as v4 UUIDs are). */
  lemma OutputPathInjective(dir: string, id1: string, ts1: nat, f1: Format, id2: string, ts2: nat, f2: Format)
    requires '_' !in id1 && '_' !in id2
    requires OutputPath(dir, OutputFileName(id1, ts1, f1)) == OutputPath(dir, OutputFileName(id2, ts2, f2))
    ensures id1 == id2 && ts1 == ts2 && f1 == f2
  {
    var n1, n2 := OutputFileName(id1, ts1, f1), OutputFileName(id2, ts2, f2);
    var d := |dir + "/"|;
    assert n1 == OutputPath(dir, n1)[d..];
    assert n2 == OutputPath(dir, n2)[d..];
    OutputFileNameInjective(id1, ts1, f1, id2, ts2, f2);
  }

  /** In a + [c] + b with c not in a, the first c stands at |a|. */
  lemma FirstSeparator(a: string, b: string, c: char)
    requires c !in a
    ensures (a + [c] + b)[|a|] == c
    ensures forall k :: 0 <= k < |a| ==> (a + [c] + b)[k] != c
  {
    forall k | 0 <= k < |a| ensures (a + [c] + b)[k] != c {
      assert (a + [c] + b)[k] == a[k];
    }
  }

  /** Two strings cut at the first occurrence of a separator the heads do
      not contain agree on both heads and both tails. */
  lemma SplitAtSeparator(a1: string, b1: string, a2: string, b2: string, c: char)
    requires c !in a1 && c !in a2
    requires a1 + [c] + b1 == a2 + [c] + b2
    ensures a1 == a2 && b1 == b2
  {
    var s := a1 + [c] + b1;
    FirstSeparator(a1, b1, c);
    FirstSeparator(a2, b2, c);
    assert |a1| == |a2|;
    assert a1 == s[..|a1|] && a2 == (a2 + [c] + b2)[..|a2|];
    assert b1 == s[|a1| + 1..] && b2 == (a2 + [c] + b2)[|a2| + 1..];
  }

  /** An output name after its `video_` prefix: the job id, an underscore,
      then the time stamp, a dot and the extension. */
  lemma NameParts(id: string, ts: nat, f: Format)
    ensures |OutputFileName(id, ts, f)| >= 6
    ensures OutputFileName(id, ts, f)[6..] == id + ['_'] + (Decimal(ts) + ['.'] + Extension(f))
  {
    var tail := id + ['_'] + (Decimal(ts) + ['.'] + Extension(f));
    assert OutputFileName(id, ts, f) == "video_" + tail;
  }

  lemma NoDot(ts: nat)
    ensures '.' !in Decimal(ts)
  {
    var d := Decimal(ts);
    forall k | 0 <= k < |d| ensures d[k] != '.' {
      assert IsDigit(d[k]);
    }
  }

  /** Output names identify their job, time stamp and format, for job ids
      without an underscore (v4 UUIDs have none): no two renders write the
      same file. */
  lemma OutputFileNameInjective(id1: string, ts1: nat, f1: Format, id2: string, ts2: nat, f2: Format)
    requires '_' !in id1 && '_' !in id2
    requires OutputFileName(id1, ts1, f1) == OutputFileName(id2, ts2, f2)
    ensures id1 == id2 && ts1 == ts2 && f1 == f2
  {
    NameParts(id1, ts1, f1);
    NameParts(id2, ts2, f2);
    SplitAtSeparator(id1, Decimal(ts1) + ['.'] + Extension(f1), id2, Decimal(ts2) + ['.'] + Extension(f2), '_');
    NoDot(ts1);
    NoDot(ts2);
    SplitAtSeparator(Decimal(ts1), Extension(f1), Decimal(ts2), Extension(f2), '.');
    DecimalInjective(ts1, ts2);
    ExtensionValues();
  }

  /** The image-sequence pattern passed to ffmpeg. */
  const InputPattern: string := "frame_%05d.jpg"

  /** How ffmpeg expands an image-sequence pattern for frame number i: each
      `%0Nd` (N one digit) becomes i zero-padded to N places, like printf;
      every other character stands for itself. */
  function Expand(pattern: string, i: nat): string
    decreases |pattern|
  {
    if pattern == [] then []
    else if |pattern| >= 4 && pattern[0] == '%' && pattern[1] == '0' && IsDigit(pattern[2]) && pattern[3] == 'd' then
      ZeroPadded(i, DigitValue(pattern[2])) + Expand(pattern[4..], i)
    else [pattern[0]] + Expand(pattern[1..], i)
  }

  lemma {:induction false} ExpandLiteral(a: string, b: string, i: nat)
    requires '%' !in a
    ensures Expand(a + b, i) == a + Expand(b, i)
    decreases |a|
  {
    if a != [] {
      assert (a + b)[0] == a[0] && (a + b)[1..] == a[1..] + b;
      ExpandLiteral(a[1..], b, i);
    } else {
      assert a + b == b;
    }
  }

  /** A directive `%0Nd` expands to the number zero-padded to N places. */
  lemma ExpandDirective(d: char, rest: string, i: nat)
    requires IsDigit(d)
    ensures Expand(['%', '0', d, 'd'] + rest, i) == ZeroPadded(i, DigitValue(d)) + Expand(rest, i)
  {
    var p := ['%', '0', d, 'd'] + rest;
    assert p[4..] == rest;
  }

  /** A pattern with one directive between two literal parts expands to
      the literal parts around the zero-padded number. */
  lemma ExpandOneDirective(prefix: string, d: char, suffix: string, i: nat)
    requires '%' !in prefix && '%' !in suffix && IsDigit(d)
    ensures Expand(prefix + (['%', '0', d, 'd'] + suffix), i) == prefix + ZeroPadded(i, DigitValue(d)) + suffix
  {
    ExpandLiteral(prefix, ['%', '0', d, 'd'] + suffix, i);
    ExpandDirective(d, suffix, i);
    ExpandLiteral(suffix, [], i);
    assert suffix + [] == suffix;
    assert Expand([], i) == [];
  }

  /** ffmpeg reads back exactly the files the capture wrote, frame i as
      the i-th file, at every index. */
  lemma InputPatternMatchesFrameNames(i: nat)
    ensures Expand(InputPattern, i) == Frames.FrameName(i)
  {
    var prefix, suffix := "frame_", ".jpg";
    var padded := ZeroPadded(i, 5);
    assert Expand(InputPattern, i) == prefix + padded + suffix by {
      assert InputPattern == prefix + (['%', '0', '5', 'd'] + suffix);
      ExpandOneDirective(prefix, '5', suffix, i);
      assert DigitValue('5') == 5;
    }
    assert Frames.FrameName(i) == prefix + padded + suffix by {
      PadStartIsZeroPadded(i, 5);
    }
  }

  /** `ceil(x / 2) * 2`, the pad filter's size for a dimension x. */
  function PadToEven(x: nat): (r: nat)
    ensures r % 2 == 0 && x <= r <= x + 1
  {
    Ceil(x as real / 2.0) * 2
  }

  /** The padded size is the least even number not below the dimension. */
  lemma PadToEvenIsLeast(x: nat, m: nat)
    requires m % 2 == 0 && x <= m
    ensures PadToEven(x) <= m
  {
  }

  /** One stage of the video filter graph. */
  datatype FilterStage =
    | Sample(fps: real)                 // fps=<fps>
    | Scale(width: nat, height: nat)    // scale=<w>:<h>
    | PadEven                           // pad=ceil(iw/2)*2:ceil(ih/2)*2
    | Split                             // split[s0][s1]
    | PaletteGen                        // [s0]palettegen[p]
    | PaletteUse                        // [s1][p]paletteuse

  /** The filters createVideo configures: for MP4 a scale and an even pad
      (H.264 with yuv420p needs even sizes), for GIF a two-pass palette. */
  function Filters(format: Format, fps: real, width: nat, height: nat): seq<FilterStage> {
    match format
    case MP4 => [Scale(width, height), PadEven]
    case GIF => [Sample(fps), Scale(width, height), Split, PaletteGen, PaletteUse]
  }

  /** The picture size after a chain of stages, the frames being
      `width` x `height` to begin with (so a scale to the same size with
      the aspect ratio kept is exact). */
  function SizeAfter(stages: seq<FilterStage>, width: nat, height: nat): (nat, nat) {
    if stages == [] then (width, height)
    else match stages[0]
      case Scale(w, h) => SizeAfter(stages[1..], w, h)
      case PadEven => SizeAfter(stages[1..], PadToEven(width), PadToEven(height))
      case _ => SizeAfter(stages[1..], width, height)
  }

  /** An MP4 is always of even size, the least even size holding the
      requested one, so the table's sizes come out unchanged. A GIF keeps
      the requested size and builds its palette before using it. */
  lemma FilterOutcome(format: Format, fps: real, width: nat, height: nat)
    ensures format == MP4 ==>
              && SizeAfter(Filters(format, fps, width, height), width, height) == (PadToEven(width), PadToEven(height))
              && (width % 2 == 0 && height % 2 == 0 ==> SizeAfter(Filters(format, fps, width, height), width, height) == (width, height))
    ensures format == GIF ==>
              && SizeAfter(Filters(format, fps, width, height), width, height) == (width, height)
              && Filters(format, fps, width, height)[3] == PaletteGen
              && Filters(format, fps, width, height)[4] == PaletteUse
  {
    var f := Filters(format, fps, width, height);
    if format == MP4 {
      assert f[0] == Scale(width, height) && f[1..] == [PadEven] && f[1..][1..] == [];
      assert SizeAfter(f, width, height) == SizeAfter([PadEven], width, height);
      assert SizeAfter([PadEven], width, height) == SizeAfter([], PadToEven(width), PadToEven(height));
    } else {
      var g := [Split, PaletteGen, PaletteUse];
      assert f[0] == Sample(fps) && f[1..] == [Scale(width, height)] + g;
      assert ([Scale(width, height)] + g)[1..] == g;
      assert SizeAfter(f, width, height) == SizeAfter(g, width, height);
      assert g[1..] == [PaletteGen, PaletteUse] && g[1..][1..] == [PaletteUse] && g[1..][1..][1..] == [];
      assert SizeAfter(g, width, height) == SizeAfter([PaletteGen, PaletteUse], width, height);
      assert SizeAfter([PaletteGen, PaletteUse], width, height) == SizeAfter([PaletteUse], width, height);
      assert SizeAfter([PaletteUse], width, height) == SizeAfter([], width, height);
    }
  }

  /** `progress.frames` and `progress.percent` of a progress event; None
      where fluent-ffmpeg leaves them undefined. */
  datatype ProgressInfo = ProgressInfo(frames: Option<int>, percent: Option<real>)

  /** The percentage before clamping: from the frame count when it is
      truthy and totalFrames is positive, else from `percent` when truthy,
      else 0. */
  function RawPercent(p: ProgressInfo, totalFrames: real): int {
    if p.frames.Some? && p.frames.value != 0 && totalFrames > 0.0 then
      Round(p.frames.value as real / totalFrames * 100.0)
    else if p.percent.Some? && p.percent.value != 0.0 then Round(p.percent.value)
    else 0
  }

  lemma DivSelf(a: real)
    requires a > 0.0
    ensures a / a == 1.0
  {
  }

  /** Counting at most totalFrames frames gives a percentage in [0, 100],
      however many frames have been counted. */
  lemma RawPercentBounds(frames: int, percent: Option<real>, totalFrames: real)
    requires 1 <= frames && frames as real <= totalFrames
    ensures 0 <= RawPercent(ProgressInfo(Some(frames), percent), totalFrames) <= 100
    ensures frames as real == totalFrames ==> RawPercent(ProgressInfo(Some(frames), percent), totalFrames) == 100
  {
    var x := frames as real / totalFrames * 100.0;
    Frames.RatioBounds(frames as real, frames as real, totalFrames);
    RoundMonotone(0.0, x);
    RoundMonotone(x, 100.0);
    RoundOfInteger(0);
    RoundOfInteger(100);
    if frames as real == totalFrames {
      DivSelf(totalFrames);
      assert x == totalFrames / totalFrames * 100.0;
    }
  }

  /** The progress handler's percentage: never below 0 and never 100 while
      encoding runs. */
  function NormalizePercent(p: ProgressInfo, totalFrames: real): (r: int)
    ensures 0 <= r <= 99
    ensures 0 <= RawPercent(p, totalFrames) <= 99 ==> r == RawPercent(p, totalFrames)
  {
    Clamp(RawPercent(p, totalFrames), 0, 99)
  }

  /** Counting frames takes precedence over ffmpeg's own percentage, and a
      missing or zero frame count falls back to it. */
  lemma PercentSources(p: ProgressInfo, totalFrames: real)
    ensures p.frames.Some? && p.frames.value != 0 && totalFrames > 0.0 ==>
              NormalizePercent(p, totalFrames) == Clamp(Round(p.frames.value as real / totalFrames * 100.0), 0, 99)
    ensures (p.frames.None? || p.frames.value == 0) && p.percent.Some? && p.percent.value != 0.0 ==>
              NormalizePercent(p, totalFrames) == Clamp(Round(p.percent.value), 0, 99)
    ensures (p.frames.None? || p.frames.value == 0) && (p.percent.None? || p.percent.value == 0.0) ==>
              NormalizePercent(p, totalFrames) == 0
  {
  }

  /** More frames encoded never lowers the reported percentage. */
  lemma NormalizeMonotoneInFrames(f1: int, f2: int, pct1: Option<real>, pct2: Option<real>, totalFrames: real)
    requires 1 <= f1 <= f2 && totalFrames > 0.0
    ensures NormalizePercent(ProgressInfo(Some(f1), pct1), totalFrames)
         <= NormalizePercent(ProgressInfo(Some(f2), pct2), totalFrames)
  {
    Frames.DivMonotone(f1 as real, f2 as real, totalFrames);
    RoundMonotone(f1 as real / totalFrames * 100.0, f2 as real / totalFrames * 100.0);
  }

  /** What the ffmpeg process emits. */
  datatype FfmpegEvent = Progress(info: ProgressInfo) | End | Failed(message: string)

  /** The promise createVideo returns. */
  datatype Settlement = Pending | Resolved(path: string) | Rejected(message: string)

  /** The percentages passed to onProgress, and how the promise settled. */
  datatype Encoding = Encoding(reports: seq<int>, settled: Settlement)

  /** The rejection's message (the prefix is Arabic in the source). */
  function EncodeError(message: string): string {
    "video conversion failed: " + message
  }

  predicate Terminal(ev: FfmpegEvent) {
    ev.End? || ev.Failed?
  }

  /** The event handlers: a progress event reports its normalised
      percentage; `end` reports 100 and resolves with the output path;
      `error` rejects with the wrapped message. Nothing follows the first
      end or error. */
  function Handle(events: seq<FfmpegEvent>, totalFrames: real, outputPath: string): Encoding {
    if events == [] then Encoding([], Pending)
    else match events[0]
      case Progress(info) =>
        var rest := Handle(events[1..], totalFrames, outputPath);
        Encoding([NormalizePercent(info, totalFrames)] + rest.reports, rest.settled)
      case End => Encoding([100], Resolved(outputPath))
      case Failed(m) => Encoding([], Rejected(EncodeError(m)))
  }

  /** The promise settles exactly when an end or error arrives; 100 is
      reported only by `end`, as the last report, right before resolving
      with the output path; every other report lies in [0, 99]. */
  lemma {:induction false} HandleSettles(events: seq<FfmpegEvent>, totalFrames: real, outputPath: string)
    ensures Handle(events, totalFrames, outputPath).settled.Pending? <==> forall k :: 0 <= k < |events| ==> !Terminal(events[k])
    ensures Handle(events, totalFrames, outputPath).settled.Resolved? ==>
              Handle(events, totalFrames, outputPath).settled.path == outputPath
    ensures var r := Handle(events, totalFrames, outputPath).reports;
            forall k :: 0 <= k < |r| ==> (r[k] == 100 <==> Handle(events, totalFrames, outputPath).settled.Resolved? && k == |r| - 1)
    ensures var r := Handle(events, totalFrames, outputPath).reports;
            forall k :: 0 <= k < |r| ==> 0 <= r[k] <= 100
    decreases |events|
  {
    if events != [] && events[0].Progress? {
      HandleSettles(events[1..], totalFrames, outputPath);
      assert forall k :: 1 <= k < |events| ==> events[k] == events[1..][k - 1];
    }
  }

  /** Every progress event counts frames (at least one), and the count
      never falls from one progress event to a later one. */
  predicate CountsFrames(events: seq<FfmpegEvent>) {
    && (forall k :: 0 <= k < |events| && events[k].Progress? ==>
          events[k].info.frames.Some? && events[k].info.frames.value >= 1)
    && (forall i, j :: 0 <= i < j < |events| && events[i].Progress? && events[j].Progress? ==>
          events[i].info.frames.value <= events[j].info.frames.value)
  }

  lemma CountsFramesTail(events: seq<FfmpegEvent>)
    requires events != [] && CountsFrames(events)
    ensures CountsFrames(events[1..])
  {
    var t := events[1..];
    forall k | 0 <= k < |t| ensures t[k] == events[k + 1] { }
  }

  /** A bound every progress event's percentage meets, 100 included,
      bounds every report. */
  lemma {:induction false} HandleReportsAbove(events: seq<FfmpegEvent>, totalFrames: real, outputPath: string, lo: int)
    requires lo <= 100
    requires forall k :: 0 <= k < |events| && events[k].Progress? ==> lo <= NormalizePercent(events[k].info, totalFrames)
    ensures forall k :: 0 <= k < |Handle(events, totalFrames, outputPath).reports| ==>
              lo <= Handle(events, totalFrames, outputPath).reports[k]
    decreases |events|
  {
    if events != [] && events[0].Progress? {
      var tail := events[1..];
      forall k | 0 <= k < |tail| && tail[k].Progress?
        ensures lo <= NormalizePercent(tail[k].info, totalFrames)
      {
        assert tail[k] == events[k + 1];
      }
      HandleReportsAbove(tail, totalFrames, outputPath, lo);
      var rest := Handle(tail, totalFrames, outputPath).reports;
      var r := Handle(events, totalFrames, outputPath).reports;
      assert r == [NormalizePercent(events[0].info, totalFrames)] + rest;
      forall k | 0 <= k < |r| ensures lo <= r[k] {
        if k > 0 {
          assert r[k] == rest[k - 1];
        }
      }
    }
  }

  /** When every progress event counts frames and the count never falls,
      the percentages createVideo reports never fall. */
  lemma {:induction false} HandleRises(events: seq<FfmpegEvent>, totalFrames: real, outputPath: string)
    requires totalFrames > 0.0 && CountsFrames(events)
    ensures Frames.Rising(Handle(events, totalFrames, outputPath).reports)
    ensures Frames.Percentages(Handle(events, totalFrames, outputPath).reports)
    decreases |events|
  {
    HandleSettles(events, totalFrames, outputPath);
    if events != [] && events[0].Progress? {
      var info := events[0].info;
      var f := info.frames.value;
      var tail := events[1..];
      CountsFramesTail(events);
      HandleRises(tail, totalFrames, outputPath);
      var head := NormalizePercent(info, totalFrames);
      forall k | 0 <= k < |tail| && tail[k].Progress?
        ensures head <= NormalizePercent(tail[k].info, totalFrames)
      {
        assert tail[k] == events[k + 1];
        var g := tail[k].info;
        assert info == ProgressInfo(Some(f), info.percent);
        assert g == ProgressInfo(Some(g.frames.value), g.percent);
        NormalizeMonotoneInFrames(f, g.frames.value, info.percent, g.percent, totalFrames);
      }
      HandleReportsAbove(tail, totalFrames, outputPath, head);
      var rest := Handle(tail, totalFrames, outputPath).reports;
      assert Handle(events, totalFrames, outputPath).reports == [head] + rest;
      ConsRising(head, rest);
    }
  }

  lemma ConsRising(head: int, rest: seq<int>)
    requires Frames.Rising(rest) && forall k :: 0 <= k < |rest| ==> head <= rest[k]
    ensures Frames.Rising([head] + rest)
  {
    var r := [head] + rest;
    forall i, j | 0 <= i < j < |r| ensures r[i] <= r[j] {
      assert r[j] == rest[j - 1];
      if i > 0 {
        assert r[i] == rest[i - 1];
      }
    }
  }

  /** Without frame counts the reports can fall: ffmpeg's own 50% followed
      by a count of 10 of 450 frames reports 50, then 2. */
  lemma ReportsCanFall(outputPath: string)
    ensures var events := [Progress(ProgressInfo(None, Some(50.0))), Progress(ProgressInfo(Some(10), None))];
            && Handle(events, 450.0, outputPath).reports == [50, 2]
            && !Frames.Rising(Handle(events, 450.0, outputPath).reports)
  {
    var a, b := ProgressInfo(None, Some(50.0)), ProgressInfo(Some(10), None);
    var events := [Progress(a), Progress(b)];
    assert Round(50.0) == 50;
    assert Round(10.0 / 450.0 * 100.0) == 2;
    assert NormalizePercent(a, 450.0) == 50;
    assert NormalizePercent(b, 450.0) == 2;
    assert events[1..] == [Progress(b)] && events[1..][1..] == [];
    assert Handle([Progress(b)], 450.0, outputPath).reports == [2];
    var r := Handle(events, 450.0, outputPath).reports;
    assert r == [50, 2];
    assert r[0] > r[1];
  }

  /** createVideo as written: the directory is made inside an async
      promise executor, so when mkdir fails the executor's own promise
      rejects unobserved and the returned promise never settles. */
  function CreateVideoAsWritten(mkdirError: Option<string>, events: seq<FfmpegEvent>, totalFrames: real, outputPath: string): Encoding {
    if mkdirError.Some? then Encoding([], Pending) else Handle(events, totalFrames, outputPath)
  }

  /** createVideo as intended: a failing mkdir rejects the promise. The
      handler's `outputPath` is `OutputPath(outputDir, OutputFileName(jobId,
      Date.now(), format))`, which names the job (`OutputPathInjective`). */
  function CreateVideo(mkdirError: Option<string>, events: seq<FfmpegEvent>, totalFrames: real, outputPath: string): (e: Encoding)
    ensures mkdirError.Some? ==> e == Encoding([], Rejected(EncodeError(mkdirError.value)))
    ensures mkdirError.None? ==> e == CreateVideoAsWritten(mkdirError, events, totalFrames, outputPath)
  {
    match mkdirError
    case Some(m) => Encoding([], Rejected(EncodeError(m)))
    case None => Handle(events, totalFrames, outputPath)
  }

  /** Finding: as written, a failing mkdir leaves the render waiting
      forever whatever ffmpeg would have done, even with a complete event
      stream; the corrected version rejects, so the job ends in error. */
  lemma MkdirFailureNeverSettles(message: string, events: seq<FfmpegEvent>, totalFrames: real, outputPath: string)
    ensures CreateVideoAsWritten(Some(message), events, totalFrames, outputPath).settled == Pending
    ensures CreateVideoAsWritten(Some(message), [End], totalFrames, outputPath).settled == Pending
    ensures CreateVideo(Some(message), events, totalFrames, outputPath).settled == Rejected(EncodeError(message))
    ensures CreateVideo(Some(message), events, totalFrames, outputPath).reports == []
  {
  }

  /** The first end or error decides: `end` resolves with the output path,
      `error` rejects with its wrapped message, and what follows is never
      looked at. */
  lemma {:induction false} FirstTerminalDecides(events: seq<FfmpegEvent>, totalFrames: real, outputPath: string, k: nat)
    requires k < |events| && Terminal(events[k])
    requires forall j :: 0 <= j < k ==> !Terminal(events[j])
    ensures Handle(events, totalFrames, outputPath).settled
         == if events[k].End? then Resolved(outputPath) else Rejected(EncodeError(events[k].message))
    decreases k
  {
    if k > 0 {
      assert !Terminal(events[0]);
      forall j | 0 <= j < k - 1 ensures !Terminal(events[1..][j]) {
        assert events[1..][j] == events[j + 1];
      }
      FirstTerminalDecides(events[1..], totalFrames, outputPath, k - 1);
    }
  }

  /** With a working output directory, the corrected createVideo settles as
      soon as an end or error arrives, resolving exactly when the first of
      them is an end. */
  lemma CreateVideoSettles(events: seq<FfmpegEvent>, totalFrames: real, outputPath: string, k: nat)
    requires k < |events| && Terminal(events[k])
    requires forall j :: 0 <= j < k ==> !Terminal(events[j])
    ensures !CreateVideo(None, events, totalFrames, outputPath).settled.Pending?
    ensures CreateVideo(None, events, totalFrames, outputPath).settled.Resolved? <==> events[k].End?
  {
    FirstTerminalDecides(events, totalFrames, outputPath, k);
  }
}
