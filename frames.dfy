/** captureFrames: how many frames are taken, at which virtual times, under
    which file names, and which progress percentages are reported. */
module Frames {
  import opened Wrappers
  import opened JsNumbers
  import opened Text
  import opened VirtualClock

  /** The number of iterations of `for (i = 0; i < duration * fps; i++)`:
      the naturals below duration * fps, however fractional it is. */
  function FrameCount(duration: real, fps: real): (n: nat)
    ensures duration * fps <= n as real
    ensures n > 0 ==> (n - 1) as real < duration * fps
  {
    CountBelow(duration * fps)
  }

  /** How many naturals lie below total. */
  function CountBelow(total: real): (n: nat)
    ensures total <= n as real
    ensures n > 0 ==> (n - 1) as real < total
  {
    if total <= 0.0 then 0 else Ceil(total)
  }

  /** `i * (1000 / fps)`: the virtual time of frame i, in milliseconds. */
  function FrameTime(i: nat, fps: real): real
    requires fps > 0.0
  {
    i as real * (1000.0 / fps)
  }

  lemma ScaleStrict(a: real, b: real, c: real)
    requires a < b && c > 0.0
    ensures a * c < b * c
  {
  }

  /** Frames are evenly spaced from 0, and every frame of a capture lies
      before the end of the requested duration. */
  lemma FrameTimes(duration: real, fps: real, i: nat, j: nat)
    requires fps > 0.0
    ensures FrameTime(0, fps) == 0.0
    ensures i < j ==> FrameTime(i, fps) < FrameTime(j, fps)
    ensures FrameTime(i + 1, fps) - FrameTime(i, fps) == 1000.0 / fps
    ensures i < FrameCount(duration, fps) ==> FrameTime(i, fps) < duration * 1000.0
  {
    var step := 1000.0 / fps;
    assert step > 0.0;
    assert FrameTime(0, fps) == 0.0 * step == 0.0;
    if i < j {
      ScaleStrict(i as real, j as real, step);
      assert FrameTime(i, fps) == i as real * step && FrameTime(j, fps) == j as real * step;
    }
    assert FrameTime(i + 1, fps) == (i + 1) as real * step == i as real * step + step;
    if i < FrameCount(duration, fps) {
      FrameBeforeEnd(duration, fps, i);
    }
  }

  /** A frame taken before `duration * fps` lies before the end. */
  lemma FrameBeforeEnd(duration: real, fps: real, i: nat)
    requires fps > 0.0 && (i as real) < duration * fps
    ensures FrameTime(i, fps) < duration * 1000.0
  {
    var step := 1000.0 / fps;
    ScaleStrict(i as real, duration * fps, step);
    assert fps * step == 1000.0;
    assert duration * fps * step == duration * (fps * step);
  }

  /** `frame_` + `String(i).padStart(5, '0')` + `.jpg`. */
  function FrameName(i: nat): string {
    "frame_" + PadStart(Decimal(i), 5, '0') + ".jpg"
  }

  /** A frame name is `frame_`, at least five decimal digits, then `.jpg`. */
  lemma FrameNameShape(i: nat)
    ensures var name := FrameName(i);
            |name| >= 15 && name[..6] == "frame_" && name[|name| - 4..] == ".jpg" &&
            AllDigits(name[6..|name| - 4])
  {
    var d := Decimal(i);
    var digits := PadStart(d, 5, '0');
    forall k | 0 <= k < |digits|
      ensures IsDigit(digits[k])
    {
      if k >= |digits| - |d| {
        assert digits[k] == digits[|digits| - |d|..][k - (|digits| - |d|)];
      }
    }
    var name := FrameName(i);
    assert name == "frame_" + digits + ".jpg";
    assert name[6..|name| - 4] == digits;
  }

  /** The names of frames 0 .. n-1, in capture order. */
  function FrameNames(n: nat): (names: seq<string>)
    ensures |names| == n
    ensures forall i :: 0 <= i < n ==> names[i] == FrameName(i)
  {
    seq(n, i requires 0 <= i < n => FrameName(i))
  }

  /** Below 100000 frames, names sort as the frame indices do, so a
      directory listing in name order is the capture order. */
  lemma FrameNameOrder(i: nat, j: nat)
    requires i < 100000 && j < 100000
    ensures LexLess(FrameName(i), FrameName(j)) <==> i < j
  {
    assert Pow10(5) == 100000;
    PadDecimalIsFixed(i, 5);
    PadDecimalIsFixed(j, 5);
    FixedDigitsOrder(i, j, 5);
    var a, b := FixedDigits(i, 5), FixedDigits(j, 5);
    assert FrameName(i) == "frame_" + (a + ".jpg");
    assert FrameName(j) == "frame_" + (b + ".jpg");
    LexCommonPrefix("frame_", a + ".jpg", b + ".jpg");
    if a == b {
      LexCommonPrefix(a, ".jpg", ".jpg");
      LexIrreflexive(".jpg");
    } else {
      LexFirstDifference(a, b, ".jpg", ".jpg");
    }
  }

  /** No two frames share a name, at any index: beyond 99999 the index is
      written out in full. */
  lemma FrameNameInjective(i: nat, j: nat)
    requires FrameName(i) == FrameName(j)
    ensures i == j
  {
    var p, q := PadStart(Decimal(i), 5, '0'), PadStart(Decimal(j), 5, '0');
    assert p == FrameName(i)[6..|FrameName(i)| - 4];
    assert q == FrameName(j)[6..|FrameName(j)| - 4];
    PadStartIsZeroPadded(i, 5);
    PadStartIsZeroPadded(j, 5);
    DecimalLength(i, 5);
    DecimalLength(j, 5);
    assert Pow10(5) == 100000;
    if i < 100000 && j < 100000 {
      FixedDigitsOrder(i, j, 5);
    } else if i >= 100000 && j >= 100000 {
      DecimalInjective(i, j);
    }
  }

  /** `Math.ceil(fps / 2)`: a report every this many frames. */
  function ReportStep(fps: real): int {
    Ceil(fps / 2.0)
  }

  /** `i % step === 0`, where a step of 0 gives NaN and never matches. */
  predicate Reported(i: nat, step: int) {
    step != 0 && i % step == 0
  }

  /** `Math.round((i / totalFrames) * 100)`. */
  function FrameProgress(i: nat, total: real): int
    requires total > 0.0
  {
    Round(i as real / total * 100.0)
  }

  /** The percentages reported while frames 0 .. n-1 are taken. */
  function LoopReports(n: nat, total: real, step: int): seq<int>
    requires total > 0.0 || n == 0
  {
    if n == 0 then []
    else LoopReports(n - 1, total, step) + (if Reported(n - 1, step) then [FrameProgress(n - 1, total)] else [])
  }

  /** At most one report per frame; every frame reports when the step is
      1, and none does when it is 0 (`i % 0` is NaN). */
  lemma {:induction false} LoopReportsCount(n: nat, total: real, step: int)
    requires total > 0.0 || n == 0
    ensures |LoopReports(n, total, step)| <= n
    ensures step == 1 ==> |LoopReports(n, total, step)| == n
    ensures step == 0 ==> LoopReports(n, total, step) == []
  {
    if n > 0 {
      LoopReportsCount(n - 1, total, step);
    }
  }

  predicate Rising(reports: seq<int>) {
    forall i, j :: 0 <= i < j < |reports| ==> reports[i] <= reports[j]
  }

  predicate Percentages(reports: seq<int>) {
    forall i :: 0 <= i < |reports| ==> 0 <= reports[i] <= 100
  }

  lemma DivMonotone(a: real, b: real, c: real)
    requires a <= b && c > 0.0
    ensures a / c <= b / c
  {
    assert b / c - a / c == (b - a) / c;
  }

  lemma RatioBounds(x: real, y: real, total: real)
    requires total > 0.0 && 0.0 <= x <= y <= total
    ensures 0.0 <= x / total <= y / total <= 1.0
  {
    DivMonotone(0.0, x, total);
    DivMonotone(x, y, total);
    DivMonotone(y, total, total);
  }

  /** Frame progress is a percentage and grows with the frame index. */
  lemma FrameProgressBounds(i: nat, j: nat, total: real)
    requires total > 0.0 && i <= j && j as real <= total
    ensures 0 <= FrameProgress(i, total) <= FrameProgress(j, total) <= 100
  {
    RatioBounds(i as real, j as real, total);
    RoundMonotone(0.0, i as real / total * 100.0);
    RoundMonotone(i as real / total * 100.0, j as real / total * 100.0);
    RoundMonotone(j as real / total * 100.0, 100.0);
    RoundOfInteger(0);
    RoundOfInteger(100);
  }

  /** Reports during the loop are percentages that never fall, none above
      the progress of the last frame taken. */
  lemma {:induction false} LoopReportsRise(n: nat, total: real, step: int)
    requires total > 0.0 && (n == 0 || (n - 1) as real < total)
    ensures Rising(LoopReports(n, total, step)) && Percentages(LoopReports(n, total, step))
    ensures n > 0 ==> forall k :: 0 <= k < |LoopReports(n, total, step)| ==>
              LoopReports(n, total, step)[k] <= FrameProgress(n - 1, total)
  {
    if n > 0 {
      LoopReportsRise(n - 1, total, step);
      FrameProgressBounds(n - 1, n - 1, total);
      if n > 1 {
        FrameProgressBounds(n - 2, n - 1, total);
      }
    }
  }

  /** The first frame always reports 0 when the step is not 0. */
  lemma {:induction false} FirstReportIsZero(n: nat, total: real, step: int)
    requires total > 0.0 && n >= 1 && step != 0
    ensures |LoopReports(n, total, step)| >= 1 && LoopReports(n, total, step)[0] == 0
  {
    if n > 1 {
      FirstReportIsZero(n - 1, total, step);
    } else {
      assert Reported(0, step);
      RoundOfInteger(0);
    }
  }

  /** A failure injected into the calls captureFrames makes to the browser. */
  datatype Fault =
    | NoFault
    | LaunchFails(message: string)      // puppeteer.launch throws: no browser to close
    | SetupFails(message: string)       // newPage .. first advance throws
    | ShotFails(frame: nat, message: string)  // advancing to, or capturing, this frame throws
    | CloseFails(message: string)       // the final browser.close() throws

  /** What a capture did: the frames written, the percentages passed to
      onProgress, how many times browser.close() was called, and the
      session directory or the wrapped error. */
  datatype Capture = Capture(shots: seq<string>, reports: seq<int>, closes: nat, outcome: Result<string, string>)

  /** The thrown error as rethrown (the prefix is Arabic in the source). */
  function CaptureError(message: string): string {
    "frame capture failed: " + message
  }

  /** Whether the fault happens at all within a capture of n frames. */
  predicate Strikes(fault: Fault, n: nat) {
    !fault.NoFault? && (fault.ShotFails? ==> fault.frame < n)
  }

  /** The frames that are written before the fault strikes. */
  function ShotCount(fault: Fault, n: nat): (k: nat)
    ensures k <= n
  {
    match fault
    case LaunchFails(_) => 0
    case SetupFails(_) => 0
    case ShotFails(frame, _) => if frame < n then frame else n
    case _ => n
  }

  /** What one advance of the virtual clock to t does to the timers, and the
      callbacks it runs: those of Clock.Advance. */
  predicate Stepped(timers: seq<Timer>, rafs: seq<FrameRequest>, t: real, timers': seq<Timer>, calls: seq<Call>) {
    && timers' == Kept(timers, t) + Rescheduled(Due(timers, t))
    && calls == FrameCalls(rafs, t) + TimerCalls(SortByDue(Due(timers, t)))
  }

  /** `page.evaluate(t => window.__advanceTime(t), time)`: the page runs the
      callbacks that fall due; the capture only relies on the new time. */
  method AdvancePage(clock: Clock, time: real) returns (calls: seq<Call>)
    requires clock.Valid()
    modifies clock
    ensures clock.Valid() && clock.now == time && clock.rafs == []
    ensures clock.nextTimerId == old(clock.nextTimerId) && clock.nextRafId == old(clock.nextRafId)
    ensures Stepped(old(clock.timers), old(clock.rafs), time, clock.timers, calls)
  {
    calls := clock.Advance(time);
  }

  /** One frame of the `for` loop: advance the page to the frame's time,
      then take the screenshot, which throws when it fails. */
  method ShootFrame(clock: Clock, time: real, fails: bool) returns (thrown: bool, calls: seq<Call>)
    requires clock.Valid()
    modifies clock
    ensures clock.Valid() && clock.now == time && clock.rafs == []
    ensures clock.nextTimerId == old(clock.nextTimerId) && clock.nextRafId == old(clock.nextRafId)
    ensures Stepped(old(clock.timers), old(clock.rafs), time, clock.timers, calls)
    ensures thrown == fails
  {
    calls := AdvancePage(clock, time);
    thrown := fails;
  }

  /** The `for` loop of captureFrames: advance the clock to the frame's
      time, capture the frame, report every step-th frame. A capture that
      throws (at frame failAt) ends the loop. */
  method FrameLoop(clock: Clock, total: real, fps: real, failAt: Option<nat>)
    returns (shots: seq<string>, reports: seq<int>, failed: bool)
    requires fps > 0.0 && clock.Valid()
    modifies clock
    ensures clock.Valid()
    ensures failed <==> failAt.Some? && failAt.value < CountBelow(total)
    ensures var k := if failed then failAt.value else CountBelow(total);
            shots == FrameNames(k) && reports == LoopReports(k, total, ReportStep(fps))
    ensures !failed && CountBelow(total) > 0 ==> clock.now == FrameTime(CountBelow(total) - 1, fps)
    ensures failed ==> clock.now == FrameTime(failAt.value, fps)
  {
    var step := ReportStep(fps);
    ghost var n := CountBelow(total);
    shots, reports, failed := [], [], false;
    var i: nat := 0;
    while i as real < total
      invariant i <= n
      invariant shots == FrameNames(i)
      invariant reports == LoopReports(i, total, step)
      invariant failAt.Some? ==> i <= failAt.value
      invariant clock.Valid()
      invariant i > 0 ==> clock.now == FrameTime(i - 1, fps)
      decreases n - i
    {
      assert i < n by {
        assert i as real < n as real;
      }
      var shots' := shots + [FrameName(i)];
      assert shots' == FrameNames(i + 1);
      var reports' := if step != 0 && i % step == 0 then reports + [FrameProgress(i, total)] else reports;
      assert reports' == LoopReports(i + 1, total, step);
      assert failAt != Some(i) ==> (failAt.Some? ==> i + 1 <= failAt.value);
      var thrown, _ := ShootFrame(clock, FrameTime(i, fps), failAt == Some(i));
      if thrown {
        return shots, reports, true;
      }
      shots, reports := shots', reports';
      i := i + 1;
    }
  }

  /** The percentages captureFrames reports: one per reported frame it
      shot, then 100 when the capture completes. */
  function CaptureReports(duration: real, fps: real, fault: Fault): seq<int> {
    LoopReports(ShotCount(fault, FrameCount(duration, fps)), duration * fps, ReportStep(fps))
    + (if Strikes(fault, FrameCount(duration, fps)) then [] else [100])
  }

  /** captureFrames, with the browser reduced to the virtual clock it drives
      and the files it writes. */
  method CaptureFrames(clock: Clock, sessionDir: string, duration: real, fps: real, fault: Fault)
    returns (c: Capture)
    requires fps > 0.0 && clock.Valid()
    modifies clock
    ensures clock.Valid()
    ensures c.shots == FrameNames(ShotCount(fault, FrameCount(duration, fps)))
    ensures c.reports == CaptureReports(duration, fps, fault)
    ensures c.outcome.Success? <==> !Strikes(fault, FrameCount(duration, fps))
    ensures c.outcome.Success? ==> c.outcome.value == sessionDir
    ensures c.outcome.Failure? ==> c.outcome.error == CaptureError(fault.message)
    ensures c.closes == (if fault.LaunchFails? then 0 else if fault.CloseFails? then 2 else 1)
    ensures c.outcome.Success? && FrameCount(duration, fps) > 0 ==>
              clock.now == FrameTime(FrameCount(duration, fps) - 1, fps)
  {
    if fault.LaunchFails? {
      c := Capture([], [], 0, Failure(CaptureError(fault.message)));
    } else if fault.SetupFails? {
      c := Capture([], [], 1, Failure(CaptureError(fault.message)));
    } else {
      var calls := AdvancePage(clock, 0.0);
      var failAt := if fault.ShotFails? then Some(fault.frame) else None;
      var shots, reports, failed := FrameLoop(clock, duration * fps, fps, failAt);
      LoopOutcome(duration, fps, fault, failed);
      if failed {
        c := Capture(shots, reports, 1, Failure(CaptureError(fault.message)));
      } else if fault.CloseFails? {
        c := Capture(shots, reports, 2, Failure(CaptureError(fault.message)));
      } else {
        c := Capture(shots, reports + [100], 1, Success(sessionDir));
      }
    }
  }

  /** What the frame loop's outcome means for the capture as a whole: the
      frames written, whether the fault strikes, and the reports. */
  lemma LoopOutcome(duration: real, fps: real, fault: Fault, failed: bool)
    requires !fault.LaunchFails? && !fault.SetupFails?
    requires failed <==> fault.ShotFails? && fault.frame < CountBelow(duration * fps)
    ensures var n, k := FrameCount(duration, fps), if failed then fault.frame else CountBelow(duration * fps);
            && n == CountBelow(duration * fps)
            && k == ShotCount(fault, n)
            && (Strikes(fault, n) <==> failed || fault.CloseFails?)
            && CaptureReports(duration, fps, fault)
               == LoopReports(k, duration * fps, ReportStep(fps)) + (if failed || fault.CloseFails? then [] else [100])
  {
  }

  /** A capture that completes ends its reports with 100; one that fails
      reports at most once per frame it wrote. */
  lemma CaptureReportsEnd(duration: real, fps: real, fault: Fault)
    ensures var r, k := CaptureReports(duration, fps, fault), ShotCount(fault, FrameCount(duration, fps));
            && (Strikes(fault, FrameCount(duration, fps)) ==> |r| <= k)
            && (!Strikes(fault, FrameCount(duration, fps)) ==> 0 < |r| <= k + 1 && r[|r| - 1] == 100)
  {
    LoopReportsCount(ShotCount(fault, FrameCount(duration, fps)), duration * fps, ReportStep(fps));
  }

  /** A final 100 keeps a rising sequence of percentages rising. */
  lemma RisingThenHundred(r: seq<int>)
    requires Rising(r) && Percentages(r)
    ensures Rising(r + [100]) && Percentages(r + [100])
  {
  }

  /** Whatever happens, what captureFrames reports is a rising sequence of
      percentages. */
  lemma CaptureReportsRise(duration: real, fps: real, fault: Fault)
    requires fps > 0.0
    ensures Rising(CaptureReports(duration, fps, fault)) && Percentages(CaptureReports(duration, fps, fault))
  {
    var n := FrameCount(duration, fps);
    var k := ShotCount(fault, n);
    var total := duration * fps;
    var loop := LoopReports(k, total, ReportStep(fps));
    if k > 0 {
      assert (k - 1) as real < total;
      LoopReportsRise(k, total, ReportStep(fps));
    }
    assert Rising(loop) && Percentages(loop);
    if Strikes(fault, n) {
      assert CaptureReports(duration, fps, fault) == loop + [];
      assert loop + [] == loop;
    } else {
      assert CaptureReports(duration, fps, fault) == loop + [100];
      RisingThenHundred(loop);
    }
  }
}
