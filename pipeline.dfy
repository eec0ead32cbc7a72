/** The render route's orchestration: accept a request, then walk the job
    through preparing, capturing, encoding and complete (or error),
    publishing each step through the registry. */
module Pipeline {
  import opened Wrappers
  import opened JsNumbers
  import opened RenderRequest
  import opened JobRegistry
  import Frames
  import Encoder
  import Text

  /** `Math.round(10 + percent * 0.7)`: capture's share of the bar. */
  function CaptureProgress(percent: int): (r: int)
    ensures 0 <= percent <= 100 ==> 10 <= r <= 80
    ensures percent == 0 ==> r == 10
    ensures percent == 100 ==> r == 80
  {
    Round(10.0 + percent as real * 0.7)
  }

  /** `Math.round(80 + percent * 0.18)`: encoding's share of the bar. */
  function EncodeProgress(percent: int): (r: int)
    ensures 0 <= percent <= 100 ==> 80 <= r <= 98
    ensures percent == 0 ==> r == 80
    ensures percent == 100 ==> r == 98
  {
    Round(80.0 + percent as real * 0.18)
  }

  lemma CaptureProgressMonotone(p: int, q: int)
    requires p <= q
    ensures CaptureProgress(p) <= CaptureProgress(q)
  {
    RoundMonotone(10.0 + p as real * 0.7, 10.0 + q as real * 0.7);
  }

  lemma EncodeProgressMonotone(p: int, q: int)
    requires p <= q
    ensures EncodeProgress(p) <= EncodeProgress(q)
  {
    RoundMonotone(80.0 + p as real * 0.18, 80.0 + q as real * 0.18);
  }

  /** Whether the promise a stage awaits resolved, rejected, or never
      settles (createVideo as written when its mkdir fails). */
  datatype Outcome = Ok | Threw(message: string) | Hangs

  /** How one job's pipeline went: whether creating the session directory
      and writing the page succeeded, the percentages captureFrames and
      createVideo passed to their onProgress callbacks, whether each threw,
      and the result data built at the end. */
  datatype Run = Run(
    prepare: Outcome,
    captureReports: seq<int>, capture: Outcome,
    encodeReports: seq<int>, encode: Outcome,
    result: RenderResult)

  predicate Succeeded(run: Run) {
    run.prepare.Ok? && run.capture.Ok? && run.encode.Ok?
  }

  /** The handler waits forever: the first stage that did not succeed is
      one whose promise never settles. */
  predicate Hung(run: Run) {
    || run.prepare.Hangs?
    || (run.prepare.Ok? && run.capture.Hangs?)
    || (run.prepare.Ok? && run.capture.Ok? && run.encode.Hangs?)
  }

  /** The message of the stage that threw first. */
  function FirstError(run: Run): string
    requires !Succeeded(run) && !Hung(run)
  {
    if run.prepare.Threw? then run.prepare.message
    else if run.capture.Threw? then run.capture.message
    else run.encode.message
  }

  const PreparingEvent := Event(5, Preparing, PreparingFiles, None)
  const CapturingEvent := Event(10, Capturing, CapturingFrames, None)
  const EncodingEvent := Event(80, Encoding, EncodingVideo, None)

  function CompleteEvent(result: RenderResult): Event {
    Event(100, Complete, Finished, Some(result))
  }

  /** The catch block's update. */
  function ErrorEvent(reason: string): Event {
    Event(0, Error, Failed(reason), None)
  }

  function CaptureEvent(percent: int): Event {
    Event(CaptureProgress(percent), Capturing, CapturePercent(percent), None)
  }

  function EncodeEvent(percent: int): Event {
    Event(EncodeProgress(percent), Encoding, EncodePercent(percent), None)
  }

  function CaptureEvents(reports: seq<int>): (evs: seq<Event>)
    ensures |evs| == |reports|
    ensures forall i :: 0 <= i < |reports| ==> evs[i] == CaptureEvent(reports[i])
  {
    if reports == [] then [] else CaptureEvents(reports[..|reports| - 1]) + [CaptureEvent(reports[|reports| - 1])]
  }

  function EncodeEvents(reports: seq<int>): (evs: seq<Event>)
    ensures |evs| == |reports|
    ensures forall i :: 0 <= i < |reports| ==> evs[i] == EncodeEvent(reports[i])
  {
    if reports == [] then [] else EncodeEvents(reports[..|reports| - 1]) + [EncodeEvent(reports[|reports| - 1])]
  }

  /** Every updateProgress call of the route's handler, in order; a throw in
      any stage jumps to the catch block's error update, and a stage that
      never settles leaves the handler waiting after its last report. */
  function Ladder(run: Run): seq<Event> {
    var captured := [PreparingEvent, CapturingEvent] + CaptureEvents(run.captureReports);
    var encoded := captured + [EncodingEvent] + EncodeEvents(run.encodeReports);
    if run.prepare.Threw? then [PreparingEvent, ErrorEvent(run.prepare.message)]
    else if run.prepare.Hangs? then [PreparingEvent]
    else if run.capture.Threw? then captured + [ErrorEvent(run.capture.message)]
    else if run.capture.Hangs? then captured
    else if run.encode.Threw? then encoded + [ErrorEvent(run.encode.message)]
    else if run.encode.Hangs? then encoded
    else encoded + [CompleteEvent(run.result)]
  }

  /** The capture stage's updates: capturing, one per percentage, and the
      error update if captureFrames throws. */
  function CaptureStageEvents(run: Run): seq<Event> {
    [CapturingEvent] + CaptureEvents(run.captureReports)
    + (if run.capture.Threw? then [ErrorEvent(run.capture.message)] else [])
  }

  /** The encode stage's updates: encoding, one per percentage, then the
      error update if createVideo throws, the complete update if it
      resolves, and nothing more if it never settles. */
  function EncodeStageEvents(run: Run): seq<Event> {
    [EncodingEvent] + EncodeEvents(run.encodeReports)
    + (if run.encode.Threw? then [ErrorEvent(run.encode.message)]
       else if run.encode.Hangs? then []
       else [CompleteEvent(run.result)])
  }

  /** The ladder, stage by stage: what RunJob publishes in order. */
  lemma LadderStages(run: Run)
    requires run.prepare.Ok?
    ensures !run.capture.Ok? ==> Ladder(run) == [PreparingEvent] + CaptureStageEvents(run)
    ensures run.capture.Ok? ==> Ladder(run) == [PreparingEvent] + CaptureStageEvents(run) + EncodeStageEvents(run)
  {
  }

  predicate Terminal(stage: Stage) {
    stage == Complete || stage == Error
  }

  /** A job's updates start with preparing. Unless a stage never settles,
      they end in exactly one terminal update: complete with the result
      when every stage succeeded, otherwise error with progress 0 and the
      first error's message. A stage that never settles leaves no terminal
      update at all. A stage that throws or hangs cuts off every later
      stage's updates. */
  lemma LadderEnds(run: Run)
    ensures |Ladder(run)| >= 1 && Ladder(run)[0] == PreparingEvent
    ensures |Ladder(run)| ==
              if run.prepare.Threw? then 2
              else if run.prepare.Hangs? then 1
              else if run.capture.Threw? then 3 + |run.captureReports|
              else if run.capture.Hangs? then 2 + |run.captureReports|
              else if run.encode.Hangs? then 3 + |run.captureReports| + |run.encodeReports|
              else 4 + |run.captureReports| + |run.encodeReports|
    ensures forall i :: 0 <= i < |Ladder(run)| - 1 ==> !Terminal(Ladder(run)[i].stage)
    ensures Hung(run) <==> !Terminal(Ladder(run)[|Ladder(run)| - 1].stage)
    ensures Succeeded(run) ==> Ladder(run)[|Ladder(run)| - 1] == CompleteEvent(run.result)
    ensures !Succeeded(run) && !Hung(run) ==> Ladder(run)[|Ladder(run)| - 1] == ErrorEvent(FirstError(run))
  {
  }

  /** Given percentages from the drivers, every update lies in [0, 100] and
      100 is reached by the complete update and by no other. */
  lemma LadderBounds(run: Run)
    requires Frames.Percentages(run.captureReports) && Frames.Percentages(run.encodeReports)
    ensures forall i :: 0 <= i < |Ladder(run)| ==> 0 <= Ladder(run)[i].progress <= 100
    ensures forall i :: 0 <= i < |Ladder(run)| ==> (Ladder(run)[i].progress == 100 <==> Ladder(run)[i].stage == Complete)
  {
    var l := Ladder(run);
    forall i | 0 <= i < |l|
      ensures 0 <= l[i].progress <= 100
      ensures l[i].progress == 100 <==> l[i].stage == Complete
    {
      var c := CaptureEvents(run.captureReports);
      if 2 <= i < 2 + |c| {
        assert l[i] == CaptureEvent(run.captureReports[i - 2]);
      } else if 3 + |c| <= i < 3 + |c| + |run.encodeReports| {
        assert l[i] == EncodeEvent(run.encodeReports[i - 3 - |c|]);
      }
    }
  }

  predicate NonDecreasing(evs: seq<Event>) {
    forall i, j :: 0 <= i < j < |evs| ==> evs[i].progress <= evs[j].progress
  }

  lemma ConcatNonDecreasing(a: seq<Event>, b: seq<Event>, m: int)
    requires NonDecreasing(a) && NonDecreasing(b)
    requires forall i :: 0 <= i < |a| ==> a[i].progress <= m
    requires forall i :: 0 <= i < |b| ==> m <= b[i].progress
    ensures NonDecreasing(a + b)
  {
  }

  lemma PrefixNonDecreasing(evs: seq<Event>)
    requires NonDecreasing(evs) && |evs| >= 1
    ensures NonDecreasing(evs[..|evs| - 1])
  {
  }

  lemma CaptureEventsRise(reports: seq<int>)
    requires Frames.Rising(reports) && Frames.Percentages(reports)
    ensures NonDecreasing(CaptureEvents(reports))
    ensures forall i :: 0 <= i < |reports| ==> 10 <= CaptureEvents(reports)[i].progress <= 80
  {
    forall i, j | 0 <= i < j < |reports| ensures CaptureProgress(reports[i]) <= CaptureProgress(reports[j]) {
      CaptureProgressMonotone(reports[i], reports[j]);
    }
  }

  lemma EncodeEventsRise(reports: seq<int>)
    requires Frames.Rising(reports) && Frames.Percentages(reports)
    ensures NonDecreasing(EncodeEvents(reports))
    ensures forall i :: 0 <= i < |reports| ==> 80 <= EncodeEvents(reports)[i].progress <= 98
  {
    forall i, j | 0 <= i < j < |reports| ensures EncodeProgress(reports[i]) <= EncodeProgress(reports[j]) {
      EncodeProgressMonotone(reports[i], reports[j]);
    }
  }

  /** When each driver reports rising percentages, the progress a job
      publishes never falls until its terminal update, and never falls at
      all on success or when a stage never settles. */
  lemma LadderNonDecreasing(run: Run)
    requires Frames.Rising(run.captureReports) && Frames.Percentages(run.captureReports)
    requires Frames.Rising(run.encodeReports) && Frames.Percentages(run.encodeReports)
    ensures NonDecreasing(Ladder(run)[..|Ladder(run)| - 1])
    ensures Succeeded(run) || Hung(run) ==> NonDecreasing(Ladder(run))
  {
    var c := CaptureEvents(run.captureReports);
    var e := EncodeEvents(run.encodeReports);
    CaptureEventsRise(run.captureReports);
    EncodeEventsRise(run.encodeReports);
    var head := [PreparingEvent, CapturingEvent];
    ConcatNonDecreasing(head, c, 10);
    var captured := head + c;
    ConcatNonDecreasing(captured, [EncodingEvent], 80);
    ConcatNonDecreasing(captured + [EncodingEvent], e, 80);
    var encoded := captured + [EncodingEvent] + e;
    ConcatNonDecreasing(encoded, [CompleteEvent(run.result)], 98);
    var l := Ladder(run);
    if run.prepare.Threw? {
      assert l[..|l| - 1] == [PreparingEvent];
    } else if run.prepare.Hangs? {
      assert l[..|l| - 1] == [];
    } else if run.capture.Threw? {
      assert l[..|l| - 1] == captured;
    } else if run.capture.Hangs? {
      assert l == captured;
      PrefixNonDecreasing(l);
    } else if run.encode.Threw? {
      assert l[..|l| - 1] == encoded;
    } else if run.encode.Hangs? {
      assert l == encoded;
      PrefixNonDecreasing(l);
    } else {
      assert l[..|l| - 1] == encoded;
    }
  }

  /** The reports of a capture driven as captureFrames drives it, with the
      encoder's percentages in order, make every update up to the last one
      rise, and every update a percentage. */
  lemma CapturedRunRises(run: Run, duration: real, fps: real, fault: Frames.Fault)
    requires fps > 0.0 && run.captureReports == Frames.CaptureReports(duration, fps, fault)
    requires Frames.Rising(run.encodeReports) && Frames.Percentages(run.encodeReports)
    ensures NonDecreasing(Ladder(run)[..|Ladder(run)| - 1])
    ensures Succeeded(run) ==> NonDecreasing(Ladder(run))
    ensures forall i :: 0 <= i < |Ladder(run)| ==> 0 <= Ladder(run)[i].progress <= 100
  {
    Frames.CaptureReportsRise(duration, fps, fault);
    LadderNonDecreasing(run);
    LadderBounds(run);
  }

  /** A run whose capture went as captureFrames drives it and whose
      encoder saw frame counts that never fall publishes progress that
      never falls until its terminal update, and not at all on success. */
  lemma DrivenRunRises(run: Run, duration: real, fps: real, fault: Frames.Fault,
                       events: seq<Encoder.FfmpegEvent>, totalFrames: real, outputPath: string)
    requires fps > 0.0 && run.captureReports == Frames.CaptureReports(duration, fps, fault)
    requires totalFrames > 0.0 && Encoder.CountsFrames(events)
    requires run.encodeReports == Encoder.CreateVideo(None, events, totalFrames, outputPath).reports
    ensures NonDecreasing(Ladder(run)[..|Ladder(run)| - 1])
    ensures Succeeded(run) ==> NonDecreasing(Ladder(run))
  {
    Encoder.HandleRises(events, totalFrames, outputPath);
    CapturedRunRises(run, duration, fps, fault);
  }

  /** Without frame counts the published progress can fall on a run that
      succeeds: encoding reports of 50 then 2 publish 89, then 80. */
  lemma LadderCanFall(result: RenderResult)
    ensures var run := Run(Ok, [], Ok, [50, 2], Ok, result);
            Succeeded(run) && !NonDecreasing(Ladder(run))
  {
    var run := Run(Ok, [], Ok, [50, 2], Ok, result);
    assert EncodeProgress(50) == 89 by {
      assert 80.0 + 50 as real * 0.18 == 89.0;
      RoundOfInteger(89);
    }
    assert EncodeProgress(2) == 80 by {
      assert 80.0 + 2 as real * 0.18 == 80.36;
    }
    var l := Ladder(run);
    assert CaptureEvents([]) == [];
    assert l[3] == EncodeEvent(50) && l[4] == EncodeEvent(2);
    assert l[3].progress > l[4].progress;
  }

  /** The state change of one update. */
  function ApplyEvent(job: Job, ev: Event): Job {
    Apply(job, ev.progress, ev.stage, ev.message, ev.result)
  }

  /** A job record after a sequence of updates. */
  function ApplyAll(job: Job, evs: seq<Event>): (j: Job)
    ensures j.listeners == job.listeners && j.startTime == job.startTime
    decreases |evs|
  {
    if evs == [] then job else ApplyEvent(ApplyAll(job, evs[..|evs| - 1]), evs[|evs| - 1])
  }

  /** The streams' side of a sequence of updates to a job whose listeners
      stay ls. */
  function BroadcastAll(received: map<ListenerId, seq<Event>>, ls: seq<ListenerId>, evs: seq<Event>, broken: set<ListenerId>): map<ListenerId, seq<Event>>
    decreases |evs|
  {
    if evs == [] then received
    else Broadcast(BroadcastAll(received, ls, evs[..|evs| - 1], broken), ls, evs[|evs| - 1], broken)
  }

  /** Updates without a result leave the stored result alone. */
  lemma {:induction false} ResultSurvives(job: Job, evs: seq<Event>)
    requires forall i :: 0 <= i < |evs| ==> evs[i].result.None?
    ensures ApplyAll(job, evs).result == job.result
    decreases |evs|
  {
    if evs != [] {
      ResultSurvives(job, evs[..|evs| - 1]);
    }
  }

  /** The record a job's run leaves: complete at 100 with the result, or
      error at 0 with the earlier result (if any) kept; when a stage never
      settles, still at that stage, never terminal, with the earlier result
      kept. Its listeners are untouched. */
  lemma FinalJobState(job: Job, run: Run)
    ensures ApplyAll(job, Ladder(run)).listeners == job.listeners
    ensures Succeeded(run) ==>
              && ApplyAll(job, Ladder(run)).progress == 100
              && ApplyAll(job, Ladder(run)).stage == Complete
              && ApplyAll(job, Ladder(run)).result == Some(run.result)
    ensures !Succeeded(run) && !Hung(run) ==>
              && ApplyAll(job, Ladder(run)).progress == 0
              && ApplyAll(job, Ladder(run)).stage == Error
              && ApplyAll(job, Ladder(run)).message == Failed(FirstError(run))
              && ApplyAll(job, Ladder(run)).result == job.result
    ensures Hung(run) ==>
              && !Terminal(ApplyAll(job, Ladder(run)).stage)
              && ApplyAll(job, Ladder(run)).result == job.result
    ensures run.prepare.Ok? && run.capture.Ok? && run.encode.Hangs? ==>
              ApplyAll(job, Ladder(run)).stage == Encoding
  {
    var l := Ladder(run);
    LadderEnds(run);
    OnlyCompleteCarriesResult(run);
    var front := l[..|l| - 1];
    ResultSurvives(job, front);
    assert ApplyAll(job, l) == ApplyEvent(ApplyAll(job, front), l[|l| - 1]);
    if run.prepare.Ok? && run.capture.Ok? && run.encode.Hangs? {
      EncodeHangEndsEncoding(run);
    }
  }

  /** Only the complete update carries a result. */
  lemma OnlyCompleteCarriesResult(run: Run)
    ensures forall i :: 0 <= i < |Ladder(run)| ==> Ladder(run)[i].result.None? || Ladder(run)[i].stage == Complete
  {
    var l := Ladder(run);
    var c, e := CaptureEvents(run.captureReports), EncodeEvents(run.encodeReports);
    forall i | 0 <= i < |l| ensures l[i].result.None? || l[i].stage == Complete {
      if 2 <= i < 2 + |c| {
        assert l[i] == CaptureEvent(run.captureReports[i - 2]);
      } else if 3 + |c| <= i < 3 + |c| + |e| {
        assert l[i] == EncodeEvent(run.encodeReports[i - 3 - |c|]);
      }
    }
  }

  /** When createVideo never settles, the last update is an encoding one. */
  lemma EncodeHangEndsEncoding(run: Run)
    requires run.prepare.Ok? && run.capture.Ok? && run.encode.Hangs?
    ensures Ladder(run)[|Ladder(run)| - 1].stage == Encoding
  {
    var e := EncodeEvents(run.encodeReports);
    assert Ladder(run)[|Ladder(run)| - 1] == if e == [] then EncodingEvent else EncodeEvent(run.encodeReports[|e| - 1]);
  }

  /** Every update reaches a stream subscribed once and not broken, in
      order: such a stream sees exactly the job's ladder. */
  lemma {:induction false} SubscriberSeesEveryUpdate(received: map<ListenerId, seq<Event>>, ls: seq<ListenerId>, evs: seq<Event>, broken: set<ListenerId>, k: ListenerId)
    requires multiset(ls)[k] == 1 && k !in broken
    ensures Log(BroadcastAll(received, ls, evs, broken), k) == Log(received, k) + evs
    decreases |evs|
  {
    if evs == [] {
      assert Log(received, k) + [] == Log(received, k);
    } else {
      var front := evs[..|evs| - 1];
      SubscriberSeesEveryUpdate(received, ls, front, broken, k);
      BroadcastLog(BroadcastAll(received, ls, front, broken), ls, evs[|evs| - 1], broken, k);
      assert Text.Fill(evs[|evs| - 1], 1) == [evs[|evs| - 1]];
      assert front + [evs[|evs| - 1]] == evs;
    }
  }

  /** What the registry holds after the first `done` updates of a job. */
  ghost predicate After(reg: Registry, jobs0: map<JobId, Job>, received0: map<ListenerId, seq<Event>>, id: JobId, done: seq<Event>)
    reads reg
  {
    if id in jobs0 then
      && reg.jobs == jobs0[id := ApplyAll(jobs0[id], done)]
      && reg.received == BroadcastAll(received0, jobs0[id].listeners, done, reg.broken)
    else
      reg.jobs == jobs0 && reg.received == received0
  }

  /** One updateProgress call of the handler. */
  method Publish(reg: Registry, id: JobId, ev: Event, ghost jobs0: map<JobId, Job>, ghost received0: map<ListenerId, seq<Event>>, ghost done: seq<Event>)
    requires After(reg, jobs0, received0, id, done)
    modifies reg
    ensures reg.broken == old(reg.broken)
    ensures After(reg, jobs0, received0, id, done + [ev])
  {
    reg.UpdateProgress(id, ev.progress, ev.stage, ev.message, ev.result);
    assert (done + [ev])[..|done|] == done;
  }

  /** The onProgress callback of a stage, once per percentage the stage
      reports, in order. */
  method PublishAll(reg: Registry, id: JobId, evs: seq<Event>, ghost jobs0: map<JobId, Job>, ghost received0: map<ListenerId, seq<Event>>, ghost done: seq<Event>)
    requires After(reg, jobs0, received0, id, done)
    modifies reg
    ensures reg.broken == old(reg.broken)
    ensures After(reg, jobs0, received0, id, done + evs)
  {
    var k := 0;
    assert done + evs[..0] == done;
    while k < |evs|
      invariant 0 <= k <= |evs|
      invariant reg.broken == old(reg.broken)
      invariant After(reg, jobs0, received0, id, done + evs[..k])
    {
      Publish(reg, id, evs[k], jobs0, received0, done + evs[..k]);
      assert done + evs[..k] + [evs[k]] == done + evs[..k + 1];
      k := k + 1;
    }
    assert evs[..k] == evs;
  }

  /** The deferred clean-ups scheduled when a job ends: delays in ms for
      removing the session directory, and for removing the job record (None:
      never). */
  datatype Followup = Followup(removeSessionAfterMs: nat, removeJobAfterMs: Option<nat>)

  /** On success both removals are deferred, the record's longer; on
      failure the session directory goes at once and the record stays. */
  const AfterSuccess := Followup(10000, Some(120000))
  const AfterFailure := Followup(0, None)

  /** The handler's capture stage, from the capturing update on. */
  method CaptureStage(reg: Registry, id: JobId, run: Run, ghost jobs0: map<JobId, Job>, ghost received0: map<ListenerId, seq<Event>>, ghost done: seq<Event>)
    requires After(reg, jobs0, received0, id, done)
    modifies reg
    ensures reg.broken == old(reg.broken)
    ensures After(reg, jobs0, received0, id, done + CaptureStageEvents(run))
  {
    Publish(reg, id, CapturingEvent, jobs0, received0, done);
    ghost var sofar := done + [CapturingEvent];
    PublishAll(reg, id, CaptureEvents(run.captureReports), jobs0, received0, sofar);
    sofar := sofar + CaptureEvents(run.captureReports);
    if run.capture.Threw? {
      Publish(reg, id, ErrorEvent(run.capture.message), jobs0, received0, sofar);
      sofar := sofar + [ErrorEvent(run.capture.message)];
    }
    assert sofar == done + CaptureStageEvents(run);
  }

  /** The handler's encode stage, from the encoding update to the terminal
      one. */
  method EncodeStage(reg: Registry, id: JobId, run: Run, ghost jobs0: map<JobId, Job>, ghost received0: map<ListenerId, seq<Event>>, ghost done: seq<Event>)
    requires After(reg, jobs0, received0, id, done)
    modifies reg
    ensures reg.broken == old(reg.broken)
    ensures After(reg, jobs0, received0, id, done + EncodeStageEvents(run))
  {
    Publish(reg, id, EncodingEvent, jobs0, received0, done);
    ghost var sofar := done + [EncodingEvent];
    PublishAll(reg, id, EncodeEvents(run.encodeReports), jobs0, received0, sofar);
    sofar := sofar + EncodeEvents(run.encodeReports);
    if !run.encode.Hangs? {
      var last := if run.encode.Threw? then ErrorEvent(run.encode.message) else CompleteEvent(run.result);
      Publish(reg, id, last, jobs0, received0, sofar);
      sofar := sofar + [last];
    }
    assert sofar == done + EncodeStageEvents(run);
  }

  /** The handler's work after the response: every update of the ladder,
      in order, through updateProgress, then the clean-ups to schedule
      (None: the handler waits forever and schedules none). */
  method RunJob(reg: Registry, id: JobId, run: Run) returns (followup: Option<Followup>)
    modifies reg
    ensures reg.broken == old(reg.broken)
    ensures id !in old(reg.jobs) ==> reg.jobs == old(reg.jobs) && reg.received == old(reg.received)
    ensures id in old(reg.jobs) ==>
              && reg.jobs == old(reg.jobs)[id := ApplyAll(old(reg.jobs)[id], Ladder(run))]
              && reg.received == BroadcastAll(old(reg.received), old(reg.jobs)[id].listeners, Ladder(run), reg.broken)
    ensures followup == if Hung(run) then None else Some(if Succeeded(run) then AfterSuccess else AfterFailure)
  {
    ghost var jobs0, received0 := reg.jobs, reg.received;
    assert After(reg, jobs0, received0, id, []);
    Publish(reg, id, PreparingEvent, jobs0, received0, []);
    if run.prepare.Threw? {
      Publish(reg, id, ErrorEvent(run.prepare.message), jobs0, received0, [PreparingEvent]);
      assert [PreparingEvent] + [ErrorEvent(run.prepare.message)] == Ladder(run);
      return Some(AfterFailure);
    }
    if run.prepare.Hangs? {
      assert [] + [PreparingEvent] == Ladder(run);
      return None;
    }
    LadderStages(run);
    CaptureStage(reg, id, run, jobs0, received0, [PreparingEvent]);
    if !run.capture.Ok? {
      return if run.capture.Threw? then Some(AfterFailure) else None;
    }
    EncodeStage(reg, id, run, jobs0, received0, [PreparingEvent] + CaptureStageEvents(run));
    return if run.encode.Hangs? then None else if run.encode.Threw? then Some(AfterFailure) else Some(AfterSuccess);
  }

  /** The encode stage's outcome from how createVideo's promise settles. */
  function EncodeOutcome(settled: Encoder.Settlement): Outcome {
    match settled
    case Pending => Hangs
    case Rejected(message) => Threw(message)
    case Resolved(_) => Ok
  }

  /** Finding: with createVideo as written, a failing output-directory mkdir
      leaves the job at encoding forever: no complete or error update is
      published and no clean-up is scheduled. The corrected createVideo
      ends the same job in error with the wrapped mkdir message. */
  lemma MkdirFailureStallsJob(job: Job, captureReports: seq<int>, message: string,
                              events: seq<Encoder.FfmpegEvent>, totalFrames: real, outputPath: string, result: RenderResult)
    ensures var enc := Encoder.CreateVideoAsWritten(Some(message), events, totalFrames, outputPath);
            var run := Run(Ok, captureReports, Ok, enc.reports, EncodeOutcome(enc.settled), result);
            && Hung(run)
            && (forall i :: 0 <= i < |Ladder(run)| ==> !Terminal(Ladder(run)[i].stage))
            && ApplyAll(job, Ladder(run)).stage == Encoding
            && ApplyAll(job, Ladder(run)).progress == 80
    ensures var enc := Encoder.CreateVideo(Some(message), events, totalFrames, outputPath);
            var run := Run(Ok, captureReports, Ok, enc.reports, EncodeOutcome(enc.settled), result);
            && !Hung(run) && !Succeeded(run)
            && ApplyAll(job, Ladder(run)).stage == Error
            && ApplyAll(job, Ladder(run)).message == Failed(Encoder.EncodeError(message))
  {
    var enc := Encoder.CreateVideoAsWritten(Some(message), events, totalFrames, outputPath);
    var run := Run(Ok, captureReports, Ok, enc.reports, EncodeOutcome(enc.settled), result);
    LadderEnds(run);
    FinalJobState(job, run);
    var l := Ladder(run);
    assert EncodeEvents([]) == [];
    assert l[|l| - 1] == EncodingEvent;
    assert ApplyAll(job, l) == ApplyEvent(ApplyAll(job, l[..|l| - 1]), EncodingEvent);
    var enc' := Encoder.CreateVideo(Some(message), events, totalFrames, outputPath);
    FinalJobState(job, Run(Ok, captureReports, Ok, enc'.reports, EncodeOutcome(enc'.settled), result));
  }

  /** POST /: a rejected request leaves the registry as it was; an accepted
      one creates exactly the new record and answers with its id. */
  method Submit(reg: Registry, req: Request, id: JobId, startTime: int, maxDuration: int, maxFps: int)
    returns (response: Result<JobId, Rejection>)
    modifies reg
    ensures Validate(req, maxDuration, maxFps).Failure? ==>
              response == Failure(Validate(req, maxDuration, maxFps).error) && reg.jobs == old(reg.jobs)
    ensures Validate(req, maxDuration, maxFps).Success? ==>
              response == Success(id) && reg.jobs == old(reg.jobs)[id := NewJob(startTime)]
    ensures reg.received == old(reg.received) && reg.broken == old(reg.broken)
  {
    match Validate(req, maxDuration, maxFps)
    case Failure(e) =>
      return Failure(e);
    case Success(_) =>
      reg.Create(id, startTime);
      return Success(id);
  }
}
