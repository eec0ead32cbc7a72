# renderv render engine, modelled in Dafny

renderv turns an HTML/CSS/JS animation into an MP4 or GIF. A POST to the
render route is validated and creates a job record. The handler then loads
the page in a headless browser whose clock is virtual and screenshots it
frame by frame. Next it encodes the frames with ffmpeg and reports progress
to every server-sent-events stream subscribed to the job. A sweep deletes
old temporary and output files, and an optional bearer token guards the
routes.

This project models that core and proves what it promises:

| module | file | models |
|---|---|---|
| `JsNumbers` | jsnumbers.dfy | `Math.round`, `Math.ceil`, the `min(max(..))` clamp, and ToNumber's NaN as seen by `<` and `>` |
| `Text` | text.dfy | `String(n)`, `padStart`, printf's `%0Nd`, string `<`, `replace` with a string pattern, `toLowerCase` |
| `RenderRequest` | render_request.dfy | the resolution table and the five request checks, as written and as intended |
| `JobRegistry` | job_registry.dfy | the `jobs` map as class `Registry`: `updateProgress`, subscribe, close, the deferred delete |
| `Pipeline` | pipeline.dfy | the progress mappings, the ordered ladder of updates one job goes through, the POST handler |
| `VirtualClock` | virtual_clock.dfy | the injected clock as class `Clock`: timers, intervals, animation frames, `__advanceTime` |
| `Frames` | frames.dfy | `captureFrames`: frame count, times, names, throttled progress, the loop, failure paths |
| `Encoder` | encoder.dfy | `createVideo`: output name, input pattern, filters, progress normalisation, settlement |
| `Auth` | auth.dfy | the token middleware's decision: next, 401, or a throw answered with 500 |
| `Cleanup` | cleanup.dfy | `cleanupOldFiles` as class `Disk`: the two retention loops |

Modelling choices:

- **Numbers.** JavaScript numbers are exact rationals (`real`). `Math.round(x)` is `floor(x + 1/2)`. A request field after ToNumber is `Num = Finite(r) | NaN`.
- **Streams.** A progress stream is a `ListenerId`. `Registry.received` records what each stream has been sent, and `Registry.broken` holds the streams whose write throws.
- **Callbacks and messages.** Page callbacks are opaque tokens, and `Advance` returns the calls it makes, in order. The Arabic messages of the source are constructors of `Message`, or English prefixes on errors.
- **External calls.** Browser faults, ffmpeg's event stream, directory listings and per-entry failures are parameters. The same goes for `Date.now()`, `uuidv4()` and environment lookups.
- **Wall-clock timers.** The delayed deletions become explicit operations: `Registry.Reap` and `Disk.CleanupOldFiles`. `Pipeline.RunJob` returns the delays it would schedule, or none when the handler waits forever.

## Model

| member | source | states |
|---|---|---|
| JsNumbers.Round | backend/routes/render.js:199-200 | `Math.round` gives the integer within half a unit, a half rounding up |
| JsNumbers.Ceil | backend/services/puppeteer.js:184 | `Math.ceil` gives the least integer not below x |
| JsNumbers.Clamp | backend/services/ffmpeg.js:81 | the clamp lands in [lo, hi], keeps in-range values and sends values outside to the nearer bound |
| Text.PadStart | backend/services/puppeteer.js:165 | `padStart` keeps the string as the suffix, fills only on the left and reaches the width unless already longer |
| Text.PadStartIsZeroPadded | backend/services/ffmpeg.js:25 | `padStart(String(n), w, '0')` equals printf's `%0wd` for every n, wider numbers included |
| Text.FixedDigitsOrder | backend/services/puppeteer.js:165 | fixed-width digit strings are equal and ordered exactly as the numbers are |
| Text.IndexOf | backend/middleware/auth.js:13 | the first index where the pattern occurs; none when it never occurs |
| Text.IndexOfFindsContained | backend/middleware/auth.js:13 | `indexOf` finds an index exactly when the pattern occurs somewhere |
| Text.ReplaceFirst | backend/middleware/auth.js:13 | a string without the pattern comes back unchanged; in one with it, the first occurrence is replaced and everything before and after it is kept as it was |
| Text.Utf16Length | backend/routes/render.js:86 | `length` counts one unit per character of the Basic Multilingual Plane and two per character beyond it, so it equals the character count iff no character lies beyond |
| Text.AstralCountsTwice | backend/routes/render.js:86 | n characters beyond the Basic Multilingual Plane are 2n code units long |
| Auth.OpenWithoutExpectedToken | backend/middleware/auth.js:5-10 | with no token configured, every request passes |
| Auth.PresentedToken | backend/middleware/auth.js:2 | the token is the header, or the query parameter (a string, or an array or object) when the header is missing or empty |
| Auth.StripBearer | backend/middleware/auth.js:13 | a token without `Bearer ` is kept as it is; one with it loses exactly those seven characters |
| Auth.Authorize | backend/middleware/auth.js:5-22 | a request passes iff no token is configured (unset or empty), or a string token was presented and equals the configured one after the strip; it fails with 500 iff a token is configured and the presented token is an array or object, whose missing `replace` throws; otherwise 401 |
| Auth.HeaderTakesPrecedence | backend/middleware/auth.js:2 | a non-empty header decides alone, whatever the query parameter is, and never throws |
| Auth.QueryWhenHeaderEmpty | backend/middleware/auth.js:2-22 | an empty header is the same as none; a string query token then passes iff it equals the expected one after the strip |
| Auth.StructuredQueryThrows | backend/middleware/auth.js:2-13 | with a token configured and no header, a repeated or bracketed `token` parameter makes `replace` throw, so the request gets 500, not 401 |
| Auth.MissingTokenRejected | backend/middleware/auth.js:13-20 | with a token configured, a request presenting none is refused |
| Auth.StripFirstOccurrence | backend/middleware/auth.js:13 | only the first `Bearer ` is removed, wherever it stands; later ones stay |
| Auth.BearerFormAccepted | backend/middleware/auth.js:13-22 | `Bearer T` is accepted for T, from the header or the query |
| Auth.BareFormAccepted | backend/middleware/auth.js:13-22 | a bare T is accepted iff T does not itself contain `Bearer ` |
| Auth.MismatchRejected | backend/middleware/auth.js:15-20 | a token differing from the expected one after the strip gets 401 |
| RenderRequest.LookupResolution | backend/routes/render.js:15-19 | exactly the three table keys have a size, and every size is even |
| RenderRequest.Validate | backend/routes/render.js:86-106 | corrected validation: the first failing check, in order html, duration, resolution, fps, format, is the rejection (iff per check, format included); an accepted job carries exactly the request's duration, fps, resolution key and format, each in range |
| RenderRequest.CheckAsWritten | backend/routes/render.js:86-106 | as written: html is refused iff empty or over 500000 UTF-16 units; a request that passes has a table key or an inherited property as resolution, `MP4` or `GIF` as format, and any finite duration and fps within [1, limit] |
| RenderRequest.ConfiguredLimitsAdmitMinimum | backend/routes/render.js:90-102 | for any non-negative MAX_DURATION and MAX_FPS settings (missing, 0 or NaN fall back to 60), both limits are at least 1 and a 1 s, 1 fps request is accepted |
| RenderRequest.AstralHtmlLimit | backend/routes/render.js:86 | html made only of characters beyond the Basic Multilingual Plane is accepted iff it has at most 250000 of them, half the unit limit |
| RenderRequest.ValidateAgreesWithSource | backend/routes/render.js:86-106 | on numeric fields and own keys, the intended validation decides exactly as the source, with the same rejection |
| RenderRequest.DefaultsAccepted | backend/routes/render.js:75-83 | absent fields default to vertical HD, MP4, 15 s, 30 fps, and that request is accepted when its html is non-empty and within 500000 UTF-16 units |
| RenderRequest.InheritedResolutionAccepted | backend/routes/render.js:95-97 | as written, resolution `constructor` passes; the corrected check refuses it |
| RenderRequest.NaNDurationAccepted | backend/routes/render.js:90-102 | as written, a NaN duration or fps passes both range tests; the corrected check refuses it |
| JobRegistry.BroadcastLog | backend/routes/render.js:132-136 | a broadcast appends one copy per registration to every working stream and nothing elsewhere; a broken stream does not stop the others |
| JobRegistry.Apply | backend/routes/render.js:127-130 | an update sets progress, stage and message, replaces the result only when one is given, and keeps the listeners and start time |
| JobRegistry.Broadcast | backend/routes/render.js:132-136 | after the forEach, a stream has a log iff it had one or is a registered stream whose write works |
| JobRegistry.RemoveListener | backend/routes/render.js:62-63 | the splice leaves every other stream registered exactly as before |
| JobRegistry.IndexOfListener | backend/routes/render.js:62 | `indexOf` gives the first position of the stream, or -1 iff absent |
| JobRegistry.RemoveListenerSpec | backend/routes/render.js:61-64 | close splices out the first registration of the stream, keeping the others in their order, and changes nothing for an unregistered stream |
| JobRegistry.CloseTwiceIsCloseOnce | backend/routes/render.js:61-64 | after one close a once-registered stream is gone, and a second close is a no-op |
| JobRegistry.ClosedStreamReceivesNothing | backend/routes/render.js:61-64 | after close, later updates do not reach the stream |
| JobRegistry.Registry.constructor | backend/routes/render.js:22 | the job table starts empty |
| JobRegistry.Registry.Create | backend/routes/render.js:109-115 | exactly one record, at progress 0 and stage starting with no listeners, is added under the id |
| JobRegistry.Registry.UpdateProgress | backend/routes/render.js:124-138 | unknown id: nothing changes; else the record takes progress, stage and message, the result only when given, and the event goes to every listener |
| JobRegistry.Registry.Subscribe | backend/routes/render.js:43-58 | unknown job: one not-found event, nothing registered; else the stream is appended and sent a snapshot first |
| JobRegistry.Registry.Close | backend/routes/render.js:61-64 | the close handler removes the stream from the job's listeners, touching nothing else |
| JobRegistry.Registry.ConnectionLost | backend/routes/render.js:133-135 | a stream whose writes throw is marked broken, nothing else changes |
| JobRegistry.Registry.Reap | backend/routes/render.js:250-252 | the deferred delete removes that record only, if present |
| Pipeline.CaptureProgress | backend/routes/render.js:197-201 | capture percent p in [0,100] maps into [10,80], 0 to 10 and 100 to 80 |
| Pipeline.EncodeProgress | backend/routes/render.js:216-220 | encode percent p in [0,100] maps into [80,98], 0 to 80 and 100 to 98 |
| Pipeline.CaptureProgressMonotone | backend/routes/render.js:199-200 | the capture mapping never decreases |
| Pipeline.EncodeProgressMonotone | backend/routes/render.js:218-219 | the encode mapping never decreases |
| Pipeline.LadderEnds | backend/routes/render.js:140-262 | a job's updates start with preparing; they end in exactly one terminal update (complete with the result, or error with the first thrown message) unless a stage never settles, and then in none; a throwing or hanging stage cuts off every later stage, which fixes the number of updates |
| Pipeline.LadderBounds | backend/routes/render.js:142-256 | every update's progress is in [0,100], and it is 100 iff the update is complete |
| Pipeline.CaptureEventsRise | backend/routes/render.js:197-201 | rising capture percentages give rising updates within [10,80] |
| Pipeline.EncodeEventsRise | backend/routes/render.js:216-220 | rising encode percentages give rising updates within [80,98] |
| Pipeline.LadderNonDecreasing | backend/routes/render.js:142-240 | given rising capture and encode percentages, progress never falls before the last update, nor at all on success or when a stage never settles |
| Pipeline.CapturedRunRises | backend/routes/render.js:186-202 | a capture driven as captureFrames drives it, with rising encode percentages, yields a ladder that rises up to its last update, within [0,100] |
| Pipeline.DrivenRunRises | backend/routes/render.js:186-240 | with captureFrames' reports and createVideo's reports for an event stream that counts frames without going back, the ladder rises up to its last update, and throughout on success |
| Pipeline.LadderCanFall | backend/routes/render.js:216-220 | without frame counts it can fall: encoding reports of 50 then 2 publish 89 then 80 on a run that succeeds |
| Pipeline.ResultSurvives | backend/routes/render.js:130 | updates without a result keep the stored one |
| Pipeline.FinalJobState | backend/routes/render.js:140-256 | the final record is complete, 100, with the result; or error, 0, with the first error message and any earlier result; or, when a stage never settles, a non-terminal stage (encoding, for createVideo) with any earlier result |
| Pipeline.SubscriberSeesEveryUpdate | backend/routes/render.js:132-136 | a once-subscribed working stream receives every update, in order |
| Pipeline.PublishAll | backend/routes/render.js:127-138 | publishing a list of updates one by one leaves the table and every stream as publishing them all at once would |
| Pipeline.CaptureStage | backend/routes/render.js:186-202 | the capture stage publishes exactly 'capturing' at 10, one update per capture report, and an error update if the capture throws |
| Pipeline.EncodeStage | backend/routes/render.js:204-240 | the encode stage publishes exactly 'encoding' at 80, one update per encode report, then complete with the result or an error update, or nothing more when createVideo never settles |
| Pipeline.RunJob | backend/routes/render.js:140-262 | the handler publishes exactly the ladder through updateProgress; it schedules both deletions (10 s, 120 s) on success, deletes the session at once and never the record on failure, and schedules nothing when a stage never settles |
| Pipeline.MkdirFailureStallsJob | backend/services/ffmpeg.js:18-21 | with createVideo as written, a failing output mkdir leaves the job at encoding, progress 80, with no terminal update and no clean-up; with the corrected createVideo the job ends in error with the wrapped message |
| Pipeline.Submit | backend/routes/render.js:70-118 | under the corrected validation, a rejected request leaves the table alone and returns the rejection; an accepted one creates exactly the new record and returns its id |
| VirtualClock.Due | backend/services/puppeteer.js:106 | the due list holds only timers from the list due at or before the new time |
| VirtualClock.Kept | backend/services/puppeteer.js:107 | the kept list holds only timers from the list due after the new time |
| VirtualClock.PartitionByTime | backend/services/puppeteer.js:106-107 | due and kept together are the timer list, each timer in exactly one |
| VirtualClock.Rescheduled | backend/services/puppeteer.js:109-113 | only intervals are pushed back |
| VirtualClock.RescheduledExactlyOnce | backend/services/puppeteer.js:109-113 | a timer comes back iff it is a due interval pushed one period later; each due interval comes back exactly as often as it was due; a due timeout never comes back |
| VirtualClock.AdvanceKeepsIds | backend/services/puppeteer.js:96-113 | after an advance, timer ids stay unique and issued by the counter |
| VirtualClock.WithoutTimer | backend/services/puppeteer.js:85-86 | the filter keeps exactly the timers with another id |
| VirtualClock.WithoutTimerIds | backend/services/puppeteer.js:85-86 | clearing an id removes every timer with it and no other |
| VirtualClock.WithoutTimerUnknownId | backend/services/puppeteer.js:85-86 | clearing an id no timer has leaves the list unchanged |
| VirtualClock.WithoutFrame | backend/services/puppeteer.js:94 | the filter keeps exactly the frame requests with another id |
| VirtualClock.WithoutFrameIds | backend/services/puppeteer.js:94 | cancelling an id removes every request with it and no other |
| VirtualClock.WithoutFrameUnknownId | backend/services/puppeteer.js:94 | cancelling an id no request has leaves the queue unchanged |
| VirtualClock.SortByDue | backend/services/puppeteer.js:115 | the sort is a permutation of the due timers |
| VirtualClock.SortByDueSorted | backend/services/puppeteer.js:115 | the sorted timers are in non-decreasing due time |
| VirtualClock.DueKeepsOrder | backend/services/puppeteer.js:106 | the due filter keeps the list's order among timers due at the same time |
| VirtualClock.SortByDueStable | backend/services/puppeteer.js:115 | timers due at the same time keep registration order (stable sort) |
| VirtualClock.IntervalDoesNotCatchUp | backend/services/puppeteer.js:106-113 | example: an interval overdue by nine periods fires once and is pushed back one period only |
| VirtualClock.RunFrameCallbacks | backend/services/puppeteer.js:100-104 | each queued frame callback is called once, in order, with the new time |
| VirtualClock.PushBackIntervals | backend/services/puppeteer.js:109-113 | the new list is the kept timers followed by the pushed-back intervals |
| VirtualClock.RunTimers | backend/services/puppeteer.js:117-119 | each sorted due timer is called once, in order |
| VirtualClock.AdvanceFiresDueOnce | backend/services/puppeteer.js:106-119 | an advance calls exactly the due timers, each as often as listed, earliest first |
| VirtualClock.Clock.constructor | backend/services/puppeteer.js:53-57 | time 0, no timers, no frame requests, both counters at 1 |
| VirtualClock.Clock.AddTimer | backend/services/puppeteer.js:71-83 | a fresh id from the shared counter, due `now + delay`, appended; nothing else changes |
| VirtualClock.Clock.SetTimeout | backend/services/puppeteer.js:71-76 | setTimeout appends a one-shot timer under a fresh, increasing id |
| VirtualClock.Clock.SetInterval | backend/services/puppeteer.js:78-83 | setInterval appends an interval that remembers its period, from the same counter |
| VirtualClock.Clock.RemoveTimer | backend/services/puppeteer.js:85-86 | the timer list loses every timer with the id, of either kind |
| VirtualClock.Clock.ClearTimeout | backend/services/puppeteer.js:85 | clearTimeout removes the id's timers, intervals included |
| VirtualClock.Clock.ClearInterval | backend/services/puppeteer.js:86 | clearInterval removes the id's timers, timeouts included |
| VirtualClock.Clock.RequestAnimationFrame | backend/services/puppeteer.js:88-92 | a fresh id from the frame counter, appended to the frame queue |
| VirtualClock.Clock.CancelAnimationFrame | backend/services/puppeteer.js:94 | the frame queue loses every request with the id |
| VirtualClock.Clock.Advance | backend/services/puppeteer.js:96-119 | time becomes t, so `Now()` reads t; the frame queue is emptied after calling each once; due timers leave and intervals return one period later; due timers run sorted; the id counters are kept |
| Frames.FrameCount | backend/services/puppeteer.js:164 | the loop runs the least count of naturals not below duration * fps |
| Frames.FrameTimes | backend/services/puppeteer.js:164-166 | frame 0 is at 0; frames are 1000/fps apart and strictly increasing; each falls before the duration's end |
| Frames.FrameNameShape | backend/services/puppeteer.js:165 | a frame name is `frame_`, at least five decimal digits, then `.jpg` |
| Frames.FrameNameOrder | backend/services/puppeteer.js:165 | below 100000 frames, name order is index order |
| Frames.FrameNameInjective | backend/services/puppeteer.js:165 | no two frames share a name |
| Frames.FrameProgressBounds | backend/services/puppeteer.js:183 | frame progress is a percentage that grows with the index |
| Frames.LoopReportsRise | backend/services/puppeteer.js:183-186 | loop reports are rising percentages, none above the last frame's |
| Frames.FirstReportIsZero | backend/services/puppeteer.js:183-186 | frame 0 always reports 0 |
| Frames.LoopReportsCount | backend/services/puppeteer.js:183-186 | at most one report per frame; one per frame when the step is 1, none when it is 0 (`i % 0` is NaN) |
| Frames.AdvancePage | backend/services/puppeteer.js:168-170 | advancing the page does what `Clock.Advance` does: the time, the emptied frame queue, the kept and pushed-back timers, and the callbacks it runs, in order |
| Frames.ShootFrame | backend/services/puppeteer.js:164-179 | one iteration advances the clock to the frame's time with the whole effect of an advance (frame callbacks drained, due timers run in order, intervals rescheduled, id counters kept), then throws iff the screenshot fails |
| Frames.FrameLoop | backend/services/puppeteer.js:164-191 | the loop writes frames 0..k-1 and reports every step-th; it stops at a failing frame; on completion the clock is at the last frame's time, on failure at the failing frame's time |
| Frames.CaptureFrames | backend/services/puppeteer.js:10-208 | the frames written before the fault strikes; the loop's reports, then 100 iff it succeeds; the session directory, or the error wrapped; the browser closed once, twice if that close throws, never if launch failed |
| Frames.CaptureReportsRise | backend/services/puppeteer.js:183-196 | whatever fault occurs, captureFrames reports rising percentages |
| Frames.CaptureReportsEnd | backend/services/puppeteer.js:183-196 | a completed capture ends its reports with 100; a failed one reports at most once per frame it wrote |
| Encoder.ExtensionValues | backend/services/ffmpeg.js:23 | the extensions are `mp4` and `gif` |
| Encoder.NameParts | backend/services/ffmpeg.js:23 | an output name is `video_`, then the job id, `_`, the time stamp, `.` and the extension |
| Encoder.OutputFileNameInjective | backend/services/ffmpeg.js:23-24 | the output name determines job id, time stamp and format, so two renders never share a file |
| Encoder.OutputPathInjective | backend/services/ffmpeg.js:23-24 | in one output directory the resolved path determines job id, time stamp and format, so two jobs never write the same file |
| Encoder.InputPatternMatchesFrameNames | backend/services/ffmpeg.js:25 | `frame_%05d.jpg` expands for every i to the name the capture wrote for frame i |
| Encoder.ExpandLiteral | backend/services/ffmpeg.js:25 | characters other than a directive stand for themselves when ffmpeg expands the pattern |
| Encoder.PadToEven | backend/services/ffmpeg.js:51 | the padded size is even and at most one above the input |
| Encoder.PadToEvenIsLeast | backend/services/ffmpeg.js:51 | no smaller even size holds the input |
| Encoder.FilterOutcome | backend/services/ffmpeg.js:38-62 | an MP4 comes out at the least even size, so even table sizes are unchanged; a GIF keeps the size and generates its palette before using it |
| Encoder.NormalizePercent | backend/services/ffmpeg.js:72-81 | every progress report is within [0,99], and in-range values are kept |
| Encoder.PercentSources | backend/services/ffmpeg.js:72-78 | the frame count takes precedence, a zero or missing count falls back to `percent`, otherwise 0 |
| Encoder.NormalizeMonotoneInFrames | backend/services/ffmpeg.js:74-75 | more frames encoded never lowers the report |
| Encoder.RawPercentBounds | backend/services/ffmpeg.js:74-75 | counting between 1 and totalFrames frames gives a percentage in [0,100], exactly 100 at totalFrames |
| Encoder.HandleSettles | backend/services/ffmpeg.js:70-100 | the promise stays pending iff no end or error came; 100 is reported only by end, last, as it resolves with the path |
| Encoder.HandleRises | backend/services/ffmpeg.js:70-96 | when every progress event counts frames and the count never falls, the reports never fall and are percentages |
| Encoder.ReportsCanFall | backend/services/ffmpeg.js:74-78 | otherwise they can fall: ffmpeg's own 50 % followed by 10 of 450 frames reports 50, then 2 |
| Encoder.FirstTerminalDecides | backend/services/ffmpeg.js:92-100 | the first end or error decides: resolved with the path, or rejected with the wrapped message |
| Encoder.CreateVideo | backend/services/ffmpeg.js:17-21 | corrected: a failing mkdir rejects with the wrapped message; otherwise the ffmpeg events decide |
| Encoder.MkdirFailureNeverSettles | backend/services/ffmpeg.js:18-21 | as written, a failing mkdir leaves the promise pending even when ffmpeg would end; the corrected one rejects |
| Encoder.CreateVideoSettles | backend/services/ffmpeg.js:92-100 | with a working output directory, the promise settles on the first end or error, resolving iff it is an end |
| Cleanup.SweepRemovesExactlyExpired | backend/utils/cleanup.js:20-21 | without failures an entry goes iff `now - mtime > maxAge`: the boundary entry stays, and survivors keep their times |
| Cleanup.FailureIsLocal | backend/utils/cleanup.js:17-26 | a failing entry is kept, and the others are decided as if nothing failed |
| Cleanup.SweepIdempotent | backend/utils/cleanup.js:13-30 | a second sweep at the same time removes nothing more |
| Cleanup.LaterSweepRemovesMore | backend/utils/cleanup.js:5-21 | a sweep at a later time keeps a subset of what an earlier one keeps |
| Cleanup.Survivors | backend/utils/cleanup.js:15-27 | a pass only removes: every entry left was there with the same time, and every entry not yet expired is left |
| Cleanup.Disk.SweepTemp | backend/utils/cleanup.js:13-30 | the temp directory becomes its survivors under the 24 h limit; output is untouched |
| Cleanup.Disk.SweepOutput | backend/utils/cleanup.js:35-53 | the output directory becomes its survivors under the 7-day limit; temp is untouched |
| Cleanup.Disk.CleanupOldFiles | backend/utils/cleanup.js:4-60 | each directory is swept with one `now`, or left as it is when it cannot be listed, independently of the other |

## Left out

- Document templating (backend/routes/render.js:149-180): a fixed text template wrapped around the user's css, html and js. It is string concatenation with nothing to prove beyond it.
- Writing the page file, the session directory and its deferred or immediate removal (backend/routes/render.js:145, 182-183, 243-247, 259-261) are file-system I/O. `Pipeline.RunJob` returns the removal delays as a `Followup` instead.
- The result data's `processingTime` string, `fileSize` and file name (backend/routes/render.js:224-237) are inputs of `Pipeline.Run`, because they come from the clock and from `fs.stat`.
- Express routing, response codes, JSON bodies and the SSE `data:` framing are I/O. Streams are modelled by what they are sent.
- Puppeteer and Chromium: launch, viewport, `page.goto`, the font wait, the `sleep` delays and `page.screenshot`. A screenshot is the frame name appended to `Capture.shots`, and any of these calls can fail through `Frames.Fault`.
- DOM animation rewriting in `__advanceTime` (backend/services/puppeteer.js:121-131) depends on `getComputedStyle` and `getAnimations`, which are not modelled.
- VirtualClock.Clock.Advance: page callbacks are opaque. One that schedules or clears timers while the advance runs is not modelled, and neither is the `...args` forwarding beyond the callback token.
- fluent-ffmpeg, the codecs and the evaluation of the filters are external. Only the filter chain's shape and size arithmetic are modelled.
- Logging everywhere, including the `i % fps` progress log in the capture loop and the 20 % log in the encoder, is left out.
- Floating point: all arithmetic is exact, whereas JavaScript uses doubles. Infinite `duration` or `fps` values are not modelled.
- Frames.CaptureFrames: requires `fps > 0`, which the request validation guarantees for every numeric fps it accepts.
- Frames.FrameTimes: requires `fps > 0` for the same reason.
- Encoder.OutputFileNameInjective: requires job ids without `_`, which holds for the v4 UUIDs the route generates.
- Encoder.OutputPathInjective: the same requirement on job ids.
- Pipeline.RunJob: the capture and encode stages enter as a `Run` value (their reports and outcome: resolved, rejected, or never settling). `Pipeline.CapturedRunRises` ties its capture reports to `Frames.CaptureReports`, and `Pipeline.MkdirFailureStallsJob` ties a never-settling encode to createVideo as written.
- Pipeline.Submit: built on the corrected validation (`RenderRequest.Validate`), not on the check as written; `RenderRequest.CheckAsWritten` models the source's own decision, and the Findings table lists where the two differ.
- Pipeline.LadderNonDecreasing: assumes the encode percentages rise. createVideo gives that only when every progress event counts frames and the count never falls (`Encoder.HandleRises`); otherwise the published progress can fall (`Encoder.ReportsCanFall`, `Pipeline.LadderCanFall`). `Pipeline.DrivenRunRises` states the result without the assumption.
- Pipeline.CapturedRunRises: assumes the encode percentages rise, for the same reason as `Pipeline.LadderNonDecreasing`.
- The html size limit is on JavaScript's `length`, which counts UTF-16 code units; characters are modelled as code points and `Text.Utf16Length` counts two units for each beyond the Basic Multilingual Plane. Unpaired surrogates are not modelled.
- Request fields that are neither strings nor numbers (arrays, objects as `html`) are not modelled. `Num` covers what the range checks see. A numeric `html` (`html: 5`, say) passes the check at backend/routes/render.js:86 as written, because a number has no `length`; the model's `html` is always a string, so this case is not modelled.
- `path.join` normalisation is not modelled: paths are joined with `/`.
- Concurrency between jobs, and between an update and a subscription, is not modelled. Node runs handlers one at a time, and the model's operations are sequential.
- `scheduleCleanup` (backend/utils/cleanup.js:62-72) is a wall-clock `setInterval`. Each tick is one `Cleanup.Disk.CleanupOldFiles` call.
- The saved-projects routes, the frontend, server wiring and process configuration are not part of this model.

## Findings

| source | as written | input that shows it | evidently intended | confidence | as-written member | corrected member |
|---|---|---|---|---|---|---|
| backend/routes/render.js:95 | `!RESOLUTIONS[resolution]` also finds properties inherited from Object.prototype | `resolution: "constructor"` passes validation, and the job then has no width or height | only the three table keys are accepted | not executed | RenderRequest.InheritedResolutionAccepted | RenderRequest.Validate |
| backend/routes/render.js:91 | `duration < 1 \|\| duration > maxDuration` (and the same test on fps at line 100) is false for NaN | `duration: "abc"` passes validation | a value that is not a number in range is rejected | not executed | RenderRequest.NaNDurationAccepted | RenderRequest.Validate |
| backend/services/ffmpeg.js:18-21 | `mkdir` is awaited inside an `async` Promise executor, so its failure rejects the executor's own promise, not the one returned | an output directory that cannot be created | createVideo rejects and the job ends in error (as written the job stays in encoding with no terminal update, `Pipeline.MkdirFailureStallsJob`; on Node 15 or later the unobserved rejection ends the process, since backend/server.js installs no `unhandledRejection` handler) | not executed | Encoder.MkdirFailureNeverSettles | Encoder.CreateVideo |
