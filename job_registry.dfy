/** The in-memory table of render jobs and the fan-out of progress updates
    to the progress streams (server-sent events) subscribed to each job. */
module JobRegistry {
  import opened Wrappers
  import Text
  import RenderRequest

  /** A job identifier (a v4 UUID in the source). */
  type JobId = string

  /** An open progress stream: the route's response object for one
      GET /progress/:jobId connection. */
  type ListenerId = int

  datatype Stage = Starting | Preparing | Capturing | Encoding | Complete | Error

  /** The human-readable messages the route sends (Arabic text in the
      source), one constructor per message template. */
  datatype Message =
    | Queued
    | PreparingFiles
    | CapturingFrames
    | CapturePercent(capturePercent: int)
    | EncodingVideo
    | EncodePercent(encodePercent: int)
    | Finished
    | Failed(reason: string)
    | JobNotFound

  /** The `resultData` object of a finished job. */
  datatype RenderResult = RenderResult(
    fileName: string, processingMs: int, resolutionName: string,
    format: RenderRequest.Format, fileSize: nat)

  /** `/output/<fileName>`, where the finished file is served. */
  function DownloadUrl(r: RenderResult): string {
    "/output/" + r.fileName
  }

  /** One `data:` payload written to a progress stream. */
  datatype Event = Event(progress: int, stage: Stage, message: Message, result: Option<RenderResult>)

  /** A job record: its state and the streams currently subscribed to it. */
  datatype Job = Job(
    progress: int, stage: Stage, message: Message, result: Option<RenderResult>,
    listeners: seq<ListenerId>, startTime: int)

  /** The record an accepted request creates. */
  function NewJob(startTime: int): Job {
    Job(0, Starting, Queued, None, [], startTime)
  }

  /** What a new subscriber is sent first: the job's current state. */
  function Snapshot(job: Job): Event {
    Event(job.progress, job.stage, job.message, job.result)
  }

  /** What a stream for an unknown or reaped job is sent, and nothing after. */
  const NotFoundEvent := Event(0, Error, JobNotFound, None)

  /** The fields updateProgress writes: progress, stage and message always,
      the result only when one is passed, so an earlier result survives. */
  function Apply(job: Job, progress: int, stage: Stage, message: Message, result: Option<RenderResult>): (j: Job)
    ensures j.listeners == job.listeners && j.startTime == job.startTime
    ensures result.Some? ==> Snapshot(j) == Event(progress, stage, message, result)
    ensures result.None? ==> Snapshot(j) == Event(progress, stage, message, job.result)
  {
    job.(progress := progress, stage := stage, message := message,
         result := if result.Some? then result else job.result)
  }

  /** Everything written to stream l so far. */
  function Log(received: map<ListenerId, seq<Event>>, l: ListenerId): seq<Event> {
    if l in received then received[l] else []
  }

  /** One write of ev to stream l; a write to a broken stream throws, is
      caught, and leaves nothing behind. */
  function Deliver(received: map<ListenerId, seq<Event>>, l: ListenerId, ev: Event, broken: set<ListenerId>): map<ListenerId, seq<Event>> {
    if l in broken then received else received[l := Log(received, l) + [ev]]
  }

  /** The forEach over a job's listeners: ev written to each in turn. */
  function Broadcast(received: map<ListenerId, seq<Event>>, ls: seq<ListenerId>, ev: Event, broken: set<ListenerId>): (r: map<ListenerId, seq<Event>>)
    ensures forall k :: k in r <==> k in received || (k in ls && k !in broken)
    decreases |ls|
  {
    if ls == [] then received
    else
      var front := ls[..|ls| - 1];
      assert forall k :: k in ls <==> k in front || k == ls[|ls| - 1] by {
        assert ls == front + [ls[|ls| - 1]];
      }
      Deliver(Broadcast(received, front, ev, broken), ls[|ls| - 1], ev, broken)
  }

  /** A broadcast gives every stream that is not broken one copy of ev per
      time it is listed, and changes nothing for any other stream: a broken
      stream does not stop delivery to the rest, and a stream that has been
      closed receives nothing. */
  lemma {:induction false} BroadcastLog(received: map<ListenerId, seq<Event>>, ls: seq<ListenerId>, ev: Event, broken: set<ListenerId>, k: ListenerId)
    ensures Log(Broadcast(received, ls, ev, broken), k)
         == Log(received, k) + (if k in broken then [] else Text.Fill(ev, multiset(ls)[k]))
    decreases |ls|
  {
    if ls == [] {
      assert Log(received, k) + [] == Log(received, k);
    } else {
      var front, last := ls[..|ls| - 1], ls[|ls| - 1];
      var b, n := Broadcast(received, front, ev, broken), multiset(front)[k];
      CountSnoc(ls, k);
      BroadcastLog(received, front, ev, broken, k);
      DeliverLog(b, last, ev, broken, k);
      if k in broken {
        assert Log(b, k) == Log(received, k) + [];
      } else if k == last {
        FillSnoc(ev, n);
        assert Log(received, k) + Text.Fill(ev, n) + [ev] == Log(received, k) + Text.Fill(ev, n + 1);
      }
    }
  }

  lemma CountSnoc(ls: seq<ListenerId>, k: ListenerId)
    requires ls != []
    ensures multiset(ls)[k] == multiset(ls[..|ls| - 1])[k] + (if k == ls[|ls| - 1] then 1 else 0)
  {
    assert ls == ls[..|ls| - 1] + [ls[|ls| - 1]];
  }

  lemma FillSnoc(ev: Event, n: nat)
    ensures Text.Fill(ev, n + 1) == Text.Fill(ev, n) + [ev]
  {
  }

  /** One write reaches stream l only, unless it is broken. */
  lemma DeliverLog(received: map<ListenerId, seq<Event>>, l: ListenerId, ev: Event, broken: set<ListenerId>, k: ListenerId)
    ensures Log(Deliver(received, l, ev, broken), k)
         == Log(received, k) + (if k == l && k !in broken then [ev] else [])
  {
  }

  /** `listeners.indexOf(l)`: the first position of l, or -1. */
  function IndexOfListener(ls: seq<ListenerId>, l: ListenerId): (i: int)
    ensures -1 <= i < |ls|
    ensures i == -1 <==> l !in ls
    ensures i >= 0 ==> ls[i] == l && l !in ls[..i]
  {
    if ls == [] then -1
    else if ls[0] == l then 0
    else
      var i := IndexOfListener(ls[1..], l);
      assert i >= 0 ==> ls[1..][..i] == ls[1..i + 1];
      if i == -1 then -1 else i + 1
  }

  /** The close handler's `indexOf` and `splice(idx, 1)`. */
  function RemoveListener(ls: seq<ListenerId>, l: ListenerId): (r: seq<ListenerId>)
    ensures forall x :: x != l ==> (x in r <==> x in ls)
  {
    var idx := IndexOfListener(ls, l);
    if idx > -1 then
      assert ls == ls[..idx] + [l] + ls[idx + 1..];
      ls[..idx] + ls[idx + 1..]
    else ls
  }

  /** Closing removes one registration of the stream and keeps the others
      and their order; closing a stream that is not registered changes
      nothing. */
  lemma {:induction false} RemoveListenerSpec(ls: seq<ListenerId>, l: ListenerId)
    ensures multiset(RemoveListener(ls, l)) == multiset(ls) - multiset{l}
    ensures l !in ls ==> RemoveListener(ls, l) == ls
    ensures l in ls ==> |RemoveListener(ls, l)| == |ls| - 1
    ensures l in ls ==> exists i :: 0 <= i < |ls| && ls[i] == l && l !in ls[..i]
                                    && RemoveListener(ls, l) == ls[..i] + ls[i + 1..]
  {
    var idx := IndexOfListener(ls, l);
    if idx > -1 {
      SpliceMultiset(ls, idx);
      assert RemoveListener(ls, l) == ls[..idx] + ls[idx + 1..];
    } else {
      assert multiset(ls)[l] == 0;
      assert multiset(ls) - multiset{l} == multiset(ls);
    }
  }

  /** `splice(idx, 1)` takes out one occurrence of the element at idx. */
  lemma SpliceMultiset(ls: seq<ListenerId>, idx: nat)
    requires idx < |ls|
    ensures multiset(ls[..idx] + ls[idx + 1..]) == multiset(ls) - multiset{ls[idx]}
  {
    var before, after := ls[..idx], ls[idx + 1..];
    assert ls == before + [ls[idx]] + after;
    assert multiset(ls) == multiset(before) + multiset{ls[idx]} + multiset(after);
  }

  /** A stream subscribed once is gone after one close, and a second close
      is a no-op. */
  lemma CloseTwiceIsCloseOnce(ls: seq<ListenerId>, l: ListenerId)
    requires multiset(ls)[l] <= 1
    ensures l !in RemoveListener(ls, l)
    ensures RemoveListener(RemoveListener(ls, l), l) == RemoveListener(ls, l)
  {
    RemoveListenerSpec(ls, l);
    assert multiset(RemoveListener(ls, l))[l] == 0;
    RemoveListenerSpec(RemoveListener(ls, l), l);
  }

  /** The job table together with the streams' side: what each stream has
      been sent, and which streams are broken (their write throws). */
  class Registry {
    var jobs: map<JobId, Job>
    var received: map<ListenerId, seq<Event>>
    var broken: set<ListenerId>

    constructor()
      ensures jobs == map[] && received == map[] && broken == {}
    {
      jobs, received, broken := map[], map[], {};
    }

    /** `jobs.set(jobId, {...})` for an accepted request: exactly one entry,
        under id, is added (or replaced); the others are unchanged. */
    method Create(id: JobId, startTime: int)
      modifies this
      ensures jobs == old(jobs)[id := NewJob(startTime)]
      ensures received == old(received) && broken == old(broken)
    {
      jobs := jobs[id := NewJob(startTime)];
    }

    /** updateProgress: a no-op for an unknown job; otherwise the record is
        updated and the update is written to every current listener, a
        failing write being caught so that the rest still receive it. */
    method UpdateProgress(id: JobId, progress: int, stage: Stage, message: Message, result: Option<RenderResult>)
      modifies this
      ensures broken == old(broken)
      ensures id !in old(jobs) ==> jobs == old(jobs) && received == old(received)
      ensures id in old(jobs) ==>
                && jobs == old(jobs)[id := Apply(old(jobs)[id], progress, stage, message, result)]
                && received == Broadcast(old(received), old(jobs)[id].listeners,
                                         Event(progress, stage, message, result), broken)
    {
      if id in jobs {
        var job := jobs[id];
        jobs := jobs[id := Apply(job, progress, stage, message, result)];
        var ev := Event(progress, stage, message, result);
        var ls := job.listeners;
        var i := 0;
        while i < |ls|
          invariant 0 <= i <= |ls|
          invariant received == Broadcast(old(received), ls[..i], ev, broken)
          invariant jobs == old(jobs)[id := Apply(job, progress, stage, message, result)]
          invariant broken == old(broken)
        {
          var l := ls[i];
          if l !in broken {
            received := received[l := Log(received, l) + [ev]];
          }
          assert ls[..i + 1] == ls[..i] + [l];
          i := i + 1;
        }
        assert ls[..i] == ls;
      }
    }

    /** GET /progress/:jobId. For an unknown job: one not-found event and
        nothing registered. Otherwise the stream is appended to the job's
        listeners and sent the current state. */
    method Subscribe(id: JobId, l: ListenerId) returns (found: bool)
      modifies this
      ensures found <==> id in old(jobs)
      ensures broken == old(broken)
      ensures !found ==> jobs == old(jobs) && received == Deliver(old(received), l, NotFoundEvent, broken)
      ensures found ==>
                && jobs == old(jobs)[id := old(jobs)[id].(listeners := old(jobs)[id].listeners + [l])]
                && received == Deliver(old(received), l, Snapshot(old(jobs)[id]), broken)
    {
      if id !in jobs {
        received := Deliver(received, l, NotFoundEvent, broken);
        return false;
      }
      var job := jobs[id];
      jobs := jobs[id := job.(listeners := job.listeners + [l])];
      received := Deliver(received, l, Snapshot(job), broken);
      return true;
    }

    /** The `close` handler of a subscribed stream: the stream is removed
        from the job's listeners if it is there. */
    method Close(id: JobId, l: ListenerId)
      modifies this
      ensures id in old(jobs) ==>
                jobs == old(jobs)[id := old(jobs)[id].(listeners := RemoveListener(old(jobs)[id].listeners, l))]
      ensures id !in old(jobs) ==> jobs == old(jobs)
      ensures received == old(received) && broken == old(broken)
    {
      if id in jobs {
        var job := jobs[id];
        jobs := jobs[id := job.(listeners := RemoveListener(job.listeners, l))];
      }
    }

    /** The connection behind stream l breaks: later writes to it throw. */
    method ConnectionLost(l: ListenerId)
      modifies this
      ensures broken == old(broken) + {l}
      ensures jobs == old(jobs) && received == old(received)
    {
      broken := broken + {l};
    }

    /** The deferred `jobs.delete(jobId)`: the record is removed if still
        there, the other records are kept. */
    method Reap(id: JobId)
      modifies this
      ensures jobs == old(jobs) - {id}
      ensures received == old(received) && broken == old(broken)
    {
      if id in jobs {
        jobs := jobs - {id};
      }
    }
  }

  /** After a close, later updates do not reach the closed stream (when it
      had been subscribed once), and other streams still receive them. */
  lemma ClosedStreamReceivesNothing(received: map<ListenerId, seq<Event>>, ls: seq<ListenerId>, l: ListenerId, ev: Event, broken: set<ListenerId>)
    requires multiset(ls)[l] <= 1
    ensures Log(Broadcast(received, RemoveListener(ls, l), ev, broken), l) == Log(received, l)
  {
    CloseTwiceIsCloseOnce(ls, l);
    BroadcastLog(received, RemoveListener(ls, l), ev, broken, l);
    assert multiset(RemoveListener(ls, l))[l] == 0;
    assert Text.Fill(ev, 0) == [];
  }
}
