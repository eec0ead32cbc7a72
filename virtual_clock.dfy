/** The virtual clock installed in the page before its scripts run: time
    stands still except when the capture loop advances it, and timers,
    intervals and animation-frame callbacks fire only then. */
module VirtualClock {

  /** A page callback, together with the extra arguments given when it was
      registered. What it does when called is the page's business. */
  type Callback = int

  datatype TimerKind = Timeout | Interval(delay: real)

  /** An entry of the timer list: one setTimeout or setInterval. */
  datatype Timer = Timer(id: int, callback: Callback, executeAt: real, kind: TimerKind)

  /** An entry of the animation-frame list. */
  datatype FrameRequest = FrameRequest(id: int, callback: Callback)

  /** One callback invocation: animation-frame callbacks receive the new
      time, timer callbacks their registered arguments. */
  datatype Call = FrameCall(callback: Callback, time: real) | TimerCall(callback: Callback)

  function TimerIds(s: seq<Timer>): (ids: seq<int>)
    ensures |ids| == |s|
    ensures forall i :: 0 <= i < |s| ==> ids[i] == s[i].id
  {
    seq(|s|, i requires 0 <= i < |s| => s[i].id)
  }

  function FrameIds(s: seq<FrameRequest>): (ids: seq<int>)
    ensures |ids| == |s|
    ensures forall i :: 0 <= i < |s| ==> ids[i] == s[i].id
  {
    seq(|s|, i requires 0 <= i < |s| => s[i].id)
  }

  lemma TimerIdsAppend(a: seq<Timer>, b: seq<Timer>)
    ensures TimerIds(a + b) == TimerIds(a) + TimerIds(b)
  {
    assert TimerIds(a + b) == TimerIds(a) + TimerIds(b);
  }

  lemma FrameIdsAppend(a: seq<FrameRequest>, b: seq<FrameRequest>)
    ensures FrameIds(a + b) == FrameIds(a) + FrameIds(b)
  {
    assert FrameIds(a + b) == FrameIds(a) + FrameIds(b);
  }

  /** No id is listed twice. */
  predicate Unique(ids: seq<int>) {
    forall v :: v in multiset(ids) ==> multiset(ids)[v] <= 1
  }

  /** Every id was handed out by a counter now at `next`. */
  predicate IdsBelow(ids: seq<int>, next: int) {
    forall v :: v in ids ==> 1 <= v < next
  }

  lemma FreshId(ids: seq<int>, next: int)
    requires IdsBelow(ids, next)
    ensures next !in ids && next !in multiset(ids)
  {
  }

  lemma UniqueAppend(ids: seq<int>, v: int)
    requires Unique(ids) && v !in multiset(ids)
    ensures Unique(ids + [v])
  {
    assert multiset(ids + [v]) == multiset(ids) + multiset{v};
  }

  /** Fewer occurrences of every id keep the ids unique and below the
      counter. */
  lemma SubIds(a: seq<int>, b: seq<int>, next: int)
    requires multiset(a) <= multiset(b)
    requires Unique(b) && IdsBelow(b, next)
    ensures Unique(a) && IdsBelow(a, next)
  {
    forall v | v in a ensures 1 <= v < next {
      assert v in multiset(a);
      assert v in multiset(b);
      assert v in b;
    }
    forall v | v in multiset(a) ensures multiset(a)[v] <= 1 {
      assert v in multiset(b);
    }
  }

  /** `timers.filter(t => t.executeAt <= newTime)`. */
  function Due(s: seq<Timer>, t: real): (r: seq<Timer>)
    ensures forall x :: x in r ==> x in s && x.executeAt <= t
  {
    if s == [] then []
    else Due(s[..|s| - 1], t) + (if s[|s| - 1].executeAt <= t then [s[|s| - 1]] else [])
  }

  /** `timers.filter(t => t.executeAt > newTime)`. */
  function Kept(s: seq<Timer>, t: real): (r: seq<Timer>)
    ensures forall x :: x in r ==> x in s && x.executeAt > t
  {
    if s == [] then []
    else Kept(s[..|s| - 1], t) + (if s[|s| - 1].executeAt > t then [s[|s| - 1]] else [])
  }

  /** `t.executeAt += t.delay` on a due interval: the same timer, one
      period later. */
  function Pushed(x: Timer): Timer
    requires x.kind.Interval?
  {
    x.(executeAt := x.executeAt + x.kind.delay)
  }

  /** The copies of the due intervals pushed back, one period later, in the
      order the due list had before sorting. */
  function Rescheduled(due: seq<Timer>): (r: seq<Timer>)
    ensures forall i :: 0 <= i < |r| ==> r[i].kind.Interval?
  {
    if due == [] then []
    else
      var x := due[|due| - 1];
      Rescheduled(due[..|due| - 1])
        + (if x.kind.Interval? then [Pushed(x)] else [])
  }

  /** `timers.filter(t => t.id !== id)`. */
  function WithoutTimer(s: seq<Timer>, id: int): (r: seq<Timer>)
    ensures forall x :: x in r <==> x in s && x.id != id
  {
    if s == [] then []
    else WithoutTimer(s[..|s| - 1], id) + (if s[|s| - 1].id != id then [s[|s| - 1]] else [])
  }

  /** `rafCallbacks.filter(r => r.id !== id)`. */
  function WithoutFrame(s: seq<FrameRequest>, id: int): (r: seq<FrameRequest>)
    ensures forall x :: x in r <==> x in s && x.id != id
  {
    if s == [] then []
    else WithoutFrame(s[..|s| - 1], id) + (if s[|s| - 1].id != id then [s[|s| - 1]] else [])
  }

  /** Every timer is either due or kept, never both, never dropped. */
  lemma {:induction false} PartitionByTime(s: seq<Timer>, t: real)
    ensures multiset(Due(s, t)) + multiset(Kept(s, t)) == multiset(s)
  {
    if s != [] {
      var front, x := s[..|s| - 1], s[|s| - 1];
      assert s == front + [x];
      PartitionByTime(front, t);
      if x.executeAt <= t {
        assert Due(s, t) == Due(front, t) + [x];
        assert Kept(s, t) == Kept(front, t);
      } else {
        assert Due(s, t) == Due(front, t);
        assert Kept(s, t) == Kept(front, t) + [x];
      }
    }
  }

  lemma {:induction false} PartitionIds(s: seq<Timer>, t: real)
    ensures multiset(TimerIds(Kept(s, t))) + multiset(TimerIds(Due(s, t))) == multiset(TimerIds(s))
  {
    if s != [] {
      var front, x := s[..|s| - 1], s[|s| - 1];
      assert s == front + [x];
      PartitionIds(front, t);
      TimerIdsAppend(front, [x]);
      if x.executeAt <= t {
        assert Due(s, t) == Due(front, t) + [x];
        assert Kept(s, t) == Kept(front, t);
        TimerIdsAppend(Due(front, t), [x]);
      } else {
        assert Due(s, t) == Due(front, t);
        assert Kept(s, t) == Kept(front, t) + [x];
        TimerIdsAppend(Kept(front, t), [x]);
      }
    }
  }

  /** The timer list an advance leaves keeps its ids unique and issued. */
  lemma AdvanceKeepsIds(s: seq<Timer>, t: real, next: int)
    requires Unique(TimerIds(s)) && IdsBelow(TimerIds(s), next)
    ensures Unique(TimerIds(Kept(s, t) + Rescheduled(Due(s, t))))
    ensures IdsBelow(TimerIds(Kept(s, t) + Rescheduled(Due(s, t))), next)
  {
    PartitionIds(s, t);
    RescheduledIds(Due(s, t));
    TimerIdsAppend(Kept(s, t), Rescheduled(Due(s, t)));
    SubIds(TimerIds(Kept(s, t) + Rescheduled(Due(s, t))), TimerIds(s), next);
  }

  lemma {:induction false} RescheduledIds(due: seq<Timer>)
    ensures multiset(TimerIds(Rescheduled(due))) <= multiset(TimerIds(due))
  {
    if due != [] {
      var front, x := due[..|due| - 1], due[|due| - 1];
      assert due == front + [x];
      RescheduledLast(front, x);
      RescheduledIds(front);
      TimerIdsAppend(front, [x]);
    }
  }

  /** The rescheduling's last step, on ids. */
  lemma RescheduledLast(front: seq<Timer>, x: Timer)
    ensures TimerIds(Rescheduled(front + [x])) == TimerIds(Rescheduled(front)) + (if x.kind.Interval? then [x.id] else [])
  {
    var s := front + [x];
    assert s[..|s| - 1] == front;
    TimerIdsAppend(Rescheduled(front), if x.kind.Interval? then [Pushed(x)] else []);
  }

  /** Every due interval comes back exactly as often as it was due, one
      period later, with its id, callback and period kept; nothing else
      comes back, so a due one-shot timer is gone. */
  lemma RescheduledExactlyOnce(due: seq<Timer>)
    ensures forall x :: x in Rescheduled(due) <==> exists y :: y in due && y.kind.Interval? && x == Pushed(y)
    ensures forall y: Timer :: y.kind.Interval? ==> multiset(Rescheduled(due))[Pushed(y)] == multiset(due)[y]
    ensures forall y :: y in due && y.kind.Timeout? ==> y !in Rescheduled(due)
  {
    RescheduledCounts(due);
    RescheduledFrom(due);
    forall y | y in due && y.kind.Interval? ensures Pushed(y) in Rescheduled(due) {
      assert y in multiset(due);
      assert Pushed(y) in multiset(Rescheduled(due));
    }
  }

  lemma {:induction false} RescheduledCounts(due: seq<Timer>)
    ensures forall y: Timer :: y.kind.Interval? ==> multiset(Rescheduled(due))[Pushed(y)] == multiset(due)[y]
  {
    if due != [] {
      var front, x := due[..|due| - 1], due[|due| - 1];
      RescheduledCounts(front);
      DueSnoc(due);
      RescheduledSnoc(due);
      var tail := if x.kind.Interval? then [Pushed(x)] else [];
      forall y: Timer | y.kind.Interval?
        ensures multiset(Rescheduled(due))[Pushed(y)] == multiset(due)[y]
      {
        var c := if x == y then 1 else 0;
        assert multiset(tail)[Pushed(y)] == c by {
          if x.kind.Interval? && Pushed(x) == Pushed(y) {
            PushedInjective(x, y);
          }
        }
        assert multiset(due)[y] == multiset(front)[y] + c;
      }
    }
  }

  lemma DueSnoc(due: seq<Timer>)
    requires due != []
    ensures multiset(due) == multiset(due[..|due| - 1]) + multiset{due[|due| - 1]}
  {
    assert due == due[..|due| - 1] + [due[|due| - 1]];
  }

  /** Rescheduling the due timers, as multisets, one timer at a time. */
  lemma RescheduledSnoc(due: seq<Timer>)
    requires due != []
    ensures var x := due[|due| - 1];
            multiset(Rescheduled(due))
            == multiset(Rescheduled(due[..|due| - 1])) + multiset(if x.kind.Interval? then [Pushed(x)] else [])
  {
  }

  lemma PushedInjective(x: Timer, y: Timer)
    requires x.kind.Interval? && y.kind.Interval? && Pushed(x) == Pushed(y)
    ensures x == y
  {
    assert x.kind == y.kind;
  }

  lemma {:induction false} RescheduledFrom(due: seq<Timer>)
    ensures forall x :: x in Rescheduled(due) ==> exists y :: y in due && y.kind.Interval? && x == Pushed(y)
  {
    if due != [] {
      var front, last := due[..|due| - 1], due[|due| - 1];
      RescheduledFrom(front);
      forall x | x in Rescheduled(due) ensures exists y :: y in due && y.kind.Interval? && x == Pushed(y) {
        if x in Rescheduled(front) {
          var y :| y in front && y.kind.Interval? && x == Pushed(y);
          assert y in due;
        } else {
          assert last in due;
        }
      }
    }
  }

  /** A non-empty sequence is its front followed by its last element. */
  lemma SplitLast<T>(s: seq<T>)
    requires s != []
    ensures s == s[..|s| - 1] + [s[|s| - 1]]
  {
  }

  /** Clearing an id that no timer has changes nothing. */
  lemma WithoutTimerUnknownId(s: seq<Timer>, id: int)
    requires id !in TimerIds(s)
    ensures WithoutTimer(s, id) == s
  {
    assert forall i :: 0 <= i < |s| ==> s[i].id != id by {
      forall i | 0 <= i < |s| ensures s[i].id != id {
        assert TimerIds(s)[i] == s[i].id;
      }
    }
    WithoutTimerNoMatch(s, id);
  }

  lemma {:induction false} WithoutTimerNoMatch(s: seq<Timer>, id: int)
    requires forall i :: 0 <= i < |s| ==> s[i].id != id
    ensures WithoutTimer(s, id) == s
  {
    if s != [] {
      var front, last := s[..|s| - 1], s[|s| - 1];
      WithoutTimerNoMatch(front, id);
      SplitLast(s);
      assert WithoutTimer(s, id) == front + [last];
    }
  }

  /** Cancelling an id that no frame request has changes nothing. */
  lemma WithoutFrameUnknownId(s: seq<FrameRequest>, id: int)
    requires id !in FrameIds(s)
    ensures WithoutFrame(s, id) == s
  {
    assert forall i :: 0 <= i < |s| ==> s[i].id != id by {
      forall i | 0 <= i < |s| ensures s[i].id != id {
        assert FrameIds(s)[i] == s[i].id;
      }
    }
    WithoutFrameNoMatch(s, id);
  }

  lemma {:induction false} WithoutFrameNoMatch(s: seq<FrameRequest>, id: int)
    requires forall i :: 0 <= i < |s| ==> s[i].id != id
    ensures WithoutFrame(s, id) == s
  {
    if s != [] {
      var front, last := s[..|s| - 1], s[|s| - 1];
      WithoutFrameNoMatch(front, id);
      SplitLast(s);
      assert WithoutFrame(s, id) == front + [last];
    }
  }

  /** Clearing an id removes every timer with it and no other. */
  lemma {:induction false} WithoutTimerIds(s: seq<Timer>, id: int)
    ensures multiset(TimerIds(WithoutTimer(s, id))) == multiset(TimerIds(s))[id := 0]
  {
    if s != [] {
      var front := s[..|s| - 1];
      WithoutTimerIds(front, id);
      WithoutTimerLast(s, id);
      ZeroedSnoc(TimerIds(front), TimerIds(WithoutTimer(front, id)), s[|s| - 1].id, id);
    }
  }

  /** Dropping every id from a list, one more entry at a time. */
  lemma ZeroedSnoc(a: seq<int>, b: seq<int>, v: int, id: int)
    requires multiset(b) == multiset(a)[id := 0]
    ensures multiset(b + (if v != id then [v] else [])) == multiset(a + [v])[id := 0]
  {
    assert multiset(a + [v]) == multiset(a) + multiset{v};
    if v == id {
      assert b + [] == b;
    } else {
      assert multiset(b + [v]) == multiset(b) + multiset{v};
    }
  }

  /** The filter's last step, on ids. */
  lemma WithoutTimerLast(s: seq<Timer>, id: int)
    requires s != []
    ensures TimerIds(WithoutTimer(s, id)) == TimerIds(WithoutTimer(s[..|s| - 1], id)) + (if s[|s| - 1].id != id then [s[|s| - 1].id] else [])
    ensures TimerIds(s) == TimerIds(s[..|s| - 1]) + [s[|s| - 1].id]
  {
    var x := s[|s| - 1];
    TimerIdsAppend(WithoutTimer(s[..|s| - 1], id), if x.id != id then [x] else []);
    TimerIdsSnoc(s);
  }

  lemma TimerIdsSnoc(s: seq<Timer>)
    requires s != []
    ensures TimerIds(s) == TimerIds(s[..|s| - 1]) + [s[|s| - 1].id]
  {
    assert s == s[..|s| - 1] + [s[|s| - 1]];
    TimerIdsAppend(s[..|s| - 1], [s[|s| - 1]]);
  }

  /** Cancelling an id removes every frame request with it and no other. */
  lemma {:induction false} WithoutFrameIds(s: seq<FrameRequest>, id: int)
    ensures multiset(FrameIds(WithoutFrame(s, id))) == multiset(FrameIds(s))[id := 0]
  {
    if s != [] {
      var front := s[..|s| - 1];
      WithoutFrameIds(front, id);
      WithoutFrameLast(s, id);
      ZeroedSnoc(FrameIds(front), FrameIds(WithoutFrame(front, id)), s[|s| - 1].id, id);
    }
  }

  /** The filter's last step, on ids. */
  lemma WithoutFrameLast(s: seq<FrameRequest>, id: int)
    requires s != []
    ensures FrameIds(WithoutFrame(s, id)) == FrameIds(WithoutFrame(s[..|s| - 1], id)) + (if s[|s| - 1].id != id then [s[|s| - 1].id] else [])
    ensures FrameIds(s) == FrameIds(s[..|s| - 1]) + [s[|s| - 1].id]
  {
    var x := s[|s| - 1];
    FrameIdsAppend(WithoutFrame(s[..|s| - 1], id), if x.id != id then [x] else []);
    FrameIdsSnoc(s);
  }

  lemma FrameIdsSnoc(s: seq<FrameRequest>)
    requires s != []
    ensures FrameIds(s) == FrameIds(s[..|s| - 1]) + [s[|s| - 1].id]
  {
    assert s == s[..|s| - 1] + [s[|s| - 1]];
    FrameIdsAppend(s[..|s| - 1], [s[|s| - 1]]);
  }

  predicate SortedByDue(s: seq<Timer>) {
    forall i, j :: 0 <= i < j < |s| ==> s[i].executeAt <= s[j].executeAt
  }

  /** x placed before the first entry that is not earlier than it. */
  function Insert(x: Timer, s: seq<Timer>): (r: seq<Timer>)
    ensures multiset(r) == multiset(s) + multiset{x}
    ensures |r| == |s| + 1
  {
    if s == [] || x.executeAt <= s[0].executeAt then [x] + s
    else
      assert s == [s[0]] + s[1..];
      [s[0]] + Insert(x, s[1..])
  }

  /** `timersToExecute.sort((a, b) => a.executeAt - b.executeAt)`: a stable
      sort by due time, as Array.prototype.sort is. */
  function SortByDue(s: seq<Timer>): (r: seq<Timer>)
    ensures multiset(r) == multiset(s)
  {
    if s == [] then []
    else
      assert s == [s[0]] + s[1..];
      Insert(s[0], SortByDue(s[1..]))
  }

  lemma {:induction false} InsertSorted(x: Timer, s: seq<Timer>)
    requires SortedByDue(s)
    ensures SortedByDue(Insert(x, s))
    ensures Insert(x, s)[0] == x || Insert(x, s)[0] == s[0]
  {
    if s != [] && x.executeAt > s[0].executeAt {
      InsertSorted(x, s[1..]);
      var r := Insert(x, s[1..]);
      assert s[0].executeAt <= r[0].executeAt;
      ConsSorted(s[0], r);
    }
  }

  /** An entry no later than the head of a sorted list stays sorted in front of it. */
  lemma ConsSorted(h: Timer, r: seq<Timer>)
    requires SortedByDue(r)
    requires r != [] ==> h.executeAt <= r[0].executeAt
    ensures SortedByDue([h] + r)
  {
    var t := [h] + r;
    forall i, j | 0 <= i < j < |t| ensures t[i].executeAt <= t[j].executeAt {
      if i == 0 && j > 1 {
        assert t[j] == r[j - 1];
        assert r[0].executeAt <= r[j - 1].executeAt;
      }
    }
  }

  /** The sort orders the due timers by due time. */
  lemma {:induction false} SortByDueSorted(s: seq<Timer>)
    ensures SortedByDue(SortByDue(s))
  {
    if s != [] {
      SortByDueSorted(s[1..]);
      InsertSorted(s[0], SortByDue(s[1..]));
    }
  }

  /** The entries due at exactly time k, in order. */
  function AtTime(s: seq<Timer>, k: real): seq<Timer> {
    if s == [] then [] else (if s[0].executeAt == k then [s[0]] else []) + AtTime(s[1..], k)
  }

  lemma {:induction false} InsertAtTime(x: Timer, s: seq<Timer>, k: real)
    ensures AtTime(Insert(x, s), k) == (if x.executeAt == k then [x] else []) + AtTime(s, k)
  {
    if s == [] || x.executeAt <= s[0].executeAt {
      assert ([x] + s)[1..] == s;
    } else {
      var r := Insert(x, s[1..]);
      InsertAtTime(x, s[1..], k);
      assert ([s[0]] + r)[1..] == r;
      assert AtTime(Insert(x, s), k) == (if s[0].executeAt == k then [s[0]] else []) + AtTime(r, k);
      assert x.executeAt == k ==> s[0].executeAt != k;
    }
  }

  /** Timers due at the same time fire in the order they were registered. */
  lemma {:induction false} SortByDueStable(s: seq<Timer>, k: real)
    ensures AtTime(SortByDue(s), k) == AtTime(s, k)
  {
    if s != [] {
      SortByDueStable(s[1..], k);
      InsertAtTime(s[0], SortByDue(s[1..]), k);
    }
  }

  lemma {:induction false} AtTimeAppend(a: seq<Timer>, b: seq<Timer>, k: real)
    ensures AtTime(a + b, k) == AtTime(a, k) + AtTime(b, k)
  {
    if a != [] {
      assert (a + b)[0] == a[0] && (a + b)[1..] == a[1..] + b;
      AtTimeAppend(a[1..], b, k);
    } else {
      assert a + b == b;
    }
  }

  /** The due filter keeps the list's order: the timers due at a time
      not after t come out of it in registration order, all of them. */
  lemma {:induction false} DueKeepsOrder(s: seq<Timer>, t: real, k: real)
    requires k <= t
    ensures AtTime(Due(s, t), k) == AtTime(s, k)
  {
    if s != [] {
      var front, last := s[..|s| - 1], s[|s| - 1];
      assert s == front + [last];
      DueKeepsOrder(front, t, k);
      AtTimeAppend(front, [last], k);
      var tail := if last.executeAt <= t then [last] else [];
      AtTimeAppend(Due(front, t), tail, k);
      assert AtTime([last], k) == (if last.executeAt == k then [last] else []) + AtTime([], k);
      if last.executeAt > t {
        assert AtTime([last], k) == [];
        assert AtTime(tail, k) == [];
      }
    }
  }

  /** The animation-frame callbacks called, in order, each with the time. */
  function FrameCalls(rs: seq<FrameRequest>, t: real): (calls: seq<Call>)
    ensures |calls| == |rs|
  {
    seq(|rs|, i requires 0 <= i < |rs| => FrameCall(rs[i].callback, t))
  }

  /** The timer callbacks called, in order. */
  function TimerCalls(ts: seq<Timer>): (calls: seq<Call>)
    ensures |calls| == |ts|
  {
    seq(|ts|, i requires 0 <= i < |ts| => TimerCall(ts[i].callback))
  }

  /** An interval due long ago fires once per advance, not once per elapsed
      period: from 10 ms with a 10 ms period, an advance to 100 ms calls it
      once and leaves it due at 20 ms. */
  lemma IntervalDoesNotCatchUp()
    ensures TimerCalls(SortByDue(Due([Timer(1, 7, 10.0, Interval(10.0))], 100.0))) == [TimerCall(7)]
    ensures Rescheduled(Due([Timer(1, 7, 10.0, Interval(10.0))], 100.0)) == [Timer(1, 7, 20.0, Interval(10.0))]
  {
    var s := [Timer(1, 7, 10.0, Interval(10.0))];
    assert s[..0] == [];
    assert Due(s, 100.0) == s;
  }

  /** The forEach over the snapshot of animation-frame callbacks. */
  method RunFrameCallbacks(pending: seq<FrameRequest>, t: real) returns (calls: seq<Call>)
    ensures calls == FrameCalls(pending, t)
  {
    calls := [];
    var i := 0;
    while i < |pending|
      invariant 0 <= i <= |pending|
      invariant calls == FrameCalls(pending[..i], t)
    {
      calls := calls + [FrameCall(pending[i].callback, t)];
      i := i + 1;
    }
    assert pending[..i] == pending;
  }

  /** The forEach that pushes each due interval back one period later. */
  method PushBackIntervals(kept: seq<Timer>, due: seq<Timer>) returns (timers: seq<Timer>)
    ensures timers == kept + Rescheduled(due)
  {
    timers := kept;
    var i := 0;
    while i < |due|
      invariant 0 <= i <= |due|
      invariant timers == kept + Rescheduled(due[..i])
    {
      var x := due[i];
      assert due[..i + 1][..i] == due[..i];
      if x.kind.Interval? {
        timers := timers + [Pushed(x)];
      }
      i := i + 1;
    }
    assert due[..i] == due;
  }

  /** The forEach over the sorted due timers. */
  method RunTimers(ordered: seq<Timer>) returns (calls: seq<Call>)
    ensures calls == TimerCalls(ordered)
  {
    calls := [];
    var i := 0;
    while i < |ordered|
      invariant 0 <= i <= |ordered|
      invariant calls == TimerCalls(ordered[..i])
    {
      calls := calls + [TimerCall(ordered[i].callback)];
      i := i + 1;
    }
    assert ordered[..i] == ordered;
  }

  /** The clock's state as the injected script keeps it on `window`. */
  class Clock {
    var now: real
    var timers: seq<Timer>
    var nextTimerId: int
    var rafs: seq<FrameRequest>
    var nextRafId: int

    /** Ids come from their counters and are never reused. */
    predicate Valid()
      reads this
    {
      && 1 <= nextTimerId && 1 <= nextRafId
      && IdsBelow(TimerIds(timers), nextTimerId) && Unique(TimerIds(timers))
      && IdsBelow(FrameIds(rafs), nextRafId) && Unique(FrameIds(rafs))
    }

    /** The script's initial state: time 0, nothing registered, both
        counters at 1. */
    constructor()
      ensures Valid()
      ensures now == 0.0 && timers == [] && nextTimerId == 1 && rafs == [] && nextRafId == 1
    {
      now, timers, nextTimerId, rafs, nextRafId := 0.0, [], 1, [], 1;
    }

    /** `Date.now()` and `performance.now()` both read the virtual time. */
    function Now(): real
      reads this
    {
      now
    }

    method AddTimer(callback: Callback, delay: real, kind: TimerKind) returns (id: int)
      requires Valid()
      modifies this
      ensures Valid()
      ensures id == old(nextTimerId) && nextTimerId == id + 1
      ensures id !in TimerIds(old(timers))
      ensures timers == old(timers) + [Timer(id, callback, now + delay, kind)]
      ensures now == old(now) && rafs == old(rafs) && nextRafId == old(nextRafId)
    {
      id := nextTimerId;
      nextTimerId := nextTimerId + 1;
      var x := Timer(id, callback, now + delay, kind);
      FreshId(TimerIds(timers), id);
      UniqueAppend(TimerIds(timers), id);
      TimerIdsAppend(timers, [x]);
      timers := timers + [x];
    }

    /** setTimeout: a fresh id from the shared counter, due `delay` after
        the current virtual time. */
    method SetTimeout(callback: Callback, delay: real) returns (id: int)
      requires Valid()
      modifies this
      ensures Valid()
      ensures id == old(nextTimerId) && nextTimerId == id + 1
      ensures id !in TimerIds(old(timers))
      ensures timers == old(timers) + [Timer(id, callback, now + delay, Timeout)]
      ensures now == old(now) && rafs == old(rafs) && nextRafId == old(nextRafId)
    {
      id := AddTimer(callback, delay, Timeout);
    }

    /** setInterval: as setTimeout, remembering the period. */
    method SetInterval(callback: Callback, delay: real) returns (id: int)
      requires Valid()
      modifies this
      ensures Valid()
      ensures id == old(nextTimerId) && nextTimerId == id + 1
      ensures id !in TimerIds(old(timers))
      ensures timers == old(timers) + [Timer(id, callback, now + delay, Interval(delay))]
      ensures now == old(now) && rafs == old(rafs) && nextRafId == old(nextRafId)
    {
      id := AddTimer(callback, delay, Interval(delay));
    }

    method RemoveTimer(id: int)
      requires Valid()
      modifies this
      ensures Valid()
      ensures timers == WithoutTimer(old(timers), id)
      ensures id !in TimerIds(timers)
      ensures now == old(now) && nextTimerId == old(nextTimerId) && rafs == old(rafs) && nextRafId == old(nextRafId)
    {
      WithoutTimerIds(timers, id);
      SubIds(TimerIds(WithoutTimer(timers, id)), TimerIds(timers), nextTimerId);
      timers := WithoutTimer(timers, id);
      assert id !in multiset(TimerIds(timers));
    }

    /** clearTimeout: removes the timer with this id, timeout or interval. */
    method ClearTimeout(id: int)
      requires Valid()
      modifies this
      ensures Valid()
      ensures timers == WithoutTimer(old(timers), id)
      ensures id !in TimerIds(timers)
      ensures now == old(now) && nextTimerId == old(nextTimerId) && rafs == old(rafs) && nextRafId == old(nextRafId)
    {
      RemoveTimer(id);
    }

    /** clearInterval: the same filter as clearTimeout. */
    method ClearInterval(id: int)
      requires Valid()
      modifies this
      ensures Valid()
      ensures timers == WithoutTimer(old(timers), id)
      ensures id !in TimerIds(timers)
      ensures now == old(now) && nextTimerId == old(nextTimerId) && rafs == old(rafs) && nextRafId == old(nextRafId)
    {
      RemoveTimer(id);
    }

    /** requestAnimationFrame: queued until the next advance. */
    method RequestAnimationFrame(callback: Callback) returns (id: int)
      requires Valid()
      modifies this
      ensures Valid()
      ensures id == old(nextRafId) && nextRafId == id + 1
      ensures id !in FrameIds(old(rafs))
      ensures rafs == old(rafs) + [FrameRequest(id, callback)]
      ensures now == old(now) && timers == old(timers) && nextTimerId == old(nextTimerId)
    {
      id := nextRafId;
      nextRafId := nextRafId + 1;
      var x := FrameRequest(id, callback);
      FreshId(FrameIds(rafs), id);
      UniqueAppend(FrameIds(rafs), id);
      FrameIdsAppend(rafs, [x]);
      rafs := rafs + [x];
    }

    /** cancelAnimationFrame: removes the request with this id. */
    method CancelAnimationFrame(id: int)
      requires Valid()
      modifies this
      ensures Valid()
      ensures rafs == WithoutFrame(old(rafs), id)
      ensures id !in FrameIds(rafs)
      ensures now == old(now) && timers == old(timers) && nextTimerId == old(nextTimerId) && nextRafId == old(nextRafId)
    {
      WithoutFrameIds(rafs, id);
      SubIds(FrameIds(WithoutFrame(rafs, id)), FrameIds(rafs), nextRafId);
      rafs := WithoutFrame(rafs, id);
      assert id !in multiset(FrameIds(rafs));
    }

    /** `__advanceTime(newTime)`: set the time; run and drop every queued
        animation-frame callback, in order, with the new time; take the due
        timers out, push each due interval back one period later; then run
        the due timers ordered by due time. Time may also move backwards. */
    method Advance(t: real) returns (calls: seq<Call>)
      requires Valid()
      modifies this
      ensures Valid()
      ensures Now() == t && rafs == []
      ensures nextTimerId == old(nextTimerId) && nextRafId == old(nextRafId)
      ensures timers == Kept(old(timers), t) + Rescheduled(Due(old(timers), t))
      ensures calls == FrameCalls(old(rafs), t) + TimerCalls(SortByDue(Due(old(timers), t)))
    {
      now := t;
      var pending := rafs;
      rafs := [];
      var frameCalls := RunFrameCallbacks(pending, now);
      ghost var before := timers;
      var due := Due(timers, t);
      timers := Kept(timers, t);
      timers := PushBackIntervals(timers, due);
      var timerCalls := RunTimers(SortByDue(due));
      calls := frameCalls + timerCalls;
      AdvanceKeepsIds(before, t, nextTimerId);
    }
  }

  /** One advance calls every due timer exactly as often as it is listed,
      earliest first, and no timer that is not yet due. */
  lemma AdvanceFiresDueOnce(s: seq<Timer>, t: real)
    ensures multiset(SortByDue(Due(s, t))) == multiset(Due(s, t))
    ensures SortedByDue(SortByDue(Due(s, t)))
    ensures forall x :: x in SortByDue(Due(s, t)) ==> x in s && x.executeAt <= t
    ensures forall x :: x in s && x.executeAt <= t ==> x in SortByDue(Due(s, t))
  {
    var due, kept, sorted := Due(s, t), Kept(s, t), SortByDue(Due(s, t));
    SortByDueSorted(due);
    PartitionByTime(s, t);
    forall x | x in s && x.executeAt <= t ensures x in sorted {
      assert x in multiset(s);
      assert x !in kept;
      assert x in multiset(due);
    }
    forall x | x in sorted ensures x in s && x.executeAt <= t {
      assert x in multiset(sorted);
      assert x in due;
    }
  }
}
