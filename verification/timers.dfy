/** The stopwatches of `seaplayer/others/timer.py`.

    `Timer` remembers one start and one end reading; `SegmentTimer` keeps a
    list of `(start, end)` segments and the index of the one still open, if
    any. The clock (`time.perf_counter`) is the parameter `now` of each
    operation; readings are real numbers, so float rounding is not modelled. */
module Timers {
  import opened Common

  // ---------------------------------------------------------------- Timer

  datatype Timer = Timer(startTime: real, endTime: real)

  /** `Timer.__init__`: both readings start at zero. */
  function NewTimer(): (t: Timer)
    ensures t.startTime == 0.0 && t.endTime == 0.0
    ensures Duration(t) == 0.0
  {
    Timer(0.0, 0.0)
  }

  /** The `duration` property: the time from the start reading to the end one. */
  function Duration(t: Timer): (d: real)
    ensures t.startTime + d == t.endTime
    ensures d >= 0.0 <==> t.startTime <= t.endTime
  {
    t.endTime - t.startTime
  }

  /** `Timer.start`: records the start reading only. */
  function Start(t: Timer, now: real): (r: Timer)
    ensures r.startTime == now && r.endTime == t.endTime
    ensures Duration(r) == t.endTime - now
  {
    t.(startTime := now)
  }

  /** `Timer.end`: records the end reading only. */
  function End(t: Timer, now: real): (r: Timer)
    ensures r.endTime == now && r.startTime == t.startTime
    ensures Duration(r) == now - t.startTime
  {
    t.(endTime := now)
  }

  /** `Timer.__enter__` does what `start` does. */
  function TimerEnter(t: Timer, now: real): (r: Timer)
    ensures r.startTime == now && r.endTime == t.endTime
  {
    Start(t, now)
  }

  /** `Timer.__exit__` does what `end` does. */
  function TimerExit(t: Timer, now: real): (r: Timer)
    ensures r.endTime == now && r.startTime == t.startTime
  {
    End(t, now)
  }

  /** A `with Timer():` block timed between readings `t0` and `t1` measures
      `t1 - t0`, whatever the timer held before; a monotone clock makes it
      non-negative. */
  lemma {:induction false} WithBlockMeasures(t: Timer, t0: real, t1: real)
    ensures Duration(TimerExit(TimerEnter(t, t0), t1)) == t1 - t0
    ensures t0 <= t1 ==> Duration(TimerExit(TimerEnter(t, t0), t1)) >= 0.0
  {
  }

  // --------------------------------------------------------- SegmentTimer

  datatype Segment = Segment(start: real, end: real)

  datatype SegmentTimer = SegmentTimer(segments: seq<Segment>, index: Option<int>)

  /** The invariant every reachable `SegmentTimer` keeps: an open index names
      the last segment. */
  predicate Valid(st: SegmentTimer) {
    st.index.Some? ==> st.index.value == |st.segments| - 1 && |st.segments| > 0
  }

  /** `SegmentTimer.__init__`. */
  function NewSegmentTimer(): (st: SegmentTimer)
    ensures Valid(st) && st.index.None? && |st.segments| == 0
  {
    SegmentTimer([], None)
  }

  /** The sum of `end - start` over the segments, as an independent reference
      for the `duration` loop. */
  function Total(segs: seq<Segment>): real
    decreases |segs|
  {
    if |segs| == 0 then 0.0 else Total(segs[..|segs| - 1]) + (segs[|segs| - 1].end - segs[|segs| - 1].start)
  }

  /** The `duration` property, accumulated front to back as the source does. */
  method SegmentDuration(st: SegmentTimer) returns (dur: real)
    ensures dur == Total(st.segments)
  {
    dur := 0.0;
    var i := 0;
    while i < |st.segments|
      invariant 0 <= i <= |st.segments|
      invariant dur == Total(st.segments[..i])
    {
      assert st.segments[..i + 1][..i] == st.segments[..i];
      dur := dur + (st.segments[i].end - st.segments[i].start);
      i := i + 1;
    }
    assert st.segments[..i] == st.segments;
  }

  /** `SegmentTimer.acquire`: when idle, opens a segment `(now, 0.0)` at the
      end and remembers its index; when a segment is open, does nothing. */
  function Acquire(st: SegmentTimer, now: real): (r: SegmentTimer)
    ensures Valid(st) ==> Valid(r)
    ensures st.index.None? ==> r.index == Some(|st.segments|)
    ensures st.index.None? ==> r.segments == st.segments + [Segment(now, 0.0)]
    ensures st.index.Some? ==> r == st
  {
    if st.index.None? then SegmentTimer(st.segments + [Segment(now, 0.0)], Some(|st.segments|))
    else st
  }

  /** `SegmentTimer.release`: when a segment is open, closes it at `now` and
      becomes idle; when idle, does nothing. */
  function Release(st: SegmentTimer, now: real): (r: SegmentTimer)
    requires Valid(st)
    ensures Valid(r) && r.index.None?
    ensures |r.segments| == |st.segments|
    ensures st.index.Some? ==> r.segments[st.index.value] == Segment(st.segments[st.index.value].start, now)
    ensures st.index.Some? ==> forall i :: 0 <= i < |st.segments| && i != st.index.value ==> r.segments[i] == st.segments[i]
    ensures st.index.None? ==> r == st
  {
    if st.index.Some? then
      var i := st.index.value;
      SegmentTimer(st.segments[i := Segment(st.segments[i].start, now)], None)
    else st
  }

  /** `SegmentTimer.__enter__` is `acquire`. */
  function SegmentEnter(st: SegmentTimer, now: real): (r: SegmentTimer)
    ensures r == Acquire(st, now)
  {
    Acquire(st, now)
  }

  /** `SegmentTimer.__exit__` is `release`. */
  function SegmentExit(st: SegmentTimer, now: real): (r: SegmentTimer)
    requires Valid(st)
    ensures r == Release(st, now)
  {
    Release(st, now)
  }

  lemma {:induction false} TotalAppend(segs: seq<Segment>, s: Segment)
    ensures Total(segs + [s]) == Total(segs) + (s.end - s.start)
  {
    assert (segs + [s])[..|segs|] == segs;
  }

  /** Timing one idle-to-idle segment between readings `t0` and `t1` adds
      exactly `t1 - t0` to the duration. */
  lemma {:induction false} AcquireReleaseAdds(st: SegmentTimer, t0: real, t1: real)
    requires Valid(st) && st.index.None?
    ensures Release(Acquire(st, t0), t1).index.None?
    ensures Total(Release(Acquire(st, t0), t1).segments) == Total(st.segments) + (t1 - t0)
  {
    var r := Release(Acquire(st, t0), t1);
    assert r.segments == st.segments + [Segment(t0, t1)];
    TotalAppend(st.segments, Segment(t0, t1));
  }

  /** While a segment is open its end reading is still `0.0`, so the duration
      counts `0.0 - start` for it. */
  lemma {:induction false} OpenSegmentCounted(st: SegmentTimer, t0: real)
    requires Valid(st) && st.index.None?
    ensures Total(Acquire(st, t0).segments) == Total(st.segments) - t0
  {
    TotalAppend(st.segments, Segment(t0, 0.0));
  }
}
