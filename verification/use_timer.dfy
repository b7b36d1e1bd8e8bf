/**
 The `useTimer` hook as a pure state machine. The hook's React state (`time`,
 `isRunning`) and refs (`startTimeRef`, `accumulatedTimeRef`) become the fields of
 an immutable `Tracker`; the effect keyed on `isRunning` and the animation-frame
 loop become the explicit transitions `Start`, `Tick`, `Stop` and `Reset`, each
 taking the reading of the monotonic clock (`performance.now()`) as `now`.
 Times are whole milliseconds.
 */
module UseTimer {
  import opened Wrappers

  /**
   `time` is the value last published to the screen, `running` is `isRunning`,
   `segmentStart` is `startTimeRef` and `accumulated` is `accumulatedTimeRef`.
   */
  datatype Tracker = Tracker(time: nat, running: bool, segmentStart: Option<nat>, accumulated: nat)

  /** The hook as first mounted: everything zero, nothing open. */
  function Initial(): (r: Tracker) {
    Tracker(0, false, None, 0)
  }

  /** A segment is open exactly while the tracker runs. */
  predicate WellFormed(t: Tracker) {
    t.running <==> t.segmentStart.Some?
  }

  /**
   The clock is monotonic: a reading taken now is not earlier than the
   instant the open segment (if any) began.
   */
  predicate Covers(t: Tracker, now: nat) {
    t.segmentStart.None? || t.segmentStart.value <= now
  }

  /** The elapsed value the animation-frame callback computes at `now`. */
  function Reading(t: Tracker, now: nat): (r: nat)
    requires Covers(t, now)
    ensures r >= t.accumulated
    ensures !t.running ==> r == t.accumulated
    ensures t.running && t.segmentStart.Some? ==> r - t.accumulated == now - t.segmentStart.value
  {
    if t.running && t.segmentStart.Some? then t.accumulated + (now - t.segmentStart.value)
    else t.accumulated
  }

  /**
   `start()`: sets `isRunning`; the effect then stamps the segment start. While
   already running the state does not change, so the effect does not re-run.
   */
  function Start(t: Tracker, now: nat): (r: Tracker)
    ensures r.running
    ensures WellFormed(t) ==> r.segmentStart.Some?
    ensures t.running ==> r == t
    ensures !t.running ==> r.segmentStart == Some(now)
    ensures r.accumulated == t.accumulated && r.time == t.time
  {
    if t.running then t else t.(running := true, segmentStart := Some(now))
  }

  /**
   One animation frame: while a segment is open the frame publishes the
   accumulated time plus the open segment's length; otherwise nothing happens.
   Only `time` is ever written.
   */
  function Tick(t: Tracker, now: nat): (r: Tracker)
    requires Covers(t, now)
    ensures t.running && t.segmentStart.Some? ==>
              r.time == t.accumulated + (now - t.segmentStart.value) && r.time >= t.accumulated
    ensures !(t.running && t.segmentStart.Some?) ==> r == t
    ensures r.(time := t.time) == t
  {
    if t.segmentStart.Some? && t.running then t.(time := Reading(t, now)) else t
  }

  /**
   `stop()`: clears `isRunning`; the effect (which only re-runs when
   `isRunning` actually changes) banks the open segment and clears its start.
   The published `time` is not touched.
   */
  function Stop(t: Tracker, now: nat): (r: Tracker)
    requires Covers(t, now)
    ensures !r.running
    ensures r.accumulated == Reading(t, now)
    ensures t.segmentStart.Some? && t.running ==>
              r.accumulated == t.accumulated + (now - t.segmentStart.value)
    ensures t.running ==> r.segmentStart.None?
    ensures WellFormed(t) ==> r.segmentStart.None?
    ensures r.time == t.time
    ensures !t.running ==> r == t
  {
    if !t.running then t
    else match t.segmentStart
      case None => t.(running := false)
      case Some(s) => t.(running := false, segmentStart := None, accumulated := t.accumulated + (now - s))
  }

  /** `reset()`: whatever the state, back to the freshly mounted hook. */
  function Reset(t: Tracker): (r: Tracker)
    ensures r.time == 0 && r.accumulated == 0
    ensures r.segmentStart.None? && !r.running
  {
    Tracker(0, false, None, 0)
  }

  /** Every transition keeps "open segment iff running". */
  lemma TransitionsKeepWellFormed(t: Tracker, now: nat)
    requires WellFormed(t) && Covers(t, now)
    ensures WellFormed(Start(t, now))
    ensures WellFormed(Tick(t, now))
    ensures WellFormed(Stop(t, now))
    ensures WellFormed(Reset(t))
  {
  }

  /** Stopping twice is stopping once, whatever the second clock reading. */
  lemma StopIdempotent(t: Tracker, now: nat, later: nat)
    requires WellFormed(t) && Covers(t, now)
    ensures Covers(Stop(t, now), later)
    ensures Stop(Stop(t, now), later) == Stop(t, now)
  {
  }

  /** Starting twice is starting once: the second call keeps the first instant. */
  lemma StartIdempotent(t: Tracker, now: nat, later: nat)
    ensures Start(Start(t, now), later) == Start(t, now)
  {
  }

  // ---------------------------------------------------------------------------
  // Sequences of calls

  /** A call on the hook, or an animation frame, together with its clock reading. */
  datatype Call = StartAt(now: nat) | FrameAt(now: nat) | StopAt(now: nat) | ResetCall

  predicate Allows(t: Tracker, c: Call) {
    c.ResetCall? || Covers(t, c.now)
  }

  function Apply(t: Tracker, c: Call): (r: Tracker)
    requires Allows(t, c)
  {
    match c
    case StartAt(now) => Start(t, now)
    case FrameAt(now) => Tick(t, now)
    case StopAt(now) => Stop(t, now)
    case ResetCall => Reset(t)
  }

  /** Every call in `cs`, made in order from `t`, sees a clock that covers the open segment. */
  predicate Admissible(t: Tracker, cs: seq<Call>)
    decreases |cs|
  {
    |cs| == 0 || (Allows(t, cs[0]) && Admissible(Apply(t, cs[0]), cs[1..]))
  }

  function Run(t: Tracker, cs: seq<Call>): (r: Tracker)
    requires Admissible(t, cs)
    decreases |cs|
  {
    if |cs| == 0 then t else Run(Apply(t, cs[0]), cs[1..])
  }

  /** The clock readings in `cs` never go back, and none is earlier than `since`. */
  predicate ClockFrom(since: nat, cs: seq<Call>)
    decreases |cs|
  {
    |cs| == 0 ||
    (if cs[0].ResetCall? then ClockFrom(since, cs[1..])
     else since <= cs[0].now && ClockFrom(cs[0].now, cs[1..]))
  }

  /** A monotonic clock makes every sequence of calls admissible. */
  lemma {:induction false} MonotoneClockAdmissible(t: Tracker, since: nat, cs: seq<Call>)
    requires Covers(t, since)
    requires ClockFrom(since, cs)
    ensures Admissible(t, cs)
    decreases |cs|
  {
    if |cs| > 0 {
      if cs[0].ResetCall? {
        MonotoneClockAdmissible(Apply(t, cs[0]), since, cs[1..]);
      } else {
        MonotoneClockAdmissible(Apply(t, cs[0]), cs[0].now, cs[1..]);
      }
    }
  }

  predicate ResetFree(cs: seq<Call>) {
    forall i :: 0 <= i < |cs| ==> !cs[i].ResetCall?
  }

  /** Without a reset, the banked total never decreases. */
  lemma {:induction false} AccumulatedMonotone(t: Tracker, cs: seq<Call>)
    requires Admissible(t, cs)
    requires ResetFree(cs)
    ensures Run(t, cs).accumulated >= t.accumulated
    decreases |cs|
  {
    if |cs| > 0 {
      AccumulatedMonotone(Apply(t, cs[0]), cs[1..]);
    }
  }

  /** The calls in `cs` with every animation frame removed. */
  function WithoutFrames(cs: seq<Call>): (r: seq<Call>)
    ensures |r| <= |cs|
    ensures forall i :: 0 <= i < |r| ==> !r[i].FrameAt?
    decreases |cs|
  {
    if |cs| == 0 then []
    else if cs[0].FrameAt? then WithoutFrames(cs[1..])
    else [cs[0]] + WithoutFrames(cs[1..])
  }

  /** Everything but the published `time`. */
  function Banked(t: Tracker): (r: (bool, Option<nat>, nat)) {
    (t.running, t.segmentStart, t.accumulated)
  }

  /**
   No drift from polling: however many animation frames run, and whenever,
   the banked state after any sequence of calls is the one reached without them.
   */
  lemma {:induction false} FramesDoNotDrift(t: Tracker, cs: seq<Call>)
    requires Admissible(t, cs)
    ensures Admissible(t, WithoutFrames(cs))
    ensures Banked(Run(t, WithoutFrames(cs))) == Banked(Run(t, cs))
    decreases |cs|
  {
    if |cs| > 0 {
      var t' := Apply(t, cs[0]);
      if cs[0].FrameAt? {
        FramesDoNotDrift(t', cs[1..]);
        BankedDeterminesRun(t', t, WithoutFrames(cs[1..]));
      } else {
        FramesDoNotDrift(t', cs[1..]);
        assert WithoutFrames(cs)[0] == cs[0];
        assert WithoutFrames(cs)[1..] == WithoutFrames(cs[1..]);
      }
    }
  }

  /**
   Two trackers that differ only in the published `time` stay banked-equal
   under any sequence of calls.
   */
  lemma {:induction false} BankedDeterminesRun(t: Tracker, u: Tracker, cs: seq<Call>)
    requires Banked(t) == Banked(u)
    requires Admissible(t, cs)
    ensures Admissible(u, cs)
    ensures Banked(Run(u, cs)) == Banked(Run(t, cs))
    decreases |cs|
  {
    if |cs| > 0 {
      BankedDeterminesRun(Apply(t, cs[0]), Apply(u, cs[0]), cs[1..]);
    }
  }

  /** Closed run segments `[start, stop]`, in clock order. */
  datatype Segment = Segment(start: nat, stop: nat)

  predicate Ordered(since: nat, segs: seq<Segment>)
    decreases |segs|
  {
    |segs| == 0 ||
    (since <= segs[0].start <= segs[0].stop && Ordered(segs[0].stop, segs[1..]))
  }

  function Total(segs: seq<Segment>): (r: nat)
    requires forall i :: 0 <= i < |segs| ==> segs[i].start <= segs[i].stop
    decreases |segs|
  {
    if |segs| == 0 then 0 else (segs[0].stop - segs[0].start) + Total(segs[1..])
  }

  function SegmentCalls(segs: seq<Segment>): (r: seq<Call>)
    decreases |segs|
  {
    if |segs| == 0 then [] else [StartAt(segs[0].start), StopAt(segs[0].stop)] + SegmentCalls(segs[1..])
  }

  lemma {:induction false} OrderedSegmentsWellShaped(since: nat, segs: seq<Segment>)
    requires Ordered(since, segs)
    ensures forall i :: 0 <= i < |segs| ==> segs[i].start <= segs[i].stop
    decreases |segs|
  {
    if |segs| > 0 {
      OrderedSegmentsWellShaped(segs[0].stop, segs[1..]);
      forall i | 0 <= i < |segs|
        ensures segs[i].start <= segs[i].stop
      {
        if i > 0 {
          assert segs[i] == segs[1..][i - 1];
        }
      }
    }
  }

  /**
   Starting and stopping the stopped tracker once per segment banks exactly
   the sum of the segment lengths on top of what was already banked.
   */
  lemma {:induction false} SegmentsAccumulate(t: Tracker, since: nat, segs: seq<Segment>)
    requires WellFormed(t) && !t.running
    requires Ordered(since, segs)
    ensures forall i :: 0 <= i < |segs| ==> segs[i].start <= segs[i].stop
    ensures Admissible(t, SegmentCalls(segs))
    ensures Run(t, SegmentCalls(segs)).accumulated == t.accumulated + Total(segs)
    ensures !Run(t, SegmentCalls(segs)).running
    decreases |segs|
  {
    OrderedSegmentsWellShaped(since, segs);
    if |segs| > 0 {
      var s := segs[0];
      var t1 := Start(t, s.start);
      var t2 := Stop(t1, s.stop);
      SegmentsAccumulate(t2, s.stop, segs[1..]);
      var cs := SegmentCalls(segs);
      assert cs[0] == StartAt(s.start);
      assert cs[1..][0] == StopAt(s.stop);
      assert cs[1..][1..] == SegmentCalls(segs[1..]);
    }
  }
}
