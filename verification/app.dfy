/**
 The game screen: a three-phase controller wrapped around the `useTimer`
 tracker, the win rule, the button label and instruction text, the wiring of
 the result overlay, and the screen's own time formatter.
 */
module App {
  import opened Wrappers
  import opened Decimal
  import opened UseTimer
  import ResultModal

  datatype Phase = Idle | Running | Stopped

  datatype Outcome = Win | Lose

  /** `gameState`, `result` and the hook the screen owns. */
  datatype Game = Game(phase: Phase, result: Option<Outcome>, tracker: Tracker)

  const TargetMs: nat := 10000
  const ToleranceMs: nat := 10

  /** The screen as first rendered. */
  function FirstRender(): (r: Game) {
    Game(Idle, None, Initial())
  }

  /** `Math.abs(a - b)` on whole milliseconds. */
  function Distance(a: nat, b: nat): (r: nat)
    ensures a + r == b || b + r == a
  {
    if a < b then b - a else a - b
  }

  /** `evaluateResult`: a win exactly inside the band 9.990 s to 10.010 s, ends included. */
  function Evaluate(time: nat): (o: Outcome)
    ensures o == Win <==> TargetMs - ToleranceMs <= time <= TargetMs + ToleranceMs
  {
    if Distance(time, TargetMs) <= ToleranceMs then Win else Lose
  }

  /**
   `handleButtonPress`. From `Idle` the tracker is reset and started and the
   result cleared; from `Running` the tracker is stopped and the result is
   judged on the last published `time`; from `Stopped` nothing happens.
   */
  function Press(g: Game, now: nat): (r: Game)
    requires Covers(g.tracker, now)
    ensures g.phase == Idle ==>
              && r.phase == Running && r.result.None?
              && r.tracker.running && r.tracker.segmentStart == Some(now)
              && r.tracker.accumulated == 0 && r.tracker.time == 0
    ensures g.phase == Running ==>
              && r.phase == Stopped && r.result.Some?
              && r.result.value == Evaluate(g.tracker.time)
              && r.tracker == Stop(g.tracker, now)
              && r.tracker.time == g.tracker.time
    ensures g.phase == Stopped ==> r == g
  {
    match g.phase
    case Idle => Game(Running, None, UseTimer.Start(Reset(g.tracker), now))
    case Running =>
      var stopped := Stop(g.tracker, now);
      Game(Stopped, Some(Evaluate(g.tracker.time)), stopped)
    case Stopped => g
  }

  /** `handlePlayAgain`: from any state, back to the screen as first rendered. */
  function PlayAgain(g: Game): (r: Game)
    ensures r.phase == Idle && r.result.None?
    ensures r.tracker.time == 0 && r.tracker.accumulated == 0
    ensures !r.tracker.running && r.tracker.segmentStart.None?
  {
    Game(Idle, None, Reset(g.tracker))
  }

  /** An animation frame: the tracker publishes; the phase and result stay. */
  function Frame(g: Game, now: nat): (r: Game)
    requires Covers(g.tracker, now)
    ensures r.phase == g.phase && r.result == g.result
    ensures r.tracker == Tick(g.tracker, now)
  {
    g.(tracker := Tick(g.tracker, now))
  }

  /** `getButtonLabel`: "Stop" exactly while running, "Start" otherwise. */
  function ButtonLabel(p: Phase): (r: string)
    ensures r == "Stop" <==> p == Running
    ensures r == "Start" <==> p != Running
  {
    if p == Idle then "Start" else if p == Running then "Stop" else "Start"
  }

  /** The instruction under the timer. */
  function Instruction(p: Phase): (r: string)
    ensures r == "Tap Start to begin" <==> p == Idle
    ensures r == "Tap Stop at exactly 10.000 seconds" <==> p == Running
    ensures r == "Tap Play Again to try again" <==> p == Stopped
  {
    match p
    case Idle => "Tap Start to begin"
    case Running => "Tap Stop at exactly 10.000 seconds"
    case Stopped => "Tap Play Again to try again"
  }

  /** Each phase has its own instruction, so the text tells the phase. */
  lemma InstructionTellsPhase(p: Phase, q: Phase)
    ensures Instruction(p) == Instruction(q) <==> p == q
  {
  }

  /** The overlay is shown when a result is set (`visible={result !== null}`). */
  predicate ModalVisible(g: Game): (r: bool)
    ensures r <==> g.result == Some(Win) || g.result == Some(Lose)
  {
    match g.result
    case Some(Win) => true
    case Some(Lose) => true
    case None => false
  }

  /** `isWin={result === 'win'}`. */
  predicate ModalIsWin(g: Game): (r: bool)
    ensures r ==> ModalVisible(g)
  {
    g.result == Some(Win)
  }

  // ---------------------------------------------------------------------------
  // Time formatting

  /**
   `formatTime`: whole seconds padded to two digits, a dot, and the hundredths
   of a second padded to three digits.
   */
  function FormatTime(ms: nat): (r: string) {
    var seconds := ms / 1000;
    var milliseconds := (ms % 1000) / 10;
    PadStart(ToDecimal(seconds), 2, '0') + "." + PadStart(ToDecimal(milliseconds), 3, '0')
  }

  /** The screen's formatter and the overlay's are the same function. */
  lemma FormatTimeAgrees(ms: nat)
    ensures FormatTime(ms) == ResultModal.FormatTime(ms)
  {
  }

  /** Reads a formatted time back as (seconds, hundredths); `None` if it is not one. */
  function ParseTime(s: string): (r: Option<(nat, nat)>) {
    if 4 <= |s| && s[|s| - 4] == '.' && AllDigits(s[..|s| - 4]) && AllDigits(s[|s| - 3..])
    then Some((Parse(s[..|s| - 4]), Parse(s[|s| - 3..])))
    else None
  }

  /** The display reads back as the whole seconds and the hundredths of `ms`. */
  lemma FormatTimeReadsBack(ms: nat)
    ensures ParseTime(FormatTime(ms)) == Some((ms / 1000, (ms % 1000) / 10))
  {
    var sec, frac := ResultModal.SecondsField(ms), ResultModal.FractionField(ms);
    var r := FormatTime(ms);
    assert r == sec + "." + frac;
    assert r[..|r| - 4] == sec;
    assert r[|r| - 3..] == frac;
    assert r[|r| - 4] == '.';
  }

  /** Splitting off whole seconds and then hundredths is splitting off hundredths. */
  lemma HundredthsSplit(a: nat)
    ensures a / 1000 == (a / 10) / 100
    ensures (a % 1000) / 10 == (a / 10) % 100
  {
    var c, u := a / 10, a % 10;
    var q, p := c / 100, c % 100;
    var rest := 10 * p + u;
    assert a == 1000 * q + rest && rest < 1000;
    assert a / 1000 == q && a % 1000 == rest;
    assert rest / 10 == p;
  }

  /**
   Two times look the same on screen exactly when they fall in the same
   hundredth of a second: the last millisecond digit is never shown.
   */
  lemma SameDisplayIffSameHundredth(a: nat, b: nat)
    ensures FormatTime(a) == FormatTime(b) <==> a / 10 == b / 10
  {
    HundredthsSplit(a);
    HundredthsSplit(b);
    if FormatTime(a) == FormatTime(b) {
      FormatTimeReadsBack(a);
      FormatTimeReadsBack(b);
      assert a / 10 == 100 * (a / 1000) + (a % 1000) / 10;
      assert b / 10 == 100 * (b / 1000) + (b % 1000) / 10;
    }
  }

  // ---------------------------------------------------------------------------
  // Sequences of user actions and frames

  datatype Event = ButtonPress(now: nat) | AnimationFrame(now: nat) | PlayAgainPress

  predicate AllowsEvent(g: Game, e: Event) {
    e.PlayAgainPress? || Covers(g.tracker, e.now)
  }

  function Step(g: Game, e: Event): (r: Game)
    requires AllowsEvent(g, e)
  {
    match e
    case ButtonPress(now) => Press(g, now)
    case AnimationFrame(now) => Frame(g, now)
    case PlayAgainPress => PlayAgain(g)
  }

  predicate EventsAdmissible(g: Game, es: seq<Event>)
    decreases |es|
  {
    |es| == 0 || (AllowsEvent(g, es[0]) && EventsAdmissible(Step(g, es[0]), es[1..]))
  }

  function RunEvents(g: Game, es: seq<Event>): (r: Game)
    requires EventsAdmissible(g, es)
    decreases |es|
  {
    if |es| == 0 then g else RunEvents(Step(g, es[0]), es[1..])
  }

  /** The clock readings carried by `es` never go back, and none is earlier than `since`. */
  predicate EventClockFrom(since: nat, es: seq<Event>)
    decreases |es|
  {
    |es| == 0 ||
    (if es[0].PlayAgainPress? then EventClockFrom(since, es[1..])
     else since <= es[0].now && EventClockFrom(es[0].now, es[1..]))
  }

  /** A monotonic clock makes every sequence of events admissible. */
  lemma {:induction false} MonotoneClockAdmitsEvents(g: Game, since: nat, es: seq<Event>)
    requires Covers(g.tracker, since)
    requires EventClockFrom(since, es)
    ensures EventsAdmissible(g, es)
    decreases |es|
  {
    if |es| > 0 {
      if es[0].PlayAgainPress? {
        MonotoneClockAdmitsEvents(Step(g, es[0]), since, es[1..]);
      } else {
        MonotoneClockAdmitsEvents(Step(g, es[0]), es[0].now, es[1..]);
      }
    }
  }

  /**
   What holds in every state reachable from the first render: idle means a
   fresh tracker and no result; running means an open segment, nothing banked
   and no result; stopped means a closed tracker and a result that is the
   verdict on the displayed time.
   */
  predicate Inv(g: Game) {
    match g.phase
    case Idle => g.result.None? && g.tracker == Initial()
    case Running =>
      && g.result.None? && g.tracker.running && g.tracker.segmentStart.Some?
      && g.tracker.accumulated == 0
    case Stopped =>
      && g.result == Some(Evaluate(g.tracker.time))
      && !g.tracker.running && g.tracker.segmentStart.None?
  }

  lemma StepKeepsInv(g: Game, e: Event)
    requires Inv(g) && AllowsEvent(g, e)
    ensures Inv(Step(g, e))
  {
  }

  lemma {:induction false} RunKeepsInv(g: Game, es: seq<Event>)
    requires Inv(g) && EventsAdmissible(g, es)
    ensures Inv(RunEvents(g, es))
    decreases |es|
  {
    if |es| > 0 {
      StepKeepsInv(g, es[0]);
      RunKeepsInv(Step(g, es[0]), es[1..]);
    }
  }

  /**
   In every reachable state a result is set exactly when the phase is
   `Stopped`, so the overlay shows exactly then; it announces a win exactly
   when the time it displays is in the winning band; and the button reads
   "Stop" exactly while the tracker runs.
   */
  lemma ReachableStates(es: seq<Event>)
    requires EventsAdmissible(FirstRender(), es)
    ensures var g := RunEvents(FirstRender(), es);
      && (g.result.Some? <==> g.phase == Stopped)
      && (ModalVisible(g) <==> g.phase == Stopped)
      && (ModalIsWin(g) <==> g.phase == Stopped && Evaluate(g.tracker.time) == Win)
      && (ResultModal.Subtitle(ModalIsWin(g)) == ResultModal.WinSubtitle <==>
            g.phase == Stopped && Evaluate(g.tracker.time) == Win)
      && (ButtonLabel(g.phase) == "Stop" <==> g.tracker.running)
  {
    RunKeepsInv(FirstRender(), es);
  }

  // ---------------------------------------------------------------------------
  // Worked cases

  /** The band's edges: 9990, 10000 and 10010 win; 9989 and 10011 lose. */
  lemma EvaluateBoundaries()
    ensures Evaluate(9990) == Win && Evaluate(10000) == Win && Evaluate(10010) == Win
    ensures Evaluate(9989) == Lose && Evaluate(10011) == Lose
  {
  }

  /** `FormatTime` from the texts of its two fields; used by the worked cases. */
  lemma FormatTimeOf(ms: nat, secondsText: string, fractionText: string)
    requires PadStart(ToDecimal(ms / 1000), 2, '0') == secondsText
    requires PadStart(ToDecimal((ms % 1000) / 10), 3, '0') == fractionText
    ensures FormatTime(ms) == secondsText + "." + fractionText
  {
  }

  /**
   Below 100 s the display is exactly six characters: two digits of seconds,
   the dot, a '0' and the two digits of the hundredths count.
   */
  lemma FormatTimeShort(ms: nat)
    requires ms < 100000
    ensures var seconds, hundredths := ms / 1000, (ms % 1000) / 10;
      FormatTime(ms) == [DigitChar(seconds / 10), DigitChar(seconds % 10), '.',
                         '0', DigitChar(hundredths / 10), DigitChar(hundredths % 10)]
  {
    var seconds, hundredths := ms / 1000, (ms % 1000) / 10;
    SmallNumeral(seconds);
    SmallNumeral(hundredths);
  }

  /** 10 034 ms shows "10.003": the fraction is a hundredths count shown in three digits. */
  lemma FormatTimeTruncates()
    ensures FormatTime(10034) == "10.003"
  {
    assert 10034 / 1000 == 10 && (10034 % 1000) / 10 == 3;
    FormatTimeShort(10034);
  }

  /** Zero shows "00.000"; exactly ten seconds shows "10.000". */
  lemma FormatTimeRound()
    ensures FormatTime(0) == "00.000"
    ensures FormatTime(10000) == "10.000"
  {
    assert 0 / 1000 == 0 && (0 % 1000) / 10 == 0;
    FormatTimeShort(0);
    assert 10000 / 1000 == 10 && (10000 % 1000) / 10 == 0;
    FormatTimeShort(10000);
  }

  /** 59 999 ms shows "59.099": the fraction field never shows more than 099. */
  lemma FormatTimeNinetyNine()
    ensures FormatTime(59999) == "59.099"
  {
    assert 59999 / 1000 == 59 && (59999 % 1000) / 10 == 99;
    FormatTimeShort(59999);
  }

  /** 9 990 ms, the lower edge of the winning band, shows "09.099". */
  lemma FormatTimeBandEdge()
    ensures FormatTime(9990) == "09.099"
  {
    assert 9990 / 1000 == 9 && (9990 % 1000) / 10 == 99;
    FormatTimeShort(9990);
  }

  /** 125 678 ms shows "125.067": the seconds field grows past two digits uncut. */
  lemma FormatTimeLong()
    ensures FormatTime(125678) == "125.067"
  {
    assert 125678 / 1000 == 125 && (125678 % 1000) / 10 == 67;
    SmallNumeral(12);
    assert ToDecimal(125) == "125";
    SmallNumeral(67);
    assert PadStart("67", 3, '0') == "067";
    FormatTimeOf(125678, "125", "067");
  }

  /**
   A round with one animation frame: start at `start`, a frame at `frame`, stop
   at `stop`. The verdict and the display come from the frame's reading, while
   the tracker banks the full time from start to stop.
   */
  lemma {:induction false} OneFrameRound(start: nat, frame: nat, stop: nat)
    requires start <= frame <= stop
    ensures EventsAdmissible(FirstRender(), [ButtonPress(start), AnimationFrame(frame), ButtonPress(stop)])
    ensures RunEvents(FirstRender(), [ButtonPress(start), AnimationFrame(frame), ButtonPress(stop)])
         == Game(Stopped, Some(Evaluate(frame - start)), Tracker(frame - start, false, None, stop - start))
  {
    var es := [ButtonPress(start), AnimationFrame(frame), ButtonPress(stop)];
    var g1 := Press(FirstRender(), start);
    assert g1 == Game(Running, None, Tracker(0, true, Some(start), 0));
    var g2 := Frame(g1, frame);
    assert g2 == Game(Running, None, Tracker(frame - start, true, Some(start), 0));
    var g3 := Press(g2, stop);
    assert g3 == Game(Stopped, Some(Evaluate(frame - start)), Tracker(frame - start, false, None, stop - start));
    var rest2, rest1 := [ButtonPress(stop)], [AnimationFrame(frame), ButtonPress(stop)];
    assert rest2[1..] == [] && rest1[1..] == rest2 && es[1..] == rest1;
    assert Step(g2, rest2[0]) == g3 && Step(g1, rest1[0]) == g2 && Step(FirstRender(), es[0]) == g1;
    assert EventsAdmissible(g3, []) && RunEvents(g3, []) == g3;
    assert EventsAdmissible(g2, rest2) && RunEvents(g2, rest2) == g3;
    assert EventsAdmissible(g1, rest1) && RunEvents(g1, rest1) == g3;
  }

  /** Start at 0 ms, a frame at exactly 10 s, stop at 10 s: a win showing "10.000". */
  lemma WinScenario()
    ensures EventsAdmissible(FirstRender(), [ButtonPress(0), AnimationFrame(10000), ButtonPress(10000)])
    ensures var g := RunEvents(FirstRender(), [ButtonPress(0), AnimationFrame(10000), ButtonPress(10000)]);
      g.phase == Stopped && g.result == Some(Win) && FormatTime(g.tracker.time) == "10.000"
  {
    OneFrameRound(0, 10000, 10000);
    FormatTimeRound();
  }

  /**
   The verdict is on the last published time, not on the tracker's total: the
   last frame before a stop at exactly 10 s came at 9.985 s, so the round is lost
   although the tracker banked exactly 10 000 ms.
   */
  lemma StaleFrameDecides()
    ensures EventsAdmissible(FirstRender(), [ButtonPress(0), AnimationFrame(9985), ButtonPress(10000)])
    ensures var g := RunEvents(FirstRender(), [ButtonPress(0), AnimationFrame(9985), ButtonPress(10000)]);
      && g.result == Some(Lose)
      && g.tracker.accumulated == 10000 && Evaluate(g.tracker.accumulated) == Win
  {
    OneFrameRound(0, 9985, 10000);
  }
}
