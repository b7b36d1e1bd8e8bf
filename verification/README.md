# Timer challenge: elapsed-time hook and game controller

A one-screen game: the player taps Start, a stopwatch runs, and the player taps
Stop trying to hit exactly 10.000 seconds. A stop within 10 ms of the target wins.
This project models the two pieces of logic under the screen and proves
properties of them:

- **`UseTimer`** (`hooks/useTimer.ts`). The `useTimer` hook becomes an immutable
  `Tracker` record with four fields: the published `time`, `running`, the open
  segment's start (`segmentStart`, the hook's `startTimeRef`) and the banked
  total (`accumulated`, the hook's `accumulatedTimeRef`). The React effect keyed
  on `isRunning` and the `requestAnimationFrame` loop become four explicit
  transitions: `Start`, `Tick` (one animation frame), `Stop` and `Reset`.
  `Start`, `Tick` and `Stop` take the monotonic clock reading
  (`performance.now()`) as a `now: nat` of milliseconds; `Reset`, like
  `reset()`, reads no clock. Sequences of calls (`Call`, `Run`) carry the
  lemmas about polling drift and accumulation.
- **`App`** (`App.tsx`). The screen is a three-phase controller
  (`Idle`/`Running`/`Stopped`) plus a nullable `Win`/`Lose` result, wrapped
  around the tracker. The model covers `handleButtonPress`, `evaluateResult`,
  `handlePlayAgain`, the button label, the instruction text, the overlay wiring
  (`visible={result !== null}`, `isWin={result === 'win'}`) and `formatTime`.
  Traces of events (`Event`, `RunEvents`) starting from the first render carry the
  reachability invariant.
- **`ResultModal`** (`components/ResultModal.tsx`). The overlay's win/lose title
  and subtitle, and its own copy of the time formatter.
- **`Decimal`**. `Number.prototype.toString()` on non-negative integers and
  `String.prototype.padStart` with a one-character fill, as used by both
  formatters. It also has `Parse`, which reads a digit string back; the
  formatters are proved against it.
- **`Wrappers`**. `Option`, which stands for the source's `null`.

Two behaviours of the code are easy to miss, and one display quirk follows
from the formatter:

- Pressing the main button in `Stopped` does nothing (`App.tsx:34-45` has no
  branch for it). Only Play Again leaves `Stopped`.
- The verdict is taken on the last published `time` (`App.tsx:50`), not on the
  tracker's final total. Stopping never republishes `time`. `StaleFrameDecides`
  shows a round that is lost although exactly 10 000 ms were banked.
- `formatTime(59999)` is `"59.099"`, not `"59.999"`. The fraction field is a
  count of hundredths padded to three digits, so it never shows more than `099`.

The clock is an explicit argument. The one demand on it is that it is monotonic:
a reading is never earlier than the start of the segment that is open
(`Covers`). This is what `performance.now()` guarantees. `MonotoneClockAdmissible`
shows that any non-decreasing sequence of readings meets it.

## Model

| member | source | states |
|---|---|---|
| UseTimer.Start | hooks/useTimer.ts:19-21 | Opens a segment stamped with `now` and sets running. Called while already running, it returns the tracker unchanged, because the effect is keyed on `isRunning` alone. It never touches `accumulated` or `time`. |
| UseTimer.Reading | hooks/useTimer.ts:25-26 | The value a frame computes is at least the banked total. It equals the banked total when not running. While running with an open segment, it exceeds the banked total by exactly `now - segmentStart`. |
| UseTimer.Tick | hooks/useTimer.ts:23-28 | With an open segment, a frame publishes `accumulated + (now - segmentStart)`, which is at least `accumulated`. With no open segment, or when not running, nothing changes. Only `time` is ever written. |
| UseTimer.Stop | hooks/useTimer.ts:33-39 | Adds exactly `now - segmentStart` to `accumulated`, so the banked total equals the running reading at `now`. Clears the segment whenever it was running, and stops running. `time` is left unchanged. Called when already stopped, it changes nothing. |
| UseTimer.Reset | hooks/useTimer.ts:64-72 | From any state: `time = 0`, `accumulated = 0`, no segment, not running. |
| UseTimer.TransitionsKeepWellFormed | hooks/useTimer.ts:18-72 | Every transition keeps "a segment is open iff running". |
| UseTimer.StopIdempotent | hooks/useTimer.ts:35-39 | A second stop, at any later reading, changes nothing. |
| UseTimer.StartIdempotent | hooks/useTimer.ts:51-55 | A second start keeps the first start instant. |
| UseTimer.MonotoneClockAdmissible | hooks/useTimer.ts:21-36 | A non-decreasing clock never reads earlier than an open segment's start, at any point of any call sequence. |
| UseTimer.AccumulatedMonotone | hooks/useTimer.ts:37 | Without a reset, the banked total never decreases over any call sequence. |
| UseTimer.FramesDoNotDrift | hooks/useTimer.ts:23-39 | Deleting every animation frame from a call sequence leaves the final running flag, segment and banked total unchanged. Polling rate cannot drift the total. |
| UseTimer.BankedDeterminesRun | hooks/useTimer.ts:23-39 | Two trackers that differ only in the published `time` end with the same banked state after any call sequence. |
| UseTimer.SegmentsAccumulate | hooks/useTimer.ts:35-39 | One start/stop pair per ordered segment banks exactly the sum of the segment lengths on top of the earlier total. |
| Decimal.ToDecimal | App.tsx:68 | `n.toString()` is a non-empty digit string with no leading zero. It has one digit iff `n < 10`, and at most two digits when `n < 100`. |
| Decimal.ParseToDecimal | App.tsx:68 | Reading `n.toString()` back gives `n`. |
| Decimal.PadStart | App.tsx:68 | `padStart` yields length `max(len, width)`. The original string is kept as the suffix, unshortened, behind fill characters. |
| Decimal.ParseZeroPadded | App.tsx:68 | Zero-padding a numeral does not change the value it denotes. |
| ResultModal.Title | components/ResultModal.tsx:78-80 | The congratulation heading iff `isWin`, the "Bad Luck!" heading iff not. |
| ResultModal.Subtitle | components/ResultModal.tsx:81-83 | "You Won!" iff `isWin`, "Try Again!" iff not. |
| ResultModal.SecondsField | components/ResultModal.tsx:60-62 | The seconds field is a digit string of length `max(2, digits of ms div 1000)`, so it is never truncated. It denotes `ms div 1000`. |
| ResultModal.FractionField | components/ResultModal.tsx:61-62 | The fraction field has exactly 3 digits and its first is '0'. It denotes `(ms mod 1000) div 10`, which is at most 99. |
| ResultModal.FormatTime | components/ResultModal.tsx:59-63 | Output of at least 6 characters. The only non-digit is one '.', fourth from the end. The part before it denotes `ms div 1000` and the part after it denotes `(ms mod 1000) div 10`. |
| App.FormatTime | App.tsx:65-69 | Has no contract of its own. `FormatTimeAgrees`, `FormatTimeReadsBack`, `SameDisplayIffSameHundredth` and `FormatTimeShort` state its properties. |
| App.FormatTimeAgrees | App.tsx:65-69 | The screen's formatter agrees with the overlay's duplicate on every input. |
| App.FormatTimeReadsBack | App.tsx:65-69 | Parsing the display gives back `(ms div 1000, (ms mod 1000) div 10)`. |
| App.SameDisplayIffSameHundredth | App.tsx:66-68 | Two times display the same iff they fall in the same hundredth of a second (`a div 10 == b div 10`). |
| App.FormatTimeShort | App.tsx:65-69 | Below 100 s the display is exactly six characters: the two digits of the seconds, '.', '0', and the two digits of the hundredths count. |
| App.FormatTimeTruncates | App.tsx:65-69 | 10034 ms displays "10.003". |
| App.FormatTimeRound | App.tsx:65-69 | 0 ms displays "00.000" and 10000 ms displays "10.000". |
| App.FormatTimeNinetyNine | App.tsx:65-69 | 59999 ms displays "59.099": the fraction never shows more than 099. |
| App.FormatTimeBandEdge | App.tsx:65-69 | 9990 ms, the lower edge of the winning band, displays "09.099". |
| App.FormatTimeLong | App.tsx:65-69 | 125678 ms displays "125.067". |
| App.Distance | App.tsx:50 | `Math.abs(a - b)` on whole milliseconds: the result added to the smaller argument gives the larger. |
| App.Evaluate | App.tsx:47-56 | Win iff the time lies in 9990..10010 ms, both ends included. |
| App.EvaluateBoundaries | App.tsx:47-56 | 9990, 10000 and 10010 win. 9989 and 10011 lose. |
| App.Press | App.tsx:34-45 | In `Idle`: resets then starts the tracker (segment stamped `now`, nothing banked, `time` 0), moves to `Running` and clears the result. In `Running`: stops the tracker, moves to `Stopped` and sets the result to the verdict on the published `time`, which stopping leaves unchanged. In `Stopped`: phase, result and tracker are all untouched. |
| App.PlayAgain | App.tsx:59-63 | From any state: `Idle`, no result, and a tracker with zero time, nothing banked, no segment, not running. |
| App.Frame | hooks/useTimer.ts:23-28 | A frame reaches only the tracker. Phase and result stay. |
| App.ButtonLabel | App.tsx:71-75 | "Stop" iff the phase is `Running`, "Start" otherwise. |
| App.Instruction | App.tsx:105-111 | "Tap Start to begin" iff `Idle`, "Tap Stop at exactly 10.000 seconds" iff `Running`, and "Tap Play Again to try again" iff `Stopped`. |
| App.InstructionTellsPhase | App.tsx:105-111 | The instruction text is a function of the phase, with a different text for each phase. |
| App.MonotoneClockAdmitsEvents | App.tsx:34-45 | With a non-decreasing clock, every sequence of presses, frames and play-agains is admissible. |
| App.RunKeepsInv | App.tsx:30-63 | Every event sequence keeps the invariant. `Idle` means a fresh tracker and no result. `Running` means an open segment, nothing banked and no result. `Stopped` means a closed tracker and a result equal to the verdict on the displayed time. |
| App.ModalVisible | App.tsx:132 | The overlay is visible iff a `Win` or `Lose` result is set. |
| App.ModalIsWin | App.tsx:133 | The overlay shows a win only when it is visible. |
| App.ReachableStates | App.tsx:130-136 | In every state reachable from the first render: a result is set iff the phase is `Stopped`, so the overlay is visible exactly then. The overlay says "You Won!" iff it is shown and the displayed time wins. The button reads "Stop" iff the tracker runs. |
| App.OneFrameRound | App.tsx:34-56 | For any start, one frame and a stop, in clock order, the round ends in `Stopped`. The verdict and the displayed time come from the frame's reading (`frame - start`), and the banked total is `stop - start`. |
| App.WinScenario | App.tsx:34-56 | Start at 0 ms, a frame at 10000 ms, stop at 10000 ms: `Stopped`, a win, display "10.000". |
| App.StaleFrameDecides | App.tsx:40-50 | For a start at 0 ms, a last frame at 9985 ms and a stop at 10000 ms, the result is `Lose` while the tracker's banked total is exactly 10000 ms, a winning value. |

## Left out

- Floating-point time. The hook measures fractional milliseconds with `performance.now()`. The model uses whole milliseconds (`nat`), on which the win rule is exact. The formatter matches the source up to 2^53 ms: below that every integer is a double, and both `Math.floor(ms / 1000)` and `Math.floor((ms % 1000) / 10)` floor exactly. Above 2^53 ms the source's division rounds before flooring, so its output may differ from the model's.
- Decimal.ToDecimal: writes every `nat` in plain digits, while JavaScript's `toString()` switches to exponent form from 1e21 up. This lies far above 2^53 ms, and a stopwatch never gets near either bound.
- `requestAnimationFrame` scheduling and cancellation, React effect timing and state batching. Each call is an atomic transition, and a frame is an explicit `FrameAt`/`AnimationFrame` event. `reset(); start();` in the same press is modelled as `Start(Reset(t), now)`. This matches the batched React behaviour in every reachable `Idle` state, where the tracker is not running (`App.RunKeepsInv`).
- The animation-frame handle (`animationFrameRef`). Its only role is cancelling frames. In the model, a frame does nothing once the tracker is not running.
- The font-loading screen (`App.tsx:77-83`), the static "Target" / "Win Range" texts (`App.tsx:125-126`), styles, gradients and `Dimensions`. These are presentation with no logic.
- Overlay open/close animations (`components/ResultModal.tsx:39-57`). The title emoji are written as their Unicode code points (U+1F389, U+1F614).
- components/BuzzerButton.tsx (press-scale and glow animation, size math) and components/Confetti.tsx (random particle animation). Neither has behavioural content, so they are not part of this model.
