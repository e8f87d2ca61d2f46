# AI_MediaPlayer playback core in Dafny

This project models the playback core of AI_MediaPlayer, an iOS video
player written in Swift. The model has three parts:

- **The playback state mirror** (`PlayerManager`). It holds `isPlaying`,
  `currentTime` and `duration`. `play` and `pause` overwrite these fields, and
  so do the engine's time, duration and rate notifications. `seek(to:completion:)`
  hands a target to the engine and runs the caller's completion only when the
  engine reports the seek finished.
- **The transport controls** (`PlayerControlsView`). This covers the
  `MM:SS` time labels with their NaN/infinity placeholder, the slider's range,
  the `isSeeking`/`sliderValue` synchronisation between slider drags and
  engine ticks, and the play/pause button.
- **The gesture overlay** (`GestureOverlayView`). For a gesture type and a
  value it picks the icon, the text and whether the level bar is drawn.

Modules follow the source files:

- `Playback` (PlayerManager.dfy) models PlayerManager.swift.
- `Controls` (PlayerControls.dfy) models PlayerControlsView.swift.
- `Overlay` (GestureOverlay.dfy) models GestureOverlayView.swift.

They rest on three helper modules:

- `Doubles` models Swift's `Double` as a finite real, NaN or an infinity,
  with IEEE comparisons. It also has `Int(_:)` as truncation toward zero and
  Swift's truncating `/` and `%`.
- `Numerals` models `String(format: "%0Nd")` and `"\(n)"`, plus a reader that
  parses the text back.
- `Clock` has the minutes/seconds split and a reader for `minutes:seconds` text.

Each formatter is paired with its reader, and round-trip lemmas show that the
text reads back as the numbers it was built from. `%d` reads a C `int`, so both
`formatTime`s show each `Int` field by its low 32 bits (`Doubles.Int32Bits`).
The class methods state their whole new state. Multi-step behaviour of the
controls is proved in client methods that drive any valid screen through
events:

- On a screen with no seek in flight, a drag whose seek the engine reports
  not finished leaves the slider frozen.
- On a screen with no seek in flight, a drag whose seek finishes releases the
  slider.
- On any screen, ticks, durations and rates never move the slider during a
  drag.

For the manager, `AnswerAll` drives a run of engine answers and collects
the completions that `CompletionsRun` names. The lemma
`CompletionRunsOnceIfFinished` then shows that a seek whose completion no
other seek in flight shares has it run exactly once if finished and never
otherwise.

A seek answer can release the slider during a drag, so that the next tick
moves it; see "## Findings".

The playback engine is not modelled. Its notifications are method calls,
already serialised on the main queue: `OnTick`, `OnDuration`, `OnRate` and
`OnSeekResult`. `PlayerScreen` plays the part of the SwiftUI runtime. It
delivers each notification to the manager and then runs the controls'
`onChange(of: currentTime)` handler when the time changed under Swift's `==`.

`seek` neither clamps its target nor updates `currentTime`, so `currentTime`
moves only with a later tick. PlayerManager.swift has no rate restore, no
rate cycling and no skipping.

## Model

| member | source | states |
|---|---|---|
| `Playback.PlayerManager.constructor` | AI_MediaPlayer/PlayerManager.swift:12-14 | A new manager is paused, at time 0, with duration 0, and has no seek in flight. |
| `Playback.PlayerManager.Play` | AI_MediaPlayer/PlayerManager.swift:34-37 | `isPlaying` becomes true; `currentTime`, `duration` and the seeks in flight are unchanged. |
| `Playback.PlayerManager.Pause` | AI_MediaPlayer/PlayerManager.swift:39-42 | `isPlaying` becomes false; the other fields are unchanged. |
| `Playback.PlayerManager.Seek` | AI_MediaPlayer/PlayerManager.swift:44-54 | Exactly one request (target, completion) is handed to the engine; `isPlaying`, `currentTime` and `duration` are unchanged, so there is no optimistic update. |
| `Playback.PlayerManager.OnSeekResult` | AI_MediaPlayer/PlayerManager.swift:46-52 | The engine's answer to the oldest seek returns that seek's completion to run exactly when `finished` is true, and nothing otherwise; the request leaves the queue either way; no observable field changes. |
| `Playback.PlayerManager.OnTick` | AI_MediaPlayer/PlayerManager.swift:69-71 | The periodic observer sets `currentTime` to the reported seconds and touches nothing else. |
| `Playback.PlayerManager.OnDuration` | AI_MediaPlayer/PlayerManager.swift:76-78 | The duration publisher sets `duration` to the reported seconds and touches nothing else. |
| `Playback.PlayerManager.OnRate` | AI_MediaPlayer/PlayerManager.swift:82-86 | After a rate notification `isPlaying` holds exactly when the rate is above 0, so a rate of 0, a negative rate or NaN means paused. |
| `Playback.CompletionsRun` | AI_MediaPlayer/PlayerManager.swift:46-52 | Answering seeks runs at most one completion per answer, and none when no answer is `finished`. |
| `Playback.AnswerAll` | AI_MediaPlayer/PlayerManager.swift:46-52 | A run of engine answers to the oldest seeks hands back exactly the completions `CompletionsRun` names for the queue before the answers, in order; those seeks leave the queue and no other field changes. |
| `Playback.CompletionsRunIgnoresLaterSeeks` | AI_MediaPlayer/PlayerManager.swift:44-54 | Seeks issued later join the back of the queue and do not change which completions the answers to earlier seeks run. |
| `Playback.CompletionRunsOnceIfFinished` | AI_MediaPlayer/PlayerManager.swift:46-52 | Over any run of engine answers, a seek whose completion no other seek in flight shares has it run exactly once if its answer is `finished` and never if it is not. |
| `Playback.NeverRun` | AI_MediaPlayer/PlayerManager.swift:48-51 | A completion no answered seek carries never runs. |
| `Doubles.Trunc` | AI_MediaPlayer/PlayerControlsView.swift:118 | `Int(time)` rounds toward zero: the result lies within one of the value, never beyond it, and has its sign. |
| `Doubles.ToInt` | AI_MediaPlayer/PlayerControlsView.swift:118 | `Int(time)` is a 64-bit integer within one of the time, on the side of zero: `n <= x < n + 1` for `x >= 0` and `n - 1 < x <= n` below 0. |
| `Doubles.Int32Bits` | AI_MediaPlayer/PlayerControlsView.swift:120 | An `Int` passed to `%d` is read as a 32-bit `int`: the result is in the 32-bit range, equals the number when it fits, and differs from it by a multiple of 2^32. |
| `Doubles.Quot` | AI_MediaPlayer/PlayerControlsView.swift:118 | Swift's `/` never gives a quotient of the opposite sign to the dividend. |
| `Doubles.Rem` | AI_MediaPlayer/PlayerControlsView.swift:119 | Swift's `%` gives a remainder smaller than the divisor in size, never of the opposite sign to the dividend. |
| `Doubles.QuotRem` | AI_MediaPlayer/PlayerControlsView.swift:118-119 | Swift's `/` and `%` recompose the dividend; the remainder is smaller than the divisor and never has the opposite sign to the dividend. |
| `Doubles.Scale` | AI_MediaPlayer/GestureOverlayView.swift:64 | `value * 100` is finite, NaN or infinite exactly when `value` is, and scales a finite value. |
| `Numerals.Format` | AI_MediaPlayer/PlayerControlsView.swift:120 | `%0Nd` text is at least one and at least N characters of sign and digits, starts with `-` exactly for negative numbers, and ends in a digit. |
| `Numerals.FormatRoundTrip` | AI_MediaPlayer/PlayerControlsView.swift:120 | `%0Nd` text is made of sign and digit characters, is at least N long, and reads back as the integer it was made from. |
| `Numerals.FormatTwoDigits` | AI_MediaPlayer/PlayerControlsView.swift:120 | `%02d` of a number from 0 to 99 is exactly two digits. |
| `Numerals.FormatPadOne` | AI_MediaPlayer/GestureOverlayView.swift:92 | `%02d` text is `%d` text with one leading zero for 0 to 9 and none otherwise, negative numbers included. |
| `Numerals.ValueOfDigits` | AI_MediaPlayer/PlayerControlsView.swift:120 | The decimal digits of `n` denote `n`. |
| `Numerals.ValueOfZeroPadded` | AI_MediaPlayer/PlayerControlsView.swift:120 | Leading zeros added by padding do not change the value. |
| `Clock.Minutes` | AI_MediaPlayer/PlayerControlsView.swift:118 | `Int(time) / 60` is the whole minutes counted toward zero: `m*60 <= n < m*60 + 60` from 0 up, `m*60 - 60 < n <= m*60` below 0. |
| `Clock.Seconds` | AI_MediaPlayer/PlayerControlsView.swift:119 | `Int(time) % 60` lies in (-60, 60), differs from `n` by whole minutes, and has the sign of `n`. |
| `Clock.ClockFields` | AI_MediaPlayer/PlayerControlsView.swift:118-119 | Minutes `n / 60` and seconds `n % 60` satisfy `minutes*60 + seconds == n`, with seconds in (-60, 60); for `n >= 0` both are non-negative, so seconds lie in [0, 60). |
| `Clock.ReadClockJoined` | AI_MediaPlayer/PlayerControlsView.swift:120 | Two rendered integers joined by `:` read back as those two integers. |
| `Clock.SplitAtJoin` | AI_MediaPlayer/GestureOverlayView.swift:67-68 | Text joined at a separator that is not in its first part splits back into the same two parts. |
| `Controls.FormatTime` | AI_MediaPlayer/PlayerControlsView.swift:113-121 | A NaN or infinite time gives the placeholder `--:--`; a finite time gives at least five characters of digits, signs and a colon. |
| `Controls.FormatTimeReadsBack` | AI_MediaPlayer/PlayerControlsView.swift:115-120 | The text reads back as two fields exactly when the time is finite: `n % 60` and `n / 60` as `%02d` shows it (low 32 bits). Whenever the minutes fit in 32 bits, the fields split the truncated time; the placeholder reads as no time. |
| `Controls.WideMinutesWrap` | AI_MediaPlayer/PlayerControlsView.swift:118-120 | 2^31 minutes (128849018880 seconds) converts to `Int` but shows as -2147483648 minutes: `%02d` wraps minutes beyond 32 bits. |
| `Controls.FormatTimeIsFiveChars` | AI_MediaPlayer/PlayerControlsView.swift:118-120 | For `0 <= trunc(t) < 6000` the text is exactly `MM:SS`: five characters, a colon at index 2, and two digits on each side. |
| `Controls.SliderUpperBound` | AI_MediaPlayer/PlayerControlsView.swift:25 | The slider's upper end is `duration` when that is above 0 and 1 otherwise, including NaN; it is always above 0, so the range is never empty or a single point. |
| `Controls.PlayerControls.constructor` | AI_MediaPlayer/PlayerControlsView.swift:9-13 | The controls start not seeking, with the slider at 0. |
| `Controls.PlayerControls.OnAppear` | AI_MediaPlayer/PlayerControlsView.swift:100-103 | On appearing, the slider takes the player's current time. |
| `Controls.PlayerControls.OnSliderMoved` | AI_MediaPlayer/PlayerControlsView.swift:25 | The slider's binding writes the dragged position, which lies in the slider's range, and leaves `isSeeking` alone. |
| `Controls.PlayerControls.OnEditingChanged` | AI_MediaPlayer/PlayerControlsView.swift:25-37 | A drag that begins raises `isSeeking` and issues no seek. A drag that ends issues exactly one seek, to the current `sliderValue`, carrying the completion that lowers `isSeeking`, and it does not lower `isSeeking` itself. |
| `Controls.PlayerControls.OnCurrentTimeChange` | AI_MediaPlayer/PlayerControlsView.swift:104-110 | A time change copies `currentTime` into the slider only when not seeking; while seeking the slider is untouched. |
| `Controls.PlayerControls.Run` | AI_MediaPlayer/PlayerControlsView.swift:33-35 | The seek's completion lowers `isSeeking` and leaves the slider where it is. |
| `Controls.PlayerControls.OnPlayPauseTapped` | AI_MediaPlayer/PlayerControlsView.swift:58-63 | The button calls `pause` when playing and `play` otherwise, so each press flips `isPlaying` and changes nothing else. |
| `Controls.PlayerScreen.constructor` | AI_MediaPlayer/PlayerControlsView.swift:6-13 | A screen holds a fresh manager and controls bound to it, all in their initial states. |
| `Controls.PlayerScreen.EngineTick` | AI_MediaPlayer/PlayerControlsView.swift:104-110 | A tick sets `currentTime`. The slider follows it only if the user is not seeking and the time differs from the old one; `isSeeking` is unchanged. |
| `Controls.PlayerScreen.EngineSeekResult` | AI_MediaPlayer/PlayerControlsView.swift:33-35 | `isSeeking` falls exactly when the engine reports the oldest seek finished and that seek carried a completion; otherwise it keeps its value. The slider does not move. |
| `Controls.PlayerScreen.EngineDuration` | AI_MediaPlayer/PlayerManager.swift:76-78 | A duration notification reaches the manager and no control. |
| `Controls.PlayerScreen.EngineRate` | AI_MediaPlayer/PlayerManager.swift:82-86 | A rate notification reaches the manager and no control. |
| `Controls.Deliver` | AI_MediaPlayer/PlayerControlsView.swift:104-110 | A tick sets `currentTime` and moves the slider to it exactly when not seeking and the time changed under `==`. A duration notification sets `duration`, and a rate notification sets `isPlaying` to `rate > 0`; neither moves the slider. None of them touches `isSeeking` or the seeks in flight. |
| `Controls.UnfinishedSeekFreezesSlider` | AI_MediaPlayer/PlayerControlsView.swift:26-35 | On any screen with no seek in flight, if the seek issued at the end of a drag is reported not finished, `isSeeking` stays true and the slider stays at the dragged position whatever ticks, durations and rates follow. |
| `Controls.FinishedSeekReleasesSlider` | AI_MediaPlayer/PlayerControlsView.swift:26-35 | On any screen with no seek in flight, if that seek is reported finished, `isSeeking` falls. The next tick moves the slider to its time, unless it repeats the player's previous time, in which case `onChange` does not fire. |
| `Controls.DragHoldsSlider` | AI_MediaPlayer/PlayerControlsView.swift:104-110 | On any screen, whatever seeks are in flight, no tick, duration or rate notification moves the slider during a drag. |
| `Controls.StaleSeekMovesSliderMidDrag` | AI_MediaPlayer/PlayerControlsView.swift:25-37 | Drag, release, drag again: if the first seek finishes during the second drag, `isSeeking` falls and the next tick that changes the time moves the slider under the finger. |
| `Controls.GuardedControls.OnEditingChanged` | AI_MediaPlayer/PlayerControlsView.swift:25-37 | Corrected controls: a drag that begins gets the next number and raises `isSeeking`; a drag that ends issues one seek whose completion names that drag. The invariant `Valid` is kept. |
| `Controls.GuardedControls.EngineSeekResult` | AI_MediaPlayer/PlayerControlsView.swift:33-35 | Corrected controls: a finished seek lowers `isSeeking` only when its completion names the latest drag, so during a drag no answer lowers it. |
| `Controls.GuardedControls.EngineTick` | AI_MediaPlayer/PlayerControlsView.swift:104-110 | Corrected controls: a tick moves the slider under the same rule as the original controls. |
| `Controls.GuardedDragHoldsSlider` | AI_MediaPlayer/PlayerControlsView.swift:25-37 | Corrected controls, same events as `StaleSeekMovesSliderMidDrag`: the slider stays under the finger; once the second drag ends and its own seek finishes, `isSeeking` falls. |
| `Overlay.IconName` | AI_MediaPlayer/GestureOverlayView.swift:42-59 | A speaker icon is shown exactly for volume, and the timer exactly for progress. The lemmas below say which speaker icon. |
| `Overlay.VolumeIconByLevel` | AI_MediaPlayer/GestureOverlayView.swift:44-53 | For a finite value the volume icon is the one of its band: 0 slash, (0, 0.33) wave.1, [0.33, 0.66) wave.2, from 0.66 wave.3. Exactly one icon is picked. |
| `Overlay.VolumeIconsDistinct` | AI_MediaPlayer/GestureOverlayView.swift:44-53 | Two values show the same volume icon exactly when they fall in the same band. |
| `Overlay.VolumeLevelMonotone` | AI_MediaPlayer/GestureOverlayView.swift:45-53 | For values from 0 up, the band never decreases as the value grows. |
| `Overlay.NegativeVolumeShowsLow` | AI_MediaPlayer/GestureOverlayView.swift:45-48 | A negative value shows wave.1, a louder band than 0 has, so the bands are not monotone below 0. |
| `Overlay.VolumeIconOfNonFinite` | AI_MediaPlayer/GestureOverlayView.swift:45-53 | NaN and plus infinity show wave.3; minus infinity shows wave.1. |
| `Overlay.FixedIcons` | AI_MediaPlayer/GestureOverlayView.swift:54-57 | Brightness always shows `sun.max.fill` and progress always shows `timer`, whatever the value. |
| `Overlay.Percent` | AI_MediaPlayer/GestureOverlayView.swift:64-66 | For values from 0, the shown percentage `Int(value*100)` lies within one below `value*100`. It lies in [0, 100] for `value` in [0, 1], and is 100 only at 1. |
| `Overlay.FormatTime` | AI_MediaPlayer/GestureOverlayView.swift:89-93 | The overlay's `%d:%02d` text consists of digits, signs and a colon and ends in a digit; it has no NaN guard, so the time must convert to `Int`. |
| `Overlay.FormatTimeReadsBack` | AI_MediaPlayer/GestureOverlayView.swift:89-93 | The overlay's time text reads back as the seconds `n % 60` and the minutes `n / 60` as `%d` shows them (low 32 bits). Whenever the minutes fit in 32 bits, the two split the truncated time, with seconds in [0, 60) for times from 0. |
| `Overlay.FormatTimeAgainstControls` | AI_MediaPlayer/GestureOverlayView.swift:89-93 | For times from 0, the seconds field is two digits after a colon. The controls' text is the overlay's with one extra leading zero when the shown minutes are 0 to 9. |
| `Overlay.ReadElapsedOf` | AI_MediaPlayer/GestureOverlayView.swift:67-68 | Two clock texts joined by ` / ` read back as the two clocks. |
| `Overlay.DisplayText` | AI_MediaPlayer/GestureOverlayView.swift:61-70 | The text is never empty, and it ends in `%` exactly for volume and brightness; progress text ends in a digit. `DisplayTextReadsBack` states what it reads as. |
| `Overlay.DisplayTextReadsBack` | AI_MediaPlayer/GestureOverlayView.swift:61-70 | Volume text reads back as a volume percentage `Int(value*100)` and brightness text as a brightness one. Progress text reads back as the two clocks `formatTime(current)` and `formatTime(total)` show. |
| `Overlay.ProgressTextReadsBack` | AI_MediaPlayer/GestureOverlayView.swift:67-68 | Progress text reads back as two clocks whose fields split the current and the total truncated times whenever their minutes fit in 32 bits. |
| `Overlay.ClocksTextReadsBack` | AI_MediaPlayer/GestureOverlayView.swift:67-68 | Two clock texts around ` / ` read back as those clocks, and never as a volume or brightness percentage. |
| `Overlay.ShowsLevelBar` | AI_MediaPlayer/GestureOverlayView.swift:28-32 | The level bar is drawn exactly for the two level gestures, volume and brightness. `LevelBarWithLevelIcon` and `LevelBarWithPercent` tie it to the icon and to the text. |
| `Overlay.LevelBarWithLevelIcon` | AI_MediaPlayer/GestureOverlayView.swift:28-32 | The level bar is drawn exactly for volume and brightness, which is exactly when the icon is not `timer`. |
| `Overlay.LevelBarWithPercent` | AI_MediaPlayer/GestureOverlayView.swift:28-32 | The level bar is drawn exactly when the text reads as a percentage rather than as two clocks. |

## Findings

| source | as written | input that shows it | evidently intended | confidence | as-written member | corrected member |
|---|---|---|---|---|---|---|
| AI_MediaPlayer/PlayerControlsView.swift:25-37 | Every seek's completion sets `isSeeking = false`, including the completion of a seek from an earlier drag | drag to `first` and release; grab the slider again and move it to `second`; the first seek finishes; a tick with a new time `t` arrives | the slider does not jump back while the user drags (the comment at lines 30-32) | medium, not executed | `Controls.StaleSeekMovesSliderMidDrag` | `Controls.GuardedDragHoldsSlider` |

`PlayerControls` and `PlayerScreen` keep the source's behaviour, since they
model the code as written. `GuardedControls` is the corrected variant beside
them: drags are numbered, and a completion lowers `isSeeking` only when it
ends the latest drag. Its invariant `Valid` says every seek in flight belongs
to a drag that has begun, and during a drag to an earlier one.

## Left out

- The playback engine. AVFoundation's `AVAsset`, `AVPlayerItem` and `AVPlayer`, the timescale-600 `CMTime` target and zero-tolerance seeking are foreign calls. Their notifications are method parameters. `player` is always set by `init(url:)`, so the `player?` no-op case is not modelled.
- The engine's answers to seeks are taken oldest first. AVPlayer answers a superseded seek with `finished == false` before it answers a newer one.
- The `play()` and `pause()` calls into the engine are not recorded. Only their effect on `isPlaying` is modelled. The rate notification that the engine sends later arrives as `OnRate`.
- Combine publishers, `DispatchQueue.main` dispatch, `[weak self]` capture and the `deinit` observer removal are concurrency and lifetime plumbing. Events are taken as already serialised.
- Floating point. A finite `Double` is an exact real, so `value * 100` and the literals 0.33 and 0.66 are not rounded. Negative zero is not distinguished from zero.
- `Int(_:)` traps on NaN, infinity, and finite values outside 64 bits. This is a precondition (`ConvertsToInt`), not a modelled crash.
- `onChange(of:)` is taken to fire exactly when the new time differs from the old one under Swift's `==`, so a NaN tick always fires it.
- `skipBackward`, `skipForward`, `cyclePlaybackRate` and `playbackRate` are used at AI_MediaPlayer/PlayerControlsView.swift:50, 72, 80 and 82. They are not defined in AI_MediaPlayer/PlayerManager.swift, so they have no behaviour to model.
- The full-screen toggle, the play/pause icon choice, the rate label, and the level bar's fill width are view state and styling. All other SwiftUI layout and previews are left out too.
- `getPlayer()` only exposes the engine handle, which is not modelled.
- Persistence, playlist, history and app bootstrap are outside this core.
