# FocusFlow core in Dafny

A verified model of the behaviour of FocusFlow, a study timer that watches
the user's engagement. The app runs a Pomodoro timer. During a focus
session an engagement score decays every second and rises on mouse, keyboard
or camera activity. When the score drops below a threshold, the app
interrupts with a short challenge: a joke, a fun fact, or a counting puzzle.
Points, completed sessions and achievements reward the user.

Modules, one per file:

- `Common` (common.dfy): `Option`, `Min`/`Max`, the `slice(-n)` and
  `slice(0, n)` helpers, and `Math.round(x * 100)` on thousandths.
- `Types` (types.dfy): the records and tagged unions of `types.ts`.
- `Constants` (constants.dfy): durations, engagement constants, and the
  achievement catalog with its conditions.
- `Gemini` (gemini.dfy): the idle-penalty function, and the decision the
  challenge provider makes between the generated challenge and the fallback.
- `Engagement` (engagement.dfy): the engagement hook.
  - A pure `TrackerState` with one transition function per handler or
    interval body.
  - Trace lemmas over event sequences.
  - `class EngagementTracker`, whose methods perform each transition in place.
- `Pomodoro` (pomodoro.dfy): the timer state machine, runs of ticks,
  `formatTime` and its inverse, and `class PomodoroTimer`.
- `App` (app.dfy): the achievement evaluator and its lemmas, and
  `class FocusApp`, the coordinator that owns points, sessions, the modal
  flag and the tracker.
- `Camera` (camera.dfy): the RGB frame difference over `array<byte>`, the
  motion threshold, and `class CameraView` for the stored frame, the stream
  and the sampling interval.
- `Dashboard` (dashboard.dfy): the derived statistics.
- `ChallengeModal` (modal.dfy): the counting, joke and fun-fact interactions
  and the modal's loading state and dispatch.
- `Gauge` (gauge.dfy): the gauge's normalized score, colour band and
  displayed number.

Conventions:

- Scores are integers in thousandths of the source's `[0, 1]` range.
  - Maximum 1000, decay 5 per tick, activity bump 100, threshold 900.
  - Hidden-tab penalty 500, idle penalty 20.
  - The gauge bands are 0.7 and 0.4, so 700 and 400.
- `Date.now()` is a `now: int` parameter in milliseconds.
- Interval callbacks and event handlers are explicit method calls.
- The asynchronous idle penalty is two calls:
  - `IdleCheck` sets the flag and returns the score it captured.
  - `ResolveIdlePenalty` later overwrites the score with the penalised
    captured value. The last writer wins, as in the source.
- Results of foreign calls are parameters:
  - whether the camera was acquired;
  - the decoded frame bytes;
  - the parsed JSON and image bytes of the generator;
  - the parsed number typed into the counting form, with `None` for NaN.

In these places the model follows the code:

- `Challenge` has a fourth variant, `Unrecognized(kind)`. The provider casts
  the generated JSON without checking its `type`
  (services/geminiService.ts:81). The modal handles that case with its
  `default:` branch, "Something went wrong." (line 94), and `getIcon` then
  returns no icon (lines 98-105).
- `stopTracking` resets the score and history only. The breach flag, the idle
  flag and the last-activity time keep their values.
- A counting challenge whose image call fails falls back to the mock, like
  any other thrown error.
- In integer thousandths the 21st decay tick after a start is the first one
  that breaches the threshold: 1000 − 21·5 = 895 < 900, while after 20 ticks
  the score is exactly 900. In IEEE doubles the tick may differ; see below.

## Model

| member | source | states |
|---|---|---|
| Constants.CatalogConditions | constants.ts:40-46 | the catalog has five entries, with ids first_points, first_pomodoro, master_pomodoro, point_collector and point_hoarder; each holds iff points ≥ 10, sessions ≥ 1, sessions ≥ 5, points ≥ 100 and points ≥ 500 respectively |
| Constants.CatalogIdsDistinct | constants.ts:40-46 | the five catalog ids are pairwise distinct |
| Constants.ConditionMonotone | constants.ts:41-45 | every catalog condition that holds still holds with more points and more sessions |
| Common.SliceLast | hooks/useEngagement.ts:76 | `slice(-n)` returns the last min(length, n) elements, as a suffix of the input |
| Common.SliceFirst | components/Dashboard.tsx:45 | `slice(0, n)` returns the first min(length, n) elements, as a prefix of the input |
| Common.RoundedPercent | components/EngagementGauge.tsx:55 | `Math.round(x * 100)` for x in thousandths: the result r satisfies 10r − 5 ≤ x < 10r + 5 |
| Gemini.CalculateIdlePenalty | services/geminiService.ts:95-106 | the result is max(0, score − 20): never negative, either 0 or score − 20, and never above a nonnegative input |
| Gemini.MockChallenge | services/geminiService.ts:14-19 | the mock is the fun fact about honey |
| Gemini.GetEngagementChallenge | services/geminiService.ts:21-87 | without a key or in a browser the result is the mock; a failed call gives the mock; a counting result always has its image URL, which is the PNG data-URL prefix plus the image bytes, with the question and answer from the JSON; a joke or fun fact is passed through; an unknown type is passed through unchecked |
| Gemini.NoCredentialsAlwaysMock | services/geminiService.ts:27-29 | without an API key, whatever the remote calls would have returned, the result is the fun-fact mock |
| Engagement.Initial | hooks/useEngagement.ts:13-21 | the initial tracker has full score, empty history, both flags clear and last activity at `now` |
| Engagement.AfterActivity | hooks/useEngagement.ts:23-29 | score becomes min(score + 100, 1000); the idle flag clears; last activity becomes `now`; history and the breach flag are kept; the invariant is preserved |
| Engagement.AfterStart | hooks/useEngagement.ts:31-37 | starting resets the tracker to the initial state at `now`: full score, empty history, both flags clear |
| Engagement.AfterStop | hooks/useEngagement.ts:39-42 | score becomes full and history empty; the breach flag, the idle flag and last activity are untouched |
| Engagement.AfterReset | hooks/useEngagement.ts:44-49 | score becomes full, both flags clear, last activity becomes `now`, and history is unchanged |
| Engagement.AfterDecayTick | hooks/useEngagement.ts:64-80 | the new score is max(0, score − 5); the breach fires iff the new score is below the threshold and the flag was unset, and the flag becomes set then; history becomes the last ≤ 99 old records plus a record of `now` and the new score, so it is at most 100 long; nothing else changes |
| Engagement.AfterVisibilityChange | hooks/useEngagement.ts:54-58 | hiding the tab sets score to max(0, score − 500); showing it changes nothing; flags and history are untouched |
| Engagement.AfterIdleCheck | hooks/useEngagement.ts:93-103 | a penalty is requested iff now − last activity > 13000 and the idle flag is unset; the request carries the current score and sets the flag; otherwise nothing changes |
| Engagement.AfterIdlePenalty | hooks/useEngagement.ts:99-100 | the resolved penalty overwrites the score with the penalty of the captured score, which stays in [0, captured]; nothing else changes |
| Engagement.RunKeepsInv | hooks/useEngagement.ts:23-106 | over any sequence of handler and interval events whose resolved penalties were captured in range, the score and every recorded score stay in [0, 1000] and the history at most 100 long |
| Engagement.BreachAtMostOnce | hooks/useEngagement.ts:67-70 | between start/reset calls the breach callback fires at most once, and never when the flag is already set |
| Engagement.IdleRequestAtMostOnce | hooks/useEngagement.ts:96-97 | without activity, start or reset in between, at most one idle penalty is requested, and none once the flag is set |
| Engagement.TicksDecay | hooks/useEngagement.ts:65 | n decay ticks in a row leave the score at max(0, score − 5n) |
| Engagement.ScoreNeverRisesWithoutActivity | hooks/useEngagement.ts:54-80 | without activity, start, stop, reset or a resolved penalty, the score never rises and never goes negative |
| Engagement.TicksBreachCount | hooks/useEngagement.ts:67-70 | from an unset breach flag, a non-empty run of ticks fires the breach exactly once if the final score is below the threshold, and otherwise never |
| Engagement.FirstBreachOnTwentyFirstTick | hooks/useEngagement.ts:31-37 | after a start with threshold 900, twenty ticks fire no breach and the twenty-first fires it |
| Engagement.ActivityDuringPenaltyIsOverwritten | hooks/useEngagement.ts:93-101 | activity that arrives between the idle request and its resolution is lost: the resolved score is the penalised captured score |
| Engagement.EngagementTracker.constructor | hooks/useEngagement.ts:13-21 | a new tracker is in the initial state with the given threshold |
| Engagement.EngagementTracker.HandleActivity | hooks/useEngagement.ts:23-29 | the new state is `AfterActivity` of the old one |
| Engagement.EngagementTracker.StartTracking | hooks/useEngagement.ts:31-37 | the new state is `AfterStart` of the old one |
| Engagement.EngagementTracker.StopTracking | hooks/useEngagement.ts:39-42 | the new state is `AfterStop` of the old one |
| Engagement.EngagementTracker.ResetEngagement | hooks/useEngagement.ts:44-49 | the new state is `AfterReset` of the old one |
| Engagement.EngagementTracker.DecayTick | hooks/useEngagement.ts:64-80 | the new state and the breach signal are those of `AfterDecayTick` |
| Engagement.EngagementTracker.HandleVisibilityChange | hooks/useEngagement.ts:54-58 | the new state is `AfterVisibilityChange` of the old one |
| Engagement.EngagementTracker.IdleCheck | hooks/useEngagement.ts:93-103 | the new state and the captured score are those of `AfterIdleCheck` |
| Engagement.EngagementTracker.ResolveIdlePenalty | hooks/useEngagement.ts:99-100 | the new state is `AfterIdlePenalty` of the old one |
| Pomodoro.InitialTimer | components/PomodoroTimer.tsx:15-17 | the timer starts inactive in focus mode with 1500 seconds left |
| Pomodoro.CeilSeconds | components/PomodoroTimer.tsx:59 | `Math.ceil(ms / 1000)` for positive ms: the least r with ms ≤ 1000r, so at least 1 |
| Pomodoro.AfterSwitchMode | components/PomodoroTimer.tsx:28-42 | the timer stops and reports STOPPED; the completion fires iff the mode was focus; focus goes to break with 300 seconds, and break to focus with 1500 |
| Pomodoro.AfterTick | components/PomodoroTimer.tsx:53-61 | an inactive timer is unchanged; with time remaining, timeLeft becomes ceil(remaining / 1000), the timer stays active in its mode and nothing is reported; at or past the target, timeLeft is set to 0 and the mode switches |
| Pomodoro.AfterStartPause | components/PomodoroTimer.tsx:76-85 | pausing makes the timer inactive and reports PAUSED, keeping mode and timeLeft; starting sets the target to now + timeLeft·1000, makes it active and reports FOCUS or BREAK to match the mode; neither completes |
| Pomodoro.AfterTimerReset | components/PomodoroTimer.tsx:87-92 | reset leaves the timer inactive in focus mode with 1500 seconds and reports STOPPED without completing |
| Pomodoro.RunTicksAppend | components/PomodoroTimer.tsx:53-65 | ticks over a concatenation are the ticks of the first part followed by those of the second, with the completions added |
| Pomodoro.InactiveTicksChangeNothing | components/PomodoroTimer.tsx:44-51 | ticks on an inactive timer change nothing and complete nothing |
| Pomodoro.TicksBeforeDeadline | components/PomodoroTimer.tsx:53-61 | ticks before the deadline keep the timer active, in its mode and with its target, complete nothing, and leave timeLeft at the ceiling of the time remaining at the last tick |
| Pomodoro.DeadlineEndsPhaseOnce | components/PomodoroTimer.tsx:53-61 | the first tick at or after the deadline switches the phase exactly once; every later tick finds the timer inactive |
| Pomodoro.FullFocusSession | components/PomodoroTimer.tsx:28-36 | started at t0 and ticked every second, the timer counts 1500, 1499, … down; the tick at t0 + 1500 s ends in break mode, inactive, with 300 seconds left and exactly one completion |
| Pomodoro.TimeLeftNeverExceedsStart | components/PomodoroTimer.tsx:54-59 | after starting, a tick before the deadline leaves timeLeft at most its value at the start |
| Pomodoro.TimeLeftNonIncreasing | components/PomodoroTimer.tsx:54-59 | of two ticks before the deadline, the later never shows more time left than the earlier |
| Pomodoro.DigitChar | components/PomodoroTimer.tsx:23-24 | a digit's character encodes exactly that digit |
| Pomodoro.NatToString | components/PomodoroTimer.tsx:23-24 | `toString` of a natural number is non-empty, one character below 10 and at most two below 100 |
| Pomodoro.NatToStringDigits | components/PomodoroTimer.tsx:23-24 | `toString` of a natural number is a digit string denoting that number |
| Pomodoro.PadStart2 | components/PomodoroTimer.tsx:23-24 | `padStart(2, '0')` has length max(2, length), ends with its input, and has only zeros in front of it |
| Pomodoro.LeadingZero | components/PomodoroTimer.tsx:23-24 | a leading zero does not change a digit string's value |
| Pomodoro.PadStart2Value | components/PomodoroTimer.tsx:23-24 | `padStart(2, '0')` keeps the value and gives length max(2, length) |
| Pomodoro.FormatTimeShape | components/PomodoroTimer.tsx:22-26 | the contract of `formatTime`: it gives at least two minute digits denoting seconds div 60, a colon, and exactly two second digits denoting seconds mod 60; below 100 minutes the text is exactly five characters |
| Pomodoro.FormatTimeRoundTrip | components/PomodoroTimer.tsx:22-26 | parsing the formatted text back gives the original number of seconds |
| Pomodoro.PomodoroTimer.constructor | components/PomodoroTimer.tsx:15-20 | a new timer is in the initial state |
| Pomodoro.PomodoroTimer.SwitchMode | components/PomodoroTimer.tsx:28-42 | the new state, the report and the completion are those of `AfterSwitchMode` |
| Pomodoro.PomodoroTimer.Tick | components/PomodoroTimer.tsx:53-61 | the new state, the report and the completion are those of `AfterTick` |
| Pomodoro.PomodoroTimer.HandleStartPause | components/PomodoroTimer.tsx:76-85 | the new state and the report are those of `AfterStartPause` |
| Pomodoro.PomodoroTimer.HandleReset | components/PomodoroTimer.tsx:87-92 | the new state and the report are those of `AfterTimerReset` |
| App.NewlyUnlocked | App.tsx:67-69 | an achievement is newly unlocked iff it is in the catalog, its id is not yet unlocked and its condition holds; there are never more than the catalog has |
| App.NewlyUnlockedInCatalogOrder | App.tsx:67-69 | the new achievements appear in catalog order |
| App.EvaluationIdempotent | App.tsx:66-74 | evaluating again after appending the new achievements, with the same points and sessions, unlocks nothing |
| App.NothingQualifies | App.tsx:67-70 | when no catalog entry is both locked and satisfied, the evaluation adds nothing |
| App.EvaluationKeepsIdsDistinct | App.tsx:67-71 | appending the new achievements to a list without duplicate ids leaves no duplicate ids |
| App.NewIdsDistinct | App.tsx:67-69 | the new achievements have pairwise distinct ids |
| App.UnfoldNewlyUnlocked | App.tsx:67-69 | the filter keeps or drops the catalog's first entry by its id and condition, then filters the rest |
| App.CatalogFromNothing | App.tsx:67-69 | from an empty list, the unlocked achievements are exactly those catalog entries whose thresholds the points and sessions reach, in catalog order |
| App.CatalogExamples | App.tsx:67-69 | nothing unlocks at 0/0; 10 points unlock first_points; one session unlocks first_pomodoro; 100 points unlock first_points and point_collector |
| App.FocusApp.constructor | App.tsx:15-42 | the app starts STOPPED with the modal hidden, the given points, achievements and sessions, and a fresh tracker in the initial engagement state at `now` with threshold 900 |
| App.FocusApp.OnEngagementDrop | App.tsx:25-29 | a breach opens the intervention iff the pomodoro state is FOCUS; nothing else changes |
| App.FocusApp.HandlePomodoroStateChange | App.tsx:44-51 | the state is recorded; FOCUS starts tracking, any other state stops it |
| App.FocusApp.OnPomodoroComplete | App.tsx:53-56 | sessions go up by exactly 1 and points by exactly 25; nothing else changes |
| App.FocusApp.HandleInterventionClose | App.tsx:58-64 | closing always hides the modal; success adds 10 points and resets engagement; failure changes nothing else |
| App.FocusApp.EvaluateAchievements | App.tsx:66-74 | the list becomes the old list followed by the newly unlocked achievements, keeping ids distinct and every entry in the catalog |
| Camera.Diff | components/CameraView.tsx:83-88 | the summed difference of the first n pixels is at most 765·n, 255 for each of three channels |
| Camera.MotionDetected | components/CameraView.tsx:90-95 | for a positive pixel count the integer test diff > 15·pixels holds iff the mean channel difference diff / (3·pixels) exceeds 5 |
| Camera.MotionTestIsMeanTest | components/CameraView.tsx:84-95 | on any pair of equal-length frames the integer motion test holds iff there is a pixel and the source's average test holds; an empty frame, where the source compares NaN, reports nothing |
| Camera.VideoReady | components/CameraView.tsx:77 | a sample is taken iff none of the early-return conditions holds: no video, readyState below HAVE_METADATA, or zero width |
| Camera.IdenticalFramesDiffZero | components/CameraView.tsx:84-88 | two identical frames differ by 0 |
| Camera.IdenticalFramesNoMotion | components/CameraView.tsx:84-95 | two identical 80×45 frames never report motion |
| Camera.FrameDiff | components/CameraView.tsx:83-88 | the loop returns the sum of the R, G and B absolute differences of every 4-byte pixel, ignoring alpha |
| Camera.CameraView.constructor | components/CameraView.tsx:12-17 | a new view has no stream, no interval and no stored frame |
| Camera.CameraView.Sample | components/CameraView.tsx:76-98 | an unready video skips the sample and keeps the stored frame; otherwise motion is reported iff a previous frame was stored and the difference passes the threshold, and the current frame is stored |
| Camera.CameraView.StartCamera | components/CameraView.tsx:24-36 | a failed acquisition turns the camera off; a successful one attaches the stream when the video element exists |
| Camera.CameraView.StopCamera | components/CameraView.tsx:38-51 | stopping clears the interval, the stored frame and the stream |
| Camera.CameraView.UpdateDetection | components/CameraView.tsx:66-105 | with the camera on and the elements present, a context starts sampling, and a missing context leaves the interval as it was; otherwise sampling stops |
| Dashboard.FocusTimeOf | components/Dashboard.tsx:34-36 | total minutes are sessions·25, split as hours·60 + minutes with minutes < 60 |
| Dashboard.SumWithin | components/Dashboard.tsx:40 | the sum of n scores in [lo, hi] lies in [n·lo, n·hi] |
| Dashboard.Average | components/Dashboard.tsx:39-41 | the average of an empty history is 0; otherwise the average times the length is the sum of the scores |
| Dashboard.AverageWithin | components/Dashboard.tsx:39-41 | the average of an empty history is 0; otherwise it lies between the bounds of the scores |
| Dashboard.RecentEngagement | components/Dashboard.tsx:44 | the recent records are the last min(length, 10) |
| Dashboard.EarlyEngagement | components/Dashboard.tsx:45 | the early records are the first min(length, 10) |
| Dashboard.ShortHistoryFlatTrend | components/Dashboard.tsx:44-52 | with at most ten records, recent and early are the whole history, so the trend is 0 |
| Dashboard.EngagementTrend | components/Dashboard.tsx:44-52 | with at most ten records the trend is 0 |
| Dashboard.TrendBounded | components/Dashboard.tsx:46-52 | with scores in [0, 1000], the trend lies in [−1000, 1000] |
| Dashboard.EngagementChartData | components/Dashboard.tsx:125-128 | the chart has min(20, length) points, the rounded percentages of the last records in order |
| Dashboard.ChartDataWithin | components/Dashboard.tsx:125-128 | with scores in range, every chart point lies in [0, 100] |
| Dashboard.DistinctIdsCount | components/Dashboard.tsx:131-134 | a list with distinct ids has as many ids as entries |
| Dashboard.RemainingAchievements | components/Dashboard.tsx:131-134 | the remaining count is the catalog size minus the number unlocked |
| Dashboard.RemainingNonNegative | components/Dashboard.tsx:131-134 | for a duplicate-free list of catalog achievements, the remainder 5 − count equals the catalog size minus the count and lies between 0 and 5 |
| ChallengeModal.AfterSubmit | components/EngagementChallengeModal.tsx:22-28 | an answered challenge ignores further submits; otherwise success is recorded iff the parsed answer equals the correct one, and the completion carries that same value |
| ChallengeModal.AnsweredStaysAnswered | components/EngagementChallengeModal.tsx:24 | once answered, any number of submits changes nothing and completes nothing |
| ChallengeModal.CountingCompletesOnce | components/EngagementChallengeModal.tsx:22-28 | however many submits, the challenge completes exactly once, with the verdict on the first answer, which stays recorded |
| ChallengeModal.CountingUI.constructor | components/EngagementChallengeModal.tsx:19-20 | a new counting form is unanswered |
| ChallengeModal.CountingUI.HandleSubmit | components/EngagementChallengeModal.tsx:22-28 | the new answer state and the completion are those of `AfterSubmit` |
| ChallengeModal.AfterJokeClick | components/EngagementChallengeModal.tsx:47-52 | the first click only reveals the punchline; a click after that completes with success |
| ChallengeModal.JokeNeverFails | components/EngagementChallengeModal.tsx:52 | every completion of a joke is a success, and from a fresh joke n clicks complete n − 1 times |
| ChallengeModal.JokeUI.constructor | components/EngagementChallengeModal.tsx:47 | a new joke hides its punchline |
| ChallengeModal.JokeUI.Click | components/EngagementChallengeModal.tsx:52 | the new state and the completion are those of `AfterJokeClick` |
| ChallengeModal.FunFactClick | components/EngagementChallengeModal.tsx:63 | a fun fact completes with success |
| ChallengeModal.Render | components/EngagementChallengeModal.tsx:86-96 | a closed modal renders nothing; while loading it shows the spinner; otherwise no challenge gives an empty body, and each challenge type gets its own interaction, with the error message for an unknown type |
| ChallengeModal.GetIcon | components/EngagementChallengeModal.tsx:98-105 | counting shows the eye, a joke the sparkle and a fun fact the lightbulb; no challenge yet shows the eye icon; only an unknown type shows no icon |
| ChallengeModal.EngagementChallengeModal.constructor | components/EngagementChallengeModal.tsx:73-74 | a new modal is loading, with no challenge |
| ChallengeModal.EngagementChallengeModal.Open | components/EngagementChallengeModal.tsx:76-78 | opening sets loading and keeps the old challenge |
| ChallengeModal.EngagementChallengeModal.Resolve | components/EngagementChallengeModal.tsx:79-82 | the provider's answer is stored and loading clears |
| Gauge.NormalizedScore | components/EngagementGauge.tsx:9 | while tracking the gauge uses the score, otherwise the full score |
| Gauge.GetStrokeColor | components/EngagementGauge.tsx:13-17 | brand-secondary iff above 700, yellow iff in (400, 700], red iff at most 400 |
| Gauge.ColorMonotone | components/EngagementGauge.tsx:13-17 | a higher score never gets a worse colour band |
| Gauge.DisplayedValue | components/EngagementGauge.tsx:55 | the number shown is the normalized score rounded to a percentage: in [0, 100] for a score in range, and 100 when not tracking |

## Left out

- Rendering: JSX, SVG icons, CSS classes, the header, the points display,
  the error boundary, the chart component and the page entry point. The
  modal's `View` records only which interaction is shown.
- Scheduling: `setInterval`, `setTimeout`, event listeners, effect teardown
  and React's batching of state updates. Ticks and handlers are explicit,
  sequential calls. The 1.5 s and 2 s delay before a counting completion is
  not modelled; the completion is returned at once.
- Stale reads: the decay tick and the idle check read `scoreRef.current`,
  the last rendered score, not a functional update. The model reads the
  current score.
- Floating point: scores are exact thousandths. Whether IEEE doubles first
  cross 0.9 on the 20th or the 21st tick is not captured. The gauge and
  timer-ring circumference offsets are not modelled.
- Foreign calls are parameters: `getUserMedia`, canvas
  `drawImage`/`getImageData`, the Gemini SDK and its dynamic import,
  `JSON.parse`, and `parseInt`.
- Gemini.GetEngagementChallenge: when the image call succeeds but returns
  no bytes, the source builds a URL ending in "undefined". The model treats
  missing bytes as a thrown error and falls back to the mock.
- Dashboard: the daily and weekly statistics are random, date-based fakes
  and are not modelled. The `time` field of each chart point is a locale
  time string and is left out; the chart keeps the scores only.
- Persistence: points, achievements and sessions live in local storage,
  whose hook is not part of this model. They are plain fields here.
- The achievement `icon` field is a rendered element and is not modelled.
- Camera.CameraView.Sample: `onMotionDetected` is the returned `motion`
  flag. The coordinator passes it to the tracker's activity handler even
  when no focus session runs, and that call is not composed here.
- Camera.CameraView.StartCamera: the stream and the video element are
  flags. The media tracks themselves are not modelled.
- Engagement.EngagementTracker.ResolveIdlePenalty: it requires a captured
  score in range, which the only caller, `IdleCheck`, guarantees. The pure
  `AfterIdlePenalty` takes any integer.
