# Fitness app core: session timer, clock display, workout search, age parsing

This project models, in Dafny, the parts of the app's single activity file
(`MainActivity.kt`) that hold logic rather than layout:

- **The training session timer** (`TrainingSessionScreen`). A countdown starts from the
  workout's duration in minutes, clamped at zero and turned into seconds. A stopwatch
  starts from zero. While running, the timer moves one second per tick; a countdown
  stops at zero. A Pause/Resume button flips the running flag. While the countdown
  has not run out, the screen shows Restart and End Session; once it has, it shows
  Finish alone. The transitions are functions on a `TimerState` value, and the
  screen's properties are proved about those functions. The class `Session` holds
  the screen's two mutable variables (`running`, `seconds`). Each of its methods is
  proved to perform exactly its transition and to keep the timer invariant.
- **The clock display** `format(sec)`: minutes and seconds, each `%02d`, joined by a
  colon. The text is proved to read back as the same number of seconds, with the
  seconds field below 60, and to be five characters long exactly below 100 minutes.
- **The workout search** of the Recommend page. The query is trimmed, and a blank
  query finds nothing. Otherwise the pool keeps the first workout of each title
  (`distinctBy`), then the titles that contain the query ignoring case, and the first
  six of those are the results.
- **`parsePositiveInt`** of the Settings page: `trim()`, then Kotlin's
  `String.toIntOrNull()` (modelled digit by digit, 32-bit limits included), then only
  numbers above zero are kept.

The Kotlin library functions the logic relies on are modelled as well: `Char.isWhitespace`,
`trim()`, `isBlank()`, `contains(…, ignoreCase = true)` and decimal digits.

Files: `wrappers.dfy` (Option for Kotlin's nullable results), `workouts.dfy` (the
`TimerMode` and `WorkoutMeta` types), `text.dfy`, `clock.dfy`, `session_timer.dfy`,
`search.dfy`, `settings.dfy`.

## Model

| member | source | states |
|---|---|---|
| SessionTimer.TotalSeconds | app/src/main/java/com/example/myapplication/MainActivity.kt:680 | `minutes.coerceAtLeast(0) * 60`: a whole number of minutes in seconds; zero for a negative or zero duration, `minutes * 60` otherwise |
| SessionTimer.Start | app/src/main/java/com/example/myapplication/MainActivity.kt:678-681 | the opening state runs, keeps the mode, starts at the full duration (countdown) or zero (stopwatch), satisfies the timer invariant, and is already completed exactly for a countdown of zero or fewer minutes |
| SessionTimer.AfterTick | app/src/main/java/com/example/myapplication/MainActivity.kt:683-688 | one tick changes only `seconds`, and changes it exactly when running and not a finished countdown; a countdown moves down by at most one, a stopwatch up by at most one; the invariant is kept |
| SessionTimer.AfterToggle | app/src/main/java/com/example/myapplication/MainActivity.kt:702 | the Pause/Resume button flips `running` and nothing else, keeping the invariant |
| SessionTimer.AfterRestart | app/src/main/java/com/example/myapplication/MainActivity.kt:728-731 | Restart puts `seconds` back to the mode's starting value and sets `running`, keeping mode and duration |
| SessionTimer.ToggleLabel | app/src/main/java/com/example/myapplication/MainActivity.kt:703 | the button reads "Pause" exactly while running, "Resume" exactly while paused |
| SessionTimer.Buttons | app/src/main/java/com/example/myapplication/MainActivity.kt:724-736 | Finish is shown exactly when a countdown is at or below zero; Restart and End Session exactly when it is not |
| SessionTimer.Completed | app/src/main/java/com/example/myapplication/MainActivity.kt:724 | the Finish condition `mode == COUNTDOWN && seconds <= 0`; in a state satisfying the timer invariant it means the countdown is at exactly zero |
| SessionTimer.RunTicksConsistent | app/src/main/java/com/example/myapplication/MainActivity.kt:683-688 | any number of ticks keeps the invariant and changes nothing but `seconds` |
| SessionTimer.RunTicksPaused | app/src/main/java/com/example/myapplication/MainActivity.kt:684 | while paused, any number of ticks leaves the state as it was |
| SessionTimer.RunTicksCountdown | app/src/main/java/com/example/myapplication/MainActivity.kt:685-687 | a running countdown after `n` ticks is at `seconds - n`, or at zero once `n` reaches `seconds`, and stays there |
| SessionTimer.RunTicksStopwatch | app/src/main/java/com/example/myapplication/MainActivity.kt:687 | a running stopwatch after `n` ticks is at `seconds + n` |
| SessionTimer.StopwatchNeverDecreases | app/src/main/java/com/example/myapplication/MainActivity.kt:683-688 | a stopwatch never goes back, running or paused |
| SessionTimer.CountdownCompletes | app/src/main/java/com/example/myapplication/MainActivity.kt:678-688 | a countdown of `T` seconds is completed exactly from tick `T` on; before that it shows `T - n` seconds; from then on its display is `00:00` and only Finish is shown |
| SessionTimer.PauseResumeKeepsState | app/src/main/java/com/example/myapplication/MainActivity.kt:683-688 | pausing, any number of ticks, then resuming gives back exactly the state before the pause |
| SessionTimer.ToggleTwice | app/src/main/java/com/example/myapplication/MainActivity.kt:702 | toggling twice changes nothing |
| SessionTimer.RestartIsStart | app/src/main/java/com/example/myapplication/MainActivity.kt:728-731 | from any state of a session, Restart reaches the state the screen opened in |
| SessionTimer.NoRestartWhenCompleted | app/src/main/java/com/example/myapplication/MainActivity.kt:724-725 | once a countdown has run out, Finish is the only button |
| SessionTimer.StopwatchScenario | app/src/main/java/com/example/myapplication/MainActivity.kt:683-703 | stopwatch: three ticks, pause shows `00:03` and paused; resume and two ticks show `00:05` |
| SessionTimer.RestartScenario | app/src/main/java/com/example/myapplication/MainActivity.kt:728-731 | a two-minute countdown after ten ticks restarts at 120 seconds, running |
| SessionTimer.Session.constructor | app/src/main/java/com/example/myapplication/MainActivity.kt:678-681 | a new session object is in the opening state and satisfies the invariant |
| SessionTimer.Session.Tick | app/src/main/java/com/example/myapplication/MainActivity.kt:683-688 | the object's new state is the tick transition of its old state; the invariant is kept |
| SessionTimer.Session.Toggle | app/src/main/java/com/example/myapplication/MainActivity.kt:702 | the object's new state is the toggle transition of its old state |
| SessionTimer.Session.Restart | app/src/main/java/com/example/myapplication/MainActivity.kt:727-731 | callable only while Restart is on screen; the new state is the restart transition of the old one |
| SessionTimer.Session.Display | app/src/main/java/com/example/myapplication/MainActivity.kt:720 | the big display of the object's `seconds`: a colon before two seconds digits below 60, digits before it, reading back as `seconds`; five characters long exactly below 6000 seconds; a leading `0` exactly below 600 seconds |
| SessionTimer.StopwatchSession | app/src/main/java/com/example/myapplication/MainActivity.kt:683-720 | the stopwatch walk-through on a `Session` object displays `00:03` while paused and `00:05` two ticks after resuming |
| Clock.Pad2 | app/src/main/java/com/example/myapplication/MainActivity.kt:693 | `%02d` of a non-negative number: at least two digits denoting that number, exactly two below 100, the plain decimal from 10 on |
| Clock.Format | app/src/main/java/com/example/myapplication/MainActivity.kt:690-694 | `MM:SS` with a colon before the last two digits; reading the two fields back gives the same second count; the seconds field is below 60; the text is five characters long exactly below 6000 seconds; it starts with `0` exactly below 600 seconds, so from ten minutes on the minutes field has no leading zero, as `%02d` writes it |
| Clock.FormatExamples | app/src/main/java/com/example/myapplication/MainActivity.kt:690-694 | 0, 3, 5, 65 and 600 seconds display as `00:00`, `00:03`, `00:05`, `01:05` and `10:00` |
| Text.StartIndex | app/src/main/java/com/example/myapplication/MainActivity.kt:412 | `trim()`'s forward scan stops on the first character that is not whitespace, having passed only whitespace |
| Text.EndIndex | app/src/main/java/com/example/myapplication/MainActivity.kt:412 | `trim()`'s backward scan stops after the last character that is not whitespace, having passed only whitespace |
| Text.IsWhitespace | app/src/main/java/com/example/myapplication/MainActivity.kt:412 | `Char.isWhitespace` on the JVM; a whitespace character is never a digit nor a sign, so trimming never eats into a numeral |
| Text.IsBlank | app/src/main/java/com/example/myapplication/MainActivity.kt:413 | `isBlank()`: every character is whitespace, exactly when the forward scan of `trim()` runs to the end |
| Text.Trim | app/src/main/java/com/example/myapplication/MainActivity.kt:412 | the trimmed text neither starts nor ends with whitespace |
| Text.TrimBounds | app/src/main/java/com/example/myapplication/MainActivity.kt:412 | the trimmed text is a middle slice of the input, and what is cut off on both sides is whitespace |
| Text.TrimIdempotent | app/src/main/java/com/example/myapplication/MainActivity.kt:412 | trimming twice is trimming once |
| Text.BlankIffTrimEmpty | app/src/main/java/com/example/myapplication/MainActivity.kt:412-413 | a text is blank exactly when trimming leaves nothing, so the blank test after `trim()` is the empty test |
| Text.TrimPadded | app/src/main/java/com/example/myapplication/MainActivity.kt:818 | whitespace padding around a text without its own padding is removed, and nothing else |
| Text.ContainsIgnoreCase | app/src/main/java/com/example/myapplication/MainActivity.kt:416 | `contains(q, ignoreCase = true)`: found only when the query is no longer than the text, always found when the query is empty; `ContainsIgnoreCaseMeaning` gives the full characterisation |
| Text.ContainsIgnoreCaseMeaning | app/src/main/java/com/example/myapplication/MainActivity.kt:416 | the left-to-right scan finds the query exactly when it occurs at some position, ignoring case (the empty query always) |
| Text.ContainsIgnoresCase | app/src/main/java/com/example/myapplication/MainActivity.kt:416 | two titles equal up to case contain the same queries |
| Text.Decimal | app/src/main/java/com/example/myapplication/MainActivity.kt:693 | decimal digits, denoting the number, without a leading zero except for zero, one digit exactly below 10, at most two exactly below 100 |
| Text.DecimalCanonical | app/src/main/java/com/example/myapplication/MainActivity.kt:693 | any digit string without leading zeros is the decimal of the number it denotes |
| Text.ValueFront | app/src/main/java/com/example/myapplication/MainActivity.kt:818 | the value of a digit string read from the front: the first digit weighs ten to the power of the digits after it |
| Text.ValueLeadingZeros | app/src/main/java/com/example/myapplication/MainActivity.kt:693 | zeros in front of digits do not change their value |
| Search.FirstIndex | app/src/main/java/com/example/myapplication/MainActivity.kt:415 | the first position of a title in the pool: the entry there has that title and no earlier entry does; the pool's length exactly when no entry has it |
| Search.DistinctFrom | app/src/main/java/com/example/myapplication/MainActivity.kt:415 | `distinctBy`'s scan with the titles already met: no longer than the pool, no title already met, no title twice |
| Search.DistinctByTitle | app/src/main/java/com/example/myapplication/MainActivity.kt:415 | `distinctBy { it.title }`: no longer than the pool and no title twice |
| Search.DistinctFromUnseen | app/src/main/java/com/example/myapplication/MainActivity.kt:415 | `distinctBy` keeps only workouts from the pool whose title it has not met yet |
| Search.DistinctFromFirsts | app/src/main/java/com/example/myapplication/MainActivity.kt:415 | `distinctBy` keeps the first workout of each title |
| Search.DistinctFromInOrder | app/src/main/java/com/example/myapplication/MainActivity.kt:415 | `distinctBy` keeps the workouts in pool order |
| Search.DistinctFromComplete | app/src/main/java/com/example/myapplication/MainActivity.kt:415 | every title of the pool not met before is among what `distinctBy` keeps |
| Search.Matching | app/src/main/java/com/example/myapplication/MainActivity.kt:416 | the filter keeps a workout exactly when it is in the list and its title contains the query ignoring case |
| Search.MatchingKeepsOrder | app/src/main/java/com/example/myapplication/MainActivity.kt:416 | the filter keeps the survivors in the order they had |
| Search.Found | app/src/main/java/com/example/myapplication/MainActivity.kt:414-416 | the list `distinctBy` and the filter leave is no longer than the pool; `FoundFacts` and `FoundComplete` characterise it |
| Search.FoundFacts | app/src/main/java/com/example/myapplication/MainActivity.kt:414-416 | after `distinctBy` and the filter: every title contains the query, each is the first workout of its title, in pool order |
| Search.FoundPrefix | app/src/main/java/com/example/myapplication/MainActivity.kt:417 | `take(6)` keeps every property of the list it cuts, and no title is listed twice |
| Search.Results | app/src/main/java/com/example/myapplication/MainActivity.kt:411-418 | nothing for a blank query; at most six results, no title twice, each the first workout of its title, in pool order |
| Search.ResultsMatch | app/src/main/java/com/example/myapplication/MainActivity.kt:412-416 | every result's title contains the trimmed query, ignoring case |
| Search.ResultsPrefix | app/src/main/java/com/example/myapplication/MainActivity.kt:414-417 | for a query that is not blank, the results are the first six survivors, or all of them when fewer |
| Search.ResultsComplete | app/src/main/java/com/example/myapplication/MainActivity.kt:411-418 | no match is skipped: a workout whose title contains the trimmed query has its title among the results, or else six results were found, the sixth with a title that first appears in the pool before the workout's |
| Search.FoundComplete | app/src/main/java/com/example/myapplication/MainActivity.kt:415-416 | every pool title that contains the query survives `distinctBy` and the filter |
| Search.FoundCut | app/src/main/java/com/example/myapplication/MainActivity.kt:417 | a matching title whose first appearance is no later than the `n`-th survivor's is among the first `n` survivors |
| Search.FoundPrefixComplete | app/src/main/java/com/example/myapplication/MainActivity.kt:417 | `ResultsComplete` for the first `n` survivors with `n` six or all: a matching title is among them, or the sixth has a title that first appears before it |
| Settings.AccumulateMeaning | app/src/main/java/com/example/myapplication/MainActivity.kt:818 | `toIntOrNull`'s digit loop gives the accumulator shifted by the digits, less their value, when every character is a digit and the result does not pass the limit; nothing otherwise |
| Settings.Accumulate | app/src/main/java/com/example/myapplication/MainActivity.kt:818 | `toIntOrNull`'s digit loop: a value only when every character is a digit; never below the limit after a digit; never above a non-positive starting accumulator |
| Settings.ToIntOrNull | app/src/main/java/com/example/myapplication/MainActivity.kt:818 | `String.toIntOrNull()`: every value it gives lies in the 32-bit `Int` range; `ToIntOrNullMeaning` says which value |
| Settings.ToIntOrNullMeaning | app/src/main/java/com/example/myapplication/MainActivity.kt:818 | `toIntOrNull` gives the number a signed decimal numeral denotes exactly when that number fits in a 32-bit `Int`, and nothing otherwise |
| Settings.ParsePositiveInt | app/src/main/java/com/example/myapplication/MainActivity.kt:817-820 | a result is the number the trimmed text denotes, from 1 to `Int.MAX_VALUE`; no result exactly when the trimmed text is no numeral, or its number is below one or beyond `Int.MAX_VALUE` |
| Settings.PositiveAccepted | app/src/main/java/com/example/myapplication/MainActivity.kt:817-820 | a trimmed text that denotes a number from 1 to `Int.MAX_VALUE` gives that number |
| Settings.NotPositiveRejected | app/src/main/java/com/example/myapplication/MainActivity.kt:817-820 | a trimmed text that denotes no number, or one below 1 or beyond `Int.MAX_VALUE`, gives nothing |
| Settings.ParsePositiveIntReadsDigits | app/src/main/java/com/example/myapplication/MainActivity.kt:817-820 | digits from 1 to `Int.MAX_VALUE`, with or without `+`, padded with whitespace or not, read as their value |
| Settings.ParsePositiveIntReadsDecimal | app/src/main/java/com/example/myapplication/MainActivity.kt:817-820 | the decimal text of a positive `Int`, padded with whitespace, reads back as that number |
| Settings.ParsePositiveIntRejectsNegative | app/src/main/java/com/example/myapplication/MainActivity.kt:819 | a minus sign before any digits is never accepted |
| Settings.ParsePositiveIntRejectsZero | app/src/main/java/com/example/myapplication/MainActivity.kt:819 | zero is never accepted |
| Settings.ParsePositiveIntRejectsOverflow | app/src/main/java/com/example/myapplication/MainActivity.kt:818 | digits beyond `Int.MAX_VALUE` are not accepted, because `toIntOrNull` gives up on them |
| Settings.DenotedSigned | app/src/main/java/com/example/myapplication/MainActivity.kt:818 | `+` before digits keeps their value, `-` negates it |

## Left out

- The Compose UI: layout, navigation between pages, the back handler and the text of labels other than the toggle and the three bottom buttons.
- The coroutine behind the tick: `LaunchedEffect` restarting on each change of `running`, `seconds` or `mode`, and the one-second `delay`. One tick is one step of the model; no real time is modelled.
- `rememberSaveable` and state surviving configuration changes, the login page, the BMI page with its float parsing (`parsePositiveFloat`), and the click handler of a search result.
- The restart button is not offered once a countdown has run out, so `SessionTimer.Session.Restart` requires that. The screen has no separate pause and resume: a single toggle flips `running`, and that toggle is what is modelled.
- SessionTimer.TotalSeconds: Kotlin's 32-bit overflow of `minutes * 60` is not modelled; integers are unbounded.
- SessionTimer.AfterTick: the stopwatch count is unbounded; a 32-bit wrap-around after about 68 years of running is not modelled.
- Clock.Format: takes non-negative counts only. The timer invariant keeps the displayed seconds non-negative, so the minus sign `%02d` would print is never needed. The locale of `String.format` is taken to write ASCII digits.
- Text.ContainsIgnoreCase: folds case for ASCII letters only. Kotlin compares the upper- and lower-case forms of every Unicode character.
- Settings.ToIntOrNull: reads ASCII digits only. Kotlin's `Character.digit` also accepts the decimal digits of other scripts.
- Settings.ParsePositiveInt: reads ASCII digits only, as `Settings.ToIntOrNull` does.
