# Audio slicing, playback and formatting helpers, modelled in Dafny

This project models the core of a small web front end for subtitling media. The core has three parts:

- **Slicer** (`src/assets/js/slicer.js`). `AudioBufferSlice` cuts a window out of a decoded Web Audio `AudioBuffer`. It validates the range, allocates the new buffer with `createBuffer`, and copies each channel through one `Float32Array`. It always reports the outcome to its callback, unless that callback is not a function.
- **Player.** `AudioSourceResult` is a small player around a sliced buffer. It has `start`, `pause`, `stop`, `on` and `setPlayingTimerInterval`, plus the `ended` listener that a finished playback node calls. Because a playback node plays its buffer only once, every resume re-slices the rest of the buffer. The time already played is folded into `accumulateTimeSpan`.
- **Mapper** (`src/assets/js/mapper.js`). `workCondition`, `workMapper` and `mediaDataMapper` turn work-progress values into the codes 0, 1, 2 and into display labels.
- **Formatting** (`src/assets/js/utils.js`). `getZeroBaseDigit` zero-pads a number. `timeformat` renders seconds as `hh:mm:ss`.

Modules:

- `JsValues`: the JavaScript values the code inspects (`typeof`, truthiness, `||`, `== null`) and the integer operators `~~`, `/` and `%`.
- `WebAudio`: the AudioBuffer calls the slicer makes (`createBuffer`, `copyFromChannel`, `copyToChannel`), as section 1.4 of the W3C Web Audio API defines them. That includes the WebIDL `unsigned long` conversion of the copy offset.
- `Slicer`: the slicer, as an imperative method over a scratch `array`, proved equal to the function `Slice`.
- `PlayerSpec`: the player as a state machine over values. It has one function per operation, and lemmas about single steps and about any number of pause/resume cycles.
- `Player`: the class `AudioSourceResult`, with the source's fields. Each method is proved to move `State()` exactly as the matching `PlayerSpec` function does.
- `Mapper` and `Utils`: the helpers. `GetZeroBaseDigit` is a method with the source's two loops.

Units:

- Times in the slicer and the player are whole sample frames at the slice's rate.
- The host clock `now` is the audio context's current time in the same unit.
- The source works in milliseconds and seconds. `Slicer.RangeChecksAgree` shows that its range checks give the same verdict on frame offsets.
- Times given to `timeformat` are whole seconds.

## Model

| member | source | states |
|---|---|---|
| JsValues.Or | src/assets/js/mapper.js:25 | definition: `a \|\| b` is `a` when `a` is truthy, otherwise `b`; truthiness (JsValues.Truthy) is false exactly for undefined, null, false, 0, NaN and '' |
| JsValues.ToInt32 | src/assets/js/utils.js:23 | `~~x` lies in the int32 range, is congruent to `x` modulo 2^32, and is `x` itself inside that range |
| JsValues.TruncDiv | src/assets/js/utils.js:23 | definition: `a / b` before `~~` rounds toward zero: the floor quotient for `a >= 0`, the negated quotient of `-a` otherwise |
| JsValues.TruncRem | src/assets/js/utils.js:22 | `a % b` completes the truncating division (`a == q*b + r`) and takes the sign of `a` |
| WebAudio.ToUnsignedLong | src/assets/js/slicer.js:95 | the copy offset converted to `unsigned long`: below 2^32, unchanged in range, a negative offset shifted up by 2^32 |
| WebAudio.FramesCopied | src/assets/js/slicer.js:95-96 | the copy count of copyFromChannel and copyToChannel: max(0, min(Nb−k, Nf)) frames, never more than the destination holds and, when positive, inside the source |
| WebAudio.FromChannel | src/assets/js/slicer.js:95 | after copyFromChannel, the first max(0, min(Nb−k, Nf)) destination elements are channel frames from k on, and the rest are untouched |
| WebAudio.ToChannel | src/assets/js/slicer.js:96 | after copyToChannel, the frames from k are replaced by the source's first elements, and every other frame is untouched |
| WebAudio.CreateBuffer | src/assets/js/slicer.js:89 | createBuffer succeeds exactly when there is a channel and 0 < length < 2^32; it then gives a silent buffer of that shape |
| WebAudio.CopyToChannel | src/assets/js/slicer.js:96 | copyToChannel changes only the named channel, as ToChannel says |
| WebAudio.CopyFromChannel | src/assets/js/slicer.js:95 | the array copyFromChannel updates in place ends up equal to FromChannel of its old contents at the converted offset |
| Slicer.CopyWindow | src/assets/js/slicer.js:91-95 | the scratch Float32Array after the channel copy has frameCount elements |
| Slicer.Window | src/assets/js/slicer.js:83-97 | a window [from, to) is a valid buffer with the source's rate and channel count and to − from frames |
| Slicer.Deliver | src/assets/js/slicer.js:68-102 | the callback always runs. A buffer comes back exactly when 0 < end − begin < 2^32, with the source's rate and channel count and end − begin frames; otherwise the error is the allocation failure. With a buffer, the error is absent exactly when begin ≥ 0 and end ≤ duration; the end check wins over the begin check |
| Slicer.Slice | src/assets/js/slicer.js:63-102 | the call throws exactly when `end` is a time and the callback is not a function |
| Slicer.CopyChannels | src/assets/js/slicer.js:91-97 | the copy loop through one scratch array leaves every channel of the new buffer equal to CopyWindow of the source channel at `begin` |
| Slicer.AudioBufferSlice | src/assets/js/slicer.js:50-103 | the method (checks, createBuffer, a per-channel copy loop through one scratch array) yields exactly Slice's outcome |
| Slicer.DefaultEndIsWholeBuffer | src/assets/js/slicer.js:63-66 | a function passed as `end` acts as the callback with `end` at the full duration |
| Slicer.CopyWindowInRange | src/assets/js/slicer.js:91-95 | inside the data, the scratch array holds exactly the source frames [begin, begin+count) |
| Slicer.SliceInRange | src/assets/js/slicer.js:83-97 | for 0 ≤ begin < end ≤ duration, the callback gets no error and exactly the window [begin, end) of every channel |
| Slicer.NegativeBeginCopiesNothing | src/assets/js/slicer.js:71-95 | for a negative begin no further below 0 than 2^32 minus the duration: a buffer is still delivered exactly when 0 < end − begin < 2^32, and then the error is BeginNegative, or EndAfterDuration when end is past the duration. The wrapped offset lies past the data, so every delivered channel is silent |
| Slicer.EndPastDurationPadsSilence | src/assets/js/slicer.js:75-97 | for 0 ≤ begin < duration < end with end − begin < 2^32: the error is EndAfterDuration, yet a buffer is delivered, holding the frames from begin to the end of the data, then silence |
| Slicer.FramesOf | src/assets/js/slicer.js:83-84 | the frame offset `rate * ms / 1000`, when whole, times 1000 is `rate * ms` |
| Slicer.RangeChecksAgree | src/assets/js/slicer.js:68-77 | the checks made in seconds (begin < 0, end > duration) hold exactly when the same checks hold on frame offsets |
| Slicer.WindowWhole | src/assets/js/slicer.js:261 | slicing the whole duration gives the buffer itself |
| Slicer.WindowOfTail | src/assets/js/slicer.js:256 | the tail of a tail window is one tail window of the original |
| PlayerSpec.ListenerOf | src/assets/js/slicer.js:245 | definition: a listener is found under a name exactly when a function is registered there |
| PlayerSpec.Fire | src/assets/js/slicer.js:175-182 | definition: `typeof l === 'function' && l(e)` fires exactly the function registered under the name |
| PlayerSpec.Create | src/assets/js/slicer.js:187-222 | a new player is in the reset state over its slice, with no listeners, an interval of 10 and no nodes or timers |
| PlayerSpec.Initialize | src/assets/js/slicer.js:224-236 | initialize resets every per-run field and keeps the slice, the listeners and the interval |
| PlayerSpec.SetPlayingTimerInterval | src/assets/js/slicer.js:238-242 | only a Number that is not NaN replaces the interval; nothing else changes |
| PlayerSpec.On | src/assets/js/slicer.js:323-325 | the name now maps to the listener, and every other entry and field is unchanged |
| PlayerSpec.Launch | src/assets/js/slicer.js:268-288 | the launch binds a new node to the given buffer, clears the pause flag, records `now` as the start time and counts one more node due an `ended`. It starts a timer with the captured `playing` function and the current interval exactly when one is registered, and an overwritten live timer becomes an orphan. Nothing else changes, and the slicer's error is ignored |
| PlayerSpec.Start | src/assets/js/slicer.js:244-290 | start throws, changing nothing, exactly when the buffer it must slice is missing. After a pause (timeSpan > 0) it slices temporarySlicedAudio from timeSpan to its end and keeps slicedAudioBufferForPlay; otherwise it slices slicedAudioBufferForPlay over [begin ?? 0, end ?? duration of the original slice) and stores the result in both fields. It plays that buffer from `now`, counts one more node due an `ended`, and starts a timer exactly when a `playing` function is registered; an overwritten live timer becomes an orphan. The invariant is kept |
| PlayerSpec.Pause | src/assets/js/slicer.js:292-306 | pause clears the timer and marks the player paused; a playing node is released, `now` becomes endTime and the run length becomes timeSpan. Nothing else changes |
| PlayerSpec.Stop | src/assets/js/slicer.js:308-321 | stop leaves the player reset, keeping the slice, the listeners and the interval |
| PlayerSpec.Ended | src/assets/js/slicer.js:168-185 | `ended` adds timeSpan to the total and clears the timer. A paused player fires `pause` and keeps its buffers, start and end times; otherwise `end` fires and the player is reset |
| PlayerSpec.Tick | src/assets/js/slicer.js:282-287 | a timer tick reports to the captured listener at the current time |
| PlayerSpec.StopIdempotent | src/assets/js/slicer.js:308-321 | a second stop changes nothing |
| PlayerSpec.StartFromResetPlaysSlice | src/assets/js/slicer.js:249-266 | from the reset state, start without arguments plays the whole slice with no error |
| PlayerSpec.StartWithRangePlaysWindow | src/assets/js/slicer.js:249-266 | from the reset state, start(begin, end) with 0 ≤ begin < end ≤ duration plays exactly that window |
| PlayerSpec.SecondStartOverrunsWindow | src/assets/js/slicer.js:250-265 | after start(begin, end) narrowed the buffer to a shorter window, a second start() with no pause still slices up to the original duration: the error EndAfterDuration is ignored and the node plays the window followed by silence up to the original length |
| PlayerSpec.ResumePlaysRest | src/assets/js/slicer.js:255-259 | when a pause left 0 < timeSpan < the length of the kept buffer, start ignores its arguments, reports no error and plays the kept buffer from timeSpan to its end; slicedAudioBufferForPlay is unchanged |
| PlayerSpec.TimerOnlyWithPlayingListener | src/assets/js/slicer.js:280-288 | a timer is started exactly when a function is registered for `playing`, and it captures that function |
| PlayerSpec.ProgressMonotone | src/assets/js/slicer.js:285 | while a timer runs, the reported playing time does not decrease as the clock advances |
| PlayerSpec.ProgressResumesWherePaused | src/assets/js/slicer.js:170-301 | after pause, its `ended` and a resume, the first report equals the report at the moment of pausing |
| PlayerSpec.StopThenEndedFiresEnd | src/assets/js/slicer.js:271-321 | after stop, the stopped node's `ended` still arrives, fires `end` and resets the player again |
| PlayerSpec.LastRegistrationWins | src/assets/js/slicer.js:323-325 | registering twice under a name is registering the second listener once |
| PlayerSpec.PlayCycles | src/assets/js/slicer.js:244-306 | any sequence of start, pause, `ended` runs keeps the player invariant |
| PlayerSpec.CyclesAccumulate | src/assets/js/slicer.js:170-301 | after any completed pause/resume runs, accumulateTimeSpan has grown by the sum of their lengths |
| PlayerSpec.ResumeAtAccumulated | src/assets/js/slicer.js:255-266 | when the bookkeeping is consistent, start plays the slice from exactly accumulateTimeSpan on |
| PlayerSpec.CycleKeepsResumeReady | src/assets/js/slicer.js:244-306 | one run of positive length inside the slice keeps the bookkeeping consistent and adds its length to the total |
| PlayerSpec.PausedRunIsReady | src/assets/js/slicer.js:168-180 | the `ended` delivery after a pause of positive length leaves the resume bookkeeping consistent and adds timeSpan to the total |
| PlayerSpec.CyclesResumeAtTotal | src/assets/js/slicer.js:168-306 | no drift: after any runs of positive length within the slice, the next start plays the slice from exactly the total time played |
| PlayerSpec.TotalNonNegative | src/assets/js/slicer.js:301 | runs of positive length have a non-negative total |
| PlayerSpec.ZeroLengthPauseReplaysFromStart | src/assets/js/slicer.js:255-266 | a pause of zero length makes the next start replay the slice from frame 0, while the total keeps the earlier time |
| PlayerSpec.PauseResumeScenario | src/assets/js/slicer.js:168-306 | a 10 s mono 1000 Hz buffer sliced at [2 s, 5 s) has 3000 frames. Paused after 1 s and resumed, it plays the last 2 s; `pause` fires once, then `end` fires once and the player is reset |
| Player.AudioSourceResult.constructor | src/assets/js/slicer.js:187-222 | the new object's state is PlayerSpec.Create of its slice |
| Player.AudioSourceResult.Initialize | src/assets/js/slicer.js:224-236 | the new state is PlayerSpec.Initialize of the old one |
| Player.AudioSourceResult.SetPlayingTimerInterval | src/assets/js/slicer.js:238-242 | the new state is PlayerSpec.SetPlayingTimerInterval of the old one |
| Player.AudioSourceResult.SliceNextRun | src/assets/js/slicer.js:249-266 | the slicing half of start: it throws exactly where PlayerSpec.Start throws; otherwise PlayerSpec.Start is the launch from the buffers it stored |
| Player.AudioSourceResult.LaunchRun | src/assets/js/slicer.js:268-288 | the launch half of start: the new state and outcome are PlayerSpec.Launch of the old state |
| Player.AudioSourceResult.Start | src/assets/js/slicer.js:244-290 | the new state and the outcome are PlayerSpec.Start of the old state |
| Player.AudioSourceResult.Pause | src/assets/js/slicer.js:292-306 | the new state is PlayerSpec.Pause of the old one |
| Player.AudioSourceResult.Stop | src/assets/js/slicer.js:308-321 | the new state is PlayerSpec.Stop of the old one |
| Player.AudioSourceResult.On | src/assets/js/slicer.js:323-325 | the new state is PlayerSpec.On of the old one |
| Player.AudioSourceResult.EndedEventListener | src/assets/js/slicer.js:168-185 | the new state and the listener fired are PlayerSpec.Ended of the old state |
| Player.AudioSourceResult.PlayingTick | src/assets/js/slicer.js:282-287 | the report is PlayerSpec.Tick of the current state |
| Mapper.WorkCondition | src/assets/js/mapper.js:5-22 | workCondition as written always gives a code in {0, 1, 2} |
| Mapper.StringConditions | src/assets/js/mapper.js:6-13 | 'will', 'working' and 'done' map to 0, 1 and 2; any other string maps to 0 |
| Mapper.NumberAlwaysZero | src/assets/js/mapper.js:14-20 | the numeric test at line 15 holds for every number, so every Number (NaN too) maps to 0 |
| Mapper.NumericCodeOneIsLost | src/assets/js/mapper.js:15 | the code 1 does not map to itself |
| Mapper.OtherConditions | src/assets/js/mapper.js:21 | a value that is neither string nor number maps to 2 when truthy, 0 when falsy |
| Mapper.WorkConditionIntended | src/assets/js/mapper.js:14-20 | workCondition with `&&` at line 15 gives a code in {0, 1, 2} |
| Mapper.IntendedKeepsCodes | src/assets/js/mapper.js:14-20 | the intended version keeps the codes 0, 1, 2, sends other numbers to 0, agrees with the code on non-numbers, and is idempotent on its own codes |
| Mapper.Fallback | src/assets/js/mapper.js:25-28 | definition: `defaultVal != null ? defaultVal : builtin`, where `!= null` is JsValues.IsNullish (undefined or null) and the built-in labels (Mapper.BuiltinLabel) are '미작업', '작업중' and '작업완료' for the codes 0, 1 and 2 |
| Mapper.WorkMapper | src/assets/js/mapper.js:24-29 | the label is never null or undefined. For the codes 0, 1, 2 it is the caller's label when truthy, else defaultVal when given, else the built-in label; for any other condition the caller's labels are ignored |
| Mapper.BuiltinLabelsDistinguishCodes | src/assets/js/mapper.js:25-28 | with no caller labels and no default, two codes get the same label only if they are equal |
| Mapper.MediaDataMapper | src/assets/js/mapper.js:31-45 | id, imageUrl, videoUrl and title are copied. `data` is the snippet exactly for YouTube media (the default kind). The worker is never falsy and defaults to '-'. Each flag is workCondition (as written) of the caller's flag, a code in {0, 1, 2} |
| Mapper.NumericFlagsBecomeZero | src/assets/js/mapper.js:14-42 | as written, numeric flags are all coded 0, whatever code the caller passed |
| Mapper.MediaDataMapperIntended | src/assets/js/mapper.js:31-45 | with the intended workCondition the record differs from mediaDataMapper's only in its flags; each flag is a code in {0, 1, 2}, and a flag that already is such a code is kept |
| Mapper.MediaDataMappersAgree | src/assets/js/mapper.js:40-42 | when no flag is a Number, the intended mapper and the code as written give the same record |
| Mapper.DefaultWork | src/assets/js/mapper.js:31-42 | omitting `work` gives worker '-' and all flags 0 |
| Utils.ToNumber | src/assets/js/utils.js:10-14 | `num - 0` keeps a Number, and is NaN for undefined, NaN and (plain) objects |
| Utils.Written | src/assets/js/utils.js:21-24 | after i rounds of the digit loop, the last i slots hold values in (−10, 10). One round (Utils.Next) is `n = ~~(n / 10)`, and Utils.Iterate is i such rounds |
| Utils.Join | src/assets/js/utils.js:27 | `join('')` of single-digit slots has at least one and at most two characters per slot, and exactly one per slot exactly when no slot is negative |
| Utils.ZeroBaseDigitText | src/assets/js/utils.js:16-27 | the string the loops build for a Number has between `length` and 2·`length` characters (none for length ≤ 0); for every Number below 10·2^31 it is exactly `length` decimal digits |
| Utils.ZeroBaseDigit | src/assets/js/utils.js:8-28 | a value that is not a number comes back as `num \|\| ''`; a number comes back as the string the loops build |
| Utils.GetZeroBaseDigit | src/assets/js/utils.js:8-28 | the method (a fill loop, then a digit loop that overwrites slots from the right) returns exactly ZeroBaseDigit |
| Utils.PaddedDigits | src/assets/js/utils.js:16-27 | the intended padding has exactly k characters, all decimal digits |
| Utils.ZeroBaseDigitIntended | src/assets/js/utils.js:8-28 | the intended getZeroBaseDigit has exactly `length` digit characters (none for length ≤ 0) |
| Utils.PaddedDigitsValue | src/assets/js/utils.js:16-27 | the padded digits read back as the number modulo 10^k |
| Utils.PaddedDigitsOfValue | src/assets/js/utils.js:16-27 | padding a digit string's value to its own length gives the string back |
| Utils.WrittenShift | src/assets/js/utils.js:21-24 | one more round of the loop is the rounds from the next value followed by this round's slot |
| Utils.WrittenIsPadded | src/assets/js/utils.js:20-24 | for 0 ≤ n < 10·2^31 the digit loop writes exactly the padded digits |
| Utils.ZeroBaseDigitAgrees | src/assets/js/utils.js:8-28 | below 21474836480, the code as written and the intended padding give the same string |
| Utils.WrapAroundCounterexample | src/assets/js/utils.js:23 | getZeroBaseDigit(21474836480, 2) is "-80", which is not 2 characters |
| Utils.TimeFormat | src/assets/js/utils.js:30-51 | zero is '00:00:00.000', or '00:00.000' with minutes as the largest unit; a nonzero time with an unknown unit is '' |
| Utils.TimeFormatMatchesCode | src/assets/js/utils.js:37-46 | every field timeformat pads is coded by getZeroBaseDigit as written exactly as by the intended padding |
| Utils.FieldsArePadded | src/assets/js/utils.js:37-41 | for 0 < time < 2^31 hours, the three fields are the two-digit paddings of hours, minutes below the hour and seconds below the minute |
| Utils.TimeFormatHoursRoundTrip | src/assets/js/utils.js:36-41 | with hours as the largest unit, a time with 0 ≤ time < 2^31 hours (where `~~` does not wrap the hours) gives `hh:mm:ss` (plus '.000' only for zero); reading the fields back gives the time modulo 100 hours |
| Utils.TimeFormatMinutesRoundTrip | src/assets/js/utils.js:42-46 | with minutes as the largest unit, a non-negative time gives `mm:ss`; reading it back gives the time modulo one hour |
| Utils.NegativeTimeIsZeroClock | src/assets/js/utils.js:36-46 | a negative time formats as '00:00' with minutes as the largest unit, and as '00:00:00' with hours, provided it is not below −2^31 hours |

## Left out

- `audioBufferSlice` and `fromDecodeToSlice` (slicer.js:105-166) are left out. They fetch bytes, decode them through the host, and wire a gain node. That is network and host I/O the model does not simulate.
- `youtubeParser` (utils.js:1-6) is left out: it is not part of the modelled core.
- `src/api/auth.js` and `src/api/youtube.js` are network API clients. They are not part of this model.
- Fractional Numbers and Float32 samples are not modelled. Times are whole frames, seconds are whole, and samples are integers. The source's conversions from milliseconds to seconds to frames are the identity on frames, and `Slicer.RangeChecksAgree` justifies that for range checks. A frame count that is not whole (createBuffer truncates it) is not modelled.
- Re-creating the `AudioContext` (slicer.js:174, 207, 225) and the gain node (slicer.js:247, 252, 268-269) are left out. The clock is the parameter `now`: it stands for `currentTime` of the current node's context, which restarts at 0 whenever `ended` or `initialize` creates a new context (slicer.js:174, 225). So `now` is not one clock that moves forward across runs; each operation is given the reading of the context current at that call.
- PlayerSpec.Start: a `begin` or `end` that is not a Number is taken as absent, matching line 249. NaN or fractional arguments are not modelled.
- PlayerSpec.Tick: ticks of orphaned timers are not modelled. They are only counted, in `orphanedTimers`. The timer period is recorded but time does not advance by it.
- PlayerSpec.Ended: listeners that call back into the player from inside an event are not modelled. A listener's own effects are outside the model; only which listener fires is recorded.
- Player.AudioSourceResult: the fields `begin`, `end`, `arrayBuffer`, `audioBuffer` and `source` (slicer.js:196-201) are stored and never read, so they are left out.
- WebAudio.CreateBuffer: a negative frame count, which WebIDL would wrap to a huge length, and lengths of 2^32 frames or more are both modelled as an allocation failure. The other NotSupportedError cases of createBuffer (more than 32 channels, a sample rate outside the supported range) are not modelled: the slicer passes the channel count and rate of an existing buffer, which already meet them.
- Utils.ToNumber: only digit-only strings convert. Leading white space, signs, decimal points, hexadecimal and exponents are not modelled. An object converts to NaN even where its `valueOf` would give a number.
- Mapper.MediaDataMapper: a `null` `work` (property reads on null throw) and a missing `d` are not modelled.
- On these points the model follows the code as written:
  - `stop` is not silent (see `PlayerSpec.StopThenEndedFiresEnd`).
  - A window with begin ≥ end is an allocation error, not a range error, and an out-of-range window is still delivered together with the error.
  - No rounding is applied to frame offsets.
  - The resume test looks at `timeSpan`, not at whether the player is paused (see `PlayerSpec.ZeroLengthPauseReplaysFromStart`).

## Findings

| source | as written | input that shows it | evidently intended | confidence | as-written member | corrected member |
|---|---|---|---|---|---|---|
| src/assets/js/mapper.js:15 | `condition !== 0 \|\| condition !== 1 \|\| condition !== 2` holds for every Number, so every numeric code becomes 0 | `workCondition(1)` returns 0 | `&&`: 0, 1 and 2 map to themselves, other numbers to 0 | not executed | Mapper.NumericCodeOneIsLost, Mapper.NumericFlagsBecomeZero | Mapper.IntendedKeepsCodes, Mapper.MediaDataMapperIntended |
| src/assets/js/utils.js:23 | `~~(n / 10)` wraps to int32, so a Number of 10·2^31 or more produces negative slots and a result of the wrong length | `getZeroBaseDigit(21474836480, 2)` returns "-80" | exactly `length` digits, the number's low digits | not executed | Utils.WrapAroundCounterexample | Utils.PaddedDigitsValue |

`Mapper.MediaDataMapper` follows the code as written, so its numeric flags are all 0 (`Mapper.NumericFlagsBecomeZero`). `Mapper.MediaDataMapperIntended` codes the flags with `Mapper.WorkConditionIntended`, and `Mapper.MediaDataMappersAgree` shows that the two agree whenever no flag is a Number. `Utils.TimeFormat` pads with `Utils.ZeroBaseDigitIntended`. `Utils.TimeFormatMatchesCode` shows that this matches the code as written for every field it pads.
