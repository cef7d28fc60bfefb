# Countdown timer model

A Dafny model of the browser countdown timer `CountDown`
(`countdown/build/countdown.debug.js`), with proofs of its properties. A timer has an
end time and is built from an options object. On each tick it:

- measures the time left against a clock moved by a correction offset;
- splits what is left into days, hours, minutes, seconds and a sub-second digit;
- renders that split through a template of `d`, `h`, `m` and `s` runs;
- writes the result into an element and calls `onUpdate`;
- when the time left reaches zero, clears its interval and calls `onEnd`.

End times come from a number of seconds since the epoch, from an offset string
`±days:hours:minutes:seconds` relative to now, or from the host's own date parsing.

The model is functional. A timer is an immutable record, and each operation returns the
next record together with the ordered list of effects it had on the world. The effects
are:

- an element write;
- `onUpdate`;
- `clearInterval`;
- `onEnd`;
- `setInterval`.

The clock reading and the handle that `setInterval` returns are parameters.

Modules, one per concern of the source:

| file | module | models |
|---|---|---|
| `wrappers.dfy` | `Wrappers` | `Option` and `Result` |
| `js_number.dfy` | `JsNumber` | JavaScript numbers in the fields (integers or NaN), Number-to-String, and `parseInt` |
| `duration.dfy` | `Duration` | the unit decomposition in `_update` |
| `formatter.dfy` | `Formatter` | `formatDateTime`: the global, case-insensitive regular-expression replace |
| `date_resolver.dfy` | `DateResolver` | `parseDate`: numeric, offset-string and host branches; TimeClip; `split`/`pop` |
| `countdown.dfy` | `CountDown` | the constructor and defaults, `_update`, `start`, `stop`, `setEndDate` |
| `lifecycle.dfy` | `Lifecycle` | the host's view: live intervals and `onEnd` calls over any sequence of operations |
| `scenarios.dfy` | `Scenarios` | whole-timer consequences and worked examples |

Points where the code and its documentation part ways. The model follows the code.

- An offset string with three fields, such as `+1:30:00`, reads as hours, minutes and
  seconds. Fields are assigned from the right, so it means one hour and thirty minutes,
  not one day and thirty hours (`Scenarios.HourAndAHalfAhead`).
- The sub-second field `microSeconds` is `floor(leftover_ms * 0.01)` with a leftover
  below 1000. That is tenths of a second (0 to 9), not milliseconds and not hundredths.
- The `'ms'` branch of the field selection can never be taken, because a single
  character is compared with a two-character string. No template renders the sub-second
  field or the total.
- Padding never adds more than five zeros: `'00000' + value` is cut from the right.
- The pattern is case-insensitive, but field selection compares the first character
  case-sensitively. So `HH` is matched and renders `00`.
- The constructor rejects an invalid date, and also the epoch itself, because
  `!date.getTime()` is true for time value 0. `setEndDate` validates nothing. An invalid
  end date set through it makes every field NaN, and the timer never ends.

## Model

| member | source | states |
|---|---|---|
| JsNumber.Digits | countdown/build/countdown.debug.js:163 | the decimal text of a non-negative integer: non-empty, only digits, no leading zero except for 0 itself |
| JsNumber.Text | countdown/build/countdown.debug.js:163 | `value + ''` for a field: `NaN` for NaN, the digits for n >= 0, `-` then the digits otherwise, and these cases are distinguishable by their first character |
| JsNumber.DigitsValue | countdown/build/countdown.debug.js:163 | the positional value of the decimal text of n is n |
| JsNumber.TrimStart | countdown/build/countdown.debug.js:139 | `parseInt` drops exactly the leading ECMAScript white space: the rest is a suffix and does not start with white space |
| JsNumber.ParseInt | countdown/build/countdown.debug.js:139 | `parseInt(s)` without a radix (its ensures only unfold the definition; ParseIntDecimalRun, ParseIntHexRun, ParseIntNoDigits, ParseIntHexNoDigits and ParseIntInvertsText state what it returns) |
| JsNumber.ParseUnsigned | countdown/build/countdown.debug.js:139 | after the sign, `parseInt` is NaN exactly when the text starts with no decimal digit, or with `0x`/`0X` not followed by a hexadecimal digit; any number it reads is non-negative |
| JsNumber.ParseIntDecimalRun | countdown/build/countdown.debug.js:139 | `parseInt` of white space, an optional `+` or `-`, and a decimal digit run that is not the `0` of a `0x` prefix, followed by anything that is not a digit, is the run's value, negated after `-` |
| JsNumber.ParseIntHexRun | countdown/build/countdown.debug.js:139 | `parseInt` of white space, an optional sign, `0x` or `0X` and a hexadecimal digit run is the run's value in radix 16, negated after `-` |
| JsNumber.ParseIntNoDigits | countdown/build/countdown.debug.js:139 | `parseInt` is NaN when no decimal digit follows the white space and the sign |
| JsNumber.ParseIntHexNoDigits | countdown/build/countdown.debug.js:139 | `parseInt` is NaN for `0x` or `0X` with no hexadecimal digit after it, although a digit follows the sign |
| JsNumber.ParseIntOrZero | countdown/build/countdown.debug.js:139 | `parseInt(field) \|\| 0` is 0 exactly when `parseInt` gives NaN or 0, and otherwise the number `parseInt` read |
| JsNumber.ParseIntInvertsText | countdown/build/countdown.debug.js:139 | `parseInt` reads back every number that Number-to-String writes, NaN included |
| JsNumber.ParseIntNegative | countdown/build/countdown.debug.js:139 | `parseInt('-' + digits of n)` is -n, so a negative offset field keeps its sign |
| Duration.Decompose | countdown/build/countdown.debug.js:74-78 | the successive floor-divide-and-subtract yields hours < 24, minutes < 60, seconds < 60 and ms < 1000, whose weighted sum is the input |
| Duration.DecomposeTotal | countdown/build/countdown.debug.js:74-78 | the decomposition is unique: decomposing the total of any normal breakdown gives that breakdown back |
| Duration.Measure | countdown/build/countdown.debug.js:70-79 | the data fields of a tick are integers in their ranges; the whole units are within a second below the total; the sub-second field is the leftover in tenths |
| Formatter.Format | countdown/build/countdown.debug.js:154-168 | `formatDateTime` replaces match after match from left to right; every step emits at least one character, so only an empty template formats to the empty string |
| Formatter.RunLength | countdown/build/countdown.debug.js:9 | the pattern `dd*\|hh?\|mm?\|ss?`, case-insensitive: a `d` run takes every following `d` or `D`; other runs take at most two equal letters; nothing is matched without a unit letter |
| Formatter.Pad | countdown/build/countdown.debug.js:166 | `('00000' + value).substr(-max(len, k))` is value behind min(max(k - len, 0), 5) zeros, of length min(max(k, len), len + 5) |
| Formatter.FieldOf | countdown/build/countdown.debug.js:159-163 | a run selects days, hours, minutes or seconds by its first character, case-sensitively; anything else selects 0 |
| Formatter.Placeholder | countdown/build/countdown.debug.js:159-166 | the replacement of an unescaped run: its field's text padded to the run's length (no contract of its own; PlaceholderDigits and UpperCaseRunIsZero state it) |
| Formatter.PlaceholderDigits | countdown/build/countdown.debug.js:159-166 | a run of length k over a field n >= 0 renders as the digits of n padded to min(max(k, digits), digits + 5) |
| Formatter.UpperCaseRunIsZero | countdown/build/countdown.debug.js:159-163 | a run starting with `D`, `H`, `M` or `S` matches but renders the number 0 |
| Formatter.FormatEscapedRun | countdown/build/countdown.debug.js:158 | a backslash before a run removes the backslash and emits the run's letters, with no digits |
| Formatter.FormatLoneBackslash | countdown/build/countdown.debug.js:9 | a backslash not followed by a unit letter escapes nothing and passes through unchanged |
| Formatter.FormatCopiesChar | countdown/build/countdown.debug.js:9 | a character that starts no match is copied and the replacement goes on after it |
| Formatter.FormatFieldRun | countdown/build/countdown.debug.js:155-166 | an unescaped run is replaced by its padded field and the replacement continues after it |
| Formatter.FormatLiteral | countdown/build/countdown.debug.js:155 | a template without unit letters comes out unchanged, backslashes included |
| Formatter.FormatConcat | countdown/build/countdown.debug.js:155-167 | the global replace distributes over a cut after a character that is neither a unit letter nor a backslash |
| Formatter.TripleIsTwoRuns | countdown/build/countdown.debug.js:9 | three equal hour, minute or second letters form a run of two followed by a run of one |
| Formatter.ThreeHoursAreTwoRuns | countdown/build/countdown.debug.js:9 | `hhh` renders the hours padded to 2 and then again padded to 1 |
| Formatter.EscapedLettersOnly | countdown/build/countdown.debug.js:158 | a template of backslash-escaped unit letters prints exactly those letters, whatever the data |
| Formatter.EscapedDhms | countdown/build/countdown.debug.js:158 | the template `\d\h\m\s` prints `dhms` |
| Formatter.FormatIgnoresTotalAndTenths | countdown/build/countdown.debug.js:159-163 | the output does not depend on the total or on the sub-second field |
| DateResolver.TimeClip | countdown/build/countdown.debug.js:127 | `new Date(ms)` is valid exactly when abs(ms) <= 8.64e15 and then holds ms unchanged |
| DateResolver.ZeroMilliseconds | countdown/build/countdown.debug.js:145 | `setMilliseconds(0)` keeps validity and moves a time to the whole second at or below it |
| DateResolver.Split | countdown/build/countdown.debug.js:135 | `split(':')` gives at least one field, and no field contains a colon |
| DateResolver.JoinSplit | countdown/build/countdown.debug.js:135 | joining the fields of a split gives the string back |
| DateResolver.SplitJoin | countdown/build/countdown.debug.js:135 | splitting the join of colon-free fields gives the fields back |
| DateResolver.PopFields | countdown/build/countdown.debug.js:136-140 | the pop loop writes the k-th field from the right into slot 3 - k, for at most four fields, and leaves the other slots at their start values |
| DateResolver.OffsetSeconds | countdown/build/countdown.debug.js:134-141 | the offset is 86400 d + 3600 h + 60 m + s, over the fields read right to left, where a missing field counts as 0 |
| DateResolver.ParseDate | countdown/build/countdown.debug.js:123-152 | a number is seconds since the epoch, clipped to the valid range; `undefined` is an invalid date, `null` the epoch and a boolean 0 or 1 ms after it, as ECMAScript's ToNumber fixes them; a string that is not an offset, and an object, is the host's own parse |
| DateResolver.OffsetSign | countdown/build/countdown.debug.js:144 | the offset is subtracted exactly when the string starts with `-` |
| DateResolver.Shifted | countdown/build/countdown.debug.js:143-145 | moving now by whole seconds with `setSeconds`, then `setMilliseconds(0)`, lands on now's whole second moved by the same amount, or is invalid out of range |
| DateResolver.OffsetResolution | countdown/build/countdown.debug.js:133-146 | an offset string resolves to now truncated to the second, plus or minus the offset; it is invalid exactly when that leaves the range of `Date` |
| DateResolver.OffsetOfFields | countdown/build/countdown.debug.js:136-141 | for colon-free fields joined by colons, the offset is the weighted sum of the fields counted from the right |
| DateResolver.ExtraFieldsIgnored | countdown/build/countdown.debug.js:138 | fields to the left of the fourth from the right do not change the offset |
| DateResolver.NonNumericFieldIsZero | countdown/build/countdown.debug.js:139 | a field that `parseInt` reads as NaN counts exactly as a `0` in its place would (`parseInt(...) \|\| 0`), whatever the other fields hold |
| CountDown.Unusable | countdown/build/countdown.debug.js:27-28 | `!endDate \|\| !endDate.getTime()`: an invalid date and the epoch are refused (a predicate; the Create row states its use) |
| CountDown.MissingEndDateThrows | countdown/build/countdown.debug.js:27-29 | a missing (`undefined`), `null` or `false` end date makes the constructor throw |
| CountDown.NumberOr | countdown/build/countdown.debug.js:36-38 | `option \|\| fallback` for numbers: absent or 0 gives the fallback |
| CountDown.StringOr | countdown/build/countdown.debug.js:37 | `option \|\| fallback` for strings: absent or empty gives the fallback |
| CountDown.Create | countdown/build/countdown.debug.js:23-43 | the constructor throws exactly when the parsed end date is invalid or 0; otherwise it stores that date with interval 1000, the default template and offset 0 as defaults, stopped and without data |
| CountDown.AdjustedNow | countdown/build/countdown.debug.js:69 | the clock moved by `correctDateOffset` seconds (no contract of its own; OffsetShiftsClock states it) |
| CountDown.Remaining | countdown/build/countdown.debug.js:69-71 | time left is never negative; it is the end minus the corrected now when positive, and NaN for an invalid end |
| CountDown.Stop | countdown/build/countdown.debug.js:102-109 | `stop()` clears the interval it holds, and only that one, and changes nothing else |
| CountDown.Measured | countdown/build/countdown.debug.js:70-79 | the data's total is the time left |
| CountDown.Tick | countdown/build/countdown.debug.js:66-96 | a tick stores its data; the text is the template rendered over the data; it ends exactly when the total is 0; an ending tick clears the interval; nothing else changes |
| CountDown.Start | countdown/build/countdown.debug.js:50-61 | `start()` stops, ticks once, and holds the new interval exactly when that tick did not end; its effects are the stop's, then the tick's, then `setInterval` with the timer's `interval` unless the tick ended |
| CountDown.SetEndDate | countdown/build/countdown.debug.js:116-120 | `setEndDate` stores the parsed date, valid or not, and changes nothing else |
| Lifecycle.StopIdempotent | countdown/build/countdown.debug.js:102-109 | a second `stop()` has no effect and clears nothing |
| Lifecycle.StopTracks | countdown/build/countdown.debug.js:102-109 | after `stop()`, no interval of the timer is live |
| Lifecycle.TickTrace | countdown/build/countdown.debug.js:82-93 | the effects of a tick, in order: the element write, `onUpdate`, and, only on the ending tick, the interval clear and then `onEnd` |
| Lifecycle.TickTracks | countdown/build/countdown.debug.js:89-93 | a tick keeps the host's live intervals equal to the one the timer holds |
| Lifecycle.StartTracks | countdown/build/countdown.debug.js:50-61 | after `start()`, at most one interval is live, and it is the one the timer holds |
| Lifecycle.RunTracks | countdown/build/countdown.debug.js:50-120 | over any sequence of start, stop, interval firing and setEndDate, at most one interval is live, and it is the one the timer would clear |
| Lifecycle.TickEnds | countdown/build/countdown.debug.js:89-92 | a tick calls `onEnd` once when it ends and the callback exists, otherwise never |
| Lifecycle.EndsAtMostOnce | countdown/build/countdown.debug.js:89-92 | without a new `start()`, `onEnd` is called at most once, and never for a stopped timer |
| Scenarios.TickFieldsReconstruct | countdown/build/countdown.debug.js:74-79 | the data of a tick with a valid end splits its total exactly: non-negative days, hours < 24, minutes < 60, seconds < 60 within a second below the total, and the leftover in tenths |
| Scenarios.InvalidEndNeverEnds | countdown/build/countdown.debug.js:70-71 | with an invalid end every field is NaN, the tick does not end, and the interval stays |
| Scenarios.OffsetShiftsClock | countdown/build/countdown.debug.js:69 | the correction is the same as reading the clock that many seconds later |
| Scenarios.SetEndDateTakesEffectNextTick | countdown/build/countdown.debug.js:116-120 | `setEndDate` leaves the interval and data alone; the next tick measures against the new end |
| Scenarios.OneDayOneHourOneMinuteOneSecond | countdown/build/countdown.debug.js:74-82 | 90061 seconds before the end, `dd:hh:mm:ss` reads `01:01:01:01` |
| Scenarios.StartAfterEnd | countdown/build/countdown.debug.js:50-61 | `start()` after the end clears any old interval, shows zeros, calls `onUpdate` then `onEnd`, and holds no interval |
| Scenarios.DoubleBackslash | countdown/build/countdown.debug.js:9 | in the template `\\d` the first backslash is copied and the second escapes the `d`, so it prints `\d` |
| Scenarios.ParseZeros | countdown/build/countdown.debug.js:139 | a field made only of zeros reads as 0 |
| Scenarios.HourAndAHalfAhead | countdown/build/countdown.debug.js:134-141 | the offset `1:30:00` is 5400 seconds |

## Left out

- `countdown/Gruntfile.js` is build configuration and is not part of this model.
- The `lib.countdown(options)` factory and its registration on `window.lib` are left out. The factory is `CountDown.Create` itself.
- `options || {}` is left out: an options record is always present.
- Host date parsing is an input. `new Date(string)` for a string that is not an offset, and `new Date(x)` for a `Date` or another object, appear as the field `hostParse` of the source, not as computed values. For `undefined`, `null` and booleans the value is computed.
- The clock is the parameter `nowMs`. The handle from `setInterval` is the parameter `newHandle`.
- The DOM write, `setInterval`, `clearInterval` and the callbacks are effects in the returned trace. Callback bodies, their `this`, the shared mutable `_data` object and re-entrant calls from inside a callback are not modelled.
- Before the first tick, `_data` is `{days:0, hours:0, minutes:0, seconds:0}`. The model records "no data yet".
- CountDown.Stop: clears the interval only when one is held. It does not model that the source skips a handle of 0 (`if(me._intervalId)`), because browsers return positive handles.
- CountDown.Create: options are integers or absent. It does not model fractional or NaN `interval` and `correctDateOffset`, or the `|| 0` on NaN.
- DateResolver.ParseDate: numeric sources are whole seconds. It does not model fractional, NaN or infinite numbers, or rounding in `source * 1000`.
- DateResolver.ParseDate: `setSeconds` and `setMilliseconds` are taken in UTC. It does not model time-zone or daylight-saving shifts of local-time arithmetic.
- Duration.Measure: the difference is an exact integer, so `Math.round` and floating-point division are exact. It does not model precision loss beyond 2^53.
- JsNumber.ParseInt: exact for every digit run. It does not model the rounding of values with more than about 16 significant digits, nor radixes other than 10 and `0x`-prefixed 16.
- JsNumber.Text: plain decimal digits. It does not model exponent notation, which needs values of 1e21 and above, far beyond any field a valid date produces.
