# vmtrace in Dafny

vmtrace is a small JVMTI agent (`src/vmtrace.c`). It prints one line to
stderr for each of eight JVM events. Each line is stamped with the time
elapsed since the agent was loaded. This project models that agent and
proves properties of it:

- **Timestamp arithmetic.** `trace` splits the elapsed nanoseconds into
  seconds and a fraction in units of 10 microseconds. It uses C's truncating
  `/` and `%` and then an `(int)` cast. These are modules `CArith` and
  `Timestamp`.
- **Printing the numbers.** `%d` and `%05d` are modelled with a parser that
  inverts them, in module `Decimal`.
- **Line layout.** A line is `[<seconds>.<fraction>] <message>\n`. A parser
  reads the line back, in module `TraceLine`.
- **`strlen`.** It is a loop over a C string held in an array, in module
  `CString`.
- **`fix_class_name`.** It writes NUL over the last character of a class
  signature, in place, and returns the name one character past the start.
  This is module `ClassName`.
- **Messages.** Each event has a fixed message, and the messages can be
  read back unambiguously. This is module `Messages`.
- **The agent.** Module `VMTrace` holds class `Agent`. It has the write-once
  `start_time`, the sequence of `trace` calls made so far, and one method
  per callback, plus `Agent_OnLoad`. A ghost flag `loaded` records that
  `Agent_OnLoad` has run: it runs once, sets `start_time`, and the JVM
  delivers no event before it, so every callback requires it.

JVMTI queries (`GetTime`, `GetClassSignature`, `GetMethodName`,
`GetMethodDeclaringClass`) are replaced by the values they return, passed in
as parameters. The buffers `GetClassSignature` fills are `array<char>`
values ending in a NUL.

Behaviour of the code that the model reproduces:

- The fraction is `time % 1000000000 / 10000` (`src/vmtrace.c:36`). It
  counts 10-microsecond units, the fifth decimal place of a second.
- 5 ms therefore prints as `[0.00500]`, and 1.23456789 s prints as
  `[1.23456]`.
- `fix_class_name` trims the first and last character of every signature,
  array and primitive ones included.
- No lookup result is checked, so a failed lookup gets no placeholder.
- No `/` in a class name is converted to `.`.

## Model

| member | source | states |
|---|---|---|
| CString.Len | src/vmtrace.c:41 | `strlen`: the index of the first NUL of a terminated string; no NUL occurs before it |
| CString.Str | src/vmtrace.c:41-42 | the C string a buffer holds: its characters up to, not including, the first NUL |
| CString.LenIsFirstNul | src/vmtrace.c:41 | any index holding NUL with no NUL before it is `strlen` |
| CString.StrLen | src/vmtrace.c:41 | the scan over the array stops at the first NUL and returns exactly `Len` of the array's contents |
| ClassName.Fixed | src/vmtrace.c:39-43 | the name left by `fix_class_name` drops the first and last characters: length `strlen - 2` (zero for a one-character string), character `i` is character `i + 1` of the signature |
| ClassName.FixedReference | src/vmtrace.c:40-42 | for a reference signature `L<name>;` the result is exactly `<name>` |
| ClassName.FixedIgnoresMarkers | src/vmtrace.c:41-42 | any first and last characters are dropped alike; the leading `L` is never checked |
| ClassName.ArraySignature | src/vmtrace.c:41-42 | `[Ljava/lang/String;` becomes `Ljava/lang/String`, not `java/lang/String` |
| ClassName.Terminate | src/vmtrace.c:41-42 | the buffer after `class_name[strlen(class_name) - 1] = 0`: the last character of the string replaced by NUL, every other cell kept |
| ClassName.TerminateThenSkip | src/vmtrace.c:41-42 | after the NUL write, the string one past the start of the buffer is `Fixed` of the original string |
| ClassName.FixClassName | src/vmtrace.c:39-43 | requires a non-empty string; writes NUL at index `strlen - 1` and changes no other cell; returns offset 1, at which the buffer holds `Fixed` of the original string |
| Decimal.Digits | src/vmtrace.c:35 | the digits `%d` prints for a non-negative number: at least one, all decimal digits, no leading zero unless the number is 0 |
| Decimal.ValueOfDigits | src/vmtrace.c:35 | the printed digits read back as the number |
| Decimal.DigitsLength | src/vmtrace.c:36 | a number below `10^k` prints in at most `k` digits |
| Decimal.ValueIgnoresLeadingZeros | src/vmtrace.c:36 | zero padding does not change the value a digit string denotes |
| Decimal.ZeroPad | src/vmtrace.c:36 | the padded field has the requested width (or the digits' own, if longer), ends with the digits and is `'0'` before them |
| Decimal.ZeroPadValue | src/vmtrace.c:36 | padding keeps the text all digits and keeps its value |
| Decimal.FormatInt | src/vmtrace.c:35 | `%d` of an `int`: a `-` for a negative number, then the digits of its magnitude; `FormatIntRoundTrip` is its inverse |
| Decimal.FormatInt05 | src/vmtrace.c:35 | `%05d` of an `int`: zeros between the sign and the digits until the field, sign included, is five wide; `FormatInt05RoundTrip` is its inverse |
| Decimal.FormatIntRoundTrip | src/vmtrace.c:35 | `%d` of any `int` is digits and an optional sign, and reads back as that `int` |
| Decimal.FormatInt05RoundTrip | src/vmtrace.c:35 | `%05d` of any `int`, negative ones included, is digits and an optional sign, and reads back as that `int` |
| Decimal.PaddedNegativeRoundTrip | src/vmtrace.c:35 | `%05d` of a negative number reads back as the number |
| Decimal.NegativeWidth | src/vmtrace.c:35 | the sign counts in the width: a negative number above -10000 prints as exactly five characters, the first a `-` |
| Decimal.WideNegativeField | src/vmtrace.c:35 | a five-digit magnitude widens the field: `%05d` of -50000 (the fraction of an elapsed time half a second negative) is the six characters `-50000` |
| Decimal.PaddedRoundTrip | src/vmtrace.c:35 | `%05d` of a non-negative number reads back as the number |
| Decimal.FormatInt05Width | src/vmtrace.c:35-36 | a fraction in `[0, 99999]` prints as exactly five digits |
| CArith.Quot | src/vmtrace.c:35-36 | C's `a / b` for `b > 0`: the quotient truncated toward zero; `QuotRem` states its defining identity |
| CArith.Rem | src/vmtrace.c:35-36 | C's `a % b` for `b > 0`: the remainder with the sign of `a`; `QuotRem` states its defining identity |
| CArith.QuotRem | src/vmtrace.c:35-36 | C's truncating `/` and `%` satisfy `(a/b)*b + a%b == a`, with the remainder smaller than `b` in magnitude and of the sign of `a` |
| CArith.ToInt32 | src/vmtrace.c:35-36 | the `(int)` cast gives a 32-bit value congruent to its argument modulo 2^32, and the same value when it already fits |
| Timestamp.Seconds | src/vmtrace.c:34-36 | the seconds field: `time / 1000000000` on a `jlong`, truncated toward zero |
| Timestamp.Fraction | src/vmtrace.c:34-36 | the fraction field: `time % 1000000000 / 10000` on a `jlong`, in 10-microsecond units |
| Timestamp.FractionRange | src/vmtrace.c:36 | the fraction field lies strictly between -100000 and 100000, and has the sign of the elapsed time |
| Timestamp.CastsKeepFields | src/vmtrace.c:35-36 | when the seconds fit an `int`, both `(int)` casts leave the fields unchanged |
| Timestamp.SecondsFit | src/vmtrace.c:35 | the seconds fit an `int` for any non-negative elapsed time below 2^31 seconds |
| Timestamp.StampIsTruncatedUnits | src/vmtrace.c:34-36 | for a non-negative elapsed time, `seconds * 100000 + fraction` is the elapsed time divided by 10000 ns, truncated |
| Timestamp.Truncation | src/vmtrace.c:34-36 | `secs*10^9 + frac*10^4 <= elapsed < secs*10^9 + (frac+1)*10^4`: truncation, not rounding |
| Timestamp.Monotone | src/vmtrace.c:34-36 | for `0 <= e1 <= e2` the stamp of `e1` is lexicographically no later than the stamp of `e2` |
| Timestamp.NegativeElapsed | src/vmtrace.c:34-36 | a negative elapsed time gives the negated fields of its magnitude |
| TraceLine.Prefix | src/vmtrace.c:35 | the stamp `[%d.%05d] ` of the two fields after their `(int)` casts; `PrefixOfFields` and the examples state its text |
| TraceLine.Line | src/vmtrace.c:35 | the whole line `fprintf` writes: stamp, message, `\n`; `LineRoundTrip` is its inverse |
| TraceLine.Render | src/vmtrace.c:35 | the text of a series of `trace` calls has one line per call |
| TraceLine.RenderLine | src/vmtrace.c:35 | line `i` of that text is the line of call `i` |
| TraceLine.RenderLines | src/vmtrace.c:35 | the text is, line by line, the lines of the calls in call order |
| TraceLine.RenderAppend | src/vmtrace.c:35 | a further `trace` call adds exactly its own line after all earlier ones |
| TraceLine.ParseLayout | src/vmtrace.c:35 | the layout `[a.b] msg\n` with numeric `a` and `b` is unambiguous, whatever `msg` contains |
| TraceLine.LineRoundTrip | src/vmtrace.c:35-36 | every line, for any elapsed time and message, reads back as the two cast fields and the message |
| TraceLine.LineFields | src/vmtrace.c:34-36 | for a non-negative elapsed time whose seconds fit an `int`, the line is `"[" + digits + "." + five digits + "] " + msg + "\n"` carrying the true seconds and fraction |
| TraceLine.LinesInTimeOrder | src/vmtrace.c:34-36 | for `0 <= e1 <= e2` with the seconds of `e2` fitting an `int`, the two lines carry stamps in non-decreasing order; without the `int` bound the wrapped seconds of 2^31 s would sort before those of 0 |
| TraceLine.RenderInTimeOrder | src/vmtrace.c:34-36 | of two calls `i <= j` with `0 <= elapsed_i <= elapsed_j` and the seconds of `elapsed_j` fitting an `int`, stderr line `i` carries a stamp no later than line `j` |
| TraceLine.OneLine | src/vmtrace.c:35 | for a message without a line break, a line ends in `\n` and has no other line break: one event, one line |
| TraceLine.PrefixHasNoBreak | src/vmtrace.c:35 | the stamp `[%d.%05d] ` never contains a line break, whatever the elapsed time |
| TraceLine.BreakOnlyAtEnd | src/vmtrace.c:35 | a break-free stamp, a break-free message and `\n` make text whose only line break is the last character |
| TraceLine.PrefixOfFields | src/vmtrace.c:35 | the stamp is `[`, the `%d` seconds, `.`, the `%05d` fraction and `] ` |
| TraceLine.ZeroExample | src/vmtrace.c:102-103 | a line traced at elapsed time 0 (the start line when both `GetTime` calls return the same time) is stamped `[0.00000] ` |
| TraceLine.MillisecondsExample | src/vmtrace.c:34-36 | 5 000 000 ns is stamped `[0.00500] ` |
| TraceLine.TenMillisecondsExample | src/vmtrace.c:34-36 | 10 000 000 ns is stamped `[0.01000] ` |
| TraceLine.TruncatedExample | src/vmtrace.c:34-36 | 1 234 567 890 ns is stamped `[1.23456] `: the last four digits are cut |
| TraceLine.NegativeExample | src/vmtrace.c:34-36 | -5 000 000 ns (a clock that went back) is stamped `[0.-0500] ` |
| Messages.Resolve | src/vmtrace.c:45-96 | what each callback traces: the names as given, and the class signatures of `ClassPrepare` and `CompiledMethodLoad` through `fix_class_name` |
| Messages.Text | src/vmtrace.c:45-103 | the message of each entry, the fixed format strings of the callbacks and of `Agent_OnLoad`; `TextRoundTrip` is its inverse |
| Messages.SplitAtLastDot | src/vmtrace.c:85 | in `holder.method`, the last `.` is the one the format inserts, provided the method name has no `.` |
| Messages.FixedMessagesRoundTrip | src/vmtrace.c:46-103 | the five fixed messages read back as their events |
| Messages.LabelledMessagesRoundTrip | src/vmtrace.c:59-72 | `Loading class: `, `Class prepared: ` and `Dynamic code generated: ` messages read back as their event and name |
| Messages.MethodMessageRoundTrip | src/vmtrace.c:85 | a `Method compiled: ` message reads back as its holder and method name |
| Messages.TextRoundTrip | src/vmtrace.c:45-103 | every message reads back as the entry it was made from |
| Messages.TextInjective | src/vmtrace.c:45-103 | two different entries never produce the same message |
| Messages.MethodCompiledText | src/vmtrace.c:85 | `Method compiled` joins the fixed holder name and the method name with a single `.` |
| Messages.ClassPreparedExample | src/vmtrace.c:66 | `Lcom/example/Foo;` is reported as `Class prepared: com/example/Foo`, slashes kept |
| Messages.MethodCompiledExample | src/vmtrace.c:85 | `run` in `Lcom/example/Foo;` is reported as `Method compiled: com/example/Foo.run` |
| VMTrace.Agent.constructor | src/vmtrace.c:22 | before loading, `start_time` is zero, nothing has been written and the agent is not loaded |
| VMTrace.Agent.Stderr | src/vmtrace.c:35 | stderr holds one line per `trace` call, line `i` being the line of call `i` |
| VMTrace.Agent.Trace | src/vmtrace.c:24-37 | requires the agent loaded, the `jlong` subtraction not to overflow, and the message to be NUL-free and fit the 1024-byte buffer; appends one write stamped `now - start_time`, nothing else changes |
| VMTrace.Agent.OnLoad | src/vmtrace.c:98-132 | requires the agent not yet loaded; sets `start_time` to the load time once, traces `VMTrace started`, returns 0, and leaves the agent loaded |
| VMTrace.Agent.VMStart | src/vmtrace.c:45-47 | requires the agent loaded; traces `VM started` |
| VMTrace.Agent.VMInit | src/vmtrace.c:49-51 | requires the agent loaded; traces `VM initialized` |
| VMTrace.Agent.ClassFileLoadHook | src/vmtrace.c:54-60 | requires the agent loaded; for a C string `name`, traces `Loading class: ` and the name as given |
| VMTrace.Agent.ClassPrepare | src/vmtrace.c:62-68 | requires the agent loaded; rewrites the signature buffer as `fix_class_name` does, and traces `Class prepared: ` with the fixed name |
| VMTrace.Agent.DynamicCodeGenerated | src/vmtrace.c:70-73 | requires the agent loaded; for a C string `name`, traces `Dynamic code generated: ` and the name as given |
| VMTrace.Agent.CompiledMethodLoad | src/vmtrace.c:75-88 | requires the agent loaded; for a C-string method name, rewrites the holder's signature buffer, and traces `Method compiled: ` with the fixed holder, `.` and the method name |
| VMTrace.Agent.GarbageCollectionStart | src/vmtrace.c:90-92 | requires the agent loaded; traces `GC started` |
| VMTrace.Agent.GarbageCollectionFinish | src/vmtrace.c:94-96 | requires the agent loaded; traces `GC finished` |
| VMTrace.StartupScenario | src/vmtrace.c:98-103 | loading at time 0, then VM start at 5 ms and VM init at 10 ms, gives three writes in that order with those elapsed times |

## Left out

- JVMTI and JNI calls are foreign code and are replaced by their results as parameters. This covers `GetEnv`, `GetTime`, `GetClassSignature`, `GetMethodName`, `GetMethodDeclaringClass` and `Deallocate`. Their return codes are never checked by the code and are not modelled.
- Capability and callback registration in `Agent_OnLoad` (`AddCapabilities`, `SetEventCallbacks`, `SetEventNotificationMode`) has no effect on the trace. Only the start time, the start line and the return value 0 are modelled.
- `fprintf` and `vsprintf` are I/O and C library internals. The model produces the resulting strings. `trace` is modelled as recording a `Write` of the elapsed time and the formatted message, and `Render` gives the text that call prints.
- VMTrace.Agent.Trace: the callbacks' contracts state the new `writes`, not the rendered stderr text. The text is `Render(writes)`; `RenderAppend` and `RenderLines` give its lines.
- Concurrent callbacks from several JVM threads, and any interleaving of their output, are not modelled. The agent does nothing to order them.
- Characters are modelled as `char`, not as the bytes of modified UTF-8. `FitsBuffer` bounds the message length in characters, which matches the 1024-byte bound only for single-byte text.
- A message longer than the buffer overflows `buf` in the source, which is undefined behaviour. `Trace` requires the message to fit instead of modelling the overflow.
- An elapsed time whose `jlong` subtraction overflows is likewise excluded by a precondition.
- A NULL class name passed to `ClassFileLoadHook` (printed by some C libraries as `(null)`) is not modelled: the name is always a string.
- `fix_class_name` on an empty string writes before the buffer. The model requires a non-empty string, as the code assumes.
