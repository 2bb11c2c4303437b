# robot-two-wheel: a Dafny model of the robot's data and control core

This project models the parts of the two-wheel Arduino robot firmware that hold
state and compute, and proves properties about them:

- **Point**: an integer 2-D point with `==`, `!=`, `+` and its `"(x,y)"` text form.
- **PointSequence**: a growable array of points. It starts at a given capacity, doubles when full,
  and can be cleared, indexed safely, appended to from another sequence and written as `"[(x,y),...]"`.
- **StringStream**: a string-backed stream. `write` appends; `read` and `peek` return -1 at the end.
- **DataTable**: a table with named columns. Rows are appended with a declared column count, the
  storage grows by a fixed chunk, and the table is written as CSV through a per-column formatter.
- **PIDController**: a PID controller. The first sample sets the time baseline; later samples
  update the integral and the last error and yield a clamped control signal.
- **SpeedModel**: a calibrated left/right motor-power ratio looked up by piecewise-linear
  interpolation, plus the trims that keep the robot on a straight path.

Every object is an immutable Dafny value. Each operation is a function returning the new value,
and its result where the firmware has one. Text written to a stream by `write_to_stream` is modelled
as the string printed. Modules:

| file | module | models |
|---|---|---|
| options.dfy | `Options` | an optional value |
| text.dfy | `Text` | decimal rendering of integers, joining and splitting on a separator, line terminators |
| point.dfy | `Points` | include/Point.h |
| string_stream.dfy | `StringStreams` | src/StringStream.cpp, include/StringStream.h |
| point_sequence.dfy | `PointSequences` | include/PointSequence.h, src/PointSequence.cpp |
| data_table.dfy | `DataTables` | include/DataTable.h |
| pid_controller.dfy | `PidControllers` | src/PIDController.cpp |
| speed_model.dfy | `SpeedModels` | src/SpeedModel.cpp |

## Notable behaviour of the speed model

- From 225 upward the lookup takes the last ratio without interpolating: every request from 225 to 255 uses the ratio calibrated at 255 (`SpeedModels.LookupCases`, `SpeedModels.LookupAt225`).
- `getSpeedA`/`getSpeedB` return the stored speed narrowed to 8 bits (`SpeedModels.GetSpeedA`, `SpeedModels.GetSpeedB`). The only trim applied to the stored speeds is the one `updateSpeedsForStraightPath` makes (`SpeedModels.UpdateSpeedsForStraightPath`).

## Model

| member | source | states |
|---|---|---|
| Text.ParseIntRoundTrip | include/Point.h:49 | The decimal form of any integer reads back as that integer, and the rest of the text is left untouched when it does not start with a digit. So the numbers in a point's text form are unambiguous. |
| Text.SplitJoin | include/DataTable.h:143-164 | Splitting one or more fields joined by a separator gives back the fields, provided none of them contains the separator. |
| Text.SplitLines | include/DataTable.h:151-161 | Splitting newline-terminated lines on the newline gives back the lines, followed by one empty piece. |
| Points.Make | include/Point.h:14-26 | `Point(x, y)` stores x and y. It equals the default point (0,0) exactly when both are 0. |
| Points.Equal | include/Point.h:35 | `==` holds exactly when both coordinates are equal, that is, when the points are the same. |
| Points.NotEqual | include/Point.h:40 | `!=` holds exactly when the points differ, and is the negation of `==`. |
| Points.Add | include/Point.h:45 | `+` adds the points coordinate by coordinate. Its algebraic laws are the next three rows. |
| Points.AddCommutative | include/Point.h:45 | Point addition is commutative. |
| Points.AddAssociative | include/Point.h:45 | Point addition is associative. |
| Points.AddOriginIdentity | include/Point.h:45 | Adding the default point (0,0) changes nothing. |
| Points.AddExamples | test/test_PointSequence.cpp:13-29 | The unit test's cases: (0,0)≠(1,0) and (1,0)≠(1,1); (0,0)+(1,0)=(1,0); (0,0)+(1,1)=(1,1); (1,0)+(1,1)=(2,1). |
| Points.ToString | include/Point.h:49 | The text form is ASCII, at least five characters long, and bracketed by "(" and ")". |
| Points.ParsePointRoundTrip | include/Point.h:49 | Reading the text form back yields the same point and leaves the following text untouched. |
| Points.ToStringInjective | include/Point.h:49 | Different points have different text forms. |
| Points.ToStringExamples | include/Point.h:49 | (0,0), (1,0) and (-12,3) render as "(0,0)", "(1,0)" and "(-12,3)". |
| StringStreams.SignedValue | src/StringStream.cpp:27 | A byte read through the signed `char` of the target is its own value below 128, and the value less 256 from 128 on. It is -1 exactly for 0xFF. |
| StringStreams.New | src/StringStream.cpp:3-4 | A new stream has an empty buffer and position 0. |
| StringStreams.Clear | src/StringStream.cpp:9-12 | `clear` leaves an empty buffer at position 0. |
| StringStreams.ClearIsNew | src/StringStream.cpp:3-12 | A cleared stream equals a new one, whatever it held before. |
| StringStreams.SetBuffer | src/StringStream.cpp:14-17 | `set_buffer` replaces the buffer and rewinds to position 0. |
| StringStreams.Available | src/StringStream.cpp:19-21 | `available` is the length minus the position. It is never negative and is 0 exactly at the end. |
| StringStreams.Read | src/StringStream.cpp:23-28 | At the end `read` returns -1 and the stream is unchanged. Otherwise it returns the character at the position and advances by one. The buffer is never changed. |
| StringStreams.Peek | src/StringStream.cpp:30-35 | `peek` is -1 exactly at the end or on a 0xFF byte. |
| StringStreams.PeekAgreesWithRead | src/StringStream.cpp:23-35 | `peek` returns what `read` would return. |
| StringStreams.Write | src/StringStream.cpp:37-41 | `write` appends the byte, advances the position, returns 1, and leaves `available` unchanged. |
| StringStreams.Print | src/StringStream.cpp:37-41 | Printing a text, one `write` per character, appends the text and advances the position by its length. |
| StringStreams.ToStringAfterPrint | include/StringStream.h:17-18 | The string form after printing is the earlier string form followed by the text. For a new stream it is the text itself. |
| StringStreams.ReadNConsumes | src/StringStream.cpp:23-28 | Reading n times from a stream with at least n bytes left yields those bytes in order and moves the position by n. |
| StringStreams.SetBufferThenReadAll | src/StringStream.cpp:14-28 | After `set_buffer`, reading the whole buffer returns every character in order, then -1. |
| StringStreams.WritesLeaveNothingAvailable | src/StringStream.cpp:19-41 | After writes alone, `available` is 0 and `read` returns -1. |
| PointSequences.New | src/PointSequence.cpp:6-11 | A new sequence is empty and has the requested capacity. |
| PointSequences.Expand | src/PointSequence.cpp:17-32 | With room left, `expand` succeeds and changes nothing. When full, it doubles the capacity and keeps the points. A doubling beyond 16 bits is refused. |
| PointSequences.Add | src/PointSequence.cpp:34-42 | `add` succeeds exactly when there is room or the capacity can double. On success the point is appended at the end, and the capacity is kept, or doubled when the sequence was full. On refusal nothing changes. |
| PointSequences.AddXY | include/PointSequence.h:40 | `add(x, y)` is `add(Point(x, y))`. |
| PointSequences.At | include/PointSequence.h:53 | Indexing below the size gives the stored point. Any other index gives (0,0). |
| PointSequences.Clear | src/PointSequence.cpp:53-55 | `clear` empties the sequence and keeps the capacity. |
| PointSequences.AddAll | src/PointSequence.cpp:44-51 | `add(other)` appends all of other's points in order when it succeeds. On failure a prefix of them was appended and the sequence is full and cannot double. |
| PointSequences.Render | src/PointSequence.cpp:57-66 | The text form is ASCII, is bracketed by "[" and "]", and is "[]" exactly for an empty sequence. |
| PointSequences.WriteToStream | src/PointSequence.cpp:57-66 | The loop printing "[", each point followed by "," except the last, and then "]" prints exactly the text form. |
| PointSequences.ToString | src/PointSequence.cpp:68-72 | The string conversion, done by writing to a fresh string stream, equals the text form. |
| PointSequences.RenderRoundTrip | src/PointSequence.cpp:57-66 | The text form reads back as the same points in the same order. |
| PointSequences.DefaultSequenceExample | test/test_PointSequence.cpp:34-45 | A default sequence is empty with capacity 10. Three adds leave those three points with capacity 10. |
| PointSequences.RenderExample | test/test_PointSequence.cpp:47-49 | The points (0,0), (1,0), (1,1) are written as "[(0,0),(1,0),(1,1)]". |
| PointSequences.ExpandAsWritten | src/PointSequence.cpp:17-32 | As written, `expand` always succeeds and keeps the points. When full, it stores the doubled capacity modulo 65536, the range of the 16-bit capacity. |
| PointSequences.AddAsWritten | src/PointSequence.cpp:34-42 | As written, `add` always succeeds and appends the point. When the sequence was full, the capacity becomes the doubled capacity modulo 65536. |
| PointSequences.AddAsWrittenBreaksInvariant | src/PointSequence.cpp:17-42 | As written, adding to a full sequence of capacity 32768 wraps the capacity to 0, leaving more points than capacity. |
| PointSequences.AddKeepsInvariantAtWrap | src/PointSequence.cpp:17-42 | The corrected `add` refuses in that state and leaves the sequence unchanged. |
| DataTables.New | include/DataTable.h:42-60 | A new table copies the first `num_columns` names, has no rows and has storage for `initial_size` rows. |
| DataTables.Copy | include/DataTable.h:62-84 | The copy constructor, copying names and values one by one, yields a table equal to the original. |
| DataTables.Extend | include/DataTable.h:95-120 | `extend` grows the storage by exactly `initial_size` rows and keeps every row. |
| DataTables.AppendRow | include/DataTable.h:122-140 | `append_row` succeeds exactly when the declared column count matches; otherwise nothing changes. On success one row holding the values is appended, the earlier rows are kept, and the storage grows by one chunk only when it was full. |
| DataTables.AppendRowKeepsTight | include/DataTable.h:127-131 | After any run of appends to a new table, the storage is the fewest whole chunks of `initial_size` rows that hold the rows. |
| DataTables.AppendRowsInOrder | include/DataTable.h:122-140 | Appending several rows stores them after the existing ones, in order. |
| DataTables.SevenAppendsExample | test/test_DataTable.cpp:31-41 | Seven appends to a three-column table with initial size 3 keep all seven rows in order and leave storage for nine. |
| DataTables.DecimalFormatter | include/DataTable.h:37-39 | The default formatter writes the value in decimal, whatever the column. The text reads back as exactly that value, and it contains no "," or newline, so it is safe in a CSV field. |
| DataTables.WriteToStream | include/DataTable.h:142-164 | The nested printing loops print exactly the CSV text. That text is the names joined by ",", then each row's formatted fields joined by ",", each line terminated. |
| DataTables.CsvReadsBack | include/DataTable.h:142-164 | The CSV text splits into its lines, the header into the column names, and each row line into that row's formatted fields. This holds for a table with at least one column when no name or field contains "," or a newline. |
| DataTables.DefaultFormatterExample | test/test_DataTable.cpp:7-17 | The values 1..9 under the default formatter give "col1,col2,col3\n1,2,3\n4,5,6\n7,8,9\n". |
| DataTables.CustomFormatterExample | test/test_DataTable.cpp:47-62 | A formatter doubling only column 0 gives "col1,col2,col3\n2,2,3\n8,5,6\n14,8,9\n". It receives the correct column index. |
| PidControllers.New | src/PIDController.cpp:9-21 | A new controller has the given gains and bounds, set point 0, integral 0 and last error 0, and awaits its first sample. |
| PidControllers.SetSetPoint | src/PIDController.cpp:29-32 | `setSetPoint` changes the set point and nothing else. |
| PidControllers.CumulativeError | include/PIDController.h:35 | `getCumulativeError` is the accumulated integral term. Over any run of samples it grows by the sum of error times elapsed seconds (`PidControllers.RunIntegratesError`). |
| PidControllers.Clamp | src/PIDController.cpp:55-59 | A signal above max becomes max. Otherwise a signal below min becomes min. A signal within the bounds passes unchanged. |
| PidControllers.Update | src/PIDController.cpp:38-61 | First sample: returns 0, records the time, and leaves the integral and last error. Later samples: last error is set point minus measurement, the integral grows by error times elapsed seconds, and the output is the clamped PID signal, within [min, max] when min ≤ max. Gains, bounds and set point never change. |
| PidControllers.Reset | src/PIDController.cpp:65-71 | `reset` zeroes the integral, last error and time and awaits a first sample again. Gains, bounds and set point stay. |
| PidControllers.ResetIsNew | src/PIDController.cpp:65-71 | A reset controller equals a new one with the same gains, bounds and set point. |
| PidControllers.FirstUpdateAfterReset | src/PIDController.cpp:40-44 | After a reset, the next update returns 0 and only records the time. |
| PidControllers.ProportionalInRange | src/PIDController.cpp:45-61 | With no integral or derivative gain, an in-range output is the gain times the error. |
| PidControllers.ProportionalExample | src/PIDController.cpp:38-61 | With kp=1, bounds [-10,10] and set point 5, `update(0,0)` is 0 and `update(0,1000)` is 5. |
| PidControllers.RunIntegratesError | src/PIDController.cpp:45-61 | Over any run of later samples, the cumulative error grows by the sum of error times elapsed seconds. Every output stays within [min, max] when min ≤ max. |
| SpeedModels.Trunc | src/SpeedModel.cpp:77 | The float-to-int conversion keeps the integer part, rounding toward zero. |
| SpeedModels.LookupCases | src/SpeedModel.cpp:44-73 | Requests up to 60 use speed 60 and ratio 0.7962962963. Requests from 225 keep their speed and use the last ratio 0.9471871412, uninterpolated. Requests in between keep their speed and interpolate linearly within the calibration segment that brackets them. |
| SpeedModels.LerpBetween | src/SpeedModel.cpp:61-63 | Within a segment, the interpolated ratio lies between the segment's two calibrated values. At either end it equals that end's value. |
| SpeedModels.LookupRatioBelowOne | src/SpeedModel.cpp:44-73 | Every looked-up ratio lies strictly between 0 and 1, and the kept speed is between 60 and 255. |
| SpeedModels.LookupAtLevels | src/SpeedModel.cpp:51-63 | At each calibrated level from 60 to 200, the lookup gives exactly that level's ratio. |
| SpeedModels.LookupAt225 | src/SpeedModel.cpp:51-73 | At level 225 the lookup gives the last ratio, not 225's own calibrated value. |
| SpeedModels.New | src/SpeedModel.cpp:28-36 | A new model keeps the wheel disc size and has every speed at zero. |
| SpeedModels.Reset | src/SpeedModel.cpp:88-92 | `reset` zeroes every speed and keeps the wheel disc size. |
| SpeedModels.SetAverageSpeed | src/SpeedModel.cpp:42-86 | Speed A is the request raised to at least 60. Speed B is speed A times the looked-up ratio, truncated, so 0 ≤ B < A. The average speed is the mean of A and B. |
| SpeedModels.Scale | src/SpeedModel.cpp:77 | A positive speed times a ratio in (0,1), truncated, is a smaller non-negative speed. |
| SpeedModels.GetSpeedA | src/SpeedModel.cpp:94-96 | The getter narrows speed A to 8 bits: the result is below 256, congruent to the speed modulo 256, and equals it when it fits. |
| SpeedModels.GetSpeedB | src/SpeedModel.cpp:98-100 | The same narrowing for speed B. |
| SpeedModels.SetAverageSpeedExamples | src/SpeedModel.cpp:42-86 | Requests 0, 100 and 255 give speeds (60,47), (100,89) and (255,241), with averages 53.5, 94.5 and 248. |
| SpeedModels.UpdateSpeedsForStraightPath | src/SpeedModel.cpp:102-176 | Equal counter deltas change nothing, and the drift correction is skipped too. Otherwise the balance trim and then the drift correction apply. The average speed and wheel disc never change. |
| SpeedModels.BalanceTrims | src/SpeedModel.cpp:125-146 | With a non-negative average speed, the trim lowers speed A when A's wheel moved more and raises it when B's did. The change lies strictly within 1 of the adjustment, which is the most truncation can lose. The two speeds then sum to twice the average speed, to within 1. |
| SpeedModels.DriftCorrects | src/SpeedModel.cpp:158-168 | The drift correction lowers only the speed of the wheel that has counted more, by exactly the count difference. Equal counters change nothing. No speed rises, and the gap A−B moves by exactly counterB−counterA. |

## Left out

- `HeadingCalculator`, `Robot`, `Driver`, `DataLogger` and `main`: sensor, motor and SD-card I/O, clocks and delays. Nothing in them is a self-contained computation.
- `Point::distance` and `Point::absolute_bearing`: they are floating-point `sqrt`, `pow` and `atan2`.
- The `Serial.print` tracing in `SpeedModel`: it is a side channel with no effect on state.
- `startSpeedControl` and `updateSpeedsForEqualRotation`, declared in include/SpeedModel.h: they have no definition among the source files modelled. The model follows src/SpeedModel.cpp.
- `getCurrentAdjustment` (include/SpeedModel.h:37): it returns the `_adjustment` field, which no modelled operation sets, so the model has no such field.
- SpeedModels.UpdateSpeedsForStraightPath: the unused `deltaMillis` and `totalMillis` parameters are omitted.
- SpeedModels.UpdateSpeedsForStraightPath: speeds are unbounded integers. This misses two effects: the narrowing to the 16-bit `int` of the AVR target when a speed is lowered by an unsigned 32-bit counter difference, and an out-of-range float-to-int conversion. The drift step subtracts the cumulative counter difference on every call, so a sustained imbalance between the wheels drives speed A out of the 16-bit range within a few hundred calls; the model's speeds do not wrap there.
- SpeedModels.UpdateSpeedsForStraightPath: requires a non-zero wheel disc size when the deltas differ, because the source would divide by zero.
- Floating-point rounding: PID terms, calibration ratios and speeds are exact reals, and the table values are their decimal literals. The float-to-int conversion of speeds is modelled (`Trunc`).
- Points.Add: coordinates are unbounded integers, so a 16-bit `int` overflow in `+` is not modelled.
- PidControllers.Update: a later sample requires a strictly later timestamp. An equal timestamp divides by zero and an earlier one wraps the unsigned subtraction. The 32-bit millisecond clock is an unbounded natural number, so its wrap is not modelled.
- Allocation failure: `new` returning NULL in `expand` and `extend`, and a `String +=` that fails to grow the buffer in `StringStream::write` (which then drops the byte yet still advances the position and returns 1), are not modelled, so those calls always succeed. `memcpy` and `delete[]` become sequence copies.
- PointSequences.New and DataTables.New: the initial capacity and initial size must be positive. A zero capacity never grows, and `add` would write past the end.
- PointSequences.AddAll: the other sequence is a value, so adding a sequence to itself (the loop re-reads the growing size) is not modelled.
- DataTables.AppendRow: the variadic values are a sequence, which must hold at least the declared number of values.
- DataTables.WriteToStream: the line terminator is modelled as a single "\n", the terminator the unit tests expect. Arduino's `println` writes "\r\n". The unit tests read the CSV through a `get_csv_string` that is not part of this model.
- DataTables.DefaultFormatterExample: only integer tables are modelled with a formatter. The default `String(double)` formatting of the tests' `DataTable<double>` (two decimals) is not modelled, so the formatter is a parameter.
- DataTables.SevenAppendsExample: states the seven rows and the storage, not the CSV text of that table.
- Stream `flush` is a no-op for a string stream and is not modelled.

## Findings

| source | as written | input that shows it | evidently intended | confidence | as-written member | corrected member |
|---|---|---|---|---|---|---|
| src/PointSequence.cpp:22-30 | `_capacity *= 2` on the 16-bit capacity wraps to 0 when the capacity is 32768; the following store then leaves more points than capacity | a full sequence of capacity 32768 and any `add` | refuse the doubling (return false) when it would not fit in 16 bits, so that size ≤ capacity keeps holding | not executed; the wrap follows from the `uint16_t` type of `_capacity` | PointSequences.AddAsWritten / PointSequences.AddAsWrittenBreaksInvariant | PointSequences.Add / PointSequences.AddKeepsInvariantAtWrap |
