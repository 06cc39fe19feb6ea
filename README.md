# Attendance tracker core, modelled in Dafny

This project models the logic of an attendance-tracking web front-end. An
employee slides a control on a card to clock in and out for the day; the
attendance provider keeps today's record, the employee's history and, for an
admin, every stored record; a summary card aggregates a list of records; and a
placeholder face check accepts a similarity score at or above 0.75.

Modules, one per source file plus two shared ones:

- `Nullable` (`nullable.dfy`): `Option`, standing for TypeScript's `T | null`.
- `TimeText` (`time_text.dfy`): the `HH:MM` text of a wall-clock time, built by
  `toString().padStart(2, '0')`, and read back by `split(':').map(Number)`.
- `Attendance` (`attendance_context.dfy`): the attendance record and the
  provider. The provider is a class. Its fields are today's record, the
  history, the all-records list, the loading flag and the record store.
  Its methods are `LoadAttendanceData` (with its two parts, `LoadForUser`
  and `SortStore`), `ClockIn` and `ClockOut`. The
  clock-out arithmetic and the load's find, filter and sort are pure
  functions, with their properties proved as lemmas.
- `ClockCard` (`clock_in_out_card.dfy`): which action a completed slide
  performs, the status label, which parts of the card are shown, and the
  card's slider instance.
- `Slide` (`slide_to_action.dfy`): the slide-to-confirm control as a class
  with `sliding`, `position` and `completed`. A ghost counter records the
  calls of the completion callback.
- `Summary` (`attendance_summary.dfy`): the counts, the hours total and the
  average, over a fold that is proved independent of record order.
- `FaceRecognition` (`face_recognition.dfy`): the match threshold and the
  range of the placeholder score.

Representation choices:

- Hours worked are whole hundredths of an hour, or NaN. The source rounds to
  two decimals, and `Math.round(m / 60 * 100)` equals `(10m + 3) div 6` for
  every integer m, since the exact value is never halfway.
- Calendar dates are day numbers. The source compares them for equality and
  orders them by `new Date(d).getTime()`.
- The current time is an hour and a minute passed in. The id of a new record
  and `Math.random()` are parameters too.
- JavaScript truthiness of a text is "present and not empty".

Four behaviours of the code that a reader might not expect, which the model
keeps:

- Clock-out never rejects a negative duration. A clock-out before the
  clock-in yields negative hours and a half day
  (`ClockOutBeforeClockInIsNegative`).
- The average hours are taken over the records whose hours are truthy, so a
  record with 0 or NaN hours is left out of the divisor. It is not taken over
  every record whose hours are set.
- A record has one `location`, which clock-in sets to `Office`. There are no
  separate clock-in and clock-out locations and no per-period marks.
- The face-match threshold is inclusive: a score of exactly 0.75 matches.

A touch release is tested against the track's geometry even when no drag
is in progress. So on a track narrower than the thumb (a negative maximum
position), a plain tap completes the slide. `Slide.SlideToAction.HandleTouchEnd`
states this case like any other.

## Model

| member | source | states |
|---|---|---|
| TimeText.DecimalString | src/contexts/AttendanceContext.tsx:166-167 | `n.toString()` is a non-empty run of decimal digits; it is one digit exactly when n < 10, and otherwise has no leading zero |
| TimeText.NumberOf | src/contexts/AttendanceContext.tsx:196-197 | `Number(s)` is a number exactly when every character of s is a digit, the empty text included; any other text is NaN |
| TimeText.NumberOfDecimalString | src/contexts/AttendanceContext.tsx:166-167 | `Number(n.toString())` gives back n for every non-negative n |
| TimeText.PadStart2 | src/contexts/AttendanceContext.tsx:166-167 | `padStart(2, '0')` on a text of at most two characters; its meaning is stated by `TimeText.PadStart2Meaning` |
| TimeText.PadStart2Meaning | src/contexts/AttendanceContext.tsx:166-167 | `padStart(2, '0')` yields at least two characters, ends with the original text, and every character in front of it is '0' |
| TimeText.TwoDigitText | src/contexts/AttendanceContext.tsx:166-167 | the padded text of a number below 100 is its tens digit followed by its units digit |
| TimeText.NumberOfTwoDigits | src/contexts/AttendanceContext.tsx:196-197 | `Number` reads that two-digit text back as the number |
| TimeText.Split | src/contexts/AttendanceContext.tsx:196-197 | `split` on one separator always yields at least one piece |
| TimeText.JoinSplit | src/contexts/AttendanceContext.tsx:196-197 | splitting loses nothing: joining the pieces with the separator gives the text back |
| TimeText.SplitWithoutSeparator | src/contexts/AttendanceContext.tsx:196-197 | a text without the separator splits into itself alone |
| TimeText.SplitAtSeparator | src/contexts/AttendanceContext.tsx:196-197 | a text whose first separator follows the prefix a splits into a, then the pieces of the rest |
| TimeText.FormatClock | src/contexts/AttendanceContext.tsx:165-168 | the `${hours}:${minutes}` time text is five characters long |
| TimeText.FormatClockDigits | src/contexts/AttendanceContext.tsx:165-168 | the time text is tens and units of the hour, ':', tens and units of the minute |
| TimeText.FormatClockExamples | src/contexts/AttendanceContext.tsx:165-168 | 8:00, 12:30, 9:00 and 11:30 are shown as "08:00", "12:30", "09:00" and "11:30" |
| TimeText.ParseClock | src/contexts/AttendanceContext.tsx:196-200 | `split(':').map(Number)` and `parts[0] * 60 + parts[1]`: minutes after midnight, or NaN when there is no second piece or either of the first two pieces is not a number; `TimeText.ParseFormatRoundTrip` states its value on formatted times |
| TimeText.ParseClockOfParts | src/contexts/AttendanceContext.tsx:196-200 | a text that splits into exactly two runs of digits is worth 60 times the first plus the second minutes |
| TimeText.SplitClockText | src/contexts/AttendanceContext.tsx:196-197 | two two-digit runs around a colon split into exactly those two runs |
| TimeText.ParseClockText | src/contexts/AttendanceContext.tsx:196-200 | two two-digit runs around a colon read as hours times 60 plus minutes |
| TimeText.ParseFormatRoundTrip | src/contexts/AttendanceContext.tsx:196-200 | parsing the formatted time hh:mm (h < 24, m < 60) gives back 60h + m minutes after midnight |
| Attendance.IsClockedIn | src/contexts/AttendanceContext.tsx:107 | `isClockedIn`: a record with a clock-in time set and no clock-out time set; `Attendance.WithClockIn`, `Attendance.WithClockOut` and `Attendance.ClockInThenOutFromSkeleton` state how clock-in and clock-out move it |
| Attendance.ElapsedHours | src/contexts/AttendanceContext.tsx:196-202 | the hours clock-out stores: the minutes between the two time texts, a missing clock-in read as 00:00, rounded to hundredths, or NaN when a text does not parse; `Attendance.ElapsedHoursOfClockTimes` states its value on formatted times |
| Attendance.ClockOutStatus | src/contexts/AttendanceContext.tsx:209 | `totalHours < 4 ? 'half-day' : 'present'`, NaN giving present; `Attendance.HalfDayIffUnderFourHours` states it in minutes |
| Attendance.RoundHundredths | src/contexts/AttendanceContext.tsx:202 | the rounded hundredths h satisfy 10m - 3 < 6h < 10m + 3: within half a hundredth of m/60 hours, so the nearest hundredth |
| Attendance.RoundHundredthsIsMathRound | src/contexts/AttendanceContext.tsx:202 | the rounding equals `Math.round`, i.e. floor(x + 0.5), of the exact m / 60 * 100 |
| Attendance.ElapsedHoursOfClockTimes | src/contexts/AttendanceContext.tsx:196-202 | between two formatted times the hours are the minute difference rounded to hundredths; a missing clock-in counts from 00:00 |
| Attendance.HalfDayIffUnderFourHours | src/contexts/AttendanceContext.tsx:209 | the status after clock-out is half-day exactly when fewer than 240 minutes were worked; 4.00 hours is present |
| Attendance.ClockOutBeforeClockInIsNegative | src/contexts/AttendanceContext.tsx:196-209 | a clock-out earlier than the clock-in gives negative hours and a half day |
| Attendance.FullDayExample | src/contexts/AttendanceContext.tsx:196-209 | 08:00 to 12:30 gives 4.50 hours and present |
| Attendance.HalfDayExample | src/contexts/AttendanceContext.tsx:196-209 | 09:00 to 11:30 gives 2.50 hours and half-day |
| Attendance.WithClockIn | src/contexts/AttendanceContext.tsx:171-176 | clock-in sets the clock-in time, status present and location Office and changes no other field; with a non-empty time the user is then clocked in exactly when no clock-out time is set |
| Attendance.WithClockOut | src/contexts/AttendanceContext.tsx:205-210 | clock-out sets the clock-out time, the hours since the clock-in and the status those hours give, and changes no other field; afterwards the user is not clocked in |
| Attendance.ClockInThenOutFromSkeleton | src/contexts/AttendanceContext.tsx:107 | from an empty record, `isClockedIn` is false, true after clock-in, false after clock-out; the final record holds both times, the rounded hours, the status for them and the Office location |
| Attendance.FindTodayIndex | src/contexts/AttendanceContext.tsx:125-127 | `find` stops at the first record of the user for today, every record before it being another user's or another day's, or past the end when there is none |
| Attendance.Skeleton | src/contexts/AttendanceContext.tsx:130-140 | the new record for a user with nothing stored today: the given id, the user's id and name, today, and every other field null; `Attendance.TodayRecordIsStoredOrNew` states when it is used |
| Attendance.TodayRecordFor | src/contexts/AttendanceContext.tsx:130-140 | today's record belongs to the user and the day |
| Attendance.TodayRecordIsStoredOrNew | src/contexts/AttendanceContext.tsx:125-140 | today's record is the first stored record of the user for today when one exists, and otherwise a new record with the given id, the user's name and every time, hours, status and location field null |
| Attendance.UserHistory | src/contexts/AttendanceContext.tsx:144-145 | `filter(r => r.userId === userId && r.date !== today)` in store order; `Attendance.UserHistoryMembers` states what it keeps |
| Attendance.UserHistoryMembers | src/contexts/AttendanceContext.tsx:144-145 | the filter keeps exactly the user's records of other days, each exactly as many times as the store holds it |
| Attendance.ConsNewestFirst | src/contexts/AttendanceContext.tsx:146 | a record dated no earlier than the head of a newest-first list can be put in front of it |
| Attendance.InsertByDate | src/contexts/AttendanceContext.tsx:146 | inserting into a newest-first list keeps it newest first and adds exactly that record |
| Attendance.SortNewestFirst | src/contexts/AttendanceContext.tsx:146 | the comparator sort yields a newest-first permutation of its input |
| Attendance.HistoryIsUsersOtherDays | src/contexts/AttendanceContext.tsx:143-147 | the history is newest first and holds exactly the user's records whose date is not today, each exactly as many times as the store holds it |
| Attendance.HistoryBelongsToUser | src/contexts/AttendanceContext.tsx:143-147 | every history record belongs to the user |
| Attendance.LoadKeepsInvariant | src/contexts/AttendanceContext.tsx:123-155 | loading for a signed-in user keeps the provider invariant, with the sorted store becoming the all-records list for an admin |
| Attendance.AttendanceContext.constructor | src/contexts/AttendanceContext.tsx:102-105 | the provider starts with no record, empty lists and loading set |
| Attendance.AttendanceContext.LoadAttendanceData | src/contexts/AttendanceContext.tsx:115-159 | after a load the invariant holds and loading is off; with a user, today's record and the history are computed from the store; without one nothing else changes |
| Attendance.AttendanceContext.LoadForUser | src/contexts/AttendanceContext.tsx:123-155 | for a signed-in user: today's record, the sorted history and, for an admin only, the store sorted in place and shared as the all-records list |
| Attendance.AttendanceContext.SortStore | src/contexts/AttendanceContext.tsx:150-154 | the store is replaced by its newest-first sort, a permutation of it, and the all-records list is that same store |
| Attendance.AttendanceContext.ClockIn | src/contexts/AttendanceContext.tsx:161-178 | without a user nothing changes; otherwise today's record becomes the clock-in update at the formatted current time |
| Attendance.AttendanceContext.ClockOut | src/contexts/AttendanceContext.tsx:186-212 | without a user or a record nothing changes; otherwise today's record becomes the clock-out update at the formatted current time |
| ClockCard.CurrentTimeText | src/components/ClockInOutCard.tsx:11-14 | the current time shown is two digits of hours, ':', and two digits of minutes, reading back as the hour and the minute |
| ClockCard.SlideCompleteAction | src/components/ClockInOutCard.tsx:24-30 | a completed slide clocks out exactly when the user is clocked in, and clocks in otherwise |
| ClockCard.AfterSlide | src/components/ClockInOutCard.tsx:24-30 | the record after a completed slide is the clock-out update when clocked in and the clock-in update otherwise |
| ClockCard.StatusLabelFor | src/components/ClockInOutCard.tsx:53-59 | Working exactly when clocked in; Day Complete exactly when not clocked in and a clock-out time is set; Not Clocked In exactly otherwise |
| ClockCard.ShowsClockTimes | src/components/ClockInOutCard.tsx:64 | the clock-times block is shown when the record has a clock-in time; `ClockCard.CardThroughTheDay` states it across a day |
| ClockCard.ShowsClockOutTime | src/components/ClockInOutCard.tsx:71-76 | within that block, the clock-out cell is shown when a clock-out time is set; `ClockCard.CardThroughTheDay` states it across a day |
| ClockCard.ShowsTotalHours | src/components/ClockInOutCard.tsx:80-85 | the total-hours panel is shown when the hours are truthy (set, a number and not 0); `ClockCard.RoundsToZeroIffNoMinutes` states when it is hidden |
| ClockCard.ShowsSlider | src/components/ClockInOutCard.tsx:87 | the slider is rendered while there is a record and not both times are set; `ClockCard.ShownSliderIsEnabled` relates it to `disabled` |
| ClockCard.SliderDisabled | src/components/ClockInOutCard.tsx:92 | the slider's `disabled` prop: both times set |
| ClockCard.SliderText | src/components/ClockInOutCard.tsx:90 | "Slide to Clock Out" when clocked in, "Slide to Clock In" otherwise; `ClockCard.ShownSliderIsEnabled` ties it to the slide's action |
| ClockCard.SliderCompleteText | src/components/ClockInOutCard.tsx:91 | "Clocked Out!" when clocked in, "Clocked In!" otherwise; `ClockCard.StuckAfterClockIn` shows the text read while Working |
| ClockCard.ShownSliderIsEnabled | src/components/ClockInOutCard.tsx:87-92 | the slider is shown exactly when a record exists and the slider would not be disabled; its text names the action a completed slide performs |
| ClockCard.RoundsToZeroIffNoMinutes | src/components/ClockInOutCard.tsx:80 | the hours round to zero, hiding the total-hours panel, exactly when no minutes were worked |
| ClockCard.CardThroughTheDay | src/components/ClockInOutCard.tsx:53-92 | over a day from an empty record: Not Clocked In with a clock-in slider; then Working with the clock-in time and a clock-out slider; then Day Complete with both times, no slider, and the hours panel unless both times fall in the same minute |
| ClockCard.HandleSlideComplete | src/components/ClockInOutCard.tsx:24-30 | calls clock-out when clocked in and clock-in otherwise, leaving today's record as `AfterSlide` of the old one and keeping the provider invariant |
| ClockCard.ClockCardView.constructor | src/components/ClockInOutCard.tsx:87-95 | the card starts with a new slider in its first state |
| ClockCard.ClockCardView.TrackText | src/components/ClockInOutCard.tsx:90-91 | the track text of the card's slider: `Slide.SlideToAction.TrackText` of the card's `SliderText` and `SliderCompleteText` for the current record; `ClockCard.StuckAfterClockIn` states its value after a slide clock-in |
| ClockCard.ClockCardView.Release | src/components/ClockInOutCard.tsx:87-95 | as written: a release fires exactly when the slider was not completed and the thumb was past the threshold; a firing release applies the slide's action; the same slider instance stays; a release on an incomplete slider ends the drag and leaves the thumb at the end when it fired and at 0 otherwise, while a completed slider does not move |
| ClockCard.ClockCardView.ReleaseKeyed | src/components/ClockInOutCard.tsx:87-95 | corrected: the same release, after which a change in `isClockedIn` mounts a new slider in its first state; otherwise the slider stays, as after `Release`: an incomplete one has its drag ended and the thumb at the end or at 0, and a completed one does not move |
| ClockCard.StuckAfterClockIn | src/components/ClockInOutCard.tsx:87-95 | as written: after a slide clocks the user in, the slider is still shown, reads "Clocked Out!" while the user is Working, and no later gestures fire it |
| ClockCard.ClockOutAfterClockInKeyed | src/components/ClockInOutCard.tsx:87-95 | corrected: after the clock-in slide, dragging the new slider to the end and releasing clocks the user out (Day Complete) |
| Slide.MaxPosition | src/components/SlideToAction.tsx:43-45 | the thumb's travel: track width minus thumb width |
| Slide.DragPosition | src/components/SlideToAction.tsx:76-80 | where the cursor puts the thumb: centred under it, clamped to the track; `Slide.Clamp` and `Slide.ThresholdOfDrag` state its range |
| Slide.PastThreshold | src/components/SlideToAction.tsx:47 | strictly past nine tenths of the travel; `Slide.ThresholdOfDrag` states when a drag reaches it |
| Slide.Clamp | src/components/SlideToAction.tsx:79-80 | `Math.max(0, Math.min(x, max))` is never negative, lies within [0, max] when max >= 0, is x inside that range, 0 below it or when max < 0, and max above it |
| Slide.ClampIdempotent | src/components/SlideToAction.tsx:80 | clamping a clamped position leaves it unchanged |
| Slide.ThresholdOfDrag | src/components/SlideToAction.tsx:47-54 | on a track wider than the thumb, dragging to the far end puts the thumb at the maximum, past the threshold; a thumb at the start is not past it |
| Slide.SlideToAction.constructor | src/components/SlideToAction.tsx:22-24 | the control starts not sliding, at position 0, not completed, with no callback calls |
| Slide.SlideToAction.HandleTouchStart | src/components/SlideToAction.tsx:28-33 | a touch or a mouse press begins a drag unless disabled or completed, in which case nothing changes; when sliding turns true, the position of that render is the one the mouse listeners will see |
| Slide.SlideToAction.HandleTouchMove | src/components/SlideToAction.tsx:58-81 | during a drag the thumb moves to the cursor's clamped position; when not sliding, disabled, completed or without a track, the position does not change |
| Slide.SlideToAction.HandleTouchEnd | src/components/SlideToAction.tsx:35-56 | disabled or completed: nothing changes. Otherwise the drag ends; strictly past 0.9 of the travel, the thumb snaps to the end, the control completes and the callback fires once; at or below it, the thumb returns to 0 and the control stays incomplete |
| Slide.SlideToAction.HandleMouseMove | src/components/SlideToAction.tsx:86-90 | while sliding, a mouse move puts the thumb at the cursor's clamped position; otherwise, or without a track, the position does not change |
| Slide.SlideToAction.HandleMouseUp | src/components/SlideToAction.tsx:92-107 | as written: a mouse release while sliding ends the drag and tests the position of the render in which the drag started, not the dragged position; past the threshold it completes and fires once, otherwise the thumb returns to 0 |
| Slide.SlideToAction.HandleMouseUpCurrent | src/components/SlideToAction.tsx:92-96 | corrected: a mouse release while sliding behaves as a touch release: unless disabled it ends the drag, and when disabled the drag goes on; disabled or without a track nothing else changes; otherwise it tests the position the thumb was dragged to, completing and firing past the threshold and returning the thumb to 0 short of it |
| Slide.MouseSlideAsWritten | src/components/SlideToAction.tsx:84-107 | as written: a mouse drag from the start to the far end of a track wider than the thumb, released there past the threshold, leaves the slide incomplete, the thumb back at 0 and the callback not called |
| Slide.MouseSlideCorrected | src/components/SlideToAction.tsx:84-107 | corrected: the same mouse gesture completes the slide, leaves the thumb at the end and calls the callback once |
| Slide.SlideToAction.TrackText | src/components/SlideToAction.tsx:122 | the track shows the completion text when completed and the action text otherwise |
| Slide.SlideToAction.Run | src/components/SlideToAction.tsx:28-81 | over any sequence of touch and mouse events the callback fires at most once, never after completion, and the control ends completed exactly when it was or has just fired; a completed control is never sliding |
| Summary.SumOf | src/components/AttendanceSummary.tsx:18-20 | `reduce` adding up a weight over the records from first to last; its laws are stated by `Summary.SumOfAppend`, `Summary.SumOfRemove` and `Summary.SumOfPermutation` |
| Summary.PresentWeight | src/components/AttendanceSummary.tsx:13 | one for a record whose status is present, so its sum is the length of `filter(r => r.status === 'present')` |
| Summary.HalfDayWeight | src/components/AttendanceSummary.tsx:14 | one for a half-day record, so its sum is the half-day filter's length |
| Summary.AbsentWeight | src/components/AttendanceSummary.tsx:15 | one for an absent record, so its sum is the absent filter's length |
| Summary.HoursWeight | src/components/AttendanceSummary.tsx:19 | `record.totalHours \|\| 0` in hundredths: null and NaN add nothing |
| Summary.HasHours | src/components/AttendanceSummary.tsx:23 | JavaScript truthiness of `totalHours`: set, a number and not 0 |
| Summary.HasHoursWeight | src/components/AttendanceSummary.tsx:23 | one for a record with truthy hours, so its sum is the divisor of the average |
| Summary.SumOfAppend | src/components/AttendanceSummary.tsx:18-20 | the reduce over two lists laid end to end is the sum of the two reduces |
| Summary.SumOfRemove | src/components/AttendanceSummary.tsx:18-20 | taking one record out of the list takes its weight out of the sum |
| Summary.SumOfPermutation | src/components/AttendanceSummary.tsx:18-20 | the reduce gives the same sum for any reordering of the records |
| Summary.StatusCountsBounded | src/components/AttendanceSummary.tsx:13-15 | the present, half-day and absent counts are non-negative and add up to at most the number of records |
| Summary.DaysWithHoursBounded | src/components/AttendanceSummary.tsx:23 | at most every record has hours, and with no record having hours the hours total is 0 |
| Summary.Summarize | src/components/AttendanceSummary.tsx:12-26 | total days is the number of records; the status counts fit within it (their values are stated record by record by `Summary.RecordWithoutHoursIgnoredByAverage` and `Summary.RecordWithHoursCounted`); the average times the days with hours is the hours total, and it is 0 when no day has hours |
| Summary.SummaryOfNothing | src/components/AttendanceSummary.tsx:12-26 | an empty list gives all zeros |
| Summary.SummaryIgnoresOrder | src/components/AttendanceSummary.tsx:12-23 | the summary depends only on which records there are, not on their order |
| Summary.RecordWithoutHoursIgnoredByAverage | src/components/AttendanceSummary.tsx:19-23 | a record with null, NaN or zero hours changes neither the hours, the divisor nor the average, but adds one day and one to the count of its own status (present, half-day or absent) and none to the others |
| Summary.RecordWithHoursCounted | src/components/AttendanceSummary.tsx:19-23 | a record with hours adds its hours to the total, one day to the divisor, one day to the total, and one to the count of its own status and none to the others |
| Summary.SummaryExample | src/components/AttendanceSummary.tsx:12-26 | days of 4.50 and 2.50 hours and one absent day: three days, one of each status, 7.00 hours, 3.50 on average |
| FaceRecognition.CompareFaces | src/utils/faceRecognition.ts:11-27 | the placeholder score lies in [0.6, 1.0) |
| FaceRecognition.IsFaceMatched | src/utils/faceRecognition.ts:78-82 | a score matches when it is at least 0.75; `FaceRecognition.ThresholdIsInclusive` and `FaceRecognition.MatchIsMonotone` state the threshold's properties |
| FaceRecognition.ThresholdIsInclusive | src/utils/faceRecognition.ts:78-82 | 0.75 matches, 0.74 does not, and no score below 0.75 does |
| FaceRecognition.MatchIsMonotone | src/utils/faceRecognition.ts:80-81 | a score at least as high as a matching one matches |
| FaceRecognition.AcceptedScores | src/utils/faceRecognition.ts:23 | a placeholder score is accepted exactly when it lies in [0.75, 1.0), that is when the random draw is at least 0.375 |
| FaceRecognition.ScoreIgnoresFaces | src/utils/faceRecognition.ts:11-27 | the score does not depend on the two images |

## Left out

- Attendance.AttendanceContext.ClockIn: requires today's record to exist when a user is signed in. The only caller offers the slider only then. With a user and no record, the source would spread `null` into a record that lacks its id, user and date.
- Attendance.AttendanceContext.LoadAttendanceData: the one-second timer is left out. So is the `useEffect` that reruns the load when the user changes. The load runs as one step, so the state with loading set in between is not observable.
- Attendance.AttendanceContext: the model covers one session, with `user` fixed. The provider is mounted once above the routes (src/App.tsx:25-36), so in the source it outlives sign-outs. After a sign-out the load is skipped (src/contexts/AttendanceContext.tsx:109-113), and today's record and the history of the previous user stay in place. After an admin's session, `allEmployeeRecords` is never cleared (lines 150-154): an employee who signs in next still holds the store the admin sorted. `Attendance.ProviderInvariant` states the clauses about the user for one session only.
- Attendance.AttendanceContext.SortStore: the record store is modelled as a field of the provider, not as one module-level array shared by every provider. For a non-admin it keeps its order. Only the admin load sorts it in place.
- Attendance.SortNewestFirst: the sort is modelled as a stable sort by day number, which is what the comparator compares. Dates that do not parse (NaN times) are not modelled.
- TimeText.NumberOf: `Number` is modelled for digit texts and the empty text only. Whitespace, signs, decimals, exponents and hexadecimal texts read as NaN here, though JavaScript reads some of them as numbers. `clockIn` never produces such texts.
- Summary.Summarize: the hours are summed as exact hundredths, and the average is an exact real number. Floating-point rounding in the sum and the division, and the two-decimal display, are not modelled.
- FaceRecognition.CompareFaces: the score is modelled as exact real arithmetic, with `Math.random()` in [0, 1). In double precision, the largest draw can round `0.6 + u * 0.4` to exactly 1.0, which the real-number bound excludes.
- The webcam capture (`captureFromWebcam`) and the 1.5-second delay in `compareFaces` are browser I/O and are not modelled.
- Toast notifications, the formatted date heading, styles, the thumb's arrow for the `direction` prop, and `preventDefault` are rendering only, and are not modelled.
- Slide.SlideToAction.HandleMouseMove: the mouse listeners are modelled by what their handlers see (`sliding` true, `completed` false, and a `disabled` prop that let the drag start). The render and effect timing between a state change and the listener's reinstallation is not modelled.
- ClockCard.ClockCardView.Release: the card's release is the touch release. A mouse release on the card as written never completes on a track wider than the thumb (see `Slide.MouseSlideAsWritten`), so the card-level scenarios use touch gestures.
- The clock, the random id of a new record, the page geometry and the cursor position are parameters of the model.
- Time-period schedules, geofence distance checks, per-period marks and a face-verification step before clock-in do not appear in these source files, so they are not modelled.

## Findings

| source | as written | input that shows it | evidently intended | confidence | as-written member | corrected member |
|---|---|---|---|---|---|---|
| src/components/ClockInOutCard.tsx:87-95 | the slider has no key, so after a slide clocks the user in, the same completed instance stays mounted; `completed` is never reset | an empty record for today; the thumb is dragged by touch past nine tenths and released at 09:00 | after the clock-in, a fresh slider reading "Slide to Clock Out" that clocks the user out | medium, not executed | ClockCard.StuckAfterClockIn | ClockCard.ClockOutAfterClockInKeyed |
| src/components/SlideToAction.tsx:84-107 | the effect installing the document `mousemove` and `mouseup` listeners depends on `[sliding]` only, so the `mouseup` listener calls the `handleTouchEnd` of the render in which the drag started, which tests the position of that render (0) and not the dragged position | track width 300, thumb width 60 (travel 240); mouse press on the thumb at 0, move to the far end (thumb at 240, past 216), release | the release completes the slide and calls `onComplete`, as a touch release does | medium, not executed | Slide.MouseSlideAsWritten | Slide.MouseSlideCorrected |

In the first run, the user is clocked in and the label reads Working. But the
track reads "Clocked Out!", and every later start, move or release is ignored
until the card is mounted again. In the second, a slide made with the mouse
never completes on a track wider than the thumb: the thumb follows the
cursor to the end and springs back on release.
