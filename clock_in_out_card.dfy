/** The clock-in/clock-out card: what it shows for today's record, which
    action a completed slide performs, and the slider instance it renders. */
module ClockCard {
  import opened Nullable
  import opened TimeText
  import opened Attendance
  import opened Slide

  /** The current time shown on the card is two digits of hours, a colon and
      two digits of minutes, each part reading back as its number. */
  lemma CurrentTimeText(hour: nat, minute: nat)
    requires hour < 24 && minute < 60
    ensures var t := FormatClock(hour, minute);
            && |t| == 5 && t[2] == ':' && AllDigits(t[..2]) && AllDigits(t[3..])
            && NumberOf(t[..2]) == Some(hour) && NumberOf(t[3..]) == Some(minute)
  {
    var hh := [DigitChar(hour / 10), DigitChar(hour % 10)];
    var mm := [DigitChar(minute / 10), DigitChar(minute % 10)];
    FormatClockDigits(hour, minute);
    var t := FormatClock(hour, minute);
    assert t[..2] == hh && t[3..] == mm;
    NumberOfTwoDigits(hour);
    NumberOfTwoDigits(minute);
  }

  datatype Action = ClockInAction | ClockOutAction

  /** `handleSlideComplete`'s choice: clock out when clocked in, otherwise
      clock in. */
  function SlideCompleteAction(today: Option<AttendanceRecord>): (a: Action)
    ensures a == ClockOutAction <==> IsClockedIn(today)
  {
    if IsClockedIn(today) then ClockOutAction else ClockInAction
  }

  /** Today's record once the action a completed slide chooses has run at
      `currentTime`. */
  function AfterSlide(r: AttendanceRecord, currentTime: string): (c: AttendanceRecord)
    ensures IsClockedIn(Some(r)) ==> c == WithClockOut(r, currentTime)
    ensures !IsClockedIn(Some(r)) ==> c == WithClockIn(r, currentTime)
  {
    match SlideCompleteAction(Some(r))
    case ClockOutAction => WithClockOut(r, currentTime)
    case ClockInAction => WithClockIn(r, currentTime)
  }

  datatype StatusLabel = Working | DayComplete | NotClockedIn

  /** The status line: Working while clocked in, Day Complete once a
      clock-out time is set, Not Clocked In otherwise. */
  function StatusLabelFor(today: Option<AttendanceRecord>): (l: StatusLabel)
    ensures l == Working <==> IsClockedIn(today)
    ensures l == DayComplete <==> !IsClockedIn(today) && today.Some? && IsSet(today.value.clockOutTime)
    ensures l == NotClockedIn <==> !IsClockedIn(today) && !(today.Some? && IsSet(today.value.clockOutTime))
  {
    if IsClockedIn(today) then Working
    else if today.Some? && IsSet(today.value.clockOutTime) then DayComplete
    else NotClockedIn
  }

  /** The clock-in/clock-out block is shown once a clock-in time is set. */
  predicate ShowsClockTimes(today: Option<AttendanceRecord>)
  {
    today.Some? && IsSet(today.value.clockInTime)
  }

  /** Inside that block, the clock-out cell is shown once a clock-out time is
      set. */
  predicate ShowsClockOutTime(today: Option<AttendanceRecord>)
  {
    ShowsClockTimes(today) && IsSet(today.value.clockOutTime)
  }

  /** The total-hours panel is shown when the hours are truthy: present, a
      number, and not zero. */
  predicate ShowsTotalHours(today: Option<AttendanceRecord>)
  {
    today.Some? && today.value.totalHours.Some? && today.value.totalHours.value.Hundredths?
    && today.value.totalHours.value.hundredths != 0
  }

  /** The slider is offered while there is a record and not both times are
      set. */
  predicate ShowsSlider(today: Option<AttendanceRecord>)
  {
    today.Some? && (!IsSet(today.value.clockInTime) || !IsSet(today.value.clockOutTime))
  }

  /** The slider's `disabled` prop: both times set. */
  predicate SliderDisabled(today: Option<AttendanceRecord>)
  {
    today.Some? && IsSet(today.value.clockInTime) && IsSet(today.value.clockOutTime)
  }

  function SliderText(today: Option<AttendanceRecord>): string
  {
    if IsClockedIn(today) then "Slide to Clock Out" else "Slide to Clock In"
  }

  function SliderCompleteText(today: Option<AttendanceRecord>): string
  {
    if IsClockedIn(today) then "Clocked Out!" else "Clocked In!"
  }

  /** Whenever the slider is shown it is enabled, and it is shown exactly
      when a record exists and is not disabled; a shown slider names the
      action it will perform. */
  lemma ShownSliderIsEnabled(today: Option<AttendanceRecord>)
    ensures ShowsSlider(today) <==> today.Some? && !SliderDisabled(today)
    ensures ShowsSlider(today) && SlideCompleteAction(today) == ClockOutAction ==> SliderText(today) == "Slide to Clock Out"
    ensures ShowsSlider(today) && SlideCompleteAction(today) == ClockInAction ==> SliderText(today) == "Slide to Clock In"
  {
  }

  /** Rounded hours are zero exactly when no minutes were worked. */
  lemma RoundsToZeroIffNoMinutes(minutes: int)
    ensures RoundHundredths(minutes) == 0 <==> minutes == 0
  {
    var h := RoundHundredths(minutes);
    if h == 0 {
      assert 10 * minutes < 3 && 10 * minutes > -3;
    }
  }

  /** The card over one day, starting from an empty record: first it offers
      a clock-in and says Not Clocked In; after the clock-in it says Working,
      shows the clock-in time and offers a clock-out; after the clock-out it
      says Day Complete, shows both times, offers nothing more, and shows the
      hours unless both times fall in the same minute. */
  lemma CardThroughTheDay(r: AttendanceRecord, inHour: nat, inMinute: nat, outHour: nat, outMinute: nat)
    requires IsSkeleton(r)
    requires inHour < 24 && inMinute < 60 && outHour < 24 && outMinute < 60
    ensures var t := Some(r);
            && StatusLabelFor(t) == NotClockedIn && ShowsSlider(t)
            && SlideCompleteAction(t) == ClockInAction && SliderText(t) == "Slide to Clock In"
            && !ShowsClockTimes(t) && !ShowsTotalHours(t)
    ensures var t := Some(AfterSlide(r, FormatClock(inHour, inMinute)));
            && StatusLabelFor(t) == Working && ShowsSlider(t)
            && SlideCompleteAction(t) == ClockOutAction && SliderText(t) == "Slide to Clock Out"
            && ShowsClockTimes(t) && !ShowsClockOutTime(t) && !ShowsTotalHours(t)
    ensures var t := Some(AfterSlide(AfterSlide(r, FormatClock(inHour, inMinute)), FormatClock(outHour, outMinute)));
            && StatusLabelFor(t) == DayComplete && !ShowsSlider(t) && SliderDisabled(t)
            && ShowsClockOutTime(t)
            && (ShowsTotalHours(t) <==> 60 * outHour + outMinute != 60 * inHour + inMinute)
  {
    ClockInThenOutFromSkeleton(r, inHour, inMinute, outHour, outMinute);
    RoundsToZeroIffNoMinutes((60 * outHour + outMinute) - (60 * inHour + inMinute));
  }

  /** `handleSlideComplete` on the context at wall-clock time hour:minute:
      clocks out when clocked in and clocks in otherwise. The card only
      renders the slider, and so only calls this, while the slider is
      shown. */
  method HandleSlideComplete(ctx: AttendanceContext, hour: nat, minute: nat)
    requires ctx.Valid() && ShowsSlider(ctx.todayRecord) && hour < 24 && minute < 60
    modifies ctx`todayRecord
    ensures ctx.Valid() && ctx.user.Some?
    ensures ctx.todayRecord == Some(AfterSlide(old(ctx.todayRecord).value, FormatClock(hour, minute)))
  {
    if IsClockedIn(ctx.todayRecord) {
      ctx.ClockOut(hour, minute);
    } else {
      ctx.ClockIn(hour, minute);
    }
  }

  /** The card for the signed-in user: the context it reads and the slider
      instance it renders. React keeps one slider instance, and its state,
      for as long as the card goes on rendering a slider in the same
      place. */
  class ClockCardView {
    const ctx: AttendanceContext
    var slider: SlideToAction

    ghost predicate Valid()
      reads this, ctx, slider
    {
      ctx.Valid() && slider.Valid()
    }

    constructor (ctx: AttendanceContext)
      requires ctx.Valid()
      ensures Valid() && this.ctx == ctx && fresh(slider)
      ensures !slider.sliding && slider.position == 0.0 && !slider.completed
    {
      this.ctx := ctx;
      slider := new SlideToAction();
    }

    /** The slider's track text in the current render: the slider's own
        `completed ? completeText : text`, given the card's two texts for
        the current record. */
    function TrackText(): string
      reads this, ctx, slider
    {
      slider.TrackText(SliderText(ctx.todayRecord), SliderCompleteText(ctx.todayRecord))
    }

    /** Releasing the thumb on the card as written: the slider handles the
        release and, when it fires, the context clocks in or out; the same
        slider instance stays in place. */
    method Release(g: Geometry, hour: nat, minute: nat) returns (fired: bool)
      requires Valid() && ShowsSlider(ctx.todayRecord) && hour < 24 && minute < 60
      modifies ctx`todayRecord, slider`sliding, slider`position, slider`completed, slider`completions
      ensures Valid() && slider == old(slider)
      ensures fired <==> !old(slider.completed) && PastThreshold(old(slider.position), MaxPosition(g))
      ensures slider.completed <==> old(slider.completed) || fired
      ensures !old(slider.completed) ==>
                !slider.sliding && slider.position == (if fired then MaxPosition(g) else 0.0)
      ensures old(slider.completed) ==>
                slider.sliding == old(slider.sliding) && slider.position == old(slider.position)
      ensures fired ==> ctx.todayRecord == Some(AfterSlide(old(ctx.todayRecord).value, FormatClock(hour, minute)))
      ensures !fired ==> ctx.todayRecord == old(ctx.todayRecord)
    {
      fired := slider.HandleTouchEnd(SliderDisabled(ctx.todayRecord), Some(g));
      if fired {
        HandleSlideComplete(ctx, hour, minute);
      }
    }

    /** Releasing the thumb on the corrected card, whose slider is keyed on
        `isClockedIn`: when the release changes whether the user is clocked
        in, the next render mounts a new slider in its first state. */
    method ReleaseKeyed(g: Geometry, hour: nat, minute: nat) returns (fired: bool)
      requires Valid() && ShowsSlider(ctx.todayRecord) && hour < 24 && minute < 60
      modifies this`slider, ctx`todayRecord, slider`sliding, slider`position, slider`completed, slider`completions
      ensures Valid()
      ensures fired <==> !old(slider.completed) && PastThreshold(old(slider.position), MaxPosition(g))
      ensures fired ==> ctx.todayRecord == Some(AfterSlide(old(ctx.todayRecord).value, FormatClock(hour, minute)))
      ensures !fired ==> ctx.todayRecord == old(ctx.todayRecord)
      ensures IsClockedIn(ctx.todayRecord) != IsClockedIn(old(ctx.todayRecord)) ==>
                fresh(slider) && !slider.sliding && slider.position == 0.0 && !slider.completed
      ensures IsClockedIn(ctx.todayRecord) == IsClockedIn(old(ctx.todayRecord)) ==>
                && slider == old(slider)
                && (slider.completed <==> old(slider.completed) || fired)
                && (!old(slider.completed) ==>
                      !slider.sliding && slider.position == (if fired then MaxPosition(g) else 0.0))
                && (old(slider.completed) ==>
                      slider.sliding == old(slider.sliding) && slider.position == old(slider.position))
    {
      var wasClockedIn := IsClockedIn(ctx.todayRecord);
      fired := Release(g, hour, minute);
      if IsClockedIn(ctx.todayRecord) != wasClockedIn {
        slider := new SlideToAction();
      }
    }
  }

  /** As written: a slide that clocks the user in leaves the slider shown and
      completed, so its track reads "Clocked Out!" while the user is still
      clocked in, and no later gestures on it clock the user out. */
  method StuckAfterClockIn(card: ClockCardView, g: Geometry, hour: nat, minute: nat, later: seq<Event>)
    returns (laterFires: nat)
    requires card.Valid() && hour < 24 && minute < 60
    requires card.ctx.todayRecord.Some? && IsSkeleton(card.ctx.todayRecord.value)
    requires !card.slider.completed && PastThreshold(card.slider.position, MaxPosition(g))
    modifies card.ctx`todayRecord, card.slider
    ensures card.Valid()
    ensures IsClockedIn(card.ctx.todayRecord) && ShowsSlider(card.ctx.todayRecord)
    ensures StatusLabelFor(card.ctx.todayRecord) == Working
    ensures card.TrackText() == "Clocked Out!"
    ensures laterFires == 0
  {
    var fired := card.Release(g, hour, minute);
    laterFires := card.slider.Run(later);
  }

  /** Corrected: after the slide that clocks the user in, a new slider offers
      the clock-out, and dragging it to the end and releasing clocks the user
      out. */
  method ClockOutAfterClockInKeyed(card: ClockCardView, g: Geometry, clientX: real,
                                   inHour: nat, inMinute: nat, outHour: nat, outMinute: nat)
    requires card.Valid() && inHour < 24 && inMinute < 60 && outHour < 24 && outMinute < 60
    requires card.ctx.todayRecord.Some? && IsSkeleton(card.ctx.todayRecord.value)
    requires !card.slider.completed && PastThreshold(card.slider.position, MaxPosition(g))
    requires MaxPosition(g) > 0.0 && clientX >= g.containerLeft + g.containerWidth - g.thumbWidth / 2.0
    modifies card, card.ctx`todayRecord, card.slider
    ensures card.Valid()
    ensures card.ctx.todayRecord.Some?
    ensures var r := card.ctx.todayRecord.value;
            && !IsClockedIn(card.ctx.todayRecord)
            && r.clockInTime == Some(FormatClock(inHour, inMinute))
            && r.clockOutTime == Some(FormatClock(outHour, outMinute))
            && StatusLabelFor(card.ctx.todayRecord) == DayComplete
  {
    var r := card.ctx.todayRecord.value;
    ClockInThenOutFromSkeleton(r, inHour, inMinute, outHour, outMinute);
    var fired := card.ReleaseKeyed(g, inHour, inMinute);
    assert IsClockedIn(card.ctx.todayRecord);
    card.slider.HandleTouchStart(SliderDisabled(card.ctx.todayRecord));
    card.slider.HandleTouchMove(SliderDisabled(card.ctx.todayRecord), Some(g), clientX);
    ThresholdOfDrag(g, clientX);
    fired := card.ReleaseKeyed(g, outHour, outMinute);
  }
}
