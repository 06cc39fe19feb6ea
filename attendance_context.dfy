/** The attendance context: the shape of a day's attendance record, the
    clock-in/clock-out state machine on today's record, and the loading of
    today's record and the attendance history from the record store. */
module Attendance {
  import opened Nullable
  import opened TimeText

  datatype Role = Employee | Admin

  /** The signed-in user, as the identity provider gives it. */
  datatype User = User(id: string, name: string, role: Role)

  datatype Status = Present | Absent | HalfDay

  /** A JavaScript number holding hours worked: a whole number of hundredths
      of an hour (the source rounds to two decimals), or NaN, which the
      clock-out arithmetic yields when the clock-in text is not a time. */
  datatype Hours = Hundredths(hundredths: int) | NotANumber

  /** One user's attendance on one calendar day. `date` is the day number
      (days after 1970-01-01), the value the source orders records by. */
  datatype AttendanceRecord = AttendanceRecord(
    id: string,
    userId: string,
    userName: string,
    date: int,
    clockInTime: Option<string>,
    clockOutTime: Option<string>,
    totalHours: Option<Hours>,
    status: Option<Status>,
    location: Option<string>)

  /** JavaScript truthiness of a nullable text: present and not empty. */
  predicate IsSet(t: Option<string>)
  {
    t.Some? && t.value != ""
  }

  /** `todayRecord?.clockInTime && !todayRecord?.clockOutTime` */
  predicate IsClockedIn(today: Option<AttendanceRecord>)
  {
    today.Some? && IsSet(today.value.clockInTime) && !IsSet(today.value.clockOutTime)
  }

  // ----- Hours worked, as clock-out computes them

  /** `Math.round(minutes / 60 * 100)`: the minutes as hundredths of an hour,
      rounded to the nearest whole hundredth. The exact value 10*minutes/6 is
      never halfway between two integers, so the nearest one is unique. */
  function RoundHundredths(minutes: int): (h: int)
    ensures 10 * minutes - 3 < 6 * h < 10 * minutes + 3
  {
    var n := 10 * minutes + 3;
    assert n == 6 * (n / 6) + n % 6 && 0 <= n % 6 < 6;
    n / 6
  }

  /** The rounding agrees with `Math.round(x)`, which is `floor(x + 0.5)`,
      applied to the exact value of `minutes / 60 * 100`. */
  lemma RoundHundredthsIsMathRound(minutes: int)
    ensures RoundHundredths(minutes) == ((minutes as real) / 60.0 * 100.0 + 0.5).Floor
  {
    var h := RoundHundredths(minutes);
    var x := (minutes as real) / 60.0 * 100.0 + 0.5;
    assert x == (10.0 * minutes as real + 3.0) / 6.0;
    assert h as real <= x < h as real + 1.0;
  }

  /** The hours between the clock-in text and the clock-out text as
      `clockOut` computes them; a missing clock-in counts as 00:00. */
  function ElapsedHours(clockInTime: Option<string>, clockOutTime: string): Hours
  {
    var inMinutes := if clockInTime.None? then Some(0) else ParseClock(clockInTime.value);
    var outMinutes := ParseClock(clockOutTime);
    if inMinutes.Some? && outMinutes.Some?
    then Hundredths(RoundHundredths(outMinutes.value - inMinutes.value))
    else NotANumber
  }

  /** `totalHours < 4 ? 'half-day' : 'present'`; NaN is not below 4. */
  function ClockOutStatus(hours: Hours): Status
  {
    if hours.Hundredths? && hours.hundredths < 400 then HalfDay else Present
  }

  /** Between two formatted wall-clock times, the hours worked are the
      difference in minutes rounded to hundredths of an hour; a missing
      clock-in is measured from midnight. */
  lemma ElapsedHoursOfClockTimes(inHour: nat, inMinute: nat, outHour: nat, outMinute: nat)
    requires inHour < 24 && inMinute < 60 && outHour < 24 && outMinute < 60
    ensures ElapsedHours(Some(FormatClock(inHour, inMinute)), FormatClock(outHour, outMinute))
            == Hundredths(RoundHundredths((60 * outHour + outMinute) - (60 * inHour + inMinute)))
    ensures ElapsedHours(None, FormatClock(outHour, outMinute))
            == Hundredths(RoundHundredths(60 * outHour + outMinute))
  {
    ParseFormatRoundTrip(inHour, inMinute);
    ParseFormatRoundTrip(outHour, outMinute);
  }

  /** A computed day is a half day exactly when under four hours (240
      minutes) were worked; 4.00 hours is a full day. */
  lemma HalfDayIffUnderFourHours(minutes: int)
    ensures ClockOutStatus(Hundredths(RoundHundredths(minutes))) == HalfDay <==> minutes < 240
  {
    var h := RoundHundredths(minutes);
    if minutes < 240 {
      assert 6 * h < 2403;
    } else {
      assert 6 * h > 2397;
    }
  }

  /** Clocking out before the clock-in time (nothing guards against it)
      gives negative hours and a half day. */
  lemma ClockOutBeforeClockInIsNegative(inHour: nat, inMinute: nat, outHour: nat, outMinute: nat)
    requires inHour < 24 && inMinute < 60 && outHour < 24 && outMinute < 60
    requires 60 * outHour + outMinute < 60 * inHour + inMinute
    ensures var hours := ElapsedHours(Some(FormatClock(inHour, inMinute)), FormatClock(outHour, outMinute));
            hours.Hundredths? && hours.hundredths < 0 && ClockOutStatus(hours) == HalfDay
  {
    ElapsedHoursOfClockTimes(inHour, inMinute, outHour, outMinute);
  }

  /** 08:00 to 12:30 is 4.50 hours, a full day. The times are parameters
      pinned by the requires rather than literals: with literal arguments
      the verifier unfolds the text functions on constants and the proof
      becomes slow and unstable. */
  lemma FullDayExample(inHour: nat, inMinute: nat, outHour: nat, outMinute: nat)
    requires inHour == 8 && inMinute == 0 && outHour == 12 && outMinute == 30
    ensures var hours := ElapsedHours(Some(FormatClock(inHour, inMinute)), FormatClock(outHour, outMinute));
            hours == Hundredths(450) && ClockOutStatus(hours) == Present
  {
    ElapsedHoursOfClockTimes(inHour, inMinute, outHour, outMinute);
    assert RoundHundredths(270) == 450;
  }

  /** 09:00 to 11:30 is 2.50 hours, a half day; the times are pinned
      parameters, as in `FullDayExample`. */
  lemma HalfDayExample(inHour: nat, inMinute: nat, outHour: nat, outMinute: nat)
    requires inHour == 9 && inMinute == 0 && outHour == 11 && outMinute == 30
    ensures var hours := ElapsedHours(Some(FormatClock(inHour, inMinute)), FormatClock(outHour, outMinute));
            hours == Hundredths(250) && ClockOutStatus(hours) == HalfDay
  {
    ElapsedHoursOfClockTimes(inHour, inMinute, outHour, outMinute);
    assert RoundHundredths(150) == 250;
  }

  /** Today's record after `clockIn` at `currentTime`: clocked in at that
      time, present, at the office; every other field as before. */
  function WithClockIn(r: AttendanceRecord, currentTime: string): (c: AttendanceRecord)
    ensures c.clockInTime == Some(currentTime) && c.status == Some(Present) && c.location == Some("Office")
    ensures c.(clockInTime := r.clockInTime, status := r.status, location := r.location) == r
    ensures currentTime != "" ==> (IsClockedIn(Some(c)) <==> !IsSet(r.clockOutTime))
  {
    r.(clockInTime := Some(currentTime), status := Some(Present), location := Some("Office"))
  }

  /** Today's record after `clockOut` at `currentTime`: clocked out at that
      time, with the hours since the clock-in and the status they give;
      every other field as before. */
  function WithClockOut(r: AttendanceRecord, currentTime: string): (c: AttendanceRecord)
    ensures c.clockOutTime == Some(currentTime)
    ensures c.totalHours == Some(ElapsedHours(r.clockInTime, currentTime))
    ensures c.status == Some(ClockOutStatus(ElapsedHours(r.clockInTime, currentTime)))
    ensures c.(clockOutTime := r.clockOutTime, totalHours := r.totalHours, status := r.status) == r
    ensures currentTime != "" ==> !IsClockedIn(Some(c))
  {
    var totalHours := ElapsedHours(r.clockInTime, currentTime);
    r.(clockOutTime := Some(currentTime), totalHours := Some(totalHours), status := Some(ClockOutStatus(totalHours)))
  }

  /** From an empty record, clocking in and then out: clocked in after the
      first step and not after the second; the finished record has both
      times, the rounded hours between them, the status those hours give,
      and the office location. */
  lemma ClockInThenOutFromSkeleton(r: AttendanceRecord, inHour: nat, inMinute: nat, outHour: nat, outMinute: nat)
    requires IsSkeleton(r)
    requires inHour < 24 && inMinute < 60 && outHour < 24 && outMinute < 60
    ensures !IsClockedIn(Some(r))
    ensures var c := WithClockIn(r, FormatClock(inHour, inMinute));
            IsClockedIn(Some(c))
    ensures var f := WithClockOut(WithClockIn(r, FormatClock(inHour, inMinute)), FormatClock(outHour, outMinute));
            var minutes := (60 * outHour + outMinute) - (60 * inHour + inMinute);
            && !IsClockedIn(Some(f))
            && f.clockInTime == Some(FormatClock(inHour, inMinute))
            && f.clockOutTime == Some(FormatClock(outHour, outMinute))
            && f.totalHours == Some(Hundredths(RoundHundredths(minutes)))
            && f.status == Some(if minutes < 240 then HalfDay else Present)
            && f.location == Some("Office")
  {
    var inTime := FormatClock(inHour, inMinute);
    var outTime := FormatClock(outHour, outMinute);
    assert |inTime| == 5 && |outTime| == 5;
    ElapsedHoursOfClockTimes(inHour, inMinute, outHour, outMinute);
    HalfDayIffUnderFourHours((60 * outHour + outMinute) - (60 * inHour + inMinute));
  }

  // ----- Loading from the record store

  predicate IsTodayOf(r: AttendanceRecord, userId: string, today: int)
  {
    r.userId == userId && r.date == today
  }

  /** The position `store.find(r => r.userId === userId && r.date === today)`
      stops at: the first stored record of that user for that day, or the
      length of the store when there is none. */
  function FindTodayIndex(store: seq<AttendanceRecord>, userId: string, today: int): (k: nat)
    ensures k <= |store|
    ensures k < |store| ==> IsTodayOf(store[k], userId, today)
    ensures forall j :: 0 <= j < k ==> !IsTodayOf(store[j], userId, today)
  {
    if store == [] then 0
    else if IsTodayOf(store[0], userId, today) then 0
    else 1 + FindTodayIndex(store[1..], userId, today)
  }

  /** The empty record created for a user with nothing stored for today. */
  function Skeleton(newId: string, user: User, today: int): AttendanceRecord
  {
    AttendanceRecord(newId, user.id, user.name, today, None, None, None, None, None)
  }

  predicate IsSkeleton(r: AttendanceRecord)
  {
    r.clockInTime.None? && r.clockOutTime.None? && r.totalHours.None? && r.status.None? && r.location.None?
  }

  /** `existingTodayRecord || { ...new empty record... }`: the user's stored
      record for today when there is one, otherwise an empty record for the
      user and the day. */
  function TodayRecordFor(store: seq<AttendanceRecord>, user: User, today: int, newId: string): (r: AttendanceRecord)
    ensures r.userId == user.id && r.date == today
  {
    var k := FindTodayIndex(store, user.id, today);
    if k < |store| then store[k] else Skeleton(newId, user, today)
  }

  /** Today's record is the first stored record of the user for the day
      when there is one, and otherwise a new empty record with the given
      id. */
  lemma TodayRecordIsStoredOrNew(store: seq<AttendanceRecord>, user: User, today: int, newId: string)
    ensures var r := TodayRecordFor(store, user, today, newId);
            && ((exists s :: s in store && IsTodayOf(s, user.id, today)) ==>
                  exists k :: 0 <= k < |store| && r == store[k]
                              && forall j :: 0 <= j < k ==> !IsTodayOf(store[j], user.id, today))
            && ((forall s :: s in store ==> !IsTodayOf(s, user.id, today)) ==>
                  r == Skeleton(newId, user, today) && IsSkeleton(r))
  {
    var k := FindTodayIndex(store, user.id, today);
    if exists s :: s in store && IsTodayOf(s, user.id, today) {
      var s :| s in store && IsTodayOf(s, user.id, today);
      var i :| 0 <= i < |store| && store[i] == s;
      assert k < |store|;
    }
  }

  /** `store.filter(r => r.userId === userId && r.date !== today)`, in store
      order. */
  function UserHistory(store: seq<AttendanceRecord>, userId: string, today: int): seq<AttendanceRecord>
  {
    if store == [] then []
    else
      (if store[0].userId == userId && store[0].date != today then [store[0]] else [])
      + UserHistory(store[1..], userId, today)
  }

  /** The filter keeps exactly the user's records of other days, each as
      often as the store holds it. */
  lemma {:induction false} UserHistoryMembers(store: seq<AttendanceRecord>, userId: string, today: int)
    ensures var h := UserHistory(store, userId, today);
            && (forall r :: r in h <==> r in store && r.userId == userId && r.date != today)
            && (forall r :: multiset(h)[r] ==
                  if r.userId == userId && r.date != today then multiset(store)[r] else 0)
  {
    if store != [] {
      UserHistoryMembers(store[1..], userId, today);
      assert store == [store[0]] + store[1..];
    }
  }

  predicate NewestFirst(s: seq<AttendanceRecord>)
  {
    forall i, j :: 0 <= i < j < |s| ==> s[i].date >= s[j].date
  }

  /** A record no older than the head of a newest-first list can go in
      front of it. */
  lemma ConsNewestFirst(y: AttendanceRecord, t: seq<AttendanceRecord>)
    requires NewestFirst(t)
    requires t != [] ==> y.date >= t[0].date
    ensures NewestFirst([y] + t)
  {
    var r := [y] + t;
    forall i, j | 0 <= i < j < |r|
      ensures r[i].date >= r[j].date
    {
      if i == 0 {
        assert r[j] == t[j - 1];
        assert t[0].date >= t[j - 1].date;
      } else {
        assert r[i] == t[i - 1] && r[j] == t[j - 1];
      }
    }
  }

  /** Puts `x` in front of the first record that is not newer than it, so a
      record stays ahead of later records of the same day. */
  function InsertByDate(x: AttendanceRecord, s: seq<AttendanceRecord>): (r: seq<AttendanceRecord>)
    requires NewestFirst(s)
    ensures NewestFirst(r)
    ensures multiset(r) == multiset(s) + multiset{x}
    ensures r[0] == x || r[0] == s[0]
  {
    if s == [] || x.date >= s[0].date then
      ConsNewestFirst(x, s);
      [x] + s
    else
      var tail := s[1..];
      assert NewestFirst(tail) by {
        forall i, j | 0 <= i < j < |tail|
          ensures tail[i].date >= tail[j].date
        {
          assert tail[i] == s[i + 1] && tail[j] == s[j + 1];
        }
      }
      var rest := InsertByDate(x, tail);
      assert tail != [] ==> s[0].date >= tail[0].date by {
        if tail != [] {
          assert tail[0] == s[1];
        }
      }
      ConsNewestFirst(s[0], rest);
      assert s == [s[0]] + tail;
      [s[0]] + rest
  }

  /** `records.sort((a, b) => date(b) - date(a))`: newest first, and the same
      records as before. */
  function SortNewestFirst(s: seq<AttendanceRecord>): (r: seq<AttendanceRecord>)
    ensures NewestFirst(r)
    ensures multiset(r) == multiset(s)
  {
    if s == [] then []
    else
      assert s == [s[0]] + s[1..];
      InsertByDate(s[0], SortNewestFirst(s[1..]))
  }

  /** The history shown to a user: exactly that user's stored records of
      other days, newest first. */
  lemma HistoryIsUsersOtherDays(store: seq<AttendanceRecord>, userId: string, today: int)
    ensures var h := SortNewestFirst(UserHistory(store, userId, today));
            && NewestFirst(h)
            && (forall r :: r in h <==> r in store && r.userId == userId && r.date != today)
            && (forall r :: multiset(h)[r] ==
                  if r.userId == userId && r.date != today then multiset(store)[r] else 0)
  {
    var u := UserHistory(store, userId, today);
    var h := SortNewestFirst(u);
    UserHistoryMembers(store, userId, today);
    forall r
      ensures r in h <==> r in u
    {
      assert r in h <==> r in multiset(h);
    }
  }

  lemma HistoryBelongsToUser(store: seq<AttendanceRecord>, userId: string, today: int)
    ensures forall r :: r in SortNewestFirst(UserHistory(store, userId, today)) ==> r.userId == userId
  {
    HistoryIsUsersOtherDays(store, userId, today);
  }

  // ----- The context's state

  /** What holds of the provider's state between updates within one
      session, that is for one signed-in user or none: both lists are newest
      first; the all-records list is empty unless this session's user is an
      admin, and then it is the store itself; a session without a user has
      loaded nothing; whatever is loaded belongs to the user. Across sessions
      the provider keeps its lists, so the clauses about the user do not
      hold there. */
  ghost predicate ProviderInvariant(user: Option<User>, todayRecord: Option<AttendanceRecord>,
                                    history: seq<AttendanceRecord>, all: seq<AttendanceRecord>,
                                    store: seq<AttendanceRecord>)
  {
    && NewestFirst(history)
    && NewestFirst(all)
    && (all == [] || (user.Some? && user.value.role == Admin && all == store))
    && (user.None? ==> todayRecord.None? && history == [])
    && (user.Some? ==> forall r :: r in history ==> r.userId == user.value.id)
    && (user.Some? && todayRecord.Some? ==> todayRecord.value.userId == user.value.id)
  }

  /** Loading for a signed-in user keeps the invariant: today's record and
      the history are the user's, the history is newest first, and for an
      admin the sorted store becomes the all-records list. */
  lemma LoadKeepsInvariant(u: User, todayRecord: Option<AttendanceRecord>, history: seq<AttendanceRecord>,
                           all: seq<AttendanceRecord>, store: seq<AttendanceRecord>, today: int, newId: string)
    requires ProviderInvariant(Some(u), todayRecord, history, all, store)
    ensures var store' := if u.role == Admin then SortNewestFirst(store) else store;
            var all' := if u.role == Admin then store' else all;
            ProviderInvariant(Some(u), Some(TodayRecordFor(store, u, today, newId)),
                              SortNewestFirst(UserHistory(store, u.id, today)), all', store')
  {
    HistoryBelongsToUser(store, u.id, today);
  }

  class AttendanceContext {
    /** The signed-in user, or null. The model covers one session: a change
        of user is not modelled. */
    const user: Option<User>
    var todayRecord: Option<AttendanceRecord>
    var attendanceHistory: seq<AttendanceRecord>
    var allEmployeeRecords: seq<AttendanceRecord>
    var isLoading: bool
    /** The module-level array of stored records; the admin load sorts it in
        place and shares it as `allEmployeeRecords`. */
    var store: seq<AttendanceRecord>

    ghost predicate Valid()
      reads this
    {
      ProviderInvariant(user, todayRecord, attendanceHistory, allEmployeeRecords, store)
    }

    constructor (user: Option<User>, store: seq<AttendanceRecord>)
      ensures Valid()
      ensures this.user == user && this.store == store
      ensures todayRecord.None? && attendanceHistory == [] && allEmployeeRecords == [] && isLoading
    {
      this.user := user;
      this.store := store;
      todayRecord := None;
      attendanceHistory := [];
      allEmployeeRecords := [];
      isLoading := true;
    }

    /** The body of `loadAttendanceData` once its timer fires, on day
        `today`; `newId` stands for the random id of a new empty record. */
    method LoadAttendanceData(today: int, newId: string)
      requires Valid()
      modifies this`todayRecord, this`attendanceHistory, this`allEmployeeRecords, this`isLoading, this`store
      ensures Valid() && !isLoading
      ensures user.None? ==>
                todayRecord == old(todayRecord) && attendanceHistory == old(attendanceHistory)
                && allEmployeeRecords == old(allEmployeeRecords) && store == old(store)
      ensures user.Some? ==> todayRecord == Some(TodayRecordFor(old(store), user.value, today, newId))
      ensures user.Some? ==> attendanceHistory == SortNewestFirst(UserHistory(old(store), user.value.id, today))
      ensures user.Some? && user.value.role == Admin ==>
                store == SortNewestFirst(old(store)) && allEmployeeRecords == store
      ensures (user.None? || user.value.role != Admin) ==>
                store == old(store) && allEmployeeRecords == old(allEmployeeRecords)
    {
      isLoading := true;
      if user.Some? {
        LoadForUser(today, newId);
      }
      isLoading := false;
    }

    /** The part of the load that runs for a signed-in user. */
    method LoadForUser(today: int, newId: string)
      requires Valid() && user.Some?
      modifies this`todayRecord, this`attendanceHistory, this`allEmployeeRecords, this`store
      ensures Valid()
      ensures todayRecord == Some(TodayRecordFor(old(store), user.value, today, newId))
      ensures attendanceHistory == SortNewestFirst(UserHistory(old(store), user.value.id, today))
      ensures user.value.role == Admin ==> store == SortNewestFirst(old(store)) && allEmployeeRecords == store
      ensures user.value.role != Admin ==> store == old(store) && allEmployeeRecords == old(allEmployeeRecords)
    {
      var u := user.value;
      var records := store;
      LoadKeepsInvariant(u, todayRecord, attendanceHistory, allEmployeeRecords, records, today, newId);
      todayRecord := Some(TodayRecordFor(records, u, today, newId));
      attendanceHistory := SortNewestFirst(UserHistory(records, u.id, today));
      if u.role == Admin {
        SortStore();
      }
    }

    /** The admin part of the load: the stored records are sorted newest
        first in place, and the admin view shares the sorted array. */
    method SortStore()
      modifies this`store, this`allEmployeeRecords
      ensures store == SortNewestFirst(old(store)) && allEmployeeRecords == store
      ensures NewestFirst(store) && multiset(store) == multiset(old(store))
    {
      var sorted := SortNewestFirst(store);
      store := sorted;
      allEmployeeRecords := sorted;
    }

    /** `clockIn` at wall-clock time hour:minute. A signed-in user always has
        today's record here: the only caller offers the action once the
        record is loaded. */
    method ClockIn(hour: nat, minute: nat)
      requires Valid() && hour < 24 && minute < 60
      requires user.Some? ==> todayRecord.Some?
      modifies this`todayRecord
      ensures Valid()
      ensures user.None? ==> todayRecord == old(todayRecord)
      ensures user.Some? ==> todayRecord == Some(WithClockIn(old(todayRecord).value, FormatClock(hour, minute)))
    {
      if user.None? {
        return;
      }
      var currentTime := FormatClock(hour, minute);
      todayRecord := Some(WithClockIn(todayRecord.value, currentTime));
    }

    /** `clockOut` at wall-clock time hour:minute; nothing happens without a
        user or today's record. */
    method ClockOut(hour: nat, minute: nat)
      requires Valid() && hour < 24 && minute < 60
      modifies this`todayRecord
      ensures Valid()
      ensures user.None? || old(todayRecord).None? ==> todayRecord == old(todayRecord)
      ensures user.Some? && old(todayRecord).Some? ==>
                todayRecord == Some(WithClockOut(old(todayRecord).value, FormatClock(hour, minute)))
    {
      if user.None? || todayRecord.None? {
        return;
      }
      var currentTime := FormatClock(hour, minute);
      todayRecord := Some(WithClockOut(todayRecord.value, currentTime));
    }
  }
}
