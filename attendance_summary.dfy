/** The figures at the top of the attendance summary: the number of days,
    the days per status, the hours worked and the average hours over the
    days that have hours. */
module Summary {
  import opened Nullable
  import opened Attendance

  /** `records.reduce((sum, r) => sum + w(r), 0)`: the weights of the
      records added up from the first to the last. */
  function SumOf(records: seq<AttendanceRecord>, w: AttendanceRecord -> int): int
  {
    if records == [] then 0
    else SumOf(records[..|records| - 1], w) + w(records[|records| - 1])
  }

  lemma {:induction false} SumOfAppend(s: seq<AttendanceRecord>, t: seq<AttendanceRecord>, w: AttendanceRecord -> int)
    ensures SumOf(s + t, w) == SumOf(s, w) + SumOf(t, w)
  {
    if t == [] {
      assert s + t == s;
    } else {
      var st := s + t;
      assert st[..|st| - 1] == s + t[..|t| - 1];
      assert st[|st| - 1] == t[|t| - 1];
      SumOfAppend(s, t[..|t| - 1], w);
    }
  }

  /** Taking one record out of a list takes its weight out of the sum. */
  lemma SumOfRemove(s: seq<AttendanceRecord>, k: nat, w: AttendanceRecord -> int)
    requires k < |s|
    ensures SumOf(s, w) == SumOf(s[..k] + s[k + 1..], w) + w(s[k])
  {
    assert s == s[..k] + [s[k]] + s[k + 1..];
    SumOfAppend(s[..k] + [s[k]], s[k + 1..], w);
    SumOfAppend(s[..k], [s[k]], w);
    SumOfAppend(s[..k], s[k + 1..], w);
    assert SumOf([s[k]], w) == w(s[k]) by {
      assert [s[k]][..0] == [];
    }
  }

  /** The sum depends on which records there are, not on their order. */
  lemma {:induction false} SumOfPermutation(a: seq<AttendanceRecord>, b: seq<AttendanceRecord>, w: AttendanceRecord -> int)
    requires multiset(a) == multiset(b)
    ensures SumOf(a, w) == SumOf(b, w)
    decreases |a|
  {
    if a != [] {
      var n := |a| - 1;
      var x := a[n];
      assert a == a[..n] + [x];
      assert x in multiset(b);
      var k :| 0 <= k < |b| && b[k] == x;
      var b' := b[..k] + b[k + 1..];
      assert b == b[..k] + [x] + b[k + 1..];
      assert multiset(b') == multiset(b) - multiset{x};
      assert multiset(a[..n]) == multiset(a) - multiset{x};
      SumOfPermutation(a[..n], b', w);
      SumOfRemove(b, k, w);
    }
  }

  function PresentWeight(r: AttendanceRecord): int { if r.status == Some(Present) then 1 else 0 }

  function HalfDayWeight(r: AttendanceRecord): int { if r.status == Some(HalfDay) then 1 else 0 }

  function AbsentWeight(r: AttendanceRecord): int { if r.status == Some(Absent) then 1 else 0 }

  /** `record.totalHours || 0`, in hundredths of an hour: null and NaN count
      as nothing. */
  function HoursWeight(r: AttendanceRecord): int
  {
    match r.totalHours
    case Some(Hundredths(h)) => h
    case _ => 0
  }

  /** JavaScript truthiness of `totalHours`: present, a number and not 0. */
  predicate HasHours(r: AttendanceRecord)
  {
    r.totalHours.Some? && r.totalHours.value.Hundredths? && r.totalHours.value.hundredths != 0
  }

  function HasHoursWeight(r: AttendanceRecord): int { if HasHours(r) then 1 else 0 }

  /** Every record falls under at most one status, so the three status
      counts together never exceed the number of records. */
  lemma {:induction false} StatusCountsBounded(records: seq<AttendanceRecord>)
    ensures 0 <= SumOf(records, PresentWeight)
    ensures 0 <= SumOf(records, HalfDayWeight)
    ensures 0 <= SumOf(records, AbsentWeight)
    ensures SumOf(records, PresentWeight) + SumOf(records, HalfDayWeight) + SumOf(records, AbsentWeight)
            <= |records|
  {
    if records != [] {
      StatusCountsBounded(records[..|records| - 1]);
    }
  }

  /** A record that counts among the days with hours has a non-zero hours
      value, and one that does not adds nothing to the hours. */
  lemma {:induction false} DaysWithHoursBounded(records: seq<AttendanceRecord>)
    ensures 0 <= SumOf(records, HasHoursWeight) <= |records|
    ensures SumOf(records, HasHoursWeight) == 0 ==> SumOf(records, HoursWeight) == 0
  {
    if records != [] {
      DaysWithHoursBounded(records[..|records| - 1]);
    }
  }

  /** The summary card figures. Hours are kept in hundredths, the unit the
      clock-out stores them in; the average is in hours. */
  datatype Figures = Figures(
    totalRecords: nat,
    presentDays: nat,
    halfDays: nat,
    absentDays: nat,
    totalHundredths: int,
    daysWithHours: nat,
    averageHours: real)

  /** The summary of `records`: the counts by filter, the hours by reduce,
      and the average over the days that have hours, 0 when there are
      none. */
  function Summarize(records: seq<AttendanceRecord>): (f: Figures)
    ensures f.totalRecords == |records|
    ensures f.presentDays + f.halfDays + f.absentDays <= f.totalRecords
    ensures f.daysWithHours <= f.totalRecords
    ensures f.daysWithHours == 0 ==> f.totalHundredths == 0 && f.averageHours == 0.0
    ensures f.daysWithHours > 0 ==>
              f.averageHours * (f.daysWithHours as real) == (f.totalHundredths as real) / 100.0
  {
    StatusCountsBounded(records);
    DaysWithHoursBounded(records);
    var total := SumOf(records, HoursWeight);
    var days := SumOf(records, HasHoursWeight);
    Figures(
      |records|,
      SumOf(records, PresentWeight),
      SumOf(records, HalfDayWeight),
      SumOf(records, AbsentWeight),
      total,
      days,
      if days > 0 then (total as real) / 100.0 / (days as real) else 0.0)
  }

  /** With no records every figure is zero. */
  lemma SummaryOfNothing()
    ensures Summarize([]) == Figures(0, 0, 0, 0, 0, 0, 0.0)
  {
  }

  /** The summary is the same whatever order the records come in. */
  lemma SummaryIgnoresOrder(a: seq<AttendanceRecord>, b: seq<AttendanceRecord>)
    requires multiset(a) == multiset(b)
    ensures Summarize(a) == Summarize(b)
  {
    assert |a| == |multiset(a)| == |multiset(b)| == |b|;
    SumOfPermutation(a, b, PresentWeight);
    SumOfPermutation(a, b, HalfDayWeight);
    SumOfPermutation(a, b, AbsentWeight);
    SumOfPermutation(a, b, HoursWeight);
    SumOfPermutation(a, b, HasHoursWeight);
  }

  /** A record whose hours are missing, NaN or zero changes neither the
      hours nor the number of days the average is taken over; it still
      counts as a day and, by its status, in one status count. */
  lemma RecordWithoutHoursIgnoredByAverage(records: seq<AttendanceRecord>, r: AttendanceRecord)
    requires !HasHours(r)
    ensures var before := Summarize(records);
            var after := Summarize(records + [r]);
            && after.totalHundredths == before.totalHundredths
            && after.daysWithHours == before.daysWithHours
            && after.averageHours == before.averageHours
            && after.totalRecords == before.totalRecords + 1
            && after.presentDays == before.presentDays + (if r.status == Some(Present) then 1 else 0)
            && after.halfDays == before.halfDays + (if r.status == Some(HalfDay) then 1 else 0)
            && after.absentDays == before.absentDays + (if r.status == Some(Absent) then 1 else 0)
  {
    var s := records + [r];
    assert s[..|s| - 1] == records;
  }

  /** A record with hours adds them to the total and one day to the
      divisor; it counts as a day and, by its status, in one status count. */
  lemma RecordWithHoursCounted(records: seq<AttendanceRecord>, r: AttendanceRecord)
    requires HasHours(r)
    ensures var before := Summarize(records);
            var after := Summarize(records + [r]);
            && after.totalHundredths == before.totalHundredths + r.totalHours.value.hundredths
            && after.daysWithHours == before.daysWithHours + 1
            && after.totalRecords == before.totalRecords + 1
            && after.presentDays == before.presentDays + (if r.status == Some(Present) then 1 else 0)
            && after.halfDays == before.halfDays + (if r.status == Some(HalfDay) then 1 else 0)
            && after.absentDays == before.absentDays + (if r.status == Some(Absent) then 1 else 0)
  {
    var s := records + [r];
    assert s[..|s| - 1] == records;
  }

  lemma SumOfThree(a: AttendanceRecord, b: AttendanceRecord, c: AttendanceRecord, w: AttendanceRecord -> int)
    ensures SumOf([a, b, c], w) == w(a) + w(b) + w(c)
  {
    assert [a, b, c][..2] == [a, b];
    assert [a, b][..1] == [a];
    assert [a][..0] == [];
    assert SumOf([a], w) == w(a);
    assert SumOf([a, b], w) == w(a) + w(b);
  }

  /** A day of 4.50 hours and a day of 2.50 hours: 7.00 hours over two days,
      3.50 on average; an absent day without hours does not lower it. */
  lemma SummaryExample(a: AttendanceRecord, b: AttendanceRecord, c: AttendanceRecord)
    requires a.status == Some(Present) && a.totalHours == Some(Hundredths(450))
    requires b.status == Some(HalfDay) && b.totalHours == Some(Hundredths(250))
    requires c.status == Some(Absent) && c.totalHours.None?
    ensures Summarize([a, b, c]) == Figures(3, 1, 1, 1, 700, 2, 3.5)
  {
    SumOfThree(a, b, c, HoursWeight);
    SumOfThree(a, b, c, HasHoursWeight);
    SumOfThree(a, b, c, PresentWeight);
    SumOfThree(a, b, c, HalfDayWeight);
    SumOfThree(a, b, c, AbsentWeight);
  }
}
