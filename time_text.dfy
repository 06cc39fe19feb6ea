/** The text form of wall-clock times used by the attendance screens:
    `n.toString().padStart(2, '0')` for each part, `${hours}:${minutes}` for
    the whole, and the reverse `text.split(':').map(Number)` used when the
    hours worked are computed. */
module TimeText {
  import opened Nullable

  predicate IsDigit(c: char) { '0' <= c <= '9' }

  predicate AllDigits(s: string) { forall i :: 0 <= i < |s| ==> IsDigit(s[i]) }

  function DigitValue(c: char): nat
    requires IsDigit(c)
  {
    c as int - '0' as int
  }

  function DigitChar(d: nat): (c: char)
    requires d < 10
    ensures IsDigit(c) && DigitValue(c) == d
  {
    ('0' as int + d) as char
  }

  /** `n.toString()` for a non-negative integer: its decimal digits, most
      significant first, without leading zeros. */
  function DecimalString(n: nat): (s: string)
    ensures 1 <= |s| && AllDigits(s)
    ensures |s| == 1 <==> n < 10
    ensures |s| > 1 ==> s[0] != '0'
  {
    if n < 10 then [DigitChar(n)] else DecimalString(n / 10) + [DigitChar(n % 10)]
  }

  /** `Number(s)` on digit strings: the empty string is 0, a run of decimal
      digits is its value (leading zeros allowed), and any other string is
      NaN, written None. */
  function NumberOf(s: string): (v: Option<nat>)
    ensures v.Some? <==> AllDigits(s)
  {
    if s == [] then Some(0)
    else
      var last := s[|s| - 1];
      match NumberOf(s[..|s| - 1])
      case Some(p) => if IsDigit(last) then Some(10 * p + DigitValue(last)) else None
      case None => None
  }

  /** `Number(n.toString()) == n` for every non-negative integer. */
  lemma {:induction false} NumberOfDecimalString(n: nat)
    ensures NumberOf(DecimalString(n)) == Some(n)
  {
    if n >= 10 {
      var s := DecimalString(n);
      assert s[..|s| - 1] == DecimalString(n / 10);
      NumberOfDecimalString(n / 10);
    }
  }

  /** `s.padStart(2, '0')` */
  function PadStart2(s: string): string
  {
    if |s| == 0 then "00" else if |s| == 1 then ['0'] + s else s
  }

  /** Padding puts zeros in front up to length two and changes nothing
      else. */
  lemma PadStart2Meaning(s: string)
    ensures var r := PadStart2(s);
            && |r| == (if |s| < 2 then 2 else |s|)
            && r[|r| - |s|..] == s
            && forall i :: 0 <= i < |r| - |s| ==> r[i] == '0'
  {
  }

  /** The two-digit text of a number below 100: tens digit, then units. */
  lemma TwoDigitText(n: nat)
    requires n < 100
    ensures PadStart2(DecimalString(n)) == [DigitChar(n / 10), DigitChar(n % 10)]
  {
    if n < 10 {
      assert DigitChar(0) == '0';
    } else {
      assert DecimalString(n / 10) == [DigitChar(n / 10)];
    }
  }

  /** `Number` reads two digits back as their value. */
  lemma NumberOfTwoDigits(n: nat)
    requires n < 100
    ensures NumberOf([DigitChar(n / 10), DigitChar(n % 10)]) == Some(n)
  {
    var s := [DigitChar(n / 10), DigitChar(n % 10)];
    var p := s[..1];
    assert p[..0] == [];
    assert NumberOf(p) == Some(DigitValue(s[0]));
    assert NumberOf(s) == Some(10 * (n / 10) + n % 10);
  }

  /** `s.split(sep)` for a one-character separator: the pieces between the
      separators, in order; a string without the separator is one piece. */
  function Split(s: string, sep: char): (parts: seq<string>)
    ensures |parts| >= 1
  {
    if s == [] then [[]]
    else
      var rest := Split(s[1..], sep);
      if s[0] == sep then [[]] + rest
      else [[s[0]] + rest[0]] + rest[1..]
  }

  /** `parts.join(sep)`: the pieces with one separator between neighbours. */
  function Join(parts: seq<string>, sep: char): string
  {
    if parts == [] then []
    else if |parts| == 1 then parts[0]
    else parts[0] + [sep] + Join(parts[1..], sep)
  }

  /** Splitting loses nothing: joining the pieces gives the text back. */
  lemma {:induction false} JoinSplit(s: string, sep: char)
    ensures Join(Split(s, sep), sep) == s
  {
    if s != [] {
      var rest := Split(s[1..], sep);
      JoinSplit(s[1..], sep);
      if s[0] != sep && |rest| > 1 {
        var parts := Split(s, sep);
        assert parts[1..] == rest[1..];
        assert Join(rest, sep) == rest[0] + [sep] + Join(rest[1..], sep);
      }
    }
  }

  lemma {:induction false} SplitWithoutSeparator(a: string, sep: char)
    requires sep !in a
    ensures Split(a, sep) == [a]
  {
    if a != [] {
      SplitWithoutSeparator(a[1..], sep);
      assert [a[0]] + a[1..] == a;
    }
  }

  lemma {:induction false} SplitAtSeparator(a: string, sep: char, b: string)
    requires sep !in a
    ensures Split(a + [sep] + b, sep) == [a] + Split(b, sep)
  {
    if a == [] {
      assert a + [sep] + b == [sep] + b;
      assert ([sep] + b)[1..] == b;
    } else {
      var s := a + [sep] + b;
      assert s[0] == a[0] && s[1..] == a[1..] + [sep] + b;
      SplitAtSeparator(a[1..], sep, b);
      var rest := Split(s[1..], sep);
      assert rest == [a[1..]] + Split(b, sep);
      assert [a[0]] + a[1..] == a;
      assert Split(s, sep) == [[a[0]] + rest[0]] + rest[1..];
    }
  }

  /** The `${hours}:${minutes}` text of a wall-clock time, each part padded
      to two digits. */
  function FormatClock(hour: nat, minute: nat): (t: string)
    requires hour < 24 && minute < 60
    ensures |t| == 5
  {
    TwoDigitText(hour);
    TwoDigitText(minute);
    PadStart2(DecimalString(hour)) + ":" + PadStart2(DecimalString(minute))
  }

  /** The formatted time is the tens and units of the hour, a colon, and the
      tens and units of the minute. */
  lemma FormatClockDigits(hour: nat, minute: nat)
    requires hour < 24 && minute < 60
    ensures FormatClock(hour, minute) == [DigitChar(hour / 10), DigitChar(hour % 10), ':',
                                          DigitChar(minute / 10), DigitChar(minute % 10)]
  {
    TwoDigitText(hour);
    TwoDigitText(minute);
  }

  /** 08:00, 12:30, 09:00 and 11:30 as the clock shows them. */
  lemma FormatClockExamples()
    ensures FormatClock(8, 0) == "08:00" && FormatClock(12, 30) == "12:30"
    ensures FormatClock(9, 0) == "09:00" && FormatClock(11, 30) == "11:30"
  {
    FormatClockDigits(8, 0);
    FormatClockDigits(12, 30);
    FormatClockDigits(9, 0);
    FormatClockDigits(11, 30);
  }

  /** `t.split(':').map(Number)` followed by `parts[0] * 60 + parts[1]`:
      minutes after midnight, or None (NaN) when there is no second part or
      either of the first two parts is not a number. */
  function ParseClock(t: string): Option<int>
  {
    var parts := Split(t, ':');
    if |parts| < 2 then None
    else
      var h := NumberOf(parts[0]);
      var m := NumberOf(parts[1]);
      if h.Some? && m.Some? then Some(60 * h.value + m.value) else None
  }

  /** A time text that splits into two runs of digits reads as hours and
      minutes. */
  lemma ParseClockOfParts(t: string, a: string, b: string)
    requires Split(t, ':') == [a, b]
    requires AllDigits(a) && AllDigits(b)
    ensures ParseClock(t) == Some(60 * NumberOf(a).value + NumberOf(b).value)
  {
  }

  /** Two runs of two digits around a colon split at the colon. */
  lemma SplitClockText(hh: string, mm: string)
    requires |hh| == 2 && |mm| == 2 && AllDigits(hh) && AllDigits(mm)
    ensures Split(hh + [':'] + mm, ':') == [hh, mm]
  {
    assert ':' !in hh && ':' !in mm by {
      assert !IsDigit(':');
    }
    SplitAtSeparator(hh, ':', mm);
    SplitWithoutSeparator(mm, ':');
  }

  /** Two runs of two digits around a colon read as hours and minutes. */
  lemma ParseClockText(hh: string, mm: string)
    requires |hh| == 2 && |mm| == 2 && AllDigits(hh) && AllDigits(mm)
    ensures ParseClock(hh + [':'] + mm) == Some(60 * NumberOf(hh).value + NumberOf(mm).value)
  {
    SplitClockText(hh, mm);
    ParseClockOfParts(hh + [':'] + mm, hh, mm);
  }

  /** Reading back a formatted time gives its minutes after midnight. */
  lemma ParseFormatRoundTrip(hour: nat, minute: nat)
    requires hour < 24 && minute < 60
    ensures ParseClock(FormatClock(hour, minute)) == Some(60 * hour + minute)
  {
    var hh := [DigitChar(hour / 10), DigitChar(hour % 10)];
    var mm := [DigitChar(minute / 10), DigitChar(minute % 10)];
    FormatClockDigits(hour, minute);
    assert FormatClock(hour, minute) == hh + [':'] + mm;
    NumberOfTwoDigits(hour);
    NumberOfTwoDigits(minute);
    ParseClockText(hh, mm);
  }
}
