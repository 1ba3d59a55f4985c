/** The year-month-day picker (src/components/DatePicker.jsx): zero padding,
    the length of a month as JavaScript's `Date` computes it, wheel stepping
    of one part, the clamp of the day after a change, the emitted date string
    and the popup's options. Parsing the `value` prop with `new Date` is
    locale and time-zone dependent and is not modelled: a picker starts from
    an already parsed year, month and day. */
module DatePicker {
  import opened Js

  /** `pad(n)`: `n.toString().padStart(2, '0')`. */
  function Pad(n: int): string {
    PadStart(IntToString(n), 2, '0')
  }

  /** One digit gets a leading zero; larger numbers are written as they are;
      the result always has at least two characters. */
  lemma PadSpec(n: int)
    ensures 0 <= n <= 9 ==> Pad(n) == ['0', Digit(n)]
    ensures n >= 10 ==> Pad(n) == NatToString(n)
    ensures |Pad(n)| >= 2
  {
    if n >= 0 {
      NatToStringLength(n);
    }
  }

  // ---------------------------------------------------------------------
  // Month lengths

  /** The Gregorian leap-year rule (proleptic, for every integer year). */
  predicate Leap(y: int) {
    (y % 4 == 0 && y % 100 != 0) || y % 400 == 0
  }

  /** The number of days of month `m` (1..12) of year `y` in the Gregorian calendar. */
  function MonthLength(y: int, m: int): int
    requires 1 <= m <= 12
  {
    if m == 2 then (if Leap(y) then 29 else 28)
    else if m == 4 || m == 6 || m == 9 || m == 11 then 30
    else 31
  }

  /** The `Date` constructor reads a year in 0..99 as 1900 plus that year. */
  function FullYear(y: int): int {
    if 0 <= y <= 99 then 1900 + y else y
  }

  /** `getDaysInMonth(year, month)`: `new Date(year, month, 0).getDate()`,
      day 0 of the month after `month`, that is the last day of month
      `month` counted from January of `year` (a month outside 1..12 moves
      into a neighbouring year, as `Date` does). */
  function DaysInMonth(year: int, month: int): (r: int)
    ensures 28 <= r <= 31
  {
    var serial := FullYear(year) * 12 + (month - 1);
    MonthLength(serial / 12, serial % 12 + 1)
  }

  /** For a month in 1..12 of a year outside 0..99 the result is the Gregorian
      month length, and February has 29 days exactly in leap years. */
  lemma DaysInMonthGregorian(year: int, month: int)
    requires 1 <= month <= 12
    requires year < 0 || year > 99
    ensures DaysInMonth(year, month) == MonthLength(year, month)
    ensures month == 2 ==> (DaysInMonth(year, month) == 29 <==> Leap(year))
    ensures month != 2 ==> DaysInMonth(year, month) >= 30
  {
    var serial := year * 12 + (month - 1);
    assert serial / 12 == year && serial % 12 == month - 1 by {
      assert serial == year * 12 + (month - 1) && 0 <= month - 1 < 12;
    }
  }

  /** A year in 0..99 takes the month lengths of year 1900 plus it, so that
      for example February of year 0, a leap year, has 28 days. */
  lemma DaysInMonthTwoDigitYear(year: int, month: int)
    requires 1 <= month <= 12 && 0 <= year <= 99
    ensures DaysInMonth(year, month) == MonthLength(1900 + year, month)
    ensures year == 0 ==> DaysInMonth(year, 2) == 28 && Leap(year)
  {
    var serial := (1900 + year) * 12 + (month - 1);
    assert serial / 12 == 1900 + year && serial % 12 == month - 1 by {
      assert serial == (1900 + year) * 12 + (month - 1) && 0 <= month - 1 < 12;
    }
    if year == 0 {
      var s2 := 1900 * 12 + 1;
      assert s2 / 12 == 1900 && s2 % 12 == 1;
      assert !Leap(1900);
    }
  }

  // ---------------------------------------------------------------------
  // Wheel stepping

  /** The date the picker holds. */
  datatype Ymd = Ymd(year: int, month: int, day: int)

  datatype Part = YearPart | MonthPart | DayPart

  /** Scrolling down (`deltaY > 0`) goes back one; anything else goes forward one. */
  function WheelStep(delta: real): (r: int)
    ensures r == -1 <==> delta > 0.0
    ensures r == 1 || r == -1
  {
    if delta > 0.0 then -1 else 1
  }

  /** The month after a step: `(month - 1 + step + 12) % 12 + 1`. */
  function StepMonth(month: int, step: int): int {
    Rem(month - 1 + step + 12, 12) + 1
  }

  /** The day after a step: `(day - 1 + step + dim) % dim + 1`. */
  function StepDay(day: int, step: int, dim: int): int
    requires dim > 0
  {
    Rem(day - 1 + step + dim, dim) + 1
  }

  /** The update `handleWheel(part, delta)` asks for. */
  function Wheeled(d: Ymd, part: Part, delta: real): Ymd {
    var step := WheelStep(delta);
    match part
    case YearPart => d.(year := d.year + step)
    case MonthPart => d.(month := StepMonth(d.month, step))
    case DayPart => d.(day := StepDay(d.day, step, DaysInMonth(d.year, d.month)))
  }

  /** A wheel event changes only the part it is over. */
  lemma WheeledChangesOnePart(d: Ymd, part: Part, delta: real)
    ensures part != YearPart ==> Wheeled(d, part, delta).year == d.year
    ensures part != MonthPart ==> Wheeled(d, part, delta).month == d.month
    ensures part != DayPart ==> Wheeled(d, part, delta).day == d.day
    ensures part == YearPart ==> Wheeled(d, part, delta).year == d.year + WheelStep(delta)
  {
  }

  /** Month stepping stays in 1..12, wraps 12 to 1 and 1 to 12, and a step
      forward followed by a step back returns to the month. */
  lemma StepMonthSpec(month: int, step: int)
    requires 1 <= month <= 12 && (step == 1 || step == -1)
    ensures 1 <= StepMonth(month, step) <= 12
    ensures StepMonth(month, step) == if month + step == 13 then 1 else if month + step == 0 then 12 else month + step
    ensures StepMonth(StepMonth(month, 1), -1) == month
  {
    RemShift(month - 1 + step, 12);
    RemShift(month, 12);
    RemShift(StepMonth(month, 1) - 2, 12);
  }

  /** Day stepping stays in 1..dim, wraps at both ends, and a step forward
      followed by a step back returns to the day. */
  lemma StepDaySpec(day: int, step: int, dim: int)
    requires dim > 0 && 1 <= day <= dim && (step == 1 || step == -1)
    ensures 1 <= StepDay(day, step, dim) <= dim
    ensures StepDay(day, step, dim) == if day + step > dim then 1 else if day + step < 1 then dim else day + step
    ensures StepDay(StepDay(day, 1, dim), -1, dim) == day
  {
    RemShift(day - 1 + step, dim);
    var f := StepDay(day, 1, dim);
    RemShift(day, dim);
    RemShift(f - 2, dim);
  }

  /** For `-1 <= x <= b`, `(x + b) % b` is `x` wrapped into 0..b-1. */
  lemma RemShift(x: int, b: int)
    requires b > 0 && -1 <= x <= b
    ensures Rem(x + b, b) == if x == b then 0 else if x == -1 then b - 1 else x
  {
    var a := x + b;
    if x == b {
      assert a / b == 2;
    } else if x >= 0 {
      assert a / b == 1;
    }
  }

  // ---------------------------------------------------------------------
  // The emitted string

  /** `${year}-${pad(month)}-${pad(day)}`. */
  function DateString(d: Ymd): string {
    IntToString(d.year) + "-" + Pad(d.month) + "-" + Pad(d.day)
  }

  /** For a four-digit year, month 1..12 and day 1..31 the string is ten
      characters in the form YYYY-MM-DD. */
  lemma DateStringSpec(d: Ymd)
    requires 1000 <= d.year <= 9999 && 1 <= d.month <= 12 && 1 <= d.day <= 31
    ensures var s := DateString(d);
            && |s| == 10 && s[4] == '-' && s[7] == '-'
            && s[..4] == NatToString(d.year) && s[5..7] == Pad(d.month) && s[8..] == Pad(d.day)
            && forall i :: 0 <= i < 10 && i != 4 && i != 7 ==> IsDigit(s[i])
  {
    NatToStringLength(d.year);
    PadDigits(d.month);
    PadDigits(d.day);
    var y := NatToString(d.year);
    var m := Pad(d.month);
    var dd := Pad(d.day);
    var s := DateString(d);
    assert s == y + "-" + m + "-" + dd;
    assert s[..4] == y;
    assert s[5..7] == m;
    assert s[8..] == dd;
    forall i | 0 <= i < 10 && i != 4 && i != 7 ensures IsDigit(s[i]) {
      if i < 4 { assert s[i] == y[i]; }
      else if i < 7 { assert s[i] == m[i - 5]; }
      else { assert s[i] == dd[i - 8]; }
    }
  }

  /** `pad` of 1..99 is two digits. */
  lemma PadDigits(n: int)
    requires 1 <= n <= 99
    ensures |Pad(n)| == 2 && IsDigit(Pad(n)[0]) && IsDigit(Pad(n)[1])
  {
    PadSpec(n);
    NatToStringLength(n);
  }

  // ---------------------------------------------------------------------
  // Popup options

  /** The year column: 200 years from 1900. */
  function YearOptions(): (r: seq<int>)
    ensures |r| == 200
    ensures forall i :: 0 <= i < |r| ==> r[i] == 1900 + i
  {
    seq(200, i => 1900 + i)
  }

  function MonthOptions(): (r: seq<int>)
    ensures |r| == 12
    ensures forall i :: 0 <= i < |r| ==> r[i] == i + 1
  {
    seq(12, i => i + 1)
  }

  function DayOptions(maxDays: nat): (r: seq<int>)
    ensures |r| == maxDays
    ensures forall i :: 0 <= i < |r| ==> r[i] == i + 1
  {
    seq(maxDays, i => i + 1)
  }

  /** The popup offers exactly the years 1900..2099, the months 1..12 and the days 1..maxDays. */
  lemma OptionsSpec(maxDays: nat, y: int, m: int, d: int)
    ensures y in YearOptions() <==> 1900 <= y <= 2099
    ensures m in MonthOptions() <==> 1 <= m <= 12
    ensures d in DayOptions(maxDays) <==> 1 <= d <= maxDays
  {
    if 1900 <= y <= 2099 { assert YearOptions()[y - 1900] == y; }
    if 1 <= m <= 12 { assert MonthOptions()[m - 1] == m; }
    if 1 <= d <= maxDays { assert DayOptions(maxDays)[d - 1] == d; }
  }

  // ---------------------------------------------------------------------
  // The component

  /** What the picker shows and has reported: the date, the day count of its
      month and every string passed to `onChange`, oldest first. */
  datatype Shown = Shown(date: Ymd, maxDays: int, emitted: seq<string>)

  /** `setDate(next)` and the effect runs that follow. Nothing runs when no
      part changed. Otherwise the effect refreshes `maxDays`, emits the string
      of `next` and, when the day is past the end of the month, clamps it,
      which changes the date and runs the effect a second time. */
  function Committed(s: Shown, next: Ymd): Shown {
    if next == s.date then s
    else
      var m := DaysInMonth(next.year, next.month);
      if next.day > m then Shown(next.(day := m), m, s.emitted + [DateString(next), DateString(next.(day := m))])
      else Shown(next, m, s.emitted + [DateString(next)])
  }

  /** After a change the day is at most the month's length, which `maxDays`
      holds; a day within it is kept; the first string emitted is the one of
      the unclamped date, followed by the clamped one when a clamp happened. */
  lemma CommittedSpec(s: Shown, next: Ymd)
    requires next != s.date
    ensures var r := Committed(s, next);
            && r.maxDays == DaysInMonth(r.date.year, r.date.month)
            && r.date.year == next.year && r.date.month == next.month
            && r.date.day <= r.maxDays
            && (next.day <= r.maxDays <==> r.date == next)
            && (next.day >= 1 ==> r.date.day >= 1)
            && |r.emitted| > |s.emitted| && r.emitted[..|s.emitted|] == s.emitted
            && r.emitted[|s.emitted|] == DateString(next)
            && r.emitted[|r.emitted| - 1] == DateString(r.date)
  {
  }

  /** Wheeling the day of a settled date keeps it settled: the day stays in
      1..maxDays, the month is unchanged, no clamp is needed and the one
      string emitted is the new date's. */
  lemma WheelDaySettled(s: Shown, delta: real)
    requires 1 <= s.date.day <= s.maxDays && s.maxDays == DaysInMonth(s.date.year, s.date.month)
    ensures var next := Wheeled(s.date, DayPart, delta);
            var r := Committed(s, next);
            && 1 <= r.date.day <= r.maxDays && r.maxDays == s.maxDays
            && r.date == next && r.emitted == s.emitted + [DateString(next)]
  {
    StepDaySpec(s.date.day, WheelStep(delta), s.maxDays);
  }

  class Picker {
    var date: Ymd
    var maxDays: int
    var popupOpen: bool
    /** Every string passed to `onChange`, oldest first. */
    var emitted: seq<string>

    /** The state a picker settles in after mounting on a parsed date: the
        mount effect ran, once or, when it had to clamp, twice. */
    constructor (initial: Ymd)
      ensures popupOpen == false
      ensures maxDays == DaysInMonth(initial.year, initial.month)
      ensures date == initial.(day := if initial.day > maxDays then maxDays else initial.day)
      ensures emitted == [DateString(initial)] + (if initial.day > maxDays then [DateString(date)] else [])
    {
      date := initial;
      maxDays := DaysInMonth(initial.year, initial.month);
      popupOpen := false;
      emitted := [];
      new;
      var clamped := Effect();
      if clamped {
        clamped := Effect();
      }
    }

    /** One run of the effect on `[date.year, date.month, date.day]`: refresh
        `maxDays`, clamp the day to it and emit the string of the date the
        effect saw, before the clamp. */
    method Effect() returns (clamped: bool)
      modifies this
      ensures maxDays == DaysInMonth(date.year, date.month)
      ensures clamped <==> old(date).day > maxDays
      ensures date == old(date).(day := if clamped then maxDays else old(date).day)
      ensures emitted == old(emitted) + [DateString(old(date))]
      ensures popupOpen == old(popupOpen)
    {
      var seen := date;
      var newMaxDays := DaysInMonth(date.year, date.month);
      maxDays := newMaxDays;
      clamped := date.day > newMaxDays;
      if clamped {
        date := date.(day := newMaxDays);
      }
      var newDateString := IntToString(seen.year) + "-" + Pad(seen.month) + "-" + Pad(seen.day);
      emitted := emitted + [newDateString];
    }

    function View(): Shown
      reads this
    {
      Shown(date, maxDays, emitted)
    }

    /** `setDate(next)` followed by the effect runs it causes. */
    method Commit(next: Ymd)
      modifies this
      ensures View() == Committed(old(View()), next)
      ensures popupOpen == old(popupOpen)
    {
      if next != date {
        date := next;
        var clamped := Effect();
        if clamped {
          clamped := Effect();
        }
      }
    }

    /** `handleWheel(part, delta)`. */
    method HandleWheel(part: Part, delta: real)
      modifies this
      ensures View() == Committed(old(View()), Wheeled(old(date), part, delta))
      ensures popupOpen == old(popupOpen)
    {
      var year, month, day := date.year, date.month, date.day;
      var step := if delta > 0.0 then -1 else 1;
      match part {
        case YearPart => year := year + step;
        case MonthPart => month := Rem(month - 1 + step + 12, 12) + 1;
        case DayPart =>
          var daysInMonth := DaysInMonth(year, month);
          day := Rem(day - 1 + step + daysInMonth, daysInMonth) + 1;
      }
      assert Ymd(year, month, day) == Wheeled(date, part, delta);
      Commit(Ymd(year, month, day));
    }

    /** `handlePartClick`: a click on any part opens or closes the popup. */
    method HandlePartClick()
      modifies this
      ensures popupOpen == !old(popupOpen)
      ensures date == old(date) && maxDays == old(maxDays) && emitted == old(emitted)
    {
      popupOpen := !popupOpen;
    }

    /** A mousedown outside the picker closes the popup; one inside does nothing. */
    method MouseDown(inside: bool)
      modifies this
      ensures popupOpen == (old(popupOpen) && inside)
      ensures date == old(date) && maxDays == old(maxDays) && emitted == old(emitted)
    {
      if !inside {
        popupOpen := false;
      }
    }

    /** Choosing an option in one of the popup's columns. */
    method Select(part: Part, value: int)
      modifies this
      ensures View() == Committed(old(View()), Selected(old(date), part, value))
      ensures popupOpen == old(popupOpen)
    {
      match part {
        case YearPart => Commit(date.(year := value));
        case MonthPart => Commit(date.(month := value));
        case DayPart => Commit(date.(day := value));
      }
    }
  }

  /** The date after choosing `value` in the column of `part`. */
  function Selected(d: Ymd, part: Part, value: int): Ymd {
    match part
    case YearPart => d.(year := value)
    case MonthPart => d.(month := value)
    case DayPart => d.(day := value)
  }
}
