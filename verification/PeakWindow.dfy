/** Peak pricing windows: the minute test against windows laid out on an unbounded timeline. */
module PeakWindow {
  import opened Common

  datatype Window = Window(start: string, end: string, weekdaysOnly: bool)

  // ----- clock times -----

  predicate IsDigit(c: char) {
    '0' <= c <= '9'
  }

  function DigitValue(c: char): int {
    c as int - '0' as int
  }

  /** The number a digit string stands for. */
  function Number(s: string): int {
    if s == "" then 0 else 10 * Number(s[..|s| - 1]) + DigitValue(s[|s| - 1])
  }

  predicate IsComponent(s: string) {
    1 <= |s| <= 2 && forall i | 0 <= i < |s| :: IsDigit(s[i])
  }

  method ParseClockComponent(s: string) returns (r: Option<int>)
    ensures r == if IsComponent(s) then Some(Number(s)) else None
  {
    if |s| == 0 || |s| > 2 {
      return None;
    }
    var n := 0;
    var i := 0;
    while i < |s|
      invariant 0 <= i <= |s|
      invariant forall j :: 0 <= j < i ==> IsDigit(s[j])
      invariant n == Number(s[..i])
    {
      if !IsDigit(s[i]) {
        return None;
      }
      assert s[..i + 1][..i] == s[..i];
      n := n * 10 + DigitValue(s[i]);
      i := i + 1;
    }
    assert s[..i] == s;
    return Some(n);
  }

  /** The parts of `s` between colons. */
  function Split(s: string): (parts: seq<string>)
    ensures |parts| >= 1
  {
    if s == "" then [""]
    else
      var rest := Split(s[1..]);
      if s[0] == ':' then [""] + rest else [[s[0]] + rest[0]] + rest[1..]
  }

  /** Minutes since midnight of an "HH:MM" time. */
  function ParseClock(s: string): Option<int> {
    var parts := Split(s);
    if |parts| != 2 || !IsComponent(parts[0]) || !IsComponent(parts[1]) then None
    else
      var h, m := Number(parts[0]), Number(parts[1]);
      if h > 23 || m > 59 then None else Some(h * 60 + m)
  }

  method ParseClockMinutes(s: string) returns (r: Option<int>)
    ensures r == ParseClock(s)
  {
    var parts := Split(s);
    if |parts| != 2 {
      return None;
    }
    var h := ParseClockComponent(parts[0]);
    var m := ParseClockComponent(parts[1]);
    if h.None? || m.None? || h.value > 23 || m.value > 59 {
      return None;
    }
    return Some(h.value * 60 + m.value);
  }

  // ----- the minute test -----

  const DAY := 1440

  /** Minutes are counted from midnight of 1 January 1970, a Thursday; day 0 is that day. */
  function Weekday(day: int): (w: int)
    ensures 0 <= w < 7
  {
    (day + 4) % 7
  }

  predicate IsWeekend(day: int) {
    Weekday(day) == 0 || Weekday(day) == 6
  }

  predicate Contains(w: Option<Window>, minute: int) {
    match w
    case None => false
    case Some(win) =>
      var start, end := ParseClock(win.start), ParseClock(win.end);
      if start.None? || end.None? || start == end then false
      else Inside(start.value, end.value, win.weekdaysOnly, minute)
  }

  predicate Inside(start: int, end: int, weekdaysOnly: bool, minute: int) {
    var minutes, today := minute % DAY, minute / DAY;
    var inInterval := if start < end then start <= minutes < end else minutes >= start || minutes < end;
    && inInterval
    && (weekdaysOnly ==> !IsWeekend(if start > end && minutes < end then today - 1 else today))
  }

  // ----- the timeline -----

  /** The window of day `d` runs from its start to its end, on the next day when it wraps. */
  predicate InWindowOf(d: int, start: int, end: int, weekdaysOnly: bool, minute: int) {
    && (weekdaysOnly ==> !IsWeekend(d))
    && d * DAY + start <= minute < d * DAY + end + (if start > end then DAY else 0)
  }

  lemma ParsedRange(s: string)
    ensures ParseClock(s).Some? ==> 0 <= ParseClock(s).value < DAY
  {
    if ParseClock(s).Some? {
      ComponentNotNegative(Split(s)[0]);
      ComponentNotNegative(Split(s)[1]);
    }
  }

  lemma {:induction false} ComponentNotNegative(s: string)
    requires forall i :: 0 <= i < |s| ==> IsDigit(s[i])
    ensures Number(s) >= 0
  {
    if s != "" {
      ComponentNotNegative(s[..|s| - 1]);
    }
  }

  lemma InsideIsTimeline(start: int, end: int, weekdaysOnly: bool, minute: int)
    requires 0 <= start < DAY && 0 <= end < DAY && start != end
    ensures Inside(start, end, weekdaysOnly, minute)
      <==> exists d :: InWindowOf(d, start, end, weekdaysOnly, minute)
  {
    var today := minute / DAY;
    assert minute == today * DAY + minute % DAY;
    if Inside(start, end, weekdaysOnly, minute) {
      var day := if start > end && minute % DAY < end then today - 1 else today;
      assert InWindowOf(day, start, end, weekdaysOnly, minute);
    }
    if d :| InWindowOf(d, start, end, weekdaysOnly, minute) {
      assert today == d || today == d + 1;
    }
  }

  /** A minute is peak exactly when the window of some day (a weekday, if only those count) covers it; a
      missing, malformed or empty window never is. */
  lemma ContainsIsTimeline(w: Option<Window>, minute: int)
    ensures Contains(w, minute) <==>
      && w.Some?
      && ParseClock(w.value.start).Some? && ParseClock(w.value.end).Some?
      && ParseClock(w.value.start) != ParseClock(w.value.end)
      && exists d :: InWindowOf(d, ParseClock(w.value.start).value, ParseClock(w.value.end).value,
        w.value.weekdaysOnly, minute)
  {
    if w.Some? {
      var start, end := ParseClock(w.value.start), ParseClock(w.value.end);
      ParsedRange(w.value.start);
      ParsedRange(w.value.end);
      if start.Some? && end.Some? && start != end {
        InsideIsTimeline(start.value, end.value, w.value.weekdaysOnly, minute);
      }
    }
  }

  /** Without the weekday restriction a window and its complement partition time. */
  lemma ComplementPartitions(start: string, end: string, minute: int)
    requires ParseClock(start).Some? && ParseClock(end).Some? && ParseClock(start) != ParseClock(end)
    ensures Contains(Some(Window(start, end, false)), minute) <==> !Contains(Some(Window(end, start, false)), minute)
  {
    ParsedRange(start);
    ParsedRange(end);
  }

  // ----- writing a time and reading it back -----

  function TwoDigits(n: int): string
    requires 0 <= n < 100
  {
    [('0' as int + n / 10) as char, ('0' as int + n % 10) as char]
  }

  lemma {:induction false} SplitOnce(a: string, b: string)
    requires ':' !in a && ':' !in b
    ensures Split(a + ":" + b) == [a, b]
    decreases |a|
  {
    var s := a + ":" + b;
    if a == "" {
      assert s[1..] == b;
      SplitNone(b);
    } else {
      assert s[1..] == a[1..] + ":" + b;
      SplitOnce(a[1..], b);
      assert [a[0]] + a[1..] == a;
    }
  }

  lemma {:induction false} SplitNone(b: string)
    requires ':' !in b
    ensures Split(b) == [b]
  {
    if b != "" {
      SplitNone(b[1..]);
      assert [b[0]] + b[1..] == b;
    }
  }

  lemma TwoDigitsRead(n: int)
    requires 0 <= n < 100
    ensures IsComponent(TwoDigits(n)) && Number(TwoDigits(n)) == n && ':' !in TwoDigits(n)
  {
    var s := TwoDigits(n);
    assert s[..1] == [s[0]] && s[..1][..0] == "";
    assert Number(s[..1]) == DigitValue(s[0]);
  }

  /** A written clock time is read back as itself. */
  lemma ClockRoundTrip(h: int, m: int)
    requires 0 <= h <= 23 && 0 <= m <= 59
    ensures ParseClock(TwoDigits(h) + ":" + TwoDigits(m)) == Some(h * 60 + m)
  {
    TwoDigitsRead(h);
    TwoDigitsRead(m);
    SplitOnce(TwoDigits(h), TwoDigits(m));
  }

  // ----- the calendar, and what a clock time is -----

  /** The weekends are two days in seven: 3 and 4 January 1970 were a Saturday and a Sunday. */
  lemma WeekendsAre(day: int)
    ensures IsWeekend(day) <==> exists week :: day == 7 * week + 2 || day == 7 * week + 3
  {
    var week := (day + 4) / 7;
    assert day + 4 == 7 * week + Weekday(day);
    if Weekday(day) == 6 {
      assert day == 7 * week + 2;
    }
    if Weekday(day) == 0 {
      assert day == 7 * (week - 1) + 3;
    }
    if w :| day == 7 * w + 2 || day == 7 * w + 3 {
      assert day + 4 == 7 * w + 6 || day + 4 == 7 * (w + 1);
    }
  }

  /** A clock time is one or two digits, a colon, and one or two digits, within the day. */
  ghost predicate Reads(s: string, a: string, b: string, v: int) {
    && s == a + ":" + b && IsComponent(a) && IsComponent(b)
    && Number(a) <= 23 && Number(b) <= 59 && v == Number(a) * 60 + Number(b)
  }

  lemma ClockShape(s: string, v: int)
    ensures ParseClock(s) == Some(v) <==> exists a, b :: Reads(s, a, b, v)
  {
    if ParseClock(s) == Some(v) {
      SplitJoins(s);
      assert Reads(s, Split(s)[0], Split(s)[1], v);
    }
    if a, b :| Reads(s, a, b, v) {
      SplitOnce(a, b);
    }
  }

  lemma {:induction false} SplitJoins(s: string)
    ensures |Split(s)| == 1 ==> s == Split(s)[0]
    ensures |Split(s)| == 2 ==> s == Split(s)[0] + ":" + Split(s)[1]
  {
    if s != "" {
      SplitJoins(s[1..]);
      assert s == [s[0]] + s[1..];
    }
  }
}
