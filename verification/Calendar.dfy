/**
 * A shop's own calendar: weekly windows, closures and a one-day extension.
 *
 * Instants are milliseconds since the epoch, days are day numbers since the
 * epoch in the shop's local time, and minutes count from local midnight.
 */
module Calendar {
  import opened Outcomes

  const MINUTES_PER_DAY := 1440
  const MS_PER_MINUTE := 60_000
  const MS_PER_DAY := 86_400_000

  datatype Window = Window(weekday: int, opens: int, closes: int)
  datatype Span = Span(opens: int, closes: int)
  datatype Closure = Closure(startDay: int, endDay: int)
  datatype Extension = Extension(day: int, opens: int, closes: int)
  datatype Schedule = Schedule(
    offset: int, week: seq<Window>, closures: seq<Closure>, extension: Option<Extension>)

  // ---------- what a schedule must satisfy before it is used ----------

  predicate ValidWindow(w: Window) {
    0 <= w.weekday <= 6 && 0 <= w.opens < w.closes <= MINUTES_PER_DAY
  }

  predicate Overlap(v: Window, w: Window) {
    v.weekday == w.weekday && v.opens < w.closes && w.opens < v.closes
  }

  predicate ValidSchedule(s: Schedule) {
    && -840 <= s.offset <= 840
    && s.week != []
    && (forall i | 0 <= i < |s.week| :: ValidWindow(s.week[i]))
    && (forall i, j | 0 <= i < j < |s.week| :: !Overlap(s.week[i], s.week[j]))
    && (forall i | 0 <= i < |s.closures| :: s.closures[i].startDay <= s.closures[i].endDay)
    && (s.extension.Some? ==>
          0 <= s.extension.value.opens < s.extension.value.closes < MINUTES_PER_DAY)
  }

  // ---------- local clock ----------

  function LocalDay(t: int, offset: int): int { (t + offset * MS_PER_MINUTE) / MS_PER_DAY }

  function LocalMinute(t: int, offset: int): int { (t + offset * MS_PER_MINUTE) % MS_PER_DAY / MS_PER_MINUTE }

  function WeekdayOf(day: int): int { (day + 4) % 7 }  // day 0 was a Thursday

  function InstantAt(day: int, minute: int, offset: int): int {
    day * MS_PER_DAY + (minute - offset) * MS_PER_MINUTE
  }

  // ---------- the opening hours of one day ----------

  predicate IsClosed(s: Schedule, day: int) {
    exists i | 0 <= i < |s.closures| :: s.closures[i].startDay <= day <= s.closures[i].endDay
  }

  function SpansFor(week: seq<Window>, weekday: int): seq<Span> {
    if week == [] then []
    else if week[0].weekday == weekday then [Span(week[0].opens, week[0].closes)] + SpansFor(week[1..], weekday)
    else SpansFor(week[1..], weekday)
  }

  function Insert(x: Span, sorted: seq<Span>): seq<Span> {
    if sorted == [] || x.opens < sorted[0].opens then [x] + sorted
    else [sorted[0]] + Insert(x, sorted[1..])
  }

  function SortByOpening(spans: seq<Span>): seq<Span> {
    if spans == [] then [] else Insert(spans[0], SortByOpening(spans[1..]))
  }

  /** The day's last window grows to the declared closing time, or a later window is added. */
  function Extended(windows: seq<Span>, e: Extension): seq<Span>
    requires windows != []
  {
    var last := windows[|windows| - 1];
    if e.opens <= last.closes then
      windows[|windows| - 1 := Span(last.opens, if last.closes < e.closes then e.closes else last.closes)]
    else windows + [Span(e.opens, e.closes)]
  }

  function WindowsOn(s: Schedule, day: int, weekday: int): seq<Span> {
    if IsClosed(s, day) then []
    else
      var windows := SortByOpening(SpansFor(s.week, weekday));
      if s.extension.Some? && s.extension.value.day == day && windows != [] then
        Extended(windows, s.extension.value)
      else windows
  }

  /** Is the shop open at this exact moment? */
  predicate IsOpenAt(s: Schedule, t: int) {
    var day, minute := LocalDay(t, s.offset), LocalMinute(t, s.offset);
    var windows := WindowsOn(s, day, WeekdayOf(day));
    exists i | 0 <= i < |windows| :: windows[i].opens <= minute < windows[i].closes
  }

  // ---------- windows are sorted and disjoint ----------

  predicate SpanOk(w: Span) { 0 <= w.opens < w.closes <= MINUTES_PER_DAY }

  /** Every window is a real stretch of the day and ends before the next one begins. */
  predicate Ordered(spans: seq<Span>) {
    && (forall i | 0 <= i < |spans| :: SpanOk(spans[i]))
    && (forall i, j | 0 <= i < j < |spans| :: spans[i].closes <= spans[j].opens)
  }

  predicate Apart(x: Span, y: Span) { x.closes <= y.opens || y.closes <= x.opens }

  predicate ApartFromAll(x: Span, spans: seq<Span>) { forall y | y in spans :: Apart(x, y) }

  lemma {:induction false} SpansForMembers(week: seq<Window>, weekday: int)
    ensures forall y :: y in SpansFor(week, weekday) <==>
              exists i | 0 <= i < |week| :: week[i] == Window(weekday, y.opens, y.closes)
  {
    if week != [] {
      SpansForMembers(week[1..], weekday);
      forall y
        ensures y in SpansFor(week, weekday) <==>
                exists i | 0 <= i < |week| :: week[i] == Window(weekday, y.opens, y.closes)
      {
        if i :| 0 <= i < |week| && week[i] == Window(weekday, y.opens, y.closes) {
          assert i > 0 ==> week[1..][i - 1] == week[i];
        }
        if y in SpansFor(week[1..], weekday) {
          var i :| 0 <= i < |week[1..]| && week[1..][i] == Window(weekday, y.opens, y.closes);
          assert week[i + 1] == week[1..][i];
        }
      }
    }
  }

  lemma {:induction false} InsertKeeps(x: Span, sorted: seq<Span>)
    requires Ordered(sorted) && SpanOk(x) && ApartFromAll(x, sorted)
    ensures Ordered(Insert(x, sorted))
    ensures forall y :: y in Insert(x, sorted) <==> y == x || y in sorted
  {
    if sorted != [] && x.opens >= sorted[0].opens {
      assert forall y :: y in sorted <==> y == sorted[0] || y in sorted[1..];
      InsertKeeps(x, sorted[1..]);
      var rest := Insert(x, sorted[1..]);
      assert Apart(x, sorted[0]);
      forall j | 0 <= j < |rest| ensures sorted[0].closes <= rest[j].opens {
        assert rest[j] in rest;
      }
    } else if sorted != [] {
      assert Apart(x, sorted[0]);
    }
  }

  /** Sorting a valid week's windows for one weekday keeps them all, in order and disjoint. */
  lemma {:induction false} SortedWeek(week: seq<Window>, weekday: int)
    requires forall i | 0 <= i < |week| :: ValidWindow(week[i])
    requires forall i, j | 0 <= i < j < |week| :: !Overlap(week[i], week[j])
    ensures Ordered(SortByOpening(SpansFor(week, weekday)))
    ensures forall y :: y in SortByOpening(SpansFor(week, weekday)) <==>
              exists i | 0 <= i < |week| :: week[i] == Window(weekday, y.opens, y.closes)
  {
    SpansForMembers(week, weekday);
    if week != [] {
      SortedWeek(week[1..], weekday);
      SpansForMembers(week[1..], weekday);
      if week[0].weekday == weekday {
        var x := Span(week[0].opens, week[0].closes);
        var rest := SpansFor(week[1..], weekday);
        assert SpansFor(week, weekday)[1..] == rest;
        forall y | y in SortByOpening(rest) ensures Apart(x, y) {
          var i :| 0 <= i < |week[1..]| && week[1..][i] == Window(weekday, y.opens, y.closes);
          assert !Overlap(week[0], week[i + 1]);
        }
        InsertKeeps(x, SortByOpening(rest));
        forall y ensures y in SortByOpening(SpansFor(week, weekday)) <==> y in SpansFor(week, weekday) {
        }
      }
    }
  }

  /** Whatever the schedule, closures and extension included, a day's windows are sorted and disjoint. */
  lemma WindowsOrdered(s: Schedule, day: int, weekday: int)
    requires ValidSchedule(s)
    ensures Ordered(WindowsOn(s, day, weekday))
  {
    hide Ordered, Extended, SortByOpening, SpansFor, IsClosed;
    SortedWeek(s.week, weekday);
    var windows := SortByOpening(SpansFor(s.week, weekday));
    if IsClosed(s, day) {
      NoneOrdered();
    } else if s.extension.Some? && windows != [] {
      ExtendedOrdered(windows, s.extension.value);
    }
  }

  lemma NoneOrdered()
    ensures Ordered([])
  {
  }

  lemma ExtendedOrdered(windows: seq<Span>, e: Extension)
    requires windows != [] && Ordered(windows) && 0 <= e.opens < e.closes <= MINUTES_PER_DAY
    ensures Ordered(Extended(windows, e))
  {
    var n := |windows|;
    assert forall i | 0 <= i < n :: Extended(windows, e)[i].opens == windows[i].opens;
  }

  // ---------- what "open" means, without the list manipulation ----------

  /** A weekly window of the day's weekday holds the minute. */
  ghost predicate InWeek(s: Schedule, weekday: int, minute: int) {
    exists w | w in s.week :: w.weekday == weekday && w.opens <= minute < w.closes
  }

  /** The minute lies in the extension and no weekly window of that weekday closes after it. */
  ghost predicate InExtension(s: Schedule, day: int, weekday: int, minute: int) {
    && s.extension.Some? && s.extension.value.day == day
    && s.extension.value.opens <= minute < s.extension.value.closes
    && (exists w | w in s.week :: w.weekday == weekday)
    && (forall w | w in s.week && w.weekday == weekday :: w.closes <= minute)
  }

  ghost predicate InWindows(windows: seq<Span>, minute: int) {
    exists i | 0 <= i < |windows| :: windows[i].opens <= minute < windows[i].closes
  }

  lemma WeekMinutes(s: Schedule, weekday: int, minute: int)
    requires ValidSchedule(s)
    ensures InWindows(SortByOpening(SpansFor(s.week, weekday)), minute) <==> InWeek(s, weekday, minute)
  {
    var spans := SortByOpening(SpansFor(s.week, weekday));
    SortedWeek(s.week, weekday);
    if i :| 0 <= i < |spans| && spans[i].opens <= minute < spans[i].closes {
      assert spans[i] in spans;
      assert Window(weekday, spans[i].opens, spans[i].closes) in s.week;
    }
    if w :| w in s.week && w.weekday == weekday && w.opens <= minute < w.closes {
      assert Span(w.opens, w.closes) in spans;
    }
  }

  lemma ExtensionMinutes(windows: seq<Span>, e: Extension, minute: int)
    requires windows != [] && Ordered(windows)
    ensures InWindows(Extended(windows, e), minute) <==>
              InWindows(windows, minute)
              || (e.opens <= minute < e.closes && windows[|windows| - 1].closes <= minute)
  {
    var n := |windows|;
    var last := windows[n - 1];
    var out := Extended(windows, e);
    assert forall i | 0 <= i < n - 1 :: out[i] == windows[i];
    if e.opens <= last.closes {
      assert out[n - 1].opens == last.opens;
    } else {
      assert out[n - 1] == last && out[n] == Span(e.opens, e.closes);
    }
    if i :| 0 <= i < n && windows[i].opens <= minute < windows[i].closes {
      assert out[i].opens <= minute < out[i].closes;
    }
    if e.opens <= minute < e.closes && last.closes <= minute {
      var k := if e.opens <= last.closes then n - 1 else n;
      assert last.opens < last.closes;
      assert out[k].opens <= minute < out[k].closes;
    }
  }

  /**
   * The shop is open at t exactly when no closure holds its local day, both ends included, and the
   * local minute is in a weekly window, or in the day's extension once every regular window of a
   * working day has closed. Day 0 of the epoch was a Thursday.
   */
  lemma OpenMeaning(s: Schedule, t: int)
    requires ValidSchedule(s)
    ensures var local := t + s.offset * 60_000;
            var day, minute := local / 86_400_000, local % 86_400_000 / 60_000;
            var weekday := (day + 4) % 7;
            IsOpenAt(s, t) <==>
              !(exists c | c in s.closures :: c.startDay <= day <= c.endDay)
              && (InWeek(s, weekday, minute) || InExtension(s, day, weekday, minute))
  {
    hide IsOpenAt, InWeek, InExtension, LocalDay, LocalMinute, WeekdayOf, ValidSchedule;
    ClockReads(t, s.offset);
    OpenAsLocal(s, t);
  }

  lemma OpenAsLocal(s: Schedule, t: int)
    requires ValidSchedule(s)
    ensures var day, minute := LocalDay(t, s.offset), LocalMinute(t, s.offset);
            var weekday := WeekdayOf(day);
            IsOpenAt(s, t) <==>
              !(exists c | c in s.closures :: c.startDay <= day <= c.endDay)
              && (InWeek(s, weekday, minute) || InExtension(s, day, weekday, minute))
  {
    hide LocalDay, LocalMinute, WeekdayOf, SpansFor, SortByOpening, Extended, InWeek;
    var day, minute := LocalDay(t, s.offset), LocalMinute(t, s.offset);
    var weekday := WeekdayOf(day);
    var windows := SortByOpening(SpansFor(s.week, weekday));
    SortedWeek(s.week, weekday);
    WeekMinutes(s, weekday, minute);
    LastOfWeek(s, weekday, minute);
    assert IsOpenAt(s, t) == InWindows(WindowsOn(s, day, weekday), minute);
    if windows != [] && s.extension.Some? {
      ExtensionMinutes(windows, s.extension.value, minute);
    }
  }

  /** The last window of a working day closes by a minute exactly when every one of them does. */
  lemma LastOfWeek(s: Schedule, weekday: int, minute: int)
    requires ValidSchedule(s)
    ensures var windows := SortByOpening(SpansFor(s.week, weekday));
            && (windows != [] <==> exists w | w in s.week :: w.weekday == weekday)
            && (windows != [] ==>
                  (windows[|windows| - 1].closes <= minute
                   <==> forall w | w in s.week && w.weekday == weekday :: w.closes <= minute))
  {
    hide SpansFor, SortByOpening;
    var windows := SortByOpening(SpansFor(s.week, weekday));
    SortedWeek(s.week, weekday);
    forall w | w in s.week && w.weekday == weekday
      ensures Span(w.opens, w.closes) in windows
    {
      assert w == Window(weekday, w.opens, w.closes);
    }
    if windows != [] {
      var last := windows[|windows| - 1];
      assert last in windows;
      assert Window(weekday, last.opens, last.closes) in s.week;
      forall w | w in s.week && w.weekday == weekday ensures w.closes <= last.closes {
        var i :| 0 <= i < |windows| && windows[i] == Span(w.opens, w.closes);
        assert i < |windows| - 1 ==> windows[i].closes <= last.opens;
      }
    }
  }

  lemma ClockReads(t: int, offset: int)
    ensures var local := t + offset * 60_000;
            && LocalDay(t, offset) == local / 86_400_000
            && LocalMinute(t, offset) == local % 86_400_000 / 60_000
            && WeekdayOf(LocalDay(t, offset)) == (local / 86_400_000 + 4) % 7
  {
  }

  /** A closure shuts the shop from the local midnight it starts on to the one after its last day. */
  lemma ClosedThroughout(s: Schedule, c: Closure)
    requires ValidSchedule(s) && c in s.closures
    ensures var from := c.startDay * 86_400_000 - s.offset * 60_000;
            var to := (c.endDay + 1) * 86_400_000 - s.offset * 60_000;
            (forall t | from <= t < to :: !IsOpenAt(s, t)) && CountOpen(s, from, to) == 0
  {
    hide ValidSchedule, IsOpenAt, CountOpen;
    var from, to := c.startDay * 86_400_000 - s.offset * 60_000, (c.endDay + 1) * 86_400_000 - s.offset * 60_000;
    forall t | from <= t < to
      ensures !IsOpenAt(s, t)
    {
      OpenMeaning(s, t);
    }
    CountShut(s, from, to);
  }

  // ---------- what "valid" means ----------

  ghost predicate Within(opens: int, closes: int, minute: int) { opens <= minute < closes }

  ghost predicate InBoth(v: Window, w: Window, minute: int) {
    v.weekday == w.weekday && v.opens <= minute < v.closes && w.opens <= minute < w.closes
  }

  ghost predicate ClosedOn(c: Closure, day: int) { c.startDay <= day <= c.endDay }

  lemma StretchHolds(opens: int, closes: int)
    ensures opens < closes <==> exists minute :: Within(opens, closes, minute)
  {
    assert opens < closes ==> Within(opens, closes, opens);
  }

  lemma OverlapHolds(v: Window, w: Window)
    requires v.opens < v.closes && w.opens < w.closes
    ensures Overlap(v, w) <==> exists minute :: InBoth(v, w, minute)
  {
    assert Overlap(v, w) ==> InBoth(v, w, if v.opens < w.opens then w.opens else v.opens);
  }

  ghost predicate ClosesADay(c: Closure) { exists day :: ClosedOn(c, day) }

  lemma ClosureHolds(c: Closure)
    ensures c.startDay <= c.endDay <==> ClosesADay(c)
  {
    assert c.startDay <= c.endDay ==> ClosedOn(c, c.startDay);
  }

  /** A stretch of at least a minute in one day of the week. */
  ghost predicate WindowMeant(w: Window) {
    0 <= w.weekday <= 6 && 0 <= w.opens && w.closes <= 24 * 60 && exists minute :: Within(w.opens, w.closes, minute)
  }

  /**
   * A schedule is accepted exactly when its clock is within 14 hours of UTC, it has a window, every
   * window is a stretch of at least a minute in one day of the week, no minute of a weekday lies in
   * two windows, every closure closes a day, and an extension is a stretch that ends before midnight.
   */
  lemma ScheduleMeaning(s: Schedule)
    ensures ValidSchedule(s) <==>
              && -14 * 60 <= s.offset <= 14 * 60 && |s.week| > 0
              && (forall i | 0 <= i < |s.week| :: WindowMeant(s.week[i]))
              && (forall i, j | 0 <= i < j < |s.week| :: !exists minute :: InBoth(s.week[i], s.week[j], minute))
              && (forall i | 0 <= i < |s.closures| :: ClosesADay(s.closures[i]))
              && (s.extension.Some? ==>
                    && 0 <= s.extension.value.opens && s.extension.value.closes <= 24 * 60 - 1
                    && exists minute :: Within(s.extension.value.opens, s.extension.value.closes, minute))
  {
    hide Overlap, InBoth, ClosesADay, Within;
    forall i | 0 <= i < |s.week|
      ensures ValidWindow(s.week[i]) <==> WindowMeant(s.week[i])
    {
      StretchHolds(s.week[i].opens, s.week[i].closes);
    }
    forall i, j | 0 <= i < j < |s.week| && ValidWindow(s.week[i]) && ValidWindow(s.week[j])
      ensures Overlap(s.week[i], s.week[j]) <==> exists minute :: InBoth(s.week[i], s.week[j], minute)
    {
      OverlapHolds(s.week[i], s.week[j]);
    }
    forall i | 0 <= i < |s.closures|
      ensures s.closures[i].startDay <= s.closures[i].endDay <==> ClosesADay(s.closures[i])
    {
      ClosureHolds(s.closures[i]);
    }
    if s.extension.Some? {
      StretchHolds(s.extension.value.opens, s.extension.value.closes);
    }
  }

  // ---------- one day on the instant line ----------

  lemma DayBounds(t: int, day: int, offset: int)
    ensures LocalDay(t, offset) == day <==> InstantAt(day, 0, offset) <= t < InstantAt(day + 1, 0, offset)
  {
  }

  lemma MinuteBounds(t: int, day: int, minute: int, offset: int)
    requires LocalDay(t, offset) == day
    ensures minute <= LocalMinute(t, offset) <==> InstantAt(day, minute, offset) <= t
  {
    var x := t + offset * MS_PER_MINUTE;
    assert x == day * MS_PER_DAY + x % MS_PER_DAY;
    MinuteFloor(x % MS_PER_DAY, minute);
  }

  lemma MinuteFloor(ms: int, minute: int)
    ensures minute <= ms / MS_PER_MINUTE <==> minute * MS_PER_MINUTE <= ms
  {
  }

  /** Openness of an instant, read off the windows of any day that contains it. */
  lemma OpenOnDay(s: Schedule, t: int, day: int)
    requires InstantAt(day, 0, s.offset) <= t < InstantAt(day + 1, 0, s.offset)
    ensures var windows := WindowsOn(s, day, WeekdayOf(day));
            IsOpenAt(s, t) <==>
              exists i | 0 <= i < |windows| ::
                InstantAt(day, windows[i].opens, s.offset) <= t < InstantAt(day, windows[i].closes, s.offset)
  {
    DayBounds(t, day, s.offset);
    var windows := WindowsOn(s, day, WeekdayOf(day));
    var minute := LocalMinute(t, s.offset);
    forall i | 0 <= i < |windows|
      ensures windows[i].opens <= minute < windows[i].closes <==>
              InstantAt(day, windows[i].opens, s.offset) <= t < InstantAt(day, windows[i].closes, s.offset)
    {
      MinuteBounds(t, day, windows[i].opens, s.offset);
      MinuteBounds(t, day, windows[i].closes, s.offset);
    }
  }

  // ---------- counting open time ----------

  /** How many milliseconds of [from, to) the shop is open. */
  ghost function CountOpen(s: Schedule, from: int, to: int): nat {
    |set t | from <= t < to && IsOpenAt(s, t)|
  }

  lemma {:induction false} SplitCount(s: Schedule, a: int, b: int, c: int)
    requires a <= b <= c
    ensures CountOpen(s, a, c) == CountOpen(s, a, b) + CountOpen(s, b, c)
  {
    hide IsOpenAt;
    var left := set t | a <= t < b && IsOpenAt(s, t);
    var right := set t | b <= t < c && IsOpenAt(s, t);
    assert left !! right;
    assert (set t | a <= t < c && IsOpenAt(s, t)) == left + right;
  }

  lemma CountShut(s: Schedule, a: int, b: int)
    requires forall t | a <= t < b :: !IsOpenAt(s, t)
    ensures CountOpen(s, a, b) == 0
  {
    hide IsOpenAt;
    assert (set t | a <= t < b && IsOpenAt(s, t)) == {};
  }

  lemma {:induction false} CountAllOpen(s: Schedule, a: int, b: int)
    requires a <= b && forall t | a <= t < b :: IsOpenAt(s, t)
    ensures CountOpen(s, a, b) == b - a
    decreases b - a
  {
    hide IsOpenAt;
    if a == b {
      CountShut(s, a, b);
    } else {
      CountAllOpen(s, a, b - 1);
      assert (set t | a <= t < b && IsOpenAt(s, t)) == (set t | a <= t < b - 1 && IsOpenAt(s, t)) + {b - 1};
    }
  }
}
