/**
 * Counting and adding a shop's opening time.
 *
 * One bounded day walk hands every stretch of open time to a step function;
 * each public operation is that walk with a different step.
 */
module OpenTime {
  import opened Outcomes
  import opened Calendar

  const MAX_WALK_DAYS := 366
  const MAX_SAFE_INTEGER := 9_007_199_254_740_991

  datatype Fault = InvalidSchedule | InvalidDuration | ShopNeverOpen

  type Result<+T> = Outcome<T, Fault>

  /** One stretch of open time, as the walk hands it over. */
  datatype Slot = Slot(day: int, openedMs: int, minutes: int, closesMs: int)

  function Max(a: int, b: int): int { if a < b then b else a }
  function Min(a: int, b: int): int { if a < b then a else b }
  function Ceil(x: real): int { -((-x).Floor) }

  /** Milliseconds to minutes, rounded half up as Math.round does. */
  function RoundMinutes(ms: int): int { (ms + MS_PER_MINUTE / 2) / MS_PER_MINUTE }

  function FloorMinute(t: int): int { t - t % MS_PER_MINUTE }

  // ---------- the walk ----------

  function DaySlots(offset: int, day: int, windows: seq<Span>, cursor: int): seq<Slot> {
    if windows == [] then []
    else
      var opens, closes := Max(windows[0].opens, cursor), windows[0].closes;
      var rest := DaySlots(offset, day, windows[1..], cursor);
      if opens >= closes then rest
      else [Slot(day, InstantAt(day, opens, offset), closes - opens, InstantAt(day, closes, offset))] + rest
  }

  /** The slots of the days [day, end), the first of them from the cursor minute on. */
  function SlotsFrom(s: Schedule, day: int, cursor: int, end: int): seq<Slot>
    decreases end - day
  {
    if day >= end then []
    else DaySlots(s.offset, day, WindowsOn(s, day, WeekdayOf(day)), cursor) + SlotsFrom(s, day + 1, 0, end)
  }

  /** Feed slots to a step function until it gives a verdict. */
  function Run<S, R>(consume: (S, Slot) -> (S, Option<R>), state: S, slots: seq<Slot>): (S, Option<R>) {
    if slots == [] then (state, None)
    else
      var (next, verdict) := consume(state, slots[0]);
      if verdict.Some? then (next, verdict) else Run(consume, next, slots[1..])
  }

  function WalkSlots(s: Schedule, fromMs: int): seq<Slot> {
    var day := LocalDay(fromMs, s.offset);
    SlotsFrom(s, day, LocalMinute(fromMs, s.offset), day + MAX_WALK_DAYS)
  }

  function Walk<S, R>(s: Schedule, fromMs: int, consume: (S, Slot) -> (S, Option<R>), start: S): (S, Result<R>) {
    if !ValidSchedule(s) then (start, Raise(InvalidSchedule))
    else
      var (state, verdict) := Run(consume, start, WalkSlots(s, fromMs));
      (state, if verdict.Some? then Ok(verdict.value) else Raise(ShopNeverOpen))
  }

  function SlotOf(offset: int, day: int, window: Span, cursor: int): Slot {
    var opens := Max(window.opens, cursor);
    Slot(day, InstantAt(day, opens, offset), window.closes - opens, InstantAt(day, window.closes, offset))
  }

  /** What one window of a day contributes to a run. */
  lemma RunWindow<S, R>(consume: (S, Slot) -> (S, Option<R>), state: S, offset: int, day: int,
                        windows: seq<Span>, i: nat, cursor: int, later: seq<Slot>)
    requires i < |windows|
    ensures var whole := Run(consume, state, DaySlots(offset, day, windows[i..], cursor) + later);
            var rest := DaySlots(offset, day, windows[i + 1..], cursor) + later;
            var (next, verdict) := consume(state, SlotOf(offset, day, windows[i], cursor));
            whole == if Max(windows[i].opens, cursor) >= windows[i].closes then Run(consume, state, rest)
                     else if verdict.Some? then (next, verdict) else Run(consume, next, rest)
  {
    assert windows[i..][1..] == windows[i + 1..];
    var tail := DaySlots(offset, day, windows[i + 1..], cursor);
    assert ([SlotOf(offset, day, windows[i], cursor)] + tail + later)[1..] == tail + later;
  }

  lemma RunDay<S, R>(consume: (S, Slot) -> (S, Option<R>), state: S, s: Schedule, day: int, cursor: int, end: int)
    requires day < end
    ensures var windows := WindowsOn(s, day, WeekdayOf(day));
            && windows[0..] == windows
            && Run(consume, state, SlotsFrom(s, day, cursor, end))
            == Run(consume, state, DaySlots(s.offset, day, windows[0..], cursor) + SlotsFrom(s, day + 1, 0, end))
  {
    hide WindowsOn;
  }

  method WalkOpenTime<S, R>(s: Schedule, fromMs: int, consume: (S, Slot) -> (S, Option<R>), start: S)
    returns (state: S, r: Result<R>)
    ensures (state, r) == Walk(s, fromMs, consume, start)
  {
    hide WindowsOn, ValidSchedule, DaySlots, SlotsFrom, Run, LocalDay, LocalMinute, InstantAt;
    state := start;
    if !ValidSchedule(s) {
      return state, Raise(InvalidSchedule);
    }
    var day, cursorMinute := LocalDay(fromMs, s.offset), LocalMinute(fromMs, s.offset);
    var weekday := WeekdayOf(day);
    ghost var end := day + MAX_WALK_DAYS;
    ghost var goal := Run(consume, start, WalkSlots(s, fromMs));
    for walked := 0 to MAX_WALK_DAYS
      invariant weekday == WeekdayOf(day) && end == day + MAX_WALK_DAYS - walked
      invariant goal == Run(consume, state, SlotsFrom(s, day, cursorMinute, end))
      invariant walked > 0 ==> cursorMinute == 0
    {
      var windows := WindowsOn(s, day, weekday);
      ghost var later := SlotsFrom(s, day + 1, 0, end);
      RunDay(consume, state, s, day, cursorMinute, end);
      for i := 0 to |windows|
        invariant goal == Run(consume, state, DaySlots(s.offset, day, windows[i..], cursorMinute) + later)
      {
        var window := windows[i];
        var opens := Max(window.opens, if walked == 0 then cursorMinute else 0);
        RunWindow(consume, state, s.offset, day, windows, i, cursorMinute, later);
        if opens >= window.closes {
          continue;
        }
        var (next, verdict) := consume(state, Slot(day, InstantAt(day, opens, s.offset), window.closes - opens,
                                                   InstantAt(day, window.closes, s.offset)));
        state := next;
        if verdict.Some? {
          return state, Ok(verdict.value);
        }
      }
      DayEnds(s.offset, day, windows, cursorMinute, later);
      day, weekday, cursorMinute := day + 1, (weekday + 1) % 7, 0;
    }
    WalkEnds(consume, state, s, day, cursorMinute);
    r := Raise(ShopNeverOpen);
  }

  lemma DayEnds(offset: int, day: int, windows: seq<Span>, cursor: int, later: seq<Slot>)
    ensures DaySlots(offset, day, windows[|windows|..], cursor) + later == later
  {
  }

  lemma WalkEnds<S, R>(consume: (S, Slot) -> (S, Option<R>), state: S, s: Schedule, day: int, cursor: int)
    ensures Run(consume, state, SlotsFrom(s, day, cursor, day)) == (state, None)
  {
  }

  // ---------- the steps and the operations ----------

  function MinuteStep(): (int, Slot) -> (int, Option<int>) {
    (remaining: int, slot: Slot) =>
      if remaining == 0 then (0, Some(slot.openedMs))
      else if remaining < slot.minutes then (remaining, Some(slot.openedMs + remaining * MS_PER_MINUTE))
      else if remaining == slot.minutes then (0, Some(slot.closesMs))
      else (remaining - slot.minutes, None)
  }

  function AddWorkingMinutes(s: Schedule, from: int, minutes: real): Result<int> {
    if minutes < 0.0 then Raise(InvalidDuration)
    else Walk(s, from, MinuteStep(), Ceil(minutes)).1
  }

  method AddWorkingMinutesByWalk(s: Schedule, from: int, minutes: real) returns (r: Result<int>)
    ensures r == AddWorkingMinutes(s, from, minutes)
  {
    if minutes < 0.0 {
      return Raise(InvalidDuration);
    }
    var _, result := WalkOpenTime(s, from, MinuteStep(), Ceil(minutes));
    return result;
  }

  function OpeningStep(from: int): (int, Slot) -> (int, Option<int>) {
    (remaining: int, slot: Slot) =>
      var start := Max(slot.openedMs, from);
      var available := slot.closesMs - start;
      if remaining <= available then (remaining, Some(start + remaining))
      else (remaining - available, None)
  }

  function AddOpeningMilliseconds(s: Schedule, from: int, duration: int): Result<int> {
    if duration < 0 || duration > MAX_SAFE_INTEGER then Raise(InvalidDuration)
    else Walk(s, from, OpeningStep(from), duration).1
  }

  method AddOpeningMillisecondsByWalk(s: Schedule, from: int, duration: int) returns (r: Result<int>)
    ensures r == AddOpeningMilliseconds(s, from, duration)
  {
    if duration < 0 || duration > MAX_SAFE_INTEGER {
      return Raise(InvalidDuration);
    }
    var _, result := WalkOpenTime(s, from, OpeningStep(from), duration);
    return result;
  }

  function BetweenStep(to: int): (int, Slot) -> (int, Option<int>) {
    (total: int, slot: Slot) =>
      if slot.openedMs >= to then (total, Some(total))
      else
        var next := total + Max(0, RoundMinutes(Min(slot.closesMs, to) - slot.openedMs));
        (next, if slot.closesMs >= to then Some(next) else None)
  }

  function WorkingMinutesBetween(s: Schedule, from: int, to: int): Result<int> {
    if to <= from then Ok(0)
    else
      var (total, walked) := Walk(s, from, BetweenStep(to), 0);
      if walked.Ok? then Ok(total) else Raise(walked.error)
  }

  method WorkingMinutesBetweenByWalk(s: Schedule, from: int, to: int) returns (r: Result<int>)
    ensures r == WorkingMinutesBetween(s, from, to)
  {
    if to <= from {
      return Ok(0);
    }
    var total, walked := WalkOpenTime(s, from, BetweenStep(to), 0);
    return if walked.Ok? then Ok(total) else Raise(walked.error);
  }

  function DayStep(days: int): ((int, Option<int>), Slot) -> ((int, Option<int>), Option<int>) {
    (state: (int, Option<int>), slot: Slot) =>
      var next := if state.1 == Some(slot.day) then state else (state.0 + 1, Some(slot.day));
      (next, if next.0 >= days then Some(slot.closesMs) else None)
  }

  function AddWorkingDays(s: Schedule, from: int, days: int): Result<int> {
    if days < 0 then Raise(InvalidDuration)
    else Walk(s, from, DayStep(days), (-1, None)).1
  }

  method AddWorkingDaysByWalk(s: Schedule, from: int, days: int) returns (r: Result<int>)
    ensures r == AddWorkingDays(s, from, days)
  {
    if days < 0 {
      return Raise(InvalidDuration);
    }
    var _, result := WalkOpenTime(s, from, DayStep(days), (-1, None));
    return result;
  }

  // ---------- the unbounded loop counts exactly the open milliseconds ----------

  ghost function Clip(x: int, lo: int, hi: int): int { Max(lo, Min(hi, x)) }

  /** The instant up to which windows[..i] of a day account for its opening time. */
  ghost function Frontier(s: Schedule, day: int, windows: seq<Span>, i: nat): int
    requires i <= |windows|
  {
    InstantAt(day, if i == 0 then 0 else windows[i - 1].closes, s.offset)
  }

  /** Between one window's close and the next window's opening the shop is shut; inside, open. */
  lemma WindowGap(s: Schedule, day: int, i: nat)
    requires ValidSchedule(s)
    requires i <= |WindowsOn(s, day, WeekdayOf(day))|
    ensures var windows := WindowsOn(s, day, WeekdayOf(day));
            var opens := if i < |windows| then InstantAt(day, windows[i].opens, s.offset)
                         else InstantAt(day + 1, 0, s.offset);
            && Frontier(s, day, windows, i) <= opens
            && Shut(s, Frontier(s, day, windows, i), opens)
            && (i < |windows| ==> AllOpen(s, opens, InstantAt(day, windows[i].closes, s.offset)))
  {
    var windows := WindowsOn(s, day, WeekdayOf(day));
    WindowsOrdered(s, day, WeekdayOf(day));
    var opens := if i < |windows| then InstantAt(day, windows[i].opens, s.offset)
                 else InstantAt(day + 1, 0, s.offset);
    assert i > 0 ==> SpanOk(windows[i - 1]);
    assert i < |windows| ==> SpanOk(windows[i]);
    forall t | Frontier(s, day, windows, i) <= t < opens ensures !IsOpenAt(s, t) {
      OpenOnDay(s, t, day);
      forall j | 0 <= j < |windows|
        ensures !(InstantAt(day, windows[j].opens, s.offset) <= t < InstantAt(day, windows[j].closes, s.offset))
      {
        assert j < i - 1 ==> windows[j].closes <= windows[i - 1].opens;
        assert i < j ==> windows[i].closes <= windows[j].opens;
      }
    }
    if i < |windows| {
      forall t | opens <= t < InstantAt(day, windows[i].closes, s.offset) ensures IsOpenAt(s, t) {
        OpenOnDay(s, t, day);
      }
    }
  }

  ghost predicate Shut(s: Schedule, a: int, b: int) { forall t | a <= t < b :: !IsOpenAt(s, t) }

  ghost predicate AllOpen(s: Schedule, a: int, b: int) { forall t | a <= t < b :: IsOpenAt(s, t) }

  /** Counting up to a clipped instant across one shut gap and one open window. */
  lemma CountAcross(s: Schedule, start: int, end: int, a: int, b: int, c: int)
    requires start <= end && a <= b <= c && Shut(s, a, b) && AllOpen(s, b, c)
    ensures CountOpen(s, start, Clip(c, start, end))
         == CountOpen(s, start, Clip(a, start, end)) + Max(0, Min(end, c) - Max(start, b))
  {
    hide IsOpenAt, CountOpen;
    var a', b', c' := Clip(a, start, end), Clip(b, start, end), Clip(c, start, end);
    SplitCount(s, start, a', b');
    SplitCount(s, start, b', c');
    CountShut(s, a', b');
    CountAllOpen(s, b', c');
  }

  lemma CountWindow(s: Schedule, start: int, end: int, day: int, i: nat)
    requires ValidSchedule(s) && start <= end && i < |WindowsOn(s, day, WeekdayOf(day))|
    ensures var windows := WindowsOn(s, day, WeekdayOf(day));
            var opens := InstantAt(day, windows[i].opens, s.offset);
            var closes := InstantAt(day, windows[i].closes, s.offset);
            var before := CountOpen(s, start, Clip(Frontier(s, day, windows, i), start, end));
            var after := CountOpen(s, start, Clip(Frontier(s, day, windows, i + 1), start, end));
            after == before + Max(0, Min(end, closes) - Max(start, opens))
  {
    hide WindowsOn, ValidSchedule, CountOpen, Shut, AllOpen, Clip;
    var windows := WindowsOn(s, day, WeekdayOf(day));
    WindowGap(s, day, i);
    WindowsOrdered(s, day, WeekdayOf(day));
    assert SpanOk(windows[i]);
    CountAcross(s, start, end, Frontier(s, day, windows, i), InstantAt(day, windows[i].opens, s.offset),
                InstantAt(day, windows[i].closes, s.offset));
  }

  lemma CountDayEnd(s: Schedule, start: int, end: int, day: int)
    requires ValidSchedule(s) && start <= end
    ensures var windows := WindowsOn(s, day, WeekdayOf(day));
            var before := CountOpen(s, start, Clip(Frontier(s, day, windows, |windows|), start, end));
            before == CountOpen(s, start, Clip(InstantAt(day + 1, 0, s.offset), start, end))
  {
    hide WindowsOn, ValidSchedule, CountOpen, Shut, Clip;
    var windows := WindowsOn(s, day, WeekdayOf(day));
    WindowGap(s, day, |windows|);
    var next := InstantAt(day + 1, 0, s.offset);
    NothingOpen(s, next);
    CountAcross(s, start, end, Frontier(s, day, windows, |windows|), next, next);
  }

  lemma NothingOpen(s: Schedule, t: int)
    ensures AllOpen(s, t, t)
  {
  }

  method OpeningMillisecondsBetween(s: Schedule, start: int, end: int) returns (r: Result<int>)
    ensures !ValidSchedule(s) ==> r == Raise(InvalidSchedule)
    ensures ValidSchedule(s) ==> r == Ok(CountOpen(s, start, end))
  {
    hide WindowsOn, ValidSchedule, CountOpen, LocalDay;
    if !ValidSchedule(s) {
      return Raise(InvalidSchedule);
    }
    if end <= start {
      CountShut(s, start, end);
      return Ok(0);
    }
    var day := LocalDay(start, s.offset);
    var weekday := WeekdayOf(day);
    var total := 0;
    DayBounds(start, day, s.offset);
    CountShut(s, start, start);
    while InstantAt(day, 0, s.offset) < end
      invariant weekday == WeekdayOf(day)
      invariant total == CountOpen(s, start, Clip(InstantAt(day, 0, s.offset), start, end))
      decreases end - InstantAt(day, 0, s.offset)
    {
      var windows := WindowsOn(s, day, weekday);
      for i := 0 to |windows|
        invariant total == CountOpen(s, start, Clip(Frontier(s, day, windows, i), start, end))
      {
        CountWindow(s, start, end, day, i);
        var opens, closes := InstantAt(day, windows[i].opens, s.offset), InstantAt(day, windows[i].closes, s.offset);
        total := total + Max(0, Min(end, closes) - Max(start, opens));
      }
      CountDayEnd(s, start, end, day);
      day, weekday := day + 1, (weekday + 1) % 7;
    }
    assert Clip(InstantAt(day, 0, s.offset), start, end) == end;
    return Ok(total);
  }

  // ---------- the slots of the walk are the open time ahead ----------

  /** The slots, cut at `from`, are exactly the open time of [lo, hi), in order. */
  ghost predicate Covers(s: Schedule, from: int, lo: int, slots: seq<Slot>, hi: int)
    decreases |slots|
  {
    if slots == [] then lo <= hi && Shut(s, lo, hi)
    else
      var start, closes := Max(slots[0].openedMs, from), slots[0].closesMs;
      && lo <= start < closes
      && Shut(s, lo, start) && AllOpen(s, start, closes)
      && Covers(s, from, closes, slots[1..], hi)
  }

  lemma {:induction false} CoversConcat(s: Schedule, from: int, lo: int, xs: seq<Slot>, mid: int,
                                      ys: seq<Slot>, hi: int)
    requires Covers(s, from, lo, xs, mid) && Covers(s, from, mid, ys, hi)
    ensures Covers(s, from, lo, xs + ys, hi)
    decreases |xs|
  {
    if xs == [] {
      assert xs + ys == ys;
    } else {
      CoversConcat(s, from, xs[0].closesMs, xs[1..], mid, ys, hi);
      assert (xs + ys)[1..] == xs[1..] + ys;
    }
  }

  /** How the cursor minute of a day relates to the instant the walk started at. */
  ghost predicate CursorFits(s: Schedule, from: int, day: int, cursor: int) {
    || InstantAt(day, cursor, s.offset) <= from < InstantAt(day, cursor + 1, s.offset)
       <= InstantAt(day + 1, 0, s.offset)
    || (cursor == 0 && from <= InstantAt(day, 0, s.offset))
  }

  /** One more window in front: open from o to c, shut since f, and cut at the instant `cursor`. */
  lemma CoverWindow(s: Schedule, from: int, f: int, o: int, c: int, cursor: int, slot: Slot, rest: seq<Slot>, hi: int)
    requires f <= o < c && Shut(s, f, o) && AllOpen(s, o, c) && Covers(s, from, Max(from, c), rest, hi)
    requires (cursor <= from && (cursor < c ==> from < c)) || (cursor <= f && from <= f)
    requires slot.openedMs == Max(o, cursor) && slot.closesMs == c
    ensures Covers(s, from, Max(from, f), if cursor < c then [slot] + rest else rest, hi)
  {
    hide IsOpenAt;
    assert ([slot] + rest)[1..] == rest;
  }

  lemma {:induction false} DayCovered(s: Schedule, from: int, day: int, cursor: int, i: nat)
    requires ValidSchedule(s) && CursorFits(s, from, day, cursor)
    requires i <= |WindowsOn(s, day, WeekdayOf(day))|
    ensures var windows := WindowsOn(s, day, WeekdayOf(day));
            Covers(s, from, Max(from, Frontier(s, day, windows, i)),
                   DaySlots(s.offset, day, windows[i..], cursor), InstantAt(day + 1, 0, s.offset))
    decreases |WindowsOn(s, day, WeekdayOf(day))| - i
  {
    hide WindowsOn, ValidSchedule, IsOpenAt, WeekdayOf;
    var windows, hi := WindowsOn(s, day, WeekdayOf(day)), InstantAt(day + 1, 0, s.offset);
    WindowsOrdered(s, day, WeekdayOf(day));
    WindowGap(s, day, i);
    if i < |windows| {
      hide Covers, Shut, AllOpen;
      DayCovered(s, from, day, cursor, i + 1);
      assert windows[i..][1..] == windows[i + 1..];
      assert SpanOk(windows[i]);
      CoverWindow(s, from, Frontier(s, day, windows, i), InstantAt(day, windows[i].opens, s.offset),
                  InstantAt(day, windows[i].closes, s.offset), InstantAt(day, cursor, s.offset),
                  SlotOf(s.offset, day, windows[i], cursor), DaySlots(s.offset, day, windows[i + 1..], cursor), hi);
    }
  }

  lemma {:induction false} DaysCovered(s: Schedule, from: int, day: int, cursor: int, end: int)
    requires ValidSchedule(s) && CursorFits(s, from, day, cursor) && day <= end
    requires day == end ==> from <= InstantAt(day, 0, s.offset)
    ensures Covers(s, from, Max(from, InstantAt(day, 0, s.offset)),
                   SlotsFrom(s, day, cursor, end), InstantAt(end, 0, s.offset))
    decreases end - day
  {
    hide WindowsOn, ValidSchedule, IsOpenAt, CountOpen, Shut, AllOpen, DaySlots, Covers;
    if day < end {
      var windows := WindowsOn(s, day, WeekdayOf(day));
      DayCovered(s, from, day, cursor, 0);
      assert windows[0..] == windows;
      var next := InstantAt(day + 1, 0, s.offset);
      DaysCovered(s, from, day + 1, 0, end);
      CoversConcat(s, from, Max(from, InstantAt(day, 0, s.offset)), DaySlots(s.offset, day, windows, cursor), next,
                   SlotsFrom(s, day + 1, 0, end), InstantAt(end, 0, s.offset));
    } else {
      CoversNothing(s, from, InstantAt(day, 0, s.offset));
    }
  }

  lemma CoversNothing(s: Schedule, from: int, lo: int)
    ensures Covers(s, from, lo, [], lo)
  {
  }

  /** Where the 366-day walk from an instant ends. */
  ghost function Horizon(s: Schedule, from: int): int {
    InstantAt(LocalDay(from, s.offset) + MAX_WALK_DAYS, 0, s.offset)
  }

  lemma CursorAtStart(s: Schedule, from: int)
    ensures CursorFits(s, from, LocalDay(from, s.offset), LocalMinute(from, s.offset))
    ensures InstantAt(LocalDay(from, s.offset), 0, s.offset) <= from < Horizon(s, from)
    ensures InstantAt(LocalDay(from, s.offset), LocalMinute(from, s.offset), s.offset) == FloorMinute(from)
    ensures 0 <= LocalMinute(from, s.offset) < MINUTES_PER_DAY
  {
    var day, minute := LocalDay(from, s.offset), LocalMinute(from, s.offset);
    DayBounds(from, day, s.offset);
    MinuteBounds(from, day, minute, s.offset);
    MinuteBounds(from, day, minute + 1, s.offset);
    MinuteBounds(from, day, 0, s.offset);
    MinuteBounds(from, day, MINUTES_PER_DAY, s.offset);
  }

  /** The walk ends at a local midnight, 366 days after the one its starting day began at. */
  lemma HorizonMeaning(s: Schedule, from: int)
    ensures (Horizon(s, from) + s.offset * 60_000) % 86_400_000 == 0
    ensures from + 365 * 86_400_000 < Horizon(s, from) <= from + 366 * 86_400_000
  {
    var local := from + s.offset * 60_000;
    assert Horizon(s, from) + s.offset * 60_000 == (local / 86_400_000 + 366) * 86_400_000;
  }

  lemma WalkCovered(s: Schedule, from: int)
    requires ValidSchedule(s)
    ensures Covers(s, from, from, WalkSlots(s, from), Horizon(s, from))
  {
    hide ValidSchedule, Covers, CursorFits, LocalDay, LocalMinute, SlotsFrom;
    CursorAtStart(s, from);
    var day := LocalDay(from, s.offset);
    DaysCovered(s, from, day, LocalMinute(from, s.offset), day + MAX_WALK_DAYS);
  }

  // ---------- adding opening time inverts counting it ----------

  /** t is where `d` open milliseconds counted from `lo` are used up (the first open instant for 0). */
  ghost predicate Reached(s: Schedule, lo: int, d: int, t: int) {
    && lo <= t && CountOpen(s, lo, t) == d
    && (if d == 0 then IsOpenAt(s, t) else lo < t && IsOpenAt(s, t - 1))
  }

  lemma {:induction false} RunOpening(s: Schedule, from: int, lo: int, slots: seq<Slot>, hi: int, d: int)
    requires Covers(s, from, lo, slots, hi) && 0 <= d
    ensures lo <= hi
    ensures var r := Run(OpeningStep(from), d, slots).1;
            && (r.Some? <==> CountOpen(s, lo, hi) >= Max(d, 1))
            && (r.Some? ==> Reached(s, lo, d, r.value) && r.value <= hi)
    decreases |slots|
  {
    hide IsOpenAt, CountOpen;
    if slots == [] {
      CountShut(s, lo, hi);
    } else {
      var start, closes := Max(slots[0].openedMs, from), slots[0].closesMs;
      RunOpening(s, from, closes, slots[1..], hi, Max(0, d - (closes - start)));
      CountShut(s, lo, start);
      CountAllOpen(s, start, closes);
      SplitCount(s, lo, start, closes);
      SplitCount(s, lo, closes, hi);
      var r := Run(OpeningStep(from), d, slots).1;
      if d <= closes - start {
        var t := start + d;
        CountAllOpen(s, start, t);
        SplitCount(s, lo, start, t);
      } else if r.Some? {
        SplitCount(s, lo, closes, r.value);
      }
    }
  }

  lemma ReachedIsLeast(s: Schedule, lo: int, d: int, t: int, lo': int, d': int, t': int)
    requires Reached(s, lo, d, t) && Reached(s, lo', d', t') && lo <= lo' && d <= d'
    ensures t <= t'
  {
    hide IsOpenAt, CountOpen;
    if t' < t {
      SplitCount(s, lo, lo', t');
      SplitCount(s, lo, t', t);
      if d == 0 {
        var open := if d' == 0 then t' else t' - 1;
        SplitCount(s, lo, open, t);
        SplitCount(s, open, open + 1, t);
        CountAllOpen(s, open, open + 1);
      } else {
        SplitCount(s, t', t - 1, t);
        CountAllOpen(s, t - 1, t);
      }
    }
  }

  /** Adding succeeds exactly when the walk holds enough open time, and gives the least instant counting d. */
  lemma AddOpeningExact(s: Schedule, from: int, d: int)
    requires ValidSchedule(s) && 0 <= d <= 9_007_199_254_740_991
    ensures var r := AddOpeningMilliseconds(s, from, d);
            && (r.Ok? <==> CountOpen(s, from, Horizon(s, from)) >= Max(d, 1))
            && (r.Raise? ==> r.error == ShopNeverOpen)
            && (r.Ok? ==> Reached(s, from, d, r.value) && from <= r.value <= Horizon(s, from))
            && (r.Ok? && d > 0 ==> forall u | from <= u && CountOpen(s, from, u) == d :: r.value <= u)
            && (r.Ok? && d == 0 ==> IsOpenAt(s, r.value) && Shut(s, from, r.value))
  {
    hide IsOpenAt, CountOpen, ValidSchedule, Run, WalkSlots, OpeningStep;
    WalkCovered(s, from);
    RunOpening(s, from, from, WalkSlots(s, from), Horizon(s, from), d);
    var r := AddOpeningMilliseconds(s, from, d);
    if r.Ok? {
      var t := r.value;
      forall u | from <= u < t ensures d > 0 ==> CountOpen(s, from, u) != d {
        if d > 0 {
          SplitCount(s, from, u, t - 1);
          SplitCount(s, from, t - 1, t);
          CountAllOpen(s, t - 1, t);
        }
      }
      if d == 0 {
        forall u | from <= u < t ensures !IsOpenAt(s, u) {
          SplitCount(s, from, u, t);
          SplitCount(s, u, u + 1, t);
          if IsOpenAt(s, u) { CountAllOpen(s, u, u + 1); }
        }
      }
    }
  }

  /** Adding a then b is adding a + b. */
  lemma AddOpeningComposes(s: Schedule, from: int, a: int, b: int)
    requires ValidSchedule(s) && 0 <= a && 0 < b && AddOpeningMilliseconds(s, from, a + b).Ok?
    ensures var first := AddOpeningMilliseconds(s, from, a);
            first.Ok? && AddOpeningMilliseconds(s, first.value, b) == AddOpeningMilliseconds(s, from, a + b)
  {
    hide IsOpenAt, CountOpen, ValidSchedule, Run, WalkSlots;
    AddOpeningExact(s, from, a + b);
    AddOpeningExact(s, from, a);
    var mid := AddOpeningMilliseconds(s, from, a).value;
    SplitCount(s, from, mid, Horizon(s, from));
    CursorAtStart(s, mid);
    SplitCount(s, mid, Horizon(s, from), Horizon(s, mid));
    AddOpeningExact(s, mid, b);
    var last := AddOpeningMilliseconds(s, mid, b).value;
    SplitCount(s, from, mid, last);
    ReachedIsLeast(s, from, a + b, last, from, a + b, AddOpeningMilliseconds(s, from, a + b).value);
    ReachedIsLeast(s, from, a + b, AddOpeningMilliseconds(s, from, a + b).value, from, a + b, last);
  }

  /** A later start or a longer duration never finishes earlier. */
  lemma AddOpeningMonotone(s: Schedule, from: int, d: int, from': int, d': int)
    requires from <= from' && d <= d'
    requires AddOpeningMilliseconds(s, from, d).Ok? && AddOpeningMilliseconds(s, from', d').Ok?
    ensures AddOpeningMilliseconds(s, from, d).value <= AddOpeningMilliseconds(s, from', d').value
  {
    AddOpeningExact(s, from, d);
    AddOpeningExact(s, from', d');
    ReachedIsLeast(s, from, d, AddOpeningMilliseconds(s, from, d).value,
                   from', d', AddOpeningMilliseconds(s, from', d').value);
  }

  // ---------- whole minutes ----------

  /** Slots follow each other from lo and last a positive whole number of minutes. */
  ghost predicate InMinutes(slots: seq<Slot>, lo: int) {
    slots == [] ||
    (&& lo <= slots[0].openedMs && 0 < slots[0].minutes
     && slots[0].closesMs == slots[0].openedMs + slots[0].minutes * MS_PER_MINUTE
     && InMinutes(slots[1..], slots[0].closesMs))
  }

  lemma {:induction false} DayInMinutes(offset: int, day: int, windows: seq<Span>, cursor: int, lo: int,
                                      rest: seq<Slot>)
    requires Ordered(windows)
    requires windows != [] ==> lo <= InstantAt(day, Max(windows[0].opens, cursor), offset)
    requires InMinutes(rest, InstantAt(day + 1, 0, offset)) && lo <= InstantAt(day + 1, 0, offset)
    ensures InMinutes(DaySlots(offset, day, windows, cursor) + rest, lo)
    decreases |windows|
  {
    hide Ordered;
    if windows == [] {
      assert DaySlots(offset, day, windows, cursor) + rest == rest;
      InMinutesEarlier(rest, lo, InstantAt(day + 1, 0, offset));
    } else {
      OrderedTail(windows);
      var tail, closes := windows[1..], windows[0].closes;
      if Max(windows[0].opens, cursor) >= closes {
        DayInMinutes(offset, day, tail, cursor, lo, rest);
      } else {
        DayInMinutes(offset, day, tail, cursor, InstantAt(day, closes, offset), rest);
        var later := DaySlots(offset, day, tail, cursor) + rest;
        assert DaySlots(offset, day, windows, cursor) + rest == [SlotOf(offset, day, windows[0], cursor)] + later;
        InMinutesCons(SlotOf(offset, day, windows[0], cursor), later, lo);
      }
    }
  }

  lemma OrderedTail(windows: seq<Span>)
    requires Ordered(windows) && windows != []
    ensures SpanOk(windows[0]) && Ordered(windows[1..])
    ensures |windows| > 1 ==> windows[0].closes <= windows[1].opens
  {
  }

  lemma InMinutesEarlier(slots: seq<Slot>, lo: int, later: int)
    requires InMinutes(slots, later) && lo <= later
    ensures InMinutes(slots, lo)
  {
  }

  lemma InMinutesCons(slot: Slot, rest: seq<Slot>, lo: int)
    requires InMinutes(rest, slot.closesMs) && lo <= slot.openedMs && 0 < slot.minutes
    requires slot.closesMs == slot.openedMs + slot.minutes * MS_PER_MINUTE
    ensures InMinutes([slot] + rest, lo)
  {
    assert ([slot] + rest)[1..] == rest;
  }

  lemma {:induction false} SlotsInMinutes(s: Schedule, day: int, cursor: int, end: int)
    requires ValidSchedule(s) && 0 <= cursor < MINUTES_PER_DAY
    ensures InMinutes(SlotsFrom(s, day, cursor, end), InstantAt(day, cursor, s.offset))
    decreases end - day
  {
    if day < end {
      SlotsInMinutes(s, day + 1, 0, end);
      WindowsOrdered(s, day, WeekdayOf(day));
      DayInMinutes(s.offset, day, WindowsOn(s, day, WeekdayOf(day)), cursor, InstantAt(day, cursor, s.offset),
                   SlotsFrom(s, day + 1, 0, end));
    }
  }

  lemma WalkInMinutes(s: Schedule, from: int)
    requires ValidSchedule(s)
    ensures InMinutes(WalkSlots(s, from), FloorMinute(from))
    ensures WalkSlots(s, FloorMinute(from)) == WalkSlots(s, from)
  {
    CursorAtStart(s, from);
    var day, minute, floor := LocalDay(from, s.offset), LocalMinute(from, s.offset), FloorMinute(from);
    SlotsInMinutes(s, day, minute, day + MAX_WALK_DAYS);
    DayBounds(floor, day, s.offset);
    MinuteBounds(floor, day, minute, s.offset);
    MinuteBounds(floor, day, minute + 1, s.offset);
  }

  lemma {:induction false} MinutesAreMilliseconds(slots: seq<Slot>, lo: int, floor: int, n: int)
    requires InMinutes(slots, lo) && floor <= lo && 0 <= n
    ensures Run(MinuteStep(), n, slots).1 == Run(OpeningStep(floor), n * MS_PER_MINUTE, slots).1
    decreases |slots|
  {
    if slots != [] && n > slots[0].minutes {
      MinutesAreMilliseconds(slots[1..], slots[0].closesMs, floor, n - slots[0].minutes);
    }
  }

  /** Adding working minutes is adding exact opening time from the start of the minute, rounded up. */
  lemma WorkingMinutesAreOpeningTime(s: Schedule, from: int, minutes: real)
    requires ValidSchedule(s) && minutes >= 0.0 && Ceil(minutes) * MS_PER_MINUTE <= MAX_SAFE_INTEGER
    ensures AddWorkingMinutes(s, from, minutes)
         == AddOpeningMilliseconds(s, FloorMinute(from), Ceil(minutes) * MS_PER_MINUTE)
    ensures FloorMinute(from) % 60_000 == 0 && FloorMinute(from) <= from < FloorMinute(from) + 60_000
  {
    hide Run, WalkSlots, InMinutes, MinuteStep, OpeningStep, ValidSchedule;
    WalkInMinutes(s, from);
    MinutesAreMilliseconds(WalkSlots(s, from), FloorMinute(from), FloorMinute(from), Ceil(minutes));
  }

  /** A success means the minutes fit the walk, so the durations stay exact integers. */
  lemma WorkingMinutesSafe(s: Schedule, from: int, minutes: real)
    requires AddWorkingMinutes(s, from, minutes).Ok?
    ensures Ceil(minutes) * MS_PER_MINUTE <= MAX_SAFE_INTEGER
  {
    var n := Ceil(minutes) * MS_PER_MINUTE;
    WalkInMinutes(s, from);
    MinutesAreMilliseconds(WalkSlots(s, from), FloorMinute(from), FloorMinute(from), Ceil(minutes));
    var floor := FloorMinute(from);
    WalkCovered(s, floor);
    RunOpening(s, floor, floor, WalkSlots(s, floor), Horizon(s, floor), n);
    CursorAtStart(s, floor);
    CountBounded(s, floor, Horizon(s, floor));
  }

  lemma {:induction false} CountBounded(s: Schedule, a: int, b: int)
    requires a <= b
    ensures CountOpen(s, a, b) <= b - a
    decreases b - a
  {
    hide IsOpenAt, CountOpen;
    if a == b {
      CountShut(s, a, b);
    } else {
      CountBounded(s, a, b - 1);
      SplitCount(s, a, b - 1, b);
      if IsOpenAt(s, b - 1) { CountAllOpen(s, b - 1, b); } else { CountShut(s, b - 1, b); }
    }
  }

  lemma {:induction false} MinutesPair(slots: seq<Slot>, lo: int, n: int, to: int, total: int)
    requires InMinutes(slots, lo) && 0 <= n && 0 <= total && Run(MinuteStep(), n, slots).1 == Some(to)
    ensures slots != [] && slots[0].openedMs + (if n == 0 then 0 else MS_PER_MINUTE) <= to
    ensures Run(BetweenStep(to), total, slots) == (total + n, Some(total + n))
    decreases |slots|
  {
    if n > slots[0].minutes {
      MinutesPair(slots[1..], slots[0].closesMs, n - slots[0].minutes, to, total + slots[0].minutes);
    }
  }

  /** Whatever the start, seconds included, the minutes added are the minutes found between. */
  lemma WorkingMinutesInverse(s: Schedule, from: int, minutes: real)
    requires AddWorkingMinutes(s, from, minutes).Ok?
    ensures WorkingMinutesBetween(s, from, AddWorkingMinutes(s, from, minutes).value) == Ok(Ceil(minutes))
    ensures Ceil(minutes) as real - 1.0 < minutes <= Ceil(minutes) as real
  {
    WalkInMinutes(s, from);
    MinutesPair(WalkSlots(s, from), FloorMinute(from), Ceil(minutes), AddWorkingMinutes(s, from, minutes).value, 0);
  }

  lemma RoundMore(m: int, x: int)
    ensures RoundMinutes(m * MS_PER_MINUTE + x) == m + RoundMinutes(x)
  {
  }

  lemma CountCons(s: Schedule, lo: int, open: int, close: int, to: int)
    requires lo <= open < close && Shut(s, lo, open) && AllOpen(s, open, close)
    ensures close <= to ==> CountOpen(s, lo, to) == close - open + CountOpen(s, close, to)
    ensures open <= to <= close ==> CountOpen(s, lo, to) == to - open
    ensures lo <= to <= open ==> CountOpen(s, lo, to) == 0
  {
    hide IsOpenAt, CountOpen;
    CountShut(s, lo, open);
    if close <= to {
      SplitCount(s, lo, open, to);
      SplitCount(s, open, close, to);
      CountAllOpen(s, open, close);
    }
    if open <= to <= close {
      SplitCount(s, lo, open, to);
      CountAllOpen(s, open, to);
    }
    if lo <= to <= open {
      CountShut(s, lo, to);
    }
  }

  /** Some instant of [a, b) is open. */
  ghost predicate SomeOpen(s: Schedule, a: int, b: int) { exists t :: a <= t < b && IsOpenAt(s, t) }

  lemma {:induction false} BetweenRun(s: Schedule, floor: int, lo: int, slots: seq<Slot>, hi: int, to: int, total: int)
    requires Covers(s, floor, lo, slots, hi) && InMinutes(slots, lo) && floor <= lo < to
    ensures lo <= hi
    ensures var (sum, r) := Run(BetweenStep(to), total, slots);
            && (r.Some? <==> SomeOpen(s, to - 1, hi))
            && (r.Some? ==> sum == total + RoundMinutes(CountOpen(s, lo, to)))
    decreases |slots|
  {
    hide IsOpenAt, CountOpen;
    if slots != [] {
      var slot := slots[0];
      CountCons(s, lo, slot.openedMs, slot.closesMs, to);
      CoversUpTo(s, floor, slot.closesMs, slots[1..], hi);
      if slot.closesMs < to {
        BetweenRun(s, floor, slot.closesMs, slots[1..], hi, to, total + slot.minutes);
        RoundMore(slot.minutes, CountOpen(s, slot.closesMs, to));
        RoundMore(slot.minutes, 0);
      } else {
        assert IsOpenAt(s, Max(slot.openedMs, to - 1));
      }
    }
  }

  lemma {:induction false} CoversUpTo(s: Schedule, from: int, lo: int, slots: seq<Slot>, hi: int)
    requires Covers(s, from, lo, slots, hi)
    ensures lo <= hi
    decreases |slots|
  {
    if slots != [] {
      CoversUpTo(s, from, slots[0].closesMs, slots[1..], hi);
    }
  }

  /**
   * The minutes between are the opening time from the start of the first minute, rounded half up to
   * the nearest minute. It fails exactly when the walk holds no open instant from the last millisecond
   * before `to` on.
   */
  lemma WorkingMinutesMeaning(s: Schedule, from: int, to: int)
    requires ValidSchedule(s) && from < to
    ensures var r := WorkingMinutesBetween(s, from, to);
            && (r.Ok? <==> SomeOpen(s, to - 1, Horizon(s, from)))
            && (r.Ok? ==>
                  && r.value == RoundMinutes(CountOpen(s, FloorMinute(from), to))
                  && 60_000 * r.value - 30_000 <= CountOpen(s, from - from % 60_000, to) < 60_000 * r.value + 30_000)
            && (r.Raise? ==> r.error == ShopNeverOpen)
  {
    hide ValidSchedule, IsOpenAt, CountOpen, Run, WalkSlots, BetweenStep, SomeOpen;
    var floor := FloorMinute(from);
    WalkInMinutes(s, from);
    WalkCovered(s, floor);
    FloorHorizon(s, from);
    BetweenRun(s, floor, floor, WalkSlots(s, from), Horizon(s, from), to, 0);
  }

  lemma FloorHorizon(s: Schedule, from: int)
    ensures Horizon(s, FloorMinute(from)) == Horizon(s, from)
  {
    CursorAtStart(s, from);
    var day := LocalDay(from, s.offset);
    DayBounds(FloorMinute(from), day, s.offset);
  }

  /** A later end never counts fewer minutes. */
  lemma WorkingMinutesBetweenMonotone(s: Schedule, from: int, to: int, to': int)
    requires to <= to'
    requires WorkingMinutesBetween(s, from, to).Ok? && WorkingMinutesBetween(s, from, to').Ok?
    ensures 0 <= WorkingMinutesBetween(s, from, to).value <= WorkingMinutesBetween(s, from, to').value
  {
    hide IsOpenAt, CountOpen, WalkSlots;
    if from < to' {
      WorkingMinutesMeaning(s, from, to');
      if from < to {
        WorkingMinutesMeaning(s, from, to);
        SplitCount(s, FloorMinute(from), to, to');
      }
    }
  }

  /** Each operation checks its amount first and the schedule next; an end at or before the start counts nothing. */
  lemma RefusedInputs(s: Schedule, from: int, duration: int, minutes: real, days: int, to: int)
    ensures AddOpeningMilliseconds(s, from, duration) == Raise(InvalidDuration) <==>
              duration < 0 || duration > 9_007_199_254_740_991
    ensures AddWorkingMinutes(s, from, minutes) == Raise(InvalidDuration) <==> minutes < 0.0
    ensures AddWorkingDays(s, from, days) == Raise(InvalidDuration) <==> days < 0
    ensures AddOpeningMilliseconds(s, from, duration) == Raise(InvalidSchedule) <==>
              0 <= duration <= 9_007_199_254_740_991 && !ValidSchedule(s)
    ensures AddWorkingMinutes(s, from, minutes) == Raise(InvalidSchedule) <==> minutes >= 0.0 && !ValidSchedule(s)
    ensures AddWorkingDays(s, from, days) == Raise(InvalidSchedule) <==> days >= 0 && !ValidSchedule(s)
    ensures to <= from ==> WorkingMinutesBetween(s, from, to) == Ok(0)
    ensures from < to ==> (WorkingMinutesBetween(s, from, to) == Raise(InvalidSchedule) <==> !ValidSchedule(s))
  {
    hide Run, WalkSlots, ValidSchedule;
  }

  /** On whole minutes the two ways of adding time agree. */
  lemma WholeMinutesAgree(s: Schedule, from: int, n: nat)
    requires ValidSchedule(s) && from % MS_PER_MINUTE == 0 && n * MS_PER_MINUTE <= MAX_SAFE_INTEGER
    ensures AddWorkingMinutes(s, from, n as real) == AddOpeningMilliseconds(s, from, n * MS_PER_MINUTE)
  {
    assert Ceil(n as real) == n;
    WorkingMinutesAreOpeningTime(s, from, n as real);
  }

  lemma CeilMonotone(x: real, y: real)
    requires x <= y
    ensures Ceil(x) <= Ceil(y)
    ensures 0.0 < x ==> 0 < Ceil(x)
  {
  }

  lemma FloorMonotone(a: int, b: int)
    requires a <= b
    ensures FloorMinute(a) <= FloorMinute(b)
  {
  }

  lemma AddWorkingMinutesMonotone(s: Schedule, from: int, minutes: real, from': int, minutes': real)
    requires from <= from' && minutes <= minutes'
    requires AddWorkingMinutes(s, from, minutes).Ok? && AddWorkingMinutes(s, from', minutes').Ok?
    ensures AddWorkingMinutes(s, from, minutes).value <= AddWorkingMinutes(s, from', minutes').value
  {
    WorkingMinutesSafe(s, from, minutes);
    WorkingMinutesSafe(s, from', minutes');
    WorkingMinutesAreOpeningTime(s, from, minutes);
    WorkingMinutesAreOpeningTime(s, from', minutes');
    CeilMonotone(minutes, minutes');
    FloorMonotone(from, from');
    AddOpeningMonotone(s, FloorMinute(from), Ceil(minutes) * MS_PER_MINUTE,
                       FloorMinute(from'), Ceil(minutes') * MS_PER_MINUTE);
  }

  /** Any positive amount of work ends after it starts. */
  lemma AddWorkingMinutesAdvances(s: Schedule, from: int, minutes: real)
    requires minutes > 0.0 && AddWorkingMinutes(s, from, minutes).Ok?
    ensures from < AddWorkingMinutes(s, from, minutes).value
  {
    CeilMonotone(minutes, minutes);
    WalkInMinutes(s, from);
    MinutesPair(WalkSlots(s, from), FloorMinute(from), Ceil(minutes), AddWorkingMinutes(s, from, minutes).value, 0);
  }

  // ---------- whole open days ----------

  /** The day still has a closing time after `from`. */
  ghost predicate HasClose(s: Schedule, from: int, day: int) {
    exists t :: CloseOn(s, from, day, t)
  }

  /** t is a closing time of that day, after `from`. */
  ghost predicate CloseOn(s: Schedule, from: int, day: int, t: int) {
    from < t && exists w | w in WindowsOn(s, day, WeekdayOf(day)) :: t == InstantAt(day, w.closes, s.offset)
  }

  ghost predicate FirstClose(s: Schedule, from: int, day: int, t: int) {
    CloseOn(s, from, day, t) && forall u | CloseOn(s, from, day, u) :: t <= u
  }

  /** How many days of [a, b) still have a closing time after `from`. */
  ghost function OpenDays(s: Schedule, from: int, a: int, b: int): nat {
    |set d | a <= d < b && HasClose(s, from, d)|
  }

  lemma OpenDaysStep(s: Schedule, from: int, a: int, b: int)
    requires a < b
    ensures OpenDays(s, from, a, b) == (if HasClose(s, from, a) then 1 else 0) + OpenDays(s, from, a + 1, b)
  {
    hide HasClose;
    var all := set d | a <= d < b && HasClose(s, from, d);
    var rest := set d | a + 1 <= d < b && HasClose(s, from, d);
    assert all == (if HasClose(s, from, a) then {a} else {}) + rest;
  }

  /** The first window that is still open after the cursor minute. */
  function FirstOpen(windows: seq<Span>, cursor: int): (k: nat)
    ensures k <= |windows| && (forall i | 0 <= i < k :: windows[i].closes <= cursor)
    ensures k < |windows| ==> cursor < windows[k].closes
  {
    if windows == [] || cursor < windows[0].closes then 0 else 1 + FirstOpen(windows[1..], cursor)
  }

  lemma {:induction false} DaySlotsHead(offset: int, day: int, windows: seq<Span>, cursor: int)
    requires forall i | 0 <= i < |windows| :: SpanOk(windows[i])
    ensures var slots, k := DaySlots(offset, day, windows, cursor), FirstOpen(windows, cursor);
            && (forall i | 0 <= i < |slots| :: slots[i].day == day)
            && (slots == [] <==> k == |windows|)
            && (slots != [] ==> slots[0].closesMs == InstantAt(day, windows[k].closes, offset))
    decreases |windows|
  {
    if windows != [] {
      assert SpanOk(windows[0]);
      DaySlotsHead(offset, day, windows[1..], cursor);
    }
  }

  /** A window closes after `from` exactly when it closes after the cursor minute. */
  lemma CloseAfterCursor(s: Schedule, from: int, day: int, cursor: int, closes: int)
    requires CursorFits(s, from, day, cursor) && 0 < closes
    ensures cursor < closes <==> from < InstantAt(day, closes, s.offset)
  {
  }

  /** A day's slots start with its first closing time after `from`; there are none without one. */
  lemma DayFirstClose(s: Schedule, from: int, day: int, cursor: int)
    requires ValidSchedule(s) && CursorFits(s, from, day, cursor)
    ensures var slots := DaySlots(s.offset, day, WindowsOn(s, day, WeekdayOf(day)), cursor);
            && (forall i | 0 <= i < |slots| :: slots[i].day == day)
            && (slots == [] <==> !HasClose(s, from, day))
            && (slots != [] ==> FirstClose(s, from, day, slots[0].closesMs))
  {
    hide WindowsOn, ValidSchedule, DaySlots, CursorFits, FirstOpen;
    var windows := WindowsOn(s, day, WeekdayOf(day));
    WindowsOrdered(s, day, WeekdayOf(day));
    DaySlotsHead(s.offset, day, windows, cursor);
    var k := FirstOpen(windows, cursor);
    if k < |windows| {
      assert SpanOk(windows[k]);
      CloseAfterCursor(s, from, day, cursor, windows[k].closes);
      assert CloseOn(s, from, day, InstantAt(day, windows[k].closes, s.offset));
    }
    forall u | CloseOn(s, from, day, u)
      ensures k < |windows| && InstantAt(day, windows[k].closes, s.offset) <= u
    {
      var i :| 0 <= i < |windows| && u == InstantAt(day, windows[i].closes, s.offset);
      assert SpanOk(windows[i]);
      CloseAfterCursor(s, from, day, cursor, windows[i].closes);
      assert k < i ==> windows[k].closes <= windows[i].opens;
    }
  }

  lemma NoOpenDays(s: Schedule, from: int, day: int)
    ensures OpenDays(s, from, day, day) == 0
  {
    assert (set d | day <= d < day && HasClose(s, from, d)) == {};
  }

  lemma NthOpenDayBefore(s: Schedule, from: int, day: int, n: int, d: int, t: int)
    requires NthOpenDay(s, from, day + 1, n, d, t)
    ensures NthOpenDay(s, from, day, if HasClose(s, from, day) then n + 1 else n, d, t)
  {
    hide HasClose, FirstClose, OpenDays;
    OpenDaysStep(s, from, day, d);
  }

  /** Once a day has been counted its remaining slots change nothing until the count is reached. */
  lemma {:induction false} SameDayRun(days: int, seen: int, day: int, xs: seq<Slot>, ys: seq<Slot>)
    requires seen < days && forall i | 0 <= i < |xs| :: xs[i].day == day
    ensures Run(DayStep(days), (seen, Some(day)), xs + ys) == Run(DayStep(days), (seen, Some(day)), ys)
  {
    if xs == [] {
      assert xs + ys == ys;
    } else {
      assert (xs + ys)[1..] == xs[1..] + ys;
      SameDayRun(days, seen, day, xs[1..], ys);
    }
  }

  lemma RunHead<S, R>(consume: (S, Slot) -> (S, Option<R>), state: S, slot: Slot, rest: seq<Slot>)
    ensures var (next, verdict) := consume(state, slot);
            Run(consume, state, [slot] + rest) == if verdict.Some? then (next, verdict) else Run(consume, next, rest)
  {
    assert ([slot] + rest)[1..] == rest;
  }

  /** The first slot of a fresh day counts it; the others only pass it by. */
  lemma FreshDayRun(days: int, seen: int, last: Option<int>, day: int, slots: seq<Slot>, later: seq<Slot>)
    requires seen < days && last != Some(day)
    requires slots != [] && forall i | 0 <= i < |slots| :: slots[i].day == day
    ensures Run(DayStep(days), (seen, last), slots + later).1
         == if seen + 1 >= days then Some(slots[0].closesMs)
            else Run(DayStep(days), (seen + 1, Some(day)), later).1
  {
    hide Run;
    assert slots + later == [slots[0]] + (slots[1..] + later);
    RunHead(DayStep(days), (seen, last), slots[0], slots[1..] + later);
    if seen + 1 < days {
      SameDayRun(days, seen + 1, day, slots[1..], later);
    }
  }

  /** t is the first closing time on the day that has exactly n earlier open days from `day` on. */
  ghost predicate NthOpenDay(s: Schedule, from: int, day: int, n: int, d: int, t: int) {
    day <= d && FirstClose(s, from, d, t) && OpenDays(s, from, day, d) == n
  }

  lemma {:induction false} DaysRun(s: Schedule, from: int, day: int, cursor: int, end: int,
                                   days: int, seen: int, last: Option<int>)
    requires ValidSchedule(s) && CursorFits(s, from, day, cursor) && seen < days && day <= end
    requires last.Some? ==> last.value < day
    ensures var r := Run(DayStep(days), (seen, last), SlotsFrom(s, day, cursor, end)).1;
            var n := days - seen - 1;
            && (r.Some? <==> OpenDays(s, from, day, end) > n)
            && (r.Some? ==> exists d :: NthOpenDay(s, from, day, n, d, r.value))
    decreases end - day
  {
    hide WindowsOn, ValidSchedule, HasClose, FirstClose, OpenDays, DaySlots, NthOpenDay, Run, DayStep, CursorFits;
    NoOpenDays(s, from, day);
    if day == end {
      WalkEnds(DayStep(days), (seen, last), s, day, cursor);
    } else {
      DayFirstClose(s, from, day, cursor);
      OpenDaysStep(s, from, day, end);
      CursorNextDay(s, from, day, cursor);
      var slots := DaySlots(s.offset, day, WindowsOn(s, day, WeekdayOf(day)), cursor);
      var later := SlotsFrom(s, day + 1, 0, end);
      var r := Run(DayStep(days), (seen, last), slots + later).1;
      if slots == [] {
        assert slots + later == later;
        DaysRun(s, from, day + 1, 0, end, days, seen, last);
        if r.Some? {
          var d :| NthOpenDay(s, from, day + 1, days - seen - 1, d, r.value);
          NthOpenDayBefore(s, from, day, days - seen - 1, d, r.value);
        }
      } else {
        FreshDayRun(days, seen, last, day, slots, later);
        if seen + 1 < days {
          DaysRun(s, from, day + 1, 0, end, days, seen + 1, Some(day));
          if r.Some? {
            var d :| NthOpenDay(s, from, day + 1, days - seen - 2, d, r.value);
            NthOpenDayBefore(s, from, day, days - seen - 2, d, r.value);
          }
        } else {
          TodayIsNth(s, from, day, slots[0].closesMs);
        }
      }
    }
  }

  lemma CursorNextDay(s: Schedule, from: int, day: int, cursor: int)
    requires CursorFits(s, from, day, cursor)
    ensures CursorFits(s, from, day + 1, 0)
  {
  }

  lemma TodayIsNth(s: Schedule, from: int, day: int, t: int)
    requires FirstClose(s, from, day, t)
    ensures NthOpenDay(s, from, day, 0, day, t)
  {
    NoOpenDays(s, from, day);
  }

  /**
   * Adding n working days gives the first remaining closing time of the open day that has n open
   * days before it, and fails exactly when the walk holds no more than n open days.
   */
  lemma AddWorkingDaysExact(s: Schedule, from: int, days: int)
    requires ValidSchedule(s) && 0 <= days
    ensures var r := AddWorkingDays(s, from, days);
            var today := LocalDay(from, s.offset);
            && (r.Ok? <==> OpenDays(s, from, today, today + 366) > days)
            && (r.Ok? ==> exists d :: NthOpenDay(s, from, today, days, d, r.value))
  {
    hide ValidSchedule, HasClose, OpenDays, Run, NthOpenDay, DayStep, SlotsFrom;
    CursorAtStart(s, from);
    var today := LocalDay(from, s.offset);
    DaysRun(s, from, today, LocalMinute(from, s.offset), today + MAX_WALK_DAYS, days, -1, None);
  }

  // ---------- when a working day's result is the day's end ----------

  ghost predicate LastClose(s: Schedule, from: int, day: int, t: int) {
    CloseOn(s, from, day, t) && forall u | CloseOn(s, from, day, u) :: u <= t
  }

  /** The instants at which the windows of a day close. */
  function Closes(s: Schedule, day: int): (closes: seq<int>)
    ensures |closes| == |WindowsOn(s, day, WeekdayOf(day))|
  {
    var windows := WindowsOn(s, day, WeekdayOf(day));
    seq(|windows|, i requires 0 <= i < |windows| => InstantAt(day, windows[i].closes, s.offset))
  }

  /** Exactly one window of the day still closes after `from`. */
  predicate OneWindowLeft(s: Schedule, from: int, day: int) {
    OneAfter(Closes(s, day), from)
  }

  predicate OneAfter(closes: seq<int>, from: int) {
    exists i | 0 <= i < |closes| :: from < closes[i] && forall j | 0 <= j < |closes| && from < closes[j] :: j == i
  }

  predicate Rising(closes: seq<int>) { forall i, j | 0 <= i < j < |closes| :: closes[i] < closes[j] }

  lemma ClosesRise(s: Schedule, day: int)
    requires ValidSchedule(s)
    ensures Rising(Closes(s, day))
  {
    hide ValidSchedule, WindowsOn, WeekdayOf;
    WindowsOrdered(s, day, WeekdayOf(day));
  }

  lemma CloseOnMeans(s: Schedule, from: int, day: int, t: int)
    ensures CloseOn(s, from, day, t) <==> from < t && t in Closes(s, day)
  {
    hide WindowsOn, WeekdayOf, InstantAt;
    var windows := WindowsOn(s, day, WeekdayOf(day));
    if t in Closes(s, day) {
      var i :| 0 <= i < |windows| && Closes(s, day)[i] == t;
      assert windows[i] in windows;
    }
    if CloseOn(s, from, day, t) {
      var i :| 0 <= i < |windows| && t == InstantAt(day, windows[i].closes, s.offset);
      assert Closes(s, day)[i] == t;
    }
  }

  lemma OneAfterMeans(closes: seq<int>, from: int, t: int)
    requires Rising(closes) && t in closes && from < t && forall u | u in closes && from < u :: t <= u
    ensures (forall u | u in closes && from < u :: u <= t) <==> OneAfter(closes, from)
  {
    var i :| 0 <= i < |closes| && closes[i] == t;
    if forall u | u in closes && from < u :: u <= t {
      forall j | 0 <= j < |closes| && from < closes[j]
        ensures j == i
      {
        assert closes[j] in closes;
      }
    }
  }

  lemma FirstIsLast(s: Schedule, from: int, day: int, t: int)
    requires ValidSchedule(s) && FirstClose(s, from, day, t)
    ensures LastClose(s, from, day, t) <==> OneWindowLeft(s, from, day)
  {
    hide ValidSchedule, CloseOn, Closes, OneAfter, Rising;
    ClosesRise(s, day);
    forall u
      ensures CloseOn(s, from, day, u) <==> from < u && u in Closes(s, day)
    {
      CloseOnMeans(s, from, day, u);
    }
    OneAfterMeans(Closes(s, day), from, t);
  }

  /** After the starting day no window has closed yet, so one window left is one window in all. */
  lemma LaterDayWindows(s: Schedule, from: int, day: int)
    requires ValidSchedule(s) && LocalDay(from, s.offset) < day
    ensures OneWindowLeft(s, from, day) <==> |WindowsOn(s, day, WeekdayOf(day))| == 1
  {
    hide Closes, WindowsOn, WeekdayOf, LocalDay, ValidSchedule;
    NoneClosedYet(s, from, day);
    var closes := Closes(s, day);
    if |closes| == 1 {
      assert from < closes[0];
    } else if |closes| > 1 {
      assert from < closes[0] && from < closes[1];
    }
  }

  lemma NoneClosedYet(s: Schedule, from: int, day: int)
    requires ValidSchedule(s) && LocalDay(from, s.offset) < day
    ensures forall i | 0 <= i < |Closes(s, day)| :: from < Closes(s, day)[i]
  {
    hide ValidSchedule, WindowsOn, WeekdayOf;
    WindowsOrdered(s, day, WeekdayOf(day));
    DayBounds(from, LocalDay(from, s.offset), s.offset);
    assert forall i | 0 <= i < |WindowsOn(s, day, WeekdayOf(day))| :: SpanOk(WindowsOn(s, day, WeekdayOf(day))[i]);
  }

  /**
   * The result is the end of the nth open day exactly when one window of that day still closes after
   * `from`: on any day after the first, exactly when that day has one window.
   */
  lemma DayEndExactlyWhen(s: Schedule, from: int, days: int, d: int)
    requires AddWorkingDays(s, from, days).Ok?
    requires NthOpenDay(s, from, LocalDay(from, s.offset), days, d, AddWorkingDays(s, from, days).value)
    ensures LastClose(s, from, d, AddWorkingDays(s, from, days).value) <==> OneWindowLeft(s, from, d)
    ensures LocalDay(from, s.offset) < d ==>
              (LastClose(s, from, d, AddWorkingDays(s, from, days).value)
               <==> |WindowsOn(s, d, WeekdayOf(d))| == 1)
  {
    hide WindowsOn, WeekdayOf, Run, WalkSlots, LastClose, OneWindowLeft, LocalDay;
    FirstIsLast(s, from, d, AddWorkingDays(s, from, days).value);
    if LocalDay(from, s.offset) < d {
      LaterDayWindows(s, from, d);
    }
  }

  /** Open every Thursday from 8 to 12 and from 13 to 17. */
  const SPLIT_HOURS := Schedule(0, [Window(4, 480, 720), Window(4, 780, 1020)], [], None)

  lemma SplitDay()
    ensures ValidSchedule(SPLIT_HOURS) && WindowsOn(SPLIT_HOURS, 0, WeekdayOf(0)) == [Span(480, 720), Span(780, 1020)]
  {
    var a, b := Window(4, 480, 720), Window(4, 780, 1020);
    assert SPLIT_HOURS.week[1..] == [b] && SPLIT_HOURS.week[1..][1..] == [];
    assert SpansFor([b], 4) == [Span(780, 1020)];
    assert SpansFor([a, b], 4) == [Span(480, 720), Span(780, 1020)];
    assert SortByOpening([Span(780, 1020)]) == [Span(780, 1020)];
  }

  /** From midnight of such a Thursday the result is noon, five hours before the day's last close. */
  lemma SplitDayEndsEarly()
    ensures AddWorkingDays(SPLIT_HOURS, 0, 0) == Ok(InstantAt(0, 720, 0))
    ensures NthOpenDay(SPLIT_HOURS, 0, LocalDay(0, 0), 0, 0, InstantAt(0, 720, 0))
    ensures LastClose(SPLIT_HOURS, 0, 0, InstantAt(0, 1020, 0)) && InstantAt(0, 720, 0) < InstantAt(0, 1020, 0)
  {
    hide Run, WalkSlots, WindowsOn, WeekdayOf, ValidSchedule, OpenDays;
    SplitDay();
    var windows := WindowsOn(SPLIT_HOURS, 0, WeekdayOf(0));
    assert windows[0] in windows && windows[1] in windows;
    assert FirstClose(SPLIT_HOURS, 0, 0, InstantAt(0, 720, 0));
    NoOpenDays(SPLIT_HOURS, 0, 0);
    AddWorkingDaysExact(SPLIT_HOURS, 0, 0);
    OnlyNth(SPLIT_HOURS, 0, 0);
  }

  /** The starting day itself, when it still has a close, is open day 0. */
  lemma OnlyNth(s: Schedule, from: int, t: int)
    requires HasClose(s, from, LocalDay(from, s.offset))
    ensures forall d, u | NthOpenDay(s, from, LocalDay(from, s.offset), 0, d, u) :: d == LocalDay(from, s.offset)
    ensures OpenDays(s, from, LocalDay(from, s.offset), LocalDay(from, s.offset) + MAX_WALK_DAYS) > 0
  {
    hide HasClose, OpenDays, LocalDay;
    var today := LocalDay(from, s.offset);
    OpenDaysStep(s, from, today, today + MAX_WALK_DAYS);
    forall d, u | NthOpenDay(s, from, today, 0, d, u)
      ensures d == today
    {
      if today < d {
        OpenDaysStep(s, from, today, d);
      }
    }
  }

  lemma FewerWithout(ys: set<int>, xs: set<int>, x: int)
    requires ys <= xs && x in xs && x !in ys
    ensures |ys| < |xs|
  {
    assert xs == (ys + {x}) + (xs - (ys + {x}));
  }

  lemma CloseWithinDay(s: Schedule, from: int, day: int, t: int)
    requires ValidSchedule(s) && CloseOn(s, from, day, t)
    ensures InstantAt(day, 0, s.offset) < t <= InstantAt(day + 1, 0, s.offset)
  {
    WindowsOrdered(s, day, WeekdayOf(day));
  }

  lemma AddWorkingDaysMonotone(s: Schedule, from: int, days: int, from': int, days': int)
    requires from <= from' && days <= days'
    requires AddWorkingDays(s, from, days).Ok? && AddWorkingDays(s, from', days').Ok?
    ensures AddWorkingDays(s, from, days).value <= AddWorkingDays(s, from', days').value
  {
    hide WindowsOn, ValidSchedule, Run, WalkSlots, LocalDay;
    AddWorkingDaysExact(s, from, days);
    AddWorkingDaysExact(s, from', days');
    var today, today' := LocalDay(from, s.offset), LocalDay(from', s.offset);
    var t, t' := AddWorkingDays(s, from, days).value, AddWorkingDays(s, from', days').value;
    var d :| NthOpenDay(s, from, today, days, d, t);
    var d' :| NthOpenDay(s, from', today', days', d', t');
    DayBounds(from, today, s.offset);
    DayBounds(from', today', s.offset);
    assert CloseOn(s, from, d', t');
    CloseWithinDay(s, from, d, t);
    CloseWithinDay(s, from, d', t');
    if d' < d {
      var xs := set e | today <= e < d && HasClose(s, from, e);
      var ys := set e | today' <= e < d' && HasClose(s, from', e);
      forall e | e in ys ensures e in xs {
        var u :| CloseOn(s, from', e, u);
        assert CloseOn(s, from, e, u);
      }
      FewerWithout(ys, xs, d');
    }
  }
}
