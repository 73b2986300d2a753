/** When a shop would finish a job, and the padded date the client is told. */
module Projection {
  import opened Outcomes
  import opened Calendar
  import opened OpenTime

  datatype Job = Job(
    now: int, queue: real, turnaround: real, units: Option<int>, capacity: Option<int>,
    allowance: real, preserveSeconds: bool)

  datatype Limit = Capacity | Turnaround

  datatype Finish = Finish(startsAt: int, readyBy: int, promiseBy: int, limitedBy: Limit, capacityDays: int)

  function CeilDiv(a: int, b: int): int
    requires 0 < b
  {
    (a + b - 1) / b
  }

  predicate Counted(n: Option<int>) { n.Some? && 0 < n.value <= MAX_SAFE_INTEGER }

  /** Whole open days beyond the first that the shop's daily capacity needs. */
  function CapacityDays(job: Job): int {
    if Counted(job.units) && Counted(job.capacity) then CeilDiv(job.units.value, job.capacity.value) - 1 else 0
  }

  /** The two ways of adding time that a projection chooses between. */
  function Add(s: Schedule, preserveSeconds: bool, at: int, minutes: real): Result<int> {
    if preserveSeconds then AddOpeningMilliseconds(s, at, Ceil(minutes * 60000.0))
    else AddWorkingMinutes(s, at, minutes)
  }

  function ProjectFinish(s: Schedule, job: Job): Result<Finish> {
    if job.turnaround <= 0.0 then Raise(InvalidDuration)
    else if job.queue < 0.0 then Raise(InvalidDuration)
    else
      var startsAt :- Add(s, job.preserveSeconds, job.now, job.queue);
      var byTurnaround :- Add(s, job.preserveSeconds, startsAt, job.turnaround);
      var capacityDays := CapacityDays(job);
      var byCapacity :- if capacityDays > 0 then AddWorkingDays(s, startsAt, capacityDays) else Ok(byTurnaround);
      var capacityWins := byCapacity > byTurnaround;
      var readyBy := if capacityWins then byCapacity else byTurnaround;
      var promiseBy :- if job.allowance > 0.0 then AddWorkingMinutes(s, readyBy, job.allowance) else Ok(readyBy);
      Ok(Finish(startsAt, readyBy, promiseBy, if capacityWins then Capacity else Turnaround, capacityDays))
  }

  /** A shop is offered only when the promised date meets the deadline and nothing else blocks it. */
  predicate FitsDeadline(finish: Finish, blocked: bool, deadline: Option<int>) {
    deadline.None? || (!blocked && finish.promiseBy <= deadline.value)
  }

  lemma AddAdvances(s: Schedule, preserveSeconds: bool, at: int, minutes: real)
    requires minutes > 0.0 && Add(s, preserveSeconds, at, minutes).Ok?
    ensures at < Add(s, preserveSeconds, at, minutes).value
  {
    if preserveSeconds {
      CeilMonotone(minutes * 60000.0, minutes * 60000.0);
      AddOpeningExact(s, at, Ceil(minutes * 60000.0));
    } else {
      AddWorkingMinutesAdvances(s, at, minutes);
    }
  }

  lemma AddMonotone(s: Schedule, preserveSeconds: bool, at: int, minutes: real, at': int, minutes': real)
    requires at <= at' && minutes <= minutes'
    requires Add(s, preserveSeconds, at, minutes).Ok? && Add(s, preserveSeconds, at', minutes').Ok?
    ensures Add(s, preserveSeconds, at, minutes).value <= Add(s, preserveSeconds, at', minutes').value
  {
    if preserveSeconds {
      CeilMonotone(minutes * 60000.0, minutes' * 60000.0);
      AddOpeningMonotone(s, at, Ceil(minutes * 60000.0), at', Ceil(minutes' * 60000.0));
    } else {
      AddWorkingMinutesMonotone(s, at, minutes, at', minutes');
    }
  }

  /** Work starts before it is ready, and the client is never told an earlier date than the shop. */
  lemma FinishOrdered(s: Schedule, job: Job)
    requires ProjectFinish(s, job).Ok?
    ensures var f := ProjectFinish(s, job).value;
            && f.startsAt < f.readyBy <= f.promiseBy
            && (f.readyBy < f.promiseBy <==> job.allowance > 0.0)
            && (f.limitedBy == Capacity ==> f.capacityDays > 0)
  {
    hide AddWorkingMinutes, AddWorkingDays, Add;
    var f := ProjectFinish(s, job).value;
    AddAdvances(s, job.preserveSeconds, f.startsAt, job.turnaround);
    if job.allowance > 0.0 {
      AddWorkingMinutesAdvances(s, f.readyBy, job.allowance);
    }
  }

  // ---------- what the dates mean ----------

  /** Open milliseconds from an instant, or from the start of its minute when seconds are dropped. */
  ghost function Worked(s: Schedule, preserveSeconds: bool, at: int, t: int): int {
    CountOpen(s, if preserveSeconds then at else FloorMinute(at), t)
  }

  /** The opening time some minutes of work take: to the millisecond, or rounded up to whole minutes. */
  function Need(preserveSeconds: bool, minutes: real): int {
    if preserveSeconds then Ceil(minutes * 60000.0) else Ceil(minutes) * MS_PER_MINUTE
  }

  lemma AddMeaning(s: Schedule, preserveSeconds: bool, at: int, minutes: real)
    requires minutes >= 0.0 && Add(s, preserveSeconds, at, minutes).Ok?
    ensures ValidSchedule(s)
    ensures var t := Add(s, preserveSeconds, at, minutes).value;
            Worked(s, preserveSeconds, at, t) == Need(preserveSeconds, minutes)
  {
    hide ValidSchedule, CountOpen, IsOpenAt, Horizon, Run, WalkSlots;
    if preserveSeconds {
      AddOpeningExact(s, at, Ceil(minutes * 60000.0));
    } else {
      WorkingMinutesSafe(s, at, minutes);
      WorkingMinutesAreOpeningTime(s, at, minutes);
      AddOpeningExact(s, FloorMinute(at), Ceil(minutes) * MS_PER_MINUTE);
    }
  }

  lemma WorkedGrows(s: Schedule, preserveSeconds: bool, at: int, t: int, u: int)
    requires at <= t <= u
    ensures Worked(s, preserveSeconds, at, t) <= Worked(s, preserveSeconds, at, u)
  {
    SplitCount(s, if preserveSeconds then at else FloorMinute(at), t, u);
  }

  /** The open days needed are the fewest whose capacity holds every unit, the first day included. */
  lemma CapacityDaysFewest(job: Job)
    requires job.units.Some? && 0 < job.units.value <= 9_007_199_254_740_991
    requires job.capacity.Some? && 0 < job.capacity.value <= 9_007_199_254_740_991
    ensures 0 <= CapacityDays(job)
    ensures CapacityDays(job) * job.capacity.value < job.units.value <= (CapacityDays(job) + 1) * job.capacity.value
  {
    var u, c := job.units.value, job.capacity.value;
    var q := CeilDiv(u, c);
    assert q * c <= u + c - 1 < (q + 1) * c;
    assert q >= 1;
    assert (q - 1) * c == q * c - c && (q + 1) * c == q * c + c;
  }

  /** Without a usable count of units and of daily capacity no day is added. */
  lemma CapacityUnknown(job: Job)
    requires job.units.None? || job.units.value <= 0 || job.units.value > 9_007_199_254_740_991
             || job.capacity.None? || job.capacity.value <= 0 || job.capacity.value > 9_007_199_254_740_991
    ensures CapacityDays(job) == 0
  {
  }

  lemma AddInvalid(s: Schedule, preserveSeconds: bool, at: int, minutes: real)
    requires minutes >= 0.0 && (preserveSeconds ==> minutes * 60000.0 <= 9007199254740991.0)
    ensures Add(s, preserveSeconds, at, minutes) != Raise(InvalidDuration)
  {
    hide AddOpeningMilliseconds, AddWorkingMinutes;
    CeilMonotone(0.0, minutes * 60000.0);
    RefusedInputs(s, at, Ceil(minutes * 60000.0), minutes, 0, at);
  }

  /**
   * A projection needs a positive turnaround and a queue of zero or more, in safe milliseconds when
   * seconds are kept; no other job is refused for its duration.
   */
  lemma ProjectionRefused(s: Schedule, job: Job)
    ensures job.turnaround <= 0.0 || job.queue < 0.0 ==> ProjectFinish(s, job) == Raise(InvalidDuration)
    ensures ProjectFinish(s, job).Ok? ==> job.turnaround > 0.0 && job.queue >= 0.0 && ValidSchedule(s)
    ensures job.turnaround > 0.0 && job.queue >= 0.0
            && (job.preserveSeconds ==>
                  job.queue * 60000.0 <= 9007199254740991.0 && job.turnaround * 60000.0 <= 9007199254740991.0) ==>
              ProjectFinish(s, job) != Raise(InvalidDuration)
  {
    hide Add, AddWorkingDays, AddWorkingMinutes;
    if job.turnaround > 0.0 && job.queue >= 0.0 && Add(s, job.preserveSeconds, job.now, job.queue).Ok? {
      var startsAt := Add(s, job.preserveSeconds, job.now, job.queue).value;
      RefusedInputs(s, startsAt, 0, 0.0, CapacityDays(job), startsAt);
      if job.preserveSeconds ==> job.turnaround * 60000.0 <= 9007199254740991.0 {
        AddInvalid(s, job.preserveSeconds, startsAt, job.turnaround);
      }
    }
    if job.queue >= 0.0 && (job.preserveSeconds ==> job.queue * 60000.0 <= 9007199254740991.0) {
      AddInvalid(s, job.preserveSeconds, job.now, job.queue);
    }
    forall at
      ensures job.allowance > 0.0 ==> AddWorkingMinutes(s, at, job.allowance) != Raise(InvalidDuration)
    {
      RefusedInputs(s, at, 0, job.allowance, 0, at);
    }
    if ProjectFinish(s, job).Ok? {
      AddMeaning(s, job.preserveSeconds, job.now, job.queue);
    }
  }

  /**
   * A shop is offered for a deadline exactly when nothing else blocks it and, from the start of the
   * minute the job is ready in, the shop is open for the allowance by then. Without a deadline it is
   * always offered.
   */
  lemma DeadlineMeaning(s: Schedule, job: Job, blocked: bool, deadline: int)
    requires ProjectFinish(s, job).Ok?
    ensures var f := ProjectFinish(s, job).value;
            && FitsDeadline(f, blocked, None)
            && (FitsDeadline(f, blocked, Some(deadline)) <==>
                  !blocked && (if job.allowance > 0.0
                               then CountOpen(s, FloorMinute(f.readyBy), deadline) >= Ceil(job.allowance) * 60_000
                               else f.readyBy <= deadline))
  {
    hide ValidSchedule, CountOpen, IsOpenAt, Horizon, Run, WalkSlots, Add, AddWorkingDays, CapacityDays;
    var f := ProjectFinish(s, job).value;
    if job.allowance > 0.0 {
      var lo, need, t := FloorMinute(f.readyBy), Ceil(job.allowance) * MS_PER_MINUTE, f.promiseBy;
      ProjectionRefused(s, job);
      CeilMonotone(job.allowance, job.allowance);
      WorkingMinutesSafe(s, f.readyBy, job.allowance);
      WorkingMinutesAreOpeningTime(s, f.readyBy, job.allowance);
      AddOpeningExact(s, lo, need);
      EnoughByThen(s, lo, need, t, deadline);
    }
  }

  lemma EnoughByThen(s: Schedule, lo: int, need: int, t: int, u: int)
    requires Reached(s, lo, need, t) && 0 < need
    ensures CountOpen(s, lo, u) >= need <==> t <= u
  {
    hide IsOpenAt, CountOpen;
    if t <= u {
      SplitCount(s, lo, t, u);
    } else if lo <= u {
      SplitCount(s, lo, u, t - 1);
      SplitCount(s, lo, t - 1, t);
      CountAllOpen(s, t - 1, t);
    } else {
      CountShut(s, lo, u);
    }
  }

  /**
   * By the start the queue is worked off. By the ready date the shop has been open for the turnaround
   * and has reached the open day the units need, and one of the two falls on that very instant. The
   * promise adds the allowance in opening time.
   */
  lemma FinishMeaning(s: Schedule, job: Job)
    requires ProjectFinish(s, job).Ok?
    ensures var f := ProjectFinish(s, job).value;
            && Worked(s, job.preserveSeconds, job.now, f.startsAt) == Need(job.preserveSeconds, job.queue)
            && Worked(s, job.preserveSeconds, f.startsAt, f.readyBy) >= Need(job.preserveSeconds, job.turnaround)
            && (f.limitedBy == Turnaround ==>
                  Worked(s, job.preserveSeconds, f.startsAt, f.readyBy) == Need(job.preserveSeconds, job.turnaround))
            && f.capacityDays == CapacityDays(job)
            && (f.capacityDays > 0 ==>
                  exists d, t :: NthOpenDay(s, f.startsAt, LocalDay(f.startsAt, s.offset), f.capacityDays, d, t)
                              && t <= f.readyBy && (f.limitedBy == Capacity ==> t == f.readyBy))
            && (if job.allowance > 0.0
                then Worked(s, false, f.readyBy, f.promiseBy) == Need(false, job.allowance)
                else f.promiseBy == f.readyBy)
  {
    hide AddWorkingMinutes, AddOpeningMilliseconds, AddWorkingDays, Add, NthOpenDay, OpenDays,
         Worked, Need, CapacityDays;
    var f := ProjectFinish(s, job).value;
    AddMeaning(s, job.preserveSeconds, job.now, job.queue);
    AddMeaning(s, job.preserveSeconds, f.startsAt, job.turnaround);
    AddAdvances(s, job.preserveSeconds, f.startsAt, job.turnaround);
    var byTurnaround := Add(s, job.preserveSeconds, f.startsAt, job.turnaround).value;
    WorkedGrows(s, job.preserveSeconds, f.startsAt, byTurnaround, f.readyBy);
    if f.capacityDays > 0 {
      AddWorkingDaysExact(s, f.startsAt, f.capacityDays);
    }
    if job.allowance > 0.0 {
      AddMinutesMeaning(s, f.readyBy, job.allowance);
    }
  }

  lemma AddMinutesMeaning(s: Schedule, at: int, minutes: real)
    requires minutes >= 0.0 && AddWorkingMinutes(s, at, minutes).Ok?
    ensures Worked(s, false, at, AddWorkingMinutes(s, at, minutes).value) == Need(false, minutes)
  {
    hide AddWorkingMinutes, Worked, Need;
    AddMeaning(s, false, at, minutes);
  }

  /** Nothing about the second job is easier: later, longer, more of it, or on less capacity. */
  ghost predicate NoEasier(job: Job, harder: Job) {
    && job.now <= harder.now && job.queue <= harder.queue && job.turnaround <= harder.turnaround
    && job.allowance <= harder.allowance && job.preserveSeconds == harder.preserveSeconds
    && (Counted(job.units) && Counted(job.capacity) ==>
          && Counted(harder.units) && job.units.value <= harder.units.value
          && Counted(harder.capacity) && harder.capacity.value <= job.capacity.value)
  }

  lemma MulMonotone(x: int, y: int, b: int)
    requires x <= y && 0 <= b
    ensures x * b <= y * b && b * x <= b * y
  {
  }

  lemma CapacityDaysGrow(job: Job, harder: Job)
    requires NoEasier(job, harder)
    ensures 0 <= CapacityDays(job) <= CapacityDays(harder)
  {
    var days, more := CapacityDays(job), CapacityDays(harder);
    if Counted(harder.units) && Counted(harder.capacity) {
      CapacityDaysFewest(harder);
      if Counted(job.units) && Counted(job.capacity) {
        hide CapacityDays;
        CapacityDaysFewest(job);
        MulMonotone(harder.capacity.value, job.capacity.value, more + 1);
        if days > more {
          MulMonotone(more + 1, days, job.capacity.value);
        }
      }
    }
  }

  /** No date moves earlier when the job gets harder. */
  lemma FinishMonotone(s: Schedule, job: Job, harder: Job)
    requires NoEasier(job, harder)
    requires ProjectFinish(s, job).Ok? && ProjectFinish(s, harder).Ok?
    ensures var f, g := ProjectFinish(s, job).value, ProjectFinish(s, harder).value;
            f.startsAt <= g.startsAt && f.readyBy <= g.readyBy && f.promiseBy <= g.promiseBy
  {
    hide AddWorkingMinutes, AddWorkingDays, Add, CapacityDays;
    var f, g := ProjectFinish(s, job).value, ProjectFinish(s, harder).value;
    AddMonotone(s, job.preserveSeconds, job.now, job.queue, harder.now, harder.queue);
    AddMonotone(s, job.preserveSeconds, f.startsAt, job.turnaround, g.startsAt, harder.turnaround);
    CapacityDaysGrow(job, harder);
    if CapacityDays(job) > 0 {
      AddWorkingDaysMonotone(s, f.startsAt, CapacityDays(job), g.startsAt, CapacityDays(harder));
    }
    assert f.readyBy <= g.readyBy;
    if harder.allowance > 0.0 {
      AddWorkingMinutesAdvances(s, g.readyBy, harder.allowance);
      if job.allowance > 0.0 {
        AddWorkingMinutesMonotone(s, f.readyBy, job.allowance, g.readyBy, harder.allowance);
      }
    }
  }

  /** A job that misses a deadline still misses it, or an earlier one, when it gets harder. */
  lemma MissesStayMissed(s: Schedule, job: Job, harder: Job, blocked: bool, deadline: int, earlier: int)
    requires NoEasier(job, harder) && earlier <= deadline
    requires ProjectFinish(s, job).Ok? && ProjectFinish(s, harder).Ok?
    requires !FitsDeadline(ProjectFinish(s, job).value, blocked, Some(deadline))
    ensures !FitsDeadline(ProjectFinish(s, harder).value, blocked, Some(earlier))
  {
    FinishMonotone(s, job, harder);
  }
}
