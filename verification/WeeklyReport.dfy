/** The automatic weekly report: at most one successful sending per ISO week. */
module WeeklyReport {
  import opened Wrappers
  import opened Models
  import opened IsoCalendar

  /** The day ordinal of 1 January 1970. */
  const EPOCH_ORDINAL: int := 719_163

  function LocalDay(now: Instant): int { (now + IST_OFFSET) / DAY + EPOCH_ORDINAL }

  function LocalHour(now: Instant): int { (now + IST_OFFSET) % DAY / HOUR }

  /** Local day and hour are those of the instant: a whole number of days and hours
      since the beginning of 1970 in UTC, shifted by the offset of India, and less
      than an hour is left. That day was a Thursday. */
  lemma LocalClock(now: Instant)
    ensures 0 <= LocalHour(now) < 24
    ensures 0 <= now + IST_OFFSET - (LocalDay(now) - DaysBeforeYear(1970) - 1) * DAY - LocalHour(now) * HOUR < HOUR
    ensures Weekday(DaysBeforeYear(1970) + 1) == 3
  {
    var local := now + IST_OFFSET;
    assert local == local / DAY * DAY + local % DAY;
    assert local % DAY == local % DAY / HOUR * HOUR + local % DAY % HOUR;
    assert DaysBeforeYear(1970) + 1 == EPOCH_ORDINAL;
  }

  /** The instants a date and time object can represent start in year 1. */
  predicate Representable(now: Instant) { LocalDay(now) >= 1 }

  datatype Schedule = Schedule(enabled: bool, day: int, hour: int)

  /** One call of `maybe_send_weekly_report`, with the settings as they are then;
      `delivered` is what sending would return. */
  datatype Poll = Poll(now: Instant, schedule: Schedule, delivered: bool)

  predicate InSlot(p: Poll) {
    p.schedule.enabled && Weekday(LocalDay(p.now)) == p.schedule.day && LocalHour(p.now) >= p.schedule.hour
  }

  predicate SentThisWeek(last: Option<Instant>, now: Instant)
    requires Representable(now) && (last.Some? ==> Representable(last.value))
  {
    last.Some? && IsoWeek(LocalDay(last.value)) == IsoWeek(LocalDay(now))
  }

  /** Whether the poll tries to send. */
  predicate Due(last: Option<Instant>, p: Poll)
    requires Representable(p.now) && (last.Some? ==> Representable(last.value))
  {
    InSlot(p) && !SentThisWeek(last, p.now)
  }

  class ReportSchedule {
    var lastWeeklyReportAt: Option<Instant>

    method MaybeSendWeeklyReport(p: Poll) returns (delivered: bool)
      requires Representable(p.now) && (lastWeeklyReportAt.Some? ==> Representable(lastWeeklyReportAt.value))
      modifies this
      ensures delivered == (Due(old(lastWeeklyReportAt), p) && p.delivered)
      ensures lastWeeklyReportAt == LastAfter(old(lastWeeklyReportAt), p)
    {
      if !p.schedule.enabled {
        return false;
      }
      var weekday := Weekday(LocalDay(p.now));
      if weekday != p.schedule.day || LocalHour(p.now) < p.schedule.hour {
        return false;
      }
      if lastWeeklyReportAt.Some? {
        if IsoWeek(LocalDay(lastWeeklyReportAt.value)) == IsoWeek(LocalDay(p.now)) {
          return false;
        }
      }
      delivered := p.delivered;
      if delivered {
        lastWeeklyReportAt := Some(p.now);
      }
    }
  }

  function LastAfter(last: Option<Instant>, p: Poll): Option<Instant>
    requires Representable(p.now) && (last.Some? ==> Representable(last.value))
  {
    if Due(last, p) && p.delivered then Some(p.now) else last
  }

  // ---- runs of polls ----

  ghost predicate ValidRun(ps: seq<Poll>) {
    && (forall p | p in ps :: Representable(p.now))
    && (forall i, j | 0 <= i <= j < |ps| :: ps[i].now <= ps[j].now)
  }

  ghost function LastOf(ps: seq<Poll>): (last: Option<Instant>)
    requires ValidRun(ps)
    ensures last.Some? ==> exists p :: p in ps && p.now == last.value
  {
    if ps == [] then None
    else
      var front := ps[..|ps| - 1];
      assert forall p | p in front :: p in ps;
      LastAfter(LastOf(front), ps[|ps| - 1])
  }

  lemma PrefixValid(ps: seq<Poll>, i: nat)
    requires ValidRun(ps) && i <= |ps|
    ensures ValidRun(ps[..i])
  {
    assert forall p | p in ps[..i] :: p in ps;
  }

  /** Poll i sent the report and something took it. */
  ghost predicate Sent(ps: seq<Poll>, i: nat)
    requires ValidRun(ps) && i < |ps|
  {
    PrefixValid(ps, i);
    assert ps[i] in ps;
    Due(LastOf(ps[..i]), ps[i]) && ps[i].delivered
  }

  lemma LastStep(ps: seq<Poll>, j: nat)
    requires ValidRun(ps) && 0 < j <= |ps|
    ensures ValidRun(ps[..j]) && ValidRun(ps[..j - 1])
    ensures LastOf(ps[..j]) == if Sent(ps, j - 1) then Some(ps[j - 1].now) else LastOf(ps[..j - 1])
  {
    hide Due, IsoWeek, LocalDay;
    PrefixValid(ps, j);
    PrefixValid(ps, j - 1);
    assert ps[..j][..j - 1] == ps[..j - 1];
    assert ps[j - 1] in ps;
  }

  /** The stored time of the last sending is never before any sending so far. */
  lemma {:induction false} LastCoversSent(ps: seq<Poll>, i: nat, j: nat)
    requires ValidRun(ps) && i < j <= |ps| && Sent(ps, i)
    ensures ValidRun(ps[..j])
    ensures var last := LastOf(ps[..j]); last.Some? && ps[i].now <= last.value <= ps[j - 1].now
  {
    hide Representable, Sent, LastOf;
    LastStep(ps, j);
    if j > i + 1 {
      LastCoversSent(ps, i, j - 1);
    }
  }

  /** Days between two days of one Monday-started week are in that week. */
  lemma WeeksAreConvex(a: int, b: int, c: int)
    requires a <= b <= c && MondayOf(a) == MondayOf(c)
    ensures MondayOf(b) == MondayOf(a)
  {
    MondayIsMonday(a);
    MondayIsMonday(b);
    MondayIsMonday(c);
  }

  lemma LocalDayMonotone(a: Instant, b: Instant)
    requires a <= b
    ensures LocalDay(a) <= LocalDay(b)
  {}

  /** Two successful sendings are never in the same ISO week of local time, and
      each is on the configured weekday at or after the configured hour. */
  lemma AtMostOncePerWeek(ps: seq<Poll>, i: nat, j: nat)
    requires ValidRun(ps) && i < j < |ps| && Sent(ps, i) && Sent(ps, j)
    ensures MondayOf(LocalDay(ps[i].now)) != MondayOf(LocalDay(ps[j].now))
    ensures ps[j].schedule.enabled
    ensures Weekday(LocalDay(ps[j].now)) == ps[j].schedule.day && LocalHour(ps[j].now) >= ps[j].schedule.hour
  {
    hide IsoWeek, MondayOf, Weekday, LocalDay, LocalHour;
    LastCoversSent(ps, i, j);
    var last := LastOf(ps[..j]).value;
    assert ps[i] in ps && ps[j] in ps;
    LocalDayMonotone(ps[i].now, last);
    LocalDayMonotone(last, ps[j].now);
    SameIsoWeekIffSameMonday(LocalDay(last), LocalDay(ps[j].now));
    if MondayOf(LocalDay(ps[i].now)) == MondayOf(LocalDay(ps[j].now)) {
      WeeksAreConvex(LocalDay(ps[i].now), LocalDay(last), LocalDay(ps[j].now));
    }
  }

  lemma {:induction false} LastWasSent(ps: seq<Poll>, j: nat) returns (i: nat)
    requires ValidRun(ps) && j <= |ps|
    requires ValidRun(ps[..j]) && LastOf(ps[..j]).Some?
    ensures i < j && Sent(ps, i) && LastOf(ps[..j]) == Some(ps[i].now)
  {
    hide Sent, Representable;
    LastStep(ps, j);
    if Sent(ps, j - 1) {
      i := j - 1;
    } else {
      i := LastWasSent(ps, j - 1);
    }
  }

  /** A failed sending leaves the week due: a poll sends successfully exactly when
      the report is switched on, it is the configured weekday, the configured hour or
      later, delivery works, and nothing was sent earlier in that week. */
  lemma SentIffFirstDeliveryOfWeek(ps: seq<Poll>, j: nat)
    requires ValidRun(ps) && j < |ps|
    ensures Sent(ps, j) <==>
              && ps[j].schedule.enabled && Weekday(LocalDay(ps[j].now)) == ps[j].schedule.day
              && LocalHour(ps[j].now) >= ps[j].schedule.hour && ps[j].delivered
              && forall i: nat | i < j && Sent(ps, i) :: MondayOf(LocalDay(ps[i].now)) != MondayOf(LocalDay(ps[j].now))
  {
    hide IsoWeek, MondayOf, LocalDay, Weekday, LocalHour;
    PrefixValid(ps, j);
    assert ps[j] in ps;
    forall i: nat | i < j && Sent(ps, i) && Sent(ps, j)
      ensures MondayOf(LocalDay(ps[i].now)) != MondayOf(LocalDay(ps[j].now))
    {
      AtMostOncePerWeek(ps, i, j);
    }
    if LastOf(ps[..j]).Some? {
      var i := LastWasSent(ps, j);
      assert ps[i] in ps;
      SameIsoWeekIffSameMonday(LocalDay(ps[i].now), LocalDay(ps[j].now));
    }
  }
}
