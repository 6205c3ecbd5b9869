/**
 Retention cleanup, the weekly report's selection of incidents, and their
 interaction: what cleanup removes, and that no report can tell.
 */
module Retention {
  import opened Wrappers
  import opened Text
  import opened Models
  import opened Incidents
  import LongQueries

  // ---- cleanup ----

  /** `reports` maps a stored report to its expiry. */
  datatype Store = Store(locks: map<nat, LockAlert>, longQueries: map<nat, LongQueryAlert>,
                         reports: map<nat, Instant>, lastCleanupAt: Option<Instant>)

  function Cutoff(now: Instant, retentionDays: int): Instant { now - Max(1, retentionDays) * DAY }

  predicate CleanupDue(lastCleanupAt: Option<Instant>, now: Instant) {
    lastCleanupAt.None? || now - lastCleanupAt.value >= 24 * HOUR
  }

  function ExpiredLongQueries(queries: map<nat, LongQueryAlert>, cutoff: Instant): set<nat> {
    set pk | pk in queries && queries[pk].resolvedAt.Some? && queries[pk].resolvedAt.value < cutoff
  }

  function ExpiredReports(reports: map<nat, Instant>, now: Instant): set<nat> {
    set pk | pk in reports && reports[pk] < now
  }

  /** The transaction of `cleanup_monitor_history`. */
  function Cleanup(s: Store, retentionDays: int, now: Instant): Store {
    if !CleanupDue(s.lastCleanupAt, now) then s
    else
      Store(s.locks - Expired(s.locks, Cutoff(now, retentionDays)),
            s.longQueries - ExpiredLongQueries(s.longQueries, Cutoff(now, retentionDays)),
            s.reports - ExpiredReports(s.reports, now),
            Some(now))
  }

  class HistoryStore {
    var locks: map<nat, LockAlert>
    var longQueries: map<nat, LongQueryAlert>
    var reports: map<nat, Instant>
    var lastCleanupAt: Option<Instant>

    function Contents(): Store
      reads this
    {
      Store(locks, longQueries, reports, lastCleanupAt)
    }

    /** Rows before are the rows after and the rows counted as deleted; nothing
        unresolved, and nothing resolved since the cutoff, is among the latter. */
    method CleanupMonitorHistory(retentionDays: int, now: Instant) returns (deletedAlerts: nat, deletedReports: nat)
      modifies this
      ensures Contents() == Cleanup(old(Contents()), retentionDays, now)
      ensures |old(locks)| + |old(longQueries)| == |locks| + |longQueries| + deletedAlerts
      ensures |old(reports)| == |reports| + deletedReports
    {
      if lastCleanupAt.Some? && now - lastCleanupAt.value < 24 * HOUR {
        return 0, 0;
      }
      var alertCutoff := Cutoff(now, retentionDays);
      var oldLocks := Expired(locks, alertCutoff);
      var oldQueries := ExpiredLongQueries(longQueries, alertCutoff);
      var oldReports := ExpiredReports(reports, now);
      RemovalCount(locks, oldLocks);
      RemovalCount(longQueries, oldQueries);
      RemovalCount(reports, oldReports);
      locks := locks - oldLocks;
      longQueries := longQueries - oldQueries;
      reports := reports - oldReports;
      lastCleanupAt := Some(now);
      return |oldLocks| + |oldQueries|, |oldReports|;
    }
  }

  lemma RemovalCount<V>(m: map<nat, V>, ids: set<nat>)
    requires ids <= m.Keys
    ensures |m| == |m - ids| + |ids|
  {
    assert m.Keys == (m - ids).Keys + ids;
    assert |m.Keys| == |(m - ids).Keys| + |ids|;
  }

  /** Cleanup changes no surviving row, keeps every active one, and when a day has
      passed since the last one removes exactly what was resolved before the
      cutoff and the reports that have expired. */
  lemma CleanupRemovesExactly(s: Store, retentionDays: int, now: Instant)
    ensures var after := Cleanup(s, retentionDays, now);
            var due := s.lastCleanupAt.None? || now >= s.lastCleanupAt.value + DAY;
            var cutoff := now - (if retentionDays > 1 then retentionDays else 1) * DAY;
            && after.lastCleanupAt == (if due then Some(now) else s.lastCleanupAt)
            && after.locks.Keys <= s.locks.Keys && after.longQueries.Keys <= s.longQueries.Keys
               && after.reports.Keys <= s.reports.Keys
            && (forall pk | pk in s.locks ::
                  && (pk !in after.locks <==>
                        due && s.locks[pk].resolvedAt.Some? && s.locks[pk].resolvedAt.value < cutoff)
                  && (pk in after.locks ==> after.locks[pk] == s.locks[pk]))
            && (forall pk | pk in s.longQueries ::
                  && (pk !in after.longQueries <==>
                        due && s.longQueries[pk].resolvedAt.Some? && s.longQueries[pk].resolvedAt.value < cutoff)
                  && (pk in after.longQueries ==> after.longQueries[pk] == s.longQueries[pk]))
            && (forall pk | pk in s.reports ::
                  && (pk !in after.reports <==> due && s.reports[pk] < now)
                  && (pk in after.reports ==> after.reports[pk] == s.reports[pk]))
  {}

  // ---- the weekly report ----

  /** The selection of `_weekly_alerts` at time `now`. */
  predicate InReport(a: LockAlert, now: Instant, instance: Option<nat>) {
    var cutoff := now - 7 * DAY;
    && a.firstSeenAt <= now
    && (a.firstSeenAt >= cutoff || a.lastSeenAt >= cutoff || (a.resolvedAt.Some? && a.resolvedAt.value >= cutoff))
    && (instance.Some? ==> a.instance == instance.value)
  }

  /** The report's rows. Their order is a function of their contents. */
  function WeeklyAlerts(rows: map<nat, LockAlert>, now: Instant, instance: Option<nat>): map<nat, LockAlert> {
    map pk | pk in rows && InReport(rows[pk], now, instance) :: rows[pk]
  }

  /** The rows of a report, whatever the dates: seen by now, and seen first, seen last or
      resolved within the last seven days. */
  lemma ReportSelects(rows: map<nat, LockAlert>, now: Instant, instance: Option<nat>, pk: nat)
    ensures pk in WeeklyAlerts(rows, now, instance) <==>
              && pk in rows && (instance == None || instance == Some(rows[pk].instance)) && rows[pk].firstSeenAt <= now
              && (|| now - rows[pk].firstSeenAt <= 7 * DAY || now - rows[pk].lastSeenAt <= 7 * DAY
                  || (rows[pk].resolvedAt.Some? && now - rows[pk].resolvedAt.value <= 7 * DAY))
  {}

  // ---- removed rows do not influence the monitor ----

  ghost predicate AllResolved(rows: map<nat, LockAlert>, ids: set<nat>) {
    ids <= rows.Keys && forall pk | pk in ids :: !rows[pk].Active()
  }

  ghost predicate Untouched(rows: map<nat, LockAlert>, rows1: map<nat, LockAlert>, ids: set<nat>) {
    ids <= rows1.Keys && forall pk | pk in ids && pk in rows :: rows1[pk] == rows[pk]
  }

  lemma UpsertOneIgnores(t: Table, gone: set<nat>, instance: nat, key: string, obs: Observation)
    requires FreshIds(t) && AllResolved(t.rows, gone) && key in obs.rows
    ensures UpsertOne(t.(rows := t.rows - gone), instance, key, obs) ==
              var u := UpsertOne(t, instance, key, obs); u.(rows := u.rows - gone)
    ensures AllResolved(UpsertOne(t, instance, key, obs).rows, gone)
    ensures Untouched(t.rows, UpsertOne(t, instance, key, obs).rows, gone)
    ensures FreshIds(UpsertOne(t, instance, key, obs))
  {
    hide NewAlert, Observe, LockKey;
    var less := t.(rows := t.rows - gone);
    if HasActive(t.rows, instance, key) {
      var pk :| pk in t.rows && t.rows[pk].ActiveFor(instance, key);
      assert less.rows[pk].ActiveFor(instance, key);
      assert UpsertOne(less, instance, key, obs).rows == UpsertOne(t, instance, key, obs).rows - gone;
    } else {
      assert !HasActive(less.rows, instance, key);
      assert UpsertOne(less, instance, key, obs).rows == UpsertOne(t, instance, key, obs).rows - gone;
    }
  }

  lemma {:induction false} UpsertAllIgnores(t: Table, gone: set<nat>, instance: nat, order: seq<string>,
                                            obs: Observation)
    requires FreshIds(t) && AllResolved(t.rows, gone)
    requires forall k | k in order :: k in obs.rows
    ensures UpsertAll(t.(rows := t.rows - gone), instance, order, obs) ==
              var u := UpsertAll(t, instance, order, obs); u.(rows := u.rows - gone)
    ensures AllResolved(UpsertAll(t, instance, order, obs).rows, gone)
    ensures Untouched(t.rows, UpsertAll(t, instance, order, obs).rows, gone)
    ensures FreshIds(UpsertAll(t, instance, order, obs))
  {
    hide UpsertOne, LockKey;
    if order != [] {
      var n := |order| - 1;
      UpsertAllIgnores(t, gone, instance, order[..n], obs);
      UpsertOneIgnores(UpsertAll(t, instance, order[..n], obs), gone, instance, order[n], obs);
    }
  }

  lemma ClearIgnores(rows: map<nat, LockAlert>, gone: set<nat>, instance: nat, seen: set<string>, now: Instant)
    requires AllResolved(rows, gone)
    ensures ClearVanished(rows - gone, instance, seen, now) == ClearVanished(rows, instance, seen, now) - gone
    ensures AllResolved(ClearVanished(rows, instance, seen, now), gone)
    ensures Untouched(rows, ClearVanished(rows, instance, seen, now), gone)
  {
    hide ClearVanished;
    ClearEffect(rows, instance, seen, now);
    ClearEffect(rows - gone, instance, seen, now);
    assert ClearVanished(rows - gone, instance, seen, now) == ClearVanished(rows, instance, seen, now) - gone;
  }

  /** A check or a kill does the same with and without resolved rows. */
  lemma StepIgnoresResolved(t: Table, gone: set<nat>, s: Step)
    requires FreshIds(t) && AllResolved(t.rows, gone)
    ensures TableStep(t.(rows := t.rows - gone), s) == var u := TableStep(t, s); u.(rows := u.rows - gone)
    ensures AllResolved(TableStep(t, s).rows, gone)
    ensures Untouched(t.rows, TableStep(t, s).rows, gone)
    ensures FreshIds(TableStep(t, s))
  {
    hide UpsertAll, ClearVanished, LockKey, Collapse;
    match s
    case Check(instance, blocking, threshold, now) =>
      CollapseRepresents(blocking);
      var order, obs := Collapse(blocking).order, ObservationOf(blocking, threshold, now);
      assert forall k | k in order :: k in Elements(order);
      UpsertAllIgnores(t, gone, instance, order, obs);
      ClearIgnores(UpsertAll(t, instance, order, obs).rows, gone, instance, obs.rows.Keys, now);
      ClearEffect(UpsertAll(t, instance, order, obs).rows, instance, obs.rows.Keys, now);
    case Kill(instance, pids, user) =>
      assert MarkKilled(t.rows - gone, instance, pids, user) == MarkKilled(t.rows, instance, pids, user) - gone;
  }

  // ---- dates ----

  ghost predicate Dated(a: LockAlert, clock: Instant) {
    && a.firstSeenAt <= a.lastSeenAt <= clock
    && (a.alertedAt.Some? ==> a.firstSeenAt <= a.alertedAt.value <= a.lastSeenAt)
    && (a.resolvedAt.Some? ==> a.lastSeenAt <= a.resolvedAt.value <= clock)
  }

  ghost predicate AllDated(rows: map<nat, LockAlert>, clock: Instant) {
    forall pk | pk in rows :: Dated(rows[pk], clock)
  }

  /** With dates in order, the rows of a report are exactly the incidents of the
      database asked for, if one is, whose lifetime, up to resolution or else the last
      sighting, touches the seven days before it. They are reported as stored. */
  lemma ReportCoversTheWeek(rows: map<nat, LockAlert>, clock: Instant, now: Instant, instance: Option<nat>)
    requires AllDated(rows, clock)
    ensures forall pk :: pk in WeeklyAlerts(rows, now, instance) <==>
              && pk in rows
              && (match instance case None => true case Some(i) => rows[pk].instance == i)
              && rows[pk].firstSeenAt <= now
              && (match rows[pk].resolvedAt
                  case Some(at) => at >= now - 7 * DAY
                  case None => rows[pk].lastSeenAt >= now - 7 * DAY)
    ensures forall pk | pk in WeeklyAlerts(rows, now, instance) :: WeeklyAlerts(rows, now, instance)[pk] == rows[pk]
  {
    assert forall pk | pk in rows :: Dated(rows[pk], clock);
  }

  lemma DatedLater(a: LockAlert, clock: Instant, later: Instant)
    requires Dated(a, clock) && clock <= later
    ensures Dated(a, later)
  {}

  lemma UpsertOneDated(t: Table, instance: nat, key: string, obs: Observation)
    requires AllDated(t.rows, obs.now) && key in obs.rows
    ensures AllDated(UpsertOne(t, instance, key, obs).rows, obs.now)
  {
    hide LockKey, HasActive;
  }

  lemma {:induction false} UpsertAllDated(t: Table, instance: nat, order: seq<string>, obs: Observation)
    requires AllDated(t.rows, obs.now)
    requires forall k | k in order :: k in obs.rows
    ensures AllDated(UpsertAll(t, instance, order, obs).rows, obs.now)
  {
    hide UpsertOne, Dated, LockKey;
    if order != [] {
      UpsertAllDated(t, instance, order[..|order| - 1], obs);
      UpsertOneDated(UpsertAll(t, instance, order[..|order| - 1], obs), instance, order[|order| - 1], obs);
    }
  }

  lemma StepDated(t: Table, s: Step, clock: Instant)
    requires AllDated(t.rows, clock) && (s.Check? ==> clock <= s.now)
    ensures AllDated(TableStep(t, s).rows, if s.Check? then s.now else clock)
  {
    hide UpsertAll, ClearVanished, LockKey, Collapse;
    match s
    case Check(instance, blocking, threshold, now) =>
      CollapseRepresents(blocking);
      var order, obs := Collapse(blocking).order, ObservationOf(blocking, threshold, now);
      assert forall k | k in order :: k in Elements(order);
      UpsertAllDated(t, instance, order, obs);
      ClearEffect(UpsertAll(t, instance, order, obs).rows, instance, obs.rows.Keys, now);
    case Kill(instance, pids, user) =>
  }

  // ---- runs with cleanup ----

  /** A step on the incident table, a long-query check, a report stored until it
      expires, or a cleanup. */
  datatype Action =
    | Monitor(step: Step)
    | WatchQueries(check: LongQueries.QueryCheck)
    | StoreReport(id: nat, keptFor: nat, now: Instant)
    | RunCleanup(retentionDays: int, now: Instant)

  datatype World = World(table: Table, queries: LongQueries.Records, reports: map<nat, Instant>,
                         lastCleanupAt: Option<Instant>)

  const EMPTY_WORLD := World(Table(map[], 0), LongQueries.NO_RECORDS, map[], None)

  function StoreOf(w: World): Store { Store(w.table.rows, w.queries.rows, w.reports, w.lastCleanupAt) }

  ghost function Act(w: World, a: Action): World {
    match a
    case Monitor(s) => w.(table := TableStep(w.table, s))
    case WatchQueries(c) => w.(queries := LongQueries.CheckQueries(w.queries, c).records)
    case StoreReport(id, keptFor, now) => w.(reports := w.reports[id := now + keptFor])
    case RunCleanup(days, now) =>
      var after := Cleanup(StoreOf(w), days, now);
      World(w.table.(rows := after.locks), w.queries.(rows := after.longQueries), after.reports, after.lastCleanupAt)
  }

  ghost function After(actions: seq<Action>): World {
    if actions == [] then EMPTY_WORLD
    else Act(After(actions[..|actions| - 1]), actions[|actions| - 1])
  }

  /** The incident table of the same run, had no cleanup ever been made. */
  function AfterWithoutCleanup(actions: seq<Action>): Table {
    if actions == [] then Table(map[], 0)
    else
      var before := AfterWithoutCleanup(actions[..|actions| - 1]);
      if actions[|actions| - 1].Monitor? then TableStep(before, actions[|actions| - 1].step) else before
  }

  predicate Timed(a: Action) { a.Monitor? ==> a.step.Check? }

  function TimeOf(a: Action): Instant
    requires Timed(a)
  {
    match a
    case Monitor(s) => s.now
    case WatchQueries(c) => c.now
    case StoreReport(_, _, now) => now
    case RunCleanup(_, now) => now
  }

  /** The clock never runs backwards; `clock` bounds every reading so far. */
  ghost predicate ReadingsAscendTo(actions: seq<Action>, clock: Instant) {
    && (forall i, j | 0 <= i <= j < |actions| && Timed(actions[i]) && Timed(actions[j]) ::
        TimeOf(actions[i]) <= TimeOf(actions[j]))
    && (forall i | 0 <= i < |actions| && Timed(actions[i]) :: TimeOf(actions[i]) <= clock)
  }

  ghost predicate RetentionAtLeast(actions: seq<Action>, days: int) {
    forall i | 0 <= i < |actions| && actions[i].RunCleanup? :: actions[i].retentionDays >= days
  }

  /** The kept table is the full one without some rows that were resolved more than a week ago. */
  ghost predicate LacksOnlyOld(kept: Table, full: Table, gone: set<nat>, clock: Instant) {
    && kept == full.(rows := full.rows - gone) && FreshIds(full)
    && AllResolved(full.rows, gone) && AllDated(full.rows, clock)
    && forall pk | pk in gone && pk in full.rows && full.rows[pk].resolvedAt.Some? ::
       full.rows[pk].resolvedAt.value < clock - 7 * DAY
  }

  lemma LacksOnlyOldStep(w: World, full: Table, gone: set<nat>, clock: Instant, a: Action, now: Instant)
    returns (gone1: set<nat>)
    requires LacksOnlyOld(w.table, full, gone, clock) && clock <= now
    requires Timed(a) ==> TimeOf(a) == now
    requires a.RunCleanup? ==> a.retentionDays >= 7
    ensures LacksOnlyOld(Act(w, a).table, if a.Monitor? then TableStep(full, a.step) else full, gone1, now)
  {
    hide TableStep, Dated;
    forall pk | pk in full.rows ensures Dated(full.rows[pk], now) {
      DatedLater(full.rows[pk], clock, now);
    }
    match a
    case Monitor(s) =>
      gone1 := gone;
      StepIgnoresResolved(full, gone, s);
      StepDated(full, s, now);
    case WatchQueries(_) => gone1 := gone;
    case StoreReport(_, _, _) => gone1 := gone;
    case RunCleanup(days, at) =>
      if CleanupDue(w.lastCleanupAt, at) {
        gone1 := gone + Expired(w.table.rows, Cutoff(at, days));
        assert Act(w, a).table.rows == full.rows - gone1;
      } else {
        gone1 := gone;
      }
  }

  lemma {:induction false} RunLacksOnlyOld(actions: seq<Action>, clock: Instant) returns (gone: set<nat>)
    requires ReadingsAscendTo(actions, clock) && RetentionAtLeast(actions, 7)
    ensures LacksOnlyOld(After(actions).table, AfterWithoutCleanup(actions), gone, clock)
  {
    hide LacksOnlyOld, Act, TableStep;
    if actions == [] {
      gone := {};
      NothingGone(clock);
    } else {
      var n := |actions| - 1;
      var a := actions[n];
      var earlier := actions[..n];
      var now := if Timed(a) then TimeOf(a) else clock;
      gone := RunLacksOnlyOld(earlier, now);
      gone := LacksOnlyOldStep(After(earlier), AfterWithoutCleanup(earlier), gone, now, a, now);
      LacksLater(After(actions).table, AfterWithoutCleanup(actions), gone, now, clock);
    }
  }

  lemma NothingGone(clock: Instant)
    ensures LacksOnlyOld(Table(map[], 0), Table(map[], 0), {}, clock)
  {}

  lemma LacksLater(kept: Table, full: Table, gone: set<nat>, clock: Instant, later: Instant)
    requires LacksOnlyOld(kept, full, gone, clock) && clock <= later
    ensures LacksOnlyOld(kept, full, gone, later)
  {}

  lemma OldRowsUnreported(kept: Table, full: Table, gone: set<nat>, clock: Instant, reportAt: Instant,
                          instance: Option<nat>)
    requires LacksOnlyOld(kept, full, gone, clock) && clock <= reportAt
    ensures WeeklyAlerts(kept.rows, reportAt, instance) == WeeklyAlerts(full.rows, reportAt, instance)
  {
    forall pk | pk in gone ensures !InReport(full.rows[pk], reportAt, instance) {
      assert Dated(full.rows[pk], clock);
    }
  }

  /** Over any run with a clock that does not run backwards and retention of at
      least seven days, every report made at or after the run's last step has
      the same rows as if nothing had ever been cleaned up. */
  lemma CleanupInvisibleToReports(actions: seq<Action>, reportAt: Instant, instance: Option<nat>)
    requires ReadingsAscendTo(actions, reportAt) && RetentionAtLeast(actions, 7)
    ensures WeeklyAlerts(After(actions).table.rows, reportAt, instance) ==
              WeeklyAlerts(AfterWithoutCleanup(actions).rows, reportAt, instance)
  {
    hide LacksOnlyOld, WeeklyAlerts, After, AfterWithoutCleanup;
    var gone := RunLacksOnlyOld(actions, reportAt);
    OldRowsUnreported(After(actions).table, AfterWithoutCleanup(actions), gone, reportAt, reportAt, instance);
  }

  /** No report at or after the run can tell whether its cleanups were made. */
  ghost predicate Indistinguishable(actions: seq<Action>, reportAt: Instant) {
    WeeklyAlerts(After(actions).table.rows, reportAt, None) ==
    WeeklyAlerts(AfterWithoutCleanup(actions).rows, reportAt, None)
  }

  /** A pair is seen, then gone, and cleaned up when the retention has just passed. */
  function TooEarly(days: int): seq<Action> {
    var gone := Cutoff(0, days) - 1;
    [Monitor(Check(0, [LockRow(1, 2, Texts("", "", "", ""), 0)], 0, gone)), Monitor(Check(0, [], 0, gone)),
     RunCleanup(days, 0)]
  }

  lemma TooEarlyTables(days: int)
    ensures var row := LockRow(1, 2, Texts("", "", "", ""), 0);
            var gone := Cutoff(0, days) - 1;
            var t := TableStep(TableStep(Table(map[], 0), Check(0, [row], 0, gone)), Check(0, [], 0, gone));
            0 in t.rows && t.rows[0].firstSeenAt == t.rows[0].lastSeenAt == gone && t.rows[0].resolvedAt == Some(gone)
  {
    hide LockKey, Cutoff;
    var row := LockRow(1, 2, Texts("", "", "", ""), 0);
    var gone := Cutoff(0, days) - 1;
    var t0 := Table(map[], 0);
    var key := row.Key();
    assert [row][..0] == [];
    assert Collapse([row]) == Snapshot([key], map[key := row]);
    CollapseRepresents([row]);
    CollapseRepresents([]);
    var obs := ObservationOf([row], 0, gone);
    assert !HasActive(t0.rows, 0, key);
    assert [key][..0] == [];
    assert UpsertAll(t0, 0, [key], obs) == Table(map[0 := NewAlert(0, row, obs)], 1);
    ClearEffect(UpsertAll(t0, 0, [key], obs).rows, 0, obs.rows.Keys, gone);
    var t1 := TableStep(t0, Check(0, [row], 0, gone));
    assert t1.rows == map[0 := NewAlert(0, row, obs)];
    ClearEffect(t1.rows, 0, {}, gone);
  }

  /** A retention under seven days lets a report tell: the incident of this run was
      resolved within the last seven days and is missing from the report. */
  lemma ShortRetentionShows(days: int)
    requires days < 7
    ensures ReadingsAscendTo(TooEarly(days), 0) && RetentionAtLeast(TooEarly(days), days)
    ensures !Indistinguishable(TooEarly(days), 0)
  {
    hide TableStep;
    TooEarlyTables(days);
    var actions := TooEarly(days);
    assert actions[..1][..0] == [];
    assert actions[..2][..1] == actions[..1];
    assert |actions| - 1 == 2 && |actions[..2]| - 1 == 1 && |actions[..1]| - 1 == 0;
    var t1 := TableStep(Table(map[], 0), actions[0].step);
    assert After(actions[..1]) == EMPTY_WORLD.(table := t1) && AfterWithoutCleanup(actions[..1]) == t1;
    var t := TableStep(t1, actions[1].step);
    assert After(actions[..2]) == EMPTY_WORLD.(table := t) && AfterWithoutCleanup(actions[..2]) == t;
    assert AfterWithoutCleanup(actions) == t;
    assert 0 in WeeklyAlerts(t.rows, 0, None);
    assert 0 in Expired(t.rows, Cutoff(0, days));
    assert 0 !in After(actions).table.rows;
  }

  /** Seven days, the least the settings form accepts, is exactly the retention that
      keeps every run's cleanups invisible to reports. */
  lemma InvisibleIffSevenDays(days: int)
    ensures (forall actions, reportAt: Instant | ReadingsAscendTo(actions, reportAt)
              && RetentionAtLeast(actions, days) ::
               Indistinguishable(actions, reportAt))
            <==> days >= 7
  {
    hide After, AfterWithoutCleanup, ReadingsAscendTo, WeeklyAlerts, TooEarly;
    if days >= 7 {
      forall actions, reportAt: Instant | ReadingsAscendTo(actions, reportAt) && RetentionAtLeast(actions, days)
        ensures Indistinguishable(actions, reportAt)
      {
        CleanupInvisibleToReports(actions, reportAt, None);
      }
    } else {
      ShortRetentionShows(days);
    }
  }

  // ---- how long a resolved row, or an expired report, can stay ----

  function LastInvocation(actions: seq<Action>): Option<Instant> {
    if actions == [] then None
    else if actions[|actions| - 1].RunCleanup? then Some(actions[|actions| - 1].now)
    else LastInvocation(actions[..|actions| - 1])
  }

  ghost predicate RetentionAtMost(actions: seq<Action>, days: int) {
    forall i | 0 <= i < |actions| && actions[i].RunCleanup? :: actions[i].retentionDays <= days
  }

  ghost predicate NothingOlder(rows: map<nat, LockAlert>, bound: Instant) {
    forall pk | pk in rows && rows[pk].resolvedAt.Some? :: rows[pk].resolvedAt.value >= bound
  }

  lemma StepResolvesNow(t: Table, s: Step, bound: Instant)
    requires NothingOlder(t.rows, bound) && (s.Check? ==> s.now >= bound)
    ensures NothingOlder(TableStep(t, s).rows, bound)
  {
    hide UpsertAll, ClearVanished, LockKey, Collapse;
    match s
    case Check(instance, blocking, threshold, now) =>
      CollapseRepresents(blocking);
      var order, obs := Collapse(blocking).order, ObservationOf(blocking, threshold, now);
      assert forall k | k in order :: k in Elements(order);
      UpsertResolvesNothing(t, instance, order, obs, bound);
      ClearEffect(UpsertAll(t, instance, order, obs).rows, instance, obs.rows.Keys, now);
    case Kill(instance, pids, user) =>
  }

  lemma {:induction false} UpsertResolvesNothing(t: Table, instance: nat, order: seq<string>, obs: Observation,
                                                 bound: Instant)
    requires NothingOlder(t.rows, bound)
    requires forall k | k in order :: k in obs.rows
    ensures NothingOlder(UpsertAll(t, instance, order, obs).rows, bound)
  {
    hide NewAlert, Observe, LockKey, HasActive;
    if order != [] {
      UpsertResolvesNothing(t, instance, order[..|order| - 1], obs, bound);
    }
  }

  ghost predicate NoQueryOlder(rows: map<nat, LongQueryAlert>, bound: Instant) {
    forall pk | pk in rows && rows[pk].resolvedAt.Some? :: rows[pk].resolvedAt.value >= bound
  }

  ghost predicate NoReportOlder(reports: map<nat, Instant>, bound: Instant) {
    forall pk | pk in reports :: reports[pk] >= bound
  }

  lemma CheckResolvesNow(t: LongQueries.Records, c: LongQueries.QueryCheck, bound: Instant)
    requires LongQueries.RecordsOk(t) && NoQueryOlder(t.rows, bound) && c.now >= bound
    ensures LongQueries.RecordsOk(LongQueries.CheckQueries(t, c).records)
    ensures NoQueryOlder(LongQueries.CheckQueries(t, c).records.rows, bound)
  {
    hide LongQueries.CheckQueries, LongQueries.RecordsOk, LongQueries.Qualifying;
    LongQueries.CheckEffect(t, c);
    var t1 := LongQueries.CheckQueries(t, c).records;
    forall pk | pk in t1.rows && t1.rows[pk].resolvedAt.Some? ensures t1.rows[pk].resolvedAt.value >= bound {
      assert pk in t.rows;
      assert LongQueries.RowAdvanced(t.rows[pk], t1.rows[pk], c);
    }
  }

  lemma {:induction false} QueriesStayOk(actions: seq<Action>)
    ensures LongQueries.RecordsOk(After(actions).queries)
  {
    hide LongQueries.CheckQueries, TableStep;
    if actions != [] {
      var n := |actions| - 1;
      QueriesStayOk(actions[..n]);
      if actions[n].WatchQueries? {
        LongQueries.CheckKeepsOk(After(actions[..n]).queries, actions[n].check);
      }
    }
  }

  /** Everything cleanup would have deleted at time c is gone. */
  ghost predicate CleanSince(w: World, c: Instant, days: int) {
    && NothingOlder(w.table.rows, Cutoff(c, days))
    && NoQueryOlder(w.queries.rows, Cutoff(c, days))
    && NoReportOlder(w.reports, c)
  }

  /** Steps after c keep it so. */
  lemma StaysClean(w: World, a: Action, c: Instant, days: int)
    requires CleanSince(w, c, days) && LongQueries.RecordsOk(w.queries)
    requires !a.RunCleanup? && (Timed(a) ==> TimeOf(a) >= c)
    ensures CleanSince(Act(w, a), c, days)
  {
    hide TableStep, LongQueries.CheckQueries, Cutoff, LongQueries.RecordsOk, NothingOlder, NoQueryOlder;
    CutoffIsPast(c, days);
    match a
    case Monitor(s) => StepResolvesNow(w.table, s, Cutoff(c, days));
    case WatchQueries(check) => CheckResolvesNow(w.queries, check, Cutoff(c, days));
    case StoreReport(_, _, _) =>
  }

  /** A due cleanup at c with no more than the given retention makes it so; any
      other leaves everything as it was. */
  lemma CleanupCleans(w: World, retention: int, now: Instant, days: int)
    requires retention <= days
    ensures var w1 := Act(w, RunCleanup(retention, now));
            if CleanupDue(w.lastCleanupAt, now) then w1.lastCleanupAt == Some(now) && CleanSince(w1, now, days)
               else w1 == w
  {}

  /** At the last invocation v, the last effective cleanup c was less than 24 h old,
      and nothing is left that a cleanup at c with the longest retention in force so
      far would delete. */
  lemma {:induction false} CleanupKeepsUp(actions: seq<Action>, clock: Instant, days: int)
    requires ReadingsAscendTo(actions, clock) && RetentionAtMost(actions, days)
    ensures LastInvocation(actions).Some? <==> After(actions).lastCleanupAt.Some?
    ensures LastInvocation(actions).Some? ==>
              var c, v := After(actions).lastCleanupAt.value, LastInvocation(actions).value;
              c <= v <= clock && v - c < 24 * HOUR && CleanSince(After(actions), c, days)
  {
    hide TableStep, LongQueries.CheckQueries, CleanSince, LongQueries.RecordsOk;
    if actions != [] {
      var n := |actions| - 1;
      var a := actions[n];
      var earlier := actions[..n];
      CleanupKeepsUp(earlier, if Timed(a) then TimeOf(a) else clock, days);
      var w := After(earlier);
      if a.RunCleanup? {
        CleanupCleans(w, a.retentionDays, a.now, days);
      } else if w.lastCleanupAt.Some? {
        QueriesStayOk(earlier);
        StaysClean(w, a, w.lastCleanupAt.value, days);
      }
    }
  }

  lemma CutoffIsPast(c: Instant, days: int)
    ensures Cutoff(c, days) <= c
  {}

  /** Cleanup lag: if at time t the last invocation of cleanup is at most g ago, no
      incident and no long query resolved more than retention + 24 h + g before t is
      left, and no report that expired more than 24 h + g before t. The retention is
      the longest that was in force, however it was changed. */
  lemma NothingOutstaysRetention(actions: seq<Action>, t: Instant, g: int, days: int)
    requires ReadingsAscendTo(actions, t) && RetentionAtMost(actions, days)
    requires LastInvocation(actions).Some? && t - LastInvocation(actions).value <= g
    ensures var w, lag := After(actions), 24 * HOUR + g;
            && (forall pk | pk in w.table.rows && w.table.rows[pk].resolvedAt.Some? ::
                  t - w.table.rows[pk].resolvedAt.value < Max(1, days) * DAY + lag)
            && (forall pk | pk in w.queries.rows && w.queries.rows[pk].resolvedAt.Some? ::
                  t - w.queries.rows[pk].resolvedAt.value < Max(1, days) * DAY + lag)
            && (forall pk | pk in w.reports :: t - w.reports[pk] < lag)
  {
    hide After, LastInvocation;
    CleanupKeepsUp(actions, t, days);
  }
}
