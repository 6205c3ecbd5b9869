/**
 The incident table: what one successful check does to it, and what the table
 then says about the whole history of checks.
 */
module Incidents {
  import opened Wrappers
  import opened Text
  import opened Models

  // ---- collapsing one lock query's rows ----

  /** `unique_blocking`: a dictionary with its insertion order. */
  datatype Snapshot = Snapshot(order: seq<string>, rows: map<string, LockRow>)

  function CollapseRow(s: Snapshot, row: LockRow): Snapshot {
    var k := row.Key();
    if k !in s.rows then Snapshot(s.order + [k], s.rows[k := row])
    else if row.waiting > s.rows[k].waiting then s.(rows := s.rows[k := row])
    else s
  }

  function Collapse(blocking: seq<LockRow>): Snapshot {
    if blocking == [] then Snapshot([], map[])
    else CollapseRow(Collapse(blocking[..|blocking| - 1]), blocking[|blocking| - 1])
  }

  ghost predicate FirstLongestWait(blocking: seq<LockRow>, k: string, i: int) {
    && 0 <= i < |blocking| && blocking[i].Key() == k
    && forall j | 0 <= j < |blocking| && blocking[j].Key() == k ::
         blocking[j].waiting <= blocking[i].waiting && (j < i ==> blocking[j].waiting < blocking[i].waiting)
  }

  ghost predicate ChoosesFirstLongest(blocking: seq<LockRow>, k: string, row: LockRow) {
    exists i :: FirstLongestWait(blocking, k, i) && row == blocking[i]
  }

  ghost predicate Represents(s: Snapshot, blocking: seq<LockRow>) {
    && Distinct(s.order) && Elements(s.order) == s.rows.Keys
    && (forall row | row in blocking :: row.Key() in s.rows)
    && (forall k | k in s.rows :: ChoosesFirstLongest(blocking, k, s.rows[k]))
  }

  lemma KeepsFirstLongest(front: seq<LockRow>, row: LockRow, k: string, best: LockRow)
    requires ChoosesFirstLongest(front, k, best)
    ensures k != row.Key() || row.waiting <= best.waiting ==> ChoosesFirstLongest(front + [row], k, best)
    ensures k == row.Key() && row.waiting > best.waiting ==> ChoosesFirstLongest(front + [row], k, row)
  {
    hide LockKey;
    var i :| FirstLongestWait(front, k, i) && best == front[i];
    var blocking := front + [row];
    assert blocking[i] == best && blocking[|front|] == row;
    if k == row.Key() && row.waiting > best.waiting {
      assert FirstLongestWait(blocking, k, |front|);
    } else {
      assert FirstLongestWait(blocking, k, i);
    }
  }

  lemma FirstOfItsKey(front: seq<LockRow>, row: LockRow)
    requires forall r | r in front :: r.Key() != row.Key()
    ensures ChoosesFirstLongest(front + [row], row.Key(), row)
  {
    hide LockKey;
    assert FirstLongestWait(front + [row], row.Key(), |front|) by {
      assert forall j | 0 <= j < |front| :: front[j] in front;
    }
  }

  /** Every pair reported appears exactly once, as the first of its rows with the longest wait. */
  lemma {:induction false} CollapseRepresents(blocking: seq<LockRow>)
    ensures Represents(Collapse(blocking), blocking)
  {
    hide LockKey, ChoosesFirstLongest;
    if blocking != [] {
      var n := |blocking| - 1;
      var front, row := blocking[..n], blocking[n];
      CollapseRepresents(front);
      var before := Collapse(front);
      assert blocking == front + [row];
      if row.Key() !in before.rows {
        FirstOfItsKey(front, row);
      }
      forall k | k in before.rows
        ensures ChoosesFirstLongest(blocking, k, CollapseRow(before, row).rows[k])
      {
        KeepsFirstLongest(front, row, k, before.rows[k]);
      }
    }
  }

  method CollapseRows(blocking: seq<LockRow>) returns (unique: Snapshot)
    ensures unique == Collapse(blocking)
    ensures Represents(unique, blocking)
  {
    unique := Snapshot([], map[]);
    for n := 0 to |blocking|
      invariant unique == Collapse(blocking[..n])
    {
      var row := blocking[n];
      var key := row.Key();
      assert blocking[..n + 1][..n] == blocking[..n];
      if key !in unique.rows {
        unique := Snapshot(unique.order + [key], unique.rows[key := row]);
      } else if row.waiting > unique.rows[key].waiting {
        unique := unique.(rows := unique.rows[key := row]);
      }
    }
    assert blocking[..|blocking|] == blocking;
    CollapseRepresents(blocking);
  }

  // ---- the statements of one check ----

  /** What one check saw: its clock reading, its threshold, and the collapsed rows. */
  datatype Observation = Observation(now: Instant, threshold: int, rows: map<string, LockRow>) {
    ghost predicate WellKeyed() { forall k | k in rows :: rows[k].Key() == k }
  }

  datatype Table = Table(rows: map<nat, LockAlert>, next: nat)

  ghost predicate FreshIds(t: Table) { forall pk | pk in t.rows :: pk < t.next }

  predicate HasActive(rows: map<nat, LockAlert>, instance: nat, key: string) {
    exists pk | pk in rows :: rows[pk].ActiveFor(instance, key)
  }

  /** The partial unique constraint on (instance, alert_key) where resolved_at is null. */
  ghost predicate UniqueActive(rows: map<nat, LockAlert>) {
    forall p, q | p in rows && q in rows && rows[p].Active() && rows[q].Active()
                  && rows[p].instance == rows[q].instance && rows[p].key == rows[q].key :: p == q
  }

  function Latch(a: LockAlert, obs: Observation): LockAlert {
    if a.waitingSeconds >= obs.threshold && a.alertedAt == None then a.(alertedAt := Some(obs.now)) else a
  }

  function NewAlert(instance: nat, row: LockRow, obs: Observation): (a: LockAlert)
    ensures a.ActiveFor(instance, row.Key())
  {
    Latch(LockAlert(instance, row.Key(), row.blockedPid, row.blockingPid,
                    row.texts, Max(0, row.waiting), obs.now, obs.now, None, None, NoReason, ""), obs)
  }

  function Observe(a: LockAlert, row: LockRow, obs: Observation): (b: LockAlert)
    ensures b.instance == a.instance && b.key == a.key && b.resolvedAt == a.resolvedAt
  {
    var waiting := if row.waiting != 0 then Max(0, row.waiting) else a.waitingSeconds;
    Latch(a.(lastSeenAt := obs.now, texts := a.texts.Refreshed(row.texts), waitingSeconds := waiting), obs)
  }

  /** One iteration of the upsert loop: get_or_create, refresh, latch. */
  function UpsertOne(t: Table, instance: nat, key: string, obs: Observation): Table
    requires key in obs.rows
  {
    if HasActive(t.rows, instance, key) then
      t.(rows := map pk | pk in t.rows ::
           if t.rows[pk].ActiveFor(instance, key) then Observe(t.rows[pk], obs.rows[key], obs) else t.rows[pk])
    else
      Table(t.rows[t.next := NewAlert(instance, obs.rows[key], obs)], t.next + 1)
  }

  function UpsertAll(t: Table, instance: nat, order: seq<string>, obs: Observation): Table
    requires forall k | k in order :: k in obs.rows
  {
    if order == [] then t
    else
      var n := |order| - 1;
      UpsertOne(UpsertAll(t, instance, order[..n], obs), instance, order[n], obs)
  }

  /** The ids the check collects before it clears them. */
  function Vanished(rows: map<nat, LockAlert>, instance: nat, seen: set<string>): set<nat> {
    set pk | pk in rows && rows[pk].Active() && rows[pk].instance == instance && rows[pk].key !in seen
  }

  function Resolved(rows: map<nat, LockAlert>, ids: set<nat>, now: Instant): map<nat, LockAlert> {
    map pk | pk in rows :: if pk in ids then rows[pk].(resolvedAt := Some(now)) else rows[pk]
  }

  function Labelled(rows: map<nat, LockAlert>, ids: set<nat>): map<nat, LockAlert> {
    map pk | pk in rows ::
      if pk in ids && rows[pk].clearReason == NoReason then rows[pk].(clearReason := AutoClear) else rows[pk]
  }

  /** What a cleanup with this cutoff deletes. */
  function Expired(rows: map<nat, LockAlert>, cutoff: Instant): set<nat> {
    set pk | pk in rows && rows[pk].resolvedAt.Some? && rows[pk].resolvedAt.value < cutoff
  }

  predicate Covers(a: LockAlert, instance: nat, pids: set<int>) {
    a.instance == instance && (a.blockedPid in pids || a.blockingPid in pids)
  }

  /** `_mark_manual_kill`: one UPDATE over the unresolved rows that involve a killed PID. */
  function MarkKilled(rows: map<nat, LockAlert>, instance: nat, pids: set<int>, user: string): map<nat, LockAlert> {
    map pk | pk in rows ::
      if rows[pk].Active() && Covers(rows[pk], instance, pids)
      then rows[pk].(clearReason := ManualKill, clearedBy := user) else rows[pk]
  }

  /** A kill of either PID of a pair, the blocked or the blocking one, marks its
      unresolved incident on that database with the operator, and changes nothing else. */
  lemma KillMarksEitherPid(rows: map<nat, LockAlert>, instance: nat, pids: set<int>, user: string)
    ensures var after := MarkKilled(rows, instance, pids, user);
            && after.Keys == rows.Keys
            && forall pk | pk in rows ::
                 after[pk] == if rows[pk].resolvedAt == None && rows[pk].instance == instance
                                 && (rows[pk].blockedPid in pids || rows[pk].blockingPid in pids)
                              then rows[pk].(clearReason := ManualKill, clearedBy := user) else rows[pk]
  {}

  function ClearVanished(rows: map<nat, LockAlert>, instance: nat, seen: set<string>,
                         now: Instant): map<nat, LockAlert> {
    var ids := Vanished(rows, instance, seen);
    Labelled(Resolved(rows, ids, now), ids)
  }

  function CheckTable(t: Table, instance: nat, order: seq<string>, obs: Observation): Table
    requires Elements(order) == obs.rows.Keys
  {
    var u := UpsertAll(t, instance, order, obs);
    u.(rows := ClearVanished(u.rows, instance, obs.rows.Keys, obs.now))
  }

  // ---- what a check amounts to, row by row ----

  /** Ids that `t1` has and `t` has not are new incidents of pairs in `keys` without an active one in `t`. */
  ghost predicate NewRows(t: Table, t1: Table, instance: nat, keys: set<string>, obs: Observation) {
    forall pk | pk in t1.rows && pk !in t.rows ::
      && t1.rows[pk].key in keys && t1.rows[pk].key in obs.rows && !HasActive(t.rows, instance, t1.rows[pk].key)
      && t1.rows[pk] == NewAlert(instance, obs.rows[t1.rows[pk].key], obs)
  }

  ghost predicate OneRowPerKey(t: Table, t1: Table) {
    forall p, q | p in t1.rows && q in t1.rows && p !in t.rows && q !in t.rows && p != q ::
      t1.rows[p].key != t1.rows[q].key
  }

  ghost predicate HasNewRow(t: Table, t1: Table, key: string) {
    exists pk :: pk in t1.rows && pk !in t.rows && t1.rows[pk].key == key
  }

  ghost predicate EveryKeyActive(t: Table, t1: Table, instance: nat, keys: set<string>) {
    forall k | k in keys && !HasActive(t.rows, instance, k) :: HasNewRow(t, t1, k)
  }

  function Refresh(a: LockAlert, instance: nat, keys: set<string>, obs: Observation): LockAlert {
    if a.Active() && a.instance == instance && a.key in keys && a.key in obs.rows
    then Observe(a, obs.rows[a.key], obs) else a
  }

  /** `t1` is `t` after the upsert loop has handled exactly `keys`. */
  ghost predicate Upserted(t: Table, t1: Table, instance: nat, keys: set<string>, obs: Observation) {
    && t.rows.Keys <= t1.rows.Keys && FreshIds(t1)
    && (forall pk | pk in t.rows :: t1.rows[pk] == Refresh(t.rows[pk], instance, keys, obs))
    && NewRows(t, t1, instance, keys, obs)
    && OneRowPerKey(t, t1)
    && EveryKeyActive(t, t1, instance, keys)
  }

  /** The upsert loop has not yet decided whether an unhandled pair is active. */
  lemma ActivityUndecided(t: Table, t1: Table, instance: nat, keys: set<string>, key: string, obs: Observation)
    requires Upserted(t, t1, instance, keys, obs) && key !in keys
    ensures forall pk | pk in t1.rows :: t1.rows[pk].ActiveFor(instance, key) ==>
              pk in t.rows && t.rows[pk].ActiveFor(instance, key)
    ensures HasActive(t1.rows, instance, key) == HasActive(t.rows, instance, key)
  {
    hide NewAlert, Observe, OneRowPerKey, EveryKeyActive;
    if HasActive(t.rows, instance, key) {
      var pk :| pk in t.rows && t.rows[pk].ActiveFor(instance, key);
      assert t1.rows[pk].ActiveFor(instance, key);
    }
  }

  lemma UpsertExisting(t: Table, t1: Table, instance: nat, keys: set<string>, key: string, obs: Observation)
    requires Upserted(t, t1, instance, keys, obs) && key !in keys && key in obs.rows
    requires HasActive(t.rows, instance, key)
    ensures Upserted(t, UpsertOne(t1, instance, key, obs), instance, keys + {key}, obs)
  {
    hide NewAlert, Observe, HasActive, HasNewRow, LockKey, OneRowPerKey, NewRows;
    ActivityUndecided(t, t1, instance, keys, key, obs);
    var t2 := UpsertOne(t1, instance, key, obs);
    assert NewRows(t, t2, instance, keys + {key}, obs) && OneRowPerKey(t, t2) by {
      SameNewRowsAll(t, t1, t2, instance, keys, key, obs);
    }
    assert t2.rows.Keys == t1.rows.Keys;
    assert forall pk | pk in t1.rows && pk !in t.rows :: t2.rows[pk] == t1.rows[pk];
    forall k | k in keys + {key} && !HasActive(t.rows, instance, k)
      ensures HasNewRow(t, t2, k)
    {
      SameNewRows(t, t1, t2, k);
    }
  }

  lemma SameNewRowsAll(t: Table, t1: Table, t2: Table, instance: nat, keys: set<string>, key: string, obs: Observation)
    requires NewRows(t, t1, instance, keys, obs) && OneRowPerKey(t, t1) && t2.rows.Keys == t1.rows.Keys
    requires forall pk | pk in t1.rows && pk !in t.rows :: t2.rows[pk] == t1.rows[pk]
    ensures NewRows(t, t2, instance, keys + {key}, obs) && OneRowPerKey(t, t2)
  {
    hide NewAlert, HasActive;
  }

  lemma SameNewRows(t: Table, t1: Table, t2: Table, k: string)
    requires HasNewRow(t, t1, k)
    requires t1.rows.Keys <= t2.rows.Keys
    requires forall pk | pk in t1.rows && pk !in t.rows :: t2.rows[pk] == t1.rows[pk]
    ensures HasNewRow(t, t2, k)
  {
    var pk :| pk in t1.rows && pk !in t.rows && t1.rows[pk].key == k;
    assert t2.rows[pk] == t1.rows[pk];
  }

  lemma UpsertMissing(t: Table, t1: Table, instance: nat, keys: set<string>, key: string, obs: Observation)
    requires FreshIds(t) && obs.WellKeyed()
    requires Upserted(t, t1, instance, keys, obs) && key !in keys && key in obs.rows
    requires !HasActive(t.rows, instance, key)
    ensures Upserted(t, UpsertOne(t1, instance, key, obs), instance, keys + {key}, obs)
  {
    hide NewAlert, Observe, HasNewRow, LockKey;
    ActivityUndecided(t, t1, instance, keys, key, obs);
    var t2 := UpsertOne(t1, instance, key, obs);
    assert forall pk | pk in t.rows :: !t.rows[pk].ActiveFor(instance, key);
    assert t2.rows[t1.next].key == key && t1.next !in t1.rows;
    assert HasNewRow(t, t2, key) by { NewRowIsNew(t, t2, t1.next, key); }
    forall k | k in keys + {key} && !HasActive(t.rows, instance, k)
      ensures HasNewRow(t, t2, k)
    {
      if k != key { SameNewRows(t, t1, t2, k); }
    }
  }

  lemma NewRowIsNew(t: Table, t1: Table, pk: nat, k: string)
    requires pk in t1.rows && pk !in t.rows && t1.rows[pk].key == k
    ensures HasNewRow(t, t1, k)
  {}

  lemma {:induction false} UpsertAllEffect(t: Table, instance: nat, order: seq<string>, obs: Observation)
    requires FreshIds(t) && obs.WellKeyed() && Distinct(order)
    requires forall k | k in order :: k in obs.rows
    ensures Upserted(t, UpsertAll(t, instance, order, obs), instance, Elements(order), obs)
  {
    hide UpsertOne, Observe, NewAlert, LockKey, HasActive, HasNewRow;
    if order != [] {
      var n := |order| - 1;
      UpsertAllEffect(t, instance, order[..n], obs);
      assert Elements(order) == Elements(order[..n]) + {order[n]};
      var t1 := UpsertAll(t, instance, order[..n], obs);
      if HasActive(t.rows, instance, order[n]) {
        UpsertExisting(t, t1, instance, Elements(order[..n]), order[n], obs);
      } else {
        UpsertMissing(t, t1, instance, Elements(order[..n]), order[n], obs);
      }
    }
  }

  /** What happens to a row that existed before the check. */
  function Touch(a: LockAlert, instance: nat, obs: Observation): (b: LockAlert)
    ensures b.instance == a.instance && b.key == a.key
    ensures b.Active() <==> a.Active() && (a.instance == instance ==> a.key in obs.rows)
  {
    if !a.Active() || a.instance != instance then a
    else if a.key in obs.rows then Observe(a, obs.rows[a.key], obs)
    else a.(resolvedAt := Some(obs.now), clearReason := if a.clearReason == NoReason then AutoClear else a.clearReason)
  }

  ghost predicate Checked(t: Table, t1: Table, instance: nat, obs: Observation) {
    && t.rows.Keys <= t1.rows.Keys && FreshIds(t1)
    && (forall pk | pk in t.rows :: t1.rows[pk] == Touch(t.rows[pk], instance, obs))
    && NewRows(t, t1, instance, obs.rows.Keys, obs)
    && OneRowPerKey(t, t1)
    && EveryKeyActive(t, t1, instance, obs.rows.Keys)
  }

  function Clear(a: LockAlert, instance: nat, seen: set<string>, now: Instant): LockAlert {
    if a.Active() && a.instance == instance && a.key !in seen
    then a.(resolvedAt := Some(now), clearReason := if a.clearReason == NoReason then AutoClear else a.clearReason)
    else a
  }

  lemma ClearEffect(rows: map<nat, LockAlert>, instance: nat, seen: set<string>, now: Instant)
    ensures ClearVanished(rows, instance, seen, now) == map pk | pk in rows :: Clear(rows[pk], instance, seen, now)
  {
    var cleared := ClearVanished(rows, instance, seen, now);
    assert cleared.Keys == rows.Keys;
    assert forall pk | pk in rows :: cleared[pk] == Clear(rows[pk], instance, seen, now);
  }

  lemma ClearAfterRefresh(a: LockAlert, instance: nat, obs: Observation)
    ensures Clear(Refresh(a, instance, obs.rows.Keys, obs), instance, obs.rows.Keys, obs.now) == Touch(a, instance, obs)
  {}

  lemma CheckEffect(t: Table, instance: nat, order: seq<string>, obs: Observation)
    requires FreshIds(t) && obs.WellKeyed()
    requires Distinct(order) && Elements(order) == obs.rows.Keys
    ensures Checked(t, CheckTable(t, instance, order, obs), instance, obs)
  {
    hide NewAlert, Observe, LockKey, UpsertAll, HasActive, HasNewRow, ClearVanished, Touch, Refresh, OneRowPerKey,
         EveryKeyActive;
    assert forall k | k in order :: k in Elements(order);
    UpsertAllEffect(t, instance, order, obs);
    var u := UpsertAll(t, instance, order, obs);
    var t1 := CheckTable(t, instance, order, obs);
    ClearEffect(u.rows, instance, obs.rows.Keys, obs.now);
    assert t1.rows.Keys == u.rows.Keys;
    forall pk | pk in t.rows ensures t1.rows[pk] == Touch(t.rows[pk], instance, obs) {
      ClearAfterRefresh(t.rows[pk], instance, obs);
    }
    assert forall pk | pk in u.rows && pk !in t.rows :: t1.rows[pk] == u.rows[pk];
    NewRowsSurvive(t, u, t1, instance, obs.rows.Keys, obs);
  }

  lemma NewRowsSurvive(t: Table, u: Table, t1: Table, instance: nat, keys: set<string>, obs: Observation)
    requires t1.rows.Keys == u.rows.Keys
    requires forall pk | pk in u.rows && pk !in t.rows :: t1.rows[pk] == u.rows[pk]
    requires NewRows(t, u, instance, keys, obs) && OneRowPerKey(t, u) && EveryKeyActive(t, u, instance, keys)
    ensures NewRows(t, t1, instance, keys, obs) && OneRowPerKey(t, t1) && EveryKeyActive(t, t1, instance, keys)
  {
    hide NewAlert, HasActive, HasNewRow;
    forall k | k in keys && !HasActive(t.rows, instance, k)
      ensures HasNewRow(t, t1, k)
    {
      SameNewRows(t, u, t1, k);
    }
  }

  // ---- the table as an account of the history ----

  /** The first and last check of an incident, as positions in its database's history. */
  datatype Run = Run(start: nat, end: nat)

  type History = seq<Observation>

  /** A maximal block of consecutive checks that all saw the pair. */
  ghost predicate MaximalRun(h: History, key: string, r: Run) {
    && r.start <= r.end < |h|
    && (forall j | r.start <= j <= r.end :: key in h[j].rows)
    && (r.start > 0 ==> key !in h[r.start - 1].rows)
    && (r.end + 1 < |h| ==> key !in h[r.end + 1].rows)
  }

  ghost predicate PresentThroughout(h: History, key: string, s: nat, e: nat) {
    s <= e < |h| && forall j | s <= j <= e :: key in h[j].rows
  }

  /** The wait an incident carries at check e: the last wait reported since s. */
  ghost function CarriedWait(h: History, key: string, s: nat, e: nat): nat
    requires PresentThroughout(h, key, s, e)
    decreases e
  {
    if h[e].rows[key].waiting != 0 then Max(0, h[e].rows[key].waiting)
    else if e == s then 0 else CarriedWait(h, key, s, e - 1)
  }

  /** The last non-empty text reported since s. */
  ghost function CarriedText(h: History, key: string, s: nat, e: nat, f: TextField): string
    requires PresentThroughout(h, key, s, e)
    decreases e
  {
    if h[e].rows[key].texts.Get(f) != "" then h[e].rows[key].texts.Get(f)
    else if e == s then "" else CarriedText(h, key, s, e - 1, f)
  }

  ghost predicate ThresholdMet(h: History, key: string, s: nat, e: nat)
    requires PresentThroughout(h, key, s, e)
  {
    CarriedWait(h, key, s, e) >= h[e].threshold
  }

  /** `alertedAt` is the reading of the first check in s..e that met its own threshold. */
  ghost predicate AlertLatched(alertedAt: Option<Instant>, h: History, key: string, s: nat, e: nat)
    requires PresentThroughout(h, key, s, e)
  {
    match alertedAt
    case None => forall j | s <= j <= e :: !ThresholdMet(h, key, s, j)
    case Some(at) =>
      exists j :: s <= j <= e && ThresholdMet(h, key, s, j) && at == h[j].now
                  && forall i | s <= i < j :: !ThresholdMet(h, key, s, i)
  }

  ghost predicate DescribesRun(a: LockAlert, h: History, r: Run) {
    && LockKey(a.blockedPid, a.blockingPid) == a.key
    && MaximalRun(h, a.key, r)
    && a.firstSeenAt == h[r.start].now
    && a.lastSeenAt == h[r.end].now
    && a.resolvedAt == (if r.end + 1 < |h| then Some(h[r.end + 1].now) else None)
    && a.waitingSeconds == CarriedWait(h, a.key, r.start, r.end)
    && (forall f: TextField :: a.texts.Get(f) == CarriedText(h, a.key, r.start, r.end, f))
    && AlertLatched(a.alertedAt, h, a.key, r.start, r.end)
  }

  function HistoryOf(histories: map<nat, History>, instance: nat): History {
    if instance in histories then histories[instance] else []
  }

  /** Incidents and maximal runs correspond one to one. */
  ghost predicate Refines(rows: map<nat, LockAlert>, histories: map<nat, History>, runs: map<nat, Run>) {
    && runs.Keys == rows.Keys
    && (forall pk | pk in rows :: DescribesRun(rows[pk], HistoryOf(histories, rows[pk].instance), runs[pk]))
    && (forall p, q | p in rows && q in rows && p != q && rows[p].instance == rows[q].instance
        && rows[p].key == rows[q].key ::
          runs[p] != runs[q])
    && (forall i: nat, key: string, r: Run | MaximalRun(HistoryOf(histories, i), key, r) ::
        Recorded(rows, runs, i, key, r))
  }

  ghost predicate Recorded(rows: map<nat, LockAlert>, runs: map<nat, Run>, i: nat, key: string, r: Run) {
    exists pk :: pk in rows && pk in runs && rows[pk].instance == i && rows[pk].key == key && runs[pk] == r
  }

  /** Consequences of the correspondence: one active incident per pair, and the
      active pairs of a database are exactly those its last check saw. */
  lemma ActiveIncidents(rows: map<nat, LockAlert>, histories: map<nat, History>, runs: map<nat, Run>)
    requires Refines(rows, histories, runs)
    ensures UniqueActive(rows)
    ensures forall i: nat, key: string :: HasActive(rows, i, key) <==>
              var h := HistoryOf(histories, i); h != [] && key in h[|h| - 1].rows
  {
    hide HasActive, LockKey, CarriedWait, CarriedText, AlertLatched;
    forall p, q | p in rows && q in rows && rows[p].Active() && rows[q].Active()
                  && rows[p].instance == rows[q].instance && rows[p].key == rows[q].key
      ensures p == q
    {
      SameEndSameRun(HistoryOf(histories, rows[p].instance), rows[p].key, runs[p], runs[q]);
    }
    forall i: nat, key: string
      ensures HasActive(rows, i, key) <==> var h := HistoryOf(histories, i); h != [] && key in h[|h| - 1].rows
    {
      ActivePair(rows, histories, runs, i, key);
    }
  }

  lemma ActivePair(rows: map<nat, LockAlert>, histories: map<nat, History>, runs: map<nat, Run>, i: nat, key: string)
    requires Refines(rows, histories, runs)
    ensures HasActive(rows, i, key) <==> var h := HistoryOf(histories, i); h != [] && key in h[|h| - 1].rows
  {
    hide LockKey, CarriedWait, CarriedText, AlertLatched;
    var h := HistoryOf(histories, i);
    if h != [] && key in h[|h| - 1].rows {
      var s := RunStart(h, key, |h| - 1);
      assert MaximalRun(h, key, Run(s, |h| - 1));
      var pk := RecordedAt(rows, runs, i, key, Run(s, |h| - 1));
      assert rows[pk].ActiveFor(i, key);
    }
  }

  lemma SameEndSameRun(h: History, key: string, a: Run, b: Run)
    requires MaximalRun(h, key, a) && MaximalRun(h, key, b) && a.end == b.end
    ensures a == b
  {
    assert b.start > 0 ==> key !in h[b.start - 1].rows;
    assert a.start > 0 ==> key !in h[a.start - 1].rows;
  }

  /** Where the run that is still present at e began. */
  ghost function RunStart(h: History, key: string, e: nat): (s: nat)
    requires e < |h| && key in h[e].rows
    ensures PresentThroughout(h, key, s, e)
    ensures s > 0 ==> key !in h[s - 1].rows
  {
    if e > 0 && key in h[e - 1].rows then RunStart(h, key, e - 1) else e
  }

  /** With a clock that does not run backwards an incident's dates are in order. */
  lemma Chronology(a: LockAlert, h: History, r: Run)
    requires DescribesRun(a, h, r)
    requires forall i, j | 0 <= i <= j < |h| :: h[i].now <= h[j].now
    ensures a.firstSeenAt <= a.lastSeenAt
    ensures a.alertedAt.Some? ==> a.firstSeenAt <= a.alertedAt.value <= a.lastSeenAt
    ensures a.resolvedAt.Some? ==> a.lastSeenAt <= a.resolvedAt.value
  {}

  // ---- a check extends the history by one observation ----

  lemma {:induction false} CarriedPrefix(h: History, o: Observation, key: string, s: nat, e: nat)
    requires PresentThroughout(h, key, s, e)
    ensures PresentThroughout(h + [o], key, s, e)
    ensures CarriedWait(h + [o], key, s, e) == CarriedWait(h, key, s, e)
    ensures forall f :: CarriedText(h + [o], key, s, e, f) == CarriedText(h, key, s, e, f)
    decreases e
  {
    if e > s { CarriedPrefix(h, o, key, s, e - 1); }
  }

  lemma LatchPrefix(alertedAt: Option<Instant>, h: History, o: Observation, key: string, s: nat, e: nat)
    requires PresentThroughout(h, key, s, e)
    requires AlertLatched(alertedAt, h, key, s, e)
    ensures PresentThroughout(h + [o], key, s, e)
    ensures AlertLatched(alertedAt, h + [o], key, s, e)
  {
    forall j | s <= j <= e
      ensures PresentThroughout(h + [o], key, s, j)
      ensures ThresholdMet(h + [o], key, s, j) <==> ThresholdMet(h, key, s, j)
    {
      CarriedPrefix(h, o, key, s, j);
    }
    match alertedAt
    case None =>
    case Some(at) =>
      var j :| s <= j <= e && ThresholdMet(h, key, s, j) && at == h[j].now
               && forall i | s <= i < j :: !ThresholdMet(h, key, s, i);
      assert ThresholdMet(h + [o], key, s, j) && at == (h + [o])[j].now;
  }

  /** A row of the checked database that existed before: unchanged, extended or resolved. */
  lemma TouchDescribes(a: LockAlert, h: History, r: Run, o: Observation)
    requires DescribesRun(a, h, r)
    ensures DescribesRun(Touch(a, a.instance, o), h + [o], NextRun(a, r, |h|, o))
  {
    hide LockKey, CarriedWait, CarriedText, AlertLatched, Observe;
    CarriedPrefix(h, o, a.key, r.start, r.end);
    LatchPrefix(a.alertedAt, h, o, a.key, r.start, r.end);
    if a.Active() && a.key in o.rows {
      ObserveDescribes(a, h, r, o);
    }
  }

  lemma ObserveDescribes(a: LockAlert, h: History, r: Run, o: Observation)
    requires DescribesRun(a, h, r) && a.Active() && a.key in o.rows
    ensures DescribesRun(Observe(a, o.rows[a.key], o), h + [o], Run(r.start, |h|))
  {
    hide LockKey;
    var h1, n := h + [o], |h|;
    CarriedPrefix(h, o, a.key, r.start, r.end);
    LatchPrefix(a.alertedAt, h, o, a.key, r.start, r.end);
    var b := Observe(a, o.rows[a.key], o);
    assert PresentThroughout(h1, a.key, r.start, n);
    assert b.waitingSeconds == CarriedWait(h1, a.key, r.start, n);
    LatchStep(a, b, h1, r.start, n);
  }

  function NextRun(a: LockAlert, r: Run, n: nat, o: Observation): Run {
    if a.Active() && a.key in o.rows then Run(r.start, n) else r
  }

  lemma LatchStep(a: LockAlert, b: LockAlert, h: History, s: nat, n: nat)
    requires n > s && PresentThroughout(h, a.key, s, n) && PresentThroughout(h, a.key, s, n - 1)
    requires AlertLatched(a.alertedAt, h, a.key, s, n - 1)
    requires b.waitingSeconds == CarriedWait(h, a.key, s, n)
    requires b.alertedAt == if b.waitingSeconds >= h[n].threshold && a.alertedAt == None then Some(h[n].now)
              else a.alertedAt
    ensures AlertLatched(b.alertedAt, h, a.key, s, n)
  {
    if a.alertedAt.None? && b.alertedAt.Some? {
      assert ThresholdMet(h, a.key, s, n);
    }
  }

  lemma NewAlertFields(instance: nat, row: LockRow, o: Observation)
    ensures var a := NewAlert(instance, row, o);
            && a.key == row.Key() && a.blockedPid == row.blockedPid && a.blockingPid == row.blockingPid
            && a.firstSeenAt == a.lastSeenAt == o.now && a.resolvedAt.None?
            && a.waitingSeconds == Max(0, row.waiting) && a.texts == row.texts
            && a.alertedAt == if Max(0, row.waiting) >= o.threshold then Some(o.now) else None
  {
    hide LockKey;
  }

  lemma NewDescribes(instance: nat, key: string, h: History, o: Observation)
    requires o.WellKeyed() && key in o.rows
    requires h != [] ==> key !in h[|h| - 1].rows
    ensures DescribesRun(NewAlert(instance, o.rows[key], o), h + [o], Run(|h|, |h|))
  {
    hide LockKey, NewAlert;
    var n := |h|;
    var h1 := h + [o];
    NewAlertFields(instance, o.rows[key], o);
    var a := NewAlert(instance, o.rows[key], o);
    assert o.rows[key].Key() == key && h1[n] == o;
    assert PresentThroughout(h1, key, n, n);
    assert a.alertedAt.Some? <==> ThresholdMet(h1, key, n, n);
  }

  function NextRuns(t: Table, t1: Table, runs: map<nat, Run>, instance: nat, n: nat, obs: Observation): map<nat, Run>
    requires runs.Keys == t.rows.Keys
  {
    map pk | pk in t1.rows ::
      if pk !in t.rows then Run(n, n)
      else if t.rows[pk].instance == instance then NextRun(t.rows[pk], runs[pk], n, obs)
      else runs[pk]
  }

  /** A check keeps the correspondence, with its observation added to the history of its database. */
  lemma CheckRefines(t: Table, t1: Table, histories: map<nat, History>, runs: map<nat, Run>, instance: nat,
                     obs: Observation)
    returns (runs1: map<nat, Run>)
    requires Refines(t.rows, histories, runs) && obs.WellKeyed()
    requires Checked(t, t1, instance, obs)
    ensures Refines(t1.rows, histories[instance := HistoryOf(histories, instance) + [obs]], runs1)
  {
    hide DescribesRun, MaximalRun, Checked, Recorded, HistoryOf, LockKey;
    runs1 := NextRuns(t, t1, runs, instance, |HistoryOf(histories, instance)|, obs);
    RowsStayDescribed(t, t1, histories, runs, instance, obs);
    RunsStayDistinct(t, t1, histories, runs, instance, obs);
    RunsStayRecorded(t, t1, histories, runs, instance, obs);
  }

  lemma RowsStayDescribed(t: Table, t1: Table, histories: map<nat, History>, runs: map<nat, Run>, instance: nat,
                          obs: Observation)
    requires Refines(t.rows, histories, runs) && obs.WellKeyed() && Checked(t, t1, instance, obs)
    ensures var h := HistoryOf(histories, instance);
            var runs1 := NextRuns(t, t1, runs, instance, |h|, obs);
            forall pk | pk in t1.rows ::
              DescribesRun(t1.rows[pk], HistoryOf(histories[instance := h + [obs]], t1.rows[pk].instance), runs1[pk])
  {
    hide DescribesRun, MaximalRun, Touch, NewAlert, LockKey, HasActive, HasNewRow, Recorded;
    var h := HistoryOf(histories, instance);
    var after := histories[instance := h + [obs]];
    var runs1 := NextRuns(t, t1, runs, instance, |h|, obs);
    ActiveIncidents(t.rows, histories, runs);
    forall pk | pk in t1.rows
      ensures DescribesRun(t1.rows[pk], HistoryOf(after, t1.rows[pk].instance), runs1[pk])
    {
      if pk !in t.rows {
        assert t1.rows[pk].ActiveFor(instance, t1.rows[pk].key);
        NewDescribes(instance, t1.rows[pk].key, h, obs);
      } else if t.rows[pk].instance == instance {
        TouchDescribes(t.rows[pk], h, runs[pk], obs);
      } else {
        TouchElsewhere(t.rows[pk], instance, obs);
      }
    }
  }

  lemma RunsStayDistinct(t: Table, t1: Table, histories: map<nat, History>, runs: map<nat, Run>, instance: nat,
                         obs: Observation)
    requires Refines(t.rows, histories, runs) && Checked(t, t1, instance, obs)
    ensures var runs1 := NextRuns(t, t1, runs, instance, |HistoryOf(histories, instance)|, obs);
            forall p, q | p in t1.rows && q in t1.rows && p != q
                          && t1.rows[p].instance == t1.rows[q].instance && t1.rows[p].key == t1.rows[q].key ::
              runs1[p] != runs1[q]
  {
    hide DescribesRun, MaximalRun, Touch, NewAlert, LockKey, HasActive, HasNewRow, Recorded, NextRun;
    var h := HistoryOf(histories, instance);
    var runs1 := NextRuns(t, t1, runs, instance, |h|, obs);
    forall p, q | p in t1.rows && q in t1.rows && p != q && t1.rows[p].instance == t1.rows[q].instance
        && t1.rows[p].key == t1.rows[q].key
      ensures runs1[p] != runs1[q]
    {
      if t1.rows[p].instance == instance {
        if p in t.rows && q in t.rows {
          PairStaysDistinct(t.rows[p], t.rows[q], h, runs[p], runs[q], obs);
        } else if p in t.rows {
          RunIsPast(t.rows[p], h, runs[p], obs);
        } else if q in t.rows {
          RunIsPast(t.rows[q], h, runs[q], obs);
        }
      }
    }
  }

  lemma RunsStayRecorded(t: Table, t1: Table, histories: map<nat, History>, runs: map<nat, Run>, instance: nat,
                         obs: Observation)
    requires Refines(t.rows, histories, runs) && Checked(t, t1, instance, obs)
    ensures var h := HistoryOf(histories, instance);
            var runs1 := NextRuns(t, t1, runs, instance, |h|, obs);
            forall i: nat, key: string, r: Run | MaximalRun(HistoryOf(histories[instance := h + [obs]], i), key, r) ::
              Recorded(t1.rows, runs1, i, key, r)
  {
    hide DescribesRun, MaximalRun, Touch, NewAlert, LockKey, HasActive, HasNewRow, Recorded;
    var h := HistoryOf(histories, instance);
    var n := |h|;
    var after := histories[instance := h + [obs]];
    var runs1 := NextRuns(t, t1, runs, instance, n, obs);
    ActiveIncidents(t.rows, histories, runs);
    forall i: nat, key: string, r: Run | MaximalRun(HistoryOf(after, i), key, r)
      ensures Recorded(t1.rows, runs1, i, key, r)
    {
      if i != instance {
        var pk := RecordedAt(t.rows, runs, i, key, r);
        RecordedHere(t1.rows, runs1, pk);
      } else {
        var before := RunOrigin(h, obs, key, r);
        if r == Run(n, n) {
          assert !HasActive(t.rows, instance, key);
          NewRunRecorded(t, t1, runs1, instance, key, n);
        } else {
          var pk := RecordedAt(t.rows, runs, i, key, before);
          ActiveAtEnd(t.rows[pk], h, before);
          RecordedHere(t1.rows, runs1, pk);
        }
      }
    }
  }

  lemma NewRunRecorded(t: Table, t1: Table, runs1: map<nat, Run>, instance: nat, key: string, n: nat)
    requires HasNewRow(t, t1, key) && runs1.Keys == t1.rows.Keys
    requires forall pk | pk in t1.rows && pk !in t.rows :: runs1[pk] == Run(n, n) && t1.rows[pk].instance == instance
    ensures Recorded(t1.rows, runs1, instance, key, Run(n, n))
  {
    var pk :| pk in t1.rows && pk !in t.rows && t1.rows[pk].key == key;
    assert runs1[pk] == Run(n, n);
  }

  lemma TouchElsewhere(a: LockAlert, instance: nat, obs: Observation)
    requires a.instance != instance
    ensures Touch(a, instance, obs) == a
  {}

  lemma RecordedHere(rows: map<nat, LockAlert>, runs: map<nat, Run>, pk: nat)
    requires pk in rows && pk in runs
    ensures Recorded(rows, runs, rows[pk].instance, rows[pk].key, runs[pk])
  {}

  lemma RecordedAt(rows: map<nat, LockAlert>, runs: map<nat, Run>, i: nat, key: string, r: Run) returns (pk: nat)
    requires Recorded(rows, runs, i, key, r)
    ensures pk in rows && pk in runs && rows[pk].instance == i && rows[pk].key == key && runs[pk] == r
  {
    pk :| pk in rows && pk in runs && rows[pk].instance == i && rows[pk].key == key && runs[pk] == r;
  }

  /** Two incidents of one pair that were different runs still are. */
  lemma PairStaysDistinct(a: LockAlert, b: LockAlert, h: History, ra: Run, rb: Run, obs: Observation)
    requires DescribesRun(a, h, ra) && DescribesRun(b, h, rb) && a.key == b.key && ra != rb
    ensures NextRun(a, ra, |h|, obs) != NextRun(b, rb, |h|, obs)
  {
    if a.Active() && b.Active() {
      SameEndSameRun(h, a.key, ra, rb);
    }
  }

  lemma RunIsPast(a: LockAlert, h: History, r: Run, obs: Observation)
    requires DescribesRun(a, h, r)
    ensures NextRun(a, r, |h|, obs) != Run(|h|, |h|)
  {}

  /** A run of the longer history is new, extends a run that reached the end, or is as it was. */
  lemma RunOrigin(h: History, obs: Observation, key: string, r: Run) returns (before: Run)
    requires MaximalRun(h + [obs], key, r)
    ensures r == Run(|h|, |h|) ==> key in obs.rows && (h != [] ==> key !in h[|h| - 1].rows)
    ensures r != Run(|h|, |h|) ==>
              && MaximalRun(h, key, before)
              && r == if before.end == |h| - 1 && key in obs.rows then Run(before.start, |h|) else before
  {
    var n := |h|;
    assert forall j | 0 <= j < n :: (h + [obs])[j] == h[j];
    assert (h + [obs])[n] == obs;
    before := if r.end == n > r.start then Run(r.start, n - 1) else r;
  }

  lemma ActiveAtEnd(a: LockAlert, h: History, r: Run)
    requires DescribesRun(a, h, r)
    ensures a.Active() <==> r.end == |h| - 1
  {}

  // ---- whole runs ----

  datatype Step =
    | Check(instance: nat, blocking: seq<LockRow>, threshold: int, now: Instant)
    | Kill(instance: nat, pids: set<int>, user: string)

  function ObservationOf(blocking: seq<LockRow>, threshold: int, now: Instant): Observation {
    Observation(now, threshold, Collapse(blocking).rows)
  }

  function TableStep(t: Table, s: Step): Table {
    match s
    case Check(instance, blocking, threshold, now) =>
      CollapseRepresents(blocking);
      CheckTable(t, instance, Collapse(blocking).order, ObservationOf(blocking, threshold, now))
    case Kill(instance, pids, user) => t.(rows := MarkKilled(t.rows, instance, pids, user))
  }

  function RunTable(steps: seq<Step>): Table {
    if steps == [] then Table(map[], 0) else TableStep(RunTable(steps[..|steps| - 1]), steps[|steps| - 1])
  }

  function Extend(histories: map<nat, History>, s: Step): map<nat, History> {
    match s
    case Check(instance, blocking, threshold, now) =>
      histories[instance := HistoryOf(histories, instance) + [ObservationOf(blocking, threshold, now)]]
    case Kill(_, _, _) => histories
  }

  function RunHistories(steps: seq<Step>): map<nat, History> {
    if steps == [] then map[] else Extend(RunHistories(steps[..|steps| - 1]), steps[|steps| - 1])
  }

  lemma ObservationWellKeyed(blocking: seq<LockRow>, threshold: int, now: Instant)
    ensures ObservationOf(blocking, threshold, now).WellKeyed()
  {
    CollapseRepresents(blocking);
    var rows := Collapse(blocking).rows;
    forall k | k in rows ensures rows[k].Key() == k {
      assert ChoosesFirstLongest(blocking, k, rows[k]);
    }
  }

  lemma StepRefines(t: Table, histories: map<nat, History>, runs: map<nat, Run>, s: Step) returns (runs1: map<nat, Run>)
    requires FreshIds(t) && Refines(t.rows, histories, runs)
    ensures FreshIds(TableStep(t, s))
    ensures Refines(TableStep(t, s).rows, Extend(histories, s), runs1)
  {
    match s
    case Check(instance, blocking, threshold, now) =>
      var obs := ObservationOf(blocking, threshold, now);
      CollapseRepresents(blocking);
      ObservationWellKeyed(blocking, threshold, now);
      CheckEffect(t, instance, Collapse(blocking).order, obs);
      runs1 := CheckRefines(t, TableStep(t, s), histories, runs, instance, obs);
    case Kill(instance, pids, user) =>
      runs1 := runs;
      KillRefines(t.rows, histories, runs, instance, pids, user);
  }

  lemma KillRefines(rows: map<nat, LockAlert>, histories: map<nat, History>, runs: map<nat, Run>, instance: nat,
                    pids: set<int>, user: string)
    requires Refines(rows, histories, runs)
    ensures Refines(MarkKilled(rows, instance, pids, user), histories, runs)
  {
    hide DescribesRun, MaximalRun;
    var rows1 := MarkKilled(rows, instance, pids, user);
    forall pk | pk in rows
      ensures DescribesRun(rows1[pk], HistoryOf(histories, rows1[pk].instance), runs[pk])
    {
      ReasonIrrelevant(rows[pk], rows1[pk], HistoryOf(histories, rows[pk].instance), runs[pk]);
    }
    forall i: nat, key: string, r: Run | MaximalRun(HistoryOf(histories, i), key, r)
      ensures Recorded(rows1, runs, i, key, r)
    {
      var pk := RecordedAt(rows, runs, i, key, r);
      assert pk in rows1 && rows1[pk].key == key;
    }
  }

  lemma ReasonIrrelevant(a: LockAlert, b: LockAlert, h: History, r: Run)
    requires DescribesRun(a, h, r)
    requires b == a.(clearReason := b.clearReason, clearedBy := b.clearedBy)
    ensures DescribesRun(b, h, r)
  {}

  /** Over any run of successful checks and manual kills on any databases, the
      incidents of each PID pair are exactly the maximal blocks of consecutive
      checks of its database that saw the pair, dated and alerted accordingly. */
  lemma {:induction false} IncidentsRefineHistory(steps: seq<Step>) returns (runs: map<nat, Run>)
    ensures FreshIds(RunTable(steps))
    ensures Refines(RunTable(steps).rows, RunHistories(steps), runs)
  {
    runs := map[];
    if steps != [] {
      var front := steps[..|steps| - 1];
      var before := IncidentsRefineHistory(front);
      runs := StepRefines(RunTable(front), RunHistories(front), before, steps[|steps| - 1]);
    }
  }

  // ---- the table as the program holds it ----

  class IncidentTable {
    var rows: map<nat, LockAlert>
    var next: nat
    ghost var histories: map<nat, History>
    ghost var runs: map<nat, Run>

    ghost predicate Valid()
      reads this
    {
      FreshIds(Table(rows, next)) && Refines(rows, histories, runs)
    }

    constructor ()
      ensures Valid() && rows == map[] && histories == map[]
    {
      rows, next, histories, runs := map[], 0, map[], map[];
    }

    /** `get_or_create` on (instance, alert_key, unresolved), refresh of an
        existing row, and the threshold latch. */
    method UpsertLockAlert(instance: nat, key: string, row: LockRow, obs: Observation)
      requires UniqueActive(rows)
      requires key in obs.rows && obs.rows[key] == row && row.Key() == key
      modifies this`rows, this`next
      ensures Table(rows, next) == UpsertOne(old(Table(rows, next)), instance, key, obs)
    {
      hide HasActive, LockKey, UpsertOne;
      var id, alert;
      if pk :| pk in rows && rows[pk].ActiveFor(instance, key) {
        UpsertOneUpdates(Table(rows, next), instance, key, obs, pk);
        id, alert := pk, rows[pk];
        alert := alert.(lastSeenAt := obs.now, texts := alert.texts.Refreshed(row.texts));
        if row.waiting != 0 {
          alert := alert.(waitingSeconds := Max(0, row.waiting));
        }
      } else {
        UpsertOneInserts(Table(rows, next), instance, key, obs);
        id := next;
        alert := LockAlert(instance, key, row.blockedPid, row.blockingPid, row.texts,
                           Max(0, row.waiting), obs.now, obs.now, None, None, NoReason, "");
        next := next + 1;
      }
      if alert.waitingSeconds >= obs.threshold && alert.alertedAt == None {
        alert := alert.(alertedAt := Some(obs.now));
      }
      rows := rows[id := alert];
    }

    /** `_upsert_lock_alerts`: one transaction for the whole snapshot. */
    method UpsertLockAlerts(instance: nat, unique: Snapshot, obs: Observation) returns (seen: set<string>)
      requires FreshIds(Table(rows, next)) && UniqueActive(rows)
      requires obs.WellKeyed() && obs.rows == unique.rows
      requires Distinct(unique.order) && Elements(unique.order) == unique.rows.Keys
      modifies this`rows, this`next
      ensures Table(rows, next) == UpsertAll(old(Table(rows, next)), instance, unique.order, obs)
      ensures seen == unique.rows.Keys
    {
      hide UpsertOne, Upserted, LockKey;
      seen := {};
      ghost var t := Table(rows, next);
      var order := unique.order;
      assert forall k | k in order :: k in Elements(order);
      for n := 0 to |order|
        invariant seen == Elements(order[..n])
        invariant Table(rows, next) == UpsertAll(t, instance, order[..n], obs)
      {
        var key := order[n];
        assert order[..n + 1][..n] == order[..n];
        assert Elements(order[..n + 1]) == Elements(order[..n]) + {key};
        UpsertAllEffect(t, instance, order[..n], obs);
        UpsertKeepsUnique(t, Table(rows, next), instance, Elements(order[..n]), obs);
        seen := seen + {key};
        UpsertLockAlert(instance, key, unique.rows[key], obs);
      }
      assert order[..|order|] == order;
    }

    /** The clear loop and its two UPDATE statements, with no kill in between.
        Afterwards the database's unresolved incidents are among those seen; what
        is resolved by it is dated now and keeps the reason and operator of a kill,
        and nothing else changes. */
    method ResolveVanished(instance: nat, seen: set<string>, now: Instant)
      modifies this`rows
      ensures rows == ClearVanished(old(rows), instance, seen, now)
      ensures rows.Keys == old(rows).Keys
      ensures forall pk | pk in rows && rows[pk].Active() && rows[pk].instance == instance :: rows[pk].key in seen
      ensures forall pk | pk in rows && rows[pk] != old(rows)[pk] ::
                var a, b := old(rows)[pk], rows[pk];
                && a.Active() && a.instance == instance && a.key !in seen
                && b == a.(resolvedAt := Some(now), clearReason := b.clearReason)
                && b.clearReason == if a.clearReason == ManualKill then ManualKill else AutoClear
    {
      ClearEffect(rows, instance, seen, now);
      var clearIds := Vanished(rows, instance, seen);
      if clearIds != {} {
        rows := Resolved(rows, clearIds, now);
        rows := Labelled(rows, clearIds);
      }
    }

    /** The part of `process_instance` that updates the incident table. */
    method RecordCheck(instance: nat, blocking: seq<LockRow>, threshold: int, now: Instant)
      requires Valid()
      modifies this
      ensures Valid()
      ensures Table(rows, next) == TableStep(old(Table(rows, next)), Check(instance, blocking, threshold, now))
      ensures histories == Extend(old(histories), Check(instance, blocking, threshold, now))
    {
      hide Refines, UpsertAll, ClearVanished;
      var unique := CollapseRows(blocking);
      ghost var obs := ObservationOf(blocking, threshold, now);
      ghost var t := Table(rows, next);
      ActiveIncidents(rows, histories, runs);
      ObservationWellKeyed(blocking, threshold, now);
      var seen := UpsertLockAlerts(instance, unique, Observation(now, threshold, unique.rows));
      ResolveVanished(instance, seen, now);
      ghost var runs1 := StepRefines(t, histories, runs, Check(instance, blocking, threshold, now));
      runs := runs1;
      histories := Extend(histories, Check(instance, blocking, threshold, now));
    }

    /** `_mark_manual_kill`; an empty PID list marks nothing. */
    method MarkManualKill(instance: nat, pids: set<int>, user: string) returns (marked: nat)
      requires Valid()
      modifies this`rows
      ensures Valid()
      ensures rows == MarkKilled(old(rows), instance, pids, user)
      ensures marked == |set pk | pk in old(rows) && old(rows)[pk].resolvedAt == None
                && old(rows)[pk].instance == instance
                              && (old(rows)[pk].blockedPid in pids || old(rows)[pk].blockingPid in pids)|
    {
      hide Refines;
      var hit := set pk | pk in rows && rows[pk].Active() && Covers(rows[pk], instance, pids);
      assert hit == set pk | pk in rows && rows[pk].resolvedAt == None && rows[pk].instance == instance
                             && (rows[pk].blockedPid in pids || rows[pk].blockingPid in pids);
      if pids == {} {
        assert hit == {};
        assert rows == MarkKilled(rows, instance, pids, user);
        return 0;
      }
      KillRefines(rows, histories, runs, instance, pids, user);
      rows := MarkKilled(rows, instance, pids, user);
      marked := |hit|;
    }
  }

  lemma UpsertOneUpdates(t: Table, instance: nat, key: string, obs: Observation, pk: nat)
    requires UniqueActive(t.rows) && key in obs.rows
    requires pk in t.rows && t.rows[pk].ActiveFor(instance, key)
    ensures UpsertOne(t, instance, key, obs) == Table(t.rows[pk := Observe(t.rows[pk], obs.rows[key], obs)], t.next)
  {
    hide Observe;
    assert HasActive(t.rows, instance, key);
    assert UpsertOne(t, instance, key, obs).rows == t.rows[pk := Observe(t.rows[pk], obs.rows[key], obs)];
  }

  lemma UpsertOneInserts(t: Table, instance: nat, key: string, obs: Observation)
    requires key in obs.rows
    requires forall pk | pk in t.rows :: !t.rows[pk].ActiveFor(instance, key)
    ensures UpsertOne(t, instance, key, obs) ==
              Table(t.rows[t.next := NewAlert(instance, obs.rows[key], obs)], t.next + 1)
  {}

  lemma UpsertKeepsUnique(t: Table, t1: Table, instance: nat, keys: set<string>, obs: Observation)
    requires UniqueActive(t.rows) && obs.WellKeyed() && Upserted(t, t1, instance, keys, obs)
    ensures UniqueActive(t1.rows)
  {
    hide LockKey, NewAlert, Observe, EveryKeyActive;
    forall p, q | p in t1.rows && q in t1.rows && t1.rows[p].Active() && t1.rows[q].Active()
                  && t1.rows[p].instance == t1.rows[q].instance && t1.rows[p].key == t1.rows[q].key
      ensures p == q
    {
      if p in t.rows {
        assert t.rows[p].ActiveFor(t.rows[p].instance, t.rows[p].key);
        assert HasActive(t.rows, t.rows[p].instance, t.rows[p].key);
      }
      if q in t.rows {
        assert t.rows[q].ActiveFor(t.rows[q].instance, t.rows[q].key);
        assert HasActive(t.rows, t.rows[q].instance, t.rows[q].key);
      }
    }
  }
}
