/**
 Long-running manual queries: one tracked record per execution, one card per
 record. A check is one execution of `process_long_queries`.
 */
module LongQueries {
  import opened Wrappers
  import opened Text
  import opened Models
  import opened NotificationWindow

  /** One activity row; missing text is "", a missing duration is 0. */
  datatype ActivityRow = ActivityRow(pid: int, username: string, applicationName: string, queryStart: string,
                                     query: string, state: string, durationSeconds: int)

  /** The inputs of one check; `casefold` is `str.casefold`, taken as any function. */
  datatype QueryCheck = QueryCheck(instance: nat, activity: seq<ActivityRow>, enabled: bool, excludedUsers: string,
                                   casefold: string -> string, threshold: nat, window: Window, now: Instant,
                                   delivered: bool)

  // ---- which rows qualify ----

  function Strip(s: string): string { StripRight(StripLeft(s)) }

  /** The characters `str.strip` removes. */
  predicate IsSpace(c: char) {
    || c == ' ' || '\t' <= c <= '\r' || '\U{1c}' <= c <= '\U{1f}' || c == '\U{85}' || c == '\U{a0}'
    || c == '\U{1680}' || '\U{2000}' <= c <= '\U{200a}' || c == '\U{2028}' || c == '\U{2029}'
    || c == '\U{202f}' || c == '\U{205f}' || c == '\U{3000}'
  }

  /** By code point: the white space of ASCII, with the four separators before the
      space, the two of Latin-1, and those of the Unicode separator classes. */
  lemma SpaceCodes(c: char)
    ensures IsSpace(c) <==>
              var n := c as int;
              || n in {9, 10, 11, 12, 13, 28, 29, 30, 31, 32} || n in {133, 160, 5760}
              || 8192 <= n <= 8202 || n in {8232, 8233, 8239, 8287, 12288}
  {}

  function StripLeft(s: string): string { if s != "" && IsSpace(s[0]) then StripLeft(s[1..]) else s }

  function StripRight(s: string): string { if s != "" && IsSpace(s[|s| - 1]) then StripRight(s[..|s| - 1]) else s }

  ghost predicate AllSpace(s: string) { forall c | c in s :: IsSpace(c) }

  /** t is s without the white space around it. */
  ghost predicate Trims(s: string, t: string) {
    && (exists left, right :: s == left + t + right && AllSpace(left) && AllSpace(right))
    && (t != "" ==> !IsSpace(t[0]) && !IsSpace(t[|t| - 1]))
  }

  lemma {:induction false} StripLeftTrims(s: string) returns (left: string)
    ensures s == left + StripLeft(s) && AllSpace(left) && (StripLeft(s) != "" ==> !IsSpace(StripLeft(s)[0]))
  {
    hide IsSpace;
    left := "";
    if s != "" && IsSpace(s[0]) {
      var rest := StripLeftTrims(s[1..]);
      left := [s[0]] + rest;
      assert s == [s[0]] + s[1..];
    }
  }

  lemma {:induction false} StripRightTrims(s: string) returns (right: string)
    ensures s == StripRight(s) + right && AllSpace(right)
    ensures StripRight(s) != "" ==> !IsSpace(StripRight(s)[|StripRight(s)| - 1]) && StripRight(s)[0] == s[0]
  {
    hide IsSpace;
    right := "";
    if s != "" && IsSpace(s[|s| - 1]) {
      var rest := StripRightTrims(s[..|s| - 1]);
      right := rest + [s[|s| - 1]];
      assert s == s[..|s| - 1] + [s[|s| - 1]];
    }
  }

  lemma StripTrims(s: string)
    ensures Trims(s, Strip(s))
  {
    hide IsSpace, StripLeft, StripRight;
    var left := StripLeftTrims(s);
    var right := StripRightTrims(StripLeft(s));
    assert s == left + Strip(s) + right;
  }

  function ExcludedUsers(c: QueryCheck): set<string> {
    set name | name in Split(c.excludedUsers, ',') && Strip(name) != "" :: c.casefold(Strip(name))
  }

  predicate Qualifies(row: ActivityRow, c: QueryCheck) {
    var username := Strip(row.username);
    && row.state == "active" && username != "" && c.casefold(username) !in ExcludedUsers(c)
    && c.casefold(Strip(row.applicationName)) != "healthgrid-control"
    && row.durationSeconds >= c.threshold
  }

  /** The fields the key's digest is taken of. */
  function Fields(row: ActivityRow): seq<string> { [IntToString(row.pid), row.username, row.queryStart, row.query] }

  function KeyOf(row: ActivityRow): LongQueryKey { LongQueryKey(row.pid, Sha256(Join("\0", Fields(row)))) }

  predicate NoNul(row: ActivityRow) { '\0' !in row.username && '\0' !in row.queryStart && '\0' !in row.query }

  predicate SameExecution(a: ActivityRow, b: ActivityRow) {
    a.pid == b.pid && a.username == b.username && a.queryStart == b.queryStart && a.query == b.query
  }

  function Printed(pid: string, username: string, queryStart: string, query: string): string {
    pid + "\0" + username + "\0" + queryStart + "\0" + query
  }

  lemma JoinedFields(row: ActivityRow)
    ensures Join("\0", Fields(row)) == Printed(IntToString(row.pid), row.username, row.queryStart, row.query)
  {
    hide IntToString;
    assert Fields(row)[1..] == [row.username, row.queryStart, row.query];
    assert [row.username, row.queryStart, row.query][1..] == [row.queryStart, row.query];
    assert [row.queryStart, row.query][1..] == [row.query];
    assert Join("\0", [row.queryStart, row.query]) == row.queryStart + "\0" + row.query;
    assert Join("\0", [row.username, row.queryStart, row.query]) ==
           row.username + "\0" + (row.queryStart + "\0" + row.query);
  }

  /** A field cannot hide a separator from a key whose own fields have none. */
  lemma NulFreeKey(a: ActivityRow, b: ActivityRow)
    requires KeyOf(a) == KeyOf(b) && NoNul(a)
    ensures NoNul(b)
  {
    hide IntToString, Join;
    CountNul(a);
    CountNul(b);
    assert multiset(a.username)['\0'] == multiset(a.queryStart)['\0'] == multiset(a.query)['\0'] == 0;
    assert '\0' in b.username ==> '\0' in multiset(b.username);
    assert '\0' in b.queryStart ==> '\0' in multiset(b.queryStart);
    assert '\0' in b.query ==> '\0' in multiset(b.query);
  }

  lemma CountNul(row: ActivityRow)
    ensures multiset(Join("\0", Fields(row)))['\0'] ==
              3 + multiset(row.username)['\0'] + multiset(row.queryStart)['\0'] + multiset(row.query)['\0']
  {
    hide IntToString, Join;
    JoinedFields(row);
    assert '\0' !in IntToString(row.pid);
    assert '\0' !in multiset(IntToString(row.pid));
    assert multiset("\0") == multiset{'\0'};
  }

  lemma EqualKeysEqualFields(a: ActivityRow, b: ActivityRow)
    requires NoNul(a) && NoNul(b) && KeyOf(a) == KeyOf(b)
    ensures SameExecution(a, b)
  {
    var s, t := Fields(a), Fields(b);
    JoinInjective('\0', s, t);
    assert s[0] == t[0] && s[1] == t[1] && s[2] == t[2] && s[3] == t[3];
  }

  /** Text moves across a NUL into the next field, or into the previous ones, and
      the printed fields stay the same. */
  lemma FieldsShift(pid: string, x: string, y: string, queryStart: string, query: string, username: string)
    ensures Printed(pid, x, y, queryStart + "\0" + query) == Printed(pid, x + "\0" + y, queryStart, query)
    ensures Printed(pid, username, x, y + "\0" + query) == Printed(pid, username, x + "\0" + y, query)
    ensures Printed(pid, username + "\0" + queryStart, x, y) == Printed(pid, username, queryStart, x + "\0" + y)
  {}

  lemma SplitAtNul(s: string) returns (x: string, y: string)
    requires '\0' in s
    ensures s == x + "\0" + y
  {
    var i :| 0 <= i < |s| && s[i] == '\0';
    x, y := s[..i], s[i + 1..];
  }

  /** A field with a NUL in it gives another execution the same key. */
  lemma ConfusedKey(row: ActivityRow) returns (b: ActivityRow)
    requires !NoNul(row)
    ensures KeyOf(b) == KeyOf(row) && !SameExecution(row, b)
  {
    hide IntToString, Join, Printed;
    var pid := IntToString(row.pid);
    if '\0' in row.username {
      var x, y := SplitAtNul(row.username);
      b := row.(username := x, queryStart := y, query := row.queryStart + "\0" + row.query);
      FieldsShift(pid, x, y, row.queryStart, row.query, row.username);
      assert |b.username| < |row.username|;
    } else if '\0' in row.queryStart {
      var x, y := SplitAtNul(row.queryStart);
      b := row.(queryStart := x, query := y + "\0" + row.query);
      FieldsShift(pid, x, y, row.queryStart, row.query, row.username);
      assert |b.queryStart| < |row.queryStart|;
    } else {
      var x, y := SplitAtNul(row.query);
      b := row.(username := row.username + "\0" + row.queryStart, queryStart := x, query := y);
      FieldsShift(pid, x, y, row.queryStart, row.query, row.username);
      assert |b.query| < |row.query|;
    }
    JoinedFields(row);
    JoinedFields(b);
  }

  /** The key identifies the execution, that is session, user, start and text,
      exactly when none of these has a NUL in it. */
  lemma KeyIdentifiesExecution(a: ActivityRow)
    ensures NoNul(a) <==> forall b | KeyOf(b) == KeyOf(a) :: SameExecution(a, b)
    ensures forall b | SameExecution(a, b) :: KeyOf(b) == KeyOf(a)
  {
    hide KeyOf;
    forall b | SameExecution(a, b) ensures KeyOf(b) == KeyOf(a) {
      SameFieldsSameKey(a, b);
    }
    if NoNul(a) {
      forall b | KeyOf(b) == KeyOf(a) ensures SameExecution(a, b) {
        NulFreeKey(a, b);
        EqualKeysEqualFields(a, b);
      }
    } else {
      var b := ConfusedKey(a);
    }
  }

  lemma SameFieldsSameKey(a: ActivityRow, b: ActivityRow)
    requires SameExecution(a, b)
    ensures KeyOf(a) == KeyOf(b)
  {}

  /** `candidates`: the qualifying rows by key, a later row replacing an earlier one. */
  datatype Candidates = Candidates(order: seq<LongQueryKey>, rows: map<LongQueryKey, ActivityRow>)

  function AddCandidate(found: Candidates, row: ActivityRow): Candidates {
    var key := KeyOf(row);
    Candidates(if key in found.rows then found.order else found.order + [key], found.rows[key := row])
  }

  function Collect(activity: seq<ActivityRow>, c: QueryCheck): Candidates {
    if activity == [] then Candidates([], map[])
    else
      var row := activity[|activity| - 1];
      var found := Collect(activity[..|activity| - 1], c);
      if Qualifies(row, c) then AddCandidate(found, row) else found
  }

  /** The candidate keys are exactly the keys of the qualifying rows, once each. */
  lemma {:induction false} CollectFinds(activity: seq<ActivityRow>, c: QueryCheck)
    ensures var found := Collect(activity, c);
            && Distinct(found.order) && Elements(found.order) == found.rows.Keys
            && (forall k :: k in found.rows <==> exists row :: row in activity && Qualifies(row, c) && KeyOf(row) == k)
  {
    hide Qualifies, KeyOf;
    if activity != [] {
      var n := |activity| - 1;
      CollectFinds(activity[..n], c);
      assert activity == activity[..n] + [activity[n]];
      var found := Collect(activity, c);
      forall k
        ensures k in found.rows <==> exists row :: row in activity && Qualifies(row, c) && KeyOf(row) == k
      {
        assert (exists row :: row in activity && Qualifies(row, c) && KeyOf(row) == k) <==>
               (exists row :: row in activity[..n] && Qualifies(row, c) && KeyOf(row) == k)
               || (Qualifies(activity[n], c) && KeyOf(activity[n]) == k);
      }
    }
  }

  /** Of several rows with one key the last one counts, and the keys are in the order
      in which they were first seen. */
  lemma {:induction false} CollectKeepsLast(activity: seq<ActivityRow>, c: QueryCheck)
    ensures var found := Collect(activity, c);
            && (forall k | k in found.rows :: LastWithKey(activity, c, k, found.rows[k]))
            && (forall i, j | 0 <= i < j < |found.order| :: SeenBefore(activity, c, found.order[i], found.order[j]))
  {
    hide Qualifies, KeyOf;
    if activity != [] {
      var n := |activity| - 1;
      var front, row := activity[..n], activity[n];
      CollectKeepsLast(front, c);
      CollectFinds(front, c);
      var before, found := Collect(front, c), Collect(activity, c);
      assert activity == front + [row];
      forall k | k in found.rows ensures LastWithKey(activity, c, k, found.rows[k]) {
        LastStep(front, row, c, k, found.rows[k]);
      }
      forall i, j | 0 <= i < j < |found.order| ensures SeenBefore(activity, c, found.order[i], found.order[j]) {
        if j < |before.order| {
          SeenStep(front, row, c, found.order[i], found.order[j]);
        } else {
          assert found.order[i] in before.rows by { assert before.order[i] in Elements(before.order); }
          SeenFirst(front, row, c, found.order[i]);
        }
      }
    }
  }

  ghost predicate QualifiesAt(activity: seq<ActivityRow>, c: QueryCheck, k: LongQueryKey, i: nat) {
    i < |activity| && Qualifies(activity[i], c) && KeyOf(activity[i]) == k
  }

  ghost predicate LastWithKey(activity: seq<ActivityRow>, c: QueryCheck, k: LongQueryKey, row: ActivityRow) {
    exists i: nat :: QualifiesAt(activity, c, k, i) && activity[i] == row && forall j: nat | j > i ::
        !QualifiesAt(activity, c, k, j)
  }

  /** A row with key k comes before every row with key l. */
  ghost predicate SeenBefore(activity: seq<ActivityRow>, c: QueryCheck, k: LongQueryKey, l: LongQueryKey) {
    exists i: nat :: QualifiesAt(activity, c, k, i) && forall j: nat | QualifiesAt(activity, c, l, j) :: i < j
  }

  lemma LastStep(front: seq<ActivityRow>, row: ActivityRow, c: QueryCheck, k: LongQueryKey, last: ActivityRow)
    requires if Qualifies(row, c) && KeyOf(row) == k then last == row else LastWithKey(front, c, k, last)
    ensures LastWithKey(front + [row], c, k, last)
  {
    hide Qualifies, KeyOf;
    var activity := front + [row];
    if Qualifies(row, c) && KeyOf(row) == k {
      assert QualifiesAt(activity, c, k, |front|);
    } else {
      var i: nat :| QualifiesAt(front, c, k, i) && front[i] == last && forall j: nat | j > i ::
          !QualifiesAt(front, c, k, j);
      assert QualifiesAt(activity, c, k, i);
      forall j: nat | j > i ensures !QualifiesAt(activity, c, k, j) {
        assert !QualifiesAt(front, c, k, j);
      }
    }
  }

  lemma SeenStep(front: seq<ActivityRow>, row: ActivityRow, c: QueryCheck, k: LongQueryKey, l: LongQueryKey)
    requires SeenBefore(front, c, k, l)
    ensures SeenBefore(front + [row], c, k, l)
  {
    hide Qualifies, KeyOf;
    var i: nat :| QualifiesAt(front, c, k, i) && forall j: nat | QualifiesAt(front, c, l, j) :: i < j;
    assert QualifiesAt(front + [row], c, k, i);
    forall j: nat | QualifiesAt(front + [row], c, l, j) ensures i < j {
      assert j < |front| ==> QualifiesAt(front, c, l, j);
    }
  }

  lemma SeenFirst(front: seq<ActivityRow>, row: ActivityRow, c: QueryCheck, k: LongQueryKey)
    requires k in Collect(front, c).rows && KeyOf(row) !in Collect(front, c).rows
    ensures SeenBefore(front + [row], c, k, KeyOf(row))
  {
    hide Qualifies, KeyOf, Collect;
    CollectFinds(front, c);
    var r :| r in front && Qualifies(r, c) && KeyOf(r) == k;
    var i :| 0 <= i < |front| && front[i] == r;
    assert QualifiesAt(front + [row], c, k, i);
    assert forall j: nat | j < |front| :: front[j] in front && !QualifiesAt(front, c, KeyOf(row), j);
    assert forall j: nat | j < |front| ::
        QualifiesAt(front + [row], c, KeyOf(row), j) <==> QualifiesAt(front, c, KeyOf(row), j);
  }

  // ---- the records ----

  datatype Records = Records(rows: map<nat, LongQueryAlert>, next: nat)

  /** `card` holds the records handed over with a delivered card, in order. */
  datatype QueryOutcome = QueryOutcome(records: Records, card: Option<seq<nat>>)

  ghost predicate RecordsOk(t: Records) {
    && (forall pk | pk in t.rows :: pk < t.next)
    && AtMostOneActive(t.rows)
  }

  ghost predicate AtMostOneActive(rows: map<nat, LongQueryAlert>) {
    forall p, q | p in rows && q in rows && rows[p].Active() && rows[q].Active()
                  && rows[p].instance == rows[q].instance && rows[p].key == rows[q].key :: p == q
  }

  predicate HasActive(rows: map<nat, LongQueryAlert>, instance: nat, key: LongQueryKey) {
    exists pk | pk in rows :: rows[pk].ActiveFor(instance, key)
  }

  function Seen(a: LongQueryAlert, row: ActivityRow, now: Instant): (b: LongQueryAlert)
    ensures b == a.(lastSeenAt := now, durationSeconds := b.durationSeconds)
  {
    a.(lastSeenAt := now, durationSeconds := if row.durationSeconds != 0 then Max(0, row.durationSeconds)
        else a.durationSeconds)
  }

  function UpsertOne(t: Records, instance: nat, row: ActivityRow, now: Instant): Records {
    var key := KeyOf(row);
    if HasActive(t.rows, instance, key) then
      t.(rows := map pk | pk in t.rows ::
          if t.rows[pk].ActiveFor(instance, key) then Seen(t.rows[pk], row, now) else t.rows[pk])
    else
      Records(t.rows[t.next := LongQueryAlert(instance, key, Max(0, row.durationSeconds), now, now, None, None)],
          t.next + 1)
  }

  function UpsertAll(t: Records, instance: nat, found: Candidates, order: seq<LongQueryKey>, now: Instant): Records
    requires forall k | k in order :: k in found.rows
  {
    if order == [] then t
    else UpsertOne(UpsertAll(t, instance, found, order[..|order| - 1], now), instance,
         found.rows[order[|order| - 1]], now)
  }

  function ResolveExcept(rows: map<nat, LongQueryAlert>, instance: nat, keys: set<LongQueryKey>,
                         now: Instant): map<nat, LongQueryAlert> {
    map pk | pk in rows ::
      if rows[pk].Active() && rows[pk].instance == instance && rows[pk].key !in keys
      then rows[pk].(resolvedAt := Some(now)) else rows[pk]
  }

  function Unalerted(rows: map<nat, LongQueryAlert>, instance: nat, keys: set<LongQueryKey>): set<nat> {
    set pk | pk in rows && rows[pk].Active() && rows[pk].instance == instance && rows[pk].key in keys
        && rows[pk].alertedAt.None?
  }

  /** The unresolved record of a key; there is at most one. */
  ghost function ActiveId(rows: map<nat, LongQueryAlert>, instance: nat, key: LongQueryKey): (pk: nat)
    requires HasActive(rows, instance, key)
    ensures pk in rows && rows[pk].ActiveFor(instance, key)
  {
    var pk :| pk in rows && rows[pk].ActiveFor(instance, key); pk
  }

  ghost predicate IsNew(rows: map<nat, LongQueryAlert>, instance: nat, key: LongQueryKey) {
    HasActive(rows, instance, key) && rows[ActiveId(rows, instance, key)].alertedAt.None?
  }

  /** `new_alerts`: the unalerted records of the candidates, in their order. */
  ghost function NewAlerts(rows: map<nat, LongQueryAlert>, instance: nat, order: seq<LongQueryKey>): seq<nat> {
    if order == [] then []
    else
      var n := |order| - 1;
      NewAlerts(rows, instance, order[..n])
      + if IsNew(rows, instance, order[n]) then [ActiveId(rows, instance, order[n])] else []
  }

  function MarkAlerted(rows: map<nat, LongQueryAlert>, ids: set<nat>, now: Instant): map<nat, LongQueryAlert> {
    map pk | pk in rows :: if pk in ids then rows[pk].(alertedAt := Some(now)) else rows[pk]
  }

  /** `process_long_queries`. */
  ghost function CheckQueries(t: Records, c: QueryCheck): QueryOutcome {
    if !c.enabled then QueryOutcome(t.(rows := ResolveExcept(t.rows, c.instance, {}, c.now)), None)
    else
      CollectFinds(c.activity, c);
      var found := Collect(c.activity, c);
      assert forall k | k in found.order :: k in Elements(found.order);
      var u := UpsertAll(t, c.instance, found, found.order, c.now);
      var alerts := NewAlerts(u.rows, c.instance, found.order);
      var rows := ResolveExcept(u.rows, c.instance, found.rows.Keys, c.now);
      if alerts != [] && NotificationsOpen(c.window, c.now) && c.delivered
      then QueryOutcome(Records(MarkAlerted(rows, Elements(alerts), c.now), u.next), Some(alerts))
      else QueryOutcome(Records(rows, u.next), None)
  }

  /** The handed-over records are the unalerted ones of the candidates, once each. */
  lemma {:induction false} NewAlertsExact(rows: map<nat, LongQueryAlert>, instance: nat, order: seq<LongQueryKey>)
    requires AtMostOneActive(rows) && Distinct(order)
    ensures var alerts := NewAlerts(rows, instance, order);
            && Distinct(alerts) && Elements(alerts) == Unalerted(rows, instance, Elements(order))
            && (forall a, b | 0 <= a < b < |alerts| :: InOrder(rows, order, alerts[a], alerts[b]))
  {
    hide HasActive, InOrder;
    if order != [] {
      var n := |order| - 1;
      var front, key := order[..n], order[n];
      NewAlertsExact(rows, instance, front);
      assert Elements(order) == Elements(front) + {key};
      var alerts := NewAlerts(rows, instance, front);
      OneUnalerted(rows, instance, key);
      UnalertedJoin(rows, instance, Elements(front), key);
      if IsNew(rows, instance, key) {
        var pk := ActiveId(rows, instance, key);
        assert pk !in Elements(alerts);
        assert Elements(alerts + [pk]) == Elements(alerts) + {pk};
      }
      var all := NewAlerts(rows, instance, order);
      forall a, b | 0 <= a < b < |all| ensures InOrder(rows, order, all[a], all[b]) {
        assert all[a] in Elements(alerts);
        if b < |alerts| {
          OrderStep(rows, order, all[a], all[b]);
        } else {
          OrderLast(rows, order, all[a], all[b]);
        }
      }
    }
  }

  /** The keys of records p and q come in this order in the list. */
  ghost predicate InOrder(rows: map<nat, LongQueryAlert>, order: seq<LongQueryKey>, p: nat, q: nat) {
    p in rows && q in rows && exists i, j :: 0 <= i < j < |order| && order[i] == rows[p].key && order[j] == rows[q].key
  }

  lemma OrderStep(rows: map<nat, LongQueryAlert>, order: seq<LongQueryKey>, p: nat, q: nat)
    requires order != [] && InOrder(rows, order[..|order| - 1], p, q)
    ensures InOrder(rows, order, p, q)
  {
    var front := order[..|order| - 1];
    var i, j :| 0 <= i < j < |front| && front[i] == rows[p].key && front[j] == rows[q].key;
    assert order[i] == rows[p].key && order[j] == rows[q].key;
  }

  lemma OrderLast(rows: map<nat, LongQueryAlert>, order: seq<LongQueryKey>, p: nat, q: nat)
    requires order != [] && p in rows && q in rows
    requires rows[p].key in order[..|order| - 1] && rows[q].key == order[|order| - 1]
    ensures InOrder(rows, order, p, q)
  {
    var i :| 0 <= i < |order| - 1 && order[i] == rows[p].key;
    assert order[|order| - 1] == rows[q].key;
  }

  lemma OneUnalerted(rows: map<nat, LongQueryAlert>, instance: nat, key: LongQueryKey)
    requires AtMostOneActive(rows)
    ensures Unalerted(rows, instance, {key}) ==
              if IsNew(rows, instance, key) then {ActiveId(rows, instance, key)} else {}
  {
    forall pk | pk in Unalerted(rows, instance, {key}) ensures HasActive(rows, instance, key) {
      assert rows[pk].ActiveFor(instance, key);
    }
  }

  lemma UnalertedJoin(rows: map<nat, LongQueryAlert>, instance: nat, keys: set<LongQueryKey>, key: LongQueryKey)
    requires key !in keys
    ensures Unalerted(rows, instance, keys + {key}) ==
              Unalerted(rows, instance, keys) + Unalerted(rows, instance, {key})
    ensures forall pk | pk in Unalerted(rows, instance, keys) :: rows[pk].key != key
  {}

  /** The pair (database, key) is a qualifying execution in check c. */
  predicate Qualifying(c: QueryCheck, instance: nat, key: LongQueryKey) {
    c.instance == instance && c.enabled && key in Collect(c.activity, c).rows
  }

  // ---- what the upsert loop does ----

  ghost predicate Upserted(t: Records, u: Records, instance: nat, keys: set<LongQueryKey>, now: Instant) {
    && RecordsOk(u) && t.rows.Keys <= u.rows.Keys
    && (forall pk | pk in t.rows :: SameRecord(t.rows[pk], u.rows[pk]))
    && (forall pk | pk in u.rows && pk !in t.rows ::
          u.rows[pk].Active() && u.rows[pk].alertedAt.None? && u.rows[pk].instance == instance
              && u.rows[pk].key in keys)
    && (forall k | k in keys :: HasActive(u.rows, instance, k))
    && (forall pk | pk in u.rows && u.rows[pk].Active() && u.rows[pk].instance == instance && u.rows[pk].key in keys ::
          u.rows[pk].lastSeenAt == now)
    && (forall pk | pk in u.rows && pk !in t.rows :: u.rows[pk].firstSeenAt == now)
  }

  predicate SameRecord(a: LongQueryAlert, b: LongQueryAlert) {
    b == a.(lastSeenAt := b.lastSeenAt, durationSeconds := b.durationSeconds)
  }

  lemma UpsertOneEffect(t: Records, u: Records, instance: nat, keys: set<LongQueryKey>, row: ActivityRow, now: Instant)
    requires Upserted(t, u, instance, keys, now)
    ensures Upserted(t, UpsertOne(u, instance, row, now), instance, keys + {KeyOf(row)}, now)
  {
    hide KeyOf, HasActive, RecordsOk;
    var v := UpsertOne(u, instance, row, now);
    UpsertOneKeepsOk(u, instance, row, now);
    forall k | k in keys + {KeyOf(row)} ensures HasActive(v.rows, instance, k) {
      if k in keys { StaysActive(u.rows, v.rows, instance, k); }
    }
  }

  lemma UpsertOneKeepsOk(u: Records, instance: nat, row: ActivityRow, now: Instant)
    requires RecordsOk(u)
    ensures var v := UpsertOne(u, instance, row, now);
            && RecordsOk(v) && u.rows.Keys <= v.rows.Keys
            && (forall pk | pk in u.rows :: SameRecord(u.rows[pk], v.rows[pk]))
            && (forall pk | pk in u.rows ::
                v.rows[pk].lastSeenAt == if u.rows[pk].ActiveFor(instance, KeyOf(row)) then now
                    else u.rows[pk].lastSeenAt)
            && (forall pk | pk in v.rows && pk !in u.rows ::
                  v.rows[pk].ActiveFor(instance, KeyOf(row)) && v.rows[pk].alertedAt.None?
                      && v.rows[pk].firstSeenAt == v.rows[pk].lastSeenAt == now)
            && HasActive(v.rows, instance, KeyOf(row))
  {
    hide KeyOf, Seen;
    var v := UpsertOne(u, instance, row, now);
    if HasActive(u.rows, instance, KeyOf(row)) {
      var pk :| pk in u.rows && u.rows[pk].ActiveFor(instance, KeyOf(row));
      assert v.rows[pk].ActiveFor(instance, KeyOf(row));
    } else {
      assert forall pk | pk in u.rows :: !u.rows[pk].ActiveFor(instance, KeyOf(row));
      assert v.rows[u.next].ActiveFor(instance, KeyOf(row));
    }
  }

  lemma StaysActive(rows: map<nat, LongQueryAlert>, rows1: map<nat, LongQueryAlert>, instance: nat, k: LongQueryKey)
    requires rows.Keys <= rows1.Keys && forall pk | pk in rows :: SameRecord(rows[pk], rows1[pk])
    requires HasActive(rows, instance, k)
    ensures HasActive(rows1, instance, k)
  {
    var pk :| pk in rows && rows[pk].ActiveFor(instance, k);
    assert rows1[pk].ActiveFor(instance, k);
  }

  lemma {:induction false} UpsertAllEffect(t: Records, instance: nat, found: Candidates, order: seq<LongQueryKey>,
                                           now: Instant)
    requires RecordsOk(t)
    requires forall k | k in order :: k in found.rows && KeyOf(found.rows[k]) == k
    ensures Upserted(t, UpsertAll(t, instance, found, order, now), instance, Elements(order), now)
  {
    hide UpsertOne, KeyOf, RecordsOk;
    if order != [] {
      var n := |order| - 1;
      UpsertAllEffect(t, instance, found, order[..n], now);
      UpsertOneEffect(t, UpsertAll(t, instance, found, order[..n], now), instance, Elements(order[..n]),
          found.rows[order[n]], now);
      assert Elements(order) == Elements(order[..n]) + {order[n]};
    }
  }

  lemma {:induction false} CollectKeyed(activity: seq<ActivityRow>, c: QueryCheck)
    ensures forall k | k in Collect(activity, c).rows :: KeyOf(Collect(activity, c).rows[k]) == k
  {
    hide Qualifies, KeyOf;
    if activity != [] { CollectKeyed(activity[..|activity| - 1], c); }
  }

  // ---- what one check does ----

  ghost predicate Advanced(t: Records, t1: Records, c: QueryCheck) {
    && RecordsOk(t1) && t.rows.Keys <= t1.rows.Keys
    && (forall pk | pk in t.rows :: RowAdvanced(t.rows[pk], t1.rows[pk], c))
    && (forall pk | pk in t1.rows && pk !in t.rows ::
          t1.rows[pk].Active() && t1.rows[pk].firstSeenAt == c.now
              && Qualifying(c, t1.rows[pk].instance, t1.rows[pk].key))
  }

  ghost predicate RowAdvanced(a: LongQueryAlert, b: LongQueryAlert, c: QueryCheck) {
    && b.instance == a.instance && b.key == a.key && b.firstSeenAt == a.firstSeenAt
    && (a.Active() && !b.Active() ==> b.resolvedAt == Some(c.now))
    && (!a.Active() ==> b.resolvedAt == a.resolvedAt)
    && (b.Active() <==> a.Active() && (a.instance == c.instance ==> Qualifying(c, a.instance, a.key)))
    && (a.alertedAt.Some? ==> b.alertedAt == a.alertedAt)
  }

  /** Active records are exactly the current qualifying executions, seen now. */
  ghost predicate Current(t: Records, c: QueryCheck) {
    && (forall k :: HasActive(t.rows, c.instance, k) <==> Qualifying(c, c.instance, k))
    && (forall pk | pk in t.rows && t.rows[pk].Active() && t.rows[pk].instance == c.instance ::
        t.rows[pk].lastSeenAt == c.now)
  }

  /** The feature is on, the window open, and a card sent now gets through. */
  ghost predicate IsOpen(c: QueryCheck) { c.enabled && NotificationsOpen(c.window, c.now) && c.delivered }

  /** A delivered card is handed exactly the active records not yet alerted, each
      once, and these are the records the check marks as alerted. */
  ghost predicate CardExact(t: Records, t1: Records, card: Option<seq<nat>>, c: QueryCheck) {
    && (card.Some? ==> IsOpen(c) && card.value != [] && Distinct(card.value))
    && (card.Some? ==> forall pk ::
          pk in card.value <==> pk in t1.rows && t1.rows[pk].Active() && t1.rows[pk].instance == c.instance
                                && (pk in t.rows ==> t.rows[pk].alertedAt.None?))
    && (card.Some? ==> forall pk | pk in card.value :: t1.rows[pk].alertedAt == Some(c.now))
    && (forall pk | pk in t1.rows && t1.rows[pk].alertedAt.Some? ::
          (pk in t.rows && t.rows[pk].alertedAt.Some?) || (card.Some? && pk in card.value))
    && (IsOpen(c) ==>
          forall pk | pk in t1.rows && t1.rows[pk].Active() && t1.rows[pk].instance == c.instance ::
            t1.rows[pk].alertedAt.Some?)
  }

  lemma CheckEffect(t: Records, c: QueryCheck)
    requires RecordsOk(t)
    ensures Advanced(t, CheckQueries(t, c).records, c)
    ensures Current(CheckQueries(t, c).records, c)
    ensures CardExact(t, CheckQueries(t, c).records, CheckQueries(t, c).card, c)
  {
    hide UpsertAll, KeyOf, Collect, NotificationsOpen, HasActive, RecordsOk, Upserted, Advanced, CardExact;
    if c.enabled {
      CollectFinds(c.activity, c);
      CollectKeyed(c.activity, c);
      var found := Collect(c.activity, c);
      assert forall k | k in found.order :: k in Elements(found.order);
      UpsertAllEffect(t, c.instance, found, found.order, c.now);
      FinishEffect(t, UpsertAll(t, c.instance, found, found.order, c.now), c);
    } else {
      DisabledEffect(t, c);
    }
  }

  lemma DisabledEffect(t: Records, c: QueryCheck)
    requires RecordsOk(t) && !c.enabled
    ensures Advanced(t, CheckQueries(t, c).records, c)
    ensures Current(CheckQueries(t, c).records, c)
    ensures CardExact(t, CheckQueries(t, c).records, CheckQueries(t, c).card, c)
  {
    hide UpsertAll, Collect, NotificationsOpen, HasActive;
    var t1 := CheckQueries(t, c).records;
    forall k ensures !HasActive(t1.rows, c.instance, k) {
      NoneLeft(t1.rows, c.instance, k);
    }
  }

  /** From the upserted records on: resolve what is gone, send and mark what is new. */
  lemma FinishEffect(t: Records, u: Records, c: QueryCheck)
    requires c.enabled && Upserted(t, u, c.instance, Collect(c.activity, c).rows.Keys, c.now)
    requires var found := Collect(c.activity, c);
             && (forall k | k in found.order :: k in found.rows)
             && u == UpsertAll(t, c.instance, found, found.order, c.now)
    ensures Advanced(t, CheckQueries(t, c).records, c)
    ensures Current(CheckQueries(t, c).records, c)
    ensures CardExact(t, CheckQueries(t, c).records, CheckQueries(t, c).card, c)
  {
    hide UpsertAll, KeyOf, Collect, NotificationsOpen, HasActive, Advanced, CardExact;
    var t1 := CheckQueries(t, c).records;
    var keys := Collect(c.activity, c).rows.Keys;
    FinishedRows(t, u, c);
    FinishAdvances(t, u, t1, c);
    FinishSends(t, u, c);
    forall k ensures HasActive(t1.rows, c.instance, k) <==> k in keys {
      ResolveLeavesCurrent(u.rows, t1.rows, c.instance, keys, k);
    }
  }

  ghost predicate Finished(a: LongQueryAlert, b: LongQueryAlert, c: QueryCheck) {
    && b.instance == a.instance && b.key == a.key && b.firstSeenAt == a.firstSeenAt && b.lastSeenAt == a.lastSeenAt
    && (a.Active() && !b.Active() ==> b.resolvedAt == Some(c.now))
    && (!a.Active() ==> b.resolvedAt == a.resolvedAt)
    && (b.Active() <==> a.Active() && (a.instance == c.instance ==> a.key in Collect(c.activity, c).rows))
    && (a.alertedAt.Some? ==> b.alertedAt == a.alertedAt)
  }

  lemma UpsertedAlerts(t: Records, u: Records, instance: nat, keys: set<LongQueryKey>, now: Instant)
    requires Upserted(t, u, instance, keys, now)
    ensures AtMostOneActive(u.rows) && t.rows.Keys <= u.rows.Keys
    ensures forall pk | pk in u.rows :: u.rows[pk].alertedAt == if pk in t.rows then t.rows[pk].alertedAt else None
  {}

  lemma FinishedRows(t: Records, u: Records, c: QueryCheck)
    requires c.enabled && Upserted(t, u, c.instance, Collect(c.activity, c).rows.Keys, c.now)
    requires var found := Collect(c.activity, c);
             && (forall k | k in found.order :: k in found.rows)
             && u == UpsertAll(t, c.instance, found, found.order, c.now)
    ensures var t1 := CheckQueries(t, c).records;
            && t1.next == u.next && t1.rows.Keys == u.rows.Keys
            && forall pk | pk in u.rows :: Finished(u.rows[pk], t1.rows[pk], c)
  {
    hide UpsertAll, KeyOf, Collect, NotificationsOpen, HasActive, Upserted, NewAlerts, AtMostOneActive;
    CollectFinds(c.activity, c);
    UpsertedAlerts(t, u, c.instance, Collect(c.activity, c).rows.Keys, c.now);
    NewAlertsExact(u.rows, c.instance, Collect(c.activity, c).order);
  }

  lemma FinishAdvances(t: Records, u: Records, t1: Records, c: QueryCheck)
    requires c.enabled && Upserted(t, u, c.instance, Collect(c.activity, c).rows.Keys, c.now)
    requires t1.next == u.next && t1.rows.Keys == u.rows.Keys
    requires forall pk | pk in u.rows :: Finished(u.rows[pk], t1.rows[pk], c)
    ensures Advanced(t, t1, c)
  {
    hide Collect, HasActive;
  }

  lemma FinishSends(t: Records, u: Records, c: QueryCheck)
    requires c.enabled && Upserted(t, u, c.instance, Collect(c.activity, c).rows.Keys, c.now)
    requires var found := Collect(c.activity, c);
             && (forall k | k in found.order :: k in found.rows)
             && u == UpsertAll(t, c.instance, found, found.order, c.now)
    ensures CardExact(t, CheckQueries(t, c).records, CheckQueries(t, c).card, c)
  {
    hide UpsertAll, KeyOf, Collect, NotificationsOpen, HasActive, NewAlerts, AtMostOneActive, Upserted, CardExact;
    var keys := Collect(c.activity, c).rows.Keys;
    CollectFinds(c.activity, c);
    UpsertedAlerts(t, u, c.instance, keys, c.now);
    var alerts := NewAlerts(u.rows, c.instance, Collect(c.activity, c).order);
    NewAlertsExact(u.rows, c.instance, Collect(c.activity, c).order);
    var t1 := CheckQueries(t, c).records;
    if IsOpen(c) && alerts != [] {
      SentRows(t, u, t1, keys, alerts, c);
    } else {
      UnsentRows(t, u, t1, keys, c);
    }
  }

  lemma SentRows(t: Records, u: Records, t1: Records, keys: set<LongQueryKey>, alerts: seq<nat>, c: QueryCheck)
    requires t.rows.Keys <= u.rows.Keys && IsOpen(c)
    requires forall pk | pk in u.rows :: u.rows[pk].alertedAt == if pk in t.rows then t.rows[pk].alertedAt else None
    requires alerts != [] && Distinct(alerts) && Elements(alerts) == Unalerted(u.rows, c.instance, keys)
    requires t1.rows == MarkAlerted(ResolveExcept(u.rows, c.instance, keys, c.now), Elements(alerts), c.now)
    ensures CardExact(t, t1, Some(alerts), c)
  {
    hide NotificationsOpen;
    var ids := Elements(alerts);
    assert t1.rows.Keys == u.rows.Keys;
    assert forall pk | pk in u.rows ::
        pk in ids <==> t1.rows[pk].Active() && t1.rows[pk].instance == c.instance
                       && (pk in t.rows ==> t.rows[pk].alertedAt.None?);
    assert forall pk | pk in ids :: pk in u.rows;
    assert forall pk :: pk in alerts <==> pk in ids;
  }

  lemma UnsentRows(t: Records, u: Records, t1: Records, keys: set<LongQueryKey>, c: QueryCheck)
    requires t.rows.Keys <= u.rows.Keys
    requires forall pk | pk in u.rows :: u.rows[pk].alertedAt == if pk in t.rows then t.rows[pk].alertedAt else None
    requires IsOpen(c) ==> Unalerted(u.rows, c.instance, keys) == {}
    requires t1.rows == ResolveExcept(u.rows, c.instance, keys, c.now)
    ensures CardExact(t, t1, None, c)
  {
    hide NotificationsOpen;
    assert forall pk | pk in u.rows :: t1.rows[pk].alertedAt == u.rows[pk].alertedAt;
    forall pk | IsOpen(c) && pk in t1.rows && t1.rows[pk].Active() && t1.rows[pk].instance == c.instance
      ensures t1.rows[pk].alertedAt.Some?
    {
      assert pk !in Unalerted(u.rows, c.instance, keys);
    }
  }

  lemma NoneLeft(rows: map<nat, LongQueryAlert>, instance: nat, k: LongQueryKey)
    requires forall pk | pk in rows && rows[pk].instance == instance :: !rows[pk].Active()
    ensures !HasActive(rows, instance, k)
  {}

  lemma ResolveLeavesCurrent(u: map<nat, LongQueryAlert>, rows: map<nat, LongQueryAlert>, instance: nat,
                             keys: set<LongQueryKey>, k: LongQueryKey)
    requires u.Keys == rows.Keys
    requires forall pk | pk in u :: rows[pk].instance == u[pk].instance && rows[pk].key == u[pk].key
    requires forall pk | pk in u :: rows[pk].Active()
              <==> u[pk].Active() && (u[pk].instance == instance ==> u[pk].key in keys)
    requires k in keys ==> HasActive(u, instance, k)
    ensures HasActive(rows, instance, k) <==> k in keys
  {
    if k in keys {
      var pk :| pk in u && u[pk].ActiveFor(instance, k);
      assert rows[pk].ActiveFor(instance, k);
    }
  }

  // ---- runs ----

  const NO_RECORDS := Records(map[], 0)

  ghost function After(cs: seq<QueryCheck>): Records {
    if cs == [] then NO_RECORDS else CheckQueries(After(cs[..|cs| - 1]), cs[|cs| - 1]).records
  }

  ghost function CardAt(cs: seq<QueryCheck>, i: nat): Option<seq<nat>>
    requires i < |cs|
  {
    CheckQueries(After(cs[..i]), cs[i]).card
  }

  lemma {:induction false} RecordsStayOk(cs: seq<QueryCheck>)
    ensures RecordsOk(After(cs))
  {
    hide CheckQueries;
    if cs != [] {
      RecordsStayOk(cs[..|cs| - 1]);
      CheckEffect(After(cs[..|cs| - 1]), cs[|cs| - 1]);
    }
  }

  lemma RunStep(cs: seq<QueryCheck>, i: nat)
    requires i < |cs|
    ensures RecordsOk(After(cs[..i]))
    ensures Advanced(After(cs[..i]), After(cs[..i + 1]), cs[i])
    ensures Current(After(cs[..i + 1]), cs[i])
    ensures CardExact(After(cs[..i]), After(cs[..i + 1]), CardAt(cs, i), cs[i])
  {
    hide CheckQueries, Advanced, Current, CardExact, RecordsOk;
    assert cs[..i + 1][..i] == cs[..i];
    RecordsStayOk(cs[..i]);
    CheckEffect(After(cs[..i]), cs[i]);
  }

  lemma {:induction false} AlertedStays(cs: seq<QueryCheck>, i: nat, j: nat, pk: nat)
    requires i < j <= |cs| && CardAt(cs, i).Some? && pk in CardAt(cs, i).value
    ensures pk in After(cs[..j]).rows && After(cs[..j]).rows[pk].alertedAt == Some(cs[i].now)
    ensures After(cs[..j]).rows[pk].instance == cs[i].instance
    ensures pk in After(cs[..i + 1]).rows
    ensures After(cs[..j]).rows[pk].key == After(cs[..i + 1]).rows[pk].key
  {
    hide CheckQueries, After, CardAt, RecordsOk, Qualifying, HasActive, Current;
    if j == i + 1 {
      RunStep(cs, i);
    } else {
      AlertedStays(cs, i, j - 1, pk);
      RunStep(cs, j - 1);
    }
  }

  /** Every tracked execution appears in at most one delivered card. */
  lemma NotifiedAtMostOnce(cs: seq<QueryCheck>, i: nat, j: nat, pk: nat)
    requires i < j < |cs|
    requires CardAt(cs, i).Some? && pk in CardAt(cs, i).value
    ensures CardAt(cs, j).Some? ==> pk !in CardAt(cs, j).value
  {
    hide CheckQueries, After, CardAt, RecordsOk, Qualifying, HasActive, Current, Advanced;
    AlertedStays(cs, i, j, pk);
    RunStep(cs, j);
  }

  lemma {:induction false} StaysActiveWhileQualifying(cs: seq<QueryCheck>, i: nat, j: nat, pk: nat, instance: nat,
                                                      key: LongQueryKey)
    requires i <= j <= |cs| && pk in After(cs[..i]).rows && After(cs[..i]).rows[pk].ActiveFor(instance, key)
    requires forall k | i <= k < j && cs[k].instance == instance :: Qualifying(cs[k], instance, key)
    ensures pk in After(cs[..j]).rows && After(cs[..j]).rows[pk].ActiveFor(instance, key)
  {
    hide CheckQueries, After, RecordsOk, Qualifying, HasActive, Current, CardExact;
    if i < j {
      StaysActiveWhileQualifying(cs, i, j - 1, pk, instance, key);
      RunStep(cs, j - 1);
    }
  }

  /** The same execution is sent again only if some check of its database in
      between did not find it qualifying (or found the feature switched off). */
  lemma RepeatedOnlyAfterAbsence(cs: seq<QueryCheck>, i: nat, j: nat, p: nat, q: nat)
    requires i < j < |cs|
    requires CardAt(cs, i).Some? && p in CardAt(cs, i).value
    requires CardAt(cs, j).Some? && q in CardAt(cs, j).value
    requires cs[i].instance == cs[j].instance && p in After(cs[..i + 1]).rows && q in After(cs[..j + 1]).rows
    requires After(cs[..i + 1]).rows[p].key == After(cs[..j + 1]).rows[q].key
    ensures exists k :: i < k <= j && cs[k].instance == cs[i].instance
                        && !Qualifying(cs[k], cs[i].instance, After(cs[..i + 1]).rows[p].key)
  {
    hide CheckQueries, After, CardAt, Qualifying, HasActive, Current;
    var instance, key := cs[i].instance, After(cs[..i + 1]).rows[p].key;
    RunStep(cs, i);
    RunStep(cs, j);
    AlertedStays(cs, i, j, p);
    if forall k | i < k <= j && cs[k].instance == instance :: Qualifying(cs[k], instance, key) {
      StaysActiveWhileQualifying(cs, i + 1, j + 1, p, instance, key);
      NotifiedAtMostOnce(cs, i, j, p);
    }
  }

  /** Check k delivered a card that was handed record pk. */
  ghost predicate SentAt(cs: seq<QueryCheck>, k: nat, pk: nat) {
    k < |cs| && CardAt(cs, k).Some? && pk in CardAt(cs, k).value
  }

  lemma CardPrefix(cs: seq<QueryCheck>, n: nat, k: nat)
    requires k < n <= |cs|
    ensures CardAt(cs[..n], k) == CardAt(cs, k)
  {
    assert cs[..n][..k] == cs[..k];
  }

  /** A record has an alert date exactly when some delivered card was handed it. */
  lemma {:induction false} AlertedIffSent(cs: seq<QueryCheck>, pk: nat)
    requires pk in After(cs).rows
    ensures After(cs).rows[pk].alertedAt.Some? <==> exists k :: SentAt(cs, k, pk)
  {
    hide CheckQueries, After, CardAt, RecordsOk, Qualifying, HasActive, Current;
    if cs == [] {
      NothingYet();
    } else {
      var n := |cs| - 1;
      RunStep(cs, n);
      assert cs[..n + 1] == cs;
      if pk in After(cs[..n]).rows {
        AlertedIffSent(cs[..n], pk);
        if After(cs[..n]).rows[pk].alertedAt.Some? {
          var k :| SentAt(cs[..n], k, pk);
          CardPrefix(cs, n, k);
          assert SentAt(cs, k, pk);
        }
      }
      if After(cs).rows[pk].alertedAt.Some? && (pk in After(cs[..n]).rows ==> After(cs[..n]).rows[pk].alertedAt.None?) {
        assert SentAt(cs, n, pk);
      }
      forall k | SentAt(cs, k, pk) ensures After(cs).rows[pk].alertedAt.Some? {
        AlertedStays(cs, k, |cs|, pk);
      }
    }
  }

  lemma NothingYet()
    ensures After([]).rows == map[]
  {}

  /** Exactly one delivered card of the run was handed the record. */
  ghost predicate SentOnce(cs: seq<QueryCheck>, pk: nat) {
    exists k :: SentAt(cs, k, pk) && forall j | SentAt(cs, j, pk) :: j == k
  }

  lemma AlertedMeansSentOnce(cs: seq<QueryCheck>, pk: nat)
    requires pk in After(cs).rows && After(cs).rows[pk].alertedAt.Some?
    ensures SentOnce(cs, pk)
  {
    hide After, CardAt;
    AlertedIffSent(cs, pk);
    var k :| SentAt(cs, k, pk);
    forall j | SentAt(cs, j, pk) ensures j == k {
      if j < k {
        NotifiedAtMostOnce(cs, j, k, pk);
      } else if k < j {
        NotifiedAtMostOnce(cs, k, j, pk);
      }
    }
  }

  ghost predicate AllSent(cs: seq<QueryCheck>, instance: nat) {
    forall pk | pk in After(cs).rows && After(cs).rows[pk].Active() && After(cs).rows[pk].instance == instance ::
      SentOnce(cs, pk)
  }

  /** After every check, active records are the executions that qualify now; if it
      was open and delivery succeeded, each of them has been sent with exactly one
      card, in particular those that had to wait for the window to open. */
  lemma RecordsAreCurrent(cs: seq<QueryCheck>, i: nat)
    requires i < |cs|
    ensures Current(After(cs[..i + 1]), cs[i])
    ensures CardAt(cs, i).Some? ==> cs[i].enabled && NotificationsOpen(cs[i].window, cs[i].now) && cs[i].delivered
    ensures cs[i].enabled && NotificationsOpen(cs[i].window, cs[i].now) && cs[i].delivered ==>
              AllSent(cs[..i + 1], cs[i].instance)
  {
    hide CheckQueries, After, CardAt, RecordsOk, Qualifying, HasActive, Advanced, SentOnce;
    RunStep(cs, i);
    if IsOpen(cs[i]) {
      var t := After(cs[..i + 1]);
      forall pk | pk in t.rows && t.rows[pk].Active() && t.rows[pk].instance == cs[i].instance
        ensures SentOnce(cs[..i + 1], pk)
      {
        AlertedMeansSentOnce(cs[..i + 1], pk);
      }
    }
  }

  // ---- the running time a record shows ----

  /** The time of a refreshed record: the newly reported one, unless none was reported. */
  function Shown(earlier: Option<nat>, reported: int): nat {
    if reported > 0 then reported else if reported == 0 && earlier.Some? then earlier.value else 0
  }

  ghost predicate TimesShown(t: Records, u: Records, instance: nat, found: Candidates, keys: set<LongQueryKey>)
    requires keys <= found.rows.Keys
  {
    && t.rows.Keys <= u.rows.Keys
    && (forall pk | pk in t.rows ::
          && t.rows[pk].key == u.rows[pk].key && t.rows[pk].instance == u.rows[pk].instance
          && t.rows[pk].resolvedAt == u.rows[pk].resolvedAt
          && u.rows[pk].durationSeconds ==
               if t.rows[pk].Active() && t.rows[pk].instance == instance && t.rows[pk].key in keys
               then Shown(Some(t.rows[pk].durationSeconds), found.rows[t.rows[pk].key].durationSeconds)
               else t.rows[pk].durationSeconds)
    && (forall pk | pk in u.rows && pk !in t.rows ::
          u.rows[pk].key in keys && u.rows[pk].durationSeconds ==
              Shown(None, found.rows[u.rows[pk].key].durationSeconds))
  }

  /** What one upsert does to the columns the times depend on. */
  lemma UpsertOneTimes(u: Records, instance: nat, row: ActivityRow, now: Instant)
    requires RecordsOk(u)
    ensures var v := UpsertOne(u, instance, row, now);
            && u.rows.Keys <= v.rows.Keys
            && (forall pk | pk in u.rows ::
                  && v.rows[pk].key == u.rows[pk].key && v.rows[pk].instance == u.rows[pk].instance
                  && v.rows[pk].resolvedAt == u.rows[pk].resolvedAt
                  && v.rows[pk].durationSeconds ==
                       if u.rows[pk].ActiveFor(instance, KeyOf(row))
                       then Shown(Some(u.rows[pk].durationSeconds), row.durationSeconds)
                           else u.rows[pk].durationSeconds)
            && (forall pk | pk in v.rows && pk !in u.rows ::
                  v.rows[pk].key == KeyOf(row) && v.rows[pk].durationSeconds == Shown(None, row.durationSeconds))
  {
    hide KeyOf;
    if !HasActive(u.rows, instance, KeyOf(row)) {
      NoneActive(u.rows, instance, KeyOf(row));
    }
  }

  lemma TimesStep(t: Records, u: Records, instance: nat, found: Candidates, keys: set<LongQueryKey>, key: LongQueryKey,
                  now: Instant)
    requires RecordsOk(u) && keys <= found.rows.Keys && key in found.rows && key !in keys
              && KeyOf(found.rows[key]) == key
    requires TimesShown(t, u, instance, found, keys)
    ensures TimesShown(t, UpsertOne(u, instance, found.rows[key], now), instance, found, keys + {key})
  {
    hide KeyOf, HasActive, UpsertOne, RecordsOk, Shown;
    UpsertOneTimes(u, instance, found.rows[key], now);
  }

  lemma NoneActive(rows: map<nat, LongQueryAlert>, instance: nat, key: LongQueryKey)
    requires !HasActive(rows, instance, key)
    ensures forall pk | pk in rows :: !rows[pk].ActiveFor(instance, key)
  {}

  lemma {:induction false} UpsertTimes(t: Records, instance: nat, found: Candidates, order: seq<LongQueryKey>,
                                       now: Instant)
    requires RecordsOk(t) && Distinct(order)
    requires forall k | k in order :: k in found.rows && KeyOf(found.rows[k]) == k
    ensures TimesShown(t, UpsertAll(t, instance, found, order, now), instance, found, Elements(order))
  {
    hide UpsertOne, KeyOf, RecordsOk, TimesShown;
    if order == [] {
      TimesKept(t, instance, found);
    } else {
      var n := |order| - 1;
      UpsertTimes(t, instance, found, order[..n], now);
      UpsertAllEffect(t, instance, found, order[..n], now);
      assert Elements(order) == Elements(order[..n]) + {order[n]};
      TimesStep(t, UpsertAll(t, instance, found, order[..n], now), instance, found, Elements(order[..n]), order[n],
          now);
    }
  }

  lemma TimesKept(t: Records, instance: nat, found: Candidates)
    ensures TimesShown(t, t, instance, found, Elements([]))
  {}

  /** After a check, each active record of the database shows the running time of
      the last qualifying row with its key, or the earlier one if that row has none. */
  lemma TimesAfterCheck(t: Records, c: QueryCheck, pk: nat)
    requires RecordsOk(t) && c.enabled
    requires var t1 := CheckQueries(t, c).records;
             pk in t1.rows && t1.rows[pk].Active() && t1.rows[pk].instance == c.instance
    ensures var a := CheckQueries(t, c).records.rows[pk];
            exists row :: LastWithKey(c.activity, c, a.key, row)
                          && a.durationSeconds == Shown(if pk in t.rows then Some(t.rows[pk].durationSeconds) else None,
                                                        row.durationSeconds)
  {
    hide UpsertAll, KeyOf, Collect, NotificationsOpen, HasActive, NewAlerts, RecordsOk, Qualifies, LastWithKey;
    CollectFinds(c.activity, c);
    CollectKeyed(c.activity, c);
    CollectKeepsLast(c.activity, c);
    var found := Collect(c.activity, c);
    assert forall k | k in found.order :: k in Elements(found.order);
    UpsertTimes(t, c.instance, found, found.order, c.now);
    var a := CheckQueries(t, c).records.rows[pk];
    assert a.key in found.rows;
    assert LastWithKey(c.activity, c, a.key, found.rows[a.key]);
  }

  // ---- which executions are tracked, from the rows themselves ----

  /** u is the user name of a listed exclusion, up to white space and case. */
  ghost predicate Excluded(c: QueryCheck, u: string) {
    exists name, t, v :: name in Split(c.excludedUsers, ',') && Trims(name, t) && t != "" && Trims(u, v)
                         && c.casefold(t) == c.casefold(v)
  }

  lemma {:induction false} TrimUnique(s: string, t: string)
    requires Trims(s, t)
    ensures t == Strip(s)
  {
    hide IsSpace, StripLeft, StripRight;
    StripTrims(s);
    SameTrim(s, t, Strip(s));
  }

  lemma SameTrim(s: string, t: string, u: string)
    requires Trims(s, t) && Trims(s, u)
    ensures t == u
  {
    hide IsSpace;
    var a, b :| s == a + t + b && AllSpace(a) && AllSpace(b);
    var d, e :| s == d + u + e && AllSpace(d) && AllSpace(e);
    if t != "" {
      InsideTrim(s, a, t, b, d, u, e);
      InsideTrim(s, d, u, e, a, t, b);
      assert |a| == |d| && |t| == |u|;
      assert t == s[|a|..|a| + |t|] && u == s[|d|..|d| + |u|];
    } else {
      BlankTrim(s, a, b, d, u, e);
    }
  }

  lemma EndsAreSpace(s: string, d: string, u: string, e: string)
    requires s == d + u + e && AllSpace(d) && AllSpace(e)
    ensures forall i | 0 <= i < |d| :: IsSpace(s[i])
    ensures forall i | |d| + |u| <= i < |s| :: IsSpace(s[i])
  {
    hide IsSpace;
    forall i | 0 <= i < |d| ensures IsSpace(s[i]) {
      assert s[i] == d[i];
    }
    forall i | |d| + |u| <= i < |s| ensures IsSpace(s[i]) {
      assert s[i] == e[i - |d| - |u|];
    }
  }

  /** What is left of a trimmed text cannot be trimmed further. */
  lemma InsideTrim(s: string, a: string, t: string, b: string, d: string, u: string, e: string)
    requires s == a + t + b && AllSpace(a) && AllSpace(b) && t != "" && !IsSpace(t[0]) && !IsSpace(t[|t| - 1])
    requires s == d + u + e && AllSpace(d) && AllSpace(e)
    ensures u != "" && |d| <= |a| && |e| <= |b|
  {
    hide IsSpace, AllSpace;
    assert s[|a|] == t[0] && s[|a| + |t| - 1] == t[|t| - 1];
    EndsAreSpace(s, d, u, e);
  }

  lemma BlankTrim(s: string, a: string, b: string, d: string, u: string, e: string)
    requires s == a + b && AllSpace(a) && AllSpace(b)
    requires s == d + u + e && (u != "" ==> !IsSpace(u[0]))
    ensures u == ""
  {
    hide IsSpace, AllSpace;
    assert u != "" ==> s[|d|] == u[0];
    assert s == a + "" + b;
    EndsAreSpace(s, a, "", b);
  }

  /** A check tracks exactly the executions of some active row with a user, not of the
      control application, at or above the threshold, and whose user is on no
      exclusion, all up to white space and case. */
  lemma TrackedIff(t: Records, c: QueryCheck, k: LongQueryKey)
    requires RecordsOk(t) && c.enabled
    ensures HasActive(CheckQueries(t, c).records.rows, c.instance, k) <==>
              exists row :: row in c.activity && KeyOf(row) == k && row.state == "active" && !Trims(row.username, "")
                            && !(exists name ::
                                   Trims(row.applicationName, name) && c.casefold(name) == "healthgrid-control")
                            && row.durationSeconds >= c.threshold && !Excluded(c, row.username)
  {
    hide KeyOf, Qualifies, HasActive, CheckQueries, Advanced, CardExact, Collect, Excluded, Trims;
    CheckEffect(t, c);
    CollectFinds(c.activity, c);
    forall row
      ensures Qualifies(row, c) <==>
                && row.state == "active" && !Trims(row.username, "")
                && !(exists name :: Trims(row.applicationName, name) && c.casefold(name) == "healthgrid-control")
                && row.durationSeconds >= c.threshold && !Excluded(c, row.username)
    {
      QualifiesMeans(row, c);
    }
  }

  lemma QualifiesMeans(row: ActivityRow, c: QueryCheck)
    ensures Qualifies(row, c) <==>
              && row.state == "active" && !Trims(row.username, "")
              && !(exists name :: Trims(row.applicationName, name) && c.casefold(name) == "healthgrid-control")
              && row.durationSeconds >= c.threshold && !Excluded(c, row.username)
  {
    hide Strip, Trims, Split;
    StripTrims(row.username);
    StripTrims(row.applicationName);
    forall s, t ensures Trims(s, t) <==> t == Strip(s) {
      StripTrims(s);
      if Trims(s, t) { TrimUnique(s, t); }
    }
    if Excluded(c, row.username) {
      var name, t, v :| name in Split(c.excludedUsers, ',') && Trims(name, t) && t != "" && Trims(row.username, v)
                        && c.casefold(t) == c.casefold(v);
      assert c.casefold(Strip(name)) in ExcludedUsers(c);
    }
    if c.casefold(Strip(row.username)) in ExcludedUsers(c) {
      var name :| name in Split(c.excludedUsers, ',') && Strip(name) != ""
                  && c.casefold(Strip(name)) == c.casefold(Strip(row.username));
      assert Trims(name, Strip(name)) && Trims(row.username, Strip(row.username));
    }
  }

  // ---- what the card shows ----

  const CARD_LIMIT := 20

  /** The records `_long_query_card` lists: the first twenty it is handed. */
  function Listed(alerts: seq<nat>): seq<nat> { alerts[..Min(CARD_LIMIT, |alerts|)] }

  /** Records a check marks as alerted. */
  ghost function MarkedAt(cs: seq<QueryCheck>, i: nat): set<nat>
    requires i < |cs|
  {
    var t, t1 := After(cs[..i]), After(cs[..i + 1]);
    set pk | pk in t1.rows && t1.rows[pk].alertedAt.Some? && (pk in t.rows ==> t.rows[pk].alertedAt.None?)
  }

  lemma MarkedAreHandedOver(cs: seq<QueryCheck>, i: nat)
    requires i < |cs|
    ensures MarkedAt(cs, i) == if CardAt(cs, i).Some? then Elements(CardAt(cs, i).value) else {}
    ensures CardAt(cs, i).Some? ==>
              Distinct(CardAt(cs, i).value) && |MarkedAt(cs, i)| == |CardAt(cs, i).value|
  {
    hide CheckQueries, After, CardAt, RecordsOk, Qualifying, HasActive, Advanced, Current;
    RunStep(cs, i);
    if CardAt(cs, i).Some? {
      DistinctMultiset(CardAt(cs, i).value);
      assert |multiset(Elements(CardAt(cs, i).value))| == |Elements(CardAt(cs, i).value)|;
    }
  }

  /** A card shows every execution its check marks as alerted if and only if
      these are at most twenty. One that is marked and not shown is on no card ever. */
  lemma AllShownIffAtMostTwenty(cs: seq<QueryCheck>, i: nat)
    requires i < |cs| && CardAt(cs, i).Some?
    ensures MarkedAt(cs, i) == Elements(Listed(CardAt(cs, i).value)) <==> |MarkedAt(cs, i)| <= 20
    ensures Listed(CardAt(cs, i).value) <= CardAt(cs, i).value
    ensures forall pk, j: nat | pk in MarkedAt(cs, i) && pk !in Listed(CardAt(cs, i).value)
                                && j < |cs| && CardAt(cs, j).Some? ::
              pk !in Listed(CardAt(cs, j).value)
  {
    hide After, CardAt, CheckQueries, MarkedAt;
    MarkedAreHandedOver(cs, i);
    var alerts := CardAt(cs, i).value;
    if |alerts| <= CARD_LIMIT {
      assert Listed(alerts) == alerts;
    } else {
      assert alerts[CARD_LIMIT] in Elements(alerts);
      assert alerts[CARD_LIMIT] !in Listed(alerts);
    }
    forall pk, j: nat | pk in MarkedAt(cs, i) && pk !in Listed(alerts) && j < |cs| && CardAt(cs, j).Some?
      ensures pk !in Listed(CardAt(cs, j).value)
    {
      if j < i {
        if pk in CardAt(cs, j).value { NotifiedAtMostOnce(cs, j, i, pk); }
      } else if i < j {
        NotifiedAtMostOnce(cs, i, j, pk);
      }
    }
  }

  // ---- a check with more than twenty new executions ----

  function Busy(n: nat): seq<ActivityRow> {
    if n == 0 then [] else Busy(n - 1) + [ActivityRow(n, "app", "", "", "", "active", 60)]
  }

  function BusyCheck(n: nat): QueryCheck {
    QueryCheck(0, Busy(n), true, "", s => s, 0, Window(false, 0, 0), 0, true)
  }

  lemma {:induction false} BusyCollects(n: nat, m: nat)
    ensures var found := Collect(Busy(n), BusyCheck(m));
            && |found.order| == n && forall k | k in found.rows :: 1 <= k.pid <= n
  {
    hide Strip, Split;
    if n > 0 {
      BusyCollects(n - 1, m);
      assert Busy(n)[..n - 1] == Busy(n - 1) && |Busy(n)| == n by { BusySize(n); BusySize(n - 1); }
      BusyQualifies(n, m);
    }
  }

  lemma {:induction false} BusySize(n: nat)
    ensures |Busy(n)| == n
  {
    if n > 0 { BusySize(n - 1); }
  }

  lemma BusyQualifies(n: nat, m: nat)
    ensures Qualifies(ActivityRow(n, "app", "", "", "", "active", 60), BusyCheck(m))
  {
    assert Strip("app") == "app" && Strip("") == "";
    assert Split("", ',') == [""];
    assert ExcludedUsers(BusyCheck(m)) == {};
  }

  lemma {:induction false} AllNew(rows: map<nat, LongQueryAlert>, instance: nat, order: seq<LongQueryKey>)
    requires forall pk | pk in rows :: rows[pk].alertedAt.None?
    requires forall k | k in order :: HasActive(rows, instance, k)
    ensures |NewAlerts(rows, instance, order)| == |order|
  {
    hide HasActive;
    if order != [] { AllNew(rows, instance, order[..|order| - 1]); }
  }

  /** With n > 20 executions starting to qualify at one check, n are marked as
      alerted and the card lists only twenty of them. */
  lemma TooManyForTheCard(n: nat)
    requires n > CARD_LIMIT
    ensures var cs := [BusyCheck(n)];
            && CardAt(cs, 0).Some? && |MarkedAt(cs, 0)| == n
            && |Listed(CardAt(cs, 0).value)| == CARD_LIMIT && MarkedAt(cs, 0) != Elements(Listed(CardAt(cs, 0).value))
  {
    hide Busy, Collect, UpsertAll, NewAlerts, KeyOf, RecordsOk, MarkedAt;
    var c := BusyCheck(n);
    var cs := [c];
    CollectFinds(c.activity, c);
    CollectKeyed(c.activity, c);
    BusyCollects(n, n);
    var found := Collect(c.activity, c);
    assert forall k | k in found.order :: k in Elements(found.order);
    NoRecordsOk();
    UpsertAllEffect(NO_RECORDS, 0, found, found.order, 0);
    var u := UpsertAll(NO_RECORDS, 0, found, found.order, 0);
    AllNew(u.rows, 0, found.order);
    assert cs[..0] == [];
    assert CardAt(cs, 0).Some? && |CardAt(cs, 0).value| == n;
    MarkedAreHandedOver(cs, 0);
    AllShownIffAtMostTwenty(cs, 0);
  }

  lemma NoRecordsOk()
    ensures RecordsOk(NO_RECORDS)
  {}

  // ---- the table as the program holds it ----

  class LongQueryTable {
    var rows: map<nat, LongQueryAlert>
    var next: nat

    function Contents(): Records
      reads this
    {
      Records(rows, next)
    }

    method UpsertCandidate(instance: nat, row: ActivityRow, now: Instant) returns (id: nat)
      requires RecordsOk(Contents())
      modifies this
      ensures Contents() == UpsertOne(old(Contents()), instance, row, now)
      ensures id in rows && rows[id].ActiveFor(instance, KeyOf(row))
    {
      hide KeyOf;
      if pk :| pk in rows && rows[pk].ActiveFor(instance, KeyOf(row)) {
        assert HasActive(rows, instance, KeyOf(row));
        var alert := rows[pk].(lastSeenAt := now);
        if row.durationSeconds != 0 {
          alert := alert.(durationSeconds := Max(0, row.durationSeconds));
        }
        assert UpsertOne(Contents(), instance, row, now).rows == rows[pk := alert];
        rows := rows[pk := alert];
        id := pk;
      } else {
        rows := rows[next := LongQueryAlert(instance, KeyOf(row), Max(0, row.durationSeconds), now, now, None, None)];
        id := next;
        next := next + 1;
      }
    }

    /** The loop over the candidates; it collects the records still to be sent. */
    method UpsertCandidates(instance: nat, found: Candidates, now: Instant) returns (newAlerts: seq<nat>)
      requires RecordsOk(Contents())
      requires Distinct(found.order) && Elements(found.order) == found.rows.Keys
      requires forall k | k in found.order :: k in found.rows && KeyOf(found.rows[k]) == k
      modifies this
      ensures Contents() == UpsertAll(old(Contents()), instance, found, found.order, now)
      ensures newAlerts == NewAlerts(rows, instance, found.order)
    {
      hide UpsertOne, RecordsOk, KeyOf;
      ghost var t := Contents();
      var order := found.order;
      newAlerts := [];
      for n := 0 to |order|
        invariant Contents() == UpsertAll(t, instance, found, order[..n], now)
        invariant RecordsOk(Contents())
        invariant newAlerts == NewAlerts(rows, instance, order[..n])
      {
        assert order[..n + 1][..n] == order[..n];
        ghost var before := Contents();
        UpsertOneKeepsOk(before, instance, found.rows[order[n]], now);
        var id := UpsertCandidate(instance, found.rows[order[n]], now);
        NewAlertsStable(before, instance, order[..n], found.rows[order[n]], now);
        IdIsActiveId(Contents(), instance, order[n], id);
        if rows[id].alertedAt == None {
          newAlerts := newAlerts + [id];
        }
      }
      assert order[..|order|] == order;
    }

    method ProcessLongQueries(c: QueryCheck) returns (card: Option<seq<nat>>)
      requires RecordsOk(Contents())
      modifies this
      ensures RecordsOk(Contents())
      ensures QueryOutcome(Contents(), card) == CheckQueries(old(Contents()), c)
    {
      hide UpsertAll, RecordsOk, KeyOf, Qualifies;
      CheckKeepsOk(Contents(), c);
      card := None;
      if !c.enabled {
        rows := ResolveExcept(rows, c.instance, {}, c.now);
        return;
      }
      CollectFinds(c.activity, c);
      CollectKeyed(c.activity, c);
      var found := Collect(c.activity, c);
      assert forall k | k in found.order :: k in Elements(found.order);
      var newAlerts := UpsertCandidates(c.instance, found, c.now);
      rows := ResolveExcept(rows, c.instance, found.rows.Keys, c.now);
      if newAlerts != [] && NotificationsOpen(c.window, c.now) {
        if c.delivered {
          rows := MarkAlerted(rows, Elements(newAlerts), c.now);
          card := Some(newAlerts);
        }
      }
    }
  }

  lemma CheckKeepsOk(t: Records, c: QueryCheck)
    requires RecordsOk(t)
    ensures RecordsOk(CheckQueries(t, c).records)
  {
    hide CheckQueries, RowAdvanced, Qualifying, RecordsOk;
    CheckEffect(t, c);
  }

  /** Upserting another candidate does not change which earlier ones are new. */
  lemma {:induction false} NewAlertsStable(t: Records, instance: nat, order: seq<LongQueryKey>, row: ActivityRow,
                                           now: Instant)
    requires RecordsOk(t) && RecordsOk(UpsertOne(t, instance, row, now)) && KeyOf(row) !in order
    ensures NewAlerts(UpsertOne(t, instance, row, now).rows, instance, order) == NewAlerts(t.rows, instance, order)
  {
    hide KeyOf, HasActive, UpsertOne, RecordsOk;
    if order != [] {
      var n := |order| - 1;
      NewAlertsStable(t, instance, order[..n], row, now);
      OtherKeyStable(t, instance, order[n], row, now);
    }
  }

  lemma OtherKeyStable(t: Records, instance: nat, key: LongQueryKey, row: ActivityRow, now: Instant)
    requires RecordsOk(t) && RecordsOk(UpsertOne(t, instance, row, now)) && KeyOf(row) != key
    ensures var u := UpsertOne(t, instance, row, now);
            && IsNew(u.rows, instance, key) == IsNew(t.rows, instance, key)
            && (IsNew(t.rows, instance, key) ==>
                  ActiveId(u.rows, instance, key) == ActiveId(t.rows, instance, key))
  {
    hide KeyOf;
    var u := UpsertOne(t, instance, row, now);
    if HasActive(t.rows, instance, key) {
      var pk := ActiveId(t.rows, instance, key);
      assert u.rows[pk] == t.rows[pk] && u.rows[pk].ActiveFor(instance, key);
      IdIsActiveId(u, instance, key, pk);
    }
  }

  lemma IdIsActiveId(t: Records, instance: nat, key: LongQueryKey, id: nat)
    requires RecordsOk(t) && id in t.rows && t.rows[id].ActiveFor(instance, key)
    ensures HasActive(t.rows, instance, key) && ActiveId(t.rows, instance, key) == id
  {}
}
