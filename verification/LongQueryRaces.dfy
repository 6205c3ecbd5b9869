/**
 Long-query cards when several pollers check the same database at once. Nothing
 is locked between the transaction that finds a record unalerted, the sending of
 the card and the statement that marks its records, so these are separate atomic
 steps here. Any number of pollers may interleave them in any order, a poller may
 die between two of its steps, and cleanup may delete resolved records at any time.
 */
module LongQueryRaces {
  import opened Wrappers
  import opened Models
  import opened LongQueries
  import opened NotificationWindow
  import opened Text
  import Retention

  type Poller = nat

  /** What a poller has in memory: the records it collected, and whether a card
      with them got through. */
  datatype Round = Round(ids: set<nat>, sent: bool)

  datatype Site = Site(records: Records, rounds: map<Poller, Round>)

  /** `Begin` starts a check, and forgets an earlier one of the same poller that was
      broken off; the delivery of a card is `Send`. */
  datatype Step =
    | Begin(poller: Poller)
    | Upsert(poller: Poller, instance: nat, row: ActivityRow, now: Instant)
    | Resolve(instance: nat, seen: set<LongQueryKey>, now: Instant)
    | Send(poller: Poller, delivered: bool)
    | Mark(poller: Poller, now: Instant)
    | Purge(cutoff: Instant)

  const FRESH_SITE := Site(NO_RECORDS, map[])

  predicate Collecting(s: Site, p: Poller) { p in s.rounds && !s.rounds[p].sent }

  predicate Marking(s: Site, p: Poller) { p in s.rounds && s.rounds[p].sent }

  /** The record an upsert of this row leaves active. */
  ghost function Target(t: Records, instance: nat, row: ActivityRow, now: Instant): nat {
    var rows := UpsertOne(t, instance, row, now).rows;
    if HasActive(rows, instance, KeyOf(row)) then ActiveId(rows, instance, KeyOf(row)) else 0
  }

  /** A step its poller is not ready for does nothing. */
  ghost function Perform(s: Site, step: Step): Site {
    match step
    case Begin(p) => s.(rounds := s.rounds[p := Round({}, false)])
    case Upsert(p, instance, row, now) =>
      if !Collecting(s, p) then s
      else
        var records := UpsertOne(s.records, instance, row, now);
        var pk := Target(s.records, instance, row, now);
        var isNew := pk in records.rows && records.rows[pk].alertedAt.None?;
        Site(records, if isNew then s.rounds[p := Round(s.rounds[p].ids + {pk}, false)] else s.rounds)
    case Resolve(instance, seen, now) =>
      s.(records := s.records.(rows := ResolveExcept(s.records.rows, instance, seen, now)))
    case Send(p, delivered) =>
      if !Collecting(s, p) then s
      else if delivered && s.rounds[p].ids != {} then s.(rounds := s.rounds[p := Round(s.rounds[p].ids, true)])
      else s.(rounds := s.rounds - {p})
    case Mark(p, now) =>
      if !Marking(s, p) then s
      else Site(s.records.(rows := MarkAlerted(s.records.rows, s.rounds[p].ids, now)), s.rounds - {p})
    case Purge(cutoff) =>
      var expired := Retention.ExpiredLongQueries(s.records.rows, cutoff);
      s.(records := s.records.(rows := s.records.rows - expired))
  }

  ghost function After(trace: seq<Step>): Site {
    if trace == [] then FRESH_SITE else Perform(After(trace[..|trace| - 1]), trace[|trace| - 1])
  }

  // ---- what the steps of a trace do ----

  /** In state s, the step delivers a card. */
  predicate Delivers(s: Site, step: Step) {
    step.Send? && step.delivered && Collecting(s, step.poller) && s.rounds[step.poller].ids != {}
  }

  /** In state s, the step delivers a card with record pk. */
  predicate Sends(s: Site, step: Step, pk: nat) { Delivers(s, step) && pk in s.rounds[step.poller].ids }

  /** In state s, the step marks record pk as alerted. */
  predicate Marks(s: Site, step: Step, pk: nat) {
    step.Mark? && Marking(s, step.poller) && pk in s.rounds[step.poller].ids
  }

  /** In state s, the step is an upsert by p that leaves record pk active. */
  ghost predicate Finds(s: Site, step: Step, p: Poller, pk: nat) {
    step.Upsert? && step.poller == p && Collecting(s, p) && Target(s.records, step.instance, step.row, step.now) == pk
  }

  ghost predicate SentAt(trace: seq<Step>, i: nat, pk: nat) { i < |trace| && Sends(After(trace[..i]), trace[i], pk) }

  ghost predicate MarkedBefore(trace: seq<Step>, n: nat, pk: nat) {
    exists k: nat :: k < n && k < |trace| && Marks(After(trace[..k]), trace[k], pk)
  }

  /** At step m poller p found pk, which nobody had marked before, and p has not
      begun another check since. */
  ghost predicate FoundUnmarked(trace: seq<Step>, m: nat, p: Poller, pk: nat) {
    && m < |trace| && Finds(After(trace[..m]), trace[m], p, pk) && !MarkedBefore(trace, m, pk)
    && forall k | m < k < |trace| :: trace[k] != Begin(p)
  }

  ghost predicate Collected(trace: seq<Step>, p: Poller, pk: nat) {
    exists m: nat :: FoundUnmarked(trace, m, p, pk)
  }

  // ---- the state after a trace ----

  ghost predicate SiteOk(s: Site) {
    RecordsOk(s.records) && forall p | p in s.rounds :: forall pk | pk in s.rounds[p].ids :: pk < s.records.next
  }

  lemma TargetFound(t: Records, instance: nat, row: ActivityRow, now: Instant)
    requires RecordsOk(t)
    ensures var u, pk := UpsertOne(t, instance, row, now), Target(t, instance, row, now);
            && RecordsOk(u) && t.next <= u.next && pk in u.rows
            && (forall id | id in t.rows :: id in u.rows && u.rows[id].alertedAt == t.rows[id].alertedAt)
            && (forall id | id in u.rows && id !in t.rows :: id >= t.next && u.rows[id].alertedAt.None?)
  {
    hide KeyOf;
    UpsertOneKeepsOk(t, instance, row, now);
  }

  lemma SiteStaysOk(s: Site, step: Step)
    requires SiteOk(s)
    ensures SiteOk(Perform(s, step)) && s.records.next <= Perform(s, step).records.next
  {
    hide UpsertOne, Target;
    if step.Upsert? {
      TargetFound(s.records, step.instance, step.row, step.now);
    }
  }

  /** Alert dates come from marks and from nowhere else. */
  lemma DateStep(s: Site, step: Step, pk: nat, marked: bool)
    requires SiteOk(s)
    requires pk in s.records.rows ==> (s.records.rows[pk].alertedAt.Some? <==> marked)
    requires pk >= s.records.next ==> !marked
    ensures var s1 := Perform(s, step);
            && (pk in s1.records.rows ==> (s1.records.rows[pk].alertedAt.Some? <==> marked || Marks(s, step, pk)))
            && (pk >= s.records.next ==> !Marks(s, step, pk))
  {
    hide UpsertOne, Target;
    if step.Upsert? {
      TargetFound(s.records, step.instance, step.row, step.now);
    }
  }

  lemma MarkedStep(trace: seq<Step>, pk: nat)
    requires trace != []
    ensures var n := |trace| - 1;
            && (MarkedBefore(trace, n, pk) <==> MarkedBefore(trace[..n], n, pk))
            && (MarkedBefore(trace, |trace|, pk)
                <==> MarkedBefore(trace[..n], n, pk) || Marks(After(trace[..n]), trace[n], pk))
  {
    hide After, Marks;
    SameMarks(trace, |trace| - 1, |trace| - 1, pk);
    var n := |trace| - 1;
    if MarkedBefore(trace, |trace|, pk) {
      var k: nat :| k < |trace| && Marks(After(trace[..k]), trace[k], pk);
      assert k < n ==> MarkedBefore(trace, n, pk);
    }
    if MarkedBefore(trace, n, pk) {
      var k: nat :| k < n && Marks(After(trace[..k]), trace[k], pk);
      assert MarkedBefore(trace, |trace|, pk);
    }
  }

  lemma SameMarks(trace: seq<Step>, n: nat, m: nat, pk: nat)
    requires m <= n <= |trace|
    ensures MarkedBefore(trace, m, pk) <==> MarkedBefore(trace[..n], m, pk)
  {
    hide After, Marks;
    assert forall k: nat | k < n :: trace[..n][..k] == trace[..k];
    if MarkedBefore(trace, m, pk) {
      var k: nat :| k < m && Marks(After(trace[..k]), trace[k], pk);
      assert Marks(After(trace[..n][..k]), trace[..n][k], pk);
    }
    if MarkedBefore(trace[..n], m, pk) {
      var k: nat :| k < m && Marks(After(trace[..n][..k]), trace[..n][k], pk);
      assert Marks(After(trace[..k]), trace[k], pk);
    }
  }

  /** A record has an alert date exactly when some step marked it. */
  lemma {:induction false} AlertedIffMarked(trace: seq<Step>, pk: nat)
    ensures SiteOk(After(trace))
    ensures var t := After(trace).records;
            && (pk in t.rows ==> (t.rows[pk].alertedAt.Some? <==> MarkedBefore(trace, |trace|, pk)))
            && (pk >= t.next ==> !MarkedBefore(trace, |trace|, pk))
  {
    hide Perform, Marks, MarkedBefore, SiteOk;
    if trace == [] {
      NothingYet(pk);
    } else {
      var n := |trace| - 1;
      AlertedIffMarked(trace[..n], pk);
      MarkedStep(trace, pk);
      SiteStaysOk(After(trace[..n]), trace[n]);
      DateStep(After(trace[..n]), trace[n], pk, MarkedBefore(trace[..n], n, pk));
    }
  }

  lemma NothingYet(pk: nat)
    ensures SiteOk(FRESH_SITE) && FRESH_SITE.records.rows == map[] && !MarkedBefore([], 0, pk)
  {}

  /** How one more step changes what a poller in the middle of a check has collected. */
  lemma CollectedStep(trace: seq<Step>, p: Poller, pk: nat)
    requires trace != []
    ensures var n := |trace| - 1;
            Collected(trace, p, pk) <==>
              || (Finds(After(trace[..n]), trace[n], p, pk) && !MarkedBefore(trace[..n], n, pk))
              || (Collected(trace[..n], p, pk) && trace[n] != Begin(p))
  {
    hide After, Finds, MarkedBefore;
    var n := |trace| - 1;
    forall m: nat | m < n
      ensures FoundUnmarked(trace, m, p, pk) <==> FoundUnmarked(trace[..n], m, p, pk) && trace[n] != Begin(p)
    {
      assert trace[..n][..m] == trace[..m];
      SameMarks(trace, n, m, pk);
    }
    SameMarks(trace, n, n, pk);
    if Collected(trace, p, pk) {
      var m: nat :| FoundUnmarked(trace, m, p, pk);
      assert m < n ==> FoundUnmarked(trace[..n], m, p, pk);
    }
    if Finds(After(trace[..n]), trace[n], p, pk) && !MarkedBefore(trace[..n], n, pk) {
      assert FoundUnmarked(trace, n, p, pk);
    }
    if Collected(trace[..n], p, pk) && trace[n] != Begin(p) {
      var m: nat :| FoundUnmarked(trace[..n], m, p, pk);
      assert FoundUnmarked(trace, m, p, pk);
    }
  }

  /** One step of a poller's collection. */
  lemma RoundStep(s: Site, step: Step, p: Poller, pk: nat, collected: bool, marked: bool)
    requires SiteOk(s)
    requires p in s.rounds ==> (pk in s.rounds[p].ids <==> collected)
    requires pk in s.records.rows ==> (s.records.rows[pk].alertedAt.Some? <==> marked)
    requires pk >= s.records.next ==> !marked
    ensures var s1 := Perform(s, step);
            p in s1.rounds && step != Begin(p) ==>
              p in s.rounds && (pk in s1.rounds[p].ids <==> collected || (Finds(s, step, p, pk) && !marked))
    ensures step == Begin(p) ==> !Finds(s, step, p, pk) && Perform(s, step).rounds[p].ids == {}
  {
    hide UpsertOne, Target;
    if step.Upsert? {
      TargetFound(s.records, step.instance, step.row, step.now);
      TargetOld(s.records, step.instance, step.row, step.now);
    }
  }

  /** An upsert finds a record that is there, or a new one. */
  lemma TargetOld(t: Records, instance: nat, row: ActivityRow, now: Instant)
    requires RecordsOk(t)
    ensures var pk := Target(t, instance, row, now); pk in t.rows || pk >= t.next
  {
    hide UpsertOne, Target;
    TargetFound(t, instance, row, now);
  }

  /** A poller in the middle of a check has collected exactly the records that it
      found in this check while nobody had marked them. */
  lemma {:induction false} RoundExact(trace: seq<Step>, p: Poller, pk: nat)
    requires p in After(trace).rounds
    ensures pk in After(trace).rounds[p].ids <==> Collected(trace, p, pk)
  {
    hide Perform, Finds, MarkedBefore, SiteOk, Collected;
    if trace != [] {
      var n := |trace| - 1;
      var s := After(trace[..n]);
      AlertedIffMarked(trace[..n], pk);
      CollectedStep(trace, p, pk);
      if p in s.rounds {
        RoundExact(trace[..n], p, pk);
      }
      RoundStep(s, trace[n], p, pk, Collected(trace[..n], p, pk), MarkedBefore(trace[..n], n, pk));
    }
  }

  /** A poller about to mark has delivered a card with just these records in this check. */
  lemma {:induction false} MarkingHasSent(trace: seq<Step>, p: Poller, pk: nat) returns (i: nat)
    requires Marking(After(trace), p) && pk in After(trace).rounds[p].ids
    ensures i < |trace| && trace[i] == Send(p, true) && SentAt(trace, i, pk)
  {
    hide UpsertOne, Target, MarkAlerted, ResolveExcept, Retention.ExpiredLongQueries;
    var n := |trace| - 1;
    if trace[n] == Send(p, true) && Collecting(After(trace[..n]), p) {
      i := n;
    } else {
      i := MarkingHasSent(trace[..n], p, pk);
      assert trace[..n][..i] == trace[..i];
    }
  }

  /** An alert date means that a delivered card had the record. */
  lemma AlertedWasSent(trace: seq<Step>, pk: nat) returns (i: nat)
    requires pk in After(trace).records.rows && After(trace).records.rows[pk].alertedAt.Some?
    ensures SentAt(trace, i, pk)
  {
    hide After;
    AlertedIffMarked(trace, pk);
    var k: nat :| k < |trace| && Marks(After(trace[..k]), trace[k], pk);
    i := MarkingHasSent(trace[..k], trace[k].poller, pk);
    assert trace[..k][..i] == trace[..i];
  }

  // ---- a check that nobody interrupts ----

  function Upserts(p: Poller, instance: nat, found: Candidates, order: seq<LongQueryKey>, now: Instant): seq<Step>
    requires forall k | k in order :: k in found.rows
  {
    seq(|order|, i requires 0 <= i < |order| => Upsert(p, instance, found.rows[order[i]], now))
  }

  ghost function PerformAll(s: Site, steps: seq<Step>): Site {
    if steps == [] then s else Perform(PerformAll(s, steps[..|steps| - 1]), steps[|steps| - 1])
  }

  lemma {:induction false} CollectsNew(s: Site, p: Poller, instance: nat, found: Candidates, order: seq<LongQueryKey>,
                                       now: Instant)
    requires RecordsOk(s.records) && p in s.rounds && s.rounds[p] == Round({}, false) && Distinct(order)
    requires forall k | k in order :: k in found.rows && KeyOf(found.rows[k]) == k
    ensures var s1 := PerformAll(s, Upserts(p, instance, found, order, now));
            && RecordsOk(s1.records) && s1.records == UpsertAll(s.records, instance, found, order, now)
            && s1.rounds == s.rounds[p := Round(Elements(NewAlerts(s1.records.rows, instance, order)), false)]
  {
    hide UpsertOne, KeyOf, Target, RecordsOk;
    if order == [] {
      assert Elements<nat>([]) == {};
      assert s.rounds == s.rounds[p := Round({}, false)];
    } else {
      var n := |order| - 1;
      var front, row := order[..n], found.rows[order[n]];
      CollectsNew(s, p, instance, found, front, now);
      var steps := Upserts(p, instance, found, order, now);
      assert steps[..n] == Upserts(p, instance, found, front, now);
      CollectOne(PerformAll(s, steps[..n]), p, instance, front, row, now);
      assert front + [order[n]] == order;
    }
  }

  lemma CollectOne(s: Site, p: Poller, instance: nat, front: seq<LongQueryKey>, row: ActivityRow, now: Instant)
    requires RecordsOk(s.records) && p in s.rounds && KeyOf(row) !in front
    requires s.rounds[p] == Round(Elements(NewAlerts(s.records.rows, instance, front)), false)
    ensures var s1 := Perform(s, Upsert(p, instance, row, now));
            && RecordsOk(s1.records) && s1.records == UpsertOne(s.records, instance, row, now)
            && s1.rounds == s.rounds[p := Round(Elements(NewAlerts(s1.records.rows, instance, front + [KeyOf(row)])),
               false)]
  {
    hide UpsertOne, KeyOf, Target, RecordsOk, NewAlerts;
    TargetFound(s.records, instance, row, now);
    NewAlertsStable(s.records, instance, front, row, now);
    TargetIsActive(s.records, instance, row, now);
    OneMoreAlert(UpsertOne(s.records, instance, row, now).rows, instance, front, KeyOf(row));
    assert s.rounds[p].ids + {} == s.rounds[p].ids && s.rounds == s.rounds[p := s.rounds[p]];
  }

  lemma OneMoreAlert(rows: map<nat, LongQueryAlert>, instance: nat, front: seq<LongQueryKey>, key: LongQueryKey)
    ensures Elements(NewAlerts(rows, instance, front + [key])) ==
              Elements(NewAlerts(rows, instance, front))
              + if IsNew(rows, instance, key) then {ActiveId(rows, instance, key)} else {}
  {
    hide IsNew;
    assert (front + [key])[..|front|] == front;
  }

  lemma TargetIsActive(t: Records, instance: nat, row: ActivityRow, now: Instant)
    requires RecordsOk(t)
    ensures var u := UpsertOne(t, instance, row, now).rows;
            HasActive(u, instance, KeyOf(row)) && Target(t, instance, row, now) == ActiveId(u, instance, KeyOf(row))
  {
    hide KeyOf;
    UpsertOneKeepsOk(t, instance, row, now);
  }

  /** A poller whose check nobody interrupts does to the records what the check of the
      sequential results does, and delivers the same card. */
  lemma UninterruptedCheck(s: Site, p: Poller, c: QueryCheck)
    requires RecordsOk(s.records) && c.enabled
    ensures var found := Collect(c.activity, c);
            && (forall k | k in found.order :: k in found.rows)
            && var s1 := PerformAll(Perform(s, Begin(p)), Upserts(p, c.instance, found, found.order, c.now));
               var s2 := Perform(s1, Resolve(c.instance, found.rows.Keys, c.now));
               var sent := Send(p, c.delivered && NotificationsOpen(c.window, c.now));
               var outcome := CheckQueries(s.records, c);
               && Perform(Perform(s2, sent), Mark(p, c.now)) == Site(outcome.records, s.rounds - {p})
               && (Delivers(s2, sent) <==> outcome.card.Some?)
               && (outcome.card.Some? ==> s2.rounds[p].ids == Elements(outcome.card.value))
  {
    hide UpsertAll, KeyOf, Collect, NotificationsOpen, NewAlerts, PerformAll, Upserts, MarkAlerted, ResolveExcept,
         RecordsOk, Delivers;
    CollectFinds(c.activity, c);
    CollectKeyed(c.activity, c);
    var found := Collect(c.activity, c);
    assert forall k | k in found.order :: k in Elements(found.order);
    var s0 := Perform(s, Begin(p));
    CollectsNew(s0, p, c.instance, found, found.order, c.now);
    var s1 := PerformAll(s0, Upserts(p, c.instance, found, found.order, c.now));
    var alerts := NewAlerts(s1.records.rows, c.instance, found.order);
    assert s1.rounds - {p} == s.rounds - {p};
    var s2 := Perform(s1, Resolve(c.instance, found.rows.Keys, c.now));
    SendAndMark(s2, p, alerts, c.delivered && NotificationsOpen(c.window, c.now), c.now);
  }

  /** The end of a check: the card, if there is one to send and it gets through, and the marks. */
  lemma SendAndMark(s: Site, p: Poller, alerts: seq<nat>, through: bool, now: Instant)
    requires p in s.rounds && s.rounds[p] == Round(Elements(alerts), false)
    ensures var sends := alerts != [] && through;
            && (Delivers(s, Send(p, through)) <==> sends)
            && Perform(Perform(s, Send(p, through)), Mark(p, now)) ==
                 Site(if sends then s.records.(rows := MarkAlerted(s.records.rows, Elements(alerts), now))
                     else s.records,
                      s.rounds - {p})
  {
    hide MarkAlerted;
    if alerts != [] { assert alerts[0] in Elements(alerts); }
    assert s.rounds[p := Round(Elements(alerts), true)] - {p} == s.rounds - {p};
  }

  // ---- records on two cards ----

  /** A delivered card has exactly the records its poller found unmarked in this check. */
  lemma CardExact(trace: seq<Step>, j: nat, pk: nat)
    requires j < |trace| && Delivers(After(trace[..j]), trace[j])
    ensures SentAt(trace, j, pk) <==> Collected(trace[..j], trace[j].poller, pk)
  {
    hide After, Collected;
    RoundExact(trace[..j], trace[j].poller, pk);
  }

  ghost predicate SentTwice(trace: seq<Step>, pk: nat) {
    exists i: nat, j: nat :: i < j && SentAt(trace, i, pk) && SentAt(trace, j, pk)
  }

  /** The poller that delivers a card at step j found the record at step m of the
      same check, when nobody had marked it, although another poller, or this one in
      an earlier check, delivers a card with it at step i < j. */
  ghost predicate Overtaken(trace: seq<Step>, i: nat, m: nat, j: nat, pk: nat) {
    && i < j < |trace| && m < j
    && SentAt(trace, i, pk) && Delivers(After(trace[..j]), trace[j])
    && FoundUnmarked(trace[..j], m, trace[j].poller, pk)
    && (trace[j].poller != trace[i].poller || i < m)
  }

  /** Who has delivered a card sends no other before beginning a new check. */
  lemma {:induction false} OneCardPerCheck(trace: seq<Step>, i: nat, n: nat, pk: nat)
    requires i < n <= |trace| && SentAt(trace, i, pk)
    requires forall k | i < k < n :: trace[k] != Begin(trace[i].poller)
    ensures !Collecting(After(trace[..n]), trace[i].poller)
  {
    hide UpsertOne, Target, MarkAlerted, ResolveExcept, Retention.ExpiredLongQueries;
    assert trace[..n][..n - 1] == trace[..n - 1];
    if n > i + 1 {
      OneCardPerCheck(trace, i, n - 1, pk);
    }
  }

  /** A record is on two delivered cards if and only if a poller found it before it
      was first marked and delivers its card after another one with that record. */
  lemma TwiceIffOvertaken(trace: seq<Step>, pk: nat)
    ensures SentTwice(trace, pk) <==> exists i: nat, m: nat, j: nat :: Overtaken(trace, i, m, j, pk)
  {
    hide After, FoundUnmarked;
    if SentTwice(trace, pk) {
      var i: nat, j: nat :| i < j && SentAt(trace, i, pk) && SentAt(trace, j, pk);
      CardExact(trace, j, pk);
      var m: nat :| FoundUnmarked(trace[..j], m, trace[j].poller, pk);
      SameCheck(trace, i, m, j, pk);
      assert Overtaken(trace, i, m, j, pk);
    }
    if i: nat, m: nat, j: nat :| Overtaken(trace, i, m, j, pk) {
      CardExact(trace, j, pk);
      assert SentAt(trace, j, pk);
    }
  }

  lemma SameCheck(trace: seq<Step>, i: nat, m: nat, j: nat, pk: nat)
    requires i < j < |trace| && SentAt(trace, i, pk) && SentAt(trace, j, pk)
    requires FoundUnmarked(trace[..j], m, trace[j].poller, pk)
    ensures m < j && (trace[j].poller != trace[i].poller || i < m)
  {
    hide After;
    if trace[j].poller == trace[i].poller && m <= i {
      assert forall k | m < k < j :: trace[..j][k] == trace[k];
      OneCardPerCheck(trace, i, j, pk);
    }
  }

  function Overlap(instance: nat, row: ActivityRow, now: Instant): seq<Step> {
    [Begin(1), Upsert(1, instance, row, now), Begin(2), Upsert(2, instance, row, now),
     Send(1, true), Mark(1, now), Send(2, true), Mark(2, now)]
  }

  lemma BothFind(instance: nat, row: ActivityRow, now: Instant)
    ensures After(Overlap(instance, row, now)[..4]).rounds == map[1 := Round({0}, false), 2 := Round({0}, false)]
  {
    hide KeyOf, UpsertOne, Target, After;
    var trace := Overlap(instance, row, now);
    FirstUpsert(instance, row, now);
    NothingYetAfter();
    var t1 := UpsertOne(NO_RECORDS, instance, row, now);
    var none, one: set<nat> := {}, {0};
    assert none + {0} == one && trace[..0] == [];
    AfterOneMore(trace, 0);
    assert After(trace[..1]) == Site(NO_RECORDS, map[1 := Round(none, false)]);
    AfterOneMore(trace, 1);
    assert After(trace[..2]) == Site(t1, map[1 := Round(one, false)]);
    AfterOneMore(trace, 2);
    AfterOneMore(trace, 3);
  }

  /** Two pollers find a new execution, and both deliver a card with it, the second
      even after the first has marked the record. */
  lemma TwoPollersSendTwice(instance: nat, row: ActivityRow, now: Instant)
    ensures SentTwice(Overlap(instance, row, now), 0)
  {
    hide KeyOf, After, MarkAlerted;
    var trace := Overlap(instance, row, now);
    BothFind(instance, row, now);
    assert SentAt(trace, 4, 0);
    AfterOneMore(trace, 4);
    AfterOneMore(trace, 5);
    assert SentAt(trace, 6, 0);
  }

  lemma AfterOneMore(trace: seq<Step>, n: nat)
    requires n < |trace|
    ensures After(trace[..n + 1]) == Perform(After(trace[..n]), trace[n])
  {
    hide Perform;
    assert trace[..n + 1][..n] == trace[..n];
  }

  lemma NothingYetAfter()
    ensures After([]) == FRESH_SITE
  {}

  lemma FirstUpsert(instance: nat, row: ActivityRow, now: Instant)
    ensures var t := UpsertOne(NO_RECORDS, instance, row, now);
            && Target(NO_RECORDS, instance, row, now) == 0 && 0 in t.rows && t.rows[0].alertedAt.None?
            && Target(t, instance, row, now) == 0
            && 0 in UpsertOne(t, instance, row, now).rows && UpsertOne(t, instance, row, now).rows[0].alertedAt.None?
  {
    hide KeyOf;
    var t := UpsertOne(NO_RECORDS, instance, row, now);
    assert t.rows[0].ActiveFor(instance, KeyOf(row));
    assert HasActive(t.rows, instance, KeyOf(row));
    assert UpsertOne(t, instance, row, now).rows[0].ActiveFor(instance, KeyOf(row));
  }
}
