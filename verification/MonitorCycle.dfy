/**
 One monitor check of one database, end to end: the queries, the incident table,
 the long-query records, and the notification section fed from the table; and
 what the cards of whole runs on many databases say about their histories.
 */
module MonitorCycle {
  import opened Wrappers
  import opened Text
  import opened Models
  import opened Incidents
  import opened NotificationWindow
  import opened LockNotifications
  import LongQueries

  datatype Config = Config(thresholdSeconds: nat, stormThreshold: nat, window: Window,
                           queryAlerts: bool, queryThreshold: nat, excludedUsers: string)

  /** What `fetch_activity` returns. */
  datatype Fetched = Fetched(blocking: seq<LockRow>, activity: seq<LongQueries.ActivityRow>)

  /** One run of `process_instance`: no result if the fetch raises; `queriesRaise` if
      `process_long_queries` does; and whether a card sent now gets through, for
      long queries and for locks. */
  datatype Visit = Visit(instance: nat, fetched: Option<Fetched>, config: Config, now: Instant,
                         casefold: string -> string, queriesRaise: bool, queryDelivered: bool, delivered: bool)
  {
    predicate RunsSection() { fetched.Some? && !queriesRaise }

    function TableCheck(): Step
      requires fetched.Some?
    {
      Check(instance, fetched.value.blocking, config.thresholdSeconds, now)
    }

    function LongQueryCheck(): LongQueries.QueryCheck
      requires fetched.Some?
    {
      LongQueries.QueryCheck(instance, fetched.value.activity, config.queryAlerts, config.excludedUsers, casefold,
                             config.queryThreshold, config.window, now, queryDelivered)
    }
  }

  // ---- delivery ----

  function WebhookUrls(excludedFromGlobal: bool, channel: string, owner: string): seq<string> {
    var shared := if excludedFromGlobal then "" else channel;
    (if shared != "" then [shared] else []) + (if owner != "" && owner != shared then [owner] else [])
  }

  /** `notify_lock_summary` after the card is built: every configured webhook is
      posted to once, and the card counts as delivered if any of them took it.
      `accepts` stands for the outcome of one HTTP post, an exception being false. */
  method Deliver(excludedFromGlobal: bool, channel: string, owner: string, accepts: string -> bool)
    returns (delivered: bool, posted: seq<string>)
    ensures Distinct(posted)
    ensures Elements(posted) == (if excludedFromGlobal then {owner} else {channel, owner}) - {""}
    ensures delivered <==> exists url | url in posted :: accepts(url)
  {
    var urls := WebhookUrls(excludedFromGlobal, channel, owner);
    posted, delivered := [], false;
    for n := 0 to |urls|
      invariant posted == urls[..n]
      invariant delivered <==> exists url | url in urls[..n] :: accepts(url)
    {
      if accepts(urls[n]) {
        delivered := true;
      }
      posted := posted + [urls[n]];
    }
    assert posted == urls;
  }

  // ---- the incidents a summary lists ----

  predicate IsEligible(a: LockAlert, instance: nat) { a.Active() && a.instance == instance && a.alertedAt.Some? }

  function EligibleIds(rows: map<nat, LockAlert>, instance: nat): set<nat> {
    set pk | pk in rows && IsEligible(rows[pk], instance)
  }

  function ActiveIds(rows: map<nat, LockAlert>, instance: nat): set<nat> {
    set pk | pk in rows && rows[pk].Active() && rows[pk].instance == instance
  }

  ghost predicate Lists(keys: seq<string>, rows: map<nat, LockAlert>, ids: set<nat>) {
    Elements(keys) == set pk | pk in ids && pk in rows :: rows[pk].key
  }

  /** The keys of a query's result, in no particular order: the summary sorts them. */
  method KeysOf(rows: map<nat, LockAlert>, ids: set<nat>, instance: nat) returns (keys: seq<string>)
    requires UniqueActive(rows) && ids <= rows.Keys
    requires forall pk | pk in ids :: rows[pk].Active() && rows[pk].instance == instance
    requires forall pk | pk in rows :: IsKey(rows[pk].key)
    ensures KeyList(keys) && Lists(keys, rows, ids)
  {
    hide IsKey;
    keys := [];
    var left := ids;
    while left != {}
      invariant left <= ids
      invariant KeyList(keys)
      invariant Elements(keys) == set pk | pk in ids && pk !in left :: rows[pk].key
    {
      var pk :| pk in left;
      assert rows[pk].key !in keys by {
        assert rows[pk].key !in Elements(keys);
      }
      ghost var before := Elements(keys);
      keys := keys + [rows[pk].key];
      assert Elements(keys) == before + {rows[pk].key};
      left := left - {pk};
    }
  }

  ghost predicate MetInRun(h: History, key: string, s: nat, e: nat)
    requires PresentThroughout(h, key, s, e)
  {
    exists j | s <= j <= e :: ThresholdMet(h, key, s, j)
  }

  lemma AlertedIffMet(a: LockAlert, h: History, r: Run)
    requires DescribesRun(a, h, r)
    ensures PresentThroughout(h, a.key, r.start, r.end)
    ensures a.alertedAt.Some? <==> MetInRun(h, a.key, r.start, r.end)
    ensures a.Active() <==> r.end == |h| - 1
  {
    hide LockKey, CarriedWait, CarriedText, ThresholdMet;
  }

  ghost predicate HasEligible(rows: map<nat, LockAlert>, instance: nat, key: string) {
    exists pk :: pk in rows && rows[pk].key == key && IsEligible(rows[pk], instance)
  }

  /** A pair is eligible exactly when the last check saw it and some check of its
      current run met the threshold in force at that check. */
  lemma EligibleMeansThresholdMet(rows: map<nat, LockAlert>, histories: map<nat, History>, runs: map<nat, Run>,
                                  instance: nat, key: string)
    requires Refines(rows, histories, runs)
    ensures var h := HistoryOf(histories, instance);
            HasEligible(rows, instance, key) <==>
              h != [] && key in h[|h| - 1].rows && MetInRun(h, key, RunStart(h, key, |h| - 1), |h| - 1)
  {
    hide LockKey, DescribesRun, MetInRun;
    var h := HistoryOf(histories, instance);
    ActivePair(rows, histories, runs, instance, key);
    forall p | p in rows && rows[p].key == key && IsEligible(rows[p], instance) ensures HasActive(rows, instance, key) {
      assert rows[p].ActiveFor(instance, key);
    }
    if h != [] && key in h[|h| - 1].rows {
      var s := RunStart(h, key, |h| - 1);
      var r := Run(s, |h| - 1);
      assert MaximalRun(h, key, r);
      var pk := RecordedAt(rows, runs, instance, key, r);
      AlertedIffMet(rows[pk], h, r);
      forall p | p in rows && rows[p].key == key && IsEligible(rows[p], instance) ensures p == pk {
        AlertedIffMet(rows[p], h, runs[p]);
        RunOfRow(rows[p], h, runs[p]);
        SameEndSameRun(h, key, runs[p], r);
      }
    }
  }

  lemma RunOfRow(a: LockAlert, h: History, r: Run)
    requires DescribesRun(a, h, r)
    ensures MaximalRun(h, a.key, r)
  {}

  lemma KeysAreKeys(rows: map<nat, LockAlert>, histories: map<nat, History>, runs: map<nat, Run>)
    requires Refines(rows, histories, runs)
    ensures forall pk | pk in rows :: IsKey(rows[pk].key)
  {
    hide IsKey, LockKey, MaximalRun;
    forall pk | pk in rows ensures IsKey(rows[pk].key) {
      assert DescribesRun(rows[pk], HistoryOf(histories, rows[pk].instance), runs[pk]);
      LockKeyIsKey(rows[pk].blockedPid, rows[pk].blockingPid);
    }
  }

  /** What the check tells the notification section about the incident table. */
  ghost predicate Reports(c: Cycle, rows: map<nat, LockAlert>, instance: nat) {
    && Lists(c.eligible, rows, EligibleIds(rows, instance))
    && Lists(c.active, rows, ActiveIds(rows, instance))
  }

  /** c is the cycle of visit v, made from the table as v left it. */
  ghost predicate CycleOf(c: Cycle, v: Visit, rows: map<nat, LockAlert>) {
    && c.Ok() && Reports(c, rows, v.instance)
    && c.now == v.now && c.window == v.config.window && c.stormThreshold == v.config.stormThreshold
    && c.delivered == v.delivered
  }

  /** `process_instance`. A failed fetch raises before anything is written. An error
      in the long-query part, here before its first write, skips the notification
      section after the incident table has advanced. */
  method ProcessInstance(table: IncidentTable, queries: LongQueries.LongQueryTable, state: LockNotificationState,
                         v: Visit)
    returns (card: Option<Card>, queryCard: Option<seq<nat>>)
    requires table.Valid() && state.Valid() && LongQueries.RecordsOk(queries.Contents())
    modifies table, queries, state
    ensures table.Valid() && state.Valid() && LongQueries.RecordsOk(queries.Contents())
    ensures v.fetched.None? ==>
              table.rows == old(table.rows) && table.histories == old(table.histories)
    ensures v.fetched.Some? ==>
              var check := Check(v.instance, v.fetched.value.blocking, v.config.thresholdSeconds, v.now);
              && Table(table.rows, table.next) == TableStep(old(Table(table.rows, table.next)), check)
              && table.histories == Extend(old(table.histories), check)
    ensures v.fetched.None? || v.queriesRaise ==>
              && card == None && queryCard == None
              && queries.Contents() == old(queries.Contents())
              && state.State() == old(state.State()) && state.cycles == old(state.cycles)
    ensures v.fetched.Some? && !v.queriesRaise ==>
              && LongQueries.QueryOutcome(queries.Contents(), queryCard) ==
                   LongQueries.CheckQueries(old(queries.Contents()),
                     LongQueries.QueryCheck(v.instance, v.fetched.value.activity, v.config.queryAlerts,
                                            v.config.excludedUsers, v.casefold, v.config.queryThreshold,
                                            v.config.window, v.now, v.queryDelivered))
              && (exists c: Cycle :: CycleOf(c, v, table.rows)
                    && state.cycles == old(state.cycles) + [c]
                    && Outcome(state.State(), card) == Notify(old(state.State()), c))
    ensures SiteNext(Site(old(Table(table.rows, table.next)), map[v.instance := old(state.State())]), Monitor(v),
                     Site(Table(table.rows, table.next), map[v.instance := state.State()]), card)
  {
    hide Refines, TableStep, Notify, After, IsKey, LongQueries.RecordsOk, LongQueries.CheckQueries;
    card, queryCard := None, None;
    if v.fetched.None? {
      return;
    }
    table.RecordCheck(v.instance, v.fetched.value.blocking, v.config.thresholdSeconds, v.now);
    var rows := table.rows;
    ActiveIncidents(rows, table.histories, table.runs);
    KeysAreKeys(rows, table.histories, table.runs);
    var eligible := KeysOf(rows, EligibleIds(rows, v.instance), v.instance);
    if v.queriesRaise {
      return;
    }
    queryCard := queries.ProcessLongQueries(v.LongQueryCheck());
    var active := KeysOf(rows, ActiveIds(rows, v.instance), v.instance);
    var c := Cycle(v.now, v.config.window, v.config.stormThreshold, eligible, active, v.delivered);
    card := state.RunSection(c);
    assert Reports(c, table.rows, v.instance);
    assert CycleOf(c, v, table.rows);
    SectionIsStep(Site(old(Table(table.rows, table.next)), map[v.instance := old(state.State())]), v,
                  Site(Table(table.rows, table.next), map[v.instance := state.State()]), card, c);
  }

  // ---- whole runs on many databases ----

  datatype SiteStep = Monitor(visit: Visit) | ManualKill(instance: nat, pids: set<int>, user: string)

  /** The incident table, and the notification rows of the databases that have one. */
  datatype Site = Site(table: Table, notify: map<nat, NotifyState>)

  const FRESH_SITE := Site(Table(map[], 0), map[])

  function NotifyOf(s: Site, instance: nat): NotifyState {
    if instance in s.notify then s.notify[instance] else NEVER_NOTIFIED
  }

  /** The section ran on cycle c of visit v. */
  ghost predicate SectionRan(s: Site, v: Visit, s1: Site, card: Option<Card>, c: Cycle) {
    var outcome := Notify(NotifyOf(s, v.instance), c);
    CycleOf(c, v, s1.table.rows) && card == outcome.card && s1.notify == s.notify[v.instance := outcome.state]
  }

  /** One step of the site, with the card it delivers. */
  ghost predicate SiteNext(s: Site, step: SiteStep, s1: Site, card: Option<Card>) {
    match step
    case ManualKill(instance, pids, user) => s1 == s.(table := TableStep(s.table, Kill(instance, pids, user)))
        && card == None
    case Monitor(v) =>
      && s1.table == (if v.fetched.Some? then TableStep(s.table, v.TableCheck()) else s.table)
      && (if v.RunsSection() then
            exists c :: SectionRan(s, v, s1, card, c)
          else s1.notify == s.notify && card == None)
  }

  lemma SectionIsStep(s: Site, v: Visit, s1: Site, card: Option<Card>, c: Cycle)
    requires v.fetched.Some? && !v.queriesRaise && v.instance in s.notify && CycleOf(c, v, s1.table.rows)
    requires s1.table ==
               TableStep(s.table, Check(v.instance, v.fetched.value.blocking, v.config.thresholdSeconds, v.now))
    requires s1.notify == s.notify[v.instance := Notify(s.notify[v.instance], c).state]
    requires card == Notify(s.notify[v.instance], c).card
    ensures SiteNext(s, Monitor(v), s1, card)
  {
    hide TableStep, Notify, CycleOf;
    assert SectionRan(s, v, s1, card, c);
  }

  /** A run of the site: the state before step i is `sites[i]`, its card `cards[i]`. */
  ghost predicate Behaviour(steps: seq<SiteStep>, sites: seq<Site>, cards: seq<Option<Card>>) {
    && |sites| == |steps| + 1 && |cards| == |steps| && sites[0] == FRESH_SITE
    && forall i | 0 <= i < |steps| :: SiteNext(sites[i], steps[i], sites[i + 1], cards[i])
  }

  /** The steps as the incident table sees them. */
  function TableSteps(steps: seq<SiteStep>): seq<Step> {
    if steps == [] then []
    else
      var front := TableSteps(steps[..|steps| - 1]);
      match steps[|steps| - 1]
      case ManualKill(instance, pids, user) => front + [Kill(instance, pids, user)]
      case Monitor(v) => if v.fetched.Some? then front + [v.TableCheck()] else front
  }

  /** What the successful checks of a database have seen up to step n. */
  function HistoryAt(steps: seq<SiteStep>, n: nat, instance: nat): History
    requires n <= |steps|
  {
    HistoryOf(RunHistories(TableSteps(steps[..n])), instance)
  }

  lemma {:induction false} TableOfRun(steps: seq<SiteStep>, sites: seq<Site>, cards: seq<Option<Card>>, n: nat)
    requires Behaviour(steps, sites, cards) && n <= |steps|
    ensures sites[n].table == RunTable(TableSteps(steps[..n]))
  {
    hide TableStep, Notify, CycleOf;
    if n > 0 {
      TableOfRun(steps, sites, cards, n - 1);
      assert steps[..n][..n - 1] == steps[..n - 1];
      assert SiteNext(sites[n - 1], steps[n - 1], sites[n], cards[n - 1]);
      var front := TableSteps(steps[..n - 1]);
      forall s: Step ensures RunTable(front + [s]) == TableStep(RunTable(front), s) {
        assert (front + [s])[..|front|] == front;
      }
    } else {
      assert steps[..0] == [];
    }
  }

  // ---- the notification runs inside a run of the site ----

  /** Cycle j of `cs` is what the section of `instance` was given at step `at[j]`. */
  ghost predicate Projects(steps: seq<SiteStep>, sites: seq<Site>, cards: seq<Option<Card>>, n: nat, instance: nat,
                           cs: seq<Cycle>, at: seq<nat>)
    requires Behaviour(steps, sites, cards) && n <= |steps|
  {
    && AllOk(cs) && |at| == |cs|
    && (forall j | 0 <= j < |at| :: at[j] < n && Runs(steps[at[j]], instance))
    && (forall i, j | 0 <= i < j < |at| :: at[i] < at[j])
    && (forall i | 0 <= i < n && Runs(steps[i], instance) :: i in at)
    && (forall j | 0 <= j < |at| :: CycleOf(cs[j], steps[at[j]].visit, sites[at[j] + 1].table.rows))
    && (forall j | 0 <= j < |at| :: CardAt(NEVER_NOTIFIED, cs, j) == cards[at[j]])
    && NotifyOf(sites[n], instance) == LockNotifications.After(NEVER_NOTIFIED, cs)
  }

  predicate Runs(step: SiteStep, instance: nat) {
    step.Monitor? && step.visit.instance == instance && step.visit.RunsSection()
  }

  lemma OneMoreCycle(cs: seq<Cycle>, c: Cycle)
    ensures LockNotifications.After(NEVER_NOTIFIED, cs + [c]) ==
              Notify(LockNotifications.After(NEVER_NOTIFIED, cs), c).state
    ensures CardAt(NEVER_NOTIFIED, cs + [c], |cs|) == Notify(LockNotifications.After(NEVER_NOTIFIED, cs), c).card
    ensures forall j: nat | j < |cs| :: CardAt(NEVER_NOTIFIED, cs + [c], j) == CardAt(NEVER_NOTIFIED, cs, j)
  {
    hide Notify;
    assert (cs + [c])[..|cs|] == cs;
    forall j: nat | j < |cs| ensures CardAt(NEVER_NOTIFIED, cs + [c], j) == CardAt(NEVER_NOTIFIED, cs, j) {
      assert (cs + [c])[..j] == cs[..j];
    }
  }

  /** For each database, a run of the site contains a run of its notification
      section, to which every result about such runs applies: its cycles are fed
      from the incident table, and its cards are the cards the database gets. */
  lemma {:induction false} NotificationRun(steps: seq<SiteStep>, sites: seq<Site>, cards: seq<Option<Card>>, n: nat,
                                           instance: nat)
    returns (cs: seq<Cycle>, at: seq<nat>)
    requires Behaviour(steps, sites, cards) && n <= |steps|
    ensures Projects(steps, sites, cards, n, instance, cs, at)
  {
    hide Notify, CycleOf, TableStep, LockNotifications.After, CardAt;
    if n == 0 {
      cs, at := [], [];
      OneMoreCycleBase();
    } else {
      cs, at := NotificationRun(steps, sites, cards, n - 1, instance);
      var step := steps[n - 1];
      assert SiteNext(sites[n - 1], step, sites[n], cards[n - 1]);
      if Runs(step, instance) {
        var v := step.visit;
        var c :| SectionRan(sites[n - 1], v, sites[n], cards[n - 1], c);
        ProjectOne(steps, sites, cards, n, instance, cs, at, c);
        cs, at := cs + [c], at + [n - 1];
      } else {
        ProjectNone(steps, sites, cards, n, instance, cs, at);
      }
    }
  }

  lemma ProjectOne(steps: seq<SiteStep>, sites: seq<Site>, cards: seq<Option<Card>>, n: nat, instance: nat,
                   cs: seq<Cycle>, at: seq<nat>, c: Cycle)
    requires Behaviour(steps, sites, cards) && 0 < n <= |steps|
    requires Projects(steps, sites, cards, n - 1, instance, cs, at) && Runs(steps[n - 1], instance)
    requires SectionRan(sites[n - 1], steps[n - 1].visit, sites[n], cards[n - 1], c)
    ensures Projects(steps, sites, cards, n, instance, cs + [c], at + [n - 1])
  {
    hide Notify, Reports, Behaviour, LockNotifications.After, CardAt;
    OneMoreCycle(cs, c);
    var at1 := at + [n - 1];
    assert at1[|at|] == n - 1;
    forall i | 0 <= i < n && Runs(steps[i], instance) ensures i in at1 {
      assert i < n - 1 ==> i in at;
    }
  }

  lemma ProjectNone(steps: seq<SiteStep>, sites: seq<Site>, cards: seq<Option<Card>>, n: nat, instance: nat,
                    cs: seq<Cycle>, at: seq<nat>)
    requires Behaviour(steps, sites, cards) && 0 < n <= |steps|
    requires Projects(steps, sites, cards, n - 1, instance, cs, at) && !Runs(steps[n - 1], instance)
    ensures Projects(steps, sites, cards, n, instance, cs, at)
  {
    hide Notify, CycleOf, TableStep, LockNotifications.After, CardAt;
    assert SiteNext(sites[n - 1], steps[n - 1], sites[n], cards[n - 1]);
  }

  lemma OneMoreCycleBase()
    ensures LockNotifications.After(NEVER_NOTIFIED, []) == NEVER_NOTIFIED
  {}

  /** The pairs the last check saw whose present run has met a threshold in force. */
  ghost function OverThreshold(h: History): set<string>
    requires h != []
  {
    set k | k in h[|h| - 1].rows && MetNow(h, k)
  }

  ghost predicate MetNow(h: History, key: string)
    requires h != [] && key in h[|h| - 1].rows
  {
    MetInRun(h, key, RunStart(h, key, |h| - 1), |h| - 1)
  }

  /** A pair for which the last check reports a wait of at least its threshold is over it. */
  lemma LongWaitListed(h: History, key: string)
    requires h != [] && key in h[|h| - 1].rows
    requires h[|h| - 1].rows[key].waiting > 0 && h[|h| - 1].rows[key].waiting >= h[|h| - 1].threshold
    ensures key in OverThreshold(h)
  {
    var n := |h| - 1;
    var s := RunStart(h, key, n);
    assert CarriedWait(h, key, s, n) == h[n].rows[key].waiting;
    assert ThresholdMet(h, key, s, n);
  }

  lemma {:induction false} CarriedStaysBelow(h: History, key: string, s: nat, e: nat, bound: int)
    requires PresentThroughout(h, key, s, e) && bound > 0
    requires forall j | s <= j <= e :: h[j].rows[key].waiting < bound
    ensures CarriedWait(h, key, s, e) < bound
    decreases e
  {
    if e > s { CarriedStaysBelow(h, key, s, e - 1, bound); }
  }

  /** A pair whose reported waits all stayed below every threshold is not over it. */
  lemma ShortWaitsNotListed(h: History, key: string, bound: int)
    requires h != [] && bound > 0
    requires forall j | 0 <= j < |h| :: h[j].threshold >= bound && (key in h[j].rows ==> h[j].rows[key].waiting < bound)
    ensures key !in OverThreshold(h)
  {
    var n := |h| - 1;
    if key in h[n].rows {
      var s := RunStart(h, key, n);
      forall j | s <= j <= n ensures PresentThroughout(h, key, s, j) && !ThresholdMet(h, key, s, j) {
        CarriedStaysBelow(h, key, s, j, bound);
      }
    }
  }

  lemma ReportedSets(c: Cycle, rows: map<nat, LockAlert>, histories: map<nat, History>, runs: map<nat, Run>,
                     instance: nat)
    requires Refines(rows, histories, runs) && Reports(c, rows, instance) && HistoryOf(histories, instance) != []
    ensures var h := HistoryOf(histories, instance);
            Elements(c.eligible) == OverThreshold(h) && Elements(c.active) == h[|h| - 1].rows.Keys
  {
    hide Refines, MetInRun;
    var h := HistoryOf(histories, instance);
    forall k
      ensures k in Elements(c.eligible) <==> k in OverThreshold(h)
      ensures k in Elements(c.active) <==> k in h[|h| - 1].rows.Keys
    {
      EligibleMeansThresholdMet(rows, histories, runs, instance, k);
      ActivePair(rows, histories, runs, instance, k);
    }
  }

  /** A successful fetch adds to the history of its database what it saw, its clock
      reading and the threshold then configured. A failed fetch adds nothing, and no
      step touches the history of another database. */
  lemma HistoryGrows(steps: seq<SiteStep>, i: nat, instance: nat)
    requires i < |steps|
    ensures HistoryAt(steps, i + 1, instance) ==
              HistoryAt(steps, i, instance)
              + match steps[i]
                case ManualKill(_, _, _) => []
                case Monitor(v) =>
                  if v.instance == instance && v.fetched.Some?
                  then [Observation(v.now, v.config.thresholdSeconds, Collapse(v.fetched.value.blocking).rows)] else []
  {
    hide Collapse;
    var front := TableSteps(steps[..i]);
    assert steps[..i + 1][..i] == steps[..i];
    forall s: Step ensures (front + [s])[..|front|] == front {}
    match steps[i]
    case ManualKill(j, pids, user) => assert (front + [Kill(j, pids, user)])[..|front|] == front;
    case Monitor(v) =>
      if v.fetched.Some? {
        assert (front + [v.TableCheck()])[..|front|] == front;
      }
  }

  /** Over every run of checks on any databases, with failing fetches, failing
      deliveries, errors in the long-query part and kills by operators: a delivered
      card lists exactly the pairs seen by the last check whose present run has met
      a threshold in force, a storm card exactly the pairs the last check saw, and it is
      a storm card exactly when these are as many as the storm threshold says. */
  lemma CardsListTheirPairs(steps: seq<SiteStep>, sites: seq<Site>, cards: seq<Option<Card>>, i: nat)
    requires Behaviour(steps, sites, cards) && i < |steps| && cards[i].Some?
    ensures steps[i].Monitor? && steps[i].visit.RunsSection()
    ensures var v, card := steps[i].visit, cards[i].value;
            var h := HistoryAt(steps, i + 1, v.instance);
            && h != [] && card.sentAt == v.now && v.delivered && NotificationsOpen(v.config.window, v.now)
            && (card.event == Storm <==>
                  h[|h| - 1].rows != map[] && v.config.stormThreshold != 0
                      && |h[|h| - 1].rows| >= v.config.stormThreshold)
            && card.active == if card.event == Storm then h[|h| - 1].rows.Keys else OverThreshold(h)
  {
    hide Notify, Refines, TableStep, CardAt, OverThreshold, RunTable, RunHistories, NotificationsOpen;
    assert SiteNext(sites[i], steps[i], sites[i + 1], cards[i]);
    var v := steps[i].visit;
    var cs, at := NotificationRun(steps, sites, cards, i + 1, v.instance);
    assert Runs(steps[i], v.instance);
    var j :| 0 <= j < |at| && at[j] == i;
    FreshStateOk();
    CardIsOfCycle(cs, j);
    TableOfRun(steps, sites, cards, i + 1);
    HistoryGrows(steps, i, v.instance);
    var runs := IncidentsRefineHistory(TableSteps(steps[..i + 1]));
    ReportedSets(cs[j], sites[i + 1].table.rows, RunHistories(TableSteps(steps[..i + 1])), runs, v.instance);
    var h := HistoryAt(steps, i + 1, v.instance);
    SizeOfKeys(cs[j].active, h[|h| - 1].rows);
  }

  lemma SizeOfKeys(keys: seq<string>, rows: map<string, LockRow>)
    requires KeyList(keys) && Elements(keys) == rows.Keys
    ensures |keys| == |rows| && (keys == [] <==> rows == map[])
  {
    hide IsKey;
    DistinctMultiset(keys);
    assert |multiset(Elements(keys))| == |Elements(keys)|;
    if keys != [] { assert keys[0] in Elements(keys); }
  }

  lemma CardIsOfCycle(cs: seq<Cycle>, j: nat)
    requires AllOk(cs) && j < |cs| && CardAt(NEVER_NOTIFIED, cs, j).Some?
    ensures var c, card := cs[j], CardAt(NEVER_NOTIFIED, cs, j).value;
            && c.Open() && c.delivered && card.sentAt == c.now
            && card.active == Elements(if card.event == Storm then c.active else c.eligible)
            && (card.event == Storm <==> c.active != [] && c.stormThreshold != 0 && |c.active| >= c.stormThreshold)
  {
    hide CardAt, LockNotifications.After, StateOk, Notify, NotificationsOpen;
    FreshStateOk();
    CardsAccountForChange(NEVER_NOTIFIED, cs, j + 1);
  }
}
