/**
 Attribution of resolved incidents when operators' kills interleave with the
 monitor's separate statements. Every step below is one atomic statement or
 transaction on the incident table; any number of pollers and operators may
 interleave them in any order, a poller may die between two of its steps, and
 cleanup may delete resolved rows at any time.
 */
module ManualKills {
  import opened Wrappers
  import opened Text
  import opened Models
  import opened Incidents

  type Poller = nat

  /** What a poller has collected in memory: ids still to resolve, or resolved and still to label. */
  datatype Plan = ToResolve(ids: set<nat>) | ToLabel(ids: set<nat>)

  datatype Site = Site(table: Table, plans: map<Poller, Plan>)

  datatype Step =
    | Upsert(instance: nat, blocking: seq<LockRow>, threshold: int, now: Instant)
    | Collect(poller: Poller, instance: nat, seen: set<string>)
    | Resolve(poller: Poller, now: Instant)
    | Label(poller: Poller)
    | Kill(instance: nat, pids: set<int>, user: string)
    | Crash(poller: Poller)
    | Purge(cutoff: Instant)

  const FRESH_SITE := Site(Table(map[], 0), map[])

  function UpsertSnapshot(t: Table, instance: nat, blocking: seq<LockRow>, threshold: int, now: Instant): Table {
    CollapseRepresents(blocking);
    assert forall k | k in Collapse(blocking).order :: k in Elements(Collapse(blocking).order);
    UpsertAll(t, instance, Collapse(blocking).order, ObservationOf(blocking, threshold, now))
  }

  /** A step without the plan it needs does nothing. */
  function Perform(s: Site, step: Step): Site {
    match step
    case Upsert(instance, blocking, threshold, now) =>
      s.(table := UpsertSnapshot(s.table, instance, blocking, threshold, now))
    case Collect(p, instance, seen) =>
      s.(plans := s.plans[p := ToResolve(Vanished(s.table.rows, instance, seen))])
    case Resolve(p, now) =>
      if p in s.plans && s.plans[p].ToResolve? then
        Site(s.table.(rows := Resolved(s.table.rows, s.plans[p].ids, now)), s.plans[p := ToLabel(s.plans[p].ids)])
      else s
    case Label(p) =>
      if p in s.plans && s.plans[p].ToLabel? then
        Site(s.table.(rows := Labelled(s.table.rows, s.plans[p].ids)), s.plans - {p})
      else s
    case Kill(instance, pids, user) =>
      s.(table := s.table.(rows := MarkKilled(s.table.rows, instance, pids, user)))
    case Crash(p) => s.(plans := s.plans - {p})
    case Purge(cutoff) => s.(table := s.table.(rows := s.table.rows - Expired(s.table.rows, cutoff)))
  }

  function After(trace: seq<Step>): Site {
    if trace == [] then FRESH_SITE else Perform(After(trace[..|trace| - 1]), trace[|trace| - 1])
  }

  /** Traces are runs of the steps, and a statement whose plan is not there does nothing. */
  lemma OneMoreStep(trace: seq<Step>, step: Step)
    ensures After([]) == FRESH_SITE && After(trace + [step]) == Perform(After(trace), step)
    ensures step.Resolve? && !(step.poller in After(trace).plans && After(trace).plans[step.poller].ToResolve?) ==>
              After(trace + [step]) == After(trace)
    ensures step.Label? && !(step.poller in After(trace).plans && After(trace).plans[step.poller].ToLabel?) ==>
              After(trace + [step]) == After(trace)
  {
    hide UpsertSnapshot, Resolved, Labelled;
    assert (trace + [step])[..|trace|] == trace;
  }

  /** A check whose statements nobody interrupts does to the table what the check of
      the whole-run results does, and a kill likewise. */
  lemma UninterruptedCheck(s: Site, p: Poller, instance: nat, blocking: seq<LockRow>, threshold: int, now: Instant)
    ensures var s1 := Perform(s, Upsert(instance, blocking, threshold, now));
            var s2 := Perform(s1, Collect(p, instance, Collapse(blocking).rows.Keys));
            var s3 := Perform(Perform(s2, Resolve(p, now)), Label(p));
            s3.table == TableStep(s.table, Check(instance, blocking, threshold, now)) && s3.plans == s.plans - {p}
    ensures forall pids, user ::
              Perform(s, Step.Kill(instance, pids, user)) ==
                  s.(table := TableStep(s.table, Incidents.Step.Kill(instance, pids, user)))
  {
    hide UpsertAll, Collapse, LockKey, Resolved, Labelled, Vanished;
    CollapseRepresents(blocking);
  }

  /** In state s, the step marks row pk: a kill that involves it while it is unresolved. */
  predicate Marks(s: Site, step: Step, pk: nat) {
    && step.Kill? && pk in s.table.rows && s.table.rows[pk].resolvedAt == None
    && s.table.rows[pk].instance == step.instance
    && (s.table.rows[pk].blockedPid in step.pids || s.table.rows[pk].blockingPid in step.pids)
  }

  /** In state s, the step is the `auto_clear` update that covers row pk. */
  predicate Labels(s: Site, step: Step, pk: nat) {
    step.Label? && step.poller in s.plans && s.plans[step.poller].ToLabel? && pk in s.plans[step.poller].ids
  }

  ghost predicate KilledWhileOpen(trace: seq<Step>, pk: nat) {
    exists k: nat :: k < |trace| && Marks(After(trace[..k]), trace[k], pk)
  }

  /** The monitor has both resolved the row and run the labelling update for it. */
  ghost predicate FullyResolved(trace: seq<Step>, pk: nat) {
    exists k: nat :: k < |trace| && Labels(After(trace[..k]), trace[k], pk)
  }

  lemma KilledStep(trace: seq<Step>, pk: nat)
    requires trace != []
    ensures var n := |trace| - 1;
            KilledWhileOpen(trace, pk) <==> KilledWhileOpen(trace[..n], pk) || Marks(After(trace[..n]), trace[n], pk)
  {
    hide After, Marks;
    var n := |trace| - 1;
    assert forall k: nat | k < n :: trace[..n][..k] == trace[..k];
    if KilledWhileOpen(trace[..n], pk) {
      var k: nat :| k < n && Marks(After(trace[..n][..k]), trace[..n][k], pk);
      assert Marks(After(trace[..k]), trace[k], pk);
    }
    if KilledWhileOpen(trace, pk) {
      var k: nat :| k < |trace| && Marks(After(trace[..k]), trace[k], pk);
      assert k < n ==> Marks(After(trace[..n][..k]), trace[..n][k], pk);
    }
  }

  lemma ResolvedStep(trace: seq<Step>, pk: nat)
    requires trace != []
    ensures var n := |trace| - 1;
            FullyResolved(trace, pk) <==> FullyResolved(trace[..n], pk) || Labels(After(trace[..n]), trace[n], pk)
  {
    hide After, Labels;
    var n := |trace| - 1;
    assert forall k: nat | k < n :: trace[..n][..k] == trace[..k];
    if FullyResolved(trace[..n], pk) {
      var k: nat :| k < n && Labels(After(trace[..n][..k]), trace[..n][k], pk);
      assert Labels(After(trace[..k]), trace[k], pk);
    }
    if FullyResolved(trace, pk) {
      var k: nat :| k < |trace| && Labels(After(trace[..k]), trace[k], pk);
      assert k < n ==> Labels(After(trace[..n][..k]), trace[..n][k], pk);
    }
  }

  /** The upsert transaction touches neither resolution nor attribution. */
  lemma {:induction false} UpsertKeepsAttribution(t: Table, instance: nat, order: seq<string>, obs: Observation)
    requires FreshIds(t) && forall k | k in order :: k in obs.rows
    ensures var u := UpsertAll(t, instance, order, obs);
            && FreshIds(u)
            && t.rows.Keys <= u.rows.Keys
            && t.next <= u.next
            && (forall pk | pk in t.rows :: SameAttribution(t.rows[pk], u.rows[pk]))
            && (forall pk | pk in u.rows && pk !in t.rows :: pk >= t.next && Unattributed(u.rows[pk]))
  {
    hide LockKey;
    if order != [] {
      UpsertKeepsAttribution(t, instance, order[..|order| - 1], obs);
    }
  }

  predicate Unattributed(a: LockAlert) { a.Active() && a.clearReason == NoReason && a.clearedBy == "" }

  predicate SameAttribution(a: LockAlert, b: LockAlert) {
    && a.instance == b.instance && a.blockedPid == b.blockedPid && a.blockingPid == b.blockingPid
    && a.resolvedAt == b.resolvedAt && a.clearReason == b.clearReason && a.clearedBy == b.clearedBy
  }

  ghost predicate PlansOk(s: Site) {
    forall p | p in s.plans :: forall pk | pk in s.plans[p].ids ::
      pk < s.table.next && (pk in s.table.rows && s.plans[p].ToLabel? ==> !s.table.rows[pk].Active())
  }

  /** `killer` is the operator of the last kill that involved the row while it was open, if any. */
  ghost predicate Attributed(a: LockAlert, killer: Option<string>, resolved: bool) {
    && (a.clearReason == ManualKill <==> killer.Some?)
    && (a.clearReason == AutoClear <==> resolved && killer.None?)
    && a.clearedBy == killer.GetOr("")
    && (resolved ==> !a.Active())
  }

  ghost predicate SiteOk(s: Site) { FreshIds(s.table) && PlansOk(s) }

  lemma SiteStaysOk(s: Site, step: Step)
    requires SiteOk(s)
    ensures SiteOk(Perform(s, step))
    ensures s.table.next <= Perform(s, step).table.next
    ensures forall pk | pk in s.table.rows && pk !in Perform(s, step).table.rows ::
              step.Purge? && !s.table.rows[pk].Active()
  {
    hide UpsertAll, Collapse, LockKey, Represents;
    match step
    case Upsert(instance, blocking, threshold, now) =>
      CollapseRepresents(blocking);
      UpsertIsOk(s, instance, blocking, threshold, now);
    case Collect(p, instance, seen) =>
    case Resolve(p, now) =>
    case Label(p) =>
    case Kill(instance, pids, user) =>
    case Crash(p) =>
    case Purge(cutoff) =>
  }

  lemma UpsertIsOk(s: Site, instance: nat, blocking: seq<LockRow>, threshold: int, now: Instant)
    requires SiteOk(s)
    ensures var u := UpsertSnapshot(s.table, instance, blocking, threshold, now);
            && SiteOk(s.(table := u))
            && s.table.rows.Keys <= u.rows.Keys
            && s.table.next <= u.next
            && (forall pk | pk in s.table.rows :: SameAttribution(s.table.rows[pk], u.rows[pk]))
            && (forall pk | pk in u.rows && pk !in s.table.rows :: pk >= s.table.next && Unattributed(u.rows[pk]))
  {
    hide UpsertAll, Collapse, LockKey;
    CollapseRepresents(blocking);
    assert forall k | k in Collapse(blocking).order :: k in Elements(Collapse(blocking).order);
    UpsertKeepsAttribution(s.table, instance, Collapse(blocking).order, ObservationOf(blocking, threshold, now));
  }

  /** The operator of the last kill that involved row pk while it was unresolved. */
  function LastKiller(trace: seq<Step>, pk: nat): Option<string> {
    if trace == [] then None
    else
      var n := |trace| - 1;
      if Marks(After(trace[..n]), trace[n], pk) then Some(trace[n].user) else LastKiller(trace[..n], pk)
  }

  lemma {:induction false} KillerMeansKilled(trace: seq<Step>, pk: nat)
    ensures LastKiller(trace, pk).Some? <==> KilledWhileOpen(trace, pk)
  {
    hide After, Marks, KilledWhileOpen;
    if trace == [] {
      NothingHappened(pk);
    } else {
      KillerMeansKilled(trace[..|trace| - 1], pk);
      KilledStep(trace, pk);
    }
  }

  /** One step keeps the attribution of a row in line with who killed it last
      while it was open and whether it is fully resolved. */
  lemma AttributionStep(s: Site, step: Step, pk: nat, killer: Option<string>, resolved: bool)
    requires SiteOk(s)
    requires pk in s.table.rows ==> Attributed(s.table.rows[pk], killer, resolved)
    requires pk >= s.table.next ==> killer.None? && !resolved
    ensures var s1 := Perform(s, step);
            pk in s1.table.rows ==>
              Attributed(s1.table.rows[pk], if Marks(s, step, pk) then Some(step.user) else killer,
                         resolved || Labels(s, step, pk))
    ensures pk >= s.table.next ==> !Marks(s, step, pk) && !Labels(s, step, pk)
  {
    hide UpsertAll, Collapse, LockKey;
    match step
    case Upsert(instance, blocking, threshold, now) =>
      UpsertIsOk(s, instance, blocking, threshold, now);
    case Collect(p, instance, seen) =>
    case Resolve(p, now) =>
    case Label(p) =>
    case Kill(instance, pids, user) =>
    case Crash(p) =>
    case Purge(cutoff) =>
  }

  lemma {:induction false} AttributionOverTrace(trace: seq<Step>, pk: nat)
    ensures SiteOk(After(trace))
    ensures pk in After(trace).table.rows ==>
              Attributed(After(trace).table.rows[pk], LastKiller(trace, pk), FullyResolved(trace, pk))
    ensures pk >= After(trace).table.next ==> LastKiller(trace, pk).None? && !FullyResolved(trace, pk)
  {
    hide Perform, Marks, Labels, KilledWhileOpen, FullyResolved, Attributed, SiteOk;
    if trace == [] {
      NothingHappened(pk);
    } else {
      var n := |trace| - 1;
      AttributionOverTrace(trace[..n], pk);
      ResolvedStep(trace, pk);
      SiteStaysOk(After(trace[..n]), trace[n]);
      AttributionStep(After(trace[..n]), trace[n], pk, LastKiller(trace[..n], pk), FullyResolved(trace[..n], pk));
    }
  }

  lemma NothingHappened(pk: nat)
    ensures SiteOk(FRESH_SITE) && !KilledWhileOpen([], pk) && !FullyResolved([], pk)
  {}

  /** A fully resolved row is a manual kill if and only if some kill involving one
      of its PIDs ran while it was unresolved, and an automatic clear otherwise;
      its operator is that of the last such kill.
      A row that is not fully resolved is never labelled an automatic clear. */
  lemma ManualKillIffKilledWhileOpen(trace: seq<Step>, pk: nat)
    requires pk in After(trace).table.rows
    ensures var a := After(trace).table.rows[pk];
            && (FullyResolved(trace, pk) ==>
                  !a.Active() && a.clearReason == if KilledWhileOpen(trace, pk) then ManualKill else AutoClear)
            && (!FullyResolved(trace, pk) ==>
                  a.clearReason == if KilledWhileOpen(trace, pk) then ManualKill else NoReason)
            && a.clearedBy == LastKiller(trace, pk).GetOr("")
  {
    hide After, KilledWhileOpen, FullyResolved, LastKiller;
    AttributionOverTrace(trace, pk);
    KillerMeansKilled(trace, pk);
  }

  lemma SettledStep(s: Site, step: Step, pk: nat)
    requires SiteOk(s) && pk < s.table.next
    requires pk in s.table.rows ==> !s.table.rows[pk].Active() && s.table.rows[pk].clearReason != NoReason
    ensures pk < Perform(s, step).table.next
    ensures pk in Perform(s, step).table.rows ==>
              var b := Perform(s, step).table.rows[pk];
              && pk in s.table.rows && !b.Active()
              && b.clearReason == s.table.rows[pk].clearReason && b.clearedBy == s.table.rows[pk].clearedBy
    ensures pk in s.table.rows && pk !in Perform(s, step).table.rows ==> step.Purge?
  {
    hide UpsertAll, Collapse, LockKey;
    match step
    case Upsert(instance, blocking, threshold, now) =>
      UpsertIsOk(s, instance, blocking, threshold, now);
    case Collect(p, instance, seen) =>
    case Resolve(p, now) =>
    case Label(p) =>
    case Kill(instance, pids, user) =>
    case Crash(p) =>
    case Purge(cutoff) =>
  }

  /** Once a row is fully resolved, neither its reason nor its operator changes
      again, until cleanup deletes the row; nothing else deletes it. */
  lemma {:induction false} AttributionIsFinal(trace: seq<Step>, later: seq<Step>, pk: nat)
    requires pk in After(trace).table.rows && FullyResolved(trace, pk)
    ensures pk < After(trace + later).table.next
    ensures pk in After(trace + later).table.rows ==>
              var a, b := After(trace).table.rows[pk], After(trace + later).table.rows[pk];
              !b.Active() && b.clearReason == a.clearReason && b.clearedBy == a.clearedBy
    ensures pk !in After(trace + later).table.rows ==> exists step :: step in later && step.Purge?
  {
    hide Perform, Marks, Labels, KilledWhileOpen, FullyResolved, LastKiller;
    ManualKillIffKilledWhileOpen(trace, pk);
    AttributionOverTrace(trace, pk);
    if later == [] {
      assert trace + later == trace;
    } else {
      var n := |later| - 1;
      AttributionIsFinal(trace, later[..n], pk);
      var longer := trace + later;
      assert longer[..|longer| - 1] == trace + later[..n];
      AttributionOverTrace(trace + later[..n], pk);
      SettledStep(After(trace + later[..n]), later[n], pk);
      assert forall step | step in later[..n] :: step in later;
    }
  }
}
