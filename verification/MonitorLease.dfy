/**
 The database lease that lets one worker at a time run the monitor. A worker
 reads its clock and the interval setting first, and only later, inside the
 locked transaction, compares and writes the lease row: its reading may be
 stale by then. The two are separate steps here, interleaved arbitrarily
 between any number of workers.
 */
module MonitorLease {
  import opened Wrappers
  import opened Models

  type Worker = string

  /** The lease row; the default row has a blank owner and a null date. */
  datatype Lease = Lease(ownerId: Worker, leaseUntil: Option<Instant>)

  function LeaseLength(interval: nat): int { Max(60, interval * 2) * SECOND }

  function SleepTime(interval: nat): int { Max(5, interval) * SECOND }

  /** `lease_until` is null only while nobody owns the lease, so the comparison is safe. */
  predicate LeaseOk(l: Lease) { l.ownerId != "" ==> l.leaseUntil.Some? }

  predicate Refused(l: Lease, worker: Worker, now: Instant)
    requires LeaseOk(l)
  {
    l.ownerId != "" && l.ownerId != worker && l.leaseUntil.value > now
  }

  /** The locked part of `acquire_monitor_lease`. */
  function Acquire(l: Lease, worker: Worker, now: Instant, until: Instant): Lease
    requires LeaseOk(l)
  {
    if Refused(l, worker, now) then l else Lease(worker, Some(until))
  }

  class MonitorLeaseRow {
    var ownerId: Worker
    var leaseUntil: Option<Instant>

    ghost predicate Valid()
      reads this
    {
      LeaseOk(Lease(ownerId, leaseUntil))
    }

    constructor ()
      ensures Valid() && ownerId == "" && leaseUntil == None
    {
      ownerId, leaseUntil := "", None;
    }

    method TryAcquire(worker: Worker, now: Instant, until: Instant) returns (granted: bool)
      requires Valid() && worker != ""
      modifies this
      ensures Valid()
      ensures granted <==>
                old(ownerId) == "" || old(ownerId) == worker || (old(leaseUntil).Some? && old(leaseUntil).value <= now)
      ensures granted ==> ownerId == worker && leaseUntil == Some(until)
      ensures !granted ==> ownerId == old(ownerId) && leaseUntil == old(leaseUntil)
      ensures Lease(ownerId, leaseUntil) == Acquire(old(Lease(ownerId, leaseUntil)), worker, now, until)
    {
      if ownerId != "" && ownerId != worker && leaseUntil.value > now {
        return false;
      }
      ownerId := worker;
      leaseUntil := Some(until);
      return true;
    }
  }

  // ---- workers interleaved ----

  datatype Reading = Reading(now: Instant, until: Instant)

  datatype Grant = Grant(owner: Worker, reading: Instant, until: Instant)

  datatype Event =
    | ReadClock(worker: Worker, at: Instant, interval: nat)
    | Commit(worker: Worker, at: Instant)

  /** `pending` holds the readings not yet used, `clocks` each worker's last
      reading, `grants` every successful acquisition in order. */
  datatype World = World(lease: Lease, pending: map<Worker, Reading>, clocks: map<Worker, Instant>, grants: seq<Grant>)

  const START := World(Lease("", None), map[], map[], [])

  /** A worker's own clock does not run backwards, and it commits only a reading it has. */
  predicate Enabled(w: World, e: Event) {
    match e
    case ReadClock(p, at, _) => p != "" && (p in w.clocks ==> w.clocks[p] <= at)
    case Commit(p, _) => p in w.pending
  }

  function Next(w: World, e: Event): World
    requires LeaseOk(w.lease) && Enabled(w, e)
  {
    match e
    case ReadClock(p, at, interval) =>
      w.(pending := w.pending[p := Reading(at, at + LeaseLength(interval))], clocks := w.clocks[p := at])
    case Commit(p, _) =>
      var r := w.pending[p];
      World(Acquire(w.lease, p, r.now, r.until), w.pending - {p}, w.clocks,
            if Refused(w.lease, p, r.now) then w.grants else w.grants + [Grant(p, r.now, r.until)])
  }

  /** The states a sequence of enabled events passes through. */
  ghost predicate Behaviour(ws: seq<World>, es: seq<Event>) {
    && |ws| == |es| + 1
    && forall k | 0 <= k < |es| :: LeaseOk(ws[k].lease) && Enabled(ws[k], es[k]) && ws[k + 1] == Next(ws[k], es[k])
  }

  // ---- mutual exclusion ----

  /** What every reachable state satisfies. */
  ghost predicate Inv(w: World) {
    && LeaseOk(w.lease)
    && (w.grants == [] ==> w.lease.ownerId == "")
    && (w.grants != [] ==>
          var last := w.grants[|w.grants| - 1];
          w.lease == Lease(last.owner, Some(last.until)) && last.owner != "")
    && (forall p | p in w.pending ::
        p != "" && p in w.clocks && w.pending[p].now <= w.clocks[p] && w.pending[p].now < w.pending[p].until)
    && (forall i | 0 <= i < |w.grants| :: w.grants[i].owner in w.clocks && w.grants[i].reading < w.grants[i].until)
    && (forall i, p | 0 <= i < |w.grants| && p in w.pending && w.grants[i].owner == p ::
        w.grants[i].reading <= w.pending[p].now)
    && (forall i | 0 <= i < |w.grants| :: w.grants[i].reading <= w.clocks[w.grants[i].owner])
    && (forall i | 0 < i < |w.grants| :: Succeeds(w.grants[i - 1], w.grants[i]))
  }

  /** A grant follows the one before it by renewal, or by takeover after its expiry. */
  ghost predicate Succeeds(g: Grant, h: Grant) {
    && g.reading <= h.reading
    && (g.owner != h.owner ==> g.until <= h.reading)
  }

  lemma ReadingKeepsInv(w: World, p: Worker, at: Instant, interval: nat)
    requires Inv(w) && Enabled(w, ReadClock(p, at, interval))
    ensures Inv(Next(w, ReadClock(p, at, interval)))
  {}

  lemma CommitKeepsInv(w: World, p: Worker, at: Instant)
    requires Inv(w) && Enabled(w, Commit(p, at))
    ensures Inv(Next(w, Commit(p, at)))
  {
    hide Succeeds;
    var w1, n := Next(w, Commit(p, at)), |w.grants|;
    if w1.grants != w.grants && w.grants != [] {
      GrantSucceeds(w, p);
      assert w1.grants[n - 1] == w.grants[n - 1];
    }
  }

  lemma GrantSucceeds(w: World, p: Worker)
    requires Inv(w) && p in w.pending && w.grants != [] && !Refused(w.lease, p, w.pending[p].now)
    ensures Succeeds(w.grants[|w.grants| - 1], Grant(p, w.pending[p].now, w.pending[p].until))
  {}

  lemma InvStep(w: World, e: Event)
    requires Inv(w) && Enabled(w, e)
    ensures Inv(Next(w, e))
  {
    hide Inv, Next;
    match e
    case ReadClock(p, at, interval) => ReadingKeepsInv(w, p, at, interval);
    case Commit(p, at) => CommitKeepsInv(w, p, at);
  }

  lemma {:induction false} InvAlways(ws: seq<World>, es: seq<Event>, k: nat)
    requires Behaviour(ws, es) && Inv(ws[0]) && k < |ws|
    ensures Inv(ws[k])
  {
    hide Inv, Next;
    if k > 0 {
      InvAlways(ws, es, k - 1);
      InvStep(ws[k - 1], es[k - 1]);
    }
  }

  /** When the tenure of grant i ends: at its expiry, or at the reading of its
      owner's next successful renewal if that is earlier. */
  ghost function TenureEnd(grants: seq<Grant>, i: nat): Instant
    requires i < |grants|
  {
    match NextRenewal(grants, i, i + 1)
    case None => grants[i].until
    case Some(j) => if i < j < |grants| then Min(grants[i].until, grants[j].reading) else grants[i].until
  }

  ghost function NextRenewal(grants: seq<Grant>, i: nat, from: nat): (r: Option<nat>)
    requires i < from <= |grants|
    ensures r.Some? ==> from <= r.value < |grants| && grants[r.value].owner == grants[i].owner
                        && forall k | from <= k < r.value :: grants[k].owner != grants[i].owner
    ensures r.None? ==> forall k | from <= k < |grants| :: grants[k].owner != grants[i].owner
    decreases |grants| - from
  {
    if from == |grants| then None
    else if grants[from].owner == grants[i].owner then Some(from)
    else NextRenewal(grants, i, from + 1)
  }

  lemma {:induction false} ReadingsAscend(w: World, i: nat, j: nat)
    requires Inv(w) && i <= j < |w.grants|
    ensures w.grants[i].reading <= w.grants[j].reading
  {
    if i < j {
      ReadingsAscend(w, i, j - 1);
      assert Succeeds(w.grants[j - 1], w.grants[j]);
    }
  }

  /** Who is granted the lease, exactly: the first to ask, the owner of the last grant
      at any time, and any other worker whose reading is at or after its expiry. A
      granted commit leaves the lease with that worker until the expiry that it
      computed from its reading and interval; a refused one leaves it as it was. */
  lemma GrantedIff(ws: seq<World>, es: seq<Event>, k: nat)
    requires Behaviour(ws, es) && ws[0] == START && k < |es| && es[k].Commit?
    ensures es[k].worker in ws[k].pending
    ensures var w, w1, p := ws[k], ws[k + 1], es[k].worker;
            var r, n := w.pending[p], |w.grants|;
            var granted := n == 0 || w.grants[n - 1].owner == p || w.grants[n - 1].until <= r.now;
            && w1.grants == w.grants + (if granted then [Grant(p, r.now, r.until)] else [])
            && w1.lease == if granted then Lease(p, Some(r.until)) else w.lease
  {
    InvAlways(ws, es, k);
  }

  /** A pending reading is that of the worker's last look at the clock, and its
      expiry is twice the interval ahead, or a minute if that is longer. */
  lemma {:induction false} PendingReading(ws: seq<World>, es: seq<Event>, k: nat, p: Worker) returns (i: nat)
    requires Behaviour(ws, es) && ws[0] == START && k < |ws| && p in ws[k].pending
    ensures i < k && es[i].ReadClock? && es[i].worker == p
    ensures forall j | i < j < k :: es[j].worker != p
    ensures ws[k].pending[p].now == es[i].at
    ensures ws[k].pending[p].until == es[i].at + (if es[i].interval >= 30 then 2 * es[i].interval else 60) * SECOND
  {
    assert k > 0;
    if es[k - 1].worker == p {
      i := k - 1;
    } else {
      i := PendingReading(ws, es, k - 1, p);
    }
  }

  /** Mutual exclusion: in every reachable state the tenures of different owners,
      [reading, end of tenure), do not overlap, whatever the readings' staleness
      and however the interval setting changes between renewals. */
  lemma TenuresDisjoint(ws: seq<World>, es: seq<Event>, k: nat, i: nat, j: nat)
    requires Behaviour(ws, es) && ws[0] == START && k < |ws|
    requires i < j < |ws[k].grants| && ws[k].grants[i].owner != ws[k].grants[j].owner
    ensures TenureEnd(ws[k].grants, i) <= ws[k].grants[j].reading
  {
    hide Next;
    InvAlways(ws, es, k);
    var grants := ws[k].grants;
    assert Succeeds(grants[i], grants[i + 1]);
    ReadingsAscend(ws[k], i + 1, j);
  }

  /** A reachable lease with an owner always has an expiry date. */
  lemma OwnedLeaseHasExpiry(ws: seq<World>, es: seq<Event>, k: nat)
    requires Behaviour(ws, es) && ws[0] == START && k < |ws|
    ensures ws[k].lease.ownerId != "" <==> ws[k].grants != []
    ensures ws[k].lease.ownerId != "" ==> ws[k].lease.leaseUntil.Some?
  {
    hide Next;
    InvAlways(ws, es, k);
  }

  // ---- retention and takeover ----

  /** One common clock: events happen in time order. */
  ghost predicate InTimeOrder(es: seq<Event>) {
    forall i, j | 0 <= i <= j < |es| :: es[i].at <= es[j].at
  }

  /** From a worker's clock reading to its next committed renewal everything but
      the sleep takes less than max(30, interval) seconds, as seen at each event. */
  ghost predicate Timely(ws: seq<World>, es: seq<Event>, holder: Worker, interval: nat)
    requires Behaviour(ws, es)
  {
    && (forall k | 0 <= k < |es| && es[k].ReadClock? && es[k].worker == holder :: es[k].interval == interval)
    && (forall k | 0 <= k < |es| && ws[k].grants != [] && ws[k].grants[|ws[k].grants| - 1].owner == holder ::
          es[k].at < ws[k].grants[|ws[k].grants| - 1].reading + SleepTime(interval) + Max(30, interval) * SECOND)
  }

  /** The holder's last lease is full length, and no reading is from the future. */
  ghost predicate Holds(w: World, holder: Worker, interval: nat, now: Instant) {
    && w.grants != []
    && var last := w.grants[|w.grants| - 1];
    && last.owner == holder && last.until == last.reading + LeaseLength(interval)
    && (forall p | p in w.pending :: w.pending[p].now <= now)
    && (holder in w.pending ==> w.pending[holder].until == w.pending[holder].now + LeaseLength(interval))
  }

  lemma SleepPlusWorkFitsLease(interval: nat)
    ensures SleepTime(interval) == if interval < 5 then 5 * SECOND else interval * SECOND
    ensures SleepTime(interval) + Max(30, interval) * SECOND <= LeaseLength(interval)
  {}

  lemma HoldStep(w: World, e: Event, holder: Worker, interval: nat, now: Instant)
    requires Inv(w) && Enabled(w, e) && Holds(w, holder, interval, now) && now <= e.at
    requires e.ReadClock? && e.worker == holder ==> e.interval == interval
    requires e.at < w.grants[|w.grants| - 1].reading + SleepTime(interval) + Max(30, interval) * SECOND
    ensures Holds(Next(w, e), holder, interval, e.at)
    ensures |w.grants| <= |Next(w, e).grants| && forall k | 0 <= k < |w.grants| :: Next(w, e).grants[k] == w.grants[k]
    ensures forall k | |w.grants| <= k < |Next(w, e).grants| :: Next(w, e).grants[k].owner == holder
  {
    SleepPlusWorkFitsLease(interval);
  }

  /** Retention: while the holder is timely, no other worker is ever granted the lease. */
  lemma {:induction false} TimelyHolderKeepsLease(ws: seq<World>, es: seq<Event>, holder: Worker, interval: nat,
                                                  now: Instant, k: nat)
    requires Behaviour(ws, es) && Inv(ws[0]) && k < |ws|
    requires InTimeOrder(es) && (es != [] ==> now <= es[0].at)
    requires Holds(ws[0], holder, interval, now) && Timely(ws, es, holder, interval)
    ensures |ws[0].grants| <= |ws[k].grants|
    ensures forall i | |ws[0].grants| <= i < |ws[k].grants| :: ws[k].grants[i].owner == holder
    ensures ws[k].lease.ownerId == holder
    ensures Holds(ws[k], holder, interval, if k == 0 then now else es[k - 1].at)
  {
    hide Next, Enabled, Inv, Holds, LeaseOk;
    InvAlways(ws, es, k);
    if k > 0 {
      TimelyHolderKeepsLease(ws, es, holder, interval, now, k - 1);
      InvAlways(ws, es, k - 1);
      var since := if k == 1 then now else es[k - 2].at;
      HolderOwnsLease(ws[k - 1], holder, interval, since);
      assert es[k - 1].at < ws[k - 1].grants[|ws[k - 1].grants| - 1].reading + SleepTime(interval)
             + Max(30, interval) * SECOND;
      HoldStep(ws[k - 1], es[k - 1], holder, interval, since);
      var before, after := ws[k - 1].grants, ws[k].grants;
      forall i | |ws[0].grants| <= i < |after| ensures after[i].owner == holder {
        if i < |before| { assert after[i] == before[i]; }
      }
    }
    HolderOwnsLease(ws[k], holder, interval, if k == 0 then now else es[k - 1].at);
  }

  lemma HolderOwnsLease(w: World, holder: Worker, interval: nat, now: Instant)
    requires Inv(w) && Holds(w, holder, interval, now)
    ensures w.grants != [] && w.grants[|w.grants| - 1].owner == holder && w.lease.ownerId == holder
  {}

  lemma {:induction false} LeaseStandsWithoutGrants(ws: seq<World>, es: seq<Event>, k: nat)
    requires Behaviour(ws, es) && k < |ws|
    ensures |ws[0].grants| <= |ws[k].grants|
    ensures |ws[k].grants| == |ws[0].grants| ==> ws[k].lease == ws[0].lease
  {
    if k > 0 {
      LeaseStandsWithoutGrants(ws, es, k - 1);
    }
  }

  /** Takeover: if the holder has stopped, another worker's commit is granted
      exactly when its reading is at or after the expiry, unless somebody else
      has been granted the lease in between. */
  lemma TakeoverAfterExpiry(ws: seq<World>, es: seq<Event>, k: nat)
    requires Behaviour(ws, es) && k < |es| && ws[0].lease.ownerId != ""
    requires es[k].Commit? && es[k].worker != ws[0].lease.ownerId
    requires ws[k].grants == ws[0].grants
    ensures |ws[k + 1].grants| > |ws[k].grants| <==> ws[k].pending[es[k].worker].now >= ws[0].lease.leaseUntil.value
    ensures ws[k + 1].lease.ownerId == es[k].worker <==> ws[k].pending[es[k].worker].now >= ws[0].lease.leaseUntil.value
  {
    LeaseStandsWithoutGrants(ws, es, k);
  }
}
