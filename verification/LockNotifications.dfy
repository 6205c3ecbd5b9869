/**
 The per-database notification state: which card, if any, a cycle delivers,
 and what is true of the cards delivered over a whole run of cycles.

 One cycle is one execution of the locked section of `process_instance`. Its
 inputs are arbitrary, so a run of cycles stands for any interleaving of any
 number of pollers.
 */
module LockNotifications {
  import opened Wrappers
  import opened Text
  import opened Models
  import opened NotificationWindow

  datatype Event = Initial | Update | Cleared | Storm

  datatype Card = Card(event: Event, active: set<string>, previous: set<string>, cleared: set<string>, sentAt: Instant)

  datatype NotifyState = NotifyState(lastFingerprint: Fingerprint, lastActiveKeys: seq<string>,
                                     stormActive: bool, lastSentAt: Option<Instant>)

  /** `eligible` are the keys of the alerted active incidents, `active` those of
      all active incidents; `delivered` says whether a card sent now gets through. */
  datatype Cycle = Cycle(now: Instant, window: Window, stormThreshold: nat,
                         eligible: seq<string>, active: seq<string>, delivered: bool)
  {
    predicate Open() { NotificationsOpen(window, now) }

    /** The unique constraint on active incidents, and the form of their keys. */
    ghost predicate Ok() { KeyList(eligible) && KeyList(active) }
  }

  ghost predicate KeyList(keys: seq<string>) {
    Distinct(keys) && forall k | k in keys :: IsKey(k)
  }

  datatype Outcome = Outcome(state: NotifyState, card: Option<Card>)

  const NEVER_NOTIFIED := NotifyState(Blank, [], false, None)

  /** The part of the section after the storm branches. */
  function Ordinary(s: NotifyState, c: Cycle): Outcome {
    var current := Sort(c.eligible);
    var previous := Sort(s.lastActiveKeys);
    if SummaryFingerprint(c.eligible) == s.lastFingerprint then Outcome(s, None)
    else if previous == [] && current == [] then
      Outcome(s.(lastFingerprint := SummaryFingerprint(c.eligible), lastActiveKeys := []), None)
    else
      var event := if previous == [] then Initial else if current == [] then Cleared else Update;
      if c.delivered then
        Outcome(s.(lastFingerprint := SummaryFingerprint(c.eligible), lastActiveKeys := current,
            lastSentAt := Some(c.now)),
                Some(Card(event, Elements(current), Elements(previous), Elements(previous) - Elements(current), c.now)))
      else Outcome(s, None)
  }

  /** The locked section of `process_instance`. */
  function Notify(s: NotifyState, c: Cycle): Outcome {
    if !c.Open() then
      Outcome(s.(lastFingerprint := Blank, lastActiveKeys := Sort(c.eligible)), None)
    else if c.active == [] then
      Ordinary(s.(stormActive := false), c)
    else if c.stormThreshold != 0 && |c.active| >= c.stormThreshold then
      if !s.stormActive && c.delivered then
        Outcome(NotifyState(SummaryFingerprint(c.active), Sort(c.active), true, Some(c.now)),
                Some(Card(Storm, Elements(c.active), Elements(s.lastActiveKeys), {}, c.now)))
      else Outcome(s, None)
    else if s.stormActive then
      Outcome(s, None)
    else
      Ordinary(s, c)
  }

  // ---- the same section on sets of keys ----

  /** What the state amounts to: the reported set, whether its fingerprint is
      in force, and whether a storm is. */
  datatype Tracker = Tracker(keys: set<string>, inForce: bool, storm: bool)

  datatype TrackerOutcome = TrackerOutcome(tracker: Tracker, card: Option<Card>)

  function Track(s: NotifyState): Tracker {
    Tracker(Elements(s.lastActiveKeys), s.lastFingerprint != Blank, s.stormActive)
  }

  function TrackOrdinary(t: Tracker, c: Cycle): TrackerOutcome {
    var current := Elements(c.eligible);
    if t.inForce && current == t.keys then TrackerOutcome(t, None)
    else if t.keys == {} && current == {} then TrackerOutcome(t.(inForce := true), None)
    else if c.delivered then
      TrackerOutcome(Tracker(current, true, t.storm),
        Some(Card(if t.keys == {} then Initial else if current == {} then Cleared else Update,
                  current, t.keys, t.keys - current, c.now)))
    else TrackerOutcome(t, None)
  }

  function TrackCycle(t: Tracker, c: Cycle): TrackerOutcome {
    if !c.Open() then TrackerOutcome(Tracker(Elements(c.eligible), false, t.storm), None)
    else if c.active == [] then TrackOrdinary(t.(storm := false), c)
    else if c.stormThreshold != 0 && |c.active| >= c.stormThreshold then
      if !t.storm && c.delivered then
        TrackerOutcome(Tracker(Elements(c.active), true, true),
          Some(Card(Storm, Elements(c.active), t.keys, {}, c.now)))
      else TrackerOutcome(t, None)
    else if t.storm then TrackerOutcome(t, None)
    else TrackOrdinary(t, c)
  }

  /** The invariant of the stored state: `last_fingerprint` is blank or is the
      fingerprint of `last_active_keys`. */
  ghost predicate StateOk(s: NotifyState) {
    && KeyList(s.lastActiveKeys)
    && (s.lastFingerprint != Blank ==> s.lastFingerprint == SummaryFingerprint(s.lastActiveKeys))
  }

  lemma SortedKeys(keys: seq<string>)
    requires KeyList(keys)
    ensures KeyList(Sort(keys)) && Elements(Sort(keys)) == Elements(keys)
    ensures SummaryFingerprint(Sort(keys)) == SummaryFingerprint(keys)
    ensures Sort(keys) == [] <==> Elements(keys) == {}
  {
    hide IsKey, Sort;
    SortKeeps(keys);
    assert forall k | k in Sort(keys) :: k in Elements(Sort(keys)) && k in Elements(keys);
    FingerprintCanonical(keys, Sort(keys));
    if Sort(keys) != [] {
      assert Sort(keys)[0] in Elements(Sort(keys));
    }
  }

  lemma OrdinaryIsOnSets(s: NotifyState, c: Cycle)
    requires StateOk(s) && c.Ok()
    ensures StateOk(Ordinary(s, c).state)
    ensures TrackOrdinary(Track(s), c) == TrackerOutcome(Track(Ordinary(s, c).state), Ordinary(s, c).card)
  {
    hide IsKey, Sort, SummaryFingerprint, Distinct;
    SortedKeys(c.eligible);
    SortedKeys(s.lastActiveKeys);
    NoKeys();
    SortedKeys([]);
    FingerprintCanonical(c.eligible, s.lastActiveKeys);
    assert SummaryFingerprint(c.eligible) != Blank by { NeverBlank(c.eligible); }
    assert Elements<string>([]) == {};
    if Sort(s.lastActiveKeys) == [] && Sort(c.eligible) == [] {
      FingerprintCanonical(c.eligible, []);
    }
  }

  lemma NoKeys()
    ensures KeyList([])
  {}

  lemma NeverBlank(keys: seq<string>)
    ensures SummaryFingerprint(keys) != Blank
  {}

  /** Fingerprints and sorted lists decide exactly as the sets would, and the
      invariant is kept. */
  lemma NotifyIsOnSets(s: NotifyState, c: Cycle)
    requires StateOk(s) && c.Ok()
    ensures StateOk(Notify(s, c).state)
    ensures TrackCycle(Track(s), c) == TrackerOutcome(Track(Notify(s, c).state), Notify(s, c).card)
  {
    hide IsKey, Sort, SummaryFingerprint, Distinct, Ordinary, TrackOrdinary, NotificationsOpen;
    SortedKeys(c.eligible);
    SortedKeys(c.active);
    NeverBlank(c.active);
    OrdinaryIsOnSets(s, c);
    OrdinaryIsOnSets(s.(stormActive := false), c);
  }

  // ---- runs ----

  ghost predicate AllOk(cs: seq<Cycle>) { forall c | c in cs :: c.Ok() }

  function After(s: NotifyState, cs: seq<Cycle>): NotifyState {
    if cs == [] then s else Notify(After(s, cs[..|cs| - 1]), cs[|cs| - 1]).state
  }

  /** The card delivered by cycle i of the run. */
  function CardAt(s: NotifyState, cs: seq<Cycle>, i: nat): Option<Card>
    requires i < |cs|
  {
    Notify(After(s, cs[..i]), cs[i]).card
  }

  function TrackerAt(s: NotifyState, cs: seq<Cycle>, i: nat): Tracker
    requires i <= |cs|
  {
    Track(After(s, cs[..i]))
  }

  lemma {:induction false} RunKeepsInvariant(s: NotifyState, cs: seq<Cycle>)
    requires StateOk(s) && AllOk(cs)
    ensures StateOk(After(s, cs))
  {
    hide StateOk, Notify;
    if cs != [] {
      var n := |cs| - 1;
      assert forall c | c in cs[..n] :: c in cs;
      RunKeepsInvariant(s, cs[..n]);
      NotifyIsOnSets(After(s, cs[..n]), cs[n]);
    }
  }

  /** One cycle of a run, seen on sets. */
  lemma TrackerStep(s: NotifyState, cs: seq<Cycle>, i: nat)
    requires StateOk(s) && AllOk(cs) && i < |cs|
    ensures TrackCycle(TrackerAt(s, cs, i), cs[i]) == TrackerOutcome(TrackerAt(s, cs, i + 1), CardAt(s, cs, i))
  {
    hide StateOk, Notify, TrackCycle, Track;
    assert cs[..i + 1][..i] == cs[..i];
    assert forall c | c in cs[..i] :: c in cs;
    RunKeepsInvariant(s, cs[..i]);
    NotifyIsOnSets(After(s, cs[..i]), cs[i]);
  }

  /** The latest card among the first n cycles of the run. */
  function LastCard(s: NotifyState, cs: seq<Cycle>, n: nat): Option<Card>
    requires n <= |cs|
  {
    if n == 0 then None else if CardAt(s, cs, n - 1).Some? then CardAt(s, cs, n - 1) else LastCard(s, cs, n - 1)
  }

  /** A card compares with what was stored before it: it says what was reported
      then, what is active now, and, unless a storm replaces the list, exactly
      what is gone. The stored sending time is that of the latest card. */
  lemma {:induction false} CardsAccountForChange(s: NotifyState, cs: seq<Cycle>, n: nat)
    requires StateOk(s) && AllOk(cs) && n <= |cs|
    ensures After(s, cs[..n]).lastSentAt == if LastCard(s, cs, n).Some? then Some(LastCard(s, cs, n).value.sentAt)
              else s.lastSentAt
    ensures n > 0 && CardAt(s, cs, n - 1).Some? ==>
              var c, card := cs[n - 1], CardAt(s, cs, n - 1).value;
              && c.Open() && c.delivered && card.sentAt == c.now
              && card.previous == TrackerAt(s, cs, n - 1).keys
              && card.active == Elements(if card.event == Storm then c.active else c.eligible)
              && card.cleared == (if card.event == Storm then {} else card.previous - card.active)
              && (card.event == Storm <==> c.active != [] && c.stormThreshold != 0 && |c.active| >= c.stormThreshold)
  {
    hide StateOk, TrackerAt, CardAt, NotificationsOpen, Notify, After;
    if n > 0 {
      CardsAccountForChange(s, cs, n - 1);
      TrackerStep(s, cs, n - 1);
      SendingTimeStep(s, cs, n - 1);
    } else {
      NothingHappened(s);
      assert cs[..0] == [];
    }
  }

  lemma NotifySendingTime(s: NotifyState, c: Cycle)
    ensures var r := Notify(s, c);
            r.state.lastSentAt == if r.card.Some? then Some(r.card.value.sentAt) else s.lastSentAt
  {
    hide NotificationsOpen, SummaryFingerprint, Sort;
  }

  lemma SendingTimeStep(s: NotifyState, cs: seq<Cycle>, i: nat)
    requires i < |cs|
    ensures After(s, cs[..i + 1]).lastSentAt ==
              if CardAt(s, cs, i).Some? then Some(CardAt(s, cs, i).value.sentAt) else After(s, cs[..i]).lastSentAt
  {
    hide Notify;
    assert cs[..i + 1][..i] == cs[..i];
    NotifySendingTime(After(s, cs[..i]), cs[i]);
  }

  /** Since position i (exclusive) no card was delivered and no cycle was closed, up to j. */
  ghost predicate QuietBetween(s: NotifyState, cs: seq<Cycle>, i: nat, j: nat) {
    i < j <= |cs| && forall k: nat | i < k < j :: cs[k].Open() && CardAt(s, cs, k).None?
  }

  /** While nothing is delivered in open cycles, the last card's set stays in force. */
  lemma {:induction false} LastCardInForce(s: NotifyState, cs: seq<Cycle>, i: nat, j: nat)
    requires StateOk(s) && AllOk(cs) && QuietBetween(s, cs, i, j)
    requires CardAt(s, cs, i).Some?
    ensures TrackerAt(s, cs, j).keys == CardAt(s, cs, i).value.active && TrackerAt(s, cs, j).inForce
  {
    hide StateOk, Notify, CardAt, TrackerAt, NotificationsOpen;
    TrackerStep(s, cs, j - 1);
    if j > i + 1 {
      LastCardInForce(s, cs, i, j - 1);
    }
  }

  // ---- when a storm is in force ----

  ghost predicate SeesAllClear(c: Cycle) { c.Open() && c.active == [] }

  predicate StormCardAt(s: NotifyState, cs: seq<Cycle>, i: nat)
    requires i < |cs|
  {
    CardAt(s, cs, i).Some? && CardAt(s, cs, i).value.event == Storm
  }

  /** As many locks as make a storm. */
  predicate StormSized(c: Cycle) { c.stormThreshold != 0 && |c.active| >= c.stormThreshold }

  /** Before cycle j a storm card was delivered, or the run began in a storm, and no
      open cycle has seen zero active incidents since. */
  ghost predicate StormInForce(s: NotifyState, cs: seq<Cycle>, j: nat)
    requires j <= |cs|
  {
    || (exists i: nat :: i < j && StormCardAt(s, cs, i) && NoAllClear(cs, i + 1, j))
    || (s.stormActive && NoAllClear(cs, 0, j))
  }

  ghost predicate NoAllClear(cs: seq<Cycle>, from: nat, to: nat)
    requires to <= |cs|
  {
    forall k: nat | from <= k < to :: !SeesAllClear(cs[k])
  }

  /** The stored flag means just that: a storm begins with its card and ends with
      the first open cycle that sees no active incident. */
  lemma {:induction false} StormFlagMeans(s: NotifyState, cs: seq<Cycle>, j: nat)
    requires StateOk(s) && AllOk(cs) && j <= |cs|
    ensures TrackerAt(s, cs, j).storm <==> StormInForce(s, cs, j)
  {
    hide StateOk, Notify, CardAt, NotificationsOpen, TrackerAt;
    if j == 0 {
      StartTracker(s, cs);
    } else {
      StormFlagMeans(s, cs, j - 1);
      TrackerStep(s, cs, j - 1);
      StormInForceStep(s, cs, j - 1);
    }
  }

  lemma StartTracker(s: NotifyState, cs: seq<Cycle>)
    ensures TrackerAt(s, cs, 0) == Track(s)
  {
    assert cs[..0] == [];
  }

  lemma StormInForceStep(s: NotifyState, cs: seq<Cycle>, j: nat)
    requires j < |cs|
    ensures StormInForce(s, cs, j + 1) <==> StormCardAt(s, cs, j) || (StormInForce(s, cs, j) && !SeesAllClear(cs[j]))
  {
    hide StormCardAt, SeesAllClear;
    if StormCardAt(s, cs, j) {
      assert NoAllClear(cs, j + 1, j + 1);
    }
    if i: nat :| i < j && StormCardAt(s, cs, i) && NoAllClear(cs, i + 1, j) {
      assert !SeesAllClear(cs[j]) ==> NoAllClear(cs, i + 1, j + 1);
    }
    if i: nat :| i < j + 1 && StormCardAt(s, cs, i) && NoAllClear(cs, i + 1, j + 1) {
      assert i < j ==> NoAllClear(cs, i + 1, j);
    }
  }

  /** Cycle j is open and sends no ordinary card: it has active incidents, as many
      as make a storm or while one is in force. */
  ghost predicate Suppressed(s: NotifyState, cs: seq<Cycle>, j: nat)
    requires j < |cs|
  {
    cs[j].active != [] && (StormSized(cs[j]) || StormInForce(s, cs, j))
  }

  /** What a cycle does about storms, exactly: an open cycle of storm size delivers
      a storm card if and only if none is in force and delivery works, and nothing
      else; while one is in force no cycle with active incidents delivers anything. */
  lemma StormCardIff(s: NotifyState, cs: seq<Cycle>, j: nat)
    requires StateOk(s) && AllOk(cs) && j < |cs|
    ensures StormCardAt(s, cs, j) <==>
              && cs[j].Open() && cs[j].active != [] && cs[j].stormThreshold != 0
                 && |cs[j].active| >= cs[j].stormThreshold
              && !StormInForce(s, cs, j) && cs[j].delivered
    ensures cs[j].Open() && Suppressed(s, cs, j) && CardAt(s, cs, j).Some? ==> StormCardAt(s, cs, j)
    ensures StormCardAt(s, cs, j) ==> CardAt(s, cs, j).value.active == Elements(cs[j].active)
  {
    hide StateOk, Notify, CardAt, TrackerAt, NotificationsOpen, StormInForce;
    StormFlagMeans(s, cs, j);
    TrackerStep(s, cs, j);
  }

  /** No duplicate cards, exactly: after a delivered card, and with no closed
      cycle since, the next cycle outside a storm delivers a card if and only if
      the eligible set differs from that card's set (and delivery succeeds). */
  lemma NextCardIffSetChanged(s: NotifyState, cs: seq<Cycle>, i: nat, j: nat)
    requires StateOk(s) && AllOk(cs) && QuietBetween(s, cs, i, j) && j < |cs|
    requires CardAt(s, cs, i).Some? && cs[j].Open()
    ensures !Suppressed(s, cs, j) ==>
              (CardAt(s, cs, j).Some? <==> cs[j].delivered && Elements(cs[j].eligible) != CardAt(s, cs, i).value.active)
    ensures CardAt(s, cs, j).Some? && CardAt(s, cs, j).value.event != Storm ==>
              CardAt(s, cs, j).value.active != CardAt(s, cs, i).value.active
  {
    hide StateOk, Notify, CardAt, TrackerAt, NotificationsOpen, StormInForce;
    StormFlagMeans(s, cs, j);
    LastCardInForce(s, cs, i, j);
    TrackerStep(s, cs, j);
  }

  lemma {:induction false} QuietHoursBlank(s: NotifyState, cs: seq<Cycle>, i: nat, j: nat)
    requires StateOk(s) && AllOk(cs) && QuietBetween(s, cs, i, j)
    requires !cs[i].Open()
    ensures TrackerAt(s, cs, j).keys == Elements(cs[i].eligible)
    ensures TrackerAt(s, cs, j).inForce ==> TrackerAt(s, cs, j).keys == {}
  {
    hide StateOk, Notify, CardAt, TrackerAt, NotificationsOpen;
    TrackerStep(s, cs, j - 1);
    if j > i + 1 {
      QuietHoursBlank(s, cs, i, j - 1);
    }
  }

  /** After quiet hours the first delivery outside a storm reports whatever is
      eligible, changed or not, and says nothing only if there was and is nothing.
      Its comparison is with the last quiet cycle, not with the last card. */
  lemma FreshCardAfterQuietHours(s: NotifyState, cs: seq<Cycle>, i: nat, j: nat)
    requires StateOk(s) && AllOk(cs) && QuietBetween(s, cs, i, j) && j < |cs|
    requires !cs[i].Open() && cs[j].Open() && !Suppressed(s, cs, j)
    ensures CardAt(s, cs, j).Some? <==>
              cs[j].delivered && !(Elements(cs[i].eligible) == {} && Elements(cs[j].eligible) == {})
    ensures CardAt(s, cs, j).Some? ==>
              var card := CardAt(s, cs, j).value;
              && card.active == Elements(cs[j].eligible) && card.previous == Elements(cs[i].eligible)
              && card.cleared == card.previous - card.active
  {
    hide StateOk, Notify, CardAt, TrackerAt, NotificationsOpen, StormInForce;
    StormFlagMeans(s, cs, j);
    QuietHoursBlank(s, cs, i, j);
    TrackerStep(s, cs, j);
  }

  /** A database never notified about gets its first card when something is
      eligible outside a storm and delivery works. */
  lemma {:induction false} FirstCardIffEligible(cs: seq<Cycle>, j: nat)
    requires AllOk(cs) && j < |cs| && cs[j].Open() && !Suppressed(NEVER_NOTIFIED, cs, j)
    requires forall k: nat | k < j :: cs[k].Open() && CardAt(NEVER_NOTIFIED, cs, k).None?
    ensures CardAt(NEVER_NOTIFIED, cs, j).Some? <==> cs[j].delivered && cs[j].eligible != []
    ensures CardAt(NEVER_NOTIFIED, cs, j).Some? ==>
              CardAt(NEVER_NOTIFIED, cs, j).value == Card(Initial, Elements(cs[j].eligible), {}, {}, cs[j].now)
  {
    hide StateOk, Notify, CardAt, TrackerAt, NotificationsOpen, StormInForce;
    FreshStateOk();
    StormFlagMeans(NEVER_NOTIFIED, cs, j);
    NothingStored(cs, j);
    TrackerStep(NEVER_NOTIFIED, cs, j);
    if cs[j].eligible != [] { assert cs[j].eligible[0] in Elements(cs[j].eligible); }
  }

  lemma FreshStateOk()
    ensures StateOk(NEVER_NOTIFIED)
  {}

  lemma {:induction false} NothingStored(cs: seq<Cycle>, j: nat)
    requires AllOk(cs) && j <= |cs|
    requires forall k: nat | k < j :: cs[k].Open() && CardAt(NEVER_NOTIFIED, cs, k).None?
    ensures TrackerAt(NEVER_NOTIFIED, cs, j).keys == {}
  {
    hide StateOk, Notify, CardAt, TrackerAt, NotificationsOpen;
    FreshStateOk();
    if j == 0 {
      StartTracker(NEVER_NOTIFIED, cs);
    } else {
      NothingStored(cs, j - 1);
      TrackerStep(NEVER_NOTIFIED, cs, j - 1);
    }
  }

  // ---- the grammar of events ----

  datatype Phase = Empty | Tracking

  function PhaseOf(s: NotifyState): Phase { if s.lastActiveKeys == [] then Empty else Tracking }

  /** A delivered card, or the silent replacement of the stored list by a closed cycle. */
  datatype Move = Delivered(event: Event) | Silent(phase: Phase)

  function Follow(p: Phase, m: Move): Option<Phase> {
    match (p, m)
    case (_, Silent(q)) => Some(q)
    case (Empty, Delivered(Initial)) => Some(Tracking)
    case (Empty, Delivered(Storm)) => Some(Tracking)
    case (Tracking, Delivered(Update)) => Some(Tracking)
    case (Tracking, Delivered(Storm)) => Some(Tracking)
    case (Tracking, Delivered(Cleared)) => Some(Empty)
    case _ => None
  }

  /** Runs the automaton over a list of moves; None if it has no move. */
  function Accept(p: Phase, moves: seq<Move>): Option<Phase> {
    if moves == [] then Some(p)
    else
      var before := Accept(p, moves[..|moves| - 1]);
      if before.None? then None else Follow(before.value, moves[|moves| - 1])
  }

  /** What cycle i adds to the log: in quiet hours the phase of what is eligible
      then, otherwise the event of its card, if it has one. */
  function MovesAt(s: NotifyState, cs: seq<Cycle>, i: nat): seq<Move>
    requires i < |cs|
  {
    if !cs[i].Open() then [Silent(if cs[i].eligible == [] then Empty else Tracking)]
    else if CardAt(s, cs, i).Some? then [Delivered(CardAt(s, cs, i).value.event)]
    else []
  }

  function MoveLog(s: NotifyState, cs: seq<Cycle>): seq<Move> {
    if cs == [] then [] else MoveLog(s, cs[..|cs| - 1]) + MovesAt(s, cs, |cs| - 1)
  }

  /** Delivered events, and closed cycles in between, are a path of the automaton
      from the phase at the start to the phase at the end, whatever deliveries fail. */
  lemma {:induction false} EventsFollowGrammar(s: NotifyState, cs: seq<Cycle>)
    requires StateOk(s) && AllOk(cs)
    ensures Accept(PhaseOf(s), MoveLog(s, cs)) == Some(PhaseOf(After(s, cs)))
  {
    hide StateOk, NotificationsOpen, After, PhaseOf, MovesAt, Follow;
    if cs == [] {
      NothingHappened(s);
    } else {
      var n := |cs| - 1;
      var front := cs[..n];
      assert forall c | c in front :: c in cs;
      EventsFollowGrammar(s, front);
      MovesFollowPhase(s, cs);
      AcceptMore(PhaseOf(s), MoveLog(s, front), MovesAt(s, cs, n));
    }
  }

  /** The last cycle moves the phase as it says in the log. */
  lemma MovesFollowPhase(s: NotifyState, cs: seq<Cycle>)
    requires StateOk(s) && AllOk(cs) && cs != []
    ensures var moves := MovesAt(s, cs, |cs| - 1);
            var before, after := PhaseOf(After(s, cs[..|cs| - 1])), PhaseOf(After(s, cs));
            |moves| <= 1 && (if moves == [] then Some(before) else Follow(before, moves[0])) == Some(after)
  {
    hide StateOk, Notify, NotificationsOpen, CardAt, TrackerAt, After, TrackCycle, PhaseOf;
    var n := |cs| - 1;
    TrackerStep(s, cs, n);
    WholeRun(s, cs);
    if cs[n].Open() {
      CardMovesPhase(After(s, cs[..n]), After(s, cs), cs[n]);
    } else {
      QuietMovesPhase(After(s, cs[..n]), After(s, cs), cs[n]);
    }
  }

  lemma AcceptMore(p: Phase, log: seq<Move>, moves: seq<Move>)
    requires |moves| <= 1 && Accept(p, log).Some?
    ensures Accept(p, log + moves) ==
              if moves == [] then Accept(p, log) else Follow(Accept(p, log).value, moves[0])
  {
    if moves == [] {
      assert log + moves == log;
    } else {
      assert (log + moves)[..|log|] == log && (log + moves)[|log|] == moves[0];
    }
  }

  lemma QuietMovesPhase(s: NotifyState, s1: NotifyState, c: Cycle)
    requires !c.Open() && Track(s1) == TrackCycle(Track(s), c).tracker
    ensures PhaseOf(s1) == if c.eligible == [] then Empty else Tracking
  {
    hide NotificationsOpen;
    PhaseIsEmptiness(s1);
    if c.eligible != [] { assert c.eligible[0] in Elements(c.eligible); }
  }

  /** An open cycle moves the phase as the delivered event says, and not at all without one. */
  lemma CardMovesPhase(s: NotifyState, s1: NotifyState, c: Cycle)
    requires c.Open() && Track(s1) == TrackCycle(Track(s), c).tracker
    ensures var card := TrackCycle(Track(s), c).card;
            if card.Some? then Follow(PhaseOf(s), Delivered(card.value.event)) == Some(PhaseOf(s1))
               else PhaseOf(s1) == PhaseOf(s)
  {
    hide NotificationsOpen;
    PhaseIsEmptiness(s);
    PhaseIsEmptiness(s1);
    if c.active != [] { assert c.active[0] in Elements(c.active); }
  }

  lemma PhaseIsEmptiness(s: NotifyState)
    ensures PhaseOf(s) == Empty <==> Track(s).keys == {}
  {
    if s.lastActiveKeys != [] { assert s.lastActiveKeys[0] in Elements(s.lastActiveKeys); }
  }

  // ---- storms: what is not sent ----

  lemma {:induction false} StormStaysActive(s: NotifyState, cs: seq<Cycle>, i: nat, j: nat)
    requires StateOk(s) && AllOk(cs) && i < j <= |cs|
    requires StormCardAt(s, cs, i)
    requires forall k: nat | i < k < j :: !SeesAllClear(cs[k])
    ensures TrackerAt(s, cs, j).storm
  {
    hide StateOk, Notify, CardAt, TrackerAt, NotificationsOpen;
    TrackerStep(s, cs, j - 1);
    if j > i + 1 {
      StormStaysActive(s, cs, i, j - 1);
    }
  }

  /** After a delivered storm card no card of any kind is delivered until an open
      cycle sees zero active incidents, whatever the thresholds become. */
  lemma StormIsReportedOnce(s: NotifyState, cs: seq<Cycle>, i: nat, j: nat)
    requires StateOk(s) && AllOk(cs) && i < j < |cs|
    ensures StormCardAt(s, cs, i) && CardAt(s, cs, j).Some? ==> exists k :: i < k <= j && SeesAllClear(cs[k])
    ensures StormCardAt(s, cs, i) && StormCardAt(s, cs, j) ==> exists k :: i < k < j && SeesAllClear(cs[k])
  {
    hide StateOk, Notify, CardAt, TrackerAt, NotificationsOpen;
    if StormCardAt(s, cs, i) && CardAt(s, cs, j).Some? && forall k | i < k < j :: !SeesAllClear(cs[k]) {
      StormStaysActive(s, cs, i, j);
      TrackerStep(s, cs, j);
      assert SeesAllClear(cs[j]);
    }
  }

  // ---- the receiver's ledger ----

  function Receive(view: set<string>, card: Card): set<string> { (view - card.cleared) + card.active }

  function View(s: NotifyState, cs: seq<Cycle>, view: set<string>): set<string> {
    if cs == [] then view
    else
      var n := |cs| - 1;
      var before := View(s, cs[..n], view);
      var card := CardAt(s, cs, n);
      if card.Some? then Receive(before, card.value) else before
  }

  /** Cycle i replaces the stored list: in quiet hours, or because it delivered a card. */
  predicate Stores(s: NotifyState, cs: seq<Cycle>, i: nat)
    requires i < |cs|
  {
    !cs[i].Open() || CardAt(s, cs, i).Some?
  }

  function Stored(s: NotifyState, cs: seq<Cycle>, i: nat): set<string>
    requires i < |cs| && Stores(s, cs, i)
  {
    if cs[i].Open() then CardAt(s, cs, i).value.active else Elements(cs[i].eligible)
  }

  function ViewBefore(s: NotifyState, cs: seq<Cycle>, i: nat): set<string>
    requires i <= |cs|
  {
    View(s, cs[..i], Track(s).keys)
  }

  /** Cycle i, closed or with a storm card, drops from the stored list a pair that
      the receiver holds as active, without a word about it. */
  ghost predicate DropsAt(s: NotifyState, cs: seq<Cycle>, i: nat, k: string) {
    && i < |cs| && (!cs[i].Open() || StormCardAt(s, cs, i))
    && k in TrackerAt(s, cs, i).keys && k in ViewBefore(s, cs, i) && k !in Stored(s, cs, i)
  }

  ghost predicate StoredSince(s: NotifyState, cs: seq<Cycle>, i: nat, k: string) {
    exists j: nat :: i < j < |cs| && Stores(s, cs, j) && k in Stored(s, cs, j)
  }

  /** Some cycle dropped the pair silently, and no list stored since has it. */
  ghost predicate Stale(s: NotifyState, cs: seq<Cycle>, k: string) {
    exists i: nat :: DropsAt(s, cs, i, k) && !StoredSince(s, cs, i, k)
  }

  /** Closed cycle i takes into the stored list a pair the receiver does not hold. */
  ghost predicate AdoptsAt(s: NotifyState, cs: seq<Cycle>, i: nat, k: string) {
    i < |cs| && !cs[i].Open() && k in Elements(cs[i].eligible) && k !in ViewBefore(s, cs, i)
  }

  /** Every list stored since cycle i was stored by a closed cycle and has the pair. */
  ghost predicate KeptSilently(s: NotifyState, cs: seq<Cycle>, i: nat, k: string) {
    forall j: nat | i < j < |cs| && Stores(s, cs, j) :: !cs[j].Open() && k in Stored(s, cs, j)
  }

  ghost predicate Unannounced(s: NotifyState, cs: seq<Cycle>, k: string) {
    exists i: nat :: AdoptsAt(s, cs, i, k) && KeptSilently(s, cs, i, k)
  }

  lemma SamePrefix(s: NotifyState, cs: seq<Cycle>, n: nat, i: nat)
    requires i < n <= |cs|
    ensures CardAt(s, cs[..n], i) == CardAt(s, cs, i)
    ensures TrackerAt(s, cs[..n], i) == TrackerAt(s, cs, i)
    ensures ViewBefore(s, cs[..n], i) == ViewBefore(s, cs, i)
  {
    assert cs[..n][..i] == cs[..i];
  }

  /** How one more cycle changes which pairs are stale, and which are unannounced. */
  lemma StaleStep(s: NotifyState, cs: seq<Cycle>, k: string)
    requires cs != []
    ensures var n := |cs| - 1;
            Stale(s, cs, k) <==>
              DropsAt(s, cs, n, k) || (Stale(s, cs[..n], k) && !(Stores(s, cs, n) && k in Stored(s, cs, n)))
  {
    hide CardAt, TrackerAt, ViewBefore, NotificationsOpen;
    var n := |cs| - 1;
    var front := cs[..n];
    forall i: nat | i < n
      ensures DropsAt(s, front, i, k) <==> DropsAt(s, cs, i, k)
      ensures StoredSince(s, cs, i, k) <==>
                StoredSince(s, front, i, k) || (Stores(s, cs, n) && k in Stored(s, cs, n))
    {
      SamePrefix(s, cs, n, i);
      StoredSinceStep(s, cs, i, k);
    }
    if Stale(s, cs, k) {
      var i: nat :| DropsAt(s, cs, i, k) && !StoredSince(s, cs, i, k);
      assert i < n ==> DropsAt(s, front, i, k) && !StoredSince(s, front, i, k);
    }
    if DropsAt(s, cs, n, k) {
      assert !StoredSince(s, cs, n, k);
    }
    if Stale(s, front, k) && !(Stores(s, cs, n) && k in Stored(s, cs, n)) {
      var i: nat :| DropsAt(s, front, i, k) && !StoredSince(s, front, i, k);
      assert DropsAt(s, cs, i, k) && !StoredSince(s, cs, i, k);
    }
  }

  lemma StoredSinceStep(s: NotifyState, cs: seq<Cycle>, i: nat, k: string)
    requires cs != [] && i < |cs| - 1
    ensures var n := |cs| - 1;
            StoredSince(s, cs, i, k) <==>
              StoredSince(s, cs[..n], i, k) || (Stores(s, cs, n) && k in Stored(s, cs, n))
    ensures var n := |cs| - 1;
            KeptSilently(s, cs, i, k) <==>
              KeptSilently(s, cs[..n], i, k) && (Stores(s, cs, n) ==> !cs[n].Open() && k in Stored(s, cs, n))
  {
    hide CardAt, NotificationsOpen;
    var n := |cs| - 1;
    var front := cs[..n];
    forall j: nat | j < n
      ensures Stores(s, front, j) == Stores(s, cs, j)
      ensures Stores(s, cs, j) ==> Stored(s, front, j) == Stored(s, cs, j)
    {
      SamePrefix(s, cs, n, j);
    }
    if StoredSince(s, front, i, k) {
      var j: nat :| i < j < n && Stores(s, front, j) && k in Stored(s, front, j);
      assert Stores(s, cs, j);
    }
    if StoredSince(s, cs, i, k) {
      var j: nat :| i < j < |cs| && Stores(s, cs, j) && k in Stored(s, cs, j);
      assert j < n ==> Stores(s, front, j);
    }
  }

  lemma UnannouncedStep(s: NotifyState, cs: seq<Cycle>, k: string)
    requires cs != []
    ensures var n := |cs| - 1;
            Unannounced(s, cs, k) <==>
              || AdoptsAt(s, cs, n, k)
              || (Unannounced(s, cs[..n], k) && (Stores(s, cs, n) ==> !cs[n].Open() && k in Stored(s, cs, n)))
  {
    hide CardAt, TrackerAt, ViewBefore, NotificationsOpen, KeptSilently, Stored;
    var n := |cs| - 1;
    var front := cs[..n];
    forall i: nat | i < n
      ensures AdoptsAt(s, front, i, k) <==> AdoptsAt(s, cs, i, k)
      ensures KeptSilently(s, cs, i, k) <==>
                KeptSilently(s, front, i, k) && (Stores(s, cs, n) ==> !cs[n].Open() && k in Stored(s, cs, n))
    {
      SamePrefix(s, cs, n, i);
      StoredSinceStep(s, cs, i, k);
    }
    if Unannounced(s, cs, k) {
      var i: nat :| AdoptsAt(s, cs, i, k) && KeptSilently(s, cs, i, k);
      assert i < n ==> AdoptsAt(s, front, i, k) && KeptSilently(s, front, i, k);
    }
    KeptAtEnd(s, cs, k);
    if Unannounced(s, front, k) && (Stores(s, cs, n) ==> !cs[n].Open() && k in Stored(s, cs, n)) {
      var i: nat :| AdoptsAt(s, front, i, k) && KeptSilently(s, front, i, k);
      assert AdoptsAt(s, cs, i, k) && KeptSilently(s, cs, i, k);
    }
  }

  lemma KeptAtEnd(s: NotifyState, cs: seq<Cycle>, k: string)
    requires cs != []
    ensures KeptSilently(s, cs, |cs| - 1, k)
  {}

  /** The ledger of every run, quiet hours and storms included. A receiver that
      folds the delivered cards holds the stored keys, except that it still holds
      exactly the stale pairs and does not know exactly the unannounced ones. */
  lemma {:induction false} LedgerOfEveryRun(s: NotifyState, cs: seq<Cycle>)
    requires StateOk(s) && AllOk(cs)
    ensures forall k :: Stale(s, cs, k) <==>
              k in View(s, cs, Track(s).keys) && k !in Track(After(s, cs)).keys
    ensures forall k :: Unannounced(s, cs, k) <==>
              k in Track(After(s, cs)).keys && k !in View(s, cs, Track(s).keys)
    ensures cs != [] && CardAt(s, cs, |cs| - 1).Some? ==> Track(After(s, cs)).keys <= View(s, cs, Track(s).keys)
  {
    hide StateOk, Notify, NotificationsOpen, Stale, Unannounced, CardAt, After, TrackerAt, View;
    if cs == [] {
      NothingHappened(s);
      NothingViewed(s);
    } else {
      var n := |cs| - 1;
      var front := cs[..n];
      assert forall c | c in front :: c in cs;
      LedgerOfEveryRun(s, front);
      forall k
        ensures LedgerExactFor(s, cs, k)
        ensures CardAt(s, cs, n).Some? && k in Track(After(s, cs)).keys ==> k in View(s, cs, Track(s).keys)
      {
        assert LedgerExactFor(s, front, k);
        LedgerStep(s, cs, k);
      }
    }
  }

  ghost predicate LedgerExactFor(s: NotifyState, cs: seq<Cycle>, k: string) {
    var view, keys := View(s, cs, Track(s).keys), Track(After(s, cs)).keys;
    && (Stale(s, cs, k) <==> k in view && k !in keys)
    && (Unannounced(s, cs, k) <==> k in keys && k !in view)
  }

  lemma LedgerStep(s: NotifyState, cs: seq<Cycle>, k: string)
    requires StateOk(s) && AllOk(cs) && cs != []
    requires LedgerExactFor(s, cs[..|cs| - 1], k)
    ensures LedgerExactFor(s, cs, k)
    ensures CardAt(s, cs, |cs| - 1).Some? && k in Track(After(s, cs)).keys ==> k in View(s, cs, Track(s).keys)
  {
    hide StateOk, Notify, NotificationsOpen, Stale, Unannounced, CardAt, After, TrackerAt, Track;
    TrackerStep(s, cs, |cs| - 1);
    WholeRun(s, cs);
    StaleStep(s, cs, k);
    UnannouncedStep(s, cs, k);
  }

  lemma WholeRun(s: NotifyState, cs: seq<Cycle>)
    requires cs != []
    ensures TrackerAt(s, cs, |cs| - 1) == Track(After(s, cs[..|cs| - 1]))
    ensures TrackerAt(s, cs, |cs|) == Track(After(s, cs))
    ensures cs[|cs| - 1] in cs
  {
    assert cs[..|cs|] == cs;
  }

  lemma NothingViewed(s: NotifyState)
    ensures View(s, [], Track(s).keys) == Track(s).keys
  {}

  lemma NothingHappened(s: NotifyState)
    ensures After(s, []) == s
    ensures forall k :: !Stale(s, [], k) && !Unannounced(s, [], k)
  {}

  // ---- the ledger when every cycle is open ----

  /** Cycle i delivered a storm card that no longer listed k, a pair reported before. */
  ghost predicate LeftOutByStorm(s: NotifyState, cs: seq<Cycle>, i: nat, k: string) {
    && i < |cs| && StormCardAt(s, cs, i)
    && k in TrackerAt(s, cs, i).keys && k !in CardAt(s, cs, i).value.active
  }

  ghost predicate RelistedAfter(s: NotifyState, cs: seq<Cycle>, i: nat, k: string) {
    exists j: nat :: i < j < |cs| && CardAt(s, cs, j).Some? && k in CardAt(s, cs, j).value.active
  }

  ghost predicate LostToStorm(s: NotifyState, cs: seq<Cycle>, k: string) {
    exists i: nat :: LeftOutByStorm(s, cs, i, k) && !RelistedAfter(s, cs, i, k)
  }

  lemma StaleMeansLostToStorm(s: NotifyState, cs: seq<Cycle>, k: string)
    requires StateOk(s) && AllOk(cs)
    requires forall c | c in cs :: c.Open()
    ensures Stale(s, cs, k) <==> LostToStorm(s, cs, k)
    ensures !Unannounced(s, cs, k)
  {
    hide StateOk, Notify, NotificationsOpen, CardAt, After;
    forall i: nat | i < |cs|
      ensures DropsAt(s, cs, i, k) <==> LeftOutByStorm(s, cs, i, k)
      ensures StoredSince(s, cs, i, k) <==> RelistedAfter(s, cs, i, k)
    {
      var front := cs[..i];
      assert forall c | c in front :: c in cs;
      LedgerOfEveryRun(s, front);
      assert !Unannounced(s, front, k);
      SinceMeansRelisted(s, cs, i, k);
    }
    if Stale(s, cs, k) {
      var i: nat :| DropsAt(s, cs, i, k) && !StoredSince(s, cs, i, k);
      assert LeftOutByStorm(s, cs, i, k) && !RelistedAfter(s, cs, i, k);
    }
    if LostToStorm(s, cs, k) {
      var i: nat :| LeftOutByStorm(s, cs, i, k) && !RelistedAfter(s, cs, i, k);
      assert DropsAt(s, cs, i, k) && !StoredSince(s, cs, i, k);
    }
  }

  lemma SinceMeansRelisted(s: NotifyState, cs: seq<Cycle>, i: nat, k: string)
    requires i < |cs| && forall c | c in cs :: c.Open()
    ensures StoredSince(s, cs, i, k) <==> RelistedAfter(s, cs, i, k)
  {
    hide NotificationsOpen, CardAt;
    if StoredSince(s, cs, i, k) {
      var j: nat :| i < j < |cs| && Stores(s, cs, j) && k in Stored(s, cs, j);
      assert CardAt(s, cs, j).Some?;
    }
    if RelistedAfter(s, cs, i, k) {
      var j: nat :| i < j < |cs| && CardAt(s, cs, j).Some? && k in CardAt(s, cs, j).value.active;
      assert Stores(s, cs, j);
    }
  }

  /** In open cycles a receiver that folds the delivered cards holds the stored
      keys and, besides them, exactly the pairs lost to a storm card. */
  lemma LedgerExact(s: NotifyState, cs: seq<Cycle>)
    requires StateOk(s) && AllOk(cs)
    requires forall c | c in cs :: c.Open()
    ensures forall k :: k in View(s, cs, Track(s).keys) <==>
              k in Track(After(s, cs)).keys || LostToStorm(s, cs, k)
    ensures forall k | k in Track(After(s, cs)).keys :: !LostToStorm(s, cs, k)
  {
    hide StateOk, NotificationsOpen, LostToStorm, Stale, Unannounced, After, View;
    LedgerOfEveryRun(s, cs);
    forall k
      ensures Stale(s, cs, k) <==> LostToStorm(s, cs, k)
      ensures !Unannounced(s, cs, k)
    {
      StaleMeansLostToStorm(s, cs, k);
    }
  }

  /** With storms off, the ledger is the stored list, and after a cycle whose
      delivery succeeds it is the eligible set: a failed delivery loses nothing. */
  lemma LedgerLossless(s: NotifyState, cs: seq<Cycle>)
    requires StateOk(s) && AllOk(cs)
    requires forall c | c in cs :: c.Open() && c.stormThreshold == 0
    ensures View(s, cs, Track(s).keys) == Track(After(s, cs)).keys
    ensures cs != [] && cs[|cs| - 1].delivered && !s.stormActive ==>
              View(s, cs, Track(s).keys) == Elements(cs[|cs| - 1].eligible)
  {
    hide StateOk, Notify, NotificationsOpen, After, View;
    LedgerExact(s, cs);
    forall k ensures !LostToStorm(s, cs, k) {
      NoStormNoLoss(s, cs, k);
    }
    if cs != [] && !s.stormActive {
      StormStaysOff(s, cs, |cs| - 1);
      TrackerStep(s, cs, |cs| - 1);
      WholeRun(s, cs);
    }
  }

  lemma NoStormNoLoss(s: NotifyState, cs: seq<Cycle>, k: string)
    requires StateOk(s) && AllOk(cs)
    requires forall c | c in cs :: c.Open() && c.stormThreshold == 0
    ensures !LostToStorm(s, cs, k)
  {
    hide StateOk, Notify, NotificationsOpen, CardAt, TrackerAt;
    if LostToStorm(s, cs, k) {
      var i: nat :| LeftOutByStorm(s, cs, i, k) && !RelistedAfter(s, cs, i, k);
      TrackerStep(s, cs, i);
      assert false;
    }
  }

  lemma {:induction false} StormStaysOff(s: NotifyState, cs: seq<Cycle>, i: nat)
    requires StateOk(s) && AllOk(cs) && i <= |cs| && !s.stormActive
    requires forall c | c in cs :: c.Open() && c.stormThreshold == 0
    ensures !TrackerAt(s, cs, i).storm
  {
    hide StateOk, Notify, NotificationsOpen;
    if i > 0 {
      StormStaysOff(s, cs, i - 1);
      TrackerStep(s, cs, i - 1);
    }
  }

  // ---- runs in which the receiver and the stored list part ----

  const ALWAYS := Window(false, 0, 0)

  /** Closed at instant 0, which is half past five in the morning. */
  const NIGHT := Window(true, 0, 1)

  function Seeing(w: Window, stormThreshold: nat, keys: seq<string>, delivered: bool): Cycle {
    Cycle(0, w, stormThreshold, keys, keys, delivered)
  }

  lemma SeeingOk(w: Window, stormThreshold: nat, keys: seq<string>, delivered: bool)
    requires w == ALWAYS || w == NIGHT
    requires KeyList(keys)
    ensures var c := Seeing(w, stormThreshold, keys, delivered); c.Ok() && (c.Open() <==> w == ALWAYS)
  {}

  /** A pair that clears while a delivery fails, just before quiet hours, is never
      reported as cleared: the closed cycle forgets it. */
  lemma ClearedPairForgotten(k: string) returns (cs: seq<Cycle>)
    requires IsKey(k)
    ensures AllOk(cs) && cs == [Seeing(ALWAYS, 0, [k], true), Seeing(ALWAYS, 0, [], false),
                                Seeing(NIGHT, 0, [], true), Seeing(ALWAYS, 0, [], true)]
    ensures CardAt(NEVER_NOTIFIED, cs, 0).Some? && CardAt(NEVER_NOTIFIED, cs, 1).None?
    ensures CardAt(NEVER_NOTIFIED, cs, 2).None? && CardAt(NEVER_NOTIFIED, cs, 3).None?
    ensures Stale(NEVER_NOTIFIED, cs, k)
  {
    hide IsKey, Notify, After, Stale, CardAt, NotificationsOpen;
    cs := [Seeing(ALWAYS, 0, [k], true), Seeing(ALWAYS, 0, [], false),
           Seeing(NIGHT, 0, [], true), Seeing(ALWAYS, 0, [], true)];
    SeeingOk(ALWAYS, 0, [k], true);
    SeeingOk(ALWAYS, 0, [], false);
    SeeingOk(NIGHT, 0, [], true);
    SeeingOk(ALWAYS, 0, [], true);
    FromTheStart(cs);
    TrackerStep(NEVER_NOTIFIED, cs, 0);
    TrackerStep(NEVER_NOTIFIED, cs, 1);
    TrackerStep(NEVER_NOTIFIED, cs, 2);
    TrackerStep(NEVER_NOTIFIED, cs, 3);
    LedgerOfEveryRun(NEVER_NOTIFIED, cs);
    WholeRun(NEVER_NOTIFIED, cs);
    assert Elements([k]) == {k} && Elements<string>([]) == {};
    ViewSteps(NEVER_NOTIFIED, cs, 4);
    ViewSteps(NEVER_NOTIFIED, cs, 3);
    ViewSteps(NEVER_NOTIFIED, cs, 2);
    ViewSteps(NEVER_NOTIFIED, cs, 1);
  }

  /** A pair that comes in quiet hours and goes after them is reported as cleared
      although it was never reported as active. */
  lemma UnknownPairCleared(k: string) returns (cs: seq<Cycle>)
    requires IsKey(k)
    ensures AllOk(cs) && cs == [Seeing(NIGHT, 0, [k], true), Seeing(ALWAYS, 0, [], true)]
    ensures Unannounced(NEVER_NOTIFIED, cs[..1], k)
    ensures CardAt(NEVER_NOTIFIED, cs, 0).None?
    ensures CardAt(NEVER_NOTIFIED, cs, 1) == Some(Card(Cleared, {}, {k}, {k}, 0))
  {
    hide IsKey, Notify, After, Unannounced, CardAt, NotificationsOpen;
    cs := [Seeing(NIGHT, 0, [k], true), Seeing(ALWAYS, 0, [], true)];
    SeeingOk(NIGHT, 0, [k], true);
    SeeingOk(ALWAYS, 0, [], true);
    FromTheStart(cs);
    TrackerStep(NEVER_NOTIFIED, cs, 0);
    TrackerStep(NEVER_NOTIFIED, cs, 1);
    LedgerOfEveryRun(NEVER_NOTIFIED, cs[..1]);
    ViewSteps(NEVER_NOTIFIED, cs, 1);
    assert Elements([k]) == {k} && Elements<string>([]) == {};
    assert TrackerAt(NEVER_NOTIFIED, cs, 1).keys == {k};
    assert {k} - {} == {k};
  }

  /** A pair that became eligible in quiet hours is announced by an update, with
      no initial card before it, as soon as another one joins it. */
  lemma UpdateWithoutInitial(a: string, b: string) returns (cs: seq<Cycle>)
    requires IsKey(a) && IsKey(b) && a != b
    ensures AllOk(cs) && cs == [Seeing(NIGHT, 0, [a], true), Seeing(ALWAYS, 0, [a, b], true)]
    ensures CardAt(NEVER_NOTIFIED, cs, 0).None?
    ensures CardAt(NEVER_NOTIFIED, cs, 1) == Some(Card(Update, {a, b}, {a}, {}, 0))
  {
    hide IsKey, Notify, After, CardAt, NotificationsOpen;
    cs := [Seeing(NIGHT, 0, [a], true), Seeing(ALWAYS, 0, [a, b], true)];
    SeeingOk(NIGHT, 0, [a], true);
    SeeingOk(ALWAYS, 0, [a, b], true);
    FromTheStart(cs);
    TrackerStep(NEVER_NOTIFIED, cs, 0);
    TrackerStep(NEVER_NOTIFIED, cs, 1);
    assert Elements([a]) == {a} && Elements([a, b]) == {a, b} && {a} - {a, b} == {};
  }

  /** A pair reported before a storm and gone when the storm card is delivered is lost to it. */
  lemma StormForgetsPair(a: string, b: string) returns (cs: seq<Cycle>)
    requires IsKey(a) && IsKey(b) && a != b
    ensures AllOk(cs) && (forall c | c in cs :: c.Open())
    ensures cs == [Seeing(ALWAYS, 0, [a], true), Seeing(ALWAYS, 1, [b], true)]
    ensures LostToStorm(NEVER_NOTIFIED, cs, a) && !LostToStorm(NEVER_NOTIFIED, cs, b)
  {
    hide IsKey, Notify, After, CardAt, NotificationsOpen;
    cs := [Seeing(ALWAYS, 0, [a], true), Seeing(ALWAYS, 1, [b], true)];
    SeeingOk(ALWAYS, 0, [a], true);
    SeeingOk(ALWAYS, 1, [b], true);
    FromTheStart(cs);
    TrackerStep(NEVER_NOTIFIED, cs, 0);
    TrackerStep(NEVER_NOTIFIED, cs, 1);
    assert forall i | 0 <= i < 2 :: !LeftOutByStorm(NEVER_NOTIFIED, cs, i, b);
    assert LeftOutByStorm(NEVER_NOTIFIED, cs, 1, a) && !RelistedAfter(NEVER_NOTIFIED, cs, 1, a);
  }

  lemma FromTheStart(cs: seq<Cycle>)
    ensures StateOk(NEVER_NOTIFIED) && TrackerAt(NEVER_NOTIFIED, cs, 0) == Tracker({}, false, false)
    ensures ViewBefore(NEVER_NOTIFIED, cs, 0) == {}
  {
    assert cs[..0] == [];
  }

  lemma ViewSteps(s: NotifyState, cs: seq<Cycle>, i: nat)
    requires 0 < i <= |cs|
    ensures ViewBefore(s, cs, i) ==
              var card := CardAt(s, cs, i - 1);
              if card.Some? then Receive(ViewBefore(s, cs, i - 1), card.value) else ViewBefore(s, cs, i - 1)
    ensures i == |cs| ==> ViewBefore(s, cs, i) == View(s, cs, Track(s).keys)
  {
    hide After, Notify;
    assert cs[..i][..i - 1] == cs[..i - 1];
    assert i == |cs| ==> cs[..i] == cs;
  }

  // ---- the row as the program holds it ----

  /** `LockNotificationState`, with the log of cards it has delivered. */
  class LockNotificationState {
    var lastFingerprint: Fingerprint
    var lastActiveKeys: seq<string>
    var stormActive: bool
    var lastSentAt: Option<Instant>
    ghost var cycles: seq<Cycle>

    ghost function State(): NotifyState
      reads this
    {
      NotifyState(lastFingerprint, lastActiveKeys, stormActive, lastSentAt)
    }

    ghost predicate Valid()
      reads this
    {
      AllOk(cycles) && State() == After(NEVER_NOTIFIED, cycles)
    }

    constructor ()
      ensures Valid() && cycles == []
    {
      lastFingerprint, lastActiveKeys, stormActive, lastSentAt := Blank, [], false, None;
      cycles := [];
    }

    /** The locked section, with `notify_lock_summary`'s result as `c.delivered`. */
    method RunSection(c: Cycle) returns (card: Option<Card>)
      requires Valid() && c.Ok()
      modifies this
      ensures Valid() && cycles == old(cycles) + [c]
      ensures Outcome(State(), card) == Notify(old(State()), c)
      ensures card == CardAt(NEVER_NOTIFIED, cycles, |cycles| - 1)
    {
      hide KeyList;
      card := UpdateState(c);
      cycles := cycles + [c];
      assert cycles[..|cycles| - 1] == old(cycles);
    }

    method UpdateState(c: Cycle) returns (card: Option<Card>)
      modifies this`lastFingerprint, this`lastActiveKeys, this`stormActive, this`lastSentAt
      ensures Outcome(State(), card) == Notify(old(State()), c)
    {
      hide Sort, SummaryFingerprint, NotificationsOpen;
      card := None;
      var previousKeys := Sort(lastActiveKeys);
      var currentKeys := Sort(c.eligible);
      var currentFingerprint := SummaryFingerprint(c.eligible);
      assert Elements(previousKeys) == Elements(lastActiveKeys) by { SortKeeps(lastActiveKeys); }
      if !NotificationsOpen(c.window, c.now) {
        lastFingerprint := Blank;
        lastActiveKeys := currentKeys;
        return;
      }
      if c.active == [] {
        if stormActive {
          stormActive := false;
        }
      } else if c.stormThreshold != 0 && |c.active| >= c.stormThreshold {
        if !stormActive {
          if c.delivered {
            stormActive := true;
            lastFingerprint := SummaryFingerprint(c.active);
            lastActiveKeys := Sort(c.active);
            lastSentAt := Some(c.now);
            card := Some(Card(Storm, Elements(c.active), Elements(previousKeys), {}, c.now));
          }
        }
        return;
      } else if stormActive {
        return;
      }
      if currentFingerprint == lastFingerprint {
        return;
      }
      if previousKeys == [] && currentKeys == [] {
        lastFingerprint := currentFingerprint;
        lastActiveKeys := [];
        return;
      }
      var event;
      if previousKeys == [] && currentKeys != [] {
        event := Initial;
      } else if previousKeys != [] && currentKeys == [] {
        event := Cleared;
      } else {
        event := Update;
      }
      if c.delivered {
        lastFingerprint := currentFingerprint;
        lastActiveKeys := currentKeys;
        lastSentAt := Some(c.now);
        card := Some(Card(event, Elements(currentKeys), Elements(previousKeys),
                          Elements(previousKeys) - Elements(currentKeys), c.now));
      }
    }
  }
}
