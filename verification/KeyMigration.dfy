/**
 The migration that gives active incidents their canonical PID-pair key and
 merges duplicates in place, oldest first, before the unique constraint on
 active incidents is added.
 */
module KeyMigration {
  import opened Wrappers
  import opened Text
  import opened Models

  /** An incident as stored before the migration: the later row plus a counter. */
  datatype LegacyAlert = LegacyAlert(alert: LockAlert, observationCount: nat) {
    predicate Active() { alert.Active() }

    function Group(): (nat, string) { (alert.instance, LockKey(alert.blockedPid, alert.blockingPid)) }
  }

  type Rows = map<nat, LegacyAlert>

  function WithKey(a: LegacyAlert): LegacyAlert { a.(alert := a.alert.(key := a.Group().1)) }

  function Earliest(a: Option<Instant>, b: Option<Instant>): Option<Instant> {
    if a.None? then b else if b.None? then a else Some(Min(a.value, b.value))
  }

  /** The oldest incident takes over the latest useful details of a duplicate. */
  function Merge(existing: LegacyAlert, dup: LegacyAlert): LegacyAlert {
    LegacyAlert(
      existing.alert.(lastSeenAt := Max(existing.alert.lastSeenAt, dup.alert.lastSeenAt),
                      waitingSeconds := Max(existing.alert.waitingSeconds, dup.alert.waitingSeconds),
                      alertedAt := Earliest(existing.alert.alertedAt, dup.alert.alertedAt),
                      texts := existing.alert.texts.Refreshed(dup.alert.texts)),
      Max(existing.observationCount, dup.observationCount))
  }

  // ---- the query: unresolved rows, ordered by first sighting, then id ----

  predicate Before(rows: Rows, p: nat, q: nat) {
    && p in rows && q in rows
    && (rows[p].alert.firstSeenAt < rows[q].alert.firstSeenAt
        || (rows[p].alert.firstSeenAt == rows[q].alert.firstSeenAt && p < q))
  }

  predicate IsLeast(rows: Rows, ids: set<nat>, m: nat) {
    m in ids && forall q | q in ids :: q == m || Before(rows, m, q)
  }

  lemma {:induction false} LeastExists(rows: Rows, ids: set<nat>)
    requires ids != {} && ids <= rows.Keys
    ensures exists m :: m in ids && IsLeast(rows, ids, m)
  {
    var p :| p in ids;
    if ids == {p} {
      assert IsLeast(rows, ids, p);
    } else {
      var others := ids - {p};
      LeastExists(rows, others);
      var m :| m in others && IsLeast(rows, others, m);
      assert ids == others + {p};
      if Before(rows, p, m) {
        assert IsLeast(rows, ids, p);
      } else {
        assert IsLeast(rows, ids, m);
      }
    }
  }

  function SortedIds(rows: Rows, ids: set<nat>): (order: seq<nat>)
    requires ids <= rows.Keys
    ensures forall pk :: pk in order <==> pk in ids
    ensures Distinct(order)
    ensures forall i, j | 0 <= i < j < |order| :: Before(rows, order[i], order[j])
  {
    if ids == {} then []
    else
      LeastExists(rows, ids);
      var m :| m in ids && IsLeast(rows, ids, m);
      [m] + SortedIds(rows, ids - {m})
  }

  function Query(rows: Rows): (order: seq<nat>)
    ensures Distinct(order)
    ensures forall pk :: pk in order <==> pk in rows && rows[pk].Active()
    ensures forall i, j | 0 <= i < j < |order| :: Before(rows, order[i], order[j])
  {
    SortedIds(rows, set pk | pk in rows && rows[pk].Active())
  }

  /** The ids of one group, in query order. */
  function Members(rows: Rows, order: seq<nat>, g: (nat, string)): (ids: seq<nat>)
    requires forall pk | pk in order :: pk in rows
    ensures forall pk | pk in ids :: pk in order && rows[pk].Group() == g
    ensures forall pk | pk in order && rows[pk].Group() == g :: pk in ids
  {
    if order == [] then []
    else
      var n := |order| - 1;
      assert order == order[..n] + [order[n]];
      Members(rows, order[..n], g) + if rows[order[n]].Group() == g then [order[n]] else []
  }

  function MergeAll(rows: Rows, ids: seq<nat>): LegacyAlert
    requires ids != [] && forall pk | pk in ids :: pk in rows
  {
    if |ids| == 1 then WithKey(rows[ids[0]])
    else Merge(MergeAll(rows, ids[..|ids| - 1]), rows[ids[|ids| - 1]])
  }

  function GroupOf(rows: Rows, pk: nat): (ids: seq<nat>)
    requires pk in rows && rows[pk].Active()
    ensures pk in ids && forall q | q in ids :: q in rows && rows[q].Active() && rows[q].Group() == rows[pk].Group()
  {
    Members(rows, Query(rows), rows[pk].Group())
  }

  /** The migrated table: resolved rows as they were, and of each group only its
      first incident, holding the merge of the group. */
  function Normalize(rows: Rows): Rows {
    map pk | pk in rows && (rows[pk].Active() ==> pk == GroupOf(rows, pk)[0]) ::
      if rows[pk].Active() then MergeAll(rows, GroupOf(rows, pk)) else rows[pk]
  }

  datatype Progress = Progress(rows: Rows, canonical: map<(nat, string), nat>)

  /** One iteration of the loop. */
  function Advance(p: Progress, pk: nat): Progress
    requires pk in p.rows && forall g | g in p.canonical :: p.canonical[g] in p.rows
  {
    var a := p.rows[pk];
    var g := a.Group();
    if g !in p.canonical then Progress(p.rows[pk := WithKey(a)], p.canonical[g := pk])
    else
      var id := p.canonical[g];
      Progress(p.rows[id := Merge(p.rows[id], a)] - {pk}, p.canonical)
  }

  ghost predicate Known(rows: Rows, order: seq<nat>) {
    Distinct(order) && forall pk | pk in order :: pk in rows && rows[pk].Active()
  }

  ghost predicate RowsHandled(rows: Rows, done: seq<nat>, p: Progress) {
    && p.rows.Keys <= rows.Keys
    && (forall pk | pk in rows && pk !in done :: pk in p.rows && p.rows[pk] == rows[pk])
    && (forall pk | pk in done && pk in p.rows && pk in rows ::
          rows[pk].Group() in p.canonical && pk == p.canonical[rows[pk].Group()])
  }

  /** The state after the first n rows of the query have been handled. */
  ghost predicate Partial(rows: Rows, order: seq<nat>, n: nat, p: Progress)
    requires n <= |order| && Known(rows, order)
  {
    && RowsHandled(rows, order[..n], p)
    && (forall g :: g in p.canonical <==> Members(rows, order[..n], g) != [])
    && (forall g | g in p.canonical :: GroupMerged(rows, order[..n], p, g))
  }

  ghost predicate GroupMerged(rows: Rows, done: seq<nat>, p: Progress, g: (nat, string))
    requires g in p.canonical && forall pk | pk in done :: pk in rows
  {
    var ids := Members(rows, done, g);
    ids != [] && p.canonical[g] == ids[0] && ids[0] in p.rows && p.rows[ids[0]] == MergeAll(rows, ids)
  }

  lemma MembersStep(rows: Rows, order: seq<nat>, n: nat, g: (nat, string))
    requires n < |order| && Known(rows, order)
    ensures Members(rows, order[..n + 1], g) ==
              Members(rows, order[..n], g) + if rows[order[n]].Group() == g then [order[n]] else []
  {
    assert order[..n + 1][..n] == order[..n];
  }

  lemma PrefixKnown(rows: Rows, order: seq<nat>, n: nat)
    requires n < |order| && Known(rows, order)
    ensures order[n] !in order[..n] && order[n] in order
    ensures forall pk :: pk in order[..n + 1] <==> pk in order[..n] || pk == order[n]
  {
    assert order[..n + 1] == order[..n] + [order[n]];
  }

  /** A canonical incident keeps its PIDs, so its group can be read off any of its versions. */
  lemma {:induction false} MergeAllKeeps(rows: Rows, ids: seq<nat>)
    requires ids != [] && forall pk | pk in ids :: pk in rows
    ensures var m, a := MergeAll(rows, ids), rows[ids[0]];
            && m.Group() == a.Group() && m.Active() == a.Active() && m.alert.key == a.Group().1
            && m.alert.firstSeenAt == a.alert.firstSeenAt
            && m.alert.clearReason == a.alert.clearReason && m.alert.clearedBy == a.alert.clearedBy
            && m.alert.resolvedAt == a.alert.resolvedAt
            && m.alert.blockedPid == a.alert.blockedPid && m.alert.blockingPid == a.alert.blockingPid
            && m.alert.instance == a.alert.instance
  {
    hide LockKey;
    if |ids| > 1 {
      assert ids[..|ids| - 1][0] == ids[0];
      MergeAllKeeps(rows, ids[..|ids| - 1]);
    }
  }

  /** The canonical incident of a group is a handled row of that group, still there. */
  lemma CanonicalPresent(rows: Rows, order: seq<nat>, n: nat, p: Progress, g: (nat, string))
    requires n <= |order| && Known(rows, order) && Partial(rows, order, n, p) && g in p.canonical
    ensures p.canonical[g] in p.rows && p.canonical[g] in order[..n] && p.canonical[g] in rows
    ensures rows[p.canonical[g]].Group() == g
  {
    hide LockKey, MergeAll;
    assert GroupMerged(rows, order[..n], p, g);
  }

  lemma NextPresent(rows: Rows, order: seq<nat>, n: nat, p: Progress)
    requires n < |order| && Known(rows, order) && Partial(rows, order, n, p)
    ensures order[n] in p.rows && p.rows[order[n]] == rows[order[n]] && order[n] !in order[..n]
    ensures forall g | g in p.canonical :: p.canonical[g] in p.rows
  {
    hide LockKey, GroupMerged, Members;
    PrefixKnown(rows, order, n);
    forall g | g in p.canonical ensures p.canonical[g] in p.rows {
      CanonicalPresent(rows, order, n, p, g);
    }
  }

  lemma PartialStep(rows: Rows, order: seq<nat>, n: nat, p: Progress)
    requires n < |order| && Known(rows, order) && Partial(rows, order, n, p)
    ensures order[n] in p.rows && p.rows[order[n]] == rows[order[n]]
    ensures forall g | g in p.canonical :: p.canonical[g] in p.rows
    ensures Partial(rows, order, n + 1, Advance(p, order[n]))
  {
    hide LockKey, Members, GroupMerged, Merge, WithKey, RowsHandled;
    NextPresent(rows, order, n, p);
    var pk := order[n];
    var p1 := Advance(p, pk);
    var mine := rows[pk].Group();
    RowsHandledStep(rows, order, n, p);
    forall g
      ensures g in p1.canonical <==> Members(rows, order[..n + 1], g) != []
      ensures g in p1.canonical ==> GroupMerged(rows, order[..n + 1], p1, g)
    {
      MembersStep(rows, order, n, g);
      if g == mine {
        MineMerged(rows, order, n, p);
      } else if g in p.canonical {
        OthersUntouched(rows, order, n, p, g);
      }
    }
  }

  lemma RowsHandledStep(rows: Rows, order: seq<nat>, n: nat, p: Progress)
    requires n < |order| && Known(rows, order) && Partial(rows, order, n, p)
    requires order[n] in p.rows && forall g | g in p.canonical :: p.canonical[g] in p.rows
    ensures RowsHandled(rows, order[..n + 1], Advance(p, order[n]))
  {
    hide LockKey, Members, GroupMerged, RowsHandled;
    PrefixKnown(rows, order, n);
    NextPresent(rows, order, n, p);
    var mine := rows[order[n]].Group();
    if mine in p.canonical { CanonicalPresent(rows, order, n, p, mine); }
    OneMoreHandled(rows, order[..n], order[..n + 1], p, order[n]);
  }

  lemma OneMoreHandled(rows: Rows, done: seq<nat>, done1: seq<nat>, p: Progress, pk: nat)
    requires RowsHandled(rows, done, p) && pk in p.rows && pk in rows && p.rows[pk] == rows[pk] && pk !in done
    requires forall q :: q in done1 <==> q in done || q == pk
    requires forall g | g in p.canonical :: p.canonical[g] in p.rows
    requires rows[pk].Group() in p.canonical ==> p.canonical[rows[pk].Group()] in done
    ensures RowsHandled(rows, done1, Advance(p, pk))
  {
    hide LockKey, Merge, WithKey;
  }

  lemma MineMerged(rows: Rows, order: seq<nat>, n: nat, p: Progress)
    requires n < |order| && Known(rows, order) && Partial(rows, order, n, p)
    requires order[n] in p.rows && forall g | g in p.canonical :: p.canonical[g] in p.rows
    ensures var g := rows[order[n]].Group(); var p1 := Advance(p, order[n]);
            g in p1.canonical && GroupMerged(rows, order[..n + 1], p1, g)
  {
    hide LockKey, Members, Merge, WithKey, MergeAll, GroupMerged;
    PrefixKnown(rows, order, n);
    NextPresent(rows, order, n, p);
    var pk := order[n];
    var g := rows[pk].Group();
    MembersStep(rows, order, n, g);
    var ids := Members(rows, order[..n], g);
    if g in p.canonical {
      CanonicalPresent(rows, order, n, p, g);
      MergeOneMore(rows, order[..n], order[..n + 1], p, g, pk);
    } else {
      assert ids == [];
      MergeFirst(rows, order[..n + 1], p, g, pk);
    }
  }

  lemma MergeOneMore(rows: Rows, done: seq<nat>, done1: seq<nat>, p: Progress, g: (nat, string), pk: nat)
    requires (forall q | q in done :: q in rows) && forall q | q in done1 :: q in rows
    requires g in p.canonical && GroupMerged(rows, done, p, g)
    requires pk in p.rows && pk in rows && p.rows[pk] == rows[pk] && rows[pk].Group() == g && pk !in done
    requires forall h | h in p.canonical :: p.canonical[h] in p.rows
    requires Members(rows, done1, g) == Members(rows, done, g) + [pk]
    ensures GroupMerged(rows, done1, Advance(p, pk), g)
  {
    hide LockKey, Members, Merge, WithKey;
    var ids := Members(rows, done, g);
    assert (ids + [pk])[..|ids|] == ids;
    assert ids[0] in done;
  }

  lemma MergeFirst(rows: Rows, done1: seq<nat>, p: Progress, g: (nat, string), pk: nat)
    requires forall q | q in done1 :: q in rows
    requires pk in p.rows && pk in rows && p.rows[pk] == rows[pk] && rows[pk].Group() == g && g !in p.canonical
    requires forall h | h in p.canonical :: p.canonical[h] in p.rows
    requires Members(rows, done1, g) == [pk]
    ensures g in Advance(p, pk).canonical && GroupMerged(rows, done1, Advance(p, pk), g)
  {
    hide LockKey, Members, Merge, WithKey;
  }

  lemma OthersUntouched(rows: Rows, order: seq<nat>, n: nat, p: Progress, g: (nat, string))
    requires n < |order| && Known(rows, order) && Partial(rows, order, n, p)
    requires order[n] in p.rows && forall g | g in p.canonical :: p.canonical[g] in p.rows
    requires g in p.canonical && g != rows[order[n]].Group()
    ensures var p1 := Advance(p, order[n]);
            g in p1.canonical && GroupMerged(rows, order[..n + 1], p1, g)
  {
    hide LockKey, MergeAll, Members, Merge, WithKey;
    PrefixKnown(rows, order, n);
    NextPresent(rows, order, n, p);
    MembersStep(rows, order, n, g);
    var mine := rows[order[n]].Group();
    assert Members(rows, order[..n + 1], g) == Members(rows, order[..n], g);
    assert GroupMerged(rows, order[..n], p, g);
    CanonicalPresent(rows, order, n, p, g);
    if mine in p.canonical { CanonicalPresent(rows, order, n, p, mine); }
    assert p.canonical[g] != order[n] && (mine in p.canonical ==> p.canonical[g] != p.canonical[mine]);
    assert Advance(p, order[n]).rows[p.canonical[g]] == p.rows[p.canonical[g]];
  }

  lemma PartialIsNormalized(rows: Rows, p: Progress)
    requires Known(rows, Query(rows)) && Partial(rows, Query(rows), |Query(rows)|, p)
    ensures p.rows == Normalize(rows)
  {
    hide LockKey, MergeAll, Members, Query;
    var order := Query(rows);
    assert order[..|order|] == order;
    forall pk | pk in rows
      ensures pk in p.rows <==> pk in Normalize(rows)
      ensures pk in p.rows ==> p.rows[pk] == Normalize(rows)[pk]
    {
      if rows[pk].Active() {
        var g := rows[pk].Group();
        assert pk in order && pk in GroupOf(rows, pk);
        assert GroupMerged(rows, order[..|order|], p, g);
      }
    }
  }

  // ---- what the migrated table is like ----

  ghost predicate LastNonEmpty(rows: Rows, ids: seq<nat>, f: TextField, text: string)
    requires forall pk | pk in ids :: pk in rows
  {
    if text == "" then forall i | 0 <= i < |ids| :: rows[ids[i]].alert.texts.Get(f) == ""
    else exists i :: 0 <= i < |ids| && rows[ids[i]].alert.texts.Get(f) == text
                     && forall j | i < j < |ids| :: rows[ids[j]].alert.texts.Get(f) == ""
  }

  /** The latest sighting, the longest wait and the highest count of the group,
      each attained by a member; the earliest alert, if any member was alerted. */
  ghost predicate Extremes(rows: Rows, ids: seq<nat>, m: LegacyAlert)
    requires forall pk | pk in ids :: pk in rows
  {
    && (forall pk | pk in ids :: rows[pk].alert.lastSeenAt <= m.alert.lastSeenAt)
    && (exists pk :: pk in ids && rows[pk].alert.lastSeenAt == m.alert.lastSeenAt)
    && (forall pk | pk in ids :: rows[pk].alert.waitingSeconds <= m.alert.waitingSeconds)
    && (exists pk :: pk in ids && rows[pk].alert.waitingSeconds == m.alert.waitingSeconds)
    && (forall pk | pk in ids :: rows[pk].observationCount <= m.observationCount)
    && (exists pk :: pk in ids && rows[pk].observationCount == m.observationCount)
    && (forall pk | pk in ids && rows[pk].alert.alertedAt.Some? ::
          m.alert.alertedAt.Some? && m.alert.alertedAt.value <= rows[pk].alert.alertedAt.value)
    && (m.alert.alertedAt.Some? ==> exists pk :: pk in ids && rows[pk].alert.alertedAt == m.alert.alertedAt)
  }

  lemma ExtremesStep(rows: Rows, front: seq<nat>, pk: nat, m: LegacyAlert)
    requires (forall q | q in front :: q in rows) && pk in rows && Extremes(rows, front, m)
    ensures Extremes(rows, front + [pk], Merge(m, rows[pk]))
  {
    hide LockKey;
    var ids := front + [pk];
    assert forall q :: q in ids <==> q in front || q == pk;
    assert pk in ids;
  }

  lemma TextStep(rows: Rows, front: seq<nat>, pk: nat, f: TextField, text: string)
    requires (forall q | q in front :: q in rows) && pk in rows && LastNonEmpty(rows, front, f, text)
    ensures var newer := rows[pk].alert.texts.Get(f);
            LastNonEmpty(rows, front + [pk], f, if newer != "" then newer else text)
  {
    var ids := front + [pk];
    assert ids[|front|] == pk;
    if rows[pk].alert.texts.Get(f) == "" && text != "" {
      var i :| 0 <= i < |front| && rows[front[i]].alert.texts.Get(f) == text
               && forall j | i < j < |front| :: rows[front[j]].alert.texts.Get(f) == "";
      assert ids[i] == front[i];
    }
  }

  /** The surviving incident of a group: latest, longest, most, earliest alert, last texts. */
  lemma {:induction false} MergeAllExtremes(rows: Rows, ids: seq<nat>)
    requires ids != [] && forall pk | pk in ids :: pk in rows
    ensures Extremes(rows, ids, MergeAll(rows, ids))
    ensures forall f :: LastNonEmpty(rows, ids, f, MergeAll(rows, ids).alert.texts.Get(f))
  {
    hide LockKey, Extremes, LastNonEmpty, Merge;
    var n := |ids| - 1;
    if n == 0 {
      SingleExtremes(rows, ids);
    } else {
      var front := ids[..n];
      MergeAllExtremes(rows, front);
      assert ids == front + [ids[n]];
      var m := MergeAll(rows, front);
      ExtremesStep(rows, front, ids[n], m);
      forall f ensures LastNonEmpty(rows, ids, f, MergeAll(rows, ids).alert.texts.Get(f)) {
        TextStep(rows, front, ids[n], f, m.alert.texts.Get(f));
        MergeTexts(m, rows[ids[n]], f);
      }
    }
  }

  lemma MergeTexts(m: LegacyAlert, b: LegacyAlert, f: TextField)
    ensures Merge(m, b).alert.texts.Get(f) == if b.alert.texts.Get(f) != "" then b.alert.texts.Get(f)
              else m.alert.texts.Get(f)
  {}

  lemma SingleExtremes(rows: Rows, ids: seq<nat>)
    requires |ids| == 1 && ids[0] in rows
    ensures Extremes(rows, ids, WithKey(rows[ids[0]]))
    ensures forall f :: LastNonEmpty(rows, ids, f, WithKey(rows[ids[0]]).alert.texts.Get(f))
  {
    hide LockKey;
  }

  /** The first member in query order is the oldest. */
  lemma {:induction false} FirstIsOldest(rows: Rows, order: seq<nat>, n: nat, g: (nat, string), pk: nat)
    requires order == Query(rows) && n <= |order|
    requires forall q | q in order[..n] :: q in rows
    requires pk in Members(rows, order[..n], g)
    ensures rows[Members(rows, order[..n], g)[0]].alert.firstSeenAt <= rows[pk].alert.firstSeenAt
  {
    hide LockKey, Query;
    if n > 0 {
      assert order[..n][..n - 1] == order[..n - 1];
      var front := Members(rows, order[..n - 1], g);
      if front != [] {
        if pk in front {
          FirstIsOldest(rows, order, n - 1, g, pk);
        } else {
          assert pk == order[n - 1] && front[0] in order[..n - 1];
          var i :| 0 <= i < n - 1 && order[i] == front[0];
          assert Before(rows, order[i], order[n - 1]);
        }
      }
    }
  }

  /** Every unresolved row of the migrated table is the first of its own group. */
  lemma Survivor(rows: Rows, q: nat)
    requires q in Normalize(rows) && Normalize(rows)[q].Active()
    ensures q in rows && rows[q].Active() && q == GroupOf(rows, q)[0]
    ensures Normalize(rows)[q] == MergeAll(rows, GroupOf(rows, q))
    ensures Normalize(rows)[q].Group() == rows[q].Group() && Normalize(rows)[q].alert.key == rows[q].Group().1
  {
    hide LockKey, MergeAll, Query, Members;
    if rows[q].Active() {
      MergeAllKeeps(rows, GroupOf(rows, q));
    }
  }

  /** The members of an incident's group are the unresolved incidents of its database
      with its blocked and its blocking PID, oldest first, then by id. */
  lemma GroupMembers(rows: Rows, pk: nat)
    requires pk in rows && rows[pk].Active()
    ensures var ids := GroupOf(rows, pk);
            && (forall q :: q in ids <==>
                  q in rows && rows[q].alert.resolvedAt == None && rows[q].alert.instance == rows[pk].alert.instance
                  && rows[q].alert.blockedPid == rows[pk].alert.blockedPid
                  && rows[q].alert.blockingPid == rows[pk].alert.blockingPid)
            && (forall i, j | 0 <= i < j < |ids| ::
                  var a, b := rows[ids[i]].alert.firstSeenAt, rows[ids[j]].alert.firstSeenAt;
                  a < b || (a == b && ids[i] < ids[j]))
  {
    hide LockKey, Members, Query;
    var order, g := Query(rows), rows[pk].Group();
    forall q | q in rows && rows[q].Active() && rows[q].Group() == g
      ensures rows[q].alert.blockedPid == rows[pk].alert.blockedPid
                && rows[q].alert.blockingPid == rows[pk].alert.blockingPid
    {
      LockKeyInjective(rows[q].alert.blockedPid, rows[q].alert.blockingPid,
                       rows[pk].alert.blockedPid, rows[pk].alert.blockingPid);
    }
    assert InOrder(rows, order);
    MembersOrdered(rows, order, g);
    var ids := GroupOf(rows, pk);
    assert ids == Members(rows, order, g);
    forall i, j | 0 <= i < j < |ids|
      ensures var a, b := rows[ids[i]].alert.firstSeenAt, rows[ids[j]].alert.firstSeenAt;
              a < b || (a == b && ids[i] < ids[j])
    {
      assert Before(rows, ids[i], ids[j]);
    }
  }

  ghost predicate InOrder(rows: Rows, ids: seq<nat>) {
    forall i, j | 0 <= i < j < |ids| :: Before(rows, ids[i], ids[j])
  }

  lemma {:induction false} MembersOrdered(rows: Rows, order: seq<nat>, g: (nat, string))
    requires (forall pk | pk in order :: pk in rows) && InOrder(rows, order)
    ensures InOrder(rows, Members(rows, order, g))
  {
    hide LockKey, InOrder, Before;
    PrefixOrdered(rows, order);
    if order != [] {
      var n := |order| - 1;
      MembersOrdered(rows, order[..n], g);
      AppendOrdered(rows, Members(rows, order[..n], g), order[n]);
    } else {
      assert Members(rows, order, g) == order;
    }
  }

  lemma PrefixOrdered(rows: Rows, order: seq<nat>)
    requires InOrder(rows, order)
    ensures order != [] ==> InOrder(rows, order[..|order| - 1])
    ensures order != [] ==>
              var front, last := order[..|order| - 1], order[|order| - 1];
              forall pk | pk in front :: Before(rows, pk, last)
  {
    hide Before;
    if order != [] {
      var front, last := order[..|order| - 1], order[|order| - 1];
      forall pk | pk in front ensures Before(rows, pk, last) {
        var i :| 0 <= i < |front| && front[i] == pk;
        assert Before(rows, order[i], last);
      }
    }
  }

  lemma AppendOrdered(rows: Rows, ids: seq<nat>, last: nat)
    requires InOrder(rows, ids) && forall pk | pk in ids :: Before(rows, pk, last)
    ensures InOrder(rows, ids + [last]) && InOrder(rows, ids + [])
  {
    hide Before;
    assert ids + [] == ids;
  }

  /** Of every group of unresolved incidents the migration leaves exactly one. It
      is the oldest, has the key "blocked:blocking" and holds the group's extremes and
      last texts, and is otherwise as it was. Resolved incidents are untouched. */
  lemma MigrationLeavesOnePerGroup(rows: Rows, pk: nat)
    requires pk in rows
    ensures !rows[pk].Active() ==> pk in Normalize(rows) && Normalize(rows)[pk] == rows[pk]
    ensures rows[pk].Active() ==>
              var ids := GroupOf(rows, pk);
              && ids[0] in Normalize(rows)
              && var m := Normalize(rows)[ids[0]];
                 && m.Active() && m.Group() == rows[pk].Group()
                 && m.alert.key == IntToString(rows[pk].alert.blockedPid) + ":"
                    + IntToString(rows[pk].alert.blockingPid)
                 && m.alert == rows[ids[0]].alert.(key := m.alert.key, lastSeenAt := m.alert.lastSeenAt,
                                                   waitingSeconds := m.alert.waitingSeconds,
                                                   alertedAt := m.alert.alertedAt, texts := m.alert.texts)
                 && m.alert.firstSeenAt == rows[ids[0]].alert.firstSeenAt <= rows[pk].alert.firstSeenAt
                 && Extremes(rows, ids, m)
                 && (forall f :: LastNonEmpty(rows, ids, f, m.alert.texts.Get(f)))
                 && (forall q | q in Normalize(rows) && Normalize(rows)[q].Active()
                     && Normalize(rows)[q].Group() == rows[pk].Group() ::
                       q == ids[0])
  {
    hide LockKey, MergeAll, Extremes, LastNonEmpty, Query, Members;
    if rows[pk].Active() {
      var ids := GroupOf(rows, pk);
      var order := Query(rows);
      assert order[..|order|] == order;
      FirstIsOldest(rows, order, |order|, rows[pk].Group(), pk);
      SameGroup(rows, ids[0], pk);
      MergeAllKeeps(rows, ids);
      MergeAllExtremes(rows, ids);
      PrintedKey(rows[pk]);
      forall q | q in Normalize(rows) && Normalize(rows)[q].Active() && Normalize(rows)[q].Group() == rows[pk].Group()
        ensures q == ids[0]
      {
        Survivor(rows, q);
        SameGroup(rows, q, pk);
      }
    }
  }

  lemma PrintedKey(a: LegacyAlert)
    ensures a.Group().1 == IntToString(a.alert.blockedPid) + ":" + IntToString(a.alert.blockingPid)
  {}

  lemma SameGroup(rows: Rows, p: nat, q: nat)
    requires p in rows && q in rows && rows[p].Active() && rows[q].Active() && rows[p].Group() == rows[q].Group()
    ensures GroupOf(rows, p) == GroupOf(rows, q)
  {}

  /** The unique constraint can be added: unresolved rows with the same database
      and stored key are the same row. */
  lemma ConstraintHolds(rows: Rows, p: nat, q: nat)
    requires p in Normalize(rows) && q in Normalize(rows)
    ensures var a, b := Normalize(rows)[p], Normalize(rows)[q];
            a.Active() && b.Active() && a.alert.instance == b.alert.instance && a.alert.key == b.alert.key ==> p == q
  {
    hide LockKey, MergeAll, Members, Query, Normalize;
    var a, b := Normalize(rows)[p], Normalize(rows)[q];
    if a.Active() && b.Active() && a.alert.instance == b.alert.instance && a.alert.key == b.alert.key {
      Survivor(rows, p);
      Survivor(rows, q);
      SameGroup(rows, p, q);
    }
  }

  /** Running the migration again changes nothing. */
  lemma MigrationIsIdempotent(rows: Rows)
    ensures Normalize(Normalize(rows)) == Normalize(rows)
  {
    hide LockKey, MergeAll, Query, Members, GroupOf;
    var rows1 := Normalize(rows);
    forall pk | pk in rows1
      ensures pk in Normalize(rows1) && Normalize(rows1)[pk] == rows1[pk]
    {
      if rows1[pk].Active() {
        Survivor(rows, pk);
        forall q | q in GroupOf(rows1, pk) ensures q == pk {
          ConstraintHolds(rows, pk, q);
          Survivor(rows, q);
        }
        AloneInGroup(rows1, pk);
        MergeOne(rows1, GroupOf(rows1, pk));
      }
    }
  }

  lemma MergeOne(rows: Rows, ids: seq<nat>)
    requires |ids| == 1 && ids[0] in rows && rows[ids[0]].alert.key == rows[ids[0]].Group().1
    ensures MergeAll(rows, ids) == rows[ids[0]]
  {}

  lemma {:induction false} MembersDistinct(rows: Rows, order: seq<nat>, g: (nat, string))
    requires Distinct(order) && forall pk | pk in order :: pk in rows
    ensures Distinct(Members(rows, order, g))
  {
    hide LockKey;
    if order != [] {
      var n := |order| - 1;
      MembersDistinct(rows, order[..n], g);
      assert order[n] !in order[..n];
    }
  }

  lemma DistinctConstant(ids: seq<nat>, pk: nat)
    requires Distinct(ids) && ids != [] && forall q | q in ids :: q == pk
    ensures ids == [pk]
  {
    assert ids[0] in ids && ids[|ids| - 1] in ids;
  }

  lemma AloneInGroup(rows: Rows, pk: nat)
    requires pk in rows && rows[pk].Active() && forall q | q in GroupOf(rows, pk) :: q == pk
    ensures GroupOf(rows, pk) == [pk]
  {
    hide LockKey, Members, Query;
    MembersDistinct(rows, Query(rows), rows[pk].Group());
    DistinctConstant(GroupOf(rows, pk), pk);
  }

  class LegacyTable {
    var rows: Rows

    /** `normalize_active_alert_keys`. */
    method NormalizeActiveAlertKeys()
      modifies this
      ensures rows == Normalize(old(rows))
    {
      hide LockKey, Partial, Normalize, Query;
      ghost var before := rows;
      var order := Query(rows);
      var canonical: map<(nat, string), nat> := map[];
      NothingDone(before, order);
      for n := 0 to |order|
        invariant Known(before, order)
        invariant Partial(before, order, n, Progress(rows, canonical))
      {
        ghost var p := Progress(rows, canonical);
        PartialStep(before, order, n, p);
        var pk := order[n];
        var alert := rows[pk];
        var groupKey := alert.Group();
        if groupKey !in canonical {
          if alert.alert.key != groupKey.1 {
            rows := rows[pk := alert.(alert := alert.alert.(key := groupKey.1))];
          }
          canonical := canonical[groupKey := pk];
          assert rows == p.rows[pk := WithKey(alert)];
        } else {
          var id := canonical[groupKey];
          var existing := rows[id];
          existing := existing.(alert := existing.alert.(
            lastSeenAt := Max(existing.alert.lastSeenAt, alert.alert.lastSeenAt)));
          existing := existing.(alert := existing.alert.(
            waitingSeconds := Max(existing.alert.waitingSeconds, alert.alert.waitingSeconds)));
          existing := existing.(observationCount := Max(existing.observationCount, alert.observationCount));
          existing := existing.(alert := existing.alert.(
            alertedAt := Earliest(existing.alert.alertedAt, alert.alert.alertedAt)));
          existing := existing.(alert := existing.alert.(texts := existing.alert.texts.Refreshed(alert.alert.texts)));
          rows := rows[id := existing];
          rows := rows - {pk};
        }
        assert Progress(rows, canonical) == Advance(p, pk);
      }
      PartialIsNormalized(before, Progress(rows, canonical));
    }
  }

  lemma NothingDone(rows: Rows, order: seq<nat>)
    requires Known(rows, order)
    ensures Partial(rows, order, 0, Progress(rows, map[]))
  {}
}
