/**
 The records shared by the monitor's components, and the units of time.
 An instant is a count of microseconds since 1970-01-01 00:00 UTC, the
 resolution of the database's timestamps.
 */
module Models {
  import opened Wrappers
  import opened Text

  const SECOND: int := 1_000_000
  const HOUR: int := 3600 * SECOND
  const DAY: int := 24 * HOUR

  /** India Standard Time is 5 h 30 min ahead of UTC, without daylight saving. */
  const IST_OFFSET: int := 19_800 * SECOND

  type Instant = int

  /** The four descriptive columns an observation may refresh. */
  datatype TextField = BlockedUser | BlockingUser | BlockedQuery | BlockingQuery

  datatype Texts = Texts(blockedUser: string, blockingUser: string, blockedQuery: string, blockingQuery: string) {
    function Get(f: TextField): string {
      match f
      case BlockedUser => blockedUser
      case BlockingUser => blockingUser
      case BlockedQuery => blockedQuery
      case BlockingQuery => blockingQuery
    }

    /** These texts, with the non-empty ones of `newer` taking over. */
    function Refreshed(newer: Texts): (r: Texts)
      ensures forall f :: r.Get(f) == if newer.Get(f) != "" then newer.Get(f) else Get(f)
    {
      Texts(if newer.blockedUser != "" then newer.blockedUser else blockedUser,
            if newer.blockingUser != "" then newer.blockingUser else blockingUser,
            if newer.blockedQuery != "" then newer.blockedQuery else blockedQuery,
            if newer.blockingQuery != "" then newer.blockingQuery else blockingQuery)
    }
  }

  /** One row of the lock query. Missing text is "", a missing wait is 0:
      the monitor's `or` operators treat each pair alike. */
  datatype LockRow = LockRow(blockedPid: int, blockingPid: int, texts: Texts, waiting: int) {
    function Key(): string { LockKey(blockedPid, blockingPid) }
  }

  datatype ClearReason = NoReason | AutoClear | ManualKill

  /** One incident: a PID pair that is, or was, blocked on one database. */
  datatype LockAlert = LockAlert(
    instance: nat, key: string, blockedPid: int, blockingPid: int,
    texts: Texts, waitingSeconds: nat,
    firstSeenAt: Instant, lastSeenAt: Instant, alertedAt: Option<Instant>, resolvedAt: Option<Instant>,
    clearReason: ClearReason, clearedBy: string)
  {
    predicate Active() { resolvedAt.None? }

    predicate ActiveFor(i: nat, k: string) { Active() && instance == i && key == k }
  }

  /** One tracked long-running execution. */
  datatype LongQueryAlert = LongQueryAlert(
    instance: nat, key: LongQueryKey, durationSeconds: nat,
    firstSeenAt: Instant, lastSeenAt: Instant, alertedAt: Option<Instant>, resolvedAt: Option<Instant>)
  {
    predicate Active() { resolvedAt.None? }

    predicate ActiveFor(i: nat, k: LongQueryKey) { Active() && instance == i && key == k }
  }

  /** The printed key is the PID, a colon and the digest of the joined fields. */
  datatype LongQueryKey = LongQueryKey(pid: int, digest: Fingerprint)

  /** The identity of an incident, printed as "blocked:blocking". */
  function LockKey(blocked: int, blocking: int): string {
    IntToString(blocked) + ":" + IntToString(blocking)
  }

  /** Distinct PID pairs have distinct keys. */
  lemma LockKeyInjective(a: int, b: int, c: int, d: int)
    requires LockKey(a, b) == LockKey(c, d)
    ensures a == c && b == d
  {
    HeadUnique(IntToString(a), IntToString(c), ':', IntToString(b), IntToString(d));
    IntToStringInjective(a, c);
    IntToStringInjective(b, d);
  }

  /** What every printed key satisfies, and all the fingerprint needs. */
  predicate IsKey(k: string) { k != "" && '\0' !in k }

  lemma LockKeyIsKey(a: int, b: int)
    ensures IsKey(LockKey(a, b))
  {}

  /** SHA-256 as an ideal hash: a digest is never blank and determines its message. */
  datatype Fingerprint = Blank | Sha256(message: string)

  function SummaryFingerprint(keys: seq<string>): Fingerprint {
    Sha256(Join("\0", Sort(keys)))
  }

  /** The fingerprint of a duplicate-free key list depends on exactly the set of keys. */
  lemma FingerprintCanonical(a: seq<string>, b: seq<string>)
    requires Distinct(a) && Distinct(b)
    requires forall k | k in a :: IsKey(k)
    requires forall k | k in b :: IsKey(k)
    ensures SummaryFingerprint(a) == SummaryFingerprint(b) <==> Elements(a) == Elements(b)
  {
    SortCanonical(a, b);
    SortKeeps(a);
    SortKeeps(b);
    var s, t := Sort(a), Sort(b);
    if SummaryFingerprint(a) == SummaryFingerprint(b) {
      assert forall k | k in s :: k in Elements(s);
      assert forall k | k in t :: k in Elements(t);
      JoinNonEmpty(s);
      JoinNonEmpty(t);
      if s != [] {
        JoinInjective('\0', s, t);
      }
    }
  }

  lemma JoinNonEmpty(s: seq<string>)
    requires forall k | k in s :: IsKey(k)
    ensures Join("\0", s) == "" <==> s == []
  {
    if s != [] { assert s[0] in s; }
  }
}
