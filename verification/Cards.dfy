/**
 The text of a lock summary: printed as `Key: value` lines, parsed back into
 the facts of the card, and its PID-pair lists cut to a size bound.
 */
module Cards {
  import opened Wrappers
  import opened Text
  import opened Models
  import opened LockNotifications

  // ---- cutting a list of pairs ----

  const SEPARATOR: string := " · "

  /** `str.replace(":", " → ", 1)`. */
  function Arrow(key: string): string {
    if key == "" then ""
    else if key[0] == ':' then " → " + key[1..]
    else [key[0]] + Arrow(key[1..])
  }

  function Arrows(keys: seq<string>): seq<string> { seq(|keys|, i requires 0 <= i < |keys| => Arrow(keys[i])) }

  /** Python's `s[:n]`, also for negative n. */
  function UpTo(s: string, n: int): string {
    if n < 0 then s[..Max(0, |s| + n)] else s[..Min(n, |s|)]
  }

  ghost predicate SeparatorAt(s: string, q: int) { 0 <= q <= |s| - 3 && s[q..q + 3] == SEPARATOR }

  /** The last position at or before p where the separator occurs, or -1. */
  function LastSeparator(s: string, p: int): (r: int)
    requires -1 <= p <= |s| - 3
    ensures -1 <= r <= p
    ensures r >= 0 ==> SeparatorAt(s, r)
    ensures forall q | r < q <= p :: !SeparatorAt(s, q)
  {
    if p < 0 then -1 else if s[p..p + 3] == SEPARATOR then p else LastSeparator(s, p - 1)
  }

  /** `s.rsplit(" · ", 1)[0]`. */
  function BeforeLastSeparator(s: string): string {
    var p := if |s| < 3 then -1 else LastSeparator(s, |s| - 3);
    if p < 0 then s else s[..p]
  }

  /** `_pair_text`. */
  function PairText(keys: seq<string>, limit: int): string {
    var text := Join(SEPARATOR, Arrows(keys));
    if |text| <= limit then (if text == "" then "—" else text)
    else BeforeLastSeparator(UpTo(text, limit - 30)) + " · … (" + NatToString(|keys|) + " total)"
  }

  lemma PowersOfTen()
    ensures Pow10(10) == 10_000_000_000 && Pow10(17) == 100_000_000_000_000_000
  {
    assert Pow10(5) == 100_000;
    assert Pow10(10) == 10_000_000_000;
    assert Pow10(15) == 1_000_000_000_000_000;
  }

  /** The text never exceeds its limit. */
  lemma PairTextFits(keys: seq<string>, limit: int)
    requires limit >= 30 && |keys| < 100_000_000_000_000_000
    ensures |PairText(keys, limit)| <= limit
  {
    hide Join, LastSeparator, Arrows;
    PowersOfTen();
    DigitCount(|keys|, 17);
    assert |" · … ("| == 6 && |" total)"| == 7;
  }

  /** A text within the limit shows every pair; without pairs it is a dash. */
  lemma PairTextWhole(keys: seq<string>, limit: int)
    requires |Join(SEPARATOR, Arrows(keys))| <= limit
    ensures Join(SEPARATOR, Arrows(keys)) != "" ==> PairText(keys, limit) == Join(SEPARATOR, Arrows(keys))
    ensures keys == [] ==> PairText(keys, limit) == "—"
  {}

  lemma {:induction false} JoinPrefix(parts: seq<string>, k: nat)
    requires 1 <= k <= |parts|
    ensures var front := Join(SEPARATOR, parts[..k]);
            && |front| <= |Join(SEPARATOR, parts)|
            && Join(SEPARATOR, parts)[..|front|] == front
            && (k < |parts| ==> |front| + 3 <= |Join(SEPARATOR, parts)|
                                && Join(SEPARATOR, parts)[|front|..|front| + 3] == SEPARATOR)
  {
    if k == 1 {
      assert parts[..1] == [parts[0]];
    } else {
      JoinPrefix(parts[1..], k - 1);
      assert parts[1..][..k - 1] == parts[..k][1..];
      var tail, front := Join(SEPARATOR, parts[1..]), Join(SEPARATOR, parts[1..][..k - 1]);
      var head := parts[0] + SEPARATOR;
      assert Join(SEPARATOR, parts) == head + tail && Join(SEPARATOR, parts[..k]) == head + front;
      assert (head + tail)[..|head + front|] == head + tail[..|front|];
      if k < |parts| {
        assert (head + tail)[|head + front|..|head + front| + 3] == tail[|front|..|front| + 3];
      }
    }
  }

  /** A middle dot in the text belongs to a separator between two parts. */
  lemma {:induction false} DotIsSeparator(parts: seq<string>, q: nat) returns (k: nat)
    requires forall p | p in parts :: '·' !in p
    requires q < |Join(SEPARATOR, parts)| && Join(SEPARATOR, parts)[q] == '·'
    ensures 1 <= k < |parts| && q == |Join(SEPARATOR, parts[..k])| + 1
  {
    var n := |parts[0]|;
    assert forall i | 0 <= i < n :: Join(SEPARATOR, parts)[i] == parts[0][i] && parts[0][i] in parts[0];
    assert parts[..1] == [parts[0]];
    if q == n + 1 {
      k := 1;
    } else {
      assert |parts| > 1;
      var rest := DotIsSeparator(parts[1..], q - n - 3);
      k := rest + 1;
      assert parts[..k][1..] == parts[1..][..rest];
    }
  }

  /** Cutting the joined text at the last whole separator leaves a non-empty list of whole parts. */
  lemma CutLeavesWholeParts(parts: seq<string>, cut: nat) returns (k: nat)
    requires parts != [] && forall p | p in parts :: '·' !in p
    requires |parts[0]| + 3 <= cut <= |Join(SEPARATOR, parts)|
    ensures 1 <= k < |parts| && BeforeLastSeparator(Join(SEPARATOR, parts)[..cut]) == Join(SEPARATOR, parts[..k])
  {
    hide Join;
    var text := Join(SEPARATOR, parts);
    var s := text[..cut];
    JoinPrefix(parts, 1);
    JoinOne(parts);
    assert s[|parts[0]|..|parts[0]| + 3] == text[|parts[0]|..|parts[0]| + 3];
    assert SeparatorAt(s, |parts[0]|);
    var p := LastSeparator(s, cut - 3);
    assert p >= |parts[0]|;
    assert s[p + 1] == s[p..p + 3][1] == SEPARATOR[1] == '·';
    k := DotIsSeparator(parts, p + 1);
    JoinPrefix(parts, k);
    assert s[..p] == text[..p];
  }

  lemma JoinOne(parts: seq<string>)
    requires parts != []
    ensures Join(SEPARATOR, parts[..1]) == parts[0]
    ensures |parts| == 1 ==> Join(SEPARATOR, parts) == parts[0]
  {}

  /** A text that is cut shows whole pairs only, and at least one. */
  lemma PairTextShowsWholePairs(keys: seq<string>, limit: int) returns (k: nat)
    requires keys != [] && |Join(SEPARATOR, Arrows(keys))| > limit >= 30
    requires forall key | key in Arrows(keys) :: '·' !in key
    requires |Arrow(keys[0])| + 3 <= limit - 30
    ensures 1 <= k < |keys|
    ensures PairText(keys, limit) ==
              Join(SEPARATOR, Arrows(keys[..k])) + " · … (" + NatToString(|keys|) + " total)"
  {
    hide Join, LastSeparator, Arrow, NatToString;
    k := CutLeavesWholeParts(Arrows(keys), limit - 30);
    assert Arrows(keys)[..k] == Arrows(keys[..k]);
  }

  lemma {:induction false} ArrowOfPair(p: string, q: string)
    requires ':' !in p
    ensures Arrow(p + ":" + q) == p + " → " + q
  {
    if p == "" {
      assert (p + ":" + q)[1..] == q;
    } else {
      ArrowOfPair(p[1..], q);
      assert (p + ":" + q)[1..] == p[1..] + ":" + q;
      assert p[0] in p;
    }
  }

  /** At most ten digits, as any 32-bit PID. */
  predicate ShortPid(p: int) { -10_000_000_000 < p < 10_000_000_000 }

  /** The printed form of a PID pair. */
  lemma ArrowOfLockKey(a: int, b: int)
    requires ShortPid(a) && ShortPid(b)
    ensures Arrow(LockKey(a, b)) == IntToString(a) + " → " + IntToString(b)
    ensures |Arrow(LockKey(a, b))| <= 25 && '·' !in Arrow(LockKey(a, b))
  {
    hide NatToString, Arrow;
    PowersOfTen();
    DigitCount(if a < 0 then -a else a, 10);
    DigitCount(if b < 0 then -b else b, 10);
    ArrowOfPair(IntToString(a), IntToString(b));
  }

  /** For lists of lock keys the conditions above always hold at the limits the program uses. */
  lemma LockPairsShownWhole(pids: seq<(int, int)>, keys: seq<string>, limit: int) returns (k: nat)
    requires |keys| == |pids| > 0 && forall i | 0 <= i < |pids| ::
               keys[i] == LockKey(pids[i].0, pids[i].1)
               && ShortPid(pids[i].0) && ShortPid(pids[i].1)
    requires limit >= 58 && |Join(SEPARATOR, Arrows(keys))| > limit
    ensures 1 <= k < |keys|
    ensures PairText(keys, limit) ==
              Join(SEPARATOR, Arrows(keys[..k])) + " · … (" + NatToString(|keys|) + " total)"
  {
    hide Join, Pow10, Arrow, LockKey, NatToString, PairText;
    forall i | 0 <= i < |keys| ensures |Arrow(keys[i])| <= 25 && '·' !in Arrow(keys[i]) {
      ArrowOfLockKey(pids[i].0, pids[i].1);
    }
    k := PairTextShowsWholePairs(keys, limit);
  }

  // ---- printing and parsing ----

  datatype Line = Line(key: string, value: string)

  function PrintLine(l: Line): string { l.key + ": " + l.value }

  function PrintLines(lines: seq<Line>): seq<string> {
    seq(|lines|, i requires 0 <= i < |lines| => PrintLine(lines[i]))
  }

  function Print(lines: seq<Line>): string { Join("\n", PrintLines(lines)) }

  /** `line.split(": ", 1)` when ": " occurs in the line. */
  function SplitLine(line: string): Option<Line> {
    if |line| < 2 then None
    else if line[0] == ':' && line[1] == ' ' then Some(Line("", line[2..]))
    else
      match SplitLine(line[1..])
      case None => None
      case Some(l) => Some(Line([line[0]] + l.key, l.value))
  }

  function ParseLines(lines: seq<string>): map<string, string> {
    if lines == [] then map[]
    else
      var values := ParseLines(lines[..|lines| - 1]);
      match SplitLine(lines[|lines| - 1])
      case None => values
      case Some(l) => values[l.key := l.value]
  }

  function Parse(message: string): map<string, string> { ParseLines(Split(message, '\n')) }

  function ValuesOf(lines: seq<Line>): map<string, string> {
    if lines == [] then map[] else ValuesOf(lines[..|lines| - 1])[lines[|lines| - 1].key := lines[|lines| - 1].value]
  }

  /** Keys are distinct words without colon or newline, as in every message the program prints. */
  ghost predicate PlainKeys(lines: seq<Line>) {
    && (forall i, j | 0 <= i < j < |lines| :: lines[i].key != lines[j].key)
    && (forall l | l in lines :: ':' !in l.key && '\n' !in l.key)
  }

  ghost predicate OneLineValues(lines: seq<Line>) { forall l | l in lines :: '\n' !in l.value }

  /** ": " occurs in the line at position i. */
  ghost predicate ColonAt(line: string, i: nat) { i + 2 <= |line| && line[i..i + 2] == ": " }

  lemma ColonShift(line: string, i: nat)
    requires line != ""
    ensures ColonAt(line, i + 1) <==> ColonAt(line[1..], i)
  {
    assert i + 3 <= |line| ==> line[1..][i..i + 2] == line[i + 1..i + 3];
  }

  lemma ColonStart(line: string)
    ensures ColonAt(line, 0) <==> |line| >= 2 && line[0] == ':' && line[1] == ' '
  {
    if |line| >= 2 {
      assert line[0..2] == [line[0], line[1]];
    }
  }

  /** A line is split at its first ": ", and is skipped if it has none. */
  lemma {:induction false} SplitAtFirst(line: string)
    ensures SplitLine(line).None? <==> forall i: nat :: !ColonAt(line, i)
    ensures SplitLine(line).Some? ==>
              var l := SplitLine(line).value;
              line == l.key + ": " + l.value && forall i: nat | i < |l.key| :: !ColonAt(line, i)
  {
    ColonStart(line);
    if ColonAt(line, 0) {
      assert line == "" + ": " + line[2..];
    } else if |line| >= 2 {
      var rest := line[1..];
      SplitAtFirst(rest);
      forall i: nat ensures ColonAt(line, i + 1) <==> ColonAt(rest, i) {
        ColonShift(line, i);
      }
      SplitShift(line);
    }
  }

  lemma SplitShift(line: string)
    requires |line| >= 2 && !ColonAt(line, 0) && !(line[0] == ':' && line[1] == ' ')
    requires forall i: nat :: ColonAt(line, i + 1) <==> ColonAt(line[1..], i)
    requires SplitLine(line[1..]).None? <==> forall i: nat :: !ColonAt(line[1..], i)
    requires SplitLine(line[1..]).Some? ==>
               var l := SplitLine(line[1..]).value;
               line[1..] == l.key + ": " + l.value && forall i: nat | i < |l.key| :: !ColonAt(line[1..], i)
    ensures SplitLine(line).None? <==> forall i: nat :: !ColonAt(line, i)
    ensures SplitLine(line).Some? ==>
              var l := SplitLine(line).value;
              line == l.key + ": " + l.value && forall i: nat | i < |l.key| :: !ColonAt(line, i)
  {
    hide ColonAt;
    assert line == [line[0]] + line[1..];
    if i: nat :| ColonAt(line, i) {
      assert ColonAt(line, (i - 1) + 1) && ColonAt(line[1..], i - 1);
    }
    if i: nat :| ColonAt(line[1..], i) {
      assert ColonAt(line, i + 1);
    }
    forall i: nat | SplitLine(line).Some? && i < |SplitLine(line).value.key| ensures !ColonAt(line, i) {
      if i > 0 { assert ColonAt(line, (i - 1) + 1) <==> ColonAt(line[1..], i - 1); }
    }
  }

  lemma {:induction false} SplitPrinted(key: string, value: string)
    requires ':' !in key
    ensures SplitLine(key + ": " + value) == Some(Line(key, value))
  {
    var line := key + ": " + value;
    if key == "" {
      assert line[2..] == value;
    } else {
      SplitPrinted(key[1..], value);
      assert line[1..] == key[1..] + ": " + value;
      assert line[0] == key[0] && key[0] in key;
      assert [key[0]] + key[1..] == key;
    }
  }

  lemma {:induction false} ParsePrinted(lines: seq<Line>)
    requires forall l | l in lines :: ':' !in l.key
    ensures ParseLines(PrintLines(lines)) == ValuesOf(lines)
  {
    if lines != [] {
      var n := |lines| - 1;
      assert forall l | l in lines[..n] :: l in lines;
      ParsePrinted(lines[..n]);
      assert PrintLines(lines)[..n] == PrintLines(lines[..n]);
      assert lines[n] in lines;
      SplitPrinted(lines[n].key, lines[n].value);
    }
  }

  lemma {:induction false} ValuesAreLines(lines: seq<Line>)
    requires PlainKeys(lines)
    ensures forall l | l in lines :: l.key in ValuesOf(lines) && ValuesOf(lines)[l.key] == l.value
  {
    if lines != [] {
      var n := |lines| - 1;
      assert forall l | l in lines[..n] :: l in lines;
      ValuesAreLines(lines[..n]);
      forall l | l in lines ensures l.key in ValuesOf(lines) && ValuesOf(lines)[l.key] == l.value {
        if l != lines[n] {
          var i :| 0 <= i < |lines| && lines[i] == l;
          assert l in lines[..n] by { assert lines[..n][i] == l; }
        }
      }
    }
  }

  lemma {:induction false} SplitValueIsPart(line: string, c: char)
    requires SplitLine(line).Some? && c !in line
    ensures c !in SplitLine(line).value.value
  {
    if !(line[0] == ':' && line[1] == ' ') {
      SplitValueIsPart(line[1..], c);
    }
  }

  lemma {:induction false} ParsedValuesAreOneLine(lines: seq<string>, key: string)
    requires forall l | l in lines :: '\n' !in l
    requires key in ParseLines(lines)
    ensures '\n' !in ParseLines(lines)[key]
  {
    var n := |lines| - 1;
    assert forall l | l in lines[..n] :: l in lines;
    assert lines[n] in lines;
    if SplitLine(lines[n]).Some? {
      SplitValueIsPart(lines[n], '\n');
    }
    if key in ParseLines(lines[..n]) {
      ParsedValuesAreOneLine(lines[..n], key);
    }
  }

  ghost predicate RoundTrips(lines: seq<Line>) {
    forall l | l in lines :: l.key in Parse(Print(lines)) && Parse(Print(lines))[l.key] == l.value
  }

  /** Splitting the printed message into lines, and each at its first ": ",
      recovers every field exactly when no value has a newline in it. Colons
      in values, also followed by a space, do no harm. */
  lemma RoundTripIffOneLineValues(lines: seq<Line>)
    requires PlainKeys(lines) && lines != []
    ensures RoundTrips(lines) <==> OneLineValues(lines)
  {
    hide ParseLines, ValuesOf, Join, Split, SplitLine;
    if OneLineValues(lines) {
      forall p | p in PrintLines(lines) ensures '\n' !in p {
        var i :| 0 <= i < |lines| && p == PrintLine(lines[i]);
        assert lines[i] in lines;
      }
      SplitJoin(PrintLines(lines), '\n');
      ParsePrinted(lines);
      ValuesAreLines(lines);
    }
    if RoundTrips(lines) {
      forall l | l in lines ensures '\n' !in l.value {
        ParsedValuesAreOneLine(Split(Print(lines), '\n'), l.key);
      }
    }
  }

  // ---- the lock summary ----

  /** What `_summary_message` is given: timestamps already formatted; `manual` are
      the cleared incidents that were killed by hand, `operators` the sorted
      names of those who did it, `killedPids` the sorted PIDs involved. */
  datatype Summary = Summary(event: Event, name: string, identifier: string, region: string,
                             activeKeys: seq<string>, clearedKeys: seq<string>, previousCount: nat,
                             anyCleared: bool, manual: bool, operators: seq<string>, killedPids: seq<int>,
                             firstSeen: string, lastSeen: string, sentAt: string)

  /** The keys of the summary's lines. */
  datatype Label =
    | HealthGrid
    | Status
    | AlertEvent
    | Database
    | Region
    | ActiveLocks
    | ActivePairs
    | ClearedCount
    | ClearedPairs
    | Reason
    | ClearedBy
    | PreviouslyActive
    | FirstObserved
    | LastObserved
    | SentAt
    | Message

  function Name(l: Label): string {
    match l
    case HealthGrid => "HealthGrid"
    case Status => "Status"
    case AlertEvent => "Alert event"
    case Database => "Database"
    case Region => "Region"
    case ActiveLocks => "Active locks"
    case ActivePairs => "Active PID pairs"
    case ClearedCount => "Cleared since previous card"
    case ClearedPairs => "Cleared PID pairs"
    case Reason => "Clear reason"
    case ClearedBy => "Cleared by"
    case PreviouslyActive => "Previously active"
    case FirstObserved => "First observed"
    case LastObserved => "Last observed"
    case SentAt => "Sent at"
    case Message => "Message"
  }

  /** Length and first letter tell the names apart. */
  function Shape(l: Label): (nat, char) {
    match l
    case HealthGrid => (10, 'H')
    case Status => (6, 'S')
    case AlertEvent => (11, 'A')
    case Database => (8, 'D')
    case Region => (6, 'R')
    case ActiveLocks => (12, 'A')
    case ActivePairs => (16, 'A')
    case ClearedCount => (27, 'C')
    case ClearedPairs => (17, 'C')
    case Reason => (12, 'C')
    case ClearedBy => (10, 'C')
    case PreviouslyActive => (17, 'P')
    case FirstObserved => (14, 'F')
    case LastObserved => (13, 'L')
    case SentAt => (7, 'S')
    case Message => (7, 'M')
  }

  lemma NameShape(l: Label)
    ensures |Name(l)| == Shape(l).0 && Name(l)[0] == Shape(l).1
  {}

  lemma NameHasNoColon(l: Label)
    ensures ':' !in Name(l)
  {
    match l
    case HealthGrid =>
    case Status =>
    case AlertEvent =>
    case Database =>
    case Region =>
    case ActiveLocks =>
    case ActivePairs =>
    case ClearedCount =>
    case ClearedPairs =>
    case Reason =>
    case ClearedBy =>
    case PreviouslyActive =>
    case FirstObserved =>
    case LastObserved =>
    case SentAt =>
    case Message =>
  }

  lemma NameIsOneLine(l: Label)
    ensures '\n' !in Name(l)
  {
    match l
    case HealthGrid =>
    case Status =>
    case AlertEvent =>
    case Database =>
    case Region =>
    case ActiveLocks =>
    case ActivePairs =>
    case ClearedCount =>
    case ClearedPairs =>
    case Reason =>
    case ClearedBy =>
    case PreviouslyActive =>
    case FirstObserved =>
    case LastObserved =>
    case SentAt =>
    case Message =>
  }

  lemma NamesDistinct(a: Label, b: Label)
    requires Name(a) == Name(b)
    ensures a == b
  {
    hide Name;
    NameShape(a);
    NameShape(b);
  }

  function StatusText(s: Summary): string { if s.event == Cleared then "CLEARED" else "ACTIVE" }

  function EventText(s: Summary): string {
    match s.event
    case Initial => "INITIAL SUMMARY"
    case Update => "ACTIVE SUMMARY UPDATE"
    case Cleared => "ALL LOCKS CLEARED"
    case Storm => "LOCK STORM DETECTED"
  }

  function StateText(s: Summary): string {
    if s.event == Cleared then "LOCK SUMMARY CLEARED" else if s.event == Storm then "LOCK STORM" else "LOCK SUMMARY"
  }

  function ReasonText(s: Summary): string {
    if s.manual then "MANUALLY KILLED" else if s.anyCleared then "AUTO-CLEARED" else "—"
  }

  function OperatorText(s: Summary): string { PairText(s.operators, 1200) }

  const ALL_CLEARED: string := "All tracked locks are cleared"
  const RECORDED_BY: string := " Manual kill recorded by "
  const FOR_PIDS: string := " for PID(s): "
  const DETECTED: string := " simultaneous locks detected in one check."
  const NOT_REPEATED: string := " This storm alert will not repeat"
  const UNTIL_CLEAR: string := " until all locks clear."
  const ACTION: string := " Action required:"
  const REVIEW: string := " review the blocking session"

  function KilledText(s: Summary): string {
    PairText(seq(|s.killedPids|, i requires 0 <= i < |s.killedPids| => IntToString(s.killedPids[i])), 600)
  }

  function MessageText(s: Summary): string {
    var count := NatToString(|s.activeKeys|);
    if s.event == Cleared then
      if s.manual then ALL_CLEARED + "." + RECORDED_BY + OperatorText(s) + FOR_PIDS + KilledText(s) + "."
      else ALL_CLEARED + " automatically."
    else if s.event == Storm then count + DETECTED + ACTION + REVIEW + "s." + NOT_REPEATED + UNTIL_CLEAR
    else if |s.activeKeys| == 1 then "1 lock is still active." + ACTION + REVIEW + "."
    else count + " locks are still active." + ACTION + REVIEW + "s."
  }

  function Value(l: Label, s: Summary): string {
    match l
    case HealthGrid => StateText(s)
    case Status => StatusText(s)
    case AlertEvent => EventText(s)
    case Database => s.name + " (" + s.identifier + ")"
    case Region => s.region
    case ActiveLocks => NatToString(|s.activeKeys|)
    case ActivePairs => PairText(s.activeKeys, 3200)
    case ClearedCount => NatToString(|s.clearedKeys|)
    case ClearedPairs => PairText(s.clearedKeys, 3200)
    case Reason => ReasonText(s)
    case ClearedBy => OperatorText(s)
    case PreviouslyActive => NatToString(s.previousCount)
    case FirstObserved => s.firstSeen
    case LastObserved => s.lastSeen
    case SentAt => s.sentAt
    case Message => MessageText(s)
  }

  const LABELS: seq<Label> :=
    [HealthGrid, Status, AlertEvent, Database, Region, ActiveLocks, ActivePairs, ClearedCount, ClearedPairs,
     Reason, ClearedBy, PreviouslyActive, FirstObserved, LastObserved, SentAt, Message]

  /** `_summary_message`, before joining. */
  function SummaryLines(s: Summary): seq<Line> {
    seq(16, i requires 0 <= i < 16 => Line(Name(LABELS[i]), Value(LABELS[i], s)))
  }

  /** What the card shows: its title, its status message and its facts. */
  datatype CardText = CardText(title: string, statusMessage: string, facts: seq<Line>)

  function Get(values: map<string, string>, key: string, default: string): string {
    if key in values then values[key] else default
  }

  /** A fact of the card: its title, the field it shows, and what stands for a missing field. */
  datatype Fact = Fact(title: string, field: Label, default: string)

  /** The facts of `_adaptive_card`, in order. */
  function FactAt(i: nat): Fact
    requires i < FACT_COUNT
  {
    match i
    case 0 => Fact("Status", Status, "—")
    case 1 => Fact("Database", Database, "—")
    case 2 => Fact("Region", Region, "—")
    case 3 => Fact("Active locks", ActiveLocks, "0")
    case 4 => Fact("Active PID pairs", ActivePairs, "—")
    case 5 => Fact("Cleared since previous", ClearedCount, "0")
    case 6 => Fact("Cleared PID pairs", ClearedPairs, "—")
    case 7 => Fact("Clear reason", Reason, "—")
    case 8 => Fact("Cleared by", ClearedBy, "—")
    case 9 => Fact("Alert event", AlertEvent, "—")
    case 10 => Fact("First observed", FirstObserved, "—")
    case 11 => Fact("Last observed", LastObserved, "—")
    case 12 => Fact("Sent at", SentAt, "—")
    case 13 => Fact("Previously active", PreviouslyActive, "0")
  }

  const FACT_COUNT := 14

  /** Every field but the state and the message is shown by exactly one fact. */
  lemma FactsCoverFields(l: Label)
    ensures (exists i | 0 <= i < FACT_COUNT :: FactAt(i).field == l) <==> l != HealthGrid && l != Message
    ensures forall i, j | 0 <= i < j < FACT_COUNT :: FactAt(i).field != FactAt(j).field
  {
    if l != HealthGrid && l != Message {
      var i := FactOf(l);
      assert FactAt(i).field == l;
    }
  }

  function FactOf(l: Label): (i: nat)
    requires l != HealthGrid && l != Message
    ensures i < FACT_COUNT && FactAt(i).field == l
  {
    match l
    case Status => 0
    case Database => 1
    case Region => 2
    case ActiveLocks => 3
    case ActivePairs => 4
    case ClearedCount => 5
    case ClearedPairs => 6
    case Reason => 7
    case ClearedBy => 8
    case AlertEvent => 9
    case FirstObserved => 10
    case LastObserved => 11
    case SentAt => 12
    case PreviouslyActive => 13
  }

  /** What a weekly report's card shows besides. */
  function ReportFacts(values: map<string, string>): seq<Line> {
    [ Line("Report rows", Get(values, "Report rows", "0")),
      Line("File name", Get(values, "File name", "—")),
      Line("Delivery", Get(values, "Delivery", "See Flow instructions")) ]
  }

  function CardOf(values: map<string, string>): CardText {
    var state := Get(values, Name(HealthGrid), "");
    CardText(
      if state == "TEST NOTIFICATION" then "Teams notification test"
      else if state == "WEEKLY LOCK REPORT" then "Weekly lock report"
      else if Get(values, Name(Status), "") == "CLEARED" then "All locks cleared"
      else "Database locks still active",
      Get(values, Name(Message), "—"),
      seq(FACT_COUNT, i requires 0 <= i < FACT_COUNT =>
        Line(FactAt(i).title, Get(values, Name(FactAt(i).field), FactAt(i).default)))
      + if state == "WEEKLY LOCK REPORT" then ReportFacts(values) else [])
  }

  /** The parsing loop of `_adaptive_card`. */
  method AdaptiveCard(message: string) returns (card: CardText)
    ensures card == CardOf(Parse(message))
  {
    var lines := Split(message, '\n');
    var values: map<string, string> := map[];
    for n := 0 to |lines|
      invariant values == ParseLines(lines[..n])
    {
      assert lines[..n + 1][..n] == lines[..n];
      match SplitLine(lines[n])
      case None =>
      case Some(l) => values := values[l.key := l.value];
    }
    assert lines[..|lines|] == lines;
    card := CardOf(values);
  }

  ghost predicate OneLine(s: string) { '\n' !in s }

  /** The summary's own inputs have no newlines. */
  ghost predicate OneLineInputs(s: Summary) {
    && OneLine(s.name) && OneLine(s.identifier) && OneLine(s.region)
    && OneLine(s.firstSeen) && OneLine(s.lastSeen) && OneLine(s.sentAt)
    && (forall k | k in s.activeKeys :: OneLine(k)) && (forall k | k in s.clearedKeys :: OneLine(k))
    && (forall k | k in s.operators :: OneLine(k))
  }

  lemma {:induction false} ArrowOneLine(key: string)
    requires OneLine(key)
    ensures OneLine(Arrow(key))
  {
    if key != "" {
      ArrowOneLine(key[1..]);
    }
  }

  lemma {:induction false} JoinOneLine(parts: seq<string>)
    requires forall p | p in parts :: OneLine(p)
    ensures OneLine(Join(SEPARATOR, parts))
  {
    if parts != [] {
      assert parts[0] in parts;
      JoinOneLine(parts[1..]);
    }
  }

  lemma NumberOneLine(n: nat)
    ensures OneLine(NatToString(n))
  {}

  lemma PairTextOneLine(keys: seq<string>, limit: int)
    requires forall k | k in keys :: OneLine(k)
    ensures OneLine(PairText(keys, limit))
  {
    hide Join, Arrow, LastSeparator, NatToString;
    forall p | p in Arrows(keys) ensures OneLine(p) {
      var i :| 0 <= i < |keys| && p == Arrow(keys[i]);
      ArrowOneLine(keys[i]);
    }
    JoinOneLine(Arrows(keys));
    NumberOneLine(|keys|);
  }

  lemma ClearedPhrasesOneLine()
    ensures OneLine(ALL_CLEARED) && OneLine(RECORDED_BY) && OneLine(FOR_PIDS)
  {}

  lemma ReviewPhraseOneLine()
    ensures OneLine(ACTION) && OneLine(REVIEW)
  {}

  lemma StormPhrasesOneLine()
    ensures OneLine(DETECTED)
  {}

  lemma RepeatPhrasesOneLine()
    ensures OneLine(NOT_REPEATED) && OneLine(UNTIL_CLEAR)
  {}

  lemma ShortTextsOneLine(s: Summary)
    ensures OneLine(StateText(s)) && OneLine(StatusText(s)) && OneLine(EventText(s)) && OneLine(ReasonText(s))
  {}

  lemma KilledTextOneLine(s: Summary)
    ensures OneLine(KilledText(s))
  {
    hide PairText;
    var pids := seq(|s.killedPids|, i requires 0 <= i < |s.killedPids| => IntToString(s.killedPids[i]));
    forall k | k in pids ensures OneLine(k) {
      var i :| 0 <= i < |pids| && pids[i] == k;
    }
    PairTextOneLine(pids, 600);
  }

  lemma MessageOneLine(s: Summary)
    requires OneLineInputs(s)
    ensures OneLine(MessageText(s))
  {
    hide PairText, NatToString, KilledText, ALL_CLEARED, RECORDED_BY, FOR_PIDS, DETECTED, NOT_REPEATED, UNTIL_CLEAR,
         ACTION, REVIEW;
    ClearedPhrasesOneLine();
    ReviewPhraseOneLine();
    StormPhrasesOneLine();
    RepeatPhrasesOneLine();
    KilledTextOneLine(s);
    PairTextOneLine(s.operators, 1200);
    NumberOneLine(|s.activeKeys|);
  }

  lemma SummaryKeysPlain(s: Summary)
    ensures PlainKeys(SummaryLines(s))
  {
    hide Name, Value;
    var lines := SummaryLines(s);
    forall i, j | 0 <= i < j < 16 ensures lines[i].key != lines[j].key {
      if Name(LABELS[i]) == Name(LABELS[j]) {
        NamesDistinct(LABELS[i], LABELS[j]);
      }
    }
    forall l | l in lines ensures ':' !in l.key && '\n' !in l.key {
      var i :| 0 <= i < 16 && lines[i] == l;
      NameHasNoColon(LABELS[i]);
      NameIsOneLine(LABELS[i]);
    }
  }

  lemma ValueOneLine(l: Label, s: Summary)
    requires OneLineInputs(s)
    ensures OneLine(Value(l, s))
  {
    hide PairText, NatToString, MessageText, StateText, StatusText, EventText, ReasonText;
    ShortTextsOneLine(s);
    MessageOneLine(s);
    PairTextOneLine(s.activeKeys, 3200);
    PairTextOneLine(s.clearedKeys, 3200);
    PairTextOneLine(s.operators, 1200);
    NumberOneLine(|s.activeKeys|);
    NumberOneLine(|s.clearedKeys|);
    NumberOneLine(s.previousCount);
  }

  lemma SummaryValuesOneLine(s: Summary)
    requires OneLineInputs(s)
    ensures OneLineValues(SummaryLines(s))
  {
    hide Name, Value;
    var lines := SummaryLines(s);
    forall l | l in lines ensures '\n' !in l.value {
      var i :| 0 <= i < 16 && lines[i] == l;
      ValueOneLine(LABELS[i], s);
    }
  }

  /** Every field of the message is found again under its key. */
  lemma SummaryFieldsRecovered(s: Summary, l: Label)
    requires OneLineInputs(s)
    ensures Name(l) in Parse(Print(SummaryLines(s))) && Parse(Print(SummaryLines(s)))[Name(l)] == Value(l, s)
  {
    hide Name, Value, Parse, Print, PlainKeys, OneLineValues;
    SummaryKeysPlain(s);
    SummaryValuesOneLine(s);
    RoundTripIffOneLineValues(SummaryLines(s));
    LabelListed(s, l);
  }

  function Position(l: Label): (i: nat)
    ensures i < 16 && LABELS[i] == l
  {
    match l
    case HealthGrid => 0
    case Status => 1
    case AlertEvent => 2
    case Database => 3
    case Region => 4
    case ActiveLocks => 5
    case ActivePairs => 6
    case ClearedCount => 7
    case ClearedPairs => 8
    case Reason => 9
    case ClearedBy => 10
    case PreviouslyActive => 11
    case FirstObserved => 12
    case LastObserved => 13
    case SentAt => 14
    case Message => 15
  }

  lemma LabelListed(s: Summary, l: Label)
    ensures Line(Name(l), Value(l, s)) in SummaryLines(s)
  {
    hide Name, Value;
    var i := Position(l);
    assert SummaryLines(s)[i] == Line(Name(l), Value(l, s));
  }

  lemma SummaryIsNoOtherCard(s: Summary)
    ensures StateText(s) != "TEST NOTIFICATION" && StateText(s) != "WEEKLY LOCK REPORT"
    ensures StatusText(s) == "CLEARED" <==> s.event == Cleared
  {
    assert |StateText(s)| != 17 && |StateText(s)| != 18;
  }

  /** Every fact on the card is the value that was put into the message. */
  lemma CardShowsSummary(s: Summary)
    requires OneLineInputs(s)
    ensures var card := CardOf(Parse(Print(SummaryLines(s))));
            && card.title == (if s.event == Cleared then "All locks cleared" else "Database locks still active")
            && card.statusMessage == MessageText(s)
            && |card.facts| == FACT_COUNT
            && forall i | 0 <= i < FACT_COUNT :: card.facts[i] == Line(FactAt(i).title, Value(FactAt(i).field, s))
  {
    hide Name, Value, Parse, Print, StateText, StatusText, MessageText, SummaryLines;
    forall l: Label, default: string
      ensures Get(Parse(Print(SummaryLines(s))), Name(l), default) == Value(l, s)
    {
      SummaryFieldsRecovered(s, l);
    }
    SummaryIsNoOtherCard(s);
    HeadValues(s);
  }

  // ---- the weekly report's message ----

  /** What `_weekly_report_message` is given; `signedUrl` says whether there is a report URL. */
  datatype Report = Report(scope: string, fileName: string, rowCount: nat, signedUrl: bool, generatedAt: string)

  const BY_POWER_AUTOMATE: string := "Power Automate "
  const DOWNLOADS: string := "downloads the signed "
  const REPORT_URL: string := "report URL"
  const CREATES: string := "creates the file from "
  const CSV_CONTENT: string := "csv_content"
  const WEEKLY: string := "Weekly blocked/blocking "
  const HISTORY: string := "lock history is ready "
  const FOR_ONEDRIVE: string := "for OneDrive."

  function DeliveryText(r: Report): string {
    BY_POWER_AUTOMATE + if r.signedUrl then DOWNLOADS + REPORT_URL else CREATES + CSV_CONTENT
  }

  function ReadyText(): string { WEEKLY + HISTORY + FOR_ONEDRIVE }

  /** The key of line i. */
  function ReportKey(i: nat): string
    requires i < 9
  {
    match i
    case 0 => Name(HealthGrid)
    case 1 => Name(Status)
    case 2 => Name(Database)
    case 3 => Name(Region)
    case 4 => "Report rows"
    case 5 => "File name"
    case 6 => "Delivery"
    case 7 => "Generated at"
    case 8 => Name(Message)
  }

  function ReportValue(i: nat, r: Report): string
    requires i < 9
  {
    match i
    case 0 => "WEEKLY LOCK REPORT"
    case 1 => "REPORT READY"
    case 2 => r.scope
    case 3 => "—"
    case 4 => NatToString(r.rowCount)
    case 5 => r.fileName
    case 6 => DeliveryText(r)
    case 7 => r.generatedAt
    case 8 => ReadyText()
  }

  /** `_weekly_report_message`, before joining. */
  function ReportLines(r: Report): seq<Line> {
    seq(9, i requires 0 <= i < 9 => Line(ReportKey(i), ReportValue(i, r)))
  }

  lemma NewKeysPlain()
    ensures ':' !in "Report rows" && '\n' !in "Report rows"
    ensures ':' !in "File name" && '\n' !in "File name"
    ensures ':' !in "Delivery" && '\n' !in "Delivery"
    ensures ':' !in "Generated at" && '\n' !in "Generated at"
  {}

  lemma ReportKeyPlain(i: nat)
    requires i < 9
    ensures ':' !in ReportKey(i) && '\n' !in ReportKey(i)
  {
    hide Name;
    var l := match i case 0 => HealthGrid case 1 => Status case 2 => Database case 3 => Region case _ => Message;
    NameHasNoColon(l);
    NameIsOneLine(l);
    NewKeysPlain();
  }

  /** Length and first two letters tell the keys apart. */
  function KeyShape(i: nat): (nat, char, char) {
    match i
    case 0 => (10, 'H', 'e')
    case 1 => (6, 'S', 't')
    case 2 => (8, 'D', 'a')
    case 3 => (6, 'R', 'e')
    case 4 => (11, 'R', 'e')
    case 5 => (9, 'F', 'i')
    case 6 => (8, 'D', 'e')
    case 7 => (12, 'G', 'e')
    case _ => (7, 'M', 'e')
  }

  lemma ReportKeyShape(i: nat)
    requires i < 9
    ensures |ReportKey(i)| == KeyShape(i).0 && ReportKey(i)[0] == KeyShape(i).1 && ReportKey(i)[1] == KeyShape(i).2
  {}

  lemma ReportKeysPlain(r: Report)
    ensures PlainKeys(ReportLines(r))
  {
    hide ReportKey, ReportValue;
    var lines := ReportLines(r);
    forall i, j | 0 <= i < j < 9 ensures lines[i].key != lines[j].key {
      ReportKeyShape(i);
      ReportKeyShape(j);
    }
    forall l | l in lines ensures ':' !in l.key && '\n' !in l.key {
      var i :| 0 <= i < 9 && lines[i] == l;
      ReportKeyPlain(i);
    }
  }

  lemma DownloadTextOneLine()
    ensures OneLine(BY_POWER_AUTOMATE) && OneLine(DOWNLOADS) && OneLine(REPORT_URL)
  {}

  lemma CreateTextOneLine()
    ensures OneLine(CREATES) && OneLine(CSV_CONTENT)
  {}

  lemma ReadyTextOneLine()
    ensures OneLine(WEEKLY) && OneLine(HISTORY) && OneLine(FOR_ONEDRIVE)
  {}

  lemma ReportHeadOneLine()
    ensures OneLine("WEEKLY LOCK REPORT") && OneLine("REPORT READY")
  {}

  lemma ReportValuesOneLine(r: Report)
    requires OneLine(r.scope) && OneLine(r.fileName) && OneLine(r.generatedAt)
    ensures OneLineValues(ReportLines(r))
  {
    hide ReportKey, NatToString, BY_POWER_AUTOMATE, DOWNLOADS, REPORT_URL, CREATES, CSV_CONTENT, WEEKLY, HISTORY,
         FOR_ONEDRIVE;
    DownloadTextOneLine();
    CreateTextOneLine();
    ReadyTextOneLine();
    ReportHeadOneLine();
    NumberOneLine(r.rowCount);
    var lines := ReportLines(r);
    forall l | l in lines ensures '\n' !in l.value {
      var i :| 0 <= i < 9 && lines[i] == l;
    }
  }

  ghost predicate Holds(values: map<string, string>, i: nat, r: Report)
    requires i < 9
  {
    ReportKey(i) in values && values[ReportKey(i)] == ReportValue(i, r)
  }

  lemma ReportFieldRecovered(r: Report, i: nat)
    requires OneLine(r.scope) && OneLine(r.fileName) && OneLine(r.generatedAt) && i < 9
    ensures Holds(Parse(Print(ReportLines(r))), i, r)
  {
    hide ReportKey, ReportValue, Parse, Print, PlainKeys, OneLineValues;
    ReportKeysPlain(r);
    ReportValuesOneLine(r);
    RoundTripIffOneLineValues(ReportLines(r));
    assert ReportLines(r)[i] == Line(ReportKey(i), ReportValue(i, r));
  }

  /** The report's card shows what was put into its message. */
  lemma CardShowsReport(r: Report)
    requires OneLine(r.scope) && OneLine(r.fileName) && OneLine(r.generatedAt)
    ensures var card := CardOf(Parse(Print(ReportLines(r))));
            && card.title == "Weekly lock report" && card.statusMessage == ReadyText()
            && DeliveryText(r) == BY_POWER_AUTOMATE
               + (if r.signedUrl then DOWNLOADS + REPORT_URL else CREATES + CSV_CONTENT)
            && |card.facts| == FACT_COUNT + 3
            && card.facts[..3] == [Line("Status", "REPORT READY"), Line("Database", r.scope), Line("Region", "—")]
            && card.facts[FACT_COUNT..] == [Line("Report rows", NatToString(r.rowCount)), Line("File name", r.fileName),
                                         Line("Delivery", DeliveryText(r))]
  {
    hide Parse, Print, DeliveryText, ReadyText, NatToString, Name, ReportLines, Holds;
    var values := Parse(Print(ReportLines(r)));
    forall i: nat | i < 9 ensures Holds(values, i, r) {
      ReportFieldRecovered(r, i);
    }
    ReportFields(r, values);
    DeliveryWords(r);
  }

  lemma DeliveryWords(r: Report)
    ensures DeliveryText(r) == BY_POWER_AUTOMATE
              + (if r.signedUrl then DOWNLOADS + REPORT_URL else CREATES + CSV_CONTENT)
  {}

  lemma ReportFields(r: Report, values: map<string, string>)
    requires forall i: nat | i < 9 :: Holds(values, i, r)
    ensures Get(values, Name(HealthGrid), "") == "WEEKLY LOCK REPORT"
    ensures Get(values, Name(Status), "—") == "REPORT READY" && Get(values, Name(Database), "—") == r.scope
    ensures Get(values, Name(Region), "—") == "—" && Get(values, Name(Message), "—") == ReadyText()
    ensures ReportFacts(values) == [Line("Report rows", NatToString(r.rowCount)), Line("File name", r.fileName),
                                    Line("Delivery", DeliveryText(r))]
  {
    hide Name, DeliveryText, ReadyText, NatToString;
    assert Holds(values, 0, r) && Holds(values, 1, r) && Holds(values, 2, r) && Holds(values, 3, r);
    assert Holds(values, 4, r) && Holds(values, 5, r) && Holds(values, 6, r) && Holds(values, 8, r);
  }

  /** The facts in terms of what the summary was given: counts, pair lists, names and
      times each under their own title, and the words for the event. */
  lemma FactsOfSummary(s: Summary)
    requires OneLineInputs(s)
    ensures var facts := CardOf(Parse(Print(SummaryLines(s)))).facts;
            && facts[0] == Line("Status", if s.event == Cleared then "CLEARED" else "ACTIVE")
            && facts[1] == Line("Database", s.name + " (" + s.identifier + ")")
            && facts[2] == Line("Region", s.region)
            && facts[3] == Line("Active locks", NatToString(|s.activeKeys|))
            && facts[4] == Line("Active PID pairs", PairText(s.activeKeys, 3200))
            && facts[5] == Line("Cleared since previous", NatToString(|s.clearedKeys|))
            && facts[6] == Line("Cleared PID pairs", PairText(s.clearedKeys, 3200))
            && facts[7] == Line("Clear reason", if s.manual then "MANUALLY KILLED" else if s.anyCleared
               then "AUTO-CLEARED" else "—")
            && facts[8] == Line("Cleared by", PairText(s.operators, 1200))
            && facts[10] == Line("First observed", s.firstSeen)
            && facts[11] == Line("Last observed", s.lastSeen)
            && facts[12] == Line("Sent at", s.sentAt)
            && facts[13] == Line("Previously active", NatToString(s.previousCount))
            && facts[9] == Line("Alert event",
                                match s.event
                                case Initial => "INITIAL SUMMARY"
                                case Update => "ACTIVE SUMMARY UPDATE"
                                case Cleared => "ALL LOCKS CLEARED"
                                case Storm => "LOCK STORM DETECTED")
  {
    hide Name, PairText, NatToString, CardOf, SummaryLines, Parse, Print, Value;
    CardShowsSummary(s);
    PlainValues(s);
    WordValues(s);
  }

  lemma PlainValues(s: Summary)
    ensures Value(Database, s) == s.name + " (" + s.identifier + ")" && Value(Region, s) == s.region
    ensures Value(ActiveLocks, s) == NatToString(|s.activeKeys|)
              && Value(ActivePairs, s) == PairText(s.activeKeys, 3200)
    ensures Value(ClearedCount, s) == NatToString(|s.clearedKeys|)
    ensures Value(ClearedPairs, s) == PairText(s.clearedKeys, 3200)
    ensures Value(ClearedBy, s) == PairText(s.operators, 1200)
    ensures Value(PreviouslyActive, s) == NatToString(s.previousCount)
    ensures Value(FirstObserved, s) == s.firstSeen && Value(LastObserved, s) == s.lastSeen
              && Value(SentAt, s) == s.sentAt
  {
    hide PairText, NatToString;
  }

  /** The first line of the message names its kind. */
  lemma StateValue(s: Summary)
    ensures Value(HealthGrid, s) ==
              match s.event
              case Cleared => "LOCK SUMMARY CLEARED"
              case Storm => "LOCK STORM"
              case Initial => "LOCK SUMMARY"
              case Update => "LOCK SUMMARY"
  {}

  lemma WordValues(s: Summary)
    ensures Value(Status, s) == if s.event == Cleared then "CLEARED" else "ACTIVE"
    ensures Value(Reason, s) == if s.manual then "MANUALLY KILLED" else if s.anyCleared then "AUTO-CLEARED" else "—"
    ensures Value(AlertEvent, s) ==
              match s.event
              case Initial => "INITIAL SUMMARY"
              case Update => "ACTIVE SUMMARY UPDATE"
              case Cleared => "ALL LOCKS CLEARED"
              case Storm => "LOCK STORM DETECTED"
  {}

  /** The message of a summary with active locks starts with their number; that of a
      cleared one names the operators and PIDs of manual kills, or says that there were none. */
  lemma MessageTells(s: Summary)
    ensures s.event != Cleared ==> NatToString(|s.activeKeys|) <= MessageText(s)
    ensures s.event == Cleared && s.manual ==>
              MessageText(s) == ALL_CLEARED + "." + RECORDED_BY + PairText(s.operators, 1200) + FOR_PIDS
                  + KilledText(s) + "."
    ensures s.event == Cleared && !s.manual ==> MessageText(s) == ALL_CLEARED + " automatically."
    ensures s.event == Storm ==>
              MessageText(s) == NatToString(|s.activeKeys|) + DETECTED + ACTION + REVIEW + "s." + NOT_REPEATED
                  + UNTIL_CLEAR
    ensures (s.event == Initial || s.event == Update) && |s.activeKeys| == 1 ==>
              MessageText(s) == "1 lock is still active." + ACTION + REVIEW + "."
    ensures (s.event == Initial || s.event == Update) && |s.activeKeys| != 1 ==>
              MessageText(s) == NatToString(|s.activeKeys|) + " locks are still active." + ACTION + REVIEW + "s."
  {
    hide PairText, KilledText, ALL_CLEARED, RECORDED_BY, FOR_PIDS, DETECTED, NOT_REPEATED, UNTIL_CLEAR, ACTION, REVIEW;
    assert NatToString(1) == "1";
  }

  // ---- the test notification ----

  /** The message of `send_test_notification`, before joining. */
  function TestLines(destination: string): seq<Line> {
    [ Line(Name(HealthGrid), "TEST NOTIFICATION"), Line("Destination", destination),
      Line(Name(Status), "Delivery successful") ]
  }

  lemma TestTextsPlain()
    ensures ':' !in "Destination" && '\n' !in "Destination" && |"Destination"| == 11
    ensures OneLine("TEST NOTIFICATION") && OneLine("Delivery successful")
    ensures |"TEST NOTIFICATION"| == 17 && |"WEEKLY LOCK REPORT"| == 18
  {}

  /** A test card is titled as such and shows the delivery as its status. */
  lemma CardShowsTest(destination: string)
    requires OneLine(destination)
    ensures var card := CardOf(Parse(Print(TestLines(destination))));
            card.title == "Teams notification test" && |card.facts| == FACT_COUNT
            && card.facts[0] == Line("Status", "Delivery successful")
  {
    hide Parse, Print, Name, FactAt;
    var lines := TestLines(destination);
    TestLinesPlain(destination);
    RoundTripIffOneLineValues(lines);
    assert lines[0] in lines && lines[2] in lines;
    TestTextsPlain();
    assert FactAt(0) == Fact("Status", Status, "—") by { StatusFact(); }
  }

  lemma StatusFact()
    ensures FactAt(0) == Fact("Status", Status, "—")
  {}

  lemma TestLinesPlain(destination: string)
    requires OneLine(destination)
    ensures PlainKeys(TestLines(destination)) && OneLineValues(TestLines(destination))
  {
    hide Name;
    TestTextsPlain();
    NameShape(HealthGrid);
    NameShape(Status);
    NameHasNoColon(HealthGrid);
    NameHasNoColon(Status);
    NameIsOneLine(HealthGrid);
    NameIsOneLine(Status);
  }

  lemma HeadValues(s: Summary)
    ensures Value(HealthGrid, s) == StateText(s) && Value(Status, s) == StatusText(s)
              && Value(Message, s) == MessageText(s)
  {}
}
