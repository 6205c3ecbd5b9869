# HealthGrid lock monitor: a verified model

HealthGrid watches databases for blocked sessions, keeps one incident per
blocked/blocking PID pair, and sends cards about them. This project models its
monitor and proves what the incident table, the cards, the lease, the reports
and the access tables say over whole runs.

`dafny verify dfyconfig.toml` checks everything (Dafny 4.11).

| file | what it models |
|---|---|
| Models.dfy, Text.dfy, Wrappers.dfy | the shared records, keys and fingerprints; printing, joining, splitting, sorting |
| Incidents.dfy | the incident table and its relation to the history of checks |
| NotificationWindow.dfy | the daily delivery window |
| LockNotifications.dfy | the per-database notification state and the cards of whole runs |
| MonitorCycle.dfy | one check end to end, runs of checks on many databases, and delivery to webhooks |
| ManualKills.dfy | kills by operators interleaved with the monitor's updates |
| LongQueries.dfy | long manual queries and their cards |
| LongQueryRaces.dfy | the same when several pollers check a database at once |
| MonitorLease.dfy | the lease between workers |
| IsoCalendar.dfy, WeeklyReport.dfy | ISO weeks, and the weekly report's schedule |
| Retention.dfy | cleanup, and what reports can see of it |
| Cards.dfy | the message text, its parsing into a card, and shortened pair lists |
| KeyMigration.dfy | the migration that merges duplicate active incidents |
| Access.dfy | permission checks and user management |

How to read it. Code that changes rows is a class whose methods are proved
equal to a pure step function; the run theorems are about sequences of such
steps. The inputs of a step (query results, clock readings, settings, whether a
delivery gets through) are arbitrary, so a theorem covers every setting change
and every failure pattern, unless it names a setting it keeps fixed. A check of one database may be interleaved with
checks of others, with kills, and, in the notification section and the
long-query part, with other pollers.

Idealizations. SHA-256 is a collision-free function whose digest is never
blank, and `str.casefold` is any function on strings. A database row lock and a
transaction make a step atomic. Instants are whole microseconds. Missing text
and empty text, and a missing and a zero wait, are one value each, as the
code's `or` makes them.

Points where the code does something a reader may not expect:

- A cycle in quiet hours replaces the stored list without a card. A pair the
  receiver holds as active and that is gone by then is not reported as
  cleared any more, whether it cleared in quiet hours or before them with its card lost
  (`ClearedPairForgotten`); a pair that came in quiet hours and is gone after
  them is reported as cleared although nobody heard of it
  (`UnknownPairCleared`), and the first card about it may be an update
  (`UpdateWithoutInitial`). `LedgerOfEveryRun` says for all runs exactly which
  pairs the receiver wrongly holds and which it lacks.
- A storm card replaces the stored list too. Pairs reported earlier that are
  gone by then are not reported as cleared any more (`StormForgetsPair`, `LedgerExact`).
  A storm that ends in quiet hours stays in force until an open check sees no lock.
- The card about long queries lists the first twenty records it is handed, while
  all of them are marked as alerted. The others, which the card only counts, are
  on no card ever (`AllShownIffAtMostTwenty`, `TooManyForTheCard`).
- The long-query part holds no lock from finding a record to marking it, so two
  overlapping checks, for example after a lease has run out during a long one,
  can both send a card about it (`TwoPollersSendTwice`; `TwiceIffOvertaken` says
  exactly when).
- The key of a long query identifies it only if no text in it has a NUL
  (`KeyIdentifiesExecution`, `ConfusedKey`).
- The code would accept a retention below seven days, and then cleanup could
  change a report (`InvisibleIffSevenDays`, `ShortRetentionShows`); the settings form refuses it.
- A field with a newline in it would break the card (`RoundTripIffOneLineValues`).
- For an inactive account the list view may list instances that the
  per-instance check refuses (`ListAgreesWithCheck`, `InactiveAccountListed`).
  Django's default sign-in backend does not load inactive accounts, so no
  request reaches this case.
- An upgrade to operator turns every grant of the account into an operator
  grant, including grants that were read-only before (`UpgradeMakesEveryGrantOperator`).

## Model

| member | source | states |
|---|---|---|
| Models.LockKeyInjective | monitor/management/commands/monitor_locks.py:17-21 | distinct PID pairs print to distinct alert keys |
| Models.FingerprintCanonical | monitor/management/commands/monitor_locks.py:37-42 | two duplicate-free key lists have the same summary fingerprint if and only if they hold the same set of keys, whatever their order |
| Text.LeIsByCodePoint | monitor/management/commands/monitor_locks.py:37-42 | key lists are sorted by code point at the first difference, a prefix coming first |
| Incidents.CollapseRepresents | monitor/management/commands/monitor_locks.py:164-171 | collapsing loses and invents no pair: each pair reported is kept once, as the first of its rows with the longest wait |
| Incidents.CollapseRows | monitor/management/commands/monitor_locks.py:164-171 | the collapsing loop computes that snapshot |
| Incidents.UpsertAllEffect | monitor/management/commands/monitor_locks.py:123-155 | after the upsert loop every handled pair has exactly one active row; existing rows of handled pairs are refreshed, all others are unchanged, and new rows are only for pairs without an active one |
| Incidents.CheckEffect | monitor/management/commands/monitor_locks.py:116-190 | one check, row by row: active rows of the database are refreshed if seen and resolved with a reason if not; every seen pair without an active row gets one new row |
| Incidents.IncidentTable.UpsertLockAlert | monitor/management/commands/monitor_locks.py:125-154 | get-or-create, refresh and threshold latch for one pair |
| Incidents.IncidentTable.UpsertLockAlerts | monitor/management/commands/monitor_locks.py:116-155 | the whole snapshot upserted in insertion order; returns the seen keys |
| Incidents.IncidentTable.ResolveVanished | monitor/management/commands/monitor_locks.py:175-190 | afterwards the database's unresolved incidents are among those seen; the ones resolved by it are dated now and keep a kill's reason and operator, otherwise become automatic clears; no other row or column changes |
| Incidents.ClearEffect | monitor/management/commands/monitor_locks.py:175-190 | the two UPDATE statements amount to that, row by row |
| Incidents.IncidentTable.RecordCheck | monitor/management/commands/monitor_locks.py:158-190 | a check keeps the table a faithful account of the history extended by that check |
| Incidents.IncidentTable.MarkManualKill | monitor/views.py:132-142 | marks the unresolved rows of the database that involve a killed PID as blocked or as blocking, returns their number, and keeps the table a faithful account of the history |
| Incidents.KillMarksEitherPid | monitor/views.py:132-142 | a kill marks exactly the unresolved rows of that database whose blocked or blocking PID was killed, with its operator, and changes nothing else |
| Incidents.CheckRefines | monitor/management/commands/monitor_locks.py:116-190 | one check preserves the one-to-one correspondence of incidents and maximal runs of presence |
| Incidents.IncidentsRefineHistory | monitor/management/commands/monitor_locks.py:116-190 | over any run of checks and kills on any databases, incidents are exactly the maximal blocks of consecutive checks that saw the pair; first and last sighting, resolution, carried wait, texts and the alert date are those of the block |
| Incidents.ActiveIncidents | monitor/models.py:237-243 | at most one unresolved incident per database and pair, and the unresolved pairs are exactly those of the last check |
| Incidents.Chronology | monitor/management/commands/monitor_locks.py:139-154 | with a clock that does not run backwards, first seen <= alerted <= last seen <= resolved |
| NotificationWindow.WindowIsCyclicInterval | monitor/notifications.py:26-38 | day and overnight windows alike are the half-open arc from start to end on the clock face |
| NotificationWindow.QuietHoursAreTheRest | monitor/notifications.py:33-38 | exchanging start and end exchanges open and quiet hours exactly |
| NotificationWindow.WindowRepeatsDaily | monitor/notifications.py:30-38 | the window depends on the local time of day only |
| NotificationWindow.LocalTimeOfDay | monitor/notifications.py:30 | the time of day compared is that of the clock in India, five and a half hours ahead |
| LockNotifications.NotifyIsOnSets | monitor/management/commands/monitor_locks.py:203-279 | the section's decisions by fingerprints and sorted lists are those of a machine on key sets, and the stored fingerprint stays blank or the fingerprint of the stored keys |
| LockNotifications.RunKeepsInvariant | monitor/management/commands/monitor_locks.py:203-279 | that invariant holds after every run of cycles |
| LockNotifications.NextCardIffSetChanged | monitor/management/commands/monitor_locks.py:207-279 | no duplicates, exactly: after a delivered card and without a closed cycle since, the next open cycle delivers a card if and only if the eligible set differs from that card's set and delivery works, unless it has active incidents and is of storm size or a storm is in force (see StormFlagMeans) |
| LockNotifications.FreshCardAfterQuietHours | monitor/management/commands/monitor_locks.py:207-279 | after quiet hours the first delivery not held back by a storm reports what is eligible even if unchanged, compared with the last quiet cycle, and is omitted only if nothing was and is eligible |
| LockNotifications.FirstCardIffEligible | monitor/management/commands/monitor_locks.py:207-279 | a database never notified about gets an initial card as soon as something is eligible, no storm holds it back and delivery works |
| LockNotifications.CardsAccountForChange | monitor/management/commands/monitor_locks.py:229-279 | every card states what was reported before, what is active now and, except for a storm, exactly what is gone; the stored sending time is that of the latest card |
| LockNotifications.EventsFollowGrammar | monitor/management/commands/monitor_locks.py:213-279 | delivered events form a path of the two-phase automaton from the phase at the start to the phase at the end, whatever deliveries fail; each closed cycle is a silent move to the phase of what is eligible then |
| LockNotifications.UpdateWithoutInitial | monitor/management/commands/monitor_locks.py:213-220 | such a move can make an update the first card about a pair: an input |
| LockNotifications.StormFlagMeans | monitor/management/commands/monitor_locks.py:222-248 | the stored flag is set exactly from a delivered storm card to the first open cycle without active incidents |
| LockNotifications.StormCardIff | monitor/management/commands/monitor_locks.py:227-248 | a cycle delivers a storm card if and only if it is open, as many incidents are active as a nonzero threshold says, no storm is in force and delivery works; it delivers nothing else while one is in force and incidents are active |
| LockNotifications.StormIsReportedOnce | monitor/management/commands/monitor_locks.py:222-248 | after a delivered storm card nothing at all is delivered before an open cycle sees zero active incidents, and between two storm cards there is such a cycle |
| LockNotifications.LedgerOfEveryRun | monitor/management/commands/monitor_locks.py:203-279 | over every run, closed cycles and storms included: a receiver folding delivered cards still holds exactly the pairs that a closed cycle or a storm card dropped and no stored list has had since, lacks exactly those that a closed cycle took in and no card has followed, and otherwise holds the stored keys; after a card it lacks none |
| LockNotifications.ClearedPairForgotten | monitor/management/commands/monitor_locks.py:213-220 | a pair that clears before quiet hours, with its card lost, is never reported as cleared: an input |
| LockNotifications.UnknownPairCleared | monitor/management/commands/monitor_locks.py:213-220 | a pair that comes in quiet hours and goes after them is reported as cleared without ever having been reported: an input |
| LockNotifications.LedgerExact | monitor/management/commands/monitor_locks.py:222-279 | in a run without closed cycles the receiver holds the stored keys and, besides, exactly the pairs a storm card left out and no later card listed |
| LockNotifications.StormForgetsPair | monitor/management/commands/monitor_locks.py:227-244 | an input at which a storm card leaves out a pair reported before it |
| LockNotifications.LedgerLossless | monitor/management/commands/monitor_locks.py:250-279 | in a run without closed cycles and with storms off the receiver holds exactly the stored keys, and the eligible set after a cycle whose delivery works |
| LockNotifications.LockNotificationState.UpdateState | monitor/management/commands/monitor_locks.py:203-279 | the in-place section changes the row, and delivers a card, as the step function of the run theorems says |
| LockNotifications.LockNotificationState.RunSection | monitor/management/commands/monitor_locks.py:203-279 | the row is at all times the result of the cycles run on it, and the card returned is that run's card |
| MonitorCycle.Deliver | monitor/notifications.py:402-424 | each configured webhook is posted to once, an excluded database's card goes to its owner only, and delivered means some webhook took the card |
| MonitorCycle.EligibleMeansThresholdMet | monitor/management/commands/monitor_locks.py:192-199 | a pair is listed exactly when the last check saw it and some check of its current run met the threshold in force then |
| MonitorCycle.LongWaitListed | monitor/management/commands/monitor_locks.py:143-154 | a pair for which the last check reports a wait at or above its threshold is over it |
| MonitorCycle.ShortWaitsNotListed | monitor/management/commands/monitor_locks.py:143-154 | a pair whose reported waits all stayed below all thresholds is not |
| MonitorCycle.ProcessInstance | monitor/management/commands/monitor_locks.py:158-279 | a failed fetch changes nothing; an error in the long-query part leaves the table advanced and the notification row as it was; otherwise table, long-query records and notification row all advance, the last fed with exactly the eligible and active pairs of the first |
| MonitorCycle.HistoryGrows | monitor/management/commands/monitor_locks.py:158-190 | a successful fetch adds to the history of its database alone what it saw, its clock reading and the configured threshold; nothing else does |
| MonitorCycle.NotificationRun | monitor/management/commands/monitor_locks.py:158-279 | in every run of checks and kills on any databases, what the section of one database was given and delivered is a run of its state machine, so all results on such runs apply |
| MonitorCycle.CardsListTheirPairs | monitor/management/commands/monitor_locks.py:158-279 | over every such run, a delivered card lists exactly the pairs the last check saw whose present run has met a threshold in force, a storm card exactly the pairs the last check saw; it goes out in the window only |
| ManualKills.ManualKillIffKilledWhileOpen | monitor/management/commands/monitor_locks.py:143-190 | under any interleaving of kills, checks, crashes and cleanups, a fully resolved row is a manual kill if and only if a kill involving one of its PIDs ran while it was unresolved, otherwise an automatic clear; its operator is that of the last such kill |
| ManualKills.AttributionIsFinal | monitor/views.py:132-142 | after a row is fully resolved its reason and operator never change; only cleanup takes it away |
| ManualKills.UninterruptedCheck | monitor/management/commands/monitor_locks.py:143-190 | the separate statements without interruption are the check of the whole-run results |
| MonitorLease.MonitorLeaseRow.TryAcquire | monitor/background.py:24-31 | the locked compare and write: refused exactly while another owner's lease is unexpired at the reading, otherwise owner and expiry are written |
| MonitorLease.GrantedIff | monitor/background.py:24-31 | in every reachable state a commit is granted if and only if there was no grant before, or the last one was the same worker's, or its expiry is at or before the reading; it then leaves the lease with that worker and the expiry it computed, and otherwise as it was |
| MonitorLease.PendingReading | monitor/background.py:21-23 | that reading is the worker's last look at the clock, and the expiry is twice the interval, or at least a minute, after it |
| MonitorLease.TenuresDisjoint | monitor/background.py:19-31 | for any number of workers, any staleness of readings and any change of the interval, tenures of different owners never overlap |
| MonitorLease.OwnedLeaseHasExpiry | monitor/background.py:26-29 | a reachable lease with an owner has an expiry, so the comparison is safe |
| MonitorLease.TimelyHolderKeepsLease | monitor/background.py:21-31 | a holder whose work from reading to renewal takes less than max(30, interval) seconds besides its sleep never loses the lease |
| MonitorLease.SleepPlusWorkFitsLease | monitor/background.py:90-105 | sleep plus that work fits into the lease length |
| MonitorLease.TakeoverAfterExpiry | monitor/background.py:24-31 | if the holder has stopped, another worker is granted the lease exactly when its reading is at or after the expiry, unless somebody was before it |
| LongQueries.KeyIdentifiesExecution | monitor/management/commands/monitor_locks.py:45-53 | the key of a long query determines session, user, start and text if and only if none of the texts contains a NUL |
| LongQueries.ConfusedKey | monitor/management/commands/monitor_locks.py:45-53 | for every execution with a NUL in a text there is another with the same key |
| LongQueries.CollectFinds | monitor/management/commands/monitor_locks.py:67-79 | the candidates are exactly the keys of the qualifying rows |
| LongQueries.CollectKeepsLast | monitor/management/commands/monitor_locks.py:67-79 | of several qualifying rows with one key the last counts, and the candidates are in the order in which their keys first appeared |
| LongQueries.TrackedIff | monitor/management/commands/monitor_locks.py:62-79 | a check tracks exactly the executions with an active row that has a user, is not of the control application, has run for the threshold and whose user is on no exclusion, all up to surrounding white space and case |
| LongQueries.CheckEffect | monitor/management/commands/monitor_locks.py:56-113 | one check: active records become the qualifying executions, alert dates are never lost, and a card goes out only if enabled, open and delivered, is handed exactly the active records not yet alerted, each once, and these are the ones marked |
| LongQueries.TimesAfterCheck | monitor/management/commands/monitor_locks.py:84-102 | an active record shows the running time of the last qualifying row with its key, or the earlier one if that row has none |
| LongQueries.NewAlertsExact | monitor/management/commands/monitor_locks.py:80-104 | the records handed over are the unalerted ones of the candidates, each once, in the candidates' order |
| LongQueries.NotifiedAtMostOnce | monitor/management/commands/monitor_locks.py:103-113 | over every run of checks, one after another, a tracked execution is handed to at most one delivered card |
| LongQueries.AlertedIffSent | monitor/management/commands/monitor_locks.py:103-113 | in such a run a record has an alert date exactly when a delivered card was handed it |
| LongQueries.RepeatedOnlyAfterAbsence | monitor/management/commands/monitor_locks.py:80-113 | two cards show the same execution key only if some check in between did not find it qualifying |
| LongQueries.RecordsAreCurrent | monitor/management/commands/monitor_locks.py:106-113 | after each check of such a run the active records are the qualifying executions, and after an open check whose delivery works each of them has been handed to exactly one delivered card |
| LongQueries.AllShownIffAtMostTwenty | monitor/notifications.py:464-481 | a card shows every execution marked by its check if and only if these are at most twenty, and one that is marked and not shown is on no card ever |
| LongQueries.TooManyForTheCard | monitor/notifications.py:464-481 | for every number above twenty, a check that marks that many and shows twenty |
| LongQueries.LongQueryTable.UpsertCandidates | monitor/management/commands/monitor_locks.py:79-104 | the loop over candidates, with the list of records still to be sent |
| LongQueries.LongQueryTable.ProcessLongQueries | monitor/management/commands/monitor_locks.py:56-113 | the in-place check does what the step of the run theorems says |
| LongQueryRaces.AlertedIffMarked | monitor/management/commands/monitor_locks.py:80-113 | under any interleaving of the separate statements of any number of pollers, crashes and cleanups, a record has an alert date exactly when some poller has marked it |
| LongQueryRaces.AlertedWasSent | monitor/management/commands/monitor_locks.py:106-113 | there, an alert date means that a delivered card had the record |
| LongQueryRaces.CardExact | monitor/management/commands/monitor_locks.py:80-113 | there, a delivered card has exactly the records its poller found in this check before anybody had marked them |
| LongQueryRaces.TwiceIffOvertaken | monitor/management/commands/monitor_locks.py:80-113 | there, a record is on two delivered cards if and only if a poller found it before it was first marked and delivers its card after another poller, or it itself in an earlier check, delivered one with that record |
| LongQueryRaces.TwoPollersSendTwice | monitor/management/commands/monitor_locks.py:80-113 | an input: two overlapping checks send the same execution, the second after the first has marked it |
| LongQueryRaces.UninterruptedCheck | monitor/management/commands/monitor_locks.py:56-113 | the separate statements without interruption are the check of the sequential results, with the same card |
| IsoCalendar.WeekOneHoldsJanuaryFourth | monitor/background.py:54 | the week numbering used is that of ISO 8601-1: week 1 holds 4 January, numbers run from 1 to 53 |
| IsoCalendar.SameIsoWeekIffSameMonday | monitor/background.py:54-58 | equal (year, week) keys mean the same Monday-started week, and conversely, also across New Year |
| IsoCalendar.LeapYears | monitor/background.py:54 | a year has 366 days exactly if it is divisible by 4 and not by 100, or by 400 |
| IsoCalendar.ConsecutiveWeeks | monitor/background.py:54 | the next week has the next number, or number 1 of the next year after week 52 or 53 |
| WeeklyReport.ReportSchedule.MaybeSendWeeklyReport | monitor/background.py:44-64 | sends when enabled, in the slot and not yet sent in this ISO week; only a success is recorded |
| WeeklyReport.LocalClock | monitor/background.py:50-54 | local day and hour are those of the instant in India, counted from Thursday, 1 January 1970 |
| WeeklyReport.AtMostOncePerWeek | monitor/background.py:44-64 | two successful sendings never fall in one ISO week of local time, and each is made while the report is on, on the configured weekday at or after the configured hour |
| WeeklyReport.SentIffFirstDeliveryOfWeek | monitor/background.py:44-64 | a poll sends exactly when the report is on, it is the configured weekday, the configured hour or later, delivery works and nothing was sent earlier that week, so a failure leaves the week due |
| Retention.HistoryStore.CleanupMonitorHistory | monitor/background.py:67-87 | rows before are rows after plus the counts returned |
| Retention.CleanupRemovesExactly | monitor/background.py:67-86 | at most once in 24 hours cleanup removes exactly the incidents and long queries resolved before the cutoff and the expired reports; everything else, all active rows included, stays unchanged |
| Retention.StepIgnoresResolved | monitor/management/commands/monitor_locks.py:116-190 | a check or kill does the same with and without resolved rows in the table |
| Retention.StepDated | monitor/management/commands/monitor_locks.py:116-190 | checks and kills keep every incident's dates in order and not after the clock |
| Retention.ReportCoversTheWeek | monitor/notifications.py:254-267 | with dates in order, a report's rows are exactly the incidents of the database asked for, if one is, whose lifetime touches the seven days before it, unresolved ones included, as stored |
| Retention.ReportSelects | monitor/notifications.py:254-267 | whatever the dates, a report's rows are those seen by now and first seen, last seen or resolved within seven days |
| Retention.CleanupInvisibleToReports | monitor/notifications.py:254-267 | with retention of at least seven days and a monotone clock, every report at or after a run has the rows it would have without any cleanup in that run |
| Retention.InvisibleIffSevenDays | monitor/views.py:333-334 | seven days is exactly the least retention with which no run's cleanups can be seen in a report |
| Retention.ShortRetentionShows | monitor/background.py:71-79 | for every shorter retention, a run whose cleanup removes an incident from the next report |
| Retention.NothingOutstaysRetention | monitor/background.py:71-86 | when cleanup was last invoked at most g ago, no incident and no long query resolved longer ago than retention + 24 h + g is left, and no report that expired longer ago than 24 h + g; the retention is the longest that was ever set |
| Cards.PairTextFits | monitor/notifications.py:61-67 | the pair text never exceeds its limit |
| Cards.PairTextWhole | monitor/notifications.py:61-65 | a text within the limit shows all pairs, and a dash if there are none |
| Cards.PairTextShowsWholePairs | monitor/notifications.py:61-67 | a text that is cut shows a non-empty prefix of whole pairs, then the total |
| Cards.LockPairsShownWhole | monitor/notifications.py:61-67 | for PID-pair keys this holds at every limit from 58 characters |
| Cards.RoundTripIffOneLineValues | monitor/notifications.py:140-146 | parsing the printed lines recovers every field if and only if no value contains a newline; colons do no harm |
| Cards.SplitAtFirst | monitor/notifications.py:143-146 | any line is split at its first ": " and skipped if it has none |
| Cards.CardShowsSummary | monitor/notifications.py:99-201 | title, status message and every fact of the card are the values put into the message |
| Cards.FactsOfSummary | monitor/notifications.py:70-117 | in terms of what the summary was given: counts, pair lists, names and times each under their own title, and the words for event, status and reason |
| Cards.MessageTells | monitor/notifications.py:88-98 | the message starts with the number of active locks, or names operators and PIDs of manual kills, or says that all cleared automatically |
| Cards.CardShowsReport | monitor/notifications.py:307-319 | a weekly report's card shows the scope, row count, file name and delivery put into its message |
| Cards.CardShowsTest | monitor/notifications.py:392-400 | a test card is titled as such and shows the delivery as its status |
| Cards.AdaptiveCard | monitor/notifications.py:140-208 | the parsing loop builds the card from the parsed values, for a weekly report with its three further facts |
| KeyMigration.Query | monitor/migrations/0012_normalize_active_lock_alerts.py:7 | the unresolved rows, each once, by first sighting and then by id |
| KeyMigration.LegacyTable.NormalizeActiveAlertKeys | monitor/migrations/0012_normalize_active_lock_alerts.py:5-37 | the in-place loop computes the table of the following results |
| KeyMigration.MergeAllExtremes | monitor/migrations/0012_normalize_active_lock_alerts.py:21-32 | merging a group in order yields its latest sighting, longest wait, highest count, earliest alert and last non-empty texts |
| KeyMigration.GroupMembers | monitor/migrations/0012_normalize_active_lock_alerts.py:7-13 | an incident's group are the unresolved incidents of its database with its blocked and its blocking PID, oldest first, then by id |
| KeyMigration.MigrationLeavesOnePerGroup | monitor/migrations/0012_normalize_active_lock_alerts.py:5-37 | one unresolved incident is left per group, the oldest, with the key "blocked:blocking" and the merged details, otherwise as it was; resolved rows are untouched |
| KeyMigration.ConstraintHolds | monitor/migrations/0012_normalize_active_lock_alerts.py:47-54 | the unique constraint on unresolved incidents holds afterwards |
| KeyMigration.MigrationIsIdempotent | monitor/migrations/0012_normalize_active_lock_alerts.py:5-37 | running it again changes nothing |
| Access.ListAgreesWithCheck | monitor/permissions.py:59-66 | for active accounts the list holds an active instance exactly when the per-instance check allows viewing it; for an inactive one they agree only if no instance is active, or it is limited to its grants and has none on an active instance |
| Access.InactiveAccountListed | monitor/permissions.py:59-66 | an input at which they differ |
| Access.InstanceRights | monitor/permissions.py:6-43 | who may view, operate and manage the webhook of an instance, in terms of the records, accounts from before per-instance access included |
| Access.SharedRights | monitor/permissions.py:46-56 | who may manage global notifications and drop or terminate slots, in terms of the records |
| Access.CapabilitiesStayStaffs | monitor/views.py:382-507 | over every sequence of actions, operator grants and owner-webhook, global-notification and slot flags belong to staff accounts |
| Access.DowngradeTakesAll | monitor/views.py:395-409 | a downgrade takes operating, webhook, global-notification and slot rights away on every instance |
| Access.UpgradeRestoresNoFlags | monitor/views.py:403-409 | after a downgrade owner-webhook and slot flags stay off through any later actions that do not set them anew |
| Access.UpgradeMakesEveryGrantOperator | monitor/views.py:403-407 | an upgrade makes the account operator on exactly the instances it has a grant on, read-only grants included |
| Access.FlagsOffMeansNoRights | monitor/permissions.py:29-43 | with those flags off the account has neither webhook nor slot rights |
| Access.InstanceUpdateTakesEffect | monitor/views.py:432-451 | a permitted per-instance update gives exactly the chosen roles on the active instances and none elsewhere, with webhook rights only beside an operator role |
| Access.OthersKeepTheirRights | monitor/views.py:386-507 | an action changes the rights of no account but the one it is about |
| Access.RoleUpdateWrites | monitor/views.py:386-409 | when a role update is refused, and everything it writes |
| Access.SlotUpdateWrites | monitor/views.py:412-421 | when a slot update is refused, and what it writes |
| Access.InstanceUpdateWrites | monitor/views.py:424-451 | when a per-instance update is refused, and the grants it leaves |
| Access.CreationWrites | monitor/views.py:456-505 | when an account creation is refused, and everything it writes |
| Access.AccessTables.UpdateUserRole | monitor/views.py:386-409 | the role action on the tables, refused for administrators and unknown roles |
| Access.AccessTables.UpdateSlotAccess | monitor/views.py:412-421 | the slot action, refused for accounts that are not operators |
| Access.AccessTables.UpdateInstanceAccess | monitor/views.py:424-451 | the per-instance action: all grants replaced, or nothing changed if a choice is forbidden |
| Access.AccessTables.CreateAccount | monitor/views.py:456-505 | account creation with its grants, or nothing changed |

## Left out

- Incidents.IncidentsRefineHistory: covers runs without cleanup, which only takes resolved rows away (Retention.StepIgnoresResolved, Retention.CleanupRemovesExactly); several pollers checking the same database at once are covered for the notification section and for attribution, not for the dates of incidents.
- LongQueries.NotifiedAtMostOnce: for checks one after another; overlapping ones are in LongQueryRaces, which says when this fails.
- MonitorCycle.ProcessInstance: runs the check's statements without interruption; interleavings are treated in LockNotifications and ManualKills. An error in the long-query part comes before its first write; one between two of its writes, and a crash after a delivery and before the commit that records it, which would repeat a card, are not modelled.
- Access.CapabilitiesStayStaffs: actions are atomic and in sequence; two administrators acting on one account at the same moment are not modelled. Account names stand for account ids.
- MonitorLease.TimelyHolderKeepsLease: clocks of all workers agree; mutual exclusion itself needs only that each worker's clock does not run backwards.
- Cards.CardShowsSummary: timestamps are taken as formatted text, the cleared incidents as the operators and PIDs that the message names; the query-detail boxes, colours and JSON of the card are not modelled.
- WeeklyReport.AtMostOncePerWeek: one poller at a time, as the lease provides; which webhooks are tried, and that a report without rows is not sent to the shared channel, is one delivery outcome.
- The order of rows in a card or report, which is a function of their contents.
- Fetching lock and activity rows: SQL, drivers, connections and their failures, other than that a failed fetch changes nothing.
- HTTP delivery, address checks, signing, encryption and the stored report files beyond their expiry.
- The query runner, session termination, multi-factor sign-in and login throttling.
- Web pages, forms, serializers, CSV text and all other migrations.
