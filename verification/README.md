# temporaldbv1: a verified model

temporaldbv1 keeps every write in one append-only event log. A live table, bitemporal reads, a graph, a shipped backup
stream, snapshots and restore are all derived from that log, and clients reach it through TQL, a small query language.
This project models those parts in Dafny and proves that they agree with one another in every reachable state.

Verify it with `dafny verify dfyconfig.toml`.

## How the model is laid out

The log:

- `Temporal` — versions, eligibility, and the filter, sort and scan of `Visible`; `Instants` — the calendar, the
  fixed-width time text, and the stamp the tables hold for an instant.
- `EventStore` — the database (`events` in primary-key order, `live` by primary key, the AUTOINCREMENT counter) and the
  class `Store`, whose methods commit, restore and read.
- `Backup` — the classes `FileSink`, `Shipper` and `Snapshotter`, and the methods `Restore` and `Replay`.
- `Replication` — the server as a state machine. A step is a commit, one of the three parts of a shipping call, one of
  the three parts of a snapshot, a purge of the table, a purge of the sink, or a process restart. `log` is the history
  of all commits and is stored nowhere. A run is any sequence of steps, so every interleaving is covered, including a
  batch written in part and a snapshot that a commit races.
- `Recovery` — what `Restore` gives back; `TimeTravel` — how reads relate across time and what PURGE forgets.
- `Graph`, `GraphRuns` — edges under hashed keys refine a set of edges, for one store and over whole runs.

TQL:

- `Lexer` and `Parser` are cursor machines, as in the source, each method proved against the functional definition of
  its language (`Lexer.Tokens`, `Grammar`).
- `Spelling` says which tokens spell which statement, `Accepting` that the parser accepts exactly those, and `Examples`
  what some everyday statements parse to. `Rendering` and `Printing` write tokens and statements back; `JsonStrings` is
  RFC 8259 section 7; `Client` is the client's key quoting.
- `Match` and `Compile` are the two WHERE engines, the second under SQL's three-valued logic; `Executor` runs
  statements; `FindOrder` compares the ORDER BY of SQLite with the one in memory.

`Sorting`, `Paging`, `Strings`, `Utf8`, `Decimals`, `Json`, `Ast` and `Wrappers` are shared.

## Where the code differs from its comments

- A snapshot is taken with two statements, MAX(seq) and then VACUUM INTO. A commit that lands between them and is also
  shipped makes `Restore` fail (`Recovery.RacedSnapshotBlocksRestore`); `Recovery.FullRecovery` and
  `Replication.RestoreSucceedsIff` give the exact condition.
- `Restore` says "at or before target", but a snapshot's file name holds whole seconds, so it can bring back events up
  to one second later (`Recovery.RestoreCanOvershootWithinASecond`).
- `GET` returns the highest-seq version and `GET ... AS OF` the latest-dated one. After a backdated `PUT ... AT` they
  differ (`TimeTravel.BackdatedPutSplitsTheReads`; exact condition in `TimeTravel.GetAgreesWithReplay`).
- A PURGE can make an AS OF query answer with an older-dated version instead of none
  (`TimeTravel.PurgeCanChangeAnAnswer`; exact condition in `TimeTravel.PurgeOnlyForgetsIff`).
- PURGE compares stored text in the table and instants in the sink. A cutoff whose offset carries it into UTC year 10000
  empties the sink and leaves the table (`Executor.PurgeCutsDiffer`; exact condition in `Executor.PurgeCutsAgreeIff`).
- Restore to a target is meant to give the log up to a point. When the clock goes back it can leave a gap
  (`Recovery.UnsteadyClockLeavesAGap`; exact condition in `Recovery.RestoreIsAPrefixIff`).
- FIND and FIND AS OF evaluate WHERE in two engines that differ, for one on != of an absent field
  (`Executor.FindDiffersOnAbsentField`; exact condition in `Compile.TermsAgreeIff` and `Executor.FindAgreesOnTermIff`).
- `lessField` says a missing field sorts last in either direction. Under DESC it sorts first (`Executor.SortedRows`).
  SQLite puts a missing field first, or last under DESC, so FIND and FIND AS OF page differently
  (`FindOrder.AbsentDoesNotPin`; exact condition in `FindOrder.SamePagesIff`).
- `Parse` says it inverts `Encode`. For UTC years outside 0 to 9999 it fails, and `PUT ... AT
  "9999-12-31T23:59:59-01:00"` is accepted and stored with such a year. From then on the reads that scan that row fail,
  and the shipper never gets past it (`Executor.LatePutFailsReads`, `Recovery.UnreadableCommitStopsShipping`; exact
  conditions in `TimeTravel.ReadsSucceedIff` and `Replication.ShippingCatchesUpIff`). The results about frozen answers,
  live against replay and PURGE say what becomes of a query that fails.
- Go's zero time stands for an unset one, and `"0001-01-01"` is a time literal for it. AS OF that literal answers with
  the latest-dated version, and `PUT ... AT` it means the commit time (`TimeTravel.ZeroTimeIsNotFrozen`,
  `Executor.ExecPut`). AS OF answers are frozen for exactly the other literals (`TimeTravel.AnswersAreFrozenIff`).
- A shipper that resumes starts from the sink's highest seq, so as not to ship twice. After a restore that leaves shipped
  records out, a server on the restored database takes their seqs again, and those commits are never shipped
  (`Replication.RepeatedSeqsAreNeverShipped`; exact conditions in `Replication.TailingContinuesIff` and
  `Recovery.ResumedFollowsIff`); after a full restore none is lost (`Recovery.FullRestoreGoesOn`).
- `edgeKey` says its encoding is collision-proof whatever the content. Its 32-bit length wraps, and two edges that
  RELATE can name collide with a node of 2^32 + 2 bytes (`Graph.WrappedLengthsCollide`; exact bound in
  `Graph.EdgeBytesInjectiveIff`). That is a fact about `edgeKey` alone: RELATE also writes the node into meta, and
  SQLite by default refuses a text of 4 GiB. The graph results are stated for components under 2^32 bytes.
- The client's quoting leaves keys such as `1abc` and the empty key unquoted, and their statements do not parse
  (`Client.CommandsReachTheirKey`).

## Assumptions

Taken as given, each stated where it is used: SHA-256 is collision-free and its hex text not empty (`Graph.IsDigest`);
the wall clock never goes back (`Recovery.Steady`); users do not write to `__edges__` directly (`GraphRuns.Allowed`).
Clock readings, the number of records the file system still accepts, the JSON decoder's idea of where a value ends and
the set of time literals are parameters.

## Model

| member | source | states |
|---|---|---|
| Temporal.KnownBy | internal/temporal/temporal.go:85-91 | The filter keeps exactly the events committed by asOf; an unset asOf keeps all. |
| Temporal.LastStarted | internal/temporal/temporal.go:103-111 | On candidates sorted by (ValidFrom, Seq), the scan that breaks early returns the highest-ranked one that has started by validAt, or none if none has. |
| Temporal.Visible | internal/temporal/temporal.go:80-112 | For events in any order, the result is the maximum by (ValidFrom, Seq) of those known at asOf and started at validAt; none only if no event is eligible; unset times default as documented. |
| Temporal.EligibleIff | internal/temporal/temporal.go:60-72 | An event counts if and only if it was committed by asOf and dated by validAt, or by asOf where validAt is unset; an unset time bounds nothing. |
| Temporal.VisibleIsTheMaximum | internal/temporal/temporal.go:60-79 | The one-event-at-a-time definition used as the specification of Visible is that maximum. |
| Temporal.VisibleIsUnique | internal/temporal/temporal.go:73-74 | With distinct seqs the maximum is unique: an event is visible if and only if it is the one the specification returns. |
| Temporal.IntervalsPartitionTime | internal/temporal/temporal.go:66-72 | The half-open intervals [ValidFrom, next ValidFrom), the later write winning a tie, partition time: each instant from the first ValidFrom on lies in exactly one event's interval, the visible one's, and earlier instants in none. |
| Temporal.IneligibleEventsDoNotCount | internal/temporal/temporal.go:76-78 | Appending events that are not eligible never changes the answer. |
| Temporal.PastIsFrozen | internal/temporal/temporal.go:63-65 | Events committed after T never change what Visible answers at asOf T, for any validAt. |
| Temporal.LaterValidityIsInvisible | internal/temporal/temporal.go:105-107 | The unbounded answer at v changes only through an event valid by v. |
| Temporal.NewestIsVisible | internal/temporal/temporal.go:96-110 | The highest-seq event is the visible one if and only if no earlier event is dated after it. |
| Instants.EncodingKeepsOrder | internal/temporal/temporal.go:35-47 | For UTC years 0 to 9999, encoded instants compare as text exactly as the instants compare in nanoseconds. |
| Instants.LayoutOf | internal/temporal/temporal.go:35-47 | The text is year, month, day, hour, minute, second and nanosecond, padded to 4, 2, 2, 2, 2, 2 and 9 digits, with - - T : : . between and Z at the end. |
| Instants.ParseInvertsEncodeIff | internal/temporal/temporal.go:41-56 | Parse reads back what Encode wrote if the year is 0 to 9999, and fails on it otherwise. |
| Instants.StampableIff | internal/temporal/temporal.go:41-56 | The text stored for an instant parses exactly if the instant is in UTC years 0 to 9999, as an interval of nanoseconds, and then to its civil time. |
| Instants.StampableYears | internal/temporal/temporal.go:41-47 | That interval is exactly the instants whose UTC year is 0 to 9999. |
| Instants.ZeroIsYearOne | internal/temporal/temporal.go:81-83 | The zero time is 0001-01-01T00:00:00Z, which has a text that parses. |
| Instants.NanosInvertsCivilOf | internal/temporal/temporal.go:43-47 | Every instant has a valid UTC civil time, in any year, and counting its nanoseconds gives the instant back. |
| Instants.CivilOfInvertsNanos | internal/temporal/temporal.go:43-47 | And no other civil time counts to it. |
| Examples.CalendarExample | internal/temporal/temporal.go:43-47 | The months have their lengths in every year, and 1970-01-01 is 62135596800 seconds after the zero time. |
| Instants.YearStartAt | internal/temporal/temporal.go:43-47 | Before year y lie 365 days a year and one more for each leap year: every fourth, but of the hundreds only every fourth. |
| Instants.WholeSecondDropsNanos | internal/backup/snapshot.go:15-46 | The time in a snapshot's name is the civil time with its nanoseconds dropped, less than 1000000000 nanoseconds before it. |
| Instants.StampsKeepOrder | internal/temporal/temporal.go:35-47 | The text stored for two instants of UTC years 0 to 9999 compares as the instants do. |
| Instants.StampOrderIff | internal/tql/parser.go:167-174 | Against any instant a time literal can give (UTC years -1 to 10000), text order is time order if and only if the literal's year has at most four digits or the stored year is at most 1000. |
| Instants.LaterYearSortsEarlier | internal/temporal/temporal.go:35-41 | Every stored instant from after year 1000 sorts after every instant of year 10000, though it is before it. |
| EventStore.Store.Append | internal/event/event.go:33-104 | Succeeds if and only if collection and key are non-empty. The event, field by field: counter + 1, the request's collection, key and op, no value for a delete, valid from the commit time unless set, meta {} unless set. It is appended to events, its fields become the live row of its key, the counter moves to its seq; nothing changes on error. |
| EventStore.Store.RestoreEvent | internal/event/event.go:287-330 | Fails, changing nothing, if and only if the seq is taken; else inserts the event as given, replaces the live row only by a higher seq, and moves the counter up to it if needed. |
| EventStore.ParseTimes | internal/event/event.go:125-132 | The two parses of a row succeed exactly if both of its times are in UTC years 0 to 9999. |
| EventStore.Store.Get | internal/event/event.go:107-138 | Reads the live row: none for a missing key or a tombstone, whatever its times, and otherwise an error exactly if the times of the row do not parse. |
| EventStore.Store.History | internal/event/event.go:141-172 | Exactly the key's events, in seq order; an error exactly if one of them has a time that does not parse. |
| EventStore.Store.AfterSeq | internal/event/event.go:245-276 | Exactly the events past seq, of every collection, in seq order; an error exactly if one of them has a time that does not parse. |
| EventStore.Store.AsOf | internal/event/event.go:178-188 | The visible version of the key's history, and none if it is a delete; an error exactly if any version of the key, visible or not, has a time that does not parse. |
| EventStore.Store.ReplayAsOf | internal/event/event.go:196-240 | In strictly ascending key order, exactly the per-key AsOf answers of the collection; an error exactly if any row of the collection has a time that does not parse. |
| Strings.LessIff | internal/event/event.go:197-199 | The order of keys and of stored times: a proper prefix comes first, otherwise the first differing character decides. |
| EventStore.ReadableByKey | internal/event/event.go:178-240 | ReplayAsOf fails if and only if AsOf fails for some key of the collection. |
| EventStore.ReplayIsUnique | internal/event/event.go:190-195 | Order and contents pin ReplayAsOf's answer down: no two lists meet its contract. |
| EventStore.GroupByKey | internal/event/event.go:206-227 | From rows sorted by key, the loop lists each key once in ascending order and maps it to its own rows in seq order; it fails exactly if a row's times do not parse. |
| EventStore.Store.AnswerKeys | internal/event/event.go:232-239 | Over keys in ascending order, appends exactly the visible, undeleted versions. |
| EventStore.SortKeepsHistories | internal/event/event.go:197-199 | Ordering a collection's rows by key leaves each key's history as it was, in seq order. |
| EventStore.LiveIsNewest | internal/event/event.go:82-95 | The live table after a sequence of commits has a row for each key written and no other, and each row is the highest-seq event of its key. |
| EventStore.RestoresCommute | internal/event/event.go:310-321 | Two restored events with different seqs may be swapped, from any database: same rows, same live, same counter, same failures. |
| EventStore.ReplayIgnoresOrder | internal/event/event.go:310-321 | Replaying any events with distinct seqs, in any order and from any starting database, gives one and the same outcome. |
| EventStore.ReplayContinuesLog | internal/backup/restore.go:170-175 | Replaying log[a..b] onto the database of log[..a] gives the database of log[..b]: events, live and counter. |
| EventStore.ReplaySucceedsIff | internal/event/event.go:297-306 | A replay succeeds if and only if its seqs are distinct and all free, and then the table holds the old events and the new ones. |
| EventStore.ReplayKeepsValid | internal/event/event.go:279-286 | A successful replay leaves a valid database: primary keys unique and ordered, the counter past all of them, so the next Append takes a fresh, larger seq. |
| Backup.FileSink.WriteEvents | internal/backup/sink.go:88-108 | Appends the batch in order; if the file system refuses a record, exactly the records before it have been appended and the call reports an error. |
| Backup.FileSink.WriteSnapshot | internal/backup/sink.go:113-125 | Stores the file under its seq and time, and changes nothing else. |
| Backup.FileSink.Purge | internal/backup/sink.go:133-180 | The rewritten stream is the old one without the records committed before the cutoff (at the cutoff they stay), order kept, of every collection. |
| Backup.FileSink.LastShippedSeq | internal/backup/restore.go:183-208 | The seq of a record in the stream that no record exceeds, or 0. |
| Replication.LastShippedIsHighest | internal/backup/restore.go:179-208 | No record of the stream has a seq above what LastShippedSeq returns. |
| Backup.FileSink.ReadShippedEvents | internal/backup/restore.go:91-120 | Exactly the records past afterSeq and committed at or before the target, in file order. |
| Backup.FileSink.ListSnapshots | internal/backup/restore.go:32-63 | Every snapshot, in ascending seq order. |
| Backup.FileSink.LatestSnapshotBefore | internal/backup/restore.go:70-86 | A snapshot of highest seq among those whose named time is at or before the target; none only if all are later. |
| Backup.Shipper.ShipOnce | internal/backup/shipper.go:51-64 | Appends every event past lastSeq to the stream and moves lastSeq to the last of them; if one of them has a time that does not parse, fails and appends none; on a refused record, fails and appends a prefix; a failure leaves lastSeq. |
| Backup.Snapshotter.Snapshot | internal/backup/snapshot.go:15-59 | When no commit lands inside the call: stores the database under its highest seq and the civil time of the call with its nanoseconds dropped, and returns that seq, which no event exceeds. |
| Backup.Restore | internal/backup/restore.go:135-177 | Picks a snapshot of highest seq among those named at or before the target, or none; succeeds if and only if the destination is free and no insert repeats a primary key, and then leaves the base database with exactly the records past the snapshot's seq and committed by the target replayed; when the replay fails it leaves the base with the records before the first that failed. |
| Backup.Replay | internal/backup/restore.go:170-175 | The loop stops at the first event that fails, with everything before it restored, and otherwise ends in the database of the whole replay. |
| Replication.StepKeepsInv | internal/backup/shipper.go:51-64 | Every step, purges and restarts included, keeps the invariant: log numbered 1, 2, 3, ..., counter at its end, live the fold of the log, table and stream ordered parts of the log, and no record in the stream past what the shipper has acknowledged or is about to. |
| Replication.InvHolds | internal/storage/migrations/00001_init.sql:5-14 | That invariant holds after every run. |
| Replication.StreamNeverRepeats | internal/backup/restore.go:179-182 | In every reachable state the shipped stream has strictly increasing seqs and holds only committed events: nothing is shipped twice. |
| Replication.LiveIsAlwaysNewest | internal/tql/executor.go:365-381 | In every reachable state, purges included, each live row is the highest-seq event ever committed for its key, and Get is none if and only if there is none or it is a delete. |
| Replication.SeqIsNeverReused | internal/storage/migrations/00001_init.sql:6 | Purge or not, the next commit takes a seq no event has ever had. |
| Replication.RestoreSucceedsIff | internal/backup/restore.go:135-177 | In every reachable state Restore succeeds if and only if no record it must replay is already in the chosen snapshot; it then holds exactly the snapshot's events and those records. |
| Replication.RestoredRowsAreNewest | internal/backup/restore.go:170-175 | In every reachable state, purges included, each row of a restored live table is the highest-seq event among the commits up to the snapshot's copy and the records replayed, with a row for each of their keys and no other, and the counter is the highest seq of either. |
| Replication.TailingContinuesIff | cmd/temporaldb-server/main.go:67-71 | On a restored database with the same sink, the next commit is past the seq the shipper starts from if and only if the restored counter has reached the sink's highest seq. |
| Replication.RepeatedSeqsAreNeverShipped | internal/backup/restore.go:179-182 | Whatever a server on a restored database does, short of a purge of the sink, it ships no commit with a seq up to the sink's highest. |
| Replication.RestoreNeverRepeatsAKey | internal/backup/restore.go:159-175 | From a snapshot whose name covers its contents Restore never inserts a seq twice, whatever was purged. |
| Replication.OneStepSnapshotIsUnraced | internal/backup/snapshot.go:38-59 | Taken in one step, a snapshot's name covers its contents, in every reachable state. |
| Replication.ShipOnceIsThreeSteps | internal/backup/shipper.go:51-64 | Read, write and acknowledge in a row do to the stream and to lastSeq what ShipOnce does, and leave the shipper running exactly if it succeeds. |
| Replication.StreamIsReadable | internal/backup/shipper.go:51-64 | In every reachable state every shipped record, and every record of a batch in hand, has times that parse. |
| Replication.ShippingCatchesUpIff | internal/backup/shipper.go:33-64 | From every reachable state with an idle shipper and room in the sink, a call leaves nothing of the table unshipped if and only if every row past lastSeq has times that parse; otherwise it ships nothing and the shipper stops. |
| Recovery.PrefixHolds | internal/backup/shipper.go:51-64 | After every run without purges: the database is that of the log, the stream is a prefix of the log, a batch in hand continues it, and every snapshot is the database of a prefix. |
| Recovery.StreamIsAPrefix | internal/event/event.go:242-250 | Without purge the stream is always a prefix of the log, and while the shipper is idle it is exactly the events with seq <= lastSeq: tailing by seq never skips a commit. |
| Recovery.UnreadableCommitStopsShipping | internal/backup/shipper.go:34-49 | Without purge, a commit whose times do not parse and every commit after it are never shipped, restarts or not. |
| Recovery.ResumedFollowsIff | cmd/temporaldb-server/main.go:67-71 | A server that goes on, with the same sink, from a restore that gave a prefix of the log keeps its stream a prefix of its own log, and while idle exactly the part up to lastSeq, through every further run without purge, if and only if the restored counter has reached the sink's highest seq. |
| Recovery.FullRestoreGoesOn | internal/backup/restore.go:122-129 | After a full restore, from any snapshot, it has, so such a server ships each new commit once, in order. |
| Recovery.FullRecovery | internal/backup/restore.go:122-177 | After any run without purges, Restore with no target succeeds if and only if the chosen snapshot's name covers its contents or nothing was shipped past that name, and then gives exactly the database of the log up to the further of snapshot and stream: events with their seqs and times, live, and counter. |
| Recovery.EveryPrefixWasCurrent | internal/event/event.go:47-48 | Every prefix of the log was the whole database at some moment of the run. |
| Recovery.RestoredOnceWasTheOriginal | internal/backup/restore.go:126-129 | A restored database equals one the original has been, so every read and the next Append answer as they did then. |
| Recovery.PointInTimeRecovery | internal/backup/restore.go:65-120 | With a steady clock and no purge, from an unraced snapshot or none: Restore to a target gives the database of a log prefix that holds every shipped event committed by the target and none committed 1000000000 nanoseconds or more after it; it is exact if and only if the snapshot holds nothing newer than the target, and always when there is no snapshot. |
| Recovery.RestoreIsAPrefixIff | internal/backup/restore.go:86-177 | For every run without purges, whatever the clock does and however the snapshot was taken: Restore to a target succeeds if and only if no record within the target is in the snapshot past its name, and the result is then a prefix of the log (rows, live and counter) if and only if, past the snapshot, no record beyond the target comes before one within it. |
| Recovery.StretchUpTo | internal/backup/restore.go:108-117 | Without such a gap the records selected by seq and target are one contiguous stretch of the log. |
| Recovery.RacedSnapshotBlocksRestore | internal/backup/snapshot.go:39-52 | A run in which a commit lands between MAX(seq) and VACUUM INTO and is shipped: Restore fails. |
| Recovery.RestoreCanOvershootWithinASecond | internal/backup/snapshot.go:12-15 | A run in which Restore to an instant brings back an event committed three nanoseconds after it, in the same second. |
| Recovery.UnsteadyClockLeavesAGap | internal/backup/restore.go:114-116 | A run in which the clock goes back and Restore to a target gives events that are no prefix of the log: the condition of RestoreIsAPrefixIff can fail. |
| TimeTravel.KnowledgeAtTIsFrozen | internal/event/event.go:178-188 | For every run and every continuation without purge whose commits come after T, T not the zero time, AsOf at T answers as before, for every key and validAt, if and only if it failed before or each later version of the key has times that parse; otherwise it fails. |
| TimeTravel.AnswerIsDatedLast | internal/tql/executor.go:111-119 | AS OF v alone answers with an event if and only if it is a PUT and has, of the key's events dated by v, the latest date and then the highest seq: commit times play no part, and without v all dates count. |
| TimeTravel.KnowledgeIsDatedLast | internal/event/event.go:178-188 | What was known at T is that answer over the events committed at or before T, dated by validAt, or by T where validAt is unset. |
| TimeTravel.AnswerAtVChangesOnlyByEarlierValidity | internal/tql/executor.go:108-130 | The same for GET ... AS OF v, v not the zero time, and commits valid only after v. |
| TimeTravel.AnswersAreFrozenIff | internal/temporal/temporal.go:81-83 | GET ... AS OF v is unchanged by all commits that parse and are valid only after v, on every run and key, if and only if v is not the zero time. |
| TimeTravel.KnowledgeIsFrozenIff | internal/temporal/temporal.go:85-91 | AsOf at T is unchanged by all commits that parse and come after T if and only if T is not the zero time. |
| TimeTravel.ZeroTimeIsNotFrozen | internal/tql/parser.go:167-174 | AS OF "0001-01-01" answers none on an empty database and, after one PUT valid and committed later, that PUT. |
| TimeTravel.ReadsSucceedIff | internal/event/event.go:141-188 | After any run without purge HISTORY and AS OF of a key succeed if and only if each commit of the key was given times, by its request and by the clock, that parse. |
| TimeTravel.UnreadableVersionFailsReads | internal/event/event.go:141-276 | One version whose times do not parse makes HISTORY and every AS OF of its key, every replay of its collection and the shipper's read from anywhere before it fail. |
| TimeTravel.GetIsLastOfHistory | internal/event/event.go:107-138 | On an unpurged log Get is the last event of the key's history, or none if that is a delete or there is none. |
| TimeTravel.GetAgreesWithReplay | internal/event/event.go:107-188 | On an unpurged log, Get and AsOf at any point late enough agree on a key if and only if: when all its versions parse, its newest is dated no earlier than the others, or is a delete and so is the one that ranks highest by date and seq; when some version does not, the newest is a PUT that does not either, and both fail. |
| TimeTravel.BackdatedPutSplitsTheReads | internal/tql/executor.go:111-121 | Two PUTs, the second backdated: Get answers the second and AsOf the first. |
| TimeTravel.ReplayIsLive | internal/event/event.go:190-240 | If every key's newest version is dated last and ReplayAsOf late enough succeeds, it returns exactly the rows that Get returns, and Get succeeds for every key. |
| TimeTravel.PurgeOnlyForgetsIff | internal/tql/executor.go:365-368 | On a key of the purged collection, every AsOf query on both time axes that answered before the purge answers the same or none, if and only if all of them failed or for each purged version that outranks a kept PUT some other kept version outranks that PUT wherever the purged one has started, and is known once both are. |
| TimeTravel.PurgeOnlyForgetsAtIff | internal/tql/executor.go:111-121 | The same for one fixed asOf and every valid time, as TQL queries, whose asOf is unset. |
| TimeTravel.PurgeForgetsVersionsIff | internal/temporal/temporal.go:76-78 | The counterpart for visible versions, tombstones included: each purged version that outranks a kept one is corrected by a kept one at its own instant. |
| TimeTravel.PurgeOnlyForgets | internal/tql/executor.go:365-368 | Under that condition every AsOf query that answered before PURGE ... BEFORE a cutoff answers the same or none. |
| TimeTravel.SqlCutIsDownward | internal/tql/executor.go:366 | On times that can be read back, the text comparison takes every earlier event with each it takes, for any cutoff. |
| TimeTravel.InOrderIsMasked | internal/tql/executor.go:365-368 | Keys whose ValidFrom and TxTime never decrease along seq meet the condition, for answers and for versions. |
| TimeTravel.PurgeSparesOthers | internal/tql/executor.go:366 | PURGE of one collection changes no AsOf answer, or failure, about another. |
| TimeTravel.UncoveredAnswers | internal/tql/executor.go:365-368 | Whenever a purged PUT outranks the only kept one, the kept one becomes the answer. |
| TimeTravel.PurgeCanChangeAnAnswer | internal/tql/executor.go:365-368 | A two-event history on which any PURGE between the two commits makes an AS OF query answer with a different version. |
| TimeTravel.CutOnFirstDay | internal/tql/executor.go:366 | Cutoffs between two such commits do take the first and leave the second. |
| Graph.PathIsInjective | internal/graph/graph.go:301-303 | A node path names one collection and one key, as collections hold no slash. |
| Graph.EdgeBytesAreInjective | internal/graph/graph.go:45-64 | With components under 2^32 bytes, distinct (from, type, to) never hash the same bytes, whatever characters they hold. |
| Graph.EdgeBytesInjectiveIff | internal/graph/graph.go:45-64 | The exact length bound: the hashed bytes tell apart all edges that RELATE can name (identifier collections and types, any keys) with components of fewer than a given number of bytes, if and only if that number is at most 2^32 + 2. |
| Graph.InjectiveWithin | internal/graph/graph.go:45-64 | Two such edges with components of at most 2^32 + 1 bytes that hash the same bytes are the same edge, though the 32-bit length may already wrap. |
| Graph.WrappedLengthsCollide | internal/graph/graph.go:59 | Two distinct edges that RELATE can name, with a node of 2^32 + 2 bytes, that hash the same bytes. |
| Graph.EdgeKey | internal/graph/graph.go:55-64 | The loop hashes length and UTF-8 bytes of each component in turn. |
| Graph.EdgeKeysAreKeys | internal/graph/graph.go:45-64 | With a collision-free hash distinct edges have distinct, non-empty keys. |
| Graph.WriteRefines | internal/graph/graph.go:83-108 | Committing a Relate or Unrelate to a live table that stands for a set of edges gives one that stands for the set with that edge put or removed. |
| Graph.OtherWritesKeepEdges | internal/graph/graph.go:25 | A commit to another collection leaves the set of edges as it is. |
| Graph.WriteKeepsInv | internal/graph/graph.go:83-108 | Both writes keep the store's invariant. |
| Graph.GraphStore.Relate | internal/graph/graph.go:83-97 | The graph gains or replaces exactly the edge between the two node paths, and the returned edge has the properties given, or {} if none, and the seq and times committed; the live row of the edge holds the same properties and the routing triple as meta. |
| Graph.GraphStore.Unrelate | internal/graph/graph.go:101-108 | The graph loses exactly that edge. |
| Graph.GraphStore.QueryLive | internal/graph/graph.go:149-164 | The scan of live returns, in ascending seq order, an edge for each undeleted edge row that meets the direction and type clauses, and nothing else. |
| Graph.GraphStore.Related | internal/graph/graph.go:149-202 | Returns the window LIMIT and OFFSET cut from that scan; an error exactly if a row of the window has times that do not parse. |
| Graph.ParseEdges | internal/graph/graph.go:186-200 | The loop over the rows of the page keeps all of them, or fails exactly if the times of one do not parse. |
| Graph.ScanIsUnique | internal/graph/graph.go:164 | As seqs are distinct, ORDER BY seq leaves exactly one possible list. |
| Graph.RelatedIsTheGraph | internal/graph/graph.go:145-202 | The scan lists each edge of the graph that touches the node in the given direction and type, once, with its properties. |
| Graph.DirectionsAgree | internal/graph/graph.go:207-216 | OUT of x and IN of y agree on every edge from x to y; BOTH is the union of OUT and IN, with a self-loop once. |
| Graph.MetaRoundTrip | internal/graph/graph.go:207-229 | The routing triple reads back from meta, and the SQL clauses decide an edge as the in-memory checks do. |
| Graph.GraphStore.EdgeTypes | internal/graph/graph.go:112-133 | The strictly ascending list of exactly the edge types in use. |
| Graph.DistinctTypes | internal/graph/graph.go:113-115 | Each type of an undeleted edge row, once. |
| Graph.TypesInUse | internal/graph/graph.go:110-115 | The types of undeleted rows are the types of the graph's edges. |
| Graph.GraphStore.RelatedAsOf | internal/graph/graph.go:242-280 | The window of the edges that touch the node among the events replayed at validAt, or at no set time if validAt is the zero time; an error exactly if a row of the edge collection has a time that does not parse. |
| Graph.PageEdges | internal/graph/graph.go:255-278 | The loop that skips, collects and breaks is the same window function as SQL paging. |
| GraphRuns.RunsRefineTheGraph | internal/graph/graph.go:66-108 | After every run, purges and other writes included, live stands for exactly the edges related and not unrelated since, by their paths. |
| GraphRuns.PathsKeepTheGraph | internal/graph/graph.go:301-303 | As collections hold no slash, those paths stand for exactly the links between (collection, key) nodes, with their properties. |
| GraphRuns.GraphIsLastWrites | internal/graph/graph.go:83-108 | After any moves a link is in the graph with a value if and only if the last RELATE or UNRELATE of that link is a RELATE that gave that value, or gave nothing while the value is {}. |
| GraphRuns.RelatedAnswersTheGraph | internal/graph/graph.go:145-202 | RELATED of a (collection, key) node after any run lists exactly the links that touch that node and were last written by a RELATE, each once and with the properties that RELATE gave, or {} if it gave none. |
| GraphRuns.RelatedAgreesWithReplay | internal/graph/graph.go:231-280 | With a steady clock and no purge, unpaged RELATED and a RELATED AS OF that succeeds, at a moment no commit lies after or at the zero time, return the same edges, and RELATED succeeds. |
| Paging.PagesTile | internal/tql/match.go:149-157 | Consecutive pages tile the list: no gap, no overlap, nothing past the end. |
| Paging.WindowIsSlice | internal/tql/match.go:149-157 | Slicing by offset and then by limit is the window. |
| Paging.WindowIsFull | internal/graph/graph.go:275-277 | Once limit rows are collected the rest of the list does not matter, so breaking early is sound. |
| Executor.SortAndLimit | internal/tql/match.go:140-159 | Sorts the slice in place and keeps the window of the stable sort. |
| Executor.SortedRows | internal/tql/match.go:161-183 | When the field is all numbers or all strings where present: the rows come out by smaller number or earlier text, or the reverse under DESC, as a permutation, those without the field last, or first under DESC. |
| Sorting.SortSlice | internal/tql/match.go:142-147 | The in-place sort equals the stable sort function, for any comparator. |
| Sorting.SortOrdersOn | internal/tql/match.go:142-147 | Its result is sorted if the comparator is a strict weak order on the elements. |
| Sorting.SortIsStable | internal/tql/match.go:142-147 | Elements that tie keep the order they came in. |
| Executor.FilterInPlace | internal/tql/executor.go:235-244 | HISTORY ... BETWEEN: writing into the front of the slice being read keeps, in order, exactly the events whose ValidFrom is from the first bound to the second, both included. |
| Executor.ExecHistory | internal/tql/executor.go:230-250 | The rows are, in seq order, the key's events, or those dated from the first bound to the second, both included; an error exactly if one of the key's events, in the range or not, has a time that does not parse. |
| Executor.ExecGet | internal/tql/executor.go:108-130 | Without AS OF: the fields of the live row, none for a missing or deleted key, an error if its times do not parse. With AS OF v: an error exactly if an event of the key has a time that does not parse; else a row if and only if the event of the key with the latest date by v, and then the highest seq, is a PUT, and then that event's fields, whenever it was committed; the zero time bounds no date. |
| Executor.ExecPut | internal/tql/executor.go:213-223 | Commits one PUT; its valid time is the AT literal, or the commit time if there is none or it is the zero time; the event, the live row and the returned row hold the value and those times; fails, changing nothing, exactly if collection or key is empty. |
| Executor.ExecDelete | internal/tql/executor.go:225-228 | Commits one DELETE without a value, valid from its commit time, and marks the live row deleted; fails, changing nothing, exactly if collection or key is empty. |
| Executor.BackdatedPutIsTheAnswer | internal/tql/executor.go:111-119 | On every run: after a PUT dated by v that no version dated by v outdates, GET ... AS OF v answers that PUT, however late it is committed, if all versions of the key parse. |
| Executor.LatePutFailsReads | internal/tql/executor.go:213-223 | PUT AT 9999-12-31T23:59:59-01:00 on any reachable state: GET of the key fails, and after every continuation without purge so do HISTORY and AS OF of the key, the replay of its collection and the shipper's read. |
| Executor.DeleteEvents | internal/tql/executor.go:366-374 | The DELETE leaves the events that are of other collections or not cut, in order, keeps primary keys ordered, and counts the rows it took. |
| Executor.ExecPurge | internal/tql/executor.go:365-381 | Keeps in the table exactly the events of other collections and those whose stored time text is not below the cutoff's, and, if there is a sink, in its stream exactly the records committed at or after the cutoff; leaves live, the counter and the snapshots, and counts the rows deleted. |
| Executor.PurgeCutsAgreeIff | internal/tql/executor.go:366-377 | Over rows that can be read back and any cutoff a time literal can give, table (by text) and sink (by instant) keep the same events of the collection if and only if the cutoff's UTC year is at most 9999 or all its events are from years up to 1000. |
| Executor.PurgeCutsDiffer | internal/backup/sink.go:165-167 | With the cutoff 9999-12-31T23:59:59-01:00 the table keeps an event of 2025 and the sink drops it. |
| Executor.ExecFindAsOf | internal/tql/executor.go:196-211 | The events replayed at AS OF, or at no set time if it is the zero time, that match WHERE, sorted and windowed; an error exactly if a row of the collection has a time that does not parse. |
| Executor.MatchingRows | internal/tql/executor.go:202-208 | The loop keeps exactly the events that match WHERE, in order. |
| Executor.NoWhereKeepsReplay | internal/tql/executor.go:202-208 | Without WHERE, FIND ... AS OF keeps every replayed event, in order, as a row of its fields. |
| Executor.NoWhereKeepsLive | internal/tql/executor.go:137-146 | Without WHERE, FIND keeps exactly the undeleted live rows of the collection, with their fields. |
| Executor.SameRowsIff | internal/tql/executor.go:132-211 | On an unpurged log with each key's newest version dated last, FIND and a FIND ... AS OF that succeeds, late enough or at the zero time, return the same set of rows if and only if the two engines decide WHERE alike on every current document. |
| Executor.FindAgreesWithReplay | internal/tql/executor.go:132-211 | They do if each term is decided alike on every current document. |
| Executor.FindAgreesOnTermIff | internal/tql/executor.go:132-211 | For a WHERE of one term, exactly then. |
| Executor.FindDiffersOnAbsentField | internal/tql/compile.go:36-40 | FIND with != on an absent field skips the document that FIND ... AS OF returns. |
| FindOrder.SamePagesIff | internal/tql/executor.go:141-161 | Where FIND and FIND ... AS OF return the same rows and the ORDER BY field holds only numbers or only strings, they return the same page for every LIMIT and OFFSET, however SQLite orders ties, if and only if there is at most one row, or every row has the field and no two the same value. |
| FindOrder.OrderIsPinnedIff | internal/tql/match.go:140-183 | The same for the ordered lists: NULL first, then numbers, then texts in SQL, against lessField's order. |
| FindOrder.AbsentDoesNotPin | internal/tql/match.go:161-183 | One row without the field beside one with it and the two lists differ, in both directions. |
| FindOrder.FindFailsIff | internal/tql/executor.go:173-187 | An unpaged FIND fails exactly if it finds a row whose times do not parse. |
| Match.LookupPath | internal/tql/match.go:91-104 | The walk along a dotted path finds the nested value, or none as soon as a step is missing. |
| Match.FieldOfPath | internal/tql/match.go:91-104 | A path of one name finds the field of that name; name.path finds what path finds in the field, and nothing if the field is missing or the document is no object. |
| Ast.IntegerValue | internal/tql/parser.go:336-342 | The lexeme of an integer, with a sign if it is negative, is worth that integer. |
| Ast.FractionValue | internal/tql/parser.go:336-342 | For all digits a and b, a.b is worth the number ab over ten to the length of b. |
| Ast.MinusNegates | internal/tql/parser.go:336-342 | A minus sign negates the value of any lexeme that has none. |
| Ast.FitsFloatIff | internal/tql/parser.go:338-341 | An integer literal is in range if and only if its size is under 2^1024 - 2^970, where rounding reaches past the largest float64. |
| Match.IntegerTerm | internal/tql/match.go:32-89 | For a field that is a number and any of the six comparisons, a term with an integer literal, negative ones included, holds exactly if the comparison with the integer does. |
| Match.OtherTerms | internal/tql/match.go:32-124 | = and != with a text, a boolean or null hold by equality of the field with that very value, an absent field counting as null and as unequal to the rest; CONTAINS a text holds if the field is an array with that element, IN a list of texts if it is a text of the list. |
| Match.AndOfTerms | internal/tql/match.go:14-30 | A document meets two lists of terms joined by AND if and only if it meets both; with no terms everything matches but a value that is neither an object nor null. |
| Compile.CompileExpr | internal/tql/compile.go:13-27 | Clauses and arguments of the terms in order; an error if and only if some term is IN with a value that is not a list. |
| Compile.CompileFailsIff | internal/tql/compile.go:49-53 | A WHERE of any length fails to compile if and only if some term is IN with a value that is not a list. |
| Compile.IntegerIsBound | internal/tql/compile.go:29-48 | A comparison with an integer literal binds that integer, sign included. |
| Compile.IntegerTermInSql | internal/tql/compile.go:29-48 | For a field that is a number, SQLite keeps the row exactly if the comparison with the integer holds. |
| Compile.EqualOrCoerced | internal/tql/compile.go:77-88 | SQL equality of an extracted value and a bound literal is compareEqual, but for the coercions: booleans as 0 and 1, arrays and objects as text. |
| Compile.OrderingInSql | internal/tql/compile.go:41-48 | What < <= > >= hold of in SQL, kind by kind: booleans as 0 and 1, numbers before texts, texts by code point, arrays and objects as rendered text, null never. |
| Compile.TermsAgreeIff | internal/tql/compile.go:29-75 | For every document and every term SQLite accepts, the compiled clause keeps the row exactly when matchTerm accepts it, if and only if Agrees holds, which spells out, operator by operator and kind by kind, where the two engines agree. |
| Compile.WhereAgrees | internal/tql/compile.go:13-27 | For an AND chain of any length whose terms agree, the SQL under three-valued logic keeps a row if and only if matchExpr accepts it. |
| Compile.EverydayTermsAgree | internal/tql/match.go:32-89 | The terms agree on the everyday fragment: field absent, null or of the literal's type, != only on present values, ordering only with numbers; = null, != null and empty IN included. |
| Lexer.Cursor.PeekByte | internal/tql/lexer.go:69-75 | The character offset places ahead, or NUL past the end. |
| Lexer.Cursor.SkipSpaces | internal/tql/lexer.go:77-86 | Leaves the cursor at the first character that is not white space. |
| Lexer.Cursor.LexIdent | internal/tql/lexer.go:170-176 | Takes the longest run of identifier characters. |
| Lexer.Cursor.LexNumber | internal/tql/lexer.go:178-193 | Takes -?digits, with a fraction only if a digit follows the point. |
| Lexer.Cursor.SkipToCloseQuote | internal/tql/lexer.go:200-221 | Stops past the first unescaped quote, or reports that there is none. |
| Lexer.Cursor.CutString | internal/tql/lexer.go:198-209 | The raw text between the opening quote and the first unescaped one, and the cursor past it; none if it is never closed. |
| Lexer.Cursor.LexStringLiteral | internal/tql/lexer.go:198-222 | Returns the unescaped text of the literal, an error if it is unterminated or invalid. |
| Lexer.Cursor.LexJsonValue | internal/tql/lexer.go:228-237 | Takes as much text as the JSON decoder does. |
| Lexer.Cursor.LexToken | internal/tql/lexer.go:94-153 | Dispatch on the first character: token, or error, as the functional lexer says. |
| Lexer.Cursor.NextToken | internal/tql/lexer.go:88-154 | The next token after white space, or the end. |
| Lexer.Tokenize | internal/tql/lexer.go:54-67 | Terminates; the tokens of the whole text and one end marker, or an error if any lexeme fails. |
| Lexer.LexConsumes | internal/tql/lexer.go:88-154 | Every token consumes at least one character, and its text is what it consumed, unescaped if it was quoted. |
| Lexer.TokensSpellTheText | internal/tql/lexer.go:52-67 | Only white space lies between lexemes: the accepted text is the lexemes of its tokens in order, and nothing else. |
| Rendering.EdgeAlwaysLexesToThreeTokens | internal/tql/lexer.go:162-168 | "-", an identifier and "->" lex to exactly those three tokens, whatever follows. |
| Rendering.LexerInvertsRender | internal/tql/lexer.go:54-67 | Any list of well-formed tokens, written out with spaces, lexes back to itself. |
| Rendering.LexQuotedText | internal/tql/lexer.go:195-222 | A string written as a JSON literal lexes to that string, whatever it holds and whatever follows. |
| Rendering.NumberShapes | internal/tql/lexer.go:178-193 | All digits, with a minus sign, a point and more digits, both or neither, are one number lexeme. |
| Examples.Characters | internal/tql/lexer.go:77-168 | White space is space, tab, LF and CR; names start with an ASCII letter or _ and go on with those, digits and points. |
| JsonStrings.UnescapeInvertsEscape | internal/tql/lexer.go:195-197 | Unescaping inverts escaping for every string (RFC 8259, section 7). |
| JsonStrings.ShortEscapesRead | internal/tql/lexer.go:195-216 | A backslash and one of " \ / b f n r t read as the character they stand for; a backslash and any other character but u is an error. |
| JsonStrings.PlainCharactersRead | internal/tql/lexer.go:195-216 | Any other character reads as itself, but a control character or a bare quote is an error. |
| JsonStrings.UnicodeEscapesRead | internal/tql/lexer.go:195-216 | \u and four hexadecimal digits, in either case, read as the character of that code, unless it is a surrogate. |
| JsonStrings.SurrogatePairsRead | internal/tql/lexer.go:195-216 | Every character past U+FFFF reads from its surrogate pair. |
| JsonStrings.LoneSurrogatesRead | internal/tql/lexer.go:195-216 | A low surrogate, or a high one that no escape follows, reads as U+FFFD. |
| Parser.TokenCursor.Next | internal/tql/parser.go:86-92 | Moves one token on, and never off the end marker. |
| Parser.TokenCursor.ExpectKind | internal/tql/parser.go:107-113 | Consumes a token of the kind, or fails. |
| Parser.TokenCursor.ParsePath | internal/tql/parser.go:126-142 | Collection, slash and a key that is an identifier, number or string. |
| Parser.TokenCursor.ParseOptCount | internal/tql/parser.go:176-198 | LIMIT and OFFSET: a non-negative integer that fits 63 bits, else an error. |
| Parser.TokenCursor.ParseExpr | internal/tql/parser.go:273-297 | The loop over AND consumes what the recursive grammar does, and terminates. |
| Parser.TokenCursor.ParseValue | internal/tql/parser.go:333-364 | Literals and nested arrays, by the grammar; a number past the range of a float64 is an error. |
| Parser.TokenCursor.ParseItems | internal/tql/parser.go:366-387 | The element loop of an array, mutually recursive with ParseValue, terminates and follows the grammar. |
| Parser.TokenCursor.ParseRelatedEdgeClause | internal/tql/parser.go:467-506 | One type, or a bracketed list of them, between "-" and "->". |
| Parser.TokenCursor.ParseFind | internal/tql/parser.go:218-271 | FIND and its optional clauses in their order, with no token left over. |
| Parser.TokenCursor.ParseRelated | internal/tql/parser.go:573-612 | RELATED and its optional clauses in their order, with no token left over. |
| Parser.TokenCursor.PeekToken | internal/tql/parser.go:84 | The token at the cursor, or the end marker. |
| Parser.TokenCursor.AtWord | internal/tql/parser.go:94-97 | True exactly on an identifier that is the keyword letter by letter, each in either case (codes equal or 32 apart). |
| Grammar.SameWordIff | internal/tql/parser.go:94-97 | Two words are equal once upper-cased if and only if they are the same letter by letter, in any case. |
| Grammar.FoldsToKeyword | internal/tql/parser.go:30 | For a keyword in capitals, an upper-cased word is the keyword exactly if the word is the keyword in any case. |
| Parser.TokenCursor.ExpectKeyword | internal/tql/parser.go:99-105 | Consumes the keyword, or fails. |
| Parser.TokenCursor.ExpectEnd | internal/tql/parser.go:115-120 | Succeeds exactly when no token is left. |
| Parser.TokenCursor.ParseTime | internal/tql/parser.go:154-165 | A quoted time literal. |
| Parser.TokenCursor.ParseAsOf | internal/tql/parser.go:144-152 | AS OF and a time literal. |
| Parser.TokenCursor.ParseOptAsOf | internal/tql/parser.go:232-236 | An AS OF clause if the keyword is there, else nothing consumed. |
| Parser.TokenCursor.ParseCmpOp | internal/tql/parser.go:299-331 | One of the eight comparison operators, else an error with nothing consumed. |
| Parser.TokenCursor.ParseOptWhere | internal/tql/parser.go:226-231 | A WHERE clause if the keyword is there. |
| Parser.TokenCursor.ParseOptOrder | internal/tql/parser.go:237-254 | ORDER BY, a field, and DESC or ASC. |
| Parser.TokenCursor.ParseEdge | internal/tql/parser.go:453-465 | "-", an edge type and "->". |
| Parser.TokenCursor.ParseTypes | internal/tql/parser.go:477-488 | The type loop inside brackets terminates and follows the grammar. |
| Parser.TokenCursor.ParseOptDirection | internal/tql/parser.go:511-527 | DIRECTION with OUT, IN or BOTH, else OUT. |
| Parser.TokenCursor.ParseGet | internal/tql/parser.go:200-216 | GET, to its last token. |
| Parser.TokenCursor.ParsePut | internal/tql/parser.go:389-410 | PUT with its JSON and an optional AT, to its last token. |
| Parser.TokenCursor.ParseDelete | internal/tql/parser.go:412-422 | DELETE, to its last token. |
| Parser.TokenCursor.ParseHistory | internal/tql/parser.go:424-449 | HISTORY with an optional BETWEEN ... AND, to its last token. |
| Parser.TokenCursor.ParseRelate | internal/tql/parser.go:529-551 | RELATE with optional properties, to its last token. |
| Parser.TokenCursor.ParseUnrelate | internal/tql/parser.go:553-571 | UNRELATE, to its last token. |
| Parser.TokenCursor.ParseSearch | internal/tql/parser.go:614-650 | SEARCH ... NEAR and its optional clauses, to its last token. |
| Parser.TokenCursor.ParsePurge | internal/tql/parser.go:652-669 | PURGE ... BEFORE, to its last token. |
| Parser.TokenCursor.ParseEdgeTypes | internal/tql/parser.go:671-677 | EDGETYPES and nothing else. |
| Parser.TokenCursor.ParseAfter | internal/tql/parser.go:29-52 | The switch over the verbs: the statement of the verb, and on success no token left. |
| Parser.TokenCursor.ParseStatement | internal/tql/parser.go:15-56 | Dispatch on the verb; on success the cursor stands on the end marker, every token consumed. |
| Parser.Parse | internal/tql/parser.go:15-56 | Text to statement, as lexer and grammar together say; an error for anything else. |
| Parser.ParseLine | internal/tql/parser.go:66-73 | Nothing for a blank line, else its one statement or an error. |
| Parser.TrimSpaceDrops | internal/tql/parser.go:66 | Of a text between two stretches of white space, that starts and ends with something else, trimming leaves the text. |
| Parser.SpaceCharacters | internal/tql/parser.go:66 | White space is the 25 characters with Unicode's White_Space property, by code. |
| Parser.LineIgnoresSpaceAround | internal/tql/parser.go:66-73 | White space around a line, such as the CR of a CRLF script, changes nothing. |
| Parser.BlankLinesAreEmpty | internal/tql/parser.go:66-69 | A line of white space only holds no statement and is no error. |
| Parser.OtherLinesAreStatements | internal/tql/parser.go:66-74 | Any other line is one statement or an error. |
| Parser.ParseBatch | internal/tql/parser.go:62-77 | One statement a line, blank lines skipped; the first bad line fails the batch. |
| Parser.JoinedBatches | internal/tql/parser.go:58-77 | ParseBatch accepts two scripts joined by a newline exactly if it accepts both, and gives their statements one after the other. |
| Parser.BlankLinesDoNotMatter | internal/tql/parser.go:58-77 | A blank line anywhere in a script adds no statement and does not make the script fail. |
| Printing.ParserInvertsPrint | internal/tql/parser.go:12-56 | Every statement the parser can return, written as tokens, parses to itself. |
| Printing.ParsedStatementsPrint | internal/tql/parser.go:12-56 | Whatever the parser accepts, in any spelling, it can be printed and parses to the same statement again. |
| Printing.TextReadsBack | internal/tql/parser.go:12-56 | The same on text, through the lexer, for statements whose names, numbers and JSON are lexemes. |
| Spelling.AcceptedTokensSpell | internal/tql/parser.go:12-56 | Every accepted token list spells the statement it is parsed to, under a relation that states each freedom of the syntax: keyword case, key kind, optional ASC, LIMIT 0, DIRECTION OUT, brackets of one type. |
| Accepting.SpellingsAreAccepted | internal/tql/parser.go:12-56 | The converse: every spelling of a statement, keywords in any case, parses to that statement, if its times are time literals and its numbers are in range. |
| Accepting.AcceptedIff | internal/tql/parser.go:12-56 | Tokens parse to a statement if and only if they spell it and its times and numbers are in range. |
| Accepting.OneReading | internal/tql/parser.go:12-56 | No token list spells two such statements. |
| Spelling.NumberSpelled | internal/tql/parser.go:176-198 | A count is read as n exactly from digits worth n, or a signed zero, with n up to 9223372036854775807. |
| Spelling.CountsBelow | internal/tql/parser.go:176-198 | The decimal text of n is a count if and only if n is under 2^63. |
| Examples.WhereIsSpelled | internal/tql/parser.go:273-297 | where age > 21 and name != "Ada" is the WHERE of those two terms. |
| Examples.FindExample | internal/tql/parser.go:218-271 | find users <where> as of "..." order by age desc limit 10 offset 20, in small letters, parses to that FIND. |
| Examples.RelatedExample | internal/tql/parser.go:573-612 | related users/1 -[knows,blocks]-> direction both as of "..." limit 10 offset 20 parses to that RELATED. |
| Examples.RelatedInExample | internal/tql/parser.go:467-527 | related users/1 -knows-> direction in, and related users/1 alone, which means OUT and all types. |
| Examples.RelateExample | internal/tql/parser.go:529-571 | relate users/1 -knows-> users/"b-2" {...}, and unrelate of the same edge. |
| Examples.GetExample | internal/tql/parser.go:200-216 | get users/1 as of "...". |
| Examples.DeleteExample | internal/tql/parser.go:412-422 | delete users/1. |
| Examples.PutExample | internal/tql/parser.go:389-410 | put users/1 {...} at "...". |
| Examples.HistoryExample | internal/tql/parser.go:424-449 | history users/1 between "..." and "...". |
| Examples.SearchExample | internal/tql/parser.go:614-650 | search users near "..." <where> limit 10 offset 20. |
| Examples.PurgeExample | internal/tql/parser.go:652-677 | purge users before "...", and edgetypes. |
| Examples.SymbolsAreTokens | internal/tql/lexer.go:100-150 | Each of / , - -> [ ] is one token of its kind, |
| Examples.ComparisonsAreTokens | internal/tql/lexer.go:100-150 | and so is each of = != < <= > >=. |
| Spelling.ExprSpelled | internal/tql/parser.go:273-297 | The consumed tokens of a WHERE are its terms with AND between them, and nothing else. |
| Spelling.ItemsSpelled | internal/tql/parser.go:366-387 | The consumed tokens of an array are its values with commas between them. |
| Spelling.EdgesSpelled | internal/tql/parser.go:467-506 | The consumed tokens of an edge clause are one type, or a bracketed list, between "-" and "->". |
| Client.QuoteKeyIfNeeded | client/client.go:216-226 | The key as it is if all its characters can stand in an identifier, else the whole key as a JSON string. |
| Client.CommandsReachTheirKey | client/client.go:126 | For every identifier collection and every key, the GET, DELETE and HISTORY text parses to exactly that collection and key if the key needs quotes, is one identifier or is one number, and otherwise fails to parse: never a different key. |
| Client.SurvivingKeyTokens | client/client.go:216-226 | The text of a key that needs quotes, is one identifier or is one number is a single token with the key as its text. |
| Client.CommandIsOneLine | client/client.go:216-226 | The text holds no newline and no white space around it, whatever the key. |
| Client.CommandIsOneStatement | internal/server/server.go:68 | Parsed as a batch, as the server does, the text gives exactly the one statement, or an error. |

## Left out

- Instants.ParseInvertsEncodeIff: Parse is modelled on the layout's exact shape; Go's time.Parse also takes forms Encode never writes, such as a one-digit hour or a comma before the fraction.
- Backup.Snapshotter.Snapshot: states the call with no commit inside it; a commit between its statements is modelled in Replication, where a snapshot is three steps.
- FindOrder.SamePagesIff: fields that mix numbers, strings and other values are left out; on those `lessField` is no order.
- Executor.FindAgreesWithReplay: current documents are objects, null or absent, as PUT makes them; other JSON values enter only through the event store's own interface.
- Graph.GraphStore.RelatedAsOf: rows whose meta is not the routing triple of an edge, which only a direct write to `__edges__` makes, read as empty strings; such writes are excluded from the graph theorems.
- 64-bit overflow of seq and of times.
- I/O and SQL errors, torn JSON lines and concurrent file access (errors on stored times that do not parse are modelled); a transaction is one step, because writes are serialized by the store's mutex.
- SQLite, migrations, WAL and VACUUM: tables are values, a snapshot file is a whole database. Queries are modelled by their conditions and their order.
- sort.Slice and sort.SliceStable are stood in for by an in-place insertion sort; the results used do not depend on the algorithm.
- JSON text and float64: documents are compared as documents, numbers are exact but for the range check, and a shipped record's re-encoding keeps the document.
- Terms with an array where SQL binds one value and field names with an empty segment, which the SQL driver or SQLite rejects.
- The text SQLite renders for an array or object, a parameter of the WHERE comparison.
- Time zone code and the reading of time literals: instants are UTC, and a time literal is any text in a given set.
- Token positions and the wording of errors.
- Invalid UTF-8: text is a sequence of code points, and edge lengths count UTF-8 bytes.
- The client's PUT, FIND and SEARCH text, which embeds text the caller supplies, and its HTTP requests.
- SEARCH and vector search, the retention sweep, tickers and goroutine plumbing, the HTTP server, CLI, MCP tools and configuration.
- Recovery of the full current state after PURGE, which the code does not promise: records dropped from the sink are gone unless a snapshot holds them.
