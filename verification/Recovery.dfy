/** What Restore gives back after a run without purges. */
module Recovery {
  import opened Wrappers
  import opened Json
  import opened Temporal
  import opened EventStore
  import opened Backup
  import opened Replication
  import Instants

  // ---- the stream is a prefix of the log ----

  ghost predicate ShippingInv(s: System) {
    match s.shipper
    case Idle => s.lastSeq == |s.stream|
    case Read(batch) =>
      s.lastSeq == |s.stream| && batch != [] && |s.stream| + |batch| <= |s.log|
      && batch == s.log[|s.stream|..|s.stream| + |batch|]
    case Written(batch) => batch != [] && TopSeq(batch) == |s.stream|
    case Stopped => true
  }

  ghost predicate FileInv(name: SnapshotName, file: Database, log: seq<Event>) {
    0 <= name.seqNo <= file.counter <= |log| && file == DatabaseOf(log[..file.counter])
  }

  ghost predicate TailInv(s: System) {
    Numbered(s.log) && s.db == DatabaseOf(s.log) && s.stream <= s.log && ShippingInv(s)
  }

  ghost predicate PrefixInv(s: System) {
    && TailInv(s)
    && (!s.snapshotter.NoSnapshot? ==> 0 <= s.snapshotter.seqNo <= |s.log|)
    && forall n :: n in s.snapshots ==> FileInv(n, s.snapshots[n], s.log)
  }

  /** Everything after seq k is a tail of a numbered log. */
  lemma {:induction false} TailAfter(log: seq<Event>, k: nat)
    requires Numbered(log)
    ensures Select(log, After(k)) == if k <= |log| then log[k..] else []
  {
    if log != [] {
      TailAfter(log[..|log| - 1], k);
      if k < |log| {
        assert log[k..] == log[..|log| - 1][k..] + [log[|log| - 1]];
      }
    }
  }

  lemma TailOf(log: seq<Event>, k: nat)
    requires Numbered(log)
    ensures Select(log, After(k)) == Select(log, Replayable(k, None)) == if k <= |log| then log[k..] else []
  {
    TailAfter(log, k);
    SelectSame(log, After(k), Replayable(k, None));
  }

  lemma {:induction false} LastShippedOfPrefix(log: seq<Event>)
    requires Numbered(log)
    ensures LastShipped(log) == |log|
  {
    if log != [] {
      LastShippedOfPrefix(log[..|log| - 1]);
    }
  }

  lemma AppendKeepsTail(s: System, r: Request, now: Instant)
    requires TailInv(s)
    ensures TailInv(Next(s, Append(r, now)))
  {
    if WellFormed(r) {
      var e := EventFor(r, s.db.counter + 1, now);
      CommitExtendsLog(s.log, e);
      SliceStays(s.log, e, 0, |s.stream|);
      if s.shipper.Read? {
        SliceStays(s.log, e, |s.stream|, |s.stream| + |s.shipper.batch|);
      }
    }
  }

  lemma AppendKeepsFiles(s: System, r: Request, now: Instant)
    requires PrefixInv(s)
    ensures PrefixInv(Next(s, Append(r, now)))
  {
    AppendKeepsTail(s, r, now);
    if WellFormed(r) {
      var e, t := EventFor(r, s.db.counter + 1, now), Next(s, Append(r, now));
      FilesStay(s.snapshots, s.log, e);
      assert t.log == s.log + [e] && t.snapshots == s.snapshots && t.snapshotter == s.snapshotter;
    }
  }

  lemma FilesStay(snapshots: map<SnapshotName, Database>, log: seq<Event>, e: Event)
    requires forall n :: n in snapshots ==> FileInv(n, snapshots[n], log)
    ensures forall n :: n in snapshots ==> FileInv(n, snapshots[n], log + [e])
  {
    forall n | n in snapshots ensures FileInv(n, snapshots[n], log + [e]) {
      SliceStays(log, e, 0, snapshots[n].counter);
    }
  }

  lemma SliceStays(log: seq<Event>, e: Event, from: nat, to: nat)
    requires from <= to <= |log|
    ensures (log + [e])[from..to] == log[from..to] && (log + [e])[..to] == log[..to]
  {
  }

  lemma ShipKeepsTail(s: System, step: Step)
    requires TailInv(s) && (step.ShipRead? || step.ShipWrite? || step.ShipAck? || step.Restart?)
    ensures TailInv(Next(s, step))
  {
    match step
    case ShipRead =>
      if s.shipper.Idle? {
        TailOf(s.log, s.lastSeq);
      }
    case ShipWrite(capacity) =>
      if s.shipper.Read? {
        BatchContinues(s.log, s.stream, s.shipper.batch, capacity);
      }
    case ShipAck =>
    case Restart =>
      LastShippedOfPrefix(s.stream);
  }

  lemma BatchContinues(log: seq<Event>, stream: seq<Event>, batch: seq<Event>, capacity: nat)
    requires Numbered(log) && stream <= log && batch != [] && |stream| + |batch| <= |log|
    requires batch == log[|stream|..|stream| + |batch|]
    ensures stream + batch <= log && TopSeq(batch) == |stream| + |batch|
    ensures capacity < |batch| ==> stream + batch[..capacity] <= log
  {
    assert log[..|stream|] == stream && log[..|stream| + |batch|] == stream + batch;
    assert batch[|batch| - 1] == log[|stream| + |batch| - 1];
  }

  lemma StepKeepsTail(s: System, step: Step)
    requires TailInv(s) && !step.PurgeTable? && !step.PurgeSink?
    ensures TailInv(Next(s, step))
  {
    match step
    case Append(r, now) => AppendKeepsTail(s, r, now);
    case ShipRead => ShipKeepsTail(s, step);
    case ShipWrite(_) => ShipKeepsTail(s, step);
    case ShipAck => ShipKeepsTail(s, step);
    case Restart => ShipKeepsTail(s, step);
    case _ =>
  }

  lemma StepKeepsPrefix(s: System, step: Step)
    requires PrefixInv(s) && !step.PurgeTable? && !step.PurgeSink?
    ensures PrefixInv(Next(s, step))
  {
    StepKeepsTail(s, step);
    match step
    case Append(r, now) => AppendKeepsFiles(s, r, now);
    case SnapshotCopy =>
      assert s.log[..|s.log|] == s.log;
    case _ =>
  }

  lemma {:induction false} PrefixHolds(steps: seq<Step>)
    requires NoPurge(steps)
    ensures PrefixInv(Run(steps))
  {
    if steps != [] {
      PrefixHolds(steps[..|steps| - 1]);
      StepKeepsPrefix(Run(steps[..|steps| - 1]), steps[|steps| - 1]);
    }
  }

  lemma {:induction false} TailHoldsFrom(s: System, more: seq<Step>)
    requires TailInv(s) && NoPurge(more)
    ensures TailInv(RunFrom(s, more))
  {
    if more != [] {
      TailHoldsFrom(s, more[..|more| - 1]);
      StepKeepsTail(RunFrom(s, more[..|more| - 1]), more[|more| - 1]);
    }
  }

  /** Tailing by seq never skips a commit: the stream is always a prefix of the log,
      and while the shipper is idle it is exactly the part up to lastSeq. */
  lemma StreamIsAPrefix(steps: seq<Step>)
    requires NoPurge(steps)
    ensures var s := Run(steps);
            s.stream <= s.log
            && (s.shipper.Idle? ==>
                  (0 <= s.lastSeq <= |s.log| && s.stream == s.log[..s.lastSeq]
                   && forall e :: e in s.stream <==> e in s.log && e.seqNo <= s.lastSeq))
  {
    PrefixHolds(steps);
    var s := Run(steps);
    forall e ensures s.shipper.Idle? ==> (e in s.stream <==> e in s.log && e.seqNo <= s.lastSeq) {
      if s.shipper.Idle? && e in s.log && e.seqNo <= s.lastSeq {
        var i :| 0 <= i < |s.log| && s.log[i] == e;
        assert s.stream[i] == e;
      }
    }
  }

  /** A commit that cannot be read back, and every commit after it, is never shipped, across restarts too. */
  lemma UnreadableCommitStopsShipping(steps: seq<Step>, i: nat)
    requires NoPurge(steps) && i < |Run(steps).log| && !Readable(Run(steps).log[i])
    ensures |Run(steps).stream| <= i && forall e :: e in Run(steps).stream ==> e.seqNo <= i
  {
    PrefixHolds(steps);
    StreamIsReadable(steps);
    var s := Run(steps);
    assert forall j :: 0 <= j < |s.stream| ==> s.stream[j] == s.log[j] && s.stream[j] in s.stream;
  }

  // ---- full recovery ----

  function Max(a: int, b: int): int { if a < b then b else a }

  function FileCounter(pick: Option<SnapshotName>, snapshots: map<SnapshotName, Database>): int
    requires pick.Some? ==> pick.value in snapshots
  {
    Base(pick, snapshots).counter
  }

  /** Replaying log[q..k] onto the database of log[..c], q <= c, k: fails on the first repeated seq. */
  lemma ReplayOnto(log: seq<Event>, q: nat, c: nat, k: nat)
    requires Numbered(log) && q <= c <= |log| && k <= |log|
    ensures var es := if q <= k then log[q..k] else [];
            RestoreAll(DatabaseOf(log[..c]), es) ==
            if c == q || k <= q then Some(DatabaseOf(log[..Max(c, k)])) else None
  {
    if k <= q {
      assert (if q <= k then log[q..k] else []) == [];
    } else if c == q {
      ReplayContinuesLog(log, c, k);
    } else {
      ReplaySucceedsIff(DatabaseOf(log[..c]), log[q..k]);
      assert log[q..k][0] == log[q] && log[..c][q] == log[q];
      assert log[q] in log[..c] && HasSeq(log[..c], log[q].seqNo);
      assert log[q] in log[q..k];
    }
  }

  /** Restore to now succeeds exactly when the chosen snapshot's name covers its contents or nothing was shipped
      past that name, and then it gives back the log up to the furthest point either of them reached:
      events with their original seqs and times, live as the fold of that prefix, and the counter at its end. */
  lemma FullRecovery(steps: seq<Step>, pick: Option<SnapshotName>)
    requires NoPurge(steps) && IsLatest(pick, Run(steps).snapshots.Keys, None)
    ensures var s := Run(steps);
            var c, k := FileCounter(pick, s.snapshots), |s.stream|;
            0 <= c <= |s.log| && k <= |s.log|
            && Rebuild(pick, s.snapshots, s.stream, None) ==
               if c == BaseSeq(pick) || LastShipped(s.stream) <= BaseSeq(pick)
               then Some(DatabaseOf(s.log[..Max(c, k)])) else None
  {
    PrefixHolds(steps);
    var s := Run(steps);
    var k := |s.stream|;
    assert s.stream == s.log[..k];
    LastShippedOfPrefix(s.stream);
    TailOf(s.stream, BaseSeq(pick));
    assert EMPTY == DatabaseOf(s.log[..0]);
    if BaseSeq(pick) <= k {
      assert s.stream[BaseSeq(pick)..] == s.log[BaseSeq(pick)..k];
    }
    ReplayOnto(s.log, BaseSeq(pick), FileCounter(pick, s.snapshots), k);
  }

  /** The database after any number of commits is one the run has been in. */
  lemma {:induction false} EveryPrefixWasCurrent(steps: seq<Step>, m: nat) returns (n: nat)
    requires NoPurge(steps) && m <= |Run(steps).log|
    ensures n <= |steps| && Run(steps[..n]).db == DatabaseOf(Run(steps).log[..m])
  {
    var s := Run(steps);
    if m == |s.log| {
      n := |steps|;
      assert s.db == DatabaseOf(s.log) by { PrefixHolds(steps); }
      assert steps[..n] == steps && s.log[..m] == s.log;
    } else {
      var init := steps[..|steps| - 1];
      assert s == Next(Run(init), steps[|steps| - 1]);
      assert s.log[..m] == Run(init).log[..m];
      n := EveryPrefixWasCurrent(init, m);
      assert init[..n] == steps[..n];
    }
  }

  /** A restored database is, row for row and counter included, one that the original has been:
      Get, History, AsOf, ReplayAsOf and the next Append answer on it as they did then. */
  lemma RestoredOnceWasTheOriginal(steps: seq<Step>, pick: Option<SnapshotName>)
    requires NoPurge(steps) && IsLatest(pick, Run(steps).snapshots.Keys, None)
    ensures var r := Rebuild(pick, Run(steps).snapshots, Run(steps).stream, None);
            r.Some? ==> exists n :: 0 <= n <= |steps| && Run(steps[..n]).db == r.value
  {
    FullRecovery(steps, pick);
    var s := Run(steps);
    var n := EveryPrefixWasCurrent(steps, Max(FileCounter(pick, s.snapshots), |s.stream|));
  }

  /** The stream is a prefix of the server's own log, and while its shipper is idle exactly the part up to lastSeq. */
  ghost predicate StreamFollows(s: System) {
    s.stream <= s.log && (s.shipper.Idle? ==> 0 <= s.lastSeq <= |s.log| && s.stream == s.log[..s.lastSeq])
  }

  /** A server that goes on, with the same sink, from a restore that gave a prefix of the log ships on correctly in
      every further run without purges exactly if the restored counter has reached the sink's highest seq. */
  lemma ResumedFollowsIff(steps: seq<Step>, restored: Database, m: nat)
    requires NoPurge(steps) && m <= |Run(steps).log| && restored == DatabaseOf(Run(steps).log[..m])
    ensures var s := Run(steps);
            (forall more :: NoPurge(more) ==> StreamFollows(RunFrom(Resumed(s, restored), more)))
            <==> LastShipped(s.stream) <= restored.counter
  {
    PrefixHolds(steps);
    var s := Run(steps);
    LastShippedOfPrefix(s.stream);
    if |s.stream| <= m {
      ResumedTail(s, m);
      forall more | NoPurge(more) ensures StreamFollows(RunFrom(Resumed(s, restored), more)) {
        TailHoldsFrom(Resumed(s, restored), more);
      }
    } else {
      assert NoPurge([]) && RunFrom(Resumed(s, restored), []) == Resumed(s, restored);
      assert !StreamFollows(Resumed(s, restored));
    }
  }

  /** After a full restore it has. */
  lemma FullRestoreGoesOn(steps: seq<Step>, pick: Option<SnapshotName>, more: seq<Step>)
    requires NoPurge(steps) && IsLatest(pick, Run(steps).snapshots.Keys, None) && NoPurge(more)
    requires Rebuild(pick, Run(steps).snapshots, Run(steps).stream, None).Some?
    ensures var s := Run(steps);
            var r := Rebuild(pick, s.snapshots, s.stream, None).value;
            LastShipped(s.stream) <= r.counter && StreamFollows(RunFrom(Resumed(s, r), more))
  {
    FullRecovery(steps, pick);
    PrefixHolds(steps);
    var s := Run(steps);
    var m := Max(FileCounter(pick, s.snapshots), |s.stream|);
    LastShippedOfPrefix(s.stream);
    ResumedFollowsIff(steps, DatabaseOf(s.log[..m]), m);
  }

  lemma ResumedTail(s: System, m: nat)
    requires PrefixInv(s) && |s.stream| <= m <= |s.log|
    ensures TailInv(Resumed(s, DatabaseOf(s.log[..m])))
  {
    LastShippedOfPrefix(s.stream);
    assert s.stream == s.log[..|s.stream|] == s.log[..m][..|s.stream|];
  }

  // ---- point-in-time recovery ----

  function Reading(step: Step): Option<Instant> {
    match step
    case Append(_, now) => Some(now)
    case SnapshotClock(now) => Some(now)
    case _ => None
  }

  /** The wall clock never goes back. */
  ghost predicate Steady(steps: seq<Step>) {
    steps != [] ==>
      var init, now := steps[..|steps| - 1], Reading(steps[|steps| - 1]);
      Steady(init) && (now.Some? && Run(init).clock.Some? ==> Run(init).clock.value <= now.value)
  }

  ghost predicate Chronological(log: seq<Event>) {
    forall i, j :: 0 <= i < j < |log| ==> log[i].txTime <= log[j].txTime
  }

  /** Every event numbered up to seqNo was committed before second at was over. */
  ghost predicate CommittedBy(log: seq<Event>, seqNo: int, at: Instant) {
    forall i :: 0 <= i < |log| && i < seqNo ==> log[i].txTime < at + 1_000_000_000
  }

  ghost predicate ClockInv(s: System) {
    && Chronological(s.log)
    && (s.log != [] ==> s.clock.Some?)
    && (forall e :: e in s.log ==> e.txTime <= s.clock.value)
    && (!s.snapshotter.NoSnapshot? ==> s.snapshotter.seqNo <= |s.log|)
    && (s.snapshotter.Named? ==> CommittedBy(s.log, s.snapshotter.seqNo, s.snapshotter.at))
    && (forall n :: n in s.snapshots ==> n.seqNo <= |s.log| && CommittedBy(s.log, n.seqNo, n.at))
  }

  lemma CommittedByGrows(log: seq<Event>, e: Event, seqNo: int, at: Instant)
    requires CommittedBy(log, seqNo, at) && seqNo <= |log|
    ensures CommittedBy(log + [e], seqNo, at)
  {
  }

  lemma AppendKeepsClock(s: System, r: Request, now: Instant)
    requires ClockInv(s) && (s.clock.Some? ==> s.clock.value <= now)
    ensures ClockInv(Next(s, Append(r, now)))
  {
    if WellFormed(r) {
      var e := EventFor(r, s.db.counter + 1, now);
      forall i | 0 <= i < |s.log| ensures s.log[i].txTime <= e.txTime {
        assert s.log[i] in s.log;
      }
      if s.snapshotter.Named? {
        CommittedByGrows(s.log, e, s.snapshotter.seqNo, s.snapshotter.at);
      }
      forall n | n in s.snapshots ensures CommittedBy(s.log + [e], n.seqNo, n.at) {
        CommittedByGrows(s.log, e, n.seqNo, n.at);
      }
    }
  }

  lemma ClockStep(s: System, step: Step)
    requires ClockInv(s) && PrefixInv(s) && !step.PurgeTable? && !step.PurgeSink?
    requires Reading(step).Some? && s.clock.Some? ==> s.clock.value <= Reading(step).value
    ensures ClockInv(Next(s, step))
  {
    match step
    case Append(r, now) =>
      AppendKeepsClock(s, r, now);
    case SnapshotClock(now) =>
      ReadBySnapshot(s, now);
    case _ =>
  }

  lemma ReadBySnapshot(s: System, now: Instant)
    requires ClockInv(s) && (s.clock.Some? ==> s.clock.value <= now)
    ensures forall seqNo :: CommittedBy(s.log, seqNo, Instants.WholeSecond(now))
  {
    forall i | 0 <= i < |s.log| ensures s.log[i].txTime < Instants.WholeSecond(now) + 1_000_000_000 {
      assert s.log[i] in s.log;
    }
  }

  lemma {:induction false} ClockHolds(steps: seq<Step>)
    requires NoPurge(steps) && Steady(steps)
    ensures ClockInv(Run(steps))
  {
    if steps != [] {
      var init := steps[..|steps| - 1];
      ClockHolds(init);
      PrefixHolds(init);
      ClockStep(Run(init), steps[|steps| - 1]);
    }
  }

  /** From position q on, no event past the target comes before one within it. */
  ghost predicate NoGap(stream: seq<Event>, q: nat, t: Instant) {
    forall i, j :: 0 <= i < j < |stream| && q <= i && stream[j].txTime <= t ==> stream[i].txTime <= t
  }

  /** How far from position q on events stay within the target. */
  function Reach(stream: seq<Event>, q: nat, t: Instant): (n: nat)
    ensures q <= n && (q <= |stream| ==> n <= |stream|)
    ensures forall i :: q <= i < n ==> i < |stream| && stream[i].txTime <= t
    ensures n < |stream| ==> stream[n].txTime > t
    decreases |stream| - q
  {
    if q < |stream| && stream[q].txTime <= t then Reach(stream, q + 1, t) else q
  }

  /** Without a gap the records Restore replays for a target are one stretch of the log. */
  lemma StretchUpTo(log: seq<Event>, q: nat, t: Instant)
    requires Numbered(log) && NoGap(log, q, t) && q <= |log|
    ensures Select(log, Replayable(q, Some(t))) == log[q..Reach(log, q, t)]
  {
    var n, w := Reach(log, q, t), Replayable(q, Some(t));
    assert log == log[..n] + log[n..];
    SelectConcat(log[..n], log[n..], w);
    NothingBeyondReach(log, q, t);
    SelectNone(log[n..], w);
    AllWithinReach(log[..n], q, t);
    assert log[..n][q..] == log[q..n];
  }

  lemma AllWithinReach(log: seq<Event>, q: nat, t: Instant)
    requires Numbered(log) && q <= |log| && forall e :: e in log && q < e.seqNo ==> e.txTime <= t
    ensures Select(log, Replayable(q, Some(t))) == log[q..]
  {
    SelectSame(log, Replayable(q, Some(t)), Replayable(q, None));
    TailOf(log, q);
  }

  lemma NothingBeyondReach(log: seq<Event>, q: nat, t: Instant)
    requires Numbered(log) && NoGap(log, q, t) && q <= |log|
    ensures var n := Reach(log, q, t);
            (forall e :: e in log[n..] ==> e.txTime > t) && (forall e :: e in log[..n] && q < e.seqNo ==> e.txTime <= t)
  {
  }

  /** log[..m] holds every shipped event committed by the target and none committed a second or more after it.
      It is exact when there is no snapshot to start from, and otherwise
      if and only if the snapshot holds nothing newer than the target. */
  ghost predicate MeetsTarget(s: System, pick: Option<SnapshotName>, target: Instant, m: nat)
    requires m <= |s.log| && (pick.Some? ==> pick.value in s.snapshots)
  {
    && (forall e :: e in s.stream && e.txTime <= target ==> e in s.log[..m])
    && (forall e :: e in s.log[..m] ==> e.txTime < target + 1_000_000_000)
    && ((forall e :: e in s.log[..m] ==> e.txTime <= target)
        <==> forall e :: e in Base(pick, s.snapshots).events ==> e.txTime <= target)
    && (pick.None? ==> forall e :: e in s.log[..m] <==> e in s.stream && e.txTime <= target)
  }

  /** No shipped event that the snapshot holds past its own name is within the target. */
  ghost predicate Untouched(stream: seq<Event>, q: int, c: int, t: Instant) {
    forall e :: e in stream && q < e.seqNo <= c ==> t < e.txTime
  }

  /** Whatever the clock does and however the snapshot was taken: Restore to a target succeeds exactly when the replay
      does not touch the snapshot's contents, and then gives a prefix of the log, rows, live and counter, exactly when
      the stream has no gap past the snapshot. */
  lemma RestoreIsAPrefixIff(steps: seq<Step>, target: Instant, pick: Option<SnapshotName>)
    requires NoPurge(steps) && IsLatest(pick, Run(steps).snapshots.Keys, Some(target))
    ensures var s := Run(steps);
            var r, c := Rebuild(pick, s.snapshots, s.stream, Some(target)), FileCounter(pick, s.snapshots);
            && 0 <= c <= |s.log|
            && (r.Some? <==> Untouched(s.stream, BaseSeq(pick), c, target))
            && (r.Some? ==>
                  (NoGap(s.stream, c, target) <==> exists m :: 0 <= m <= |s.log| && r.value == DatabaseOf(s.log[..m]))
                  && (NoGap(s.stream, c, target) <==> exists m :: 0 <= m <= |s.log| && r.value.events == s.log[..m]))
  {
    PrefixHolds(steps);
    var s := Run(steps);
    RebuildIsReplay(s, pick, target);
    ReplayIsPrefixIff(s.log, s.stream, BaseSeq(pick), FileCounter(pick, s.snapshots), target);
  }

  lemma ReplayIsPrefixIff(log: seq<Event>, stream: seq<Event>, q: int, c: nat, t: Instant)
    requires Numbered(log) && stream <= log && q <= c <= |log|
    ensures var r := ReplayFrom(log, stream, q, c, t);
            && (r.Some? <==> Untouched(stream, q, c, t))
            && (r.Some? ==> (NoGap(stream, c, t) <==> exists m :: 0 <= m <= |log| && r.value == DatabaseOf(log[..m])))
            && (r.Some? ==> (NoGap(stream, c, t) <==> exists m :: 0 <= m <= |log| && r.value.events == log[..m]))
  {
    var r := ReplayFrom(log, stream, q, c, t);
    ReplayMembers(log, stream, q, c, t);
    if r.Some? && NoGap(stream, c, t) {
      var m := ReplayIsPrefix(log, stream, q, c, t);
      assert r.value == DatabaseOf(log[..m]) && r.value.events == log[..m];
    }
    if m: nat :| r.Some? && m <= |log| && r.value.events == log[..m] {
      PrefixHasNoGap(log, stream, c, t, m, r.value.events);
    }
  }

  /** The replay onto the database of log[..c] of what stream holds past seq q, up to t. */
  function ReplayFrom(log: seq<Event>, stream: seq<Event>, q: int, c: nat, t: Instant): Option<Database>
    requires c <= |log|
  {
    RestoreAll(DatabaseOf(log[..c]), Select(stream, Replayable(q, Some(t))))
  }

  lemma ReplayMembers(log: seq<Event>, stream: seq<Event>, q: int, c: nat, t: Instant)
    requires Numbered(log) && stream <= log && q <= c <= |log|
    ensures var r := ReplayFrom(log, stream, q, c, t);
            && (r.Some? <==> Untouched(stream, q, c, t))
            && (r.Some? ==> forall e :: e in r.value.events <==> FromEither(e, log, stream, c, t))
  {
    var es := Select(stream, Replayable(q, Some(t)));
    ReplayedMembers(log, stream, q, c, t);
    ReplaySucceedsIff(DatabaseOf(log[..c]), es);
  }

  lemma ReplayedMembers(log: seq<Event>, stream: seq<Event>, q: int, c: nat, t: Instant)
    requires Numbered(log) && stream <= log && q <= c <= |log|
    ensures var es := Select(stream, Replayable(q, Some(t)));
            && DistinctSeqs(es)
            && (Untouched(stream, q, c, t) <==> forall e :: e in es ==> !HasSeq(log[..c], e.seqNo))
            && (Untouched(stream, q, c, t) ==>
                  forall e :: e in log[..c] || e in es <==> FromEither(e, log, stream, c, t))
  {
    var es := Select(stream, Replayable(q, Some(t)));
    SelectMembers(stream, Replayable(q, Some(t)));
    SelectIncreasing(stream, Replayable(q, Some(t)));
    assert forall e :: e in es <==> e in stream && q < e.seqNo && e.txTime <= t;
    ReplayedAreFree(log, stream, es, q, c, t);
  }

  lemma ReplayedAreFree(log: seq<Event>, stream: seq<Event>, es: seq<Event>, q: int, c: nat, t: Instant)
    requires Numbered(log) && stream <= log && c <= |log|
    requires forall e :: e in es <==> e in stream && q < e.seqNo && e.txTime <= t
    ensures Untouched(stream, q, c, t) <==> forall e :: e in es ==> !HasSeq(log[..c], e.seqNo)
  {
    forall e | e in stream ensures HasSeq(log[..c], e.seqNo) <==> e.seqNo <= c {
      SeqsOfPrefix(log, c, e);
    }
  }

  /** e is in the snapshot, or in the stream past it and within the target. */
  ghost predicate FromEither(e: Event, log: seq<Event>, stream: seq<Event>, c: nat, t: Instant)
    requires c <= |log|
  {
    e in log[..c] || (e in stream && c < e.seqNo && e.txTime <= t)
  }

  lemma RebuildIsReplay(s: System, pick: Option<SnapshotName>, target: Instant)
    requires PrefixInv(s) && (pick.Some? ==> pick.value in s.snapshots)
    ensures var q, c := BaseSeq(pick), FileCounter(pick, s.snapshots);
            0 <= q <= c <= |s.log|
            && Rebuild(pick, s.snapshots, s.stream, Some(target)) == ReplayFrom(s.log, s.stream, q, c, target)
  {
    BaseIsPrefix(s, pick);
  }

  lemma BaseIsPrefix(s: System, pick: Option<SnapshotName>)
    requires PrefixInv(s) && (pick.Some? ==> pick.value in s.snapshots)
    ensures var c := FileCounter(pick, s.snapshots);
            0 <= BaseSeq(pick) <= c <= |s.log| && Base(pick, s.snapshots) == DatabaseOf(s.log[..c])
  {
    if pick.Some? {
      assert FileInv(pick.value, s.snapshots[pick.value], s.log);
    } else {
      assert s.log[..0] == [];
    }
  }

  lemma SeqsOfPrefix(log: seq<Event>, c: nat, e: Event)
    requires Numbered(log) && c <= |log| && e in log
    ensures HasSeq(log[..c], e.seqNo) <==> e.seqNo <= c
  {
    if e.seqNo <= c {
      var i :| 0 <= i < |log| && log[i] == e;
      assert log[..c][i] == e;
    }
  }

  /** Without a gap the replay runs on from the snapshot. */
  lemma ReplayIsPrefix(log: seq<Event>, stream: seq<Event>, q: int, c: nat, t: Instant) returns (m: nat)
    requires Numbered(log) && stream <= log && q <= c <= |log| && Untouched(stream, q, c, t) && NoGap(stream, c, t)
    ensures m <= |log| && ReplayFrom(log, stream, q, c, t) == Some(DatabaseOf(log[..m]))
  {
    SelectSame(stream, Replayable(q, Some(t)), Replayable(c, Some(t)));
    if c <= |stream| {
      m := Reach(stream, c, t);
      StretchUpTo(stream, c, t);
      assert stream[c..m] == log[c..m];
    } else {
      m := c;
      SelectNone(stream, Replayable(c, Some(t)));
      assert log[c..c] == [];
    }
    ReplayOnto(log, c, c, m);
  }

  lemma PrefixHasNoGap(log: seq<Event>, stream: seq<Event>, c: nat, t: Instant, m: nat, events: seq<Event>)
    requires Numbered(log) && stream <= log && c <= |log| && m <= |log| && events == log[..m]
    requires forall e :: e in events <==> FromEither(e, log, stream, c, t)
    ensures NoGap(stream, c, t)
  {
    forall i, j | 0 <= i < j < |stream| && c <= i && stream[j].txTime <= t ensures stream[i].txTime <= t {
      assert stream[j] in events;
      SeqsOfPrefix(log, m, stream[j]);
      assert events[i] == log[i] == stream[i] && stream[i] in events;
      SeqsOfPrefix(log, c, stream[i]);
    }
  }

  /** Restore to a target, from an unraced snapshot or none, under a clock that never goes back,
      gives the database of a prefix of the log that meets the target to within a second. */
  lemma PointInTimeRecovery(steps: seq<Step>, target: Instant, pick: Option<SnapshotName>)
    requires NoPurge(steps) && Steady(steps)
    requires IsLatest(pick, Run(steps).snapshots.Keys, Some(target))
    requires Unraced(pick, Run(steps).snapshots)
    ensures var s := Run(steps);
            exists m :: 0 <= m <= |s.log| && MeetsTarget(s, pick, target, m)
                        && Rebuild(pick, s.snapshots, s.stream, Some(target)) == Some(DatabaseOf(s.log[..m]))
  {
    PrefixHolds(steps);
    ClockHolds(steps);
    var s := Run(steps);
    UnracedCounter(s, pick);
    RebuildIsReplay(s, pick, target);
    ReplayMembers(s.log, s.stream, BaseSeq(pick), BaseSeq(pick), target);
    ChronologicalHasNoGap(s.log, s.stream, BaseSeq(pick), target);
    RestoreIsAPrefixIff(steps, target, pick);
    var m :| 0 <= m <= |s.log| && Rebuild(pick, s.snapshots, s.stream, Some(target)).value == DatabaseOf(s.log[..m]);
    TargetIsMet(s, pick, target, m);
  }

  lemma UnracedCounter(s: System, pick: Option<SnapshotName>)
    requires PrefixInv(s) && (pick.Some? ==> pick.value in s.snapshots) && Unraced(pick, s.snapshots)
    ensures 0 <= BaseSeq(pick) <= |s.log| && Base(pick, s.snapshots) == DatabaseOf(s.log[..BaseSeq(pick)])
  {
    if pick.Some? {
      var file := s.snapshots[pick.value];
      assert FileInv(pick.value, file, s.log);
      if 0 < file.counter {
        assert file.events[file.counter - 1] in file.events;
      }
    } else {
      assert s.log[..0] == [];
    }
  }

  /** A chronological log has no gap. */
  lemma ChronologicalHasNoGap(log: seq<Event>, stream: seq<Event>, q: nat, t: Instant)
    requires Chronological(log) && stream <= log
    ensures NoGap(stream, q, t)
  {
  }

  lemma TargetIsMet(s: System, pick: Option<SnapshotName>, target: Instant, m: nat)
    requires PrefixInv(s) && ClockInv(s) && m <= |s.log| && 0 <= BaseSeq(pick) <= |s.log|
    requires IsLatest(pick, s.snapshots.Keys, Some(target)) && Unraced(pick, s.snapshots)
    requires forall e :: e in s.log[..m] <==> FromEither(e, s.log, s.stream, BaseSeq(pick), target)
    ensures MeetsTarget(s, pick, target, m)
  {
    var q := BaseSeq(pick);
    UnracedCounter(s, pick);
    forall e | e in s.stream && e.txTime <= target ensures FromEither(e, s.log, s.stream, q, target) {
      var i :| 0 <= i < |s.stream| && s.stream[i] == e;
      if i < q { assert s.log[..q][i] == e; }
    }
    forall e | e in s.log[..q] ensures e.txTime < target + 1_000_000_000 {
      CommittedInTime(s, pick.value, e, target);
    }
  }

  lemma CommittedInTime(s: System, name: SnapshotName, e: Event, target: Instant)
    requires ClockInv(s) && name in s.snapshots && name.at <= target && 0 <= name.seqNo <= |s.log| &&
          e in s.log[..name.seqNo]
    ensures e.txTime < target + 1_000_000_000
  {
    var i :| 0 <= i < name.seqNo && s.log[i] == e;
    assert CommittedBy(s.log, name.seqNo, name.at);
  }

  // ---- runs where Restore falls short ----

  lemma RunNext(steps: seq<Step>, i: nat)
    requires i < |steps|
    ensures Run(steps[..i + 1]) == Next(Run(steps[..i]), steps[i])
  {
    assert steps[..i + 1][..i] == steps[..i];
  }

  const PUT := Request("c", "k", Put, Some(Obj(map[])), None, None)

  lemma {:induction false} ShipAllOf(steps: seq<Step>, i: nat, s: System)
    requires i + 3 <= |steps| && steps[i..i + 3] == [ShipRead, ShipWrite(|s.log|), ShipAck]
    requires Run(steps[..i]) == s && s.db.events == s.log && Numbered(s.log)
    requires s.log != [] && s.lastSeq == 0 && s.shipper == Idle && s.stream == [] && AllReadable(s.log)
    ensures Run(steps[..i + 3]) == s.(stream := s.log, lastSeq := |s.log|)
  {
    assert steps[i] == steps[i..i + 3][0] && steps[i + 1] == steps[i..i + 3][1] && steps[i + 2] == steps[i..i + 3][2];
    TailOf(s.log, 0);
    RunNext(steps, i);
    RunNext(steps, i + 1);
    RunNext(steps, i + 2);
  }

  /** A commit between MAX(seq) and the copy, once shipped, makes Restore repeat a primary key. */
  lemma RacedSnapshotBlocksRestore(steps: seq<Step>, pick: Option<SnapshotName>)
    requires steps == [SnapshotSeq, Append(PUT, 0), SnapshotClock(0), SnapshotCopy] + [ShipRead, ShipWrite(1), ShipAck]
    requires pick == Some(SnapshotName(0, 0))
    ensures var s := Run(steps);
            NoPurge(steps) && IsLatest(pick, s.snapshots.Keys, None)
            && Rebuild(pick, s.snapshots, s.stream, None) == None
  {
    var e := EventFor(PUT, 1, 0);
    RacedRun(steps, e);
    LastShippedOfPrefix([e]);
    FullRecovery(steps, pick);
  }

  lemma RacedRun(steps: seq<Step>, e: Event)
    requires steps == [SnapshotSeq, Append(PUT, 0), SnapshotClock(0), SnapshotCopy] + [ShipRead, ShipWrite(1), ShipAck]
    requires e == EventFor(PUT, 1, 0)
    ensures Run(steps).log == Run(steps).stream == [e] &&
          Run(steps).snapshots == map[SnapshotName(0, 0) := Commit(EMPTY, e)]
  {
    var s4 := INIT.(db := Commit(EMPTY, e), log := [e], clock := Some(0),
                    snapshots := map[SnapshotName(0, 0) := Commit(EMPTY, e)]);
    assert steps[..0] == [] && steps[..7] == steps;
    RunNext(steps, 0);
    RunNext(steps, 1);
    RunNext(steps, 2);
    RunNext(steps, 3);
    assert Run(steps[..4]) == s4;
    ShipAllOf(steps, 4, s4);
  }

  /** The file name cuts the snapshot's time to the second, so a restore to an earlier instant of that second
      brings back an event committed after it. */
  lemma RestoreCanOvershootWithinASecond(steps: seq<Step>, pick: Option<SnapshotName>)
    requires steps == [Append(PUT, 1_000_000_005), SnapshotSeq, SnapshotClock(1_000_000_006), SnapshotCopy]
    requires pick == Some(SnapshotName(1, 1_000_000_000))
    ensures var s, target := Run(steps), 1_000_000_002;
            NoPurge(steps) && IsLatest(pick, s.snapshots.Keys, Some(target)) && Unraced(pick, s.snapshots)
            && Rebuild(pick, s.snapshots, s.stream, Some(target)) == Some(s.db)
            && exists e :: e in s.db.events && target < e.txTime
  {
    OvershootRun(steps, EventFor(PUT, 1, 1_000_000_005));
  }

  lemma OvershootRun(steps: seq<Step>, e: Event)
    requires steps == [Append(PUT, 1_000_000_005), SnapshotSeq, SnapshotClock(1_000_000_006), SnapshotCopy]
    requires e == EventFor(PUT, 1, 1_000_000_005)
    ensures var s := Run(steps);
            s.snapshots == map[SnapshotName(1, 1_000_000_000) := s.db] && s.db.events == [e] && s.stream == []
  {
    assert steps[..0] == [] && steps[..4] == steps;
    RunNext(steps, 0);
    RunNext(steps, 1);
    RunNext(steps, 2);
    RunNext(steps, 3);
  }

  /** When the clock goes back, a point-in-time restore can leave a gap and is then no prefix of the log. */
  lemma UnsteadyClockLeavesAGap(steps: seq<Step>)
    requires steps == [Append(PUT, 20), Append(PUT, 10)] + [ShipRead, ShipWrite(2), ShipAck]
    ensures var s, r := Run(steps), Rebuild(None, Run(steps).snapshots, Run(steps).stream, Some(15));
            NoPurge(steps) && IsLatest(None, s.snapshots.Keys, Some(15))
            && r.Some? && forall m :: 0 <= m <= |s.log| ==> r.value.events != s.log[..m]
  {
    var a, b := EventFor(PUT, 1, 20), EventFor(PUT, 2, 10);
    TwoPuts(steps, a, b);
    OnlyTheSecond(a, b);
  }

  lemma TwoPuts(steps: seq<Step>, a: Event, b: Event)
    requires steps == [Append(PUT, 20), Append(PUT, 10)] + [ShipRead, ShipWrite(2), ShipAck]
    requires a == EventFor(PUT, 1, 20) && b == EventFor(PUT, 2, 10)
    ensures var s := Run(steps); s.stream == s.log == [a, b] && s.snapshots == map[]
  {
    var s2 := INIT.(db := Commit(Commit(EMPTY, a), b), log := [a, b], clock := Some(10));
    assert steps[..0] == [] && steps[..5] == steps;
    RunNext(steps, 0);
    RunNext(steps, 1);
    assert Run(steps[..2]) == s2;
    ShipAllOf(steps, 2, s2);
  }

  lemma OnlyTheSecond(a: Event, b: Event)
    requires a.seqNo == 1 && b.seqNo == 2 && b.txTime <= 15 < a.txTime
    ensures var r := RestoreAll(EMPTY, Select([a, b], Replayable(0, Some(15))));
            r.Some? && r.value.events == [b] && forall m :: 0 <= m <= 2 ==> [b] != [a, b][..m]
  {
    assert [a, b][..1] == [a] && [a][..0] == [];
    var w := Replayable(0, Some(15));
    assert Select([a], w) == [] && Holds(w, b);
    assert Select([a, b], w) == Select([a], w) + [b] == [b];
    RestoreStep(EMPTY, [], EMPTY, b);
    assert [] + [b] == [b];
    forall m | 0 <= m <= 2 ensures [b] != [a, b][..m] {
      if m > 0 { assert [a, b][..m][0] == a; }
    }
  }
}
