/** The server as one state machine: every interleaving of commits, shipping, snapshots, purges and restarts. */
module Replication {
  import opened Wrappers
  import opened Temporal
  import opened EventStore
  import opened Backup
  import Instants

  /** Where shipOnce is: between calls, holding the batch it read, or done writing it but not yet past it.
      A row that cannot be read back or a refused record ends the shipper until the process restarts. */
  datatype ShipperPhase = Idle | Read(batch: seq<Event>) | Written(batch: seq<Event>) | Stopped

  /** Where Snapshot is: before MAX(seq), after it, and after the clock reading that names the file. */
  datatype SnapshotPhase = NoSnapshot | SeqRead(seqNo: int) | Named(seqNo: int, at: Instant)

  /** log holds every event ever committed and clock the last wall-clock reading; neither is stored anywhere. */
  datatype System = System(
    db: Database, stream: seq<Event>, snapshots: map<SnapshotName, Database>,
    lastSeq: int, shipper: ShipperPhase, snapshotter: SnapshotPhase,
    log: seq<Event>, clock: Option<Instant>)

  datatype Step =
    | Append(request: Request, now: Instant)
    | ShipRead | ShipWrite(capacity: nat) | ShipAck
    | SnapshotSeq | SnapshotClock(now: Instant) | SnapshotCopy | SnapshotFail
    | PurgeTable(collection: string, cutoff: Instant) | PurgeSink(cutoff: Instant)
    | Restart

  const INIT := System(EMPTY, [], map[], 0, Idle, NoSnapshot, [], None)

  /** A step that is not possible in s leaves s as it is. */
  function Next(s: System, step: Step): System {
    match step
    case Append(r, now) =>
      if !WellFormed(r) then s else
        var e := EventFor(r, s.db.counter + 1, now);
        s.(db := Commit(s.db, e), log := s.log + [e], clock := Some(now))
    case ShipRead =>
      var batch := Select(s.db.events, After(s.lastSeq));
      if !s.shipper.Idle? || batch == [] then s
      else s.(shipper := if AllReadable(batch) then Read(batch) else Stopped)
    case ShipWrite(capacity) =>
      if !s.shipper.Read? then s
      else if capacity < |s.shipper.batch| then
        s.(stream := s.stream + s.shipper.batch[..capacity], shipper := Stopped)
      else s.(stream := s.stream + s.shipper.batch, shipper := Written(s.shipper.batch))
    case ShipAck =>
      if s.shipper.Written? then s.(lastSeq := TopSeq(s.shipper.batch), shipper := Idle) else s
    case SnapshotSeq =>
      if s.snapshotter.NoSnapshot? then s.(snapshotter := SeqRead(TopSeq(s.db.events))) else s
    case SnapshotClock(now) =>
      if s.snapshotter.SeqRead? then
        s.(snapshotter := Named(s.snapshotter.seqNo, Instants.WholeSecond(now)), clock := Some(now))
      else s
    case SnapshotCopy =>
      if s.snapshotter.Named? then
        s.(snapshots := s.snapshots[SnapshotName(s.snapshotter.seqNo, s.snapshotter.at) := s.db],
           snapshotter := NoSnapshot)
      else s
    case SnapshotFail => s.(snapshotter := NoSnapshot)
    case PurgeTable(collection, cutoff) =>
      s.(db := s.db.(events := Select(s.db.events, Unpurged(collection, SqlBefore(cutoff)))))
    case PurgeSink(cutoff) => s.(stream := Select(s.stream, Since(cutoff)))
    case Restart => s.(lastSeq := LastShipped(s.stream), shipper := Idle, snapshotter := NoSnapshot)
  }

  function RunFrom(s: System, steps: seq<Step>): System {
    if steps == [] then s else Next(RunFrom(s, steps[..|steps| - 1]), steps[|steps| - 1])
  }

  function Run(steps: seq<Step>): System { RunFrom(INIT, steps) }

  ghost predicate NoPurge(steps: seq<Step>) {
    forall i :: 0 <= i < |steps| ==> !steps[i].PurgeTable? && !steps[i].PurgeSink?
  }

  // ---- every run, purges included ----

  /** es is part of the log, in log order. */
  ghost predicate Recorded(es: seq<Event>, log: seq<Event>) {
    Increasing(es) && forall e :: e in es ==> 1 <= e.seqNo <= |log| && log[e.seqNo - 1] == e
  }

  ghost predicate AtMost(es: seq<Event>, bound: int) { forall e :: e in es ==> e.seqNo <= bound }

  ghost predicate Beyond(es: seq<Event>, bound: int) { forall e :: e in es ==> bound < e.seqNo }

  ghost predicate ShipperInv(s: System) {
    match s.shipper
    case Idle => AtMost(s.stream, s.lastSeq)
    case Read(batch) => AtMost(s.stream, s.lastSeq) && batch != [] && Recorded(batch, s.log) && Beyond(batch, s.lastSeq)
    case Written(batch) => batch != [] && Recorded(batch, s.log) && AtMost(s.stream, TopSeq(batch))
    case Stopped => true
  }

  /** A snapshot file holds part of the log and the live table of the log at the moment of the copy. */
  ghost predicate SnapshotInv(name: SnapshotName, file: Database, log: seq<Event>) {
    && 0 <= name.seqNo <= file.counter <= |log| && Recorded(file.events, log[..file.counter])
    && file.live == LiveOf(log[..file.counter])
  }

  ghost predicate Inv(s: System) {
    && Numbered(s.log) && s.db.counter == |s.log| && s.db.live == LiveOf(s.log)
    && Recorded(s.db.events, s.log) && Recorded(s.stream, s.log)
    && ShipperInv(s)
    && (!s.snapshotter.NoSnapshot? ==> 0 <= s.snapshotter.seqNo <= |s.log|)
    && forall n :: n in s.snapshots ==> SnapshotInv(n, s.snapshots[n], s.log)
  }

  lemma RecordedGrows(es: seq<Event>, log: seq<Event>, e: Event)
    requires Recorded(es, log)
    ensures Recorded(es, log + [e])
  {
  }

  lemma RecordedPart(es: seq<Event>, log: seq<Event>, w: Where)
    requires Recorded(es, log)
    ensures Recorded(Select(es, w), log)
  {
    SelectIncreasing(es, w);
    SelectMembers(es, w);
  }

  lemma RecordedJoin(es: seq<Event>, more: seq<Event>, log: seq<Event>, bound: int)
    requires Recorded(es, log) && Recorded(more, log) && AtMost(es, bound) && Beyond(more, bound)
    ensures Recorded(es + more, log)
  {
    forall i, j | 0 <= i < j < |es + more| ensures (es + more)[i].seqNo < (es + more)[j].seqNo {
      if i < |es| <= j {
        assert es[i] in es && more[j - |es|] in more;
      }
    }
  }

  lemma TopIsHighest(es: seq<Event>)
    requires Increasing(es)
    ensures AtMost(es, TopSeq(es))
  {
  }

  lemma {:induction false} LastShippedIsHighest(stream: seq<Event>)
    ensures AtMost(stream, LastShipped(stream))
  {
    if stream != [] {
      LastShippedIsHighest(stream[..|stream| - 1]);
      assert stream == stream[..|stream| - 1] + [stream[|stream| - 1]];
    }
  }

  lemma SnapshotStays(name: SnapshotName, file: Database, log: seq<Event>, e: Event)
    requires SnapshotInv(name, file, log)
    ensures SnapshotInv(name, file, log + [e])
  {
    assert (log + [e])[..file.counter] == log[..file.counter];
  }

  lemma AppendKeepsInv(s: System, r: Request, now: Instant)
    requires Inv(s)
    ensures Inv(Next(s, Append(r, now)))
  {
    if WellFormed(r) {
      var e := EventFor(r, s.db.counter + 1, now);
      CommitExtendsLog(s.log, e);
      CommitIsRecorded(s.db.events, s.log, e);
      CommitKeepsShipper(s, Next(s, Append(r, now)), e);
      CommitKeepsSnapshots(s.snapshots, s.log, e);
    }
  }

  lemma CommitKeepsShipper(s: System, t: System, e: Event)
    requires Inv(s) && t.log == s.log + [e] && t.stream == s.stream && t.shipper == s.shipper && t.lastSeq == s.lastSeq
    ensures Recorded(t.stream, t.log) && ShipperInv(t)
  {
    RecordedGrows(s.stream, s.log, e);
    if s.shipper.Read? || s.shipper.Written? {
      RecordedGrows(s.shipper.batch, s.log, e);
    }
  }

  lemma CommitKeepsSnapshots(snapshots: map<SnapshotName, Database>, log: seq<Event>, e: Event)
    requires forall n :: n in snapshots ==> SnapshotInv(n, snapshots[n], log)
    ensures forall n :: n in snapshots ==> SnapshotInv(n, snapshots[n], log + [e])
  {
    forall n | n in snapshots ensures SnapshotInv(n, snapshots[n], log + [e]) {
      SnapshotStays(n, snapshots[n], log, e);
    }
  }

  lemma CommitIsRecorded(es: seq<Event>, log: seq<Event>, e: Event)
    requires Recorded(es, log) && e.seqNo == |log| + 1
    ensures Recorded(es + [e], log + [e])
  {
    RecordedGrows(es, log, e);
    assert Recorded([e], log + [e]);
    RecordedJoin(es, [e], log + [e], |log|);
  }

  lemma ShipKeepsInv(s: System, step: Step)
    requires Inv(s) && (step.ShipRead? || step.ShipWrite? || step.ShipAck?)
    ensures Inv(Next(s, step))
  {
    match step
    case ShipRead => ReadKeepsInv(s);
    case ShipWrite(capacity) => WriteKeepsInv(s, capacity);
    case ShipAck =>
  }

  lemma ReadKeepsInv(s: System)
    requires Inv(s)
    ensures Inv(Next(s, ShipRead))
  {
    RecordedPart(s.db.events, s.log, After(s.lastSeq));
    SelectMembers(s.db.events, After(s.lastSeq));
  }

  lemma WriteKeepsInv(s: System, capacity: nat)
    requires Inv(s)
    ensures Inv(Next(s, ShipWrite(capacity)))
  {
    if s.shipper.Read? {
      var batch := s.shipper.batch;
      var front := if capacity < |batch| then batch[..capacity] else batch;
      ShippedIsRecorded(s.stream, batch, front, s.log, s.lastSeq);
    }
  }

  lemma ShippedIsRecorded(stream: seq<Event>, batch: seq<Event>, front: seq<Event>, log: seq<Event>, lastSeq: int)
    requires Recorded(stream, log) && AtMost(stream, lastSeq)
    requires batch != [] && front <= batch && Recorded(batch, log) && Beyond(batch, lastSeq)
    ensures Recorded(stream + front, log) && AtMost(stream + front, TopSeq(batch))
  {
    assert Recorded(front, log) && Beyond(front, lastSeq);
    RecordedJoin(stream, front, log, lastSeq);
    TopIsHighest(batch);
    assert batch[|batch| - 1] in batch && forall e :: e in front ==> e in batch;
  }

  lemma SnapshotKeepsInv(s: System, step: Step)
    requires Inv(s) && (step.SnapshotSeq? || step.SnapshotClock? || step.SnapshotCopy? || step.SnapshotFail?)
    ensures Inv(Next(s, step))
  {
    match step
    case SnapshotSeq =>
      if s.db.events != [] { assert s.db.events[|s.db.events| - 1] in s.db.events; }
    case SnapshotClock(now) =>
    case SnapshotCopy =>
      assert s.log[..|s.log|] == s.log;
    case SnapshotFail =>
  }

  lemma PurgeKeepsInv(s: System, step: Step)
    requires Inv(s) && (step.PurgeTable? || step.PurgeSink? || step.Restart?)
    ensures Inv(Next(s, step))
  {
    match step
    case PurgeTable(collection, cutoff) =>
      RecordedPart(s.db.events, s.log, Unpurged(collection, SqlBefore(cutoff)));
    case PurgeSink(cutoff) =>
      RecordedPart(s.stream, s.log, Since(cutoff));
      SelectMembers(s.stream, Since(cutoff));
    case Restart =>
      LastShippedIsHighest(s.stream);
  }

  lemma StepKeepsInv(s: System, step: Step)
    requires Inv(s)
    ensures Inv(Next(s, step))
  {
    match step
    case Append(r, now) => AppendKeepsInv(s, r, now);
    case ShipRead => ShipKeepsInv(s, step);
    case ShipWrite(_) => ShipKeepsInv(s, step);
    case ShipAck => ShipKeepsInv(s, step);
    case SnapshotSeq => SnapshotKeepsInv(s, step);
    case SnapshotClock(_) => SnapshotKeepsInv(s, step);
    case SnapshotCopy => SnapshotKeepsInv(s, step);
    case SnapshotFail => SnapshotKeepsInv(s, step);
    case PurgeTable(_, _) => PurgeKeepsInv(s, step);
    case PurgeSink(_) => PurgeKeepsInv(s, step);
    case Restart => PurgeKeepsInv(s, step);
  }

  lemma {:induction false} InvHolds(steps: seq<Step>)
    ensures Inv(Run(steps))
  {
    if steps != [] {
      InvHolds(steps[..|steps| - 1]);
      StepKeepsInv(Run(steps[..|steps| - 1]), steps[|steps| - 1]);
    }
  }

  /** No event is ever shipped twice or out of order, and what is shipped is what was committed. */
  lemma StreamNeverRepeats(steps: seq<Step>)
    ensures var s := Run(steps);
            Increasing(s.stream) && forall e :: e in s.stream ==> e in s.log
  {
    InvHolds(steps);
  }

  /** The live table survives every purge: each row is the newest event ever committed for its key. */
  lemma LiveIsAlwaysNewest(steps: seq<Step>, ref: Ref)
    ensures var s := Run(steps);
            && (ref in s.db.live <==> exists e :: e in s.log && RefOf(e) == ref)
            && (ref in s.db.live ==> exists e :: IsNewest(e, s.log, ref) && s.db.live[ref] == RowOf(e))
            && (GetOf(s.db, ref).None? <==> forall e :: IsNewest(e, s.log, ref) ==> e.op.Delete?)
  {
    InvHolds(steps);
    var s := Run(steps);
    LiveIsNewest(s.log);
    if ref in s.db.live {
      var e :| IsNewest(e, s.log, ref) && s.db.live[ref] == RowOf(e);
      forall x | IsNewest(x, s.log, ref) ensures x == e {
      }
    }
  }

  /** Purge or not, the next commit takes a seq that no event has ever had. */
  lemma SeqIsNeverReused(steps: seq<Step>, r: Request, now: Instant)
    requires WellFormed(r)
    ensures var s, t := Run(steps), Run(steps + [Append(r, now)]);
            t.log == s.log + [EventFor(r, s.db.counter + 1, now)] && !HasSeq(s.log, s.db.counter + 1)
  {
    assert (steps + [Append(r, now)])[..|steps|] == steps;
    InvHolds(steps);
  }

  /** When Restore succeeds, purges or not: exactly if no record it must replay is already in the snapshot. */
  lemma RestoreSucceedsIff(steps: seq<Step>, pick: Option<SnapshotName>, target: Option<Instant>)
    requires IsLatest(pick, Run(steps).snapshots.Keys, target)
    ensures var s := Run(steps);
            var base := Base(pick, s.snapshots);
            && (Rebuild(pick, s.snapshots, s.stream, target).Some?
                <==> forall e :: e in s.stream && Holds(Replayable(BaseSeq(pick), target), e) ==>
                      !HasSeq(base.events, e.seqNo))
            && (Rebuild(pick, s.snapshots, s.stream, target).Some? ==>
                  var r := Rebuild(pick, s.snapshots, s.stream, target).value;
                  Recorded(r.events, s.log) && ValidDatabase(r)
                  && forall e :: e in r.events
                       <==> e in base.events || (e in s.stream && Holds(Replayable(BaseSeq(pick), target), e)))
  {
    InvHolds(steps);
    var s := Run(steps);
    var w := Replayable(BaseSeq(pick), target);
    var base, es := Base(pick, s.snapshots), Select(s.stream, w);
    SelectMembers(s.stream, w);
    RecordedPart(s.stream, s.log, w);
    BaseIsRecorded(s, pick);
    ReplaySucceedsIff(base, es);
    ReplayIsRecorded(base, es, s.log);
  }

  lemma BaseIsRecorded(s: System, pick: Option<SnapshotName>)
    requires Inv(s) && (pick.Some? ==> pick.value in s.snapshots)
    ensures ValidDatabase(Base(pick, s.snapshots)) && Recorded(Base(pick, s.snapshots).events, s.log)
  {
    if pick.Some? {
      assert SnapshotInv(pick.value, s.snapshots[pick.value], s.log);
    }
  }

  lemma ReplayIsRecorded(base: Database, es: seq<Event>, log: seq<Event>)
    requires ValidDatabase(base) && Recorded(base.events, log) && Recorded(es, log)
    ensures var r := RestoreAll(base, es); r.Some? ==> Recorded(r.value.events, log) && ValidDatabase(r.value)
  {
    if RestoreAll(base, es).Some? {
      ReplaySucceedsIff(base, es);
      ReplayKeepsValid(base, es);
    }
  }

  /** Purges or not, each row of a restored live table is the highest-seq event among those committed when the snapshot
      was copied and the records replayed, and the counter is the highest seq of either. */
  lemma RestoredRowsAreNewest(steps: seq<Step>, pick: Option<SnapshotName>, target: Option<Instant>)
    requires IsLatest(pick, Run(steps).snapshots.Keys, target)
    requires Rebuild(pick, Run(steps).snapshots, Run(steps).stream, target).Some?
    ensures var s := Run(steps);
            var c, r := Base(pick, s.snapshots).counter, Rebuild(pick, s.snapshots, s.stream, target).value;
            var replayed := Select(s.stream, Replayable(BaseSeq(pick), target));
            && 0 <= c <= |s.log| && HoldsNewest(r.live, s.log[..c] + replayed)
            && c <= r.counter && AtMost(replayed, r.counter) && (r.counter == c || HasSeq(replayed, r.counter))
  {
    InvHolds(steps);
    var s := Run(steps);
    var c := Base(pick, s.snapshots).counter;
    if pick.Some? {
      assert SnapshotInv(pick.value, s.snapshots[pick.value], s.log);
    }
    assert Base(pick, s.snapshots).live == LiveOf(s.log[..c]);
    LiveIsNewest(s.log[..c]);
    ReplayHoldsNewest(Base(pick, s.snapshots), s.log[..c], Select(s.stream, Replayable(BaseSeq(pick), target)));
  }

  // ---- a server on a restored database ----

  /** A server started on a restored database with the same sink: it ships from the sink's highest seq on. Its log
      starts as the restored events. */
  function Resumed(s: System, restored: Database): System {
    s.(db := restored, log := restored.events, lastSeq := LastShipped(s.stream), shipper := Idle,
       snapshotter := NoSnapshot)
  }

  /** Its next commit is past what it ships from exactly when the restored counter has reached the sink's highest
      seq. */
  lemma TailingContinuesIff(s: System, restored: Database, r: Request, now: Instant)
    requires WellFormed(r) && AtMost(restored.events, restored.counter)
    ensures var t := Next(Resumed(s, restored), Append(r, now));
            var e := EventFor(r, restored.counter + 1, now);
            && e in t.db.events
            && (e in Select(t.db.events, After(t.lastSeq)) <==> LastShipped(s.stream) <= restored.counter)
  {
    var t := Next(Resumed(s, restored), Append(r, now));
    SelectMembers(t.db.events, After(t.lastSeq));
  }

  /** The stream has only gained records past seq bound since it was old, and ships from there or later. */
  ghost predicate ShipsOnlyPast(s: System, old': seq<Event>, bound: int) {
    && old' <= s.stream && Beyond(s.stream[|old'|..], bound) && bound <= s.lastSeq
    && match s.shipper
       case Read(batch) => batch != [] && Beyond(batch, bound)
       case Written(batch) => batch != [] && Beyond(batch, bound)
       case _ => true
  }

  lemma {:induction false} LastShippedGrows(a: seq<Event>, b: seq<Event>)
    ensures LastShipped(a) <= LastShipped(a + b)
  {
    if b == [] {
      assert a + b == a;
    } else {
      assert (a + b)[..|a + b| - 1] == a + b[..|b| - 1];
      LastShippedGrows(a, b[..|b| - 1]);
    }
  }

  lemma StepShipsOnlyPast(s: System, step: Step, old': seq<Event>, bound: int)
    requires ShipsOnlyPast(s, old', bound) && LastShipped(old') == bound && !step.PurgeSink?
    ensures ShipsOnlyPast(Next(s, step), old', bound)
  {
    match step
    case ShipRead =>
      SelectMembers(s.db.events, After(s.lastSeq));
    case ShipWrite(capacity) =>
      if s.shipper.Read? {
        var front := if capacity < |s.shipper.batch| then s.shipper.batch[..capacity] else s.shipper.batch;
        assert (s.stream + front)[|old'|..] == s.stream[|old'|..] + front;
      }
    case ShipAck =>
    case Restart =>
      assert s.stream == old' + s.stream[|old'|..];
      LastShippedGrows(old', s.stream[|old'|..]);
    case _ =>
  }

  /** Whatever such a server does, short of a purge of the sink, it never ships a commit with a seq up to the sink's
      highest: those a restore to a target makes again are lost to the backup. */
  lemma {:induction false} RepeatedSeqsAreNeverShipped(s: System, restored: Database, more: seq<Step>)
    requires forall i :: 0 <= i < |more| ==> !more[i].PurgeSink?
    ensures ShipsOnlyPast(RunFrom(Resumed(s, restored), more), s.stream, LastShipped(s.stream))
  {
    if more != [] {
      var init, step := more[..|more| - 1], more[|more| - 1];
      RepeatedSeqsAreNeverShipped(s, restored, init);
      StepShipsOnlyPast(RunFrom(Resumed(s, restored), init), step, s.stream, LastShipped(s.stream));
    }
  }

  /** No commit landed between the MAX(seq) that names the file and the copy: the name covers the contents. */
  ghost predicate Unraced(pick: Option<SnapshotName>, snapshots: map<SnapshotName, Database>)
    requires pick.Some? ==> pick.value in snapshots
  {
    AtMost(Base(pick, snapshots).events, BaseSeq(pick))
  }

  /** From an unraced snapshot Restore never inserts a seq twice, whatever was purged. */
  lemma RestoreNeverRepeatsAKey(steps: seq<Step>, pick: Option<SnapshotName>, target: Option<Instant>)
    requires IsLatest(pick, Run(steps).snapshots.Keys, target) && Unraced(pick, Run(steps).snapshots)
    ensures Rebuild(pick, Run(steps).snapshots, Run(steps).stream, target).Some?
  {
    RestoreSucceedsIff(steps, pick, target);
  }

  /** Taken in one go, a snapshot is unraced in every reachable state. */
  lemma OneStepSnapshotIsUnraced(steps: seq<Step>, now: Instant)
    requires Run(steps).snapshotter.NoSnapshot?
    ensures var s, t := Run(steps), RunFrom(Run(steps), [SnapshotSeq, SnapshotClock(now), SnapshotCopy]);
            var name := SnapshotName(TopSeq(s.db.events), Instants.WholeSecond(now));
            name in t.snapshots && t.snapshots[name] == s.db && Unraced(Some(name), t.snapshots)
  {
    InvHolds(steps);
    var s := Run(steps);
    RunThree(s, SnapshotSeq, SnapshotClock(now), SnapshotCopy);
    TopIsHighest(s.db.events);
  }

  /** One uninterrupted ShipOnce, as Shipper.ShipOnce does it, is the three shipping steps in a row. */
  lemma ShipOnceIsThreeSteps(s: System, capacity: nat)
    requires s.shipper.Idle?
    ensures var batch := Select(s.db.events, After(s.lastSeq));
            var t := RunFrom(s, [ShipRead, ShipWrite(capacity), ShipAck]);
            && t.stream == s.stream + Shipped(batch, capacity)
            && t.lastSeq == (if AllReadable(batch) && |batch| <= capacity && batch != []
                             then batch[|batch| - 1].seqNo else s.lastSeq)
            && (t.shipper.Idle? <==> AllReadable(batch) && |batch| <= capacity)
            && t.db == s.db && t.snapshots == s.snapshots && t.log == s.log
  {
    RunThree(s, ShipRead, ShipWrite(capacity), ShipAck);
    assert s.stream + [] == s.stream;
  }

  // ---- commits that cannot be read back ----

  ghost predicate ReadableInv(s: System) {
    AllReadable(s.stream) && (s.shipper.Read? || s.shipper.Written? ==> AllReadable(s.shipper.batch))
  }

  lemma StepKeepsReadable(s: System, step: Step)
    requires ReadableInv(s)
    ensures ReadableInv(Next(s, step))
  {
    match step
    case ShipWrite(capacity) =>
      if s.shipper.Read? {
        var batch := s.shipper.batch;
        ReadableParts(s.stream, batch);
        if capacity < |batch| {
          ReadableParts(s.stream, batch[..capacity]);
        }
      }
    case PurgeSink(cutoff) =>
      SelectMembers(s.stream, Since(cutoff));
    case _ =>
  }

  /** In every reachable state each shipped record can be read back. */
  lemma {:induction false} StreamIsReadable(steps: seq<Step>)
    ensures ReadableInv(Run(steps))
  {
    if steps != [] {
      StreamIsReadable(steps[..|steps| - 1]);
      StepKeepsReadable(Run(steps[..|steps| - 1]), steps[|steps| - 1]);
    }
  }

  /** With room in the sink, a shipping call from an idle state leaves nothing of the table unshipped exactly when every
      row past lastSeq can be read back; otherwise it ships nothing and the shipper stops. */
  lemma ShippingCatchesUpIff(steps: seq<Step>, capacity: nat)
    requires var s := Run(steps); s.shipper.Idle? && |Select(s.db.events, After(s.lastSeq))| <= capacity
    ensures var s := Run(steps);
            var batch, t := Select(s.db.events, After(s.lastSeq)), RunFrom(s, [ShipRead, ShipWrite(capacity), ShipAck]);
            && (t.shipper.Idle? && AtMost(t.db.events, t.lastSeq) <==> AllReadable(batch))
            && (AllReadable(batch) ==> t.stream == s.stream + batch)
            && (!AllReadable(batch) ==> t == s.(shipper := Stopped))
  {
    InvHolds(steps);
    var s := Run(steps);
    TopOfTail(s.db.events, s.lastSeq);
    ShipTail(s, capacity, Select(s.db.events, After(s.lastSeq)));
  }

  lemma TopOfTail(es: seq<Event>, lastSeq: int)
    requires Increasing(es)
    ensures var batch := Select(es, After(lastSeq)); AtMost(es, if batch == [] then lastSeq else TopSeq(batch))
  {
    var batch := Select(es, After(lastSeq));
    SelectMembers(es, After(lastSeq));
    SelectIncreasing(es, After(lastSeq));
    TopIsHighest(batch);
    assert batch != [] ==> batch[|batch| - 1] in batch;
  }

  lemma ShipTail(s: System, capacity: nat, batch: seq<Event>)
    requires s.shipper.Idle? && batch == Select(s.db.events, After(s.lastSeq)) && |batch| <= capacity
    ensures var t := RunFrom(s, [ShipRead, ShipWrite(capacity), ShipAck]);
            if AllReadable(batch)
            then t == s.(stream := s.stream + batch, lastSeq := if batch == [] then s.lastSeq else TopSeq(batch))
            else t == s.(shipper := Stopped)
  {
    RunThree(s, ShipRead, ShipWrite(capacity), ShipAck);
    assert s.stream + [] == s.stream;
  }

  lemma RunThree(s: System, a: Step, b: Step, c: Step)
    ensures RunFrom(s, [a, b, c]) == Next(Next(Next(s, a), b), c)
  {
    assert [a, b, c][..2] == [a, b] && [a, b][..1] == [a] && [a][..0] == [];
    assert RunFrom(s, [a]) == Next(s, a);
    assert RunFrom(s, [a, b]) == Next(Next(s, a), b);
  }
}
