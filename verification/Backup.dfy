/** internal/backup: the sink's event stream and snapshots, the shipper that tails the log, and Restore. */
module Backup {
  import opened Wrappers
  import opened Sorting
  import opened Temporal
  import opened EventStore
  import Instants

  /** A snapshot's file name: its high-water seq and its time, which the name cuts to whole seconds. */
  datatype SnapshotName = SnapshotName(seqNo: int, at: Instant)

  /** SELECT COALESCE(MAX(seq), 0) FROM events, whose rows are in seq order. */
  function TopSeq(es: seq<Event>): int {
    if es == [] then 0 else es[|es| - 1].seqNo
  }

  /** LastShippedSeq: the highest seq in the stream, 0 if there is none. */
  function LastShipped(stream: seq<Event>): int {
    if stream == [] then 0 else
      var rest, s := LastShipped(stream[..|stream| - 1]), stream[|stream| - 1].seqNo;
      if s > rest then s else rest
  }

  predicate Qualifies(n: SnapshotName, target: Option<Instant>) {
    target.None? || n.at <= target.value
  }

  /** pick is a snapshot of highest seq among those taken at or before target; None if there is none. */
  ghost predicate IsLatest(pick: Option<SnapshotName>, names: set<SnapshotName>, target: Option<Instant>) {
    match pick
    case None => forall n :: n in names ==> !Qualifies(n, target)
    case Some(p) => p in names && Qualifies(p, target) && forall n :: n in names && Qualifies(n, target) ==>
          n.seqNo <= p.seqNo
  }

  function BaseSeq(pick: Option<SnapshotName>): int { if pick.None? then 0 else pick.value.seqNo }

  function Base(pick: Option<SnapshotName>, snapshots: map<SnapshotName, Database>): Database
    requires pick.Some? ==> pick.value in snapshots
  {
    if pick.None? then EMPTY else snapshots[pick.value]
  }

  /** The database Restore builds from a base snapshot and the stream; None if an INSERT repeats a primary key. */
  function Rebuild(pick: Option<SnapshotName>, snapshots: map<SnapshotName, Database>, stream: seq<Event>,
                   target: Option<Instant>): Option<Database>
    requires pick.Some? ==> pick.value in snapshots
  {
    RestoreAll(Base(pick, snapshots), Select(stream, Replayable(BaseSeq(pick), target)))
  }

  class FileSink {
    var stream: seq<Event>
    var snapshots: map<SnapshotName, Database>

    ghost predicate Valid()
      reads this
    {
      forall n :: n in snapshots ==> ValidDatabase(snapshots[n])
    }

    constructor ()
      ensures Valid() && stream == [] && snapshots == map[]
    {
      stream, snapshots := [], map[];
    }

    /** The file system accepts capacity records of this call; the first one it refuses ends the call with an error. */
    method WriteEvents(events: seq<Event>, capacity: nat) returns (ok: bool)
      modifies this`stream
      ensures ok <==> |events| <= capacity
      ensures stream == old(stream) + if ok then events else events[..capacity]
    {
      var i := 0;
      while i < |events|
        invariant 0 <= i <= |events| && i <= capacity
        invariant stream == old(stream) + events[..i]
      {
        if i == capacity {
          return false;
        }
        stream := stream + [events[i]];
        i := i + 1;
      }
      return true;
    }

    method WriteSnapshot(seqNo: int, at: Instant, file: Database)
      modifies this`snapshots
      ensures snapshots == old(snapshots)[SnapshotName(seqNo, at) := file]
    {
      snapshots := snapshots[SnapshotName(seqNo, at) := file];
    }

    /** Read, filter, rewrite, rename. */
    method Purge(cutoff: Instant)
      modifies this`stream
      ensures stream == Select(old(stream), Since(cutoff))
      ensures forall e :: e in stream <==> e in old(stream) && cutoff <= e.txTime
    {
      var kept: seq<Event> := [];
      for i := 0 to |stream|
        invariant stream == old(stream)
        invariant kept == Select(stream[..i], Since(cutoff))
      {
        assert stream[..i + 1][..i] == stream[..i];
        if stream[i].txTime < cutoff {
          continue;
        }
        kept := kept + [stream[i]];
      }
      assert stream[..|stream|] == stream;
      SelectMembers(stream, Since(cutoff));
      stream := kept;
    }

    method LastShippedSeq() returns (last: int)
      ensures last == LastShipped(stream)
      ensures forall e :: e in stream ==> e.seqNo <= last
      ensures last == 0 || exists e :: e in stream && e.seqNo == last
    {
      last := 0;
      for i := 0 to |stream|
        invariant last == LastShipped(stream[..i])
        invariant forall e :: e in stream[..i] ==> e.seqNo <= last
        invariant last == 0 || exists e :: e in stream[..i] && e.seqNo == last
      {
        assert stream[..i + 1][..i] == stream[..i];
        if stream[i].seqNo > last {
          last := stream[i].seqNo;
        }
      }
      assert stream[..|stream|] == stream;
    }

    method ReadShippedEvents(afterSeq: int, target: Option<Instant>) returns (out: seq<Event>)
      ensures out == Select(stream, Replayable(afterSeq, target))
      ensures forall e :: e in out <==> e in stream && afterSeq < e.seqNo && (target.Some? ==> e.txTime <= target.value)
    {
      SelectMembers(stream, Replayable(afterSeq, target));
      out := [];
      for i := 0 to |stream|
        invariant out == Select(stream[..i], Replayable(afterSeq, target))
      {
        assert stream[..i + 1][..i] == stream[..i];
        if stream[i].seqNo <= afterSeq {
          continue;
        }
        if target.Some? && stream[i].txTime > target.value {
          continue;
        }
        out := out + [stream[i]];
      }
      assert stream[..|stream|] == stream;
    }

    /** Every snapshot in the directory, ordered by seq. */
    method ListSnapshots() returns (out: seq<SnapshotName>)
      ensures forall n :: n in out <==> n in snapshots
      ensures Sorted(out, ByHighWater)
    {
      var todo, found: seq<SnapshotName> := snapshots.Keys, [];
      while todo != {}
        invariant todo <= snapshots.Keys
        invariant forall n :: n in found <==> n in snapshots && n !in todo
      {
        var n :| n in todo;
        found := found + [n];
        todo := todo - {n};
      }
      var a := new SnapshotName[|found|](i requires 0 <= i < |found| => found[i]);
      assert a[..] == found;
      SortSlice(a, ByHighWater);
      SortOrders(found, ByHighWater);
      SortKeepsMembers(found, ByHighWater);
      out := a[..];
    }

    method LatestSnapshotBefore(target: Option<Instant>) returns (best: Option<SnapshotName>)
      ensures IsLatest(best, snapshots.Keys, target)
      ensures best.None? <==> forall n :: n in snapshots ==> target.Some? && target.value < n.at
      ensures best.Some? ==> best.value in snapshots && (target.Some? ==> best.value.at <= target.value)
      ensures best.Some? ==>
                forall n :: n in snapshots && (target.Some? ==> n.at <= target.value) ==> n.seqNo <= best.value.seqNo
    {
      var all := ListSnapshots();
      best := None;
      for i := 0 to |all|
        invariant best.None? ==> forall n :: n in all[..i] ==> !Qualifies(n, target)
        invariant best.Some? ==> best.value in all && Qualifies(best.value, target)
        invariant best.Some? ==> forall n :: n in all[..i] && Qualifies(n, target) ==> n.seqNo <= best.value.seqNo
      {
        if target.Some? && all[i].at > target.value {
          continue;
        }
        if best.None? || all[i].seqNo > best.value.seqNo {
          best := Some(all[i]);
        }
      }
      assert all[..|all|] == all;
    }
  }

  predicate ByHighWater(a: SnapshotName, b: SnapshotName) { a.seqNo < b.seqNo }

  /** The records of a batch that reach the stream. */
  function Shipped(batch: seq<Event>, capacity: nat): seq<Event> {
    if !AllReadable(batch) then [] else if |batch| <= capacity then batch else batch[..capacity]
  }

  /** Tails a store's log into a sink. */
  class Shipper {
    const events: Store
    const sink: FileSink
    var lastSeq: int

    constructor (events: Store, sink: FileSink, lastSeq: int)
      ensures this.events == events && this.sink == sink && this.lastSeq == lastSeq
    {
      this.events, this.sink, this.lastSeq := events, sink, lastSeq;
    }

    /** The batch is read in full before the first record is written. */
    method ShipOnce(capacity: nat) returns (ok: bool)
      modifies this`lastSeq, sink`stream
      ensures var batch := Select(events.Db().events, After(old(lastSeq)));
              && (ok <==> AllReadable(batch) && |batch| <= capacity)
              && sink.stream == old(sink.stream) + Shipped(batch, capacity)
              && lastSeq == if ok && batch != [] then batch[|batch| - 1].seqNo else old(lastSeq)
      ensures ok ==> sink.stream == old(sink.stream) + Select(events.Db().events, After(old(lastSeq)))
      ensures ok ==> forall e :: e in events.events && old(lastSeq) < e.seqNo ==> e in sink.stream
      ensures old(sink.stream) <= sink.stream
    {
      SelectMembers(events.Db().events, After(lastSeq));
      var read := events.AfterSeq(lastSeq);
      if read.Err? {
        assert sink.stream + [] == sink.stream;
        return false;
      }
      var batch := read.value;
      if |batch| == 0 {
        assert sink.stream + batch == sink.stream;
        return true;
      }
      ok := sink.WriteEvents(batch, capacity);
      if !ok {
        return false;
      }
      lastSeq := batch[|batch| - 1].seqNo;
    }
  }

  /** Takes one snapshot of a store into a sink; now is read between the two statements, and neither sees a commit. */
  class Snapshotter {
    const events: Store
    const sink: FileSink

    constructor (events: Store, sink: FileSink)
      ensures this.events == events && this.sink == sink
    {
      this.events, this.sink := events, sink;
    }

    method Snapshot(now: Instant) returns (seqNo: int)
      requires sink.Valid() && ValidDatabase(events.Db())
      modifies sink`snapshots
      ensures sink.Valid()
      ensures seqNo == TopSeq(events.Db().events) && forall e :: e in events.Db().events ==> e.seqNo <= seqNo
      ensures seqNo == 0 || exists e :: e in events.Db().events && e.seqNo == seqNo
      ensures sink.snapshots == old(sink.snapshots)[SnapshotName(seqNo, Instants.WholeSecond(now)) := events.Db()]
      ensures Instants.CivilOf(Instants.WholeSecond(now)) == Instants.CivilOf(now).(nano := 0)
    {
      Instants.WholeSecondDropsNanos(now);
      seqNo := 0;
      if events.events != [] {
        seqNo := events.events[|events.events| - 1].seqNo;
        assert events.events[|events.events| - 1] in events.Db().events;
      }
      var at := now / Instants.SECOND * Instants.SECOND;
      sink.WriteSnapshot(seqNo, at, Database(events.events, events.live, events.counter));
    }
  }

  /** db is where a replay of es onto start stops: at its end, or at the first event that fails. */
  ghost predicate StopsAt(db: Database, start: Database, es: seq<Event>) {
    exists i :: 0 <= i <= |es| && RestoreAll(start, es[..i]) == Some(db) && (i < |es| ==>
          RestoreAll(start, es[..i + 1]).None?)
  }

  /** Restore into a destination directory; dest is the database it leaves there, or null if it made none because there
      was one already. A failed replay leaves what it had restored by then. Every stored snapshot is a valid database
      file. */
  method Restore(sink: FileSink, destExists: bool, target: Option<Instant>)
    returns (ok: bool, dest: Store?, ghost pick: Option<SnapshotName>)
    requires sink.Valid()
    ensures IsLatest(pick, sink.snapshots.Keys, target)
    ensures dest == null <==> destExists
    ensures dest != null ==> fresh(dest) && ValidDatabase(dest.Db())
    ensures dest != null ==>
              StopsAt(dest.Db(), Base(pick, sink.snapshots), Select(sink.stream, Replayable(BaseSeq(pick), target)))
    ensures ok <==> !destExists && Rebuild(pick, sink.snapshots, sink.stream, target).Some?
    ensures ok ==> dest.Db() == Rebuild(pick, sink.snapshots, sink.stream, target).value
    ensures pick.Some? ==> pick.value in sink.snapshots && (target.Some? ==> pick.value.at <= target.value)
    ensures forall n :: n in sink.snapshots && (target.Some? ==> n.at <= target.value) ==>
              pick.Some? && n.seqNo <= pick.value.seqNo
    ensures ok ==>
              forall e :: e in dest.events <==>
                (pick.Some? && e in sink.snapshots[pick.value].events)
                || (e in sink.stream && (if pick.Some? then pick.value.seqNo else 0) < e.seqNo
                    && (target.Some? ==> e.txTime <= target.value))
  {
    var base := sink.LatestSnapshotBefore(target);
    pick := base;
    if destExists {
      return false, null, pick;
    }
    var afterSeq := 0;
    var store := new Store();
    if base.Some? {
      store := new Store.Open(sink.snapshots[base.value]);
      afterSeq := base.value.seqNo;
    }
    var shipped := sink.ReadShippedEvents(afterSeq, target);
    ok := Replay(store, shipped);
    dest := store;
    if ok { RestoreAllMembers(Base(pick, sink.snapshots), shipped); }
  }

  /** The replay loop of Restore: it stops at the first event that fails. */
  method Replay(store: Store, shipped: seq<Event>) returns (ok: bool)
    requires ValidDatabase(store.Db())
    modifies store
    ensures ValidDatabase(store.Db()) && StopsAt(store.Db(), old(store.Db()), shipped)
    ensures ok <==> RestoreAll(old(store.Db()), shipped).Some?
    ensures ok ==> store.Db() == RestoreAll(old(store.Db()), shipped).value
  {
    ghost var start := store.Db();
    for i := 0 to |shipped|
      invariant ValidDatabase(store.Db())
      invariant RestoreAll(start, shipped[..i]) == Some(store.Db())
    {
      assert shipped[..i + 1] == shipped[..i] + [shipped[i]];
      RestoreStep(start, shipped[..i], store.Db(), shipped[i]);
      var inserted := store.RestoreEvent(shipped[i]);
      if !inserted {
        RestoreConcat(start, shipped[..i + 1], shipped[i + 1..]);
        assert shipped[..i + 1] + shipped[i + 1..] == shipped;
        return false;
      }
    }
    assert shipped[..|shipped|] == shipped;
    ok := true;
  }
}
