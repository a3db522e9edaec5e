/** internal/event/event.go: the append-only log, its live projection and the reads over both. */
module EventStore {
  import opened Wrappers
  import opened Json
  import opened Sorting
  import opened Temporal
  import Instants
  import Strings

  datatype Ref = Ref(collection: string, key: string)

  /** One row of the live table. */
  datatype Row = Row(
    value: Option<Json>, validFrom: Instant, txTime: Instant, deleted: bool, seqNo: int, meta: Json)

  /** The database file: events in primary-key order, live by primary key, and the AUTOINCREMENT counter. */
  datatype Database = Database(events: seq<Event>, live: map<Ref, Row>, counter: int)

  const EMPTY := Database([], map[], 0)

  function RefOf(e: Event): Ref { Ref(e.collection, e.key) }

  // ---- times that can be read back ----

  /** The stored texts of both times parse. */
  predicate ReadableTimes(validFrom: Instant, txTime: Instant) {
    Instants.Stampable(validFrom) && Instants.Stampable(txTime)
  }

  predicate Readable(e: Event) { ReadableTimes(e.validFrom, e.txTime) }

  predicate AllReadable(es: seq<Event>) { forall e :: e in es ==> Readable(e) }

  /** The two temporal.Parse calls every read makes on a row it returns. */
  method ParseTimes(validFrom: Instant, txTime: Instant) returns (ok: bool)
    ensures ok <==> ReadableTimes(validFrom, txTime)
  {
    Instants.StampableIff(validFrom);
    Instants.StampableIff(txTime);
    var v := Instants.Parse(Instants.Stamp(validFrom));
    if v.None? {
      return false;
    }
    var t := Instants.Parse(Instants.Stamp(txTime));
    ok := t.Some?;
  }

  lemma ReadableParts(a: seq<Event>, b: seq<Event>)
    ensures AllReadable(a + b) <==> AllReadable(a) && AllReadable(b)
  {
    assert forall e :: e in a || e in b <==> e in a + b;
  }

  lemma OneIsUnreadable(es: seq<Event>, e: Event)
    requires e in es && !Readable(e)
    ensures !AllReadable(es)
  {
  }

  lemma ReadableNext(es: seq<Event>, i: nat)
    requires i < |es| && AllReadable(es[..i]) && Readable(es[i])
    ensures AllReadable(es[..i + 1])
  {
    assert es[..i + 1] == es[..i] + [es[i]];
  }

  function RowOf(e: Event): Row {
    Row(e.value, e.validFrom, e.txTime, e.op.Delete?, e.seqNo, e.meta)
  }

  /** Primary keys are unique and ordered, and the counter has passed all of them. */
  ghost predicate ValidDatabase(db: Database) {
    Increasing(db.events) && 0 <= db.counter && forall e :: e in db.events ==> e.seqNo <= db.counter
  }

  // ---- the SELECT and DELETE conditions over events ----

  /** The commit times a PURGE deletes. */
  type Cut = Instant -> bool

  /** tx_time < ? over the stored text. */
  function SqlBefore(cutoff: Instant): Cut { t => Strings.Less(Instants.Stamp(t), Instants.Stamp(cutoff)) }

  datatype Where =
    | OfKey(ref: Ref)
    | OfCollection(collection: string)
    | After(seqNo: int)
    | Unpurged(collection: string, gone: Cut)
    | Since(cutoff: Instant)
    | Replayable(after: int, target: Option<Instant>)

  predicate Holds(w: Where, e: Event) {
    match w
    case OfKey(ref) => RefOf(e) == ref
    case OfCollection(c) => e.collection == c
    case After(s) => s < e.seqNo
    case Unpurged(c, gone) => !(e.collection == c && gone(e.txTime))
    case Since(cutoff) => !(e.txTime < cutoff)
    case Replayable(after, target) => after < e.seqNo && (target.Some? ==> e.txTime <= target.value)
  }

  function Select(es: seq<Event>, w: Where): seq<Event> {
    if es == [] then [] else
      Select(es[..|es| - 1], w) + if Holds(w, es[|es| - 1]) then [es[|es| - 1]] else []
  }

  /** One more row of a scan: what it adds, and that it is in the answer of the whole scan. */
  lemma SelectNext(es: seq<Event>, i: nat, w: Where)
    requires i < |es|
    ensures Select(es[..i + 1], w) == Select(es[..i], w) + if Holds(w, es[i]) then [es[i]] else []
    ensures Holds(w, es[i]) ==> es[i] in Select(es, w)
  {
    assert es[..i + 1][..i] == es[..i];
    SelectMembers(es, w);
  }

  lemma {:induction false} SelectMembers(es: seq<Event>, w: Where)
    ensures forall e :: e in Select(es, w) <==> e in es && Holds(w, e)
  {
    if es != [] {
      SelectMembers(es[..|es| - 1], w);
      assert es == es[..|es| - 1] + [es[|es| - 1]];
    }
  }

  lemma {:induction false} SelectIncreasing(es: seq<Event>, w: Where)
    requires Increasing(es)
    ensures Increasing(Select(es, w))
  {
    if es != [] {
      SelectIncreasing(es[..|es| - 1], w);
      SelectMembers(es[..|es| - 1], w);
      forall e | e in Select(es[..|es| - 1], w) ensures e.seqNo < es[|es| - 1].seqNo {
        assert e in es[..|es| - 1];
      }
    }
  }

  lemma {:induction false} SelectConcat(a: seq<Event>, b: seq<Event>, w: Where)
    ensures Select(a + b, w) == Select(a, w) + Select(b, w)
  {
    if b == [] {
      assert a + b == a;
    } else {
      assert (a + b)[..|a + b| - 1] == a + b[..|b| - 1];
      SelectConcat(a, b[..|b| - 1], w);
    }
  }

  lemma {:induction false} SelectSame(es: seq<Event>, a: Where, b: Where)
    requires forall e :: e in es ==> Holds(a, e) == Holds(b, e)
    ensures Select(es, a) == Select(es, b)
  {
    if es != [] {
      SelectSame(es[..|es| - 1], a, b);
      assert es[|es| - 1] in es;
    }
  }

  lemma {:induction false} SelectAll(es: seq<Event>, w: Where)
    requires forall e :: e in es ==> Holds(w, e)
    ensures Select(es, w) == es
  {
    if es != [] {
      var init, last := es[..|es| - 1], es[|es| - 1];
      assert es == init + [last] && last in es && forall e :: e in init ==> e in es;
      SelectAll(init, w);
    }
  }

  lemma {:induction false} SelectNone(es: seq<Event>, w: Where)
    requires forall e :: e in es ==> !Holds(w, e)
    ensures Select(es, w) == []
  {
    if es != [] {
      SelectNone(es[..|es| - 1], w);
      assert es[|es| - 1] in es;
    }
  }

  // ---- what a history of commits means ----

  /** The live table after committing log in order. */
  function LiveOf(log: seq<Event>): map<Ref, Row> {
    if log == [] then map[] else LiveOf(log[..|log| - 1])[RefOf(log[|log| - 1]) := RowOf(log[|log| - 1])]
  }

  /** The database after committing log in order, never purged. */
  function DatabaseOf(log: seq<Event>): Database {
    Database(log, LiveOf(log), |log|)
  }

  /** e is the last event of log written to ref. */
  ghost predicate IsNewest(e: Event, log: seq<Event>, ref: Ref) {
    e in log && RefOf(e) == ref && forall x :: x in log && RefOf(x) == ref ==> x.seqNo <= e.seqNo
  }

  lemma {:induction false} LiveIsNewest(log: seq<Event>)
    requires Increasing(log)
    ensures forall ref :: ref in LiveOf(log) <==> exists e :: e in log && RefOf(e) == ref
    ensures forall ref :: ref in LiveOf(log) ==> exists e :: IsNewest(e, log, ref) && LiveOf(log)[ref] == RowOf(e)
  {
    if log != [] {
      var init, last := log[..|log| - 1], log[|log| - 1];
      LiveIsNewest(init);
      assert log == init + [last];
      forall ref | ref in LiveOf(log)
        ensures exists e :: IsNewest(e, log, ref) && LiveOf(log)[ref] == RowOf(e)
      {
        if ref == RefOf(last) {
          assert IsNewest(last, log, ref);
        } else {
          assert ref in LiveOf(init);
          var e :| IsNewest(e, init, ref) && LiveOf(init)[ref] == RowOf(e);
          assert IsNewest(e, log, ref);
        }
      }
      forall ref ensures ref in LiveOf(log) <==> exists e :: e in log && RefOf(e) == ref {
        if e :| e in log && RefOf(e) == ref {
          assert e in init || e == last;
        }
        if ref in LiveOf(init) {
          var e :| e in init && RefOf(e) == ref;
          assert e in log;
        }
        assert last in log;
      }
    }
  }

  lemma {:induction false} LiveSeqs(log: seq<Event>, bound: int)
    requires forall e :: e in log ==> e.seqNo <= bound
    ensures forall ref :: ref in LiveOf(log) ==> LiveOf(log)[ref].seqNo <= bound
  {
    if log != [] {
      LiveSeqs(log[..|log| - 1], bound);
      assert log[|log| - 1] in log;
    }
  }

  // ---- Append ----

  datatype Request = Request(
    collection: string, key: string, op: Op, value: Option<Json>, meta: Option<Json>, validFrom: Option<Instant>)

  predicate WellFormed(r: Request) { r.collection != "" && r.key != "" }

  /** The event Append commits for a request when the wall clock reads now. */
  function EventFor(r: Request, seqNo: int, now: Instant): Event {
    Event(seqNo, r.collection, r.key, r.op,
          if r.op.Delete? then None else r.value,
          if r.validFrom.None? then now else r.validFrom.value, now,
          if r.meta.None? then Obj(map[]) else r.meta.value)
  }

  function Commit(db: Database, e: Event): Database {
    Database(db.events + [e], db.live[RefOf(e) := RowOf(e)], e.seqNo)
  }

  lemma CommitExtendsLog(log: seq<Event>, e: Event)
    requires e.seqNo == |log| + 1
    ensures Commit(DatabaseOf(log), e) == DatabaseOf(log + [e])
  {
    assert (log + [e])[..|log|] == log;
  }

  // ---- RestoreEvent ----

  predicate BySeq(a: Event, b: Event) { a.seqNo < b.seqNo }

  predicate HasSeq(es: seq<Event>, s: int) { exists e :: e in es && e.seqNo == s }

  /** The guarded upsert: only a higher seq replaces a row. */
  function UpsertNewer(live: map<Ref, Row>, e: Event): map<Ref, Row> {
    if RefOf(e) in live && !(e.seqNo > live[RefOf(e)].seqNo) then live else live[RefOf(e) := RowOf(e)]
  }

  /** None when the primary key is already taken. */
  function RestoreInto(db: Database, e: Event): Option<Database> {
    if HasSeq(db.events, e.seqNo) then None
    else Some(Database(Insert(db.events, e, BySeq), UpsertNewer(db.live, e),
                       if e.seqNo > db.counter then e.seqNo else db.counter))
  }

  /** RestoreEvent over a list; None as soon as one of them fails. */
  function RestoreAll(db: Database, es: seq<Event>): Option<Database> {
    if es == [] then Some(db) else
      var r := RestoreAll(db, es[..|es| - 1]);
      if r.None? then None else RestoreInto(r.value, es[|es| - 1])
  }

  /** A replay that succeeds adds exactly the events it was given. */
  lemma {:induction false} RestoreAllMembers(db: Database, es: seq<Event>)
    requires RestoreAll(db, es).Some?
    ensures forall x :: x in RestoreAll(db, es).value.events <==> x in db.events || x in es
  {
    if es != [] {
      var init, last := es[..|es| - 1], es[|es| - 1];
      RestoreAllMembers(db, init);
      InsertMembers(RestoreAll(db, init).value.events, last);
      assert es == init + [last];
    }
  }

  lemma InsertMembers(es: seq<Event>, e: Event)
    ensures forall x :: x in Insert(es, e, BySeq) <==> x in es || x == e
  {
    InsertKeepsElements(es, e, BySeq);
    forall x ensures x in Insert(es, e, BySeq) <==> x in es || x == e {
      assert x in multiset(Insert(es, e, BySeq)) <==> x in multiset(es) + multiset{e};
    }
  }

  lemma {:induction false} InsertIncreasing(es: seq<Event>, e: Event)
    requires Increasing(es) && !HasSeq(es, e.seqNo)
    ensures Increasing(Insert(es, e, BySeq))
  {
    if es != [] {
      var init, last := es[..|es| - 1], es[|es| - 1];
      assert last in es && forall x :: x in init ==> x in es;
      if e.seqNo < last.seqNo {
        InsertIncreasing(init, e);
        InsertMembers(init, e);
        var r := Insert(init, e, BySeq);
        forall i | 0 <= i < |r| ensures r[i].seqNo < last.seqNo {
          assert r[i] in r;
        }
      }
    }
  }

  lemma {:induction false} InsertsCommute(es: seq<Event>, a: Event, b: Event)
    requires a.seqNo != b.seqNo && !HasSeq(es, a.seqNo) && !HasSeq(es, b.seqNo)
    ensures Insert(Insert(es, a, BySeq), b, BySeq) == Insert(Insert(es, b, BySeq), a, BySeq)
  {
    if es != [] {
      var init, last := es[..|es| - 1], es[|es| - 1];
      assert last in es && forall x :: x in init ==> x in es;
      InsertsCommute(init, a, b);
      LastOfInsert(es, a);
      LastOfInsert(es, b);
    }
  }

  lemma LastOfInsert(es: seq<Event>, e: Event)
    requires es != []
    ensures var r, last := Insert(es, e, BySeq), es[|es| - 1];
            r != [] && if e.seqNo < last.seqNo
                       then r[|r| - 1] == last && r[..|r| - 1] == Insert(es[..|es| - 1], e, BySeq)
                       else r[|r| - 1] == e && r[..|r| - 1] == es
  {
  }

  lemma UpsertsCommute(live: map<Ref, Row>, a: Event, b: Event)
    requires a.seqNo != b.seqNo
    ensures UpsertNewer(UpsertNewer(live, a), b) == UpsertNewer(UpsertNewer(live, b), a)
  {
  }

  lemma RestoreTwo(db: Database, a: Event, b: Event)
    ensures RestoreAll(db, [a, b]) ==
            var r := RestoreInto(db, a); if r.None? then None else RestoreInto(r.value, b)
  {
    assert [a, b][..1] == [a] && [a][..0] == [];
    assert RestoreAll(db, [a]) == RestoreInto(db, a);
  }

  lemma FreeAfterInsert(es: seq<Event>, e: Event, s: int)
    requires s != e.seqNo
    ensures HasSeq(Insert(es, e, BySeq), s) <==> HasSeq(es, s)
  {
    InsertMembers(es, e);
  }

  /** Two restored events may be swapped. */
  lemma RestoresCommute(db: Database, a: Event, b: Event)
    requires a.seqNo != b.seqNo
    ensures RestoreAll(db, [a, b]) == RestoreAll(db, [b, a])
  {
    RestoreTwo(db, a, b);
    RestoreTwo(db, b, a);
    FreeAfterInsert(db.events, a, b.seqNo);
    FreeAfterInsert(db.events, b, a.seqNo);
    UpsertsCommute(db.live, a, b);
    if !HasSeq(db.events, a.seqNo) && !HasSeq(db.events, b.seqNo) {
      InsertsCommute(db.events, a, b);
    }
  }

  lemma {:induction false} RestoreConcat(db: Database, es: seq<Event>, more: seq<Event>)
    ensures RestoreAll(db, es + more) ==
            var r := RestoreAll(db, es); if r.None? then None else RestoreAll(r.value, more)
  {
    if more == [] {
      assert es + more == es;
    } else {
      assert (es + more)[..|es + more| - 1] == es + more[..|more| - 1];
      RestoreConcat(db, es, more[..|more| - 1]);
    }
  }

  /** An event anywhere in the list may be replayed last. */
  lemma {:induction false} RestoreLast(db: Database, front: seq<Event>, e: Event, back: seq<Event>)
    requires forall x :: x in back ==> x.seqNo != e.seqNo
    ensures RestoreAll(db, front + [e] + back) == RestoreAll(db, front + back + [e])
    decreases |back|
  {
    if back == [] {
      assert front + [e] + back == front + back + [e];
    } else {
      var b, rest := back[0], back[1..];
      assert b in back && forall x :: x in rest ==> x in back;
      assert front + [e] + back == front + [e, b] + rest;
      assert front + [b] + [e] + rest == front + [b, e] + rest;
      assert front + back + [e] == front + [b] + rest + [e];
      RestoreConcat(db, front + [e, b], rest);
      RestoreConcat(db, front + [b, e], rest);
      RestoreConcat(db, front, [e, b]);
      RestoreConcat(db, front, [b, e]);
      if RestoreAll(db, front).Some? {
        RestoresCommute(RestoreAll(db, front).value, e, b);
      }
      RestoreLast(db, front + [b], e, rest);
    }
  }

  lemma TakeOut(init: seq<Event>, last: Event, shuffled: seq<Event>) returns (front: seq<Event>, back: seq<Event>)
    requires DistinctSeqs(init + [last]) && multiset(init + [last]) == multiset(shuffled)
    ensures shuffled == front + [last] + back && multiset(front + back) == multiset(init)
    ensures forall x :: x in back ==> x.seqNo != last.seqNo
  {
    assert multiset(shuffled) == multiset(init) + multiset{last};
    assert last in multiset(shuffled);
    var i :| 0 <= i < |shuffled| && shuffled[i] == last;
    front, back := shuffled[..i], shuffled[i + 1..];
    SplitAround(shuffled, i);
    assert multiset(front + back) == multiset(shuffled) - multiset{last};
    forall x | x in back ensures x.seqNo != last.seqNo {
      assert x in multiset(front + back);
      assert x in multiset(init) && x in init;
      LastIsDistinct(init, last, x);
    }
  }

  lemma SplitAround(s: seq<Event>, i: nat)
    requires i < |s|
    ensures s == s[..i] + [s[i]] + s[i + 1..]
    ensures multiset(s[..i] + s[i + 1..]) == multiset(s) - multiset{s[i]}
  {
    assert s == s[..i] + [s[i]] + s[i + 1..];
  }

  lemma LastIsDistinct(init: seq<Event>, last: Event, x: Event)
    requires DistinctSeqs(init + [last]) && x in init
    ensures x.seqNo != last.seqNo
  {
    var k :| 0 <= k < |init| && init[k] == x;
    assert (init + [last])[k] == x && (init + [last])[|init|] == last;
  }

  /** Replaying any events with distinct seqs, in any order, onto any database gives one and the same outcome. */
  lemma {:induction false} ReplayIgnoresOrder(db: Database, es: seq<Event>, shuffled: seq<Event>)
    requires DistinctSeqs(es) && multiset(es) == multiset(shuffled)
    ensures RestoreAll(db, es) == RestoreAll(db, shuffled)
    decreases |es|
  {
    if es == [] {
      assert |multiset(shuffled)| == |shuffled|;
    } else {
      var init, last := es[..|es| - 1], es[|es| - 1];
      assert es == init + [last];
      var front, back := TakeOut(init, last, shuffled);
      RestoreLast(db, front, last, back);
      ReplayIgnoresOrder(db, init, front + back);
      RestoreConcat(db, front + back, [last]);
      RestoreConcat(db, init, [last]);
    }
  }

  /** AUTOINCREMENT from an empty table numbers the commits 1, 2, 3, ... */
  ghost predicate Numbered(log: seq<Event>) {
    forall i :: 0 <= i < |log| ==> log[i].seqNo == i + 1
  }

  lemma RestoreNext(before: seq<Event>, e: Event)
    requires Numbered(before + [e])
    ensures RestoreInto(DatabaseOf(before), e) == Some(DatabaseOf(before + [e]))
  {
    assert (before + [e])[|before|] == e;
    forall i | 0 <= i < |before| ensures before[i].seqNo == i + 1 {
      assert (before + [e])[i] == before[i];
    }
    LiveSeqs(before, |before|);
    CommitExtendsLog(before, e);
  }

  lemma RestoreStep(db: Database, es: seq<Event>, middle: Database, e: Event)
    requires RestoreAll(db, es) == Some(middle)
    ensures RestoreAll(db, es + [e]) == RestoreInto(middle, e)
  {
    assert (es + [e])[..|es|] == es;
  }

  /** Replaying the rest of a log onto the database of its first part gives the database of the whole. */
  lemma {:induction false} ReplayContinues(before: seq<Event>, es: seq<Event>)
    requires Numbered(before + es)
    ensures RestoreAll(DatabaseOf(before), es) == Some(DatabaseOf(before + es))
  {
    if es == [] {
      assert before + es == before;
    } else {
      var init, e := es[..|es| - 1], es[|es| - 1];
      assert before + es == before + init + [e] && es == init + [e];
      assert Numbered(before + init) by {
        assert forall i :: 0 <= i < |before + init| ==> (before + init)[i] == (before + es)[i];
      }
      ReplayContinues(before, init);
      RestoreStep(DatabaseOf(before), init, DatabaseOf(before + init), e);
      RestoreNext(before + init, e);
    }
  }

  lemma ReplayContinuesLog(log: seq<Event>, from: nat, to: nat)
    requires from <= to <= |log| && Numbered(log)
    ensures RestoreAll(DatabaseOf(log[..from]), log[from..to]) == Some(DatabaseOf(log[..to]))
  {
    assert log[..from] + log[from..to] == log[..to];
    ReplayContinues(log[..from], log[from..to]);
  }

  /** A replay succeeds exactly when no two of its events, and none of them and a stored one, share a seq. */
  lemma {:induction false} ReplaySucceedsIff(db: Database, es: seq<Event>)
    ensures RestoreAll(db, es).Some? <==> DistinctSeqs(es) && forall e :: e in es ==> !HasSeq(db.events, e.seqNo)
    ensures RestoreAll(db, es).Some? ==> forall x :: x in RestoreAll(db, es).value.events <==> x in db.events || x in es
  {
    if es != [] {
      var init, last := es[..|es| - 1], es[|es| - 1];
      ReplaySucceedsIff(db, init);
      assert es == init + [last];
      if RestoreAll(db, init).Some? {
        var middle := RestoreAll(db, init).value;
        InsertMembers(middle.events, last);
        assert HasSeq(middle.events, last.seqNo) <==> HasSeq(db.events, last.seqNo) || HasSeq(init, last.seqNo);
      }
      assert DistinctSeqs(es) <==> DistinctSeqs(init) && !HasSeq(init, last.seqNo);
    }
  }

  /** live has a row for each key that all has an event for, and no other, and each row is the highest-seq one. */
  ghost predicate HoldsNewest(live: map<Ref, Row>, all: seq<Event>) {
    && (forall ref :: ref in live <==> exists e :: e in all && RefOf(e) == ref)
    && (forall ref :: ref in live ==> exists e :: IsNewest(e, all, ref) && live[ref] == RowOf(e))
  }

  lemma UpsertHoldsNewest(live: map<Ref, Row>, all: seq<Event>, e: Event)
    requires HoldsNewest(live, all)
    ensures HoldsNewest(UpsertNewer(live, e), all + [e])
  {
    var live', all' := UpsertNewer(live, e), all + [e];
    assert forall x :: x in all' <==> x in all || x == e;
    forall ref ensures ref in live' <==> exists x :: x in all' && RefOf(x) == ref {
      if ref in live {
        var x :| x in all && RefOf(x) == ref;
        assert x in all';
      }
      assert e in all';
    }
    forall ref | ref in live' ensures exists x :: IsNewest(x, all', ref) && live'[ref] == RowOf(x) {
      if live' != live && ref == RefOf(e) {
        UpsertIsNewest(live, all, e);
      } else {
        var x :| IsNewest(x, all, ref) && live[ref] == RowOf(x);
        assert IsNewest(x, all', ref);
      }
    }
  }

  lemma UpsertIsNewest(live: map<Ref, Row>, all: seq<Event>, e: Event)
    requires HoldsNewest(live, all) && UpsertNewer(live, e) != live
    ensures IsNewest(e, all + [e], RefOf(e)) && UpsertNewer(live, e)[RefOf(e)] == RowOf(e)
  {
    if RefOf(e) in live {
      var x :| IsNewest(x, all, RefOf(e)) && live[RefOf(e)] == RowOf(x);
    }
  }

  /** Replaying onto a live table of newest events gives one of the newest events overall, and moves the counter to the
      highest seq seen. */
  lemma {:induction false} ReplayHoldsNewest(db: Database, all: seq<Event>, es: seq<Event>)
    requires HoldsNewest(db.live, all) && RestoreAll(db, es).Some?
    ensures HoldsNewest(RestoreAll(db, es).value.live, all + es)
    ensures db.counter <= RestoreAll(db, es).value.counter
    ensures forall e :: e in es ==> e.seqNo <= RestoreAll(db, es).value.counter
    ensures RestoreAll(db, es).value.counter == db.counter || HasSeq(es, RestoreAll(db, es).value.counter)
  {
    if es == [] {
      assert all + es == all;
    } else {
      var init, last := es[..|es| - 1], es[|es| - 1];
      assert es == init + [last] && all + es == all + init + [last];
      ReplayHoldsNewest(db, all, init);
      UpsertHoldsNewest(RestoreAll(db, init).value.live, all + init, last);
      assert last in es && forall e :: e in init ==> e in es;
    }
  }

  lemma {:induction false} ReplayKeepsValid(db: Database, es: seq<Event>)
    requires ValidDatabase(db) && RestoreAll(db, es).Some?
    ensures ValidDatabase(RestoreAll(db, es).value)
  {
    if es != [] {
      var init, last := es[..|es| - 1], es[|es| - 1];
      ReplayKeepsValid(db, init);
      var middle := RestoreAll(db, init).value;
      InsertIncreasing(middle.events, last);
      InsertMembers(middle.events, last);
    }
  }

  // ---- the reads ----

  /** Get: the live row unless it is a tombstone. */
  function GetOf(db: Database, ref: Ref): Option<Event> {
    if ref !in db.live || db.live[ref].deleted then None else
      var row := db.live[ref];
      Some(Event(row.seqNo, ref.collection, ref.key, Put, row.value, row.validFrom, row.txTime, row.meta))
  }

  function Undeleted(e: Option<Event>): Option<Event> {
    if e.Some? && e.value.op.Delete? then None else e
  }

  /** AsOf: the visible version of the key's history unless it is a delete. */
  function AsOfIn(db: Database, ref: Ref, asOf: Option<Instant>, validAt: Option<Instant>): Option<Event> {
    Undeleted(VisibleOf(Select(db.events, OfKey(ref)), asOf, validAt))
  }

  // Each read parses the times of the rows it scans and fails on the first that it cannot read back.

  function GetResult(db: Database, ref: Ref): Result<Option<Event>> {
    var e := GetOf(db, ref);
    if e.Some? && !Readable(e.value) then Err else Ok(e)
  }

  function HistoryResult(db: Database, ref: Ref): Result<seq<Event>> {
    var h := Select(db.events, OfKey(ref));
    if AllReadable(h) then Ok(h) else Err
  }

  function AfterResult(db: Database, seqNo: int): Result<seq<Event>> {
    var tail := Select(db.events, After(seqNo));
    if AllReadable(tail) then Ok(tail) else Err
  }

  function AsOfResult(db: Database, ref: Ref, asOf: Option<Instant>, validAt: Option<Instant>): Result<Option<Event>> {
    if HistoryResult(db, ref).Ok? then Ok(AsOfIn(db, ref, asOf, validAt)) else Err
  }

  /** What ReplayAsOf returns when every row of the collection can be read back: every key's AsOf answer, in strictly
      ascending key order. */
  ghost predicate IsReplay(out: seq<Event>, db: Database, collection: string, asOf: Option<Instant>,
        validAt: Option<Instant>) {
    && AllReadable(Select(db.events, OfCollection(collection)))
    && (forall i, j :: 0 <= i < j < |out| ==> Strings.Less(out[i].key, out[j].key))
    && (forall e :: e in out <==> e.collection == collection && AsOfIn(db, RefOf(e), asOf, validAt) == Some(e))
  }

  predicate ByKey(a: Event, b: Event) { Strings.Less(a.key, b.key) }

  lemma ByKeyIsStrictWeak()
    ensures StrictWeakOrder(ByKey)
  {
    Strings.LessIsStrictWeak();
  }

  /** ReplayAsOf fails exactly when AsOf fails for some key of the collection. */
  lemma ReadableByKey(db: Database, collection: string)
    ensures AllReadable(Select(db.events, OfCollection(collection)))
       <==> forall key :: HistoryResult(db, Ref(collection, key)).Ok?
  {
    var rows := Select(db.events, OfCollection(collection));
    SelectMembers(db.events, OfCollection(collection));
    forall key ensures AllReadable(rows) ==> HistoryResult(db, Ref(collection, key)).Ok? {
      SelectMembers(db.events, OfKey(Ref(collection, key)));
    }
    forall e | e in rows && HistoryResult(db, Ref(collection, e.key)).Ok? ensures Readable(e) {
      SelectMembers(db.events, OfKey(Ref(collection, e.key)));
    }
  }

  /** IsReplay leaves no choice. */
  lemma ReplayIsUnique(a: seq<Event>, b: seq<Event>, db: Database, collection: string,
                       asOf: Option<Instant>, validAt: Option<Instant>)
    requires IsReplay(a, db, collection, asOf, validAt) && IsReplay(b, db, collection, asOf, validAt)
    ensures a == b
  {
    ByKeyIsStrictWeak();
    StrictlySortedIsUnique(a, b, ByKey);
  }

  lemma {:induction false} SelectIsPick(es: seq<Event>, w: Where)
    ensures Select(es, w) == Pick(es, e => Holds(w, e))
  {
    if es != [] {
      SelectIsPick(es[..|es| - 1], w);
    }
  }

  lemma {:induction false} SelectWithin(es: seq<Event>, outer: Where, inner: Where)
    requires forall e :: Holds(inner, e) ==> Holds(outer, e)
    ensures Select(Select(es, outer), inner) == Select(es, inner)
  {
    if es != [] {
      var init, last := es[..|es| - 1], es[|es| - 1];
      SelectWithin(init, outer, inner);
      SelectConcat(Select(init, outer), if Holds(outer, last) then [last] else [], inner);
      assert Select([last], inner) == (if Holds(inner, last) then [last] else []) by { assert [last][..0] == []; }
    }
  }

  /** Ordering a collection's rows by key leaves each key's history as it was, in seq order. */
  lemma SortKeepsHistories(db: Database, collection: string, key: string)
    ensures Select(StableSort(Select(db.events, OfCollection(collection)), ByKey), OfKey(Ref(collection, key)))
         == Select(db.events, OfKey(Ref(collection, key)))
  {
    var w, rows := OfKey(Ref(collection, key)), Select(db.events, OfCollection(collection));
    var p := (e: Event) => Holds(w, e);
    forall a: Event, b: Event | p(a) && p(b) ensures !ByKey(a, b) {
      if ByKey(a, b) { Strings.LessIsAsymmetric(a.key, b.key); }
    }
    SortIsStable(rows, ByKey, p);
    SelectIsPick(rows, w);
    SelectIsPick(StableSort(rows, ByKey), w);
    SelectWithin(db.events, OfCollection(collection), w);
  }

  /** order lists the keys of rows in ascending order, and byKey maps each to its own rows. */
  ghost predicate Grouped(order: seq<string>, byKey: map<string, seq<Event>>, rows: seq<Event>, collection: string) {
    && Strings.Ascending(order)
    && (forall k :: k in order <==> k in byKey)
    && (forall k :: k in byKey ==> byKey[k] != [] && byKey[k] == Select(rows, OfKey(Ref(collection, k))))
    && (forall k :: k !in byKey ==> Select(rows, OfKey(Ref(collection, k))) == [])
  }

  lemma NewKeyIsGreater(rows: seq<Event>, e: Event, collection: string, k: string)
    requires Sorted(rows + [e], ByKey) && Select(rows, OfKey(Ref(collection, k))) != [] && e.key != k
    ensures Strings.Less(k, e.key)
  {
    SelectMembers(rows, OfKey(Ref(collection, k)));
    var x := Select(rows, OfKey(Ref(collection, k)))[0];
    assert x in rows;
    var j :| 0 <= j < |rows| && rows[j] == x;
    assert (rows + [e])[j] == x && (rows + [e])[|rows|] == e && !ByKey(e, x);
    Strings.LessIsTotal(k, e.key);
  }

  lemma GroupSeen(order: seq<string>, byKey: map<string, seq<Event>>, rows: seq<Event>, e: Event, collection: string)
    requires Grouped(order, byKey, rows, collection) && e.collection == collection && e.key in byKey
    ensures Grouped(order, byKey[e.key := byKey[e.key] + [e]], rows + [e], collection)
  {
    assert (rows + [e])[..|rows|] == rows;
    forall k ensures Select(rows + [e], OfKey(Ref(collection, k)))
                  == Select(rows, OfKey(Ref(collection, k))) + if k == e.key then [e] else [] {
    }
  }

  lemma GroupNew(order: seq<string>, byKey: map<string, seq<Event>>, rows: seq<Event>, e: Event, collection: string)
    requires Grouped(order, byKey, rows, collection) && e.collection == collection && e.key !in byKey
    requires Sorted(rows + [e], ByKey)
    ensures Grouped(order + [e.key], byKey[e.key := [e]], rows + [e], collection)
  {
    assert (rows + [e])[..|rows|] == rows;
    forall k ensures Select(rows + [e], OfKey(Ref(collection, k)))
                  == Select(rows, OfKey(Ref(collection, k))) + if k == e.key then [e] else [] {
    }
    forall k | k in order ensures Strings.Less(k, e.key) {
      NewKeyIsGreater(rows, e, collection, k);
    }
  }

  lemma GroupNext(order: seq<string>, byKey: map<string, seq<Event>>, rows: seq<Event>, i: nat, collection: string)
    requires i < |rows| && Sorted(rows, ByKey) && forall e :: e in rows ==> e.collection == collection
    requires Grouped(order, byKey, rows[..i], collection)
    ensures var e := rows[i];
            if e.key in byKey then Grouped(order, byKey[e.key := byKey[e.key] + [e]], rows[..i + 1], collection)
            else Grouped(order + [e.key], byKey[e.key := [e]], rows[..i + 1], collection)
  {
    var e := rows[i];
    assert rows[..i] + [e] == rows[..i + 1] && e in rows;
    if e.key in byKey {
      GroupSeen(order, byKey, rows[..i], e, collection);
    } else {
      assert Sorted(rows[..i] + [e], ByKey);
      GroupNew(order, byKey, rows[..i], e, collection);
    }
  }

  /** The grouping loop of ReplayAsOf, which stops at a row whose times do not parse. */
  method GroupByKey(rows: seq<Event>, collection: string)
    returns (ok: bool, order: seq<string>, byKey: map<string, seq<Event>>)
    requires Sorted(rows, ByKey) && forall e :: e in rows ==> e.collection == collection
    ensures ok <==> AllReadable(rows)
    ensures ok ==> Grouped(order, byKey, rows, collection)
  {
    ok, order, byKey := true, [], map[];
    var i := 0;
    while i < |rows|
      invariant 0 <= i <= |rows| && AllReadable(rows[..i])
      invariant Grouped(order, byKey, rows[..i], collection)
    {
      var e := rows[i];
      ok := ParseTimes(e.validFrom, e.txTime);
      if !ok {
        OneIsUnreadable(rows, e);
        return;
      }
      ReadableNext(rows, i);
      GroupNext(order, byKey, rows, i, collection);
      if e.key !in byKey {
        order := order + [e.key];
        byKey := byKey[e.key := [e]];
      } else {
        byKey := byKey[e.key := byKey[e.key] + [e]];
      }
      i := i + 1;
    }
    assert rows[..i] == rows;
  }

  /** ORDER BY key ASC, over rows in seq order. */
  method OrderByKey(found: seq<Event>) returns (rows: seq<Event>)
    ensures rows == StableSort(found, ByKey)
  {
    var a := new Event[|found|](i requires 0 <= i < |found| => found[i]);
    assert a[..] == found;
    SortSlice(a, ByKey);
    rows := a[..];
  }

  lemma RowsByKey(es: seq<Event>, collection: string)
    ensures var rows := StableSort(Select(es, OfCollection(collection)), ByKey);
            && Sorted(rows, ByKey) && (forall e :: e in rows ==> e.collection == collection)
            && (AllReadable(rows) <==> AllReadable(Select(es, OfCollection(collection))))
  {
    var found := Select(es, OfCollection(collection));
    ByKeyIsStrictWeak();
    SortOrders(found, ByKey);
    SortKeepsMembers(found, ByKey);
    SelectMembers(es, OfCollection(collection));
  }

  lemma VisibleInHistory(db: Database, ref: Ref, asOf: Option<Instant>, validAt: Option<Instant>)
    ensures var v := VisibleOf(Select(db.events, OfKey(ref)), asOf, validAt);
            v.Some? ==> v.value in db.events && RefOf(v.value) == ref
  {
    VisibleIsTheMaximum(Select(db.events, OfKey(ref)), asOf, validAt);
    SelectMembers(db.events, OfKey(ref));
  }

  lemma ValidHistory(db: Database, ref: Ref)
    requires ValidDatabase(db)
    ensures Increasing(Select(db.events, OfKey(ref))) && DistinctSeqs(Select(db.events, OfKey(ref)))
  {
    SelectIncreasing(db.events, OfKey(ref));
  }

  // ---- the store ----

  /** event.Store together with the database it writes: Append and RestoreEvent are its only writers. */
  class Store {
    var events: seq<Event>
    var live: map<Ref, Row>
    var counter: int

    ghost function Db(): Database
      reads this
    {
      Database(events, live, counter)
    }

    constructor ()
      ensures Db() == EMPTY && ValidDatabase(Db())
    {
      events, live, counter := [], map[], 0;
    }

    constructor Open(db: Database)
      ensures Db() == db
    {
      events, live, counter := db.events, db.live, db.counter;
    }

    method Append(r: Request, now: Instant) returns (res: Result<Event>)
      requires ValidDatabase(Db())
      modifies this
      ensures ValidDatabase(Db())
      ensures res.Ok? <==> WellFormed(r)
      ensures res.Err? ==> Db() == old(Db())
      ensures res.Ok? ==> res.value == EventFor(r, old(counter) + 1, now) && Db() == Commit(old(Db()), res.value)
      ensures res.Ok? ==> var e := res.value;
                && e.seqNo == counter == old(counter) + 1 && e.collection == r.collection && e.key == r.key
                && e.op == r.op && e.value == (if r.op.Delete? then None else r.value) && e.txTime == now
                && e.validFrom == (if r.validFrom.Some? then r.validFrom.value else now)
                && e.meta == (if r.meta.Some? then r.meta.value else Obj(map[])) && events == old(events) + [e]
                && live == old(live)[Ref(e.collection, e.key) :=
                             Row(e.value, e.validFrom, e.txTime, e.op.Delete?, e.seqNo, e.meta)]
    {
      if r.collection == "" || r.key == "" {
        return Err;
      }
      var value := if r.op.Delete? then None else r.value;
      var meta := if r.meta.None? then Obj(map[]) else r.meta.value;
      var validFrom := if r.validFrom.None? then now else r.validFrom.value;
      counter := counter + 1;
      var e := Event(counter, r.collection, r.key, r.op, value, validFrom, now, meta);
      events := events + [e];
      live := live[Ref(r.collection, r.key) := Row(value, validFrom, now, r.op.Delete?, counter, meta)];
      return Ok(e);
    }

    method RestoreEvent(e: Event) returns (ok: bool)
      requires ValidDatabase(Db())
      modifies this
      ensures ValidDatabase(Db())
      ensures ok <==> RestoreInto(old(Db()), e).Some?
      ensures Db() == if ok then RestoreInto(old(Db()), e).value else old(Db())
    {
      if exists x :: x in events && x.seqNo == e.seqNo {
        return false;
      }
      InsertIncreasing(events, e);
      InsertMembers(events, e);
      events := Insert(events, e, BySeq);
      if e.seqNo > counter {
        counter := e.seqNo;
      }
      if RefOf(e) !in live || e.seqNo > live[RefOf(e)].seqNo {
        live := live[RefOf(e) := RowOf(e)];
      }
      return true;
    }

    method Get(ref: Ref) returns (r: Result<Option<Event>>)
      ensures r == GetResult(Db(), ref)
    {
      if ref !in live {
        return Ok(None);
      }
      var row := live[ref];
      if row.deleted {
        return Ok(None);
      }
      var parsed := ParseTimes(row.validFrom, row.txTime);
      if !parsed {
        return Err;
      }
      r := Ok(Some(Event(row.seqNo, ref.collection, ref.key, Put, row.value, row.validFrom, row.txTime, row.meta)));
    }

    method History(ref: Ref) returns (r: Result<seq<Event>>)
      ensures r == HistoryResult(Db(), ref)
    {
      var out: seq<Event> := [];
      for i := 0 to |events|
        invariant out == Select(events[..i], OfKey(ref)) && AllReadable(out)
      {
        SelectNext(events, i, OfKey(ref));
        if events[i].collection != ref.collection || events[i].key != ref.key {
          continue;
        }
        var parsed := ParseTimes(events[i].validFrom, events[i].txTime);
        if !parsed {
          return Err;
        }
        out := out + [events[i]];
      }
      assert events[..|events|] == events;
      return Ok(out);
    }

    /** Named After in the source: the shipper's tail of the log, across all collections. */
    method AfterSeq(seqNo: int) returns (r: Result<seq<Event>>)
      ensures r == AfterResult(Db(), seqNo)
      ensures r.Ok? ==> forall e :: e in r.value <==> e in events && seqNo < e.seqNo
    {
      SelectMembers(events, After(seqNo));
      var out: seq<Event> := [];
      for i := 0 to |events|
        invariant out == Select(events[..i], After(seqNo)) && AllReadable(out)
      {
        SelectNext(events, i, After(seqNo));
        if events[i].seqNo <= seqNo {
          continue;
        }
        var parsed := ParseTimes(events[i].validFrom, events[i].txTime);
        if !parsed {
          return Err;
        }
        out := out + [events[i]];
      }
      assert events[..|events|] == events;
      return Ok(out);
    }

    method AsOf(ref: Ref, asOf: Option<Instant>, validAt: Option<Instant>) returns (r: Result<Option<Event>>)
      requires ValidDatabase(Db())
      ensures r == AsOfResult(Db(), ref, asOf, validAt)
    {
      var history := History(ref);
      if history.Err? {
        return Err;
      }
      ValidHistory(Db(), ref);
      var e := Visible(history.value, asOf, validAt);
      if e.Some? && e.value.op.Delete? {
        e := None;
      }
      return Ok(e);
    }

    method ReplayAsOf(collection: string, asOf: Option<Instant>, validAt: Option<Instant>)
      returns (r: Result<seq<Event>>)
      requires ValidDatabase(Db())
      ensures r.Ok? <==> AllReadable(Select(Db().events, OfCollection(collection)))
      ensures r.Ok? ==> IsReplay(r.value, Db(), collection, asOf, validAt)
    {
      var rows := OrderByKey(Select(events, OfCollection(collection)));
      RowsByKey(events, collection);
      var ok, order, byKey := GroupByKey(rows, collection);
      if !ok {
        return Err;
      }
      forall k ensures Select(rows, OfKey(Ref(collection, k))) == Select(events, OfKey(Ref(collection, k))) {
        SortKeepsHistories(Db(), collection, k);
      }
      var out := AnswerKeys(order, byKey, collection, asOf, validAt);
      CompleteReplay(out, Db(), order, collection, asOf, validAt);
      return Ok(out);
    }

    /** The second loop of ReplayAsOf: the visible, undeleted version of each key in order. */
    method AnswerKeys(order: seq<string>, byKey: map<string, seq<Event>>, collection: string,
                      asOf: Option<Instant>, validAt: Option<Instant>) returns (out: seq<Event>)
      requires ValidDatabase(Db()) && Strings.Ascending(order)
      requires forall k :: k in order ==> k in byKey && byKey[k] == Select(events, OfKey(Ref(collection, k)))
      ensures Answers(out, Db(), order, collection, asOf, validAt)
    {
      out := [];
      for n := 0 to |order|
        invariant Answers(out, Db(), order[..n], collection, asOf, validAt)
      {
        var key := order[n];
        assert order[..n] + [key] == order[..n + 1] && key in order;
        assert DistinctSeqs(byKey[key]) by { ValidHistory(Db(), Ref(collection, key)); }
        var e := Visible(byKey[key], asOf, validAt);
        assert Undeleted(e) == AsOfIn(Db(), Ref(collection, key), asOf, validAt);
        AnswerNext(out, Db(), order[..n], key, collection, asOf, validAt);
        if e.None? || e.value.op.Delete? {
          continue;
        }
        out := out + [e.value];
      }
      assert order[..|order|] == order;
    }
  }

  /** out holds, in the order of keys, the answers of those keys that have one. */
  ghost predicate Answers(out: seq<Event>, db: Database, keys: seq<string>, collection: string,
                          asOf: Option<Instant>, validAt: Option<Instant>) {
    && (forall i, j :: 0 <= i < j < |out| ==> Strings.Less(out[i].key, out[j].key))
    && (forall e :: e in out <==> e.key in keys && AsOfIn(db, Ref(collection, e.key), asOf, validAt) == Some(e))
  }

  lemma AnswerNext(out: seq<Event>, db: Database, keys: seq<string>, key: string, collection: string,
                   asOf: Option<Instant>, validAt: Option<Instant>)
    requires Answers(out, db, keys, collection, asOf, validAt) && Strings.Ascending(keys + [key])
    ensures var e := AsOfIn(db, Ref(collection, key), asOf, validAt);
            Answers(if e.None? then out else out + [e.value], db, keys + [key], collection, asOf, validAt)
  {
    VisibleInHistory(db, Ref(collection, key), asOf, validAt);
    forall e | e in out ensures Strings.Less(e.key, key) {
      assert e.key in keys;
      var i :| 0 <= i < |keys| && keys[i] == e.key;
      assert (keys + [key])[i] == e.key && (keys + [key])[|keys|] == key;
    }
    assert forall k :: k in keys + [key] <==> k in keys || k == key;
  }

  lemma CompleteReplay(out: seq<Event>, db: Database, order: seq<string>, collection: string, asOf: Option<Instant>,
        validAt: Option<Instant>)
    requires Answers(out, db, order, collection, asOf, validAt)
    requires forall k :: k !in order ==> Select(db.events, OfKey(Ref(collection, k))) == []
    requires AllReadable(Select(db.events, OfCollection(collection)))
    ensures IsReplay(out, db, collection, asOf, validAt)
  {
    forall e ensures e in out <==> e.collection == collection && AsOfIn(db, RefOf(e), asOf, validAt) == Some(e) {
      VisibleInHistory(db, Ref(collection, e.key), asOf, validAt);
    }
  }
}
