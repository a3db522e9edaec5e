/** internal/tql/executor.go, with sortAndLimit of match.go: how statements run over the log and its projection. */
module Executor {
  import opened Wrappers
  import opened Json
  import opened Ast
  import opened Sorting
  import opened Paging
  import opened Temporal
  import opened EventStore
  import opened Backup
  import opened Replication
  import opened TimeTravel
  import opened Match
  import opened Compile
  import Instants
  import Strings

  datatype ResultValue = ResultValue(
    collection: string, key: string, value: Option<Json>, validFrom: Instant, txTime: Instant)

  function ToResultValue(e: Event): ResultValue {
    ResultValue(e.collection, e.key, e.value, e.validFrom, e.txTime)
  }

  // ---- GET and PUT ----

  function AsRow(e: Result<Option<Event>>): Result<Option<ResultValue>> {
    if e.Err? then Err else Ok(if e.value.None? then None else Some(ToResultValue(e.value.value)))
  }

  method ExecGet(store: Store, ref: Ref, asOf: Option<Instant>) returns (r: Result<Option<ResultValue>>)
    requires ValidDatabase(store.Db())
    ensures r == AsRow(if asOf.None? then GetResult(store.Db(), ref) else AnswerAt(store.Db(), ref, asOf.value))
    ensures asOf.None? && (ref !in store.live || store.live[ref].deleted) ==> r == Ok(None)
    ensures asOf.None? && ref in store.live && !store.live[ref].deleted ==>
              var row := store.live[ref];
              r == if ReadableTimes(row.validFrom, row.txTime)
                   then Ok(Some(ResultValue(ref.collection, ref.key, row.value, row.validFrom, row.txTime))) else Err
    ensures asOf.Some? ==> (r.Ok? <==> forall e :: e in store.events && RefOf(e) == ref ==> Readable(e))
    ensures asOf.Some? && r.Ok? ==>
              forall row :: r.value == Some(row) <==>
                exists e :: DatedLastBy(e, store.events, ref, if asOf.value == Instants.ZERO then None else asOf)
                            && e.op.Put? && row == ResultValue(e.collection, e.key, e.value, e.validFrom, e.txTime)
  {
    SelectMembers(store.events, OfKey(ref));
    if asOf.Some? {
      forall e ensures AsOfIn(store.Db(), ref, None, Instants.Given(asOf.value)) == Some(e) <==>
        DatedLastBy(e, store.events, ref, Instants.Given(asOf.value)) && e.op.Put?
      {
        AnswerIsDatedLast(store.Db(), ref, Instants.Given(asOf.value), e);
      }
    }
    var e: Result<Option<Event>>;
    if asOf.Some? {
      e := store.AsOf(ref, None, Instants.Given(asOf.value));
    } else {
      e := store.Get(ref);
    }
    if e.Err? {
      return Err;
    }
    if e.value.None? {
      return Ok(None);
    }
    return Ok(Some(ToResultValue(e.value.value)));
  }

  /** What PUT asks Append for: no meta, and a valid time if AT gives one that is not the zero time. */
  function PutRequest(ref: Ref, value: Option<Json>, at: Option<Instant>): Request {
    Request(ref.collection, ref.key, Put, value, None, if at.None? then None else Instants.Given(at.value))
  }

  method ExecPut(store: Store, ref: Ref, value: Option<Json>, at: Option<Instant>, now: Instant)
    returns (r: Result<ResultValue>)
    requires ValidDatabase(store.Db())
    modifies store
    ensures ValidDatabase(store.Db())
    ensures r.Ok? <==> ref.collection != "" && ref.key != ""
    ensures r.Err? ==> store.Db() == old(store.Db())
    ensures r.Ok? ==>
              var validFrom := if at.Some? && at.value != Instants.ZERO then at.value else now;
              r.value == ResultValue(ref.collection, ref.key, value, validFrom, now)
    ensures r.Ok? ==>
              store.Db() == Commit(old(store.Db()), EventFor(PutRequest(ref, value, at), old(store.counter) + 1, now))
    ensures r.Ok? ==>
              store.counter == old(store.counter) + 1
              && store.events == old(store.events) + [
                   Event(store.counter, ref.collection, ref.key, Put, value, r.value.validFrom, now, Obj(map[]))]
              && store.live == old(store.live)[
                   ref := Row(value, r.value.validFrom, now, false, store.counter, Obj(map[]))]
  {
    var validFrom: Option<Instant> := None;
    if at.Some? {
      validFrom := Instants.Given(at.value);
    }
    var e := store.Append(Request(ref.collection, ref.key, Put, value, None, validFrom), now);
    if e.Err? {
      return Err;
    }
    return Ok(ToResultValue(e.value));
  }

  method ExecDelete(store: Store, ref: Ref, now: Instant) returns (r: Result<()>)
    requires ValidDatabase(store.Db())
    modifies store
    ensures ValidDatabase(store.Db())
    ensures r.Ok? <==> ref.collection != "" && ref.key != ""
    ensures r.Err? ==> store.Db() == old(store.Db())
    ensures r.Ok? ==>
              store.counter == old(store.counter) + 1
              && store.events == old(store.events) + [
                   Event(store.counter, ref.collection, ref.key, Delete, None, now, now, Obj(map[]))]
              && store.live == old(store.live)[ref := Row(None, now, now, true, store.counter, Obj(map[]))]
  {
    var e := store.Append(Request(ref.collection, ref.key, Delete, None, None, None), now);
    return if e.Ok? then Ok(()) else Err;
  }

  /** A readable PUT dated by v that no other version dated by v outranks is what GET ... AS OF v answers, however late
      it is committed. */
  lemma BackdatedPutIsTheAnswer(steps: seq<Step>, put: Step, ref: Ref, value: Option<Json>, date: Instant, v: Instant)
    requires put.Append? && WellFormed(put.request) && put.request == PutRequest(ref, value, Some(date))
    requires date != Instants.ZERO && v != Instants.ZERO && date <= v && ReadableTimes(date, put.now)
    requires forall x :: x in Run(steps).db.events && RefOf(x) == ref ==>
               Readable(x) && (x.validFrom <= v ==> x.validFrom <= date)
    ensures var e := AnswerAt(Run(steps + [put]).db, ref, v);
            e.Ok? && e.value.Some? && e.value.value.value == value && e.value.value.validFrom == date
            && e.value.value.txTime == put.now
            && DatedLastBy(e.value.value, Run(steps + [put]).db.events, ref, Some(v))
  {
    InvHolds(steps);
    InvHolds(steps + [put]);
    var s, t := Run(steps), Run(steps + [put]);
    var e := EventFor(put.request, s.db.counter + 1, put.now);
    assert (steps + [put])[..|steps|] == steps;
    assert t.db.events == s.db.events + [e];
    LastPutAnswers(s.db, t.db, ref, e, v);
  }

  lemma LastPutAnswers(db: Database, later: Database, ref: Ref, e: Event, v: Instant)
    requires ValidDatabase(db) && ValidDatabase(later) && later.events == db.events + [e]
    requires RefOf(e) == ref && e.op.Put? && Readable(e) && e.validFrom <= v && v != Instants.ZERO
    requires forall x :: x in db.events && RefOf(x) == ref ==>
               Readable(x) && (x.validFrom <= v ==> x.validFrom <= e.validFrom)
    ensures AnswerAt(later, ref, v) == Ok(Some(e)) && DatedLastBy(e, later.events, ref, Some(v))
  {
    SelectMembers(later.events, OfKey(ref));
    assert later.events[|db.events|] == e;
    assert forall x :: x in later.events ==> x in db.events || x == e;
    forall x | x in db.events ensures x.seqNo <= e.seqNo {
      var i :| 0 <= i < |db.events| && db.events[i] == x;
      assert later.events[i] == x;
    }
    AnswerIsDatedLast(later, ref, Some(v), e);
  }

  /** PUT c/k {} AT "9999-12-31T23:59:59-01:00" is accepted. From then on, short of a purge, HISTORY and every AS OF of
      the key fail, so does FIND ... AS OF on its collection, and the shipper cannot read past it; until the key is
      written again its GET fails too. */
  lemma LatePutFailsReads(steps: seq<Step>, put: Step, more: seq<Step>, ref: Ref, at: Instants.Civil, late: Instant,
                          asOf: Option<Instant>, validAt: Option<Instant>)
    requires at == Instants.Civil(10000, 1, 1, 0, 59, 59, 0) && late == Instants.Nanos(at) && NoPurge(more)
    requires put.Append? && WellFormed(put.request) && put.request == PutRequest(ref, Some(Obj(map[])), Some(late))
    ensures Instants.Literal(late)
    ensures var s, t := Run(steps), Run(steps + [put]);
            && GetResult(t.db, ref).Err?
            && var db := RunFrom(t, more).db;
              && HistoryResult(db, ref).Err? && AsOfResult(db, ref, asOf, validAt).Err?
              && (forall out :: !IsReplay(out, db, ref.collection, asOf, validAt))
              && forall seqNo :: seqNo <= s.db.counter ==> AfterResult(db, seqNo).Err?
  {
    LateInstant(at, late);
    var s, t := Run(steps), Run(steps + [put]);
    var e := EventFor(put.request, s.db.counter + 1, put.now);
    assert (steps + [put])[..|steps|] == steps;
    assert t == Next(s, put);
    LatePutIsStored(s.db, t.db, ref, e, late);
    VersionStays(t, more, e);
    UnreadableVersionFailsReads(RunFrom(t, more).db, e, asOf, validAt);
  }

  lemma LatePutIsStored(db: Database, db': Database, ref: Ref, e: Event, late: Instant)
    requires db' == Commit(db, e) && RefOf(e) == ref && e.op.Put? && e.validFrom == late && !Instants.Stampable(late)
    ensures e in db'.events && !Readable(e) && GetResult(db', ref).Err?
  {
    assert db'.live[ref] == RowOf(e);
  }

  lemma LateInstant(at: Instants.Civil, late: Instant)
    requires at == Instants.Civil(10000, 1, 1, 0, 59, 59, 0) && late == Instants.Nanos(at)
    ensures Instants.Literal(late) && !Instants.Stampable(late)
  {
    Instants.CivilOfInvertsNanos(at);
    Instants.StampableYears(late);
  }

  // ---- ORDER BY, LIMIT, OFFSET in memory ----

  function ExtractField(value: Option<Json>, field: string): Option<Json> {
    if value.Some? && value.value.Obj? then Lookup(value.value, Strings.Split(field, '.')) else None
  }

  /** lessField. */
  predicate LessField(a: Option<Json>, b: Option<Json>, field: string) {
    var va, vb := ExtractField(a, field), ExtractField(b, field);
    va.Some? && (vb.None?
                 || (va.value.Num? && vb.value.Num? && va.value.n < vb.value.n)
                 || (va.value.Str? && vb.value.Str? && Strings.Less(va.value.s, vb.value.s)))
  }

  type Order = (ResultValue, ResultValue) -> bool

  function OrderBy(field: string, desc: bool): Order {
    (a: ResultValue, b: ResultValue) =>
      if desc then LessField(b.value, a.value, field) else LessField(a.value, b.value, field)
  }

  function SortedAndLimited(rows: seq<ResultValue>, field: string, desc: bool, limit: nat,
        offset: nat): seq<ResultValue> {
    Window(if field == "" then rows else StableSort(rows, OrderBy(field, desc)), offset, limit)
  }

  /** Sorts the array in place and returns the part of it that is kept, a[from..to]. */
  method SortAndLimit(a: array<ResultValue>, field: string, desc: bool, limit: nat, offset: nat) returns (from: nat,
        to: nat)
    modifies a
    ensures from <= to <= a.Length
    ensures a[from..to] == SortedAndLimited(old(a[..]), field, desc, limit, offset)
    ensures field != "" ==> a[..] == StableSort(old(a[..]), OrderBy(field, desc))
  {
    if field != "" {
      SortSlice(a, OrderBy(field, desc));
    }
    WindowIsSlice(a[..], offset, limit);
    from, to := 0, a.Length;
    if offset > 0 {
      if offset >= a.Length {
        return a.Length, a.Length;
      }
      from := offset;
    }
    if limit > 0 && to - from > limit {
      to := from + limit;
    }
    assert a[from..to] == a[..][from..to];
  }

  ghost predicate AllNumbers(rows: seq<ResultValue>, field: string) {
    forall r :: r in rows ==> var f := ExtractField(r.value, field); f.None? || f.value.Num?
  }

  ghost predicate AllStrings(rows: seq<ResultValue>, field: string) {
    forall r :: r in rows ==> var f := ExtractField(r.value, field); f.None? || f.value.Str?
  }

  predicate Has(r: ResultValue, field: string) { ExtractField(r.value, field).Some? }

  lemma OrderIsStrictWeak(rows: seq<ResultValue>, field: string, desc: bool)
    requires AllNumbers(rows, field) || AllStrings(rows, field)
    ensures StrictWeakOn(OrderBy(field, desc), rows)
  {
    if AllNumbers(rows, field) {
      NumbersAreOrdered(rows, field, desc);
    } else {
      StringsAreOrdered(rows, field, desc);
    }
  }

  lemma NumbersAreOrdered(rows: seq<ResultValue>, field: string, desc: bool)
    requires AllNumbers(rows, field)
    ensures StrictWeakOn(OrderBy(field, desc), rows)
  {
  }

  lemma StringsAreOrdered(rows: seq<ResultValue>, field: string, desc: bool)
    requires AllStrings(rows, field)
    ensures StrictWeakOn(OrderBy(field, desc), rows)
  {
    var less := OrderBy(field, desc);
    forall x, y, z | x in rows && y in rows && z in rows
      ensures (less(x, y) ==> !less(y, x)) && (less(x, z) ==> less(x, y) || less(y, z))
    {
      StringFieldsAreOrdered(x.value, y.value, z.value, field);
      StringFieldsAreOrdered(y.value, x.value, z.value, field);
      StringFieldsAreOrdered(z.value, y.value, x.value, field);
    }
  }

  predicate StringOrNone(f: Option<Json>) { f.None? || f.value.Str? }

  lemma StringFieldsAreOrdered(a: Option<Json>, b: Option<Json>, c: Option<Json>, field: string)
    requires StringOrNone(ExtractField(a, field)) && StringOrNone(ExtractField(b, field))
    requires StringOrNone(ExtractField(c, field))
    ensures LessField(a, b, field) ==> !LessField(b, a, field)
    ensures LessField(a, c, field) ==> LessField(a, b, field) || LessField(b, c, field)
  {
    var x, y, z := ExtractField(a, field), ExtractField(b, field), ExtractField(c, field);
    if x.Some? && y.Some? {
      var s, t := x.value.s, y.value.s;
      if Strings.Less(s, t) { Strings.LessIsAsymmetric(s, t); }
      if z.Some? && Strings.Less(s, z.value.s) {
        Strings.LessIsTotal(s, t);
        if Strings.Less(t, s) { Strings.LessIsTransitive(t, s, z.value.s); }
      }
    }
  }

  /** When the ordering field is all numbers or all strings where present, rows come out in order, ties as they came in;
      rows without the field come last, except under DESC, which puts them first. */
  lemma SortedRows(rows: seq<ResultValue>, field: string, desc: bool)
    requires AllNumbers(rows, field) || AllStrings(rows, field)
    ensures var out := StableSort(rows, OrderBy(field, desc));
            Sorted(out, OrderBy(field, desc)) && multiset(out) == multiset(rows)
            && (forall i, j :: 0 <= i < j < |out| && !Has(out[i], field) && Has(out[j], field) ==> desc)
            && (forall i, j :: 0 <= i < j < |out| && Has(out[i], field) && !Has(out[j], field) ==> !desc)
            && (forall i, j :: 0 <= i < j < |out| && Has(out[i], field) && Has(out[j], field) ==>
                  if desc then FieldUpTo(out[j], out[i], field) else FieldUpTo(out[i], out[j], field))
  {
    var out, less := StableSort(rows, OrderBy(field, desc)), OrderBy(field, desc);
    OrderIsStrictWeak(rows, field, desc);
    SortOrdersOn(rows, less);
    SortKeepsElements(rows, less);
    forall i, j | 0 <= i < j < |out|
      ensures !Has(out[i], field) && Has(out[j], field) ==> desc
      ensures Has(out[i], field) && !Has(out[j], field) ==> !desc
      ensures Has(out[i], field) && Has(out[j], field) ==>
                if desc then FieldUpTo(out[j], out[i], field) else FieldUpTo(out[i], out[j], field)
    {
      assert !less(out[j], out[i]);
      SortKeepsMembers(rows, less);
      assert out[i] in rows && out[j] in rows;
      if Has(out[i], field) && Has(out[j], field) {
        var f, g := ExtractField(out[i].value, field).value, ExtractField(out[j].value, field).value;
        if f.Str? && g.Str? { Strings.LessIsTotal(f.s, g.s); }
      }
    }
  }

  /** a's field is the smaller number, or the text that comes first, or the same. */
  predicate FieldUpTo(a: ResultValue, b: ResultValue, field: string) {
    var f, g := ExtractField(a.value, field), ExtractField(b.value, field);
    f.Some? && g.Some? && (f == g || (f.value.Num? && g.value.Num? && f.value.n < g.value.n)
                           || (f.value.Str? && g.value.Str? && Strings.Less(f.value.s, g.value.s)))
  }

  // ---- HISTORY ... BETWEEN ----

  /** filtered := events[:0]: the kept events overwrite the front of the same array while it is still being read. */
  method FilterInPlace(events: array<Event>, from: Instant, to: Instant) returns (n: nat)
    modifies events
    ensures n <= events.Length && events[..n] == Pick(old(events[..]), (e: Event) => from <= e.validFrom <= to)
    ensures forall e :: e in events[..n] <==> e in old(events[..]) && from <= e.validFrom <= to
  {
    ghost var dated := (e: Event) => from <= e.validFrom <= to;
    ghost var was := events[..];
    n := 0;
    for i := 0 to events.Length
      invariant n <= i
      invariant events[..n] == Pick(was[..i], dated)
      invariant events[i..] == was[i..]
    {
      assert was[..i + 1][..i] == was[..i];
      var e := events[i];
      assert e == events[i..][0] == was[i];
      assert was[i + 1..] == was[i..][1..] && events[i + 1..] == events[i..][1..];
      if !(e.validFrom < from) && !(e.validFrom > to) {
        ghost var front := events[..n];
        events[n] := e;
        assert events[..n + 1] == front + [e];
        n := n + 1;
      }
    }
    assert was[..events.Length] == was;
    PickMembers(was, dated);
  }

  lemma {:induction false} PickMembers(es: seq<Event>, p: Event -> bool)
    ensures forall e :: e in Pick(es, p) <==> e in es && p(e)
  {
    if es != [] {
      PickMembers(es[..|es| - 1], p);
      assert es == es[..|es| - 1] + [es[|es| - 1]];
    }
  }

  lemma {:induction false} PickIncreasing(es: seq<Event>, p: Event -> bool)
    requires Increasing(es)
    ensures Increasing(Pick(es, p))
  {
    if es != [] {
      PickIncreasing(es[..|es| - 1], p);
      PickMembers(es[..|es| - 1], p);
      forall e | e in Pick(es[..|es| - 1], p) ensures e.seqNo < es[|es| - 1].seqNo {
        assert e in es[..|es| - 1];
      }
    }
  }

  /** kept holds the events of es on ref that are dated from between.0 to between.1, both included. */
  ghost predicate IsDatedWithin(kept: seq<Event>, es: seq<Event>, ref: Ref, between: Option<(Instant, Instant)>) {
    forall e :: e in kept <==>
      e in es && e.collection == ref.collection && e.key == ref.key
      && (between.Some? ==> between.value.0 <= e.validFrom <= between.value.1)
  }

  /** rows are, in seq order, the versions of ref that are dated from between.0 to between.1, both included. */
  ghost predicate IsHistoryOf(rows: seq<ResultValue>, es: seq<Event>, ref: Ref, between: Option<(Instant, Instant)>) {
    exists kept: seq<Event> :: Increasing(kept) && IsDatedWithin(kept, es, ref, between) && |rows| == |kept|
      && forall i :: 0 <= i < |rows| ==>
           rows[i] == ResultValue(kept[i].collection, kept[i].key, kept[i].value, kept[i].validFrom, kept[i].txTime)
  }

  method ExecHistory(store: Store, ref: Ref, between: Option<(Instant, Instant)>)
    returns (r: Result<seq<ResultValue>>)
    requires ValidDatabase(store.Db())
    ensures r.Ok? <==> forall e :: e in store.events && RefOf(e) == ref ==> Readable(e)
    ensures r.Ok? ==> IsHistoryOf(r.value, store.events, ref, between)
  {
    SelectMembers(store.events, OfKey(ref));
    SelectIncreasing(store.events, OfKey(ref));
    var events := store.History(ref);
    if events.Err? {
      return Err;
    }
    var kept := KeepDated(events.value, between);
    assert IsDatedWithin(kept, store.events, ref, between);
    var rows := new ResultValue[|kept|](i requires 0 <= i < |kept| => ToResultValue(kept[i]));
    return Ok(rows[..]);
  }

  /** The events within the interval, if one is given. */
  method KeepDated(events: seq<Event>, between: Option<(Instant, Instant)>) returns (kept: seq<Event>)
    requires Increasing(events)
    ensures Increasing(kept)
    ensures forall e :: e in kept <==>
              e in events && (between.Some? ==> between.value.0 <= e.validFrom <= between.value.1)
  {
    if between.None? {
      return events;
    }
    var from, to := between.value.0, between.value.1;
    PickIncreasing(events, (e: Event) => from <= e.validFrom <= to);
    var a := new Event[|events|](i requires 0 <= i < |events| => events[i]);
    assert a[..] == events;
    var n := FilterInPlace(a, from, to);
    return a[..n];
  }

  // ---- PURGE ----

  /** DELETE FROM events WHERE collection = ? AND tx_time < ?, and the number of rows it deletes. */
  method DeleteEvents(store: Store, collection: string, cut: Cut) returns (purged: int)
    requires ValidDatabase(store.Db())
    modifies store`events
    ensures store.events == PurgedEvents(old(store.events), collection, cut) && ValidDatabase(store.Db())
    ensures forall e :: e in store.events <==> e in old(store.events) && !(e.collection == collection && cut(e.txTime))
    ensures purged == |old(store.events)| - |store.events| >= 0
  {
    var w := Unpurged(collection, cut);
    var kept := Select(store.events, w);
    SelectIncreasing(store.events, w);
    SelectMembers(store.events, w);
    SelectIsShorter(store.events, w);
    purged := |store.events| - |kept|;
    store.events := kept;
  }

  /** The table first, then the sink, if there is one. */
  method ExecPurge(store: Store, sink: FileSink?, collection: string, before: Instant) returns (purged: int)
    requires ValidDatabase(store.Db())
    modifies store`events, if sink == null then {} else {sink}
    ensures store.Db() == old(store.Db()).(events := PurgedEvents(old(store.events), collection, SqlBefore(before)))
    ensures ValidDatabase(store.Db())
    ensures forall e :: e in store.events <==>
              e in old(store.events)
              && !(e.collection == collection && Strings.Less(Instants.Stamp(e.txTime), Instants.Stamp(before)))
    ensures sink != null ==> forall e :: e in sink.stream <==> e in old(sink.stream) && before <= e.txTime
    ensures sink != null ==>
              sink.stream == Select(old(sink.stream), Since(before)) && sink.snapshots == old(sink.snapshots)
    ensures purged == |old(store.events)| - |store.events| >= 0
  {
    purged := DeleteEvents(store, collection, SqlBefore(before));
    if sink != null {
      sink.Purge(before);
    }
  }

  lemma {:induction false} SelectIsShorter(es: seq<Event>, w: Where)
    ensures |Select(es, w)| <= |es|
  {
    if es != [] {
      SelectIsShorter(es[..|es| - 1], w);
    }
  }

  /** What PURGE leaves of its collection, in the table and in the sink. */
  function TableKeeps(es: seq<Event>, collection: string, cut: Cut): seq<Event> {
    Select(PurgedEvents(es, collection, cut), OfCollection(collection))
  }

  function SinkKeeps(es: seq<Event>, collection: string, before: Instant): seq<Event> {
    Select(Select(es, Since(before)), OfCollection(collection))
  }

  lemma KeepsByCollection(es: seq<Event>, collection: string, cut: Cut, before: Instant)
    ensures TableKeeps(es, collection, cut) == Select(Select(es, OfCollection(collection)), Unpurged(collection, cut))
    ensures SinkKeeps(es, collection, before) == Select(Select(es, OfCollection(collection)), Since(before))
  {
    SelectsCommute(es, Unpurged(collection, cut), OfCollection(collection));
    SelectsCommute(es, Since(before), OfCollection(collection));
  }

  /** The table compares stored text and the sink compares instants. Over rows that can be read back and any cutoff a
      time literal can give, they drop the same events of the collection exactly when the cutoff's UTC year has four
      digits or no event of the collection is from after year 1000. */
  lemma PurgeCutsAgreeIff(es: seq<Event>, collection: string, before: Instant)
    requires Instants.Literal(before) && forall e :: e in es && e.collection == collection ==>
          Instants.Stampable(e.txTime)
    ensures TableKeeps(es, collection, SqlBefore(before)) == SinkKeeps(es, collection, before)
       <==> Instants.CivilOf(before).year <= 9999
            || forall e :: e in es && e.collection == collection ==> Instants.CivilOf(e.txTime).year <= 1000
  {
    var rows, w := Select(es, OfCollection(collection)), Unpurged(collection, SqlBefore(before));
    KeepsByCollection(es, collection, SqlBefore(before), before);
    SelectMembers(es, OfCollection(collection));
    SelectsAgreeIff(rows, w, Since(before));
    forall e | e in rows
      ensures (Holds(w, e) <==> Holds(Since(before), e))
         <==> Instants.CivilOf(before).year <= 9999 || Instants.CivilOf(e.txTime).year <= 1000
    {
      CutsAgreeOn(e, before);
    }
  }

  lemma CutsAgreeOn(e: Event, before: Instant)
    requires Instants.Literal(before) && Instants.Stampable(e.txTime)
    ensures (Holds(Unpurged(e.collection, SqlBefore(before)), e) <==> Holds(Since(before), e))
       <==> Instants.CivilOf(before).year <= 9999 || Instants.CivilOf(e.txTime).year <= 1000
  {
    Instants.StampOrderIff(e.txTime, before);
  }

  lemma SelectsAgreeIff(es: seq<Event>, a: Where, b: Where)
    ensures Select(es, a) == Select(es, b) <==> forall e :: e in es ==> (Holds(a, e) <==> Holds(b, e))
  {
    SelectMembers(es, a);
    SelectMembers(es, b);
    if forall e :: e in es ==> (Holds(a, e) <==> Holds(b, e)) {
      SelectSame(es, a, b);
    }
  }

  /** PURGE c BEFORE "9999-12-31T23:59:59-01:00" is a cutoff in UTC year 10000: the table keeps an event of 2025 and the
      sink drops it. */
  lemma PurgeCutsDiffer(e: Event, before: Instant, at: Instants.Civil, cutoff: Instants.Civil)
    requires at == Instants.Civil(2025, 1, 1, 0, 0, 0, 0) && cutoff == Instants.Civil(10000, 1, 1, 0, 59, 59, 0)
    requires e.txTime == Instants.Nanos(at) && before == Instants.Nanos(cutoff)
    ensures TableKeeps([e], e.collection, SqlBefore(before)) == [e] && SinkKeeps([e], e.collection, before) == []
  {
    LateCutoff(e.txTime, before, at, cutoff);
    KeptAndDropped([e], e.collection, SqlBefore(before), before);
  }

  lemma KeptAndDropped(es: seq<Event>, collection: string, cut: Cut, before: Instant)
    requires forall e :: e in es ==> e.collection == collection && !cut(e.txTime) && e.txTime < before
    ensures TableKeeps(es, collection, cut) == es && SinkKeeps(es, collection, before) == []
  {
    KeepsByCollection(es, collection, cut, before);
    SelectAll(es, OfCollection(collection));
    SelectAll(es, Unpurged(collection, cut));
    SelectNone(es, Since(before));
  }

  lemma LateCutoff(t: Instant, before: Instant, at: Instants.Civil, cutoff: Instants.Civil)
    requires Instants.Encodable(at) && 1000 < at.year && Instants.Valid(cutoff) && cutoff.year == 10000
    requires t == Instants.Nanos(at) && before == Instants.Nanos(cutoff)
    ensures !SqlBefore(before)(t) && t < before
  {
    Instants.CivilOfInvertsNanos(at);
    Instants.CivilOfInvertsNanos(cutoff);
    Instants.StampableYears(t);
    Instants.FiveDigitYearSorts(t, before);
  }

  // ---- FIND ----

  /** The result rows of FIND without ORDER BY or paging: the compiled WHERE over live. */
  ghost predicate Finds(rv: ResultValue, db: Database, collection: string, where: Expr, render: Render) {
    exists key :: FindsKey(rv, db, collection, key, where, render)
  }

  ghost predicate FindsKey(rv: ResultValue, db: Database, collection: string, key: string, where: Expr,
                           render: Render) {
    var ref := Ref(collection, key);
    ref in db.live && !db.live[ref].deleted && rv == ToResultValue(GetOf(db, ref).value)
    && SqlKeeps(rv.value, where, render)
  }

  ghost predicate SqlKeeps(value: Option<Json>, where: Expr, render: Render) {
    Join(where).Some? && EvalWhere(Join(where).value.0, Join(where).value.1, DocOf(value), render) == True
  }

  /** No value, like the value null, extracts as NULL on every path, as an empty document does. */
  function DocOf(value: Option<Json>): Json {
    if value.None? || value.value.Null? then Obj(map[]) else value.value
  }

  /** An asOf that is the zero time counts as unset. */
  method ExecFindAsOf(store: Store, collection: string, where: Option<Expr>, asOf: Instant,
                      field: string, desc: bool, limit: nat, offset: nat)
    returns (r: Result<seq<ResultValue>>)
    requires ValidDatabase(store.Db())
    ensures r.Ok? <==> AllReadable(Select(store.events, OfCollection(collection)))
    ensures r.Ok? ==>
              exists replay :: IsReplay(replay, store.Db(), collection, None, Instants.Given(asOf)) &&
                               r.value == SortedAndLimited(FilterRows(replay, where), field, desc, limit, offset)
  {
    var events := store.ReplayAsOf(collection, None, Instants.Given(asOf));
    if events.Err? {
      return Err;
    }
    var rows := MatchingRows(events.value, where);
    var a := new ResultValue[|rows|](i requires 0 <= i < |rows| => rows[i]);
    assert a[..] == rows;
    var from, to := SortAndLimit(a, field, desc, limit, offset);
    return Ok(a[from..to]);
  }

  /** The loop of execFindAsOf over the replayed events. */
  method MatchingRows(events: seq<Event>, where: Option<Expr>) returns (rows: seq<ResultValue>)
    ensures rows == FilterRows(events, where)
  {
    rows := [];
    for i := 0 to |events|
      invariant rows == FilterRows(events[..i], where)
    {
      assert events[..i + 1][..i] == events[..i];
      if where.Some? && !MatchExpr(events[i].value, where) {
        continue;
      }
      rows := rows + [ToResultValue(events[i])];
    }
    assert events[..|events|] == events;
  }

  function FilterRows(es: seq<Event>, where: Option<Expr>): seq<ResultValue> {
    if es == [] then [] else
      FilterRows(es[..|es| - 1], where)
      + if MatchExpr(es[|es| - 1].value, where) then [ToResultValue(es[|es| - 1])] else []
  }

  lemma {:induction false} FilterRowsMembers(es: seq<Event>, where: Option<Expr>)
    ensures forall rv :: rv in FilterRows(es, where) <==>
          exists e :: e in es && MatchExpr(e.value, where) && rv == ToResultValue(e)
  {
    if es != [] {
      FilterRowsMembers(es[..|es| - 1], where);
      assert es == es[..|es| - 1] + [es[|es| - 1]];
    }
  }

  /** Without WHERE, FIND ... AS OF returns every replayed event, */
  lemma {:induction false} NoWhereKeepsReplay(es: seq<Event>)
    ensures |FilterRows(es, None)| == |es|
    ensures forall i :: 0 <= i < |es| ==>
              FilterRows(es, None)[i]
              == ResultValue(es[i].collection, es[i].key, es[i].value, es[i].validFrom, es[i].txTime)
  {
    if es != [] {
      NoWhereKeepsReplay(es[..|es| - 1]);
    }
  }

  /** and FIND every undeleted live row of the collection. */
  lemma NoWhereKeepsLive(rv: ResultValue, db: Database, collection: string, render: Render)
    ensures Finds(rv, db, collection, [], render) <==>
            var ref := Ref(collection, rv.key);
            ref in db.live && !db.live[ref].deleted
            && rv == ResultValue(collection, rv.key, db.live[ref].value, db.live[ref].validFrom, db.live[ref].txTime)
  {
    EmptyWhereKeepsAll(DocOf(rv.value), render);
    var ref := Ref(collection, rv.key);
    if ref in db.live && !db.live[ref].deleted
       && rv == ResultValue(collection, rv.key, db.live[ref].value, db.live[ref].validFrom, db.live[ref].txTime) {
      assert FindsKey(rv, db, collection, rv.key, [], render);
    }
  }

  /** On an unpurged log whose keys have their newest version dated last, replay late enough, or at the zero time, is
      the live table. */
  ghost predicate IsLateReplay(replay: seq<Event>, log: seq<Event>, collection: string, asOf: Instant) {
    && Increasing(log)
    && (forall key :: NewestDatedLast(Select(log, OfKey(Ref(collection, key)))))
    && (asOf != Instants.ZERO ==> forall e :: e in log && e.collection == collection ==> e.validFrom <= asOf)
    && IsReplay(replay, DatabaseOf(log), collection, None, Instants.Given(asOf))
  }

  /** FIND and FIND ... AS OF return the same set of rows. */
  ghost predicate SameRows(log: seq<Event>, collection: string, where: Expr, replay: seq<Event>, render: Render) {
    forall rv :: Finds(rv, DatabaseOf(log), collection, where, render) <==> rv in FilterRows(replay, Some(where))
  }

  lemma FindsIt(log: seq<Event>, collection: string, where: Expr, asOf: Instant, replay: seq<Event>, render: Render,
        e: Event)
    requires IsLateReplay(replay, log, collection, asOf) && e in replay
    ensures Finds(ToResultValue(e), DatabaseOf(log), collection, where, render) <==> SqlKeeps(e.value, where, render)
  {
    ReplayIsLive(log, collection, Instants.Given(asOf), replay);
    if SqlKeeps(e.value, where, render) {
      assert FindsKey(ToResultValue(e), DatabaseOf(log), collection, e.key, where, render);
    }
    if key :| FindsKey(ToResultValue(e), DatabaseOf(log), collection, key, where, render) {
      assert key == e.key;
    }
  }

  lemma FiltersIt(log: seq<Event>, collection: string, where: Expr, asOf: Instant, replay: seq<Event>, e: Event)
    requires IsLateReplay(replay, log, collection, asOf) && e in replay
    ensures ToResultValue(e) in FilterRows(replay, Some(where)) <==> MatchExpr(e.value, Some(where))
  {
    FilterRowsMembers(replay, Some(where));
  }

  /** The rows are the same exactly when the two engines decide every current document alike. */
  lemma SameRowsIff(log: seq<Event>, collection: string, where: Expr, asOf: Instant, replay: seq<Event>, render: Render)
    requires IsLateReplay(replay, log, collection, asOf)
    ensures SameRows(log, collection, where, replay, render)
       <==> forall e :: e in replay ==> (SqlKeeps(e.value, where, render) <==> MatchExpr(e.value, Some(where)))
  {
    forall e | e in replay
      ensures Finds(ToResultValue(e), DatabaseOf(log), collection, where, render) <==> SqlKeeps(e.value, where, render)
      ensures (ToResultValue(e) in FilterRows(replay, Some(where)) <==> MatchExpr(e.value, Some(where)))
    {
      FindsIt(log, collection, where, asOf, replay, render, e);
      FiltersIt(log, collection, where, asOf, replay, e);
    }
    forall rv | Finds(rv, DatabaseOf(log), collection, where, render) || rv in FilterRows(replay, Some(where))
      ensures exists e :: e in replay && rv == ToResultValue(e)
    {
      ComesFromReplay(log, collection, where, asOf, replay, render, rv);
    }
  }

  lemma ComesFromReplay(log: seq<Event>, collection: string, where: Expr, asOf: Instant, replay: seq<Event>,
        render: Render, rv: ResultValue)
    requires IsLateReplay(replay, log, collection, asOf)
    requires Finds(rv, DatabaseOf(log), collection, where, render) || rv in FilterRows(replay, Some(where))
    ensures exists e :: e in replay && rv == ToResultValue(e)
  {
    ReplayIsLive(log, collection, Instants.Given(asOf), replay);
    FilterRowsMembers(replay, Some(where));
    if key :| FindsKey(rv, DatabaseOf(log), collection, key, where, render) {
      assert GetOf(DatabaseOf(log), Ref(collection, key)).value in replay;
    }
  }

  /** FIND and FIND ... AS OF any point late enough return the same rows: the live fast path with WHERE compiled to SQL
      against replay with WHERE evaluated in memory, if the current documents are objects, absent or null and the two
      engines decide each term of the WHERE alike on them. */
  lemma FindAgreesWithReplay(log: seq<Event>, collection: string, where: Expr, asOf: Instant, replay: seq<Event>,
        render: Render)
    requires IsLateReplay(replay, log, collection, asOf)
    requires forall t :: t in where ==> Bindable(t)
    requires forall e :: e in replay ==> DocOf(e.value).Obj? && forall t :: t in where ==>
          Agrees(DocOf(e.value), t, render)
    ensures SameRows(log, collection, where, replay, render)
  {
    forall e | e in replay ensures SqlKeeps(e.value, where, render) <==> MatchExpr(e.value, Some(where)) {
      TermsDecideRow(e.value, where, render);
    }
    SameRowsIff(log, collection, where, asOf, replay, render);
  }

  lemma TermsDecideRow(value: Option<Json>, where: Expr, render: Render)
    requires DocOf(value).Obj? && forall t :: t in where ==> Bindable(t) && Agrees(DocOf(value), t, render)
    ensures SqlKeeps(value, where, render) <==> MatchExpr(value, Some(where))
  {
    WhereAgrees(DocOf(value), where, render);
  }

  lemma OneTermInSql(value: Option<Json>, t: Cmp, render: Render)
    requires Bindable(t)
    ensures SqlKeeps(value, [t], render) <==> SqlKeepsTerm(DocOf(value), t, render)
  {
    BindableCompiles(t);
    var (c, args) := CompileTerm("$." + t.field, t.op, t.value).value;
    assert [t][..0] == [];
    assert Join([t]) == Some(([c], args)) by {
      assert [] + [c] == [c] && [] + args == args;
    }
    EvalLast([], [], c, args, DocOf(value), render);
    assert [] + [c] == [c] && [] + args == args;
  }

  lemma OneTermInMemory(value: Option<Json>, t: Cmp)
    requires DocOf(value).Obj?
    ensures MatchExpr(value, Some([t])) <==> MatchTerm(DocOf(value), t)
  {
    assert t in [t];
  }

  /** For a WHERE of one term that is if and only if: FIND and FIND ... AS OF return the same rows exactly when the term
      is decided alike on every current document. */
  lemma FindAgreesOnTermIff(log: seq<Event>, collection: string, t: Cmp, asOf: Instant, replay: seq<Event>,
        render: Render)
    requires IsLateReplay(replay, log, collection, asOf) && Bindable(t)
    requires forall e :: e in replay ==> DocOf(e.value).Obj?
    ensures SameRows(log, collection, [t], replay, render) <==>
          forall e :: e in replay ==> Agrees(DocOf(e.value), t, render)
  {
    forall e | e in replay
      ensures (SqlKeeps(e.value, [t], render) <==> MatchExpr(e.value, Some([t]))) <==> Agrees(DocOf(e.value), t, render)
    {
      OneTermInSql(e.value, t, render);
      OneTermInMemory(e.value, t);
      TermsAgreeIff(DocOf(e.value), t, render);
    }
    SameRowsIff(log, collection, [t], asOf, replay, render);
  }

  /** FIND c WHERE x != "y" skips a document without x, and FIND c AS OF now WHERE x != "y" returns it. */
  lemma FindDiffersOnAbsentField(e: Event, t: Cmp, replay: seq<Event>, render: Render)
    requires e == Event(1, "c", "k", Put, Some(Obj(map[])), 1, 1, Obj(map[])) && t == Cmp("x", Neq, StrValue("y"))
    requires IsReplay(replay, DatabaseOf([e]), "c", None, Instants.Given(2))
    ensures ToResultValue(e) in FilterRows(replay, Some([t]))
    ensures !Finds(ToResultValue(e), DatabaseOf([e]), "c", [t], render)
  {
    OneEvent(e, [e], replay, 2);
    AbsentField(e.value, t, render);
    FindsIt([e], e.collection, [t], 2, replay, render, e);
    FiltersIt([e], e.collection, [t], 2, replay, e);
  }

  lemma OneEvent(e: Event, log: seq<Event>, replay: seq<Event>, asOf: Instant)
    requires |log| == 1 && log[0] == e && e.validFrom <= asOf && e.op.Put?
    requires IsReplay(replay, DatabaseOf(log), e.collection, None, Instants.Given(asOf))
    ensures IsLateReplay(replay, log, e.collection, asOf) && e in replay
  {
    forall key ensures NewestDatedLast(Select(log, OfKey(Ref(e.collection, key)))) {
      OneIsDatedLast(log, e, OfKey(Ref(e.collection, key)));
    }
    OneIsVisible(e, DatabaseOf(log), RefOf(e), Instants.Given(asOf));
  }

  lemma OneIsVisible(e: Event, db: Database, ref: Ref, validAt: Option<Instant>)
    requires |db.events| == 1 && db.events[0] == e && RefOf(e) == ref && e.op.Put? && Eligible(e, None, validAt)
    ensures AsOfIn(db, ref, None, validAt) == Some(e)
  {
    assert db.events == [e];
    FirstVersion(e, db, ref, validAt);
  }

  lemma OneIsDatedLast(log: seq<Event>, e: Event, w: Where)
    requires forall x :: x in log ==> x == e
    ensures NewestDatedLast(Select(log, w))
  {
    var h := Select(log, w);
    SelectMembers(log, w);
    assert h != [] ==> h[|h| - 1] in h;
  }

  lemma AbsentField(value: Option<Json>, t: Cmp, render: Render)
    requires value == Some(Obj(map[])) && t == Cmp("x", Neq, StrValue("y"))
    ensures MatchExpr(value, Some([t])) && !SqlKeeps(value, [t], render)
  {
    OneTermInSql(value, t, render);
    PathKeepsField(DocOf(value), t.field);
    assert Lookup(Obj(map[]), Strings.Split(t.field, '.')).None?;
  }
}
