/** FIND ... ORDER BY: the order SQLite gives the rows of live against sortAndLimit over the replayed ones. */
module FindOrder {
  import opened Wrappers
  import opened Json
  import opened Ast
  import opened Sorting
  import opened Paging
  import opened Temporal
  import opened EventStore
  import opened TimeTravel
  import opened Match
  import opened Compile
  import opened Executor
  import Instants
  import Strings

  /** json_extract(value, '$.<field>'). */
  function SortKey(r: ResultValue, field: string, render: Render): Sql {
    JsonExtract(DocOf(r.value), TextArg("$." + field), render)
  }

  /** SQLite's order of values: NULL first, then numbers, then texts. */
  predicate KeyLess(a: Sql, b: Sql) { (a.SqlNull? && !b.SqlNull?) || SqlLess(a, b) }

  function SqlOrder(field: string, desc: bool, render: Render): Order {
    (a: ResultValue, b: ResultValue) =>
      if desc then KeyLess(SortKey(b, field, render), SortKey(a, field, render))
      else KeyLess(SortKey(a, field, render), SortKey(b, field, render))
  }

  /** The rows of FIND before LIMIT and OFFSET; rows that tie, and all rows without ORDER BY, come in any order. */
  ghost predicate IsFound(found: seq<ResultValue>, db: Database, collection: string, where: Expr, field: string,
                          desc: bool, render: Render) {
    && Distinct(found) && (field != "" ==> Sorted(found, SqlOrder(field, desc, render)))
    && forall rv :: rv in found <==> Finds(rv, db, collection, where, render)
  }

  predicate RowsAreReadable(rows: seq<ResultValue>) {
    forall r :: r in rows ==> ReadableTimes(r.validFrom, r.txTime)
  }

  /** What FIND returns: it parses the times of the rows on its page. */
  ghost predicate FindReturns(r: Result<seq<ResultValue>>, db: Database, collection: string, where: Expr, field: string,
                              desc: bool, limit: nat, offset: nat, render: Render) {
    exists found :: IsFound(found, db, collection, where, field, desc, render)
                    && r == PageOf(found, limit, offset)
  }

  function PageOf(found: seq<ResultValue>, limit: nat, offset: nat): Result<seq<ResultValue>> {
    if RowsAreReadable(Window(found, offset, limit)) then Ok(Window(found, offset, limit)) else Err
  }

  /** An unpaged FIND fails exactly if it finds a row that cannot be read back. */
  lemma FindFailsIff(r: Result<seq<ResultValue>>, db: Database, collection: string, where: Expr, field: string,
                     desc: bool, render: Render)
    requires FindReturns(r, db, collection, where, field, desc, 0, 0, render)
    ensures r.Err? <==> exists rv :: Finds(rv, db, collection, where, render) && !ReadableTimes(rv.validFrom, rv.txTime)
  {
    var found :| IsFound(found, db, collection, where, field, desc, render) && r == PageOf(found, 0, 0);
    assert Window(found, 0, 0) == found;
  }

  /** No two rows hold the same value in the field, or both none. */
  ghost predicate KeysAreDistinct(rows: seq<ResultValue>, field: string) {
    forall a, b :: a in rows && b in rows && ExtractField(a.value, field) == ExtractField(b.value, field) ==> a == b
  }

  lemma SortKeyIs(r: ResultValue, field: string, render: Render)
    ensures SortKey(r, field, render)
         == var f := ExtractField(r.value, field); if f.None? then SqlNull else ToSql(f.value, render)
  {
    PathKeepsField(DocOf(r.value), field);
    var parts := Strings.Split(field, '.');
    assert Lookup(DocOf(r.value), parts) == ExtractField(r.value, field) by {
      assert parts != [] && Lookup(Obj(map[]), parts) == None;
    }
  }

  lemma KeysAreOrdered(a: Sql, b: Sql, c: Sql)
    ensures KeyLess(a, b) ==> !KeyLess(b, a)
    ensures KeyLess(a, c) ==> KeyLess(a, b) || KeyLess(b, c)
  {
    if a.SqlText? && b.SqlText? && Strings.Less(a.s, b.s) { Strings.LessIsAsymmetric(a.s, b.s); }
    if a.SqlText? && b.SqlText? && c.SqlText? && Strings.Less(a.s, c.s) {
      Strings.LessIsTotal(a.s, b.s);
      if Strings.Less(b.s, a.s) { Strings.LessIsTransitive(b.s, a.s, c.s); }
    }
  }

  lemma SqlOrderIsStrictWeak(field: string, desc: bool, render: Render)
    ensures StrictWeakOrder(SqlOrder(field, desc, render))
  {
    forall a: ResultValue, b: ResultValue, c: ResultValue
      ensures var less := SqlOrder(field, desc, render);
              (less(a, b) ==> !less(b, a)) && (less(a, c) ==> less(a, b) || less(b, c))
    {
      var x, y, z := SortKey(a, field, render), SortKey(b, field, render), SortKey(c, field, render);
      KeysAreOrdered(x, y, z);
      KeysAreOrdered(z, y, x);
      KeysAreOrdered(y, x, z);
    }
  }

  /** Where the field holds a number, or a string, in both rows, SQL and lessField order them alike; SQL puts a row
      without the field before one with it, lessField after. */
  lemma OrdersCompare(a: ResultValue, b: ResultValue, rows: seq<ResultValue>, field: string, desc: bool, render: Render)
    requires AllNumbers(rows, field) || AllStrings(rows, field)
    requires a in rows && b in rows && Has(b, field)
    ensures Has(a, field) ==> (SqlOrder(field, desc, render)(a, b) <==> OrderBy(field, desc)(a, b))
    ensures !Has(a, field) ==> (SqlOrder(field, desc, render)(a, b) <==> !desc)
    ensures !Has(a, field) ==> (SqlOrder(field, desc, render)(b, a) <==> desc)
  {
    SortKeyIs(a, field, render);
    SortKeyIs(b, field, render);
  }

  /** Different values of the field are never tied. */
  lemma SqlOrderIsTotal(a: ResultValue, b: ResultValue, rows: seq<ResultValue>, field: string, desc: bool,
                        render: Render)
    requires (AllNumbers(rows, field) || AllStrings(rows, field)) && a in rows && b in rows
    requires !SqlOrder(field, desc, render)(a, b) && !SqlOrder(field, desc, render)(b, a)
    ensures ExtractField(a.value, field) == ExtractField(b.value, field)
  {
    SortKeyIs(a, field, render);
    SortKeyIs(b, field, render);
    var f, g := ExtractField(a.value, field), ExtractField(b.value, field);
    if f.Some? && g.Some? && f.value.Str? { Strings.LessIsTotal(f.value.s, g.value.s); }
  }

  lemma TiedKeys(a: ResultValue, b: ResultValue, field: string, desc: bool, render: Render)
    requires ExtractField(a.value, field) == ExtractField(b.value, field)
    ensures !SqlOrder(field, desc, render)(a, b)
  {
    SortKeyIs(a, field, render);
    SortKeyIs(b, field, render);
    var k := SortKey(a, field, render);
    KeysAreOrdered(k, k, k);
  }

  /** Sorted rows with distinct keys are strictly sorted. */
  lemma DistinctKeysSortStrictly(found: seq<ResultValue>, rows: seq<ResultValue>, field: string, desc: bool,
                                 render: Render)
    requires AllNumbers(rows, field) || AllStrings(rows, field)
    requires KeysAreDistinct(rows, field) && Distinct(found) && forall r :: r in found ==> r in rows
    requires Sorted(found, SqlOrder(field, desc, render))
    ensures StrictlySorted(found, SqlOrder(field, desc, render))
  {
    var less := SqlOrder(field, desc, render);
    forall i, j | 0 <= i < j < |found| ensures less(found[i], found[j]) {
      assert found[i] in found && found[j] in found && found[i] != found[j] && !less(found[j], found[i]);
      if !less(found[i], found[j]) { SqlOrderIsTotal(found[i], found[j], rows, field, desc, render); }
    }
  }

  /** The in-memory sort is a list FIND may return, if every row has the field. */
  lemma SortIsFound(rows: seq<ResultValue>, field: string, desc: bool, render: Render)
    requires (AllNumbers(rows, field) || AllStrings(rows, field)) && forall r :: r in rows ==> Has(r, field)
    ensures Sorted(StableSort(rows, OrderBy(field, desc)), SqlOrder(field, desc, render))
  {
    var out, less := StableSort(rows, OrderBy(field, desc)), SqlOrder(field, desc, render);
    OrderIsStrictWeak(rows, field, desc);
    SortOrdersOn(rows, OrderBy(field, desc));
    SortKeepsMembers(rows, OrderBy(field, desc));
    forall i, j | 0 <= i < j < |out| ensures !less(out[j], out[i]) {
      assert out[i] in out && out[j] in out;
      OrdersCompare(out[j], out[i], rows, field, desc, render);
    }
  }

  // ---- when the two orders agree ----

  /** found holds the given rows in an order SQLite may give them. */
  ghost predicate FoundFrom(found: seq<ResultValue>, rows: seq<ResultValue>, field: string, desc: bool,
                            render: Render) {
    Distinct(found) && Sorted(found, SqlOrder(field, desc, render)) && SameMembers(found, rows)
  }

  /** Any such list is the one sortAndLimit makes. */
  ghost predicate OrderIsPinned(rows: seq<ResultValue>, field: string, desc: bool, render: Render) {
    forall found :: FoundFrom(found, rows, field, desc, render) ==> found == StableSort(rows, OrderBy(field, desc))
  }

  ghost predicate AllHave(rows: seq<ResultValue>, field: string) { forall r :: r in rows ==> Has(r, field) }

  lemma SqlSortIsFound(rows: seq<ResultValue>, field: string, desc: bool, render: Render)
    requires Distinct(rows)
    ensures FoundFrom(StableSort(rows, SqlOrder(field, desc, render)), rows, field, desc, render)
  {
    var less := SqlOrder(field, desc, render);
    SqlOrderIsStrictWeak(field, desc, render);
    SortOrders(rows, less);
    SortKeepsMembers(rows, less);
    SortKeepsDistinct(rows, less);
  }

  lemma DistinctKeysPin(rows: seq<ResultValue>, field: string, desc: bool, render: Render)
    requires Distinct(rows) && (AllNumbers(rows, field) || AllStrings(rows, field))
    requires KeysAreDistinct(rows, field) && AllHave(rows, field)
    ensures OrderIsPinned(rows, field, desc, render)
  {
    var out, less := StableSort(rows, OrderBy(field, desc)), SqlOrder(field, desc, render);
    SortIsFound(rows, field, desc, render);
    SortKeepsMembers(rows, OrderBy(field, desc));
    SortKeepsDistinct(rows, OrderBy(field, desc));
    DistinctKeysSortStrictly(out, rows, field, desc, render);
    SqlOrderIsStrictWeak(field, desc, render);
    forall found | FoundFrom(found, rows, field, desc, render) ensures found == out {
      DistinctKeysSortStrictly(found, rows, field, desc, render);
      StrictlySortedIsUnique(found, out, less);
    }
  }

  lemma OneRowIsPinned(rows: seq<ResultValue>, field: string, desc: bool, render: Render)
    requires |rows| <= 1
    ensures OrderIsPinned(rows, field, desc, render)
  {
    var out := StableSort(rows, OrderBy(field, desc));
    SortKeepsMembers(rows, OrderBy(field, desc));
    SortKeepsElements(rows, OrderBy(field, desc));
    assert |multiset(out)| == |out| && |multiset(rows)| == |rows|;
    forall found | FoundFrom(found, rows, field, desc, render) ensures found == out {
      OfOneMember(found, out);
    }
  }

  lemma OfOneMember(a: seq<ResultValue>, b: seq<ResultValue>)
    requires Distinct(a) && SameMembers(a, b) && |b| <= 1
    ensures a == b
  {
    HasMembers(a);
    HasMembers(b);
    if a != [] {
      assert a[0] in a && a[0] in b;
      assert b == [a[0]];
      assert a[|a| - 1] in a && a[|a| - 1] in b;
      assert |a| == 1;
    }
  }

  /** Two rows that tie may come in either order. */
  lemma TiesDoNotPin(rows: seq<ResultValue>, field: string, desc: bool, render: Render, p: ResultValue, q: ResultValue)
    requires Distinct(rows) && p in rows && q in rows && p != q
    requires ExtractField(p.value, field) == ExtractField(q.value, field)
    ensures !OrderIsPinned(rows, field, desc, render)
  {
    var less := SqlOrder(field, desc, render);
    var base := StableSort(rows, less);
    SqlSortIsFound(rows, field, desc, render);
    assert p in base && q in base;
    var i :| 0 <= i < |base| && base[i] == p;
    var j :| 0 <= j < |base| && base[j] == q;
    if i < j {
      SwappedIsFound(base, i, j, rows, field, desc, render);
    } else {
      SwappedIsFound(base, j, i, rows, field, desc, render);
    }
  }

  lemma SwappedIsFound(base: seq<ResultValue>, i: nat, j: nat, rows: seq<ResultValue>, field: string, desc: bool,
                       render: Render)
    requires FoundFrom(base, rows, field, desc, render) && i < j < |base|
    requires ExtractField(base[i].value, field) == ExtractField(base[j].value, field)
    ensures exists other :: other != base && FoundFrom(other, rows, field, desc, render)
  {
    var other := base[i := base[j]][j := base[i]];
    TiedKeys(base[i], base[j], field, desc, render);
    SqlOrderIsStrictWeak(field, desc, render);
    TiesMaySwap(base, i, j, SqlOrder(field, desc, render));
    SwapKeepsMembers(base, i, j);
    assert other[i] != base[i];
    assert FoundFrom(other, rows, field, desc, render);
  }

  lemma SwapKeepsMembers<T(!new)>(s: seq<T>, i: nat, j: nat)
    requires i < j < |s| && Distinct(s)
    ensures var r := s[i := s[j]][j := s[i]]; Distinct(r) && SameMembers(r, s)
  {
    var r := s[i := s[j]][j := s[i]];
    forall x ensures x in r <==> x in s {
      if x in s {
        var k :| 0 <= k < |s| && s[k] == x;
        assert r[if k == i then j else if k == j then i else k] == x;
      }
    }
  }

  /** A row without the field comes at the other end. */
  lemma AbsentDoesNotPin(rows: seq<ResultValue>, field: string, desc: bool, render: Render, p: ResultValue,
                         q: ResultValue)
    requires Distinct(rows) && (AllNumbers(rows, field) || AllStrings(rows, field))
    requires p in rows && q in rows && !Has(p, field) && Has(q, field)
    ensures !OrderIsPinned(rows, field, desc, render)
  {
    var base, out := StableSort(rows, SqlOrder(field, desc, render)), StableSort(rows, OrderBy(field, desc));
    SqlSortIsFound(rows, field, desc, render);
    SortedRows(rows, field, desc);
    SortKeepsMembers(rows, OrderBy(field, desc));
    AbsentAtOtherEnd(out, rows, field, desc, render, p, q);
  }

  lemma AbsentAtOtherEnd(out: seq<ResultValue>, rows: seq<ResultValue>, field: string, desc: bool, render: Render,
                         p: ResultValue, q: ResultValue)
    requires AllNumbers(rows, field) || AllStrings(rows, field)
    requires p in rows && q in rows && p in out && q in out && !Has(p, field) && Has(q, field)
    requires forall i, j :: 0 <= i < j < |out| && !Has(out[i], field) && Has(out[j], field) ==> desc
    requires forall i, j :: 0 <= i < j < |out| && Has(out[i], field) && !Has(out[j], field) ==> !desc
    ensures !Sorted(out, SqlOrder(field, desc, render))
  {
    var less := SqlOrder(field, desc, render);
    OrdersCompare(p, q, rows, field, desc, render);
    var i :| 0 <= i < |out| && out[i] == p;
    var j :| 0 <= j < |out| && out[j] == q;
    if i < j {
      assert less(out[j], out[i]);
    } else {
      assert less(out[i], out[j]);
    }
  }

  /** SQLite leaves no choice, and its choice is that of sortAndLimit, exactly when there is at most one row, or every
      row has the field and no two the same value. */
  lemma OrderIsPinnedIff(rows: seq<ResultValue>, field: string, desc: bool, render: Render)
    requires Distinct(rows) && (AllNumbers(rows, field) || AllStrings(rows, field))
    ensures OrderIsPinned(rows, field, desc, render)
       <==> |rows| <= 1 || (KeysAreDistinct(rows, field) && AllHave(rows, field))
  {
    if |rows| <= 1 {
      OneRowIsPinned(rows, field, desc, render);
    } else if KeysAreDistinct(rows, field) && AllHave(rows, field) {
      DistinctKeysPin(rows, field, desc, render);
    } else if !KeysAreDistinct(rows, field) {
      var p, q :| p in rows && q in rows && ExtractField(p.value, field) == ExtractField(q.value, field) && p != q;
      TiesDoNotPin(rows, field, desc, render, p, q);
    } else {
      var p :| p in rows && !Has(p, field);
      var q := if rows[0] == p then rows[1] else rows[0];
      assert rows[0] in rows && rows[1] in rows && rows[0] != rows[1];
      AbsentDoesNotPin(rows, field, desc, render, p, q);
    }
  }

  // ---- FIND against FIND ... AS OF ----

  lemma {:induction false} FilterRowsAreDistinct(es: seq<Event>, where: Option<Expr>)
    requires forall i, j :: 0 <= i < j < |es| ==> Strings.Less(es[i].key, es[j].key)
    ensures Distinct(FilterRows(es, where))
  {
    if es != [] {
      var init, last := es[..|es| - 1], es[|es| - 1];
      FilterRowsAreDistinct(init, where);
      FilterRowsMembers(init, where);
      var rest := FilterRows(init, where);
      forall i | 0 <= i < |rest| ensures rest[i] != ToResultValue(last) {
        assert rest[i] in rest;
        var e :| e in init && rest[i] == ToResultValue(e);
        var k :| 0 <= k < |init| && init[k] == e;
        assert es[k] == e;
        AnotherKey(e, last);
      }
    }
  }

  lemma AnotherKey(e: Event, last: Event)
    requires Strings.Less(e.key, last.key)
    ensures ToResultValue(e) != ToResultValue(last)
  {
    Strings.LessIsAsymmetric(e.key, last.key);
  }

  /** The rows of a late replay can be read back. */
  lemma ReplayedRowsAreReadable(log: seq<Event>, collection: string, asOf: Instant, replay: seq<Event>,
                                where: Option<Expr>)
    requires IsLateReplay(replay, log, collection, asOf)
    ensures RowsAreReadable(FilterRows(replay, where))
  {
    ReplayIsLive(log, collection, Instants.Given(asOf), replay);
    FilterRowsMembers(replay, where);
    forall r | r in FilterRows(replay, where) ensures ReadableTimes(r.validFrom, r.txTime) {
      var e :| e in replay && r == ToResultValue(e);
      assert GetResult(DatabaseOf(log), RefOf(e)) == Ok(Some(e));
    }
  }

  lemma WindowMembers<T>(s: seq<T>, offset: nat, limit: nat)
    ensures forall x :: x in Window(s, offset, limit) ==> x in s
  {
  }

  /** Every page FIND ... ORDER BY returns is the page FIND ... AS OF returns. */
  ghost predicate SamePages(log: seq<Event>, collection: string, where: Expr, replay: seq<Event>, field: string,
                            desc: bool, render: Render) {
    forall limit: nat, offset: nat, r ::
      FindReturns(r, DatabaseOf(log), collection, where, field, desc, limit, offset, render) ==>
        r == Ok(SortedAndLimited(FilterRows(replay, Some(where)), field, desc, limit, offset))
  }

  /** Where FIND and FIND ... AS OF return the same set of rows, and the field holds only numbers or only strings, they
      return the same pages in the same order, whatever SQLite does with ties, exactly when there is at most one row, or
      every row has the field and no two the same value. */
  lemma SamePagesIff(log: seq<Event>, collection: string, where: Expr, asOf: Instant, replay: seq<Event>, field: string,
                     desc: bool, render: Render)
    requires IsLateReplay(replay, log, collection, asOf) && SameRows(log, collection, where, replay, render)
    requires field != "" && "" !in Strings.Split(field, '.')
    requires var rows := FilterRows(replay, Some(where)); AllNumbers(rows, field) || AllStrings(rows, field)
    ensures var rows := FilterRows(replay, Some(where));
            SamePages(log, collection, where, replay, field, desc, render)
            <==> |rows| <= 1 || (KeysAreDistinct(rows, field) && AllHave(rows, field))
  {
    var rows, db := FilterRows(replay, Some(where)), DatabaseOf(log);
    FilterRowsAreDistinct(replay, Some(where));
    ReplayedRowsAreReadable(log, collection, asOf, replay, Some(where));
    OrderIsPinnedIff(rows, field, desc, render);
    forall found
      ensures IsFound(found, db, collection, where, field, desc, render)
         <==> FoundFrom(found, rows, field, desc, render)
    {
    }
    if OrderIsPinned(rows, field, desc, render) {
      PinnedPages(log, collection, where, replay, field, desc, render);
    }
    if SamePages(log, collection, where, replay, field, desc, render) {
      forall found | FoundFrom(found, rows, field, desc, render)
        ensures found == StableSort(rows, OrderBy(field, desc))
      {
        WholePage(found, rows, field, desc);
        assert FindReturns(PageOf(found, 0, 0), db, collection, where, field, desc, 0, 0, render);
      }
    }
  }

  lemma PinnedPages(log: seq<Event>, collection: string, where: Expr, replay: seq<Event>, field: string, desc: bool,
                    render: Render)
    requires SameRows(log, collection, where, replay, render) && field != ""
    requires var rows := FilterRows(replay, Some(where));
             OrderIsPinned(rows, field, desc, render) && RowsAreReadable(rows)
    ensures SamePages(log, collection, where, replay, field, desc, render)
  {
    var rows, db := FilterRows(replay, Some(where)), DatabaseOf(log);
    forall limit: nat, offset: nat, r | FindReturns(r, db, collection, where, field, desc, limit, offset, render)
      ensures r == Ok(SortedAndLimited(rows, field, desc, limit, offset))
    {
      var found :| IsFound(found, db, collection, where, field, desc, render) && r == PageOf(found, limit, offset);
      assert FoundFrom(found, rows, field, desc, render);
      WindowMembers(found, offset, limit);
    }
  }

  lemma WholePage(found: seq<ResultValue>, rows: seq<ResultValue>, field: string, desc: bool)
    requires SameMembers(found, rows) && RowsAreReadable(rows) && field != ""
    ensures PageOf(found, 0, 0) == Ok(found)
    ensures SortedAndLimited(rows, field, desc, 0, 0) == StableSort(rows, OrderBy(field, desc))
  {
    assert Window(found, 0, 0) == found;
    var out := StableSort(rows, OrderBy(field, desc));
    assert Window(out, 0, 0) == out;
  }
}
