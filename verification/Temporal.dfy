/** internal/temporal/temporal.go: versioned records and the one visibility rule. */
module Temporal {
  import opened Wrappers
  import opened Json
  import opened Sorting

  /** Nanoseconds on the time line. An unset (zero) time.Time argument is None. */
  type Instant = int

  datatype Op = Put | Delete

  datatype Event = Event(
    seqNo: int, collection: string, key: string, op: Op, value: Option<Json>,
    validFrom: Instant, txTime: Instant, meta: Json)

  // ---- eligibility and rank ----

  predicate Known(e: Event, asOf: Option<Instant>) {
    asOf.None? || e.txTime <= asOf.value
  }

  predicate Started(e: Event, validAt: Option<Instant>) {
    validAt.None? || e.validFrom <= validAt.value
  }

  function ValidPoint(asOf: Option<Instant>, validAt: Option<Instant>): Option<Instant> {
    if validAt.None? then asOf else validAt
  }

  predicate Eligible(e: Event, asOf: Option<Instant>, validAt: Option<Instant>) {
    Known(e, asOf) && Started(e, ValidPoint(asOf, validAt))
  }

  /** The sort comparator of Visible. */
  predicate Before(a: Event, b: Event) {
    a.validFrom < b.validFrom || (a.validFrom == b.validFrom && a.seqNo < b.seqNo)
  }

  ghost predicate DistinctSeqs(es: seq<Event>) {
    forall i, j :: 0 <= i < j < |es| ==> es[i].seqNo != es[j].seqNo
  }

  /** An event counts if it was committed by asOf and has started at validAt, or at asOf if there is no validAt. */
  lemma EligibleIff(e: Event, asOf: Option<Instant>, validAt: Option<Instant>)
    ensures Eligible(e, asOf, validAt) <==>
            && (asOf.Some? ==> e.txTime <= asOf.value)
            && (validAt.Some? ==> e.validFrom <= validAt.value)
            && (asOf.Some? && validAt.None? ==> e.validFrom <= asOf.value)
  {
  }

  /** e is, of the events of es that count, the one with the latest ValidFrom, and then the highest Seq. */
  ghost predicate IsVisible(e: Event, es: seq<Event>, asOf: Option<Instant>, validAt: Option<Instant>) {
    && e in es && Eligible(e, asOf, validAt)
    && forall x :: x in es && Eligible(x, asOf, validAt) ==>
         x.validFrom < e.validFrom || (x.validFrom == e.validFrom && x.seqNo <= e.seqNo)
  }

  /** The visible version, one event at a time. */
  function VisibleOf(es: seq<Event>, asOf: Option<Instant>, validAt: Option<Instant>): Option<Event> {
    if es == [] then None else
      var e, rest := es[|es| - 1], VisibleOf(es[..|es| - 1], asOf, validAt);
      if Eligible(e, asOf, validAt) && (rest.None? || !Before(e, rest.value)) then Some(e) else rest
  }

  lemma {:induction false} VisibleIsTheMaximum(es: seq<Event>, asOf: Option<Instant>, validAt: Option<Instant>)
    ensures match VisibleOf(es, asOf, validAt)
            case None => forall x :: x in es ==> !Eligible(x, asOf, validAt)
            case Some(e) => IsVisible(e, es, asOf, validAt)
  {
    if es != [] {
      VisibleIsTheMaximum(es[..|es| - 1], asOf, validAt);
      assert forall x :: x in es ==> x in es[..|es| - 1] || x == es[|es| - 1];
      assert es[|es| - 1] in es;
    }
  }

  /** With distinct seqs no two events tie, so the visible event is unique. */
  lemma VisibleIsUnique(es: seq<Event>, e: Event, asOf: Option<Instant>, validAt: Option<Instant>)
    requires DistinctSeqs(es)
    ensures IsVisible(e, es, asOf, validAt) <==> VisibleOf(es, asOf, validAt) == Some(e)
  {
    VisibleIsTheMaximum(es, asOf, validAt);
  }

  lemma BeforeIsStrictWeak()
    ensures StrictWeakOrder(Before)
  {
  }

  /** The scan over sorted candidates, cut at the first one that starts after point. */
  method LastStarted(candidates: array<Event>, point: Option<Instant>) returns (r: Option<Event>)
    requires Sorted(candidates[..], Before)
    ensures r.None? ==> forall x :: x in candidates[..] ==> point.Some? && point.value < x.validFrom
    ensures r.Some? ==> r.value in candidates[..] && (point.Some? ==> r.value.validFrom <= point.value)
    ensures r.Some? ==> forall x :: x in candidates[..] && (point.Some? ==> x.validFrom <= point.value) ==>
                          x.validFrom < r.value.validFrom
                          || (x.validFrom == r.value.validFrom && x.seqNo <= r.value.seqNo)
  {
    ghost var sorted := candidates[..];
    r := None;
    var i := 0;
    while i < candidates.Length
      invariant 0 <= i <= candidates.Length
      invariant if i == 0 then r == None else r == Some(sorted[i - 1])
      invariant 0 < i ==> Started(sorted[i - 1], point)
    {
      if point.Some? && candidates[i].validFrom > point.value {
        break;
      }
      r := Some(candidates[i]);
      i := i + 1;
    }
    forall k | i <= k < |sorted| ensures !Started(sorted[k], point) {
      assert i < k ==> !Before(sorted[k], sorted[i]);
    }
  }

  /** The filtering loop: the events committed by asOf. */
  method KnownBy(events: seq<Event>, asOf: Option<Instant>) returns (candidates: seq<Event>)
    ensures forall x :: x in candidates <==> x in events && (asOf.Some? ==> x.txTime <= asOf.value)
  {
    candidates := [];
    for i := 0 to |events|
      invariant forall x :: x in candidates <==> x in events[..i] && Known(x, asOf)
    {
      if asOf.Some? && events[i].txTime > asOf.value {
        continue;
      }
      candidates := candidates + [events[i]];
    }
    assert events[..|events|] == events;
  }

  method Visible(events: seq<Event>, asOf: Option<Instant>, validAt: Option<Instant>) returns (r: Option<Event>)
    ensures r.None? ==> forall x :: x in events ==> !Eligible(x, asOf, validAt)
    ensures r.Some? ==> IsVisible(r.value, events, asOf, validAt)
    ensures DistinctSeqs(events) ==> r == VisibleOf(events, asOf, validAt)
  {
    var point := if validAt.None? then asOf else validAt;
    var known := KnownBy(events, asOf);
    if |known| == 0 {
      VisibleIsTheMaximum(events, asOf, validAt);
      return None;
    }
    var candidates := new Event[|known|](i requires 0 <= i < |known| => known[i]);
    assert candidates[..] == known;
    SortSlice(candidates, Before);
    SortedByRank(known);
    r := LastStarted(candidates, point);
    if r.Some? {
      VisibleIsUnique'(events, r.value, asOf, validAt);
    }
    VisibleIsTheMaximum(events, asOf, validAt);
  }

  lemma SortedByRank(es: seq<Event>)
    ensures Sorted(StableSort(es, Before), Before)
    ensures forall x :: x in StableSort(es, Before) <==> x in es
  {
    assert StrictWeakOrder(Before) by { BeforeIsStrictWeak(); }
    assert Sorted(StableSort(es, Before), Before) by { SortOrders(es, Before); }
    SortKeepsMembers(es, Before);
  }

  lemma VisibleIsUnique'(es: seq<Event>, e: Event, asOf: Option<Instant>, validAt: Option<Instant>)
    requires IsVisible(e, es, asOf, validAt)
    ensures DistinctSeqs(es) ==> VisibleOf(es, asOf, validAt) == Some(e)
  {
    if DistinctSeqs(es) {
      VisibleIsUnique(es, e, asOf, validAt);
    }
  }

  // ---- what the rule promises ----

  ghost predicate Increasing(es: seq<Event>) {
    forall i, j :: 0 <= i < j < |es| ==> es[i].seqNo < es[j].seqNo
  }

  /** v lies in e's half-open interval [ValidFrom, next ValidFrom), and no later write corrects e at its own instant. */
  ghost predicate InInterval(e: Event, es: seq<Event>, asOf: Option<Instant>, v: Instant) {
    && e in es && Known(e, asOf) && e.validFrom <= v
    && (forall x :: x in es && Known(x, asOf) && e.validFrom < x.validFrom ==> v < x.validFrom)
    && (forall x :: x in es && Known(x, asOf) && e.validFrom == x.validFrom ==> x.seqNo <= e.seqNo)
  }

  lemma {:induction false} IntervalsPartitionTime(es: seq<Event>, asOf: Option<Instant>, v: Instant)
    requires DistinctSeqs(es)
    ensures forall e :: InInterval(e, es, asOf, v) <==> VisibleOf(es, asOf, Some(v)) == Some(e)
    ensures VisibleOf(es, asOf, Some(v)).None? <==> forall x :: x in es && Known(x, asOf) ==> v < x.validFrom
  {
    VisibleIsTheMaximum(es, asOf, Some(v));
    forall e ensures InInterval(e, es, asOf, v) <==> VisibleOf(es, asOf, Some(v)) == Some(e) {
      VisibleIsUnique(es, e, asOf, Some(v));
      if IsVisible(e, es, asOf, Some(v)) {
        forall x | x in es && Known(x, asOf) && e.validFrom < x.validFrom ensures v < x.validFrom {
          assert Eligible(x, asOf, Some(v)) ==> !Before(e, x);
        }
        forall x | x in es && Known(x, asOf) && e.validFrom == x.validFrom ensures x.seqNo <= e.seqNo {
          assert Eligible(x, asOf, Some(v)) && !Before(e, x);
        }
      }
    }
  }

  lemma {:induction false} IneligibleEventsDoNotCount(
    es: seq<Event>, more: seq<Event>, asOf: Option<Instant>, validAt: Option<Instant>)
    requires forall x :: x in more ==> !Eligible(x, asOf, validAt)
    ensures VisibleOf(es + more, asOf, validAt) == VisibleOf(es, asOf, validAt)
  {
    if more == [] {
      assert es + more == es;
    } else {
      var init := more[..|more| - 1];
      assert (es + more)[..|es + more| - 1] == es + init;
      assert more[|more| - 1] in more;
      IneligibleEventsDoNotCount(es, init, asOf, validAt);
    }
  }

  /** Later commits cannot change what the database knew at T. */
  lemma PastIsFrozen(es: seq<Event>, more: seq<Event>, T: Instant, validAt: Option<Instant>)
    requires forall x :: x in more ==> T < x.txTime
    ensures VisibleOf(es + more, Some(T), validAt) == VisibleOf(es, Some(T), validAt)
  {
    IneligibleEventsDoNotCount(es, more, Some(T), validAt);
  }

  /** Only a write that is valid by v can change the unbounded answer at v. */
  lemma LaterValidityIsInvisible(es: seq<Event>, more: seq<Event>, v: Instant)
    requires forall x :: x in more ==> v < x.validFrom
    ensures VisibleOf(es + more, None, Some(v)) == VisibleOf(es, None, Some(v))
  {
    IneligibleEventsDoNotCount(es, more, None, Some(v));
  }

  /** The newest write is the visible version exactly when nothing before it was dated later. */
  lemma NewestIsVisible(es: seq<Event>, v: Option<Instant>)
    requires es != [] && Increasing(es)
    requires v.Some? ==> forall x :: x in es ==> x.validFrom <= v.value
    ensures VisibleOf(es, None, v) == Some(es[|es| - 1])
       <==> forall x :: x in es ==> x.validFrom <= es[|es| - 1].validFrom
  {
    var last := es[|es| - 1];
    VisibleIsUnique(es, last, None, v);
    assert last in es;
    forall x | x in es ensures Before(last, x) <==> last.validFrom < x.validFrom {
      assert exists i :: 0 <= i < |es| && es[i] == x;
    }
  }
}
