/** How the reads relate across time: the frozen past, the live fast path against replay, and what PURGE forgets. */
module TimeTravel {
  import opened Wrappers
  import opened Json
  import opened Temporal
  import opened EventStore
  import opened Backup
  import opened Replication
  import opened Recovery
  import Instants
  import Strings

  // ---- the past is frozen ----

  lemma {:induction false} RunContinues(s: System, steps: seq<Step>, more: seq<Step>)
    ensures RunFrom(s, steps + more) == RunFrom(RunFrom(s, steps), more)
  {
    if more == [] {
      assert steps + more == steps;
    } else {
      assert (steps + more)[..|steps + more| - 1] == steps + more[..|more| - 1];
      RunContinues(s, steps, more[..|more| - 1]);
    }
  }

  /** A step that commits an event. */
  predicate Commits(step: Step) { step.Append? && WellFormed(step.request) }

  /** The events a stretch of steps commits, numbered on from a counter. */
  function CommitsOf(counter: int, steps: seq<Step>): seq<Event> {
    if steps == [] then [] else
      var es, step := CommitsOf(counter, steps[..|steps| - 1]), steps[|steps| - 1];
      es + if Commits(step) then [EventFor(step.request, counter + |es| + 1, step.now)] else []
  }

  /** Without purges the table grows by them and by nothing else. */
  lemma {:induction false} TableGrows(s: System, steps: seq<Step>)
    requires NoPurge(steps)
    ensures var es, t := CommitsOf(s.db.counter, steps), RunFrom(s, steps);
            t.db.events == s.db.events + es && t.db.counter == s.db.counter + |es|
  {
    if steps != [] {
      TableGrows(s, steps[..|steps| - 1]);
      TableStep(RunFrom(s, steps[..|steps| - 1]), steps[|steps| - 1]);
    }
  }

  lemma TableStep(s: System, step: Step)
    requires !step.PurgeTable?
    ensures Next(s, step).db.events
         == s.db.events + if Commits(step) then [EventFor(step.request, s.db.counter + 1, step.now)] else []
    ensures Next(s, step).db.counter == if Commits(step) then s.db.counter + 1 else s.db.counter
  {
  }

  /** A step commits a version of ref only if its times can be read back. */
  predicate ReadableStep(step: Step, ref: Ref) {
    Commits(step) && Ref(step.request.collection, step.request.key) == ref ==>
      ReadableTimes(DatedFrom(step), step.now)
  }

  function DatedFrom(step: Step): Instant
    requires step.Append?
  {
    if step.request.validFrom.None? then step.now else step.request.validFrom.value
  }

  ghost predicate CommitsAreReadable(steps: seq<Step>, ref: Ref) {
    forall step :: step in steps ==> ReadableStep(step, ref)
  }

  lemma {:induction false} CommitsRead(counter: int, steps: seq<Step>, ref: Ref)
    ensures AllReadable(Select(CommitsOf(counter, steps), OfKey(ref))) <==> CommitsAreReadable(steps, ref)
  {
    if steps == [] {
      assert CommitsOf(counter, steps) == [] && AllReadable(Select([], OfKey(ref)));
    } else {
      var init, step := steps[..|steps| - 1], steps[|steps| - 1];
      var es := CommitsOf(counter, init);
      CommitsRead(counter, init, ref);
      assert steps == init + [step];
      ReadsOneMore(es, init, step, counter + |es| + 1, ref, CommitsOf(counter, steps));
    }
  }

  lemma ReadsOneMore(es: seq<Event>, init: seq<Step>, step: Step, seqNo: int, ref: Ref, es': seq<Event>)
    requires AllReadable(Select(es, OfKey(ref))) <==> CommitsAreReadable(init, ref)
    requires es' == es + if Commits(step) then [EventFor(step.request, seqNo, step.now)] else []
    ensures AllReadable(Select(es', OfKey(ref))) <==> CommitsAreReadable(init + [step], ref)
  {
    StepReads(init, step, ref);
    if Commits(step) {
      var e := EventFor(step.request, seqNo, step.now);
      CommitReads(step, e, ref);
      OneMoreReads(es, e, ref);
    } else {
      assert es + [] == es;
    }
  }

  lemma StepReads(init: seq<Step>, step: Step, ref: Ref)
    ensures CommitsAreReadable(init + [step], ref) <==> CommitsAreReadable(init, ref) && ReadableStep(step, ref)
  {
    assert forall x :: x in init + [step] <==> x in init || x == step;
  }

  lemma CommitReads(step: Step, e: Event, ref: Ref)
    requires Commits(step) && e == EventFor(step.request, e.seqNo, step.now)
    ensures ReadableStep(step, ref) <==> (RefOf(e) == ref ==> Readable(e))
  {
  }

  lemma OneMoreReads(es: seq<Event>, e: Event, ref: Ref)
    ensures AllReadable(Select(es + [e], OfKey(ref)))
       <==> AllReadable(Select(es, OfKey(ref))) && (RefOf(e) == ref ==> Readable(e))
  {
    assert (es + [e])[..|es|] == es;
    ReadableParts(Select(es, OfKey(ref)), if RefOf(e) == ref then [e] else []);
    assert Readable(e) <==> AllReadable([e]);
  }

  /** A step commits nothing that the query counts. */
  predicate IneligibleStep(step: Step, asOf: Option<Instant>, validAt: Option<Instant>) {
    Commits(step) ==> !Eligible(EventFor(step.request, 0, step.now), asOf, validAt)
  }

  lemma {:induction false} CommitsAreIneligible(counter: int, steps: seq<Step>, asOf: Option<Instant>,
        validAt: Option<Instant>)
    requires forall step :: step in steps ==> IneligibleStep(step, asOf, validAt)
    ensures forall e :: e in CommitsOf(counter, steps) ==> !Eligible(e, asOf, validAt)
  {
    if steps != [] {
      var init, step := steps[..|steps| - 1], steps[|steps| - 1];
      assert step in steps && forall x :: x in init ==> x in steps;
      CommitsAreIneligible(counter, init, asOf, validAt);
      assert IneligibleStep(step, asOf, validAt);
    }
  }

  /** Commits that do not count for a query change its answer in one way only: one of them cannot be read back, and the
      query fails from then on. */
  lemma IneligibleCommitsKeepAnswerIff(s: System, more: seq<Step>, ref: Ref, asOf: Option<Instant>,
        validAt: Option<Instant>)
    requires NoPurge(more) && forall step :: step in more ==> IneligibleStep(step, asOf, validAt)
    ensures var before := AsOfResult(s.db, ref, asOf, validAt);
            var after := AsOfResult(RunFrom(s, more).db, ref, asOf, validAt);
            && (after == before <==> before.Err? || CommitsAreReadable(more, ref))
            && (after != before ==> after.Err?)
  {
    TableGrows(s, more);
    CommitsRead(s.db.counter, more, ref);
    CommitsAreIneligible(s.db.counter, more, asOf, validAt);
    LaterVersionsKeepAnswer(s.db, RunFrom(s, more).db, CommitsOf(s.db.counter, more), ref, asOf, validAt);
  }

  lemma LaterVersionsKeepAnswer(db: Database, later: Database, es: seq<Event>, ref: Ref, asOf: Option<Instant>,
        validAt: Option<Instant>)
    requires later.events == db.events + es && forall e :: e in es ==> !Eligible(e, asOf, validAt)
    ensures AsOfIn(later, ref, asOf, validAt) == AsOfIn(db, ref, asOf, validAt)
    ensures HistoryResult(later, ref).Ok? <==> HistoryResult(db, ref).Ok? && AllReadable(Select(es, OfKey(ref)))
  {
    var h, h' := Select(db.events, OfKey(ref)), Select(es, OfKey(ref));
    SelectConcat(db.events, es, OfKey(ref));
    SelectMembers(es, OfKey(ref));
    ReadableParts(h, h');
    IneligibleEventsDoNotCount(h, h', asOf, validAt);
  }

  /** GET ... AS OF v. A v that is the zero time asks for the latest-dated version. */
  function AnswerAt(db: Database, ref: Ref, v: Instant): Result<Option<Event>> {
    AsOfResult(db, ref, None, Instants.Given(v))
  }

  /** e ranks highest, by date and then by seq, of the versions of ref that are dated by v, or of all of them. */
  ghost predicate DatedLastBy(e: Event, es: seq<Event>, ref: Ref, v: Option<Instant>) {
    && e in es && e.collection == ref.collection && e.key == ref.key && (v.Some? ==> e.validFrom <= v.value)
    && forall x :: x in es && x.collection == ref.collection && x.key == ref.key
                   && (v.Some? ==> x.validFrom <= v.value) ==>
                   x.validFrom < e.validFrom || (x.validFrom == e.validFrom && x.seqNo <= e.seqNo)
  }

  /** GET ... AS OF looks at dates alone, never at commit times: its answer is that version, if it is a PUT. */
  lemma AnswerIsDatedLast(db: Database, ref: Ref, v: Option<Instant>, e: Event)
    requires ValidDatabase(db)
    ensures AsOfIn(db, ref, None, v) == Some(e) <==> DatedLastBy(e, db.events, ref, v) && e.op.Put?
  {
    var h := Select(db.events, OfKey(ref));
    SelectMembers(db.events, OfKey(ref));
    ValidHistory(db, ref);
    VisibleIsUnique(h, e, None, v);
  }

  /** What was known at T is the same answer over the events committed by T, dated by v, or by T if there is no v. */
  lemma KnowledgeIsDatedLast(db: Database, ref: Ref, T: Instant, v: Option<Instant>, known: seq<Event>, e: Event)
    requires ValidDatabase(db) && forall x :: x in known <==> x in db.events && x.txTime <= T
    ensures AsOfIn(db, ref, Some(T), v) == Some(e) <==>
            DatedLastBy(e, known, ref, if v.None? then Some(T) else v) && e.op.Put?
  {
    var h := Select(db.events, OfKey(ref));
    SelectMembers(db.events, OfKey(ref));
    ValidHistory(db, ref);
    VisibleIsUnique(h, e, Some(T), v);
  }

  ghost predicate CommittedAfter(steps: seq<Step>, T: Instant) {
    NoPurge(steps) && forall step :: step in steps && Commits(step) ==> T < step.now
  }

  ghost predicate ValidAfter(steps: seq<Step>, v: Instant) {
    NoPurge(steps) && forall step :: step in steps && Commits(step) ==> v < DatedFrom(step)
  }

  /** Whatever is committed after T, short of a purge, what the database knew at T about a key stays as it was, exactly
      if each later version of the key can be read back or the query failed before. */
  lemma KnowledgeAtTIsFrozen(steps: seq<Step>, more: seq<Step>, T: Instant, ref: Ref, validAt: Option<Instant>)
    requires CommittedAfter(more, T) && T != Instants.ZERO
    ensures var before := AsOfResult(Run(steps).db, ref, Instants.Given(T), validAt);
            var after := AsOfResult(Run(steps + more).db, ref, Instants.Given(T), validAt);
            && (after == before <==> before.Err? || CommitsAreReadable(more, ref))
            && (after != before ==> after.Err?)
  {
    RunContinues(INIT, steps, more);
    IneligibleCommitsKeepAnswerIff(Run(steps), more, ref, Some(T), validAt);
  }

  /** GET ... AS OF v stays as it was through commits that are valid only after v, under the same condition. */
  lemma AnswerAtVChangesOnlyByEarlierValidity(steps: seq<Step>, more: seq<Step>, v: Instant, ref: Ref)
    requires ValidAfter(more, v) && v != Instants.ZERO
    ensures var before, after := AnswerAt(Run(steps).db, ref, v), AnswerAt(Run(steps + more).db, ref, v);
            && (after == before <==> before.Err? || CommitsAreReadable(more, ref))
            && (after != before ==> after.Err?)
  {
    RunContinues(INIT, steps, more);
    IneligibleCommitsKeepAnswerIff(Run(steps), more, ref, None, Some(v));
  }

  /** A later readable commit never changes the answer at v. */
  ghost predicate AnswersAreFrozenAt(v: Instant) {
    forall steps, more, ref :: ValidAfter(more, v) && CommitsAreReadable(more, ref) ==>
      AnswerAt(Run(steps + more).db, ref, v) == AnswerAt(Run(steps).db, ref, v)
  }

  /** A later readable commit never changes what was known at T. */
  ghost predicate KnowledgeIsFrozenAt(T: Instant) {
    forall steps, more, ref, validAt :: CommittedAfter(more, T) && CommitsAreReadable(more, ref) ==>
      var before, after := Run(steps).db, Run(steps + more).db;
      AsOfResult(after, ref, Instants.Given(T), validAt) == AsOfResult(before, ref, Instants.Given(T), validAt)
  }

  /** The one instant at which it does is the zero time, AS OF "0001-01-01". */
  lemma AnswersAreFrozenIff(v: Instant)
    ensures AnswersAreFrozenAt(v) <==> v != Instants.ZERO
  {
    if v == Instants.ZERO {
      var step := Append(PUT, v + 1);
      ZeroTimeIsNotFrozen(v, step, [], [step], Ref("c", "k"));
    } else {
      forall steps, more, ref | ValidAfter(more, v) && CommitsAreReadable(more, ref)
        ensures AnswerAt(Run(steps + more).db, ref, v) == AnswerAt(Run(steps).db, ref, v)
      {
        AnswerAtVChangesOnlyByEarlierValidity(steps, more, v, ref);
      }
    }
  }

  lemma KnowledgeIsFrozenIff(T: Instant)
    ensures KnowledgeIsFrozenAt(T) <==> T != Instants.ZERO
  {
    if T == Instants.ZERO {
      var step := Append(PUT, T + 1);
      ZeroTimeIsNotFrozen(T, step, [], [step], Ref("c", "k"));
    } else {
      forall steps, more, ref, validAt | CommittedAfter(more, T) && CommitsAreReadable(more, ref)
        ensures AsOfResult(Run(steps + more).db, ref, Instants.Given(T), validAt)
             == AsOfResult(Run(steps).db, ref, Instants.Given(T), validAt)
      {
        KnowledgeAtTIsFrozen(steps, more, T, ref, validAt);
      }
    }
  }

  /** On an empty database, the first PUT of a key changes the answer at the zero time, though it is valid and committed
      after it. */
  lemma ZeroTimeIsNotFrozen(t: Instant, step: Step, steps: seq<Step>, more: seq<Step>, ref: Ref)
    requires t == Instants.ZERO && steps == [] && more == [step]
    requires step.Append? && step.now == t + 1 && step.request == PUT && ref == Ref("c", "k")
    ensures ValidAfter(more, t) && CommittedAfter(more, t) && CommitsAreReadable(more, ref)
    ensures AnswerAt(Run(steps).db, ref, t) == AsOfResult(Run(steps).db, ref, Instants.Given(t), None) == Ok(None)
    ensures AnswerAt(Run(steps + more).db, ref, t) == AsOfResult(Run(steps + more).db, ref, Instants.Given(t), None)
         == Ok(Some(EventFor(PUT, 1, t + 1)))
  {
    var e := EventFor(step.request, 1, step.now);
    assert steps + more == more;
    JustAfterZero(t);
    PlainPut(step, ref, t);
    NoVersionYet(ref, steps);
    FirstCommit(step, more, e);
    FirstVersion(e, Run(more).db, ref, None);
  }

  lemma JustAfterZero(t: Instant)
    requires t == Instants.ZERO
    ensures ReadableTimes(t + 1, t + 1)
  {
  }

  lemma PlainPut(step: Step, ref: Ref, t: Instant)
    requires step.Append? && step.now == t + 1 && step.request.validFrom.None? && ReadableTimes(t + 1, t + 1)
    ensures var more := [step]; ValidAfter(more, t) && CommittedAfter(more, t) && CommitsAreReadable(more, ref)
  {
    assert forall x :: x in [step] ==> x == step;
  }

  lemma NoVersionYet(ref: Ref, steps: seq<Step>)
    requires steps == []
    ensures AsOfResult(Run(steps).db, ref, None, None) == Ok(None)
  {
    assert Run(steps) == INIT && Select([], OfKey(ref)) == [];
  }

  lemma FirstCommit(step: Step, more: seq<Step>, e: Event)
    requires more == [step] && Commits(step) && e == EventFor(step.request, 1, step.now)
    ensures Run(more).db.events == [e]
  {
    assert more[..|more| - 1] == [] && RunFrom(INIT, []) == INIT;
    assert RunFrom(INIT, more) == Next(INIT, step);
    assert [] + [e] == [e];
  }

  lemma FirstVersion(e: Event, db: Database, ref: Ref, validAt: Option<Instant>)
    requires RefOf(e) == ref && db.events == [e] && e.op.Put? && Eligible(e, None, validAt)
    ensures AsOfIn(db, ref, None, validAt) == Some(e)
    ensures AsOfResult(db, ref, None, validAt) == if Readable(e) then Ok(Some(e)) else Err
  {
    SelectAll(db.events, OfKey(ref));
    VisibleIsUnique(db.events, e, None, validAt);
    assert AllReadable([e]) <==> Readable(e);
  }

  // ---- versions that cannot be read back ----

  /** After any run without purges, HISTORY and AS OF of a key succeed exactly if every commit of the key was given
      times that can be read back, by its request and by the clock. */
  lemma ReadsSucceedIff(steps: seq<Step>, ref: Ref, asOf: Option<Instant>, validAt: Option<Instant>)
    requires NoPurge(steps)
    ensures HistoryResult(Run(steps).db, ref).Ok? <==> CommitsAreReadable(steps, ref)
    ensures AsOfResult(Run(steps).db, ref, asOf, validAt).Ok? <==> CommitsAreReadable(steps, ref)
  {
    TableGrows(INIT, steps);
    CommitsRead(0, steps, ref);
    assert [] + CommitsOf(0, steps) == CommitsOf(0, steps);
  }

  /** Such a version makes every read that scans it fail: the history and every AS OF of its key, the replay of its
      collection, and the shipper's tail from anywhere before it. */
  lemma UnreadableVersionFailsReads(db: Database, e: Event, asOf: Option<Instant>, validAt: Option<Instant>)
    requires e in db.events && !Readable(e)
    ensures HistoryResult(db, RefOf(e)).Err? && AsOfResult(db, RefOf(e), asOf, validAt).Err?
    ensures forall out :: !IsReplay(out, db, e.collection, asOf, validAt)
    ensures forall seqNo :: seqNo < e.seqNo ==> AfterResult(db, seqNo).Err?
  {
    SelectMembers(db.events, OfKey(RefOf(e)));
    SelectMembers(db.events, OfCollection(e.collection));
    forall seqNo | seqNo < e.seqNo ensures AfterResult(db, seqNo).Err? {
      SelectMembers(db.events, After(seqNo));
      OneIsUnreadable(Select(db.events, After(seqNo)), e);
    }
  }

  /** And it stays in the table, short of a purge. */
  lemma VersionStays(s: System, more: seq<Step>, e: Event)
    requires NoPurge(more) && e in s.db.events
    ensures e in RunFrom(s, more).db.events
  {
    TableGrows(s, more);
  }

  // ---- live against replay ----

  lemma {:induction false} LiveIsLastOfHistory(log: seq<Event>, ref: Ref)
    ensures var h := Select(log, OfKey(ref));
            if h == [] then ref !in LiveOf(log) else ref in LiveOf(log) && LiveOf(log)[ref] == RowOf(h[|h| - 1])
  {
    if log != [] {
      LiveIsLastOfHistory(log[..|log| - 1], ref);
    }
  }

  lemma GetIsLastOfHistory(log: seq<Event>, ref: Ref)
    ensures var h := Select(log, OfKey(ref));
            GetOf(DatabaseOf(log), ref) == if h == [] then None else Undeleted(Some(h[|h| - 1]))
  {
    LiveIsLastOfHistory(log, ref);
    SelectMembers(log, OfKey(ref));
    var h := Select(log, OfKey(ref));
    if h != [] { assert h[|h| - 1] in h; }
  }

  /** No version of the key is dated after its newest one. */
  ghost predicate NewestDatedLast(h: seq<Event>) {
    h != [] ==> forall x :: x in h ==> x.validFrom <= h[|h| - 1].validFrom
  }

  /** The version that ranks above all others, by date and then by seq, is a delete. */
  ghost predicate LatestDatedIsDelete(h: seq<Event>) {
    exists e :: e in h && e.op.Delete? && forall x :: x in h ==> !Before(e, x)
  }

  lemma LatestDated(h: seq<Event>, validAt: Option<Instant>)
    requires DistinctSeqs(h) && h != [] && (validAt.Some? ==> forall e :: e in h ==> e.validFrom <= validAt.value)
    ensures VisibleOf(h, None, validAt).Some?
    ensures VisibleOf(h, None, validAt).value.op.Delete? <==> LatestDatedIsDelete(h)
  {
    VisibleIsTheMaximum(h, None, validAt);
    assert h[0] in h && forall x :: x in h ==> Eligible(x, None, validAt);
    if LatestDatedIsDelete(h) {
      var e :| e in h && e.op.Delete? && forall x :: x in h ==> !Before(e, x);
      VisibleIsUnique(h, e, None, validAt);
    }
  }

  /** On an unpurged log, GET and GET AS OF any point late enough name the same version of a key exactly when its newest
      one is dated no earlier than the others, or the newest and the latest-dated one are both deletes. */
  lemma SameVersionIff(log: seq<Event>, ref: Ref, validAt: Option<Instant>)
    requires Increasing(log)
    requires validAt.Some? ==> forall e :: e in log && RefOf(e) == ref ==> e.validFrom <= validAt.value
    ensures var h := Select(log, OfKey(ref));
            GetOf(DatabaseOf(log), ref) == AsOfIn(DatabaseOf(log), ref, None, validAt)
            <==> NewestDatedLast(h) || (h[|h| - 1].op.Delete? && LatestDatedIsDelete(h))
  {
    var h := Select(log, OfKey(ref));
    GetIsLastOfHistory(log, ref);
    SelectIncreasing(log, OfKey(ref));
    SelectMembers(log, OfKey(ref));
    VisibleIsTheMaximum(h, None, validAt);
    if h != [] {
      assert h[|h| - 1] in h && Eligible(h[|h| - 1], None, validAt);
      NewestIsVisible(h, validAt);
      LatestDated(h, validAt);
    }
  }

  /** So the two reads agree exactly under that condition if every version of the key can be read back, and otherwise,
      where GET AS OF fails, exactly if the newest version is a PUT that cannot be read back either. */
  lemma GetAgreesWithReplay(log: seq<Event>, ref: Ref, validAt: Option<Instant>)
    requires Increasing(log)
    requires validAt.Some? ==> forall e :: e in log && RefOf(e) == ref ==> e.validFrom <= validAt.value
    ensures var h := Select(log, OfKey(ref));
            GetResult(DatabaseOf(log), ref) == AsOfResult(DatabaseOf(log), ref, None, validAt)
            <==> if AllReadable(h) then NewestDatedLast(h) || (h[|h| - 1].op.Delete? && LatestDatedIsDelete(h))
                 else !h[|h| - 1].op.Delete? && !Readable(h[|h| - 1])
  {
    var h := Select(log, OfKey(ref));
    GetIsLastOfHistory(log, ref);
    SameVersionIff(log, ref, validAt);
    assert h != [] ==> h[|h| - 1] in h;
  }

  /** A backdated PUT is what GET returns, and not what GET AS OF returns. */
  lemma BackdatedPutSplitsTheReads()
    ensures var a := Event(1, "c", "k", Put, Some(Num(1.0)), 10, 10, Obj(map[]));
            var b := Event(2, "c", "k", Put, Some(Num(2.0)), 5, 20, Obj(map[]));
            var db := DatabaseOf([a, b]);
            GetResult(db, Ref("c", "k")) == Ok(Some(b)) && AsOfResult(db, Ref("c", "k"), None, None) == Ok(Some(a))
  {
    var a := Event(1, "c", "k", Put, Some(Num(1.0)), 10, 10, Obj(map[]));
    var b := Event(2, "c", "k", Put, Some(Num(2.0)), 5, 20, Obj(map[]));
    var ref := Ref("c", "k");
    assert [a, b][..1] == [a] && [a][..0] == [];
    assert Select([a], OfKey(ref)) == [a] && Select([a, b], OfKey(ref)) == [a, b];
    GetIsLastOfHistory([a, b], ref);
    assert VisibleOf([a], None, None) == Some(a);
  }

  /** If every key of the collection has its newest version dated last, ReplayAsOf at any point late enough
      returns exactly the undeleted rows of live. */
  lemma ReplayIsLive(log: seq<Event>, collection: string, validAt: Option<Instant>, out: seq<Event>)
    requires Increasing(log)
    requires forall key :: NewestDatedLast(Select(log, OfKey(Ref(collection, key))))
    requires validAt.Some? ==> forall e :: e in log && e.collection == collection ==> e.validFrom <= validAt.value
    requires IsReplay(out, DatabaseOf(log), collection, None, validAt)
    ensures forall e :: e in out <==> e.collection == collection && GetResult(DatabaseOf(log), RefOf(e)) == Ok(Some(e))
    ensures forall key :: GetResult(DatabaseOf(log), Ref(collection, key)).Ok?
  {
    ReadableByKey(DatabaseOf(log), collection);
    forall key
      ensures var ref := Ref(collection, key);
              GetResult(DatabaseOf(log), ref) == Ok(AsOfIn(DatabaseOf(log), ref, None, validAt))
    {
      assert NewestDatedLast(Select(log, OfKey(Ref(collection, key))));
      assert HistoryResult(DatabaseOf(log), Ref(collection, key)).Ok?;
      GetAgreesWithReplay(log, Ref(collection, key), validAt);
    }
  }

  // ---- what PURGE forgets ----

  function PurgedEvents(es: seq<Event>, collection: string, cut: Cut): seq<Event> {
    Select(es, Unpurged(collection, cut))
  }

  lemma {:induction false} SelectsCommute(es: seq<Event>, a: Where, b: Where)
    ensures Select(Select(es, a), b) == Select(Select(es, b), a)
  {
    if es != [] {
      var init, last := es[..|es| - 1], es[|es| - 1];
      SelectsCommute(init, a, b);
      SelectConcat(Select(init, a), if Holds(a, last) then [last] else [], b);
      SelectConcat(Select(init, b), if Holds(b, last) then [last] else [], a);
      assert [last][..0] == [];
    }
  }

  /** The purge takes a version of h that outranks one it leaves. */
  ghost predicate Uncovers(gone: Event, kept: Event, h: seq<Event>, cut: Cut) {
    gone in h && kept in h && cut(gone.txTime) && !cut(kept.txTime) && Before(kept, gone)
  }

  /** k stays and outranks kept wherever gone has started. */
  ghost predicate Hides(k: Event, kept: Event, gone: Event, h: seq<Event>, cut: Cut) {
    k in h && !cut(k.txTime) && k.validFrom <= gone.validFrom && Before(kept, k)
  }

  /** k stays and corrects gone at its own instant. */
  ghost predicate Corrects(k: Event, gone: Event, h: seq<Event>, cut: Cut) {
    k in h && !cut(k.txTime) && k.validFrom == gone.validFrom && gone.seqNo < k.seqNo
  }

  /** As known at asOf, every PUT that a purged version outranked has a remaining version above it. */
  ghost predicate AnswersAreMasked(h: seq<Event>, cut: Cut, asOf: Option<Instant>) {
    forall gone, kept :: Uncovers(gone, kept, h, cut) && kept.op.Put? && Known(gone, asOf) && Known(kept, asOf) ==>
      exists k :: Hides(k, kept, gone, h, cut) && Known(k, asOf)
  }

  /** The same at any asOf: the remaining version is known as soon as the other two are. */
  ghost predicate PurgeIsMasked(h: seq<Event>, cut: Cut) {
    forall gone, kept :: Uncovers(gone, kept, h, cut) && kept.op.Put? ==>
      exists k :: Hides(k, kept, gone, h, cut) && k.txTime <= Max(gone.txTime, kept.txTime)
  }

  /** The counterpart for versions, tombstones included. */
  ghost predicate VersionsAreMasked(h: seq<Event>, cut: Cut) {
    forall gone, kept :: Uncovers(gone, kept, h, cut) ==>
      exists k :: Corrects(k, gone, h, cut) && k.txTime <= Max(gone.txTime, kept.txTime)
  }

  /** After the purge the query gives the answer it gave before, or none. */
  ghost predicate AnswerForgets(h: seq<Event>, collection: string, cut: Cut, asOf: Option<Instant>,
        validAt: Option<Instant>) {
    var a := Undeleted(VisibleOf(PurgedEvents(h, collection, cut), asOf, validAt));
    a == None || a == Undeleted(VisibleOf(h, asOf, validAt))
  }

  ghost predicate ForgetsAt(h: seq<Event>, collection: string, cut: Cut, asOf: Option<Instant>) {
    forall validAt :: AnswerForgets(h, collection, cut, asOf, validAt)
  }

  /** After the purge the query sees the version it saw before, or none. */
  ghost predicate VersionForgets(h: seq<Event>, collection: string, cut: Cut, asOf: Option<Instant>,
        validAt: Option<Instant>) {
    var v := VisibleOf(PurgedEvents(h, collection, cut), asOf, validAt);
    v == None || v == VisibleOf(h, asOf, validAt)
  }

  /** h is the history of a key of the collection. */
  ghost predicate IsHistory(h: seq<Event>, collection: string) {
    DistinctSeqs(h) && forall e :: e in h ==> e.collection == collection
  }

  /** What is visible before and after the purge. */
  lemma PurgeVisible(h: seq<Event>, collection: string, cut: Cut, asOf: Option<Instant>, validAt: Option<Instant>)
    requires IsHistory(h, collection)
    ensures var v, w := VisibleOf(PurgedEvents(h, collection, cut), asOf, validAt), VisibleOf(h, asOf, validAt);
            && (v.None? ==> forall x :: x in h && !cut(x.txTime) ==> !Eligible(x, asOf, validAt))
            && (v.Some? ==> v.value in h && !cut(v.value.txTime) && Eligible(v.value, asOf, validAt)
                            && forall x :: x in h && !cut(x.txTime) && Eligible(x, asOf, validAt) ==>
                                 !Before(v.value, x))
            && (w.Some? ==> IsVisible(w.value, h, asOf, validAt))
            && (v.Some? ==> w.Some? && (v == w || Uncovers(w.value, v.value, h, cut)))
  {
    var rest := PurgedEvents(h, collection, cut);
    SelectMembers(h, Unpurged(collection, cut));
    VisibleIsTheMaximum(rest, asOf, validAt);
    VisibleIsTheMaximum(h, asOf, validAt);
    var v, w := VisibleOf(rest, asOf, validAt), VisibleOf(h, asOf, validAt);
    if v.Some? && !Before(v.value, w.value) {
      VisibleIsUnique(h, v.value, asOf, validAt);
    }
  }

  lemma MaskedForgets(h: seq<Event>, collection: string, cut: Cut, asOf: Option<Instant>, validAt: Option<Instant>)
    requires IsHistory(h, collection) && AnswersAreMasked(h, cut, asOf)
    ensures AnswerForgets(h, collection, cut, asOf, validAt)
  {
    PurgeVisible(h, collection, cut, asOf, validAt);
    var v, w := VisibleOf(PurgedEvents(h, collection, cut), asOf, validAt), VisibleOf(h, asOf, validAt);
    assert forall k :: v.Some? && w.Some? && Hides(k, v.value, w.value, h, cut) && Known(k, asOf) ==>
          Eligible(k, asOf, validAt);
  }

  lemma ForgettingMasks(h: seq<Event>, collection: string, cut: Cut, asOf: Option<Instant>, gone: Event, kept: Event)
    requires IsHistory(h, collection) && AnswerForgets(h, collection, cut, asOf, Some(gone.validFrom))
    requires Uncovers(gone, kept, h, cut) && kept.op.Put? && Known(gone, asOf) && Known(kept, asOf)
    ensures exists k :: Hides(k, kept, gone, h, cut) && Known(k, asOf)
  {
    var at := Some(gone.validFrom);
    PurgeVisible(h, collection, cut, asOf, at);
    assert Eligible(kept, asOf, at) && Eligible(gone, asOf, at);
    var k := VisibleOf(PurgedEvents(h, collection, cut), asOf, at).value;
    assert k != kept;
    assert Hides(k, kept, gone, h, cut);
  }

  /** Fixed in asOf, as for TQL, whose AS OF leaves it unset: every valid-time query answers as before the purge, or
      with none, exactly when the answers are masked. */
  lemma PurgeOnlyForgetsAtIff(h: seq<Event>, collection: string, cut: Cut, asOf: Option<Instant>)
    requires IsHistory(h, collection)
    ensures ForgetsAt(h, collection, cut, asOf) <==> AnswersAreMasked(h, cut, asOf)
  {
    if AnswersAreMasked(h, cut, asOf) {
      forall validAt ensures AnswerForgets(h, collection, cut, asOf, validAt) {
        MaskedForgets(h, collection, cut, asOf, validAt);
      }
    }
    if ForgetsAt(h, collection, cut, asOf) {
      forall gone, kept | Uncovers(gone, kept, h, cut) && kept.op.Put? && Known(gone, asOf) && Known(kept, asOf)
        ensures exists k :: Hides(k, kept, gone, h, cut) && Known(k, asOf)
      {
        ForgettingMasks(h, collection, cut, asOf, gone, kept);
      }
    }
  }

  lemma MaskedAtEvery(h: seq<Event>, cut: Cut)
    ensures PurgeIsMasked(h, cut) <==> forall asOf :: AnswersAreMasked(h, cut, asOf)
  {
    if PurgeIsMasked(h, cut) {
      forall asOf, gone, kept | Uncovers(gone, kept, h, cut) && kept.op.Put? && Known(gone, asOf) && Known(kept, asOf)
        ensures exists k :: Hides(k, kept, gone, h, cut) && Known(k, asOf)
      {
        var k :| Hides(k, kept, gone, h, cut) && k.txTime <= Max(gone.txTime, kept.txTime);
        assert Known(k, asOf);
      }
    }
    if forall asOf :: AnswersAreMasked(h, cut, asOf) {
      forall gone, kept | Uncovers(gone, kept, h, cut) && kept.op.Put?
        ensures exists k :: Hides(k, kept, gone, h, cut) && k.txTime <= Max(gone.txTime, kept.txTime)
      {
        var asOf := Some(Max(gone.txTime, kept.txTime));
        assert AnswersAreMasked(h, cut, asOf) && Known(gone, asOf) && Known(kept, asOf);
        var k :| Hides(k, kept, gone, h, cut) && Known(k, asOf);
      }
    }
  }

  /** If the key answered before the purge, it answers the same after it, or with none. */
  ghost predicate PurgeForgets(db: Database, cut: Cut, ref: Ref, asOf: Option<Instant>, validAt: Option<Instant>) {
    var before := AsOfResult(db, ref, asOf, validAt);
    var after := AsOfResult(db.(events := PurgedEvents(db.events, ref.collection, cut)), ref, asOf, validAt);
    before.Ok? ==> after == before || after == Ok(None)
  }

  lemma PurgeForgetsIsAnswerForgets(db: Database, cut: Cut, ref: Ref, asOf: Option<Instant>, validAt: Option<Instant>)
    requires ValidDatabase(db)
    ensures var h := Select(db.events, OfKey(ref));
            IsHistory(h, ref.collection)
            && (PurgeForgets(db, cut, ref, asOf, validAt)
                <==> (AllReadable(h) ==> AnswerForgets(h, ref.collection, cut, asOf, validAt)))
  {
    PurgedHistory(db.events, cut, ref);
    SelectMembers(db.events, OfKey(ref));
    ValidHistory(db, ref);
  }

  lemma PurgedHistory(es: seq<Event>, cut: Cut, ref: Ref)
    ensures var h, h' := Select(es, OfKey(ref)), Select(PurgedEvents(es, ref.collection, cut), OfKey(ref));
            h' == PurgedEvents(h, ref.collection, cut) && (AllReadable(h) ==> AllReadable(h'))
  {
    SelectsCommute(es, Unpurged(ref.collection, cut), OfKey(ref));
    SelectMembers(Select(es, OfKey(ref)), Unpurged(ref.collection, cut));
  }

  /** On a key of the purged collection, every query on both time axes that did not fail before the purge answers as
      before it, or with none, if and only if the purge is masked or all of them failed. */
  lemma PurgeOnlyForgetsIff(db: Database, cut: Cut, ref: Ref)
    requires ValidDatabase(db)
    ensures (forall asOf, validAt :: PurgeForgets(db, cut, ref, asOf, validAt))
       <==> HistoryResult(db, ref).Err? || PurgeIsMasked(Select(db.events, OfKey(ref)), cut)
  {
    var h, c := Select(db.events, OfKey(ref)), ref.collection;
    PurgeForgetsIsAnswerForgets(db, cut, ref, None, None);
    forall asOf, validAt
      ensures PurgeForgets(db, cut, ref, asOf, validAt)
         <==> (AllReadable(h) ==> AnswerForgets(h, c, cut, asOf, validAt))
    {
      PurgeForgetsIsAnswerForgets(db, cut, ref, asOf, validAt);
    }
    AnswersForgetIff(h, c, cut);
  }

  lemma AnswersForgetIff(h: seq<Event>, c: string, cut: Cut)
    requires IsHistory(h, c)
    ensures (forall asOf, validAt :: AnswerForgets(h, c, cut, asOf, validAt)) <==> PurgeIsMasked(h, cut)
  {
    MaskedAtEvery(h, cut);
    forall asOf ensures ForgetsAt(h, c, cut, asOf) <==> AnswersAreMasked(h, cut, asOf) {
      PurgeOnlyForgetsAtIff(h, c, cut, asOf);
    }
    if PurgeIsMasked(h, cut) {
      forall asOf, validAt ensures AnswerForgets(h, c, cut, asOf, validAt) {
        assert ForgetsAt(h, c, cut, asOf);
      }
    }
    if forall asOf, validAt :: AnswerForgets(h, c, cut, asOf, validAt) {
      forall asOf ensures AnswersAreMasked(h, cut, asOf) {
        assert ForgetsAt(h, c, cut, asOf);
      }
    }
  }

  /** PURGE ... BEFORE a cutoff: every AsOf query on a key whose purge is masked gives the same answer or none. */
  lemma PurgeOnlyForgets(db: Database, cutoff: Instant, ref: Ref, asOf: Option<Instant>, validAt: Option<Instant>)
    requires ValidDatabase(db) && PurgeIsMasked(Select(db.events, OfKey(ref)), SqlBefore(cutoff))
    ensures var purged := db.(events := PurgedEvents(db.events, ref.collection, SqlBefore(cutoff)));
            var before, after := AsOfResult(db, ref, asOf, validAt), AsOfResult(purged, ref, asOf, validAt);
            before.Ok? ==> after == before || after == Ok(None)
  {
    PurgeOnlyForgetsIff(db, SqlBefore(cutoff), ref);
    assert PurgeForgets(db, SqlBefore(cutoff), ref, asOf, validAt);
  }

  lemma VersionsForget(h: seq<Event>, collection: string, cut: Cut, asOf: Option<Instant>, validAt: Option<Instant>)
    requires IsHistory(h, collection) && VersionsAreMasked(h, cut)
    ensures VersionForgets(h, collection, cut, asOf, validAt)
  {
    PurgeVisible(h, collection, cut, asOf, validAt);
    var v, w := VisibleOf(PurgedEvents(h, collection, cut), asOf, validAt), VisibleOf(h, asOf, validAt);
    if v.Some? && v != w {
      var k :| Corrects(k, w.value, h, cut) && k.txTime <= Max(w.value.txTime, v.value.txTime);
      assert Eligible(k, asOf, validAt);
    }
  }

  lemma ForgettingCorrects(h: seq<Event>, collection: string, cut: Cut, gone: Event, kept: Event)
    requires IsHistory(h, collection) && Uncovers(gone, kept, h, cut)
    requires VersionForgets(h, collection, cut, Some(Max(gone.txTime, kept.txTime)), Some(gone.validFrom))
    ensures exists k :: Corrects(k, gone, h, cut) && k.txTime <= Max(gone.txTime, kept.txTime)
  {
    var asOf, at := Some(Max(gone.txTime, kept.txTime)), Some(gone.validFrom);
    PurgeVisible(h, collection, cut, asOf, at);
    assert Eligible(kept, asOf, at) && Eligible(gone, asOf, at);
    var k := VisibleOf(h, asOf, at).value;
    assert k != gone && !Before(k, gone);
    assert Corrects(k, gone, h, cut);
  }

  /** The version-level counterpart: every query sees the version it saw before, or none, exactly when each purged
      version that outranks a kept one is corrected by a kept one. */
  lemma PurgeForgetsVersionsIff(h: seq<Event>, collection: string, cut: Cut)
    requires IsHistory(h, collection)
    ensures (forall asOf, validAt :: VersionForgets(h, collection, cut, asOf, validAt)) <==> VersionsAreMasked(h, cut)
  {
    if VersionsAreMasked(h, cut) {
      forall asOf, validAt ensures VersionForgets(h, collection, cut, asOf, validAt) {
        VersionsForget(h, collection, cut, asOf, validAt);
      }
    }
    if forall asOf, validAt :: VersionForgets(h, collection, cut, asOf, validAt) {
      forall gone, kept | Uncovers(gone, kept, h, cut)
        ensures exists k :: Corrects(k, gone, h, cut) && k.txTime <= Max(gone.txTime, kept.txTime)
      {
        ForgettingCorrects(h, collection, cut, gone, kept);
      }
    }
  }

  /** Dated and committed in seq order. */
  ghost predicate InOrder(h: seq<Event>) {
    Increasing(h) && forall i, j :: 0 <= i < j < |h| ==> h[i].validFrom <= h[j].validFrom && h[i].txTime <= h[j].txTime
  }

  /** On times that can be stamped, the cut takes everything before anything it takes. */
  lemma SqlCutIsDownward(cutoff: Instant, s: Instant, t: Instant)
    requires Instants.Stampable(s) && Instants.Stampable(t) && s <= t && SqlBefore(cutoff)(t)
    ensures SqlBefore(cutoff)(s)
  {
    if s < t {
      Instants.StampsKeepOrder(s, t);
      Strings.LessIsTransitive(Instants.Stamp(s), Instants.Stamp(t), Instants.Stamp(cutoff));
    }
  }

  /** Where versions are dated and committed in seq order, nothing that goes outranks anything that stays. */
  lemma InOrderIsMasked(h: seq<Event>, cutoff: Instant)
    requires InOrder(h) && forall e :: e in h ==> Instants.Stampable(e.txTime)
    ensures PurgeIsMasked(h, SqlBefore(cutoff)) && VersionsAreMasked(h, SqlBefore(cutoff))
  {
    var cut := SqlBefore(cutoff);
    forall gone, kept | gone in h && kept in h && cut(gone.txTime) && !cut(kept.txTime) ensures !Before(kept, gone) {
      if kept.txTime <= gone.txTime { SqlCutIsDownward(cutoff, kept.txTime, gone.txTime); }
      OrderedAsCommitted(h, gone, kept);
    }
  }

  lemma OrderedAsCommitted(h: seq<Event>, a: Event, b: Event)
    requires InOrder(h) && a in h && b in h && a.txTime < b.txTime
    ensures !Before(b, a)
  {
    var i :| 0 <= i < |h| && h[i] == a;
    var j :| 0 <= j < |h| && h[j] == b;
    assert i < j;
  }

  /** A PURGE of one collection changes no answer about another. */
  lemma PurgeSparesOthers(db: Database, collection: string, cut: Cut, ref: Ref, asOf: Option<Instant>,
        validAt: Option<Instant>)
    requires ref.collection != collection
    ensures AsOfResult(db.(events := PurgedEvents(db.events, collection, cut)), ref, asOf, validAt)
          == AsOfResult(db, ref, asOf, validAt)
  {
    OthersStay(db.events, collection, cut, ref);
  }

  lemma OthersStay(es: seq<Event>, collection: string, cut: Cut, ref: Ref)
    requires ref.collection != collection
    ensures Select(PurgedEvents(es, collection, cut), OfKey(ref)) == Select(es, OfKey(ref))
  {
    var h := Select(es, OfKey(ref));
    SelectsCommute(es, Unpurged(collection, cut), OfKey(ref));
    SelectMembers(es, OfKey(ref));
    SelectAll(h, Unpurged(collection, cut));
  }

  /** The answer for the key of a was a, and after the purge it is b. */
  ghost predicate AnswerChanges(db: Database, cut: Cut, validAt: Option<Instant>, a: Event, b: Event) {
    && AsOfResult(db, RefOf(a), None, validAt) == Ok(Some(a))
    && AsOfResult(db.(events := PurgedEvents(db.events, a.collection, cut)), RefOf(a), None, validAt) == Ok(Some(b))
  }

  /** Where a purged PUT outranks the one kept, the kept one becomes the answer. */
  lemma UncoveredAnswers(db: Database, a: Event, b: Event, cut: Cut, validAt: Option<Instant>)
    requires db.events == [a, b] && RefOf(a) == RefOf(b) && a.op.Put? && b.op.Put? && Before(b, a)
    requires cut(a.txTime) && !cut(b.txTime) && Eligible(a, None, validAt) && Eligible(b, None, validAt)
    requires Readable(a) && Readable(b)
    ensures AnswerChanges(db, cut, validAt, a, b)
  {
    TheirVisible(a, b, validAt);
    var purged := db.(events := PurgedEvents(db.events, a.collection, cut));
    assert purged.events == [b] by { SelectSecond(a, b, Unpurged(a.collection, cut)); }
    AnswerOfKey(db, RefOf(a), validAt, a);
    AnswerOfKey(purged, RefOf(a), validAt, b);
  }

  lemma AnswerOfKey(db: Database, ref: Ref, validAt: Option<Instant>, e: Event)
    requires AllReadable(db.events) && forall x :: x in db.events ==> RefOf(x) == ref
    requires VisibleOf(db.events, None, validAt) == Some(e) && e.op.Put?
    ensures AsOfResult(db, ref, None, validAt) == Ok(Some(e))
  {
    SelectAll(db.events, OfKey(ref));
  }

  /** PURGE can answer with a version that was not visible before, when a kept version is dated before a purged one. */
  lemma PurgeCanChangeAnAnswer(a: Event, b: Event, db: Database, cut: Cut)
    requires a == Event(1, "c", "k", Put, Some(Num(1.0)), 10, 10, Obj(map[]))
    requires b == Event(2, "c", "k", Put, Some(Num(2.0)), 5, 20, Obj(map[])) && db.events == [a, b]
    requires cut(a.txTime) && !cut(b.txTime)
    ensures AnswerChanges(db, cut, Some(10), a, b)
  {
    assert Eligible(a, None, Some(10)) && Eligible(b, None, Some(10)) && Before(b, a);
    UncoveredAnswers(db, a, b, cut, Some(10));
  }

  lemma SelectSecond(a: Event, b: Event, w: Where)
    requires !Holds(w, a) && Holds(w, b)
    ensures Select([a, b], w) == [b]
  {
    assert [a, b][..1] == [a] && [a][..0] == [];
    assert Select([a], w) == [];
  }

  lemma TheirVisible(a: Event, b: Event, validAt: Option<Instant>)
    requires Eligible(a, None, validAt) && Eligible(b, None, validAt) && Before(b, a)
    ensures VisibleOf([a, b], None, validAt) == Some(a) && VisibleOf([b], None, validAt) == Some(b)
  {
    assert [a, b][..1] == [a] && [a][..0] == [] && [b][..0] == [];
    assert VisibleOf([a], None, validAt) == Some(a);
  }

  /** Every cutoff between the two commits is such a cut. */
  lemma CutOnFirstDay(a: Instant, cutoff: Instant, b: Instant)
    requires 0 <= a < cutoff <= b < 24 * Instants.HOUR
    ensures SqlBefore(cutoff)(a) && !SqlBefore(cutoff)(b)
  {
    Instants.StampsKeepOrder(a, cutoff);
    Instants.StampsKeepOrder(b, cutoff);
  }
}
