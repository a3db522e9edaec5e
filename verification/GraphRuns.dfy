/** The graph through whole runs of the server: purges, restarts and commits to other collections included. */
module GraphRuns {
  import opened Wrappers
  import opened Json
  import opened Temporal
  import opened EventStore
  import opened Backup
  import opened Replication
  import opened Recovery
  import opened TimeTravel
  import opened Graph
  import Instants

  datatype Node = Node(collection: string, key: string)

  /** An edge between two nodes. */
  datatype Link = Link(from: Node, typ: string, to: Node)

  /** RELATE and UNRELATE. */
  datatype LinkWrite = Tie(link: Link, props: Option<Json>) | Untie(link: Link)

  /** A move is a Relate or Unrelate, or any other step of the server. */
  datatype Move = EdgeWrite(write: LinkWrite, now: Instant) | Other(step: Step)

  function NodePath(n: Node): string { Path(n.collection, n.key) }

  function TripleOf(l: Link): Triple { Triple(NodePath(l.from), l.typ, NodePath(l.to)) }

  function TripleWrite(w: LinkWrite): Write {
    match w
    case Tie(l, props) => Write.Relate(TripleOf(l), props)
    case Untie(l) => Write.Unrelate(TripleOf(l))
  }

  ghost predicate SlashFree(l: Link) { '/' !in l.from.collection && '/' !in l.to.collection }

  lemma TripleOfIsInjective(l: Link, m: Link)
    requires SlashFree(l) && SlashFree(m) && TripleOf(l) == TripleOf(m)
    ensures l == m
  {
    PathIsInjective(l.from.collection, l.from.key, m.from.collection, m.from.key);
    PathIsInjective(l.to.collection, l.to.key, m.to.collection, m.to.key);
  }

  /** Only Relate and Unrelate write to the edge collection; their collections are identifiers, which hold no slash, and
      their components are under 2^32 bytes. */
  ghost predicate Allowed(m: Move) {
    match m
    case EdgeWrite(w, _) => SlashFree(w.link) && Short(TripleOf(w.link))
    case Other(step) => step.Append? ==> step.request.collection != EDGES
  }

  function StepOf(key: Keys, m: Move): Step {
    match m
    case EdgeWrite(w, now) => Append(RequestFor(key, TripleWrite(w)), now)
    case Other(step) => step
  }

  function StepsOf(key: Keys, ms: seq<Move>): seq<Step> {
    if ms == [] then [] else StepsOf(key, ms[..|ms| - 1]) + [StepOf(key, ms[|ms| - 1])]
  }

  /** The graph the moves describe: Relate adds or replaces an edge, Unrelate removes it, nothing else touches it. */
  function GraphAfter(ms: seq<Move>): map<Link, Json> {
    if ms == [] then map[] else
      var g, m := GraphAfter(ms[..|ms| - 1]), ms[|ms| - 1];
      if m.Other? then g
      else if m.write.Tie? then g[m.write.link := if m.write.props.Some? then m.write.props.value else Obj(map[])]
      else g - {m.write.link}
  }

  /** Move i is the last RELATE or UNRELATE of l. */
  ghost predicate LastWrites(ms: seq<Move>, l: Link, i: int) {
    0 <= i < |ms| && ms[i].EdgeWrite? && ms[i].write.link == l
    && forall j :: i < j < |ms| && ms[j].EdgeWrite? ==> ms[j].write.link != l
  }

  /** The last write of l is a RELATE that gave v, or that gave nothing while v is the empty object. */
  ghost predicate TiedTo(ms: seq<Move>, l: Link, v: Json) {
    exists i :: LastWrites(ms, l, i) && ms[i].write.Tie?
      && (ms[i].write.props.Some? ==> v == ms[i].write.props.value)
      && (ms[i].write.props.None? ==> v == Obj(map[]))
  }

  lemma OneLastWrite(ms: seq<Move>, l: Link, i: int, j: int)
    requires LastWrites(ms, l, i) && LastWrites(ms, l, j)
    ensures i == j
  {
  }

  lemma LaterMovesKeepLastWrite(ms: seq<Move>, m: Move, l: Link, i: int)
    requires m.EdgeWrite? ==> m.write.link != l
    ensures LastWrites(ms + [m], l, i) <==> LastWrites(ms, l, i)
  {
    if 0 <= i < |ms| {
      assert (ms + [m])[i] == ms[i];
      assert forall j :: i < j < |ms| ==> (ms + [m])[j] == ms[j];
    }
    if i == |ms| { assert (ms + [m])[i] == m; }
  }

  /** An edge is in the graph with v exactly when its last write ties it to v. */
  lemma {:induction false} GraphIsLastWrites(ms: seq<Move>, l: Link, v: Json)
    ensures l in GraphAfter(ms) && GraphAfter(ms)[l] == v <==> TiedTo(ms, l, v)
  {
    if ms != [] {
      var init, m := ms[..|ms| - 1], ms[|ms| - 1];
      assert ms == init + [m];
      if m.EdgeWrite? && m.write.link == l {
        assert LastWrites(ms, l, |init|);
        if TiedTo(ms, l, v) {
          var i :| LastWrites(ms, l, i) && ms[i].write.Tie?
            && (ms[i].write.props.Some? ==> v == ms[i].write.props.value)
            && (ms[i].write.props.None? ==> v == Obj(map[]));
          OneLastWrite(ms, l, i, |init|);
        }
      } else {
        GraphIsLastWrites(init, l, v);
        forall i ensures LastWrites(ms, l, i) <==> LastWrites(init, l, i) {
          LaterMovesKeepLastWrite(init, m, l, i);
        }
        assert forall i :: 0 <= i < |init| ==> ms[i] == init[i];
      }
    }
  }

  /** The same with its nodes written as paths. */
  function EdgesAfter(ms: seq<Move>): map<Triple, Json> {
    if ms == [] then map[] else
      var g, m := EdgesAfter(ms[..|ms| - 1]), ms[|ms| - 1];
      if m.EdgeWrite? then Apply(g, TripleWrite(m.write)) else g
  }

  ghost predicate Written(g: map<Link, Json>, edges: map<Triple, Json>) {
    && (forall l :: l in g ==> SlashFree(l) && TripleOf(l) in edges && edges[TripleOf(l)] == g[l])
    && (forall t :: t in edges ==> exists l :: l in g && TripleOf(l) == t)
  }

  lemma WrittenStep(g: map<Link, Json>, edges: map<Triple, Json>, w: LinkWrite)
    requires Written(g, edges) && SlashFree(w.link)
    ensures Written(if w.Tie? then g[w.link := if w.props.Some? then w.props.value else Obj(map[])] else g - {w.link},
                    Apply(edges, TripleWrite(w)))
  {
    forall l | l in g && l != w.link ensures TripleOf(l) != TripleOf(w.link) {
      if TripleOf(l) == TripleOf(w.link) { TripleOfIsInjective(l, w.link); }
    }
    match w
    case Tie(l, props) => TieIsWritten(g, edges, l, if props.Some? then props.value else Obj(map[]));
    case Untie(l) => UntieIsWritten(g, edges, l);
  }

  lemma TieIsWritten(g: map<Link, Json>, edges: map<Triple, Json>, l: Link, props: Json)
    requires Written(g, edges) && SlashFree(l) && forall m :: m in g && m != l ==> TripleOf(m) != TripleOf(l)
    ensures Written(g[l := props], edges[TripleOf(l) := props])
  {
    var g', edges' := g[l := props], edges[TripleOf(l) := props];
    forall t | t in edges' ensures exists m :: m in g' && TripleOf(m) == t {
      if t == TripleOf(l) {
        assert l in g';
      } else {
        var m :| m in g && TripleOf(m) == t;
        assert m in g';
      }
    }
  }

  lemma UntieIsWritten(g: map<Link, Json>, edges: map<Triple, Json>, l: Link)
    requires Written(g, edges) && forall m :: m in g && m != l ==> TripleOf(m) != TripleOf(l)
    ensures Written(g - {l}, edges - {TripleOf(l)})
  {
    forall t | t in edges - {TripleOf(l)} ensures exists m :: m in g - {l} && TripleOf(m) == t {
      var m :| m in g && TripleOf(m) == t;
      assert m in g - {l};
    }
  }

  /** As no collection holds a slash, the paths lose nothing. */
  lemma {:induction false} PathsKeepTheGraph(ms: seq<Move>)
    requires forall m :: m in ms ==> Allowed(m)
    ensures Written(GraphAfter(ms), EdgesAfter(ms))
  {
    if ms != [] {
      var init, m := ms[..|ms| - 1], ms[|ms| - 1];
      PathsKeepTheGraph(init);
      assert m in ms;
      if m.EdgeWrite? { WrittenStep(GraphAfter(init), EdgesAfter(init), m.write); }
    }
  }

  lemma OnlyAppendTouchesLive(s: System, step: Step)
    ensures Next(s, step).db.live ==
            if step.Append? && WellFormed(step.request)
            then var e := EventFor(step.request, s.db.counter + 1, step.now); s.db.live[RefOf(e) := RowOf(e)]
            else s.db.live
  {
  }

  lemma MoveRefines(s: System, key: Keys, edges: map<Triple, Json>, m: Move)
    requires AreKeys(key) && Allowed(m) && Refines(s.db.live, key, edges)
    ensures Refines(Next(s, StepOf(key, m)).db.live, key,
                    if m.EdgeWrite? then Apply(edges, TripleWrite(m.write)) else edges)
  {
    OnlyAppendTouchesLive(s, StepOf(key, m));
    match m
    case EdgeWrite(w, now) =>
      WriteRefines(s.db.live, key, edges, TripleWrite(w), s.db.counter + 1, now);
    case Other(step) =>
      if step.Append? && WellFormed(step.request) {
        OtherWritesKeepEdges(s.db.live, key, edges, EventFor(step.request, s.db.counter + 1, step.now));
      }
  }

  /** In every reachable state the live table holds exactly the edges related and not unrelated since. */
  lemma {:induction false} RunsRefineTheGraph(key: Keys, ms: seq<Move>)
    requires AreKeys(key) && forall m :: m in ms ==> Allowed(m)
    ensures Refines(Run(StepsOf(key, ms)).db.live, key, EdgesAfter(ms))
    ensures DistinctRows(Run(StepsOf(key, ms)).db.live, Run(StepsOf(key, ms)).db.counter)
  {
    LiveRowsAreDistinct(StepsOf(key, ms));
    if ms != [] {
      var init, m := ms[..|ms| - 1], ms[|ms| - 1];
      RunsRefineTheGraph(key, init);
      var steps := StepsOf(key, init);
      assert (steps + [StepOf(key, m)])[..|steps|] == steps;
      assert m in ms;
      MoveRefines(Run(steps), key, EdgesAfter(init), m);
    }
  }

  lemma RowsOfLogAreDistinct(log: seq<Event>)
    requires Numbered(log)
    ensures DistinctRows(LiveOf(log), |log|)
  {
    var live := LiveOf(log);
    forall a | a in live ensures 1 <= live[a].seqNo <= |log| && RefOf(log[live[a].seqNo - 1]) == a {
      RowPointsIntoLog(log, a);
    }
    PointersAreDistinct(live, log);
  }

  lemma PointersAreDistinct(live: map<Ref, Row>, log: seq<Event>)
    requires forall a :: a in live ==> 1 <= live[a].seqNo <= |log| && RefOf(log[live[a].seqNo - 1]) == a
    ensures DistinctRows(live, |log|)
  {
  }

  lemma {:induction false} RowPointsIntoLog(log: seq<Event>, a: Ref)
    requires Numbered(log) && a in LiveOf(log)
    ensures var n := LiveOf(log)[a].seqNo; 1 <= n <= |log| && RefOf(log[n - 1]) == a
  {
    var last := log[|log| - 1];
    if a != RefOf(last) {
      RowPointsIntoLog(log[..|log| - 1], a);
    }
  }

  lemma LiveRowsAreDistinct(steps: seq<Step>)
    ensures DistinctRows(Run(steps).db.live, Run(steps).db.counter)
  {
    InvHolds(steps);
    RowsOfLogAreDistinct(Run(steps).log);
  }

  predicate LinkTouches(l: Link, node: Node, types: seq<string>, direction: Direction) {
    (types == [] || l.typ in types)
    && match direction
       case In => l.to == node
       case Both => l.from == node || l.to == node
       case Out => l.from == node
  }

  lemma TouchesByNode(l: Link, node: Node, types: seq<string>, direction: Direction)
    requires SlashFree(l) && '/' !in node.collection
    ensures Touches(TripleOf(l), NodePath(node), types, direction) <==> LinkTouches(l, node, types, direction)
  {
    if NodePath(l.from) == NodePath(node) {
      PathIsInjective(l.from.collection, l.from.key, node.collection, node.key);
    }
    if NodePath(l.to) == NodePath(node) {
      PathIsInjective(l.to.collection, l.to.key, node.collection, node.key);
    }
  }

  /** RELATED after any such run returns, once, each edge that touches the node and was last written by a RELATE, with
      the properties that RELATE gave, and no other. */
  lemma RelatedAnswersTheGraph(key: Keys, ms: seq<Move>, all: seq<Edge>, node: Node, types: seq<string>,
        direction: Direction)
    requires AreKeys(key) && '/' !in node.collection && forall m :: m in ms ==> Allowed(m)
    requires IsScan(all, Run(StepsOf(key, ms)).db.live, NodePath(node), types, direction)
    ensures forall l :: SlashFree(l) ==>
              (Lists(all, TripleOf(l)) <==>
               LinkTouches(l, node, types, direction) && exists i :: LastWrites(ms, l, i) && ms[i].write.Tie?)
    ensures forall e :: e in all ==>
              exists l :: e.triple == TripleOf(l) && e.props.Some? && TiedTo(ms, l, e.props.value)
    ensures forall i, j :: 0 <= i < j < |all| ==> all[i].triple != all[j].triple
  {
    RunsRefineTheGraph(key, ms);
    PathsKeepTheGraph(ms);
    var g, edges := GraphAfter(ms), EdgesAfter(ms);
    RelatedIsTheGraph(all, Run(StepsOf(key, ms)).db.live, key, edges, NodePath(node), types, direction);
    forall l | SlashFree(l) ensures Lists(all, TripleOf(l)) <==> l in g && LinkTouches(l, node, types, direction) {
      TouchesByNode(l, node, types, direction);
      InByPath(g, edges, l);
    }
    forall l ensures l in g <==> exists i :: LastWrites(ms, l, i) && ms[i].write.Tie? {
      InGraphIff(ms, l);
    }
    forall e | e in all ensures exists l :: e.triple == TripleOf(l) && e.props.Some? && TiedTo(ms, l, e.props.value) {
      var l :| l in g && TripleOf(l) == e.triple;
      GraphIsLastWrites(ms, l, g[l]);
    }
  }

  lemma InGraphIff(ms: seq<Move>, l: Link)
    ensures l in GraphAfter(ms) <==> exists i :: LastWrites(ms, l, i) && ms[i].write.Tie?
  {
    if l in GraphAfter(ms) { GraphIsLastWrites(ms, l, GraphAfter(ms)[l]); }
    if i :| LastWrites(ms, l, i) && ms[i].write.Tie? {
      var v := if ms[i].write.props.Some? then ms[i].write.props.value else Obj(map[]);
      assert TiedTo(ms, l, v);
      GraphIsLastWrites(ms, l, v);
    }
  }

  lemma InByPath(g: map<Link, Json>, edges: map<Triple, Json>, l: Link)
    requires Written(g, edges) && SlashFree(l)
    ensures l in g <==> TripleOf(l) in edges
  {
    if TripleOf(l) in edges {
      var m :| m in g && TripleOf(m) == TripleOf(l);
      TripleOfIsInjective(l, m);
    }
  }

  // ---- the live path against the replay path ----

  /** Edge writes take their valid time from the commit time. */
  ghost predicate EdgeTimesAgree(log: seq<Event>) {
    forall e :: e in log && e.collection == EDGES ==> e.validFrom == e.txTime
  }

  lemma {:induction false} EdgeTimesHold(key: Keys, ms: seq<Move>)
    requires forall m :: m in ms ==> Allowed(m)
    ensures EdgeTimesAgree(Run(StepsOf(key, ms)).log)
  {
    if ms != [] {
      var init, m := ms[..|ms| - 1], ms[|ms| - 1];
      EdgeTimesHold(key, init);
      var steps := StepsOf(key, init);
      assert (steps + [StepOf(key, m)])[..|steps|] == steps;
      assert m in ms;
    }
  }

  lemma NoPurgeSteps(key: Keys, ms: seq<Move>)
    requires forall m :: m in ms ==> m.Other? ==> !m.step.PurgeTable? && !m.step.PurgeSink?
    ensures NoPurge(StepsOf(key, ms))
  {
    if ms != [] {
      var init, m := ms[..|ms| - 1], ms[|ms| - 1];
      NoPurgeSteps(key, init);
      assert m in ms;
    }
  }

  lemma ChronologicalKeysAreDatedLast(log: seq<Event>, k: string)
    requires Numbered(log) && Chronological(log) && EdgeTimesAgree(log)
    ensures NewestDatedLast(Select(log, OfKey(Ref(EDGES, k))))
  {
    var h := Select(log, OfKey(Ref(EDGES, k)));
    SelectMembers(log, OfKey(Ref(EDGES, k)));
    SelectIncreasing(log, OfKey(Ref(EDGES, k)));
    if h != [] {
      var last := h[|h| - 1];
      assert last in h;
      forall x | x in h ensures x.validFrom <= last.validFrom {
        assert x.seqNo <= last.seqNo;
        LaterSeqIsLater(log, x, last);
      }
    }
  }

  lemma EdgesAreDatedLast(log: seq<Event>)
    requires Numbered(log) && Chronological(log) && EdgeTimesAgree(log)
    ensures forall k :: NewestDatedLast(Select(log, OfKey(Ref(EDGES, k))))
  {
    forall k ensures NewestDatedLast(Select(log, OfKey(Ref(EDGES, k)))) {
      ChronologicalKeysAreDatedLast(log, k);
    }
  }

  lemma LaterSeqIsLater(log: seq<Event>, x: Event, y: Event)
    requires Numbered(log) && Chronological(log) && x in log && y in log && x.seqNo <= y.seqNo
    ensures x.txTime <= y.txTime
  {
    var i :| 0 <= i < |log| && log[i] == x;
    var j :| 0 <= j < |log| && log[j] == y;
  }

  /** Under a clock that never goes back and without purges, RELATED and RELATED AS OF any moment no commit lies after,
      or the zero time, return the same edges. */
  lemma RelatedAgreesWithReplay(key: Keys, ms: seq<Move>, all: seq<Edge>, replay: seq<Event>, validAt: Instant,
                                node: string, types: seq<string>, direction: Direction)
    requires AreKeys(key) && forall m :: m in ms ==> Allowed(m)
    requires NoPurge(StepsOf(key, ms)) && Steady(StepsOf(key, ms))
    requires validAt != Instants.ZERO ==> forall e :: e in Run(StepsOf(key, ms)).log ==> e.txTime <= validAt
    requires IsScan(all, Run(StepsOf(key, ms)).db.live, node, types, direction)
    requires IsReplay(replay, Run(StepsOf(key, ms)).db, EDGES, None, Instants.Given(validAt))
    ensures EdgesAreReadable(all)
    ensures forall x :: x in all <==> x in EdgesFrom(replay, node, types, direction)
  {
    var s := Run(StepsOf(key, ms));
    PrefixHolds(StepsOf(key, ms));
    ClockHolds(StepsOf(key, ms));
    EdgeTimesHold(key, ms);
    RunsRefineTheGraph(key, ms);
    EdgesAreDatedLast(s.log);
    ReplayIsLive(s.log, EDGES, Instants.Given(validAt), replay);
    ScanIsReadable(s.db, all, node, types, direction);
    SameEdges(s.db, key, EdgesAfter(ms), all, replay, node, types, direction);
  }

  lemma ScanIsReadable(db: Database, all: seq<Edge>, node: string, types: seq<string>, direction: Direction)
    requires IsScan(all, db.live, node, types, direction) && forall k :: GetResult(db, Ref(EDGES, k)).Ok?
    ensures EdgesAreReadable(all)
  {
    forall x | x in all ensures ReadableTimes(x.validFrom, x.txTime) {
      var ref :| Hit(x, db.live, ref, node, types, direction);
      assert GetResult(db, Ref(EDGES, ref.key)).Ok?;
    }
  }

  lemma HitIsReplayed(db: Database, key: Keys, edges: map<Triple, Json>, ref: Ref, x: Edge,
                      node: string, types: seq<string>, direction: Direction)
    requires Refines(db.live, key, edges) && Hit(x, db.live, ref, node, types, direction)
    ensures GetOf(db, ref).Some?
    ensures var e := GetOf(db, ref).value; Touches(TripleIn(e.meta), node, types, direction) && x == EventEdge(e)
  {
    assert Covered(db.live, key, edges);
    var t :| t in edges && ref == RefFor(key, t);
    MetaRoundTrip(t);
  }

  lemma ReplayedIsHit(db: Database, key: Keys, edges: map<Triple, Json>, e: Event,
                      node: string, types: seq<string>, direction: Direction)
    requires Refines(db.live, key, edges) && e.collection == EDGES && GetOf(db, RefOf(e)) == Some(e)
    requires Touches(TripleIn(e.meta), node, types, direction)
    ensures Hit(EventEdge(e), db.live, RefOf(e), node, types, direction)
  {
    assert Covered(db.live, key, edges);
    var t :| t in edges && RefOf(e) == RefFor(key, t);
    MetaRoundTrip(t);
  }

  lemma SameEdges(db: Database, key: Keys, edges: map<Triple, Json>, all: seq<Edge>, replay: seq<Event>,
                  node: string, types: seq<string>, direction: Direction)
    requires Refines(db.live, key, edges)
    requires IsScan(all, db.live, node, types, direction)
    requires forall e :: e in replay <==> e.collection == EDGES && GetOf(db, RefOf(e)) == Some(e)
    ensures forall x :: x in all <==> x in EdgesFrom(replay, node, types, direction)
  {
    EdgesFromMembers(replay, node, types, direction);
    forall x | x in all ensures x in EdgesFrom(replay, node, types, direction) {
      var ref :| Hit(x, db.live, ref, node, types, direction);
      HitIsReplayed(db, key, edges, ref, x, node, types, direction);
      assert GetOf(db, ref).value in replay;
    }
    forall x | x in EdgesFrom(replay, node, types, direction) ensures x in all {
      var e :| e in replay && Touches(TripleIn(e.meta), node, types, direction) && x == EventEdge(e);
      ReplayedIsHit(db, key, edges, e, node, types, direction);
    }
  }
}
