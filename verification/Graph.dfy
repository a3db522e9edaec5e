/** internal/graph/graph.go: typed edges kept in the event log under hashed keys. */
module Graph {
  import opened Wrappers
  import opened Json
  import opened Sorting
  import opened Temporal
  import opened EventStore
  import opened Paging
  import Instants
  import Rendering
  import opened Utf8
  import Strings

  const EDGES := "__edges__"

  /** Two nodes, written "<collection>/<key>", and the edge type between them. */
  datatype Triple = Triple(from: string, typ: string, to: string)

  datatype Edge = Edge(triple: Triple, props: Option<Json>, seqNo: int, validFrom: Instant, txTime: Instant)

  datatype Direction = Out | In | Both

  predicate EdgesAreReadable(es: seq<Edge>) { forall e :: e in es ==> ReadableTimes(e.validFrom, e.txTime) }

  function Path(collection: string, key: string): string { collection + "/" + key }

  /** Collections never hold a slash, so a path names one collection and one key. */
  lemma {:induction false} PathIsInjective(c: string, k: string, d: string, l: string)
    requires Path(c, k) == Path(d, l) && '/' !in c && '/' !in d
    ensures c == d && k == l
  {
    assert c != "" ==> Path(c, k)[0] == c[0];
    assert d != "" ==> Path(d, l)[0] == d[0];
    if c == "" || d == "" {
      assert Path(c, k)[|c|] == '/' && Path(d, l)[|d|] == '/';
      assert k == Path(c, k)[|c| + 1..] && l == Path(d, l)[|d| + 1..];
    } else {
      assert Path(c, k)[1..] == Path(c[1..], k) && Path(d, l)[1..] == Path(d[1..], l);
      PathIsInjective(c[1..], k, d[1..], l);
      assert c == [c[0]] + c[1..] && d == [d[0]] + d[1..];
    }
  }

  // ---- edge keys ----

  const WRAP := 0x1_0000_0000

  /** binary.BigEndian.PutUint32(uint32(n)). */
  function BigEndian32(n: nat): Bytes {
    var w := n % WRAP;
    [w / 0x100 / 0x100 / 0x100, w / 0x100 / 0x100 % 0x100, w / 0x100 % 0x100, w % 0x100]
  }

  function Field(s: string): Bytes { BigEndian32(|Encode(s)|) + Encode(s) }

  /** What edgeKey hashes. */
  function EdgeBytes(t: Triple): Bytes { Field(t.from) + Field(t.typ) + Field(t.to) }

  ghost predicate Short(t: Triple) {
    |Encode(t.from)| < WRAP && |Encode(t.typ)| < WRAP && |Encode(t.to)| < WRAP
  }

  lemma LengthDecodes(n: nat)
    requires n < WRAP
    ensures var b := BigEndian32(n); ((b[0] * 0x100 + b[1]) * 0x100 + b[2]) * 0x100 + b[3] == n
  {
  }

  lemma FieldIsSelfDelimiting(s: string, x: Bytes, t: string, y: Bytes)
    requires |Encode(s)| < WRAP && |Encode(t)| < WRAP && Field(s) + x == Field(t) + y
    ensures s == t && x == y
  {
    var a, b := Field(s) + x, Field(t) + y;
    LengthDecodes(|Encode(s)|);
    LengthDecodes(|Encode(t)|);
    assert BigEndian32(|Encode(s)|) == a[..4] == b[..4] == BigEndian32(|Encode(t)|);
    var n := |Encode(s)|;
    assert Encode(s) == a[4..4 + n] && Encode(t) == b[4..4 + n];
    assert x == a[4 + n..] && y == b[4 + n..];
    EncodeIsInjective(s, t);
  }

  /** Whatever characters the components hold, distinct triples never hash the same bytes. */
  lemma EdgeBytesAreInjective(t: Triple, u: Triple)
    requires Short(t) && Short(u) && EdgeBytes(t) == EdgeBytes(u)
    ensures t == u
  {
    assert EdgeBytes(t) == Field(t.from) + (Field(t.typ) + Field(t.to));
    assert EdgeBytes(u) == Field(u.from) + (Field(u.typ) + Field(u.to));
    FieldIsSelfDelimiting(t.from, Field(t.typ) + Field(t.to), u.from, Field(u.typ) + Field(u.to));
    FieldIsSelfDelimiting(t.typ, Field(t.to), u.typ, Field(u.to));
    assert Field(t.to) + [] == Field(t.to) && Field(u.to) + [] == Field(u.to);
    FieldIsSelfDelimiting(t.to, [], u.to, []);
  }

  // ---- how long components may be ----

  /** What RELATE and UNRELATE can name: identifier collections and edge types, and any keys at all. */
  ghost predicate FromTql(t: Triple) {
    Rendering.IsIdent(t.typ) && IsNodePath(t.from) && IsNodePath(t.to)
  }

  ghost predicate IsNodePath(p: string) { exists c, k :: Rendering.IsIdent(c) && p == Path(c, k) }

  ghost predicate Within(t: Triple, bound: nat) {
    |Encode(t.from)| < bound && |Encode(t.typ)| < bound && |Encode(t.to)| < bound
  }

  ghost predicate Nameable(t: Triple, bound: nat) { FromTql(t) && Within(t, bound) }

  lemma NodePathLength(p: string)
    requires IsNodePath(p)
    ensures |Encode(p)| >= 2
  {
    EncodeIsNotShorter(p);
  }

  lemma LengthByteEquality(m: nat, n: nat)
    requires BigEndian32(m) == BigEndian32(n)
    ensures m % WRAP == n % WRAP
  {
    LengthDecodes(m % WRAP);
    LengthDecodes(n % WRAP);
  }

  lemma FieldSplits(s: string, x: Bytes, t: string, y: Bytes)
    requires Field(s) + x == Field(t) + y
    ensures |Encode(s)| % WRAP == |Encode(t)| % WRAP
    ensures |Encode(s)| == |Encode(t)| ==> s == t && x == y
  {
    var a, b, n := Field(s) + x, Field(t) + y, |Encode(s)|;
    assert BigEndian32(n) == a[..4] == b[..4] == BigEndian32(|Encode(t)|);
    LengthByteEquality(n, |Encode(t)|);
    if n == |Encode(t)| {
      assert Encode(s) == a[4..4 + n] && Encode(t) == b[4..4 + n];
      assert x == a[4 + n..] && y == b[4 + n..];
      EncodeIsInjective(s, t);
    }
  }

  lemma InjectiveWithin(t: Triple, u: Triple, bound: nat)
    requires FromTql(t) && FromTql(u) && Within(t, bound) && Within(u, bound) && bound <= WRAP + 2
    requires EdgeBytes(t) == EdgeBytes(u)
    ensures t == u
  {
    LengthsWithin(t, bound);
    LengthsWithin(u, bound);
    FromFirst(t);
    FromFirst(u);
    NodeInjective(t.from, Field(t.typ) + Field(t.to), u.from, Field(u.typ) + Field(u.to));
    RestInjective(t.typ, t.to, u.typ, u.to);
  }

  lemma FromFirst(t: Triple)
    ensures EdgeBytes(t) == Field(t.from) + (Field(t.typ) + Field(t.to))
  {
  }

  lemma NodeInjective(s: string, x: Bytes, t: string, y: Bytes)
    requires Field(s) + x == Field(t) + y && 2 <= |Encode(s)| < WRAP + 2 && 2 <= |Encode(t)| < WRAP + 2
    ensures s == t && x == y
  {
    FieldSplits(s, x, t, y);
    CongruentWithin(|Encode(s)|, |Encode(t)|);
  }

  lemma LengthsWithin(t: Triple, bound: nat)
    requires FromTql(t) && Within(t, bound) && bound <= WRAP + 2
    ensures 2 <= |Encode(t.from)| < WRAP + 2 && 1 <= |Encode(t.typ)| < WRAP + 2 && 2 <= |Encode(t.to)| < WRAP + 2
  {
    NodePathLength(t.from);
    NodePathLength(t.to);
    EncodeIsNotShorter(t.typ);
  }

  lemma RestInjective(typ: string, to: string, typ': string, to': string)
    requires Field(typ) + Field(to) == Field(typ') + Field(to')
    requires 1 <= |Encode(typ)| < WRAP + 2 && 1 <= |Encode(typ')| < WRAP + 2
    requires 2 <= |Encode(to)| < WRAP + 2 && 2 <= |Encode(to')| < WRAP + 2
    ensures typ == typ' && to == to'
  {
    FieldSplits(typ, Field(to), typ', Field(to'));
    assert |Field(typ) + Field(to)| == 8 + |Encode(typ)| + |Encode(to)|;
    assert |Field(typ') + Field(to')| == 8 + |Encode(typ')| + |Encode(to')|;
    SameTotal(|Encode(typ)|, |Encode(to)|, |Encode(typ')|, |Encode(to')|);
    assert Field(to) + [] == Field(to) && Field(to') + [] == Field(to');
    FieldSplits(to, [], to', []);
  }

  lemma CongruentWithin(m: nat, n: nat)
    requires 2 <= m < WRAP + 2 && 2 <= n < WRAP + 2 && m % WRAP == n % WRAP
    ensures m == n
  {
  }

  lemma SameTotal(y: nat, o: nat, y': nat, o': nat)
    requires 1 <= y < WRAP + 2 && 1 <= y' < WRAP + 2 && 2 <= o < WRAP + 2 && 2 <= o' < WRAP + 2
    requires y % WRAP == y' % WRAP && y + o == y' + o'
    ensures y == y' && o == o'
  {
  }

  /** A key that spells out the rest of another edge: the length and text of its type and the wrapped length of its
      node. */
  const SPELLED: string := ['\0', '\0', '\0', '\U{1}', 'e', '\0', '\0', '\0', '\U{2}']

  lemma SpelledBytes(e: string)
    requires e == "e"
    ensures Encode(SPELLED) == Field(e) + BigEndian32(2)
  {
    AsciiIsItself(SPELLED);
    AsciiIsItself(e);
    assert Encode(SPELLED) == [0, 0, 0, 1, 101, 0, 0, 0, 2];
    assert Field(e) == [0, 0, 0, 1, 101] && BigEndian32(2) == [0, 0, 0, 2];
  }

  /** Two edges that RELATE can name and that hash the same bytes: nodes of 2^32 + 2 bytes, whose length wraps to 2. */
  lemma WrappedLengthsCollide(filler: string, t: Triple, u: Triple, c: string, e: string)
    requires c == "c" && e == "e" && filler == seq(WRAP - 11, _ => '\0')
    requires t == Triple(Path(c, SPELLED + Path(c, filler)), e, Path(c, ""))
    requires u == Triple(Path(c, ""), e, Path(c, filler + SPELLED + Path(c, "")))
    ensures FromTql(t) && FromTql(u) && Within(t, WRAP + 3) && Within(u, WRAP + 3)
    ensures t != u && EdgeBytes(t) == EdgeBytes(u)
  {
    NodeBytes(c, filler);
    LongNodes(c, filler, SPELLED);
    SpelledBytes(e);
    CollidingBytes(t, u, Encode(Path(c, "")), Field(e), Encode(Path(c, filler)));
    CollidersAreNamed(t, u, c, e, SPELLED + Path(c, filler), filler + SPELLED + Path(c, ""));
  }

  lemma CollidersAreNamed(t: Triple, u: Triple, c: string, e: string, k: string, l: string)
    requires c == "c" && e == "e" && t == Triple(Path(c, k), e, Path(c, "")) && u == Triple(Path(c, ""), e, Path(c, l))
    ensures FromTql(t) && FromTql(u) && |Encode(e)| == 1
  {
    AsciiIsItself(e);
    assert IsNodePath(t.from) && IsNodePath(u.from) && IsNodePath(t.to) && IsNodePath(u.to);
  }

  lemma CollidingBytes(t: Triple, u: Triple, node: Bytes, e: Bytes, y: Bytes)
    requires |node| == 2 && |e| == 5 && |y| == WRAP - 9
    requires Encode(t.from) == node + (e + BigEndian32(2)) + y && Field(t.typ) == e && Encode(t.to) == node
    requires Encode(u.from) == node && Field(u.typ) == e && Encode(u.to) == y + (e + BigEndian32(2)) + node
    ensures EdgeBytes(t) == EdgeBytes(u) && t != u && |Encode(t.from)| == |Encode(u.to)| == WRAP + 2
  {
    assert BigEndian32(WRAP + 2) == BigEndian32(2);
    SameBytes(node, e, BigEndian32(2), y);
  }

  lemma LongNodes(c: string, filler: string, spelled: string)
    ensures Encode(Path(c, spelled + Path(c, filler)))
         == Encode(Path(c, "")) + Encode(spelled) + Encode(Path(c, filler))
    ensures Encode(Path(c, filler + spelled + Path(c, "")))
         == Encode(Path(c, filler)) + Encode(spelled) + Encode(Path(c, ""))
  {
    var node, y := Path(c, ""), Path(c, filler);
    assert node == c + "/";
    assert Path(c, spelled + y) == node + spelled + y && Path(c, filler + spelled + node) == y + spelled + node;
    EncodeConcat(node + spelled, y);
    EncodeConcat(node, spelled);
    EncodeConcat(y + spelled, node);
    EncodeConcat(y, spelled);
  }

  lemma NodeBytes(c: string, filler: string)
    requires c == "c" && filler == seq(WRAP - 11, _ => '\0')
    ensures |Encode(Path(c, ""))| == 2 && |Encode(Path(c, filler))| == WRAP - 9
  {
    AsciiIsItself(Path(c, ""));
    AsciiIsItself(Path(c, filler));
  }

  lemma SameBytes(node: Bytes, e: Bytes, two: Bytes, y: Bytes)
    ensures two + (node + (e + two) + y) + e + (two + node) == two + node + e + (two + (y + (e + two) + node))
  {
  }

  /** How long a component may be before the keys of two edges can collide: the hashed bytes tell all edges that RELATE
      can name, with components of fewer than bound bytes, apart if and only if bound is at most 2^32 + 2. */
  lemma EdgeBytesInjectiveIff(bound: nat)
    ensures (forall t, u :: Nameable(t, bound) && Nameable(u, bound) && EdgeBytes(t) == EdgeBytes(u) ==> t == u)
       <==> bound <= WRAP + 2
  {
    if bound <= WRAP + 2 {
      forall t, u | Nameable(t, bound) && Nameable(u, bound) && EdgeBytes(t) == EdgeBytes(u) ensures t == u {
        InjectiveWithin(t, u, bound);
      }
    } else {
      var c, filler := "c", seq(WRAP - 11, _ => '\0');
      var t := Triple(Path(c, SPELLED + Path(c, filler)), "e", Path(c, ""));
      var u := Triple(Path(c, ""), "e", Path(c, filler + SPELLED + Path(c, "")));
      WrappedLengthsCollide(filler, t, u, c, "e");
    }
  }

  type Hash = Bytes -> string

  /** SHA-256 in hex, taken to be collision-free; a digest is never empty. */
  ghost predicate IsDigest(hash: Hash) {
    && (forall a, b :: hash(a) == hash(b) ==> a == b)
    && (forall a :: hash(a) != "")
  }

  function KeyOf(hash: Hash, t: Triple): string { hash(EdgeBytes(t)) }

  function Fields(parts: seq<string>): Bytes {
    if parts == [] then [] else Fields(parts[..|parts| - 1]) + Field(parts[|parts| - 1])
  }

  lemma ThreeFields(t: Triple)
    ensures Fields([t.from, t.typ, t.to]) == EdgeBytes(t)
  {
    var p := [t.from, t.typ, t.to];
    assert p[..2] == [t.from, t.typ] && p[..2][..1] == [t.from] && [t.from][..0] == [];
    assert Fields([t.from]) == [] + Field(t.from) == Field(t.from);
  }

  /** edgeKey: feed each component's length and bytes to the hash in turn. */
  method EdgeKey(hash: Hash, from: string, typ: string, to: string) returns (key: string)
    ensures key == KeyOf(hash, Triple(from, typ, to))
  {
    var written: Bytes := [];
    var parts := [from, typ, to];
    for i := 0 to |parts|
      invariant written == Fields(parts[..i])
    {
      assert parts[..i + 1][..i] == parts[..i];
      written := written + (BigEndian32(|Encode(parts[i])|) + Encode(parts[i]));
    }
    assert parts[..|parts|] == parts;
    ThreeFields(Triple(from, typ, to));
    key := hash(written);
  }

  /** How edges are keyed; the graph needs only that distinct triples get distinct keys. */
  type Keys = Triple -> string

  ghost predicate AreKeys(key: Keys) {
    && (forall t, u :: Short(t) && Short(u) && key(t) == key(u) ==> t == u)
    && (forall t :: key(t) != "")
  }

  /** A collision-free hash of the edge bytes keeps all triples apart. */
  lemma EdgeKeysAreKeys(hash: Hash, key: Keys)
    requires IsDigest(hash) && forall t :: key(t) == KeyOf(hash, t)
    ensures AreKeys(key)
  {
    forall t, u | Short(t) && Short(u) && key(t) == key(u) ensures t == u {
      assert EdgeBytes(t) == EdgeBytes(u);
      EdgeBytesAreInjective(t, u);
    }
  }

  // ---- the log of edges refines a set of edges ----

  function MetaOf(t: Triple): Json {
    Obj(map["from" := Str(t.from), "type" := Str(t.typ), "to" := Str(t.to)])
  }

  function RefFor(key: Keys, t: Triple): Ref { Ref(EDGES, key(t)) }

  ghost predicate IsEdgeRow(row: Row, t: Triple, props: Json) {
    !row.deleted && row.meta == MetaOf(t) && row.value == Some(props)
  }

  ghost predicate Stored(live: map<Ref, Row>, key: Keys, edges: map<Triple, Json>) {
    forall t :: t in edges ==> Short(t) && RefFor(key, t) in live && IsEdgeRow(live[RefFor(key, t)], t, edges[t])
  }

  ghost predicate Covered(live: map<Ref, Row>, key: Keys, edges: map<Triple, Json>) {
    forall ref :: ref in live && ref.collection == EDGES && !live[ref].deleted ==>
          exists t :: t in edges && ref == RefFor(key, t)
  }

  /** live holds exactly the edges of a graph, each under its own key. */
  ghost predicate Refines(live: map<Ref, Row>, key: Keys, edges: map<Triple, Json>) {
    Stored(live, key, edges) && Covered(live, key, edges)
  }

  datatype Write = Relate(triple: Triple, props: Option<Json>) | Unrelate(triple: Triple)

  /** The properties given, or the empty object. */
  function PropsOf(props: Option<Json>): Json { if props.None? then Obj(map[]) else props.value }

  /** The Append call behind Relate and Unrelate. */
  function RequestFor(key: Keys, w: Write): Request {
    match w
    case Relate(t, props) => Request(EDGES, key(t), Put, Some(PropsOf(props)), Some(MetaOf(t)), None)
    case Unrelate(t) => Request(EDGES, key(t), Delete, None, None, None)
  }

  function Apply(edges: map<Triple, Json>, w: Write): map<Triple, Json> {
    match w
    case Relate(t, props) => edges[t := PropsOf(props)]
    case Unrelate(t) => edges - {t}
  }

  lemma PutRefines(live: map<Ref, Row>, key: Keys, edges: map<Triple, Json>, t: Triple, props: Json, row: Row)
    requires AreKeys(key) && Refines(live, key, edges) && Short(t) && IsEdgeRow(row, t, props)
    ensures Refines(live[RefFor(key, t) := row], key, edges[t := props])
  {
    var live', edges' := live[RefFor(key, t) := row], edges[t := props];
    assert Stored(live', key, edges') by {
      assert forall u :: u in edges && u != t ==> RefFor(key, u) != RefFor(key, t);
    }
    PutCovers(live, key, edges, t, props, row);
  }

  lemma PutCovers(live: map<Ref, Row>, key: Keys, edges: map<Triple, Json>, t: Triple, props: Json, row: Row)
    requires Covered(live, key, edges)
    ensures Covered(live[RefFor(key, t) := row], key, edges[t := props])
  {
    var live', edges' := live[RefFor(key, t) := row], edges[t := props];
    forall ref | ref in live' && ref.collection == EDGES && !live'[ref].deleted
      ensures exists u :: u in edges' && ref == RefFor(key, u)
    {
      if ref == RefFor(key, t) {
        assert t in edges';
      } else {
        var u :| u in edges && ref == RefFor(key, u);
        assert u in edges';
      }
    }
  }

  lemma DropRefines(live: map<Ref, Row>, key: Keys, edges: map<Triple, Json>, t: Triple, row: Row)
    requires AreKeys(key) && Refines(live, key, edges) && Short(t) && row.deleted
    ensures Refines(live[RefFor(key, t) := row], key, edges - {t})
  {
    var live', edges' := live[RefFor(key, t) := row], edges - {t};
    assert Stored(live', key, edges') by {
      assert forall u :: u in edges && u != t ==> RefFor(key, u) != RefFor(key, t);
    }
    assert Covered(live', key, edges') by {
      forall ref | ref in live' && ref.collection == EDGES && !live'[ref].deleted
        ensures exists u :: u in edges' && ref == RefFor(key, u)
      {
        var u :| u in edges && ref == RefFor(key, u);
        assert u in edges';
      }
    }
  }

  /** Committing a Relate or Unrelate does to the stored edges what it says. */
  lemma WriteRefines(live: map<Ref, Row>, key: Keys, edges: map<Triple, Json>, w: Write, seqNo: int, now: Instant)
    requires AreKeys(key) && Refines(live, key, edges) && Short(w.triple)
    ensures var e := EventFor(RequestFor(key, w), seqNo, now);
            Refines(live[RefOf(e) := RowOf(e)], key, Apply(edges, w))
  {
    var e := EventFor(RequestFor(key, w), seqNo, now);
    match w
    case Relate(t, props) => PutRefines(live, key, edges, t, PropsOf(props), RowOf(e));
    case Unrelate(t) => DropRefines(live, key, edges, t, RowOf(e));
  }

  /** A commit to another collection leaves the edges alone. */
  lemma OtherWritesKeepEdges(live: map<Ref, Row>, key: Keys, edges: map<Triple, Json>, e: Event)
    requires Refines(live, key, edges) && e.collection != EDGES
    ensures Refines(live[RefOf(e) := RowOf(e)], key, edges)
  {
    var live' := live[RefOf(e) := RowOf(e)];
    forall ref | ref in live' && ref.collection == EDGES && !live'[ref].deleted
      ensures exists t :: t in edges && ref == RefFor(key, t)
    {
      assert ref in live && live[ref] == live'[ref];
    }
  }

  /** Live rows carry the seqs of their events: distinct, and none past the counter. */
  ghost predicate DistinctRows(live: map<Ref, Row>, bound: int) {
    && (forall a, b :: a in live && b in live && live[a].seqNo == live[b].seqNo ==> a == b)
    && (forall a :: a in live ==> live[a].seqNo <= bound)
  }

  ghost predicate GraphInv(db: Database, key: Keys, edges: map<Triple, Json>) {
    AreKeys(key) && ValidDatabase(db) && DistinctRows(db.live, db.counter) && Refines(db.live, key, edges)
  }

  lemma WriteKeepsInv(db: Database, key: Keys, edges: map<Triple, Json>, w: Write, now: Instant)
    requires GraphInv(db, key, edges) && Short(w.triple)
    ensures GraphInv(Commit(db, EventFor(RequestFor(key, w), db.counter + 1, now)), key, Apply(edges, w))
  {
    WriteRefines(db.live, key, edges, w, db.counter + 1, now);
    CommitKeepsRows(db, EventFor(RequestFor(key, w), db.counter + 1, now));
  }

  lemma CommitKeepsRows(db: Database, e: Event)
    requires ValidDatabase(db) && DistinctRows(db.live, db.counter) && e.seqNo == db.counter + 1
    ensures ValidDatabase(Commit(db, e)) && DistinctRows(Commit(db, e).live, e.seqNo)
  {
  }

  // ---- queries ----

  /** json_extract(meta, '$.<name>') when it is text. */
  function MetaText(meta: Json, name: string): Option<string> {
    if meta.Obj? && name in meta.fields && meta.fields[name].Str? then Some(meta.fields[name].s) else None
  }

  function TextOr(s: Option<string>): string { if s.None? then "" else s.value }

  function TripleIn(meta: Json): Triple {
    Triple(TextOr(MetaText(meta, "from")), TextOr(MetaText(meta, "type")), TextOr(MetaText(meta, "to")))
  }

  /** directionClause: the SQL condition on meta. */
  predicate DirectionClause(meta: Json, direction: Direction, node: string) {
    match direction
    case In => MetaText(meta, "to") == Some(node)
    case Both => MetaText(meta, "from") == Some(node) || MetaText(meta, "to") == Some(node)
    case Out => MetaText(meta, "from") == Some(node)
  }

  predicate TypeClause(meta: Json, types: seq<string>) {
    types == [] || (MetaText(meta, "type").Some? && MetaText(meta, "type").value in types)
  }

  /** directionMatches: its in-memory twin. */
  predicate DirectionMatches(direction: Direction, t: Triple, node: string) {
    match direction
    case In => t.to == node
    case Both => t.from == node || t.to == node
    case Out => t.from == node
  }

  predicate TypeMatches(types: seq<string>, t: Triple) { types == [] || t.typ in types }

  predicate Touches(t: Triple, node: string, types: seq<string>, direction: Direction) {
    DirectionMatches(direction, t, node) && TypeMatches(types, t)
  }

  function EdgeOf(row: Row): Edge {
    Edge(TripleIn(row.meta), row.value, row.seqNo, row.validFrom, row.txTime)
  }

  predicate Selected(row: Row, node: string, types: seq<string>, direction: Direction) {
    !row.deleted && DirectionClause(row.meta, direction, node) && TypeClause(row.meta, types)
  }

  ghost predicate Hit(e: Edge, live: map<Ref, Row>, ref: Ref, node: string, types: seq<string>, direction: Direction) {
    ref in live && ref.collection == EDGES && Selected(live[ref], node, types, direction)
    && var row := live[ref]; e == Edge(TripleIn(row.meta), row.value, row.seqNo, row.validFrom, row.txTime)
  }

  /** The rows of Related's query, ORDER BY seq ASC. */
  ghost predicate IsScan(all: seq<Edge>, live: map<Ref, Row>, node: string, types: seq<string>, direction: Direction) {
    && (forall i, j :: 0 <= i < j < |all| ==> all[i].seqNo < all[j].seqNo)
    && (forall e :: e in all <==>
          exists ref :: Hit(e, live, ref, node, types, direction))
  }

  /** IsScan leaves no choice. */
  lemma ScanIsUnique(a: seq<Edge>, b: seq<Edge>, live: map<Ref, Row>, node: string, types: seq<string>,
        direction: Direction)
    requires IsScan(a, live, node, types, direction) && IsScan(b, live, node, types, direction)
    ensures a == b
  {
    StrictlySortedIsUnique(a, b, BySeqNo);
  }

  lemma MetaRoundTrip(t: Triple)
    ensures TripleIn(MetaOf(t)) == t
    ensures forall node, direction :: DirectionClause(MetaOf(t), direction, node) <==>
          DirectionMatches(direction, t, node)
    ensures forall types :: TypeClause(MetaOf(t), types) <==> TypeMatches(types, t)
  {
    var m := MetaOf(t);
    assert MetaText(m, "from") == Some(t.from) && MetaText(m, "type") == Some(t.typ) && MetaText(m, "to") == Some(t.to);
  }

  ghost predicate Lists(all: seq<Edge>, t: Triple) { exists e :: e in all && e.triple == t }

  /** Related, unpaged, returns each edge of the graph that touches the node in the given direction, with its
      properties, and returns it once. */
  lemma RelatedIsTheGraph(all: seq<Edge>, live: map<Ref, Row>, key: Keys, edges: map<Triple, Json>,
                          node: string, types: seq<string>, direction: Direction)
    requires AreKeys(key) && Refines(live, key, edges) && IsScan(all, live, node, types, direction)
    ensures forall t :: Lists(all, t) <==> t in edges && Touches(t, node, types, direction)
    ensures forall e :: e in all ==> e.triple in edges && e.props == Some(edges[e.triple])
    ensures forall i, j :: 0 <= i < j < |all| ==> all[i].triple != all[j].triple
  {
    forall e | e in all
      ensures e.triple in edges && Touches(e.triple, node, types, direction) && e == EdgeOf(live[RefFor(key, e.triple)])
           && e.props == Some(edges[e.triple])
    {
      var ref :| Hit(e, live, ref, node, types, direction);
      var t :| t in edges && ref == RefFor(key, t);
      MetaRoundTrip(t);
    }
    forall t | t in edges && Touches(t, node, types, direction) ensures Lists(all, t) {
      MetaRoundTrip(t);
      var e := EdgeOf(live[RefFor(key, t)]);
      assert Hit(e, live, RefFor(key, t), node, types, direction);
      assert e in all && e.triple == t;
    }
    forall i, j | 0 <= i < j < |all| ensures all[i].triple != all[j].triple {
      assert all[i] in all && all[j] in all;
    }
  }

  /** OUT of x and IN of y agree on every edge, and BOTH is their union. */
  lemma DirectionsAgree(outs: seq<Edge>, ins: seq<Edge>, both: seq<Edge>, live: map<Ref, Row>, key: Keys,
                        edges: map<Triple, Json>, x: string, y: string, types: seq<string>)
    requires AreKeys(key) && Refines(live, key, edges)
    requires IsScan(outs, live, x, types, Out) && IsScan(ins, live, y, types, In) && IsScan(both, live, x, types, Both)
    ensures forall t: Triple :: t.from == x && t.to == y ==> (Lists(outs, t) <==> Lists(ins, t))
    ensures x == y ==> forall t :: Lists(both, t) <==> Lists(outs, t) || Lists(ins, t)
    ensures forall i, j :: 0 <= i < j < |both| ==> both[i].triple != both[j].triple
  {
    RelatedIsTheGraph(outs, live, key, edges, x, types, Out);
    RelatedIsTheGraph(ins, live, key, edges, y, types, In);
    RelatedIsTheGraph(both, live, key, edges, x, types, Both);
  }

  // ---- the replay path ----

  function EventEdge(e: Event): Edge {
    Edge(TripleIn(e.meta), e.value, e.seqNo, e.validFrom, e.txTime)
  }

  function EdgesFrom(es: seq<Event>, node: string, types: seq<string>, direction: Direction): seq<Edge> {
    if es == [] then [] else
      EdgesFrom(es[..|es| - 1], node, types, direction)
      + if Touches(TripleIn(es[|es| - 1].meta), node, types, direction) then [EventEdge(es[|es| - 1])] else []
  }

  lemma {:induction false} EdgesFromPrefix(es: seq<Event>, i: nat, node: string, types: seq<string>,
                                           direction: Direction)
    requires i <= |es|
    ensures EdgesFrom(es[..i], node, types, direction) <= EdgesFrom(es, node, types, direction)
  {
    if i < |es| {
      assert es[..|es| - 1][..i] == es[..i];
      EdgesFromPrefix(es[..|es| - 1], i, node, types, direction);
    } else {
      assert es[..i] == es;
    }
  }

  lemma {:induction false} EdgesFromMembers(es: seq<Event>, node: string, types: seq<string>, direction: Direction)
    ensures forall x :: x in EdgesFrom(es, node, types, direction) <==>
              exists e :: e in es && Touches(TripleIn(e.meta), node, types, direction)
                          && x == Edge(TripleIn(e.meta), e.value, e.seqNo, e.validFrom, e.txTime)
  {
    if es != [] {
      EdgesFromMembers(es[..|es| - 1], node, types, direction);
      assert es == es[..|es| - 1] + [es[|es| - 1]];
    }
  }

  /** out is the window of the edges touching the node in the replayed edge collection. */
  ghost predicate ReplaysTo(replay: seq<Event>, db: Database, validAt: Option<Instant>, node: string,
                            types: seq<string>, direction: Direction, limit: nat, offset: nat, out: seq<Edge>) {
    && IsReplay(replay, db, EDGES, None, validAt)
    && out == Window(EdgesFrom(replay, node, types, direction), offset, limit)
  }

  // ---- the store ----

  predicate BySeqNo(a: Edge, b: Edge) { a.seqNo < b.seqNo }

  /** graph.Store over an event store; edges is the graph it stands for. */
  class GraphStore {
    const events: Store
    const hash: Hash
    ghost const key: Keys
    ghost var edges: map<Triple, Json>

    ghost predicate Valid()
      reads this, events
    {
      GraphInv(events.Db(), key, edges) && forall t :: key(t) == KeyOf(hash, t)
    }

    constructor (events: Store, hash: Hash)
      requires IsDigest(hash) && events.Db() == EMPTY
      ensures Valid() && this.events == events && this.hash == hash && edges == map[]
    {
      this.events, this.hash := events, hash;
      this.key, this.edges := t => KeyOf(hash, t), map[];
      new;
      EdgeKeysAreKeys(hash, key);
    }

    /** The Append call both writes end in. */
    method CommitWrite(w: Write, request: Request, now: Instant) returns (e: Event)
      requires Valid() && Short(w.triple) && request == RequestFor(key, w)
      modifies this`edges, events
      ensures Valid() && edges == Apply(old(edges), w)
      ensures e == EventFor(request, old(events.counter) + 1, now) && events.Db() == Commit(old(events.Db()), e)
    {
      ghost var db := events.Db();
      ghost var committed := EventFor(request, db.counter + 1, now);
      assert GraphInv(Commit(db, committed), key, Apply(edges, w)) by { WriteKeepsInv(db, key, edges, w, now); }
      assert WellFormed(request);
      var r := events.Append(request, now);
      assert events.Db() == Commit(db, committed);
      edges := Apply(edges, w);
      e := r.value;
    }

    method Relate(fromColl: string, fromKey: string, edgeType: string, toColl: string, toKey: string,
                  props: Option<Json>, now: Instant) returns (r: Edge)
      requires Valid() && Short(Triple(Path(fromColl, fromKey), edgeType, Path(toColl, toKey)))
      modifies this`edges, events
      ensures Valid() && r.triple == Triple(fromColl + "/" + fromKey, edgeType, toColl + "/" + toKey)
      ensures edges == old(edges)[r.triple := if props.None? then Obj(map[]) else props.value]
      ensures r.seqNo == old(events.counter) + 1 && r.validFrom == r.txTime == now
      ensures var meta := Obj(map["from" := Str(r.triple.from), "type" := Str(edgeType), "to" := Str(r.triple.to)]);
              events.live == old(events.live)[
                Ref("__edges__", key(r.triple)) := Row(r.props, now, now, false, r.seqNo, meta)]
      ensures props.Some? ==> r.props == props
      ensures props.None? ==> r.props == Some(Obj(map[]))
    {
      var t := Triple(fromColl + "/" + fromKey, edgeType, toColl + "/" + toKey);
      var value := if props.None? then Obj(map[]) else props.value;
      var k := EdgeKey(hash, t.from, t.typ, t.to);
      var request := Request(EDGES, k, Put, Some(value), Some(MetaOf(t)), None);
      assert request == RequestFor(key, Write.Relate(t, props));
      var e := CommitWrite(Write.Relate(t, props), request, now);
      return Edge(t, e.value, e.seqNo, e.validFrom, e.txTime);
    }

    method Unrelate(fromColl: string, fromKey: string, edgeType: string, toColl: string, toKey: string, now: Instant)
      requires Valid() && Short(Triple(Path(fromColl, fromKey), edgeType, Path(toColl, toKey)))
      modifies this`edges, events
      ensures Valid() && edges == old(edges) - {Triple(fromColl + "/" + fromKey, edgeType, toColl + "/" + toKey)}
    {
      var t := Triple(fromColl + "/" + fromKey, edgeType, toColl + "/" + toKey);
      var k := EdgeKey(hash, t.from, t.typ, t.to);
      assert k == key(t);
      var e := CommitWrite(Write.Unrelate(t), Request(EDGES, k, Delete, None, None, None), now);
    }

    /** SELECT ... FROM live WHERE <the clauses> ORDER BY seq ASC. */
    method QueryLive(node: string, types: seq<string>, direction: Direction) returns (all: seq<Edge>)
      requires DistinctRows(events.live, events.counter)
      ensures IsScan(all, events.live, node, types, direction)
    {
      var live := events.live;
      var todo, found: seq<Edge> := live.Keys, [];
      while todo != {}
        invariant todo <= live.Keys
        invariant Found(found, live, live.Keys - todo, node, types, direction)
      {
        var ref :| ref in todo;
        FoundNext(found, live, live.Keys - todo, ref, node, types, direction);
        if ref.collection == EDGES && Selected(live[ref], node, types, direction) {
          found := found + [EdgeOf(live[ref])];
        }
        assert live.Keys - (todo - {ref}) == live.Keys - todo + {ref};
        todo := todo - {ref};
      }
      assert live.Keys - {} == live.Keys;
      var a := new Edge[|found|](i requires 0 <= i < |found| => found[i]);
      assert a[..] == found;
      SortSlice(a, BySeqNo);
      ScanIsSorted(found, live, node, types, direction);
      all := a[..];
    }

    method Related(coll: string, k: string, types: seq<string>, direction: Direction, limit: nat, offset: nat)
      returns (r: Result<seq<Edge>>)
      requires Valid()
      ensures exists all :: IsScan(all, events.live, coll + "/" + k, types, direction)
                && r == ReadPage(Window(all, offset, limit))
    {
      var all := QueryLive(coll + "/" + k, types, direction);
      r := ParseEdges(Window(all, offset, limit));
    }

    /** A validAt that is the zero time counts as unset. */
    method RelatedAsOf(coll: string, k: string, types: seq<string>, direction: Direction, validAt: Instant,
                       limit: nat, offset: nat) returns (r: Result<seq<Edge>>)
      requires Valid()
      ensures r.Ok? <==> AllReadable(Select(events.events, OfCollection(EDGES)))
      ensures r.Ok? ==>
                exists replay :: ReplaysTo(replay, events.Db(), Instants.Given(validAt), coll + "/" + k, types,
                                           direction, limit, offset, r.value)
    {
      var node := coll + "/" + k;
      var evs := events.ReplayAsOf(EDGES, None, Instants.Given(validAt));
      if evs.Err? {
        return Err;
      }
      var out := PageEdges(evs.value, node, types, direction, limit, offset);
      assert node == coll + "/" + k
          && ReplaysTo(evs.value, events.Db(), Instants.Given(validAt), node, types, direction, limit, offset, out);
      return Ok(out);
    }

    /** SELECT DISTINCT json_extract(meta, '$.type') ... ORDER BY 1. */
    method EdgeTypes() returns (out: seq<string>)
      requires Valid()
      ensures Strings.Ascending(out)
      ensures forall typ :: typ in out <==> exists t :: t in edges && t.typ == typ
    {
      var found := DistinctTypes(events.live);
      var a := new string[|found|](i requires 0 <= i < |found| => found[i]);
      assert a[..] == found;
      SortSlice(a, Strings.Less);
      DistinctSorts(found);
      SortKeepsMembers(found, Strings.Less);
      out := a[..];
      TypesInUse(events.live, key, edges);
    }
  }

  function ReadPage(page: seq<Edge>): Result<seq<Edge>> {
    if EdgesAreReadable(page) then Ok(page) else Err
  }

  /** The rows.Next loop of Related: toEdge parses the times of each row of the page. */
  method ParseEdges(page: seq<Edge>) returns (r: Result<seq<Edge>>)
    ensures r == ReadPage(page)
  {
    var out: seq<Edge> := [];
    for i := 0 to |page|
      invariant out == page[..i] && EdgesAreReadable(out)
    {
      var parsed := ParseTimes(page[i].validFrom, page[i].txTime);
      if !parsed {
        assert page[i] in page;
        return Err;
      }
      assert page[..i + 1] == page[..i] + [page[i]];
      out := out + [page[i]];
    }
    assert page[..|page|] == page;
    return Ok(out);
  }

  method DistinctTypes(live: map<Ref, Row>) returns (found: seq<string>)
    ensures Distinct(found) && forall x :: x in found <==> TypeIn(x, live, live.Keys)
  {
    var todo := live.Keys;
    found := [];
    while todo != {}
      invariant todo <= live.Keys && Distinct(found)
      invariant forall x :: x in found <==> TypeIn(x, live, live.Keys - todo)
    {
      var ref :| ref in todo;
      var typ := TextOr(MetaText(live[ref].meta, "type"));
      TypesNext(live, live.Keys - todo, ref);
      if ref.collection == EDGES && !live[ref].deleted && typ !in found {
        found := found + [typ];
      }
      assert live.Keys - (todo - {ref}) == live.Keys - todo + {ref};
      todo := todo - {ref};
    }
    assert live.Keys - {} == live.Keys;
  }

  lemma EdgesFromNext(evs: seq<Event>, i: nat, node: string, types: seq<string>, direction: Direction)
    requires i < |evs|
    ensures EdgesFrom(evs[..i + 1], node, types, direction) == EdgesFrom(evs[..i], node, types, direction)
            + if Touches(TripleIn(evs[i].meta), node, types, direction) then [EventEdge(evs[i])] else []
  {
    assert evs[..i + 1][..i] == evs[..i];
  }

  /** RelatedAsOf's loop: skip, collect, stop at the limit. */
  method PageEdges(evs: seq<Event>, node: string, types: seq<string>, direction: Direction, limit: nat, offset: nat)
    returns (out: seq<Edge>)
    ensures out == Window(EdgesFrom(evs, node, types, direction), offset, limit)
  {
    out := [];
    var skipped, i := 0, 0;
    ghost var m: seq<Edge> := [];
    while i < |evs|
      invariant 0 <= i <= |evs| && m == EdgesFrom(evs[..i], node, types, direction)
      invariant skipped == (if |m| < offset then |m| else offset) && out == Window(m, offset, 0)
      invariant limit > 0 ==> |out| < limit
    {
      EdgesFromNext(evs, i, node, types, direction);
      var ev := evs[i];
      i := i + 1;
      if !DirectionMatches(direction, TripleIn(ev.meta), node) {
        continue;
      }
      if |types| > 0 && TripleIn(ev.meta).typ !in types {
        continue;
      }
      WindowGrows(m, EventEdge(ev), offset);
      m := m + [EventEdge(ev)];
      if skipped < offset {
        skipped := skipped + 1;
        continue;
      }
      out := out + [EventEdge(ev)];
      if limit > 0 && |out| >= limit {
        EdgesFromPrefix(evs, i, node, types, direction);
        WindowIsFull(m, EdgesFrom(evs, node, types, direction), offset, limit);
        return;
      }
    }
    assert evs[..i] == evs;
  }

  ghost predicate Found(found: seq<Edge>, live: map<Ref, Row>, done: set<Ref>, node: string, types: seq<string>,
        direction: Direction) {
    && (forall e :: e in found <==> exists ref :: ref in done && Hit(e, live, ref, node, types, direction))
    && Distinct(found)
  }

  lemma FoundNext(found: seq<Edge>, live: map<Ref, Row>, done: set<Ref>, ref: Ref, node: string, types: seq<string>,
        direction: Direction)
    requires exists bound :: DistinctRows(live, bound)
    requires Found(found, live, done, node, types, direction) && ref in live && ref !in done
    ensures Found(
              if ref.collection == EDGES && Selected(live[ref], node, types, direction)
              then found + [EdgeOf(live[ref])] else found,
              live, done + {ref}, node, types, direction)
  {
    if ref.collection == EDGES && Selected(live[ref], node, types, direction) {
      assert Hit(EdgeOf(live[ref]), live, ref, node, types, direction);
      forall e | e in found ensures e != EdgeOf(live[ref]) {
        var r :| r in done && Hit(e, live, r, node, types, direction);
        assert e.seqNo == live[r].seqNo != live[ref].seqNo;
      }
      assert forall i :: 0 <= i < |found| ==> found[i] in found;
      assert Distinct(found + [EdgeOf(live[ref])]);
    }
    var isHit := ref.collection == EDGES && Selected(live[ref], node, types, direction);
    var found' := if isHit then found + [EdgeOf(live[ref])] else found;
    forall e ensures e in found' <==> exists r :: r in done + {ref} && Hit(e, live, r, node, types, direction) {
      if e in found {
        var r :| r in done && Hit(e, live, r, node, types, direction);
        assert r in done + {ref};
      } else if e in found' {
        assert ref in done + {ref};
      }
      if r :| r in done + {ref} && Hit(e, live, r, node, types, direction) {
        assert r == ref || r in done;
      }
    }
  }

  lemma ScanIsSorted(found: seq<Edge>, live: map<Ref, Row>, node: string, types: seq<string>, direction: Direction)
    requires Found(found, live, live.Keys, node, types, direction)
    requires exists bound :: DistinctRows(live, bound)
    ensures IsScan(StableSort(found, BySeqNo), live, node, types, direction)
  {
    var all := StableSort(found, BySeqNo);
    SortOrders(found, BySeqNo);
    SortKeepsMembers(found, BySeqNo);
    SortKeepsDistinct(found, BySeqNo);
    forall i, j | 0 <= i < j < |all| ensures all[i].seqNo < all[j].seqNo {
      assert all[i] in found && all[j] in found;
      var a :| Hit(all[i], live, a, node, types, direction);
      var b :| Hit(all[j], live, b, node, types, direction);
    }
    forall e ensures e in all <==> exists ref :: Hit(e, live, ref, node, types, direction) {
    }
  }

  ghost predicate HasType(typ: string, live: map<Ref, Row>, ref: Ref) {
    ref in live && ref.collection == EDGES && !live[ref].deleted && typ == TextOr(MetaText(live[ref].meta, "type"))
  }

  ghost predicate TypeIn(typ: string, live: map<Ref, Row>, done: set<Ref>) {
    exists ref :: ref in done && HasType(typ, live, ref)
  }

  lemma TypesNext(live: map<Ref, Row>, done: set<Ref>, ref: Ref)
    ensures forall x :: TypeIn(x, live, done + {ref}) <==> TypeIn(x, live, done) || HasType(x, live, ref)
  {
    forall x ensures TypeIn(x, live, done + {ref}) <==> TypeIn(x, live, done) || HasType(x, live, ref) {
      if HasType(x, live, ref) { assert ref in done + {ref}; }
      if TypeIn(x, live, done) {
        var r :| r in done && HasType(x, live, r);
        assert r in done + {ref};
      }
    }
  }

  lemma DistinctSorts(found: seq<string>)
    requires Distinct(found)
    ensures Strings.Ascending(StableSort(found, Strings.Less))
  {
    var r := StableSort(found, Strings.Less);
    assert StrictWeakOrder(Strings.Less) by { Strings.LessIsStrictWeak(); }
    SortOrders(found, Strings.Less);
    SortKeepsDistinct(found, Strings.Less);
    forall i, j | 0 <= i < j < |r| ensures Strings.Less(r[i], r[j]) {
      Strings.LessIsTotal(r[i], r[j]);
    }
  }

  lemma TypesInUse(live: map<Ref, Row>, key: Keys, edges: map<Triple, Json>)
    requires Refines(live, key, edges)
    ensures forall typ :: TypeIn(typ, live, live.Keys) <==> exists t :: t in edges && t.typ == typ
  {
    forall typ ensures TypeIn(typ, live, live.Keys) <==> exists t :: t in edges && t.typ == typ {
      if TypeIn(typ, live, live.Keys) {
        var ref :| ref in live.Keys && HasType(typ, live, ref);
        var t :| t in edges && ref == RefFor(key, t);
        MetaRoundTrip(t);
      }
      if t :| t in edges && t.typ == typ {
        MetaRoundTrip(t);
        assert HasType(typ, live, RefFor(key, t));
      }
    }
  }
}
