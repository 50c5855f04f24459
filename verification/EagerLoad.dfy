/** Batched eager loading over a tree of nested queries, and its agreement with looking up the
    neighbours of every row on its own. */
module EagerLoad {
  import opened Prelude
  import opened Schema
  import opened Queries
  import opened QueryMeaning
  import opened Loaders

  datatype LoadResult = Success(nodes: seq<Entity>) | Failure(error: LoadError)

  // ---------- the rows that the query of an edge returns ----------

  /** WHERE id IN (...) for a to-one edge, WHERE fk IN (...) for a to-many edge. */
  function InBatch(e: Edge, ids: seq<int>): Row -> bool {
    (r: Row) => if KindOf(e) == ToOne then Id(r) in ids
                else var v := IntAt(r, FkColumn(e)); v.Some? && v.value in ids
  }

  /** The target rows with a given id, each paired with the source id. */
  function Pair(source: int, targets: seq<Row>, id: int): seq<(int, Row)> {
    if targets == [] then []
    else (if Id(targets[0]) == id then [(source, targets[0])] else []) + Pair(source, targets[1..], id)
  }

  /** Join table JOIN target table, restricted to the sources of the batch. */
  function Join(e: Edge, joins: seq<Row>, targets: seq<Row>, ids: seq<int>): seq<(int, Row)> {
    if joins == [] then []
    else
      var s, t := IntAt(joins[0], FkColumn(e)), IntAt(joins[0], JoinTargetColumn(e));
      (if s.Some? && t.Some? && s.value in ids then Pair(s.value, targets, t.value) else [])
        + Join(e, joins[1..], targets, ids)
  }

  function PairPasses(core: Core): ((int, Row)) -> bool {
    (p: (int, Row)) => Holds(core.preds, p.1)
  }

  function PairKey(core: Core): ((int, Row)) -> seq<int> {
    (p: (int, Row)) => SortKey(core.order, p.1)
  }

  /** How many rows of the join table pair a target with a source of the batch. */
  function JoinCount(e: Edge, joins: seq<Row>, batch: seq<int>, target: int): nat {
    |Filter(JoinsTo(e, batch, target), joins)|
  }

  function JoinsTo(e: Edge, batch: seq<int>, target: int): Row -> bool {
    (j: Row) =>
      var s := IntAt(j, FkColumn(e));
      s.Some? && s.value in batch && IntAt(j, JoinTargetColumn(e)) == Some(target)
  }

  function Copies<T>(n: nat, x: T): seq<T> {
    seq(n, _ => x)
  }

  /** Joining the join table once more, restricted to an earlier batch, repeats every row once per
      match. */
  function Rejoin(e: Edge, joins: seq<Row>, batch: seq<int>, pairs: seq<(int, Row)>): seq<(int, Row)> {
    if pairs == [] then []
    else Copies(JoinCount(e, joins, batch, Id(pairs[0].1)), pairs[0]) + Rejoin(e, joins, batch, pairs[1..])
  }

  function RejoinAll(e: Edge, joins: seq<Row>, batches: seq<seq<int>>, pairs: seq<(int, Row)>): seq<(int, Row)>
    decreases |batches|
  {
    if batches == [] then pairs
    else RejoinAll(e, joins, batches[1..], Rejoin(e, joins, batches[0], pairs))
  }

  /** The joined rows of a many-to-many load before its window. */
  function Joined(core: Core, e: Edge, db: DB, ids: seq<int>): seq<(int, Row)> {
    var pairs := RejoinAll(e, db.accountGroups, core.joins, Join(e, db.accountGroups, db.Rows(Target(e)), ids));
    Sort(PairKey(core), Filter(PairPasses(core), pairs))
  }

  /** The ids with which the query of an edge is restricted for a batch of rows. */
  function BatchIds(e: Edge, rows: seq<Row>): seq<int> {
    if KindOf(e) == ToOne then Keys(e, rows) else Ids(rows)
  }

  /** What the query of a keyed edge returns for given ids. */
  function FetchedBy(core: Core, e: Edge, db: DB, ids: seq<int>): seq<Row> {
    Window(core, Matching(core, InBatch(e, ids), db.Rows(Target(e))))
  }

  function WindowJoined(core: Core, e: Edge, db: DB, ids: seq<int>): seq<(int, Row)> {
    Window(core, Joined(core, e, db, ids))
  }

  /** The rows that the query of an edge returns for a batch; a many-to-many row counts once. */
  function Fetched(sub: Query, e: Edge, db: DB, batch: seq<Row>): seq<Row> {
    if KindOf(e) == ManyToMany then FirstRows(WindowJoined(sub.core, e, db, Ids(batch)))
    else FetchedBy(sub.core, e, db, BatchIds(e, batch))
  }

  lemma {:induction false} PairMembers(source: int, targets: seq<Row>, id: int)
    ensures forall p :: p in Pair(source, targets, id) <==> p.0 == source && p.1 in targets && Id(p.1) == id
  {
    if targets != [] {
      PairMembers(source, targets[1..], id);
    }
  }

  ghost predicate JoinRow(e: Edge, j: Row, source: int, target: int) {
    IntAt(j, FkColumn(e)) == Some(source) && IntAt(j, JoinTargetColumn(e)) == Some(target)
  }

  lemma {:induction false} JoinMembers(e: Edge, joins: seq<Row>, targets: seq<Row>, ids: seq<int>)
    ensures forall p :: p in Join(e, joins, targets, ids) <==>
              p.0 in ids && p.1 in targets && exists j :: j in joins && JoinRow(e, j, p.0, Id(p.1))
  {
    if joins != [] {
      JoinMembers(e, joins[1..], targets, ids);
      var s, t := IntAt(joins[0], FkColumn(e)), IntAt(joins[0], JoinTargetColumn(e));
      if s.Some? && t.Some? {
        PairMembers(s.value, targets, t.value);
      }
      forall p ensures p in Join(e, joins, targets, ids) <==>
                p.0 in ids && p.1 in targets && exists j :: j in joins && JoinRow(e, j, p.0, Id(p.1))
      {
        assert (exists j :: j in joins && JoinRow(e, j, p.0, Id(p.1))) <==>
               JoinRow(e, joins[0], p.0, Id(p.1)) || exists j :: j in joins[1..] && JoinRow(e, j, p.0, Id(p.1));
      }
    }
  }

  lemma {:induction false} RejoinMembers(e: Edge, joins: seq<Row>, batch: seq<int>, pairs: seq<(int, Row)>)
    ensures forall p :: p in Rejoin(e, joins, batch, pairs) ==> p in pairs
  {
    if pairs != [] { RejoinMembers(e, joins, batch, pairs[1..]); }
  }

  lemma {:induction false} RejoinAllMembers(e: Edge, joins: seq<Row>, batches: seq<seq<int>>, pairs: seq<(int, Row)>)
    ensures forall p :: p in RejoinAll(e, joins, batches, pairs) ==> p in pairs
    decreases |batches|
  {
    if batches != [] {
      RejoinMembers(e, joins, batches[0], pairs);
      RejoinAllMembers(e, joins, batches[1..], Rejoin(e, joins, batches[0], pairs));
    }
  }

  /** The source is in the batch, the target passes the query, a join row links them. */
  ghost predicate JoinedRow(core: Core, e: Edge, db: DB, ids: seq<int>, p: (int, Row)) {
    && p.0 in ids && p.1 in db.Rows(Target(e)) && Holds(core.preds, p.1)
    && exists j :: j in db.accountGroups && JoinRow(e, j, p.0, Id(p.1))
  }

  /** A joined row says that; without leftover joins every row that says it is there. */
  lemma JoinedMembers(core: Core, e: Edge, db: DB, ids: seq<int>)
    ensures forall p :: p in Joined(core, e, db, ids) ==> JoinedRow(core, e, db, ids, p)
    ensures core.joins == [] ==> forall p :: JoinedRow(core, e, db, ids, p) ==> p in Joined(core, e, db, ids)
  {
    var all := Join(e, db.accountGroups, db.Rows(Target(e)), ids);
    var pairs := RejoinAll(e, db.accountGroups, core.joins, all);
    JoinMembers(e, db.accountGroups, db.Rows(Target(e)), ids);
    RejoinAllMembers(e, db.accountGroups, core.joins, all);
    FilterMembers(PairPasses(core), pairs);
    SortMembers(PairKey(core), Filter(PairPasses(core), pairs));
  }

  // ---------- what a node shows ----------

  /** Some joined row pairs the source with a target of this id. */
  ghost function NamedBy(rows: seq<(int, Row)>, source: int): int -> bool {
    (id: int) => exists r :: r in rows && r.0 == source && Id(r.1) == id
  }

  /** Which of the returned rows are handed to one row of the batch. */
  ghost function Takes(sub: Query, e: Edge, db: DB, batch: seq<Row>, row: Row): Row -> bool {
    if KindOf(e) == ManyToMany
    then (r: Row) => NamedBy(WindowJoined(sub.core, e, db, Ids(batch)), Id(row))(Id(r))
    else LinkedTo(e, db, row)
  }

  /** One row's share of what the query for the whole batch returns, in the order of that query. */
  ghost function Share(sub: Query, e: Edge, db: DB, batch: seq<Row>, row: Row): seq<Row> {
    Filter(Takes(sub, e, db, batch, row), Fetched(sub, e, db, batch))
  }

  /** n is the image of a row of a batch: its columns are the projected row, and every requested
      edge holds, in order, the images of the row's share of what the edge's query returned for the
      batch. */
  ghost predicate Shows(t: Table, q: Query, via: Option<Edge>, db: DB, batch: seq<Row>, row: Row, n: Entity, region: set<Entity>)
    reads region
    decreases q, 0
  {
    && n in region && n.row == NodeRow(t, q, via, row) && n.loaded == q.with.Keys
    && forall e | e in EdgesOf(t) ::
         if e in q.with then EdgeShows(q.with[e], e, db, batch, row, n.Slot(e), region) else n.Slot(e) == []
  }

  ghost predicate EdgeShows(sub: Query, e: Edge, db: DB, batch: seq<Row>, row: Row, slot: seq<Entity>, region: set<Entity>)
    reads region
    decreases sub, 1
  {
    var share := Share(sub, e, db, batch, row);
    && |slot| == |share|
    && forall j | 0 <= j < |slot| ::
         Shows(Target(e), sub, Some(e), db, Fetched(sub, e, db, batch), share[j], slot[j], region)
  }

  ghost predicate AllShow(t: Table, q: Query, via: Option<Edge>, db: DB, batch: seq<Row>, nodes: seq<Entity>, region: set<Entity>)
    reads region
  {
    |nodes| == |batch| && forall k | 0 <= k < |batch| :: Shows(t, q, via, db, batch, batch[k], nodes[k], region)
  }

  lemma {:induction false} ShowsGrow(t: Table, q: Query, via: Option<Edge>, db: DB, batch: seq<Row>, row: Row, n: Entity, r: set<Entity>, r': set<Entity>)
    requires Shows(t, q, via, db, batch, row, n, r) && r <= r'
    ensures Shows(t, q, via, db, batch, row, n, r')
    decreases q, 0
  {
    forall e | e in EdgesOf(t) && e in q.with ensures EdgeShows(q.with[e], e, db, batch, row, n.Slot(e), r') {
      EdgeShowsGrow(q.with[e], e, db, batch, row, n.Slot(e), r, r');
    }
  }

  lemma {:induction false} EdgeShowsGrow(sub: Query, e: Edge, db: DB, batch: seq<Row>, row: Row, slot: seq<Entity>, r: set<Entity>, r': set<Entity>)
    requires EdgeShows(sub, e, db, batch, row, slot, r) && r <= r'
    ensures EdgeShows(sub, e, db, batch, row, slot, r')
    decreases sub, 1
  {
    var share, fetched := Share(sub, e, db, batch, row), Fetched(sub, e, db, batch);
    forall j | 0 <= j < |slot| ensures Shows(Target(e), sub, Some(e), db, fetched, share[j], slot[j], r') {
      ShowsGrow(Target(e), sub, Some(e), db, fetched, share[j], slot[j], r, r');
    }
  }

  // ---------- which queries a load reaches, and what it leaves on them ----------

  /** Loading the edges of these rows runs some query that fails. */
  ghost predicate Hits(q: Query, db: DB, rows: seq<Row>)
    decreases q, 0
  {
    rows != [] && exists e | e in q.with :: EdgeHits(q.with[e], e, db, rows)
  }

  /** The query of an edge is run unless no row of a to-one batch has a key. A many-to-many query
      that still carries an earlier join meets a wrong scan slot with its first row. */
  ghost predicate EdgeHits(sub: Query, e: Edge, db: DB, rows: seq<Row>)
    decreases sub, 1
  {
    && Runs(e, rows)
    && (sub.core.fails || JoinsTwice(sub, e, db, rows) || Hits(sub, db, Fetched(sub, e, db, rows)))
  }

  predicate Runs(e: Edge, rows: seq<Row>) {
    KindOf(e) == ToOne ==> Keys(e, rows) != []
  }

  predicate JoinsTwice(sub: Query, e: Edge, db: DB, rows: seq<Row>) {
    KindOf(e) == ManyToMany && sub.core.joins != [] && WindowJoined(sub.core, e, db, Ids(rows)) != []
  }

  /** The errors a load can end with; a panic only if some query carried an earlier join. */
  ghost predicate Possible(error: LoadError, clean: bool) {
    error == QueryFailed || (error == WrongSlot && !clean)
  }

  ghost predicate CleanEdge(sub: Query) {
    sub.core.joins == [] && JoinFree(sub)
  }

  /** Without earlier joins a load can only fail if some query of the tree does. */
  lemma {:induction false} HitsFail(q: Query, db: DB, rows: seq<Row>)
    requires Hits(q, db, rows) && JoinFree(q)
    ensures AnyFails(q)
    decreases q
  {
    var e :| e in q.with && EdgeHits(q.with[e], e, db, rows);
    if !q.with[e].core.fails { HitsFail(q.with[e], db, Fetched(q.with[e], e, db, rows)); }
  }

  /** The settings of a nested query after a loader has restricted it to a batch. */
  function Asked(core: Core, e: Edge, ids: seq<int>): Core {
    if KindOf(e) == ManyToMany then core.(joins := core.joins + [ids])
    else core.(fields := EffectiveFields(core, Some(e)), preds := core.preds + [InBatch(e, ids)])
  }

  /** The query tree as a run leaves it behind: every nested query that ran keeps its restriction. */
  function After(q: Query, db: DB, rows: seq<Row>): Query
    decreases q, 0
  {
    if rows == [] then q
    else Query(q.core, map e | e in q.with :: AfterEdge(q.with[e], e, db, rows))
  }

  function AfterEdge(sub: Query, e: Edge, db: DB, rows: seq<Row>): Query
    decreases sub, 1
  {
    if !Runs(e, rows) then sub
    else Query(Asked(sub.core, e, BatchIds(e, rows)), After(sub, db, Fetched(sub, e, db, rows)).with)
  }

  // ---------- batched slots are shares ----------

  lemma WindowMembers<T>(core: Core, xs: seq<T>)
    ensures forall x | x in Window(core, xs) :: x in xs
  {
  }

  lemma WindowDistinct<T>(core: Core, xs: seq<T>)
    requires Distinct(xs)
    ensures Distinct(Window(core, xs))
  {
  }

  lemma FetchedMembers(core: Core, e: Edge, db: DB, ids: seq<int>)
    ensures forall r :: r in FetchedBy(core, e, db, ids) ==>
              r in db.Rows(Target(e)) && Holds(core.preds, r) && InBatch(e, ids)(r)
  {
    WindowMembers(core, Matching(core, InBatch(e, ids), db.Rows(Target(e))));
    MatchingMembers(core, InBatch(e, ids), db.Rows(Target(e)));
  }

  /** Slots that were picked in step with the returned rows show the share. */
  lemma PickedShows(sub: Query, e: Edge, db: DB, batch: seq<Row>, row: Row, neighbors: seq<Entity>,
                    picks: Entity -> bool, region: set<Entity>)
    requires AllShow(Target(e), sub, Some(e), db, Fetched(sub, e, db, batch), neighbors, region)
    requires forall k :: 0 <= k < |neighbors| ==>
               picks(neighbors[k]) == Takes(sub, e, db, batch, row)(Fetched(sub, e, db, batch)[k])
    ensures EdgeShows(sub, e, db, batch, row, Filter(picks, neighbors), region)
  {
    var got, takes := Fetched(sub, e, db, batch), Takes(sub, e, db, batch, row);
    FilterTogether(picks, neighbors, takes, got);
    var slot, share := Filter(picks, neighbors), Share(sub, e, db, batch, row);
    forall j | 0 <= j < |slot| ensures Shows(Target(e), sub, Some(e), db, got, share[j], slot[j], region) {
      var k :| 0 <= k < |neighbors| && slot[j] == neighbors[k] && share[j] == got[k];
    }
  }

  /** The neighbours carry the ids and keys of the rows they show. */
  lemma ShownIds(t: Table, sub: Query, e: Edge, db: DB, got: seq<Row>, neighbors: seq<Entity>, region: set<Entity>, k: nat)
    requires AllShow(t, sub, Some(e), db, got, neighbors, region) && k < |got|
    ensures HasId(t) ==> Id(neighbors[k].row) == Id(got[k])
    ensures KindOf(e) == ToMany ==> Fk(e, neighbors[k].row) == Fk(e, got[k])
  {
    assert Shows(t, sub, Some(e), db, got, got[k], neighbors[k], region);
    NodeRowKeys(t, sub, Some(e), got[k]);
  }

  /** To-many: grouping by foreign key gives every owner its share, in order, whatever limit or
      offset the query has. */
  lemma OwnedIsShare(sub: Query, e: Edge, db: DB, batch: seq<Row>, row: Row, nodeRow: Row,
                     neighbors: seq<Entity>, region: set<Entity>)
    requires KindOf(e) == ToMany && Id(nodeRow) == Id(row)
    requires AllShow(Target(e), sub, Some(e), db, Fetched(sub, e, db, batch), neighbors, region)
    ensures EdgeShows(sub, e, db, batch, row, Owned(e, nodeRow, neighbors), region)
  {
    var got := Fetched(sub, e, db, batch);
    var owns := (n: Entity) => Fk(e, n.row) == Some(Id(nodeRow));
    FetchedMembers(sub.core, e, db, Ids(batch));
    forall k | 0 <= k < |neighbors| ensures owns(neighbors[k]) == Takes(sub, e, db, batch, row)(got[k]) {
      ShownIds(Target(e), sub, e, db, got, neighbors, region, k);
      assert got[k] in got;
    }
    PickedShows(sub, e, db, batch, row, neighbors, owns, region);
  }

  /** To-one: the last neighbour with the key is the only one. */
  lemma OneIsShare(sub: Query, e: Edge, db: DB, batch: seq<Row>, row: Row, fk: Option<int>,
                   neighbors: seq<Entity>, region: set<Entity>)
    requires KindOf(e) == ToOne && ValidDB(db) && fk == Fk(e, row)
    requires AllShow(Target(e), sub, Some(e), db, Fetched(sub, e, db, batch), neighbors, region)
    ensures EdgeShows(sub, e, db, batch, row, LastWith(fk, neighbors), region)
  {
    var got, takes := Fetched(sub, e, db, batch), LinkedTo(e, db, row);
    forall k | 0 <= k < |got| ensures Id(neighbors[k].row) == Id(got[k]) {
      ShownIds(Target(e), sub, e, db, got, neighbors, region, k);
    }
    var at := OneTaken(sub.core, e, db, Keys(e, batch), row);
    if at.Some? {
      LastWithUnique(fk, neighbors, at.value);
    } else {
      LastWithNone(fk, neighbors);
    }
  }

  /** At most one row of a to-one result has the row's key. */
  lemma OneTaken(core: Core, e: Edge, db: DB, ids: seq<int>, row: Row) returns (at: Option<nat>)
    requires KindOf(e) == ToOne && ValidDB(db)
    ensures var got := FetchedBy(core, e, db, ids);
            && (at == None ==> Filter(LinkedTo(e, db, row), got) == [])
            && (at.Some? ==> at.value < |got| && Filter(LinkedTo(e, db, row), got) == [got[at.value]])
            && forall j :: 0 <= j < |got| ==> (Fk(e, row) == Some(Id(got[j])) <==> at == Some(j))
  {
    var got, narrow := FetchedBy(core, e, db, ids), LinkedTo(e, db, row);
    FetchedDistinct(core, e, db, ids);
    if k :| 0 <= k < |got| && Fk(e, row) == Some(Id(got[k])) {
      at := Some(k);
      forall j | 0 <= j < |got| && j != k ensures Id(got[j]) != Id(got[k]) {
        assert Ids(got)[j] != Ids(got)[k];
      }
      FilterUnique(narrow, got, k);
    } else {
      at := None;
      FilterNone(narrow, got);
    }
  }

  lemma FetchedDistinct(core: Core, e: Edge, db: DB, ids: seq<int>)
    requires ValidDB(db) && HasId(Target(e))
    ensures Distinct(Ids(FetchedBy(core, e, db, ids)))
  {
    var t := Target(e);
    assert ValidRows(t, db.Rows(t));
    MatchingDistinct(t, core, InBatch(e, ids), db.Rows(t));
    WindowDistinct(core, Matching(core, InBatch(e, ids), db.Rows(t)));
    FetchedMembers(core, e, db, ids);
    RowsDistinctIdsDistinct(t, db.Rows(t), FetchedBy(core, e, db, ids));
  }

  /** Many-to-many: the wanted neighbours are the row's share of the batch. */
  lemma WantedIsShare(sub: Query, e: Edge, db: DB, batch: seq<Row>, row: Row, nodes: seq<Entity>, node: Entity,
                      byId: map<int, Entity>, wanted: map<int, set<Entity>>, neighbors: seq<Entity>, region: set<Entity>)
    requires KindOf(e) == ManyToMany && IndexesById(nodes, byId) && node in nodes && Id(node.row) == Id(row)
    requires Records(byId, WindowJoined(sub.core, e, db, Ids(batch)), wanted)
    requires AllShow(Target(e), sub, Some(e), db, Fetched(sub, e, db, batch), neighbors, region)
    ensures EdgeShows(sub, e, db, batch, row, WantedBy(node, wanted, neighbors), region)
  {
    var wants := (n: Entity) => Id(n.row) in wanted && node in wanted[Id(n.row)];
    forall k | 0 <= k < |neighbors| ensures wants(neighbors[k]) == Takes(sub, e, db, batch, row)(Fetched(sub, e, db, batch)[k]) {
      WantedIffTaken(sub, e, db, batch, row, nodes, node, byId, wanted, neighbors, region, k);
    }
    PickedShows(sub, e, db, batch, row, neighbors, wants, region);
  }

  /** The k-th neighbour recorded the node exactly when its row is handed to the node's row. */
  lemma WantedIffTaken(sub: Query, e: Edge, db: DB, batch: seq<Row>, row: Row, nodes: seq<Entity>, node: Entity,
                       byId: map<int, Entity>, wanted: map<int, set<Entity>>, neighbors: seq<Entity>, region: set<Entity>, k: nat)
    requires KindOf(e) == ManyToMany && IndexesById(nodes, byId) && node in nodes && Id(node.row) == Id(row)
    requires Records(byId, WindowJoined(sub.core, e, db, Ids(batch)), wanted)
    requires AllShow(Target(e), sub, Some(e), db, Fetched(sub, e, db, batch), neighbors, region) && k < |neighbors|
    ensures Id(neighbors[k].row) in wanted
    ensures node in wanted[Id(neighbors[k].row)] <==> Takes(sub, e, db, batch, row)(Fetched(sub, e, db, batch)[k])
  {
    var rows, got := WindowJoined(sub.core, e, db, Ids(batch)), Fetched(sub, e, db, batch);
    ShownIds(Target(e), sub, e, db, got, neighbors, region, k);
    FirstIsWanted(byId, rows, wanted, k);
    WantedIffNamed(nodes, node, byId, rows, wanted, Id(got[k]));
  }

  lemma FirstIsWanted(byId: map<int, Entity>, rows: seq<(int, Row)>, wanted: map<int, set<Entity>>, k: nat)
    requires Records(byId, rows, wanted) && k < |FirstRows(rows)|
    ensures Id(FirstRows(rows)[k]) in wanted
  {
    assert Ids(FirstRows(rows))[k] in Ids(FirstRows(rows));
  }

  lemma WantedIffNamed(nodes: seq<Entity>, node: Entity, byId: map<int, Entity>, rows: seq<(int, Row)>,
                       wanted: map<int, set<Entity>>, id: int)
    requires IndexesById(nodes, byId) && node in nodes && Records(byId, rows, wanted) && id in wanted
    ensures node in wanted[id] <==> NamedBy(rows, Id(node.row))(id)
  {
    assert wanted[id] == Wanting(byId, rows, id);
    if node in wanted[id] {
      var r :| r in rows && Id(r.1) == id && r.0 in byId && byId[r.0] == node;
      assert r.0 == Id(node.row);
    }
    if r :| r in rows && r.0 == Id(node.row) && Id(r.1) == id {
      assert byId[r.0] == node;
    }
  }

  // ---------- no loader error on a consistent database ----------

  /** The rows a loader may be handed: a sublist of a table. */
  ghost predicate Batch(t: Table, db: DB, rows: seq<Row>) {
    && (forall r :: r in rows ==> r in db.Rows(t))
    && (HasId(t) ==> Distinct(Ids(rows)))
  }

  /** What a query over (part of) a table returns is again a batch of that table. */
  lemma ResultIsBatch(t: Table, core: Core, where: Row -> bool, db: DB, from: seq<Row>)
    requires ValidDB(db) && Batch(t, db, from)
    ensures Batch(t, db, Window(core, Matching(core, where, from)))
  {
    var all := Matching(core, where, from);
    assert ValidRows(t, db.Rows(t));
    assert ValidRows(t, from);
    MatchingMembers(core, where, from);
    WindowMembers(core, all);
    if HasId(t) {
      MatchingDistinct(t, core, where, from);
      WindowDistinct(core, all);
      RowsDistinctIdsDistinct(t, from, Window(core, all));
    }
  }

  /** The targets of a joined result are rows of their table that pass the query. */
  lemma FirstsInTable(core: Core, e: Edge, db: DB, ids: seq<int>)
    ensures forall r :: r in FirstRows(WindowJoined(core, e, db, ids)) ==> r in db.Rows(Target(e)) && Holds(core.preds, r)
  {
    var joined := WindowJoined(core, e, db, ids);
    JoinedMembers(core, e, db, ids);
    WindowMembers(core, Joined(core, e, db, ids));
    FirstRowsMembers(joined);
    forall r | r in FirstRows(joined) ensures r in db.Rows(Target(e)) && Holds(core.preds, r) {
      var p :| p in joined && p.1 == r;
      assert JoinedRow(core, e, db, ids, p);
    }
  }

  lemma FirstsAreBatch(e: Edge, core: Core, db: DB, ids: seq<int>, byId: map<int, Entity>)
    requires KindOf(e) == ManyToMany && forall id :: id in ids ==> id in byId
    ensures var joined := WindowJoined(core, e, db, ids);
            Batch(Target(e), db, FirstRows(joined)) && forall r :: r in joined ==> r.0 in byId
  {
    JoinedMembers(core, e, db, ids);
    FirstsInTable(core, e, db, ids);
    FirstRowsMembers(WindowJoined(core, e, db, ids));
    WindowMembers(core, Joined(core, e, db, ids));
    forall r | r in WindowJoined(core, e, db, ids) ensures r.0 in byId {
      assert JoinedRow(core, e, db, ids, r);
    }
  }

  /** The root of a table is a batch. */
  lemma TableIsBatch(t: Table, db: DB)
    requires ValidDB(db)
    ensures Batch(t, db, db.Rows(t))
  {
    assert ValidRows(t, db.Rows(t));
  }

  // ---------- the engine ----------

  /** Node ids and keys survive projection, so loaders index what the rows say. */
  ghost predicate Carries(t: Table, q: Query, via: Option<Edge>, rows: seq<Row>, nodes: seq<Entity>) {
    |nodes| == |rows| && Distinct(nodes) && forall k :: 0 <= k < |rows| ==> nodes[k].row == NodeRow(t, q, via, rows[k])
  }

  lemma CarriesIds(t: Table, q: Query, via: Option<Edge>, rows: seq<Row>, nodes: seq<Entity>)
    requires Carries(t, q, via, rows, nodes) && HasId(t) && Distinct(Ids(rows))
    ensures NodeIds(nodes) == Ids(rows) && Distinct(NodeIds(nodes))
  {
    forall k | 0 <= k < |rows| { NodeRowKeys(t, q, via, rows[k]); }
  }

  /** Every node has its row's columns: all of them without a selection, else the selected ones and
      the keys. */
  ghost predicate AllProjected(t: Table, with: set<Edge>, fields: seq<string>, via: Option<Edge>, rows: seq<Row>, nodes: seq<Entity>) {
    |nodes| == |rows| && forall k :: 0 <= k < |rows| ==> Projected(t, with, fields, via, rows[k], nodes[k].row)
  }

  lemma CarriesColumns(t: Table, q: Query, via: Option<Edge>, rows: seq<Row>, nodes: seq<Entity>)
    requires Carries(t, q, via, rows, nodes)
    ensures AllProjected(t, q.with.Keys, q.core.fields, via, rows, nodes)
  {
    forall k | 0 <= k < |rows| { ProjectionMeans(t, q, via, rows[k]); }
  }

  /** At any depth, a node that shows a row has its columns. */
  lemma ShownColumns(t: Table, q: Query, via: Option<Edge>, db: DB, batch: seq<Row>, row: Row, n: Entity, region: set<Entity>)
    requires Shows(t, q, via, db, batch, row, n, region)
    ensures Projected(t, q.with.Keys, q.core.fields, via, row, n.row)
  {
    ProjectionMeans(t, q, via, row);
  }

  /** Scans, then loads every requested edge. The query tree is finite, so this terminates however
      the rows point at each other. `left` is the query as the run leaves it behind. */
  method SqlAll(t: Table, q: Query, via: Option<Edge>, where: Row -> bool, from: seq<Row>, db: DB)
    returns (res: LoadResult, left: Query, ghost region: set<Entity>)
    requires ValidDB(db) && WellTyped(q, t) && Batch(t, db, from)
    ensures res.Failure? <==> q.core.fails || Hits(q, db, Window(q.core, Matching(q.core, where, from)))
    ensures res.Failure? ==> Possible(res.error, JoinFree(q))
    ensures fresh(region)
    ensures res.Success? ==>
              var rows := Window(q.core, Matching(q.core, where, from));
              && fresh(res.nodes) && Carries(t, q, via, rows, res.nodes)
              && AllShow(t, q, via, db, rows, res.nodes, region) && left == After(q, db, rows)
              && AllProjected(t, q.with.Keys, q.core.fields, via, rows, res.nodes)
    decreases q, 4
  {
    region, left := {}, q;
    if q.core.fails {
      return Failure(QueryFailed), left, region;
    }
    var rows := Window(q.core, Matching(q.core, where, from));
    var nodes: seq<Entity> := [];
    for i := 0 to |rows|
      invariant fresh(nodes) && NodesOf(t, q, via, rows[..i], nodes)
    {
      assert rows[..i + 1] == rows[..i] + [rows[i]];
      nodes := ScanRow(t, q, via, rows[i], nodes, rows[..i]);
    }
    assert rows[..|rows|] == rows;
    ResultIsBatch(t, q.core, where, db, from);
    var err;
    err, left, region := LoadEdges(t, q, via, db, rows, nodes);
    if err.Some? {
      return Failure(err.value), left, region;
    }
    CarriesColumns(t, q, via, rows, nodes);
    return Success(nodes), left, region;
  }

  /** The first k edges are done, judged by the slots of a node. */
  ghost predicate LoadedUpTo(q: Query, es: seq<Edge>, k: nat, db: DB, batch: seq<Row>, row: Row, slots: Slots, region: set<Entity>)
    requires k <= |es|
    reads region
  {
    forall e | e in es[..k] ::
      if e in q.with then EdgeShows(q.with[e], e, db, batch, row, SlotOf(slots, e), region) else SlotOf(slots, e) == []
  }

  /** The slots of every node at one moment. */
  ghost function SlotsOf(nodes: seq<Entity>): (slots: seq<Slots>)
    reads nodes
    ensures |slots| == |nodes| && forall i :: 0 <= i < |nodes| ==> slots[i] == nodes[i].edges
  {
    seq(|nodes|, i requires 0 <= i < |nodes| reads nodes => nodes[i].edges)
  }

  ghost predicate AllLoadedUpTo(q: Query, es: seq<Edge>, k: nat, db: DB, rows: seq<Row>, slots: seq<Slots>, region: set<Entity>)
    requires k <= |es|
    reads region
  {
    |slots| == |rows| && forall i | 0 <= i < |slots| :: LoadedUpTo(q, es, k, db, rows, rows[i], slots[i], region)
  }

  lemma LoadedStep(q: Query, es: seq<Edge>, k: nat, db: DB, batch: seq<Row>, row: Row, before: Slots, after: Slots,
                   region: set<Entity>, region': set<Entity>)
    requires k < |es| && Distinct(es) && region <= region'
    requires LoadedUpTo(q, es, k, db, batch, row, before, region)
    requires Wrote(before, after, es[k], SlotOf(after, es[k]))
    requires if es[k] in q.with then EdgeShows(q.with[es[k]], es[k], db, batch, row, SlotOf(after, es[k]), region')
             else SlotOf(after, es[k]) == []
    ensures LoadedUpTo(q, es, k + 1, db, batch, row, after, region')
  {
    forall e | e in es[..k + 1]
      ensures if e in q.with then EdgeShows(q.with[e], e, db, batch, row, SlotOf(after, e), region') else SlotOf(after, e) == []
    {
      if e != es[k] {
        assert e in es[..k];
        LoadedStays(q, es, k, db, batch, row, before, after, region, region', e);
      }
    }
  }

  /** Loading the k-th edge keeps the earlier ones. */
  lemma LoadedStays(q: Query, es: seq<Edge>, k: nat, db: DB, batch: seq<Row>, row: Row, before: Slots, after: Slots,
                    region: set<Entity>, region': set<Entity>, e: Edge)
    requires k < |es| && region <= region' && e in es[..k] && e != es[k]
    requires LoadedUpTo(q, es, k, db, batch, row, before, region)
    requires Wrote(before, after, es[k], SlotOf(after, es[k]))
    ensures if e in q.with then EdgeShows(q.with[e], e, db, batch, row, SlotOf(after, e), region') else SlotOf(after, e) == []
  {
    assert SlotOf(after, e) == SlotOf(before, e);
    if e in q.with { EdgeShowsGrow(q.with[e], e, db, batch, row, SlotOf(before, e), region, region'); }
  }

  /** The slots of the edges still to come are empty. */
  ghost predicate Untouched(es: seq<Edge>, k: nat, slots: Slots)
    requires k <= |es|
  {
    forall e | e in es[k..] :: SlotOf(slots, e) == []
  }

  ghost predicate AllUntouched(es: seq<Edge>, k: nat, slots: seq<Slots>)
    requires k <= |es|
  {
    forall i | 0 <= i < |slots| :: Untouched(es, k, slots[i])
  }

  /** Only the slot of e may differ anywhere. */
  ghost predicate AllWrote(e: Edge, before: seq<Slots>, after: seq<Slots>) {
    |before| == |after| && forall i | 0 <= i < |after| :: Wrote(before[i], after[i], e, SlotOf(after[i], e))
  }

  lemma UntouchedStep(es: seq<Edge>, k: nat, before: seq<Slots>, after: seq<Slots>)
    requires k < |es| && Distinct(es) && AllUntouched(es, k, before) && AllWrote(es[k], before, after)
    ensures AllUntouched(es, k + 1, after)
  {
    assert es[k..] == [es[k]] + es[k + 1..];
    assert es[k] !in es[k + 1..];
    forall i, e | 0 <= i < |after| && e in es[k + 1..] ensures SlotOf(after[i], e) == [] {
      assert e in es[k..] && e != es[k];
    }
  }

  lemma WroteEach(e: Edge, before: seq<Slots>, nodes: seq<Entity>)
    requires |before| == |nodes|
    requires forall i :: 0 <= i < |nodes| ==> Wrote(before[i], nodes[i].edges, e, nodes[i].Slot(e))
    ensures AllWrote(e, before, SlotsOf(nodes))
  {
  }

  lemma EdgesDistinct(t: Table)
    ensures Distinct(EdgesOf(t))
  {
  }

  lemma LoadedShows(t: Table, q: Query, via: Option<Edge>, db: DB, rows: seq<Row>, nodes: seq<Entity>,
                    region: set<Entity>, own: set<Entity>)
    requires |nodes| == |rows| && own == (set n | n in nodes)
    requires forall i :: 0 <= i < |nodes| ==> nodes[i].row == NodeRow(t, q, via, rows[i]) && nodes[i].loaded == q.with.Keys
    requires AllLoadedUpTo(q, EdgesOf(t), |EdgesOf(t)|, db, rows, SlotsOf(nodes), region)
    ensures AllShow(t, q, via, db, rows, nodes, region + own)
  {
    var es := EdgesOf(t);
    assert es[..|es|] == es;
    forall i | 0 <= i < |nodes| ensures Shows(t, q, via, db, rows, rows[i], nodes[i], region + own) {
      assert LoadedUpTo(q, es, |es|, db, rows, rows[i], nodes[i].edges, region);
      forall e | e in es && e in q.with ensures EdgeShows(q.with[e], e, db, rows, rows[i], nodes[i].Slot(e), region + own) {
        EdgeShowsGrow(q.with[e], e, db, rows, rows[i], nodes[i].Slot(e), region, region + own);
      }
    }
  }

  /** What is left of the tree when the first k edges are done. */
  ghost predicate LeftUpTo(q: Query, es: seq<Edge>, k: nat, db: DB, rows: seq<Row>, left: Query)
    requires k <= |es|
  {
    && left.core == q.core && left.with.Keys == q.with.Keys
    && forall e | e in q.with ::
         left.with[e] == if e in es[..k] then AfterEdge(q.with[e], e, db, rows) else q.with[e]
  }

  lemma LeftStep(q: Query, es: seq<Edge>, k: nat, db: DB, rows: seq<Row>, left: Query)
    requires k < |es| && Distinct(es) && LeftUpTo(q, es, k, db, rows, left)
    ensures LeftUpTo(q, es, k + 1, db, rows, LeftNext(q, es[k], db, rows, left))
  {
    assert es[..k + 1] == es[..k] + [es[k]];
  }

  lemma LeftAll(q: Query, t: Table, db: DB, rows: seq<Row>, left: Query)
    requires WellTyped(q, t) && rows != [] && LeftUpTo(q, EdgesOf(t), |EdgesOf(t)|, db, rows, left)
    ensures left == After(q, db, rows)
  {
    assert EdgesOf(t)[..|EdgesOf(t)|] == EdgesOf(t);
    assert left.with == After(q, db, rows).with;
  }

  /** None of the first k edges runs a failing query. */
  ghost predicate NoHitsUpTo(q: Query, es: seq<Edge>, k: nat, db: DB, rows: seq<Row>)
    requires k <= |es|
  {
    forall e | e in es[..k] && e in q.with :: !EdgeHits(q.with[e], e, db, rows)
  }

  lemma NoHitsStep(q: Query, t: Table, k: nat, db: DB, rows: seq<Row>)
    requires k < |EdgesOf(t)| && NoHitsUpTo(q, EdgesOf(t), k, db, rows) && rows != []
    ensures var e := EdgesOf(t)[k];
            if e in q.with && EdgeHits(q.with[e], e, db, rows) then Hits(q, db, rows)
            else NoHitsUpTo(q, EdgesOf(t), k + 1, db, rows)
  {
    var es := EdgesOf(t);
    assert es[..k + 1] == es[..k] + [es[k]];
  }

  lemma NoHitsAtAll(q: Query, t: Table, db: DB, rows: seq<Row>)
    requires WellTyped(q, t) && NoHitsUpTo(q, EdgesOf(t), |EdgesOf(t)|, db, rows)
    ensures !Hits(q, db, rows)
  {
    assert EdgesOf(t)[..|EdgesOf(t)|] == EdgesOf(t);
  }

  /** The bookkeeping of the first k edges. */
  ghost predicate DoneUpTo(q: Query, t: Table, k: nat, db: DB, rows: seq<Row>, left: Query)
    requires k <= |EdgesOf(t)|
  {
    NoHitsUpTo(q, EdgesOf(t), k, db, rows) && LeftUpTo(q, EdgesOf(t), k, db, rows, left)
  }

  /** The tree after one more edge. */
  function LeftNext(q: Query, e: Edge, db: DB, rows: seq<Row>, left: Query): Query {
    if e in q.with then left.(with := left.with[e := AfterEdge(q.with[e], e, db, rows)]) else left
  }

  lemma DoneStep(q: Query, t: Table, k: nat, db: DB, rows: seq<Row>, left: Query)
    requires k < |EdgesOf(t)| && rows != [] && DoneUpTo(q, t, k, db, rows, left)
    ensures var e := EdgesOf(t)[k];
            if e in q.with && EdgeHits(q.with[e], e, db, rows) then Hits(q, db, rows)
            else DoneUpTo(q, t, k + 1, db, rows, LeftNext(q, e, db, rows, left))
  {
    EdgesDistinct(t);
    NoHitsStep(q, t, k, db, rows);
    LeftStep(q, EdgesOf(t), k, db, rows, left);
  }

  /** The state of a batch when the first k edges are done. */
  ghost predicate Progress(t: Table, q: Query, k: nat, db: DB, rows: seq<Row>, nodes: seq<Entity>, left: Query, region: set<Entity>)
    requires k <= |EdgesOf(t)|
    reads nodes, region
  {
    && DoneUpTo(q, t, k, db, rows, left) && AllUntouched(EdgesOf(t), k, SlotsOf(nodes))
    && AllLoadedUpTo(q, EdgesOf(t), k, db, rows, SlotsOf(nodes), region)
  }

  lemma ProgressStart(t: Table, q: Query, via: Option<Edge>, db: DB, rows: seq<Row>, nodes: seq<Entity>)
    requires NodesOf(t, q, via, rows, nodes)
    ensures Progress(t, q, 0, db, rows, nodes, q, {})
  {
  }

  lemma ProgressEnd(t: Table, q: Query, via: Option<Edge>, db: DB, rows: seq<Row>, nodes: seq<Entity>, left: Query,
                    region: set<Entity>, own: set<Entity>)
    requires WellTyped(q, t) && rows != [] && Carries(t, q, via, rows, nodes) && own == (set n | n in nodes)
    requires forall i :: 0 <= i < |nodes| ==> nodes[i].loaded == q.with.Keys
    requires Progress(t, q, |EdgesOf(t)|, db, rows, nodes, left, region)
    ensures !Hits(q, db, rows) && left == After(q, db, rows) && AllShow(t, q, via, db, rows, nodes, region + own)
  {
    NoHitsAtAll(q, t, db, rows);
    LeftAll(q, t, db, rows, left);
    LoadedShows(t, q, via, db, rows, nodes, region, own);
  }

  /** Runs the loader of every requested edge, in the order of the schema. */
  method LoadEdges(t: Table, q: Query, via: Option<Edge>, db: DB, rows: seq<Row>, nodes: seq<Entity>)
    returns (err: Option<LoadError>, left: Query, ghost region: set<Entity>)
    requires ValidDB(db) && WellTyped(q, t) && Batch(t, db, rows) && NodesOf(t, q, via, rows, nodes)
    modifies nodes
    ensures err.Some? <==> Hits(q, db, rows)
    ensures err.Some? ==> Possible(err.value, JoinFree(q))
    ensures fresh(region - set n | n in nodes)
    ensures err == None ==> AllShow(t, q, via, db, rows, nodes, region) && left == After(q, db, rows)
    decreases q, 3, 2
  {
    if nodes == [] {
      return None, q, {};
    }
    ProgressStart(t, q, via, db, rows, nodes);
    ghost var more;
    err, left, more := StepEdges(t, q, via, db, rows, nodes);
    region := more + set n | n in nodes;
    if err == None {
      ProgressEnd(t, q, via, db, rows, nodes, left, more, set n | n in nodes);
    }
  }

  method StepEdges(t: Table, q: Query, via: Option<Edge>, db: DB, rows: seq<Row>, nodes: seq<Entity>)
    returns (err: Option<LoadError>, left: Query, ghost region: set<Entity>)
    requires ValidDB(db) && WellTyped(q, t) && Batch(t, db, rows) && Carries(t, q, via, rows, nodes)
    requires nodes != [] && Progress(t, q, 0, db, rows, nodes, q, {})
    modifies nodes
    ensures err.Some? ==> Hits(q, db, rows) && Possible(err.value, JoinFree(q))
    ensures fresh(region)
    ensures err == None ==> Progress(t, q, |EdgesOf(t)|, db, rows, nodes, left, region)
    decreases q, 3, 1
  {
    region, left := {}, q;
    for k := 0 to |EdgesOf(t)|
      invariant fresh(region) && Progress(t, q, k, db, rows, nodes, left, region)
    {
      err, left, region := StepEdge(t, q, via, k, db, rows, nodes, left, region);
      if err.Some? {
        return;
      }
    }
    err := None;
  }

  method StepEdge(t: Table, q: Query, via: Option<Edge>, k: nat, db: DB, rows: seq<Row>, nodes: seq<Entity>,
                  left: Query, ghost region: set<Entity>)
    returns (err: Option<LoadError>, left': Query, ghost region': set<Entity>)
    requires ValidDB(db) && WellTyped(q, t) && Batch(t, db, rows) && Carries(t, q, via, rows, nodes)
    requires k < |EdgesOf(t)| && nodes != [] && Progress(t, q, k, db, rows, nodes, left, region)
    requires forall n :: n in region ==> n !in nodes
    modifies nodes
    ensures err.Some? ==> Hits(q, db, rows) && Possible(err.value, JoinFree(q))
    ensures region <= region' && fresh(region' - region)
    ensures err == None ==> Progress(t, q, k + 1, db, rows, nodes, left', region')
    decreases q, 3, 0
  {
    EdgesDistinct(t);
    DoneStep(q, t, k, db, rows, left);
    err, left', region' := LoadNext(t, q, via, EdgesOf(t), k, db, rows, nodes, left, region);
  }

  /** One step of the sequence of loaders. */
  method LoadNext(t: Table, q: Query, via: Option<Edge>, es: seq<Edge>, k: nat, db: DB, rows: seq<Row>, nodes: seq<Entity>,
                  left: Query, ghost region: set<Entity>)
    returns (err: Option<LoadError>, left': Query, ghost region': set<Entity>)
    requires ValidDB(db) && WellTyped(q, t) && Batch(t, db, rows) && Carries(t, q, via, rows, nodes)
    requires k < |es| && Distinct(es) && es[k] in EdgesOf(t) && AllUntouched(es, k, SlotsOf(nodes)) && nodes != []
    requires forall n :: n in region ==> n !in nodes
    requires AllLoadedUpTo(q, es, k, db, rows, SlotsOf(nodes), region)
    modifies nodes
    ensures err.Some? <==> es[k] in q.with && EdgeHits(q.with[es[k]], es[k], db, rows)
    ensures err.Some? ==> Possible(err.value, es[k] in q.with && CleanEdge(q.with[es[k]]))
    ensures region <= region' && fresh(region' - region)
    ensures err == None ==>
              && AllUntouched(es, k + 1, SlotsOf(nodes)) && AllLoadedUpTo(q, es, k + 1, db, rows, SlotsOf(nodes), region')
              && left' == LeftNext(q, es[k], db, rows, left)
    decreases q, 2
  {
    var e := es[k];
    region', left' := region, left;
    ghost var before := SlotsOf(nodes);
    UntouchedHere(es, k, nodes);
    ghost var extra: set<Entity> := {};
    err := None;
    if e in q.with {
      var sub;
      err, sub, extra := LoadEdge(t, q, via, e, db, rows, nodes);
      if err.Some? {
        return;
      }
      left' := left.(with := left.with[e := sub]);
    }
    region' := region + extra;
    WroteEach(e, before, nodes);
    UntouchedStep(es, k, before, SlotsOf(nodes));
    AllLoadedStep(q, es, k, db, rows, before, nodes, region, extra);
  }

  lemma UntouchedHere(es: seq<Edge>, k: nat, nodes: seq<Entity>)
    requires k < |es| && AllUntouched(es, k, SlotsOf(nodes))
    ensures forall x :: x in nodes ==> x.Slot(es[k]) == []
  {
    assert es[k] in es[k..];
    forall x | x in nodes ensures x.Slot(es[k]) == [] {
      var i :| 0 <= i < |nodes| && nodes[i] == x;
      assert Untouched(es, k, SlotsOf(nodes)[i]);
    }
  }

  lemma AllLoadedStep(q: Query, es: seq<Edge>, k: nat, db: DB, rows: seq<Row>, before: seq<Slots>, nodes: seq<Entity>,
                      region: set<Entity>, extra: set<Entity>)
    requires k < |es| && Distinct(es) && |rows| == |nodes|
    requires AllLoadedUpTo(q, es, k, db, rows, before, region) && AllWrote(es[k], before, SlotsOf(nodes))
    requires if es[k] in q.with then AllEdgesShow(q.with[es[k]], es[k], db, rows, nodes, extra)
             else forall x :: x in nodes ==> x.Slot(es[k]) == []
    ensures AllLoadedUpTo(q, es, k + 1, db, rows, SlotsOf(nodes), region + extra)
  {
    forall i | 0 <= i < |nodes| ensures LoadedUpTo(q, es, k + 1, db, rows, rows[i], nodes[i].edges, region + extra) {
      if es[k] in q.with {
        EdgeShowsGrow(q.with[es[k]], es[k], db, rows, rows[i], nodes[i].Slot(es[k]), extra, region + extra);
      } else {
        assert nodes[i] in nodes;
      }
      LoadedStep(q, es, k, db, rows, rows[i], before[i], nodes[i].edges, region, region + extra);
    }
  }

  /** Loads one edge of a batch: one query for all nodes, then the hand-back. `left` is the nested
      query as it is left behind. */
  method LoadEdge(t: Table, q: Query, via: Option<Edge>, e: Edge, db: DB, rows: seq<Row>, nodes: seq<Entity>)
    returns (err: Option<LoadError>, left: Query, ghost region: set<Entity>)
    requires ValidDB(db) && WellTyped(q, t) && Batch(t, db, rows) && Carries(t, q, via, rows, nodes)
    requires e in EdgesOf(t) && e in q.with && forall x :: x in nodes ==> x.Slot(e) == []
    modifies nodes
    ensures err.Some? <==> EdgeHits(q.with[e], e, db, rows)
    ensures err.Some? ==> Possible(err.value, CleanEdge(q.with[e]))
    ensures fresh(region)
    ensures err == None ==>
              && (forall x :: x in nodes ==> Wrote(old(x.edges), x.edges, e, x.Slot(e)))
              && AllEdgesShow(q.with[e], e, db, rows, nodes, region) && left == AfterEdge(q.with[e], e, db, rows)
    decreases q, 1
  {
    match KindOf(e)
    case ToOne => err, left, region := LoadToOne(t, q, via, e, db, rows, nodes);
    case ToMany => err, left, region := LoadToMany(t, q, via, e, db, rows, nodes);
    case ManyToMany => err, left, region := LoadManyToMany(t, q, via, e, db, rows, nodes);
  }

  ghost predicate AllEdgesShow(sub: Query, e: Edge, db: DB, rows: seq<Row>, nodes: seq<Entity>, region: set<Entity>)
    requires |rows| == |nodes|
    reads nodes, region
  {
    forall i :: 0 <= i < |nodes| ==> EdgeShows(sub, e, db, rows, rows[i], nodes[i].Slot(e), region)
  }

  /** The one query of a to-one or to-many load: restricted to the batch for good, then run. */
  method FetchKeyed(sub: Query, e: Edge, db: DB, ids: seq<int>, ghost batch: seq<Row>)
    returns (err: Option<LoadError>, neighbors: seq<Entity>, left: Query, ghost region: set<Entity>)
    requires ValidDB(db) && WellTyped(sub, Target(e)) && KindOf(e) != ManyToMany
    requires ids == BatchIds(e, batch) && Runs(e, batch)
    ensures err.Some? <==> EdgeHits(sub, e, db, batch)
    ensures err.Some? ==> Possible(err.value, CleanEdge(sub))
    ensures fresh(region)
    ensures err == None ==>
              && fresh(neighbors) && Carries(Target(e), sub, Some(e), Fetched(sub, e, db, batch), neighbors)
              && AllShow(Target(e), sub, Some(e), db, Fetched(sub, e, db, batch), neighbors, region)
              && left == AfterEdge(sub, e, db, batch)
    decreases sub, 5
  {
    TableIsBatch(Target(e), db);
    var res;
    res, left, region := SqlAll(Target(e), sub, Some(e), InBatch(e, ids), db.Rows(Target(e)), db);
    if res.Failure? {
      return Some(res.error), [], left, region;
    }
    left := Query(Asked(sub.core, e, ids), left.with);
    return None, res.nodes, left, region;
  }

  method LoadToMany(t: Table, q: Query, via: Option<Edge>, e: Edge, db: DB, rows: seq<Row>, nodes: seq<Entity>)
    returns (err: Option<LoadError>, left: Query, ghost region: set<Entity>)
    requires ValidDB(db) && WellTyped(q, t) && Batch(t, db, rows) && Carries(t, q, via, rows, nodes)
    requires e in EdgesOf(t) && KindOf(e) == ToMany && e in q.with
    modifies nodes
    ensures err.Some? <==> EdgeHits(q.with[e], e, db, rows)
    ensures err.Some? ==> Possible(err.value, CleanEdge(q.with[e]))
    ensures fresh(region)
    ensures err == None ==>
              && (forall x :: x in nodes ==> Wrote(old(x.edges), x.edges, e, x.Slot(e)))
              && AllEdgesShow(q.with[e], e, db, rows, nodes, region) && left == AfterEdge(q.with[e], e, db, rows)
    decreases q, 0
  {
    var sub := q.with[e];
    CarriesIds(t, q, via, rows, nodes);
    var ids, byId := IndexById(e, nodes);
    var neighbors;
    err, neighbors, left, region := FetchKeyed(sub, e, db, ids, rows);
    if err.Some? {
      return;
    }
    HandOwned(sub, e, db, rows, nodes, byId, neighbors, region);
  }

  /** The hand-back of a to-many load; it cannot fail on what the load's own query returned. */
  method HandOwned(sub: Query, e: Edge, db: DB, rows: seq<Row>, nodes: seq<Entity>, byId: map<int, Entity>,
                   neighbors: seq<Entity>, ghost region: set<Entity>)
    requires KindOf(e) == ToMany && |rows| == |nodes| && NodeIds(nodes) == Ids(rows)
    requires IndexesById(nodes, byId) && forall x :: x in nodes ==> x.Slot(e) == []
    requires Carries(Target(e), sub, Some(e), Fetched(sub, e, db, rows), neighbors)
    requires AllShow(Target(e), sub, Some(e), db, Fetched(sub, e, db, rows), neighbors, region)
    requires forall n :: n in region ==> n !in nodes
    modifies nodes
    ensures forall x :: x in nodes ==> Wrote(old(x.edges), x.edges, e, x.Slot(e))
    ensures AllEdgesShow(sub, e, db, rows, nodes, region)
  {
    IndexCovers(nodes, byId);
    NoOrphans(sub, e, db, Ids(rows), byId.Keys, neighbors);
    var err := AssignMany(e, nodes, byId, neighbors);
    assert err == None;
    OwnedShow(sub, e, db, rows, nodes, neighbors, region);
  }

  lemma OwnedShow(sub: Query, e: Edge, db: DB, rows: seq<Row>, nodes: seq<Entity>,
                  neighbors: seq<Entity>, region: set<Entity>)
    requires KindOf(e) == ToMany && |rows| == |nodes| && NodeIds(nodes) == Ids(rows)
    requires AllShow(Target(e), sub, Some(e), db, Fetched(sub, e, db, rows), neighbors, region)
    requires forall x :: x in nodes ==> x.Slot(e) == Owned(e, x.row, neighbors)
    ensures AllEdgesShow(sub, e, db, rows, nodes, region)
  {
    forall i | 0 <= i < |nodes| ensures EdgeShows(sub, e, db, rows, rows[i], nodes[i].Slot(e), region) {
      assert NodeIds(nodes)[i] == Ids(rows)[i] && nodes[i] in nodes;
      OwnedIsShare(sub, e, db, rows, rows[i], nodes[i].row, neighbors, region);
    }
  }

  /** The foreign keys that a to-many batch returns are ids of the batch. */
  lemma NoOrphans(sub: Query, e: Edge, db: DB, ids: seq<int>, known: set<int>, neighbors: seq<Entity>)
    requires KindOf(e) == ToMany && forall id :: id in ids ==> id in known
    requires Carries(Target(e), sub, Some(e), FetchedBy(sub.core, e, db, ids), neighbors)
    ensures NoOrphan(e, known, neighbors)
  {
    var got := FetchedBy(sub.core, e, db, ids);
    FetchedMembers(sub.core, e, db, ids);
    forall n | n in neighbors ensures !Orphan(e, known, n) {
      var k :| 0 <= k < |neighbors| && neighbors[k] == n;
      NodeRowKeys(Target(e), sub, Some(e), got[k]);
      assert got[k] in got;
    }
  }

  method LoadToOne(t: Table, q: Query, via: Option<Edge>, e: Edge, db: DB, rows: seq<Row>, nodes: seq<Entity>)
    returns (err: Option<LoadError>, left: Query, ghost region: set<Entity>)
    requires ValidDB(db) && WellTyped(q, t) && Batch(t, db, rows) && Carries(t, q, via, rows, nodes)
    requires e in EdgesOf(t) && KindOf(e) == ToOne && e in q.with && forall x :: x in nodes ==> x.Slot(e) == []
    modifies nodes
    ensures err.Some? <==> EdgeHits(q.with[e], e, db, rows)
    ensures err.Some? ==> Possible(err.value, CleanEdge(q.with[e]))
    ensures fresh(region)
    ensures err == None ==>
              && (forall x :: x in nodes ==> Wrote(old(x.edges), x.edges, e, x.Slot(e)))
              && AllEdgesShow(q.with[e], e, db, rows, nodes, region) && left == AfterEdge(q.with[e], e, db, rows)
    decreases q, 0
  {
    var sub := q.with[e];
    region, left := {}, sub;
    var ids, holders := IndexByFk(e, nodes);
    CarriesKeys(t, q, via, e, rows, nodes);
    if ids == [] {
      NoKeysNoNeighbors(sub, e, db, rows, nodes, region);
      return None, left, region;
    }
    err, left, region := LoadByKeys(sub, e, db, rows, nodes, ids, holders);
  }

  /** The part of a to-one load that runs when some node has a key. */
  method LoadByKeys(sub: Query, e: Edge, db: DB, rows: seq<Row>, nodes: seq<Entity>, ids: seq<int>, holders: map<int, seq<Entity>>)
    returns (err: Option<LoadError>, left: Query, ghost region: set<Entity>)
    requires ValidDB(db) && WellTyped(sub, Target(e)) && KindOf(e) == ToOne
    requires SameKeys(e, rows, nodes) && ids == Keys(e, rows) != [] && Distinct(nodes) && holders == FkIndex(e, nodes)
    requires forall id :: id in ids ==> id in holders
    requires forall x :: x in nodes ==> x.Slot(e) == []
    modifies nodes
    ensures err.Some? <==> EdgeHits(sub, e, db, rows)
    ensures err.Some? ==> Possible(err.value, CleanEdge(sub))
    ensures fresh(region)
    ensures err == None ==>
              && (forall x :: x in nodes ==> Wrote(old(x.edges), x.edges, e, x.Slot(e)))
              && AllEdgesShow(sub, e, db, rows, nodes, region) && left == AfterEdge(sub, e, db, rows)
    decreases sub, 6
  {
    var neighbors;
    err, neighbors, left, region := FetchKeyed(sub, e, db, ids, rows);
    if err.Some? {
      return;
    }
    HandOne(sub, e, db, rows, nodes, holders, neighbors, region);
  }

  /** The hand-back of a to-one load; it cannot fail on what the load's own query returned. */
  method HandOne(sub: Query, e: Edge, db: DB, rows: seq<Row>, nodes: seq<Entity>, holders: map<int, seq<Entity>>,
                 neighbors: seq<Entity>, ghost region: set<Entity>)
    requires KindOf(e) == ToOne && ValidDB(db) && SameKeys(e, rows, nodes) && Distinct(nodes) && holders == FkIndex(e, nodes)
    requires (forall id :: id in Keys(e, rows) ==> id in holders) && forall x :: x in nodes ==> x.Slot(e) == []
    requires Carries(Target(e), sub, Some(e), Fetched(sub, e, db, rows), neighbors)
    requires AllShow(Target(e), sub, Some(e), db, Fetched(sub, e, db, rows), neighbors, region)
    requires forall n :: n in region ==> n !in nodes
    modifies nodes
    ensures forall x :: x in nodes ==> Wrote(old(x.edges), x.edges, e, x.Slot(e))
    ensures AllEdgesShow(sub, e, db, rows, nodes, region)
  {
    NoStrangers(sub, e, db, Keys(e, rows), holders.Keys, neighbors);
    var err := AssignOne(e, nodes, holders, neighbors);
    assert err == None;
    OneShow(sub, e, db, rows, nodes, neighbors, region);
  }

  lemma OneShow(sub: Query, e: Edge, db: DB, rows: seq<Row>, nodes: seq<Entity>,
                neighbors: seq<Entity>, region: set<Entity>)
    requires KindOf(e) == ToOne && ValidDB(db) && SameKeys(e, rows, nodes)
    requires AllShow(Target(e), sub, Some(e), db, Fetched(sub, e, db, rows), neighbors, region)
    requires forall x :: x in nodes ==> x.Slot(e) == LastWith(Fk(e, x.row), neighbors)
    ensures AllEdgesShow(sub, e, db, rows, nodes, region)
  {
    forall i | 0 <= i < |nodes| ensures EdgeShows(sub, e, db, rows, rows[i], nodes[i].Slot(e), region) {
      assert nodes[i] in nodes;
      OneIsShare(sub, e, db, rows, rows[i], Fk(e, rows[i]), neighbors, region);
    }
  }

  /** The nodes carry the keys of their rows. */
  ghost predicate SameKeys(e: Edge, rows: seq<Row>, nodes: seq<Entity>) {
    |nodes| == |rows| && forall i :: 0 <= i < |nodes| ==> Fk(e, nodes[i].row) == Fk(e, rows[i])
  }

  lemma CarriesKeys(t: Table, q: Query, via: Option<Edge>, e: Edge, rows: seq<Row>, nodes: seq<Entity>)
    requires Carries(t, q, via, rows, nodes) && e in EdgesOf(t) && KindOf(e) == ToOne && e in q.with
    ensures SameKeys(e, rows, nodes) && Keys(e, RowsOf(nodes)) == Keys(e, rows)
  {
    forall i | 0 <= i < |nodes| ensures Fk(e, nodes[i].row) == Fk(e, rows[i]) { NodeRowKeys(t, q, via, rows[i]); }
    KeysSame(e, RowsOf(nodes), rows);
  }

  lemma NoKeysNoNeighbors(sub: Query, e: Edge, db: DB, rows: seq<Row>, nodes: seq<Entity>, region: set<Entity>)
    requires KindOf(e) == ToOne && |rows| == |nodes| && Keys(e, rows) == [] && forall x :: x in nodes ==> x.Slot(e) == []
    ensures AllEdgesShow(sub, e, db, rows, nodes, region)
  {
    KeysMembers(e, rows);
    forall i | 0 <= i < |nodes| ensures EdgeShows(sub, e, db, rows, rows[i], nodes[i].Slot(e), region) {
      assert nodes[i] in nodes;
      FilterNone(LinkedTo(e, db, rows[i]), Fetched(sub, e, db, rows));
    }
  }

  /** A to-one batch returns only ids that some node asked for. */
  lemma NoStrangers(sub: Query, e: Edge, db: DB, ids: seq<int>, known: set<int>, neighbors: seq<Entity>)
    requires KindOf(e) == ToOne && forall id :: id in ids ==> id in known
    requires Carries(Target(e), sub, Some(e), FetchedBy(sub.core, e, db, ids), neighbors)
    ensures AllKnown(known, neighbors)
  {
    var got := FetchedBy(sub.core, e, db, ids);
    FetchedMembers(sub.core, e, db, ids);
    forall n | n in neighbors ensures Id(n.row) in known {
      var k :| 0 <= k < |neighbors| && neighbors[k] == n;
      NodeRowKeys(Target(e), sub, Some(e), got[k]);
      assert got[k] in got;
    }
  }

  method LoadManyToMany(t: Table, q: Query, via: Option<Edge>, e: Edge, db: DB, rows: seq<Row>, nodes: seq<Entity>)
    returns (err: Option<LoadError>, left: Query, ghost region: set<Entity>)
    requires ValidDB(db) && WellTyped(q, t) && Batch(t, db, rows) && Carries(t, q, via, rows, nodes)
    requires e in EdgesOf(t) && KindOf(e) == ManyToMany && e in q.with
    modifies nodes
    ensures err.Some? <==> EdgeHits(q.with[e], e, db, rows)
    ensures err.Some? ==> Possible(err.value, CleanEdge(q.with[e]))
    ensures fresh(region)
    ensures err == None ==>
              && (forall x :: x in nodes ==> Wrote(old(x.edges), x.edges, e, x.Slot(e)))
              && AllEdgesShow(q.with[e], e, db, rows, nodes, region) && left == AfterEdge(q.with[e], e, db, rows)
    decreases q, 0
  {
    var sub := q.with[e];
    CarriesIds(t, q, via, rows, nodes);
    var ids, byId := IndexById(e, nodes);
    IndexCovers(nodes, byId);
    var neighbors, wanted;
    err, neighbors, wanted, left, region := FetchJoined(sub, e, db, rows, ids, byId);
    if err.Some? {
      return;
    }
    HandBack(sub, e, db, rows, nodes, byId, wanted, neighbors, region);
  }

  /** The hand-back of a many-to-many load; it cannot fail on what the load's own query returned. */
  method HandBack(sub: Query, e: Edge, db: DB, rows: seq<Row>, nodes: seq<Entity>,
                  byId: map<int, Entity>, wanted: map<int, set<Entity>>, neighbors: seq<Entity>, ghost region: set<Entity>)
    requires KindOf(e) == ManyToMany && |rows| == |nodes| && NodeIds(nodes) == Ids(rows)
    requires IndexesById(nodes, byId) && forall x :: x in nodes ==> x.Slot(e) == []
    requires Records(byId, WindowJoined(sub.core, e, db, Ids(rows)), wanted) && AllKnown(wanted.Keys, neighbors)
    requires AllShow(Target(e), sub, Some(e), db, Fetched(sub, e, db, rows), neighbors, region)
    requires forall n :: n in region ==> n !in nodes
    modifies nodes
    ensures forall x :: x in nodes ==> Wrote(old(x.edges), x.edges, e, x.Slot(e))
    ensures AllEdgesShow(sub, e, db, rows, nodes, region)
  {
    WantersAreNodes(nodes, byId, WindowJoined(sub.core, e, db, Ids(rows)), wanted);
    var err := AssignJoined(e, nodes, wanted, neighbors);
    assert err == None;
    WantedShow(sub, e, db, rows, nodes, byId, wanted, neighbors, region);
  }

  lemma JoinedOutcome(sub: Query, e: Edge, db: DB, batch: seq<Row>)
    requires KindOf(e) == ManyToMany
    ensures var joined := WindowJoined(sub.core, e, db, Ids(batch));
            && Fetched(sub, e, db, batch) == FirstRows(joined)
            && (!sub.core.fails && (sub.core.joins == [] || joined == []) ==>
                  (EdgeHits(sub, e, db, batch) <==> Hits(sub, db, FirstRows(joined))))
            && AfterEdge(sub, e, db, batch) == Query(Asked(sub.core, e, Ids(batch)), After(sub, db, FirstRows(joined)).with)
  {
  }

  /** The one query of a many-to-many load: join, scan with deduplication, nested loads. The join
      stays on the query; with an earlier one still there, the first row panics. */
  method FetchJoined(sub: Query, e: Edge, db: DB, ghost batch: seq<Row>, ids: seq<int>, byId: map<int, Entity>)
    returns (err: Option<LoadError>, neighbors: seq<Entity>, wanted: map<int, set<Entity>>, left: Query, ghost region: set<Entity>)
    requires ValidDB(db) && WellTyped(sub, Target(e)) && KindOf(e) == ManyToMany
    requires ids == Ids(batch) && forall id :: id in ids ==> id in byId
    ensures err.Some? <==> EdgeHits(sub, e, db, batch)
    ensures err.Some? ==> Possible(err.value, CleanEdge(sub))
    ensures fresh(region)
    ensures err == None ==>
              && fresh(neighbors) && Records(byId, WindowJoined(sub.core, e, db, ids), wanted) && AllKnown(wanted.Keys, neighbors)
              && AllShow(Target(e), sub, Some(e), db, Fetched(sub, e, db, batch), neighbors, region)
              && left == AfterEdge(sub, e, db, batch)
    decreases sub, 4
  {
    neighbors, wanted, left, region := [], map[], sub, {};
    if sub.core.fails {
      return Some(QueryFailed), neighbors, wanted, left, region;
    }
    var joined := WindowJoined(sub.core, e, db, ids);
    if sub.core.joins != [] && joined != [] {
      return Some(WrongSlot), neighbors, wanted, left, region;
    }
    JoinedOutcome(sub, e, db, batch);
    FirstsAreBatch(e, sub.core, db, ids, byId);
    neighbors, wanted := ScanJoined(Target(e), sub, e, byId, joined);
    err, left, region := LoadEdges(Target(e), sub, Some(e), db, FirstRows(joined), neighbors);
    if err == None {
      AllWanted(sub, e, FirstRows(joined), neighbors, wanted.Keys);
      left := Query(Asked(sub.core, e, ids), left.with);
    }
  }

  lemma WantedShow(sub: Query, e: Edge, db: DB, rows: seq<Row>, nodes: seq<Entity>,
                   byId: map<int, Entity>, wanted: map<int, set<Entity>>, neighbors: seq<Entity>, region: set<Entity>)
    requires KindOf(e) == ManyToMany && |rows| == |nodes| && NodeIds(nodes) == Ids(rows) && IndexesById(nodes, byId)
    requires Records(byId, WindowJoined(sub.core, e, db, Ids(rows)), wanted)
    requires AllShow(Target(e), sub, Some(e), db, Fetched(sub, e, db, rows), neighbors, region)
    requires forall x :: x in nodes ==> x.Slot(e) == WantedBy(x, wanted, neighbors)
    ensures AllEdgesShow(sub, e, db, rows, nodes, region)
  {
    forall i | 0 <= i < |nodes| ensures EdgeShows(sub, e, db, rows, rows[i], nodes[i].Slot(e), region) {
      assert NodeIds(nodes)[i] == Ids(rows)[i] && nodes[i] in nodes;
      WantedIsShare(sub, e, db, rows, rows[i], nodes, nodes[i], byId, wanted, neighbors, region);
    }
  }

  lemma AllWanted(sub: Query, e: Edge, firsts: seq<Row>, neighbors: seq<Entity>, wanted: set<int>)
    requires HasId(Target(e)) && Carries(Target(e), sub, Some(e), firsts, neighbors)
    requires forall id :: id in wanted <==> id in Ids(firsts)
    ensures AllKnown(wanted, neighbors)
  {
    forall n | n in neighbors ensures Id(n.row) in wanted {
      var k :| 0 <= k < |neighbors| && neighbors[k] == n;
      NodeRowKeys(Target(e), sub, Some(e), firsts[k]);
      assert Ids(firsts)[k] in Ids(firsts);
    }
  }

  lemma IndexCovers(nodes: seq<Entity>, byId: map<int, Entity>)
    requires IndexesById(nodes, byId)
    ensures forall id :: id in NodeIds(nodes) ==> id in byId
  {
    forall id | id in NodeIds(nodes) ensures id in byId {
      var i :| 0 <= i < |nodes| && NodeIds(nodes)[i] == id;
      assert nodes[i] in nodes;
    }
  }

  lemma WantersAreNodes(nodes: seq<Entity>, byId: map<int, Entity>, joined: seq<(int, Row)>, wanted: map<int, set<Entity>>)
    requires IndexesById(nodes, byId) && Records(byId, joined, wanted)
    ensures forall id :: id in wanted ==> forall x | x in wanted[id] :: x in nodes
  {
    forall id, x | id in wanted && x in wanted[id] ensures x in nodes {
      var r :| r in joined && Id(r.1) == id && r.0 in byId && byId[r.0] == x;
      IndexedNode(nodes, byId, r.0);
    }
  }
}
