/** The reference meaning of eager loading, a lookup for every row on its own, and the agreement of
    batched loading with it. */
module EagerReference {
  import opened Prelude
  import opened Schema
  import opened Queries
  import opened Loaders
  import opened EagerLoad

  /** n is the eager-loaded image of a row: its columns are the projected row, and every
      requested edge holds the images of exactly the rows that a lookup for this row finds. */
  ghost predicate Matches(t: Table, q: Query, via: Option<Edge>, db: DB, row: Row, n: Entity, region: set<Entity>)
    reads region
    decreases q, 0
  {
    && n in region && n.row == NodeRow(t, q, via, row) && n.loaded == q.with.Keys
    && forall e | e in EdgesOf(t) ::
         if e in q.with then EdgeMatches(q.with[e], e, db, row, n.Slot(e), region) else n.Slot(e) == []
  }

  /** The neighbours are the images of the looked-up rows, in the same order. A many-to-many slot
      lists them, each once, in the order of the whole batch; that is the same order whenever
      ORDER BY tells the looked-up rows apart. */
  ghost predicate EdgeMatches(sub: Query, e: Edge, db: DB, row: Row, slot: seq<Entity>, region: set<Entity>)
    reads region
    decreases sub, 1
  {
    var found := Lookup(sub, e, db, row);
    && |slot| == |found|
    && if KindOf(e) == ManyToMany then
         && Distinct(NodeIds(slot))
         && (forall n | n in slot :: exists r | r in found :: Matches(Target(e), sub, Some(e), db, r, n, region))
         && (StrictKeys(KeyOf(sub.core), found) ==>
               forall j | 0 <= j < |slot| :: Matches(Target(e), sub, Some(e), db, found[j], slot[j], region))
       else
         forall j | 0 <= j < |slot| :: Matches(Target(e), sub, Some(e), db, found[j], slot[j], region)
  }

  ghost predicate AllMatch(t: Table, q: Query, via: Option<Edge>, db: DB, rows: seq<Row>, nodes: seq<Entity>, region: set<Entity>)
    reads region
  {
    |nodes| == |rows| && forall k | 0 <= k < |rows| :: Matches(t, q, via, db, rows[k], nodes[k], region)
  }

  // ---------- shares are lookups ----------

  lemma ManyShareIsLookup(sub: Query, e: Edge, db: DB, batch: seq<Row>, row: Row)
    requires KindOf(e) == ToMany && Id(row) in Ids(batch) && NoWindow(sub.core)
    ensures Share(sub, e, db, batch, row) == Lookup(sub, e, db, row)
  {
    NarrowAfter(sub.core, InBatch(e, Ids(batch)), LinkedTo(e, db, row), db.Rows(Target(e)));
  }

  lemma OneShareIsLookup(sub: Query, e: Edge, db: DB, batch: seq<Row>, row: Row)
    requires KindOf(e) == ToOne && row in batch && NoWindow(sub.core)
    ensures Share(sub, e, db, batch, row) == Lookup(sub, e, db, row)
  {
    KeysMembers(e, batch);
    var k :| 0 <= k < |batch| && batch[k] == row;
    NarrowAfter(sub.core, InBatch(e, Keys(e, batch)), LinkedTo(e, db, row), db.Rows(Target(e)));
  }

  /** A row is looked up for a node exactly when the joined batch mentions it for that node. */
  lemma JoinedShareIsLookup(sub: Query, e: Edge, db: DB, batch: seq<Row>, row: Row)
    requires KindOf(e) == ManyToMany && ValidDB(db) && Id(row) in Ids(batch) && NoWindow(sub.core) && sub.core.joins == []
    ensures forall r :: r in Lookup(sub, e, db, row) <==> r in Share(sub, e, db, batch, row)
  {
    var joined := WindowJoined(sub.core, e, db, Ids(batch));
    FilterMembers(Takes(sub, e, db, batch, row), FirstRows(joined));
    MatchingMembers(sub.core, LinkedTo(e, db, row), db.Rows(Target(e)));
    forall r ensures r in Lookup(sub, e, db, row) <==> r in Share(sub, e, db, batch, row) {
      if r in Lookup(sub, e, db, row) { LookedUpIsShared(sub, e, db, batch, row, r); }
      if r in Share(sub, e, db, batch, row) { SharedIsLookedUp(sub, e, db, batch, row, r); }
    }
  }

  /** A linked row is joined to its source. */
  lemma LinkedIsJoined(core: Core, e: Edge, db: DB, ids: seq<int>, row: Row, r: Row)
    requires KindOf(e) == ManyToMany && Id(row) in ids && NoWindow(core) && core.joins == []
    requires r in db.Rows(Target(e)) && Holds(core.preds, r) && Linked(e, db, row, r)
    ensures (Id(row), r) in WindowJoined(core, e, db, ids)
  {
    var j :| j in db.accountGroups && IntAt(j, FkColumn(e)) == Some(Id(row)) && IntAt(j, JoinTargetColumn(e)) == Some(Id(r));
    assert JoinRow(e, j, Id(row), Id(r));
    JoinedMembers(core, e, db, ids);
    assert JoinedRow(core, e, db, ids, (Id(row), r));
  }

  /** A joined target is itself the first row of its id. */
  lemma JoinedIsFirst(core: Core, e: Edge, db: DB, ids: seq<int>, p: (int, Row))
    requires KindOf(e) == ManyToMany && ValidDB(db) && p in WindowJoined(core, e, db, ids) && p.1 in db.Rows(Target(e))
    ensures p.1 in FirstRows(WindowJoined(core, e, db, ids))
  {
    var firsts := FirstRows(WindowJoined(core, e, db, ids));
    assert Id(p.1) in Ids(firsts) by { FirstRowsMembers(WindowJoined(core, e, db, ids)); }
    var k :| 0 <= k < |firsts| && Ids(firsts)[k] == Id(p.1);
    assert firsts[k] in firsts;
    FirstsInTable(core, e, db, ids);
    SameTarget(e, db, firsts[k], p.1);
  }

  lemma LookedUpIsShared(sub: Query, e: Edge, db: DB, batch: seq<Row>, row: Row, r: Row)
    requires KindOf(e) == ManyToMany && ValidDB(db) && Id(row) in Ids(batch) && NoWindow(sub.core) && sub.core.joins == []
    requires r in db.Rows(Target(e)) && Holds(sub.core.preds, r) && Linked(e, db, row, r)
    ensures r in FirstRows(WindowJoined(sub.core, e, db, Ids(batch))) && Takes(sub, e, db, batch, row)(r)
  {
    LinkedIsJoined(sub.core, e, db, Ids(batch), row, r);
    JoinedIsFirst(sub.core, e, db, Ids(batch), (Id(row), r));
    assert NamedBy(WindowJoined(sub.core, e, db, Ids(batch)), Id(row))(Id(r));
  }

  lemma SameTarget(e: Edge, db: DB, a: Row, b: Row)
    requires KindOf(e) == ManyToMany && ValidDB(db) && a in db.Rows(Target(e)) && b in db.Rows(Target(e)) && Id(a) == Id(b)
    ensures a == b
  {
    assert HasId(Target(e)) && ValidRows(Target(e), db.Rows(Target(e)));
    SameIdSameRow(Target(e), db.Rows(Target(e)), a, b);
  }

  lemma SharedIsLookedUp(sub: Query, e: Edge, db: DB, batch: seq<Row>, row: Row, r: Row)
    requires KindOf(e) == ManyToMany && ValidDB(db)
    requires r in FirstRows(WindowJoined(sub.core, e, db, Ids(batch))) && Takes(sub, e, db, batch, row)(r)
    ensures r in db.Rows(Target(e)) && Holds(sub.core.preds, r) && Linked(e, db, row, r)
  {
    var joined := WindowJoined(sub.core, e, db, Ids(batch));
    assert r in db.Rows(Target(e)) && Holds(sub.core.preds, r) by { FirstsInTable(sub.core, e, db, Ids(batch)); }
    assert NamedBy(joined, Id(row))(Id(r));
    var p :| p in joined && p.0 == Id(row) && Id(p.1) == Id(r);
    assert JoinedRow(sub.core, e, db, Ids(batch), p) by {
      JoinedMembers(sub.core, e, db, Ids(batch));
      WindowMembers(sub.core, Joined(sub.core, e, db, Ids(batch)));
    }
    SameTarget(e, db, p.1, r);
    var j :| j in db.accountGroups && JoinRow(e, j, p.0, Id(p.1));
    assert Linked(e, db, row, r);
  }

  lemma {:induction false} FirstRowsSorted(core: Core, rows: seq<(int, Row)>)
    requires Sorted(PairKey(core), rows)
    ensures Sorted(KeyOf(core), FirstRows(rows))
  {
    if rows != [] {
      var front, last := FirstRows(rows[..|rows| - 1]), rows[|rows| - 1];
      FirstRowsSorted(core, rows[..|rows| - 1]);
      FirstRowsMembers(rows[..|rows| - 1]);
      forall k | 0 <= k < |front| ensures LexLeq(KeyOf(core)(front[k]), KeyOf(core)(last.1)) {
        assert front[k] in front;
        var p :| p in rows[..|rows| - 1] && p.1 == front[k];
        var i :| 0 <= i < |rows| - 1 && rows[i] == p;
        assert LexLeq(PairKey(core)(rows[i]), PairKey(core)(last));
      }
    }
  }

  /** A many-to-many share lists each linked row exactly once, and under a strict ORDER BY in the
      order of the row's own lookup. */
  lemma JoinedShareOrder(sub: Query, e: Edge, db: DB, batch: seq<Row>, row: Row)
    requires KindOf(e) == ManyToMany && ValidDB(db) && Id(row) in Ids(batch) && NoWindow(sub.core) && sub.core.joins == []
    ensures var share, found := Share(sub, e, db, batch, row), Lookup(sub, e, db, row);
            && Distinct(share) && Distinct(Ids(share)) && |share| == |found|
            && (StrictKeys(KeyOf(sub.core), found) ==> share == found)
  {
    var t, key := Target(e), KeyOf(sub.core);
    var share, found := Share(sub, e, db, batch, row), Lookup(sub, e, db, row);
    ShareDistinct(sub, e, db, batch, row);
    assert ValidRows(t, db.Rows(t));
    MatchingDistinct(t, sub.core, LinkedTo(e, db, row), db.Rows(t));
    JoinedShareIsLookup(sub, e, db, batch, row);
    SameMembersSameLength(share, found);
    MatchingMembers(sub.core, LinkedTo(e, db, row), db.Rows(t));
    RowsDistinctIdsDistinct(t, db.Rows(t), share);
    if StrictKeys(key, found) {
      ShareSorted(sub, e, db, batch, row);
      SortSorted(key, Filter(Passes(sub.core, LinkedTo(e, db, row)), db.Rows(t)));
      SortedUnique(key, share, found);
    }
  }

  lemma ShareDistinct(sub: Query, e: Edge, db: DB, batch: seq<Row>, row: Row)
    requires KindOf(e) == ManyToMany
    ensures Distinct(Share(sub, e, db, batch, row))
  {
    var joined := WindowJoined(sub.core, e, db, Ids(batch));
    FirstRowsMembers(joined);
    IdsDistinctRowsDistinct(FirstRows(joined));
    FilterDistinct(Takes(sub, e, db, batch, row), FirstRows(joined));
  }

  lemma ShareSorted(sub: Query, e: Edge, db: DB, batch: seq<Row>, row: Row)
    requires KindOf(e) == ManyToMany && NoWindow(sub.core)
    ensures Sorted(KeyOf(sub.core), Share(sub, e, db, batch, row))
  {
    var joined := Joined(sub.core, e, db, Ids(batch));
    var pairs := RejoinAll(e, db.accountGroups, sub.core.joins, Join(e, db.accountGroups, db.Rows(Target(e)), Ids(batch)));
    SortSorted(PairKey(sub.core), Filter(PairPasses(sub.core), pairs));
    FirstRowsSorted(sub.core, joined);
    FilterSorted(Takes(sub, e, db, batch, row), KeyOf(sub.core), FirstRows(joined));
  }

  // ---------- what is shown matches ----------

  /** Without windows and leftover joins below the root, a node that shows its row of a batch
      matches that row. */
  lemma {:induction false} ShowsMatch(t: Table, q: Query, via: Option<Edge>, db: DB, batch: seq<Row>, row: Row, n: Entity, region: set<Entity>)
    requires ValidDB(db) && PlainBelow(q) && row in batch && Shows(t, q, via, db, batch, row, n, region)
    ensures Matches(t, q, via, db, row, n, region)
    decreases q, 0
  {
    forall e | e in EdgesOf(t) && e in q.with ensures EdgeMatches(q.with[e], e, db, row, n.Slot(e), region) {
      EdgeShowsMatch(q.with[e], e, db, batch, row, n.Slot(e), region);
    }
  }

  lemma {:induction false} EdgeShowsMatch(sub: Query, e: Edge, db: DB, batch: seq<Row>, row: Row, slot: seq<Entity>, region: set<Entity>)
    requires ValidDB(db) && NoWindow(sub.core) && sub.core.joins == [] && PlainBelow(sub) && row in batch
    requires EdgeShows(sub, e, db, batch, row, slot, region)
    ensures EdgeMatches(sub, e, db, row, slot, region)
    decreases sub, 1
  {
    var share, found := Share(sub, e, db, batch, row), Lookup(sub, e, db, row);
    FilterMembers(Takes(sub, e, db, batch, row), Fetched(sub, e, db, batch));
    forall j | 0 <= j < |slot| ensures Matches(Target(e), sub, Some(e), db, share[j], slot[j], region) {
      assert share[j] in share;
      ShowsMatch(Target(e), sub, Some(e), db, Fetched(sub, e, db, batch), share[j], slot[j], region);
    }
    var i :| 0 <= i < |batch| && batch[i] == row;
    assert Ids(batch)[i] == Id(row);
    match KindOf(e)
    case ToOne => OneShareIsLookup(sub, e, db, batch, row);
    case ToMany => ManyShareIsLookup(sub, e, db, batch, row);
    case ManyToMany => JoinedShareMatches(sub, e, db, batch, row, slot, region);
  }

  lemma JoinedShareMatches(sub: Query, e: Edge, db: DB, batch: seq<Row>, row: Row, slot: seq<Entity>, region: set<Entity>)
    requires KindOf(e) == ManyToMany && ValidDB(db) && NoWindow(sub.core) && sub.core.joins == [] && Id(row) in Ids(batch)
    requires |slot| == |Share(sub, e, db, batch, row)|
    requires forall j :: 0 <= j < |slot| ==>
               Matches(Target(e), sub, Some(e), db, Share(sub, e, db, batch, row)[j], slot[j], region)
    ensures EdgeMatches(sub, e, db, row, slot, region)
  {
    var share, found := Share(sub, e, db, batch, row), Lookup(sub, e, db, row);
    JoinedShareOrder(sub, e, db, batch, row);
    JoinedShareIsLookup(sub, e, db, batch, row);
    forall j | 0 <= j < |slot| ensures NodeIds(slot)[j] == Ids(share)[j] {
      NodeRowKeys(Target(e), sub, Some(e), share[j]);
    }
    assert NodeIds(slot) == Ids(share);
    forall n | n in slot ensures exists r | r in found :: Matches(Target(e), sub, Some(e), db, r, n, region) {
      var j :| 0 <= j < |slot| && slot[j] == n;
      assert share[j] in share;
    }
  }

  lemma AllShowMatch(t: Table, q: Query, via: Option<Edge>, db: DB, rows: seq<Row>, nodes: seq<Entity>, region: set<Entity>)
    requires ValidDB(db) && PlainBelow(q) && AllShow(t, q, via, db, rows, nodes, region)
    ensures AllMatch(t, q, via, db, rows, nodes, region)
  {
    forall k | 0 <= k < |rows| ensures Matches(t, q, via, db, rows[k], nodes[k], region) {
      assert rows[k] in rows;
      ShowsMatch(t, q, via, db, rows, rows[k], nodes[k], region);
    }
  }

  /** Batched loading agrees with looking up the neighbours of every row on its own: for every tree
      of nested queries without limits, offsets and leftover joins. */
  method LoadAll(t: Table, q: Query, from: seq<Row>, db: DB) returns (res: LoadResult, ghost region: set<Entity>)
    requires ValidDB(db) && WellTyped(q, t) && Batch(t, db, from) && PlainBelow(q)
    ensures res.Failure? ==> res.error == QueryFailed && AnyFails(q)
    ensures res.Success? ==>
              var rows := Window(q.core, Matching(q.core, Anything(), from));
              && AllMatch(t, q, None, db, rows, res.nodes, region)
              && AllProjected(t, q.with.Keys, q.core.fields, None, rows, res.nodes)
  {
    var left;
    res, left, region := SqlAll(t, q, None, Anything(), from, db);
    var rows := Window(q.core, Matching(q.core, Anything(), from));
    PlainIsJoinFree(q);
    if res.Success? {
      AllShowMatch(t, q, None, db, rows, res.nodes, region);
    } else if !q.core.fails {
      HitsFail(q, db, rows);
    }
  }

  function Anything(): Row -> bool { (r: Row) => true }
}
