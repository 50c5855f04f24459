/** Nodes on the heap and the three loader shapes: index the batch, then hand each neighbour
    back to the nodes it belongs to. */
module Loaders {
  import opened Prelude
  import opened Schema
  import opened Queries
  import opened QueryMeaning

  /** WrongSlot is the panic of a type assertion on a scan slot. */
  datatype LoadError = QueryFailed | NilForeignKey | UnexpectedForeignKey(id: int) | WrongSlot

  type Slots = map<Edge, seq<Entity>>

  /** An edge slot; one that was never written is a nil pointer or a nil slice. */
  function SlotOf(edges: Slots, e: Edge): seq<Entity> {
    if e in edges then edges[e] else []
  }

  /** Only the slot of e may differ, and it holds `slot`. */
  ghost predicate Wrote(before: Slots, after: Slots, e: Edge, slot: seq<Entity>) {
    SlotOf(after, e) == slot && forall x :: x != e ==> SlotOf(after, x) == SlotOf(before, x)
  }

  lemma WroteTwice(a: Slots, b: Slots, c: Slots, e: Edge, s: seq<Entity>, s': seq<Entity>)
    requires Wrote(a, b, e, s) && Wrote(b, c, e, s')
    ensures Wrote(a, c, e, s')
  {
  }

  /** An entity as eager loading builds it: scanned columns, the edges that were asked for, and
      the edge slots that loaders fill in place. */
  class Entity {
    const row: Row
    const loaded: set<Edge>
    var edges: Slots

    constructor (row: Row, loaded: set<Edge>)
      ensures this.row == row && this.loaded == loaded && edges == map[]
    {
      this.row, this.loaded, edges := row, loaded, map[];
    }

    function Slot(e: Edge): seq<Entity>
      reads this
    {
      SlotOf(edges, e)
    }

    method SetSlot(e: Edge, slot: seq<Entity>)
      modifies this
      ensures Wrote(old(edges), edges, e, slot)
    {
      edges := edges[e := slot];
    }

    /** The *OrErr accessors: a to-one edge distinguishes missing from not loaded. */
    function EdgeOrErr(e: Edge): EdgeResult
      reads this
    {
      if KindOf(e) == ToOne then
        if Slot(e) != [] then Loaded(Slot(e))
        else if e in loaded then NotFound
        else NotLoaded
      else if e in loaded then Loaded(Slot(e))
      else NotLoaded
    }
  }

  datatype EdgeResult = Loaded(nodes: seq<Entity>) | NotFound | NotLoaded

  /** A freshly scanned node: the projected row, the requested edges, every slot still empty. */
  ghost predicate IsNodeOf(t: Table, q: Query, via: Option<Edge>, row: Row, n: Entity)
    reads n
  {
    n.row == NodeRow(t, q, via, row) && n.loaded == q.with.Keys && n.edges == map[]
  }

  ghost predicate NodesOf(t: Table, q: Query, via: Option<Edge>, rows: seq<Row>, nodes: seq<Entity>)
    reads nodes
  {
    && |nodes| == |rows| && Distinct(nodes)
    && forall k :: 0 <= k < |nodes| ==> IsNodeOf(t, q, via, rows[k], nodes[k])
  }

  /** The assign hook of a plain query: one more node for one more row. */
  method ScanRow(t: Table, q: Query, via: Option<Edge>, row: Row, nodes: seq<Entity>, ghost rows: seq<Row>)
    returns (more: seq<Entity>)
    requires NodesOf(t, q, via, rows, nodes)
    ensures |more| == |nodes| + 1 && more[..|nodes|] == nodes && fresh(more[|nodes|])
    ensures NodesOf(t, q, via, rows + [row], more)
    ensures Projected(t, q.with.Keys, q.core.fields, via, row, more[|nodes|].row)
  {
    ProjectionMeans(t, q, via, row);
    var n := new Entity(NodeRow(t, q, via, row), q.with.Keys);
    more := nodes + [n];
  }

  function NodeIds(nodes: seq<Entity>): (ids: seq<int>)
    ensures |ids| == |nodes|
    ensures forall i :: 0 <= i < |nodes| ==> ids[i] == Id(nodes[i].row)
  {
    Map((n: Entity) => Id(n.row), nodes)
  }

  /** An index from node id to node. */
  ghost predicate IndexesById(nodes: seq<Entity>, byId: map<int, Entity>) {
    && (forall x :: x in nodes ==> Id(x.row) in byId && byId[Id(x.row)] == x)
    && (forall id :: id in byId ==> byId[id] in nodes && Id(byId[id].row) == id)
  }

  lemma IndexedNode(nodes: seq<Entity>, byId: map<int, Entity>, id: int)
    requires IndexesById(nodes, byId) && id in byId
    ensures byId[id] in nodes
  {
  }

  // ---------- one to many ----------

  /** The neighbours whose foreign key names the owner, in row order. */
  function Owned(e: Edge, owner: Row, neighbors: seq<Entity>): seq<Entity> {
    Filter((n: Entity) => Fk(e, n.row) == Some(Id(owner)), neighbors)
  }

  predicate Orphan(e: Edge, ids: set<int>, n: Entity) {
    var fk := Fk(e, n.row);
    fk == None || fk.value !in ids
  }

  /** The error for a neighbour's key: nil, or one that nobody in the batch has. */
  ghost predicate Reports(error: LoadError, fk: Option<int>) {
    match error
    case NilForeignKey => fk == None
    case UnexpectedForeignKey(id) => fk == Some(id)
    case _ => false
  }

  predicate NoOrphan(e: Edge, ids: set<int>, neighbors: seq<Entity>) {
    forall n :: n in neighbors ==> !Orphan(e, ids, n)
  }

  ghost predicate FirstOrphan(e: Edge, ids: set<int>, neighbors: seq<Entity>, k: int) {
    0 <= k < |neighbors| && Orphan(e, ids, neighbors[k]) && NoOrphan(e, ids, neighbors[..k])
  }

  lemma OwnedStep(e: Edge, owner: Row, neighbors: seq<Entity>, k: nat)
    requires k < |neighbors|
    ensures Owned(e, owner, neighbors[..k + 1]) ==
            if Fk(e, neighbors[k].row) == Some(Id(owner)) then Owned(e, owner, neighbors[..k]) + [neighbors[k]]
            else Owned(e, owner, neighbors[..k])
  {
    FilterStep((n: Entity) => Fk(e, n.row) == Some(Id(owner)), neighbors, k);
  }

  lemma OwnedStepAll(e: Edge, nodes: seq<Entity>, byId: map<int, Entity>, neighbors: seq<Entity>, k: nat)
    requires IndexesById(nodes, byId)
    requires k < |neighbors| && !Orphan(e, byId.Keys, neighbors[k])
    ensures forall x :: x in nodes ==>
              Owned(e, x.row, neighbors[..k + 1]) ==
              if x == byId[Fk(e, neighbors[k].row).value] then Owned(e, x.row, neighbors[..k]) + [neighbors[k]]
              else Owned(e, x.row, neighbors[..k])
  {
    forall x | x in nodes { OwnedStep(e, x.row, neighbors, k); }
  }

  /** First loop of a to-many loader: collect the ids, index the nodes, start every slot empty. */
  method IndexById(e: Edge, nodes: seq<Entity>) returns (ids: seq<int>, byId: map<int, Entity>)
    requires Distinct(nodes) && Distinct(NodeIds(nodes))
    modifies nodes
    ensures ids == NodeIds(nodes)
    ensures IndexesById(nodes, byId)
    ensures forall x :: x in nodes ==> Wrote(old(x.edges), x.edges, e, [])
  {
    ids, byId := [], map[];
    for i := 0 to |nodes|
      invariant ids == NodeIds(nodes)[..i]
      invariant forall k :: 0 <= k < i ==> Id(nodes[k].row) in byId && byId[Id(nodes[k].row)] == nodes[k]
      invariant forall id :: id in byId ==> byId[id] in nodes && Id(byId[id].row) == id
      invariant forall k :: 0 <= k < i ==> Wrote(old(nodes[k].edges), nodes[k].edges, e, [])
      invariant forall k :: i <= k < |nodes| ==> nodes[k].edges == old(nodes[k].edges)
    {
      ids := ids + [Id(nodes[i].row)];
      byId := byId[Id(nodes[i].row) := nodes[i]];
      nodes[i].SetSlot(e, []);
    }
  }

  /** Second loop of a to-many loader: every neighbour is appended to its owner. */
  method AssignMany(e: Edge, nodes: seq<Entity>, byId: map<int, Entity>, neighbors: seq<Entity>)
    returns (err: Option<LoadError>)
    requires IndexesById(nodes, byId)
    requires forall x :: x in nodes ==> x.Slot(e) == []
    modifies nodes
    ensures err == None <==> NoOrphan(e, byId.Keys, neighbors)
    ensures err.Some? ==> exists k :: FirstOrphan(e, byId.Keys, neighbors, k) && Reports(err.value, Fk(e, neighbors[k].row))
    ensures err == None ==> forall x :: x in nodes ==>
              Wrote(old(x.edges), x.edges, e, Owned(e, x.row, neighbors))
  {
    for k := 0 to |neighbors|
      invariant NoOrphan(e, byId.Keys, neighbors[..k])
      invariant forall x :: x in nodes ==>
                  Wrote(old(x.edges), x.edges, e, Owned(e, x.row, neighbors[..k]))
    {
      var n := neighbors[k];
      assert neighbors[..k + 1] == neighbors[..k] + [n];
      var fk := Fk(e, n.row);
      if fk == None {
        assert FirstOrphan(e, byId.Keys, neighbors, k) && Reports(NilForeignKey, fk);
        return Some(NilForeignKey);
      }
      if fk.value !in byId {
        assert FirstOrphan(e, byId.Keys, neighbors, k) && Reports(UnexpectedForeignKey(fk.value), fk);
        return Some(UnexpectedForeignKey(fk.value));
      }
      assert !Orphan(e, byId.Keys, n);
      var node := byId[fk.value];
      OwnedStepAll(e, nodes, byId, neighbors, k);
      label before:
      node.SetSlot(e, node.Slot(e) + [n]);
      WroteTwice(old(node.edges), old@before(node.edges), node.edges, e,
                 Owned(e, node.row, neighbors[..k]), Owned(e, node.row, neighbors[..k + 1]));
    }
    assert neighbors[..|neighbors|] == neighbors;
    return None;
  }

  // ---------- many to one ----------

  /** The nodes that hold a given foreign key, in node order. */
  function Holders(e: Edge, nodes: seq<Entity>, fk: int): (hs: seq<Entity>)
    ensures forall n | n in hs :: n in nodes && Fk(e, n.row) == Some(fk)
    ensures forall n | n in nodes && Fk(e, n.row) == Some(fk) :: n in hs
  {
    FilterMembers((n: Entity) => Fk(e, n.row) == Some(fk), nodes);
    Filter((n: Entity) => Fk(e, n.row) == Some(fk), nodes)
  }

  lemma HoldersDistinct(e: Edge, nodes: seq<Entity>, fk: int)
    requires Distinct(nodes)
    ensures Distinct(Holders(e, nodes, fk))
  {
    FilterDistinct((n: Entity) => Fk(e, n.row) == Some(fk), nodes);
  }

  predicate AllKnown(ids: set<int>, neighbors: seq<Entity>) {
    forall n :: n in neighbors ==> Id(n.row) in ids
  }

  lemma AllKnownStep(ids: set<int>, neighbors: seq<Entity>, k: nat)
    requires k < |neighbors|
    ensures AllKnown(ids, neighbors[..k + 1]) <==> AllKnown(ids, neighbors[..k]) && Id(neighbors[k].row) in ids
    ensures AllKnown(ids, neighbors) ==> Id(neighbors[k].row) in ids
  {
    assert neighbors[..k + 1] == neighbors[..k] + [neighbors[k]];
  }

  /** The index a to-one loader builds: every node joins the list of its key. */
  function FkIndex(e: Edge, nodes: seq<Entity>): map<int, seq<Entity>> {
    if nodes == [] then map[]
    else
      var front, last := FkIndex(e, nodes[..|nodes| - 1]), nodes[|nodes| - 1];
      var fk := Fk(e, last.row);
      if fk == None then front
      else front[fk.value := (if fk.value in front then front[fk.value] else []) + [last]]
  }

  /** The index lists exactly the keys that are held, each with its holders. */
  lemma {:induction false} FkIndexHolders(e: Edge, nodes: seq<Entity>, fk: int)
    ensures if fk in FkIndex(e, nodes) then FkIndex(e, nodes)[fk] == Holders(e, nodes, fk) != []
            else Holders(e, nodes, fk) == []
  {
    if nodes != [] {
      var i := |nodes| - 1;
      FkIndexHolders(e, nodes[..i], fk);
      assert nodes[..i + 1] == nodes;
      FilterStep((n: Entity) => Fk(e, n.row) == Some(fk), nodes, i);
    }
  }

  /** The neighbour a to-one slot ends with: the last one that carries the key, if any. */
  function LastWith(fk: Option<int>, neighbors: seq<Entity>): (slot: seq<Entity>)
    ensures |slot| <= 1
  {
    if neighbors == [] then []
    else
      var last := neighbors[|neighbors| - 1];
      if fk == Some(Id(last.row)) then [last] else LastWith(fk, neighbors[..|neighbors| - 1])
  }

  lemma {:induction false} LastWithNone(fk: Option<int>, neighbors: seq<Entity>)
    requires forall k :: 0 <= k < |neighbors| ==> fk != Some(Id(neighbors[k].row))
    ensures LastWith(fk, neighbors) == []
  {
    if neighbors != [] { LastWithNone(fk, neighbors[..|neighbors| - 1]); }
  }

  lemma {:induction false} LastWithUnique(fk: Option<int>, neighbors: seq<Entity>, k: nat)
    requires k < |neighbors| && fk == Some(Id(neighbors[k].row))
    requires forall j :: 0 <= j < |neighbors| && j != k ==> fk != Some(Id(neighbors[j].row))
    ensures LastWith(fk, neighbors) == [neighbors[k]]
  {
    if k < |neighbors| - 1 { LastWithUnique(fk, neighbors[..|neighbors| - 1], k); }
  }

  lemma LastWithStep(fk: Option<int>, neighbors: seq<Entity>, k: nat)
    requires k < |neighbors|
    ensures LastWith(fk, neighbors[..k + 1]) ==
            if fk == Some(Id(neighbors[k].row)) then [neighbors[k]] else LastWith(fk, neighbors[..k])
  {
    assert neighbors[..k + 1][..k] == neighbors[..k];
  }

  lemma LastWithStepAll(e: Edge, nodes: seq<Entity>, neighbors: seq<Entity>, k: nat)
    requires k < |neighbors|
    ensures forall x :: x in nodes ==>
              LastWith(Fk(e, x.row), neighbors[..k + 1]) ==
              if Fk(e, x.row) == Some(Id(neighbors[k].row)) then [neighbors[k]] else LastWith(Fk(e, x.row), neighbors[..k])
  {
    forall x | x in nodes { LastWithStep(Fk(e, x.row), neighbors, k); }
  }

  /** The rows that nodes carry. */
  function RowsOf(nodes: seq<Entity>): (rows: seq<Row>)
    ensures |rows| == |nodes| && forall i :: 0 <= i < |nodes| ==> rows[i] == nodes[i].row
  {
    Map((n: Entity) => n.row, nodes)
  }

  lemma FkIndexStep(e: Edge, nodes: seq<Entity>, i: nat)
    requires i < |nodes|
    ensures var front, fk := FkIndex(e, nodes[..i]), Fk(e, nodes[i].row);
            FkIndex(e, nodes[..i + 1]) ==
            if fk == None then front
            else front[fk.value := (if fk.value in front then front[fk.value] else []) + [nodes[i]]]
  {
    assert nodes[..i + 1][..i] == nodes[..i];
  }

  /** First loop of a to-one loader: distinct keys in order, and who holds each. */
  method IndexByFk(e: Edge, nodes: seq<Entity>) returns (ids: seq<int>, holders: map<int, seq<Entity>>)
    ensures ids == Keys(e, RowsOf(nodes))
    ensures forall id :: id in ids <==> id in holders
    ensures holders == FkIndex(e, nodes)
  {
    ids, holders := [], map[];
    for i := 0 to |nodes|
      invariant ids == Keys(e, RowsOf(nodes)[..i])
      invariant forall id :: id in ids <==> id in holders
      invariant holders == FkIndex(e, nodes[..i])
    {
      FkIndexStep(e, nodes, i);
      KeysStep(e, RowsOf(nodes), i);
      var fk := Fk(e, nodes[i].row);
      if fk.Some? {
        if fk.value !in holders {
          ids := ids + [fk.value];
        }
        holders := holders[fk.value := (if fk.value in holders then holders[fk.value] else []) + [nodes[i]]];
      }
    }
    assert nodes[..|nodes|] == nodes && RowsOf(nodes)[..|nodes|] == RowsOf(nodes);
  }

  /** Inner loop of a to-one loader: one neighbour is stored in every holder of its id. */
  method StoreInAll(e: Edge, hs: seq<Entity>, n: Entity)
    requires Distinct(hs)
    modifies hs
    ensures forall x :: x in hs ==> Wrote(old(x.edges), x.edges, e, [n])
  {
    for i := 0 to |hs|
      invariant forall k :: 0 <= k < i ==> Wrote(old(hs[k].edges), hs[k].edges, e, [n])
      invariant forall k :: i <= k < |hs| ==> hs[k].edges == old(hs[k].edges)
    {
      hs[i].SetSlot(e, [n]);
    }
  }

  /** One round of the second loop of a to-one loader. */
  method StoreNext(e: Edge, nodes: seq<Entity>, holders: map<int, seq<Entity>>, n: Entity)
    requires Distinct(nodes) && holders == FkIndex(e, nodes) && Id(n.row) in holders
    modifies nodes
    ensures forall x :: x in nodes ==>
              if Fk(e, x.row) == Some(Id(n.row)) then Wrote(old(x.edges), x.edges, e, [n]) else x.edges == old(x.edges)
  {
    FkIndexHolders(e, nodes, Id(n.row));
    HoldersDistinct(e, nodes, Id(n.row));
    StoreInAll(e, holders[Id(n.row)], n);
  }

  /** Second loop of a to-one loader. */
  method AssignOne(e: Edge, nodes: seq<Entity>, holders: map<int, seq<Entity>>, neighbors: seq<Entity>)
    returns (err: Option<LoadError>)
    requires Distinct(nodes) && holders == FkIndex(e, nodes)
    requires forall x :: x in nodes ==> x.Slot(e) == []
    modifies nodes
    ensures err == None <==> AllKnown(holders.Keys, neighbors)
    ensures err.Some? ==> exists n :: n in neighbors && Id(n.row) !in holders && err.value == UnexpectedForeignKey(Id(n.row))
    ensures err == None ==> forall x :: x in nodes ==>
              Wrote(old(x.edges), x.edges, e, LastWith(Fk(e, x.row), neighbors))
  {
    for k := 0 to |neighbors|
      invariant AllKnown(holders.Keys, neighbors[..k])
      invariant forall x :: x in nodes ==>
                  Wrote(old(x.edges), x.edges, e, LastWith(Fk(e, x.row), neighbors[..k]))
    {
      var n := neighbors[k];
      AllKnownStep(holders.Keys, neighbors, k);
      if Id(n.row) !in holders {
        assert n in neighbors;
        return Some(UnexpectedForeignKey(Id(n.row)));
      }
      LastWithStepAll(e, nodes, neighbors, k);
      label before:
      StoreNext(e, nodes, holders, n);
      forall x | x in nodes ensures Wrote(old(x.edges), x.edges, e, LastWith(Fk(e, x.row), neighbors[..k + 1])) {
        if Fk(e, x.row) == Some(Id(n.row)) {
          WroteTwice(old(x.edges), old@before(x.edges), x.edges, e, LastWith(Fk(e, x.row), neighbors[..k]), [n]);
        }
      }
    }
    assert neighbors[..|neighbors|] == neighbors;
    return None;
  }

  // ---------- many to many ----------

  /** The target rows of a joined result in order of first appearance, each id once. */
  function FirstRows(rows: seq<(int, Row)>): seq<Row> {
    if rows == [] then []
    else
      var front, last := FirstRows(rows[..|rows| - 1]), rows[|rows| - 1];
      if Id(last.1) in Ids(front) then front else front + [last.1]
  }

  /** Every id once, every mentioned id, and only rows that were mentioned. */
  lemma {:induction false} FirstRowsMembers(rows: seq<(int, Row)>)
    ensures Distinct(Ids(FirstRows(rows)))
    ensures forall r :: r in rows ==> Id(r.1) in Ids(FirstRows(rows))
    ensures forall r :: r in FirstRows(rows) ==> exists p :: p in rows && p.1 == r
  {
    if rows != [] {
      var front, last := rows[..|rows| - 1], rows[|rows| - 1];
      FirstRowsMembers(front);
      assert rows == front + [last];
      IdsSnoc(FirstRows(front), last.1);
      forall r | r in FirstRows(rows) ensures exists p :: p in rows && p.1 == r {
        if r in FirstRows(front) {
          var p :| p in front && p.1 == r;
          assert p in rows;
        } else {
          assert last in rows && last.1 == r;
        }
      }
    }
  }

  lemma FirstRowsStep(rows: seq<(int, Row)>, i: nat)
    requires i < |rows|
    ensures FirstRows(rows[..i + 1]) ==
            if Id(rows[i].1) in Ids(FirstRows(rows[..i])) then FirstRows(rows[..i])
            else FirstRows(rows[..i]) + [rows[i].1]
  {
    assert rows[..i + 1][..i] == rows[..i];
  }

  /** The sources whose joined rows mention a target id. */
  ghost function Wanting(byId: map<int, Entity>, rows: seq<(int, Row)>, id: int): set<Entity> {
    set r | r in rows && Id(r.1) == id && r.0 in byId :: byId[r.0]
  }

  /** Who wants which target, for exactly the targets that occur. */
  ghost predicate Records(byId: map<int, Entity>, rows: seq<(int, Row)>, wanted: map<int, set<Entity>>) {
    && (forall id :: id in wanted <==> id in Ids(FirstRows(rows)))
    && (forall id :: id in wanted ==> wanted[id] == Wanting(byId, rows, id))
  }

  function Note(wanted: map<int, set<Entity>>, id: int, x: Entity): map<int, set<Entity>> {
    wanted[id := (if id in wanted then wanted[id] else {}) + {x}]
  }

  lemma WantingStep(byId: map<int, Entity>, rows: seq<(int, Row)>, i: nat, id: int)
    requires i < |rows| && rows[i].0 in byId
    ensures Wanting(byId, rows[..i + 1], id) ==
            Wanting(byId, rows[..i], id) + if Id(rows[i].1) == id then {byId[rows[i].0]} else {}
  {
    assert rows[..i + 1] == rows[..i] + [rows[i]];
  }

  lemma IdsSnoc(rows: seq<Row>, r: Row)
    ensures Ids(rows + [r]) == Ids(rows) + [Id(r)]
  {
  }

  lemma FirstRowsIds(rows: seq<(int, Row)>, i: nat)
    requires i < |rows|
    ensures forall x :: x in Ids(FirstRows(rows[..i + 1])) <==> x in Ids(FirstRows(rows[..i])) || x == Id(rows[i].1)
  {
    FirstRowsStep(rows, i);
    IdsSnoc(FirstRows(rows[..i]), rows[i].1);
  }

  lemma NotYetWanted(byId: map<int, Entity>, rows: seq<(int, Row)>, id: int)
    requires id !in Ids(FirstRows(rows))
    ensures Wanting(byId, rows, id) == {}
  {
    FirstRowsMembers(rows);
  }

  lemma RecordsStep(byId: map<int, Entity>, rows: seq<(int, Row)>, wanted: map<int, set<Entity>>, i: nat)
    requires i < |rows| && rows[i].0 in byId && Records(byId, rows[..i], wanted)
    ensures var id := Id(rows[i].1);
            Records(byId, rows[..i + 1], Note(wanted, id, byId[rows[i].0]))
            && (id in wanted <==> id in Ids(FirstRows(rows[..i])))
  {
    FirstRowsIds(rows, i);
    forall x { WantingStep(byId, rows, i, x); }
    if Id(rows[i].1) !in wanted {
      NotYetWanted(byId, rows[..i], Id(rows[i].1));
    }
  }

  /** A joined row gives a node only if its target is new. */
  method ScanTarget(t: Table, q: Query, e: Edge, target: Row, known: bool, neighbors: seq<Entity>,
                    ghost rows: seq<(int, Row)>, ghost i: nat)
    returns (more: seq<Entity>)
    requires i < |rows| && rows[i].1 == target && (known <==> Id(target) in Ids(FirstRows(rows[..i])))
    requires NodesOf(t, q, Some(e), FirstRows(rows[..i]), neighbors)
    ensures NodesOf(t, q, Some(e), FirstRows(rows[..i + 1]), more)
    ensures neighbors <= more && fresh(more[|neighbors|..])
  {
    FirstRowsStep(rows, i);
    more := neighbors;
    if !known {
      more := ScanRow(t, q, Some(e), target, neighbors, FirstRows(rows[..i]));
    }
  }

  /** The assign hook of a many-to-many loader. Each joined row is (source id, target row): the
      first row of a target creates its node, every row records which source wants it. */
  method ScanJoined(t: Table, q: Query, e: Edge, byId: map<int, Entity>, rows: seq<(int, Row)>)
    returns (neighbors: seq<Entity>, wanted: map<int, set<Entity>>)
    requires forall r :: r in rows ==> r.0 in byId
    ensures fresh(neighbors) && NodesOf(t, q, Some(e), FirstRows(rows), neighbors)
    ensures Records(byId, rows, wanted)
  {
    neighbors, wanted := [], map[];
    for i := 0 to |rows|
      invariant fresh(neighbors) && NodesOf(t, q, Some(e), FirstRows(rows[..i]), neighbors)
      invariant Records(byId, rows[..i], wanted)
    {
      var (out, target) := rows[i];
      assert rows[i] in rows;
      RecordsStep(byId, rows, wanted, i);
      var more := ScanTarget(t, q, e, target, Id(target) in wanted, neighbors, rows, i);
      assert more == neighbors + more[|neighbors|..];
      neighbors := more;
      wanted := Note(wanted, Id(target), byId[out]);
    }
    assert rows[..|rows|] == rows;
  }

  /** The neighbours a node asked for, in neighbour order. */
  function WantedBy(node: Entity, wanted: map<int, set<Entity>>, neighbors: seq<Entity>): seq<Entity> {
    Filter((n: Entity) => Id(n.row) in wanted && node in wanted[Id(n.row)], neighbors)
  }

  /** Appends one neighbour to every node of a set, visiting the set in an arbitrary order, as a
      range over a map does. */
  method AppendToAll(e: Edge, nodes: seq<Entity>, who: set<Entity>, n: Entity)
    requires forall x :: x in who ==> x in nodes
    modifies nodes
    ensures forall x :: x in nodes ==>
              if x in who then Wrote(old(x.edges), x.edges, e, old(x.Slot(e)) + [n]) else x.edges == old(x.edges)
  {
    var todo := who;
    while todo != {}
      invariant todo <= who
      invariant forall x :: x in nodes ==>
                  if x in who && x !in todo then Wrote(old(x.edges), x.edges, e, old(x.Slot(e)) + [n])
                  else x.edges == old(x.edges)
    {
      var x :| x in todo;
      x.SetSlot(e, x.Slot(e) + [n]);
      todo := todo - {x};
    }
  }

  /** Second loop of a many-to-many loader. */
  method AssignJoined(e: Edge, nodes: seq<Entity>, wanted: map<int, set<Entity>>, neighbors: seq<Entity>)
    returns (err: Option<LoadError>)
    requires forall id :: id in wanted ==> forall x | x in wanted[id] :: x in nodes
    requires forall x :: x in nodes ==> x.Slot(e) == []
    modifies nodes
    ensures err == None <==> AllKnown(wanted.Keys, neighbors)
    ensures err.Some? ==> exists n :: n in neighbors && Id(n.row) !in wanted && err.value == UnexpectedForeignKey(Id(n.row))
    ensures err == None ==> forall x :: x in nodes ==>
              Wrote(old(x.edges), x.edges, e, WantedBy(x, wanted, neighbors))
  {
    for k := 0 to |neighbors|
      invariant AllKnown(wanted.Keys, neighbors[..k])
      invariant forall x :: x in nodes ==>
                  Wrote(old(x.edges), x.edges, e, WantedBy(x, wanted, neighbors[..k]))
    {
      var n := neighbors[k];
      assert neighbors[..k + 1] == neighbors[..k] + [n];
      if Id(n.row) !in wanted {
        assert n in neighbors;
        return Some(UnexpectedForeignKey(Id(n.row)));
      }
      forall x | x in nodes
        ensures WantedBy(x, wanted, neighbors[..k + 1]) ==
                if x in wanted[Id(n.row)] then WantedBy(x, wanted, neighbors[..k]) + [n]
                else WantedBy(x, wanted, neighbors[..k])
      {
        FilterStep((n: Entity) => Id(n.row) in wanted && x in wanted[Id(n.row)], neighbors, k);
      }
      AppendToAll(e, nodes, wanted[Id(n.row)], n);
    }
    assert neighbors[..|neighbors|] == neighbors;
    return None;
  }
}
