/** The tables and edges of the account side of the schema, rows, and the database as relations. */
module Schema {
  import opened Prelude

  datatype Table = Accounts | Groups | Proxies | UsageLogs | AccountGroups

  /** Cells hold integers or text; NULL and an unselected column are an absent key. */
  datatype Value = Int(n: int) | Text(s: string)

  type Row = map<string, Value>

  datatype Edge =
    | AccountToGroups | AccountToProxy | AccountToParent
    | AccountToChildren | AccountToUsageLogs | AccountToAccountGroups
    | AccountGroupToAccount | AccountGroupToGroup
    | GroupToAccounts | GroupToAccountGroups

  datatype Kind = ToOne | ToMany | ManyToMany

  function KindOf(e: Edge): Kind {
    match e
    case AccountToGroups | GroupToAccounts => ManyToMany
    case AccountToProxy | AccountToParent | AccountGroupToAccount | AccountGroupToGroup => ToOne
    case _ => ToMany
  }

  /** The order in which the generated loader of a table visits its edges. */
  function EdgesOf(t: Table): seq<Edge> {
    match t
    case Accounts => [AccountToGroups, AccountToProxy, AccountToParent,
                      AccountToChildren, AccountToUsageLogs, AccountToAccountGroups]
    case Groups => [GroupToAccounts, GroupToAccountGroups]
    case AccountGroups => [AccountGroupToAccount, AccountGroupToGroup]
    case _ => []
  }

  function Target(e: Edge): Table {
    match e
    case AccountToGroups | AccountGroupToGroup => Groups
    case AccountToProxy => Proxies
    case AccountToParent | AccountToChildren | AccountGroupToAccount | GroupToAccounts => Accounts
    case AccountToUsageLogs => UsageLogs
    case AccountToAccountGroups | GroupToAccountGroups => AccountGroups
  }

  /** The foreign key: a column of the source for ToOne, of the target for ToMany, and for
      ManyToMany the join-table column that names the source. */
  function FkColumn(e: Edge): string {
    match e
    case AccountToProxy => "proxy_id"
    case AccountToParent | AccountToChildren => "parent_account_id"
    case AccountToUsageLogs | AccountToAccountGroups | AccountGroupToAccount | AccountToGroups => "account_id"
    case AccountGroupToGroup | GroupToAccountGroups | GroupToAccounts => "group_id"
  }

  /** The join-table column that names the target of a ManyToMany edge. */
  function JoinTargetColumn(e: Edge): string {
    if e == AccountToGroups then "group_id" else "account_id"
  }

  /** Nullable keys are pointers in the node; the others are plain integers that default to 0. */
  predicate FkNullable(e: Edge) {
    e == AccountToProxy || e == AccountToParent || e == AccountToChildren
  }

  /** account_groups has a composite key and no id column. */
  predicate HasId(t: Table) { t != AccountGroups }

  function IntAt(row: Row, column: string): Option<int> {
    if column in row && row[column].Int? then Some(row[column].n) else None
  }

  function Id(row: Row): int {
    var v := IntAt(row, "id");
    if v.Some? then v.value else 0
  }

  /** The foreign key as the scanned node exposes it. */
  function Fk(e: Edge, row: Row): Option<int> {
    var v := IntAt(row, FkColumn(e));
    if v.Some? || FkNullable(e) then v else Some(0)
  }

  /** The distinct keys that rows carry, in order of first appearance. */
  function Keys(e: Edge, rows: seq<Row>): seq<int> {
    if rows == [] then []
    else
      var front, fk := Keys(e, rows[..|rows| - 1]), Fk(e, rows[|rows| - 1]);
      if fk == None || fk.value in front then front else front + [fk.value]
  }

  lemma KeysStep(e: Edge, rows: seq<Row>, i: nat)
    requires i < |rows|
    ensures var front, fk := Keys(e, rows[..i]), Fk(e, rows[i]);
            Keys(e, rows[..i + 1]) == if fk == None || fk.value in front then front else front + [fk.value]
  {
    assert rows[..i + 1][..i] == rows[..i];
  }

  ghost predicate Carried(e: Edge, rows: seq<Row>, id: int) {
    exists k :: 0 <= k < |rows| && Fk(e, rows[k]) == Some(id)
  }

  lemma CarriedStep(e: Edge, rows: seq<Row>, id: int)
    requires rows != []
    ensures Carried(e, rows, id) <==> Carried(e, rows[..|rows| - 1], id) || Fk(e, rows[|rows| - 1]) == Some(id)
  {
    var front := rows[..|rows| - 1];
    assert rows == front + [rows[|rows| - 1]];
    if k :| 0 <= k < |front| && Fk(e, front[k]) == Some(id) { assert rows[k] == front[k]; }
    if k :| 0 <= k < |rows| && Fk(e, rows[k]) == Some(id) {
      if k < |front| { assert front[k] == rows[k]; }
    }
  }

  lemma {:induction false} KeysMembers(e: Edge, rows: seq<Row>)
    ensures forall id :: id in Keys(e, rows) <==> exists k :: 0 <= k < |rows| && Fk(e, rows[k]) == Some(id)
    ensures Distinct(Keys(e, rows))
  {
    if rows != [] {
      KeysMembers(e, rows[..|rows| - 1]);
      forall id ensures id in Keys(e, rows) <==> Carried(e, rows, id) { CarriedStep(e, rows, id); }
    }
  }

  /** Only the keys of the rows matter. */
  lemma {:induction false} KeysSame(e: Edge, rows: seq<Row>, other: seq<Row>)
    requires |rows| == |other| && forall k :: 0 <= k < |rows| ==> Fk(e, rows[k]) == Fk(e, other[k])
    ensures Keys(e, rows) == Keys(e, other)
  {
    if rows != [] { KeysSame(e, rows[..|rows| - 1], other[..|rows| - 1]); }
  }

  datatype DB = DB(accounts: seq<Row>, groups: seq<Row>, proxies: seq<Row>,
                   usageLogs: seq<Row>, accountGroups: seq<Row>)
  {
    function Rows(t: Table): seq<Row> {
      match t
      case Accounts => accounts
      case Groups => groups
      case Proxies => proxies
      case UsageLogs => usageLogs
      case AccountGroups => accountGroups
    }
  }

  function Ids(rows: seq<Row>): (ids: seq<int>)
    ensures |ids| == |rows|
    ensures forall i :: 0 <= i < |rows| ==> ids[i] == Id(rows[i])
  {
    Map((r: Row) => Id(r), rows)
  }

  /** Primary keys are present and unique, and NOT NULL keys are filled in. */
  ghost predicate ValidRows(t: Table, rows: seq<Row>) {
    && (HasId(t) ==> Distinct(Ids(rows)) && forall r :: r in rows ==> IntAt(r, "id").Some?)
    && forall r, e :: r in rows && e in EdgesOf(t) && KindOf(e) == ToOne && !FkNullable(e) ==>
         IntAt(r, FkColumn(e)).Some?
  }

  ghost predicate ValidDB(db: DB) {
    forall t :: ValidRows(t, db.Rows(t))
  }

  /** What it means for dst to be a neighbour of src, row by row. */
  ghost predicate Linked(e: Edge, db: DB, src: Row, dst: Row) {
    match KindOf(e)
    case ToOne => Fk(e, src) == Some(Id(dst))
    case ToMany => IntAt(dst, FkColumn(e)) == Some(Id(src))
    case ManyToMany =>
      exists j :: j in db.accountGroups
        && IntAt(j, FkColumn(e)) == Some(Id(src)) && IntAt(j, JoinTargetColumn(e)) == Some(Id(dst))
  }

  lemma IdsDistinctRowsDistinct(rows: seq<Row>)
    requires Distinct(Ids(rows))
    ensures Distinct(rows)
  {
    forall i, j | 0 <= i < j < |rows| ensures rows[i] != rows[j] {
      assert Ids(rows)[i] != Ids(rows)[j];
    }
  }

  /** A duplicate-free list of rows of a table has distinct ids. */
  lemma RowsDistinctIdsDistinct(t: Table, table: seq<Row>, rows: seq<Row>)
    requires ValidRows(t, table) && HasId(t) && Distinct(rows)
    requires forall r :: r in rows ==> r in table
    ensures Distinct(Ids(rows))
  {
    forall i, j | 0 <= i < j < |rows| ensures Ids(rows)[i] != Ids(rows)[j] {
      if Id(rows[i]) == Id(rows[j]) { SameIdSameRow(t, table, rows[i], rows[j]); }
    }
  }

  /** Two rows of a table with the same id are the same row. */
  lemma SameIdSameRow(t: Table, rows: seq<Row>, a: Row, b: Row)
    requires ValidRows(t, rows) && HasId(t) && a in rows && b in rows && Id(a) == Id(b)
    ensures a == b
  {
    var i :| 0 <= i < |rows| && rows[i] == a;
    var j :| 0 <= j < |rows| && rows[j] == b;
    assert Ids(rows)[i] == Ids(rows)[j];
  }
}

/** Query builders as values: the part of a query the row source sees, and the tree of
    eager-load requests. */
module Queries {
  import opened Prelude
  import opened Schema

  /** One query's own settings. Interceptors and modifiers are only carried along; `fails` stands
      for any error the query's execution raises: an interceptor, an invalid field name or the
      driver. `joins` are the batches of earlier many-to-many loads, whose join conditions stay on
      the query they ran. */
  datatype Core = Core(
    fields: seq<string>,
    limit: Option<nat>,
    offset: Option<nat>,
    unique: Option<bool>,
    preds: seq<Row -> bool>,
    order: seq<Row -> int>,
    inters: seq<nat>,
    traversal: bool,
    modifiers: seq<nat>,
    joins: seq<seq<int>>,
    fails: bool)

  datatype Query = Query(core: Core, with: map<Edge, Query>)

  /** The eager-load requests of a query are edges of its own table. */
  ghost predicate WellTyped(q: Query, t: Table)
    decreases q
  {
    forall e | e in q.with :: e in EdgesOf(t) && WellTyped(q.with[e], Target(e))
  }

  ghost predicate AnyFails(q: Query)
    decreases q
  {
    q.core.fails || exists e | e in q.with :: AnyFails(q.with[e])
  }

  predicate NoWindow(core: Core) { core.limit == None && core.offset == None }

  /** No query below the root carries a limit, an offset or the join of an earlier load. */
  ghost predicate PlainBelow(q: Query)
    decreases q
  {
    forall e | e in q.with :: NoWindow(q.with[e].core) && q.with[e].core.joins == [] && PlainBelow(q.with[e])
  }

  /** No query below the root carries the join of an earlier load. */
  ghost predicate JoinFree(q: Query)
    decreases q
  {
    forall e | e in q.with :: q.with[e].core.joins == [] && JoinFree(q.with[e])
  }

  lemma {:induction false} PlainIsJoinFree(q: Query)
    requires PlainBelow(q)
    ensures JoinFree(q)
    decreases q
  {
    forall e | e in q.with ensures JoinFree(q.with[e]) { PlainIsJoinFree(q.with[e]); }
  }

  // ---------- running one query ----------

  predicate Holds(preds: seq<Row -> bool>, r: Row) {
    preds == [] || (preds[0](r) && Holds(preds[1..], r))
  }

  function SortKey(order: seq<Row -> int>, r: Row): seq<int> {
    Map((k: Row -> int) => k(r), order)
  }

  /** OFFSET then LIMIT; a zero limit means none, as in the query executor. */
  function Window<T>(core: Core, xs: seq<T>): (ys: seq<T>)
    ensures NoWindow(core) ==> ys == xs
    ensures |ys| <= |xs|
  {
    var from := if core.offset.Some? then core.offset.value else 0;
    var rest := if from <= |xs| then xs[from..] else [];
    if core.limit.Some? && core.limit.value != 0 && core.limit.value < |rest|
    then rest[..core.limit.value] else rest
  }

  function KeyOf(core: Core): Row -> seq<int> {
    (r: Row) => SortKey(core.order, r)
  }

  /** The query's own predicates and one more that the caller adds. */
  function Passes(core: Core, where: Row -> bool): Row -> bool {
    (r: Row) => Holds(core.preds, r) && where(r)
  }

  /** The rows of a query before its window: predicates, then ORDER BY. */
  function Matching(core: Core, where: Row -> bool, rows: seq<Row>): seq<Row> {
    Sort(KeyOf(core), Filter(Passes(core, where), rows))
  }

  lemma MatchingMembers(core: Core, where: Row -> bool, rows: seq<Row>)
    ensures forall r :: r in Matching(core, where, rows) <==> r in rows && Holds(core.preds, r) && where(r)
  {
    FilterMembers(Passes(core, where), rows);
    SortMembers(KeyOf(core), Filter(Passes(core, where), rows));
  }

  /** A query over a table with an id returns each row at most once. */
  lemma MatchingDistinct(t: Table, core: Core, where: Row -> bool, rows: seq<Row>)
    requires ValidRows(t, rows) && HasId(t)
    ensures Distinct(Matching(core, where, rows)) && Distinct(Ids(Matching(core, where, rows)))
  {
    IdsDistinctRowsDistinct(rows);
    FilterDistinct(Passes(core, where), rows);
    SortDistinct(KeyOf(core), Filter(Passes(core, where), rows));
    MatchingMembers(core, where, rows);
    RowsDistinctIdsDistinct(t, rows, Matching(core, where, rows));
  }

  /** A narrower condition can be applied after the query instead of inside it. */
  lemma NarrowAfter(core: Core, wide: Row -> bool, narrow: Row -> bool, rows: seq<Row>)
    requires forall r :: r in rows && narrow(r) ==> wide(r)
    ensures Filter(narrow, Matching(core, wide, rows)) == Matching(core, narrow, rows)
  {
    FilterSort(narrow, KeyOf(core), Filter(Passes(core, wide), rows));
    FilterTwice(narrow, Passes(core, wide), Passes(core, narrow), rows);
  }

  // ---------- projection ----------

  function AddOnce(columns: seq<string>, c: string): seq<string> {
    if c in columns then columns else columns + [c]
  }

  function AddFkColumns(columns: seq<string>, edges: seq<Edge>, with: map<Edge, Query>): seq<string>
    decreases |edges|
  {
    if edges == [] then columns
    else
      var e := edges[0];
      AddFkColumns(if KindOf(e) == ToOne && e in with then AddOnce(columns, FkColumn(e)) else columns,
                   edges[1..], with)
  }

  /** Fields of a query reached over `via`: a ToMany loader asks for its foreign key as well. */
  function EffectiveFields(core: Core, via: Option<Edge>): seq<string> {
    if core.fields != [] && via.Some? && KindOf(via.value) == ToMany
    then AddOnce(core.fields, FkColumn(via.value)) else core.fields
  }

  /** The column list of a projected query (fields given). */
  function Columns(t: Table, q: Query, fields: seq<string>): seq<string> {
    AddFkColumns(if HasId(t) then ["id"] + Filter(OtherThanId(), fields) else fields, EdgesOf(t), q.with)
  }

  function OtherThanId(): string -> bool {
    (f: string) => f != "id"
  }

  /** The column list as it is put together: the id, the other fields, then the missing keys. */
  method SpecColumns(t: Table, q: Query, fields: seq<string>) returns (columns: seq<string>)
    ensures columns == Columns(t, q, fields)
  {
    columns := if HasId(t) then ["id"] else [];
    for i := 0 to |fields|
      invariant columns == if HasId(t) then ["id"] + Filter(OtherThanId(), fields[..i]) else fields[..i]
    {
      FilterStep(OtherThanId(), fields, i);
      if !HasId(t) || fields[i] != "id" {
        columns := columns + [fields[i]];
      }
    }
    assert fields[..|fields|] == fields;
    var edges := EdgesOf(t);
    for k := 0 to |edges|
      invariant AddFkColumns(columns, edges[k..], q.with) == Columns(t, q, fields)
    {
      assert edges[k..][0] == edges[k] && edges[k..][1..] == edges[k + 1..];
      if KindOf(edges[k]) == ToOne && edges[k] in q.with {
        columns := AddOnce(columns, FkColumn(edges[k]));
      }
    }
  }

  /** The row as the node of the query carries it. */
  function NodeRow(t: Table, q: Query, via: Option<Edge>, row: Row): Row {
    var fields := EffectiveFields(q.core, via);
    if fields == [] then row
    else map c | c in row && c in Columns(t, q, fields) :: row[c]
  }

  ghost function LinkedTo(e: Edge, db: DB, row: Row): Row -> bool {
    (r: Row) => Linked(e, db, row, r)
  }

  /** The neighbours of one row, looked up for that row alone. */
  ghost function Lookup(sub: Query, e: Edge, db: DB, row: Row): seq<Row> {
    Matching(sub.core, LinkedTo(e, db, row), db.Rows(Target(e)))
  }

  // ---------- facts about columns ----------

  lemma {:induction false} AddFkColumnsKeeps(columns: seq<string>, edges: seq<Edge>, with: map<Edge, Query>)
    ensures columns <= AddFkColumns(columns, edges, with)
    ensures forall e :: e in edges && KindOf(e) == ToOne && e in with ==>
              FkColumn(e) in AddFkColumns(columns, edges, with)
    ensures "id" in columns ==>
              forall i :: |columns| <= i < |AddFkColumns(columns, edges, with)| ==>
                AddFkColumns(columns, edges, with)[i] != "id"
    decreases |edges|
  {
    if edges != [] {
      var e := edges[0];
      var more := if KindOf(e) == ToOne && e in with then AddOnce(columns, FkColumn(e)) else columns;
      AddFkColumnsKeeps(more, edges[1..], with);
      var all := AddFkColumns(columns, edges, with);
      assert columns <= more <= all;
      if KindOf(e) == ToOne && e in with {
        var i :| 0 <= i < |more| && more[i] == FkColumn(e);
        assert all[i] == FkColumn(e);
      }
      forall x | x in edges && KindOf(x) == ToOne && x in with ensures FkColumn(x) in all {
        assert x == e || x in edges[1..];
      }
      if "id" in columns {
        assert "id" in more;
        forall i | |columns| <= i < |all| ensures all[i] != "id" {
          if i < |more| { assert all[i] == more[i] == FkColumn(e); }
        }
      }
    }
  }

  /** Whatever fields are selected, a table with an id has it first and only there, and every
      requested to-one edge finds its foreign key among the columns. */
  lemma ColumnsComplete(t: Table, q: Query, fields: seq<string>)
    ensures var cs := Columns(t, q, fields);
            && (HasId(t) ==> cs != [] && cs[0] == "id" && forall i :: 0 < i < |cs| ==> cs[i] != "id")
            && (forall f :: f in fields ==> f in cs)
            && (forall e :: e in EdgesOf(t) && KindOf(e) == ToOne && e in q.with ==> FkColumn(e) in cs)
  {
    var others := Filter(OtherThanId(), fields);
    var base := if HasId(t) then ["id"] + others else fields;
    FilterMembers(OtherThanId(), fields);
    AddFkColumnsKeeps(base, EdgesOf(t), q.with);
    var cs := Columns(t, q, fields);
    assert base <= cs;
    forall f | f in fields ensures f in cs {
      assert f in base by { if HasId(t) && f != "id" { assert f in others; } }
      var i :| 0 <= i < |base| && base[i] == f;
      assert cs[i] == f;
    }
    if HasId(t) {
      forall i | 0 < i < |cs| ensures cs[i] != "id" {
        if i < |base| { assert cs[i] == others[i - 1]; assert others[i - 1] in others; }
      }
    }
  }

  /** Projection keeps the id and the keys that loaders read. */
  lemma NodeRowKeys(t: Table, q: Query, via: Option<Edge>, row: Row)
    ensures HasId(t) ==> Id(NodeRow(t, q, via, row)) == Id(row)
    ensures forall e :: e in EdgesOf(t) && KindOf(e) == ToOne && e in q.with ==>
              Fk(e, NodeRow(t, q, via, row)) == Fk(e, row)
    ensures via.Some? && KindOf(via.value) == ToMany ==>
              Fk(via.value, NodeRow(t, q, via, row)) == Fk(via.value, row)
  {
    var fields := EffectiveFields(q.core, via);
    ColumnsComplete(t, q, fields);
    if fields != [] && via.Some? && KindOf(via.value) == ToMany {
      assert FkColumn(via.value) in fields;
    }
  }
}
