/** What queries, edges and projections mean, column by column and without the definitions that the
    loaders share with their specification. */
module QueryMeaning {
  import opened Prelude
  import opened Schema
  import opened Queries

  // ---------- which rows, and in which order ----------

  ghost predicate PassesAll(preds: seq<Row -> bool>, r: Row) {
    forall k | 0 <= k < |preds| :: preds[k](r)
  }

  lemma {:induction false} HoldsMeans(preds: seq<Row -> bool>, r: Row)
    ensures Holds(preds, r) <==> PassesAll(preds, r)
  {
    if preds != [] {
      HoldsMeans(preds[1..], r);
      if PassesAll(preds, r) {
        assert preds[0](r);
        forall k | 0 <= k < |preds| - 1 ensures preds[1..][k](r) { assert preds[k + 1](r); }
      }
      if Holds(preds, r) {
        forall k | 0 <= k < |preds| ensures preds[k](r) {
          if k > 0 { assert preds[1..][k - 1](r); }
        }
      }
    }
  }

  /** The first n ORDER BY keys of two rows are the same. */
  ghost predicate TiedUpTo(order: seq<Row -> int>, n: nat, a: Row, b: Row)
    requires n <= |order|
  {
    forall k | 0 <= k < n :: order[k](a) == order[k](b)
  }

  /** The first key that tells the rows apart puts a before b. */
  ghost predicate Precedes(order: seq<Row -> int>, a: Row, b: Row) {
    exists k :: 0 <= k < |order| && TiedUpTo(order, k, a, b) && order[k](a) < order[k](b)
  }

  lemma {:induction false} LexMeans(order: seq<Row -> int>, a: Row, b: Row)
    ensures LexLeq(SortKey(order, a), SortKey(order, b)) <==> Precedes(order, a, b) || TiedUpTo(order, |order|, a, b)
  {
    if order != [] {
      var rest := order[1..];
      LexMeans(rest, a, b);
      assert SortKey(order, a)[1..] == SortKey(rest, a) && SortKey(order, b)[1..] == SortKey(rest, b);
      assert SortKey(order, a)[0] == order[0](a) && SortKey(order, b)[0] == order[0](b);
      LexStep(order, a, b);
    }
  }

  /** One more key in front. */
  lemma LexStep(order: seq<Row -> int>, a: Row, b: Row)
    requires order != []
    ensures Precedes(order, a, b) <==>
            order[0](a) < order[0](b) || (order[0](a) == order[0](b) && Precedes(order[1..], a, b))
    ensures TiedUpTo(order, |order|, a, b) <==>
            order[0](a) == order[0](b) && TiedUpTo(order[1..], |order| - 1, a, b)
  {
    var rest := order[1..];
    forall n: nat | n <= |rest| ensures TiedUpTo(order, n + 1, a, b) <==> order[0](a) == order[0](b) && TiedUpTo(rest, n, a, b) {
      assert forall k | 0 <= k < n :: rest[k] == order[k + 1];
      if TiedUpTo(order, n + 1, a, b) {
        forall k | 0 <= k < n ensures rest[k](a) == rest[k](b) { assert order[k + 1](a) == order[k + 1](b); }
      }
    }
    if k :| 0 <= k < |order| && TiedUpTo(order, k, a, b) && order[k](a) < order[k](b) {
      if k > 0 { assert TiedUpTo(rest, k - 1, a, b) && rest[k - 1](a) < rest[k - 1](b); }
    }
    if order[0](a) < order[0](b) { assert TiedUpTo(order, 0, a, b); }
    if order[0](a) == order[0](b) && Precedes(rest, a, b) {
      var k :| 0 <= k < |rest| && TiedUpTo(rest, k, a, b) && rest[k](a) < rest[k](b);
      assert TiedUpTo(order, k + 1, a, b) && order[k + 1](a) < order[k + 1](b);
    }
  }

  /** The rows that a query matches: exactly those of the table that pass every predicate and the
      extra condition, as often as the table lists them; ordered by the first key that tells two
      rows apart, and as in the table where no key does. */
  lemma QueryMeans(core: Core, where: Row -> bool, rows: seq<Row>)
    ensures var found := Matching(core, where, rows);
            && (forall r :: multiset(found)[r] == if PassesAll(core.preds, r) && where(r) then multiset(rows)[r] else 0)
            && (forall i, j :: 0 <= i < j < |found| ==>
                  Precedes(core.order, found[i], found[j]) || TiedUpTo(core.order, |core.order|, found[i], found[j]))
            && (forall key :: Filter(HasKey(core, key), found) == Filter(HasKey(core, key), Filter(Passes(core, where), rows)))
  {
    var found, kept := Matching(core, where, rows), Filter(Passes(core, where), rows);
    SortMultiset(KeyOf(core), kept);
    forall r ensures multiset(found)[r] == if PassesAll(core.preds, r) && where(r) then multiset(rows)[r] else 0 {
      FilterCount(Passes(core, where), rows, r);
      HoldsMeans(core.preds, r);
    }
    SortSorted(KeyOf(core), kept);
    forall i, j | 0 <= i < j < |found|
      ensures Precedes(core.order, found[i], found[j]) || TiedUpTo(core.order, |core.order|, found[i], found[j])
    {
      assert LexLeq(KeyOf(core)(found[i]), KeyOf(core)(found[j]));
      LexMeans(core.order, found[i], found[j]);
    }
    forall key ensures Filter(HasKey(core, key), found) == Filter(HasKey(core, key), kept) {
      FilterSort(HasKey(core, key), KeyOf(core), kept);
      FilterMembers(HasKey(core, key), kept);
      TiedSort(KeyOf(core), Filter(HasKey(core, key), kept), key);
    }
  }

  /** The rows with one vector of ORDER BY keys. */
  function HasKey(core: Core, key: seq<int>): Row -> bool {
    (r: Row) => SortKey(core.order, r) == key
  }

  lemma {:induction false} FilterCount<T>(keep: T -> bool, xs: seq<T>, x: T)
    ensures multiset(Filter(keep, xs))[x] == if keep(x) then multiset(xs)[x] else 0
  {
    if xs != [] {
      FilterCount(keep, xs[1..], x);
      assert xs == [xs[0]] + xs[1..];
      if keep(xs[0]) { assert Filter(keep, xs) == [xs[0]] + Filter(keep, xs[1..]); }
    }
  }

  /** Sorting rows that all have one key leaves them alone. */
  lemma {:induction false} TiedSort<T(!new)>(key: T -> seq<int>, xs: seq<T>, tie: seq<int>)
    requires forall x | x in xs :: key(x) == tie
    ensures Sort(key, xs) == xs
  {
    if xs != [] {
      TiedSort(key, xs[1..], tie);
      LexTotal(tie, tie);
    }
  }

  /** Skip the offset, then keep at most the limit; a limit of zero keeps everything. */
  lemma WindowMeans<T>(core: Core, xs: seq<T>)
    ensures var ys, from := Window(core, xs), if core.offset == None then 0 else core.offset.value;
            && (forall k :: 0 <= k < |ys| ==> from + k < |xs| && ys[k] == xs[from + k])
            && (|xs| <= from ==> ys == [])
            && (from < |xs| && (core.limit == None || core.limit.value == 0 || |xs| - from <= core.limit.value) ==>
                  |ys| == |xs| - from)
            && (from < |xs| && core.limit.Some? && 0 < core.limit.value < |xs| - from ==> |ys| == core.limit.value)
  {
  }

  // ---------- which columns ----------

  /** A column that a node carries besides the selected ones: the id, the key of a requested to-one
      edge, or the key by which a to-many loader groups the node. */
  predicate KeyColumn(t: Table, with: set<Edge>, via: Option<Edge>, c: string) {
    || (c == "id" && t != AccountGroups)
    || (c == "proxy_id" && t == Accounts && AccountToProxy in with)
    || (c == "parent_account_id" && ((t == Accounts && AccountToParent in with) || via == Some(AccountToChildren)))
    || (c == "account_id" && ((t == AccountGroups && AccountGroupToAccount in with)
                              || via == Some(AccountToUsageLogs) || via == Some(AccountToAccountGroups)))
    || (c == "group_id" && ((t == AccountGroups && AccountGroupToGroup in with) || via == Some(GroupToAccountGroups)))
  }

  /** `out` is a row as a node carries it: the whole row without a selection; with one, of its
      columns exactly the selected ones and the keys, with the row's values. */
  ghost predicate Projected(t: Table, with: set<Edge>, fields: seq<string>, via: Option<Edge>, row: Row, out: Row) {
    if fields == [] then out == row
    else
      && (forall c | c in row :: c in out <==> c in fields || KeyColumn(t, with, via, c))
      && (forall c | c in out :: c in row && out[c] == row[c])
  }

  lemma ProjectionMeans(t: Table, q: Query, via: Option<Edge>, row: Row)
    ensures Projected(t, q.with.Keys, q.core.fields, via, row, NodeRow(t, q, via, row))
  {
    if q.core.fields != [] {
      var fields := EffectiveFields(q.core, via);
      forall c | c in row
        ensures c in Columns(t, q, fields) <==> c in q.core.fields || KeyColumn(t, q.with.Keys, via, c)
      {
        ColumnsMean(t, q, fields, c);
        EffectiveMean(q.core, via, c);
        KeysMean(t, q.with, via, c);
      }
    }
  }

  lemma EffectiveMean(core: Core, via: Option<Edge>, c: string)
    requires core.fields != []
    ensures c in EffectiveFields(core, via) <==>
            c in core.fields || (via.Some? && KindOf(via.value) == ToMany && c == FkColumn(via.value))
  {
  }

  lemma {:induction false} AddedColumns(columns: seq<string>, edges: seq<Edge>, with: map<Edge, Query>, c: string)
    ensures c in AddFkColumns(columns, edges, with) <==>
            c in columns || exists e | e in edges :: KindOf(e) == ToOne && e in with && c == FkColumn(e)
    decreases |edges|
  {
    if edges != [] {
      var e := edges[0];
      AddedColumns(if KindOf(e) == ToOne && e in with then AddOnce(columns, FkColumn(e)) else columns, edges[1..], with, c);
      assert edges == [e] + edges[1..];
    }
  }

  lemma ColumnsMean(t: Table, q: Query, fields: seq<string>, c: string)
    ensures c in Columns(t, q, fields) <==>
            || c in fields || (c == "id" && HasId(t))
            || exists e | e in EdgesOf(t) :: KindOf(e) == ToOne && e in q.with && c == FkColumn(e)
  {
    var others := Filter(OtherThanId(), fields);
    FilterMembers(OtherThanId(), fields);
    AddedColumns(if HasId(t) then ["id"] + others else fields, EdgesOf(t), q.with, c);
  }

  lemma KeysMean(t: Table, with: map<Edge, Query>, via: Option<Edge>, c: string)
    ensures KeyColumn(t, with.Keys, via, c) <==>
            || (c == "id" && HasId(t)) || (via.Some? && KindOf(via.value) == ToMany && c == FkColumn(via.value))
            || exists e | e in EdgesOf(t) :: KindOf(e) == ToOne && e in with && c == FkColumn(e)
  {
    RequestedKeys(t, with, c);
    GroupingKey(via, c);
  }

  lemma RequestedKeys(t: Table, with: map<Edge, Query>, c: string)
    ensures (exists e | e in EdgesOf(t) :: KindOf(e) == ToOne && e in with && c == FkColumn(e)) <==>
            || (c == "proxy_id" && t == Accounts && AccountToProxy in with)
            || (c == "parent_account_id" && t == Accounts && AccountToParent in with)
            || (c == "account_id" && t == AccountGroups && AccountGroupToAccount in with)
            || (c == "group_id" && t == AccountGroups && AccountGroupToGroup in with)
  {
    assert AccountToProxy in EdgesOf(Accounts) && AccountToParent in EdgesOf(Accounts);
    assert AccountGroupToAccount in EdgesOf(AccountGroups) && AccountGroupToGroup in EdgesOf(AccountGroups);
  }

  lemma GroupingKey(via: Option<Edge>, c: string)
    ensures via.Some? && KindOf(via.value) == ToMany && c == FkColumn(via.value) <==>
            || (c == "parent_account_id" && via == Some(AccountToChildren))
            || (c == "account_id" && (via == Some(AccountToUsageLogs) || via == Some(AccountToAccountGroups)))
            || (c == "group_id" && via == Some(GroupToAccountGroups))
  {
  }

  // ---------- which neighbours ----------

  /** The integer in column c of a is the one in column d of b. */
  predicate SameKey(a: Row, c: string, b: Row, d: string) {
    c in a && d in b && a[c].Int? && a[c] == b[d]
  }

  /** A row of account_groups names the account and the group. */
  predicate Joins(j: Row, account: Row, group: Row) {
    SameKey(j, "account_id", account, "id") && SameKey(j, "group_id", group, "id")
  }

  lemma RowsHaveIds(db: DB)
    requires ValidDB(db)
    ensures forall r :: r in db.accounts || r in db.groups || r in db.proxies || r in db.usageLogs ==> IntAt(r, "id").Some?
    ensures forall r :: r in db.accountGroups ==> IntAt(r, "account_id").Some? && IntAt(r, "group_id").Some?
  {
    assert ValidRows(Accounts, db.Rows(Accounts)) && ValidRows(Groups, db.Rows(Groups));
    assert ValidRows(Proxies, db.Rows(Proxies)) && ValidRows(UsageLogs, db.Rows(UsageLogs));
    assert ValidRows(AccountGroups, db.Rows(AccountGroups));
    assert AccountGroupToAccount in EdgesOf(AccountGroups) && AccountGroupToGroup in EdgesOf(AccountGroups);
  }

  /** The accounts and the proxy that an account is linked to by a key. */
  lemma AccountNeighbours(sub: Query, db: DB, row: Row, r: Row)
    requires ValidDB(db) && row in db.accounts
    ensures r in Lookup(sub, AccountToProxy, db, row) <==>
            r in db.proxies && PassesAll(sub.core.preds, r) && SameKey(row, "proxy_id", r, "id")
    ensures r in Lookup(sub, AccountToParent, db, row) <==>
            r in db.accounts && PassesAll(sub.core.preds, r) && SameKey(row, "parent_account_id", r, "id")
    ensures r in Lookup(sub, AccountToChildren, db, row) <==>
            r in db.accounts && PassesAll(sub.core.preds, r) && SameKey(r, "parent_account_id", row, "id")
  {
    RowsHaveIds(db);
    LookupMembers(sub, AccountToProxy, db, row, r);
    LookupMembers(sub, AccountToParent, db, row, r);
    LookupMembers(sub, AccountToChildren, db, row, r);
  }

  /** The usage logs, join rows and groups of an account. */
  lemma AccountBelongings(sub: Query, db: DB, row: Row, r: Row)
    requires ValidDB(db) && row in db.accounts
    ensures r in Lookup(sub, AccountToUsageLogs, db, row) <==>
            r in db.usageLogs && PassesAll(sub.core.preds, r) && SameKey(r, "account_id", row, "id")
    ensures r in Lookup(sub, AccountToAccountGroups, db, row) <==>
            r in db.accountGroups && PassesAll(sub.core.preds, r) && SameKey(r, "account_id", row, "id")
    ensures r in Lookup(sub, AccountToGroups, db, row) <==>
            r in db.groups && PassesAll(sub.core.preds, r) && exists j :: j in db.accountGroups && Joins(j, row, r)
  {
    RowsHaveIds(db);
    LookupMembers(sub, AccountToUsageLogs, db, row, r);
    LookupMembers(sub, AccountToAccountGroups, db, row, r);
    LookupMembers(sub, AccountToGroups, db, row, r);
    if r in db.groups { LinkedGroup(db, row, r); }
  }

  /** The neighbours of a group. */
  lemma GroupNeighbours(sub: Query, db: DB, row: Row, r: Row)
    requires ValidDB(db) && row in db.groups
    ensures r in Lookup(sub, GroupToAccounts, db, row) <==>
            r in db.accounts && PassesAll(sub.core.preds, r) && exists j :: j in db.accountGroups && Joins(j, r, row)
    ensures r in Lookup(sub, GroupToAccountGroups, db, row) <==>
            r in db.accountGroups && PassesAll(sub.core.preds, r) && SameKey(r, "group_id", row, "id")
  {
    RowsHaveIds(db);
    LookupMembers(sub, GroupToAccounts, db, row, r);
    LookupMembers(sub, GroupToAccountGroups, db, row, r);
    if r in db.accounts { LinkedGroup(db, r, row); }
  }

  /** The neighbours of a row of account_groups. */
  lemma JoinNeighbours(sub: Query, db: DB, row: Row, r: Row)
    requires ValidDB(db) && row in db.accountGroups
    ensures r in Lookup(sub, AccountGroupToAccount, db, row) <==>
            r in db.accounts && PassesAll(sub.core.preds, r) && SameKey(row, "account_id", r, "id")
    ensures r in Lookup(sub, AccountGroupToGroup, db, row) <==>
            r in db.groups && PassesAll(sub.core.preds, r) && SameKey(row, "group_id", r, "id")
  {
    RowsHaveIds(db);
    LookupMembers(sub, AccountGroupToAccount, db, row, r);
    LookupMembers(sub, AccountGroupToGroup, db, row, r);
  }

  lemma LookupMembers(sub: Query, e: Edge, db: DB, row: Row, r: Row)
    ensures r in Lookup(sub, e, db, row) <==> r in db.Rows(Target(e)) && PassesAll(sub.core.preds, r) && Linked(e, db, row, r)
  {
    MatchingMembers(sub.core, LinkedTo(e, db, row), db.Rows(Target(e)));
    HoldsMeans(sub.core.preds, r);
  }

  lemma LinkedGroup(db: DB, account: Row, group: Row)
    requires IntAt(account, "id").Some? && IntAt(group, "id").Some?
    ensures Linked(AccountToGroups, db, account, group) <==> exists j :: j in db.accountGroups && Joins(j, account, group)
    ensures Linked(GroupToAccounts, db, group, account) <==> exists j :: j in db.accountGroups && Joins(j, account, group)
  {
    forall j ensures Joins(j, account, group) <==>
                     IntAt(j, "account_id") == Some(Id(account)) && IntAt(j, "group_id") == Some(Id(group)) {}
  }

  /** The keys that scanned nodes carry: nullable ones are nil without a value, the others zero. */
  lemma KeysOfNodes(row: Row)
    ensures Id(row) == if IntAt(row, "id").Some? then IntAt(row, "id").value else 0
    ensures Fk(AccountToProxy, row) == IntAt(row, "proxy_id")
    ensures Fk(AccountToParent, row) == Fk(AccountToChildren, row) == IntAt(row, "parent_account_id")
    ensures Fk(AccountToUsageLogs, row) == Fk(AccountToAccountGroups, row) == Fk(AccountGroupToAccount, row)
            == Some(if IntAt(row, "account_id").Some? then IntAt(row, "account_id").value else 0)
    ensures Fk(AccountGroupToGroup, row) == Fk(GroupToAccountGroups, row)
            == Some(if IntAt(row, "group_id").Some? then IntAt(row, "group_id").value else 0)
  {
  }

  /** The edges that can be requested, by table. */
  lemma EdgesByTable(e: Edge)
    ensures e in EdgesOf(Accounts) <==> e.AccountToGroups? || e.AccountToProxy? || e.AccountToParent?
                                        || e.AccountToChildren? || e.AccountToUsageLogs? || e.AccountToAccountGroups?
    ensures e in EdgesOf(Groups) <==> e.GroupToAccounts? || e.GroupToAccountGroups?
    ensures e in EdgesOf(AccountGroups) <==> e.AccountGroupToAccount? || e.AccountGroupToGroup?
    ensures e !in EdgesOf(Proxies) && e !in EdgesOf(UsageLogs)
  {
  }
}
