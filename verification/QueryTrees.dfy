/** Query builders as trees of values: what a configuring step and a copy do, path by path. */
module QueryTrees {
  import opened Prelude
  import opened Schema
  import opened Queries
  import opened QueryMeaning
  import opened Loaders
  import opened EagerLoad
  import opened EagerReference
  import opened EagerLoadFacts

  // ---------- what configuring means ----------

  datatype Step =
    | Where(preds: seq<Row -> bool>)
    | Order(keys: seq<Row -> int>)
    | Limit(limit: nat)
    | Offset(offset: nat)
    | Unique(unique: bool)
    | Select(fields: seq<string>)
    | With(edge: Edge, sub: Query)

  function Configured(q: Query, step: Step): Query {
    match step
    case Where(ps) => q.(core := q.core.(preds := q.core.preds + ps))
    case Order(ks) => q.(core := q.core.(order := q.core.order + ks))
    case Limit(n) => q.(core := q.core.(limit := Some(n)))
    case Offset(n) => q.(core := q.core.(offset := Some(n)))
    case Unique(u) => q.(core := q.core.(unique := Some(u)))
    case Select(fs) => q.(core := q.core.(fields := q.core.fields + fs))
    case With(e, sub) => q.(with := q.with[e := sub])
  }

  /** A step on the query that a path of requested edges leads to; a path that leaves the tree
      does nothing. */
  function ConfiguredAt(q: Query, path: seq<Edge>, step: Step): Query
    decreases |path|
  {
    if path == [] then Configured(q, step)
    else if path[0] in q.with then
      q.(with := q.with[path[0] := ConfiguredAt(q.with[path[0]], path[1..], step)])
    else q
  }

  /** What a clone carries: everything except the modifiers, at every level. */
  function WithoutModifiers(q: Query): Query
    decreases q
  {
    Query(q.core.(modifiers := []), map e | e in q.with :: WithoutModifiers(q.with[e]))
  }

  /** The rows a run of a query takes from its table. */
  function Rows(q: Query, from: seq<Row>): seq<Row> {
    Window(q.core, Matching(q.core, Anything(), from))
  }

  /** Matching depends on the predicates and the order only. */
  lemma SameMatching(a: Core, b: Core, where: Row -> bool, from: seq<Row>)
    requires a.preds == b.preds && a.order == b.order
    ensures Matching(a, where, from) == Matching(b, where, from)
  {
    FilterCongruent(Passes(a, where), Passes(b, where), from);
    SortCongruent(KeyOf(a), KeyOf(b), Filter(Passes(a, where), from));
  }

  // ---------- what a step does ----------

  /** Every step changes one setting, or one request, and nothing else. */
  lemma StepTouchesOne(q: Query, step: Step)
    ensures var core, after := q.core, Configured(q, step).core;
            match step
            case Where(_) => after == core.(preds := after.preds) && Configured(q, step).with == q.with
            case Order(_) => after == core.(order := after.order) && Configured(q, step).with == q.with
            case Limit(n) => after == core.(limit := Some(n)) && Configured(q, step).with == q.with
            case Offset(n) => after == core.(offset := Some(n)) && Configured(q, step).with == q.with
            case Unique(u) => after == core.(unique := Some(u)) && Configured(q, step).with == q.with
            case Select(fs) =>
              && after == core.(fields := after.fields) && Configured(q, step).with == q.with
              && forall f :: f in after.fields <==> f in core.fields || f in fs
            case With(e, sub) =>
              && after == core && e in Configured(q, step).with && Configured(q, step).with[e] == sub
              && forall x :: x != e ==> (x in Configured(q, step).with <==> x in q.with)
                                        && (x in q.with ==> Configured(q, step).with[x] == q.with[x])
  {
  }

  function PassAll(ps: seq<Row -> bool>): Row -> bool {
    (r: Row) => forall k | 0 <= k < |ps| :: ps[k](r)
  }

  lemma {:induction false} HoldsAppend(a: seq<Row -> bool>, b: seq<Row -> bool>, r: Row)
    ensures Holds(a + b, r) <==> Holds(a, r) && Holds(b, r)
  {
    if a == [] {
      assert a + b == b;
    } else {
      assert (a + b)[1..] == a[1..] + b;
      HoldsAppend(a[1..], b, r);
    }
  }

  /** More predicates keep, of what the query matched before, exactly the rows that pass them. */
  lemma WhereFilters(q: Query, ps: seq<Row -> bool>, where: Row -> bool, from: seq<Row>)
    ensures Matching(Configured(q, Where(ps)).core, where, from) == Filter(PassAll(ps), Matching(q.core, where, from))
  {
    var after := Configured(q, Where(ps)).core;
    forall r | r in from ensures Passes(after, where)(r) == (Passes(q.core, where)(r) && PassAll(ps)(r)) {
      HoldsAppend(q.core.preds, ps, r);
      HoldsMeans(ps, r);
    }
    FilterTwice(PassAll(ps), Passes(q.core, where), Passes(after, where), from);
    FilterSort(PassAll(ps), KeyOf(q.core), Filter(Passes(q.core, where), from));
    SortCongruent(KeyOf(q.core), KeyOf(after), Filter(Passes(after, where), from));
  }

  /** More sort keys only break ties of the earlier ones. */
  lemma OrderBreaksTies(q: Query, ks: seq<Row -> int>, where: Row -> bool, from: seq<Row>)
    ensures var order, found := q.core.order, Matching(Configured(q, Order(ks)).core, where, from);
            && (forall r :: multiset(found)[r] == multiset(Matching(q.core, where, from))[r])
            && forall i, j :: 0 <= i < j < |found| ==>
                 || Precedes(order, found[i], found[j])
                 || (TiedUpTo(order, |order|, found[i], found[j])
                     && (Precedes(ks, found[i], found[j]) || TiedUpTo(ks, |ks|, found[i], found[j])))
  {
    var order, after := q.core.order, Configured(q, Order(ks)).core;
    var found := Matching(after, where, from);
    QueryMeans(q.core, where, from);
    QueryMeans(after, where, from);
    forall i, j | 0 <= i < j < |found|
      ensures || Precedes(order, found[i], found[j])
              || (TiedUpTo(order, |order|, found[i], found[j])
                  && (Precedes(ks, found[i], found[j]) || TiedUpTo(ks, |ks|, found[i], found[j])))
    {
      AppendedKeys(order, ks, found[i], found[j]);
    }
  }

  lemma {:induction false} AppendedKeys(order: seq<Row -> int>, ks: seq<Row -> int>, a: Row, b: Row)
    ensures TiedUpTo(order + ks, |order + ks|, a, b) <==> TiedUpTo(order, |order|, a, b) && TiedUpTo(ks, |ks|, a, b)
    ensures Precedes(order + ks, a, b) <==>
            Precedes(order, a, b) || (TiedUpTo(order, |order|, a, b) && Precedes(ks, a, b))
    decreases |order|
  {
    if order == [] {
      assert order + ks == ks;
      assert !Precedes(order, a, b) && TiedUpTo(order, |order|, a, b);
    } else {
      assert (order + ks)[1..] == order[1..] + ks;
      LexStep(order + ks, a, b);
      LexStep(order, a, b);
      AppendedKeys(order[1..], ks, a, b);
    }
  }

  // ---------- paths ----------

  /** The query that a path of requested edges leads to. */
  function At(q: Query, path: seq<Edge>): Option<Query>
    decreases |path|
  {
    if path == [] then Some(q)
    else if path[0] in q.with then At(q.with[path[0]], path[1..])
    else None
  }

  /** A step reaches exactly the query at the end of its path. Without such a query nothing
      changes; the requests and settings on the way and beside it stay. */
  lemma {:induction false} StepAtPath(q: Query, path: seq<Edge>, step: Step, p: seq<Edge>)
    ensures At(q, path) == None ==> ConfiguredAt(q, path, step) == q
    ensures At(q, path).Some? ==> At(ConfiguredAt(q, path, step), path) == Some(Configured(At(q, path).value, step))
    ensures !(path <= p) ==> (At(ConfiguredAt(q, path, step), p).Some? <==> At(q, p).Some?)
                             && (At(q, p).Some? ==> At(ConfiguredAt(q, path, step), p).value.core == At(q, p).value.core)
    ensures path <= p && At(q, path).Some? ==>
              At(ConfiguredAt(q, path, step), p) == At(Configured(At(q, path).value, step), p[|path|..])
    decreases |path|
  {
    if path != [] && path[0] in q.with {
      if p != [] && p[0] == path[0] {
        assert path <= p <==> path[1..] <= p[1..] by {
          if path[1..] <= p[1..] { assert path == [path[0]] + path[1..] && p == [p[0]] + p[1..]; }
        }
        assert path <= p ==> p[|path|..] == p[1..][|path[1..]|..];
        StepAtPath(q.with[path[0]], path[1..], step, p[1..]);
      } else {
        StepAtPath(q.with[path[0]], path[1..], step, path[1..]);
      }
    } else if path == [] {
      assert p[0..] == p;
    }
  }

  // ---------- copies ----------

  /** The same settings, field by field, but no modifiers. */
  ghost predicate CopiedSettings(copy: Core, core: Core) {
    && copy.fields == core.fields && copy.limit == core.limit && copy.offset == core.offset && copy.unique == core.unique
    && copy.preds == core.preds && copy.order == core.order && copy.inters == core.inters
    && copy.traversal == core.traversal && copy.joins == core.joins && copy.fails == core.fails
    && copy.modifiers == []
  }

  /** At every path of requested edges: a query in both trees or in neither, with copied settings. */
  ghost predicate CopyOf(copy: Query, q: Query) {
    forall path: seq<Edge> {:trigger At(q, path)} {:trigger At(copy, path)} ::
      && (At(copy, path).Some? <==> At(q, path).Some?)
      && (At(q, path).Some? ==> CopiedSettings(At(copy, path).value.core, At(q, path).value.core))
  }

  lemma {:induction false} CopiedAt(q: Query, path: seq<Edge>)
    ensures At(WithoutModifiers(q), path).Some? <==> At(q, path).Some?
    ensures At(q, path).Some? ==> CopiedSettings(At(WithoutModifiers(q), path).value.core, At(q, path).value.core)
    decreases |path|
  {
    if path != [] && path[0] in q.with { CopiedAt(q.with[path[0]], path[1..]); }
  }

  lemma CloneCopies(q: Query)
    ensures CopyOf(WithoutModifiers(q), q)
  {
    forall path: seq<Edge> ensures (At(WithoutModifiers(q), path).Some? <==> At(q, path).Some?)
      && (At(q, path).Some? ==> CopiedSettings(At(WithoutModifiers(q), path).value.core, At(q, path).value.core))
    {
      CopiedAt(q, path);
    }
  }

  lemma CopiedRequests(copy: Query, q: Query)
    requires CopyOf(copy, q)
    ensures CopiedSettings(copy.core, q.core) && copy.with.Keys == q.with.Keys
    ensures forall e | e in q.with :: CopyOf(copy.with[e], q.with[e])
  {
    assert At(copy, []) == Some(copy) && At(q, []) == Some(q);
    forall e ensures e in copy.with <==> e in q.with {
      assert At(copy, [e]).Some? <==> e in copy.with;
      assert At(q, [e]).Some? <==> e in q.with;
    }
    forall e, path: seq<Edge> | e in q.with
      ensures At(copy, [e] + path) == At(copy.with[e], path) && At(q, [e] + path) == At(q.with[e], path)
    {
      assert ([e] + path)[1..] == path;
    }
    forall e | e in q.with ensures CopyOf(copy.with[e], q.with[e]) {
      forall path: seq<Edge> ensures (At(copy.with[e], path).Some? <==> At(q.with[e], path).Some?)
        && (At(q.with[e], path).Some? ==> CopiedSettings(At(copy.with[e], path).value.core, At(q.with[e], path).value.core))
      {
        assert At(q, [e] + path) == At(q.with[e], path);
      }
    }
  }

  /** A copy takes the same rows from any table. */
  lemma CopyTakesTheSame(copy: Query, q: Query, from: seq<Row>)
    requires CopyOf(copy, q)
    ensures Rows(copy, from) == Rows(q, from)
  {
    CopiedRequests(copy, q);
    SameMatching(copy.core, q.core, Anything(), from);
  }

  lemma CopyJoinsTheSame(copy: Core, core: Core, e: Edge, db: DB, ids: seq<int>)
    requires CopiedSettings(copy, core)
    ensures WindowJoined(copy, e, db, ids) == WindowJoined(core, e, db, ids)
  {
    var pairs := RejoinAll(e, db.accountGroups, core.joins, Join(e, db.accountGroups, db.Rows(Target(e)), ids));
    FilterCongruent(PairPasses(copy), PairPasses(core), pairs);
    SortCongruent(PairKey(copy), PairKey(core), Filter(PairPasses(core), pairs));
    SameWindow(copy, core, Joined(core, e, db, ids));
  }

  lemma CopyFindsTheSame(copy: Core, core: Core, e: Edge, db: DB, ids: seq<int>)
    requires CopiedSettings(copy, core)
    ensures FetchedBy(copy, e, db, ids) == FetchedBy(core, e, db, ids)
  {
    SameMatching(copy, core, InBatch(e, ids), db.Rows(Target(e)));
    SameWindow(copy, core, Matching(core, InBatch(e, ids), db.Rows(Target(e))));
  }

  /** A copy's nested queries fetch the same rows for the same batch. */
  lemma CopyFetchesTheSame(copy: Query, q: Query, e: Edge, db: DB, batch: seq<Row>)
    requires CopiedSettings(copy.core, q.core)
    ensures Fetched(copy, e, db, batch) == Fetched(q, e, db, batch)
    ensures WindowJoined(copy.core, e, db, Ids(batch)) == WindowJoined(q.core, e, db, Ids(batch))
  {
    CopyFindsTheSame(copy.core, q.core, e, db, BatchIds(e, batch));
    CopyJoinsTheSame(copy.core, q.core, e, db, Ids(batch));
  }

  /** Running a copy shows the same images of the same rows, at every depth. */
  lemma {:induction false} CopyShowsTheSame(t: Table, copy: Query, q: Query, via: Option<Edge>, db: DB, batch: seq<Row>,
                                            row: Row, n: Entity, region: set<Entity>)
    requires CopyOf(copy, q)
    ensures Shows(t, copy, via, db, batch, row, n, region) <==> Shows(t, q, via, db, batch, row, n, region)
    decreases q, 0
  {
    CopiedRequests(copy, q);
    SameNodeRow(t, q, copy, via, row);
    forall e | e in q.with
      ensures EdgeShows(copy.with[e], e, db, batch, row, n.Slot(e), region) <==> EdgeShows(q.with[e], e, db, batch, row, n.Slot(e), region)
    {
      CopyEdgeShowsTheSame(copy.with[e], q.with[e], e, db, batch, row, n.Slot(e), region);
    }
    if Shows(t, q, via, db, batch, row, n, region) {
      SameEdgesShow(t, q, copy, via, db, batch, row, n, region);
    }
    if Shows(t, copy, via, db, batch, row, n, region) {
      SameEdgesShow(t, copy, q, via, db, batch, row, n, region);
    }
  }

  lemma {:induction false} CopyEdgeShowsTheSame(copy: Query, q: Query, e: Edge, db: DB, batch: seq<Row>,
                                                row: Row, slot: seq<Entity>, region: set<Entity>)
    requires CopyOf(copy, q)
    ensures EdgeShows(copy, e, db, batch, row, slot, region) <==> EdgeShows(q, e, db, batch, row, slot, region)
    decreases q, 1
  {
    CopiedRequests(copy, q);
    CopyFetchesTheSame(copy, q, e, db, batch);
    var got, share := Fetched(q, e, db, batch), Share(q, e, db, batch, row);
    SameTakes(copy, q, e, db, batch, row);
    assert Share(copy, e, db, batch, row) == share;
    forall j | 0 <= j < |slot| && |slot| == |share|
      ensures Shows(Target(e), copy, Some(e), db, got, share[j], slot[j], region) <==>
              Shows(Target(e), q, Some(e), db, got, share[j], slot[j], region)
    {
      CopyShowsTheSame(Target(e), copy, q, Some(e), db, got, share[j], slot[j], region);
    }
  }

  lemma SameTakes(copy: Query, q: Query, e: Edge, db: DB, batch: seq<Row>, row: Row)
    requires CopiedSettings(copy.core, q.core) && Fetched(copy, e, db, batch) == Fetched(q, e, db, batch)
    requires WindowJoined(copy.core, e, db, Ids(batch)) == WindowJoined(q.core, e, db, Ids(batch))
    ensures Share(copy, e, db, batch, row) == Share(q, e, db, batch, row)
  {
    FilterCongruent(Takes(copy, e, db, batch, row), Takes(q, e, db, batch, row), Fetched(q, e, db, batch));
  }

  /** It also fails exactly when the original does. */
  lemma {:induction false} CopyHitsTheSame(copy: Query, q: Query, db: DB, batch: seq<Row>)
    requires CopyOf(copy, q)
    ensures copy.core.fails == q.core.fails && (Hits(copy, db, batch) <==> Hits(q, db, batch))
    decreases q
  {
    CopiedRequests(copy, q);
    forall e | e in q.with ensures EdgeHits(copy.with[e], e, db, batch) <==> EdgeHits(q.with[e], e, db, batch) {
      CopiedRequests(copy.with[e], q.with[e]);
      CopyFetchesTheSame(copy.with[e], q.with[e], e, db, batch);
      CopyHitsTheSame(copy.with[e], q.with[e], db, Fetched(q.with[e], e, db, batch));
    }
  }
}
