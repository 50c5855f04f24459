/** The mutable query builder: configuring, cloning, and the limited forms of running it. */
module QueryBuilder {
  import opened Prelude
  import opened Schema
  import opened Queries
  import opened Loaders
  import opened EagerLoad
  import opened EagerReference
  import opened EagerLoadFacts
  import opened QueryTrees

  // ---------- the builder ----------

  class QueryContext {
    var fields: seq<string>
    var limit: Option<nat>
    var offset: Option<nat>
    var unique: Option<bool>

    constructor (fields: seq<string>, limit: Option<nat>, offset: Option<nat>, unique: Option<bool>)
      ensures this.fields == fields && this.limit == limit && this.offset == offset && this.unique == unique
    {
      this.fields, this.limit, this.offset, this.unique := fields, limit, offset, unique;
    }
  }

  class Builder {
    var ctx: QueryContext
    var order: seq<Row -> int>
    var inters: seq<nat>
    var predicates: seq<Row -> bool>
    var with: map<Edge, Builder>
    var modifiers: seq<nat>
    var path: bool
    /** The join conditions that many-to-many loads left behind, batch by batch. */
    var joins: seq<seq<int>>
    /** Whether running the query raises; decided outside the builder. */
    var fails: bool
    /** The objects of the nested builders, and of the whole tree. */
    ghost var parts: set<object>
    ghost var Repr: set<object>
    /** The query the builder stands for. */
    ghost var view: Query

    ghost function Settings(): Core
      reads this, ctx
    {
      Core(ctx.fields, ctx.limit, ctx.offset, ctx.unique, predicates, order, inters, path, modifiers, joins, fails)
    }

    /** A tree of builders that share nothing. */
    ghost predicate Valid()
      reads this, Repr
      ensures Valid() ==> this in Repr && ctx in Repr
      decreases Repr, 1
    {
      && Repr == {this, ctx} + parts && this !in parts && ctx !in parts
      && (forall e | e in with :: with[e] in parts)
      && Kids(with, parts)
      && view == Query(Settings(), KidViews(with))
    }

    /** A builder around finished parts. */
    constructor Make(ctx: QueryContext, order: seq<Row -> int>, inters: seq<nat>, predicates: seq<Row -> bool>,
                     with: map<Edge, Builder>, modifiers: seq<nat>, path: bool, joins: seq<seq<int>>, fails: bool,
                     ghost parts: set<object>)
      requires ctx !in parts && Kids(with, parts)
      ensures Valid() && Repr == {this, ctx} + parts
      ensures view == Query(Core(ctx.fields, ctx.limit, ctx.offset, ctx.unique, predicates, order, inters, path, modifiers, joins, fails),
                            KidViews(with))
    {
      this.ctx, this.order, this.inters, this.predicates := ctx, order, inters, predicates;
      this.with, this.modifiers, this.path, this.joins, this.fails := with, modifiers, path, joins, fails;
      this.parts, Repr := parts, {this, ctx} + parts;
      view := Query(Core(ctx.fields, ctx.limit, ctx.offset, ctx.unique, predicates, order, inters, path, modifiers, joins, fails),
                    KidViews(with));
    }

    // ---------- configuring ----------

    method AddWhere(ps: seq<Row -> bool>)
      requires Valid()
      modifies this
      ensures Valid() && Repr == old(Repr) && ctx == old(ctx) && view == Configured(old(view), Where(ps))
    {
      predicates := predicates + ps;
      view := view.(core := Settings());
    }

    method AddOrder(ks: seq<Row -> int>)
      requires Valid()
      modifies this
      ensures Valid() && Repr == old(Repr) && ctx == old(ctx) && view == Configured(old(view), Order(ks))
    {
      order := order + ks;
      view := view.(core := Settings());
    }

    method SetLimit(n: nat)
      requires Valid()
      modifies this, ctx
      ensures Valid() && Repr == old(Repr) && ctx == old(ctx) && view == Configured(old(view), Limit(n))
    {
      ctx.limit := Some(n);
      view := view.(core := Settings());
    }

    method SetOffset(n: nat)
      requires Valid()
      modifies this, ctx
      ensures Valid() && Repr == old(Repr) && ctx == old(ctx) && view == Configured(old(view), Offset(n))
    {
      ctx.offset := Some(n);
      view := view.(core := Settings());
    }

    method SetUnique(u: bool)
      requires Valid()
      modifies this, ctx
      ensures Valid() && Repr == old(Repr) && ctx == old(ctx) && view == Configured(old(view), Unique(u))
    {
      ctx.unique := Some(u);
      view := view.(core := Settings());
    }

    method AddFields(fs: seq<string>)
      requires Valid()
      modifies this, ctx
      ensures Valid() && Repr == old(Repr) && ctx == old(ctx) && view == Configured(old(view), Select(fs))
    {
      ctx.fields := ctx.fields + fs;
      view := view.(core := Settings());
    }

    /** Puts new or changed nested builders in place. */
    method Install(with': map<Edge, Builder>, ghost parts': set<object>)
      requires this !in parts' && ctx !in parts' && Kids(with', parts')
      modifies this
      ensures Valid() && Repr == {this, ctx} + parts' && ctx == old(ctx) && view == Query(old(Settings()), KidViews(with'))
      ensures with == with' && parts == parts' && KidViews(with') == old(KidViews(with'))
    {
      with, parts, Repr, view := with', parts', {this, ctx} + parts', Query(Settings(), KidViews(with'));
    }

    /** Requests an edge; `sub` is the query that the options configure. */
    method SetWith(e: Edge, sub: Query)
      requires Valid()
      modifies this
      ensures Valid() && fresh(Repr - old(Repr)) && view == Configured(old(view), With(e, sub))
    {
      var nested := Build(sub);
      KidsReplaced(with, parts, e, nested);
      Install(with[e := nested], parts + nested.Repr);
    }

    /** One step somewhere in the tree. */
    method Perform(path: seq<Edge>, step: Step)
      requires Valid()
      modifies Repr
      ensures Valid() && fresh(Repr - old(Repr)) && view == ConfiguredAt(old(view), path, step)
      decreases |path|, 1
    {
      if path == [] {
        match step
        case Where(ps) => AddWhere(ps);
        case Order(ks) => AddOrder(ks);
        case Limit(n) => SetLimit(n);
        case Offset(n) => SetOffset(n);
        case Unique(u) => SetUnique(u);
        case Select(fs) => AddFields(fs);
        case With(e, sub) => SetWith(e, sub);
      } else if path[0] in with {
        PerformBelow(path, step);
      }
    }

    method PerformBelow(path: seq<Edge>, step: Step)
      requires Valid() && path != [] && path[0] in with
      modifies Repr
      ensures Valid() && fresh(Repr - old(Repr)) && view == ConfiguredAt(old(view), path, step)
      decreases |path|, 0
    {
      var e := path[0];
      PerformKid(e, path[1..], step);
      Install(with, parts + with[e].Repr);
    }

    /** One nested builder changes; its siblings do not. */
    method PerformKid(e: Edge, path: seq<Edge>, step: Step)
      requires this !in parts && Kids(with, parts) && e in with
      modifies parts
      ensures fresh(with[e].Repr - old(with[e].Repr)) && Kids(with, parts + with[e].Repr)
      ensures KidViews(with) == old(KidViews(with))[e := ConfiguredAt(old(with[e].view), path, step)]
      decreases |path|, 2
    {
      var kid := with[e];
      ghost var own := kid.Repr;
      SiblingsApart(with, parts, e);
      kid.Perform(path, step);
      forall f | f in with && f != e
        ensures Apart(with[f], own, parts) && with[f].Repr == old(with[f].Repr) && with[f].view == old(with[f].view)
      {
        assert old(Apart(with[f], own, parts));
      }
      KidsRegrown(with, parts, e, own);
    }

    /** A deep copy that shares nothing with the original. */
    method Clone() returns (c: Builder)
      requires Valid()
      ensures c.Valid() && fresh(c.Repr) && c.view == WithoutModifiers(view) && CopyOf(c.view, view)
      decreases Repr, 2
    {
      CloneCopies(view);
      ghost var region;
      var copies;
      copies, region := CloneKids();
      var ctx' := new QueryContext(ctx.fields, ctx.limit, ctx.offset, ctx.unique);
      c := new Builder.Make(ctx', order, inters, predicates, copies, [], path, joins, fails, region);
    }

    method CloneKids() returns (copies: map<Edge, Builder>, ghost region: set<object>)
      requires Valid()
      ensures fresh(region) && Kids(copies, region) && KidViews(copies) == WithoutModifiers(view).with
      decreases Repr, 1
    {
      copies, region := map[], {};
      ghost var views := WithoutModifiers(view).with;
      var todo := with.Keys;
      while todo != {}
        invariant todo <= with.Keys && fresh(region) && Built(copies, region, views, todo)
      {
        var e :| e in todo;
        var copy := CloneKid(e);
        BuiltStep(copies, region, views, todo, e, copy);
        copies, region, todo := copies[e := copy], region + copy.Repr, todo - {e};
      }
    }

    method CloneKid(e: Edge) returns (copy: Builder)
      requires Valid() && e in with
      ensures copy.Valid() && fresh(copy.Repr) && e in view.with && copy.view == WithoutModifiers(view.with[e])
      decreases Repr, 0
    {
      assert with[e].Valid() && with[e].Repr < Repr;
      copy := with[e].Clone();
    }

    // ---------- running ----------

    /** The query as a value, for the row source. */
    method Snapshot() returns (q: Query)
      requires Valid()
      ensures q == view
      decreases Repr
    {
      var nested: map<Edge, Query> := map[];
      var todo := with.Keys;
      while todo != {}
        invariant todo <= with.Keys && nested.Keys == with.Keys - todo
        invariant forall e | e in nested :: nested[e] == view.with[e]
      {
        var e :| e in todo;
        assert with[e].Valid() && with[e].Repr < Repr;
        var sub := with[e].Snapshot();
        nested, todo := nested[e := sub], todo - {e};
      }
      q := Query(Core(ctx.fields, ctx.limit, ctx.offset, ctx.unique, predicates, order, inters, path, modifiers, joins, fails), nested);
    }

    /** Takes over the settings that a run left on the builders of the tree, in place. */
    method Adopt(left: Query)
      requires Valid() && Restricts(view, left)
      modifies Repr
      ensures Valid() && Repr == old(Repr) && view == left
      decreases Repr, 1
    {
      AdoptBelow(left);
      Overwrite(left.core.fields, left.core.preds, left.core.joins);
    }

    /** Its own settings, around nested builders that are in order. */
    method Overwrite(fields: seq<string>, preds: seq<Row -> bool>, joins': seq<seq<int>>)
      requires Repr == {this, ctx} + parts && this !in parts && ctx !in parts && Kids(with, parts)
      requires forall e | e in with :: with[e] in parts
      modifies this`predicates, this`joins, this`view, ctx`fields
      ensures Valid() && Repr == old(Repr)
      ensures view == Query(old(Settings()).(fields := fields, preds := preds, joins := joins'), old(KidViews(with)))
    {
      ghost var kids := KidViews(with);
      ctx.fields := fields;
      predicates, joins, view := preds, joins', Query(Settings().(preds := preds, joins := joins'), kids);
      assert KidViews(with) == kids;
    }

    method AdoptBelow(left: Query)
      requires this !in parts && parts < Repr && Kids(with, parts) && left.with.Keys == with.Keys
      requires forall e | e in with :: Restricts(KidViews(with)[e], left.with[e])
      modifies parts
      ensures Kids(with, parts) && KidViews(with) == left.with
      decreases Repr, 0
    {
      ghost var before := KidViews(with);
      var todo := with.Keys;
      while todo != {}
        invariant todo <= with.Keys && Kids(with, parts)
        invariant KidViews(with) == Mixed(before, left.with, todo)
      {
        var e :| e in todo;
        assert with[e].view == KidViews(with)[e] == before[e];
        AdoptKid(e, left.with[e]);
        MixedStep(before, left.with, todo, e);
        todo := todo - {e};
      }
      assert Mixed(before, left.with, {}) == left.with;
    }

    /** One nested builder changes; its siblings do not. */
    method AdoptKid(e: Edge, left: Query)
      requires this !in parts && parts < Repr && Kids(with, parts) && e in with && Restricts(with[e].view, left)
      modifies parts
      ensures Kids(with, parts) && KidViews(with) == old(KidViews(with))[e := left]
      decreases Repr, 0, 0
    {
      var kid := with[e];
      ghost var own := kid.Repr;
      SiblingsApart(with, parts, e);
      kid.Adopt(left);
      forall f | f in with && f != e
        ensures Apart(with[f], own, parts) && with[f].Repr == old(with[f].Repr) && with[f].view == old(with[f].view)
      {
        assert old(Apart(with[f], own, parts));
      }
      KidsRegrown(with, parts, e, own);
      assert parts + kid.Repr == parts;
    }

    /** Runs the query with its eager loads. The restrictions that the loads put on the nested
        queries stay on them. */
    method All(t: Table, from: seq<Row>, db: DB) returns (res: LoadResult, ghost region: set<Entity>)
      requires Valid() && ValidDB(db) && WellTyped(view, t) && Batch(t, db, from)
      modifies Repr
      ensures Valid() && Repr == old(Repr) && view.core == old(view).core
      ensures Outcome(old(view), t, db, Rows(old(view), from), res, view, region)
    {
      var q := Snapshot();
      var left;
      res, left, region := Run(q, t, from, db);
      if res.Success? { AdoptRun(left, db, Rows(q, from)); }
    }

    method AdoptRun(left: Query, ghost db: DB, ghost rows: seq<Row>)
      requires Valid() && left == After(view, db, rows)
      modifies Repr
      ensures Valid() && Repr == old(Repr) && view == left && view.core == old(view).core
    {
      AfterRestricts(view, db, rows);
      Adopt(left);
    }

    /** Runs the query for its first n rows, whatever limit was set before; the new limit stays. */
    method AllLimited(n: nat, t: Table, from: seq<Row>, db: DB) returns (res: LoadResult, ghost region: set<Entity>)
      requires Valid() && ValidDB(db) && WellTyped(view, t) && Batch(t, db, from) && n > 0
      modifies Repr
      ensures Valid() && Repr == old(Repr) && view.core == old(view).core.(limit := Some(n))
      ensures Outcome(Configured(old(view), Limit(n)), t, db, Take(n, Unlimited(old(view).core, from)), res, view, region)
    {
      SetLimit(n);
      LimitTakes(old(view).core, from, n);
      res, region := All(t, from, db);
    }

    /** The first row of the query, whatever limit was set before; the limit of one stays. */
    method First(t: Table, from: seq<Row>, db: DB) returns (r: OneResult, ghost region: set<Entity>)
      requires Valid() && ValidDB(db) && WellTyped(view, t) && Batch(t, db, from)
      modifies Repr
      ensures Valid() && Repr == old(Repr) && view.core == old(view).core.(limit := Some(1))
      ensures var q, rows := Configured(old(view), Limit(1)), Take(1, Unlimited(old(view).core, from));
              && (r.Failed? <==> old(view).core.fails || Hits(q, db, rows))
              && (!r.Failed? ==> view == After(q, db, rows))
              && (!r.Failed? ==> if rows == [] then r.Missing? else r.Single? && ShowsFirst(t, q, db, rows, r.node, region))
    {
      var res;
      res, region := AllLimited(1, t, from, db);
      if res.Failure? {
        return Failed, region;
      }
      if |res.nodes| == 0 {
        return Missing, region;
      }
      return Single(res.nodes[0]), region;
    }

    /** Exactly one, none or several rows of the unlimited query, decided from at most two. */
    method Only(t: Table, from: seq<Row>, db: DB) returns (r: OneResult, ghost region: set<Entity>)
      requires Valid() && ValidDB(db) && WellTyped(view, t) && Batch(t, db, from)
      modifies Repr
      ensures Valid() && Repr == old(Repr) && view.core == old(view).core.(limit := Some(2))
      ensures var q, all := Configured(old(view), Limit(2)), Unlimited(old(view).core, from);
              && (r.Failed? <==> old(view).core.fails || Hits(q, db, Take(2, all)))
              && (!r.Failed? ==> view == After(q, db, Take(2, all)))
              && (!r.Failed? ==>
                    if |all| == 0 then r.Missing?
                    else if |all| == 1 then r.Single? && ShowsFirst(t, q, db, all, r.node, region)
                    else r.Several?)
    {
      var res;
      res, region := AllLimited(2, t, from, db);
      if res.Failure? {
        return Failed, region;
      }
      match |res.nodes|
      case 1 => return Single(res.nodes[0]), region;
      case 0 => return Missing, region;
      case _ => return Several, region;
    }

    /** Selects the ids. The id joins the selected fields for good, and a traversal without a
        decision on duplicates is made unique for good. `oneColumn` says that the scan into a list
        of ids rejects a result of several columns. */
    method IDs(from: seq<Row>, oneColumn: bool) returns (ids: Option<seq<int>>)
      requires Valid()
      modifies this, ctx
      ensures Valid() && Repr == old(Repr) && ctx == old(ctx) && view == AsksForIds(old(view))
      ensures ids == None <==> old(view).core.fails || (oneColumn && old(view).core.fields != [])
      ensures view.with == old(view).with
      ensures view.core == old(view).core.(fields := old(view).core.fields + ["id"],
                                           unique := if old(view).core.unique == None && old(view).core.traversal then Some(true)
                                                     else old(view).core.unique)
      ensures ids.Some? ==> ids.value == if view.core.limit == Some(0) then [] else Ids(Rows(view, from))
    {
      if ctx.unique == None && path {
        SetUnique(true);
      }
      AddFields(["id"]);
      if fails || (oneColumn && |ctx.fields| > 1) {
        return None;
      }
      var core := Core(ctx.fields, ctx.limit, ctx.offset, ctx.unique, predicates, order, inters, path, modifiers, joins, fails);
      return Some(Ids(SelectWindow(core, Matching(core, Anything(), from))));
    }

    /** The ids of the first n rows of the unlimited query. */
    method LimitedIDs(n: nat, from: seq<Row>, oneColumn: bool) returns (ids: Option<seq<int>>)
      requires Valid() && n > 0
      modifies this, ctx
      ensures Valid() && Repr == old(Repr) && ctx == old(ctx) && view == AsksForIds(Configured(old(view), Limit(n)))
      ensures ids == None <==> old(view).core.fails || (oneColumn && old(view).core.fields != [])
      ensures ids.Some? ==> ids.value == Ids(Take(n, Unlimited(old(view).core, from)))
    {
      SetLimit(n);
      ids := IDs(from, oneColumn);
      SelectTakes(old(view), from, n);
    }

    method FirstID(from: seq<Row>, oneColumn: bool) returns (id: IdResult)
      requires Valid()
      modifies this, ctx
      ensures Valid() && Repr == old(Repr) && ctx == old(ctx) && view == AsksForIds(Configured(old(view), Limit(1)))
      ensures id.IdFailed? <==> old(view).core.fails || (oneColumn && old(view).core.fields != [])
      ensures !id.IdFailed? ==>
                var rows := Unlimited(old(view).core, from);
                id == if rows == [] then NoId else OneId(Id(rows[0]))
    {
      var ids := LimitedIDs(1, from, oneColumn);
      if ids == None {
        return IdFailed;
      }
      return if |ids.value| == 0 then NoId else OneId(ids.value[0]);
    }

    method OnlyID(from: seq<Row>, oneColumn: bool) returns (id: IdResult)
      requires Valid()
      modifies this, ctx
      ensures Valid() && Repr == old(Repr) && ctx == old(ctx) && view == AsksForIds(Configured(old(view), Limit(2)))
      ensures id.IdFailed? <==> old(view).core.fails || (oneColumn && old(view).core.fields != [])
      ensures !id.IdFailed? ==>
                var rows := Unlimited(old(view).core, from);
                id == if |rows| == 0 then NoId else if |rows| == 1 then OneId(Id(rows[0])) else ManyIds
    {
      var ids := LimitedIDs(2, from, oneColumn);
      if ids == None {
        return IdFailed;
      }
      match |ids.value|
      case 1 => return OneId(ids.value[0]);
      case 0 => return NoId;
      case _ => return ManyIds;
    }

    /** Whether the unlimited query has any row. */
    method Exist(from: seq<Row>, oneColumn: bool) returns (exist: Option<bool>)
      requires Valid()
      modifies this, ctx
      ensures Valid() && Repr == old(Repr) && ctx == old(ctx) && view == AsksForIds(Configured(old(view), Limit(1)))
      ensures exist == None <==> old(view).core.fails || (oneColumn && old(view).core.fields != [])
      ensures exist.Some? ==> (exist.value <==> Unlimited(old(view).core, from) != [])
    {
      var id := FirstID(from, oneColumn);
      match id
      case NoId => return Some(false);
      case IdFailed => return None;
      case _ => return Some(true);
    }

    /** Asking a second time selects the id twice: with a scan that wants one column it always
        fails, otherwise it answers the same. */
    method ExistTwice(from: seq<Row>, oneColumn: bool) returns (once: Option<bool>, again: Option<bool>)
      requires Valid()
      modifies this, ctx
      ensures Valid() && Repr == old(Repr)
      ensures oneColumn ==> again == None
      ensures !oneColumn ==> again == once
    {
      once := Exist(from, oneColumn);
      again := Exist(from, oneColumn);
      SelectKeepsRows(old(view), from, 1);
    }
  }

  datatype OneResult = Single(node: Entity) | Missing | Several | Failed

  datatype IdResult = OneId(id: int) | NoId | ManyIds | IdFailed

  /** The rows the query has before any limit. */
  function Unlimited(core: Core, from: seq<Row>): seq<Row> {
    Window(core.(limit := None), Matching(core, Anything(), from))
  }

  /** The select path applies a zero limit literally; the node path reads it as no limit. */
  function SelectWindow<T>(core: Core, xs: seq<T>): seq<T> {
    if core.limit == Some(0) then [] else Window(core, xs)
  }

  function AsksForIds(q: Query): Query {
    var decided := if q.core.unique == None && q.core.traversal then Configured(q, Unique(true)) else q;
    Configured(decided, Select(["id"]))
  }

  /** What running a query over the rows it takes comes to: it fails exactly when it or a reached
      nested query does, or the nodes are the rows' images and the loads' restrictions stay. */
  ghost predicate Outcome(q: Query, t: Table, db: DB, rows: seq<Row>, res: LoadResult, left: Query, region: set<Entity>)
    reads region
  {
    && (res.Failure? <==> q.core.fails || Hits(q, db, rows))
    && (res.Success? ==>
          && left == After(q, db, rows)
          && Carries(t, q, None, rows, res.nodes) && AllShow(t, q, None, db, rows, res.nodes, region)
          && (PlainBelow(q) ==> AllMatch(t, q, None, db, rows, res.nodes, region)))
  }

  /** Runs a query value and returns what the loads leave of it. */
  method Run(q: Query, t: Table, from: seq<Row>, db: DB) returns (res: LoadResult, left: Query, ghost region: set<Entity>)
    requires ValidDB(db) && WellTyped(q, t) && Batch(t, db, from)
    ensures fresh(region) && Outcome(q, t, db, Rows(q, from), res, left, region)
  {
    res, left, region := SqlAll(t, q, None, Anything(), from, db);
    if res.Success? && PlainBelow(q) {
      AllShowMatch(t, q, None, db, Rows(q, from), res.nodes, region);
    }
  }

  /** The node of the only or first of the rows a run took, with its edges. */
  ghost predicate ShowsFirst(t: Table, q: Query, db: DB, rows: seq<Row>, n: Entity, region: set<Entity>)
    requires rows != []
    reads region
  {
    Shows(t, q, None, db, rows, rows[0], n, region) && (PlainBelow(q) ==> Matches(t, q, None, db, rows[0], n, region))
  }

  /** A positive limit, whatever limit it replaces, takes the first rows of the unlimited query. */
  lemma LimitTakes(core: Core, from: seq<Row>, n: nat)
    requires n > 0
    ensures var limited := core.(limit := Some(n));
            Window(limited, Matching(limited, Anything(), from)) == Take(n, Unlimited(core, from))
  {
    SameMatching(core, core.(limit := Some(n)), Anything(), from);
  }

  lemma SelectTakes(q: Query, from: seq<Row>, n: nat)
    requires n > 0
    ensures Rows(AsksForIds(Configured(q, Limit(n))), from) == Take(n, Unlimited(q.core, from))
  {
    SameMatching(q.core, AsksForIds(Configured(q, Limit(n))).core, Anything(), from);
  }

  /** Asking for ids changes no setting that decides which rows there are before a limit. */
  lemma SelectKeepsRows(q: Query, from: seq<Row>, n: nat)
    ensures Unlimited(AsksForIds(Configured(q, Limit(n))).core, from) == Unlimited(q.core, from)
  {
    SameMatching(q.core, AsksForIds(Configured(q, Limit(n))).core, Anything(), from);
  }

  /** At every level the same requests, and the same settings but for fields, predicates and joins. */
  ghost predicate Restricts(q: Query, left: Query)
    decreases q
  {
    && left.core == q.core.(fields := left.core.fields, preds := left.core.preds, joins := left.core.joins)
    && left.with.Keys == q.with.Keys && forall e | e in q.with :: Restricts(q.with[e], left.with[e])
  }

  lemma {:induction false} RestrictsItself(q: Query)
    ensures Restricts(q, q)
    decreases q
  {
    forall e | e in q.with ensures Restricts(q.with[e], q.with[e]) { RestrictsItself(q.with[e]); }
  }

  /** A run only restricts queries: no request, limit, offset or order changes. */
  lemma {:induction false} AfterRestricts(q: Query, db: DB, rows: seq<Row>)
    ensures Restricts(q, After(q, db, rows))
    decreases q
  {
    forall e | e in q.with ensures Restricts(q.with[e], After(q, db, rows).with[e]) {
      LeftBehind(q, e, db, rows);
      if rows != [] && Runs(e, rows) {
        AfterRestricts(q.with[e], db, Fetched(q.with[e], e, db, rows));
      } else {
        RestrictsItself(q.with[e]);
      }
    }
  }

  /** Nested builders that lie within a region, each a tree of its own. */
  ghost predicate Kids(with: map<Edge, Builder>, region: set<object>)
    reads with.Values, region
    decreases region, 2
  {
    && (forall e | e in with :: with[e] in region && with[e].Repr <= region)
    && (forall e {:trigger with[e].Valid()} | e in with :: with[e].Valid())
    && forall e, f {:trigger with[e].Repr, with[f].Repr} | e in with && f in with && e != f :: with[e].Repr !! with[f].Repr
  }

  ghost function KidViews(with: map<Edge, Builder>): map<Edge, Query>
    reads with.Values
  {
    map e | e in with :: with[e].view
  }

  /** Nested builders for all but the edges still to do. */
  ghost predicate Built(nested: map<Edge, Builder>, region: set<object>, views: map<Edge, Query>, todo: set<Edge>)
    reads nested.Values, region
  {
    Kids(nested, region) && KidViews(nested) == map e | e in views && e !in todo :: views[e]
  }

  lemma BuiltStep(nested: map<Edge, Builder>, region: set<object>, views: map<Edge, Query>, todo: set<Edge>, e: Edge, b: Builder)
    requires Built(nested, region, views, todo) && e in todo && e in views
    requires b.Valid() && b.view == views[e] && b.Repr !! region
    ensures Built(nested[e := b], region + b.Repr, views, todo - {e})
  {
    KidsReplaced(nested, region, e, b);
  }

  /** The views of the edges still to do, and the new ones of the rest. */
  ghost function Mixed(before: map<Edge, Query>, after: map<Edge, Query>, todo: set<Edge>): map<Edge, Query>
    requires before.Keys == after.Keys
  {
    map e | e in before :: if e in todo then before[e] else after[e]
  }

  lemma MixedStep(before: map<Edge, Query>, after: map<Edge, Query>, todo: set<Edge>, e: Edge)
    requires before.Keys == after.Keys && e in todo && todo <= before.Keys
    ensures Mixed(before, after, todo)[e := after[e]] == Mixed(before, after, todo - {e})
  {
  }

  lemma KidsReplaced(with: map<Edge, Builder>, region: set<object>, e: Edge, b: Builder)
    requires Kids(with, region) && b.Valid() && b.Repr !! region
    ensures Kids(with[e := b], region + b.Repr)
    ensures KidViews(with[e := b]) == KidViews(with)[e := b.view]
  {
  }

  /** A builder that is in order and lies in a region outside another one. */
  ghost predicate Apart(b: Builder, other: set<object>, region: set<object>)
    reads b, b.Repr
  {
    b in region && b.Repr <= region && b.Valid() && b.Repr !! other
  }

  lemma SiblingsApart(with: map<Edge, Builder>, region: set<object>, e: Edge)
    requires Kids(with, region) && e in with
    ensures with[e].Valid() && with[e] in region && with[e].Repr <= region
    ensures forall f | f in with && f != e :: Apart(with[f], with[e].Repr, region)
    ensures forall f, g | f in with && g in with && f != g && f != e && g != e :: with[f].Repr !! with[g].Repr
  {
  }

  /** A nested builder changed and grew by objects from outside the region at most; the others are
      as they were. */
  lemma KidsRegrown(with: map<Edge, Builder>, region: set<object>, e: Edge, own: set<object>)
    requires e in with && with[e] in region && with[e].Valid() && with[e].Repr - own !! region
    requires forall f | f in with && f != e :: Apart(with[f], own, region)
    requires forall f, g | f in with && g in with && f != g && f != e && g != e :: with[f].Repr !! with[g].Repr
    ensures Kids(with, region + with[e].Repr)
  {
  }

  /** A fresh builder for a query. */
  method Build(q: Query) returns (b: Builder)
    ensures b.Valid() && fresh(b.Repr) && b.view == q
    decreases q, 1
  {
    ghost var region;
    var nested;
    nested, region := BuildKids(q);
    var core := q.core;
    var ctx := new QueryContext(core.fields, core.limit, core.offset, core.unique);
    b := new Builder.Make(ctx, core.order, core.inters, core.preds, nested, core.modifiers, core.traversal, core.joins, core.fails, region);
  }

  method BuildKids(q: Query) returns (nested: map<Edge, Builder>, ghost region: set<object>)
    ensures fresh(region) && Kids(nested, region) && KidViews(nested) == q.with
    decreases q, 0
  {
    nested, region := map[], {};
    var todo := q.with.Keys;
    while todo != {}
      invariant todo <= q.with.Keys && fresh(region) && Built(nested, region, q.with, todo)
    {
      var e :| e in todo;
      var sub := Build(q.with[e]);
      BuiltStep(nested, region, q.with, todo, e, sub);
      nested, region, todo := nested[e := sub], region + sub.Repr, todo - {e};
    }
  }

  // ---------- independence ----------

  /** One step on the original (left) or on the clone. */
  datatype Move = Move(left: bool, path: seq<Edge>, step: Step)

  /** The moves of one side, in order, applied to a query. */
  function Play(q: Query, left: bool, moves: seq<Move>): Query {
    if moves == [] then q
    else
      var before, m := Play(q, left, moves[..|moves| - 1]), moves[|moves| - 1];
      if m.left == left then ConfiguredAt(before, m.path, m.step) else before
  }

  lemma PlayStep(q: Query, left: bool, moves: seq<Move>, i: nat)
    requires i < |moves|
    ensures Play(q, left, moves[..i + 1]) ==
            if moves[i].left == left then ConfiguredAt(Play(q, left, moves[..i]), moves[i].path, moves[i].step)
            else Play(q, left, moves[..i])
  {
    assert moves[..i + 1][..i] == moves[..i];
  }

  /** However later steps interleave on a query and its clone, at any depth of either tree, each
      ends as if the other did not exist. */
  method CloneAndDiverge(q: Builder, moves: seq<Move>) returns (c: Builder, ghost start: Query)
    requires q.Valid()
    modifies q.Repr
    ensures q.Valid() && c.Valid() && q.Repr !! c.Repr && fresh(c.Repr)
    ensures q.view == Play(old(q.view), true, moves)
    ensures CopyOf(start, old(q.view)) && c.view == Play(start, false, moves)
  {
    c := q.Clone();
    start := c.view;
    for i := 0 to |moves|
      invariant q.Valid() && c.Valid() && q.Repr !! c.Repr && fresh(c.Repr) && fresh(q.Repr - old(q.Repr))
      invariant q.view == Play(old(q.view), true, moves[..i])
      invariant c.view == Play(start, false, moves[..i])
    {
      PlayStep(old(q.view), true, moves, i);
      PlayStep(start, false, moves, i);
      Turn(q, c, moves[i]);
    }
    assert moves[..|moves|] == moves;
  }

  /** One move on its side; the other side does not notice. */
  method Turn(q: Builder, c: Builder, m: Move)
    requires q.Valid() && c.Valid() && q.Repr !! c.Repr
    modifies q.Repr, c.Repr
    ensures q.Valid() && c.Valid() && q.Repr !! c.Repr && fresh(q.Repr - old(q.Repr)) && fresh(c.Repr - old(c.Repr))
    ensures q.view == if m.left then ConfiguredAt(old(q.view), m.path, m.step) else old(q.view)
    ensures c.view == if m.left then old(c.view) else ConfiguredAt(old(c.view), m.path, m.step)
  {
    if m.left {
      q.Perform(m.path, m.step);
    } else {
      c.Perform(m.path, m.step);
    }
  }
}
