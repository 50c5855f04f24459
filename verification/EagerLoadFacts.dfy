/** Consequences of batched loading: the rows it distributes, what limits do to it, what the edge
    accessors report, and two routes to the same groups. */
module EagerLoadFacts {
  import opened Prelude
  import opened Schema
  import opened Queries
  import opened QueryMeaning
  import opened Loaders
  import opened EagerLoad
  import opened EagerReference

  // ---------- to-many loading partitions its rows ----------

  /** All owners' shares together. */
  function TotalOwned(e: Edge, owners: seq<Row>, neighbors: seq<Entity>): nat {
    if owners == [] then 0
    else |Owned(e, owners[0], neighbors)| + TotalOwned(e, owners[1..], neighbors)
  }

  function OwnedByAny(e: Edge, ids: seq<int>): Entity -> bool {
    (n: Entity) => var fk := Fk(e, n.row); fk.Some? && fk.value in ids
  }

  lemma {:induction false} FilterSplit<T>(a: T -> bool, b: T -> bool, either: T -> bool, xs: seq<T>)
    requires forall x | x in xs :: either(x) == (a(x) || b(x)) && !(a(x) && b(x))
    ensures |Filter(either, xs)| == |Filter(a, xs)| + |Filter(b, xs)|
  {
    if xs != [] { FilterSplit(a, b, either, xs[1..]); }
  }

  lemma {:induction false} FilterAll<T>(keep: T -> bool, xs: seq<T>)
    requires forall x | x in xs :: keep(x)
    ensures Filter(keep, xs) == xs
  {
    if xs != [] { FilterAll(keep, xs[1..]); }
  }

  lemma {:induction false} TotalOwnedCounts(e: Edge, owners: seq<Row>, neighbors: seq<Entity>)
    requires Distinct(Ids(owners))
    ensures TotalOwned(e, owners, neighbors) == |Filter(OwnedByAny(e, Ids(owners)), neighbors)|
  {
    if owners == [] {
      FilterNone(OwnedByAny(e, []), neighbors);
    } else {
      var rest := owners[1..];
      assert Ids(rest) == Ids(owners)[1..];
      TotalOwnedCounts(e, rest, neighbors);
      assert Ids(owners) == [Id(owners[0])] + Ids(rest);
      FilterSplit((n: Entity) => Fk(e, n.row) == Some(Id(owners[0])), OwnedByAny(e, Ids(rest)),
                  OwnedByAny(e, Ids(owners)), neighbors);
    }
  }

  /** Without orphans every neighbour lands in exactly one owner's list. */
  lemma SharesPartition(e: Edge, owners: seq<Row>, neighbors: seq<Entity>)
    requires Distinct(Ids(owners))
    requires NoOrphan(e, (set id | id in Ids(owners)), neighbors)
    ensures TotalOwned(e, owners, neighbors) == |neighbors|
    ensures forall i, j, n :: 0 <= i < j < |owners| && n in neighbors ==>
              !(n in Owned(e, owners[i], neighbors) && n in Owned(e, owners[j], neighbors))
  {
    TotalOwnedCounts(e, owners, neighbors);
    FilterAll(OwnedByAny(e, Ids(owners)), neighbors);
    forall i, j, n | 0 <= i < j < |owners| && n in neighbors
      ensures !(n in Owned(e, owners[i], neighbors) && n in Owned(e, owners[j], neighbors))
    {
      OwnedMembers(e, owners[i], neighbors);
      OwnedMembers(e, owners[j], neighbors);
      assert Ids(owners)[i] != Ids(owners)[j];
    }
  }

  lemma OwnedMembers(e: Edge, owner: Row, neighbors: seq<Entity>)
    ensures forall n | n in Owned(e, owner, neighbors) :: n in neighbors && Fk(e, n.row) == Some(Id(owner))
  {
    FilterMembers((n: Entity) => Fk(e, n.row) == Some(Id(owner)), neighbors);
  }

  // ---------- limits and offsets on a nested query ----------

  /** What belongs to one owner. */
  function Of<T>(owner: T -> Option<int>, id: int): T -> bool {
    (x: T) => owner(x) == Some(id)
  }

  ghost predicate OneOwner<T>(owner: T -> Option<int>, rows: seq<T>) {
    forall r, s | r in rows && s in rows :: owner(r) == owner(s)
  }

  function Take<T>(k: nat, xs: seq<T>): seq<T> {
    if k < |xs| then xs[..k] else xs
  }

  function Drop<T>(k: nat, xs: seq<T>): seq<T> {
    if k < |xs| then xs[k..] else []
  }

  lemma FilterBounds<T>(keep: T -> bool, xs: seq<T>, k: nat)
    requires k < |xs|
    ensures Filter(keep, xs) == Filter(keep, xs[..k]) + Filter(keep, xs[k..])
    ensures keep(xs[k]) ==> |Filter(keep, xs[k..])| >= 1
  {
    assert xs == xs[..k] + xs[k..];
    FilterAppend(keep, xs[..k], xs[k..]);
  }

  lemma {:induction false} FilterFull<T>(keep: T -> bool, xs: seq<T>)
    requires |Filter(keep, xs)| == |xs|
    ensures forall x | x in xs :: keep(x)
  {
    if xs != [] { FilterFull(keep, xs[1..]); }
  }

  /** Cutting the whole batch equals cutting every owner's rows. */
  ghost predicate LimitShared<T>(owner: T -> Option<int>, k: nat, rows: seq<T>) {
    forall id :: Filter(Of(owner, id), Take(k, rows)) == Take(k, Filter(Of(owner, id), rows))
  }

  ghost predicate OffsetShared<T>(owner: T -> Option<int>, k: nat, rows: seq<T>) {
    forall id :: Filter(Of(owner, id), Drop(k, rows)) == Drop(k, Filter(Of(owner, id), rows))
  }

  /** A row whose owner keeps it although the batch was cut before it: then the whole kept part
      is that owner's. */
  lemma CutForcesOwner<T>(owner: T -> Option<int>, k: nat, rows: seq<T>, at: nat, id: int)
    requires 0 < k <= at < |rows| && owner(rows[at]) == Some(id)
    requires Filter(Of(owner, id), Take(k, rows)) == Take(k, Filter(Of(owner, id), rows))
    ensures forall r | r in rows[..k] :: owner(r) == Some(id)
  {
    var own := Of(owner, id);
    FilterBounds(own, rows, k);
    assert rows[at] in rows[k..] by { assert rows[k..][at - k] == rows[at]; }
    FilterMembers(own, rows[k..]);
    FilterFull(own, rows[..k]);
  }

  /** A limit on a nested to-many query means "per node" exactly when it cuts nothing off or all
      matching rows belong to one node. */
  lemma NestedLimitExact<T>(owner: T -> Option<int>, k: nat, rows: seq<T>)
    requires 0 < k && forall r | r in rows :: owner(r).Some?
    ensures LimitShared(owner, k, rows) <==> |rows| <= k || OneOwner(owner, rows)
  {
    if |rows| <= k {
    } else if OneOwner(owner, rows) {
      OneOwnerShares(owner, k, rows);
    } else if LimitShared(owner, k, rows) {
      forall i | k <= i < |rows| ensures forall r | r in rows[..k] :: owner(r) == owner(rows[i]) {
        assert rows[i] in rows;
        CutForcesOwner(owner, k, rows, i, owner(rows[i]).value);
      }
      PrefixOwnsAll(owner, k, rows);
    }
  }

  /** The same for an offset. */
  lemma NestedOffsetExact<T>(owner: T -> Option<int>, k: nat, rows: seq<T>)
    requires forall r | r in rows :: owner(r).Some?
    ensures OffsetShared(owner, k, rows) <==> k == 0 || |rows| <= k || OneOwner(owner, rows)
  {
    if k == 0 {
      assert Drop(0, rows) == rows;
      assert forall id :: Drop(0, Filter(Of(owner, id), rows)) == Filter(Of(owner, id), rows);
    } else if |rows| <= k {
    } else if OneOwner(owner, rows) {
      OneOwnerShares(owner, k, rows);
    } else if OffsetShared(owner, k, rows) {
      forall i | k <= i < |rows| ensures forall r | r in rows[..k] :: owner(r) == owner(rows[i]) {
        assert rows[i] in rows;
        SkipForcesOwner(owner, k, rows, i, owner(rows[i]).value);
      }
      PrefixOwnsAll(owner, k, rows);
    }
  }

  /** If every later row shares its owner with the whole prefix, there is only one owner. */
  lemma PrefixOwnsAll<T>(owner: T -> Option<int>, k: nat, rows: seq<T>)
    requires 0 < k < |rows|
    requires forall i :: k <= i < |rows| ==>
               forall r | r in rows[..k] :: owner(r) == owner(rows[i])
    ensures OneOwner(owner, rows)
  {
    assert rows[..k][0] == rows[0] && rows[0] in rows[..k];
    forall r | r in rows ensures owner(r) == owner(rows[0]) {
      var i :| 0 <= i < |rows| && rows[i] == r;
      if i < k {
        assert rows[..k][i] == r && r in rows[..k];
        assert owner(rows[k]) == owner(r);
      }
    }
  }

  lemma OneOwnerShares<T>(owner: T -> Option<int>, k: nat, rows: seq<T>)
    requires 0 < k < |rows| && OneOwner(owner, rows)
    ensures LimitShared(owner, k, rows) && OffsetShared(owner, k, rows)
  {
    forall id ensures Filter(Of(owner, id), rows[..k]) == Take(k, Filter(Of(owner, id), rows))
              ensures Filter(Of(owner, id), rows[k..]) == Drop(k, Filter(Of(owner, id), rows))
    {
      assert rows[0] in rows && rows[k] in rows && rows[..k][0] == rows[0] && rows[k..][0] == rows[k];
      AllOrNothing(owner, id, rows);
      AllOrNothing(owner, id, rows[..k]);
      AllOrNothing(owner, id, rows[k..]);
    }
  }

  lemma AllOrNothing<T>(owner: T -> Option<int>, id: int, rows: seq<T>)
    requires OneOwner(owner, rows) && rows != []
    ensures Filter(Of(owner, id), rows) == if owner(rows[0]) == Some(id) then rows else []
  {
    assert rows[0] in rows;
    if owner(rows[0]) == Some(id) {
      FilterAll(Of(owner, id), rows);
    } else {
      FilterNone(Of(owner, id), rows);
    }
  }

  lemma SkipForcesOwner<T>(owner: T -> Option<int>, k: nat, rows: seq<T>, at: nat, id: int)
    requires 0 < k <= at < |rows| && owner(rows[at]) == Some(id)
    requires Filter(Of(owner, id), Drop(k, rows)) == Drop(k, Filter(Of(owner, id), rows))
    ensures forall r | r in rows[..k] :: owner(r) == Some(id)
  {
    var own := Of(owner, id);
    FilterBounds(own, rows, k);
    assert rows[at] in rows[k..] by { assert rows[k..][at - k] == rows[at]; }
    FilterMembers(own, rows[k..]);
    FilterFull(own, rows[..k]);
  }

  // ---------- any window ----------

  function Start(core: Core): nat {
    if core.offset.Some? then core.offset.value else 0
  }

  /** Everything up to the last row of the window. */
  function Reach<T>(core: Core, xs: seq<T>): seq<T> {
    if Window(core, xs) == [] then [] else xs[..Start(core) + |Window(core, xs)|]
  }

  /** A filter never moves an element to a later place. */
  lemma {:induction false} FilteredLater<T>(keep: T -> bool, xs: seq<T>, i: nat) returns (j: nat)
    requires i < |Filter(keep, xs)|
    ensures i <= j < |xs| && Filter(keep, xs)[i] == xs[j]
    ensures !keep(xs[0]) ==> i < j
  {
    if keep(xs[0]) {
      if i == 0 {
        j := 0;
      } else {
        var k := FilteredLater(keep, xs[1..], i - 1);
        j := k + 1;
      }
    } else {
      var k := FilteredLater(keep, xs[1..], i);
      j := k + 1;
    }
  }

  lemma KeptHead<T>(keep: T -> bool, xs: seq<T>, i: nat)
    requires Distinct(xs) && i < |Filter(keep, xs)| && Filter(keep, xs)[i] == xs[i]
    ensures keep(xs[0])
  {
    var j := FilteredLater(keep, xs, i);
  }

  /** If filtering leaves an element of a duplicate-free list in its place, it dropped nothing up to
      there. */
  lemma {:induction false} KeptPrefix<T>(keep: T -> bool, xs: seq<T>, i: nat)
    requires Distinct(xs) && i < |Filter(keep, xs)| && Filter(keep, xs)[i] == xs[i]
    ensures forall x | x in xs[..i + 1] :: keep(x)
  {
    KeptHead(keep, xs, i);
    if i > 0 { KeptPrefix(keep, xs[1..], i - 1); }
    assert xs[..i + 1] == [xs[0]] + xs[1..][..i];
  }

  /** A list that agrees up to the end of the window and is no longer has the same window. */
  lemma SamePrefixSameWindow<T>(core: Core, xs: seq<T>, ys: seq<T>)
    requires Reach(core, xs) <= ys && |ys| <= |xs| && Window(core, xs) != []
    ensures Window(core, ys) == Window(core, xs)
  {
    var o, n := Start(core), |Reach(core, xs)|;
    assert Reach(core, xs) == xs[..n] == ys[..n];
    assert xs[o..n] == xs[..n][o..] == ys[..n][o..] == ys[o..n];
    if n == |xs| {
      assert |ys| == n && xs == xs[..n] && ys == ys[..n];
    } else {
      assert Window(core, xs) == xs[o..n] && Window(core, ys) == ys[o..n];
    }
  }

  /** Filtering that drops nothing up to the end of the window does not change the window. */
  lemma FilterWindow<T>(core: Core, keep: T -> bool, xs: seq<T>)
    requires forall x | x in Reach(core, xs) :: keep(x)
    ensures Window(core, Filter(keep, xs)) == Window(core, xs)
  {
    var reach := Reach(core, xs);
    if Window(core, xs) != [] {
      assert xs == reach + xs[|reach|..];
      FilterAppend(keep, reach, xs[|reach|..]);
      FilterAll(keep, reach);
      SamePrefixSameWindow(core, xs, Filter(keep, xs));
    }
  }

  /** For a duplicate-free list, only such filtering leaves the window as it is. */
  lemma FilterWindowExact<T>(core: Core, keep: T -> bool, xs: seq<T>)
    requires NoWindow(core) || Distinct(xs)
    ensures Window(core, Filter(keep, xs)) == Window(core, xs) <==> forall x | x in Reach(core, xs) :: keep(x)
  {
    var w, o := Window(core, xs), Start(core);
    if forall x | x in Reach(core, xs) :: keep(x) {
      FilterWindow(core, keep, xs);
    } else if Window(core, Filter(keep, xs)) == w {
      if NoWindow(core) {
        FilterFull(keep, xs);
      } else {
        var i := o + |w| - 1;
        assert Window(core, Filter(keep, xs))[|w| - 1] == Filter(keep, xs)[i];
        KeptPrefix(keep, xs, i);
      }
    }
  }

  /** Cutting the whole batch to the window equals cutting every owner's rows to it. */
  ghost predicate WindowShared<T>(core: Core, owner: T -> Option<int>, xs: seq<T>) {
    forall id :: Filter(Of(owner, id), Window(core, xs)) == Window(core, Filter(Of(owner, id), xs))
  }

  /** The window is empty or everything, or it ends within the rows of one owner at the front of the
      batch and skips all rows of every other owner. */
  ghost predicate WindowFits<T>(core: Core, owner: T -> Option<int>, xs: seq<T>) {
    var w, o := Window(core, xs), Start(core);
    || w == [] || |w| == |xs|
    || exists id ::
         && (forall x | x in Reach(core, xs) :: owner(x) == Some(id))
         && forall other :: other != id ==> |Filter(Of(owner, other), xs)| <= o
  }

  lemma WindowEmpty<T>(core: Core, xs: seq<T>)
    ensures Window(core, xs) == [] <==> |xs| <= Start(core)
    ensures Window(core, xs) != [] ==> Window(core, xs)[0] == xs[Start(core)]
    ensures |Window(core, xs)| == |xs| ==> Window(core, xs) == xs
  {
  }

  lemma FitsIsShared<T>(core: Core, owner: T -> Option<int>, xs: seq<T>, id: int)
    requires WindowFits(core, owner, xs)
    ensures Filter(Of(owner, id), Window(core, xs)) == Window(core, Filter(Of(owner, id), xs))
  {
    var w, own := Window(core, xs), Filter(Of(owner, id), xs);
    WindowEmpty(core, xs);
    WindowEmpty(core, own);
    if w != [] && |w| != |xs| {
      var a :| (forall x | x in Reach(core, xs) :: owner(x) == Some(a))
               && forall other :: other != a ==> |Filter(Of(owner, other), xs)| <= Start(core);
      assert forall x | x in w :: x in Reach(core, xs);
      if id == a {
        FilterWindow(core, Of(owner, id), xs);
        FilterAll(Of(owner, id), w);
      } else {
        FilterNone(Of(owner, id), w);
      }
    } else if |w| == |xs| {
      assert Window(core, own) == own;
    }
  }

  /** A window that skips rows and is shared lies, with all before it, within one owner's rows. */
  lemma SkippingOwner<T>(core: Core, owner: T -> Option<int>, xs: seq<T>, a: int)
    requires Distinct(xs) && Window(core, xs) != [] && owner(xs[Start(core)]) == Some(a)
    requires WindowShared(core, owner, xs)
    ensures forall x | x in xs[..Start(core) + 1] :: owner(x) == Some(a)
  {
    var w, o, mine := Window(core, xs), Start(core), Of(owner, a);
    WindowEmpty(core, xs);
    WindowEmpty(core, Filter(mine, xs));
    assert Filter(mine, w) == Window(core, Filter(mine, xs));
    assert w == [w[0]] + w[1..];
    FilterCons(mine, w[0], w[1..]);
    KeptPrefix(mine, xs, o);
    forall x | x in xs[..o + 1] ensures owner(x) == Some(a) { assert mine(x); }
  }

  lemma {:induction false} FirstOf<T>(keep: T -> bool, xs: seq<T>, n: nat)
    requires n <= |xs| && Filter(keep, xs[..n]) != []
    ensures Filter(keep, xs) != [] && Filter(keep, xs)[0] == Filter(keep, xs[..n])[0]
  {
    FilterAppend(keep, xs[..n], xs[n..]);
    assert xs[..n] + xs[n..] == xs;
  }

  /** With no row before the window, an owner's first row in it is its first row of all. */
  lemma SkippedFirst<T>(core: Core, mine: T -> bool, xs: seq<T>)
    requires Window(core, xs) != [] && Filter(mine, xs[..Start(core)]) == []
    requires Filter(mine, Window(core, xs)) == Window(core, Filter(mine, xs))
    ensures var own := Filter(mine, xs); |own| > Start(core) ==> own[0] == own[Start(core)]
  {
    var w, o, own := Window(core, xs), Start(core), Filter(mine, xs);
    WindowEmpty(core, own);
    if |own| > o {
      var n := o + |w|;
      assert xs[..n] == xs[..o] + w;
      FilterAppend(mine, xs[..o], w);
      FirstOf(mine, xs, n);
    }
  }

  /** Other owners have no row in a shared window that skips rows, and none beyond the offset. */
  lemma SkippingOthers<T>(core: Core, owner: T -> Option<int>, xs: seq<T>, a: int, c: int)
    requires Distinct(xs) && Start(core) > 0 && Window(core, xs) != [] && owner(xs[Start(core)]) == Some(a) && c != a
    requires WindowShared(core, owner, xs)
    ensures Filter(Of(owner, c), Window(core, xs)) == [] && |Filter(Of(owner, c), xs)| <= Start(core)
  {
    var o := Start(core);
    SkippingOwner(core, owner, xs, a);
    assert forall x | x in xs[..o] :: x in xs[..o + 1];
    FilterNone(Of(owner, c), xs[..o]);
    assert Filter(Of(owner, c), Window(core, xs)) == Window(core, Filter(Of(owner, c), xs));
    SkippedFirst(core, Of(owner, c), xs);
    FilterDistinct(Of(owner, c), xs);
    WindowEmpty(core, Filter(Of(owner, c), xs));
  }

  lemma SkippingFits<T>(core: Core, owner: T -> Option<int>, xs: seq<T>)
    requires Distinct(xs) && forall x | x in xs :: owner(x).Some?
    requires WindowShared(core, owner, xs) && Start(core) > 0 && Window(core, xs) != []
    ensures WindowFits(core, owner, xs)
  {
    var w, o := Window(core, xs), Start(core);
    WindowEmpty(core, xs);
    assert xs[o] in xs;
    var a := owner(xs[o]).value;
    SkippingOwner(core, owner, xs, a);
    forall other | other != a ensures |Filter(Of(owner, other), xs)| <= o && Filter(Of(owner, other), w) == [] {
      SkippingOthers(core, owner, xs, a, other);
    }
    forall x | x in w ensures owner(x) == Some(a) {
      assert x in xs;
      FilterMembers(Of(owner, owner(x).value), w);
    }
    SkippedReach(core, owner, xs, a);
  }

  lemma SkippedReach<T>(core: Core, owner: T -> Option<int>, xs: seq<T>, a: int)
    requires Window(core, xs) != []
    requires forall x | x in xs[..Start(core) + 1] :: owner(x) == Some(a)
    requires forall x | x in Window(core, xs) :: owner(x) == Some(a)
    ensures forall x | x in Reach(core, xs) :: owner(x) == Some(a)
  {
    var w, o, reach := Window(core, xs), Start(core), Reach(core, xs);
    WindowMeans(core, xs);
    forall i | 0 <= i < |reach| ensures owner(reach[i]) == Some(a) {
      if i <= o {
        assert xs[..o + 1][i] == reach[i];
      } else {
        assert w[i - o] == reach[i];
      }
    }
  }

  /** A window on a batch is a window on every owner's rows if and only if it fits. */
  lemma WindowExact<T>(core: Core, owner: T -> Option<int>, xs: seq<T>)
    requires Distinct(xs) && forall x | x in xs :: owner(x).Some?
    ensures WindowShared(core, owner, xs) <==> WindowFits(core, owner, xs)
  {
    if WindowFits(core, owner, xs) {
      forall id { FitsIsShared(core, owner, xs, id); }
    } else if WindowShared(core, owner, xs) {
      if Start(core) == 0 {
        UnskippedFits(core, owner, xs);
      } else {
        SkippingFits(core, owner, xs);
      }
    }
  }

  lemma UnskippedFits<T>(core: Core, owner: T -> Option<int>, xs: seq<T>)
    requires forall x | x in xs :: owner(x).Some?
    requires WindowShared(core, owner, xs) && Start(core) == 0
    ensures WindowFits(core, owner, xs)
  {
    if Window(core, xs) != [] && |Window(core, xs)| < |xs| {
      UnskippedOwner(core, owner, xs);
      assert xs[0] in xs;
      var a := owner(xs[0]).value;
      assert forall x | x in Reach(core, xs) :: x in xs;
      forall other | other != a ensures |Filter(Of(owner, other), xs)| <= 0 {
        FilterNone(Of(owner, other), xs);
      }
    }
  }

  lemma UnskippedOwner<T>(core: Core, owner: T -> Option<int>, xs: seq<T>)
    requires Start(core) == 0 && Window(core, xs) != [] && |Window(core, xs)| < |xs|
    requires WindowShared(core, owner, xs) && forall x | x in xs :: owner(x).Some?
    ensures OneOwner(owner, xs)
  {
    var k := core.limit.value;
    assert Window(core, xs) == Take(k, xs);
    forall id ensures Filter(Of(owner, id), Take(k, xs)) == Take(k, Filter(Of(owner, id), xs)) {
      assert Window(core, Filter(Of(owner, id), xs)) == Take(k, Filter(Of(owner, id), xs));
    }
    NestedLimitExact(owner, k, xs);
  }

  // ---------- windows on a nested query ----------

  /** Every node of the batch gets the window of its own lookup. */
  ghost predicate PerNode(sub: Query, e: Edge, db: DB, batch: seq<Row>) {
    forall row :: row in batch ==> Share(sub, e, db, batch, row) == Window(sub.core, Lookup(sub, e, db, row))
  }

  /** The rows that a keyed query matches for a batch, before its window. */
  function BatchRows(sub: Query, e: Edge, db: DB, batch: seq<Row>): seq<Row> {
    Matching(sub.core, InBatch(e, BatchIds(e, batch)), db.Rows(Target(e)))
  }

  /** Rows of a to-many batch belong to the node that their key names, rows of a to-one batch to the
      key they answer, joined rows to their source. */
  function FkOwner(e: Edge): Row -> Option<int> {
    (r: Row) => IntAt(r, FkColumn(e))
  }

  function IdOwner(): Row -> Option<int> {
    (r: Row) => Some(Id(r))
  }

  function JoinOwner(): ((int, Row)) -> Option<int> {
    (p: (int, Row)) => Some(p.0)
  }

  lemma ManyShare(sub: Query, e: Edge, db: DB, batch: seq<Row>, row: Row)
    requires KindOf(e) == ToMany && row in batch
    ensures var rows, own := BatchRows(sub, e, db, batch), Of(FkOwner(e), Id(row));
            && Share(sub, e, db, batch, row) == Filter(own, Window(sub.core, rows))
            && Lookup(sub, e, db, row) == Filter(own, rows)
  {
    var rows, narrow := BatchRows(sub, e, db, batch), LinkedTo(e, db, row);
    var i :| 0 <= i < |batch| && batch[i] == row;
    assert Ids(batch)[i] == Id(row);
    NarrowAfter(sub.core, InBatch(e, Ids(batch)), narrow, db.Rows(Target(e)));
    FilterCongruent(narrow, Of(FkOwner(e), Id(row)), rows);
    FilterCongruent(narrow, Of(FkOwner(e), Id(row)), Window(sub.core, rows));
  }

  lemma OneShare(sub: Query, e: Edge, db: DB, batch: seq<Row>, row: Row)
    requires KindOf(e) == ToOne && row in batch
    ensures var rows := BatchRows(sub, e, db, batch);
            if Fk(e, row) == None then Share(sub, e, db, batch, row) == [] == Lookup(sub, e, db, row)
            else
              var own := Of(IdOwner(), Fk(e, row).value);
              && Fk(e, row).value in Keys(e, batch)
              && Share(sub, e, db, batch, row) == Filter(own, Window(sub.core, rows)) && Lookup(sub, e, db, row) == Filter(own, rows)
  {
    var rows, narrow := BatchRows(sub, e, db, batch), LinkedTo(e, db, row);
    KeysMembers(e, batch);
    var i :| 0 <= i < |batch| && batch[i] == row;
    NarrowAfter(sub.core, InBatch(e, Keys(e, batch)), narrow, db.Rows(Target(e)));
    if Fk(e, row) == None {
      FilterNone(narrow, Window(sub.core, rows));
      FilterNone(narrow, rows);
    } else {
      FilterCongruent(narrow, Of(IdOwner(), Fk(e, row).value), rows);
      FilterCongruent(narrow, Of(IdOwner(), Fk(e, row).value), Window(sub.core, rows));
    }
  }

  lemma NobodysRows<T>(core: Core, owner: T -> Option<int>, xs: seq<T>, id: int)
    requires forall x | x in xs :: owner(x) != Some(id)
    ensures Filter(Of(owner, id), Window(core, xs)) == [] == Window(core, Filter(Of(owner, id), xs))
  {
    FilterNone(Of(owner, id), xs);
    FilterNone(Of(owner, id), Window(core, xs));
  }

  /** A window on a nested to-many query gives every node the window of its own lookup if and only
      if it fits the batch: nothing is cut off, nothing is left, or the part up to its end belongs
      to one node and no other node has rows beyond the offset. */
  lemma NestedWindowToMany(sub: Query, e: Edge, db: DB, batch: seq<Row>)
    requires KindOf(e) == ToMany && Distinct(BatchRows(sub, e, db, batch))
    ensures PerNode(sub, e, db, batch) <==> WindowFits(sub.core, FkOwner(e), BatchRows(sub, e, db, batch))
  {
    var rows := BatchRows(sub, e, db, batch);
    MatchingMembers(sub.core, InBatch(e, Ids(batch)), db.Rows(Target(e)));
    WindowExact(sub.core, FkOwner(e), rows);
    forall row | row in batch { ManyShare(sub, e, db, batch, row); }
    if PerNode(sub, e, db, batch) {
      forall id ensures Filter(Of(FkOwner(e), id), Window(sub.core, rows)) == Window(sub.core, Filter(Of(FkOwner(e), id), rows)) {
        if id in Ids(batch) {
          var i :| 0 <= i < |batch| && Ids(batch)[i] == id;
          assert batch[i] in batch;
        } else {
          NobodysRows(sub.core, FkOwner(e), rows, id);
        }
      }
    }
  }

  /** A window on a nested to-one query gives every node the window of its own lookup if and only if
      it cuts nothing off or leaves nothing. */
  lemma NestedWindowToOne(sub: Query, e: Edge, db: DB, batch: seq<Row>)
    requires KindOf(e) == ToOne && ValidDB(db)
    ensures var rows := BatchRows(sub, e, db, batch);
            PerNode(sub, e, db, batch) <==> Window(sub.core, rows) == [] || Window(sub.core, rows) == rows
  {
    var t, rows := Target(e), BatchRows(sub, e, db, batch);
    assert HasId(t) && ValidRows(t, db.Rows(t));
    MatchingDistinct(t, sub.core, InBatch(e, Keys(e, batch)), db.Rows(t));
    WindowExact(sub.core, IdOwner(), rows);
    FitsOneByOne(sub.core, rows);
    OnePerNode(sub, e, db, batch);
  }

  lemma OnePerNode(sub: Query, e: Edge, db: DB, batch: seq<Row>)
    requires KindOf(e) == ToOne
    ensures PerNode(sub, e, db, batch) <==> WindowShared(sub.core, IdOwner(), BatchRows(sub, e, db, batch))
  {
    if PerNode(sub, e, db, batch) {
      forall id { OneCut(sub, e, db, batch, id); }
    } else if WindowShared(sub.core, IdOwner(), BatchRows(sub, e, db, batch)) {
      forall row | row in batch ensures Share(sub, e, db, batch, row) == Window(sub.core, Lookup(sub, e, db, row)) {
        OneShare(sub, e, db, batch, row);
      }
    }
  }

  lemma OneCut(sub: Query, e: Edge, db: DB, batch: seq<Row>, id: int)
    requires KindOf(e) == ToOne && PerNode(sub, e, db, batch)
    ensures var rows, own := BatchRows(sub, e, db, batch), Of(IdOwner(), id);
            Filter(own, Window(sub.core, rows)) == Window(sub.core, Filter(own, rows))
  {
    KeysMembers(e, batch);
    if id in Keys(e, batch) {
      var i :| 0 <= i < |batch| && Fk(e, batch[i]) == Some(id);
      assert batch[i] in batch;
      OneShare(sub, e, db, batch, batch[i]);
    } else {
      MatchingMembers(sub.core, InBatch(e, Keys(e, batch)), db.Rows(Target(e)));
      NobodysRows(sub.core, IdOwner(), BatchRows(sub, e, db, batch), id);
    }
  }

  /** Rows of one owner each fit a window only if it is empty or everything. */
  lemma FitsOneByOne(core: Core, rows: seq<Row>)
    requires Distinct(Ids(rows))
    ensures WindowFits(core, IdOwner(), rows) <==> Window(core, rows) == [] || Window(core, rows) == rows
  {
    WindowEmpty(core, rows);
    if id :| (forall x | x in Reach(core, rows) :: IdOwner()(x) == Some(id))
             && forall other :: other != id ==> |Filter(Of(IdOwner(), other), rows)| <= Start(core) {
      ReachOne(core, rows, id);
      OthersCount(core, rows, id);
    }
  }

  /** Rows with one id each: a reach within one owner's rows is one row long. */
  lemma ReachOne(core: Core, rows: seq<Row>, id: int)
    requires Distinct(Ids(rows)) && forall x | x in Reach(core, rows) :: Id(x) == id
    ensures |Reach(core, rows)| <= 1
  {
    if |rows| > 1 {
      assert Ids(rows)[0] != Ids(rows)[1];
      assert rows[..2][1] == rows[1];
      assert forall i :: 0 <= i < |Reach(core, rows)| ==> Id(rows[i]) == id;
    }
  }

  /** With nothing skipped, no other owner may have a row at all. */
  lemma OthersCount(core: Core, rows: seq<Row>, id: int)
    requires Distinct(Ids(rows)) && |Reach(core, rows)| <= 1
    requires forall other :: other != id ==> |Filter(Of(IdOwner(), other), rows)| <= Start(core)
    ensures Window(core, rows) == [] || |rows| == 1
  {
    WindowEmpty(core, rows);
    if |rows| > 1 {
      var other := if Id(rows[0]) == id then 1 else 0;
      assert Ids(rows)[0] != Ids(rows)[1];
      FilterMembers(Of(IdOwner(), Id(rows[other])), rows);
      assert rows[other] in rows;
    }
  }

  // ---------- windows on a many-to-many query ----------

  /** The targets of joined rows. */
  function Targets(pairs: seq<(int, Row)>): seq<Row> {
    Map((p: (int, Row)) => p.1, pairs)
  }

  function JoinedTo(source: int): ((int, Row)) -> bool {
    Of(JoinOwner(), source)
  }

  lemma TargetsMembers(pairs: seq<(int, Row)>, source: int)
    ensures forall r :: r in Targets(Filter(JoinedTo(source), pairs)) <==> (source, r) in pairs
  {
    var own := Filter(JoinedTo(source), pairs);
    FilterMembers(JoinedTo(source), pairs);
    forall r ensures r in Targets(own) <==> (source, r) in pairs {
      if r in Targets(own) {
        var k :| 0 <= k < |own| && Targets(own)[k] == r;
        assert own[k] in own && own[k] == (source, r);
      }
      if (source, r) in pairs {
        assert JoinedTo(source)((source, r));
        var k :| 0 <= k < |own| && own[k] == (source, r);
        assert Targets(own)[k] == r;
      }
    }
  }

  /** One source's pairs are told apart by their targets. */
  lemma TargetsDistinct(pairs: seq<(int, Row)>, source: int)
    requires Distinct(pairs)
    ensures Distinct(Targets(Filter(JoinedTo(source), pairs)))
  {
    var own := Filter(JoinedTo(source), pairs);
    FilterDistinct(JoinedTo(source), pairs);
    FilterMembers(JoinedTo(source), pairs);
    forall i, j | 0 <= i < j < |own| ensures Targets(own)[i] != Targets(own)[j] {
      assert own[i] in own && own[j] in own;
    }
  }

  lemma TargetsSorted(core: Core, pairs: seq<(int, Row)>)
    requires Sorted(PairKey(core), pairs)
    ensures Sorted(KeyOf(core), Targets(pairs))
  {
    forall i, j | 0 <= i < j < |pairs| ensures LexLeq(KeyOf(core)(Targets(pairs)[i]), KeyOf(core)(Targets(pairs)[j])) {
      assert LexLeq(PairKey(core)(pairs[i]), PairKey(core)(pairs[j]));
    }
  }

  /** Rows whose source is given are equal when their targets are. */
  lemma TargetsInjective(source: int, a: seq<(int, Row)>, b: seq<(int, Row)>)
    requires forall p :: p in a || p in b ==> p.0 == source
    requires Targets(a) == Targets(b)
    ensures a == b
  {
    assert |a| == |Targets(a)| == |b|;
    forall i | 0 <= i < |a| ensures a[i] == b[i] {
      assert a[i] in a && b[i] in b && Targets(a)[i] == a[i].1 && Targets(b)[i] == b[i].1;
    }
  }

  lemma WindowTargets(core: Core, pairs: seq<(int, Row)>)
    ensures Window(core, Targets(pairs)) == Targets(Window(core, pairs))
  {
    var from := Start(core);
    if from <= |pairs| { assert Targets(pairs)[from..] == Targets(pairs[from..]); }
  }

  lemma WindowSorted<T(!new)>(core: Core, key: T -> seq<int>, xs: seq<T>)
    requires Sorted(key, xs)
    ensures Sorted(key, Window(core, xs))
  {
  }

  lemma JoinedSorted(core: Core, e: Edge, db: DB, ids: seq<int>)
    ensures Sorted(PairKey(core), Joined(core, e, db, ids)) && Sorted(PairKey(core), WindowJoined(core, e, db, ids))
  {
    var pairs := RejoinAll(e, db.accountGroups, core.joins, Join(e, db.accountGroups, db.Rows(Target(e)), ids));
    SortSorted(PairKey(core), Filter(PairPasses(core), pairs));
    WindowSorted(core, PairKey(core), Joined(core, e, db, ids));
  }

  /** The joined rows are told apart, and ORDER BY tells their targets apart. */
  ghost predicate StrictlyJoined(core: Core, e: Edge, db: DB, ids: seq<int>) {
    Distinct(Joined(core, e, db, ids)) && StrictKeys(KeyOf(core), Targets(Joined(core, e, db, ids)))
  }

  /** Among rows of one source, in a part of the joined rows, ORDER BY tells the targets apart. */
  lemma StrictPart(core: Core, e: Edge, db: DB, ids: seq<int>, part: seq<Row>)
    requires StrictlyJoined(core, e, db, ids)
    requires forall r :: r in part ==> exists p :: p in Joined(core, e, db, ids) && p.1 == r
    ensures StrictKeys(KeyOf(core), part)
  {
    var all := Joined(core, e, db, ids);
    forall r | r in part ensures r in Targets(all) {
      var p :| p in all && p.1 == r;
      var k :| 0 <= k < |all| && all[k] == p;
      assert Targets(all)[k] == r;
    }
  }

  lemma SharedIffPaired(sub: Query, e: Edge, db: DB, batch: seq<Row>, row: Row)
    requires KindOf(e) == ManyToMany && ValidDB(db)
    ensures forall r :: r in Share(sub, e, db, batch, row) <==> (Id(row), r) in WindowJoined(sub.core, e, db, Ids(batch))
  {
    var joined := WindowJoined(sub.core, e, db, Ids(batch));
    FilterMembers(Takes(sub, e, db, batch, row), FirstRows(joined));
    FirstsInTable(sub.core, e, db, Ids(batch));
    JoinedMembers(sub.core, e, db, Ids(batch));
    WindowMembers(sub.core, Joined(sub.core, e, db, Ids(batch)));
    forall r ensures r in Share(sub, e, db, batch, row) <==> (Id(row), r) in joined {
      if r in Share(sub, e, db, batch, row) {
        assert NamedBy(joined, Id(row))(Id(r));
        var p :| p in joined && p.0 == Id(row) && Id(p.1) == Id(r);
        assert JoinedRow(sub.core, e, db, Ids(batch), p);
        SameTarget(e, db, p.1, r);
        assert p == (Id(row), r);
      }
      if (Id(row), r) in joined {
        assert JoinedRow(sub.core, e, db, Ids(batch), (Id(row), r));
        JoinedIsFirst(sub.core, e, db, Ids(batch), (Id(row), r));
        assert NamedBy(joined, Id(row))(Id(r));
      }
    }
  }

  /** A node's share of a many-to-many batch is its own part of the windowed joined rows. */
  lemma PairedShare(sub: Query, e: Edge, db: DB, batch: seq<Row>, row: Row)
    requires KindOf(e) == ManyToMany && ValidDB(db) && StrictlyJoined(sub.core, e, db, Ids(batch))
    ensures Share(sub, e, db, batch, row) ==
            Targets(Filter(JoinedTo(Id(row)), WindowJoined(sub.core, e, db, Ids(batch))))
  {
    var joined, share := WindowJoined(sub.core, e, db, Ids(batch)), Share(sub, e, db, batch, row);
    var own := Filter(JoinedTo(Id(row)), joined);
    SharedIffPaired(sub, e, db, batch, row);
    TargetsMembers(joined, Id(row));
    WindowDistinct(sub.core, Joined(sub.core, e, db, Ids(batch)));
    TargetsDistinct(joined, Id(row));
    ShareDistinct(sub, e, db, batch, row);
    JoinedSorted(sub.core, e, db, Ids(batch));
    FilterSorted(JoinedTo(Id(row)), PairKey(sub.core), joined);
    TargetsSorted(sub.core, own);
    FirstRowsSorted(sub.core, joined);
    FilterSorted(Takes(sub, e, db, batch, row), KeyOf(sub.core), FirstRows(joined));
    WindowMembers(sub.core, Joined(sub.core, e, db, Ids(batch)));
    StrictPart(sub.core, e, db, Ids(batch), share);
    SortedUnique(KeyOf(sub.core), share, Targets(own));
  }

  lemma FoundIffPaired(sub: Query, e: Edge, db: DB, batch: seq<Row>, row: Row)
    requires KindOf(e) == ManyToMany && sub.core.joins == [] && Id(row) in Ids(batch)
    ensures forall r :: r in Lookup(sub, e, db, row) <==> (Id(row), r) in Joined(sub.core, e, db, Ids(batch))
  {
    JoinedMembers(sub.core, e, db, Ids(batch));
    MatchingMembers(sub.core, LinkedTo(e, db, row), db.Rows(Target(e)));
    forall r ensures r in Lookup(sub, e, db, row) <==> (Id(row), r) in Joined(sub.core, e, db, Ids(batch)) {
      assert (Id(row), r) in Joined(sub.core, e, db, Ids(batch)) <==> JoinedRow(sub.core, e, db, Ids(batch), (Id(row), r));
      assert Linked(e, db, row, r) <==> exists j :: j in db.accountGroups && JoinRow(e, j, Id(row), Id(r));
    }
  }

  /** A node's own lookup is its part of all joined rows. */
  lemma PairedLookup(sub: Query, e: Edge, db: DB, batch: seq<Row>, row: Row)
    requires KindOf(e) == ManyToMany && ValidDB(db) && sub.core.joins == [] && Id(row) in Ids(batch)
    requires StrictlyJoined(sub.core, e, db, Ids(batch))
    ensures Lookup(sub, e, db, row) == Targets(Filter(JoinedTo(Id(row)), Joined(sub.core, e, db, Ids(batch))))
  {
    var t, all, found := Target(e), Joined(sub.core, e, db, Ids(batch)), Lookup(sub, e, db, row);
    var own := Filter(JoinedTo(Id(row)), all);
    FoundIffPaired(sub, e, db, batch, row);
    TargetsMembers(all, Id(row));
    TargetsDistinct(all, Id(row));
    assert ValidRows(t, db.Rows(t));
    MatchingDistinct(t, sub.core, LinkedTo(e, db, row), db.Rows(t));
    JoinedSorted(sub.core, e, db, Ids(batch));
    FilterSorted(JoinedTo(Id(row)), PairKey(sub.core), all);
    TargetsSorted(sub.core, own);
    SortSorted(KeyOf(sub.core), Filter(Passes(sub.core, LinkedTo(e, db, row)), db.Rows(t)));
    StrictPart(sub.core, e, db, Ids(batch), found);
    SortedUnique(KeyOf(sub.core), found, Targets(own));
  }

  /** A node gets the window of its own lookup exactly when cutting the joined rows cuts its own. */
  lemma PairedPerNode(sub: Query, e: Edge, db: DB, batch: seq<Row>, row: Row)
    requires KindOf(e) == ManyToMany && ValidDB(db) && sub.core.joins == [] && Id(row) in Ids(batch)
    requires StrictlyJoined(sub.core, e, db, Ids(batch))
    ensures var all, own := Joined(sub.core, e, db, Ids(batch)), JoinedTo(Id(row));
            Share(sub, e, db, batch, row) == Window(sub.core, Lookup(sub, e, db, row)) <==>
            Filter(own, Window(sub.core, all)) == Window(sub.core, Filter(own, all))
  {
    var all, own := Joined(sub.core, e, db, Ids(batch)), JoinedTo(Id(row));
    PairedShare(sub, e, db, batch, row);
    PairedLookup(sub, e, db, batch, row);
    WindowTargets(sub.core, Filter(own, all));
    FilterMembers(own, all);
    FilterMembers(own, Window(sub.core, all));
    WindowMembers(sub.core, Filter(own, all));
    if Targets(Filter(own, Window(sub.core, all))) == Targets(Window(sub.core, Filter(own, all))) {
      TargetsInjective(Id(row), Filter(own, Window(sub.core, all)), Window(sub.core, Filter(own, all)));
    }
  }

  /** The window of a many-to-many query counts joined rows: it is per node if and only if it fits
      them. */
  lemma NestedWindowJoined(sub: Query, e: Edge, db: DB, batch: seq<Row>)
    requires KindOf(e) == ManyToMany && ValidDB(db) && sub.core.joins == []
    requires StrictlyJoined(sub.core, e, db, Ids(batch))
    ensures PerNode(sub, e, db, batch) <==> WindowFits(sub.core, JoinOwner(), Joined(sub.core, e, db, Ids(batch)))
  {
    var all := Joined(sub.core, e, db, Ids(batch));
    WindowExact(sub.core, JoinOwner(), all);
    forall row | row in batch
      ensures Share(sub, e, db, batch, row) == Window(sub.core, Lookup(sub, e, db, row)) <==>
              Filter(JoinedTo(Id(row)), Window(sub.core, all)) == Window(sub.core, Filter(JoinedTo(Id(row)), all))
    {
      var i :| 0 <= i < |batch| && batch[i] == row;
      assert Ids(batch)[i] == Id(row);
      PairedPerNode(sub, e, db, batch, row);
    }
    if PerNode(sub, e, db, batch) {
      JoinedMembers(sub.core, e, db, Ids(batch));
      forall id ensures Filter(Of(JoinOwner(), id), Window(sub.core, all)) == Window(sub.core, Filter(Of(JoinOwner(), id), all)) {
        if id in Ids(batch) {
          var i :| 0 <= i < |batch| && Ids(batch)[i] == id;
          assert batch[i] in batch;
        } else {
          NobodysRows(sub.core, JoinOwner(), all, id);
        }
      }
    }
  }

  // ---------- a limit alone ----------

  /** Without an offset a window fits exactly when it cuts nothing off or there is only one owner. */
  lemma FitsWithoutOffset<T>(core: Core, owner: T -> Option<int>, xs: seq<T>)
    requires Start(core) == 0 && forall x | x in xs :: owner(x).Some?
    ensures WindowFits(core, owner, xs) <==> Window(core, xs) == xs || OneOwner(owner, xs)
  {
    WindowEmpty(core, xs);
    if xs != [] {
      assert xs[0] in xs && Reach(core, xs)[0] == xs[0];
      var a := owner(xs[0]).value;
      if OneOwner(owner, xs) {
        assert forall x | x in Reach(core, xs) :: x in xs;
        forall other | other != a ensures Filter(Of(owner, other), xs) == [] { FilterNone(Of(owner, other), xs); }
      }
      forall x | x in xs ensures x in Filter(Of(owner, owner(x).value), xs) {
        FilterMembers(Of(owner, owner(x).value), xs);
      }
    }
  }

  /** A limit on a nested to-many query is per node if and only if it cuts nothing off or all
      matching rows belong to one node. */
  lemma NestedLimitToMany(sub: Query, e: Edge, db: DB, batch: seq<Row>)
    requires KindOf(e) == ToMany && Distinct(BatchRows(sub, e, db, batch)) && sub.core.offset == None
    ensures var rows := BatchRows(sub, e, db, batch);
            PerNode(sub, e, db, batch) <==> Window(sub.core, rows) == rows || OneOwner(FkOwner(e), rows)
  {
    var rows := BatchRows(sub, e, db, batch);
    MatchingMembers(sub.core, InBatch(e, Ids(batch)), db.Rows(Target(e)));
    NestedWindowToMany(sub, e, db, batch);
    FitsWithoutOffset(sub.core, FkOwner(e), rows);
  }

  function Person(id: int, parent: Option<int>): (r: Row)
    ensures IntAt(r, "id") == Some(id) && IntAt(r, "parent_account_id") == parent
  {
    if parent == None then map["id" := Int(id)] else map["id" := Int(id), "parent_account_id" := Int(parent.value)]
  }

  function People(): seq<Row> {
    [Person(1, None), Person(2, None), Person(3, Some(1)), Person(4, Some(2))]
  }

  /** Two accounts with one child each. */
  function Families(): DB {
    DB(People(), [], [], [], [])
  }

  lemma FamiliesValid()
    ensures ValidDB(Families())
  {
    assert Ids(People()) == [1, 2, 3, 4];
    forall t ensures ValidRows(t, Families().Rows(t)) {
      if t == Accounts { PeopleValid(); }
    }
  }

  lemma PeopleValid()
    ensures ValidRows(Accounts, People())
  {
    assert Ids(People()) == [1, 2, 3, 4];
    forall e | e in EdgesOf(Accounts) && KindOf(e) == ToOne ensures FkNullable(e) {}
  }

  /** On that database a limit of one child, asked for with two accounts, is not per account. */
  lemma NestedLimitCanStarve(sub: Query)
    requires sub.core.limit == Some(1) && sub.core.offset == None && sub.core.preds == []
    ensures !PerNode(sub, AccountToChildren, Families(), People()[..2])
  {
    var e, db, batch := AccountToChildren, Families(), People()[..2];
    PeopleValid();
    MatchingDistinct(Accounts, sub.core, InBatch(e, Ids(batch)), People());
    MatchingMembers(sub.core, InBatch(e, Ids(batch)), People());
    assert Ids(batch)[0] == 1 && Ids(batch)[1] == 2;
    LimitOneStarves(sub, e, db, batch, People()[2], People()[3]);
  }

  /** A limit of one never is per node when two nodes have a row. */
  lemma LimitOneStarves(sub: Query, e: Edge, db: DB, batch: seq<Row>, a: Row, b: Row)
    requires KindOf(e) == ToMany && Distinct(BatchRows(sub, e, db, batch))
    requires sub.core.limit == Some(1) && sub.core.offset == None
    requires a in BatchRows(sub, e, db, batch) && b in BatchRows(sub, e, db, batch) && FkOwner(e)(a) != FkOwner(e)(b)
    ensures !PerNode(sub, e, db, batch)
  {
    NestedLimitToMany(sub, e, db, batch);
  }

  // ---------- what the loaded edges say ----------

  lemma JoinedSlotIds(sub: Query, e: Edge, db: DB, row: Row, slot: seq<Entity>, region: set<Entity>)
    requires ValidDB(db) && KindOf(e) == ManyToMany && EdgeMatches(sub, e, db, row, slot, region)
    ensures var found := Lookup(sub, e, db, row);
            && (forall id :: id in NodeIds(slot) ==> id in Ids(found))
            && (forall id :: id in Ids(found) ==> id in NodeIds(slot))
  {
    var t, found := Target(e), Lookup(sub, e, db, row);
    assert ValidRows(t, db.Rows(t));
    MatchingDistinct(t, sub.core, LinkedTo(e, db, row), db.Rows(t));
    forall id | id in NodeIds(slot) ensures id in Ids(found) {
      var j :| 0 <= j < |slot| && NodeIds(slot)[j] == id;
      assert slot[j] in slot;
      var r :| r in found && Matches(t, sub, Some(e), db, r, slot[j], region);
      NodeRowKeys(t, sub, Some(e), r);
      var k :| 0 <= k < |found| && found[k] == r;
      assert Ids(found)[k] == id;
    }
    Pigeonhole(NodeIds(slot), Ids(found));
  }

  lemma ListedSlotIds(sub: Query, e: Edge, db: DB, row: Row, slot: seq<Entity>, region: set<Entity>)
    requires HasId(Target(e)) && KindOf(e) != ManyToMany && EdgeMatches(sub, e, db, row, slot, region)
    ensures NodeIds(slot) == Ids(Lookup(sub, e, db, row))
  {
    var found := Lookup(sub, e, db, row);
    forall j | 0 <= j < |slot| ensures NodeIds(slot)[j] == Ids(found)[j] {
      assert Matches(Target(e), sub, Some(e), db, found[j], slot[j], region);
      NodeRowKeys(Target(e), sub, Some(e), found[j]);
    }
  }

  lemma IdSets(slot: seq<Entity>, found: seq<Row>)
    requires forall id :: id in NodeIds(slot) ==> id in Ids(found)
    requires forall id :: id in Ids(found) ==> id in NodeIds(slot)
    ensures (set n | n in slot :: Id(n.row)) == set r | r in found :: Id(r)
  {
    forall n | n in slot ensures exists r :: r in found && Id(r) == Id(n.row) {
      var j :| 0 <= j < |slot| && slot[j] == n;
      assert NodeIds(slot)[j] in Ids(found);
      var k :| 0 <= k < |found| && Ids(found)[k] == Id(n.row);
      assert found[k] in found;
    }
    forall r | r in found ensures exists n :: n in slot && Id(n.row) == Id(r) {
      var k :| 0 <= k < |found| && found[k] == r;
      assert Ids(found)[k] in NodeIds(slot);
      var j :| 0 <= j < |slot| && NodeIds(slot)[j] == Id(r);
      assert slot[j] in slot;
    }
  }

  /** The ids in a slot are the ids a lookup finds. */
  lemma SlotIds(sub: Query, e: Edge, db: DB, row: Row, slot: seq<Entity>, region: set<Entity>)
    requires ValidDB(db) && HasId(Target(e)) && EdgeMatches(sub, e, db, row, slot, region)
    ensures (set n | n in slot :: Id(n.row)) == set r | r in Lookup(sub, e, db, row) :: Id(r)
  {
    if KindOf(e) == ManyToMany {
      JoinedSlotIds(sub, e, db, row, slot, region);
    } else {
      ListedSlotIds(sub, e, db, row, slot, region);
    }
    IdSets(slot, Lookup(sub, e, db, row));
  }

  /** An accessor reports an edge as not loaded exactly when it was not requested, and a to-one
      edge as not found exactly when the row's lookup is empty. */
  lemma AccessorsReport(t: Table, q: Query, via: Option<Edge>, db: DB, row: Row, n: Entity, region: set<Entity>, e: Edge)
    requires Matches(t, q, via, db, row, n, region) && e in EdgesOf(t)
    ensures n.EdgeOrErr(e) == NotLoaded <==> e !in q.with
    ensures n.EdgeOrErr(e) == NotFound <==> e in q.with && KindOf(e) == ToOne && Lookup(q.with[e], e, db, row) == []
    ensures e in q.with && (KindOf(e) != ToOne || Lookup(q.with[e], e, db, row) != []) ==> n.EdgeOrErr(e) == Loaded(n.Slot(e))
  {
    assert e in q.with ==> EdgeMatches(q.with[e], e, db, row, n.Slot(e), region);
  }

  /** Selecting fields on a query changes no edge: with any two field lists, the same row gets
      the same neighbours. */
  lemma SelectKeepsEdges(t: Table, q: Query, fields: seq<string>, via: Option<Edge>, db: DB, row: Row,
                         n: Entity, n': Entity, region: set<Entity>, region': set<Entity>, e: Edge)
    requires ValidDB(db) && e in EdgesOf(t) && e in q.with
    requires Matches(t, q, via, db, row, n, region)
    requires Matches(t, q.(core := q.core.(fields := fields)), via, db, row, n', region')
    ensures HasId(Target(e)) ==> (set x | x in n.Slot(e) :: Id(x.row)) == set x | x in n'.Slot(e) :: Id(x.row)
    ensures KindOf(e) != ManyToMany ==>
              |n.Slot(e)| == |n'.Slot(e)| && forall j :: 0 <= j < |n.Slot(e)| ==> n.Slot(e)[j].row == n'.Slot(e)[j].row
  {
    if HasId(Target(e)) {
      SlotIds(q.with[e], e, db, row, n.Slot(e), region);
      SlotIds(q.with[e], e, db, row, n'.Slot(e), region');
    }
    if KindOf(e) != ManyToMany {
      var found := Lookup(q.with[e], e, db, row);
      assert |n.Slot(e)| == |found| == |n'.Slot(e)|;
      forall j | 0 <= j < |found| ensures n.Slot(e)[j].row == n'.Slot(e)[j].row {
        assert Matches(Target(e), q.with[e], Some(e), db, found[j], n.Slot(e)[j], region);
        assert Matches(Target(e), q.with[e], Some(e), db, found[j], n'.Slot(e)[j], region');
      }
    }
  }

  /** The groups reached through a join-table row that names the account. */
  ghost function JoinedGroups(db: DB, row: Row): set<int> {
    set j, g | j in db.accountGroups && g in db.groups
               && JoinRow(AccountToGroups, j, Id(row), Id(g)) :: Id(g)
  }

  lemma DirectRoute(sub: Query, db: DB, row: Row, slot: seq<Entity>, region: set<Entity>)
    requires ValidDB(db) && sub.core.preds == [] && EdgeMatches(sub, AccountToGroups, db, row, slot, region)
    ensures (set g | g in slot :: Id(g.row)) == JoinedGroups(db, row)
  {
    var found := Lookup(sub, AccountToGroups, db, row);
    SlotIds(sub, AccountToGroups, db, row, slot, region);
    MatchingMembers(sub.core, LinkedTo(AccountToGroups, db, row), db.groups);
    forall id ensures id in JoinedGroups(db, row) <==> id in set g | g in found :: Id(g) {
      if id in JoinedGroups(db, row) {
        var j, g :| j in db.accountGroups && g in db.groups && JoinRow(AccountToGroups, j, Id(row), Id(g)) && Id(g) == id;
        assert Linked(AccountToGroups, db, row, g);
        assert g in found;
      }
      if g :| g in found && Id(g) == id {
        var j :| j in db.accountGroups && IntAt(j, FkColumn(AccountToGroups)) == Some(Id(row))
                 && IntAt(j, JoinTargetColumn(AccountToGroups)) == Some(Id(g));
        assert JoinRow(AccountToGroups, j, Id(row), Id(g));
      }
    }
  }

  ghost function SlotGroups(j: Entity): set<int>
    reads j
  {
    set g | g in j.Slot(AccountGroupToGroup) :: Id(g.row)
  }

  ghost function RowGroups(db: DB, join: Row): set<int> {
    set g | g in db.groups && Fk(AccountGroupToGroup, join) == Some(Id(g)) :: Id(g)
  }

  /** One join entity leads to the groups its row names. */
  lemma JoinEntityGroups(sub: Query, db: DB, join: Row, j: Entity, region: set<Entity>)
    requires ValidDB(db) && AccountGroupToGroup in sub.with && sub.with[AccountGroupToGroup].core.preds == []
    requires Matches(AccountGroups, sub, Some(AccountToAccountGroups), db, join, j, region)
    ensures SlotGroups(j) == RowGroups(db, join)
  {
    var group, slot := sub.with[AccountGroupToGroup], j.Slot(AccountGroupToGroup);
    assert AccountGroupToGroup in EdgesOf(AccountGroups);
    assert EdgeMatches(group, AccountGroupToGroup, db, join, slot, region);
    SlotIds(group, AccountGroupToGroup, db, join, slot, region);
    MatchingMembers(group.core, LinkedTo(AccountGroupToGroup, db, join), db.groups);
  }

  /** The rows behind an account's join entities, taken together, name its joined groups. */
  lemma RowsNameGroups(db: DB, row: Row, found: seq<Row>)
    requires ValidDB(db)
    requires forall r :: r in found <==> r in db.accountGroups && IntAt(r, "account_id") == Some(Id(row))
    ensures forall id :: id in JoinedGroups(db, row) <==> exists k :: 0 <= k < |found| && id in RowGroups(db, found[k])
  {
    assert ValidRows(AccountGroups, db.Rows(AccountGroups)) && AccountGroupToGroup in EdgesOf(AccountGroups);
    forall id ensures id in JoinedGroups(db, row) <==> exists k :: 0 <= k < |found| && id in RowGroups(db, found[k]) {
      if id in JoinedGroups(db, row) {
        var j, g :| j in db.accountGroups && g in db.groups && JoinRow(AccountToGroups, j, Id(row), Id(g)) && Id(g) == id;
        var k :| 0 <= k < |found| && found[k] == j;
        assert id in RowGroups(db, found[k]);
      }
      if k :| 0 <= k < |found| && id in RowGroups(db, found[k]) {
        var g :| g in db.groups && Fk(AccountGroupToGroup, found[k]) == Some(Id(g)) && Id(g) == id;
        assert found[k] in found;
        assert JoinRow(AccountToGroups, found[k], Id(row), Id(g));
      }
    }
  }

  lemma IndirectRoute(sub: Query, db: DB, row: Row, slot: seq<Entity>, region: set<Entity>)
    requires ValidDB(db) && sub.core.preds == []
    requires AccountGroupToGroup in sub.with && sub.with[AccountGroupToGroup].core.preds == []
    requires EdgeMatches(sub, AccountToAccountGroups, db, row, slot, region)
    ensures forall id :: id in JoinedGroups(db, row) <==> exists j | j in slot :: id in SlotGroups(j)
  {
    var found := Lookup(sub, AccountToAccountGroups, db, row);
    MatchingMembers(sub.core, LinkedTo(AccountToAccountGroups, db, row), db.accountGroups);
    RowsNameGroups(db, row, found);
    forall k | 0 <= k < |slot| ensures SlotGroups(slot[k]) == RowGroups(db, found[k]) && slot[k] in slot {
      JoinEntityGroups(sub, db, found[k], slot[k], region);
    }
    forall id ensures id in JoinedGroups(db, row) <==> exists j | j in slot :: id in SlotGroups(j) {
      if j :| j in slot && id in SlotGroups(j) {
        var k :| 0 <= k < |slot| && slot[k] == j;
      }
    }
  }

  /** Both routes from an account to its groups, the direct edge and the join entity followed by
      its group, reach the same groups. */
  lemma TwoRoutesAgree(q: Query, via: Option<Edge>, db: DB, row: Row, n: Entity, region: set<Entity>)
    requires ValidDB(db) && Matches(Accounts, q, via, db, row, n, region)
    requires AccountToGroups in q.with && q.with[AccountToGroups].core.preds == []
    requires AccountToAccountGroups in q.with && q.with[AccountToAccountGroups].core.preds == []
    requires AccountGroupToGroup in q.with[AccountToAccountGroups].with
    requires q.with[AccountToAccountGroups].with[AccountGroupToGroup].core.preds == []
    ensures (set g | g in n.Slot(AccountToGroups) :: Id(g.row)) ==
            set j, id | j in n.Slot(AccountToAccountGroups) && id in SlotGroups(j) :: id
  {
    assert AccountToGroups in EdgesOf(Accounts) && AccountToAccountGroups in EdgesOf(Accounts);
    DirectRoute(q.with[AccountToGroups], db, row, n.Slot(AccountToGroups), region);
    IndirectRoute(q.with[AccountToAccountGroups], db, row, n.Slot(AccountToAccountGroups), region);
    var indirect := set j, id | j in n.Slot(AccountToAccountGroups) && id in SlotGroups(j) :: id;
    assert forall id :: id in indirect <==> id in JoinedGroups(db, row);
  }

  // ---------- many-to-many: the slot a node ends with ----------

  /** Whatever joined rows come back, with whatever duplicates, and in whatever order the recorded
      sources are visited: a node ends with the targets joined to it, each once, in the order in
      which the batch first mentions them. */
  lemma JoinedSlotExact(nodes: seq<Entity>, node: Entity, byId: map<int, Entity>, rows: seq<(int, Row)>,
                        wanted: map<int, set<Entity>>, neighbors: seq<Entity>)
    requires IndexesById(nodes, byId) && node in nodes && Records(byId, rows, wanted)
    requires NodeIds(neighbors) == Ids(FirstRows(rows))
    ensures NodeIds(WantedBy(node, wanted, neighbors)) == Filter(NamedBy(rows, Id(node.row)), Ids(FirstRows(rows)))
    ensures Distinct(NodeIds(WantedBy(node, wanted, neighbors)))
  {
    var ids, named := Ids(FirstRows(rows)), NamedBy(rows, Id(node.row));
    var wants := (n: Entity) => Id(n.row) in wanted && node in wanted[Id(n.row)];
    forall k | 0 <= k < |neighbors| ensures wants(neighbors[k]) == named(ids[k]) {
      assert NodeIds(neighbors)[k] == ids[k] && ids[k] in wanted;
      WantedIffNamed(nodes, node, byId, rows, wanted, ids[k]);
    }
    FirstRowsMembers(rows);
    FilterTogether(wants, neighbors, named, ids);
    var slot := WantedBy(node, wanted, neighbors);
    forall j | 0 <= j < |slot| ensures NodeIds(slot)[j] == Filter(named, ids)[j] {
      var k :| 0 <= k < |neighbors| && slot[j] == neighbors[k] && Filter(named, ids)[j] == ids[k];
      assert NodeIds(neighbors)[k] == ids[k];
    }
    FilterDistinct(named, ids);
  }

  /** The distinct targets come in order of first appearance: reading further rows only adds at
      the end. */
  lemma {:induction false} FirstAppearance(rows: seq<(int, Row)>, k: nat)
    requires k <= |rows|
    ensures FirstRows(rows[..k]) <= FirstRows(rows)
    ensures forall id :: id in Ids(FirstRows(rows[..k])) <==> exists r :: r in rows[..k] && Id(r.1) == id
  {
    if k < |rows| {
      FirstAppearance(rows[..|rows| - 1], k);
      assert rows[..|rows| - 1][..k] == rows[..k];
      FirstRowsStep(rows, |rows| - 1);
      assert rows[..|rows|] == rows;
      FirstRowsMembers(rows[..k]);
    } else {
      assert rows[..k] == rows;
      FirstRowsMembers(rows);
      forall id | id in Ids(FirstRows(rows)) ensures exists r :: r in rows && Id(r.1) == id {
        var i :| 0 <= i < |FirstRows(rows)| && Ids(FirstRows(rows))[i] == id;
        assert FirstRows(rows)[i] in FirstRows(rows);
      }
    }
  }

  // ---------- running the same builder again ----------

  lemma {:induction false} HoldsSnoc(preds: seq<Row -> bool>, p: Row -> bool, r: Row)
    ensures Holds(preds + [p], r) <==> Holds(preds, r) && p(r)
  {
    if preds == [] {
      assert [p][1..] == [] && preds + [p] == [p];
    } else {
      assert (preds + [p])[1..] == preds[1..] + [p];
      HoldsSnoc(preds[1..], p, r);
    }
  }

  predicate KeyIn(r: Row, column: string, ids: seq<int>) {
    column in r && r[column].Int? && r[column].n in ids
  }

  /** The column whose value a keyed load restricts. */
  function RestrictedColumn(e: Edge): string {
    match e
    case AccountToProxy | AccountToParent | AccountGroupToAccount | AccountGroupToGroup => "id"
    case AccountToChildren => "parent_account_id"
    case AccountToUsageLogs | AccountToAccountGroups => "account_id"
    case GroupToAccountGroups => "group_id"
    case AccountToGroups | GroupToAccounts => ""
  }

  /** What a load leaves on the settings of its query. A keyed load: one more predicate, on the id of
      a to-one neighbour or on the key of a to-many one; and a to-many load adds that key to the
      selected columns, if any are selected. A many-to-many load: the batch of its join. No other
      setting changes. */
  lemma LeftSettings(core: Core, e: Edge, ids: seq<int>, r: Row)
    requires IntAt(r, "id").Some?
    ensures var left, column := Asked(core, e, ids), RestrictedColumn(e);
            && left == core.(fields := left.fields, preds := left.preds, joins := left.joins)
            && if e.AccountToGroups? || e.GroupToAccounts? then
                 left == core.(joins := core.joins + [ids])
               else
                 && left.joins == core.joins
                 && (PassesAll(left.preds, r) <==> PassesAll(core.preds, r) && KeyIn(r, column, ids))
                 && (core.fields == [] || column == "id" ==> left.fields == core.fields)
                 && (core.fields != [] && column != "id" ==>
                       forall c :: c in left.fields <==> c in core.fields || c == column)
  {
    HoldsMeans(core.preds, r);
    HoldsMeans(Asked(core, e, ids).preds, r);
    if KindOf(e) != ManyToMany { HoldsSnoc(core.preds, InBatch(e, ids), r); }
  }

  /** The condition that a keyed load leaves on its query filters what the query matches later. */
  lemma RerunNarrows(core: Core, e: Edge, first: seq<int>, where: Row -> bool, rows: seq<Row>)
    requires KindOf(e) != ManyToMany
    ensures Matching(Asked(core, e, first), where, rows) == Filter(InBatch(e, first), Matching(core, where, rows))
  {
    var left, kept := Asked(core, e, first), InBatch(e, first);
    forall r | r in rows ensures Passes(left, where)(r) == (Passes(core, where)(r) && kept(r)) {
      HoldsSnoc(core.preds, kept, r);
    }
    FilterTwice(kept, Passes(core, where), Passes(left, where), rows);
    FilterSort(kept, KeyOf(core), Filter(Passes(core, where), rows));
    SortCongruent(KeyOf(core), KeyOf(left), Filter(Passes(left, where), rows));
  }

  /** The edge's query as a run over a first batch leaves it behind. */
  function Left(q: Query, e: Edge, db: DB, first: seq<Row>): Query
    requires e in q.with
  {
    After(q, db, first).with[e]
  }

  lemma LeftBehind(q: Query, e: Edge, db: DB, first: seq<Row>)
    requires e in q.with
    ensures first == [] || !Runs(e, first) ==> Left(q, e, db, first) == q.with[e]
    ensures first != [] && Runs(e, first) ==>
              Left(q, e, db, first) ==
              Query(Asked(q.with[e].core, e, BatchIds(e, first)), After(q.with[e], db, Fetched(q.with[e], e, db, first)).with)
  {
    assert first != [] ==> Left(q, e, db, first) == AfterEdge(q.with[e], e, db, first);
  }

  /** The rows that a second batch needs, up to the end of the query's window. */
  function Needed(sub: Query, e: Edge, db: DB, again: seq<Row>): seq<Row> {
    Reach(sub.core, BatchRows(sub, e, db, again))
  }

  /** Running a builder a second time, on whatever the database holds by then, loads over a keyed
      edge what a fresh builder would if and only if the first run left no condition behind, having
      had no rows or no keys, or every row that the second batch needs satisfies it. */
  lemma RerunExact(q: Query, e: Edge, db: DB, first: seq<Row>, later: DB, again: seq<Row>)
    requires e in q.with && KindOf(e) != ManyToMany
    requires NoWindow(q.with[e].core) || Distinct(BatchRows(q.with[e], e, later, again))
    ensures Fetched(Left(q, e, db, first), e, later, again) == Fetched(q.with[e], e, later, again) <==>
            first == [] || !Runs(e, first)
            || forall r | r in Needed(q.with[e], e, later, again) :: InBatch(e, BatchIds(e, first))(r)
  {
    LeftBehind(q, e, db, first);
    if first != [] && Runs(e, first) {
      var core, ids := q.with[e].core, BatchIds(e, first);
      RerunNarrows(core, e, ids, InBatch(e, BatchIds(e, again)), later.Rows(Target(e)));
      SameWindow(core, Asked(core, e, ids), Filter(InBatch(e, ids), BatchRows(q.with[e], e, later, again)));
      FilterWindowExact(core, InBatch(e, ids), BatchRows(q.with[e], e, later, again));
    }
  }

  lemma SameWindow<T>(core: Core, other: Core, xs: seq<T>)
    requires core.limit == other.limit && core.offset == other.offset
    ensures Window(core, xs) == Window(other, xs)
  {
  }

  lemma SameBatchMatches(core: Core, e: Edge, ids: seq<int>, rows: seq<Row>)
    requires KindOf(e) != ManyToMany
    ensures Matching(Asked(core, e, ids), InBatch(e, ids), rows) == Matching(core, InBatch(e, ids), rows)
  {
    RerunNarrows(core, e, ids, InBatch(e, ids), rows);
    MatchingMembers(core, InBatch(e, ids), rows);
    FilterAll(InBatch(e, ids), Matching(core, InBatch(e, ids), rows));
  }

  /** The first batch is always within reach of its own condition, whatever the window. */
  lemma RerunSameBatch(q: Query, e: Edge, db: DB, batch: seq<Row>)
    requires e in q.with && KindOf(e) != ManyToMany
    ensures Fetched(Left(q, e, db, batch), e, db, batch) == Fetched(q.with[e], e, db, batch)
  {
    LeftBehind(q, e, db, batch);
    SameBatchMatches(q.with[e].core, e, BatchIds(e, batch), db.Rows(Target(e)));
  }

  /** Every requested edge of the tree is a keyed one. */
  ghost predicate KeyedOnly(q: Query)
    decreases q
  {
    forall e | e in q.with :: KindOf(e) != ManyToMany && KeyedOnly(q.with[e])
  }

  lemma {:induction false} SameKeyColumns(columns: seq<string>, edges: seq<Edge>, with: map<Edge, Query>, other: map<Edge, Query>)
    requires with.Keys == other.Keys
    ensures AddFkColumns(columns, edges, with) == AddFkColumns(columns, edges, other)
    decreases |edges|
  {
    if edges != [] {
      var e := edges[0];
      SameKeyColumns(if KindOf(e) == ToOne && e in with then AddOnce(columns, FkColumn(e)) else columns, edges[1..], with, other);
    }
  }

  lemma SameNodeRow(t: Table, q: Query, left: Query, via: Option<Edge>, row: Row)
    requires left.with.Keys == q.with.Keys && EffectiveFields(left.core, via) == EffectiveFields(q.core, via)
    ensures NodeRow(t, left, via, row) == NodeRow(t, q, via, row)
  {
    var fields := EffectiveFields(q.core, via);
    SameKeyColumns(if HasId(t) then ["id"] + Filter(OtherThanId(), fields) else fields, EdgesOf(t), q.with, left.with);
  }

  /** What the first run leaves on a keyed edge, for the same rows once more. */
  lemma LeftOnEdge(q: Query, e: Edge, db: DB, batch: seq<Row>)
    requires e in q.with && KindOf(e) != ManyToMany && batch != [] && Runs(e, batch)
    ensures var sub, left := q.with[e], Left(q, e, db, batch);
            && left.with == After(sub, db, Fetched(sub, e, db, batch)).with
            && left.core.fails == sub.core.fails
            && EffectiveFields(left.core, Some(e)) == EffectiveFields(sub.core, Some(e))
            && Fetched(left, e, db, batch) == Fetched(sub, e, db, batch)
  {
    LeftBehind(q, e, db, batch);
    RerunSameBatch(q, e, db, batch);
  }

  /** Running a builder of keyed edges again over the same rows, under any windows, shows every row
      by the same images as the first run. */
  lemma {:induction false} RunTwiceShows(t: Table, q: Query, left: Query, via: Option<Edge>, db: DB, batch: seq<Row>,
                                         row: Row, n: Entity, region: set<Entity>)
    requires KeyedOnly(q) && left.with == After(q, db, batch).with
    requires EffectiveFields(left.core, via) == EffectiveFields(q.core, via)
    ensures Shows(t, left, via, db, batch, row, n, region) <==> Shows(t, q, via, db, batch, row, n, region)
    decreases q, 0
  {
    forall e | e in q.with
      ensures EdgeShows(left.with[e], e, db, batch, row, n.Slot(e), region) <==> EdgeShows(q.with[e], e, db, batch, row, n.Slot(e), region)
    {
      RunTwiceEdge(q, left.with[e], e, db, batch, row, n.Slot(e), region);
    }
    SameNodeRow(t, q, left, via, row);
    if Shows(t, q, via, db, batch, row, n, region) {
      SameEdgesShow(t, q, left, via, db, batch, row, n, region);
    }
    if Shows(t, left, via, db, batch, row, n, region) {
      SameEdgesShow(t, left, q, via, db, batch, row, n, region);
    }
  }

  lemma SameEdgesShow(t: Table, q: Query, other: Query, via: Option<Edge>, db: DB, batch: seq<Row>,
                      row: Row, n: Entity, region: set<Entity>)
    requires Shows(t, q, via, db, batch, row, n, region)
    requires NodeRow(t, other, via, row) == NodeRow(t, q, via, row) && q.with.Keys == other.with.Keys
    requires forall e | e in q.with :: EdgeShows(q.with[e], e, db, batch, row, n.Slot(e), region) ==>
               EdgeShows(other.with[e], e, db, batch, row, n.Slot(e), region)
    ensures Shows(t, other, via, db, batch, row, n, region)
  {
  }

  lemma {:induction false} RunTwiceEdge(q: Query, left: Query, e: Edge, db: DB, batch: seq<Row>,
                                        row: Row, slot: seq<Entity>, region: set<Entity>)
    requires KeyedOnly(q) && e in q.with && left == Left(q, e, db, batch)
    ensures EdgeShows(left, e, db, batch, row, slot, region) <==> EdgeShows(q.with[e], e, db, batch, row, slot, region)
    decreases q.with[e], 1
  {
    var sub := q.with[e];
    var got, share := Fetched(sub, e, db, batch), Share(sub, e, db, batch, row);
    LeftBehind(q, e, db, batch);
    if batch != [] && Runs(e, batch) {
      LeftOnEdge(q, e, db, batch);
      assert Share(left, e, db, batch, row) == share;
      forall j | 0 <= j < |slot| && |slot| == |share|
        ensures Shows(Target(e), left, Some(e), db, got, share[j], slot[j], region) <==>
                Shows(Target(e), sub, Some(e), db, got, share[j], slot[j], region)
      {
        RunTwiceShows(Target(e), sub, left, Some(e), db, got, share[j], slot[j], region);
      }
    }
  }

  /** It also reaches a failing query exactly when the first run did. */
  lemma {:induction false} RunTwiceHits(q: Query, left: Query, db: DB, batch: seq<Row>)
    requires KeyedOnly(q) && left.with == After(q, db, batch).with
    ensures Hits(left, db, batch) <==> Hits(q, db, batch)
    decreases q
  {
    forall e | e in q.with ensures EdgeHits(left.with[e], e, db, batch) <==> EdgeHits(q.with[e], e, db, batch) {
      if batch != [] && Runs(e, batch) {
        LeftOnEdge(q, e, db, batch);
        RunTwiceHits(q.with[e], left.with[e], db, Fetched(q.with[e], e, db, batch));
      }
    }
  }

  lemma {:induction false} RejoinExact(e: Edge, joins: seq<Row>, batch: seq<int>, pairs: seq<(int, Row)>)
    ensures forall p :: p in Rejoin(e, joins, batch, pairs) <==> p in pairs && JoinCount(e, joins, batch, Id(p.1)) > 0
  {
    if pairs != [] {
      RejoinExact(e, joins, batch, pairs[1..]);
      var n := JoinCount(e, joins, batch, Id(pairs[0].1));
      if n > 0 { assert Copies(n, pairs[0])[0] == pairs[0]; }
    }
  }

  /** A row is linked to some source of the batch. */
  ghost predicate LinkedToAny(e: Edge, db: DB, ids: seq<int>, r: Row) {
    exists j :: j in db.accountGroups && JoinsTo(e, ids, Id(r))(j)
  }

  lemma CountsLinks(e: Edge, db: DB, ids: seq<int>, r: Row)
    ensures JoinCount(e, db.accountGroups, ids, Id(r)) > 0 <==> LinkedToAny(e, db, ids, r)
  {
    var joins := Filter(JoinsTo(e, ids, Id(r)), db.accountGroups);
    FilterMembers(JoinsTo(e, ids, Id(r)), db.accountGroups);
    if joins != [] { assert joins[0] in joins; }
  }

  /** The rows that a many-to-many query matches on its second run: those of a fresh run that are
      linked to the first batch as well. */
  lemma RejoinedMembers(core: Core, e: Edge, first: seq<int>, db: DB, again: seq<int>)
    requires core.joins == [] && KindOf(e) == ManyToMany
    ensures forall p :: p in Joined(Asked(core, e, first), e, db, again) <==>
              p in Joined(core, e, db, again) && LinkedToAny(e, db, first, p.1)
  {
    var left, all, joins := Asked(core, e, first), Join(e, db.accountGroups, db.Rows(Target(e)), again), db.accountGroups;
    var pairs := Rejoin(e, joins, first, all);
    assert RejoinAll(e, joins, left.joins, all) == pairs;
    RejoinExact(e, joins, first, all);
    FilterMembers(PairPasses(core), all);
    FilterMembers(PairPasses(left), pairs);
    SortMembers(PairKey(core), Filter(PairPasses(core), all));
    SortMembers(PairKey(left), Filter(PairPasses(left), pairs));
    forall p ensures p in Joined(left, e, db, again) <==> p in Joined(core, e, db, again) && LinkedToAny(e, db, first, p.1) {
      CountsLinks(e, db, first, p.1);
    }
  }

  /** Over a many-to-many edge the first run leaves its join behind unless it had no rows. A second
      run then never loads a row: it panics on its first joined row or finds none. Without an offset
      it panics if and only if a fresh run would find a row linked to the first batch too. */
  lemma RerunJoined(q: Query, e: Edge, db: DB, first: seq<Row>, later: DB, again: seq<Row>)
    requires e in q.with && KindOf(e) == ManyToMany && q.with[e].core.joins == []
    ensures first == [] ==> Left(q, e, db, first) == q.with[e]
    ensures first != [] ==>
              var left := Left(q, e, db, first);
              && (JoinsTwice(left, e, later, again) <==> Fetched(left, e, later, again) != [])
              && (Start(left.core) == 0 ==>
                    (JoinsTwice(left, e, later, again) <==>
                     exists p :: p in Joined(q.with[e].core, e, later, Ids(again)) && LinkedToAny(e, later, Ids(first), p.1)))
  {
    LeftBehind(q, e, db, first);
    if first != [] {
      var core, left := q.with[e].core, Left(q, e, db, first);
      var found := Joined(left.core, e, later, Ids(again));
      assert left.core == Asked(core, e, Ids(first));
      RejoinedMembers(core, e, Ids(first), later, Ids(again));
      FirstRowsMembers(WindowJoined(left.core, e, later, Ids(again)));
      WindowEmpty(left.core, found);
      SomeFirst(WindowJoined(left.core, e, later, Ids(again)));
      if found != [] { assert found[0] in found; }
    }
  }

  lemma SomeFirst(rows: seq<(int, Row)>)
    ensures FirstRows(rows) == [] <==> rows == []
  {
    FirstRowsMembers(rows);
    if rows != [] {
      assert rows[0] in rows;
      assert Id(rows[0].1) in Ids(FirstRows(rows));
    }
  }
}
