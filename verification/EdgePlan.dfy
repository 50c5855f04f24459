/** The edge changes a mutation collects, the Clear and Add edges an update emits for them, and
    what those do to the relations. */
module EdgePlan {
  import opened Prelude
  import opened Schema

  // ---------- sets and listings ----------

  function Members<T>(ids: seq<T>): set<T> { set x | x in ids }

  lemma MembersStep<T>(ids: seq<T>, i: nat)
    requires i < |ids|
    ensures Members(ids[..i + 1]) == Members(ids[..i]) + {ids[i]}
  {
    assert ids[..i + 1] == ids[..i] + [ids[i]];
  }

  /** The list names every member once. */
  ghost predicate Lists<T>(ids: seq<T>, s: set<T>) {
    Distinct(ids) && Members(ids) == s
  }

  lemma ListsNothing<T>(ids: seq<T>, s: set<T>)
    requires Lists(ids, s)
    ensures ids == [] <==> s == {}
  {
    if ids != [] { assert ids[0] in Members(ids); }
  }

  lemma LastOfSingle<T>(ids: seq<T>, s: set<T>)
    requires Members(ids) == s && |s| <= 1 && ids != []
    ensures s == {ids[|ids| - 1]}
  {
    var x := ids[|ids| - 1];
    assert x in Members(ids);
    assert |s - {x}| == |s| - 1;
  }

  /** Ranges over a set in an arbitrary order. */
  method Listing<T(==)>(s: set<T>) returns (ids: seq<T>)
    ensures Lists(ids, s)
  {
    ids := [];
    var todo := s;
    while todo != {}
      invariant todo <= s && Lists(ids, s - todo)
    {
      var x :| x in todo;
      assert x !in Members(ids);
      MembersStep(ids + [x], |ids|);
      assert (ids + [x])[..|ids|] == ids && (ids + [x])[..|ids| + 1] == ids + [x];
      ids := ids + [x];
      todo := todo - {x};
    }
  }

  /** The collected changes of one edge. */
  datatype Pending = Pending(added: set<int>, removed: set<int>, cleared: bool)

  const NO_CHANGE := Pending({}, {}, false)

  // ---------- the mutation ----------

  datatype Call = AddIds(ids: seq<int>) | RemoveIds(ids: seq<int>) | ClearAll | ResetAll

  /** What a call does to the collected changes: removing takes an id out of the added ones,
      while adding leaves the removed ones alone and clearing leaves both alone. */
  function Note(p: Pending, call: Call): Pending {
    match call
    case AddIds(ids) => p.(added := p.added + Members(ids))
    case RemoveIds(ids) => p.(added := p.added - Members(ids), removed := p.removed + Members(ids))
    case ClearAll => p.(cleared := true)
    case ResetAll => NO_CHANGE
  }

  /** The three fields that a mutation keeps for a to-many edge. */
  class ManyEdge {
    var added: set<int>
    var removed: set<int>
    var cleared: bool

    constructor ()
      ensures View() == NO_CHANGE
    {
      added, removed, cleared := {}, {}, false;
    }

    function View(): Pending
      reads this
    {
      Pending(added, removed, cleared)
    }

    method Add(ids: seq<int>)
      modifies this
      ensures View() == Note(old(View()), AddIds(ids))
    {
      for i := 0 to |ids|
        invariant View() == Note(old(View()), AddIds(ids[..i]))
      {
        MembersStep(ids, i);
        added := added + {ids[i]};
      }
      assert ids[..|ids|] == ids;
    }

    method Remove(ids: seq<int>)
      modifies this
      ensures View() == Note(old(View()), RemoveIds(ids))
    {
      for i := 0 to |ids|
        invariant View() == Note(old(View()), RemoveIds(ids[..i]))
      {
        MembersStep(ids, i);
        added := added - {ids[i]};
        removed := removed + {ids[i]};
      }
      assert ids[..|ids|] == ids;
    }

    method Clear()
      modifies this
      ensures View() == Note(old(View()), ClearAll)
    {
      cleared := true;
    }

    method Reset()
      modifies this
      ensures View() == Note(old(View()), ResetAll)
    {
      added, removed, cleared := {}, {}, false;
    }
  }

  datatype OneCall = SetId(id: int) | ClearEdge | ClearField | ResetEdge | ResetField

  datatype OneState = OneState(id: Option<int>, edgeCleared: bool, fieldCleared: bool)
  {
    function View(): Pending {
      Pending(if id.Some? then {id.value} else {}, {}, edgeCleared || fieldCleared)
    }
  }

  /** A to-one edge is reachable by its edge name and by its foreign key field. Clearing it by the
      field forgets an id that was set; clearing it by the edge does not. */
  function NoteOne(st: OneState, call: OneCall): OneState {
    match call
    case SetId(id) => st.(id := Some(id))
    case ClearEdge => st.(edgeCleared := true, fieldCleared := true)
    case ClearField => st.(id := None, fieldCleared := true)
    case ResetEdge => st.(id := None, edgeCleared := false)
    case ResetField => st.(id := None, fieldCleared := false)
  }

  class OneEdge {
    var id: Option<int>
    var edgeCleared: bool
    var fieldCleared: bool

    constructor ()
      ensures State() == OneState(None, false, false)
    {
      id, edgeCleared, fieldCleared := None, false, false;
    }

    function State(): OneState
      reads this
    {
      OneState(id, edgeCleared, fieldCleared)
    }

    method Set(id: int)
      modifies this
      ensures State() == NoteOne(old(State()), SetId(id))
    {
      this.id := Some(id);
    }

    method ClearByEdge()
      modifies this
      ensures State() == NoteOne(old(State()), ClearEdge)
    {
      edgeCleared := true;
      fieldCleared := true;
    }

    method ClearByField()
      modifies this
      ensures State() == NoteOne(old(State()), ClearField)
    {
      id := None;
      fieldCleared := true;
    }

    method ResetByEdge()
      modifies this
      ensures State() == NoteOne(old(State()), ResetEdge)
    {
      id := None;
      edgeCleared := false;
    }

    method ResetByField()
      modifies this
      ensures State() == NoteOne(old(State()), ResetField)
    {
      id := None;
      fieldCleared := false;
    }
  }

  class AccountMutation {
    const groups: ManyEdge
    const proxy: OneEdge
    const parent: OneEdge
    const children: ManyEdge
    const usageLogs: ManyEdge

    constructor ()
      ensures fresh({groups, children, usageLogs}) && fresh({proxy, parent})
      ensures groups != children && groups != usageLogs && children != usageLogs && proxy != parent
      ensures groups.View() == children.View() == usageLogs.View() == NO_CHANGE
      ensures proxy.State() == parent.State() == OneState(None, false, false)
      ensures forall e :: e in View() ==> View()[e] == NO_CHANGE
    {
      groups := new ManyEdge();
      proxy := new OneEdge();
      parent := new OneEdge();
      children := new ManyEdge();
      usageLogs := new ManyEdge();
    }

    ghost function View(): map<Edge, Pending>
      reads groups, proxy, parent, children, usageLogs
    {
      map[AccountToGroups := groups.View(), AccountToProxy := proxy.State().View(),
          AccountToParent := parent.State().View(), AccountToChildren := children.View(),
          AccountToUsageLogs := usageLogs.View()]
    }
  }

  // ---------- the plan ----------

  datatype EdgeSpec = EdgeSpec(edge: Edge, nodes: seq<int>)

  function OfEdge(e: Edge, specs: seq<EdgeSpec>): seq<EdgeSpec> {
    Filter((s: EdgeSpec) => s.edge == e, specs)
  }

  /** The Clear edges for one edge: clear-all, or one removal of at least one id, or none. */
  ghost predicate ClearSpecs(e: Edge, p: Pending, specs: seq<EdgeSpec>) {
    if p.cleared then specs == [EdgeSpec(e, [])]
    else if p.removed != {} then |specs| == 1 && specs[0].edge == e && specs[0].nodes != [] && Lists(specs[0].nodes, p.removed)
    else specs == []
  }

  ghost predicate AddSpecs(e: Edge, p: Pending, specs: seq<EdgeSpec>) {
    if p.added != {} then |specs| == 1 && specs[0].edge == e && Lists(specs[0].nodes, p.added)
    else specs == []
  }

  ghost predicate PlannedFor(view: map<Edge, Pending>, edges: seq<Edge>, clear: seq<EdgeSpec>, add: seq<EdgeSpec>)
    requires forall e :: e in edges ==> e in view
  {
    && (forall s :: s in clear || s in add ==> s.edge in edges)
    && forall e :: e in edges ==> ClearSpecs(e, view[e], OfEdge(e, clear)) && AddSpecs(e, view[e], OfEdge(e, add))
  }

  /** The plan of a whole mutation: for every edge its own Clear and Add edges and nothing else. */
  ghost predicate Planned(view: map<Edge, Pending>, clear: seq<EdgeSpec>, add: seq<EdgeSpec>) {
    && (forall s :: s in clear || s in add ==> s.edge in view)
    && forall e :: e in view ==> ClearSpecs(e, view[e], OfEdge(e, clear)) && AddSpecs(e, view[e], OfEdge(e, add))
  }

  lemma OfEdgeAppend(e: Edge, specs: seq<EdgeSpec>, more: seq<EdgeSpec>)
    ensures OfEdge(e, specs + more) == OfEdge(e, specs) + OfEdge(e, more)
  {
    FilterAppend((s: EdgeSpec) => s.edge == e, specs, more);
  }

  lemma OfEdgeOwn(e: Edge, specs: seq<EdgeSpec>)
    requires |specs| <= 1
    ensures OfEdge(e, specs) == if specs != [] && specs[0].edge == e then specs else []
  {
    if specs != [] { assert specs[1..] == [] && [specs[0]] == specs; }
  }

  lemma OfEdgeAbsent(e: Edge, specs: seq<EdgeSpec>)
    requires forall s | s in specs :: s.edge != e
    ensures OfEdge(e, specs) == []
  {
    FilterNone((s: EdgeSpec) => s.edge == e, specs);
  }

  /** Planning one more edge. */
  lemma PlanStep(view: map<Edge, Pending>, edges: seq<Edge>, e: Edge, clear: seq<EdgeSpec>, add: seq<EdgeSpec>,
                 c: seq<EdgeSpec>, a: seq<EdgeSpec>)
    requires e in view && e !in edges && (forall x :: x in edges ==> x in view) && PlannedFor(view, edges, clear, add)
    requires ClearSpecs(e, view[e], c) && AddSpecs(e, view[e], a)
    ensures PlannedFor(view, edges + [e], clear + c, add + a)
  {
    forall x | x in edges + [e]
      ensures ClearSpecs(x, view[x], OfEdge(x, clear + c)) && AddSpecs(x, view[x], OfEdge(x, add + a))
    {
      OfEdgeAppend(x, clear, c);
      OfEdgeAppend(x, add, a);
      OfEdgeOwn(x, c);
      OfEdgeOwn(x, a);
      if x == e {
        OfEdgeAbsent(e, clear);
        OfEdgeAbsent(e, add);
        assert [] + c == c && [] + a == a;
      } else {
        assert OfEdge(x, clear) + [] == OfEdge(x, clear) && OfEdge(x, add) + [] == OfEdge(x, add);
      }
    }
  }

  /** The edge lists of an update that is being built. */
  class UpdateSpec {
    var clear: seq<EdgeSpec>
    var add: seq<EdgeSpec>

    constructor ()
      ensures clear == [] && add == []
    {
      clear, add := [], [];
    }

    /** An edge that carries the given ids, collected one by one. */
    method Collect(e: Edge, ids: seq<int>) returns (edge: EdgeSpec)
      ensures edge == EdgeSpec(e, ids)
    {
      edge := EdgeSpec(e, []);
      for k := 0 to |ids|
        invariant edge == EdgeSpec(e, ids[..k])
      {
        assert ids[..k + 1] == ids[..k] + [ids[k]];
        edge := edge.(nodes := edge.nodes + [ids[k]]);
      }
      assert ids[..|ids|] == ids;
    }

    method PlanMany(e: Edge, m: ManyEdge, ghost view: map<Edge, Pending>, ghost done: seq<Edge>)
      requires e !in done && e in view && view[e] == m.View()
      requires (forall x :: x in done ==> x in view) && PlannedFor(view, done, clear, add)
      modifies this
      ensures PlannedFor(view, done + [e], clear, add)
    {
      ghost var c: seq<EdgeSpec>, a: seq<EdgeSpec> := [], [];
      if m.cleared {
        clear := clear + [EdgeSpec(e, [])];
        c := [EdgeSpec(e, [])];
      }
      var gone := Listing(m.removed);
      ListsNothing(gone, m.removed);
      if |gone| > 0 && !m.cleared {
        var edge := Collect(e, gone);
        clear := clear + [edge];
        c := [edge];
      }
      var ids := Listing(m.added);
      ListsNothing(ids, m.added);
      if |ids| > 0 {
        var edge := Collect(e, ids);
        add := add + [edge];
        a := [edge];
      }
      PlanStep(view, done, e, old(clear), old(add), c, a);
      assert clear == old(clear) + c && add == old(add) + a;
    }

    method PlanOne(e: Edge, m: OneEdge, ghost view: map<Edge, Pending>, ghost done: seq<Edge>)
      requires e !in done && e in view && view[e] == m.State().View()
      requires (forall x :: x in done ==> x in view) && PlannedFor(view, done, clear, add)
      modifies this
      ensures PlannedFor(view, done + [e], clear, add)
    {
      ghost var c: seq<EdgeSpec>, a: seq<EdgeSpec> := [], [];
      if m.fieldCleared || m.edgeCleared {
        clear := clear + [EdgeSpec(e, [])];
        c := [EdgeSpec(e, [])];
      }
      var ids := if m.id.Some? then [m.id.value] else [];
      if |ids| > 0 {
        SingleMember(m.id.value);
        var edge := Collect(e, ids);
        add := add + [edge];
        a := [edge];
      }
      PlanStep(view, done, e, old(clear), old(add), c, a);
      assert clear == old(clear) + c && add == old(add) + a;
    }

    /** The edge part of both sqlSave methods. */
    method PlanEdges(m: AccountMutation)
      requires clear == [] && add == []
      modifies this
      ensures Planned(m.View(), clear, add)
    {
      ghost var view := m.View();
      PlanMany(AccountToGroups, m.groups, view, []);
      PlanOne(AccountToProxy, m.proxy, view, [AccountToGroups]);
      PlanOne(AccountToParent, m.parent, view, [AccountToGroups, AccountToProxy]);
      PlanMany(AccountToChildren, m.children, view, [AccountToGroups, AccountToProxy, AccountToParent]);
      PlanMany(AccountToUsageLogs, m.usageLogs, view,
               [AccountToGroups, AccountToProxy, AccountToParent, AccountToChildren]);
    }
  }

  // ---------- what a plan does ----------

  /** Clear edges, in order: one without ids clears the relation. */
  function ApplyClear(specs: seq<EdgeSpec>, e: Edge, initial: set<int>): set<int> {
    if specs == [] then initial
    else
      var s := specs[0];
      ApplyClear(specs[1..], e, if s.edge != e then initial else if s.nodes == [] then {} else initial - Members(s.nodes))
  }

  /** Add edges, in order: on a to-one edge the new key replaces the old one. */
  function ApplyAdd(specs: seq<EdgeSpec>, e: Edge, initial: set<int>): set<int> {
    if specs == [] then initial
    else
      var s := specs[0];
      ApplyAdd(specs[1..], e, if s.edge != e || s.nodes == [] then initial
                              else if KindOf(e) == ToOne then {s.nodes[|s.nodes| - 1]} else initial + Members(s.nodes))
  }

  /** An update applies all Clear edges, then all Add edges. */
  function Apply(clear: seq<EdgeSpec>, add: seq<EdgeSpec>, e: Edge, initial: set<int>): set<int> {
    ApplyAdd(add, e, ApplyClear(clear, e, initial))
  }

  /** What the collected changes ask for. */
  function Wish(e: Edge, p: Pending, initial: set<int>): set<int> {
    var kept := if p.cleared then {} else initial - p.removed;
    if KindOf(e) == ToOne && p.added != {} then p.added else kept + p.added
  }

  lemma {:induction false} ApplyClearOwn(specs: seq<EdgeSpec>, e: Edge, initial: set<int>)
    ensures ApplyClear(specs, e, initial) == ApplyClear(OfEdge(e, specs), e, initial)
  {
    if specs != [] {
      var s, rest := specs[0], OfEdge(e, specs[1..]);
      assert ([s] + rest)[1..] == rest;
      ApplyClearOwn(specs[1..], e, if s.edge != e then initial else if s.nodes == [] then {} else initial - Members(s.nodes));
    }
  }

  lemma {:induction false} ApplyAddOwn(specs: seq<EdgeSpec>, e: Edge, initial: set<int>)
    ensures ApplyAdd(specs, e, initial) == ApplyAdd(OfEdge(e, specs), e, initial)
  {
    if specs != [] {
      var s, rest := specs[0], OfEdge(e, specs[1..]);
      assert ([s] + rest)[1..] == rest;
      ApplyAddOwn(specs[1..], e, if s.edge != e || s.nodes == [] then initial
                                 else if KindOf(e) == ToOne then {s.nodes[|s.nodes| - 1]} else initial + Members(s.nodes));
    }
  }

  /** A to-one edge has at most one new key. */
  ghost predicate Sensible(view: map<Edge, Pending>) {
    forall e :: e in view && KindOf(e) == ToOne ==> |view[e].added| <= 1
  }

  lemma MutationIsSensible(m: AccountMutation)
    ensures Sensible(m.View())
  {
  }

  lemma ClearsMeet(e: Edge, p: Pending, specs: seq<EdgeSpec>, initial: set<int>)
    requires ClearSpecs(e, p, specs)
    ensures ApplyClear(specs, e, initial) == if p.cleared then {} else initial - p.removed
  {
    if specs != [] {
      assert specs[1..] == [];
    }
  }

  lemma AddsMeet(e: Edge, p: Pending, specs: seq<EdgeSpec>, kept: set<int>)
    requires AddSpecs(e, p, specs) && (KindOf(e) == ToOne ==> |p.added| <= 1)
    ensures ApplyAdd(specs, e, kept) == if KindOf(e) == ToOne && p.added != {} then p.added else kept + p.added
  {
    if p.added != {} {
      var ids := specs[0].nodes;
      assert specs[1..] == [];
      ListsNothing(ids, p.added);
      if KindOf(e) == ToOne { LastOfSingle(ids, p.added); }
    }
  }

  /** Applying a plan gives every relation what the mutation asked for, whatever order the ids
      were listed in. */
  lemma PlanMeetsWish(view: map<Edge, Pending>, clear: seq<EdgeSpec>, add: seq<EdgeSpec>, e: Edge, initial: set<int>)
    requires Planned(view, clear, add) && Sensible(view) && e in view
    ensures Apply(clear, add, e, initial) == Wish(e, view[e], initial)
  {
    ApplyClearOwn(clear, e, initial);
    ApplyAddOwn(add, e, ApplyClear(clear, e, initial));
    ClearsMeet(e, view[e], OfEdge(e, clear), initial);
    AddsMeet(e, view[e], OfEdge(e, add), ApplyClear(clear, e, initial));
  }

  /** A Clear edge without ids is emitted only for an edge that was cleared: a removal is never
      read as clear-all. */
  lemma OnlyClearedIsClearAll(view: map<Edge, Pending>, clear: seq<EdgeSpec>, add: seq<EdgeSpec>, s: EdgeSpec)
    requires Planned(view, clear, add) && s in clear
    ensures s.nodes == [] <==> view[s.edge].cleared
  {
    FilterMembers((x: EdgeSpec) => x.edge == s.edge, clear);
    assert s in OfEdge(s.edge, clear);
  }

  ghost predicate SameUpToOrder(specs: seq<EdgeSpec>, other: seq<EdgeSpec>) {
    |specs| == |other| && forall i :: 0 <= i < |specs| ==> Members(specs[i].nodes) == Members(other[i].nodes)
  }

  lemma SameClears(e: Edge, p: Pending, specs: seq<EdgeSpec>, other: seq<EdgeSpec>)
    requires ClearSpecs(e, p, specs) && ClearSpecs(e, p, other)
    ensures SameUpToOrder(specs, other)
  {
  }

  lemma SameAdds(e: Edge, p: Pending, specs: seq<EdgeSpec>, other: seq<EdgeSpec>)
    requires AddSpecs(e, p, specs) && AddSpecs(e, p, other)
    ensures SameUpToOrder(specs, other)
  {
  }

  /** Two updates with equal collected changes emit the same edges up to the order in which ids
      are listed, and so do the same. */
  lemma SamePlan(view: map<Edge, Pending>, clear: seq<EdgeSpec>, add: seq<EdgeSpec>,
                 clear': seq<EdgeSpec>, add': seq<EdgeSpec>, e: Edge, initial: set<int>)
    requires Planned(view, clear, add) && Planned(view, clear', add') && Sensible(view) && e in view
    ensures SameUpToOrder(OfEdge(e, clear), OfEdge(e, clear')) && SameUpToOrder(OfEdge(e, add), OfEdge(e, add'))
    ensures Apply(clear, add, e, initial) == Apply(clear', add', e, initial)
  {
    SameClears(e, view[e], OfEdge(e, clear), OfEdge(e, clear'));
    SameAdds(e, view[e], OfEdge(e, add), OfEdge(e, add'));
    PlanMeetsWish(view, clear, add, e, initial);
    PlanMeetsWish(view, clear', add', e, initial);
  }

  // ---------- calls against plans ----------

  function Collected(calls: seq<Call>): Pending {
    if calls == [] then NO_CHANGE else Note(Collected(calls[..|calls| - 1]), calls[|calls| - 1])
  }

  /** What the calls say when every one takes effect at once. */
  function InOrder(calls: seq<Call>, initial: set<int>): set<int> {
    if calls == [] then initial
    else
      var before := InOrder(calls[..|calls| - 1], initial);
      match calls[|calls| - 1]
      case AddIds(ids) => before + Members(ids)
      case RemoveIds(ids) => before - Members(ids)
      case ClearAll => {}
      case ResetAll => initial
  }

  /** Ids that were waiting to be added when the edge was last cleared and that no later call
      mentions. */
  function Leftover(calls: seq<Call>): set<int> {
    if calls == [] then {}
    else
      var front := calls[..|calls| - 1];
      match calls[|calls| - 1]
      case AddIds(ids) => Leftover(front) - Members(ids)
      case RemoveIds(ids) => Leftover(front) - Members(ids)
      case ClearAll => Collected(front).added
      case ResetAll => {}
  }

  /** The plan does what the calls say, plus the leftover additions, for any calls. */
  lemma {:induction false} PlanAgainstCalls(e: Edge, calls: seq<Call>, initial: set<int>)
    requires KindOf(e) != ToOne
    ensures Wish(e, Collected(calls), initial) == InOrder(calls, initial) + Leftover(calls)
    ensures InOrder(calls, initial) !! Leftover(calls) && Leftover(calls) <= Collected(calls).added
  {
    if calls != [] {
      PlanAgainstCalls(e, calls[..|calls| - 1], initial);
    }
  }

  /** So an update does what its calls say exactly when nothing is left over. */
  lemma FaithfulIff(e: Edge, calls: seq<Call>, initial: set<int>)
    requires KindOf(e) != ToOne
    ensures Wish(e, Collected(calls), initial) == InOrder(calls, initial) <==> Leftover(calls) == {}
  {
    PlanAgainstCalls(e, calls, initial);
  }

  /** Clearing only while nothing waits to be added is enough. */
  lemma {:induction false} ClearFirstIsFaithful(calls: seq<Call>)
    requires forall i :: 0 <= i < |calls| && calls[i] == ClearAll ==> Collected(calls[..i]).added == {}
    ensures Leftover(calls) == {}
  {
    if calls != [] {
      var front := calls[..|calls| - 1];
      forall i | 0 <= i < |front| && front[i] == ClearAll ensures Collected(front[..i]).added == {} {
        assert front[..i] == calls[..i] && calls[i] == ClearAll;
      }
      ClearFirstIsFaithful(front);
    }
  }

  /** Some call does it, and no later call undoes it. */
  ghost predicate Stands(calls: seq<Call>, does: Call -> bool, undoes: Call -> bool) {
    exists i :: 0 <= i < |calls| && does(calls[i]) && forall k | i < k < |calls| :: !undoes(calls[k])
  }

  lemma StandsStep(calls: seq<Call>, does: Call -> bool, undoes: Call -> bool)
    requires calls != []
    ensures var front, last := calls[..|calls| - 1], calls[|calls| - 1];
            Stands(calls, does, undoes) <==> does(last) || (Stands(front, does, undoes) && !undoes(last))
  {
    var front, last := calls[..|calls| - 1], calls[|calls| - 1];
    if i :| 0 <= i < |calls| && does(calls[i]) && forall k | i < k < |calls| :: !undoes(calls[k]) {
      if i < |front| {
        assert does(front[i]);
        forall k | i < k < |front| ensures !undoes(front[k]) { assert front[k] == calls[k]; }
      }
    }
    if Stands(front, does, undoes) && !undoes(last) {
      var i :| 0 <= i < |front| && does(front[i]) && forall k | i < k < |front| :: !undoes(front[k]);
      assert does(calls[i]);
      forall k | i < k < |calls| ensures !undoes(calls[k]) {
        if k < |front| { assert front[k] == calls[k]; }
      }
    }
  }

  function Adds(id: int): Call -> bool { (c: Call) => c.AddIds? && id in c.ids }

  function Removes(id: int): Call -> bool { (c: Call) => c.RemoveIds? && id in c.ids }

  function Clears(): Call -> bool { (c: Call) => c.ClearAll? }

  function Resets(): Call -> bool { (c: Call) => c.ResetAll? }

  function Either(a: Call -> bool, b: Call -> bool): Call -> bool { (c: Call) => a(c) || b(c) }

  /** What a mutation has collected, id by id: an id waits to be added if some call added it and no
      later one removed it; it waits to be removed if some call removed it, whatever was added
      later; the edge is cleared if some call cleared it; and a reset forgets all three. */
  lemma {:induction false} CollectedMeans(calls: seq<Call>, id: int)
    ensures id in Collected(calls).added <==> Stands(calls, Adds(id), Either(Removes(id), Resets()))
    ensures id in Collected(calls).removed <==> Stands(calls, Removes(id), Resets())
    ensures Collected(calls).cleared <==> Stands(calls, Clears(), Resets())
  {
    if calls != [] {
      CollectedMeans(calls[..|calls| - 1], id);
      StandsStep(calls, Adds(id), Either(Removes(id), Resets()));
      StandsStep(calls, Removes(id), Resets());
      StandsStep(calls, Clears(), Resets());
    }
  }

  /** What the calls say, id by id: an id is linked if some call added it and none later took it
      away, or if it was linked to begin with and no call since the last reset took it away. */
  lemma {:induction false} InOrderMeans(calls: seq<Call>, initial: set<int>, id: int)
    ensures id !in initial ==>
              (id in InOrder(calls, initial) <==> Stands(calls, Adds(id), Either(Either(Removes(id), Clears()), Resets())))
    ensures id in initial ==>
              (id !in InOrder(calls, initial) <==> Stands(calls, Either(Removes(id), Clears()), Either(Adds(id), Resets())))
  {
    if calls != [] {
      InOrderMeans(calls[..|calls| - 1], initial, id);
      StandsStep(calls, Adds(id), Either(Either(Removes(id), Clears()), Resets()));
      StandsStep(calls, Either(Removes(id), Clears()), Either(Adds(id), Resets()));
    }
  }

  /** The j-th call cleared the edge while the id waited to be added, and no later call mentions the
      id or resets the edge. */
  ghost predicate CutOff(calls: seq<Call>, id: int, j: int) {
    && 0 <= j < |calls| && calls[j] == ClearAll && Stands(calls[..j], Adds(id), Either(Removes(id), Resets()))
    && forall k | j < k < |calls| :: !Adds(id)(calls[k]) && !Removes(id)(calls[k]) && calls[k] != ResetAll
  }

  ghost predicate SomeCutOff(calls: seq<Call>, id: int) {
    exists j :: CutOff(calls, id, j)
  }

  lemma CutOffEarlier(calls: seq<Call>, id: int, j: nat)
    requires calls != [] && j < |calls| - 1
    ensures var last := calls[|calls| - 1];
            CutOff(calls, id, j) <==>
            CutOff(calls[..|calls| - 1], id, j) && !Adds(id)(last) && !Removes(id)(last) && last != ResetAll
  {
    var front := calls[..|calls| - 1];
    assert front[..j] == calls[..j];
    if CutOff(calls, id, j) {
      forall k | j < k < |front| ensures !Adds(id)(front[k]) && !Removes(id)(front[k]) && front[k] != ResetAll {
        assert front[k] == calls[k];
      }
    }
  }

  lemma CutOffStep(calls: seq<Call>, id: int)
    requires calls != []
    ensures var front, last := calls[..|calls| - 1], calls[|calls| - 1];
            SomeCutOff(calls, id) <==>
            || (last == ClearAll && Stands(front, Adds(id), Either(Removes(id), Resets())))
            || (SomeCutOff(front, id) && !Adds(id)(last) && !Removes(id)(last) && last != ResetAll)
  {
    var front, last := calls[..|calls| - 1], calls[|calls| - 1];
    if j :| CutOff(calls, id, j) {
      if j < |front| { CutOffEarlier(calls, id, j); }
    }
    if j :| CutOff(front, id, j) { CutOffEarlier(calls, id, j); }
    if last == ClearAll && Stands(front, Adds(id), Either(Removes(id), Resets())) { assert CutOff(calls, id, |front|); }
  }

  /** The additions left over after a clear, id by id. */
  lemma {:induction false} LeftoverMeans(calls: seq<Call>, id: int)
    ensures id in Leftover(calls) <==> SomeCutOff(calls, id)
  {
    if calls != [] {
      LeftoverMeans(calls[..|calls| - 1], id);
      CollectedMeans(calls[..|calls| - 1], id);
      CutOffStep(calls, id);
    }
  }

  lemma SingleMember<T>(x: T)
    ensures Members([x]) == {x}
  {
  }

  /** Adding an id and then clearing the edge still adds the id. */
  lemma AddThenClear(e: Edge, id: int, initial: set<int>)
    requires KindOf(e) != ToOne
    ensures Wish(e, Collected([AddIds([id]), ClearAll]), initial) == {id} != InOrder([AddIds([id]), ClearAll], initial)
  {
    var calls := [AddIds([id]), ClearAll];
    assert calls[..1] == [AddIds([id])] && calls[..1][..0] == [];
    assert Collected(calls[..1]) == Note(NO_CHANGE, AddIds([id]));
    SingleMember(id);
    assert Collected(calls).added == {id};
  }

  /** What one call on a to-one edge says. */
  function OneSays(call: OneCall, initial: set<int>): set<int> {
    match call
    case SetId(id) => {id}
    case ClearEdge | ClearField => {}
    case ResetEdge | ResetField => initial
  }

  /** When a to-one plan does what the last call says: always after a set or a clear by field;
      after a clear by edge unless an id was set; after a reset unless the other way of clearing
      is still noted. */
  lemma OneFaithfulIff(e: Edge, st: OneState, call: OneCall, initial: set<int>)
    requires KindOf(e) == ToOne
    ensures Wish(e, NoteOne(st, call).View(), initial) == OneSays(call, initial) <==>
            match call
            case SetId(_) => true
            case ClearField => true
            case ClearEdge => st.id == None
            case ResetEdge => !st.fieldCleared || initial == {}
            case ResetField => !st.edgeCleared || initial == {}
  {
    if call == ClearEdge && st.id.Some? { assert st.id.value in Wish(e, NoteOne(st, call).View(), initial); }
  }

  function OneCollected(calls: seq<OneCall>): OneState {
    if calls == [] then OneState(None, false, false)
    else NoteOne(OneCollected(calls[..|calls| - 1]), calls[|calls| - 1])
  }

  /** The id that is still set after some calls: clearing by edge is the only call besides setting
      that keeps one. */
  function Standing(calls: seq<OneCall>): Option<int> {
    if calls == [] then None
    else
      match calls[|calls| - 1]
      case SetId(id) => Some(id)
      case ClearEdge => Standing(calls[..|calls| - 1])
      case ClearField | ResetEdge | ResetField => None
  }

  /** Cleared by the edge's name, and not reset by it since. */
  predicate EdgeMark(calls: seq<OneCall>) {
    calls != []
    && match calls[|calls| - 1]
       case ClearEdge => true
       case ResetEdge => false
       case _ => EdgeMark(calls[..|calls| - 1])
  }

  /** Cleared in either way, and not reset by the field's name since. */
  predicate FieldMark(calls: seq<OneCall>) {
    calls != []
    && match calls[|calls| - 1]
       case ClearEdge | ClearField => true
       case ResetField => false
       case _ => FieldMark(calls[..|calls| - 1])
  }

  lemma {:induction false} OneCollectedMeans(calls: seq<OneCall>)
    ensures OneCollected(calls) == OneState(Standing(calls), EdgeMark(calls), FieldMark(calls))
  {
    if calls != [] { OneCollectedMeans(calls[..|calls| - 1]); }
  }

  /** What calls on a to-one edge leave of it. */
  function OneOutcome(calls: seq<OneCall>, initial: set<int>): set<int> {
    if Standing(calls).Some? then {Standing(calls).value}
    else if EdgeMark(calls) || FieldMark(calls) then {}
    else initial
  }

  /** Whether the plan after some calls on a to-one edge does what the last of them says. */
  predicate OneFaithful(calls: seq<OneCall>, initial: set<int>) {
    calls == []
    || var front := calls[..|calls| - 1];
       match calls[|calls| - 1]
       case SetId(_) => true
       case ClearField => true
       case ClearEdge => Standing(front) == None
       case ResetEdge => !FieldMark(front) || initial == {}
       case ResetField => !EdgeMark(front) || initial == {}
  }

  /** Every call on a to-one edge overrides the ones before it. */
  function OneInOrder(calls: seq<OneCall>, initial: set<int>): set<int> {
    if calls == [] then initial else OneSays(calls[|calls| - 1], initial)
  }

  // ---------- from calls to relations ----------

  /** A call on some edge of an account mutation. */
  datatype EdgeCall =
    | OnGroups(many: Call) | OnChildren(many: Call) | OnUsageLogs(many: Call)
    | OnProxy(one: OneCall) | OnParent(one: OneCall)

  function EdgeOf(c: EdgeCall): Edge {
    match c
    case OnGroups(_) => AccountToGroups
    case OnChildren(_) => AccountToChildren
    case OnUsageLogs(_) => AccountToUsageLogs
    case OnProxy(_) => AccountToProxy
    case OnParent(_) => AccountToParent
  }

  /** The calls on one to-many edge, in order. */
  function ManyCalls(e: Edge, calls: seq<EdgeCall>): seq<Call> {
    if calls == [] then []
    else
      var front, last := ManyCalls(e, calls[..|calls| - 1]), calls[|calls| - 1];
      if EdgeOf(last) == e && (last.OnGroups? || last.OnChildren? || last.OnUsageLogs?) then front + [last.many] else front
  }

  /** The calls on one to-one edge, in order. */
  function OneCalls(e: Edge, calls: seq<EdgeCall>): seq<OneCall> {
    if calls == [] then []
    else
      var front, last := OneCalls(e, calls[..|calls| - 1]), calls[|calls| - 1];
      if EdgeOf(last) == e && (last.OnProxy? || last.OnParent?) then front + [last.one] else front
  }

  lemma CallsStep(e: Edge, calls: seq<EdgeCall>, c: EdgeCall)
    ensures ManyCalls(e, calls + [c]) ==
            if EdgeOf(c) == e && !c.OnProxy? && !c.OnParent? then ManyCalls(e, calls) + [c.many] else ManyCalls(e, calls)
    ensures OneCalls(e, calls + [c]) ==
            if EdgeOf(c) == e && (c.OnProxy? || c.OnParent?) then OneCalls(e, calls) + [c.one] else OneCalls(e, calls)
  {
    assert (calls + [c])[..|calls|] == calls;
  }

  lemma CollectedSnoc(calls: seq<Call>, c: Call)
    ensures Collected(calls + [c]) == Note(Collected(calls), c)
  {
    assert (calls + [c])[..|calls|] == calls;
  }

  lemma OneCollectedSnoc(calls: seq<OneCall>, c: OneCall)
    ensures OneCollected(calls + [c]) == NoteOne(OneCollected(calls), c)
  {
    assert (calls + [c])[..|calls|] == calls;
  }

  /** A to-many edge has collected the calls made on it. */
  ghost predicate ManyHas(m: ManyEdge, e: Edge, calls: seq<EdgeCall>)
    reads m
  {
    m.View() == Collected(ManyCalls(e, calls))
  }

  ghost predicate OneHas(m: OneEdge, e: Edge, calls: seq<EdgeCall>)
    reads m
  {
    m.State() == OneCollected(OneCalls(e, calls))
  }

  /** One more call on this edge, or on another. */
  method CallMany(m: ManyEdge, e: Edge, c: EdgeCall, ghost calls: seq<EdgeCall>)
    requires ManyHas(m, e, calls) && (EdgeOf(c) == e ==> !c.OnProxy? && !c.OnParent?)
    modifies m
    ensures ManyHas(m, e, calls + [c])
  {
    CallsStep(e, calls, c);
    if EdgeOf(c) == e {
      CollectedSnoc(ManyCalls(e, calls), c.many);
      match c.many
      case AddIds(ids) => m.Add(ids);
      case RemoveIds(ids) => m.Remove(ids);
      case ClearAll => m.Clear();
      case ResetAll => m.Reset();
    }
  }

  method CallOne(m: OneEdge, e: Edge, c: EdgeCall, ghost calls: seq<EdgeCall>)
    requires OneHas(m, e, calls) && (EdgeOf(c) == e ==> c.OnProxy? || c.OnParent?)
    modifies m
    ensures OneHas(m, e, calls + [c])
  {
    CallsStep(e, calls, c);
    if EdgeOf(c) == e {
      OneCollectedSnoc(OneCalls(e, calls), c.one);
      match c.one
      case SetId(id) => m.Set(id);
      case ClearEdge => m.ClearByEdge();
      case ClearField => m.ClearByField();
      case ResetEdge => m.ResetByEdge();
      case ResetField => m.ResetByField();
    }
  }

  /** A mutation that has collected the calls, edge by edge. */
  ghost predicate Has(m: AccountMutation, calls: seq<EdgeCall>)
    reads m.groups, m.proxy, m.parent, m.children, m.usageLogs
  {
    && m.groups != m.children && m.groups != m.usageLogs && m.children != m.usageLogs && m.proxy != m.parent
    && ManyHas(m.groups, AccountToGroups, calls) && ManyHas(m.children, AccountToChildren, calls)
    && ManyHas(m.usageLogs, AccountToUsageLogs, calls)
    && OneHas(m.proxy, AccountToProxy, calls) && OneHas(m.parent, AccountToParent, calls)
  }

  /** A call on one edge leaves the other four alone. */
  method Perform(m: AccountMutation, c: EdgeCall, ghost calls: seq<EdgeCall>)
    requires Has(m, calls)
    modifies m.groups, m.proxy, m.parent, m.children, m.usageLogs
    ensures Has(m, calls + [c])
  {
    CallMany(m.groups, AccountToGroups, c, calls);
    CallMany(m.children, AccountToChildren, c, calls);
    CallMany(m.usageLogs, AccountToUsageLogs, c, calls);
    CallOne(m.proxy, AccountToProxy, c, calls);
    CallOne(m.parent, AccountToParent, c, calls);
  }

  lemma HasView(m: AccountMutation, calls: seq<EdgeCall>, e: Edge)
    requires Has(m, calls) && e in m.View()
    ensures KindOf(e) != ToOne ==> m.View()[e] == Collected(ManyCalls(e, calls))
    ensures KindOf(e) == ToOne ==> m.View()[e] == OneCollected(OneCalls(e, calls)).View()
  {
  }

  /** What an update does to one relation, from the calls on its builder alone. */
  ghost predicate Effect(e: Edge, calls: seq<EdgeCall>, initial: set<int>, final: set<int>) {
    if KindOf(e) == ToOne then OneEffect(OneCalls(e, calls), initial, final)
    else final == InOrder(ManyCalls(e, calls), initial) + Leftover(ManyCalls(e, calls))
  }

  /** On a to-one relation: the id that is still set, or nothing after a clearing, or what was there;
      which is what the last call says exactly when that call is a faithful one. */
  ghost predicate OneEffect(calls: seq<OneCall>, initial: set<int>, final: set<int>) {
    final == OneOutcome(calls, initial) && (final == OneInOrder(calls, initial) <==> OneFaithful(calls, initial))
  }

  lemma OneEffectOf(e: Edge, calls: seq<OneCall>, initial: set<int>)
    requires KindOf(e) == ToOne
    ensures OneEffect(calls, initial, Wish(e, OneCollected(calls).View(), initial))
  {
    OneCollectedMeans(calls);
    if calls != [] {
      OneCollectedMeans(calls[..|calls| - 1]);
      OneFaithfulIff(e, OneCollected(calls[..|calls| - 1]), calls[|calls| - 1], initial);
    }
  }

  lemma EffectOfPlan(m: AccountMutation, calls: seq<EdgeCall>, clear: seq<EdgeSpec>, add: seq<EdgeSpec>, e: Edge, initial: set<int>)
    requires Has(m, calls) && Planned(m.View(), clear, add) && e in m.View()
    ensures Effect(e, calls, initial, Apply(clear, add, e, initial))
  {
    MutationIsSensible(m);
    HasView(m, calls, e);
    PlanMeetsWish(m.View(), clear, add, e, initial);
    if KindOf(e) == ToOne {
      OneEffectOf(e, OneCalls(e, calls), initial);
    } else {
      PlanAgainstCalls(e, ManyCalls(e, calls), initial);
    }
  }

  /** The calls that a choice picks, in order. */
  function Chosen<C>(pick: EdgeCall -> Option<C>, calls: seq<EdgeCall>): seq<C> {
    if calls == [] then []
    else
      var front, last := Chosen(pick, calls[..|calls| - 1]), pick(calls[|calls| - 1]);
      if last.Some? then front + [last.value] else front
  }

  function GroupCalls(calls: seq<EdgeCall>): seq<Call> {
    Chosen((c: EdgeCall) => if c.OnGroups? then Some(c.many) else None, calls)
  }

  function ChildrenCalls(calls: seq<EdgeCall>): seq<Call> {
    Chosen((c: EdgeCall) => if c.OnChildren? then Some(c.many) else None, calls)
  }

  function UsageLogCalls(calls: seq<EdgeCall>): seq<Call> {
    Chosen((c: EdgeCall) => if c.OnUsageLogs? then Some(c.many) else None, calls)
  }

  function ProxyCalls(calls: seq<EdgeCall>): seq<OneCall> {
    Chosen((c: EdgeCall) => if c.OnProxy? then Some(c.one) else None, calls)
  }

  function ParentCalls(calls: seq<EdgeCall>): seq<OneCall> {
    Chosen((c: EdgeCall) => if c.OnParent? then Some(c.one) else None, calls)
  }

  lemma {:induction false} ChosenMany(e: Edge, pick: EdgeCall -> Option<Call>, calls: seq<EdgeCall>)
    requires forall c :: pick(c) == if EdgeOf(c) == e && !c.OnProxy? && !c.OnParent? then Some(c.many) else None
    ensures Chosen(pick, calls) == ManyCalls(e, calls)
  {
    if calls != [] { ChosenMany(e, pick, calls[..|calls| - 1]); }
  }

  lemma {:induction false} ChosenOne(e: Edge, pick: EdgeCall -> Option<OneCall>, calls: seq<EdgeCall>)
    requires forall c :: pick(c) == if EdgeOf(c) == e && (c.OnProxy? || c.OnParent?) then Some(c.one) else None
    ensures Chosen(pick, calls) == OneCalls(e, calls)
  {
    if calls != [] { ChosenOne(e, pick, calls[..|calls| - 1]); }
  }

  /** Picking calls by what they were made on is picking them by edge. */
  lemma CallsByEdge(calls: seq<EdgeCall>)
    ensures ManyCalls(AccountToGroups, calls) == GroupCalls(calls)
    ensures ManyCalls(AccountToChildren, calls) == ChildrenCalls(calls)
    ensures ManyCalls(AccountToUsageLogs, calls) == UsageLogCalls(calls)
    ensures OneCalls(AccountToProxy, calls) == ProxyCalls(calls)
    ensures OneCalls(AccountToParent, calls) == ParentCalls(calls)
  {
    ChosenMany(AccountToGroups, (c: EdgeCall) => if c.OnGroups? then Some(c.many) else None, calls);
    ChosenMany(AccountToChildren, (c: EdgeCall) => if c.OnChildren? then Some(c.many) else None, calls);
    ChosenMany(AccountToUsageLogs, (c: EdgeCall) => if c.OnUsageLogs? then Some(c.many) else None, calls);
    ChosenOne(AccountToProxy, (c: EdgeCall) => if c.OnProxy? then Some(c.one) else None, calls);
    ChosenOne(AccountToParent, (c: EdgeCall) => if c.OnParent? then Some(c.one) else None, calls);
  }

  /** The effect of a plan, relation by relation. */
  ghost predicate ManyEffect(e: Edge, calls: seq<Call>, clear: seq<EdgeSpec>, add: seq<EdgeSpec>) {
    forall initial :: Apply(clear, add, e, initial) == InOrder(calls, initial) + Leftover(calls)
  }

  ghost predicate SingleEffect(e: Edge, calls: seq<OneCall>, clear: seq<EdgeSpec>, add: seq<EdgeSpec>) {
    forall initial :: OneEffect(calls, initial, Apply(clear, add, e, initial))
  }

  lemma PlanEffects(m: AccountMutation, calls: seq<EdgeCall>, clear: seq<EdgeSpec>, add: seq<EdgeSpec>, e: Edge)
    requires Has(m, calls) && Planned(m.View(), clear, add) && e in m.View()
    ensures KindOf(e) != ToOne ==> ManyEffect(e, ManyCalls(e, calls), clear, add)
    ensures KindOf(e) == ToOne ==> SingleEffect(e, OneCalls(e, calls), clear, add)
  {
    forall initial ensures Effect(e, calls, initial, Apply(clear, add, e, initial)) {
      EffectOfPlan(m, calls, clear, add, e, initial);
    }
  }

  /** Makes the calls on a new mutation. */
  method MakeCalls(calls: seq<EdgeCall>) returns (m: AccountMutation)
    ensures Has(m, calls)
  {
    m := new AccountMutation();
    for i := 0 to |calls|
      invariant fresh({m.groups, m.children, m.usageLogs}) && fresh({m.proxy, m.parent}) && Has(m, calls[..i])
    {
      assert calls[..i + 1] == calls[..i] + [calls[i]];
      Perform(m, calls[i], calls[..i]);
    }
    assert calls[..|calls|] == calls;
  }

  /** From calls to relations: whatever calls are made on an update's builder, in any order over any
      edges, the emitted Clear and Add edges leave each to-many relation as the calls on it say in
      order, plus the leftover additions, and each to-one relation with the id that is still set. */
  method UpdateEdges(calls: seq<EdgeCall>) returns (clear: seq<EdgeSpec>, add: seq<EdgeSpec>)
    ensures ManyEffect(AccountToGroups, GroupCalls(calls), clear, add)
    ensures ManyEffect(AccountToChildren, ChildrenCalls(calls), clear, add)
    ensures ManyEffect(AccountToUsageLogs, UsageLogCalls(calls), clear, add)
    ensures SingleEffect(AccountToProxy, ProxyCalls(calls), clear, add)
    ensures SingleEffect(AccountToParent, ParentCalls(calls), clear, add)
  {
    var m := MakeCalls(calls);
    var spec := new UpdateSpec();
    spec.PlanEdges(m);
    clear, add := spec.clear, spec.add;
    CallsByEdge(calls);
    PlanEffects(m, calls, clear, add, AccountToGroups);
    PlanEffects(m, calls, clear, add, AccountToChildren);
    PlanEffects(m, calls, clear, add, AccountToUsageLogs);
    PlanEffects(m, calls, clear, add, AccountToProxy);
    PlanEffects(m, calls, clear, add, AccountToParent);
  }
}
