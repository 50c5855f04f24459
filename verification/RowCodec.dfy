/** Accounts as columns: filling in defaults, checking, the insert a create emits, and scanning a
    row back into a node. */
module RowCodec {
  import opened Prelude
  import Schema
  import EdgePlan

  datatype Column =
    | ID | CreatedAt | UpdatedAt | DeletedAt | Name | Notes | Platform | Type | Credentials | Extra
    | ProxyID | ProxyFallbackOriginID | Concurrency | LoadFactor | Priority | RateMultiplier | Status
    | ErrorMessage | LastUsedAt | ExpiresAt | AutoPauseOnExpired | Schedulable | RateLimitedAt
    | RateLimitResetAt | OverloadUntil | TempUnschedulableUntil | TempUnschedulableReason
    | SessionWindowStart | SessionWindowEnd | SessionWindowStatus | ParentAccountID | QuotaDimension
    | Other(name: string)

  /** Field values; a JSON document that is a nil map is None. */
  datatype Val = IntV(n: int) | TextV(s: string) | BoolV(b: bool) | FloatV(f: real) | TimeV(t: int)
               | JsonV(doc: Option<int>)

  /** A database cell. */
  datatype Cell = Null | Stored(v: Val) | Bytes(data: seq<nat>)

  datatype SlotKind = ByteSlot | BoolSlot | FloatSlot | IntSlot | TextSlot | TimeSlot | AnySlot

  /** A scan slot and what the driver put into it; Null is an invalid or empty slot. */
  datatype Slot = Slot(kind: SlotKind, cell: Cell)

  /** JSON as the codec sees it, the defaults (None where one is not initialised), and the
      user-defined validators. */
  datatype Env = Env(encode: Option<int> -> seq<nat>, decode: seq<nat> -> Option<Option<int>>,
                     default: Column -> Option<Val>, valid: (Column, Val) -> bool)

  ghost predicate Invertible(env: Env) {
    forall d :: env.encode(d) != [] && env.decode(env.encode(d)) == Some(d)
  }

  // ---------- reading a row ----------

  /** The slot a column is scanned into. */
  function SlotFor(c: Column): SlotKind {
    match c
    case Credentials | Extra => ByteSlot
    case AutoPauseOnExpired | Schedulable => BoolSlot
    case RateMultiplier => FloatSlot
    case ID | ProxyID | ProxyFallbackOriginID | Concurrency | LoadFactor | Priority | ParentAccountID => IntSlot
    case Name | Notes | Platform | Type | Status | ErrorMessage | TempUnschedulableReason
       | SessionWindowStatus | QuotaDimension => TextSlot
    case CreatedAt | UpdatedAt | DeletedAt | LastUsedAt | ExpiresAt | RateLimitedAt | RateLimitResetAt
       | OverloadUntil | TempUnschedulableUntil | SessionWindowStart | SessionWindowEnd => TimeSlot
    case Other(_) => AnySlot
  }

  /** The slot that assigning a column asserts; None for a column that is kept as selected value. */
  function Expected(c: Column): Option<SlotKind> {
    match c
    case ID => Some(IntSlot)
    case CreatedAt => Some(TimeSlot)
    case UpdatedAt => Some(TimeSlot)
    case DeletedAt => Some(TimeSlot)
    case Name => Some(TextSlot)
    case Notes => Some(TextSlot)
    case Platform => Some(TextSlot)
    case Type => Some(TextSlot)
    case Credentials => Some(ByteSlot)
    case Extra => Some(ByteSlot)
    case ProxyID => Some(IntSlot)
    case ProxyFallbackOriginID => Some(IntSlot)
    case Concurrency => Some(IntSlot)
    case LoadFactor => Some(IntSlot)
    case Priority => Some(IntSlot)
    case RateMultiplier => Some(FloatSlot)
    case Status => Some(TextSlot)
    case ErrorMessage => Some(TextSlot)
    case LastUsedAt => Some(TimeSlot)
    case ExpiresAt => Some(TimeSlot)
    case AutoPauseOnExpired => Some(BoolSlot)
    case Schedulable => Some(BoolSlot)
    case RateLimitedAt => Some(TimeSlot)
    case RateLimitResetAt => Some(TimeSlot)
    case OverloadUntil => Some(TimeSlot)
    case TempUnschedulableUntil => Some(TimeSlot)
    case TempUnschedulableReason => Some(TextSlot)
    case SessionWindowStart => Some(TimeSlot)
    case SessionWindowEnd => Some(TimeSlot)
    case SessionWindowStatus => Some(TextSlot)
    case ParentAccountID => Some(IntSlot)
    case QuotaDimension => Some(TextSlot)
    case Other(_) => None
  }

  /** The driver stores NULL or a value of the slot's kind. */
  predicate Accepts(kind: SlotKind, cell: Cell) {
    match cell
    case Null => true
    case Bytes(_) => kind == ByteSlot || kind == AnySlot
    case Stored(v) =>
      match kind
      case ByteSlot => false
      case BoolSlot => v.BoolV?
      case FloatSlot => v.FloatV?
      case IntSlot => v.IntV?
      case TextSlot => v.TextV?
      case TimeSlot => v.TimeV?
      case AnySlot => true
  }

  /** The columns whose node field is a pointer. */
  predicate Pointer(c: Column) {
    match c
    case DeletedAt | Notes | ProxyID | ProxyFallbackOriginID | LoadFactor | ErrorMessage | LastUsedAt | ExpiresAt
       | RateLimitedAt | RateLimitResetAt | OverloadUntil | TempUnschedulableUntil | TempUnschedulableReason
       | SessionWindowStart | SessionWindowEnd | SessionWindowStatus | ParentAccountID => true
    case _ => false
  }

  /** A field of a new node: a nil pointer or the zero value. */
  function Zero(c: Column): Option<Val> {
    if Pointer(c) then None
    else match SlotFor(c)
      case ByteSlot => Some(JsonV(None))
      case BoolSlot => Some(BoolV(false))
      case FloatSlot => Some(FloatV(0.0))
      case IntSlot => Some(IntV(0))
      case TextSlot => Some(TextV(""))
      case TimeSlot => Some(TimeV(0))
      case AnySlot => None
  }

  /** The column fields of a node that were assigned, and the values of selected columns it has no
      field for. */
  datatype Node = Node(fields: map<Column, Val>, selected: map<Column, Slot>)
  {
    /** What the field of a column holds; None is a nil pointer. */
    function At(c: Column): Option<Val> {
      if c in fields then Some(fields[c]) else Zero(c)
    }
  }

  const EMPTY_NODE: Node := Node(map[], map[])

  function SetField(n: Node, c: Column, v: Val): Node {
    n.(fields := n.fields[c := v])
  }

  datatype AssignError = TooFewValues | TypeMismatch(c: Column) | BadJson(c: Column)

  datatype Assigned = Done(node: Node) | Stopped(error: AssignError, node: Node)

  /** One column: a NULL leaves the field as it is, except for the id. */
  function AssignOne(env: Env, n: Node, c: Column, slot: Slot): Assigned {
    if Expected(c) == None then Done(n.(selected := n.selected[c := slot]))
    else if Some(slot.kind) != Expected(c) then Stopped(TypeMismatch(c), n)
    else match slot.cell
      case Null => Done(if c == ID then SetField(n, c, IntV(0)) else n)
      case Stored(v) => Done(SetField(n, c, v))
      case Bytes(data) =>
        if data == [] then Done(n)
        else match env.decode(data)
          case None => Stopped(BadJson(c), n)
          case Some(doc) => Done(SetField(n, c, JsonV(doc)))
  }

  /** The first k columns, stopping at the first error. */
  function AssignFirst(env: Env, n: Node, columns: seq<Column>, values: seq<Slot>, k: nat): Assigned
    requires k <= |columns| <= |values|
  {
    if k == 0 then Done(n)
    else match AssignFirst(env, n, columns, values, k - 1)
      case Done(n') => AssignOne(env, n', columns[k - 1], values[k - 1])
      case stopped => stopped
  }

  function AssignAll(env: Env, n: Node, columns: seq<Column>, values: seq<Slot>): Assigned {
    if |values| < |columns| then Stopped(TooFewValues, n) else AssignFirst(env, n, columns, values, |columns|)
  }

  lemma {:induction false} StoppedStays(env: Env, n: Node, columns: seq<Column>, values: seq<Slot>, k: nat, m: nat)
    requires k <= m <= |columns| <= |values| && AssignFirst(env, n, columns, values, k).Stopped?
    ensures AssignFirst(env, n, columns, values, m) == AssignFirst(env, n, columns, values, k)
  {
    if k < m { StoppedStays(env, n, columns, values, k, m - 1); }
  }

  class Account {
    var node: Node

    constructor ()
      ensures node == EMPTY_NODE
    {
      node := EMPTY_NODE;
    }

    /** One slot per column, in order. */
    static method ScanValues(columns: seq<Column>) returns (slots: array<SlotKind>)
      ensures fresh(slots) && slots[..] == Map(c => SlotFor(c), columns)
    {
      slots := new SlotKind[|columns|](_ => AnySlot);
      for i := 0 to |columns|
        invariant forall j :: 0 <= j < i ==> slots[j] == SlotFor(columns[j])
      {
        slots[i] := SlotFor(columns[i]);
      }
    }

    method AssignValues(env: Env, columns: seq<Column>, values: seq<Slot>) returns (error: Option<AssignError>)
      modifies this
      ensures AssignAll(env, old(node), columns, values) == if error == None then Done(node) else Stopped(error.value, node)
    {
      if |values| < |columns| {
        return Some(TooFewValues);
      }
      for i := 0 to |columns|
        invariant AssignFirst(env, old(node), columns, values, i) == Done(node)
      {
        var step := AssignOne(env, node, columns[i], values[i]);
        node := step.node;
        if step.Stopped? {
          StoppedStays(env, old(node), columns, values, i + 1, |columns|);
          return Some(step.error);
        }
      }
      return None;
    }
  }

  /** Whatever columns are selected and whatever the driver scanned into their slots, assigning
      them never runs into a slot of the wrong type. */
  lemma {:induction false} NoTypeMismatch(env: Env, n: Node, columns: seq<Column>, values: seq<Slot>, k: nat)
    requires k <= |columns| == |values|
    requires forall i :: 0 <= i < |columns| ==> values[i].kind == SlotFor(columns[i])
    ensures var out := AssignFirst(env, n, columns, values, k); out.Stopped? ==> out.error.BadJson?
  {
    if k > 0 { NoTypeMismatch(env, n, columns, values, k - 1); }
  }

  // ---------- creating ----------

  /** The set fields of a creation, and the ids of its two to-one edges. */
  datatype Mutation = Mutation(fields: map<Column, Val>, proxy: Option<int>, parent: Option<int>,
                               groups: set<int>, children: set<int>, usageLogs: set<int>)

  const IDENTITY_FIELDS: seq<Column> := [CreatedAt, UpdatedAt, DeletedAt, Name, Notes, Platform, Type, Credentials, Extra]

  const SCHEDULING_FIELDS: seq<Column> :=
    [ProxyFallbackOriginID, Concurrency, LoadFactor, Priority, RateMultiplier, Status, ErrorMessage, LastUsedAt,
     ExpiresAt, AutoPauseOnExpired, Schedulable]

  const WINDOW_FIELDS: seq<Column> :=
    [RateLimitedAt, RateLimitResetAt, OverloadUntil, TempUnschedulableUntil, TempUnschedulableReason,
     SessionWindowStart, SessionWindowEnd, SessionWindowStatus, QuotaDimension]

  /** The fields a creation can set, in the order in which the insert lists them. */
  const FIELDS: seq<Column> := IDENTITY_FIELDS + SCHEDULING_FIELDS + WINDOW_FIELDS

  const DEFAULTED: seq<Column> :=
    [CreatedAt, UpdatedAt, Credentials, Extra, Concurrency, Priority, RateMultiplier, Status,
     AutoPauseOnExpired, Schedulable, QuotaDimension]

  datatype CheckStep = Required(c: Column) | Validated(c: Column)

  const CHECKS: seq<CheckStep> :=
    [Required(CreatedAt), Required(UpdatedAt), Required(Name), Validated(Name), Required(Platform), Validated(Platform),
     Required(Type), Validated(Type), Required(Credentials), Required(Extra), Required(Concurrency), Required(Priority),
     Required(RateMultiplier), Required(Status), Validated(Status), Required(AutoPauseOnExpired), Required(Schedulable),
     Validated(SessionWindowStatus), Required(QuotaDimension), Validated(QuotaDimension)]

  predicate Meets(env: Env, m: map<Column, Val>, step: CheckStep) {
    match step
    case Required(c) => c in m
    case Validated(c) => c in m ==> env.valid(c, m[c])
  }

  /** The columns that the lists above name. */
  predicate Settable(c: Column) {
    c != ID && c != ProxyID && c != ParentAccountID && !c.Other?
  }

  predicate HasDefault(c: Column) {
    match c
    case CreatedAt | UpdatedAt | Credentials | Extra | Concurrency | Priority | RateMultiplier | Status
       | AutoPauseOnExpired | Schedulable | QuotaDimension => true
    case _ => false
  }

  predicate HasValidator(c: Column) {
    match c
    case Name | Platform | Type | Status | SessionWindowStatus | QuotaDimension => true
    case _ => false
  }

  predicate Demanded(c: Column) {
    HasDefault(c) || c == Name || c == Platform || c == Type
  }

  lemma FieldsListed(c: Column)
    ensures c in FIELDS <==> Settable(c)
  {
    IdentityListed(c);
    SchedulingListed(c);
    WindowListed(c);
  }

  lemma IdentityListed(c: Column)
    ensures c in IDENTITY_FIELDS <==>
            match c
            case CreatedAt | UpdatedAt | DeletedAt | Name | Notes | Platform | Type | Credentials | Extra => true
            case _ => false
  {
  }

  lemma SchedulingListed(c: Column)
    ensures c in SCHEDULING_FIELDS <==>
            match c
            case ProxyFallbackOriginID | Concurrency | LoadFactor | Priority | RateMultiplier | Status | ErrorMessage
               | LastUsedAt | ExpiresAt | AutoPauseOnExpired | Schedulable => true
            case _ => false
  {
  }

  lemma WindowListed(c: Column)
    ensures c in WINDOW_FIELDS <==>
            match c
            case RateLimitedAt | RateLimitResetAt | OverloadUntil | TempUnschedulableUntil | TempUnschedulableReason
               | SessionWindowStart | SessionWindowEnd | SessionWindowStatus | QuotaDimension => true
            case _ => false
  {
  }

  lemma DefaultsListed(c: Column)
    ensures c in DEFAULTED <==> HasDefault(c)
  {
  }

  lemma ChecksListed(s: CheckStep)
    ensures s in CHECKS <==> match s case Required(c) => Demanded(c) case Validated(c) => HasValidator(c)
  {
  }

  /** Every demanded field is there and every validated field that is there is valid. */
  ghost predicate Passes(env: Env, m: map<Column, Val>) {
    && (forall c :: Demanded(c) ==> c in m)
    && forall c :: HasValidator(c) && c in m ==> env.valid(c, m[c])
  }

  ghost predicate AllMeet(env: Env, m: map<Column, Val>, steps: seq<CheckStep>) {
    forall s :: s in steps ==> Meets(env, m, s)
  }

  lemma PassesChecks(env: Env, m: map<Column, Val>)
    ensures AllMeet(env, m, CHECKS) <==> Passes(env, m)
  {
    forall s ensures s in CHECKS <==> match s case Required(c) => Demanded(c) case Validated(c) => HasValidator(c) {
      ChecksListed(s);
    }
    if AllMeet(env, m, CHECKS) {
      forall c | Demanded(c) ensures c in m { assert Meets(env, m, Required(c)); }
      forall c | HasValidator(c) && c in m ensures env.valid(c, m[c]) { assert Meets(env, m, Validated(c)); }
    }
  }

  ghost predicate FirstFailure(env: Env, m: map<Column, Val>, steps: seq<CheckStep>, i: int) {
    0 <= i < |steps| && !Meets(env, m, steps[i]) && AllMeet(env, m, steps[..i])
  }

  /** d is m with every missing default filled in, and nothing else changed. */
  ghost predicate FilledIn(env: Env, m: map<Column, Val>, d: map<Column, Val>) {
    forall c ::
      if c in m then c in d && d[c] == m[c]
      else if HasDefault(c) then c in d && env.default(c) == Some(d[c])
      else c !in d
  }

  class Creation {
    var fields: map<Column, Val>
    var proxy: Option<int>
    var parent: Option<int>
    var groups: set<int>
    var children: set<int>
    var usageLogs: set<int>

    constructor (m: Mutation)
      ensures View() == m
    {
      fields, proxy, parent := m.fields, m.proxy, m.parent;
      groups, children, usageLogs := m.groups, m.children, m.usageLogs;
    }

    function View(): Mutation
      reads this
    {
      Mutation(fields, proxy, parent, groups, children, usageLogs)
    }

    /** Fills in what is missing; None, or the default that was not initialised. */
    method Defaults(env: Env) returns (error: Option<Column>)
      modifies this`fields
      ensures error == None ==> FilledIn(env, old(fields), fields)
      ensures error.Some? ==> HasDefault(error.value) && error.value !in old(fields) && env.default(error.value) == None
    {
      error := FillIn(env, DEFAULTED);
      forall c { DefaultsListed(c); }
    }

    method FillIn(env: Env, columns: seq<Column>) returns (error: Option<Column>)
      modifies this`fields
      ensures error == None ==> forall c ::
                if c in old(fields) then c in fields && fields[c] == old(fields)[c]
                else if c in columns then c in fields && env.default(c) == Some(fields[c])
                else c !in fields
      ensures error.Some? ==> error.value in columns && error.value !in old(fields) && env.default(error.value) == None
    {
      for i := 0 to |columns|
        invariant forall c ::
                    if c in old(fields) then c in fields && fields[c] == old(fields)[c]
                    else if c in columns[..i] then c in fields && env.default(c) == Some(fields[c])
                    else c !in fields
      {
        var c := columns[i];
        assert columns[..i + 1] == columns[..i] + [c];
        if c !in fields {
          if env.default(c) == None {
            return Some(c);
          }
          fields := fields[c := env.default(c).value];
        }
      }
      assert columns[..|columns|] == columns;
      return None;
    }

    /** The first check that fails, if any. */
    method Check(env: Env) returns (error: Option<CheckStep>)
      ensures error == None <==> Passes(env, fields)
      ensures error.Some? ==> exists i :: FirstFailure(env, fields, CHECKS, i) && CHECKS[i] == error.value
    {
      error := RunChecks(env, CHECKS);
      PassesChecks(env, fields);
    }

    method RunChecks(env: Env, steps: seq<CheckStep>) returns (error: Option<CheckStep>)
      ensures error == None <==> AllMeet(env, fields, steps)
      ensures error.Some? ==> exists i :: FirstFailure(env, fields, steps, i) && steps[i] == error.value
    {
      for i := 0 to |steps|
        invariant AllMeet(env, fields, steps[..i])
      {
        assert steps[..i + 1] == steps[..i] + [steps[i]];
        if !Meets(env, fields, steps[i]) {
          assert FirstFailure(env, fields, steps, i);
          return Some(steps[i]);
        }
      }
      assert steps[..|steps|] == steps;
      return None;
    }

    /** The node a creation returns and the insert it emits: the row with its own keys, and for every
        to-many edge with neighbours one edge that lists each of them once. */
    method CreateSpec() returns (node: Node, spec: InsertSpec, links: seq<EdgePlan.EdgeSpec>)
      ensures spec == InsertOf(View())
      ensures EdgePlan.Planned(LinksOf(View()), [], links)
      ensures EdgePlan.Apply([], links, Schema.AccountToGroups, {}) == groups
      ensures EdgePlan.Apply([], links, Schema.AccountToChildren, {}) == children
      ensures EdgePlan.Apply([], links, Schema.AccountToUsageLogs, {}) == usageLogs
      ensures forall c :: node.At(c) == Given(View(), c)
    {
      node, spec := CreateRow();
      links := CreateLinks();
      LinksAreMade(View(), links);
    }

    method CreateRow() returns (node: Node, spec: InsertSpec)
      ensures spec == InsertOf(View())
      ensures forall c :: node.At(c) == Given(View(), c)
    {
      node, spec := CreateSettable();
      node, spec := CreateKey(node, spec, ProxyID, proxy);
      node, spec := CreateKey(node, spec, ParentAccountID, parent);
    }

    method CreateLinks() returns (links: seq<EdgePlan.EdgeSpec>)
      ensures EdgePlan.Planned(LinksOf(View()), [], links)
    {
      ghost var view := LinksOf(View());
      links := CreateLink(Schema.AccountToGroups, groups, [], view, []);
      links := CreateLink(Schema.AccountToChildren, children, links, view, [Schema.AccountToGroups]);
      links := CreateLink(Schema.AccountToUsageLogs, usageLogs, links, view, [Schema.AccountToGroups, Schema.AccountToChildren]);
    }

    method CreateLink(e: Schema.Edge, ids: set<int>, links: seq<EdgePlan.EdgeSpec>,
                      ghost view: map<Schema.Edge, EdgePlan.Pending>, ghost done: seq<Schema.Edge>)
      returns (more: seq<EdgePlan.EdgeSpec>)
      requires e in view && e !in done && view[e] == ToAdd(ids) && (forall x :: x in done ==> x in view)
      requires EdgePlan.PlannedFor(view, done, [], links)
      ensures EdgePlan.PlannedFor(view, done + [e], [], more)
    {
      var nodes := EdgePlan.Listing(ids);
      EdgePlan.ListsNothing(nodes, ids);
      var own := if |nodes| > 0 then [EdgePlan.EdgeSpec(e, nodes)] else [];
      more := links + own;
      ghost var none: seq<EdgePlan.EdgeSpec> := [];
      EdgePlan.PlanStep(view, done, e, none, links, none, own);
      assert none + none == none;
    }

    method CreateSettable() returns (node: Node, spec: InsertSpec)
      ensures spec == InsertSpec(SetFields(fields, FIELDS), [])
      ensures forall c :: node.At(c) == if Settable(c) && c in fields then Some(fields[c]) else Zero(c)
    {
      node, spec := CreateFields(FIELDS);
      forall c { FieldsListed(c); }
    }

    method CreateKey(node: Node, spec: InsertSpec, c: Column, key: Option<int>) returns (node': Node, spec': InsertSpec)
      ensures spec' == spec.(edges := spec.edges + KeyOf(c, key))
      ensures forall x :: node'.At(x) == if x == c && key.Some? then Some(IntV(key.value)) else node.At(x)
    {
      node', spec' := node, spec;
      if key.Some? {
        spec' := spec.(edges := spec.edges + [(c, key.value)]);
        node' := SetField(node, c, IntV(key.value));
      } else {
        assert spec.edges + KeyOf(c, key) == spec.edges;
      }
    }

    method CreateFields(columns: seq<Column>) returns (node: Node, spec: InsertSpec)
      ensures spec == InsertSpec(SetFields(fields, columns), [])
      ensures forall c :: node.At(c) == if c in columns && c in fields then Some(fields[c]) else Zero(c)
    {
      node, spec := EMPTY_NODE, InsertSpec([], []);
      for i := 0 to |columns|
        invariant spec == InsertSpec(SetFields(fields, columns[..i]), [])
        invariant forall c :: node.At(c) == if c in columns[..i] && c in fields then Some(fields[c]) else Zero(c)
      {
        var c := columns[i];
        assert columns[..i + 1] == columns[..i] + [c];
        assert columns[..i + 1][..i] == columns[..i];
        if c in fields {
          spec := spec.(fields := spec.fields + [(c, fields[c])]);
          node := SetField(node, c, fields[c]);
        }
      }
      assert columns[..|columns|] == columns;
    }
  }

  // ---------- the insert ----------

  /** Column values in order, and the keys written for to-one edges. */
  datatype InsertSpec = InsertSpec(fields: seq<(Column, Val)>, edges: seq<(Column, int)>)

  function SetFields(m: map<Column, Val>, columns: seq<Column>): seq<(Column, Val)> {
    if columns == [] then []
    else
      var c := columns[|columns| - 1];
      SetFields(m, columns[..|columns| - 1]) + if c in m then [(c, m[c])] else []
  }

  function InsertOf(m: Mutation): InsertSpec {
    InsertSpec(SetFields(m.fields, FIELDS), [] + KeyOf(ProxyID, m.proxy) + KeyOf(ParentAccountID, m.parent))
  }

  function ToAdd(ids: set<int>): EdgePlan.Pending {
    EdgePlan.Pending(ids, {}, false)
  }

  /** The neighbours that live in other tables. */
  function LinksOf(m: Mutation): map<Schema.Edge, EdgePlan.Pending> {
    map[Schema.AccountToGroups := ToAdd(m.groups), Schema.AccountToChildren := ToAdd(m.children),
        Schema.AccountToUsageLogs := ToAdd(m.usageLogs)]
  }

  /** The relations of a new account after the insert are the ones the creation asked for, in
      whatever order the ids were listed. */
  lemma LinksAreMade(m: Mutation, links: seq<EdgePlan.EdgeSpec>)
    requires EdgePlan.Planned(LinksOf(m), [], links)
    ensures EdgePlan.Apply([], links, Schema.AccountToGroups, {}) == m.groups
    ensures EdgePlan.Apply([], links, Schema.AccountToChildren, {}) == m.children
    ensures EdgePlan.Apply([], links, Schema.AccountToUsageLogs, {}) == m.usageLogs
  {
    LinkIsMade(LinksOf(m), links, Schema.AccountToGroups, m.groups);
    LinkIsMade(LinksOf(m), links, Schema.AccountToChildren, m.children);
    LinkIsMade(LinksOf(m), links, Schema.AccountToUsageLogs, m.usageLogs);
  }

  lemma LinkIsMade(view: map<Schema.Edge, EdgePlan.Pending>, links: seq<EdgePlan.EdgeSpec>, e: Schema.Edge, ids: set<int>)
    requires EdgePlan.Planned(view, [], links) && e in view && view[e] == ToAdd(ids)
    requires EdgePlan.Sensible(view) && Schema.KindOf(e) != Schema.ToOne
    ensures EdgePlan.Apply([], links, e, {}) == ids
  {
    EdgePlan.PlanMeetsWish(view, [], links, e, {});
  }

  function KeyOf(c: Column, key: Option<int>): seq<(Column, int)> {
    if key.Some? then [(c, key.value)] else []
  }

  /** What a creation gives a field of the node it returns, before the id is known. */
  function Given(m: Mutation, c: Column): Option<Val> {
    if c == ProxyID then (if m.proxy.Some? then Some(IntV(m.proxy.value)) else None)
    else if c == ParentAccountID then (if m.parent.Some? then Some(IntV(m.parent.value)) else None)
    else if Settable(c) && c in m.fields then Some(m.fields[c])
    else Zero(c)
  }

  function Find<V>(cells: seq<(Column, V)>, c: Column): Option<V> {
    if cells == [] then None
    else if cells[|cells| - 1].0 == c then Some(cells[|cells| - 1].1)
    else Find(cells[..|cells| - 1], c)
  }

  function Encoded(env: Env, v: Val): Cell {
    if v.JsonV? then Bytes(env.encode(v.doc)) else Stored(v)
  }

  /** The row an insert writes: its fields, the keys of its edges, the generated id, and NULL. */
  function Written(env: Env, spec: InsertSpec, id: int, c: Column): Cell {
    var field, key := Find(spec.fields, c), Find(spec.edges, c);
    if c == ID then Stored(IntV(id))
    else if field.Some? then Encoded(env, field.value)
    else if key.Some? then Stored(IntV(key.value))
    else Null
  }

  /** The slots of a row after scanning. */
  function Scanned(env: Env, spec: InsertSpec, id: int, columns: seq<Column>): (slots: seq<Slot>)
    ensures |slots| == |columns|
    ensures forall i :: 0 <= i < |columns| ==> slots[i] == Slot(SlotFor(columns[i]), Written(env, spec, id, columns[i]))
  {
    Map((c: Column) => Slot(SlotFor(c), Written(env, spec, id, c)), columns)
  }

  /** Field values have the type of their column. */
  predicate Fits(c: Column, v: Val) {
    match SlotFor(c)
    case ByteSlot => v.JsonV?
    case BoolSlot => v.BoolV?
    case FloatSlot => v.FloatV?
    case IntSlot => v.IntV?
    case TextSlot => v.TextV?
    case TimeSlot => v.TimeV?
    case AnySlot => true
  }

  ghost predicate Typed(m: Mutation) {
    forall c :: c in m.fields ==> Fits(c, m.fields[c])
  }

  lemma FindSnoc<V>(front: seq<(Column, V)>, c: Column, v: V, x: Column)
    ensures Find(front + [(c, v)], x) == if x == c then Some(v) else Find(front, x)
  {
    assert (front + [(c, v)])[..|front|] == front;
  }

  lemma {:induction false} FoundFields(m: map<Column, Val>, columns: seq<Column>, c: Column)
    ensures Find(SetFields(m, columns), c) == if c in columns && c in m then Some(m[c]) else None
  {
    if columns != [] {
      FoundFields(m, columns[..|columns| - 1], c);
      FoundStep(m, columns, c);
    }
  }

  lemma FoundStep(m: map<Column, Val>, columns: seq<Column>, c: Column)
    requires columns != []
    ensures var front, last := columns[..|columns| - 1], columns[|columns| - 1];
            && (c in columns <==> c in front || c == last)
            && Find(SetFields(m, columns), c) == if c == last && last in m then Some(m[last]) else Find(SetFields(m, front), c)
  {
    var front, last := columns[..|columns| - 1], columns[|columns| - 1];
    assert columns == front + [last];
    if last in m {
      FindSnoc(SetFields(m, front), last, m[last], c);
    } else {
      assert SetFields(m, front) + [] == SetFields(m, front);
    }
  }

  lemma FoundKeys(m: Mutation, c: Column)
    ensures Find(InsertOf(m).edges, c) ==
            if c == ProxyID then m.proxy else if c == ParentAccountID then m.parent else None
  {
    FoundKey([], ProxyID, m.proxy, c);
    FoundKey([] + KeyOf(ProxyID, m.proxy), ParentAccountID, m.parent, c);
  }

  lemma FoundKey(front: seq<(Column, int)>, c: Column, key: Option<int>, x: Column)
    ensures Find(front + KeyOf(c, key), x) == if x == c && key.Some? then key else Find(front, x)
  {
    if key.Some? { FindSnoc(front, c, key.value, x); } else { assert front + [] == front; }
  }

  /** The cell of a column as the creation determines it. */
  lemma WrittenCell(env: Env, m: Mutation, id: int, c: Column)
    ensures Written(env, InsertOf(m), id, c) ==
            if c == ID then Stored(IntV(id))
            else if c == ProxyID then (if m.proxy.Some? then Stored(IntV(m.proxy.value)) else Null)
            else if c == ParentAccountID then (if m.parent.Some? then Stored(IntV(m.parent.value)) else Null)
            else if !c.Other? && c in m.fields then
              (if m.fields[c].JsonV? then Bytes(env.encode(m.fields[c].doc)) else Stored(m.fields[c]))
            else Null
  {
    FoundFields(m.fields, FIELDS, c);
    FieldsListed(c);
    FoundKeys(m, c);
  }

  lemma SlotsAgree(c: Column)
    ensures Expected(c) == if c.Other? then None else Some(SlotFor(c))
  {
  }

  /** Assigning one cell whose value is known. */
  lemma AssignStep(env: Env, n: Node, c: Column, cell: Cell, value: Option<Val>)
    requires !c.Other? && Invertible(env)
    requires match cell
             case Null => c != ID && n.At(c) == value
             case Stored(v) => value == Some(v)
             case Bytes(data) => value.Some? && value.value.JsonV? && data == env.encode(value.value.doc)
    ensures var out := AssignOne(env, n, c, Slot(SlotFor(c), cell));
            out.Done? && out.node.At(c) == value && forall x :: x != c ==> out.node.At(x) == n.At(x)
  {
    SlotsAgree(c);
  }

  /** Reading one written column gives what the creation gave, and touches nothing else. */
  lemma ReadBack(env: Env, m: Mutation, id: int, n: Node, c: Column)
    requires Invertible(env) && Typed(m) && !c.Other?
    requires n.At(c) == Zero(c) || n.At(c) == Returned(m, id, c)
    ensures var slot := Slot(SlotFor(c), Written(env, InsertOf(m), id, c));
            Accepts(slot.kind, slot.cell) && AssignOne(env, n, c, slot).Done?
    ensures var n' := AssignOne(env, n, c, Slot(SlotFor(c), Written(env, InsertOf(m), id, c))).node;
            n'.At(c) == Returned(m, id, c) && forall x :: x != c ==> n'.At(x) == n.At(x)
  {
    WrittenCell(env, m, id, c);
    if c in m.fields { assert Fits(c, m.fields[c]); }
    AssignStep(env, n, c, Written(env, InsertOf(m), id, c), Returned(m, id, c));
  }

  /** The node that a successful save returns: the created fields with the generated id. */
  function Returned(m: Mutation, id: int, c: Column): Option<Val> {
    if c == ID then Some(IntV(id)) else Given(m, c)
  }

  /** Creating an account and scanning back the row gives the same fields, for any list of columns
      in any order; columns that were not selected stay at their zero value. */
  lemma {:induction false} CreateReadRoundTrip(env: Env, m: Mutation, id: int, columns: seq<Column>, k: nat)
    requires Invertible(env) && Typed(m) && k <= |columns| && forall c :: c in columns ==> !c.Other?
    ensures var out := AssignFirst(env, EMPTY_NODE, columns, Scanned(env, InsertOf(m), id, columns), k);
            out.Done? && forall c :: out.node.At(c) == if c in columns[..k] then Returned(m, id, c) else Zero(c)
  {
    if k > 0 {
      CreateReadRoundTrip(env, m, id, columns, k - 1);
      var slots, c := Scanned(env, InsertOf(m), id, columns), columns[k - 1];
      var n := AssignFirst(env, EMPTY_NODE, columns, slots, k - 1).node;
      assert c in columns && columns[..k] == columns[..k - 1] + [c];
      ReadBack(env, m, id, n, c);
    }
  }

  /** After the defaults only the three fields without one, and the validators, can fail a check. */
  lemma CheckAfterDefaults(env: Env, m: map<Column, Val>, d: map<Column, Val>)
    requires FilledIn(env, m, d)
    ensures Passes(env, d) <==>
            && Name in m && Platform in m && Type in m
            && env.valid(Name, m[Name]) && env.valid(Platform, m[Platform]) && env.valid(Type, m[Type])
            && env.valid(Status, d[Status]) && env.valid(QuotaDimension, d[QuotaDimension])
            && (SessionWindowStatus in m ==> env.valid(SessionWindowStatus, m[SessionWindowStatus]))
  {
    assert HasDefault(Status) && HasDefault(QuotaDimension);
    if Passes(env, d) {
      assert Demanded(Name) && Demanded(Platform) && Demanded(Type);
      assert HasValidator(Name) && HasValidator(Platform) && HasValidator(Type) && HasValidator(SessionWindowStatus);
      assert HasValidator(Status) && HasValidator(QuotaDimension);
    }
  }

  // ---------- the tables, column by column ----------

  /** What the number and text columns of an account hold, and then the others. */
  lemma ColumnTypes(v: Val)
    ensures forall c | c in [ID, ProxyID, ProxyFallbackOriginID, Concurrency, LoadFactor, Priority, ParentAccountID] :: Fits(c, v) <==> v.IntV?
    ensures forall c | c in [Name, Notes, Platform, Type, Status, ErrorMessage, TempUnschedulableReason, SessionWindowStatus, QuotaDimension] ::
              Fits(c, v) <==> v.TextV?
  {
  }

  lemma OtherColumnTypes(v: Val)
    ensures forall c | c in [CreatedAt, UpdatedAt, DeletedAt, LastUsedAt, ExpiresAt, RateLimitedAt, RateLimitResetAt, OverloadUntil,
                             TempUnschedulableUntil, SessionWindowStart, SessionWindowEnd] :: Fits(c, v) <==> v.TimeV?
    ensures forall c | c in [AutoPauseOnExpired, Schedulable] :: Fits(c, v) <==> v.BoolV?
    ensures forall c | c in [Credentials, Extra] :: Fits(c, v) <==> v.JsonV?
    ensures Fits(RateMultiplier, v) <==> v.FloatV?
  {
  }

  /** The optional fields of a node start as nil. */
  lemma OptionalStartNil()
    ensures forall c | c in [DeletedAt, Notes, ProxyID, ProxyFallbackOriginID, LoadFactor, ErrorMessage, LastUsedAt, ExpiresAt,
                             RateLimitedAt, RateLimitResetAt, OverloadUntil, TempUnschedulableUntil, TempUnschedulableReason,
                             SessionWindowStart, SessionWindowEnd, SessionWindowStatus, ParentAccountID] :: EMPTY_NODE.At(c) == None
  {
  }

  /** The others start at the zero value of their type. */
  lemma OthersStartZero()
    ensures forall c | c in [ID, Concurrency, Priority] :: EMPTY_NODE.At(c) == Some(IntV(0))
    ensures forall c | c in [Name, Platform, Type, Status, QuotaDimension] :: EMPTY_NODE.At(c) == Some(TextV(""))
    ensures forall c | c in [CreatedAt, UpdatedAt] :: EMPTY_NODE.At(c) == Some(TimeV(0))
    ensures forall c | c in [AutoPauseOnExpired, Schedulable] :: EMPTY_NODE.At(c) == Some(BoolV(false))
    ensures forall c | c in [Credentials, Extra] :: EMPTY_NODE.At(c) == Some(JsonV(None))
    ensures EMPTY_NODE.At(RateMultiplier) == Some(FloatV(0.0))
  {
  }

  /** Every column but the id and the two edge keys can be given, and the node has what was given; the
      keys are those of the edges. */
  lemma GivenMeans(m: Mutation, c: Column)
    requires !c.Other?
    ensures c != ID && c != ProxyID && c != ParentAccountID ==>
              Given(m, c) == if c in m.fields then Some(m.fields[c]) else EMPTY_NODE.At(c)
    ensures Given(m, ID) == Some(IntV(0))
    ensures Given(m, ProxyID) == if m.proxy.Some? then Some(IntV(m.proxy.value)) else None
    ensures Given(m, ParentAccountID) == if m.parent.Some? then Some(IntV(m.parent.value)) else None
  {
  }

  /** What defaults add: these columns when they are missing, and no other. */
  lemma DefaultsMean(env: Env, m: map<Column, Val>, d: map<Column, Val>, c: Column)
    requires FilledIn(env, m, d)
    ensures c in m ==> c in d && d[c] == m[c]
    ensures var defaulted := [CreatedAt, UpdatedAt, Credentials, Extra, Concurrency, Priority, RateMultiplier, Status,
                              AutoPauseOnExpired, Schedulable, QuotaDimension];
            c !in m ==> (c in d <==> c in defaulted) && (c in d ==> Some(d[c]) == env.default(c))
  {
    DefaultsListed(c);
  }

  /** What a creation must have to pass. */
  lemma PassesMeans(env: Env, m: map<Column, Val>)
    ensures Passes(env, m) <==>
            && (forall c | c in [CreatedAt, UpdatedAt, Name, Platform, Type, Credentials, Extra, Concurrency, Priority, RateMultiplier,
                                 Status, AutoPauseOnExpired, Schedulable, QuotaDimension] :: c in m)
            && (forall c | c in [Name, Platform, Type, Status, SessionWindowStatus, QuotaDimension] :: c in m ==> env.valid(c, m[c]))
  {
  }

  /** Scanning one column: NULL leaves the field, or makes an id zero; a value goes into its own field;
      JSON is decoded, an empty document leaves the field and an unreadable one stops the scan; a
      column without a field is kept under its name. */
  lemma AssignMeans(env: Env, n: Node, c: Column, cell: Cell)
    ensures !c.Other? && cell == Null ==>
              AssignOne(env, n, c, Slot(SlotFor(c), cell)) == if c == ID then Done(SetField(n, ID, IntV(0))) else Done(n)
    ensures !c.Other? && cell.Stored? ==> AssignOne(env, n, c, Slot(SlotFor(c), cell)) == Done(SetField(n, c, cell.v))
    ensures !c.Other? && cell.Bytes? && cell.data == [] ==> AssignOne(env, n, c, Slot(SlotFor(c), cell)) == Done(n)
    ensures !c.Other? && cell.Bytes? && cell.data != [] ==>
              AssignOne(env, n, c, Slot(SlotFor(c), cell)) ==
              if env.decode(cell.data) == None then Stopped(BadJson(c), n)
              else Done(SetField(n, c, JsonV(env.decode(cell.data).value)))
    ensures c.Other? ==> AssignOne(env, n, c, Slot(SlotFor(c), cell)) == Done(n.(selected := n.selected[c := Slot(SlotFor(c), cell)]))
    ensures forall v, x :: SetField(n, c, v).At(x) == if x == c then Some(v) else n.At(x)
  {
    SlotsAgree(c);
  }
}
