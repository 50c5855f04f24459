/** The mutator chain of a bulk create. Builder i's mutator is wrapped in its hooks; its core fills
    slot i, then runs builder i+1's mutator, and the last core runs the batch. */
module BulkCreate {
  import opened Prelude

  datatype Error = CheckFailed(builder: nat) | BatchFailed | HookError(code: int)

  datatype Outcome = Done | Failed(error: Error)

  /** What a hook hands to the next mutator: the mutation object it was given, or a new one. */
  datatype Handed<M> = Own | Fresh(content: M)

  /** A hook as a strategy. Each time it gets control, before its next call and before it returns,
      it may edit its mutation in place; knowing the content and the outcomes of its calls so far, it
      calls the next mutator again (at most `calls` times in all) or returns an outcome. */
  datatype Hook<!M> = Hook(
    calls: nat,
    edit: (M, seq<Outcome>) -> M,
    again: (M, seq<Outcome>) -> bool,
    pass: (M, seq<Outcome>) -> Handed<M>,
    result: (M, seq<Outcome>) -> Outcome)

  /** Per builder its hooks, outermost first; validation and spec building; and the driver, which
      answers its attempt-th batch with a failure or with the ids it filled in. */
  datatype Config<!M, !S> = Config(
    hooks: seq<seq<Hook<M>>>,
    defaults: M -> M,
    check: M -> bool,
    spec: M -> S,
    driver: (nat, seq<Option<S>>) -> Option<seq<Option<int>>>)
  {
    function N(): nat { |hooks| }
  }

  datatype Node<S> = Node(content: S, id: int)

  datatype Event<M, S> = Enter(builder: nat, hook: nat) | Exit(builder: nat, hook: nat)
                       | Fill(builder: nat, content: M) | Batch(specs: seq<Option<S>>)

  /** A mutation object; others refer to it by its place in the store. */
  datatype Mutation<M> = Mutation(content: M, done: bool)

  /** The mutation objects, the one that each builder holds, the shared arrays, and what has
      happened. */
  datatype State<M, S> = State(
    store: seq<Mutation<M>>, held: seq<nat>, specs: seq<Option<S>>, ids: seq<Option<int>>,
    nodes: seq<Option<Node<S>>>, batches: nat, trace: seq<Event<M, S>>)
  {
    predicate Sized(n: nat) {
      |held| == n && |specs| == n && |ids| == n && |nodes| == n && forall k :: 0 <= k < |held| ==> held[k] < |store|
    }

    function Log(e: Event<M, S>): State<M, S> { this.(trace := trace + [e]) }

    /** What builder i's own mutation says now. */
    function Held(i: nat): M
      requires Sized(|held|) && i < |held|
    {
      store[held[i]].content
    }

    function Edited(m: nat, c: M): State<M, S>
      requires m < |store|
    {
      this.(store := store[m := store[m].(content := c)])
    }

    /** The object that the next mutator gets. */
    function Hand(m: nat, h: Handed<M>): (nat, State<M, S>) {
      match h
      case Own => (m, this)
      case Fresh(c) => (|store|, this.(store := store + [Mutation(c, false)]))
    }

    function Filled(i: nat, m: nat, s: S): State<M, S>
      requires i < |held| && Sized(|held|) && m < |store|
    {
      this.(held := held[i := m], specs := specs[i := Some(s)], ids := ids[i := None],
            nodes := nodes[i := Some(Node(s, 0))], trace := trace + [Fill(i, store[m].content)])
    }

    /** The node takes the id its spec got, if any, and the mutation is marked done. */
    function Finished(i: nat, m: nat): State<M, S>
      requires i < |held| && Sized(|held|) && nodes[i].Some? && m < |store|
    {
      this.(nodes := if ids[i].Some? then nodes[i := Some(nodes[i].value.(id := ids[i].value))] else nodes,
            store := store[m := store[m].(done := true)])
    }
  }

  /** From one state to a later one: the trace and the store only grow, done marks and filled
      slots stay. */
  ghost predicate Later<M, S>(a: State<M, S>, b: State<M, S>) {
    && |a.held| == |b.held| && b.Sized(|b.held|) && a.trace <= b.trace && a.batches <= b.batches
    && |a.store| <= |b.store|
    && (forall k :: 0 <= k < |a.store| && a.store[k].done ==> b.store[k].done)
    && (forall k :: 0 <= k < |a.nodes| && k < |b.nodes| && a.nodes[k].Some? ==> b.nodes[k].Some?)
    && (forall k :: 0 <= k < |a.specs| && k < |b.specs| && a.specs[k].Some? ==> b.specs[k].Some?)
  }

  // ---------- the chain as a function of the state ----------

  function FilledIds(n: nat, given: seq<Option<int>>): (ids: seq<Option<int>>)
    ensures |ids| == n
  {
    seq(n, k => if 0 <= k < |given| then given[k] else None)
  }

  function RunBatch<M, S>(cfg: Config<M, S>, st: State<M, S>): (Outcome, State<M, S>) {
    var ran := st.(batches := st.batches + 1, trace := st.trace + [Batch(st.specs)]);
    match cfg.driver(st.batches, st.specs)
    case None => (Failed(BatchFailed), ran)
    case Some(given) => (Done, ran.(ids := FilledIds(|st.ids|, given)))
  }

  /** The hook gets control: it edits its mutation, then decides, then hands something over. */
  function Edits<M, S>(h: Hook<M>, m: nat, past: seq<Outcome>, st: State<M, S>): State<M, S>
    requires m < |st.store|
  {
    st.Edited(m, h.edit(st.store[m].content, past))
  }

  predicate CallsOn<M, S>(h: Hook<M>, m: nat, past: seq<Outcome>, st: State<M, S>)
    requires m < |st.store|
  {
    |past| < h.calls && h.again(st.store[m].content, past)
  }

  function HandsOver<M, S>(h: Hook<M>, m: nat, past: seq<Outcome>, st: State<M, S>): (nat, State<M, S>)
    requires m < |st.store|
  {
    st.Hand(m, h.pass(st.store[m].content, past))
  }

  /** Builder i's mutator from its j-th hook inwards, applied to mutation m. */
  function Mutate<M, S>(cfg: Config<M, S>, i: nat, j: nat, m: nat, st: State<M, S>): (r: (Outcome, State<M, S>))
    requires i < cfg.N() && j <= |cfg.hooks[i]| && st.Sized(cfg.N()) && m < |st.store|
    ensures Later(st, r.1)
    decreases cfg.N() - i, |cfg.hooks[i]| - j, 1, 0
  {
    if j == |cfg.hooks[i]| then Core(cfg, i, m, st)
    else
      var (o, st') := Strategy(cfg, i, j, m, [], st.Log(Enter(i, j)));
      (o, st'.Log(Exit(i, j)))
  }

  function Strategy<M, S>(cfg: Config<M, S>, i: nat, j: nat, m: nat, past: seq<Outcome>, st: State<M, S>): (r: (Outcome, State<M, S>))
    requires i < cfg.N() && j < |cfg.hooks[i]| && |past| <= cfg.hooks[i][j].calls && st.Sized(cfg.N()) && m < |st.store|
    ensures Later(st, r.1)
    decreases cfg.N() - i, |cfg.hooks[i]| - j, 0, cfg.hooks[i][j].calls - |past|
  {
    var h := cfg.hooks[i][j];
    var edited := Edits(h, m, past, st);
    if CallsOn(h, m, past, edited) then
      var (next, ready) := HandsOver(h, m, past, edited);
      var (o, st') := Mutate(cfg, i, j + 1, next, ready);
      Strategy(cfg, i, j, m, past + [o], st')
    else
      (h.result(edited.store[m].content, past), edited)
  }

  /** The innermost mutator of builder i. Validation looks at the mutation object that the builder
      holds when the call arrives; only then is the given object installed and turned into a spec. */
  function Core<M, S>(cfg: Config<M, S>, i: nat, m: nat, st: State<M, S>): (r: (Outcome, State<M, S>))
    requires i < cfg.N() && st.Sized(cfg.N()) && m < |st.store|
    ensures Later(st, r.1)
    decreases cfg.N() - i, 0, 0, 0
  {
    if !cfg.check(st.Held(i)) then (Failed(CheckFailed(i)), st)
    else
      var filled := st.Filled(i, m, cfg.spec(st.store[m].content));
      var (o, st') := if i + 1 < cfg.N() then NextBuilder(cfg, i, filled) else RunBatch(cfg, filled);
      if o.Failed? then (o, st') else (o, st'.Finished(i, m))
  }

  /** The next builder's mutator gets the mutation that builder holds. */
  function NextBuilder<M, S>(cfg: Config<M, S>, i: nat, st: State<M, S>): (r: (Outcome, State<M, S>))
    requires i + 1 < cfg.N() && st.Sized(cfg.N())
    ensures Later(st, r.1)
    decreases cfg.N() - i - 1, |cfg.hooks[i + 1]|, 2, 0
  {
    Mutate(cfg, i + 1, 0, st.held[i + 1], st)
  }

  datatype SaveResult<S> = Created(nodes: seq<Option<Node<S>>>) | SaveFailed(error: Error)

  /** Builder k holds the k-th mutation object, with its defaults filled in. */
  function Start<M, S>(cfg: Config<M, S>, mutations: seq<M>): (st: State<M, S>)
    requires |mutations| == cfg.N()
    ensures st.Sized(cfg.N())
  {
    State(Map((m: M) => Mutation(cfg.defaults(m), false), mutations), seq(cfg.N(), k requires 0 <= k < cfg.N() => k),
          seq(cfg.N(), _ => None), seq(cfg.N(), _ => None), seq(cfg.N(), _ => None), 0, [])
  }

  function Save<M, S>(cfg: Config<M, S>, mutations: seq<M>): (SaveResult<S>, State<M, S>)
    requires |mutations| == cfg.N()
  {
    var st := Start(cfg, mutations);
    if cfg.N() == 0 then (Created([]), st)
    else
      var (o, st') := Mutate(cfg, 0, 0, 0, st);
      match o
      case Done => (Created(st'.nodes), st')
      case Failed(e) => (SaveFailed(e), st')
  }
}
