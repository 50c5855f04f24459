/** The bulk save as it runs: shared arrays indexed by builder, written in place by the mutators. */
module BulkSave {
  import opened Prelude
  import opened BulkCreate

  class AccountCreateBulk<M, S> {
    const cfg: Config<M, S>
    const specs: array<Option<S>>
    const ids: array<Option<int>>
    const nodes: array<Option<Node<S>>>
    var store: seq<Mutation<M>>
    var held: seq<nat>
    var batches: nat
    ghost var trace: seq<Event<M, S>>

    ghost predicate Valid()
      reads this, specs, ids, nodes
    {
      && State().Sized(cfg.N())
      && specs as object != ids as object && ids as object != nodes as object && specs as object != nodes as object
    }

    ghost function State(): State<M, S>
      reads this, specs, ids, nodes
    {
      BulkCreate.State(store, held, specs[..], ids[..], nodes[..], batches, trace)
    }

    /** Makes the arrays and sets every builder's defaults. */
    constructor (cfg: Config<M, S>, mutations: seq<M>)
      requires |mutations| == cfg.N()
      ensures Valid() && this.cfg == cfg && fresh(specs) && fresh(ids) && fresh(nodes)
      ensures State() == Start(cfg, mutations)
    {
      this.cfg := cfg;
      specs := new Option<S>[|cfg.hooks|](_ => None);
      ids := new Option<int>[|cfg.hooks|](_ => None);
      nodes := new Option<Node<S>>[|cfg.hooks|](_ => None);
      store := Map((m: M) => Mutation(cfg.defaults(m), false), mutations);
      held := seq(|cfg.hooks|, k requires 0 <= k < |cfg.hooks| => k);
      batches, trace := 0, [];
    }

    /** Calls builder i's mutator from its j-th hook inwards. */
    method MutateAt(i: nat, j: nat, m: nat) returns (o: Outcome)
      requires Valid() && i < cfg.N() && j <= |cfg.hooks[i]| && m < |store|
      modifies this, specs, ids, nodes
      ensures Valid() && (o, State()) == Mutate(cfg, i, j, m, old(State()))
      decreases cfg.N() - i, |cfg.hooks[i]| - j, 1, 0
    {
      if j == |cfg.hooks[i]| {
        o := CoreAt(i, m);
      } else {
        trace := trace + [Enter(i, j)];
        o := RunHook(i, j, m, []);
        trace := trace + [Exit(i, j)];
      }
    }

    /** Lets the hook call on until it decides to return. */
    method RunHook(i: nat, j: nat, m: nat, past: seq<Outcome>) returns (o: Outcome)
      requires Valid() && i < cfg.N() && j < |cfg.hooks[i]| && |past| <= cfg.hooks[i][j].calls && m < |store|
      modifies this, specs, ids, nodes
      ensures Valid() && (o, State()) == Strategy(cfg, i, j, m, past, old(State()))
      decreases cfg.N() - i, |cfg.hooks[i]| - j, 0, cfg.hooks[i][j].calls - |past|
    {
      var h := cfg.hooks[i][j];
      var c := h.edit(store[m].content, past);
      store := store[m := store[m].(content := c)];
      if |past| < h.calls && h.again(c, past) {
        var next := m;
        match h.pass(c, past) {
          case Own =>
          case Fresh(content) =>
            next := |store|;
            store := store + [Mutation(content, false)];
        }
        var inner := MutateAt(i, j + 1, next);
        o := RunHook(i, j, m, past + [inner]);
      } else {
        o := h.result(c, past);
      }
    }

    /** Fills slot i, runs the rest of the chain, then finishes slot i. */
    method CoreAt(i: nat, m: nat) returns (o: Outcome)
      requires Valid() && i < cfg.N() && m < |store|
      modifies this, specs, ids, nodes
      ensures Valid() && (o, State()) == Core(cfg, i, m, old(State()))
      decreases cfg.N() - i, 0, 0, 0
    {
      if !cfg.check(store[held[i]].content) {
        return Failed(CheckFailed(i));
      }
      FillAt(i, m);
      ghost var filled := State();
      if i + 1 < cfg.N() {
        o := MutateAt(i + 1, 0, held[i + 1]);
      } else {
        o := Batch();
      }
      assert Later(filled, State());
      if o == Done {
        FinishAt(i, m);
      }
    }

    /** Installs the mutation and fills the builder's slots from it. */
    method FillAt(i: nat, m: nat)
      requires Valid() && i < cfg.N() && m < |store|
      modifies this, specs, ids, nodes
      ensures Valid() && State() == old(State()).Filled(i, m, cfg.spec(old(store[m].content)))
    {
      held := held[i := m];
      var spec := cfg.spec(store[m].content);
      nodes[i], specs[i], ids[i] := Some(Node(spec, 0)), Some(spec), None;
      trace := trace + [Fill(i, store[m].content)];
    }

    /** Copies the id of the spec to the node and marks the mutation done. */
    method FinishAt(i: nat, m: nat)
      requires Valid() && i < cfg.N() && m < |store| && nodes[i].Some?
      modifies this, nodes
      ensures Valid() && State() == old(State()).Finished(i, m)
    {
      if ids[i].Some? {
        nodes[i] := Some(nodes[i].value.(id := ids[i].value));
      }
      store := store[m := store[m].(done := true)];
    }

    /** Hands all specs to the driver; its k-th answer is the id of the k-th spec. */
    method Batch() returns (o: Outcome)
      requires Valid()
      modifies this, ids
      ensures Valid() && (o, State()) == RunBatch(cfg, old(State()))
      ensures match cfg.driver(old(batches), old(specs[..]))
              case None => o == Failed(BatchFailed) && ids[..] == old(ids[..])
              case Some(given) =>
                o == Done && forall k :: 0 <= k < ids.Length ==> ids[k] == if k < |given| then given[k] else None
    {
      var answer := cfg.driver(batches, specs[..]);
      batches := batches + 1;
      trace := trace + [BulkCreate.Batch(specs[..])];
      match answer
      case None => o := Failed(BatchFailed);
      case Some(given) =>
        for k := 0 to ids.Length
          invariant ids[..k] == FilledIds(ids.Length, given)[..k]
          invariant specs[..] == old(specs[..]) && nodes[..] == old(nodes[..])
          invariant store == old(store) && held == old(held)
          invariant batches == old(batches) + 1 && trace == old(trace) + [BulkCreate.Batch(specs[..])]
        {
          ids[k] := if k < |given| then given[k] else None;
        }
        assert ids[..] == FilledIds(ids.Length, given);
        o := Done;
    }

    /** Runs the chain and returns the nodes, or nothing on an error. */
    method SaveAll(ghost mutations: seq<M>) returns (r: SaveResult<S>)
      requires Valid() && |mutations| == cfg.N() && State() == Start(cfg, mutations)
      modifies this, specs, ids, nodes
      ensures Valid() && (r, State()) == Save(cfg, mutations)
    {
      if specs.Length == 0 {
        return Created(nodes[..]);
      }
      var o := MutateAt(0, 0, 0);
      match o
      case Done => r := Created(nodes[..]);
      case Failed(e) => r := SaveFailed(e);
    }
  }
}
