/** Guarantees of the mutator chain, for arbitrary hooks and then for well-behaved ones. */
module BulkCreateFacts {
  import opened Prelude
  import opened BulkCreate

  // ---------- any hooks: how often the batch runs ----------

  /** n * b, by addition. */
  function Times(n: nat, b: nat): nat {
    if n == 0 then 0 else b + Times(n - 1, b)
  }

  /** Products of call counts from hook j of builder i inwards. */
  function Bound<M, S>(cfg: Config<M, S>, i: nat, j: nat): nat
    requires i < cfg.N() && j <= |cfg.hooks[i]|
    decreases cfg.N() - i, |cfg.hooks[i]| - j
  {
    if j < |cfg.hooks[i]| then Times(cfg.hooks[i][j].calls, Bound(cfg, i, j + 1))
    else if i + 1 < cfg.N() then Bound(cfg, i + 1, 0)
    else 1
  }

  /** The batch runs at most as often as the product of the hooks' call counts. */
  lemma {:induction false} BatchBound<M, S>(cfg: Config<M, S>, i: nat, j: nat, m: nat, st: State<M, S>)
    requires i < cfg.N() && j <= |cfg.hooks[i]| && st.Sized(cfg.N()) && m < |st.store|
    ensures Mutate(cfg, i, j, m, st).1.batches <= st.batches + Bound(cfg, i, j)
    decreases cfg.N() - i, |cfg.hooks[i]| - j, 1, 0
  {
    if j < |cfg.hooks[i]| {
      StrategyBound(cfg, i, j, m, [], st.Log(Enter(i, j)));
    } else {
      assert Mutate(cfg, i, j, m, st) == Core(cfg, i, m, st);
      if cfg.check(st.Held(i)) && i + 1 < cfg.N() {
        var filled := st.Filled(i, m, cfg.spec(st.store[m].content));
        BatchBound(cfg, i + 1, 0, filled.held[i + 1], filled);
      }
    }
  }

  lemma {:induction false} StrategyBound<M, S>(cfg: Config<M, S>, i: nat, j: nat, m: nat, past: seq<Outcome>, st: State<M, S>)
    requires i < cfg.N() && j < |cfg.hooks[i]| && |past| <= cfg.hooks[i][j].calls && st.Sized(cfg.N()) && m < |st.store|
    ensures Strategy(cfg, i, j, m, past, st).1.batches
            <= st.batches + Times(cfg.hooks[i][j].calls - |past|, Bound(cfg, i, j + 1))
    decreases cfg.N() - i, |cfg.hooks[i]| - j, 0, cfg.hooks[i][j].calls - |past|
  {
    var h := cfg.hooks[i][j];
    var edited := Edits(h, m, past, st);
    if CallsOn(h, m, past, edited) {
      var (next, ready) := HandsOver(h, m, past, edited);
      var (o, st') := Mutate(cfg, i, j + 1, next, ready);
      assert Strategy(cfg, i, j, m, past, st) == Strategy(cfg, i, j, m, past + [o], st');
      BatchBound(cfg, i, j + 1, next, ready);
      StrategyBound(cfg, i, j, m, past + [o], st');
      assert |past + [o]| == |past| + 1;
    }
  }

  ghost predicate AtMostOnce<M, S>(cfg: Config<M, S>) {
    forall i, j :: 0 <= i < cfg.N() && 0 <= j < |cfg.hooks[i]| ==> cfg.hooks[i][j].calls <= 1
  }

  lemma {:induction false} BoundOne<M, S>(cfg: Config<M, S>, i: nat, j: nat)
    requires AtMostOnce(cfg) && i < cfg.N() && j <= |cfg.hooks[i]|
    ensures Bound(cfg, i, j) <= 1
    decreases cfg.N() - i, |cfg.hooks[i]| - j
  {
    if j < |cfg.hooks[i]| {
      BoundOne(cfg, i, j + 1);
      var b := Bound(cfg, i, j + 1);
      assert Times(0, b) == 0 && Times(1, b) == b;
      assert cfg.hooks[i][j].calls == 0 || cfg.hooks[i][j].calls == 1;
    } else if i + 1 < cfg.N() {
      BoundOne(cfg, i + 1, 0);
    }
  }

  /** If every hook calls its next mutator at most once, a save runs at most one batch. */
  lemma OneBatchAtMost<M, S>(cfg: Config<M, S>, mutations: seq<M>)
    requires |mutations| == cfg.N() && AtMostOnce(cfg)
    ensures Save(cfg, mutations).1.batches <= 1
  {
    if cfg.N() > 0 {
      BatchBound(cfg, 0, 0, 0, Start(cfg, mutations));
      BoundOne(cfg, 0, 0);
    }
  }

  // ---------- any hooks: what a batch and the result consist of ----------

  /** What builder k's slot was last filled from. */
  function LastFill<M, S>(trace: seq<Event<M, S>>, k: nat): Option<M> {
    if trace == [] then None
    else
      var e := trace[|trace| - 1];
      if e.Fill? && e.builder == k then Some(e.content) else LastFill(trace[..|trace| - 1], k)
  }

  lemma LastFillSnoc<M, S>(trace: seq<Event<M, S>>, e: Event<M, S>, k: nat)
    ensures LastFill(trace + [e], k) == if e.Fill? && e.builder == k then Some(e.content) else LastFill(trace, k)
  {
    assert (trace + [e])[..|trace|] == trace;
  }

  /** A slot holds the spec and the node of its last filling, or nothing. */
  ghost predicate SlotRecorded<M, S>(cfg: Config<M, S>, st: State<M, S>, k: nat)
    requires k < |st.held| && st.Sized(|st.held|)
  {
    match LastFill(st.trace, k)
    case None => st.specs[k] == None && st.nodes[k] == None
    case Some(c) => st.specs[k] == Some(cfg.spec(c)) && st.nodes[k].Some? && st.nodes[k].value.content == cfg.spec(c)
  }

  /** A batch consists of the specs of the last filling of every builder. */
  ghost predicate BatchRecorded<M, S>(cfg: Config<M, S>, before: seq<Event<M, S>>, e: Event<M, S>) {
    e.Batch? ==>
      |e.specs| == cfg.N()
      && forall k :: 0 <= k < cfg.N() ==>
           LastFill(before, k).Some? && e.specs[k] == Some(cfg.spec(LastFill(before, k).value))
  }

  ghost predicate BatchesRecorded<M, S>(cfg: Config<M, S>, trace: seq<Event<M, S>>) {
    forall p :: 0 <= p < |trace| ==> BatchRecorded(cfg, trace[..p], trace[p])
  }

  ghost predicate Recorded<M, S>(cfg: Config<M, S>, st: State<M, S>) {
    && st.Sized(cfg.N()) && BatchesRecorded(cfg, st.trace)
    && forall k :: 0 <= k < cfg.N() ==> SlotRecorded(cfg, st, k)
  }

  lemma BatchesSnoc<M, S>(cfg: Config<M, S>, trace: seq<Event<M, S>>, e: Event<M, S>)
    requires BatchesRecorded(cfg, trace) && BatchRecorded(cfg, trace, e)
    ensures BatchesRecorded(cfg, trace + [e])
  {
    var more := trace + [e];
    forall p | 0 <= p < |more| ensures BatchRecorded(cfg, more[..p], more[p]) {
      if p < |trace| { assert more[..p] == trace[..p]; } else { assert more[..p] == trace; }
    }
  }

  /** Events other than fills and batches change no slot. */
  lemma RecordedLog<M, S>(cfg: Config<M, S>, st: State<M, S>, e: Event<M, S>)
    requires Recorded(cfg, st) && !e.Fill? && !e.Batch?
    ensures Recorded(cfg, st.Log(e))
  {
    BatchesSnoc(cfg, st.trace, e);
    forall k | 0 <= k < cfg.N() ensures SlotRecorded(cfg, st.Log(e), k) {
      LastFillSnoc(st.trace, e, k);
      assert SlotRecorded(cfg, st, k);
    }
  }

  lemma RecordedFilled<M, S>(cfg: Config<M, S>, st: State<M, S>, i: nat, m: nat)
    requires Recorded(cfg, st) && i < cfg.N() && m < |st.store|
    ensures Recorded(cfg, st.Filled(i, m, cfg.spec(st.store[m].content)))
  {
    var e: Event<M, S> := Fill(i, st.store[m].content);
    var filled := st.Filled(i, m, cfg.spec(st.store[m].content));
    BatchesSnoc(cfg, st.trace, e);
    forall k | 0 <= k < cfg.N() ensures SlotRecorded(cfg, filled, k) {
      LastFillSnoc(st.trace, e, k);
      assert SlotRecorded(cfg, st, k);
    }
  }

  lemma RecordedBatch<M, S>(cfg: Config<M, S>, st: State<M, S>)
    requires Recorded(cfg, st) && forall k :: 0 <= k < cfg.N() ==> st.specs[k].Some?
    ensures Recorded(cfg, RunBatch(cfg, st).1)
  {
    var e: Event<M, S> := Batch(st.specs);
    forall k | 0 <= k < cfg.N()
      ensures LastFill(st.trace, k).Some? && st.specs[k] == Some(cfg.spec(LastFill(st.trace, k).value))
    {
      assert SlotRecorded(cfg, st, k);
    }
    assert BatchRecorded(cfg, st.trace, e);
    BatchesSnoc(cfg, st.trace, e);
    var end := RunBatch(cfg, st).1;
    forall k | 0 <= k < cfg.N() ensures SlotRecorded(cfg, end, k) {
      LastFillSnoc(st.trace, e, k);
      assert SlotRecorded(cfg, st, k);
    }
  }

  lemma RecordedFinished<M, S>(cfg: Config<M, S>, st: State<M, S>, i: nat, m: nat)
    requires Recorded(cfg, st) && i < cfg.N() && m < |st.store| && st.nodes[i].Some?
    ensures Recorded(cfg, st.Finished(i, m))
  {
    forall k | 0 <= k < cfg.N() ensures SlotRecorded(cfg, st.Finished(i, m), k) { assert SlotRecorded(cfg, st, k); }
  }

  lemma RecordedReady<M, S>(cfg: Config<M, S>, st: State<M, S>, h: Hook<M>, m: nat, past: seq<Outcome>)
    requires Recorded(cfg, st) && m < |st.store|
    ensures var edited := Edits(h, m, past, st); Recorded(cfg, edited) && Recorded(cfg, HandsOver(h, m, past, edited).1)
  {
    var edited := Edits(h, m, past, st);
    var ready := HandsOver(h, m, past, edited).1;
    forall k | 0 <= k < cfg.N() ensures SlotRecorded(cfg, edited, k) && SlotRecorded(cfg, ready, k) {
      assert SlotRecorded(cfg, st, k);
    }
  }

  ghost predicate FilledBelow<M, S>(i: nat, st: State<M, S>) {
    forall k :: 0 <= k < i && k < |st.specs| ==> st.specs[k].Some?
  }

  /** Whatever the hooks do, slots and batches are what the fillings before them made. */
  lemma {:induction false} StaysRecorded<M, S>(cfg: Config<M, S>, i: nat, j: nat, m: nat, st: State<M, S>)
    requires i < cfg.N() && j <= |cfg.hooks[i]| && m < |st.store| && Recorded(cfg, st) && FilledBelow(i, st)
    ensures Recorded(cfg, Mutate(cfg, i, j, m, st).1)
    decreases cfg.N() - i, |cfg.hooks[i]| - j, 1, 0
  {
    if j < |cfg.hooks[i]| {
      RecordedLog(cfg, st, Enter(i, j));
      StrategyStaysRecorded(cfg, i, j, m, [], st.Log(Enter(i, j)));
      RecordedLog(cfg, Strategy(cfg, i, j, m, [], st.Log(Enter(i, j))).1, Exit(i, j));
    } else {
      CoreStaysRecorded(cfg, i, m, st);
      assert Mutate(cfg, i, j, m, st) == Core(cfg, i, m, st);
    }
  }

  lemma {:induction false} CoreStaysRecorded<M, S>(cfg: Config<M, S>, i: nat, m: nat, st: State<M, S>)
    requires i < cfg.N() && m < |st.store| && Recorded(cfg, st) && FilledBelow(i, st)
    ensures Recorded(cfg, Core(cfg, i, m, st).1)
    decreases cfg.N() - i, 0, 0, 0
  {
    if cfg.check(st.Held(i)) {
      var filled := st.Filled(i, m, cfg.spec(st.store[m].content));
      RecordedFilled(cfg, st, i, m);
      var (o, st') := if i + 1 < cfg.N() then NextBuilder(cfg, i, filled) else RunBatch(cfg, filled);
      if i + 1 < cfg.N() {
        StaysRecorded(cfg, i + 1, 0, filled.held[i + 1], filled);
      } else {
        RecordedBatch(cfg, filled);
      }
      if o == Done { RecordedFinished(cfg, st', i, m); }
    }
  }

  lemma {:induction false} StrategyStaysRecorded<M, S>(cfg: Config<M, S>, i: nat, j: nat, m: nat, past: seq<Outcome>, st: State<M, S>)
    requires i < cfg.N() && j < |cfg.hooks[i]| && |past| <= cfg.hooks[i][j].calls && m < |st.store|
    requires Recorded(cfg, st) && FilledBelow(i, st)
    ensures Recorded(cfg, Strategy(cfg, i, j, m, past, st).1)
    decreases cfg.N() - i, |cfg.hooks[i]| - j, 0, cfg.hooks[i][j].calls - |past|
  {
    var h := cfg.hooks[i][j];
    var edited := Edits(h, m, past, st);
    RecordedReady(cfg, st, h, m, past);
    if CallsOn(h, m, past, edited) {
      var (next, ready) := HandsOver(h, m, past, edited);
      var (o, st') := Mutate(cfg, i, j + 1, next, ready);
      StaysRecorded(cfg, i, j + 1, next, ready);
      StrategyStaysRecorded(cfg, i, j, m, past + [o], st');
    }
  }

  lemma StartRecorded<M, S>(cfg: Config<M, S>, mutations: seq<M>)
    requires |mutations| == cfg.N()
    ensures Recorded(cfg, Start(cfg, mutations))
  {
  }

  /** Whatever the hooks do, every batch of a save has all its specs, each made from the content
      its builder was last filled with. */
  lemma SaveBatchesAreFull<M, S>(cfg: Config<M, S>, mutations: seq<M>)
    requires |mutations| == cfg.N()
    ensures BatchesRecorded(cfg, Save(cfg, mutations).1.trace)
  {
    StartRecorded(cfg, mutations);
    if cfg.N() > 0 { StaysRecorded(cfg, 0, 0, 0, Start(cfg, mutations)); }
  }

  lemma {:induction false} FilledIffTraced<M, S>(trace: seq<Event<M, S>>, k: nat)
    ensures LastFill(trace, k).Some? <==> exists e :: e in trace && e.Fill? && e.builder == k
  {
    if trace != [] {
      var front, last := trace[..|trace| - 1], trace[|trace| - 1];
      FilledIffTraced(front, k);
      assert trace == front + [last];
    }
  }

  /** A successful save reports a nil node for a builder exactly when that builder was never
      filled, because some hook on the way did not call on. */
  lemma NilNodeIffNeverFilled<M, S>(cfg: Config<M, S>, mutations: seq<M>, k: nat)
    requires |mutations| == cfg.N() && k < cfg.N() && Save(cfg, mutations).0.Created?
    ensures |Save(cfg, mutations).0.nodes| == cfg.N()
    ensures Save(cfg, mutations).0.nodes[k] == None <==>
            forall e :: e in Save(cfg, mutations).1.trace && e.Fill? ==> e.builder != k
  {
    var st := Start(cfg, mutations);
    StartRecorded(cfg, mutations);
    StaysRecorded(cfg, 0, 0, 0, st);
    var end := Mutate(cfg, 0, 0, 0, st).1;
    assert SlotRecorded(cfg, end, k);
    FilledIffTraced(end.trace, k);
  }

  // ---------- any hooks: calls are nested ----------

  /** What a call appended to the trace. */
  function News<M, S>(a: State<M, S>, b: State<M, S>): seq<Event<M, S>>
    requires |a.trace| <= |b.trace|
  {
    b.trace[|a.trace|..]
  }

  /** Runs a trace against a stack of open hooks: an exit must close the hook opened last. */
  function Unwind<M, S>(open: seq<(nat, nat)>, trace: seq<Event<M, S>>): Option<seq<(nat, nat)>>
    decreases |trace|
  {
    if trace == [] then Some(open)
    else match trace[0]
      case Enter(i, j) => Unwind(open + [(i, j)], trace[1..])
      case Exit(i, j) =>
        if open != [] && open[|open| - 1] == (i, j) then Unwind(open[..|open| - 1], trace[1..]) else None
      case _ => Unwind(open, trace[1..])
  }

  lemma {:induction false} UnwindAppend<M, S>(open: seq<(nat, nat)>, a: seq<Event<M, S>>, b: seq<Event<M, S>>)
    requires Unwind(open, a).Some?
    ensures Unwind(open, a + b) == Unwind(Unwind(open, a).value, b)
    decreases |a|
  {
    if a == [] {
      assert a + b == b;
    } else {
      assert (a + b)[1..] == a[1..] + b;
      match a[0]
      case Enter(i, j) => UnwindAppend(open + [(i, j)], a[1..], b);
      case Exit(i, j) => UnwindAppend(open[..|open| - 1], a[1..], b);
      case _ => UnwindAppend(open, a[1..], b);
    }
  }

  ghost predicate Nested<M, S>(events: seq<Event<M, S>>) {
    forall open :: Unwind(open, events) == Some(open)
  }

  lemma NestedAppend<M, S>(a: seq<Event<M, S>>, b: seq<Event<M, S>>)
    requires Nested(a) && Nested(b)
    ensures Nested(a + b)
  {
    forall open ensures Unwind(open, a + b) == Some(open) { UnwindAppend(open, a, b); }
  }

  lemma NestedWrap<M, S>(i: nat, j: nat, a: seq<Event<M, S>>)
    requires Nested(a)
    ensures Nested([Enter(i, j)] + a + [Exit(i, j)])
  {
    forall open ensures Unwind(open, [Enter(i, j)] + a + [Exit(i, j)]) == Some(open) {
      var inner := open + [(i, j)];
      assert ([Enter(i, j)] + a + [Exit(i, j)])[1..] == a + [Exit(i, j)];
      UnwindAppend(inner, a, [Exit(i, j)]);
      assert Unwind(inner, a) == Some(inner);
      var last: seq<Event<M, S>> := [Exit(i, j)];
      assert last[1..] == [] && inner[..|inner| - 1] == open;
    }
  }

  lemma NestedNeutral<M, S>(e: Event<M, S>)
    requires e.Fill? || e.Batch?
    ensures Nested([e])
  {
    assert [e][1..] == [];
  }

  /** Whatever the hooks do, entries and exits are well nested. */
  lemma {:induction false} CallsNest<M, S>(cfg: Config<M, S>, i: nat, j: nat, m: nat, st: State<M, S>)
    requires i < cfg.N() && j <= |cfg.hooks[i]| && st.Sized(cfg.N()) && m < |st.store|
    ensures Nested(News(st, Mutate(cfg, i, j, m, st).1))
    decreases cfg.N() - i, |cfg.hooks[i]| - j, 1, 0
  {
    var end := Mutate(cfg, i, j, m, st).1;
    if j < |cfg.hooks[i]| {
      var entered := st.Log(Enter(i, j));
      StrategyNests(cfg, i, j, m, [], entered);
      var inner := Strategy(cfg, i, j, m, [], entered).1;
      NestedWrap<M, S>(i, j, News(entered, inner));
      assert News(st, end) == [Enter(i, j)] + News(entered, inner) + [Exit(i, j)];
    } else {
      CoreNests(cfg, i, m, st);
      assert end == Core(cfg, i, m, st).1;
    }
  }

  lemma {:induction false} CoreNests<M, S>(cfg: Config<M, S>, i: nat, m: nat, st: State<M, S>)
    requires i < cfg.N() && st.Sized(cfg.N()) && m < |st.store|
    ensures Nested(News(st, Core(cfg, i, m, st).1))
    decreases cfg.N() - i, 0, 0, 0
  {
    var end := Core(cfg, i, m, st).1;
    if !cfg.check(st.Held(i)) {
      assert News(st, end) == [];
    } else {
      var filled := st.Filled(i, m, cfg.spec(st.store[m].content));
      var fill: seq<Event<M, S>> := [Fill(i, st.store[m].content)];
      NestedNeutral(fill[0]);
      assert [fill[0]] == fill;
      if i + 1 < cfg.N() {
        CallsNest(cfg, i + 1, 0, filled.held[i + 1], filled);
        var rest := News(filled, NextBuilder(cfg, i, filled).1);
        assert News(st, end) == fill + rest;
        NestedAppend(fill, rest);
      } else {
        NestedNeutral<M, S>(Batch(filled.specs));
        assert News(st, end) == fill + [Batch(filled.specs)];
        NestedAppend(fill, [Batch(filled.specs)]);
      }
    }
  }

  lemma {:induction false} StrategyNests<M, S>(cfg: Config<M, S>, i: nat, j: nat, m: nat, past: seq<Outcome>, st: State<M, S>)
    requires i < cfg.N() && j < |cfg.hooks[i]| && |past| <= cfg.hooks[i][j].calls && st.Sized(cfg.N()) && m < |st.store|
    ensures Nested(News(st, Strategy(cfg, i, j, m, past, st).1))
    decreases cfg.N() - i, |cfg.hooks[i]| - j, 0, cfg.hooks[i][j].calls - |past|
  {
    var h, end := cfg.hooks[i][j], Strategy(cfg, i, j, m, past, st).1;
    var edited := Edits(h, m, past, st);
    if CallsOn(h, m, past, edited) {
      var (next, ready) := HandsOver(h, m, past, edited);
      var (o, st') := Mutate(cfg, i, j + 1, next, ready);
      CallsNest(cfg, i, j + 1, next, ready);
      StrategyNests(cfg, i, j, m, past + [o], st');
      assert News(st, end) == News(ready, st') + News(st', end);
      NestedAppend(News(ready, st'), News(st', end));
    } else {
      assert News(st, end) == [];
    }
  }

  // ---------- hooks that call on at most once ----------

  function IsWork<M, S>(): Event<M, S> -> bool {
    (e: Event<M, S>) => e.Fill? || e.Batch?
  }

  /** The fills and batches among some events. */
  function Work<M, S>(events: seq<Event<M, S>>): seq<Event<M, S>> {
    Filter(IsWork<M, S>(), events)
  }

  /** A prefix of: fill builder i, fill builder i + 1, ..., fill the last builder and run the batch. */
  ghost predicate PlanPrefix<M, S>(cfg: Config<M, S>, i: nat, work: seq<Event<M, S>>)
    requires i < cfg.N()
    decreases cfg.N() - i
  {
    work == []
    || (work[0].Fill? && work[0].builder == i
        && if i + 1 < cfg.N() then PlanPrefix(cfg, i + 1, work[1..]) else |work| == 2 && work[1].Batch?)
  }

  lemma WorkWrap<M, S>(i: nat, j: nat, a: seq<Event<M, S>>)
    ensures Work([Enter(i, j)] + a + [Exit(i, j)]) == Work(a)
  {
    var entered: seq<Event<M, S>> := [Enter(i, j)];
    var exited: seq<Event<M, S>> := [Exit(i, j)];
    FilterAppend(IsWork<M, S>(), entered + a, exited);
    FilterAppend(IsWork<M, S>(), entered, a);
    FilterNone(IsWork<M, S>(), entered);
    FilterNone(IsWork<M, S>(), exited);
  }

  /** Builders are filled in order, each at most once, and the batch comes after the last one. */
  lemma {:induction false} WorkInOrder<M, S>(cfg: Config<M, S>, i: nat, j: nat, m: nat, st: State<M, S>)
    requires AtMostOnce(cfg) && i < cfg.N() && j <= |cfg.hooks[i]| && st.Sized(cfg.N()) && m < |st.store|
    ensures PlanPrefix(cfg, i, Work(News(st, Mutate(cfg, i, j, m, st).1)))
    decreases cfg.N() - i, |cfg.hooks[i]| - j, 1
  {
    if j < |cfg.hooks[i]| {
      var entered := st.Log(Enter(i, j));
      var inner := Strategy(cfg, i, j, m, [], entered).1;
      assert News(st, Mutate(cfg, i, j, m, st).1) == [Enter(i, j)] + News(entered, inner) + [Exit(i, j)];
      WorkWrap(i, j, News(entered, inner));
      HookInOrder(cfg, i, j, m, entered);
    } else {
      assert Mutate(cfg, i, j, m, st) == Core(cfg, i, m, st);
      CoreInOrder(cfg, i, m, st);
    }
  }

  lemma {:induction false} HookInOrder<M, S>(cfg: Config<M, S>, i: nat, j: nat, m: nat, st: State<M, S>)
    requires AtMostOnce(cfg) && i < cfg.N() && j < |cfg.hooks[i]| && st.Sized(cfg.N()) && m < |st.store|
    ensures PlanPrefix(cfg, i, Work(News(st, Strategy(cfg, i, j, m, [], st).1)))
    decreases cfg.N() - i, |cfg.hooks[i]| - j, 0
  {
    OneCall(cfg, i, j, m, st);
    var h := cfg.hooks[i][j];
    var edited := Edits(h, m, [], st);
    if CallsOn(h, m, [], edited) {
      var (next, ready) := HandsOver(h, m, [], edited);
      WorkInOrder(cfg, i, j + 1, next, ready);
      assert News(st, Strategy(cfg, i, j, m, [], st).1) == News(ready, Mutate(cfg, i, j + 1, next, ready).1);
    }
  }

  /** A hook that calls on at most once adds nothing to what its one call does. */
  lemma OneCall<M, S>(cfg: Config<M, S>, i: nat, j: nat, m: nat, st: State<M, S>)
    requires AtMostOnce(cfg) && i < cfg.N() && j < |cfg.hooks[i]| && st.Sized(cfg.N()) && m < |st.store|
    ensures var h := cfg.hooks[i][j];
            var edited, end := Edits(h, m, [], st), Strategy(cfg, i, j, m, [], st).1;
            if CallsOn(h, m, [], edited) then
              var (next, ready) := HandsOver(h, m, [], edited);
              end.trace == Mutate(cfg, i, j + 1, next, ready).1.trace
            else News(st, end) == []
  {
    var h := cfg.hooks[i][j];
    var edited := Edits(h, m, [], st);
    if CallsOn(h, m, [], edited) {
      var (next, ready) := HandsOver(h, m, [], edited);
      var (o, st') := Mutate(cfg, i, j + 1, next, ready);
      assert [] + [o] == [o];
      assert Strategy(cfg, i, j, m, [], st) == Strategy(cfg, i, j, m, [o], st');
      assert h.calls <= 1;
    }
  }

  lemma {:induction false} CoreInOrder<M, S>(cfg: Config<M, S>, i: nat, m: nat, st: State<M, S>)
    requires AtMostOnce(cfg) && i < cfg.N() && st.Sized(cfg.N()) && m < |st.store|
    ensures PlanPrefix(cfg, i, Work(News(st, Core(cfg, i, m, st).1)))
    decreases cfg.N() - i, 0, 0
  {
    var end := Core(cfg, i, m, st).1;
    if !cfg.check(st.Held(i)) {
      assert News(st, end) == [];
    } else {
      var filled := st.Filled(i, m, cfg.spec(st.store[m].content));
      var fill: Event<M, S> := Fill(i, st.store[m].content);
      if i + 1 < cfg.N() {
        var rest := News(filled, NextBuilder(cfg, i, filled).1);
        assert News(st, end) == [fill] + rest;
        WorkInOrder(cfg, i + 1, 0, filled.held[i + 1], filled);
        FilterCons(IsWork<M, S>(), fill, rest);
      } else {
        assert News(st, end) == [fill] + [Batch(filled.specs)];
        FilterCons(IsWork<M, S>(), fill, [Batch(filled.specs)]);
        FilterCons(IsWork<M, S>(), Batch(filled.specs), []);
      }
    }
  }

  lemma SaveWorkInOrder<M, S>(cfg: Config<M, S>, mutations: seq<M>)
    requires |mutations| == cfg.N() > 0 && AtMostOnce(cfg)
    ensures PlanPrefix(cfg, 0, Work(Save(cfg, mutations).1.trace))
  {
    WorkInOrder(cfg, 0, 0, 0, Start(cfg, mutations));
    assert News(Start(cfg, mutations), Save(cfg, mutations).1) == Save(cfg, mutations).1.trace;
  }

  // ---------- what validation sees ----------

  /** Whenever the last hook of a builder calls on: the slot is filled, from what the hook hands
      over, exactly if validation accepts what the builder's own object says by then. Handing over
      that very object, however edited, means that the two are one content; a new object is
      installed whatever validation would say of it. */
  lemma LastHookFills<M, S>(cfg: Config<M, S>, i: nat, m: nat, past: seq<Outcome>, st: State<M, S>)
    requires i < cfg.N() && st.Sized(cfg.N()) && m < |st.store| && cfg.hooks[i] != []
    ensures var j := |cfg.hooks[i]| - 1;
            var h := cfg.hooks[i][j];
            var edited := Edits(h, m, past, st);
            var (next, ready) := HandsOver(h, m, past, edited);
            var inner, content := Mutate(cfg, i, j + 1, next, ready), ready.store[next].content;
            && (ready.trace + [Fill(i, content)] <= inner.1.trace <==> cfg.check(edited.Held(i)))
            && (!cfg.check(edited.Held(i)) ==> inner == (Failed(CheckFailed(i)), ready))
            && (m == st.held[i] ==> edited.Held(i) == h.edit(st.Held(i), past))
            && match h.pass(edited.store[m].content, past)
               case Own => m == st.held[i] ==> content == edited.Held(i)
               case Fresh(other) => content == other
  {
    var h := cfg.hooks[i][|cfg.hooks[i]| - 1];
    var edited := Edits(h, m, past, st);
    var (next, ready) := HandsOver(h, m, past, edited);
    assert ready.Held(i) == edited.Held(i);
    assert Mutate(cfg, i, |cfg.hooks[i]|, next, ready) == Core(cfg, i, next, ready);
    CoreFillsIff(cfg, i, next, ready);
  }

  /** A call of a core fills the slot exactly if validation accepts what the builder holds. */
  lemma CoreFillsIff<M, S>(cfg: Config<M, S>, i: nat, m: nat, st: State<M, S>)
    requires i < cfg.N() && st.Sized(cfg.N()) && m < |st.store|
    ensures var inner, fill := Core(cfg, i, m, st), Event<M, S>.Fill(i, st.store[m].content);
            && (st.trace + [fill] <= inner.1.trace <==> cfg.check(st.Held(i)))
            && (!cfg.check(st.Held(i)) ==> inner == (Failed(CheckFailed(i)), st))
  {
    if cfg.check(st.Held(i)) {
      assert Later(st.Filled(i, m, cfg.spec(st.store[m].content)), Core(cfg, i, m, st).1);
    }
  }

  /** What the rest of the chain cannot touch: the objects, specs and nodes of earlier builders, and
      their ids unless a batch runs. */
  ghost predicate SameBelow<M, S>(i: nat, a: State<M, S>, b: State<M, S>) {
    && |a.held| == |b.held| && |a.specs| == |b.specs| && |a.nodes| == |b.nodes| && |a.ids| == |b.ids| && a.batches <= b.batches
    && (forall k :: 0 <= k < i && k < |a.held| ==> b.held[k] == a.held[k])
    && (forall k :: 0 <= k < i && k < |a.specs| ==> b.specs[k] == a.specs[k])
    && (forall k :: 0 <= k < i && k < |a.nodes| ==> b.nodes[k] == a.nodes[k])
    && (a.batches == b.batches ==> forall k :: 0 <= k < i && k < |a.ids| ==> b.ids[k] == a.ids[k])
  }

  lemma {:induction false} BelowStays<M, S>(cfg: Config<M, S>, i: nat, j: nat, m: nat, st: State<M, S>)
    requires i < cfg.N() && j <= |cfg.hooks[i]| && st.Sized(cfg.N()) && m < |st.store|
    ensures SameBelow(i, st, Mutate(cfg, i, j, m, st).1)
    decreases cfg.N() - i, |cfg.hooks[i]| - j, 1, 0
  {
    if j < |cfg.hooks[i]| {
      StrategyBelowStays(cfg, i, j, m, [], st.Log(Enter(i, j)));
    } else {
      assert Mutate(cfg, i, j, m, st) == Core(cfg, i, m, st);
      if cfg.check(st.Held(i)) { RestStays(cfg, i, m, st); }
    }
  }

  /** What follows a filling leaves it in place. */
  lemma {:induction false} RestStays<M, S>(cfg: Config<M, S>, i: nat, m: nat, st: State<M, S>)
    requires i < cfg.N() && st.Sized(cfg.N()) && m < |st.store|
    ensures var filled := st.Filled(i, m, cfg.spec(st.store[m].content));
            SameBelow(i + 1, filled, (if i + 1 < cfg.N() then NextBuilder(cfg, i, filled) else RunBatch(cfg, filled)).1)
    decreases cfg.N() - i, 0, 0, 0
  {
    var filled := st.Filled(i, m, cfg.spec(st.store[m].content));
    if i + 1 < cfg.N() { BelowStays(cfg, i + 1, 0, filled.held[i + 1], filled); }
  }

  lemma {:induction false} StrategyBelowStays<M, S>(cfg: Config<M, S>, i: nat, j: nat, m: nat, past: seq<Outcome>, st: State<M, S>)
    requires i < cfg.N() && j < |cfg.hooks[i]| && |past| <= cfg.hooks[i][j].calls && st.Sized(cfg.N()) && m < |st.store|
    ensures SameBelow(i, st, Strategy(cfg, i, j, m, past, st).1)
    decreases cfg.N() - i, |cfg.hooks[i]| - j, 0, cfg.hooks[i][j].calls - |past|
  {
    var h := cfg.hooks[i][j];
    var edited := Edits(h, m, past, st);
    if CallsOn(h, m, past, edited) {
      var (next, ready) := HandsOver(h, m, past, edited);
      var (o, st') := Mutate(cfg, i, j + 1, next, ready);
      BelowStays(cfg, i, j + 1, next, ready);
      StrategyBelowStays(cfg, i, j, m, past + [o], st');
    }
  }

  /** An accepted call installs what it was given: the builder holds that object and the spec and
      node made from its content then; if the call succeeds, the object is done and the node has
      the id that its spec has got, which is none unless a batch ran. */
  lemma AcceptedCallInstalls<M, S>(cfg: Config<M, S>, i: nat, m: nat, st: State<M, S>)
    requires i < cfg.N() && st.Sized(cfg.N()) && m < |st.store| && cfg.check(st.store[st.held[i]].content)
    ensures var (o, end) := Mutate(cfg, i, |cfg.hooks[i]|, m, st);
            && end.held[i] == m && end.specs[i] == Some(cfg.spec(st.store[m].content))
            && end.nodes[i].Some? && end.nodes[i].value.content == cfg.spec(st.store[m].content)
            && (o == Done ==> end.store[m].done && end.nodes[i].value.id == if end.ids[i].Some? then end.ids[i].value else 0)
            && (end.batches == st.batches ==> end.ids[i] == None)
  {
    assert Mutate(cfg, i, |cfg.hooks[i]|, m, st) == Core(cfg, i, m, st);
    RestStays(cfg, i, m, st);
  }

  /** Every hook hands on the object it was given, whatever it writes into it. */
  ghost predicate OwnOnly<M(!new), S>(cfg: Config<M, S>) {
    forall i, j :: 0 <= i < cfg.N() && 0 <= j < |cfg.hooks[i]| ==>
      forall c, past :: cfg.hooks[i][j].pass(c, past) == Own
  }

  ghost predicate FillAccepted<M, S>(cfg: Config<M, S>, e: Event<M, S>) {
    e.Fill? ==> cfg.check(e.content)
  }

  ghost predicate FillsAccepted<M, S>(cfg: Config<M, S>, trace: seq<Event<M, S>>) {
    forall e :: e in trace ==> FillAccepted(cfg, e)
  }

  ghost predicate SpecAccepted<M(!new), S>(cfg: Config<M, S>, spec: Option<S>) {
    exists c :: cfg.check(c) && spec == Some(cfg.spec(c))
  }

  /** Own hooks never change which object a builder holds, and keep fillings accepted. */
  lemma {:induction false} OwnIsChecked<M(!new), S>(cfg: Config<M, S>, i: nat, j: nat, st: State<M, S>)
    requires OwnOnly(cfg) && i < cfg.N() && j <= |cfg.hooks[i]| && st.Sized(cfg.N())
    ensures var end := Mutate(cfg, i, j, st.held[i], st).1;
            end.held == st.held && (FillsAccepted(cfg, st.trace) ==> FillsAccepted(cfg, end.trace))
    decreases cfg.N() - i, |cfg.hooks[i]| - j, 1, 0
  {
    if j < |cfg.hooks[i]| {
      StrategyOwnIsChecked(cfg, i, j, [], st.Log(Enter(i, j)));
    } else {
      assert Mutate(cfg, i, j, st.held[i], st) == Core(cfg, i, st.held[i], st);
      if cfg.check(st.Held(i)) {
        var filled := st.Filled(i, st.held[i], cfg.spec(st.Held(i)));
        assert filled.held == st.held && (FillsAccepted(cfg, st.trace) ==> FillsAccepted(cfg, filled.trace));
        if i + 1 < cfg.N() { OwnIsChecked(cfg, i + 1, 0, filled); }
      }
    }
  }

  lemma {:induction false} StrategyOwnIsChecked<M(!new), S>(cfg: Config<M, S>, i: nat, j: nat, past: seq<Outcome>, st: State<M, S>)
    requires OwnOnly(cfg) && i < cfg.N() && j < |cfg.hooks[i]| && |past| <= cfg.hooks[i][j].calls
    requires st.Sized(cfg.N())
    ensures var end := Strategy(cfg, i, j, st.held[i], past, st).1;
            end.held == st.held && (FillsAccepted(cfg, st.trace) ==> FillsAccepted(cfg, end.trace))
    decreases cfg.N() - i, |cfg.hooks[i]| - j, 0, cfg.hooks[i][j].calls - |past|
  {
    var h, m := cfg.hooks[i][j], st.held[i];
    var edited := Edits(h, m, past, st);
    if CallsOn(h, m, past, edited) {
      assert h.pass(edited.store[m].content, past) == Own;
      var (o, st') := Mutate(cfg, i, j + 1, m, edited);
      OwnIsChecked(cfg, i, j + 1, edited);
      StrategyOwnIsChecked(cfg, i, j, past + [o], st');
    }
  }

  /** While hooks hand on their own object, editing it as they like, every slot is filled from
      content that validation accepted just before, and so every spec of every batch. */
  lemma SaveOwnIsChecked<M(!new), S>(cfg: Config<M, S>, mutations: seq<M>)
    requires |mutations| == cfg.N() && OwnOnly(cfg)
    ensures FillsAccepted(cfg, Save(cfg, mutations).1.trace)
    ensures forall e, k :: e in Save(cfg, mutations).1.trace && e.Batch? && 0 <= k < |e.specs| ==>
              SpecAccepted(cfg, e.specs[k])
  {
    SaveBatchesAreFull(cfg, mutations);
    if cfg.N() > 0 { OwnIsChecked(cfg, 0, 0, Start(cfg, mutations)); }
    var trace := Save(cfg, mutations).1.trace;
    forall e, k | e in trace && e.Batch? && 0 <= k < |e.specs|
      ensures SpecAccepted(cfg, e.specs[k])
    {
      var p :| 0 <= p < |trace| && trace[p] == e;
      assert BatchRecorded(cfg, trace[..p], trace[p]);
      LastFillIn(trace[..p], k);
      var c := LastFill(trace[..p], k).value;
      assert Fill(k, c) in trace && FillAccepted(cfg, Event<M, S>.Fill(k, c));
    }
  }

  lemma {:induction false} LastFillIn<M, S>(trace: seq<Event<M, S>>, k: nat)
    ensures LastFill(trace, k).Some? ==> Fill(k, LastFill(trace, k).value) in trace
  {
    if trace != [] {
      LastFillIn(trace[..|trace| - 1], k);
      assert trace == trace[..|trace| - 1] + [trace[|trace| - 1]];
    }
  }

  // ---------- one builder behind one hook ----------

  /** The object that the builder holds while its one hook has not filled the slot. */
  lemma AloneCall<M, S>(cfg: Config<M, S>, past: seq<Outcome>, st: State<M, S>)
    requires cfg.N() == 1 && |cfg.hooks[0]| == 1 && st.Sized(1) && |past| < cfg.hooks[0][0].calls
    requires cfg.hooks[0][0].again(cfg.hooks[0][0].edit(st.Held(0), past), past)
    ensures var h := cfg.hooks[0][0];
            var c := h.edit(st.Held(0), past);
            var ready := HandsOver(h, st.held[0], past, Edits(h, st.held[0], past, st));
            var (o, st') := Mutate(cfg, 0, 1, ready.0, ready.1);
            && Strategy(cfg, 0, 0, st.held[0], past, st) == Strategy(cfg, 0, 0, st.held[0], past + [o], st')
            && (o, st') == Core(cfg, 0, ready.0, ready.1) && ready.1.Held(0) == c
            && ready.1.trace == st.trace && ready.1.nodes == st.nodes
  {
  }

  /** A hook with a substitute gets it into the batch although validation rejects it. */
  lemma SubstituteIsNotChecked<M, S>(cfg: Config<M, S>, m: M, bad: M)
    requires cfg.N() == 1 && |cfg.hooks[0]| == 1 && cfg.hooks[0][0].calls > 0 && !cfg.check(bad)
    requires var c := cfg.hooks[0][0].edit(cfg.defaults(m), []);
             cfg.check(c) && cfg.hooks[0][0].again(c, []) && cfg.hooks[0][0].pass(c, []) == Fresh(bad)
    ensures Batch([Some(cfg.spec(bad))]) in Save(cfg, [m]).1.trace
  {
    var st, h := Start(cfg, [m]), cfg.hooks[0][0];
    var entered := st.Log(Enter(0, 0));
    AloneCall(cfg, [], entered);
    var ready := HandsOver(h, 0, [], Edits(h, 0, [], entered));
    var (o, st') := Mutate(cfg, 0, 1, ready.0, ready.1);
    var e: Event<M, S> := Batch([Some(cfg.spec(bad))]);
    assert ready.1.Filled(0, ready.0, cfg.spec(bad)).specs == [Some(cfg.spec(bad))];
    assert e in st'.trace;
    assert [] + [o] == [o];
    assert st'.trace <= Strategy(cfg, 0, 0, 0, [o], st').1.trace;
  }

  /** A hook that edits the object in place and hands it on once: what it wrote reaches the batch
      exactly if validation accepts it, whether it repaired the mutation or spoilt it. */
  lemma EditIsChecked<M, S>(cfg: Config<M, S>, m: M)
    requires cfg.N() == 1 && |cfg.hooks[0]| == 1 && cfg.hooks[0][0].calls == 1
    requires var c := cfg.hooks[0][0].edit(cfg.defaults(m), []);
             cfg.hooks[0][0].again(c, []) && cfg.hooks[0][0].pass(c, []) == Own
    ensures var c := cfg.hooks[0][0].edit(cfg.defaults(m), []);
            if cfg.check(c) then Batch([Some(cfg.spec(c))]) in Save(cfg, [m]).1.trace
            else Save(cfg, [m]).1.batches == 0
  {
    var st, h := Start(cfg, [m]), cfg.hooks[0][0];
    var entered := st.Log(Enter(0, 0));
    var c := h.edit(cfg.defaults(m), []);
    AloneCall(cfg, [], entered);
    var ready := HandsOver(h, 0, [], Edits(h, 0, [], entered));
    var (o, st') := Mutate(cfg, 0, 1, ready.0, ready.1);
    assert [] + [o] == [o];
    if cfg.check(c) {
      var e: Event<M, S> := Batch([Some(cfg.spec(c))]);
      assert ready.1.Filled(0, ready.0, cfg.spec(c)).specs == [Some(cfg.spec(c))];
      assert e in st'.trace;
      assert st'.trace <= Strategy(cfg, 0, 0, 0, [o], st').1.trace;
    }
  }

  /** The hook ends with success although validation rejected every object it called on with, or
      without calling on at all. */
  predicate ClaimsSuccess<M, S>(cfg: Config<M, S>, h: Hook<M>, content: M, past: seq<Outcome>)
    decreases if |past| < h.calls then h.calls - |past| else 0
  {
    var c := h.edit(content, past);
    if |past| < h.calls && h.again(c, past)
    then !cfg.check(c) && ClaimsSuccess(cfg, h, c, past + [Failed(CheckFailed(0))])
    else h.result(c, past) == Done
  }

  lemma CoreFills<M, S>(cfg: Config<M, S>, i: nat, m: nat, st: State<M, S>)
    requires i < cfg.N() && st.Sized(cfg.N()) && m < |st.store| && cfg.check(st.Held(i))
    ensures Core(cfg, i, m, st).1.nodes[i].Some?
  {
    var filled := st.Filled(i, m, cfg.spec(st.store[m].content));
    var st' := if i + 1 < cfg.N() then NextBuilder(cfg, i, filled).1 else RunBatch(cfg, filled).1;
    assert Later(filled, st');
  }

  /** A filled slot stays filled whatever the hook does next. */
  lemma StaysFilled<M, S>(cfg: Config<M, S>, m: nat, past: seq<Outcome>, st: State<M, S>)
    requires cfg.N() == 1 && |cfg.hooks[0]| == 1 && st.Sized(1) && m < |st.store| && |past| <= cfg.hooks[0][0].calls
    requires st.nodes[0].Some?
    ensures Strategy(cfg, 0, 0, m, past, st).1.nodes[0].Some?
  {
    assert Later(st, Strategy(cfg, 0, 0, m, past, st).1);
  }

  /** Once a call is accepted, the slot is filled for good. */
  lemma AloneFills<M, S>(cfg: Config<M, S>, past: seq<Outcome>, st: State<M, S>)
    requires cfg.N() == 1 && |cfg.hooks[0]| == 1 && st.Sized(1) && |past| < cfg.hooks[0][0].calls
    requires var c := cfg.hooks[0][0].edit(st.Held(0), past); cfg.hooks[0][0].again(c, past) && cfg.check(c)
    ensures Strategy(cfg, 0, 0, st.held[0], past, st).1.nodes[0].Some?
  {
    AloneCall(cfg, past, st);
    var h := cfg.hooks[0][0];
    var (next, ready) := HandsOver(h, st.held[0], past, Edits(h, st.held[0], past, st));
    var (o, st') := Mutate(cfg, 0, 1, next, ready);
    CoreFills(cfg, 0, next, ready);
    StaysFilled(cfg, st.held[0], past + [o], st');
  }

  lemma {:induction false} AloneNeverFills<M, S>(cfg: Config<M, S>, past: seq<Outcome>, st: State<M, S>)
    requires cfg.N() == 1 && |cfg.hooks[0]| == 1 && st.Sized(1) && st.nodes == [None]
    requires |past| <= cfg.hooks[0][0].calls
    ensures var (o, end) := Strategy(cfg, 0, 0, st.held[0], past, st);
            o == Done && end.nodes == [None] <==> ClaimsSuccess(cfg, cfg.hooks[0][0], st.Held(0), past)
    decreases cfg.hooks[0][0].calls - |past|
  {
    var h := cfg.hooks[0][0];
    var c := h.edit(st.Held(0), past);
    if |past| < h.calls && h.again(c, past) {
      if cfg.check(c) {
        AloneFills(cfg, past, st);
      } else {
        AloneCall(cfg, past, st);
        var ready := HandsOver(h, st.held[0], past, Edits(h, st.held[0], past, st));
        AloneNeverFills(cfg, past + [Failed(CheckFailed(0))], ready.1);
      }
    } else {
      assert Edits(h, st.held[0], past, st).nodes == st.nodes;
    }
  }

  /** For one builder behind one hook: the save succeeds with a nil node if and only if the hook
      claims success. */
  lemma NilNodeIffClaimed<M, S>(cfg: Config<M, S>, m: M)
    requires cfg.N() == 1 && |cfg.hooks[0]| == 1
    ensures Save(cfg, [m]).0 == Created([None]) <==> ClaimsSuccess(cfg, cfg.hooks[0][0], cfg.defaults(m), [])
    ensures var h := cfg.hooks[0][0];
            var c := h.edit(cfg.defaults(m), []);
            cfg.check(c) ==>
              (Save(cfg, [m]).0 == Created([None]) <==> !(h.calls > 0 && h.again(c, [])) && h.result(c, []) == Done)
  {
    var entered := Start(cfg, [m]).Log(Enter(0, 0));
    AloneNeverFills(cfg, [], entered);
    assert entered.nodes == [None];
  }

  // ---------- hooks that do not claim success on their own ----------

  ghost predicate Honest<M(!new), S>(cfg: Config<M, S>) {
    forall i, j :: 0 <= i < cfg.N() && 0 <= j < |cfg.hooks[i]| ==>
      forall c, past :: cfg.hooks[i][j].result(c, past) == Done ==> Done in past
  }

  /** Builders from i on are created: with a node, a spec, and, when all hooks hand on
      their own object, that object marked done. */
  ghost predicate CreatedFrom<M, S>(own: bool, i: nat, st: State<M, S>) {
    st.Sized(|st.held|) && forall k :: i <= k < |st.held| ==>
      st.nodes[k].Some? && st.specs[k].Some? && (own ==> st.store[st.held[k]].done)
  }

  lemma {:induction false} DoneMeansCreated<M(!new), S>(cfg: Config<M, S>, own: bool, i: nat, j: nat, m: nat, st: State<M, S>)
    requires Honest(cfg) && i < cfg.N() && j <= |cfg.hooks[i]| && st.Sized(cfg.N()) && m < |st.store|
    requires own ==> OwnOnly(cfg) && m == st.held[i]
    ensures var (o, end) := Mutate(cfg, i, j, m, st); o == Done ==> CreatedFrom(own, i, end) && st.batches < end.batches
    decreases cfg.N() - i, |cfg.hooks[i]| - j, 1, 0
  {
    if j < |cfg.hooks[i]| {
      StrategyDoneMeansCreated(cfg, own, i, j, m, [], st.Log(Enter(i, j)), st.batches);
    } else {
      assert Mutate(cfg, i, j, m, st) == Core(cfg, i, m, st);
      CoreDoneMeansCreated(cfg, own, i, m, st);
    }
  }

  lemma {:induction false} CoreDoneMeansCreated<M(!new), S>(cfg: Config<M, S>, own: bool, i: nat, m: nat, st: State<M, S>)
    requires Honest(cfg) && i < cfg.N() && st.Sized(cfg.N()) && m < |st.store|
    requires own ==> OwnOnly(cfg) && m == st.held[i]
    ensures var (o, end) := Core(cfg, i, m, st); o == Done ==> CreatedFrom(own, i, end) && st.batches < end.batches
    decreases cfg.N() - i, 0, 0, 0
  {
    if cfg.check(st.Held(i)) {
      var filled := st.Filled(i, m, cfg.spec(st.store[m].content));
      var (o, st') := if i + 1 < cfg.N() then NextBuilder(cfg, i, filled) else RunBatch(cfg, filled);
      NextMeansCreated(cfg, own, i, m, st);
      if o == Done { FinishedCreated(own, i, m, st'); }
    }
  }

  /** What the rest of the chain has done when it succeeds. */
  lemma {:induction false} NextMeansCreated<M(!new), S>(cfg: Config<M, S>, own: bool, i: nat, m: nat, st: State<M, S>)
    requires Honest(cfg) && i < cfg.N() && st.Sized(cfg.N()) && m < |st.store| && (own ==> OwnOnly(cfg) && m == st.held[i])
    ensures var filled := st.Filled(i, m, cfg.spec(st.store[m].content));
            var (o, st') := if i + 1 < cfg.N() then NextBuilder(cfg, i, filled) else RunBatch(cfg, filled);
            && st'.nodes[i].Some? && st'.specs[i].Some? && (own ==> st'.held[i] == m)
            && (o == Done ==> CreatedFrom(own, i + 1, st') && st.batches < st'.batches)
    decreases cfg.N() - i - 1, |cfg.hooks[if i + 1 < cfg.N() then i + 1 else i]|, 2, 0
  {
    var filled := st.Filled(i, m, cfg.spec(st.store[m].content));
    if i + 1 < cfg.N() {
      DoneMeansCreated(cfg, own, i + 1, 0, filled.held[i + 1], filled);
      if own { OwnIsChecked(cfg, i + 1, 0, filled); }
      assert Later(filled, NextBuilder(cfg, i, filled).1);
    } else {
      assert Later(filled, RunBatch(cfg, filled).1);
    }
  }

  lemma FinishedCreated<M, S>(own: bool, i: nat, m: nat, st: State<M, S>)
    requires i < |st.held| && st.Sized(|st.held|) && m < |st.store| && CreatedFrom(own, i + 1, st)
    requires st.nodes[i].Some? && st.specs[i].Some? && (own ==> st.held[i] == m)
    ensures CreatedFrom(own, i, st.Finished(i, m))
  {
  }

  lemma {:induction false} StrategyDoneMeansCreated<M(!new), S>(cfg: Config<M, S>, own: bool, i: nat, j: nat, m: nat, past: seq<Outcome>,
                                                                st: State<M, S>, before: nat)
    requires Honest(cfg) && i < cfg.N() && j < |cfg.hooks[i]| && |past| <= cfg.hooks[i][j].calls
    requires st.Sized(cfg.N()) && m < |st.store| && (own ==> OwnOnly(cfg) && m == st.held[i])
    requires before <= st.batches && (Done in past ==> CreatedFrom(own, i, st) && before < st.batches)
    ensures var (o, end) := Strategy(cfg, i, j, m, past, st); o == Done ==> CreatedFrom(own, i, end) && before < end.batches
    decreases cfg.N() - i, |cfg.hooks[i]| - j, 0, cfg.hooks[i][j].calls - |past|
  {
    var h := cfg.hooks[i][j];
    var edited := Edits(h, m, past, st);
    if CallsOn(h, m, past, edited) {
      var (next, ready) := HandsOver(h, m, past, edited);
      var (o, st') := Mutate(cfg, i, j + 1, next, ready);
      if own {
        assert h.pass(edited.store[m].content, past) == Own;
        OwnIsChecked(cfg, i, j + 1, ready);
      }
      DoneMeansCreated(cfg, own, i, j + 1, next, ready);
      StaysCreated(own, i, ready, st');
      StrategyDoneMeansCreated(cfg, own, i, j, m, past + [o], st', before);
    }
  }

  /** Created builders stay created while the builders hold the same objects. */
  lemma StaysCreated<M, S>(own: bool, i: nat, a: State<M, S>, b: State<M, S>)
    requires Later(a, b) && (own ==> a.held == b.held)
    ensures CreatedFrom(own, i, a) ==> CreatedFrom(own, i, b)
  {
  }

  /** If no hook reports success unless one of its calls succeeded, a successful save has run a
      batch and returns a node for every builder; with own hooks every mutation is marked done. */
  lemma SuccessMeansCreated<M(!new), S>(cfg: Config<M, S>, mutations: seq<M>)
    requires |mutations| == cfg.N() > 0 && Honest(cfg)
    ensures var (r, st) := Save(cfg, mutations);
            r.Created? ==> CreatedFrom(OwnOnly(cfg), 0, st) && st.batches >= 1 && forall n :: n in r.nodes ==> n.Some?
  {
    DoneMeansCreated(cfg, OwnOnly(cfg), 0, 0, 0, Start(cfg, mutations));
  }

  // ---------- transparent hooks ----------

  /** A hook that only wraps: it calls on once with its own object, unedited, and returns that
      outcome. */
  ghost predicate Transparent<M(!new)>(h: Hook<M>) {
    && h.calls >= 1
    && (forall c, past :: h.edit(c, past) == c)
    && (forall c :: h.again(c, []) && h.pass(c, []) == Own)
    && (forall c, o :: !h.again(c, [o]) && h.result(c, [o]) == o)
  }

  ghost predicate AllTransparent<M(!new), S>(cfg: Config<M, S>) {
    forall i, j :: 0 <= i < cfg.N() && 0 <= j < |cfg.hooks[i]| ==> Transparent(cfg.hooks[i][j])
  }

  /** What the builders' own mutations say. */
  function Contents<M, S>(st: State<M, S>): (cs: seq<M>)
    requires st.Sized(|st.held|)
    ensures |cs| == |st.held|
  {
    seq(|st.held|, k requires 0 <= k < |st.held| => st.Held(k))
  }

  /** The first builder from i on whose mutation fails validation, or N. */
  function FirstBad<M, S>(cfg: Config<M, S>, muts: seq<M>, i: nat): (f: nat)
    requires i <= |muts|
    ensures i <= f <= |muts|
    ensures forall k :: i <= k < f ==> cfg.check(muts[k])
    ensures f < |muts| ==> !cfg.check(muts[f])
    decreases |muts| - i
  {
    if i < |muts| && cfg.check(muts[i]) then FirstBad(cfg, muts, i + 1) else i
  }

  /** The specs the batch gets when builders from i on still have to fill theirs. */
  function SpecsFrom<M, S>(cfg: Config<M, S>, i: nat, st: State<M, S>): (specs: seq<Option<S>>)
    requires st.Sized(|st.held|)
    ensures |specs| == |st.held|
  {
    seq(|st.held|, k requires 0 <= k < |st.held| => if k < i then st.specs[k] else Some(cfg.spec(st.Held(k))))
  }

  /** On the way in: the hooks of builder i from j on, its filling, the next builders, then the
      batch. */
  function Down<M, S>(cfg: Config<M, S>, muts: seq<M>, i: nat, j: nat, specs: seq<Option<S>>): seq<Event<M, S>>
    requires i < cfg.N() == |muts| && j <= |cfg.hooks[i]|
    decreases cfg.N() - i, |cfg.hooks[i]| - j
  {
    if j < |cfg.hooks[i]| then [Enter(i, j)] + Down(cfg, muts, i, j + 1, specs)
    else if !cfg.check(muts[i]) then []
    else [Fill(i, muts[i])] + if i + 1 < cfg.N() then Down(cfg, muts, i + 1, 0, specs) else [Batch(specs)]
  }

  /** On the way out: the exits. */
  function Up<M, S>(cfg: Config<M, S>, muts: seq<M>, i: nat, j: nat): seq<Event<M, S>>
    requires i < cfg.N() == |muts| && j <= |cfg.hooks[i]|
    decreases cfg.N() - i, |cfg.hooks[i]| - j
  {
    if j < |cfg.hooks[i]| then Up(cfg, muts, i, j + 1) + [Exit(i, j)]
    else if cfg.check(muts[i]) && i + 1 < cfg.N() then Up(cfg, muts, i + 1, 0)
    else []
  }

  /** Exactly the objects held by builders from i on have been marked done. */
  ghost predicate DoneFrom<M, S>(i: nat, st: State<M, S>, end: State<M, S>) {
    && |end.store| == |st.store|
    && forall r :: 0 <= r < |st.store| ==>
         end.store[r].content == st.store[r].content
         && (end.store[r].done <==> st.store[r].done || exists k :: i <= k < |st.held| && st.held[k] == r)
  }

  /** The slots from builder i on carry the ids of the batch, and the mutations are done. */
  ghost predicate Finished<M, S>(cfg: Config<M, S>, i: nat, st: State<M, S>, end: State<M, S>)
    requires st.Sized(cfg.N()) && end.Sized(cfg.N())
  {
    && DoneFrom(i, st, end)
    && (forall k :: 0 <= k < i && k < cfg.N() ==> end.nodes[k] == st.nodes[k])
    && (forall k :: i <= k < cfg.N() ==> end.nodes[k] == Some(Node(cfg.spec(st.Held(k)), NodeId(end.ids[k]))))
  }

  /** What the chain from builder i on comes to when all its mutations are valid. */
  ghost predicate BatchDecides<M, S>(cfg: Config<M, S>, i: nat, st: State<M, S>, o: Outcome, end: State<M, S>)
    requires st.Sized(cfg.N()) && end.Sized(cfg.N())
  {
    end.batches == st.batches + 1
    && match cfg.driver(st.batches, SpecsFrom(cfg, i, st))
       case None => o == Failed(BatchFailed) && end.store == st.store
       case Some(given) =>
         o == Done && end.specs == SpecsFrom(cfg, i, st) && end.ids == FilledIds(cfg.N(), given) && Finished(cfg, i, st, end)
  }

  /** The whole effect of a transparent chain. */
  ghost predicate AllOrNothing<M, S>(cfg: Config<M, S>, i: nat, st: State<M, S>, o: Outcome, end: State<M, S>)
    requires i < cfg.N() && st.Sized(cfg.N())
  {
    var f := FirstBad(cfg, Contents(st), i);
    && end.Sized(cfg.N()) && end.held == st.held
    && if f < cfg.N() then o == Failed(CheckFailed(f)) && end.batches == st.batches && end.store == st.store
       else BatchDecides(cfg, i, st, o, end)
  }

  function NodeId(id: Option<int>): int { if id.Some? then id.value else 0 }

  lemma TransparentHook<M(!new), S>(cfg: Config<M, S>, i: nat, j: nat, m: nat, st: State<M, S>)
    requires i < cfg.N() && j < |cfg.hooks[i]| && st.Sized(cfg.N()) && m < |st.store| && Transparent(cfg.hooks[i][j])
    ensures var (o, end) := Mutate(cfg, i, j + 1, m, st.Log(Enter(i, j)));
            Mutate(cfg, i, j, m, st) == (o, end.Log(Exit(i, j)))
  {
    var entered, h := st.Log(Enter(i, j)), cfg.hooks[i][j];
    var (o, end) := Mutate(cfg, i, j + 1, m, entered);
    UneditedStays(h, m, [], entered);
    UneditedStays(h, m, [o], end);
    assert [] + [o] == [o];
    assert Strategy(cfg, i, j, m, [], entered) == Strategy(cfg, i, j, m, [o], end) == (o, end);
  }

  lemma LoggedReads<M, S>(cfg: Config<M, S>, i: nat, st: State<M, S>, e: Event<M, S>)
    requires st.Sized(cfg.N())
    ensures SpecsFrom(cfg, i, st.Log(e)) == SpecsFrom(cfg, i, st) && Contents(st.Log(e)) == Contents(st)
  {
    forall k | 0 <= k < cfg.N() ensures st.Log(e).Held(k) == st.Held(k) {}
  }

  lemma UneditedStays<M(!new), S>(h: Hook<M>, m: nat, past: seq<Outcome>, st: State<M, S>)
    requires Transparent(h) && m < |st.store|
    ensures Edits(h, m, past, st) == st
  {
    assert st.store[m := st.store[m]] == st.store;
  }

  lemma {:induction false} TransparentChain<M(!new), S>(cfg: Config<M, S>, i: nat, j: nat, st: State<M, S>)
    requires AllTransparent(cfg) && i < cfg.N() && j <= |cfg.hooks[i]| && st.Sized(cfg.N())
    ensures var (o, end) := Mutate(cfg, i, j, st.held[i], st); AllOrNothing(cfg, i, st, o, end)
    decreases cfg.N() - i, |cfg.hooks[i]| - j, 1
  {
    var m := st.held[i];
    if j < |cfg.hooks[i]| {
      var (o, end) := Mutate(cfg, i, j + 1, m, st.Log(Enter(i, j)));
      assert Mutate(cfg, i, j, m, st) == (o, end.Log(Exit(i, j))) by { TransparentHook(cfg, i, j, m, st); }
      TransparentChain(cfg, i, j + 1, st.Log(Enter(i, j)));
      LoggedAllOrNothing(cfg, i, st, Enter(i, j), o, end, Exit(i, j));
    } else {
      assert Mutate(cfg, i, j, m, st) == Core(cfg, i, m, st);
      TransparentCore(cfg, i, st);
    }
  }

  /** Entries and exits in the trace do not bear on the effect. */
  lemma LoggedAllOrNothing<M, S>(cfg: Config<M, S>, i: nat, st: State<M, S>, e: Event<M, S>, o: Outcome, end: State<M, S>, e': Event<M, S>)
    requires i < cfg.N() && st.Sized(cfg.N()) && AllOrNothing(cfg, i, st.Log(e), o, end)
    ensures AllOrNothing(cfg, i, st, o, end.Log(e'))
  {
    LoggedReads(cfg, i, st, e);
    if FirstBad(cfg, Contents(st), i) == cfg.N() && o == Done {
      assert Finished(cfg, i, st.Log(e), end);
      forall k | 0 <= k < cfg.N() ensures st.Log(e).Held(k) == st.Held(k) {}
      assert DoneFrom(i, st, end.Log(e'));
    }
  }

  lemma {:induction false} TransparentCore<M(!new), S>(cfg: Config<M, S>, i: nat, st: State<M, S>)
    requires AllTransparent(cfg) && i < cfg.N() && st.Sized(cfg.N())
    ensures var (o, end) := Core(cfg, i, st.held[i], st); AllOrNothing(cfg, i, st, o, end)
    decreases cfg.N() - i, 0, 0
  {
    assert Contents(st)[i] == st.Held(i);
    if cfg.check(st.Held(i)) {
      if i + 1 < cfg.N() {
        var filled := st.Filled(i, st.held[i], cfg.spec(st.Held(i)));
        FilledSpecs(cfg, i, st);
        TransparentChain(cfg, i + 1, 0, filled);
        CoreAllOrNothing(cfg, i, st);
      } else {
        LastAllOrNothing(cfg, i, st);
      }
    }
  }

  lemma FilledSpecs<M, S>(cfg: Config<M, S>, i: nat, st: State<M, S>)
    requires i < cfg.N() && st.Sized(cfg.N())
    ensures var filled := st.Filled(i, st.held[i], cfg.spec(st.Held(i)));
            && filled.held == st.held && Contents(filled) == Contents(st)
            && SpecsFrom(cfg, i + 1, filled) == SpecsFrom(cfg, i, st)
            && (i + 1 == cfg.N() ==> filled.specs == SpecsFrom(cfg, i, st))
  {
  }

  lemma DoneFromStep<M, S>(i: nat, st: State<M, S>, filled: State<M, S>, end: State<M, S>)
    requires i < |st.held| && st.Sized(|st.held|) && end.Sized(|st.held|) && end.nodes[i].Some?
    requires filled.held == st.held && filled.store == st.store && DoneFrom(i + 1, filled, end)
    ensures DoneFrom(i, st, end.Finished(i, st.held[i]))
  {
    var done := end.Finished(i, st.held[i]);
    forall r | 0 <= r < |st.store|
      ensures done.store[r].done <==> st.store[r].done || exists k :: i <= k < |st.held| && st.held[k] == r
    {
      assert (exists k :: i <= k < |st.held| && st.held[k] == r)
        <==> st.held[i] == r || exists k :: i + 1 <= k < |st.held| && st.held[k] == r;
    }
  }

  /** The success part of a transparent chain, from the next builder's to this one's. */
  lemma SuccessStep<M, S>(cfg: Config<M, S>, i: nat, st: State<M, S>, filled: State<M, S>, end: State<M, S>)
    requires i < cfg.N() && st.Sized(cfg.N()) && end.Sized(cfg.N()) && filled == st.Filled(i, st.held[i], cfg.spec(st.Held(i)))
    requires filled.held == st.held && end.held == st.held && Finished(cfg, i + 1, filled, end)
    requires forall k :: i < k < cfg.N() ==> filled.Held(k) == st.Held(k)
    requires end.nodes[i] == Some(Node(cfg.spec(st.Held(i)), 0))
    ensures Finished(cfg, i, st, end.Finished(i, st.held[i]))
  {
    DoneFromStep(i, st, filled, end);
  }

  lemma LastAllOrNothing<M, S>(cfg: Config<M, S>, i: nat, st: State<M, S>)
    requires i + 1 == cfg.N() && st.Sized(cfg.N()) && cfg.check(st.Held(i))
    ensures var (o, end) := Core(cfg, i, st.held[i], st); AllOrNothing(cfg, i, st, o, end)
  {
    var filled := st.Filled(i, st.held[i], cfg.spec(st.Held(i)));
    FilledSpecs(cfg, i, st);
    assert Contents(st)[i] == st.Held(i);
    assert FirstBad(cfg, Contents(st), i) == cfg.N();
    var (o, ran) := RunBatch(cfg, filled);
    if o == Done {
      assert Finished(cfg, i + 1, filled, ran);
      SuccessStep(cfg, i, st, filled, ran);
    }
  }

  lemma CoreAllOrNothing<M, S>(cfg: Config<M, S>, i: nat, st: State<M, S>)
    requires i + 1 < cfg.N() && st.Sized(cfg.N()) && cfg.check(st.Held(i))
    requires var filled := st.Filled(i, st.held[i], cfg.spec(st.Held(i)));
             var (o, end) := NextBuilder(cfg, i, filled);
             AllOrNothing(cfg, i + 1, filled, o, end)
    ensures var (o, end) := Core(cfg, i, st.held[i], st); AllOrNothing(cfg, i, st, o, end)
  {
    var filled := st.Filled(i, st.held[i], cfg.spec(st.Held(i)));
    FilledSpecs(cfg, i, st);
    assert Contents(st)[i] == st.Held(i);
    var (o, ran) := NextBuilder(cfg, i, filled);
    if FirstBad(cfg, Contents(st), i + 1) == cfg.N() {
      BatchDecidesStep(cfg, i, st, o, ran);
    }
  }

  lemma BatchDecidesStep<M, S>(cfg: Config<M, S>, i: nat, st: State<M, S>, o: Outcome, ran: State<M, S>)
    requires i + 1 < cfg.N() && st.Sized(cfg.N()) && ran.Sized(cfg.N()) && ran.held == st.held
    requires var filled := st.Filled(i, st.held[i], cfg.spec(st.Held(i))); BatchDecides(cfg, i + 1, filled, o, ran)
    ensures ran.nodes[i].Some? || o.Failed?
    ensures BatchDecides(cfg, i, st, o, if o.Failed? then ran else ran.Finished(i, st.held[i]))
  {
    var filled := st.Filled(i, st.held[i], cfg.spec(st.Held(i)));
    FilledSpecs(cfg, i, st);
    if o == Done {
      assert Finished(cfg, i + 1, filled, ran);
      assert ran.nodes[i] == filled.nodes[i];
      SuccessStep(cfg, i, st, filled, ran);
    }
  }

  /** A trace that goes all the way in from here, then all the way out. */
  ghost predicate Mirrors<M, S>(cfg: Config<M, S>, i: nat, j: nat, st: State<M, S>, end: State<M, S>)
    requires i < cfg.N() && j <= |cfg.hooks[i]| && st.Sized(cfg.N())
  {
    end.trace == st.trace + Down(cfg, Contents(st), i, j, SpecsFrom(cfg, i, st)) + Up(cfg, Contents(st), i, j)
  }

  lemma {:induction false} TransparentTrace<M(!new), S>(cfg: Config<M, S>, i: nat, j: nat, st: State<M, S>)
    requires AllTransparent(cfg) && i < cfg.N() && j <= |cfg.hooks[i]| && st.Sized(cfg.N())
    ensures Mirrors(cfg, i, j, st, Mutate(cfg, i, j, st.held[i], st).1)
    decreases cfg.N() - i, |cfg.hooks[i]| - j, 1
  {
    var m, specs := st.held[i], SpecsFrom(cfg, i, st);
    if j < |cfg.hooks[i]| {
      var entered := st.Log(Enter(i, j));
      TransparentHook(cfg, i, j, m, st);
      TransparentTrace(cfg, i, j + 1, entered);
      LoggedReads(cfg, i, st, Enter(i, j));
      TraceStep(st.trace, Enter(i, j), Down(cfg, Contents(st), i, j + 1, specs), Up(cfg, Contents(st), i, j + 1), [Exit(i, j)]);
    } else {
      assert Mutate(cfg, i, j, m, st) == Core(cfg, i, m, st);
      CoreTrace(cfg, i, st);
    }
  }

  lemma {:induction false} CoreTrace<M(!new), S>(cfg: Config<M, S>, i: nat, st: State<M, S>)
    requires AllTransparent(cfg) && i < cfg.N() && st.Sized(cfg.N())
    ensures Mirrors(cfg, i, |cfg.hooks[i]|, st, Core(cfg, i, st.held[i], st).1)
    decreases cfg.N() - i, 0, 0
  {
    var specs := SpecsFrom(cfg, i, st);
    assert Contents(st)[i] == st.Held(i);
    if cfg.check(st.Held(i)) {
      var filled := st.Filled(i, st.held[i], cfg.spec(st.Held(i)));
      FilledSpecs(cfg, i, st);
      if i + 1 < cfg.N() {
        TransparentTrace(cfg, i + 1, 0, filled);
        TraceStep(st.trace, Fill(i, st.Held(i)), Down(cfg, Contents(st), i + 1, 0, specs), Up(cfg, Contents(st), i + 1, 0), []);
      } else {
        TraceStep(st.trace, Fill(i, st.Held(i)), [Batch(specs)], [], []);
      }
    } else {
      TraceEnd(st.trace);
    }
  }

  lemma TraceStep<E>(trace: seq<E>, e: E, down: seq<E>, up: seq<E>, last: seq<E>)
    ensures (trace + [e]) + down + up + last == trace + ([e] + down) + (up + last)
    ensures last == [] ==> up + last == up && (trace + [e]) + down + up == trace + ([e] + down) + up
  {
    assert (trace + [e]) + down + up + last == trace + ([e] + down) + (up + last);
  }

  lemma TraceEnd<E>(trace: seq<E>)
    ensures trace + [] + [] == trace
  {
  }

  ghost predicate NoneDone<M, S>(st: State<M, S>) { forall m :: m in st.store ==> !m.done }

  ghost predicate AllValid<M, S>(cfg: Config<M, S>, muts: seq<M>) {
    forall k :: 0 <= k < |muts| ==> cfg.check(muts[k])
  }

  function AllSpecs<M, S>(cfg: Config<M, S>, muts: seq<M>): seq<Option<S>> {
    seq(|muts|, k requires 0 <= k < |muts| => Some(cfg.spec(muts[k])))
  }

  lemma StartContents<M, S>(cfg: Config<M, S>, mutations: seq<M>)
    requires |mutations| == cfg.N()
    ensures var st := Start(cfg, mutations);
            && Contents(st) == Map(cfg.defaults, mutations) && NoneDone(st) && |st.store| == cfg.N()
            && SpecsFrom(cfg, 0, st) == AllSpecs(cfg, Map(cfg.defaults, mutations))
  {
  }

  /** Saving no builders succeeds and runs nothing. */
  lemma EmptySave<M, S>(cfg: Config<M, S>)
    requires cfg.N() == 0
    ensures Save(cfg, []).0 == Created([]) && Save(cfg, []).1.batches == 0
  {
  }

  /** Under transparent hooks a save is all or nothing: a failed check means no batch, a failed
      check or batch means an error and no mutation marked done, and success means every
      mutation is done and every node carries its spec's id when it got one. */
  lemma SaveAllOrNothing<M(!new), S>(cfg: Config<M, S>, mutations: seq<M>)
    requires |mutations| == cfg.N() > 0 && AllTransparent(cfg)
    ensures var muts, (r, st) := Map(cfg.defaults, mutations), Save(cfg, mutations);
            && (!AllValid(cfg, muts) ==>
                  && st.batches == 0 && NoneDone(st) && r.SaveFailed? && r.error.CheckFailed?
                  && r.error.builder < cfg.N() && !cfg.check(muts[r.error.builder])
                  && AllValid(cfg, muts[..r.error.builder]))
            && (AllValid(cfg, muts) ==>
                  && st.batches == 1
                  && match cfg.driver(0, AllSpecs(cfg, muts))
                     case None => r == SaveFailed(BatchFailed) && NoneDone(st)
                     case Some(given) =>
                       && r.Created? && |r.nodes| == cfg.N() && |st.store| == cfg.N()
                       && forall k :: 0 <= k < cfg.N() ==>
                            && st.store[k].done
                            && r.nodes[k] == Some(Node(cfg.spec(muts[k]), if k < |given| && given[k].Some? then given[k].value else 0)))
  {
    var st, muts := Start(cfg, mutations), Map(cfg.defaults, mutations);
    StartContents(cfg, mutations);
    TransparentChain(cfg, 0, 0, st);
    var end := Mutate(cfg, 0, 0, st.held[0], st).1;
    var f := FirstBad(cfg, muts, 0);
    if f < cfg.N() {
      assert AllValid(cfg, muts[..f]);
    } else {
      assert AllValid(cfg, muts);
      if cfg.driver(0, AllSpecs(cfg, muts)).Some? {
        forall k | 0 <= k < cfg.N() ensures end.store[k].done && Contents(st)[k] == st.Held(k) {
          assert st.held[k] == k;
        }
      }
    }
  }

  /** The hooks entered, in order. */
  function Entered<M, S>(events: seq<Event<M, S>>): seq<(nat, nat)> {
    if events == [] then []
    else if events[0].Enter? then [(events[0].builder, events[0].hook)] + Entered(events[1..])
    else Entered(events[1..])
  }

  function Exits<M, S>(sites: seq<(nat, nat)>): seq<Event<M, S>> {
    if sites == [] then [] else Exits(sites[1..]) + [Exit(sites[0].0, sites[0].1)]
  }

  /** The hooks of builder i from j on, then those of the following builders up to `last`. */
  function Sites<M, S>(cfg: Config<M, S>, i: nat, j: nat, last: nat): seq<(nat, nat)>
    requires i <= last < cfg.N() && j <= |cfg.hooks[i]|
    decreases last - i, |cfg.hooks[i]| - j
  {
    if j < |cfg.hooks[i]| then [(i, j)] + Sites(cfg, i, j + 1, last)
    else if i < last then Sites(cfg, i + 1, 0, last)
    else []
  }

  /** Entries run through the builders' hooks in order, up to the builder that fails validation
      or to the last one; exits are the same hooks in reverse, all after the last entry. */
  lemma {:induction false} ExitsReverseEntries<M, S>(cfg: Config<M, S>, muts: seq<M>, i: nat, j: nat, specs: seq<Option<S>>)
    requires i < cfg.N() == |muts| && j <= |cfg.hooks[i]|
    ensures var f := FirstBad(cfg, muts, i);
            var sites := Sites(cfg, i, j, if f < cfg.N() then f else cfg.N() - 1);
            && Entered(Down(cfg, muts, i, j, specs)) == sites
            && Up(cfg, muts, i, j) == Exits<M, S>(sites)
            && forall e :: e in Down(cfg, muts, i, j, specs) ==> !e.Exit?
    decreases cfg.N() - i, |cfg.hooks[i]| - j
  {
    if j < |cfg.hooks[i]| {
      ExitsReverseEntries(cfg, muts, i, j + 1, specs);
      var rest := Down(cfg, muts, i, j + 1, specs);
      assert ([Enter(i, j)] + rest)[1..] == rest;
      var f := FirstBad(cfg, muts, i);
      var tail := Sites(cfg, i, j + 1, if f < cfg.N() then f else cfg.N() - 1);
      assert ([(i, j)] + tail)[1..] == tail;
    } else if cfg.check(muts[i]) {
      var fill: Event<M, S> := Fill(i, muts[i]);
      if i + 1 < cfg.N() {
        ExitsReverseEntries(cfg, muts, i + 1, 0, specs);
        var rest := Down(cfg, muts, i + 1, 0, specs);
        assert ([fill] + rest)[1..] == rest;
      } else {
        var both: seq<Event<M, S>> := [fill] + [Batch(specs)];
        assert Down(cfg, muts, i, j, specs) == both;
        assert both[1..] == [Batch(specs)];
        assert both[1..][1..] == [];
        assert Entered(both) == Entered(both[1..]) == Entered(both[1..][1..]);
      }
    }
  }

  /** The trace of a save under transparent hooks is a descent and its mirror image. */
  lemma SaveTraceMirrors<M(!new), S>(cfg: Config<M, S>, mutations: seq<M>)
    requires |mutations| == cfg.N() > 0 && AllTransparent(cfg)
    ensures var muts := Map(cfg.defaults, mutations);
            var f := FirstBad(cfg, muts, 0);
            var sites := Sites(cfg, 0, 0, if f < cfg.N() then f else cfg.N() - 1);
            exists down :: Save(cfg, mutations).1.trace == down + Exits<M, S>(sites)
                           && Entered(down) == sites && forall e :: e in down ==> !e.Exit?
  {
    var st, muts := Start(cfg, mutations), Map(cfg.defaults, mutations);
    StartContents(cfg, mutations);
    TransparentTrace(cfg, 0, 0, st);
    ExitsReverseEntries(cfg, muts, 0, 0, AllSpecs(cfg, muts));
    var down := Down(cfg, muts, 0, 0, AllSpecs(cfg, muts));
    assert [] + down == down;
    assert Save(cfg, mutations).1.trace == down + Up(cfg, muts, 0, 0);
  }
}
