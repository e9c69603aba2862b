/** Reuse transparency: a pooled instance answers like one built just for the question. */
module Reuse {
  import opened Types
  import opened Guest
  import opened InstanceView
  import opened Instance

  datatype Op = Load(doc: Document, version: nat) | Query(raw: Option<seq<byte>>, ep: int)
  datatype Result = Loaded(ok: bool) | Queried(outcome: Outcome)

  /** The result that ends an instance's life. */
  predicate Poisons(r: Result) {
    r == Loaded(false) || r == Queried(Failed)
  }

  /** The document loaded by the last Load among ops, or None. */
  function LastLoaded(ops: seq<Op>): Document {
    if ops == [] then None
    else if ops[|ops| - 1].Load? then ops[|ops| - 1].doc
    else LastLoaded(ops[..|ops| - 1])
  }

  /** The result is what a policy that knows only the document doc would have said to op. */
  predicate Transparent(g: Exports, config: Config, doc: Document, op: Op, r: Result) {
    match op
    case Load(_, _) => r.Loaded?
    case Query(raw, ep) =>
      && r.Queried?
      && (r.outcome.Rejected? <==> raw.None? || |raw.value| > config.maxInput)
      && (r.outcome.Answer? ==> r.outcome.json == g.decide(ep, doc, raw.value) && Readable(config, r.outcome.json))
  }

  /** A guest that never lets the host down leaves op, asked of doc, no excuse but time. */
  ghost predicate MustSucceed(g: Exports, config: Config, doc: Document, op: Op) {
    && Obliging(g)
    && match op
       case Load(newDoc, _) => Admissible(config, newDoc)
       case Query(raw, ep) => raw.Some? ==> Readable(config, g.decide(ep, doc, raw.value))
  }

  /** The engine's epoch when an operation began and when it ended. */
  datatype Span = Span(begin: nat, end: nat)

  /** What a session gave, operation by operation, and when. */
  datatype Log = Log(results: seq<Result>, spans: seq<Span>)

  /** A moment no later than the last time, before op k, that the idle deadline was put off. */
  function Rested(built: nat, log: Log, k: nat): nat
    requires k <= |log.results| == |log.spans|
  {
    if k == 0 then built
    else if log.results[k - 1].Queried? && log.results[k - 1].outcome.Answer? then log.spans[k - 1].begin
    else Rested(built, log, k - 1)
  }

  /** With deadlines: a query ends within its own budget, a load before the idle deadline. */
  predicate SpanInTime(config: Config, op: Op, span: Span, rested: nat) {
    config.budget.Some? ==>
      if op.Load? then span.end < rested + NO_DEADLINE else span.end < span.begin + config.budget.value
  }

  predicate InTime(config: Config, built: nat, ops: seq<Op>, log: Log, k: nat)
    requires k < |log.results| == |log.spans| && k < |ops|
  {
    SpanInTime(config, ops[k], log.spans[k], Rested(built, log, k))
  }

  ghost predicate AllInTime(config: Config, built: nat, ops: seq<Op>, log: Log)
    requires |log.spans| == |log.results| <= |ops|
  {
    forall k :: 0 <= k < |log.results| ==> InTime(config, built, ops, log, k)
  }

  /** A longer log has rested no differently. */
  lemma {:induction false} RestedPrefix(built: nat, log: Log, r: Result, span: Span, k: nat)
    requires k <= |log.results| == |log.spans|
    ensures Rested(built, Log(log.results + [r], log.spans + [span]), k) == Rested(built, log, k)
  {
    if k == 0 {
    } else {
      RestedPrefix(built, log, r, span, k - 1);
    }
  }

  ghost predicate AllMustSucceed(g: Exports, config: Config, ops: seq<Op>) {
    forall k :: 0 <= k < |ops| ==> MustSucceed(g, config, LastLoaded(ops[..k]), ops[k])
  }

  /** One operation of the pool on an instance. */
  method Perform(inst: PolicyInstance, op: Op) returns (r: Result, span: Span)
    requires inst.Valid() && !inst.poisoned
    modifies inst, inst.data, inst.store
    ensures inst.Valid() && (inst.poisoned <==> Poisons(r))
    ensures Transparent(inst.store.g, inst.config, old(inst.data.doc), op, r)
    ensures op.Query? == r.Queried?
    ensures !inst.poisoned ==> inst.data.doc == if op.Load? then op.doc else old(inst.data.doc)
    ensures inst.store.Later() && old(inst.store.epoch) <= span.begin <= span.end == inst.store.epoch
    ensures !inst.poisoned ==>
              inst.store.setAt >= if r.Queried? && r.outcome.Answer? && inst.config.budget.Some? then span.begin
                                  else old(inst.store.setAt)
    ensures r.Queried? && r.outcome.Answer? ==> SpanInTime(inst.config, op, span, old(inst.store.setAt))
    ensures MustSucceed(inst.store.g, inst.config, old(inst.data.doc), op)
            && SpanInTime(inst.config, op, span, old(inst.store.setAt)) ==>
              !Poisons(r)
  {
    inst.store.TimePasses();
    var begin := inst.store.epoch;
    match op {
      case Load(doc, version) =>
        var ok := inst.ReloadData(doc, version);
        r := Loaded(ok);
      case Query(raw, ep) =>
        var outcome := inst.Evaluate(raw, ep);
        r := Queried(outcome);
    }
    span := Span(begin, inst.store.epoch);
  }

  /**
   Result k depends only on its operation and the last document loaded before it, an answer comes
   only in time, and poison only with an excuse.
   */
  ghost predicate Accounted(g: Exports, config: Config, built: nat, ops: seq<Op>, log: Log, k: nat)
    requires k < |log.results| == |log.spans| <= |ops|
  {
    var doc := LastLoaded(ops[..k]);
    && Transparent(g, config, doc, ops[k], log.results[k])
    && (log.results[k].Queried? && log.results[k].outcome.Answer? ==> InTime(config, built, ops, log, k))
    && (MustSucceed(g, config, doc, ops[k]) && InTime(config, built, ops, log, k) ==> !Poisons(log.results[k]))
  }

  /** The log accounts for the whole session: every result, and poison as the only reason to end early. */
  ghost predicate Explained(g: Exports, config: Config, built: nat, ops: seq<Op>, log: Log) {
    && |log.spans| == |log.results| <= |ops|
    && (forall k :: 0 <= k < |log.results| ==> Accounted(g, config, built, ops, log, k))
    && (forall k :: 0 <= k < |log.results| - 1 ==> !Poisons(log.results[k]))
    && (|log.results| < |ops| ==> log.results != [] && Poisons(log.results[|log.results| - 1]))
  }

  /** One more result leaves the earlier ones accounted for. */
  lemma OneMore(g: Exports, config: Config, built: nat, ops: seq<Op>, log: Log, r: Result, span: Span)
    requires |log.spans| == |log.results| < |ops|
    requires forall k :: 0 <= k < |log.results| ==> Accounted(g, config, built, ops, log, k)
    requires var k := |log.results|;
             var doc := LastLoaded(ops[..k]);
             && Transparent(g, config, doc, ops[k], r)
             && (r.Queried? && r.outcome.Answer? ==> SpanInTime(config, ops[k], span, Rested(built, log, k)))
             && (MustSucceed(g, config, doc, ops[k]) && SpanInTime(config, ops[k], span, Rested(built, log, k)) ==> !Poisons(r))
    ensures var log' := Log(log.results + [r], log.spans + [span]);
            && (forall k :: 0 <= k < |log'.results| ==> Accounted(g, config, built, ops, log', k))
            && Rested(built, log', |log.results| + 1)
               == if r.Queried? && r.outcome.Answer? then span.begin else Rested(built, log, |log.results|)
  {
    var log' := Log(log.results + [r], log.spans + [span]);
    forall k | 0 <= k < |log'.results| ensures Accounted(g, config, built, ops, log', k) {
      RestedPrefix(built, log, r, span, k);
      if k < |log.results| {
        assert Accounted(g, config, built, ops, log, k);
      }
    }
    RestedPrefix(built, log, r, span, |log.results|);
  }

  /**
   Drives one instance through any sequence of loads and evaluations, as the pool does over its
   borrows, with any time passing in between, until it is poisoned. Every answer depends only on the
   last document loaded and on the question, never on what the instance did before; a willing guest
   fails only by running out of time; and however long the session, the heap pointer ends within the
   cost of that one document.
   */
  method Session(g: Exports, m: Machine, config: Config, built: nat, ops: seq<Op>) returns (log: Log, heap: nat)
    requires Lawful(g)
    ensures Explained(g, config, built, ops, log)
    ensures log.results == [] || !Poisons(log.results[|log.results| - 1]) ==>
              forall c :: Thrifty(g, c) ==> heap <= m.heap + Footprint(c, LastLoaded(ops))
  {
    var inst := new PolicyInstance(g, m, config, built);
    log := Log([], []);
    while |log.results| < |ops| && !inst.poisoned
      invariant |log.spans| == |log.results| <= |ops|
      invariant fresh(inst) && fresh(inst.store) && fresh(inst.data)
      invariant inst.Valid() && inst.store.g == g && inst.config == config && inst.data.initialHeapPtr == m.heap
      invariant forall k :: 0 <= k < |log.results| ==> Accounted(g, config, built, ops, log, k)
      invariant forall k :: 0 <= k < |log.results| - 1 ==> !Poisons(log.results[k])
      invariant if inst.poisoned then log.results != [] && Poisons(log.results[|log.results| - 1])
                else
                  && inst.data.doc == LastLoaded(ops[..|log.results|])
                  && (log.results == [] || !Poisons(log.results[|log.results| - 1]))
                  && (config.budget.Some? ==> Rested(built, log, |log.results|) <= inst.store.setAt)
      decreases |ops| - |log.results|
    {
      var k := |log.results|;
      assert ops[..k + 1][..k] == ops[..k];
      var r, span := Perform(inst, ops[k]);
      OneMore(g, config, built, ops, log, r, span);
      log := Log(log.results + [r], log.spans + [span]);
    }
    heap := inst.store.m.heap;
    assert !inst.poisoned ==> ops[..|log.results|] == ops;
  }

  /** The life of an instance built for one question. */
  function Alone(doc: Document, question: Op): seq<Op> {
    [Load(doc, 0), question]
  }

  /**
   The theorem itself, on two instances: one with any past that has not poisoned it, one fresh and
   loaded with only the last document; different memories, clocks and worlds, same answer.
   */
  method ReusedLikeFresh(g: Exports, used: Machine, unused: Machine, config: Config, built: nat, rebuilt: nat,
                         past: seq<Op>, raw: Option<seq<byte>>, ep: int)
    returns (reused: Log, alone: Log)
    requires Lawful(g)
    ensures |reused.spans| == |reused.results| <= |past| + 1 && |alone.spans| == |alone.results| <= 2
    ensures |reused.results| == |past| + 1 && |alone.results| == 2 ==>
              SameAnswer(reused.results[|past|], alone.results[1])
    ensures var question := Query(raw, ep);
            && AllMustSucceed(g, config, past + [question]) && Admissible(config, LastLoaded(past))
            && AllInTime(config, built, past + [question], reused)
            && AllInTime(config, rebuilt, Alone(LastLoaded(past), question), alone) ==>
              |reused.results| == |past| + 1 && |alone.results| == 2 && reused.results[|past|] == alone.results[1]
  {
    var question := Query(raw, ep);
    var a, _ := Session(g, used, config, built, past + [question]);
    var b, _ := Session(g, unused, config, rebuilt, Alone(LastLoaded(past), question));
    reused, alone := a, b;
    AnsweredAlike(g, config, built, rebuilt, past, question, reused, alone);
    if AllMustSucceed(g, config, past + [question]) && Admissible(config, LastLoaded(past))
       && AllInTime(config, built, past + [question], reused)
       && AllInTime(config, rebuilt, Alone(LastLoaded(past), question), alone) {
      AloneMustSucceed(g, config, past, question);
      NoneFails(g, config, built, past + [question], reused);
      NoneFails(g, config, rebuilt, Alone(LastLoaded(past), question), alone);
    }
  }

  /** Refused alike, and answered alike where both are answered. */
  predicate SameAnswer(a: Result, b: Result) {
    && a.Queried? && b.Queried?
    && (a.outcome.Rejected? <==> b.outcome.Rejected?)
    && (a.outcome.Answer? && b.outcome.Answer? ==> a == b)
  }

  lemma AnsweredAlike(g: Exports, config: Config, built: nat, rebuilt: nat, past: seq<Op>, question: Op, reused: Log, alone: Log)
    requires question.Query?
    requires Explained(g, config, built, past + [question], reused)
    requires Explained(g, config, rebuilt, Alone(LastLoaded(past), question), alone)
    ensures |reused.results| == |past| + 1 && |alone.results| == 2 ==>
              SameAnswer(reused.results[|past|], alone.results[1])
  {
    var long, short := past + [question], Alone(LastLoaded(past), question);
    assert long[..|past|] == past && short[..1] == [short[0]];
    if |reused.results| == |long| && |alone.results| == 2 {
      assert Accounted(g, config, built, long, reused, |past|);
      assert Accounted(g, config, rebuilt, short, alone, 1);
    }
  }

  lemma AloneMustSucceed(g: Exports, config: Config, past: seq<Op>, question: Op)
    requires AllMustSucceed(g, config, past + [question]) && Admissible(config, LastLoaded(past))
    ensures AllMustSucceed(g, config, Alone(LastLoaded(past), question))
  {
    var long, short := past + [question], Alone(LastLoaded(past), question);
    assert long[..|past|] == past && short[..1] == [short[0]];
    assert MustSucceed(g, config, LastLoaded(long[..|past|]), long[|past|]);
  }

  /** A session in which everything must succeed and is in time is complete. */
  lemma NoneFails(g: Exports, config: Config, built: nat, ops: seq<Op>, log: Log)
    requires Explained(g, config, built, ops, log)
    requires AllMustSucceed(g, config, ops) && AllInTime(config, built, ops, log)
    ensures |log.results| == |ops| && forall k :: 0 <= k < |ops| ==> !Poisons(log.results[k])
  {
    forall k | 0 <= k < |log.results| ensures !Poisons(log.results[k]) {
      assert Accounted(g, config, built, ops, log, k) && InTime(config, built, ops, log, k);
      assert MustSucceed(g, config, LastLoaded(ops[..k]), ops[k]);
    }
  }
}
