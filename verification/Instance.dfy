/** One policy instance: guest store, data manager and the evaluation recipe. */
module Instance {
  import opened Types
  import opened CString
  import opened Guest
  import opened InstanceView

  /** Size guards and the per-evaluation tick budget, if any; json.loads only as "does it parse". */
  datatype Config = Config(maxInput: nat, maxData: nat, maxResult: nat, maxScan: nat,
                           budget: Option<nat>, wellFormed: seq<byte> -> bool)

  /** Ticks to a deadline that stands for none. */
  const NO_DEADLINE: nat := 0x100_0000_0000

  /** The document passes the data guards. */
  predicate Admissible(config: Config, data: Document) {
    data.None? || (config.wellFormed(data.value) && |data.value| <= config.maxData)
  }

  /** The answer passes the result guards. */
  predicate Readable(config: Config, out: seq<byte>) {
    |out| < config.maxScan && |out| <= config.maxResult && config.wellFormed(out)
  }

  /** Linear memory, bump pointer and epoch deadline, with the codec's checked write. */
  class Store {
    const g: Exports
    const ticking: bool   // does the engine's ticker run?
    var m: Machine
    var epoch: nat        // the engine's epoch
    var deadline: nat
    ghost var setAt: nat  // the epoch when the deadline was last set

    constructor (g: Exports, m: Machine, epoch: nat, ticking: bool)
      ensures this.g == g && this.m == m && this.epoch == setAt == epoch && this.ticking == ticking
      ensures FarFuture()
    {
      this.g, this.ticking, this.m := g, ticking, m;
      this.epoch, deadline, setAt := epoch, epoch + NO_DEADLINE, epoch;
    }

    /** No per-evaluation deadline is live. */
    ghost predicate FarFuture()
      reads this
    {
      deadline == setAt + NO_DEADLINE && setAt <= epoch && (ticking || setAt == epoch)
    }

    predicate Expired()
      reads this
    {
      deadline <= epoch
    }

    /** The epoch only grows, and stands still without a ticker. */
    twostate predicate Later()
      reads this
    {
      old(epoch) <= epoch && (ticking || epoch == old(epoch))
    }

    /** The ticker may tick any number of times. */
    method TimePasses()
      modifies this`epoch
      ensures Later()
    {
      var ticks: int := *;
      if ticking && ticks > 0 {
        epoch := epoch + ticks;
      }
    }

    /** Relative to the current epoch, so whatever the old deadline was is forgotten. */
    method SetDeadline(ticks: nat)
      modifies this`deadline, this`setAt
      ensures deadline == epoch + ticks && setAt == epoch
    {
      deadline, setAt := epoch + ticks, epoch;
    }

    /** The heap-pointer setter traps exactly when the epoch has reached the deadline. */
    method HeapPtrSet(p: nat) returns (ok: bool)
      modifies this`m, this`epoch
      ensures Later() && (ok <==> !Expired())
      ensures m == if ok then old(m).(heap := p) else old(m)
    {
      TimePasses();
      ok := !Expired();
      if ok {
        m := m.(heap := p);
      }
    }

    method HeapPtrGet() returns (r: Option<nat>)
      modifies this`epoch
      ensures Later() && r == if Expired() then None else Some(m.heap)
    {
      TimePasses();
      r := if Expired() then None else Some(m.heap);
    }

    /** Allocate and write; the returned buffer lies above the old heap pointer and below the new one. */
    method WriteBytes(data: seq<byte>) returns (r: Option<nat>)
      requires Lawful(g)
      modifies this`m, this`epoch
      ensures Later()
      ensures Preserves(old(m), m, old(m).heap)
      ensures r.Some? ==>
                && old(m).heap <= r.value && r.value + |data| <= m.heap && r.value + |data| <= |m.mem|
                && m.mem[r.value .. r.value + |data|] == data
      ensures Obliging(g) && !Expired() ==> r.Some?
      ensures forall c :: Thrifty(g, c) ==> m.heap <= old(m).heap + c.malloc(|data|)
    {
      var w: World := *;
      forall c | Thrifty(g, c) ensures MallocCosts(g, c, m, |data|, w) {
        CostsOf(g, c, m, 0, |data|, w);
      }
      if Obliging(g) {
        MallocObliges(g, m, |data|, w);
      }
      MallocLaw(g, m, |data|, w);
      var reply := g.malloc(m, |data|, w);
      m := reply.machine;
      TimePasses();
      if Expired() || reply.Trapped? || reply.addr <= 0 || reply.addr + |data| > |m.mem| {
        return None;
      }
      var a: nat := reply.addr;
      m := m.(mem := m.mem[..a] + data + m.mem[a + |data| ..]);
      assert m.mem[a .. a + |data|] == data;
      r := Some(a);
    }
  }

  /** The external document of one instance and the heap checkpoint just past it. */
  class DataManager {
    const store: Store
    const initialHeapPtr: nat
    var dataAddr: nat
    var dataHeapPtr: nat
    ghost var doc: Document

    /** The loaded document is intact in the data region. */
    ghost predicate Intact()
      reads this, store
    {
      && initialHeapPtr <= dataHeapPtr
      && if dataAddr == 0 then doc.None?
         else doc.Some? && Settled(store.g, store.m.mem, initialHeapPtr, dataHeapPtr, dataAddr, doc.value)
    }

    /** The heap up to the checkpoint holds no more than the loaded document costs on its own. */
    ghost predicate Lean()
      reads this, store
    {
      forall c :: Thrifty(store.g, c) ==> dataHeapPtr <= initialHeapPtr + Footprint(c, doc)
    }

    constructor (store: Store)
      ensures this.store == store && initialHeapPtr == dataHeapPtr == store.m.heap
      ensures dataAddr == 0 && doc.None? && Intact() && Lean()
    {
      this.store, initialHeapPtr, dataHeapPtr := store, store.m.heap, store.m.heap;
      dataAddr, doc := 0, None;
    }

    /** Intactness depends only on the bytes of the data region. */
    twostate lemma IntactStays()
      requires old(Intact())
      requires unchanged(this)
      requires Preserves(old(store.m), store.m, dataHeapPtr)
      ensures Intact()
    {
      if dataAddr != 0 {
        SettledStays(store.g, old(store.m).mem, store.m.mem, initialHeapPtr, dataHeapPtr,
                     initialHeapPtr, dataHeapPtr, dataAddr, doc.value);
      }
    }

    method ResetHeapToCheckpoint() returns (ok: bool)
      modifies store`m, store`epoch
      ensures store.Later() && (ok <==> !store.Expired())
      ensures store.m == if ok then old(store.m).(heap := dataHeapPtr) else old(store.m)
    {
      ok := store.HeapPtrSet(dataHeapPtr);
    }

    /** Loading on top of any earlier document leaves exactly the new one, with the heap at its end. */
    method LoadData(data: Document, config: Config) returns (ok: bool)
      requires Lawful(store.g)
      modifies this, store`m, store`epoch
      ensures store.Later()
      ensures ok ==> Admissible(config, data)
      ensures Obliging(store.g) && !store.Expired() && Admissible(config, data) ==> ok
      ensures ok ==> Intact() && Lean() && doc == data && store.m.heap == dataHeapPtr
      ensures !ok && !store.Expired() ==> Intact() && doc.None? && store.m.heap == dataHeapPtr == initialHeapPtr
    {
      ok := store.HeapPtrSet(initialHeapPtr);
      if !ok {
        return;
      }
      if data.None? {
        dataAddr, dataHeapPtr, doc := 0, initialHeapPtr, None;
        return;
      }
      var addr := ToOpaValue(data.value, config.maxData, config.wellFormed);
      if addr.None? {
        ok := false;
        var reset := store.HeapPtrSet(initialHeapPtr);
        if reset {
          dataAddr, dataHeapPtr, doc := 0, initialHeapPtr, None;
        }
        return;
      }
      dataAddr := addr.value;
      var end := store.HeapPtrGet();
      if end.None? {
        return false;
      }
      dataHeapPtr, doc := end.value, data;
    }

    /** Size-check, write and parse a document; its value lies between the old and the new heap pointer. */
    method ToOpaValue(raw: seq<byte>, limit: nat, wellFormed: seq<byte> -> bool) returns (r: Option<nat>)
      requires Lawful(store.g)
      modifies store`m, store`epoch
      ensures store.Later()
      ensures Preserves(old(store.m), store.m, old(store.m).heap)
      ensures r.Some? ==>
                && 0 < r.value && |raw| <= limit && wellFormed(raw) && old(store.m).heap <= store.m.heap
                && Settled(store.g, store.m.mem, old(store.m).heap, store.m.heap, r.value, raw)
      ensures Obliging(store.g) && !store.Expired() && |raw| <= limit && wellFormed(raw) ==> r.Some?
      ensures r.Some? ==> forall c :: Thrifty(store.g, c) ==> store.m.heap <= old(store.m).heap + Footprint(c, Some(raw))
    {
      if !wellFormed(raw) || |raw| > limit {
        return None;
      }
      var buffer := store.WriteBytes(raw);
      if buffer.None? {
        return None;
      }
      var w: World := *;
      if Obliging(store.g) {
        ParseObliges(store.g, store.m, buffer.value, |raw|, w);
      }
      forall c | Thrifty(store.g, c) ensures ParseCosts(store.g, c, store.m, buffer.value, |raw|, w) {
        CostsOf(store.g, c, store.m, buffer.value, |raw|, w);
      }
      ParseLaw(store.g, store.m, buffer.value, |raw|, w);
      var reply := store.g.parse(store.m, buffer.value, |raw|, w);
      store.m := reply.machine;
      store.TimePasses();
      if store.Expired() || reply.Trapped? || reply.addr <= 0 {
        return None;
      }
      SettledStays(store.g, store.m.mem, store.m.mem, buffer.value, store.m.heap,
                   old(store.m).heap, store.m.heap, reply.addr, raw);
      r := Some(reply.addr);
    }
  }

  class PolicyInstance {
    const store: Store
    const data: DataManager
    const config: Config
    var poisoned: bool
    var enteredWasm: bool
    var version: nat

    ghost function V(): View
      reads this, store, data, data.store
    {
      View(data.doc, version, poisoned, !store.FarFuture(), store.m.heap == data.dataHeapPtr, data.Intact())
    }

    /** Unless poisoned: the loaded document intact and nothing else kept, no live deadline, heap at the checkpoint. */
    ghost predicate Valid()
      reads this, store, data, data.store
    {
      && data.store == store && Lawful(store.g) && store.ticking == config.budget.Some?
      && (!poisoned ==> data.Lean() && Pristine(V()))
    }

    /** A fresh instance with no document yet. */
    constructor (g: Exports, m: Machine, config: Config, epoch: nat)
      requires Lawful(g)
      ensures Valid() && !poisoned && fresh(store) && fresh(data)
      ensures store.g == g && this.config == config && version == 0 && data.doc.None?
      ensures data.initialHeapPtr == m.heap && store.setAt == store.epoch == epoch
    {
      var st := new Store(g, m, epoch, config.budget.Some?);
      var dm := new DataManager(st);
      store, data, this.config := st, dm, config;
      poisoned, enteredWasm, version := false, false, 0;
    }

    /**
     Reload: the version tag moves only with the document; any failure poisons. A willing guest fails
     an admissible document only 2^40 ticks or more after the deadline was last put off.
     */
    method ReloadData(doc: Document, newVersion: nat) returns (ok: bool)
      requires Valid() && !poisoned
      modifies this, data, store`m, store`epoch
      ensures Valid() && store.Later()
      ensures ReloadEffect(old(V()), V(), doc, newVersion, ok)
      ensures ok && doc.Some? ==> config.wellFormed(doc.value) && |doc.value| <= config.maxData
      ensures Obliging(store.g) && store.epoch < store.setAt + 0x100_0000_0000
              && (doc.Some? ==> config.wellFormed(doc.value) && |doc.value| <= config.maxData) ==>
                ok
    {
      ok := data.LoadData(doc, config);
      if ok {
        version := newVersion;
      } else {
        poisoned := true;
      }
    }

    /**
     The guest part of one evaluation: arm, reset, write input, capture the heap base after it,
     evaluate, read the answer, reset, disarm. The data region is never written. Arming comes first,
     so a deadline left over from an earlier life of the instance plays no part: an evaluation that
     uses up its budget fails, and a willing guest fails for no other reason.
     */
    method RunGuest(input: seq<byte>, ep: int) returns (r: Option<seq<byte>>)
      requires data.store == store && Lawful(store.g) && data.Intact()
      requires store.ticking == config.budget.Some? && store.setAt <= store.epoch
      modifies store
      ensures Preserves(old(store.m), store.m, data.dataHeapPtr)
      ensures r.Some? ==>
                && r.value == store.g.decide(ep, data.doc, input) && Readable(config, r.value)
                && store.m.heap == data.dataHeapPtr
                && store.epoch < (if config.budget.Some? then old(store.epoch) + config.budget.value else old(store.deadline))
                && (old(store.FarFuture()) || config.budget.Some? ==> store.FarFuture())
                && old(store.setAt) <= store.setAt && (config.budget.Some? ==> old(store.epoch) <= store.setAt)
      ensures store.Later()
      ensures Obliging(store.g) && Readable(config, store.g.decide(ep, data.doc, input))
              && store.epoch < (if config.budget.Some? then old(store.epoch) + config.budget.value else old(store.deadline)) ==>
                r.Some?
    {
      if config.budget.Some? {
        store.SetDeadline(config.budget.value);
      }
      var ok := data.ResetHeapToCheckpoint();
      if !ok {
        return None;
      }
      var buffer := store.WriteBytes(input);
      if buffer.None? {
        return None;
      }
      var base := store.HeapPtrGet();
      if base.None? {
        return None;
      }
      var raw := CallEval(input, ep, buffer.value, base.value);
      if raw.None? {
        return None;
      }
      ok := data.ResetHeapToCheckpoint();
      if !ok {
        return None;
      }
      if config.budget.Some? {
        store.SetDeadline(NO_DEADLINE);
      }
      r := raw;
    }

    /** opa_eval and the size-checked read of its result. */
    method CallEval(input: seq<byte>, ep: int, buffer: nat, base: nat) returns (r: Option<seq<byte>>)
      requires data.store == store && Lawful(store.g) && data.Intact()
      requires data.dataHeapPtr <= base && buffer + |input| <= base
      requires buffer + |input| <= |store.m.mem| && store.m.mem[buffer .. buffer + |input|] == input
      modifies store`m, store`epoch
      ensures store.Later()
      ensures Preserves(old(store.m), store.m, data.dataHeapPtr)
      ensures r.Some? ==> r.value == store.g.decide(ep, data.doc, input) && Readable(config, r.value)
      ensures r.Some? ==> !store.Expired()
      ensures Obliging(store.g) && !store.Expired() && Readable(config, store.g.decide(ep, data.doc, input)) ==> r.Some?
    {
      var w: World := *;
      if Obliging(store.g) {
        EvalObliges(store.g, store.m, ep, data.dataAddr, buffer, |input|, base, w);
      }
      EvalAnswers(store.g, store.m, ep, data.dataAddr, data.initialHeapPtr, data.dataHeapPtr, data.doc,
                  buffer, input, base, w);
      var reply := store.g.eval(store.m, ep, data.dataAddr, buffer, |input|, base, w);
      store.m := reply.machine;
      store.TimePasses();
      if store.Expired() || reply.Trapped? {
        return None;
      }
      r := ReadJsonCString(store.m.mem, reply.addr, config.maxScan, config.maxResult, config.wellFormed);
      if r.Some? {
        EndIsUnique(store.m.mem, reply.addr, |r.value|, |store.g.decide(ep, data.doc, input)|);
      }
    }

    /**
     One evaluation. raw is the serialised input, or None when it is not valid JSON. It is rejected
     exactly on a bad or oversize input, before the guest is entered and with the instance unharmed;
     an answer is the policy's decision on the loaded document; any other end poisons the instance.
     An evaluation that uses up its budget has no answer, and a willing guest fails for no other
     reason, whatever deadline it found.
     */
    method Evaluate(raw: Option<seq<byte>>, ep: int) returns (outcome: Outcome)
      requires Valid() && !poisoned
      modifies this`poisoned, this`enteredWasm, store
      ensures Valid()
      ensures outcome.Rejected? <==> raw.None? || |raw.value| > config.maxInput
      ensures outcome.Answer? ==> outcome.json == store.g.decide(ep, data.doc, raw.value) && config.wellFormed(outcome.json)
      ensures outcome.Answer? ==> |outcome.json| <= config.maxResult && |outcome.json| < config.maxScan
      ensures outcome.Answer? && config.budget.Some? ==> store.epoch < old(store.epoch) + config.budget.value
      ensures EvaluationEffect(old(V()), V(), outcome)
      ensures store.Later() && (outcome.Answer? && config.budget.Some? ==> old(store.epoch) <= store.setAt)
      ensures !outcome.Failed? ==> old(store.setAt) <= store.setAt
      ensures Obliging(store.g) && raw.Some?
              && (var out := store.g.decide(ep, data.doc, raw.value);
                  config.wellFormed(out) && |out| <= config.maxResult && |out| < config.maxScan)
              && (config.budget.Some? ==> store.epoch < old(store.epoch) + config.budget.value) ==>
                !outcome.Failed?
      ensures Preserves(old(store.m), store.m, data.dataHeapPtr)
    {
      enteredWasm := false;
      if raw.None? || |raw.value| > config.maxInput {
        var reset := data.ResetHeapToCheckpoint();
        data.IntactStays();
        return Rejected;
      }
      enteredWasm := true;
      var r := RunGuest(raw.value, ep);
      data.IntactStays();
      if r.None? {
        if enteredWasm {
          poisoned := true;
        }
        return Failed;
      }
      outcome := Answer(r.value);
    }
  }

  /** Construction with an initial document: a fresh pristine instance, or none if the document cannot be loaded. */
  method Build(g: Exports, m: Machine, config: Config, epoch: nat, doc: Document, version: nat)
    returns (inst: PolicyInstance?, spent: nat)
    requires Lawful(g)
    ensures inst != null ==>
              && fresh(inst) && fresh(inst.store) && fresh(inst.data) && inst.Valid()
              && inst.store.g == g && inst.config == config && inst.V() == BuiltWith(doc, version)
    ensures inst != null ==> Admissible(config, doc)
    ensures Obliging(g) && Admissible(config, doc) && spent < NO_DEADLINE ==> inst != null
    ensures config.budget.None? ==> spent == 0
  {
    var built := new PolicyInstance(g, m, config, epoch);
    var ok := built.ReloadData(doc, version);
    spent := built.store.epoch - epoch;
    inst := if ok then built else null;
  }
}
