/**
 The guest as the host sees it. Its code is foreign, so each export is a function value and
 `Lawful` is the contract of docs/opa_abi.md: allocation bumps the heap pointer, parsing builds a
 value above it, and evaluation writes only at or above the heap base it is given and decides from
 entrypoint, data value and input bytes. `world` stands for everything else a call may depend on
 (memory cap, native limits); it may decide whether a call traps but not what a finished one answers.
 */
module Guest {
  import opened Types
  import opened CString

  /** Linear memory and the guest's bump pointer. */
  datatype Machine = Machine(mem: seq<byte>, heap: nat)

  /** How a guest call ends; even a trapped one has touched memory. */
  datatype Reply = Trapped(machine: Machine) | Returned(machine: Machine, addr: int)

  type World = nat

  datatype Exports = Exports(
    malloc: (Machine, nat, World) -> Reply,
    parse: (Machine, nat, nat, World) -> Reply,
    eval: (Machine, int, nat, nat, nat, nat, World) -> Reply,
    value: (seq<byte>, nat) -> seq<byte>,             // the document an OPA value address stands for
    decide: (int, Document, seq<byte>) -> seq<byte>)  // the policy: entrypoint, data, input -> JSON text

  /** x and y hold the same bytes in [lo, hi). */
  predicate Agree(x: seq<byte>, y: seq<byte>, lo: nat, hi: nat) {
    && hi <= |x| && hi <= |y|
    && forall k :: lo <= k < hi ==> x[k] == y[k]
  }

  /** The call left everything below p alone and did not shrink memory. */
  predicate Preserves(m: Machine, m': Machine, p: nat) {
    && |m.mem| <= |m'.mem|
    && forall k :: 0 <= k < p && k < |m.mem| ==> m'.mem[k] == m.mem[k]
  }

  /** The OPA value at addr is doc, and its whole representation lies in [lo, hi). */
  ghost predicate Settled(g: Exports, mem: seq<byte>, lo: nat, hi: nat, addr: nat, doc: seq<byte>) {
    && hi <= |mem|
    && forall x :: Agree(x, mem, lo, hi) ==> g.value(x, addr) == doc
  }

  ghost predicate MallocOk(g: Exports, m: Machine, n: nat, w: World) {
    var r := g.malloc(m, n, w);
    && Preserves(m, r.machine, m.heap)
    && (r.Returned? && r.addr > 0 ==> m.heap <= r.addr && r.addr + n <= r.machine.heap)
  }

  ghost predicate ParseOk(g: Exports, m: Machine, a: nat, n: nat, w: World) {
    var r := g.parse(m, a, n, w);
    && Preserves(m, r.machine, m.heap)
    && (r.Returned? && r.addr > 0 && a + n <= m.heap && a + n <= |m.mem| ==>
          && m.heap <= r.machine.heap
          && Settled(g, r.machine.mem, a, r.machine.heap, r.addr, m.mem[a .. a + n]))
  }

  /** Data 0 means no document; otherwise the value must lie wholly below the heap base. */
  ghost predicate DataBelow(g: Exports, m: Machine, data: nat, base: nat, doc: Document) {
    if data == 0 then doc.None?
    else doc.Some? && exists hi: nat :: hi <= base && Settled(g, m.mem, 0, hi, data, doc.value)
  }

  /** The answer is determined only if the input buffer lies wholly below the heap base. */
  ghost predicate EvalOk(g: Exports, m: Machine, ep: int, data: nat, input: nat, n: nat, base: nat, w: World) {
    var r := g.eval(m, ep, data, input, n, base, w);
    && Preserves(m, r.machine, base)
    && (r.Returned? && input + n <= base && input + n <= |m.mem| ==>
          forall doc :: DataBelow(g, m, data, base, doc) ==>
            var out := g.decide(ep, doc, m.mem[input .. input + n]);
            EndsAfter(r.machine.mem, r.addr, |out|) && r.machine.mem[r.addr .. r.addr + |out|] == out)
  }

  ghost predicate Lawful(g: Exports) {
    && (forall m, n, w :: MallocOk(g, m, n, w))
    && (forall m, a, n, w :: ParseOk(g, m, a, n, w))
    && (forall m, ep, data, input, n, base, w :: EvalOk(g, m, ep, data, input, n, base, w))
  }

  lemma MallocLaw(g: Exports, m: Machine, n: nat, w: World)
    requires Lawful(g)
    ensures MallocOk(g, m, n, w)
  {
    var ok := MallocOk(g, m, n, w);
    assert ok;
  }

  lemma ParseLaw(g: Exports, m: Machine, a: nat, n: nat, w: World)
    requires Lawful(g)
    ensures ParseOk(g, m, a, n, w)
  {
    var ok := ParseOk(g, m, a, n, w);
    assert ok;
  }

  lemma EvalLaw(g: Exports, m: Machine, ep: int, data: nat, input: nat, n: nat, base: nat, w: World)
    requires Lawful(g)
    ensures EvalOk(g, m, ep, data, input, n, base, w)
  {
    var ok := EvalOk(g, m, ep, data, input, n, base, w);
    assert ok;
  }

  /** A settled value stays settled in any memory that keeps its bytes, and in any wider region. */
  lemma SettledStays(g: Exports, mem: seq<byte>, mem': seq<byte>, lo: nat, hi: nat, lo': nat, hi': nat, addr: nat, doc: seq<byte>)
    requires Settled(g, mem, lo, hi, addr, doc) && Agree(mem', mem, lo, hi)
    requires lo' <= lo && hi <= hi' <= |mem'| && lo <= hi
    ensures Settled(g, mem', lo', hi', addr, doc)
  {
    forall x | Agree(x, mem', lo', hi') ensures g.value(x, addr) == doc {
      assert Agree(x, mem, lo, hi);
    }
  }

  /** The evaluation law for a document settled in [lo, hi) below the base: the answer is the decision on it. */
  lemma EvalAnswers(g: Exports, m: Machine, ep: int, data: nat, lo: nat, hi: nat, doc: Document,
                    input: nat, bytes: seq<byte>, base: nat, w: World)
    requires Lawful(g) && lo <= hi <= base
    requires if data == 0 then doc.None? else doc.Some? && Settled(g, m.mem, lo, hi, data, doc.value)
    requires input + |bytes| <= base && input + |bytes| <= |m.mem| && m.mem[input .. input + |bytes|] == bytes
    ensures var r := g.eval(m, ep, data, input, |bytes|, base, w);
            var out := g.decide(ep, doc, bytes);
            && Preserves(m, r.machine, base)
            && (r.Returned? ==>
                  EndsAfter(r.machine.mem, r.addr, |out|) && r.machine.mem[r.addr .. r.addr + |out|] == out)
  {
    EvalLaw(g, m, ep, data, input, |bytes|, base, w);
    if data != 0 {
      SettledStays(g, m.mem, m.mem, lo, hi, 0, hi, data, doc.value);
    }
    var below := DataBelow(g, m, data, base, doc);
    assert below;
  }

  // ---------------------------------------------------------------------------------------------
  // A guest that never lets the host down, to say when the host itself must succeed

  ghost predicate MallocGives(g: Exports, m: Machine, n: nat, w: World) {
    var r := g.malloc(m, n, w);
    r.Returned? && r.addr > 0 && r.addr + n <= |r.machine.mem|
  }

  ghost predicate ParseGives(g: Exports, m: Machine, a: nat, n: nat, w: World) {
    var r := g.parse(m, a, n, w);
    r.Returned? && r.addr > 0
  }

  ghost predicate EvalGives(g: Exports, m: Machine, ep: int, data: nat, input: nat, n: nat, base: nat, w: World) {
    g.eval(m, ep, data, input, n, base, w).Returned?
  }

  ghost predicate Obliging(g: Exports) {
    && (forall m, n, w :: MallocGives(g, m, n, w))
    && (forall m, a, n, w :: ParseGives(g, m, a, n, w))
    && (forall m, ep, data, input, n, base, w :: EvalGives(g, m, ep, data, input, n, base, w))
  }

  lemma MallocObliges(g: Exports, m: Machine, n: nat, w: World)
    requires Obliging(g)
    ensures MallocGives(g, m, n, w)
  {
    var ok := MallocGives(g, m, n, w);
    assert ok;
  }

  lemma ParseObliges(g: Exports, m: Machine, a: nat, n: nat, w: World)
    requires Obliging(g)
    ensures ParseGives(g, m, a, n, w)
  {
    var ok := ParseGives(g, m, a, n, w);
    assert ok;
  }

  lemma EvalObliges(g: Exports, m: Machine, ep: int, data: nat, input: nat, n: nat, base: nat, w: World)
    requires Obliging(g)
    ensures EvalGives(g, m, ep, data, input, n, base, w)
  {
    var ok := EvalGives(g, m, ep, data, input, n, base, w);
    assert ok;
  }

  // ---------------------------------------------------------------------------------------------
  // A guest whose allocations have a known cost, to say that the host leaks no heap

  /** Heap consumed by allocating n bytes and by parsing an n-byte document. */
  datatype Costs = Costs(malloc: nat -> nat, parse: nat -> nat)

  ghost predicate MallocCosts(g: Exports, c: Costs, m: Machine, n: nat, w: World) {
    g.malloc(m, n, w).machine.heap <= m.heap + c.malloc(n)
  }

  ghost predicate ParseCosts(g: Exports, c: Costs, m: Machine, a: nat, n: nat, w: World) {
    g.parse(m, a, n, w).machine.heap <= m.heap + c.parse(n)
  }

  ghost predicate Thrifty(g: Exports, c: Costs) {
    && (forall m, n, w :: MallocCosts(g, c, m, n, w))
    && (forall m, a, n, w :: ParseCosts(g, c, m, a, n, w))
  }

  /** What one document costs when loaded on its own. */
  function Footprint(c: Costs, doc: Document): nat {
    if doc.None? then 0 else c.malloc(|doc.value|) + c.parse(|doc.value|)
  }

  lemma CostsOf(g: Exports, c: Costs, m: Machine, a: nat, n: nat, w: World)
    requires Thrifty(g, c)
    ensures MallocCosts(g, c, m, n, w) && ParseCosts(g, c, m, a, n, w)
  {
    var ok := MallocCosts(g, c, m, n, w) && ParseCosts(g, c, m, a, n, w);
    assert ok;
  }
}
