/**
 A guest that satisfies the contract and never fails, so that what is proved for every lawful guest
 is about something. It keeps a document as its length in unary, a NUL and its bytes.
 */
module SampleGuest {
  import opened Types
  import opened CString
  import opened Guest

  function Max(a: nat, b: nat): nat { if a < b then b else a }

  function Zeros(n: nat): (z: seq<byte>)
    ensures |z| == n
  {
    seq(n, _ => 0)
  }

  /** mem, extended with zeros to at least n bytes. */
  function Grow(mem: seq<byte>, n: nat): (r: seq<byte>)
    ensures |r| == Max(|mem|, n) && r[..|mem|] == mem
  {
    if n <= |mem| then mem else mem + Zeros(n - |mem|)
  }

  function Malloc(m: Machine, n: nat, w: World): Reply {
    var a := Max(m.heap, 1);
    Returned(Machine(Grow(m.mem, a + n), a + n), a)
  }

  function Unary(n: nat): (u: seq<byte>)
    ensures |u| == n && forall k :: 0 <= k < n ==> u[k] == 1
  {
    seq(n, _ => 1)
  }

  function Layout(doc: seq<byte>): seq<byte> {
    Unary(|doc|) + [0] + doc
  }

  function Bytes(mem: seq<byte>, a: nat, n: nat): seq<byte> {
    if a + n <= |mem| then mem[a .. a + n] else []
  }

  function Parse(m: Machine, a: nat, n: nat, w: World): Reply {
    var v := Max(m.heap, 1);
    var layout := Layout(Bytes(m.mem, a, n));
    var mem := Grow(m.mem, v + |layout|);
    Returned(Machine(mem[..v] + layout + mem[v + |layout| ..], v + |layout|), v)
  }

  function Ones(x: seq<byte>, v: nat): nat
    decreases |x| - v
  {
    if v < |x| && x[v] == 1 then 1 + Ones(x, v + 1) else 0
  }

  function Value(x: seq<byte>, v: nat): seq<byte> {
    Bytes(x, v + Ones(x, v) + 1, Ones(x, v))
  }

  /** The policy: is the input the data document? */
  function Decide(ep: int, doc: Document, input: seq<byte>): seq<byte> {
    if doc == Some(input) then [49] else [48]
  }

  function Eval(m: Machine, ep: int, data: nat, input: nat, n: nat, base: nat, w: World): Reply {
    var doc := if data == 0 then None else Some(Value(m.mem, data));
    var p := Max(base, |m.mem|);
    var out := Decide(ep, doc, Bytes(m.mem, input, n));
    Returned(Machine(Grow(m.mem, p) + out + [0], p + |out| + 1), p)
  }

  const G: Exports := Exports(Malloc, Parse, Eval, Value, Decide)

  lemma {:induction false} OnesCount(x: seq<byte>, v: nat, n: nat)
    requires v + n < |x| && x[v + n] != 1 && forall k :: v <= k < v + n ==> x[k] == 1
    ensures Ones(x, v) == n
    decreases n
  {
    if n == 0 {
    } else {
      OnesCount(x, v + 1, n - 1);
    }
  }

  lemma ValueOfLayout(x: seq<byte>, v: nat, doc: seq<byte>)
    requires v + |Layout(doc)| <= |x| && x[v .. v + |Layout(doc)|] == Layout(doc)
    ensures Value(x, v) == doc
  {
    var layout, n := Layout(doc), |doc|;
    assert forall k :: 0 <= k < |layout| ==> x[v + k] == layout[k];
    forall k | v <= k < v + n ensures x[k] == 1 {
      assert x[k] == layout[k - v];
    }
    assert x[v + n] == layout[n];
    OnesCount(x, v, n);
    assert layout[n + 1 ..] == doc;
    assert x[v + n + 1 .. v + n + 1 + n] == doc;
  }

  lemma SameSlice(x: seq<byte>, y: seq<byte>, lo: nat, v: nat, hi: nat)
    requires lo <= v <= hi && Agree(x, y, lo, hi)
    ensures x[v .. hi] == y[v .. hi]
  {
  }

  lemma ParseIsLawful(m: Machine, a: nat, n: nat, w: World)
    ensures ParseOk(G, m, a, n, w)
  {
    var r := Parse(m, a, n, w);
    if a + n <= m.heap && a + n <= |m.mem| {
      var doc := m.mem[a .. a + n];
      var layout := Layout(doc);
      assert r.machine.heap == r.addr + |layout| && r.machine.mem[r.addr .. r.machine.heap] == layout;
      forall x | Agree(x, r.machine.mem, a, r.machine.heap) ensures G.value(x, r.addr) == doc {
        SameSlice(x, r.machine.mem, a, r.addr, r.machine.heap);
        ValueOfLayout(x, r.addr, doc);
      }
    }
  }

  lemma EvalIsLawful(m: Machine, ep: int, data: nat, input: nat, n: nat, base: nat, w: World)
    ensures EvalOk(G, m, ep, data, input, n, base, w)
  {
    forall doc | DataBelow(G, m, data, base, doc) ensures doc == if data == 0 then None else Some(Value(m.mem, data)) {
      if data != 0 {
        var hi: nat :| hi <= base && Settled(G, m.mem, 0, hi, data, doc.value);
        assert Agree(m.mem, m.mem, 0, hi);
      }
    }
  }

  /** One byte may go to avoid address 0; a parsed document takes its length twice and a NUL. */
  const PRICES: Costs := Costs(n => n + 1, n => 2 * n + 2)

  /** The contract is met, and by a guest that obliges at known prices. */
  lemma ContractIsSatisfiable()
    ensures Lawful(G) && Obliging(G) && Thrifty(G, PRICES)
  {
    forall m, n, w ensures MallocCosts(G, PRICES, m, n, w) {
    }
    forall m, a, n, w ensures ParseCosts(G, PRICES, m, a, n, w) {
    }
    forall m, n, w ensures MallocOk(G, m, n, w) {
    }
    forall m, a, n, w ensures ParseOk(G, m, a, n, w) {
      ParseIsLawful(m, a, n, w);
    }
    forall m, ep, data, input, n, base, w ensures EvalOk(G, m, ep, data, input, n, base, w) {
      EvalIsLawful(m, ep, data, input, n, base, w);
    }
  }
}
