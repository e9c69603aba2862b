/** The walk along cause/context links, on any finite exception graph, cycles included. */
module ExceptionChain {
  import opened Types

  type Exc = nat

  /** Exceptions are numbered; typed says it is one of the SDK's own errors. */
  datatype Node = Node(typed: bool, text: string, cause: Option<Exc>, context: Option<Exc>)

  type Graph = seq<Node>

  /** Every link leads to an exception of the graph. */
  predicate Closed(g: Graph) {
    forall x :: 0 <= x < |g| ==>
      && (g[x].cause.Some? ==> g[x].cause.value < |g|)
      && (g[x].context.Some? ==> g[x].context.value < |g|)
  }

  /** The link followed: the cause if there is one, else the context. */
  function Link(g: Graph, x: Exc): Option<Exc>
    requires x < |g|
  {
    if g[x].cause.Some? then g[x].cause else g[x].context
  }

  /** The exception n links away, if the path is that long. */
  function Walk(g: Graph, x: Exc, n: nat): Option<Exc>
    requires Closed(g) && x < |g|
    ensures Walk(g, x, n).Some? ==> Walk(g, x, n).value < |g|
  {
    if n == 0 then Some(x)
    else
      var before := Walk(g, x, n - 1);
      if before.None? then None else Link(g, before.value)
  }

  ghost function Below(n: nat): (r: set<Exc>)
    ensures forall y: Exc :: y in r <==> y < n
  {
    if n == 0 then {} else Below(n - 1) + {n - 1}
  }

  /** The exception n links away exists and hits. */
  predicate HitAt(g: Graph, x: Exc, hits: Node -> bool, n: nat)
    requires Closed(g) && x < |g|
  {
    Walk(g, x, n).Some? && hits(g[Walk(g, x, n).value])
  }

  /** The walk first hits after n links, at r. */
  ghost predicate FirstHit(g: Graph, x: Exc, hits: Node -> bool, n: nat, r: Exc)
    requires Closed(g) && x < |g|
  {
    && HitAt(g, x, hits, n) && Walk(g, x, n) == Some(r)
    && forall m: nat :: m < n ==> !HitAt(g, x, hits, m)
  }

  /**
   Terminates on every graph. Finds the first hit on the path from x, and reports none only if no
   exception anywhere along the (possibly endless) path hits.
   */
  method FindInChain(g: Graph, x: Exc, hits: Node -> bool) returns (r: Option<Exc>)
    requires Closed(g) && x < |g|
    ensures r.Some? ==> r.value < |g| && exists n: nat :: FirstHit(g, x, hits, n, r.value)
    ensures r.None? ==> forall n: nat :: !HitAt(g, x, hits, n)
  {
    var cur: Option<Exc> := Some(x);
    var seen: set<Exc> := {};
    ghost var n: nat := 0;
    while cur.Some? && cur.value !in seen
      invariant cur == Walk(g, x, n) && (n > 0 ==> x in seen)
      invariant forall m: nat :: m < n ==> !HitAt(g, x, hits, m)
      invariant forall y :: y in seen ==> y < |g| && !hits(g[y])
      invariant forall y :: y in seen ==> Link(g, y) == cur || (Link(g, y).Some? && Link(g, y).value in seen)
      decreases Below(|g|) - seen
    {
      seen := seen + {cur.value};
      if hits(g[cur.value]) {
        assert FirstHit(g, x, hits, n, cur.value);
        return cur;
      }
      assert !HitAt(g, x, hits, n);
      cur := Link(g, cur.value);
      n := n + 1;
    }
    forall k: nat ensures !HitAt(g, x, hits, k) {
      StaysInside(g, x, seen, k);
    }
    r := None;
  }

  /** A set that holds the start and is closed under links holds the whole path. */
  lemma {:induction false} StaysInside(g: Graph, x: Exc, inside: set<Exc>, n: nat)
    requires Closed(g) && x < |g| && x in inside
    requires forall y :: y in inside ==> y < |g| && (Link(g, y).Some? ==> Link(g, y).value in inside)
    ensures Walk(g, x, n).Some? ==> Walk(g, x, n).value in inside
  {
    if n == 0 {
    } else {
      StaysInside(g, x, inside, n - 1);
    }
  }

  /** _find_typed_in_chain: the first of the SDK's own errors on the path. */
  method FindTyped(g: Graph, x: Exc) returns (r: Option<Exc>)
    requires Closed(g) && x < |g|
    ensures r.Some? ==> r.value < |g| && exists n: nat :: FirstHit(g, x, Typed, n, r.value)
    ensures r.None? ==> forall n: nat :: !HitAt(g, x, Typed, n)
  {
    r := FindInChain(g, x, Typed);
  }

  predicate Typed(node: Node) { node.typed }

  /** ASCII lower case; no other letter folds into the words looked for. */
  function Lower(text: string): (r: string)
    ensures |r| == |text|
  {
    seq(|text|, k requires 0 <= k < |text| =>
      if 'A' <= text[k] <= 'Z' then (text[k] as int - 'A' as int + 'a' as int) as char else text[k])
  }

  predicate Contains(text: string, word: string) {
    exists k :: 0 <= k <= |text| && OccursAt(text, word, k)
  }

  predicate OccursAt(text: string, word: string, k: nat) {
    k + |word| <= |text| && text[k .. k + |word|] == word
  }

  predicate MentionsInterrupt(node: Node) {
    Contains(Lower(node.text), "interrupt") || Contains(Lower(node.text), "epoch")
  }

  /** The text spells the word, each letter in either case. */
  predicate Spells(text: string, lower: string, upper: string)
    requires |lower| == |upper|
  {
    |text| == |lower| && forall k :: 0 <= k < |text| ==> text[k] == lower[k] || text[k] == upper[k]
  }

  /** Some part of the text spells the word. */
  ghost predicate SaysSomewhere(text: string, lower: string, upper: string)
    requires |lower| == |upper|
  {
    exists x, w, y :: text == x + w + y && Spells(w, lower, upper)
  }

  /** upper is lower, letter by letter in the other case. */
  predicate CasePair(lower: string, upper: string) {
    && |lower| == |upper| && Lower(upper) == lower
    && forall k :: 0 <= k < |lower| ==> 'a' <= lower[k] <= 'z' && 'A' <= upper[k] <= 'Z'
  }

  lemma SpellsExactly(text: string, lower: string, upper: string)
    requires CasePair(lower, upper)
    ensures Spells(text, lower, upper) <==> Lower(text) == lower
  {
    if Lower(text) == lower {
      forall k | 0 <= k < |text| ensures text[k] == lower[k] || text[k] == upper[k] {
        assert Lower(text)[k] == lower[k] && Lower(upper)[k] == lower[k];
      }
    }
    if Spells(text, lower, upper) {
      forall k | 0 <= k < |text| ensures Lower(text)[k] == lower[k] {
        assert Lower(upper)[k] == lower[k];
      }
    }
  }

  lemma ContainsExactly(text: string, lower: string, upper: string)
    requires CasePair(lower, upper)
    ensures Contains(Lower(text), lower) <==> SaysSomewhere(text, lower, upper)
  {
    if Contains(Lower(text), lower) {
      var k :| 0 <= k <= |text| && OccursAt(Lower(text), lower, k);
      var w := text[k .. k + |lower|];
      assert Lower(w) == Lower(text)[k .. k + |lower|];
      SpellsExactly(w, lower, upper);
      assert text == text[..k] + w + text[k + |lower| ..];
    }
    if SaysSomewhere(text, lower, upper) {
      var x, w, y :| text == x + w + y && Spells(w, lower, upper);
      SpellsExactly(w, lower, upper);
      assert Lower(text)[|x| .. |x| + |lower|] == Lower(w);
      assert OccursAt(Lower(text), lower, |x|);
    }
  }

  /** A message mentions an interrupt iff it says "interrupt" or "epoch" somewhere, in any mix of cases. */
  lemma MentionsExactly(node: Node)
    ensures MentionsInterrupt(node) <==>
              SaysSomewhere(node.text, "interrupt", "INTERRUPT") || SaysSomewhere(node.text, "epoch", "EPOCH")
  {
    ContainsExactly(node.text, "interrupt", "INTERRUPT");
    ContainsExactly(node.text, "epoch", "EPOCH");
  }

  /** _is_epoch_interrupt: does any message on the path mention an interrupt? */
  method IsEpochInterrupt(g: Graph, x: Exc) returns (b: bool)
    requires Closed(g) && x < |g|
    ensures b <==> exists n: nat :: HitAt(g, x, MentionsInterrupt, n)
  {
    var r := FindInChain(g, x, MentionsInterrupt);
    b := r.Some?;
    if b {
      ghost var n: nat :| FirstHit(g, x, MentionsInterrupt, n, r.value);
      assert HitAt(g, x, MentionsInterrupt, n);
    }
  }

  // ---------------------------------------------------------------------------------------------
  // The re-raise

  /** The graph with context links only. */
  function Contexts(g: Graph): (h: Graph)
    ensures |h| == |g| && (Closed(g) ==> Closed(h))
  {
    seq(|g|, k requires 0 <= k < |g| => g[k].(cause := None))
  }

  function LeadsTo(r: Exc): Node -> bool {
    (node: Node) => node.context == Some(r)
  }

  /**
   Raising r while x is being handled makes x the context of r; to keep the context chain acyclic
   the interpreter first clears the first link along x's contexts that leads to r, if there is one.
   */
  ghost predicate IsCleared(g: Graph, r: Exc, x: Exc, cleared: Option<Exc>)
    requires Closed(g) && x < |g|
  {
    match cleared
    case Some(c) => exists m: nat :: FirstHit(Contexts(g), x, LeadsTo(r), m, c)
    case None => forall m: nat :: !HitAt(Contexts(g), x, LeadsTo(r), m)
  }

  /** `raise r from x` in the handler of x. */
  function RaiseFrom(g: Graph, r: Exc, x: Exc, cleared: Option<Exc>): Graph
    requires r < |g| && (cleared.Some? ==> cleared.value < |g|)
  {
    if r == x then g[r := g[r].(cause := Some(x))]
    else
      var g1 := if cleared.Some? then g[cleared.value := g[cleared.value].(context := None)] else g;
      g1[r := g1[r].(cause := Some(x), context := Some(x))]
  }

  /** The link that led the search into r is a context link, and the one the interpreter clears. */
  predicate CutsPath(g: Graph, x: Exc, n: nat, cleared: Option<Exc>)
    requires Closed(g) && x < |g|
  {
    n > 0 && cleared.Some? && Walk(g, x, n - 1) == cleared && g[cleared.value].cause.None?
  }

  ghost predicate Returns(g: Graph, r: Exc)
    requires Closed(g) && r < |g|
  {
    exists k: nat :: k > 0 && Walk(g, r, k) == Some(r)
  }

  /**
   After the re-raise the path from r runs through x and everything that was searched, in order;
   then it closes a cycle through r, unless the interpreter has cut its last link: then it ends.
   */
  lemma ReRaiseCycleExactly(g: Graph, x: Exc, n: nat, r: Exc, cleared: Option<Exc>)
    requires Closed(g) && x < |g| && r < |g| && FirstHit(g, x, Typed, n, r) && IsCleared(g, r, x, cleared)
    ensures cleared.Some? ==> cleared.value < |g|
    ensures var g' := RaiseFrom(g, r, x, cleared);
            && Closed(g') && |g'| == |g|
            && (forall k: nat :: k < n ==> Walk(g', r, k + 1) == Walk(g, x, k))
            && Walk(g', r, n + 1) == (if CutsPath(g, x, n, cleared) then None else Some(r))
            && (Returns(g', r) <==> !CutsPath(g, x, n, cleared))
  {
    ClearedLink(g, r, x, cleared);
    var g' := RaiseFrom(g, r, x, cleared);
    forall k: nat | k <= n
      ensures Walk(g', r, k + 1) == if k == n && CutsPath(g, x, n, cleared) then None else Walk(g, x, k)
    {
      PathAfter(g, x, n, r, cleared, k);
    }
    if CutsPath(g, x, n, cleared) {
      NoReturn(g, g', x, n, r);
    }
  }

  lemma ClearedLink(g: Graph, r: Exc, x: Exc, cleared: Option<Exc>)
    requires Closed(g) && x < |g| && IsCleared(g, r, x, cleared)
    ensures cleared.Some? ==> cleared.value < |g| && g[cleared.value].context == Some(r)
  {
    if cleared.Some? {
      var m: nat :| FirstHit(Contexts(g), x, LeadsTo(r), m, cleared.value);
    }
  }

  /** The path from r after the re-raise, link by link. */
  lemma PathAfter(g: Graph, x: Exc, n: nat, r: Exc, cleared: Option<Exc>, k: nat)
    requires Closed(g) && x < |g| && r < |g| && FirstHit(g, x, Typed, n, r) && k <= n
    requires cleared.Some? ==> cleared.value < |g| && g[cleared.value].context == Some(r)
    ensures var g' := RaiseFrom(g, r, x, cleared);
            && Closed(g')
            && Walk(g', r, k + 1) == if k == n && CutsPath(g, x, n, cleared) then None else Walk(g, x, k)
  {
    var g' := RaiseFrom(g, r, x, cleared);
    SamePath(g, g', x, n, r, cleared, k);
    WalkFromLink(g', r, x, k);
  }

  /** A path that ends after the untyped part of the search does not come back to r. */
  lemma NoReturn(g: Graph, g': Graph, x: Exc, n: nat, r: Exc)
    requires Closed(g) && x < |g| && Closed(g') && r < |g'| && FirstHit(g, x, Typed, n, r)
    requires forall k: nat :: k < n ==> Walk(g', r, k + 1) == Walk(g, x, k)
    requires Walk(g', r, n + 1).None?
    ensures !Returns(g', r)
  {
    forall k: nat | k > 0 ensures Walk(g', r, k) != Some(r) {
      if k <= n {
        assert !HitAt(g, x, Typed, k - 1);
        assert Walk(g', r, k - 1 + 1) == Walk(g, x, k - 1);
      } else {
        WalkEnds(g', r, n + 1, k);
      }
    }
  }

  /** The re-raise changes one link of an exception other than r, if any. */
  lemma LinkAfter(g: Graph, r: Exc, x: Exc, cleared: Option<Exc>, y: Exc)
    requires r < |g| && r != x && (cleared.Some? ==> cleared.value < |g|) && y < |g| && y != r
    ensures Link(RaiseFrom(g, r, x, cleared), y) == if cleared == Some(y) && g[y].cause.None? then None else Link(g, y)
  {
  }

  /** The search path survives the re-raise up to its last link. */
  lemma {:induction false} SamePath(g: Graph, g': Graph, x: Exc, n: nat, r: Exc, cleared: Option<Exc>, k: nat)
    requires Closed(g) && Closed(g') && x < |g| && r < |g| && FirstHit(g, x, Typed, n, r) && k <= n
    requires cleared.Some? ==> cleared.value < |g| && g[cleared.value].context == Some(r)
    requires g' == RaiseFrom(g, r, x, cleared)
    ensures Walk(g', x, k) == if k == n && CutsPath(g, x, n, cleared) then None else Walk(g, x, k)
  {
    if k == 0 {
    } else {
      SamePath(g, g', x, n, r, cleared, k - 1);
      WalkReaches(g, x, k - 1, n);
      assert !HitAt(g, x, Typed, 0) && !HitAt(g, x, Typed, k - 1);
      assert Walk(g, x, 0) == Some(x);
      LinkAfter(g, r, x, cleared, Walk(g, x, k - 1).value);
      if k < n {
        assert !HitAt(g, x, Typed, k);
      }
    }
  }

  lemma {:induction false} WalkFromLink(g: Graph, r: Exc, x: Exc, n: nat)
    requires Closed(g) && r < |g| && x < |g| && Link(g, r) == Some(x)
    ensures Walk(g, r, n + 1) == Walk(g, x, n)
  {
    if n == 0 {
      assert Walk(g, r, 0) == Some(r);
    } else {
      WalkFromLink(g, r, x, n - 1);
    }
  }

  /** A path that has ended stays ended. */
  lemma {:induction false} WalkEnds(g: Graph, x: Exc, n: nat, k: nat)
    requires Closed(g) && x < |g| && n <= k && Walk(g, x, n).None?
    ensures Walk(g, x, k).None?
  {
    if k == n {
    } else {
      WalkEnds(g, x, n, k - 1);
    }
  }

  lemma WalkReaches(g: Graph, x: Exc, k: nat, n: nat)
    requires Closed(g) && x < |g| && k <= n && Walk(g, x, n).Some?
    ensures Walk(g, x, k).Some?
  {
    if Walk(g, x, k).None? {
      WalkEnds(g, x, k, n);
    }
  }

  /**
   When the error survives on context links alone, the interpreter always cuts the path: no cycle.
   When the last link is a cause, ReRaiseCycleExactly always gives one.
   */
  lemma ContextPathIsCut(g: Graph, x: Exc, n: nat, r: Exc, cleared: Option<Exc>)
    requires Closed(g) && x < |g| && r < |g| && FirstHit(g, x, Typed, n, r) && IsCleared(g, r, x, cleared)
    requires n > 0 && forall k: nat :: k < n ==> Walk(g, x, k).Some? && g[Walk(g, x, k).value].cause.None?
    ensures CutsPath(g, x, n, cleared)
  {
    var h, hits := Contexts(g), LeadsTo(r);
    forall k: nat | k < n ensures Walk(h, x, k) == Walk(g, x, k) && (HitAt(h, x, hits, k) <==> k == n - 1) {
      SameContexts(g, x, n, k);
      var next := Walk(g, x, k + 1);
      assert next == g[Walk(g, x, k).value].context;
      if k < n - 1 {
        assert !HitAt(g, x, Typed, k + 1);
      }
    }
    assert HitAt(h, x, hits, n - 1);
    if cleared.Some? {
      var m: nat :| FirstHit(h, x, hits, m, cleared.value);
      assert m == n - 1;
    }
  }

  lemma {:induction false} SameContexts(g: Graph, x: Exc, n: nat, k: nat)
    requires Closed(g) && x < |g| && k < n
    requires forall j: nat :: j < n ==> Walk(g, x, j).Some? && g[Walk(g, x, j).value].cause.None?
    ensures Walk(Contexts(g), x, k) == Walk(g, x, k)
  {
    if k == 0 {
    } else {
      SameContexts(g, x, n, k - 1);
    }
  }

  /** A trap that wraps the SDK's error as its context (or, with `caused`, as its cause). */
  function TwoLinks(caused: bool): Graph {
    [Node(false, "", if caused then Some(1) else None, Some(1)), Node(true, "", None, None)]
  }

  /** Both ends occur: on the context link alone the path ends, on the cause link it is cyclic. */
  lemma ReRaiseOfTwo(caused: bool)
    ensures var g := TwoLinks(caused);
            && Closed(g) && FirstHit(g, 0, Typed, 1, 1) && IsCleared(g, 1, 0, Some(0))
            && Closed(RaiseFrom(g, 1, 0, Some(0)))
            && (Returns(RaiseFrom(g, 1, 0, Some(0)), 1) <==> caused)
  {
    var g := TwoLinks(caused);
    assert Walk(g, 0, 0) == Some(0);
    assert Walk(Contexts(g), 0, 0) == Some(0);
    assert FirstHit(g, 0, Typed, 1, 1);
    assert FirstHit(Contexts(g), 0, LeadsTo(1), 0, 0);
    ReRaiseCycleExactly(g, 0, 1, 1, Some(0));
  }

  /** What the handler of an unexpected exception raises instead. */
  datatype Raised = Recovered(error: Exc, graph: Graph) | TimedOut | EvaluationFailed

  /**
   The general handler of `evaluate`: the SDK's own error if one is on the path, re-raised from x;
   else a timeout if the guest was entered and the path mentions an interrupt; else a failure.
   */
  method Translate(g: Graph, x: Exc, enteredWasm: bool) returns (raised: Raised)
    requires Closed(g) && x < |g|
    ensures raised.Recovered? <==> exists n: nat :: HitAt(g, x, Typed, n)
    ensures raised.Recovered? ==>
              exists n: nat, cleared :: IsReRaise(g, x, n, raised.error, cleared, raised.graph)
    ensures raised.TimedOut? <==>
              !raised.Recovered? && enteredWasm && exists n: nat :: HitAt(g, x, MentionsInterrupt, n)
  {
    var typed := FindTyped(g, x);
    if typed.Some? {
      var r := typed.value;
      ghost var n: nat :| FirstHit(g, x, Typed, n, r);
      assert HitAt(g, x, Typed, n);
      var cleared := FindInChain(Contexts(g), x, LeadsTo(r));
      raised := Recovered(r, RaiseFrom(g, r, x, cleared));
      assert IsReRaise(g, x, n, r, cleared, raised.graph);
      return;
    }
    var interrupted := IsEpochInterrupt(g, x);
    raised := if enteredWasm && interrupted then TimedOut else EvaluationFailed;
  }

  ghost predicate IsReRaise(g: Graph, x: Exc, n: nat, r: Exc, cleared: Option<Exc>, g': Graph)
    requires Closed(g) && x < |g|
  {
    && r < |g| && FirstHit(g, x, Typed, n, r)
    && IsCleared(g, r, x, cleared) && (cleared.Some? ==> cleared.value < |g|)
    && g' == RaiseFrom(g, r, x, cleared)
  }
}
