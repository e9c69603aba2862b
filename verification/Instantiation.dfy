/** The memory-doubling instantiation retry of the runtime's constructor. */
module Instantiation {
  import opened Types

  const DEFAULT_PAGES: nat := 2
  const MAX_PAGES: nat := 16384

  /** How an attempt with a given initial size ends: any other engine error, or an error that is not the engine's. */
  datatype Attempt = Instantiated | Overflow | Refused | HostError

  datatype Outcome = Ready(store: nat, pages: int) | InvalidPolicy | Raised

  function Pow2(n: nat): nat { if n == 0 then 1 else 2 * Pow2(n - 1) }

  /** The initial size of attempt k, counting from 0. */
  function Size(k: nat, ceiling: int): int {
    if Pow2(k + 1) < ceiling then Pow2(k + 1) else ceiling
  }

  /** The attempts made: the doubling schedule up to the first that does not overflow, or to the ceiling. */
  predicate Tried(attempt: int -> Attempt, ceiling: int, sizes: seq<int>, r: Outcome) {
    && sizes != []
    && (forall k :: 0 <= k < |sizes| ==> sizes[k] == Size(k, ceiling))
    && (forall k :: 0 <= k < |sizes| - 1 ==> sizes[k] < ceiling && attempt(sizes[k]).Overflow?)
    && var last := sizes[|sizes| - 1];
       match attempt(last)
       case Instantiated => r == Ready(|sizes| - 1, last)
       case Overflow => r.InvalidPolicy? && last == ceiling
       case Refused => r.InvalidPolicy?
       case HostError => r.Raised?
  }

  /** The retry loop. Stores are numbered in the order they are opened; open holds those not yet closed. */
  method Retry(attempt: int -> Attempt, ceiling: int) returns (r: Outcome, sizes: seq<int>, open: set<nat>)
    requires ceiling >= DEFAULT_PAGES
    ensures Tried(attempt, ceiling, sizes, r)
    ensures open == if r.Ready? then {r.store} else {}
  {
    sizes, open := [], {};
    var pages: int := DEFAULT_PAGES;
    assert Pow2(1) == 2;
    while true
      invariant open == {} && pages == Size(|sizes|, ceiling)
      invariant forall k :: 0 <= k < |sizes| ==> sizes[k] == Size(k, ceiling)
      invariant forall k :: 0 <= k < |sizes| ==> sizes[k] < ceiling && attempt(sizes[k]).Overflow?
      invariant DEFAULT_PAGES <= pages <= ceiling
      decreases ceiling - pages, if sizes == [] || sizes[|sizes| - 1] < ceiling then 1 else 0
    {
      var store := |sizes|;
      open := open + {store};
      sizes := sizes + [pages];
      match attempt(pages) {
        case Instantiated =>
          return Ready(store, pages), sizes, open;
        case HostError =>
          open := open - {store};
          return Raised, sizes, open;
        case Refused =>
          open := open - {store};
          return InvalidPolicy, sizes, open;
        case Overflow =>
          open := open - {store};
          if pages >= ceiling {
            return InvalidPolicy, sizes, open;
          }
          pages := if pages * 2 < ceiling then pages * 2 else ceiling;
      }
    }
  }

  /**
   The constructor: a cap below two pages is refused outright, a configured cap is never exceeded,
   and without one the ceiling is 16384 pages. A module that needs `need` pages is instantiated
   exactly when it fits.
   */
  method Instantiate(attempt: int -> Attempt, maxPages: Option<int>)
    returns (r: Outcome, sizes: seq<int>, open: set<nat>)
    ensures maxPages.Some? && maxPages.value < 2 ==> r.InvalidPolicy? && sizes == []
    ensures maxPages.Some? && maxPages.value >= 2 ==> Tried(attempt, maxPages.value, sizes, r)
    ensures maxPages.None? ==> Tried(attempt, 16384, sizes, r)
    ensures forall k :: 0 <= k < |sizes| ==> 2 <= sizes[k] && (maxPages.Some? ==> sizes[k] <= maxPages.value)
    ensures forall need: int :: Needs(attempt, need) ==>
              (r.Ready? <==> if maxPages.Some? then maxPages.value >= 2 && need <= maxPages.value else need <= 16384)
    ensures open == if r.Ready? then {r.store} else {}
  {
    if maxPages.Some? && maxPages.value < DEFAULT_PAGES {
      return InvalidPolicy, [], {};
    }
    var ceiling := if maxPages.Some? then maxPages.value else MAX_PAGES;
    r, sizes, open := Retry(attempt, ceiling);
    SizesFit(attempt, ceiling, sizes, r);
    forall need: int | Needs(attempt, need) ensures r.Ready? <==> need <= ceiling {
      RetryIsTight(attempt, need, ceiling, sizes, r);
    }
  }

  lemma SizesFit(attempt: int -> Attempt, ceiling: int, sizes: seq<int>, r: Outcome)
    requires ceiling >= DEFAULT_PAGES && Tried(attempt, ceiling, sizes, r)
    ensures forall k :: 0 <= k < |sizes| ==> DEFAULT_PAGES <= sizes[k] <= ceiling
  {
    forall k | 0 <= k < |sizes| ensures DEFAULT_PAGES <= sizes[k] <= ceiling {
      Pow2AtLeast(k + 1);
    }
  }

  /** The module overflows below need pages and instantiates from there on. */
  ghost predicate Needs(attempt: int -> Attempt, need: int) {
    forall p: int :: attempt(p) == if p < need then Overflow else Instantiated
  }

  /**
   Complete and tight: success iff the need fits the ceiling; the size found is less than twice the
   need; and a retry after k attempts is made only if 2^k pages were too few.
   */
  lemma RetryIsTight(attempt: int -> Attempt, need: int, ceiling: int, sizes: seq<int>, r: Outcome)
    requires Needs(attempt, need) && ceiling >= DEFAULT_PAGES && Tried(attempt, ceiling, sizes, r)
    ensures r.Ready? <==> need <= ceiling
    ensures r.Ready? ==> need <= r.pages <= ceiling
    ensures r.Ready? && need > 2 ==> r.pages < 2 * need
    ensures need <= 2 ==> |sizes| == 1
    ensures forall k :: 1 <= k < |sizes| ==> Pow2(k) < need
  {
    var last := |sizes| - 1;
    forall k | 1 <= k < |sizes| ensures Pow2(k) < need {
      assert sizes[k - 1] == Size(k - 1, ceiling) && attempt(sizes[k - 1]).Overflow?;
    }
    Pow2AtLeast(last + 1);
    assert sizes[last] == Size(last, ceiling);
    if last > 0 {
      assert Pow2(last) < need;
      assert Pow2(last + 1) == 2 * Pow2(last);
    } else {
      assert Pow2(1) == 2;
    }
  }

  lemma {:induction false} Pow2AtLeast(n: nat)
    ensures Pow2(n) > n
  {
    if n == 0 {
    } else {
      Pow2AtLeast(n - 1);
    }
  }
}
