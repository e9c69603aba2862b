/** Weighted sums over sequences: the counting argument behind every conservation law of the pool. */
module Sums {

  function Sum<T>(w: T -> int, s: seq<T>): int {
    if s == [] then 0 else w(s[0]) + Sum(w, s[1..])
  }

  lemma {:induction false} SumAppend<T>(w: T -> int, s: seq<T>, x: T)
    ensures Sum(w, s + [x]) == Sum(w, s) + w(x)
  {
    if s == [] {
      assert s + [x] == [x];
    } else {
      assert (s + [x])[1..] == s[1..] + [x];
      SumAppend(w, s[1..], x);
    }
  }

  lemma {:induction false} SumUpdate<T>(w: T -> int, s: seq<T>, k: nat, x: T)
    requires k < |s|
    ensures Sum(w, s[k := x]) == Sum(w, s) - w(s[k]) + w(x)
  {
    if k == 0 {
      assert s[0 := x][1..] == s[1..];
    } else {
      assert s[k := x][1..] == s[1..][k - 1 := x];
      SumUpdate(w, s[1..], k - 1, x);
    }
  }

  lemma {:induction false} SumMonotone<T>(v: T -> int, w: T -> int, s: seq<T>)
    requires forall k :: 0 <= k < |s| ==> v(s[k]) <= w(s[k])
    ensures Sum(v, s) <= Sum(w, s)
  {
    if s == [] {
    } else {
      assert forall k :: 0 <= k < |s[1..]| ==> s[1..][k] == s[k + 1];
      SumMonotone(v, w, s[1..]);
    }
  }

  /** A pointwise inequality between pairs of weightings carries over to their sums. */
  lemma {:induction false} SumBalance<T>(a: T -> int, b: T -> int, c: T -> int, d: T -> int, s: seq<T>)
    requires forall k :: 0 <= k < |s| ==> a(s[k]) + b(s[k]) <= c(s[k]) + d(s[k])
    ensures Sum(a, s) + Sum(b, s) <= Sum(c, s) + Sum(d, s)
  {
    if s == [] {
    } else {
      assert forall k :: 0 <= k < |s[1..]| ==> s[1..][k] == s[k + 1];
      SumBalance(a, b, c, d, s[1..]);
    }
  }

  lemma {:induction false} SumLower<T>(w: T -> int, s: seq<T>)
    requires forall k :: 0 <= k < |s| ==> 0 <= w(s[k])
    ensures 0 <= Sum(w, s)
    ensures forall k :: 0 <= k < |s| ==> w(s[k]) <= Sum(w, s)
  {
    if s == [] {
    } else {
      assert forall k :: 0 <= k < |s[1..]| ==> s[1..][k] == s[k + 1];
      SumLower(w, s[1..]);
      forall k | 0 <= k < |s| ensures w(s[k]) <= Sum(w, s) {
        if k > 0 {
          assert s[k] == s[1..][k - 1];
        }
      }
    }
  }

  /** Two positive entries of a nonnegative weighting cannot hide in a smaller sum. */
  lemma {:induction false} SumTwo<T>(w: T -> int, s: seq<T>, j: nat, k: nat)
    requires forall m :: 0 <= m < |s| ==> 0 <= w(s[m])
    requires j < k < |s|
    ensures w(s[j]) + w(s[k]) <= Sum(w, s)
  {
    assert forall m :: 0 <= m < |s[1..]| ==> s[1..][m] == s[m + 1];
    if j == 0 {
      SumLower(w, s[1..]);
      assert s[k] == s[1..][k - 1];
    } else {
      SumTwo(w, s[1..], j - 1, k - 1);
    }
  }

  lemma {:induction false} SumZero<T>(w: T -> int, s: seq<T>)
    requires forall k :: 0 <= k < |s| ==> w(s[k]) == 0
    ensures Sum(w, s) == 0
  {
    if s == [] {
    } else {
      assert forall k :: 0 <= k < |s[1..]| ==> s[1..][k] == s[k + 1];
      SumZero(w, s[1..]);
    }
  }

  lemma {:induction false} SumConstant<T>(w: T -> int, s: seq<T>, c: int)
    requires forall k :: 0 <= k < |s| ==> w(s[k]) == c
    ensures Sum(w, s) == c * |s|
  {
    if s == [] {
    } else {
      assert forall k :: 0 <= k < |s[1..]| ==> s[1..][k] == s[k + 1];
      SumConstant(w, s[1..], c);
      assert c * |s| == c + c * |s[1..]|;
    }
  }

  /** A positive sum of nonnegative weights has a witness. */
  lemma {:induction false} SumWitness<T>(w: T -> int, s: seq<T>) returns (k: nat)
    requires forall m :: 0 <= m < |s| ==> 0 <= w(s[m])
    requires Sum(w, s) > 0
    ensures k < |s| && w(s[k]) > 0
  {
    if w(s[0]) > 0 {
      k := 0;
    } else {
      assert forall m :: 0 <= m < |s[1..]| ==> s[1..][m] == s[m + 1];
      var j := SumWitness(w, s[1..]);
      k := j + 1;
    }
  }
}
