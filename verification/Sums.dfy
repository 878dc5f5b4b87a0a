/** Sums of a weight over the elements of a sequence. */
module Sums {

  ghost function Total<T>(s: seq<T>, weight: T -> nat): nat {
    if s == [] then 0 else Total(s[..|s| - 1], weight) + weight(s[|s| - 1])
  }

  lemma TotalSnoc<T>(s: seq<T>, x: T, weight: T -> nat)
    ensures Total(s + [x], weight) == Total(s, weight) + weight(x)
  {
    assert (s + [x])[..|s|] == s;
  }

  lemma {:induction false} TotalAppend<T>(a: seq<T>, b: seq<T>, weight: T -> nat)
    ensures Total(a + b, weight) == Total(a, weight) + Total(b, weight)
  {
    if b == [] {
      assert a + b == a;
    } else {
      var front, x := b[..|b| - 1], b[|b| - 1];
      assert a + b == (a + front) + [x];
      TotalAppend(a, front, weight);
      TotalSnoc(a + front, x, weight);
    }
  }

  lemma TotalMiddle<T>(a: seq<T>, x: T, b: seq<T>, weight: T -> nat)
    ensures Total(a + [x] + b, weight) == Total(a + b, weight) + weight(x)
    ensures multiset(a + [x] + b) == multiset(a + b) + multiset{x}
  {
    TotalAppend(a + [x], b, weight);
    TotalAppend(a, b, weight);
    TotalSnoc(a, x, weight);
  }

  lemma SplitAt<T>(s: seq<T>, k: nat)
    requires k < |s|
    ensures s == s[..k] + [s[k]] + s[k + 1..]
  {
  }

  lemma TotalWithout<T>(s: seq<T>, k: nat, weight: T -> nat)
    requires k < |s|
    ensures Total(s, weight) == Total(s[..k] + s[k + 1..], weight) + weight(s[k])
    ensures multiset(s) == multiset(s[..k] + s[k + 1..]) + multiset{s[k]}
  {
    SplitAt(s, k);
    TotalMiddle(s[..k], s[k], s[k + 1..], weight);
  }

  /** Dropping terms never raises a sum. */
  lemma {:induction false} TotalIncluded<T>(a: seq<T>, b: seq<T>, weight: T -> nat)
    requires multiset(a) <= multiset(b)
    ensures Total(a, weight) <= Total(b, weight)
    decreases |a|
  {
    if a != [] {
      var front, x := a[..|a| - 1], a[|a| - 1];
      assert a == front + [x];
      assert x in multiset(b);
      var k :| 0 <= k < |b| && b[k] == x;
      TotalWithout(b, k, weight);
      assert multiset(front) == multiset(a) - multiset{x};
      assert multiset(b[..k] + b[k + 1..]) == multiset(b) - multiset{x};
      TotalIncluded(front, b[..k] + b[k + 1..], weight);
    }
  }

  /** A sum does not depend on the order of its terms. */
  lemma TotalPermuted<T>(a: seq<T>, b: seq<T>, weight: T -> nat)
    requires multiset(a) == multiset(b)
    ensures Total(a, weight) == Total(b, weight)
  {
    TotalIncluded(a, b, weight);
    TotalIncluded(b, a, weight);
  }

  lemma TotalCons<T>(x: T, s: seq<T>, weight: T -> nat)
    ensures Total([x] + s, weight) == weight(x) + Total(s, weight)
  {
    TotalAppend([x], s, weight);
    TotalSnoc([], x, weight);
    assert [] + [x] == [x];
  }

  lemma TotalPair<T>(a: T, b: T, weight: T -> nat)
    ensures Total([b], weight) == weight(b) && Total([a, b], weight) == weight(a) + weight(b)
  {
    TotalSnoc([], b, weight);
    TotalSnoc([], a, weight);
    TotalSnoc([a], b, weight);
    assert [] + [b] == [b] && [] + [a] == [a] && [a] + [b] == [a, b];
  }
}
