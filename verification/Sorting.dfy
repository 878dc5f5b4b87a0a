/** Stable sorting by a total preorder, and why a sorted arrangement is unique. */
module Sorting {

  ghost predicate TotalPreorder<T(!new)>(le: (T, T) -> bool) {
    && (forall x, y :: le(x, y) || le(y, x))
    && (forall x, y, z :: le(x, y) && le(y, z) ==> le(x, z))
  }

  ghost predicate Sorted<T>(le: (T, T) -> bool, s: seq<T>) {
    forall i, j :: 0 <= i < j < |s| ==> le(s[i], s[j])
  }

  /** No two different elements of `s` tie under `le`. */
  ghost predicate NoTies<T>(le: (T, T) -> bool, s: seq<T>) {
    forall i, j :: 0 <= i < |s| && 0 <= j < |s| && le(s[i], s[j]) && le(s[j], s[i]) ==> s[i] == s[j]
  }

  /** Places `x` behind every element that does not come strictly after it. */
  function Insert<T>(le: (T, T) -> bool, x: T, s: seq<T>): (r: seq<T>)
    ensures multiset(r) == multiset(s) + multiset{x}
  {
    if s == [] || le(s[|s| - 1], x) then s + [x]
    else
      assert s == s[..|s| - 1] + [s[|s| - 1]];
      Insert(le, x, s[..|s| - 1]) + [s[|s| - 1]]
  }

  /** The stable sort of a standard library `sort_by`. */
  function Sort<T>(le: (T, T) -> bool, s: seq<T>): (r: seq<T>)
    ensures multiset(r) == multiset(s)
    ensures |r| == |s|
  {
    if s == [] then []
    else
      assert s == s[..|s| - 1] + [s[|s| - 1]];
      var r := Insert(le, s[|s| - 1], Sort(le, s[..|s| - 1]));
      assert |multiset(r)| == |r| && |multiset(s)| == |s|;
      r
  }

  lemma {:induction false} InsertSorted<T(!new)>(le: (T, T) -> bool, x: T, s: seq<T>)
    requires TotalPreorder(le) && Sorted(le, s)
    ensures Sorted(le, Insert(le, x, s))
  {
    if s != [] && !le(s[|s| - 1], x) {
      var front, last := s[..|s| - 1], s[|s| - 1];
      InsertSorted(le, x, front);
      var r := Insert(le, x, front);
      forall i | 0 <= i < |r| ensures le(r[i], last) {
        assert r[i] in multiset(r);
        assert r[i] in multiset(front) + multiset{x};
      }
    }
  }

  lemma {:induction false} SortSorted<T(!new)>(le: (T, T) -> bool, s: seq<T>)
    requires TotalPreorder(le)
    ensures Sorted(le, Sort(le, s))
  {
    if s != [] {
      SortSorted(le, s[..|s| - 1]);
      InsertSorted(le, s[|s| - 1], Sort(le, s[..|s| - 1]));
    }
  }

  lemma LastIsGreatest<T>(le: (T, T) -> bool, s: seq<T>, k: nat)
    requires Sorted(le, s) && k < |s|
    ensures s[k] == s[|s| - 1] || le(s[k], s[|s| - 1])
  {
  }

  lemma SameLast<T>(le: (T, T) -> bool, a: seq<T>, b: seq<T>)
    requires Sorted(le, a) && Sorted(le, b) && NoTies(le, a)
    requires multiset(a) == multiset(b) && a != [] && b != []
    ensures a[|a| - 1] == b[|b| - 1]
  {
    var x, y := a[|a| - 1], b[|b| - 1];
    assert x in multiset(b) && y in multiset(a);
    var i :| 0 <= i < |b| && b[i] == x;
    var j :| 0 <= j < |a| && a[j] == y;
    LastIsGreatest(le, b, i);
    LastIsGreatest(le, a, j);
  }

  /** Two sorted arrangements of the same elements are the same sequence. */
  lemma {:induction false} SortedUnique<T>(le: (T, T) -> bool, a: seq<T>, b: seq<T>)
    requires Sorted(le, a) && Sorted(le, b) && NoTies(le, a)
    requires multiset(a) == multiset(b)
    ensures a == b
  {
    assert |multiset(a)| == |a| && |multiset(b)| == |b|;
    if a != [] {
      SameLast(le, a, b);
      var fa, fb := a[..|a| - 1], b[..|b| - 1];
      FrontKeeps(le, a);
      FrontKeeps(le, b);
      SortedUnique(le, fa, fb);
      SplitLast(a);
      SplitLast(b);
    }
  }

  lemma SplitLast<T>(s: seq<T>)
    requires s != []
    ensures s == s[..|s| - 1] + [s[|s| - 1]]
  {
  }

  lemma AppendSplitLast<T>(a: seq<T>, b: seq<T>)
    requires b != []
    ensures a + b == (a + b[..|b| - 1]) + [b[|b| - 1]]
  {
  }

  lemma FrontKeeps<T>(le: (T, T) -> bool, s: seq<T>)
    requires s != []
    ensures Sorted(le, s) ==> Sorted(le, s[..|s| - 1])
    ensures NoTies(le, s) ==> NoTies(le, s[..|s| - 1])
    ensures multiset(s[..|s| - 1]) == multiset(s) - multiset{s[|s| - 1]}
  {
    assert s == s[..|s| - 1] + [s[|s| - 1]];
  }

  lemma NoTiesSameElements<T>(le: (T, T) -> bool, a: seq<T>, b: seq<T>)
    requires NoTies(le, a) && multiset(a) == multiset(b)
    ensures NoTies(le, b)
  {
    forall i, j | 0 <= i < |b| && 0 <= j < |b| && le(b[i], b[j]) && le(b[j], b[i]) ensures b[i] == b[j] {
      assert b[i] in multiset(a) && b[j] in multiset(a);
    }
  }

  /** Sorting forgets the order of its input as soon as ties are between equal elements. */
  lemma SortCanonical<T(!new)>(le: (T, T) -> bool, a: seq<T>, b: seq<T>)
    requires TotalPreorder(le) && NoTies(le, a) && multiset(a) == multiset(b)
    ensures Sort(le, a) == Sort(le, b)
  {
    SortSorted(le, a);
    SortSorted(le, b);
    NoTiesSameElements(le, a, Sort(le, a));
    SortedUnique(le, Sort(le, a), Sort(le, b));
  }

  /** Lexicographic order on strings, a proper prefix first. */
  predicate LexLe(a: string, b: string) {
    a == [] || (b != [] && (a[0] < b[0] || (a[0] == b[0] && LexLe(a[1..], b[1..]))))
  }

  lemma {:induction false} LexTotal(a: string, b: string)
    ensures LexLe(a, b) || LexLe(b, a)
    ensures LexLe(a, b) && LexLe(b, a) ==> a == b
  {
    if a != [] && b != [] && a[0] == b[0] {
      LexTotal(a[1..], b[1..]);
      assert a == [a[0]] + a[1..] && b == [b[0]] + b[1..];
    }
  }

  lemma {:induction false} LexTransitive(a: string, b: string, c: string)
    requires LexLe(a, b) && LexLe(b, c)
    ensures LexLe(a, c)
  {
    if a != [] && a[0] == b[0] == c[0] {
      LexTransitive(a[1..], b[1..], c[1..]);
    }
  }

  lemma LexTotalPreorder()
    ensures TotalPreorder(LexLe)
  {
    forall a, b ensures LexLe(a, b) || LexLe(b, a) { LexTotal(a, b); }
    forall a, b, c | LexLe(a, b) && LexLe(b, c) ensures LexLe(a, c) { LexTransitive(a, b, c); }
  }

  lemma CountedTwice<T>(s: seq<T>, i: nat, j: nat)
    requires i < j < |s|
    ensures s[i] == s[j] ==> multiset(s)[s[i]] >= 2
  {
    assert s == s[..i] + [s[i]] + s[i + 1..j] + [s[j]] + s[j + 1..];
  }

  /** A listing of a set repeats nothing. */
  lemma ListingDistinct<T>(s: seq<T>, ss: set<T>)
    requires multiset(s) == multiset(ss)
    ensures forall x :: x in s <==> x in ss
    ensures forall i, j :: 0 <= i < j < |s| ==> s[i] != s[j]
  {
    assert forall x :: x in s <==> x in multiset(s);
    forall i, j | 0 <= i < j < |s| ensures s[i] != s[j] {
      CountedTwice(s, i, j);
      assert multiset(ss)[s[i]] <= 1;
    }
  }

  /** Some listing of a finite set, each element once. */
  ghost function Listing<T>(ss: set<T>): (r: seq<T>)
    ensures multiset(r) == multiset(ss)
  {
    if ss == {} then []
    else
      var x :| x in ss;
      assert ss == (ss - {x}) + {x};
      Listing(ss - {x}) + [x]
  }

  ghost function SortedStrings(ss: set<string>): seq<string> {
    Sort(LexLe, Listing(ss))
  }

  /** Whatever order the keys are listed in, sorting them gives one sequence. */
  lemma SortedStringsCanonical(ss: set<string>, listing: seq<string>)
    requires multiset(listing) == multiset(ss)
    ensures Sort(LexLe, listing) == SortedStrings(ss)
  {
    LexTotalPreorder();
    forall i, j | 0 <= i < |listing| && 0 <= j < |listing| && LexLe(listing[i], listing[j]) && LexLe(listing[j], listing[i])
      ensures listing[i] == listing[j] { LexTotal(listing[i], listing[j]); }
    SortCanonical(LexLe, listing, Listing(ss));
  }
}
