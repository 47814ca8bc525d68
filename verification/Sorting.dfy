/** The stable sort that list results are put through before they are cut. */
module Sorting {

  ghost predicate TotalPreorder<T(!new)>(le: (T, T) -> bool) {
    && (forall x, y :: le(x, y) || le(y, x))
    && (forall x, y, z :: le(x, y) && le(y, z) ==> le(x, z))
  }

  ghost predicate SortedBy<T>(le: (T, T) -> bool, s: seq<T>) {
    forall i, j :: 0 <= i < j < |s| ==> le(s[i], s[j])
  }

  function Insert<T>(le: (T, T) -> bool, x: T, s: seq<T>): seq<T> {
    if s == [] || le(x, s[0]) then [x] + s else [s[0]] + Insert(le, x, s[1..])
  }

  function Sort<T>(le: (T, T) -> bool, s: seq<T>): seq<T> {
    if s == [] then [] else Insert(le, s[0], Sort(le, s[1..]))
  }

  lemma {:induction false} InsertKeepsOrder<T(!new)>(le: (T, T) -> bool, x: T, s: seq<T>)
    requires TotalPreorder(le) && SortedBy(le, s)
    ensures SortedBy(le, Insert(le, x, s))
  {
    if s == [] || le(x, s[0]) {
      HeadFirst(le, x, s);
    } else {
      InsertKeepsOrder(le, x, s[1..]);
      var t := Insert(le, x, s[1..]);
      InsertMembers(le, x, s[1..]);
      forall j | 0 <= j < |t| ensures le(s[0], t[j]) {
        assert t[j] in t;
        if t[j] != x {
          var i :| 0 <= i < |s[1..]| && s[1..][i] == t[j];
          assert s[i + 1] == t[j];
        }
      }
      HeadFirst(le, s[0], t);
    }
  }

  /** Something before all of a sorted list keeps it sorted. */
  lemma HeadFirst<T(!new)>(le: (T, T) -> bool, x: T, s: seq<T>)
    requires TotalPreorder(le) && SortedBy(le, s) && (s == [] || le(x, s[0]) || forall j :: 0 <= j < |s| ==> le(x, s[j]))
    ensures SortedBy(le, [x] + s)
  {
    assert forall j :: 0 < j < |s| ==> le(s[0], s[j]);
  }

  lemma {:induction false} InsertKeepsItems<T>(le: (T, T) -> bool, x: T, s: seq<T>)
    ensures multiset(Insert(le, x, s)) == multiset(s) + multiset{x}
  {
    if s == [] || le(x, s[0]) {
    } else {
      InsertKeepsItems(le, x, s[1..]);
      assert s == [s[0]] + s[1..];
    }
  }

  lemma {:induction false} SortIsSorted<T(!new)>(le: (T, T) -> bool, s: seq<T>)
    requires TotalPreorder(le)
    ensures SortedBy(le, Sort(le, s))
    ensures multiset(Sort(le, s)) == multiset(s)
    ensures |Sort(le, s)| == |s|
  {
    if s == [] {
    } else {
      SortIsSorted(le, s[1..]);
      InsertKeepsOrder(le, s[0], Sort(le, s[1..]));
      InsertKeepsItems(le, s[0], Sort(le, s[1..]));
      assert s == [s[0]] + s[1..];
    }
    assert |multiset(Sort(le, s))| == |multiset(s)|;
  }

  ghost predicate DistinctBy<T(!new), K(!new)>(key: T -> K, s: seq<T>) {
    forall i, j :: 0 <= i < j < |s| ==> key(s[i]) != key(s[j])
  }

  lemma {:induction false} InsertMembers<T>(le: (T, T) -> bool, x: T, s: seq<T>)
    ensures forall y :: y in Insert(le, x, s) <==> y == x || y in s
  {
    if s == [] || le(x, s[0]) {
    } else {
      InsertMembers(le, x, s[1..]);
      assert s == [s[0]] + s[1..];
    }
  }

  lemma {:induction false} InsertKeepsDistinct<T(!new), K(!new)>(le: (T, T) -> bool, key: T -> K, x: T, s: seq<T>)
    requires DistinctBy(key, s) && forall y :: y in s ==> key(y) != key(x)
    ensures DistinctBy(key, Insert(le, x, s))
  {
    if s == [] || le(x, s[0]) {
    } else {
      var t := Insert(le, x, s[1..]);
      InsertKeepsDistinct(le, key, x, s[1..]);
      InsertMembers(le, x, s[1..]);
      forall j | 0 <= j < |t| ensures key(s[0]) != key(t[j]) {
        assert t[j] in t;
        if t[j] != x {
          var k :| 0 <= k < |s[1..]| && s[1..][k] == t[j];
        }
      }
    }
  }

  lemma {:induction false} SortKeepsDistinct<T(!new), K(!new)>(le: (T, T) -> bool, key: T -> K, s: seq<T>)
    requires DistinctBy(key, s)
    ensures DistinctBy(key, Sort(le, s))
    ensures forall y :: y in Sort(le, s) <==> y in s
  {
    if s != [] {
      SortKeepsDistinct(le, key, s[1..]);
      InsertMembers(le, s[0], Sort(le, s[1..]));
      forall y | y in s[1..] ensures key(y) != key(s[0]) {
        var k :| 0 <= k < |s[1..]| && s[1..][k] == y;
      }
      InsertKeepsDistinct(le, key, s[0], Sort(le, s[1..]));
      assert s == [s[0]] + s[1..];
    }
  }

  /** Sorted, then cut to `n`. */
  function Top<T>(le: (T, T) -> bool, s: seq<T>, n: nat): seq<T> {
    var sorted := Sort(le, s);
    if |sorted| <= n then sorted else sorted[..n]
  }

  /** The cut list is in order, without repetition, and nothing left out comes strictly before it. */
  ghost predicate IsTop<T(!new), K(!new)>(le: (T, T) -> bool, key: T -> K, all: set<T>, n: nat, top: seq<T>) {
    && |top| <= n && SortedBy(le, top) && DistinctBy(key, top)
    && (forall i :: 0 <= i < |top| ==> top[i] in all)
    && (forall x :: x in all && x !in top ==> |top| == n && forall i :: 0 <= i < |top| ==> le(top[i], x))
  }

  lemma TopIsTop<T(!new), K(!new)>(le: (T, T) -> bool, key: T -> K, s: seq<T>, n: nat)
    requires TotalPreorder(le) && DistinctBy(key, s)
    ensures IsTop(le, key, (set x | x in s), n, Top(le, s, n))
  {
    SortIsSorted(le, s);
    SortKeepsDistinct(le, key, s);
    var sorted, top := Sort(le, s), Top(le, s, n);
    forall x | x in s && x !in top ensures |top| == n && forall i :: 0 <= i < |top| ==> le(top[i], x) {
      var k :| 0 <= k < |sorted| && sorted[k] == x;
      assert |top| <= k;
    }
  }

  /** No two members of `all` tie. */
  ghost predicate NoTies<T(!new)>(le: (T, T) -> bool, all: set<T>) {
    forall x, y :: x in all && y in all && le(x, y) && le(y, x) ==> x == y
  }

  lemma HeadLe<T(!new), K(!new)>(le: (T, T) -> bool, key: T -> K, all: set<T>, n: nat, a: seq<T>, b: seq<T>, k: nat)
    requires TotalPreorder(le) && IsTop(le, key, all, n, a) && IsTop(le, key, all, n, b)
    requires k < |a| && k < |b| && a[..k] == b[..k]
    ensures le(a[k], b[k])
  {
    forall i | 0 <= i < k ensures a[i] != b[k] {
      assert a[i] == a[..k][i] == b[..k][i] == b[i];
      assert key(b[i]) != key(b[k]);
    }
    if b[k] in a {
      var i :| 0 <= i < |a| && a[i] == b[k];
      assert k <= i;
    }
  }

  lemma {:induction false} TopPrefix<T(!new), K(!new)>(le: (T, T) -> bool, key: T -> K, all: set<T>, n: nat,
                                                     a: seq<T>, b: seq<T>, k: nat)
    requires TotalPreorder(le) && NoTies(le, all) && IsTop(le, key, all, n, a) && IsTop(le, key, all, n, b)
    requires k <= |a| && k <= |b|
    ensures a[..k] == b[..k]
    decreases k
  {
    if k > 0 {
      TopPrefix(le, key, all, n, a, b, k - 1);
      HeadLe(le, key, all, n, a, b, k - 1);
      HeadLe(le, key, all, n, b, a, k - 1);
      assert a[k - 1] == b[k - 1];
      assert a[..k] == a[..k - 1] + [a[k - 1]] && b[..k] == b[..k - 1] + [b[k - 1]];
    }
  }

  lemma TopNotShorter<T(!new), K(!new)>(le: (T, T) -> bool, key: T -> K, all: set<T>, n: nat, a: seq<T>, b: seq<T>)
    requires TotalPreorder(le) && NoTies(le, all) && IsTop(le, key, all, n, a) && IsTop(le, key, all, n, b)
    ensures |b| <= |a|
  {
    if |a| < |b| {
      TopPrefix(le, key, all, n, a, b, |a|);
      var x := b[|a|];
      forall i | 0 <= i < |a| ensures a[i] != x {
        assert b[i] == b[..|a|][i] == a[..|a|][i] == a[i];
        assert key(b[i]) != key(x);
      }
      assert false;
    }
  }

  /** Where nothing ties, the cut list is determined by the set it was cut from. */
  lemma TopIsUnique<T(!new), K(!new)>(le: (T, T) -> bool, key: T -> K, all: set<T>, n: nat, a: seq<T>, b: seq<T>)
    requires TotalPreorder(le) && NoTies(le, all) && IsTop(le, key, all, n, a) && IsTop(le, key, all, n, b)
    ensures a == b
  {
    TopNotShorter(le, key, all, n, a, b);
    TopNotShorter(le, key, all, n, b, a);
    TopPrefix(le, key, all, n, a, b, |a|);
    assert a[..|a|] == a && b[..|a|] == b;
  }

  /** Some order of a set's members, as iterating a hash set gives one. */
  method InSomeOrder<T(==)>(all: set<T>) returns (order: seq<T>)
    ensures forall x :: x in order <==> x in all
    ensures forall i, j :: 0 <= i < j < |order| ==> order[i] != order[j]
  {
    order := [];
    var left := all;
    while left != {}
      invariant left <= all
      invariant forall x :: x in order <==> x in all - left
      invariant forall i, j :: 0 <= i < j < |order| ==> order[i] != order[j]
      decreases left
    {
      var x :| x in left;
      assert x !in order;
      left := left - {x};
      order := order + [x];
    }
  }
}
