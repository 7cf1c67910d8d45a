/** Selecting and stably sorting trace rows.

    Every scan of a trace in this project starts with a `sorted(..., key=...)` over a
    comprehension.  `Sort` is that library call; `SortIsTheStableOrder` shows that it is the
    only sequence which is ordered by the key and keeps rows of equal key in trace order.
 */
module StableSort {

  function Filter<T(!new)>(p: T -> bool, s: seq<T>): (r: seq<T>)
    ensures |r| <= |s|
    ensures forall x :: x in r <==> x in s && p(x)
  {
    if s == [] then []
    else if p(s[0]) then [s[0]] + Filter(p, s[1..])
    else Filter(p, s[1..])
  }

  ghost predicate Sorted<T(!new)>(key: T -> real, s: seq<T>) {
    forall i, j :: 0 <= i < j < |s| ==> key(s[i]) <= key(s[j])
  }

  /** Places `x` in front of every element whose key is not smaller. */
  function Insert<T(!new)>(key: T -> real, x: T, s: seq<T>): (r: seq<T>)
    ensures |r| == |s| + 1
    ensures forall y :: y in r <==> y == x || y in s
  {
    if s == [] || key(x) <= key(s[0]) then [x] + s
    else [s[0]] + Insert(key, x, s[1..])
  }

  function Sort<T(!new)>(key: T -> real, s: seq<T>): (r: seq<T>)
    ensures |r| == |s|
    ensures forall y :: y in r <==> y in s
  {
    if s == [] then [] else Insert(key, s[0], Sort(key, s[1..]))
  }

  lemma {:induction false} InsertSorted<T(!new)>(key: T -> real, x: T, s: seq<T>)
    requires Sorted(key, s)
    ensures Sorted(key, Insert(key, x, s))
  {
    if s != [] && key(x) > key(s[0]) {
      InsertSorted(key, x, s[1..]);
      var r := Insert(key, x, s[1..]);
      forall y | y in r ensures key(s[0]) <= key(y) {
        if y != x { var k :| 0 <= k < |s[1..]| && s[1..][k] == y; }
      }
    }
  }

  lemma {:induction false} SortSorted<T(!new)>(key: T -> real, s: seq<T>)
    ensures Sorted(key, Sort(key, s))
  {
    if s != [] {
      SortSorted(key, s[1..]);
      InsertSorted(key, s[0], Sort(key, s[1..]));
    }
  }

  lemma {:induction false} FilterKeepsAll<T(!new)>(p: T -> bool, s: seq<T>)
    requires forall x :: x in s ==> p(x)
    ensures Filter(p, s) == s
  {
    if s != [] {
      FilterKeepsAll(p, s[1..]);
    }
  }

  lemma {:induction false} FilterKeepsNone<T(!new)>(p: T -> bool, s: seq<T>)
    requires forall x :: x in s ==> !p(x)
    ensures Filter(p, s) == []
  {
    if s != [] {
      FilterKeepsNone(p, s[1..]);
    }
  }

  lemma {:induction false} FiltersCommute<T(!new)>(p: T -> bool, q: T -> bool, s: seq<T>)
    ensures Filter(p, Filter(q, s)) == Filter(q, Filter(p, s))
  {
    if s != [] {
      FiltersCommute(p, q, s[1..]);
      var t := s[1..];
      assert q(s[0]) ==> ([s[0]] + Filter(q, t))[1..] == Filter(q, t);
      assert p(s[0]) ==> ([s[0]] + Filter(p, t))[1..] == Filter(p, t);
    }
  }

  lemma {:induction false} FilterOfWeakerFilter<T(!new)>(p: T -> bool, q: T -> bool, s: seq<T>)
    requires forall x :: x in s && p(x) ==> q(x)
    ensures Filter(p, Filter(q, s)) == Filter(p, s)
  {
    if s != [] {
      FilterOfWeakerFilter(p, q, s[1..]);
      if q(s[0]) {
        assert ([s[0]] + Filter(q, s[1..]))[1..] == Filter(q, s[1..]);
      }
    }
  }

  lemma {:induction false} FilterSorted<T(!new)>(key: T -> real, p: T -> bool, s: seq<T>)
    requires Sorted(key, s)
    ensures Sorted(key, Filter(p, s))
  {
    if s != [] {
      FilterSorted(key, p, s[1..]);
      var r := Filter(p, s[1..]);
      forall y | y in r ensures key(s[0]) <= key(y) {
        var k :| 0 <= k < |s[1..]| && s[1..][k] == y;
      }
    }
  }

  lemma {:induction false} FilterOfInsert<T(!new)>(key: T -> real, p: T -> bool, x: T, s: seq<T>)
    requires Sorted(key, s)
    ensures Filter(p, Insert(key, x, s)) == if p(x) then Insert(key, x, Filter(p, s)) else Filter(p, s)
  {
    if s == [] || key(x) <= key(s[0]) {
      assert ([x] + s)[1..] == s;
      var f := Filter(p, s);
      if f != [] {
        assert f[0] in s;
        var k :| 0 <= k < |s| && s[k] == f[0];
        assert key(x) <= key(f[0]);
      }
    } else {
      var t := Insert(key, x, s[1..]);
      assert ([s[0]] + t)[1..] == t;
      FilterOfInsert(key, p, x, s[1..]);
      if p(s[0]) {
        assert ([s[0]] + Filter(p, s[1..]))[1..] == Filter(p, s[1..]);
      }
    }
  }

  /** Selecting before sorting and selecting after sorting give the same sequence. */
  lemma {:induction false} FilterCommutesWithSort<T(!new)>(key: T -> real, p: T -> bool, s: seq<T>)
    ensures Sort(key, Filter(p, s)) == Filter(p, Sort(key, s))
  {
    if s != [] {
      FilterCommutesWithSort(key, p, s[1..]);
      SortSorted(key, s[1..]);
      FilterOfInsert(key, p, s[0], Sort(key, s[1..]));
      if p(s[0]) {
        assert ([s[0]] + Filter(p, s[1..]))[1..] == Filter(p, s[1..]);
      }
    }
  }

  function AtMost<T(!new)>(key: T -> real, limit: real): T -> bool {
    x => key(x) <= limit
  }

  function Beyond<T(!new)>(key: T -> real, limit: real): T -> bool {
    x => key(x) > limit
  }

  function KeyIs<T(!new)>(key: T -> real, k: real): T -> bool {
    x => key(x) == k
  }

  /** In a sorted sequence the rows up to a time limit are a prefix. */
  lemma {:induction false} SortedSplits<T(!new)>(key: T -> real, limit: real, s: seq<T>)
    requires Sorted(key, s)
    ensures s == Filter(AtMost(key, limit), s) + Filter(Beyond(key, limit), s)
  {
    if s != [] {
      if key(s[0]) <= limit {
        SortedSplits(key, limit, s[1..]);
      } else {
        forall x | x in s ensures key(x) > limit {
          var k :| 0 <= k < |s| && s[k] == x;
        }
        FilterKeepsAll(Beyond(key, limit), s);
        FilterKeepsNone(AtMost(key, limit), s);
      }
    }
  }

  ghost predicate SameGroups<T(!new)>(key: T -> real, a: seq<T>, b: seq<T>) {
    forall k: real :: Filter(KeyIs(key, k), a) == Filter(KeyIs(key, k), b)
  }

  /** What a caller of `sorted` is promised: key order, and trace order among equal keys. */
  ghost predicate IsStableOrderOf<T(!new)>(key: T -> real, s: seq<T>, r: seq<T>) {
    && Sorted(key, r)
    && SameGroups(key, r, s)
  }

  lemma NonemptyHasGroup<T(!new)>(key: T -> real, s: seq<T>)
    ensures s != [] ==> exists k: real :: Filter(KeyIs(key, k), s) != []
  {
    if s != [] {
      assert s[0] in Filter(KeyIs(key, key(s[0])), s);
    }
  }

  lemma HeadIsLeast<T(!new)>(key: T -> real, a: seq<T>, b: seq<T>)
    requires Sorted(key, a) && SameGroups(key, a, b) && a != [] && b != []
    ensures key(a[0]) <= key(b[0])
  {
    var k := key(b[0]);
    assert b[0] in Filter(KeyIs(key, k), b);
    assert b[0] in Filter(KeyIs(key, k), a);
    var n :| 0 <= n < |a| && a[n] == b[0];
  }

  lemma HeadsAgree<T(!new)>(key: T -> real, a: seq<T>, b: seq<T>)
    requires Sorted(key, a) && Sorted(key, b) && SameGroups(key, a, b) && a != [] && b != []
    ensures a[0] == b[0]
  {
    HeadIsLeast(key, a, b);
    HeadIsLeast(key, b, a);
    var g := KeyIs(key, key(a[0]));
    assert Filter(g, a)[0] == a[0] && Filter(g, b)[0] == b[0];
  }

  lemma TailsKeepGroups<T(!new)>(key: T -> real, a: seq<T>, b: seq<T>)
    requires SameGroups(key, a, b) && a != [] && b != [] && a[0] == b[0]
    ensures SameGroups(key, a[1..], b[1..])
  {
    forall k: real ensures Filter(KeyIs(key, k), a[1..]) == Filter(KeyIs(key, k), b[1..]) {
      var h := KeyIs(key, k);
      assert Filter(h, a) == Filter(h, b);
      if h(a[0]) {
        assert Filter(h, a)[1..] == Filter(h, a[1..]);
        assert Filter(h, b)[1..] == Filter(h, b[1..]);
      }
    }
  }

  lemma {:induction false} SortedWithSameGroupsIsEqual<T(!new)>(key: T -> real, a: seq<T>, b: seq<T>)
    requires Sorted(key, a) && Sorted(key, b) && SameGroups(key, a, b)
    ensures a == b
    decreases |a|
  {
    if a == [] {
      NonemptyHasGroup(key, b);
    } else if b == [] {
      NonemptyHasGroup(key, a);
    } else {
      HeadsAgree(key, a, b);
      TailsKeepGroups(key, a, b);
      SortedWithSameGroupsIsEqual(key, a[1..], b[1..]);
      assert a == [a[0]] + a[1..] && b == [b[0]] + b[1..];
    }
  }

  lemma SortIsTheStableOrder<T(!new)>(key: T -> real, s: seq<T>, r: seq<T>)
    ensures IsStableOrderOf(key, s, r) <==> r == Sort(key, s)
  {
    SortSorted(key, s);
    forall k: real ensures Filter(KeyIs(key, k), Sort(key, s)) == Filter(KeyIs(key, k), s) {
      var g := KeyIs(key, k);
      FilterCommutesWithSort(key, g, s);
      SortOfEqualKeys(key, k, Filter(g, s));
    }
    if IsStableOrderOf(key, s, r) {
      SortedWithSameGroupsIsEqual(key, r, Sort(key, s));
    }
  }

  lemma {:induction false} SortOfEqualKeys<T(!new)>(key: T -> real, k: real, s: seq<T>)
    requires forall x :: x in s ==> key(x) == k
    ensures Sort(key, s) == s
  {
    if s != [] {
      SortOfEqualKeys(key, k, s[1..]);
    }
  }

  lemma {:induction false} InsertCongruence<T(!new)>(f: T -> real, g: T -> real, x: T, s: seq<T>)
    requires f(x) == g(x) && forall y :: y in s ==> f(y) == g(y)
    ensures Insert(f, x, s) == Insert(g, x, s)
  {
    if s != [] {
      assert f(s[0]) == g(s[0]);
      InsertCongruence(f, g, x, s[1..]);
    }
  }

  /** Two clocks that agree on the rows sort them alike. */
  lemma {:induction false} SortCongruence<T(!new)>(f: T -> real, g: T -> real, s: seq<T>)
    requires forall y :: y in s ==> f(y) == g(y)
    ensures Sort(f, s) == Sort(g, s)
  {
    if s != [] {
      assert f(s[0]) == g(s[0]);
      SortCongruence(f, g, s[1..]);
      InsertCongruence(f, g, s[0], Sort(f, s[1..]));
    }
  }
}
