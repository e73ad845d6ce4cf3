/** `Array.prototype.sort(compare)` as specified since ES2019: a stable sort.
    A comparator `compare` is modelled by `le(a, b) := compare(a, b) <= 0`, and the
    sort by a stable insertion sort: an element is placed before the first element
    of the already-sorted remainder that it does not exceed, so equal elements keep
    their input order. */
module StableSort {

  /** `le` is total and transitive on the elements of `s`. */
  predicate PreorderOn<T(==)>(s: seq<T>, le: (T, T) -> bool) {
    && (forall a, b | a in s && b in s :: le(a, b) || le(b, a))
    && (forall a, b, c | a in s && b in s && c in s :: le(a, b) && le(b, c) ==> le(a, c))
  }

  /** Moreover, elements that are `le` both ways are equal. */
  predicate TotalOrderOn<T(==)>(s: seq<T>, le: (T, T) -> bool) {
    && PreorderOn(s, le)
    && (forall a, b | a in s && b in s :: le(a, b) && le(b, a) ==> a == b)
  }

  predicate Sorted<T>(s: seq<T>, le: (T, T) -> bool) {
    forall i, j | 0 <= i < j < |s| :: le(s[i], s[j])
  }

  function Insert<T(==)>(x: T, t: seq<T>, le: (T, T) -> bool): (r: seq<T>)
    ensures multiset(r) == multiset(t) + multiset{x}
    ensures |r| == |t| + 1
    decreases |t|
  {
    if |t| == 0 then [x]
    else if le(x, t[0]) then [x] + t
    else
      assert t == [t[0]] + t[1..];
      [t[0]] + Insert(x, t[1..], le)
  }

  /** The sorted permutation of `s`. */
  function Sort<T(==)>(s: seq<T>, le: (T, T) -> bool): (r: seq<T>)
    ensures multiset(r) == multiset(s)
    ensures |r| == |s|
    decreases |s|
  {
    if |s| == 0 then []
    else
      assert s == [s[0]] + s[1..];
      Insert(s[0], Sort(s[1..], le), le)
  }

  /** A sorted sequence stays sorted behind a head that is `le` all of it. */
  lemma ConsSorted<T>(h: T, rest: seq<T>, le: (T, T) -> bool)
    requires Sorted(rest, le)
    requires forall j | 0 <= j < |rest| :: le(h, rest[j])
    ensures Sorted([h] + rest, le)
  {
    var r := [h] + rest;
    forall i, j | 0 <= i < j < |r| ensures le(r[i], r[j]) {
      if i == 0 { assert r[j] == rest[j - 1]; } else { assert r[i] == rest[i - 1] && r[j] == rest[j - 1]; }
    }
  }

  lemma {:induction false} InsertSorted<T>(x: T, t: seq<T>, le: (T, T) -> bool, all: seq<T>)
    requires PreorderOn(all, le)
    requires x in all && forall y | y in t :: y in all
    requires Sorted(t, le)
    ensures Sorted(Insert(x, t, le), le)
    decreases |t|
  {
    if |t| > 0 {
      if le(x, t[0]) {
        forall j | 0 <= j < |t| ensures le(x, t[j]) {
          if j > 0 {
            assert t[0] in all && t[j] in all;
            assert le(t[0], t[j]);
          }
        }
        ConsSorted(x, t, le);
      } else {
        var rest := Insert(x, t[1..], le);
        assert Sorted(rest, le) by {
          InsertSorted(x, t[1..], le, all);
        }
        forall j | 0 <= j < |rest| ensures le(t[0], rest[j]) {
          assert rest[j] in multiset(rest);
          if rest[j] != x {
            assert rest[j] in t[1..];
            var k :| 0 <= k < |t[1..]| && t[1..][k] == rest[j];
            assert le(t[0], t[k + 1]);
          } else {
            assert t[0] in all;
          }
        }
        ConsSorted(t[0], rest, le);
      }
    }
  }

  /** Under a total preorder the result is in non-decreasing order. */
  lemma {:induction false} SortSorted<T>(s: seq<T>, le: (T, T) -> bool)
    requires PreorderOn(s, le)
    ensures Sorted(Sort(s, le), le)
    decreases |s|
  {
    if |s| > 0 {
      assert PreorderOn(s[1..], le) by {
        assert forall y | y in s[1..] :: y in s;
      }
      SortSorted(s[1..], le);
      var t := Sort(s[1..], le);
      forall y | y in t ensures y in s {
        assert y in multiset(t);
        assert y in multiset(s[1..]);
      }
      InsertSorted(s[0], t, le, s);
    }
  }

  /** Two sorted permutations of each other start with the same element. */
  lemma SortedHeadsAgree<T>(a: seq<T>, b: seq<T>, le: (T, T) -> bool)
    requires |a| > 0 && multiset(a) == multiset(b)
    requires TotalOrderOn(a, le)
    requires Sorted(a, le) && Sorted(b, le)
    ensures |b| > 0 && a[0] == b[0]
  {
    assert |b| == |multiset(b)| == |a|;
    assert a[0] in multiset(b) && b[0] in multiset(a);
    assert a[0] in b && b[0] in a;
    assert le(a[0], a[0]) && le(b[0], b[0]);
    assert forall y | y in a :: le(a[0], y);
    assert forall y | y in b :: le(b[0], y);
  }

  /** Dropping equal heads keeps two sequences permutations of each other. */
  lemma TailsPermutation<T>(a: seq<T>, b: seq<T>)
    requires |a| > 0 && |b| > 0 && a[0] == b[0] && multiset(a) == multiset(b)
    ensures multiset(a[1..]) == multiset(b[1..])
  {
    assert a == [a[0]] + a[1..] && b == [b[0]] + b[1..];
    assert multiset(a[1..]) == multiset(a) - multiset{a[0]};
    assert multiset(b[1..]) == multiset(b) - multiset{b[0]};
  }

  /** Under a total order there is only one sorted permutation, so the model
      agrees with every correct sort. */
  lemma {:induction false} SortedPermutationUnique<T>(a: seq<T>, b: seq<T>, le: (T, T) -> bool)
    requires multiset(a) == multiset(b)
    requires TotalOrderOn(a, le)
    requires Sorted(a, le) && Sorted(b, le)
    ensures a == b
    decreases |a|
  {
    if |a| == 0 {
      assert |b| == |multiset(b)| == 0;
    } else {
      assert |b| > 0 && a[0] == b[0] by {
        SortedHeadsAgree(a, b, le);
      }
      assert a[1..] == b[1..] by {
        TailsPermutation(a, b);
        assert TotalOrderOn(a[1..], le) by {
          assert forall y | y in a[1..] :: y in a;
        }
        SortedPermutationUnique(a[1..], b[1..], le);
      }
      assert a == [a[0]] + a[1..] && b == [b[0]] + b[1..];
    }
  }

  // Stability.

  /** The elements of `s` that are `le` to `k` both ways, in their order in `s`. */
  function Ties<T>(s: seq<T>, k: T, le: (T, T) -> bool): (r: seq<T>)
    ensures |r| <= |s|
    ensures forall i | 0 <= i < |r| :: le(r[i], k) && le(k, r[i])
    decreases |s|
  {
    if |s| == 0 then []
    else (if le(s[0], k) && le(k, s[0]) then [s[0]] else []) + Ties(s[1..], k, le)
  }

  /** Ties distribute over a leading element. */
  lemma TiesCons<T>(h: T, rest: seq<T>, k: T, le: (T, T) -> bool)
    ensures Ties([h] + rest, k, le) == Ties([h], k, le) + Ties(rest, k, le)
  {
    assert ([h] + rest)[1..] == rest;
    assert [h][1..] == [];
  }

  /** Two elements that both tie with `k` are `le` each other, so an element
      that is not `le` another cannot tie with `k` alongside it. */
  lemma TiesSwap<T>(x: T, y: T, k: T, le: (T, T) -> bool, all: seq<T>)
    requires PreorderOn(all, le)
    requires x in all && y in all && k in all
    requires !le(x, y)
    ensures Ties([y], k, le) + Ties([x], k, le) == Ties([x], k, le) + Ties([y], k, le)
  {
    assert !(le(x, k) && le(k, y));
  }

  /** Inserting `x` puts it ahead of every element it ties with. */
  lemma {:induction false} InsertTies<T>(x: T, t: seq<T>, k: T, le: (T, T) -> bool, all: seq<T>)
    requires PreorderOn(all, le)
    requires x in all && k in all && forall y | y in t :: y in all
    ensures Ties(Insert(x, t, le), k, le) == Ties([x], k, le) + Ties(t, k, le)
    decreases |t|
  {
    if |t| == 0 {
      assert Insert(x, t, le) == [x] + t;
    } else if le(x, t[0]) {
      assert Insert(x, t, le) == [x] + t;
      TiesCons(x, t, k, le);
    } else {
      var rest := Insert(x, t[1..], le);
      assert Ties(Insert(x, t, le), k, le) == Ties([t[0]], k, le) + Ties(rest, k, le) by {
        assert Insert(x, t, le) == [t[0]] + rest;
        TiesCons(t[0], rest, k, le);
      }
      assert Ties(rest, k, le) == Ties([x], k, le) + Ties(t[1..], k, le) by {
        InsertTies(x, t[1..], k, le, all);
      }
      assert Ties(t, k, le) == Ties([t[0]], k, le) + Ties(t[1..], k, le) by {
        assert t == [t[0]] + t[1..];
        TiesCons(t[0], t[1..], k, le);
      }
      TiesSwap(x, t[0], k, le, all);
    }
  }

  lemma {:induction false} SortTies<T>(s: seq<T>, k: T, le: (T, T) -> bool, all: seq<T>)
    requires PreorderOn(all, le)
    requires k in all && forall y | y in s :: y in all
    ensures Ties(Sort(s, le), k, le) == Ties(s, k, le)
    decreases |s|
  {
    if |s| > 0 {
      var t := Sort(s[1..], le);
      assert Sort(s, le) == Insert(s[0], t, le);
      assert s[0] in all;
      forall y | y in t ensures y in all {
        assert y in multiset(t);
        assert y in multiset(s[1..]);
      }
      assert Ties(Sort(s, le), k, le) == Ties([s[0]], k, le) + Ties(t, k, le) by {
        InsertTies(s[0], t, k, le, all);
      }
      assert Ties(t, k, le) == Ties(s[1..], k, le) by {
        assert forall y | y in s[1..] :: y in s;
        SortTies(s[1..], k, le, all);
      }
      assert s == [s[0]] + s[1..];
      TiesCons(s[0], s[1..], k, le);
    }
  }

  /** The sort is stable: the elements tied with any `k` come out in the order
      they went in. */
  lemma SortStable<T>(s: seq<T>, k: T, le: (T, T) -> bool)
    requires PreorderOn(s, le) && k in s
    ensures Ties(Sort(s, le), k, le) == Ties(s, k, le)
  {
    SortTies(s, k, le, s);
  }
}
