/** Helpers of the legacy server in server/util.js: `isValidScore` and the
    multi-key `sortBy`. */
module LegacyUtil {
  import opened Outcomes
  import opened Strings
  import opened StableSort
  import opened ScoreRules

  // isValidScore.

  /** `isValidScore(a, b, target, winBy)`: both scores are integers and the
      higher one reaches `target` with a lead of at least `winBy`. */
  function IsValidScore(a: real, b: real, target: real, winBy: real): (r: bool)
    ensures r <==> && IsInteger(a) && IsInteger(b)
                   && (a >= target || b >= target)
                   && (a - b >= winBy || b - a >= winBy)
  {
    var max := MaxR(a, b);
    var min := MinR(a, b);
    if !IsInteger(a) || !IsInteger(b) then false
    else if max < target then false
    else if max - min < winBy then false
    else true
  }

  /** Swapping the two scores does not change the verdict. */
  lemma IsValidScoreSymmetric(a: real, b: real, target: real, winBy: real)
    ensures IsValidScore(a, b, target, winBy) == IsValidScore(b, a, target, winBy)
  {
  }

  /** With a positive margin no draw is accepted. */
  lemma IsValidScoreNoDraw(a: real, target: real, winBy: real)
    requires winBy > 0.0
    ensures !IsValidScore(a, a, target, winBy)
  {
  }

  /** For a positive margin, the legacy check and the tournament service's
      `assertScoreValid` agree on non-negative scores, and the latter rejects
      every negative one. */
  lemma ValidatorsAgree(a: real, b: real, target: real, winBy: real)
    requires winBy > 0.0
    ensures AssertScoreValid(a, b, target, winBy).Ok? <==>
              a >= 0.0 && b >= 0.0 && IsValidScore(a, b, target, winBy)
  {
  }

  /** The legacy check does not look at the sign: it accepts a game the
      tournament service rejects. */
  lemma LegacyAcceptsNegativeScore()
    ensures IsValidScore(-1.0, 11.0, 11.0, 2.0)
    ensures AssertScoreValid(-1.0, 11.0, 11.0, 2.0) == Err(NotNonNegativeIntegers)
  {
    assert IsInteger(-1.0) && IsInteger(11.0);
  }

  // sortBy.

  /** What an iteratee returns: a number or a string. */
  datatype Value = Num(n: real) | Str(s: string)

  /** `aValue > bValue` for two values that differ and are not both numbers.
      A string never exceeds a number nor a number a string: JavaScript
      converts the string to a number, which this model takes to be `NaN`. */
  predicate Greater(x: Value, y: Value) {
    x.Str? && y.Str? && StrLt(y.s, x.s)
  }

  /** The comparator `sortBy` hands to `Array.prototype.sort`: the first
      iteratee on which the two elements differ decides. */
  function Compare<T>(a: T, b: T, iteratees: seq<T -> Value>): real
    decreases |iteratees|
  {
    if |iteratees| == 0 then 0.0
    else
      var av := iteratees[0](a);
      var bv := iteratees[0](b);
      if av == bv then Compare(a, b, iteratees[1..])
      else if av.Num? && bv.Num? then av.n - bv.n
      else if Greater(av, bv) then 1.0
      else -1.0
  }

  /** The order `sort` uses: `a` may stay before `b` when the comparator is not positive. */
  function ByKeys<T>(iteratees: seq<T -> Value>): (T, T) -> bool {
    (a: T, b: T) => Compare(a, b, iteratees) <= 0.0
  }

  /** `sortBy(collection, iteratees)`: a sorted copy of the array, an
      unsorted copy when there are no iteratees, and `[]` for a non-array. */
  function SortBy<T(==)>(collection: Option<seq<T>>, iteratees: Option<seq<T -> Value>>): (r: seq<T>)
    ensures collection.None? ==> r == []
    ensures multiset(r) == multiset(collection.OrElse([]))
    ensures iteratees.None? || |iteratees.value| == 0 ==> r == collection.OrElse([])
  {
    var list := collection.OrElse([]);
    if iteratees.None? || |iteratees.value| == 0 then list
    else Sort(list, ByKeys(iteratees.value))
  }

  // The reference order: lexicographic comparison of the key tuples.

  /** The values the iteratees give for `x`, in order. */
  function KeysOf<T>(x: T, iteratees: seq<T -> Value>): (r: seq<Value>)
    ensures |r| == |iteratees|
    ensures forall k | 0 <= k < |r| :: r[k] == iteratees[k](x)
  {
    seq(|iteratees|, k requires 0 <= k < |iteratees| => iteratees[k](x))
  }

  /** Numbers by value, strings by UTF-16 code units; values of different kinds are unordered. */
  predicate ValueLt(x: Value, y: Value) {
    if x.Num? && y.Num? then x.n < y.n
    else if x.Str? && y.Str? then StrLt(x.s, y.s)
    else false
  }

  /** Lexicographic order on key tuples of the same length. */
  predicate LexLe(u: seq<Value>, v: seq<Value>)
    requires |u| == |v|
    decreases |u|
  {
    |u| == 0 || (if u[0] == v[0] then LexLe(u[1..], v[1..]) else ValueLt(u[0], v[0]))
  }

  /** The tuples have the same length and hold the same kind at every position. */
  predicate KindsMatch(u: seq<Value>, v: seq<Value>) {
    |u| == |v| && forall k | 0 <= k < |u| :: u[k].Num? == v[k].Num?
  }

  /** Every iteratee yields numbers for all the elements or strings for all of them. */
  predicate UniformKeys<T(==)>(list: seq<T>, iteratees: seq<T -> Value>) {
    forall a, b | a in list && b in list :: KindsMatch(KeysOf(a, iteratees), KeysOf(b, iteratees))
  }

  lemma KeysOfTail<T>(x: T, iteratees: seq<T -> Value>)
    requires |iteratees| > 0
    ensures KeysOf(x, iteratees)[1..] == KeysOf(x, iteratees[1..])
  {
  }

  /** On elements whose keys are of matching kinds, the comparator is the
      lexicographic order of their key tuples. */
  lemma {:induction false} CompareLexicographic<T>(a: T, b: T, iteratees: seq<T -> Value>)
    requires KindsMatch(KeysOf(a, iteratees), KeysOf(b, iteratees))
    ensures Compare(a, b, iteratees) <= 0.0 <==> LexLe(KeysOf(a, iteratees), KeysOf(b, iteratees))
    decreases |iteratees|
  {
    if |iteratees| > 0 {
      var u := KeysOf(a, iteratees);
      var v := KeysOf(b, iteratees);
      KeysOfTail(a, iteratees);
      KeysOfTail(b, iteratees);
      if u[0] == v[0] {
        assert KindsMatch(KeysOf(a, iteratees[1..]), KeysOf(b, iteratees[1..])) by {
          forall k | 0 <= k < |iteratees| - 1
            ensures KeysOf(a, iteratees[1..])[k].Num? == KeysOf(b, iteratees[1..])[k].Num?
          {
            assert u[k + 1].Num? == v[k + 1].Num?;
          }
        }
        CompareLexicographic(a, b, iteratees[1..]);
      } else if u[0].Str? {
        StrLtTotal(u[0].s, v[0].s);
        StrLtAsymmetric(u[0].s, v[0].s);
      }
    }
  }

  lemma {:induction false} LexLeTotal(u: seq<Value>, v: seq<Value>)
    requires KindsMatch(u, v)
    ensures LexLe(u, v) || LexLe(v, u)
    decreases |u|
  {
    if |u| > 0 {
      if u[0] == v[0] {
        LexLeTotal(u[1..], v[1..]);
      } else if u[0].Str? {
        StrLtTotal(u[0].s, v[0].s);
      }
    }
  }

  lemma {:induction false} LexLeTransitive(u: seq<Value>, v: seq<Value>, w: seq<Value>)
    requires KindsMatch(u, v) && KindsMatch(v, w)
    requires LexLe(u, v) && LexLe(v, w)
    ensures LexLe(u, w)
    decreases |u|
  {
    if |u| > 0 {
      if u[0] == v[0] && v[0] == w[0] {
        LexLeTransitive(u[1..], v[1..], w[1..]);
      } else if u[0].Str? && v[0].Str? && w[0].Str? {
        if u[0] != v[0] && v[0] != w[0] {
          StrLtTransitive(u[0].s, v[0].s, w[0].s);
        }
        if u[0] == w[0] {
          StrLtAsymmetric(u[0].s, v[0].s);
        }
      }
    }
  }

  /** With uniform keys the comparator is a total preorder on the collection. */
  lemma ByKeysPreorder<T>(list: seq<T>, iteratees: seq<T -> Value>)
    requires UniformKeys(list, iteratees)
    ensures PreorderOn(list, ByKeys(iteratees))
  {
    var le := ByKeys(iteratees);
    forall a, b | a in list && b in list ensures le(a, b) || le(b, a) {
      CompareLexicographic(a, b, iteratees);
      CompareLexicographic(b, a, iteratees);
      LexLeTotal(KeysOf(a, iteratees), KeysOf(b, iteratees));
    }
    forall a, b, c | a in list && b in list && c in list && le(a, b) && le(b, c) ensures le(a, c) {
      CompareLexicographic(a, b, iteratees);
      CompareLexicographic(b, c, iteratees);
      CompareLexicographic(a, c, iteratees);
      LexLeTransitive(KeysOf(a, iteratees), KeysOf(b, iteratees), KeysOf(c, iteratees));
    }
  }

  /** With uniform keys, `sortBy` lists the elements in lexicographic order
      of their key tuples. */
  lemma SortByOrdered<T>(collection: seq<T>, iteratees: seq<T -> Value>)
    requires UniformKeys(collection, iteratees)
    ensures var r := SortBy(Some(collection), Some(iteratees));
            forall i, j | 0 <= i < j < |r| :: LexLe(KeysOf(r[i], iteratees), KeysOf(r[j], iteratees))
  {
    var r := SortBy(Some(collection), Some(iteratees));
    if |iteratees| > 0 {
      ByKeysPreorder(collection, iteratees);
      SortSorted(collection, ByKeys(iteratees));
      forall i, j | 0 <= i < j < |r| ensures LexLe(KeysOf(r[i], iteratees), KeysOf(r[j], iteratees)) {
        assert r[i] in multiset(collection) && r[j] in multiset(collection);
        CompareLexicographic(r[i], r[j], iteratees);
      }
    }
  }
  // Stability: elements with equal keys keep their order.

  /** The elements of `s` whose key tuple equals that of `k`, in their order in `s`. */
  function SameKeys<T>(s: seq<T>, k: T, iteratees: seq<T -> Value>): (r: seq<T>)
    ensures |r| <= |s|
    ensures forall i | 0 <= i < |r| :: KeysOf(r[i], iteratees) == KeysOf(k, iteratees)
    decreases |s|
  {
    if |s| == 0 then []
    else (if KeysOf(s[0], iteratees) == KeysOf(k, iteratees) then [s[0]] else []) + SameKeys(s[1..], k, iteratees)
  }

  lemma {:induction false} LexLeReflexive(u: seq<Value>)
    ensures LexLe(u, u)
    decreases |u|
  {
    if |u| > 0 {
      LexLeReflexive(u[1..]);
    }
  }

  lemma {:induction false} LexLeAntisymmetric(u: seq<Value>, v: seq<Value>)
    requires |u| == |v| && LexLe(u, v) && LexLe(v, u)
    ensures u == v
    decreases |u|
  {
    if |u| > 0 {
      if u[0] == v[0] {
        LexLeAntisymmetric(u[1..], v[1..]);
        assert u == [u[0]] + u[1..] && v == [v[0]] + v[1..];
      } else if u[0].Str? && v[0].Str? {
        StrLtAsymmetric(u[0].s, v[0].s);
      }
    }
  }

  /** Two elements tie under the comparator exactly when their key tuples are equal. */
  lemma ByKeysTie<T>(a: T, b: T, iteratees: seq<T -> Value>)
    requires KindsMatch(KeysOf(a, iteratees), KeysOf(b, iteratees))
    ensures ByKeys(iteratees)(a, b) && ByKeys(iteratees)(b, a) <==> KeysOf(a, iteratees) == KeysOf(b, iteratees)
  {
    CompareLexicographic(a, b, iteratees);
    CompareLexicographic(b, a, iteratees);
    if ByKeys(iteratees)(a, b) && ByKeys(iteratees)(b, a) {
      LexLeAntisymmetric(KeysOf(a, iteratees), KeysOf(b, iteratees));
    }
    LexLeReflexive(KeysOf(a, iteratees));
  }

  lemma {:induction false} TiesAreSameKeys<T>(s: seq<T>, k: T, iteratees: seq<T -> Value>, list: seq<T>)
    requires UniformKeys(list, iteratees)
    requires k in list && forall y | y in s :: y in list
    ensures Ties(s, k, ByKeys(iteratees)) == SameKeys(s, k, iteratees)
    decreases |s|
  {
    if |s| > 0 {
      assert s[0] in list;
      ByKeysTie(s[0], k, iteratees);
      assert forall y | y in s[1..] :: y in s;
      TiesAreSameKeys(s[1..], k, iteratees, list);
    }
  }

  /** `sortBy` is stable: elements with equal key tuples come out in the order
      they had in the collection. */
  lemma SortByStable<T>(collection: seq<T>, iteratees: seq<T -> Value>, k: T)
    requires UniformKeys(collection, iteratees) && k in collection
    ensures SameKeys(SortBy(Some(collection), Some(iteratees)), k, iteratees) == SameKeys(collection, k, iteratees)
  {
    if |iteratees| > 0 {
      var le := ByKeys(iteratees);
      var r := Sort(collection, le);
      ByKeysPreorder(collection, iteratees);
      SortStable(collection, k, le);
      TiesAreSameKeys(collection, k, iteratees, collection);
      forall y | y in r ensures y in collection {
        assert y in multiset(r);
      }
      TiesAreSameKeys(r, k, iteratees, collection);
    }
  }
}
