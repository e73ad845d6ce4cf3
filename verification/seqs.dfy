/** Generic sequence and integer helpers shared by the scheduling and ranking models. */
module Seqs {

  function Min(a: int, b: int): int {
    if a <= b then a else b
  }

  function Max(a: int, b: int): int {
    if a >= b then a else b
  }

  /** No element occurs twice. */
  predicate Distinct<T(==)>(s: seq<T>) {
    forall i, j | 0 <= i < j < |s| :: s[i] != s[j]
  }

  /** Concatenation of a sequence of sequences, in order (`flat()` in JavaScript). */
  function Flatten<T>(ss: seq<seq<T>>): seq<T> {
    if |ss| == 0 then [] else ss[0] + Flatten(ss[1..])
  }

  /** An element of one inner sequence is an element of the concatenation. */
  lemma {:induction false} FlattenContains<T>(ss: seq<seq<T>>, i: nat, x: T)
    requires i < |ss| && x in ss[i]
    ensures x in Flatten(ss)
    decreases i
  {
    if i > 0 {
      assert x in ss[1..][i - 1];
      FlattenContains(ss[1..], i - 1, x);
    }
  }

  /** Every element of the concatenation comes from some inner sequence. */
  lemma {:induction false} FlattenMember<T>(ss: seq<seq<T>>, x: T) returns (i: nat)
    requires x in Flatten(ss)
    ensures i < |ss| && x in ss[i]
    decreases |ss|
  {
    if x in ss[0] {
      i := 0;
    } else {
      var j := FlattenMember(ss[1..], x);
      i := j + 1;
    }
  }

  /** Sum of the lengths of the inner sequences. */
  function SumLengths<T>(ss: seq<seq<T>>): nat {
    if |ss| == 0 then 0 else |ss[0]| + SumLengths(ss[1..])
  }

  lemma {:induction false} FlattenLength<T>(ss: seq<seq<T>>)
    ensures |Flatten(ss)| == SumLengths(ss)
    decreases |ss|
  {
    if |ss| > 0 {
      FlattenLength(ss[1..]);
    }
  }

  lemma {:induction false} FlattenAppend<T>(a: seq<seq<T>>, b: seq<seq<T>>)
    ensures Flatten(a + b) == Flatten(a) + Flatten(b)
    decreases |a|
  {
    if |a| == 0 {
      assert a + b == b;
    } else {
      assert (a + b)[1..] == a[1..] + b;
      FlattenAppend(a[1..], b);
    }
  }

  /** Flattening a prefix one inner sequence longer appends that sequence. */
  lemma FlattenPrefixStep<T>(ss: seq<seq<T>>, i: nat)
    requires i < |ss|
    ensures Flatten(ss[..i + 1]) == Flatten(ss[..i]) + ss[i]
  {
    assert ss[..i + 1] == ss[..i] + [ss[i]];
    FlattenAppend(ss[..i], [ss[i]]);
    assert Flatten([ss[i]]) == ss[i] + Flatten([ss[i]][1..]);
    assert [ss[i]][1..] == [];
  }

  /** When every inner sequence has length `len`, the total is `|ss| * len`. */
  lemma {:induction false} SumLengthsUniform<T>(ss: seq<seq<T>>, len: nat)
    requires forall i | 0 <= i < |ss| :: |ss[i]| == len
    ensures SumLengths(ss) == |ss| * len
    decreases |ss|
  {
    if |ss| > 0 {
      SumLengthsUniform(ss[1..], len);
    }
  }

  /** The elements of `s` that satisfy `keep`, in order (`Array.prototype.filter`). */
  function Filter<T(==,!new)>(s: seq<T>, keep: T -> bool): (r: seq<T>)
    ensures |r| <= |s|
    ensures forall x :: x in r <==> x in s && keep(x)
    ensures multiset(r) <= multiset(s)
  {
    if |s| == 0 then []
    else
      var rest := Filter(s[1..], keep);
      assert s == [s[0]] + s[1..];
      assert forall x :: x in s <==> x == s[0] || x in s[1..];
      if keep(s[0]) then [s[0]] + rest else rest
  }

  /** Filtering a sequence without duplicates keeps it without duplicates. */
  lemma {:induction false} FilterDistinct<T(!new)>(s: seq<T>, keep: T -> bool)
    requires Distinct(s)
    ensures Distinct(Filter(s, keep))
    decreases |s|
  {
    if |s| > 0 {
      FilterDistinct(s[1..], keep);
      var rest := Filter(s[1..], keep);
      if keep(s[0]) {
        assert s[0] !in s[1..];
        assert s[0] !in rest;
        var r := [s[0]] + rest;
        forall i, j | 0 <= i < j < |r| ensures r[i] != r[j] {
          if i == 0 { assert r[j] in rest; } else { assert r[i] == rest[i - 1] && r[j] == rest[j - 1]; }
        }
      }
    }
  }

  /** `s.map(f)`. */
  function Map<T, U>(s: seq<T>, f: T -> U): (r: seq<U>)
    ensures |r| == |s|
    ensures forall i | 0 <= i < |s| :: r[i] == f(s[i])
  {
    seq(|s|, i requires 0 <= i < |s| => f(s[i]))
  }

  lemma MapAppend<T, U>(a: seq<T>, b: seq<T>, f: T -> U)
    ensures Map(a + b, f) == Map(a, f) + Map(b, f)
  {
  }

  /** Mapping the sequence without position `i`: the multiset loses `f(s[i])`. */
  lemma MapRemoveAt<T, U>(s: seq<T>, i: nat, f: T -> U)
    requires i < |s|
    ensures multiset(Map(s, f)) == multiset(Map(s[..i] + s[i + 1..], f)) + multiset{f(s[i])}
  {
    assert s == s[..i] + ([s[i]] + s[i + 1..]);
    MapAppend(s[..i], [s[i]] + s[i + 1..], f);
    MapAppend([s[i]], s[i + 1..], f);
    MapAppend(s[..i], s[i + 1..], f);
    assert Map([s[i]], f) == [f(s[i])];
  }

  /** Mapping keeps permutations permutations. */
  lemma {:induction false} MapPermutation<T, U>(a: seq<T>, b: seq<T>, f: T -> U)
    requires multiset(a) == multiset(b)
    ensures multiset(Map(a, f)) == multiset(Map(b, f))
    decreases |a|
  {
    if |a| == 0 {
      assert |b| == |multiset(b)| == 0;
    } else {
      assert a[0] in multiset(b);
      var i :| 0 <= i < |b| && b[i] == a[0];
      var rest := b[..i] + b[i + 1..];
      RemoveSame(a, b, i);
      MapPermutation(a[1..], rest, f);
      MapRemoveAt(b, i, f);
      assert a == [a[0]] + a[1..];
      MapAppend([a[0]], a[1..], f);
      assert Map([a[0]], f) == [f(a[0])];
      assert Map(a, f) == [f(a[0])] + Map(a[1..], f);
      var fx := multiset{f(a[0])};
      assert multiset(Map(a, f)) == fx + multiset(Map(a[1..], f));
      assert multiset(Map(b, f)) == multiset(Map(rest, f)) + fx;
    }
  }

  /** Number of elements of `s` that equal `x`. */
  function Occurrences<T(==)>(s: seq<T>, x: T): nat {
    multiset(s)[x]
  }

  /** Removing one occurrence of `x` from the multiset of `s`, shown on positions. */
  lemma RemoveAt<T>(s: seq<T>, i: nat)
    requires i < |s|
    ensures multiset(s) == multiset(s[..i] + s[i + 1..]) + multiset{s[i]}
  {
    assert s == s[..i] + [s[i]] + s[i + 1..];
  }

  /** Removing the same element from two permutations of each other leaves
      permutations of each other. */
  lemma RemoveSame<T>(a: seq<T>, b: seq<T>, i: nat)
    requires multiset(a) == multiset(b)
    requires |a| > 0 && i < |b| && b[i] == a[0]
    ensures multiset(a[1..]) == multiset(b[..i] + b[i + 1..])
  {
    assert multiset(a[1..]) == multiset(a) - multiset{a[0]} by {
      assert a == [a[0]] + a[1..];
    }
    assert multiset(b[..i] + b[i + 1..]) == multiset(b) - multiset{b[i]} by {
      RemoveAt(b, i);
    }
  }

  /** Position `j` of the concatenation is position `k` of inner sequence `r`;
      `j` is recovered from `(r, k)`, so different positions come from different places. */
  lemma {:induction false} FlattenIndex<T>(ss: seq<seq<T>>, j: nat) returns (r: nat, k: nat)
    requires j < |Flatten(ss)|
    ensures r < |ss| && k < |ss[r]|
    ensures Flatten(ss)[j] == ss[r][k]
    ensures j == SumLengths(ss[..r]) + k
    decreases |ss|
  {
    if j < |ss[0]| {
      r, k := 0, j;
      assert ss[..0] == [];
    } else {
      var r', k' := FlattenIndex(ss[1..], j - |ss[0]|);
      r, k := r' + 1, k';
      assert ss[..r][1..] == ss[1..][..r'];
      assert ss[..r][0] == ss[0];
    }
  }

  /** An element at two positions occurs at least twice. */
  lemma MultisetRepeat<T>(t: seq<T>, j1: nat, j2: nat)
    requires j1 < j2 < |t| && t[j1] == t[j2]
    ensures multiset(t)[t[j1]] >= 2
  {
    RemoveAt(t, j2);
    assert (t[..j2] + t[j2 + 1..])[j1] == t[j1];
    assert t[j1] in multiset(t[..j2] + t[j2 + 1..]);
  }

  /** An element that occurs twice sits at two different positions. */
  lemma RepeatPositions<T>(s: seq<T>, x: T) returns (i1: nat, i2: nat)
    requires multiset(s)[x] >= 2
    ensures i1 < i2 < |s| && s[i1] == x && s[i2] == x
  {
    assert x in multiset(s);
    var a :| 0 <= a < |s| && s[a] == x;
    var rest := s[..a] + s[a + 1..];
    RemoveAt(s, a);
    assert x in multiset(rest);
    var b :| 0 <= b < |rest| && rest[b] == x;
    if b < a {
      assert rest[b] == s[b];
      i1, i2 := b, a;
    } else {
      assert rest[b] == s[b + 1];
      i1, i2 := a, b + 1;
    }
  }

  /** Two sequences concatenate to one without repeats exactly when each has
      none and they share nothing. */
  lemma DistinctAppend<T>(a: seq<T>, b: seq<T>)
    ensures Distinct(a + b) <==> Distinct(a) && Distinct(b) && forall x | x in a :: x !in b
  {
    var ab := a + b;
    if Distinct(ab) {
      forall i, j | 0 <= i < j < |a| ensures a[i] != a[j] {
        assert ab[i] == a[i] && ab[j] == a[j];
      }
      forall x | x in a ensures x !in b {
        var i :| 0 <= i < |a| && a[i] == x;
        assert ab[i] == x;
        assert forall j | 0 <= j < |b| :: ab[|a| + j] == b[j];
      }
      forall i, j | 0 <= i < j < |b| ensures b[i] != b[j] {
        assert ab[|a| + i] == b[i] && ab[|a| + j] == b[j];
      }
    }
    if Distinct(a) && Distinct(b) && forall x | x in a :: x !in b {
      forall i, j | 0 <= i < j < |ab| ensures ab[i] != ab[j] {
        if j < |a| {
        } else if i >= |a| {
          assert ab[i] == b[i - |a|] && ab[j] == b[j - |a|];
        } else {
          assert ab[i] in a && ab[j] == b[j - |a|];
        }
      }
    }
  }

  /** A sequence has no repeats exactly when its set of elements is as large as it. */
  lemma {:induction false} DistinctCardinality<T>(s: seq<T>)
    ensures Distinct(s) <==> |s| == |set x | x in s|
    decreases |s|
  {
    if |s| > 0 {
      var t := s[1..];
      DistinctCardinality(t);
      assert s == [s[0]] + t;
      assert (set x | x in s) == {s[0]} + set x | x in t;
      DistinctAppend([s[0]], t);
      if s[0] in t {
        assert (set x | x in s) == set x | x in t;
        SetOfSeqBound(t);
      } else {
        assert (set x | x in s) == (set x | x in t) + {s[0]};
      }
    }
  }

  lemma {:induction false} SetOfSeqBound<T>(s: seq<T>)
    ensures |set x | x in s| <= |s|
    decreases |s|
  {
    if |s| > 0 {
      SetOfSeqBound(s[1..]);
      assert (set x | x in s) == {s[0]} + set x | x in s[1..];
    }
  }

  /** In a concatenation without repeats, an element of one part is in no later part. */
  lemma {:induction false} FlattenSplit<T>(ss: seq<seq<T>>, i: nat, j: nat, x: T)
    requires i < j < |ss| && x in ss[i] && Distinct(Flatten(ss))
    ensures x !in ss[j]
    decreases i
  {
    assert Flatten(ss) == ss[0] + Flatten(ss[1..]);
    DistinctAppend(ss[0], Flatten(ss[1..]));
    if i == 0 {
      if x in ss[j] {
        FlattenContains(ss[1..], j - 1, x);
      }
    } else {
      FlattenSplit(ss[1..], i - 1, j - 1, x);
    }
  }
}
