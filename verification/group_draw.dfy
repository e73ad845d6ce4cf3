/** `distributeIntoGroups` (src/server/tournament-service.ts): splits the
    rating-ordered roster into one contiguous band per group label. Every band
    gets `floor(n / k)` participants and the first `n mod k` bands one more. */
module GroupDraw {
  import opened Seqs

  /** A group: its label and its band of the roster. */
  datatype Group<T> = Group(name: string, participants: seq<T>)

  /** `Array.prototype.slice(start, end)` for non-negative bounds: both are
      clamped to the length. */
  function JsSlice<T>(s: seq<T>, start: nat, end: nat): (r: seq<T>)
    ensures end <= |s| && start <= end ==> r == s[start..end]
    ensures |r| <= |s|
  {
    var e := Min(end, |s|);
    var b := Min(start, e);
    s[b..e]
  }

  /** `if (remainder > 0) remainder -= 1`. */
  function NextRemainder(remainder: int): int {
    if remainder > 0 then remainder - 1 else remainder
  }

  /** `baseSize + (remainder > 0 ? 1 : 0)`. */
  function Size(base: nat, remainder: int): nat {
    base + (if remainder > 0 then 1 else 0)
  }

  /** Sum of the band sizes the loop hands out for `count` labels. */
  function Handed(count: nat, base: nat, remainder: int): nat
    decreases count
  {
    if count == 0 then 0
    else Size(base, remainder) + Handed(count - 1, base, NextRemainder(remainder))
  }

  /** The `labels.map` callback from `labels[0]` on, with the loop state
      (`remainder`, `cursor`) threaded through. */
  function Bands<T>(ps: seq<T>, labels: seq<string>, base: nat, remainder: int, cursor: nat): (gs: seq<Group<T>>)
    ensures |gs| == |labels|
    decreases |labels|
  {
    if |labels| == 0 then []
    else
      var size := Size(base, remainder);
      [Group(labels[0], JsSlice(ps, cursor, cursor + size))]
        + Bands(ps, labels[1..], base, NextRemainder(remainder), cursor + size)
  }

  function DistributeIntoGroups<T>(ps: seq<T>, labels: seq<string>): (gs: seq<Group<T>>)
    ensures |gs| == |labels|
    ensures forall i | 0 <= i < |gs| :: gs[i].name == labels[i]
  {
    if |labels| == 0 then []
    else
      BandsNamed(ps, labels, |ps| / |labels|, |ps| % |labels|, 0);
      Bands(ps, labels, |ps| / |labels|, |ps| % |labels|, 0)
  }

  /** Band `i` carries label `i`. */
  lemma {:induction false} BandsNamed<T>(ps: seq<T>, labels: seq<string>, base: nat, remainder: int, cursor: nat)
    ensures forall i | 0 <= i < |labels| :: Bands(ps, labels, base, remainder, cursor)[i].name == labels[i]
    decreases |labels|
  {
    if |labels| > 0 {
      var size := Size(base, remainder);
      var rest := Bands(ps, labels[1..], base, NextRemainder(remainder), cursor + size);
      var g := Group(labels[0], JsSlice(ps, cursor, cursor + size));
      assert Bands(ps, labels, base, remainder, cursor) == [g] + rest;
      BandsNamed(ps, labels[1..], base, NextRemainder(remainder), cursor + size);
    }
  }

  function Members<T>(gs: seq<Group<T>>): (ms: seq<seq<T>>)
    ensures |ms| == |gs|
  {
    seq(|gs|, i requires 0 <= i < |gs| => gs[i].participants)
  }

  // ---------------------------------------------------------------------------

  lemma {:induction false} HandedTotal(count: nat, base: nat, remainder: nat)
    requires remainder <= count
    ensures Handed(count, base, remainder) == count * base + remainder
    decreases count
  {
    if count > 0 {
      HandedTotal(count - 1, base, NextRemainder(remainder));
      assert count * base == (count - 1) * base + base;
    }
  }

  /** One step of the `labels.map` loop: the first band and the bands after it. */
  lemma BandsHead<T>(ps: seq<T>, labels: seq<string>, base: nat, remainder: int, cursor: nat)
    requires |labels| > 0
    requires cursor + Handed(|labels|, base, remainder) <= |ps|
    ensures cursor + Size(base, remainder) + Handed(|labels| - 1, base, NextRemainder(remainder)) <= |ps|
    ensures Bands(ps, labels, base, remainder, cursor)[0].participants == ps[cursor..cursor + Size(base, remainder)]
    ensures Bands(ps, labels, base, remainder, cursor)[1..]
            == Bands(ps, labels[1..], base, NextRemainder(remainder), cursor + Size(base, remainder))
  {
    var size := Size(base, remainder);
    var rest := Bands(ps, labels[1..], base, NextRemainder(remainder), cursor + size);
    var g := Group(labels[0], JsSlice(ps, cursor, cursor + size));
    assert Bands(ps, labels, base, remainder, cursor) == [g] + rest;
    assert ([g] + rest)[1..] == rest;
  }

  /** Band `i` of the remaining labels is band `i + 1` of the whole list. */
  lemma ExtraShift(remainder: nat, i: nat)
    requires i > 0
    ensures (i - 1 < NextRemainder(remainder)) == (i < remainder)
  {
  }

  lemma {:induction false} BandsSizes<T>(ps: seq<T>, labels: seq<string>, base: nat, remainder: nat, cursor: nat, i: nat)
    requires cursor + Handed(|labels|, base, remainder) <= |ps|
    requires i < |labels|
    ensures |Bands(ps, labels, base, remainder, cursor)[i].participants| == base + (if i < remainder then 1 else 0)
    decreases i
  {
    BandsHead(ps, labels, base, remainder, cursor);
    if i > 0 {
      var size := Size(base, remainder);
      var gs := Bands(ps, labels, base, remainder, cursor);
      var rest := Bands(ps, labels[1..], base, NextRemainder(remainder), cursor + size);
      assert gs[i] == gs[1..][i - 1];
      assert |rest[i - 1].participants| == base + (if i - 1 < NextRemainder(remainder) then 1 else 0) by {
        BandsSizes(ps, labels[1..], base, NextRemainder(remainder), cursor + size, i - 1);
      }
      ExtraShift(remainder, i);
    }
  }

  lemma MembersCons<T>(g: Group<T>, rest: seq<Group<T>>)
    ensures Flatten(Members([g] + rest)) == g.participants + Flatten(Members(rest))
  {
    var ms := Members([g] + rest);
    assert ms[1..] == Members(rest);
  }

  lemma BandsStep<T>(ps: seq<T>, labels: seq<string>, base: nat, remainder: int, cursor: nat)
    requires |labels| > 0
    requires cursor + Handed(|labels|, base, remainder) <= |ps|
    requires Flatten(Members(Bands(ps, labels[1..], base, NextRemainder(remainder), cursor + Size(base, remainder))))
             == ps[cursor + Size(base, remainder)..cursor + Handed(|labels|, base, remainder)]
    ensures Flatten(Members(Bands(ps, labels, base, remainder, cursor)))
            == ps[cursor..cursor + Handed(|labels|, base, remainder)]
  {
    var mid := cursor + Size(base, remainder);
    var end := cursor + Handed(|labels|, base, remainder);
    BandsHead(ps, labels, base, remainder, cursor);
    assert mid <= end by {
      assert Handed(|labels|, base, remainder) == Size(base, remainder) + Handed(|labels| - 1, base, NextRemainder(remainder));
    }
    FlattenHead(Bands(ps, labels, base, remainder, cursor), ps, cursor, mid, end);
  }

  /** A first band covering `ps[cursor..mid]` followed by bands covering
      `ps[mid..end]` covers `ps[cursor..end]`. */
  lemma FlattenHead<T>(gs: seq<Group<T>>, ps: seq<T>, cursor: nat, mid: nat, end: nat)
    requires |gs| > 0 && cursor <= mid <= end <= |ps|
    requires gs[0].participants == ps[cursor..mid]
    requires Flatten(Members(gs[1..])) == ps[mid..end]
    ensures Flatten(Members(gs)) == ps[cursor..end]
  {
    assert gs == [gs[0]] + gs[1..];
    MembersCons(gs[0], gs[1..]);
    assert ps[cursor..end] == ps[cursor..mid] + ps[mid..end];
  }

  lemma {:induction false} BandsConcat<T>(ps: seq<T>, labels: seq<string>, base: nat, remainder: int, cursor: nat)
    requires cursor + Handed(|labels|, base, remainder) <= |ps|
    ensures Flatten(Members(Bands(ps, labels, base, remainder, cursor)))
            == ps[cursor..cursor + Handed(|labels|, base, remainder)]
    decreases |labels|
  {
    if |labels| > 0 {
      BandsConcat(ps, labels[1..], base, NextRemainder(remainder), cursor + Size(base, remainder));
      BandsStep(ps, labels, base, remainder, cursor);
    } else {
      assert Members(Bands(ps, labels, base, remainder, cursor)) == [];
    }
  }

  /** Band `i` holds `floor(n / k)` participants, plus one for the first `n mod k` bands. */
  lemma GroupSizes<T>(ps: seq<T>, labels: seq<string>, i: nat)
    requires i < |labels|
    ensures |DistributeIntoGroups(ps, labels)[i].participants|
            == |ps| / |labels| + (if i < |ps| % |labels| then 1 else 0)
  {
    var base, remainder := |ps| / |labels|, |ps| % |labels|;
    assert Handed(|labels|, base, remainder) == |ps| by {
      HandedTotal(|labels|, base, remainder);
    }
    BandsSizes(ps, labels, base, remainder, 0, i);
  }

  /** Reading the bands in label order gives back the roster exactly. */
  lemma GroupsPartitionRoster<T>(ps: seq<T>, labels: seq<string>)
    requires |labels| > 0
    ensures Flatten(Members(DistributeIntoGroups(ps, labels))) == ps
  {
    var base, remainder := |ps| / |labels|, |ps| % |labels|;
    assert Handed(|labels|, base, remainder) == |ps| by {
      HandedTotal(|labels|, base, remainder);
    }
    BandsConcat(ps, labels, base, remainder, 0);
    assert ps[0..|ps|] == ps;
  }

  /** Two bands differ in size by at most one. */
  lemma GroupSizesBalanced<T>(ps: seq<T>, labels: seq<string>, i: nat, j: nat)
    requires i < |labels| && j < |labels|
    ensures |DistributeIntoGroups(ps, labels)[i].participants| <= |DistributeIntoGroups(ps, labels)[j].participants| + 1
  {
    GroupSizes(ps, labels, i);
    GroupSizes(ps, labels, j);
  }
}
