/** Index arithmetic of the circle method over a roster of `2 * half` entries.

    Entry 0 stays fixed; entries 1 .. 2*half-1 sit on a rotation of length
    k = 2*half - 1 that is shifted left by one each round. In round `r`
    (0 <= r < k) slot 0 pairs the fixed entry with the last rotation place, and
    slot i >= 1 pairs rotation place i-1 with place k-1-i, both read after the
    shift by `r`. `Wrap` stands for "mod k" on the range 0 .. 2k-1, which keeps
    every fact below within linear arithmetic. */
module CircleArithmetic {

  function Wrap(p: int, k: int): (w: int)
    requires 0 <= p < 2 * k
    ensures 0 <= w < k
  {
    if p < k then p else p - k
  }

  /** Roster index on the left (home) side of slot `i` in round `r`. */
  function LeftIndex(half: nat, r: nat, i: nat): (x: nat)
    requires half >= 1 && r < 2 * half - 1 && i < half
    ensures x < 2 * half
  {
    if i == 0 then 0 else 1 + Wrap(i - 1 + r, 2 * half - 1)
  }

  /** Roster index on the right (away) side of slot `i` in round `r`. */
  function RightIndex(half: nat, r: nat, i: nat): (x: nat)
    requires half >= 1 && r < 2 * half - 1 && i < half
    ensures 1 <= x < 2 * half
  {
    1 + Wrap(2 * half - 2 - i + r, 2 * half - 1)
  }

  /** The two roster indices of slot `i` of round `r` are `{x, y}`. */
  predicate SlotIs(half: nat, r: nat, i: nat, x: nat, y: nat)
    requires half >= 1 && r < 2 * half - 1 && i < half
  {
    || (LeftIndex(half, r, i) == x && RightIndex(half, r, i) == y)
    || (LeftIndex(half, r, i) == y && RightIndex(half, r, i) == x)
  }

  /** A slot never pairs an entry with itself. */
  lemma SlotTwoEntries(half: nat, r: nat, i: nat)
    requires half >= 1 && r < 2 * half - 1 && i < half
    ensures LeftIndex(half, r, i) != RightIndex(half, r, i)
  {
  }

  /** Two different slots of one round share no entry. */
  lemma SlotsDisjoint(half: nat, r: nat, i: nat, i': nat)
    requires half >= 1 && r < 2 * half - 1 && i < half && i' < half && i != i'
    ensures LeftIndex(half, r, i) != LeftIndex(half, r, i')
    ensures LeftIndex(half, r, i) != RightIndex(half, r, i')
    ensures RightIndex(half, r, i) != RightIndex(half, r, i')
  {
  }

  /** Every entry plays in every round (the bye placeholder included). */
  lemma SlotCovers(half: nat, r: nat, x: nat) returns (i: nat)
    requires half >= 1 && r < 2 * half - 1 && x < 2 * half
    ensures i < half
    ensures LeftIndex(half, r, i) == x || RightIndex(half, r, i) == x
  {
    var k := 2 * half - 1;
    if x == 0 {
      i := 0;
    } else {
      var p := x - 1;
      var d := Wrap(p - r + k, k);
      if d <= half - 2 {
        i := d + 1;
        assert LeftIndex(half, r, i) == 1 + Wrap(d + r, k);
      } else {
        i := k - 1 - d;
        assert RightIndex(half, r, i) == 1 + Wrap(d + r, k);
      }
    }
  }

  /** Every two different entries meet in some slot of some round. */
  lemma SlotExists(half: nat, x: nat, y: nat) returns (r: nat, i: nat)
    requires half >= 1 && x < y < 2 * half
    ensures r < 2 * half - 1 && i < half
    ensures SlotIs(half, r, i, x, y)
  {
    var k := 2 * half - 1;
    if x == 0 {
      r := if y < k then y else 0;
      i := 0;
      assert RightIndex(half, r, i) == y;
    } else {
      var a, b := x - 1, y - 1;
      if (a + b) % 2 == 0 {
        var s := (a + b) / 2;
        var d := (b - a) / 2;
        assert a == s - d && b == s + d;
        r := s + 1;
        i := d;
        assert LeftIndex(half, r, i) == y;
        assert RightIndex(half, r, i) == x;
      } else {
        var d := (k - (b - a)) / 2;
        assert 2 * d == k - (b - a);
        var s := Wrap(b + d, k);
        r := Wrap(s + 1, k);
        i := d;
        assert LeftIndex(half, r, i) == x;
        assert RightIndex(half, r, i) == y;
      }
    }
  }

  /** No two slots, in the same or different rounds, hold the same two entries. */
  lemma SlotUnique(half: nat, r: nat, i: nat, r': nat, i': nat)
    requires half >= 1 && r < 2 * half - 1 && i < half && r' < 2 * half - 1 && i' < half
    requires SlotIs(half, r', i', LeftIndex(half, r, i), RightIndex(half, r, i))
    ensures r == r' && i == i'
  {
  }
}
