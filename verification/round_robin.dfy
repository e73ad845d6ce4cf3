/** `roundRobinRounds` (src/server/tournament-service.ts): the circle method.

    An odd roster gets the `BYE` placeholder appended. The first entry stays
    fixed; the others sit on a rotation that moves left by one place per round
    (`rotation.push(rotation.shift())`). Round pairs are the fixed entry plus the
    first `half - 1` rotation places, zipped with the reversed rest; a pair that
    touches `BYE` is dropped. */
module RoundRobin {
  import opened Seqs
  import opened Schedule
  import opened CircleArithmetic

  function Reverse<T>(s: seq<T>): (r: seq<T>)
    ensures |r| == |s|
    ensures forall i | 0 <= i < |s| :: r[i] == s[|s| - 1 - i]
  {
    seq(|s|, i requires 0 <= i < |s| => s[|s| - 1 - i])
  }

  /** `rotation.push(rotation.shift()!)`. */
  function RotateOnce(s: seq<Id>): (r: seq<Id>)
    requires |s| > 0
    ensures |r| == |s|
  {
    s[1..] + [s[0]]
  }

  /** The rotation after `n` shifts. */
  function RotateTimes(s: seq<Id>, n: nat): (r: seq<Id>)
    requires |s| > 0
    ensures |r| == |s|
    decreases n
  {
    if n == 0 then s else RotateTimes(RotateOnce(s), n - 1)
  }

  /** The `half` pairings of one round before byes are skipped. */
  function Slots(fixed: Id, rotation: seq<Id>, half: nat): (r: seq<Pair>)
    requires half >= 1 && |rotation| == 2 * half - 1
    ensures |r| == half
  {
    var left := [fixed] + rotation[..half - 1];
    var right := Reverse(rotation[half - 1..]);
    seq(half, i requires 0 <= i < half => Pair(left[i], right[i]))
  }

  predicate NotBye(p: Pair) {
    p.home != Bye && p.away != Bye
  }

  /** Keeps the pairings without `BYE`, in order:
      `if (home !== 'BYE' && away !== 'BYE') roundPairs.push([home, away])`. */
  function SkipByes(s: seq<Pair>): seq<Pair>
    decreases |s|
  {
    if |s| == 0 then []
    else (if NotBye(s[0]) then [s[0]] else []) + SkipByes(s[1..])
  }

  /** The pairs of one round. */
  function Round(fixed: Id, rotation: seq<Id>, half: nat): seq<Pair>
    requires half >= 1 && |rotation| == 2 * half - 1
  {
    SkipByes(Slots(fixed, rotation, half))
  }

  /** The remaining `count` rounds, starting from `rotation`. */
  function Rounds(fixed: Id, rotation: seq<Id>, half: nat, count: nat): (r: seq<seq<Pair>>)
    requires half >= 1 && |rotation| == 2 * half - 1
    ensures |r| == count
    decreases count
  {
    if count == 0 then []
    else [Round(fixed, rotation, half)] + Rounds(fixed, RotateOnce(rotation), half, count - 1)
  }

  /** The roster the circle method runs on: `BYE` appended to an odd roster. */
  function Padded(players: seq<Id>): (list: seq<Id>)
    ensures |list| % 2 == 0
    ensures |list| == if |players| % 2 == 1 then |players| + 1 else |players|
  {
    if |players| % 2 == 1 then players + [Bye] else players
  }

  function RoundRobinRounds(players: seq<Id>): (rounds: seq<seq<Pair>>)
    ensures |players| <= 1 ==> rounds == []
    ensures |players| >= 2 ==> |rounds| == if |players| % 2 == 0 then |players| - 1 else |players|
  {
    if |players| <= 1 then []
    else
      var list := Padded(players);
      var half := |list| / 2;
      Rounds(list[0], list[1..], half, |list| - 1)
  }

  // ---------------------------------------------------------------------------
  // From the recursive construction to closed index formulas.

  lemma {:induction false} RotateTimesIndex(s: seq<Id>, n: nat, j: nat)
    requires 0 <= n < |s| && j < |s|
    ensures RotateTimes(s, n)[j] == s[Wrap(j + n, |s|)]
    decreases n
  {
    if n > 0 {
      var s1 := RotateOnce(s);
      RotateTimesIndex(s1, n - 1, j);
      var q := Wrap(j + n - 1, |s|);
      assert s1[q] == if q < |s| - 1 then s[q + 1] else s[0];
    }
  }

  lemma {:induction false} RoundsIndex(fixed: Id, rotation: seq<Id>, half: nat, count: nat, t: nat)
    requires half >= 1 && |rotation| == 2 * half - 1 && t < count
    ensures Rounds(fixed, rotation, half, count)[t] == Round(fixed, RotateTimes(rotation, t), half)
    decreases t
  {
    if t > 0 {
      RoundsIndex(fixed, RotateOnce(rotation), half, count - 1, t - 1);
    }
  }

  /** Round `r` of a padded roster, before byes are skipped. */
  function SlotsOf(list: seq<Id>, r: nat): (s: seq<Pair>)
    requires |list| >= 2 && |list| % 2 == 0 && r < |list| - 1
    ensures |s| == |list| / 2
  {
    Slots(list[0], RotateTimes(list[1..], r), |list| / 2)
  }

  /** Slot `i` of round `r` pairs the roster entries the index formulas name. */
  lemma SlotFormula(list: seq<Id>, r: nat, i: nat)
    requires |list| >= 2 && |list| % 2 == 0 && r < |list| - 1 && i < |list| / 2
    ensures SlotsOf(list, r)[i] == Pair(list[LeftIndex(|list| / 2, r, i)], list[RightIndex(|list| / 2, r, i)])
  {
    var half := |list| / 2;
    var k := 2 * half - 1;
    var rot := RotateTimes(list[1..], r);
    if i > 0 {
      RotateTimesIndex(list[1..], r, i - 1);
    }
    RotateTimesIndex(list[1..], r, k - 1 - i);
    assert Reverse(rot[half - 1..])[i] == rot[k - 1 - i];
  }

  lemma RoundOfRounds(players: seq<Id>, r: nat)
    requires |players| >= 2 && r < |RoundRobinRounds(players)|
    ensures |Padded(players)| >= 2 && r < |Padded(players)| - 1
    ensures RoundRobinRounds(players)[r] == SkipByes(SlotsOf(Padded(players), r))
  {
    var list := Padded(players);
    RoundsIndex(list[0], list[1..], |list| / 2, |list| - 1, r);
  }

  // ---------------------------------------------------------------------------
  // Name-level facts.

  /** A roster without repeated entries pins every name to one index. */
  lemma PaddedDistinct(players: seq<Id>)
    requires Distinct(players) && Bye !in players
    ensures Distinct(Padded(players))
  {
  }

  /** The unfiltered round has every entry at most once. */
  lemma SlotsNoPlayerTwice(list: seq<Id>, r: nat)
    requires |list| >= 2 && |list| % 2 == 0 && r < |list| - 1
    requires Distinct(list)
    ensures NoPlayerTwice(SlotsOf(list, r))
  {
    var half := |list| / 2;
    var s := SlotsOf(list, r);
    forall j | 0 <= j < |s| ensures s[j].home != s[j].away {
      SlotFormula(list, r, j);
      SlotTwoEntries(half, r, j);
    }
    forall j1, j2 | 0 <= j1 < |s| && 0 <= j2 < |s| && j1 != j2 ensures DisjointPairs(s[j1], s[j2]) {
      SlotFormula(list, r, j1);
      SlotFormula(list, r, j2);
      SlotsDisjoint(half, r, j1, j2);
      SlotsDisjoint(half, r, j2, j1);
    }
  }

  lemma {:induction false} SkipByesMember(s: seq<Pair>, p: Pair)
    ensures p in SkipByes(s) <==> p in s && NotBye(p)
    decreases |s|
  {
    if |s| > 0 {
      SkipByesMember(s[1..], p);
      assert s == [s[0]] + s[1..];
    }
  }

  /** Nothing is dropped from a round without `BYE`. */
  lemma {:induction false} SkipByesKeepsAll(s: seq<Pair>)
    requires forall j | 0 <= j < |s| :: NotBye(s[j])
    ensures SkipByes(s) == s
    decreases |s|
  {
    if |s| > 0 {
      SkipByesKeepsAll(s[1..]);
      assert s == [s[0]] + s[1..];
    }
  }

  /** Exactly one pairing is dropped from a round with one `BYE` pairing. */
  lemma {:induction false} SkipByesDropsOne(s: seq<Pair>, k: nat)
    requires k < |s| && !NotBye(s[k])
    requires forall j | 0 <= j < |s| && j != k :: NotBye(s[j])
    ensures |SkipByes(s)| == |s| - 1
    decreases |s|
  {
    if k == 0 {
      SkipByesKeepsAll(s[1..]);
    } else {
      SkipByesDropsOne(s[1..], k - 1);
    }
  }

  lemma NoPlayerTwiceTail(s: seq<Pair>)
    requires |s| > 0 && NoPlayerTwice(s)
    ensures NoPlayerTwice(s[1..])
  {
    forall j1, j2 | 0 <= j1 < |s[1..]| && 0 <= j2 < |s[1..]| && j1 != j2
      ensures DisjointPairs(s[1..][j1], s[1..][j2])
    {
      assert s[1..][j1] == s[j1 + 1] && s[1..][j2] == s[j2 + 1];
    }
  }

  /** A proper pairing that shares nobody with a round can open that round. */
  lemma NoPlayerTwiceCons(p: Pair, rest: seq<Pair>)
    requires NoPlayerTwice(rest) && p.home != p.away
    requires forall j | 0 <= j < |rest| :: DisjointPairs(p, rest[j])
    ensures NoPlayerTwice([p] + rest)
  {
    var r := [p] + rest;
    forall j1, j2 | 0 <= j1 < |r| && 0 <= j2 < |r| && j1 != j2 ensures DisjointPairs(r[j1], r[j2]) {
      if j1 == 0 {
        assert r[j2] == rest[j2 - 1];
      } else if j2 == 0 {
        assert r[j1] == rest[j1 - 1];
      } else {
        assert r[j1] == rest[j1 - 1] && r[j2] == rest[j2 - 1];
      }
    }
    forall j | 0 <= j < |r| ensures r[j].home != r[j].away {
      if j > 0 { assert r[j] == rest[j - 1]; }
    }
  }

  lemma {:induction false} SkipByesNoPlayerTwice(s: seq<Pair>)
    requires NoPlayerTwice(s)
    ensures NoPlayerTwice(SkipByes(s))
    decreases |s|
  {
    if |s| > 0 {
      var rest := SkipByes(s[1..]);
      NoPlayerTwiceTail(s);
      SkipByesNoPlayerTwice(s[1..]);
      if NotBye(s[0]) {
        forall j | 0 <= j < |rest| ensures DisjointPairs(s[0], rest[j]) {
          assert rest[j] in rest;
          SkipByesMember(s[1..], rest[j]);
          var q :| 0 <= q < |s[1..]| && s[1..][q] == rest[j];
          assert s[q + 1] == rest[j];
        }
        NoPlayerTwiceCons(s[0], rest);
        assert SkipByes(s) == [s[0]] + rest;
      } else {
        assert SkipByes(s) == rest;
      }
    }
  }

  lemma SkipByesByeFree(s: seq<Pair>)
    ensures ByeFree(SkipByes(s))
  {
    var f := SkipByes(s);
    forall j | 0 <= j < |f| ensures f[j].home != Bye && f[j].away != Bye {
      assert f[j] in f;
      SkipByesMember(s, f[j]);
    }
  }

  /** Each round of a roster without repeats and without `BYE` as a name has
      every player at most once, never shows `BYE`, and pairs only players of the roster. */
  lemma RoundsWellFormed(players: seq<Id>, r: nat)
    requires Distinct(players) && Bye !in players
    requires r < |RoundRobinRounds(players)|
    ensures NoPlayerTwice(RoundRobinRounds(players)[r])
    ensures ByeFree(RoundRobinRounds(players)[r])
    ensures forall j | 0 <= j < |RoundRobinRounds(players)[r]| ::
              RoundRobinRounds(players)[r][j].home in players && RoundRobinRounds(players)[r][j].away in players
  {
    var list := Padded(players);
    RoundOfRounds(players, r);
    PaddedDistinct(players);
    SlotsNoPlayerTwice(list, r);
    SkipByesNoPlayerTwice(SlotsOf(list, r));
    SkipByesByeFree(SlotsOf(list, r));
    var round := RoundRobinRounds(players)[r];
    forall j | 0 <= j < |round| ensures round[j].home in players && round[j].away in players {
      assert round[j] in round;
      SkipByesMember(SlotsOf(list, r), round[j]);
      var i :| 0 <= i < |SlotsOf(list, r)| && SlotsOf(list, r)[i] == round[j];
      SlotFormula(list, r, i);
    }
  }

  /** Every two different players meet in some round. */
  lemma RoundsCoverEveryPair(players: seq<Id>, x: Id, y: Id) returns (r: nat)
    requires Distinct(players) && Bye !in players
    requires x in players && y in players && x != y
    ensures r < |RoundRobinRounds(players)|
    ensures Meets(RoundRobinRounds(players)[r], x, y)
  {
    var list := Padded(players);
    var half := |list| / 2;
    var ix :| 0 <= ix < |players| && players[ix] == x;
    var iy :| 0 <= iy < |players| && players[iy] == y;
    assert list[ix] == x && list[iy] == y;
    var i;
    if ix < iy {
      r, i := SlotExists(half, ix, iy);
    } else {
      r, i := SlotExists(half, iy, ix);
    }
    SlotFormula(list, r, i);
    RoundOfRounds(players, r);
    var p := SlotsOf(list, r)[i];
    assert SamePairing(p, x, y);
    assert NotBye(p);
    SkipByesMember(SlotsOf(list, r), p);
    assert p in RoundRobinRounds(players)[r];
  }

  /** A pairing in a round is the pairing of some slot. */
  lemma PairingSlot(players: seq<Id>, r: nat, j: nat) returns (i: nat)
    requires |players| >= 2 && r < |RoundRobinRounds(players)| && j < |RoundRobinRounds(players)[r]|
    ensures |Padded(players)| >= 2 && r < |Padded(players)| - 1 && i < |Padded(players)| / 2
    ensures RoundRobinRounds(players)[r][j] == SlotsOf(Padded(players), r)[i]
  {
    RoundOfRounds(players, r);
    var list := Padded(players);
    SkipByesMember(SlotsOf(list, r), RoundRobinRounds(players)[r][j]);
    assert RoundRobinRounds(players)[r][j] in SlotsOf(list, r);
    i :| 0 <= i < |SlotsOf(list, r)| && SlotsOf(list, r)[i] == RoundRobinRounds(players)[r][j];
  }

  /** Two players meet in at most one round. */
  lemma RoundsMeetOnce(players: seq<Id>, x: Id, y: Id, r1: nat, r2: nat)
    requires Distinct(players) && Bye !in players
    requires r1 < |RoundRobinRounds(players)| && r2 < |RoundRobinRounds(players)|
    requires Meets(RoundRobinRounds(players)[r1], x, y) && Meets(RoundRobinRounds(players)[r2], x, y)
    ensures r1 == r2
  {
    var list := Padded(players);
    var half := |list| / 2;
    PaddedDistinct(players);
    var j1 :| 0 <= j1 < |RoundRobinRounds(players)[r1]| && SamePairing(RoundRobinRounds(players)[r1][j1], x, y);
    var j2 :| 0 <= j2 < |RoundRobinRounds(players)[r2]| && SamePairing(RoundRobinRounds(players)[r2][j2], x, y);
    var i1 := PairingSlot(players, r1, j1);
    var i2 := PairingSlot(players, r2, j2);
    SlotFormula(list, r1, i1);
    SlotFormula(list, r2, i2);
    SlotUnique(half, r1, i1, r2, i2);
  }

  // ---------------------------------------------------------------------------
  // Counting.

  /** Every round has `floor(n / 2)` pairings: all of them for an even roster,
      all but the one with `BYE` for an odd one. */
  lemma RoundLength(players: seq<Id>, r: nat)
    requires Bye !in players
    requires r < |RoundRobinRounds(players)|
    ensures |RoundRobinRounds(players)[r]| == |players| / 2
  {
    RoundOfRounds(players, r);
    var list := Padded(players);
    assert forall i | 0 <= i < |players| :: list[i] == players[i];
    SlotsLength(list, |players|, r);
  }

  /** A padded roster whose first `n` entries are real players and whose
      last entry, if any beyond them, is `BYE` yields `floor(n / 2)` pairings a round. */
  lemma SlotsLength(list: seq<Id>, n: nat, r: nat)
    requires |list| >= 2 && |list| % 2 == 0 && r < |list| - 1
    requires n == |list| || n == |list| - 1
    requires forall i | 0 <= i < n :: list[i] != Bye
    requires n < |list| ==> list[n] == Bye
    ensures |SkipByes(SlotsOf(list, r))| == n / 2
  {
    var half := |list| / 2;
    var s := SlotsOf(list, r);
    if n == |list| {
      forall j | 0 <= j < |s| ensures NotBye(s[j]) {
        SlotFormula(list, r, j);
      }
      SkipByesKeepsAll(s);
    } else {
      var k := SlotCovers(half, r, n);
      SlotFormula(list, r, k);
      forall j | 0 <= j < |s| && j != k ensures NotBye(s[j]) {
        SlotFormula(list, r, j);
        SlotsDisjoint(half, r, j, k);
        SlotsDisjoint(half, r, k, j);
        assert LeftIndex(half, r, j) < n && RightIndex(half, r, j) < n;
      }
      SkipByesDropsOne(s, k);
    }
  }

  lemma Choose2Split(n: nat)
    requires n >= 2
    ensures Choose2(n) == (if n % 2 == 0 then n - 1 else n) * (n / 2)
  {
    var m := n / 2;
    var c := if n % 2 == 0 then n - 1 else n;
    assert n * (n - 1) == 2 * (c * m) by {
      if n % 2 == 0 {
        assert n == 2 * m;
        assert n * (n - 1) == (2 * m) * (n - 1);
      } else {
        assert n - 1 == 2 * m;
        assert n * (n - 1) == n * (2 * m);
      }
    }
  }

  /** The schedule holds `n * (n - 1) / 2` pairings in all. */
  lemma RoundsTotal(players: seq<Id>)
    requires Bye !in players
    ensures SumLengths(RoundRobinRounds(players)) == Choose2(|players|)
  {
    var rounds := RoundRobinRounds(players);
    var n := |players|;
    if n >= 2 {
      forall r | 0 <= r < |rounds| ensures |rounds[r]| == n / 2 {
        RoundLength(players, r);
      }
      SumLengthsUniform(rounds, n / 2);
      Choose2Split(n);
    }
  }

  /** Across the whole schedule no unordered pair is played twice. */
  lemma ScheduleNoRepeat(players: seq<Id>)
    requires Distinct(players) && Bye !in players
    ensures NoRepeatedPairing(Flatten(RoundRobinRounds(players)))
  {
    var rounds := RoundRobinRounds(players);
    var all := Flatten(rounds);
    forall j1, j2 | 0 <= j1 < j2 < |all| ensures !SamePairing(all[j2], all[j1].home, all[j1].away) {
      var r1, k1 := FlattenIndex(rounds, j1);
      var r2, k2 := FlattenIndex(rounds, j2);
      if r1 == r2 {
        RoundsWellFormed(players, r1);
        assert DisjointPairs(rounds[r1][k1], rounds[r1][k2]);
      } else if SamePairing(all[j2], all[j1].home, all[j1].away) {
        assert Meets(rounds[r1], all[j1].home, all[j1].away);
        assert Meets(rounds[r2], all[j1].home, all[j1].away);
        RoundsMeetOnce(players, all[j1].home, all[j1].away, r1, r2);
      }
    }
  }
}
