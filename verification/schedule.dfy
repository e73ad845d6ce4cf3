/** Types shared by the tournament scheduling and ranking models. */
module Schedule {
  import opened Seqs

  /** A player identifier (a database cuid in the application). */
  type Id = string

  /** `TournamentMode`: one player per team, or two. */
  datatype TournamentMode = Singles | Doubles

  /** The placeholder the circle method adds to an odd roster. */
  const Bye: Id := "BYE"

  /** One pairing of a round: `[home, away]` in the source. */
  datatype Pair = Pair(home: Id, away: Id)

  /** `ScheduledMatchDefinition`: the two teams and the round-robin iteration. */
  datatype ScheduledMatch = ScheduledMatch(team1: seq<Id>, team2: seq<Id>, iteration: int)

  predicate Plays(p: Pair, x: Id) {
    p.home == x || p.away == x
  }

  /** `p` pairs `x` with `y`, in either orientation. */
  predicate SamePairing(p: Pair, x: Id, y: Id) {
    (p.home == x && p.away == y) || (p.home == y && p.away == x)
  }

  /** Some pairing of `round` puts `x` against `y`. */
  predicate Meets(round: seq<Pair>, x: Id, y: Id) {
    exists j | 0 <= j < |round| :: SamePairing(round[j], x, y)
  }

  /** The two pairings have no player in common. */
  predicate DisjointPairs(p: Pair, q: Pair) {
    p.home != q.home && p.home != q.away && p.away != q.home && p.away != q.away
  }

  /** Nobody plays themselves and nobody plays twice in the round. */
  predicate NoPlayerTwice(round: seq<Pair>) {
    && (forall j | 0 <= j < |round| :: round[j].home != round[j].away)
    && (forall j1, j2 | 0 <= j1 < |round| && 0 <= j2 < |round| && j1 != j2 :: DisjointPairs(round[j1], round[j2]))
  }

  /** Neither side of any pairing is the bye placeholder. */
  predicate ByeFree(round: seq<Pair>) {
    forall j | 0 <= j < |round| :: round[j].home != Bye && round[j].away != Bye
  }

  /** No unordered pairing occurs twice. */
  predicate NoRepeatedPairing(ps: seq<Pair>) {
    forall j1, j2 | 0 <= j1 < j2 < |ps| :: !SamePairing(ps[j2], ps[j1].home, ps[j1].away)
  }

  /** Taking some of the pairings, in any order, keeps them free of repeats. */
  lemma SubMultisetNoRepeat(s: seq<Pair>, t: seq<Pair>)
    requires NoRepeatedPairing(s) && multiset(t) <= multiset(s)
    ensures NoRepeatedPairing(t)
  {
    forall j1, j2 | 0 <= j1 < j2 < |t| ensures !SamePairing(t[j2], t[j1].home, t[j1].away) {
      if t[j1] == t[j2] {
        // Impossible: `s` would hold the same pairing twice.
        MultisetRepeat(t, j1, j2);
        var i1, i2 := RepeatPositions(s, t[j1]);
      } else {
        assert t[j1] in multiset(s) && t[j2] in multiset(s);
        var i1 :| 0 <= i1 < |s| && s[i1] == t[j1];
        var i2 :| 0 <= i2 < |s| && s[i2] == t[j2];
        if i1 < i2 {
          assert !SamePairing(s[i2], s[i1].home, s[i1].away);
        } else {
          assert !SamePairing(s[i1], s[i2].home, s[i2].away);
        }
      }
    }
  }

  /** `ids.filter(Boolean)`: drops the empty string, the only falsy string. */
  function NonEmptyIds(ids: seq<Id>): (r: seq<Id>)
    ensures forall x :: x in r <==> x in ids && x != ""
    ensures multiset(r) <= multiset(ids)
  {
    Filter(ids, (x: Id) => x != "")
  }

  /** `n * (n - 1) / 2`: the number of unordered pairs of `n` players. */
  function Choose2(n: nat): nat {
    n * (n - 1) / 2
  }

  /** `counts[id] ?? 0`. */
  function Count(counts: map<Id, int>, x: Id): int {
    if x in counts then counts[x] else 0
  }

  /** `counts[id] = (counts[id] ?? 0) + 1`. */
  function Bump(counts: map<Id, int>, x: Id): (c: map<Id, int>)
    ensures Count(c, x) == Count(counts, x) + 1
    ensures forall y | y != x :: Count(c, y) == Count(counts, y)
  {
    counts[x := Count(counts, x) + 1]
  }

  /** How often `x` is on either team across `ms`. */
  function Appearances(ms: seq<ScheduledMatch>, x: Id): nat {
    if |ms| == 0 then 0
    else Occurrences(ms[0].team1 + ms[0].team2, x) + Appearances(ms[1..], x)
  }

  lemma {:induction false} AppearancesAppend(a: seq<ScheduledMatch>, b: seq<ScheduledMatch>, x: Id)
    ensures Appearances(a + b, x) == Appearances(a, x) + Appearances(b, x)
    decreases |a|
  {
    if |a| == 0 {
      assert a + b == b;
    } else {
      assert (a + b)[1..] == a[1..] + b;
      AppearancesAppend(a[1..], b, x);
    }
  }
}
