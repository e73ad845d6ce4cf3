/** `generateSinglesPairings` (src/server/tournament-service.ts): a singles
    schedule of at most `limit` matches drawn from the circle-method rounds.
    Whole rounds are taken while they fit; the round that does not fit is
    drawn from greedily, each time picking the pairing whose players have the
    fewest matches so far (by larger count, then by sum, then by the roster
    position of the home player). */
module SinglesPairings {
  import opened Seqs
  import opened Schedule
  import opened StableSort
  import opened RoundRobin

  /** Both players of `p` get one more match. */
  function BumpPair(counts: map<Id, int>, p: Pair): map<Id, int> {
    Bump(Bump(counts, p.home), p.away)
  }

  /** Both players of every pairing of `ps` get one more match. */
  function BumpAll(counts: map<Id, int>, ps: seq<Pair>): map<Id, int>
    decreases |ps|
  {
    if |ps| == 0 then counts else BumpAll(BumpPair(counts, ps[0]), ps[1..])
  }

  lemma {:induction false} BumpAllAppend(counts: map<Id, int>, a: seq<Pair>, b: seq<Pair>)
    ensures BumpAll(counts, a + b) == BumpAll(BumpAll(counts, a), b)
    decreases |a|
  {
    if |a| == 0 {
      assert a + b == b;
    } else {
      assert (a + b)[1..] == a[1..] + b;
      BumpAllAppend(BumpPair(counts, a[0]), a[1..], b);
    }
  }

  /** The counts the schedule starts from: every player of the roster at 0. */
  function Zeros(ids: seq<Id>): (counts: map<Id, int>)
    ensures forall x | x in ids :: Count(counts, x) == 0
  {
    map x | x in ids :: 0
  }

  /** `Array.prototype.indexOf`: the first position of `x`, or -1. */
  function IndexOf(s: seq<Id>, x: Id): (i: int)
    ensures -1 <= i < |s|
    ensures i == -1 <==> x !in s
    ensures 0 <= i ==> s[i] == x && forall k | 0 <= k < i :: s[k] != x
    decreases |s|
  {
    if |s| == 0 then -1
    else if s[0] == x then 0
    else
      var i := IndexOf(s[1..], x);
      if i == -1 then -1 else i + 1
  }

  /** What the comparator of the greedy step looks at, in priority order. */
  datatype PairKey = PairKey(most: int, total: int, homeIndex: int)

  function KeyOf(counts: map<Id, int>, ids: seq<Id>, p: Pair): PairKey {
    PairKey(Max(Count(counts, p.home), Count(counts, p.away)),
            Count(counts, p.home) + Count(counts, p.away),
            IndexOf(ids, p.home))
  }

  /** `compare(a, b) <= 0` for the comparator of the greedy step: it returns
      the first non-zero difference of the three key components. */
  predicate KeyLe(a: PairKey, b: PairKey) {
    || a.most < b.most
    || (a.most == b.most && a.total < b.total)
    || (a.most == b.most && a.total == b.total && a.homeIndex <= b.homeIndex)
  }

  function Fewest(counts: map<Id, int>, ids: seq<Id>): (Pair, Pair) -> bool {
    (a: Pair, b: Pair) => KeyLe(KeyOf(counts, ids, a), KeyOf(counts, ids, b))
  }

  lemma FewestPreorder(counts: map<Id, int>, ids: seq<Id>, s: seq<Pair>)
    ensures PreorderOn(s, Fewest(counts, ids))
  {
  }

  /** `available.sort(compare); available.shift()`: the pairing taken next and
      the ones left. The taken one has the smallest key. */
  function Pick(counts: map<Id, int>, ids: seq<Id>, available: seq<Pair>): (r: (Pair, seq<Pair>))
    requires |available| > 0
    ensures multiset(r.1) + multiset{r.0} == multiset(available)
    ensures |r.1| == |available| - 1
    ensures forall q | q in available :: KeyLe(KeyOf(counts, ids, r.0), KeyOf(counts, ids, q))
  {
    var le := Fewest(counts, ids);
    var sorted := Sort(available, le);
    FewestPreorder(counts, ids, available);
    SortSorted(available, le);
    assert sorted == [sorted[0]] + sorted[1..];
    assert forall q | q in available :: q in multiset(sorted);
    (sorted[0], sorted[1..])
  }

  /** `{ team1: [home], team2: [away], iteration }` for every pairing. */
  function AsSingles(ps: seq<Pair>, iteration: int): (ms: seq<ScheduledMatch>)
    ensures |ms| == |ps|
  {
    seq(|ps|, j requires 0 <= j < |ps| => ScheduledMatch([ps[j].home], [ps[j].away], iteration))
  }

  function Head(s: seq<Id>): Id {
    if |s| > 0 then s[0] else ""
  }

  /** The pairing a singles match stands for. */
  function Played(ms: seq<ScheduledMatch>): (ps: seq<Pair>)
    ensures |ps| == |ms|
  {
    seq(|ms|, j requires 0 <= j < |ms| => Pair(Head(ms[j].team1), Head(ms[j].team2)))
  }

  lemma PlayedAsSingles(ps: seq<Pair>, iteration: int)
    ensures Played(AsSingles(ps, iteration)) == ps
  {
  }

  lemma AsSinglesAppend(a: seq<Pair>, b: seq<Pair>, iteration: int)
    ensures AsSingles(a + b, iteration) == AsSingles(a, iteration) + AsSingles(b, iteration)
  {
  }

  /** `taken` is what the greedy loop draws from `round` starting from
      `counts0`: `history[k]` holds the counts before pick `k`, and pick `k`
      has the smallest key under those counts among the pairings of the round
      not picked before it. */
  ghost predicate GreedyDraw(counts0: map<Id, int>, ids: seq<Id>, round: seq<Pair>, taken: seq<Pair>, history: seq<map<Id, int>>)
  {
    && |history| == |taken| + 1
    && history[0] == counts0
    && (forall k | 0 <= k < |taken| :: history[k + 1] == BumpPair(history[k], taken[k]))
    && (forall k | 0 <= k < |taken| ::
          forall q | q in multiset(round) - multiset(taken[..k]) ::
            KeyLe(KeyOf(history[k], ids, taken[k]), KeyOf(history[k], ids, q)))
  }

  /** One more pick keeps the draw greedy when it has the smallest key among
      the pairings still available. */
  lemma GreedyPush(counts0: map<Id, int>, ids: seq<Id>, round: seq<Pair>, taken: seq<Pair>, history: seq<map<Id, int>>,
                   available: seq<Pair>, p: Pair)
    requires GreedyDraw(counts0, ids, round, taken, history)
    requires multiset(taken) + multiset(available) == multiset(round)
    requires forall q | q in available :: KeyLe(KeyOf(history[|taken|], ids, p), KeyOf(history[|taken|], ids, q))
    ensures GreedyDraw(counts0, ids, round, taken + [p], history + [BumpPair(history[|taken|], p)])
  {
    var taken' := taken + [p];
    var history' := history + [BumpPair(history[|taken|], p)];
    forall k | 0 <= k < |taken'|
      ensures history'[k + 1] == BumpPair(history'[k], taken'[k])
    {
      if k < |taken| {
        assert history'[k + 1] == history[k + 1];
      }
    }
    forall k | 0 <= k < |taken'|
      ensures forall q | q in multiset(round) - multiset(taken'[..k]) ::
                KeyLe(KeyOf(history'[k], ids, taken'[k]), KeyOf(history'[k], ids, q))
    {
      assert taken'[..k] == taken[..k];
      assert history'[k] == history[k];
      if k == |taken| {
        assert taken[..k] == taken;
        assert multiset(round) - multiset(taken) == multiset(available);
      }
    }
  }

  /** The loop state in the middle of the schedule: whole rounds `..full`,
      then `extra` from round `full` once the budget is used up. */
  ghost predicate Progress(rounds: seq<seq<Pair>>, t: nat, full: nat, extra: seq<Pair>, ps: seq<Pair>, maxMatches: int)
  {
    && t <= |rounds| && full <= t
    && ps == Flatten(rounds[..full]) + extra
    && |ps| <= maxMatches
    && ((full == t && extra == [])
        || (full < t && |ps| == maxMatches && multiset(extra) <= multiset(rounds[full]) && |extra| < |rounds[full]|))
  }

  /** What the loop state says about the whole schedule. */
  lemma ProgressOutcome(rounds: seq<seq<Pair>>, t: nat, full: nat, extra: seq<Pair>, ps: seq<Pair>, maxMatches: int)
    requires Progress(rounds, t, full, extra, ps, maxMatches)
    requires maxMatches <= SumLengths(rounds)
    requires t == |rounds| || |ps| >= maxMatches
    ensures |ps| == maxMatches
    ensures multiset(ps) <= multiset(Flatten(rounds))
    ensures maxMatches == SumLengths(rounds) ==> ps == Flatten(rounds)
  {
    var a := Flatten(rounds[..full]);
    var b := Flatten(rounds[full..]);
    assert Flatten(rounds) == a + b && |a + b| == SumLengths(rounds) by {
      assert rounds == rounds[..full] + rounds[full..];
      FlattenAppend(rounds[..full], rounds[full..]);
      FlattenLength(rounds);
    }
    assert multiset(a + b) == multiset(a) + multiset(b);
    if full == t {
      if t == |rounds| {
        assert rounds[..full] == rounds;
      }
    } else {
      assert |b| >= |rounds[full]| && multiset(rounds[full]) <= multiset(b) by {
        var tail := rounds[full..];
        assert tail == [tail[0]] + tail[1..];
        assert b == rounds[full] + Flatten(tail[1..]);
        assert multiset(b) == multiset(rounds[full]) + multiset(Flatten(tail[1..]));
      }
      assert multiset(ps) == multiset(a) + multiset(extra);
    }
  }

  /** The state of the inner loop: `available` is what the round has left
      after `taken`, and `counts` the counts after the picks. */
  ghost predicate Drawing(counts0: map<Id, int>, ids: seq<Id>, round: seq<Pair>, taken: seq<Pair>, available: seq<Pair>,
                          counts: map<Id, int>, history: seq<map<Id, int>>)
  {
    && multiset(taken) + multiset(available) == multiset(round)
    && GreedyDraw(counts0, ids, round, taken, history)
    && counts == history[|taken|]
  }

  lemma DrawStep(counts0: map<Id, int>, ids: seq<Id>, round: seq<Pair>, taken: seq<Pair>, available: seq<Pair>,
                 counts: map<Id, int>, history: seq<map<Id, int>>)
    requires Drawing(counts0, ids, round, taken, available, counts, history)
    requires |available| > 0
    ensures var picked := Pick(counts, ids, available);
            Drawing(counts0, ids, round, taken + [picked.0], picked.1, BumpPair(counts, picked.0),
                    history + [BumpPair(counts, picked.0)])
  {
    var picked := Pick(counts, ids, available);
    GreedyPush(counts0, ids, round, taken, history, available, picked.0);
    assert multiset(taken + [picked.0]) + multiset(picked.1) == multiset(round);
  }

  /** The inner `while` loop over a round that does not fit: `quota` picks,
      each the pairing with the smallest key under the counts so far among
      the pairings of the round not yet picked. */
  method DrawGreedily(counts0: map<Id, int>, ids: seq<Id>, round: seq<Pair>, quota: int)
    returns (taken: seq<Pair>, counts: map<Id, int>, ghost history: seq<map<Id, int>>)
    requires 0 <= quota < |round|
    ensures |taken| == quota
    ensures multiset(taken) <= multiset(round)
    ensures GreedyDraw(counts0, ids, round, taken, history)
    ensures counts == history[quota]
  {
    counts := counts0;
    taken := [];
    history := [counts0];
    var available := round;
    while |taken| < quota && |available| > 0
      invariant |taken| <= quota
      invariant Drawing(counts0, ids, round, taken, available, counts, history)
      decreases |available|
    {
      DrawStep(counts0, ids, round, taken, available, counts, history);
      var picked := Pick(counts, ids, available);
      var selected := picked.0;
      history := history + [BumpPair(counts, selected)];
      available := picked.1;
      taken := taken + [selected];
      counts := BumpPair(counts, selected);
    }
    assert |taken| + |available| == |round| by {
      assert |multiset(taken) + multiset(available)| == |multiset(round)|;
    }
  }

  /** The loop state together with the counts: after whole rounds they are
      the counts of those rounds, and a greedy draw started from them. */
  ghost predicate Scheduled(ids: seq<Id>, rounds: seq<seq<Pair>>, t: nat, full: nat, extra: seq<Pair>, ps: seq<Pair>,
                            counts: map<Id, int>, history: seq<map<Id, int>>, maxMatches: int)
  {
    && Progress(rounds, t, full, extra, ps, maxMatches)
    && (extra == [] ==> counts == BumpAll(Zeros(ids), Flatten(rounds[..full])))
    && (extra != [] ==> GreedyDraw(BumpAll(Zeros(ids), Flatten(rounds[..full])), ids, rounds[full], extra, history))
  }

  lemma EmptyRoundStep(ids: seq<Id>, rounds: seq<seq<Pair>>, t: nat, full: nat, extra: seq<Pair>, ps: seq<Pair>,
                       counts: map<Id, int>, history: seq<map<Id, int>>, maxMatches: int)
    requires Scheduled(ids, rounds, t, full, extra, ps, counts, history, maxMatches)
    requires t < |rounds| && |rounds[t]| == 0 && |ps| < maxMatches
    ensures Scheduled(ids, rounds, t + 1, t + 1, extra, ps, counts, history, maxMatches)
  {
    FlattenPrefixStep(rounds, t);
    assert Flatten(rounds[..t]) + rounds[t] == Flatten(rounds[..t]);
  }

  lemma WholeRoundStep(ids: seq<Id>, rounds: seq<seq<Pair>>, t: nat, full: nat, extra: seq<Pair>, ps: seq<Pair>,
                       counts: map<Id, int>, history: seq<map<Id, int>>, maxMatches: int)
    requires Scheduled(ids, rounds, t, full, extra, ps, counts, history, maxMatches)
    requires t < |rounds| && |ps| < maxMatches && |rounds[t]| <= maxMatches - |ps|
    ensures Scheduled(ids, rounds, t + 1, t + 1, [], ps + rounds[t], BumpAll(counts, rounds[t]), history, maxMatches)
  {
    FlattenPrefixStep(rounds, t);
    BumpAllAppend(Zeros(ids), Flatten(rounds[..t]), rounds[t]);
  }

  lemma GreedyRoundStep(ids: seq<Id>, rounds: seq<seq<Pair>>, t: nat, full: nat, extra: seq<Pair>, ps: seq<Pair>,
                        counts: map<Id, int>, history: seq<map<Id, int>>, maxMatches: int,
                        taken: seq<Pair>, counts': map<Id, int>, history': seq<map<Id, int>>)
    requires Scheduled(ids, rounds, t, full, extra, ps, counts, history, maxMatches)
    requires t < |rounds| && |ps| < maxMatches && |rounds[t]| > maxMatches - |ps|
    requires |taken| == maxMatches - |ps| && multiset(taken) <= multiset(rounds[t])
    requires GreedyDraw(counts, ids, rounds[t], taken, history')
    ensures Scheduled(ids, rounds, t + 1, full, taken, ps + taken, counts', history', maxMatches)
  {
  }

  /** The `for (const round of rounds)` loop with budget `maxMatches`: the
      schedule is the whole rounds `..full` followed by `extra`, a greedy draw
      from round `full`, the first round that did not fit, under the counts
      the whole rounds left. */
  method PairingsFromRounds(ids: seq<Id>, rounds: seq<seq<Pair>>, maxMatches: int)
    returns (pairs: seq<ScheduledMatch>, ghost full: nat, ghost extra: seq<Pair>, ghost history: seq<map<Id, int>>)
    requires 0 <= maxMatches <= SumLengths(rounds)
    ensures pairs == AsSingles(Played(pairs), 1)
    ensures |pairs| == maxMatches
    ensures multiset(Played(pairs)) <= multiset(Flatten(rounds))
    ensures maxMatches == SumLengths(rounds) ==> Played(pairs) == Flatten(rounds)
    ensures full <= |rounds| && Played(pairs) == Flatten(rounds[..full]) + extra
    ensures extra != [] ==> full < |rounds| && |extra| < |rounds[full]| && multiset(extra) <= multiset(rounds[full])
    ensures extra != [] ==> GreedyDraw(BumpAll(Zeros(ids), Flatten(rounds[..full])), ids, rounds[full], extra, history)
  {
    var counts := Zeros(ids);
    pairs := [];
    ghost var ps: seq<Pair> := [];
    full, extra, history := 0, [], [];
    var t := 0;
    while t < |rounds|
      invariant pairs == AsSingles(ps, 1)
      invariant Scheduled(ids, rounds, t, full, extra, ps, counts, history, maxMatches)
    {
      var round := rounds[t];
      if |pairs| >= maxMatches {
        break;
      }
      if |round| == 0 {
        EmptyRoundStep(ids, rounds, t, full, extra, ps, counts, history, maxMatches);
        full := t + 1;
        t := t + 1;
        continue;
      }
      var remaining := maxMatches - |pairs|;
      if |round| <= remaining {
        WholeRoundStep(ids, rounds, t, full, extra, ps, counts, history, maxMatches);
        AsSinglesAppend(ps, round, 1);
        pairs := pairs + AsSingles(round, 1);
        counts := BumpAll(counts, round);
        ps := ps + round;
        full := t + 1;
      } else {
        var taken, counts', history' := DrawGreedily(counts, ids, round, remaining);
        GreedyRoundStep(ids, rounds, t, full, extra, ps, counts, history, maxMatches, taken, counts', history');
        AsSinglesAppend(ps, taken, 1);
        pairs := pairs + AsSingles(taken, 1);
        ps := ps + taken;
        extra, counts, history := taken, counts', history';
      }
      t := t + 1;
    }
    ProgressOutcome(rounds, t, full, extra, ps, maxMatches);
    PlayedAsSingles(ps, 1);
  }

  method GenerateSinglesPairings(ids: seq<Id>, limit: int) returns (pairs: seq<ScheduledMatch>)
    ensures |ids| < 2 || limit <= 0 ==> pairs == []
    ensures |ids| >= 2 && limit > 0 ==> |pairs| == Min(limit, SumLengths(RoundRobinRounds(ids)))
    ensures pairs == AsSingles(Played(pairs), 1)
    ensures multiset(Played(pairs)) <= multiset(Flatten(RoundRobinRounds(ids)))
    ensures limit >= SumLengths(RoundRobinRounds(ids)) ==> Played(pairs) == Flatten(RoundRobinRounds(ids))
    ensures Distinct(ids) && Bye !in ids && |ids| >= 2 && limit > 0 ==> |pairs| == Min(limit, Choose2(|ids|))
    ensures Distinct(ids) && Bye !in ids ==> NoRepeatedPairing(Played(pairs))
    ensures Distinct(ids) && Bye !in ids ==> forall j | 0 <= j < |pairs| :: Played(pairs)[j].home != Played(pairs)[j].away
  {
    if |ids| < 2 || limit <= 0 {
      FlattenLength(RoundRobinRounds(ids));
      return [];
    }
    var rounds := RoundRobinRounds(ids);
    var maxMatches := Min(limit, SumLengths(rounds));
    ghost var full, extra, history;
    pairs, full, extra, history := PairingsFromRounds(ids, rounds, maxMatches);
    if Distinct(ids) && Bye !in ids {
      SinglesPairingsFacts(ids, limit, pairs);
    }
  }

  /** With a roster of different players (none named `BYE`) the schedule has
      `min(limit, n * (n - 1) / 2)` matches, never pits a player against
      themselves, and never repeats a pairing in either orientation. */
  lemma SinglesPairingsFacts(ids: seq<Id>, limit: int, pairs: seq<ScheduledMatch>)
    requires Distinct(ids) && Bye !in ids
    requires |ids| >= 2 && limit > 0
    requires |pairs| == Min(limit, SumLengths(RoundRobinRounds(ids)))
    requires multiset(Played(pairs)) <= multiset(Flatten(RoundRobinRounds(ids)))
    ensures |pairs| == Min(limit, Choose2(|ids|))
    ensures NoRepeatedPairing(Played(pairs))
    ensures forall j | 0 <= j < |pairs| :: Played(pairs)[j].home != Played(pairs)[j].away
  {
    RoundsTotal(ids);
    ScheduleNoRepeat(ids);
    SubMultisetNoRepeat(Flatten(RoundRobinRounds(ids)), Played(pairs));
    var rounds := RoundRobinRounds(ids);
    forall j | 0 <= j < |pairs| ensures Played(pairs)[j].home != Played(pairs)[j].away {
      var p := Played(pairs)[j];
      assert p in multiset(Flatten(rounds));
      var r := FlattenMember(rounds, p);
      var k :| 0 <= k < |rounds[r]| && rounds[r][k] == p;
      RoundsWellFormed(ids, r);
    }
  }
}
