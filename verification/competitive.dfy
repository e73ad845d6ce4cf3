/** `generateCompetitiveSinglesSchedule` and `generateCompetitiveDoublesSchedule`
    (src/server/tournament-service.ts): the round robin played `iterations`
    times over, with home and away swapped on even-numbered iterations. The
    doubles variant first locks teams, pairing the highest-rated remaining
    player with the lowest-rated one. */
module Competitive {
  import opened Outcomes
  import opened Seqs
  import opened Strings
  import opened StableSort
  import opened Schedule
  import opened RoundRobin

  /** `const swapOrder = iteration % 2 === 0` applied to two teams. */
  function Oriented(home: seq<Id>, away: seq<Id>, iteration: int): (m: ScheduledMatch)
    ensures m.iteration == iteration
    ensures iteration % 2 != 0 ==> m.team1 == home && m.team2 == away
    ensures iteration % 2 == 0 ==> m.team1 == away && m.team2 == home
  {
    if iteration % 2 == 0 then ScheduledMatch(away, home, iteration) else ScheduledMatch(home, away, iteration)
  }

  /** The matches one iteration makes from the flattened rounds; `convert`
      turns one pairing into zero or one match. */
  function Block(flat: seq<Pair>, iteration: int, convert: (Pair, int) -> seq<ScheduledMatch>): seq<ScheduledMatch>
    decreases |flat|
  {
    if |flat| == 0 then [] else convert(flat[0], iteration) + Block(flat[1..], iteration, convert)
  }

  /** `for (let iteration = from; iteration < from + count; iteration += 1)`. */
  function Repeat(flat: seq<Pair>, from: int, count: nat, convert: (Pair, int) -> seq<ScheduledMatch>): seq<ScheduledMatch>
    decreases count
  {
    if count == 0 then [] else Block(flat, from, convert) + Repeat(flat, from + 1, count - 1, convert)
  }

  /** `convert` makes exactly one match of each pairing of `flat`. */
  ghost predicate OneEach(flat: seq<Pair>, convert: (Pair, int) -> seq<ScheduledMatch>) {
    forall j, it | 0 <= j < |flat| :: |convert(flat[j], it)| == 1
  }

  lemma {:induction false} BlockOneEach(flat: seq<Pair>, iteration: int, convert: (Pair, int) -> seq<ScheduledMatch>)
    requires OneEach(flat, convert)
    ensures |Block(flat, iteration, convert)| == |flat|
    ensures forall j | 0 <= j < |flat| :: Block(flat, iteration, convert)[j] == convert(flat[j], iteration)[0]
    decreases |flat|
  {
    if |flat| > 0 {
      assert OneEach(flat[1..], convert) by {
        forall j, it | 0 <= j < |flat[1..]| ensures |convert(flat[1..][j], it)| == 1 {
          assert flat[1..][j] == flat[j + 1];
        }
      }
      BlockOneEach(flat[1..], iteration, convert);
      assert |convert(flat[0], iteration)| == 1;
      forall j | 0 <= j < |flat| ensures Block(flat, iteration, convert)[j] == convert(flat[j], iteration)[0] {
        if j > 0 {
          assert flat[1..][j - 1] == flat[j];
        }
      }
    }
  }

  /** Iteration `from + b` occupies positions `b * |flat|` to `(b + 1) * |flat| - 1`, in the order of `flat`. */
  lemma {:induction false} RepeatIndex(flat: seq<Pair>, from: int, count: nat, convert: (Pair, int) -> seq<ScheduledMatch>, b: nat, j: nat)
    requires OneEach(flat, convert)
    requires b < count && j < |flat|
    ensures |Repeat(flat, from, count, convert)| == count * |flat|
    ensures 0 <= b * |flat| + j < count * |flat|
    ensures Repeat(flat, from, count, convert)[b * |flat| + j] == convert(flat[j], from + b)[0]
    decreases count
  {
    BlockOneEach(flat, from, convert);
    var rest := Repeat(flat, from + 1, count - 1, convert);
    if b == 0 {
      RepeatLength(flat, from + 1, count - 1, convert);
      assert count * |flat| == |flat| + (count - 1) * |flat|;
    } else {
      RepeatIndex(flat, from + 1, count - 1, convert, b - 1, j);
      assert b * |flat| + j == |flat| + ((b - 1) * |flat| + j);
      assert count * |flat| == |flat| + (count - 1) * |flat|;
    }
  }

  /** `RepeatIndex` for a pairing known to become the match `m`. */
  lemma RepeatAt(flat: seq<Pair>, from: int, count: nat, convert: (Pair, int) -> seq<ScheduledMatch>, b: nat, j: nat, m: ScheduledMatch)
    requires OneEach(flat, convert)
    requires b < count && j < |flat|
    requires convert(flat[j], from + b) == [m]
    ensures 0 <= b * |flat| + j < |Repeat(flat, from, count, convert)|
    ensures Repeat(flat, from, count, convert)[b * |flat| + j] == m
  {
    RepeatIndex(flat, from, count, convert, b, j);
  }

  lemma {:induction false} RepeatLength(flat: seq<Pair>, from: int, count: nat, convert: (Pair, int) -> seq<ScheduledMatch>)
    requires OneEach(flat, convert)
    ensures |Repeat(flat, from, count, convert)| == count * |flat|
    decreases count
  {
    if count > 0 {
      BlockOneEach(flat, from, convert);
      RepeatLength(flat, from + 1, count - 1, convert);
      assert count * |flat| == |flat| + (count - 1) * |flat|;
    }
  }

  // ---------------------------------------------------------------------------
  // Singles.

  function SinglesMatch(p: Pair, iteration: int): seq<ScheduledMatch> {
    [Oriented([p.home], [p.away], iteration)]
  }

  lemma SinglesOneEach(flat: seq<Pair>)
    ensures OneEach(flat, SinglesMatch)
  {
  }

  /** The pairings of one iteration, in round order. */
  function SinglesFlat(participantIds: seq<Id>): seq<Pair> {
    Flatten(RoundRobinRounds(NonEmptyIds(participantIds)))
  }

  function CompetitiveSingles(participantIds: seq<Id>, iterations: int): (r: seq<ScheduledMatch>)
    ensures forall m | m in r :: 1 <= m.iteration <= iterations
  {
    var ids := NonEmptyIds(participantIds);
    if |ids| < 2 || iterations < 1 then []
    else
      RepeatIterations(SinglesFlat(participantIds), 1, iterations, SinglesMatch);
      Repeat(SinglesFlat(participantIds), 1, iterations, SinglesMatch)
  }

  /** Empty ids are dropped first; with fewer than two left, or no iteration,
      there are no matches, and otherwise one per pairing per iteration. */
  lemma CompetitiveSinglesLength(participantIds: seq<Id>, iterations: int)
    ensures |NonEmptyIds(participantIds)| < 2 || iterations < 1 ==> CompetitiveSingles(participantIds, iterations) == []
    ensures |NonEmptyIds(participantIds)| >= 2 && iterations >= 1 ==>
              |CompetitiveSingles(participantIds, iterations)| == iterations * |SinglesFlat(participantIds)|
  {
    if |NonEmptyIds(participantIds)| >= 2 && iterations >= 1 {
      SinglesOneEach(SinglesFlat(participantIds));
      RepeatLength(SinglesFlat(participantIds), 1, iterations, SinglesMatch);
    }
  }

  /** Iteration `b + 1` plays every pairing once, in round order: home first on
      odd iterations, swapped on even ones. */
  lemma CompetitiveSinglesAt(participantIds: seq<Id>, iterations: int, b: nat, j: nat)
    requires |NonEmptyIds(participantIds)| >= 2
    requires b < iterations && j < |SinglesFlat(participantIds)|
    ensures var flat := SinglesFlat(participantIds);
            var all := CompetitiveSingles(participantIds, iterations);
            var k := b * |flat| + j;
            0 <= k < |all| && all[k] == Oriented([flat[j].home], [flat[j].away], b + 1)
  {
    var flat := SinglesFlat(participantIds);
    assert CompetitiveSingles(participantIds, iterations) == Repeat(flat, 1, iterations, SinglesMatch);
    SinglesRepeatAt(flat, iterations, b, j);
  }

  /** Position `b * |flat| + j` of the repeated singles block is pairing `j` of iteration `b + 1`. */
  lemma SinglesRepeatAt(flat: seq<Pair>, iterations: int, b: nat, j: nat)
    requires b < iterations && j < |flat|
    ensures var all := Repeat(flat, 1, iterations, SinglesMatch);
            var k := b * |flat| + j;
            0 <= k < |all| && all[k] == Oriented([flat[j].home], [flat[j].away], b + 1)
  {
    SinglesOneEach(flat);
    RepeatIndex(flat, 1, iterations, SinglesMatch, b, j);
  }

  /** With distinct ids, none of them `BYE`, the schedule has `iterations * n * (n - 1) / 2`
      matches, each carrying an iteration number between 1 and `iterations`. */
  lemma CompetitiveSinglesCount(participantIds: seq<Id>, iterations: int)
    requires Bye !in participantIds
    requires iterations >= 1 && |NonEmptyIds(participantIds)| >= 2
    ensures |CompetitiveSingles(participantIds, iterations)| == iterations * Choose2(|NonEmptyIds(participantIds)|)
    ensures forall k | 0 <= k < |CompetitiveSingles(participantIds, iterations)| ::
              1 <= CompetitiveSingles(participantIds, iterations)[k].iteration <= iterations
  {
    var ids := NonEmptyIds(participantIds);
    var rounds := RoundRobinRounds(ids);
    RoundsTotal(ids);
    FlattenLength(rounds);
    CompetitiveSinglesLength(participantIds, iterations);
    RepeatIterations(SinglesFlat(participantIds), 1, iterations, SinglesMatch);
  }

  lemma {:induction false} BlockIterations(flat: seq<Pair>, iteration: int, convert: (Pair, int) -> seq<ScheduledMatch>)
    requires forall j, it | 0 <= j < |flat| :: forall m | m in convert(flat[j], it) :: m.iteration == it
    ensures forall m | m in Block(flat, iteration, convert) :: m.iteration == iteration
    decreases |flat|
  {
    if |flat| > 0 {
      assert forall j | 0 <= j < |flat[1..]| :: flat[1..][j] == flat[j + 1];
      BlockIterations(flat[1..], iteration, convert);
    }
  }

  /** Every match of `Repeat` carries one of the iterations it ran. */
  lemma {:induction false} RepeatIterations(flat: seq<Pair>, from: int, count: nat, convert: (Pair, int) -> seq<ScheduledMatch>)
    requires forall j, it | 0 <= j < |flat| :: forall m | m in convert(flat[j], it) :: m.iteration == it
    ensures forall m | m in Repeat(flat, from, count, convert) :: from <= m.iteration < from + count
    decreases count
  {
    if count > 0 {
      BlockIterations(flat, from, convert);
      RepeatIterations(flat, from + 1, count - 1, convert);
    }
  }

  // ---------------------------------------------------------------------------
  // Doubles.

  /** A participant of a doubles draw: `{ id, rating }`. */
  datatype Seeded = Seeded(id: Id, rating: Option<real>)

  /** `participant.rating ?? 1500`. */
  function RatingOf(p: Seeded): real {
    p.rating.OrElse(1500.0)
  }

  /** `compare(a, b) <= 0` for `(a, b) => (b.rating ?? 1500) - (a.rating ?? 1500)`. */
  predicate RatingDesc(a: Seeded, b: Seeded) {
    RatingOf(a) >= RatingOf(b)
  }

  function Ids(s: seq<Seeded>): (r: seq<Id>)
    ensures |r| == |s|
  {
    seq(|s|, i requires 0 <= i < |s| => s[i].id)
  }

  /** `teams.push([sorted[index].id, sorted[sorted.length - 1 - index].id])`. */
  function LockTeams(sorted: seq<Seeded>): (teams: seq<seq<Id>>)
    ensures |teams| == |sorted| / 2
  {
    seq(|sorted| / 2, i requires 0 <= i < |sorted| / 2 => [sorted[i].id, sorted[|sorted| - 1 - i].id])
  }

  /** `` `T${index}` `` for every team. */
  function TeamLabels(count: nat): (labels: seq<Id>)
    ensures |labels| == count
  {
    seq(count, i requires 0 <= i < count => "T" + NatToDecimal(i))
  }

  /** `new Map(labels.map((label, index) => [label, index])).get(x)`: a later
      entry overwrites an earlier one with the same key. */
  function LabelIndex(labels: seq<Id>, x: Id): (r: Option<nat>)
    ensures r.Some? ==> r.value < |labels| && labels[r.value] == x
    ensures r.None? <==> x !in labels
    decreases |labels|
  {
    if |labels| == 0 then None
    else if labels[|labels| - 1] == x then Some(|labels| - 1)
    else
      var r := LabelIndex(labels[..|labels| - 1], x);
      assert x in labels[..|labels| - 1] ==> x in labels;
      assert x in labels && labels[|labels| - 1] != x ==> x in labels[..|labels| - 1];
      r
  }

  /** The body of the inner loop of the doubles schedule for one pairing of labels. */
  function DoublesMatch(teams: seq<seq<Id>>, p: Pair, iteration: int): seq<ScheduledMatch> {
    var labels := TeamLabels(|teams|);
    if p.home == Bye || p.away == Bye then []
    else
      match (LabelIndex(labels, p.home), LabelIndex(labels, p.away))
      case (Some(h), Some(a)) => [Oriented(teams[h], teams[a], iteration)]
      case _ => []
  }

  /** `DoublesMatch` for a fixed list of teams. */
  function DoublesConvert(teams: seq<seq<Id>>): (Pair, int) -> seq<ScheduledMatch> {
    (p: Pair, it: int) => DoublesMatch(teams, p, it)
  }

  const OddDoublesMessage: string := "Competitive doubles scheduling requires an even number of participants."

  /** `participants.filter((participant) => Boolean(participant.id))`. */
  function WithIds(participants: seq<Seeded>): (list: seq<Seeded>)
    ensures forall p :: p in list <==> p in participants && p.id != ""
    ensures multiset(list) <= multiset(participants)
  {
    Filter(participants, (p: Seeded) => p.id != "")
  }

  /** The teams of a doubles draw: highest-rated with lowest-rated, and so on inwards. */
  function DoublesTeams(list: seq<Seeded>): seq<seq<Id>> {
    LockTeams(Sort(list, RatingDesc))
  }

  /** Refused exactly when four or more participants with an id come in an
      odd number and there is at least one iteration. */
  function CompetitiveDoubles(participants: seq<Seeded>, iterations: int): (r: Result<seq<ScheduledMatch>, string>)
    ensures r.Err? <==> |WithIds(participants)| >= 4 && iterations >= 1 && |WithIds(participants)| % 2 != 0
    ensures r.Err? ==> r.error == OddDoublesMessage
  {
    var list := WithIds(participants);
    if |list| < 4 || iterations < 1 then Ok([])
    else if |list| % 2 != 0 then Err(OddDoublesMessage)
    else
      var teams := DoublesTeams(list);
      var rounds := RoundRobinRounds(TeamLabels(|teams|));
      Ok(Repeat(Flatten(rounds), 1, iterations, DoublesConvert(teams)))
  }

  // Facts about the doubles draw.

  lemma TeamLabelsDistinct(count: nat)
    ensures Distinct(TeamLabels(count))
    ensures Bye !in TeamLabels(count)
  {
    var labels := TeamLabels(count);
    forall i, j | 0 <= i < j < count ensures labels[i] != labels[j] {
      if labels[i] == labels[j] {
        assert NatToDecimal(i) == labels[i][1..] && NatToDecimal(j) == labels[j][1..];
        NatToDecimalInjective(i, j);
      }
    }
    forall i | 0 <= i < count ensures labels[i] != Bye {
      assert labels[i][0] == 'T' && Bye[0] == 'B';
    }
  }

  lemma LockTeamsPeel(s: seq<Seeded>)
    requires |s| >= 2
    ensures Flatten(LockTeams(s)) == [s[0].id, s[|s| - 1].id] + Flatten(LockTeams(s[1..|s| - 1]))
  {
    var teams := LockTeams(s);
    assert teams[1..] == LockTeams(s[1..|s| - 1]);
    assert Flatten(teams) == teams[0] + Flatten(teams[1..]);
  }

  lemma IdsPeel(s: seq<Seeded>)
    requires |s| >= 2
    ensures multiset(Ids(s)) == multiset{s[0].id, s[|s| - 1].id} + multiset(Ids(s[1..|s| - 1]))
  {
    assert Ids(s) == [s[0].id] + Ids(s[1..|s| - 1]) + [s[|s| - 1].id];
  }

  /** Every participant is on exactly one team: the team members, read in
      order, are a permutation of the participants. */
  lemma {:induction false} LockTeamsCover(s: seq<Seeded>, k: nat)
    requires |s| == 2 * k
    ensures multiset(Flatten(LockTeams(s))) == multiset(Ids(s))
    decreases |s|
  {
    if |s| >= 2 {
      var mid := s[1..|s| - 1];
      var inner := Flatten(LockTeams(mid));
      LockTeamsPeel(s);
      IdsPeel(s);
      LockTeamsCover(mid, k - 1);
      assert multiset([s[0].id, s[|s| - 1].id] + inner) == multiset{s[0].id, s[|s| - 1].id} + multiset(inner);
    } else {
      assert LockTeams(s) == [];
    }
  }

  lemma RatingDescPreorder(s: seq<Seeded>)
    ensures PreorderOn(s, RatingDesc)
  {
  }

  lemma IdsRemove(b: seq<Seeded>, i: nat)
    requires i < |b|
    ensures multiset(Ids(b)) == multiset(Ids(b[..i] + b[i + 1..])) + multiset{b[i].id}
  {
    assert Ids(b) == Ids(b[..i]) + [b[i].id] + Ids(b[i + 1..]);
    assert Ids(b[..i] + b[i + 1..]) == Ids(b[..i]) + Ids(b[i + 1..]);
  }

  lemma IdsPermutationStep(a: seq<Seeded>, b: seq<Seeded>, i: nat)
    requires |a| > 0 && i < |b| && b[i] == a[0]
    requires multiset(Ids(a[1..])) == multiset(Ids(b[..i] + b[i + 1..]))
    ensures multiset(Ids(a)) == multiset(Ids(b))
  {
    assert multiset(Ids(a)) == multiset(Ids(a[1..])) + multiset{a[0].id} by {
      assert Ids(a) == [a[0].id] + Ids(a[1..]);
    }
    assert multiset(Ids(b)) == multiset(Ids(b[..i] + b[i + 1..])) + multiset{a[0].id} by {
      IdsRemove(b, i);
    }
  }

  /** Reordering the participants does not change which ids are present. */
  lemma {:induction false} IdsPermutation(a: seq<Seeded>, b: seq<Seeded>)
    requires multiset(a) == multiset(b)
    ensures multiset(Ids(a)) == multiset(Ids(b))
    decreases |a|
  {
    if |a| > 0 {
      assert a[0] in multiset(b);
      var i :| 0 <= i < |b| && b[i] == a[0];
      RemoveSame(a, b, i);
      IdsPermutation(a[1..], b[..i] + b[i + 1..]);
      IdsPermutationStep(a, b, i);
    } else {
      assert |b| == |multiset(b)| == 0;
    }
  }

  /** The draw sorts by rating, highest first, and pairs position `i` with
      position `n - 1 - i`, so each team has a higher- and a lower-rated
      player. */
  lemma DoublesTeamsRanked(list: seq<Seeded>)
    ensures Sorted(Sort(list, RatingDesc), RatingDesc)
    ensures forall i | 0 <= i < |list| / 2 ::
              var sorted := Sort(list, RatingDesc);
              && DoublesTeams(list)[i] == [sorted[i].id, sorted[|list| - 1 - i].id]
              && RatingOf(sorted[i]) >= RatingOf(sorted[|list| - 1 - i])
  {
    RatingDescPreorder(list);
    SortSorted(list, RatingDesc);
    LockTeamsRanked(Sort(list, RatingDesc));
  }

  /** Participants with the same rating keep their input order in the draw's
      sorted list, since `Array.prototype.sort` is stable. */
  lemma DoublesSortStable(list: seq<Seeded>, k: Seeded)
    requires k in list
    ensures Ties(Sort(list, RatingDesc), k, RatingDesc) == Ties(list, k, RatingDesc)
    ensures forall i | 0 <= i < |Ties(list, k, RatingDesc)| :: RatingOf(Ties(list, k, RatingDesc)[i]) == RatingOf(k)
  {
    RatingDescPreorder(list);
    SortStable(list, k, RatingDesc);
  }

  /** Locking the teams of a rating-sorted list puts the higher-rated player first. */
  lemma LockTeamsRanked(sorted: seq<Seeded>)
    requires Sorted(sorted, RatingDesc)
    ensures forall i | 0 <= i < |sorted| / 2 ::
              && LockTeams(sorted)[i] == [sorted[i].id, sorted[|sorted| - 1 - i].id]
              && RatingOf(sorted[i]) >= RatingOf(sorted[|sorted| - 1 - i])
  {
    forall i | 0 <= i < |sorted| / 2
      ensures RatingOf(sorted[i]) >= RatingOf(sorted[|sorted| - 1 - i])
    {
      assert RatingDesc(sorted[i], sorted[|sorted| - 1 - i]);
    }
  }

  /** With an even roster every participant is on exactly one team. */
  lemma DoublesTeamsCover(list: seq<Seeded>)
    requires |list| % 2 == 0
    ensures multiset(Flatten(DoublesTeams(list))) == multiset(Ids(list))
  {
    var sorted := Sort(list, RatingDesc);
    var k := |list| / 2;
    assert |sorted| == 2 * k;
    LockTeamsCover(sorted, k);
    IdsPermutation(sorted, list);
  }


  /** Under distinct, non-`BYE` labels every pairing of the label round robin
      turns into exactly one match. */
  lemma DoublesOneEach(teams: seq<seq<Id>>)
    ensures OneEach(Flatten(RoundRobinRounds(TeamLabels(|teams|))), DoublesConvert(teams))
  {
    var labels := TeamLabels(|teams|);
    var rounds := RoundRobinRounds(labels);
    var flat := Flatten(rounds);
    TeamLabelsDistinct(|teams|);
    forall j, it | 0 <= j < |flat| ensures |DoublesMatch(teams, flat[j], it)| == 1 {
      var r, k := FlattenIndex(rounds, j);
      RoundsWellFormed(labels, r);
    }
  }

  /** Fewer than four participants with an id, or no iteration, gives no
      matches; an odd count of four or more is refused; otherwise there are
      `iterations * t * (t - 1) / 2` matches for `t` teams. */
  lemma CompetitiveDoublesOutcome(participants: seq<Seeded>, iterations: int)
    ensures var list := WithIds(participants);
            |list| < 4 || iterations < 1 ==> CompetitiveDoubles(participants, iterations) == Ok([])
    ensures var list := WithIds(participants);
            |list| >= 4 && iterations >= 1 && |list| % 2 != 0 ==> CompetitiveDoubles(participants, iterations) == Err(OddDoublesMessage)
    ensures var list := WithIds(participants);
            |list| >= 4 && iterations >= 1 && |list| % 2 == 0 ==>
              && CompetitiveDoubles(participants, iterations).Ok?
              && |CompetitiveDoubles(participants, iterations).value| == iterations * Choose2(|list| / 2)
  {
    var list := WithIds(participants);
    if |list| >= 4 && iterations >= 1 && |list| % 2 == 0 {
      var teams := DoublesTeams(list);
      var labels := TeamLabels(|teams|);
      var rounds := RoundRobinRounds(labels);
      var convert := DoublesConvert(teams);
      DoublesOneEach(teams);
      RepeatLength(Flatten(rounds), 1, iterations, convert);
      TeamLabelsDistinct(|teams|);
      RoundsTotal(labels);
      FlattenLength(rounds);
    }
  }

  /** The label pairings of one iteration of the doubles schedule, in round order. */
  function DoublesFlat(participants: seq<Seeded>): seq<Pair> {
    Flatten(RoundRobinRounds(TeamLabels(|DoublesTeams(WithIds(participants))|)))
  }

  /** A pairing of the label round robin stands for two different teams: the
      labels at positions `h` and `a`. */
  lemma DoublesPairingTeams(count: nat, j: nat) returns (h: nat, a: nat)
    requires j < |Flatten(RoundRobinRounds(TeamLabels(count)))|
    ensures var p := Flatten(RoundRobinRounds(TeamLabels(count)))[j];
            && h < count && a < count && h != a
            && p.home != Bye && p.away != Bye
            && TeamLabels(count)[h] == p.home && TeamLabels(count)[a] == p.away
            && LabelIndex(TeamLabels(count), p.home) == Some(h)
            && LabelIndex(TeamLabels(count), p.away) == Some(a)
  {
    var labels := TeamLabels(count);
    var rounds := RoundRobinRounds(labels);
    TeamLabelsDistinct(count);
    var r, k := FlattenIndex(rounds, j);
    RoundsWellFormed(labels, r);
    var p := Flatten(rounds)[j];
    h := LabelIndex(labels, p.home).value;
    a := LabelIndex(labels, p.away).value;
  }

  /** Iteration `b + 1` plays every pairing of team labels once, in round
      order, between the teams the labels name: home first on odd iterations,
      swapped on even ones. */
  lemma CompetitiveDoublesAt(participants: seq<Seeded>, iterations: int, b: nat, j: nat) returns (h: nat, a: nat)
    requires |WithIds(participants)| >= 4 && |WithIds(participants)| % 2 == 0
    requires b < iterations && j < |DoublesFlat(participants)|
    ensures var teams := DoublesTeams(WithIds(participants));
            var flat := DoublesFlat(participants);
            var outcome := CompetitiveDoubles(participants, iterations);
            var k := b * |flat| + j;
            && outcome.Ok? && 0 <= k < |outcome.value|
            && h < |teams| && a < |teams| && h != a
            && TeamLabels(|teams|)[h] == flat[j].home && TeamLabels(|teams|)[a] == flat[j].away
            && outcome.value[k] == Oriented(teams[h], teams[a], b + 1)
  {
    var teams := DoublesTeams(WithIds(participants));
    DoublesSchedule(participants, iterations);
    h, a := DoublesPairingTeams(|teams|, j);
    DoublesRepeatAt(teams, iterations, b, j, h, a);
  }

  /** An even roster of four or more with at least one iteration repeats the
      label round robin between the locked teams. */
  lemma DoublesSchedule(participants: seq<Seeded>, iterations: int)
    requires |WithIds(participants)| >= 4 && |WithIds(participants)| % 2 == 0 && iterations >= 1
    ensures CompetitiveDoubles(participants, iterations)
         == Ok(Repeat(DoublesFlat(participants), 1, iterations, DoublesConvert(DoublesTeams(WithIds(participants)))))
  {
  }

  /** Position `b * |flat| + j` of the repeated doubles block is label pairing
      `j` of iteration `b + 1`, played between the teams the labels name. */
  lemma DoublesRepeatAt(teams: seq<seq<Id>>, iterations: int, b: nat, j: nat, h: nat, a: nat)
    requires b < iterations && j < |Flatten(RoundRobinRounds(TeamLabels(|teams|)))|
    requires var p := Flatten(RoundRobinRounds(TeamLabels(|teams|)))[j];
             && p.home != Bye && p.away != Bye
             && LabelIndex(TeamLabels(|teams|), p.home) == Some(h)
             && LabelIndex(TeamLabels(|teams|), p.away) == Some(a)
    ensures h < |teams| && a < |teams|
    ensures var flat := Flatten(RoundRobinRounds(TeamLabels(|teams|)));
            var all := Repeat(flat, 1, iterations, DoublesConvert(teams));
            0 <= b * |flat| + j < |all| && all[b * |flat| + j] == Oriented(teams[h], teams[a], b + 1)
  {
    var flat := Flatten(RoundRobinRounds(TeamLabels(|teams|)));
    var m := Oriented(teams[h], teams[a], b + 1);
    assert DoublesConvert(teams)(flat[j], b + 1) == [m] by {
      DoublesMatchOf(teams, flat[j], b + 1, h, a);
    }
    assert OneEach(flat, DoublesConvert(teams)) by {
      DoublesOneEach(teams);
    }
    RepeatAt(flat, 1, iterations, DoublesConvert(teams), b, j, m);
  }

  /** A pairing of two team labels becomes one match between those teams. */
  lemma DoublesMatchOf(teams: seq<seq<Id>>, p: Pair, iteration: int, h: nat, a: nat)
    requires p.home != Bye && p.away != Bye
    requires LabelIndex(TeamLabels(|teams|), p.home) == Some(h)
    requires LabelIndex(TeamLabels(|teams|), p.away) == Some(a)
    ensures h < |teams| && a < |teams|
    ensures DoublesMatch(teams, p, iteration) == [Oriented(teams[h], teams[a], iteration)]
  {
  }

  /** Every match of the doubles schedule carries an iteration number between
      1 and `iterations`. */
  lemma CompetitiveDoublesIterations(participants: seq<Seeded>, iterations: int)
    requires CompetitiveDoubles(participants, iterations).Ok?
    ensures forall k | 0 <= k < |CompetitiveDoubles(participants, iterations).value| ::
              1 <= CompetitiveDoubles(participants, iterations).value[k].iteration <= iterations
  {
    var list := WithIds(participants);
    if |list| >= 4 && iterations >= 1 {
      assert |list| % 2 == 0;
      DoublesSchedule(participants, iterations);
      DoublesRepeatIterations(DoublesTeams(list), DoublesFlat(participants), iterations);
    }
  }

  lemma DoublesRepeatIterations(teams: seq<seq<Id>>, flat: seq<Pair>, iterations: nat)
    ensures forall m | m in Repeat(flat, 1, iterations, DoublesConvert(teams)) :: 1 <= m.iteration <= iterations
  {
    var convert := DoublesConvert(teams);
    forall j, it | 0 <= j < |flat| ensures forall m | m in convert(flat[j], it) :: m.iteration == it {
    }
    RepeatIterations(flat, 1, iterations, convert);
  }
}
