/** `canonicalTeamKey` and `calculatePlacementsForGroup`: the standings of one
    group. Every team met in the group gets an entry keyed by its sorted ids;
    played matches with a result credit both teams; the entries are ordered by
    wins, point differential, points scored and team key, and given competition
    ranks (tied signatures share the rank of the first of them). */
module Placements {
  import opened Outcomes
  import opened Seqs
  import opened Strings
  import opened StableSort
  import opened Schedule

  datatype MatchStatus = Scheduled | Played | Cancelled

  datatype Score = Score(team1Score: int, team2Score: int)

  /** The fields of a stored tournament matchup that the standings read. */
  datatype Matchup = Matchup(team1Ids: seq<Id>, team2Ids: seq<Id>, status: MatchStatus, resultMatch: Option<Score>)

  // Team keys.

  /** `[...ids].sort()`: the ids in code-unit order. */
  function SortedIds(ids: seq<Id>): seq<Id> {
    Sort(ids, StrLe)
  }

  lemma SortedIdsSorted(ids: seq<Id>)
    ensures multiset(SortedIds(ids)) == multiset(ids)
    ensures Sorted(SortedIds(ids), StrLe)
  {
    StrLeTotalOrder();
    SortSorted(ids, StrLe);
  }

  function CanonicalTeamKey(ids: seq<Id>): string {
    Join("|", SortedIds(ids))
  }

  /** The key names the team, not the order its ids were listed in. */
  lemma CanonicalTeamKeyOrderFree(a: seq<Id>, b: seq<Id>)
    requires multiset(a) == multiset(b)
    ensures SortedIds(a) == SortedIds(b)
    ensures CanonicalTeamKey(a) == CanonicalTeamKey(b)
  {
    SortedIdsSorted(a);
    SortedIdsSorted(b);
    StrLeTotalOrder();
    SortedPermutationUnique(SortedIds(a), SortedIds(b), StrLe);
  }

  // Accumulation.

  /** The counters `PlacementAccumulator` keeps for one team. */
  datatype Line = Line(wins: int, losses: int, played: int, pointsFor: int, pointsAgainst: int)

  const Blank := Line(0, 0, 0, 0, 0)

  function Plus(a: Line, b: Line): Line {
    Line(a.wins + b.wins, a.losses + b.losses, a.played + b.played,
         a.pointsFor + b.pointsFor, a.pointsAgainst + b.pointsAgainst)
  }

  lemma PlusAssociative(a: Line, b: Line, c: Line)
    ensures Plus(Plus(a, b), c) == Plus(a, Plus(b, c))
  {
  }

  lemma PlusBlank(a: Line)
    ensures Plus(a, Blank) == a
  {
  }

  lemma PlusSwap(a: Line, b: Line, c: Line)
    ensures Plus(Plus(a, b), c) == Plus(Plus(a, c), b)
  {
  }

  /** What one played match adds to a team that scored `mine` against `theirs`:
      a draw is neither a win nor a loss. */
  function Side(mine: int, theirs: int): Line {
    Line(if mine > theirs then 1 else 0, if theirs > mine then 1 else 0, 1, mine, theirs)
  }

  /** One entry of the `stats` map, in insertion order. */
  datatype Entry = Entry(key: string, teamIds: seq<Id>, line: Line)

  function Keys(stats: seq<Entry>): (r: seq<string>)
    ensures |r| == |stats|
    ensures forall i | 0 <= i < |stats| :: r[i] == stats[i].key
  {
    seq(|stats|, i requires 0 <= i < |stats| => stats[i].key)
  }

  /** The keys of the map, as a set. */
  function KeySet(stats: seq<Entry>): set<string> {
    set k | k in Keys(stats)
  }

  /** The map's invariant: one entry per key. */
  predicate WellKeyed(stats: seq<Entry>) {
    Distinct(Keys(stats))
  }

  /** Each entry is keyed by its own team. */
  predicate Labelled(stats: seq<Entry>) {
    forall i | 0 <= i < |stats| :: stats[i].key == Join("|", stats[i].teamIds)
  }

  /** How teams are keyed. The accumulation is stated for any key function, and
      the standings use `CanonicalTeamKey`. */
  type KeyFn = seq<Id> -> string

  /** `keyOf` joins the sorted ids, as `CanonicalTeamKey` does. */
  ghost predicate JoinsTeams(keyOf: KeyFn) {
    forall ids :: keyOf(ids) == Join("|", SortedIds(ids))
  }

  lemma CanonicalJoinsTeams()
    ensures JoinsTeams(CanonicalTeamKey)
  {
  }

  /** `ensure(ids)`: a team not seen before gets zeroed counters at the end. */
  function Ensure(stats: seq<Entry>, ids: seq<Id>, keyOf: KeyFn): (r: seq<Entry>)
    ensures stats <= r
    ensures KeySet(r) == KeySet(stats) + {keyOf(ids)}
    ensures forall i | |stats| <= i < |r| ::
              r[i].line == Blank && r[i].key == keyOf(ids) && r[i].key !in KeySet(stats)
    ensures WellKeyed(stats) ==> WellKeyed(r)
    ensures JoinsTeams(keyOf) && Labelled(stats) ==> Labelled(r)
  {
    var key := keyOf(ids);
    if key in Keys(stats) then stats
    else
      var r := stats + [Entry(key, SortedIds(ids), Blank)];
      assert Keys(r) == Keys(stats) + [key];
      r
  }

  /** Adds `d` to the counters of the entry keyed `key`. */
  function Credit(stats: seq<Entry>, key: string, d: Line): (r: seq<Entry>)
    ensures |r| == |stats| && Keys(r) == Keys(stats)
    ensures forall i | 0 <= i < |stats| ::
              r[i] == if stats[i].key == key then stats[i].(line := Plus(stats[i].line, d)) else stats[i]
    ensures WellKeyed(stats) ==> WellKeyed(r)
    ensures Labelled(stats) ==> Labelled(r)
  {
    seq(|stats|, i requires 0 <= i < |stats| =>
      if stats[i].key == key then stats[i].(line := Plus(stats[i].line, d)) else stats[i])
  }

  /** The match has a recorded result and counts towards the standings. */
  predicate Counted(m: Matchup) {
    m.status == Played && m.resultMatch.Some?
  }

  /** The credits of a counted match, to entries that already exist. */
  function Apply(s: seq<Entry>, m: Matchup, keyOf: KeyFn): seq<Entry> {
    if !Counted(m) then s
    else
      var score := m.resultMatch.value;
      var s1 := Credit(s, keyOf(m.team1Ids), Side(score.team1Score, score.team2Score));
      Credit(s1, keyOf(m.team2Ids), Side(score.team2Score, score.team1Score))
  }

  /** One step of `matchups.forEach`: both teams are ensured, then a counted
      match credits each side (twice over when both sides are the same team). */
  function Record(stats: seq<Entry>, m: Matchup, keyOf: KeyFn): seq<Entry> {
    Apply(Ensure(Ensure(stats, m.team1Ids, keyOf), m.team2Ids, keyOf), m, keyOf)
  }

  function RecordAll(stats: seq<Entry>, ms: seq<Matchup>, keyOf: KeyFn): seq<Entry>
    decreases |ms|
  {
    if |ms| == 0 then stats else Record(RecordAll(stats, ms[..|ms| - 1], keyOf), ms[|ms| - 1], keyOf)
  }

  /** `participants.forEach((p) => ensure([p.userId]))`. */
  function EnsureAll(stats: seq<Entry>, userIds: seq<Id>, keyOf: KeyFn): seq<Entry>
    decreases |userIds|
  {
    if |userIds| == 0 then stats
    else Ensure(EnsureAll(stats, userIds[..|userIds| - 1], keyOf), [userIds[|userIds| - 1]], keyOf)
  }

  /** The entries before the matchups are read: every participant in singles, none in doubles. */
  function Seed(mode: TournamentMode, userIds: seq<Id>, keyOf: KeyFn): seq<Entry> {
    if mode == Singles then EnsureAll([], userIds, keyOf) else []
  }

  /** The `stats` map once every matchup is recorded. */
  function Tallies(mode: TournamentMode, userIds: seq<Id>, matchups: seq<Matchup>, keyOf: KeyFn): seq<Entry> {
    RecordAll(Seed(mode, userIds, keyOf), matchups, keyOf)
  }

  // The reference: the teams met, and a team's counters as a sum over the matches.

  predicate Involves(m: Matchup, key: string, keyOf: KeyFn) {
    key == keyOf(m.team1Ids) || key == keyOf(m.team2Ids)
  }

  /** The keys of both sides of every matchup. */
  function TeamKeys(ms: seq<Matchup>, keyOf: KeyFn): set<string>
    decreases |ms|
  {
    if |ms| == 0 then {}
    else
      var m := ms[|ms| - 1];
      TeamKeys(ms[..|ms| - 1], keyOf) + {keyOf(m.team1Ids), keyOf(m.team2Ids)}
  }

  /** The keys of the one-player teams of the participants. */
  function UserKeys(userIds: seq<Id>, keyOf: KeyFn): set<string>
    decreases |userIds|
  {
    if |userIds| == 0 then {}
    else UserKeys(userIds[..|userIds| - 1], keyOf) + {keyOf([userIds[|userIds| - 1]])}
  }

  lemma {:induction false} TeamKeysMeaning(ms: seq<Matchup>, key: string, keyOf: KeyFn)
    ensures key in TeamKeys(ms, keyOf) <==> exists m | m in ms :: Involves(m, key, keyOf)
    decreases |ms|
  {
    if |ms| > 0 {
      var prefix, m := ms[..|ms| - 1], ms[|ms| - 1];
      TeamKeysMeaning(prefix, key, keyOf);
      assert TeamKeys(ms, keyOf) == TeamKeys(prefix, keyOf) + {keyOf(m.team1Ids), keyOf(m.team2Ids)};
      if exists n | n in ms :: Involves(n, key, keyOf) {
        var n :| n in ms && Involves(n, key, keyOf);
        var j :| 0 <= j < |ms| && ms[j] == n;
        if j < |prefix| {
          assert prefix[j] == n;
        }
      }
      if exists n | n in prefix :: Involves(n, key, keyOf) {
        var n :| n in prefix && Involves(n, key, keyOf);
        assert n in ms;
      }
      if Involves(m, key, keyOf) {
        assert m in ms;
      }
    }
  }

  lemma {:induction false} UserKeysMeaning(userIds: seq<Id>, key: string, keyOf: KeyFn)
    ensures key in UserKeys(userIds, keyOf) <==> exists p | p in userIds :: key == keyOf([p])
    decreases |userIds|
  {
    if |userIds| > 0 {
      var prefix, p := userIds[..|userIds| - 1], userIds[|userIds| - 1];
      UserKeysMeaning(prefix, key, keyOf);
      if exists q | q in userIds :: key == keyOf([q]) {
        var q :| q in userIds && key == keyOf([q]);
        var j :| 0 <= j < |userIds| && userIds[j] == q;
        if j < |prefix| {
          assert prefix[j] == q;
        }
      }
      if exists q | q in prefix :: key == keyOf([q]) {
        var q :| q in prefix && key == keyOf([q]);
        assert q in userIds;
      }
    }
  }

  /** What match `m` is worth to the team keyed `key`. */
  function Contribution(m: Matchup, key: string, keyOf: KeyFn): Line {
    if !Counted(m) then Blank
    else
      var score := m.resultMatch.value;
      Plus(if key == keyOf(m.team1Ids) then Side(score.team1Score, score.team2Score) else Blank,
           if key == keyOf(m.team2Ids) then Side(score.team2Score, score.team1Score) else Blank)
  }

  function Total(ms: seq<Matchup>, key: string, keyOf: KeyFn): Line
    decreases |ms|
  {
    if |ms| == 0 then Blank else Plus(Total(ms[..|ms| - 1], key, keyOf), Contribution(ms[|ms| - 1], key, keyOf))
  }

  lemma ContributionUninvolved(m: Matchup, key: string, keyOf: KeyFn)
    requires !Involves(m, key, keyOf)
    ensures Contribution(m, key, keyOf) == Blank
  {
  }

  lemma {:induction false} TotalUninvolved(ms: seq<Matchup>, key: string, keyOf: KeyFn)
    requires key !in TeamKeys(ms, keyOf)
    ensures Total(ms, key, keyOf) == Blank
    decreases |ms|
  {
    if |ms| > 0 {
      var prefix, m := ms[..|ms| - 1], ms[|ms| - 1];
      assert TeamKeys(ms, keyOf) == TeamKeys(prefix, keyOf) + {keyOf(m.team1Ids), keyOf(m.team2Ids)};
      TotalUninvolved(prefix, key, keyOf);
      ContributionUninvolved(m, key, keyOf);
    }
  }

  // Accumulation agrees with the reference.

  /** Every entry of `stats` holds the counters the matches `ms` add up to. */
  predicate Summed(stats: seq<Entry>, ms: seq<Matchup>, keyOf: KeyFn) {
    forall i | 0 <= i < |stats| :: stats[i].line == Total(ms, stats[i].key, keyOf)
  }

  lemma EnsureSummed(stats: seq<Entry>, ms: seq<Matchup>, ids: seq<Id>, keyOf: KeyFn)
    requires Summed(stats, ms, keyOf) && TeamKeys(ms, keyOf) <= KeySet(stats)
    ensures Summed(Ensure(stats, ids, keyOf), ms, keyOf)
  {
    var r := Ensure(stats, ids, keyOf);
    forall i | |stats| <= i < |r| ensures r[i].line == Total(ms, r[i].key, keyOf) {
      TotalUninvolved(ms, r[i].key, keyOf);
    }
  }

  /** Every entry gains what the match is worth to its team. */
  lemma ApplyLines(s: seq<Entry>, m: Matchup, keyOf: KeyFn)
    ensures |Apply(s, m, keyOf)| == |s| && Keys(Apply(s, m, keyOf)) == Keys(s)
    ensures WellKeyed(s) ==> WellKeyed(Apply(s, m, keyOf))
    ensures Labelled(s) ==> Labelled(Apply(s, m, keyOf))
    ensures forall i | 0 <= i < |s| ::
              Apply(s, m, keyOf)[i] == s[i].(line := Plus(s[i].line, Contribution(m, s[i].key, keyOf)))
  {
    if Counted(m) {
      var score := m.resultMatch.value;
      var k1, k2 := keyOf(m.team1Ids), keyOf(m.team2Ids);
      var d1, d2 := Side(score.team1Score, score.team2Score), Side(score.team2Score, score.team1Score);
      var s1 := Credit(s, k1, d1);
      assert Apply(s, m, keyOf) == Credit(s1, k2, d2);
      forall i | 0 <= i < |s|
        ensures Apply(s, m, keyOf)[i] == s[i].(line := Plus(s[i].line, Contribution(m, s[i].key, keyOf)))
      {
        var key := s[i].key;
        var e1 := if key == k1 then d1 else Blank;
        var e2 := if key == k2 then d2 else Blank;
        assert Contribution(m, key, keyOf) == Plus(e1, e2);
        assert s1[i] == Entry(key, s[i].teamIds, Plus(s[i].line, e1));
        assert Apply(s, m, keyOf)[i] == Entry(key, s[i].teamIds, Plus(Plus(s[i].line, e1), e2));
        PlusAssociative(s[i].line, e1, e2);
      }
    }
  }

  /** Recording `m` adds the entries of its two teams and no other. */
  lemma RecordKeys(stats: seq<Entry>, m: Matchup, keyOf: KeyFn)
    ensures KeySet(Record(stats, m, keyOf)) == KeySet(stats) + {keyOf(m.team1Ids), keyOf(m.team2Ids)}
  {
    var s0 := Ensure(stats, m.team1Ids, keyOf);
    var s := Ensure(s0, m.team2Ids, keyOf);
    ApplyKeys(s, m, keyOf);
  }

  lemma ApplyKeys(s: seq<Entry>, m: Matchup, keyOf: KeyFn)
    ensures Keys(Apply(s, m, keyOf)) == Keys(s)
    ensures KeySet(Apply(s, m, keyOf)) == KeySet(s)
  {
  }

  lemma RecordShape(stats: seq<Entry>, m: Matchup, keyOf: KeyFn)
    ensures WellKeyed(stats) ==> WellKeyed(Record(stats, m, keyOf))
    ensures JoinsTeams(keyOf) && Labelled(stats) ==> Labelled(Record(stats, m, keyOf))
  {
    ApplyLines(Ensure(Ensure(stats, m.team1Ids, keyOf), m.team2Ids, keyOf), m, keyOf);
  }

  lemma RecordSummed(stats: seq<Entry>, ms: seq<Matchup>, keyOf: KeyFn)
    requires |ms| > 0 && Summed(stats, ms[..|ms| - 1], keyOf) && TeamKeys(ms[..|ms| - 1], keyOf) <= KeySet(stats)
    ensures Summed(Record(stats, ms[|ms| - 1], keyOf), ms, keyOf)
  {
    var prefix, m := ms[..|ms| - 1], ms[|ms| - 1];
    var s0 := Ensure(stats, m.team1Ids, keyOf);
    var s := Ensure(s0, m.team2Ids, keyOf);
    assert Summed(s, prefix, keyOf) by {
      EnsureSummed(stats, prefix, m.team1Ids, keyOf);
      EnsureSummed(s0, prefix, m.team2Ids, keyOf);
    }
    ApplySummed(s, ms, keyOf);
  }

  /** Crediting the last match to entries that sum the earlier ones makes them sum all. */
  lemma ApplySummed(s: seq<Entry>, ms: seq<Matchup>, keyOf: KeyFn)
    requires |ms| > 0 && Summed(s, ms[..|ms| - 1], keyOf)
    ensures Summed(Apply(s, ms[|ms| - 1], keyOf), ms, keyOf)
  {
    var m := ms[|ms| - 1];
    var r := Apply(s, m, keyOf);
    ApplyLines(s, m, keyOf);
    forall i | 0 <= i < |r| ensures r[i].line == Total(ms, r[i].key, keyOf) {
      assert r[i] == s[i].(line := Plus(s[i].line, Contribution(m, s[i].key, keyOf)));
      assert Total(ms, s[i].key, keyOf) == Plus(Total(ms[..|ms| - 1], s[i].key, keyOf), Contribution(m, s[i].key, keyOf));
    }
  }

  /** Recording the matches one by one leaves every entry with its reference
      counters, and an entry for each of their teams besides those of `init`. */
  lemma {:induction false} RecordAllReflects(init: seq<Entry>, ms: seq<Matchup>, keyOf: KeyFn)
    requires WellKeyed(init)
    requires forall i | 0 <= i < |init| :: init[i].line == Blank
    ensures WellKeyed(RecordAll(init, ms, keyOf))
    ensures Summed(RecordAll(init, ms, keyOf), ms, keyOf)
    ensures KeySet(RecordAll(init, ms, keyOf)) == KeySet(init) + TeamKeys(ms, keyOf)
    ensures JoinsTeams(keyOf) && Labelled(init) ==> Labelled(RecordAll(init, ms, keyOf))
    decreases |ms|
  {
    if |ms| > 0 {
      var prefix := ms[..|ms| - 1];
      RecordAllReflects(init, prefix, keyOf);
      RecordKeys(RecordAll(init, prefix, keyOf), ms[|ms| - 1], keyOf);
      RecordShape(RecordAll(init, prefix, keyOf), ms[|ms| - 1], keyOf);
      RecordSummed(RecordAll(init, prefix, keyOf), ms, keyOf);
    }
  }

  lemma {:induction false} EnsureAllKeys(stats: seq<Entry>, userIds: seq<Id>, keyOf: KeyFn)
    ensures KeySet(EnsureAll(stats, userIds, keyOf)) == KeySet(stats) + UserKeys(userIds, keyOf)
    ensures WellKeyed(stats) ==> WellKeyed(EnsureAll(stats, userIds, keyOf))
    ensures JoinsTeams(keyOf) && Labelled(stats) ==> Labelled(EnsureAll(stats, userIds, keyOf))
    ensures (forall i | 0 <= i < |stats| :: stats[i].line == Blank) ==>
              forall i | 0 <= i < |EnsureAll(stats, userIds, keyOf)| :: EnsureAll(stats, userIds, keyOf)[i].line == Blank
    decreases |userIds|
  {
    if |userIds| > 0 {
      EnsureAllKeys(stats, userIds[..|userIds| - 1], keyOf);
    }
  }

  /** The standings hold one entry per team: each participant in singles, and
      each side of each matchup, whether or not it was played; each entry holds
      exactly what the counted matches add up to for its team. */
  lemma TalliesMatchReference(mode: TournamentMode, userIds: seq<Id>, matchups: seq<Matchup>, keyOf: KeyFn)
    ensures WellKeyed(Tallies(mode, userIds, matchups, keyOf))
    ensures JoinsTeams(keyOf) ==> Labelled(Tallies(mode, userIds, matchups, keyOf))
    ensures forall i | 0 <= i < |Tallies(mode, userIds, matchups, keyOf)| ::
              Tallies(mode, userIds, matchups, keyOf)[i].line == Total(matchups, Tallies(mode, userIds, matchups, keyOf)[i].key, keyOf)
    ensures KeySet(Tallies(mode, userIds, matchups, keyOf)) ==
              (if mode == Singles then UserKeys(userIds, keyOf) else {}) + TeamKeys(matchups, keyOf)
  {
    var seed := Seed(mode, userIds, keyOf);
    EnsureAllKeys([], userIds, keyOf);
    assert KeySet([]) == {};
    RecordAllReflects(seed, matchups, keyOf);
  }

  // Conservation.

  /** The counters of all entries added together. */
  function SumLines(stats: seq<Entry>): Line
    decreases |stats|
  {
    if |stats| == 0 then Blank else Plus(SumLines(stats[..|stats| - 1]), stats[|stats| - 1].line)
  }

  /** What a counted match adds to the two teams together. */
  function Worth(m: Matchup): Line {
    if !Counted(m) then Blank
    else
      var score := m.resultMatch.value;
      Plus(Side(score.team1Score, score.team2Score), Side(score.team2Score, score.team1Score))
  }

  function GrandTotal(ms: seq<Matchup>): Line
    decreases |ms|
  {
    if |ms| == 0 then Blank else Plus(GrandTotal(ms[..|ms| - 1]), Worth(ms[|ms| - 1]))
  }

  /** The number of matches that count towards the standings. */
  function CountedMatches(ms: seq<Matchup>): nat
    decreases |ms|
  {
    if |ms| == 0 then 0 else CountedMatches(ms[..|ms| - 1]) + (if Counted(ms[|ms| - 1]) then 1 else 0)
  }

  lemma EnsureSum(stats: seq<Entry>, ids: seq<Id>, keyOf: KeyFn)
    ensures SumLines(Ensure(stats, ids, keyOf)) == SumLines(stats)
  {
    var r := Ensure(stats, ids, keyOf);
    if |r| > |stats| {
      assert r[..|stats|] == stats;
    }
  }

  lemma CreditAbsent(stats: seq<Entry>, key: string, d: Line)
    requires key !in Keys(stats)
    ensures Credit(stats, key, d) == stats
  {
    forall i | 0 <= i < |stats| ensures stats[i].key != key {
      assert Keys(stats)[i] == stats[i].key;
    }
  }

  /** Crediting acts on the entries before the last one as on the shorter map. */
  lemma CreditPrefix(stats: seq<Entry>, key: string, d: Line)
    requires |stats| > 0
    ensures SumLines(Credit(stats, key, d))
            == Plus(SumLines(Credit(stats[..|stats| - 1], key, d)),
                    if stats[|stats| - 1].key == key then Plus(stats[|stats| - 1].line, d) else stats[|stats| - 1].line)
  {
    var r := Credit(stats, key, d);
    assert r[..|stats| - 1] == Credit(stats[..|stats| - 1], key, d);
  }

  /** In a map with distinct keys, `key` is keyed earlier exactly when it is not the last key. */
  lemma KeyBeforeLast(stats: seq<Entry>, key: string)
    requires |stats| > 0 && Distinct(Keys(stats)) && key in Keys(stats)
    ensures Distinct(Keys(stats[..|stats| - 1]))
    ensures key in Keys(stats[..|stats| - 1]) <==> stats[|stats| - 1].key != key
  {
    var n := |stats|;
    var prefix := stats[..n - 1];
    assert Keys(prefix) == Keys(stats)[..n - 1];
    if stats[n - 1].key == key {
      forall i | 0 <= i < n - 1 ensures Keys(prefix)[i] != key {
        assert Keys(stats)[i] != Keys(stats)[n - 1];
      }
    } else {
      var i :| 0 <= i < n && Keys(stats)[i] == key;
      assert Keys(prefix)[i] == key;
    }
  }

  /** Crediting the one entry keyed `key` adds `d` to the grand total. */
  lemma {:induction false} CreditSum(stats: seq<Entry>, key: string, d: Line)
    requires Distinct(Keys(stats)) && key in Keys(stats)
    ensures SumLines(Credit(stats, key, d)) == Plus(SumLines(stats), d)
    decreases |stats|
  {
    var n := |stats|;
    var prefix, last := stats[..n - 1], stats[n - 1];
    CreditPrefix(stats, key, d);
    KeyBeforeLast(stats, key);
    assert SumLines(stats) == Plus(SumLines(prefix), last.line);
    if last.key == key {
      CreditAbsent(prefix, key, d);
      PlusAssociative(SumLines(prefix), last.line, d);
    } else {
      CreditSum(prefix, key, d);
      PlusSwap(SumLines(prefix), d, last.line);
    }
  }

  lemma RecordSum(stats: seq<Entry>, m: Matchup, keyOf: KeyFn)
    requires WellKeyed(stats)
    ensures SumLines(Record(stats, m, keyOf)) == Plus(SumLines(stats), Worth(m))
  {
    var s0 := Ensure(stats, m.team1Ids, keyOf);
    var s := Ensure(s0, m.team2Ids, keyOf);
    assert SumLines(s) == SumLines(stats) by {
      EnsureSum(stats, m.team1Ids, keyOf);
      EnsureSum(s0, m.team2Ids, keyOf);
    }
    if Counted(m) {
      var score := m.resultMatch.value;
      var k1, k2 := keyOf(m.team1Ids), keyOf(m.team2Ids);
      var d1, d2 := Side(score.team1Score, score.team2Score), Side(score.team2Score, score.team1Score);
      var s1 := Credit(s, k1, d1);
      assert Record(stats, m, keyOf) == Credit(s1, k2, d2);
      assert WellKeyed(s) && k1 in KeySet(s) && k2 in KeySet(s);
      assert SumLines(s1) == Plus(SumLines(s), d1) by {
        CreditSum(s, k1, d1);
      }
      assert SumLines(Credit(s1, k2, d2)) == Plus(SumLines(s1), d2) by {
        CreditSum(s1, k2, d2);
      }
      assert Worth(m) == Plus(d1, d2);
      PlusAssociative(SumLines(stats), d1, d2);
    } else {
      assert Record(stats, m, keyOf) == s;
      assert Worth(m) == Blank;
      PlusBlank(SumLines(stats));
    }
  }

  lemma {:induction false} RecordAllSum(init: seq<Entry>, ms: seq<Matchup>, keyOf: KeyFn)
    requires WellKeyed(init)
    ensures WellKeyed(RecordAll(init, ms, keyOf))
    ensures SumLines(RecordAll(init, ms, keyOf)) == Plus(SumLines(init), GrandTotal(ms))
    decreases |ms|
  {
    if |ms| > 0 {
      var prefix := ms[..|ms| - 1];
      RecordAllSum(init, prefix, keyOf);
      RecordShape(RecordAll(init, prefix, keyOf), ms[|ms| - 1], keyOf);
      RecordSum(RecordAll(init, prefix, keyOf), ms[|ms| - 1], keyOf);
      PlusAssociative(SumLines(init), GrandTotal(prefix), Worth(ms[|ms| - 1]));
    }
  }

  /** Every counted match hands out one win per loss and as many points
      against as for, and is played by two teams. */
  lemma {:induction false} GrandTotalBalanced(ms: seq<Matchup>)
    ensures GrandTotal(ms).wins == GrandTotal(ms).losses
    ensures GrandTotal(ms).pointsFor == GrandTotal(ms).pointsAgainst
    ensures GrandTotal(ms).played == 2 * CountedMatches(ms)
    decreases |ms|
  {
    if |ms| > 0 {
      GrandTotalBalanced(ms[..|ms| - 1]);
    }
  }

  lemma {:induction false} SumBlank(stats: seq<Entry>)
    requires forall i | 0 <= i < |stats| :: stats[i].line == Blank
    ensures SumLines(stats) == Blank
    decreases |stats|
  {
    if |stats| > 0 {
      SumBlank(stats[..|stats| - 1]);
    }
  }

  /** Over the whole group, wins equal losses, points scored equal points
      conceded, and each counted match is played by two teams. */
  lemma StandingsConserve(mode: TournamentMode, userIds: seq<Id>, matchups: seq<Matchup>, keyOf: KeyFn)
    ensures SumLines(Tallies(mode, userIds, matchups, keyOf)).wins ==
            SumLines(Tallies(mode, userIds, matchups, keyOf)).losses
    ensures SumLines(Tallies(mode, userIds, matchups, keyOf)).pointsFor ==
            SumLines(Tallies(mode, userIds, matchups, keyOf)).pointsAgainst
    ensures SumLines(Tallies(mode, userIds, matchups, keyOf)).played == 2 * CountedMatches(matchups)
  {
    var seed := Seed(mode, userIds, keyOf);
    EnsureAllKeys([], userIds, keyOf);
    SumBlank(seed);
    RecordAllSum(seed, matchups, keyOf);
    GrandTotalBalanced(matchups);
  }

  // Bounds on one team's counters.

  /** No counted match ended level. */
  predicate NoDraws(ms: seq<Matchup>) {
    forall j | 0 <= j < |ms| :: Counted(ms[j]) ==> ms[j].resultMatch.value.team1Score != ms[j].resultMatch.value.team2Score
  }

  lemma {:induction false} TotalBounds(ms: seq<Matchup>, key: string, keyOf: KeyFn)
    ensures 0 <= Total(ms, key, keyOf).wins && 0 <= Total(ms, key, keyOf).losses
    ensures Total(ms, key, keyOf).wins + Total(ms, key, keyOf).losses <= Total(ms, key, keyOf).played
    ensures NoDraws(ms) ==> Total(ms, key, keyOf).wins + Total(ms, key, keyOf).losses == Total(ms, key, keyOf).played
    decreases |ms|
  {
    if |ms| > 0 {
      var prefix := ms[..|ms| - 1];
      TotalBounds(prefix, key, keyOf);
      assert NoDraws(ms) ==> NoDraws(prefix) by {
        if NoDraws(ms) {
          forall j | 0 <= j < |prefix| ensures prefix[j] == ms[j] { }
        }
      }
    }
  }

  /** Every team has as many wins and losses together as matches played, fewer
      only by its draws. */
  lemma TalliesBounds(mode: TournamentMode, userIds: seq<Id>, matchups: seq<Matchup>, keyOf: KeyFn)
    ensures forall i | 0 <= i < |Tallies(mode, userIds, matchups, keyOf)| ::
              var l := Tallies(mode, userIds, matchups, keyOf)[i].line;
              && 0 <= l.wins && 0 <= l.losses && l.wins + l.losses <= l.played
              && (NoDraws(matchups) ==> l.wins + l.losses == l.played)
  {
    var t := Tallies(mode, userIds, matchups, keyOf);
    TalliesMatchReference(mode, userIds, matchups, keyOf);
    forall i | 0 <= i < |t|
      ensures 0 <= t[i].line.wins && 0 <= t[i].line.losses && t[i].line.wins + t[i].line.losses <= t[i].line.played
      ensures NoDraws(matchups) ==> t[i].line.wins + t[i].line.losses == t[i].line.played
    {
      TotalBounds(matchups, t[i].key, keyOf);
    }
  }

  // Ordering and ranks.

  /** `TournamentPlacementDTO`. */
  datatype Placement = Placement(
    teamIds: seq<Id>, wins: int, losses: int, matchesPlayed: int,
    pointsFor: int, pointsAgainst: int, pointDifferential: int, rank: int)

  /** An entry as a placement, before ranking. */
  function Unranked(e: Entry): Placement {
    Placement(e.teamIds, e.line.wins, e.line.losses, e.line.played,
              e.line.pointsFor, e.line.pointsAgainst, e.line.pointsFor - e.line.pointsAgainst, 0)
  }

  function Unrankeds(stats: seq<Entry>): (r: seq<Placement>)
    ensures |r| == |stats|
    ensures forall i | 0 <= i < |stats| :: r[i] == Unranked(stats[i])
  {
    seq(|stats|, i requires 0 <= i < |stats| => Unranked(stats[i]))
  }

  /** The comparator of `placements.sort`, read as `compare(a, b) <= 0`. */
  predicate Before(a: Placement, b: Placement) {
    if b.wins != a.wins then b.wins - a.wins <= 0
    else if b.pointDifferential - a.pointDifferential != 0 then b.pointDifferential - a.pointDifferential <= 0
    else if b.pointsFor != a.pointsFor then b.pointsFor - a.pointsFor <= 0
    else StrLe(Join("|", a.teamIds), Join("|", b.teamIds))
  }

  /** The part of a placement that decides its rank. */
  datatype Signature = Signature(wins: int, diff: int, points: int)

  function SignatureOf(p: Placement): Signature {
    Signature(p.wins, p.pointDifferential, p.pointsFor)
  }

  /** `a` has a strictly better signature than `b`: more wins, then a better
      differential, then more points. */
  predicate Ahead(a: Placement, b: Placement) {
    || a.wins > b.wins
    || (a.wins == b.wins && a.pointDifferential > b.pointDifferential)
    || (a.wins == b.wins && a.pointDifferential == b.pointDifferential && a.pointsFor > b.pointsFor)
  }

  /** The comparator ranks by signature and breaks ties by team key. */
  lemma BeforeMeans(a: Placement, b: Placement)
    ensures Before(a, b) <==>
              Ahead(a, b) || (SignatureOf(a) == SignatureOf(b) && StrLe(Join("|", a.teamIds), Join("|", b.teamIds)))
  {
  }

  lemma BeforePreorder(s: seq<Placement>)
    ensures PreorderOn(s, Before)
  {
    StrLeTotalOrder();
  }

  /** Entries with distinct keys are never tied under the comparator, so it
      orders them totally. */
  lemma BeforeTotalOrder(stats: seq<Entry>)
    requires WellKeyed(stats) && Labelled(stats)
    ensures TotalOrderOn(Unrankeds(stats), Before)
  {
    var ps := Unrankeds(stats);
    BeforePreorder(ps);
    StrLeTotalOrder();
    forall a, b | a in ps && b in ps && Before(a, b) && Before(b, a) ensures a == b {
      var i :| 0 <= i < |ps| && ps[i] == a;
      var j :| 0 <= j < |ps| && ps[j] == b;
      assert Join("|", a.teamIds) == Join("|", b.teamIds);
      assert Keys(stats)[i] == Keys(stats)[j];
    }
  }

  /** The standings order: the placements of every team, sorted by the comparator. */
  function Standings(mode: TournamentMode, userIds: seq<Id>, matchups: seq<Matchup>): seq<Placement> {
    Sort(Unrankeds(Tallies(mode, userIds, matchups, CanonicalTeamKey)), Before)
  }

  lemma StandingsSorted(mode: TournamentMode, userIds: seq<Id>, matchups: seq<Matchup>)
    ensures Sorted(Standings(mode, userIds, matchups), Before)
    ensures multiset(Standings(mode, userIds, matchups)) ==
            multiset(Unrankeds(Tallies(mode, userIds, matchups, CanonicalTeamKey)))
  {
    var ps := Unrankeds(Tallies(mode, userIds, matchups, CanonicalTeamKey));
    BeforePreorder(ps);
    SortSorted(ps, Before);
  }

  /** Any sorted arrangement of the placements is the standings order: the
      result does not depend on the order in which teams were first met. */
  lemma StandingsUnique(mode: TournamentMode, userIds: seq<Id>, matchups: seq<Matchup>, q: seq<Placement>)
    requires multiset(q) == multiset(Unrankeds(Tallies(mode, userIds, matchups, CanonicalTeamKey)))
    requires Sorted(q, Before)
    ensures q == Standings(mode, userIds, matchups)
  {
    var stats := Tallies(mode, userIds, matchups, CanonicalTeamKey);
    CanonicalJoinsTeams();
    TalliesMatchReference(mode, userIds, matchups, CanonicalTeamKey);
    BeforeTotalOrder(stats);
    StandingsSorted(mode, userIds, matchups);
    var st := Standings(mode, userIds, matchups);
    assert TotalOrderOn(st, Before) by {
      forall y | y in st ensures y in Unrankeds(stats) {
        assert y in multiset(st);
      }
    }
    SortedPermutationUnique(st, q, Before);
  }

  /** Number of placements of `ps` strictly ahead of `x`. */
  function CountAhead(ps: seq<Placement>, x: Placement): nat
    decreases |ps|
  {
    if |ps| == 0 then 0 else CountAhead(ps[..|ps| - 1], x) + (if Ahead(ps[|ps| - 1], x) then 1 else 0)
  }

  /** `f` is where the run of signatures equal to `ps[i]`'s, ending at `i`, starts. */
  predicate BlockStart(ps: seq<Placement>, i: int, f: int) {
    && 0 <= f <= i < |ps|
    && (forall j | f <= j <= i :: SignatureOf(ps[j]) == SignatureOf(ps[i]))
    && (f == 0 || SignatureOf(ps[f - 1]) != SignatureOf(ps[i]))
  }

  /** `ranked` is `ps` so far, each placement ranked by where its run starts. */
  predicate RankedSoFar(ps: seq<Placement>, ranked: seq<Placement>) {
    && |ranked| <= |ps|
    && (forall i | 0 <= i < |ranked| :: ranked[i] == ps[i].(rank := ranked[i].rank))
    && (forall i | 0 <= i < |ranked| :: BlockStart(ps, i, ranked[i].rank - 1))
  }

  /** The `forEach` that assigns ranks: the first of a run of equal signatures
      is ranked by its position, and the rest of the run shares its rank. */
  method AssignRanks(ps: seq<Placement>) returns (ranked: seq<Placement>)
    ensures |ranked| == |ps|
    ensures forall i | 0 <= i < |ps| :: ranked[i] == ps[i].(rank := ranked[i].rank)
    ensures forall i | 0 <= i < |ps| :: BlockStart(ps, i, ranked[i].rank - 1)
  {
    ranked := [];
    var currentRank := 0;
    var previousSignature: Option<Signature> := None;
    for index := 0 to |ps|
      invariant |ranked| == index
      invariant RankedSoFar(ps, ranked)
      invariant index == 0 ==> previousSignature.None?
      invariant index > 0 ==>
                  previousSignature == Some(SignatureOf(ps[index - 1])) && currentRank == ranked[index - 1].rank
    {
      var signature := SignatureOf(ps[index]);
      if previousSignature.Some? && previousSignature.value == signature {
        assert BlockStart(ps, index, currentRank - 1) by {
          assert BlockStart(ps, index - 1, currentRank - 1);
        }
      } else {
        assert BlockStart(ps, index, index) by {
          assert index > 0 ==> SignatureOf(ps[index - 1]) != signature;
        }
        currentRank := index + 1;
        previousSignature := Some(signature);
      }
      RankedPush(ps, ranked, currentRank);
      ranked := ranked + [ps[index].(rank := currentRank)];
    }
  }

  /** Appending the next placement with a rank that starts its run keeps the
      ranking so far correct. */
  lemma RankedPush(ps: seq<Placement>, ranked: seq<Placement>, rank: int)
    requires |ranked| < |ps| && RankedSoFar(ps, ranked)
    requires BlockStart(ps, |ranked|, rank - 1)
    ensures var ranked' := ranked + [ps[|ranked|].(rank := rank)];
            |ranked'| == |ranked| + 1 && ranked'[|ranked|].rank == rank && RankedSoFar(ps, ranked')
  {
    var ranked' := ranked + [ps[|ranked|].(rank := rank)];
    forall i | 0 <= i < |ranked'|
      ensures ranked'[i] == ps[i].(rank := ranked'[i].rank) && BlockStart(ps, i, ranked'[i].rank - 1)
    {
      if i < |ranked| {
        assert ranked'[i] == ranked[i];
      }
    }
  }

  lemma {:induction false} CountAheadExact(ps: seq<Placement>, x: Placement, f: nat)
    requires f <= |ps|
    requires forall j | 0 <= j < f :: Ahead(ps[j], x)
    requires forall j | f <= j < |ps| :: !Ahead(ps[j], x)
    ensures CountAhead(ps, x) == f
    decreases |ps|
  {
    if |ps| > 0 {
      var prefix := ps[..|ps| - 1];
      if f == |ps| {
        CountAheadExact(prefix, x, f - 1);
      } else {
        CountAheadExact(prefix, x, f);
      }
    }
  }

  /** In a sorted list a run's start counts exactly the placements strictly
      ahead of it: ranks are competition ranks ("1224"). */
  lemma CompetitionRank(ps: seq<Placement>, i: int, f: int)
    requires Sorted(ps, Before) && BlockStart(ps, i, f)
    ensures CountAhead(ps, ps[i]) == f
  {
    forall j | 0 <= j < f ensures Ahead(ps[j], ps[i]) {
      BeforeMeans(ps[f - 1], ps[i]);
      if j < f - 1 {
        BeforeMeans(ps[j], ps[f - 1]);
      }
    }
    forall j | f <= j < |ps| ensures !Ahead(ps[j], ps[i]) {
      if j > i {
        BeforeMeans(ps[i], ps[j]);
      }
    }
    CountAheadExact(ps, ps[i], f);
  }

  /** `calculatePlacementsForGroup`: the standings order, each placement ranked
      one more than the number of teams strictly ahead of it. */
  method CalculatePlacementsForGroup(mode: TournamentMode, userIds: seq<Id>, matchups: seq<Matchup>)
    returns (placements: seq<Placement>)
    ensures |placements| == |Standings(mode, userIds, matchups)|
    ensures forall i | 0 <= i < |placements| ::
              var p := Standings(mode, userIds, matchups)[i];
              placements[i] == p.(rank := 1 + CountAhead(Standings(mode, userIds, matchups), p))
  {
    var stats := Tallies(mode, userIds, matchups, CanonicalTeamKey);
    var sorted := Sort(Unrankeds(stats), Before);
    StandingsSorted(mode, userIds, matchups);
    placements := AssignRanks(sorted);
    forall i | 0 <= i < |placements|
      ensures placements[i] == sorted[i].(rank := 1 + CountAhead(sorted, sorted[i]))
    {
      CompetitionRank(sorted, i, placements[i].rank - 1);
    }
  }
}
