/** `generateDoublesPairings` (src/server/tournament-service.ts): up to `limit`
    random doubles matchups. Each attempt shuffles the roster and cuts it into
    blocks of four (two teams of two); a block is skipped when one of its
    players already has the per-player quota of matches, or when the same two
    teams (in any order) were already drawn. At most `30 * limit` attempts are
    made. The shuffles, which the source obtains from `Math.random`, are an
    input here. */
module DoublesPairings {
  import opened Seqs
  import opened Strings
  import opened Schedule

  // ---------------------------------------------------------------------------
  // The per-player quota.

  /** `Math.ceil(a / b)` for a non-negative numerator. */
  function CeilDiv(a: nat, b: nat): (r: nat)
    requires b > 0
  {
    (a + b - 1) / b
  }

  lemma CeilDivBounds(a: nat, b: nat)
    requires b > 0
    ensures CeilDiv(a, b) * b >= a
    ensures a > 0 ==> (CeilDiv(a, b) - 1) * b < a
  {
    var q := (a + b - 1) / b;
    var m := (a + b - 1) % b;
    assert a + b - 1 == q * b + m;
    assert (q - 1) * b == q * b - b;
  }

  /** `Math.max(1, Math.ceil((limit * 4) / ids.length))`: the fewest matches
      per player that still lets `limit` matchups of four fit the roster. */
  function MaxPerPlayer(limit: int, n: nat): (cap: int)
    requires limit > 0 && n > 0
    ensures cap >= 1
    ensures cap * n >= 4 * limit
    ensures (cap - 1) * n < 4 * limit
  {
    CeilDivBounds(4 * limit, n);
    Max(1, CeilDiv(4 * limit, n))
  }

  // ---------------------------------------------------------------------------
  // The canonical key of a matchup.

  /** `[a, b].sort()`: the default sort puts the smaller string first and
      keeps equal strings in place. */
  function Order2(a: string, b: string): (r: seq<string>)
    ensures |r| == 2
    ensures multiset(r) == multiset{a, b}
    ensures StrLe(r[0], r[1])
  {
    StrLtTotal(a, b);
    if StrLt(b, a) then [b, a] else [a, b]
  }

  /** `team.slice().sort().join(':')` for a team of two. */
  function TeamKey(a: Id, b: Id): string {
    Join(":", Order2(a, b))
  }

  /** `[key(team1), key(team2)].sort().join('|')`. */
  function MatchupKey(a: Id, b: Id, c: Id, d: Id): string {
    Join("|", Order2(TeamKey(a, b), TeamKey(c, d)))
  }

  /** A team of two and another team of two playing in the first iteration. */
  predicate DoublesShape(m: ScheduledMatch) {
    |m.team1| == 2 && |m.team2| == 2 && m.iteration == 1
  }

  function Key(m: ScheduledMatch): string
    requires DoublesShape(m)
  {
    MatchupKey(m.team1[0], m.team1[1], m.team2[0], m.team2[1])
  }

  /** The same two teams, each compared as a set of players, in either order. */
  predicate SameMatchup(t1: seq<Id>, t2: seq<Id>, u1: seq<Id>, u2: seq<Id>) {
    || (multiset(t1) == multiset(u1) && multiset(t2) == multiset(u2))
    || (multiset(t1) == multiset(u2) && multiset(t2) == multiset(u1))
  }

  /** No player id contains a character that the key uses as a separator. */
  predicate SeparatorFree(x: Id) {
    ':' !in x && '|' !in x
  }

  // Facts about the key.

  /** Two orders of the same two strings sort to the same pair. */
  lemma Order2Canonical(a: string, b: string, c: string, d: string)
    requires multiset{a, b} == multiset{c, d}
    ensures Order2(a, b) == Order2(c, d)
  {
    var r, s := Order2(a, b), Order2(c, d);
    assert r == [r[0], r[1]] && s == [s[0], s[1]];
    PairOfPairs(r[0], r[1], s[0], s[1]);
    StrLtAsymmetric(r[0], r[1]);
  }

  /** In `a + [sep] + b` with `sep` not in `a`, the first `sep` sits at `|a|`. */
  lemma SeparatorPosition(sep: char, a: string, b: string)
    requires sep !in a
    ensures (a + [sep] + b)[|a|] == sep
    ensures forall k | 0 <= k < |a| :: (a + [sep] + b)[k] != sep
  {
    forall k | 0 <= k < |a| ensures (a + [sep] + b)[k] != sep {
      assert (a + [sep] + b)[k] == a[k];
    }
  }

  /** Joining two strings around a separator that the first of them does
      not contain can be undone: the separator's first occurrence marks the cut. */
  lemma JoinTwoInjective(sep: char, a: string, b: string, c: string, d: string)
    requires sep !in a && sep !in c
    requires a + [sep] + b == c + [sep] + d
    ensures a == c && b == d
  {
    var s := a + [sep] + b;
    SeparatorPosition(sep, a, b);
    SeparatorPosition(sep, c, d);
    assert |a| == |c|;
    assert a == s[..|a|] == c;
    assert b == s[|a| + 1..] == d;
  }

  lemma JoinTwo(sep: string, a: string, b: string)
    ensures Join(sep, [a, b]) == a + sep + b
  {
    assert [a, b][1..] == [b];
  }

  lemma TeamKeyNoBar(a: Id, b: Id)
    requires SeparatorFree(a) && SeparatorFree(b)
    ensures '|' !in TeamKey(a, b)
  {
    var o := Order2(a, b);
    JoinTwo(":", o[0], o[1]);
    assert o[0] in multiset{a, b} && o[1] in multiset{a, b};
  }

  lemma TeamKeyInjective(a: Id, b: Id, c: Id, d: Id)
    requires SeparatorFree(a) && SeparatorFree(b) && SeparatorFree(c) && SeparatorFree(d)
    requires TeamKey(a, b) == TeamKey(c, d)
    ensures multiset{a, b} == multiset{c, d}
  {
    var o, p := Order2(a, b), Order2(c, d);
    JoinTwo(":", o[0], o[1]);
    JoinTwo(":", p[0], p[1]);
    assert o[0] in multiset{a, b} && p[0] in multiset{c, d};
    JoinTwoInjective(':', o[0], o[1], p[0], p[1]);
    assert o == p;
  }

  /** For separator-free ids, two matchups get the same key exactly when they
      put the same two teams against each other. */
  lemma MatchupKeyIff(a: Id, b: Id, c: Id, d: Id, e: Id, f: Id, g: Id, h: Id)
    requires SeparatorFree(a) && SeparatorFree(b) && SeparatorFree(c) && SeparatorFree(d)
    requires SeparatorFree(e) && SeparatorFree(f) && SeparatorFree(g) && SeparatorFree(h)
    ensures MatchupKey(a, b, c, d) == MatchupKey(e, f, g, h) <==> SameMatchup([a, b], [c, d], [e, f], [g, h])
  {
    if MatchupKey(a, b, c, d) == MatchupKey(e, f, g, h) {
      MatchupKeyForward(a, b, c, d, e, f, g, h);
    }
    if SameMatchup([a, b], [c, d], [e, f], [g, h]) {
      MatchupKeyBackward(a, b, c, d, e, f, g, h);
    }
  }

  lemma MatchupKeyBackward(a: Id, b: Id, c: Id, d: Id, e: Id, f: Id, g: Id, h: Id)
    requires SameMatchup([a, b], [c, d], [e, f], [g, h])
    ensures MatchupKey(a, b, c, d) == MatchupKey(e, f, g, h)
  {
    if multiset{a, b} == multiset{e, f} && multiset{c, d} == multiset{g, h} {
      Order2Canonical(a, b, e, f);
      Order2Canonical(c, d, g, h);
    } else {
      MatchupKeySwapped(a, b, c, d, e, f, g, h);
    }
  }

  lemma MatchupKeySwapped(a: Id, b: Id, c: Id, d: Id, e: Id, f: Id, g: Id, h: Id)
    requires multiset{a, b} == multiset{g, h} && multiset{c, d} == multiset{e, f}
    ensures MatchupKey(a, b, c, d) == MatchupKey(e, f, g, h)
  {
    Order2Canonical(a, b, g, h);
    Order2Canonical(c, d, e, f);
    Order2Canonical(TeamKey(a, b), TeamKey(c, d), TeamKey(e, f), TeamKey(g, h));
  }

  /** Equal matchup keys come from the same two team keys. */
  lemma TeamKeysOfMatchupKey(a: Id, b: Id, c: Id, d: Id, e: Id, f: Id, g: Id, h: Id)
    requires SeparatorFree(a) && SeparatorFree(b) && SeparatorFree(c) && SeparatorFree(d)
    requires SeparatorFree(e) && SeparatorFree(f) && SeparatorFree(g) && SeparatorFree(h)
    requires MatchupKey(a, b, c, d) == MatchupKey(e, f, g, h)
    ensures multiset{TeamKey(a, b), TeamKey(c, d)} == multiset{TeamKey(e, f), TeamKey(g, h)}
  {
    var k1, k2 := TeamKey(a, b), TeamKey(c, d);
    var l1, l2 := TeamKey(e, f), TeamKey(g, h);
    TeamKeyNoBar(a, b);
    TeamKeyNoBar(c, d);
    TeamKeyNoBar(e, f);
    TeamKeyNoBar(g, h);
    var o, p := Order2(k1, k2), Order2(l1, l2);
    JoinTwo("|", o[0], o[1]);
    JoinTwo("|", p[0], p[1]);
    assert o[0] in multiset{k1, k2} && p[0] in multiset{l1, l2};
    JoinTwoInjective('|', o[0], o[1], p[0], p[1]);
    assert o == [o[0], o[1]] == p;
  }

  lemma MatchupKeyForward(a: Id, b: Id, c: Id, d: Id, e: Id, f: Id, g: Id, h: Id)
    requires SeparatorFree(a) && SeparatorFree(b) && SeparatorFree(c) && SeparatorFree(d)
    requires SeparatorFree(e) && SeparatorFree(f) && SeparatorFree(g) && SeparatorFree(h)
    requires MatchupKey(a, b, c, d) == MatchupKey(e, f, g, h)
    ensures SameMatchup([a, b], [c, d], [e, f], [g, h])
  {
    TeamKeysOfMatchupKey(a, b, c, d, e, f, g, h);
    var k1, k2 := TeamKey(a, b), TeamKey(c, d);
    var l1, l2 := TeamKey(e, f), TeamKey(g, h);
    PairOfPairs(k1, k2, l1, l2);
    if k1 == l1 {
      TeamKeyInjective(a, b, e, f);
      TeamKeyInjective(c, d, g, h);
    } else {
      TeamKeyInjective(a, b, g, h);
      TeamKeyInjective(c, d, e, f);
    }
  }

  /** Two equal two-element multisets match up straight or crossed. */
  lemma PairOfPairs<T>(x1: T, x2: T, y1: T, y2: T)
    requires multiset{x1, x2} == multiset{y1, y2}
    ensures (x1 == y1 && x2 == y2) || (x1 == y2 && x2 == y1)
  {
    assert x1 in multiset{y1, y2};
    assert multiset{x2} == multiset{x1, x2} - multiset{x1};
    if x1 == y1 {
      assert multiset{y2} == multiset{y1, y2} - multiset{y1};
    } else {
      assert multiset{y1} == multiset{y1, y2} - multiset{y2};
    }
  }

  // ---------------------------------------------------------------------------
  // The drawing loop. It is written for any key function; the schedule uses
  // `MatchupKey`, whose meaning is settled by `MatchupKeyIff` above.

  /** How a block of four `[a, b, c, d]` is turned into a deduplication key. */
  type KeyFn = (Id, Id, Id, Id) -> string

  function Players(m: ScheduledMatch): seq<Id> {
    m.team1 + m.team2
  }

  lemma PlayersOfBlock(a: Id, b: Id, c: Id, d: Id)
    ensures Players(ScheduledMatch([a, b], [c, d], 1)) == [a, b, c, d]
  {
  }

  /** Every matchup pits a team of two roster players against another,
      in iteration 1. */
  predicate Shaped(ms: seq<ScheduledMatch>, roster: seq<Id>) {
    forall j | 0 <= j < |ms| :: DoublesShape(ms[j]) && forall x | x in Players(ms[j]) :: x in roster
  }

  function KeyOf(key: KeyFn, m: ScheduledMatch): string
    requires DoublesShape(m)
  {
    key(m.team1[0], m.team1[1], m.team2[0], m.team2[1])
  }

  /** The keys of the matchups, in order. */
  function Keys(key: KeyFn, ms: seq<ScheduledMatch>): (ks: seq<string>)
    requires forall j | 0 <= j < |ms| :: DoublesShape(ms[j])
    ensures |ks| == |ms|
  {
    if |ms| == 0 then [] else Keys(key, ms[..|ms| - 1]) + [KeyOf(key, ms[|ms| - 1])]
  }

  lemma {:induction false} KeysIndex(key: KeyFn, ms: seq<ScheduledMatch>, j: nat)
    requires forall j | 0 <= j < |ms| :: DoublesShape(ms[j])
    requires j < |ms|
    ensures Keys(key, ms)[j] == KeyOf(key, ms[j])
    decreases |ms|
  {
    if j < |ms| - 1 {
      KeysIndex(key, ms[..|ms| - 1], j);
    }
  }

  lemma KeysPush(key: KeyFn, ms: seq<ScheduledMatch>, m: ScheduledMatch)
    requires forall j | 0 <= j < |ms| :: DoublesShape(ms[j])
    requires DoublesShape(m)
    ensures Keys(key, ms + [m]) == Keys(key, ms) + [KeyOf(key, m)]
  {
    assert (ms + [m])[..|ms|] == ms;
  }

  lemma DistinctPush<T>(ks: seq<T>, k: T)
    requires Distinct(ks) && k !in ks
    ensures Distinct(ks + [k])
    ensures (set x | x in ks + [k]) == (set x | x in ks) + {k}
  {
    forall j1, j2 | 0 <= j1 < j2 < |ks| + 1 ensures (ks + [k])[j1] != (ks + [k])[j2] {
      assert (ks + [k])[j1] == ks[j1];
    }
  }

  /** The counters agree with the matchups drawn so far. */
  ghost predicate Tracks(counts: map<Id, int>, ms: seq<ScheduledMatch>) {
    forall x :: Count(counts, x) == Appearances(ms, x)
  }

  /** Nobody is on more than `bound` of the matchups. */
  ghost predicate Within(ms: seq<ScheduledMatch>, bound: int) {
    forall x :: Appearances(ms, x) <= bound
  }

  /** With a roster of different players, nobody is twice in one matchup and
      nobody exceeds the quota. */
  ghost predicate WithinDistinct(roster: seq<Id>, cap: int, ms: seq<ScheduledMatch>) {
    Distinct(roster) ==> (forall j | 0 <= j < |ms| :: Distinct(Players(ms[j]))) && Within(ms, cap)
  }

  /** The loop state: what has been drawn, the `seen` keys, the counters and
      the quota. */
  ghost predicate Drawn(roster: seq<Id>, cap: int, limit: int, key: KeyFn,
                        counts: map<Id, int>, seen: set<string>, ms: seq<ScheduledMatch>) {
    && |ms| <= limit
    && Shaped(ms, roster)
    && Distinct(Keys(key, ms))
    && seen == (set k | k in Keys(key, ms))
    && Tracks(counts, ms)
    && Within(ms, cap + 3)
    && WithinDistinct(roster, cap, ms)
  }

  lemma AppearancesPush(ms: seq<ScheduledMatch>, m: ScheduledMatch, x: Id)
    ensures Appearances(ms + [m], x) == Appearances(ms, x) + Occurrences(Players(m), x)
  {
    AppearancesAppend(ms, [m], x);
    assert [m][1..] == [];
  }

  lemma ShapedPush(ms: seq<ScheduledMatch>, roster: seq<Id>, a: Id, b: Id, c: Id, d: Id)
    requires Shaped(ms, roster)
    requires a in roster && b in roster && c in roster && d in roster
    ensures Shaped(ms + [ScheduledMatch([a, b], [c, d], 1)], roster)
  {
    PlayersOfBlock(a, b, c, d);
  }

  lemma OccurrencesFour(a: Id, b: Id, c: Id, d: Id)
    ensures forall x :: Occurrences([a, b, c, d], x)
                        == (if a == x then 1 else 0) + (if b == x then 1 else 0) + (if c == x then 1 else 0) + (if d == x then 1 else 0)
  {
    forall x
      ensures Occurrences([a, b, c, d], x)
              == (if a == x then 1 else 0) + (if b == x then 1 else 0) + (if c == x then 1 else 0) + (if d == x then 1 else 0)
    {
      OccurrencesFourAt(a, b, c, d, x);
    }
  }

  lemma OccurrencesFourAt(a: Id, b: Id, c: Id, d: Id, x: Id)
    ensures Occurrences([a, b, c, d], x)
            == (if a == x then 1 else 0) + (if b == x then 1 else 0) + (if c == x then 1 else 0) + (if d == x then 1 else 0)
  {
    assert multiset([a, b, c, d]) == multiset{a, b, c, d};
  }

  /** `counts[team1[0]] += 1; counts[team1[1]] += 1; counts[team2[0]] += 1; counts[team2[1]] += 1`. */
  function BumpFour(counts: map<Id, int>, a: Id, b: Id, c: Id, d: Id): (r: map<Id, int>)
    ensures forall x :: Count(r, x) == Count(counts, x) + Occurrences([a, b, c, d], x)
  {
    OccurrencesFour(a, b, c, d);
    Bump(Bump(Bump(Bump(counts, a), b), c), d)
  }

  lemma TracksPush(counts: map<Id, int>, ms: seq<ScheduledMatch>, a: Id, b: Id, c: Id, d: Id)
    requires Tracks(counts, ms)
    ensures Tracks(BumpFour(counts, a, b, c, d), ms + [ScheduledMatch([a, b], [c, d], 1)])
  {
    var m := ScheduledMatch([a, b], [c, d], 1);
    var counts' := BumpFour(counts, a, b, c, d);
    PlayersOfBlock(a, b, c, d);
    forall x ensures Count(counts', x) == Appearances(ms + [m], x) {
      AppearancesPush(ms, m, x);
      assert Occurrences(Players(m), x) == Occurrences([a, b, c, d], x);
      assert Count(counts', x) == Count(counts, x) + Occurrences([a, b, c, d], x);
      assert Count(counts, x) == Appearances(ms, x);
    }
  }

  lemma OccurrencesAtMost<T>(s: seq<T>, x: T)
    ensures Occurrences(s, x) <= |s|
  {
    assert multiset(s)[x] <= |multiset(s)|;
  }

  lemma OccurrencesDistinct<T>(s: seq<T>, x: T)
    requires Distinct(s)
    ensures Occurrences(s, x) <= 1
  {
    if Occurrences(s, x) >= 2 {
      var i1, i2 := RepeatPositions(s, x);
    }
  }

  /** A matchup whose players were all below `cap` keeps everyone within `cap + 3`,
      and within `cap` when its four players are different. */
  lemma WithinPush(ms: seq<ScheduledMatch>, m: ScheduledMatch, cap: int, bound: int)
    requires |Players(m)| == 4
    requires Within(ms, bound) && cap <= bound
    requires forall x | x in Players(m) :: Appearances(ms, x) < cap
    requires bound == cap + 3 || (bound == cap && Distinct(Players(m)))
    ensures Within(ms + [m], bound)
  {
    forall x ensures Appearances(ms + [m], x) <= bound {
      AppearancesPush(ms, m, x);
      if x in Players(m) {
        if bound == cap + 3 {
          OccurrencesAtMost(Players(m), x);
        } else {
          OccurrencesDistinct(Players(m), x);
        }
      } else {
        assert Occurrences(Players(m), x) == 0;
      }
    }
  }

  lemma WithinDistinctPush(roster: seq<Id>, cap: int, ms: seq<ScheduledMatch>, a: Id, b: Id, c: Id, d: Id)
    requires WithinDistinct(roster, cap, ms)
    requires Distinct(roster) ==> Distinct([a, b, c, d])
    requires forall x | x in [a, b, c, d] :: Appearances(ms, x) < cap
    ensures WithinDistinct(roster, cap, ms + [ScheduledMatch([a, b], [c, d], 1)])
  {
    var m := ScheduledMatch([a, b], [c, d], 1);
    PlayersOfBlock(a, b, c, d);
    if Distinct(roster) {
      WithinPush(ms, m, cap, cap);
      var ms' := ms + [m];
      assert forall j | 0 <= j < |ms| :: ms'[j] == ms[j];
    }
  }

  lemma SeenPush(key: KeyFn, seen: set<string>, ms: seq<ScheduledMatch>, m: ScheduledMatch)
    requires forall j | 0 <= j < |ms| :: DoublesShape(ms[j])
    requires DoublesShape(m)
    requires Distinct(Keys(key, ms)) && seen == (set k | k in Keys(key, ms))
    requires KeyOf(key, m) !in seen
    ensures Distinct(Keys(key, ms + [m]))
    ensures seen + {KeyOf(key, m)} == (set k | k in Keys(key, ms + [m]))
  {
    KeysPush(key, ms, m);
    DistinctPush(Keys(key, ms), KeyOf(key, m));
  }

  lemma CountsAre(counts: map<Id, int>, ms: seq<ScheduledMatch>, a: Id, b: Id, c: Id, d: Id)
    requires Tracks(counts, ms)
    ensures Count(counts, a) == Appearances(ms, a) && Count(counts, b) == Appearances(ms, b)
    ensures Count(counts, c) == Appearances(ms, c) && Count(counts, d) == Appearances(ms, d)
  {
  }

  /** The players of a block that passed the quota test were all under it. */
  lemma UnderQuota(counts: map<Id, int>, ms: seq<ScheduledMatch>, cap: int, a: Id, b: Id, c: Id, d: Id)
    requires Tracks(counts, ms)
    requires Count(counts, a) < cap && Count(counts, b) < cap && Count(counts, c) < cap && Count(counts, d) < cap
    ensures forall x | x in [a, b, c, d] :: Appearances(ms, x) < cap
  {
    assert Count(counts, a) == Appearances(ms, a) && Count(counts, b) == Appearances(ms, b);
    assert Count(counts, c) == Appearances(ms, c) && Count(counts, d) == Appearances(ms, d);
  }

  /** Adding a matchup whose four players were all under the quota and whose
      key is new keeps the loop state. */
  lemma DrawnPush(roster: seq<Id>, cap: int, limit: int, key: KeyFn, counts: map<Id, int>, seen: set<string>,
                  ms: seq<ScheduledMatch>, a: Id, b: Id, c: Id, d: Id)
    requires Drawn(roster, cap, limit, key, counts, seen, ms) && |ms| < limit
    requires a in roster && b in roster && c in roster && d in roster
    requires Distinct(roster) ==> Distinct([a, b, c, d])
    requires Count(counts, a) < cap && Count(counts, b) < cap && Count(counts, c) < cap && Count(counts, d) < cap
    requires key(a, b, c, d) !in seen
    ensures Drawn(roster, cap, limit, key, BumpFour(counts, a, b, c, d), seen + {key(a, b, c, d)},
                  ms + [ScheduledMatch([a, b], [c, d], 1)])
  {
    var m := ScheduledMatch([a, b], [c, d], 1);
    var ms' := ms + [m];
    assert Shaped(ms', roster) by {
      ShapedPush(ms, roster, a, b, c, d);
    }
    assert Distinct(Keys(key, ms')) && seen + {key(a, b, c, d)} == (set k | k in Keys(key, ms')) by {
      SeenPush(key, seen, ms, m);
    }
    assert Tracks(BumpFour(counts, a, b, c, d), ms') by {
      TracksPush(counts, ms, a, b, c, d);
    }
    assert Within(ms', cap + 3) && WithinDistinct(roster, cap, ms') by {
      PlayersOfBlock(a, b, c, d);
      UnderQuota(counts, ms, cap, a, b, c, d);
      WithinPush(ms, m, cap, cap + 3);
      WithinDistinctPush(roster, cap, ms, a, b, c, d);
    }
  }

  /** The block `[a, b, c, d]` is drawn: all four are under the quota and the
      matchup is new. */
  ghost predicate Admitted(key: KeyFn, cap: int, ms: seq<ScheduledMatch>, a: Id, b: Id, c: Id, d: Id)
    requires forall j | 0 <= j < |ms| :: DoublesShape(ms[j])
  {
    (forall x | x in [a, b, c, d] :: Appearances(ms, x) < cap) && key(a, b, c, d) !in Keys(key, ms)
  }

  /** The counters and the `seen` set decide admission as intended. */
  lemma AdmissionTest(key: KeyFn, cap: int, counts: map<Id, int>, seen: set<string>, ms: seq<ScheduledMatch>,
                      a: Id, b: Id, c: Id, d: Id)
    requires forall j | 0 <= j < |ms| :: DoublesShape(ms[j])
    requires Tracks(counts, ms) && seen == (set k | k in Keys(key, ms))
    ensures Admitted(key, cap, ms, a, b, c, d)
            <==> Count(counts, a) < cap && Count(counts, b) < cap && Count(counts, c) < cap && Count(counts, d) < cap
                 && key(a, b, c, d) !in seen
  {
    assert (forall x | x in [a, b, c, d] :: Appearances(ms, x) < cap)
           <==> Count(counts, a) < cap && Count(counts, b) < cap && Count(counts, c) < cap && Count(counts, d) < cap by {
      CountsAre(counts, ms, a, b, c, d);
      AllFourUnder(x => Appearances(ms, x), cap, a, b, c, d);
    }
    assert key(a, b, c, d) in Keys(key, ms) <==> key(a, b, c, d) in seen;
  }

  /** A bound holds for all four players of a block exactly when it holds for each. */
  lemma AllFourUnder(f: Id -> int, cap: int, a: Id, b: Id, c: Id, d: Id)
    ensures (forall x | x in [a, b, c, d] :: f(x) < cap) <==> f(a) < cap && f(b) < cap && f(c) < cap && f(d) < cap
  {
    var block := [a, b, c, d];
    assert block[0] == a && block[1] == b && block[2] == c && block[3] == d;
  }

  /** One block of four: `team1 = [a, b]`, `team2 = [c, d]`. */
  method Consider(ghost roster: seq<Id>, cap: int, ghost limit: int, key: KeyFn,
                  counts: map<Id, int>, seen: set<string>, ms: seq<ScheduledMatch>, a: Id, b: Id, c: Id, d: Id)
    returns (counts': map<Id, int>, seen': set<string>, ms': seq<ScheduledMatch>)
    requires Drawn(roster, cap, limit, key, counts, seen, ms) && |ms| < limit
    requires a in roster && b in roster && c in roster && d in roster
    requires Distinct(roster) ==> Distinct([a, b, c, d])
    ensures Drawn(roster, cap, limit, key, counts', seen', ms')
    ensures Admitted(key, cap, ms, a, b, c, d) ==> ms' == ms + [ScheduledMatch([a, b], [c, d], 1)]
    ensures !Admitted(key, cap, ms, a, b, c, d) ==> ms' == ms
  {
    AdmissionTest(key, cap, counts, seen, ms, a, b, c, d);
    if Count(counts, a) >= cap || Count(counts, b) >= cap || Count(counts, c) >= cap || Count(counts, d) >= cap {
      return counts, seen, ms;
    }
    var k := key(a, b, c, d);
    if k in seen {
      return counts, seen, ms;
    }
    DrawnPush(roster, cap, limit, key, counts, seen, ms, a, b, c, d);
    seen' := seen + {k};
    counts' := BumpFour(counts, a, b, c, d);
    ms' := ms + [ScheduledMatch([a, b], [c, d], 1)];
  }

  /** A permutation of a sequence without repeats has no repeats. */
  lemma DistinctPermutation<T>(s: seq<T>, t: seq<T>)
    requires Distinct(s) && multiset(t) == multiset(s)
    ensures Distinct(t)
  {
    forall j1, j2 | 0 <= j1 < j2 < |t| ensures t[j1] != t[j2] {
      if t[j1] == t[j2] {
        // Impossible: `s` would hold the element twice.
        MultisetRepeat(t, j1, j2);
        var i1, i2 := RepeatPositions(s, t[j1]);
      }
    }
  }

  /** Four consecutive entries of a sequence without repeats are different. */
  lemma BlockDistinct(s: seq<Id>, i: nat)
    requires Distinct(s) && i + 3 < |s|
    ensures Distinct([s[i], s[i + 1], s[i + 2], s[i + 3]])
  {
  }

  // The reference draw, stated on the matchups alone: a block is admitted when
  // its players appear fewer than `cap` times so far and its key is new.

  /** The inner loop as a definition: from position `i`, while fewer than
      `limit` matchups are drawn, each block of four is appended when it is
      admitted against the matchups drawn before it. */
  ghost function SweepFrom(key: KeyFn, cap: int, limit: int, ms: seq<ScheduledMatch>, shuffled: seq<Id>, i: nat)
    : (r: seq<ScheduledMatch>)
    requires forall j | 0 <= j < |ms| :: DoublesShape(ms[j])
    decreases |shuffled| - i
  {
    if i + 3 >= |shuffled| || |ms| >= limit then ms
    else
      var a, b, c, d := shuffled[i], shuffled[i + 1], shuffled[i + 2], shuffled[i + 3];
      var next := if Admitted(key, cap, ms, a, b, c, d) then ms + [ScheduledMatch([a, b], [c, d], 1)] else ms;
      assert forall j | 0 <= j < |next| :: DoublesShape(next[j]);
      SweepFrom(key, cap, limit, next, shuffled, i + 4)
  }

  /** A sweep only appends, and only well-shaped matchups. */
  lemma {:induction false} SweepFromExtends(key: KeyFn, cap: int, limit: int, ms: seq<ScheduledMatch>, shuffled: seq<Id>, i: nat)
    requires forall j | 0 <= j < |ms| :: DoublesShape(ms[j])
    ensures var r := SweepFrom(key, cap, limit, ms, shuffled, i);
            ms <= r && forall j | 0 <= j < |r| :: DoublesShape(r[j])
    decreases |shuffled| - i
  {
    if !(i + 3 >= |shuffled| || |ms| >= limit) {
      var a, b, c, d := shuffled[i], shuffled[i + 1], shuffled[i + 2], shuffled[i + 3];
      var next := if Admitted(key, cap, ms, a, b, c, d) then ms + [ScheduledMatch([a, b], [c, d], 1)] else ms;
      assert forall j | 0 <= j < |next| :: DoublesShape(next[j]);
      SweepFromExtends(key, cap, limit, next, shuffled, i + 4);
    }
  }

  /** Nobody has played and nothing is seen, so the first block of the first
      sweep is always admitted: a roster of four or more draws a matchup. */
  lemma FirstSweepDraws(key: KeyFn, cap: int, limit: int, shuffled: seq<Id>)
    requires cap >= 1 && limit > 0 && |shuffled| >= 4
    ensures |SweepFrom(key, cap, limit, [], shuffled, 0)| >= 1
  {
    var a, b, c, d := shuffled[0], shuffled[1], shuffled[2], shuffled[3];
    assert Admitted(key, cap, [], a, b, c, d) by {
      forall x | x in [a, b, c, d] ensures Appearances([], x) < cap {
      }
    }
    var m := ScheduledMatch([a, b], [c, d], 1);
    assert [] + [m] == [m];
    assert SweepFrom(key, cap, limit, [], shuffled, 0) == SweepFrom(key, cap, limit, [m], shuffled, 4);
    SweepFromExtends(key, cap, limit, [m], shuffled, 4);
  }

  /** The inner `for` loop over one shuffled roster. */
  method Sweep(ghost roster: seq<Id>, cap: int, limit: int, key: KeyFn, shuffled: seq<Id>,
               counts: map<Id, int>, seen: set<string>, ms: seq<ScheduledMatch>)
    returns (counts': map<Id, int>, seen': set<string>, ms': seq<ScheduledMatch>)
    requires multiset(shuffled) == multiset(roster)
    requires Drawn(roster, cap, limit, key, counts, seen, ms)
    ensures Drawn(roster, cap, limit, key, counts', seen', ms')
    ensures ms <= ms'
    ensures ms' == SweepFrom(key, cap, limit, ms, shuffled, 0)
  {
    if Distinct(roster) {
      DistinctPermutation(roster, shuffled);
    }
    counts', seen', ms' := counts, seen, ms;
    var i := 0;
    while i + 3 < |shuffled| && |ms'| < limit
      invariant 0 <= i
      invariant Drawn(roster, cap, limit, key, counts', seen', ms')
      invariant ms <= ms'
      invariant SweepFrom(key, cap, limit, ms', shuffled, i) == SweepFrom(key, cap, limit, ms, shuffled, 0)
      decreases |shuffled| - i
    {
      var a, b, c, d := shuffled[i], shuffled[i + 1], shuffled[i + 2], shuffled[i + 3];
      assert a in multiset(roster) && b in multiset(roster) && c in multiset(roster) && d in multiset(roster);
      if Distinct(roster) {
        BlockDistinct(shuffled, i);
      }
      counts', seen', ms' := Consider(roster, cap, limit, key, counts', seen', ms', a, b, c, d);
      i := i + 4;
    }
  }

  /** No two matchups put the same two teams against each other. */
  predicate NoRepeatedMatchup(ms: seq<ScheduledMatch>) {
    forall j1, j2 | 0 <= j1 < j2 < |ms| :: !SameMatchup(ms[j1].team1, ms[j1].team2, ms[j2].team1, ms[j2].team2)
  }

  lemma PairSeq<T>(t: seq<T>)
    requires |t| == 2
    ensures t == [t[0], t[1]]
  {
  }

  lemma SeparatorFreePlayers(m: ScheduledMatch, roster: seq<Id>)
    requires DoublesShape(m)
    requires forall x | x in Players(m) :: x in roster
    requires forall x | x in roster :: SeparatorFree(x)
    ensures SeparatorFree(m.team1[0]) && SeparatorFree(m.team1[1]) && SeparatorFree(m.team2[0]) && SeparatorFree(m.team2[1])
  {
    assert Players(m) == [m.team1[0], m.team1[1], m.team2[0], m.team2[1]];
  }

  lemma KeysDiffer(m: ScheduledMatch, n: ScheduledMatch)
    requires DoublesShape(m) && DoublesShape(n)
    requires SeparatorFree(m.team1[0]) && SeparatorFree(m.team1[1]) && SeparatorFree(m.team2[0]) && SeparatorFree(m.team2[1])
    requires SeparatorFree(n.team1[0]) && SeparatorFree(n.team1[1]) && SeparatorFree(n.team2[0]) && SeparatorFree(n.team2[1])
    requires KeyOf(MatchupKey, m) != KeyOf(MatchupKey, n)
    ensures !SameMatchup(m.team1, m.team2, n.team1, n.team2)
  {
    PairSeq(m.team1);
    PairSeq(m.team2);
    PairSeq(n.team1);
    PairSeq(n.team2);
    MatchupKeyIff(m.team1[0], m.team1[1], m.team2[0], m.team2[1], n.team1[0], n.team1[1], n.team2[0], n.team2[1]);
  }

  /** With separator-free ids, different keys mean different matchups. */
  lemma DistinctKeysNoRepeat(roster: seq<Id>, ms: seq<ScheduledMatch>)
    requires Shaped(ms, roster) && forall x | x in roster :: SeparatorFree(x)
    requires Distinct(Keys(MatchupKey, ms))
    ensures NoRepeatedMatchup(ms)
  {
    forall j1, j2 | 0 <= j1 < j2 < |ms| ensures !SameMatchup(ms[j1].team1, ms[j1].team2, ms[j2].team1, ms[j2].team2) {
      KeysIndex(MatchupKey, ms, j1);
      KeysIndex(MatchupKey, ms, j2);
      SeparatorFreePlayers(ms[j1], roster);
      SeparatorFreePlayers(ms[j2], roster);
      KeysDiffer(ms[j1], ms[j2]);
    }
  }

  /** The `while` loop: sweeps over successive shuffles until `limit`
      matchups are drawn or the `limit * 30` attempts are spent. The first
      sweep always draws. */
  method DrawMatchups(roster: seq<Id>, cap: int, limit: int, shuffles: seq<seq<Id>>)
    returns (counts: map<Id, int>, seen: set<string>, matchups: seq<ScheduledMatch>)
    requires |roster| >= 4 && limit > 0 && cap >= 1
    requires forall k | 0 <= k < |shuffles| :: multiset(shuffles[k]) == multiset(roster)
    requires |shuffles| >= 30 * limit
    ensures Drawn(roster, cap, limit, MatchupKey, counts, seen, matchups)
    ensures |matchups| >= 1
  {
    counts := map x | x in roster :: 0;
    seen := {};
    matchups := [];
    var attempts := 0;
    while |matchups| < limit && attempts < limit * 30
      invariant 0 <= attempts <= limit * 30
      invariant Drawn(roster, cap, limit, MatchupKey, counts, seen, matchups)
      invariant attempts == 0 ==> matchups == []
      invariant attempts > 0 ==> |matchups| >= 1
      decreases limit * 30 - attempts
    {
      var shuffled := shuffles[attempts];
      counts, seen, matchups := Sweep(roster, cap, limit, MatchupKey, shuffled, counts, seen, matchups);
      if attempts == 0 {
        assert |shuffled| >= 4 by {
          assert |shuffled| == |multiset(shuffled)| == |roster|;
        }
        FirstSweepDraws(MatchupKey, cap, limit, shuffled);
      }
      attempts := attempts + 1;
    }
  }

  method GenerateDoublesPairings(participantIds: seq<Id>, limit: int, shuffles: seq<seq<Id>>) returns (matchups: seq<ScheduledMatch>)
    requires forall k | 0 <= k < |shuffles| :: multiset(shuffles[k]) == multiset(NonEmptyIds(participantIds))
    requires |shuffles| >= 30 * limit
    ensures var roster := NonEmptyIds(participantIds);
            |roster| < 4 || limit <= 0 ==> matchups == []
    ensures |matchups| <= Max(limit, 0)
    ensures Shaped(matchups, NonEmptyIds(participantIds))
    ensures Distinct(Keys(MatchupKey, matchups))
    ensures (forall x | x in NonEmptyIds(participantIds) :: SeparatorFree(x)) ==> NoRepeatedMatchup(matchups)
    ensures var roster := NonEmptyIds(participantIds);
            |roster| >= 4 && limit > 0 ==> Within(matchups, MaxPerPlayer(limit, |roster|) + 3)
    ensures Distinct(NonEmptyIds(participantIds)) ==> forall j | 0 <= j < |matchups| :: Distinct(Players(matchups[j]))
    ensures var roster := NonEmptyIds(participantIds);
            Distinct(roster) && |roster| >= 4 && limit > 0 ==> Within(matchups, MaxPerPlayer(limit, |roster|))
    ensures var roster := NonEmptyIds(participantIds);
            |roster| >= 4 && limit > 0 ==>
              |matchups| >= 1
  {
    var roster := NonEmptyIds(participantIds);
    if |roster| < 4 || limit <= 0 {
      return [];
    }
    var cap := MaxPerPlayer(limit, |roster|);
    var counts, seen;
    counts, seen, matchups := DrawMatchups(roster, cap, limit, shuffles);
    // `matchups.slice(0, limit)` keeps everything: the loop never goes past `limit`.
    if forall x | x in roster :: SeparatorFree(x) {
      DistinctKeysNoRepeat(roster, matchups);
    }
  }
}
