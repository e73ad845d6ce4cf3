# Lab Pong Tracker: tournament scheduling, standings and match rules in Dafny

This project models the pure core of Lab Pong Tracker, a table-tennis league tracker. It covers:

- the tournament service (src/server/tournament-service.ts):
  - the score check;
  - the group draw;
  - the circle-method round robin;
  - the budget-limited singles schedule;
  - the competitive singles and doubles schedules;
  - the randomised doubles generator;
  - the standings ranker with shared ranks;
  - the checks run before a tournament's structure is rewritten.
- the zod match schemas (src/lib/validators.ts);
- the legacy `isValidScore` and multi-key `sortBy` (server/util.js);
- duplicate-name labelling (src/utils/name-format.ts);
- the player-profile rules of src/server/user-utils.ts:
  - rating seeds;
  - the display-name check;
  - the handle format.

Each operation is a pure function or a short method over immutable datatypes. Each has a partner: a reference definition, an invariant or a second operation, with a lemma that links them.

Modules, one per file:

- `Outcomes`: `Option` and `Result`.
- `Seqs`: `Distinct`, `Flatten`, `Filter`, `Map`, `Occurrences` and their lemmas.
- `Strings`: ECMAScript `trim`, ASCII `toLowerCase`, UTF-16 `length`, the code-unit order of `<` and `sort()`, and `join`.
- `StableSort`: `Array.prototype.sort` as a stable insertion sort, with its stability and the uniqueness of sorted permutations.
- `Schedule`: shared types, plus the predicates "no repeated pairing" and "no player twice".
- `CircleArithmetic` and `RoundRobin`: `roundRobinRounds`.
- `GroupDraw`: `distributeIntoGroups`.
- `SinglesPairings`: `generateSinglesPairings`.
- `Competitive`: both competitive schedules.
- `DoublesPairings`: `generateDoublesPairings`.
- `Placements`: `canonicalTeamKey` and `calculatePlacementsForGroup`.
- `ScoreRules`: `assertScoreValid`.
- `StructureUpdate`: the validation part of `updateTournamentStructure`.
- `Validators`, `LegacyUtil`, `NameFormat` and `UserUtils`: the other four source files.

Modelling conventions:

- Strings are sequences of Unicode characters. `length`, `<`, `>` and the default `sort()` work on their UTF-16 encoding, so a character beyond U+FFFF counts as two code units.
- JavaScript numbers that may be fractional are `real`, and `Number.isInteger(x)` is `x.Floor as real == x`. Counts and indices are `int`/`nat`.
- A comparator `cmp` handed to `sort` becomes the relation `cmp(a, b) <= 0`. The sort is stable, as ECMAScript has required since 2019.
- Randomness is an input. `generateDoublesPairings` receives the sequence of shuffles it would have drawn, and its properties hold for any such sequence.
- Data the service loads from the database is a parameter, e.g. `StructureUpdate.Stored`.

## Model

| member | source | states |
|---|---|---|
| ScoreRules.AssertScoreValid | src/server/tournament-service.ts:101-116 | The check passes exactly for a finished game. It fails with the integer error exactly when a score is fractional or negative, with the draw error exactly for equal valid scores, and with the target or margin errors only when the winner is below the target or the lead is below the margin. |
| ScoreRules.AssertScoreValidDefault | src/server/tournament-service.ts:101 | With defaults 11 and 2, the check passes exactly for a game finished to 11 by 2. |
| ScoreRules.AssertScoreValidSymmetric | src/server/tournament-service.ts:101-116 | Swapping the two scores never changes the verdict or the error. |
| GroupDraw.JsSlice | src/server/tournament-service.ts:831 | `slice` within bounds is the subsequence, and never longer than its input. |
| GroupDraw.HandedTotal | src/server/tournament-service.ts:828-832 | Handing out `count` groups with the remainder spread one apiece uses `count * base + remainder` players. |
| GroupDraw.DistributeIntoGroups | src/server/tournament-service.ts:818-838 | One group per label, in label order, named by its label. |
| GroupDraw.GroupSizes | src/server/tournament-service.ts:824-830 | Group `i` has `n / k + 1` members when `i < n % k`, else `n / k`. |
| GroupDraw.GroupsPartitionRoster | src/server/tournament-service.ts:826-836 | Concatenating the groups in order gives back the roster exactly. |
| GroupDraw.GroupSizesBalanced | src/server/tournament-service.ts:824-830 | Two groups differ in size by at most one. |
| RoundRobin.RoundRobinRounds | src/server/tournament-service.ts:1076-1108 | No rounds for at most one player; otherwise `n - 1` rounds for even `n` and `n` rounds for odd `n`. |
| RoundRobin.RoundsWellFormed | src/server/tournament-service.ts:1090-1104 | In every round no player appears twice, `BYE` never appears, and both sides are roster players. |
| RoundRobin.RoundsCoverEveryPair | src/server/tournament-service.ts:1090-1105 | Any two distinct players meet in some round. |
| RoundRobin.RoundsMeetOnce | src/server/tournament-service.ts:1090-1105 | Two players meet in at most one round. |
| RoundRobin.RoundLength | src/server/tournament-service.ts:1085-1101 | Every round has `n / 2` pairings. The bye, if any, drops one slot. |
| RoundRobin.RoundsTotal | src/server/tournament-service.ts:1076-1108 | The rounds hold `C(n, 2)` pairings in all. |
| RoundRobin.ScheduleNoRepeat | src/server/tournament-service.ts:1076-1108 | No unordered pair occurs twice in the flattened schedule. |
| CircleArithmetic.SlotExists | src/server/tournament-service.ts:1092-1097 | Every pair of distinct positions of the padded list faces off in some round of the rotation. |
| CircleArithmetic.SlotUnique | src/server/tournament-service.ts:1092-1097 | No two slots, in one round or in different rounds, hold the same two positions. |
| CircleArithmetic.SlotsDisjoint | src/server/tournament-service.ts:1092-1097 | Within a round, distinct slots use distinct positions. |
| SinglesPairings.IndexOf | src/server/tournament-service.ts:1061 | `indexOf` returns the first position of the id, or -1 exactly when the id is absent. |
| SinglesPairings.Pick | src/server/tournament-service.ts:1052-1064 | Sorting by (max count, count sum, home index) and shifting yields a pairing whose key is no larger than any other's. The rest is the remaining multiset. |
| SinglesPairings.DrawGreedily | src/server/tournament-service.ts:1050-1070 | A partial round takes exactly the remaining capacity, from that round's pairings. Every pick has the least (max count, count sum, home index) key among the pairings still available, with the counts as the earlier picks left them. |
| SinglesPairings.PairingsFromRounds | src/server/tournament-service.ts:1033-1071 | Exactly `maxMatches` matches, each a one-player-per-side match of iteration 1. They are the whole rounds that fit, in order, followed by a greedy draw from the next round that takes fewer pairings than it has. With the budget at least the schedule size, the result is the whole schedule in order. |
| SinglesPairings.GenerateSinglesPairings | src/server/tournament-service.ts:1025-1074 | `[]` for fewer than 2 ids or no budget. Otherwise, for distinct ids, `min(limit, C(n, 2))` matches: iteration 1, one player a side, two different players, no pair repeated. |
| SinglesPairings.SinglesPairingsFacts | src/server/tournament-service.ts:1025-1074 | Any selection from the round robin of the stated size has `min(limit, C(n, 2))` matches, repeats no pair and pits nobody against themselves. |
| Competitive.Oriented | src/server/tournament-service.ts:850-855 | Odd iterations keep home as team 1; even ones swap the sides. The match records its iteration. |
| Competitive.CompetitiveSingles | src/server/tournament-service.ts:840-861 | Every match carries an iteration in `1..iterations`. |
| Competitive.CompetitiveSinglesLength | src/server/tournament-service.ts:840-861 | `[]` when fewer than two non-empty ids remain or `iterations < 1`; otherwise one match per pairing per iteration. |
| Competitive.CompetitiveSinglesAt | src/server/tournament-service.ts:849-858 | Match `b * P + j` is pairing `j` of the round robin in iteration `b + 1`, oriented by that iteration's parity. |
| Competitive.CompetitiveSinglesCount | src/server/tournament-service.ts:840-861 | The schedule has `iterations * C(n, 2)` matches, each with an iteration in `1..iterations`. |
| Competitive.WithIds | src/server/tournament-service.ts:867 | Exactly the participants with a non-empty id are kept. |
| Competitive.LabelIndex | src/server/tournament-service.ts:886 | The label map returns a position holding the label, and nothing exactly for unknown labels. |
| Competitive.TeamLabelsDistinct | src/server/tournament-service.ts:885 | The labels `T0`, `T1`, … are distinct and never `BYE`. |
| Competitive.DoublesTeamsRanked | src/server/tournament-service.ts:875-883 | The list is sorted by rating, descending, with 1500 for a missing rating. Team `i` is `[sorted[i], sorted[n-1-i]]`, and its first member rates at least as high as its second. |
| Competitive.DoublesTeamsCover | src/server/tournament-service.ts:875-883 | The teams together hold every participant exactly once. |
| Competitive.DoublesSortStable | src/server/tournament-service.ts:875 | Participants with equal ratings keep their input order in the rating-sorted list. |
| Competitive.CompetitiveDoubles | src/server/tournament-service.ts:863-873 | The schedule is refused exactly for an odd count of 4 or more participants with an id and at least one iteration, with the source's message. |
| Competitive.CompetitiveDoublesAt | src/server/tournament-service.ts:885-905 | Match `b * P + j` pits team `h` against team `a`, the teams whose labels are pairing `j` of the round robin, in iteration `b + 1`, oriented by that iteration's parity. |
| Competitive.CompetitiveDoublesIterations | src/server/tournament-service.ts:890-905 | Every match carries an iteration in `1..iterations`. |
| Competitive.CompetitiveDoublesOutcome | src/server/tournament-service.ts:863-908 | `[]` for fewer than 4 participants or `iterations < 1`. The odd-count error for an odd count of 4 or more. Otherwise `iterations * C(n / 2, 2)` matches. |
| DoublesPairings.MaxPerPlayer | src/server/tournament-service.ts:1114 | The quota is at least 1, and is the least such value whose product with `n` reaches `4 * limit`. |
| DoublesPairings.CeilDivBounds | src/server/tournament-service.ts:1114 | `ceil(a / b)` is the least multiple count covering `a`. |
| DoublesPairings.Order2 | src/server/tournament-service.ts:1128 | Sorting two ids gives the same two ids in UTF-16 code-unit order. |
| DoublesPairings.Order2Canonical | src/server/tournament-service.ts:1128 | Two ids sort to the same pair whatever order they came in. |
| DoublesPairings.TeamKeyInjective | src/server/tournament-service.ts:1128 | For ids without `:` or `\|`, equal team keys mean the same two players. |
| DoublesPairings.MatchupKeyIff | src/server/tournament-service.ts:1128 | For ids without `:` or `\|`, two matchups have the same canonical key exactly when they are the same two teams, in either order and with either player order. |
| DoublesPairings.AdmissionTest | src/server/tournament-service.ts:1125-1131 | A draw is admitted exactly when all four players are under quota and its key is unseen. |
| DoublesPairings.Consider | src/server/tournament-service.ts:1122-1138 | An admitted draw is appended as a 2-on-2 match of iteration 1 and the counters stay exact; a rejected one changes nothing. |
| DoublesPairings.Sweep | src/server/tournament-service.ts:1121-1138 | One pass over a shuffle keeps every invariant of the draw and only appends. The result is the reference sweep: each block of four, while under `limit`, is appended exactly when its players have played fewer than `maxPerPlayer` matchups so far and its key is new. |
| DoublesPairings.FirstSweepDraws | src/server/tournament-service.ts:1121-1138 | Before anything is drawn, the first block of a shuffle of four or more is always admitted. |
| DoublesPairings.DrawMatchups | src/server/tournament-service.ts:1120-1139 | The attempt loop keeps the draw's invariants and, with a roster of four or more and a positive limit, draws at least one matchup. |
| DoublesPairings.DistinctKeysNoRepeat | src/server/tournament-service.ts:1128-1132 | Distinct canonical keys mean no matchup is repeated. |
| DoublesPairings.GenerateDoublesPairings | src/server/tournament-service.ts:1110-1142 | `[]` for fewer than 4 ids or no budget; never more than `limit` matchups. Every matchup is 2-on-2 from the roster, no canonical key repeats, and nobody plays more than `max(1, ceil(4 * limit / n))` times when ids are distinct. With four or more ids and a positive limit at least one matchup is drawn. |
| Schedule.NonEmptyIds | src/server/tournament-service.ts:1111 | `filter(Boolean)` keeps exactly the non-empty ids. |
| Placements.CanonicalTeamKeyOrderFree | src/server/tournament-service.ts:910-912 | The key and the sorted ids do not depend on the order the ids were listed in. |
| Placements.Ensure | src/server/tournament-service.ts:935-948 | An entry is added, blank, only when its key is new; the rest is unchanged. |
| Placements.Credit | src/server/tournament-service.ts:964-977 | Only the entry with the given key changes, by adding the given line. |
| Placements.TalliesMatchReference | src/server/tournament-service.ts:950-978 | One entry per key. In singles the keys are the registered players' plus the teams of the matchups; in doubles only the teams. Each entry's counters equal the sum over played matchups with a result. |
| Placements.StandingsConserve | src/server/tournament-service.ts:964-977 | Summed wins equal summed losses, summed points for equal summed points against, and games played sum to twice the counted matches. |
| Placements.TalliesBounds | src/server/tournament-service.ts:964-977 | Counters are non-negative and `wins + losses <= matchesPlayed`, with equality when no counted result is a draw. |
| Placements.BeforeMeans | src/server/tournament-service.ts:991-997 | The comparator puts more wins first, then the better differential, then more points, and breaks ties by joined team ids. |
| Placements.BeforeTotalOrder | src/server/tournament-service.ts:991-997 | On entries with distinct keys the comparator is a total order. |
| Placements.StandingsSorted | src/server/tournament-service.ts:980-997 | The standings are sorted under the comparator and are a permutation of the entries. |
| Placements.StandingsUnique | src/server/tournament-service.ts:991-997 | Any sorted arrangement of the entries is the standings, so the order does not depend on the order teams were first met. |
| Placements.AssignRanks | src/server/tournament-service.ts:999-1020 | Only ranks change. Each rank is one more than the index where its block of equal signatures begins. |
| Placements.CompetitionRank | src/server/tournament-service.ts:999-1020 | In sorted standings, the block start equals the number of placements strictly ahead. |
| Placements.CalculatePlacementsForGroup | src/server/tournament-service.ts:923-1023 | The standings in order, each ranked one more than the number of teams with a strictly better (wins, differential, points) signature. Ties share a rank, and ranks skip after them. |
| StructureUpdate.CheckMembersMeans | src/server/tournament-service.ts:378-386 | A group's members pass exactly when all are registered, none was seen before, and none is listed twice. The seen set grows by them. |
| StructureUpdate.CheckGroupsMeans | src/server/tournament-service.ts:372-388 | The group checks pass exactly when every group exists, every member is registered, and nobody is listed twice anywhere. |
| StructureUpdate.AssignmentAfter | src/server/tournament-service.ts:367-391 | The assignment after the update has the stored groups' keys plus the updated ids. |
| StructureUpdate.AssignmentAfterUntouched | src/server/tournament-service.ts:367-391 | A group the update does not mention keeps its stored members. |
| StructureUpdate.AssignmentAfterLastWins | src/server/tournament-service.ts:389-391 | A mentioned group gets the members of its last entry. |
| StructureUpdate.CheckPlayersMeans | src/server/tournament-service.ts:409-416 | The player loop passes exactly when every player is registered and in the group. |
| StructureUpdate.CheckMatchMeans | src/server/tournament-service.ts:397-416 | A match passes exactly when its group is stored, the teams share no player, both teams have the mode's size, and all players are registered members of the group after the update. |
| StructureUpdate.CheckMatchesMeans | src/server/tournament-service.ts:396-418 | The match checks pass exactly when every match is sound. |
| StructureUpdate.ValidateStructureUpdate | src/server/tournament-service.ts:365-418 | Without group updates an accepted assignment is the stored one. With neither groups nor matches the update is accepted unchanged. |
| StructureUpdate.ValidateStructureUpdateMeans | src/server/tournament-service.ts:365-418 | The update is accepted exactly when the assignments are sound and every match is sound against the assignment after the update. The accepted assignment covers exactly the stored groups. |
| StructureUpdate.AcceptedGroupsDisjoint | src/server/tournament-service.ts:373-386 | After an accepted update no player is in two updated groups. |
| Validators.ParseScore | src/lib/validators.ts:3-8 | The score object parses exactly when the target is an integer in 1..21 (default 11), the margin an integer in 1..5 (default 2), and both scores integers of at least 0. Parsed values equal the inputs, and a failure lists exactly the failing fields. |
| Validators.ParseScoreDefaults | src/lib/validators.ts:4-5 | With only the scores given, the target is 11 and the margin 2. |
| Validators.IsCuid | src/lib/validators.ts:14-15 | A cuid starts with `c` or `C`, is at least nine UTF-16 code units (so at least five characters) long, and holds no `-`. |
| Validators.CuidCountsCodeUnits | src/lib/validators.ts:14-15 | A `c` and four characters beyond U+FFFF is a cuid: the length is counted in code units. |
| Validators.FieldsOk | src/lib/validators.ts:11-23 | Well-formed fields mean a location of at most 120 and a note of at most 280 characters, and player ids of at least five characters without `-`. |
| Validators.RefinementsMean | src/lib/validators.ts:24-51 | Each issue is reported exactly when its condition holds: equal scores, a shared player, both scores below the target, a lead below the margin either way, and a team of the wrong size for the mode. |
| Validators.MatchPayloadValid | src/lib/validators.ts:10-51 | A valid payload is not a draw and has a player on each team. |
| Validators.MatchPayloadValidMeans | src/lib/validators.ts:10-51 | A payload is valid exactly when its fields are well formed, it is not a draw, and no player is on both teams. The winner must reach the target (default 11) by the margin (default 2), with one player a side in singles and two in doubles. |
| Validators.ValidPayloadFinishedGame | src/lib/validators.ts:24-40 | A valid payload with non-negative scores passes the tournament service's score check with the same target and margin. |
| Validators.ValidPayloadTeamsDisjoint | src/lib/validators.ts:27-29 | The teams of a valid payload are disjoint. |
| LegacyUtil.IsValidScore | server/util.js:34-41 | A score is valid exactly when both scores are integers, one reaches the target and one leads the other by the margin. |
| LegacyUtil.IsValidScoreSymmetric | server/util.js:34-41 | The legacy check is symmetric in the two scores. |
| LegacyUtil.IsValidScoreNoDraw | server/util.js:39 | With a positive margin, equal scores are rejected. |
| LegacyUtil.ValidatorsAgree | server/util.js:34-41 | With a positive margin, the service's score check accepts exactly the non-negative scores the legacy check accepts. |
| LegacyUtil.LegacyAcceptsNegativeScore | server/util.js:34-41 | The legacy check accepts -1 to 11, which the service's check rejects. |
| LegacyUtil.SortBy | server/util.js:1-21 | A non-array gives `[]`. The result is a permutation of the input, and without iteratees it is an unchanged copy. |
| LegacyUtil.CompareLexicographic | server/util.js:7-20 | On keys of matching kinds, the comparator is non-positive exactly when the key tuples are lexicographically ordered. |
| LegacyUtil.ByKeysPreorder | server/util.js:7-21 | With uniform key kinds the comparator is a total preorder. |
| LegacyUtil.SortByOrdered | server/util.js:1-21 | With uniform key kinds the result is ordered by its key tuples: earlier iteratees dominate and later ones break ties. |
| LegacyUtil.SortByStable | server/util.js:1-21 | With uniform key kinds, elements with equal key tuples come out in their input order. |
| StableSort.SortStable | server/util.js:7-21 | Elements the comparator ties come out of the sort in their input order. |
| NameFormat.CountRepeated | src/utils/name-format.ts:6-15 | Counting keys into a map and keeping those counted more than once gives exactly the keys occurring more than once. |
| NameFormat.FindDuplicateDisplayNames | src/utils/name-format.ts:5-16 | A key is returned exactly when more than one name trims and lower-cases to it, and every returned key is some name's key. |
| NameFormat.DuplicatesOrderFree | src/utils/name-format.ts:5-16 | The duplicates do not depend on the order of the names. |
| NameFormat.FormatDisplayLabel | src/utils/name-format.ts:18-24 | A name whose key is not a duplicate is returned unchanged. Otherwise the label is `name (@handle)`. |
| NameFormat.LabelDeterminesHandle | src/utils/name-format.ts:21 | A label `name (@handle)` determines its handle when handles hold no `@`. |
| NameFormat.LabelsDisambiguate | src/utils/name-format.ts:18-24 | Clashing names with different `@`-free handles get different labels. |
| UserUtils.ComputeInitialRatings | src/server/user-utils.ts:104-144 | The overall rating is the given one or 1500. Each mode's rating is its own value, else the overall rating. |
| UserUtils.OverallPrecedence | src/server/user-utils.ts:104-110 | The overall rating, deviation and volatility are the given values; without them the rating is 1500 and the deviation and volatility are 100 / 0.04 when an overall rating was given, else 350 / 0.06. |
| UserUtils.SuppliedRatingsTrusted | tests/user-utils.test.ts:79-84 | An overall 1700 with a singles 1750 gives the overall seed 1700 with deviation 100, and singles deviation 100. |
| UserUtils.NoInputDefaults | src/server/user-utils.ts:3-5 | With no input every mode starts at 1500 / 350 / 0.06. |
| UserUtils.BaseRatingTrusted | src/server/user-utils.ts:105-111 | A given overall rating alone gives every mode that rating with deviation 100 and volatility 0.04. |
| UserUtils.ModesFollowOverall | src/server/user-utils.ts:113-125 | A mode with no inputs of its own starts at the overall seed. |
| UserUtils.SinglesPrecedence | src/server/user-utils.ts:113-118 | Singles rating, deviation and volatility take the singles value, else the overall value, else trusted values when a singles or overall rating was given, else the defaults. |
| UserUtils.DoublesPrecedence | src/server/user-utils.ts:120-125 | The doubles seed follows the same precedence with the doubles inputs. |
| UserUtils.ModesIndependent | src/server/user-utils.ts:113-125 | Singles inputs never change the doubles seed, and the other way round. |
| UserUtils.ValidateDisplayName | src/server/user-utils.ts:69-78 | The empty-name error exactly when the trimmed name is empty, the too-long error exactly when it exceeds 80 UTF-16 code units, and otherwise the trimmed name, with no white space at either end. |
| UserUtils.AstralNameTooLong | src/server/user-utils.ts:74 | 41 characters beyond U+FFFF are rejected as too long, since they are 82 code units. |
| UserUtils.ValidateDisplayNameIdempotent | src/server/user-utils.ts:69-78 | An accepted name is accepted again, unchanged. |
| UserUtils.MatchHandle | src/server/user-utils.ts:67 | The scan accepts exactly the handles: 3 to 32 characters, `[a-z0-9]` at both ends and `[a-z0-9-_]` between. |
| UserUtils.IsHandle | src/server/user-utils.ts:67 | A handle is ASCII. |
| UserUtils.HandleLengthInUnits | src/server/user-utils.ts:67 | A handle's length in code units is its number of characters, 3 to 32. |
| UserUtils.HandleHasNoAt | src/server/user-utils.ts:67 | A handle never contains `@`. |
| UserUtils.HandleLowerCase | src/server/user-utils.ts:67 | A handle is already lower case. |

## Left out

- The Glicko-2 and Elo rating engines (src/lib/glicko2.ts, server/rating.js). They are floating-point numerics whose root-finding loop has no bound.
- Database, transaction and HTTP plumbing. This covers `createTournament`, the writes of `updateTournamentStructure`, `reportTournamentMatch`, `getTournamentDetail`, the route handlers and the UI. Only the pure helpers they call are modelled. The loaded tournament is a parameter.
- `generateUniqueUsername`, the slug functions, and `normalizeUsername` beyond its regex check. These need database lookups, `Math.random` and Unicode property classes.
- Unicode NFC normalisation in `normalizeDisplayName` is the identity.
- `toLowerCase` maps only ASCII letters.
- `localeCompare` in the placement tie-break is plain UTF-16 code-unit order, with no locale collation.
- `Math.random` in `generateDoublesPairings` is replaced by an input sequence of shuffles.
- DoublesPairings.GenerateDoublesPairings: the loop over shuffles is stated per sweep (each sweep is `SweepFrom`) and as drawing at least one matchup, not as a single fold over all shuffles, because that reference beside the draw's invariants is too costly to verify.
- DoublesPairings.GenerateDoublesPairings: it requires at least `30 * limit` shuffles, one per attempt the source can make. The per-player quota is proved for distinct ids only; with a repeated id the bound is quota + 3.
- DoublesPairings.MatchupKeyIff: the converse of "same key means same matchup" assumes no id contains `:` or `|`. The source builds keys by joining ids with those characters, so ids that contain them can collide.
- NaN and Infinity are not modelled; JavaScript numbers are reals.
- LegacyUtil.SortBy: ordering is proved only when each iteratee yields numbers for all elements or strings for all. In a mixed comparison the string is taken as `NaN`, so both `>` tests fail. Numeric strings are not converted to numbers.
- LegacyUtil.IsValidScore takes `target` and `winBy` explicitly; JavaScript's default parameters (11 and 2) are left to the caller.
- Validators.MatchPayloadValidMeans: the zod type checks are the datatype's field types. zod's ISO date-time check is a parameter. zod's `cuid()` is its regular expression `^c[^\s-]{8,}$`, case-insensitive. Only validity and the refinement issues are modelled, not zod's per-field issue lists.
- Placements: the accumulation proofs take the team key as a function parameter. They then apply it to `canonicalTeamKey`.
- SinglesPairings.GenerateSinglesPairings: the test claim that per-player match counts differ by at most one is not proved.
- The code is followed where tests disagree with it. tests/tournament-service.test.ts:30-45 expects a serpentine group draft, but `distributeIntoGroups` slices contiguously. tests/tournament-service.test.ts:164 expects pairings without an `iteration` field.
