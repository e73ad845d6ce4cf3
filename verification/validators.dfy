/** The zod schemas of src/lib/validators.ts: the bounds of `scoreSchema` and
    the rules of `matchPayloadSchema`, as predicates over already-typed input.
    JavaScript numbers are reals; an absent optional field is `None`. */
module Validators {
  import opened Outcomes
  import opened ScoreRules
  import opened Strings

  // scoreSchema.

  datatype ScoreInput = ScoreInput(
    targetPoints: Option<real>, winByMargin: Option<real>, team1Score: real, team2Score: real)

  /** The parsed object, defaults filled in. */
  datatype ScoreSettings = ScoreSettings(targetPoints: int, winByMargin: int, team1Score: int, team2Score: int)

  /** The fields of `scoreSchema`, in declaration order. */
  datatype ScoreField = TargetPointsField | WinByMarginField | Team1ScoreField | Team2ScoreField

  /** `z.number().int().min(lo).max(hi)`; `hi` is `None` when there is no maximum. */
  predicate IntInRange(x: real, lo: int, hi: Option<int>) {
    IsInteger(x) && x >= lo as real && (hi.None? || x <= hi.value as real)
  }

  /** The value a field takes: an absent value becomes the `.default(...)`. */
  function FieldValue(input: ScoreInput, f: ScoreField): real {
    match f
    case TargetPointsField => input.targetPoints.OrElse(11.0)
    case WinByMarginField => input.winByMargin.OrElse(2.0)
    case Team1ScoreField => input.team1Score
    case Team2ScoreField => input.team2Score
  }

  predicate FieldOk(input: ScoreInput, f: ScoreField) {
    match f
    case TargetPointsField => IntInRange(FieldValue(input, f), 1, Some(21))
    case WinByMarginField => IntInRange(FieldValue(input, f), 1, Some(5))
    case Team1ScoreField => IntInRange(FieldValue(input, f), 0, None)
    case Team2ScoreField => IntInRange(FieldValue(input, f), 0, None)
  }

  /** `scoreSchema.safeParse`: the settings, or the fields that fail, in order. */
  function ParseScore(input: ScoreInput): (r: Result<ScoreSettings, seq<ScoreField>>)
    ensures r.Ok? <==>
              && IntInRange(input.targetPoints.OrElse(11.0), 1, Some(21))
              && IntInRange(input.winByMargin.OrElse(2.0), 1, Some(5))
              && IntInRange(input.team1Score, 0, None)
              && IntInRange(input.team2Score, 0, None)
    ensures r.Ok? ==>
              && r.value.targetPoints as real == input.targetPoints.OrElse(11.0)
              && r.value.winByMargin as real == input.winByMargin.OrElse(2.0)
              && r.value.team1Score as real == input.team1Score
              && r.value.team2Score as real == input.team2Score
              && 1 <= r.value.targetPoints <= 21 && 1 <= r.value.winByMargin <= 5
              && 0 <= r.value.team1Score && 0 <= r.value.team2Score
    ensures r.Err? ==> |r.error| > 0 && forall f :: f in r.error <==> !FieldOk(input, f)
  {
    var failing :=
      (if FieldOk(input, TargetPointsField) then [] else [TargetPointsField])
      + (if FieldOk(input, WinByMarginField) then [] else [WinByMarginField])
      + (if FieldOk(input, Team1ScoreField) then [] else [Team1ScoreField])
      + (if FieldOk(input, Team2ScoreField) then [] else [Team2ScoreField]);
    if |failing| == 0 then
      Ok(ScoreSettings(
        FieldValue(input, TargetPointsField).Floor, FieldValue(input, WinByMarginField).Floor,
        input.team1Score.Floor, input.team2Score.Floor))
    else
      Err(failing)
  }

  /** With nothing but the two scores given, the defaults 11 and 2 apply. */
  lemma ParseScoreDefaults(team1Score: int, team2Score: int)
    requires team1Score >= 0 && team2Score >= 0
    ensures ParseScore(ScoreInput(None, None, team1Score as real, team2Score as real)) ==
            Ok(ScoreSettings(11, 2, team1Score, team2Score))
  {
    var r := ParseScore(ScoreInput(None, None, team1Score as real, team2Score as real));
    assert IsInteger(team1Score as real) && IsInteger(team2Score as real);
    assert IsInteger(11.0) && IsInteger(2.0);
    assert r.Ok?;
  }

  // matchPayloadSchema.

  /** The submitted match, with the types the object schema demands. */
  datatype MatchPayload = MatchPayload(
    matchType: string, seasonId: Option<string>,
    team1: seq<string>, team2: seq<string>,
    team1Score: real, team2Score: real,
    targetPoints: Option<real>, winByMargin: Option<real>,
    playedAt: Option<string>, location: Option<string>, note: Option<string>)

  /** zod's `cuid()` check: a `c` (either case) followed by at least eight
      UTF-16 code units, none of them white space (the regular-expression
      class `\s`, the same code points `trim` removes) or `-`. A character
      beyond U+FFFF is two such units. */
  predicate IsCuid(s: string): (r: bool)
    ensures r ==> 5 <= |s| && Utf16Length(s) >= 9 && (s[0] == 'c' || s[0] == 'C') && '-' !in s
  {
    && |s| >= 1 && Utf16Length(s) >= 9
    && (s[0] == 'c' || s[0] == 'C')
    && forall k | 1 <= k < |s| :: !IsJsWhitespace(s[k]) && s[k] != '-'
  }

  /** A `c` and four characters beyond U+FFFF make nine code units: a cuid to
      zod, though only five characters long. */
  lemma CuidCountsCodeUnits()
    ensures var s := ['c'] + seq(4, _ => 0x1F600 as char);
            |s| == 5 && IsCuid(s)
  {
    var s := ['c'] + seq(4, _ => 0x1F600 as char);
    Utf16LengthAstral(s[1..]);
    assert Utf16(s) == CodeUnits('c') + Utf16(s[1..]);
  }

  /** The field checks of the object schema. `isDatetime` is zod's ISO
      date-time format check, taken as given. */
  predicate FieldsOk(p: MatchPayload, isDatetime: string -> bool): (r: bool)
    ensures r ==> (p.location.None? || |p.location.value| <= 120) && (p.note.None? || |p.note.value| <= 280)
    ensures r ==> forall x | x in p.team1 + p.team2 :: 5 <= |x| && '-' !in x
  {
    && (p.matchType == "SINGLES" || p.matchType == "DOUBLES")
    && |p.team1| > 0 && (forall k | 0 <= k < |p.team1| :: IsCuid(p.team1[k]))
    && |p.team2| > 0 && (forall k | 0 <= k < |p.team2| :: IsCuid(p.team2[k]))
    && IsInteger(p.team1Score) && IsInteger(p.team2Score)
    && (p.targetPoints.None? || IsInteger(p.targetPoints.value))
    && (p.winByMargin.None? || IsInteger(p.winByMargin.value))
    && (p.playedAt.None? || isDatetime(p.playedAt.value))
    && (p.location.None? || Utf16Length(p.location.value) <= 120)
    && (p.note.None? || Utf16Length(p.note.value) <= 280)
  }

  /** The problems the refinements report, each with the source's message. */
  datatype PayloadIssue =
    | DrawIssue
    | SharedPlayer
    | TargetNotReached
    | MarginNotReached
    | SinglesTeamSize
    | DoublesTeamSize

  /** The issue a failing refinement adds, or nothing. */
  function Flag(failed: bool, issue: PayloadIssue): (r: seq<PayloadIssue>)
    ensures forall x :: x in r <==> failed && x == issue
  {
    if failed then [issue] else []
  }

  /** The `.refine` and `.superRefine` steps, in the order they add issues. */
  function Refinements(p: MatchPayload): seq<PayloadIssue> {
    var target := p.targetPoints.OrElse(11.0);
    var winBy := p.winByMargin.OrElse(2.0);
    var maxScore := MaxR(p.team1Score, p.team2Score);
    var minScore := MinR(p.team1Score, p.team2Score);
    Flag(p.team1Score == p.team2Score, DrawIssue)
    + Flag(!(forall k | 0 <= k < |p.team1| :: p.team1[k] !in p.team2), SharedPlayer)
    + Flag(maxScore < target, TargetNotReached)
    + Flag(maxScore - minScore < winBy, MarginNotReached)
    + Flag(p.matchType == "SINGLES" && (|p.team1| != 1 || |p.team2| != 1), SinglesTeamSize)
    + Flag(p.matchType == "DOUBLES" && (|p.team1| != 2 || |p.team2| != 2), DoublesTeamSize)
  }

  /** Each issue is reported exactly when its condition holds: equal scores,
      a player on both teams, neither score reaching the target, a margin
      short of `winBy` either way, and a team of the wrong size for the mode. */
  lemma RefinementsMean(p: MatchPayload)
    ensures DrawIssue in Refinements(p) <==> p.team1Score == p.team2Score
    ensures SharedPlayer in Refinements(p) <==> exists x :: x in p.team1 && x in p.team2
    ensures TargetNotReached in Refinements(p) <==>
              p.team1Score < p.targetPoints.OrElse(11.0) && p.team2Score < p.targetPoints.OrElse(11.0)
    ensures MarginNotReached in Refinements(p) <==>
              p.team1Score - p.team2Score < p.winByMargin.OrElse(2.0) && p.team2Score - p.team1Score < p.winByMargin.OrElse(2.0)
    ensures SinglesTeamSize in Refinements(p) <==> p.matchType == "SINGLES" && (|p.team1| != 1 || |p.team2| != 1)
    ensures DoublesTeamSize in Refinements(p) <==> p.matchType == "DOUBLES" && (|p.team1| != 2 || |p.team2| != 2)
  {
    var target := p.targetPoints.OrElse(11.0);
    var winBy := p.winByMargin.OrElse(2.0);
    var maxScore := MaxR(p.team1Score, p.team2Score);
    var minScore := MinR(p.team1Score, p.team2Score);
    var shared := !(forall k | 0 <= k < |p.team1| :: p.team1[k] !in p.team2);
    var draw, short, close := p.team1Score == p.team2Score, maxScore < target, maxScore - minScore < winBy;
    var singles := p.matchType == "SINGLES" && (|p.team1| != 1 || |p.team2| != 1);
    var doubles := p.matchType == "DOUBLES" && (|p.team1| != 2 || |p.team2| != 2);
    assert Refinements(p) == Flag(draw, DrawIssue) + Flag(shared, SharedPlayer) + Flag(short, TargetNotReached)
                             + Flag(close, MarginNotReached) + Flag(singles, SinglesTeamSize) + Flag(doubles, DoublesTeamSize);
    FlagsMean(DrawIssue, draw, shared, short, close, singles, doubles);
    FlagsMean(SharedPlayer, draw, shared, short, close, singles, doubles);
    FlagsMean(TargetNotReached, draw, shared, short, close, singles, doubles);
    FlagsMean(MarginNotReached, draw, shared, short, close, singles, doubles);
    FlagsMean(SinglesTeamSize, draw, shared, short, close, singles, doubles);
    FlagsMean(DoublesTeamSize, draw, shared, short, close, singles, doubles);
    assert shared <==> exists x :: x in p.team1 && x in p.team2 by {
      if exists x :: x in p.team1 && x in p.team2 {
        var x :| x in p.team1 && x in p.team2;
        var k :| 0 <= k < |p.team1| && p.team1[k] == x;
      }
    }
  }

  /** Which issues six refinement outcomes add, one issue per refinement. */
  lemma FlagsMean(x: PayloadIssue, draw: bool, shared: bool, short: bool, close: bool, singles: bool, doubles: bool)
    ensures x in Flag(draw, DrawIssue) + Flag(shared, SharedPlayer) + Flag(short, TargetNotReached)
                 + Flag(close, MarginNotReached) + Flag(singles, SinglesTeamSize) + Flag(doubles, DoublesTeamSize)
            <==> || (draw && x == DrawIssue) || (shared && x == SharedPlayer)
                 || (short && x == TargetNotReached) || (close && x == MarginNotReached)
                 || (singles && x == SinglesTeamSize) || (doubles && x == DoublesTeamSize)
  {
  }

  /** The payload parses without issue. */
  predicate MatchPayloadValid(p: MatchPayload, isDatetime: string -> bool): (r: bool)
    ensures r ==> p.team1Score != p.team2Score && |p.team1| > 0 && |p.team2| > 0
  {
    FieldsOk(p, isDatetime) && Refinements(p) == []
  }

  /** The single validity rule: well-formed fields, no draw, nobody on both
      teams, the winner reaching the target (11 by default) with the margin
      (2 by default), and one player a side in singles, two in doubles. */
  lemma MatchPayloadValidMeans(p: MatchPayload, isDatetime: string -> bool)
    ensures MatchPayloadValid(p, isDatetime) <==>
              && FieldsOk(p, isDatetime)
              && p.team1Score != p.team2Score
              && (forall x | x in p.team1 :: x !in p.team2)
              && MaxR(p.team1Score, p.team2Score) >= p.targetPoints.OrElse(11.0)
              && MaxR(p.team1Score, p.team2Score) - MinR(p.team1Score, p.team2Score) >= p.winByMargin.OrElse(2.0)
              && (p.matchType == "SINGLES" ==> |p.team1| == 1 && |p.team2| == 1)
              && (p.matchType == "DOUBLES" ==> |p.team1| == 2 && |p.team2| == 2)
  {
    var noShared := forall k | 0 <= k < |p.team1| :: p.team1[k] !in p.team2;
    assert noShared <==> forall x | x in p.team1 :: x !in p.team2;
  }

  /** An accepted payload with non-negative scores passes the tournament
      service's own score check with the same target and margin. */
  lemma ValidPayloadFinishedGame(p: MatchPayload, isDatetime: string -> bool)
    requires MatchPayloadValid(p, isDatetime)
    requires p.team1Score >= 0.0 && p.team2Score >= 0.0
    ensures AssertScoreValid(p.team1Score, p.team2Score,
                             p.targetPoints.OrElse(11.0), p.winByMargin.OrElse(2.0)).Ok?
  {
    MatchPayloadValidMeans(p, isDatetime);
  }

  /** The two player teams of a valid payload are disjoint. */
  lemma ValidPayloadTeamsDisjoint(p: MatchPayload, isDatetime: string -> bool)
    requires MatchPayloadValid(p, isDatetime)
    ensures forall x | x in p.team2 :: x !in p.team1
  {
    MatchPayloadValidMeans(p, isDatetime);
  }
}
