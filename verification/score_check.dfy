/** Score rules shared by the match validators. JavaScript numbers are modelled
    as reals (NaN and the infinities are outside the model); `Number.isInteger`
    is `IsInteger`. */
module ScoreRules {
  import opened Outcomes

  predicate IsInteger(x: real) {
    x.Floor as real == x
  }

  function MaxR(a: real, b: real): real {
    if a >= b then a else b
  }

  function MinR(a: real, b: real): real {
    if a <= b then a else b
  }

  const DefaultTargetPoints: real := 11.0
  const DefaultWinByMargin: real := 2.0

  /** The errors `assertScoreValid` throws, with the value its message names. */
  datatype ScoreError =
    | NotNonNegativeIntegers
    | Draw
    | BelowTarget(target: real)
    | MarginTooSmall(winBy: real)

  /** The scores form a finished game: both are non-negative integers, they
      differ, the higher reaches `target` and leads by at least `winBy`. */
  predicate FinishedGame(team1Score: real, team2Score: real, target: real, winBy: real) {
    && IsInteger(team1Score) && IsInteger(team2Score)
    && team1Score >= 0.0 && team2Score >= 0.0
    && team1Score != team2Score
    && MaxR(team1Score, team2Score) >= target
    && MaxR(team1Score, team2Score) - MinR(team1Score, team2Score) >= winBy
  }

  /** `assertScoreValid` in src/server/tournament-service.ts: the first failing
      check, in the source's order, or success. */
  function AssertScoreValid(team1Score: real, team2Score: real, target: real, winBy: real): (r: Result<(), ScoreError>)
    ensures r.Ok? <==> FinishedGame(team1Score, team2Score, target, winBy)
    ensures r == Err(NotNonNegativeIntegers) <==>
              !(IsInteger(team1Score) && IsInteger(team2Score) && team1Score >= 0.0 && team2Score >= 0.0)
    ensures r == Err(Draw) <==>
              IsInteger(team1Score) && IsInteger(team2Score) && team1Score >= 0.0 && team2Score >= 0.0
              && team1Score == team2Score
    ensures r.Err? && r.error.BelowTarget? ==>
              r.error.target == target && MaxR(team1Score, team2Score) < target
    ensures r.Err? && r.error.MarginTooSmall? ==>
              r.error.winBy == winBy && MaxR(team1Score, team2Score) >= target
              && MaxR(team1Score, team2Score) - MinR(team1Score, team2Score) < winBy
  {
    if !IsInteger(team1Score) || !IsInteger(team2Score) || team1Score < 0.0 || team2Score < 0.0 then
      Err(NotNonNegativeIntegers)
    else if team1Score == team2Score then
      Err(Draw)
    else
      var winner := MaxR(team1Score, team2Score);
      var loser := MinR(team1Score, team2Score);
      if winner < target then Err(BelowTarget(target))
      else if winner - loser < winBy then Err(MarginTooSmall(winBy))
      else Ok(())
  }

  /** `assertScoreValid` called without its last two arguments: the default
      parameters, a target of 11 and a margin of 2. */
  function AssertScoreValidDefault(team1Score: real, team2Score: real): (r: Result<(), ScoreError>)
    ensures r.Ok? <==> FinishedGame(team1Score, team2Score, 11.0, 2.0)
  {
    AssertScoreValid(team1Score, team2Score, DefaultTargetPoints, DefaultWinByMargin)
  }

  /** Swapping the two teams does not change the verdict. */
  lemma AssertScoreValidSymmetric(team1Score: real, team2Score: real, target: real, winBy: real)
    ensures AssertScoreValid(team1Score, team2Score, target, winBy) == AssertScoreValid(team2Score, team1Score, target, winBy)
  {
  }
}
