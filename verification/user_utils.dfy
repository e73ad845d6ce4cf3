/** Player-profile rules of src/server/user-utils.ts: the seed ratings a new
    player starts from, the display-name check, and the handle format. */
module UserUtils {
  import opened Outcomes
  import opened Strings

  // computeInitialRatings.

  const DefaultRating: real := 1500.0
  const DefaultRd: real := 350.0
  const DefaultVolatility: real := 0.06
  const TrustedRd: real := 100.0
  const TrustedVolatility: real := 0.04

  /** `RatingSeedInput`: every field optional. */
  datatype RatingSeedInput = RatingSeedInput(
    initialRating: Option<real>, initialRd: Option<real>, initialVolatility: Option<real>,
    initialSinglesRating: Option<real>, initialSinglesRd: Option<real>, initialSinglesVolatility: Option<real>,
    initialDoublesRating: Option<real>, initialDoublesRd: Option<real>, initialDoublesVolatility: Option<real>)

  /** A Glicko-2 starting point. */
  datatype Seed = Seed(rating: real, rd: real, volatility: real)

  datatype InitialRatings = InitialRatings(overall: Seed, singles: Seed, doubles: Seed)

  const NoSeedInput := RatingSeedInput(None, None, None, None, None, None, None, None, None)

  /** The seed of one game mode: the mode's own value, else the overall value,
      else a trusted or a default value depending on whether a rating was given. */
  function ModeSeed(input: RatingSeedInput, rating: Option<real>, rd: Option<real>, volatility: Option<real>): Seed {
    var trusted := rating.Some? || input.initialRating.Some?;
    Seed(
      rating.OrElse(input.initialRating.OrElse(DefaultRating)),
      rd.OrElse(input.initialRd.OrElse(if trusted then TrustedRd else DefaultRd)),
      volatility.OrElse(input.initialVolatility.OrElse(if trusted then TrustedVolatility else DefaultVolatility)))
  }

  /** `computeInitialRatings`. */
  function ComputeInitialRatings(input: RatingSeedInput): (r: InitialRatings)
    ensures r.overall.rating == input.initialRating.OrElse(DefaultRating)
    ensures r.singles.rating == input.initialSinglesRating.OrElse(r.overall.rating)
    ensures r.doubles.rating == input.initialDoublesRating.OrElse(r.overall.rating)
  {
    var baseRatingProvided := input.initialRating.Some?;
    var overall := Seed(
      input.initialRating.OrElse(DefaultRating),
      input.initialRd.OrElse(if baseRatingProvided then TrustedRd else DefaultRd),
      input.initialVolatility.OrElse(if baseRatingProvided then TrustedVolatility else DefaultVolatility));
    InitialRatings(
      overall,
      ModeSeed(input, input.initialSinglesRating, input.initialSinglesRd, input.initialSinglesVolatility),
      ModeSeed(input, input.initialDoublesRating, input.initialDoublesRd, input.initialDoublesVolatility))
  }

  /** With no input every mode starts at 1500 / 350 / 0.06. */
  lemma NoInputDefaults()
    ensures var r := ComputeInitialRatings(NoSeedInput);
            && r.overall == Seed(1500.0, 350.0, 0.06)
            && r.singles == Seed(1500.0, 350.0, 0.06)
            && r.doubles == Seed(1500.0, 350.0, 0.06)
  {
  }

  /** A given overall rating is trusted: unless overridden, every mode takes
      that rating with rating deviation 100 and volatility 0.04. */
  lemma BaseRatingTrusted(input: RatingSeedInput, rating: real)
    requires input == NoSeedInput.(initialRating := Some(rating))
    ensures var r := ComputeInitialRatings(input);
            && r.overall == Seed(rating, 100.0, 0.04)
            && r.singles == Seed(rating, 100.0, 0.04)
            && r.doubles == Seed(rating, 100.0, 0.04)
  {
  }

  /** A mode without inputs of its own starts where the overall seed starts. */
  lemma ModesFollowOverall(input: RatingSeedInput)
    ensures input.initialSinglesRating.None? && input.initialSinglesRd.None? && input.initialSinglesVolatility.None? ==>
              ComputeInitialRatings(input).singles == ComputeInitialRatings(input).overall
    ensures input.initialDoublesRating.None? && input.initialDoublesRd.None? && input.initialDoublesVolatility.None? ==>
              ComputeInitialRatings(input).doubles == ComputeInitialRatings(input).overall
  {
  }

  /** The overall seed: the given deviation and volatility win; otherwise a
      given overall rating earns the trusted 100 / 0.04, and no rating the
      defaults 350 / 0.06. Mode inputs play no part in it. */
  lemma OverallPrecedence(input: RatingSeedInput)
    ensures var o := ComputeInitialRatings(input).overall;
            && (input.initialRating.Some? ==> o.rating == input.initialRating.value)
            && (input.initialRating.None? ==> o.rating == 1500.0)
            && (input.initialRd.Some? ==> o.rd == input.initialRd.value)
            && (input.initialRd.None? ==> o.rd == if input.initialRating.Some? then 100.0 else 350.0)
            && (input.initialVolatility.Some? ==> o.volatility == input.initialVolatility.value)
            && (input.initialVolatility.None? ==> o.volatility == if input.initialRating.Some? then 0.04 else 0.06)
  {
  }

  /** An overall 1700 with a singles 1750: both are trusted, so every mode has
      deviation 100, and the overall rating stays 1700. */
  lemma SuppliedRatingsTrusted()
    ensures var r := ComputeInitialRatings(NoSeedInput.(initialRating := Some(1700.0), initialSinglesRating := Some(1750.0)));
            && r.overall == Seed(1700.0, 100.0, 0.04)
            && r.singles == Seed(1750.0, 100.0, 0.04)
            && r.doubles == Seed(1700.0, 100.0, 0.04)
  {
  }

  /** Precedence within a mode: the mode's own value, then the overall value,
      then trusted values when a mode or overall rating was given, else defaults. */
  lemma SinglesPrecedence(input: RatingSeedInput)
    ensures var s := ComputeInitialRatings(input).singles;
            && (input.initialSinglesRating.Some? ==> s.rating == input.initialSinglesRating.value)
            && (input.initialSinglesRating.None? && input.initialRating.Some? ==> s.rating == input.initialRating.value)
            && (input.initialSinglesRating.None? && input.initialRating.None? ==> s.rating == 1500.0)
            && (input.initialSinglesRd.Some? ==> s.rd == input.initialSinglesRd.value)
            && (input.initialSinglesRd.None? && input.initialRd.Some? ==> s.rd == input.initialRd.value)
            && (input.initialSinglesRd.None? && input.initialRd.None? ==>
                  s.rd == if input.initialSinglesRating.Some? || input.initialRating.Some? then 100.0 else 350.0)
            && (input.initialSinglesVolatility.Some? ==> s.volatility == input.initialSinglesVolatility.value)
            && (input.initialSinglesVolatility.None? && input.initialVolatility.Some? ==> s.volatility == input.initialVolatility.value)
            && (input.initialSinglesVolatility.None? && input.initialVolatility.None? ==>
                  s.volatility == if input.initialSinglesRating.Some? || input.initialRating.Some? then 0.04 else 0.06)
  {
  }

  /** The doubles seed obeys the same precedence with the doubles inputs. */
  lemma DoublesPrecedence(input: RatingSeedInput)
    ensures var d := ComputeInitialRatings(input).doubles;
            && (input.initialDoublesRating.Some? ==> d.rating == input.initialDoublesRating.value)
            && (input.initialDoublesRating.None? && input.initialRating.Some? ==> d.rating == input.initialRating.value)
            && (input.initialDoublesRating.None? && input.initialRating.None? ==> d.rating == 1500.0)
            && (input.initialDoublesRd.Some? ==> d.rd == input.initialDoublesRd.value)
            && (input.initialDoublesRd.None? && input.initialRd.Some? ==> d.rd == input.initialRd.value)
            && (input.initialDoublesRd.None? && input.initialRd.None? ==>
                  d.rd == if input.initialDoublesRating.Some? || input.initialRating.Some? then 100.0 else 350.0)
            && (input.initialDoublesVolatility.Some? ==> d.volatility == input.initialDoublesVolatility.value)
            && (input.initialDoublesVolatility.None? && input.initialVolatility.Some? ==> d.volatility == input.initialVolatility.value)
            && (input.initialDoublesVolatility.None? && input.initialVolatility.None? ==>
                  d.volatility == if input.initialDoublesRating.Some? || input.initialRating.Some? then 0.04 else 0.06)
  {
  }

  /** A singles input never changes the doubles seed, and the other way round. */
  lemma ModesIndependent(input: RatingSeedInput, rating: Option<real>, rd: Option<real>, volatility: Option<real>)
    ensures ComputeInitialRatings(input.(initialSinglesRating := rating, initialSinglesRd := rd, initialSinglesVolatility := volatility)).doubles
            == ComputeInitialRatings(input).doubles
    ensures ComputeInitialRatings(input.(initialDoublesRating := rating, initialDoublesRd := rd, initialDoublesVolatility := volatility)).singles
            == ComputeInitialRatings(input).singles
  {
  }

  // validateDisplayName.

  const MaxDisplayNameLength := 80

  datatype DisplayNameError = EmptyDisplayName | DisplayNameTooLong

  /** `validateDisplayName`: the trimmed name, or the error thrown. The limit
      counts UTF-16 code units, as `length` does. */
  function ValidateDisplayName(displayName: string): (r: Result<string, DisplayNameError>)
    ensures r == Err(EmptyDisplayName) <==> |Trim(displayName)| == 0
    ensures r == Err(DisplayNameTooLong) <==> |Trim(displayName)| > 0 && Utf16Length(Trim(displayName)) > MaxDisplayNameLength
    ensures r.Ok? ==> r.value == Trim(displayName) && 0 < |r.value| && Utf16Length(r.value) <= MaxDisplayNameLength
    ensures r.Ok? ==> !IsJsWhitespace(r.value[0]) && !IsJsWhitespace(r.value[|r.value| - 1])
  {
    var normalized := Trim(displayName);
    if |normalized| == 0 then Err(EmptyDisplayName)
    else if Utf16Length(normalized) > MaxDisplayNameLength then Err(DisplayNameTooLong)
    else Ok(normalized)
  }

  /** An accepted name is accepted again unchanged. */
  lemma ValidateDisplayNameIdempotent(displayName: string)
    requires ValidateDisplayName(displayName).Ok?
    ensures ValidateDisplayName(ValidateDisplayName(displayName).value) == ValidateDisplayName(displayName)
  {
    TrimIdempotent(displayName);
  }

  /** 41 characters beyond U+FFFF are 82 code units: too long, though fewer
      than 80 characters. */
  lemma AstralNameTooLong()
    ensures var name := seq(41, _ => 0x1F600 as char);
            |name| == 41 && ValidateDisplayName(name) == Err(DisplayNameTooLong)
  {
    var name := seq(41, _ => 0x1F600 as char);
    TrimTrimmed(name);
    Utf16LengthAstral(name);
  }

  // USERNAME_REGEX.

  /** `[a-z0-9]`: the first and last character of a handle. */
  predicate HandleEndChar(c: char) {
    ('a' <= c <= 'z') || ('0' <= c <= '9')
  }

  /** `[a-z0-9-_]`: a character inside a handle. */
  predicate HandleInnerChar(c: char) {
    HandleEndChar(c) || c == '-' || c == '_'
  }

  /** `/^[a-z0-9][a-z0-9-_]{1,30}[a-z0-9]$/`: 3 to 32 characters, starting and
      ending with a lower-case letter or digit, with hyphens and underscores
      allowed in between. Every character is ASCII. */
  predicate IsHandle(s: string): (r: bool)
    ensures r ==> forall k | 0 <= k < |s| :: s[k] as int < 0x80
  {
    && 3 <= |s| <= 32
    && HandleEndChar(s[0]) && HandleEndChar(s[|s| - 1])
    && forall k | 1 <= k < |s| - 1 :: HandleInnerChar(s[k])
  }

  /** `USERNAME_REGEX.test(s)`, as a left-to-right scan. */
  method MatchHandle(s: string) returns (matches: bool)
    ensures matches <==> IsHandle(s)
  {
    if |s| < 3 || |s| > 32 || !HandleEndChar(s[0]) || !HandleEndChar(s[|s| - 1]) {
      return false;
    }
    var k := 1;
    while k < |s| - 1
      invariant 1 <= k <= |s| - 1
      invariant forall j | 1 <= j < k :: HandleInnerChar(s[j])
    {
      if !HandleInnerChar(s[k]) {
        return false;
      }
      k := k + 1;
    }
    return true;
  }

  /** A handle never holds `@`, so it can follow `(@` in a label unambiguously. */
  lemma HandleHasNoAt(s: string)
    requires IsHandle(s)
    ensures '@' !in s
  {
    if '@' in s {
      var k :| 0 <= k < |s| && s[k] == '@';
    }
  }

  /** The regular expression's length bounds count code units; in a handle
      they are the characters. */
  lemma HandleLengthInUnits(s: string)
    requires IsHandle(s)
    ensures Utf16Length(s) == |s| && 3 <= Utf16Length(s) <= 32
  {
    Utf16LengthBmp(s);
  }

  /** Handles are already lower case. */
  lemma HandleLowerCase(s: string)
    requires IsHandle(s)
    ensures Lower(s) == s
  {
    forall k | 0 <= k < |s| ensures LowerChar(s[k]) == s[k] {
      assert k == 0 || k == |s| - 1 || HandleInnerChar(s[k]);
    }
  }
}
