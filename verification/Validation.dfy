/**
  The tiered run validator (app/validation.py): what turns a run into a canonical score.
 */
module Validation {
  import opened Wrappers

  const MAX_SCORE := 180_000_000_081
  const MAX_RUN_ACTIONS := 50_000

  /** `actions` holds each element of the log as its JSON text. */
  datatype RunRecord = RunRecord(
    id: nat, user: nat, mode: string, scenarioVersion: int, seed: int, actions: seq<string>, claimedScore: Option<int>)

  datatype ModeBounds = ModeBounds(maxScore: Option<int>, minScore: int, maxActions: Option<nat>) {
    function ScoreCeiling(): int {
      if maxScore.Some? then maxScore.value else MAX_SCORE
    }

    function ActionCeiling(): int {
      if maxActions.Some? then maxActions.value else MAX_RUN_ACTIONS
    }
  }

  datatype Status = Validated | Rejected

  datatype Reason =
    | EmptyLog | LogTooLong | ClaimMissing | ClaimTooLow | ClaimTooHigh
    | NoScorer | RecomputeFailed | RecomputeTooHigh | NoReplay | UnsupportedTier

  datatype ValidationResult =
    ValidationResult(canonicalScore: int, tierAchieved: nat, status: Status, reason: Option<Reason>)

  /** A scorer recomputes the score from the run, or raises. */
  type Scorer = RunRecord -> Option<int>

  type Scorers = map<int, Scorer>

  function Reject(tier: nat, reason: Reason): ValidationResult {
    ValidationResult(0, tier, Rejected, Some(reason))
  }

  /** `_bounds_reason`. */
  function BoundsReason(run: RunRecord, bounds: ModeBounds, requireClaim: bool): Option<Reason> {
    if run.actions == [] then Some(EmptyLog)
    else if |run.actions| > bounds.ActionCeiling() then Some(LogTooLong)
    else if !requireClaim then None
    else if run.claimedScore.None? then Some(ClaimMissing)
    else if run.claimedScore.value < bounds.minScore then Some(ClaimTooLow)
    else if run.claimedScore.value > bounds.ScoreCeiling() then Some(ClaimTooHigh)
    else None
  }

  function Tier1(run: RunRecord, bounds: ModeBounds): ValidationResult {
    var reason := BoundsReason(run, bounds, true);
    if reason.Some? then Reject(1, reason.value)
    else ValidationResult(run.claimedScore.value, 1, Validated, None)
  }

  function Tier2(scorers: Scorers, run: RunRecord, bounds: ModeBounds): ValidationResult {
    var reason := BoundsReason(run, bounds, false);
    if reason.Some? then Reject(2, reason.value)
    else if run.scenarioVersion !in scorers then Reject(2, NoScorer)
    else
      var canonical := scorers[run.scenarioVersion](run);
      if canonical.None? then Reject(2, RecomputeFailed)
      else if canonical.value > bounds.ScoreCeiling() then Reject(2, RecomputeTooHigh)
      else ValidationResult(canonical.value, 2, Validated, None)
  }

  /** `TieredValidator.validate`. */
  function Validate(scorers: Scorers, run: RunRecord, requiredTier: int, bounds: ModeBounds): ValidationResult {
    if requiredTier <= 1 then Tier1(run, bounds)
    else if requiredTier == 2 then Tier2(scorers, run, bounds)
    else if requiredTier == 3 then Reject(0, NoReplay)
    else Reject(0, UnsupportedTier)
  }

  /** The log is neither empty nor over its ceiling. */
  predicate PlausibleLog(run: RunRecord, bounds: ModeBounds) {
    0 < |run.actions| <= bounds.ActionCeiling()
  }

  /** The score a run deserves when only the claim is looked at, or when only the log is. */
  function Deserved(scorers: Scorers, run: RunRecord, requiredTier: int): Option<int> {
    if requiredTier <= 1 then run.claimedScore
    else if requiredTier == 2 && run.scenarioVersion in scorers then scorers[run.scenarioVersion](run)
    else None
  }

  /**
    A run is validated exactly when its log is plausible and its deserved score exists under
    the ceiling, and also over the floor when the claim is what counts. It then gets that
    score, at a tier no lower than required.
   */
  lemma ValidatedExactly(scorers: Scorers, run: RunRecord, requiredTier: int, bounds: ModeBounds)
    ensures var r := Validate(scorers, run, requiredTier, bounds);
            var deserved := Deserved(scorers, run, requiredTier);
            r.status == Validated
            <==> PlausibleLog(run, bounds) && deserved.Some? && deserved.value <= bounds.ScoreCeiling()
                 && (requiredTier <= 1 ==> bounds.minScore <= deserved.value)
    ensures var r := Validate(scorers, run, requiredTier, bounds);
            r.status == Validated ==>
              && r.tierAchieved >= requiredTier && r.tierAchieved >= 1
              && Deserved(scorers, run, requiredTier) == Some(r.canonicalScore)
              && r.canonicalScore <= bounds.ScoreCeiling()
    ensures var r := Validate(scorers, run, requiredTier, bounds);
            r.status == Rejected <==> r.reason.Some?
  {
  }

  /** The same run with another claim. */
  function WithClaim(run: RunRecord, claim: Option<int>): RunRecord {
    run.(claimedScore := claim)
  }

  /** Whatever the scorers do, the verdict is the same with either claim. */
  ghost predicate ClaimCannotMatter(a: RunRecord, b: RunRecord, requiredTier: int, bounds: ModeBounds) {
    forall scorers: Scorers :: Validate(scorers, a, requiredTier, bounds) == Validate(scorers, b, requiredTier, bounds)
  }

  /**
    The claim is handed to the scorer with the rest of the run, so at tier 2 it can decide
    the verdict of every run with a plausible log. It decides nothing at tier 3 and beyond,
    nothing when the log is refused, and at tier 1 nothing exactly when both claims are
    refused for one reason.
   */
  lemma ClaimMattersExactly(run: RunRecord, claim: Option<int>, requiredTier: int, bounds: ModeBounds)
    requires claim != run.claimedScore
    ensures ClaimCannotMatter(run, WithClaim(run, claim), requiredTier, bounds)
            <==> || !PlausibleLog(run, bounds)
                 || requiredTier > 2
                 || (requiredTier <= 1
                     && BoundsReason(run, bounds, true).Some?
                     && BoundsReason(run, bounds, true) == BoundsReason(WithClaim(run, claim), bounds, true))
  {
    var other := WithClaim(run, claim);
    if requiredTier == 2 && PlausibleLog(run, bounds) {
      var trusting: Scorers := map[run.scenarioVersion :=
        (r: RunRecord) => Some(bounds.ScoreCeiling() - if r.claimedScore == claim then 1 else 0)];
      assert Validate(trusting, run, 2, bounds).canonicalScore == bounds.ScoreCeiling();
      assert Validate(trusting, other, 2, bounds).canonicalScore == bounds.ScoreCeiling() - 1;
    } else if requiredTier <= 1 {
      assert Validate(map[], run, requiredTier, bounds) == Tier1(run, bounds);
      assert Validate(map[], other, requiredTier, bounds) == Tier1(other, bounds);
    }
  }

  /** The floor binds claims only: a recomputed score below it is validated. */
  lemma FloorMissesRecomputedScores(run: RunRecord, bounds: ModeBounds)
    requires PlausibleLog(run, bounds) && bounds.minScore - 1 <= bounds.ScoreCeiling()
    ensures exists scorers: Scorers ::
              && Validate(scorers, run, 2, bounds).status == Validated
              && Validate(scorers, run, 2, bounds).canonicalScore < bounds.minScore
  {
    var scorers: Scorers := map[run.scenarioVersion := _ => Some(bounds.minScore - 1)];
    assert Validate(scorers, run, 2, bounds) == ValidationResult(bounds.minScore - 1, 2, Validated, None);
  }

  // -------------------------------------------------------------- the reasons

  /** The highest score allowed and the longest log, where the mode sets none. */
  lemma DefaultCeilings(bounds: ModeBounds)
    ensures bounds.ScoreCeiling() == if bounds.maxScore.Some? then bounds.maxScore.value else 180_000_000_081
    ensures bounds.ActionCeiling() == if bounds.maxActions.Some? then bounds.maxActions.value else 50_000
  {
  }

  /** Why a run with this claim is turned down at tier 1. */
  predicate ClaimFault(claim: Option<int>, bounds: ModeBounds, why: Reason) {
    match why
    case ClaimMissing => claim.None?
    case ClaimTooLow => claim.Some? && claim.value < bounds.minScore
    case ClaimTooHigh => claim.Some? && claim.value >= bounds.minScore && claim.value > bounds.ScoreCeiling()
    case _ => false
  }

  /** Why a run with this recomputed score, if a scorer was there to make one, is turned down at tier 2. */
  predicate RecomputeFault(scorers: Scorers, run: RunRecord, bounds: ModeBounds, why: Reason) {
    match why
    case NoScorer => run.scenarioVersion !in scorers
    case RecomputeFailed => run.scenarioVersion in scorers && scorers[run.scenarioVersion](run) == None
    case RecomputeTooHigh =>
      && run.scenarioVersion in scorers && scorers[run.scenarioVersion](run).Some?
      && scorers[run.scenarioVersion](run).value > bounds.ScoreCeiling()
    case _ => false
  }

  /** A run is turned down for its log first, then for its claim or its recomputed score, and above tier 2 always. */
  lemma ReasonsExactly(scorers: Scorers, run: RunRecord, requiredTier: int, bounds: ModeBounds, why: Reason)
    ensures Validate(scorers, run, requiredTier, bounds).reason == Some(why)
            <==> if requiredTier == 3 then why == NoReplay
                 else if requiredTier > 3 then why == UnsupportedTier
                 else if run.actions == [] then why == EmptyLog
                 else if |run.actions| > bounds.ActionCeiling() then why == LogTooLong
                 else if requiredTier <= 1 then ClaimFault(run.claimedScore, bounds, why)
                 else RecomputeFault(scorers, run, bounds, why)
    ensures var r := Validate(scorers, run, requiredTier, bounds);
            r.status == Rejected ==>
              r.canonicalScore == 0
              && r.tierAchieved == if requiredTier > 2 then 0 else if requiredTier == 2 then 2 else 1
  {
  }
}
