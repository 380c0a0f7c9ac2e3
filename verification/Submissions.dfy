/**
  Raw score and run submissions (`submit_score` and `submit_run` of
  app/leaderboard_routes.py), one request at a time. The interleaved protocol is in
  Interleaving.dfy.
 */
module Submissions {
  import opened Wrappers
  import opened Periods
  import opened Scores
  import opened Validation

  datatype Mode = Mode(rules: Rules, requiresClaimed: bool, requiredTier: nat, maxScore: Option<int>)

  /** The game modes and the validator's scorers; neither changes while requests run. */
  datatype Config = Config(modes: map<string, Mode>, scorers: Scorers)

  datatype RunStatus = Pending | Accepted | Denied

  /** The unique key of the runs table. */
  datatype RunKey = RunKey(user: nat, mode: string, clientRunId: string)

  datatype RunRow = RunRow(id: nat, status: RunStatus, canonicalScore: Option<int>, tier: Option<nat>)

  datatype Db = Db(scores: Table, markers: set<Marker>, runs: map<RunKey, RunRow>)

  datatype Request =
    | PostScore(user: nat, guest: bool, mode: string, score: int, idempotencyKey: Option<string>)
    | PostRun(user: nat, guest: bool, mode: string, clientRunId: string, scenarioVersion: int, seed: int,
              actions: seq<string>, claimedScore: Option<int>)

  /** A request with the clocks it reads and the id the runs sequence gives it. */
  datatype Job = Job(request: Request, now: Instant, stamp: Instant, runId: nat)

  datatype Refusal = UnknownMode | RunRequired | RawOnly | InvalidScore | NeedsAccount | NeedsKey | RunDenied

  datatype Reply = Stored | Refused(why: Refusal) | Prior(status: RunStatus)

  datatype Outcome = Outcome(db: Db, reply: Reply)

  const EMPTY_DB := Db(map[], {}, map[])

  function ModeOf(cfg: Config, name: string): Mode {
    if name in cfg.modes then cfg.modes[name] else Mode(Rules(Desc, Best), false, 0, None)
  }

  function Book(cfg: Config): Rulebook {
    (name: string) => ModeOf(cfg, name).rules
  }

  function Ceiling(cfg: Config, mode: string): int {
    if ModeOf(cfg, mode).maxScore.Some? then ModeOf(cfg, mode).maxScore.value else MAX_SCORE
  }

  /** The checks both endpoints make before they touch a row. */
  function RefusalOf(cfg: Config, request: Request): Option<Refusal> {
    var mode := ModeOf(cfg, request.mode);
    if request.mode !in cfg.modes then Some(UnknownMode)
    else if request.PostScore? then
      if mode.requiredTier > 0 then Some(RunRequired)
      else if request.score > Ceiling(cfg, request.mode) then Some(InvalidScore)
      else if mode.requiresClaimed && request.guest then Some(NeedsAccount)
      else if mode.rules.strategy == Cumulative && request.idempotencyKey.None? then Some(NeedsKey)
      else None
    else if mode.requiredTier < 1 then Some(RawOnly)
    else if mode.requiresClaimed && request.guest then Some(NeedsAccount)
    else None
  }

  /** What makes a request repeatable: its marker, its run key, or nothing. */
  datatype Ticket = ByMarker(marker: Marker) | ByRun(key: RunKey) | NoTicket

  function TicketOf(cfg: Config, request: Request): Ticket {
    if request.PostRun? then ByRun(RunKey(request.user, request.mode, request.clientRunId))
    else if ModeOf(cfg, request.mode).rules.strategy == Cumulative && request.idempotencyKey.Some? then
      ByMarker(Marker(request.user, request.mode, request.idempotencyKey.value))
    else NoTicket
  }

  predicate Taken(db: Db, ticket: Ticket) {
    match ticket
    case ByMarker(marker) => marker in db.markers
    case ByRun(key) => key in db.runs
    case NoTicket => false
  }

  function RecordOf(job: Job): RunRecord
    requires job.request.PostRun?
  {
    var r := job.request;
    RunRecord(job.runId, r.user, r.mode, r.scenarioVersion, r.seed, r.actions, r.claimedScore)
  }

  function Verdict(cfg: Config, job: Job): ValidationResult
    requires job.request.PostRun?
  {
    var mode := ModeOf(cfg, job.request.mode);
    Validate(cfg.scorers, RecordOf(job), mode.requiredTier, ModeBounds(mode.maxScore, 0, None))
  }

  /** The run is turned down by the validator. */
  predicate Unfit(cfg: Config, job: Job) {
    job.request.PostRun? && Verdict(cfg, job).status == Rejected
  }

  /** The write a request makes if it makes one. */
  function SubmissionOf(cfg: Config, job: Job): Submission {
    var r := job.request;
    if r.PostScore? then Submission(r.user, r.mode, r.score, job.now, job.stamp, None, 0)
    else
      var verdict := Verdict(cfg, job);
      Submission(r.user, r.mode, verdict.canonicalScore, job.now, job.stamp, Some(job.runId), verdict.tierAchieved)
  }

  function Mark(db: Db, ticket: Ticket): set<Marker> {
    if ticket.ByMarker? then db.markers + {ticket.marker} else db.markers
  }

  function RunOutcome(cfg: Config, job: Job): RunRow
    requires job.request.PostRun?
  {
    var verdict := Verdict(cfg, job);
    if verdict.status == Rejected then RunRow(job.runId, Denied, None, Some(verdict.tierAchieved))
    else RunRow(job.runId, Accepted, Some(verdict.canonicalScore), Some(verdict.tierAchieved))
  }

  function RecordRun(cfg: Config, db: Db, job: Job): map<RunKey, RunRow> {
    var r := job.request;
    if r.PostRun? then db.runs[RunKey(r.user, r.mode, r.clientRunId) := RunOutcome(cfg, job)] else db.runs
  }

  /** The tables and the answer after one request that runs alone. */
  function Serve(cfg: Config, db: Db, job: Job): Outcome {
    var refusal := RefusalOf(cfg, job.request);
    var ticket := TicketOf(cfg, job.request);
    if refusal.Some? then Outcome(db, Refused(refusal.value))
    else if Taken(db, ticket) then Outcome(db, if ticket.ByRun? then Prior(db.runs[ticket.key].status) else Stored)
    else if Unfit(cfg, job) then Outcome(db.(runs := RecordRun(cfg, db, job)), Refused(RunDenied))
    else
      var rules := ModeOf(cfg, job.request.mode).rules;
      Outcome(
        Db(Written(rules, db.scores, SubmissionOf(cfg, job), |PERIODS|), Mark(db, ticket), RecordRun(cfg, db, job)),
        Stored)
  }

  function ServeAll(cfg: Config, jobs: seq<Job>): Db {
    if jobs == [] then EMPTY_DB else Serve(cfg, ServeAll(cfg, jobs[..|jobs| - 1]), jobs[|jobs| - 1]).db
  }

  // ------------------------------------------------------------ the endpoints

  /** The two write endpoints over their tables. */
  class Board {
    const cfg: Config
    const ledger: Ledger
    var runs: map<RunKey, RunRow>

    constructor (cfg: Config)
      ensures this.cfg == cfg && fresh(ledger) && Contents() == EMPTY_DB
    {
      this.cfg := cfg;
      ledger := new Ledger();
      runs := map[];
    }

    function Contents(): Db
      reads this, ledger
    {
      Db(ledger.scores, ledger.markers, runs)
    }

    method SubmitScore(job: Job) returns (reply: Reply)
      requires job.request.PostScore?
      modifies this, ledger
      ensures Contents() == Serve(cfg, old(Contents()), job).db
      ensures reply == Serve(cfg, old(Contents()), job).reply
    {
      var r := job.request;
      if r.mode !in cfg.modes { return Refused(UnknownMode); }
      var mode := cfg.modes[r.mode];
      if mode.requiredTier > 0 { return Refused(RunRequired); }
      var ceiling := if mode.maxScore.Some? then mode.maxScore.value else MAX_SCORE;
      if r.score > ceiling { return Refused(InvalidScore); }
      if mode.requiresClaimed && r.guest { return Refused(NeedsAccount); }
      if mode.rules.strategy == Cumulative && r.idempotencyKey.None? { return Refused(NeedsKey); }
      ledger.ApplyScoreWrite(
        mode.rules, Submission(r.user, r.mode, r.score, job.now, job.stamp, None, 0), r.idempotencyKey, true);
      reply := Stored;
    }

    method SubmitRun(job: Job) returns (reply: Reply)
      requires job.request.PostRun?
      modifies this, ledger
      ensures Contents() == Serve(cfg, old(Contents()), job).db
      ensures reply == Serve(cfg, old(Contents()), job).reply
    {
      var r := job.request;
      if r.mode !in cfg.modes { return Refused(UnknownMode); }
      var mode := cfg.modes[r.mode];
      if mode.requiredTier < 1 { return Refused(RawOnly); }
      if mode.requiresClaimed && r.guest { return Refused(NeedsAccount); }
      var key := RunKey(r.user, r.mode, r.clientRunId);
      if key in runs { return Prior(runs[key].status); }
      runs := runs[key := RunRow(job.runId, Pending, None, None)];
      var record := RunRecord(job.runId, r.user, r.mode, r.scenarioVersion, r.seed, r.actions, r.claimedScore);
      var result := Validate(cfg.scorers, record, mode.requiredTier, ModeBounds(mode.maxScore, 0, None));
      if result.status == Rejected {
        runs := runs[key := runs[key].(status := Denied, tier := Some(result.tierAchieved))];
        return Refused(RunDenied);
      }
      runs := runs[key := runs[key].(status := Accepted, canonicalScore := Some(result.canonicalScore),
                                     tier := Some(result.tierAchieved))];
      var sub := Submission(
        r.user, r.mode, result.canonicalScore, job.now, job.stamp, Some(job.runId), result.tierAchieved);
      ledger.ApplyScoreWrite(mode.rules, sub, None, false);
      reply := Stored;
    }
  }
}
