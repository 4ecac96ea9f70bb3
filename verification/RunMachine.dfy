/** The shared tables of the run orchestration and what every handler does to
    them. A handler call is one atomic step; the clock ticks once per step, so a
    timestamp is the number of the step that wrote it. */
module RunMachine {
  import opened Options
  import opened DependencyGraph
  import opened Predicates
  import PostPlanGate

  type RunId = nat  // handed out in insertion order, which is also queued_at order
  type PoolId = nat
  type OrgId = nat
  type Time = nat

  // ---- tables ----------------------------------------------------------------

  datatype Status =
    | Queued | Preparing | Planning | Unconfirmed | PendingApproval | Confirmed | Applying
    | Finished | Failed | Canceled | Discarded
  {
    predicate Terminal() {
      Finished? || Failed? || Canceled? || Discarded?
    }

    /** The list in the dedup clause of the trigger query; `confirmed` is not in it. */
    predicate InFlight() {
      Queued? || Preparing? || Planning? || Applying? || Unconfirmed? || PendingApproval?
    }
  }

  datatype Kind = Tracked | Proposed | Destroy

  datatype Run = Run(stack: StackId, pool: Option<PoolId>, kind: Kind, status: Status,
                     approvedAt: Option<Time>, startedAt: Option<Time>, finishedAt: Option<Time>,
                     dep: Option<Edge>, attempt: nat)
  {
    /** Finish recovers the phase from approved_at. */
    predicate ApplyPhase() {
      approvedAt.Some? && kind != Proposed
    }

    predicate PlanPhase() {
      approvedAt.None? && kind != Proposed
    }
  }

  datatype EdgeConfig = EdgeConfig(when: Predicate, retryCount: nat, backoff: nat)

  datatype Stack = Stack(org: OrgId, pool: Option<PoolId>, autoApply: bool, disabled: bool, locked: bool,
                         chained: bool)

  datatype Db = Db(stacks: map<StackId, Stack>, edges: map<Edge, EdgeConfig>, runs: map<RunId, Run>,
                   nextRun: RunId, clock: Time)

  const DEFAULT_EDGE := EdgeConfig(Predicate("", "", ""), 0, 60)

  function SetRun(db: Db, r: RunId, run: Run): Db {
    db.(runs := db.runs[r := run])
  }

  function NewRun(stack: StackId, pool: Option<PoolId>, kind: Kind, dep: Option<Edge>, attempt: nat): Run {
    Run(stack, pool, kind, Queued, None, None, None, dep, attempt)
  }

  function Insert(db: Db, run: Run): Db {
    db.(runs := db.runs[db.nextRun := run], nextRun := db.nextRun + 1)
  }

  // ---- the trigger query ---------------------------------------------------------

  /** finished_at of the finished tracked/destroy runs of a stack. */
  function FinishTimes(runs: map<RunId, Run>, s: StackId): set<Time> {
    set r | r in runs && runs[r].stack == s && runs[r].status == Finished && runs[r].kind != Proposed
            && runs[r].finishedAt.Some? :: runs[r].finishedAt.value
  }

  function StartTimes(runs: map<RunId, Run>, s: StackId): set<Time> {
    set r | r in runs && runs[r].stack == s && runs[r].startedAt.Some? :: runs[r].startedAt.value
  }

  /** `MAX(finished_at)` of the upstream is NULL or later than `MAX(started_at)` of the downstream. */
  ghost predicate Ready(runs: map<RunId, Run>, up: StackId, down: StackId) {
    || FinishTimes(runs, up) == {}
    || exists f :: f in FinishTimes(runs, up) && forall s | s in StartTimes(runs, down) :: s < f
  }

  predicate Idle(runs: map<RunId, Run>, s: StackId) {
    forall r | r in runs && runs[r].stack == s :: !runs[r].status.InFlight()
  }

  /** The rows of the trigger query for a finished apply of stack up. */
  ghost predicate Eligible(db: Db, up: StackId, down: StackId) {
    && up in db.stacks && (up, down) in db.edges && down in db.stacks
    && !db.stacks[down].disabled && !db.stacks[down].locked && db.stacks[down].org == db.stacks[up].org
    && Idle(db.runs, down)
    && forall e | e in db.edges && e.1 == down && e.0 != up :: Ready(db.runs, e.0, down)
  }

  /** A result set in some order: every eligible row, once. */
  ghost predicate IsListing(db: Db, up: StackId, rows: seq<StackId>) {
    && (forall d: StackId :: d in rows <==> Eligible(db, up, d))
    && (forall i, j | 0 <= i < j < |rows| :: rows[i] != rows[j])
  }

  /** The upstream run's columns as predicates see them, or a failed load, which fires every edge. */
  datatype EdgeEval = LoadFailed | Loaded(fields: RunFields, parse: FloatParser)

  predicate Fires(ev: EdgeEval, p: Predicate) {
    ev.LoadFailed? || Matches(p, ev.fields, ev.parse)
  }

  ghost function TriggerOne(db: Db, up: StackId, down: StackId, eval: EdgeEval): Db
    requires (up, down) in db.edges && down in db.stacks
  {
    if Fires(eval, db.edges[(up, down)].when)
    then Insert(db, NewRun(down, db.stacks[down].pool, Tracked, Some((up, down)), 0))
    else db
  }

  ghost predicate JoinsUp(db: Db, up: StackId, rows: seq<StackId>) {
    forall d | d in rows :: (up, d) in db.edges && d in db.stacks
  }

  ghost function TriggerAll(db: Db, up: StackId, rows: seq<StackId>, eval: EdgeEval): (db': Db)
    requires JoinsUp(db, up, rows)
    ensures db'.stacks == db.stacks && db'.edges == db.edges && db'.clock == db.clock
  {
    if rows == [] then db
    else
      assert JoinsUp(db, up, rows[..|rows| - 1]);
      TriggerOne(TriggerAll(db, up, rows[..|rows| - 1], eval), up, rows[|rows| - 1], eval)
  }

  // ---- finishing a run -----------------------------------------------------------------

  /** `maybeRetryDepRun`: another attempt if the run came over a surviving edge with retries left. */
  predicate Retries(db: Db, run: Run) {
    && run.dep.Some? && run.dep.value in db.edges && run.stack in db.stacks
    && run.attempt < db.edges[run.dep.value].retryCount
  }

  function FailRun(db: Db, r: RunId): Db
    requires r in db.runs
  {
    var run := db.runs[r];
    var db1 := SetRun(db, r, run.(status := Failed, finishedAt := Some(db.clock)));
    if Retries(db1, run)
    then Insert(db1, NewRun(run.stack, db.stacks[run.stack].pool, Tracked, run.dep, run.attempt + 1))
    else db1
  }

  function CompletePlan(db: Db, r: RunId, v: PostPlanGate.Verdict): Db
    requires r in db.runs && db.runs[r].stack in db.stacks
  {
    var run := db.runs[r];
    match PostPlanGate.Decide(db.stacks[run.stack].autoApply, run.kind == Tracked, v)
    case Failed => FailRun(db, r)
    case Confirmed => SetRun(db, r, run.(status := Confirmed, approvedAt := Some(db.clock)))
    case PendingApproval => SetRun(db, r, run.(status := PendingApproval, finishedAt := Some(db.clock)))
    case Unconfirmed => SetRun(db, r, run.(status := Unconfirmed, finishedAt := Some(db.clock)))
  }

  function MarkFinished(db: Db, r: RunId): Db
    requires r in db.runs
  {
    SetRun(db, r, db.runs[r].(status := Finished, finishedAt := Some(db.clock)))
  }

  /** The row Finish selects: this pool's, still preparing, joined with its stack. */
  predicate Accepts(db: Db, pool: PoolId, r: RunId) {
    r in db.runs && db.runs[r].pool == Some(pool) && db.runs[r].status == Preparing && db.runs[r].stack in db.stacks
  }

  // ---- events ------------------------------------------------------------------------------

  datatype Event =
    | Create(stack: StackId, kind: Kind)
    | Claim(pool: PoolId)
    | Report(run: RunId, applying: bool)
    | Finish(pool: PoolId, run: RunId, success: bool, verdict: PostPlanGate.Verdict,
             eval: EdgeEval, rows: seq<StackId>)
    | Confirm(run: RunId) | Approve(run: RunId) | ChainApprove(run: RunId)
    | Discard(run: RunId) | Cancel(run: RunId) | Delete(run: RunId)
    | ChatConfirm(run: RunId) | ChatApprove(run: RunId) | ChatDiscard(run: RunId)
    | AddDownstream(org: OrgId, up: StackId, down: StackId)
    | RemoveDownstream(org: OrgId, up: StackId, down: StackId)
    | SetRetry(org: OrgId, up: StackId, down: StackId, count: int, seconds: int)
    | SetPredicate(org: OrgId, up: StackId, down: StackId, when: Predicate, parse: FloatParser)
    | EditStack(stack: StackId, config: Stack)

  /** Calls addressed to one run, other than its claim and its finish. */
  predicate IsRunEvent(ev: Event) {
    || ev.Report? || ev.Confirm? || ev.Approve? || ev.ChainApprove? || ev.Discard? || ev.Cancel? || ev.Delete?
    || ev.ChatConfirm? || ev.ChatApprove? || ev.ChatDiscard?
  }

  predicate IsConfigEvent(ev: Event) {
    ev.AddDownstream? || ev.RemoveDownstream? || ev.SetRetry? || ev.SetPredicate? || ev.EditStack?
  }

  /** The finish of an apply phase: the one step that triggers downstream stacks. */
  predicate IsApplyFinish(db: Db, ev: Event) {
    ev.Finish? && Accepts(db, ev.pool, ev.run) && ev.success && db.runs[ev.run].ApplyPhase()
  }

  /** The only nondeterminism of a step is the row order of the trigger query. */
  ghost predicate Enabled(db: Db, ev: Event) {
    IsApplyFinish(db, ev) ==>
      IsListing(MarkFinished(db, ev.run), db.runs[ev.run].stack, ev.rows)
  }

  predicate Claimable(run: Run, pool: PoolId) {
    run.pool == Some(pool) && (run.status == Queued || run.status == Confirmed)
  }

  ghost predicate IsOldestClaimable(runs: map<RunId, Run>, pool: PoolId, r: RunId) {
    r in runs && Claimable(runs[r], pool) && forall q | q in runs && Claimable(runs[q], pool) :: r <= q
  }

  function Started(run: Run, now: Time): Run {
    run.(status := Preparing, startedAt := if run.startedAt.None? then Some(now) else run.startedAt)
  }

  /** UPDATE … WHERE id = r AND status IN (from). */
  predicate Guarded(db: Db, r: RunId, from: set<Status>) {
    r in db.runs && db.runs[r].status in from
  }

  const CANCELABLE := {Queued, Preparing, Planning, Unconfirmed, PendingApproval, Applying}

  function WithStatus(db: Db, r: RunId, s: Status): Db
    requires r in db.runs
  {
    SetRun(db, r, db.runs[r].(status := s))
  }

  function Approved(db: Db, r: RunId, s: Status): Db
    requires r in db.runs
  {
    SetRun(db, r, db.runs[r].(status := s, approvedAt := Some(db.clock)))
  }

  function HandleCreate(db: Db, s: StackId, kind: Kind): Db {
    if s in db.stacks && !db.stacks[s].locked then Insert(db, NewRun(s, db.stacks[s].pool, kind, None, 0)) else db
  }

  ghost function HandleClaim(db: Db, pool: PoolId): Db {
    if r :| IsOldestClaimable(db.runs, pool, r) then SetRun(db, r, Started(db.runs[r], db.clock)) else db
  }

  ghost function HandleFinish(db: Db, ev: Event): Db
    requires ev.Finish? && Enabled(db, ev)
  {
    if !Accepts(db, ev.pool, ev.run) then db
    else if !ev.success then FailRun(db, ev.run)
    else if db.runs[ev.run].PlanPhase() then CompletePlan(db, ev.run, ev.verdict)
    else if db.runs[ev.run].ApplyPhase() then
      TriggerAll(MarkFinished(db, ev.run), db.runs[ev.run].stack, ev.rows, ev.eval)
    else MarkFinished(db, ev.run)
  }

  ghost function HandleRun(db: Db, ev: Event): Db
    requires IsRunEvent(ev)
  {
    var r := ev.run;
    if r !in db.runs then db
    else
      var status := db.runs[r].status;
      match ev
      case Report(_, applying) =>
        if status.Terminal() then db else WithStatus(db, r, if applying then Applying else Planning)
      case Confirm(_) => if status == Unconfirmed then Approved(db, r, Confirmed) else db
      case ChatConfirm(_) => if status == Unconfirmed then Approved(db, r, Confirmed) else db
      case Approve(_) =>
        if status != PendingApproval || db.runs[r].stack !in db.stacks || db.stacks[db.runs[r].stack].chained then db
        else if db.stacks[db.runs[r].stack].autoApply && db.runs[r].kind != Destroy then Approved(db, r, Confirmed)
        else Approved(db, r, Unconfirmed)
      case ChainApprove(_) =>
        if status == PendingApproval && db.runs[r].stack in db.stacks && db.stacks[db.runs[r].stack].chained
        then Approved(db, r, Unconfirmed) else db
      case ChatApprove(_) => if status == PendingApproval then Approved(db, r, Unconfirmed) else db
      case Discard(_) => if status == Unconfirmed then WithStatus(db, r, Discarded) else db
      case ChatDiscard(_) =>
        if status == Unconfirmed || status == PendingApproval
        then SetRun(db, r, db.runs[r].(status := Discarded, finishedAt := Some(db.clock))) else db
      case Cancel(_) => if status in CANCELABLE then WithStatus(db, r, Canceled) else db
      case Delete(_) => if status.Terminal() then db.(runs := db.runs - {r}) else db
  }

  predicate Owns(db: Db, org: OrgId, s: StackId) {
    s in db.stacks && db.stacks[s].org == org
  }

  /** Deleting an edge row sets triggered_by_dep_id to NULL on the runs it triggered. */
  function ForgetEdge(runs: map<RunId, Run>, e: Edge): map<RunId, Run> {
    map r | r in runs :: if runs[r].dep == Some(e) then runs[r].(dep := None) else runs[r]
  }

  /** A predicate with a missing part is stored as NULLs. */
  function Stored(p: Predicate): Predicate {
    if p.IsSet() then p else Predicate("", "", "")
  }

  ghost function HandleConfig(db: Db, ev: Event): Db
    requires IsConfigEvent(ev)
  {
    match ev
    case AddDownstream(org, u, d) =>
      if u == d || !Owns(db, org, u) || !Owns(db, org, d) || Reaches(db.edges.Keys, d, u) || (u, d) in db.edges then db
      else db.(edges := db.edges[(u, d) := DEFAULT_EDGE])
    case RemoveDownstream(org, u, d) =>
      if Owns(db, org, u) && (u, d) in db.edges
      then db.(edges := db.edges - {(u, d)}, runs := ForgetEdge(db.runs, (u, d))) else db
    case SetRetry(org, u, d, count, seconds) =>
      if 0 <= count <= 10 && 1 <= seconds <= 3600 && Owns(db, org, u) && (u, d) in db.edges
      then db.(edges := db.edges[(u, d) := db.edges[(u, d)].(retryCount := count, backoff := seconds)]) else db
    case SetPredicate(org, u, d, when, parse) =>
      if Validate(when, parse) && Owns(db, org, u) && (u, d) in db.edges
      then db.(edges := db.edges[(u, d) := db.edges[(u, d)].(when := Stored(when))]) else db
    case EditStack(s, config) => db.(stacks := db.stacks[s := config])
  }

  ghost function Handle(db: Db, ev: Event): Db
    requires Enabled(db, ev)
  {
    if ev.Create? then HandleCreate(db, ev.stack, ev.kind)
    else if ev.Claim? then HandleClaim(db, ev.pool)
    else if ev.Finish? then HandleFinish(db, ev)
    else if IsConfigEvent(ev) then HandleConfig(db, ev)
    else HandleRun(db, ev)
  }

  ghost function Step(db: Db, ev: Event): Db
    requires Enabled(db, ev)
  {
    Handle(db, ev).(clock := db.clock + 1)
  }

  // ---- executions ------------------------------------------------------------------------------

  ghost predicate IsExecution(db: Db, evs: seq<Event>)
    decreases |evs|, 0
  {
    evs == [] ||
    (var init := evs[..|evs| - 1]; IsExecution(db, init) && Enabled(After(db, init), evs[|evs| - 1]))
  }

  ghost function After(db: Db, evs: seq<Event>): Db
    requires IsExecution(db, evs)
    decreases |evs|, 1
  {
    if evs == [] then db else Step(After(db, evs[..|evs| - 1]), evs[|evs| - 1])
  }

  /** Fresh installation: stacks exist, nothing else does. */
  ghost predicate Initial(db: Db) {
    db.edges == map[] && db.runs == map[] && db.nextRun == 0 && db.clock == 0
  }
}
