/** The handlers of the API server and the finalizer as they work on the tables,
    statement by statement. Each is proved to perform the step of RunMachine. */
module RunServer {
  import opened Options
  import opened DependencyGraph
  import opened Predicates
  import opened RunMachine
  import PostPlanGate
  import Cascade
  import opened RunLifecycle
  import opened FanInWave
  import opened Triggers

  /** `Found` is the redirect of a chat link; `ToChain` hands the request to approveWithChain. */
  datatype Response =
    | BadRequest | Forbidden | NotFound | Conflict | TooManyRequests | NoContent | Created | Found | ToChain

  /** A call that is turned away before it reaches the tables. */
  function Untouched(db: Db): Db {
    db.(clock := db.clock + 1)
  }

  /** Such a call is a step as well, one that changes nothing: what holds over executions covers it. */
  lemma {:induction false} RefusedCallIsAStep(db: Db)
    ensures
      var ev := SetRetry(0, 0, 0, -1, 0);
      Enabled(db, ev) && Step(db, ev) == Untouched(db)
  {
  }

  /** The runs of an org that count towards its concurrent-run cap; `confirmed` ones do not. */
  function ActiveRuns(db: Db, org: OrgId): set<RunId> {
    set r | r in db.runs && Owns(db, org, db.runs[r].stack) && db.runs[r].status.InFlight()
  }

  /** The run_type of the job spec an agent receives. */
  datatype JobType = PlanJob(kind: Kind) | ApplyJob

  class Server {
    var stacks: map<StackId, Stack>
    var edges: map<Edge, EdgeConfig>
    var runs: map<RunId, Run>
    var nextRun: RunId
    var clock: Time

    constructor (initialStacks: map<StackId, Stack>)
      ensures Initial(Current()) && stacks == initialStacks
    {
      stacks, edges, runs, nextRun, clock := initialStacks, map[], map[], 0, 0;
    }

    ghost function Current(): Db
      reads this
    {
      Db(stacks, edges, runs, nextRun, clock)
    }

    method InsertRun(run: Run)
      modifies this`runs, this`nextRun
      ensures Current() == Insert(old(Current()), run)
    {
      runs := runs[nextRun := run];
      nextRun := nextRun + 1;
    }

    // ---- the trigger query ---------------------------------------------------------

    /** `SELECT MAX(finished_at) … status = 'finished' AND type IN ('tracked','destroy')` */
    method LatestFinish(s: StackId) returns (latest: Option<Time>)
      ensures latest.None? <==> FinishTimes(runs, s) == {}
      ensures latest.Some? ==> latest.value in FinishTimes(runs, s)
      ensures latest.Some? ==> forall t | t in FinishTimes(runs, s) :: t <= latest.value
    {
      latest := None;
      var remaining := runs.Keys;
      while remaining != {}
        invariant remaining <= runs.Keys
        invariant latest.Some? ==> latest.value in FinishTimes(runs, s)
        invariant forall r | r in runs.Keys - remaining && runs[r].stack == s && runs[r].status == Finished
                             && runs[r].kind != Proposed && runs[r].finishedAt.Some? ::
                    latest.Some? && runs[r].finishedAt.value <= latest.value
        decreases remaining
      {
        var r :| r in remaining;
        var run := runs[r];
        if run.stack == s && run.status == Finished && run.kind != Proposed && run.finishedAt.Some? {
          if latest.None? || latest.value < run.finishedAt.value {
            latest := run.finishedAt;
          }
        }
        remaining := remaining - {r};
      }
    }

    /** `SELECT MAX(started_at) FROM runs WHERE stack_id = s` */
    method LatestStart(s: StackId) returns (latest: Option<Time>)
      ensures latest.None? <==> StartTimes(runs, s) == {}
      ensures latest.Some? ==> latest.value in StartTimes(runs, s)
      ensures latest.Some? ==> forall t | t in StartTimes(runs, s) :: t <= latest.value
    {
      latest := None;
      var remaining := runs.Keys;
      while remaining != {}
        invariant remaining <= runs.Keys
        invariant latest.Some? ==> latest.value in StartTimes(runs, s)
        invariant forall r | r in runs.Keys - remaining && runs[r].stack == s && runs[r].startedAt.Some? ::
                    latest.Some? && runs[r].startedAt.value <= latest.value
        decreases remaining
      {
        var r :| r in remaining;
        var run := runs[r];
        if run.stack == s && run.startedAt.Some? {
          if latest.None? || latest.value < run.startedAt.value {
            latest := run.startedAt;
          }
        }
        remaining := remaining - {r};
      }
    }

    /** The lateral join of the readiness clause for one other upstream. */
    method IsReady(up: StackId, down: StackId) returns (ready: bool)
      ensures ready == Ready(runs, up, down)
    {
      var latestUp := LatestFinish(up);
      var latestDown := LatestStart(down);
      ready := latestUp.None? || latestDown.None? || latestUp.value > latestDown.value;
      if latestUp.Some? && latestDown.Some? && latestUp.value > latestDown.value {
        assert forall s | s in StartTimes(runs, down) :: s < latestUp.value;
      }
    }

    method IsEligible(up: StackId, down: StackId) returns (eligible: bool)
      ensures eligible == Eligible(Current(), up, down)
    {
      if up !in stacks || (up, down) !in edges || down !in stacks || stacks[down].disabled || stacks[down].locked
         || stacks[down].org != stacks[up].org || !Idle(runs, down) {
        return false;
      }
      var remaining := edges.Keys;
      while remaining != {}
        invariant remaining <= edges.Keys
        invariant forall e | e in edges.Keys - remaining && e.1 == down && e.0 != up :: Ready(runs, e.0, down)
        decreases remaining
      {
        var e :| e in remaining;
        if e.1 == down && e.0 != up {
          var ready := IsReady(e.0, down);
          if !ready {
            return false;
          }
        }
        remaining := remaining - {e};
      }
      eligible := true;
    }

    /** First loop: scan the eligible rows, in whatever order they come. */
    method EligibleRows(up: StackId) returns (rows: seq<StackId>)
      ensures IsListing(Current(), up, rows)
    {
      rows := [];
      var remaining := set e | e in edges && e.0 == up :: e.1;
      while remaining != {}
        invariant forall d | d in remaining :: (up, d) in edges
        invariant forall d | d in rows :: d !in remaining && Eligible(Current(), up, d)
        invariant forall d: StackId | Eligible(Current(), up, d) :: d in remaining || d in rows
        invariant forall i, j | 0 <= i < j < |rows| :: rows[i] != rows[j]
        decreases remaining
      {
        var d :| d in remaining;
        var eligible := IsEligible(up, d);
        if eligible {
          rows := rows + [d];
        }
        remaining := remaining - {d};
      }
    }

    /** `triggerDownstreamStacks`: query, then insert one run per matching row. */
    method TriggerDownstreamStacks(up: StackId, eval: EdgeEval) returns (rows: seq<StackId>)
      modifies this`runs, this`nextRun
      ensures IsListing(old(Current()), up, rows) && JoinsUp(old(Current()), up, rows)
      ensures Current() == TriggerAll(old(Current()), up, rows, eval)
      ensures IdsBelowNext(old(Current())) ==> forall d: StackId ::
        if d in rows && (eval.LoadFailed? || Matches(edges[(up, d)].when, eval.fields, eval.parse))
        then GainsQueuedRun(old(Current()), Current(), up, d)
        else RunsOf(runs, d) == RunsOf(old(runs), d)
    {
      hide Eligible, GainsQueuedRun, RunsOf;
      rows := EligibleRows(up);
      ghost var before := Current();
      ListedRowsJoin(before, up, rows);
      for i := 0 to |rows|
        invariant JoinsUp(before, up, rows[..i])
        invariant Current() == TriggerAll(before, up, rows[..i], eval)
      {
        var d := rows[i];
        assert rows[..i + 1][..i] == rows[..i];
        assert d in rows;
        if Fires(eval, edges[(up, d)].when) {
          InsertRun(NewRun(d, stacks[d].pool, Tracked, Some((up, d)), 0));
        }
      }
      assert rows[..|rows|] == rows;
      if IdsBelowNext(before) {
        forall d: StackId
          ensures if d in rows && (eval.LoadFailed? || Matches(edges[(up, d)].when, eval.fields, eval.parse))
                  then GainsQueuedRun(before, Current(), up, d) else RunsOf(runs, d) == RunsOf(before.runs, d)
        {
          RowGainsIff(before, up, rows, eval, d);
        }
      }
    }

    // ---- failing and finishing -----------------------------------------------------------

    /** `Fail` and the retry it schedules; the delay is for the in-process queue,
        pool agents take the new run on their next poll. */
    method Fail(r: RunId) returns (delay: Option<nat>)
      requires r in runs
      modifies this`runs, this`nextRun
      ensures Current() == FailRun(old(Current()), r)
      ensures
        var run := old(runs)[r];
        var failed := old(runs)[r := run.(status := Failed, finishedAt := Some(clock))];
        if run.dep.Some? && run.dep.value in edges && run.stack in stacks && run.attempt < edges[run.dep.value].retryCount
        then runs == failed[old(nextRun) := Run(run.stack, stacks[run.stack].pool, Tracked, Queued, None, None, None,
                                                run.dep, run.attempt + 1)]
             && nextRun == old(nextRun) + 1
        else runs == failed && nextRun == old(nextRun)
      ensures delay.Some? <==> Retries(old(Current()), old(runs)[r])
      ensures delay.Some? ==>
        delay.value == Cascade.RetryDelay(edges[old(runs)[r].dep.value].backoff, old(runs)[r].attempt)
    {
      var run := runs[r];
      runs := runs[r := run.(status := Failed, finishedAt := Some(clock))];
      if run.dep.None? || run.dep.value !in edges || run.stack !in stacks {
        return None;
      }
      var config := edges[run.dep.value];
      if run.attempt >= config.retryCount {
        return None;
      }
      delay := Some(Cascade.RetryDelay(config.backoff, run.attempt));
      InsertRun(NewRun(run.stack, stacks[run.stack].pool, Tracked, run.dep, run.attempt + 1));
    }

    method CompletePlanPhase(r: RunId, v: PostPlanGate.Verdict)
      requires r in runs && runs[r].stack in stacks
      modifies this`runs, this`nextRun
      ensures Current() == CompletePlan(old(Current()), r, v)
      ensures
        var run := old(runs)[r];
        if v.denied
        then IdsBelowNext(old(Current())) ==> r in runs && runs[r] == run.(status := Failed, finishedAt := Some(clock))
        else runs == old(runs)[r := if v.requiresApproval then run.(status := PendingApproval, finishedAt := Some(clock))
                                    else if stacks[run.stack].autoApply && run.kind == Tracked && !v.blockedByBudget
                                    then run.(status := Confirmed, approvedAt := Some(clock))
                                    else run.(status := Unconfirmed, finishedAt := Some(clock))]
      ensures IdsBelowNext(old(Current())) ==> forall q | q in old(runs) && q != r :: q in runs && runs[q] == old(runs)[q]
    {
      var run := runs[r];
      if v.denied {
        var _ := Fail(r);
        return;
      }
      if stacks[run.stack].autoApply && run.kind == Tracked && !v.requiresApproval && !v.blockedByBudget {
        runs := runs[r := run.(status := Confirmed, approvedAt := Some(clock))];
        return;
      }
      var finalStatus := Unconfirmed;
      if v.requiresApproval {
        finalStatus := PendingApproval;
      }
      runs := runs[r := run.(status := finalStatus, finishedAt := Some(clock))];
    }

    /** `Complete`: what a successful phase leads to, by run type and approved_at. */
    method Complete(r: RunId, verdict: PostPlanGate.Verdict, eval: EdgeEval) returns (rows: seq<StackId>)
      requires r in runs && runs[r].stack in stacks
      modifies this`runs, this`nextRun
      ensures !old(runs)[r].ApplyPhase() ==> rows == []
      ensures old(runs)[r].PlanPhase() ==> Current() == CompletePlan(old(Current()), r, verdict)
      ensures old(runs)[r].kind == Proposed ==> Current() == MarkFinished(old(Current()), r)
      ensures old(runs)[r].ApplyPhase() ==>
        var marked := MarkFinished(old(Current()), r);
        && IsListing(marked, old(runs)[r].stack, rows) && JoinsUp(marked, old(runs)[r].stack, rows)
        && Current() == TriggerAll(marked, old(runs)[r].stack, rows, eval)
      ensures IdsBelowNext(old(Current())) ==>
        var run := old(runs)[r];
        && r in runs
        && (runs[r] == if run.kind == Proposed || run.approvedAt.Some?
                       then run.(status := Finished, finishedAt := Some(clock))
                       else if verdict.denied then run.(status := Failed, finishedAt := Some(clock))
                       else if verdict.requiresApproval then run.(status := PendingApproval, finishedAt := Some(clock))
                       else if stacks[run.stack].autoApply && run.kind == Tracked && !verdict.blockedByBudget
                       then run.(status := Confirmed, approvedAt := Some(clock))
                       else run.(status := Unconfirmed, finishedAt := Some(clock)))
        && forall q | q in old(runs) && q != r :: q in runs && runs[q] == old(runs)[q]
    {
      hide TriggerAll, Eligible, IsListing, CompletePlan;
      rows := [];
      var run := runs[r];
      if run.kind == Proposed {
        runs := runs[r := run.(status := Finished, finishedAt := Some(clock))];
      } else if run.approvedAt.None? {
        CompletePlanPhase(r, verdict);
      } else {
        runs := runs[r := run.(status := Finished, finishedAt := Some(clock))];
        ghost var marked := Current();
        rows := TriggerDownstreamStacks(run.stack, eval);
        if IdsBelowNext(marked) {
          TriggerAllOnlyTriggers(marked, run.stack, rows, eval);
        }
      }
    }

    /** The agent's finish call. */
    method FinishRun(pool: PoolId, r: RunId, success: bool, verdict: PostPlanGate.Verdict, eval: EdgeEval)
      returns (response: Response, rows: seq<StackId>)
      modifies this`runs, this`nextRun, this`clock
      ensures Enabled(old(Current()), Finish(pool, r, success, verdict, eval, rows))
      ensures Current() == Step(old(Current()), Finish(pool, r, success, verdict, eval, rows))
      ensures response == NotFound <==>
        !(r in old(runs) && old(runs)[r].pool == Some(pool) && old(runs)[r].status == Preparing && old(runs)[r].stack in stacks)
      ensures response in {NotFound, NoContent}
      ensures response == NotFound ==> runs == old(runs)
      ensures IdsBelowNext(old(Current())) ==> forall q | q in old(runs) && q != r :: q in runs && runs[q] == old(runs)[q]
      ensures IdsBelowNext(old(Current())) && response == NoContent ==>
        var run := old(runs)[r];
        && r in runs
        && (!success ==> runs[r] == run.(status := Failed, finishedAt := Some(old(clock))))
        && (success && (run.kind == Proposed || run.approvedAt.Some?) ==>
              runs[r] == run.(status := Finished, finishedAt := Some(old(clock))))
        && (success && run.kind != Proposed && run.approvedAt.None? ==>
              runs[r].status == (if verdict.denied then Failed
                                 else if verdict.requiresApproval then PendingApproval
                                 else if stacks[run.stack].autoApply && run.kind == Tracked && !verdict.blockedByBudget
                                 then Confirmed else Unconfirmed))
    {
      hide TriggerAll, Eligible, IsListing, CompletePlan;
      rows, response := [], NoContent;
      if r !in runs || runs[r].pool != Some(pool) || runs[r].status != Preparing || runs[r].stack !in stacks {
        response := NotFound;
      } else if !success {
        var _ := Fail(r);
      } else {
        rows := Complete(r, verdict, eval);
      }
      clock := clock + 1;
    }

    // ---- claiming ------------------------------------------------------------------------

    /** Oldest queued or confirmed run of the pool, marked preparing. RETURNING yields the
        updated status, so the comparison with `confirmed` below never succeeds and
        the agent is never told that this is an apply. */
    method ClaimRun(pool: PoolId) returns (claimed: Option<RunId>, job: JobType)
      modifies this`runs, this`clock
      ensures Current() == Step(old(Current()), Claim(pool))
      ensures claimed.None? <==>
        forall q | q in old(runs) :: !(old(runs)[q].pool == Some(pool) && old(runs)[q].status in {Queued, Confirmed})
      ensures claimed.None? ==> runs == old(runs)
      ensures claimed.Some? ==>
        var r := claimed.value;
        && r in old(runs) && old(runs)[r].pool == Some(pool) && old(runs)[r].status in {Queued, Confirmed}
        && (forall q | q in old(runs) && old(runs)[q].pool == Some(pool) && old(runs)[q].status in {Queued, Confirmed} :: r <= q)
        && job == PlanJob(old(runs)[r].kind)
        && runs == old(runs)[r := old(runs)[r].(
             status := Preparing,
             startedAt := if old(runs)[r].startedAt.None? then Some(old(clock)) else old(runs)[r].startedAt)]
    {
      claimed, job := None, ApplyJob;
      var remaining := runs.Keys;
      while remaining != {}
        invariant remaining <= runs.Keys
        invariant claimed.Some? ==> claimed.value in runs && Claimable(runs[claimed.value], pool)
        invariant forall q | q in runs.Keys - remaining && Claimable(runs[q], pool) ::
                    claimed.Some? && claimed.value <= q
        decreases remaining
      {
        var q :| q in remaining;
        if Claimable(runs[q], pool) && (claimed.None? || q < claimed.value) {
          claimed := Some(q);
        }
        remaining := remaining - {q};
      }
      if claimed.Some? {
        assert IsOldestClaimable(runs, pool, claimed.value);
        var run := runs[claimed.value];
        runs := runs[claimed.value := run.(status := Preparing,
                                           startedAt := if run.startedAt.None? then Some(clock) else run.startedAt)];
        var returned := runs[claimed.value];
        job := PlanJob(returned.kind);
        if returned.status == Confirmed {
          job := ApplyJob;
        }
      }
      clock := clock + 1;
    }

    // ---- guarded updates ----------------------------------------------------------------

    /** `countActiveRuns`. */
    method CountActiveRuns(org: OrgId) returns (n: nat)
      ensures n == |ActiveRuns(Current(), org)|
    {
      n := 0;
      ghost var counted: set<RunId> := {};
      var remaining := runs.Keys;
      while remaining != {}
        invariant remaining <= runs.Keys
        invariant counted == (set r | r in ActiveRuns(Current(), org) && r !in remaining)
        invariant n == |counted|
        decreases remaining
      {
        var r :| r in remaining;
        if runs[r].stack in stacks && stacks[runs[r].stack].org == org && runs[r].status.InFlight() {
          n := n + 1;
          counted := counted + {r};
        }
        remaining := remaining - {r};
      }
      assert counted == ActiveRuns(Current(), org);
    }

    /** A manual run, unless the stack is missing or locked or the org is at its cap. */
    method CreateRun(org: OrgId, s: StackId, kind: Kind, maxConcurrent: Option<int>) returns (response: Response)
      modifies this`runs, this`nextRun, this`clock
      ensures Current() == if response == TooManyRequests then Untouched(old(Current())) else Step(old(Current()), Create(s, kind))
      ensures response == NotFound <==> s !in old(stacks)
      ensures response == Conflict <==> s in old(stacks) && old(stacks)[s].locked
      ensures response == TooManyRequests <==>
        && s in old(stacks) && !old(stacks)[s].locked
        && maxConcurrent.Some? && |ActiveRuns(old(Current()), org)| >= maxConcurrent.value
      ensures response in {NotFound, Conflict, TooManyRequests, Created}
      ensures response == Created ==>
        && nextRun == old(nextRun) + 1
        && runs == old(runs)[old(nextRun) := Run(s, stacks[s].pool, kind, Queued, None, None, None, None, 0)]
      ensures response != Created ==> nextRun == old(nextRun) && runs == old(runs)
    {
      if s !in stacks {
        response := NotFound;
      } else if stacks[s].locked {
        response := Conflict;
      } else {
        var active := CountActiveRuns(org);
        if maxConcurrent.Some? && active >= maxConcurrent.value {
          response := TooManyRequests;
        } else {
          InsertRun(NewRun(s, stacks[s].pool, kind, None, 0));
          response := Created;
        }
      }
      clock := clock + 1;
    }

    /** The runner's callback, with the run its token is scoped to and the status it reports. */
    method ReportStatus(r: RunId, tokenRun: RunId, reported: string) returns (response: Response)
      modifies this`runs, this`clock
      ensures Current() == if response in {Forbidden, BadRequest} then Untouched(old(Current()))
                           else Step(old(Current()), Report(r, reported == "applying"))
      ensures response == Forbidden <==> tokenRun != r
      ensures response == BadRequest <==> tokenRun == r && reported !in {"planning", "applying"}
      ensures response == Conflict <==>
        && tokenRun == r && reported in {"planning", "applying"}
        && (r !in old(runs) || old(runs)[r].status in {Finished, Failed, Canceled, Discarded})
      ensures response in {Forbidden, BadRequest, Conflict, NoContent}
      ensures runs == if response != NoContent then old(runs)
                      else old(runs)[r := old(runs)[r].(status := if reported == "applying" then Applying else Planning)]
    {
      clock := clock + 1;
      if tokenRun != r {
        return Forbidden;
      }
      if reported !in {"planning", "applying"} {
        return BadRequest;
      }
      response := Conflict;
      if r in runs && runs[r].status !in {Canceled, Failed, Finished, Discarded} {
        runs := runs[r := runs[r].(status := if reported == "applying" then Applying else Planning)];
        response := NoContent;
      }
    }

    method ConfirmRun(r: RunId, chat: bool) returns (response: Response)
      modifies this`runs, this`clock
      ensures Current() == Step(old(Current()), if chat then ChatConfirm(r) else Confirm(r))
      ensures response == if !Guarded(old(Current()), r, {Unconfirmed}) then Conflict else if chat then Found else NoContent
      ensures runs == if r in old(runs) && old(runs)[r].status == Unconfirmed
                      then old(runs)[r := old(runs)[r].(status := Confirmed, approvedAt := Some(old(clock)))]
                      else old(runs)
    {
      response := Conflict;
      if r in runs && runs[r].status == Unconfirmed {
        runs := runs[r := runs[r].(status := Confirmed, approvedAt := Some(clock))];
        response := if chat then Found else NoContent;
      }
      clock := clock + 1;
    }

    /** Single approval, for stacks without a chain; auto-apply goes straight on to confirmed. */
    method ApproveRun(r: RunId) returns (response: Response)
      modifies this`runs, this`clock
      ensures Current() == Step(old(Current()), Approve(r))
      ensures response == NotFound <==> r !in old(runs) || old(runs)[r].stack !in stacks
      ensures response == ToChain <==> r in old(runs) && old(runs)[r].stack in stacks && stacks[old(runs)[r].stack].chained
      ensures response == NoContent <==>
        && Guarded(old(Current()), r, {PendingApproval})
        && old(runs)[r].stack in stacks && !stacks[old(runs)[r].stack].chained
      ensures response in {NotFound, ToChain, Conflict, NoContent}
      ensures response != NoContent ==> runs == old(runs)
      ensures response == NoContent ==>
        var run := old(runs)[r];
        var next := if stacks[run.stack].autoApply && run.kind != Destroy then Confirmed else Unconfirmed;
        runs == old(runs)[r := run.(status := next, approvedAt := Some(old(clock)))]
    {
      response := Conflict;
      if r !in runs || runs[r].stack !in stacks {
        response := NotFound;
      } else if stacks[runs[r].stack].chained {
        response := ToChain;
      } else if runs[r].status == PendingApproval {
        runs := runs[r := runs[r].(status := Unconfirmed, approvedAt := Some(clock))];
        if stacks[runs[r].stack].autoApply && runs[r].kind != Destroy {
          runs := runs[r := runs[r].(status := Confirmed)];
        }
        response := NoContent;
      }
      clock := clock + 1;
    }

    method ChatApproveRun(r: RunId) returns (response: Response)
      modifies this`runs, this`clock
      ensures Current() == Step(old(Current()), ChatApprove(r))
      ensures response == if Guarded(old(Current()), r, {PendingApproval}) then Found else Conflict
      ensures runs == if r in old(runs) && old(runs)[r].status == PendingApproval
                      then old(runs)[r := old(runs)[r].(status := Unconfirmed, approvedAt := Some(old(clock)))]
                      else old(runs)
    {
      response := Conflict;
      if r in runs && runs[r].status == PendingApproval {
        runs := runs[r := runs[r].(status := Unconfirmed, approvedAt := Some(clock))];
        response := Found;
      }
      clock := clock + 1;
    }

    method DiscardRun(r: RunId, chat: bool) returns (response: Response)
      modifies this`runs, this`clock
      ensures Current() == Step(old(Current()), if chat then ChatDiscard(r) else Discard(r))
      ensures response ==
        if !Guarded(old(Current()), r, if chat then {Unconfirmed, PendingApproval} else {Unconfirmed}) then Conflict
        else if chat then Found else NoContent
      ensures runs == if r in old(runs) && (old(runs)[r].status == Unconfirmed || (chat && old(runs)[r].status == PendingApproval))
                      then old(runs)[r := old(runs)[r].(
                             status := Discarded,
                             finishedAt := if chat then Some(old(clock)) else old(runs)[r].finishedAt)]
                      else old(runs)
    {
      response := Conflict;
      if r in runs && (runs[r].status == Unconfirmed || (chat && runs[r].status == PendingApproval)) {
        if chat {
          runs := runs[r := runs[r].(status := Discarded, finishedAt := Some(clock))];
          response := Found;
        } else {
          runs := runs[r := runs[r].(status := Discarded)];
          response := NoContent;
        }
      }
      clock := clock + 1;
    }

    /** A signed chat link: the action it names, once its token has been checked. */
    method ChatOpsAction(r: RunId, action: string, tokenValid: bool) returns (response: Response)
      modifies this`runs, this`clock
      ensures response == BadRequest <==> action !in {"confirm", "approve", "discard"}
      ensures response == Forbidden <==> action in {"confirm", "approve", "discard"} && !tokenValid
      ensures response in {BadRequest, Forbidden, Conflict, Found}
      ensures Current() ==
        if response in {BadRequest, Forbidden} then Untouched(old(Current()))
        else Step(old(Current()), if action == "confirm" then ChatConfirm(r)
                                  else if action == "approve" then ChatApprove(r) else ChatDiscard(r))
      ensures response != Found ==> runs == old(runs)
      ensures response == Found ==> r in old(runs)
      ensures response == Found ==>
        var run := old(runs)[r];
        && runs.Keys == old(runs).Keys && (forall q | q in runs && q != r :: runs[q] == old(runs)[q])
        && (action == "confirm" ==>
              run.status == Unconfirmed && runs[r] == run.(status := Confirmed, approvedAt := Some(old(clock))))
        && (action == "approve" ==>
              run.status == PendingApproval && runs[r] == run.(status := Unconfirmed, approvedAt := Some(old(clock))))
        && (action == "discard" ==>
              run.status in {Unconfirmed, PendingApproval} && runs[r] == run.(status := Discarded, finishedAt := Some(old(clock))))
    {
      hide Step;
      if action !in {"confirm", "approve", "discard"} {
        response := BadRequest;
        clock := clock + 1;
      } else if !tokenValid {
        response := Forbidden;
        clock := clock + 1;
      } else if action == "confirm" {
        response := ConfirmRun(r, true);
      } else if action == "approve" {
        response := ChatApproveRun(r);
      } else {
        response := DiscardRun(r, true);
      }
    }

    method CancelRun(r: RunId) returns (response: Response)
      modifies this`runs, this`clock
      ensures Current() == Step(old(Current()), Cancel(r))
      ensures response ==
        if Guarded(old(Current()), r, {Queued, Preparing, Planning, Unconfirmed, PendingApproval, Applying})
        then NoContent else Conflict
      ensures runs == if response == NoContent then old(runs)[r := old(runs)[r].(status := Canceled)] else old(runs)
    {
      response := Conflict;
      if r in runs && runs[r].status in {Queued, Preparing, Planning, Unconfirmed, PendingApproval, Applying} {
        runs := runs[r := runs[r].(status := Canceled)];
        response := NoContent;
      }
      clock := clock + 1;
    }

    /** Only terminal runs of the caller's org are deleted. */
    method DeleteRun(org: OrgId, r: RunId) returns (response: Response)
      modifies this`runs, this`clock
      ensures Current() == if response == NotFound then Untouched(old(Current())) else Step(old(Current()), Delete(r))
      ensures response == NotFound <==> r !in old(runs) || !Owns(old(Current()), org, old(runs)[r].stack)
      ensures response == NoContent <==>
        && r in old(runs) && Owns(old(Current()), org, old(runs)[r].stack)
        && old(runs)[r].status in {Finished, Failed, Canceled, Discarded}
      ensures response in {NotFound, Conflict, NoContent}
      ensures runs == if response == NoContent then old(runs) - {r} else old(runs)
    {
      if r !in runs || runs[r].stack !in stacks || stacks[runs[r].stack].org != org {
        response := NotFound;
      } else if runs[r].status !in {Finished, Failed, Canceled, Discarded} {
        response := Conflict;
      } else {
        runs := runs - {r};
        response := NoContent;
      }
      clock := clock + 1;
    }

    // ---- dependency edges ------------------------------------------------------------------

    /** Self-loops and edges that would close a cycle are turned away. */
    method AddDownstreamEdge(org: OrgId, up: StackId, down: StackId) returns (response: Response)
      modifies this`edges, this`clock
      ensures Current() == Step(old(Current()), AddDownstream(org, up, down))
      ensures response == BadRequest <==> up == down
      ensures response == NotFound <==> up != down && !(Owns(old(Current()), org, up) && Owns(old(Current()), org, down))
      ensures response == Conflict ==> Reaches(old(edges).Keys, down, up)
      ensures response == NoContent ==> (up, down) in old(edges)
      ensures response == Created ==>
        (up, down) !in old(edges) && edges == old(edges)[(up, down) := EdgeConfig(Predicate("", "", ""), 0, 60)]
      ensures response != Created ==> edges == old(edges)
      ensures response in {BadRequest, NotFound, Conflict, NoContent, Created}
      ensures Acyclic(old(edges).Keys) && Owns(old(Current()), org, up) && Owns(old(Current()), org, down) ==>
        (response in {BadRequest, Conflict} <==> !Acyclic(old(edges).Keys + {(up, down)}))
      ensures Acyclic(old(edges).Keys) ==> Acyclic(edges.Keys)
    {
      ghost var g := edges.Keys;
      if Acyclic(g) {
        InsertGuardIsExact(g, up, down);
      }
      clock := clock + 1;
      if up == down {
        return BadRequest;
      }
      if up !in stacks || stacks[up].org != org || down !in stacks || stacks[down].org != org {
        return NotFound;
      }
      var reachable := ReachableFrom(edges.Keys, down);
      if up in reachable {
        return Conflict;
      }
      if (up, down) in edges {
        return NoContent;  // ON CONFLICT DO NOTHING
      }
      edges := edges[(up, down) := DEFAULT_EDGE];
      assert edges.Keys == g + {(up, down)};
      response := Created;
    }

    method RemoveDownstreamEdge(org: OrgId, up: StackId, down: StackId) returns (response: Response)
      modifies this`edges, this`runs, this`clock
      ensures Current() == Step(old(Current()), RemoveDownstream(org, up, down))
      ensures response == if Owns(old(Current()), org, up) && (up, down) in old(edges) then NoContent else NotFound
      ensures response == NotFound ==> edges == old(edges) && runs == old(runs)
      ensures response == NoContent ==>
        && edges == old(edges) - {(up, down)} && runs.Keys == old(runs).Keys
        && forall r | r in runs ::
             runs[r] == if old(runs)[r].dep == Some((up, down)) then old(runs)[r].(dep := None) else old(runs)[r]
    {
      response := NotFound;
      if up in stacks && stacks[up].org == org && (up, down) in edges {
        edges := edges - {(up, down)};
        runs := map r | r in runs :: if runs[r].dep == Some((up, down)) then runs[r].(dep := None) else runs[r];
        response := NoContent;
      }
      clock := clock + 1;
    }

    method SetRetryPolicy(org: OrgId, up: StackId, down: StackId, count: int, seconds: int) returns (response: Response)
      modifies this`edges, this`clock
      ensures Current() == Step(old(Current()), SetRetry(org, up, down, count, seconds))
      ensures response == BadRequest <==> !(0 <= count <= 10 && 1 <= seconds <= 3600)
      ensures response == NotFound <==>
        0 <= count <= 10 && 1 <= seconds <= 3600 && !(Owns(old(Current()), org, up) && (up, down) in old(edges))
      ensures response in {BadRequest, NotFound, NoContent}
      ensures edges == if response == NoContent
                       then old(edges)[(up, down) := EdgeConfig(old(edges)[(up, down)].when, count, seconds)] else old(edges)
      ensures Cascade.RetriesCapped(old(Current())) ==> Cascade.RetriesCapped(Current())
    {
      clock := clock + 1;
      if count < 0 || count > 10 || seconds < 1 || seconds > 3600 {
        return BadRequest;
      }
      if up !in stacks || stacks[up].org != org || (up, down) !in edges {
        return NotFound;
      }
      edges := edges[(up, down) := edges[(up, down)].(retryCount := count, backoff := seconds)];
      response := NoContent;
    }

    method SetTriggerPredicate(org: OrgId, up: StackId, down: StackId, when: Predicate, parse: FloatParser)
      returns (response: Response)
      modifies this`edges, this`clock
      ensures Current() == Step(old(Current()), SetPredicate(org, up, down, when, parse))
      ensures response == BadRequest <==> !Validate(when, parse)
      ensures response == NotFound <==>
        Validate(when, parse) && !(Owns(old(Current()), org, up) && (up, down) in old(edges))
      ensures response in {BadRequest, NotFound, NoContent}
      ensures response != NoContent ==> edges == old(edges)
      ensures response == NoContent ==>
        var was := old(edges)[(up, down)];
        var stored := if when.field == "" || when.op == "" || when.value == "" then Predicate("", "", "") else when;
        edges == old(edges)[(up, down) := EdgeConfig(stored, was.retryCount, was.backoff)]
    {
      clock := clock + 1;
      if !Validate(when, parse) {
        return BadRequest;
      }
      if up !in stacks || stacks[up].org != org || (up, down) !in edges {
        return NotFound;
      }
      var stored := Predicate("", "", "");
      if when.IsSet() {
        stored := when;
      }
      edges := edges[(up, down) := edges[(up, down)].(when := stored)];
      response := NoContent;
    }
  }
}
