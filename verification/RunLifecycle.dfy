/** Whole-execution facts about single runs of worker-pool stacks: phases,
    approval gates, terminal statuses, status callbacks. */
module RunLifecycle {
  import opened Options
  import opened DependencyGraph
  import opened RunMachine
  import PostPlanGate

  // ---- what inserting runs leaves alone -------------------------------------------

  ghost predicate IdsBelowNext(db: Db) {
    forall r | r in db.runs :: r < db.nextRun
  }

  /** Old rows stay, new rows are queued dependency runs of listed stacks. */
  ghost predicate OnlyTriggers(db: Db, up: StackId, rows: seq<StackId>, db': Db) {
    && db.nextRun <= db'.nextRun && IdsBelowNext(db')
    && (forall r | r in db.runs :: r in db'.runs && db'.runs[r] == db.runs[r])
    && (forall r | r in db'.runs && r !in db.runs ::
          && db.nextRun <= r && db'.runs[r].stack in rows && db'.runs[r].stack in db.stacks
          && db'.runs[r] == NewRun(db'.runs[r].stack, db.stacks[db'.runs[r].stack].pool, Tracked,
                                   Some((up, db'.runs[r].stack)), 0))
  }

  lemma {:induction false} TriggerAllOnlyTriggers(db: Db, up: StackId, rows: seq<StackId>, eval: EdgeEval)
    requires IdsBelowNext(db) && JoinsUp(db, up, rows)
    ensures OnlyTriggers(db, up, rows, TriggerAll(db, up, rows, eval))
    decreases |rows|
  {
    if rows != [] {
      TriggerAllOnlyTriggers(db, up, rows[..|rows| - 1], eval);
    }
  }

  /** The finishing run's own row afterwards. */
  ghost function FinishedRow(db: Db, ev: Event): Run
    requires ev.Finish? && Accepts(db, ev.pool, ev.run)
  {
    var run := db.runs[ev.run];
    var failed := run.(status := Failed, finishedAt := Some(db.clock));
    if !ev.success then failed
    else if run.PlanPhase() then
      match PostPlanGate.Decide(db.stacks[run.stack].autoApply, run.kind == Tracked, ev.verdict)
      case Failed => failed
      case Confirmed => run.(status := Confirmed, approvedAt := Some(db.clock))
      case PendingApproval => run.(status := PendingApproval, finishedAt := Some(db.clock))
      case Unconfirmed => run.(status := Unconfirmed, finishedAt := Some(db.clock))
    else run.(status := Finished, finishedAt := Some(db.clock))
  }

  /** A finish rewrites its own run's row if it is accepted, leaves the others alone and adds queued ones. */
  ghost predicate OnlyOwnRow(db: Db, ev: Event, db': Db)
    requires ev.Finish?
  {
    && IdsBelowNext(db') && db.nextRun <= db'.nextRun
    && (forall r | r in db.runs :: r in db'.runs)
    && (forall r | r in db.runs && (r != ev.run || !Accepts(db, ev.pool, ev.run)) :: db'.runs[r] == db.runs[r])
    && (forall r | r in db'.runs && r !in db.runs ::
          db.nextRun <= r && db'.runs[r].status == Queued && db'.runs[r].approvedAt.None? && db'.runs[r].startedAt.None?)
    && (Accepts(db, ev.pool, ev.run) ==> db'.runs[ev.run] == FinishedRow(db, ev))
  }

  lemma {:induction false} ApplyFinishKeepsOthers(db: Db, ev: Event)
    requires IdsBelowNext(db) && ev.Finish? && Enabled(db, ev) && IsApplyFinish(db, ev)
    ensures OnlyOwnRow(db, ev, HandleFinish(db, ev))
  {
    hide TriggerAll;
    TriggerAllOnlyTriggers(MarkFinished(db, ev.run), db.runs[ev.run].stack, ev.rows, ev.eval);
  }

  lemma {:induction false} OtherFinishKeepsOthers(db: Db, ev: Event)
    requires IdsBelowNext(db) && ev.Finish? && Enabled(db, ev) && !IsApplyFinish(db, ev)
    ensures OnlyOwnRow(db, ev, HandleFinish(db, ev))
  {
    hide TriggerAll, Eligible, IsListing;
  }

  lemma {:induction false} FinishKeepsOtherRows(db: Db, ev: Event)
    requires IdsBelowNext(db) && ev.Finish? && Enabled(db, ev)
    ensures OnlyOwnRow(db, ev, Step(db, ev))
  {
    hide HandleFinish, IsListing, FinishedRow;
    if IsApplyFinish(db, ev) {
      ApplyFinishKeepsOthers(db, ev);
    } else {
      OtherFinishKeepsOthers(db, ev);
    }
  }

  lemma {:induction false} StepKeepsIds(db: Db, ev: Event)
    requires IdsBelowNext(db) && Enabled(db, ev)
    ensures IdsBelowNext(Step(db, ev)) && db.nextRun <= Step(db, ev).nextRun
    ensures forall r | r in Step(db, ev).runs && r !in db.runs ::
      && db.nextRun <= r && Step(db, ev).runs[r].status == Queued
      && Step(db, ev).runs[r].approvedAt.None? && Step(db, ev).runs[r].startedAt.None?
  {
    if ev.Finish? {
      FinishKeepsOtherRows(db, ev);
    }
  }

  // ---- history of one run ---------------------------------------------------------------

  /** claims: the statuses claims took the run from; confirms: entries into
      `confirmed`; approved / confirmedBy: an approve / confirm action took
      effect; approvalNeeded: the plan-phase policies asked for approval. */
  datatype History = History(claims: seq<Status>, confirms: nat, approved: bool, confirmedBy: bool,
                             approvalNeeded: bool)

  const FRESH := History([], 0, false, false, false)

  predicate IsApproveOf(ev: Event, r: RunId) {
    ev == Approve(r) || ev == ChainApprove(r) || ev == ChatApprove(r)
  }

  predicate IsConfirmOf(ev: Event, r: RunId) {
    ev == Confirm(r) || ev == ChatConfirm(r)
  }

  function Record(h: History, r: RunId, was: Run, ev: Event, now: Run): History {
    History(
      if ev.Claim? && was.status != Preparing && now.status == Preparing then h.claims + [was.status] else h.claims,
      if was.status != Confirmed && now.status == Confirmed then h.confirms + 1 else h.confirms,
      h.approved || (IsApproveOf(ev, r) && was.status == PendingApproval && now.status in {Unconfirmed, Confirmed}),
      h.confirmedBy || (IsConfirmOf(ev, r) && was.status == Unconfirmed && now.status == Confirmed),
      h.approvalNeeded || (ev.Finish? && ev.run == r && was.status == Preparing && now.status != was.status
                           && was.PlanPhase() && ev.success && ev.verdict.requiresApproval))
  }

  ghost function Histories(db: Db, evs: seq<Event>): (hs: map<RunId, History>)
    requires IsExecution(db, evs)
    ensures hs.Keys == After(db, evs).runs.Keys
  {
    if evs == [] then map r | r in db.runs :: FRESH
    else
      var init, ev := evs[..|evs| - 1], evs[|evs| - 1];
      var was, hs := After(db, init), Histories(db, init);
      var now := After(db, evs);
      map r | r in now.runs ::
        if r in was.runs then Record(hs[r], r, was.runs[r], ev, now.runs[r]) else FRESH
  }

  // ---- the invariant --------------------------------------------------------------------------

  ghost predicate Consistent(run: Run, h: History) {
    var first, both := [Queued], [Queued, Confirmed];
    && (h.claims == [] || h.claims == first || h.claims == both)
    && h.confirms <= 1
    && (match run.status
        case Queued => run.approvedAt.None? && h == FRESH
        case Preparing =>
          && h.claims != []
          && (run.approvedAt.Some? <==> h.claims == both)
          && (h.confirms == 1 <==> h.claims == both)
          && (h.claims == first ==> h == History(first, 0, false, false, false))
        case PendingApproval => run.approvedAt.None? && h == History(first, 0, false, false, true)
        case Unconfirmed => h.claims == first && h.confirms == 0 && (h.approvalNeeded ==> h.approved)
        case Confirmed => run.approvedAt.Some? && h.claims == first && h.confirms == 1
        case _ => true)
    && (run.kind == Proposed ==> h.confirms == 0 && run.approvedAt.None? && run.status !in {Unconfirmed, PendingApproval, Confirmed})
    && (h.confirms == 1 && h.approvalNeeded ==> h.approved)
    && (h.confirms == 1 && run.kind == Destroy ==> h.confirmedBy)
    && (h.confirms == 1 && !h.approved && !h.confirmedBy ==> run.kind == Tracked && !h.approvalNeeded)
    && (run.approvedAt.Some? ==> run.startedAt.Some?)
    && (run.status !in {Queued, Planning, Applying, Canceled} ==> run.startedAt.Some?)
  }

  lemma {:induction false} ClaimStaysConsistent(run: Run, h: History, r: RunId, pool: PoolId, now: Time)
    requires Consistent(run, h) && Claimable(run, pool)
    ensures Consistent(Started(run, now), Record(h, r, run, Claim(pool), Started(run, now)))
  {
  }

  lemma {:induction false} FinishStaysConsistent(db: Db, ev: Event, h: History)
    requires ev.Finish? && Accepts(db, ev.pool, ev.run) && Consistent(db.runs[ev.run], h)
    ensures Consistent(FinishedRow(db, ev), Record(h, ev.run, db.runs[ev.run], ev, FinishedRow(db, ev)))
  {
  }

  lemma {:induction false} RunEventStaysConsistent(db: Db, ev: Event, r: RunId, h: History)
    requires IsRunEvent(ev)
    requires r in db.runs && r in HandleRun(db, ev).runs && Consistent(db.runs[r], h)
    ensures Consistent(HandleRun(db, ev).runs[r], Record(h, r, db.runs[r], ev, HandleRun(db, ev).runs[r]))
  {
    if r == ev.run {
      OwnRunEventStaysConsistent(db, ev, h);
    } else {
      hide Consistent, Record;
      OtherRowsUntouched(db, ev, r);
      UntouchedStaysConsistent(db.runs[r], HandleRun(db, ev).runs[r], ev, r, h);
    }
  }

  lemma {:induction false} OtherRowsUntouched(db: Db, ev: Event, r: RunId)
    requires IsRunEvent(ev) && r in db.runs && r in HandleRun(db, ev).runs && r != ev.run
    ensures HandleRun(db, ev).runs[r] == db.runs[r]
  {
  }

  lemma {:induction false} OwnRunEventStaysConsistent(db: Db, ev: Event, h: History)
    requires IsRunEvent(ev)
    requires ev.run in db.runs && ev.run in HandleRun(db, ev).runs && Consistent(db.runs[ev.run], h)
    ensures Consistent(HandleRun(db, ev).runs[ev.run], Record(h, ev.run, db.runs[ev.run], ev, HandleRun(db, ev).runs[ev.run]))
  {
  }

  lemma {:induction false} UntouchedStaysConsistent(run: Run, now: Run, ev: Event, r: RunId, h: History)
    requires Consistent(run, h) && now == run.(dep := now.dep)
    ensures Consistent(now, Record(h, r, run, ev, now))
  {
  }

  lemma {:induction false} ConfigKeepsRow(db: Db, ev: Event, r: RunId)
    requires IsConfigEvent(ev)
    requires r in db.runs
    ensures r in HandleConfig(db, ev).runs
    ensures HandleConfig(db, ev).runs[r] == db.runs[r].(dep := HandleConfig(db, ev).runs[r].dep)
  {
  }

  lemma {:induction false} StepStaysConsistent(db: Db, ev: Event, r: RunId, h: History)
    requires IdsBelowNext(db) && Enabled(db, ev)
    requires r in db.runs && r in Step(db, ev).runs && Consistent(db.runs[r], h)
    ensures Consistent(Step(db, ev).runs[r], Record(h, r, db.runs[r], ev, Step(db, ev).runs[r]))
  {
    hide Consistent, Record, HandleRun, HandleConfig, HandleFinish, FinishedRow;
    var was, now := db.runs[r], Step(db, ev).runs[r];
    if ev.Create? {
      UntouchedStaysConsistent(was, now, ev, r, h);
    } else if ev.Claim? {
      if now != was {
        ClaimStaysConsistent(was, h, r, ev.pool, db.clock);
      } else {
        UntouchedStaysConsistent(was, now, ev, r, h);
      }
    } else if ev.Finish? {
      FinishKeepsOtherRows(db, ev);
      if r == ev.run && Accepts(db, ev.pool, r) {
        FinishStaysConsistent(db, ev, h);
      } else {
        UntouchedStaysConsistent(was, now, ev, r, h);
      }
    } else if IsConfigEvent(ev) {
      ConfigKeepsRow(db, ev, r);
      UntouchedStaysConsistent(was, now, ev, r, h);
    } else {
      RunEventStaysConsistent(db, ev, r, h);
    }
  }

  /** Every reachable state, under every interleaving of handlers, agents and
      callbacks and every edit of the configuration. */
  lemma {:induction false} ExecutionsAreConsistent(db: Db, evs: seq<Event>)
    requires Initial(db) && IsExecution(db, evs)
    ensures IdsBelowNext(After(db, evs))
    ensures forall r | r in After(db, evs).runs :: Consistent(After(db, evs).runs[r], Histories(db, evs)[r])
    decreases |evs|
  {
    hide Step, Enabled;
    if evs != [] {
      var init, ev := evs[..|evs| - 1], evs[|evs| - 1];
      ExecutionsAreConsistent(db, init);
      var was := After(db, init);
      StepKeepsIds(was, ev);
      forall r | r in After(db, evs).runs
        ensures Consistent(After(db, evs).runs[r], Histories(db, evs)[r])
      {
        if r in was.runs {
          StepStaysConsistent(was, ev, r, Histories(db, init)[r]);
        }
      }
    }
  }

  // ---- phase agreement -----------------------------------------------------------------------

  /** The phase Finish reconstructs from approved_at is the phase the run was
      claimed for; a run is confirmed at most once and claimed at most twice. */
  lemma {:induction false} PhaseAgreement(db: Db, evs: seq<Event>, r: RunId)
    requires Initial(db) && IsExecution(db, evs) && r in After(db, evs).runs
    ensures
      var run, h := After(db, evs).runs[r], Histories(db, evs)[r];
      && (run.status == Confirmed ==> run.approvedAt.Some?)
      && (run.status == Preparing ==>
            && h.claims != []
            && (run.approvedAt.Some? <==> h.claims[|h.claims| - 1] == Confirmed)
            && (run.kind != Proposed ==> (run.ApplyPhase() <==> h.claims[|h.claims| - 1] == Confirmed)))
      && h.claims <= [Queued, Confirmed]
      && h.confirms <= 1
  {
    ExecutionsAreConsistent(db, evs);
  }

  // ---- final statuses ----------------------------------------------------------------------------

  lemma {:induction false} PrefixIsExecution(db: Db, evs: seq<Event>, k: nat)
    requires IsExecution(db, evs) && k <= |evs|
    ensures IsExecution(db, evs[..k])
    decreases |evs|
  {
    if k == |evs| {
      assert evs[..k] == evs;
    } else {
      var init := evs[..|evs| - 1];
      PrefixIsExecution(db, init, k);
      assert init[..k] == evs[..k];
    }
  }

  /** What holds of a run once its status is terminal, or once a callback moved it
      to planning / applying, until something takes it out again. */
  ghost predicate StaysWithin(run: Run, late: Run) {
    if run.status.Terminal() then late == run.(dep := late.dep)
    else late.status in {Planning, Applying, Canceled}
  }

  lemma {:induction false} RunEventKeepsClosed(db: Db, ev: Event, r: RunId)
    requires IsRunEvent(ev)
    requires r in db.runs && r in HandleRun(db, ev).runs && Closed(db.runs[r])
    ensures StaysWithin(db.runs[r], HandleRun(db, ev).runs[r])
  {
  }

  lemma {:induction false} StepKeepsClosedStatuses(db: Db, ev: Event, r: RunId)
    requires IdsBelowNext(db) && Enabled(db, ev) && r < db.nextRun
    requires r in db.runs ==> Closed(db.runs[r])
    ensures r !in db.runs ==> r !in Step(db, ev).runs
    ensures r in Step(db, ev).runs ==> StaysWithin(db.runs[r], Step(db, ev).runs[r])
  {
    hide HandleRun, HandleConfig, HandleFinish, FinishedRow;
    StepKeepsIds(db, ev);
    if r in db.runs && r in Step(db, ev).runs {
      if ev.Finish? {
        FinishKeepsOtherRows(db, ev);
      } else if IsConfigEvent(ev) {
        ConfigKeepsRow(db, ev, r);
      } else if !ev.Create? && !ev.Claim? {
        RunEventKeepsClosed(db, ev, r);
      }
    }
  }

  ghost predicate Closed(run: Run) {
    run.status.Terminal() || run.status in {Planning, Applying}
  }

  /** No execution leaves a terminal status, and no execution takes a run out of
      planning / applying except by canceling it; ids are not reused. */
  lemma {:induction false} ClosedStatusesAreKept(db: Db, evs: seq<Event>, k: nat, r: RunId)
    requires Initial(db) && IsExecution(db, evs) && k <= |evs| && IsExecution(db, evs[..k])
    requires r < After(db, evs[..k]).nextRun
    requires r in After(db, evs[..k]).runs ==> Closed(After(db, evs[..k]).runs[r])
    ensures r < After(db, evs).nextRun
    ensures r !in After(db, evs[..k]).runs ==> r !in After(db, evs).runs
    ensures r in After(db, evs).runs ==> StaysWithin(After(db, evs[..k]).runs[r], After(db, evs).runs[r])
    decreases |evs|
  {
    hide Step, Enabled;
    if k == |evs| {
      assert evs[..k] == evs;
    } else {
      var init := evs[..|evs| - 1];
      assert init[..k] == evs[..k];
      ClosedStatusesAreKept(db, init, k, r);
      ExecutionsAreConsistent(db, init);
      var was := After(db, init);
      StepKeepsIds(was, evs[|evs| - 1]);
      StepKeepsClosedStatuses(was, evs[|evs| - 1], r);
    }
  }

  /** Terminal statuses are never left. */
  lemma {:induction false} TerminalIsFinal(db: Db, evs: seq<Event>, k: nat, r: RunId)
    requires Initial(db) && IsExecution(db, evs) && k <= |evs| && IsExecution(db, evs[..k])
    requires r in After(db, evs[..k]).runs && After(db, evs[..k]).runs[r].status.Terminal()
    ensures r in After(db, evs).runs ==>
      && After(db, evs).runs[r].status == After(db, evs[..k]).runs[r].status
      && After(db, evs).runs[r].finishedAt == After(db, evs[..k]).runs[r].finishedAt
  {
    ExecutionsAreConsistent(db, evs[..k]);
    ClosedStatusesAreKept(db, evs, k, r);
  }

  lemma {:induction false} AcceptedReport(db: Db, ev: Event)
    requires ev.Report? && ev.run in db.runs && !db.runs[ev.run].status.Terminal()
    ensures ev.run in Step(db, ev).runs && Step(db, ev).runs[ev.run].status in {Planning, Applying}
  {
  }

  /** Finish accepts only `preparing`, so a pool run that finished never had a
      status callback accepted: one `planning` report strands it until it is canceled. */
  lemma {:induction false} FinishedRunsNeverReported(db: Db, evs: seq<Event>, k: nat, r: RunId)
    requires Initial(db) && IsExecution(db, evs) && k < |evs| && IsExecution(db, evs[..k])
    requires evs[k].Report? && evs[k].run == r
    requires r in After(db, evs[..k]).runs && !After(db, evs[..k]).runs[r].status.Terminal()
    ensures r in After(db, evs).runs ==> After(db, evs).runs[r].status in {Planning, Applying, Canceled}
  {
    hide Step, Enabled;
    var pre := evs[..k + 1];
    PrefixIsExecution(db, evs, k + 1);
    assert pre[..|pre| - 1] == evs[..k];
    ExecutionsAreConsistent(db, pre);
    AcceptedReport(After(db, evs[..k]), evs[k]);
    ClosedStatusesAreKept(db, evs, k + 1, r);
  }

  // ---- when a claimed run can still be finished ---------------------------------------------------

  ghost predicate RunsJoinStacks(db: Db) {
    forall r | r in db.runs :: db.runs[r].stack in db.stacks
  }

  lemma {:induction false} FinishKeepsJoin(db: Db, ev: Event)
    requires IdsBelowNext(db) && Enabled(db, ev) && RunsJoinStacks(db) && ev.Finish?
    ensures RunsJoinStacks(HandleFinish(db, ev)) && HandleFinish(db, ev).stacks == db.stacks
  {
    if IsApplyFinish(db, ev) {
      TriggerAllOnlyTriggers(MarkFinished(db, ev.run), db.runs[ev.run].stack, ev.rows, ev.eval);
    }
  }

  lemma {:induction false} RunEventKeepsJoin(db: Db, ev: Event)
    requires RunsJoinStacks(db) && IsRunEvent(ev)
    ensures RunsJoinStacks(HandleRun(db, ev))
  {
  }

  lemma {:induction false} StepKeepsJoin(db: Db, ev: Event)
    requires IdsBelowNext(db) && Enabled(db, ev) && RunsJoinStacks(db)
    ensures RunsJoinStacks(Step(db, ev))
  {
    hide HandleFinish, HandleRun;
    if ev.Finish? {
      FinishKeepsJoin(db, ev);
    } else if IsRunEvent(ev) {
      RunEventKeepsJoin(db, ev);
    }
  }

  lemma {:induction false} ExecutionsJoinStacks(db: Db, evs: seq<Event>)
    requires Initial(db) && IsExecution(db, evs)
    ensures RunsJoinStacks(After(db, evs))
    decreases |evs|
  {
    hide Step, Enabled;
    if evs != [] {
      var init := evs[..|evs| - 1];
      ExecutionsJoinStacks(db, init);
      ExecutionsAreConsistent(db, init);
      StepKeepsJoin(After(db, init), evs[|evs| - 1]);
    }
  }

  /** Event ev claims run r for the pool. */
  ghost predicate Claims(db: Db, ev: Event, pool: PoolId, r: RunId) {
    ev == Claim(pool) && IsOldestClaimable(db.runs, pool, r)
  }

  /** Event ev ends what a claim of r began: a status callback, a cancel, or a finish that is accepted. */
  ghost predicate EndsClaim(db: Db, ev: Event, r: RunId) {
    || (ev.Report? && ev.run == r) || ev == Cancel(r)
    || (ev.Finish? && ev.run == r && Accepts(db, ev.pool, r))
  }

  lemma {:induction false} RunEventAccepts(db: Db, ev: Event, pool: PoolId, r: RunId)
    requires IsRunEvent(ev) && RunsJoinStacks(db)
    ensures Accepts(HandleRun(db, ev), pool, r) <==> Accepts(db, pool, r) && !EndsClaim(db, ev, r)
  {
  }

  lemma {:induction false} FinishAccepts(db: Db, ev: Event, pool: PoolId, r: RunId)
    requires IdsBelowNext(db) && RunsJoinStacks(db) && Enabled(db, ev) && ev.Finish?
    ensures Accepts(Step(db, ev), pool, r) <==> Accepts(db, pool, r) && !EndsClaim(db, ev, r)
  {
    hide HandleFinish;
    FinishKeepsOtherRows(db, ev);
    FinishKeepsJoin(db, ev);
  }

  lemma {:induction false} ClaimAccepts(db: Db, ev: Event, pool: PoolId, r: RunId)
    requires ev.Claim? && RunsJoinStacks(db)
    ensures Accepts(HandleClaim(db, ev.pool), pool, r) <==> Claims(db, ev, pool, r) || Accepts(db, pool, r)
  {
  }

  /** One step: who is accepted afterwards. */
  lemma {:induction false} StepAccepts(db: Db, ev: Event, pool: PoolId, r: RunId)
    requires IdsBelowNext(db) && RunsJoinStacks(db) && Enabled(db, ev)
    ensures Accepts(Step(db, ev), pool, r) <==>
      Claims(db, ev, pool, r) || (Accepts(db, pool, r) && !EndsClaim(db, ev, r))
  {
    hide HandleFinish, HandleRun, HandleConfig, HandleClaim;
    if ev.Claim? {
      ClaimAccepts(db, ev, pool, r);
    } else if ev.Finish? {
      FinishAccepts(db, ev, pool, r);
    } else if IsConfigEvent(ev) {
      ConfigAccepts(db, ev, pool, r);
    } else if IsRunEvent(ev) {
      RunEventAccepts(db, ev, pool, r);
    }
  }

  lemma {:induction false} ConfigAccepts(db: Db, ev: Event, pool: PoolId, r: RunId)
    requires IsConfigEvent(ev) && RunsJoinStacks(db)
    ensures Accepts(HandleConfig(db, ev), pool, r) <==> Accepts(db, pool, r)
  {
    if r in db.runs {
      ConfigKeepsRow(db, ev, r);
    }
  }

  /** Event k claimed r, and nothing since has ended that claim. */
  ghost predicate ClaimedSince(db: Db, evs: seq<Event>, k: nat, pool: PoolId, r: RunId)
    requires IsExecution(db, evs)
  {
    && k < |evs| && IsExecution(db, evs[..k]) && Claims(After(db, evs[..k]), evs[k], pool, r)
    && forall i | k < i < |evs| && IsExecution(db, evs[..i]) :: !EndsClaim(After(db, evs[..i]), evs[i], r)
  }

  lemma {:induction false} ClaimedSinceSnoc(db: Db, evs: seq<Event>, k: nat, pool: PoolId, r: RunId)
    requires evs != [] && IsExecution(db, evs) && k < |evs| - 1
    ensures
      var init := evs[..|evs| - 1];
      ClaimedSince(db, evs, k, pool, r) <==>
        ClaimedSince(db, init, k, pool, r) && !EndsClaim(After(db, init), evs[|evs| - 1], r)
  {
    hide Step, Enabled, EndsClaim, Claims;
    var init, last := evs[..|evs| - 1], |evs| - 1;
    assert forall i | 0 <= i <= last :: init[..i] == evs[..i];
    if ClaimedSince(db, evs, k, pool, r) {
      assert !EndsClaim(After(db, evs[..last]), evs[last], r);
    }
  }

  /** Finish answers a pool's call for a run exactly while a claim of it stands: from
      that claim until the first status callback, cancel or accepted finish. */
  lemma {:induction false} AcceptsExactlyWhileClaimed(db: Db, evs: seq<Event>, pool: PoolId, r: RunId)
    requires Initial(db) && IsExecution(db, evs)
    ensures Accepts(After(db, evs), pool, r) <==> exists k: nat :: ClaimedSince(db, evs, k, pool, r)
    decreases |evs|
  {
    hide Step, Enabled, EndsClaim, Claims, ClaimedSince, Accepts;
    if evs == [] {
      NothingClaimedYet(db, pool, r);
    } else {
      var init, last := evs[..|evs| - 1], |evs| - 1;
      AcceptsExactlyWhileClaimed(db, init, pool, r);
      ExecutionsAreConsistent(db, init);
      ExecutionsJoinStacks(db, init);
      StepAccepts(After(db, init), evs[last], pool, r);
      LastClaim(db, evs, pool, r);
      forall k: nat | k < last
        ensures ClaimedSince(db, evs, k, pool, r) <==>
          ClaimedSince(db, init, k, pool, r) && !EndsClaim(After(db, init), evs[last], r)
      {
        ClaimedSinceSnoc(db, evs, k, pool, r);
      }
      ClaimsArePast(db, init, pool, r);
      ClaimsArePast(db, evs, pool, r);
    }
  }

  lemma {:induction false} NothingClaimedYet(db: Db, pool: PoolId, r: RunId)
    requires Initial(db)
    ensures !Accepts(db, pool, r) && forall k: nat :: !ClaimedSince(db, [], k, pool, r)
  {
  }

  lemma {:induction false} ClaimsArePast(db: Db, evs: seq<Event>, pool: PoolId, r: RunId)
    requires IsExecution(db, evs)
    ensures forall k: nat :: ClaimedSince(db, evs, k, pool, r) ==> k < |evs|
  {
  }

  lemma {:induction false} LastClaim(db: Db, evs: seq<Event>, pool: PoolId, r: RunId)
    requires evs != [] && IsExecution(db, evs)
    ensures ClaimedSince(db, evs, |evs| - 1, pool, r) <==>
      Claims(After(db, evs[..|evs| - 1]), evs[|evs| - 1], pool, r)
  {
    hide Step, Enabled;
  }

  /** The job an agent receives never says apply; Finish will nevertheless treat the run
      as an apply exactly when the claim took it from `confirmed`. */
  lemma {:induction false} ClaimedPhase(db: Db, evs: seq<Event>, pool: PoolId, r: RunId)
    requires Initial(db) && IsExecution(db, evs) && IsOldestClaimable(After(db, evs).runs, pool, r)
    ensures Started(After(db, evs).runs[r], After(db, evs).clock).ApplyPhase() <==> After(db, evs).runs[r].status == Confirmed
  {
    ExecutionsAreConsistent(db, evs);
  }

  // ---- approval gates ------------------------------------------------------------------------------

  /** Event j took run r from one status to another. */
  ghost predicate MovesAt(db: Db, evs: seq<Event>, j: nat, r: RunId, from: Status, to: set<Status>) {
    && j < |evs| && IsExecution(db, evs[..j]) && IsExecution(db, evs[..j + 1])
    && r in After(db, evs[..j]).runs && After(db, evs[..j]).runs[r].status == from
    && r in After(db, evs[..j + 1]).runs && After(db, evs[..j + 1]).runs[r].status in to
  }

  /** Event j is an approve action that took effect, not one that was turned away. */
  ghost predicate ApprovesAt(db: Db, evs: seq<Event>, j: nat, r: RunId) {
    MovesAt(db, evs, j, r, PendingApproval, {Unconfirmed, Confirmed}) && IsApproveOf(evs[j], r)
  }

  /** Event j is a confirm action that took effect. */
  ghost predicate ConfirmsAt(db: Db, evs: seq<Event>, j: nat, r: RunId) {
    MovesAt(db, evs, j, r, Unconfirmed, {Confirmed}) && IsConfirmOf(evs[j], r)
  }

  lemma {:induction false} MovesAtExtends(db: Db, evs: seq<Event>, j: nat, r: RunId, from: Status, to: set<Status>)
    requires evs != [] && MovesAt(db, evs[..|evs| - 1], j, r, from, to)
    ensures MovesAt(db, evs, j, r, from, to)
  {
    var init := evs[..|evs| - 1];
    assert init[..j] == evs[..j] && init[..j + 1] == evs[..j + 1];
  }

  lemma {:induction false} FlagsHaveCauses(db: Db, evs: seq<Event>, k: nat, r: RunId)
    requires Initial(db) && IsExecution(db, evs) && k <= |evs| && IsExecution(db, evs[..k])
    requires r in After(db, evs[..k]).runs && r in After(db, evs).runs
    ensures Histories(db, evs)[r].approved && !Histories(db, evs[..k])[r].approved ==>
      exists j: nat :: k <= j && ApprovesAt(db, evs, j, r)
    ensures Histories(db, evs)[r].confirmedBy && !Histories(db, evs[..k])[r].confirmedBy ==>
      exists j: nat :: k <= j && ConfirmsAt(db, evs, j, r)
    ensures Histories(db, evs[..k])[r].approvalNeeded ==> Histories(db, evs)[r].approvalNeeded
    ensures Histories(db, evs[..k])[r].confirms <= Histories(db, evs)[r].confirms
    decreases |evs|
  {
    hide Step, Enabled, Consistent, ApprovesAt, ConfirmsAt, Histories;
    if k == |evs| {
      assert evs[..k] == evs;
    } else {
      var init := evs[..|evs| - 1];
      assert init[..k] == evs[..k];
      ExecutionsAreConsistent(db, init);
      ExecutionsAreConsistent(db, evs[..k]);
      NextRunGrows(db, init, k);
      StepKeepsIds(After(db, init), evs[|evs| - 1]);
      FlagsHaveCauses(db, init, k, r);
      EarlierCausesStay(db, evs, r);
      LastEventFlags(db, evs, r);
      var last: nat := |evs| - 1;
      if Histories(db, evs)[r].approved && !Histories(db, evs[..k])[r].approved {
        if Histories(db, init)[r].approved {
          var j: nat :| k <= j && ApprovesAt(db, init, j, r);
          assert ApprovesAt(db, evs, j, r);
        } else {
          assert ApprovesAt(db, evs, last, r);
        }
      }
      if Histories(db, evs)[r].confirmedBy && !Histories(db, evs[..k])[r].confirmedBy {
        if Histories(db, init)[r].confirmedBy {
          var j: nat :| k <= j && ConfirmsAt(db, init, j, r);
          assert ConfirmsAt(db, evs, j, r);
        } else {
          assert ConfirmsAt(db, evs, last, r);
        }
      }
    }
  }

  /** A flag raised by the last event has that event as its cause. */
  lemma {:induction false} LastEventFlags(db: Db, evs: seq<Event>, r: RunId)
    requires evs != [] && IsExecution(db, evs)
    requires r in After(db, evs[..|evs| - 1]).runs && r in After(db, evs).runs
    ensures
      var was, now := Histories(db, evs[..|evs| - 1])[r], Histories(db, evs)[r];
      && (now.approved && !was.approved ==> ApprovesAt(db, evs, |evs| - 1, r))
      && (now.confirmedBy && !was.confirmedBy ==> ConfirmsAt(db, evs, |evs| - 1, r))
      && (was.approvalNeeded ==> now.approvalNeeded) && was.confirms <= now.confirms
  {
    hide Step, Enabled;
    assert evs[..|evs| - 1 + 1] == evs;
  }

  lemma {:induction false} EarlierCausesStay(db: Db, evs: seq<Event>, r: RunId)
    requires evs != []
    ensures forall j: nat :: ApprovesAt(db, evs[..|evs| - 1], j, r) ==> ApprovesAt(db, evs, j, r)
    ensures forall j: nat :: ConfirmsAt(db, evs[..|evs| - 1], j, r) ==> ConfirmsAt(db, evs, j, r)
  {
    hide Step, Enabled;
    var init := evs[..|evs| - 1];
    forall j: nat
      ensures ApprovesAt(db, init, j, r) ==> ApprovesAt(db, evs, j, r)
      ensures ConfirmsAt(db, init, j, r) ==> ConfirmsAt(db, evs, j, r)
    {
      if ApprovesAt(db, init, j, r) {
        MovesAtExtends(db, evs, j, r, PendingApproval, {Unconfirmed, Confirmed});
      }
      if ConfirmsAt(db, init, j, r) {
        MovesAtExtends(db, evs, j, r, Unconfirmed, {Confirmed});
      }
    }
  }

  lemma {:induction false} NextRunGrows(db: Db, evs: seq<Event>, k: nat)
    requires Initial(db) && IsExecution(db, evs) && k <= |evs| && IsExecution(db, evs[..k])
    ensures After(db, evs[..k]).nextRun <= After(db, evs).nextRun
    decreases |evs|
  {
    hide Step, Enabled;
    if k == |evs| {
      assert evs[..k] == evs;
    } else {
      var init := evs[..|evs| - 1];
      assert init[..k] == evs[..k];
      NextRunGrows(db, init, k);
      ExecutionsAreConsistent(db, init);
      StepKeepsIds(After(db, init), evs[|evs| - 1]);
    }
  }

  /** Event k finished the plan phase of run r and its policies asked for approval. */
  ghost predicate PlanNeedsApproval(db: Db, evs: seq<Event>, k: nat, r: RunId)
    requires k < |evs| && IsExecution(db, evs[..k])
  {
    var was := After(db, evs[..k]);
    && evs[k].Finish? && evs[k].run == r && Accepts(was, evs[k].pool, r) && was.runs[r].PlanPhase()
    && evs[k].success && evs[k].verdict.requiresApproval
  }

  /** A run whose policies required approval is confirmed only if later an approve action took
      it out of `pending_approval`, whatever callbacks, chat links, refused requests or
      configuration edits happen in between. */
  lemma {:induction false} ApprovalGateHolds(db: Db, evs: seq<Event>, k: nat, r: RunId)
    requires Initial(db) && IsExecution(db, evs) && k < |evs| && IsExecution(db, evs[..k])
    requires PlanNeedsApproval(db, evs, k, r)
    requires r in After(db, evs).runs && Histories(db, evs)[r].confirms > 0
    ensures exists j: nat :: k < j && ApprovesAt(db, evs, j, r)
  {
    hide Step, Enabled, Consistent, Record, FinishedRow, MovesAt;
    var pre := evs[..k + 1];
    PrefixIsExecution(db, evs, k + 1);
    assert pre[..|pre| - 1] == evs[..k];
    ExecutionsAreConsistent(db, evs[..k]);
    ExecutionsAreConsistent(db, pre);
    ExecutionsAreConsistent(db, evs);
    FinishKeepsOtherRows(After(db, evs[..k]), evs[k]);
    NeedForApprovalIsNoted(After(db, evs[..k]), evs[k], Histories(db, evs[..k])[r]);
    FlagsHaveCauses(db, evs, k + 1, r);
    ConfirmedWasApproved(After(db, evs).runs[r], Histories(db, evs)[r]);
  }

  lemma {:induction false} NeedForApprovalIsNoted(db: Db, ev: Event, h: History)
    requires ev.Finish? && Accepts(db, ev.pool, ev.run) && Consistent(db.runs[ev.run], h)
    requires db.runs[ev.run].PlanPhase() && ev.success && ev.verdict.requiresApproval
    ensures
      var h' := Record(h, ev.run, db.runs[ev.run], ev, FinishedRow(db, ev));
      h'.approvalNeeded && !h'.approved
  {
  }

  lemma {:induction false} ConfirmedWasApproved(run: Run, h: History)
    requires Consistent(run, h) && h.confirms > 0 && h.approvalNeeded
    ensures h.approved
  {
  }

  /** A destroy run is confirmed only by an explicit confirm action, REST or chat, that took effect. */
  lemma {:induction false} DestroyNeedsConfirm(db: Db, evs: seq<Event>, r: RunId)
    requires Initial(db) && IsExecution(db, evs)
    requires r in After(db, evs).runs && After(db, evs).runs[r].kind == Destroy
    requires Histories(db, evs)[r].confirms > 0
    ensures exists j: nat :: ConfirmsAt(db, evs, j, r)
  {
    ExecutionsAreConsistent(db, evs);
    var k := Birth(db, evs, r);
    assert !Histories(db, evs[..k])[r].confirmedBy;
    FlagsHaveCauses(db, evs, k, r);
  }

  /** The moment the run appeared, with an empty history. */
  lemma {:induction false} Birth(db: Db, evs: seq<Event>, r: RunId) returns (k: nat)
    requires Initial(db) && IsExecution(db, evs) && r in After(db, evs).runs
    ensures k <= |evs| && IsExecution(db, evs[..k])
    ensures r in After(db, evs[..k]).runs && Histories(db, evs[..k])[r] == FRESH
    decreases |evs|
  {
    hide Step, Enabled;
    var init := evs[..|evs| - 1];
    if r in After(db, init).runs {
      k := Birth(db, init, r);
      assert init[..k] == evs[..k];
    } else {
      k := |evs|;
      assert evs[..k] == evs;
    }
  }

  // ---- the graph stays acyclic ------------------------------------------------------------------------

  /** Steps other than AddDownstream add no edge. */
  lemma {:induction false} StepEdges(db: Db, ev: Event)
    requires Enabled(db, ev)
    ensures
      var g, h := db.edges.Keys, Step(db, ev).edges.Keys;
      || h <= g
      || (ev.AddDownstream? && ev.up != ev.down && !Reaches(g, ev.down, ev.up) && h == g + {(ev.up, ev.down)})
  {
    hide HandleRun, HandleFinish, Reaches;
    if ev.Finish? {
      FinishKeepsEdges(db, ev);
    } else if IsRunEvent(ev) {
      RunEventKeepsEdges(db, ev);
    }
  }

  lemma {:induction false} FinishKeepsEdges(db: Db, ev: Event)
    requires Enabled(db, ev) && ev.Finish?
    ensures HandleFinish(db, ev).edges == db.edges
  {
  }

  lemma {:induction false} RunEventKeepsEdges(db: Db, ev: Event)
    requires IsRunEvent(ev)
    ensures HandleRun(db, ev).edges == db.edges
  {
  }

  lemma {:induction false} NoEdgesNoCycle()
    ensures Acyclic({})
  {
    forall x: StackId | Reaches({}, x, x)
      ensures false
    {
      var y := ReachesFirstStep({}, x, x);
    }
  }

  lemma {:induction false} GraphStaysAcyclic(db: Db, evs: seq<Event>)
    requires Initial(db) && IsExecution(db, evs)
    ensures Acyclic(After(db, evs).edges.Keys)
    decreases |evs|
  {
    hide Step, Enabled, Acyclic, Reaches;
    if evs == [] {
      NoEdgesNoCycle();
      assert db.edges.Keys == {};
    } else {
      var init, ev := evs[..|evs| - 1], evs[|evs| - 1];
      GraphStaysAcyclic(db, init);
      var g, h := After(db, init).edges.Keys, After(db, evs).edges.Keys;
      StepEdges(After(db, init), ev);
      if h <= g {
        RemovalKeepsAcyclic(g, h);
      } else {
        InsertGuardIsExact(g, ev.up, ev.down);
      }
    }
  }
}
