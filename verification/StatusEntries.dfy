/** Each status of a run, and exactly which calls, in which circumstances, put a run into it. */
module StatusEntries {
  import opened Options
  import opened DependencyGraph
  import opened RunMachine
  import opened RunLifecycle
  import opened FanInWave
  import PostPlanGate

  /** The step takes run r from another status to s. */
  ghost predicate Enters(db: Db, ev: Event, r: RunId, s: Status)
    requires Enabled(db, ev)
  {
    && r in db.runs && db.runs[r].status != s
    && r in Step(db, ev).runs && Step(db, ev).runs[r].status == s
  }

  /** The agent of the run's own pool reports the run it is preparing. */
  ghost predicate Reported(db: Db, ev: Event, r: RunId)
    requires r in db.runs
  {
    ev.Finish? && ev.run == r && db.runs[r].status == Preparing && db.runs[r].pool == Some(ev.pool)
  }

  /** A successful plan phase that no policy denied. */
  ghost predicate Planned(db: Db, ev: Event, r: RunId)
    requires r in db.runs
  {
    && Reported(db, ev, r) && ev.success && db.runs[r].kind in {Tracked, Destroy} && db.runs[r].approvedAt.None?
    && !ev.verdict.denied
  }

  lemma {:induction false} RowAfterClaim(db: Db, ev: Event, r: RunId)
    requires Enabled(db, ev) && ev.Claim? && r in db.runs
    ensures r in Step(db, ev).runs
    ensures Step(db, ev).runs[r] == if IsOldestClaimable(db.runs, ev.pool, r) then Started(db.runs[r], db.clock) else db.runs[r]
  {
  }

  lemma {:induction false} RowAfterRunEvent(db: Db, ev: Event)
    requires Enabled(db, ev) && IsRunEvent(ev)
    ensures Step(db, ev).runs == HandleRun(db, ev).runs
  {
    hide HandleRun;
  }

  lemma {:induction false} RowAfterConfig(db: Db, ev: Event, r: RunId)
    requires IdsBelowNext(db) && Enabled(db, ev) && (ev.Create? || IsConfigEvent(ev)) && r in db.runs
    ensures r in Step(db, ev).runs && Step(db, ev).runs[r] == db.runs[r].(dep := Step(db, ev).runs[r].dep)
  {
    hide HandleConfig;
    if IsConfigEvent(ev) {
      ConfigKeepsRow(db, ev, r);
    }
  }

  /** Row r after a step, by the kind of step. */
  lemma {:induction false} RowAfter(db: Db, ev: Event, r: RunId)
    requires IdsBelowNext(db) && Enabled(db, ev) && r in db.runs
    ensures IsRunEvent(ev) ==> Step(db, ev).runs == HandleRun(db, ev).runs
    ensures ev.Claim? ==>
      && r in Step(db, ev).runs
      && Step(db, ev).runs[r] == if IsOldestClaimable(db.runs, ev.pool, r) then Started(db.runs[r], db.clock) else db.runs[r]
    ensures ev.Finish? ==>
      && r in Step(db, ev).runs
      && Step(db, ev).runs[r] == if r == ev.run && Accepts(db, ev.pool, r) then FinishedRow(db, ev) else db.runs[r]
    ensures ev.Create? || IsConfigEvent(ev) ==>
      r in Step(db, ev).runs && Step(db, ev).runs[r] == db.runs[r].(dep := Step(db, ev).runs[r].dep)
  {
    hide Step, Enabled, HandleRun, FinishedRow, Accepts, Started, IsOldestClaimable;
    if ev.Finish? {
      FinishKeepsOtherRows(db, ev);
    } else if ev.Claim? {
      RowAfterClaim(db, ev, r);
    } else if IsRunEvent(ev) {
      RowAfterRunEvent(db, ev);
    } else {
      RowAfterConfig(db, ev, r);
    }
  }

  // ---- the two ways on from a plan ---------------------------------------------------------

  /** A run becomes `confirmed` by a confirm call, by an approve call on an automatically applying
      stack without a chain, or by a plan that needs nobody; and then it carries that moment. */
  lemma {:induction false} ConfirmedExactly(db: Db, ev: Event, r: RunId)
    requires IdsBelowNext(db) && Enabled(db, ev) && r in db.runs && db.runs[r].stack in db.stacks
    ensures
      var run, stack := db.runs[r], db.stacks[db.runs[r].stack];
      Enters(db, ev, r, Confirmed) <==>
        || (ev in {Confirm(r), ChatConfirm(r)} && run.status == Unconfirmed)
        || (ev == Approve(r) && run.status == PendingApproval && !stack.chained && stack.autoApply && run.kind != Destroy)
        || (Planned(db, ev, r) && !ev.verdict.requiresApproval && run.kind == Tracked && stack.autoApply
            && !ev.verdict.blockedByBudget)
    ensures Enters(db, ev, r, Confirmed) ==> Step(db, ev).runs[r].approvedAt == Some(db.clock)
  {
    RowAfter(db, ev, r);
    hide Step, HandleFinish, HandleConfig, HandleClaim;
  }

  /** A run becomes `unconfirmed` by an approve call, REST, chat or the end of a chain, unless it goes
      straight on to `confirmed`; or by a plan that needs a confirmation and no approval. */
  lemma {:induction false} UnconfirmedExactly(db: Db, ev: Event, r: RunId)
    requires IdsBelowNext(db) && Enabled(db, ev) && r in db.runs && db.runs[r].stack in db.stacks
    ensures
      var run, stack := db.runs[r], db.stacks[db.runs[r].stack];
      Enters(db, ev, r, Unconfirmed) <==>
        || (ev == ChatApprove(r) && run.status == PendingApproval)
        || (ev == ChainApprove(r) && run.status == PendingApproval && stack.chained)
        || (ev == Approve(r) && run.status == PendingApproval && !stack.chained && !(stack.autoApply && run.kind != Destroy))
        || (Planned(db, ev, r) && !ev.verdict.requiresApproval
            && !(run.kind == Tracked && stack.autoApply && !ev.verdict.blockedByBudget))
    ensures Enters(db, ev, r, Unconfirmed) ==>
      Step(db, ev).runs[r].approvedAt == if db.runs[r].status == PendingApproval then Some(db.clock) else None
  {
    RowAfter(db, ev, r);
    hide Step, HandleFinish, HandleConfig, HandleClaim;
  }

  lemma {:induction false} PendingExactly(db: Db, ev: Event, r: RunId)
    requires IdsBelowNext(db) && Enabled(db, ev) && r in db.runs && db.runs[r].stack in db.stacks
    ensures Enters(db, ev, r, PendingApproval) <==> Planned(db, ev, r) && ev.verdict.requiresApproval
  {
    RowAfter(db, ev, r);
    hide Step, HandleFinish, HandleConfig, HandleClaim;
  }

  // ---- taken up, given up, over ----------------------------------------------------------------

  /** A run is taken up by a claim of its pool, when no older run of the pool is queued or confirmed;
      its start is stamped the first time. */
  lemma {:induction false} PreparingExactly(db: Db, ev: Event, r: RunId)
    requires IdsBelowNext(db) && Enabled(db, ev) && r in db.runs && db.runs[r].stack in db.stacks
    ensures
      Enters(db, ev, r, Preparing) <==>
        && ev.Claim? && db.runs[r].pool == Some(ev.pool) && db.runs[r].status in {Queued, Confirmed}
        && forall q | q in db.runs && db.runs[q].pool == Some(ev.pool) && db.runs[q].status in {Queued, Confirmed} :: r <= q
    ensures Enters(db, ev, r, Preparing) ==>
      Step(db, ev).runs[r].startedAt == if db.runs[r].startedAt.None? then Some(db.clock) else db.runs[r].startedAt
  {
    RowAfter(db, ev, r);
    hide Step, HandleFinish, HandleConfig, HandleClaim;
  }

  /** A run finishes by the report of a successful preview or apply, and fails by any other report
      of failure or a plan that a policy denies; either way the moment is stamped. */
  lemma {:induction false} OverExactly(db: Db, ev: Event, r: RunId)
    requires IdsBelowNext(db) && Enabled(db, ev) && r in db.runs && db.runs[r].stack in db.stacks
    ensures
      Enters(db, ev, r, Finished) <==>
        Reported(db, ev, r) && ev.success && (db.runs[r].kind == Proposed || db.runs[r].approvedAt.Some?)
    ensures
      Enters(db, ev, r, Failed) <==>
        && Reported(db, ev, r)
        && (!ev.success || (db.runs[r].kind != Proposed && db.runs[r].approvedAt.None? && ev.verdict.denied))
    ensures Enters(db, ev, r, Finished) || Enters(db, ev, r, Failed) ==> Step(db, ev).runs[r].finishedAt == Some(db.clock)
  {
    RowAfter(db, ev, r);
    hide Step, HandleFinish, HandleConfig, HandleClaim;
  }

  /** A run is canceled only by a cancel call, in six statuses; `confirmed` is not one of them. */
  lemma {:induction false} CanceledExactly(db: Db, ev: Event, r: RunId)
    requires IdsBelowNext(db) && Enabled(db, ev) && r in db.runs && db.runs[r].stack in db.stacks
    ensures
      Enters(db, ev, r, Canceled) <==>
        ev == Cancel(r) && db.runs[r].status in {Queued, Preparing, Planning, Unconfirmed, PendingApproval, Applying}
  {
    RowAfter(db, ev, r);
    hide Step, HandleFinish, HandleConfig, HandleClaim;
  }

  lemma {:induction false} DiscardedExactly(db: Db, ev: Event, r: RunId)
    requires IdsBelowNext(db) && Enabled(db, ev) && r in db.runs && db.runs[r].stack in db.stacks
    ensures
      Enters(db, ev, r, Discarded) <==>
        || (ev in {Discard(r), ChatDiscard(r)} && db.runs[r].status == Unconfirmed)
        || (ev == ChatDiscard(r) && db.runs[r].status == PendingApproval)
  {
    RowAfter(db, ev, r);
    hide Step, HandleFinish, HandleConfig, HandleClaim;
  }

  lemma {:induction false} RemovedExactly(db: Db, ev: Event, r: RunId)
    requires IdsBelowNext(db) && Enabled(db, ev) && r in db.runs
    ensures r !in Step(db, ev).runs <==> ev == Delete(r) && db.runs[r].status in {Finished, Failed, Canceled, Discarded}
  {
    RowAfter(db, ev, r);
    hide Step, HandleFinish, HandleConfig, HandleClaim;
  }

  /** A status callback of the runner overwrites every status that is not terminal. */
  lemma {:induction false} ReportedExactly(db: Db, ev: Event, r: RunId)
    requires IdsBelowNext(db) && Enabled(db, ev) && r in db.runs && db.runs[r].stack in db.stacks
    ensures
      var status := db.runs[r].status;
      && (Enters(db, ev, r, Planning) <==>
            ev == Report(r, false) && status !in {Planning, Finished, Failed, Canceled, Discarded})
      && (Enters(db, ev, r, Applying) <==>
            ev == Report(r, true) && status !in {Applying, Finished, Failed, Canceled, Discarded})
  {
    RowAfter(db, ev, r);
    hide Step, HandleFinish, HandleConfig, HandleClaim;
  }

  /** No step queues a run again. */
  lemma {:induction false} NeverRequeued(db: Db, ev: Event, r: RunId)
    requires IdsBelowNext(db) && Enabled(db, ev) && r in db.runs && db.runs[r].stack in db.stacks
    ensures !Enters(db, ev, r, Queued)
  {
    RowAfter(db, ev, r);
    hide Step, HandleFinish, HandleConfig, HandleClaim;
  }

  /** Where a queued run comes from: a create call on an unlocked stack, a finished apply of an upstream,
      or the failed report of a dependency run whose edge has retries left, as its next attempt. */
  lemma {:induction false} QueuedExactly(db: Db, ev: Event, r: RunId)
    requires IdsBelowNext(db) && Enabled(db, ev) && r !in db.runs && r in Step(db, ev).runs
    ensures
      var run := Step(db, ev).runs[r];
      && run.stack in db.stacks
      && run == Run(run.stack, db.stacks[run.stack].pool, run.kind, Queued, None, None, None, run.dep, run.attempt)
      && (|| (ev == Create(run.stack, run.kind) && !db.stacks[run.stack].locked && run.dep == None && run.attempt == 0)
          || (IsApplyFinish(db, ev) && run.kind == Tracked && run.dep == Some((db.runs[ev.run].stack, run.stack)) && run.attempt == 0)
          || (ev.Finish? && ev.run in db.runs && Reported(db, ev, ev.run) && run.kind == Tracked
              && run.stack == db.runs[ev.run].stack && run.dep == db.runs[ev.run].dep && run.dep.Some?
              && run.attempt == db.runs[ev.run].attempt + 1 && run.dep.value in db.edges
              && run.attempt <= db.edges[run.dep.value].retryCount))
  {
    hide TriggerAll, Eligible, IsListing;
    if IsApplyFinish(db, ev) {
      ListedRowsJoin(MarkFinished(db, ev.run), db.runs[ev.run].stack, ev.rows);
      TriggerAllOnlyTriggers(MarkFinished(db, ev.run), db.runs[ev.run].stack, ev.rows, ev.eval);
    }
  }
}
