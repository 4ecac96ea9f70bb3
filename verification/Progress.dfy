/** Which runs can still be brought to an end by the calls there are. */
module Progress {
  import opened Options
  import opened DependencyGraph
  import opened RunMachine
  import opened RunLifecycle
  import opened StatusEntries
  import PostPlanGate

  // ---- extending an execution ------------------------------------------------------------

  lemma {:induction false} ExecutionSnoc(db: Db, evs: seq<Event>, ev: Event)
    requires IsExecution(db, evs) && Enabled(After(db, evs), ev)
    ensures IsExecution(db, evs + [ev]) && After(db, evs + [ev]) == Step(After(db, evs), ev)
  {
    hide Step, Enabled;
    assert (evs + [ev])[..|evs|] == evs;
  }

  /** The trigger query always has a result set. */
  lemma {:induction false} SomeListing(db: Db, up: StackId) returns (rows: seq<StackId>)
    ensures IsListing(db, up, rows)
  {
    hide Eligible;
    var downs := set e | e in db.edges && e.0 == up :: e.1;
    rows := ListingOf(db, up, downs);
    forall d: StackId | Eligible(db, up, d)
      ensures d in downs
    {
      EligibleHasEdge(db, up, d);
      assert (up, d).1 in downs;
    }
  }

  lemma {:induction false} EligibleHasEdge(db: Db, up: StackId, d: StackId)
    requires Eligible(db, up, d)
    ensures (up, d) in db.edges
  {
  }

  lemma {:induction false} ListingOf(db: Db, up: StackId, downs: set<StackId>) returns (rows: seq<StackId>)
    ensures forall d: StackId :: d in rows <==> d in downs && Eligible(db, up, d)
    ensures forall i, j | 0 <= i < j < |rows| :: rows[i] != rows[j]
    decreases downs
  {
    hide Eligible;
    if downs == {} {
      rows := [];
    } else {
      var d :| d in downs;
      rows := ListingOf(db, up, downs - {d});
      if Eligible(db, up, d) {
        rows := rows + [d];
      }
    }
  }

  // ---- how far a run has to go -------------------------------------------------------------

  /** Phases a run of a pool still has before it. */
  function Distance(run: Run): nat {
    match run.status
    case Queued => 6
    case Preparing => if run.kind == Proposed || run.approvedAt.Some? then 1 else 5
    case PendingApproval => 4
    case Unconfirmed => 3
    case Confirmed => 2
    case _ => 0
  }

  /** Runs of the pool that will be claimed before r. */
  function Ahead(db: Db, pool: PoolId, r: RunId): set<RunId> {
    set q | q in db.runs && q < r && Claimable(db.runs[q], pool)
  }

  /** Statuses from which the calls of agents and users lead on to the end. */
  predicate UnderWay(run: Run) {
    run.pool.Some? && run.status in {Queued, Preparing, PendingApproval, Unconfirmed, Confirmed}
  }

  const CLEAR := PostPlanGate.Verdict(false, false, false)

  lemma {:induction false} OldestExists(db: Db, pool: PoolId, r: RunId) returns (q: RunId)
    requires r in db.runs && Claimable(db.runs[r], pool)
    ensures IsOldestClaimable(db.runs, pool, q) && q <= r
    decreases r
  {
    if p :| p in db.runs && Claimable(db.runs[p], pool) && p < r {
      q := OldestExists(db, pool, p);
    } else {
      q := r;
    }
  }

  /** A claim takes r up, or shortens the queue before it. */
  lemma {:induction false} ClaimAdvances(db: Db, pool: PoolId, r: RunId)
    requires IdsBelowNext(db) && r in db.runs && Claimable(db.runs[r], pool)
    ensures Enabled(db, Claim(pool)) && r in Step(db, Claim(pool)).runs
    ensures
      var now := Step(db, Claim(pool));
      || now.runs[r] == Started(db.runs[r], db.clock)
      || (now.runs[r] == db.runs[r] && Ahead(now, pool, r) < Ahead(db, pool, r))
  {
    hide HandleClaim, IsOldestClaimable;
    assert Enabled(db, Claim(pool));
    RowAfter(db, Claim(pool), r);
    var q := OldestExists(db, pool, r);
    if q != r {
      OldestIsUnique(db.runs, pool, q, r);
      var now := Step(db, Claim(pool));
      StepKeepsIds(db, Claim(pool));
      RowAfter(db, Claim(pool), q);
      OldestIsClaimable(db.runs, pool, q);
      forall p | p in Ahead(now, pool, r)
        ensures p in Ahead(db, pool, r)
      {
        if p in db.runs {
          RowAfter(db, Claim(pool), p);
        }
      }
      assert q in Ahead(db, pool, r) && q !in Ahead(now, pool, r);
    }
  }

  lemma {:induction false} OldestIsClaimable(runs: map<RunId, Run>, pool: PoolId, q: RunId)
    requires IsOldestClaimable(runs, pool, q)
    ensures q in runs && Claimable(runs[q], pool)
  {
  }

  lemma {:induction false} OldestIsUnique(runs: map<RunId, Run>, pool: PoolId, q: RunId, r: RunId)
    requires IsOldestClaimable(runs, pool, q) && q != r
    ensures !IsOldestClaimable(runs, pool, r)
  {
  }

  /** The next call for a run that waits for nobody's claim, and where it leads. */
  lemma {:induction false} NextCall(db: Db, r: RunId, h: History) returns (ev: Event)
    requires IdsBelowNext(db) && r in db.runs && db.runs[r].stack in db.stacks && Consistent(db.runs[r], h)
    requires UnderWay(db.runs[r]) && db.runs[r].status in {Preparing, PendingApproval, Unconfirmed}
    ensures Enabled(db, ev) && r in Step(db, ev).runs
    ensures Distance(Step(db, ev).runs[r]) < Distance(db.runs[r])
    ensures Step(db, ev).runs[r].status == Finished || UnderWay(Step(db, ev).runs[r])
  {
    hide Step, Eligible, HandleFinish;
    var run := db.runs[r];
    if run.status == PendingApproval {
      ev := ChatApprove(r);
      UnconfirmedExactly(db, ev, r);
    } else if run.status == Unconfirmed {
      ev := Confirm(r);
      ConfirmedExactly(db, ev, r);
    } else {
      var rows := SomeListing(MarkFinished(db, r), run.stack);
      ev := Finish(run.pool.value, r, true, CLEAR, LoadFailed, rows);
      RowAfter(db, ev, r);
    }
    StepKeepsPoolless(db, ev, r);
  }

  /** Every run under way reaches `finished` by some calls. */
  lemma {:induction false} LeadsToFinished(db: Db, evs: seq<Event>, r: RunId) returns (all: seq<Event>)
    requires Initial(db) && IsExecution(db, evs) && r in After(db, evs).runs && UnderWay(After(db, evs).runs[r])
    ensures evs <= all && IsExecution(db, all) && r in After(db, all).runs && After(db, all).runs[r].status == Finished
    decreases Distance(After(db, evs).runs[r]), Ahead(After(db, evs), After(db, evs).runs[r].pool.value, r)
  {
    hide Step, Enabled, Consistent;
    var now := After(db, evs);
    ExecutionsAreConsistent(db, evs);
    ExecutionsJoinStacks(db, evs);
    var run, ev := now.runs[r], Claim(now.runs[r].pool.value);
    if run.status in {Queued, Confirmed} {
      ClaimAdvances(now, run.pool.value, r);
      ClaimedDistance(run, Histories(db, evs)[r], now.clock);
    } else {
      ev := NextCall(now, r, Histories(db, evs)[r]);
    }
    ExecutionSnoc(db, evs, ev);
    all := evs + [ev];
    if After(db, all).runs[r].status != Finished {
      all := LeadsToFinished(db, all, r);
    }
  }

  lemma {:induction false} ClaimedDistance(run: Run, h: History, now: Time)
    requires Consistent(run, h) && run.status in {Queued, Confirmed}
    ensures Distance(Started(run, now)) < Distance(run)
  {
  }

  // ---- exactly which runs can finish ---------------------------------------------------------

  /** Some further calls finish the run. */
  ghost predicate CanFinish(db: Db, evs: seq<Event>, r: RunId) {
    exists more: seq<Event> ::
      && IsExecution(db, evs + more)
      && r in After(db, evs + more).runs && After(db, evs + more).runs[r].status == Finished
  }

  /** Runs without a pool are never claimed, so they never start. */
  lemma {:induction false} PoollessNeverStart(db: Db, evs: seq<Event>, r: RunId)
    requires Initial(db) && IsExecution(db, evs) && r in After(db, evs).runs
    ensures After(db, evs).runs[r].pool.None? ==> After(db, evs).runs[r].startedAt.None?
    decreases |evs|
  {
    hide Step, Enabled;
    var init, ev := evs[..|evs| - 1], evs[|evs| - 1];
    var was := After(db, init);
    ExecutionsAreConsistent(db, init);
    StepKeepsIds(was, ev);
    if r in was.runs {
      PoollessNeverStart(db, init, r);
      StepKeepsPoolless(was, ev, r);
    }
  }

  lemma {:induction false} StepKeepsPoolless(db: Db, ev: Event, r: RunId)
    requires IdsBelowNext(db) && Enabled(db, ev) && r in db.runs && r in Step(db, ev).runs
    ensures Step(db, ev).runs[r].pool == db.runs[r].pool
    ensures db.runs[r].pool.None? ==> Step(db, ev).runs[r].startedAt == db.runs[r].startedAt
  {
    hide Step, HandleFinish, HandleConfig, HandleClaim;
    RowAfter(db, ev, r);
  }

  lemma {:induction false} PoolIsKept(db: Db, evs: seq<Event>, k: nat, r: RunId)
    requires Initial(db) && IsExecution(db, evs) && k <= |evs| && IsExecution(db, evs[..k])
    requires r in After(db, evs[..k]).runs && r in After(db, evs).runs
    ensures After(db, evs).runs[r].pool == After(db, evs[..k]).runs[r].pool
    decreases |evs|
  {
    hide Step, Enabled;
    if k == |evs| {
      assert evs[..k] == evs;
    } else {
      var init := evs[..|evs| - 1];
      assert init[..k] == evs[..k];
      ExecutionsAreConsistent(db, init);
      ExecutionsAreConsistent(db, evs[..k]);
      NextRunGrows(db, init, k);
      StepKeepsIds(After(db, init), evs[|evs| - 1]);
      PoolIsKept(db, init, k, r);
      StepKeepsPoolless(After(db, init), evs[|evs| - 1], r);
    }
  }

  /** After every execution, exactly these runs can still finish, or have: those of a pool that
      no status callback has taken to planning or applying, and that are not failed, canceled
      or discarded. */
  lemma {:induction false} CanFinishIff(db: Db, evs: seq<Event>, r: RunId)
    requires Initial(db) && IsExecution(db, evs) && r in After(db, evs).runs
    ensures
      var run := After(db, evs).runs[r];
      CanFinish(db, evs, r) <==>
        || run.status == Finished
        || (run.pool.Some? && run.status in {Queued, Preparing, PendingApproval, Unconfirmed, Confirmed})
  {
    hide Step, Enabled, IsExecution, After;
    var run := After(db, evs).runs[r];
    if run.status == Finished {
      assert evs + [] == evs;
      assert CanFinish(db, evs, r);
    } else if UnderWay(run) {
      var all := LeadsToFinished(db, evs, r);
      assert evs + all[|evs|..] == all;
      assert CanFinish(db, evs, r);
    } else if CanFinish(db, evs, r) {
      var more: seq<Event> :|
        IsExecution(db, evs + more) && r in After(db, evs + more).runs && After(db, evs + more).runs[r].status == Finished;
      NeverFinishes(db, evs, evs + more, r);
    }
  }

  lemma {:induction false} NeverFinishes(db: Db, evs: seq<Event>, all: seq<Event>, r: RunId)
    requires Initial(db) && IsExecution(db, evs) && evs <= all && IsExecution(db, all)
    requires r in After(db, evs).runs && r in After(db, all).runs
    requires After(db, evs).runs[r].status != Finished && !UnderWay(After(db, evs).runs[r])
    ensures After(db, all).runs[r].status != Finished
  {
    hide Step, Enabled;
    assert all[..|evs|] == evs;
    ExecutionsAreConsistent(db, evs);
    ExecutionsAreConsistent(db, all);
    if Closed(After(db, evs).runs[r]) {
      ClosedStatusesAreKept(db, all, |evs|, r);
    } else {
      PoolIsKept(db, all, |evs|, r);
      PoollessNeverStart(db, all, r);
    }
  }
}
