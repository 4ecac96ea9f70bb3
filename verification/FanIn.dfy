/** Fan-in coordination of dependency triggers, over whole executions. */
module FanIn {
  import opened Options
  import opened DependencyGraph
  import opened RunMachine
  import opened RunLifecycle

  // ---- timestamps name events ------------------------------------------------------

  /** Event j is the successful finish of an apply phase of stack s. */
  ghost predicate ApplyFinishAt(db: Db, evs: seq<Event>, j: nat, s: StackId) {
    && j < |evs| && IsExecution(db, evs[..j])
    && IsApplyFinish(After(db, evs[..j]), evs[j])
    && After(db, evs[..j]).runs[evs[j].run].stack == s
  }

  ghost predicate Dated(db: Db, evs: seq<Event>, run: Run) {
    && (run.startedAt.Some? ==> run.startedAt.value < |evs| && evs[run.startedAt.value].Claim?)
    && (run.status == Finished ==> run.finishedAt.Some?)
    && (run.status == Finished && run.kind != Proposed ==> ApplyFinishAt(db, evs, run.finishedAt.value, run.stack))
  }

  lemma {:induction false} DatedExtends(db: Db, evs: seq<Event>, run: Run)
    requires evs != [] && Dated(db, evs[..|evs| - 1], run)
    ensures Dated(db, evs, run)
  {
    var init := evs[..|evs| - 1];
    if run.status == Finished && run.kind != Proposed {
      assert init[..run.finishedAt.value] == evs[..run.finishedAt.value];
    }
  }

  /** The columns no handler rewrites; started_at is written once. */
  ghost predicate SameRun(was: Run, now: Run) {
    && now.stack == was.stack && now.kind == was.kind && now.attempt == was.attempt
    && (was.startedAt.Some? ==> now.startedAt == was.startedAt)
  }

  /** What event ev at time t may do to the dates of row r. */
  ghost predicate DateStep(r: RunId, was: Run, ev: Event, applyFinish: bool, t: Time, now: Run) {
    && SameRun(was, now)
    && (now.startedAt == was.startedAt || (ev.Claim? && now.startedAt == Some(t)))
    && (now.status == Finished ==>
          || (was.status == Finished && now.finishedAt == was.finishedAt)
          || (ev.Finish? && ev.run == r && now.finishedAt == Some(t) && (was.kind != Proposed ==> applyFinish)))
  }

  lemma {:induction false} StepDates(db: Db, ev: Event, r: RunId)
    requires IdsBelowNext(db) && Enabled(db, ev) && r in db.runs && r in Step(db, ev).runs
    ensures DateStep(r, db.runs[r], ev, IsApplyFinish(db, ev), db.clock, Step(db, ev).runs[r])
  {
    hide HandleConfig, HandleFinish, HandleRun;
    if ev.Finish? {
      FinishKeepsOtherRows(db, ev);
    } else if IsConfigEvent(ev) {
      ConfigKeepsRow(db, ev, r);
    } else if IsRunEvent(ev) {
      RunEventDates(db, ev, r);
    }
  }

  lemma {:induction false} RunEventDates(db: Db, ev: Event, r: RunId)
    requires IsRunEvent(ev) && r in db.runs && r in HandleRun(db, ev).runs
    ensures DateStep(r, db.runs[r], ev, false, db.clock, HandleRun(db, ev).runs[r])
  {
  }

  lemma {:induction false} DatedAfterStep(db: Db, evs: seq<Event>, r: RunId, was: Run, now: Run)
    requires evs != [] && IsExecution(db, evs[..|evs| - 1]) && Dated(db, evs[..|evs| - 1], was)
    requires var before, ev := After(db, evs[..|evs| - 1]), evs[|evs| - 1];
      r in before.runs && before.runs[r] == was && DateStep(r, was, ev, IsApplyFinish(before, ev), |evs| - 1, now)
    ensures Dated(db, evs, now)
  {
    DatedExtends(db, evs, was);
    assert evs[..|evs| - 1] == evs[..|evs| - 1][..|evs| - 1];
  }

  lemma {:induction false} ClockCounts(db: Db, ev: Event)
    requires Enabled(db, ev)
    ensures Step(db, ev).clock == db.clock + 1
  {
  }

  lemma {:induction false} ExecutionsAreDated(db: Db, evs: seq<Event>)
    requires Initial(db) && IsExecution(db, evs)
    ensures After(db, evs).clock == |evs|
    ensures forall r | r in After(db, evs).runs :: Dated(db, evs, After(db, evs).runs[r])
    decreases |evs|
  {
    hide Step, Enabled;
    if evs != [] {
      var init, ev := evs[..|evs| - 1], evs[|evs| - 1];
      ExecutionsAreDated(db, init);
      ExecutionsAreConsistent(db, init);
      var was := After(db, init);
      StepKeepsIds(was, ev);
      ClockCounts(was, ev);
      forall r | r in After(db, evs).runs
        ensures Dated(db, evs, After(db, evs).runs[r])
      {
        if r in was.runs {
          StepDates(was, ev, r);
          DatedAfterStep(db, evs, r, was.runs[r], After(db, evs).runs[r]);
        }
      }
    }
  }

  // ---- freshness ----------------------------------------------------------------------

  /** Event n inserted run r as a first-attempt dependency run over edge (up, down). */
  ghost predicate TriggeredAt(db: Db, evs: seq<Event>, n: nat, r: RunId, up: StackId, down: StackId)
    requires IsExecution(db, evs)
  {
    && n < |evs| && IsExecution(db, evs[..n]) && IsExecution(db, evs[..n + 1])
    && r !in After(db, evs[..n]).runs && r in After(db, evs[..n + 1]).runs
    && After(db, evs[..n + 1]).runs[r].dep == Some((up, down))
    && After(db, evs[..n + 1]).runs[r].attempt == 0
  }

  /** Only a finished apply of the edge's upstream inserts such a run, and only
      for a row of the trigger query. */
  lemma {:induction false} TriggerNeedsEligible(db: Db, ev: Event, r: RunId, up: StackId, down: StackId)
    requires IdsBelowNext(db) && Enabled(db, ev)
    requires r !in db.runs && r in Step(db, ev).runs
    requires Step(db, ev).runs[r].dep == Some((up, down)) && Step(db, ev).runs[r].attempt == 0
    ensures IsApplyFinish(db, ev) && db.runs[ev.run].stack == up
    ensures Step(db, ev).runs[r].stack == down
    ensures Eligible(MarkFinished(db, ev.run), up, down)
  {
    if IsApplyFinish(db, ev) {
      TriggerAllOnlyTriggers(MarkFinished(db, ev.run), db.runs[ev.run].stack, ev.rows, ev.eval);
    }
  }

  /** Every other initialised upstream finished between the last start of the downstream and now. */
  lemma {:induction false} EligibleMeansFresh(db: Db, r: RunId, down: StackId, v: StackId, q: RunId) returns (j: Time)
    requires r in db.runs && db.runs[r].stack != down && Eligible(MarkFinished(db, r), db.runs[r].stack, down)
    requires (v, down) in db.edges && v != db.runs[r].stack && FinishTimes(db.runs, v) != {}
    requires q in db.runs && db.runs[q].stack == down && db.runs[q].startedAt.Some?
    ensures j in FinishTimes(db.runs, v) && db.runs[q].startedAt.value < j
  {
    OthersUnmarked(db, r, v, down);
    assert Ready(MarkFinished(db, r).runs, v, down);
    j :| j in FinishTimes(db.runs, v) && forall s | s in StartTimes(db.runs, down) :: s < j;
    assert db.runs[q].startedAt.value in StartTimes(db.runs, down);
  }

  lemma {:induction false} EligibleMeansIdle(db: Db, r: RunId, down: StackId)
    requires r in db.runs && db.runs[r].stack != down && Eligible(MarkFinished(db, r), db.runs[r].stack, down)
    ensures Idle(db.runs, down)
  {
    forall q | q in db.runs && db.runs[q].stack == down
      ensures !db.runs[q].status.InFlight()
    {
      assert MarkFinished(db, r).runs[q] == db.runs[q];
    }
  }

  lemma {:induction false} FinishTimeIsApplyFinish(db: Db, evs: seq<Event>, n: nat, v: StackId, j: Time)
    requires Initial(db) && n <= |evs| && IsExecution(db, evs[..n])
    requires j in FinishTimes(After(db, evs[..n]).runs, v)
    ensures j < n && ApplyFinishAt(db, evs, j, v)
  {
    hide Step, Enabled;
    ExecutionsAreDated(db, evs[..n]);
    assert ApplyFinishAt(db, evs[..n], j, v);
    assert evs[..n][..j] == evs[..j];
  }

  lemma {:induction false} TriggeredNow(db: Db, evs: seq<Event>, n: nat, r: RunId, up: StackId, down: StackId)
    requires Initial(db) && IsExecution(db, evs) && TriggeredAt(db, evs, n, r, up, down)
    ensures ApplyFinishAt(db, evs, n, up) && up != down
    ensures Eligible(MarkFinished(After(db, evs[..n]), evs[n].run), up, down)
  {
    hide Step, Enabled;
    var was := After(db, evs[..n]);
    assert evs[..n + 1][..n] == evs[..n];
    ExecutionsAreConsistent(db, evs[..n]);
    GraphStaysAcyclic(db, evs[..n]);
    TriggerNeedsEligible(was, evs[n], r, up, down);
    if up == down {
      EdgeReaches(was.edges.Keys, up, down);
    }
  }

  /** The rows on record when a non-retry dependency run is inserted: every other upstream
      with a finished apply has finished one after each start of the downstream. */
  lemma {:induction false} FreshOnRecord(db: Db, evs: seq<Event>, n: nat, r: RunId, up: StackId, down: StackId, v: StackId, q: RunId)
    requires Initial(db) && IsExecution(db, evs) && TriggeredAt(db, evs, n, r, up, down)
    requires (v, down) in After(db, evs[..n]).edges && v != up && FinishTimes(After(db, evs[..n]).runs, v) != {}
    requires q in After(db, evs[..n]).runs && After(db, evs[..n]).runs[q].stack == down
    requires After(db, evs[..n]).runs[q].startedAt.Some?
    ensures exists j: nat :: After(db, evs[..n]).runs[q].startedAt.value < j < n && ApplyFinishAt(db, evs, j, v)
  {
    hide Step, Enabled;
    TriggeredNow(db, evs, n, r, up, down);
    var j := EligibleMeansFresh(After(db, evs[..n]), evs[n].run, down, v, q);
    FinishTimeIsApplyFinish(db, evs, n, v, j);
  }

  /** Event s is the first claim of a run q of the stack: the moment it started. */
  ghost predicate StartAt(db: Db, evs: seq<Event>, s: nat, q: RunId, stack: StackId) {
    && s < |evs| && evs[s].Claim? && IsExecution(db, evs[..s]) && IsExecution(db, evs[..s + 1])
    && q in After(db, evs[..s]).runs && After(db, evs[..s]).runs[q].startedAt.None?
    && q in After(db, evs[..s + 1]).runs && After(db, evs[..s + 1]).runs[q].startedAt.Some?
    && After(db, evs[..s + 1]).runs[q].stack == stack
  }

  /** For every execution, over its events alone: a non-retry dependency run of `down` is
      inserted only by a finished apply of the edge's upstream and while `down` has no run
      in the six listed statuses; and for every other upstream v that has ever finished an
      apply (event j0) and every start of a run q of `down` (event s), v has finished an
      apply after s, provided the two runs were not deleted. */
  lemma {:induction false} FanInFreshness(db: Db, evs: seq<Event>, n: nat, r: RunId, up: StackId, down: StackId)
    requires Initial(db) && IsExecution(db, evs) && TriggeredAt(db, evs, n, r, up, down)
    ensures ApplyFinishAt(db, evs, n, up)
    ensures Idle(After(db, evs[..n]).runs, down)
    ensures forall v: StackId, j0: nat, s: nat, q: RunId ::
      && (v, down) in After(db, evs[..n]).edges && v != up
      && j0 < n && ApplyFinishAt(db, evs, j0, v) && Delete(evs[j0].run) !in evs[..n]
      && s < n && StartAt(db, evs, s, q, down) && Delete(q) !in evs[..n]
      ==> exists j: nat :: s < j < n && ApplyFinishAt(db, evs, j, v)
  {
    hide Step, Enabled;
    var was := After(db, evs[..n]);
    TriggeredNow(db, evs, n, r, up, down);
    EligibleMeansIdle(was, evs[n].run, down);
    forall v: StackId, j0: nat, s: nat, q: RunId |
      && (v, down) in was.edges && v != up
      && j0 < n && ApplyFinishAt(db, evs, j0, v) && Delete(evs[j0].run) !in evs[..n]
      && s < n && StartAt(db, evs, s, q, down) && Delete(q) !in evs[..n]
      ensures exists j: nat :: s < j < n && ApplyFinishAt(db, evs, j, v)
    {
      FinishStaysOnRecord(db, evs, n, j0, v);
      StartStaysOnRecord(db, evs, n, s, q, down);
      FreshOnRecord(db, evs, n, r, up, down, v, q);
    }
  }

  /** The same without any deletion: between the start of one run of `down` and the insertion
      of the next triggered one, every already-initialised upstream finishes at least once. */
  lemma {:induction false} EveryUpstreamFinishesBetween(db: Db, evs: seq<Event>, n: nat, r: RunId, up: StackId, down: StackId,
                                                         v: StackId, j0: nat, s: nat, q: RunId)
    requires Initial(db) && IsExecution(db, evs) && TriggeredAt(db, evs, n, r, up, down)
    requires forall i | 0 <= i < n :: !evs[i].Delete?
    requires (v, down) in After(db, evs[..n]).edges && v != up
    requires j0 < n && ApplyFinishAt(db, evs, j0, v) && s < n && StartAt(db, evs, s, q, down)
    ensures exists j: nat :: s < j < n && ApplyFinishAt(db, evs, j, v)
  {
    assert forall ev | ev in evs[..n] :: !ev.Delete?;
    FanInFreshness(db, evs, n, r, up, down);
  }

  // ---- rows persist unless deleted ----------------------------------------------------------

  lemma {:induction false} StepKeepsRow(db: Db, ev: Event, r: RunId)
    requires IdsBelowNext(db) && Enabled(db, ev) && r in db.runs && ev != Delete(r)
    ensures r in Step(db, ev).runs && SameRun(db.runs[r], Step(db, ev).runs[r])
  {
    hide HandleConfig, HandleFinish, HandleRun;
    if ev.Finish? {
      FinishKeepsOtherRows(db, ev);
    } else if IsConfigEvent(ev) {
      ConfigKeepsRow(db, ev, r);
    } else if IsRunEvent(ev) {
      RunEventKeepsRow(db, ev, r);
    }
    StepDates(db, ev, r);
  }

  lemma {:induction false} RunEventKeepsRow(db: Db, ev: Event, r: RunId)
    requires IsRunEvent(ev) && r in db.runs && ev != Delete(r)
    ensures r in HandleRun(db, ev).runs
  {
  }

  lemma {:induction false} RowPersists(db: Db, evs: seq<Event>, k: nat, r: RunId)
    requires Initial(db) && IsExecution(db, evs) && k <= |evs| && IsExecution(db, evs[..k])
    requires r in After(db, evs[..k]).runs && Delete(r) !in evs[k..]
    ensures r in After(db, evs).runs && SameRun(After(db, evs[..k]).runs[r], After(db, evs).runs[r])
    decreases |evs|
  {
    hide Step, Enabled;
    if k == |evs| {
      assert evs[..k] == evs;
    } else {
      var init, last := evs[..|evs| - 1], evs[|evs| - 1];
      assert init[..k] == evs[..k];
      assert evs[k..] == init[k..] + [last];
      RowPersists(db, init, k, r);
      ExecutionsAreConsistent(db, init);
      StepKeepsRow(After(db, init), last, r);
    }
  }

  /** The finish of an apply is on record from then on, unless its run is deleted. */
  lemma {:induction false} FinishStaysOnRecord(db: Db, evs: seq<Event>, n: nat, j: nat, v: StackId)
    requires Initial(db) && n <= |evs| && IsExecution(db, evs[..n])
    requires j < n && ApplyFinishAt(db, evs, j, v) && Delete(evs[j].run) !in evs[..n]
    ensures j in FinishTimes(After(db, evs[..n]).runs, v)
  {
    hide Step, Enabled;
    var pre, a := evs[..n], evs[j].run;
    assert pre[..j] == evs[..j] && pre[..j + 1] == evs[..j + 1] && evs[..j + 1][..j] == evs[..j];
    PrefixIsExecution(db, pre, j + 1);
    ExecutionsAreConsistent(db, evs[..j]);
    ExecutionsAreDated(db, evs[..j]);
    assert Enabled(After(db, evs[..j]), evs[j]);
    ApplyFinishIsRecorded(After(db, evs[..j]), evs[j]);
    RowPersists(db, pre, j + 1, a);
    TerminalIsFinal(db, pre, j + 1, a);
    assert After(db, pre).runs[a].finishedAt.value == j;
  }

  lemma {:induction false} ApplyFinishIsRecorded(db: Db, ev: Event)
    requires IdsBelowNext(db) && Enabled(db, ev) && IsApplyFinish(db, ev)
    ensures ev.run in Step(db, ev).runs
    ensures Step(db, ev).runs[ev.run] == db.runs[ev.run].(status := Finished, finishedAt := Some(db.clock))
  {
    hide HandleFinish;
    FinishKeepsOtherRows(db, ev);
  }

  /** So is the start of a run, with its event number. */
  lemma {:induction false} StartStaysOnRecord(db: Db, evs: seq<Event>, n: nat, s: nat, q: RunId, down: StackId)
    requires Initial(db) && n <= |evs| && IsExecution(db, evs[..n])
    requires s < n && StartAt(db, evs, s, q, down) && Delete(q) !in evs[..n]
    ensures
      var runs := After(db, evs[..n]).runs;
      q in runs && runs[q].stack == down && runs[q].startedAt == Some(s)
  {
    hide Step, Enabled;
    var pre := evs[..n];
    assert pre[..s + 1] == evs[..s + 1] && evs[..s + 1][..s] == evs[..s];
    ExecutionsAreConsistent(db, evs[..s]);
    ExecutionsAreDated(db, evs[..s]);
    StepDates(After(db, evs[..s]), evs[s], q);
    RowPersists(db, pre, s + 1, q);
  }

  lemma {:induction false} OthersUnmarked(db: Db, r: RunId, v: StackId, down: StackId)
    requires r in db.runs && db.runs[r].stack != v && db.runs[r].stack != down
    ensures FinishTimes(MarkFinished(db, r).runs, v) == FinishTimes(db.runs, v)
    ensures StartTimes(MarkFinished(db, r).runs, down) == StartTimes(db.runs, down)
  {
    var marked := MarkFinished(db, r).runs;
    forall t: Time
      ensures t in FinishTimes(marked, v) <==> t in FinishTimes(db.runs, v)
      ensures t in StartTimes(marked, down) <==> t in StartTimes(db.runs, down)
    {
      if t in FinishTimes(db.runs, v) {
        var q :| q in db.runs && db.runs[q].stack == v && db.runs[q].status == Finished && db.runs[q].kind != Proposed
                 && db.runs[q].finishedAt == Some(t);
        assert marked[q] == db.runs[q];
      }
      if t in StartTimes(db.runs, down) {
        var q :| q in db.runs && db.runs[q].stack == down && db.runs[q].startedAt == Some(t);
        assert marked[q] == db.runs[q];
      }
    }
  }

  /** A downstream run stranded by a status callback starves its stack: until it is
      canceled, no upstream finish triggers the stack again. */
  lemma {:induction false} StrandedRunBlocksTriggers(db: Db, evs: seq<Event>, k: nat, q: RunId,
                                                     n: nat, r: RunId, up: StackId, down: StackId)
    requires Initial(db) && IsExecution(db, evs) && k <= n && TriggeredAt(db, evs, n, r, up, down)
    requires IsExecution(db, evs[..k]) && q in After(db, evs[..k]).runs
    requires After(db, evs[..k]).runs[q].stack == down && After(db, evs[..k]).runs[q].status in {Planning, Applying}
    ensures q in After(db, evs[..n]).runs ==> After(db, evs[..n]).runs[q].status == Canceled
  {
    hide Step, Enabled;
    FanInFreshness(db, evs, n, r, up, down);
    var pre := evs[..n];
    assert pre[..k] == evs[..k];
    ExecutionsAreConsistent(db, pre[..k]);
    ClosedStatusesAreKept(db, pre, k, q);
    if q in After(db, pre).runs {
      RunIsTheSame(db, pre, k, q);
    }
  }

  lemma {:induction false} RunIsTheSame(db: Db, evs: seq<Event>, k: nat, q: RunId)
    requires Initial(db) && IsExecution(db, evs) && k <= |evs| && IsExecution(db, evs[..k])
    requires q in After(db, evs[..k]).runs && q in After(db, evs).runs
    ensures SameRun(After(db, evs[..k]).runs[q], After(db, evs).runs[q])
    decreases |evs|
  {
    hide Step, Enabled;
    if k == |evs| {
      assert evs[..k] == evs;
    } else {
      var init := evs[..|evs| - 1];
      assert init[..k] == evs[..k];
      ExecutionsAreConsistent(db, init);
      ExecutionsAreConsistent(db, evs[..k]);
      NextRunGrows(db, init, k);
      StepKeepsIds(After(db, init), evs[|evs| - 1]);
      RunIsTheSame(db, init, k, q);
      StepDates(After(db, init), evs[|evs| - 1], q);
    }
  }

  // ---- what blocks a trigger ---------------------------------------------------------------

  /** Every live status but `confirmed` blocks: whenever a dependency run is inserted, each
      run of the downstream on record is terminal or confirmed. */
  lemma {:induction false} OnlyConfirmedCoexists(db: Db, evs: seq<Event>, n: nat, r: RunId, up: StackId, down: StackId)
    requires Initial(db) && IsExecution(db, evs) && TriggeredAt(db, evs, n, r, up, down)
    ensures forall q | q in After(db, evs[..n]).runs && After(db, evs[..n]).runs[q].stack == down ::
      After(db, evs[..n]).runs[q].status.Terminal() || After(db, evs[..n]).runs[q].status == Confirmed
  {
    hide Step, Enabled;
    FanInFreshness(db, evs, n, r, up, down);
  }

  // ---- what a deletion does to freshness ----------------------------------------------------

  /** A row that counts towards MAX(finished_at) of the stack. */
  predicate CountsAsFinish(run: Run, s: StackId) {
    run.stack == s && run.status == Finished && run.kind != Proposed && run.finishedAt.Some?
  }

  predicate CountsAsStart(run: Run, s: StackId) {
    run.stack == s && run.startedAt.Some?
  }

  /** r is the last start of the downstream: no finish of the upstream is later than it, but one
      is later than every other start. */
  ghost predicate OnlyLateStart(runs: map<RunId, Run>, r: RunId, up: StackId, down: StackId)
    requires r in runs
  {
    && CountsAsStart(runs[r], down)
    && (forall a | a in runs && CountsAsFinish(runs[a], up) :: runs[a].finishedAt.value <= runs[r].startedAt.value)
    && exists a :: a in runs && CountsAsFinish(runs[a], up)
         && forall q | q in runs && q != r && CountsAsStart(runs[q], down) ::
              runs[q].startedAt.value < runs[a].finishedAt.value
  }

  /** r is the one finished apply of the upstream on record, and the downstream has started since. */
  ghost predicate OnlyStaleFinish(runs: map<RunId, Run>, r: RunId, up: StackId, down: StackId)
    requires r in runs
  {
    && CountsAsFinish(runs[r], up)
    && (forall a | a in runs && CountsAsFinish(runs[a], up) :: a == r)
    && exists q :: q in runs && CountsAsStart(runs[q], down) && runs[r].finishedAt.value <= runs[q].startedAt.value
  }

  lemma {:induction false} ReadyByRows(runs: map<RunId, Run>, up: StackId, down: StackId)
    ensures Ready(runs, up, down) <==>
      || (forall a | a in runs :: !CountsAsFinish(runs[a], up))
      || (exists a :: a in runs && CountsAsFinish(runs[a], up)
            && forall q | q in runs && CountsAsStart(runs[q], down) :: runs[q].startedAt.value < runs[a].finishedAt.value)
  {
    assert forall a | a in runs && CountsAsFinish(runs[a], up) :: runs[a].finishedAt.value in FinishTimes(runs, up);
    assert forall q | q in runs && CountsAsStart(runs[q], down) :: runs[q].startedAt.value in StartTimes(runs, down);
    if f :| f in FinishTimes(runs, up) && forall s | s in StartTimes(runs, down) :: s < f {
      var a :| a in runs && CountsAsFinish(runs[a], up) && runs[a].finishedAt.value == f;
    }
  }

  /** A Delete call turns a stale upstream into a ready one exactly if the run is terminal and is
      the only start of the downstream that is too late, or the only finish of the upstream. */
  lemma {:induction false} DeletionUnblocksIff(db: Db, r: RunId, up: StackId, down: StackId)
    requires up != down
    ensures !Ready(db.runs, up, down) && Ready(Step(db, Delete(r)).runs, up, down) <==>
      && r in db.runs && db.runs[r].status.Terminal()
      && (OnlyLateStart(db.runs, r, up, down) || OnlyStaleFinish(db.runs, r, up, down))
  {
    hide Ready, OnlyLateStart, OnlyStaleFinish;
    if r in db.runs {
      RemovalUnblocksIff(db.runs, r, up, down);
    }
  }

  lemma {:induction false} RemovalUnblocksIff(runs: map<RunId, Run>, r: RunId, up: StackId, down: StackId)
    requires r in runs && up != down
    ensures !Ready(runs, up, down) && Ready(runs - {r}, up, down) <==>
      OnlyLateStart(runs, r, up, down) || OnlyStaleFinish(runs, r, up, down)
  {
    ReadyByRows(runs, up, down);
    ReadyByRows(runs - {r}, up, down);
    if !Ready(runs, up, down) && Ready(runs - {r}, up, down) {
      RemovalUnblocksOnlyIf(runs, r, up, down);
    }
    if OnlyLateStart(runs, r, up, down) {
      var a :| a in runs && CountsAsFinish(runs[a], up)
               && forall q | q in runs && q != r && CountsAsStart(runs[q], down) ::
                    runs[q].startedAt.value < runs[a].finishedAt.value;
      assert a in runs - {r};
    }
  }

  lemma {:induction false} RemovalUnblocksOnlyIf(runs: map<RunId, Run>, r: RunId, up: StackId, down: StackId)
    requires r in runs && up != down && !Ready(runs, up, down) && Ready(runs - {r}, up, down)
    ensures OnlyLateStart(runs, r, up, down) || OnlyStaleFinish(runs, r, up, down)
  {
    var rest := runs - {r};
    ReadyByRows(runs, up, down);
    ReadyByRows(rest, up, down);
    hide Ready;
    assert forall q | q in runs && q != r :: q in rest && rest[q] == runs[q];
    if a :| a in rest && CountsAsFinish(rest[a], up)
            && forall q | q in rest && CountsAsStart(rest[q], down) :: rest[q].startedAt.value < rest[a].finishedAt.value
    {
      var q :| q in runs && CountsAsStart(runs[q], down) && runs[a].finishedAt.value <= runs[q].startedAt.value;
      assert q == r;
      forall b | b in runs && CountsAsFinish(runs[b], up)
        ensures runs[b].finishedAt.value <= runs[r].startedAt.value
      {
        var p :| p in runs && CountsAsStart(runs[p], down) && runs[b].finishedAt.value <= runs[p].startedAt.value;
      }
    } else {
      var a :| a in runs && CountsAsFinish(runs[a], up);
      assert a == r;
    }
  }
}
