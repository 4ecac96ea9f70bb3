/** One wave of upstream finishes triggers a fan-in downstream exactly once. */
module FanInWave {
  import opened Options
  import opened DependencyGraph
  import opened RunMachine
  import opened RunLifecycle

  function RunsOf(runs: map<RunId, Run>, s: StackId): map<RunId, Run> {
    map r | r in runs && runs[r].stack == s :: runs[r]
  }

  function Upstreams(db: Db, d: StackId): set<StackId> {
    set e | e in db.edges && e.1 == d :: e.0
  }

  /** Every start on record lies before t. */
  ghost predicate StartedBefore(runs: map<RunId, Run>, d: StackId, t: Time) {
    forall s | s in StartTimes(runs, d) :: s < t
  }

  /** u has finished, but not since d last started. */
  ghost predicate Stale(runs: map<RunId, Run>, u: StackId, d: StackId) {
    && FinishTimes(runs, u) != {}
    && exists s :: s in StartTimes(runs, d) && forall f | f in FinishTimes(runs, u) :: f <= s
  }

  /** d may be triggered by its upstreams, and its edges carry no predicate. */
  ghost predicate OpenDownstream(db: Db, d: StackId) {
    && d in db.stacks && !db.stacks[d].disabled && !db.stacks[d].locked && d !in Upstreams(db, d)
    && (forall u | u in Upstreams(db, d) ::
          && u in db.stacks && db.stacks[u].org == db.stacks[d].org && !db.edges[(u, d)].when.IsSet())
  }

  /** Before the wave: d is idle, and everything its upstreams finished is older than its last start. */
  ghost predicate WaveStart(db: Db, d: StackId) {
    && IdsBelowNext(db) && OpenDownstream(db, d) && Idle(db.runs, d)
    && StartedBefore(db.runs, d, db.clock)
    && forall u | u in Upstreams(db, d) :: Stale(db.runs, u, d)
  }

  /** The step of the wave proper: an apply of one of d's upstreams finishes. */
  ghost predicate UpstreamFinish(db: Db, ev: Event, d: StackId) {
    IsApplyFinish(db, ev) && db.runs[ev.run].stack in Upstreams(db, d)
  }

  /** Any other step, as long as it leaves alone d's runs, d's configuration and
      incoming edges, and what d's upstreams have finished. */
  ghost predicate Bystander(db: Db, ev: Event, d: StackId)
    requires Enabled(db, ev)
  {
    var db' := Step(db, ev);
    && !UpstreamFinish(db, ev, d)
    && RunsOf(db'.runs, d) == RunsOf(db.runs, d)
    && Upstreams(db', d) == Upstreams(db, d) && OpenDownstream(db', d)
    && d in db.stacks && db'.stacks[d].pool == db.stacks[d].pool
    && forall u | u in Upstreams(db, d) :: FinishTimes(db'.runs, u) == FinishTimes(db.runs, u)
  }

  /** A wave for d: upstream finishes, in any order and any number of times each, among bystander steps. */
  ghost predicate IsWave(db: Db, evs: seq<Event>, d: StackId)
    requires IsExecution(db, evs)
    decreases |evs|
  {
    evs == [] ||
    (var init, ev := evs[..|evs| - 1], evs[|evs| - 1];
     && IsWave(db, init, d)
     && (Bystander(After(db, init), ev, d) || UpstreamFinish(After(db, init), ev, d)))
  }

  /** The upstreams that have finished in the wave. */
  ghost function FinishedIn(db: Db, evs: seq<Event>, d: StackId): set<StackId>
    requires IsExecution(db, evs)
    decreases |evs|
  {
    if evs == [] then {}
    else
      var init, ev := evs[..|evs| - 1], evs[|evs| - 1];
      FinishedIn(db, init, d) + Finishes(After(db, init), ev, d)
  }

  // ---- views of the table -----------------------------------------------------------------

  lemma {:induction false} SameRunsSameTimes(a: map<RunId, Run>, b: map<RunId, Run>, s: StackId)
    requires RunsOf(a, s) == RunsOf(b, s)
    ensures StartTimes(a, s) == StartTimes(b, s) && FinishTimes(a, s) == FinishTimes(b, s)
    ensures Idle(a, s) == Idle(b, s)
  {
    assert forall r | r in a && a[r].stack == s :: r in RunsOf(a, s) && RunsOf(a, s)[r] == a[r];
    assert forall r | r in b && b[r].stack == s :: r in RunsOf(b, s) && RunsOf(b, s)[r] == b[r];
    SameRunsTimesIncluded(a, b, s);
    SameRunsTimesIncluded(b, a, s);
  }

  lemma {:induction false} SameRunsTimesIncluded(a: map<RunId, Run>, b: map<RunId, Run>, s: StackId)
    requires forall r | r in a && a[r].stack == s :: r in b && b[r] == a[r]
    ensures StartTimes(a, s) <= StartTimes(b, s) && FinishTimes(a, s) <= FinishTimes(b, s)
  {
  }

  lemma {:induction false} TriggerOneRunsOf(db: Db, up: StackId, down: StackId, eval: EdgeEval, s: StackId)
    requires IdsBelowNext(db) && (up, down) in db.edges && down in db.stacks
    requires down == s ==> Fires(eval, db.edges[(up, s)].when)
    ensures RunsOf(TriggerOne(db, up, down, eval).runs, s) ==
      if down == s then RunsOf(db.runs, s)[db.nextRun := NewRun(s, db.stacks[s].pool, Tracked, Some((up, s)), 0)]
      else RunsOf(db.runs, s)
  {
  }

  ghost predicate GainsOne(db: Db, db': Db, up: StackId, s: StackId)
    requires s in db.stacks
  {
    exists r: RunId :: r !in db.runs && RunsOf(db'.runs, s) ==
      RunsOf(db.runs, s)[r := NewRun(s, db.stacks[s].pool, Tracked, Some((up, s)), 0)]
  }

  /** Triggering adds one queued run to each listed stack whose edge fires, and nothing to others. */
  lemma {:induction false} TriggerAllRunsOf(db: Db, up: StackId, rows: seq<StackId>, eval: EdgeEval, s: StackId)
    requires IdsBelowNext(db) && JoinsUp(db, up, rows)
    requires forall i, j | 0 <= i < j < |rows| :: rows[i] != rows[j]
    requires s in rows ==> Fires(eval, db.edges[(up, s)].when)
    ensures s in rows ==> GainsOne(db, TriggerAll(db, up, rows, eval), up, s)
    ensures s !in rows ==> RunsOf(TriggerAll(db, up, rows, eval).runs, s) == RunsOf(db.runs, s)
    decreases |rows|
  {
    if rows != [] {
      var init, last := rows[..|rows| - 1], rows[|rows| - 1];
      assert rows == init + [last];
      TriggerAllRunsOf(db, up, init, eval, s);
      TriggerAllOnlyTriggers(db, up, init, eval);
      var mid := TriggerAll(db, up, init, eval);
      TriggerOneRunsOf(mid, up, last, eval, s);
      if last == s {
        assert s !in init && mid.nextRun !in db.runs;
      }
    }
  }

  /** Triggering does not touch what any stack has finished. */
  lemma {:induction false} TriggerAllFinishTimes(db: Db, up: StackId, rows: seq<StackId>, eval: EdgeEval, u: StackId)
    requires IdsBelowNext(db) && JoinsUp(db, up, rows)
    ensures FinishTimes(TriggerAll(db, up, rows, eval).runs, u) == FinishTimes(db.runs, u)
  {
    TriggerAllOnlyTriggers(db, up, rows, eval);
    var after := TriggerAll(db, up, rows, eval).runs;
    assert forall r | r in db.runs :: after[r] == db.runs[r];
    forall t | t in FinishTimes(db.runs, u)
      ensures t in FinishTimes(after, u)
    {
      var r :| r in db.runs && db.runs[r].stack == u && db.runs[r].status == Finished && db.runs[r].kind != Proposed
               && db.runs[r].finishedAt == Some(t);
      assert after[r] == db.runs[r];
    }
  }

  lemma {:induction false} MarkFinishedViews(db: Db, r: RunId, s: StackId)
    requires r in db.runs && db.runs[r].stack != s
    ensures RunsOf(MarkFinished(db, r).runs, s) == RunsOf(db.runs, s)
  {
  }

  lemma {:induction false} MarkFinishedTimes(db: Db, r: RunId)
    requires r in db.runs && db.runs[r].kind != Proposed
    ensures db.clock in FinishTimes(MarkFinished(db, r).runs, db.runs[r].stack)
  {
    var marked := MarkFinished(db, r).runs;
    assert marked[r].finishedAt.value in FinishTimes(marked, db.runs[r].stack);
  }

  // ---- the wave invariant ----------------------------------------------------------------------

  /** State of a wave that started at db, with `done` the upstreams finished so far. */
  ghost predicate WaveState(db: Db, now: Db, d: StackId, done: set<StackId>) {
    && IdsBelowNext(now) && db.clock <= now.clock
    && OpenDownstream(now, d) && Upstreams(now, d) == Upstreams(db, d) && d in db.stacks
    && now.stacks[d].pool == db.stacks[d].pool
    && done <= Upstreams(db, d)
    && (forall u | u in done :: exists f :: f in FinishTimes(now.runs, u) && StartedBefore(db.runs, d, f))
    && (forall u | u in Upstreams(db, d) - done :: FinishTimes(now.runs, u) == FinishTimes(db.runs, u))
    && (done < Upstreams(db, d) || Upstreams(db, d) == {} ==> RunsOf(now.runs, d) == RunsOf(db.runs, d))
    && (done == Upstreams(db, d) != {} ==> ExactlyOneNew(db, now, d))
  }

  /** d has gained one run, queued by a dependency trigger, and is otherwise as it was. */
  ghost predicate ExactlyOneNew(db: Db, now: Db, d: StackId)
    requires d in db.stacks
  {
    exists r: RunId, u: StackId ::
      && r !in RunsOf(db.runs, d) && u in Upstreams(db, d)
      && RunsOf(now.runs, d) == RunsOf(db.runs, d)[r := NewRun(d, db.stacks[d].pool, Tracked, Some((u, d)), 0)]
  }

  /** While another upstream is stale, d is no row of the trigger query; once all
      the others are fresh, it is. */
  lemma {:induction false} EligibleExactlyAtLast(db: Db, marked: Db, u: StackId, d: StackId, done: set<StackId>)
    requires WaveStart(db, d) && u in Upstreams(db, d) && done <= Upstreams(db, d)
    requires OpenDownstream(marked, d) && Upstreams(marked, d) == Upstreams(db, d)
    requires RunsOf(marked.runs, d) == RunsOf(db.runs, d)
    requires forall v | v in done :: exists f :: f in FinishTimes(marked.runs, v) && StartedBefore(db.runs, d, f)
    requires forall v | v in Upstreams(db, d) - done - {u} :: FinishTimes(marked.runs, v) == FinishTimes(db.runs, v)
    ensures Eligible(marked, u, d) <==> done + {u} == Upstreams(db, d)
  {
    SameRunsSameTimes(marked.runs, db.runs, d);
    if done + {u} == Upstreams(db, d) {
      forall e | e in marked.edges && e.1 == d && e.0 != u
        ensures Ready(marked.runs, e.0, d)
      {
        assert e.0 in Upstreams(marked, d);
      }
      assert exists e :: e in marked.edges && e.1 == d && e.0 == u by {
        assert u in Upstreams(marked, d);
      }
    } else {
      var v :| v in Upstreams(db, d) - done - {u};
      assert Stale(db.runs, v, d);
      var e :| e in marked.edges && e.1 == d && e.0 == v;
      assert !Ready(marked.runs, v, d);
    }
  }

  /** What an upstream finish does to the finish times of d's upstreams. */
  lemma {:induction false} FinishTimesAfter(now: Db, ev: Event, v: StackId)
    requires IdsBelowNext(now) && IsApplyFinish(now, ev) && Enabled(now, ev)
    ensures
      var marked := MarkFinished(now, ev.run);
      && FinishTimes(Step(now, ev).runs, v) == FinishTimes(marked.runs, v)
      && (v != now.runs[ev.run].stack ==> FinishTimes(marked.runs, v) == FinishTimes(now.runs, v))
  {
    hide IsListing, FinishTimes, TriggerAll;
    var marked, u := MarkFinished(now, ev.run), now.runs[ev.run].stack;
    ListedRowsJoin(marked, u, ev.rows);
    TriggerAllFinishTimes(marked, u, ev.rows, ev.eval, v);
    if v != u {
      MarkFinishedViews(now, ev.run, v);
      SameRunsSameTimes(marked.runs, now.runs, v);
    }
  }

  /** The step adds one run to d if and only if d is an eligible row. */
  lemma {:induction false} RunsOfAfter(now: Db, ev: Event, d: StackId)
    requires IdsBelowNext(now) && OpenDownstream(now, d) && Enabled(now, ev) && UpstreamFinish(now, ev, d)
    ensures
      var marked, u := MarkFinished(now, ev.run), now.runs[ev.run].stack;
      && RunsOf(marked.runs, d) == RunsOf(now.runs, d)
      && (Eligible(marked, u, d) ==> GainsOne(marked, Step(now, ev), u, d))
      && (!Eligible(marked, u, d) ==> RunsOf(Step(now, ev).runs, d) == RunsOf(now.runs, d))
  {
    hide TriggerAll, Eligible;
    var marked, u := MarkFinished(now, ev.run), now.runs[ev.run].stack;
    MarkFinishedViews(now, ev.run, d);
    assert (u, d) in marked.edges;
    ListedRowsJoin(marked, u, ev.rows);
    TriggerAllRunsOf(marked, u, ev.rows, ev.eval, d);
  }

  lemma {:induction false} ListedRowsJoin(db: Db, up: StackId, rows: seq<StackId>)
    requires IsListing(db, up, rows)
    ensures JoinsUp(db, up, rows)
  {
  }

  /** Finish times of d's upstreams after one of them, u, has finished again. */
  lemma {:induction false} UpstreamFinishTimes(db: Db, now: Db, ev: Event, d: StackId, done: set<StackId>)
    requires WaveStart(db, d) && WaveState(db, now, d, done) && Enabled(now, ev) && UpstreamFinish(now, ev, d)
    ensures
      var u, next := now.runs[ev.run].stack, Step(now, ev);
      && (forall v | v in done + {u} :: exists f :: f in FinishTimes(next.runs, v) && StartedBefore(db.runs, d, f))
      && (forall v | v in Upstreams(db, d) - done - {u} :: FinishTimes(next.runs, v) == FinishTimes(db.runs, v))
      && (forall v | v in done + {u} :: exists f :: f in FinishTimes(MarkFinished(now, ev.run).runs, v) && StartedBefore(db.runs, d, f))
      && (forall v | v in Upstreams(db, d) - done - {u} ::
            FinishTimes(MarkFinished(now, ev.run).runs, v) == FinishTimes(db.runs, v))
  {
    hide Step, Enabled, FinishTimes, StartTimes, RunsOf, Idle;
    var u := now.runs[ev.run].stack;
    MarkFinishedTimes(now, ev.run);
    assert StartedBefore(db.runs, d, now.clock);
    forall v | v in Upstreams(db, d)
      ensures FinishTimes(Step(now, ev).runs, v) == FinishTimes(MarkFinished(now, ev.run).runs, v)
      ensures v != u ==> FinishTimes(MarkFinished(now, ev.run).runs, v) == FinishTimes(now.runs, v)
    {
      FinishTimesAfter(now, ev, v);
    }
  }

  /** Once the wave is complete d has a queued run, so no further finish triggers it. */
  lemma {:induction false} CompleteWaveIsNotEligible(db: Db, now: Db, marked: Db, u: StackId, d: StackId)
    requires d in db.stacks && ExactlyOneNew(db, now, d) && RunsOf(marked.runs, d) == RunsOf(now.runs, d)
    ensures !Eligible(marked, u, d)
  {
    var r: RunId, v: StackId :|
      && r !in RunsOf(db.runs, d) && v in Upstreams(db, d)
      && RunsOf(now.runs, d) == RunsOf(db.runs, d)[r := NewRun(d, db.stacks[d].pool, Tracked, Some((v, d)), 0)];
    assert r in RunsOf(marked.runs, d) && marked.runs[r].status.InFlight();
  }

  /** d's runs after an upstream finish: one more exactly if that completes the wave. */
  lemma {:induction false} UpstreamFinishRuns(db: Db, now: Db, ev: Event, d: StackId, done: set<StackId>)
    requires WaveStart(db, d) && WaveState(db, now, d, done) && Enabled(now, ev) && UpstreamFinish(now, ev, d)
    ensures
      var all, more := Upstreams(db, d), done + {now.runs[ev.run].stack};
      && (more != all ==> RunsOf(Step(now, ev).runs, d) == RunsOf(db.runs, d))
      && (more == all ==> ExactlyOneNew(db, Step(now, ev), d))
  {
    hide Step, Enabled, TriggerAll, Eligible, IsListing, FinishTimes, StartTimes, RunsOf, Idle;
    var u, marked := now.runs[ev.run].stack, MarkFinished(now, ev.run);
    RunsOfAfter(now, ev, d);
    if done == Upstreams(db, d) {
      assert done + {u} == done;
      CompleteWaveIsNotEligible(db, now, marked, u, d);
    } else {
      UpstreamFinishTimes(db, now, ev, d, done);
      EligibleExactlyAtLast(db, marked, u, d, done);
      if done + {u} == Upstreams(db, d) {
        var r: RunId :| r !in marked.runs && RunsOf(Step(now, ev).runs, d) ==
            RunsOf(marked.runs, d)[r := NewRun(d, marked.stacks[d].pool, Tracked, Some((u, d)), 0)];
        NotInTableNotInView(marked, r, d);
        assert ExactlyOneNew(db, Step(now, ev), d);
      }
    }
  }

  lemma {:induction false} ApplyFinishKeepsConfig(now: Db, ev: Event)
    requires Enabled(now, ev) && IsApplyFinish(now, ev)
    ensures Step(now, ev).stacks == now.stacks && Step(now, ev).edges == now.edges && Step(now, ev).clock == now.clock + 1
  {
  }

  lemma {:induction false} UpstreamFinishKeepsWave(db: Db, now: Db, ev: Event, d: StackId, done: set<StackId>)
    requires WaveStart(db, d) && WaveState(db, now, d, done) && Enabled(now, ev) && UpstreamFinish(now, ev, d)
    ensures WaveState(db, Step(now, ev), d, done + {now.runs[ev.run].stack})
  {
    hide Step, Enabled, FinishTimes, StartTimes, RunsOf, Idle, ExactlyOneNew;
    StepKeepsIds(now, ev);
    ApplyFinishKeepsConfig(now, ev);
    UpstreamFinishTimes(db, now, ev, d, done);
    UpstreamFinishRuns(db, now, ev, d, done);
  }

  lemma {:induction false} NotInTableNotInView(db: Db, r: RunId, d: StackId)
    requires r !in db.runs
    ensures r !in RunsOf(db.runs, d)
  {
  }

  lemma {:induction false} BystanderKeepsWave(db: Db, now: Db, ev: Event, d: StackId, done: set<StackId>)
    requires WaveState(db, now, d, done) && Enabled(now, ev) && Bystander(now, ev, d)
    ensures WaveState(db, Step(now, ev), d, done)
  {
    StepKeepsIds(now, ev);
  }

  lemma {:induction false} WaveBegins(db: Db, d: StackId)
    requires WaveStart(db, d)
    ensures WaveState(db, db, d, {})
  {
  }

  /** What one event adds to the set of finished upstreams. */
  ghost function Finishes(db: Db, ev: Event, d: StackId): set<StackId> {
    if UpstreamFinish(db, ev, d) then {db.runs[ev.run].stack} else {}
  }

  lemma {:induction false} EventKeepsWave(db: Db, now: Db, ev: Event, d: StackId, done: set<StackId>)
    requires WaveStart(db, d) && WaveState(db, now, d, done) && Enabled(now, ev)
    requires Bystander(now, ev, d) || UpstreamFinish(now, ev, d)
    ensures WaveState(db, Step(now, ev), d, done + Finishes(now, ev, d))
  {
    if Bystander(now, ev, d) {
      BystanderKeepsWave(db, now, ev, d, done);
      assert done + {} == done;
    } else {
      UpstreamFinishKeepsWave(db, now, ev, d, done);
    }
  }

  lemma {:induction false} WaveKeepsState(db: Db, evs: seq<Event>, d: StackId)
    requires WaveStart(db, d) && IsExecution(db, evs) && IsWave(db, evs, d)
    ensures WaveState(db, After(db, evs), d, FinishedIn(db, evs, d))
    decreases |evs|
  {
    hide Step, WaveState, Bystander, WaveStart;
    if evs == [] {
      WaveBegins(db, d);
    } else {
      var init := evs[..|evs| - 1];
      WaveKeepsState(db, init, d);
      EventKeepsWave(db, After(db, init), evs[|evs| - 1], d, FinishedIn(db, init, d));
    }
  }

  /** For any number of upstreams finishing in any order, each any number of times, among
      bystander steps: until every one of them has finished d's runs are untouched, and
      once all have, d has exactly one new run and no later finish adds another. */
  lemma {:induction false} OneRunPerWave(db: Db, evs: seq<Event>, d: StackId)
    requires WaveStart(db, d) && IsExecution(db, evs) && IsWave(db, evs, d)
    ensures FinishedIn(db, evs, d) <= Upstreams(db, d)
    ensures FinishedIn(db, evs, d) != Upstreams(db, d) ==> RunsOf(After(db, evs).runs, d) == RunsOf(db.runs, d)
    ensures FinishedIn(db, evs, d) == Upstreams(db, d) != {} ==> ExactlyOneNew(db, After(db, evs), d)
  {
    WaveKeepsState(db, evs, d);
  }
}
