/** Which stacks a finished apply triggers, row by row and condition by condition, on
    every execution. */
module Triggers {
  import opened Options
  import opened DependencyGraph
  import opened Predicates
  import opened RunMachine
  import opened RunLifecycle
  import opened FanIn
  import opened FanInWave

  // ---- the conditions on a downstream, read off the tables ----------------------------

  /** Nothing of the stack is on its way: every run is over or waits, confirmed, for its apply. */
  ghost predicate NothingUnderWay(runs: map<RunId, Run>, d: StackId) {
    forall q | q in runs && runs[q].stack == d :: runs[q].status in {Confirmed, Finished, Failed, Canceled, Discarded}
  }

  /** v has no finished tracked or destroy run, or one that finished after every start of d. */
  ghost predicate Incorporable(runs: map<RunId, Run>, v: StackId, d: StackId) {
    || (forall a | a in runs && runs[a].stack == v && runs[a].status == Finished && runs[a].kind in {Tracked, Destroy} ::
          runs[a].finishedAt.None?)
    || (exists a :: a in runs && runs[a].stack == v && runs[a].status == Finished && runs[a].kind in {Tracked, Destroy}
          && runs[a].finishedAt.Some?
          && forall q | q in runs && runs[q].stack == d && runs[q].startedAt.Some? ::
               runs[q].startedAt.value < runs[a].finishedAt.value)
  }

  /** Everything the trigger query asks of a downstream d of stack up, predicate aside. */
  ghost predicate MayBeTriggered(db: Db, up: StackId, d: StackId) {
    && (up, d) in db.edges && up in db.stacks && d in db.stacks
    && !db.stacks[d].disabled && !db.stacks[d].locked && db.stacks[d].org == db.stacks[up].org
    && NothingUnderWay(db.runs, d)
    && forall v: StackId | (v, d) in db.edges && v != up :: Incorporable(db.runs, v, d)
  }

  lemma {:induction false} ReadyIsIncorporable(runs: map<RunId, Run>, v: StackId, d: StackId)
    ensures Ready(runs, v, d) <==> Incorporable(runs, v, d)
  {
    hide Ready;
    ReadyByRows(runs, v, d);
    forall a | a in runs
      ensures CountsAsFinish(runs[a], v) <==>
        && runs[a].stack == v && runs[a].status == Finished && runs[a].kind in {Tracked, Destroy}
        && runs[a].finishedAt.Some?
    {
    }
  }

  lemma {:induction false} IdleIsNothingUnderWay(runs: map<RunId, Run>, d: StackId)
    ensures Idle(runs, d) <==> NothingUnderWay(runs, d)
  {
  }

  /** The finishing run itself does not matter to another stack's conditions. */
  lemma {:induction false} EligibleIsMayBeTriggered(db: Db, r: RunId, d: StackId)
    requires r in db.runs && db.runs[r].stack != d
    ensures Eligible(MarkFinished(db, r), db.runs[r].stack, d) <==> MayBeTriggered(db, db.runs[r].stack, d)
  {
    hide Ready, Incorporable, Idle, NothingUnderWay;
    var up, marked := db.runs[r].stack, MarkFinished(db, r);
    MarkFinishedViews(db, r, d);
    SameRunsSameTimes(marked.runs, db.runs, d);
    IdleIsNothingUnderWay(db.runs, d);
    forall v: StackId | v != up
      ensures Ready(marked.runs, v, d) <==> Incorporable(db.runs, v, d)
    {
      OthersUnmarked(db, r, v, d);
      SameTimesSameReady(marked.runs, db.runs, v, d);
      ReadyIsIncorporable(db.runs, v, d);
    }
    assert forall e | e in db.edges :: e == (e.0, e.1);
  }

  lemma {:induction false} SameTimesSameReady(a: map<RunId, Run>, b: map<RunId, Run>, v: StackId, d: StackId)
    requires FinishTimes(a, v) == FinishTimes(b, v) && StartTimes(a, d) == StartTimes(b, d)
    ensures Ready(a, v, d) <==> Ready(b, v, d)
  {
  }

  // ---- which rows gain a run ---------------------------------------------------------------

  /** d gains exactly one run, queued for its pool and linked to its edge. */
  ghost predicate GainsQueuedRun(db: Db, db': Db, up: StackId, d: StackId)
    requires d in db.stacks
  {
    exists n: RunId :: n !in db.runs && RunsOf(db'.runs, d) ==
      RunsOf(db.runs, d)[n := Run(d, db.stacks[d].pool, Tracked, Queued, None, None, None, Some((up, d)), 0)]
  }

  /** The edge lets the upstream's run through: its columns could not be loaded, or they match the predicate. */
  ghost predicate Passes(eval: EdgeEval, p: Predicate) {
    match eval
    case LoadFailed => true
    case Loaded(fields, parse) => Matches(p, fields, parse)
  }

  lemma {:induction false} SkippedRowGainsNothing(db: Db, up: StackId, rows: seq<StackId>, eval: EdgeEval, d: StackId)
    requires IdsBelowNext(db) && JoinsUp(db, up, rows)
    requires d in rows ==> !Passes(eval, db.edges[(up, d)].when)
    ensures RunsOf(TriggerAll(db, up, rows, eval).runs, d) == RunsOf(db.runs, d)
    decreases |rows|
  {
    if rows != [] {
      var init, last := rows[..|rows| - 1], rows[|rows| - 1];
      assert last in rows;
      SkippedRowGainsNothing(db, up, init, eval, d);
      TriggerAllOnlyTriggers(db, up, init, eval);
      var mid := TriggerAll(db, up, init, eval);
      if last != d {
        InsertElsewhere(mid, up, last, eval, d);
      }
    }
  }

  lemma {:induction false} InsertElsewhere(db: Db, up: StackId, down: StackId, eval: EdgeEval, d: StackId)
    requires IdsBelowNext(db) && (up, down) in db.edges && down in db.stacks && down != d
    ensures RunsOf(TriggerOne(db, up, down, eval).runs, d) == RunsOf(db.runs, d)
  {
  }

  /** For any rows of the query: a row whose edge passes gains one run, every other stack none. */
  lemma {:induction false} RowGainsIff(db: Db, up: StackId, rows: seq<StackId>, eval: EdgeEval, d: StackId)
    requires IdsBelowNext(db) && JoinsUp(db, up, rows)
    requires forall i, j | 0 <= i < j < |rows| :: rows[i] != rows[j]
    ensures
      var db' := TriggerAll(db, up, rows, eval);
      if d in rows && Passes(eval, db.edges[(up, d)].when) then GainsQueuedRun(db, db', up, d)
      else RunsOf(db'.runs, d) == RunsOf(db.runs, d)
  {
    if d in rows && Passes(eval, db.edges[(up, d)].when) {
      TriggerAllRunsOf(db, up, rows, eval, d);
    } else {
      SkippedRowGainsNothing(db, up, rows, eval, d);
    }
  }

  // ---- one step ------------------------------------------------------------------------------

  /** A finished apply: every other stack gains one run if the query's conditions hold of it and its
      edge passes, and none otherwise. */
  lemma {:induction false} ApplyFinishTriggersIff(db: Db, ev: Event, d: StackId)
    requires IdsBelowNext(db) && Enabled(db, ev) && IsApplyFinish(db, ev) && db.runs[ev.run].stack != d
    ensures
      var up, db' := db.runs[ev.run].stack, Step(db, ev);
      if MayBeTriggered(db, up, d) && Passes(ev.eval, db.edges[(up, d)].when) then GainsQueuedRun(db, db', up, d)
      else RunsOf(db'.runs, d) == RunsOf(db.runs, d)
  {
    hide MayBeTriggered, Eligible, TriggerAll, Passes;
    var up, marked := db.runs[ev.run].stack, MarkFinished(db, ev.run);
    EligibleIsMayBeTriggered(db, ev.run, d);
    assert d in ev.rows <==> Eligible(marked, up, d);
    assert JoinsUp(marked, up, ev.rows) by { ListedRowsJoin(marked, up, ev.rows); }
    RowGainsIff(marked, up, ev.rows, ev.eval, d);
    MarkFinishedViews(db, ev.run, d);
    MayBeTriggeredHasRows(db, up, d);
  }

  lemma {:induction false} MayBeTriggeredHasRows(db: Db, up: StackId, d: StackId)
    ensures MayBeTriggered(db, up, d) ==> (up, d) in db.edges && d in db.stacks
  {
  }

  // ---- every execution ----------------------------------------------------------------------

  const UNCONDITIONAL := Predicate("", "", "")

  /** strconv.ParseFloat is one function: all steps parse numbers alike. */
  ghost predicate ParsesBy(evs: seq<Event>, parse: FloatParser) {
    forall ev | ev in evs ::
      && (ev.SetPredicate? ==> ev.parse == parse)
      && (ev.Finish? && ev.eval.Loaded? ==> ev.eval.parse == parse)
  }

  /** No edge stores half a predicate, or one that Validate would reject. */
  ghost predicate PredicatesValid(db: Db, parse: FloatParser) {
    forall e | e in db.edges ::
      db.edges[e].when == UNCONDITIONAL || (db.edges[e].when.IsSet() && Validate(db.edges[e].when, parse))
  }

  lemma {:induction false} StepKeepsPredicates(db: Db, ev: Event, parse: FloatParser)
    requires Enabled(db, ev) && PredicatesValid(db, parse) && (ev.SetPredicate? ==> ev.parse == parse)
    ensures PredicatesValid(Step(db, ev), parse)
  {
    hide HandleRun, HandleFinish, Validate, Reaches;
    if ev.Finish? {
      FinishKeepsEdges(db, ev);
    } else if IsRunEvent(ev) {
      RunEventKeepsEdges(db, ev);
    }
  }

  lemma {:induction false} StoredPredicatesAreValid(db: Db, evs: seq<Event>, parse: FloatParser)
    requires Initial(db) && IsExecution(db, evs) && ParsesBy(evs, parse)
    ensures PredicatesValid(After(db, evs), parse)
    decreases |evs|
  {
    hide Step, Enabled;
    if evs != [] {
      var init, ev := evs[..|evs| - 1], evs[|evs| - 1];
      assert ev in evs && forall e | e in init :: e in evs;
      StoredPredicatesAreValid(db, init, parse);
      StepKeepsPredicates(After(db, init), ev, parse);
    }
  }

  /** What an edge asks of the upstream's run, by meaning: nothing, or the one comparison of its
      predicate; a failed load asks nothing either. */
  ghost predicate LetsThrough(eval: EdgeEval, p: Predicate) {
    || eval.LoadFailed? || p == UNCONDITIONAL
    || (p.IsSet() && Validate(p, eval.parse) && Holds(p, eval.fields, eval.parse))
  }

  lemma {:induction false} PassesIsLetsThrough(eval: EdgeEval, p: Predicate)
    requires p == UNCONDITIONAL || (p.IsSet() && (eval.Loaded? ==> Validate(p, eval.parse)))
    ensures Passes(eval, p) <==> LetsThrough(eval, p)
  {
    if p.IsSet() && eval.Loaded? {
      ValidatedPredicateIsCompared(p, eval.fields, eval.parse);
    }
  }

  /** On every execution, for every finished apply (event n) and every other stack d: d gains exactly
      one run, queued for its pool, if it is an enabled, unlocked downstream of the same org with
      nothing under way, every other upstream of it can be incorporated, and the edge's predicate
      holds of the upstream's run, if it has one and the run's columns could be loaded. In every
      other case its runs stay as they were. */
  lemma {:induction false} TriggersExactly(db: Db, evs: seq<Event>, n: nat, parse: FloatParser, up: StackId, d: StackId)
    requires Initial(db) && IsExecution(db, evs) && ParsesBy(evs, parse)
    requires ApplyFinishAt(db, evs, n, up) && d != up
    ensures IsExecution(db, evs[..n + 1])
    ensures
      var was, now := After(db, evs[..n]), After(db, evs[..n + 1]);
      if MayBeTriggered(was, up, d) && LetsThrough(evs[n].eval, was.edges[(up, d)].when)
      then GainsQueuedRun(was, now, up, d)
      else RunsOf(now.runs, d) == RunsOf(was.runs, d)
  {
    hide Step, Enabled, MayBeTriggered, Passes, LetsThrough, Validate;
    assert evs[..n + 1][..n] == evs[..n];
    PrefixIsExecution(db, evs, n + 1);
    var was := After(db, evs[..n]);
    ExecutionsAreConsistent(db, evs[..n]);
    ApplyFinishTriggersIff(was, evs[n], d);
    StoredPredicatesAreValid(db, evs[..n], parse);
    MayBeTriggeredHasRows(was, up, d);
    if (up, d) in was.edges {
      assert evs[n] in evs;
      PassesIsLetsThrough(evs[n].eval, was.edges[(up, d)].when);
    }
  }

  /** No dependency run is inserted over an edge whose predicate does not hold of the loaded columns. */
  lemma {:induction false} NoTriggerOverUnmetPredicate(db: Db, evs: seq<Event>, n: nat, parse: FloatParser,
                                                       r: RunId, up: StackId, down: StackId)
    requires Initial(db) && IsExecution(db, evs) && ParsesBy(evs, parse) && TriggeredAt(db, evs, n, r, up, down)
    requires evs[n].Finish? && evs[n].eval.Loaded?
    ensures (up, down) in After(db, evs[..n]).edges
    ensures
      var p := After(db, evs[..n]).edges[(up, down)].when;
      p == UNCONDITIONAL || (p.IsSet() && Validate(p, parse) && Holds(p, evs[n].eval.fields, parse))
  {
    hide Step, Enabled, MayBeTriggered, Validate;
    TriggeredNow(db, evs, n, r, up, down);
    TriggersExactly(db, evs, n, parse, up, down);
    var was, now := After(db, evs[..n]), After(db, evs[..n + 1]);
    EligibleIsMayBeTriggered(was, evs[n].run, down);
    MayBeTriggeredHasRows(was, up, down);
    TriggeredRowIsNew(db, evs, n, r, up, down);
    assert evs[n] in evs;
  }

  lemma {:induction false} TriggeredRowIsNew(db: Db, evs: seq<Event>, n: nat, r: RunId, up: StackId, down: StackId)
    requires Initial(db) && IsExecution(db, evs) && TriggeredAt(db, evs, n, r, up, down)
    ensures r in RunsOf(After(db, evs[..n + 1]).runs, down) && r !in RunsOf(After(db, evs[..n]).runs, down)
  {
    hide Step, Enabled;
    assert evs[..n + 1][..n] == evs[..n];
    ExecutionsAreConsistent(db, evs[..n]);
    TriggerNeedsEligible(After(db, evs[..n]), evs[n], r, up, down);
  }
}
