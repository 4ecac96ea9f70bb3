/** Why a finished apply cannot set off an endless cascade of triggers and
    retries, with an explicit bound, and the arithmetic of retry delays. */
module Cascade {
  import opened Options
  import opened DependencyGraph
  import opened Predicates
  import opened RunMachine
  import opened RunLifecycle

  const MAX_RETRIES := 10
  const ATTEMPTS := 11  // the first attempt and ten retries

  // ---- descendants and path counts ------------------------------------------------------

  ghost function Descendants(g: Graph, s: StackId): set<StackId> {
    set x | x in Targets(g) && Reaches(g, s, x)
  }

  lemma {:induction false} DescendantsShrink(g: Graph, s: StackId, d: StackId)
    requires Acyclic(g) && (s, d) in g
    ensures Descendants(g, d) < Descendants(g, s)
    ensures d in Descendants(g, s) && d !in Descendants(g, d)
  {
    EdgeReaches(g, s, d);
    assert d in Targets(g) && !Reaches(g, d, d);
    assert d in Descendants(g, s) && d !in Descendants(g, d);
    forall x | x in Descendants(g, d)
      ensures x in Descendants(g, s)
    {
      ReachesTransitive(g, s, d, x);
    }
  }

  /** Number of directed walks that leave s (each ends in some descendant). */
  ghost function Walks(g: Graph, s: StackId): nat
    requires Acyclic(g)
    decreases Descendants(g, s), 1
  {
    WalksVia(g, s, Downstreams(g, s))
  }

  /** Those whose first step goes to a stack in ds. */
  ghost function WalksVia(g: Graph, s: StackId, ds: set<StackId>): nat
    requires Acyclic(g) && ds <= Downstreams(g, s)
    decreases Descendants(g, s), 0, ds
  {
    if ds == {} then 0
    else
      var d :| d in ds;
      DescendantsShrink(g, s, d);
      1 + Walks(g, d) + WalksVia(g, s, ds - {d})
  }

  lemma {:induction false} WalksViaRemove(g: Graph, s: StackId, ds: set<StackId>, d: StackId)
    requires Acyclic(g) && ds <= Downstreams(g, s) && d in ds
    ensures WalksVia(g, s, ds) == 1 + Walks(g, d) + WalksVia(g, s, ds - {d})
    decreases ds
  {
    var first :| first in ds && WalksVia(g, s, ds) == 1 + Walks(g, first) + WalksVia(g, s, ds - {first});
    if first != d {
      WalksViaRemove(g, s, ds - {first}, d);
      WalksViaRemove(g, s, ds - {d}, first);
      assert ds - {first} - {d} == ds - {d} - {first};
    }
  }

  lemma {:induction false} WalksViaMonotone(g: Graph, s: StackId, ds: set<StackId>, es: set<StackId>)
    requires Acyclic(g) && ds <= es <= Downstreams(g, s)
    ensures WalksVia(g, s, ds) <= WalksVia(g, s, es)
    decreases es
  {
    if e :| e in es && e !in ds {
      WalksViaRemove(g, s, es, e);
      WalksViaMonotone(g, s, ds, es - {e});
    } else {
      assert ds == es;
    }
  }

  // ---- walks against the number of descendants -----------------------------------------------

  function Pow2(n: nat): (p: nat)
    ensures p >= 1
  {
    if n == 0 then 1 else 2 * Pow2(n - 1)
  }

  lemma {:induction false} Pow2Monotone(m: nat, n: nat)
    requires m <= n
    ensures Pow2(m) <= Pow2(n)
  {
    if m < n {
      Pow2Monotone(m, n - 1);
    }
  }

  /** A stack of ds that no other stack of ds leads to. */
  lemma {:induction false} PickSource(g: Graph, ds: set<StackId>) returns (d: StackId)
    requires Acyclic(g) && ds != {}
    ensures d in ds && forall e | e in ds :: !Reaches(g, e, d)
    decreases ds
  {
    d :| d in ds;
    if ds != {d} {
      var best := PickSource(g, ds - {d});
      if Reaches(g, d, best) {
        forall e | e in ds && Reaches(g, e, d)
          ensures false
        {
          ReachesTransitive(g, e, d, best);
        }
      } else {
        d := best;
      }
    }
  }

  lemma {:induction false} WalksViaBound(g: Graph, s: StackId, ds: set<StackId>, within: set<StackId>)
    requires Acyclic(g) && ds <= Downstreams(g, s) && ds <= within <= Targets(g)
    requires forall d, x | d in ds && x in Descendants(g, d) :: x in within
    ensures WalksVia(g, s, ds) <= Pow2(|within|) - 1
    decreases Descendants(g, s), 0, ds
  {
    if ds != {} {
      var d := PickSource(g, ds);
      WalksViaRemove(g, s, ds, d);
      DescendantsShrink(g, s, d);
      var smaller := within - {d};
      forall e, x | e in ds - {d} && x in Descendants(g, e)
        ensures x in smaller
      {
        assert x in within;
      }
      WalksViaBound(g, s, ds - {d}, smaller);
      WalksBound(g, d);
      assert Descendants(g, d) <= smaller;
      SubsetSize(Descendants(g, d), smaller);
      Pow2Monotone(|Descendants(g, d)|, |smaller|);
      assert |within| == |smaller| + 1;
    }
  }

  lemma {:induction false} SubsetSize(a: set<StackId>, b: set<StackId>)
    requires a <= b
    ensures |a| <= |b|
    decreases a
  {
    if a != {} {
      var x :| x in a;
      SubsetSize(a - {x}, b - {x});
    }
  }

  /** A stack with n descendants starts at most 2^n - 1 walks. */
  lemma {:induction false} WalksBound(g: Graph, s: StackId)
    requires Acyclic(g)
    ensures Walks(g, s) <= Pow2(|Descendants(g, s)|) - 1
    decreases Descendants(g, s), 1
  {
    forall d | d in Downstreams(g, s)
      ensures d in Descendants(g, s)
      ensures forall x | x in Descendants(g, d) :: x in Descendants(g, s)
    {
      DescendantsShrink(g, s, d);
    }
    WalksViaBound(g, s, Downstreams(g, s), Descendants(g, s));
  }

  // ---- the reserve of a run ------------------------------------------------------------------

  /** How many further runs a live run may still cause: its retries, and every
      attempt of every dependency run along the walks out of its stack. */
  ghost function Reserve(g: Graph, run: Run): nat
    requires Acyclic(g)
  {
    if run.status.Terminal() then 0
    else (if run.dep.Some? && run.attempt < MAX_RETRIES then MAX_RETRIES - run.attempt else 0)
         + ATTEMPTS * Walks(g, run.stack)
  }

  ghost function ReserveAt(g: Graph, runs: map<RunId, Run>, r: RunId): nat
    requires Acyclic(g)
  {
    if r in runs then Reserve(g, runs[r]) else 0
  }

  ghost function TotalReserve(g: Graph, runs: map<RunId, Run>, n: RunId): nat
    requires Acyclic(g)
  {
    if n == 0 then 0 else TotalReserve(g, runs, n - 1) + ReserveAt(g, runs, n - 1)
  }

  /** Runs so far plus runs still possible. */
  ghost function Horizon(db: Db): nat
    requires Acyclic(db.edges.Keys)
  {
    db.nextRun + TotalReserve(db.edges.Keys, db.runs, db.nextRun)
  }

  lemma {:induction false} TotalReserveMonotone(g: Graph, a: map<RunId, Run>, b: map<RunId, Run>, n: RunId)
    requires Acyclic(g) && forall r: RunId | r < n :: ReserveAt(g, b, r) <= ReserveAt(g, a, r)
    ensures TotalReserve(g, b, n) <= TotalReserve(g, a, n)
  {
    if n > 0 {
      TotalReserveMonotone(g, a, b, n - 1);
    }
  }

  /** Dropping one run's reserve to zero frees exactly that much. */
  lemma {:induction false} TotalReserveRelease(g: Graph, a: map<RunId, Run>, b: map<RunId, Run>, r: RunId, n: RunId)
    requires Acyclic(g) && r < n && ReserveAt(g, b, r) == 0
    requires forall q: RunId | q < n && q != r :: ReserveAt(g, b, q) == ReserveAt(g, a, q)
    ensures TotalReserve(g, b, n) + ReserveAt(g, a, r) == TotalReserve(g, a, n)
  {
    if r < n - 1 {
      TotalReserveRelease(g, a, b, r, n - 1);
    } else {
      TotalReserveMonotone(g, a, b, r);
      TotalReserveMonotone(g, b, a, r);
    }
  }

  lemma {:induction false} InsertReserve(db: Db, run: Run)
    requires Acyclic(db.edges.Keys) && IdsBelowNext(db)
    ensures Horizon(Insert(db, run)) == Horizon(db) + 1 + Reserve(db.edges.Keys, run)
  {
    var g, n := db.edges.Keys, db.nextRun;
    var after := Insert(db, run);
    TotalReserveMonotone(g, db.runs, after.runs, n);
    TotalReserveMonotone(g, after.runs, db.runs, n);
    assert TotalReserve(g, after.runs, n + 1) == TotalReserve(g, after.runs, n) + ReserveAt(g, after.runs, n);
  }

  lemma {:induction false} TriggerOneReserve(db: Db, up: StackId, down: StackId, eval: EdgeEval)
    requires Acyclic(db.edges.Keys) && IdsBelowNext(db) && (up, down) in db.edges && down in db.stacks
    ensures Horizon(TriggerOne(db, up, down, eval)) <= Horizon(db) + ATTEMPTS * (1 + Walks(db.edges.Keys, down))
  {
    var run := NewRun(down, db.stacks[down].pool, Tracked, Some((up, down)), 0);
    InsertReserve(db, run);
  }

  lemma {:induction false} ListedAreDownstreams(db: Db, up: StackId, rows: seq<StackId>)
    requires JoinsUp(db, up, rows)
    ensures (set d | d in rows) <= Downstreams(db.edges.Keys, up)
  {
    forall d | d in rows
      ensures d in Downstreams(db.edges.Keys, up)
    {
      assert (up, d) in db.edges.Keys;
    }
  }

  /** All runs inserted by one trigger, with all they may cause, fit into the
      walks that start with the listed rows. */
  lemma {:induction false} TriggerReserve(db: Db, up: StackId, rows: seq<StackId>, eval: EdgeEval, ds: set<StackId>)
    requires Acyclic(db.edges.Keys) && IdsBelowNext(db) && JoinsUp(db, up, rows)
    requires forall i, j | 0 <= i < j < |rows| :: rows[i] != rows[j]
    requires ds == (set d | d in rows) && ds <= Downstreams(db.edges.Keys, up)
    ensures Horizon(TriggerAll(db, up, rows, eval)) <= Horizon(db) + ATTEMPTS * WalksVia(db.edges.Keys, up, ds)
    decreases |rows|
  {
    if rows != [] {
      var init, last := rows[..|rows| - 1], rows[|rows| - 1];
      assert rows == init + [last] && last !in init;
      assert (set d | d in init) == ds - {last};
      TriggerReserve(db, up, init, eval, ds - {last});
      TriggerAllOnlyTriggers(db, up, init, eval);
      TriggerOneReserve(TriggerAll(db, up, init, eval), up, last, eval);
      WalksViaRemove(db.edges.Keys, up, ds, last);
    }
  }

  // ---- one step ----------------------------------------------------------------------------------

  /** The bound SetRetry and the column's CHECK enforce. */
  ghost predicate RetriesCapped(db: Db) {
    && (forall e | e in db.edges :: db.edges[e].retryCount <= MAX_RETRIES && 1 <= db.edges[e].backoff <= 3600)
    && (forall r | r in db.runs :: db.runs[r].attempt <= MAX_RETRIES)
  }

  lemma {:induction false} FailReserve(db: Db, r: RunId)
    requires Acyclic(db.edges.Keys) && IdsBelowNext(db) && RetriesCapped(db)
    requires r in db.runs && !db.runs[r].status.Terminal()
    ensures Horizon(FailRun(db, r)) <= Horizon(db)
  {
    var g, run := db.edges.Keys, db.runs[r];
    var failed := SetRun(db, r, run.(status := Failed, finishedAt := Some(db.clock)));
    TotalReserveRelease(g, db.runs, failed.runs, r, db.nextRun);
    if Retries(failed, run) {
      var retry := NewRun(run.stack, db.stacks[run.stack].pool, Tracked, run.dep, run.attempt + 1);
      InsertReserve(failed, retry);
      assert 1 + Reserve(g, retry) == Reserve(g, run);
    }
  }

  lemma {:induction false} ApplyFinishReserve(db: Db, ev: Event)
    requires Acyclic(db.edges.Keys) && IdsBelowNext(db) && IsApplyFinish(db, ev) && Enabled(db, ev)
    ensures Step(db, ev).edges == db.edges && Horizon(Step(db, ev)) <= Horizon(db)
  {
    hide Acyclic, TriggerAll, WalksVia;
    var g, run := db.edges.Keys, db.runs[ev.run];
    var marked := MarkFinished(db, ev.run);
    TotalReserveRelease(g, db.runs, marked.runs, ev.run, db.nextRun);
    var ds := set d | d in ev.rows;
    ListedAreDownstreams(marked, run.stack, ev.rows);
    TriggerReserve(marked, run.stack, ev.rows, ev.eval, ds);
    WalksViaMonotone(g, run.stack, ds, Downstreams(g, run.stack));
  }

  /** A step that only rewrites rows, never reviving one, never raises the horizon. */
  lemma {:induction false} QuietReserve(db: Db, db': Db)
    requires Acyclic(db.edges.Keys) && db'.edges.Keys == db.edges.Keys && db'.nextRun == db.nextRun
    requires forall r | r in db'.runs ::
               && r in db.runs && db'.runs[r].stack == db.runs[r].stack
               && db'.runs[r].attempt == db.runs[r].attempt && db'.runs[r].dep == db.runs[r].dep
               && (db.runs[r].status.Terminal() ==> db'.runs[r].status.Terminal())
    ensures Horizon(db') <= Horizon(db)
  {
    TotalReserveMonotone(db.edges.Keys, db.runs, db'.runs, db.nextRun);
  }

  predicate EditsGraph(ev: Event) {
    ev.AddDownstream? || ev.RemoveDownstream?
  }

  lemma {:induction false} RunEventIsQuiet(db: Db, ev: Event, r: RunId)
    requires IsRunEvent(ev)
    ensures
      var db' := HandleRun(db, ev);
      && db'.edges == db.edges && db'.nextRun == db.nextRun
      && (r in db'.runs ==>
            && r in db.runs && db'.runs[r].stack == db.runs[r].stack && db'.runs[r].attempt == db.runs[r].attempt
            && db'.runs[r].dep == db.runs[r].dep
            && (db.runs[r].status.Terminal() ==> db'.runs[r].status.Terminal()))
  {
  }

  lemma {:induction false} RunEventReserve(db: Db, ev: Event)
    requires Acyclic(db.edges.Keys)
    requires IsRunEvent(ev)
    ensures HandleRun(db, ev).edges == db.edges && Horizon(HandleRun(db, ev)) <= Horizon(db)
  {
    hide HandleRun, Horizon, Acyclic;
    forall r: RunId
      ensures r in HandleRun(db, ev).runs ==>
        && r in db.runs && HandleRun(db, ev).runs[r].stack == db.runs[r].stack
        && HandleRun(db, ev).runs[r].attempt == db.runs[r].attempt && HandleRun(db, ev).runs[r].dep == db.runs[r].dep
        && (db.runs[r].status.Terminal() ==> HandleRun(db, ev).runs[r].status.Terminal())
    {
      RunEventIsQuiet(db, ev, r);
    }
    RunEventIsQuiet(db, ev, 0);
    QuietReserve(db, HandleRun(db, ev));
  }

  /** A finish that is not of an apply phase: a failure, a plan outcome, or a proposed run. */
  lemma {:induction false} OtherFinishReserve(db: Db, ev: Event)
    requires Acyclic(db.edges.Keys) && IdsBelowNext(db) && RetriesCapped(db)
    requires ev.Finish? && Enabled(db, ev) && !IsApplyFinish(db, ev)
    ensures HandleFinish(db, ev).edges == db.edges && Horizon(HandleFinish(db, ev)) <= Horizon(db)
  {
    hide Horizon, Acyclic;
    if Accepts(db, ev.pool, ev.run) {
      FailReserve(db, ev.run);
      if HandleFinish(db, ev) != FailRun(db, ev.run) {
        QuietReserve(db, HandleFinish(db, ev));
      }
    }
  }

  lemma {:induction false} StepReserve(db: Db, ev: Event)
    requires Acyclic(db.edges.Keys) && IdsBelowNext(db) && RetriesCapped(db) && Enabled(db, ev)
    requires !EditsGraph(ev) && !ev.Create?
    ensures Step(db, ev).edges.Keys == db.edges.Keys
    ensures Horizon(Step(db, ev)) <= Horizon(db)
  {
    hide HandleRun, HandleFinish, Acyclic;
    if IsApplyFinish(db, ev) {
      ApplyFinishReserve(db, ev);
    } else if ev.Finish? {
      OtherFinishReserve(db, ev);
    } else if ev.Claim? || ev.SetRetry? || ev.SetPredicate? || ev.EditStack? {
      QuietReserve(db, Step(db, ev));
    } else {
      RunEventReserve(db, ev);
    }
  }

  lemma {:induction false} FinishKeepsRetriesCapped(db: Db, ev: Event)
    requires IdsBelowNext(db) && RetriesCapped(db) && Enabled(db, ev) && ev.Finish?
    ensures RetriesCapped(Step(db, ev))
  {
    if IsApplyFinish(db, ev) {
      TriggerAllOnlyTriggers(MarkFinished(db, ev.run), db.runs[ev.run].stack, ev.rows, ev.eval);
    }
  }

  lemma {:induction false} ConfigKeepsRetriesCapped(db: Db, ev: Event)
    requires RetriesCapped(db)
    requires IsConfigEvent(ev)
    ensures RetriesCapped(HandleConfig(db, ev))
  {
  }

  lemma {:induction false} RunEventKeepsRetriesCapped(db: Db, ev: Event)
    requires RetriesCapped(db)
    requires IsRunEvent(ev)
    ensures RetriesCapped(HandleRun(db, ev))
  {
  }

  /** Every run's attempt number stays at most ten, whatever the settings become. */
  lemma {:induction false} StepKeepsRetriesCapped(db: Db, ev: Event)
    requires IdsBelowNext(db) && RetriesCapped(db) && Enabled(db, ev)
    ensures RetriesCapped(Step(db, ev))
  {
    if ev.Finish? {
      FinishKeepsRetriesCapped(db, ev);
    } else if IsConfigEvent(ev) {
      ConfigKeepsRetriesCapped(db, ev);
    } else if !ev.Create? && !ev.Claim? {
      RunEventKeepsRetriesCapped(db, ev);
    }
  }

  // ---- whole executions ------------------------------------------------------------------------------

  /** What the manually created runs of an execution may add. */
  ghost function Allowance(g: Graph, evs: seq<Event>): nat
    requires Acyclic(g)
  {
    if evs == [] then 0
    else
      var ev := evs[|evs| - 1];
      Allowance(g, evs[..|evs| - 1]) + (if ev.Create? then 1 + ATTEMPTS * Walks(g, ev.stack) else 0)
  }

  /** On a fixed dependency graph every execution, however long, with retry
      settings, predicates and stacks edited at will, inserts at most as many runs as
      the live runs at its start hold in reserve and its manual creates add. */
  lemma {:induction false} CascadeIsFinite(db: Db, evs: seq<Event>)
    requires Acyclic(db.edges.Keys) && IdsBelowNext(db) && RetriesCapped(db) && IsExecution(db, evs)
    requires forall i | 0 <= i < |evs| :: !EditsGraph(evs[i])
    ensures After(db, evs).edges.Keys == db.edges.Keys
    ensures IdsBelowNext(After(db, evs)) && RetriesCapped(After(db, evs))
    ensures Horizon(After(db, evs)) <= Horizon(db) + Allowance(db.edges.Keys, evs)
    ensures After(db, evs).nextRun - db.nextRun <=
      TotalReserve(db.edges.Keys, db.runs, db.nextRun) + Allowance(db.edges.Keys, evs)
    decreases |evs|
  {
    hide Step, Enabled, Acyclic, Walks;
    if evs != [] {
      var init, ev := evs[..|evs| - 1], evs[|evs| - 1];
      CascadeIsFinite(db, init);
      var was := After(db, init);
      StepKeepsIds(was, ev);
      StepKeepsRetriesCapped(was, ev);
      if ev.Create? {
        CreateReserve(was, ev);
      } else {
        StepReserve(was, ev);
      }
    }
  }

  lemma {:induction false} CreateReserve(db: Db, ev: Event)
    requires Acyclic(db.edges.Keys) && IdsBelowNext(db) && ev.Create?
    ensures Step(db, ev).edges.Keys == db.edges.Keys
    ensures Horizon(Step(db, ev)) <= Horizon(db) + 1 + ATTEMPTS * Walks(db.edges.Keys, ev.stack)
  {
    if Handle(db, ev) != db {
      InsertReserve(db, NewRun(ev.stack, db.stacks[ev.stack].pool, ev.kind, None, 0));
    }
  }

  lemma {:induction false} ReachableRetriesCapped(db: Db, evs: seq<Event>)
    requires Initial(db) && IsExecution(db, evs)
    ensures RetriesCapped(After(db, evs))
    decreases |evs|
  {
    hide Step, Enabled;
    if evs != [] {
      var init := evs[..|evs| - 1];
      ReachableRetriesCapped(db, init);
      ExecutionsAreConsistent(db, init);
      StepKeepsRetriesCapped(After(db, init), evs[|evs| - 1]);
    }
  }

  lemma {:induction false} OneLiveRunReserve(g: Graph, runs: map<RunId, Run>, r: RunId, n: RunId)
    requires Acyclic(g)
    requires forall q | q in runs && q != r :: runs[q].status.Terminal()
    ensures TotalReserve(g, runs, n) <= ReserveAt(g, runs, r)
    ensures r >= n ==> TotalReserve(g, runs, n) == 0
  {
    if n > 0 {
      OneLiveRunReserve(g, runs, r, n - 1);
    }
  }

  /** From any reachable state with a single live run on a stack with n descendants,
      every continuation without new manual runs or graph edits inserts at most
      10 + 11 * (2^n - 1) runs. */
  lemma {:induction false} OneRunCascadeBound(db0: Db, past: seq<Event>, r: RunId, evs: seq<Event>)
    requires Initial(db0) && IsExecution(db0, past)
    requires var db := After(db0, past);
      && r in db.runs && (forall q | q in db.runs && q != r :: db.runs[q].status.Terminal())
      && IsExecution(db, evs) && forall i | 0 <= i < |evs| :: !EditsGraph(evs[i]) && !evs[i].Create?
    ensures var db := After(db0, past);
      After(db, evs).nextRun - db.nextRun <=
        MAX_RETRIES + ATTEMPTS * (Pow2(|Descendants(db.edges.Keys, db.runs[r].stack)|) - 1)
  {
    var db := After(db0, past);
    var g := db.edges.Keys;
    GraphStaysAcyclic(db0, past);
    ExecutionsAreConsistent(db0, past);
    ReachableRetriesCapped(db0, past);
    CascadeIsFinite(db, evs);
    NoCreateNoAllowance(g, evs);
    OneLiveRunReserve(g, db.runs, r, db.nextRun);
    WalksBound(g, db.runs[r].stack);
  }

  lemma {:induction false} NoCreateNoAllowance(g: Graph, evs: seq<Event>)
    requires Acyclic(g) && forall i | 0 <= i < |evs| :: !evs[i].Create?
    ensures Allowance(g, evs) == 0
  {
    if evs != [] {
      NoCreateNoAllowance(g, evs[..|evs| - 1]);
    }
  }

  // ---- the potential falls at every finalisation ----------------------------------------------------

  predicate Live(runs: map<RunId, Run>, r: RunId) {
    r in runs && !runs[r].status.Terminal()
  }

  function LiveCount(runs: map<RunId, Run>, n: RunId): nat {
    if n == 0 then 0 else LiveCount(runs, n - 1) + (if Live(runs, n - 1) then 1 else 0)
  }

  /** Live runs, each with itself and everything it may still cause. */
  ghost function Potential(db: Db): nat
    requires Acyclic(db.edges.Keys)
  {
    TotalReserve(db.edges.Keys, db.runs, db.nextRun) + LiveCount(db.runs, db.nextRun)
  }

  lemma {:induction false} LiveCountDrops(a: map<RunId, Run>, b: map<RunId, Run>, r: RunId, n: RunId)
    requires forall q: RunId | q < n && Live(b, q) :: Live(a, q)
    ensures LiveCount(b, n) <= LiveCount(a, n)
    ensures r < n && Live(a, r) && !Live(b, r) ==> LiveCount(b, n) < LiveCount(a, n)
  {
    if n > 0 {
      LiveCountDrops(a, b, r, n - 1);
    }
  }

  lemma {:induction false} LiveCountGrows(runs: map<RunId, Run>, m: RunId, n: RunId)
    requires m <= n
    ensures LiveCount(runs, n) <= LiveCount(runs, m) + n - m
  {
    if m < n {
      LiveCountGrows(runs, m, n - 1);
    }
  }

  lemma {:induction false} FinalisationSpendsPotential(db: Db, ev: Event, r: RunId)
    requires Acyclic(db.edges.Keys) && IdsBelowNext(db) && RetriesCapped(db) && Enabled(db, ev)
    requires !EditsGraph(ev) && !ev.Create?
    requires Live(db.runs, r) && !Live(Step(db, ev).runs, r)
    ensures Step(db, ev).edges.Keys == db.edges.Keys && Potential(Step(db, ev)) < Potential(db)
  {
    hide Step, Enabled, Acyclic;
    var next := Step(db, ev);
    StepReserve(db, ev);
    StepKeepsIds(db, ev);
    forall q: RunId | q < db.nextRun && Live(next.runs, q)
      ensures Live(db.runs, q)
    {
      if !Live(db.runs, q) {
        StepKeepsClosedStatuses(db, ev, q);
      }
    }
    LiveCountDrops(db.runs, next.runs, r, db.nextRun);
    LiveCountGrows(next.runs, db.nextRun, next.nextRun);
  }

  // ---- retry arithmetic ---------------------------------------------------------------------------------

  const NANOSECONDS := 1_000_000_000

  /** `time.Duration(backoff) * time.Second * (1 << exp)` with exp capped at ten, in nanoseconds. */
  function RetryDelay(backoff: nat, attempt: nat): nat {
    var exp := if attempt > 10 then 10 else attempt;
    backoff * NANOSECONDS * Pow2(exp)
  }

  lemma {:induction false} Pow2Nine()
    ensures Pow2(9) == 512
  {
    assert Pow2(4) == 16;
    assert Pow2(8) == 256;
  }

  lemma {:induction false} OnlyFinishRetries(db: Db, ev: Event, r: RunId)
    requires Enabled(db, ev) && !ev.Finish? && r !in db.runs && r in Step(db, ev).runs
    ensures Step(db, ev).runs[r].attempt == 0
  {
  }

  /** Whenever a step schedules a retry: it repeats a failed run over the same
      edge, within that edge's current retry count; the exponent cap does not
      bind, and the delay fits an int64 of nanoseconds. */
  lemma {:induction false} RetryIsWithinSettings(db: Db, ev: Event, r: RunId)
    requires IdsBelowNext(db) && RetriesCapped(db) && Enabled(db, ev)
    requires r !in db.runs && r in Step(db, ev).runs && Step(db, ev).runs[r].attempt > 0
    ensures ev.Finish? && ev.run in db.runs && ev.run in Step(db, ev).runs
    ensures
      var failed, retry := db.runs[ev.run], Step(db, ev).runs[r];
      && Step(db, ev).runs[ev.run].status == Failed && failed.stack in db.stacks
      && failed.dep.Some? && failed.dep.value in db.edges
      && retry == NewRun(failed.stack, db.stacks[failed.stack].pool, Tracked, failed.dep, failed.attempt + 1)
      && retry.attempt <= db.edges[failed.dep.value].retryCount <= MAX_RETRIES
      && var backoff := db.edges[failed.dep.value].backoff;
      && RetryDelay(backoff, failed.attempt) == backoff * NANOSECONDS * Pow2(failed.attempt)
      && RetryDelay(backoff, failed.attempt) <= 512 * 3600 * NANOSECONDS <= MAX_INT64
  {
    hide HandleRun, HandleConfig, TriggerAll;
    if IsApplyFinish(db, ev) {
      TriggerAllOnlyTriggers(MarkFinished(db, ev.run), db.runs[ev.run].stack, ev.rows, ev.eval);
    } else if !ev.Finish? {
      OnlyFinishRetries(db, ev, r);
    }
    var failed := db.runs[ev.run];
    DelayBound(db.edges[failed.dep.value].backoff, failed.attempt);
  }

  lemma {:induction false} DelayBound(backoff: nat, attempt: nat)
    requires backoff <= 3600 && attempt < 10
    ensures backoff * NANOSECONDS * Pow2(attempt) <= 512 * 3600 * NANOSECONDS
  {
    Pow2Nine();
    Pow2Monotone(attempt, 9);
    var b, p := backoff * NANOSECONDS, Pow2(attempt);
    assert b * p <= (3600 * NANOSECONDS) * p;
  }

  lemma {:induction false} Doubling(b: nat, p: nat)
    ensures b * (p - 1) + b * p == b * (2 * p - 1)
  {
  }

  lemma {:induction false} DelayIsDoubling(backoff: nat, attempt: nat)
    requires attempt <= 10
    ensures RetryDelay(backoff, attempt) == (backoff * NANOSECONDS) * Pow2(attempt)
  {
  }
}
