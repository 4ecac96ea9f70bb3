/** Executions from a fresh installation that reach the corners the theorems speak of. */
module Witnesses {
  import opened Options
  import opened DependencyGraph
  import opened RunMachine
  import opened RunLifecycle
  import opened FanIn
  import opened RetryChains
  import opened Cascade
  import opened Predicates
  import opened FanInWave
  import opened Triggers
  import PostPlanGate

  // ---- traces ------------------------------------------------------------------------------

  /** An execution with all its states. */
  datatype Trace = Trace(states: seq<Db>, events: seq<Event>) {
    ghost predicate Valid() {
      && |states| == |events| + 1
      && forall i | 0 <= i < |events| :: Enabled(states[i], events[i]) && states[i + 1] == Step(states[i], events[i])
    }

    ghost function Last(): Db
      requires Valid()
    {
      states[|events|]
    }

    ghost function Then(ev: Event): (t: Trace)
      requires Valid() && Enabled(Last(), ev)
      ensures t.Valid() && t.Extends(this) && t.events == events + [ev]
      ensures t.states[|events|] == Last() && t.Last() == Step(Last(), ev)
    {
      hide Step, Enabled;
      Trace(states + [Step(Last(), ev)], events + [ev])
    }

    ghost predicate Extends(t: Trace) {
      t.states <= states && t.events <= events
    }
  }

  lemma {:induction false} TraceIsExecution(t: Trace, k: nat)
    requires t.Valid() && k <= |t.events|
    ensures IsExecution(t.states[0], t.events[..k]) && After(t.states[0], t.events[..k]) == t.states[k]
  {
    hide Step, Enabled;
    if k > 0 {
      TraceIsExecution(t, k - 1);
      assert t.events[..k][..k - 1] == t.events[..k - 1];
    }
  }

  lemma {:induction false} PrefixesAreExecutions(t: Trace)
    requires t.Valid()
    ensures forall k | 0 <= k <= |t.events| ::
      IsExecution(t.states[0], t.events[..k]) && After(t.states[0], t.events[..k]) == t.states[k]
    ensures IsExecution(t.states[0], t.events) && After(t.states[0], t.events) == t.Last()
  {
    hide Step, Enabled;
    forall k | 0 <= k <= |t.events|
      ensures IsExecution(t.states[0], t.events[..k]) && After(t.states[0], t.events[..k]) == t.states[k]
    {
      TraceIsExecution(t, k);
    }
    assert t.events[..|t.events|] == t.events;
  }

  // ---- single steps ---------------------------------------------------------------------------

  const CLEAR := PostPlanGate.Verdict(false, false, false)

  lemma {:induction false} ClaimTakes(db: Db, pool: PoolId, r: RunId)
    requires IsOldestClaimable(db.runs, pool, r)
    ensures Step(db, Claim(pool)) == SetRun(db, r, Started(db.runs[r], db.clock)).(clock := db.clock + 1)
  {
  }

  function Tick(db: Db): Db {
    db.(clock := db.clock + 1)
  }

  ghost predicate NothingClaimable(db: Db, pool: PoolId) {
    forall r | r in db.runs :: !Claimable(db.runs[r], pool)
  }

  /** Create a tracked run of s and claim it. */
  lemma {:induction false} CreateAndClaim(t: Trace, s: StackId, pool: PoolId) returns (u: Trace)
    requires t.Valid() && IdsBelowNext(t.Last()) && NothingClaimable(t.Last(), pool)
    requires s in t.Last().stacks && !t.Last().stacks[s].locked && t.Last().stacks[s].pool == Some(pool)
    ensures u.Valid() && u.Extends(t) && u.events == t.events + [Create(s, Tracked), Claim(pool)]
    ensures
      var db := t.Last();
      u.Last() == db.(runs := db.runs[db.nextRun := Run(s, Some(pool), Tracked, Preparing, None, Some(db.clock + 1), None, None, 0)],
                      nextRun := db.nextRun + 1, clock := db.clock + 2)
  {
    var db := t.Last();
    var t1 := t.Then(Create(s, Tracked));
    assert t1.Last() == Tick(Insert(db, NewRun(s, Some(pool), Tracked, None, 0)));
    ClaimTakes(t1.Last(), pool, db.nextRun);
    u := t1.Then(Claim(pool));
  }

  /** A new run of s with its timestamps, claimed for its apply phase. */
  function Applying(db: Db, s: StackId, pool: PoolId): Db {
    var c := db.clock;
    db.(runs := db.runs[db.nextRun := Run(s, Some(pool), Tracked, Preparing, Some(c + 2), Some(c + 1), None, None, 0)],
        nextRun := db.nextRun + 1, clock := c + 4)
  }

  function Applied(db: Db, s: StackId, pool: PoolId): Db {
    MarkFinished(Applying(db, s, pool), db.nextRun)
  }

  ghost predicate CanApply(db: Db, s: StackId, pool: PoolId) {
    && IdsBelowNext(db) && NothingClaimable(db, pool)
    && s in db.stacks && !db.stacks[s].locked && db.stacks[s].autoApply && db.stacks[s].pool == Some(pool)
  }

  /** The plan phase of a claimed run ends in `confirmed`, on a stack that applies automatically. */
  lemma {:induction false} PlanConfirms(db: Db, r: RunId, pool: PoolId)
    requires Accepts(db, pool, r) && db.runs[r].approvedAt.None? && db.runs[r].kind == Tracked
    requires db.stacks[db.runs[r].stack].autoApply
    ensures
      var ev := Finish(pool, r, true, CLEAR, LoadFailed, []);
      && !IsApplyFinish(db, ev) && Enabled(db, ev)
      && Step(db, ev) == Tick(SetRun(db, r, db.runs[r].(status := Confirmed, approvedAt := Some(db.clock))))
  {
  }

  /** A run of s created, planned and claimed again. */
  lemma {:induction false} RunUpToApply(t: Trace, s: StackId, pool: PoolId) returns (u: Trace)
    requires t.Valid() && CanApply(t.Last(), s, pool)
    ensures u.Valid() && u.Extends(t) && u.Last() == Applying(t.Last(), s, pool)
    ensures u.events == t.events + [Create(s, Tracked), Claim(pool),
                                    Finish(pool, t.Last().nextRun, true, CLEAR, LoadFailed, []), Claim(pool)]
    ensures !IsApplyFinish(u.states[|t.events| + 2], u.events[|t.events| + 2])
  {
    hide Step, Enabled, IsListing;
    var r := t.Last().nextRun;
    var t2 := CreateAndClaim(t, s, pool);
    PlanConfirms(t2.Last(), r, pool);
    var t3 := t2.Then(Finish(pool, r, true, CLEAR, LoadFailed, []));
    ClaimTakes(t3.Last(), pool, r);
    OtherEventIsEnabled(t3.Last(), Claim(pool));
    u := t3.Then(Claim(pool));
  }

  lemma {:induction false} OtherEventIsEnabled(db: Db, ev: Event)
    requires !ev.Finish?
    ensures Enabled(db, ev)
  {
  }

  lemma {:induction false} ApplyFinishes(db: Db, s: StackId, pool: PoolId, rows: seq<StackId>)
    requires s in db.stacks && IsListing(Applied(db, s, pool), s, rows)
    ensures
      var now, ev := Applying(db, s, pool), Finish(pool, db.nextRun, true, CLEAR, LoadFailed, rows);
      && JoinsUp(Applied(db, s, pool), s, rows) && IsApplyFinish(now, ev) && Enabled(now, ev)
      && Step(now, ev) == Tick(TriggerAll(Applied(db, s, pool), s, rows, LoadFailed))
  {
  }

  /** A run of s created, planned, claimed again and applied. */
  lemma {:induction false} RunThroughApply(t: Trace, s: StackId, pool: PoolId, rows: seq<StackId>) returns (u: Trace)
    requires t.Valid() && CanApply(t.Last(), s, pool) && IsListing(Applied(t.Last(), s, pool), s, rows)
    ensures u.Valid() && u.Extends(t)
    ensures u.events == t.events + [Create(s, Tracked), Claim(pool),
                                    Finish(pool, t.Last().nextRun, true, CLEAR, LoadFailed, []), Claim(pool),
                                    Finish(pool, t.Last().nextRun, true, CLEAR, LoadFailed, rows)]
    ensures !IsApplyFinish(u.states[|t.events| + 2], u.events[|t.events| + 2])
    ensures u.states[|t.events| + 4] == Applying(t.Last(), s, pool) && IsApplyFinish(u.states[|t.events| + 4], u.events[|t.events| + 4])
    ensures JoinsUp(Applied(t.Last(), s, pool), s, rows)
    ensures u.Last() == Tick(TriggerAll(Applied(t.Last(), s, pool), s, rows, LoadFailed))
  {
    hide Step, Enabled, IsListing, TriggerAll;
    var t4 := RunUpToApply(t, s, pool);
    ApplyFinishes(t.Last(), s, pool, rows);
    u := t4.Then(Finish(pool, t.Last().nextRun, true, CLEAR, LoadFailed, rows));
  }

  lemma {:induction false} TriggerSingle(db: Db, up: StackId, down: StackId)
    requires (up, down) in db.edges && down in db.stacks
    ensures JoinsUp(db, up, [down])
    ensures TriggerAll(db, up, [down], LoadFailed) ==
      Insert(db, NewRun(down, db.stacks[down].pool, Tracked, Some((up, down)), 0))
  {
    assert [down][..0] == [];
  }

  lemma {:induction false} AddEdge(db: Db, org: OrgId, up: StackId, down: StackId)
    requires up != down && Owns(db, org, up) && Owns(db, org, down) && (up, down) !in db.edges
    requires forall e | e in db.edges :: e.0 != down
    ensures Enabled(db, AddDownstream(org, up, down))
    ensures Step(db, AddDownstream(org, up, down)) == Tick(db.(edges := db.edges[(up, down) := DEFAULT_EDGE]))
  {
    if Reaches(db.edges.Keys, down, up) {
      var y := ReachesFirstStep(db.edges.Keys, down, up);
    }
  }

  lemma {:induction false} FailsForGood(db: Db, r: RunId, pool: PoolId)
    requires Accepts(db, pool, r) && !Retries(db, db.runs[r])
    ensures
      var ev := Finish(pool, r, false, CLEAR, LoadFailed, []);
      && Enabled(db, ev) && !IsApplyFinish(db, ev)
      && Step(db, ev) == Tick(SetRun(db, r, db.runs[r].(status := Failed, finishedAt := Some(db.clock))))
  {
  }

  lemma {:induction false} DeleteRemoves(db: Db, r: RunId)
    requires r in db.runs && db.runs[r].status.Terminal()
    ensures Enabled(db, Delete(r)) && Step(db, Delete(r)) == Tick(db.(runs := db.runs - {r}))
  {
  }

  // ---- deletions break freshness ------------------------------------------------------------------

  const ACTIVE := Stack(0, Some(0), true, false, false, false)
  const STACKS := map[1 := ACTIVE, 2 := ACTIVE, 3 := ACTIVE]
  const EDGES: map<Edge, EdgeConfig> := map[(1, 2) := DEFAULT_EDGE, (3, 2) := DEFAULT_EDGE]

  /** Two upstreams 1 and 3 of stack 2. */
  lemma {:induction false} TwoUpstreams() returns (t: Trace)
    ensures t.Valid() && t.states[0] == Db(STACKS, map[], map[], 0, 0)
    ensures t.events == [AddDownstream(0, 1, 2), AddDownstream(0, 3, 2)] && t.Last() == Db(STACKS, EDGES, map[], 0, 2)
  {
    hide Step, Enabled;
    var t0 := Trace([Db(STACKS, map[], map[], 0, 0)], []);
    AddEdge(t0.Last(), 0, 1, 2);
    var t1 := t0.Then(AddDownstream(0, 1, 2));
    AddEdge(t1.Last(), 0, 3, 2);
    t := t1.Then(AddDownstream(0, 3, 2));
  }

  const FINISHED3 := Run(3, Some(0), Tracked, Finished, Some(4), Some(3), Some(6), None, 0)
  const FAILED2 := Run(2, Some(0), Tracked, Failed, None, Some(7), Some(8), Some((3, 2)), 0)

  lemma {:induction false} FirstTriggerEligible()
    ensures Eligible(Applied(Db(STACKS, EDGES, map[], 0, 2), 3, 0), 3, 2)
  {
    var db := Applied(Db(STACKS, EDGES, map[], 0, 2), 3, 0);
    assert FinishTimes(db.runs, 1) == {};
    assert Ready(db.runs, 1, 2);
  }

  /** Stack 3 applies, which triggers run 1 of stack 2, which starts and fails. */
  lemma {:induction false} FirstTrigger() returns (t: Trace)
    ensures t.Valid() && t.states[0] == Db(STACKS, map[], map[], 0, 0) && |t.events| == 9
    ensures t.Last() == Db(STACKS, EDGES, map[0 := FINISHED3, 1 := FAILED2], 2, 9)
    ensures forall i | 0 <= i < 9 :: !t.events[i].Delete?
    ensures IsApplyFinish(t.states[6], t.events[6]) && t.events[6].run == 0 && t.states[6].runs[0].stack == 3
    ensures t.events[7] == Claim(0) && 1 in t.states[7].runs && t.states[7].runs[1].startedAt.None?
    ensures 1 in t.states[8].runs && t.states[8].runs[1].startedAt == Some(7) && t.states[8].runs[1].stack == 2
    ensures !IsApplyFinish(t.states[8], t.events[8])
  {
    hide Step, Enabled, Eligible, IsApplyFinish;
    var t2 := TwoUpstreams();
    FirstTriggerEligible();
    var t7 := ApplyTriggers(t2, 3, 0, 2);
    t := ClaimAndFail(t7, 0, 1);
  }

  /** The trigger query for an apply of up returns just down. */
  lemma {:induction false} ListedAlone(db: Db, up: StackId, down: StackId)
    requires Eligible(db, up, down) && forall e | e in db.edges && e.0 == up :: e.1 == down
    ensures IsListing(db, up, [down])
  {
  }

  /** A run of s applied, which triggers its one downstream. */
  lemma {:induction false} ApplyTriggers(t: Trace, s: StackId, pool: PoolId, down: StackId) returns (u: Trace)
    requires t.Valid() && CanApply(t.Last(), s, pool) && down in t.Last().stacks
    requires (forall e | e in t.Last().edges && e.0 == s :: e.1 == down) && Eligible(Applied(t.Last(), s, pool), s, down)
    ensures u.Valid() && u.Extends(t) && |u.events| == |t.events| + 5
    ensures forall i | |t.events| <= i < |u.events| :: !u.events[i].Delete?
    ensures forall i | |t.events| <= i < |u.events| - 1 :: !IsApplyFinish(u.states[i], u.events[i])
    ensures
      var n := |t.events| + 4;
      u.states[n] == Applying(t.Last(), s, pool) && IsApplyFinish(u.states[n], u.events[n]) && u.events[n].run == t.Last().nextRun
    ensures u.Last() == Tick(Insert(Applied(t.Last(), s, pool),
                                    NewRun(down, t.Last().stacks[down].pool, Tracked, Some((s, down)), 0)))
  {
    hide Step, Enabled, IsListing, IsApplyFinish;
    var applied := Applied(t.Last(), s, pool);
    assert applied.edges == t.Last().edges && applied.stacks == t.Last().stacks;
    ListedAlone(applied, s, down);
    u := RunThroughApply(t, s, pool, [down]);
    TriggerSingle(applied, s, down);
    OnlyFinishesApply();
  }

  function FailedNow(run: Run, clock: Time): Run {
    Started(run, clock).(status := Failed, finishedAt := Some(clock + 1))
  }

  /** A queued run claimed and reported as failed, with no retry left. */
  lemma {:induction false} ClaimAndFail(t: Trace, pool: PoolId, r: RunId) returns (u: Trace)
    requires t.Valid() && IsOldestClaimable(t.Last().runs, pool, r)
    requires t.Last().runs[r].stack in t.Last().stacks && !Retries(t.Last(), t.Last().runs[r])
    ensures u.Valid() && u.Extends(t)
    ensures u.events == t.events + [Claim(pool), Finish(pool, r, false, CLEAR, LoadFailed, [])]
    ensures
      var db, n := t.Last(), |t.events|;
      && u.states[n] == db && u.states[n + 1] == Tick(SetRun(db, r, Started(db.runs[r], db.clock)))
      && !IsApplyFinish(u.states[n + 1], u.events[n + 1])
      && u.Last() == SetRun(db, r, FailedNow(db.runs[r], db.clock)).(clock := db.clock + 2)
  {
    hide Step, Enabled;
    ClaimTakes(t.Last(), pool, r);
    OtherEventIsEnabled(t.Last(), Claim(pool));
    var t1 := t.Then(Claim(pool));
    FailsForGood(t1.Last(), r, pool);
    u := t1.Then(Finish(pool, r, false, CLEAR, LoadFailed, []));
  }

  lemma {:induction false} SecondTriggerEligible(deleted: RunId)
    requires deleted in {0, 1}
    ensures
      var db := Db(STACKS, EDGES, map[0 := FINISHED3, 1 := FAILED2] - {deleted}, 2, 10);
      Eligible(Applied(db, 1, 0), 1, 2)
  {
    var db := Db(STACKS, EDGES, map[0 := FINISHED3, 1 := FAILED2] - {deleted}, 2, 10);
    var applied := Applied(db, 1, 0);
    if deleted == 0 {
      assert FinishTimes(applied.runs, 3) == {};
    } else {
      assert applied.runs[0].finishedAt.value in FinishTimes(applied.runs, 3);
      assert StartTimes(applied.runs, 2) == {};
    }
    assert Ready(applied.runs, 3, 2);
  }

  lemma {:induction false} OnlyFinishesApply()
    ensures forall db: Db, ev: Event :: IsApplyFinish(db, ev) ==> ev.Finish?
  {
  }

  /** The first trigger, a deletion of either run, and an apply of stack 1. */
  lemma {:induction false} TriggerAfterDelete(deleted: RunId) returns (t: Trace)
    requires deleted in {0, 1}
    ensures t.Valid() && t.states[0] == Db(STACKS, map[], map[], 0, 0) && |t.events| == 15
    ensures IsApplyFinish(t.states[6], t.events[6]) && t.events[6].run == 0 && t.states[6].runs[0].stack == 3
    ensures t.events[7] == Claim(0) && 1 in t.states[7].runs && t.states[7].runs[1].startedAt.None?
    ensures 1 in t.states[8].runs && t.states[8].runs[1].startedAt == Some(7) && t.states[8].runs[1].stack == 2
    ensures forall i | 0 <= i < 15 && t.events[i].Delete? :: t.events[i] == Delete(deleted)
    ensures forall i | 7 < i < 14 :: !IsApplyFinish(t.states[i], t.events[i])
    ensures t.states[14].edges == EDGES && 3 !in t.states[14].runs && 3 in t.Last().runs
    ensures t.Last().runs[3] == NewRun(2, Some(0), Tracked, Some((1, 2)), 0)
  {
    hide Step, Enabled, Eligible, IsApplyFinish;
    var t9 := FirstTrigger();
    DeleteRemoves(t9.Last(), deleted);
    var t10 := t9.Then(Delete(deleted));
    SecondTriggerEligible(deleted);
    t := ApplyTriggers(t10, 1, 0, 2);
    assert t.states[..10] == t9.states && t.events[..9] == t9.events;
    assert t.states[6] == t9.states[6] && t.states[7] == t9.states[7] && t.states[8] == t9.states[8];
    OnlyFinishesApply();
  }

  /** Freshness fails if either row is gone: an execution in which stack 3 has finished an
      apply (event 6), run 1 of stack 2 started afterwards (event 7), stack 3 finishes nothing
      more, one of the two runs is deleted, and yet stack 2 is triggered again (event 14). */
  lemma {:induction false} DeletionBreaksFreshness(deleted: RunId) returns (db: Db, evs: seq<Event>)
    requires deleted in {0, 1}
    ensures Initial(db) && IsExecution(db, evs) && TriggeredAt(db, evs, 14, 3, 1, 2)
    ensures (3, 2) in After(db, evs[..14]).edges && ApplyFinishAt(db, evs, 6, 3) && StartAt(db, evs, 7, 1, 2)
    ensures evs[6].run == 0 && forall i | 0 <= i < |evs| && evs[i].Delete? :: evs[i] == Delete(deleted)
    ensures forall j: nat | 7 < j < 14 :: !ApplyFinishAt(db, evs, j, 3)
  {
    hide Step, Enabled, Eligible, IsApplyFinish;
    var t := TriggerAfterDelete(deleted);
    db, evs := t.states[0], t.events;
    PrefixesAreExecutions(t);
    assert evs[..15] == evs;
  }

  // ---- a confirmed run does not block -----------------------------------------------------------

  const TWO_POOLS := map[1 := ACTIVE, 2 := ACTIVE.(pool := Some(1))]

  /** Run 0 of stack 2 planned and confirmed, with no agent of its pool to claim it again. */
  lemma {:induction false} DownstreamConfirmed() returns (t: Trace)
    ensures t.Valid() && t.states[0] == Db(TWO_POOLS, map[], map[], 0, 0) && |t.events| == 4
    ensures t.Last() == Db(TWO_POOLS, map[(1, 2) := DEFAULT_EDGE],
                           map[0 := Run(2, Some(1), Tracked, Confirmed, Some(3), Some(2), None, None, 0)], 1, 4)
  {
    hide Step, Enabled;
    var t0 := Trace([Db(TWO_POOLS, map[], map[], 0, 0)], []);
    AddEdge(t0.Last(), 0, 1, 2);
    var t1 := t0.Then(AddDownstream(0, 1, 2));
    var t3 := CreateAndClaim(t1, 2, 1);
    PlanConfirms(t3.Last(), 0, 1);
    t := t3.Then(Finish(1, 0, true, CLEAR, LoadFailed, []));
  }

  /** An execution that triggers stack 2 (event 8) while its run 0 is confirmed and still to be applied. */
  lemma {:induction false} ConfirmedRunDoesNotBlock() returns (db: Db, evs: seq<Event>)
    ensures Initial(db) && IsExecution(db, evs) && TriggeredAt(db, evs, 8, 2, 1, 2)
    ensures 0 in After(db, evs[..8]).runs && After(db, evs[..8]).runs[0].stack == 2
    ensures After(db, evs[..8]).runs[0].status == Confirmed
  {
    hide Step, Enabled, IsApplyFinish;
    var t4 := DownstreamConfirmed();
    var t := ApplyTriggers(t4, 1, 0, 2);
    db, evs := t.states[0], t.events;
    PrefixesAreExecutions(t);
    assert evs[..9] == evs;
  }

  // ---- callbacks and claims ------------------------------------------------------------------------

  /** For every stack of a pool: once the first status callback of a claimed run arrives, its finish
      call is answered 404. */
  lemma {:induction false} ReportStrandsRun(db: Db, s: StackId, pool: PoolId, applying: bool) returns (evs: seq<Event>)
    requires Initial(db) && s in db.stacks && !db.stacks[s].locked && db.stacks[s].pool == Some(pool)
    ensures evs == [Create(s, Tracked), Claim(pool), Report(0, applying)]
    ensures IsExecution(db, evs[..2]) && Accepts(After(db, evs[..2]), pool, 0)
    ensures IsExecution(db, evs) && 0 in After(db, evs).runs && !Accepts(After(db, evs), pool, 0)
  {
    hide Step, Enabled;
    var t2 := CreateAndClaim(Trace([db], []), s, pool);
    OtherEventIsEnabled(t2.Last(), Report(0, applying));
    AcceptedReport(t2.Last(), Report(0, applying));
    var t := t2.Then(Report(0, applying));
    evs := t.events;
    PrefixesAreExecutions(t);
  }

  /** For every stack that applies automatically: a claim that takes a confirmed run. */
  lemma {:induction false} ConfirmedRunIsClaimed(db: Db, s: StackId, pool: PoolId) returns (evs: seq<Event>)
    requires Initial(db) && CanApply(db, s, pool)
    ensures IsExecution(db, evs) && IsOldestClaimable(After(db, evs).runs, pool, 0)
    ensures After(db, evs).runs[0].status == Confirmed
  {
    hide Step, Enabled;
    var t2 := CreateAndClaim(Trace([db], []), s, pool);
    PlanConfirms(t2.Last(), 0, pool);
    var t := t2.Then(Finish(pool, 0, true, CLEAR, LoadFailed, []));
    evs := t.events;
    PrefixesAreExecutions(t);
  }

  /** The plan phase of a claimed run ends in `unconfirmed`, on a stack that does not apply automatically. */
  lemma {:induction false} PlanWaits(db: Db, r: RunId, pool: PoolId)
    requires Accepts(db, pool, r) && db.runs[r].approvedAt.None? && db.runs[r].kind == Tracked
    requires !db.stacks[db.runs[r].stack].autoApply
    ensures
      var ev := Finish(pool, r, true, CLEAR, LoadFailed, []);
      && Enabled(db, ev)
      && Step(db, ev) == Tick(SetRun(db, r, db.runs[r].(status := Unconfirmed, finishedAt := Some(db.clock))))
  {
  }

  lemma {:induction false} ConfirmTakesEffect(db: Db, r: RunId)
    requires r in db.runs && db.runs[r].status == Unconfirmed
    ensures Enabled(db, Confirm(r))
    ensures Step(db, Confirm(r)) == Tick(SetRun(db, r, db.runs[r].(status := Confirmed, approvedAt := Some(db.clock))))
  {
  }

  /** A claimed run planned, and confirmed by hand. */
  lemma {:induction false} PlanAndConfirm(t: Trace, r: RunId, pool: PoolId) returns (u: Trace)
    requires t.Valid() && Accepts(t.Last(), pool, r) && !t.Last().stacks[t.Last().runs[r].stack].autoApply
    requires t.Last().runs[r].approvedAt.None? && t.Last().runs[r].kind == Tracked
    ensures u.Valid() && u.Extends(t) && u.events == t.events + [Finish(pool, r, true, CLEAR, LoadFailed, []), Confirm(r)]
    ensures
      var db := t.Last();
      u.Last() == SetRun(db, r, db.runs[r].(status := Confirmed, approvedAt := Some(db.clock + 1), finishedAt := Some(db.clock)))
                    .(clock := db.clock + 2)
  {
    hide Step, Enabled;
    PlanWaits(t.Last(), r, pool);
    var t1 := t.Then(Finish(pool, r, true, CLEAR, LoadFailed, []));
    ConfirmTakesEffect(t1.Last(), r);
    u := t1.Then(Confirm(r));
  }

  /** For every stack of a pool that does not apply automatically: a run is created, planned, confirmed
      by hand and claimed again, and is then in its apply phase. */
  lemma {:induction false} ManualConfirmIsApplied(db: Db, s: StackId, pool: PoolId) returns (evs: seq<Event>)
    requires Initial(db) && s in db.stacks && !db.stacks[s].locked && !db.stacks[s].autoApply && db.stacks[s].pool == Some(pool)
    ensures evs == [Create(s, Tracked), Claim(pool), Finish(pool, 0, true, CLEAR, LoadFailed, []), Confirm(0), Claim(pool)]
    ensures IsExecution(db, evs) && Accepts(After(db, evs), pool, 0) && After(db, evs).runs[0].ApplyPhase()
    ensures After(db, evs).runs == map[0 := Run(s, Some(pool), Tracked, Preparing, Some(3), Some(1), Some(2), None, 0)]
  {
    hide Step, Enabled;
    var t2 := CreateAndClaim(Trace([db], []), s, pool);
    var t4 := PlanAndConfirm(t2, 0, pool);
    ClaimTakes(t4.Last(), pool, 0);
    OtherEventIsEnabled(t4.Last(), Claim(pool));
    var t := t4.Then(Claim(pool));
    evs := t.events;
    PrefixesAreExecutions(t);
  }

  // ---- a predicate that does not hold ------------------------------------------------------------

  const DESTROYS_ONLY := Predicate("type", "==", "destroy")
  const TRACKED_RUN := RunFields("tracked", 1, 0, 0, Finite(0.0), false)
  const GUARDED: map<Edge, EdgeConfig> := map[(1, 2) := EdgeConfig(DESTROYS_ONLY, 0, 60)]

  lemma {:induction false} GuardEdge(db: Db, parse: FloatParser)
    requires db.edges == map[(1, 2) := DEFAULT_EDGE] && Owns(db, 0, 1)
    ensures Enabled(db, SetPredicate(0, 1, 2, DESTROYS_ONLY, parse))
    ensures Step(db, SetPredicate(0, 1, 2, DESTROYS_ONLY, parse)) == Tick(db.(edges := GUARDED))
  {
  }

  lemma {:induction false} GuardedEligible()
    ensures
      var db := Applied(Db(PAIR, GUARDED, map[], 0, 2), 1, 0);
      Eligible(db, 1, 2) && IsListing(db, 1, [2])
  {
    var db := Applied(Db(PAIR, GUARDED, map[], 0, 2), 1, 0);
    assert Eligible(db, 1, 2);
    ListedAlone(db, 1, 2);
  }

  lemma {:induction false} GuardedApply(rows: seq<StackId>, eval: EdgeEval)
    requires IsListing(Applied(Db(PAIR, GUARDED, map[], 0, 2), 1, 0), 1, rows)
    ensures
      var now, ev := Applying(Db(PAIR, GUARDED, map[], 0, 2), 1, 0), Finish(0, 0, true, CLEAR, eval, rows);
      IsApplyFinish(now, ev) && Enabled(now, ev) && now.runs[0].stack == 1
  {
  }

  /** An execution whose finished apply has an eligible downstream in its query and does not trigger
      it, because the edge asks for a destroy run. */
  lemma {:induction false} UnmetPredicateSkips(parse: FloatParser) returns (db: Db, evs: seq<Event>)
    ensures Initial(db) && IsExecution(db, evs) && |evs| == 7 && ApplyFinishAt(db, evs, 6, 1)
    ensures 2 in evs[6].rows && evs[6].eval == Loaded(TRACKED_RUN, parse)
    ensures RunsOf(After(db, evs).runs, 2) == map[]
  {
    hide Step, Enabled, IsListing, Eligible, TriggerAll;
    db := Db(PAIR, map[], map[], 0, 0);
    var t0 := Trace([db], []);
    AddEdge(t0.Last(), 0, 1, 2);
    var t1 := t0.Then(AddDownstream(0, 1, 2));
    GuardEdge(t1.Last(), parse);
    var t2 := t1.Then(SetPredicate(0, 1, 2, DESTROYS_ONLY, parse));
    var t6 := RunUpToApply(t2, 1, 0);
    GuardedEligible();
    var ev := Finish(0, 0, true, CLEAR, Loaded(TRACKED_RUN, parse), [2]);
    GuardedApply([2], ev.eval);
    var t := t6.Then(ev);
    evs := t.events;
    PrefixesAreExecutions(t);
    assert evs[..6] == t6.events && evs[..7] == evs;
    PrefixesAreExecutions(t6);
    assert t.states[6] == t6.Last();
    GuardStaysShut(t6.Last(), ev);
  }

  lemma {:induction false} GuardStaysShut(db: Db, ev: Event)
    requires db == Applying(Db(PAIR, GUARDED, map[], 0, 2), 1, 0)
    requires ev.Finish? && IsApplyFinish(db, ev) && ev.run == 0 && ev.eval.Loaded? && ev.eval.fields == TRACKED_RUN && Enabled(db, ev)
    ensures RunsOf(Step(db, ev).runs, 2) == map[]
  {
    hide Step, Enabled, MayBeTriggered;
    ApplyFinishTriggersIff(db, ev, 2);
    assert !Matches(DESTROYS_ONLY, TRACKED_RUN, ev.eval.parse);
  }

  // ---- full retry chains ---------------------------------------------------------------------------

  const PAIR := map[1 := ACTIVE, 2 := ACTIVE]

  function RetryEdge(count: nat, backoff: nat): map<Edge, EdgeConfig> {
    map[(1, 2) := DEFAULT_EDGE.(retryCount := count, backoff := backoff)]
  }

  /** Attempt i of a dependency run of stack 2 is queued as run i + 1; everything else is over. */
  ghost predicate AwaitsAttempt(db: Db, i: nat, count: nat, backoff: nat) {
    && db.stacks == PAIR && db.edges == RetryEdge(count, backoff) && IdsBelowNext(db) && db.nextRun == i + 2
    && i + 1 in db.runs && db.runs[i + 1] == NewRun(2, Some(0), Tracked, Some((1, 2)), i)
    && forall r | r in db.runs && r != i + 1 :: db.runs[r].status.Terminal()
  }

  lemma {:induction false} SetsRetry(db: Db, count: nat, backoff: nat)
    requires db.stacks == PAIR && db.edges == map[(1, 2) := DEFAULT_EDGE] && count <= 10 && 1 <= backoff <= 3600
    ensures Step(db, SetRetry(0, 1, 2, count, backoff)) == Tick(db.(edges := RetryEdge(count, backoff)))
  {
  }

  lemma {:induction false} FirstAttempt(count: nat, backoff: nat) returns (t: Trace)
    requires count <= 10 && 1 <= backoff <= 3600
    ensures t.Valid() && t.states[0] == Db(PAIR, map[], map[], 0, 0) && AwaitsAttempt(t.Last(), 0, count, backoff)
  {
    hide Step, Enabled, IsApplyFinish;
    var t0 := Trace([Db(PAIR, map[], map[], 0, 0)], []);
    AddEdge(t0.Last(), 0, 1, 2);
    var t1 := t0.Then(AddDownstream(0, 1, 2));
    var ev := SetRetry(0, 1, 2, count, backoff);
    SetsRetry(t1.Last(), count, backoff);
    OtherEventIsEnabled(t1.Last(), ev);
    var t2 := t1.Then(ev);
    t := ApplyTriggers(t2, 1, 0, 2);
  }

  lemma {:induction false} FailsWithRetry(db: Db, r: RunId, pool: PoolId)
    requires Accepts(db, pool, r) && Retries(db, db.runs[r])
    ensures
      var ev, run := Finish(pool, r, false, CLEAR, LoadFailed, []), db.runs[r];
      && Enabled(db, ev)
      && Step(db, ev) == Tick(Insert(SetRun(db, r, run.(status := Failed, finishedAt := Some(db.clock))),
                                     NewRun(run.stack, db.stacks[run.stack].pool, Tracked, run.dep, run.attempt + 1)))
  {
  }

  /** Attempt i is claimed, fails and is retried. */
  lemma {:induction false} FailAndRetry(t: Trace, i: nat, count: nat, backoff: nat) returns (u: Trace)
    requires t.Valid() && AwaitsAttempt(t.Last(), i, count, backoff) && i < count
    ensures u.Valid() && u.Extends(t) && |u.events| == |t.events| + 2 && AwaitsAttempt(u.Last(), i + 1, count, backoff)
    ensures
      var was, ev := u.states[|t.events| + 1], u.events[|t.events| + 1];
      && ev.Finish? && ev.run == i + 1 && i + 1 in was.runs && i + 2 !in was.runs
      && was.edges == RetryEdge(count, backoff) && was.runs[i + 1].dep == Some((1, 2)) && was.runs[i + 1].attempt == i
  {
    hide Step, Enabled;
    var r := i + 1;
    ClaimTakes(t.Last(), 0, r);
    OtherEventIsEnabled(t.Last(), Claim(0));
    var t1 := t.Then(Claim(0));
    FailsWithRetry(t1.Last(), r, 0);
    u := t1.Then(Finish(0, r, false, CLEAR, LoadFailed, []));
  }

  lemma {:induction false} LinkExtends(db: Db, evs: seq<Event>, more: seq<Event>, l: Link)
    requires evs <= more && RetriedAt(db, evs, l)
    ensures RetriedAt(db, more, l)
    ensures Attempt(db, more, l) == Attempt(db, evs, l) && Settings(db, more, l) == Settings(db, evs, l)
  {
    assert more[..l.n] == evs[..l.n] && more[..l.n + 1] == evs[..l.n + 1];
  }

  ghost predicate IsFullChain(t: Trace, chain: seq<Link>, backoff: nat)
    requires t.Valid()
  {
    && IsRetryChain(t.states[0], t.events, chain)
    && (forall i | 0 <= i < |chain| :: BackoffIs(t.states[0], t.events, chain[i], backoff) && chain[i].n < |t.events|)
    && (chain != [] ==> chain[|chain| - 1].retry == |chain| + 1)
  }

  /** i failures in a row. */
  lemma {:induction false} Failures(i: nat, count: nat, backoff: nat) returns (t: Trace, chain: seq<Link>)
    requires i <= count <= 10 && 1 <= backoff <= 3600
    ensures t.Valid() && t.states[0] == Db(PAIR, map[], map[], 0, 0) && AwaitsAttempt(t.Last(), i, count, backoff)
    ensures |chain| == i && IsFullChain(t, chain, backoff)
  {
    hide Step, Enabled, AwaitsAttempt, IsExecution, RetriedAt, Attempt, Settings;
    if i == 0 {
      t := FirstAttempt(count, backoff);
      chain := [];
    } else {
      var t', init := Failures(i - 1, count, backoff);
      t := FailAndRetry(t', i - 1, count, backoff);
      chain := ChainSnoc(t', init, t, i - 1, count, backoff);
    }
  }

  lemma {:induction false} NewLink(t: Trace, n: nat, i: nat, count: nat, backoff: nat)
    requires t.Valid() && |t.events| == n + 1 && AwaitsAttempt(t.Last(), i + 1, count, backoff)
    requires
      var was, ev := t.states[n], t.events[n];
      && ev.Finish? && ev.run == i + 1 && i + 1 in was.runs && i + 2 !in was.runs
      && was.edges == RetryEdge(count, backoff) && was.runs[i + 1].dep == Some((1, 2)) && was.runs[i + 1].attempt == i
    ensures
      var l := Link(n, i + 1, i + 2);
      RetriedAt(t.states[0], t.events, l) && BackoffIs(t.states[0], t.events, l, backoff) && Attempt(t.states[0], t.events, l) == i
  {
    hide Step, Enabled;
    PrefixesAreExecutions(t);
    assert t.events[..n + 1] == t.events;
  }

  lemma {:induction false} ChainSnoc(t: Trace, init: seq<Link>, u: Trace, i: nat, count: nat, backoff: nat) returns (chain: seq<Link>)
    requires t.Valid() && |init| == i && IsFullChain(t, init, backoff)
    requires u.Valid() && u.Extends(t) && |u.events| == |t.events| + 2 && AwaitsAttempt(u.Last(), i + 1, count, backoff)
    requires
      var was, ev := u.states[|t.events| + 1], u.events[|t.events| + 1];
      && ev.Finish? && ev.run == i + 1 && i + 1 in was.runs && i + 2 !in was.runs
      && was.edges == RetryEdge(count, backoff) && was.runs[i + 1].dep == Some((1, 2)) && was.runs[i + 1].attempt == i
    ensures |chain| == i + 1 && IsFullChain(u, chain, backoff)
  {
    hide Step, Enabled, AwaitsAttempt, IsExecution, RetriedAt, Attempt, Settings;
    var n, db := |t.events| + 1, t.states[0];
    var l := Link(n, i + 1, i + 2);
    NewLink(u, n, i, count, backoff);
    chain := init + [l];
    assert u.states[0] == db;
    forall j | 0 <= j < |chain|
      ensures RetriedAt(db, u.events, chain[j]) && BackoffIs(db, u.events, chain[j], backoff) && chain[j].n < |u.events|
      ensures j == 0 ==> Attempt(db, u.events, chain[j]) == 0
    {
      if j < i {
        assert chain[j] == init[j];
        LinkExtends(db, t.events, u.events, init[j]);
      }
    }
  }

  /** The bounds on retries are reached: for every setting an edge can have, an execution in which
      one dependency run fails, and is retried, as often as the setting allows. */
  lemma {:induction false} RetryBoundIsReached(count: nat, backoff: nat) returns (db: Db, evs: seq<Event>, chain: seq<Link>)
    requires count <= 10 && 1 <= backoff <= 3600
    ensures Initial(db) && IsExecution(db, evs) && IsRetryChain(db, evs, chain) && |chain| == count
    ensures forall i | 0 <= i < count :: BackoffIs(db, evs, chain[i], backoff)
    ensures TotalDelay(db, evs, chain) == (backoff * NANOSECONDS) * (Pow2(count) - 1)
  {
    hide Step, Enabled, IsExecution, After, RetriedAt, Attempt, Settings, TotalDelay, AwaitsAttempt, Pow2;
    var t;
    t, chain := Failures(count, count, backoff);
    db, evs := t.states[0], t.events;
    PrefixesAreExecutions(t);
    RetryChainDelay(db, evs, chain, backoff);
  }
}
