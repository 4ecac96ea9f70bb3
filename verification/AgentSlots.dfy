/** External worker agents: any number of processes, each with a slot semaphore, a
    wait group and one goroutine per claimed run, against the shared run tables.
    Requests and replies may be lost. */
module AgentSlots {
  import opened Options
  import opened DependencyGraph
  import opened RunMachine
  import opened RunLifecycle
  import PostPlanGate

  type AgentId = nat
  type JobId = nat

  /** Where runLoop / drainQueue stands. */
  datatype Phase =
    | Polling    // select on ctx.Done and the ticker
    | Draining   // about to take a slot
    | Claiming   // holds a slot, claim request out
    | Waiting    // shutting down, wg.Wait
    | Stopped

  /** sem and wg are the channel length and the WaitGroup counter. A goroutine
      executes a run, then has reported it, then has given its slot back, then is
      gone. started / executed count claims received and executeRun calls returned. */
  datatype Agent = Agent(pool: PoolId, capacity: nat, phase: Phase, sem: int, wg: int,
                         executing: map<JobId, RunId>, reported: nat, released: nat,
                         started: nat, executed: nat)

  datatype World = World(db: Db, agents: map<AgentId, Agent>, lost: set<RunId>)

  datatype Action =
    | Tick(a: AgentId)
    | TakeSlot(a: AgentId)
    | ClaimReply(a: AgentId, delivered: bool)
    | ClaimUnsent(a: AgentId)
    | ExecuteRun(a: AgentId, job: JobId, success: bool, verdict: PostPlanGate.Verdict, eval: EdgeEval,
                 rows: seq<StackId>, delivered: bool)
    | GiveBackSlot(a: AgentId)
    | GoroutineEnds(a: AgentId)
    | Shutdown(a: AgentId)
    | WaitReturns(a: AgentId)
    | Elsewhere(ev: Event)  // any handler call that is neither claim nor finish

  function SetAgent(w: World, a: AgentId, agent: Agent): World {
    w.(agents := w.agents[a := agent])
  }

  ghost function ClaimedRun(db: Db, pool: PoolId): (c: Option<RunId>)
    ensures c.Some? ==> IsOldestClaimable(db.runs, pool, c.value)
    ensures c.None? ==> forall r :: !IsOldestClaimable(db.runs, pool, r)
  {
    if r :| IsOldestClaimable(db.runs, pool, r) then Some(r) else None
  }

  /** The finish call an executing goroutine makes for its run. */
  function FinishCall(agent: Agent, act: Action): Event
    requires act.ExecuteRun? && act.job in agent.executing
  {
    Finish(agent.pool, agent.executing[act.job], act.success, act.verdict, act.eval, act.rows)
  }

  ghost predicate Possible(w: World, act: Action) {
    if act.Elsewhere? then !act.ev.Claim? && !act.ev.Finish? && Enabled(w.db, act.ev)
    else act.a in w.agents && AgentMay(w.db, w.agents[act.a], act)
  }

  ghost predicate AgentMay(db: Db, agent: Agent, act: Action) {
    if act.Tick? || act.Shutdown? then agent.phase == Polling
    else if act.TakeSlot? then agent.phase == Draining
    else if act.ClaimReply? || act.ClaimUnsent? then agent.phase == Claiming
    else if act.ExecuteRun? then act.job in agent.executing && Enabled(db, FinishCall(agent, act))
    else if act.GiveBackSlot? then agent.reported > 0
    else if act.GoroutineEnds? then agent.released > 0
    else agent.phase == Waiting && agent.wg == 0
  }

  ghost function Act(w: World, act: Action): World
    requires Possible(w, act)
  {
    if act.Elsewhere? then w.(db := Step(w.db, act.ev))
    else if act.ClaimReply? then ReceiveClaim(w, act.a, act.delivered)
    else if act.ExecuteRun? then Execute(w, act)
    else SetAgent(w, act.a, Move(w.agents[act.a], act))
  }

  /** The purely local moves. */
  ghost function Move(agent: Agent, act: Action): Agent {
    if act.Tick? then agent.(phase := Draining)
    else if act.TakeSlot? then
      if agent.sem < agent.capacity then agent.(phase := Claiming, sem := agent.sem + 1) else agent.(phase := Polling)
    else if act.ClaimUnsent? then agent.(phase := Polling, sem := agent.sem - 1)
    else if act.GiveBackSlot? && agent.reported > 0 then
      agent.(reported := agent.reported - 1, released := agent.released + 1, sem := agent.sem - 1)
    else if act.GoroutineEnds? && agent.released > 0 then agent.(released := agent.released - 1, wg := agent.wg - 1)
    else if act.Shutdown? then agent.(phase := Waiting)
    else agent.(phase := Stopped)
  }

  ghost function ReceiveClaim(w: World, a: AgentId, delivered: bool): World
    requires a in w.agents
  {
    var agent := w.agents[a];
    var claimed := ClaimedRun(w.db, agent.pool);
    var w1 := w.(db := Step(w.db, Claim(agent.pool)));
    if claimed.Some? && delivered then
      SetAgent(w1, a, agent.(phase := Draining, wg := agent.wg + 1,
                             executing := agent.executing[agent.started := claimed.value],
                             started := agent.started + 1))
    else
      SetAgent(w1, a, agent.(phase := Polling, sem := agent.sem - 1))
        .(lost := if claimed.Some? then w.lost + {claimed.value} else w.lost)
  }

  ghost function Execute(w: World, act: Action): World
    requires act.ExecuteRun? && Possible(w, act)
  {
    var agent := w.agents[act.a];
    var w1 := if act.delivered then w.(db := Step(w.db, FinishCall(agent, act)))
              else w.(lost := w.lost + {agent.executing[act.job]});
    SetAgent(w1, act.a, agent.(executing := agent.executing - {act.job}, reported := agent.reported + 1,
                               executed := agent.executed + 1))
  }

  ghost predicate IsRun(w: World, acts: seq<Action>)
    decreases |acts|, 0
  {
    acts == [] || (IsRun(w, acts[..|acts| - 1]) && Possible(Reached(w, acts[..|acts| - 1]), acts[|acts| - 1]))
  }

  ghost function Reached(w: World, acts: seq<Action>): World
    requires IsRun(w, acts)
    decreases |acts|, 1
  {
    if acts == [] then w else Act(Reached(w, acts[..|acts| - 1]), acts[|acts| - 1])
  }

  ghost predicate FreshWorld(w: World) {
    && Initial(w.db) && w.lost == {}
    && forall a | a in w.agents ::
         && w.agents[a] == Agent(w.agents[a].pool, w.agents[a].capacity, Polling, 0, 0, map[], 0, 0, 0, 0)
  }

  // ---- slots ------------------------------------------------------------------------------

  ghost predicate SlotsOk(agent: Agent) {
    && agent.sem == (if agent.phase == Claiming then 1 else 0) + |agent.executing| + agent.reported
    && agent.sem <= agent.capacity
    && agent.wg == |agent.executing| + agent.reported + agent.released
    && agent.started == agent.executed + |agent.executing|
    && (forall j | j in agent.executing :: j < agent.started)
    && (agent.phase == Stopped ==> agent.wg == 0)
  }

  lemma {:induction false} MoveKeepsSlots(db: Db, agent: Agent, act: Action)
    requires SlotsOk(agent) && AgentMay(db, agent, act)
    requires !act.Elsewhere? && !act.ClaimReply? && !act.ExecuteRun?
    ensures SlotsOk(Move(agent, act))
  {
    hide Enabled;
  }

  lemma {:induction false} ClaimKeepsSlots(w: World, a: AgentId, delivered: bool)
    requires a in w.agents && SlotsOk(w.agents[a]) && w.agents[a].phase == Claiming
    ensures SlotsOk(ReceiveClaim(w, a, delivered).agents[a])
  {
    hide Step;
    var agent, next := w.agents[a], ReceiveClaim(w, a, delivered).agents[a];
    if next.phase == Draining {
      assert next.executing.Keys == agent.executing.Keys + {agent.started};
      assert |next.executing.Keys| == |agent.executing.Keys| + 1;
    }
  }

  lemma {:induction false} ExecuteKeepsSlots(w: World, act: Action)
    requires act.ExecuteRun? && Possible(w, act) && SlotsOk(w.agents[act.a])
    ensures SlotsOk(Execute(w, act).agents[act.a])
  {
    hide Step, Enabled;
    var agent := w.agents[act.a];
    var rest := agent.executing - {act.job};
    assert agent.executing.Keys == rest.Keys + {act.job};
    assert |agent.executing.Keys| == |rest.Keys| + 1;
  }

  lemma {:induction false} ActKeepsSlots(w: World, act: Action, b: AgentId)
    requires Possible(w, act) && b in w.agents && SlotsOk(w.agents[b])
    ensures b in Act(w, act).agents && SlotsOk(Act(w, act).agents[b])
  {
    hide Step, Enabled, SlotsOk, Move;
    if !act.Elsewhere? && act.a == b {
      if act.ClaimReply? {
        ClaimKeepsSlots(w, b, act.delivered);
      } else if act.ExecuteRun? {
        ExecuteKeepsSlots(w, act);
      } else {
        MoveKeepsSlots(w.db, w.agents[b], act);
      }
    }
  }

  // ---- exclusivity ---------------------------------------------------------------------------

  ghost predicate Holds(w: World, a: AgentId, j: JobId, r: RunId) {
    a in w.agents && j in w.agents[a].executing && w.agents[a].executing[j] == r
  }

  /** Statuses a run can have between its claim and its finish. */
  ghost predicate ClaimedStatus(run: Run) {
    run.status == Preparing || Closed(run)
  }

  ghost predicate HeldRunsClaimed(w: World) {
    forall a: AgentId, j: JobId, r: RunId | Holds(w, a, j, r) ::
      && r < w.db.nextRun
      && (r in w.db.runs ==> ClaimedStatus(w.db.runs[r]) && w.db.runs[r].pool == Some(w.agents[a].pool))
  }

  ghost predicate OneHolder(w: World) {
    forall a: AgentId, j: JobId, b: AgentId, k: JobId, r: RunId | Holds(w, a, j, r) && Holds(w, b, k, r) ::
      a == b && j == k
  }

  /** Every run in `preparing` is in somebody's hands, unless a message about it was lost. */
  ghost predicate PreparingIsHeld(w: World) {
    forall r | r in w.db.runs && w.db.runs[r].status == Preparing ::
      r in w.lost || exists a: AgentId, j: JobId :: Holds(w, a, j, r)
  }

  ghost predicate WorldOk(w: World) {
    && IdsBelowNext(w.db) && RunsJoinStacks(w.db)
    && (forall a | a in w.agents :: SlotsOk(w.agents[a]))
    && HeldRunsClaimed(w) && OneHolder(w) && PreparingIsHeld(w)
  }

  /** A claimed run stays claimed under every step that is not its own finish. */
  lemma {:induction false} StepKeepsClaimed(db: Db, ev: Event, r: RunId)
    requires IdsBelowNext(db) && Enabled(db, ev) && r < db.nextRun
    requires r in db.runs ==> ClaimedStatus(db.runs[r])
    requires ev.Finish? ==> ev.run != r
    ensures r in Step(db, ev).runs ==>
      r in db.runs && ClaimedStatus(Step(db, ev).runs[r]) && Step(db, ev).runs[r].pool == db.runs[r].pool
  {
    StepKeepsIds(db, ev);
    hide HandleConfig, HandleFinish;
    if ev.Finish? {
      FinishKeepsOtherRows(db, ev);
    } else if r in db.runs
              && IsConfigEvent(ev) {
      ConfigKeepsRow(db, ev, r);
    }
  }

  /** Only a claim makes a run `preparing`. */
  lemma {:induction false} OnlyClaimsPrepare(db: Db, ev: Event, r: RunId)
    requires IdsBelowNext(db) && Enabled(db, ev)
    requires r in Step(db, ev).runs && Step(db, ev).runs[r].status == Preparing
    ensures
      || (r in db.runs && db.runs[r].status == Preparing && (ev.Finish? && ev.run == r ==> !Accepts(db, ev.pool, r)))
      || (ev.Claim? && IsOldestClaimable(db.runs, ev.pool, r))
  {
    StepKeepsIds(db, ev);
    hide HandleConfig, HandleFinish;
    if ev.Finish? {
      FinishKeepsOtherRows(db, ev);
    } else if r in db.runs
              && IsConfigEvent(ev) {
      ConfigKeepsRow(db, ev, r);
    }
  }

  lemma {:induction false} ElsewhereKeepsWorld(w: World, act: Action)
    requires WorldOk(w) && act.Elsewhere? && Possible(w, act)
    ensures WorldOk(Act(w, act))
  {
    hide Step, Enabled;
    var w' := Act(w, act);
    StepKeepsIds(w.db, act.ev);
    StepKeepsJoin(w.db, act.ev);
    forall a: AgentId, j: JobId, r: RunId
      ensures Holds(w', a, j, r) <==> Holds(w, a, j, r)
    {
    }
    forall a: AgentId, j: JobId, r: RunId | Holds(w', a, j, r)
      ensures r < w'.db.nextRun
      ensures r in w'.db.runs ==> ClaimedStatus(w'.db.runs[r]) && w'.db.runs[r].pool == Some(w'.agents[a].pool)
    {
      StepKeepsClaimed(w.db, act.ev, r);
    }
    forall r | r in w'.db.runs && w'.db.runs[r].status == Preparing
      ensures r in w'.lost || exists a: AgentId, j: JobId :: Holds(w', a, j, r)
    {
      OnlyClaimsPrepare(w.db, act.ev, r);
      if r !in w.lost {
        var a: AgentId, j: JobId :| Holds(w, a, j, r);
        assert Holds(w', a, j, r);
      }
    }
  }

  lemma {:induction false} MoveKeepsExecuting(agent: Agent, act: Action)
    ensures Move(agent, act).executing == agent.executing && Move(agent, act).pool == agent.pool
  {
  }

  /** Local moves leave the tables and everything being executed alone. */
  lemma {:induction false} MoveKeepsWorld(w: World, act: Action)
    requires WorldOk(w) && Possible(w, act) && !act.Elsewhere? && !act.ClaimReply? && !act.ExecuteRun?
    ensures WorldOk(Act(w, act))
  {
    hide Step, Enabled, SlotsOk, Move;
    MoveKeepsExecuting(w.agents[act.a], act);
    var w' := Act(w, act);
    forall a | a in w'.agents
      ensures SlotsOk(w'.agents[a])
    {
      ActKeepsSlots(w, act, a);
    }
    forall a: AgentId, j: JobId, r: RunId
      ensures Holds(w', a, j, r) <==> Holds(w, a, j, r)
    {
    }
    forall r | r in w'.db.runs && w'.db.runs[r].status == Preparing
      ensures r in w'.lost || exists a: AgentId, j: JobId :: Holds(w', a, j, r)
    {
      if r !in w.lost {
        var a: AgentId, j: JobId :| Holds(w, a, j, r);
        assert Holds(w', a, j, r);
      }
    }
  }

  /** What an agent holds after a claim reply: what it held, and the run it received. */
  lemma {:induction false} ClaimHolds(w: World, act: Action, a: AgentId, j: JobId, r: RunId)
    requires WorldOk(w) && act.ClaimReply? && Possible(w, act)
    ensures
      var agent, claimed := w.agents[act.a], ClaimedRun(w.db, w.agents[act.a].pool);
      Holds(Act(w, act), a, j, r) <==>
        Holds(w, a, j, r) || (act.delivered && claimed == Some(r) && a == act.a && j == agent.started)
  {
  }

  /** The run a claim takes was queued or confirmed, so nobody was holding it. */
  lemma {:induction false} ClaimedWasFree(w: World, pool: PoolId, a: AgentId, j: JobId, r: RunId)
    requires WorldOk(w) && Holds(w, a, j, r)
    ensures ClaimedRun(w.db, pool) != Some(r)
    ensures
      var db' := Step(w.db, Claim(pool));
      r in db'.runs ==> ClaimedStatus(db'.runs[r]) && db'.runs[r].pool == Some(w.agents[a].pool)
  {
    StepKeepsClaimed(w.db, Claim(pool), r);
  }

  lemma {:induction false} ClaimStarts(db: Db, pool: PoolId)
    ensures
      var claimed, db' := ClaimedRun(db, pool), Step(db, Claim(pool));
      claimed.Some? ==> db'.runs == db.runs[claimed.value := Started(db.runs[claimed.value], db.clock)]
  {
  }

  lemma {:induction false} ClaimKeepsHeld(w: World, act: Action)
    requires WorldOk(w) && act.ClaimReply? && Possible(w, act)
    ensures HeldRunsClaimed(Act(w, act)) && OneHolder(Act(w, act))
  {
    var w', agent := Act(w, act), w.agents[act.a];
    StepKeepsIds(w.db, Claim(agent.pool));
    ClaimStarts(w.db, agent.pool);
    forall a: AgentId, j: JobId, r: RunId | Holds(w', a, j, r)
      ensures r < w'.db.nextRun
      ensures r in w'.db.runs ==> ClaimedStatus(w'.db.runs[r]) && w'.db.runs[r].pool == Some(w'.agents[a].pool)
    {
      ClaimHolds(w, act, a, j, r);
      if Holds(w, a, j, r) {
        ClaimedWasFree(w, agent.pool, a, j, r);
      }
    }
    forall a: AgentId, j: JobId, b: AgentId, k: JobId, r: RunId | Holds(w', a, j, r) && Holds(w', b, k, r)
      ensures a == b && j == k
    {
      ClaimHolds(w, act, a, j, r);
      ClaimHolds(w, act, b, k, r);
      if Holds(w, a, j, r) {
        ClaimedWasFree(w, agent.pool, a, j, r);
      }
      if Holds(w, b, k, r) {
        ClaimedWasFree(w, agent.pool, b, k, r);
      }
    }
  }

  lemma {:induction false} ClaimKeepsPreparing(w: World, act: Action)
    requires WorldOk(w) && act.ClaimReply? && Possible(w, act)
    ensures PreparingIsHeld(Act(w, act))
  {
    hide Step;
    var w', agent := Act(w, act), w.agents[act.a];
    forall r | r in w'.db.runs && w'.db.runs[r].status == Preparing
      ensures r in w'.lost || exists a: AgentId, j: JobId :: Holds(w', a, j, r)
    {
      OnlyClaimsPrepare(w.db, Claim(agent.pool), r);
      if r in w.db.runs && w.db.runs[r].status == Preparing {
        if r !in w.lost {
          var a: AgentId, j: JobId :| Holds(w, a, j, r);
          ClaimHolds(w, act, a, j, r);
        }
      } else {
        ClaimHolds(w, act, act.a, agent.started, r);
      }
    }
  }

  lemma {:induction false} ClaimKeepsWorld(w: World, act: Action)
    requires WorldOk(w) && act.ClaimReply? && Possible(w, act)
    ensures WorldOk(Act(w, act))
  {
    hide Step;
    var w', agent := Act(w, act), w.agents[act.a];
    StepKeepsIds(w.db, Claim(agent.pool));
    StepKeepsJoin(w.db, Claim(agent.pool));
    forall a | a in w'.agents
      ensures SlotsOk(w'.agents[a])
    {
      ActKeepsSlots(w, act, a);
    }
    ClaimKeepsHeld(w, act);
    ClaimKeepsPreparing(w, act);
  }

  lemma {:induction false} ExecuteHolds(w: World, act: Action, a: AgentId, j: JobId, r: RunId)
    requires act.ExecuteRun? && Possible(w, act)
    ensures Holds(Act(w, act), a, j, r) <==> Holds(w, a, j, r) && !(a == act.a && j == act.job)
  {
    hide Step, Enabled;
  }

  lemma {:induction false} ExecuteKeepsHeld(w: World, act: Action)
    requires WorldOk(w) && act.ExecuteRun? && Possible(w, act)
    ensures HeldRunsClaimed(Act(w, act)) && OneHolder(Act(w, act))
  {
    hide Step, Enabled;
    var w', ev := Act(w, act), FinishCall(w.agents[act.a], act);
    assert Holds(w, act.a, act.job, ev.run);
    StepKeepsIds(w.db, ev);
    forall a: AgentId, j: JobId, r: RunId | Holds(w', a, j, r)
      ensures r < w'.db.nextRun
      ensures r in w'.db.runs ==> ClaimedStatus(w'.db.runs[r]) && w'.db.runs[r].pool == Some(w'.agents[a].pool)
    {
      ExecuteHolds(w, act, a, j, r);
      if act.delivered {
        StepKeepsClaimed(w.db, ev, r);
      }
    }
    forall a: AgentId, j: JobId, b: AgentId, k: JobId, r: RunId | Holds(w', a, j, r) && Holds(w', b, k, r)
      ensures a == b && j == k
    {
      ExecuteHolds(w, act, a, j, r);
      ExecuteHolds(w, act, b, k, r);
    }
  }

  /** A finish call takes its run out of `preparing`, or is lost. */
  lemma {:induction false} ExecuteKeepsPreparing(w: World, act: Action)
    requires WorldOk(w) && act.ExecuteRun? && Possible(w, act)
    ensures PreparingIsHeld(Act(w, act))
  {
    hide Step, Enabled;
    var w', agent := Act(w, act), w.agents[act.a];
    var ev := FinishCall(agent, act);
    assert Holds(w, act.a, act.job, ev.run);
    forall r | r in w'.db.runs && w'.db.runs[r].status == Preparing
      ensures r in w'.lost || exists a: AgentId, j: JobId :: Holds(w', a, j, r)
    {
      if act.delivered {
        OnlyClaimsPrepare(w.db, ev, r);
      }
      if r != ev.run && r !in w.lost {
        var a: AgentId, j: JobId :| Holds(w, a, j, r);
        ExecuteHolds(w, act, a, j, r);
      }
    }
  }

  lemma {:induction false} ExecuteKeepsWorld(w: World, act: Action)
    requires WorldOk(w) && act.ExecuteRun? && Possible(w, act)
    ensures WorldOk(Act(w, act))
  {
    hide Step, Enabled, HeldRunsClaimed, OneHolder, PreparingIsHeld, SlotsOk;
    var w', ev := Act(w, act), FinishCall(w.agents[act.a], act);
    StepKeepsIds(w.db, ev);
    StepKeepsJoin(w.db, ev);
    forall a | a in w'.agents
      ensures SlotsOk(w'.agents[a])
    {
      ActKeepsSlots(w, act, a);
    }
    ExecuteKeepsHeld(w, act);
    ExecuteKeepsPreparing(w, act);
  }

  // ---- every interleaving ----------------------------------------------------------------------

  lemma {:induction false} WorldStaysOk(w: World, acts: seq<Action>)
    requires FreshWorld(w) && IsRun(w, acts)
    ensures WorldOk(Reached(w, acts))
    decreases |acts|
  {
    hide Step, Enabled;
    if acts != [] {
      var init, act := acts[..|acts| - 1], acts[|acts| - 1];
      WorldStaysOk(w, init);
      if act.Elsewhere? {
        ElsewhereKeepsWorld(Reached(w, init), act);
      } else if act.ClaimReply? {
        ClaimKeepsWorld(Reached(w, init), act);
      } else if act.ExecuteRun? {
        ExecuteKeepsWorld(Reached(w, init), act);
      } else {
        MoveKeepsWorld(Reached(w, init), act);
      }
    }
  }

  /** Between claim and finish a run is in exactly one slot of one agent: never in
      two, and a `preparing` run in none only if a message about it was lost. */
  lemma {:induction false} ClaimsAreExclusive(w: World, acts: seq<Action>, r: RunId)
    requires FreshWorld(w) && IsRun(w, acts)
    ensures forall a: AgentId, j: JobId, b: AgentId, k: JobId |
              Holds(Reached(w, acts), a, j, r) && Holds(Reached(w, acts), b, k, r) :: a == b && j == k
    ensures
      var now := Reached(w, acts);
      r in now.db.runs && now.db.runs[r].status == Preparing && r !in now.lost ==>
        exists a: AgentId, j: JobId :: Holds(now, a, j, r)
  {
    WorldStaysOk(w, acts);
  }

  /** Slots are conserved: an agent never executes more runs than its capacity, and
      runLoop returns only when every run it received has been through executeRun
      and every goroutine is gone. */
  lemma {:induction false} SlotsAreConserved(w: World, acts: seq<Action>, a: AgentId)
    requires FreshWorld(w) && IsRun(w, acts) && a in Reached(w, acts).agents
    ensures
      var agent := Reached(w, acts).agents[a];
      && |agent.executing| <= agent.sem <= agent.capacity
      && (agent.phase == Stopped ==>
            agent.executing == map[] && agent.executed == agent.started && agent.reported == 0 && agent.released == 0)
  {
    WorldStaysOk(w, acts);
    var agent := Reached(w, acts).agents[a];
    assert SlotsOk(agent);
    if agent.phase == Stopped {
      assert |agent.executing| == 0;
    }
  }

  // ---- what agents do get done --------------------------------------------------------------

  lemma {:induction false} RunSnoc(w: World, acts: seq<Action>, act: Action)
    requires IsRun(w, acts) && Possible(Reached(w, acts), act)
    ensures IsRun(w, acts + [act]) && Reached(w, acts + [act]) == Act(Reached(w, acts), act)
  {
    hide Act, Possible;
    assert (acts + [act])[..|acts|] == acts;
  }

  /** A poll of an agent with a free slot takes the oldest claimable run of its pool, if the messages
      get through; a poll of a full one takes nothing. */
  lemma {:induction false} PollClaimsIff(w: World, acts: seq<Action>, a: AgentId, r: RunId)
    requires FreshWorld(w) && IsRun(w, acts) && a in Reached(w, acts).agents
    requires Reached(w, acts).agents[a].phase == Polling && IsOldestClaimable(Reached(w, acts).db.runs, Reached(w, acts).agents[a].pool, r)
    ensures
      var agent := Reached(w, acts).agents[a];
      var polled := acts + [Tick(a)] + [TakeSlot(a)];
      && IsRun(w, polled) && a in Reached(w, polled).agents
      && (Possible(Reached(w, polled), ClaimReply(a, true)) <==> |agent.executing| + agent.reported < agent.capacity)
      && (|agent.executing| + agent.reported < agent.capacity ==>
            var now := Act(Reached(w, polled), ClaimReply(a, true));
            && Holds(now, a, agent.started, r) && now.agents[a].sem == agent.sem + 1
            && r in now.db.runs && now.db.runs[r].status == Preparing)
      && (|agent.executing| + agent.reported == agent.capacity ==> Reached(w, polled).agents[a] == agent)
  {
    hide Step, Enabled, IsOldestClaimable;
    WorldStaysOk(w, acts);
    RunSnoc(w, acts, Tick(a));
    RunSnoc(w, acts + [Tick(a)], TakeSlot(a));
    var polled := acts + [Tick(a)] + [TakeSlot(a)];
    var agent, now := Reached(w, acts).agents[a], Reached(w, polled);
    assert SlotsOk(agent);
    if |agent.executing| + agent.reported < agent.capacity {
      ClaimedIsOldest(now.db, agent.pool, r);
      ClaimStarts(now.db, agent.pool);
    }
  }

  lemma {:induction false} ClaimedIsOldest(db: Db, pool: PoolId, r: RunId)
    requires IsOldestClaimable(db.runs, pool, r)
    ensures ClaimedRun(db, pool) == Some(r)
  {
  }

  /** How far an agent is from having stopped. */
  function Unstopped(agent: Agent): nat {
    match agent.phase
    case Draining => 4
    case Claiming => 3
    case Polling => 2
    case Waiting => 1
    case Stopped => 0
  }

  function Pending(agent: Agent): nat {
    3 * |agent.executing| + 2 * agent.reported + agent.released
  }

  /** The next move of an agent on its way to a stop: it lets its goroutines come to an end. */
  lemma {:induction false} NextMove(db: Db, agent: Agent, a: AgentId) returns (act: Action)
    requires SlotsOk(agent) && agent.phase != Stopped
    ensures !act.Elsewhere? && !act.ClaimReply? && act.a == a && AgentMay(db, agent, act)
    ensures act.ExecuteRun? ==> agent.phase == Waiting
    ensures !act.ExecuteRun? ==>
      var next := Move(agent, act);
      || Unstopped(next) < Unstopped(agent)
      || (Unstopped(next) == Unstopped(agent) && Pending(next) < Pending(agent))
  {
    if agent.phase == Polling {
      act := Shutdown(a);
    } else if agent.phase == Draining {
      act := TakeSlot(a);
    } else if agent.phase == Claiming {
      act := ClaimUnsent(a);
    } else if agent.reported > 0 {
      act := GiveBackSlot(a);
    } else if agent.released > 0 {
      act := GoroutineEnds(a);
    } else if agent.executing != map[] {
      var job :| job in agent.executing;
      act := ExecuteRun(a, job, false, PostPlanGate.Verdict(false, false, false), LoadFailed, [], true);
    } else {
      act := WaitReturns(a);
    }
  }

  lemma {:induction false} ExecutionPends(w: World, act: Action)
    requires act.ExecuteRun? && Possible(w, act)
    ensures act.a in Execute(w, act).agents && Execute(w, act).agents[act.a].phase == w.agents[act.a].phase
    ensures Pending(Execute(w, act).agents[act.a]) < Pending(w.agents[act.a])
  {
    hide Step, Enabled;
    var agent := w.agents[act.a];
    var rest := agent.executing - {act.job};
    assert agent.executing.Keys == rest.Keys + {act.job};
    assert |agent.executing.Keys| == |rest.Keys| + 1;
  }

  /** No agent is ever stuck: from every reachable world each one can be shut down, and then stops
      with every run it received executed and reported. */
  lemma {:induction false} ShutdownCompletes(w: World, acts: seq<Action>, a: AgentId) returns (all: seq<Action>)
    requires FreshWorld(w) && IsRun(w, acts) && a in Reached(w, acts).agents
    ensures acts <= all && IsRun(w, all) && a in Reached(w, all).agents
    ensures
      var agent := Reached(w, all).agents[a];
      agent.phase == Stopped && agent.executing == map[] && agent.executed == agent.started
    decreases Unstopped(Reached(w, acts).agents[a]), Pending(Reached(w, acts).agents[a])
  {
    hide Step, Enabled, Move, Execute, AgentMay, FreshWorld;
    var now := Reached(w, acts);
    WorldStaysOk(w, acts);
    if now.agents[a].phase == Stopped {
      all := acts;
      SlotsAreConserved(w, acts, a);
    } else {
      var act := NextMove(now.db, now.agents[a], a);
      RunSnoc(w, acts, act);
      if act.ExecuteRun? {
        ExecutionPends(now, act);
      }
      all := ShutdownCompletes(w, acts + [act], a);
    }
  }
}
