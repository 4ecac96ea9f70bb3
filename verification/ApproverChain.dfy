/** Sequential approver chains: concurrent REST approvals of one run, interleaved
    statement by statement with each other and with every other handler. */
module ApproverChain {
  import opened Options

  type User = nat
  type ThreadId = nat

  datatype ChainStep = ChainStep(name: string, approvers: seq<User>)

  /** A row of run_chain_approvals; (step, approver) is unique. */
  datatype Approval = Approval(step: int, approver: User)

  /** The run's status as far as the chain handler tells statuses apart. */
  datatype Status = PendingApproval | Unconfirmed | Other

  // ---- reading progress off the rows --------------------------------------------------

  predicate IsApproved(rows: seq<Approval>, i: int) {
    exists a :: a in rows && a.step == i
  }

  /** First step without a row, or the chain length. */
  ghost function NextPending(rows: seq<Approval>, n: nat): (i: nat)
    ensures i <= n
    ensures forall j | 0 <= j < i :: IsApproved(rows, j)
    ensures i < n ==> !IsApproved(rows, i)
  {
    FirstPendingFrom(rows, 0, n)
  }

  ghost function FirstPendingFrom(rows: seq<Approval>, i: nat, n: nat): (k: nat)
    requires i <= n
    ensures i <= k <= n
    ensures forall j | i <= j < k :: IsApproved(rows, j)
    ensures k < n ==> !IsApproved(rows, k)
    decreases n - i
  {
    if i == n || !IsApproved(rows, i) then i else FirstPendingFrom(rows, i + 1, n)
  }

  function Recorded(rows: seq<Approval>, step: int, user: User): seq<Approval> {
    if Approval(step, user) in rows then rows else rows + [Approval(step, user)]
  }

  // ---- the protocol ------------------------------------------------------------------------

  /** Where one approve request stands between two of its statements. */
  datatype Request =
    | CheckingStatus(user: User)
    | ReadingStep(user: User)
    | Inserting(user: User, step: nat)
    | Rereading(user: User, wrote: nat)
    | Updating(user: User, inserted: Option<nat>)  // None: it found the chain satisfied
    | Refused(user: User)
    | Done(user: User)

  datatype State = State(rows: seq<Approval>, status: Status, approvedBy: Option<User>,
                         requests: map<ThreadId, Request>)

  datatype Event =
    | Begin(t: ThreadId, user: User)     // a request reaches approveWithChain
    | Statement(t: ThreadId)             // it executes its next SQL statement
    | Elsewhere(status: Status)          // some other handler updates the run's status

  function Continue(s: State, t: ThreadId, req: Request): State {
    s.(requests := s.requests[t := req])
  }

  ghost function Execute(chain: seq<ChainStep>, s: State, t: ThreadId): State
    requires t in s.requests
  {
    var n := |chain|;
    match s.requests[t]
    case CheckingStatus(u) =>
      Continue(s, t, if s.status == PendingApproval then ReadingStep(u) else Refused(u))
    case ReadingStep(u) =>
      var cur := NextPending(s.rows, n);
      Continue(s, t, if cur >= n then Updating(u, None)
                     else if u in chain[cur].approvers then Inserting(u, cur)
                     else Refused(u))
    case Inserting(u, step) =>
      Continue(s.(rows := Recorded(s.rows, step, u)), t, Rereading(u, step))
    case Rereading(u, wrote) =>
      Continue(s, t, if NextPending(s.rows, n) < n then Done(u) else Updating(u, Some(wrote)))
    case Updating(u, _) =>
      Continue(if s.status == PendingApproval then s.(status := Unconfirmed, approvedBy := Some(u)) else s, t, Done(u))
    case _ => s
  }

  ghost function Step(chain: seq<ChainStep>, s: State, ev: Event): State {
    match ev
    case Begin(t, u) => if t in s.requests then s else Continue(s, t, CheckingStatus(u))
    case Statement(t) => if t in s.requests then Execute(chain, s, t) else s
    case Elsewhere(status) => s.(status := status)
  }

  ghost function Run(chain: seq<ChainStep>, s: State, evs: seq<Event>): State {
    if evs == [] then s else Step(chain, Run(chain, s, evs[..|evs| - 1]), evs[|evs| - 1])
  }

  const START := State([], PendingApproval, None, map[])

  // ---- the invariant -----------------------------------------------------------------------------

  /** Approved steps are an initial segment, and every row is by a listed approver. */
  ghost predicate PrefixApproved(chain: seq<ChainStep>, rows: seq<Approval>) {
    && (forall a | a in rows :: 0 <= a.step < |chain| && a.approver in chain[a.step].approvers)
    && (forall i, j | 0 <= j < i && IsApproved(rows, i) :: IsApproved(rows, j))
  }

  ghost predicate AllApproved(chain: seq<ChainStep>, rows: seq<Approval>) {
    forall i | 0 <= i < |chain| :: IsApproved(rows, i)
  }

  ghost predicate RequestOk(chain: seq<ChainStep>, rows: seq<Approval>, req: Request) {
    match req
    case Inserting(u, step) =>
      step < |chain| && u in chain[step].approvers && forall j | 0 <= j < step :: IsApproved(rows, j)
    case Rereading(u, wrote) => Approval(wrote, u) in rows
    case Updating(u, wrote) => AllApproved(chain, rows) && (wrote.Some? ==> Approval(wrote.value, u) in rows)
    case _ => true
  }

  ghost predicate Invariant(chain: seq<ChainStep>, s: State) {
    PrefixApproved(chain, s.rows) && forall t | t in s.requests :: RequestOk(chain, s.rows, s.requests[t])
  }

  /** Rows are only ever added, so what a request has read stays true. */
  lemma {:induction false} RecordingKeepsRequests(chain: seq<ChainStep>, rows: seq<Approval>, step: int, u: User, req: Request)
    requires RequestOk(chain, rows, req)
    ensures RequestOk(chain, Recorded(rows, step, u), req)
  {
    RecordingOnlyAdds(rows, step, u);
  }

  lemma {:induction false} RecordingOnlyAdds(rows: seq<Approval>, step: int, u: User)
    ensures forall a | a in rows :: a in Recorded(rows, step, u)
    ensures Approval(step, u) in Recorded(rows, step, u)
    ensures forall i: int :: IsApproved(Recorded(rows, step, u), i) <==> i == step || IsApproved(rows, i)
  {
    var next := Recorded(rows, step, u);
    forall i: int
      ensures IsApproved(next, i) <==> i == step || IsApproved(rows, i)
    {
      if IsApproved(rows, i) {
        var a :| a in rows && a.step == i;
        assert a in next;
      }
      assert Approval(step, u) in next;
    }
  }

  lemma {:induction false} StepKeepsInvariant(chain: seq<ChainStep>, s: State, ev: Event)
    requires Invariant(chain, s)
    ensures Invariant(chain, Step(chain, s, ev))
  {
    var s' := Step(chain, s, ev);
    if ev.Statement? && ev.t in s.requests && s.requests[ev.t].Inserting? {
      var req := s.requests[ev.t];
      RecordingOnlyAdds(s.rows, req.step, req.user);
      forall t | t in s'.requests
        ensures RequestOk(chain, s'.rows, s'.requests[t])
      {
        if t != ev.t {
          RecordingKeepsRequests(chain, s.rows, req.step, req.user, s.requests[t]);
        }
      }
    }
  }

  /** Under every interleaving of any number of requests and of other handlers:
      approved steps form an initial segment, each by an approver listed in it. */
  lemma {:induction false} ChainPrefixInvariant(chain: seq<ChainStep>, evs: seq<Event>)
    ensures Invariant(chain, Run(chain, START, evs))
  {
    if evs != [] {
      ChainPrefixInvariant(chain, evs[..|evs| - 1]);
      StepKeepsInvariant(chain, Run(chain, START, evs[..|evs| - 1]), evs[|evs| - 1]);
    }
  }

  ghost predicate ApprovedByListed(chain: seq<ChainStep>, rows: seq<Approval>, i: int)
    requires 0 <= i < |chain|
  {
    exists a :: a in rows && a.step == i && a.approver in chain[i].approvers
  }

  /** The chain path moves a run to `unconfirmed` only when every step has a row by
      one of its own approvers. */
  lemma {:induction false} OnlyACompleteChainUnlocks(chain: seq<ChainStep>, evs: seq<Event>, t: ThreadId)
    requires
      var s := Run(chain, START, evs);
      s.status == PendingApproval && Step(chain, s, Statement(t)).status != PendingApproval
    ensures forall i | 0 <= i < |chain| :: ApprovedByListed(chain, Run(chain, START, evs).rows, i)
    ensures
      var s := Run(chain, START, evs);
      && t in s.requests && s.requests[t].Updating?
      && Step(chain, s, Statement(t)).status == Unconfirmed
      && Step(chain, s, Statement(t)).approvedBy == Some(s.requests[t].user)
  {
    var s := Run(chain, START, evs);
    ChainPrefixInvariant(chain, evs);
    forall i | 0 <= i < |chain|
      ensures ApprovedByListed(chain, s.rows, i)
    {
      assert IsApproved(s.rows, i);
    }
  }

  // ---- runs that somebody else took out of pending ------------------------------------------

  /** No statement of a request touches the run once it is not pending. */
  lemma {:induction false} StatementsSpareOthers(chain: seq<ChainStep>, s: State, t: ThreadId)
    requires s.status != PendingApproval
    ensures Step(chain, s, Statement(t)).status == s.status && Step(chain, s, Statement(t)).approvedBy == s.approvedBy
  {
  }

  /** The status the other handlers leave, out of a given one. */
  function LastElsewhere(status: Status, evs: seq<Event>): Status {
    if evs == [] then status
    else if evs[|evs| - 1].Elsewhere? then evs[|evs| - 1].status
    else LastElsewhere(status, evs[..|evs| - 1])
  }

  /** A run that another handler took out of `pending_approval`, by a cancel, a discard or a chat link,
      is that handler's from then on: whatever chain requests are in flight or still begin, its
      status is what the other handlers made it, approved_by keeps its value, and requests that
      begin after are turned away without a row. */
  lemma {:induction false} OutOfPendingIsOut(chain: seq<ChainStep>, evs: seq<Event>, more: seq<Event>)
    requires Run(chain, START, evs).status != PendingApproval && Elsewhere(PendingApproval) !in more
    ensures
      var was, now := Run(chain, START, evs), Run(chain, START, evs + more);
      && now.status == LastElsewhere(was.status, more) != PendingApproval
      && now.approvedBy == was.approvedBy
      && forall t | t in now.requests && t !in was.requests :: now.requests[t].CheckingStatus? || now.requests[t].Refused?
    decreases |more|
  {
    if more == [] {
      assert evs + more == evs;
    } else {
      var init, ev := more[..|more| - 1], more[|more| - 1];
      assert evs + more == evs + init + [ev];
      OutOfPendingIsOut(chain, evs, init);
      RunSnoc(chain, evs + init, ev);
      var s := Run(chain, START, evs + init);
      if ev.Statement? {
        StatementsSpareOthers(chain, s, ev.t);
      }
    }
  }

  /** The interleaving at stake: the run is taken out of pending while a request, having found the
      chain complete, is about to update it. */
  lemma {:induction false} OvertakenUpdate(chain: seq<ChainStep>, evs: seq<Event>, t: ThreadId, u: User, wrote: Option<nat>, other: Status)
    requires
      var s := Run(chain, START, evs);
      t in s.requests && s.requests[t] == Updating(u, wrote) && other != PendingApproval
    ensures
      var was, now := Run(chain, START, evs), Run(chain, START, evs + [Elsewhere(other)] + [Statement(t)]);
      now.status == other && now.approvedBy == was.approvedBy && now.rows == was.rows && t in now.requests && now.requests[t] == Done(u)
  {
    RunSnoc(chain, evs, Elsewhere(other));
    RunSnoc(chain, evs + [Elsewhere(other)], Statement(t));
  }

  // ---- who ends up in approved_by ---------------------------------------------------------

  /** In state s request t performs the update, having inserted the given step itself
      (or nothing), and so puts user u into approved_by. */
  ghost predicate Credits(chain: seq<ChainStep>, s: State, t: ThreadId, u: User, wrote: Option<nat>) {
    && t in s.requests && s.requests[t] == Updating(u, wrote) && s.status == PendingApproval
    && Step(chain, s, Statement(t)).status == Unconfirmed && Step(chain, s, Statement(t)).approvedBy == Some(u)
  }

  /** u has approved the last step, as the comment on the update promises. */
  ghost predicate SatisfiedLastStep(chain: seq<ChainStep>, rows: seq<Approval>, u: User) {
    Approval(|chain| - 1, u) in rows
  }

  /** Some interleaving credits u, by way of the given insert, although u has not approved the last step. */
  ghost predicate CanMiscredit(chain: seq<ChainStep>, u: User, wrote: Option<nat>) {
    exists evs: seq<Event>, t: ThreadId ::
      var s := Run(chain, START, evs);
      Credits(chain, s, t, u, wrote) && !SatisfiedLastStep(chain, s.rows, u)
  }

  ghost predicate EveryStepHasApprover(chain: seq<ChainStep>) {
    forall i | 0 <= i < |chain| :: chain[i].approvers != []
  }

  ghost predicate AnotherApprover(step: ChainStep, u: User) {
    exists w :: w in step.approvers && w != u
  }

  /** In every execution: a request that inserted the last step itself earns the credit it takes. */
  lemma {:induction false} LastInserterEarnsCredit(chain: seq<ChainStep>, evs: seq<Event>, t: ThreadId, u: User)
    requires chain != [] && Credits(chain, Run(chain, START, evs), t, u, Some(|chain| - 1))
    ensures SatisfiedLastStep(chain, Run(chain, START, evs).rows, u) && u in chain[|chain| - 1].approvers
  {
    ChainPrefixInvariant(chain, evs);
    assert RequestOk(chain, Run(chain, START, evs).rows, Updating(u, Some(|chain| - 1)));
  }

  /** Exactly when approved_by can name a user who did not approve the last step, for every
      chain, every user and every way into the update: never if the request itself inserted the
      last step; otherwise whenever the chain can be satisfied at all, its last step has some
      other approver, and the user may insert the step it inserted, which is no condition at
      all on a request that inserted none. */
  lemma {:induction false} CreditExactlyByLastInsert(chain: seq<ChainStep>, u: User, wrote: Option<nat>)
    requires chain != []
    ensures CanMiscredit(chain, u, wrote) <==>
      && EveryStepHasApprover(chain) && AnotherApprover(chain[|chain| - 1], u)
      && (wrote.Some? ==> wrote.value < |chain| - 1 && u in chain[wrote.value].approvers)
  {
    if CanMiscredit(chain, u, wrote) {
      MiscreditNeeds(chain, u, wrote);
    }
    if EveryStepHasApprover(chain) && AnotherApprover(chain[|chain| - 1], u) {
      var w :| w in chain[|chain| - 1].approvers && w != u;
      if wrote.None? {
        LateRequestTakesCredit(chain, u, w);
      } else if wrote.value < |chain| - 1 && u in chain[wrote.value].approvers {
        SlowRequestTakesCredit(chain, u, wrote.value, w);
      }
    }
  }

  lemma {:induction false} MiscreditNeeds(chain: seq<ChainStep>, u: User, wrote: Option<nat>)
    requires chain != [] && CanMiscredit(chain, u, wrote)
    ensures EveryStepHasApprover(chain) && AnotherApprover(chain[|chain| - 1], u)
    ensures wrote.Some? ==> wrote.value < |chain| - 1 && u in chain[wrote.value].approvers
  {
    var evs: seq<Event>, t: ThreadId :|
      Credits(chain, Run(chain, START, evs), t, u, wrote) && !SatisfiedLastStep(chain, Run(chain, START, evs).rows, u);
    var s := Run(chain, START, evs);
    ChainPrefixInvariant(chain, evs);
    assert RequestOk(chain, s.rows, s.requests[t]);
    forall i | 0 <= i < |chain|
      ensures exists w :: w in chain[i].approvers && Approval(i, w) in s.rows
    {
      assert IsApproved(s.rows, i);
      var a :| a in s.rows && a.step == i;
      assert a == Approval(i, a.approver);
    }
    var last := |chain| - 1;
    var w :| w in chain[last].approvers && Approval(last, w) in s.rows;
    assert w != u;
  }

  // ---- interleavings that take the credit ------------------------------------------------------

  lemma {:induction false} RunSnoc(chain: seq<ChainStep>, evs: seq<Event>, ev: Event)
    ensures Run(chain, START, evs + [ev]) == Step(chain, Run(chain, START, evs), ev)
  {
    assert (evs + [ev])[..|evs|] == evs;
  }

  lemma {:induction false} Above(xs: set<ThreadId>) returns (t: ThreadId)
    ensures forall x | x in xs :: x < t
    decreases xs
  {
    if xs == {} {
      t := 0;
    } else {
      var x :| x in xs;
      var above := Above(xs - {x});
      t := if x < above then above else x + 1;
      assert forall y | y in xs :: y == x || y in xs - {x};
    }
  }

  /** The run is pending, the first k steps are approved and no other. */
  ghost predicate Pending(chain: seq<ChainStep>, s: State, k: nat) {
    s.status == PendingApproval && Invariant(chain, s) && NextPending(s.rows, |chain|) == k
  }

  /** Requests that do nothing in between stay where they are. */
  ghost predicate KeepsRequests(s: State, s': State) {
    forall t | t in s.requests :: t in s'.requests && s'.requests[t] == s.requests[t]
  }

  /** A new request gets as far as having read the pending step. */
  lemma {:induction false} ReadsStep(chain: seq<ChainStep>, evs: seq<Event>, u: User) returns (more: seq<Event>, t: ThreadId)
    requires Run(chain, START, evs).status == PendingApproval
    ensures
      var s, s' := Run(chain, START, evs), Run(chain, START, more);
      var cur := NextPending(s.rows, |chain|);
      && s'.rows == s.rows && s'.status == PendingApproval && t !in s.requests && t in s'.requests && KeepsRequests(s, s')
      && s'.requests[t] == (if cur >= |chain| then Updating(u, None)
                            else if u in chain[cur].approvers then Inserting(u, cur) else Refused(u))
  {
    t := Above(Run(chain, START, evs).requests.Keys);
    assert t !in Run(chain, START, evs).requests.Keys;
    var e1 := evs + [Begin(t, u)];
    var e2 := e1 + [Statement(t)];
    more := e2 + [Statement(t)];
    RunSnoc(chain, evs, Begin(t, u));
    RunSnoc(chain, e1, Statement(t));
    RunSnoc(chain, e2, Statement(t));
  }

  /** A listed approver of the pending step inserts its approval and pauses there. */
  lemma {:induction false} InsertsStep(chain: seq<ChainStep>, evs: seq<Event>, k: nat, u: User) returns (more: seq<Event>)
    requires k < |chain| && Pending(chain, Run(chain, START, evs), k) && u in chain[k].approvers
    ensures
      var s, s' := Run(chain, START, evs), Run(chain, START, more);
      Pending(chain, s', k + 1) && s'.rows == s.rows + [Approval(k, u)] && KeepsRequests(s, s')
  {
    var s := Run(chain, START, evs);
    var e, t := ReadsStep(chain, evs, u);
    more := e + [Statement(t)];
    RunSnoc(chain, e, Statement(t));
    ChainPrefixInvariant(chain, more);
    NextRowIsNew(chain, s.rows, k, u);
  }

  /** Approving the pending step adds a row and makes the next one pending. */
  lemma {:induction false} NextRowIsNew(chain: seq<ChainStep>, rows: seq<Approval>, k: nat, u: User)
    requires PrefixApproved(chain, rows) && NextPending(rows, |chain|) == k < |chain|
    ensures Recorded(rows, k, u) == rows + [Approval(k, u)]
    ensures NextPending(rows + [Approval(k, u)], |chain|) == k + 1
    ensures forall a | a in rows :: a.step != k
  {
    assert !IsApproved(rows, k);
    RecordingOnlyAdds(rows, k, u);
    assert !IsApproved(rows, k + 1);
  }

  /** Any approvers of the steps from k on to m insert their approvals. */
  lemma {:induction false} AdvanceTo(chain: seq<ChainStep>, evs: seq<Event>, k: nat, m: nat) returns (more: seq<Event>)
    requires k <= m <= |chain| && EveryStepHasApprover(chain) && Pending(chain, Run(chain, START, evs), k)
    ensures Pending(chain, Run(chain, START, more), m)
    ensures KeepsRequests(Run(chain, START, evs), Run(chain, START, more))
    ensures forall a | a in Run(chain, START, evs).rows :: a in Run(chain, START, more).rows
    decreases m - k
  {
    more := evs;
    if k < m {
      var e := InsertsStep(chain, evs, k, chain[k].approvers[0]);
      more := AdvanceTo(chain, e, k + 1, m);
    }
  }

  lemma {:induction false} StartIsPending(chain: seq<ChainStep>)
    ensures Pending(chain, Run(chain, START, []), 0)
  {
    assert !IsApproved([], 0);
  }

  /** All steps approved, the last one by w alone, and nobody has performed the update yet. */
  lemma {:induction false} SatisfyBy(chain: seq<ChainStep>, evs: seq<Event>, k: nat, w: User) returns (more: seq<Event>)
    requires chain != [] && k < |chain| && EveryStepHasApprover(chain) && w in chain[|chain| - 1].approvers
    requires Pending(chain, Run(chain, START, evs), k)
    ensures
      var s, s' := Run(chain, START, evs), Run(chain, START, more);
      && Pending(chain, s', |chain|) && KeepsRequests(s, s')
      && (forall a | a in s.rows :: a in s'.rows)
      && forall a | a in s'.rows && a.step == |chain| - 1 :: a.approver == w
  {
    var last := |chain| - 1;
    var e := AdvanceTo(chain, evs, k, last);
    NextRowIsNew(chain, Run(chain, START, e).rows, last, w);
    more := InsertsStep(chain, e, last, w);
  }

  /** First way: a request that begins once the chain is satisfied performs the update, by any user at all. */
  lemma {:induction false} LateRequestTakesCredit(chain: seq<ChainStep>, u: User, w: User)
    requires chain != [] && EveryStepHasApprover(chain) && w in chain[|chain| - 1].approvers && w != u
    ensures CanMiscredit(chain, u, None)
  {
    StartIsPending(chain);
    var e := SatisfyBy(chain, [], 0, w);
    var more, t := ReadsStep(chain, e, u);
    assert Credits(chain, Run(chain, START, more), t, u, None);
  }

  /** Second way: a request that read step k before it was approved inserts only after everybody
      else has, rereads a complete chain and performs the update. */
  lemma {:induction false} SlowRequestTakesCredit(chain: seq<ChainStep>, u: User, k: nat, w: User)
    requires chain != [] && EveryStepHasApprover(chain) && w in chain[|chain| - 1].approvers && w != u
    requires k < |chain| - 1 && u in chain[k].approvers
    ensures CanMiscredit(chain, u, Some(k))
  {
    StartIsPending(chain);
    var e0 := AdvanceTo(chain, [], 0, k);
    var e1, t := ReadsStep(chain, e0, u);
    ChainPrefixInvariant(chain, e1);
    var e2 := InsertsStep(chain, e1, k, u);
    var e3 := SatisfyBy(chain, e2, k + 1, w);
    var more := RepeatsInsert(chain, e3, t, u, k);
    assert Credits(chain, Run(chain, START, more), t, u, Some(k));
  }

  /** An insert that finds its row present, on a chain that is complete by now. */
  lemma {:induction false} RepeatsInsert(chain: seq<ChainStep>, evs: seq<Event>, t: ThreadId, u: User, k: nat) returns (more: seq<Event>)
    requires
      var s := Run(chain, START, evs);
      && Pending(chain, s, |chain|) && Approval(k, u) in s.rows
      && t in s.requests && s.requests[t] == Inserting(u, k)
    ensures Credits(chain, Run(chain, START, more), t, u, Some(k))
    ensures Run(chain, START, more).rows == Run(chain, START, evs).rows
  {
    var e := evs + [Statement(t)];
    more := e + [Statement(t)];
    RunSnoc(chain, evs, Statement(t));
    RunSnoc(chain, e, Statement(t));
  }

  ghost predicate SatisfiedWhilePending(chain: seq<ChainStep>, evs: seq<Event>) {
    var s := Run(chain, START, evs);
    s.status == PendingApproval && AllApproved(chain, s.rows)
  }

  /** A chain can be satisfied while the run is still pending exactly if every step has an approver. */
  lemma {:induction false} SatisfiedWhilePendingIsReachable(chain: seq<ChainStep>)
    ensures EveryStepHasApprover(chain) <==> exists evs :: SatisfiedWhilePending(chain, evs)
  {
    if EveryStepHasApprover(chain) {
      StartIsPending(chain);
      var evs := AdvanceTo(chain, [], 0, |chain|);
      assert SatisfiedWhilePending(chain, evs);
    }
    if evs :| SatisfiedWhilePending(chain, evs) {
      ChainPrefixInvariant(chain, evs);
      forall i | 0 <= i < |chain|
        ensures chain[i].approvers != []
      {
        assert IsApproved(Run(chain, START, evs).rows, i);
      }
    }
  }

  /** The statements of one request, begun and run to its end without interleaving. */
  function Alone(t: ThreadId, u: User): seq<Event> {
    [Begin(t, u), Statement(t), Statement(t), Statement(t), Statement(t), Statement(t)]
  }

  /** What such a request has read after its first two statements. */
  lemma {:induction false} AloneReads(chain: seq<ChainStep>, evs: seq<Event>, t: ThreadId, u: User)
    requires t !in Run(chain, START, evs).requests
    ensures
      var s, s' := Run(chain, START, evs), Run(chain, START, evs + Alone(t, u)[..3]);
      var cur := NextPending(s.rows, |chain|);
      && s'.rows == s.rows && s'.status == s.status && s'.approvedBy == s.approvedBy && t in s'.requests
      && s'.requests[t] == (if s.status != PendingApproval then Refused(u)
                            else if cur >= |chain| then Updating(u, None)
                            else if u in chain[cur].approvers then Inserting(u, cur) else Refused(u))
  {
    RunSnoc(chain, evs, Begin(t, u));
    RunSnoc(chain, evs + [Begin(t, u)], Statement(t));
    RunSnoc(chain, evs + [Begin(t, u)] + [Statement(t)], Statement(t));
    assert evs + [Begin(t, u)] + [Statement(t)] + [Statement(t)] == evs + Alone(t, u)[..3];
  }

  /** Three more statements of one request. */
  ghost function Thrice(chain: seq<ChainStep>, s: State, t: ThreadId): State {
    Step(chain, Step(chain, Step(chain, s, Statement(t)), Statement(t)), Statement(t))
  }

  /** A request that inserts its approval of the pending step, and rereads. */
  lemma {:induction false} AloneWrites(chain: seq<ChainStep>, s: State, t: ThreadId, u: User, cur: nat)
    requires PrefixApproved(chain, s.rows) && NextPending(s.rows, |chain|) == cur < |chain| && s.status == PendingApproval
    requires t in s.requests && s.requests[t] == Inserting(u, cur)
    ensures
      var s' := Thrice(chain, s, t);
      && t in s'.requests && s'.requests[t] == Done(u) && s'.rows == s.rows + [Approval(cur, u)]
      && (if cur + 1 >= |chain| then s'.status == Unconfirmed && s'.approvedBy == Some(u)
          else s'.status == s.status && s'.approvedBy == s.approvedBy)
  {
    hide NextPending, Recorded, PrefixApproved;
    NextRowIsNew(chain, s.rows, cur, u);
  }

  /** A request that found the chain complete, or was refused. */
  lemma {:induction false} AloneWritesNothing(chain: seq<ChainStep>, s: State, t: ThreadId, u: User)
    requires t in s.requests
    requires s.requests[t] == Refused(u) || (s.requests[t] == Updating(u, None) && s.status == PendingApproval)
    ensures
      var s' := Thrice(chain, s, t);
      && t in s'.requests && s'.rows == s.rows
      && (if s.requests[t] == Refused(u)
          then s'.requests[t] == Refused(u) && s'.status == s.status && s'.approvedBy == s.approvedBy
          else s'.requests[t] == Done(u) && s'.status == Unconfirmed && s'.approvedBy == Some(u))
  {
  }

  /** Whatever interleaving came before, a request that is then left alone does what approveWithChain
      does: it ends, adds its row exactly if it may, and unlocks the run exactly if that completes
      the chain or it was complete. */
  lemma {:induction false} LeftAloneItCompletes(chain: seq<ChainStep>, evs: seq<Event>, t: ThreadId, u: User)
    requires t !in Run(chain, START, evs).requests
    ensures
      var s, s', cur := Run(chain, START, evs), Run(chain, START, evs + Alone(t, u)),
                        NextPending(Run(chain, START, evs).rows, |chain|);
      && t in s'.requests && (s'.requests[t] == Refused(u) || s'.requests[t] == Done(u))
      && (s'.requests[t] == Refused(u) <==>
            s.status != PendingApproval || (cur < |chain| && u !in chain[cur].approvers))
      && s'.rows == (if s'.requests[t] == Done(u) && cur < |chain| then s.rows + [Approval(cur, u)] else s.rows)
      && (if s'.requests[t] == Done(u) && cur + 1 >= |chain|
          then s'.status == Unconfirmed && s'.approvedBy == Some(u)
          else s'.status == s.status && s'.approvedBy == s.approvedBy)
  {
    hide NextPending, Recorded, PrefixApproved, RequestOk, Step;
    ChainPrefixInvariant(chain, evs);
    AloneReads(chain, evs, t, u);
    var e3 := evs + Alone(t, u)[..3];
    var s3 := Run(chain, START, e3);
    RunSnoc(chain, e3, Statement(t));
    RunSnoc(chain, e3 + [Statement(t)], Statement(t));
    RunSnoc(chain, e3 + [Statement(t)] + [Statement(t)], Statement(t));
    assert e3 + [Statement(t)] + [Statement(t)] + [Statement(t)] == evs + Alone(t, u);
    if s3.requests[t].Inserting? {
      AloneWrites(chain, s3, t, u, s3.requests[t].step);
    } else {
      AloneWritesNothing(chain, s3, t, u);
    }
  }

  // ---- the handler, one request at a time ------------------------------------------------------

  datatype StepStatus = StepStatus(index: nat, name: string, approved: bool, approvedBy: Option<User>)

  datatype Outcome = Conflict | Forbidden | Advanced(next: nat) | Approved

  /** `nextPendingStep`: fill a map from the rows, then scan it. */
  method NextPendingStep(rows: seq<Approval>, chainLen: nat) returns (next: nat)
    ensures next == NextPending(rows, chainLen)
  {
    var approved: map<int, bool> := map[];
    for i := 0 to |rows|
      invariant forall k: int :: k in approved <==> exists a :: a in rows[..i] && a.step == k
    {
      approved := approved[rows[i].step := true];
      assert rows[..i + 1] == rows[..i] + [rows[i]];
    }
    assert rows[..|rows|] == rows;
    assert forall k: int :: k in approved <==> IsApproved(rows, k);
    for i := 0 to chainLen
      invariant forall j | 0 <= j < i :: IsApproved(rows, j)
    {
      if i !in approved {
        assert !IsApproved(rows, i);
        return i;
      }
    }
    next := chainLen;
  }

  /** `loadChainStatus`: the progress view of the run page. */
  method LoadChainStatus(chain: seq<ChainStep>, rows: seq<Approval>) returns (out: seq<StepStatus>)
    requires PrefixApproved(chain, rows)
    ensures |out| == |chain|
    ensures forall i | 0 <= i < |out| :: out[i].index == i && out[i].name == chain[i].name
    ensures forall i | 0 <= i < |out| :: out[i].approved <==> i < NextPending(rows, |chain|)
    ensures forall i | 0 <= i < |out| && out[i].approved ::
      out[i].approvedBy.Some? && Approval(i, out[i].approvedBy.value) in rows
      && out[i].approvedBy.value in chain[i].approvers
  {
    var approvals: map<int, User> := map[];
    for i := 0 to |rows|
      invariant forall k: int :: k in approvals <==> exists a :: a in rows[..i] && a.step == k
      invariant forall k | k in approvals :: Approval(k, approvals[k]) in rows
    {
      approvals := approvals[rows[i].step := rows[i].approver];
      assert rows[..i + 1] == rows[..i] + [rows[i]];
      assert rows[i] == Approval(rows[i].step, rows[i].approver) && rows[i] in rows;
    }
    assert rows[..|rows|] == rows;
    assert forall k: int :: k in approvals <==> IsApproved(rows, k);
    out := [];
    for i := 0 to |chain|
      invariant |out| == i
      invariant forall k | 0 <= k < i :: out[k].index == k && out[k].name == chain[k].name
      invariant forall k | 0 <= k < i :: out[k].approved <==> IsApproved(rows, k)
      invariant forall k | 0 <= k < i && out[k].approved ::
        out[k].approvedBy.Some? && Approval(k, out[k].approvedBy.value) in rows
    {
      var status := StepStatus(i, chain[i].name, false, None);
      if i in approvals {
        status := status.(approved := true, approvedBy := Some(approvals[i]));
      }
      out := out + [status];
    }
    forall i | 0 <= i < |chain|
      ensures IsApproved(rows, i) <==> i < NextPending(rows, |chain|)
    {
      PendingSplitsPrefix(chain, rows, i);
    }
  }

  lemma {:induction false} PendingSplitsPrefix(chain: seq<ChainStep>, rows: seq<Approval>, i: nat)
    requires PrefixApproved(chain, rows) && i < |chain|
    ensures IsApproved(rows, i) <==> i < NextPending(rows, |chain|)
  {
    assert NextPending(rows, |chain|) <= |chain|;
  }

  class ChainRun {
    const chain: seq<ChainStep>
    var rows: seq<Approval>
    var status: Status
    var approvedBy: Option<User>

    constructor (steps: seq<ChainStep>)
      requires steps != []
      ensures Valid() && chain == steps && rows == [] && status == PendingApproval && approvedBy == None
    {
      chain, rows, status, approvedBy := steps, [], PendingApproval, None;
    }

    ghost predicate Valid()
      reads this
    {
      chain != [] && PrefixApproved(chain, rows)
    }

    /** `approveWithChain` without interleaving. An approver of the pending step advances the chain
        by one, and by the last step unlocks the run and is recorded in approved_by. If an earlier
        request has left a satisfied chain pending, any user unlocks it and is recorded instead;
        no request that runs alone leaves it so. */
    method ApproveWithChain(user: User) returns (outcome: Outcome)
      requires Valid()
      modifies this`rows, this`status, this`approvedBy
      ensures Valid()
      ensures status == PendingApproval ==> !AllApproved(chain, rows)
      ensures old(status) != PendingApproval ==>
        outcome == Conflict && rows == old(rows) && status == old(status) && approvedBy == old(approvedBy)
      ensures old(status) == PendingApproval && AllApproved(chain, old(rows)) ==>
        outcome == Approved && rows == old(rows) && status == Unconfirmed && approvedBy == Some(user)
      ensures old(status) == PendingApproval && !AllApproved(chain, old(rows)) ==>
        var cur := NextPending(old(rows), |chain|);
        && cur < |chain|
        && (outcome == Forbidden <==> user !in chain[cur].approvers)
        && (outcome == Forbidden ==> rows == old(rows) && status == PendingApproval && approvedBy == old(approvedBy))
        && (outcome != Forbidden ==>
              rows == old(rows) + [Approval(cur, user)] && NextPending(rows, |chain|) == cur + 1)
        && (outcome != Forbidden && cur + 1 < |chain| ==>
              outcome == Advanced(cur + 1) && status == PendingApproval && approvedBy == old(approvedBy))
        && (outcome != Forbidden && cur + 1 == |chain| ==>
              outcome == Approved && status == Unconfirmed && approvedBy == Some(user))
    {
      if status != PendingApproval {
        return Conflict;
      }
      ghost var before := rows;
      var cur := NextPendingStep(rows, |chain|);
      var next := cur;
      if cur < |chain| {
        assert !IsApproved(rows, cur);
        var eligible := IsListed(chain[cur].approvers, user);
        if !eligible {
          return Forbidden;
        }
        NextRowIsNew(chain, rows, cur, user);
        RecordingOnlyAdds(rows, cur, user);
        rows := rows + [Approval(cur, user)];
        next := NextPendingStep(rows, |chain|);
      }
      if next < |chain| {
        assert !IsApproved(rows, next);
        return Advanced(next);
      }
      status := Unconfirmed;
      approvedBy := Some(user);
      outcome := Approved;
    }
  }

  /** The eligibility loop of `recordChainApproval`. */
  method IsListed(approvers: seq<User>, user: User) returns (eligible: bool)
    ensures eligible <==> user in approvers
  {
    eligible := false;
    for i := 0 to |approvers|
      invariant eligible <==> user in approvers[..i]
    {
      assert approvers[..i + 1] == approvers[..i] + [approvers[i]];
      if approvers[i] == user {
        return true;
      }
    }
    assert approvers[..|approvers|] == approvers;
  }
}
