/** The retries of one dependency run in an execution, and what the delays computed for them sum to. */
module RetryChains {
  import opened Options
  import opened RunMachine
  import opened RunLifecycle
  import opened FanIn
  import opened Cascade

  /** Event n fails run `failed` and inserts `retry`, its next attempt. */
  datatype Link = Link(n: nat, failed: RunId, retry: RunId)

  ghost predicate RetriedAt(db: Db, evs: seq<Event>, l: Link) {
    && l.n < |evs| && IsExecution(db, evs[..l.n]) && IsExecution(db, evs[..l.n + 1])
    && evs[l.n].Finish? && evs[l.n].run == l.failed && l.failed in After(db, evs[..l.n]).runs
    && l.retry !in After(db, evs[..l.n]).runs && l.retry in After(db, evs[..l.n + 1]).runs
    && After(db, evs[..l.n + 1]).runs[l.retry].attempt > 0
  }

  ghost function Attempt(db: Db, evs: seq<Event>, l: Link): nat
    requires RetriedAt(db, evs, l)
  {
    After(db, evs[..l.n]).runs[l.failed].attempt
  }

  /** The settings, when the run fails, of the edge it came over. */
  ghost function Settings(db: Db, evs: seq<Event>, l: Link): Option<EdgeConfig>
    requires RetriedAt(db, evs, l)
  {
    var was := After(db, evs[..l.n]);
    var dep := was.runs[l.failed].dep;
    if dep.Some? && dep.value in was.edges then Some(was.edges[dep.value]) else None
  }

  /** The delay `maybeRetryDepRun` then computes for the next attempt. */
  ghost function Delay(db: Db, evs: seq<Event>, l: Link): nat
    requires RetriedAt(db, evs, l)
  {
    var settings := Settings(db, evs, l);
    if settings.Some? then RetryDelay(settings.value.backoff, Attempt(db, evs, l)) else 0
  }

  /** A first attempt that fails, its retry that fails in turn, and so on. */
  ghost predicate IsRetryChain(db: Db, evs: seq<Event>, chain: seq<Link>) {
    && (forall i | 0 <= i < |chain| :: RetriedAt(db, evs, chain[i]))
    && (forall i | 0 < i < |chain| :: chain[i].failed == chain[i - 1].retry && chain[i - 1].n < chain[i].n)
    && (chain != [] ==> Attempt(db, evs, chain[0]) == 0)
  }

  ghost function TotalDelay(db: Db, evs: seq<Event>, chain: seq<Link>): nat
    requires IsRetryChain(db, evs, chain)
  {
    if chain == [] then 0
    else
      var init, last := chain[..|chain| - 1], chain[|chain| - 1];
      TotalDelay(db, evs, init) + Delay(db, evs, last)
  }

  lemma {:induction false} LinkWithinSettings(db: Db, evs: seq<Event>, l: Link)
    requires Initial(db) && IsExecution(db, evs) && RetriedAt(db, evs, l)
    ensures Settings(db, evs, l).Some?
    ensures After(db, evs[..l.n + 1]).runs[l.retry].attempt == Attempt(db, evs, l) + 1
    ensures Attempt(db, evs, l) + 1 <= Settings(db, evs, l).value.retryCount <= MAX_RETRIES
  {
    hide Step, Enabled;
    assert evs[..l.n + 1][..l.n] == evs[..l.n];
    ExecutionsAreConsistent(db, evs[..l.n]);
    ReachableRetriesCapped(db, evs[..l.n]);
    RetryIsWithinSettings(After(db, evs[..l.n]), evs[l.n], l.retry);
  }

  /** What fails next is the run just inserted, with its attempt number. */
  lemma {:induction false} NextAttempt(db: Db, evs: seq<Event>, l: Link, m: Link)
    requires Initial(db) && IsExecution(db, evs) && RetriedAt(db, evs, l) && RetriedAt(db, evs, m)
    requires m.failed == l.retry && l.n < m.n
    ensures Attempt(db, evs, m) == Attempt(db, evs, l) + 1
  {
    hide Step, Enabled;
    LinkWithinSettings(db, evs, l);
    var pre, k := evs[..m.n], l.n + 1;
    assert pre[..k] == evs[..k];
    RunIsTheSame(db, pre, k, m.failed);
  }

  lemma {:induction false} AttemptsCount(db: Db, evs: seq<Event>, chain: seq<Link>, i: nat)
    requires Initial(db) && IsExecution(db, evs) && IsRetryChain(db, evs, chain) && i < |chain|
    ensures Attempt(db, evs, chain[i]) == i
  {
    hide RetriedAt, Attempt;
    if i > 0 {
      AttemptsCount(db, evs, chain, i - 1);
      NextAttempt(db, evs, chain[i - 1], chain[i]);
    }
  }

  ghost predicate BackoffIs(db: Db, evs: seq<Event>, l: Link, backoff: nat)
    requires RetriedAt(db, evs, l)
  {
    Settings(db, evs, l).Some? ==> Settings(db, evs, l).value.backoff == backoff
  }

  lemma {:induction false} LinkDelay(db: Db, evs: seq<Event>, l: Link, backoff: nat)
    requires Initial(db) && IsExecution(db, evs) && RetriedAt(db, evs, l) && BackoffIs(db, evs, l, backoff)
    ensures Delay(db, evs, l) == (backoff * NANOSECONDS) * Pow2(Attempt(db, evs, l))
  {
    hide RetriedAt, Attempt, Settings, RetryDelay;
    LinkWithinSettings(db, evs, l);
    DelayIsDoubling(backoff, Attempt(db, evs, l));
  }

  /** For every execution: the retries of one dependency run number at most the retry count in
      force at the last of them, and while the backoff stays b their delays sum to
      b (2^m - 1) seconds, m being their number. */
  lemma {:induction false} RetryChainDelay(db: Db, evs: seq<Event>, chain: seq<Link>, backoff: nat)
    requires Initial(db) && IsExecution(db, evs) && IsRetryChain(db, evs, chain)
    requires forall i | 0 <= i < |chain| :: BackoffIs(db, evs, chain[i], backoff)
    ensures chain != [] ==>
      var settings := Settings(db, evs, chain[|chain| - 1]);
      settings.Some? && |chain| <= settings.value.retryCount <= MAX_RETRIES
    ensures TotalDelay(db, evs, chain) == (backoff * NANOSECONDS) * (Pow2(|chain|) - 1)
  {
    hide RetriedAt, Attempt, Settings, Delay, IsExecution;
    if chain != [] {
      var i := |chain| - 1;
      RetryChainDelay(db, evs, chain[..i], backoff);
      AttemptsCount(db, evs, chain, i);
      LinkWithinSettings(db, evs, chain[i]);
      LinkDelay(db, evs, chain[i], backoff);
      Doubling(backoff * NANOSECONDS, Pow2(i));
      assert Pow2(|chain|) == 2 * Pow2(i);
    }
  }
}
