/** Brute-force limiting of service-account tokens: per-IP failure counts in
    fixed windows. */
module AttemptWindow {

  const MAX_FAILS := 20
  const WINDOW_SECS := 300

  /** count and the Unix second at which the window expires */
  datatype Counter = Counter(count: nat, reset: int)

  type Counts = map<string, Counter>

  /** One request with a service-account token; valid says whether its lookup would succeed. */
  datatype Attempt = Attempt(ip: string, time: int, valid: bool)

  const ZERO := Counter(0, 0)

  function Entry(counts: Counts, ip: string): Counter {
    if ip in counts then counts[ip] else ZERO
  }

  /** The window an attempt at `now` falls into. */
  function Refreshed(c: Counter, now: int): Counter {
    if now > c.reset then Counter(0, now + WINDOW_SECS) else c
  }

  function Recorded(counts: Counts, ip: string, now: int): Counts {
    var c := Refreshed(Entry(counts, ip), now);
    counts[ip := Counter(c.count + 1, c.reset)]
  }

  class FailTracker {
    var counts: Counts

    /** `saCheckAndRecord`, under its mutex. */
    method CheckAndRecord(ip: string, failed: bool, now: int) returns (blocked: bool)
      modifies this
      ensures failed ==> counts == Recorded(old(counts), ip, now) && (blocked <==> counts[ip].count > MAX_FAILS)
      ensures failed ==>
        && ip in counts
        && (ip !in old(counts) ==> counts[ip] == Counter(1, if now > 0 then now + 300 else 0))
        && (ip in old(counts) && now > old(counts)[ip].reset ==> counts[ip] == Counter(1, now + 300))
        && (ip in old(counts) && now <= old(counts)[ip].reset ==>
              counts[ip] == Counter(old(counts)[ip].count + 1, old(counts)[ip].reset))
      ensures failed ==> (blocked <==> counts[ip].count > 20)
      ensures !failed ==> counts == old(counts) - {ip} && !blocked
      ensures forall other | other != ip :: Entry(counts, other) == Entry(old(counts), other)
    {
      var entry := if ip in counts then counts[ip] else Counter(0, 0);
      if now > entry.reset {
        entry := Counter(0, now + WINDOW_SECS);
      }
      if !failed {
        counts := counts - {ip};
        return false;
      }
      entry := entry.(count := entry.count + 1);
      counts := counts[ip := entry];
      blocked := entry.count > MAX_FAILS;
    }

    /** The middleware: every attempt is counted first, a valid token clears the count. */
    method Authenticate(at: Attempt) returns (looked: bool, admitted: bool)
      modifies this
      ensures counts == Handled(old(counts), at)
      ensures looked == ReachesLookup(old(counts), at)
      ensures admitted == (looked && at.valid)
      ensures admitted ==> counts == old(counts) - {at.ip}
      ensures !admitted ==> at.ip in counts && (looked <==> counts[at.ip].count <= 20)
      ensures forall other | other != at.ip :: Entry(counts, other) == Entry(old(counts), other)
    {
      var blocked := CheckAndRecord(at.ip, true, at.time);
      if blocked {
        return false, false;
      }
      looked, admitted := true, at.valid;
      if at.valid {
        var _ := CheckAndRecord(at.ip, false, at.time);
      }
    }
  }

  // ---- traces ------------------------------------------------------------------------------

  predicate ReachesLookup(counts: Counts, at: Attempt) {
    Recorded(counts, at.ip, at.time)[at.ip].count <= MAX_FAILS
  }

  function Handled(counts: Counts, at: Attempt): Counts {
    var next := Recorded(counts, at.ip, at.time);
    if at.valid && ReachesLookup(counts, at) then next - {at.ip} else next
  }

  function After(trace: seq<Attempt>): Counts {
    if trace == [] then map[] else Handled(After(trace[..|trace| - 1]), trace[|trace| - 1])
  }

  /** Attempt i of the trace is from ip and reaches the token lookup. */
  ghost predicate Looked(trace: seq<Attempt>, ip: string, i: nat) {
    i < |trace| && trace[i].ip == ip && ReachesLookup(After(trace[..i]), trace[i])
  }

  /** How many of the first n attempts from ip reach the lookup at a time in [lo, hi]. */
  ghost function LookedDuring(trace: seq<Attempt>, ip: string, lo: int, hi: int, n: nat): nat
    requires n <= |trace|
  {
    if n == 0 then 0
    else LookedDuring(trace, ip, lo, hi, n - 1) +
         (if Looked(trace, ip, n - 1) && lo <= trace[n - 1].time <= hi then 1 else 0)
  }

  /** How many of the first n attempts from ip reach the lookup in the window that expires at reset. */
  ghost function LookedInWindow(trace: seq<Attempt>, ip: string, reset: int, n: nat): nat
    requires n <= |trace|
  {
    if n == 0 then 0
    else LookedInWindow(trace, ip, reset, n - 1) +
         (if Looked(trace, ip, n - 1) && Entry(After(trace[..n]), ip).reset == reset then 1 else 0)
  }

  /** A non-decreasing clock past the epoch; attempts from ip all fail, others do what they like. */
  ghost predicate FailingTrace(trace: seq<Attempt>, ip: string) {
    && (forall i | 0 <= i < |trace| :: trace[i].time > 0)
    && (forall i, j | 0 <= i <= j < |trace| :: trace[i].time <= trace[j].time)
    && (forall i | 0 <= i < |trace| :: trace[i].ip == ip ==> !trace[i].valid)
  }

  function Min(a: int, b: int): int {
    if a < b then a else b
  }

  lemma {:induction false} AfterPrefix(trace: seq<Attempt>, n: nat)
    requires 0 < n <= |trace|
    ensures After(trace[..n]) == Handled(After(trace[..n - 1]), trace[n - 1])
  {
    assert trace[..n][..n - 1] == trace[..n - 1];
  }

  /** Windows never overlap: the counter of an ip after n attempts. */
  lemma {:induction false} CounterShape(trace: seq<Attempt>, ip: string, n: nat)
    requires FailingTrace(trace, ip) && n <= |trace|
    ensures
      var c := Entry(After(trace[..n]), ip);
      && (ip !in After(trace[..n]) ==> c == ZERO)
      && (ip in After(trace[..n]) ==> c.count >= 1 && n > 0 && WINDOW_SECS < c.reset <= trace[n - 1].time + WINDOW_SECS)
  {
    if n > 0 {
      CounterShape(trace, ip, n - 1);
      AfterPrefix(trace, n);
    }
  }

  /** At most twenty failing attempts per window reach the lookup. */
  lemma {:induction false} WindowBound(trace: seq<Attempt>, ip: string, reset: int, n: nat)
    requires FailingTrace(trace, ip) && n <= |trace|
    ensures LookedInWindow(trace, ip, reset, n) <= MAX_FAILS
    ensures
      var c := Entry(After(trace[..n]), ip);
      && (reset == c.reset ==> LookedInWindow(trace, ip, reset, n) == Min(c.count, MAX_FAILS))
      && (reset > c.reset ==> LookedInWindow(trace, ip, reset, n) == 0)
  {
    if n > 0 {
      WindowBound(trace, ip, reset, n - 1);
      AfterPrefix(trace, n);
    }
  }

  /** Attempts counted during [a, a + 300], by where the current window started. */
  ghost predicate SpanInvariant(a: int, c: Counter, n: nat) {
    var start := c.reset - WINDOW_SECS;
    if c.count == 0 || c.reset < a then n == 0
    else if start < a then n <= Min(c.count, MAX_FAILS) - 1  // the opening attempt came before a
    else if start == a then n <= Min(c.count, MAX_FAILS)
    else if start <= a + WINDOW_SECS then n <= MAX_FAILS - 1 + Min(c.count, MAX_FAILS)
    else n <= 2 * MAX_FAILS - 1
  }

  lemma {:induction false} SpanStep(a: int, c: Counter, n: nat, t: int)
    requires SpanInvariant(a, c, n) && t > 0 && (c.count == 0 ==> c == ZERO)
    requires c.count > 0 ==> c.reset - WINDOW_SECS <= t
    ensures
      var r := Refreshed(c, t);
      var c' := Counter(r.count + 1, r.reset);
      var hit := c'.count <= MAX_FAILS && a <= t <= a + WINDOW_SECS;
      SpanInvariant(a, c', if hit then n + 1 else n)
  {
  }

  lemma {:induction false} SpanBoundInvariant(trace: seq<Attempt>, ip: string, a: int, n: nat)
    requires FailingTrace(trace, ip) && n <= |trace|
    ensures SpanInvariant(a, Entry(After(trace[..n]), ip), LookedDuring(trace, ip, a, a + WINDOW_SECS, n))
  {
    if n > 0 {
      SpanBoundInvariant(trace, ip, a, n - 1);
      CounterShape(trace, ip, n - 1);
      AfterPrefix(trace, n);
      if trace[n - 1].ip == ip {
        if n > 1 {
          assert trace[n - 2].time <= trace[n - 1].time;
        }
        SpanStep(a, Entry(After(trace[..n - 1]), ip), LookedDuring(trace, ip, a, a + WINDOW_SECS, n - 1), trace[n - 1].time);
      }
    }
  }

  /** At most 39 failing attempts of one ip reach the lookup in any 300-second span:
      two windows may meet in it, but then the first one opened before it. */
  lemma {:induction false} SpanBound(trace: seq<Attempt>, ip: string, a: int)
    requires FailingTrace(trace, ip)
    ensures LookedDuring(trace, ip, a, a + WINDOW_SECS, |trace|) <= 2 * MAX_FAILS - 1
  {
    SpanBoundInvariant(trace, ip, a, |trace|);
  }

  // ---- the bound is reached: windows are fixed, not sliding -------------------------------------

  ghost predicate BurstAt(trace: seq<Attempt>, ip: string, n: nat, k: nat, t: int) {
    n + k <= |trace| && forall i | n <= i < n + k :: trace[i] == Attempt(ip, t, false)
  }

  lemma {:induction false} OneMoreLookup(trace: seq<Attempt>, ip: string, m: nat, t: int)
    requires m < |trace| && trace[m] == Attempt(ip, t, false)
    requires Refreshed(Entry(After(trace[..m]), ip), t).count < MAX_FAILS
    ensures
      var r := Refreshed(Entry(After(trace[..m]), ip), t);
      Looked(trace, ip, m) && Entry(After(trace[..m + 1]), ip) == Counter(r.count + 1, r.reset)
  {
    AfterPrefix(trace, m + 1);
  }

  /** k failing attempts in the same second, all within the limit of their window. */
  lemma {:induction false} BurstReachesLookup(trace: seq<Attempt>, ip: string, n: nat, k: nat, t: int,
                                              lo: int, hi: int, r: Counter)
    requires k > 0 && BurstAt(trace, ip, n, k, t)
    requires r == Refreshed(Entry(After(trace[..n]), ip), t) && r.count + k <= MAX_FAILS
    ensures Entry(After(trace[..n + k]), ip) == Counter(r.count + k, r.reset)
    ensures LookedDuring(trace, ip, lo, hi, n + k) ==
      LookedDuring(trace, ip, lo, hi, n) + (if lo <= t <= hi then k else 0)
    decreases k
  {
    hide After, Looked, Handled, Recorded, ReachesLookup;
    if k > 1 {
      BurstReachesLookup(trace, ip, n, k - 1, t, lo, hi, r);
    }
    OneMoreLookup(trace, ip, n + k - 1, t);
  }

  function BurstTrace(ip: string): seq<Attempt> {
    seq(40, i => Attempt(ip, if i < 1 then 1 else if i < 20 then 301 else 302, false))
  }

  /** One attempt at second 1, nineteen at 301, twenty at 302: 39 lookups within [2, 302]. */
  lemma {:induction false} SpanBoundIsTight(ip: string)
    ensures FailingTrace(BurstTrace(ip), ip)
    ensures LookedDuring(BurstTrace(ip), ip, 2, 2 + WINDOW_SECS, |BurstTrace(ip)|) == 2 * MAX_FAILS - 1
  {
    var trace := BurstTrace(ip);
    assert trace[..0] == [];
    BurstReachesLookup(trace, ip, 0, 1, 1, 2, 302, Counter(0, 301));
    BurstReachesLookup(trace, ip, 1, 19, 301, 2, 302, Counter(1, 301));
    BurstReachesLookup(trace, ip, 20, 20, 302, 2, 302, Counter(0, 602));
  }

  // ---- a success clears the count -------------------------------------------------------

  /** How many attempts from ip lie strictly between two attempts of the trace. */
  function AttemptsBetween(trace: seq<Attempt>, ip: string, i: nat, n: nat): nat
    requires n <= |trace|
    decreases n
  {
    if n <= i + 1 then 0 else AttemptsBetween(trace, ip, i, n - 1) + (if trace[n - 1].ip == ip then 1 else 0)
  }

  lemma {:induction false} CountSinceSuccess(trace: seq<Attempt>, ip: string, i: nat, n: nat)
    requires i < n <= |trace| && Looked(trace, ip, i) && trace[i].valid
    ensures Entry(After(trace[..n]), ip).count <= AttemptsBetween(trace, ip, i, n)
    decreases n
  {
    AfterPrefix(trace, n);
    if n > i + 1 {
      CountSinceSuccess(trace, ip, i, n - 1);
    }
  }

  /** On every trace, under any clock: after an attempt that is let in, the next twenty from the same
      address reach the lookup, whatever the count was before and whatever others do. */
  lemma {:induction false} SuccessRestoresBudget(trace: seq<Attempt>, ip: string, i: nat, n: nat)
    requires i < n < |trace| && Looked(trace, ip, i) && trace[i].valid && trace[n].ip == ip
    requires AttemptsBetween(trace, ip, i, n) < MAX_FAILS
    ensures Looked(trace, ip, n)
  {
    CountSinceSuccess(trace, ip, i, n);
  }
}
