/** The gate a tracked or destroy run passes when its plan phase completes:
    policies, stack thresholds, project cost quota. */
module PostPlanGate {
  import opened Options
  import opened PolicyEngine

  // ---- the decision --------------------------------------------------------------

  datatype Outcome = Failed | PendingApproval | Unconfirmed | Confirmed

  /** How far an outcome lets the run go. */
  function Permissiveness(o: Outcome): nat {
    match o
    case Failed => 0
    case PendingApproval => 1
    case Unconfirmed => 2
    case Confirmed => 3
  }

  datatype Verdict = Verdict(denied: bool, requiresApproval: bool, blockedByBudget: bool)

  function Decide(autoApply: bool, tracked: bool, v: Verdict): Outcome {
    if v.denied then Failed
    else if autoApply && tracked && !v.requiresApproval && !v.blockedByBudget then Confirmed
    else if v.requiresApproval then PendingApproval
    else Unconfirmed
  }

  // ---- calendar and forecast --------------------------------------------------------

  datatype Date = Date(year: int, month: int, day: int)

  predicate IsLeap(year: int) {
    year % 4 == 0 && (year % 100 != 0 || year % 400 == 0)
  }

  function DaysInMonth(year: int, month: int): (n: int)
    ensures 28 <= n <= 31
  {
    if month == 2 then (if IsLeap(year) then 29 else 28)
    else if month in {4, 6, 9, 11} then 30
    else 31
  }

  ghost predicate ValidDate(d: Date) {
    1 <= d.month <= 12 && 1 <= d.day <= DaysInMonth(d.year, d.month)
  }

  /** Number, in the proleptic Gregorian calendar, of the first day of a month: years are counted from
      March, so that the leap day comes last. */
  function FirstOfMonth(year: int, month: int): int {
    var y := if month <= 2 then year - 1 else year;
    var sinceMarch := if month <= 2 then month + 9 else month - 3;
    365 * y + LeapDays(y) + (153 * sinceMarch + 2) / 5
  }

  function LeapDays(year: int): int {
    year / 4 - year / 100 + year / 400
  }

  lemma {:induction false} QuotientStep(year: int, k: int)
    requires k in {4, 100, 400}
    ensures year / k - (year - 1) / k == if year % k == 0 then 1 else 0
  {
  }

  lemma {:induction false} CenturiesDivide(year: int)
    ensures year % 400 == 0 ==> year % 100 == 0
    ensures year % 100 == 0 ==> year % 4 == 0
  {
  }

  lemma {:induction false} LeapDaysStep(year: int)
    ensures LeapDays(year) - LeapDays(year - 1) == if IsLeap(year) then 1 else 0
  {
    QuotientStep(year, 4);
    QuotientStep(year, 100);
    QuotientStep(year, 400);
    CenturiesDivide(year);
  }

  lemma {:induction false} FebruaryLasts(year: int)
    ensures DaysInMonth(year, 2) == FirstOfMonth(year, 3) - FirstOfMonth(year, 2)
  {
    hide IsLeap, LeapDays;
    LeapDaysStep(year);
  }

  /** A month lasts until the first day of the next one. */
  lemma {:induction false} MonthLastsUntilNext(year: int, month: int)
    requires 1 <= month <= 12
    ensures DaysInMonth(year, month) ==
      (if month == 12 then FirstOfMonth(year + 1, 1) else FirstOfMonth(year, month + 1)) - FirstOfMonth(year, month)
  {
    hide IsLeap, LeapDays;
    if month == 2 {
      FebruaryLasts(year);
    }
  }

  function ForecastEndOfMonthSpend(mtd: real, now: Date): real {
    var elapsed := if now.day < 1 then 1 else now.day;
    mtd * DaysInMonth(now.year, now.month) as real / elapsed as real
  }

  lemma {:induction false} ForecastEqualsProjectionOnLastDay(mtd: real, now: Date)
    requires ValidDate(now) && now.day == DaysInMonth(now.year, now.month)
    ensures ForecastEndOfMonthSpend(mtd, now) == mtd
  {
    var n := DaysInMonth(now.year, now.month) as real;
    assert mtd * n / n == mtd;
  }

  lemma {:induction false} ScaleMonotone(x: real, y: real, k: real)
    requires x <= y && k >= 1.0
    ensures x * k <= y * k
    ensures y >= 0.0 ==> y * k >= y
  {
    assert (y - x) * k >= 0.0;
    assert y >= 0.0 ==> y * (k - 1.0) >= 0.0;
  }

  lemma {:induction false} ForecastIsScaling(x: real, now: Date, k: real)
    requires ValidDate(now) && k == DaysInMonth(now.year, now.month) as real / now.day as real
    ensures ForecastEndOfMonthSpend(x, now) == x * k && k >= 1.0
  {
    var n, e := DaysInMonth(now.year, now.month) as real, now.day as real;
    assert 1.0 <= e <= n;
    ScaleDivision(x, n, e);
  }

  lemma {:induction false} ScaleDivision(x: real, n: real, e: real)
    requires 1.0 <= e <= n
    ensures x * n / e == x * (n / e) && n / e >= 1.0
  {
    var k := n / e;
    assert k * e == n;
    assert x * n == (x * k) * e;
  }

  /** Scaling by days/elapsed >= 1 keeps order, and cannot lower a non-negative amount. */
  lemma {:induction false} ForecastMonotone(x: real, y: real, now: Date)
    requires ValidDate(now) && x <= y
    ensures ForecastEndOfMonthSpend(x, now) <= ForecastEndOfMonthSpend(y, now)
    ensures y >= 0.0 ==> ForecastEndOfMonthSpend(y, now) >= y
  {
    var k := DaysInMonth(now.year, now.month) as real / now.day as real;
    ForecastIsScaling(x, now, k);
    ForecastIsScaling(y, now, k);
    ScaleMonotone(x, y, k);
  }

  ghost predicate ForecastNeverHidesBreach(budget: real) {
    forall projected: real, now: Date | ValidDate(now) ::
      projected > budget ==> ForecastEndOfMonthSpend(projected, now) > budget
  }

  /** Being over budget already implies trending over it, on every date -- exactly
      for non-negative budgets (the schema demands a positive one). */
  lemma {:induction false} BreachImpliesForecastBreachIffBudgetNonNegative(budget: real)
    ensures ForecastNeverHidesBreach(budget) <==> budget >= 0.0
  {
    if budget >= 0.0 {
      forall projected: real, now: Date | ValidDate(now) && projected > budget
        ensures ForecastEndOfMonthSpend(projected, now) > budget
      {
        ForecastMonotone(projected, projected, now);
      }
    } else {
      var now := Date(2025, 1, 1);
      var projected := budget / 2.0;
      assert DaysInMonth(2025, 1) == 31;
      assert ForecastEndOfMonthSpend(projected, now) == projected * 31.0 / 1.0;
      assert ValidDate(now) && projected > budget && !(ForecastEndOfMonthSpend(projected, now) > budget);
    }
  }

  // ---- stack thresholds and project quota ---------------------------------------------

  datatype Plan = Plan(add: int, change: int, destroy: int, costAdd: Option<real>, costChange: Option<real>)

  datatype Limits = Limits(add: Option<int>, change: Option<int>, destroy: Option<int>,
                           cost: Option<real>, blockOnAlert: bool)

  datatype Project = Project(budget: Option<real>, enforcement: string, blockOnForecast: bool)

  datatype Quota = Quota(hasQuota: bool, exceeded: bool, forecastExceeded: bool,
                         blockOnForecast: bool, enforcement: string,
                         spend: real, runCostChange: real, projected: real, forecast: real, budget: real)

  predicate Over(limit: Option<int>, n: int) {
    limit.Some? && n > limit.value
  }

  predicate CostOver(limit: Option<real>, cost: Option<real>) {
    limit.Some? && cost.Some? && cost.value > limit.value
  }

  predicate Breaches(plan: Plan, l: Limits) {
    || Over(l.add, plan.add) || Over(l.change, plan.change) || Over(l.destroy, plan.destroy)
    || CostOver(l.cost, plan.costAdd)
  }

  /** The breach messages are reduced to the metric they name. */
  method CheckBudgetThresholds(plan: Plan, l: Limits) returns (exceeded: seq<string>)
    ensures exceeded != [] <==> Breaches(plan, l)
    ensures "adds" in exceeded <==> l.add.Some? && plan.add > l.add.value
    ensures "changes" in exceeded <==> l.change.Some? && plan.change > l.change.value
    ensures "destroys" in exceeded <==> l.destroy.Some? && plan.destroy > l.destroy.value
    ensures "estimated cost add" in exceeded <==> l.cost.Some? && plan.costAdd.Some? && plan.costAdd.value > l.cost.value
  {
    exceeded := [];
    if l.add.Some? && plan.add > l.add.value {
      exceeded := exceeded + ["adds"];
    }
    if l.change.Some? && plan.change > l.change.value {
      exceeded := exceeded + ["changes"];
    }
    if l.destroy.Some? && plan.destroy > l.destroy.value {
      exceeded := exceeded + ["destroys"];
    }
    if l.cost.Some? && plan.costAdd.Some? && plan.costAdd.value > l.cost.value {
      exceeded := exceeded + ["estimated cost add"];
    }
  }

  predicate ActualsBreach(project: Option<Project>, plan: Plan, spend: real) {
    && project.Some? && project.value.budget.Some? && plan.costChange.Some?
    && spend + plan.costChange.value > project.value.budget.value
  }

  predicate ForecastBreach(project: Option<Project>, plan: Plan, spend: real, now: Date) {
    && project.Some? && project.value.budget.Some? && plan.costChange.Some?
    && ForecastEndOfMonthSpend(spend + plan.costChange.value, now) > project.value.budget.value
  }

  /** Whether the project quota inhibits auto-apply. */
  predicate QuotaBlocks(project: Option<Project>, plan: Plan, spend: real, now: Date) {
    && project.Some? && project.value.enforcement == "block"
    && (|| ActualsBreach(project, plan, spend)
        || (project.value.blockOnForecast && ForecastBreach(project, plan, spend, now)))
  }

  const NO_QUOTA := Quota(false, false, false, false, "", 0.0, 0.0, 0.0, 0.0, 0.0)

  method CheckCostQuota(project: Option<Project>, plan: Plan, spend: real, now: Date) returns (res: Quota)
    ensures res.hasQuota <==> project.Some? && project.value.budget.Some? && plan.costChange.Some?
    ensures res.exceeded <==> ActualsBreach(project, plan, spend)
    ensures res.forecastExceeded <==> ForecastBreach(project, plan, spend, now)
    ensures res.hasQuota ==>
      && res.enforcement == project.value.enforcement && res.blockOnForecast == project.value.blockOnForecast
      && res.spend == spend && res.runCostChange == plan.costChange.value && res.budget == project.value.budget.value
      && res.projected == res.spend + res.runCostChange
      && res.forecast == ForecastEndOfMonthSpend(res.projected, now)
    ensures !res.hasQuota ==> res == NO_QUOTA
  {
    res := NO_QUOTA;
    if project.None? || project.value.budget.None? || plan.costChange.None? {
      return;
    }
    res := res.(hasQuota := true);
    res := res.(enforcement := project.value.enforcement);
    res := res.(blockOnForecast := project.value.blockOnForecast);
    res := res.(spend := spend);
    res := res.(runCostChange := plan.costChange.value);
    res := res.(projected := spend + plan.costChange.value);
    res := res.(forecast := ForecastEndOfMonthSpend(res.projected, now));
    res := res.(budget := project.value.budget.value);
    res := res.(exceeded := res.projected > res.budget);
    res := res.(forecastExceeded := res.forecast > res.budget);
  }

  method ApplyProjectCostQuota(project: Option<Project>, plan: Plan, spend: real, now: Date) returns (blocks: bool)
    ensures blocks == QuotaBlocks(project, plan, spend, now)
  {
    var quota := CheckCostQuota(project, plan, spend, now);
    if !quota.hasQuota {
      return false;
    }
    var actualsBreach := quota.exceeded;
    var forecastBreach := quota.blockOnForecast && quota.forecastExceeded && !quota.exceeded;
    if !actualsBreach && !forecastBreach {
      return false;
    }
    blocks := quota.enforcement == "block";
  }

  // ---- the whole gate -------------------------------------------------------------------

  /** `records` is None when policy evaluation reported an error. */
  datatype GateInput = GateInput(records: Option<seq<EvalRecord>>, plan: Plan, limits: Limits,
                                 project: Option<Project>, spend: real, now: Date,
                                 autoApply: bool, tracked: bool)

  function VerdictOf(g: GateInput): Verdict {
    Verdict(
      g.records.Some? && exists rec :: rec in g.records.value && !rec.result.allow,
      g.records.Some? && exists rec :: rec in g.records.value && rec.result.requireApproval,
      (Breaches(g.plan, g.limits) && g.limits.blockOnAlert) || QuotaBlocks(g.project, g.plan, g.spend, g.now))
  }

  function Gate(g: GateInput): Outcome {
    Decide(g.autoApply, g.tracked, VerdictOf(g))
  }

  // ---- each outcome by its causes ----------------------------------------------------------

  /** Some record of the evaluation does not allow the run; nothing does after an evaluation error. */
  ghost predicate SomeRecordDenies(g: GateInput) {
    g.records.Some? && exists rec :: rec in g.records.value && !rec.result.allow
  }

  ghost predicate SomeRecordAsks(g: GateInput) {
    g.records.Some? && exists rec :: rec in g.records.value && rec.result.requireApproval
  }

  /** A count of the plan is over its limit, or the cost it adds is over the stack's. */
  ghost predicate OverSomeLimit(plan: Plan, l: Limits) {
    || (l.add.Some? && plan.add > l.add.value)
    || (l.change.Some? && plan.change > l.change.value)
    || (l.destroy.Some? && plan.destroy > l.destroy.value)
    || (l.cost.Some? && plan.costAdd.Some? && plan.costAdd.value > l.cost.value)
  }

  /** The project blocks on its budget, and the month's spend with this run is over it; or is on the
      way there, by days elapsed, if the project blocks on that too. */
  ghost predicate ProjectBlocks(project: Project, cost: real, spend: real, now: Date)
    requires now.day >= 1
  {
    && project.enforcement == "block" && project.budget.Some?
    && (|| spend + cost > project.budget.value
        || (project.blockOnForecast
            && (spend + cost) * DaysInMonth(now.year, now.month) as real / now.day as real > project.budget.value))
  }

  ghost predicate BudgetInhibits(g: GateInput) {
    || (g.limits.blockOnAlert && OverSomeLimit(g.plan, g.limits))
    || (g.project.Some? && g.plan.costChange.Some? && g.now.day >= 1
        && ProjectBlocks(g.project.value, g.plan.costChange.value, g.spend, g.now))
  }

  /** What decides the outcome, without the order in which the gate asks. */
  lemma {:induction false} GateByCauses(g: GateInput)
    requires ValidDate(g.now)
    ensures Gate(g) == Failed <==> SomeRecordDenies(g)
    ensures Gate(g) == PendingApproval <==> !SomeRecordDenies(g) && SomeRecordAsks(g)
    ensures Gate(g) == Confirmed <==>
      !SomeRecordDenies(g) && !SomeRecordAsks(g) && g.autoApply && g.tracked && !BudgetInhibits(g)
    ensures Gate(g) == Unconfirmed <==>
      !SomeRecordDenies(g) && !SomeRecordAsks(g) && !(g.autoApply && g.tracked && !BudgetInhibits(g))
  {
  }

  method CompletePlanPhase(g: GateInput) returns (outcome: Outcome)
    ensures outcome == Gate(g)
    ensures outcome == Failed <==> SomeRecordDenies(g)
    ensures outcome == PendingApproval <==> !SomeRecordDenies(g) && SomeRecordAsks(g)
    ensures ValidDate(g.now) ==>
      (outcome == Confirmed <==>
         !SomeRecordDenies(g) && !SomeRecordAsks(g) && g.autoApply && g.tracked && !BudgetInhibits(g))
  {
    if ValidDate(g.now) {
      GateByCauses(g);
    }
    var denied, requiresApproval := false, false;
    if g.records.Some? {
      denied, requiresApproval := FlagsFromRecords(g.records.value);
    }
    if denied {
      return Failed;
    }
    var blockedByBudget := false;
    var exceeded := CheckBudgetThresholds(g.plan, g.limits);
    if |exceeded| > 0 {
      blockedByBudget := g.limits.blockOnAlert;
    }
    var quotaBlocks := ApplyProjectCostQuota(g.project, g.plan, g.spend, g.now);
    if quotaBlocks {
      blockedByBudget := true;
    }
    if g.autoApply && g.tracked && !requiresApproval && !blockedByBudget {
      return Confirmed;
    }
    outcome := Unconfirmed;
    if requiresApproval {
      outcome := PendingApproval;
    }
  }

  // ---- from the engine to the outcome ------------------------------------------------------

  /** `evaluatePlanPolicies`: the records of the selected policies, None after an evaluation error.
      Without a selected policy the engine is not asked. */
  method EvaluatePlanPolicies(engine: Engine, ids: seq<string>, eval: Evaluator) returns (records: Option<seq<EvalRecord>>)
    requires KeyedById(engine.policies)
    ensures records.None? <==> exists k :: k in engine.policies && k in ids && eval(engine.policies[k]).None?
    ensures records.Some? ==> IsEvaluation(engine.policies, (set k | k in ids), eval, records.value)
  {
    if |ids| == 0 {
      return Some([]);
    }
    var _, evaluated, ok := engine.EvaluateByIDs(ids, eval);
    records := if ok then Some(evaluated) else None;
  }

  /** The gate over the objects the selected policies return, none of which fails to evaluate: a run
      fails exactly if one of them has a string under "deny", and otherwise waits for an approval
      exactly if one of them has `true` under "require_approval". */
  lemma {:induction false} PoliciesDecide(policies: map<string, Policy>, ids: set<string>, eval: Evaluator, g: GateInput)
    requires KeyedById(policies) && ValidDate(g.now)
    requires g.records.Some? && IsEvaluation(policies, ids, eval, g.records.value)
    ensures Gate(g) == Failed <==> SomePolicyDenies(policies, ids, eval)
    ensures Gate(g) == PendingApproval <==> !SomePolicyDenies(policies, ids, eval) && SomePolicyAsks(policies, ids, eval)
    ensures Gate(g) == Confirmed ==> !SomePolicyDenies(policies, ids, eval) && !SomePolicyAsks(policies, ids, eval)
  {
    hide Gate, IsEvaluation;
    FlagsAreAboutObjects(policies, ids, eval, g.records.value);
    GateByCauses(g);
  }

  /** One selected policy with a denial message is enough, whatever else is loaded or configured. */
  lemma {:induction false} OneDenialFails(policies: map<string, Policy>, ids: set<string>, eval: Evaluator, g: GateInput,
                                          k: string, fields: map<string, Json>, message: string)
    requires KeyedById(policies) && ValidDate(g.now)
    requires g.records.Some? && IsEvaluation(policies, ids, eval, g.records.value)
    requires k in policies && k in ids && eval(policies[k]) == Some(Object(fields))
    requires "deny" in fields && fields["deny"].JArray? && JStr(message) in fields["deny"].items
    ensures Gate(g) == Failed
  {
    hide Gate, IsEvaluation;
    PoliciesDecide(policies, ids, eval, g);
  }

  // ---- monotonicity ------------------------------------------------------------------------

  ghost predicate LowerLimit<T(!new)>(a: Option<T>, b: Option<T>, leq: (T, T) -> bool) {
    a.Some? ==> b.Some? && leq(b.value, a.value)
  }

  ghost predicate StricterLimits(a: Limits, b: Limits) {
    var leqInt := (x: int, y: int) => x <= y;
    && LowerLimit(a.add, b.add, leqInt) && LowerLimit(a.change, b.change, leqInt)
    && LowerLimit(a.destroy, b.destroy, leqInt)
    && LowerLimit(a.cost, b.cost, (x: real, y: real) => x <= y)
    && (a.blockOnAlert ==> b.blockOnAlert)
  }

  ghost predicate StricterProject(a: Option<Project>, b: Option<Project>) {
    a.Some? ==>
      && b.Some?
      && LowerLimit(a.value.budget, b.value.budget, (x: real, y: real) => x <= y)
      && (a.value.enforcement == "block" ==> b.value.enforcement == "block")
      && (a.value.blockOnForecast ==> b.value.blockOnForecast)
  }

  /** Apart from policies, b asks at least as much as a: lower limits, a lower
      budget, more blocking switches, no more auto-apply, no less money spent. */
  ghost predicate StricterSettings(a: GateInput, b: GateInput) {
    && a.plan == b.plan && a.now == b.now && a.tracked == b.tracked
    && StricterLimits(a.limits, b.limits)
    && StricterProject(a.project, b.project)
    && a.spend <= b.spend
    && (b.autoApply ==> a.autoApply)
  }

  ghost predicate Stricter(a: GateInput, b: GateInput) {
    && a.records.Some? && b.records.Some?
    && (forall rec | rec in a.records.value :: rec in b.records.value)
    && StricterSettings(a, b)
  }

  lemma {:induction false} StricterQuotaBlocks(a: GateInput, b: GateInput)
    requires ValidDate(a.now) && Stricter(a, b) && QuotaBlocks(a.project, a.plan, a.spend, a.now)
    ensures QuotaBlocks(b.project, b.plan, b.spend, b.now)
  {
    var cost := a.plan.costChange.value;
    ForecastMonotone(a.spend + cost, b.spend + cost, a.now);
  }

  /** With error-free evaluation, asking more never lets a run go further: b evaluates a larger
      policy table for a larger selection, against settings at least as strict. */
  lemma {:induction false} GateMonotone(policies: map<string, Policy>, ids: set<string>, more: map<string, Policy>,
                                        moreIds: set<string>, eval: Evaluator, a: GateInput, b: GateInput)
    requires ids <= moreIds && forall k | k in policies :: k in more && more[k] == policies[k]
    requires a.records.Some? && IsEvaluation(policies, ids, eval, a.records.value)
    requires b.records.Some? && IsEvaluation(more, moreIds, eval, b.records.value)
    requires ValidDate(a.now) && StricterSettings(a, b)
    ensures Permissiveness(Gate(b)) <= Permissiveness(Gate(a))
  {
    MorePoliciesMoreRecords(policies, ids, more, moreIds, eval, a.records.value, b.records.value);
    MoreRecordsMonotone(a, b);
  }

  lemma {:induction false} MoreRecordsMonotone(a: GateInput, b: GateInput)
    requires ValidDate(a.now) && Stricter(a, b)
    ensures Permissiveness(Gate(b)) <= Permissiveness(Gate(a))
  {
    var v, w := VerdictOf(a), VerdictOf(b);
    if v.denied {
      var rec :| rec in a.records.value && !rec.result.allow;
      assert rec in b.records.value;
    }
    if v.requiresApproval {
      var rec :| rec in a.records.value && rec.result.requireApproval;
      assert rec in b.records.value;
    }
    if QuotaBlocks(a.project, a.plan, a.spend, a.now) {
      StricterQuotaBlocks(a, b);
    }
    assert v.denied ==> w.denied;
    assert v.requiresApproval ==> w.requiresApproval;
    assert v.blockedByBudget ==> w.blockedByBudget;
  }

  /** An evaluation error drops every policy: the outcome is the one with no
      policies at all, the most permissive of all error-free outcomes. So adding
      a policy that errors loosens the gate precisely when the policies mattered. */
  lemma {:induction false} EvaluationErrorOpensGate(g: GateInput)
    requires g.records.Some? && ValidDate(g.now)
    ensures Gate(g.(records := None)) == Gate(g.(records := Some([])))
    ensures Permissiveness(Gate(g)) <= Permissiveness(Gate(g.(records := None)))
    ensures Gate(g) == Gate(g.(records := None)) <==> !VerdictOf(g).denied && !VerdictOf(g).requiresApproval
  {
    var none := g.(records := Some([]));
    assert forall rec: EvalRecord :: rec !in none.records.value;
    assert VerdictOf(none) == VerdictOf(g.(records := None));
    assert Stricter(none, g);
    MoreRecordsMonotone(none, g);
  }

  /** Thresholds and quota never fail a run or ask for approval; all they can do is
      turn an automatic apply into a wait for confirmation. */
  lemma {:induction false} BudgetOnlyInhibitsAutoApply(g: GateInput)
    ensures
      var unlimited := g.(limits := Limits(None, None, None, None, false), project := None);
      && Gate(g) == (if Gate(unlimited) == Confirmed && VerdictOf(g).blockedByBudget then Unconfirmed else Gate(unlimited))
      && (ValidDate(g.now) ==> (VerdictOf(g).blockedByBudget <==> BudgetInhibits(g)))
  {
    var unlimited := g.(limits := Limits(None, None, None, None, false), project := None);
    assert VerdictOf(unlimited) == VerdictOf(g).(blockedByBudget := false);
  }
}
