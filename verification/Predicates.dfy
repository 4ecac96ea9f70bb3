/** Conditional triggers on dependency edges: `Validate` and `Matches`. */
module Predicates {
  import opened Options

  /** The values of a Go float64, without signed zeros. */
  datatype Float64 = NaN | NegInf | PosInf | Finite(r: real)

  /** `strconv.ParseFloat(_, 64)`; its grammar is left open. */
  type FloatParser = string -> Option<Float64>

  datatype Predicate = Predicate(field: string, op: string, value: string) {
    predicate IsSet() {
      field != "" && op != "" && value != ""
    }
  }

  datatype RunFields = RunFields(kind: string, planAdd: int, planChange: int, planDestroy: int,
                                 costChange: Float64, isDrift: bool)

  const MAX_INT64: int := 0x7FFF_FFFF_FFFF_FFFF
  const MIN_INT64: int := -0x8000_0000_0000_0000
  const EXACT: int := 0x20_0000_0000_0000  // 2^53

  // ---- strconv.Atoi ----------------------------------------------------------

  predicate IsDigit(c: char) {
    '0' <= c <= '9'
  }

  function DigitsValue(s: string): int
    requires forall c | c in s :: IsDigit(c)
  {
    if s == "" then 0
    else 10 * DigitsValue(s[..|s| - 1]) + (s[|s| - 1] as nat - '0' as nat)
  }

  function Atoi(s: string): Option<int> {
    var signed := s != "" && (s[0] == '-' || s[0] == '+');
    var digits := if signed then s[1..] else s;
    if digits == "" || !(forall c | c in digits :: IsDigit(c)) then None
    else
      var n: int := if s[0] == '-' then -DigitsValue(digits) else DigitsValue(digits);
      if MIN_INT64 <= n <= MAX_INT64 then Some(n) else None
  }

  // ---- float64(int) ----------------------------------------------------------

  /** Spacing of float64 values around an integer of magnitude m. */
  function Ulp(m: nat): (u: nat)
    ensures u >= 1
    ensures m < EXACT ==> u == 1
    decreases m
  {
    if m < EXACT then 1 else 2 * Ulp(m / 2)
  }

  /** q units and a rest of a unit u, rounded to nearest, ties to even. */
  function RoundUnits(q: int, rest: int, u: int): int {
    if 2 * rest < u || (2 * rest == u && q % 2 == 0) then q else q + 1
  }

  function RoundMagnitude(m: nat): int {
    var u := Ulp(m);
    RoundUnits(m / u, m % u, u) * u
  }

  /** The Go conversion `float64(i)`, as the integer it denotes. */
  function RoundToFloat(i: int): int {
    if i >= 0 then RoundMagnitude(i) else -RoundMagnitude(-i)
  }

  function ToFloat(i: int): Float64 {
    Finite(RoundToFloat(i) as real)
  }

  // ---- comparisons -------------------------------------------------------------

  predicate FloatEq(a: Float64, b: Float64) {
    a != NaN && a == b
  }

  predicate FloatLt(a: Float64, b: Float64) {
    match (a, b)
    case (NaN, _) => false
    case (_, NaN) => false
    case (Finite(x), Finite(y)) => x < y
    case (NegInf, _) => b != NegInf
    case (_, PosInf) => a != PosInf
    case _ => false
  }

  predicate CompareOrderable(got: Float64, op: string, want: Float64) {
    if op == "==" then FloatEq(got, want)
    else if op == "!=" then !FloatEq(got, want)
    else if op == ">" then FloatLt(want, got)
    else if op == "<" then FloatLt(got, want)
    else if op == ">=" then FloatLt(want, got) || FloatEq(got, want)
    else if op == "<=" then FloatLt(got, want) || FloatEq(got, want)
    else false
  }

  predicate CompareInt(got: int, op: string, wantStr: string) {
    match Atoi(wantStr)
    case None => false
    case Some(want) => CompareOrderable(ToFloat(got), op, ToFloat(want))
  }

  predicate CompareFloat(got: Float64, op: string, wantStr: string, parse: FloatParser) {
    match parse(wantStr)
    case None => false
    case Some(want) => CompareOrderable(got, op, want)
  }

  predicate CompareString(got: string, op: string, want: string) {
    if op == "==" then got == want
    else if op == "!=" then got != want
    else false
  }

  // ---- Validate and Matches ------------------------------------------------------

  const SUPPORTED_FIELDS := {"type", "plan_add", "plan_change", "plan_destroy", "cost_change", "is_drift"}
  const SUPPORTED_OPS := {"==", "!=", ">", "<", ">=", "<="}

  predicate ValidateField(p: Predicate, parse: FloatParser) {
    if p.field == "plan_add" || p.field == "plan_change" || p.field == "plan_destroy" then Atoi(p.value).Some?
    else if p.field == "cost_change" then parse(p.value).Some?
    else if p.field == "is_drift" then (p.op == "==" || p.op == "!=") && (p.value == "true" || p.value == "false")
    else p.field == "type" ==> p.op == "==" || p.op == "!="
  }

  predicate Validate(p: Predicate, parse: FloatParser) {
    p.IsSet() ==> p.field in SUPPORTED_FIELDS && p.op in SUPPORTED_OPS && ValidateField(p, parse)
  }

  /** `strconv.ParseBool` with its error dropped, as Matches does. */
  predicate ParseBool(s: string) {
    s in {"1", "t", "T", "TRUE", "true", "True"}
  }

  predicate Matches(p: Predicate, r: RunFields, parse: FloatParser) {
    if !p.IsSet() then true
    else if p.field == "type" then CompareString(r.kind, p.op, p.value)
    else if p.field == "plan_add" then CompareInt(r.planAdd, p.op, p.value)
    else if p.field == "plan_change" then CompareInt(r.planChange, p.op, p.value)
    else if p.field == "plan_destroy" then CompareInt(r.planDestroy, p.op, p.value)
    else if p.field == "cost_change" then CompareFloat(r.costChange, p.op, p.value, parse)
    else if p.field == "is_drift" then
      if p.op == "==" then r.isDrift == ParseBool(p.value)
      else if p.op == "!=" then r.isDrift != ParseBool(p.value)
      else false
    else false
  }

  // ---- rounding facts --------------------------------------------------------

  lemma {:induction false} SmallIntegersAreExact(i: int)
    requires -EXACT <= i <= EXACT
    ensures RoundToFloat(i) == i
  {
    var m := if i >= 0 then i else -i;
    if m == EXACT {
      assert Ulp(EXACT / 2) == 1;
      assert Ulp(EXACT) == 2;
    }
  }

  /** The scale of the spacing: a 53-bit significand times Ulp(m). */
  lemma {:induction false} UlpScale(m: nat)
    ensures m < EXACT * Ulp(m)
    ensures Ulp(m) > 1 ==> m >= (EXACT / 2) * Ulp(m)
    decreases m
  {
    if m >= EXACT {
      UlpScale(m / 2);
    }
  }

  lemma {:induction false} UlpMonotone(a: nat, b: nat)
    requires a <= b
    ensures Ulp(a) == Ulp(b) || 2 * Ulp(a) <= Ulp(b)
    decreases b
  {
    if b >= EXACT && a >= EXACT {
      UlpMonotone(a / 2, b / 2);
    }
  }

  lemma {:induction false} MulMonotone(x: int, y: int, u: nat)
    requires x <= y
    ensures x * u <= y * u
  {
  }

  lemma {:induction false} QuotientBounds(q: int, rest: int, u: nat, k: int)
    requires 0 <= rest < u
    ensures k * u <= q * u + rest ==> k <= q
    ensures q * u + rest < k * u ==> q < k
  {
    if k > q {
      MulMonotone(q + 1, k, u);
      assert (q + 1) * u == q * u + u;
    } else {
      MulMonotone(k, q, u);
    }
  }

  lemma {:induction false} DivisionBounds(m: nat, u: nat, k: int)
    requires u > 0
    ensures m == (m / u) * u + m % u
    ensures k * u <= m ==> k <= m / u
    ensures m < k * u ==> m / u < k
  {
    QuotientBounds(m / u, m % u, u, k);
  }

  lemma {:induction false} UnitsMonotone(a: nat, b: nat, u: nat)
    requires u > 0 && a <= b
    ensures RoundUnits(a / u, a % u, u) <= RoundUnits(b / u, b % u, u)
  {
    DivisionBounds(a, u, 0);
    DivisionBounds(b, u, a / u);
    if a / u == b / u {
      assert a % u <= b % u;
    }
  }

  lemma {:induction false} MagnitudeMonotoneSameScale(a: nat, b: nat)
    requires a <= b && Ulp(a) == Ulp(b)
    ensures RoundMagnitude(a) <= RoundMagnitude(b)
  {
    hide Ulp, RoundUnits;
    var u := Ulp(a);
    UnitsMonotone(a, b, u);
    MulMonotone(RoundUnits(a / u, a % u, u), RoundUnits(b / u, b % u, u), u);
  }

  lemma {:induction false} MagnitudeMonotoneAcrossScales(a: nat, b: nat)
    requires 2 * Ulp(a) <= Ulp(b)
    ensures RoundMagnitude(a) <= RoundMagnitude(b)
  {
    var u, v := Ulp(a), Ulp(b);
    var q, t := RoundUnits(a / u, a % u, u), RoundUnits(b / v, b % v, v);
    UlpScale(a);
    UlpScale(b);
    DivisionBounds(a, u, EXACT);
    DivisionBounds(b, v, EXACT / 2);
    MulMonotone(q, EXACT, u);
    MulMonotone(EXACT / 2, t, v);
  }

  lemma {:induction false} MagnitudeMonotone(a: nat, b: nat)
    requires a <= b
    ensures RoundMagnitude(a) <= RoundMagnitude(b)
  {
    UlpMonotone(a, b);
    if Ulp(a) == Ulp(b) {
      MagnitudeMonotoneSameScale(a, b);
    } else {
      MagnitudeMonotoneAcrossScales(a, b);
    }
  }

  lemma {:induction false} RoundingMonotone(a: int, b: int)
    requires a <= b
    ensures RoundToFloat(a) <= RoundToFloat(b)
  {
    if a >= 0 {
      MagnitudeMonotone(a, b);
    } else if b < 0 {
      MagnitudeMonotone(-b, -a);
    } else {
      MagnitudeMonotone(0, -a);
      MagnitudeMonotone(0, b);
      SmallIntegersAreExact(0);
    }
  }

  // ---- rounding is IEEE rounding -----------------------------------------------------

  /** Magnitudes a float64 holds exactly, up to its range: a significand of at most 2^53 times a power of two. */
  predicate Representable(m: nat) {
    m <= EXACT || (m % 2 == 0 && Representable(m / 2))
  }

  function Abs(i: int): nat {
    if i >= 0 then i else -i
  }

  lemma {:induction false} UnitsAreRepresentable(q: nat, m: nat)
    requires q <= EXACT
    ensures Representable(q * Ulp(m))
    decreases m
  {
    if m >= EXACT {
      UnitsAreRepresentable(q, m / 2);
      assert q * Ulp(m) == 2 * (q * Ulp(m / 2));
    }
  }

  /** Above 2^52 units of m's spacing, whatever is representable is a multiple of that spacing. */
  lemma {:induction false} RepresentableIsMultiple(x: nat, m: nat) returns (t: nat)
    requires Representable(x) && 2 * x > EXACT * Ulp(m)
    ensures x == t * Ulp(m)
    decreases m
  {
    if m < EXACT {
      t := x;
    } else {
      assert EXACT * Ulp(m) == 2 * (EXACT * Ulp(m / 2));
      MulMonotone(1, Ulp(m / 2), EXACT);
      t := RepresentableIsMultiple(x / 2, m / 2);
      assert x == 2 * (t * Ulp(m / 2)) == t * Ulp(m);
    }
  }

  lemma {:induction false} NearestMultiple(m: nat, u: nat, t: int)
    requires u > 0
    ensures Abs(RoundUnits(m / u, m % u, u) * u - m) <= Abs(t * u - m)
  {
    var q := m / u;
    DivisionBounds(m, u, q);
    assert (q + 1) * u == q * u + u;
    if t <= q {
      MulMonotone(t, q, u);
    } else {
      MulMonotone(q + 1, t, u);
    }
  }

  lemma {:induction false} RoundedUnits(m: nat)
    ensures 0 <= RoundUnits(m / Ulp(m), m % Ulp(m), Ulp(m)) <= EXACT
  {
    UlpScale(m);
    DivisionBounds(m, Ulp(m), EXACT);
    DivisionBounds(m, Ulp(m), 0);
  }

  lemma {:induction false} RoundedIsRepresentable(m: nat)
    ensures RoundMagnitude(m) >= 0 && Representable(RoundMagnitude(m))
  {
    hide Ulp, RoundUnits, Representable;
    RoundedUnits(m);
    UnitsAreRepresentable(RoundUnits(m / Ulp(m), m % Ulp(m), Ulp(m)), m);
  }

  lemma {:induction false} RoundedIsNearestMultiple(m: nat, t: int)
    ensures Abs(RoundMagnitude(m) - m) <= Abs(t * Ulp(m) - m)
  {
    hide Ulp, RoundUnits;
    NearestMultiple(m, Ulp(m), t);
  }

  lemma {:induction false} MagnitudeIsNearest(m: nat, x: nat)
    requires Representable(x)
    ensures RoundMagnitude(m) >= 0 && Representable(RoundMagnitude(m)) && Abs(RoundMagnitude(m) - m) <= Abs(x - m)
  {
    hide Ulp, RoundMagnitude, Representable;
    RoundedIsRepresentable(m);
    if 2 * x > EXACT * Ulp(m) {
      var t := RepresentableIsMultiple(x, m);
      RoundedIsNearestMultiple(m, t);
    } else if Ulp(m) == 1 {
      RoundedIsNearestMultiple(m, m);
    } else {
      UlpScale(m);
      RoundedIsNearestMultiple(m, EXACT / 2);
    }
  }

  /** float64(i) is a representable number, and no representable number is nearer to i. */
  lemma {:induction false} RoundingIsNearest(i: int, x: int)
    requires Representable(Abs(x))
    ensures Representable(Abs(RoundToFloat(i))) && Abs(RoundToFloat(i) - i) <= Abs(x - i)
  {
    hide RoundMagnitude, Representable;
    MagnitudeIsNearest(Abs(i), Abs(x));
  }

  /** Halfway between two neighbours, the one with the even significand is taken. */
  lemma {:induction false} TiesGoToEven(m: nat)
    requires 2 * (m % Ulp(m)) == Ulp(m)
    ensures exists q: int :: q % 2 == 0 && RoundMagnitude(m) == q * Ulp(m)
  {
    var u := Ulp(m);
    var q := RoundUnits(m / u, m % u, u);
    assert q % 2 == 0 && RoundMagnitude(m) == q * Ulp(m);
  }

  /** Where a value stands on the extended real line: the infinities lie outside all finite values. */
  function Position(f: Float64): (int, real)
    requires f != NaN
  {
    match f
    case NegInf => (-1, 0.0)
    case Finite(r) => (0, r)
    case PosInf => (1, 0.0)
  }

  /** The six operators order non-NaN values as the extended reals; of a NaN only `!=` is true. */
  lemma {:induction false} ComparesAsExtendedReals(a: Float64, op: string, b: Float64)
    requires op in SUPPORTED_OPS
    ensures a == NaN || b == NaN ==> (CompareOrderable(a, op, b) <==> op == "!=")
    ensures a != NaN && b != NaN ==>
      var (i, x), (j, y) := Position(a), Position(b);
      var less, same := i < j || (i == j && x < y), i == j && x == y;
      CompareOrderable(a, op, b) <==>
        match op
        case "==" => same
        case "!=" => !same
        case "<" => less
        case ">" => !less && !same
        case "<=" => less || same
        case _ => !less
  {
  }

  // ---- what a validated predicate means -----------------------------------------

  predicate CompareExactly(got: int, op: string, want: int) {
    match op
    case "==" => got == want
    case "!=" => got != want
    case ">" => got > want
    case "<" => got < want
    case ">=" => got >= want
    case _ => got <= want
  }

  /** The detour through float64 decides every operator exactly if and only if
      rounding does not merge the two operands. */
  lemma {:induction false} IntDetourExact(got: int, wantStr: string)
    requires Atoi(wantStr).Some?
    ensures
      var want := Atoi(wantStr).value;
      (forall op | op in SUPPORTED_OPS :: CompareInt(got, op, wantStr) == CompareExactly(got, op, want))
      <==> (got == want || RoundToFloat(got) != RoundToFloat(want))
  {
    var want := Atoi(wantStr).value;
    var x, y := RoundToFloat(got), RoundToFloat(want);
    RoundingMonotone(if got <= want then got else want, if got <= want then want else got);
    if got != want && x == y {
      assert CompareInt(got, "==", wantStr) && !CompareExactly(got, "==", want) && "==" in SUPPORTED_OPS;
    }
  }

  lemma {:induction false} IntDetourExactUpTo2Pow53(got: int, op: string, wantStr: string)
    requires op in SUPPORTED_OPS && Atoi(wantStr).Some?
    requires -EXACT <= got <= EXACT && -EXACT <= Atoi(wantStr).value <= EXACT
    ensures CompareInt(got, op, wantStr) == CompareExactly(got, op, Atoi(wantStr).value)
  {
    SmallIntegersAreExact(got);
    SmallIntegersAreExact(Atoi(wantStr).value);
    IntDetourExact(got, wantStr);
  }

  function DigitOf(c: char): int {
    c as int - '0' as int
  }

  lemma {:induction false} DigitsPrefix(s: string, k: nat)
    requires k < |s| && forall c | c in s :: IsDigit(c)
    ensures DigitsValue(s[..k + 1]) == 10 * DigitsValue(s[..k]) + DigitOf(s[k])
  {
    assert s[..k + 1][..k] == s[..k];
  }

  lemma {:induction false} FourDigits(s: string, k: nat)
    requires k + 4 <= |s| && forall c | c in s :: IsDigit(c)
    ensures DigitsValue(s[..k + 4]) == 10000 * DigitsValue(s[..k])
      + 1000 * DigitOf(s[k]) + 100 * DigitOf(s[k + 1]) + 10 * DigitOf(s[k + 2]) + DigitOf(s[k + 3])
  {
    hide DigitsValue, DigitOf;
    DigitsPrefix(s, k);
    DigitsPrefix(s, k + 1);
    DigitsPrefix(s, k + 2);
    DigitsPrefix(s, k + 3);
  }

  lemma {:induction false} TwoPow53Reads()
    ensures Atoi("9007199254740992") == Some(EXACT)
  {
    hide DigitsValue;
    var s := "9007199254740992";
    FourDigits(s, 0);
    FourDigits(s, 4);
    FourDigits(s, 8);
    FourDigits(s, 12);
    NoDigits();
    assert s[..0] == "" && s[..16] == s;
  }

  lemma {:induction false} NoDigits()
    ensures DigitsValue("") == 0
  {
  }

  /** One past 2^53 the two operands merge, and `==`, `!=`, `>` and `<=` answer wrongly. */
  lemma {:induction false} IntDetourFailsBeyond2Pow53(op: string)
    requires op in {"==", "!=", ">", "<="}
    ensures Atoi("9007199254740992") == Some(EXACT)
    ensures CompareInt(EXACT + 1, op, "9007199254740992") != CompareExactly(EXACT + 1, op, EXACT)
  {
    TwoPow53Reads();
    assert Ulp(EXACT / 2) == 1;
    assert Ulp((EXACT + 1) / 2) == 1;
    assert Ulp(EXACT) == 2 && Ulp(EXACT + 1) == 2;
  }

  /** Reference reading of a predicate that has been accepted: one comparison of
      one field, with no default answer. */
  ghost predicate Holds(p: Predicate, r: RunFields, parse: FloatParser)
    requires p.IsSet() && Validate(p, parse)
  {
    match p.field
    case "type" => (r.kind == p.value) == (p.op == "==")
    case "is_drift" => (r.isDrift == (p.value == "true")) == (p.op == "==")
    case "cost_change" => CompareOrderable(r.costChange, p.op, parse(p.value).value)
    case "plan_add" => CompareOrderable(ToFloat(r.planAdd), p.op, ToFloat(Atoi(p.value).value))
    case "plan_change" => CompareOrderable(ToFloat(r.planChange), p.op, ToFloat(Atoi(p.value).value))
    case _ => CompareOrderable(ToFloat(r.planDestroy), p.op, ToFloat(Atoi(p.value).value))
  }

  /** What Validate accepts, field by field: an incomplete predicate; equality on the run type; equality
      of the drift flag with `true` or `false`; any of the six comparisons of a plan count with an
      integer, or of the cost change with a number. */
  lemma {:induction false} AcceptsExactly(p: Predicate, parse: FloatParser)
    ensures Validate(p, parse) <==>
      || p.field == "" || p.op == "" || p.value == ""
      || (p.field == "type" && p.op in {"==", "!="})
      || (p.field == "is_drift" && p.op in {"==", "!="} && p.value in {"true", "false"})
      || (p.field in {"plan_add", "plan_change", "plan_destroy"} && p.op in {"==", "!=", ">", "<", ">=", "<="}
          && Atoi(p.value).Some?)
      || (p.field == "cost_change" && p.op in {"==", "!=", ">", "<", ">=", "<="} && parse(p.value).Some?)
  {
    hide Atoi;
  }

  /** What Validate rejects would block its edge for good: it matches no run at all, drift flags aside. */
  lemma {:induction false} RejectedNeverMatches(p: Predicate, r: RunFields, parse: FloatParser)
    requires !Validate(p, parse) && !(p.field == "is_drift" && p.op in {"==", "!="})
    ensures !Matches(p, r, parse)
  {
    hide Atoi, RoundToFloat;
  }

  lemma {:induction false} ValidatedPredicateIsCompared(p: Predicate, r: RunFields, parse: FloatParser)
    requires p.IsSet() && Validate(p, parse)
    ensures Matches(p, r, parse) == Holds(p, r, parse)
  {
    assert p.field in SUPPORTED_FIELDS && p.op in SUPPORTED_OPS;
  }

  function Complement(op: string): string {
    match op
    case "==" => "!="
    case "!=" => "=="
    case ">" => "<="
    case "<=" => ">"
    case "<" => ">="
    case _ => "<"
  }

  /** No operand of the comparison is NaN; only cost_change can bring one in. */
  predicate NaNFree(p: Predicate, r: RunFields, parse: FloatParser) {
    p.field == "cost_change" ==> r.costChange != NaN && parse(p.value) != Some(NaN)
  }

  /** Complementing the operator of an accepted predicate is accepted again and
      flips the answer: always for == and !=, and for the ordering operators
      exactly when no NaN is compared. */
  lemma {:induction false} ComplementFlips(p: Predicate, r: RunFields, parse: FloatParser)
    requires p.IsSet() && Validate(p, parse)
    ensures
      var c := p.(op := Complement(p.op));
      && c.IsSet() && Validate(c, parse) && Complement(c.op) == p.op
      && (Matches(c, r, parse) == !Matches(p, r, parse)
          <==> (p.op in {"==", "!="} || NaNFree(p, r, parse)))
  {
    hide RoundToFloat, DigitsValue;
    var c := p.(op := Complement(p.op));
    assert p.field in SUPPORTED_FIELDS && p.op in SUPPORTED_OPS;
    assert c.op in SUPPORTED_OPS;
    ValidatedPredicateIsCompared(p, r, parse);
    ValidatedPredicateIsCompared(c, r, parse);
  }
}
