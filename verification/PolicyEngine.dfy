/** The in-memory policy engine: evaluating a set of policies out of an unordered
    map, and merging the answers. Rego itself is a parameter. */
module PolicyEngine {
  import opened Options

  datatype Json = JStr(s: string) | JBool(b: bool) | JArray(items: seq<Json>) | JOther

  /** What a prepared Rego query yields: nothing, a value that is not an object, or an object. */
  datatype RegoOutput = NoResult | NotAnObject | Object(fields: map<string, Json>)

  datatype Result = Result(allow: bool, deny: seq<string>, warn: seq<string>,
                           trigger: seq<string>, requireApproval: bool)

  datatype Policy = Policy(id: string, name: string, kind: string, source: string)

  datatype EvalRecord = EvalRecord(policy: Policy, result: Result)

  /** Evaluation of a compiled policy against one fixed input; None is an evaluation error. */
  type Evaluator = Policy -> Option<RegoOutput>

  // ---- parseResultSet --------------------------------------------------------

  function StringsIn(items: seq<Json>): seq<string> {
    if items == [] then []
    else (if items[0].JStr? then [items[0].s] else []) + StringsIn(items[1..])
  }

  function ExtractStrings(fields: map<string, Json>, key: string): seq<string> {
    if key in fields && fields[key].JArray? then StringsIn(fields[key].items) else []
  }

  predicate ExtractBool(fields: map<string, Json>, key: string) {
    key in fields && fields[key] == JBool(true)
  }

  const ALLOW_ALL := Result(true, [], [], [], false)

  /** The policy's object has a denial: some string in the array under "deny". */
  ghost predicate Denies(rs: RegoOutput) {
    && rs.Object? && "deny" in rs.fields && rs.fields["deny"].JArray?
    && exists item :: item in rs.fields["deny"].items && item.JStr?
  }

  ghost predicate AsksForApproval(rs: RegoOutput) {
    rs.Object? && "require_approval" in rs.fields && rs.fields["require_approval"] == JBool(true)
  }

  /** The items of the array under a key; anything else counts as no items. */
  ghost function ItemsUnder(fields: map<string, Json>, key: string): seq<Json> {
    if key in fields && fields[key].JArray? then fields[key].items else []
  }

  function CountStrings(items: seq<Json>): nat {
    if items == [] then 0 else (if items[0].JStr? then 1 else 0) + CountStrings(items[1..])
  }

  /** The messages are the string items, in order: each comes after as many messages as there are
      string items before it. */
  ghost predicate AreStringsOf(messages: seq<string>, items: seq<Json>) {
    && |messages| == CountStrings(items)
    && forall i: nat | i < |items| && items[i].JStr? ::
         CountStrings(items[..i]) < |messages| && messages[CountStrings(items[..i])] == items[i].s
  }

  lemma {:induction false} StringsInCounts(items: seq<Json>, s: string)
    ensures multiset(StringsIn(items))[s] == multiset(items)[JStr(s)]
  {
    if items != [] {
      StringsInCounts(items[1..], s);
      assert items == [items[0]] + items[1..];
    }
  }

  lemma {:induction false} StringsInOrder(items: seq<Json>)
    ensures AreStringsOf(StringsIn(items), items)
  {
    if items != [] {
      var rest := items[1..];
      StringsInOrder(rest);
      forall i: nat | i < |items| && items[i].JStr?
        ensures CountStrings(items[..i]) < |StringsIn(items)| && StringsIn(items)[CountStrings(items[..i])] == items[i].s
      {
        if i > 0 {
          assert items[..i][1..] == rest[..i - 1];
          assert rest[i - 1] == items[i];
        }
      }
    }
  }

  /** The reading of a Rego object, key by key. */
  lemma {:induction false} ObjectIsRead(fields: map<string, Json>)
    ensures
      var r := ParseResultSet(Object(fields));
      && AreStringsOf(r.deny, ItemsUnder(fields, "deny"))
      && AreStringsOf(r.warn, ItemsUnder(fields, "warn"))
      && AreStringsOf(r.trigger, ItemsUnder(fields, "trigger"))
      && (forall s: string ::
            && multiset(r.deny)[s] == multiset(ItemsUnder(fields, "deny"))[JStr(s)]
            && multiset(r.warn)[s] == multiset(ItemsUnder(fields, "warn"))[JStr(s)]
            && multiset(r.trigger)[s] == multiset(ItemsUnder(fields, "trigger"))[JStr(s)])
      && (r.allow <==> forall s: string :: JStr(s) !in ItemsUnder(fields, "deny"))
  {
    StringsInOrder(ItemsUnder(fields, "deny"));
    StringsInOrder(ItemsUnder(fields, "warn"));
    StringsInOrder(ItemsUnder(fields, "trigger"));
    forall key: string, s: string
      ensures multiset(ExtractStrings(fields, key))[s] == multiset(ItemsUnder(fields, key))[JStr(s)]
    {
      StringsInCounts(ItemsUnder(fields, key), s);
    }
    NoStringsIff(ItemsUnder(fields, "deny"));
    assert forall item | item in ItemsUnder(fields, "deny") && item.JStr? :: item == JStr(item.s);
  }

  lemma {:induction false} NoStringsIff(items: seq<Json>)
    ensures StringsIn(items) == [] <==> forall item | item in items :: !item.JStr?
  {
    if items != [] {
      NoStringsIff(items[1..]);
      assert items == [items[0]] + items[1..];
    }
  }

  function ParseResultSet(rs: RegoOutput): (r: Result)
    ensures r.allow <==> r.deny == []
    ensures r.allow <==> !Denies(rs)
    ensures r.requireApproval <==> AsksForApproval(rs)
    ensures !rs.Object? ==> r == Result(true, [], [], [], false)
  {
    match rs
    case Object(fields) =>
      NoStringsIff(ItemsUnder(fields, "deny"));
      var deny := ExtractStrings(fields, "deny");
      Result(deny == [], deny, ExtractStrings(fields, "warn"), ExtractStrings(fields, "trigger"),
             ExtractBool(fields, "require_approval"))
    case _ => ALLOW_ALL
  }

  // ---- merging -----------------------------------------------------------------

  function Append(m: Result, r: Result): Result {
    Result(m.allow, m.deny + r.deny, m.warn + r.warn, m.trigger + r.trigger,
           m.requireApproval || r.requireApproval)
  }

  /** The loop variable `merged` after the given records, in order. */
  function Accumulate(records: seq<EvalRecord>): Result {
    if records == [] then ALLOW_ALL
    else Append(Accumulate(records[..|records| - 1]), records[|records| - 1].result)
  }

  function Merge(records: seq<EvalRecord>): Result {
    var m := Accumulate(records);
    if m.deny != [] then m.(allow := false) else m
  }

  /** The records an evaluation must produce, as a set: one per selected policy. */
  ghost predicate IsEvaluation(policies: map<string, Policy>, ids: set<string>, eval: Evaluator,
                               records: seq<EvalRecord>)
  {
    && (forall rec | rec in records ::
          && rec.policy.id in policies.Keys * ids && rec.policy == policies[rec.policy.id]
          && eval(rec.policy).Some? && rec.result == ParseResultSet(eval(rec.policy).value))
    && (forall k | k in policies.Keys * ids :: exists rec :: rec in records && rec.policy == policies[k])
    && (forall i, j | 0 <= i < j < |records| :: records[i].policy != records[j].policy)
  }

  ghost predicate KeyedById(policies: map<string, Policy>) {
    forall k | k in policies :: policies[k].id == k
  }

  /** One more evaluated policy, not selected before. */
  lemma {:induction false} EvaluationSnoc(policies: map<string, Policy>, ids: set<string>, eval: Evaluator,
                                          records: seq<EvalRecord>, k: string)
    requires KeyedById(policies) && IsEvaluation(policies, ids, eval, records)
    requires k in policies && k !in ids && eval(policies[k]).Some?
    ensures IsEvaluation(policies, ids + {k}, eval,
                         records + [EvalRecord(policies[k], ParseResultSet(eval(policies[k]).value))])
  {
    var rec := EvalRecord(policies[k], ParseResultSet(eval(policies[k]).value));
    var more := records + [rec];
    forall j | j in policies.Keys * (ids + {k})
      ensures exists r :: r in more && r.policy == policies[j]
    {
      if j == k {
        assert more[|records|] in more;
      } else {
        var r0 :| r0 in records && r0.policy == policies[j];
        assert r0 in more;
      }
    }
  }

  /** The loop of EvaluateByIDs after it has visited the policies in `done`. */
  ghost predicate Walked(policies: map<string, Policy>, done: set<string>, eval: Evaluator,
                         merged: Result, records: seq<EvalRecord>)
  {
    && done <= policies.Keys && (forall k | k in done :: eval(policies[k]).Some?)
    && IsEvaluation(policies, done, eval, records) && merged == Accumulate(records)
  }

  lemma {:induction false} WalkBegins(policies: map<string, Policy>, eval: Evaluator)
    ensures Walked(policies, {}, eval, ALLOW_ALL, [])
  {
  }

  lemma {:induction false} WalkOne(policies: map<string, Policy>, done: set<string>, eval: Evaluator,
                                   merged: Result, records: seq<EvalRecord>, k: string)
    requires KeyedById(policies) && Walked(policies, done, eval, merged, records)
    requires k in policies && k !in done && eval(policies[k]).Some?
    ensures
      var rec := EvalRecord(policies[k], ParseResultSet(eval(policies[k]).value));
      Walked(policies, done + {k}, eval, Append(merged, rec.result), records + [rec])
  {
    hide IsEvaluation, Append, ParseResultSet;
    var rec := EvalRecord(policies[k], ParseResultSet(eval(policies[k]).value));
    EvaluationSnoc(policies, done, eval, records, k);
    assert (records + [rec])[..|records|] == records;
  }

  lemma {:induction false} WalkEnds(policies: map<string, Policy>, ids: set<string>, eval: Evaluator,
                                    merged: Result, records: seq<EvalRecord>)
    requires Walked(policies, policies.Keys * ids, eval, merged, records)
    ensures IsEvaluation(policies, ids, eval, records) && merged == Accumulate(records)
    ensures forall k | k in policies && k in ids :: eval(policies[k]).Some?
  {
    assert policies.Keys * (policies.Keys * ids) == policies.Keys * ids;
  }

  class Engine {
    var policies: map<string, Policy>

    constructor ()
      ensures policies == map[]
    {
      policies := map[];
    }

    /** `EvaluateByIDs`: the map is walked in an arbitrary order; the first
        evaluation error aborts the whole call. */
    method EvaluateByIDs(ids: seq<string>, eval: Evaluator)
      returns (merged: Result, records: seq<EvalRecord>, ok: bool)
      requires KeyedById(policies)
      ensures ok <==> forall k | k in policies && k in ids :: eval(policies[k]).Some?
      ensures ok ==> IsEvaluation(policies, (set k | k in ids), eval, records) && merged == Merge(records)
    {
      hide Walked, IsEvaluation, KeyedById, Append, ParseResultSet;
      var idSet := set k | k in ids;
      var table := policies;
      var selected := table.Keys * idSet;
      var remaining := selected;
      merged, records := ALLOW_ALL, [];
      WalkBegins(table, eval);
      assert selected - remaining == {};
      while remaining != {}
        invariant remaining <= selected
        invariant Walked(table, selected - remaining, eval, merged, records)
        decreases remaining
      {
        var k :| k in remaining;
        var out := eval(table[k]);
        if out.None? {
          return ALLOW_ALL, [], false;
        }
        WalkOne(table, selected - remaining, eval, merged, records, k);
        assert selected - (remaining - {k}) == selected - remaining + {k};
        var rec := EvalRecord(table[k], ParseResultSet(out.value));
        records := records + [rec];
        merged := Append(merged, rec.result);
        remaining := remaining - {k};
      }
      assert selected - remaining == selected;
      WalkEnds(table, idSet, eval, merged, records);
      if merged.deny != [] {
        merged := merged.(allow := false);
      }
      ok := true;
    }
  }

  /** The finalizer's own pass over the records. */
  method FlagsFromRecords(records: seq<EvalRecord>) returns (denied: bool, requiresApproval: bool)
    ensures denied <==> exists rec :: rec in records && !rec.result.allow
    ensures requiresApproval <==> exists rec :: rec in records && rec.result.requireApproval
  {
    denied, requiresApproval := false, false;
    for i := 0 to |records|
      invariant denied <==> exists rec :: rec in records[..i] && !rec.result.allow
      invariant requiresApproval <==> exists rec :: rec in records[..i] && rec.result.requireApproval
    {
      assert records[..i + 1] == records[..i] + [records[i]];
      if !records[i].result.allow {
        denied := true;
      }
      if records[i].result.requireApproval {
        requiresApproval := true;
      }
    }
    assert records[..|records|] == records;
  }

  // ---- order does not matter --------------------------------------------------------

  /** m carries the messages and the approval flag of rest and r together. */
  ghost predicate IsSum(m: Result, rest: Result, r: Result) {
    && multiset(m.deny) == multiset(rest.deny) + multiset(r.deny)
    && multiset(m.warn) == multiset(rest.warn) + multiset(r.warn)
    && multiset(m.trigger) == multiset(rest.trigger) + multiset(r.trigger)
    && m.requireApproval == (rest.requireApproval || r.requireApproval)
  }

  lemma {:induction false} AppendSum(m: Result, rest: Result, r: Result, x: Result)
    requires IsSum(m, rest, r)
    ensures IsSum(Append(m, x), Append(rest, x), r)
  {
  }

  lemma {:induction false} AppendIsSum(m: Result, r: Result)
    ensures IsSum(Append(m, r), m, r)
  {
  }

  lemma {:induction false} DropAndTrim(records: seq<EvalRecord>, i: nat)
    requires i < |records| - 1
    ensures
      var rest, last := records[..i] + records[i + 1..], |records| - 1;
      && rest[..|rest| - 1] == records[..last][..i] + records[..last][i + 1..]
      && rest[|rest| - 1] == records[last]
  {
  }

  lemma {:induction false} AccumulateRemove(records: seq<EvalRecord>, i: nat)
    requires i < |records|
    ensures IsSum(Accumulate(records), Accumulate(records[..i] + records[i + 1..]), records[i].result)
  {
    var last := |records| - 1;
    var init := records[..last];
    if i == last {
      assert records[..i] + records[i + 1..] == init;
      AppendIsSum(Accumulate(init), records[i].result);
    } else {
      AccumulateRemove(init, i);
      DropAndTrim(records, i);
      AppendSum(Accumulate(init), Accumulate(init[..i] + init[i + 1..]), records[i].result, records[last].result);
    }
  }

  ghost predicate SameUpToOrder(a: Result, b: Result) {
    && a.allow == b.allow && a.requireApproval == b.requireApproval
    && multiset(a.deny) == multiset(b.deny)
    && multiset(a.warn) == multiset(b.warn)
    && multiset(a.trigger) == multiset(b.trigger)
  }

  lemma {:induction false} SumsAgree(a: Result, restA: Result, b: Result, restB: Result, r: Result)
    requires IsSum(a, restA, r) && IsSum(b, restB, r) && SameUpToOrder(restA, restB) && a.allow && b.allow
    ensures SameUpToOrder(a, b)
  {
  }

  lemma {:induction false} RemoveOne(s: seq<EvalRecord>, i: nat)
    requires i < |s|
    ensures multiset(s[..i] + s[i + 1..]) == multiset(s) - multiset{s[i]}
  {
    assert s == s[..i] + [s[i]] + s[i + 1..];
  }

  lemma {:induction false} AccumulatePermuted(a: seq<EvalRecord>, b: seq<EvalRecord>)
    requires multiset(a) == multiset(b)
    ensures SameUpToOrder(Accumulate(a), Accumulate(b))
    decreases |a|
  {
    hide Accumulate, SameUpToOrder, IsSum;
    if a == [] {
      assert |multiset(b)| == 0;
      assert a == b;
      SameAsItself(Accumulate(a));
    } else {
      assert a[0] in multiset(b);
      var i :| 0 <= i < |b| && b[i] == a[0];
      var a', b' := a[..0] + a[1..], b[..i] + b[i + 1..];
      RemoveOne(a, 0);
      RemoveOne(b, i);
      AccumulatePermuted(a', b');
      AccumulateRemove(a, 0);
      AccumulateRemove(b, i);
      AllowStaysTrue(a);
      AllowStaysTrue(b);
      SumsAgree(Accumulate(a), Accumulate(a'), Accumulate(b), Accumulate(b'), a[0].result);
    }
  }

  lemma {:induction false} SameAsItself(r: Result)
    ensures SameUpToOrder(r, r)
  {
  }

  lemma {:induction false} AllowStaysTrue(records: seq<EvalRecord>)
    ensures Accumulate(records).allow
  {
    if records != [] {
      AllowStaysTrue(records[..|records| - 1]);
    }
  }

  /** Whatever order Go's map iteration picks, the merged answer is the same up
      to the order of the messages. */
  lemma {:induction false} MergeIgnoresMapOrder(policies: map<string, Policy>, ids: set<string>, eval: Evaluator,
                             a: seq<EvalRecord>, b: seq<EvalRecord>)
    requires IsEvaluation(policies, ids, eval, a) && IsEvaluation(policies, ids, eval, b)
    ensures multiset(a) == multiset(b)
    ensures SameUpToOrder(Merge(a), Merge(b))
  {
    forall rec: EvalRecord
      ensures multiset(a)[rec] == multiset(b)[rec]
    {
      CountAtMostOne(a, rec);
      CountAtMostOne(b, rec);
      SameRecords(policies, ids, eval, a, b, rec);
      SameRecords(policies, ids, eval, b, a, rec);
    }
    AccumulatePermuted(a, b);
    EmptyByMultiset(Accumulate(a).deny, Accumulate(b).deny);
  }

  lemma {:induction false} SameRecords(policies: map<string, Policy>, ids: set<string>, eval: Evaluator,
                    a: seq<EvalRecord>, b: seq<EvalRecord>, rec: EvalRecord)
    requires IsEvaluation(policies, ids, eval, a) && IsEvaluation(policies, ids, eval, b)
    ensures rec in a ==> rec in b
  {
    if rec in a {
      var other :| other in b && other.policy == policies[rec.policy.id];
    }
  }

  /** Loading or selecting more policies keeps every record there was. */
  lemma {:induction false} MorePoliciesMoreRecords(policies: map<string, Policy>, ids: set<string>,
                                                   more: map<string, Policy>, moreIds: set<string>, eval: Evaluator,
                                                   a: seq<EvalRecord>, b: seq<EvalRecord>)
    requires IsEvaluation(policies, ids, eval, a) && IsEvaluation(more, moreIds, eval, b)
    requires ids <= moreIds && forall k | k in policies :: k in more && more[k] == policies[k]
    ensures forall rec | rec in a :: rec in b
  {
    forall rec | rec in a
      ensures rec in b
    {
      var k := rec.policy.id;
      assert k in more.Keys * moreIds;
      var other :| other in b && other.policy == more[k];
    }
  }

  lemma {:induction false} EmptyByMultiset(s: seq<string>, t: seq<string>)
    requires multiset(s) == multiset(t)
    ensures s == [] <==> t == []
  {
    assert |s| == |multiset(s)| == |multiset(t)| == |t|;
  }

  lemma {:induction false} CountAtMostOne(s: seq<EvalRecord>, rec: EvalRecord)
    requires forall i, j | 0 <= i < j < |s| :: s[i].policy != s[j].policy
    ensures multiset(s)[rec] == if rec in s then 1 else 0
  {
    if s != [] {
      var last := |s| - 1;
      assert s == s[..last] + [s[last]];
      CountAtMostOne(s[..last], rec);
    }
  }

  /** A single denial blocks, and the finalizer's recomputed flag agrees: the
      merged Allow holds exactly when every record allows. */
  lemma {:induction false} MergedAllowIsUnanimous(records: seq<EvalRecord>)
    requires forall rec | rec in records :: rec.result.allow <==> rec.result.deny == []
    ensures Merge(records).allow <==> forall rec | rec in records :: rec.result.allow
    ensures Merge(records).requireApproval <==> exists rec :: rec in records && rec.result.requireApproval
  {
    AllowStaysTrue(records);
    if records != [] {
      var init, rec := records[..|records| - 1], records[|records| - 1];
      assert records == init + [rec];
      MergedAllowIsUnanimous(init);
      AllowStaysTrue(init);
      assert rec in records;
      if !rec.result.requireApproval && Merge(init).requireApproval {
        var w :| w in init && w.result.requireApproval;
        assert w in records;
      }
    }
  }

  /** The flags the finalizer recomputes from the stored records agree with the merged
      result it drops. */
  lemma {:induction false} FinalizerAgreesWithMerge(policies: map<string, Policy>, ids: set<string>, eval: Evaluator,
                                                    records: seq<EvalRecord>)
    requires IsEvaluation(policies, ids, eval, records)
    ensures !Merge(records).allow <==> exists rec :: rec in records && !rec.result.allow
    ensures Merge(records).requireApproval <==> exists rec :: rec in records && rec.result.requireApproval
  {
    MergedAllowIsUnanimous(records);
  }

  // ---- back to the Rego objects ---------------------------------------------------------

  /** Some selected policy's object has a denial. */
  ghost predicate SomePolicyDenies(policies: map<string, Policy>, ids: set<string>, eval: Evaluator) {
    exists k :: k in policies && k in ids && eval(policies[k]).Some? && Denies(eval(policies[k]).value)
  }

  ghost predicate SomePolicyAsks(policies: map<string, Policy>, ids: set<string>, eval: Evaluator) {
    exists k :: k in policies && k in ids && eval(policies[k]).Some? && AsksForApproval(eval(policies[k]).value)
  }

  /** The flags over the records are questions about the objects the selected policies returned. */
  lemma {:induction false} FlagsAreAboutObjects(policies: map<string, Policy>, ids: set<string>, eval: Evaluator,
                                                records: seq<EvalRecord>)
    requires KeyedById(policies) && IsEvaluation(policies, ids, eval, records)
    ensures (exists rec :: rec in records && !rec.result.allow) <==> SomePolicyDenies(policies, ids, eval)
    ensures (exists rec :: rec in records && rec.result.requireApproval) <==> SomePolicyAsks(policies, ids, eval)
  {
    hide ParseResultSet, Denies, AsksForApproval;
    forall k | k in policies && k in ids
      ensures exists rec :: rec in records && rec.policy == policies[k] && eval(rec.policy).Some?
                && rec.result == ParseResultSet(eval(policies[k]).value)
    {
      var rec :| rec in records && rec.policy == policies[k];
    }
    forall rec | rec in records
      ensures rec.policy.id in policies && rec.policy.id in ids && policies[rec.policy.id] == rec.policy
    {
    }
  }

  /** Every message of a record is in the merged result, as often as the records have it together. */
  function Occurrences(records: seq<EvalRecord>, pick: Result -> seq<string>): multiset<string> {
    if records == [] then multiset{}
    else Occurrences(records[..|records| - 1], pick) + multiset(pick(records[|records| - 1].result))
  }

  lemma {:induction false} MergeKeepsMessages(records: seq<EvalRecord>)
    ensures multiset(Merge(records).deny) == Occurrences(records, (r: Result) => r.deny)
    ensures multiset(Merge(records).warn) == Occurrences(records, (r: Result) => r.warn)
    ensures multiset(Merge(records).trigger) == Occurrences(records, (r: Result) => r.trigger)
  {
    if records != [] {
      MergeKeepsMessages(records[..|records| - 1]);
    }
  }
}
