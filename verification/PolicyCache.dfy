/** The policy engine as a cache of the policies table: startup load, and the
    Validate / Create / Update / Delete handlers, which write both. */
module PolicyCache {
  import opened Options
  import opened PolicyEngine

  datatype Row = Row(org: string, name: string, kind: string, body: string, active: bool)

  type Table = map<string, Row>
  type Loaded = map<string, Policy>

  /** Whether Rego prepares: module name, hook type, source. */
  type Compiler = (string, string, string) -> bool

  datatype State = State(table: Table, engine: Loaded)

  datatype Op =
    | Validate(kind: string, body: string, hasInput: bool)
    | Create(newId: string, row: Row, inserted: bool)
    | Update(id: string, org: string, name: Option<string>, newBody: Option<string>, active: Option<bool>)
    | Delete(id: string, org: string)

  const TEMP_ID := "__validate__"
  const SCRATCH_ID := "validate"

  // ---- what each handler does to (table, engine) ---------------------------------

  function Load(c: Compiler, e: Loaded, id: string, name: string, kind: string, source: string): Loaded {
    if c(name, kind, source) then e[id := Policy(id, name, kind, source)] else e
  }

  function Or<T>(o: Option<T>, fallback: T): T {
    if o.Some? then o.value else fallback
  }

  function Reload(c: Compiler, st: State, id: string): State
    requires id in st.table
  {
    var row := st.table[id];
    st.(engine := if row.active then Load(c, st.engine, id, row.name, row.kind, row.body) else st.engine - {id})
  }

  function ApplyValidate(c: Compiler, st: State, op: Op): State
    requires op.Validate?
  {
    if op.kind == "" || op.body == "" || op.hasInput || !c(TEMP_ID, op.kind, op.body) then st
    else st.(engine := st.engine - {TEMP_ID})
  }

  function ApplyCreate(c: Compiler, st: State, op: Op): State
    requires op.Create?
  {
    var row := op.row;
    if row.name == "" || row.kind == "" || row.body == "" || !c(row.name, row.kind, row.body) then st
    else
      var st1 := st.(engine := st.engine - {SCRATCH_ID});
      if !op.inserted then st1
      else
        var st2 := st1.(table := st1.table[op.newId := row]);
        if row.active then Reload(c, st2, op.newId) else st2
  }

  function Updated(row: Row, op: Op): Row
    requires op.Update?
  {
    row.(name := Or(op.name, row.name), body := Or(op.newBody, row.body), active := Or(op.active, row.active))
  }

  function ApplyUpdate(c: Compiler, st: State, op: Op): State
    requires op.Update?
  {
    var found := op.id in st.table && st.table[op.id].org == op.org;
    if !found then st
    else
      var row := st.table[op.id];
      if op.newBody.Some? && !c(op.id, row.kind, op.newBody.value) then st
      else
        var st1 := if op.newBody.Some? then st.(engine := st.engine - {SCRATCH_ID}) else st;
        Reload(c, st1.(table := st1.table[op.id := Updated(row, op)]), op.id)
  }

  function ApplyDelete(st: State, op: Op): State
    requires op.Delete?
  {
    if op.id in st.table && st.table[op.id].org == op.org
    then State(st.table - {op.id}, st.engine - {op.id})
    else st
  }

  function Apply(c: Compiler, st: State, op: Op): State {
    match op
    case Validate(_, _, _) => ApplyValidate(c, st, op)
    case Create(_, _, _) => ApplyCreate(c, st, op)
    case Update(_, _, _, _, _) => ApplyUpdate(c, st, op)
    case Delete(_, _) => ApplyDelete(st, op)
  }

  function ApplyAll(c: Compiler, st: State, ops: seq<Op>): State {
    if ops == [] then st else Apply(c, ApplyAll(c, st, ops[..|ops| - 1]), ops[|ops| - 1])
  }

  // ---- the cache invariant ----------------------------------------------------------

  /** The engine a restart would build from the table. */
  function CompilingActiveRows(c: Compiler, table: Table): Loaded {
    map id | id in table && table[id].active && c(table[id].name, table[id].kind, table[id].body)
      :: Policy(id, table[id].name, table[id].kind, table[id].body)
  }

  ghost predicate CacheExact(c: Compiler, st: State) {
    st.engine == CompilingActiveRows(c, st.table)
  }

  /** Table ids are UUIDs, never one of the two scratch ids of the handlers. */
  ghost predicate RealIds(table: Table) {
    TEMP_ID !in table && SCRATCH_ID !in table
  }

  /** INSERT hands out a fresh UUID. */
  ghost predicate FreshId(st: State, op: Op) {
    op.Create? ==> op.newId !in st.table && op.newId !in {TEMP_ID, SCRATCH_ID}
  }

  ghost predicate ValidOps(c: Compiler, st: State, ops: seq<Op>) {
    forall i | 0 <= i < |ops| :: FreshId(ApplyAll(c, st, ops[..i]), ops[i])
  }

  /** Compilation depends on hook type and source only, the module name being a label. */
  ghost predicate NameBlind(c: Compiler) {
    forall n: string, m: string, kind: string, source: string :: c(n, kind, source) == c(m, kind, source)
  }

  /** Rewriting one row and reloading it keeps the cache exact. */
  lemma {:induction false} ReloadKeepsCacheExact(c: Compiler, st: State, id: string, row: Row)
    requires CacheExact(c, st)
    requires id in st.engine ==> !row.active || c(row.name, row.kind, row.body)
    ensures
      var st' := State(st.table[id := row], st.engine);
      CacheExact(c, Reload(c, st', id))
  {
    var st' := State(st.table[id := row], st.engine);
    var e, want := Reload(c, st', id).engine, CompilingActiveRows(c, st'.table);
    forall k
      ensures k in e <==> k in want
      ensures k in want ==> e[k] == want[k]
    {
    }
  }

  lemma {:induction false} UpdateKeepsCacheExact(c: Compiler, st: State, op: Op)
    requires NameBlind(c) && RealIds(st.table) && CacheExact(c, st) && op.Update?
    ensures RealIds(Apply(c, st, op).table) && CacheExact(c, Apply(c, st, op))
  {
    if op.id in st.table && st.table[op.id].org == op.org {
      var row := Updated(st.table[op.id], op);
      assert st.engine - {SCRATCH_ID} == st.engine;
      assert op.id in st.engine ==> c(st.table[op.id].name, row.kind, st.table[op.id].body);
      if op.newBody.None? || c(op.id, row.kind, op.newBody.value) {
        assert op.id in st.engine ==> c(row.name, row.kind, row.body);
        ReloadKeepsCacheExact(c, st, op.id, row);
      }
    }
  }

  lemma {:induction false} OpKeepsCacheExact(c: Compiler, st: State, op: Op)
    requires NameBlind(c) && RealIds(st.table) && CacheExact(c, st) && FreshId(st, op)
    ensures RealIds(Apply(c, st, op).table) && CacheExact(c, Apply(c, st, op))
  {
    if op.Update? {
      UpdateKeepsCacheExact(c, st, op);
    } else if op.Create? && op.inserted {
      assert st.engine - {SCRATCH_ID} == st.engine;
      ReloadKeepsCacheExact(c, st, op.newId, op.row);
    }
  }

  lemma {:induction false} OpsKeepCacheExact(c: Compiler, st: State, ops: seq<Op>)
    requires NameBlind(c) && RealIds(st.table) && CacheExact(c, st) && ValidOps(c, st, ops)
    ensures RealIds(ApplyAll(c, st, ops).table) && CacheExact(c, ApplyAll(c, st, ops))
  {
    if ops != [] {
      var init := ops[..|ops| - 1];
      forall i | 0 <= i < |init|
        ensures FreshId(ApplyAll(c, st, init[..i]), init[i])
      {
        assert init[..i] == ops[..i];
      }
      OpsKeepCacheExact(c, st, init);
      OpKeepsCacheExact(c, ApplyAll(c, st, init), ops[|ops| - 1]);
    }
  }

  /** A name the compiler dislikes leaves the old entry behind: Update ignores the
      error of its final Load. */
  lemma {:induction false} NameSensitiveCompilerGoesStale(c: Compiler, n: string, m: string, kind: string, source: string)
    requires c(n, kind, source) && !c(m, kind, source)
    ensures exists table: Table, ops: seq<Op> ::
      var st := State(table, CompilingActiveRows(c, table));
      RealIds(table) && ValidOps(c, st, ops) && !CacheExact(c, ApplyAll(c, st, ops))
  {
    var table: Table := map["p" := Row("o", n, kind, source, true)];
    var st := State(table, CompilingActiveRows(c, table));
    var op := Update("p", "o", Some(m), None, None);
    var after := Apply(c, st, op);
    assert "p" in after.engine && after.engine["p"].name == n;
    assert after.table["p"] == Row("o", m, kind, source, true);
    assert "p" !in CompilingActiveRows(c, after.table);
    assert [op][..0] == [];
    assert ApplyAll(c, st, [op]) == after;
    assert ValidOps(c, st, [op]);
  }

  ghost predicate AlwaysExact(c: Compiler) {
    forall table: Table, ops: seq<Op> | RealIds(table) && ValidOps(c, State(table, CompilingActiveRows(c, table)), ops) ::
      CacheExact(c, ApplyAll(c, State(table, CompilingActiveRows(c, table)), ops))
  }

  /** From a startup load, after every sequence of handler calls, accepted or
      rejected, the engine holds exactly the active compiling rows with their
      current name, type and body -- if and only if compiling ignores the name. */
  lemma {:induction false} CacheExactIffNameBlind(c: Compiler)
    ensures AlwaysExact(c) <==> NameBlind(c)
  {
    if NameBlind(c) {
      forall table: Table, ops: seq<Op> | RealIds(table) && ValidOps(c, State(table, CompilingActiveRows(c, table)), ops)
        ensures CacheExact(c, ApplyAll(c, State(table, CompilingActiveRows(c, table)), ops))
      {
        OpsKeepCacheExact(c, State(table, CompilingActiveRows(c, table)), ops);
      }
    } else {
      var n: string, m: string, kind: string, source: string :| c(n, kind, source) != c(m, kind, source);
      if c(n, kind, source) {
        NameSensitiveCompilerGoesStale(c, n, m, kind, source);
      } else {
        NameSensitiveCompilerGoesStale(c, m, n, kind, source);
      }
    }
  }

  lemma {:induction false} NothingLoaded(c: Compiler, table: Table, active: set<string>)
    requires active == set id | id in table && table[id].active
    ensures CompilingActiveRows(c, table - active) == map[]
  {
  }

  lemma {:induction false} RestrictMore(c: Compiler, table: Table, remaining: set<string>, id: string)
    requires id in remaining && remaining <= table.Keys && table[id].active
    ensures
      var e, e', row := CompilingActiveRows(c, table - remaining), CompilingActiveRows(c, table - (remaining - {id})), table[id];
      id !in e && e' == if c(row.name, row.kind, row.body) then e[id := Policy(id, row.name, row.kind, row.body)] else e
  {
    var rest := table - (remaining - {id});
    assert rest == (table - remaining)[id := table[id]];
    var e, e' := CompilingActiveRows(c, table - remaining), CompilingActiveRows(c, rest);
    forall k
      ensures k != id ==> (k in e' <==> k in e)
    {
    }
  }

  /** Loading one more active row, as the startup loop does. */
  lemma {:induction false} LoadOneMore(c: Compiler, table: Table, remaining: set<string>, id: string)
    requires id in remaining && remaining <= table.Keys && table[id].active
    ensures
      var e, row := CompilingActiveRows(c, table - remaining), table[id];
      var e' := Load(c, e, id, row.name, row.kind, row.body);
      && e' == CompilingActiveRows(c, table - (remaining - {id}))
      && |e'| == |e| + if c(row.name, row.kind, row.body) then 1 else 0
  {
    hide CompilingActiveRows;
    RestrictMore(c, table, remaining, id);
    var e, row := CompilingActiveRows(c, table - remaining), table[id];
    var e' := Load(c, e, id, row.name, row.kind, row.body);
    assert c(row.name, row.kind, row.body) ==> e'.Keys == e.Keys + {id};
    assert |e'| == |e'.Keys| && |e| == |e.Keys|;
  }

  // ---- retired policies ---------------------------------------------------------------

  /** A call that could bring policy id back. */
  predicate Revives(op: Op, id: string) {
    (op.Create? && op.newId == id) || (op.Update? && op.id == id)
  }

  lemma {:induction false} OpKeepsOut(c: Compiler, st: State, op: Op, id: string)
    requires id !in st.engine && id !in {TEMP_ID, SCRATCH_ID}
    requires Revives(op, id) ==> op.Update? && id !in st.table
    ensures id !in Apply(c, st, op).engine
    ensures id !in st.table ==> id !in Apply(c, st, op).table
  {
  }

  /** The calls that retire a policy: an accepted deletion, or an accepted update that makes it inactive. */
  predicate Retires(c: Compiler, st: State, op: Op, id: string) {
    && id in st.table
    && (|| op == Delete(id, st.table[id].org)
        || (op.Update? && op.id == id && op.org == st.table[id].org && op.active == Some(false)
            && (op.newBody.Some? ==> c(id, st.table[id].kind, op.newBody.value))))
  }

  /** From the moment it is retired a policy is in the engine no more, and a deleted one in the table
      no more, whatever calls follow, until it is updated, or its id is handed out again. Compiling
      may depend on anything. */
  lemma {:induction false} RetiredStaysOut(c: Compiler, st: State, op: Op, id: string, ops: seq<Op>)
    requires Retires(c, st, op, id) && id !in {TEMP_ID, SCRATCH_ID}
    requires forall later | later in ops && Revives(later, id) :: op.Delete? && later.Update?
    ensures id !in ApplyAll(c, Apply(c, st, op), ops).engine
    ensures op.Delete? ==> id !in ApplyAll(c, Apply(c, st, op), ops).table
  {
    if ops != [] {
      var init, last := ops[..|ops| - 1], ops[|ops| - 1];
      assert last in ops && forall later | later in init :: later in ops;
      RetiredStaysOut(c, st, op, id, init);
      OpKeepsOut(c, ApplyAll(c, Apply(c, st, op), init), last, id);
    }
  }

  // ---- the handlers, step by step ---------------------------------------------------

  class PolicyService {
    var table: Table
    var engine: Loaded
    const compiles: Compiler

    constructor (c: Compiler, rows: Table)
      ensures compiles == c && table == rows && engine == map[]
    {
      compiles, table, engine := c, rows, map[];
    }

    ghost function Current(): State
      reads this
    {
      State(table, engine)
    }

    method LoadPolicy(id: string, name: string, kind: string, source: string) returns (ok: bool)
      modifies this`engine
      ensures ok == compiles(name, kind, source)
      ensures engine == Load(compiles, old(engine), id, name, kind, source)
    {
      ok := compiles(name, kind, source);
      if ok {
        engine := engine[id := Policy(id, name, kind, source)];
      }
    }

    method UnloadPolicy(id: string)
      modifies this`engine
      ensures engine == old(engine) - {id}
    {
      engine := engine - {id};
    }

    /** Startup: rows come in any order; rows that do not compile are skipped. */
    method LoadEngine() returns (loaded: nat)
      requires engine == map[]
      modifies this`engine
      ensures CacheExact(compiles, Current())
      ensures loaded == |engine|
    {
      hide CompilingActiveRows, Load;
      var remaining := set id | id in table && table[id].active;
      loaded := 0;
      NothingLoaded(compiles, table, remaining);
      while remaining != {}
        invariant remaining <= table.Keys
        invariant forall id | id in remaining :: table[id].active
        invariant engine == CompilingActiveRows(compiles, table - remaining)
        invariant loaded == |engine|
        decreases remaining
      {
        var id :| id in remaining;
        var row := table[id];
        LoadOneMore(compiles, table, remaining, id);
        var ok := LoadPolicy(id, row.name, row.kind, row.body);
        if ok {
          loaded := loaded + 1;
        }
        remaining := remaining - {id};
      }
      assert table - remaining == table;
    }

    /** Load or unload the engine entry of a stored row, dropping a compile error. */
    method ReloadPolicy(id: string)
      requires id in table
      modifies this`engine
      ensures Current() == Reload(compiles, old(Current()), id)
    {
      var row := table[id];
      if row.active {
        var _ := LoadPolicy(id, row.name, row.kind, row.body);
      } else {
        UnloadPolicy(id);
      }
    }

    /** With an input the source is compiled and evaluated aside; `evaluates` says how that goes. */
    method ValidateBody(kind: string, body: string, hasInput: bool, evaluates: bool) returns (ok: bool)
      modifies this`engine
      ensures Current() == Apply(compiles, old(Current()), Validate(kind, body, hasInput))
      ensures ok <==>
        && kind != "" && body != ""
        && if hasInput then compiles("test", kind, body) && evaluates else compiles("__validate__", kind, body)
      ensures engine == if ok && !hasInput then old(engine) - {"__validate__"} else old(engine)
    {
      if kind == "" || body == "" {
        return false;
      }
      if hasInput {
        return compiles("test", kind, body) && evaluates;
      }
      ok := LoadPolicy(TEMP_ID, TEMP_ID, kind, body);
      if ok {
        UnloadPolicy(TEMP_ID);
      }
    }

    method CreatePolicy(newId: string, row: Row, inserted: bool) returns (ok: bool)
      modifies this
      ensures Current() == Apply(compiles, old(Current()), Create(newId, row, inserted))
      ensures ok <==> row.name != "" && row.kind != "" && row.body != "" && compiles(row.name, row.kind, row.body) && inserted
      ensures table == if ok then old(table)[newId := row] else old(table)
      ensures ok ==>
        engine == if row.active then (old(engine) - {"validate"})[newId := Policy(newId, row.name, row.kind, row.body)]
                  else old(engine) - {"validate"}
    {
      if row.name == "" || row.kind == "" || row.body == "" {
        return false;
      }
      ok := LoadPolicy(SCRATCH_ID, row.name, row.kind, row.body);
      if !ok {
        return;
      }
      UnloadPolicy(SCRATCH_ID);
      if !inserted {
        return false;
      }
      table := table[newId := row];
      if row.active {
        var _ := LoadPolicy(newId, row.name, row.kind, row.body);
      }
    }

    method UpdatePolicy(id: string, org: string, name: Option<string>, newBody: Option<string>, active: Option<bool>)
      returns (ok: bool)
      modifies this
      ensures Current() == Apply(compiles, old(Current()), Update(id, org, name, newBody, active))
      ensures ok <==>
        && id in old(table) && old(table)[id].org == org
        && (newBody.Some? ==> compiles(id, old(table)[id].kind, newBody.value))
      ensures !ok ==> table == old(table) && engine == old(engine)
      ensures ok ==>
        && table.Keys == old(table).Keys && (forall k | k in table && k != id :: table[k] == old(table)[k])
        && table[id].org == old(table)[id].org && table[id].kind == old(table)[id].kind
        && table[id].name == (if name.Some? then name.value else old(table)[id].name)
        && table[id].body == (if newBody.Some? then newBody.value else old(table)[id].body)
        && table[id].active == (if active.Some? then active.value else old(table)[id].active)
      ensures ok && !table[id].active ==> id !in engine
      ensures ok && table[id].active && compiles(table[id].name, table[id].kind, table[id].body) ==>
        id in engine && engine[id] == Policy(id, table[id].name, table[id].kind, table[id].body)
      ensures forall k | k !in {id, "validate"} :: k in engine <==> k in old(engine)
      ensures forall k | k !in {id, "validate"} && k in engine :: engine[k] == old(engine)[k]
    {
      if newBody.Some? {
        if id !in table || table[id].org != org {
          return false;
        }
        ok := LoadPolicy(SCRATCH_ID, id, table[id].kind, newBody.value);
        if !ok {
          return;
        }
        UnloadPolicy(SCRATCH_ID);
        assert engine == old(engine) - {SCRATCH_ID};
      }
      if id !in table || table[id].org != org {
        return false;
      }
      var row := table[id].(name := Or(name, table[id].name), body := Or(newBody, table[id].body),
                            active := Or(active, table[id].active));
      table := table[id := row];
      ReloadPolicy(id);
      ok := true;
    }

    method DeletePolicy(id: string, org: string) returns (ok: bool)
      modifies this
      ensures Current() == Apply(compiles, old(Current()), Delete(id, org))
      ensures ok <==> id in old(table) && old(table)[id].org == org
      ensures table == (if ok then old(table) - {id} else old(table))
      ensures engine == (if ok then old(engine) - {id} else old(engine))
    {
      if id !in table || table[id].org != org {
        return false;
      }
      table := table - {id};
      UnloadPolicy(id);
      ok := true;
    }
  }
}
