/** Structured diff of two plans of one stack. Go maps are walked in arbitrary
    order, so every loop over one picks its next key freely. */
module PlanDiff {
  import opened Options

  type Bytes = seq<bv8>

  /** A decoded JSON value; numbers, booleans and arrays stay opaque. */
  datatype Json = JNull | JString(s: Bytes) | JObject(fields: map<string, Json>) | JOther(id: int)

  /** `json.Marshal` of a value. */
  type Marshaler = Json -> string

  datatype Resource = Resource(address: string, kind: string, actions: seq<string>, after: Json)

  datatype Entry = Entry(address: string, kind: string, actions: seq<string>)

  datatype Changed = Changed(address: string, kind: string, fromActions: seq<string>, toActions: seq<string>,
                             attrsBefore: map<string, Json>, attrsAfter: map<string, Json>)

  datatype Diff = Diff(added: seq<Entry>, removed: seq<Entry>, changed: seq<Changed>)

  type Index = map<string, Resource>

  // ---- indexing ------------------------------------------------------------------------

  predicate IsNoOp(actions: seq<string>) {
    |actions| == 1 && actions[0] == "no-op"
  }

  /** Per address, the last change that does something. */
  function IndexOf(changes: seq<Resource>): (m: Index)
    ensures forall a | a in m :: m[a].address == a && m[a] in changes && !IsNoOp(m[a].actions)
  {
    if changes == [] then map[]
    else
      var last := changes[|changes| - 1];
      var m := IndexOf(changes[..|changes| - 1]);
      if IsNoOp(last.actions) then m else m[last.address := last]
  }

  predicate IsRealChange(c: Resource, a: string) {
    c.address == a && !IsNoOp(c.actions)
  }

  /** changes[i] is the last change of address a that does something. */
  ghost predicate IsLastRealChange(changes: seq<Resource>, i: nat, a: string) {
    && i < |changes| && IsRealChange(changes[i], a)
    && forall j | i < j < |changes| :: !IsRealChange(changes[j], a)
  }

  /** Where the last real change is, by the last change of the plan. */
  lemma {:induction false} LastChangeSnoc(changes: seq<Resource>, a: string, i: nat)
    requires changes != []
    ensures
      var last := |changes| - 1;
      IsLastRealChange(changes, i, a) <==>
        if IsRealChange(changes[last], a) then i == last
        else i < last && IsLastRealChange(changes[..last], i, a)
  {
    var init := changes[..|changes| - 1];
    assert forall j | 0 <= j < |init| :: changes[j] == init[j];
  }

  /** The index holds exactly the addresses some change of which does something, each with the last such. */
  lemma {:induction false} IndexHoldsLastChange(changes: seq<Resource>, a: string)
    ensures a in IndexOf(changes) <==> exists i: nat :: IsLastRealChange(changes, i, a)
    ensures forall i: nat | IsLastRealChange(changes, i, a) :: i < |changes| && a in IndexOf(changes) && IndexOf(changes)[a] == changes[i]
  {
    if changes == [] {
      NoChanges(a);
    } else {
      hide IsLastRealChange, IsNoOp;
      var last: nat := |changes| - 1;
      var init := changes[..last];
      IndexHoldsLastChange(init, a);
      LastChangeSnoc(changes, a, last);
      forall i: nat
        ensures IsLastRealChange(changes, i, a) <==>
          if IsRealChange(changes[last], a) then i == last else i < last && IsLastRealChange(init, i, a)
      {
        LastChangeSnoc(changes, a, i);
      }
      if i: nat :| IsLastRealChange(init, i, a) {
        assert i < last;
      }
    }
  }

  lemma {:induction false} NoChanges(a: string)
    ensures a !in IndexOf([]) && forall i: nat :: !IsLastRealChange([], i, a)
  {
  }

  /** An address is indexed exactly if some change of it has other actions than a lone "no-op". */
  lemma {:induction false} IndexedExactly(changes: seq<Resource>, a: string)
    ensures a in IndexOf(changes) <==> exists i :: 0 <= i < |changes| && changes[i].address == a && changes[i].actions != ["no-op"]
  {
    if changes != [] {
      var init, last := changes[..|changes| - 1], |changes| - 1;
      IndexedExactly(init, a);
      assert forall i | 0 <= i < last :: changes[i] == init[i];
    }
  }

  method IndexPlanResources(changes: seq<Resource>) returns (m: Index)
    ensures m == IndexOf(changes)
    ensures forall a :: a in m <==> exists i :: 0 <= i < |changes| && changes[i].address == a && changes[i].actions != ["no-op"]
    ensures forall a | a in m ::
      exists i ::
        && 0 <= i < |changes| && changes[i] == m[a] && changes[i].address == a && changes[i].actions != ["no-op"]
        && forall j | i < j < |changes| :: changes[j].address == a ==> changes[j].actions == ["no-op"]
  {
    m := map[];
    for i := 0 to |changes|
      invariant m == IndexOf(changes[..i])
    {
      assert changes[..i + 1][..i] == changes[..i];
      if !IsNoOp(changes[i].actions) {
        m := m[changes[i].address := changes[i]];
      }
    }
    assert changes[..|changes|] == changes;
    forall a
      ensures a in m <==> exists i :: 0 <= i < |changes| && changes[i].address == a && changes[i].actions != ["no-op"]
    {
      IndexedExactly(changes, a);
    }
    forall a | a in m
      ensures exists i ::
                && 0 <= i < |changes| && changes[i] == m[a] && changes[i].address == a && changes[i].actions != ["no-op"]
                && forall j | i < j < |changes| :: changes[j].address == a ==> changes[j].actions == ["no-op"]
    {
      IndexHoldsLastChange(changes, a);
      var i: nat :| IsLastRealChange(changes, i, a);
    }
  }

  // ---- attributes -----------------------------------------------------------------------

  const ELLIPSIS: Bytes := [0xE2, 0x80, 0xA6]

  function CapString(v: Json): Json {
    if v.JString? && |v.s| > 512 then JString(v.s[..512] + ELLIPSIS) else v
  }

  /** Go's zero value for a missing key is nil, which marshals like null. */
  function Lookup(fields: map<string, Json>, k: string): Json {
    if k in fields then fields[k] else JNull
  }

  predicate AttrDiffers(a: map<string, Json>, b: map<string, Json>, k: string, marshal: Marshaler) {
    marshal(CapString(Lookup(a, k))) != marshal(CapString(Lookup(b, k)))
  }

  /** The capped values, on side a, of the attributes on which a and b differ. */
  function AttrsOf(a: map<string, Json>, b: map<string, Json>, marshal: Marshaler): map<string, Json> {
    map k | k in a.Keys + b.Keys && AttrDiffers(a, b, k, marshal) :: CapString(Lookup(a, k))
  }

  ghost predicate TellsApart(marshal: Marshaler) {
    forall v: Json, w: Json :: marshal(v) == marshal(w) ==> v == w
  }

  /** Two long strings that agree on the part that is shown. */
  predicate SameWhenCapped(v: Json, w: Json) {
    v.JString? && w.JString? && |v.s| > 512 && |w.s| > 512 && v.s[..512] == w.s[..512]
  }

  /** Which attribute changes are reported, if marshaling tells values apart: all of them, where an
      absent attribute reads as null, except between two strings longer than 512 bytes that agree
      on their first 512. */
  lemma {:induction false} ReportedExactly(a: map<string, Json>, b: map<string, Json>, k: string, marshal: Marshaler)
    requires TellsApart(marshal) && k in a.Keys + b.Keys
    ensures
      var v, w := if k in a then a[k] else JNull, if k in b then b[k] else JNull;
      k in AttrsOf(a, b, marshal) <==> v != w && !SameWhenCapped(v, w)
  {
    var v, w := Lookup(a, k), Lookup(b, k);
    if v.JString? && |v.s| > 512 {
      assert v.s[..512] == CapString(v).s[..512];
    }
    if w.JString? && |w.s| > 512 {
      assert w.s[..512] == CapString(w).s[..512];
    }
  }

  /** The attributes on which a and b differ, except those not yet visited. */
  ghost function VisitedAttrs(a: map<string, Json>, b: map<string, Json>, marshal: Marshaler, remaining: set<string>): map<string, Json> {
    AttrsOf(a, b, marshal) - remaining
  }

  /** Visiting one more attribute. */
  lemma {:induction false} VisitAttr(a: map<string, Json>, b: map<string, Json>, marshal: Marshaler, remaining: set<string>, k: string)
    requires k in remaining && remaining <= a.Keys + b.Keys
    ensures VisitedAttrs(a, b, marshal, remaining - {k}) ==
      if AttrDiffers(a, b, k, marshal) then VisitedAttrs(a, b, marshal, remaining)[k := CapString(Lookup(a, k))]
      else VisitedAttrs(a, b, marshal, remaining)
  {
    hide CapString, Lookup, AttrDiffers;
  }

  lemma {:induction false} NothingVisited(a: map<string, Json>, b: map<string, Json>, marshal: Marshaler, remaining: set<string>)
    requires remaining == a.Keys + b.Keys
    ensures VisitedAttrs(a, b, marshal, remaining) == map[]
  {
  }

  lemma {:induction false} AllVisited(a: map<string, Json>, b: map<string, Json>, marshal: Marshaler)
    ensures VisitedAttrs(a, b, marshal, {}) == AttrsOf(a, b, marshal)
  {
  }

  method DiffPlanAttrs(fromAfter: Json, toAfter: Json, marshal: Marshaler)
    returns (before: map<string, Json>, after: map<string, Json>, changed: bool)
    ensures fromAfter.JObject? && toAfter.JObject? ==>
      && before == AttrsOf(fromAfter.fields, toAfter.fields, marshal)
      && after == AttrsOf(toAfter.fields, fromAfter.fields, marshal)
    ensures !(fromAfter.JObject? && toAfter.JObject?) ==> before == map[] && after == map[]
    ensures changed <==> before != map[]
  {
    hide VisitedAttrs, AttrsOf, CapString, Lookup;
    before, after, changed := map[], map[], false;
    if !fromAfter.JObject? || !toAfter.JObject? {
      return;
    }
    var a, b := fromAfter.fields, toAfter.fields;
    var remaining := a.Keys + b.Keys;
    NothingVisited(a, b, marshal, remaining);
    NothingVisited(b, a, marshal, remaining);
    while remaining != {}
      invariant remaining <= a.Keys + b.Keys
      invariant before == VisitedAttrs(a, b, marshal, remaining)
      invariant after == VisitedAttrs(b, a, marshal, remaining)
      invariant changed <==> before != map[]
      decreases remaining
    {
      var k :| k in remaining;
      VisitAttr(a, b, marshal, remaining, k);
      VisitAttr(b, a, marshal, remaining, k);
      var fv, tv := CapString(Lookup(a, k)), CapString(Lookup(b, k));
      if marshal(fv) != marshal(tv) {
        before := before[k := fv];
        after := after[k := tv];
        changed := true;
        assert k in before.Keys;
      }
      remaining := remaining - {k};
    }
    AllVisited(a, b, marshal);
    AllVisited(b, a, marshal);
  }

  function AttrsIfObjects(x: Json, y: Json, marshal: Marshaler): map<string, Json> {
    if x.JObject? && y.JObject? then AttrsOf(x.fields, y.fields, marshal) else map[]
  }

  function ResourceChanged(fr: Resource, tr: Resource, marshal: Marshaler): Option<Changed> {
    if fr.actions != tr.actions then
      Some(Changed(tr.address, tr.kind, fr.actions, tr.actions, map[], map[]))
    else
      var before := AttrsIfObjects(fr.after, tr.after, marshal);
      if before == map[] then None
      else Some(Changed(tr.address, tr.kind, tr.actions, tr.actions, before,
                        AttrsIfObjects(tr.after, fr.after, marshal)))
  }

  method ActionsEqual(a: seq<string>, b: seq<string>) returns (equal: bool)
    ensures equal <==> a == b
  {
    if |a| != |b| {
      return false;
    }
    for i := 0 to |a|
      invariant a[..i] == b[..i]
    {
      if a[i] != b[i] {
        return false;
      }
    }
    equal := true;
  }

  method PlanResourceChanged(fr: Resource, tr: Resource, marshal: Marshaler) returns (c: Option<Changed>)
    ensures c == ResourceChanged(fr, tr, marshal)
  {
    var same := ActionsEqual(fr.actions, tr.actions);
    if !same {
      return Some(Changed(tr.address, tr.kind, fr.actions, tr.actions, map[], map[]));
    }
    var before, after, chg := DiffPlanAttrs(fr.after, tr.after, marshal);
    if !chg {
      return None;
    }
    c := Some(Changed(tr.address, tr.kind, tr.actions, tr.actions, before, after));
  }

  // ---- the diff -----------------------------------------------------------------------------

  predicate Mentions(xs: seq<Entry>, a: string) {
    exists e :: e in xs && e.address == a
  }

  predicate MentionsChange(xs: seq<Changed>, a: string) {
    exists c :: c in xs && c.address == a
  }

  /** The entries of xs for exactly the addresses of `only`, each once. */
  ghost predicate Lists(xs: seq<Entry>, m: Index, only: set<string>)
    requires only <= m.Keys
  {
    && (forall e | e in xs :: e.address in only && e == Entry(e.address, m[e.address].kind, m[e.address].actions))
    && (forall a | a in only :: Mentions(xs, a))
    && (forall i, j | 0 <= i < j < |xs| :: xs[i].address != xs[j].address)
  }

  ghost predicate ListsChanges(xs: seq<Changed>, from: Index, to: Index, among: set<string>, marshal: Marshaler)
    requires among <= from.Keys * to.Keys
  {
    && (forall c | c in xs :: c.address in among && ResourceChanged(from[c.address], to[c.address], marshal) == Some(c))
    && (forall a | a in among && ResourceChanged(from[a], to[a], marshal).Some? :: MentionsChange(xs, a))
    && (forall i, j | 0 <= i < j < |xs| :: xs[i].address != xs[j].address)
  }

  ghost predicate IsDiff(from: Index, to: Index, marshal: Marshaler, d: Diff) {
    && Lists(d.added, to, to.Keys - from.Keys)
    && Lists(d.removed, from, from.Keys - to.Keys)
    && ListsChanges(d.changed, from, to, from.Keys * to.Keys, marshal)
  }

  ghost predicate KeyedByAddress(m: Index) {
    forall a | a in m :: m[a].address == a
  }

  lemma {:induction false} ListsSnoc(xs: seq<Entry>, m: Index, only: set<string>, a: string)
    requires only <= m.Keys && Lists(xs, m, only) && a in m && a !in only
    ensures Lists(xs + [Entry(a, m[a].kind, m[a].actions)], m, only + {a})
  {
    var ys := xs + [Entry(a, m[a].kind, m[a].actions)];
    forall b | b in only + {a}
      ensures Mentions(ys, b)
    {
      MentionsSnoc(xs, ys[|xs|], b);
    }
  }

  /** Entries for the addresses of m that are missing from other, in any order. */
  method MissingFrom(m: Index, other: Index) returns (xs: seq<Entry>)
    ensures Lists(xs, m, m.Keys - other.Keys)
  {
    xs := [];
    var remaining := m.Keys;
    while remaining != {}
      invariant remaining <= m.Keys
      invariant Lists(xs, m, m.Keys - other.Keys - remaining)
      decreases remaining
    {
      var a :| a in remaining;
      var rest := remaining - {a};
      if a !in other {
        ListsSnoc(xs, m, m.Keys - other.Keys - remaining, a);
        xs := xs + [Entry(a, m[a].kind, m[a].actions)];
        assert m.Keys - other.Keys - rest == m.Keys - other.Keys - remaining + {a};
      } else {
        assert m.Keys - other.Keys - rest == m.Keys - other.Keys - remaining;
      }
      remaining := rest;
    }
    assert m.Keys - other.Keys - remaining == m.Keys - other.Keys;
  }

  lemma {:induction false} ListsChangesSnoc(xs: seq<Changed>, from: Index, to: Index, among: set<string>,
                                            marshal: Marshaler, a: string)
    requires KeyedByAddress(to) && among <= from.Keys * to.Keys && ListsChanges(xs, from, to, among, marshal)
    requires a in from.Keys * to.Keys && a !in among
    ensures
      var c := ResourceChanged(from[a], to[a], marshal);
      ListsChanges(if c.Some? then xs + [c.value] else xs, from, to, among + {a}, marshal)
  {
    var c := ResourceChanged(from[a], to[a], marshal);
    var ys := if c.Some? then xs + [c.value] else xs;
    forall b | b in among + {a} && ResourceChanged(from[b], to[b], marshal).Some?
      ensures MentionsChange(ys, b)
    {
      if c.Some? {
        MentionsChangeSnoc(xs, c.value, b);
      }
    }
  }

  method ChangedIn(from: Index, to: Index, marshal: Marshaler) returns (xs: seq<Changed>)
    requires KeyedByAddress(to)
    ensures ListsChanges(xs, from, to, from.Keys * to.Keys, marshal)
  {
    xs := [];
    var remaining := to.Keys;
    while remaining != {}
      invariant remaining <= to.Keys
      invariant ListsChanges(xs, from, to, from.Keys * (to.Keys - remaining), marshal)
      decreases remaining
    {
      var a :| a in remaining;
      var rest := remaining - {a};
      if a in from {
        ListsChangesSnoc(xs, from, to, from.Keys * (to.Keys - remaining), marshal, a);
        var c := PlanResourceChanged(from[a], to[a], marshal);
        if c.Some? {
          xs := xs + [c.value];
        }
        assert from.Keys * (to.Keys - rest) == from.Keys * (to.Keys - remaining) + {a};
      } else {
        assert from.Keys * (to.Keys - rest) == from.Keys * (to.Keys - remaining);
      }
      remaining := rest;
    }
    assert from.Keys * (to.Keys - remaining) == from.Keys * to.Keys;
  }

  method BuildPlanDiff(from: seq<Resource>, to: seq<Resource>, marshal: Marshaler) returns (d: Diff)
    ensures IsDiff(IndexOf(from), IndexOf(to), marshal, d)
  {
    var fromMap := IndexPlanResources(from);
    var toMap := IndexPlanResources(to);
    var added := MissingFrom(toMap, fromMap);
    var removed := MissingFrom(fromMap, toMap);
    var changed := ChangedIn(fromMap, toMap, marshal);
    d := Diff(added, removed, changed);
  }

  // ---- round trip ---------------------------------------------------------------------------------

  type Actions = map<string, seq<string>>

  function ActionsIndex(m: Index): Actions {
    map a | a in m :: m[a].actions
  }

  function AddAll(idx: Actions, xs: seq<Entry>): Actions {
    if xs == [] then idx else AddAll(idx, xs[..|xs| - 1])[xs[|xs| - 1].address := xs[|xs| - 1].actions]
  }

  function RemoveAll(idx: Actions, xs: seq<Entry>): Actions {
    if xs == [] then idx else RemoveAll(idx, xs[..|xs| - 1]) - {xs[|xs| - 1].address}
  }

  function ChangeAll(idx: Actions, xs: seq<Changed>): Actions {
    if xs == [] then idx else ChangeAll(idx, xs[..|xs| - 1])[xs[|xs| - 1].address := xs[|xs| - 1].toActions]
  }

  /** Replaying a diff, entry by entry, on the address-to-actions index of a plan. */
  function Patch(idx: Actions, d: Diff): Actions {
    ChangeAll(AddAll(RemoveAll(idx, d.removed), d.added), d.changed)
  }

  lemma {:induction false} MentionsSnoc(xs: seq<Entry>, e: Entry, a: string)
    ensures Mentions(xs + [e], a) <==> Mentions(xs, a) || e.address == a
  {
    assert e in xs + [e];
    if Mentions(xs, a) {
      var f :| f in xs && f.address == a;
      assert f in xs + [e];
    }
  }

  lemma {:induction false} MentionsChangeSnoc(xs: seq<Changed>, c: Changed, a: string)
    ensures MentionsChange(xs + [c], a) <==> MentionsChange(xs, a) || c.address == a
  {
    assert c in xs + [c];
    if MentionsChange(xs, a) {
      var f :| f in xs && f.address == a;
      assert f in xs + [c];
    }
  }

  lemma {:induction false} AddAllIs(idx: Actions, xs: seq<Entry>, m: Index, a: string)
    requires forall e | e in xs :: e.address in m && e.actions == m[e.address].actions
    ensures a in AddAll(idx, xs) <==> a in idx || Mentions(xs, a)
    ensures a in AddAll(idx, xs) ==> AddAll(idx, xs)[a] == if Mentions(xs, a) then m[a].actions else idx[a]
  {
    if xs != [] {
      var init, last := xs[..|xs| - 1], xs[|xs| - 1];
      assert xs == init + [last];
      AddAllIs(idx, init, m, a);
      MentionsSnoc(init, last, a);
    }
  }

  lemma {:induction false} RemoveAllIs(idx: Actions, xs: seq<Entry>, a: string)
    ensures a in RemoveAll(idx, xs) <==> a in idx && !Mentions(xs, a)
    ensures a in RemoveAll(idx, xs) ==> RemoveAll(idx, xs)[a] == idx[a]
  {
    if xs != [] {
      var init, last := xs[..|xs| - 1], xs[|xs| - 1];
      assert xs == init + [last];
      RemoveAllIs(idx, init, a);
      MentionsSnoc(init, last, a);
    }
  }

  lemma {:induction false} ChangeAllIs(idx: Actions, xs: seq<Changed>, to: Index, a: string)
    requires forall c | c in xs :: c.address in to && c.toActions == to[c.address].actions && c.address in idx
    ensures a in ChangeAll(idx, xs) <==> a in idx
    ensures a in idx ==> ChangeAll(idx, xs)[a] == if MentionsChange(xs, a) then to[a].actions else idx[a]
  {
    if xs != [] {
      var init, last := xs[..|xs| - 1], xs[|xs| - 1];
      assert xs == init + [last];
      ChangeAllIs(idx, init, to, a);
      MentionsChangeSnoc(init, last, a);
    }
  }

  /** Replaying the diff on the old plan's index gives the new plan's index. */
  lemma {:induction false} DiffRoundTrip(from: Index, to: Index, marshal: Marshaler, d: Diff)
    requires IsDiff(from, to, marshal, d)
    ensures Patch(ActionsIndex(from), d) == ActionsIndex(to)
  {
    hide AddAll, RemoveAll, ChangeAll;
    var idx := ActionsIndex(from);
    var kept := RemoveAll(idx, d.removed);
    var grown := AddAll(kept, d.added);
    forall a
      ensures a in grown <==> a in to
      ensures a in to ==> grown[a] == if a in from then from[a].actions else to[a].actions
    {
      assert Mentions(d.removed, a) <==> a in from.Keys - to.Keys;
      assert Mentions(d.added, a) <==> a in to.Keys - from.Keys;
      RemoveAllIs(idx, d.removed, a);
      AddAllIs(kept, d.added, to, a);
    }
    forall a
      ensures a in ChangeAll(grown, d.changed) <==> a in to
      ensures a in to ==> ChangeAll(grown, d.changed)[a] == to[a].actions
    {
      ChangeAllIs(grown, d.changed, to, a);
      if a in from && a in to {
        UnlistedKeepsActions(from, to, marshal, d.changed, a);
      }
    }
  }

  lemma {:induction false} UnlistedKeepsActions(from: Index, to: Index, marshal: Marshaler, xs: seq<Changed>, a: string)
    requires ListsChanges(xs, from, to, from.Keys * to.Keys, marshal) && a in from && a in to
    ensures MentionsChange(xs, a) || from[a].actions == to[a].actions
  {
    if from[a].actions != to[a].actions {
      assert ResourceChanged(from[a], to[a], marshal).Some?;
    }
  }

  /** The three lists never mention an address twice. */
  lemma {:induction false} DiffIsDisjoint(from: Index, to: Index, marshal: Marshaler, d: Diff)
    requires IsDiff(from, to, marshal, d)
    ensures forall i, j | 0 <= i < |d.added| && 0 <= j < |d.removed| :: d.added[i].address != d.removed[j].address
    ensures forall i, j | 0 <= i < |d.added| && 0 <= j < |d.changed| :: d.added[i].address != d.changed[j].address
    ensures forall i, j | 0 <= i < |d.removed| && 0 <= j < |d.changed| :: d.removed[i].address != d.changed[j].address
  {
    assert forall i | 0 <= i < |d.added| :: d.added[i] in d.added;
    assert forall i | 0 <= i < |d.removed| :: d.removed[i] in d.removed;
    assert forall i | 0 <= i < |d.changed| :: d.changed[i] in d.changed;
  }

  lemma {:induction false} SelfDiffIsEmpty(m: Index, marshal: Marshaler, d: Diff)
    requires IsDiff(m, m, marshal, d)
    ensures d == Diff([], [], [])
  {
    forall a | a in m
      ensures ResourceChanged(m[a], m[a], marshal).None?
    {
      assert AttrsIfObjects(m[a].after, m[a].after, marshal) == map[];
    }
    if d.added != [] {
      var e := SomeMember(d.added);
    } else if d.removed != [] {
      var e := SomeMember(d.removed);
    } else if d.changed != [] {
      var c := SomeMember(d.changed);
    }
  }

  lemma {:induction false} SomeMember<T>(xs: seq<T>) returns (x: T)
    requires xs != []
    ensures x in xs
  {
    x := xs[0];
  }

  /** A changed entry seen from the other side; its type column is the other plan's. */
  function Flip(c: Changed, kind: string): Changed {
    Changed(c.address, kind, c.toActions, c.fromActions, c.attrsAfter, c.attrsBefore)
  }

  lemma {:induction false} ChangeFlips(fr: Resource, tr: Resource, marshal: Marshaler)
    requires fr.address == tr.address
    ensures ResourceChanged(tr, fr, marshal).Some? <==> ResourceChanged(fr, tr, marshal).Some?
    ensures ResourceChanged(fr, tr, marshal).Some? ==>
      ResourceChanged(tr, fr, marshal).value == Flip(ResourceChanged(fr, tr, marshal).value, fr.kind)
  {
    if fr.after.JObject? && tr.after.JObject? {
      var a, b := fr.after.fields, tr.after.fields;
      assert AttrsOf(a, b, marshal).Keys == AttrsOf(b, a, marshal).Keys by {
        assert forall k :: AttrDiffers(a, b, k, marshal) <==> AttrDiffers(b, a, k, marshal);
      }
      assert AttrsOf(a, b, marshal) == map[] <==> AttrsOf(a, b, marshal).Keys == {};
      assert AttrsOf(b, a, marshal) == map[] <==> AttrsOf(b, a, marshal).Keys == {};
    }
  }

  lemma {:induction false} SameEntries(xs: seq<Entry>, ys: seq<Entry>, m: Index, only: set<string>)
    requires only <= m.Keys && Lists(xs, m, only) && Lists(ys, m, only)
    ensures forall e :: e in xs <==> e in ys
  {
    forall e: Entry
      ensures e in xs <==> e in ys
    {
      if e in xs {
        assert Mentions(ys, e.address);
        var f :| f in ys && f.address == e.address;
      }
      if e in ys {
        assert Mentions(xs, e.address);
        var f :| f in xs && f.address == e.address;
      }
    }
  }

  /** Diffing the other way round swaps New with Removed and flips every Changed entry. */
  lemma {:induction false} SwappedDiff(from: Index, to: Index, marshal: Marshaler, d: Diff, e: Diff)
    requires KeyedByAddress(from) && KeyedByAddress(to)
    requires IsDiff(from, to, marshal, d) && IsDiff(to, from, marshal, e)
    ensures forall x :: x in e.added <==> x in d.removed
    ensures forall x :: x in e.removed <==> x in d.added
    ensures forall c | c in d.changed :: Flip(c, from[c.address].kind) in e.changed
    ensures forall c | c in e.changed :: Flip(c, to[c.address].kind) in d.changed
  {
    SameEntries(e.added, d.removed, from, from.Keys - to.Keys);
    SameEntries(e.removed, d.added, to, to.Keys - from.Keys);
    FlippedChanges(from, to, marshal, d.changed, e.changed);
    FlippedChanges(to, from, marshal, e.changed, d.changed);
  }

  lemma {:induction false} FlippedChanges(from: Index, to: Index, marshal: Marshaler, xs: seq<Changed>, ys: seq<Changed>)
    requires KeyedByAddress(from) && KeyedByAddress(to)
    requires ListsChanges(xs, from, to, from.Keys * to.Keys, marshal)
    requires ListsChanges(ys, to, from, to.Keys * from.Keys, marshal)
    ensures forall c | c in xs :: Flip(c, from[c.address].kind) in ys
  {
    forall c | c in xs
      ensures Flip(c, from[c.address].kind) in ys
    {
      ChangeFlips(from[c.address], to[c.address], marshal);
      assert MentionsChange(ys, c.address);
      var f :| f in ys && f.address == c.address;
    }
  }
}
