/** Optimistic control of the model pool and the pin (internal/gateway/control.go, gateway.go). */
module GatewayControl {
  import opened Wrappers
  import opened ModelTypes
  import opened ModelPool
  import opened Runs
  import opened Sorting
  import opened Strings

  // ----- list edits

  // Each new, non-empty id is appended once.
  function WithAdded(base: seq<string>, additions: seq<string>): seq<string>
    decreases additions
  {
    if additions == [] then base
    else
      var id := additions[0];
      WithAdded(if id != "" && id !in base then base + [id] else base, additions[1..])
  }

  function Without(base: seq<string>, removed: set<string>): seq<string> {
    if base == [] then []
    else
      var last := base[|base| - 1];
      Without(base[..|base| - 1], removed) + if last in removed then [] else [last]
  }

  lemma {:induction false} AddedIDs(base: seq<string>, additions: seq<string>)
    ensures base <= WithAdded(base, additions)
    ensures AsSet(WithAdded(base, additions)) == AsSet(base) + (AsSet(additions) - {""})
    ensures NoDuplicates(base) ==> NoDuplicates(WithAdded(base, additions))
    decreases additions
  {
    if additions != [] {
      var id := additions[0];
      var next := if id != "" && id !in base then base + [id] else base;
      AsSetAppend(base, id);
      assert additions == [id] + additions[1..];
      assert AsSet(additions) == {id} + AsSet(additions[1..]);
      AddedIDs(next, additions[1..]);
    }
  }

  lemma {:induction false} RemovedIDs(base: seq<string>, removed: set<string>)
    ensures AsSet(Without(base, removed)) == AsSet(base) - removed
    ensures NoDuplicates(base) ==> NoDuplicates(Without(base, removed))
  {
    if base != [] {
      var init, last := base[..|base| - 1], base[|base| - 1];
      RemovedIDs(init, removed);
      assert base == init + [last];
      AsSetAppend(init, last);
      var kept := Without(init, removed);
      AsSetAppend(kept, last);
      assert kept + [] == kept;
      assert last !in removed && NoDuplicates(base) ==> last !in AsSet(Without(init, removed));
    }
  }

  method AddUniqueIDs(base: seq<string>, additions: seq<string>) returns (r: seq<string>)
    ensures r == WithAdded(base, additions)
  {
    r := base;
    var seen := set x | x in base;
    var i := 0;
    while i < |additions|
      invariant 0 <= i <= |additions|
      invariant seen == AsSet(r)
      invariant WithAdded(r, additions[i..]) == WithAdded(base, additions)
    {
      var id := additions[i];
      assert additions[i..][0] == id && additions[i..][1..] == additions[i + 1..];
      if id != "" && id !in seen {
        AsSetAppend(r, id);
        r := r + [id];
        seen := seen + {id};
      }
      i := i + 1;
    }
  }

  // Compacts the list into its own prefix.
  method RemoveIDs(base: array<string>, removals: seq<string>) returns (kept: nat)
    modifies base
    ensures kept <= base.Length
    ensures base[..kept] == Without(old(base[..]), AsSet(removals))
  {
    ghost var was := base[..];
    var remove := set x | x in removals;
    kept := 0;
    for i := 0 to base.Length
      invariant kept <= i
      invariant forall k :: i <= k < base.Length ==> base[k] == was[k]
      invariant base[..kept] == Without(was[..i], remove)
    {
      assert was[..i + 1][..i] == was[..i];
      if base[i] !in remove {
        base[kept] := base[i];
        kept := kept + 1;
      }
    }
    assert was[..base.Length] == was;
  }

  // ----- the restored selection

  // The first route that states a default decides for its model.
  function FirstOpinion(routes: seq<ProviderRoute>): Option<bool> {
    if routes == [] then None
    else if routes[0].defaultSelected.None? then FirstOpinion(routes[1..])
    else Some(routes[0].enabled && routes[0].SelectedByDefault())
  }

  predicate Chosen(selected: seq<string>, routes: Routes, id: string) {
    if id in routes && FirstOpinion(routes[id]).Some? then FirstOpinion(routes[id]).value else id in selected
  }

  ghost predicate IsRestoredSelection(selected: seq<string>, routes: Routes, r: seq<string>) {
    && SortedBy(r, StringLess) && NoDuplicates(r)
    && forall id :: id in r <==> Chosen(selected, routes, id)
  }

  lemma {:induction false} NoDuplicatesCount(s: seq<string>, x: string)
    requires NoDuplicates(s)
    ensures multiset(s)[x] <= 1
  {
    if s != [] {
      var init, last := s[..|s| - 1], s[|s| - 1];
      NoDuplicatesCount(init, x);
      assert s == init + [last];
      assert last !in multiset(init);
    }
  }

  lemma PermutationHasNoDuplicates(s: seq<string>, t: seq<string>)
    requires NoDuplicates(s) && multiset(t) == multiset(s)
    ensures NoDuplicates(t)
  {
    forall i, j | 0 <= i < j < |t|
      ensures t[i] != t[j]
    {
      NoDuplicatesCount(s, t[j]);
      assert t == t[..j] + [t[j]] + t[j + 1..];
      assert t[i] == t[..j][i];
      assert t[i] in multiset(t[..j]);
    }
  }

  lemma StringLessIsStrictWeak()
    ensures StrictWeakOrder(StringLess)
  {
    forall x: string
      ensures !StringLess(x, x)
    {
      StringLessIsIrreflexive(x);
    }
    forall x: string, y: string, z: string | StringLess(x, y) && StringLess(y, z)
      ensures StringLess(x, z)
    {
      StringLessIsTransitive(x, y, z);
    }
    forall x: string, y: string, z: string | !StringLess(x, y) && !StringLess(y, z)
      ensures !StringLess(x, z)
    {
      StringLessIsTotal(x, y);
      StringLessIsTotal(y, z);
      StringLessIsTotal(x, z);
      if StringLess(y, x) && StringLess(z, y) {
        StringLessIsTransitive(z, y, x);
      }
    }
  }

  method Opinion(routes: seq<ProviderRoute>) returns (r: Option<bool>)
    ensures r == FirstOpinion(routes)
  {
    var i := 0;
    while i < |routes|
      invariant 0 <= i <= |routes|
      invariant FirstOpinion(routes) == FirstOpinion(routes[i..])
    {
      if routes[i].defaultSelected.Some? {
        return Some(routes[i].enabled && routes[i].SelectedByDefault());
      }
      i := i + 1;
    }
    r := None;
  }

  method ApplyGenericSelectionPolicy(selected: seq<string>, routes: Routes) returns (r: seq<string>)
    ensures IsRestoredSelection(selected, routes, r)
  {
    var chosen := set id | id in selected;
    var remaining := routes.Keys;
    while remaining != {}
      invariant remaining <= routes.Keys
      invariant forall id :: id in chosen <==> if id in remaining then id in selected else Chosen(selected, routes, id)
      decreases remaining
    {
      var id :| id in remaining;
      remaining := remaining - {id};
      var opinion := Opinion(routes[id]);
      if opinion.Some? {
        chosen := if opinion.value then chosen + {id} else chosen - {id};
      }
    }
    var out := [];
    var left := chosen;
    while left != {}
      invariant left <= chosen && NoDuplicates(out) && AsSet(out) == chosen - left
      decreases left
    {
      var id :| id in left;
      left := left - {id};
      AsSetAppend(out, id);
      assert id !in AsSet(out);
      out := out + [id];
    }
    r := StableSort(out, StringLess);
    StringLessIsStrictWeak();
    StableSortIsSorted(out, StringLess);
    PermutationHasNoDuplicates(out, r);
    PermutationLength(out, r);
    assert forall id :: id in out <==> id in AsSet(out);
  }

  // ----- commands and their effect on the visible state

  datatype Mutation = Mutation(
    mode: Option<string>, select: seq<string>, deselect: seq<string>, selectAll: bool, clearAll: bool)
  {
    predicate EditsItems() {
      select != [] || deselect != []
    }

    predicate IsContradictory() {
      (selectAll && clearAll) || ((selectAll || clearAll) && EditsItems())
    }

    function NewMode(current: string): string {
      if mode.Some? then mode.value else if EditsItems() then MANUAL else current
    }
  }

  datatype Discovery = Discovery(snapshot: Option<Catalog>, routes: Routes)

  datatype Command =
    | Update(expected: int, mutation: Mutation)
    | ReplacePool(expected: int, ids: seq<string>, mode: string)
    | Pin(expected: int, id: string)
    | Auto(expected: int)
    | Restore(ids: seq<string>, mode: string, pinned: string)
    | Refresh(found: Option<Discovery>)
  {
    predicate IsVersioned() {
      !Restore? && !Refresh?
    }

    predicate ReplacesOnRestore()
      requires Restore?
    {
      ids != [] || mode == MANUAL
    }
  }

  datatype ControlError = RevisionConflict | ModelNotFound | Rejected

  datatype State = State(
    revision: int, mode: string, selected: seq<string>, tombstones: set<string>,
    pinned: string, catalog: Option<Catalog>, routes: Routes)
  {
    predicate HasModel(id: string) {
      catalog.Some? && id in catalog.value.models
    }

    // Tombstones mark selected models only, and a pin stays inside the selection.
    predicate Inv() {
      && tombstones <= AsSet(selected)
      && (pinned == "" || pinned in selected)
    }
  }

  predicate IsMode(mode: string) {
    mode in {"", AUTOMATIC, MANUAL}
  }

  function ModeOrAutomatic(mode: string): string {
    if mode == "" then AUTOMATIC else mode
  }

  ghost predicate AutoRoutablesJoin(v: State, w: State) {
    Extends(v.selected, w.selected, if v.catalog.None? then {} else
      set id | id in v.catalog.value.models && HasAutoRoutableRoute(v.routes, id) && id !in v.selected)
  }

  ghost predicate Accepts(v: State, c: Command) {
    match c
    case Update(expected, m) =>
      v.revision == expected && !m.IsContradictory() && (m.selectAll || m.clearAll || IsMode(m.NewMode(v.mode)))
    case ReplacePool(expected, _, mode) => v.revision == expected && IsMode(mode)
    case Pin(expected, id) => ModelSegment(id).Some? && v.revision == expected && v.HasModel(id) && id in v.selected
    case Auto(expected) => v.revision == expected
    case Restore(ids, mode, pinned) =>
      && (c.ReplacesOnRestore() ==> IsMode(mode))
      && (pinned == "" ||
          (v.HasModel(pinned) && if c.ReplacesOnRestore() then Chosen(ids, v.routes, pinned) else pinned in v.selected))
    case Refresh(found) => found.Some? && found.value.snapshot.Some? && found.value.snapshot.value.Valid()
  }

  // The selection is replaced: one revision further, no tombstones, and the pin lost unless still selected.
  ghost predicate Reselected(v: State, w: State, mode: string) {
    && w.revision == v.revision + 1 && w.mode == mode && w.tombstones == {}
    && w.catalog == v.catalog && w.routes == v.routes
    && w.pinned == if v.pinned in w.selected then v.pinned else ""
  }

  ghost predicate Restored(v: State, c: Command, w: State, pinned: string)
    requires c.Restore?
  {
    if c.ReplacesOnRestore() then
      && w == v.(revision := v.revision + 1, mode := if c.mode == "" then MANUAL else c.mode,
                 selected := w.selected, tombstones := {}, pinned := pinned)
      && IsRestoredSelection(c.ids, v.routes, w.selected)
    else w == v.(pinned := pinned)
  }

  ghost predicate Writes(v: State, c: Command, w: State) {
    match c
    case Update(_, m) =>
      if m.selectAll then Reselected(v, w, AUTOMATIC) && AutoRoutablesJoin(v, w)
      else if m.clearAll then Reselected(v, w, MANUAL) && w.selected == []
      else
        && Reselected(v, w, ModeOrAutomatic(m.NewMode(v.mode)))
        && w.selected == Without(WithAdded(v.selected, m.select), AsSet(m.deselect))
    case ReplacePool(_, ids, mode) => Reselected(v, w, ModeOrAutomatic(mode)) && w.selected == ids
    case Pin(_, id) => w == v.(revision := v.revision + 1, pinned := id)
    case Auto(_) => Reselected(v.(pinned := ""), w, AUTOMATIC) && AutoRoutablesJoin(v, w)
    case Restore(_, _, pinned) => Restored(v, c, w, if pinned == "" then v.pinned else pinned)
    case Refresh(found) =>
      found.Some? && found.value.snapshot.Some? &&
      var models := found.value.snapshot.value.models.Keys;
      && w.revision == v.revision + 1 && w.mode == v.mode && w.pinned == v.pinned
      && w.routes == found.value.routes && w.catalog.Some? && w.catalog.value.models == found.value.snapshot.value.models
      && w.tombstones == v.tombstones - models * AsSet(v.selected) + (AsSet(v.selected) - models)
      && Extends(v.selected, w.selected, set id | id in models && Joins(v.mode, w.routes, id) && id !in v.selected)
  }

  // The parse of a pinned id comes before the revision check.
  function Refusal(v: State, c: Command): ControlError {
    match c
    case Update(expected, _) => if v.revision != expected then RevisionConflict else Rejected
    case ReplacePool(expected, _, _) => if v.revision != expected then RevisionConflict else Rejected
    case Pin(expected, id) => if ModelSegment(id).Some? && v.revision != expected then RevisionConflict else ModelNotFound
    case Auto(_) => RevisionConflict
    case Restore(_, mode, _) => if c.ReplacesOnRestore() && !IsMode(mode) then Rejected else ModelNotFound
    case Refresh(_) => Rejected
  }

  // A refused command changes nothing; only a restore may have replaced the pool before its pin was refused.
  ghost predicate Step(v: State, c: Command, w: State, refusal: Option<ControlError>) {
    if refusal.None? then Accepts(v, c) && Writes(v, c, w)
    else
      && !Accepts(v, c) && refusal.value == Refusal(v, c)
      && if c.Restore? && (c.ReplacesOnRestore() ==> IsMode(c.mode)) then Restored(v, c, w, v.pinned) else w == v
  }

  // ----- the gateway

  datatype PoolConfig = PoolConfig(revision: int, mode: string, selected: seq<string>)

  function RefusalOf(r: Result<PoolConfig, ControlError>): Option<ControlError> {
    if r.Ok? then None else Some(r.error)
  }

  class Gateway {
    const pool: Store
    var catalog: Option<Catalog>
    var routes: Routes
    var pinnedModel: string

    constructor (pool: Store)
      ensures this.pool == pool && catalog == None && routes == map[] && pinnedModel == ""
    {
      this.pool, catalog, routes, pinnedModel := pool, None, map[], "";
    }

    function View(): State
      reads this, pool, pool.pool
    {
      State(pool.pool.revision, pool.pool.mode, pool.pool.selected, pool.pool.tombstones, pinnedModel, catalog, routes)
    }

    method Snapshot() returns (r: PoolConfig)
      ensures r == PoolConfig(View().revision, View().mode, View().selected)
    {
      r := PoolConfig(pool.pool.revision, pool.pool.mode, pool.pool.selected);
    }

    method DropStalePin()
      modifies `pinnedModel
      ensures pinnedModel == if old(pinnedModel) in pool.pool.selected then old(pinnedModel) else ""
    {
      if pinnedModel != "" && pinnedModel !in pool.pool.selected {
        pinnedModel := "";
      }
    }

    method EditSelection(m: Mutation) returns (ok: bool)
      modifies pool.pool
      ensures ok <==> IsMode(m.NewMode(old(View()).mode))
      ensures !ok ==> View() == old(View())
      ensures ok ==>
        View() == old(View()).(
          revision := old(View()).revision + 1, mode := ModeOrAutomatic(m.NewMode(old(View()).mode)),
          selected := Without(WithAdded(old(View()).selected, m.select), AsSet(m.deselect)), tombstones := {})
    {
      var p := pool.pool;
      var selected := AddUniqueIDs(p.selected, m.select);
      if m.deselect == [] {
        RemovingNothing(selected);
        assert AsSet(m.deselect) == {};
      } else {
        var buffer := new string[|selected|](i requires 0 <= i < |selected| => selected[i]);
        assert buffer[..] == selected;
        var kept := RemoveIDs(buffer, m.deselect);
        selected := buffer[..kept];
      }
      ok := p.Replace(selected, m.NewMode(p.mode));
    }

    method UpdateModelPool(expected: int, m: Mutation) returns (r: Result<PoolConfig, ControlError>)
      modifies this, pool.pool
      ensures Step(old(View()), Update(expected, m), View(), RefusalOf(r))
      ensures r.Ok? ==> r.value == PoolConfig(View().revision, View().mode, View().selected)
    {
      if pool.pool.revision != expected {
        return Err(RevisionConflict);
      }
      if m.IsContradictory() {
        return Err(Rejected);
      }
      if m.selectAll {
        pool.pool.SelectAll(catalog, routes);
      } else if m.clearAll {
        pool.pool.ClearAll();
      } else {
        var ok := EditSelection(m);
        if !ok {
          return Err(Rejected);
        }
      }
      DropStalePin();
      var c := Snapshot();
      r := Ok(c);
    }

    method ReplaceModelPool(expected: int, ids: seq<string>, mode: string) returns (r: Result<PoolConfig, ControlError>)
      modifies this, pool.pool
      ensures Step(old(View()), ReplacePool(expected, ids, mode), View(), RefusalOf(r))
      ensures r.Ok? ==> r.value == PoolConfig(View().revision, View().mode, View().selected)
    {
      if pool.pool.revision != expected {
        return Err(RevisionConflict);
      }
      var ok := pool.pool.Replace(ids, mode);
      if !ok {
        return Err(Rejected);
      }
      DropStalePin();
      var c := Snapshot();
      r := Ok(c);
    }

    method PinModel(expected: int, id: string) returns (r: Result<PoolConfig, ControlError>)
      modifies this, pool.pool
      ensures Step(old(View()), Pin(expected, id), View(), RefusalOf(r))
      ensures r.Ok? ==> r.value == PoolConfig(View().revision, View().mode, View().selected)
    {
      if ModelSegment(id).None? {
        return Err(ModelNotFound);
      }
      if pool.pool.revision != expected {
        return Err(RevisionConflict);
      }
      if catalog.None? || id !in catalog.value.models || id !in pool.pool.selected {
        return Err(ModelNotFound);
      }
      pinnedModel := id;
      pool.pool.revision := pool.pool.revision + 1;
      var c := Snapshot();
      r := Ok(c);
    }

    method AutoSelect(expected: int) returns (r: Result<PoolConfig, ControlError>)
      modifies this, pool.pool
      ensures Step(old(View()), Auto(expected), View(), RefusalOf(r))
      ensures r.Ok? ==> r.value == PoolConfig(View().revision, View().mode, View().selected)
    {
      if pool.pool.revision != expected {
        return Err(RevisionConflict);
      }
      pinnedModel := "";
      if catalog.Some? {
        pool.pool.SelectAll(catalog, routes);
      } else {
        var _ := pool.pool.Replace(pool.pool.selected, AUTOMATIC);
      }
      var c := Snapshot();
      r := Ok(c);
    }

    method RestoreControlState(selected: seq<string>, mode: string, pinned: string) returns (refusal: Option<ControlError>)
      modifies this, pool.pool
      ensures Step(old(View()), Restore(selected, mode, pinned), View(), refusal)
    {
      if selected != [] || mode == MANUAL {
        var ids := ApplyGenericSelectionPolicy(selected, routes);
        var ok := pool.pool.Replace(ids, if mode == "" then MANUAL else mode);
        if !ok {
          return Some(Rejected);
        }
      }
      if pinned != "" {
        if catalog.None? || pinned !in pool.pool.selected || pinned !in catalog.value.models {
          return Some(ModelNotFound);
        }
        pinnedModel := pinned;
      }
      refusal := None;
    }

    // Reconciles a staged copy and publishes it only after the snapshot is committed.
    method RefreshCatalog(found: Option<Discovery>) returns (refusal: Option<ControlError>)
      modifies this, pool
      ensures Step(old(View()), Refresh(found), View(), refusal)
      ensures pool.pool == old(pool.pool) || fresh(pool.pool)
    {
      if found.None? || found.value.snapshot.None? || !found.value.snapshot.value.Valid() {
        return Some(Rejected);
      }
      var candidate := pool.StateSnapshot();
      var reconciled := Reconcile(candidate, found.value.snapshot, found.value.routes);
      if !reconciled {
        return Some(Rejected);
      }
      var committed := pool.CommitSnapshot(found.value.snapshot.value);
      if committed.None? {
        return Some(Rejected);
      }
      pool.ReplaceState(candidate);
      catalog, routes := committed, found.value.routes;
      refusal := None;
    }
  }

  lemma {:induction false} RemovingNothing(base: seq<string>)
    ensures Without(base, {}) == base
  {
    if base != [] {
      RemovingNothing(base[..|base| - 1]);
    }
  }

  // ----- what every step keeps

  lemma EditsKeepUniqueness(v: State, c: Command, w: State, refusal: Option<ControlError>)
    requires Step(v, c, w, refusal) && NoDuplicates(v.selected)
    requires c.ReplacePool? ==> NoDuplicates(c.ids)
    ensures NoDuplicates(w.selected)
  {
    if refusal.None? {
      match c {
        case Update(_, m) =>
          if m.selectAll {
            JoinKeepsUniqueness(v, w);
          } else if !m.clearAll {
            AddedIDs(v.selected, m.select);
            RemovedIDs(WithAdded(v.selected, m.select), AsSet(m.deselect));
          }
        case Auto(_) => JoinKeepsUniqueness(v.(pinned := ""), w);
        case Refresh(found) =>
          ExtendsFacts(v.selected, w.selected,
            set id | id in found.value.snapshot.value.models && Joins(v.mode, w.routes, id) && id !in v.selected);
        case _ =>
      }
    }
  }

  lemma JoinKeepsUniqueness(v: State, w: State)
    requires AutoRoutablesJoin(v, w) && NoDuplicates(v.selected)
    ensures NoDuplicates(w.selected)
  {
    ExtendsFacts(v.selected, w.selected, if v.catalog.None? then {} else
      set id | id in v.catalog.value.models && HasAutoRoutableRoute(v.routes, id) && id !in v.selected);
  }

  // A restore is safe for the pin when none is set yet: the pool is restored once, at start.
  lemma StepKeepsInv(v: State, c: Command, w: State, refusal: Option<ControlError>)
    requires v.Inv() && Step(v, c, w, refusal)
    requires c.Restore? ==> v.pinned == ""
    ensures w.Inv()
  {
    if c.Refresh? && refusal.None? {
      RefreshKeepsSelection(v, c, w);
    }
  }

  // The condition is needed. Any restore, accepted or refused, keeps the invariant exactly when it leaves the pool
  // alone, or no pin is set, or the set pin stays selected, or its own pin takes over.
  lemma RestoreKeepsPinExactly(v: State, c: Command, w: State, refusal: Option<ControlError>)
    requires v.Inv() && c.Restore? && Step(v, c, w, refusal)
    ensures w.Inv() <==>
      || !c.ReplacesOnRestore() || !IsMode(c.mode) || v.pinned == "" || Chosen(c.ids, v.routes, v.pinned)
      || (c.pinned != "" && v.HasModel(c.pinned) && Chosen(c.ids, v.routes, c.pinned))
  {
    if c.ReplacesOnRestore() && IsMode(c.mode) {
      assert forall id :: id in w.selected <==> Chosen(c.ids, v.routes, id);
    }
  }

  lemma OnlyMember(s: seq<string>, id: string)
    requires NoDuplicates(s) && forall x :: x in s <==> x == id
    ensures s == [id]
  {
    assert id in s && (|s| > 1 ==> s[0] != s[1]);
    forall i | 0 <= i < |s|
      ensures s[i] == id
    {
      assert s[i] in s;
    }
  }

  // A refused pin does not take back the selection that came with it, so the old pin may be left outside.
  lemma RefusedPinLeavesOldPinOutside(v: State, w: State, refusal: Option<ControlError>)
    requires v.Inv() && v.pinned == "p/a" && v.routes == map[] && !v.HasModel("p/c")
    requires Step(v, Restore(["p/b"], MANUAL, "p/c"), w, refusal)
    ensures refusal == Some(ModelNotFound) && w.selected == ["p/b"] && w.pinned == "p/a" && !w.Inv()
  {
    assert "p/b" != "p/c" && "p/b" != "p/a";
    assert forall id :: id in w.selected <==> id == "p/b";
    OnlyMember(w.selected, "p/b");
  }

  ghost predicate AllAutoRoutableSelected(w: State) {
    forall id :: w.HasModel(id) && HasAutoRoutableRoute(w.routes, id) ==> id in w.selected
  }

  // A refresh forgets no selection: ids the provider no longer lists stay selected, and are exactly the tombstones.
  lemma RefreshKeepsSelection(v: State, c: Command, w: State)
    requires v.Inv() && c.Refresh? && Step(v, c, w, None)
    ensures v.selected <= w.selected && w.pinned == v.pinned && w.Inv()
    ensures w.tombstones == set id | id in w.selected && !w.HasModel(id)
    ensures forall id :: w.HasModel(id) && HasDefaultSelectedRoute(w.routes, id) ==> id in w.selected
    ensures w.mode == AUTOMATIC ==> AllAutoRoutableSelected(w)
    ensures forall id :: id in w.selected && id !in v.selected ==> w.HasModel(id) && Joins(w.mode, w.routes, id)
  {
    var models := c.found.value.snapshot.value.models;
    var joining := set id | id in models && Joins(v.mode, w.routes, id) && id !in v.selected;
    ExtendsFacts(v.selected, w.selected, joining);
    assert forall id :: id in w.selected <==> id in AsSet(w.selected);
    assert w.catalog.value.models == models;
  }

  // What a refresh adds, by the fields of the routes: in any mode the models with an enabled route selected by default,
  // and in Automatic mode those with an enabled free one. In Manual mode no other model becomes reachable.
  lemma RefreshAddsExactly(v: State, c: Command, w: State)
    requires c.Refresh? && Step(v, c, w, None)
    ensures forall id :: id in w.selected <==>
      || id in v.selected
      || (w.HasModel(id) && id in w.routes && exists r :: r in w.routes[id] && r.enabled && r.defaultSelected == Some(true))
      || (v.mode == "Automatic" && w.HasModel(id) && id in w.routes &&
            exists r :: r in w.routes[id] && r.enabled && r.access in {Free, FreeTier})
    ensures v.mode != "Automatic" && (forall id, r :: id in w.routes && r in w.routes[id] ==> r.defaultSelected != Some(true)) ==>
      w.selected == v.selected
  {
    var models := c.found.value.snapshot.value.models;
    var joining := set id | id in models && Joins(v.mode, w.routes, id) && id !in v.selected;
    ExtendsFacts(v.selected, w.selected, joining);
    assert forall id :: id in w.selected <==> id in AsSet(w.selected);
    assert w.catalog.value.models == models;
    forall id
      ensures id in joining <==> id !in v.selected && w.HasModel(id) && Joins(v.mode, w.routes, id)
    {
    }
    NothingIn(w.selected[|v.selected|..]);
  }

  lemma NothingIn(s: seq<string>)
    ensures s != [] ==> AsSet(s) != {}
  {
    if s != [] {
      assert s[0] in AsSet(s);
    }
  }

  // What an accepted update does, by the fields of the mutation.
  lemma UpdateIsExact(v: State, expected: int, m: Mutation, w: State)
    requires Step(v, Update(expected, m), w, None)
    ensures !(m.selectAll && m.clearAll) && (m.selectAll || m.clearAll ==> m.select == [] && m.deselect == [])
    ensures forall id :: id in w.selected <==>
      if m.clearAll then false
      else if m.selectAll then
        || id in v.selected
        || (v.HasModel(id) && id in v.routes && exists r :: r in v.routes[id] && r.enabled && r.access in {Free, FreeTier})
      else id !in m.deselect && (id in v.selected || (id in m.select && id != ""))
    ensures w.mode ==
      if m.selectAll then "Automatic" else if m.clearAll then "Manual"
      else if m.mode.Some? then (if m.mode.value == "Manual" then "Manual" else "Automatic")
      else if m.select != [] || m.deselect != [] then "Manual"
      else if v.mode == "" then "Automatic" else v.mode
    ensures w.pinned == if v.pinned in w.selected then v.pinned else ""
  {
    assert forall id :: id in w.selected <==> id in AsSet(w.selected);
    if m.selectAll {
      AutoRoutablesAreJoined(v, w);
    } else if !m.clearAll {
      AddedIDs(v.selected, m.select);
      RemovedIDs(WithAdded(v.selected, m.select), AsSet(m.deselect));
    }
  }

  // Which versioned commands are accepted, and when one is refused for its revision: a pin is parsed before.
  lemma CommandsAreAcceptedExactly(v: State, c: Command, w: State, refusal: Option<ControlError>)
    requires Step(v, c, w, refusal)
    ensures c.Pin? ==>
      (refusal.None? <==> v.revision == c.expected && ModelSegment(c.id).Some? && v.HasModel(c.id) && c.id in v.selected)
    ensures c.Auto? ==> (refusal.None? <==> v.revision == c.expected)
    ensures c.ReplacePool? ==> (refusal.None? <==> v.revision == c.expected && c.mode in {"", "Automatic", "Manual"})
    ensures c.ReplacePool? && refusal.None? ==>
      w.selected == c.ids && w.mode == (if c.mode == "" then "Automatic" else c.mode) && w.revision == v.revision + 1
    ensures c.IsVersioned() ==>
      (refusal == Some(RevisionConflict) <==> v.revision != c.expected && (c.Pin? ==> ModelSegment(c.id).Some?))
    ensures refusal == Some(ModelNotFound) ==> c.Pin? || c.Restore?
  {
  }

  lemma AutoRoutablesAreJoined(v: State, w: State)
    requires AutoRoutablesJoin(v, w)
    ensures forall id :: id in w.selected <==>
      || id in v.selected
      || (v.HasModel(id) && id in v.routes && exists r :: r in v.routes[id] && r.enabled && r.access in {Free, FreeTier})
  {
    var joining := if v.catalog.None? then {} else
      set id | id in v.catalog.value.models && HasAutoRoutableRoute(v.routes, id) && id !in v.selected;
    ExtendsFacts(v.selected, w.selected, joining);
    assert forall id :: id in w.selected <==> id in AsSet(w.selected);
    forall id
      ensures id in joining <==> id !in v.selected && v.HasModel(id) && HasAutoRoutableRoute(v.routes, id)
    {
    }
  }

  // Of the routes of a model the first one that states a default decides; without any, the persisted list does.
  lemma RestoredIsExact(selected: seq<string>, routes: Routes, r: seq<string>, id: string, k: nat)
    requires IsRestoredSelection(selected, routes, r)
    ensures id !in routes ==> (id in r <==> id in selected)
    ensures id in routes && (forall i :: 0 <= i < |routes[id]| ==> routes[id][i].defaultSelected.None?) ==>
      (id in r <==> id in selected)
    ensures id in routes && k < |routes[id]| && (forall i :: 0 <= i < k ==> routes[id][i].defaultSelected.None?) ==>
      (routes[id][k].defaultSelected.Some? ==> (id in r <==> routes[id][k].enabled && routes[id][k].defaultSelected.value))
  {
    assert id in r <==> Chosen(selected, routes, id);
    if id in routes {
      FirstOpinionIs(routes[id], k);
    }
  }

  lemma {:induction false} FirstOpinionIs(routes: seq<ProviderRoute>, k: nat)
    ensures (forall i :: 0 <= i < |routes| ==> routes[i].defaultSelected.None?) ==> FirstOpinion(routes).None?
    ensures k < |routes| && routes[k].defaultSelected.Some? && (forall i :: 0 <= i < k ==> routes[i].defaultSelected.None?) ==>
      FirstOpinion(routes) == Some(routes[k].enabled && routes[k].defaultSelected.value)
  {
    if routes != [] {
      FirstOpinionIs(routes[1..], if k == 0 then 0 else k - 1);
    }
  }

  // ----- runs

  method Apply(g: Gateway, c: Command) returns (refusal: Option<ControlError>)
    modifies g, g.pool, g.pool.pool
    ensures Step(old(g.View()), c, g.View(), refusal)
    ensures g.pool.pool == old(g.pool.pool) || fresh(g.pool.pool)
  {
    match c {
      case Update(expected, m) =>
        var r := g.UpdateModelPool(expected, m);
        refusal := RefusalOf(r);
      case ReplacePool(expected, ids, mode) =>
        var r := g.ReplaceModelPool(expected, ids, mode);
        refusal := RefusalOf(r);
      case Pin(expected, id) =>
        var r := g.PinModel(expected, id);
        refusal := RefusalOf(r);
      case Auto(expected) =>
        var r := g.AutoSelect(expected);
        refusal := RefusalOf(r);
      case Restore(ids, mode, pinned) =>
        refusal := g.RestoreControlState(ids, mode, pinned);
      case Refresh(found) =>
        refusal := g.RefreshCatalog(found);
    }
  }

  // Serves any sequence of commands, each under the gateway's lock.
  method Serve(g: Gateway, commands: seq<Command>) returns (log: seq<Entry<State, Option<ControlError>>>)
    modifies g, g.pool, g.pool.pool
    ensures History(Step, old(g.View()), commands, log)
    ensures g.View() == Before(old(g.View()), log, |log|)
  {
    ghost var start := g.View();
    log := [];
    for i := 0 to |commands|
      invariant History(Step, start, commands[..i], log)
      invariant g.View() == Before(start, log, i)
      invariant g.pool.pool == old(g.pool.pool) || fresh(g.pool.pool)
    {
      var refusal := Apply(g, commands[i]);
      assert commands[..i + 1] == commands[..i] + [commands[i]];
      HistoryGrows(Step, start, commands[..i], log, commands[i], g.View(), refusal);
      log := log + [Entry(g.View(), refusal)];
    }
    assert commands[..|commands|] == commands;
  }

  // The restore, if any, comes first and finds no pin.
  ghost predicate RestoresAtStart(v: State, commands: seq<Command>) {
    forall i: nat :: i < |commands| && commands[i].Restore? ==> i == 0 && v.pinned == ""
  }

  lemma RunsKeepInv(v: State, commands: seq<Command>, log: seq<Entry<State, Option<ControlError>>>, k: nat)
    requires History(Step, v, commands, log) && v.Inv() && RestoresAtStart(v, commands) && k <= |log|
    ensures Before(v, log, k).Inv()
  {
    var inv := (s: State) => s.Inv();
    forall i: nat | i < |log| && inv(Before(v, log, i))
      ensures inv(log[i].after)
    {
      assert StepAt(Step, v, commands, log, i);
      StepKeepsInv(Before(v, log, i), commands[i], log[i].after, log[i].reply);
    }
    InvariantHolds(inv, v, log, k);
  }

  lemma RunsKeepUniqueness(v: State, commands: seq<Command>, log: seq<Entry<State, Option<ControlError>>>, k: nat)
    requires History(Step, v, commands, log) && NoDuplicates(v.selected) && k <= |log|
    requires forall i: nat :: i < |commands| && commands[i].ReplacePool? ==> NoDuplicates(commands[i].ids)
    ensures NoDuplicates(Before(v, log, k).selected)
  {
    var inv := (s: State) => NoDuplicates(s.selected);
    forall i: nat | i < |log| && inv(Before(v, log, i))
      ensures inv(log[i].after)
    {
      assert StepAt(Step, v, commands, log, i);
      EditsKeepUniqueness(Before(v, log, i), commands[i], log[i].after, log[i].reply);
    }
    InvariantHolds(inv, v, log, k);
  }

  // Wherever a refresh falls in a run, it drops nothing and leaves the tombstones exact.
  lemma EveryRefreshKeepsSelection(
    v: State, commands: seq<Command>, log: seq<Entry<State, Option<ControlError>>>, k: nat)
    requires History(Step, v, commands, log) && v.Inv() && RestoresAtStart(v, commands)
    requires k < |log| && commands[k].Refresh? && log[k].reply.None?
    ensures Before(v, log, k).selected <= log[k].after.selected
    ensures log[k].after.tombstones == set id | id in log[k].after.selected && !log[k].after.HasModel(id)
    ensures log[k].after.mode == AUTOMATIC ==> AllAutoRoutableSelected(log[k].after)
    ensures var s, w := Before(v, log, k), log[k].after;
      forall id :: id in w.selected <==>
        || id in s.selected
        || (w.HasModel(id) && id in w.routes && exists r :: r in w.routes[id] && r.enabled && r.defaultSelected == Some(true))
        || (s.mode == "Automatic" && w.HasModel(id) && id in w.routes &&
              exists r :: r in w.routes[id] && r.enabled && r.access in {Free, FreeTier})
  {
    RunsKeepInv(v, commands, log, k);
    assert StepAt(Step, v, commands, log, k);
    RefreshKeepsSelection(Before(v, log, k), commands[k], log[k].after);
    RefreshAddsExactly(Before(v, log, k), commands[k], log[k].after);
  }

  // ----- optimistic concurrency

  // All that the concurrency argument needs of a step.
  ghost predicate CountsWrites(step: (State, Command, State, Option<ControlError>) -> bool) {
    forall v, c, w, refusal :: step(v, c, w, refusal) && !c.Restore? ==> CountsWrite(v, c, w, refusal)
  }

  ghost predicate CountsWrite(v: State, c: Command, w: State, refusal: Option<ControlError>) {
    && (refusal.None? ==> w.revision == v.revision + 1 && (c.IsVersioned() ==> c.expected == v.revision))
    && (refusal.Some? ==> w == v)
  }

  lemma StepCountsWrites()
    ensures CountsWrites(Step)
  {
    forall v, c, w, refusal | Step(v, c, w, refusal) && !c.Restore?
      ensures CountsWrite(v, c, w, refusal)
    {
    }
  }

  // Between two moments of a run the revision stands still exactly while every command is refused.
  lemma {:induction false} RevisionCounts(
    step: (State, Command, State, Option<ControlError>) -> bool,
    v: State, commands: seq<Command>, log: seq<Entry<State, Option<ControlError>>>, i: nat, j: nat)
    requires CountsWrites(step) && History(step, v, commands, log)
    requires i <= j <= |log| && forall k :: i <= k < j ==> !commands[k].Restore?
    ensures Before(v, log, i).revision <= Before(v, log, j).revision
    ensures Before(v, log, i).revision == Before(v, log, j).revision ==> Before(v, log, i) == Before(v, log, j)
    decreases j - i
  {
    if i < j {
      RevisionCounts(step, v, commands, log, i, j - 1);
      assert StepAt(step, v, commands, log, j - 1);
    }
  }

  // A client that read the state at i and whose write on that revision is accepted at j wrote to the very state it read.
  lemma AcceptedWriteSeesItsRead(
    v: State, commands: seq<Command>, log: seq<Entry<State, Option<ControlError>>>, i: nat, j: nat)
    requires History(Step, v, commands, log)
    requires i <= j < |log| && forall k :: i <= k < j ==> !commands[k].Restore?
    requires commands[j].IsVersioned() && log[j].reply.None? && commands[j].expected == Before(v, log, i).revision
    ensures Before(v, log, j) == Before(v, log, i)
  {
    StepCountsWrites();
    assert StepAt(Step, v, commands, log, j);
    RevisionCounts(Step, v, commands, log, i, j);
  }

  // Two writers that expect one revision cannot both win.
  lemma OneWinnerPerRevision(
    v: State, commands: seq<Command>, log: seq<Entry<State, Option<ControlError>>>, i: nat, j: nat)
    requires History(Step, v, commands, log)
    requires i < j < |log| && forall k :: i <= k < j ==> !commands[k].Restore?
    requires commands[i].IsVersioned() && log[i].reply.None?
    requires commands[j].IsVersioned() && log[j].reply.None?
    ensures commands[i].expected < commands[j].expected
  {
    StepCountsWrites();
    assert StepAt(Step, v, commands, log, i) && StepAt(Step, v, commands, log, j);
    RevisionCounts(Step, v, commands, log, i + 1, j);
  }
}
