/** The model pool and its reconciliation with a fresh catalog (internal/catalog/pool.go, reconcile.go, store.go). */
module ModelPool {
  import opened Wrappers
  import opened ModelTypes
  import opened Strings

  const AUTOMATIC := "Automatic"
  const MANUAL := "Manual"

  // A snapshot whose model map is nil has no models and is not valid.
  datatype Catalog = Catalog(revision: int, models: map<string, ProviderModel>, isNil: bool) {
    predicate Valid() {
      revision >= 0 && !isNil
    }
  }

  type Routes = map<string, seq<ProviderRoute>>

  predicate HasAutoRoutableRoute(routes: Routes, id: string) {
    id in routes && exists r :: r in routes[id] && r.enabled && r.EffectiveAccess().AutoRoutable()
  }

  predicate HasDefaultSelectedRoute(routes: Routes, id: string) {
    id in routes && exists r :: r in routes[id] && r.enabled && r.SelectedByDefault()
  }

  ghost predicate NoDuplicates(s: seq<string>) {
    forall i, j :: 0 <= i < j < |s| ==> s[i] != s[j]
  }

  // `after` is `before` followed by the ids of `added`, each once, in some order.
  ghost predicate Extends(before: seq<string>, after: seq<string>, added: set<string>) {
    && before <= after
    && AsSet(after[|before|..]) == added
    && NoDuplicates(after[|before|..])
  }

  lemma ExtendsAppend(before: seq<string>, after: seq<string>, added: set<string>, id: string)
    requires Extends(before, after, added) && id !in added
    ensures Extends(before, after + [id], added + {id})
  {
    assert (after + [id])[|before|..] == after[|before|..] + [id];
  }

  lemma ExtendsFacts(before: seq<string>, after: seq<string>, added: set<string>)
    requires Extends(before, after, added)
    ensures AsSet(after) == AsSet(before) + added
    ensures NoDuplicates(before) && AsSet(before) !! added ==> NoDuplicates(after)
  {
    var rest := after[|before|..];
    assert after == before + rest;
    assert forall x :: x in after <==> x in before || x in rest;
    if NoDuplicates(before) && AsSet(before) !! added {
      forall i, j | 0 <= i < j < |after| ensures after[i] != after[j] {
        if i < |before| <= j {
          assert after[i] in AsSet(before) && rest[j - |before|] in added;
        } else if |before| <= i {
          assert rest[i - |before|] != rest[j - |before|];
        }
      }
    }
  }

  lemma AsSetAppend(s: seq<string>, id: string)
    ensures AsSet(s + [id]) == AsSet(s) + {id}
  {
    assert forall x :: x in s + [id] <==> x in s || x == id;
  }

  class PoolState {
    var revision: int
    var mode: string
    var selected: seq<string>
    var tombstones: set<string>

    constructor (revision: int, mode: string, selected: seq<string>, tombstones: set<string>)
      ensures this.revision == revision && this.mode == mode && this.selected == selected && this.tombstones == tombstones
    {
      this.revision, this.mode, this.selected, this.tombstones := revision, mode, selected, tombstones;
    }

    method Clone() returns (copy: PoolState)
      ensures fresh(copy)
      ensures copy.revision == revision && copy.mode == mode && copy.selected == selected && copy.tombstones == tombstones
    {
      copy := new PoolState(revision, mode, selected, tombstones);
    }

    // Adds the models of a set that pass a test and are not selected yet, in any order.
    method Include(models: set<string>, wanted: string -> bool)
      modifies `selected
      ensures Extends(old(selected), selected, set id | id in models && wanted(id) && id !in old(selected))
    {
      var remaining := models;
      ghost var added := {};
      while remaining != {}
        invariant remaining <= models
        invariant added == set id | id in models - remaining && wanted(id) && id !in old(selected)
        invariant Extends(old(selected), selected, added)
        decreases remaining
      {
        var id :| id in remaining;
        remaining := remaining - {id};
        ExtendsFacts(old(selected), selected, added);
        if id !in selected && wanted(id) {
          ExtendsAppend(old(selected), selected, added, id);
          selected := selected + [id];
          added := added + {id};
        }
      }
    }

    method Select(ids: seq<string>)
      modifies this
      ensures revision == old(revision) + 1 && mode == MANUAL
      ensures old(selected) <= selected && AsSet(selected) == AsSet(old(selected)) + AsSet(ids)
      ensures NoDuplicates(old(selected)) ==> NoDuplicates(selected)
      ensures tombstones == old(tombstones) - AsSet(ids)
    {
      for i := 0 to |ids|
        invariant revision == old(revision) && old(selected) <= selected
        invariant AsSet(selected) == AsSet(old(selected)) + AsSet(ids[..i])
        invariant NoDuplicates(old(selected)) ==> NoDuplicates(selected)
        invariant tombstones == old(tombstones) - AsSet(ids[..i])
      {
        assert ids[..i + 1] == ids[..i] + [ids[i]];
        AsSetAppend(ids[..i], ids[i]);
        AsSetAppend(selected, ids[i]);
        if ids[i] !in selected {
          selected := selected + [ids[i]];
        }
        tombstones := tombstones - {ids[i]};
      }
      assert ids[..|ids|] == ids;
      mode := MANUAL;
      revision := revision + 1;
    }

    method SelectAll(catalog: Option<Catalog>, routes: Routes)
      modifies this
      ensures revision == old(revision) + 1 && mode == AUTOMATIC && tombstones == {}
      ensures Extends(old(selected), selected, if catalog.None? then {} else
        set id | id in catalog.value.models && HasAutoRoutableRoute(routes, id) && id !in old(selected))
    {
      mode := AUTOMATIC;
      if catalog.Some? {
        Include(catalog.value.models.Keys, id => HasAutoRoutableRoute(routes, id));
      }
      revision := revision + 1;
      tombstones := {};
    }

    method ClearAll()
      modifies this
      ensures revision == old(revision) + 1 && mode == MANUAL && selected == [] && tombstones == {}
    {
      selected, mode, revision, tombstones := [], MANUAL, revision + 1, {};
    }

    method Replace(ids: seq<string>, newMode: string) returns (ok: bool)
      modifies this
      ensures ok <==> newMode in {"", AUTOMATIC, MANUAL}
      ensures ok ==> revision == old(revision) + 1 && mode == (if newMode == "" then AUTOMATIC else newMode)
      ensures ok ==> selected == ids && tombstones == {}
      ensures !ok ==> unchanged(this)
    {
      var m := if newMode == "" then AUTOMATIC else newMode;
      if m != AUTOMATIC && m != MANUAL {
        return false;
      }
      selected, mode, revision, tombstones := ids, m, revision + 1, {};
      ok := true;
    }
  }

  // The models a refresh adds: by default selection in any mode, by access in Automatic mode.
  predicate Joins(mode: string, routes: Routes, id: string) {
    HasDefaultSelectedRoute(routes, id) || (mode == AUTOMATIC && HasAutoRoutableRoute(routes, id))
  }

  // Fails without effect on a missing or invalid snapshot. Nothing selected is ever dropped.
  method Reconcile(p: PoolState, snap: Option<Catalog>, routes: Routes) returns (ok: bool)
    modifies p
    ensures ok <==> snap.Some? && snap.value.Valid()
    ensures !ok ==> unchanged(p)
    ensures ok ==>
      && p.revision == old(p.revision) + 1 && p.mode == old(p.mode)
      && p.tombstones == old(p.tombstones) - snap.value.models.Keys * AsSet(old(p.selected))
                         + (AsSet(old(p.selected)) - snap.value.models.Keys)
      && Extends(old(p.selected), p.selected,
                 set id | id in snap.value.models && Joins(p.mode, routes, id) && id !in old(p.selected))
  {
    if snap.None? || !snap.value.Valid() {
      return false;
    }
    var models := snap.value.models.Keys;
    for i := 0 to |p.selected|
      invariant p.selected == old(p.selected) && p.revision == old(p.revision) && p.mode == old(p.mode)
      invariant p.tombstones == old(p.tombstones) - models * AsSet(p.selected[..i]) + (AsSet(p.selected[..i]) - models)
    {
      var id := p.selected[i];
      assert p.selected[..i + 1] == p.selected[..i] + [id];
      if id !in models {
        p.tombstones := p.tombstones + {id};
      } else if id in p.tombstones {
        p.tombstones := p.tombstones - {id};
      }
    }
    assert p.selected[..|p.selected|] == p.selected;
    var mode := p.mode;
    p.Include(models, id => Joins(mode, routes, id));
    p.revision := p.revision + 1;
    ok := true;
  }

  // The authoritative pool and the committed catalogs.
  class Store {
    var pool: PoolState
    var snapshotRevision: int

    constructor (pool: PoolState)
      ensures this.pool == pool && snapshotRevision == 0
    {
      this.pool, snapshotRevision := pool, 0;
    }

    method StateSnapshot() returns (copy: PoolState)
      ensures fresh(copy)
      ensures copy.revision == pool.revision && copy.mode == pool.mode
      ensures copy.selected == pool.selected && copy.tombstones == pool.tombstones
    {
      copy := pool.Clone();
    }

    method CommitSnapshot(snap: Catalog) returns (committed: Option<Catalog>)
      modifies `snapshotRevision
      ensures committed.Some? <==> snap.Valid()
      ensures committed.Some? ==> snapshotRevision == old(snapshotRevision) + 1
      ensures committed.Some? ==> committed.value == snap.(revision := snapshotRevision)
      ensures committed.None? ==> snapshotRevision == old(snapshotRevision)
    {
      if !snap.Valid() {
        return None;
      }
      snapshotRevision := snapshotRevision + 1;
      committed := Some(snap.(revision := snapshotRevision));
    }

    method ReplaceState(p: PoolState)
      modifies `pool
      ensures fresh(pool)
      ensures pool.revision == p.revision && pool.mode == p.mode
      ensures pool.selected == p.selected && pool.tombstones == p.tombstones
    {
      pool := p.Clone();
    }
  }
}
