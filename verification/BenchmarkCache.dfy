/**
 * The last-known-good benchmark cache (internal/scoring/cache.go): a file replaced by renames of which any may fail,
 * with a crash possible after each.
 */
module BenchmarkCache {
  import opened Matcher
  import opened Numbers
  import opened Scoring
  import opened Strings
  import opened Wrappers

  const MAX_SNAPSHOT_BYTES := 16 * 1024 * 1024
  const DEFAULT_MAX_AGE := 7 * 24 * 3600 * 1_000_000_000

  // A time is its instant, 0 being the zero time; a nil model map is None.
  datatype Snapshot = Snapshot(
    version: string, source: string, retrievedAt: int, benchmarks: seq<Benchmark>, models: Option<map<string, Metrics>>)
  {
    predicate Valid() {
      && TrimSpace(version) != "" && TrimSpace(source) != "" && retrievedAt != 0 && models.Some?
      && (forall b :: b in benchmarks ==> TrimSpace(b.sourceModelID) != "")
      && (forall i, j :: 0 <= i < j < |benchmarks| ==>
            TrimSpace(benchmarks[i].sourceModelID) != TrimSpace(benchmarks[j].sourceModelID))
      && (forall id :: id in models.value ==> TrimSpace(id) != "" && IsFinite(models.value[id]))
    }

    predicate IsStale(now: int, maxAge: int) {
      retrievedAt == 0 || (maxAge > 0 && now >= retrievedAt && now - retrievedAt > maxAge)
    }
  }

  // Without a limit a snapshot is never stale; one from the future is fresh until its limit has passed.
  lemma StaleExactly(s: Snapshot, now: int, maxAge: int)
    requires s.retrievedAt != 0
    ensures s.IsStale(now, maxAge) <==> 0 < maxAge < now - s.retrievedAt
  {
  }

  predicate IsFinite(m: Metrics) {
    Some(NonFinite) !in {m.capability, m.availability, m.intelligence}
  }

  const EMPTY := Snapshot("", "", 0, [], Some(map[]))

  datatype Codec = Codec(encode: Snapshot -> Option<string>, decode: string -> Option<Snapshot>) {
    // What a load makes of the bytes it finds.
    function Read(data: Option<string>): Option<Snapshot> {
      if data.None? || |data.value| > MAX_SNAPSHOT_BYTES then None
      else if decode(data.value).None? || !decode(data.value).value.Valid() then None
      else decode(data.value)
    }
  }

  predicate HasDistinctIDs(benchmarks: seq<Benchmark>) {
    && (forall i :: 0 <= i < |benchmarks| ==> TrimSpace(benchmarks[i].sourceModelID) != "")
    && forall i, j :: 0 <= i < |benchmarks| && 0 <= j < |benchmarks| ==>
         (TrimSpace(benchmarks[i].sourceModelID) == TrimSpace(benchmarks[j].sourceModelID) <==> i == j)
  }

  predicate IsNumber(x: Option<Float>) {
    x.None? || x.value.Finite?
  }

  predicate HasNumbers(models: map<string, Metrics>) {
    forall id :: id in models ==>
      && TrimSpace(id) != "" && IsNumber(models[id].capability) && IsNumber(models[id].availability)
      && IsNumber(models[id].intelligence)
  }

  // What a load lets through: within the limit, with a version, a source, a time and a model map, records of distinct ids,
  // and no metric that is not a number.
  lemma ReadExactly(c: Codec, data: string, s: Snapshot)
    ensures c.Read(Some(data)) == Some(s) <==>
      && |data| <= 16 * 1024 * 1024 && c.decode(data) == Some(s)
      && TrimSpace(s.version) != "" && TrimSpace(s.source) != "" && s.retrievedAt != 0
      && HasDistinctIDs(s.benchmarks) && s.models.Some? && HasNumbers(s.models.value)
  {
    assert s.Valid() <==>
      && TrimSpace(s.version) != "" && TrimSpace(s.source) != "" && s.retrievedAt != 0
      && HasDistinctIDs(s.benchmarks) && s.models.Some? && HasNumbers(s.models.value) by {
      ListIsDistinct(s.benchmarks);
      if s.models.Some? {
        MapIsFinite(s.models.value);
      }
    }
  }

  lemma MapIsFinite(models: map<string, Metrics>)
    ensures HasNumbers(models) <==> forall id :: id in models ==> TrimSpace(id) != "" && IsFinite(models[id])
  {
    forall id | id in models
      ensures IsFinite(models[id]) <==>
        IsNumber(models[id].capability) && IsNumber(models[id].availability) && IsNumber(models[id].intelligence)
    {
    }
  }

  lemma ListIsDistinct(benchmarks: seq<Benchmark>)
    ensures HasDistinctIDs(benchmarks) <==>
      && (forall b :: b in benchmarks ==> TrimSpace(b.sourceModelID) != "")
      && forall i, j :: 0 <= i < j < |benchmarks| ==>
           TrimSpace(benchmarks[i].sourceModelID) != TrimSpace(benchmarks[j].sourceModelID)
  {
  }

  // ----- files

  datatype Name = Target | Backup | Temp

  type Files = map<Name, string>

  function Moved(f: Files, from: Name, to: Name): Files {
    if from in f then (f - {from})[to := f[from]] else f
  }

  // What a load recovers: the target or, when there is none, the copy that was set aside.
  function Recovered(f: Files): Option<string> {
    if Target in f then Some(f[Target]) else if Backup in f then Some(f[Backup]) else None
  }

  // Whether each step of a replacement works. A set-aside that works reports a missing target as such.
  datatype Faults = Faults(install: bool, discard: bool, setAside: bool, retry: bool, restore: bool, cleanup: bool)

  // The states of the disk during a replacement, the last one being the outcome.
  function ReplaceStates(f: Files, x: Faults): seq<Files> {
    if x.install && Temp in f then [Moved(f, Temp, Target)]
    else
      var discarded := if x.discard then f - {Backup} else f;
      if !x.setAside then [discarded]
      else
        var aside := Moved(discarded, Target, Backup);
        if x.retry && Temp in f then
          var installed := Moved(aside, Temp, Target);
          [discarded, aside, installed] + if Target in f && x.cleanup then [installed - {Backup}] else []
        else [discarded, aside] + if Target in f && x.restore then [Moved(aside, Backup, Target)] else []
  }

  predicate Installs(f: Files, x: Faults) {
    Temp in f && (x.install || (x.setAside && x.retry))
  }

  // At every crash point a load recovers the complete old or the complete new data.
  lemma ReplaceSurvivesCrash(f: Files, x: Faults, g: Files)
    requires Temp in f && (Target in f || Backup !in f) && g in ReplaceStates(f, x)
    ensures Recovered(g) in {Recovered(f), Some(f[Temp])}
  {
  }

  lemma InstalledIsNew(f: Files, x: Faults)
    ensures var states := ReplaceStates(f, x); var last := states[|states| - 1];
      if Installs(f, x) then Recovered(last) == Some(f[Temp]) && Temp !in last
      else
        && (Temp in last <==> Temp in f)
        && (Target in f && (x.restore || !x.setAside) ==> Target in last && last[Target] == f[Target])
  {
  }

  predicate AllRecover(states: seq<Files>, was: Option<string>, data: string) {
    forall g :: g in states ==> Recovered(g) in {was, Some(data)}
  }

  ghost predicate CrashSafe(f: Files)
    requires Temp in f
  {
    forall x, g :: g in ReplaceStates(f, x) ==> Recovered(g) in {Recovered(f), Some(f[Temp])}
  }

  // The precondition is exact: when only a set-aside copy is left, it is removed before the new data is in place.
  lemma CrashSafeExactly(f: Files)
    requires Temp in f
    ensures CrashSafe(f) <==> Target in f || Backup !in f
  {
    if Target in f || Backup !in f {
      forall x, g | g in ReplaceStates(f, x)
        ensures Recovered(g) in {Recovered(f), Some(f[Temp])}
      {
        ReplaceSurvivesCrash(f, x, g);
      }
    } else {
      var x := Faults(false, true, false, false, false, false);
      assert ReplaceStates(f, x) == [f - {Backup}];
      assert (f - {Backup}) in ReplaceStates(f, x) && Recovered(f - {Backup}) == None;
    }
  }

  // A disk with the states it has been through, any of which a crash may leave behind.
  class Disk {
    var files: Files
    ghost var past: seq<Files>

    constructor (files: Files)
      ensures this.files == files && past == [files]
    {
      this.files, past := files, [files];
    }

    method Change(next: Files)
      modifies this
      ensures files == next && past == old(past) + [next]
    {
      files, past := next, past + [next];
    }

    method Rename(from: Name, to: Name) returns (moved: bool)
      modifies this
      ensures moved <==> from in old(files)
      ensures files == Moved(old(files), from, to) && past == old(past) + [files]
    {
      moved := from in files;
      Change(Moved(files, from, to));
    }

    method Remove(name: Name, works: bool)
      modifies this
      ensures files == (if works then old(files) - {name} else old(files)) && past == old(past) + [files]
    {
      Change(if works then files - {name} else files);
    }
  }

  // Renames the temporary file over the target, by way of a set-aside copy where a rename does not replace.
  method ReplaceFile(disk: Disk, x: Faults) returns (ok: bool)
    modifies disk
    ensures ok == Installs(old(disk.files), x)
    ensures disk.past == old(disk.past) + ReplaceStates(old(disk.files), x)
    ensures disk.files == disk.past[|disk.past| - 1]
  {
    if x.install && Temp in disk.files {
      ok := disk.Rename(Temp, Target);
      return;
    }
    disk.Remove(Backup, x.discard);
    if !x.setAside {
      return false;
    }
    ghost var discarded := disk.files;
    var backupMoved := disk.Rename(Target, Backup);
    assert disk.past == old(disk.past) + [discarded, disk.files];
    if !x.retry || Temp !in disk.files {
      if backupMoved && x.restore {
        var _ := disk.Rename(Backup, Target);
      }
      return false;
    }
    ok := disk.Rename(Temp, Target);
    if backupMoved && x.cleanup {
      disk.Remove(Backup, true);
    }
  }

  method Install(disk: Disk, data: string, x: Faults) returns (ok: bool)
    requires Temp in disk.files && disk.files[Temp] == data
    modifies disk
    ensures old(disk.past) < disk.past && disk.files == disk.past[|disk.past| - 1]
    ensures ok ==> Recovered(disk.files) == Some(data)
    ensures Target in old(disk.files) || Backup !in old(disk.files) ==>
      AllRecover(disk.past[|old(disk.past)|..], Recovered(old(disk.files)), data)
  {
    ghost var start := disk.past;
    var replaced := ReplaceFile(disk, x);
    ReplacementRecovers(old(disk.files), x);
    ghost var states := disk.past[|start|..];
    if replaced {
      ok := *;
    } else {
      disk.Remove(Temp, true);
      assert disk.past[|start|..] == states + [disk.files];
      assert states[|states| - 1] in states;
      ok := false;
    }
  }

  lemma ReplacementRecovers(f: Files, x: Faults)
    requires Temp in f
    ensures Installs(f, x) ==> Recovered(ReplaceStates(f, x)[|ReplaceStates(f, x)| - 1]) == Some(f[Temp])
    ensures Target in f || Backup !in f ==> AllRecover(ReplaceStates(f, x), Recovered(f), f[Temp])
  {
    InstalledIsNew(f, x);
    if Target in f || Backup !in f {
      forall g | g in ReplaceStates(f, x)
        ensures Recovered(g) in {Recovered(f), Some(f[Temp])}
      {
        ReplaceSurvivesCrash(f, x, g);
      }
    }
  }

  // ----- saving and loading

  class Cache {
    const codec: Codec
    const hasPath: bool
    const maxAge: int
    const disk: Disk

    constructor (codec: Codec, hasPath: bool, maxAge: int, disk: Disk)
      ensures this.codec == codec && this.hasPath == hasPath && this.disk == disk
      ensures this.maxAge == if maxAge <= 0 then DEFAULT_MAX_AGE else maxAge
    {
      this.codec, this.hasPath, this.disk := codec, hasPath, disk;
      this.maxAge := if maxAge <= 0 then DEFAULT_MAX_AGE else maxAge;
    }

    // Writes the temporary file, of which a crash may leave any part, and puts it in place.
    method SaveLocked(data: string, x: Faults) returns (ok: bool)
      modifies disk
      ensures old(disk.past) < disk.past && disk.files == disk.past[|disk.past| - 1]
      ensures ok ==> Recovered(disk.files) == Some(data)
      ensures Target in old(disk.files) || Backup !in old(disk.files) ==>
        AllRecover(disk.past[|old(disk.past)|..], Recovered(old(disk.files)), data)
    {
      ghost var start := disk.past;
      var partial: string := *;
      disk.Change(disk.files[Temp := partial]);
      var written: bool := *;
      if written {
        disk.Change(disk.files[Temp := data]);
        ghost var writing := disk.past;
        ok := Install(disk, data, x);
        assert disk.past[|start|..] == writing[|start|..] + disk.past[|writing|..];
      } else {
        disk.Remove(Temp, true);
        ok := false;
      }
    }

    // A set-aside copy is put back when the target is missing. Reading and renaming may fail.
    method LoadLocked(recovers: bool, readable: bool) returns (r: Option<Snapshot>)
      modifies disk
      ensures r.Some? ==> r == codec.Read(Recovered(old(disk.files)))
      ensures hasPath && recovers && readable ==> r == codec.Read(Recovered(old(disk.files)))
      ensures hasPath && recovers && Recovered(old(disk.files)).Some? ==> Target in disk.files
      ensures Recovered(disk.files) == Recovered(old(disk.files)) && old(disk.past) <= disk.past
    {
      if !hasPath {
        return None;
      }
      if Target !in disk.files && recovers {
        var _ := disk.Rename(Backup, Target);
      }
      if Target !in disk.files || !readable {
        return None;
      }
      r := codec.Read(Some(disk.files[Target]));
    }

    // Wherever a crash stops it, a later load finds the old snapshot or the new one as it decodes. The size limit is
    // only checked on load, so a snapshot over it is saved and then not found.
    method Save(snapshot: Snapshot, x: Faults) returns (ok: bool)
      modifies disk
      ensures old(disk.past) <= disk.past
      ensures !snapshot.Valid() || !hasPath ==> !ok && disk.files == old(disk.files)
      ensures ok ==> codec.Read(Recovered(disk.files)) == SavedForm(codec, snapshot)
      ensures (Target in old(disk.files) || Backup !in old(disk.files)) ==>
        forall g :: g in disk.past[|old(disk.past)|..] ==>
          codec.Read(Recovered(g)) in {codec.Read(Recovered(old(disk.files))), SavedForm(codec, snapshot)}
      ensures disk.files == old(disk.files) || (disk.past != [] && disk.files == disk.past[|disk.past| - 1])
    {
      if !snapshot.Valid() || !hasPath {
        return false;
      }
      var data := codec.encode(snapshot);
      if data.None? {
        return false;
      }
      ghost var start, was := disk.past, Recovered(disk.files);
      ok := SaveLocked(data.value, x);
      if AllRecover(disk.past[|start|..], was, data.value) {
        RecoveredIsRead(codec, snapshot, data.value, disk.past[|start|..], was);
      }
    }

    // Never fails: live data, else the cache however old, else the empty snapshot. `live` is None when the fetch failed.
    method Resolve(live: Option<Snapshot>, now: int, x: Faults, recovers: bool, readable: bool) returns (r: Resolution)
      modifies disk
      ensures r.snapshot.models.Some?
      ensures live.Some? && live.value.Valid() <==> r.source == Live
      ensures r.source == Live ==> r.snapshot == live.value && !r.stale
      ensures r.source == Cached ==>
        && codec.Read(Recovered(old(disk.files))) == Some(r.snapshot) && (r.stale <==> r.snapshot.IsStale(now, maxAge))
      ensures r.source == Default ==> r.snapshot == EMPTY && !r.stale
      ensures r.source == Default && hasPath && recovers && readable ==> codec.Read(Recovered(old(disk.files))).None?
      ensures r.source != Live ==> Recovered(disk.files) == Recovered(old(disk.files))
    {
      if live.Some? && live.value.Valid() {
        var _ := Save(live.value, x);
        return Resolution(live.value, Live, false);
      }
      var cached := LoadLocked(recovers, readable);
      if cached.Some? {
        return Resolution(cached.value, Cached, cached.value.IsStale(now, maxAge));
      }
      r := Resolution(EMPTY, Default, false);
    }
  }

  datatype Source = Live | Cached | Default

  datatype Resolution = Resolution(snapshot: Snapshot, source: Source, stale: bool)

  // What a load makes of a snapshot that was saved.
  function SavedForm(c: Codec, s: Snapshot): Option<Snapshot> {
    if s.Valid() then c.Read(c.encode(s)) else None
  }

  // A snapshot that the codec keeps, as encoding/json does for valid UTF-8, is found again exactly when its encoding is
  // within the limit.
  lemma SavedIsFoundExactly(c: Codec, s: Snapshot)
    requires s.Valid() && c.encode(s).Some? && c.decode(c.encode(s).value) == Some(s)
    ensures SavedForm(c, s) == if |c.encode(s).value| <= MAX_SNAPSHOT_BYTES then Some(s) else None
  {
  }

  lemma RecoveredIsRead(c: Codec, s: Snapshot, data: string, states: seq<Files>, was: Option<string>)
    requires s.Valid() && c.encode(s) == Some(data) && AllRecover(states, was, data)
    ensures forall g :: g in states ==> c.Read(Recovered(g)) in {c.Read(was), SavedForm(c, s)}
  {
    assert c.Read(Some(data)) == SavedForm(c, s);
  }

  // A crash between the two renames leaves only the set-aside copy. A load that puts it back makes the next save safe
  // again; a save that comes first need not be.
  lemma LoadMakesSaveSafe(f: Files, data: string)
    requires Backup in f && Target !in f
    ensures !CrashSafe(f[Temp := data])
    ensures CrashSafe(Moved(f, Backup, Target)[Temp := data])
  {
    CrashSafeExactly(f[Temp := data]);
    CrashSafeExactly(Moved(f, Backup, Target)[Temp := data]);
  }
}
