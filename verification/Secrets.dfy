/**
 * The two-layer secret store (internal/config/secrets.go): an optional OS backend over a protected file. The file is
 * read only up to a size limit and replaced by renames of which any may fail (internal/config/config.go). Text is bytes.
 */
module Secrets {
  import opened Strings
  import opened Wrappers

  const MAX_SECRET_FILE_BYTES := 1024 * 1024

  // ----- the file

  // The encoded size of a list of secrets.
  type Size = map<string, string> -> nat

  // What is used of the JSON encoding: every byte of a value takes at least one.
  ghost predicate CountsValues(size: Size) {
    forall m: map<string, string>, a, b :: a in m && b in m && a != b ==> |m[a]| + |m[b]| <= size(m)
  }

  // Malformed stands for contents that do not decode, and Bare for those that decode without a list of secrets.
  datatype SecretFile = Absent | Malformed | Bare(length: nat) | Held(values: map<string, string>, length: nat) {
    function Contents(): map<string, string> {
      if Held? then values else map[]
    }

    predicate Readable() {
      Held? && length <= MAX_SECRET_FILE_BYTES
    }

    // A write starts from an empty list, so it takes a file that has none; a read and an erasure do not.
    predicate Writable() {
      Absent? || ((Bare? || Held?) && length <= MAX_SECRET_FILE_BYTES)
    }
  }

  // The fate of one operation. works: the backend, or the reading of the file, succeeds. effective: a failing backend
  // operation takes effect all the same. The others are the steps of a file replacement, after which finish sets the mode.
  datatype Faults = Faults(
    works: bool, effective: bool, install: bool, setAside: bool, retry: bool, restore: bool, finish: bool)

  const NO_FAULT := Faults(true, true, true, true, true, true, true)

  // Replacing the file by way of a set-aside copy, which no read recovers.
  function Installed(f: SecretFile, next: SecretFile, x: Faults): (SecretFile, bool) {
    if x.install then (next, x.finish)
    else if !x.setAside then (f, false)
    else if x.retry then (next, x.finish)
    else if x.restore || f.Absent? then (f, false)
    else (Absent, false)
  }

  function Written(f: SecretFile, size: Size, key: string, value: string, x: Faults): (SecretFile, bool) {
    if !x.works || !f.Writable() then (f, false)
    else
      var values := f.Contents()[key := value];
      Installed(f, Held(values, size(values)), x)
  }

  // Removing the last secret removes the file.
  function Erased(f: SecretFile, size: Size, key: string, x: Faults): (SecretFile, bool) {
    if f.Absent? then (f, true)
    else if !x.works || !f.Readable() then (f, false)
    else if key !in f.values then (f, true)
    else if f.values - {key} == map[] then (if x.install then (Absent, true) else (f, false))
    else Installed(f, Held(f.values - {key}, size(f.values - {key})), x)
  }

  // ----- both layers

  // `losses` counts the replacements that have ended with the file set aside.
  datatype Vault = Vault(backend: Option<map<string, string>>, file: SecretFile, losses: nat) {
    function BackendValue(key: string): Option<string> {
      if backend.Some? && key in backend.value then Some(backend.value[key]) else None
    }

    function FileValue(key: string): Option<string> {
      if key in file.Contents() then Some(file.Contents()[key]) else None
    }

    // A blank value counts as absent, and the backend is read first.
    function Get(key: string): Option<string> {
      if Usable(BackendValue(key)).Some? then Usable(BackendValue(key))
      else if file.Readable() then Usable(FileValue(key))
      else None
    }

    predicate Holds(key: string, value: string) {
      BackendValue(key) == Some(value) || FileValue(key) == Some(value)
    }

    predicate Gone(key: string) {
      BackendValue(key).None? && FileValue(key).None?
    }

    predicate ReliesOnFile(key: string) {
      Usable(BackendValue(key)).None?
    }

    function WithFile(outcome: (SecretFile, bool)): Vault {
      this.(file := outcome.0, losses := losses + if !file.Absent? && outcome.0.Absent? && !outcome.1 then 1 else 0)
    }
  }

  function Usable(value: Option<string>): Option<string> {
    if value.Some? && TrimSpace(value.value) != "" then Some(TrimSpace(value.value)) else None
  }

  predicate SameAt(v: Vault, w: Vault, key: string) {
    v.BackendValue(key) == w.BackendValue(key) && v.FileValue(key) == w.FileValue(key)
  }

  // What an operation does to the keys it is not about: nothing, except that a loss of the file takes them all.
  predicate Kept(v: Vault, w: Vault, key: string) {
    && w.BackendValue(key) == v.BackendValue(key)
    && w.FileValue(key) == if w.losses > v.losses then None else v.FileValue(key)
  }

  // A file as the store writes it.
  predicate IsEncoded(size: Size, f: SecretFile) {
    f.Absent? || (f.Held? && f.length == size(f.values))
  }

  // What operations on these keys do. A file that cannot be written cannot be lost either.
  ghost predicate Effect(size: Size, v: Vault, w: Vault, keys: set<string>) {
    && v.losses <= w.losses && w.backend.Some? == v.backend.Some?
    && (w.file == v.file || IsEncoded(size, w.file))
    && (!v.file.Writable() ==> w.file == v.file && w.losses == v.losses)
    && forall k :: k !in keys ==> Kept(v, w, k)
  }

  lemma EffectTwice(size: Size, u: Vault, v: Vault, w: Vault, a: set<string>, b: set<string>)
    requires Effect(size, u, v, a) && Effect(size, v, w, b)
    ensures Effect(size, u, w, a + b)
  {
    forall k | k !in a + b
      ensures Kept(u, w, k)
    {
      assert Kept(u, v, k) && Kept(v, w, k);
    }
  }

  lemma FileEffect(size: Size, v: Vault, key: string, value: string, x: Faults)
    ensures Effect(size, v, v.WithFile(Written(v.file, size, key, value, x)), {key})
    ensures Effect(size, v, v.WithFile(Erased(v.file, size, key, x)), {key})
  {
  }

  // Which steps of a replacement put the new file in place, and which lose the old one.
  lemma ReplacedOrLostExactly(f: SecretFile, next: SecretFile, x: Faults)
    requires !f.Absent? && !next.Absent? && f != next
    ensures var (file, ok) := Installed(f, next, x);
      && (file == next <==> x.install || (x.setAside && x.retry)) && (ok <==> file == next && x.finish)
      && (file == Absent <==> !x.install && x.setAside && !x.retry && !x.restore)
      && file in {f, next, Absent}
  {
  }

  // What becomes of the file when nothing fails. One that cannot be read, or is too long, is left alone by both operations,
  // and so is by an erasure one without a list of secrets.
  lemma FaultlessFile(f: SecretFile, size: Size, key: string, value: string)
    ensures f.Malformed? || (!f.Absent? && f.length > 1024 * 1024) ==>
      Written(f, size, key, value, NO_FAULT) == (f, false) && Erased(f, size, key, NO_FAULT) == (f, false)
    ensures f.Absent? || (f.Bare? && f.length <= 1024 * 1024) ==>
      && Written(f, size, key, value, NO_FAULT) == (Held(map[key := value], size(map[key := value])), true)
      && Erased(f, size, key, NO_FAULT) == (f, f.Absent?)
    ensures f.Held? && f.length <= 1024 * 1024 ==>
      var next, rest := f.values[key := value], f.values - {key};
      && Written(f, size, key, value, NO_FAULT) == (Held(next, size(next)), true)
      && Erased(f, size, key, NO_FAULT).1 && Erased(f, size, key, NO_FAULT).0.Contents() == rest
      && (key !in f.values ==> Erased(f, size, key, NO_FAULT).0 == f)
      && (key in f.values ==> Erased(f, size, key, NO_FAULT).0 == if rest == map[] then Absent else Held(rest, size(rest)))
  {
    assert f.Contents() == map[] ==> f.Contents()[key := value] == map[key := value];
  }

  // A read takes the backend's value, unless it is blank or missing, and else that of a file within its limit.
  lemma GetIs(v: Vault, key: string, value: string)
    ensures v.Get(key) == Some(value) <==>
      var backed := v.backend.Some? && key in v.backend.value && TrimSpace(v.backend.value[key]) != "";
      && value != ""
      && if backed then TrimSpace(v.backend.value[key]) == value
         else v.file.Held? && v.file.length <= 1024 * 1024 && key in v.file.values && TrimSpace(v.file.values[key]) == value
  {
  }

  // A key survives a loss exactly when the file does not hold it.
  lemma KeptExactly(v: Vault, w: Vault, key: string)
    requires Kept(v, w, key) && v.losses <= w.losses
    ensures SameAt(v, w, key) <==> w.losses == v.losses || v.FileValue(key).None?
  {
  }

  // What is left of a key that is only deleted, wherever the deletion fails.
  predicate Remains(v: Vault, w: Vault, key: string) {
    && (w.BackendValue(key) == v.BackendValue(key) || w.BackendValue(key).None?)
    && (w.FileValue(key) == v.FileValue(key) || w.FileValue(key).None?)
  }

  // A key or a value that the store accepts, once trimmed.
  predicate IsStorable(s: string) {
    TrimSpace(s) != "" && '\0' !in TrimSpace(s)
  }

  // From the given operation on nothing fails.
  ghost predicate Faultless(script: nat -> Faults, clock: nat) {
    forall n: nat :: n >= clock ==> script(n) == NO_FAULT
  }

  // `script` decides the fate of every operation, in order; nothing is assumed of it.
  class SecretStore {
    const hasFile: bool
    const size: Size
    const script: nat -> Faults
    var clock: nat
    var vault: Vault

    ghost predicate Valid()
      reads this
    {
      !hasFile ==> vault.file.Absent?
    }

    constructor (hasFile: bool, size: Size, script: nat -> Faults, vault: Vault)
      requires !hasFile ==> vault.file.Absent?
      ensures Valid() && this.hasFile == hasFile && this.size == size && this.script == script
      ensures this.vault == vault && clock == 0
    {
      this.hasFile, this.size, this.script, this.vault, clock := hasFile, size, script, vault, 0;
    }

    method Fate() returns (x: Faults)
      modifies `clock
      ensures x == script(old(clock)) && clock == old(clock) + 1
    {
      x := script(clock);
      clock := clock + 1;
    }

    method BackendSet(key: string, value: string) returns (ok: bool)
      requires Valid() && vault.backend.Some?
      modifies `vault, `clock
      ensures Valid() && Effect(size, old(vault), vault, {key}) && vault.file == old(vault.file) && vault.losses == old(vault.losses)
      ensures vault.BackendValue(key) == Some(value) || (!ok && vault == old(vault))
      ensures clock == old(clock) + 1 && (Faultless(script, old(clock)) ==> ok)
    {
      var x := Fate();
      if x.works || x.effective {
        vault := vault.(backend := Some(vault.backend.value[key := value]));
      }
      ok := x.works;
    }

    method BackendDelete(key: string) returns (ok: bool)
      requires Valid() && vault.backend.Some?
      modifies `vault, `clock
      ensures Valid() && Effect(size, old(vault), vault, {key}) && vault.file == old(vault.file) && vault.losses == old(vault.losses)
      ensures vault.BackendValue(key).None? || (!ok && vault == old(vault))
      ensures clock == old(clock) + 1 && (Faultless(script, old(clock)) ==> ok)
    {
      var x := Fate();
      if x.works || x.effective {
        vault := vault.(backend := Some(vault.backend.value - {key}));
      }
      ok := x.works;
    }

    method WriteFile(key: string, value: string) returns (ok: bool)
      requires Valid()
      modifies `vault, `clock
      ensures Valid() && Effect(size, old(vault), vault, {key}) && vault.backend == old(vault.backend)
      ensures clock >= old(clock)
      ensures Faultless(script, old(clock)) ==>
        vault.losses == old(vault).losses && (ok <==> hasFile && old(vault.file).Writable())
      ensures ok ==> hasFile && vault.file == Held(old(vault.file).Contents()[key := value], size(old(vault.file).Contents()[key := value]))
      ensures hasFile ==>
        var outcome := Written(old(vault.file), size, key, value, script(old(clock)));
        vault == old(vault).WithFile(outcome) && ok == outcome.1
    {
      if !hasFile {
        return false;
      }
      var x := Fate();
      FileEffect(size, vault, key, value, x);
      var outcome := Written(vault.file, size, key, value, x);
      vault := vault.WithFile(outcome);
      ok := outcome.1;
    }

    method DeleteFromFile(key: string) returns (ok: bool)
      requires Valid()
      modifies `vault, `clock
      ensures Valid() && Effect(size, old(vault), vault, {key}) && vault.backend == old(vault.backend) && clock >= old(clock)
      ensures ok ==> vault.FileValue(key).None?
      ensures vault.FileValue(key) == old(vault).FileValue(key) || vault.FileValue(key).None?
      ensures hasFile ==>
        var outcome := Erased(old(vault.file), size, key, script(old(clock)));
        vault == old(vault).WithFile(outcome) && ok == outcome.1
      ensures Faultless(script, old(clock)) ==>
        vault.losses == old(vault).losses && (ok <==> old(vault.file).Absent? || old(vault.file).Readable())
    {
      if !hasFile {
        return true;
      }
      var x := Fate();
      FileEffect(size, vault, key, "", x);
      var outcome := Erased(vault.file, size, key, x);
      vault := vault.WithFile(outcome);
      ok := outcome.1;
    }

    // The value is readable back exactly when the backend has it, or has no usable value and the file with the new
    // value is within the limit. The limit is not looked at before the file is written.
    method Set(key: string, value: string) returns (ok: bool)
      requires Valid()
      modifies `vault, `clock
      ensures Valid() && Effect(size, old(vault), vault, {TrimSpace(key)})
      ensures ok ==> TrimSpace(value) != "" && vault.Holds(TrimSpace(key), TrimSpace(value))
      ensures ok ==>
        var k, v := TrimSpace(key), TrimSpace(value);
        (vault.Get(k) == Some(v) <==>
          Usable(vault.BackendValue(k)) == Some(v)
          || (vault.ReliesOnFile(k) && size(old(vault.file).Contents()[k := v]) <= MAX_SECRET_FILE_BYTES))
      ensures ok && old(vault.backend).None? ==> IsEncoded(size, vault.file)
      ensures clock >= old(clock)
      ensures Faultless(script, old(clock)) ==>
        && vault.losses == old(vault).losses
        && (ok <==> IsStorable(key) && IsStorable(value) && (old(vault.backend).Some? || (hasFile && old(vault.file).Writable())))
        && (old(vault.file).Absent? && old(vault.backend).Some? ==> vault.file.Absent?)
    {
      TrimmedHasNoOuterSpace(value);
      var k, v := TrimSpace(key), TrimSpace(value);
      if k == "" || '\0' in k || v == "" || '\0' in v {
        return false;
      }
      if vault.backend.Some? {
        ghost var before := vault;
        ok := BackendSet(k, v);
        ghost var between := vault;
        if ok {
          var _ := DeleteFromFile(k);
          EffectTwice(size, before, between, vault, {k}, {k});
          return true;
        }
        ok := WriteFile(k, v);
        EffectTwice(size, before, between, vault, {k}, {k});
        return;
      }
      ok := WriteFile(k, v);
    }

    method DeleteStrict(key: string) returns (ok: bool)
      requires Valid()
      modifies `vault, `clock
      ensures Valid() && Effect(size, old(vault), vault, {TrimSpace(key)})
      ensures ok ==> vault.Gone(TrimSpace(key))
      ensures Remains(old(vault), vault, TrimSpace(key)) && clock >= old(clock)
      ensures Faultless(script, old(clock)) ==>
        && vault.losses == old(vault).losses
        && (ok <==> IsStorable(key) && (old(vault.file).Absent? || old(vault.file).Readable()))
        && (old(vault.file).Absent? ==> vault.file.Absent?)
    {
      var k := TrimSpace(key);
      if k == "" || '\0' in k {
        return false;
      }
      ghost var before := vault;
      var backendOk := true;
      if vault.backend.Some? {
        backendOk := BackendDelete(k);
      }
      ghost var between := vault;
      var fileOk := DeleteFromFile(k);
      EffectTwice(size, before, between, vault, {k}, {k});
      ok := backendOk && fileOk;
    }
  }

  // ----- where the store falls short

  // With no failing operation, two values of 600 KiB are stored one after the other, and then neither can be read.
  lemma TwoLargeValuesAreLost(size: Size, a: string, b: string, x: string, y: string, v: Vault)
    requires CountsValues(size) && a != b && |x| >= 600 * 1024 && |y| >= 600 * 1024
    requires v.backend.None? && v.file.Absent? && size(map[a := x]) <= MAX_SECRET_FILE_BYTES
    ensures var first := Written(v.file, size, a, x, NO_FAULT);
      var second := Written(first.0, size, b, y, NO_FAULT);
      var w := v.WithFile(first).WithFile(second);
      first.1 && second.1 && w.Holds(a, x) && w.Holds(b, y) && w.Get(a).None? && w.Get(b).None?
  {
    var first := Written(v.file, size, a, x, NO_FAULT);
    assert v.file.Contents()[a := x] == map[a := x];
    var both := map[a := x][b := y];
    assert a in both && b in both && |both[a]| + |both[b]| <= size(both);
  }

  // A replacement whose two installing renames fail, and that cannot put the old file back, loses every secret in it.
  lemma SetAsideLosesAll(size: Size, key: string, value: string, x: Faults, v: Vault, other: string)
    requires x.works && !x.install && x.setAside && !x.retry && !x.restore
    requires v.file.Readable() && other in v.file.values && v.ReliesOnFile(other)
    ensures var outcome := Written(v.file, size, key, value, x);
      !outcome.1 && v.WithFile(outcome).losses == v.losses + 1 && v.WithFile(outcome).Get(other).None?
  {
  }
}
