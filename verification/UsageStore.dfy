/** The usage store (internal/usage/usage.go): append, retention by age and size, and persistence that may fail. */
module UsageStore {
  import Strings
  import opened UsageLog
  import opened Wrappers

  // ----- retention

  // A record without a printed form takes no room.
  function SizeIn(c: Codec): RequestRecord -> nat {
    (r: RequestRecord) => if c.encode(r).None? then 0 else |c.encode(r).value| + 1
  }

  function Total<T>(size: T -> nat, s: seq<T>): nat {
    if s == [] then 0 else size(s[0]) + Total(size, s[1..])
  }

  predicate Survives(now: int, r: RequestRecord) {
    var at := if r.completedAt != 0 then r.completedAt else r.startedAt;
    at == 0 || at >= now - MAX_AGE
  }

  function Surviving(now: int): RequestRecord -> bool {
    (r: RequestRecord) => Survives(now, r)
  }

  function Filter<T>(keep: T -> bool, s: seq<T>): seq<T> {
    if s == [] then []
    else Filter(keep, s[..|s| - 1]) + if keep(s[|s| - 1]) then [s[|s| - 1]] else []
  }

  // Drops from the front, one at a time, until the rest fits.
  function Fitting<T>(size: T -> nat, s: seq<T>): seq<T> {
    if Total(size, s) <= MAX_BYTES then s else Fitting(size, s[1..])
  }

  lemma {:induction false} TotalAppend<T>(size: T -> nat, s: seq<T>, x: T)
    ensures Total(size, s + [x]) == Total(size, s) + size(x)
  {
    if s != [] {
      assert (s + [x])[1..] == s[1..] + [x];
      TotalAppend(size, s[1..], x);
    }
  }

  lemma {:induction false} EncodedLength(c: Codec, records: seq<RequestRecord>)
    ensures |Encoded(c.encode, records)| == Total(SizeIn(c), records)
  {
    if records != [] {
      EncodedLength(c, records[1..]);
    }
  }

  // Fitting is the longest suffix within the budget.
  lemma {:induction false} FittingIsLongest<T>(size: T -> nat, s: seq<T>)
    ensures var k := |s| - |Fitting(size, s)|;
      && 0 <= k <= |s| && Fitting(size, s) == s[k..] && Total(size, s[k..]) <= MAX_BYTES
      && forall j :: 0 <= j < k ==> Total(size, s[j..]) > MAX_BYTES
  {
    if Total(size, s) <= MAX_BYTES {
      assert s[0..] == s;
    } else {
      FittingIsLongest(size, s[1..]);
      var k := |s| - |Fitting(size, s)|;
      assert s[1..][k - 1..] == s[k..];
      forall j | 0 <= j < k
        ensures Total(size, s[j..]) > MAX_BYTES
      {
        if j == 0 {
          assert s[0..] == s;
        } else {
          assert s[1..][j - 1..] == s[j..];
        }
      }
    }
  }

  lemma {:induction false} TotalOfSuffix<T>(size: T -> nat, s: seq<T>, k: nat)
    requires k <= |s|
    ensures Total(size, s[k..]) <= Total(size, s)
  {
    if k == 0 {
      assert s[0..] == s;
    } else {
      assert s[1..][k - 1..] == s[k..];
      TotalOfSuffix(size, s[1..], k - 1);
    }
  }

  // A list ending in x keeps x exactly when x alone fits.
  lemma FittingKeepsLast<T>(size: T -> nat, s: seq<T>, x: T)
    ensures size(x) <= MAX_BYTES <==> Fitting(size, s + [x]) != [] && Fitting(size, s + [x])[|Fitting(size, s + [x])| - 1] == x
    ensures size(x) > MAX_BYTES ==> Fitting(size, s + [x]) == []
  {
    var all := s + [x];
    FittingIsLongest(size, all);
    var k := |all| - |Fitting(size, all)|;
    assert all[|s|..] == [x];
    assert Total(size, [x]) == size(x);
    if k <= |s| {
      assert all[k..][|s| - k..] == [x];
      TotalOfSuffix(size, all[k..], |s| - k);
    }
  }

  function Retained(c: Codec, records: seq<RequestRecord>, now: int): seq<RequestRecord> {
    Fitting(SizeIn(c), Filter(Surviving(now), records))
  }

  lemma {:induction false} FilterKeeps<T>(keep: T -> bool, s: seq<T>)
    ensures |Filter(keep, s)| <= |s|
    ensures forall x :: x in Filter(keep, s) <==> x in s && keep(x)
    ensures |Filter(keep, s)| == |s| ==> Filter(keep, s) == s
  {
    if s != [] {
      FilterKeeps(keep, s[..|s| - 1]);
      assert s == s[..|s| - 1] + [s[|s| - 1]];
    }
  }

  lemma {:induction false} FilterInOrder<T>(keep: T -> bool, a: seq<T>, b: seq<T>)
    ensures Filter(keep, a + b) == Filter(keep, a) + Filter(keep, b)
  {
    if b == [] {
      assert a + b == a;
    } else {
      FilterInOrder(keep, a, b[..|b| - 1]);
      assert (a + b)[..|a + b| - 1] == a + b[..|b| - 1];
    }
  }

  // A record expires thirty days, in nanoseconds, after it was completed or, when that is not known, started. One without
  // any time never does.
  lemma ExpiresExactly(r: RequestRecord, now: int)
    ensures !Survives(now, r) <==>
      || (r.completedAt != 0 && now - r.completedAt > 30 * 86_400_000_000_000)
      || (r.completedAt == 0 && r.startedAt != 0 && now - r.startedAt > 30 * 86_400_000_000_000)
  {
  }

  // The check on append admits a record of exactly MAX_BYTES, but its line is one byte longer: that record is not
  // kept, and it pushes out every other record.
  lemma AppendedIsKept(c: Codec, records: seq<RequestRecord>, r: RequestRecord, now: int)
    requires c.encode(r).Some? && Survives(now, r)
    ensures var kept := Retained(c, records + [r], now);
      if |c.encode(r).value| < MAX_BYTES then kept != [] && kept[|kept| - 1] == r else kept == []
  {
    var keep := Surviving(now);
    assert (records + [r])[..|records|] == records;
    FittingKeepsLast(SizeIn(c), Filter(keep, records), r);
  }

  // ----- the store

  // What every operation keeps: normal records whose printed form fits the budget.
  ghost predicate Good(c: Codec, records: seq<RequestRecord>) {
    (forall r :: r in records ==> Normal(r)) && |Encoded(c.encode, records)| <= MAX_BYTES
  }

  lemma AppendedIsGood(c: Codec, records: seq<RequestRecord>, r: RequestRecord, now: int)
    requires Good(c, records) && Normal(r)
    ensures Good(c, Retained(c, records + [r], now))
  {
    RetainedFacts(c, records + [r], now);
  }

  datatype AppendError = Closed | NotEncodable | TooLarge | PersistFailed

  class Store {
    const codec: Codec
    const durable: bool
    var buffer: array<RequestRecord>
    var length: nat
    var closed: bool
    var disk: Option<string>

    ghost predicate Valid()
      reads this, buffer
    {
      length <= buffer.Length && Good(codec, Records())
    }

    function Records(): seq<RequestRecord>
      reads this, buffer
    {
      if length <= buffer.Length then buffer[..length] else []
    }

    constructor (codec: Codec, durable: bool, disk: Option<string>, records: seq<RequestRecord>)
      ensures this.codec == codec && this.durable == durable && this.disk == disk && !closed
      ensures Records() == records && fresh(buffer) && length == buffer.Length
    {
      this.codec, this.durable, this.disk := codec, durable, disk;
      closed, length := false, |records|;
      buffer := new RequestRecord[|records|](i requires 0 <= i < |records| => records[i]);
    }

    // Fails on a malformed log, and when the pruned log cannot be written back.
    static method Open(codec: Codec, durable: bool, disk: Option<string>, now: int) returns (r: Option<Store>)
      requires codec.NamesRecords()
      ensures r.None? ==> durable && disk.Some?
      ensures r.Some? ==> fresh(r.value) && fresh(r.value.buffer) && r.value.Valid() && r.value.codec == codec
      ensures r.Some? && (!durable || disk.None?) ==> r.value.Records() == []
      ensures r.Some? && durable && disk.Some? ==>
        && Decoded(codec.Parse, disk.value).Some?
        && r.value.Records() == Retained(codec, Decoded(codec.Parse, disk.value).value, now)
    {
      if !durable || disk.None? {
        var s := new Store(codec, durable, disk, []);
        return Some(s);
      }
      var records := DecodeJSONL(codec.Parse, disk.value);
      if records.None? {
        return None;
      }
      DecodedAreNormal(codec, disk.value);
      RetainedFacts(codec, records.value, now);
      r := Load(codec, disk, records.value, now);
    }

    static method Load(codec: Codec, disk: Option<string>, records: seq<RequestRecord>, now: int) returns (r: Option<Store>)
      ensures r.Some? ==> fresh(r.value) && fresh(r.value.buffer) && r.value.codec == codec
      ensures r.Some? ==> r.value.length <= r.value.buffer.Length && r.value.Records() == Retained(codec, records, now)
    {
      var s := new Store(codec, true, disk, records);
      var changed := s.PruneLocked(now);
      if changed {
        var ok := s.PersistLocked();
        if !ok {
          return None;
        }
      }
      r := Some(s);
    }

    // Drops the records past their age by compacting the buffer into its own prefix.
    method DropExpired(now: int) returns (changed: bool)
      requires length <= buffer.Length
      modifies `length, buffer
      ensures length <= old(length)
      ensures Records() == Filter(Surviving(now), old(Records()))
      ensures changed <==> length != old(length)
    {
      var keep := Surviving(now);
      ghost var was := buffer[..];
      changed := false;
      var kept := 0;
      for i := 0 to length
        invariant length == old(length) && kept <= i
        invariant changed <==> kept != i
        invariant forall k :: i <= k < length ==> buffer[k] == was[k]
        invariant buffer[..kept] == Filter(keep, was[..i])
      {
        assert was[..i + 1][..i] == was[..i];
        if Survives(now, buffer[i]) {
          buffer[kept] := buffer[i];
          kept := kept + 1;
        } else {
          changed := true;
        }
      }
      assert was[..length] == old(Records());
      length := kept;
    }

    method Sizes() returns (sizes: array<nat>, total: nat)
      requires length <= buffer.Length
      ensures fresh(sizes) && sizes.Length == length
      ensures forall i :: 0 <= i < length ==> sizes[i] == SizeIn(codec)(Records()[i])
      ensures total == Total(SizeIn(codec), Records())
    {
      ghost var size := SizeIn(codec);
      sizes, total := new nat[length](_ => 0), 0;
      for i := 0 to length
        invariant forall k :: 0 <= k < i ==> sizes[k] == size(buffer[k])
        invariant forall k :: i <= k < length ==> sizes[k] == 0
        invariant total == Total(size, buffer[..i])
      {
        assert buffer[..i + 1] == buffer[..i] + [buffer[i]];
        TotalAppend(size, buffer[..i], buffer[i]);
        var line := codec.encode(buffer[i]);
        if line.Some? {
          sizes[i] := |line.value| + 1;
          total := total + sizes[i];
        }
      }
    }

    // How many of the oldest records the budget has no room for.
    method CountOversize() returns (drop: nat)
      requires length <= buffer.Length
      ensures drop <= length && Fitting(SizeIn(codec), Records()) == Records()[drop..]
    {
      ghost var size, records := SizeIn(codec), Records();
      var sizes, total := Sizes();
      assert records[0..] == records;
      drop := 0;
      while drop < length && total > MAX_BYTES
        invariant drop <= length && Records() == records
        invariant total == Total(size, records[drop..])
        invariant Fitting(size, records) == Fitting(size, records[drop..])
      {
        assert records[drop..][1..] == records[drop + 1..];
        total := total - sizes[drop];
        drop := drop + 1;
      }
    }

    method CopyFrom(first: nat) returns (rest: array<RequestRecord>)
      requires first <= length <= buffer.Length
      ensures fresh(rest) && rest[..] == Records()[first..]
    {
      rest := new RequestRecord[length - first](i requires 0 <= i < length - first reads this, buffer
        requires length <= buffer.Length => buffer[first + i]);
    }

    method PruneLocked(now: int) returns (changed: bool)
      requires length <= buffer.Length
      modifies `length, `buffer, buffer
      ensures length <= buffer.Length && (buffer == old(buffer) || fresh(buffer))
      ensures Records() == Retained(codec, old(Records()), now)
      ensures changed <==> Records() != old(Records())
    {
      FilterKeeps(Surviving(now), Records());
      changed := DropExpired(now);
      var drop := CountOversize();
      if drop > 0 {
        var rest := CopyFrom(drop);
        buffer, length := rest, rest.Length;
        changed := true;
      }
    }

    method EncodedLocked() returns (out: string)
      requires length <= buffer.Length
      ensures out == Encoded(codec.encode, Records())
    {
      out := "";
      for i := 0 to length
        invariant out == Encoded(codec.encode, buffer[..i])
      {
        assert buffer[..i + 1] == buffer[..i] + [buffer[i]];
        EncodedAppend(codec.encode, buffer[..i], buffer[i]);
        var line := codec.encode(buffer[i]);
        if line.Some? {
          out := out + line.value + "\n";
        }
      }
    }

    // Replaces the file by way of a temporary one. Any step may fail; the log is then the old one, the new one or,
    // if even putting the old one back fails, absent.
    method PersistLocked() returns (ok: bool)
      requires length <= buffer.Length
      modifies `disk
      ensures !durable ==> ok && disk == old(disk)
      ensures durable && ok ==> disk == Some(Encoded(codec.encode, Records()))
      ensures disk in {old(disk), Some(Encoded(codec.encode, Records())), None}
    {
      if !durable {
        return true;
      }
      var data := EncodedLocked();
      var written: bool := *;
      if !written {
        return false;
      }
      var renamed: bool := *;
      if !renamed {
        var setAside: bool := *;
        if disk.None? || !setAside {
          return false;
        }
        var backup := disk;
        disk := None;
        renamed := *;
        if !renamed {
          var restored: bool := *;
          if restored {
            disk := backup;
          }
          return false;
        }
      }
      disk := Some(data);
      ok := *;
    }

    // Go's append: in place when the capacity allows, else into a larger array.
    method Push(r: RequestRecord)
      requires length <= buffer.Length
      modifies `length, `buffer, buffer
      ensures length <= buffer.Length && (buffer == old(buffer) || fresh(buffer))
      ensures Records() == old(Records()) + [r]
    {
      if length == buffer.Length {
        var larger := new RequestRecord[2 * length + 1](i reads this, buffer => if 0 <= i < buffer.Length then buffer[i] else r);
        assert larger[..length] == buffer[..length];
        buffer := larger;
      }
      buffer[length] := r;
      length := length + 1;
    }

    method AddAndPersist(r: RequestRecord, now: int) returns (ok: bool)
      requires length <= buffer.Length
      modifies `length, `buffer, `disk, buffer
      ensures length <= buffer.Length && (buffer == old(buffer) || fresh(buffer))
      ensures Records() == if ok then Retained(codec, old(Records()) + [r], now) else old(Records())
      ensures ok && durable ==> disk == Some(Encoded(codec.encode, Records()))
    {
      var previous := CopyFrom(0);
      Push(r);
      var _ := PruneLocked(now);
      ok := PersistLocked();
      if !ok {
        buffer, length := previous, previous.Length;
      }
    }

    method AppendNormal(r: RequestRecord, now: int) returns (error: Option<AppendError>)
      requires Valid() && Normal(r)
      modifies `length, `buffer, `disk, buffer
      ensures Valid() && (buffer == old(buffer) || fresh(buffer))
      ensures codec.encode(r).None? <==> error == Some(NotEncodable)
      ensures SizeIn(codec)(r) > MAX_BYTES + 1 <==> error == Some(TooLarge)
      ensures error.Some? ==> Records() == old(Records()) && error.value != Closed
      ensures error.Some? && error.value != PersistFailed ==> disk == old(disk)
      ensures error.None? ==> Records() == Retained(codec, old(Records()) + [r], now)
      ensures error.None? && durable ==> disk == Some(Encoded(codec.encode, Records()))
    {
      var encoded := codec.encode(r);
      if encoded.None? {
        return Some(NotEncodable);
      }
      if |encoded.value| > MAX_BYTES {
        return Some(TooLarge);
      }
      AppendedIsGood(codec, Records(), r, now);
      var ok := AddAndPersist(r, now);
      error := if ok then None else Some(PersistFailed);
    }

    // A failed append leaves the list exactly as it was, although pruning has overwritten its array.
    method Append(record: RequestRecord, now: int, newID: string) returns (error: Option<AppendError>)
      requires Valid() && newID != ""
      modifies `length, `buffer, `disk, buffer
      ensures Valid() && (buffer == old(buffer) || fresh(buffer))
      ensures error == Some(Closed) <==> closed
      ensures !closed ==> (codec.encode(Normalize(record, newID, now)).None? <==> error == Some(NotEncodable))
      ensures !closed ==> (SizeIn(codec)(Normalize(record, newID, now)) > MAX_BYTES + 1 <==> error == Some(TooLarge))
      ensures error.Some? ==> Records() == old(Records())
      ensures error.Some? && error.value != PersistFailed ==> disk == old(disk)
      ensures error.None? ==> Records() == Retained(codec, old(Records()) + [Normalize(record, newID, now)], now)
      ensures error.None? && durable ==> disk == Some(Encoded(codec.encode, Records()))
    {
      if closed {
        return Some(Closed);
      }
      var r := NormalizeRecord(record, newID, now);
      NormalizeIsNormal(record, newID, now);
      error := AppendNormal(r, now);
    }

    // A zero time stands for the current one.
    method Prune(now: int, clock: int) returns (ok: bool)
      requires Valid()
      modifies `length, `buffer, `disk, buffer
      ensures Valid() && (buffer == old(buffer) || fresh(buffer))
      ensures Records() ==
        if closed then old(Records()) else Retained(codec, old(Records()), if now == 0 then clock else now)
      ensures ok ==> !closed && (durable && Records() != old(Records()) ==> disk == Some(Encoded(codec.encode, Records())))
    {
      if closed {
        return false;
      }
      var at := if now == 0 then clock else now;
      RetainedFacts(codec, Records(), at);
      var changed := PruneLocked(at);
      ok := true;
      if changed {
        ok := PersistLocked();
      }
    }

    method Close()
      requires Valid()
      modifies `closed
      ensures Valid() && closed
    {
      closed := true;
    }
  }

  lemma {:induction false} EncodedAppend<T>(encode: T -> Option<string>, s: seq<T>, x: T)
    ensures Encoded(encode, s + [x]) == Encoded(encode, s) + if encode(x).Some? then encode(x).value + "\n" else []
  {
    if s != [] {
      assert (s + [x])[1..] == s[1..] + [x];
      EncodedAppend(encode, s[1..], x);
    }
  }

  lemma RetainedFacts(c: Codec, records: seq<RequestRecord>, now: int)
    ensures |Encoded(c.encode, Retained(c, records, now))| <= MAX_BYTES
    ensures forall r :: r in Retained(c, records, now) ==> r in records && Survives(now, r)
  {
    var kept := Filter(Surviving(now), records);
    FilterKeeps(Surviving(now), records);
    FittingIsLongest(SizeIn(c), kept);
    EncodedLength(c, Fitting(SizeIn(c), kept));
    SuffixIsContained(kept, Fitting(SizeIn(c), kept));
  }

  lemma SuffixIsContained<T>(s: seq<T>, suffix: seq<T>)
    requires |suffix| <= |s| && suffix == s[|s| - |suffix|..]
    ensures forall x :: x in suffix ==> x in s
  {
  }

  lemma DecodedAreNormal(c: Codec, data: string)
    requires c.NamesRecords()
    ensures Decoded(c.Parse, data).Some? ==> forall r :: r in Decoded(c.Parse, data).value ==> Normal(r)
    decreases |data|
  {
    if data != [] {
      var end := LineEnd(data);
      var line := Strings.TrimSpace(data[..end]);
      DecodedAreNormal(c, if end < |data| then data[end + 1..] else []);
      if c.decode(line).Some? {
        NormalizeIsNormal(c.decode(line).value, c.newID(|data|), 0);
      }
    }
  }

  // A store that is reopened on what its last successful append wrote has the same records, when all of them encode
  // and none has aged or outgrown the budget in between.
  lemma ReopenedIsTheSame(c: Codec, records: seq<RequestRecord>, now: int)
    requires forall r :: r in records ==> Normal(r) && c.RoundTrips(r) && c.encode(r).Some? && Survives(now, r)
    requires Total(SizeIn(c), records) <= MAX_BYTES
    ensures Decoded(c.Parse, Encoded(c.encode, records)) == Some(records)
    ensures Retained(c, records, now) == records
  {
    RecordsRoundTrip(c, records);
    AllKept(Surviving(now), records);
  }

  lemma {:induction false} AllKept<T>(keep: T -> bool, s: seq<T>)
    requires forall x :: x in s ==> keep(x)
    ensures Filter(keep, s) == s
  {
    if s != [] {
      var init, last := s[..|s| - 1], s[|s| - 1];
      assert last in s && forall x :: x in init ==> x in s;
      AllKept(keep, init);
      assert s == init + [last];
    }
  }
}
