/**
 * The durable usage log (internal/usage/usage.go): normalization, retention by age and size over a slice that is
 * compacted in place, and the JSONL form. A time is its instant, 0 being the zero time; text is a string of bytes.
 */
module UsageLog {
  import opened Strings
  import opened UsageRecords
  import opened Wrappers

  const MAX_BYTES := 20 * 1024 * 1024
  const MAX_AGE := 30 * 24 * 3600 * 1_000_000_000

  datatype RequestRecord = RequestRecord(id: string, startedAt: int, completedAt: int, usage: Usage, fallback: bool)

  // ----- normalization

  function NumberedFrom(attempts: seq<AttemptRecord>): (r: seq<AttemptRecord>)
    ensures |r| == |attempts|
  {
    seq(|attempts|, i requires 0 <= i < |attempts| =>
      if attempts[i].index <= 0 then attempts[i].(index := i + 1) else attempts[i])
  }

  // The tokens of the last committed attempt that reports any.
  function LastTokens(attempts: seq<AttemptRecord>): Tokens {
    if attempts == [] then NO_TOKENS
    else
      var last := attempts[|attempts| - 1];
      if last.committed && last.tokens != NO_TOKENS then last.tokens else LastTokens(attempts[..|attempts| - 1])
  }

  function Normalize(r: RequestRecord, newID: string, now: int): RequestRecord {
    var started := if r.startedAt != 0 then r.startedAt else if r.completedAt != 0 then r.completedAt else now;
    var attempts := NumberedFrom(r.usage.attempts);
    RequestRecord(
      if r.id == "" then newID else r.id,
      started,
      if r.completedAt != 0 then r.completedAt else started,
      r.usage.(attempts := attempts, tokens := if r.usage.tokens == NO_TOKENS then LastTokens(attempts) else r.usage.tokens),
      r.fallback || |attempts| > 1)
  }

  predicate NormalUsage(u: Usage) {
    && (forall i :: 0 <= i < |u.attempts| ==> u.attempts[i].index > 0)
    && (u.tokens == NO_TOKENS ==>
          forall i :: 0 <= i < |u.attempts| ==> u.attempts[i].committed ==> u.attempts[i].tokens == NO_TOKENS)
  }

  // What a stored record looks like.
  predicate Normal(r: RequestRecord) {
    && r.id != "" && (r.startedAt == 0 <==> r.completedAt == 0)
    && NormalUsage(r.usage) && (|r.usage.attempts| > 1 ==> r.fallback)
  }

  lemma {:induction false} LastTokensFacts(attempts: seq<AttemptRecord>)
    ensures LastTokens(attempts) == NO_TOKENS <==>
      forall i :: 0 <= i < |attempts| ==> attempts[i].committed ==> attempts[i].tokens == NO_TOKENS
  {
    if attempts != [] {
      LastTokensFacts(attempts[..|attempts| - 1]);
    }
  }

  lemma NormalizeIsNormal(r: RequestRecord, newID: string, now: int)
    requires newID != ""
    ensures Normal(Normalize(r, newID, now))
  {
    LastTokensFacts(NumberedFrom(r.usage.attempts));
  }

  // A normal record is left alone, except that a record without any time takes the clock's.
  lemma NormalizeIsIdentity(r: RequestRecord, newID: string, now: int)
    requires newID != ""
    ensures Normalize(r, newID, now) == r <==> Normal(r) && (r.startedAt != 0 || now == 0)
  {
    NormalizeIsNormal(r, newID, now);
    if Normal(r) {
      LastTokensFacts(r.usage.attempts);
      assert NumberedFrom(r.usage.attempts) == r.usage.attempts;
    }
  }

  // Normalization fills in what is missing and overwrites nothing.
  lemma NormalizeOnlyFills(r: RequestRecord, newID: string, now: int)
    ensures var n := Normalize(r, newID, now);
      && n.id == (if r.id != "" then r.id else newID)
      && (r.startedAt != 0 ==> n.startedAt == r.startedAt) && (r.completedAt != 0 ==> n.completedAt == r.completedAt)
      && (r.startedAt == 0 ==> n.startedAt == if r.completedAt != 0 then r.completedAt else now)
      && (r.completedAt == 0 ==> n.completedAt == n.startedAt)
      && (n.fallback <==> r.fallback || |r.usage.attempts| > 1)
      && (r.usage.tokens != NO_TOKENS ==> n.usage.tokens == r.usage.tokens)
      && n.usage == r.usage.(attempts := n.usage.attempts, tokens := n.usage.tokens) && |n.usage.attempts| == |r.usage.attempts|
      && forall i :: 0 <= i < |r.usage.attempts| ==>
           n.usage.attempts[i] == r.usage.attempts[i].(index := n.usage.attempts[i].index) &&
           n.usage.attempts[i].index == (if r.usage.attempts[i].index > 0 then r.usage.attempts[i].index else i + 1)
  {
  }

  // Missing tokens are those of the last committed attempt that has any.
  lemma {:induction false} LastTokensAre(attempts: seq<AttemptRecord>, k: nat)
    requires k < |attempts| && attempts[k].committed && attempts[k].tokens != NO_TOKENS
    requires forall i :: k < i < |attempts| ==> !attempts[i].committed || attempts[i].tokens == NO_TOKENS
    ensures LastTokens(attempts) == attempts[k].tokens
  {
    if k < |attempts| - 1 {
      LastTokensAre(attempts[..|attempts| - 1], k);
    }
  }

  // Normalizing twice is normalizing once, unless both times were zero and only the second clock was set.
  lemma NormalizeIsIdempotent(r: RequestRecord, id1: string, now1: int, id2: string, now2: int)
    requires id1 != "" && id2 != ""
    ensures Normalize(Normalize(r, id1, now1), id2, now2) == Normalize(r, id1, now1) <==>
      r.startedAt != 0 || r.completedAt != 0 || now1 != 0 || now2 == 0
  {
    NormalizeIsNormal(r, id1, now1);
    NormalizeIsIdentity(Normalize(r, id1, now1), id2, now2);
  }

  // Normalization never alters what a request's collector gathered.
  lemma CollectedIsKept(r: RequestRecord, outcomes: seq<Outcome>, newID: string, now: int)
    requires r.usage == UsageOf(outcomes)
    ensures Normalize(r, newID, now).usage == r.usage
  {
    CollectedIsNormal(outcomes);
    LastTokensFacts(r.usage.attempts);
    assert NumberedFrom(r.usage.attempts) == r.usage.attempts;
  }

  lemma {:induction false} CollectedIsNormal(outcomes: seq<Outcome>)
    ensures NormalUsage(UsageOf(outcomes))
  {
    if outcomes != [] {
      CollectedIsNormal(outcomes[..|outcomes| - 1]);
    }
  }

  method NumberAttempts(given: seq<AttemptRecord>) returns (attempts: seq<AttemptRecord>)
    ensures attempts == NumberedFrom(given)
  {
    attempts := given;
    for i := 0 to |attempts|
      invariant |attempts| == |given|
      invariant forall k :: 0 <= k < i ==> attempts[k] == NumberedFrom(given)[k]
      invariant forall k :: i <= k < |attempts| ==> attempts[k] == given[k]
    {
      if attempts[i].index <= 0 {
        attempts := attempts[i := attempts[i].(index := i + 1)];
      }
    }
  }

  method FindLastTokens(attempts: seq<AttemptRecord>) returns (tokens: Tokens)
    ensures tokens == LastTokens(attempts)
  {
    var i := |attempts| - 1;
    assert attempts[..i + 1] == attempts;
    while i >= 0
      invariant -1 <= i < |attempts|
      invariant LastTokens(attempts) == LastTokens(attempts[..i + 1])
      decreases i
    {
      assert attempts[..i + 1][..i] == attempts[..i];
      if attempts[i].committed && attempts[i].tokens != NO_TOKENS {
        return attempts[i].tokens;
      }
      i := i - 1;
    }
    tokens := NO_TOKENS;
  }

  method NormalizeRecord(r: RequestRecord, newID: string, now: int) returns (n: RequestRecord)
    ensures n == Normalize(r, newID, now)
  {
    n := r;
    if n.id == "" {
      n := n.(id := newID);
    }
    if n.startedAt == 0 {
      n := n.(startedAt := if n.completedAt == 0 then now else n.completedAt);
    }
    if n.completedAt == 0 {
      n := n.(completedAt := n.startedAt);
    }
    var attempts := NumberAttempts(n.usage.attempts);
    if |attempts| > 1 {
      n := n.(fallback := true);
    }
    var tokens := n.usage.tokens;
    if tokens == NO_TOKENS {
      tokens := FindLastTokens(attempts);
    }
    n := n.(usage := n.usage.(attempts := attempts, tokens := tokens));
  }

  // ----- the JSONL form

  // `newID` stands for the random id source, here indexed by the input that is left.
  datatype Codec = Codec(encode: RequestRecord -> Option<string>, decode: string -> Option<RequestRecord>, newID: nat -> string) {
    // What encoding/json provides for a record of valid UTF-8, when it encodes: a one-line form, without outer white
    // space, that decodes to the same record.
    predicate RoundTrips(r: RequestRecord) {
      encode(r).Some? ==> IsLine(encode(r).value) && decode(encode(r).value) == Some(r)
    }

    ghost predicate NamesRecords() {
      forall n :: newID(n) != ""
    }

    function Parse(line: string, left: nat): Option<RequestRecord> {
      if decode(line).None? then None else Some(Normalize(decode(line).value, newID(left), 0))
    }
  }

  predicate IsLine(s: string) {
    s != [] && '\n' !in s && !IsSpace(s[0]) && !IsSpace(s[|s| - 1])
  }

  // Records that do not encode are skipped.
  function Encoded<T>(encode: T -> Option<string>, records: seq<T>): string {
    if records == [] then []
    else (if encode(records[0]).Some? then encode(records[0]).value + "\n" else []) + Encoded(encode, records[1..])
  }

  function LineEnd(data: string): (n: nat)
    ensures n <= |data|
  {
    if data == [] || data[0] == '\n' then 0 else 1 + LineEnd(data[1..])
  }

  // None when a line is malformed. Blank lines are skipped.
  function Decoded<T>(parse: (string, nat) -> Option<T>, data: string): Option<seq<T>>
    decreases |data|
  {
    if data == [] then Some([])
    else
      var end := LineEnd(data);
      var line := TrimSpace(data[..end]);
      var tail := Decoded(parse, if end < |data| then data[end + 1..] else []);
      if line == [] then tail
      else if parse(line, |data|).None? || tail.None? then None
      else Some([parse(line, |data|).value] + tail.value)
  }

  function Encodable<T>(encode: T -> Option<string>, records: seq<T>): seq<T> {
    if records == [] then []
    else (if encode(records[0]).Some? then [records[0]] else []) + Encodable(encode, records[1..])
  }

  lemma {:induction false} LineEndOf(line: string, rest: string)
    requires '\n' !in line
    ensures LineEnd(line + "\n" + rest) == |line|
  {
    if line != [] {
      assert (line + "\n" + rest)[1..] == line[1..] + "\n" + rest;
      LineEndOf(line[1..], rest);
    }
  }

  lemma DecodedCons<T>(parse: (string, nat) -> Option<T>, line: string, rest: string)
    requires IsLine(line)
    ensures var data := line + "\n" + rest;
      Decoded(parse, data) ==
        if parse(line, |data|).None? || Decoded(parse, rest).None? then None
        else Some([parse(line, |data|).value] + Decoded(parse, rest).value)
  {
    var data := line + "\n" + rest;
    LineEndOf(line, rest);
    assert data[..|line|] == line && data[|line| + 1..] == rest;
    assert TrimSpace(line) == line;
  }

  // Reading back what was written gives the encodable records, in order and unchanged.
  lemma {:induction false} DecodeOfEncode<T>(encode: T -> Option<string>, parse: (string, nat) -> Option<T>, records: seq<T>)
    requires forall r :: r in records && encode(r).Some? ==> IsLine(encode(r).value)
    requires forall r, n :: r in records && encode(r).Some? ==> parse(encode(r).value, n) == Some(r)
    ensures Decoded(parse, Encoded(encode, records)) == Some(Encodable(encode, records))
  {
    if records != [] {
      DecodeOfEncode(encode, parse, records[1..]);
      if encode(records[0]).Some? {
        assert records[0] in records;
        DecodedCons(parse, encode(records[0]).value, Encoded(encode, records[1..]));
      } else {
        assert Encoded(encode, records) == Encoded(encode, records[1..]);
        assert Encodable(encode, records) == Encodable(encode, records[1..]);
      }
    }
  }

  lemma {:induction false} AllEncodable<T>(encode: T -> Option<string>, s: seq<T>)
    requires forall x :: x in s ==> encode(x).Some?
    ensures Encodable(encode, s) == s
  {
    if s != [] {
      AllEncodable(encode, s[1..]);
    }
  }

  // Normal records come back as they were, in order. One that does not encode was not written and is the only loss.
  lemma RecordsRoundTrip(c: Codec, records: seq<RequestRecord>)
    requires forall r :: r in records ==> Normal(r) && c.RoundTrips(r)
    ensures Decoded(c.Parse, Encoded(c.encode, records)) == Some(Encodable(c.encode, records))
    ensures (forall r :: r in records ==> c.encode(r).Some?) ==> Decoded(c.Parse, Encoded(c.encode, records)) == Some(records)
  {
    forall r, n: nat | r in records && c.encode(r).Some?
      ensures c.Parse(c.encode(r).value, n) == Some(r)
    {
      assert r in records && c.RoundTrips(r);
      NormalizeIsIdentity(r, r.id, 0);
    }
    DecodeOfEncode(c.encode, c.Parse, records);
    if forall r :: r in records ==> c.encode(r).Some? {
      AllEncodable(c.encode, records);
    }
  }

  method CutLine(data: string) returns (line: string, rest: string, found: bool)
    ensures var end := LineEnd(data);
      line == data[..end] && found == (end < |data|) && rest == if found then data[end + 1..] else []
  {
    var i := 0;
    while i < |data|
      invariant 0 <= i <= |data|
      invariant LineEnd(data) == i + LineEnd(data[i..])
    {
      if data[i] == '\n' {
        return data[..i], data[i + 1..], true;
      }
      i := i + 1;
    }
    return data, [], false;
  }

  function Joined<T>(head: seq<T>, tail: Option<seq<T>>): Option<seq<T>> {
    if tail.None? then None else Some(head + tail.value)
  }

  lemma JoinedToNone<T>(tail: Option<seq<T>>)
    ensures Joined([], tail) == tail
  {
    if tail.Some? {
      assert [] + tail.value == tail.value;
    }
  }

  lemma JoinedCons<T>(dst: seq<T>, x: T, tail: Option<seq<T>>)
    ensures Joined(dst, Joined([x], tail)) == Joined(dst + [x], tail)
  {
    if tail.Some? {
      assert dst + ([x] + tail.value) == (dst + [x]) + tail.value;
    }
  }

  // What one turn of the loop does to the records that are still to come.
  lemma DecodedStep<T>(parse: (string, nat) -> Option<T>, dst: seq<T>, left: string)
    requires left != []
    ensures var end := LineEnd(left); var line := TrimSpace(left[..end]);
      var rest := Decoded(parse, if end < |left| then left[end + 1..] else []);
      Joined(dst, Decoded(parse, left)) ==
        if line == [] then Joined(dst, rest)
        else if parse(line, |left|).None? then None
        else Joined(dst + [parse(line, |left|).value], rest)
  {
    var end := LineEnd(left);
    var line := TrimSpace(left[..end]);
    if line != [] && parse(line, |left|).Some? {
      JoinedCons(dst, parse(line, |left|).value, Decoded(parse, if end < |left| then left[end + 1..] else []));
    }
  }

  method DecodeJSONL<T>(parse: (string, nat) -> Option<T>, data: string) returns (records: Option<seq<T>>)
    ensures records == Decoded(parse, data)
  {
    var left, dst: seq<T> := data, [];
    JoinedToNone(Decoded(parse, data));
    while left != []
      invariant Decoded(parse, data) == Joined(dst, Decoded(parse, left))
      decreases |left|
    {
      var size := |left|;
      DecodedStep(parse, dst, left);
      var line, rest, found := CutLine(left);
      left := rest;
      line := TrimSpace(line);
      if line == [] {
        if !found {
          break;
        }
        continue;
      }
      var record := parse(line, size);
      if record.None? {
        return None;
      }
      dst := dst + [record.value];
      if !found {
        break;
      }
    }
    assert dst + [] == dst;
    records := Some(dst);
  }
}
