/** Binding a provider model to a benchmark record (internal/matcher/matcher.go). */
module Matcher {
  import opened Wrappers
  import opened ModelTypes
  import opened Sorting
  import opened Strings

  datatype MatchMethod = NoMatch | Exact | Family | Variant

  datatype Benchmark = Benchmark(sourceModelID: string, canonicalKey: string, name: string, aliases: seq<string>)

  datatype Binding = Binding(canonicalKey: string, sourceModelID: string, confidence: real, matchMethod: MatchMethod)

  const UNBOUND := Binding("", "", 0.0, NoMatch)

  // Unicode folding and the suffix patterns are parameters: nothing below depends on them.
  datatype Text = Text(normalize: string -> string, familyKey: string -> string)

  datatype Policy = Policy(exact: real, family: real, variant: real)

  // ----- names

  function NormalizedUnique(values: seq<string>, text: Text): (r: seq<string>)
    ensures "" !in r
  {
    if values == [] then []
    else
      var init, v := NormalizedUnique(values[..|values| - 1], text), text.normalize(values[|values| - 1]);
      if v == "" || v in init then init else init + [v]
  }

  function ProviderNames(pm: ProviderModel, text: Text): seq<string> {
    var segment := ModelSegment(pm.id);
    NormalizedUnique([pm.canonicalKey, pm.upstreamID, pm.displayName] + if segment.Some? then [segment.value] else [], text)
  }

  function BenchmarkNames(b: Benchmark, text: Text): seq<string> {
    NormalizedUnique([b.canonicalKey, b.name] + b.aliases, text)
  }

  function Split(s: string): (r: seq<string>)
    ensures r != []
  {
    if s == [] then [""]
    else
      var rest := Split(s[1..]);
      if s[0] == '-' then [""] + rest else [[s[0]] + rest[0]] + rest[1..]
  }

  // One name is the other with further tokens after at least two shared ones.
  predicate VariantMatch(left: string, right: string, text: Text) {
    var l, r := Split(text.normalize(left)), Split(text.normalize(right));
    |l| >= 2 && |r| >= 2 && |l| != |r| && (l <= r || r <= l)
  }

  function MethodOf(pm: ProviderModel, b: Benchmark, text: Text): MatchMethod {
    var ps, bs := ProviderNames(pm, text), BenchmarkNames(b, text);
    if (pm.canonicalKey != "" && b.canonicalKey != "" && text.normalize(pm.canonicalKey) == text.normalize(b.canonicalKey))
       || (exists l :: l in ps && l in bs) then Exact
    else if exists l, r :: l in ps && r in bs && text.familyKey(l) == text.familyKey(r) then Family
    else if exists l, r :: l in ps && r in bs && VariantMatch(l, r, text) then Variant
    else NoMatch
  }

  function Rank(m: MatchMethod): int {
    match m
    case Exact => 3
    case Family => 2
    case Variant => 1
    case NoMatch => -1
  }

  function FirstFamilyKey(names: seq<string>, text: Text): string {
    if names == [] then ""
    else if text.familyKey(names[0]) != "" then text.familyKey(names[0])
    else FirstFamilyKey(names[1..], text)
  }

  function BindingKey(pm: ProviderModel, b: Benchmark, text: Text): string {
    if pm.canonicalKey != "" then pm.canonicalKey
    else if b.canonicalKey != "" then b.canonicalKey
    else FirstFamilyKey(ProviderNames(pm, text), text)
  }

  function Confidence(m: MatchMethod, policy: Policy): real {
    var value := match m {
      case Exact => policy.exact
      case Family => policy.family
      case Variant => policy.variant
      case NoMatch => 0.0
    };
    if value < 0.0 then 0.0 else if value > 1.0 then 1.0 else value
  }

  function BindingOf(pm: ProviderModel, b: Benchmark, text: Text, policy: Policy): Binding {
    var m := MethodOf(pm, b, text);
    Binding(BindingKey(pm, b, text), b.sourceModelID, Confidence(m, policy), m)
  }

  // ----- what the methods mean

  lemma {:induction false} NormalizedUniqueContains(values: seq<string>, text: Text, n: string)
    ensures n in NormalizedUnique(values, text) <==> n != "" && exists v :: v in values && text.normalize(v) == n
  {
    if values != [] {
      NormalizedUniqueContains(values[..|values| - 1], text, n);
      assert values == values[..|values| - 1] + [values[|values| - 1]];
    }
  }

  // The names a model and a record go by, in normal form.
  predicate IsNameOf(pm: ProviderModel, text: Text, n: string) {
    n != "" && (n in {text.normalize(pm.canonicalKey), text.normalize(pm.upstreamID), text.normalize(pm.displayName)}
                || (ModelSegment(pm.id).Some? && n == text.normalize(ModelSegment(pm.id).value)))
  }

  predicate IsRecordName(b: Benchmark, text: Text, n: string) {
    n != "" && (n in {text.normalize(b.canonicalKey), text.normalize(b.name)} || exists a :: a in b.aliases && n == text.normalize(a))
  }

  lemma NamesAre(pm: ProviderModel, b: Benchmark, text: Text, n: string)
    ensures n in ProviderNames(pm, text) <==> IsNameOf(pm, text, n)
    ensures n in BenchmarkNames(b, text) <==> IsRecordName(b, text, n)
  {
    var segment := ModelSegment(pm.id);
    NormalizedUniqueContains([pm.canonicalKey, pm.upstreamID, pm.displayName] + if segment.Some? then [segment.value] else [], text, n);
    NormalizedUniqueContains([b.canonicalKey, b.name] + b.aliases, text, n);
  }

  // Both sides state a canonical key, and it is the same one.
  predicate SameKey(pm: ProviderModel, b: Benchmark, text: Text) {
    pm.canonicalKey != "" && b.canonicalKey != "" && text.normalize(pm.canonicalKey) == text.normalize(b.canonicalKey)
  }

  // The longer name is the shorter one, of two tokens or more, with further tokens.
  predicate IsVariantOf(short: string, long: string) {
    '-' in short && short + "-" <= long
  }

  ghost predicate SharesName(pm: ProviderModel, b: Benchmark, text: Text) {
    exists n :: IsNameOf(pm, text, n) && IsRecordName(b, text, n)
  }

  ghost predicate SharesFamily(pm: ProviderModel, b: Benchmark, text: Text) {
    exists l, r :: IsNameOf(pm, text, l) && IsRecordName(b, text, r) && text.familyKey(l) == text.familyKey(r)
  }

  predicate AreVariants(a: string, b: string) {
    IsVariantOf(a, b) || IsVariantOf(b, a)
  }

  ghost predicate HasVariant(pm: ProviderModel, b: Benchmark, text: Text) {
    exists l, r :: IsNameOf(pm, text, l) && IsRecordName(b, text, r) && AreVariants(text.normalize(l), text.normalize(r))
  }

  // A shared name is better than a shared family, and that is better than a variant; without any of them nothing matches.
  lemma MethodIsBest(pm: ProviderModel, b: Benchmark, text: Text)
    ensures MethodOf(pm, b, text) ==
      if SameKey(pm, b, text) || SharesName(pm, b, text) then Exact
      else if SharesFamily(pm, b, text) then Family
      else if HasVariant(pm, b, text) then Variant
      else NoMatch
  {
    SharedNames(pm, b, text);
    SharedFamilies(pm, b, text);
    SharedVariants(pm, b, text);
  }

  lemma SharedNames(pm: ProviderModel, b: Benchmark, text: Text)
    ensures SharesName(pm, b, text) <==> exists l :: l in ProviderNames(pm, text) && l in BenchmarkNames(b, text)
  {
    AllNamesAre(pm, b, text);
  }

  lemma SharedFamilies(pm: ProviderModel, b: Benchmark, text: Text)
    ensures SharesFamily(pm, b, text) <==>
      exists l, r :: l in ProviderNames(pm, text) && r in BenchmarkNames(b, text) && text.familyKey(l) == text.familyKey(r)
  {
    AllNamesAre(pm, b, text);
  }

  lemma SharedVariants(pm: ProviderModel, b: Benchmark, text: Text)
    ensures HasVariant(pm, b, text) <==>
      exists l, r :: l in ProviderNames(pm, text) && r in BenchmarkNames(b, text) && VariantMatch(l, r, text)
  {
    AllNamesAre(pm, b, text);
    forall l, r | l in ProviderNames(pm, text) && r in BenchmarkNames(b, text)
      ensures VariantMatch(l, r, text) <==> AreVariants(text.normalize(l), text.normalize(r))
    {
      VariantsAre(text, l, r);
    }
  }

  lemma AllNamesAre(pm: ProviderModel, b: Benchmark, text: Text)
    ensures forall n :: n in ProviderNames(pm, text) <==> IsNameOf(pm, text, n)
    ensures forall n :: n in BenchmarkNames(b, text) <==> IsRecordName(b, text, n)
  {
    forall n
      ensures n in ProviderNames(pm, text) <==> IsNameOf(pm, text, n)
      ensures n in BenchmarkNames(b, text) <==> IsRecordName(b, text, n)
    {
      NamesAre(pm, b, text, n);
    }
  }

  lemma VariantsAre(text: Text, l: string, r: string)
    ensures VariantMatch(l, r, text) <==> AreVariants(text.normalize(l), text.normalize(r))
  {
    TokensExtend(text.normalize(l), text.normalize(r));
    TokensExtend(text.normalize(r), text.normalize(l));
  }

  lemma RanksAreOrdered()
    ensures Rank(Exact) > Rank(Family) > Rank(Variant) >= 0 > Rank(NoMatch)
  {
  }

  // A binding takes the model's own key where it has one, and its confidence is the method's.
  lemma BindingIs(pm: ProviderModel, b: Benchmark, text: Text, policy: Policy)
    requires 0.0 <= policy.exact <= 1.0 && 0.0 <= policy.family <= 1.0 && 0.0 <= policy.variant <= 1.0
    ensures var r := BindingOf(pm, b, text, policy);
      && r.sourceModelID == b.sourceModelID && r.matchMethod == MethodOf(pm, b, text)
      && (pm.canonicalKey != "" ==> r.canonicalKey == pm.canonicalKey)
      && (pm.canonicalKey == "" && b.canonicalKey != "" ==> r.canonicalKey == b.canonicalKey)
      && (r.matchMethod == Exact ==> r.confidence == policy.exact) && (r.matchMethod == Family ==> r.confidence == policy.family)
      && (r.matchMethod == Variant ==> r.confidence == policy.variant) && (r.matchMethod == NoMatch ==> r.confidence == 0.0)
  {
  }

  // ----- tokens

  function Join(tokens: seq<string>): string
    requires tokens != []
  {
    if |tokens| == 1 then tokens[0] else tokens[0] + "-" + Join(tokens[1..])
  }

  lemma {:induction false} JoinOfSplit(s: string)
    ensures Join(Split(s)) == s
    ensures |Split(s)| >= 2 <==> '-' in s
  {
    if s != "" {
      var rest := Split(s[1..]);
      JoinOfSplit(s[1..]);
      if s[0] == '-' {
        assert ([""] + rest)[1..] == rest;
        assert "" + "-" + s[1..] == s;
      } else {
        var tokens := [[s[0]] + rest[0]] + rest[1..];
        assert |rest| > 1 ==> tokens[1..] == rest[1..];
        assert s == [s[0]] + s[1..];
      }
    }
  }

  lemma {:induction false} JoinOfBoth(a: seq<string>, b: seq<string>)
    requires a != [] && b != []
    ensures Join(a + b) == Join(a) + "-" + Join(b)
  {
    if |a| == 1 {
      assert (a + b)[1..] == b;
    } else {
      JoinOfBoth(a[1..], b);
      assert (a + b)[1..] == a[1..] + b;
    }
  }

  lemma {:induction false} SplitOfBoth(a: string, b: string)
    ensures Split(a + "-" + b) == Split(a) + Split(b)
  {
    if a == "" {
      assert (a + "-" + b)[1..] == b;
    } else {
      SplitOfBoth(a[1..], b);
      assert (a + "-" + b)[1..] == a[1..] + "-" + b;
      GlueToBoth(a[0], Split(a[1..]), Split(b));
    }
  }

  lemma GlueToBoth(c: char, x: seq<string>, y: seq<string>)
    requires x != []
    ensures [[c] + (x + y)[0]] + (x + y)[1..] == [[c] + x[0]] + x[1..] + y
    ensures [""] + (x + y) == [""] + x + y
  {
  }

  lemma Rest(start: seq<string>, whole: seq<string>) returns (more: seq<string>)
    requires start < whole
    ensures more != [] && whole == start + more
  {
    more := whole[|start|..];
    assert start == whole[..|start|];
  }

  lemma TextExtends(a: string, b: string)
    requires Split(a) < Split(b)
    ensures a + "-" <= b
  {
    JoinOfSplit(a);
    JoinOfSplit(b);
    var more := Rest(Split(a), Split(b));
    JoinOfBoth(Split(a), more);
    var rest := Join(more);
    assert b == a + "-" + rest;
  }

  lemma SplitExtends(a: string, b: string)
    requires a + "-" <= b
    ensures Split(a) < Split(b)
  {
    var rest := b[|a| + 1..];
    assert b == a + "-" + rest;
    SplitOfBoth(a, rest);
  }

  lemma TokensExtend(a: string, b: string)
    ensures |Split(a)| >= 2 && Split(a) < Split(b) <==> IsVariantOf(a, b)
  {
    JoinOfSplit(a);
    if Split(a) < Split(b) {
      TextExtends(a, b);
    }
    if a + "-" <= b {
      SplitExtends(a, b);
    }
  }

  // ----- what the loops look for

  type Strength = Benchmark -> int

  // The rank of a record, or -1 when its id is blank or nothing matches.
  function StrengthFor(pm: ProviderModel, text: Text): Strength {
    (b: Benchmark) => if TrimSpace(b.sourceModelID) == "" then -1 else Rank(MethodOf(pm, b, text))
  }

  function BinderFor(pm: ProviderModel, text: Text, policy: Policy): Benchmark -> Binding {
    (b: Benchmark) => BindingOf(pm, b, text, policy)
  }

  // A record matches when it has an id and any method applies, and a better method makes it stronger.
  lemma StrengthIs(pm: ProviderModel, text: Text, b: Benchmark)
    ensures StrengthFor(pm, text)(b) >= 0 <==> TrimSpace(b.sourceModelID) != "" && MethodOf(pm, b, text) != NoMatch
    ensures TrimSpace(b.sourceModelID) != "" ==> StrengthFor(pm, text)(b) == Rank(MethodOf(pm, b, text))
    ensures StrengthFor(pm, text)(b) >= -1
  {
  }

  // A matching record of maximal rank.
  ghost predicate IsTop(strength: Strength, benchmarks: seq<Benchmark>, b: Benchmark) {
    b in benchmarks && strength(b) >= 0 && forall c :: c in benchmarks ==> strength(c) <= strength(b)
  }

  // The verdict, by what the list contains rather than how it is ordered.
  ghost predicate HasUniqueTop(strength: Strength, benchmarks: seq<Benchmark>) {
    && (exists b :: IsTop(strength, benchmarks, b))
    && (forall b, c :: IsTop(strength, benchmarks, b) && IsTop(strength, benchmarks, c) ==> b.sourceModelID == c.sourceModelID)
  }

  ghost predicate IsFirstTop(strength: Strength, benchmarks: seq<Benchmark>, i: nat) {
    && i < |benchmarks| && IsTop(strength, benchmarks, benchmarks[i])
    && forall j :: 0 <= j < i ==> !IsTop(strength, benchmarks, benchmarks[j])
  }

  // The first record of the least source id among the top records.
  ghost predicate IsLeastTop(strength: Strength, benchmarks: seq<Benchmark>, i: nat) {
    && i < |benchmarks| && IsTop(strength, benchmarks, benchmarks[i])
    && (forall c :: IsTop(strength, benchmarks, c) ==> !StringLess(c.sourceModelID, benchmarks[i].sourceModelID))
    && (forall j :: 0 <= j < i && IsTop(strength, benchmarks, benchmarks[j])
          ==> benchmarks[j].sourceModelID != benchmarks[i].sourceModelID)
  }

  ghost predicate IsUniqueResult(
      strength: Strength, bind: Benchmark -> Binding, benchmarks: seq<Benchmark>, best: Binding, unique: bool)
  {
    && (unique <==> HasUniqueTop(strength, benchmarks))
    && if exists b :: IsTop(strength, benchmarks, b)
       then exists i: nat :: IsFirstTop(strength, benchmarks, i) && best == bind(benchmarks[i])
       else best == UNBOUND
  }

  ghost predicate IsMatchResult(strength: Strength, bind: Benchmark -> Binding, benchmarks: seq<Benchmark>, best: Binding) {
    if exists b :: IsTop(strength, benchmarks, b)
    then exists i: nat :: IsLeastTop(strength, benchmarks, i) && best == bind(benchmarks[i])
    else best == UNBOUND
  }

  // ----- the loops

  // Scanned so far: nothing matches, or bestRank is the maximal rank and `holder` the index of a record of that rank.
  ghost predicate Scanned(strength: Strength, seen: seq<Benchmark>, bestRank: int, holder: nat) {
    && bestRank >= -1
    && (forall b :: b in seen ==> strength(b) <= bestRank)
    && (bestRank >= 0 ==> holder < |seen| && strength(seen[holder]) == bestRank)
  }

  lemma ScannedTops(strength: Strength, seen: seq<Benchmark>, bestRank: int, holder: nat)
    requires Scanned(strength, seen, bestRank, holder)
    ensures forall b :: IsTop(strength, seen, b) <==> bestRank >= 0 && b in seen && strength(b) == bestRank
  {
    if bestRank >= 0 {
      assert seen[holder] in seen;
    }
  }

  // `best` was made from the first record of maximal rank seen so far, and `ambiguous` tells whether another record
  // of that rank, `rival`, has a different id.
  ghost predicate LeadsUnique(
      strength: Strength, bind: Benchmark -> Binding, seen: seq<Benchmark>, best: Binding, bestRank: int, ambiguous: bool,
      first: nat, rival: nat)
  {
    && Scanned(strength, seen, bestRank, first)
    && (bestRank < 0 ==> best == UNBOUND && !ambiguous)
    && (bestRank >= 0 ==>
      && best == bind(seen[first])
      && (forall j :: 0 <= j < first ==> strength(seen[j]) < bestRank)
      && if ambiguous
         then rival < |seen| && strength(seen[rival]) == bestRank && seen[rival].sourceModelID != seen[first].sourceModelID
         else OneID(strength, seen, bestRank, seen[first].sourceModelID))
  }

  ghost predicate OneID(strength: Strength, seen: seq<Benchmark>, rank: int, id: string) {
    forall b :: b in seen && strength(b) == rank ==> b.sourceModelID == id
  }

  lemma LeadsUniqueStays(
      strength: Strength, bind: Benchmark -> Binding, seen: seq<Benchmark>, best: Binding, bestRank: int, ambiguous: bool,
      first: nat, rival: nat, b: Benchmark)
    requires LeadsUnique(strength, bind, seen, best, bestRank, ambiguous, first, rival)
    requires strength(b) < bestRank || strength(b) == bestRank == -1
      || (strength(b) == bestRank && b.sourceModelID == seen[first].sourceModelID)
    ensures LeadsUnique(strength, bind, seen + [b], best, bestRank, ambiguous, first, rival)
  {
  }

  lemma LeadsUniqueChanges(
      strength: Strength, bind: Benchmark -> Binding, seen: seq<Benchmark>, best: Binding, bestRank: int, ambiguous: bool,
      first: nat, rival: nat, b: Benchmark)
    requires LeadsUnique(strength, bind, seen, best, bestRank, ambiguous, first, rival) && strength(b) >= 0
    ensures strength(b) > bestRank ==> LeadsUnique(strength, bind, seen + [b], bind(b), strength(b), false, |seen|, rival)
    ensures strength(b) == bestRank && b.sourceModelID != seen[first].sourceModelID ==>
      LeadsUnique(strength, bind, seen + [b], best, bestRank, true, first, |seen|)
  {
  }

  lemma LeadsUniqueIsResult(
      strength: Strength, bind: Benchmark -> Binding, seen: seq<Benchmark>, best: Binding, bestRank: int, ambiguous: bool,
      first: nat, rival: nat)
    requires LeadsUnique(strength, bind, seen, best, bestRank, ambiguous, first, rival)
    ensures IsUniqueResult(strength, bind, seen, best, bestRank >= 0 && !ambiguous)
  {
    ScannedTops(strength, seen, bestRank, first);
    if bestRank >= 0 {
      assert IsTop(strength, seen, seen[first]);
      assert IsFirstTop(strength, seen, first);
      if ambiguous {
        assert IsTop(strength, seen, seen[rival]);
      }
    }
  }

  method ScanUnique(strength: Strength, bind: Benchmark -> Binding, benchmarks: seq<Benchmark>)
    returns (best: Binding, unique: bool)
    requires forall b :: bind(b).sourceModelID == b.sourceModelID
    ensures IsUniqueResult(strength, bind, benchmarks, best, unique)
  {
    best := UNBOUND;
    var bestRank, ambiguous := -1, false;
    ghost var first, rival := 0, 0;
    for i := 0 to |benchmarks|
      invariant LeadsUnique(strength, bind, benchmarks[..i], best, bestRank, ambiguous, first, rival)
    {
      var b := benchmarks[i];
      ghost var seen := benchmarks[..i];
      assert benchmarks[..i + 1] == seen + [b];
      var rank := strength(b);
      if rank < 0 || rank < bestRank {
        LeadsUniqueStays(strength, bind, seen, best, bestRank, ambiguous, first, rival, b);
        continue;
      }
      var binding := bind(b);
      LeadsUniqueChanges(strength, bind, seen, best, bestRank, ambiguous, first, rival, b);
      if rank > bestRank {
        best, bestRank, ambiguous := binding, rank, false;
        first := i;
        continue;
      }
      if binding.sourceModelID != best.sourceModelID {
        ambiguous := true;
        rival := i;
      } else {
        LeadsUniqueStays(strength, bind, seen, best, bestRank, ambiguous, first, rival, b);
      }
    }
    assert benchmarks[..|benchmarks|] == benchmarks;
    LeadsUniqueIsResult(strength, bind, benchmarks, best, bestRank, ambiguous, first, rival);
    unique := bestRank >= 0 && !ambiguous;
  }

  method MatchUnique(pm: ProviderModel, benchmarks: seq<Benchmark>, text: Text, policy: Policy)
    returns (best: Binding, unique: bool)
    ensures IsUniqueResult(StrengthFor(pm, text), BinderFor(pm, text, policy), benchmarks, best, unique)
  {
    best, unique := ScanUnique(StrengthFor(pm, text), BinderFor(pm, text, policy), benchmarks);
  }

  predicate BetterTie(candidate: Binding, current: Binding) {
    if current.matchMethod.NoMatch? then true
    else if candidate.confidence != current.confidence then candidate.confidence > current.confidence
    else StringLess(candidate.sourceModelID, current.sourceModelID)
  }

  // Records of one rank were matched by one method, so only their ids can break the tie.
  lemma TiesAreBrokenById(pm: ProviderModel, text: Text, policy: Policy, b: Benchmark, c: Benchmark)
    requires StrengthFor(pm, text)(b) == StrengthFor(pm, text)(c) >= 0
    ensures BetterTie(BindingOf(pm, b, text, policy), BindingOf(pm, c, text, policy))
      <==> StringLess(b.sourceModelID, c.sourceModelID)
  {
  }

  ghost predicate NoneBelow(strength: Strength, seen: seq<Benchmark>, rank: int, id: string) {
    forall b :: b in seen && strength(b) == rank ==> !StringLess(b.sourceModelID, id)
  }

  // `best` was made from the first record of the least id among those of maximal rank seen so far.
  ghost predicate Leads(
      strength: Strength, bind: Benchmark -> Binding, seen: seq<Benchmark>, best: Binding, bestRank: int, pick: nat)
  {
    && Scanned(strength, seen, bestRank, pick)
    && (bestRank < 0 ==> best == UNBOUND)
    && (bestRank >= 0 ==>
      && best == bind(seen[pick])
      && NoneBelow(strength, seen, bestRank, seen[pick].sourceModelID)
      && forall j :: 0 <= j < pick && strength(seen[j]) == bestRank ==> seen[j].sourceModelID != seen[pick].sourceModelID)
  }

  // A new id below the least one is below, and different from, every id of the same rank.
  lemma LeastMoves(strength: Strength, seen: seq<Benchmark>, rank: int, least: string, id: string)
    requires StringLess(id, least) && NoneBelow(strength, seen, rank, least)
    ensures NoneBelow(strength, seen, rank, id)
    ensures forall j :: 0 <= j < |seen| && strength(seen[j]) == rank ==> seen[j].sourceModelID != id
  {
    forall b | b in seen && StringLess(b.sourceModelID, id)
      ensures StringLess(b.sourceModelID, least)
    {
      StringLessIsTransitive(b.sourceModelID, id, least);
    }
    forall j | 0 <= j < |seen| && strength(seen[j]) == rank
      ensures seen[j].sourceModelID != id
    {
      assert seen[j] in seen;
    }
  }

  lemma LeadChanges(
      strength: Strength, bind: Benchmark -> Binding, seen: seq<Benchmark>, best: Binding, bestRank: int, pick: nat, b: Benchmark)
    requires Leads(strength, bind, seen, best, bestRank, pick) && strength(b) >= 0
    requires strength(b) > bestRank
      || (strength(b) == bestRank && StringLess(b.sourceModelID, seen[pick].sourceModelID))
    ensures Leads(strength, bind, seen + [b], bind(b), strength(b), |seen|)
  {
    StringLessIsIrreflexive(b.sourceModelID);
    if strength(b) == bestRank {
      LeastMoves(strength, seen, bestRank, seen[pick].sourceModelID, b.sourceModelID);
    }
  }

  lemma LeadStays(
      strength: Strength, bind: Benchmark -> Binding, seen: seq<Benchmark>, best: Binding, bestRank: int, pick: nat, b: Benchmark)
    requires Leads(strength, bind, seen, best, bestRank, pick)
    requires strength(b) < bestRank || strength(b) == bestRank == -1
      || (strength(b) == bestRank && !StringLess(b.sourceModelID, seen[pick].sourceModelID))
    ensures Leads(strength, bind, seen + [b], best, bestRank, pick)
  {
  }

  // Bindings of records of one rank are compared by the ids of the records.
  ghost predicate TiesByID(strength: Strength, bind: Benchmark -> Binding) {
    forall b, c :: strength(b) == strength(c) >= 0 ==> (BetterTie(bind(b), bind(c)) <==> StringLess(b.sourceModelID, c.sourceModelID))
  }

  method Scan(strength: Strength, bind: Benchmark -> Binding, benchmarks: seq<Benchmark>) returns (best: Binding)
    requires TiesByID(strength, bind)
    ensures IsMatchResult(strength, bind, benchmarks, best)
  {
    best := UNBOUND;
    var bestRank := -1;
    ghost var pick := 0;
    for i := 0 to |benchmarks|
      invariant Leads(strength, bind, benchmarks[..i], best, bestRank, pick)
    {
      var b := benchmarks[i];
      ghost var seen := benchmarks[..i];
      assert benchmarks[..i + 1] == seen + [b];
      var rank := strength(b);
      if rank < bestRank || rank == -1 {
        LeadStays(strength, bind, seen, best, bestRank, pick, b);
        continue;
      }
      var binding := bind(b);
      if rank > bestRank || BetterTie(binding, best) {
        LeadChanges(strength, bind, seen, best, bestRank, pick, b);
        best := binding;
        bestRank := rank;
        pick := i;
      } else {
        LeadStays(strength, bind, seen, best, bestRank, pick, b);
      }
    }
    assert benchmarks[..|benchmarks|] == benchmarks;
    ScannedTops(strength, benchmarks, bestRank, pick);
    if bestRank >= 0 {
      assert IsTop(strength, benchmarks, benchmarks[pick]);
      assert IsLeastTop(strength, benchmarks, pick);
    }
  }

  method Match(pm: ProviderModel, benchmarks: seq<Benchmark>, text: Text, policy: Policy) returns (best: Binding)
    ensures IsMatchResult(StrengthFor(pm, text), BinderFor(pm, text, policy), benchmarks, best)
  {
    var strength, bind := StrengthFor(pm, text), BinderFor(pm, text, policy);
    assert TiesByID(strength, bind) by {
      forall b, c | strength(b) == strength(c) >= 0
        ensures BetterTie(bind(b), bind(c)) <==> StringLess(b.sourceModelID, c.sourceModelID)
      {
        TiesAreBrokenById(pm, text, policy, b, c);
      }
    }
    best := Scan(strength, bind, benchmarks);
  }

  // ----- the verdict and the two results

  lemma VerdictIgnoresOrder(strength: Strength, a: seq<Benchmark>, b: seq<Benchmark>)
    requires multiset(a) == multiset(b)
    ensures HasUniqueTop(strength, a) == HasUniqueTop(strength, b)
  {
    PermutationLength(a, b);
    assert forall x :: IsTop(strength, a, x) <==> IsTop(strength, b, x);
  }

  // The record at i, and at no other position, attains the maximal rank.
  ghost predicate IsOnlyTop(strength: Strength, benchmarks: seq<Benchmark>, i: nat) {
    && i < |benchmarks| && IsTop(strength, benchmarks, benchmarks[i])
    && forall j :: 0 <= j < |benchmarks| && IsTop(strength, benchmarks, benchmarks[j]) ==> j == i
  }

  // Over distinct source ids the verdict is true exactly when one record attains the maximal rank.
  lemma VerdictCountsTops(strength: Strength, benchmarks: seq<Benchmark>)
    requires forall i, j :: 0 <= i < j < |benchmarks| ==> benchmarks[i].sourceModelID != benchmarks[j].sourceModelID
    ensures HasUniqueTop(strength, benchmarks) <==> exists i: nat :: IsOnlyTop(strength, benchmarks, i)
  {
    if HasUniqueTop(strength, benchmarks) {
      var b :| IsTop(strength, benchmarks, b);
      var i: nat :| i < |benchmarks| && benchmarks[i] == b;
      assert IsOnlyTop(strength, benchmarks, i);
    }
    if i: nat :| IsOnlyTop(strength, benchmarks, i) {
      assert IsTop(strength, benchmarks, benchmarks[i]);
      forall b | IsTop(strength, benchmarks, b)
        ensures b == benchmarks[i]
      {
        var j: nat :| j < |benchmarks| && benchmarks[j] == b;
      }
    }
  }

  // A unique match is the match: the stricter operation never picks another record.
  lemma UniqueMatchIsMatch(
      strength: Strength, bind: Benchmark -> Binding, benchmarks: seq<Benchmark>, unique: Binding, best: Binding)
    requires IsUniqueResult(strength, bind, benchmarks, unique, true)
    requires IsMatchResult(strength, bind, benchmarks, best)
    ensures unique == best
  {
    var i: nat :| IsFirstTop(strength, benchmarks, i) && unique == bind(benchmarks[i]);
    var k: nat :| IsLeastTop(strength, benchmarks, k) && best == bind(benchmarks[k]);
    assert benchmarks[i].sourceModelID == benchmarks[k].sourceModelID;
    assert i == k;
  }

  // Even when records tie, Match settles on one source id whatever the order, and over distinct ids on one binding.
  lemma MatchIgnoresOrder(
      strength: Strength, bind: Benchmark -> Binding, a: seq<Benchmark>, b: seq<Benchmark>, left: Binding, right: Binding)
    requires multiset(a) == multiset(b)
    requires forall x :: bind(x).sourceModelID == x.sourceModelID
    requires IsMatchResult(strength, bind, a, left) && IsMatchResult(strength, bind, b, right)
    ensures left.sourceModelID == right.sourceModelID
    ensures (forall x, y :: x in a && y in a && x != y ==> x.sourceModelID != y.sourceModelID) ==> left == right
  {
    PermutationLength(a, b);
    assert forall x :: IsTop(strength, a, x) <==> IsTop(strength, b, x);
    if exists x :: IsTop(strength, a, x) {
      var i: nat :| IsLeastTop(strength, a, i) && left == bind(a[i]);
      var k: nat :| IsLeastTop(strength, b, k) && right == bind(b[k]);
      StringLessIsTotal(a[i].sourceModelID, b[k].sourceModelID);
      assert a[i] in a && b[k] in a;
    }
  }
}
