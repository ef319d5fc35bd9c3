/** Candidate ranking over partial data (internal/router/filter.go). */
module Ranking {
  import opened Wrappers
  import opened Numbers
  import opened ModelTypes
  import opened Sorting

  type TTFTLookup = string -> Option<Float>
  type ScoreLookup = Candidate -> Option<Float>

  function ValidScore(score: Option<Float>): Option<real> {
    if score.Some? && score.value.Finite? then Some(score.value.value) else None
  }

  function ValidTTFT(ms: Option<Float>): Option<real> {
    if ms.Some? && ValidSample(ms.value) then Some(ms.value.value) else None
  }

  // What the comparator looks at.
  datatype Key = Key(score: Option<real>, ttft: Option<real>, modelID: string, routeID: string)

  function KeyOf(c: Candidate, ttft: Option<TTFTLookup>, score: Option<ScoreLookup>): Key {
    Key(
      if score.Some? then ValidScore(score.value(c)) else None,
      if ttft.Some? then ValidTTFT(ttft.value(c.route.id)) else None,
      c.model.id,
      c.route.id)
  }

  predicate TTFTLess(l: Key, r: Key) {
    if l.ttft.Some? != r.ttft.Some? then l.ttft.Some?
    else if l.ttft.Some? && l.ttft.value != r.ttft.value then l.ttft.value < r.ttft.value
    else if l.modelID != r.modelID then StringLess(l.modelID, r.modelID)
    else StringLess(l.routeID, r.routeID)
  }

  predicate KeyLess(l: Key, r: Key) {
    if l.score.Some? != r.score.Some? then l.score.Some?
    else if l.score.Some? && l.score.value != r.score.value then l.score.value > r.score.value
    else TTFTLess(l, r)
  }

  function RankLess(ttft: Option<TTFTLookup>, score: Option<ScoreLookup>): (Candidate, Candidate) -> bool {
    (l: Candidate, r: Candidate) => KeyLess(KeyOf(l, ttft, score), KeyOf(r, ttft, score))
  }

  function RankWithScore(candidates: seq<Candidate>, ttft: Option<TTFTLookup>, score: Option<ScoreLookup>): seq<Candidate> {
    StableSort(candidates, RankLess(ttft, score))
  }

  // ----- the comparator is a strict order on keys

  lemma KeyLessIsTotal(l: Key, r: Key)
    ensures !KeyLess(l, l)
    ensures KeyLess(l, r) || KeyLess(r, l) || l == r
    ensures !(KeyLess(l, r) && KeyLess(r, l))
  {
    StringLessIsIrreflexive(l.routeID);
    StringLessIsTotal(l.modelID, r.modelID);
    StringLessIsTotal(l.routeID, r.routeID);
  }

  lemma TTFTLessIsTransitive(a: Key, b: Key, c: Key)
    requires TTFTLess(a, b) && TTFTLess(b, c)
    ensures TTFTLess(a, c)
  {
    StringLessIsTotal(a.modelID, b.modelID);
    if StringLess(a.modelID, b.modelID) && StringLess(b.modelID, c.modelID) {
      StringLessIsTransitive(a.modelID, b.modelID, c.modelID);
      StringLessIsIrreflexive(a.modelID);
    }
    if StringLess(a.routeID, b.routeID) && StringLess(b.routeID, c.routeID) {
      StringLessIsTransitive(a.routeID, b.routeID, c.routeID);
    }
  }

  lemma KeyLessIsTransitive(a: Key, b: Key, c: Key)
    requires KeyLess(a, b) && KeyLess(b, c)
    ensures KeyLess(a, c)
  {
    if TTFTLess(a, b) && TTFTLess(b, c) {
      TTFTLessIsTransitive(a, b, c);
    }
  }

  lemma RankLessIsStrictWeak(ttft: Option<TTFTLookup>, score: Option<ScoreLookup>)
    ensures StrictWeakOrder(RankLess(ttft, score))
  {
    var less := RankLess(ttft, score);
    forall x, y, z
      ensures !less(x, x)
      ensures less(x, y) && less(y, z) ==> less(x, z)
      ensures !less(x, y) && !less(y, z) ==> !less(x, z)
    {
      var a, b, c := KeyOf(x, ttft, score), KeyOf(y, ttft, score), KeyOf(z, ttft, score);
      KeyLessIsTotal(a, b);
      KeyLessIsTotal(b, c);
      if KeyLess(a, b) && KeyLess(b, c) {
        KeyLessIsTransitive(a, b, c);
      }
      if KeyLess(a, c) && KeyLess(b, a) {
        KeyLessIsTransitive(b, a, c);
      }
    }
  }

  // The result is a permutation of the input, in order.
  lemma RankWithScoreIsSorted(candidates: seq<Candidate>, ttft: Option<TTFTLookup>, score: Option<ScoreLookup>)
    ensures multiset(RankWithScore(candidates, ttft, score)) == multiset(candidates)
    ensures SortedBy(RankWithScore(candidates, ttft, score), RankLess(ttft, score))
  {
    RankLessIsStrictWeak(ttft, score);
    StableSortIsSorted(candidates, RankLess(ttft, score));
  }

  ghost predicate DistinctPairs(s: seq<Candidate>) {
    forall x, y :: x in s && y in s && x.model.id == y.model.id && x.route.id == y.route.id ==> x == y
  }

  // The ranking does not depend on the order the candidates arrive in.
  lemma RankWithScoreIgnoresInputOrder(
      a: seq<Candidate>, b: seq<Candidate>, ttft: Option<TTFTLookup>, score: Option<ScoreLookup>)
    requires multiset(a) == multiset(b) && DistinctPairs(a)
    ensures RankWithScore(a, ttft, score) == RankWithScore(b, ttft, score)
  {
    var less, r, r' := RankLess(ttft, score), RankWithScore(a, ttft, score), RankWithScore(b, ttft, score);
    RankWithScoreIsSorted(a, ttft, score);
    RankWithScoreIsSorted(b, ttft, score);
    PermutationLength(a, r);
    forall x, y | x in r && y in r && x != y
      ensures less(x, y) || less(y, x)
    {
      KeyLessIsTotal(KeyOf(x, ttft, score), KeyOf(y, ttft, score));
    }
    SortedPermutationIsUnique(r, r', less);
  }
}
