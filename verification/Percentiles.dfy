/**
 Mid-rank percentiles (internal/scoring/scoring.go).

 `Percentile` sorts the valid samples and finds the two ends of the run of equal values by binary search.
 `MidRank` says what that computes: the samples below the value and those not above it, counted.
 */
module Percentiles {
  import opened Numbers
  import opened Sorting

  function RealLess(): (real, real) -> bool {
    (a: real, b: real) => a < b
  }

  function Below(v: real): real -> bool {
    x => x < v
  }

  function NotAbove(v: real): real -> bool {
    x => x <= v
  }

  function ValidSamples(values: seq<Float>): seq<real> {
    if values == [] then []
    else ValidSamples(values[..|values| - 1]) +
         if ValidSample(values[|values| - 1]) then [values[|values| - 1].value] else []
  }

  // The rank of v in the population, doubled: twice the mid-point of its run.
  function DoubleRank(v: real, population: seq<real>): int {
    Count(population, Below(v)) + Count(population, NotAbove(v)) - 1
  }

  function MidRank(value: Float, population: seq<Float>, higherIsBetter: bool): real {
    var clean := ValidSamples(population);
    if !ValidSample(value) || |clean| < 2 then UNKNOWN_SCORE
    else
      var p := 100.0 * (DoubleRank(value.value, clean) as real / 2.0) / (|clean| - 1) as real;
      ClampScore(if higherIsBetter then p else 100.0 - p)
  }

  // ----- the code

  method FiniteValues(values: seq<Float>) returns (clean: seq<real>)
    ensures clean == ValidSamples(values)
  {
    clean := [];
    for i := 0 to |values|
      invariant clean == ValidSamples(values[..i])
    {
      assert values[..i + 1][..i] == values[..i];
      if ValidSample(values[i]) {
        clean := clean + [values[i].value];
      }
    }
    assert values[..|values|] == values;
  }

  // sort.Search: the least index from which the predicate holds.
  method Search(s: seq<real>, p: real -> bool) returns (index: nat)
    requires forall i, j :: 0 <= i < j < |s| && p(s[i]) ==> p(s[j])
    ensures index <= |s|
    ensures forall i :: 0 <= i < index ==> !p(s[i])
    ensures forall i :: index <= i < |s| ==> p(s[i])
  {
    var lo, hi := 0, |s|;
    while lo < hi
      invariant 0 <= lo <= hi <= |s|
      invariant forall i :: 0 <= i < lo ==> !p(s[i])
      invariant forall i :: hi <= i < |s| ==> p(s[i])
    {
      var mid := (lo + hi) / 2;
      if !p(s[mid]) {
        lo := mid + 1;
      } else {
        hi := mid;
      }
    }
    index := lo;
  }

  function Sorted(clean: seq<real>): (s: seq<real>)
    ensures s == StableSort(clean, RealLess()) && |s| == |clean|
    ensures forall i, j :: 0 <= i < j < |s| ==> s[i] <= s[j]
  {
    var s := StableSort(clean, RealLess());
    StableSortIsSorted(clean, RealLess());
    PermutationLength(s, clean);
    s
  }

  method Percentile(value: Float, population: seq<Float>, higherIsBetter: bool) returns (score: real)
    ensures score == MidRank(value, population, higherIsBetter)
  {
    if !ValidSample(value) {
      return UNKNOWN_SCORE;
    }
    var clean := FiniteValues(population);
    if |clean| < 2 {
      return UNKNOWN_SCORE;
    }
    var v, sorted := value.value, Sorted(clean);
    var lower := Search(sorted, x => x >= v);
    var upper := Search(sorted, x => x > v);
    SearchCounts(clean, v, lower, upper);
    var rank := (lower as real + upper as real - 1.0) / 2.0;
    var percentile := 100.0 * rank / (|sorted| - 1) as real;
    if !higherIsBetter {
      percentile := 100.0 - percentile;
    }
    score := ClampScore(percentile);
  }

  lemma SearchCounts(clean: seq<real>, v: real, lower: nat, upper: nat)
    requires var s := StableSort(clean, RealLess());
      && lower <= |s| && (forall i :: 0 <= i < lower ==> s[i] < v) && (forall i :: lower <= i < |s| ==> s[i] >= v)
      && upper <= |s| && (forall i :: 0 <= i < upper ==> s[i] <= v) && (forall i :: upper <= i < |s| ==> s[i] > v)
    ensures lower == Count(clean, Below(v)) && upper == Count(clean, NotAbove(v))
  {
    var s := StableSort(clean, RealLess());
    CountPrefix(s, Below(v), lower);
    CountPrefix(s, NotAbove(v), upper);
    CountSorted(clean, RealLess(), Below(v));
    CountSorted(clean, RealLess(), NotAbove(v));
  }

  method PercentilesOf(values: seq<Float>, higherIsBetter: bool) returns (out: seq<real>)
    ensures out == Scores(values, values, higherIsBetter)
    ensures Sum(out) == 50.0 * |values| as real
  {
    out := [];
    for i := 0 to |values|
      invariant out == Scores(values[..i], values, higherIsBetter)
    {
      assert values[..i + 1][..i] == values[..i];
      var score := Percentile(values[i], values, higherIsBetter);
      out := out + [score];
    }
    assert values[..|values|] == values;
    PercentilesSumToNeutral(values, higherIsBetter);
  }

  // ----- the mean percentile is exactly neutral

  function Scores(values: seq<Float>, population: seq<Float>, higherIsBetter: bool): (r: seq<real>)
    ensures |r| == |values|
  {
    if values == [] then []
    else Scores(values[..|values| - 1], population, higherIsBetter) +
         [MidRank(values[|values| - 1], population, higherIsBetter)]
  }

  function Sum(s: seq<real>): real {
    if s == [] then 0.0 else Sum(s[..|s| - 1]) + s[|s| - 1]
  }

  function RankTotal(xs: seq<real>, population: seq<real>): int {
    if xs == [] then 0 else RankTotal(xs[..|xs| - 1], population) + DoubleRank(xs[|xs| - 1], population)
  }

  // Adding one element to the population moves each rank by 0, 1 or 2; over all of ys that is 2|ys| less
  // the places the new element itself takes among ys.
  lemma {:induction false} RankOfGrownPopulation(ys: seq<real>, xs: seq<real>, x: real)
    ensures RankTotal(ys, xs + [x]) == RankTotal(ys, xs) + 2 * |ys| - (DoubleRank(x, ys) + 1)
  {
    if ys != [] {
      var y := ys[|ys| - 1];
      RankOfGrownPopulation(ys[..|ys| - 1], xs, x);
      CountAppend(xs, x, Below(y));
      CountAppend(xs, x, NotAbove(y));
    }
  }

  // Every pair (x, y) is counted twice, whichever way round it compares.
  lemma {:induction false} PairsAreCountedTwice(xs: seq<real>, ys: seq<real>)
    ensures RankTotal(xs, ys) + RankTotal(ys, xs) == 2 * |xs| * |ys| - |xs| - |ys|
  {
    if xs == [] {
      RanksInEmpty(ys);
    } else {
      var init, x := xs[..|xs| - 1], xs[|xs| - 1];
      PairsAreCountedTwice(init, ys);
      assert xs == init + [x];
      RankOfGrownPopulation(ys, init, x);
      OneMoreRow(|init|, |ys|);
    }
  }

  lemma OneMoreRow(a: nat, b: nat)
    ensures 2 * (a + 1) * b == 2 * a * b + 2 * b
  {
  }

  lemma {:induction false} RanksInEmpty(ys: seq<real>)
    ensures RankTotal(ys, []) == -|ys|
  {
    if ys != [] {
      RanksInEmpty(ys[..|ys| - 1]);
    }
  }

  // The mid-ranks 0 .. m-1 of a population add up as if all samples were distinct.
  lemma MidRanksSum(xs: seq<real>)
    ensures RankTotal(xs, xs) == |xs| * (|xs| - 1)
  {
    PairsAreCountedTwice(xs, xs);
  }

  // A member's rank lies in the population, so the clamp does nothing.
  lemma MemberRankBounds(v: real, population: seq<real>)
    requires v in population
    ensures 0 <= DoubleRank(v, population) <= 2 * (|population| - 1)
  {
    var all := (x: real) => true;
    CountMonotone(population, NotAbove(v), all);
    CountStrictlyMonotone(population, Below(v), all, v);
    CountMonotone(population, all, all);
    CountStrictlyMonotone(population, Below(v), NotAbove(v), v);
  }

  lemma {:induction false} MembersAreSamples(values: seq<Float>)
    ensures forall i :: 0 <= i < |values| && ValidSample(values[i]) ==> values[i].value in ValidSamples(values)
    ensures |ValidSamples(values)| <= |values|
  {
    if values != [] {
      MembersAreSamples(values[..|values| - 1]);
    }
  }

  // The unclamped score of a doubled rank in a population of n + 1 samples.
  function Scale(doubleRank: int, n: int, higherIsBetter: bool): real
    requires n > 0
  {
    var p := 50.0 * doubleRank as real / n as real;
    if higherIsBetter then p else 100.0 - p
  }

  lemma MemberMidRank(value: Float, population: seq<Float>, higherIsBetter: bool)
    requires ValidSample(value) && value.value in ValidSamples(population) && |ValidSamples(population)| >= 2
    ensures MidRank(value, population, higherIsBetter)
         == Scale(DoubleRank(value.value, ValidSamples(population)), |ValidSamples(population)| - 1, higherIsBetter)
  {
    MemberRankBounds(value.value, ValidSamples(population));
    ScaledBounds(DoubleRank(value.value, ValidSamples(population)), |ValidSamples(population)| - 1);
  }

  function ScaleTotal(xs: seq<real>, population: seq<real>, higherIsBetter: bool): real
    requires |population| >= 2
  {
    if xs == [] then 0.0
    else ScaleTotal(xs[..|xs| - 1], population, higherIsBetter)
         + Scale(DoubleRank(xs[|xs| - 1], population), |population| - 1, higherIsBetter)
  }

  lemma {:induction false} ScaleTotalIsLinear(xs: seq<real>, population: seq<real>, higherIsBetter: bool)
    requires |population| >= 2
    ensures var ranks := 50.0 * RankTotal(xs, population) as real / (|population| - 1) as real;
      ScaleTotal(xs, population, higherIsBetter) == if higherIsBetter then ranks else 100.0 * |xs| as real - ranks
  {
    if xs != [] {
      var init := xs[..|xs| - 1];
      ScaleTotalIsLinear(init, population, higherIsBetter);
      ScaledSum(RankTotal(init, population), DoubleRank(xs[|xs| - 1], population), |population| - 1);
    }
  }

  lemma {:induction false} ScoresSum(values: seq<Float>, population: seq<Float>, higherIsBetter: bool)
    requires |ValidSamples(population)| >= 2
    requires forall i :: 0 <= i < |values| && ValidSample(values[i]) ==> values[i].value in ValidSamples(population)
    ensures Sum(Scores(values, population, higherIsBetter)) ==
        50.0 * (|values| - |ValidSamples(values)|) as real + ScaleTotal(ValidSamples(values), ValidSamples(population), higherIsBetter)
  {
    if values != [] {
      var init, last := values[..|values| - 1], values[|values| - 1];
      ScoresSum(init, population, higherIsBetter);
      if ValidSample(last) {
        MemberMidRank(last, population, higherIsBetter);
        assert ValidSamples(values)[..|ValidSamples(init)|] == ValidSamples(init);
      } else {
        assert ValidSamples(values) == ValidSamples(init);
      }
    }
  }

  lemma {:induction false} NeutralScoresSum(values: seq<Float>, population: seq<Float>, higherIsBetter: bool)
    requires |ValidSamples(population)| < 2
    ensures Sum(Scores(values, population, higherIsBetter)) == 50.0 * |values| as real
  {
    if values != [] {
      NeutralScoresSum(values[..|values| - 1], population, higherIsBetter);
    }
  }

  lemma PercentilesSumToNeutral(values: seq<Float>, higherIsBetter: bool)
    ensures Sum(Scores(values, values, higherIsBetter)) == 50.0 * |values| as real
  {
    var clean := ValidSamples(values);
    if |clean| < 2 {
      NeutralScoresSum(values, values, higherIsBetter);
    } else {
      MembersAreSamples(values);
      ScoresSum(values, values, higherIsBetter);
      ScaleTotalIsLinear(clean, clean, higherIsBetter);
      MidRanksSum(clean);
      ScaledTotal(|clean|);
    }
  }

  // ----- arithmetic of the scale

  lemma ScaledBounds(d: int, n: int)
    requires 0 <= d <= 2 * n && n > 0
    ensures 100.0 * (d as real / 2.0) / n as real == 50.0 * d as real / n as real
    ensures 0.0 <= 50.0 * d as real / n as real <= 100.0
  {
    assert 100.0 * (d as real / 2.0) == 50.0 * d as real;
    var p := 50.0 * d as real / n as real;
    assert p * n as real == 50.0 * d as real;
  }

  lemma ScaledSum(a: int, b: int, n: int)
    requires n > 0
    ensures 50.0 * (a + b) as real / n as real == 50.0 * a as real / n as real + 50.0 * b as real / n as real
  {
    assert (a + b) as real == a as real + b as real;
  }

  lemma ScaledTotal(m: int)
    requires m >= 2
    ensures 50.0 * (m * (m - 1)) as real / (m - 1) as real == 50.0 * m as real
  {
    var n := (m - 1) as real;
    assert (m * (m - 1)) as real == m as real * n;
    assert 50.0 * (m as real * n) == (50.0 * m as real) * n;
  }

  // ----- monotonicity

  lemma RankMonotone(v: real, w: real, population: seq<real>)
    requires v <= w
    ensures DoubleRank(v, population) <= DoubleRank(w, population)
    ensures v < w && (v in population || w in population) ==> DoubleRank(v, population) < DoubleRank(w, population)
  {
    CountMonotone(population, Below(v), Below(w));
    CountMonotone(population, NotAbove(v), NotAbove(w));
    if v < w && v in population {
      CountStrictlyMonotone(population, Below(v), Below(w), v);
    } else if v < w && w in population {
      CountStrictlyMonotone(population, NotAbove(v), NotAbove(w), w);
    }
  }

  // A larger value never scores worse when higher is better, nor better when lower is.
  lemma PercentileIsMonotone(v: Float, w: Float, population: seq<Float>)
    requires v.Finite? && w.Finite? && 0.0 <= v.value <= w.value
    ensures MidRank(v, population, true) <= MidRank(w, population, true)
    ensures MidRank(v, population, false) >= MidRank(w, population, false)
  {
    var clean := ValidSamples(population);
    if |clean| >= 2 {
      RankMonotone(v.value, w.value, clean);
      ScaleMonotone(DoubleRank(v.value, clean), DoubleRank(w.value, clean), |clean| - 1);
    }
  }

  // Between members the order is strict: no two distinct samples share a score.
  lemma PercentileIsStrictOnMembers(v: Float, w: Float, population: seq<Float>)
    requires v in population && w in population && v.Finite? && w.Finite? && 0.0 <= v.value < w.value
    ensures MidRank(v, population, true) < MidRank(w, population, true)
    ensures MidRank(v, population, false) > MidRank(w, population, false)
  {
    var clean := ValidSamples(population);
    MembersAreSamples(population);
    RankMonotone(v.value, w.value, clean);
    MemberRankBounds(v.value, clean);
    MemberRankBounds(w.value, clean);
    ScaleStrict(DoubleRank(v.value, clean), DoubleRank(w.value, clean), |clean| - 1);
    MemberMidRank(v, population, true);
    MemberMidRank(w, population, true);
    MemberMidRank(v, population, false);
    MemberMidRank(w, population, false);
  }

  // ----- the scale, by places in the sorted population

  // In a sorted list a value that takes the places lo to hi has the doubled rank lo + hi.
  lemma RankIsMidPlace(sorted: seq<real>, lo: nat, hi: nat)
    requires lo <= hi < |sorted| && forall i, j :: 0 <= i < j < |sorted| ==> sorted[i] <= sorted[j]
    requires forall i :: 0 <= i < |sorted| ==> (sorted[i] == sorted[lo] <==> lo <= i <= hi)
    ensures DoubleRank(sorted[lo], sorted) == lo + hi
  {
    CountPrefix(sorted, Below(sorted[lo]), lo);
    CountPrefix(sorted, NotAbove(sorted[lo]), hi + 1);
  }

  // The scale runs evenly from 0 for the first place to 100 for the last, or the other way round, and equal samples share
  // the middle of their places.
  lemma PercentileIsMidPlace(population: seq<Float>, sorted: seq<real>, lo: nat, hi: nat)
    requires multiset(sorted) == multiset(ValidSamples(population)) && |sorted| >= 2
    requires lo <= hi < |sorted| && forall i, j :: 0 <= i < j < |sorted| ==> sorted[i] <= sorted[j]
    requires forall i :: 0 <= i < |sorted| ==> (sorted[i] == sorted[lo] <==> lo <= i <= hi)
    ensures ScoresAt(Finite(sorted[lo]), population, 100.0 * ((lo + hi) as real / 2.0) / (|sorted| - 1) as real)
  {
    PlacesAreRanks(population, sorted, lo, hi);
    ScoreOfRank(Finite(sorted[lo]), population, lo + hi, |sorted|);
  }

  ghost predicate ScoresAt(v: Float, population: seq<Float>, place: real) {
    0.0 <= place <= 100.0 && MidRank(v, population, true) == place && MidRank(v, population, false) == 100.0 - place
  }

  lemma PlacesAreRanks(population: seq<Float>, sorted: seq<real>, lo: nat, hi: nat)
    requires multiset(sorted) == multiset(ValidSamples(population)) && lo <= hi < |sorted|
    requires forall i, j :: 0 <= i < j < |sorted| ==> sorted[i] <= sorted[j]
    requires forall i :: 0 <= i < |sorted| ==> (sorted[i] == sorted[lo] <==> lo <= i <= hi)
    ensures ValidSample(Finite(sorted[lo])) && |ValidSamples(population)| == |sorted|
    ensures DoubleRank(sorted[lo], ValidSamples(population)) == lo + hi
  {
    RankIgnoresOrder(ValidSamples(population), sorted, sorted[lo]);
    RankIsMidPlace(sorted, lo, hi);
    PermutationLength(sorted, ValidSamples(population));
    SamplesAreValid(population);
    assert sorted[lo] in ValidSamples(population);
  }

  lemma ScoreOfRank(v: Float, population: seq<Float>, d: nat, n: nat)
    requires ValidSample(v) && |ValidSamples(population)| == n >= 2 && DoubleRank(v.value, ValidSamples(population)) == d <= 2 * (n - 1)
    ensures ScoresAt(v, population, 100.0 * (d as real / 2.0) / (n - 1) as real)
  {
    ScaledBounds(d, n - 1);
  }

  lemma RankIgnoresOrder(clean: seq<real>, sorted: seq<real>, v: real)
    requires multiset(sorted) == multiset(clean) && forall i, j :: 0 <= i < j < |sorted| ==> sorted[i] <= sorted[j]
    ensures DoubleRank(v, clean) == DoubleRank(v, sorted)
  {
    SortedPermutationIsUnique(sorted, Sorted(clean), RealLess());
    CountSorted(clean, RealLess(), Below(v));
    CountSorted(clean, RealLess(), NotAbove(v));
  }

  lemma {:induction false} SamplesAreValid(values: seq<Float>)
    ensures forall x :: x in ValidSamples(values) ==> x >= 0.0 && Finite(x) in values
  {
    if values != [] {
      SamplesAreValid(values[..|values| - 1]);
      assert values == values[..|values| - 1] + [values[|values| - 1]];
    }
  }

  // A sample that is negative or not finite scores neutral, and leaves every other score as it is.
  lemma {:induction false} InvalidIsNeutral(v: Float, before: seq<Float>, after: seq<Float>, other: Float, higherIsBetter: bool)
    requires v.NonFinite? || v.value < 0.0
    ensures MidRank(v, before + after, higherIsBetter) == UNKNOWN_SCORE
    ensures ValidSamples(before + [v] + after) == ValidSamples(before + after)
    ensures MidRank(other, before + [v] + after, higherIsBetter) == MidRank(other, before + after, higherIsBetter)
  {
    if after == [] {
      assert before + [v] + after == before + [v] && before + after == before && (before + [v])[..|before|] == before;
    } else {
      var init, last := after[..|after| - 1], after[|after| - 1];
      InvalidIsNeutral(v, before, init, other, higherIsBetter);
      assert before + [v] + after == (before + [v] + init) + [last] && before + after == (before + init) + [last];
      assert ((before + [v] + init) + [last])[..|before + [v] + init|] == before + [v] + init;
      assert ((before + init) + [last])[..|before + init|] == before + init;
    }
  }

  lemma ScaleMonotone(d: int, e: int, n: int)
    requires d <= e && n > 0
    ensures 100.0 * (d as real / 2.0) / n as real <= 100.0 * (e as real / 2.0) / n as real
  {
    var p, q := 100.0 * (d as real / 2.0) / n as real, 100.0 * (e as real / 2.0) / n as real;
    assert p * n as real <= q * n as real;
  }

  lemma ScaleStrict(d: int, e: int, n: int)
    requires d < e && n > 0
    ensures 50.0 * d as real / n as real < 50.0 * e as real / n as real
  {
    var p, q := 50.0 * d as real / n as real, 50.0 * e as real / n as real;
    assert p * n as real < q * n as real;
  }
}
