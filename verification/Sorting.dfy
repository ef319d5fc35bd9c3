/** Orders, the stable sort the sources call from the standard library, and counting over sequences. */
module Sorting {
  // Strict weak orders, stated on `less` the way a comparator is written.
  ghost predicate StrictWeakOrder<T(!new)>(less: (T, T) -> bool) {
    && (forall x :: !less(x, x))
    && (forall x, y, z :: less(x, y) && less(y, z) ==> less(x, z))
    && (forall x, y, z :: !less(x, y) && !less(y, z) ==> !less(x, z))
  }

  ghost predicate SortedBy<T>(s: seq<T>, less: (T, T) -> bool) {
    forall i, j :: 0 <= i < j < |s| ==> !less(s[j], s[i])
  }

  // Elements that differ are comparable, so equal keys cannot hide distinct elements.
  ghost predicate TotalOn<T>(s: seq<T>, less: (T, T) -> bool) {
    forall x, y :: x in s && y in s && x != y ==> less(x, y) || less(y, x)
  }

  function Insert<T>(x: T, s: seq<T>, less: (T, T) -> bool): (r: seq<T>)
    ensures multiset(r) == multiset(s) + multiset{x}
  {
    if s != [] && less(x, s[|s| - 1]) then
      assert s == s[..|s| - 1] + [s[|s| - 1]];
      Insert(x, s[..|s| - 1], less) + [s[|s| - 1]]
    else s + [x]
  }

  // Elements that compare equal keep their order, as in sort.SliceStable.
  function StableSort<T>(s: seq<T>, less: (T, T) -> bool): (r: seq<T>)
    ensures multiset(r) == multiset(s)
  {
    if s == [] then []
    else
      assert s == s[..|s| - 1] + [s[|s| - 1]];
      Insert(s[|s| - 1], StableSort(s[..|s| - 1], less), less)
  }

  lemma PermutationLength<T>(a: seq<T>, b: seq<T>)
    requires multiset(a) == multiset(b)
    ensures |a| == |b|
    ensures forall x :: x in a <==> x in b
  {
    assert |multiset(a)| == |multiset(b)|;
    forall x
      ensures x in a <==> x in b
    {
      assert x in a <==> x in multiset(a);
    }
  }

  lemma {:induction false} InsertKeepsSorted<T(!new)>(x: T, s: seq<T>, less: (T, T) -> bool)
    requires StrictWeakOrder(less) && SortedBy(s, less)
    ensures SortedBy(Insert(x, s, less), less)
  {
    if s != [] && less(x, s[|s| - 1]) {
      var init, last := s[..|s| - 1], s[|s| - 1];
      InsertKeepsSorted(x, init, less);
      var r := Insert(x, init, less);
      forall i | 0 <= i < |r|
        ensures !less(last, r[i])
      {
        assert r[i] in multiset(r);
        if r[i] != x {
          assert r[i] in init;
        }
      }
    }
  }

  lemma {:induction false} StableSortIsSorted<T(!new)>(s: seq<T>, less: (T, T) -> bool)
    requires StrictWeakOrder(less)
    ensures SortedBy(StableSort(s, less), less)
  {
    if s != [] {
      StableSortIsSorted(s[..|s| - 1], less);
      InsertKeepsSorted(s[|s| - 1], StableSort(s[..|s| - 1], less), less);
    }
  }

  lemma SortedPermutationsAgreeFirst<T>(a: seq<T>, b: seq<T>, less: (T, T) -> bool)
    requires multiset(a) == multiset(b) && a != [] && b != []
    requires SortedBy(a, less) && SortedBy(b, less) && TotalOn(a, less)
    ensures a[0] == b[0]
  {
    PermutationLength(a, b);
    var x, y := a[0], b[0];
    assert x in a && y in b;
    assert x in b && y in a;
    if x != y {
      assert false;
    }
  }

  lemma TailPermutation<T>(a: seq<T>, b: seq<T>)
    requires multiset(a) == multiset(b) && a != [] && b != [] && a[0] == b[0]
    ensures multiset(a[1..]) == multiset(b[1..])
  {
    assert a == [a[0]] + a[1..] && b == [b[0]] + b[1..];
    assert multiset(a[1..]) == multiset(a) - multiset{a[0]};
  }

  lemma {:induction false} SortedPermutationIsUnique<T>(a: seq<T>, b: seq<T>, less: (T, T) -> bool)
    requires multiset(a) == multiset(b)
    requires SortedBy(a, less) && SortedBy(b, less) && TotalOn(a, less)
    ensures a == b
  {
    PermutationLength(a, b);
    if a != [] {
      SortedPermutationsAgreeFirst(a, b, less);
      TailPermutation(a, b);
      assert a == [a[0]] + a[1..] && b == [a[0]] + b[1..];
      SortedPermutationIsUnique(a[1..], b[1..], less);
    }
  }

  // In a sorted list, an element that is smaller than another stands before it.
  lemma SmallerComesFirst<T>(s: seq<T>, less: (T, T) -> bool, i: nat, j: nat)
    requires SortedBy(s, less) && i < |s| && j < |s| && less(s[i], s[j])
    requires !less(s[i], s[i])
    ensures i < j
  {
  }

  // ----- counting

  function Count<T>(s: seq<T>, p: T -> bool): nat {
    if s == [] then 0 else Count(s[..|s| - 1], p) + if p(s[|s| - 1]) then 1 else 0
  }

  lemma {:induction false} CountAppend<T>(s: seq<T>, x: T, p: T -> bool)
    ensures Count(s + [x], p) == Count(s, p) + if p(x) then 1 else 0
  {
    assert (s + [x])[..|s|] == s;
  }

  lemma {:induction false} CountSorted<T>(s: seq<T>, less: (T, T) -> bool, p: T -> bool)
    ensures Count(StableSort(s, less), p) == Count(s, p)
  {
    if s != [] {
      CountSorted(s[..|s| - 1], less, p);
      CountInsert(s[|s| - 1], StableSort(s[..|s| - 1], less), less, p);
    }
  }

  lemma {:induction false} CountInsert<T>(x: T, s: seq<T>, less: (T, T) -> bool, p: T -> bool)
    ensures Count(Insert(x, s, less), p) == Count(s, p) + if p(x) then 1 else 0
  {
    if s != [] && less(x, s[|s| - 1]) {
      CountInsert(x, s[..|s| - 1], less, p);
      CountAppend(Insert(x, s[..|s| - 1], less), s[|s| - 1], p);
    } else {
      CountAppend(s, x, p);
    }
  }

  // When p holds on exactly the first k elements, k is the count.
  lemma {:induction false} CountPrefix<T>(s: seq<T>, p: T -> bool, k: nat)
    requires k <= |s|
    requires forall i :: 0 <= i < k ==> p(s[i])
    requires forall i :: k <= i < |s| ==> !p(s[i])
    ensures Count(s, p) == k
  {
    if s != [] {
      CountPrefix(s[..|s| - 1], p, if k == |s| then k - 1 else k);
    }
  }

  lemma {:induction false} CountMonotone<T>(s: seq<T>, p: T -> bool, q: T -> bool)
    requires forall x :: x in s && p(x) ==> q(x)
    ensures Count(s, p) <= Count(s, q) <= |s|
  {
    if s != [] {
      CountMonotone(s[..|s| - 1], p, q);
    }
  }

  lemma {:induction false} CountStrictlyMonotone<T>(s: seq<T>, p: T -> bool, q: T -> bool, x: T)
    requires forall y :: y in s && p(y) ==> q(y)
    requires x in s && !p(x) && q(x)
    ensures Count(s, p) < Count(s, q)
  {
    var init, last := s[..|s| - 1], s[|s| - 1];
    if last == x {
      CountMonotone(init, p, q);
    } else {
      assert x in init;
      CountStrictlyMonotone(init, p, q, x);
    }
  }

  // ----- the order of Go strings

  predicate StringLess(a: string, b: string) {
    if b == [] then false
    else if a == [] then true
    else if a[0] != b[0] then a[0] < b[0]
    else StringLess(a[1..], b[1..])
  }

  // The first byte that differs decides, and a proper prefix comes first.
  lemma {:induction false} StringLessIs(a: string, b: string, k: nat)
    requires k <= |a| && k <= |b| && a[..k] == b[..k]
    ensures k < |a| && k < |b| && a[k] != b[k] ==> (StringLess(a, b) <==> a[k] < b[k])
    ensures k == |a| ==> (StringLess(a, b) <==> |a| < |b|)
  {
    if k > 0 {
      assert a[0] == a[..k][0] == b[..k][0] == b[0];
      assert a[1..][..k - 1] == a[..k][1..] == b[1..][..k - 1];
      StringLessIs(a[1..], b[1..], k - 1);
    }
  }

  lemma {:induction false} StringLessIsIrreflexive(a: string)
    ensures !StringLess(a, a)
  {
    if a != [] {
      StringLessIsIrreflexive(a[1..]);
    }
  }

  lemma {:induction false} StringLessIsTotal(a: string, b: string)
    ensures a == b || StringLess(a, b) || StringLess(b, a)
    ensures !(StringLess(a, b) && StringLess(b, a))
  {
    if a != [] && b != [] {
      StringLessIsTotal(a[1..], b[1..]);
      assert a == [a[0]] + a[1..] && b == [b[0]] + b[1..];
    }
  }

  lemma {:induction false} StringLessIsTransitive(a: string, b: string, c: string)
    requires StringLess(a, b) && StringLess(b, c)
    ensures StringLess(a, c)
  {
    if a != [] && a[0] == b[0] == c[0] {
      StringLessIsTransitive(a[1..], b[1..], c[1..]);
    }
  }
}
