/**
 The merge sort shared by the list macros of src/contrib/uthash/utlist.h and HASH_SRT of
 src/contrib/uthash/uthash.h, as functions on sequences, and its reference: insertion sort.

 cmp(a, b) <= 0 lets a stay in front of b, as in the comparison functions of the macros.
 */
module StableSort {
  import opened Sequences

  // ---------------------------------------------------------- the reference

  /** x, which stood before all of s, goes in front of the first element it may precede. */
  function Insert<T>(x: T, s: seq<T>, cmp: (T, T) -> int): seq<T>
  {
    if s == [] || cmp(x, s[0]) <= 0 then [x] + s else [s[0]] + Insert(x, s[1..], cmp)
  }

  function InsertionSort<T>(s: seq<T>, cmp: (T, T) -> int): (r: seq<T>)
  {
    if s == [] then [] else Insert(s[0], InsertionSort(s[1..], cmp), cmp)
  }

  // ---------------------------------------------------------- the merge sort

  function Merge<T>(a: seq<T>, b: seq<T>, cmp: (T, T) -> int): (r: seq<T>)
    ensures |r| == |a| + |b|
  {
    if a == [] then b
    else if b == [] then a
    else if cmp(a[0], b[0]) <= 0 then [a[0]] + Merge(a[1..], b, cmp)
    else [b[0]] + Merge(a, b[1..], cmp)
  }

  function Take<T>(s: seq<T>, k: nat): seq<T>
  {
    if k <= |s| then s[..k] else s
  }

  function Drop<T>(s: seq<T>, k: nat): seq<T>
  {
    if k <= |s| then s[k..] else []
  }

  /** One pass of the outer loop: runs of k elements are merged two by two. */
  function Pass<T>(s: seq<T>, k: nat, cmp: (T, T) -> int): (r: seq<T>)
    requires k > 0
    ensures |r| == |s|
    decreases |s|
  {
    if s == [] then []
    else
      var rest := Drop(s, k);
      Merge(Take(s, k), Take(rest, k), cmp) + Pass(Drop(rest, k), k, cmp)
  }

  /** The number of merges in a pass. */
  function Merges(n: nat, k: nat): (m: nat)
    requires k > 0
    ensures m <= 1 <==> n <= 2 * k
    ensures m == 0 <==> n == 0
  {
    if n == 0 then 0 else if n <= 2 * k then 1 else 1 + Merges(n - 2 * k, k)
  }

  /** Passes over runs of k, 2k, 4k, ... until a pass needs one merge at most. */
  function BottomUp<T>(s: seq<T>, k: nat, cmp: (T, T) -> int): (r: seq<T>)
    requires k > 0
    ensures |r| == |s|
    decreases if |s| > k then |s| - k else 0
  {
    if Merges(|s|, k) <= 1 then Pass(s, k, cmp) else BottomUp(Pass(s, k, cmp), 2 * k, cmp)
  }

  // ------------------------------------------------- permutation, for any cmp

  lemma {:induction false} ConsPermutes<T>(x: T, a: seq<T>, b: seq<T>, merged: seq<T>)
    requires multiset(merged) == multiset(a) + multiset(b)
    ensures multiset([x] + merged) == multiset([x] + a) + multiset(b)
  {
  }

  lemma {:induction false} MergePermutes<T>(a: seq<T>, b: seq<T>, cmp: (T, T) -> int)
    ensures multiset(Merge(a, b, cmp)) == multiset(a) + multiset(b)
  {
    if a != [] && b != [] {
      if cmp(a[0], b[0]) <= 0 {
        MergePermutes(a[1..], b, cmp);
        ConsPermutes(a[0], a[1..], b, Merge(a[1..], b, cmp));
        assert a == [a[0]] + a[1..];
      } else {
        MergePermutes(a, b[1..], cmp);
        ConsPermutes(b[0], b[1..], a, Merge(a, b[1..], cmp));
        assert b == [b[0]] + b[1..];
      }
    }
  }

  lemma {:induction false} TakeDrop<T>(s: seq<T>, k: nat)
    ensures Take(s, k) + Drop(s, k) == s
    ensures multiset(Take(s, k)) + multiset(Drop(s, k)) == multiset(s)
  {
    assert Take(s, k) + Drop(s, k) == s;
  }

  lemma {:induction false} PassPermutes<T>(s: seq<T>, k: nat, cmp: (T, T) -> int)
    requires k > 0
    ensures multiset(Pass(s, k, cmp)) == multiset(s)
    decreases |s|
  {
    if s != [] {
      var rest := Drop(s, k);
      MergePermutes(Take(s, k), Take(rest, k), cmp);
      PassPermutes(Drop(rest, k), k, cmp);
      TakeDrop(s, k);
      TakeDrop(rest, k);
    }
  }

  /** The sort permutes its input whatever the comparison function answers. */
  lemma {:induction false} BottomUpPermutes<T>(s: seq<T>, k: nat, cmp: (T, T) -> int)
    requires k > 0
    ensures multiset(BottomUp(s, k, cmp)) == multiset(s)
    decreases if |s| > k then |s| - k else 0
  {
    PassPermutes(s, k, cmp);
    if Merges(|s|, k) > 1 {
      BottomUpPermutes(Pass(s, k, cmp), 2 * k, cmp);
    }
  }

  // ---------------------------------------------- equality with the reference

  /** cmp is a total preorder on the elements of s. */
  ghost predicate Preorder<T>(s: seq<T>, cmp: (T, T) -> int)
  {
    && (forall a, b :: a in s && b in s ==> cmp(a, b) <= 0 || cmp(b, a) <= 0)
    && (forall a, b, c :: a in s && b in s && c in s && cmp(a, b) <= 0 && cmp(b, c) <= 0 ==> cmp(a, c) <= 0)
  }

  ghost predicate Sorted<T>(s: seq<T>, cmp: (T, T) -> int)
  {
    forall i, j :: 0 <= i < j < |s| ==> cmp(s[i], s[j]) <= 0
  }

  lemma {:induction false} InsertWithin<T>(x: T, s: seq<T>, cmp: (T, T) -> int, all: seq<T>)
    requires Subset(s, all) && x in all
    ensures Subset(Insert(x, s, cmp), all)
  {
    if s != [] && cmp(x, s[0]) > 0 {
      InsertWithin(x, s[1..], cmp, all);
    }
  }

  ghost predicate Bounds<T>(low: T, s: seq<T>, cmp: (T, T) -> int)
  {
    forall i :: 0 <= i < |s| ==> cmp(low, s[i]) <= 0
  }

  lemma {:induction false} InsertKeepsBound<T>(x: T, s: seq<T>, cmp: (T, T) -> int, low: T)
    requires cmp(low, x) <= 0 && Bounds(low, s, cmp)
    ensures Bounds(low, Insert(x, s, cmp), cmp)
  {
    if s != [] && cmp(x, s[0]) > 0 {
      InsertKeepsBound(x, s[1..], cmp, low);
    }
  }

  lemma {:induction false} SortedCons<T>(x: T, s: seq<T>, cmp: (T, T) -> int)
    requires Bounds(x, s, cmp) && Sorted(s, cmp)
    ensures Sorted([x] + s, cmp)
  {
  }

  lemma {:induction false} FirstBounds<T>(x: T, s: seq<T>, cmp: (T, T) -> int, all: seq<T>)
    requires Preorder(all, cmp) && x in all && Subset(s, all) && Sorted(s, cmp)
    requires s != [] ==> cmp(x, s[0]) <= 0
    ensures Bounds(x, s, cmp)
  {
    forall i | 0 <= i < |s|
      ensures cmp(x, s[i]) <= 0
    {
      assert s[0] in all && s[i] in all;
    }
  }

  lemma {:induction false} InsertSorts<T>(x: T, s: seq<T>, cmp: (T, T) -> int, all: seq<T>)
    requires Preorder(all, cmp) && x in all && Subset(s, all) && Sorted(s, cmp)
    ensures Sorted(Insert(x, s, cmp), cmp)
  {
    if s != [] && cmp(x, s[0]) > 0 {
      InsertSorts(x, s[1..], cmp, all);
      assert s[0] in all;
      InsertKeepsBound(x, s[1..], cmp, s[0]);
      SortedCons(s[0], Insert(x, s[1..], cmp), cmp);
    } else {
      FirstBounds(x, s, cmp, all);
      SortedCons(x, s, cmp);
    }
  }

  lemma {:induction false} InsertionSortSorts<T>(s: seq<T>, cmp: (T, T) -> int, all: seq<T>)
    requires Preorder(all, cmp) && Subset(s, all)
    ensures Sorted(InsertionSort(s, cmp), cmp) && Subset(InsertionSort(s, cmp), all)
  {
    if s != [] {
      InsertionSortSorts(s[1..], cmp, all);
      InsertSorts(s[0], InsertionSort(s[1..], cmp), cmp, all);
      InsertWithin(s[0], InsertionSort(s[1..], cmp), cmp, all);
    }
  }

  /** Inserting into the left list before merging is inserting into the merged list. */
  lemma {:induction false} MergeInsert<T>(x: T, a: seq<T>, b: seq<T>, cmp: (T, T) -> int, all: seq<T>)
    requires Preorder(all, cmp) && x in all && Subset(a, all) && Subset(b, all)
    requires Sorted(a, cmp) && Sorted(b, cmp)
    ensures Merge(Insert(x, a, cmp), b, cmp) == Insert(x, Merge(a, b, cmp), cmp)
    decreases |a| + |b|
  {
    if b == [] {
    } else if a == [] {
      if cmp(x, b[0]) > 0 {
        MergeInsert(x, a, b[1..], cmp, all);
      }
    } else if cmp(x, a[0]) <= 0 {
      if cmp(x, b[0]) > 0 {
        assert cmp(a[0], b[0]) > 0;
        MergeInsert(x, a, b[1..], cmp, all);
      }
    } else if cmp(a[0], b[0]) <= 0 {
      MergeInsert(x, a[1..], b, cmp, all);
    } else {
      assert cmp(x, b[0]) > 0;
      MergeInsert(x, a, b[1..], cmp, all);
    }
  }

  lemma {:induction false} MergeOfSorts<T>(a: seq<T>, b: seq<T>, cmp: (T, T) -> int, all: seq<T>)
    requires Preorder(all, cmp) && Subset(a, all) && Subset(b, all)
    ensures Merge(InsertionSort(a, cmp), InsertionSort(b, cmp), cmp) == InsertionSort(a + b, cmp)
  {
    if a == [] {
      assert a + b == b;
    } else {
      assert (a + b)[1..] == a[1..] + b;
      MergeOfSorts(a[1..], b, cmp, all);
      InsertionSortSorts(a[1..], cmp, all);
      InsertionSortSorts(b, cmp, all);
      MergeInsert(a[0], InsertionSort(a[1..], cmp), InsertionSort(b, cmp), cmp, all);
    }
  }

  lemma {:induction false} InsertionSortLength<T>(s: seq<T>, cmp: (T, T) -> int)
    ensures |InsertionSort(s, cmp)| == |s|
  {
    if s != [] {
      InsertionSortLength(s[1..], cmp);
      InsertLength(s[0], InsertionSort(s[1..], cmp), cmp);
    }
  }

  lemma {:induction false} InsertLength<T>(x: T, s: seq<T>, cmp: (T, T) -> int)
    ensures |Insert(x, s, cmp)| == |s| + 1
  {
    if s != [] && cmp(x, s[0]) > 0 {
      InsertLength(x, s[1..], cmp);
    }
  }

  /** s with every run of k elements sorted on its own. */
  function SortedRuns<T>(s: seq<T>, k: nat, cmp: (T, T) -> int): (r: seq<T>)
    requires k > 0
    decreases |s|
  {
    if s == [] then [] else InsertionSort(Take(s, k), cmp) + SortedRuns(Drop(s, k), k, cmp)
  }

  lemma {:induction false} RunsOfOne<T>(s: seq<T>, cmp: (T, T) -> int)
    ensures SortedRuns(s, 1, cmp) == s
  {
    if s != [] {
      RunsOfOne(s[1..], cmp);
      assert InsertionSort(s[..1][1..], cmp) == [];
      assert InsertionSort(s[..1], cmp) == [s[0]];
    }
  }

  lemma {:induction false} RunsLength<T>(s: seq<T>, k: nat, cmp: (T, T) -> int)
    requires k > 0
    ensures |SortedRuns(s, k, cmp)| == |s|
    decreases |s|
  {
    if s != [] {
      InsertionSortLength(Take(s, k), cmp);
      RunsLength(Drop(s, k), k, cmp);
    }
  }

  /** One pass turns sorted runs of k into sorted runs of 2k. */
  lemma {:induction false} PassDoublesRuns<T>(s: seq<T>, k: nat, cmp: (T, T) -> int, all: seq<T>)
    requires k > 0 && Preorder(all, cmp) && Subset(s, all)
    ensures Pass(SortedRuns(s, k, cmp), k, cmp) == SortedRuns(s, 2 * k, cmp)
    decreases |s|
  {
    if s != [] {
      var rest := Drop(s, k);
      var a, b, c := Take(s, k), Take(rest, k), Drop(rest, k);
      RunsLength(s, k, cmp);
      RunsSplit(s, k, cmp);
      RunsSplit(rest, k, cmp);
      MergeOfSorts(a, b, cmp, all);
      PassDoublesRuns(c, k, cmp, all);
      TakeTwice(s, k);
    }
  }

  lemma {:induction false} TakeTwice<T>(s: seq<T>, k: nat)
    ensures Take(s, 2 * k) == Take(s, k) + Take(Drop(s, k), k)
    ensures Drop(s, 2 * k) == Drop(Drop(s, k), k)
  {
  }

  lemma {:induction false} RunsSplit<T>(s: seq<T>, k: nat, cmp: (T, T) -> int)
    requires k > 0
    ensures Take(SortedRuns(s, k, cmp), k) == InsertionSort(Take(s, k), cmp)
    ensures Drop(SortedRuns(s, k, cmp), k) == SortedRuns(Drop(s, k), k, cmp)
  {
    InsertionSortLength(Take(s, k), cmp);
    RunsLength(Drop(s, k), k, cmp);
  }

  lemma {:induction false} BottomUpOfRuns<T>(s: seq<T>, k: nat, cmp: (T, T) -> int)
    requires k > 0 && Preorder(s, cmp)
    ensures BottomUp(SortedRuns(s, k, cmp), k, cmp) == InsertionSort(s, cmp)
    decreases if |s| > k then |s| - k else 0
  {
    RunsLength(s, k, cmp);
    PassDoublesRuns(s, k, cmp, s);
    if Merges(|s|, k) > 1 {
      BottomUpOfRuns(s, 2 * k, cmp);
    } else if s != [] {
      TakeDrop(s, 2 * k);
      assert Take(s, 2 * k) == s;
    }
  }

  /** On a total preorder the merge sort is the reference. */
  lemma {:induction false} BottomUpIsInsertionSort<T>(s: seq<T>, cmp: (T, T) -> int)
    requires Preorder(s, cmp)
    ensures BottomUp(s, 1, cmp) == InsertionSort(s, cmp)
  {
    RunsOfOne(s, cmp);
    BottomUpOfRuns(s, 1, cmp);
  }

  // ---------------------------------------------------------------- stability

  predicate Equivalent<T>(a: T, b: T, cmp: (T, T) -> int)
  {
    cmp(a, b) <= 0 && cmp(b, a) <= 0
  }

  /** The elements of s equivalent to x, in their order. */
  function ClassOf<T>(s: seq<T>, x: T, cmp: (T, T) -> int): seq<T>
  {
    if s == [] then []
    else (if Equivalent(x, s[0], cmp) then [s[0]] else []) + ClassOf(s[1..], x, cmp)
  }

  lemma {:induction false} ClassOfCons<T>(y: T, s: seq<T>, x: T, cmp: (T, T) -> int)
    ensures ClassOf([y] + s, x, cmp) == (if Equivalent(x, y, cmp) then [y] else []) + ClassOf(s, x, cmp)
  {
    assert ([y] + s)[1..] == s;
  }

  lemma {:induction false} InsertKeepsClasses<T>(y: T, s: seq<T>, x: T, cmp: (T, T) -> int, all: seq<T>)
    requires Preorder(all, cmp) && x in all && y in all && Subset(s, all)
    ensures ClassOf(Insert(y, s, cmp), x, cmp) == (if Equivalent(x, y, cmp) then [y] else []) + ClassOf(s, x, cmp)
  {
    if s == [] || cmp(y, s[0]) <= 0 {
      ClassOfCons(y, s, x, cmp);
    } else {
      ClassOfCons(s[0], Insert(y, s[1..], cmp), x, cmp);
      InsertKeepsClasses(y, s[1..], x, cmp, all);
      assert s[0] in all;
      assert !(Equivalent(x, y, cmp) && Equivalent(x, s[0], cmp));
    }
  }

  /** Sorted, a permutation, and stable: what the sort macros promise for a total preorder. */
  lemma {:induction false} InsertionSortIsStable<T>(s: seq<T>, x: T, cmp: (T, T) -> int, all: seq<T>)
    requires Preorder(all, cmp) && x in all && Subset(s, all)
    ensures ClassOf(InsertionSort(s, cmp), x, cmp) == ClassOf(s, x, cmp)
  {
    if s != [] {
      InsertionSortSorts(s[1..], cmp, all);
      InsertionSortIsStable(s[1..], x, cmp, all);
      InsertKeepsClasses(s[0], InsertionSort(s[1..], cmp), x, cmp, all);
    }
  }

  lemma {:induction false} SortContract<T>(s: seq<T>, cmp: (T, T) -> int)
    requires Preorder(s, cmp)
    ensures Sorted(BottomUp(s, 1, cmp), cmp)
    ensures multiset(BottomUp(s, 1, cmp)) == multiset(s)
    ensures forall x :: x in s ==> ClassOf(BottomUp(s, 1, cmp), x, cmp) == ClassOf(s, x, cmp)
  {
    BottomUpIsInsertionSort(s, cmp);
    BottomUpPermutes(s, 1, cmp);
    InsertionSortSorts(s, cmp, s);
    forall x | x in s
      ensures ClassOf(InsertionSort(s, cmp), x, cmp) == ClassOf(s, x, cmp)
    {
      InsertionSortIsStable(s, x, cmp, s);
    }
  }
}
