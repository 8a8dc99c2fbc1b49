/**
 The in-place merge sort of src/contrib/uthash/utlist.h on heap nodes, for its three list
 shapes: singly linked, doubly linked with head.prev == tail, and circular.

 The three macros share their loops. `end` is what next holds in the last node of the input:
 null, or the old head of a circular list; `double` says whether prev links are rewritten.
 The ghost sequences name the nodes of the parts of the list.
 */
module UtList {
  import opened Sequences
  import opened StableSort

  /** An element with two pairs of links: the list macros rewrite next and prev, and the hash table also threads
      it through a bucket by hhNext and hhPrev. */
  class Node<V> {
    const val: V
    var next: Node?<V>
    var prev: Node?<V>
    var hhNext: Node?<V>
    var hhPrev: Node?<V>

    constructor (val: V)
      ensures this.val == val && next == null && prev == null && hhNext == null && hhPrev == null
    {
      this.val := val;
      next, prev, hhNext, hhPrev := null, null, null, null;
    }
  }

  ghost predicate Apart<T>(a: seq<T>, b: seq<T>)
  {
    forall i :: 0 <= i < |b| ==> b[i] !in a
  }

  /** next leads from each node of s to the following one. */
  ghost predicate Chain<V>(s: seq<Node<V>>)
    reads s`next
  {
    forall i {:trigger s[i].next} :: 0 <= i < |s| - 1 ==> s[i].next == s[i+1]
  }

  function Before<V>(s: seq<Node<V>>, i: nat): Node?<V>
    requires i < |s|
  {
    if i == 0 then null else s[i-1]
  }

  /** prev leads back, from the first node to null. */
  ghost predicate BackChain<V>(s: seq<Node<V>>)
    reads s`prev
  {
    forall i {:trigger s[i].prev} :: 0 <= i < |s| ==> s[i].prev == Before(s, i)
  }

  function First<V>(s: seq<Node<V>>): Node?<V>
  {
    if s == [] then null else s[0]
  }

  function Last<V>(s: seq<Node<V>>): Node?<V>
  {
    if s == [] then null else s[|s|-1]
  }

  /** end occurs nowhere in s but possibly at its start. */
  ghost predicate EndOutside<V>(s: seq<Node<V>>, end: Node?<V>)
  {
    forall i :: 0 < i < |s| ==> s[i] != end
  }

  /** The successor of a node that is not past the end. */
  function Step<V>(n: Node<V>, end: Node?<V>): Node?<V>
    reads n`next
  {
    if n.next == end then null else n.next
  }

  /** A list that is still to be merged. */
  ghost predicate Input<V>(s: seq<Node<V>>, end: Node?<V>)
    reads s`next
  {
    Distinct(s) && Chain(s) && EndOutside(s, end) && (s != [] ==> s[|s|-1].next == end)
  }

  /** The part that has been merged. */
  ghost predicate Output<V>(out: seq<Node<V>>, double: bool)
    reads out`next, out`prev
  {
    Distinct(out) && Chain(out) && (double ==> BackChain(out))
  }

  // -------------------------------------------------------------- one merge

  /** Steps q over a run of k nodes and counts them. */
  method SkipRun<V>(p: Node<V>, k: nat, end: Node?<V>, ghost s: seq<Node<V>>) returns (q: Node?<V>, psize: nat)
    requires k > 0 && Input(s, end) && s != [] && p == s[0]
    ensures psize == |Take(s, k)| && q == First(Drop(s, k))
  {
    q := p;
    psize := 0;
    for i := 0 to k
      invariant i == psize < |s| && q == s[i]
    {
      assert i + 1 < |s| ==> s[i].next == s[i+1] && s[i+1] != end;
      psize := psize + 1;
      q := Step(q, end);
      if q == null {
        break;
      }
    }
  }

  /** The parts during a merge: out is merged, pl is left of the left run, qr is what follows it. */
  ghost predicate Merging<V>(out: seq<Node<V>>, pl: seq<Node<V>>, qr: seq<Node<V>>, end: Node?<V>, double: bool)
    reads out`next, out`prev, pl`next, qr`next
  {
    && Output(out, double)
    && Distinct(pl) && Chain(pl) && EndOutside(pl, end)
    && Input(qr, end) && (qr != [] ==> qr[0] != end)
    && Apart(out, pl) && Apart(out, qr) && Apart(pl, qr)
  }

  lemma {:induction false} TakeLeft<V>(out: seq<Node<V>>, pl: seq<Node<V>>, qr: seq<Node<V>>, end: Node?<V>,
          double: bool)
    requires Merging(out, pl, qr, end, double) && pl != []
    ensures Merging(out, pl[1..], qr, end, double)
    ensures pl[0] !in out && pl[0] !in pl[1..] && pl[0] !in qr
    ensures |pl| > 1 ==> Step(pl[0], end) == pl[1]
  {
  }

  lemma {:induction false} TakeRight<V>(out: seq<Node<V>>, pl: seq<Node<V>>, qr: seq<Node<V>>, end: Node?<V>,
          double: bool)
    requires Merging(out, pl, qr, end, double) && qr != []
    ensures Merging(out, pl, qr[1..], end, double)
    ensures qr[0] !in out && qr[0] !in pl && qr[0] !in qr[1..]
    ensures Step(qr[0], end) == First(qr[1..])
  {
  }

  lemma {:induction false} OutputGrows<V>(out: seq<Node<V>>, e: Node<V>, double: bool)
    requires Distinct(out) && e !in out && Chain(out) && (out != [] ==> out[|out|-1].next == e)
    requires double ==> BackChain(out) && e.prev == Last(out)
    ensures Output(out + [e], double)
  {
    var all := out + [e];
    assert forall i :: 0 <= i < |out| ==> all[i] == out[i] && out[i] in out;
    assert forall i :: 0 <= i < |out| ==> Before(all, i) == Before(out, i);
  }

  /** Links e behind the merged part. */
  method Link<V>(e: Node<V>, list: Node?<V>, tail: Node?<V>, double: bool, ghost out: seq<Node<V>>)
    returns (list': Node?<V>)
    requires Output(out, double) && e !in out && list == First(out) && tail == Last(out)
    modifies out`next, (if double then {e} else {})`prev
    ensures Output(out + [e], double) && list' == First(out + [e])
  {
    list' := list;
    if tail != null {
      tail.next := e;
    } else {
      list' := e;
    }
    if double {
      e.prev := tail;
    }
    assert forall i :: 0 <= i < |out| ==> out[i] in out;
    OutputGrows(out, e, double);
  }

  /** Links e behind the merged part while pl and qr wait to be merged. */
  method Append<V>(e: Node<V>, list: Node?<V>, tail: Node?<V>, end: Node?<V>, double: bool,
                   ghost out: seq<Node<V>>, ghost pl: seq<Node<V>>, ghost qr: seq<Node<V>>)
    returns (list': Node?<V>)
    requires Merging(out, pl, qr, end, double) && list == First(out) && tail == Last(out)
    requires e !in out && e !in pl && e !in qr
    modifies out`next, (if double then {e} else {})`prev
    ensures Merging(out + [e], pl, qr, end, double) && list' == First(out + [e])
  {
    list' := Link(e, list, tail, double, out);
  }

  /** Which run the inner loop takes its next element from. */
  lemma {:induction false} LeftStep<T>(out: seq<T>, pl: seq<T>, qr: seq<T>, k: nat, cmp: (T, T) -> int)
    requires pl != [] && (k == 0 || qr == [] || cmp(pl[0], qr[0]) <= 0)
    ensures out + Merge(pl, Take(qr, k), cmp) == out + [pl[0]] + Merge(pl[1..], Take(qr, k), cmp)
  {
    var b := Take(qr, k);
    assert b == [] ==> Merge(pl[1..], b, cmp) == pl[1..];
    assert Merge(pl, b, cmp) == [pl[0]] + Merge(pl[1..], b, cmp);
  }

  lemma {:induction false} RightStep<T>(out: seq<T>, pl: seq<T>, qr: seq<T>, k: nat, cmp: (T, T) -> int)
    requires k > 0 && qr != [] && (pl == [] || cmp(pl[0], qr[0]) > 0)
    ensures out + Merge(pl, Take(qr, k), cmp) == out + [qr[0]] + Merge(pl, Take(qr[1..], k - 1), cmp)
    ensures Drop(qr[1..], k - 1) == Drop(qr, k)
  {
    var b, b' := Take(qr, k), Take(qr[1..], k - 1);
    assert b[1..] == b' && b[0] == qr[0];
    assert Merge(pl, b, cmp) == [b[0]] + Merge(pl, b', cmp);
  }

  lemma {:induction false} NothingLeft<T>(out: seq<T>, qr: seq<T>, k: nat, cmp: (T, T) -> int)
    requires k == 0 || qr == []
    ensures out + Merge([], Take(qr, k), cmp) == out && Drop(qr, k) == qr
  {
  }

  ghost predicate AllIn<V>(s: seq<Node<V>>, nodes: set<Node<V>>)
  {
    forall i :: 0 <= i < |s| ==> s[i] in nodes
  }

  /** The inner loop: merges the run of psize0 nodes at p0 with at most k nodes at q0, behind tail0. */
  method MergeRuns<V>(p0: Node<V>, psize0: nat, q0: Node?<V>, k: nat, list0: Node?<V>, tail0: Node?<V>,
                      end: Node?<V>, double: bool, cmp: (Node<V>, Node<V>) -> int, ghost nodes: set<Node<V>>,
                      ghost out0: seq<Node<V>>, ghost pl0: seq<Node<V>>, ghost qr0: seq<Node<V>>)
    returns (list: Node?<V>, tail: Node?<V>, q: Node?<V>, ghost out: seq<Node<V>>)
    requires Merging(out0, pl0, qr0, end, double) && pl0 != []
    requires p0 == pl0[0] && psize0 == |pl0| && q0 == First(qr0) && list0 == First(out0) && tail0 == Last(out0)
    requires AllIn(out0, nodes) && AllIn(pl0, nodes) && AllIn(qr0, nodes)
    modifies nodes`next, (if double then nodes else {})`prev
    ensures out == out0 + Merge(pl0, Take(qr0, k), cmp) && Merging(out, [], Drop(qr0, k), end, double)
    ensures list == First(out) && tail == Last(out) && q == First(Drop(qr0, k))
    ensures AllIn(out, nodes)
  {
    hide Merging, Output, Merge, Take, Drop;
    var p: Node?<V>, psize, qsize := p0, psize0, k;
    list, tail, q := list0, tail0, q0;
    out := out0;
    ghost var pl, qr := pl0, qr0;
    while psize != 0 || (qsize != 0 && q != null)
      invariant Merging(out, pl, qr, end, double)
      invariant psize == |pl| && (pl != [] ==> p == pl[0]) && q == First(qr)
      invariant list == First(out) && tail == Last(out)
      invariant AllIn(out, nodes) && AllIn(pl, nodes) && AllIn(qr, nodes)
      invariant out + Merge(pl, Take(qr, qsize), cmp) == out0 + Merge(pl0, Take(qr0, k), cmp)
      invariant Drop(qr, qsize) == Drop(qr0, k)
      decreases psize + |qr|
    {
      var e: Node<V>;
      if psize == 0 || (qsize != 0 && q != null && cmp(p, q) > 0) {
        TakeRight(out, pl, qr, end, double);
        RightStep(out, pl, qr, qsize, cmp);
        e := q;
        q := Step(q, end);
        qsize := qsize - 1;
        qr := qr[1..];
      } else {
        TakeLeft(out, pl, qr, end, double);
        LeftStep(out, pl, qr, qsize, cmp);
        e := p;
        p := Step(p, end);
        psize := psize - 1;
        pl := pl[1..];
      }
      list := Append(e, list, tail, end, double, out, pl, qr);
      tail := e;
      out := out + [e];
    }
    NothingLeft(out, qr, qsize, cmp);
  }

  // --------------------------------------------------------------- one pass

  lemma {:induction false} SplitInput<V>(out: seq<Node<V>>, s: seq<Node<V>>, k: nat, end: Node?<V>, double: bool)
    requires k > 0 && Output(out, double) && Input(s, end) && Apart(out, s)
    ensures Merging(out, Take(s, k), Drop(s, k), end, double)
  {
  }

  lemma {:induction false} PassUnfolds<T>(out: seq<T>, s: seq<T>, k: nat, cmp: (T, T) -> int)
    requires k > 0 && s != []
    ensures out + Pass(s, k, cmp)
            == out + Merge(Take(s, k), Take(Drop(s, k), k), cmp) + Pass(Drop(Drop(s, k), k), k, cmp)
  {
    hide Take, Drop, Merge;
    var merged, rest := Merge(Take(s, k), Take(Drop(s, k), k), cmp), Pass(Drop(Drop(s, k), k), k, cmp);
    assert Pass(s, k, cmp) == merged + rest;
    assert out + (merged + rest) == out + merged + rest;
  }

  lemma {:induction false} PassShrinks<T>(s: seq<T>, k: nat)
    requires k > 0 && s != []
    ensures |Drop(Drop(s, k), k)| == if |s| <= 2 * k then 0 else |s| - 2 * k
    ensures Merges(|s|, k) == 1 + Merges(|Drop(Drop(s, k), k)|, k)
  {
  }

  lemma {:induction false} AllInParts<V>(s: seq<Node<V>>, nodes: set<Node<V>>, k: nat)
    requires AllIn(s, nodes)
    ensures AllIn(Take(s, k), nodes) && AllIn(Drop(s, k), nodes)
  {
  }

  lemma {:induction false} MergedInput<V>(out: seq<Node<V>>, rest: seq<Node<V>>, end: Node?<V>, double: bool)
    requires Merging(out, [], rest, end, double)
    ensures Output(out, double) && Input(rest, end) && Apart(out, rest)
  {
  }

  /** One turn of the sort's main loop: merges runs of k nodes all along the list. */
  method MergePass<V>(list0: Node<V>, k: nat, end: Node?<V>, double: bool, cmp: (Node<V>, Node<V>) -> int,
                      ghost s: seq<Node<V>>, ghost nodes: set<Node<V>>)
    returns (list: Node<V>, tail: Node<V>, nmerges: nat, ghost out: seq<Node<V>>)
    requires k > 0 && Input(s, end) && s != [] && list0 == s[0] && AllIn(s, nodes)
    modifies nodes`next, (if double then nodes else {})`prev
    ensures out == Pass(s, k, cmp) && Output(out, double) && AllIn(out, nodes)
    ensures list == out[0] && tail == out[|out|-1] && nmerges == Merges(|s|, k)
  {
    hide Merging, Output, Input, Apart, Pass, Merge, Merges, Take, Drop;
    var p: Node?<V>, head: Node?<V>, last: Node?<V> := list0, null, null;
    nmerges := 0;
    out := [];
    ghost var rest := s;
    EmptyOutput<V>(s, double);
    while p != null
      invariant p == First(rest) && head == First(out) && last == Last(out)
      invariant Output(out, double) && Input(rest, end) && Apart(out, rest)
      invariant AllIn(out, nodes) && AllIn(rest, nodes)
      invariant out + Pass(rest, k, cmp) == Pass(s, k, cmp)
      invariant nmerges + Merges(|rest|, k) == Merges(|s|, k)
      decreases |rest|
    {
      nmerges := nmerges + 1;
      SplitInput(out, rest, k, end, double);
      PassUnfolds(out, rest, k, cmp);
      PassShrinks(rest, k);
      AllInParts(rest, nodes, k);
      AllInParts(Drop(rest, k), nodes, k);
      FirstOfTake(rest, k);
      var q, psize := SkipRun(p, k, end, rest);
      head, last, p, out := MergeRuns(p, psize, q, k, head, last, end, double, cmp, nodes,
                                     out, Take(rest, k), Drop(rest, k));
      rest := Drop(Drop(rest, k), k);
      MergedInput(out, rest, end, double);
    }
    PassOfNone(out, s, k, cmp);
    list, tail := head, last;
  }

  lemma {:induction false} EmptyOutput<V>(s: seq<Node<V>>, double: bool)
    ensures Output<V>([], double) && Apart([], s)
  {
  }

  lemma {:induction false} FirstOfTake<T>(s: seq<T>, k: nat)
    requires k > 0 && s != []
    ensures Take(s, k) != [] && Take(s, k)[0] == s[0]
  {
  }

  lemma {:induction false} PassOfNone<T>(out: seq<T>, s: seq<T>, k: nat, cmp: (T, T) -> int)
    requires k > 0
    ensures out + Pass([], k, cmp) == out && Merges(0, k) == 0 && |Pass(s, k, cmp)| == |s|
  {
  }

  // -------------------------------------------------------------- the sorts

  /** A singly linked list: next leads through s to null. */
  ghost predicate SinglyLinked<V>(list: Node?<V>, s: seq<Node<V>>)
    reads s`next
  {
    list == First(s) && Distinct(s) && Chain(s) && (s != [] ==> s[|s|-1].next == null)
  }

  /** A doubly linked list: also prev leads back, and from the head to the tail. */
  ghost predicate DoublyLinked<V>(list: Node?<V>, s: seq<Node<V>>)
    reads s`next, s`prev
  {
    && SinglyLinked(list, s)
    && (s != [] ==> s[0].prev == s[|s|-1])
    && forall i {:trigger s[i].prev} :: 0 < i < |s| ==> s[i].prev == Before(s, i)
  }

  /** A ring: next and prev lead around. */
  ghost predicate CircularlyLinked<V>(list: Node?<V>, s: seq<Node<V>>)
    reads s`next, s`prev
  {
    && list == First(s) && Distinct(s) && Chain(s)
    && (s != [] ==> s[|s|-1].next == s[0] && s[0].prev == s[|s|-1])
    && forall i {:trigger s[i].prev} :: 0 < i < |s| ==> s[i].prev == Before(s, i)
  }

  /** What is left to sort when the next pass has runs of k nodes. */
  ghost predicate StillToSort<V>(cur: seq<Node<V>>, k: nat, looping: bool, s: seq<Node<V>>,
          cmp: (Node<V>, Node<V>) -> int)
  {
    && k > 0 && cur != [] && |cur| == |s|
    && (if looping then BottomUp(cur, k, cmp) else cur) == BottomUp(s, 1, cmp)
  }

  function Headroom(n: nat, k: nat): nat
  {
    if n > k then n - k else 0
  }

  lemma {:induction false} NextPass<V>(cur: seq<Node<V>>, k: nat, s: seq<Node<V>>, cmp: (Node<V>, Node<V>) -> int)
    requires StillToSort(cur, k, true, s, cmp)
    ensures StillToSort(Pass(cur, k, cmp), 2 * k, Merges(|cur|, k) > 1, s, cmp)
    ensures |Pass(cur, k, cmp)| == |cur|
    ensures Merges(|cur|, k) > 1 ==> Headroom(|cur|, 2 * k) < Headroom(|cur|, k)
  {
  }

  lemma {:induction false} SortsNothing<V>(s: seq<Node<V>>, cmp: (Node<V>, Node<V>) -> int)
    ensures s == [] ==> BottomUp(s, 1, cmp) == s
    ensures s != [] ==> StillToSort(s, 1, true, s, cmp)
  {
  }

  lemma {:induction false} NothingLeftToSort<V>(cur: seq<Node<V>>, k: nat, s: seq<Node<V>>,
          cmp: (Node<V>, Node<V>) -> int)
    requires StillToSort(cur, k, false, s, cmp)
    ensures cur == BottomUp(s, 1, cmp)
  {
  }

  /** Makes head.prev the tail, and sets the last next link. */
  method Close<V>(list: Node<V>, tail: Node<V>, end: Node?<V>, ghost out: seq<Node<V>>)
    requires Output(out, true) && out != [] && list == out[0] && tail == out[|out|-1]
    modifies list`prev, tail`next
    ensures Distinct(out) && Chain(out) && list.prev == tail && tail.next == end
    ensures forall i {:trigger out[i].prev} :: 0 < i < |out| ==> out[i].prev == Before(out, i)
  {
    assert forall i :: 0 < i < |out| ==> out[i] != list;
    assert forall i :: 0 <= i < |out| - 1 ==> out[i] != tail;
    list.prev := tail;
    tail.next := end;
  }

  /** A pass of LL_SORT2, which ends by terminating the list. */
  method SinglyLinkedPass<V>(list0: Node<V>, k: nat, cmp: (Node<V>, Node<V>) -> int, ghost s: seq<Node<V>>,
          ghost nodes: set<Node<V>>)
    returns (list: Node<V>, nmerges: nat, ghost out: seq<Node<V>>)
    requires k > 0 && SinglyLinked(list0, s) && s != [] && AllIn(s, nodes)
    modifies nodes`next
    ensures out == Pass(s, k, cmp) && SinglyLinked(list, out) && AllIn(out, nodes) && nmerges == Merges(|s|, k)
  {
    hide Pass, Merges;
    var tail;
    list, tail, nmerges, out := MergePass(list0, k, null, false, cmp, s, nodes);
    tail.next := null;
  }

  /** A pass of DL_SORT2, which also makes head.prev the tail. */
  method DoublyLinkedPass<V>(list0: Node<V>, k: nat, cmp: (Node<V>, Node<V>) -> int, ghost s: seq<Node<V>>,
          ghost nodes: set<Node<V>>)
    returns (list: Node<V>, nmerges: nat, ghost out: seq<Node<V>>)
    requires k > 0 && DoublyLinked(list0, s) && s != [] && AllIn(s, nodes)
    modifies nodes`next, nodes`prev
    ensures out == Pass(s, k, cmp) && DoublyLinked(list, out) && AllIn(out, nodes) && nmerges == Merges(|s|, k)
  {
    hide Pass, Merges;
    var tail;
    list, tail, nmerges, out := MergePass(list0, k, null, true, cmp, s, nodes);
    Close(list, tail, null, out);
  }

  /** A pass of CDL_SORT2, which closes the ring again. */
  method CircularlyLinkedPass<V>(list0: Node<V>, k: nat, cmp: (Node<V>, Node<V>) -> int, ghost s: seq<Node<V>>,
          ghost nodes: set<Node<V>>)
    returns (list: Node<V>, nmerges: nat, ghost out: seq<Node<V>>)
    requires k > 0 && CircularlyLinked(list0, s) && s != [] && AllIn(s, nodes)
    modifies nodes`next, nodes`prev
    ensures out == Pass(s, k, cmp) && CircularlyLinked(list, out) && AllIn(out, nodes) && nmerges == Merges(|s|, k)
  {
    hide Pass, Merges;
    var tail;
    list, tail, nmerges, out := MergePass(list0, k, list0, true, cmp, s, nodes);
    Close(list, tail, list, out);
  }

  lemma {:induction false} SinglyLinkedHead<V>(list: Node?<V>, s: seq<Node<V>>)
    requires SinglyLinked(list, s)
    ensures list == First(s)
  {
  }

  lemma {:induction false} DoublyLinkedHead<V>(list: Node?<V>, s: seq<Node<V>>)
    requires DoublyLinked(list, s)
    ensures list == First(s)
  {
  }

  lemma {:induction false} CircularlyLinkedHead<V>(list: Node?<V>, s: seq<Node<V>>)
    requires CircularlyLinked(list, s)
    ensures list == First(s)
  {
  }

  /** LL_SORT2. */
  method SortSinglyLinked<V>(list0: Node?<V>, cmp: (Node<V>, Node<V>) -> int, ghost s: seq<Node<V>>,
          ghost nodes: set<Node<V>>)
    returns (list: Node?<V>, ghost sorted: seq<Node<V>>)
    requires SinglyLinked(list0, s) && AllIn(s, nodes)
    modifies nodes`next
    ensures sorted == BottomUp(s, 1, cmp) && SinglyLinked(list, sorted) && AllIn(sorted, nodes)
  {
    hide BottomUp, StillToSort, Merges, Pass, Headroom, SinglyLinked;
    list := list0;
    sorted := s;
    assert list == First(s) by { SinglyLinkedHead(list, s); }
    SortsNothing(s, cmp);
    if list != null {
      var insize: nat, looping := 1, true;
      while looping
        invariant StillToSort(sorted, insize, looping, s, cmp) && insize > 0 && |sorted| == |s| > 0
        invariant SinglyLinked(list, sorted) && list != null && AllIn(sorted, nodes)
        decreases looping, Headroom(|s|, insize)
      {
        NextPass(sorted, insize, s, cmp);
        var head, nmerges;
        head, nmerges, sorted := SinglyLinkedPass(list, insize, cmp, sorted, nodes);
        list := head;
        if nmerges <= 1 {
          looping := false;
        }
        insize := insize * 2;
      }
      NothingLeftToSort(sorted, insize, s, cmp);
    }
  }

  /** DL_SORT2. */
  method SortDoublyLinked<V>(list0: Node?<V>, cmp: (Node<V>, Node<V>) -> int, ghost s: seq<Node<V>>,
          ghost nodes: set<Node<V>>)
    returns (list: Node?<V>, ghost sorted: seq<Node<V>>)
    requires DoublyLinked(list0, s) && AllIn(s, nodes)
    modifies nodes`next, nodes`prev
    ensures sorted == BottomUp(s, 1, cmp) && DoublyLinked(list, sorted) && AllIn(sorted, nodes)
  {
    hide BottomUp, StillToSort, Merges, Pass, Headroom, DoublyLinked;
    list := list0;
    sorted := s;
    assert list == First(s) by { DoublyLinkedHead(list, s); }
    SortsNothing(s, cmp);
    if list != null {
      var insize: nat, looping := 1, true;
      while looping
        invariant StillToSort(sorted, insize, looping, s, cmp) && insize > 0 && |sorted| == |s| > 0
        invariant DoublyLinked(list, sorted) && list != null && AllIn(sorted, nodes)
        decreases looping, Headroom(|s|, insize)
      {
        NextPass(sorted, insize, s, cmp);
        var head, nmerges;
        head, nmerges, sorted := DoublyLinkedPass(list, insize, cmp, sorted, nodes);
        list := head;
        if nmerges <= 1 {
          looping := false;
        }
        insize := insize * 2;
      }
      NothingLeftToSort(sorted, insize, s, cmp);
    }
  }

  /** CDL_SORT2. */
  method SortCircularlyLinked<V>(list0: Node?<V>, cmp: (Node<V>, Node<V>) -> int, ghost s: seq<Node<V>>,
          ghost nodes: set<Node<V>>)
    returns (list: Node?<V>, ghost sorted: seq<Node<V>>)
    requires CircularlyLinked(list0, s) && AllIn(s, nodes)
    modifies nodes`next, nodes`prev
    ensures sorted == BottomUp(s, 1, cmp) && CircularlyLinked(list, sorted) && AllIn(sorted, nodes)
  {
    hide BottomUp, StillToSort, Merges, Pass, Headroom, CircularlyLinked;
    list := list0;
    sorted := s;
    assert list == First(s) by { CircularlyLinkedHead(list, s); }
    SortsNothing(s, cmp);
    if list != null {
      var insize: nat, looping := 1, true;
      while looping
        invariant StillToSort(sorted, insize, looping, s, cmp) && insize > 0 && |sorted| == |s| > 0
        invariant CircularlyLinked(list, sorted) && list != null && AllIn(sorted, nodes)
        decreases looping, Headroom(|s|, insize)
      {
        NextPass(sorted, insize, s, cmp);
        var head, nmerges;
        head, nmerges, sorted := CircularlyLinkedPass(list, insize, cmp, sorted, nodes);
        list := head;
        if nmerges <= 1 {
          looping := false;
        }
        insize := insize * 2;
      }
      NothingLeftToSort(sorted, insize, s, cmp);
    }
  }
}
