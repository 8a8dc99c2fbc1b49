/**
 The pointer surgery of src/contrib/uthash/uthash.h: one bucket chain, and the list of all
 items in the order in which they were added.
 */
module UtHashLinks {
  import opened Sequences
  import opened UtList

  /** UT_hash_bucket. */
  datatype Bucket<!V> = Bucket(hhHead: Node?<V>, count: nat, expandMult: nat)

  function After<V>(s: seq<Node<V>>, i: nat): Node?<V>
  {
    if i + 1 < |s| then s[i+1] else null
  }

  /** hhNext and hhPrev lead along the chain, from null to null. */
  ghost predicate Threaded<V>(chain: seq<Node<V>>)
    reads chain`hhNext, chain`hhPrev
  {
    && Distinct(chain)
    && (forall i {:trigger chain[i].hhNext} :: 0 <= i < |chain| ==> chain[i].hhNext == After(chain, i))
    && (forall i {:trigger chain[i].hhPrev} :: 0 <= i < |chain| ==> chain[i].hhPrev == Before(chain, i))
  }

  ghost predicate BucketOk<V>(b: Bucket<V>, chain: seq<Node<V>>)
    reads chain`hhNext, chain`hhPrev
  {
    b.hhHead == First(chain) && b.count == |chain| && Threaded(chain)
  }

  // ------------------------------------------------------------- the buckets

  /** The head of HASH_ADD_TO_BKT, and of the body of HASH_EXPAND_BUCKETS: puts x in front of its chain. */
  method PushFront<V>(bkt: Bucket<V>, x: Node<V>, ghost chain: seq<Node<V>>) returns (b: Bucket<V>)
    requires BucketOk(bkt, chain) && x !in chain
    modifies x`hhNext, x`hhPrev, (if chain == [] then {} else {chain[0]})`hhPrev
    ensures BucketOk(b, [x] + chain) && b.expandMult == bkt.expandMult
  {
    x.hhNext := bkt.hhHead;
    x.hhPrev := null;
    if bkt.hhHead != null {
      bkt.hhHead.hhPrev := x;
    }
    b := bkt.(count := bkt.count + 1, hhHead := x);
    assert forall i :: 0 <= i < |chain| ==> chain[i] in chain;
    ThreadedCons(x, chain);
  }

  lemma {:induction false} ThreadedCons<V>(x: Node<V>, chain: seq<Node<V>>)
    requires Distinct(chain) && x !in chain && x.hhNext == First(chain) && x.hhPrev == null
    requires forall i {:trigger chain[i].hhNext} :: 0 <= i < |chain| ==> chain[i].hhNext == After(chain, i)
    requires forall i {:trigger chain[i].hhPrev} :: 0 <= i < |chain| ==>
               chain[i].hhPrev == if i == 0 then x else Before(chain, i)
    ensures Threaded([x] + chain)
  {
    var chain' := [x] + chain;
    assert forall i :: 0 < i < |chain'| ==> chain'[i] == chain[i-1] && chain'[i] in chain;
    assert forall i :: 0 < i < |chain'| ==> After(chain', i) == After(chain, i - 1);
    assert forall i :: 1 < i < |chain'| ==> Before(chain', i) == Before(chain, i - 1);
  }

  /** HASH_DEL_IN_BKT. */
  method RemoveFromBucket<V>(bkt: Bucket<V>, x: Node<V>, ghost chain: seq<Node<V>>, ghost i: nat) returns (b: Bucket<V>)
    requires BucketOk(bkt, chain) && i < |chain| && chain[i] == x
    modifies chain`hhNext, chain`hhPrev
    ensures BucketOk(b, Without(chain, i)) && b.expandMult == bkt.expandMult
  {
    b := bkt.(count := bkt.count - 1);
    if b.hhHead == x {
      b := b.(hhHead := x.hhNext);
    }
    if x.hhPrev != null {
      x.hhPrev.hhNext := x.hhNext;
    }
    if x.hhNext != null {
      x.hhNext.hhPrev := x.hhPrev;
    }
    ThreadedWithout(chain, i);
  }

  lemma {:induction false} ThreadedWithout<V>(chain: seq<Node<V>>, i: nat)
    requires Distinct(chain) && i < |chain|
    requires forall j {:trigger chain[j].hhNext} :: 0 <= j < |chain| && j != i ==>
               chain[j].hhNext == (if j + 1 == i then After(chain, i) else After(chain, j))
    requires forall j {:trigger chain[j].hhPrev} :: 0 <= j < |chain| && j != i ==>
               chain[j].hhPrev == (if j == i + 1 then Before(chain, i) else Before(chain, j))
    ensures Threaded(Without(chain, i))
  {
    var rest := Without(chain, i);
    assert forall j :: 0 <= j < i ==> rest[j] == chain[j];
    assert forall j :: i <= j < |rest| ==> rest[j] == chain[j+1];
  }

  /** HASH_FIND_IN_BKT: the hash value is compared before the key. */
  method FindInBucket<V(==)>(bkt: Bucket<V>, key: V, hash: V -> nat, ghost chain: seq<Node<V>>) returns (out: Node?<V>)
    requires BucketOk(bkt, chain)
    ensures out != null ==> out in chain && out.val == key
    ensures out == null ==> forall x :: x in chain ==> x.val != key
  {
    out := bkt.hhHead;
    ghost var i := 0;
    while out != null
      invariant i <= |chain| && out == (if i < |chain| then chain[i] else null)
      invariant forall j :: 0 <= j < i ==> chain[j].val != key
      decreases |chain| - i
    {
      if hash(out.val) == hash(key) && out.val == key {
        break;
      }
      out := out.hhNext;
      i := i + 1;
    }
  }

  // --------------------------------------------------------- the order list

  /** The items in insertion order, between head and tail. */
  ghost predicate Ordered<V>(head: Node?<V>, tail: Node?<V>, order: seq<Node<V>>)
    reads order`next, order`prev
  {
    && head == First(order) && tail == Last(order) && Distinct(order)
    && (forall i {:trigger order[i].next} :: 0 <= i < |order| ==> order[i].next == After(order, i))
    && (forall i {:trigger order[i].prev} :: 0 <= i < |order| ==> order[i].prev == Before(order, i))
  }

  /** HASH_APPEND_LIST. */
  method AppendList<V>(tail: Node<V>, x: Node<V>, ghost head: Node?<V>, ghost order: seq<Node<V>>)
    requires Ordered(head, tail, order) && x !in order
    modifies x`next, x`prev, tail`next
    ensures Ordered(head, x, order + [x])
  {
    x.next := null;
    x.prev := tail;
    tail.next := x;
    assert forall i :: 0 <= i < |order| ==> order[i] in order;
    OrderedAppend(head, x, order);
  }

  lemma {:induction false} OrderedAppend<V>(head: Node?<V>, x: Node<V>, order: seq<Node<V>>)
    requires order != [] && head == order[0] && Distinct(order) && x !in order
    requires x.next == null && x.prev == Last(order)
    requires forall i {:trigger order[i].next} :: 0 <= i < |order| ==>
               order[i].next == if i + 1 == |order| then x else After(order, i)
    requires forall i {:trigger order[i].prev} :: 0 <= i < |order| ==> order[i].prev == Before(order, i)
    ensures Ordered(head, x, order + [x])
  {
    var order' := order + [x];
    assert forall i :: 0 <= i < |order| ==> order'[i] == order[i] && order[i] in order;
    assert forall i :: 0 <= i < |order| ==> Before(order', i) == Before(order, i);
  }

  /** The part of HASH_DELETE_HH that takes x out of the order list. */
  method UnlinkOrder<V>(head0: Node<V>, tail0: Node<V>, x: Node<V>, ghost order: seq<Node<V>>, ghost i: nat)
    returns (head: Node?<V>, tail: Node?<V>)
    requires Ordered(head0, tail0, order) && i < |order| && order[i] == x
    modifies order`next, order`prev
    ensures Ordered(head, tail, Without(order, i))
  {
    head, tail := head0, tail0;
    if x == tail {
      tail := x.prev;
    }
    if x.prev != null {
      x.prev.next := x.next;
    } else {
      head := x.next;
    }
    if x.next != null {
      x.next.prev := x.prev;
    }
    OrderedWithout(head, tail, order, i);
  }

  lemma {:induction false} OrderedWithout<V>(head: Node?<V>, tail: Node?<V>, order: seq<Node<V>>, i: nat)
    requires Distinct(order) && i < |order|
    requires head == (if i == 0 then After(order, 0) else order[0])
    requires tail == (if i == |order| - 1 then Before(order, i) else order[|order|-1])
    requires forall j {:trigger order[j].next} :: 0 <= j < |order| && j != i ==>
               order[j].next == (if j + 1 == i then After(order, i) else After(order, j))
    requires forall j {:trigger order[j].prev} :: 0 <= j < |order| && j != i ==>
               order[j].prev == (if j == i + 1 then Before(order, i) else Before(order, j))
    ensures Ordered(head, tail, Without(order, i))
  {
    var rest := Without(order, i);
    assert forall j :: 0 <= j < i ==> rest[j] == order[j];
    assert forall j :: i <= j < |rest| ==> rest[j] == order[j+1];
  }
}
