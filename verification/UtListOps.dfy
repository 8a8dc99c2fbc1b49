/**
 The operations of src/contrib/uthash/utlist.h that change a doubly linked list: each keeps the shape that
 DL_SORT relies on, with the head's prev link leading to the tail.
 */
module UtListOps {
  import opened Sequences
  import opened StableSort
  import opened UtList

  function Inserted<T>(s: seq<T>, i: nat, x: T): seq<T>
    requires i <= |s|
  {
    s[..i] + [x] + s[i..]
  }

  /** DL_PREPEND2. */
  method Prepend<V>(head0: Node?<V>, add: Node<V>, ghost s: seq<Node<V>>) returns (head: Node<V>)
    requires DoublyLinked(head0, s) && add !in s
    modifies add`next, add`prev, s`prev
    ensures DoublyLinked(head, [add] + s)
  {
    add.next := head0;
    if head0 != null {
      add.prev := head0.prev;
      head0.prev := add;
    } else {
      add.prev := add;
    }
    head := add;
    assert forall i :: 0 <= i < |s| ==> s[i] in s;
    PrependedShape(s, add);
  }

  lemma {:induction false} PrependedShape<V>(s: seq<Node<V>>, x: Node<V>)
    requires Distinct(s) && x !in s && x.next == First(s) && x.prev == if s == [] then x else s[|s|-1]
    requires forall j {:trigger s[j].next} :: 0 <= j < |s| ==> s[j].next == if j + 1 < |s| then s[j+1] else null
    requires forall j {:trigger s[j].prev} :: 0 <= j < |s| ==> s[j].prev == if j == 0 then x else s[j-1]
    ensures DoublyLinked(x, [x] + s)
  {
    var s' := [x] + s;
    assert forall j :: 0 < j < |s'| ==> s'[j] == s[j-1] && s'[j] in s;
  }

  lemma {:induction false} InsertedShape<V>(head: Node<V>, s: seq<Node<V>>, i: nat, x: Node<V>)
    requires 0 < i <= |s| && head == s[0] && Distinct(s) && x !in s
    requires x.prev == s[i-1] && x.next == if i < |s| then s[i] else null
    requires forall j {:trigger s[j].next} :: 0 <= j < |s| ==>
               s[j].next == if j + 1 == i then x else if j + 1 < |s| then s[j+1] else null
    requires forall j {:trigger s[j].prev} :: 0 < j < |s| ==> s[j].prev == if j == i then x else s[j-1]
    requires s[0].prev == if i == |s| then x else s[|s|-1]
    ensures DoublyLinked(head, Inserted(s, i, x))
  {
    var s' := Inserted(s, i, x);
    assert forall j :: 0 <= j < i ==> s'[j] == s[j];
    assert s'[i] == x;
    assert forall j :: i < j < |s'| ==> s'[j] == s[j-1];
  }

  /** DL_APPEND2. */
  method Append<V>(head0: Node?<V>, add: Node<V>, ghost s: seq<Node<V>>) returns (head: Node<V>)
    requires DoublyLinked(head0, s) && add !in s
    modifies add`next, add`prev, s`next, s`prev
    ensures DoublyLinked(head, s + [add])
  {
    if head0 != null {
      head := head0;
      add.prev := head.prev;
      head.prev.next := add;
      head.prev := add;
      add.next := null;
      assert forall i :: 0 <= i < |s| ==> s[i] in s;
      InsertedShape(head, s, |s|, add);
    } else {
      head := add;
      head.prev := head;
      head.next := null;
    }
    assert s == [] ==> s + [add] == [add];
    assert s + [add] == Inserted(s, |s|, add);
  }

  /** DL_APPEND_ELEM2: add comes behind el, or in front of everything when el is null. */
  method AppendElem<V>(head0: Node?<V>, el: Node?<V>, add: Node<V>, ghost s: seq<Node<V>>, ghost i: nat)
    returns (head: Node<V>)
    requires DoublyLinked(head0, s) && add !in s && i <= |s|
    requires el == if i == 0 then null else s[i-1]
    modifies add`next, add`prev, s`next, s`prev
    ensures DoublyLinked(head, Inserted(s, i, add))
  {
    if el != null {
      head := head0;
      add.next := el.next;
      add.prev := el;
      el.next := add;
      if add.next != null {
        add.next.prev := add;
      } else {
        head.prev := add;
      }
      InsertedShape(head, s, i, add);
    } else {
      head := Prepend(head0, add, s);
      assert Inserted(s, i, add) == [add] + s;
    }
  }

  /** DL_CONCAT2. */
  method Concat<V>(head10: Node?<V>, head2: Node?<V>, ghost s: seq<Node<V>>, ghost t: seq<Node<V>>)
    returns (head1: Node?<V>)
    requires DoublyLinked(head10, s) && DoublyLinked(head2, t) && Apart(s, t)
    modifies s`next, s`prev, t`prev
    ensures DoublyLinked(head1, s + t)
  {
    head1 := head10;
    if head2 != null {
      if head1 != null {
        var tmp := head2.prev;
        head2.prev := head1.prev;
        head1.prev.next := head2;
        head1.prev := tmp;
        ConcatShape(head1, s, t);
      } else {
        head1 := head2;
        assert s + t == t;
      }
    } else {
      assert s + t == s;
    }
  }

  lemma {:induction false} ConcatShape<V>(head: Node<V>, s: seq<Node<V>>, t: seq<Node<V>>)
    requires s != [] && t != [] && head == s[0] && Distinct(s) && Distinct(t) && Apart(s, t)
    requires forall j {:trigger s[j].next} :: 0 <= j < |s| ==> s[j].next == if j + 1 < |s| then s[j+1] else t[0]
    requires forall j {:trigger t[j].next} :: 0 <= j < |t| ==> t[j].next == if j + 1 < |t| then t[j+1] else null
    requires forall j {:trigger s[j].prev} :: 0 < j < |s| ==> s[j].prev == s[j-1]
    requires forall j {:trigger t[j].prev} :: 0 < j < |t| ==> t[j].prev == t[j-1]
    requires t[0].prev == s[|s|-1] && s[0].prev == t[|t|-1]
    ensures DoublyLinked(head, s + t)
  {
    var u := s + t;
    assert forall j :: 0 <= j < |s| ==> u[j] == s[j];
    assert forall j :: |s| <= j < |u| ==> u[j] == t[j-|s|];
  }

  /** DL_DELETE2. */
  method Delete<V>(head0: Node<V>, del: Node<V>, ghost s: seq<Node<V>>, ghost i: nat) returns (head: Node?<V>)
    requires DoublyLinked(head0, s) && i < |s| && s[i] == del
    modifies s`next, s`prev
    ensures DoublyLinked(head, Without(s, i))
  {
    head := head0;
    if del.prev == del {
      head := null;
    } else if del == head {
      del.next.prev := del.prev;
      head := del.next;
      WithoutShape(head, s, i);
    } else {
      del.prev.next := del.next;
      if del.next != null {
        del.next.prev := del.prev;
      } else {
        head.prev := del.prev;
      }
      WithoutShape(head, s, i);
    }
  }

  lemma {:induction false} WithoutShape<V>(head: Node?<V>, s: seq<Node<V>>, i: nat)
    requires |s| > 1 && i < |s| && Distinct(s) && head == if i == 0 then s[1] else s[0]
    requires forall j {:trigger s[j].next} :: 0 <= j < |s| && j != i ==>
               s[j].next == var k := if j + 1 == i then i + 1 else j + 1; if k < |s| then s[k] else null
    requires forall j {:trigger s[j].prev} :: 0 < j < |s| && j != i && (i > 0 || j > 1) ==>
               s[j].prev == if j - 1 == i then s[i-1] else s[j-1]
    requires head.prev == if i == |s| - 1 then s[i-1] else s[|s|-1]
    ensures DoublyLinked(head, Without(s, i))
  {
    var s' := Without(s, i);
    assert forall j :: 0 <= j < i ==> s'[j] == s[j];
    assert forall j :: i <= j < |s'| ==> s'[j] == s[j+1];
  }

  // ------------------------------------------------------- insertion in order

  /** How many elements at the front are smaller than like. */
  function LowerBound<T>(s: seq<T>, like: T, cmp: (T, T) -> int): (i: nat)
    ensures i <= |s| && (forall j :: 0 <= j < i ==> cmp(s[j], like) < 0) && (i < |s| ==> cmp(s[i], like) >= 0)
  {
    if s == [] || cmp(s[0], like) >= 0 then 0 else 1 + LowerBound(s[1..], like, cmp)
  }

  lemma {:induction false} LowerBoundIs<T>(s: seq<T>, like: T, cmp: (T, T) -> int, i: nat)
    requires i <= |s| && (forall j :: 0 <= j < i ==> cmp(s[j], like) < 0) && (i < |s| ==> cmp(s[i], like) >= 0)
    ensures LowerBound(s, like, cmp) == i
  {
    if i > 0 {
      LowerBoundIs(s[1..], like, cmp, i - 1);
    }
  }

  /** DL_LOWER_BOUND2: the last element of the front part, or null. */
  method LowerBoundElem<V>(head: Node?<V>, like: Node<V>, cmp: (Node<V>, Node<V>) -> int, ghost s: seq<Node<V>>)
    returns (elt: Node?<V>)
    requires DoublyLinked(head, s)
    ensures var i := LowerBound(s, like, cmp); elt == if i == 0 then null else s[i-1]
  {
    if head == null || cmp(head, like) >= 0 {
      elt := null;
      LowerBoundIs(s, like, cmp, 0);
    } else {
      elt := head;
      ghost var i := 0;
      while elt.next != null
        invariant i < |s| && elt == s[i] && forall j :: 0 <= j <= i ==> cmp(s[j], like) < 0
        decreases |s| - i
      {
        if cmp(elt.next, like) >= 0 {
          break;
        }
        elt := elt.next;
        i := i + 1;
      }
      LowerBoundIs(s, like, cmp, i + 1);
    }
  }

  /** DL_INSERT_INORDER2. */
  method InsertInOrder<V>(head0: Node?<V>, add: Node<V>, cmp: (Node<V>, Node<V>) -> int, ghost s: seq<Node<V>>)
    returns (head: Node<V>)
    requires DoublyLinked(head0, s) && add !in s
    modifies add`next, add`prev, s`next, s`prev
    ensures DoublyLinked(head, Inserted(s, LowerBound(s, add, cmp), add))
  {
    if head0 != null {
      var tmp := LowerBoundElem(head0, add, cmp, s);
      head := AppendElem(head0, tmp, add, s, LowerBound(s, add, cmp));
    } else {
      head := add;
      head.prev := head;
      head.next := null;
    }
  }

  /** On a sorted list, for a comparison whose sign turns with its arguments, insertion in order keeps the list
      sorted; the new element comes before its equals, as insertion sort inserts from the right. */
  lemma {:induction false} InsertInOrderSorts<T>(s: seq<T>, x: T, cmp: (T, T) -> int)
    requires Preorder(s + [x], cmp) && Sorted(s, cmp)
    requires forall i :: 0 <= i < |s| ==> (cmp(s[i], x) >= 0 <==> cmp(x, s[i]) <= 0)
    ensures Sorted(Inserted(s, LowerBound(s, x, cmp), x), cmp)
    ensures Inserted(s, LowerBound(s, x, cmp), x) == Insert(x, s, cmp)
  {
    InsertInOrderInserts(s, x, cmp);
    InsertSorts(x, s, cmp, s + [x]);
  }

  lemma {:induction false} InsertInOrderInserts<T>(s: seq<T>, x: T, cmp: (T, T) -> int)
    requires forall i :: 0 <= i < |s| ==> (cmp(s[i], x) >= 0 <==> cmp(x, s[i]) <= 0)
    ensures Inserted(s, LowerBound(s, x, cmp), x) == Insert(x, s, cmp)
  {
    if s != [] && cmp(s[0], x) < 0 {
      var i := LowerBound(s[1..], x, cmp);
      InsertInOrderInserts(s[1..], x, cmp);
      assert Inserted(s, i + 1, x) == [s[0]] + Inserted(s[1..], i, x);
    }
  }
}
