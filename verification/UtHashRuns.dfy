/**
 Whole runs of operations on a hash table of src/contrib/uthash/uthash.h: what a program sees of the table is
 a plain map from keys to items, and the sequence of the items that have been added and not deleted since.
 */
module UtHashRuns {
  import opened Sequences
  import opened UtList
  import opened UtHash

  datatype Op<!V> = AddOp(item: Node<V>) | DeleteOp(item: Node<V>)

  // --------------------------------------------------- the two reference views

  /** The plain map. */
  function AsMap<V>(ops: seq<Op<V>>): map<V, Node<V>>
  {
    if ops == [] then map[]
    else
      var m, op := AsMap(ops[..|ops|-1]), ops[|ops|-1];
      if op.AddOp? then m[op.item.val := op.item] else m - {op.item.val}
  }

  /** What the macros ask of their callers: keys that are added are fresh, and items that are deleted are there. */
  ghost predicate Legal<V(!new)>(ops: seq<Op<V>>)
  {
    forall i :: 0 <= i < |ops| ==> LegalNext(AsMap(ops[..i]), ops[i])
  }

  predicate LegalNext<V(==)>(m: map<V, Node<V>>, op: Op<V>)
  {
    if op.AddOp? then op.item.val !in m else op.item.val in m && m[op.item.val] == op.item
  }

  /** Operation i adds an item that no later operation deletes. */
  ghost predicate Lasts<V>(ops: seq<Op<V>>, i: nat)
    requires i < |ops|
  {
    ops[i].AddOp? && forall j :: i < j < |ops| ==> ops[j] != DeleteOp(ops[i].item)
  }

  /** The items of the first n operations that last, in the order in which they were added. */
  ghost function Survivors<V>(ops: seq<Op<V>>, n: nat): seq<Node<V>>
    requires n <= |ops|
  {
    if n == 0 then [] else Survivors(ops, n - 1) + (if Lasts(ops, n - 1) then [ops[n-1].item] else [])
  }

  // ------------------------------------------------ what the methods of the table do

  /** The order list after a run, by the contracts of Add and Delete. */
  function Replay<V>(ops: seq<Op<V>>): seq<Node<V>>
  {
    if ops == [] then []
    else
      var s, op := Replay(ops[..|ops|-1]), ops[|ops|-1];
      if op.AddOp? then s + [op.item] else Remove(s, op.item)
  }

  // ----------------------------------------------------------- the map view

  /** The items of order are exactly the values of m, each under its own key. */
  ghost predicate Agrees<V>(order: seq<Node<V>>, m: map<V, Node<V>>)
  {
    && KeysDistinct(order)
    && (forall i :: 0 <= i < |order| ==> order[i].val in m && m[order[i].val] == order[i])
    && (forall key :: key in m ==> m[key] in order)
    && (forall key :: key in m ==> m[key].val == key)
  }

  lemma {:induction false} AgreesAdd<V>(order: seq<Node<V>>, m: map<V, Node<V>>, x: Node<V>)
    requires Agrees(order, m) && x.val !in m
    ensures Agrees(order + [x], m[x.val := x])
  {
    var order', m' := order + [x], m[x.val := x];
    forall key | key in m'
      ensures m'[key] in order'
    {
      if key != x.val {
        assert m[key] in order;
      }
    }
  }

  lemma {:induction false} AgreesDelete<V>(order: seq<Node<V>>, m: map<V, Node<V>>, x: Node<V>)
    requires Agrees(order, m) && x.val in m && m[x.val] == x
    ensures Agrees(Remove(order, x), m - {x.val})
  {
    var i, rest, m' := IndexOf(order, x), Remove(order, x), m - {x.val};
    assert x in order;
    KeysOfRest(order, i);
    forall key | key in m'
      ensures m'[key] in rest
    {
      var j :| 0 <= j < |order| && order[j] == m[key];
      assert rest[if j < i then j else j - 1] == m[key];
    }
  }

  /** After every legal run the order list holds what the plain map holds. */
  lemma {:induction false} ReplayAgreesWithMap<V(!new)>(ops: seq<Op<V>>)
    requires Legal(ops)
    ensures Agrees(Replay(ops), AsMap(ops))
  {
    if ops != [] {
      var n := |ops| - 1;
      LegalPrefix(ops, n);
      ReplayAgreesWithMap(ops[..n]);
      assert LegalNext(AsMap(ops[..n]), ops[n]);
      if ops[n].AddOp? {
        AgreesAdd(Replay(ops[..n]), AsMap(ops[..n]), ops[n].item);
      } else {
        AgreesDelete(Replay(ops[..n]), AsMap(ops[..n]), ops[n].item);
      }
    }
  }

  lemma {:induction false} LegalPrefix<V(!new)>(ops: seq<Op<V>>, n: nat)
    requires Legal(ops) && n <= |ops|
    ensures Legal(ops[..n])
  {
    forall i | 0 <= i < n
      ensures LegalNext(AsMap(ops[..n][..i]), ops[..n][i])
    {
      assert ops[..n][..i] == ops[..i];
    }
  }

  /** What Find answers is what the plain map holds under the key. */
  lemma {:induction false} FindAgreesWithMap<V(!new)>(ops: seq<Op<V>>, key: V, out: Node?<V>)
    requires Legal(ops)
    requires out != null ==> out in Replay(ops) && out.val == key
    requires out == null ==> forall i :: 0 <= i < |Replay(ops)| ==> Replay(ops)[i].val != key
    ensures out == if key in AsMap(ops) then AsMap(ops)[key] else null
  {
    ReplayAgreesWithMap(ops);
    if key in AsMap(ops) {
      assert AsMap(ops)[key] in Replay(ops);
    }
  }

  // --------------------------------------------------------- the sequence view

  lemma {:induction false} RemoveIsLocal<T>(s: seq<T>, t: seq<T>, x: T)
    requires x !in t || x !in s
    ensures Remove(s + t, x) == if x in s then Remove(s, x) + t else s + Remove(t, x)
  {
    hide IndexOf, Without;
    IndexOfAppend(s, t, x);
    IndexOfAppend(t, [], x);
    assert t + [] == t;
    var i := IndexOf(s + t, x);
    if i < |s + t| {
      WithoutAppend(s, t, i);
    }
  }

  lemma {:induction false} WithoutAppend<T>(s: seq<T>, t: seq<T>, i: nat)
    requires i < |s + t|
    ensures Without(s + t, i) == if i < |s| then Without(s, i) + t else s + Without(t, i - |s|)
  {
  }

  lemma {:induction false} IndexOfAppend<T>(s: seq<T>, t: seq<T>, x: T)
    ensures IndexOf(s + t, x) == if x in s then IndexOf(s, x) else |s| + IndexOf(t, x)
    ensures x in s <==> IndexOf(s, x) < |s|
  {
    if s == [] {
      assert s + t == t;
    } else if s[0] != x {
      IndexOfAppend(s[1..], t, x);
      assert (s + t)[1..] == s[1..] + t;
    }
  }

  /** An operation that deletes x takes x out of the survivors. */
  lemma {:induction false} DeleteTakesOut<V>(ops: seq<Op<V>>, x: Node<V>, n: nat)
    requires n <= |ops| && Distinct(Survivors(ops, n))
    ensures Survivors(ops + [DeleteOp(x)], n) == Remove(Survivors(ops, n), x)
  {
    var longer := ops + [DeleteOp(x)];
    if n > 0 {
      var s, t := Survivors(ops, n - 1), if Lasts(ops, n - 1) then [ops[n-1].item] else [];
      assert Survivors(ops, n) == s + t;
      assert forall i :: 0 <= i < |s| ==> s[i] == Survivors(ops, n)[i];
      assert t != [] ==> t[0] == Survivors(ops, n)[|s|];
      DeleteTakesOut(ops, x, n - 1);
      assert longer[n-1] == ops[n-1] && longer[|ops|] == DeleteOp(x);
      assert Lasts(longer, n - 1) <==> Lasts(ops, n - 1) && ops[n-1].item != x by {
        assert forall j :: n - 1 < j < |ops| ==> longer[j] == ops[j];
      }
      RemoveIsLocal(s, t, x);
    }
  }

  lemma {:induction false} AddKeepsSurvivors<V>(ops: seq<Op<V>>, x: Node<V>, n: nat)
    requires n <= |ops|
    ensures Survivors(ops + [AddOp(x)], n) == Survivors(ops, n)
  {
    var longer := ops + [AddOp(x)];
    if n > 0 {
      AddKeepsSurvivors(ops, x, n - 1);
      assert longer[n-1] == ops[n-1] && longer[|ops|] == AddOp(x);
      assert Lasts(longer, n - 1) <==> Lasts(ops, n - 1) by {
        assert forall j :: n - 1 < j < |ops| ==> longer[j] == ops[j];
      }
    }
  }

  lemma {:induction false} AgreeingItemsDiffer<V>(order: seq<Node<V>>, m: map<V, Node<V>>)
    requires Agrees(order, m)
    ensures Distinct(order)
  {
  }

  /** After every legal run the order list is insertion order without the items deleted since. */
  lemma {:induction false} OrderIsInsertionOrder<V(!new)>(ops: seq<Op<V>>)
    requires Legal(ops)
    ensures Replay(ops) == Survivors(ops, |ops|)
  {
    hide Agrees, AsMap, Remove, Legal;
    if ops != [] {
      var n, op := |ops| - 1, ops[|ops|-1];
      assert ops == ops[..n] + [op];
      LegalPrefix(ops, n);
      OrderIsInsertionOrder(ops[..n]);
      ReplayAgreesWithMap(ops[..n]);
      AgreeingItemsDiffer(Replay(ops[..n]), AsMap(ops[..n]));
      if op.AddOp? {
        AddKeepsSurvivors(ops[..n], op.item, n);
      } else {
        DeleteTakesOut(ops[..n], op.item, n);
      }
    }
  }

  // --------------------------------------------------------- the table itself

  /** Carries out one operation of a run. */
  method ExecuteOne<V(==,!new)>(t: HashTable<V>, op: Op<V>, ghost m: map<V, Node<V>>)
    requires t.Valid() && Agrees(t.order, m) && LegalNext(m, op)
    modifies t, t.buckets, t.nodes`next, t.nodes`prev, t.nodes`hhNext, t.nodes`hhPrev, op.item
    ensures t.Valid() && t.order == if op.AddOp? then old(t.order) + [op.item] else Remove(old(t.order), op.item)
    ensures (t.buckets == old(t.buckets) || fresh(t.buckets)) && t.nodes <= old(t.nodes) + {op.item}
  {
    hide HashTable<V>.TableOk, Without;
    if op.AddOp? {
      t.Add(op.item);
    } else {
      t.Delete(op.item, IndexOf(t.order, op.item));
    }
  }

  /** Carries out a run on a new table. */
  method Execute<V(==,!new)>(hash: V -> nat, ops: seq<Op<V>>, ghost items: set<Node<V>>) returns (t: HashTable<V>)
    requires Legal(ops) && forall i :: 0 <= i < |ops| ==> ops[i].item in items
    modifies items
    ensures fresh(t) && t.Valid() && t.order == Survivors(ops, |ops|) && Agrees(t.order, AsMap(ops))
  {
    hide HashTable<V>.Valid, Agrees;
    t := new HashTable<V>(hash);
    for i := 0 to |ops|
      invariant fresh(t) && fresh(t.buckets) && t.Valid() && t.nodes <= items
      invariant t.order == Replay(ops[..i])
    {
      LegalPrefix(ops, i);
      ReplayAgreesWithMap(ops[..i]);
      assert LegalNext(AsMap(ops[..i]), ops[i]);
      assert ops[..i+1][..i] == ops[..i];
      ExecuteOne(t, ops[i], AsMap(ops[..i]));
    }
    assert ops[..|ops|] == ops;
    OrderIsInsertionOrder(ops);
    ReplayAgreesWithMap(ops);
  }
}
