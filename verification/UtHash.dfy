/**
 The hash table of src/contrib/uthash/uthash.h: a class over heap items, each threaded
 through the list of all items and through the chain of its bucket. The table that every
 item points to in C is the object itself.
 */
module UtHash {
  import opened Sequences
  import opened StableSort
  import opened UtList
  import opened UtHashLinks
  import opened HashBuckets

  const HASH_INITIAL_NUM_BUCKETS: nat := 32
  const HASH_INITIAL_NUM_BUCKETS_LOG2: nat := 5
  const HASH_BKT_CAPACITY_THRESH: nat := 10

  function BucketOf<V>(x: Node<V>, m: nat, hash: V -> nat): nat
    requires m > 0
  {
    ToBucket(hash(x.val), m)
  }

  // ------------------------------------------------ what the chains must hold

  ghost predicate InItsChain<V>(chains: seq<seq<Node<V>>>, x: Node<V>, hash: V -> nat)
    requires |chains| > 0
  {
    BucketOf(x, |chains|, hash) < |chains| && x in chains[BucketOf(x, |chains|, hash)]
  }

  /** Every item of chain b hashes to bucket b. */
  ghost predicate Homed<V>(chain: seq<Node<V>>, b: nat, m: nat, hash: V -> nat)
    requires m > 0
  {
    forall i :: 0 <= i < |chain| ==> BucketOf(chain[i], m, hash) == b
  }

  /** The chains hold exactly the items of order, each in the bucket of its hash value. */
  ghost predicate Placed<V>(chains: seq<seq<Node<V>>>, order: seq<Node<V>>, hash: V -> nat)
  {
    && |chains| > 0
    && (forall b :: 0 <= b < |chains| ==> Homed(chains[b], b, |chains|, hash) && Subset(chains[b], order))
    && (forall i :: 0 <= i < |order| ==> InItsChain(chains, order[i], hash))
  }

  ghost predicate BucketsOk<V>(buckets: seq<Bucket<V>>, chains: seq<seq<Node<V>>>, nodes: set<Node<V>>)
    reads nodes`hhNext, nodes`hhPrev
  {
    && |buckets| == |chains|
    && forall b :: 0 <= b < |chains| ==> AllIn(chains[b], nodes) && BucketOk(buckets[b], chains[b])
  }

  /** No two items have the same key. */
  ghost predicate KeysDistinct<V>(order: seq<Node<V>>)
  {
    forall i, j :: 0 <= i < j < |order| ==> order[i].val != order[j].val
  }

  // --------------------------------------------------------- bucket doubling

  /** The items of a chain that go to new bucket c, in the order in which they end up there. */
  function Moved<V>(chain: seq<Node<V>>, c: nat, m: nat, hash: V -> nat): seq<Node<V>>
    requires m > 0
  {
    if chain == [] then []
    else
      var x, rest := chain[|chain|-1], Moved(chain[..|chain|-1], c, m, hash);
      if BucketOf(x, m, hash) == c then [x] + rest else rest
  }

  /** new after the items of a chain have been pushed in front, one by one. */
  function Pushed<V>(chain: seq<Node<V>>, new_: seq<seq<Node<V>>>, hash: V -> nat): (r: seq<seq<Node<V>>>)
    requires |new_| > 0
    ensures |r| == |new_|
  {
    if chain == [] then new_
    else
      PushedOne(chain[|chain|-1], Pushed(chain[..|chain|-1], new_, hash), hash)
  }

  function PushedOne<V>(x: Node<V>, new_: seq<seq<Node<V>>>, hash: V -> nat): (r: seq<seq<Node<V>>>)
    requires |new_| > 0
    ensures |r| == |new_|
  {
    var c := BucketOf(x, |new_|, hash);
    if c < |new_| then new_[c := [x] + new_[c]] else new_
  }

  function PushedAll<V>(chains: seq<seq<Node<V>>>, new_: seq<seq<Node<V>>>, hash: V -> nat): (r: seq<seq<Node<V>>>)
    requires |new_| > 0
    ensures |r| == |new_|
  {
    if chains == [] then new_
    else Pushed(chains[|chains|-1], PushedAll(chains[..|chains|-1], new_, hash), hash)
  }

  lemma {:induction false} PushedAt<V>(chain: seq<Node<V>>, new_: seq<seq<Node<V>>>, hash: V -> nat, c: nat)
    requires c < |new_|
    ensures Pushed(chain, new_, hash)[c] == Moved(chain, c, |new_|, hash) + new_[c]
  {
    if chain != [] {
      PushedAt(chain[..|chain|-1], new_, hash, c);
    }
  }

  lemma {:induction false} MovedMembers<V>(chain: seq<Node<V>>, c: nat, m: nat, hash: V -> nat)
    requires m > 0
    ensures Homed(Moved(chain, c, m, hash), c, m, hash) && Subset(Moved(chain, c, m, hash), chain)
    ensures forall i :: 0 <= i < |chain| && BucketOf(chain[i], m, hash) == c ==> chain[i] in Moved(chain, c, m, hash)
  {
    if chain != [] {
      var init, x := chain[..|chain|-1], chain[|chain|-1];
      var rest := Moved(init, c, m, hash);
      MovedMembers(init, c, m, hash);
      assert chain == init + [x];
      SubsetGrows(rest, init, x);
    }
  }

  lemma {:induction false} SubsetGrows<T>(a: seq<T>, b: seq<T>, x: T)
    ensures Subset(a, b) ==> Subset(a, b + [x]) && Subset([x] + a, b + [x])
  {
  }

  /** Old bucket b feeds new buckets b and b + n only. */
  lemma {:induction false} NothingMoved<V>(chain: seq<Node<V>>, b: nat, c: nat, k: nat, hash: V -> nat)
    requires Homed(chain, b, Pow2(k), hash) && c != b && c != b + Pow2(k)
    ensures Moved(chain, c, 2 * Pow2(k), hash) == []
  {
    if chain != [] {
      BucketSplits(hash(chain[|chain|-1].val), k);
      NothingMoved(chain[..|chain|-1], b, c, k, hash);
    }
  }

  /** The old bucket that new bucket c gets its items from. */
  function Origin(c: nat, n: nat): nat
  {
    if c < n then c else c - n
  }

  /** The chains after doubling: new bucket c holds what it gets from old bucket c or c - n, and nothing else. */
  function Doubled<V>(chains: seq<seq<Node<V>>>, hash: V -> nat): seq<seq<Node<V>>>
  {
    var n := |chains|;
    seq(2 * n, c requires 0 <= c < 2 * n => Moved(chains[Origin(c, n)], c, 2 * n, hash))
  }

  function Nothing<V>(m: nat): seq<seq<Node<V>>>
  {
    seq(m, _ => [])
  }

  lemma {:induction false} PushedAllAt<V>(chains: seq<seq<Node<V>>>, k: nat, hash: V -> nat, j: nat, c: nat)
    requires |chains| == Pow2(k) && forall b :: 0 <= b < |chains| ==> Homed(chains[b], b, Pow2(k), hash)
    requires j <= |chains| && c < 2 * |chains|
    ensures PushedAll(chains[..j], Nothing(2 * |chains|), hash)[c]
            == if Origin(c, |chains|) < j then Moved(chains[Origin(c, |chains|)], c, 2 * |chains|, hash) else []
  {
    hide Moved, Pushed, ToBucket, Pow2;
    if j > 0 {
      assert chains[..j][..j-1] == chains[..j-1] && chains[..j][j-1] == chains[j-1];
      PushedAllAt(chains, k, hash, j - 1, c);
      PushedAt(chains[j-1], PushedAll(chains[..j-1], Nothing(2 * |chains|), hash), hash, c);
      if Origin(c, |chains|) != j - 1 {
        NothingMoved(chains[j-1], j - 1, c, k, hash);
      }
    }
  }

  /** Pushing every item into its new bucket gives the doubled chains. */
  lemma {:induction false} PushingDoubles<V>(chains: seq<seq<Node<V>>>, k: nat, hash: V -> nat)
    requires |chains| == Pow2(k) && forall b :: 0 <= b < |chains| ==> Homed(chains[b], b, Pow2(k), hash)
    ensures PushedAll(chains, Nothing(2 * |chains|), hash) == Doubled(chains, hash)
  {
    var r, d := PushedAll(chains, Nothing(2 * |chains|), hash), Doubled(chains, hash);
    assert chains[..|chains|] == chains;
    forall c | 0 <= c < |r|
      ensures r[c] == d[c]
    {
      PushedAllAt(chains, k, hash, |chains|, c);
    }
  }

  /** Doubling the buckets loses nothing, duplicates nothing, and puts every item into its new bucket. */
  lemma {:induction false} DoublingPlaces<V>(chains: seq<seq<Node<V>>>, order: seq<Node<V>>, k: nat, hash: V -> nat)
    requires |chains| == Pow2(k) && Placed(chains, order, hash)
    ensures Placed(Doubled(chains, hash), order, hash)
  {
    var n, d := |chains|, Doubled(chains, hash);
    forall c | 0 <= c < 2 * n
      ensures Homed(d[c], c, 2 * n, hash) && Subset(d[c], order)
    {
      MovedMembers(chains[Origin(c, n)], c, 2 * n, hash);
      assert Subset(chains[Origin(c, n)], order);
    }
    forall i | 0 <= i < |order|
      ensures InItsChain(d, order[i], hash)
    {
      BucketSplits(hash(order[i].val), k);
      var c := BucketOf(order[i], 2 * n, hash);
      assert InItsChain(chains, order[i], hash);
      MovedMembers(chains[Origin(c, n)], c, 2 * n, hash);
    }
  }

  // ------------------------------------------------- one item to its new bucket

  function Counts<V>(chains: seq<seq<Node<V>>>): seq<nat>
  {
    seq(|chains|, c requires 0 <= c < |chains| => |chains[c]|)
  }

  /** The new buckets while items are being moved: well threaded, and with the multipliers their counts call for. */
  ghost predicate NewOk<V>(buckets: seq<Bucket<V>>, new_: seq<seq<Node<V>>>, done: set<Node<V>>, ideal: nat,
          hash: V -> nat)
    reads done`hhNext, done`hhPrev
  {
    && |new_| > 0 && BucketsOk(buckets, new_, done)
    && forall c :: 0 <= c < |new_| ==>
         Homed(new_[c], c, |new_|, hash) && buckets[c].expandMult == ExpandMult(|new_[c]|, ideal)
  }

  function Multipliers<V>(buckets: seq<Bucket<V>>): seq<nat>
  {
    seq(|buckets|, c requires 0 <= c < |buckets| => buckets[c].expandMult)
  }

  /** Puts x in front of chain c of an array of buckets, and sets the bucket's multiplier. */
  method PutFirst<V>(buckets: array<Bucket<V>>, x: Node<V>, c: nat, mult: nat, hash: V -> nat,
                     ghost chains: seq<seq<Node<V>>>, ghost nodes: set<Node<V>>)
    requires BucketsOk(buckets[..], chains, nodes) && x !in nodes && c < buckets.Length
    requires forall d :: 0 <= d < |chains| ==> Homed(chains[d], d, |chains|, hash)
    modifies buckets, x`hhNext, x`hhPrev, nodes`hhPrev
    ensures BucketsOk(buckets[..], chains[c := [x] + chains[c]], nodes + {x})
    ensures forall d :: 0 <= d < buckets.Length ==>
              buckets[d].expandMult == if d == c then mult else old(buckets[d].expandMult)
  {
    ghost var was := buckets[..];
    assert forall d :: 0 <= d < |chains| ==> AllIn(chains[d], nodes) && BucketOk(was[d], chains[d]);
    var b := PushFront(buckets[c].(expandMult := mult), x, chains[c]);
    buckets[c] := b;
    forall d | 0 <= d < |chains| && d != c
      ensures BucketOk(was[d], chains[d])
    {
      assert old(BucketOk(was[d], chains[d]));
      assert forall i :: 0 <= i < |chains[d]| ==> chains[d][i] in nodes && BucketOf(chains[d][i], |chains|, hash) == d;
    }
    assert buckets[..] == was[c := b];
  }

  /** Takes x out of chain c of an array of buckets. */
  method TakeOut<V>(buckets: array<Bucket<V>>, x: Node<V>, c: nat, hash: V -> nat,
                    ghost chains: seq<seq<Node<V>>>, ghost nodes: set<Node<V>>, ghost j: nat)
    requires BucketsOk(buckets[..], chains, nodes) && c < buckets.Length && j < |chains[c]| && chains[c][j] == x
    requires forall d :: 0 <= d < |chains| ==> Homed(chains[d], d, |chains|, hash)
    modifies buckets, nodes`hhNext, nodes`hhPrev
    ensures BucketsOk(buckets[..], chains[c := Without(chains[c], j)], nodes - {x})
    ensures Multipliers(buckets[..]) == old(Multipliers(buckets[..]))
  {
    ghost var was := buckets[..];
    assert forall d :: 0 <= d < |chains| ==> AllIn(chains[d], nodes) && BucketOk(was[d], chains[d]);
    var b := RemoveFromBucket(buckets[c], x, chains[c], j);
    buckets[c] := b;
    forall d | 0 <= d < |chains| && d != c
      ensures BucketOk(was[d], chains[d]) && AllIn(chains[d], nodes - {x})
    {
      assert old(BucketOk(was[d], chains[d]));
      assert forall i :: 0 <= i < |chains[d]| ==> chains[d][i] in nodes && BucketOf(chains[d][i], |chains|, hash) == d;
      assert forall i :: 0 <= i < |chains[c]| ==> BucketOf(chains[c][i], |chains|, hash) == c;
    }
    assert buckets[..] == was[c := b];
  }

  /** The innermost body of HASH_EXPAND_BUCKETS. */
  method MoveItem<V>(newBuckets: array<Bucket<V>>, x: Node<V>, hash: V -> nat, ideal: nat, nonideal0: nat,
                     ghost new_: seq<seq<Node<V>>>, ghost done: set<Node<V>>)
    returns (nonideal: nat)
    requires NewOk(newBuckets[..], new_, done, ideal, hash) && x !in done
    requires newBuckets.Length > 0 && BucketOf(x, newBuckets.Length, hash) < newBuckets.Length
    modifies newBuckets, x`hhNext, x`hhPrev, done`hhPrev
    ensures NewOk(newBuckets[..], PushedOne(x, new_, hash), done + {x}, ideal, hash)
    ensures nonideal - nonideal0 == TotalExcess(Counts(PushedOne(x, new_, hash)), ideal)
                                    - TotalExcess(Counts(new_), ideal)
  {
    nonideal := nonideal0;
    var c := BucketOf(x, newBuckets.Length, hash);
    var mult := newBuckets[c].expandMult;
    if newBuckets[c].count + 1 > ideal {
      nonideal := nonideal + 1;
      if newBuckets[c].count + 1 > mult * ideal {
        mult := mult + 1;
      }
    }
    assert BucketOk(newBuckets[..][c], new_[c]);
    assert newBuckets[..][c].expandMult == ExpandMult(|new_[c]|, ideal);
    CountsAfterPush(x, new_, hash, ideal);
    ghost var was := newBuckets[..];
    PutFirst(newBuckets, x, c, mult, hash, new_, done);
    MultipliersAfterPush(was, newBuckets[..], x, new_, ideal, hash);
  }

  lemma {:induction false} MultipliersAfterPush<V>(was: seq<Bucket<V>>, now: seq<Bucket<V>>, x: Node<V>,
                                                   new_: seq<seq<Node<V>>>, ideal: nat, hash: V -> nat)
    requires |was| == |now| == |new_| > 0 && BucketOf(x, |new_|, hash) < |new_|
    requires forall d :: 0 <= d < |new_| ==>
               Homed(new_[d], d, |new_|, hash) && was[d].expandMult == ExpandMult(|new_[d]|, ideal)
    requires var c := BucketOf(x, |new_|, hash);
             forall d :: 0 <= d < |new_| ==>
               now[d].expandMult == if d == c then ExpandMult(|new_[c]| + 1, ideal) else was[d].expandMult
    ensures var pushed := PushedOne(x, new_, hash);
            forall d :: 0 <= d < |new_| ==>
              Homed(pushed[d], d, |new_|, hash) && now[d].expandMult == ExpandMult(|pushed[d]|, ideal)
  {
  }

  lemma {:induction false} CountsAfterPush<V>(x: Node<V>, new_: seq<seq<Node<V>>>, hash: V -> nat, ideal: nat)
    requires |new_| > 0 && BucketOf(x, |new_|, hash) < |new_|
    ensures var c := BucketOf(x, |new_|, hash);
            TotalExcess(Counts(PushedOne(x, new_, hash)), ideal)
            == TotalExcess(Counts(new_), ideal) + (if |new_[c]| + 1 > ideal then 1 else 0)
  {
    var c := BucketOf(x, |new_|, hash);
    assert Counts(PushedOne(x, new_, hash)) == Counts(new_)[c := Counts(new_)[c] + 1];
    ExcessAfterOneMore(Counts(new_), c, ideal);
  }

  /** hhNext leads from item i of the chain to its end. */
  ghost predicate Onward<V>(chain: seq<Node<V>>, i: nat)
    reads chain`hhNext
  {
    forall j {:trigger chain[j].hhNext} :: i <= j < |chain| ==> chain[j].hhNext == After(chain, j)
  }

  function At<V>(s: seq<Node<V>>, i: nat): Node?<V>
  {
    if i < |s| then s[i] else null
  }

  ghost predicate NoneIn<V>(s: seq<Node<V>>, from: nat, done: set<Node<V>>)
  {
    forall j :: from <= j < |s| ==> s[j] !in done
  }

  /** The inner loop of HASH_EXPAND_BUCKETS: empties one old chain. */
  method MoveChain<V>(head: Node?<V>, newBuckets: array<Bucket<V>>, hash: V -> nat, ideal: nat, nonideal0: nat,
                      ghost chain: seq<Node<V>>, ghost new_: seq<seq<Node<V>>>, ghost done0: set<Node<V>>)
    returns (nonideal: nat, ghost done: set<Node<V>>)
    requires Distinct(chain) && Onward(chain, 0) && head == At(chain, 0) && NoneIn(chain, 0, done0)
    requires NewOk(newBuckets[..], new_, done0, ideal, hash) && |new_| == newBuckets.Length > 0
    requires forall j :: 0 <= j < |chain| ==> BucketOf(chain[j], newBuckets.Length, hash) < newBuckets.Length
    modifies newBuckets, chain`hhNext, chain`hhPrev, done0`hhPrev
    ensures NewOk(newBuckets[..], Pushed(chain, new_, hash), done, ideal, hash)
    ensures nonideal - nonideal0 == TotalExcess(Counts(Pushed(chain, new_, hash)), ideal)
                                    - TotalExcess(Counts(new_), ideal)
    ensures forall n :: n in done ==> n in done0 || n in chain
  {
    hide NewOk, TotalExcess, Counts, Pushed, PushedOne, ToBucket;
    PushedEnds(chain, new_, hash);
    var thh := head;
    nonideal, done := nonideal0, done0;
    ghost var i := 0;
    ghost var pushed := new_;
    while thh != null
      invariant i <= |chain| && thh == At(chain, i) && Onward(chain, i)
      invariant pushed == Pushed(chain[..i], new_, hash)
      invariant NewOk(newBuckets[..], pushed, done, ideal, hash) && NoneIn(chain, i, done)
      invariant forall n :: n in done ==> n in done0 || n in chain
      invariant nonideal - nonideal0 == TotalExcess(Counts(pushed), ideal) - TotalExcess(Counts(new_), ideal)
      decreases |chain| - i
    {
      var nxt := thh.hhNext;
      nonideal := MoveItem(newBuckets, thh, hash, ideal, nonideal, pushed, done);
      PushedNext(chain, i, new_, hash);
      pushed, done := PushedOne(thh, pushed, hash), done + {thh};
      thh := nxt;
      i := i + 1;
    }
  }

  lemma {:induction false} PushedNext<V>(chain: seq<Node<V>>, i: nat, new_: seq<seq<Node<V>>>, hash: V -> nat)
    requires i < |chain| && |new_| > 0
    ensures Pushed(chain[..i+1], new_, hash) == PushedOne(chain[i], Pushed(chain[..i], new_, hash), hash)
  {
    assert chain[..i+1][..i] == chain[..i];
  }

  lemma {:induction false} PushedEnds<V>(chain: seq<Node<V>>, new_: seq<seq<Node<V>>>, hash: V -> nat)
    requires |new_| > 0
    ensures Pushed(chain[..0], new_, hash) == new_ && chain[..|chain|] == chain
  {
  }

  lemma {:induction false} PushedAllNext<V>(chains: seq<seq<Node<V>>>, b: nat, new_: seq<seq<Node<V>>>, hash: V -> nat)
    requires b < |chains| && |new_| > 0
    ensures PushedAll(chains[..b+1], new_, hash) == Pushed(chains[b], PushedAll(chains[..b], new_, hash), hash)
  {
    assert chains[..b+1][..b] == chains[..b];
  }

  lemma {:induction false} PushedAllEnds<V>(chains: seq<seq<Node<V>>>, new_: seq<seq<Node<V>>>, hash: V -> nat)
    requires |new_| > 0
    ensures PushedAll(chains[..0], new_, hash) == new_ && chains[..|chains|] == chains
  {
  }

  /** The loops of HASH_EXPAND_BUCKETS: fills a new array of 2n buckets from the old n. */
  method RehashAll<V>(buckets: array<Bucket<V>>, n: nat, ghost k: nat, hash: V -> nat, ideal: nat,
                      ghost chains: seq<seq<Node<V>>>, ghost nodes: set<Node<V>>)
    returns (newBuckets: array<Bucket<V>>, nonideal: nat)
    requires buckets.Length == n == |chains| == Pow2(k) && BucketsOk(buckets[..], chains, nodes)
    requires forall b :: 0 <= b < n ==> Homed(chains[b], b, n, hash)
    modifies nodes`hhNext, nodes`hhPrev
    ensures fresh(newBuckets) && newBuckets.Length == 2 * n &&
              NewOk(newBuckets[..], Doubled(chains, hash), nodes, ideal, hash)
    ensures nonideal == TotalExcess(Counts(Doubled(chains, hash)), ideal)
  {
    hide NewOk, TotalExcess, Counts, Pow2, Pushed, PushedAll, ToBucket, Doubled;
    newBuckets := new Bucket<V>[n * 2](_ => Bucket(null, 0, 0));
    nonideal := 0;
    ghost var new_: seq<seq<Node<V>>> := Nothing(n * 2);
    ghost var done: set<Node<V>> := {};
    EmptyBuckets(newBuckets[..], new_, ideal, hash);
    AllOnward(buckets[..], chains, nodes);
    PushedAllEnds(chains, new_, hash);
    DoubledLength(chains, hash);
    for b := 0 to n
      invariant |new_| == newBuckets.Length && new_ == PushedAll(chains[..b], Nothing(n * 2), hash)
      invariant NewOk(newBuckets[..], new_, done, ideal, hash)
      invariant nonideal == TotalExcess(Counts(new_), ideal)
      invariant forall x :: x in done ==> x in nodes && BucketOf(x, n, hash) < b
      invariant forall d :: b <= d < n ==> Onward(chains[d], 0)
    {
      assert NoneIn(chains[b], 0, done);
      NewBucketsInRange(chains[b], k, hash);
      nonideal, done := MoveChain(buckets[b].hhHead, newBuckets, hash, ideal, nonideal, chains[b], new_, done);
      PushedAllNext(chains, b, Nothing(n * 2), hash);
      new_ := Pushed(chains[b], new_, hash);
    }
    PushingDoubles(chains, k, hash);
    NewWithin(newBuckets[..], new_, done, nodes, ideal, hash);
  }

  lemma {:induction false} AllOnward<V>(buckets: seq<Bucket<V>>, chains: seq<seq<Node<V>>>, nodes: set<Node<V>>)
    requires BucketsOk(buckets, chains, nodes)
    ensures forall d :: 0 <= d < |chains| ==>
              Onward(chains[d], 0) && buckets[d].hhHead == At(chains[d], 0)
              && Distinct(chains[d]) && AllIn(chains[d], nodes)
  {
  }

  lemma {:induction false} NewBucketsInRange<V>(chain: seq<Node<V>>, k: nat, hash: V -> nat)
    ensures forall j :: 0 <= j < |chain| ==> BucketOf(chain[j], 2 * Pow2(k), hash) < 2 * Pow2(k)
  {
    forall j | 0 <= j < |chain|
      ensures BucketOf(chain[j], 2 * Pow2(k), hash) < 2 * Pow2(k)
    {
      BucketSplits(hash(chain[j].val), k);
    }
  }

  lemma {:induction false} NewWithin<V>(buckets: seq<Bucket<V>>, new_: seq<seq<Node<V>>>, done: set<Node<V>>,
                                        nodes: set<Node<V>>, ideal: nat, hash: V -> nat)
    requires NewOk(buckets, new_, done, ideal, hash) && done <= nodes
    ensures NewOk(buckets, new_, nodes, ideal, hash)
  {
  }

  // ---------------------------------------------------- counting the items

  function ItemsOf<T>(s: seq<T>): set<T>
  {
    set x | x in s
  }

  lemma {:induction false} DistinctSize<T>(s: seq<T>)
    requires Distinct(s)
    ensures |ItemsOf(s)| == |s|
  {
    if s != [] {
      var init, x := s[..|s|-1], s[|s|-1];
      DistinctSize(init);
      assert s == init + [x];
      assert ItemsOf(s) == ItemsOf(init) + {x};
    }
  }

  /** The items in the first j buckets. */
  function Below<V>(order: seq<Node<V>>, j: nat, m: nat, hash: V -> nat): set<Node<V>>
    requires m > 0
  {
    set x | x in order && BucketOf(x, m, hash) < j
  }

  lemma {:induction false} OneMoreBucket<V>(chains: seq<seq<Node<V>>>, order: seq<Node<V>>, j: nat, hash: V -> nat)
    requires Placed(chains, order, hash) && j < |chains|
    ensures Below(order, j + 1, |chains|, hash) == Below(order, j, |chains|, hash) + ItemsOf(chains[j])
    ensures Below(order, j, |chains|, hash) !! ItemsOf(chains[j])
  {
    hide ToBucket;
    var m := |chains|;
    assert Homed(chains[j], j, m, hash) && Subset(chains[j], order);
    forall x | x in Below(order, j + 1, m, hash)
      ensures x in Below(order, j, m, hash) + ItemsOf(chains[j])
    {
      var i :| 0 <= i < |order| && order[i] == x;
      assert InItsChain(chains, order[i], hash);
    }
  }

  lemma {:induction false} ItemsBelowAddUp<V>(chains: seq<seq<Node<V>>>, order: seq<Node<V>>, j: nat, hash: V -> nat)
    requires Placed(chains, order, hash) && j <= |chains| && forall b :: 0 <= b < |chains| ==> Distinct(chains[b])
    ensures Sum(Counts(chains)[..j]) == |Below(order, j, |chains|, hash)|
  {
    hide Placed, ToBucket;
    if j > 0 {
      ItemsBelowAddUp(chains, order, j - 1, hash);
      OneMoreBucket(chains, order, j - 1, hash);
      DistinctSize(chains[j-1]);
      assert Counts(chains)[..j][..j-1] == Counts(chains)[..j-1];
    }
  }

  lemma {:induction false} ItemsAddUp<V>(chains: seq<seq<Node<V>>>, order: seq<Node<V>>, nodes: set<Node<V>>,
                                         buckets: seq<Bucket<V>>, hash: V -> nat)
    requires Placed(chains, order, hash) && BucketsOk(buckets, chains, nodes) && Distinct(order)
    ensures Sum(Counts(chains)) == |order|
  {
    hide ToBucket;
    assert forall b :: 0 <= b < |chains| ==> BucketOk(buckets[b], chains[b]);
    ItemsBelowAddUp(chains, order, |chains|, hash);
    DistinctSize(order);
    assert Counts(chains)[..|chains|] == Counts(chains);
    forall x | x in order
      ensures x in Below(order, |chains|, |chains|, hash)
    {
      var i :| 0 <= i < |order| && order[i] == x;
      assert InItsChain(chains, order[i], hash);
    }
    assert ItemsOf(order) == Below(order, |chains|, |chains|, hash);
  }

  // ------------------------------------------------------ sorting the items

  /** A pass of HASH_SRT, which ends by terminating the list. */
  method OrderPass<V>(head0: Node<V>, tail0: Node<V>, k: nat, cmp: (Node<V>, Node<V>) -> int,
                      ghost s: seq<Node<V>>, ghost nodes: set<Node<V>>)
    returns (head: Node<V>, tail: Node<V>, nmerges: nat, ghost out: seq<Node<V>>)
    requires k > 0 && Ordered(head0, tail0, s) && s != [] && AllIn(s, nodes)
    modifies nodes`next, nodes`prev
    ensures out == Pass(s, k, cmp) && Ordered(head, tail, out) && AllIn(out, nodes) && nmerges == Merges(|s|, k)
  {
    hide Pass, Merges;
    head, tail, nmerges, out := MergePass(head0, k, null, true, cmp, s, nodes);
    tail.next := null;
  }

  /** The main loop of HASH_SRT. */
  method SortOrder<V>(head0: Node<V>, tail0: Node<V>, cmp: (Node<V>, Node<V>) -> int,
                      ghost s: seq<Node<V>>, ghost nodes: set<Node<V>>)
    returns (head: Node<V>, tail: Node<V>, ghost sorted: seq<Node<V>>)
    requires Ordered(head0, tail0, s) && s != [] && AllIn(s, nodes)
    modifies nodes`next, nodes`prev
    ensures sorted == BottomUp(s, 1, cmp) && Ordered(head, tail, sorted) && AllIn(sorted, nodes)
  {
    hide BottomUp, StillToSort, Merges, Pass, Headroom, Ordered;
    head, tail, sorted := head0, tail0, s;
    SortsNothing(s, cmp);
    var insize: nat, looping := 1, true;
    while looping
      invariant StillToSort(sorted, insize, looping, s, cmp) && insize > 0 && |sorted| == |s|
      invariant Ordered(head, tail, sorted) && AllIn(sorted, nodes)
      decreases looping, Headroom(|s|, insize)
    {
      NextPass(sorted, insize, s, cmp);
      var nmerges;
      head, tail, nmerges, sorted := OrderPass(head, tail, insize, cmp, sorted, nodes);
      if nmerges <= 1 {
        looping := false;
      }
      insize := insize * 2;
    }
    NothingLeftToSort(sorted, insize, s, cmp);
  }

  /** What does not depend on the order of the items survives a permutation. */
  lemma {:induction false} SortedTable<V>(chains: seq<seq<Node<V>>>, order: seq<Node<V>>, sorted: seq<Node<V>>,
          hash: V -> nat, nodes: set<Node<V>>, head: Node?<V>, tail: Node?<V>)
    requires Placed(chains, order, hash) && multiset(sorted) == multiset(order) && Ordered(head, tail, sorted)
    requires KeysDistinct(order) && forall n :: n in nodes ==> n in order
    ensures Placed(chains, sorted, hash) && KeysDistinct(sorted) && |sorted| == |order|
    ensures forall n :: n in nodes ==> n in sorted
    ensures head == null <==> sorted == []
  {
    assert |multiset(sorted)| == |multiset(order)|;
    SameItems(order, sorted);
    forall b | 0 <= b < |chains|
      ensures Subset(chains[b], sorted)
    {
      assert Subset(chains[b], order);
    }
    forall i | 0 <= i < |sorted|
      ensures InItsChain(chains, sorted[i], hash)
    {
      assert sorted[i] in order;
      var j :| 0 <= j < |order| && order[j] == sorted[i];
      assert InItsChain(chains, order[j], hash);
    }
  }

  lemma {:induction false} SameItems<T>(a: seq<T>, b: seq<T>)
    requires multiset(a) == multiset(b)
    ensures forall x :: x in a <==> x in b
  {
    assert forall x :: x in a <==> x in multiset(a);
    assert forall x :: x in b <==> x in multiset(b);
  }

  // ------------------------------------------------------ growth of the table

  /** The fields of UT_hash_table that only HASH_EXPAND_BUCKETS changes. */
  datatype Figures = Figures(numBuckets: nat, log2NumBuckets: nat, idealChainMaxlen: nat, nonidealItems: nat,
                             ineffExpands: nat, noexpand: bool)

  /** The figures after an expansion that has left the given chains. */
  function Expanded<V>(f: Figures, numItems: nat, chains: seq<seq<Node<V>>>): Figures
  {
    var ideal := IdealChainMaxlen(numItems, f.log2NumBuckets);
    var nonideal := TotalExcess(Counts(chains), ideal);
    var ineff := if nonideal > ShiftRight(numItems, 1) then f.ineffExpands + 1 else 0;
    Figures(2 * f.numBuckets, f.log2NumBuckets + 1, ideal, nonideal, ineff, f.noexpand || ineff > 1)
  }

  /** What adding x to its bucket comes to. A bucket that reaches ten times its multiplier plus one doubles the table,
      unless expansion is switched off; otherwise x is in front of its chain and nothing else has changed. */
  ghost predicate Added<V>(x: Node<V>, numItems: nat, hash: V -> nat,
                           chains0: seq<seq<Node<V>>>, mults0: seq<nat>, f0: Figures,
                           chains: seq<seq<Node<V>>>, mults: seq<nat>, f: Figures)
  {
    && 0 < |chains0| == |mults0| && BucketOf(x, |chains0|, hash) < |chains0|
    && var b := BucketOf(x, |chains0|, hash);
       if |chains0[b]| + 1 >= (mults0[b] + 1) * 10 && !f0.noexpand
       then && chains == Doubled(PushedOne(x, chains0, hash), hash) && f == Expanded(f0, numItems, chains)
            && |mults| == |chains|
            && forall c :: 0 <= c < |chains| ==> mults[c] == ExpandMult(|chains[c]|, f.idealChainMaxlen)
       else chains == PushedOne(x, chains0, hash) && mults == mults0 && f == f0
  }

  /** What deleting x comes to: it is gone from its chain. */
  ghost predicate Removed<V>(x: Node<V>, hash: V -> nat, chains0: seq<seq<Node<V>>>, chains: seq<seq<Node<V>>>)
  {
    && |chains0| > 0 && BucketOf(x, |chains0|, hash) < |chains0|
    && var b := BucketOf(x, |chains0|, hash);
       x in chains0[b] && chains == chains0[b := Remove(chains0[b], x)]
  }

  /** No chain has reached the length at which an addition doubles the table, unless expansion is switched off or the
      last expansion found more than nine items for each bucket. */
  ghost predicate ChainsAreShort<V>(chains: seq<seq<Node<V>>>, mults: seq<nat>, f: Figures)
  {
    |chains| == |mults| && (!f.noexpand && f.idealChainMaxlen <= 9 ==> AllBelow(chains, mults))
  }

  ghost predicate AllBelow<V>(chains: seq<seq<Node<V>>>, mults: seq<nat>)
  {
    |chains| == |mults| && forall c :: 0 <= c < |chains| ==> |chains[c]| < (mults[c] + 1) * 10
  }

  lemma {:induction false} AddedStaysShort<V>(x: Node<V>, numItems: nat, hash: V -> nat,
                                              chains0: seq<seq<Node<V>>>, mults0: seq<nat>, f0: Figures,
                                              chains: seq<seq<Node<V>>>, mults: seq<nat>, f: Figures)
    requires Added(x, numItems, hash, chains0, mults0, f0, chains, mults, f) && ChainsAreShort(chains0, mults0, f0)
    ensures ChainsAreShort(chains, mults, f)
  {
    hide Doubled, Expanded, ExpandMult, ToBucket;
    var b := BucketOf(x, |chains0|, hash);
    if |chains0[b]| + 1 >= (mults0[b] + 1) * 10 && !f0.noexpand {
      forall c | 0 <= c < |chains|
        ensures f.idealChainMaxlen <= 9 ==> |chains[c]| < (mults[c] + 1) * 10
      {
        ShortAfterExpansion(|chains[c]|, f.idealChainMaxlen);
      }
    }
  }

  lemma {:induction false} RemovedStaysShort<V>(x: Node<V>, hash: V -> nat, chains0: seq<seq<Node<V>>>,
                                                chains: seq<seq<Node<V>>>, mults: seq<nat>, f: Figures)
    requires Removed(x, hash, chains0, chains) && ChainsAreShort(chains0, mults, f)
    ensures ChainsAreShort(chains, mults, f)
  {
    hide ToBucket, IndexOf;
  }

  // ---------------------------------------------------------------- the table

  class HashTable<V(==)> {
    const hash: V -> nat
    var head: Node?<V>
    var tail: Node?<V>
    var buckets: array<Bucket<V>>
    var numBuckets: nat
    var log2NumBuckets: nat
    var numItems: nat
    var idealChainMaxlen: nat
    var nonidealItems: nat
    var ineffExpands: nat
    var noexpand: bool
    ghost var order: seq<Node<V>>            // the items, in insertion order
    ghost var chains: seq<seq<Node<V>>>      // the items of each bucket
    ghost var nodes: set<Node<V>>

    constructor (hash: V -> nat)
      ensures Valid() && order == [] && this.hash == hash && fresh(buckets) && nodes == {}
    {
      this.hash := hash;
      head, tail := null, null;
      buckets := new Bucket<V>[0];
      order, chains, nodes := [], [], {};
    }

    /** The bucket array: what HASH_FSCK checks of the buckets, and where each item is. */
    ghost predicate TableOk(items: seq<Node<V>>)
      reads this`buckets, this`numBuckets, this`log2NumBuckets, this`chains, this`nodes, buckets
      reads nodes`hhNext, nodes`hhPrev
    {
      && buckets.Length == numBuckets == |chains| == Pow2(log2NumBuckets)
      && Placed(chains, items, hash)
      && BucketsOk(buckets[..], chains, nodes)
    }

    ghost function Now(): Figures
      reads this`numBuckets, this`log2NumBuckets, this`idealChainMaxlen, this`nonidealItems, this`ineffExpands
      reads this`noexpand
    {
      Figures(numBuckets, log2NumBuckets, idealChainMaxlen, nonidealItems, ineffExpands, noexpand)
    }

    ghost predicate Valid()
      reads this, buckets, nodes
    {
      && AllIn(order, nodes) && (forall n :: n in nodes ==> n in order)
      && (head == null <==> order == [])
      && KeysDistinct(order)
      && (head != null ==> Ordered(head, tail, order) && numItems == |order| && TableOk(order))
      && (head != null ==> ChainsAreShort(chains, Multipliers(buckets[..]), Now()))
    }

    /** The bucket counts add up to the number of items, as HASH_FSCK checks. */
    lemma {:induction false} CountsAddUp()
      requires Valid() && head != null
      ensures Sum(seq(buckets.Length, b requires 0 <= b < buckets.Length reads this, buckets => buckets[b].count))
              == numItems
    {
      ItemsAddUp(chains, order, nodes, buckets[..], hash);
      assert forall b :: 0 <= b < buckets.Length ==> BucketOk(buckets[..][b], chains[b]);
      assert seq(buckets.Length, b requires 0 <= b < buckets.Length reads this, buckets => buckets[b].count)
          == Counts(chains);
    }

    /** HASH_EXPAND_BUCKETS. */
    method ExpandBuckets(ghost items: seq<Node<V>>)
      requires TableOk(items) && numItems == |items|
      modifies this`buckets, this`numBuckets, this`log2NumBuckets, this`idealChainMaxlen, this`nonidealItems
      modifies this`ineffExpands, this`noexpand, this`chains, nodes`hhNext, nodes`hhPrev
      ensures TableOk(items) && fresh(buckets)
      ensures chains == Doubled(old(chains), hash) && Now() == Expanded(old(Now()), numItems, chains)
      ensures forall b :: 0 <= b < numBuckets ==> buckets[b].expandMult == ExpandMult(|chains[b]|, idealChainMaxlen)
    {
      hide Doubled, Pow2, TotalExcess, Counts, IdealChainMaxlen, ExpandMult, Placed, BucketsOk, Homed;
      DoubledPow2(log2NumBuckets);
      PlacedHomes(chains, items, hash);
      idealChainMaxlen := IdealChainMaxlen(numItems, log2NumBuckets);
      var newBuckets;
      newBuckets, nonidealItems := RehashAll(buckets, numBuckets, log2NumBuckets, hash, idealChainMaxlen,
                                                chains, nodes);
      DoublingPlaces(chains, items, log2NumBuckets, hash);
      DoubledLength(chains, hash);
      assert BucketsOk(newBuckets[..], Doubled(chains, hash), nodes);
      numBuckets := numBuckets * 2;
      log2NumBuckets := log2NumBuckets + 1;
      buckets := newBuckets;
      chains := Doubled(chains, hash);
      ineffExpands := if nonidealItems > ShiftRight(numItems, 1) then ineffExpands + 1 else 0;
      if ineffExpands > 1 {
        noexpand := true;
      }
    }

    /** HASH_MAKE_TABLE. */
    method MakeTable()
      modifies this`tail, this`buckets, this`numBuckets, this`log2NumBuckets, this`numItems, this`idealChainMaxlen
      modifies this`nonidealItems, this`ineffExpands, this`noexpand, this`chains, this`nodes
      ensures TableOk([]) && fresh(buckets)
      ensures numItems == 0 && nodes == {} && Now() == Figures(32, 5, 0, 0, 0, false)
      ensures chains == Nothing(32) && Multipliers(buckets[..]) == seq(32, _ => 0)
    {
      hide ToBucket, Placed, BucketsOk, Pow2, Multipliers, Nothing;
      buckets := new Bucket<V>[HASH_INITIAL_NUM_BUCKETS](_ => Bucket(null, 0, 0));
      tail, numItems, idealChainMaxlen, nonidealItems, ineffExpands, noexpand := null, 0, 0, 0, 0, false;
      numBuckets, log2NumBuckets := HASH_INITIAL_NUM_BUCKETS, HASH_INITIAL_NUM_BUCKETS_LOG2;
      chains, nodes := Nothing(HASH_INITIAL_NUM_BUCKETS), {};
      ThirtyTwo();
      NothingPlaced(chains, hash);
      NothingThreaded(buckets[..], chains);
    }

    /** HASH_ADD_TO_BKT: x goes in front of its chain; a chain that has become too long doubles the buckets, unless
        two doublings in a row did not help. */
    method AddToBucket(x: Node<V>, ghost items: seq<Node<V>>)
      requires TableOk(items) && x !in nodes && numItems == |items| + 1
      modifies this`buckets, this`numBuckets, this`log2NumBuckets, this`idealChainMaxlen, this`nonidealItems
      modifies this`ineffExpands, this`noexpand, this`chains, this`nodes, buckets
      modifies x`hhNext, x`hhPrev, nodes`hhNext, nodes`hhPrev
      ensures TableOk(items + [x]) && nodes == old(nodes) + {x} && (buckets == old(buckets) || fresh(buckets))
      ensures Added(x, numItems, hash, old(chains), old(Multipliers(buckets[..])), old(Now()),
                    chains, Multipliers(buckets[..]), Now())
      ensures numBuckets == old(numBuckets) ==> buckets == old(buckets)
    {
      hide ToBucket, Pow2, Placed, BucketsOk, Doubled, TotalExcess, Counts, ExpandMult, IdealChainMaxlen, ShiftRight;
      var b := BucketOf(x, numBuckets, hash);
      ghost var mults0, f0 := Multipliers(buckets[..]), Now();
      BucketSplits(hash(x.val), log2NumBuckets);
      PlacedHomes(chains, items, hash);
      PlacedGrows(chains, items, x, hash);
      PutFirst(buckets, x, b, buckets[b].expandMult, hash, chains, nodes);
      chains := PushedOne(x, chains, hash);
      nodes := nodes + {x};
      BucketCount(buckets[..], chains, nodes, b);
      assert Multipliers(buckets[..]) == mults0 && mults0[b] == buckets[b].expandMult;
      if buckets[b].count >= (buckets[b].expandMult + 1) * HASH_BKT_CAPACITY_THRESH && !noexpand {
        ExpandBuckets(items + [x]);
      }
    }

    /** The first half of HASH_ADD_KEYPTR_BYHASHVALUE: x becomes the last item of the order list, of a new table if
        there was none. */
    method AppendItem(x: Node<V>)
      requires Valid() && x !in nodes
      modifies this, nodes`next, x`next, x`prev
      ensures order == old(order) + [x] && head != null && Ordered(head, tail, order)
      ensures TableOk(old(order)) && numItems == |old(order)|
      ensures if old(head) == null
              then fresh(buckets) && nodes == {} && Now() == Figures(32, 5, 0, 0, 0, false)
                   && chains == Nothing(32) && Multipliers(buckets[..]) == seq(32, _ => 0)
              else buckets == old(buckets) && nodes == old(nodes) && Now() == old(Now()) && chains == old(chains)
                   && Multipliers(buckets[..]) == old(Multipliers(buckets[..]))
    {
      hide HashTable<V>.TableOk, ToBucket, KeysDistinct;
      if head == null {
        x.next, x.prev := null, null;
        MakeTable();
        head, tail := x, x;
      } else {
        AppendList(tail, x, head, order);
        tail := x;
      }
      order := order + [x];
    }

    /** HASH_ADD_KEYPTR: x becomes the last item. */
    method Add(x: Node<V>)
      requires Valid() && x !in order && forall i :: 0 <= i < |order| ==> order[i].val != x.val
      modifies this, buckets, nodes`next, nodes`hhNext, nodes`hhPrev, x
      ensures Valid() && order == old(order) + [x]
      ensures (buckets == old(buckets) || fresh(buckets)) && nodes <= old(nodes) + {x}
      ensures if old(head) == null
              then Added(x, 1, hash, Nothing(32), seq(32, _ => 0), Figures(32, 5, 0, 0, 0, false),
                         chains, Multipliers(buckets[..]), Now())
              else Added(x, |order|, hash, old(chains), old(Multipliers(buckets[..])), old(Now()),
                         chains, Multipliers(buckets[..]), Now())
    {
      hide HashTable<V>.TableOk, ToBucket, Ordered, KeysDistinct, Added, ChainsAreShort, Multipliers;
      KeysWith(order, x);
      ghost var items := order;
      NewTableIsShort<V>();
      AppendItem(x);
      numItems := numItems + 1;
      ghost var chains0, mults0, f0 := chains, Multipliers(buckets[..]), Now();
      AddToBucket(x, items);
      AddedStaysShort(x, numItems, hash, chains0, mults0, f0, chains, Multipliers(buckets[..]), Now());
    }

    /** HASH_FIND: the item with the key, if there is one. */
    method Find(key: V) returns (out: Node?<V>)
      requires Valid()
      ensures out != null ==> out in order && out.val == key
      ensures out == null ==> forall i :: 0 <= i < |order| ==> order[i].val != key
    {
      hide ToBucket, Pow2, BucketsOk, Ordered;
      out := null;
      if head != null {
        var b := ToBucket(hash(key), numBuckets);
        BucketSplits(hash(key), log2NumBuckets);
        BucketAt(buckets[..], chains, nodes, b);
        out := FindInBucket(buckets[b], key, hash, chains[b]);
        FoundIsPlaced(chains, order, hash, key, out);
      }
    }

    /** HASH_DEL_IN_BKT on the bucket of x, and the item count. */
    method DeleteFromBucket(x: Node<V>, ghost items: seq<Node<V>>, ghost i: nat)
      requires TableOk(items) && i < |items| && items[i] == x && Distinct(items) && numItems > 0
      modifies this`chains, this`nodes, this`numItems, buckets, nodes`hhNext, nodes`hhPrev
      ensures TableOk(Without(items, i)) && nodes == old(nodes) - {x} && numItems == old(numItems) - 1
      ensures Multipliers(buckets[..]) == old(Multipliers(buckets[..]))
      ensures Removed(x, hash, old(chains), chains)
    {
      hide ToBucket, Pow2, Placed, BucketsOk;
      var b := BucketOf(x, numBuckets, hash);
      ghost var j := ItemPlace(chains, items, i, hash);
      BucketAt(buckets[..], chains, nodes, b);
      PlacedHomes(chains, items, hash);
      PlacedShrinks(chains, items, i, b, j, hash);
      TakeOut(buckets, x, b, hash, chains, nodes, j);
      RemoveAt(chains[b], x, j);
      chains := chains[b := Without(chains[b], j)];
      nodes := nodes - {x};
      numItems := numItems - 1;
    }

    /** The part of HASH_DELETE_HH for a table that keeps other items. */
    method DeleteOneOfMany(x: Node<V>, ghost i: nat)
      requires Valid() && i < |order| && order[i] == x && |order| > 1
      modifies this`head, this`tail, this`chains, this`nodes, this`numItems
      modifies buckets, nodes`next, nodes`prev, nodes`hhNext, nodes`hhPrev
      ensures Ordered(head, tail, Without(order, i)) && TableOk(Without(order, i))
      ensures nodes == old(nodes) - {x} && numItems == old(numItems) - 1
      ensures Multipliers(buckets[..]) == old(Multipliers(buckets[..]))
      ensures Removed(x, hash, old(chains), chains)
    {
      hide HashTable<V>.TableOk, ToBucket, Ordered, KeysDistinct, Removed, Multipliers, ChainsAreShort;
      OnlyItem(head, tail, order, i);
      head, tail := UnlinkOrder(head, tail, x, order, i);
      DeleteFromBucket(x, order, i);
    }

    /** HASH_DELETE_HH: deleting the only item frees the table. */
    method Delete(x: Node<V>, ghost i: nat)
      requires Valid() && i < |order| && order[i] == x
      modifies this`head, this`tail, this`chains, this`nodes, this`numItems, this`order
      modifies buckets, nodes`next, nodes`prev, nodes`hhNext, nodes`hhPrev
      ensures Valid() && order == Without(old(order), i) && nodes == old(nodes) - {x}
      ensures head != null ==> Removed(x, hash, old(chains), chains)
      ensures Multipliers(buckets[..]) == old(Multipliers(buckets[..]))
    {
      hide HashTable<V>.TableOk, ToBucket, Ordered, KeysDistinct, Removed, Multipliers, ChainsAreShort;
      OnlyItem(head, tail, order, i);
      KeysOfRest(order, i);
      ExactlyTheRest(order, nodes, i);
      if x.prev == null && x.next == null {
        head := null;
        nodes := {};
      } else {
        ghost var chains0 := chains;
        DeleteOneOfMany(x, i);
        RemovedStaysShort(x, hash, chains0, chains, Multipliers(buckets[..]), Now());
        HeadOfOrdered(head, tail, Without(order, i));
      }
      order := Without(order, i);
    }

    /** HASH_SRT: sorts the list of items, and leaves every bucket as it is. */
    method Sort(cmp: (Node<V>, Node<V>) -> int)
      requires Valid()
      modifies this`head, this`tail, this`order, nodes`next, nodes`prev
      ensures Valid() && order == BottomUp(old(order), 1, cmp)
    {
      hide BottomUp, Ordered, Placed, BucketsOk, Pow2, KeysDistinct, ChainsAreShort, Multipliers;
      BottomUpPermutes(order, 1, cmp);
      if head != null {
        ghost var sorted;
        EndsOfOrdered(head, tail, order);
        head, tail, sorted := SortOrder(head, tail, cmp, order, nodes);
        SortedTable(chains, order, sorted, hash, nodes, head, tail);
        order := sorted;
      }
    }

    /** HASH_ITER with a body that deletes some of the items it visits. */
    method DeleteWhere(drop: Node<V> -> bool) returns (visited: seq<Node<V>>)
      requires Valid()
      modifies this`head, this`tail, this`chains, this`nodes, this`numItems, this`order
      modifies buckets, nodes`next, nodes`prev, nodes`hhNext, nodes`hhPrev
      ensures Valid() && visited == old(order) && order == Kept(old(order), drop)
    {
      hide HashTable<V>.Valid, Kept, Left, Without, At;
      visited := [];
      ghost var all, n := order, 0;
      LeftEnds(all, drop);
      var el, tmp := FirstTwo();
      while el != null
        invariant Valid() && nodes <= old(nodes)
        invariant n <= |all| && visited == all[..n] && order == Left(all, n, drop)
        invariant el == At(all, n) && tmp == At(all, n + 1)
        decreases |all| - n
      {
        NotNull(all, n);
        VisitNext(all, n, drop);
        Visit(el, drop, |Kept(all[..n], drop)|);
        visited := visited + [el];
        n := n + 1;
        el := tmp;
        NotNull(all, n);
        if tmp != null {
          LeftAt(all, n, drop);
          tmp := Next(tmp, |Kept(all[..n], drop)|);
        }
      }
      NotNull(all, n);
    }

    /** The start of the iteration. */
    method FirstTwo() returns (el: Node?<V>, tmp: Node?<V>)
      requires Valid()
      ensures el == At(order, 0) && tmp == At(order, 1)
    {
      hide HashTable<V>.TableOk;
      el, tmp := head, null;
      if head != null {
        tmp := head.next;
      }
    }

    method Next(x: Node<V>, ghost i: nat) returns (y: Node?<V>)
      requires Valid() && i < |order| && order[i] == x
      ensures y == At(order, i + 1)
    {
      hide HashTable<V>.TableOk;
      y := x.next;
    }

    /** The body of the iteration. */
    method Visit(x: Node<V>, drop: Node<V> -> bool, ghost i: nat)
      requires Valid() && i < |order| && order[i] == x
      modifies this`head, this`tail, this`chains, this`nodes, this`numItems, this`order
      modifies buckets, nodes`next, nodes`prev, nodes`hhNext, nodes`hhPrev
      ensures Valid() && order == if drop(x) then Without(old(order), i) else old(order)
      ensures nodes <= old(nodes)
    {
      hide HashTable<V>.Valid, Without;
      if drop(x) {
        Delete(x, i);
      }
    }
  }

  lemma {:induction false} NotNull<V>(s: seq<Node<V>>, n: nat)
    ensures At(s, n) == null ==> n >= |s| && At(s, n + 1) == null
    ensures At(s, n) != null ==> n < |s| && s[n] == At(s, n) && s[..n] + [s[n]] == s[..n+1]
  {
  }

  /** The items that are not to be dropped, in their order. */
  function Kept<V>(s: seq<Node<V>>, drop: Node<V> -> bool): seq<Node<V>>
  {
    if s == [] then []
    else
      var rest := Kept(s[..|s|-1], drop);
      if drop(s[|s|-1]) then rest else rest + [s[|s|-1]]
  }

  /** What is left when the first n of all items have been visited. */
  function Left<V>(all: seq<Node<V>>, n: nat, drop: Node<V> -> bool): seq<Node<V>>
    requires n <= |all|
  {
    Kept(all[..n], drop) + all[n..]
  }

  /** Where the item to visit stands among what is left, and what is left after the visit. */
  lemma {:induction false} VisitNext<V>(all: seq<Node<V>>, n: nat, drop: Node<V> -> bool)
    requires n < |all|
    ensures var i, left := |Kept(all[..n], drop)|, Left(all, n, drop);
            && i < |left| && left[i] == all[n]
            && Left(all, n + 1, drop) == if drop(all[n]) then Without(left, i) else left
  {
    hide Kept;
    KeptGrows(all[..n], all[n], drop);
    assert all[..n] + [all[n]] == all[..n+1];
    assert all[n..] == [all[n]] + all[n+1..];
  }

  lemma {:induction false} LeftAt<V>(all: seq<Node<V>>, n: nat, drop: Node<V> -> bool)
    requires n < |all|
    ensures var i, left := |Kept(all[..n], drop)|, Left(all, n, drop);
            i < |left| && left[i] == all[n] && At(left, i + 1) == At(all, n + 1)
  {
    hide Kept;
  }

  lemma {:induction false} LeftEnds<V>(all: seq<Node<V>>, drop: Node<V> -> bool)
    ensures Left(all, 0, drop) == all && Left(all, |all|, drop) == Kept(all, drop)
    ensures all[..0] == [] && all[..|all|] == all
  {
    assert all[..|all|] == all;
  }

  lemma {:induction false} KeptGrows<V>(s: seq<Node<V>>, x: Node<V>, drop: Node<V> -> bool)
    ensures Kept(s + [x], drop) == if drop(x) then Kept(s, drop) else Kept(s, drop) + [x]
  {
    assert (s + [x])[..|s|] == s;
  }

  lemma {:induction false} NewTableIsShort<V>()
    ensures ChainsAreShort<V>(Nothing(32), seq(32, _ => 0), Figures(32, 5, 0, 0, 0, false))
  {
  }

  lemma {:induction false} OnlyItem<V>(head: Node<V>, tail: Node?<V>, order: seq<Node<V>>, i: nat)
    requires Ordered(head, tail, order) && i < |order|
    ensures order[i].prev == null && order[i].next == null <==> |order| == 1
    ensures Distinct(order) && tail != null
  {
  }

  lemma {:induction false} EndsOfOrdered<V>(head: Node<V>, tail: Node?<V>, order: seq<Node<V>>)
    requires Ordered(head, tail, order)
    ensures tail != null && order != []
  {
  }

  lemma {:induction false} HeadOfOrdered<V>(head: Node?<V>, tail: Node?<V>, order: seq<Node<V>>)
    requires Ordered(head, tail, order)
    ensures head == null <==> order == []
  {
  }

  lemma {:induction false} KeysWith<V>(order: seq<Node<V>>, x: Node<V>)
    requires KeysDistinct(order) && forall i :: 0 <= i < |order| ==> order[i].val != x.val
    ensures KeysDistinct(order + [x])
  {
  }

  lemma {:induction false} KeysOfRest<V>(order: seq<Node<V>>, i: nat)
    requires KeysDistinct(order) && i < |order|
    ensures KeysDistinct(Without(order, i))
  {
  }

  /** Where an item stands in the chain of its bucket. */
  lemma {:induction false} ItemPlace<V>(chains: seq<seq<Node<V>>>, items: seq<Node<V>>, i: nat, hash: V -> nat)
    returns (j: nat)
    requires Placed(chains, items, hash) && i < |items|
    ensures var b := BucketOf(items[i], |chains|, hash); b < |chains| && j < |chains[b]| && chains[b][j] == items[i]
  {
    assert InItsChain(chains, items[i], hash);
    var b := BucketOf(items[i], |chains|, hash);
    j :| 0 <= j < |chains[b]| && chains[b][j] == items[i];
  }

  lemma {:induction false} ExactlyTheRest<V>(order: seq<Node<V>>, nodes: set<Node<V>>, i: nat)
    requires i < |order| && Distinct(order) && AllIn(order, nodes) && forall n :: n in nodes ==> n in order
    ensures AllIn(Without(order, i), nodes - {order[i]})
    ensures forall n :: n in nodes - {order[i]} ==> n in Without(order, i)
  {
    var rest := Without(order, i);
    forall n | n in nodes - {order[i]}
      ensures n in rest
    {
      var j :| 0 <= j < |order| && order[j] == n;
      assert rest[if j < i then j else j - 1] == n;
    }
  }

  lemma {:induction false} BucketAt<V>(buckets: seq<Bucket<V>>, chains: seq<seq<Node<V>>>, nodes: set<Node<V>>, b: nat)
    requires BucketsOk(buckets, chains, nodes) && b < |chains|
    ensures b < |buckets| && AllIn(chains[b], nodes) && BucketOk(buckets[b], chains[b])
  {
  }

  lemma {:induction false} FoundIsPlaced<V>(chains: seq<seq<Node<V>>>, order: seq<Node<V>>, hash: V -> nat, key: V,
          out: Node?<V>)
    requires Placed(chains, order, hash) && ToBucket(hash(key), |chains|) < |chains|
    requires var chain := chains[ToBucket(hash(key), |chains|)];
             if out != null then out in chain else forall x :: x in chain ==> x.val != key
    ensures out != null ==> out in order
    ensures out == null ==> forall i :: 0 <= i < |order| ==> order[i].val != key
  {
    var b := ToBucket(hash(key), |chains|);
    assert Subset(chains[b], order);
    forall i | out == null && 0 <= i < |order|
      ensures order[i].val != key
    {
      assert InItsChain(chains, order[i], hash);
    }
  }

  lemma {:induction false} PlacedShrinks<V>(chains: seq<seq<Node<V>>>, items: seq<Node<V>>, i: nat, b: nat, j: nat,
          hash: V -> nat)
    requires Placed(chains, items, hash) && Distinct(items) && i < |items|
    requires b < |chains| && j < |chains[b]| && chains[b][j] == items[i] && Distinct(chains[b])
    ensures Placed(chains[b := Without(chains[b], j)], Without(items, i), hash)
  {
  }

  lemma {:induction false} PlacedHomes<V>(chains: seq<seq<Node<V>>>, order: seq<Node<V>>, hash: V -> nat)
    requires Placed(chains, order, hash)
    ensures forall b :: 0 <= b < |chains| ==> Homed(chains[b], b, |chains|, hash)
  {
  }

  lemma {:induction false} DoubledLength<V>(chains: seq<seq<Node<V>>>, hash: V -> nat)
    ensures |Doubled(chains, hash)| == 2 * |chains|
  {
  }

  lemma {:induction false} EmptyBuckets<V>(buckets: seq<Bucket<V>>, new_: seq<seq<Node<V>>>, ideal: nat, hash: V -> nat)
    requires |buckets| > 0 && new_ == Nothing(|buckets|)
    requires forall c :: 0 <= c < |buckets| ==> buckets[c] == Bucket(null, 0, 0)
    ensures NewOk(buckets, new_, {}, ideal, hash) && TotalExcess(Counts(new_), ideal) == 0
  {
    NoExcess(Counts(new_), ideal);
  }

  lemma {:induction false} ThirtyTwo()
    ensures Pow2(HASH_INITIAL_NUM_BUCKETS_LOG2) == HASH_INITIAL_NUM_BUCKETS
  {
  }

  lemma {:induction false} NothingPlaced<V>(chains: seq<seq<Node<V>>>, hash: V -> nat)
    requires chains == Nothing(32)
    ensures Placed(chains, [], hash)
  {
  }

  lemma {:induction false} NothingThreaded<V>(buckets: seq<Bucket<V>>, chains: seq<seq<Node<V>>>)
    requires chains == Nothing(|buckets|) && forall b :: 0 <= b < |buckets| ==> buckets[b] == Bucket(null, 0, 0)
    ensures BucketsOk(buckets, chains, {}) && Multipliers(buckets) == seq(|buckets|, _ => 0)
    ensures |chains| == |buckets|
  {
  }

  lemma {:induction false} PlacedGrows<V>(chains: seq<seq<Node<V>>>, items: seq<Node<V>>, x: Node<V>, hash: V -> nat)
    requires Placed(chains, items, hash) && BucketOf(x, |chains|, hash) < |chains|
    ensures Placed(PushedOne(x, chains, hash), items + [x], hash)
  {
    hide ToBucket;
    var c, chains' := BucketOf(x, |chains|, hash), PushedOne(x, chains, hash);
    forall b | 0 <= b < |chains|
      ensures Homed(chains'[b], b, |chains|, hash) && Subset(chains'[b], items + [x])
    {
      assert Homed(chains[b], b, |chains|, hash) && Subset(chains[b], items);
      SubsetGrows(chains[b], items, x);
    }
    forall i | 0 <= i < |items|
      ensures InItsChain(chains', items[i], hash)
    {
      assert InItsChain(chains, items[i], hash);
    }
  }

  lemma {:induction false} BucketCount<V>(buckets: seq<Bucket<V>>, chains: seq<seq<Node<V>>>, nodes: set<Node<V>>,
          b: nat)
    requires BucketsOk(buckets, chains, nodes) && b < |chains|
    ensures b < |buckets| && buckets[b].count == |chains[b]|
  {
    assert BucketOk(buckets[b], chains[b]);
  }
}
