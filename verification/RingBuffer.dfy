/** The ring buffer of src/contrib/uthash/utringbuffer.h. */
module RingBuffer {
  const UINT_RANGE: nat := 0x1_0000_0000

  /** A pointer to a slot. */
  datatype Ptr = Null | Slot(k: nat)

  // --------------------------------------- where the elements are

  function Length(i: nat, n: nat, f: bool): nat
  {
    if f then n else i
  }

  /** _utringbuffer_real_idx: the slot of element j. */
  function RealIdx(i: nat, n: nat, f: bool, j: nat): nat
    requires f ==> n > 0
  {
    if f then (j + i) % n else j
  }

  /** _utringbuffer_fake_idx: which element is in slot k. */
  function FakeIdx(i: nat, n: nat, f: bool, k: nat): nat
    requires f ==> i <= n && n > 0
  {
    if f then (k + n - i) % n else k
  }

  lemma {:induction false} ModOnce(x: nat, n: nat)
    requires x < 2 * n
    ensures x % n == if x < n then x else x - n
  {
  }

  /** The elements and the slots in use are in one-to-one correspondence. */
  lemma {:induction false} IndicesAreInverse(i: nat, n: nat, f: bool, j: nat)
    requires i < n && j < Length(i, n, f)
    ensures RealIdx(i, n, f, j) < Length(i, n, f) && FakeIdx(i, n, f, RealIdx(i, n, f, j)) == j
    ensures FakeIdx(i, n, f, j) < Length(i, n, f) && RealIdx(i, n, f, FakeIdx(i, n, f, j)) == j
  {
    if f {
      ModOnce(j + i, n);
      ModOnce(RealIdx(i, n, f, j) + n - i, n);
      ModOnce(j + n - i, n);
      ModOnce(FakeIdx(i, n, f, j) + i, n);
    }
  }

  /** The last n of a sequence. */
  function LastOf<T>(s: seq<T>, n: nat): seq<T>
  {
    if |s| <= n then s else s[|s|-n..]
  }

  /** Element 0, element 1, and so on, of the slots. */
  function Elements<T>(slots: seq<T>, i: nat, f: bool): seq<T>
    requires i <= |slots|
  {
    if f then slots[i..] + slots[..i] else slots[..i]
  }

  lemma {:induction false} ElementsAfterPush<T>(slots: seq<T>, i: nat, f: bool, p: T)
    requires i < |slots|
    ensures var full := i + 1 == |slots|;
            Elements(slots[i := p], if full then 0 else i + 1, full || f)
            == (if f then Elements(slots, i, f)[1..] else Elements(slots, i, f)) + [p]
    ensures |Elements(slots, i, f)| == Length(i, |slots|, f) && (f ==> Elements(slots, i, f)[0] == slots[i])
  {
  }

  lemma {:induction false} LastOfPush<T>(s: seq<T>, n: nat, p: T)
    requires n > 0
    ensures |LastOf(s, n)| == if |s| < n then |s| else n
    ensures LastOf(s + [p], n) == (if |s| >= n then LastOf(s, n)[1..] else LastOf(s, n)) + [p]
  {
  }

  lemma {:induction false} ElementAt<T>(slots: seq<T>, i: nat, f: bool, j: nat)
    requires i < |slots| && j < Length(i, |slots|, f)
    ensures RealIdx(i, |slots|, f, j) < |slots| && slots[RealIdx(i, |slots|, f, j)] == Elements(slots, i, f)[j]
    ensures |Elements(slots, i, f)| == Length(i, |slots|, f)
  {
    if f {
      ModOnce(j + i, |slots|);
    }
  }

  class UtRingBuffer<T> {
    const n: nat
    const hasDtor: bool
    var d: array<T>
    var i: nat
    var f: bool
    ghost var pushed: seq<T>      // since the last clear
    ghost var copied: seq<T>      // ever
    ghost var destroyed: seq<T>   // ever, by the destructor

    /** utringbuffer_init. The slots start with arbitrary contents. */
    constructor (n: nat, hasDtor: bool, d: array<T>)
      requires d.Length == n && 2 * n < UINT_RANGE
      ensures Valid() && Contents() == [] && pushed == [] && copied == [] && destroyed == []
      ensures this.n == n && this.hasDtor == hasDtor && this.d == d
    {
      this.n, this.hasDtor, this.d := n, hasDtor, d;
      i, f := 0, false;
      pushed, copied, destroyed := [], [], [];
    }

    ghost function Contents(): (s: seq<T>)
      requires i <= d.Length
      reads this, d
    {
      Elements(d[..], i, f)
    }

    /** The buffer holds the last n elements pushed, and what was copied in and not destroyed. */
    ghost predicate Valid()
      reads this, d
    {
      && d.Length == n && 2 * n < UINT_RANGE && (if n == 0 then i == 0 && !f else i < n)
      && (f <==> n > 0 && |pushed| >= n)
      && Contents() == LastOf(pushed, n)
      && (hasDtor ==> copied == destroyed + Contents())
    }

    /** utringbuffer_eltptr. */
    function EltPtr(j: int): Ptr
      requires Valid()
      reads this, d
    {
      if 0 <= j < Length(i, n, f) then Slot(RealIdx(i, n, f, j)) else Null
    }

    /** utringbuffer_eltidx, for a slot. */
    function EltIdx(k: nat): nat
      requires Valid()
      reads this, d
    {
      FakeIdx(i, n, f, k)
    }

    /** utringbuffer_back. */
    function Back(): Ptr
      requires Valid()
      reads this, d
    {
      if i == 0 && !f then Null else EltPtr(Length(i, n, f) - 1)
    }

    /** utringbuffer_next. */
    function Next(e: Ptr): Ptr
      requires Valid()
      reads this, d
    {
      if e == Null then EltPtr(0) else EltPtr(EltIdx(e.k) + 1)
    }

    /** utringbuffer_prev. */
    function Prev(e: Ptr): Ptr
      requires Valid()
      reads this, d
    {
      if e == Null then Back() else EltPtr(EltIdx(e.k) - 1)
    }

    lemma {:induction false} HoldsTheLast()
      requires Valid()
      ensures i <= d.Length && Contents() == LastOf(pushed, n)
    {
    }

    /** Element j is the j-th of the last min(k, n) elements pushed, where k have been pushed since the last clear. */
    lemma {:induction false} EltPtrFindsElement(j: int)
      requires Valid()
      ensures EltPtr(j) == Null <==> !(0 <= j < |Contents()|)
      ensures |Contents()| == if |pushed| < n then |pushed| else n
      ensures 0 <= j < |Contents()| ==>
                && EltPtr(j).k < d.Length && d[EltPtr(j).k] == Contents()[j] == pushed[|pushed| - |Contents()| + j]
                && EltIdx(EltPtr(j).k) == j
    {
      if 0 <= j < |Contents()| {
        IndicesAreInverse(i, n, f, j);
        ElementAt(d[..], i, f, j);
      }
    }

    /** Stepping from NULL, and from element to element. */
    lemma {:induction false} Neighbours(j: int)
      requires Valid()
      ensures Next(Null) == EltPtr(0) && Prev(Null) == EltPtr(|Contents()| - 1)
      ensures 0 <= j < |Contents()| ==> Next(EltPtr(j)) == EltPtr(j + 1) && Prev(EltPtr(j)) == EltPtr(j - 1)
    {
      EltPtrFindsElement(j);
      EltPtrFindsElement(0);
    }

    /** utringbuffer_push_back. */
    method PushBack(p: T)
      requires Valid() && n > 0
      modifies this`i, this`f, this`pushed, this`copied, this`destroyed, d
      ensures Valid() && pushed == old(pushed) + [p] && copied == old(copied) + [p]
      ensures destroyed == old(destroyed) + if hasDtor && old(f) then [old(Contents())[0]] else []
    {
      hide LastOf, Elements;
      ghost var slots := d[..];
      ElementsAfterPush(slots, i, f, p);
      LastOfPush(pushed, n, p);
      if hasDtor && f {
        destroyed := destroyed + [d[i]];
      }
      d[i] := p;
      assert d[..] == slots[i := p];
      copied := copied + [p];
      pushed := pushed + [p];
      i := i + 1;
      if i == n {
        i := 0;
        f := true;
      }
    }

    /** utringbuffer_clear. */
    method Clear()
      requires Valid()
      modifies this`i, this`f, this`pushed, this`destroyed
      ensures Valid() && Contents() == [] && pushed == []
      ensures destroyed == old(destroyed) + if hasDtor then old(Contents()) else []
    {
      if hasDtor {
        var len := if f then n else i;
        ghost var was := Contents();
        for j := 0 to len
          invariant len == |was| && destroyed == old(destroyed) + was[..j]
          modifies this`destroyed
        {
          ElementAt(d[..], i, f, j);
          destroyed := destroyed + [d[RealIdx(i, n, f, j)]];
        }
      }
      i, f := 0, false;
      pushed := [];
    }

    /** Iteration with utringbuffer_next from NULL to NULL. */
    method Forwards() returns (visited: seq<T>)
      requires Valid()
      ensures visited == Contents()
    {
      HoldsTheLast();
      hide EltPtr, Next, Prev, Contents, UtRingBuffer<T>.Valid;
      visited := [];
      ghost var all := Contents();
      Neighbours(0);
      EltPtrFindsElement(0);
      var e := Next(Null);
      while e != Null
        invariant |visited| <= |all| && visited == all[..|visited|] && e == EltPtr(|visited|)
        decreases |all| - |visited|
      {
        EltPtrFindsElement(|visited|);
        Neighbours(|visited|);
        visited := visited + [d[e.k]];
        e := Next(e);
      }
      EltPtrFindsElement(|visited|);
    }

    /** Iteration with utringbuffer_prev from NULL to NULL. */
    method Backwards() returns (visited: seq<T>)
      requires Valid()
      ensures |visited| == |Contents()| && forall j :: 0 <= j < |visited| ==> visited[j] == Contents()[|visited|-1-j]
    {
      HoldsTheLast();
      hide EltPtr, Next, Prev, Contents, UtRingBuffer<T>.Valid;
      visited := [];
      ghost var all := Contents();
      Neighbours(0);
      var e := Prev(Null);
      while e != Null
        invariant |visited| <= |all| && e == EltPtr(|all| - 1 - |visited|)
        invariant forall j :: 0 <= j < |visited| ==> visited[j] == all[|all|-1-j]
        decreases |all| - |visited|
      {
        EltPtrFindsElement(|all| - 1 - |visited|);
        Neighbours(|all| - 1 - |visited|);
        visited := visited + [d[e.k]];
        e := Prev(e);
      }
      EltPtrFindsElement(|all| - 1 - |visited|);
    }
  }

  /** What pushing a whole sequence leaves depends on its last n elements only. */
  method PushAll<T>(a: UtRingBuffer<T>, s: seq<T>)
    requires a.Valid() && a.n > 0
    modifies a`i, a`f, a`pushed, a`copied, a`destroyed, a.d
    ensures a.Valid() && a.Contents() == LastOf(old(a.Contents()) + s, a.n)
    ensures a.copied == old(a.copied) + s
  {
    hide UtRingBuffer<T>.Valid, LastOf;
    a.HoldsTheLast();
    for k := 0 to |s|
      invariant a.Valid() && a.pushed == old(a.pushed) + s[..k] && a.copied == old(a.copied) + s[..k]
    {
      a.PushBack(s[k]);
    }
    a.HoldsTheLast();
    assert s[..|s|] == s;
    LastOfLast(old(a.pushed), s, a.n);
  }

  lemma {:induction false} LastOfLast<T>(s: seq<T>, t: seq<T>, n: nat)
    ensures LastOf(LastOf(s, n) + t, n) == LastOf(s + t, n)
  {
    if |s| > n {
      assert s + t == s[..|s|-n] + (s[|s|-n..] + t);
    }
  }
}
