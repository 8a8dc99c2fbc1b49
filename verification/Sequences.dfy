/** Sequences as lists of different things: what the parts of the model share. */
module Sequences {

  ghost predicate Distinct<T>(s: seq<T>)
  {
    forall i, j :: 0 <= i < j < |s| ==> s[i] != s[j]
  }

  ghost predicate Subset<T>(a: seq<T>, b: seq<T>)
  {
    forall i :: 0 <= i < |a| ==> a[i] in b
  }

  function Without<T>(s: seq<T>, i: nat): seq<T>
    requires i < |s|
  {
    s[..i] + s[i+1..]
  }

  function IndexOf<T(==)>(s: seq<T>, x: T): (i: nat)
    ensures i <= |s|
    ensures i < |s| ==> s[i] == x
    ensures x in s ==> i < |s|
  {
    if s == [] || s[0] == x then 0 else 1 + IndexOf(s[1..], x)
  }

  lemma {:induction false} IndexUnique<T>(xs: seq<T>, x: T, i: nat)
    requires Distinct(xs) && i < |xs| && xs[i] == x
    ensures IndexOf(xs, x) == i
  {
  }

  /** s without the first x. */
  function Remove<T(==)>(s: seq<T>, x: T): seq<T>
  {
    var i := IndexOf(s, x);
    if i < |s| then Without(s, i) else s
  }

  lemma {:induction false} RemoveAt<T>(s: seq<T>, x: T, i: nat)
    requires Distinct(s) && i < |s| && s[i] == x
    ensures Remove(s, x) == Without(s, i)
  {
    IndexUnique(s, x, i);
  }

  function Sum(xs: seq<nat>): nat
  {
    if xs == [] then 0 else Sum(xs[..|xs|-1]) + xs[|xs|-1]
  }
}
