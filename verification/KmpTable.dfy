/** What the failure table of src/contrib/uthash/utstring.h holds, and why the search may skip by it. */
module KmpTable {

  /** The first k characters of the needle are also the last k of its first i. */
  predicate Border(needle: string, i: nat, k: int)
  {
    0 <= k < i <= |needle| && needle[..k] == needle[i-k..i]
  }

  /** A border after which the character that failed at i is not tried again. */
  predicate Useful(needle: string, i: nat, k: int)
  {
    Border(needle, i, k) && (i < |needle| ==> needle[k] != needle[i])
  }

  /** Entry i of the optimised table: the longest useful border of the first i characters, or -1. Entry n, which
      has no failing character, is the longest border of the whole needle. */
  ghost predicate IsEntry(needle: string, i: nat, e: int)
  {
    (e == -1 || Useful(needle, i, e)) && forall k :: Useful(needle, i, k) ==> k <= e
  }

  ghost predicate IsLongestBorder(needle: string, i: nat, e: int)
  {
    (e == -1 || Border(needle, i, e)) && forall k :: Border(needle, i, k) ==> k <= e
  }

  /** All entries below hi are exact. */
  ghost predicate IsTable(needle: string, table: seq<int>, hi: nat)
  {
    hi <= |table| && forall i :: 0 <= i < hi ==> IsEntry(needle, i, table[i])
  }

  lemma {:induction false} EntryUnique(needle: string, i: nat, e: int, e': int)
    requires IsEntry(needle, i, e) && IsEntry(needle, i, e')
    ensures e == e'
  {
  }

  // ----------------------------------------------------------------- borders

  /** A border of a border is a border. */
  lemma {:induction false} BorderOfBorder(needle: string, i: nat, j: int, k: int)
    requires Border(needle, i, j) && Border(needle, j, k)
    ensures Border(needle, i, k)
  {
    assert needle[i-k..i] == needle[i-j..i][j-k..];
    assert needle[j-k..j] == needle[..j][j-k..];
  }

  /** Of two borders, the shorter is a border of the longer. */
  lemma {:induction false} ShorterBorder(needle: string, i: nat, j: int, k: int)
    requires Border(needle, i, j) && Border(needle, i, k) && k < j
    ensures Border(needle, j, k)
  {
    assert needle[i-k..i] == needle[i-j..i][j-k..];
    assert needle[j-k..j] == needle[..j][j-k..];
  }

  /** Borders grow by one matching character. */
  lemma {:induction false} BorderGrows(needle: string, i: nat, k: int)
    requires 0 <= k < i < |needle|
    ensures Border(needle, i + 1, k + 1) <==> Border(needle, i, k) && needle[k] == needle[i]
  {
    var a, b := needle[..k+1], needle[i-k..i+1];
    assert a == needle[..k] + [needle[k]];
    assert b == needle[i-k..i] + [needle[i]];
  }

  // ------------------------------------------------------ building the table

  /** The state of the inner loop of _utstring_BuildTable: every border longer than j has been refuted by needle[i]. */
  ghost predicate Candidate(needle: string, i: nat, j: int)
  {
    && i < |needle|
    && (j == -1 || Border(needle, i, j))
    && forall k :: Border(needle, i, k) && k > j ==> needle[k] != needle[i]
  }

  lemma {:induction false} NothingYet(needle: string)
    ensures IsLongestBorder(needle, 0, -1) && IsEntry(needle, 0, -1)
  {
  }

  lemma {:induction false} CandidateFails(needle: string, i: nat, j: int, e: int)
    requires Candidate(needle, i, j) && j > -1 && needle[i] != needle[j] && IsEntry(needle, j, e)
    ensures Candidate(needle, i, e) && -1 <= e < j
  {
    if e != -1 {
      BorderOfBorder(needle, i, j, e);
    }
    forall k | Border(needle, i, k) && k > e
      ensures needle[k] != needle[i]
    {
      if k < j {
        ShorterBorder(needle, i, j, k);
        assert Useful(needle, j, k) <==> needle[k] != needle[j];
      }
    }
  }

  lemma {:induction false} CandidateMatches(needle: string, i: nat, j: int)
    requires Candidate(needle, i, j) && (j == -1 || needle[i] == needle[j])
    ensures IsLongestBorder(needle, i + 1, j + 1) && -1 <= j < i + 1
  {
    if j != -1 {
      BorderGrows(needle, i, j);
    } else {
      assert needle[..0] == needle[i+1..i+1];
    }
    var next := i + 1;
    forall k | Border(needle, next, k)
      ensures k <= j + 1
    {
      if k > 0 {
        BorderGrows(needle, i, k - 1);
      }
    }
  }

  lemma {:induction false} LongestIsCandidate(needle: string, i: nat, j: int)
    requires i < |needle| && IsLongestBorder(needle, i, j)
    ensures Candidate(needle, i, j) && -1 <= j && j <= i
    ensures j < i || j == -1
  {
  }

  /** The value stored for i, given the longest border j of the first i characters. */
  lemma {:induction false} StoredEntry(needle: string, i: nat, j: int, e: int)
    requires 0 < i < |needle| && IsLongestBorder(needle, i, j) && j >= 0
    requires if needle[i] == needle[j] then IsEntry(needle, j, e) else e == j
    ensures IsEntry(needle, i, e)
  {
    if needle[i] == needle[j] {
      if e != -1 {
        BorderOfBorder(needle, i, j, e);
      }
      forall k | Useful(needle, i, k)
        ensures k <= e
      {
        ShorterBorder(needle, i, j, k);
        assert Useful(needle, j, k);
      }
    }
  }

  lemma {:induction false} LastEntry(needle: string, j: int)
    requires IsLongestBorder(needle, |needle|, j)
    ensures IsEntry(needle, |needle|, j)
  {
    assert forall k :: Useful(needle, |needle|, k) <==> Border(needle, |needle|, k);
  }

  lemma {:induction false} TableGrows(needle: string, table: seq<int>, e: int)
    requires IsTable(needle, table, |table|) && IsEntry(needle, |table|, e)
    ensures IsTable(needle, table + [e], |table| + 1)
  {
  }

  // ------------------------------------------------------------- searching

  predicate OccursAt(hay: string, needle: string, p: int)
  {
    0 <= p && p + |needle| <= |hay| && hay[p..p+|needle|] == needle
  }

  /** The state of the search loop: i characters match up to position j, and nothing starts before them. When
      i is -1 nothing starts at or before j. */
  ghost predicate Matching(hay: string, needle: string, i: int, j: nat)
  {
    && -1 <= i <= |needle| && i <= j <= |hay|
    && (i >= 0 ==> hay[j-i..j] == needle[..i])
    && forall p :: OccursAt(hay, needle, p) ==> p >= j - i
  }

  lemma {:induction false} NothingMatched(hay: string, needle: string)
    ensures Matching(hay, needle, 0, 0)
  {
    assert hay[0..0] == needle[..0];
  }

  lemma {:induction false} MismatchShifts(hay: string, needle: string, i: int, j: nat, e: int)
    requires Matching(hay, needle, i, j) && 0 <= i < |needle| && j < |hay| && needle[i] != hay[j]
    requires IsEntry(needle, i, e)
    ensures Matching(hay, needle, e, j) && -1 <= e < i
  {
    if e != -1 {
      assert hay[j-e..j] == hay[j-i..j][i-e..] == needle[..i][i-e..] == needle[i-e..i];
    }
    forall p | OccursAt(hay, needle, p)
      ensures p >= j - e
    {
      if p <= j {
        OverlapIsUseful(hay, needle, i, j, p);
      }
    }
  }

  /** An occurrence that starts inside the current match overlaps it in a useful border. */
  lemma {:induction false} OverlapIsUseful(hay: string, needle: string, i: int, j: nat, p: int)
    requires 0 <= i < |needle| && i <= j < |hay| && hay[j-i..j] == needle[..i] && needle[i] != hay[j]
    requires OccursAt(hay, needle, p) && j - i <= p <= j
    ensures Useful(needle, i, j - p)
  {
    var k := j - p;
    var found := hay[p..p+|needle|];
    assert found[k] == hay[j];
    assert needle[..k] == found[..k] == hay[p..j] == hay[j-i..j][i-k..] == needle[i-k..i];
  }

  lemma {:induction false} MatchAdvances(hay: string, needle: string, i: int, j: nat)
    requires Matching(hay, needle, i, j) && i < |needle| && j < |hay| && (i == -1 || needle[i] == hay[j])
    ensures Matching(hay, needle, i + 1, j + 1)
  {
    if i != -1 {
      assert hay[j-i..j+1] == hay[j-i..j] + [hay[j]];
      assert needle[..i+1] == needle[..i] + [needle[i]];
    } else {
      assert hay[j+1..j+1] == needle[..0];
    }
  }

  /** A full match is the first occurrence. */
  lemma {:induction false} FullMatch(hay: string, needle: string, j: nat)
    requires Matching(hay, needle, |needle|, j)
    ensures OccursAt(hay, needle, j - |needle|)
    ensures forall p :: OccursAt(hay, needle, p) ==> p >= j - |needle|
  {
    assert needle[..|needle|] == needle;
  }

  /** When too little is left of the haystack, there is no occurrence at all. */
  lemma {:induction false} NoRoom(hay: string, needle: string, i: int, j: nat)
    requires Matching(hay, needle, i, j) && i < |needle| && (j >= |hay| || |hay| - j + i < |needle|)
    ensures forall p :: !OccursAt(hay, needle, p)
  {
  }

  // ------------------------------------------------------------- mirroring

  function Reversed(s: string): (r: string)
    ensures |r| == |s| && forall k :: 0 <= k < |s| ==> r[k] == s[|s|-1-k]
  {
    seq(|s|, k requires 0 <= k < |s| => s[|s|-1-k])
  }

  /** The table of _utstring_BuildTableR from entry lo on: entry k, seen from the right-hand end, is entry n - k of
      the reversed needle. */
  ghost predicate IsMirrorTable(needle: string, table: seq<int>, lo: nat)
  {
    && |needle| < |table|
    && forall k :: lo <= k <= |needle| ==> IsEntry(Reversed(needle), |needle| - k, |needle| - 1 - table[k])
  }

  /** The two builders' tables are images of each other under reversal of the needle and of the index. */
  lemma {:induction false} TablesMirror(needle: string, table: seq<int>, tableR: seq<int>, i: nat)
    requires IsTable(Reversed(needle), table, |needle| + 1) && IsMirrorTable(needle, tableR, 0) && i <= |needle|
    ensures tableR[|needle| - i] == |needle| - 1 - table[i]
  {
    EntryUnique(Reversed(needle), i, table[i], |needle| - 1 - tableR[|needle| - i]);
  }

  ghost predicate IsFirst(hay: string, needle: string, p: int)
  {
    OccursAt(hay, needle, p) && forall q :: OccursAt(hay, needle, q) ==> p <= q
  }

  ghost predicate IsLast(hay: string, needle: string, p: int)
  {
    OccursAt(hay, needle, p) && forall q :: OccursAt(hay, needle, q) ==> q <= p
  }

  lemma {:induction false} OccurrenceMirrors(hay: string, needle: string, p: int)
    ensures OccursAt(hay, needle, p) <==> OccursAt(Reversed(hay), Reversed(needle), |hay| - |needle| - p)
  {
    var q := |hay| - |needle| - p;
    if 0 <= p && p + |needle| <= |hay| {
      var a, b := hay[p..p+|needle|], Reversed(hay)[q..q+|needle|];
      assert forall k :: 0 <= k < |needle| ==> b[k] == a[|needle|-1-k];
      assert forall k :: 0 <= k < |needle| ==> a[k] == b[|needle|-1-k];
      assert forall k :: 0 <= k < |needle| ==> needle[k] == Reversed(needle)[|needle|-1-k];
    }
  }

  /** The last occurrence is the mirror image of the first occurrence in the reversed strings. */
  lemma {:induction false} LastMirrorsFirst(hay: string, needle: string, p: int)
    ensures IsLast(hay, needle, p) <==> IsFirst(Reversed(hay), Reversed(needle), |hay| - |needle| - p)
  {
    var m := |hay| - |needle|;
    OccurrenceMirrors(hay, needle, p);
    forall q
      ensures OccursAt(hay, needle, q) <==> OccursAt(Reversed(hay), Reversed(needle), m - q)
    {
      OccurrenceMirrors(hay, needle, q);
    }
    forall q
      ensures OccursAt(Reversed(hay), Reversed(needle), q) <==> OccursAt(hay, needle, m - q)
    {
      OccurrenceMirrors(hay, needle, m - q);
    }
  }
}
