/**
 Substring search of src/contrib/uthash/utstring.h: the two table builders, the two search
 loops and the two entry points, over the table of module KmpTable.
 */
module UtString {
  import opened KmpTable

  const INT_MAX: nat := 0x7FFF_FFFF

  // ------------------------------------------------------------ left to right

  /** _utstring_BuildTable. */
  method BuildTable(needle: string, table: array<int>)
    requires table.Length > |needle|
    modifies table
    ensures IsTable(needle, table[..], |needle| + 1)
    ensures forall k :: |needle| < k < table.Length ==> table[k] == old(table[k])
  {
    var n := |needle|;
    var i, j := 0, -1;
    table[0] := j;
    while i < n
      invariant 0 <= i <= n
      invariant IsLongestBorder(needle, i, j)
      invariant forall k :: 0 <= k <= i ==> IsEntry(needle, k, table[k])
      invariant forall k :: n < k < table.Length ==> table[k] == old(table[k])
    {
      while j > -1 && needle[i] != needle[j]
        invariant Candidate(needle, i, j)
        modifies {}
        decreases j
      {
        CandidateFails(needle, i, j, table[j]);
        j := table[j];
      }
      CandidateMatches(needle, i, j);
      label before:
      i := i + 1;
      j := j + 1;
      if i < n {
        if needle[i] == needle[j] {
          StoredEntry(needle, i, j, table[j]);
          table[i] := table[j];
        } else {
          StoredEntry(needle, i, j, j);
          table[i] := j;
        }
      } else {
        table[i] := j;
      }
      assert forall k :: 0 <= k < i ==> table[k] == old@before(table[k]);
    }
  }

  /** _utstring_find: the first occurrence, or -1; comparisons is the number of characters compared. */
  method FindFirst(hay: string, needle: string, table: array<int>) returns (position: int, ghost comparisons: nat)
    requires |needle| > 0 && table.Length > |needle| && IsTable(needle, table[..], |needle|)
    requires |hay| <= INT_MAX && |needle| <= INT_MAX
    ensures position == -1 ==> forall p :: !OccursAt(hay, needle, p)
    ensures position != -1 ==> OccursAt(hay, needle, position) && forall p :: OccursAt(hay, needle, p) ==> position <= p
    ensures comparisons <= 2 * |hay|
  {
    var i, j := 0, 0;
    position := -1;
    comparisons := 0;
    assert hay[0..0] == needle[..0];
    while j < |hay| && |hay| - j + i >= |needle|
      invariant 0 <= i < |needle| && 0 <= j <= |hay|
      invariant Matching(hay, needle, i, j)
      invariant comparisons + i <= 2 * j
      invariant position == -1
      decreases |hay| - j
    {
      while i > -1 && needle[i] != hay[j]
        invariant -1 <= i < |needle|
        invariant Matching(hay, needle, i, j)
        invariant comparisons + i <= 2 * j
        decreases i
      {
        comparisons := comparisons + 1;
        MismatchShifts(hay, needle, i, j, table[i]);
        i := table[i];
      }
      if i > -1 {
        comparisons := comparisons + 1;
      }
      MatchAdvances(hay, needle, i, j);
      i := i + 1;
      j := j + 1;
      if i >= |needle| {
        position := j - i;
        FullMatch(hay, needle, j);
        return;
      }
    }
    NoRoom(hay, needle, i, j);
  }

  // ------------------------------------------------------------ right to left

  /** _utstring_BuildTableR. */
  method BuildTableR(needle: string, table: array<int>)
    requires table.Length > |needle|
    modifies table
    ensures IsMirrorTable(needle, table[..], 0)
    ensures forall k :: |needle| < k < table.Length ==> table[k] == old(table[k])
  {
    var n := |needle|;
    hide IsEntry, Candidate, IsLongestBorder;
    ghost var rev := Reversed(needle);
    var i := n - 1;
    var j := i + 1;
    ghost var ri, rj := 0, -1;    // i and j seen from the right-hand end
    ghost var image := [-1];      // the entries so far, likewise
    table[i + 1] := j;
    NothingYet(rev);
    while i >= 0
      invariant -1 <= i < n && ri == n - 1 - i && rj == n - 1 - j && |image| == ri + 1
      invariant IsLongestBorder(rev, ri, rj)
      invariant IsTable(rev, image, ri + 1)
      invariant forall k :: 0 <= k <= ri ==> image[k] == n - 1 - table[n - k]
      invariant forall k :: n < k < table.Length ==> table[k] == old(table[k])
    {
      assert rev[ri] == needle[i];
      LongestIsCandidate(rev, ri, rj);
      while j < n && needle[i] != needle[j]
        invariant rj == n - 1 - j && -1 <= rj && (rj < ri || rj == -1)
        invariant Candidate(rev, ri, rj)
        modifies {}
        decreases n - j
      {
        assert rev[rj] == needle[j];
        CandidateFails(rev, ri, rj, image[rj]);
        j := table[j + 1];
        rj := image[rj];
      }
      assert j < n ==> rev[rj] == needle[j];
      CandidateMatches(rev, ri, rj);
      label before:
      i := i - 1;
      j := j - 1;
      ri, rj := ri + 1, rj + 1;
      ghost var e := rj;
      if i >= 0 {
        assert rev[ri] == needle[i] && rev[rj] == needle[j];
        if needle[i] == needle[j] {
          e := image[rj];
          table[i + 1] := table[j + 1];
        } else {
          table[i + 1] := j;
        }
        StoredEntry(rev, ri, rj, e);
      } else {
        table[i + 1] := j;
        LastEntry(rev, rj);
      }
      assert forall k :: i + 1 < k <= n ==> table[k] == old@before(table[k]);
      TableGrows(rev, image, e);
      image := image + [e];
    }
    forall k | 0 <= k <= n
      ensures IsEntry(rev, n - k, n - 1 - table[k])
    {
      assert image[n - k] == n - 1 - table[n - (n - k)];
    }
  }

  /** _utstring_findR: the last occurrence, or -1. */
  method FindLast(hay: string, needle: string, table: array<int>) returns (position: int, ghost comparisons: nat)
    requires |needle| > 0 && table.Length > |needle| && IsMirrorTable(needle, table[..], 1)
    requires |hay| <= INT_MAX && |needle| <= INT_MAX
    ensures position == -1 ==> forall p :: !OccursAt(hay, needle, p)
    ensures position != -1 ==> IsLast(hay, needle, position)
    ensures comparisons <= 2 * |hay|
  {
    var m, n := |hay|, |needle|;
    hide IsEntry, Matching, OccursAt;
    ghost var revHay, rev := Reversed(hay), Reversed(needle);
    var j, i := m - 1, n - 1;
    ghost var ri, rj := 0, 0;    // i and j seen from the right-hand end
    position := -1;
    comparisons := 0;
    NothingMatched(revHay, rev);
    while j >= 0 && j >= i
      invariant 0 <= i < n && -1 <= j < m && ri == n - 1 - i && rj == m - 1 - j
      invariant Matching(revHay, rev, ri, rj)
      invariant comparisons + ri <= 2 * rj
      invariant position == -1
      decreases j
    {
      assert revHay[rj] == hay[j];
      while i < n && needle[i] != hay[j]
        invariant 0 <= i <= n && ri == n - 1 - i
        invariant Matching(revHay, rev, ri, rj)
        invariant comparisons + ri <= 2 * rj
        decreases n - i
      {
        comparisons := comparisons + 1;
        assert rev[ri] == needle[i];
        MismatchShifts(revHay, rev, ri, rj, n - 1 - table[i + 1]);
        i := table[i + 1];
        ri := n - 1 - i;
      }
      if i < n {
        comparisons := comparisons + 1;
        assert rev[ri] == needle[i];
      }
      MatchAdvances(revHay, rev, ri, rj);
      i := i - 1;
      j := j - 1;
      ri, rj := ri + 1, rj + 1;
      if i < 0 {
        position := j + 1;
        FullMatch(revHay, rev, rj);
        LastMirrorsFirst(hay, needle, position);
        return;
      }
    }
    NoRoom(revHay, rev, ri, rj);
    forall p
      ensures !OccursAt(hay, needle, p)
    {
      OccurrenceMirrors(hay, needle, p);
    }
  }

  // ------------------------------------------------------------ entry points

  /** utstring_find: the first occurrence that starts at or after the start position, which counts from the end when
      negative. */
  method Find(s: string, start: int, needle: string) returns (position: int)
    requires |s| <= INT_MAX && -|s| <= start
    ensures needle == [] ==> position == -1
    ensures start >= 0 && needle != [] && position == -1 ==> forall p :: start <= p ==> !OccursAt(s, needle, p)
    ensures start >= 0 && position != -1 ==>
              && start <= position && OccursAt(s, needle, position)
              && forall p :: start <= p && OccursAt(s, needle, p) ==> position <= p
    ensures start < 0 && needle != [] && position == -1 ==> forall p :: |s| + start <= p ==> !OccursAt(s, needle, p)
    ensures start < 0 && position != -1 ==>
              && |s| + start <= position && OccursAt(s, needle, position)
              && forall p :: |s| + start <= p && OccursAt(s, needle, p) ==> position <= p
  {
    var from := start;
    if from < 0 {
      from := |s| + start;
    }
    var haystackLen := |s| - from;
    position := -1;
    if haystackLen >= |needle| && |needle| > 0 {
      var table := new int[|needle| + 1];
      BuildTable(needle, table);
      ghost var comparisons;
      position, comparisons := FindFirst(s[from..], needle, table);
      forall p | from <= p
        ensures OccursAt(s, needle, p) <==> OccursAt(s[from..], needle, p - from)
      {
        SuffixOccurrence(s, needle, from, p);
      }
      forall q | 0 <= q
        ensures OccursAt(s[from..], needle, q) <==> OccursAt(s, needle, q + from)
      {
        SuffixOccurrence(s, needle, from, q + from);
      }
      if position >= 0 {
        position := position + from;
      }
    }
  }

  lemma {:induction false} SuffixOccurrence(s: string, needle: string, from: nat, p: int)
    requires from <= |s| && from <= p
    ensures OccursAt(s, needle, p) <==> OccursAt(s[from..], needle, p - from)
  {
    if p + |needle| <= |s| {
      assert s[from..][p-from..p-from+|needle|] == s[p..p+|needle|];
    }
  }

  /** utstring_findR: the last occurrence that ends at or before the start position, which counts from the end when
      negative. */
  method FindR(s: string, start: int, needle: string) returns (position: int)
    requires |s| <= INT_MAX && start < |s|
    ensures needle == [] ==> position == -1
    ensures start >= 0 && needle != [] && position == -1 ==>
              forall p :: p + |needle| <= start + 1 ==> !OccursAt(s, needle, p)
    ensures start >= 0 && position != -1 ==>
              && position + |needle| <= start + 1 && OccursAt(s, needle, position)
              && forall p :: p + |needle| <= start + 1 && OccursAt(s, needle, p) ==> p <= position
    ensures start < 0 && needle != [] && position == -1 ==>
              forall p :: p + |needle| <= |s| + start + 1 ==> !OccursAt(s, needle, p)
    ensures start < 0 && position != -1 ==>
              && position + |needle| <= |s| + start + 1 && OccursAt(s, needle, position)
              && forall p :: p + |needle| <= |s| + start + 1 && OccursAt(s, needle, p) ==> p <= position
  {
    var last := start;
    if last < 0 {
      last := |s| + start;
    }
    var haystackLen := last + 1;
    position := -1;
    if haystackLen >= |needle| && |needle| > 0 {
      var table := new int[|needle| + 1];
      BuildTableR(needle, table);
      ghost var comparisons;
      position, comparisons := FindLast(s[..haystackLen], needle, table);
      forall p
        ensures OccursAt(s[..haystackLen], needle, p) <==> p + |needle| <= haystackLen && OccursAt(s, needle, p)
      {
        PrefixOccurrence(s, needle, haystackLen, p);
      }
    }
  }

  lemma {:induction false} PrefixOccurrence(s: string, needle: string, to: nat, p: int)
    requires to <= |s|
    ensures OccursAt(s[..to], needle, p) <==> p + |needle| <= to && OccursAt(s, needle, p)
  {
    if 0 <= p && p + |needle| <= to {
      assert s[..to][p..p+|needle|] == s[p..p+|needle|];
    }
  }
}
