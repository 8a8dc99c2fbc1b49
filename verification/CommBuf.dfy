/** The receive buffer of src/server/commbuf.c, and the lines that come out of it. */
module CommBuf {
  newtype byte = x: int | 0 <= x < 256

  const INT_MAX: nat := 0x7fff_ffff

  // ------------------------------------------------- the lines of a stream

  ghost predicate SepAt(buf: seq<byte>, sep: seq<byte>, i: int)
  {
    0 <= i && i + |sep| <= |buf| && buf[i..i+|sep|] == sep
  }

  /** The separator stands at the end of line, and nowhere else in it. */
  ghost predicate IsLine(line: seq<byte>, sep: seq<byte>)
  {
    SepAt(line, sep, |line| - |sep|) && forall i :: i < |line| - |sep| ==> !SepAt(line, sep, i)
  }

  /** Where the first line of buf ends; 0 when buf has no complete line. */
  ghost predicate FirstLineEnds(buf: seq<byte>, sep: seq<byte>, n: nat)
  {
    if n == 0 then forall i :: !SepAt(buf, sep, i)
    else n <= |buf| && SepAt(buf, sep, n - |sep|) && forall i :: i < n - |sep| ==> !SepAt(buf, sep, i)
  }

  /** The first occurrence of the separator, or -1. */
  ghost predicate IsFirstSep(buf: seq<byte>, sep: seq<byte>, at: int)
  {
    if at == -1 then forall i :: !SepAt(buf, sep, i)
    else SepAt(buf, sep, at) && forall i :: i < at ==> !SepAt(buf, sep, i)
  }

  ghost function LineEnd(buf: seq<byte>, sep: seq<byte>, from: nat := 0): (n: nat)
    requires sep != [] && forall i :: i < from ==> !SepAt(buf, sep, i)
    ensures FirstLineEnds(buf, sep, n)
    decreases |buf| - from
  {
    if from + |sep| > |buf| then 0
    else if SepAt(buf, sep, from) then from + |sep|
    else LineEnd(buf, sep, from + 1)
  }

  lemma {:induction false} LineEndUnique(buf: seq<byte>, sep: seq<byte>, n: nat, n': nat)
    requires sep != [] && FirstLineEnds(buf, sep, n) && FirstLineEnds(buf, sep, n')
    ensures n == n'
  {
  }

  /** The complete lines of a stream, separators included. */
  ghost function Lines(stream: seq<byte>, sep: seq<byte>): seq<seq<byte>>
    requires sep != []
    decreases |stream|
  {
    var n := LineEnd(stream, sep);
    if n == 0 then [] else [stream[..n]] + Lines(stream[n..], sep)
  }

  /** What follows the last complete line. */
  ghost function Remainder(stream: seq<byte>, sep: seq<byte>): (r: seq<byte>)
    requires sep != []
    ensures |r| <= |stream|
    decreases |stream|
  {
    var n := LineEnd(stream, sep);
    if n == 0 then stream else Remainder(stream[n..], sep)
  }

  function Joined(parts: seq<seq<byte>>): seq<byte>
  {
    if parts == [] then [] else parts[0] + Joined(parts[1..])
  }

  /** A division of the stream into lines and an incomplete rest. */
  ghost predicate Splits(stream: seq<byte>, sep: seq<byte>, lines: seq<seq<byte>>, rest: seq<byte>)
  {
    && stream == Joined(lines) + rest
    && (forall k :: 0 <= k < |lines| ==> IsLine(lines[k], sep))
    && (forall i :: !SepAt(rest, sep, i))
  }

  lemma {:induction false} SepAtInPart(a: seq<byte>, b: seq<byte>, sep: seq<byte>, i: int)
    requires i + |sep| <= |a|
    ensures SepAt(a + b, sep, i) <==> SepAt(a, sep, i)
  {
    if 0 <= i {
      assert (a + b)[i..i+|sep|] == a[i..i+|sep|];
    }
  }

  lemma {:induction false} FirstLineIsLine(stream: seq<byte>, sep: seq<byte>, n: nat)
    requires sep != [] && n <= |stream|
    ensures n > 0 && FirstLineEnds(stream, sep, n) <==> n > 0 && IsLine(stream[..n], sep)
  {
    assert stream == stream[..n] + stream[n..];
    forall i | i <= n - |sep|
      ensures SepAt(stream, sep, i) <==> SepAt(stream[..n], sep, i)
    {
      SepAtInPart(stream[..n], stream[n..], sep, i);
    }
  }

  /** Lines and Remainder divide the stream. */
  lemma {:induction false} LinesSplit(stream: seq<byte>, sep: seq<byte>)
    requires sep != []
    ensures Splits(stream, sep, Lines(stream, sep), Remainder(stream, sep))
    decreases |stream|
  {
    hide LineEnd, IsLine;
    var n := LineEnd(stream, sep);
    if n > 0 {
      LinesSplit(stream[n..], sep);
      FirstLineIsLine(stream, sep, n);
      SplitsCons(stream, sep, n, Lines(stream[n..], sep), Remainder(stream[n..], sep));
    } else {
      assert Joined([]) + stream == stream;
    }
  }

  lemma {:induction false} SplitsCons(stream: seq<byte>, sep: seq<byte>, n: nat, lines: seq<seq<byte>>, rest: seq<byte>)
    requires n <= |stream| && IsLine(stream[..n], sep) && Splits(stream[n..], sep, lines, rest)
    ensures Splits(stream, sep, [stream[..n]] + lines, rest)
  {
    hide SepAt, IsLine;
    assert ([stream[..n]] + lines)[1..] == lines;
    assert stream == stream[..n] + (Joined(lines) + rest);
  }

  /** There is no other such division. */
  lemma {:induction false} SplitUnique(stream: seq<byte>, sep: seq<byte>, lines: seq<seq<byte>>, rest: seq<byte>)
    requires sep != [] && Splits(stream, sep, lines, rest)
    ensures lines == Lines(stream, sep) && rest == Remainder(stream, sep)
    decreases |lines|
  {
    if lines == [] {
      assert stream == rest;
      LineEndUnique(stream, sep, LineEnd(stream, sep), 0);
    } else {
      var n := |lines[0]|;
      var tail := Joined(lines[1..]) + rest;
      assert stream == lines[0] + tail;
      assert stream[..n] == lines[0] && stream[n..] == tail;
      assert IsLine(lines[0], sep);
      FirstLineIsLine(stream, sep, n);
      LineEndUnique(stream, sep, LineEnd(stream, sep), n);
      SplitUnique(tail, sep, lines[1..], rest);
    }
  }

  /** Lines may be taken out before the rest of the stream has arrived. */
  lemma {:induction false} TakeEarly(a: seq<byte>, b: seq<byte>, sep: seq<byte>)
    requires sep != []
    ensures Lines(a + b, sep) == Lines(a, sep) + Lines(Remainder(a, sep) + b, sep)
    ensures Remainder(a + b, sep) == Remainder(Remainder(a, sep) + b, sep)
    decreases |a|
  {
    var n := LineEnd(a, sep);
    if n > 0 {
      forall i | i <= n - |sep|
        ensures SepAt(a + b, sep, i) <==> SepAt(a, sep, i)
      {
        SepAtInPart(a, b, sep, i);
      }
      LineEndUnique(a + b, sep, LineEnd(a + b, sep), n);
      assert (a + b)[..n] == a[..n] && (a + b)[n..] == a[n..] + b;
      TakeEarly(a[n..], b, sep);
    }
  }

  // ------------------------------------------------------------- chunks

  /** The buffer after the chunks have been added, each followed by a drain. */
  ghost function Kept(chunks: seq<seq<byte>>, sep: seq<byte>): seq<byte>
    requires sep != []
  {
    if chunks == [] then []
    else Remainder(Kept(chunks[..|chunks|-1], sep) + chunks[|chunks|-1], sep)
  }

  /** All lines drained meanwhile. */
  ghost function Drained(chunks: seq<seq<byte>>, sep: seq<byte>): seq<seq<byte>>
    requires sep != []
  {
    if chunks == [] then []
    else
      var init, last := chunks[..|chunks|-1], chunks[|chunks|-1];
      Drained(init, sep) + Lines(Kept(init, sep) + last, sep)
  }

  lemma {:induction false} JoinedAppend(parts: seq<seq<byte>>, last: seq<byte>)
    ensures Joined(parts + [last]) == Joined(parts) + last
  {
    if parts == [] {
      assert parts + [last] == [last];
      assert Joined([last]) == last + Joined([]);
    } else {
      assert (parts + [last])[1..] == parts[1..] + [last];
      JoinedAppend(parts[1..], last);
    }
  }

  /** How the stream is cut into chunks makes no difference. */
  lemma {:induction false} ChunkingDoesNotMatter(chunks: seq<seq<byte>>, sep: seq<byte>)
    requires sep != []
    ensures Drained(chunks, sep) == Lines(Joined(chunks), sep)
    ensures Kept(chunks, sep) == Remainder(Joined(chunks), sep)
  {
    if chunks == [] {
      assert forall i :: !SepAt([], sep, i);
      LineEndUnique([], sep, LineEnd([], sep), 0);
    } else {
      var init, last := chunks[..|chunks|-1], chunks[|chunks|-1];
      assert chunks == init + [last];
      ChunkingDoesNotMatter(init, sep);
      JoinedAppend(init, last);
      TakeEarly(Joined(init), last, sep);
    }
  }

  // ----------------------------------------------------------- the buffer

  /** realloc: a block of the given size with the same bytes, as far as there is room. */
  method Realloc(block: array<byte>, size: nat) returns (r: array<byte>)
    ensures fresh(r) && r.Length == size
    ensures forall i :: 0 <= i < size && i < block.Length ==> r[i] == block[i]
  {
    r := new byte[size](i requires 0 <= i reads block => if i < block.Length then block[i] else 0);
  }

  class CommunicationBuffer {
    var recvBuf: array<byte>
    var recvBufSz: nat

    ghost predicate Valid()
      reads this
    {
      recvBufSz <= recvBuf.Length
    }

    /** The bytes that have been received and not extracted. */
    ghost function Pending(): seq<byte>
      requires Valid()
      reads this, recvBuf
    {
      recvBuf[..recvBufSz]
    }

    constructor ()
      ensures Valid() && fresh(recvBuf) && Pending() == []
    {
      recvBuf := new byte[0];
      recvBufSz := 0;
    }

    /** commbuf_add_to_recv_buffer. The block is resized to hold exactly the pending bytes and the new ones. For
        resizing it to nothing the C library may return no block, which REALLOC takes for a failed allocation and ends
        the process; emptyBlock says what it returns, and alive whether the process goes on. */
    method AddToRecvBuffer(data: seq<byte>, emptyBlock: bool) returns (alive: bool)
      requires Valid()
      modifies this
      ensures Valid() && Pending() == old(Pending()) + data && (recvBuf == old(recvBuf) || fresh(recvBuf))
      ensures alive <==> old(Pending()) + data != [] || emptyBlock
    {
      if recvBufSz + |data| == 0 && !emptyBlock {
        return false;
      }
      recvBuf := Realloc(recvBuf, recvBufSz + |data|);
      forall i | 0 <= i < |data| {
        recvBuf[recvBufSz + i] := data[i];
      }
      recvBufSz := recvBufSz + |data|;
      return true;
    }

    /** commbuf_extract_from_recv_buffer: everything there is. No block is handed out when there is nothing. */
    method Extract() returns (sz: nat, data: array?<byte>)
      requires Valid()
      modifies this`recvBufSz
      ensures Valid() && Pending() == [] && sz == |old(Pending())|
      ensures if sz == 0 then data == null else data != null && fresh(data) && data[..] == old(Pending())
    {
      sz := recvBufSz;
      data := null;
      if recvBufSz > 0 {
        data := new byte[recvBufSz](i requires 0 <= i < recvBufSz <= recvBuf.Length reads this, recvBuf => recvBuf[i]);
        recvBufSz := 0;
      }
    }

    /** The search loop of commbuf_extract_line_from_recv_buffer. */
    method FindSeparator(sep: seq<byte>) returns (lenToReturn: int)
      requires Valid() && recvBufSz < INT_MAX && |sep| <= INT_MAX
      ensures IsFirstSep(Pending(), sep, lenToReturn)
    {
      lenToReturn := -1;
      var i := 0;
      while i < recvBufSz - |sep| + 1
        invariant 0 <= i && forall j :: j < i ==> !SepAt(Pending(), sep, j)
        invariant lenToReturn == -1
      {
        assert Pending()[i..i+|sep|] == recvBuf[i..i+|sep|];
        if recvBuf[i..i+|sep|] == sep {
          lenToReturn := i;
          break;
        }
        i := i + 1;
      }
    }

    /** commbuf_extract_line_from_recv_buffer: the first complete line, separator included, in a block with a
        terminating zero; 0 when there is none, and also when the separator is empty. */
    method ExtractLine(sep: seq<byte>) returns (n: nat, data: array?<byte>)
      requires Valid() && recvBufSz < INT_MAX && |sep| <= INT_MAX
      modifies this`recvBufSz, recvBuf
      ensures Valid() && recvBufSz <= old(recvBufSz)
      ensures sep != [] ==> n == LineEnd(old(Pending()), sep) && (data == null <==> n == 0)
      ensures sep == [] ==> n == 0 && data != null
      ensures n <= |old(Pending())| && Pending() == old(Pending())[n..]
      ensures data != null ==> fresh(data) && data[..] == old(Pending())[..n] + [0]
    {
      hide SepAt, IsFirstSep, LineEnd, FirstLineEnds;
      ghost var was := Pending();
      var lenToReturn := FindSeparator(sep);
      assert Pending() == was;
      SepEndsLine(was, sep, lenToReturn);
      if lenToReturn == -1 {
        return 0, null;
      }
      lenToReturn := lenToReturn + |sep|;
      data := new byte[lenToReturn + 1](i requires 0 <= i reads this, recvBuf =>
        if i < lenToReturn && i < recvBuf.Length then recvBuf[i] else 0);
      if recvBufSz > lenToReturn {
        forall i | 0 <= i < recvBufSz - lenToReturn {
          recvBuf[i] := recvBuf[lenToReturn + i];
        }
      }
      recvBufSz := recvBufSz - lenToReturn;
      return lenToReturn, data;
    }

    /** The client's loop in tests/tcp.cc: takes lines until there is none. */
    method Drain(sep: seq<byte>) returns (lines: seq<seq<byte>>)
      requires Valid() && recvBufSz < INT_MAX && 0 < |sep| <= INT_MAX
      modifies this`recvBufSz, recvBuf
      ensures Valid() && lines == Lines(old(Pending()), sep) && Pending() == Remainder(old(Pending()), sep)
    {
      hide LineEnd, Lines, Remainder;
      lines := [];
      ghost var all := Pending();
      var n, data := ExtractLine(sep);
      ghost var from := all;
      while n != 0
        invariant Valid() && recvBufSz < INT_MAX
        invariant n == LineEnd(from, sep) && Pending() == from[n..]
        invariant data == null <==> n == 0
        invariant data != null ==> data[..] == from[..n] + [0]
        invariant lines + Lines(from, sep) == Lines(all, sep) && Remainder(from, sep) == Remainder(all, sep)
        decreases |from|
      {
        assert data[..n] == from[..n];
        LinesFrom(from, sep);
        lines := lines + [data[..n]];
        from := Pending();
        n, data := ExtractLine(sep);
      }
      LinesFrom(from, sep);
      assert lines + [] == lines && from[0..] == from;
    }
  }

  lemma {:induction false} LinesFrom(stream: seq<byte>, sep: seq<byte>)
    requires sep != []
    ensures var n := LineEnd(stream, sep);
            if n == 0 then Lines(stream, sep) == [] && Remainder(stream, sep) == stream
            else n <= |stream| && Lines(stream, sep) == [stream[..n]] + Lines(stream[n..], sep)
                 && Remainder(stream, sep) == Remainder(stream[n..], sep)
  {
  }

  lemma {:induction false} SepEndsLine(buf: seq<byte>, sep: seq<byte>, at: int)
    requires IsFirstSep(buf, sep, at)
    ensures at == -1 || 0 <= at <= |buf| - |sep|
    ensures if sep == [] then at == 0 else LineEnd(buf, sep) == if at == -1 then 0 else at + |sep|
  {
    if sep == [] {
      assert SepAt(buf, sep, 0);
    } else {
      LineEndUnique(buf, sep, LineEnd(buf, sep), if at == -1 then 0 else at + |sep|);
    }
  }

  lemma {:induction false} JoinedPrefix(chunks: seq<seq<byte>>, k: nat)
    requires k <= |chunks|
    ensures |Joined(chunks[..k])| <= |Joined(chunks)|
  {
    if k > 0 {
      assert chunks[..k][1..] == chunks[1..][..k-1];
      JoinedPrefix(chunks[1..], k - 1);
    }
  }

  lemma {:induction false} KeptFits(chunks: seq<seq<byte>>, k: nat, sep: seq<byte>)
    requires k < |chunks| && sep != []
    ensures |Kept(chunks[..k], sep) + chunks[k]| <= |Joined(chunks)|
  {
    hide Kept, Lines, LineEnd;
    ChunkingDoesNotMatter(chunks[..k], sep);
    JoinedAppend(chunks[..k], chunks[k]);
    assert chunks[..k] + [chunks[k]] == chunks[..k+1];
    JoinedPrefix(chunks, k + 1);
  }

  lemma {:induction false} OneMoreChunk(chunks: seq<seq<byte>>, k: nat, sep: seq<byte>)
    requires k < |chunks| && sep != []
    ensures var all := Kept(chunks[..k], sep) + chunks[k];
            && Drained(chunks[..k+1], sep) == Drained(chunks[..k], sep) + Lines(all, sep)
            && Kept(chunks[..k+1], sep) == Remainder(all, sep)
  {
    assert chunks[..k+1][..k] == chunks[..k];
  }

  lemma {:induction false} NothingReceived(sep: seq<byte>)
    requires sep != []
    ensures Kept([], sep) == [] && Drained([], sep) == []
  {
  }

  /** Chunk k is empty and arrives while nothing is pending. */
  ghost predicate AddsNothing(chunks: seq<seq<byte>>, k: nat, sep: seq<byte>)
    requires sep != [] && k < |chunks|
  {
    Kept(chunks[..k], sep) + chunks[k] == []
  }

  /** Receives a stream in chunks and drains the buffer after each; emptyBlocks[k] is what resizing a block to nothing
      would give at chunk k. */
  method ReceiveInChunks(chunks: seq<seq<byte>>, sep: seq<byte>, emptyBlocks: seq<bool>)
    returns (c: CommunicationBuffer, lines: seq<seq<byte>>, alive: bool)
    requires 0 < |sep| <= INT_MAX && |Joined(chunks)| < INT_MAX && |emptyBlocks| == |chunks|
    ensures fresh(c) && c.Valid()
    ensures alive <==> forall k :: 0 <= k < |chunks| && AddsNothing(chunks, k, sep) ==> emptyBlocks[k]
    ensures alive ==> lines == Lines(Joined(chunks), sep) && c.Pending() == Remainder(Joined(chunks), sep)
  {
    hide Drained, Kept, Lines, Remainder;
    NothingReceived(sep);
    c := new CommunicationBuffer();
    lines := [];
    for k := 0 to |chunks|
      invariant fresh(c) && fresh(c.recvBuf) && c.Valid()
      invariant c.Pending() == Kept(chunks[..k], sep) && lines == Drained(chunks[..k], sep)
      invariant forall j :: 0 <= j < k && AddsNothing(chunks, j, sep) ==> emptyBlocks[j]
    {
      KeptFits(chunks, k, sep);
      OneMoreChunk(chunks, k, sep);
      alive := c.AddToRecvBuffer(chunks[k], emptyBlocks[k]);
      if !alive {
        assert AddsNothing(chunks, k, sep);
        return;
      }
      var more := c.Drain(sep);
      lines := lines + more;
    }
    alive := true;
    assert chunks[..|chunks|] == chunks;
    ChunkingDoesNotMatter(chunks, sep);
  }
}
