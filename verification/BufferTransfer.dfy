/** Copying between buffers and reading up to a delimiter, as the scripting interface does it. */
module BufferTransfers {
  import opened Common
  import opened ByteBuffers
  import TcpProtocol
  import TcpSockets
  import UdpProtocol
  import UdpSockets

  const CHUNK: nat := 4096

  /**
   One round of the copy: through the temporary block, so that both may be the same buffer. `data` is
   what is still to be copied.
   */
  method CopyChunk(dest: Buffer, source: Buffer, tempBuffer: array<byte>, size: nat, ghost data: seq<byte>)
    returns (ghost rest: seq<byte>)
    requires dest.Valid() && source.Valid() && size <= CHUNK == tempBuffer.Length
    requires size <= |data| && data <= source.data[source.readIndex..]
    modifies dest`data, source`readIndex, tempBuffer
    ensures dest.Valid() && source.Valid() && source.readIndex == old(source.readIndex) + size
    ensures rest == data[size..] && rest <= source.data[source.readIndex..]
    ensures dest.data == old(dest.data) + data[..size] && (source != dest ==> source.data == old(source.data))
  {
    var count := source.Read(tempBuffer, size);
    assert tempBuffer[..count] == data[..size];
    dest.Write(tempBuffer[..count]);
    rest := data[size..];
  }

  /**
   Appends the next min(ammount, remaining) bytes of the source, as it was on entry, and advances its
   read position past them. Source and destination may be the same buffer.
   */
  method WriteBufferPart(dest: Buffer, source: Buffer, ammount: nat) returns (copied: nat)
    requires dest.Valid() && source.Valid()
    modifies dest`data, source`readIndex
    ensures dest.Valid() && source.Valid()
    ensures copied == Min(ammount, old(source.BytesRemaining())) && source.readIndex == old(source.readIndex) + copied
    ensures dest.data == old(dest.data) + old(source.data)[old(source.readIndex)..source.readIndex]
    ensures source != dest ==> source.data == old(source.data)
  {
    var tempBuffer := new byte[CHUNK];
    copied := Min(ammount, source.BytesRemaining());
    var fullBuffers := copied / CHUNK;
    var lastBuffer := copied % CHUNK;
    ghost var data := source.data[source.readIndex..][..copied];
    ghost var whole, rest := dest.data + data, data;
    for i := 0 to fullBuffers
      invariant dest.Valid() && source.Valid() && source.readIndex + |rest| == old(source.readIndex) + copied
      invariant |rest| == (fullBuffers - i) * CHUNK + lastBuffer && rest <= source.data[source.readIndex..]
      invariant dest.data + rest == whole && (source != dest ==> source.data == old(source.data))
    {
      ghost var before := dest.data;
      assert before + rest == (before + rest[..CHUNK]) + rest[CHUNK..];
      rest := CopyChunk(dest, source, tempBuffer, CHUNK, rest);
    }
    assert rest[..lastBuffer] == rest;
    rest := CopyChunk(dest, source, tempBuffer, lastBuffer, rest);
    assert old(source.data)[old(source.readIndex)..source.readIndex] == data;
  }

  /** Appends the whole source and leaves its read position alone; appended to itself, a buffer doubles. */
  method WriteBuffer(dest: Buffer, source: Buffer)
    requires dest.Valid() && source.Valid()
    modifies dest`data, source`readIndex
    ensures dest.Valid() && source.Valid() && source.readIndex == old(source.readIndex)
    ensures dest.data == old(dest.data) + old(source.data)
    ensures source != dest ==> source.data == old(source.data)
  {
    var oldReadPos := source.Size() - source.BytesRemaining();
    source.SetReadpos(0);
    var copied := WriteBufferPart(dest, source, source.Size());
    source.SetReadpos(oldReadPos);
  }

  /** A copy to a socket hands over one block after the other, and in the end what is left, even if that is nothing. */
  function WriteBlocks(w: TcpProtocol.World, data: seq<byte>): TcpProtocol.World
    decreases |data|
  {
    if |data| >= CHUNK then WriteBlocks(TcpProtocol.WriteStep(w, data[..CHUNK]), data[CHUNK..])
    else TcpProtocol.WriteStep(w, data)
  }

  /** What fits is written as if at once. */
  lemma {:induction false} BlocksLikeOneWrite(w: TcpProtocol.World, data: seq<byte>)
    requires w.s.phase == TcpProtocol.Closed || |w.s.queue.bytes| + |data| <= w.s.limit
    ensures WriteBlocks(w, data) == TcpProtocol.WriteStep(w, data)
    decreases |data|
  {
    if |data| >= CHUNK {
      var first, rest := data[..CHUNK], data[CHUNK..];
      BlocksLikeOneWrite(TcpProtocol.WriteStep(w, first), rest);
      assert data == first + rest;
      assert (w.s.queue.bytes + first) + rest == w.s.queue.bytes + (first + rest);
      assert (w.h.accepted + first) + rest == w.h.accepted + (first + rest);
    }
  }

  lemma {:induction false} ClosedTakesNothing(w: TcpProtocol.World, data: seq<byte>)
    requires w.s.phase == TcpProtocol.Closed
    ensures WriteBlocks(w, data) == w
    decreases |data|
  {
    if |data| >= CHUNK {
      ClosedTakesNothing(w, data[CHUNK..]);
    }
  }

  /** Otherwise the limit closes the socket, and just the blocks before the first one that does not fit are accepted. */
  lemma {:induction false} BlocksUpToTheLimit(w: TcpProtocol.World, data: seq<byte>) returns (k: nat)
    requires w.s.phase != TcpProtocol.Closed && |w.s.queue.bytes| + |data| > w.s.limit
    ensures k % CHUNK == 0 && k <= |data|
    ensures k == 0 || |w.s.queue.bytes| + k <= w.s.limit
    ensures |w.s.queue.bytes| + Min(k + CHUNK, |data|) > w.s.limit
    ensures var n := WriteBlocks(w, data);
            n.s.phase == TcpProtocol.Closed && n.h.accepted == w.h.accepted + data[..k]
    decreases |data|
  {
    k := 0;
    if |data| >= CHUNK {
      var first, rest := data[..CHUNK], data[CHUNK..];
      var n := TcpProtocol.WriteStep(w, first);
      if |w.s.queue.bytes| + CHUNK > w.s.limit {
        ClosedTakesNothing(n, rest);
      } else {
        var more := BlocksUpToTheLimit(n, rest);
        k := CHUNK + more;
        assert (w.h.accepted + first) + rest[..more] == w.h.accepted + data[..k];
      }
    }
  }

  /** The copy to a TCP socket, from a buffer or from what another socket received. */
  method WriteBufferPartToTcp(dest: TcpSockets.TcpSocket, source: Buffer, ammount: nat) returns (copied: nat)
    requires dest.Valid() && source.Valid() && source !in dest.Repr()
    modifies dest.Repr(), source`readIndex
    ensures dest.Valid() && source.Valid()
    ensures copied == Min(ammount, old(source.BytesRemaining())) && source.readIndex == old(source.readIndex) + copied
    ensures dest.View() == WriteBlocks(old(dest.View()), source.data[old(source.readIndex)..source.readIndex])
  {
    var tempBuffer := new byte[CHUNK];
    copied := Min(ammount, source.BytesRemaining());
    ghost var data := source.data[source.readIndex..][..copied];
    WriteBlocksToTcp(dest, source, tempBuffer, copied / CHUNK, copied % CHUNK, data);
    assert source.data[old(source.readIndex)..source.readIndex] == data;
  }

  method WriteBlocksToTcp(dest: TcpSockets.TcpSocket, source: Buffer, tempBuffer: array<byte>,
                          fullBuffers: nat, lastBuffer: nat, ghost data: seq<byte>)
    requires dest.Valid() && source.Valid() && source !in dest.Repr()
    requires lastBuffer < CHUNK == tempBuffer.Length && tempBuffer !in dest.Repr()
    requires |data| == fullBuffers * CHUNK + lastBuffer && data <= source.data[source.readIndex..]
    modifies dest.Repr(), source`readIndex, tempBuffer
    ensures dest.Valid() && source.Valid() && source.readIndex == old(source.readIndex) + |data|
    ensures dest.View() == WriteBlocks(old(dest.View()), data)
  {
    ghost var rest := data;
    for i := 0 to fullBuffers
      invariant dest.Valid() && source.Valid() && source.readIndex + |rest| == old(source.readIndex) + |data|
      invariant fresh(dest.Repr() - old(dest.Repr())) && source !in dest.Repr() && tempBuffer !in dest.Repr()
      invariant |rest| == (fullBuffers - i) * CHUNK + lastBuffer && rest <= source.data[source.readIndex..]
      invariant WriteBlocks(dest.View(), rest) == WriteBlocks(old(dest.View()), data)
    {
      rest := WriteBlockToTcp(dest, source, tempBuffer, CHUNK, rest);
    }
    assert rest[..lastBuffer] == rest && WriteBlocks(dest.View(), rest) == TcpProtocol.WriteStep(dest.View(), rest);
    rest := WriteBlockToTcp(dest, source, tempBuffer, lastBuffer, rest);
  }

  method WriteBlockToTcp(dest: TcpSockets.TcpSocket, source: Buffer, tempBuffer: array<byte>, size: nat, ghost data: seq<byte>)
    returns (ghost rest: seq<byte>)
    requires dest.Valid() && source.Valid() && source !in dest.Repr()
    requires size <= CHUNK == tempBuffer.Length && tempBuffer !in dest.Repr()
    requires size <= |data| && data <= source.data[source.readIndex..]
    modifies dest.Repr(), source`readIndex, tempBuffer
    ensures dest.Valid() && source.Valid() && source.readIndex == old(source.readIndex) + size
    ensures fresh(dest.Repr() - old(dest.Repr())) && source !in dest.Repr() && tempBuffer !in dest.Repr()
    ensures rest == data[size..] && rest <= source.data[source.readIndex..]
    ensures dest.View() == TcpProtocol.WriteStep(old(dest.View()), data[..size])
  {
    var count := source.Read(tempBuffer, size);
    assert tempBuffer[..count] == data[..size];
    dest.Write(tempBuffer[..count]);
    rest := data[size..];
  }

  // ----- delimited reading -----

  predicate OccursAt(s: seq<byte>, delim: seq<byte>, i: nat) {
    i + |delim| <= |s| && s[i..i + |delim|] == delim
  }

  /** `std::search`: the first occurrence at or after `from`, else the end. */
  function Search(s: seq<byte>, delim: seq<byte>, from: nat): (i: nat)
    requires from <= |s|
    ensures from <= i <= |s|
    ensures i < |s| ==> OccursAt(s, delim, i)
    ensures forall j :: from <= j < i ==> !OccursAt(s, delim, j)
    ensures delim != [] && i == |s| ==> !OccursAt(s, delim, |s|)
    decreases |s| - from
  {
    if from == |s| || OccursAt(s, delim, from) then from else Search(s, delim, from + 1)
  }

  /** The number of bytes before the delimiter, or -1. */
  method BytesBeforeDelimiter(buffer: Buffer?, delim: seq<byte>) returns (count: int)
    requires buffer != null ==> buffer.Valid()
    ensures buffer == null ==> count == -1
    ensures buffer != null && delim != [] ==>
              (count == -1 <==> forall j :: buffer.readIndex <= j <= |buffer.data| ==> !OccursAt(buffer.data, delim, j))
    ensures buffer != null && delim == [] ==> (count == -1 <==> buffer.BytesRemaining() == 0)
    ensures count != -1 ==>
              && buffer != null && 0 <= count && OccursAt(buffer.data, delim, buffer.readIndex + count)
              && forall j :: buffer.readIndex <= j < buffer.readIndex + count ==> !OccursAt(buffer.data, delim, j)
  {
    if buffer != null {
      var delimInBuf := Search(buffer.data, delim, buffer.readIndex);
      if delimInBuf != |buffer.data| {
        return delimInBuf - buffer.readIndex;
      }
    }
    return -1;
  }

  /** Where the reading of a delimited string ends and what it yields. */
  function ReadDelimited(data: seq<byte>, at: nat, delim: seq<byte>): (seq<byte>, nat)
    requires at <= |data|
  {
    var i := Search(data, delim, at);
    if i < |data| then (data[at..i], i + |delim|) else ([], at)
  }

  /**
   With a non-empty delimiter the read position moves exactly if the delimiter occurs at or after it; then
   the result is what lies before the first occurrence and just that and the delimiter are consumed.
   */
  lemma ReadsUpToFirstOccurrence(data: seq<byte>, at: nat, delim: seq<byte>)
    requires at <= |data| && delim != []
    ensures var (result, next) := ReadDelimited(data, at, delim);
            && (next != at <==> exists j :: at <= j && OccursAt(data, delim, j))
            && (next == at ==> result == [])
            && (next != at ==>
                  && data[at..next] == result + delim
                  && forall j :: at <= j < next - |delim| ==> !OccursAt(data, delim, j))
  {
    var i := Search(data, delim, at);
    if i < |data| {
      assert data[at..i + |delim|] == data[at..i] + data[i..i + |delim|];
    } else {
      assert forall j :: at <= j && OccursAt(data, delim, j) ==> j < |data|;
    }
  }

  /** Success consumes the bytes and the delimiter, failure nothing. */
  method ReadDelimitedString(buffer: Buffer?, delim: seq<byte>) returns (result: seq<byte>)
    requires buffer != null ==> buffer.Valid()
    modifies if buffer == null then {} else {buffer}
    ensures buffer == null ==> result == []
    ensures buffer != null ==>
              && buffer.Valid() && buffer.data == old(buffer.data)
              && (result, buffer.readIndex) == ReadDelimited(buffer.data, old(buffer.readIndex), delim)
  {
    var length := BytesBeforeDelimiter(buffer, delim);
    if length >= 0 {
      result := buffer.ReadString(length);
      buffer.SetReadpos(buffer.readIndex + |delim|);
      return result;
    }
    return [];
  }

  /** The payloads, each followed by a 0 byte. */
  function ZeroTerminated(payloads: seq<seq<byte>>): seq<byte> {
    if payloads == [] then [] else payloads[0] + [0] + ZeroTerminated(payloads[1..])
  }

  /** What n zero-delimited reads from position `at` on yield, one after the other. */
  function ReadAll(data: seq<byte>, at: nat, n: nat): (r: (seq<seq<byte>>, nat))
    requires at <= |data|
    ensures r.1 <= |data|
    decreases n
  {
    if n == 0 then ([], at)
    else
      var (first, next) := ReadDelimited(data, at, [0]);
      var (rest, end) := ReadAll(data, next, n - 1);
      ([first] + rest, end)
  }

  /** A zero-free payload followed by a 0 byte is what the next read yields. */
  lemma ReadsPayload(data: seq<byte>, at: nat, p: seq<byte>)
    requires 0 !in p && at + |p| < |data| && data[at..at + |p|] == p && data[at + |p|] == 0
    ensures ReadDelimited(data, at, [0]) == (p, at + |p| + 1)
  {
    var found := Search(data, [0], at);
    assert OccursAt(data, [0], at + |p|);
    assert found < |data| && data[found..found + 1][0] == 0;
    assert forall j :: at <= j < at + |p| ==> data[j] == p[j - at];
  }

  /** From position `at` on, the data holds the payloads, each followed by a 0 byte, up to `end`. */
  predicate LaidOut(data: seq<byte>, at: nat, payloads: seq<seq<byte>>, end: nat)
    decreases |payloads|
  {
    if payloads == [] then at == end <= |data|
    else
      var next := at + |payloads[0]|;
      next < |data| && data[at..next] == payloads[0] && data[next] == 0 && LaidOut(data, next + 1, payloads[1..], end)
  }

  lemma {:induction false} WritesLayOut(before: seq<byte>, payloads: seq<seq<byte>>, after: seq<byte>)
    ensures LaidOut(before + ZeroTerminated(payloads) + after, |before|, payloads, |before + ZeroTerminated(payloads)|)
    decreases |payloads|
  {
    if payloads == [] {
    } else {
      var p, rest := payloads[0], ZeroTerminated(payloads[1..]);
      WritesLayOut(before + (p + [0]), payloads[1..], after);
      assert before + (p + [0] + rest) == before + (p + [0]) + rest;
    }
  }

  lemma {:induction false} LaidOutIsRead(data: seq<byte>, at: nat, payloads: seq<seq<byte>>, end: nat)
    requires at <= |data| && LaidOut(data, at, payloads, end) && forall i :: 0 <= i < |payloads| ==> 0 !in payloads[i]
    ensures ReadAll(data, at, |payloads|) == (payloads, end)
    decreases |payloads|
  {
    if payloads == [] {
    } else {
      ReadsPayload(data, at, payloads[0]);
      LaidOutIsRead(data, at + |payloads[0]| + 1, payloads[1..], end);
      assert [payloads[0]] + payloads[1..] == payloads;
    }
  }

  /** Zero-free payloads, each written with a trailing 0, are read back in order, and nothing else is consumed. */
  lemma ZeroTerminatedReadBack(before: seq<byte>, payloads: seq<seq<byte>>, after: seq<byte>)
    requires forall i :: 0 <= i < |payloads| ==> 0 !in payloads[i]
    ensures var written := before + ZeroTerminated(payloads);
            ReadAll(written + after, |before|, |payloads|) == (payloads, |written|)
  {
    WritesLayOut(before, payloads, after);
    LaidOutIsRead(before + ZeroTerminated(payloads) + after, |before|, payloads, |before + ZeroTerminated(payloads)|);
  }
}
