/**
 The chunked send buffer: a byte queue kept in 64 KiB heap chunks, the first
 `committedBytes` of which may be handed to the network.
 */
module SendBuffers {
  import opened Common

  const BUFFER_SIZE: nat := 65536

  /** The size of n chunks. */
  function Capacity(n: nat): nat {
    n * 65536
  }

  type Chunk = array<byte>

  /** One entry of a constant buffer sequence: `len` bytes of `chunk` from `offset` on. */
  datatype Segment = Segment(chunk: Chunk, offset: nat, len: nat)

  ghost predicate WholeChunks(chunks: seq<Chunk>) {
    forall c :: c in chunks ==> c.Length == BUFFER_SIZE
  }

  ghost predicate Distinct(chunks: seq<Chunk>) {
    chunks == [] || (chunks[|chunks| - 1] !in chunks[..|chunks| - 1] && Distinct(chunks[..|chunks| - 1]))
  }

  lemma {:induction false} DistinctSuffix(chunks: seq<Chunk>, n: nat)
    requires Distinct(chunks) && n <= |chunks|
    ensures Distinct(chunks[n..]) && forall c :: c in chunks[n..] ==> c !in chunks[..n]
  {
    if n < |chunks| {
      assert chunks[..|chunks| - 1][..n] == chunks[..n];
      DistinctSuffix(chunks[..|chunks| - 1], n);
      assert chunks[n..][..|chunks| - n - 1] == chunks[..|chunks| - 1][n..];
    }
  }

  lemma {:induction false} DistinctAt(chunks: seq<Chunk>, i: nat)
    requires Distinct(chunks) && i < |chunks|
    ensures chunks[i] !in chunks[..i]
  {
    if i < |chunks| - 1 {
      DistinctAt(chunks[..|chunks| - 1], i);
      assert chunks[..|chunks| - 1][..i] == chunks[..i];
    }
  }

  /** Everything stored in the chunks, used or not, in order. */
  ghost function Flat(chunks: seq<Chunk>): seq<byte>
    reads chunks
  {
    if chunks == [] then [] else chunks[0][..] + Flat(chunks[1..])
  }

  ghost function AsSet(chunks: seq<Chunk>): set<Chunk> {
    set c | c in chunks
  }

  /** The segments that cover the `count` bytes which start at `first` in the first chunk. */
  ghost function Cover(chunks: seq<Chunk>, first: nat, count: nat): seq<Segment>
    requires first < BUFFER_SIZE && (count == 0 || first + count <= Capacity(|chunks|))
    decreases |chunks|
  {
    if count == 0 then []
    else
      var len := Min(BUFFER_SIZE - first, count);
      [Segment(chunks[0], first, len)] + Cover(chunks[1..], 0, count - len)
  }

  ghost predicate InBounds(s: Segment) {
    s.offset + s.len <= s.chunk.Length
  }

  /** What the network reads through a segment sequence, at the time it reads. */
  ghost function Gathered(segments: seq<Segment>): seq<byte>
    requires forall s :: s in segments ==> InBounds(s)
    reads set s | s in segments :: s.chunk
  {
    if segments == [] then []
    else
      assert InBounds(segments[0]);
      segments[0].chunk[segments[0].offset..][..segments[0].len] + Gathered(segments[1..])
  }

  lemma SliceThrough<T>(a: seq<T>, rest: seq<T>, first: nat, len: nat, count: nat)
    requires first <= |a| && len == Min(|a| - first, count) && count - len <= |rest|
    ensures (a + rest)[first..first + count] == a[first..][..len] + rest[..count - len]
  {
  }

  /** `contents` is what is left of the stored bytes without the consumed front and the free end. */
  ghost predicate Shows(stored: seq<byte>, first: nat, free: nat, contents: seq<byte>) {
    && |stored| == first + |contents| + free
    && forall k :: 0 <= k < |contents| ==> contents[k] == stored[first + k]
  }

  lemma ShowsMore(before: seq<byte>, after: seq<byte>, first: nat, free: nat, contents: seq<byte>, data: seq<byte>)
    requires Shows(before, first, free, contents) && |before| == |after| && |data| <= free
    requires after[..|after| - free + |data|] == before[..|before| - free] + data
    ensures Shows(after, first, free - |data|, contents + data)
  {
    var prefix := after[..|after| - free + |data|];
    forall k | 0 <= k < |contents + data|
      ensures (contents + data)[k] == after[first + k]
    {
      assert after[first + k] == prefix[first + k];
    }
  }

  lemma ShowsFreeChunk(stored: seq<byte>, chunk: seq<byte>, first: nat, contents: seq<byte>)
    requires Shows(stored, first, 0, contents)
    ensures Shows(stored + chunk, first, |chunk|, contents)
  {
  }

  lemma ShowsLess(stored: seq<byte>, first: nat, free: nat, contents: seq<byte>, size: nat, whole: nat, rem: nat)
    requires Shows(stored, first, free, contents) && size <= |contents| && whole + rem == first + size
    ensures Shows(stored[whole..], rem, free, contents[size..])
  {
  }

  lemma ShownPrefix(stored: seq<byte>, first: nat, free: nat, contents: seq<byte>, count: nat)
    requires Shows(stored, first, free, contents) && count <= |contents|
    ensures stored[first..first + count] == contents[..count]
  {
  }

  lemma StoreInTail<T>(front: seq<T>, tail: seq<T>, at: nat, data: seq<T>)
    requires at + |data| <= |tail|
    ensures (front + (tail[..at] + data + tail[at + |data|..]))[..|front| + at + |data|] == (front + tail)[..|front| + at] + data
  {
  }

  lemma {:induction false} FlatLength(chunks: seq<Chunk>)
    requires WholeChunks(chunks)
    ensures |Flat(chunks)| == Capacity(|chunks|)
  {
    if chunks != [] {
      FlatLength(chunks[1..]);
    }
  }

  lemma {:induction false} FlatConcat(a: seq<Chunk>, b: seq<Chunk>)
    ensures Flat(a + b) == Flat(a) + Flat(b)
  {
    if a == [] {
      assert a + b == b;
    } else {
      assert (a + b)[1..] == a[1..] + b;
      FlatConcat(a[1..], b);
    }
  }

  /** Dropping whole chunks drops whole multiples of the chunk size. */
  lemma FlatDrop(chunks: seq<Chunk>, n: nat)
    requires WholeChunks(chunks) && n <= |chunks|
    ensures |Flat(chunks)| == Capacity(|chunks|)
    ensures Flat(chunks[n..]) == Flat(chunks)[Capacity(n)..]
  {
    assert chunks == chunks[..n] + chunks[n..];
    FlatConcat(chunks[..n], chunks[n..]);
    FlatLength(chunks[..n]);
    FlatLength(chunks);
  }

  /** The segments handed out are all non-empty and lie in the given chunks. */
  lemma {:induction false} CoverIsLive(chunks: seq<Chunk>, first: nat, count: nat)
    requires WholeChunks(chunks)
    requires first < BUFFER_SIZE && (count == 0 || first + count <= Capacity(|chunks|))
    ensures forall s :: s in Cover(chunks, first, count) ==> InBounds(s) && 0 < s.len && s.chunk in chunks
    decreases |chunks|
  {
    if count != 0 {
      var len := Min(BUFFER_SIZE - first, count);
      CoverIsLive(chunks[1..], 0, count - len);
    }
  }

  /** They read back exactly the covered stretch of the queue. */
  lemma {:induction false} CoverGathers(chunks: seq<Chunk>, first: nat, count: nat)
    requires WholeChunks(chunks)
    requires first < BUFFER_SIZE && first + count <= Capacity(|chunks|)
    ensures forall s :: s in Cover(chunks, first, count) ==> InBounds(s)
    ensures |Flat(chunks)| == Capacity(|chunks|)
    ensures Gathered(Cover(chunks, first, count)) == Flat(chunks)[first..first + count]
    decreases |chunks|
  {
    FlatLength(chunks);
    CoverIsLive(chunks, first, count);
    if count != 0 {
      var len := Min(BUFFER_SIZE - first, count);
      var rest := Cover(chunks[1..], 0, count - len);
      CoverGathers(chunks[1..], 0, count - len);
      GatheredCons(Segment(chunks[0], first, len), rest);
      SliceThrough(chunks[0][..], Flat(chunks[1..]), first, len, count);
    }
  }

  lemma GatheredCons(s: Segment, rest: seq<Segment>)
    requires InBounds(s) && forall r :: r in rest ==> InBounds(r)
    ensures forall r :: r in [s] + rest ==> InBounds(r)
    ensures Gathered([s] + rest) == s.chunk[s.offset..][..s.len] + Gathered(rest)
  {
    assert ([s] + rest)[1..] == rest;
  }

  lemma CoverStep(chunks: seq<Chunk>, i: nat, first: nat, count: nat, done: seq<Segment>)
    requires i < |chunks| && first < BUFFER_SIZE && 0 < count
    requires first + count <= Capacity(|chunks| - i)
    ensures var len := Min(BUFFER_SIZE - first, count);
            && (count == len || count - len <= Capacity(|chunks| - i - 1))
            && done + Cover(chunks[i..], first, count) ==
                 (done + [Segment(chunks[i], first, len)]) + Cover(chunks[i + 1..], 0, count - len)
  {
    var segment := Segment(chunks[i], first, Min(BUFFER_SIZE - first, count));
    assert chunks[i..][1..] == chunks[i + 1..];
    assert done + ([segment] + Cover(chunks[i + 1..], 0, count - segment.len)) ==
           (done + [segment]) + Cover(chunks[i + 1..], 0, count - segment.len);
  }

  /** Chunks added behind the covered stretch do not move or change its segments. */
  lemma {:induction false} CoverStable(chunks: seq<Chunk>, more: seq<Chunk>, first: nat, count: nat)
    requires first < BUFFER_SIZE && first + count <= Capacity(|chunks|)
    ensures Cover(chunks + more, first, count) == Cover(chunks, first, count)
    decreases |chunks|
  {
    if count != 0 {
      var len := Min(BUFFER_SIZE - first, count);
      assert (chunks + more)[1..] == chunks[1..] + more;
      CoverStable(chunks[1..], more, 0, count - len);
    }
  }

  /** `memmove(to + at, data, |data|)`; a move of no bytes needs no target. */
  method Memmove(to: array?<byte>, at: nat, data: seq<byte>)
    requires data != [] ==> to != null && at + |data| <= to.Length
    modifies if to != null then {to} else {}
    ensures data != [] ==> to[..] == old(to[..at]) + data + old(to[at + |data|..])
    ensures data == [] && to != null ==> to[..] == old(to[..])
  {
    if data != [] {
      forall i | 0 <= i < |data| {
        to[at + i] := data[i];
      }
    }
  }

  /** What `div` makes of `firstElementIndex + size` once a 32-bit `size_t` became an `int`. */
  function DivAsInt(n: nat): (r: (int, int))
    requires n < 0x1_0000_0000
  {
    var i := if n < 0x8000_0000 then n else n - 0x1_0000_0000;
    if i >= 0 then (i / BUFFER_SIZE, i % BUFFER_SIZE)
    else (-((-i) / BUFFER_SIZE), -((-i) % BUFFER_SIZE))
  }

  /** The `int` division in `pop` is right exactly below 2^31. */
  lemma DivAsIntExact(n: nat)
    requires n < 0x1_0000_0000
    ensures DivAsInt(n) == (n / BUFFER_SIZE, n % BUFFER_SIZE) <==> n < 0x8000_0000
  {
  }

  class SendBuffer {
    var buffers: seq<Chunk>
    var firstElementIndex: nat
    var freeSpaceInLastBuffer: nat
    var endChunk: array?<byte>   // endPtr, as the chunk it points into ...
    var endOffset: nat           // ... and the position in that chunk
    var committedBytes: nat
    ghost var contents: seq<byte>  // the bytes in the queue, committed or not
    ghost var deleted: set<Chunk>

    ghost function Repr(): set<object>
      reads this`buffers
    {
      {this} + set c: Chunk | c in buffers :: c as object
    }

    /** The representation while `Push` is at work: the last chunk may still be untouched. */
    ghost predicate Wellformed()
      reads this, buffers
    {
      && WholeChunks(buffers) && |Flat(buffers)| == Capacity(|buffers|)
      && Distinct(buffers)
      && (forall c :: c in buffers ==> c !in deleted)
      && firstElementIndex < BUFFER_SIZE
      && freeSpaceInLastBuffer <= BUFFER_SIZE
      && (freeSpaceInLastBuffer > 0 ==>
            && buffers != [] && endChunk == buffers[|buffers| - 1]
            && endOffset == BUFFER_SIZE - freeSpaceInLastBuffer)
      && Shows(Flat(buffers), firstElementIndex, freeSpaceInLastBuffer, contents)
      && committedBytes <= |contents|
    }

    ghost predicate Valid()
      reads this, buffers
    {
      Wellformed() && freeSpaceInLastBuffer < BUFFER_SIZE
    }

    constructor ()
      ensures Valid() && fresh(Repr())
      ensures contents == [] && committedBytes == 0 && buffers == []
    {
      buffers := [];
      firstElementIndex, freeSpaceInLastBuffer := 0, 0;
      endChunk, endOffset := null, 0;
      committedBytes := 0;
      contents, deleted := [], {};
    }

    method CommittedAsConstBufferSequence() returns (result: seq<Segment>)
      requires Valid()
      ensures firstElementIndex + committedBytes <= Capacity(|buffers|)
      ensures result == Cover(buffers, firstElementIndex, committedBytes)
    {
      result := Segments(buffers, firstElementIndex, freeSpaceInLastBuffer, committedBytes);
    }

    /** The loop over the chunks, which cuts the consumed front off the first and the free end off the last. */
    static method Segments(buffers: seq<Chunk>, firstElementIndex: nat, freeSpaceInLastBuffer: nat, committedBytes: nat)
      returns (result: seq<Segment>)
      requires firstElementIndex < BUFFER_SIZE && freeSpaceInLastBuffer < BUFFER_SIZE
      requires firstElementIndex + committedBytes + freeSpaceInLastBuffer <= Capacity(|buffers|)
      ensures result == Cover(buffers, firstElementIndex, committedBytes)
    {
      result := [];
      var bytesRemaining := committedBytes;
      var i := 0;
      ghost var first := firstElementIndex;
      assert buffers[0..] == buffers;
      while i < |buffers| && bytesRemaining > 0
        invariant 0 <= i <= |buffers| && 0 <= bytesRemaining
        invariant first == if i == 0 then firstElementIndex else 0
        invariant bytesRemaining == 0 || first + bytesRemaining <= Capacity(|buffers| - i) - freeSpaceInLastBuffer
        invariant Cover(buffers, firstElementIndex, committedBytes) == result + Cover(buffers[i..], first, bytesRemaining)
      {
        var offset, size := 0, BUFFER_SIZE;
        if i == 0 {
          offset := offset + firstElementIndex;
          size := size - firstElementIndex;
        }
        if i == |buffers| - 1 {
          size := size - freeSpaceInLastBuffer;
        }
        if size >= bytesRemaining {
          size := bytesRemaining;
        }
        CoverStep(buffers, i, first, bytesRemaining, result);
        result := result + [Segment(buffers[i], offset, size)];
        bytesRemaining := bytesRemaining - size;
        i := i + 1;
        first := 0;
      }
    }

    /** What that sequence is: non-empty pieces of live chunks that hold exactly the front of the queue. */
    lemma SegmentsHoldPrefix(count: nat)
      requires Valid() && count <= committedBytes
      ensures firstElementIndex + count <= Capacity(|buffers|) && count <= |contents|
      ensures var segments := Cover(buffers, firstElementIndex, count);
              && (forall s :: s in segments ==> InBounds(s) && 0 < s.len && s.chunk in buffers && s.chunk !in deleted)
              && Gathered(segments) == contents[..count]
    {
      CoverIsLive(buffers, firstElementIndex, count);
      CoverGathers(buffers, firstElementIndex, count);
      ShownPrefix(Flat(buffers), firstElementIndex, freeSpaceInLastBuffer, contents, count);
    }

    method TotalSize() returns (size: nat)
      requires Valid()
      ensures size == |contents|
    {
      size := Capacity(|buffers|) - freeSpaceInLastBuffer - firstElementIndex;
    }

    method Commit()
      requires Valid()
      modifies this`committedBytes
      ensures Valid() && committedBytes == |contents|
    {
      committedBytes := TotalSize();
    }

    /** `memmove(endPtr, data, |data|)` for data that fits: it lands right behind the used bytes. */
    method MoveToEnd(data: seq<byte>)
      requires WholeChunks(buffers) && Distinct(buffers) && |data| <= freeSpaceInLastBuffer
      requires data != [] ==>
                 && buffers != [] && endChunk == buffers[|buffers| - 1]
                 && endOffset == BUFFER_SIZE - freeSpaceInLastBuffer
      requires |Flat(buffers)| == Capacity(|buffers|)
      requires Shows(Flat(buffers), firstElementIndex, freeSpaceInLastBuffer, contents)
      modifies set c: Chunk | c in buffers :: c as object
      ensures |Flat(buffers)| == Capacity(|buffers|) == |old(Flat(buffers))|
      ensures Shows(Flat(buffers), firstElementIndex, freeSpaceInLastBuffer - |data|, contents + data)
    {
      var n := |buffers|;
      if data == [] {
        FlatLength(buffers);
      } else {
        SplitLast();
        assert endChunk in buffers;
        StoreInTail(Flat(buffers[..n - 1]), endChunk[..], endOffset, data);
        Memmove(endChunk, endOffset, data);
        SplitLast();
      }
      ShowsMore(old(Flat(buffers)), Flat(buffers), firstElementIndex, freeSpaceInLastBuffer, contents, data);
    }

    lemma SplitLast()
      requires WholeChunks(buffers) && buffers != []
      ensures var n := |buffers|;
              && |Flat(buffers)| == Capacity(n) && |Flat(buffers[..n - 1])| == Capacity(n - 1)
              && Flat(buffers) == Flat(buffers[..n - 1]) + buffers[n - 1][..]
    {
      var n := |buffers|;
      assert buffers == buffers[..n - 1] + [buffers[n - 1]];
      FlatConcat(buffers[..n - 1], [buffers[n - 1]]);
      FlatLength(buffers);
      FlatLength(buffers[..n - 1]);
    }

    /** `memmove` to endPtr, with endPtr and the free space moved along. */
    method Store(data: seq<byte>)
      requires Wellformed() && |data| <= freeSpaceInLastBuffer
      modifies this`endOffset, this`freeSpaceInLastBuffer, this`contents, set c: Chunk | c in buffers :: c as object
      ensures Wellformed() && freeSpaceInLastBuffer == old(freeSpaceInLastBuffer) - |data|
      ensures contents == old(contents) + data
    {
      MoveToEnd(data);
      contents := contents + data;
      endOffset := endOffset + |data|;
      freeSpaceInLastBuffer := freeSpaceInLastBuffer - |data|;
    }

    /** `new uint8_t[BUFFER_SIZE]`, which becomes the last chunk. */
    method Grow()
      requires Wellformed() && freeSpaceInLastBuffer == 0
      modifies this`endChunk, this`endOffset, this`buffers, this`freeSpaceInLastBuffer
      ensures Wellformed() && freeSpaceInLastBuffer == BUFFER_SIZE
      ensures |buffers| == |old(buffers)| + 1 && buffers == old(buffers) + [buffers[|buffers| - 1]]
      ensures fresh(buffers[|buffers| - 1])
    {
      var chunk := new byte[BUFFER_SIZE];
      assert chunk !in deleted && chunk !in buffers;
      FlatConcat(buffers, [chunk]);
      ShowsFreeChunk(Flat(buffers), Flat([chunk]), firstElementIndex, contents);
      ghost var flat := Flat(buffers + [chunk]);
      assert (buffers + [chunk])[..|buffers|] == buffers;
      endChunk, endOffset := chunk, 0;
      buffers := buffers + [chunk];
      freeSpaceInLastBuffer := BUFFER_SIZE;
      assert Flat(buffers) == flat;
    }

    /** Uses up the last chunk and adds one. */
    method FillAndGrow(data: seq<byte>)
      requires Wellformed() && |data| == freeSpaceInLastBuffer
      modifies this, set c: Chunk | c in buffers :: c as object
      ensures Wellformed() && freeSpaceInLastBuffer == BUFFER_SIZE
      ensures contents == old(contents) + data
      ensures committedBytes == old(committedBytes) && firstElementIndex == old(firstElementIndex)
      ensures old(buffers) <= buffers && deleted == old(deleted)
      ensures forall c :: c in buffers ==> c in old(buffers) || fresh(c)
    {
      Store(data);
      Grow();
    }

    /** Uncommitted bytes go to the end; the chunks already there stay where they are. */
    method Push(data: seq<byte>)
      requires Valid()
      modifies Repr()
      ensures Valid()
      ensures contents == old(contents) + data
      ensures committedBytes == old(committedBytes) && firstElementIndex == old(firstElementIndex)
      ensures old(buffers) <= buffers && deleted == old(deleted)
      ensures forall c :: c in buffers ==> c in old(buffers) || fresh(c)
    {
      var rest := data;
      while |rest| > freeSpaceInLastBuffer
        invariant Wellformed() && (freeSpaceInLastBuffer == BUFFER_SIZE ==> rest != [])
        invariant contents + rest == old(contents) + data
        invariant committedBytes == old(committedBytes) && firstElementIndex == old(firstElementIndex)
        invariant old(buffers) <= buffers && deleted == old(deleted)
        invariant forall c :: c in buffers ==> c in old(buffers) || fresh(c)
        decreases if freeSpaceInLastBuffer < BUFFER_SIZE then 1 else 0, |rest|
      {
        var part := rest[..freeSpaceInLastBuffer];
        rest := rest[freeSpaceInLastBuffer..];
        assert contents + (part + rest) == (contents + part) + rest;
        FillAndGrow(part);
      }
      Store(rest);
    }

    /** `delete[]` of the first n chunks, none of which was deleted before. */
    method DeleteChunks(n: nat)
      requires n <= |buffers|
      requires Distinct(buffers)
      requires forall c :: c in buffers ==> c !in deleted
      modifies this`buffers, this`deleted
      ensures buffers == old(buffers)[n..] && deleted == old(deleted) + AsSet(old(buffers)[..n])
      ensures forall c :: c in buffers ==> c in old(buffers)
      ensures Distinct(buffers)
      ensures forall c :: c in buffers ==> c !in deleted
    {
      for i := 0 to n
        invariant buffers == old(buffers)
        invariant deleted == old(deleted) + AsSet(buffers[..i])
      {
        DistinctAt(buffers, i);
        assert buffers[i] !in deleted;
        assert buffers[..i + 1] == buffers[..i] + [buffers[i]];
        deleted := deleted + {buffers[i]};
      }
      DistinctSuffix(buffers, n);
      buffers := buffers[n..];
    }

    /**
     Removes committed bytes from the front and deletes just the chunks this empties. Without enough
     committed bytes nothing changes (the C++ throws out_of_range). From 2^31 on the `int` division
     goes wrong, nothing is deleted and the fields no longer describe what is left.
     */
    method Pop(size: nat) returns (ok: bool)
      requires Valid()
      requires firstElementIndex + size < 0x1_0000_0000
      modifies this
      ensures ok <==> size <= old(committedBytes)
      ensures !ok ==> unchanged(this)
      ensures ok ==> size <= |old(contents)| && contents == old(contents)[size..]
      ensures ok ==> committedBytes == old(committedBytes) - size
      ensures ok ==> (Valid() <==> old(firstElementIndex) + size < 0x8000_0000)
      ensures |buffers| <= |old(buffers)| && Repr() <= old(Repr())
      ensures var k := |old(buffers)| - |buffers|;
              buffers == old(buffers)[k..] && deleted == old(deleted) + AsSet(old(buffers)[..k])
    {
      if size > committedBytes {
        assert buffers[0..] == buffers && AsSet(buffers[..0]) == {};
        return false;
      }
      committedBytes := committedBytes - size;
      var (emptyBuffers, rem) := DivAsInt(firstElementIndex + size);
      DropFront(emptyBuffers, rem, size);
      return true;
    }

    /** The second half of `Pop`: the chunk count and the offset already come from the division. */
    method DropFront(emptyBuffers: int, rem: int, size: nat)
      requires Valid()
      requires size + committedBytes <= |contents| && firstElementIndex + size < 0x1_0000_0000
      requires (emptyBuffers, rem) == DivAsInt(firstElementIndex + size)
      modifies this`firstElementIndex, this`buffers, this`deleted, this`contents
      ensures old(firstElementIndex) + size < 0x8000_0000 ==> Valid()
      ensures old(firstElementIndex) + size >= 0x8000_0000 ==> !Valid()
      ensures contents == old(contents)[size..]
      ensures var k := if emptyBuffers > 0 then emptyBuffers else 0;
              k <= |old(buffers)| && buffers == old(buffers)[k..] && deleted == old(deleted) + AsSet(old(buffers)[..k])
      ensures forall c :: c in buffers ==> c in old(buffers)
    {
      ghost var exact, flat := firstElementIndex + size < 0x8000_0000, Flat(buffers);
      if exact {
        FlatDrop(buffers, emptyBuffers);
        ShowsLess(Flat(buffers), firstElementIndex, freeSpaceInLastBuffer, contents, size, Capacity(emptyBuffers), rem);
        flat := Flat(buffers[emptyBuffers..]);
      }
      firstElementIndex := if rem < 0 then rem + 0x1_0000_0000 else rem;
      contents := contents[size..];
      if emptyBuffers > 0 {
        DeleteChunks(emptyBuffers);
      }
      if exact {
        assert buffers == old(buffers)[emptyBuffers..] && Flat(buffers) == flat;
        assert Shows(flat, firstElementIndex, freeSpaceInLastBuffer, contents);
      } else {
        assert Flat(buffers) == flat;
        assert firstElementIndex >= BUFFER_SIZE || |flat| != firstElementIndex + |contents| + freeSpaceInLastBuffer;
      }
    }

    method Clear()
      requires Valid()
      modifies this
      ensures Valid()
      ensures contents == [] && committedBytes == 0 && buffers == []
      ensures deleted == old(deleted) + AsSet(old(buffers))
    {
      assert buffers[..|buffers|] == buffers;
      DeleteChunks(|buffers|);
      firstElementIndex, freeSpaceInLastBuffer, committedBytes := 0, 0, 0;
      contents := [];
    }
  }
}
