/** Reading through a pinned view: the slices of a view, the copy out of them, and exactly
    when a cache hit returns what a direct read returns. */
module CacheRead {
  import opened Common
  import opened BufferPool
  import opened EntryWord
  import opened CacheSystem
  import opened CacheInvariant
  import opened CacheSteps
  import opened CacheTheorems
  import opened FileIndex

  /** A stretch of memory. */
  datatype Span = Span(addr: nat, len: nat)

  function Load(mem: nat -> Byte, addr: nat, len: nat): (r: seq<Byte>)
    ensures |r| == len
  {
    seq(len, (k: nat) => mem(addr + k))
  }

  /** The bytes of several spans, one after the other. */
  function Gather(mem: nat -> Byte, spans: seq<Span>): seq<Byte> {
    if spans == [] then []
    else Gather(mem, spans[..|spans| - 1]) + Load(mem, spans[|spans| - 1].addr, spans[|spans| - 1].len)
  }

  /** `bytes` are the bytes of the chunked buffer of `e` from position `start` on. */
  ghost predicate IsBuffer(env: Env, mem: nat -> Byte, e: Entry, start: nat, bytes: seq<Byte>) {
    forall i: nat, r: nat {:trigger Addr(e, i, r)} ::
      i < |e.chunks| && r < env.chunkBytes && start <= i * env.chunkBytes + r < start + |bytes| ==>
      bytes[i * env.chunkBytes + r - start] == mem(Addr(e, i, r))
  }

  // ---- Arithmetic of chunk positions ------------------------------------------------

  lemma MulAtMost(a: int, b: int, c: nat)
    requires a <= b
    ensures a * c <= b * c
  {
    assert (b - a) * c >= 0;
    assert b * c == a * c + (b - a) * c;
  }

  /** A position determines its chunk. */
  lemma SameChunk(i: nat, r: nat, j: nat, q: nat, cb: nat)
    requires r < cb && q < cb && i * cb + r == j * cb + q
    ensures i == j && r == q
  {
    assert (i + 1) * cb == i * cb + cb && (j + 1) * cb == j * cb + cb;
    if i < j { MulAtMost(i + 1, j, cb); }
    if j < i { MulAtMost(j + 1, i, cb); }
  }

  /** The range's chunks are those that start inside it. */
  lemma ChunkInside(env: Env, range: Range, i: nat)
    requires env.chunkBytes > 0
    ensures i < ChunkCount(env, range) <==> i * env.chunkBytes < range.size
  {
    var cb := env.chunkBytes;
    var x, n := range.size + cb - 1, ChunkCount(env, range);
    assert x == n * cb + x % cb;
    if i >= n { MulAtMost(n, i, cb); } else { MulAtMost(i + 1, n, cb); }
    assert (i + 1) * cb == i * cb + cb;
  }

  // ---- Slicing ------------------------------------------------------------------------

  lemma GatherPush(mem: nat -> Byte, spans: seq<Span>, span: Span)
    ensures Gather(mem, spans + [span]) == Gather(mem, spans) + Load(mem, span.addr, span.len)
  {
    assert (spans + [span])[..|spans|] == spans;
  }

  /** Lengthening the last span by what follows it in memory appends those bytes. */
  lemma GatherExtend(mem: nat -> Byte, spans: seq<Span>, n: nat)
    requires spans != []
    ensures var last := spans[|spans| - 1];
            Gather(mem, spans[|spans| - 1 := Span(last.addr, last.len + n)])
            == Gather(mem, spans) + Load(mem, last.addr + last.len, n)
  {
    var m := |spans| - 1;
    var last := spans[m];
    var more := spans[m := Span(last.addr, last.len + n)];
    assert more[..m] == spans[..m];
    assert Load(mem, last.addr, last.len + n) == Load(mem, last.addr, last.len) + Load(mem, last.addr + last.len, n);
  }

  /** `n` bytes of chunk `i`, from byte `off` on, are the buffer's next bytes. */
  lemma ChunkBytes(env: Env, mem: nat -> Byte, e: Entry, start: nat, bytes: seq<Byte>, i: nat, off: nat, n: nat)
    requires i < |e.chunks| && off + n <= env.chunkBytes
    requires IsBuffer(env, mem, e, start, bytes) && start + |bytes| == i * env.chunkBytes + off
    ensures IsBuffer(env, mem, e, start, bytes + Load(mem, e.chunks[i] + off, n))
  {
    var all := bytes + Load(mem, e.chunks[i] + off, n);
    forall j: nat, r: nat | j < |e.chunks| && r < env.chunkBytes && start <= j * env.chunkBytes + r < start + |all|
      ensures all[j * env.chunkBytes + r - start] == mem(Addr(e, j, r))
    {
      var x := j * env.chunkBytes + r;
      if x >= start + |bytes| {
        SameChunk(j, r, i, off + (x - start - |bytes|), env.chunkBytes);
      }
    }
  }

  /** No span continues the one before it. */
  predicate Coalesced(spans: seq<Span>) {
    forall k :: 0 < k < |spans| ==> spans[k - 1].addr + spans[k - 1].len != spans[k].addr
  }

  predicate NoneEmpty(spans: seq<Span>) { forall k :: 0 <= k < |spans| ==> spans[k].len > 0 }

  /** Adds `n` bytes at `p`, lengthening the last span if they follow it in memory. */
  method Push(spans: seq<Span>, p: nat, n: nat, ghost mem: nat -> Byte) returns (result: seq<Span>)
    requires Coalesced(spans)
    ensures Gather(mem, result) == Gather(mem, spans) + Load(mem, p, n)
    ensures Coalesced(result) && (n > 0 && NoneEmpty(spans) ==> NoneEmpty(result))
  {
    hide Coalesced, NoneEmpty, Gather, Load;
    if spans != [] && spans[|spans| - 1].addr + spans[|spans| - 1].len == p {
      var last := spans[|spans| - 1];
      result := spans[|spans| - 1 := Span(last.addr, last.len + n)];
      GatherExtend(mem, spans, n);
      ExtendKeeps(spans, n);
    } else {
      result := spans + [Span(p, n)];
      GatherPush(mem, spans, Span(p, n));
      PushKeeps(spans, Span(p, n));
    }
  }

  lemma ExtendKeeps(spans: seq<Span>, n: nat)
    requires spans != [] && Coalesced(spans)
    ensures var last := spans[|spans| - 1];
            var more := spans[|spans| - 1 := Span(last.addr, last.len + n)];
            Coalesced(more) && (NoneEmpty(spans) ==> NoneEmpty(more))
  {
  }

  lemma PushKeeps(spans: seq<Span>, span: Span)
    requires Coalesced(spans)
    requires spans == [] || spans[|spans| - 1].addr + spans[|spans| - 1].len != span.addr
    ensures Coalesced(spans + [span]) && (span.len > 0 && NoneEmpty(spans) ==> NoneEmpty(spans + [span]))
  {
  }

  /** How many bytes a slice yields: up to the end of the physical range, or, from behind
      that end, up to the end of the last chunk. */
  function Sliced(env: Env, e: Entry, offset: nat, size: nat): nat
    requires e.physical.offset <= offset
  {
    var start, held := offset - e.physical.offset, |e.chunks| * env.chunkBytes;
    if start <= e.physical.size then Min(size, e.physical.size - start)
    else if start < held then Min(size, held - start)
    else 0
  }

  /** What chunk `i` can give from byte `off` on; the difference is unsigned. */
  function Available(env: Env, e: Entry, base: nat, off: nat): int
  {
    Min(env.chunkBytes - off, (e.physical.size - base - off) % WORD)
  }

  /** Sizes and offsets fit a machine word. */
  predicate Fits(env: Env, e: Entry) { 0 < env.chunkBytes < WORD && e.physical.size < WORD }

  /** Slices the chunks of a pinned entry at `[offset, offset + size)`: the spans hold
      the buffer's bytes of that stretch, whatever memory holds, and neighbouring chunks
      that are adjacent in memory share a span. */
  method Slice(env: Env, e: Entry, offset: nat, size: nat, ghost mem: nat -> Byte) returns (result: seq<Span>)
    requires Fits(env, e) && |e.chunks| == ChunkCount(env, e.physical)
    requires e.physical.offset <= e.logical.offset <= offset
    ensures |Gather(mem, result)| == Sliced(env, e, offset, size)
    ensures IsBuffer(env, mem, e, offset - e.physical.offset, Gather(mem, result))
    ensures Coalesced(result) && (offset != e.physical.End() ==> NoneEmpty(result))
  {
    hide IsBuffer, ChunkCount, Coalesced, NoneEmpty, Gather, Available;
    result := [];
    NoSpans(env, mem, e, offset - e.physical.offset);
    var cb := env.chunkBytes;
    var start := (offset - e.logical.offset) + (e.logical.offset - e.physical.offset);
    var remaining := size;
    var i, off := start / cb, start % cb;
    var base := i * cb;
    SplitAt(start, cb);
    Edges(env, e, i);
    while remaining > 0 && i < |e.chunks|
      invariant 0 <= remaining <= size && |Gather(mem, result)| == size - remaining
      invariant 0 <= off < cb && base == i * cb && (off > 0 ==> remaining == size)
      invariant start == e.physical.size ==> remaining == size
      invariant remaining > 0 && i < |e.chunks| ==> start + (size - remaining) == base + off
      invariant remaining == 0 || i >= |e.chunks| ==> size - remaining == Sliced(env, e, offset, size)
      invariant IsBuffer(env, mem, e, start, Gather(mem, result)) && Coalesced(result)
      invariant start != e.physical.size ==> NoneEmpty(result)
      decreases |e.chunks| - i
    {
      Edges(env, e, i);
      AvailableIs(env, e, base, off);
      var n := Min(remaining, Available(env, e, base, off));
      ChunkBytes(env, mem, e, start, Gather(mem, result), i, off, n);
      result := Push(result, e.chunks[i] + off, n, mem);
      remaining := remaining - n;
      i, base, off := i + 1, base + cb, 0;
    }
  }

  /** Where chunk `i` and the one behind it start, against the ends of range and chunks. */
  lemma Edges(env: Env, e: Entry, i: nat)
    requires env.chunkBytes > 0 && |e.chunks| == ChunkCount(env, e.physical)
    ensures i < |e.chunks| <==> i * env.chunkBytes < e.physical.size
    ensures i + 1 < |e.chunks| <==> (i + 1) * env.chunkBytes < e.physical.size
    ensures (i + 1) * env.chunkBytes == i * env.chunkBytes + env.chunkBytes
    ensures e.physical.size <= |e.chunks| * env.chunkBytes
    ensures i >= |e.chunks| ==> |e.chunks| * env.chunkBytes <= i * env.chunkBytes
    ensures i + 1 == |e.chunks| ==> |e.chunks| * env.chunkBytes == i * env.chunkBytes + env.chunkBytes
  {
    ChunkInside(env, e.physical, i);
    ChunkInside(env, e.physical, i + 1);
    ChunkInside(env, e.physical, |e.chunks|);
    hide ChunkCount;
    if i >= |e.chunks| { MulAtMost(|e.chunks|, i, env.chunkBytes); }
  }

  /** Inside a chunk the difference is what is left of the range; behind the range's end
      it wraps around and the rest of the chunk counts. */
  lemma AvailableIs(env: Env, e: Entry, base: nat, off: nat)
    requires Fits(env, e) && base < e.physical.size && off < env.chunkBytes
    ensures Available(env, e, base, off) ==
            if base + off <= e.physical.size then Min(env.chunkBytes - off, e.physical.size - base - off)
            else env.chunkBytes - off
  {
    var d := e.physical.size - base - off;
    if d >= 0 { ModUnique(d, WORD, 0, d); } else { ModUnique(d, WORD, -1, d + WORD); }
  }

  lemma SplitAt(start: nat, cb: nat)
    requires cb > 0
    ensures start == (start / cb) * cb + start % cb && 0 <= start % cb < cb && start / cb >= 0
  {
  }

  lemma NoSpans(env: Env, mem: nat -> Byte, e: Entry, start: nat)
    ensures IsBuffer(env, mem, e, start, []) && Coalesced([]) && NoneEmpty([]) && Gather(mem, []) == []
  {
  }

  // ---- The hit path ---------------------------------------------------------------------

  /** Copies the spans one after the other into `dst`. */
  method CopySpans(mem: nat -> Byte, spans: seq<Span>, dst: array<Byte>) returns (copied: nat)
    requires |Gather(mem, spans)| <= dst.Length
    modifies dst
    ensures copied == |Gather(mem, spans)| && dst[..copied] == Gather(mem, spans)
    ensures forall k :: copied <= k < dst.Length ==> dst[k] == old(dst[k])
  {
    copied := 0;
    var i := 0;
    assert spans[..0] == [];
    while i < |spans|
      invariant 0 <= i <= |spans|
      invariant copied == |Gather(mem, spans[..i])| <= dst.Length && dst[..copied] == Gather(mem, spans[..i])
      invariant forall k :: copied <= k < dst.Length ==> dst[k] == old(dst[k])
    {
      var span := spans[i];
      GatherMore(mem, spans, i);
      forall k | 0 <= k < span.len { dst[copied + k] := mem(span.addr + k); }
      copied := copied + span.len;
      i := i + 1;
    }
    assert spans[..|spans|] == spans;
  }

  lemma {:induction false} GatherMore(mem: nat -> Byte, spans: seq<Span>, i: nat)
    requires i < |spans|
    ensures Gather(mem, spans[..i + 1]) == Gather(mem, spans[..i]) + Load(mem, spans[i].addr, spans[i].len)
    ensures |Gather(mem, spans[..i + 1])| <= |Gather(mem, spans)|
    decreases |spans| - i
  {
    assert spans[..i + 1][..i] == spans[..i];
    if i + 1 < |spans| {
      GatherMore(mem, spans, i + 1);
    } else {
      assert spans[..i + 1] == spans;
    }
  }

  /** What a direct read of the file delivers. */
  function Direct(file: seq<Byte>, offset: nat, size: nat): seq<Byte> {
    if offset >= |file| then [] else file[offset..Min(offset + size, |file|)]
  }

  /** When a hit has exactly the bytes of a direct read: the request stays inside the file,
      or the buffer ends where the file does, or nothing is held at that place. */
  predicate Exact(env: Env, e: Entry, offset: nat, size: nat)
    requires e.file < |env.files| && e.physical.offset <= offset
  {
    var file := |env.files[e.file]|;
    || size == 0 || offset + size <= file
    || (offset < file && file == e.physical.End())
    || offset == e.physical.End()
    || |e.chunks| * env.chunkBytes <= offset - e.physical.offset
  }

  /** A loaded entry whose chunks hold what they should. */
  ghost predicate Loaded(env: Env, mem: nat -> Byte, e: Entry) {
    Fits(env, e) && EntryOk(env, e) && Full(env, e) && Landed(env, mem, e)
  }

  /** A slice is at least as long as a direct read, and as long exactly when it is exact. */
  lemma SlicedLength(env: Env, e: Entry, offset: nat, size: nat)
    requires env.chunkBytes > 0 && EntryOk(env, e) && Full(env, e) && Covers(e.logical, offset, size)
    ensures |Direct(env.files[e.file], offset, size)| <= Sliced(env, e, offset, size)
    ensures |Direct(env.files[e.file], offset, size)| == Sliced(env, e, offset, size) <==> Exact(env, e, offset, size)
  {
    Edges(env, e, 0);
    hide ChunkCount;
  }

  /** A byte of the buffer that a direct read delivers is the file's. */
  lemma BufferByteIsFile(env: Env, mem: nat -> Byte, e: Entry, offset: nat, size: nat, k: nat, i: nat, r: nat)
    requires Loaded(env, mem, e) && Covers(e.logical, offset, size)
    requires k < |Direct(env.files[e.file], offset, size)|
    requires offset - e.physical.offset + k == i * env.chunkBytes + r && r < env.chunkBytes
    ensures i < |e.chunks| && mem(Addr(e, i, r)) == Direct(env.files[e.file], offset, size)[k]
  {
    ChunkInside(env, e.physical, i);
    hide ChunkCount;
    assert FilePos(env, e, i, r) == offset + k;
    assert mem(Addr(e, i, r)) == env.files[e.file][offset + k];
  }

  /** Bytes as long as the slice that start with the direct read's. */
  lemma PrefixDecides(env: Env, e: Entry, offset: nat, size: nat, bytes: seq<Byte>)
    requires env.chunkBytes > 0 && EntryOk(env, e) && Full(env, e) && Covers(e.logical, offset, size)
    requires |bytes| == Sliced(env, e, offset, size)
    requires var direct := Direct(env.files[e.file], offset, size);
             forall k :: 0 <= k < |direct| && k < |bytes| ==> bytes[k] == direct[k]
    ensures var direct := Direct(env.files[e.file], offset, size);
            direct <= bytes && (bytes == direct <==> Exact(env, e, offset, size))
  {
    SlicedLength(env, e, offset, size);
    hide EntryOk, Full, Direct, Sliced, Exact;
  }

  lemma Locate(x: nat, cb: nat)
    requires cb > 0
    ensures x == (x / cb) * cb + x % cb && 0 <= x / cb && 0 <= x % cb < cb
  {
  }

  /** The bytes of a hit start with those of a direct read, for every request inside the
      entry's range, and are exactly those bytes if and only if `Exact` holds. */
  lemma HitIsDirectIff(env: Env, mem: nat -> Byte, e: Entry, offset: nat, size: nat, bytes: seq<Byte>)
    requires Loaded(env, mem, e) && Covers(e.logical, offset, size)
    requires |bytes| == Sliced(env, e, offset, size)
    requires IsBuffer(env, mem, e, offset - e.physical.offset, bytes)
    ensures var direct := Direct(env.files[e.file], offset, size);
            direct <= bytes && (bytes == direct <==> Exact(env, e, offset, size))
  {
    var direct := Direct(env.files[e.file], offset, size);
    var start, cb := offset - e.physical.offset, env.chunkBytes;
    hide Direct, Landed, EntryOk, Full, Sliced, Exact;
    forall k | 0 <= k < |direct| && k < |bytes| ensures bytes[k] == direct[k] {
      Locate(start + k, cb);
      BufferByteIsFile(env, mem, e, offset, size, k, (start + k) / cb, (start + k) % cb);
    }
    PrefixDecides(env, e, offset, size, bytes);
  }

  /** With a block-aligned buffer: a request that reaches past the file's end gets bytes
      from behind it, unless the file fills its last block. */
  lemma AlignedExactIff(env: Env, e: Entry, offset: nat, size: nat)
    requires env.chunkBytes > 0 && EntryOk(env, e) && Full(env, e) && Covers(e.logical, offset, size)
    requires e.physical == AlignedRange(e.logical, |env.files[e.file]|) && size > 0 && offset < e.physical.End()
    requires RoundDown(e.logical.offset) <= RoundUp(|env.files[e.file]|) < WORD
    ensures var file := |env.files[e.file]|;
            Exact(env, e, offset, size) <==> offset + size <= file || (offset < file && file % IO_BLOCK_SIZE == 0)
  {
    var file, logical := |env.files[e.file]|, e.logical;
    var start, end := RoundDown(logical.offset), Min(RoundUp(logical.End()), RoundUp(file));
    RoundUpIs(file);
    RoundUpIs(logical.End());
    RoundedOrder(logical.offset, logical.End());
    ModUnique(end - start, WORD, 0, end - start);
    Edges(env, e, 0);
    hide ChunkCount, RoundUp, RoundDown;
  }

  lemma RoundUpIs(n: nat)
    ensures n <= RoundUp(n) && RoundDown(n) <= n && (RoundUp(n) == n <==> n % IO_BLOCK_SIZE == 0)
  {
  }

  /** With a buffer cut off at the file's end: a request gets bytes from behind the file
      exactly when it starts there and inside the last chunk, where the unsigned difference
      wraps around. */
  lemma ClippedExactIff(env: Env, e: Entry, offset: nat, size: nat)
    requires env.chunkBytes > 0 && EntryOk(env, e) && Full(env, e) && Covers(e.logical, offset, size)
    requires e.physical == ClippedRange(e.logical, |env.files[e.file]|) && size > 0
    ensures Exact(env, e, offset, size) <==>
            !(|env.files[e.file]| < offset < e.physical.offset + |e.chunks| * env.chunkBytes)
  {
    Edges(env, e, 0);
    hide ChunkCount;
  }

  /** An entry of a ten-byte file that was asked for twenty bytes. */
  function TenByteEntry(physical: Range): Entry {
    Entry(0, Range(0, 20), physical, [0], 0, Word(Cached, 0))
  }

  function TenBytes(): (env: Env)
    ensures env.chunkBytes == 4096 && |env.files| == 1 && |env.files[0]| == 10
    ensures forall k :: 0 <= k < 10 ==> env.files[0][k] == 0
  {
    Env(4096, [seq(10, (k: nat) => 0)])
  }

  /** Two hits that return what is not in the file: a request for all twenty bytes of a
      block-aligned buffer, and one for the last five of a buffer cut off at the file's end. */
  lemma HitsPastTheEnd(mem: nat -> Byte)
    requires forall a: nat :: mem(a) == 0
    ensures var env := TenBytes();
            var aligned, clipped := AlignedRange(Range(0, 20), 10), ClippedRange(Range(0, 20), 10);
            && Loaded(env, mem, TenByteEntry(aligned)) && Loaded(env, mem, TenByteEntry(clipped))
            && Sliced(env, TenByteEntry(aligned), 0, 20) == 20 && |Direct(env.files[0], 0, 20)| == 10
            && Sliced(env, TenByteEntry(clipped), 15, 5) == 5 && Direct(env.files[0], 15, 5) == []
  {
    hide TenBytes;
    assert AlignedRange(Range(0, 20), 10) == Range(0, 4096);
    assert ClippedRange(Range(0, 20), 10) == Range(0, 10);
  }

  /** A host read: through the cache on a hit, otherwise directly. On a hit the destination
      receives a direct read's bytes, followed by what the buffer holds behind the file's end
      unless the hit is exact. */
  method HostRead(env: Env, mem: nat -> Byte, hit: Option<Entry>, file: nat, offset: nat, size: nat, dst: array<Byte>)
    returns (copied: nat)
    requires file < |env.files| && size <= dst.Length
    requires hit.Some? ==>
               && hit.value.file == file && Loaded(env, mem, hit.value)
               && hit.value.logical.offset <= offset
    modifies dst
    ensures copied <= dst.Length
    ensures hit.None? ==> dst[..copied] == Direct(env.files[file], offset, size)
    ensures hit.Some? ==> copied == Sliced(env, hit.value, offset, size)
    ensures hit.Some? && Covers(hit.value.logical, offset, size) ==>
              && Direct(env.files[file], offset, size) <= dst[..copied]
              && (dst[..copied] == Direct(env.files[file], offset, size) <==> Exact(env, hit.value, offset, size))
    ensures forall k :: copied <= k < dst.Length ==> dst[k] == old(dst[k])
  {
    hide Landed, IsBuffer, Coalesced, NoneEmpty, Exact;
    if hit.Some? {
      var e := hit.value;
      var spans := Slice(env, e, offset, size, mem);
      if Covers(e.logical, offset, size) {
        HitIsDirectIff(env, mem, e, offset, size, Gather(mem, spans));
      }
      copied := CopySpans(mem, spans, dst);
    } else {
      var bytes := Direct(env.files[file], offset, size);
      copied := |bytes|;
      forall k | 0 <= k < |bytes| { dst[k] := bytes[k]; }
    }
  }

  // ---- From the lookup to the bytes ----------------------------------------------------

  /** The file's list: its entries in the order of their logical ranges. */
  ghost predicate Listed(entries: seq<Entry>, list: seq<EntryId>, file: nat) {
    && IdsOk(entries, list) && Sorted(Logicals(entries, list))
    && forall k :: 0 <= k < |list| ==> entries[list[k]].file == file
  }

  function Logicals(entries: seq<Entry>, list: seq<EntryId>): (r: seq<Range>)
    requires IdsOk(entries, list)
    ensures |r| == |list| && forall k :: 0 <= k < |list| ==> r[k] == entries[list[k]].logical
  {
    seq(|list|, k requires 0 <= k < |list| => entries[list[k]].logical)
  }

  /** Searches the list and pins what it finds if it can be read. */
  method Lookup(entries: seq<Entry>, list: seq<EntryId>, ghost file: nat, offset: nat, size: nat)
    returns (hit: Option<EntryId>)
    requires Listed(entries, list, file)
    ensures hit.Some? ==> hit.value in list && hit.value < |entries| && Readable(entries[hit.value])
    ensures hit.Some? ==> entries[hit.value].logical.offset <= offset
    ensures (exists k: nat :: k < |list| && IsCandidate(Logicals(entries, list), offset, k)
                              && Accepts(entries[list[k]].logical, offset, size) && Readable(entries[list[k]]))
            <==> hit.Some?
    ensures hit.Some? ==> Accepts(entries[hit.value].logical, offset, size)
  {
    var found := FindEntry(Logicals(entries, list), offset, size);
    hit := None;
    if found.Some? && TryAcquireRead(entries[list[found.value]].word).Some? {
      hit := Some(list[found.value]);
    }
  }

  /** A read in any state the cache can reach: what the lookup finds serves the request, and
      the destination receives the file's bytes as `HostRead` says. */
  method ReadThrough(env: Env, s: State, list: seq<EntryId>, file: nat, offset: nat, size: nat, dst: array<Byte>)
    returns (copied: nat, hit: Option<EntryId>)
    requires 0 < env.chunkBytes < WORD && Inv(env, s) && Listed(s.entries, list, file)
    requires file < |env.files| && size <= dst.Length
    requires forall i :: 0 <= i < |s.entries| ==> Fits(env, s.entries[i]) && s.entries[i].logical.End() < WORD
    modifies dst
    ensures copied <= dst.Length && (hit.Some? ==> hit.value in list && hit.value < |s.entries|)
    ensures 0 < size && offset + size < WORD ==>
              && Direct(env.files[file], offset, size) <= dst[..copied]
              && (hit.Some? ==> s.entries[hit.value].physical.offset <= offset && s.entries[hit.value].file == file)
              && (dst[..copied] == Direct(env.files[file], offset, size) <==>
                  hit.None? || Exact(env, s.entries[hit.value], offset, size))
    ensures forall k :: copied <= k < dst.Length ==> dst[k] == old(dst[k])
  {
    hide Inv, Exact, Direct, IsCandidate;
    hit := Lookup(s.entries, list, file, offset, size);
    var entry := None;
    if hit.Some? {
      var e := s.entries[hit.value];
      ReadableIsLoaded(env, s, hit.value);
      if 0 < size && offset + size < WORD { AcceptsIff(e.logical, offset, size); }
      entry := Some(e);
    }
    hide Loaded, Accepts;
    copied := HostRead(env, s.mem, entry, file, offset, size, dst);
  }

  lemma ReadableIsLoaded(env: Env, s: State, i: EntryId)
    requires env.chunkBytes > 0 && Inv(env, s) && i < |s.entries| && Readable(s.entries[i]) && Fits(env, s.entries[i])
    ensures Loaded(env, s.mem, s.entries[i]) && s.entries[i].physical.offset <= s.entries[i].logical.offset
  {
    EntryAt(env, s, i);
    assert ContentsOk(env, s.entries, s.mem);
    hide Inv, Landed;
  }

  // ---- Reading while pinned --------------------------------------------------------------

  /** Every byte was copied at some moment between `a` and `b`, each at a moment of its own,
      from the place its chunk had when the read began. */
  ghost predicate CopiedDuring(env: Env, states: seq<State>, a: nat, b: nat, e: Entry, start: nat,
                               at: nat -> nat, bytes: seq<Byte>) {
    forall i: nat, r: nat {:trigger Addr(e, i, r)} ::
      i < |e.chunks| && r < env.chunkBytes && start <= i * env.chunkBytes + r < start + |bytes| ==>
      var k := i * env.chunkBytes + r - start;
      a <= at(k) <= b < |states| && bytes[k] == states[at(k)].mem(Addr(e, i, r))
  }

  /** In every run, a read that copies its bytes while it holds a pin, whatever else the cache
      does in between, gets what `HitIsDirectIff` says of one look at the memory. */
  lemma PinnedReadIsFile(env: Env, states: seq<State>, steps: seq<Step>, a: nat, b: nat, e: EntryId,
                         offset: nat, size: nat, at: nat -> nat, bytes: seq<Byte>)
    requires Run(env, states, steps) && a <= b < |states|
    requires forall k :: a <= k <= b ==> Pinned(states[k], e)
    requires e < |states[a].entries| && Fits(env, states[a].entries[e])
    requires Covers(states[a].entries[e].logical, offset, size)
    requires var entry := states[a].entries[e];
             && entry.physical.offset <= offset && |bytes| == Sliced(env, entry, offset, size)
             && CopiedDuring(env, states, a, b, entry, offset - entry.physical.offset, at, bytes)
    ensures var entry := states[a].entries[e];
            && entry.file < |env.files|
            && var direct := Direct(env.files[entry.file], offset, size);
               direct <= bytes && (bytes == direct <==> Exact(env, entry, offset, size))
  {
    hide Run, Inv, Landed, EntryOk, Full, Sliced, Exact, Direct, Pinned, Loaded;
    var entry := states[a].entries[e];
    PinnedLoaded(env, states, steps, a, a, e);
    var direct := Direct(env.files[entry.file], offset, size);
    var start, cb := offset - entry.physical.offset, env.chunkBytes;
    forall k | 0 <= k < |direct| && k < |bytes| ensures bytes[k] == direct[k] {
      var i, r := (start + k) / cb, (start + k) % cb;
      Locate(start + k, cb);
      BufferByteIsFile(env, states[a].mem, entry, offset, size, k, i, r);
      assert Addr(entry, i, r) >= 0;
      PinnedLoaded(env, states, steps, a, at(k), e);
      BufferByteIsFile(env, states[at(k)].mem, entry, offset, size, k, i, r);
    }
    LoadedFacts(env, states[a].mem, entry);
    PrefixDecides(env, entry, offset, size, bytes);
  }

  lemma LoadedFacts(env: Env, mem: nat -> Byte, e: Entry)
    requires Loaded(env, mem, e)
    ensures env.chunkBytes > 0 && EntryOk(env, e) && Full(env, e)
  {
  }

  /** While pinned, the chunks an entry had at moment `a` hold its bytes at any later moment. */
  lemma PinnedLoaded(env: Env, states: seq<State>, steps: seq<Step>, a: nat, t: nat, e: EntryId)
    requires Run(env, states, steps) && a <= t < |states|
    requires forall k :: a <= k <= t ==> Pinned(states[k], e)
    requires e < |states[a].entries| && Fits(env, states[a].entries[e])
    ensures Loaded(env, states[t].mem, states[a].entries[e]) && states[a].entries[e].file < |env.files|
  {
    hide Inv, Landed, Full, Pinned;
    RunKeeps(env, states, steps, a);
    PinnedInUse(env, states[a], e);
    EntryAt(env, states[a], e);
    PinnedEntryStable(env, states, steps, a, t, e);
    SameLanded(env, states[t].mem, states[t].entries[e], states[a].entries[e]);
  }

  lemma SameLanded(env: Env, mem: nat -> Byte, e: Entry, e': Entry)
    requires Landed(env, mem, e) && e'.file == e.file && e'.physical == e.physical && e'.chunks == e.chunks
    ensures Landed(env, mem, e')
  {
    forall i: nat, r: nat | i < |e'.chunks| && r < env.chunkBytes
                            && FilePos(env, e', i, r) < Min(e'.physical.End(), |env.files[e'.file]|)
      ensures mem(Addr(e', i, r)) == env.files[e'.file][FilePos(env, e', i, r)]
    {
      assert Addr(e, i, r) == Addr(e', i, r);
    }
  }
}
