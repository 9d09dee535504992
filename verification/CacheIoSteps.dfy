/** The IO completion callbacks and the evictor keep the cache's invariant. */
module CacheIoSteps {
  import opened Common
  import opened BufferPool
  import opened EntryWord
  import opened CacheSystem
  import opened CacheInvariant
  import opened CacheSteps

  // ---- IO writes to memory --------------------------------------------------------

  /** A write confined to chunks apart from those of `e` leaves `e` as it was. */
  lemma ApartKeepsLanded(env: Env, entries: seq<Entry>, batch: seq<EntryId>, mem: nat -> Byte, mem': nat -> Byte,
      e: Entry)
    requires Landed(env, mem, e) && WritesOnly(env, entries, batch, mem, mem')
    requires forall k, c, d ::
               0 <= k < |batch| && batch[k] < |entries| && d in entries[batch[k]].chunks && c in e.chunks ==>
               c + env.chunkBytes <= d || d + env.chunkBytes <= c
    ensures Landed(env, mem', e)
  {
    forall i: nat, r: nat | i < |e.chunks| && r < env.chunkBytes &&
      FilePos(env, e, i, r) < Min(e.physical.End(), |env.files[e.file]|)
      ensures mem'(Addr(e, i, r)) == env.files[e.file][FilePos(env, e, i, r)]
    {
      var a := Addr(e, i, r);
      assert e.chunks[i] in e.chunks && e.chunks[i] <= a < e.chunks[i] + env.chunkBytes;
      assert !InChunks(env, entries, batch, a);
      assert mem'(a) == mem(a);
    }
  }

  /** The write of a reading flight leaves every full entry outside it as it was. */
  lemma WriteKeepsOthers(env: Env, s: State, f: nat, mem: nat -> Byte, j: nat)
    requires env.chunkBytes > 0 && Inv(env, s) && f < |s.flights| && s.flights[f].phase == Reading
    requires WritesOnly(env, s.entries, s.flights[f].batch, s.mem, mem)
    requires j < |s.entries| && j !in s.flights[f].batch
    requires Full(env, s.entries[j]) && Landed(env, s.mem, s.entries[j])
    ensures Landed(env, mem, s.entries[j])
  {
    var fl := s.flights[f];
    assert FlightOk(env, s.entries, s.mem, fl);
    forall k, c, d | 0 <= k < |fl.batch| && fl.batch[k] < |s.entries| && d in s.entries[fl.batch[k]].chunks &&
      c in s.entries[j].chunks
      ensures c + env.chunkBytes <= d || d + env.chunkBytes <= c
    {
      assert SlotOk(env, s.mem, fl, k, s.entries[fl.batch[k]]);
      assert Owned(s.entries[j]) == s.entries[j].chunks;
      assert Owned(s.entries[fl.batch[k]]) == s.entries[fl.batch[k]].chunks;
      hide Inv;
      OwnersApart(env, s, j, fl.batch[k], c, d);
    }
    hide Inv, Landed, Full;
    ApartKeepsLanded(env, s.entries, fl.batch, s.mem, mem, s.entries[j]);
  }

  lemma WriteKeepsContents(env: Env, s: State, f: nat, mem: nat -> Byte)
    requires env.chunkBytes > 0 && Inv(env, s) && f < |s.flights| && s.flights[f].phase == Reading
    requires WritesOnly(env, s.entries, s.flights[f].batch, s.mem, mem)
    ensures ContentsOk(env, s.entries, mem)
  {
    hide PoolOk, ChunkLaw, Custody, PinsOk, WorkerOk, EvictorOk, QueueOk, WritesOnly, Landed, ChunkCount;
    forall j | 0 <= j < |s.entries| && Readable(s.entries[j]) ensures Landed(env, mem, s.entries[j]) {
      assert EntryOk(env, s.entries[j]);
      assert FlightOk(env, s.entries, s.mem, s.flights[f]);
      assert j !in s.flights[f].batch;
      WriteKeepsOthers(env, s, f, mem, j);
    }
  }

  lemma WriteKeepsFlight(env: Env, s: State, f: nat, mem: nat -> Byte, g: nat)
    requires env.chunkBytes > 0 && Inv(env, s) && f < |s.flights| && s.flights[f].phase == Reading
    requires WritesOnly(env, s.entries, s.flights[f].batch, s.mem, mem) && g < |s.flights|
    ensures FlightOk(env, s.entries, mem, s.flights[g])
  {
    hide PoolOk, ChunkLaw, Custody, PinsOk, WorkerOk, EvictorOk, QueueOk, ContentsOk, WritesOnly, Landed, ChunkCount;
    var fl, gl := s.flights[f], s.flights[g];
    assert FlightOk(env, s.entries, s.mem, fl) && FlightOk(env, s.entries, s.mem, gl);
    assert Unresolved(fl) == fl.batch;
    forall k | gl.done <= k < |gl.batch| ensures SlotOk(env, mem, gl, k, s.entries[gl.batch[k]]) {
      assert SlotOk(env, s.mem, gl, k, s.entries[gl.batch[k]]);
      if gl.phase.Caching? {
        assert Unresolved(gl)[k - gl.done] == gl.batch[k];
        FlightsApart(s, g, f, gl.batch[k]);
        WriteKeepsOthers(env, s, f, mem, gl.batch[k]);
      }
    }
  }

  /** A reading flight writes to memory, and its phase may change with it. */
  lemma WriteKeeps(env: Env, s: State, s': State, f: nat, fl: Flight)
    requires env.chunkBytes > 0 && Inv(env, s) && f < |s.flights| && s.flights[f].phase == Reading
    requires WritesOnly(env, s.entries, s.flights[f].batch, s.mem, s'.mem)
    requires fl.batch == s.flights[f].batch && fl.done == s.flights[f].done
    requires FlightOk(env, s.entries, s'.mem, fl)
    requires s' == s.(mem := s'.mem, flights := s.flights[f := fl])
    ensures Inv(env, s')
  {
    hide PoolOk, ChunkLaw, EntriesOk, Custody, PinsOk, WorkerOk, FlightOk, EvictorOk, ContentsOk, QueueOk, WritesOnly;
    WriteKeepsContents(env, s, f, s'.mem);
    forall g | 0 <= g < |s'.flights| ensures FlightOk(env, s'.entries, s'.mem, s'.flights[g]) {
      if g != f { WriteKeepsFlight(env, s, f, s'.mem, g); }
    }
    CustodyPhase(s.entries, s.worker, s.flights, f, fl);
  }

  lemma CustodyPhase(entries: seq<Entry>, w: Worker, flights: seq<Flight>, f: nat, fl: Flight)
    requires Custody(entries, w, flights) && f < |flights| && Unresolved(fl) == Unresolved(flights[f])
    ensures Custody(entries, w, flights[f := fl])
  {
    FlightBagUpdate(flights, f, fl);
    hide FlightBag, Batch, Unresolved, IsLoading;
    Cancel(FlightBag(flights[f := fl]), FlightBag(flights), multiset(Unresolved(fl)));
  }

  lemma ReadingSlots(env: Env, entries: seq<Entry>, mem: nat -> Byte, mem': nat -> Byte, fl: Flight, phase: FlightPhase)
    requires env.chunkBytes > 0 && FlightOk(env, entries, mem, fl) && fl.phase == Reading
    requires phase == Reading || phase == Failing(false) || phase == Caching
    requires phase == Caching ==> forall k :: 0 <= k < |fl.batch| ==> Landed(env, mem', entries[fl.batch[k]])
    ensures FlightOk(env, entries, mem', fl.(phase := phase))
  {
    hide Landed, ChunkCount;
    forall k | 0 <= k < |fl.batch| ensures SlotOk(env, mem', fl.(phase := phase), k, entries[fl.batch[k]]) {
      assert SlotOk(env, mem, fl, k, entries[fl.batch[k]]);
    }
  }

  lemma ReadingStepKeeps(env: Env, s: State, s': State, step: Step)
    requires env.chunkBytes > 0 && Inv(env, s) && FlightStep(env, s, s', step)
    requires step.Write? || step.Land? || step.Fail?
    ensures Inv(env, s')
  {
    hide PoolOk, ChunkLaw, EntriesOk, Custody, PinsOk, WorkerOk, FlightOk, EvictorOk, ContentsOk, QueueOk, Landed;
    var f := step.f;
    var fl := s.flights[f];
    var fl' := fl.(phase := if step.Write? then Reading else if step.Land? then Caching else Failing(false));
    assert IdsOk(s.entries, fl.batch) by { BatchIds(env, s.entries, s.mem, fl); }
    ReadingSlots(env, s.entries, s.mem, s'.mem, fl, fl'.phase);
    assert s'.flights == s.flights[f := fl'];
    assert WritesOnly(env, s.entries, fl.batch, s.mem, s'.mem);
    hide WritesOnly, Inv;
    WriteKeeps(env, s, s', f, fl');
  }

  lemma BatchIds(env: Env, entries: seq<Entry>, mem: nat -> Byte, fl: Flight)
    requires env.chunkBytes > 0 && FlightOk(env, entries, mem, fl)
    ensures IdsOk(entries, fl.batch) && fl.done <= |fl.batch|
  {
  }

  // ---- Completion callbacks, entry by entry ---------------------------------------

  /** The entry a callback is about to handle. */
  predicate Current(s: State, f: nat, i: nat) {
    && f < |s.flights| && s.flights[f].done < |s.flights[f].batch|
    && i == s.flights[f].batch[s.flights[f].done] && i < |s.entries|
  }

  lemma CurrentFacts(env: Env, s: State, f: nat, i: nat)
    requires env.chunkBytes > 0 && Inv(env, s) && Current(s, f, i)
    ensures FlightOk(env, s.entries, s.mem, s.flights[f])
    ensures SlotOk(env, s.mem, s.flights[f], s.flights[f].done, s.entries[i])
    ensures i in Unresolved(s.flights[f])
  {
    hide PoolOk, ChunkLaw, EntriesOk, Custody, PinsOk, WorkerOk, EvictorOk, ContentsOk, QueueOk, SlotOk;
    assert Unresolved(s.flights[f])[0] == i;
  }

  /** The entries after the current one of the flight are different entries. */
  lemma LaterSlots(env: Env, s: State, f: nat, i: nat, entries: seq<Entry>, k: nat)
    requires env.chunkBytes > 0 && Inv(env, s) && Current(s, f, i) && OnlyAt(s.entries, entries, i)
    requires s.flights[f].done < k < |s.flights[f].batch|
    ensures var fl := s.flights[f];
            fl.batch[k] < |entries| && fl.batch[k] != i && SlotOk(env, s.mem, fl, k, entries[fl.batch[k]])
  {
    hide PoolOk, ChunkLaw, EntriesOk, Custody, PinsOk, WorkerOk, EvictorOk, ContentsOk, QueueOk, SlotOk;
    CurrentFacts(env, s, f, i);
    FlightOnce(s, f, s.flights[f].done, k);
  }

  /** The current entry of a flight changes; the flight may move on. */
  lemma TouchFlight(env: Env, s: State, f: nat, i: nat, e: Entry, fl: Flight)
    requires env.chunkBytes > 0 && Inv(env, s) && Current(s, f, i) && OnlyAt(s.entries, s.entries[i := e], i)
    requires EntryOk(env, e) && e.word.pins == 0 && e.word.phase != Evicting
    requires Readable(e) ==> Landed(env, s.mem, e)
    requires FlightOk(env, s.entries[i := e], s.mem, fl)
    ensures var entries := s.entries[i := e];
            && EntriesOk(env, entries) && QueueOk(entries, s.queue) && PinsOk(entries, s.held, s.deferred)
            && FlightsOk(env, entries, s.mem, s.flights[f := fl]) && WorkerOk(env, entries, s.worker)
            && EvictorOk(env, entries, s.evictor) && ContentsOk(env, entries, s.mem)
    ensures IsLoading(s.entries, i)
  {
    hide PoolOk, ChunkLaw, EntriesOk, Custody, PinsOk, WorkerOk, FlightOk, EvictorOk, ContentsOk, QueueOk, EntryOk,
         Landed, Readable;
    var entries := s.entries[i := e];
    CurrentFacts(env, s, f, i);
    EntryAt(env, s, i);
    LoadingPins(env, s.entries[i]);
    WorkerApart(s, f, i);
    WorkerFrame(env, s.entries, entries, s.worker);
    var flights := s.flights[f := fl];
    forall g | 0 <= g < |flights| ensures FlightOk(env, entries, s.mem, flights[g]) {
      if g != f {
        FlightsApart(s, f, g, i);
        FlightFrame(env, s.entries, entries, s.mem, s.flights[g]);
      }
    }
    EntriesFrame(env, s.entries, entries, i);
    PinsChange(s, i, e, s.held, s.deferred);
    QueueFrame(s.entries, entries, s.queue);
    EvictorFrame(env, s.entries, entries, i, s.evictor);
    ContentsFrame(env, s.entries, entries, i, s.mem);
  }

  lemma LoadingPins(env: Env, e: Entry)
    requires env.chunkBytes > 0 && EntryOk(env, e) && e.word.phase == Loading
    ensures e.word == Word(Loading, 0)
  {
  }

  /** The current entry stops loading and the flight moves on. */
  lemma CustodyLeave(s: State, f: nat, i: nat, e: Entry, fl: Flight)
    requires Custody(s.entries, s.worker, s.flights) && Current(s, f, i)
    requires IsLoading(s.entries, i) && e.word.phase != Loading
    requires fl.batch == s.flights[f].batch && fl.done == s.flights[f].done + 1
    ensures Custody(s.entries[i := e], s.worker, s.flights[f := fl])
  {
    var was, now := Unresolved(s.flights[f]), Unresolved(fl);
    assert was == [i] + now;
    var one: multiset<EntryId> := multiset{i};
    var was', now': multiset<EntryId> := multiset(was), multiset(now);
    assert was' == one + now';
    FlightBagUpdate(s.flights, f, fl);
    hide FlightBag, Batch, Unresolved;
    var a, b, hands := FlightBag(s.flights[f := fl]), FlightBag(s.flights), multiset(Batch(s.worker));
    forall j: EntryId
      ensures (a + hands)[j] == if IsLoading(s.entries[i := e], j) then 1 else 0
    {
      assert (a + was')[j] == (b + now')[j] && was'[j] == one[j] + now'[j];
      assert a[j] + one[j] == b[j];
      assert (b + hands)[j] == if IsLoading(s.entries, j) then 1 else 0;
    }
  }

  lemma MarkCachedKeeps(env: Env, s: State, s': State, f: nat)
    requires env.chunkBytes > 0 && Inv(env, s) && FlightStep(env, s, s', MarkCached(f))
    ensures Inv(env, s')
  {
    hide PoolOk, ChunkLaw, EntriesOk, Custody, PinsOk, WorkerOk, FlightsOk, EvictorOk, ContentsOk, QueueOk, Landed,
         ChunkCount;
    var fl, fl' := s.flights[f], s'.flights[f];
    var i := fl.batch[fl.done];
    CurrentFacts(env, s, f, i);
    EntryAt(env, s, i);
    var e, e' := s.entries[i], s.entries[i].(word := Word(Cached, 0));
    assert s'.entries == s.entries[i := e'];
    assert EntryOk(env, e');
    WordKeepsLanded(env, s.mem, e, e');
    forall k | fl'.done <= k < |fl'.batch| ensures SlotOk(env, s.mem, fl', k, s'.entries[fl'.batch[k]]) {
      LaterSlots(env, s, f, i, s'.entries, k);
    }
    hide EntryOk;
    TouchFlight(env, s, f, i, e', fl');
    CustodyLeave(s, f, i, e', fl');
    ChunkFrame(s.pool, s.worker, s.entries, i, e');
  }

  lemma MarkFailedKeeps(env: Env, s: State, s': State, f: nat)
    requires env.chunkBytes > 0 && Inv(env, s) && FlightStep(env, s, s', MarkFailed(f))
    ensures Inv(env, s')
  {
    hide PoolOk, ChunkLaw, EntriesOk, Custody, PinsOk, WorkerOk, FlightsOk, EvictorOk, ContentsOk, QueueOk, Landed,
         ChunkCount;
    var fl, fl' := s.flights[f], s'.flights[f];
    var i := fl.batch[fl.done];
    CurrentFacts(env, s, f, i);
    EntryAt(env, s, i);
    var e, e' := s.entries[i], s.entries[i].(word := Word(Empty, 0));
    assert s'.entries == s.entries[i := e'];
    assert EntryOk(env, e');
    forall k | fl'.done <= k < |fl'.batch| ensures SlotOk(env, s.mem, fl', k, s'.entries[fl'.batch[k]]) {
      LaterSlots(env, s, f, i, s'.entries, k);
    }
    hide EntryOk;
    TouchFlight(env, s, f, i, e', fl');
    CustodyLeave(s, f, i, e', fl');
    ChunkFrame(s.pool, s.worker, s.entries, i, e');
  }

  /** Chunks move from an entry to the pool. */
  lemma EntryMove(s: State, pool: Pool, i: nat, e: Entry, chunks: seq<Chunk>)
    requires ChunkLaw(s.pool, s.worker, s.entries) && i < |s.entries| && pool.answers == s.pool.answers
    requires Stock(pool) == Stock(s.pool) + multiset(chunks)
    requires multiset(Owned(s.entries[i])) == multiset(chunks) + multiset(Owned(e))
    ensures ChunkLaw(pool, s.worker, s.entries[i := e])
  {
    OwnedBagUpdate(s.entries, i, e);
    hide OwnedBag, Stock, Local, Owned;
    var o, o', c, r := OwnedBag(s.entries), OwnedBag(s.entries[i := e]), multiset(chunks), multiset(Owned(e));
    assert (o' + c) + r == o + r;
    Cancel(o' + c, o, r);
    Shuffle(Stock(s.pool), multiset{}, c, o');
  }

  lemma ReturnedOk(env: Env, p: Pool, chunks: seq<Chunk>)
    requires Valid(p) && PoolOk(env, p)
    ensures Stock(Returned(p, chunks)) == Stock(p) + multiset(chunks)
    ensures PoolOk(env, Returned(p, chunks)) && Returned(p, chunks).answers == p.answers
  {
    hide Offered, Separate;
  }

  /** Chunks at the front of what an entry owns go back to the pool. */
  lemma GiveBack(env: Env, s: State, i: nat, e: Entry, chunks: seq<Chunk>)
    requires Valid(s.pool) && PoolOk(env, s.pool) && ChunkLaw(s.pool, s.worker, s.entries) && i < |s.entries|
    requires Owned(s.entries[i]) == chunks + Owned(e)
    ensures PoolOk(env, Returned(s.pool, chunks)) && ChunkLaw(Returned(s.pool, chunks), s.worker, s.entries[i := e])
  {
    hide Owned, Stock, ChunkLaw, PoolOk;
    ReturnedOk(env, s.pool, chunks);
    EntryMove(s, Returned(s.pool, chunks), i, e, chunks);
  }

  lemma OwnedHead(e: Entry)
    requires e.returned < |e.chunks|
    ensures Owned(e) == [e.chunks[e.returned]] + Owned(e.(returned := e.returned + 1))
  {
  }

  lemma FreeOneKeeps(env: Env, s: State, s': State, f: nat)
    requires env.chunkBytes > 0 && Inv(env, s) && FlightStep(env, s, s', FreeOne(f))
    ensures Inv(env, s')
  {
    hide PoolOk, ChunkLaw, EntriesOk, Custody, PinsOk, WorkerOk, FlightsOk, EvictorOk, ContentsOk, QueueOk, Landed,
         ChunkCount, Stock, Returned, Valid;
    var fl := s.flights[f];
    var i := fl.batch[fl.done];
    CurrentFacts(env, s, f, i);
    EntryAt(env, s, i);
    var e, e' := s.entries[i], s'.entries[i];
    assert EntryOk(env, e');
    forall k | fl.done <= k < |fl.batch| ensures SlotOk(env, s.mem, fl, k, s'.entries[fl.batch[k]]) {
      if k > fl.done { LaterSlots(env, s, f, i, s'.entries, k); }
    }
    hide EntryOk, Owned, SlotOk;
    OwnedHead(e);
    TouchFlight(env, s, f, i, e', fl);
    assert s.flights[f := fl] == s.flights;
    CustodyFrame(s.entries, s'.entries, s.worker, s.worker, s.flights);
    GiveBack(env, s, i, e', [e.chunks[e.returned]]);
  }

  lemma ClearFailedKeeps(env: Env, s: State, s': State, f: nat)
    requires env.chunkBytes > 0 && Inv(env, s) && FlightStep(env, s, s', ClearFailed(f))
    ensures Inv(env, s')
  {
    hide PoolOk, ChunkLaw, EntriesOk, Custody, PinsOk, WorkerOk, FlightsOk, EvictorOk, ContentsOk, QueueOk, Landed,
         ChunkCount;
    var fl, fl' := s.flights[f], s'.flights[f];
    var i := fl.batch[fl.done];
    CurrentFacts(env, s, f, i);
    EntryAt(env, s, i);
    var e, e' := s.entries[i], s'.entries[i];
    assert EntryOk(env, e');
    forall k | fl'.done <= k < |fl'.batch| ensures SlotOk(env, s.mem, fl', k, s'.entries[fl'.batch[k]]) {
      if k > fl.done { LaterSlots(env, s, f, i, s'.entries, k); }
    }
    assert Owned(e) == Owned(e');
    hide EntryOk, Owned;
    TouchFlight(env, s, f, i, e', fl');
    CustodyFrame(s.entries, s'.entries, s.worker, s.worker, s.flights);
    CustodyPhase(s'.entries, s.worker, s.flights, f, fl');
    ChunkFrame(s.pool, s.worker, s.entries, i, e');
  }

  lemma FlightKeeps(env: Env, s: State, s': State, step: Step)
    requires env.chunkBytes > 0 && Inv(env, s) && FlightStep(env, s, s', step)
    ensures Inv(env, s')
  {
    hide Inv;
    match step
    case Write(_, _) => ReadingStepKeeps(env, s, s', step);
    case Land(_, _) => ReadingStepKeeps(env, s, s', step);
    case Fail(_) => ReadingStepKeeps(env, s, s', step);
    case MarkCached(f) => MarkCachedKeeps(env, s, s', f);
    case FreeOne(f) => FreeOneKeeps(env, s, s', f);
    case ClearFailed(f) => ClearFailedKeeps(env, s, s', f);
    case MarkFailed(f) => MarkFailedKeeps(env, s, s', f);
  }

  // ---- Evictor ----------------------------------------------------------------------

  /** The entry being evicted, or about to be, changes; readers and IO are elsewhere. */
  lemma TouchEvicted(env: Env, s: State, s': State, i: nat, e: Entry)
    requires env.chunkBytes > 0 && Inv(env, s) && i < |s.entries|
    requires s'.entries == s.entries[i := e] && OnlyAt(s.entries, s'.entries, i)
    requires s'.queue == s.queue && s'.worker == s.worker && s'.flights == s.flights && s'.mem == s.mem
    requires s'.held == s.held && s'.deferred == s.deferred
    requires !IsLoading(s.entries, i) && !IsLoading(s'.entries, i) && !Readable(e)
    requires EntryOk(env, e) && s.entries[i].word.pins == 0 == e.word.pins
    requires PoolOk(env, s'.pool) && ChunkLaw(s'.pool, s'.worker, s'.entries)
    requires EvictorOk(env, s'.entries, s'.evictor)
    ensures Inv(env, s')
  {
    hide PoolOk, ChunkLaw, EntriesOk, Custody, PinsOk, WorkerOk, FlightsOk, EvictorOk, ContentsOk, QueueOk, EntryOk,
         Readable;
    TouchIdle(env, s, s'.entries, i);
    EntryAt(env, s, i);
    PinsChange(s, i, e, s.held, s.deferred);
    ContentsFrame(env, s.entries, s'.entries, i, s.mem);
  }

  lemma ClaimKeeps(env: Env, s: State, s': State, i: EntryId)
    requires env.chunkBytes > 0 && Inv(env, s) && EvictorStep(env, s, s', Claim(i))
    ensures Inv(env, s')
  {
    hide ChunkLaw, EntriesOk, Custody, PinsOk, WorkerOk, FlightsOk, ContentsOk, QueueOk, ChunkCount;
    EntryAt(env, s, i);
    assert EntryOk(env, s'.entries[i]) && EvictorOk(env, s'.entries, s'.evictor);
    ChunkFrame(s.pool, s.worker, s.entries, i, s'.entries[i]);
    hide Inv, EntryOk, EvictorOk;
    TouchEvicted(env, s, s', i, s'.entries[i]);
  }

  lemma FreeChunksKeeps(env: Env, s: State, s': State)
    requires env.chunkBytes > 0 && Inv(env, s) && EvictorStep(env, s, s', FreeChunks)
    ensures Inv(env, s')
  {
    hide PoolOk, ChunkLaw, EntriesOk, Custody, PinsOk, WorkerOk, FlightsOk, ContentsOk, QueueOk, ChunkCount, Stock,
         Returned, Valid;
    var i := s.evictor.e;
    var e, e' := s.entries[i], s'.entries[i];
    EntryAt(env, s, i);
    assert EntryOk(env, e') && EvictorOk(env, s'.entries, s'.evictor);
    assert Owned(e) == e.chunks + Owned(e');
    hide EntryOk, EvictorOk, Owned;
    GiveBack(env, s, i, e', e.chunks);
    hide Inv;
    TouchEvicted(env, s, s', i, e');
  }

  lemma ClearChunksKeeps(env: Env, s: State, s': State)
    requires env.chunkBytes > 0 && Inv(env, s) && EvictorStep(env, s, s', ClearChunks)
    ensures Inv(env, s')
  {
    hide ChunkLaw, EntriesOk, Custody, PinsOk, WorkerOk, FlightsOk, ContentsOk, QueueOk, ChunkCount;
    var i := s.evictor.e;
    EntryAt(env, s, i);
    assert EntryOk(env, s'.entries[i]) && EvictorOk(env, s'.entries, s'.evictor);
    ChunkFrame(s.pool, s.worker, s.entries, i, s'.entries[i]);
    hide Inv, EntryOk, EvictorOk;
    TouchEvicted(env, s, s', i, s'.entries[i]);
  }

  lemma MarkEvictedKeeps(env: Env, s: State, s': State)
    requires env.chunkBytes > 0 && Inv(env, s) && EvictorStep(env, s, s', MarkEvicted)
    ensures Inv(env, s')
  {
    hide ChunkLaw, EntriesOk, Custody, PinsOk, WorkerOk, FlightsOk, ContentsOk, QueueOk, ChunkCount;
    var i := s.evictor.e;
    EntryAt(env, s, i);
    assert EntryOk(env, s'.entries[i]) && EvictorOk(env, s'.entries, s'.evictor);
    ChunkFrame(s.pool, s.worker, s.entries, i, s'.entries[i]);
    hide Inv, EntryOk, EvictorOk;
    TouchEvicted(env, s, s', i, s'.entries[i]);
  }

  lemma EvictorKeeps(env: Env, s: State, s': State, step: Step)
    requires env.chunkBytes > 0 && Inv(env, s) && EvictorStep(env, s, s', step)
    ensures Inv(env, s')
  {
    hide Inv;
    match step
    case Claim(e) => ClaimKeeps(env, s, s', e);
    case FreeChunks => FreeChunksKeeps(env, s, s');
    case ClearChunks => ClearChunksKeeps(env, s, s');
    case MarkEvicted => MarkEvictedKeeps(env, s, s');
  }
}
