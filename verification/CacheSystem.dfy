/** The prefetching cache as a step system: readers, the worker, the IO completion
    callbacks, stream callbacks and the evictor take turns, one atomic action at a
    time. An action is one mutex section, one compare-and-swap or store on an entry's
    state word, or one update of data that only the acting thread touches.

    The request counters and time stamps that make the worker skip an entry and the
    evictor pass one over are not part of the state: both choices are free here, so
    whatever holds of every run here holds for every outcome of those tests. */
module CacheSystem {
  import opened Common
  import opened BufferPool
  import opened EntryWord

  type Byte = x: int | 0 <= x < 256

  datatype Range = Range(offset: nat, size: nat) {
    function End(): nat { offset + size }
  }

  /** What a run leaves alone: the chunk size and the files' contents. */
  datatype Env = Env(chunkBytes: nat, files: seq<seq<Byte>>)

  type EntryId = nat

  /** A cache entry. `returned` counts the leading pointers of `chunks` that already
      went back to the pool while the vector is not yet cleared. */
  datatype Entry = Entry(
    file: nat,
    logical: Range,
    physical: Range,
    chunks: seq<Chunk>,
    returned: nat,
    word: Word)

  /** The worker thread between two of its actions. `local` holds the chunks of its
      pointer vector that are not yet handed on. */
  datatype Worker =
    | Idle
    | Peeking(item: seq<EntryId>, plan: seq<nat>)
    | Waiting(item: seq<EntryId>, plan: seq<nat>, local: seq<Chunk>)
    | Abandoning(local: seq<Chunk>)
    | Assigning(item: seq<EntryId>, plan: seq<nat>, next: nat, local: seq<Chunk>, batch: seq<EntryId>)
    | Started(item: seq<EntryId>, plan: seq<nat>, next: nat, local: seq<Chunk>, batch: seq<EntryId>)
    | Returning(item: seq<EntryId>, plan: seq<nat>, next: nat, local: seq<Chunk>, batch: seq<EntryId>, left: nat)

  datatype FlightPhase = Reading | Caching | Failing(cleared: bool)

  /** One dispatched IO with its completion callback; the callback is through with the
      first `done` entries of the batch. */
  datatype Flight = Flight(batch: seq<EntryId>, done: nat, phase: FlightPhase)

  datatype Evictor = Resting | Claimed(e: EntryId) | Freed(e: EntryId) | Cleared(e: EntryId)

  /** `held` counts the live pinned views of an entry, `deferred` the releases queued
      on streams and not yet run. */
  datatype State = State(
    pool: Pool,
    mem: nat -> Byte,
    entries: seq<Entry>,
    queue: seq<seq<EntryId>>,
    worker: Worker,
    flights: seq<Flight>,
    held: multiset<EntryId>,
    deferred: multiset<EntryId>,
    evictor: Evictor)

  /** Chunks needed for a range: its size over the chunk size, rounded up. */
  function ChunkCount(env: Env, range: Range): nat
    requires env.chunkBytes > 0
  {
    (range.size + env.chunkBytes - 1) / env.chunkBytes
  }

  /** Address `a` lies in one of the chunks of the listed entries. */
  ghost predicate InChunks(env: Env, entries: seq<Entry>, batch: seq<EntryId>, a: nat) {
    exists k, c :: 0 <= k < |batch| && batch[k] < |entries|
                   && c in entries[batch[k]].chunks && c <= a < c + env.chunkBytes
  }

  /** Memory changed at most inside the chunks of the listed entries. */
  ghost predicate WritesOnly(env: Env, entries: seq<Entry>, batch: seq<EntryId>, mem: nat -> Byte, mem': nat -> Byte) {
    forall a: nat :: mem'(a) == mem(a) || InChunks(env, entries, batch, a)
  }

  /** The address of byte `r` of chunk `i`. */
  function Addr(e: Entry, i: nat, r: nat): nat
    requires i < |e.chunks|
  {
    e.chunks[i] + r
  }

  /** The file position of byte `r` of chunk `i`: chunk `i` starts at byte
      `i * chunkBytes` of the physical range. */
  function FilePos(env: Env, e: Entry, i: nat, r: nat): nat {
    e.physical.offset + (i * env.chunkBytes + r)
  }

  /** The chunks of `e` hold the bytes of its physical range, as far as the file
      reaches. */
  ghost predicate Landed(env: Env, mem: nat -> Byte, e: Entry) {
    && e.file < |env.files|
    && forall i: nat, r: nat {:trigger Addr(e, i, r)} ::
         i < |e.chunks| && r < env.chunkBytes && FilePos(env, e, i, r) < Min(e.physical.End(), |env.files[e.file]|) ==>
         mem(Addr(e, i, r)) == env.files[e.file][FilePos(env, e, i, r)]
  }

  /** A range entry just created by an insert. The physical range starts at or before
      the logical one and reaches its end or the end of the file. */
  ghost predicate Fresh(env: Env, e: Entry) {
    && e.file < |env.files|
    && e.physical.offset <= e.logical.offset
    && Min(e.logical.End(), |env.files[e.file]|) <= e.physical.End()
    && e.chunks == [] && e.returned == 0 && e.word == Word(Empty, 0)
  }

  function CancelQueued(entries: seq<Entry>, item: seq<EntryId>): (r: seq<Entry>)
    ensures |r| == |entries|
  {
    seq(|entries|, i requires 0 <= i < |entries| =>
      if i in item && TryCancelQueued(entries[i].word).Some?
      then entries[i].(word := TryCancelQueued(entries[i].word).value)
      else entries[i])
  }

  datatype Step =
    // callers
    | Insert(created: seq<Entry>, item: seq<EntryId>)
    | Drain
    | Pin(e: EntryId)
    | UnpinNow(e: EntryId)
    | UnpinLater(e: EntryId)
    | StreamCallback(e: EntryId)
    // worker
    | Dequeue
    | Peek(skip: bool)
    | Allocate(pool: Pool, out: seq<Chunk>)
    | EvictionFailed
    | AllocateRest(pool: Pool, out: seq<Chunk>)
    | Abandon
    | StartLoad(resolved: bool)
    | AssignChunks
    | ReturnOne
    | Dispatch
    // IO completion of flight f
    | Write(f: nat, mem: nat -> Byte)
    | Land(f: nat, mem: nat -> Byte)
    | Fail(f: nat)
    | MarkCached(f: nat)
    | FreeOne(f: nat)
    | ClearFailed(f: nat)
    | MarkFailed(f: nat)
    // evictor
    | Claim(e: EntryId)
    | FreeChunks
    | ClearChunks
    | MarkEvicted

  ghost predicate Init(env: Env, s: State) {
    && env.chunkBytes > 0
    && Valid(s.pool) && Stock(s.pool) == Offered(s.pool.answers, 0)
    && Separate(env, Offered(s.pool.answers, 0))
    && s.entries == [] && s.queue == [] && s.worker == Idle && s.flights == []
    && s.held == multiset{} && s.deferred == multiset{} && s.evictor == Resting
  }

  /** The blocks the memory resource delivers are distinct and do not overlap. */
  ghost predicate Separate(env: Env, blocks: multiset<Chunk>) {
    && (forall c :: blocks[c] <= 1)
    && (forall c, d :: c in blocks && d in blocks && c != d ==> c + env.chunkBytes <= d || d + env.chunkBytes <= c)
  }

  // ---- Readers, insert and refresh -------------------------------------------

  ghost predicate ReaderStep(env: Env, s: State, s': State, step: Step) {
    match step
    case Insert(created, item) =>
      && (forall i :: 0 <= i < |created| ==> Fresh(env, created[i]))
      && (forall i :: 0 <= i < |item| ==> item[i] < |s.entries| + |created|)
      && s' == s.(entries := s.entries + created, queue := s.queue + [item])
    case Drain =>
      && s.queue != []
      && s' == s.(entries := CancelQueued(s.entries, s.queue[0]), queue := s.queue[1..])
    case Pin(e) =>
      && e < |s.entries| && TryAcquireRead(s.entries[e].word).Some?
      && s' == s.(entries := s.entries[e := s.entries[e].(word := TryAcquireRead(s.entries[e].word).value)],
                  held := s.held + multiset{e})
    case UnpinNow(e) =>
      && e < |s.entries| && e in s.held
      && s' == s.(entries := s.entries[e := s.entries[e].(word := ReleaseRead(s.entries[e].word))],
                  held := s.held - multiset{e})
    case UnpinLater(e) =>
      && e in s.held
      && s' == s.(held := s.held - multiset{e}, deferred := s.deferred + multiset{e})
    case StreamCallback(e) =>
      && e < |s.entries| && e in s.deferred
      && s' == s.(entries := s.entries[e := s.entries[e].(word := ReleaseRead(s.entries[e].word))],
                  deferred := s.deferred - multiset{e})
    case _ => false
  }

  // ---- Worker -----------------------------------------------------------------

  /** The worker moves on to entry `next` of its item. */
  function Advance(w: Worker, next: nat, local: seq<Chunk>, batch: seq<EntryId>): Worker
    requires w.Assigning? || w.Started? || w.Returning?
  {
    Assigning(w.item, w.plan, next, local, batch)
  }

  ghost predicate WorkerStep(env: Env, s: State, s': State, step: Step)
    requires env.chunkBytes > 0
  {
    var w := s.worker;
    match step
    case Dequeue =>
      && w.Idle? && s.queue != []
      && s' == s.(queue := s.queue[1..], worker := Peeking(s.queue[0], []))
    case Peek(skip) =>
      && w.Peeking? && |w.plan| < |w.item| && w.item[|w.plan|] < |s.entries|
      && var e := s.entries[w.item[|w.plan|]];
         var phase := e.word.phase;
         var n := if skip || (phase != Empty && phase != Queued) then 0 else ChunkCount(env, e.physical);
         s' == s.(worker := Peeking(w.item, w.plan + [n]))
    case Allocate(pool, out) =>
      && w.Peeking? && |w.plan| == |w.item|
      && var n := Sum(w.plan);
         if n == 0 then s' == s.(worker := Idle)
         else
           && BulkTaken(s.pool, n, pool, out)
           && s' == s.(pool := pool,
                       worker := if |out| == n then Assigning(w.item, w.plan, 0, out, [])
                         else Waiting(w.item, w.plan, out))
    case EvictionFailed =>
      && w.Waiting?
      && s' == s.(worker := Abandoning(w.local))
    case AllocateRest(pool, out) =>
      && w.Waiting? && |w.local| <= Sum(w.plan)
      && var n := Sum(w.plan) - |w.local|;
         && BulkTaken(s.pool, n, pool, out)
         && s' == s.(pool := pool,
                     worker := if |out| == n then Assigning(w.item, w.plan, 0, w.local + out, [])
                       else Abandoning(w.local + out))
    case Abandon =>
      && w.Abandoning? && Valid(s.pool)
      && s' == s.(pool := Returned(s.pool, w.local), worker := Idle)
    case StartLoad(resolved) =>
      && w.Assigning? && w.next < |w.item| == |w.plan| && w.item[w.next] < |s.entries|
      && var i := w.item[w.next];
         var claim := TryStartLoading(s.entries[i].word);
         if w.plan[w.next] == 0 then
           s' == s.(worker := Advance(w, w.next + 1, w.local, w.batch))
         else if resolved || claim.None? then
           s' == s.(worker := Returning(w.item, w.plan, w.next, w.local, w.batch, w.plan[w.next]))
         else
           s' == s.(entries := s.entries[i := s.entries[i].(word := claim.value)],
                    worker := Started(w.item, w.plan, w.next, w.local, w.batch))
    case AssignChunks =>
      && w.Started? && w.next < |w.item| == |w.plan| && w.item[w.next] < |s.entries| && w.plan[w.next] <= |w.local|
      && var i, n := w.item[w.next], w.plan[w.next];
         s' == s.(entries := s.entries[i := s.entries[i].(chunks := w.local[..n])],
                  worker := Advance(w, w.next + 1, w.local[n..], w.batch + [i]))
    case ReturnOne =>
      && w.Returning? && Valid(s.pool) && (w.left > 0 ==> w.local != [])
      && (if w.left == 0 then
            s' == s.(worker := Advance(w, w.next + 1, w.local, w.batch))
          else
            s' == s.(pool := Returned(s.pool, [w.local[0]]),
                     worker := Returning(w.item, w.plan, w.next, w.local[1..], w.batch, w.left - 1)))
    case Dispatch =>
      && w.Assigning? && w.next == |w.item|
      && s' == s.(worker := Idle,
                  flights := if w.batch == [] then s.flights else s.flights + [Flight(w.batch, 0, Reading)])
    case _ => false
  }

  // ---- IO completion ------------------------------------------------------------

  ghost predicate FlightStep(env: Env, s: State, s': State, step: Step) {
    match step
    case Write(f, mem) =>
      && f < |s.flights| && s.flights[f].phase == Reading
      && WritesOnly(env, s.entries, s.flights[f].batch, s.mem, mem)
      && s' == s.(mem := mem)
    case Land(f, mem) =>
      && f < |s.flights| && s.flights[f].phase == Reading
      && WritesOnly(env, s.entries, s.flights[f].batch, s.mem, mem)
      && (forall k :: 0 <= k < |s.flights[f].batch| && s.flights[f].batch[k] < |s.entries| ==>
            Landed(env, mem, s.entries[s.flights[f].batch[k]]))
      && s' == s.(mem := mem, flights := s.flights[f := s.flights[f].(phase := Caching)])
    case Fail(f) =>
      && f < |s.flights| && s.flights[f].phase == Reading
      && s' == s.(flights := s.flights[f := s.flights[f].(phase := Failing(false))])
    case MarkCached(f) =>
      && f < |s.flights| && s.flights[f].phase == Caching && s.flights[f].done < |s.flights[f].batch|
      && var i := s.flights[f].batch[s.flights[f].done];
         && i < |s.entries|
         && var w := TryMarkCached(s.entries[i].word);
            s' == s.(entries := if w.Some? then s.entries[i := s.entries[i].(word := w.value)] else s.entries,
                     flights := s.flights[f := s.flights[f].(done := s.flights[f].done + 1)])
    case FreeOne(f) =>
      && f < |s.flights| && s.flights[f].phase == Failing(false) && s.flights[f].done < |s.flights[f].batch|
      && Valid(s.pool)
      && var i := s.flights[f].batch[s.flights[f].done];
         && i < |s.entries| && s.entries[i].returned < |s.entries[i].chunks|
         && s' == s.(pool := Returned(s.pool, [s.entries[i].chunks[s.entries[i].returned]]),
                     entries := s.entries[i := s.entries[i].(returned := s.entries[i].returned + 1)])
    case ClearFailed(f) =>
      && f < |s.flights| && s.flights[f].phase == Failing(false) && s.flights[f].done < |s.flights[f].batch|
      && var i := s.flights[f].batch[s.flights[f].done];
         && i < |s.entries| && s.entries[i].returned == |s.entries[i].chunks|
         && s' == s.(entries := s.entries[i := s.entries[i].(chunks := [], returned := 0)],
                     flights := s.flights[f := s.flights[f].(phase := Failing(true))])
    case MarkFailed(f) =>
      && f < |s.flights| && s.flights[f].phase == Failing(true) && s.flights[f].done < |s.flights[f].batch|
      && var i := s.flights[f].batch[s.flights[f].done];
         && i < |s.entries|
         && var w := TryMarkLoadFailed(s.entries[i].word);
            s' == s.(entries := if w.Some? then s.entries[i := s.entries[i].(word := w.value)] else s.entries,
                     flights := s.flights[f := s.flights[f].(done := s.flights[f].done + 1, phase := Failing(false))])
    case _ => false
  }

  // ---- Evictor --------------------------------------------------------------------

  ghost predicate EvictorStep(env: Env, s: State, s': State, step: Step) {
    match step
    case Claim(e) =>
      && s.evictor.Resting? && e < |s.entries| && TryStartEvicting(s.entries[e].word).Some?
      && s' == s.(entries := s.entries[e := s.entries[e].(word := TryStartEvicting(s.entries[e].word).value)],
                  evictor := Claimed(e))
    case FreeChunks =>
      && s.evictor.Claimed? && s.evictor.e < |s.entries| && Valid(s.pool)
      && var i := s.evictor.e;
         s' == s.(pool := Returned(s.pool, s.entries[i].chunks),
                  entries := s.entries[i := s.entries[i].(returned := |s.entries[i].chunks|)],
                  evictor := Freed(i))
    case ClearChunks =>
      && s.evictor.Freed? && s.evictor.e < |s.entries|
      && var i := s.evictor.e;
         s' == s.(entries := s.entries[i := s.entries[i].(chunks := [], returned := 0)], evictor := Cleared(i))
    case MarkEvicted =>
      && s.evictor.Cleared? && s.evictor.e < |s.entries|
      && var i := s.evictor.e;
         s' == s.(entries := s.entries[i := s.entries[i].(word := Word(Empty, 0))], evictor := Resting)
    case _ => false
  }

  ghost predicate Next(env: Env, s: State, s': State, step: Step)
    requires env.chunkBytes > 0
  {
    || ReaderStep(env, s, s', step)
    || WorkerStep(env, s, s', step)
    || FlightStep(env, s, s', step)
    || EvictorStep(env, s, s', step)
  }

  /** Fewer than 2^28 pins are outstanding on every entry. */
  ghost predicate BelowPinLimit(s: State) {
    forall e: EntryId :: s.held[e] + s.deferred[e] < PIN_LIMIT
  }

  /** A run: states linked by steps, in which no entry ever has 2^28 pins outstanding. */
  ghost predicate Run(env: Env, states: seq<State>, steps: seq<Step>) {
    && env.chunkBytes > 0
    && |states| == |steps| + 1 && Init(env, states[0])
    && (forall k :: 0 <= k < |steps| ==> Next(env, states[k], states[k + 1], steps[k]))
    && (forall k :: 0 <= k < |states| ==> BelowPinLimit(states[k]))
  }
}
