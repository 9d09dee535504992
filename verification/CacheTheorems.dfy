/** What holds in every state of every run of the cache. */
module CacheTheorems {
  import opened Common
  import opened BufferPool
  import opened EntryWord
  import opened CacheSystem
  import opened CacheInvariant
  import opened CacheSteps
  import opened CacheIoSteps

  lemma InitKeeps(env: Env, s: State)
    requires env.chunkBytes > 0 && Init(env, s)
    ensures Inv(env, s)
  {
    assert OwnedBags(s.entries) == [] && FlightBags(s.flights) == [];
    hide Offered, Stock, Separate;
  }

  lemma StepKeeps(env: Env, s: State, s': State, step: Step)
    requires env.chunkBytes > 0 && Inv(env, s) && Next(env, s, s', step) && BelowPinLimit(s')
    ensures Inv(env, s')
  {
    hide Inv, ReaderStep, WorkerStep, FlightStep, EvictorStep, BelowPinLimit;
    if ReaderStep(env, s, s', step) {
      ReaderKeeps(env, s, s', step);
    } else if WorkerStep(env, s, s', step) {
      WorkerKeeps(env, s, s', step);
    } else if FlightStep(env, s, s', step) {
      FlightKeeps(env, s, s', step);
    } else {
      EvictorKeeps(env, s, s', step);
    }
  }

  /** The invariant holds in every state of every run. */
  lemma {:induction false} RunKeeps(env: Env, states: seq<State>, steps: seq<Step>, k: nat)
    requires Run(env, states, steps) && k < |states|
    ensures Inv(env, states[k])
  {
    hide Inv, Init, Next, BelowPinLimit;
    if k == 0 {
      InitKeeps(env, states[0]);
    } else {
      RunKeeps(env, states, steps, k - 1);
      StepKeeps(env, states[k - 1], states[k], steps[k - 1]);
    }
  }

  /** In every state of every run each chunk of the memory resource is in exactly one
      place: on the free list or still undelivered, in the worker's pointer vector, or
      owned by one entry. */
  lemma EachChunkInOnePlace(env: Env, states: seq<State>, steps: seq<Step>, k: nat, c: Chunk)
    requires Run(env, states, steps) && k < |states|
    requires c in Offered(states[k].pool.answers, 0)
    ensures var s := states[k];
            && Stock(s.pool)[c] + multiset(Local(s.worker))[c] + OwnedBag(s.entries)[c] == 1
            && s.pool.totalFree == |s.pool.free|
            && (forall i, j :: 0 <= i < j < |s.entries| && c in Owned(s.entries[i]) ==> c !in Owned(s.entries[j]))
            && (forall i :: 0 <= i < |s.entries| && c in Owned(s.entries[i]) ==>
                  c !in s.pool.free && c !in Local(s.worker))
  {
    var s := states[k];
    RunKeeps(env, states, steps, k);
    assert ChunkLaw(s.pool, s.worker, s.entries) && PoolOk(env, s.pool);
    hide Inv, Run, Owned, BagSum, Local, Offered;
    var all, bags, hands := Offered(s.pool.answers, 0), OwnedBags(s.entries), multiset(Local(s.worker));
    assert all[c] == 1;
    assert Stock(s.pool)[c] + hands[c] + BagSum(bags)[c] == all[c];
    forall i, j | 0 <= i < j < |s.entries| && c in Owned(s.entries[i]) ensures c !in Owned(s.entries[j]) {
      BagSumHasTwo(bags, i, j);
      assert c in bags[i] && bags[i][c] + bags[j][c] == (bags[i] + bags[j])[c] <= BagSum(bags)[c];
      assert bags[j][c] == 0;
    }
    forall i | 0 <= i < |s.entries| && c in Owned(s.entries[i]) ensures c !in s.pool.free && c !in Local(s.worker) {
      BagSumHas(bags, i);
      assert c in bags[i] && bags[i][c] <= BagSum(bags)[c];
      assert Stock(s.pool)[c] == 0 && hands[c] == 0;
      assert multiset(s.pool.free)[c] == 0;
    }
  }

  /** In every state of every run the free counter equals the free list's length;
      empty entries own no chunk; readable entries own as many chunks as their physical
      range needs; no entry is ever queued, since nothing claims the queued state. */
  lemma EntriesOwnWhatTheyNeed(env: Env, states: seq<State>, steps: seq<Step>, k: nat)
    requires Run(env, states, steps) && k < |states|
    ensures var s := states[k];
            && s.pool.totalFree == |s.pool.free|
            && forall i :: 0 <= i < |s.entries| ==>
                 var e := s.entries[i];
                 && (e.word.phase == Empty ==> e.chunks == [])
                 && e.word.phase != Queued
                 && (Readable(e) ==> Owned(e) == e.chunks && |e.chunks| == ChunkCount(env, e.physical))
  {
    var s := states[k];
    RunKeeps(env, states, steps, k);
    assert Valid(s.pool);
    forall i | 0 <= i < |s.entries|
      ensures var e := s.entries[i];
              && (e.word.phase == Empty ==> e.chunks == [])
              && e.word.phase != Queued
              && (Readable(e) ==> Owned(e) == e.chunks && |e.chunks| == ChunkCount(env, e.physical))
    {
      EntryAt(env, s, i);
    }
  }

  /** While the worker is between items every chunk is in stock or owned by an entry and
      every loading entry is with a flight. It hands on all it took before it is through with
      an item, and at no point runs out of chunks it still has to hand on. */
  lemma WorkerHandsOnEverything(env: Env, states: seq<State>, steps: seq<Step>, k: nat)
    requires Run(env, states, steps) && k < |states|
    ensures var s, w := states[k], states[k].worker;
            && (w.Idle? || w.Peeking? ==>
                  && Stock(s.pool) + OwnedBag(s.entries) == Offered(s.pool.answers, 0)
                  && forall i: EntryId :: FlightBag(s.flights)[i] == if IsLoading(s.entries, i) then 1 else 0)
            && (w.Assigning? && w.next == |w.item| ==> w.local == [])
            && (w.Started? ==> w.next < |w.plan| && w.plan[w.next] <= |w.local|)
            && (w.Returning? ==> w.left <= |w.local|)
  {
    var s, w := states[k], states[k].worker;
    RunKeeps(env, states, steps, k);
    if w.Idle? || w.Peeking? { BetweenItems(env, s); }
    assert WorkerOk(env, s.entries, w);
    hide Stock, OwnedBag, Offered, FlightBag;
    if w.Assigning? && w.next == |w.item| {
      assert w.plan[w.next..] == [];
    }
    if w.Started? {
      SumFrom(w.plan, w.next);
    }
  }

  lemma BetweenItems(env: Env, s: State)
    requires env.chunkBytes > 0 && Inv(env, s) && (s.worker.Idle? || s.worker.Peeking?)
    ensures Stock(s.pool) + OwnedBag(s.entries) == Offered(s.pool.answers, 0)
    ensures forall i: EntryId :: FlightBag(s.flights)[i] == if IsLoading(s.entries, i) then 1 else 0
  {
    assert ChunkLaw(s.pool, s.worker, s.entries) && Custody(s.entries, s.worker, s.flights);
    hide Inv, Stock, OwnedBag, Offered, FlightBag;
    assert Local(s.worker) == [] && Batch(s.worker) == [];
  }

  // ---- Pin safety -------------------------------------------------------------------

  predicate Pinned(s: State, e: EntryId) {
    s.held[e] + s.deferred[e] > 0
  }

  lemma PinnedInUse(env: Env, s: State, e: EntryId)
    requires env.chunkBytes > 0 && Inv(env, s) && Pinned(s, e)
    ensures e < |s.entries| && s.entries[e].word.phase == InUse && Full(env, s.entries[e])
    ensures Landed(env, s.mem, s.entries[e])
    ensures !s.evictor.Resting? ==> s.evictor.e != e
  {
    assert PinsOk(s.entries, s.held, s.deferred);
    EntryAt(env, s, e);
    hide ChunkLaw, Custody, WorkerOk, FlightsOk, QueueOk, Landed, PinsOk, EntriesOk;
    assert Readable(s.entries[e]);
  }

  /** Entry `e` keeps its ranges and its chunk list. */
  predicate SameChunks(s: State, s': State, e: EntryId) {
    && e < |s.entries| && e < |s'.entries|
    && s'.entries[e].chunks == s.entries[e].chunks && s'.entries[e].returned == s.entries[e].returned
    && s'.entries[e].physical == s.entries[e].physical && s'.entries[e].file == s.entries[e].file
  }

  lemma ReaderKeepsChunks(env: Env, s: State, s': State, step: Step, e: EntryId)
    requires ReaderStep(env, s, s', step) && e < |s.entries|
    ensures SameChunks(s, s', e)
  {
  }

  lemma WorkerKeepsChunks(env: Env, s: State, s': State, step: Step, e: EntryId)
    requires env.chunkBytes > 0 && Inv(env, s) && WorkerStep(env, s, s', step)
    requires e < |s.entries| && !IsLoading(s.entries, e)
    ensures SameChunks(s, s', e)
  {
    hide Inv, WorkerOk, BulkTaken, Returned, Valid, Sum, ChunkCount, TryStartLoading;
    if step.AssignChunks? {
      WorkerAt(env, s);
      StartedFacts(env, s.entries, s.worker);
    }
  }

  lemma WorkerAt(env: Env, s: State)
    requires env.chunkBytes > 0 && Inv(env, s)
    ensures WorkerOk(env, s.entries, s.worker)
  {
    hide PoolOk, ChunkLaw, EntriesOk, Custody, PinsOk, WorkerOk, FlightsOk, EvictorOk, ContentsOk, QueueOk;
  }

  lemma FlightKeepsChunks(env: Env, s: State, s': State, step: Step, e: EntryId)
    requires env.chunkBytes > 0 && Inv(env, s) && FlightStep(env, s, s', step)
    requires e < |s.entries| && !IsLoading(s.entries, e)
    ensures SameChunks(s, s', e)
  {
    hide Inv, Landed, WritesOnly, Valid, Returned, FlightOk;
    if step.FreeOne? || step.ClearFailed? {
      CurrentFacts(env, s, step.f, s.flights[step.f].batch[s.flights[step.f].done]);
    }
  }

  lemma EvictorKeepsChunks(env: Env, s: State, s': State, step: Step, e: EntryId)
    requires EvictorStep(env, s, s', step)
    requires e < |s.entries| && (!s.evictor.Resting? ==> s.evictor.e != e)
    ensures SameChunks(s, s', e)
  {
    hide Valid, Returned;
  }

  /** No step changes the chunk list of a pinned entry. */
  lemma StepKeepsPinnedChunks(env: Env, s: State, s': State, step: Step, e: EntryId)
    requires env.chunkBytes > 0 && Inv(env, s) && Next(env, s, s', step) && Pinned(s, e)
    ensures SameChunks(s, s', e)
  {
    hide Inv, ReaderStep, WorkerStep, FlightStep, EvictorStep, SameChunks;
    PinnedInUse(env, s, e);
    if ReaderStep(env, s, s', step) {
      ReaderKeepsChunks(env, s, s', step, e);
    } else if WorkerStep(env, s, s', step) {
      WorkerKeepsChunks(env, s, s', step, e);
    } else if FlightStep(env, s, s', step) {
      FlightKeepsChunks(env, s, s', step, e);
    } else {
      EvictorKeepsChunks(env, s, s', step, e);
    }
  }

  /** An entry with an outstanding pin, live or waiting on a stream, stays in use, is
      never in the evictor's hands and keeps its chunk list until its last pin is gone;
      all the while its chunks hold the bytes of the file. */
  lemma {:induction false} PinnedEntryStable(env: Env, states: seq<State>, steps: seq<Step>, a: nat, b: nat, e: EntryId)
    requires Run(env, states, steps) && a <= b < |states|
    requires forall k :: a <= k <= b ==> Pinned(states[k], e)
    ensures e < |states[a].entries| && e < |states[b].entries|
    ensures states[b].entries[e].word.phase == InUse
    ensures !states[b].evictor.Resting? ==> states[b].evictor.e != e
    ensures states[b].entries[e].chunks == states[a].entries[e].chunks
    ensures Landed(env, states[b].mem, states[b].entries[e])
    ensures states[b].entries[e].physical == states[a].entries[e].physical
    ensures states[b].entries[e].file == states[a].entries[e].file
  {
    hide Inv, Init, Next, BelowPinLimit, Landed, Full;
    RunKeeps(env, states, steps, b);
    PinnedInUse(env, states[b], e);
    if a < b {
      PinnedEntryStable(env, states, steps, a, b - 1, e);
      RunKeeps(env, states, steps, b - 1);
      StepKeepsPinnedChunks(env, states[b - 1], states[b], steps[b - 1], e);
    }
  }

  /** The evictor only ever claims an entry that nobody holds a pin on. */
  lemma EvictsOnlyUnpinned(env: Env, states: seq<State>, steps: seq<Step>, k: nat, e: EntryId)
    requires Run(env, states, steps) && k < |steps| && steps[k] == Claim(e)
    ensures !Pinned(states[k], e)
  {
    RunKeeps(env, states, steps, k);
    assert Next(env, states[k], states[k + 1], steps[k]);
    hide Run, Inv;
    EntryAt(env, states[k], e);
  }
}
