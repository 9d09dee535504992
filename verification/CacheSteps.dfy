/** Every step of the cache keeps its invariant, so every run does. */
module CacheSteps {
  import opened Common
  import opened BufferPool
  import opened EntryWord
  import opened CacheSystem
  import opened CacheInvariant

  // ---- What a change of one entry leaves alone ----------------------------------

  /** `entries'` differs from `entries` at most at `i`, where ranges are kept. */
  ghost predicate OnlyAt(entries: seq<Entry>, entries': seq<Entry>, i: nat) {
    && |entries'| == |entries| && i < |entries|
    && (forall j :: 0 <= j < |entries| && j != i ==> entries'[j] == entries[j])
    && entries'[i].physical == entries[i].physical
    && entries'[i].logical == entries[i].logical
    && entries'[i].file == entries[i].file
  }

  /** An entry that is not loading is in nobody's hands. */
  lemma NotInHand(s: State, i: EntryId)
    requires Custody(s.entries, s.worker, s.flights) && !IsLoading(s.entries, i)
    ensures i !in Batch(s.worker)
    ensures forall f :: 0 <= f < |s.flights| ==> i !in Unresolved(s.flights[f])
  {
    hide Batch, Unresolved, BagSum;
    var bags, hands := FlightBags(s.flights), multiset(Batch(s.worker));
    assert FlightBag(s.flights)[i] + hands[i] == (FlightBag(s.flights) + hands)[i] == 0;
    forall f | 0 <= f < |s.flights| ensures i !in Unresolved(s.flights[f]) {
      BagSumHas(bags, f);
      assert bags[f][i] <= BagSum(bags)[i];
    }
  }

  lemma WorkerFrame(env: Env, entries: seq<Entry>, entries': seq<Entry>, w: Worker)
    requires env.chunkBytes > 0 && WorkerOk(env, entries, w)
    requires |entries| <= |entries'|
    requires forall j :: 0 <= j < |entries| ==> entries'[j].physical == entries[j].physical
    requires forall j :: j in Batch(w) && j < |entries| ==> entries'[j] == entries[j]
    ensures WorkerOk(env, entries', w)
  {
    hide ChunkCount, Sum;
    if w.Assigning? || w.Started? || w.Returning? {
      forall k | 0 <= k < |w.batch| ensures IsLoading(entries', w.batch[k]) && Full(env, entries'[w.batch[k]]) {
        assert w.batch[k] in w.batch;
        assert w.batch[k] in Batch(w);
      }
    }
    if w.Started? {
      assert Batch(w)[|w.batch|] == w.item[w.next];
      assert w.item[w.next] in Batch(w);
    }
  }

  lemma FlightFrame(env: Env, entries: seq<Entry>, entries': seq<Entry>, mem: nat -> Byte, fl: Flight)
    requires env.chunkBytes > 0 && FlightOk(env, entries, mem, fl)
    requires |entries| <= |entries'|
    requires forall j :: j in Unresolved(fl) && j < |entries| ==> entries'[j] == entries[j]
    ensures FlightOk(env, entries', mem, fl)
  {
    hide SlotOk;
    forall k | fl.done <= k < |fl.batch| ensures SlotOk(env, mem, fl, k, entries'[fl.batch[k]]) {
      assert Unresolved(fl)[k - fl.done] == fl.batch[k];
      assert fl.batch[k] in Unresolved(fl);
    }
  }

  /** Custody depends on the entries only through which of them are loading. */
  lemma CustodyFrame(entries: seq<Entry>, entries': seq<Entry>, w: Worker, w': Worker, flights: seq<Flight>)
    requires Custody(entries, w, flights) && Batch(w') == Batch(w)
    requires forall i: EntryId :: IsLoading(entries', i) <==> IsLoading(entries, i)
    ensures Custody(entries', w', flights)
  {
    hide IsLoading, Batch, FlightBag;
  }

  lemma FlightsFrame(env: Env, entries: seq<Entry>, entries': seq<Entry>, mem: nat -> Byte, flights: seq<Flight>)
    requires env.chunkBytes > 0 && FlightsOk(env, entries, mem, flights)
    requires |entries| <= |entries'|
    requires forall f, j :: 0 <= f < |flights| && j in Unresolved(flights[f]) && j < |entries| ==>
             entries'[j] == entries[j]
    ensures FlightsOk(env, entries', mem, flights)
  {
    hide FlightOk;
    forall f | 0 <= f < |flights| ensures FlightOk(env, entries', mem, flights[f]) {
      FlightFrame(env, entries, entries', mem, flights[f]);
    }
  }

  lemma EntriesFrame(env: Env, entries: seq<Entry>, entries': seq<Entry>, i: nat)
    requires env.chunkBytes > 0 && EntriesOk(env, entries) && OnlyAt(entries, entries', i) && EntryOk(env, entries'[i])
    ensures EntriesOk(env, entries')
  {
    hide EntryOk;
  }

  lemma QueueFrame(entries: seq<Entry>, entries': seq<Entry>, queue: seq<seq<EntryId>>)
    requires QueueOk(entries, queue) && |entries| <= |entries'|
    ensures QueueOk(entries', queue)
  {
  }

  lemma EvictorFrame(env: Env, entries: seq<Entry>, entries': seq<Entry>, i: nat, ev: Evictor)
    requires env.chunkBytes > 0 && EvictorOk(env, entries, ev) && OnlyAt(entries, entries', i)
    requires entries[i].word.phase != Evicting && entries'[i].word.phase != Evicting
    ensures EvictorOk(env, entries', ev)
  {
    hide Full;
  }

  lemma ContentsFrame(env: Env, entries: seq<Entry>, entries': seq<Entry>, i: nat, mem: nat -> Byte)
    requires ContentsOk(env, entries, mem) && OnlyAt(entries, entries', i)
    requires Readable(entries'[i]) ==> Landed(env, mem, entries'[i])
    ensures ContentsOk(env, entries', mem)
  {
    hide Landed, Readable;
  }

  lemma ChunkFrame(pool: Pool, w: Worker, entries: seq<Entry>, i: nat, e: Entry)
    requires ChunkLaw(pool, w, entries) && i < |entries| && Owned(e) == Owned(entries[i])
    ensures ChunkLaw(pool, w, entries[i := e])
  {
    OwnedBagUpdate(entries, i, e);
    hide OwnedBag, Stock, Local, Owned;
    Cancel(OwnedBag(entries[i := e]), OwnedBag(entries), multiset(Owned(e)));
  }

  lemma Cancel<T>(x: multiset<T>, y: multiset<T>, z: multiset<T>)
    requires x + z == y + z
    ensures x == y
  {
    forall t | t in x + y ensures x[t] == y[t] {
      assert (x + z)[t] == x[t] + z[t] && (y + z)[t] == y[t] + z[t];
    }
  }

  /** An entry that is not loading changes, and does not start loading. */
  lemma TouchIdle(env: Env, s: State, entries': seq<Entry>, i: nat)
    requires env.chunkBytes > 0 && Inv(env, s) && OnlyAt(s.entries, entries', i)
    requires !IsLoading(s.entries, i) && !IsLoading(entries', i)
    requires EntryOk(env, entries'[i])
    ensures EntriesOk(env, entries')
    ensures Custody(entries', s.worker, s.flights)
    ensures WorkerOk(env, entries', s.worker)
    ensures FlightsOk(env, entries', s.mem, s.flights)
    ensures QueueOk(entries', s.queue)
  {
    hide PoolOk, ChunkLaw, EntriesOk, Custody, PinsOk, WorkerOk, FlightsOk, EvictorOk, ContentsOk, QueueOk, EntryOk;
    NotInHand(s, i);
    WorkerFrame(env, s.entries, entries', s.worker);
    CustodyFrame(s.entries, entries', s.worker, s.worker, s.flights);
    FlightsFrame(env, s.entries, entries', s.mem, s.flights);
    EntriesFrame(env, s.entries, entries', i);
    QueueFrame(s.entries, entries', s.queue);
  }

  // ---- Readers ------------------------------------------------------------------

  lemma WordKeepsLanded(env: Env, mem: nat -> Byte, e: Entry, e': Entry)
    requires Landed(env, mem, e) && e'.chunks == e.chunks && e'.physical == e.physical && e'.file == e.file
    ensures Landed(env, mem, e')
  {
    forall i: nat, r: nat | i < |e'.chunks| && r < env.chunkBytes &&
      FilePos(env, e', i, r) < Min(e'.physical.End(), |env.files[e'.file]|)
      ensures mem(Addr(e', i, r)) == env.files[e'.file][FilePos(env, e', i, r)]
    {
      assert Addr(e', i, r) == Addr(e, i, r);
    }
  }

  /** A readable entry's word changes and the entry stays readable. */
  lemma TouchReadable(env: Env, s: State, s': State, i: nat, word: Word)
    requires env.chunkBytes > 0 && Inv(env, s) && i < |s.entries|
    requires Readable(s.entries[i]) && Readable(s.entries[i].(word := word))
    requires word.phase == InUse ==> 0 < word.pins < PIN_LIMIT
    requires word.phase == Cached ==> word.pins == 0
    requires s' == s.(entries := s.entries[i := s.entries[i].(word := word)], held := s'.held, deferred := s'.deferred)
    requires PinsOk(s'.entries, s'.held, s'.deferred)
    ensures Inv(env, s')
  {
    var e, e' := s.entries[i], s.entries[i].(word := word);
    assert EntryOk(env, e') by { assert EntryOk(env, e); }
    hide PoolOk, ChunkLaw, EntriesOk, Custody, PinsOk, WorkerOk, FlightsOk, EvictorOk, QueueOk, EntryOk, Landed;
    TouchIdle(env, s, s'.entries, i);
    ChunkFrame(s.pool, s.worker, s.entries, i, e');
    EvictorFrame(env, s.entries, s'.entries, i, s.evictor);
    WordKeepsLanded(env, s.mem, e, e');
    ContentsFrame(env, s.entries, s'.entries, i, s.mem);
  }

  /** What the invariant says of one entry and its pins. */
  lemma EntryAt(env: Env, s: State, i: nat)
    requires env.chunkBytes > 0 && Inv(env, s) && i < |s.entries|
    ensures EntryOk(env, s.entries[i])
    ensures s.held[i] + s.deferred[i] == s.entries[i].word.pins
    ensures PinsOk(s.entries, s.held, s.deferred)
  {
    hide PoolOk, ChunkLaw, Custody, WorkerOk, FlightsOk, EvictorOk, ContentsOk, QueueOk, EntryOk;
  }

  lemma PinsChange(s: State, i: nat, e: Entry, held: multiset<EntryId>, deferred: multiset<EntryId>)
    requires PinsOk(s.entries, s.held, s.deferred) && i < |s.entries|
    requires forall j: EntryId :: j != i ==> held[j] + deferred[j] == s.held[j] + s.deferred[j]
    requires held[i] + deferred[i] == e.word.pins
    ensures PinsOk(s.entries[i := e], held, deferred)
  {
  }

  lemma PinKeeps(env: Env, s: State, s': State, e: EntryId)
    requires env.chunkBytes > 0 && Inv(env, s) && ReaderStep(env, s, s', Pin(e)) && BelowPinLimit(s')
    ensures Inv(env, s')
  {
    hide Inv, PinsOk;
    EntryAt(env, s, e);
    hide EntryOk;
    var word, word' := s.entries[e].word, TryAcquireRead(s.entries[e].word).value;
    assert s'.held[e] + s'.deferred[e] == word.pins + 1 < PIN_LIMIT;
    assert word' == Word(InUse, word.pins + 1);
    PinsChange(s, e, s.entries[e].(word := word'), s'.held, s'.deferred);
    TouchReadable(env, s, s', e, word');
  }

  lemma UnpinKeeps(env: Env, s: State, s': State, step: Step)
    requires env.chunkBytes > 0 && Inv(env, s) && ReaderStep(env, s, s', step)
    requires step.UnpinNow? || step.StreamCallback?
    ensures Inv(env, s')
  {
    hide Inv, PinsOk, ReleaseRead;
    var i := step.e;
    var word := s.entries[i].word;
    EntryAt(env, s, i);
    assert word.phase == InUse && 0 < word.pins < PIN_LIMIT;
    hide EntryOk;
    ReleaseParts(word);
    PinsChange(s, i, s.entries[i].(word := ReleaseRead(word)), s'.held, s'.deferred);
    TouchReadable(env, s, s', i, ReleaseRead(word));
  }

  lemma DrainKeeps(env: Env, s: State, s': State)
    requires env.chunkBytes > 0 && Inv(env, s) && ReaderStep(env, s, s', Drain)
    ensures Inv(env, s')
  {
    assert CancelQueued(s.entries, s.queue[0]) == s.entries by {
      assert EntriesOk(env, s.entries);
      hide Inv;
      NothingQueued(env, s.entries, s.queue[0]);
    }
    hide ChunkLaw, EntriesOk, Custody, PinsOk, WorkerOk, FlightsOk, EvictorOk, ContentsOk;
  }

  /** Cancelling queued entries never finds one: nothing queues entries. */
  lemma NothingQueued(env: Env, entries: seq<Entry>, item: seq<EntryId>)
    requires env.chunkBytes > 0 && EntriesOk(env, entries)
    ensures CancelQueued(entries, item) == entries
  {
    forall i | 0 <= i < |entries| ensures CancelQueued(entries, item)[i] == entries[i] {
      assert EntryOk(env, entries[i]);
    }
  }

  /** `entries'` extends `entries` by entries just created. */
  ghost predicate Extends(env: Env, entries: seq<Entry>, entries': seq<Entry>) {
    && |entries| <= |entries'|
    && (forall j :: 0 <= j < |entries| ==> entries'[j] == entries[j])
    && (forall j :: |entries| <= j < |entries'| ==> Fresh(env, entries'[j]))
  }

  lemma InsertExtends(env: Env, entries: seq<Entry>, created: seq<Entry>)
    requires forall i :: 0 <= i < |created| ==> Fresh(env, created[i])
    ensures Extends(env, entries, entries + created)
    ensures OwnedBag(entries + created) == OwnedBag(entries)
  {
    OwnedBagAppend(entries, created);
    hide Fresh, OwnedBag;
    forall j | |entries| <= j < |entries + created| ensures Fresh(env, (entries + created)[j]) {
      assert (entries + created)[j] == created[j - |entries|];
    }
  }

  lemma ExtendEntries(env: Env, entries: seq<Entry>, entries': seq<Entry>)
    requires env.chunkBytes > 0 && EntriesOk(env, entries) && Extends(env, entries, entries')
    ensures EntriesOk(env, entries')
    ensures forall i: EntryId :: IsLoading(entries', i) <==> IsLoading(entries, i)
  {
  }

  lemma ExtendPins(env: Env, entries: seq<Entry>, entries': seq<Entry>, held: multiset<EntryId>,
      deferred: multiset<EntryId>)
    requires PinsOk(entries, held, deferred) && Extends(env, entries, entries')
    ensures PinsOk(entries', held, deferred)
  {
  }

  lemma ExtendRest(env: Env, entries: seq<Entry>, entries': seq<Entry>, ev: Evictor, mem: nat -> Byte)
    requires env.chunkBytes > 0 && Extends(env, entries, entries')
    requires EvictorOk(env, entries, ev) && ContentsOk(env, entries, mem)
    ensures EvictorOk(env, entries', ev) && ContentsOk(env, entries', mem)
  {
    hide Landed, Full;
  }

  lemma InsertKeeps(env: Env, s: State, s': State, step: Step)
    requires env.chunkBytes > 0 && Inv(env, s) && step.Insert? && ReaderStep(env, s, s', step)
    ensures Inv(env, s')
  {
    assert QueueOk(s'.entries, s'.queue) by { assert QueueOk(s.entries, s.queue); }
    hide EntriesOk, Custody, PinsOk, WorkerOk, FlightsOk, EvictorOk, ContentsOk, QueueOk, Fresh, PoolOk, OwnedBag,
         Stock, Local;
    InsertExtends(env, s.entries, step.created);
    ExtendEntries(env, s.entries, s'.entries);
    ExtendPins(env, s.entries, s'.entries, s.held, s.deferred);
    ExtendRest(env, s.entries, s'.entries, s.evictor, s.mem);
    WorkerFrame(env, s.entries, s'.entries, s.worker);
    CustodyFrame(s.entries, s'.entries, s.worker, s.worker, s.flights);
    FlightsFrame(env, s.entries, s'.entries, s.mem, s.flights);
  }

  lemma UnpinLaterKeeps(env: Env, s: State, s': State, e: EntryId)
    requires env.chunkBytes > 0 && Inv(env, s) && ReaderStep(env, s, s', UnpinLater(e))
    ensures Inv(env, s')
  {
    hide ChunkLaw, EntriesOk, Custody, PinsOk, WorkerOk, FlightsOk, EvictorOk, ContentsOk, QueueOk;
    PinsShift(s.entries, s.held, s.deferred, e);
  }

  lemma PinsShift(entries: seq<Entry>, held: multiset<EntryId>, deferred: multiset<EntryId>, e: EntryId)
    requires PinsOk(entries, held, deferred) && e in held
    ensures PinsOk(entries, held - multiset{e}, deferred + multiset{e})
  {
  }

  lemma ReaderKeeps(env: Env, s: State, s': State, step: Step)
    requires env.chunkBytes > 0 && Inv(env, s) && ReaderStep(env, s, s', step) && BelowPinLimit(s')
    ensures Inv(env, s')
  {
    hide Inv;
    match step
    case Insert(_, _) => InsertKeeps(env, s, s', step);
    case Drain => DrainKeeps(env, s, s');
    case Pin(e) => PinKeeps(env, s, s', e);
    case UnpinLater(e) => UnpinLaterKeeps(env, s, s', e);
    case UnpinNow(_) => UnpinKeeps(env, s, s', step);
    case StreamCallback(_) => UnpinKeeps(env, s, s', step);
  }

  // ---- Worker -------------------------------------------------------------------

  /** Chunks move between the pool and the worker. */
  lemma PoolMove(s: State, pool: Pool, w: Worker)
    requires ChunkLaw(s.pool, s.worker, s.entries) && pool.answers == s.pool.answers
    requires Stock(pool) + multiset(Local(w)) == Stock(s.pool) + multiset(Local(s.worker))
    ensures ChunkLaw(pool, w, s.entries)
  {
    hide Stock, Local, OwnedBag;
  }

  /** Only the worker, the pool and the queue change. */
  lemma WorkerMoves(env: Env, s: State, s': State)
    requires env.chunkBytes > 0 && Inv(env, s)
    requires s' == s.(pool := s'.pool, worker := s'.worker, queue := s'.queue)
    requires Valid(s'.pool) && s'.pool.answers == s.pool.answers
    requires Stock(s'.pool) + multiset(Local(s'.worker)) == Stock(s.pool) + multiset(Local(s.worker))
    requires Batch(s'.worker) == Batch(s.worker)
    requires WorkerOk(env, s.entries, s'.worker) && QueueOk(s.entries, s'.queue)
    ensures Inv(env, s')
  {
    hide ChunkLaw, EntriesOk, Custody, PinsOk, WorkerOk, FlightsOk, EvictorOk, ContentsOk, QueueOk, Stock, Local, Batch;
    PoolMove(s, s'.pool, s'.worker);
    CustodyFrame(s.entries, s.entries, s.worker, s'.worker, s.flights);
  }

  lemma SumFrom(plan: seq<nat>, k: nat)
    requires k < |plan|
    ensures Sum(plan[k..]) == plan[k] + Sum(plan[k + 1..])
  {
    assert plan[k..][1..] == plan[k + 1..];
  }

  lemma DequeueKeeps(env: Env, s: State, s': State)
    requires env.chunkBytes > 0 && Inv(env, s) && WorkerStep(env, s, s', Dequeue)
    ensures Inv(env, s')
  {
    assert WorkerOk(env, s.entries, s'.worker) && QueueOk(s.entries, s'.queue) by {
      assert QueueOk(s.entries, s.queue);
    }
    assert Valid(s.pool);
    hide Inv, WorkerOk, QueueOk;
    WorkerMoves(env, s, s');
  }

  lemma PeekKeeps(env: Env, s: State, s': State, skip: bool)
    requires env.chunkBytes > 0 && Inv(env, s) && WorkerStep(env, s, s', Peek(skip))
    ensures Inv(env, s')
  {
    hide ChunkLaw, EntriesOk, Custody, PinsOk, FlightsOk, EvictorOk, ContentsOk, QueueOk, ChunkCount;
    assert WorkerOk(env, s.entries, s'.worker);
    hide Inv, WorkerOk;
    WorkerMoves(env, s, s');
  }

  lemma AllocateKeeps(env: Env, s: State, s': State, step: Step)
    requires env.chunkBytes > 0 && Inv(env, s) && WorkerStep(env, s, s', step) && step.Allocate?
    ensures Inv(env, s')
  {
    hide ChunkLaw, EntriesOk, Custody, PinsOk, FlightsOk, EvictorOk, ContentsOk, QueueOk, ChunkCount, Stock, Sum;
    var w := s.worker;
    assert w.plan[0..] == w.plan;
    assert WorkerOk(env, s.entries, s'.worker);
    assert Stock(s'.pool) + multiset(Local(s'.worker)) == Stock(s.pool) + multiset(Local(w));
    hide Inv, WorkerOk, Local;
    WorkerMoves(env, s, s');
  }

  lemma EvictionFailedKeeps(env: Env, s: State, s': State)
    requires env.chunkBytes > 0 && Inv(env, s) && WorkerStep(env, s, s', EvictionFailed)
    ensures Inv(env, s')
  {
    assert Valid(s.pool) && QueueOk(s.entries, s.queue);
    hide Inv, QueueOk;
    WorkerMoves(env, s, s');
  }

  lemma AllocateRestKeeps(env: Env, s: State, s': State, step: Step)
    requires env.chunkBytes > 0 && Inv(env, s) && WorkerStep(env, s, s', step) && step.AllocateRest?
    ensures Inv(env, s')
  {
    hide ChunkLaw, EntriesOk, Custody, PinsOk, FlightsOk, EvictorOk, ContentsOk, QueueOk, ChunkCount, Stock, Sum;
    var w := s.worker;
    assert w.plan[0..] == w.plan;
    assert WorkerOk(env, s.entries, s'.worker);
    assert Local(s'.worker) == w.local + step.out;
    assert Stock(s'.pool) + multiset(Local(s'.worker)) == Stock(s.pool) + multiset(Local(w)) by {
      assert Stock(step.pool) + multiset(step.out) == Stock(s.pool);
      assert multiset(w.local + step.out) == multiset(w.local) + multiset(step.out);
    }
    hide Inv, WorkerOk, Local;
    WorkerMoves(env, s, s');
  }

  lemma AbandonKeeps(env: Env, s: State, s': State)
    requires env.chunkBytes > 0 && Inv(env, s) && WorkerStep(env, s, s', Abandon)
    ensures Inv(env, s')
  {
    assert QueueOk(s.entries, s.queue);
    hide Inv, QueueOk, Offered;
    assert Stock(s'.pool) + multiset(Local(s'.worker)) == Stock(s.pool) + multiset(Local(s.worker));
    WorkerMoves(env, s, s');
  }

  lemma ReturnOneKeeps(env: Env, s: State, s': State)
    requires env.chunkBytes > 0 && Inv(env, s) && WorkerStep(env, s, s', ReturnOne)
    ensures Inv(env, s')
  {
    hide ChunkLaw, EntriesOk, Custody, PinsOk, FlightsOk, EvictorOk, ContentsOk, QueueOk, ChunkCount, Sum, Offered;
    var w := s.worker;
    assert WorkerOk(env, s.entries, s'.worker);
    assert Stock(s'.pool) + multiset(Local(s'.worker)) == Stock(s.pool) + multiset(Local(s.worker)) by {
      if w.left > 0 { assert w.local == [w.local[0]] + w.local[1..]; }
    }
    hide Inv, WorkerOk, Local, Stock;
    WorkerMoves(env, s, s');
  }

  lemma StartLoadMoves(env: Env, s: State, s': State, resolved: bool)
    requires env.chunkBytes > 0 && Inv(env, s) && WorkerStep(env, s, s', StartLoad(resolved))
    requires s'.entries == s.entries && !s'.worker.Started?
    ensures Inv(env, s')
  {
    hide ChunkLaw, EntriesOk, Custody, PinsOk, FlightsOk, EvictorOk, ContentsOk, QueueOk, ChunkCount, Sum, Stock;
    SumFrom(s.worker.plan, s.worker.next);
    assert WorkerOk(env, s.entries, s'.worker);
    hide Inv, WorkerOk;
    WorkerMoves(env, s, s');
  }

  /** Entry `i` starts loading and joins the worker's batch. */
  lemma CustodyJoin(entries: seq<Entry>, entries': seq<Entry>, i: nat, w: Worker, w': Worker, flights: seq<Flight>)
    requires Custody(entries, w, flights) && OnlyAt(entries, entries', i)
    requires !IsLoading(entries, i) && IsLoading(entries', i)
    requires Batch(w') == Batch(w) + [i]
    ensures Custody(entries', w', flights)
  {
    hide Batch, FlightBag;
    assert multiset(Batch(w')) == multiset(Batch(w)) + multiset{i};
    forall j: EntryId
      ensures (FlightBag(flights) + multiset(Batch(w')))[j] == if IsLoading(entries', j) then 1 else 0
    {
      assert (FlightBag(flights) + multiset(Batch(w)))[j] == if IsLoading(entries, j) then 1 else 0;
    }
  }

  lemma StartedOk(env: Env, entries: seq<Entry>, entries': seq<Entry>, i: nat, w: Worker)
    requires env.chunkBytes > 0 && w.Assigning? && WorkerOk(env, entries, w) && OnlyAt(entries, entries', i)
    requires w.next < |w.item| && w.item[w.next] == i && w.plan[w.next] > 0
    requires i !in Batch(w) && IsLoading(entries', i) && entries'[i].chunks == [] && entries'[i].returned == 0
    ensures WorkerOk(env, entries', Started(w.item, w.plan, w.next, w.local, w.batch))
  {
    WorkerFrame(env, entries, entries', w);
  }

  lemma StartLoadStarts(env: Env, s: State, s': State, resolved: bool)
    requires env.chunkBytes > 0 && Inv(env, s) && WorkerStep(env, s, s', StartLoad(resolved))
    requires s'.worker.Started?
    ensures Inv(env, s')
  {
    hide PoolOk, ChunkLaw, EntriesOk, Custody, PinsOk, WorkerOk, FlightsOk, EvictorOk, ContentsOk, QueueOk;
    var w := s.worker;
    var i := w.item[w.next];
    var e, e' := s.entries[i], s'.entries[i];
    EntryAt(env, s, i);
    assert e.word.phase == Empty && e' == e.(word := Word(Loading, 0));
    NotInHand(s, i);
    StartedOk(env, s.entries, s'.entries, i, w);
    CustodyJoin(s.entries, s'.entries, i, w, s'.worker, s.flights);
    FlightsFrame(env, s.entries, s'.entries, s.mem, s.flights);
    EntriesFrame(env, s.entries, s'.entries, i);
    PinsChange(s, i, e', s.held, s.deferred);
    QueueFrame(s.entries, s'.entries, s.queue);
    EvictorFrame(env, s.entries, s'.entries, i, s.evictor);
    ContentsFrame(env, s.entries, s'.entries, i, s.mem);
    ChunkFrame(s.pool, w, s.entries, i, e');
    SameLocal(s'.pool, w, s'.worker, s'.entries);
  }

  lemma SameLocal(pool: Pool, w: Worker, w': Worker, entries: seq<Entry>)
    requires ChunkLaw(pool, w, entries) && Local(w') == Local(w)
    ensures ChunkLaw(pool, w', entries)
  {
    hide Local, OwnedBag, Stock;
  }

  /** An entry in the worker's hands is there once and in no flight. */
  lemma InHand(s: State, i: EntryId)
    requires Custody(s.entries, s.worker, s.flights) && i in Batch(s.worker)
    ensures multiset(Batch(s.worker))[i] == 1
    ensures forall f :: 0 <= f < |s.flights| ==> i !in Unresolved(s.flights[f])
  {
    hide Batch, Unresolved, BagSum;
    var bags, hands := FlightBags(s.flights), multiset(Batch(s.worker));
    assert FlightBag(s.flights)[i] + hands[i] == (FlightBag(s.flights) + hands)[i] <= 1;
    forall f | 0 <= f < |s.flights| ensures i !in Unresolved(s.flights[f]) {
      BagSumHas(bags, f);
      assert bags[f][i] <= BagSum(bags)[i];
    }
  }

  lemma OnceAtEnd<T>(s: seq<T>, x: T)
    requires multiset(s + [x])[x] == 1
    ensures x !in s
  {
    assert multiset(s + [x]) == multiset(s) + multiset{x};
    assert multiset(s)[x] == 0;
  }

  lemma AssignedOk(env: Env, entries: seq<Entry>, entries': seq<Entry>, i: nat, w: Worker, w': Worker)
    requires env.chunkBytes > 0 && w.Started? && WorkerOk(env, entries, w) && OnlyAt(entries, entries', i)
    requires w.item[w.next] == i && multiset(Batch(w))[i] == 1
    requires IsLoading(entries', i) && Full(env, entries'[i]) && w.plan[w.next] <= |w.local|
    requires w' == Assigning(w.item, w.plan, w.next + 1, w.local[w.plan[w.next]..], w.batch + [i])
    ensures WorkerOk(env, entries', w')
  {
    hide ChunkCount, Sum;
    SumFrom(w.plan, w.next);
    assert i !in w.batch by { OnceAtEnd(w.batch, i); }
    forall k | 0 <= k < |w'.batch| ensures IsLoading(entries', w'.batch[k]) && Full(env, entries'[w'.batch[k]]) {
      if k < |w.batch| { assert w'.batch[k] == w.batch[k] && w.batch[k] in w.batch; }
    }
  }

  lemma AssignChunkLaw(pool: Pool, w: Worker, w': Worker, entries: seq<Entry>, i: nat, e: Entry, n: nat)
    requires ChunkLaw(pool, w, entries) && i < |entries| && Owned(entries[i]) == []
    requires n <= |Local(w)| && Owned(e) == Local(w)[..n] && Local(w') == Local(w)[n..]
    ensures ChunkLaw(pool, w', entries[i := e])
  {
    OwnedBagUpdate(entries, i, e);
    hide OwnedBag, Stock, Local, Owned;
    var front, back := Local(w)[..n], Local(w)[n..];
    SplitBag(Local(w), n);
    assert OwnedBag(entries[i := e]) == OwnedBag(entries) + multiset(front);
    Shuffle(Stock(pool), multiset(front), multiset(back), OwnedBag(entries));
  }

  lemma SplitBag<T>(s: seq<T>, n: nat)
    requires n <= |s|
    ensures multiset(s) == multiset(s[..n]) + multiset(s[n..])
  {
    assert s == s[..n] + s[n..];
  }

  lemma Shuffle<T>(a: multiset<T>, b: multiset<T>, c: multiset<T>, d: multiset<T>)
    ensures a + (b + c) + d == a + c + (d + b)
  {
  }

  lemma StartedFacts(env: Env, entries: seq<Entry>, w: Worker)
    requires env.chunkBytes > 0 && w.Started? && WorkerOk(env, entries, w)
    ensures var i := w.item[w.next];
            && IsLoading(entries, i) && entries[i].chunks == [] && entries[i].returned == 0
            && w.plan[w.next] == ChunkCount(env, entries[i].physical) <= |w.local|
            && Batch(w) == w.batch + [i] && i in Batch(w)
  {
    hide ChunkCount, BatchOk;
    SumFrom(w.plan, w.next);
    assert Batch(w)[|w.batch|] == w.item[w.next];
  }

  /** An entry in the worker's hands changes and keeps loading. */
  lemma TouchInHand(env: Env, s: State, i: nat, e: Entry)
    requires env.chunkBytes > 0 && Inv(env, s) && i < |s.entries| && i in Batch(s.worker)
    requires IsLoading(s.entries, i) && OnlyAt(s.entries, s.entries[i := e], i) && e.word == s.entries[i].word
    requires EntryOk(env, e)
    ensures var entries := s.entries[i := e];
            && EntriesOk(env, entries) && QueueOk(entries, s.queue)
            && PinsOk(entries, s.held, s.deferred) && FlightsOk(env, entries, s.mem, s.flights)
            && EvictorOk(env, entries, s.evictor) && ContentsOk(env, entries, s.mem)
    ensures multiset(Batch(s.worker))[i] == 1
    ensures forall j: EntryId :: IsLoading(s.entries[i := e], j) <==> IsLoading(s.entries, j)
  {
    hide PoolOk, ChunkLaw, EntriesOk, Custody, PinsOk, WorkerOk, FlightsOk, EvictorOk, ContentsOk, QueueOk, EntryOk,
         Batch;
    var entries := s.entries[i := e];
    EntryAt(env, s, i);
    InHand(s, i);
    FlightsFrame(env, s.entries, entries, s.mem, s.flights);
    EntriesFrame(env, s.entries, entries, i);
    PinsChange(s, i, e, s.held, s.deferred);
    QueueFrame(s.entries, entries, s.queue);
    EvictorFrame(env, s.entries, entries, i, s.evictor);
    ContentsFrame(env, s.entries, entries, i, s.mem);
  }

  lemma AssignChunksKeeps(env: Env, s: State, s': State)
    requires env.chunkBytes > 0 && Inv(env, s) && WorkerStep(env, s, s', AssignChunks)
    ensures Inv(env, s')
  {
    hide PoolOk, ChunkLaw, EntriesOk, Custody, PinsOk, WorkerOk, FlightsOk, EvictorOk, ContentsOk, QueueOk,
         ChunkCount, Sum;
    var w, w' := s.worker, s'.worker;
    var i, n := w.item[w.next], w.plan[w.next];
    var e' := s'.entries[i];
    StartedFacts(env, s.entries, w);
    EntryAt(env, s, i);
    assert EntryOk(env, e') && Owned(e') == w.local[..n];
    hide EntryOk, Owned;
    TouchInHand(env, s, i, e');
    AssignedOk(env, s.entries, s'.entries, i, w, w');
    CustodyFrame(s.entries, s'.entries, w, w', s.flights);
    AssignChunkLaw(s.pool, w, w', s.entries, i, e', n);
  }

  lemma NewFlightOk(env: Env, entries: seq<Entry>, mem: nat -> Byte, batch: seq<EntryId>)
    requires env.chunkBytes > 0 && BatchOk(env, entries, batch)
    ensures FlightOk(env, entries, mem, Flight(batch, 0, Reading))
  {
    hide Full;
  }

  lemma FlightsAppend(env: Env, entries: seq<Entry>, mem: nat -> Byte, flights: seq<Flight>, fl: Flight)
    requires env.chunkBytes > 0 && FlightsOk(env, entries, mem, flights) && FlightOk(env, entries, mem, fl)
    ensures FlightsOk(env, entries, mem, flights + [fl])
  {
    hide FlightOk;
  }

  lemma CustodyHandOver(entries: seq<Entry>, w: Worker, w': Worker, flights: seq<Flight>, fl: Flight)
    requires Custody(entries, w, flights) && Unresolved(fl) == Batch(w) && Batch(w') == []
    ensures Custody(entries, w', flights + [fl])
  {
    FlightBagAppend(flights, fl);
    hide FlightBag, Batch, Unresolved, IsLoading;
  }

  lemma DispatchKeeps(env: Env, s: State, s': State)
    requires env.chunkBytes > 0 && Inv(env, s) && WorkerStep(env, s, s', Dispatch)
    ensures Inv(env, s')
  {
    var w := s.worker;
    assert w.local == [] && BatchOk(env, s.entries, w.batch) by {
      assert WorkerOk(env, s.entries, w);
      assert w.plan[w.next..] == [];
    }
    assert Batch(w) == w.batch;
    hide PoolOk, ChunkLaw, EntriesOk, Custody, PinsOk, BatchOk, FlightsOk, EvictorOk, ContentsOk, QueueOk;
    SameLocal(s.pool, w, Idle, s.entries);
    if w.batch == [] {
      CustodyFrame(s.entries, s.entries, w, Idle, s.flights);
    } else {
      var fl := Flight(w.batch, 0, Reading);
      NewFlightOk(env, s.entries, s.mem, w.batch);
      FlightsAppend(env, s.entries, s.mem, s.flights, fl);
      CustodyHandOver(s.entries, w, Idle, s.flights, fl);
    }
  }

  lemma WorkerKeeps(env: Env, s: State, s': State, step: Step)
    requires env.chunkBytes > 0 && Inv(env, s) && WorkerStep(env, s, s', step)
    ensures Inv(env, s')
  {
    hide Inv;
    match step
    case Dequeue => DequeueKeeps(env, s, s');
    case Peek(skip) => PeekKeeps(env, s, s', skip);
    case Allocate(_, _) => AllocateKeeps(env, s, s', step);
    case EvictionFailed => EvictionFailedKeeps(env, s, s');
    case AllocateRest(_, _) => AllocateRestKeeps(env, s, s', step);
    case Abandon => AbandonKeeps(env, s, s');
    case StartLoad(resolved) =>
      if s'.worker.Started? {
        StartLoadStarts(env, s, s', resolved);
      } else {
        StartLoadMoves(env, s, s', resolved);
      }
    case AssignChunks => AssignChunksKeeps(env, s, s');
    case ReturnOne => ReturnOneKeeps(env, s, s');
    case Dispatch => DispatchKeeps(env, s, s');
  }
}
