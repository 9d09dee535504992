/** The invariant of the cache's step system and the proof that every step keeps it. */
module CacheInvariant {
  import opened Common
  import opened BufferPool
  import opened EntryWord
  import opened CacheSystem

  // ---- Where chunks and loading entries are ------------------------------------

  /** The chunks in the worker's hands. */
  function Local(w: Worker): seq<Chunk> {
    match w
    case Waiting(_, _, local) => local
    case Abandoning(local) => local
    case Assigning(_, _, _, local, _) => local
    case Started(_, _, _, local, _) => local
    case Returning(_, _, _, local, _, _) => local
    case _ => []
  }

  /** The chunks an entry owns: those of its vector that did not go back yet. */
  function Owned(e: Entry): seq<Chunk> {
    if e.returned <= |e.chunks| then e.chunks[e.returned..] else []
  }

  ghost function OwnedBags(entries: seq<Entry>): seq<multiset<Chunk>> {
    seq(|entries|, i requires 0 <= i < |entries| => multiset(Owned(entries[i])))
  }

  ghost function OwnedBag(entries: seq<Entry>): multiset<Chunk> {
    BagSum(OwnedBags(entries))
  }

  /** The loading entries in the worker's hands. */
  function Batch(w: Worker): seq<EntryId> {
    match w
    case Assigning(_, _, _, _, batch) => batch
    case Started(item, _, next, _, batch) => if next < |item| then batch + [item[next]] else batch
    case Returning(_, _, _, _, batch, _) => batch
    case _ => []
  }

  function Unresolved(fl: Flight): seq<EntryId> {
    if fl.done <= |fl.batch| then fl.batch[fl.done..] else []
  }

  ghost function FlightBags(flights: seq<Flight>): seq<multiset<EntryId>> {
    seq(|flights|, f requires 0 <= f < |flights| => multiset(Unresolved(flights[f])))
  }

  ghost function FlightBag(flights: seq<Flight>): multiset<EntryId> {
    BagSum(FlightBags(flights))
  }

  // ---- The invariant -------------------------------------------------------------

  /** Every chunk is on the free list or still to be delivered, or in the worker's
      hands, or owned by an entry, once. */
  ghost predicate ChunkLaw(pool: Pool, w: Worker, entries: seq<Entry>) {
    Stock(pool) + multiset(Local(w)) + OwnedBag(entries) == Offered(pool.answers, 0)
  }

  ghost predicate PoolOk(env: Env, pool: Pool) {
    Valid(pool) && Separate(env, Offered(pool.answers, 0))
  }

  /** The entry has all the chunks of its physical range and gave none back. */
  predicate Full(env: Env, e: Entry)
    requires env.chunkBytes > 0
  {
    |e.chunks| == ChunkCount(env, e.physical) && e.returned == 0
  }

  ghost predicate EntryOk(env: Env, e: Entry)
    requires env.chunkBytes > 0
  {
    && e.returned <= |e.chunks| && e.word.pins < PIN_LIMIT
    && e.file < |env.files|
    && e.physical.offset <= e.logical.offset
    && Min(e.logical.End(), |env.files[e.file]|) <= e.physical.End()
    && match e.word.phase
       case Empty => e.chunks == [] && e.word.pins == 0
       case Queued => false
       case Loading => e.word.pins == 0
       case Cached => Full(env, e) && e.word.pins == 0
       case InUse => Full(env, e) && e.word.pins > 0
       case Evicting => e.word.pins == 0
  }

  ghost predicate EntriesOk(env: Env, entries: seq<Entry>)
    requires env.chunkBytes > 0
  {
    forall i :: 0 <= i < |entries| ==> EntryOk(env, entries[i])
  }

  predicate IsLoading(entries: seq<Entry>, i: EntryId) {
    i < |entries| && entries[i].word.phase == Loading
  }

  /** Each loading entry is in exactly one place: the worker's batch or the part of a
      flight's batch its callback has still to handle. */
  ghost predicate Custody(entries: seq<Entry>, w: Worker, flights: seq<Flight>) {
    forall i: EntryId :: (FlightBag(flights) + multiset(Batch(w)))[i] == if IsLoading(entries, i) then 1 else 0
  }

  ghost predicate PinsOk(entries: seq<Entry>, held: multiset<EntryId>, deferred: multiset<EntryId>) {
    forall i: EntryId :: held[i] + deferred[i] == if i < |entries| then entries[i].word.pins else 0
  }

  predicate IdsOk(entries: seq<Entry>, ids: seq<EntryId>) {
    forall k :: 0 <= k < |ids| ==> ids[k] < |entries|
  }

  ghost predicate PlanOk(env: Env, entries: seq<Entry>, item: seq<EntryId>, plan: seq<nat>)
    requires env.chunkBytes > 0
  {
    && IdsOk(entries, item) && |plan| <= |item|
    && forall k :: 0 <= k < |plan| ==> plan[k] == 0 || plan[k] == ChunkCount(env, entries[item[k]].physical)
  }

  ghost predicate BatchOk(env: Env, entries: seq<Entry>, batch: seq<EntryId>)
    requires env.chunkBytes > 0
  {
    forall k :: 0 <= k < |batch| ==> IsLoading(entries, batch[k]) && Full(env, entries[batch[k]])
  }

  ghost predicate WorkerOk(env: Env, entries: seq<Entry>, w: Worker)
    requires env.chunkBytes > 0
  {
    match w
    case Idle => true
    case Peeking(item, plan) => PlanOk(env, entries, item, plan)
    case Waiting(item, plan, local) =>
      PlanOk(env, entries, item, plan) && |plan| == |item| && |local| < Sum(plan)
    case Abandoning(_) => true
    case Assigning(item, plan, next, local, batch) =>
      && PlanOk(env, entries, item, plan) && next <= |plan| == |item|
      && |local| == Sum(plan[next..]) && BatchOk(env, entries, batch)
    case Started(item, plan, next, local, batch) =>
      && PlanOk(env, entries, item, plan) && next < |plan| == |item| && plan[next] > 0
      && |local| == Sum(plan[next..]) && BatchOk(env, entries, batch)
      && IsLoading(entries, item[next]) && entries[item[next]].chunks == [] && entries[item[next]].returned == 0
    case Returning(item, plan, next, local, batch, left) =>
      && PlanOk(env, entries, item, plan) && next < |plan| == |item|
      && |local| == left + Sum(plan[next + 1..]) && BatchOk(env, entries, batch)
  }

  /** What holds of entry `e` at position `k` of a flight, at or after `done`. */
  ghost predicate SlotOk(env: Env, mem: nat -> Byte, fl: Flight, k: nat, e: Entry)
    requires env.chunkBytes > 0
  {
    && e.word.phase == Loading
    && (fl.phase.Failing? && k == fl.done ==>
          if fl.phase.cleared then e.chunks == [] && e.returned == 0 else |e.chunks| == ChunkCount(env, e.physical))
    && (fl.phase.Failing? && k != fl.done ==> Full(env, e))
    && (!fl.phase.Failing? ==> Full(env, e))
    && (fl.phase.Caching? ==> Landed(env, mem, e))
  }

  ghost predicate FlightOk(env: Env, entries: seq<Entry>, mem: nat -> Byte, fl: Flight)
    requires env.chunkBytes > 0
  {
    && fl.done <= |fl.batch| && IdsOk(entries, fl.batch)
    && (fl.phase.Reading? ==> fl.done == 0)
    && (fl.phase == Failing(true) ==> fl.done < |fl.batch|)
    && forall k :: fl.done <= k < |fl.batch| ==> SlotOk(env, mem, fl, k, entries[fl.batch[k]])
  }

  ghost predicate FlightsOk(env: Env, entries: seq<Entry>, mem: nat -> Byte, flights: seq<Flight>)
    requires env.chunkBytes > 0
  {
    forall f :: 0 <= f < |flights| ==> FlightOk(env, entries, mem, flights[f])
  }

  ghost predicate EvictorOk(env: Env, entries: seq<Entry>, ev: Evictor)
    requires env.chunkBytes > 0
  {
    && (forall i :: 0 <= i < |entries| && entries[i].word.phase == Evicting ==> !ev.Resting? && ev.e == i)
    && match ev
       case Resting => true
       case Claimed(e) => e < |entries| && entries[e].word.phase == Evicting && Full(env, entries[e])
       case Freed(e) => e < |entries| && entries[e].word.phase == Evicting && entries[e].returned == |entries[e].chunks|
       case Cleared(e) =>
         e < |entries| && entries[e].word.phase == Evicting && entries[e].chunks == [] && entries[e].returned == 0
  }

  predicate Readable(e: Entry) {
    e.word.phase == Cached || e.word.phase == InUse
  }

  ghost predicate ContentsOk(env: Env, entries: seq<Entry>, mem: nat -> Byte) {
    forall i :: 0 <= i < |entries| && Readable(entries[i]) ==> Landed(env, mem, entries[i])
  }

  ghost predicate QueueOk(entries: seq<Entry>, queue: seq<seq<EntryId>>) {
    forall k :: 0 <= k < |queue| ==> IdsOk(entries, queue[k])
  }

  ghost predicate Inv(env: Env, s: State)
    requires env.chunkBytes > 0
  {
    && PoolOk(env, s.pool)
    && ChunkLaw(s.pool, s.worker, s.entries)
    && EntriesOk(env, s.entries)
    && Custody(s.entries, s.worker, s.flights)
    && PinsOk(s.entries, s.held, s.deferred)
    && WorkerOk(env, s.entries, s.worker)
    && FlightsOk(env, s.entries, s.mem, s.flights)
    && EvictorOk(env, s.entries, s.evictor)
    && ContentsOk(env, s.entries, s.mem)
    && QueueOk(s.entries, s.queue)
  }

  // ---- Bags ------------------------------------------------------------------------

  lemma OwnedBagUpdate(entries: seq<Entry>, i: nat, e: Entry)
    requires i < |entries|
    ensures OwnedBag(entries[i := e]) + multiset(Owned(entries[i])) == OwnedBag(entries) + multiset(Owned(e))
  {
    hide Owned;
    assert OwnedBags(entries[i := e]) == OwnedBags(entries)[i := multiset(Owned(e))];
    BagSumUpdate(OwnedBags(entries), i, multiset(Owned(e)));
  }

  lemma {:induction false} OwnedBagAppend(entries: seq<Entry>, more: seq<Entry>)
    requires forall k :: 0 <= k < |more| ==> Owned(more[k]) == []
    ensures OwnedBag(entries + more) == OwnedBag(entries)
  {
    hide Owned;
    if more == [] {
      assert entries + more == entries;
    } else {
      var n := |more| - 1;
      assert OwnedBags(entries + more) == OwnedBags(entries + more[..n]) + [multiset{}];
      BagSumAppend(OwnedBags(entries + more[..n]), multiset{});
      OwnedBagAppend(entries, more[..n]);
    }
  }

  lemma FlightBagUpdate(flights: seq<Flight>, f: nat, fl: Flight)
    requires f < |flights|
    ensures FlightBag(flights[f := fl]) + multiset(Unresolved(flights[f]))
         == FlightBag(flights) + multiset(Unresolved(fl))
  {
    hide Unresolved;
    assert FlightBags(flights[f := fl]) == FlightBags(flights)[f := multiset(Unresolved(fl))];
    BagSumUpdate(FlightBags(flights), f, multiset(Unresolved(fl)));
  }

  lemma FlightBagAppend(flights: seq<Flight>, fl: Flight)
    ensures FlightBag(flights + [fl]) == FlightBag(flights) + multiset(Unresolved(fl))
  {
    hide Unresolved;
    assert FlightBags(flights + [fl]) == FlightBags(flights) + [multiset(Unresolved(fl))];
    BagSumAppend(FlightBags(flights), multiset(Unresolved(fl)));
  }

  // ---- Consequences of the bag laws ------------------------------------------------

  /** Chunks owned by different entries are different and do not overlap. */
  lemma OwnersApart(env: Env, s: State, i: nat, j: nat, c: Chunk, d: Chunk)
    requires env.chunkBytes > 0 && Inv(env, s)
    requires i < |s.entries| && j < |s.entries| && i != j
    requires c in Owned(s.entries[i]) && d in Owned(s.entries[j])
    ensures c + env.chunkBytes <= d || d + env.chunkBytes <= c
  {
    hide Owned, BagSum, Stock;
    var bags := OwnedBags(s.entries);
    BagSumHas(bags, i);
    BagSumHas(bags, j);
    BagSumHasTwo(bags, if i < j then i else j, if i < j then j else i);
    var all := Offered(s.pool.answers, 0);
    assert c in bags[i] && d in bags[j];
    assert c in all && d in all;
    assert bags[i][c] + bags[j][c] == (bags[i] + bags[j])[c] <= BagSum(bags)[c] <= all[c];
  }

  /** An entry that a flight has still to handle is in no other flight. */
  lemma FlightsApart(s: State, f: nat, g: nat, i: EntryId)
    requires Custody(s.entries, s.worker, s.flights)
    requires f < |s.flights| && g < |s.flights| && f != g && i in Unresolved(s.flights[f])
    ensures i !in Unresolved(s.flights[g])
  {
    hide Unresolved, BagSum;
    var bags := FlightBags(s.flights);
    BagSumHasTwo(bags, if f < g then f else g, if f < g then g else f);
    assert i in bags[f] && bags[g] == multiset(Unresolved(s.flights[g]));
    assert bags[f][i] + bags[g][i] == (bags[f] + bags[g])[i] <= FlightBag(s.flights)[i];
    assert (FlightBag(s.flights) + multiset(Batch(s.worker)))[i] <= 1;
  }

  /** An entry that a flight has still to handle is not in the worker's hands. */
  lemma WorkerApart(s: State, f: nat, i: EntryId)
    requires Custody(s.entries, s.worker, s.flights)
    requires f < |s.flights| && i in Unresolved(s.flights[f])
    ensures i !in Batch(s.worker)
  {
    hide Unresolved, BagSum, Batch;
    var bags := FlightBags(s.flights);
    BagSumHas(bags, f);
    assert i in bags[f] && bags[f][i] <= FlightBag(s.flights)[i];
    var hands := multiset(Batch(s.worker));
    assert FlightBag(s.flights)[i] + hands[i] == (FlightBag(s.flights) + hands)[i] <= 1;
  }

  /** An entry occurs once among those a flight has still to handle. */
  lemma FlightOnce(s: State, f: nat, k: nat, k': nat)
    requires Custody(s.entries, s.worker, s.flights)
    requires f < |s.flights| && s.flights[f].done <= k < k' < |s.flights[f].batch|
    ensures s.flights[f].batch[k] != s.flights[f].batch[k']
  {
    hide BagSum;
    var fl := s.flights[f];
    var u, i := Unresolved(fl), fl.batch[k];
    var bags := FlightBags(s.flights);
    BagSumHas(bags, f);
    assert bags[f] == multiset(u) && bags[f][i] <= FlightBag(s.flights)[i];
    assert (FlightBag(s.flights) + multiset(Batch(s.worker)))[i] <= 1;
    var a, b := k - fl.done, k' - fl.done;
    assert u == u[..b] + u[b..];
    assert multiset(u)[i] == multiset(u[..b])[i] + multiset(u[b..])[i];
    assert i in u[..b] by { assert u[..b][a] == i; }
    assert u[b..][0] == fl.batch[k'];
    assert u[b] in u[b..];
  }
}
