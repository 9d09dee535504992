/** A run of the cache through the whole life of an entry: inserted, loaded, pinned by a
    reader, released by a stream callback, evicted. It shows that the runs the theorems
    speak of reach every phase. */
module CacheLifeCycle {
  import opened Common
  import opened BufferPool
  import opened EntryWord
  import opened CacheSystem

  const ENV := Env(1, [[7]])

  const LAST: nat := CHUNKS_PER_SLAB - 1

  /** A slab of one-byte chunks at the addresses 0 to 499. */
  function Slab(n: nat): seq<Chunk> {
    if n == 0 then [] else Slab(n - 1) + [n - 1]
  }

  lemma {:induction false} SlabParts(n: nat)
    ensures |Slab(n)| == n && (n > 0 ==> Slab(n)[..n - 1] == Slab(n - 1))
    ensures forall c: nat :: multiset(Slab(n))[c] == if c < n then 1 else 0
  {
    if n > 0 { SlabParts(n - 1); }
  }

  function FullPool(): Pool {
    Pool(Slab(CHUNKS_PER_SLAB), 1, 1, [Slab(CHUNKS_PER_SLAB)], 1, CHUNKS_PER_SLAB, CHUNKS_PER_SLAB)
  }

  function OneOut(): Pool {
    Pool(Slab(LAST), 1, 1, [Slab(CHUNKS_PER_SLAB)], 1, LAST, CHUNKS_PER_SLAB)
  }

  lemma StockFacts()
    ensures Offered(FullPool().answers, 0) == Stock(FullPool()) == multiset(Slab(CHUNKS_PER_SLAB))
    ensures OneOut().answers == FullPool().answers && Stock(OneOut()) == multiset(Slab(LAST))
    ensures Slab(CHUNKS_PER_SLAB) == Slab(LAST) + [LAST]
  {
    hide Slab;
    SlabLast();
    var slab := Slab(CHUNKS_PER_SLAB);
    var answers := FullPool().answers;
    assert Offered(answers, 1) == multiset{};
    assert Offered(answers, 0) == multiset(slab) + multiset{};
  }

  lemma SlabLast()
    ensures Slab(CHUNKS_PER_SLAB) == Slab(LAST) + [LAST]
    ensures |Slab(CHUNKS_PER_SLAB)| == CHUNKS_PER_SLAB && |Slab(LAST)| == LAST
  {
    SlabParts(CHUNKS_PER_SLAB);
    SlabParts(LAST);
  }

  lemma FullFacts()
    ensures Valid(FullPool()) && Stock(FullPool()) == Offered(FullPool().answers, 0)
    ensures Separate(ENV, Offered(FullPool().answers, 0))
  {
    hide Slab, Offered, Stock;
    StockFacts();
    SlabLast();
    SlabParts(CHUNKS_PER_SLAB);
  }

  lemma TakenFacts()
    ensures BulkTaken(FullPool(), 1, OneOut(), [LAST])
  {
    hide Slab, Offered, Stock;
    StockFacts();
    SlabLast();
  }

  lemma BackFacts()
    ensures Valid(OneOut()) && Returned(OneOut(), [LAST]) == FullPool()
  {
    hide Slab;
    SlabLast();
  }

  function EntryIn(chunks: seq<Chunk>, returned: nat, phase: Phase, pins: nat): Entry {
    Entry(0, Range(0, 1), Range(0, 1), chunks, returned, Word(phase, pins))
  }

  /** Memory once the file's byte has landed in the chunk. */
  function Written(mem: nat -> Byte): nat -> Byte {
    a => if a == LAST then 7 else mem(a)
  }

  /** A state with one entry and neither pins nor an eviction. */
  function Plain(pool: Pool, mem: nat -> Byte, e: Entry, worker: Worker, flights: seq<Flight>): State {
    State(pool, mem, [e], [], worker, flights, multiset{}, multiset{}, Resting)
  }

  const LENGTH: nat := 16

  /** The states of the run. */
  function At(mem: nat -> Byte, k: nat): State {
    var none, one, m, over := FullPool(), OneOut(), Written(mem), [Flight([0], 1, Caching)];
    match k
    case 0 => State(none, mem, [], [], Idle, [], multiset{}, multiset{}, Resting)
    case 1 => State(none, mem, [EntryIn([], 0, Empty, 0)], [[0]], Idle, [], multiset{}, multiset{}, Resting)
    case 2 => Plain(none, mem, EntryIn([], 0, Empty, 0), Peeking([0], []), [])
    case 3 => Plain(none, mem, EntryIn([], 0, Empty, 0), Peeking([0], [1]), [])
    case 4 => Plain(one, mem, EntryIn([], 0, Empty, 0), Assigning([0], [1], 0, [LAST], []), [])
    case 5 => Plain(one, mem, EntryIn([], 0, Loading, 0), Started([0], [1], 0, [LAST], []), [])
    case 6 => Plain(one, mem, EntryIn([LAST], 0, Loading, 0), Assigning([0], [1], 1, [], [0]), [])
    case 7 => Plain(one, mem, EntryIn([LAST], 0, Loading, 0), Idle, [Flight([0], 0, Reading)])
    case 8 => Plain(one, m, EntryIn([LAST], 0, Loading, 0), Idle, [Flight([0], 0, Caching)])
    case 9 => Plain(one, m, EntryIn([LAST], 0, Cached, 0), Idle, over)
    case 10 => Plain(one, m, EntryIn([LAST], 0, InUse, 1), Idle, over).(held := multiset{0})
    case 11 => Plain(one, m, EntryIn([LAST], 0, InUse, 1), Idle, over).(deferred := multiset{0})
    case 12 => Plain(one, m, EntryIn([LAST], 0, Cached, 0), Idle, over)
    case 13 => Plain(one, m, EntryIn([LAST], 0, Evicting, 0), Idle, over).(evictor := Claimed(0))
    case 14 => Plain(none, m, EntryIn([LAST], 1, Evicting, 0), Idle, over).(evictor := Freed(0))
    case 15 => Plain(none, m, EntryIn([], 0, Evicting, 0), Idle, over).(evictor := Cleared(0))
    case _ => Plain(none, m, EntryIn([], 0, Empty, 0), Idle, over)
  }

  function StepAt(mem: nat -> Byte, k: nat): Step {
    match k
    case 0 => Insert([EntryIn([], 0, Empty, 0)], [0])
    case 1 => Dequeue
    case 2 => Peek(false)
    case 3 => Allocate(OneOut(), [LAST])
    case 4 => StartLoad(false)
    case 5 => AssignChunks
    case 6 => Dispatch
    case 7 => Land(0, Written(mem))
    case 8 => MarkCached(0)
    case 9 => Pin(0)
    case 10 => UnpinLater(0)
    case 11 => StreamCallback(0)
    case 12 => Claim(0)
    case 13 => FreeChunks
    case 14 => ClearChunks
    case _ => MarkEvicted
  }

  lemma InsertLinked(mem: nat -> Byte)
    ensures ReaderStep(ENV, At(mem, 0), At(mem, 1), StepAt(mem, 0))
  {
    hide FullPool, OneOut;
    var s, s' := At(mem, 0), At(mem, 1);
    assert s.entries + [EntryIn([], 0, Empty, 0)] == s'.entries;
    assert s.queue + [[0]] == s'.queue;
  }

  lemma PinsLinked(mem: nat -> Byte, k: nat)
    requires 9 <= k < 12
    ensures ReaderStep(ENV, At(mem, k), At(mem, k + 1), StepAt(mem, k))
  {
    hide FullPool, OneOut, Written;
    var s, s' := At(mem, k), At(mem, k + 1);
    assert s.entries[0 := s'.entries[0]] == s'.entries;
  }

  lemma WorkerLinked(mem: nat -> Byte, k: nat)
    requires 1 <= k < 7
    ensures WorkerStep(ENV, At(mem, k), At(mem, k + 1), StepAt(mem, k))
  {
    hide FullPool, OneOut, BulkTaken;
    TakenFacts();
    var s, s' := At(mem, k), At(mem, k + 1);
    match k
    case 1 => assert s.queue[1..] == s'.queue;
    case 2 => assert ChunkCount(ENV, Range(0, 1)) == 1 && [] + [1] == [1];
    case 3 => assert Sum([1]) == 1 + Sum([1][1..]);
    case 4 => assert s.entries[0 := s'.entries[0]] == s'.entries;
    case 5 =>
      assert s.entries[0 := s'.entries[0]] == s'.entries;
      assert [LAST][..1] == [LAST] && [LAST][1..] == [] && [] + [0] == [0];
    case _ => assert s.flights + s'.flights == s'.flights;
  }

  lemma FlightLinked(mem: nat -> Byte, k: nat)
    requires 7 <= k < 9
    ensures FlightStep(ENV, At(mem, k), At(mem, k + 1), StepAt(mem, k))
  {
    hide FullPool, OneOut;
    var s, s' := At(mem, k), At(mem, k + 1);
    if k == 7 {
      forall a: nat ensures Written(mem)(a) == mem(a) || InChunks(ENV, s.entries, [0], a) {
        if a == LAST { assert LAST in s.entries[[0][0]].chunks; }
      }
      assert s.flights[0 := s'.flights[0]] == s'.flights;
    } else {
      assert s.entries[0 := s'.entries[0]] == s'.entries;
      assert s.flights[0 := s'.flights[0]] == s'.flights;
    }
  }

  lemma EvictorLinked(mem: nat -> Byte, k: nat)
    requires 12 <= k < LENGTH
    ensures EvictorStep(ENV, At(mem, k), At(mem, k + 1), StepAt(mem, k))
  {
    hide FullPool, OneOut, Valid, Returned;
    BackFacts();
    var s, s' := At(mem, k), At(mem, k + 1);
    assert s.entries[0 := s'.entries[0]] == s'.entries;
  }

  lemma StartsRight(mem: nat -> Byte)
    ensures Init(ENV, At(mem, 0))
  {
    hide Valid, Stock, Offered, Separate, FullPool, OneOut;
    FullFacts();
  }

  lemma PinsFew(mem: nat -> Byte, k: nat)
    ensures BelowPinLimit(At(mem, k))
  {
    hide FullPool, OneOut;
  }

  lemma Linked(mem: nat -> Byte, k: nat)
    requires k < LENGTH
    ensures Next(ENV, At(mem, k), At(mem, k + 1), StepAt(mem, k))
  {
    hide At, StepAt, ReaderStep, WorkerStep, FlightStep, EvictorStep;
    if k == 0 {
      InsertLinked(mem);
    } else if 9 <= k < 12 {
      PinsLinked(mem, k);
    } else if k < 7 {
      WorkerLinked(mem, k);
    } else if k < 9 {
      FlightLinked(mem, k);
    } else {
      EvictorLinked(mem, k);
    }
  }

  /** From any memory there is a run in which an entry is loaded, pinned, released later and
      evicted; at its end the pool holds all its chunks again. */
  lemma WholeLife(mem: nat -> Byte) returns (states: seq<State>, steps: seq<Step>)
    ensures Run(ENV, states, steps) && |steps| == LENGTH
    ensures forall k: nat :: k <= LENGTH ==> states[k] == At(mem, k)
  {
    hide At, StepAt, Init, Next, BelowPinLimit;
    states := seq(LENGTH + 1, k requires 0 <= k <= LENGTH => At(mem, k));
    steps := seq(LENGTH, k requires 0 <= k < LENGTH => StepAt(mem, k));
    StartsRight(mem);
    forall k | 0 <= k < LENGTH ensures Next(ENV, states[k], states[k + 1], steps[k]) { Linked(mem, k); }
    forall k | 0 <= k <= LENGTH ensures BelowPinLimit(states[k]) { PinsFew(mem, k); }
  }

  lemma LifePhases(mem: nat -> Byte)
    ensures At(mem, 9).entries[0].word.phase == Cached && At(mem, 9).mem(LAST) == 7
    ensures 0 in At(mem, 10).held && 0 in At(mem, 11).deferred && At(mem, 13).evictor == Claimed(0)
    ensures At(mem, LENGTH).entries[0].word.phase == Empty && At(mem, LENGTH).pool == At(mem, 0).pool
  {
    hide FullPool, OneOut;
  }
}
