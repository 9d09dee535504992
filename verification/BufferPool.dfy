/** The growable pool of pinned chunks behind the prefetching cache. The pool
    obtains slabs of blocks from an upstream host memory resource and hands out
    single chunks from a free list. */
module BufferPool {
  import opened Common

  /** The address of a chunk's first byte. */
  type Chunk = nat

  const CHUNKS_PER_SLAB: nat := 500
  const INITIAL_SLABS: nat := 10

  /** The pool as a value. `answers` lists what the memory resource answers to the
      slab requests it receives: the blocks of a slab, or [] for an exception or an
      empty allocation. `asked` requests were made so far; requests past the end of
      `answers` fail. */
  datatype Pool = Pool(
    free: seq<Chunk>,
    slabs: nat,
    maxSlabs: nat,
    answers: seq<seq<Chunk>>,
    asked: nat,
    totalFree: nat,
    totalChunks: nat)

  /** All blocks that requests from number `asked` on may still deliver. */
  ghost function Offered(answers: seq<seq<Chunk>>, asked: nat): multiset<Chunk>
    decreases |answers| - asked
  {
    if asked >= |answers| then multiset{} else multiset(answers[asked]) + Offered(answers, asked + 1)
  }

  /** All chunks the pool holds or may still obtain. */
  ghost function Stock(p: Pool): multiset<Chunk> {
    multiset(p.free) + Offered(p.answers, p.asked)
  }

  function Answer(p: Pool): seq<Chunk> {
    if p.asked < |p.answers| then p.answers[p.asked] else []
  }

  ghost predicate Shaped(p: Pool) {
    && p.totalChunks == CHUNKS_PER_SLAB * p.slabs
    && p.slabs <= p.maxSlabs
    && (forall i :: 0 <= i < |p.answers| ==> |p.answers[i]| == 0 || |p.answers[i]| == CHUNKS_PER_SLAB)
  }

  /** The free counter agrees with the free list. */
  ghost predicate Valid(p: Pool) {
    Shaped(p) && p.totalFree == |p.free|
  }

  predicate CanGrow(p: Pool) {
    p.slabs < p.maxSlabs && Answer(p) != []
  }

  /** The effect of one slab request on the pool. A request made at the slab limit
      does not reach the memory resource. */
  function Grown(p: Pool): (r: Pool)
    requires Shaped(p)
    ensures Shaped(r)
    ensures CanGrow(p) <==> |r.free| == |p.free| + CHUNKS_PER_SLAB && r.slabs == p.slabs + 1
    ensures !CanGrow(p) ==> r.free == p.free && AtLimit(r)
    ensures r.totalFree - |r.free| == p.totalFree - |p.free|
    ensures r.answers == p.answers && r.maxSlabs == p.maxSlabs
  {
    if p.slabs >= p.maxSlabs then p
    else if Answer(p) == [] then p.(asked := p.asked + 1)
    else
      p.(free := p.free + Answer(p),
         slabs := p.slabs + 1,
         asked := p.asked + 1,
         totalFree := p.totalFree + |Answer(p)|,
         totalChunks := p.totalChunks + |Answer(p)|)
  }

  /** From `p` to `q`, handing out `out`, no chunk is lost or duplicated. */
  ghost predicate Conserved(p: Pool, q: Pool, out: seq<Chunk>) {
    Stock(q) + multiset(out) == Stock(p)
  }

  /** The pool is at its slab limit, or its latest slab request was refused. */
  predicate AtLimit(q: Pool) {
    q.slabs >= q.maxSlabs || q.asked > |q.answers| || (q.asked > 0 && q.answers[q.asked - 1] == [])
  }

  /** What a bulk allocation of up to `n` chunks may do to pool `p`: it leaves `q` and
      hands out `out`. No chunk is lost or duplicated; a request the free list covers
      is met; a request falls short only when the free list is empty and the pool is
      at its slab limit or the memory resource has just refused a slab. */
  ghost predicate BulkTaken(p: Pool, n: nat, q: Pool, out: seq<Chunk>) {
    && Valid(q) && q.answers == p.answers && q.maxSlabs == p.maxSlabs
    && Conserved(p, q, out)
    && Min(n, |p.free|) <= |out| <= n
    && (|out| < n ==> q.free == [] && AtLimit(q))
  }

  lemma GrownConserves(was: Pool, p: Pool, out: seq<Chunk>)
    requires Shaped(p) && Conserved(was, p, out)
    ensures Conserved(was, Grown(p), out)
  {
  }

  lemma CutConserves(was: Pool, p: Pool, out: seq<Chunk>, keep: nat)
    requires Conserved(was, p, out) && keep <= |p.free|
    ensures Conserved(was, p.(free := p.free[..keep]), out + p.free[keep..])
  {
    assert p.free == p.free[..keep] + p.free[keep..];
  }

  lemma NothingTaken(p: Pool)
    requires Valid(p)
    ensures Conserved(p, p, []) && BulkTaken(p, 0, p, [])
  {
  }

  lemma CounterKeepsConserved(was: Pool, p: Pool, out: seq<Chunk>, totalFree: nat)
    requires Conserved(was, p, out)
    ensures Conserved(was, p.(totalFree := totalFree), out)
  {
  }

  /** The effect of returning chunks. */
  function Returned(p: Pool, chunks: seq<Chunk>): (r: Pool)
    requires Valid(p)
    ensures Valid(r)
    ensures multiset(r.free) == multiset(p.free) + multiset(chunks)
  {
    p.(free := p.free + chunks, totalFree := p.totalFree + |chunks|)
  }

  /** The pool object, with the fields the source updates under its mutex. */
  class PoolObject {
    var freeList: seq<Chunk>
    var slabs: nat
    const maxSlabs: nat
    const answers: seq<seq<Chunk>>
    var asked: nat
    var totalFree: nat
    var totalChunks: nat

    function State(): Pool
      reads this
    {
      Pool(freeList, slabs, maxSlabs, answers, asked, totalFree, totalChunks)
    }

    /** Requests up to ten slabs, stopping at the first refusal. */
    constructor (maxSlabs: nat, answers: seq<seq<Chunk>>)
      requires forall i :: 0 <= i < |answers| ==> |answers[i]| == 0 || |answers[i]| == CHUNKS_PER_SLAB
      ensures Valid(State()) && this.maxSlabs == maxSlabs && this.answers == answers
      ensures Stock(State()) == Offered(answers, 0)
      ensures slabs <= Min(INITIAL_SLABS, maxSlabs)
      ensures slabs < Min(INITIAL_SLABS, maxSlabs) ==> AtLimit(State())
    {
      this.maxSlabs := maxSlabs;
      this.answers := answers;
      freeList, slabs, asked, totalFree, totalChunks := [], 0, 0, 0, 0;
      new;
      var i := 0;
      while i < Min(INITIAL_SLABS, maxSlabs)
        invariant 0 <= i <= Min(INITIAL_SLABS, maxSlabs)
        invariant Valid(State()) && slabs == i
        invariant Stock(State()) == Offered(answers, 0)
      {
        GrownConserves(State(), State(), []);
        var ok := GrowLocked();
        if !ok { break; }
        i := i + 1;
      }
    }

    method GrowLocked() returns (ok: bool)
      requires Shaped(State())
      modifies this
      ensures ok == old(CanGrow(State()))
      ensures State() == Grown(old(State()))
    {
      if slabs >= maxSlabs { return false; }
      var blocks := if asked < |answers| then answers[asked] else [];
      asked := asked + 1;
      if blocks == [] { return false; }
      freeList := freeList + blocks;
      slabs := slabs + 1;
      totalChunks := totalChunks + |blocks|;
      totalFree := totalFree + |blocks|;
      return true;
    }

    /** Takes up to `n` chunks, which the caller's vector receives at its end, growing
        the pool as long as it can. The free counter is adjusted once, after the loop. */
    method AllocateBulk(n: nat) returns (taken: seq<Chunk>)
      requires Valid(State())
      modifies this
      ensures BulkTaken(old(State()), n, State(), taken)
    {
      hide Conserved, Stock, Offered, Grown, CanGrow, Answer;
      taken := [];
      ghost var was := State();
      NothingTaken(was);
      if n == 0 { return; }
      while |taken| < n
        invariant |taken| < n && Shaped(State()) && totalFree == |freeList| + |taken|
        invariant Conserved(was, State(), taken)
        invariant |was.free| <= |taken| + |freeList|
        decreases maxSlabs - slabs
      {
        var keep := |freeList| - Min(n - |taken|, |freeList|);
        CutConserves(was, State(), taken, keep);
        taken := taken + freeList[keep..];
        freeList := freeList[..keep];
        if |taken| == n { break; }
        GrownConserves(was, State(), taken);
        var ok := GrowLocked();
        if !ok { break; }
      }
      CounterKeepsConserved(was, State(), taken, totalFree - |taken|);
      totalFree := totalFree - |taken|;
    }

    method DeallocateBulk(chunks: seq<Chunk>)
      requires Valid(State())
      modifies this
      ensures State() == Returned(old(State()), chunks)
    {
      if chunks == [] { return; }
      freeList := freeList + chunks;
      totalFree := totalFree + |chunks|;
    }

    method Deallocate(p: Chunk)
      requires Valid(State())
      modifies this
      ensures State() == Returned(old(State()), [p])
    {
      freeList := freeList + [p];
      totalFree := totalFree + 1;
    }
  }
}
