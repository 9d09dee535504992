/** The packed state word of a cache entry: a 4-bit phase and a 28-bit reader pin
    count in one 32-bit atomic. Each operation is one compare-and-swap or store. */
module EntryWord {
  import opened Common

  datatype Phase = Empty | Queued | Loading | Cached | InUse | Evicting

  const U32: nat := 0x1_0000_0000
  /** The pin count has 28 bits. */
  const PIN_LIMIT: nat := 0x1000_0000

  /** A word as its two parts. */
  datatype Word = Word(phase: Phase, pins: nat)

  function Code(phase: Phase): nat {
    match phase
    case Empty => 0
    case Queued => 1
    case Loading => 2
    case Cached => 3
    case InUse => 4
    case Evicting => 5
  }

  /** The stored bits: the phase in the low four, the pin count shifted left past
      them and truncated to 32 bits. */
  function Pack(phase: Phase, pins: nat): nat {
    Code(phase) + (16 * pins) % U32
  }

  function UnpackState(v: nat): nat { v % 16 }

  function UnpackPins(v: nat): nat { v / 16 }

  /** Packing keeps the phase, and keeps the pin count modulo its 28 bits. */
  lemma PackUnpack(phase: Phase, pins: nat)
    ensures Pack(phase, pins) < U32
    ensures UnpackState(Pack(phase, pins)) == Code(phase)
    ensures UnpackPins(Pack(phase, pins)) == pins % PIN_LIMIT
  {
    var q, r := pins / PIN_LIMIT, pins % PIN_LIMIT;
    assert 16 * pins == U32 * q + 16 * r;
    assert (16 * pins) % U32 == 16 * r;
  }

  /** Two words have the same bits only if they agree on phase and pins, so a
      compare-and-swap on bits compares both. */
  lemma PackInjective(a: Word, b: Word)
    requires a.pins < PIN_LIMIT && b.pins < PIN_LIMIT
    ensures Pack(a.phase, a.pins) == Pack(b.phase, b.pins) <==> a == b
  {
    PackUnpack(a.phase, a.pins);
    PackUnpack(b.phase, b.pins);
  }

  function TryStartLoading(w: Word): Option<Word> {
    if w.phase == Empty || w.phase == Queued then Some(Word(Loading, 0)) else None
  }

  function TryCancelQueued(w: Word): Option<Word> {
    if w == Word(Queued, 0) then Some(Word(Empty, 0)) else None
  }

  function TryMarkCached(w: Word): Option<Word> {
    if w == Word(Loading, 0) then Some(Word(Cached, 0)) else None
  }

  function TryMarkLoadFailed(w: Word): Option<Word> {
    if w == Word(Loading, 0) then Some(Word(Empty, 0)) else None
  }

  function TryAcquireRead(w: Word): Option<Word> {
    if w.phase == Cached || w.phase == InUse then Some(Word(InUse, (w.pins + 1) % PIN_LIMIT)) else None
  }

  /** The pin count drops by one in 32-bit arithmetic; the word becomes cached when
      the difference is zero. */
  function ReleaseRead(w: Word): Word {
    var pins := (w.pins - 1) % U32;
    Word(if pins == 0 then Cached else InUse, pins % PIN_LIMIT)
  }

  function TryStartEvicting(w: Word): Option<Word> {
    if w == Word(Cached, 0) then Some(Word(Evicting, 0)) else None
  }

  // ---- How far the pin count can be trusted ---------------------------------

  datatype PinOp = Acquire | Release

  /** Pins taken and not yet given back after `ops`. */
  function Outstanding(ops: seq<PinOp>): int {
    if ops == [] then 0
    else Outstanding(ops[..|ops| - 1]) + (if ops[|ops| - 1] == Acquire then 1 else -1)
  }

  /** No reader gives back a pin that was not taken. */
  predicate Balanced(ops: seq<PinOp>) {
    forall k :: 0 <= k <= |ops| ==> 0 <= Outstanding(ops[..k])
  }

  /** The word of a cached entry after `ops`. */
  function After(ops: seq<PinOp>): Word {
    if ops == [] then Word(Cached, 0)
    else
      var w := After(ops[..|ops| - 1]);
      if ops[|ops| - 1] == Release then ReleaseRead(w)
      else if TryAcquireRead(w).Some? then TryAcquireRead(w).value
      else w
  }

  lemma PinArithmetic(n: int, p: int)
    requires 0 <= n && p == n % PIN_LIMIT
    ensures (n + 1) % PIN_LIMIT == (p + 1) % PIN_LIMIT
    ensures (n - 1) % PIN_LIMIT == (if p == 0 then PIN_LIMIT - 1 else p - 1)
  {
  }

  lemma ReleaseParts(w: Word)
    requires w.pins < PIN_LIMIT
    ensures ReleaseRead(w) ==
            if w.pins == 0 then Word(InUse, PIN_LIMIT - 1) else Word(if w.pins == 1 then Cached else InUse, w.pins - 1)
  {
  }

  /** The word holds the outstanding pins modulo 2^28 and reads cached exactly after
      a release that leaves a multiple of 2^28 pins. */
  lemma {:induction false} AfterCounts(ops: seq<PinOp>)
    requires Balanced(ops)
    ensures 0 <= Outstanding(ops) && After(ops).pins == Outstanding(ops) % PIN_LIMIT
    ensures After(ops).phase == Cached || After(ops).phase == InUse
    ensures ops != [] ==>
              (After(ops).phase == Cached <==> ops[|ops| - 1] == Release && Outstanding(ops) % PIN_LIMIT == 0)
  {
    assert ops[..|ops|] == ops;
    assert 0 <= Outstanding(ops[..|ops|]);
    if ops != [] {
      var front := ops[..|ops| - 1];
      forall k | 0 <= k <= |front| ensures 0 <= Outstanding(front[..k]) {
        assert front[..k] == ops[..k];
      }
      AfterCounts(front);
      PinArithmetic(Outstanding(front), After(front).pins);
      hide ReleaseRead;
      ReleaseParts(After(front));
    }
  }

  /** At every moment, the entry reads cached exactly when nobody holds a pin. */
  ghost predicate CachedMeansUnpinned(ops: seq<PinOp>) {
    forall k :: 0 <= k <= |ops| ==> (After(ops[..k]).phase == Cached <==> Outstanding(ops[..k]) == 0)
  }

  /** No release leaves a positive multiple of 2^28 pins outstanding. */
  ghost predicate NeverWraps(ops: seq<PinOp>) {
    forall k :: 0 < k <= |ops| && ops[k - 1] == Release && Outstanding(ops[..k]) > 0 ==>
      Outstanding(ops[..k]) % PIN_LIMIT != 0
  }

  /** An entry reads cached exactly when no pin is outstanding, at every moment of a
      run of pins and releases, if and only if no release leaves a positive multiple
      of 2^28 pins outstanding. */
  lemma PinCountTrustworthy(ops: seq<PinOp>)
    requires Balanced(ops)
    ensures CachedMeansUnpinned(ops) <==> NeverWraps(ops)
  {
    forall k | 0 <= k <= |ops|
      ensures k == 0 ==> After(ops[..k]).phase == Cached && Outstanding(ops[..k]) == 0
      ensures k > 0 ==>
        (After(ops[..k]).phase == Cached <==> ops[k - 1] == Release && Outstanding(ops[..k]) % PIN_LIMIT == 0)
      ensures Outstanding(ops[..k]) >= 0
      ensures k > 0 && Outstanding(ops[..k]) == 0 ==> ops[k - 1] == Release
    {
      BalancedPrefix(ops, k);
      AfterCounts(ops[..k]);
      if k > 0 {
        assert ops[..k][..k - 1] == ops[..k - 1];
      }
    }
  }

  lemma BalancedPrefix(ops: seq<PinOp>, k: nat)
    requires Balanced(ops) && k <= |ops|
    ensures Balanced(ops[..k])
  {
    forall j | 0 <= j <= k ensures 0 <= Outstanding(ops[..k][..j]) {
      assert ops[..k][..j] == ops[..j];
    }
  }

  function Acquires(n: nat): seq<PinOp> {
    seq(n, _ => Acquire)
  }

  lemma {:induction false} AcquiresCount(n: nat)
    ensures Outstanding(Acquires(n)) == n && Balanced(Acquires(n))
  {
    if n > 0 {
      assert Acquires(n)[..n - 1] == Acquires(n - 1);
      AcquiresCount(n - 1);
    }
    forall k | 0 <= k <= n ensures 0 <= Outstanding(Acquires(n)[..k]) {
      assert Acquires(n)[..k] == Acquires(k);
      if k < n { AcquiresCount(k); }
    }
  }

  /** With 2^28 + 1 readers, the first one to leave makes the entry read cached while
      2^28 pins are still held. */
  lemma PinOverflow()
    ensures var ops := Acquires(PIN_LIMIT + 1) + [Release];
            Balanced(ops) && Outstanding(ops) == PIN_LIMIT && After(ops).phase == Cached
  {
    var n := PIN_LIMIT + 1;
    var ops := Acquires(n) + [Release];
    AcquiresCount(n);
    assert ops[..n] == Acquires(n);
    forall k | 0 <= k <= |ops| ensures 0 <= Outstanding(ops[..k]) {
      if k <= n {
        assert ops[..k] == Acquires(n)[..k];
      } else {
        assert ops[..k] == ops;
      }
    }
    AfterCounts(ops);
  }
}
