/** The state diagram of a cache entry, and that the operations on its word follow it. */
module EntryDiagram {
  import opened Common
  import opened EntryWord

  datatype WordOp = StartLoading | CancelQueued | MarkCached | MarkLoadFailed | AcquireRead | ReleaseLast
    | StartEvicting

  function Apply(op: WordOp, w: Word): Option<Word> {
    match op
    case StartLoading => TryStartLoading(w)
    case CancelQueued => TryCancelQueued(w)
    case MarkCached => TryMarkCached(w)
    case MarkLoadFailed => TryMarkLoadFailed(w)
    case AcquireRead => TryAcquireRead(w)
    case ReleaseLast => if w == Word(InUse, 1) then Some(ReleaseRead(w)) else None
    case StartEvicting => TryStartEvicting(w)
  }

  /** The arrows of the diagram, by where they start and end. */
  const ARROWS: set<(WordOp, Phase, Phase)> := {
    (StartLoading, Empty, Loading), (StartLoading, Queued, Loading), (CancelQueued, Queued, Empty),
    (MarkCached, Loading, Cached), (MarkLoadFailed, Loading, Empty),
    (AcquireRead, Cached, InUse), (AcquireRead, InUse, InUse), (ReleaseLast, InUse, Cached),
    (StartEvicting, Cached, Evicting)}

  /** Pins are held exactly while the entry is in use. */
  predicate Sound(w: Word) { w.pins < PIN_LIMIT && (w.phase == InUse <==> w.pins > 0) }

  /** On a sound word an operation takes effect exactly along its arrows, and leaves a sound
      word; only acquiring and releasing need the count to be below its limit and at one. */
  lemma FollowsDiagram(op: WordOp, w: Word, to: Phase)
    requires Sound(w) && w.pins + 1 < PIN_LIMIT && (op == ReleaseLast ==> w.pins <= 1)
    ensures Apply(op, w).Some? && Apply(op, w).value.phase == to <==> (op, w.phase, to) in ARROWS
    ensures Apply(op, w).Some? ==> Sound(Apply(op, w).value)
    ensures op == AcquireRead && Apply(op, w).Some? ==> Apply(op, w).value.pins == w.pins + 1
  {
  }

  /** The states are numbered as they follow each other, from the one an entry starts in. */
  lemma StatesInOrder()
    ensures Pack(Empty, 0) == 0
    ensures Code(Queued) == Code(Empty) + 1 && Code(Loading) == Code(Queued) + 1 && Code(Cached) == Code(Loading) + 1
    ensures Code(InUse) == Code(Cached) + 1 && Code(Evicting) == Code(InUse) + 1
  {
  }
}
