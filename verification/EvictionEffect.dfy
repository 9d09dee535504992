/** What an eviction walk does to the entries it visits: which leave the list, which go to
    another bucket, and what it reclaims. */
module EvictionEffect {
  import opened Common
  import opened LruBuckets
  import opened EvictionWalk
  import opened EvictionOutcome

  // ---- One step --------------------------------------------------------------------------

  /** The entry at `k` is to be evicted: it is stale, it belongs into the bucket it is in or a
      lower one, and evicting it gives chunks back. */
  ghost predicate Evictable(v: View, l: Lru, k: nat) {
    && k < |l.list| && v.stale(l.list[k]) && v.freed(l.list[k]) > 0
    && exists b: nat :: InBucket(l.seps, k, b) && v.intended(l.list[k]) <= b
  }

  /** While the counter is right, the visited entry leaves the list exactly when it is to be
      evicted, and then its chunks are counted; it changes its bucket exactly when it is
      misfiled, and then it lies in the bucket it belongs into; otherwise the walk passes it by. */
  lemma StepEffect(v: View, w: Walk)
    requires Ready(v, w) && !Ended(w) && Tracks(w)
    ensures var w', x := Step(v, w), w.l.list[w.it];
            && (x !in w'.l.list <==> Evictable(v, w.l, w.it))
            && w'.reclaimed == w.reclaimed + (if Evictable(v, w.l, w.it) then v.freed(x) else 0)
            && (Misfiled(v, w.l, w.it) ==>
                  exists p: nat :: p < |w'.l.list| && w'.l.list[p] == x && InBucket(w'.l.seps, p, v.intended(x)))
            && (!Misfiled(v, w.l, w.it) && !Evictable(v, w.l, w.it) ==> w'.l == w.l && w'.it == w.it + 1)
  {
    var c, x := Skip(w.l.seps, w.it, w.cur), w.l.list[w.it];
    SkipTracks(w);
    BucketUnique(w.l.seps, w.it, c);
    MisfiledIff(v, w.l, w.it, c);
    assert Evictable(v, w.l, w.it) <==> v.stale(x) && v.freed(x) > 0 && v.intended(x) <= c;
    RefileReady(v, w.(cur := c));
    EraseDistinct(w.l, w.it);
    ErasePlaces(w.l, w.it);
    StepBranches(v, w);
    assert x in w.l.list;
    hide Step, Refiled, RefiledAt, Erased, Skip, Evictable, Misfiled, Valid, Distinct, InBucket;
  }

  lemma StepBranches(v: View, w: Walk)
    requires Ready(v, w) && !Ended(w)
    ensures var w', x, c := Step(v, w), w.l.list[w.it], Skip(w.l.seps, w.it, w.cur);
            && (!v.stale(x) || (v.intended(x) <= c && v.freed(x) == 0) ==> w' == Walk(w.l, w.it + 1, c, w.reclaimed))
            && (v.stale(x) && v.intended(x) <= c && v.freed(x) > 0 ==>
                  w' == Walk(Erased(w.l, w.it), w.it, c, w.reclaimed + v.freed(x)))
            && (v.stale(x) && v.intended(x) > c ==> w' == Refiled(v, w.(cur := c)))
  {
    assert w.(cur := Skip(w.l.seps, w.it, w.cur)) == Walk(w.l, w.it, Skip(w.l.seps, w.it, w.cur), w.reclaimed);
  }

  /** Whether the counter is right or stuck, only what is to be evicted leaves the list, and
      its chunks are counted. */
  lemma StepGone(v: View, w: Walk)
    requires Ready(v, w) && !Ended(w) && (Tracks(w) || Stuck(w))
    ensures var w', x := Step(v, w), w.l.list[w.it];
            && (x !in w'.l.list ==> Evictable(v, w.l, w.it))
            && w'.reclaimed == w.reclaimed + (if x in w'.l.list then 0 else v.freed(x))
  {
    if Tracks(w) {
      StepEffect(v, w);
    } else {
      StuckStep(v, w);
    }
  }

  lemma StuckStep(v: View, w: Walk)
    requires Ready(v, w) && !Ended(w) && Stuck(w)
    ensures var w', x := Step(v, w), w.l.list[w.it];
            && (x !in w'.l.list ==> Evictable(v, w.l, w.it))
            && w'.reclaimed == w.reclaimed + (if x in w'.l.list then 0 else v.freed(x))
  {
    var x := w.l.list[w.it];
    var b := BucketExists(w.l, w.it);
    Ordered(w.l.seps, b, w.cur);
    assert Skip(w.l.seps, w.it, w.cur) == w.cur;
    StepBranches(v, w);
    RefileReady(v, w);
    EraseDistinct(w.l, w.it);
    assert x in w.l.list && w.(cur := w.cur) == w;
    hide Step, Refiled, RefiledAt, Erased, Skip, Valid, Distinct;
  }

  // ---- Whole walks -------------------------------------------------------------------------

  /** The chunks that evicting all of the entries would give back. */
  function Weight(v: View, list: seq<EntryId>): nat {
    if list == [] then 0 else Weight(v, list[..|list| - 1]) + v.freed(list[|list| - 1])
  }

  lemma {:induction false} WeightJoin(v: View, a: seq<EntryId>, b: seq<EntryId>)
    ensures Weight(v, a + b) == Weight(v, a) + Weight(v, b)
  {
    if b == [] {
      assert a + b == a;
    } else {
      var n := |b| - 1;
      assert (a + b)[..|a + b| - 1] == a + b[..n];
      WeightJoin(v, a, b[..n]);
    }
  }

  lemma WeightOne(v: View, a: seq<EntryId>, x: EntryId, b: seq<EntryId>)
    ensures Weight(v, a + [x] + b) == Weight(v, a + b) + v.freed(x)
  {
    WeightJoin(v, a + [x], b);
    WeightJoin(v, a, [x]);
    WeightJoin(v, a, b);
    assert [x][..0] == [];
  }

  lemma EraseWeight(v: View, l: Lru, k: nat)
    requires Valid(l) && k < |l.list|
    ensures Weight(v, l.list) == Weight(v, Erased(l, k).list) + v.freed(l.list[k])
  {
    assert l.list == l.list[..k] + [l.list[k]] + l.list[k + 1..];
    WeightOne(v, l.list[..k], l.list[k], l.list[k + 1..]);
  }

  lemma InsertWeight(v: View, l: Lru, x: EntryId, b: nat)
    requires Valid(l) && b < |l.seps|
    ensures Weight(v, Inserted(l, x, b).list) == Weight(v, l.list) + v.freed(x)
  {
    InsertedParts(l, x, b);
    var p := l.seps[b];
    assert l.list == l.list[..p] + l.list[p..];
    WeightOne(v, l.list[..p], x, l.list[p..]);
  }

  /** What is reclaimed is what leaves the list, in every step of every walk. */
  lemma StepConserves(v: View, w: Walk)
    requires Ready(v, w) && !Ended(w)
    ensures Weight(v, Step(v, w).l.list) + Step(v, w).reclaimed == Weight(v, w.l.list) + w.reclaimed
  {
    hide Step, Erased, Inserted, Weight, Skip, Valid, Distinct;
    StepBranches(v, w);
    EraseWeight(v, w.l, w.it);
    RefileWeight(v, w.(cur := Skip(w.l.seps, w.it, w.cur)));
  }

  lemma RefileWeight(v: View, w: Walk)
    requires Valid(w.l) && w.it < |w.l.list| && v.intended(w.l.list[w.it]) < |w.l.seps|
    ensures Weight(v, Refiled(v, w).l.list) == Weight(v, w.l.list) && Refiled(v, w).reclaimed == w.reclaimed
  {
    hide Erased, Inserted, Weight;
    ErasePlaces(w.l, w.it);
    EraseWeight(v, w.l, w.it);
    InsertWeight(v, Erased(w.l, w.it), w.l.list[w.it], v.intended(w.l.list[w.it]));
  }

  /** Over any number of steps from the list's head: the chunks reclaimed are those of the
      entries that left the list, and each of these was stale and gave chunks back. */
  lemma {:induction false} WalkConserves(v: View, w: Walk, n: nat)
    requires Ready(v, w) && (Tracks(w) || Stuck(w))
    ensures var w' := Walked(v, w, n);
            && Weight(v, w'.l.list) + w'.reclaimed == Weight(v, w.l.list) + w.reclaimed
            && (forall y :: y in w'.l.list ==> y in w.l.list)
            && (forall y :: y in w.l.list && y !in w'.l.list ==> v.stale(y) && v.freed(y) > 0)
    decreases n
  {
    hide Step, Tracks, Stuck, Weight, Valid, Distinct;
    if n > 0 && !Ended(w) {
      StepLaw(v, w);
      WalkConserves(v, Step(v, w), n - 1);
    }
  }

  lemma StepLaw(v: View, w: Walk)
    requires Ready(v, w) && !Ended(w) && (Tracks(w) || Stuck(w))
    ensures var w', x := Step(v, w), w.l.list[w.it];
            && Ready(v, w') && (Tracks(w') || Stuck(w'))
            && Weight(v, w'.l.list) + w'.reclaimed == Weight(v, w.l.list) + w.reclaimed
            && (forall y :: y in w'.l.list ==> y in w.l.list)
            && (forall y :: y in w.l.list && y !in w'.l.list ==> v.stale(y) && v.freed(y) > 0)
  {
    hide Step, Weight, Straddles;
    StepReady(v, w);
    StepConserves(v, w);
    StepGone(v, w);
    if Tracks(w) { TracksUntilStraddle(v, w); } else { StuckStays(v, w); }
  }

  predicate GivesBack(v: View, x: EntryId) { v.stale(x) && v.freed(x) > 0 }

  /** What the walk leaves behind its position: the visited entry or nothing. */
  lemma StepBehind(v: View, w: Walk)
    requires Ready(v, w) && !Ended(w) && Tracks(w)
    ensures var w', x := Step(v, w), w.l.list[w.it];
            && w.it <= w'.it <= |w'.l.list| && w.it <= |w.l.list|
            && (w'.l.list[..w'.it] == w.l.list[..w.it] || w'.l.list[..w'.it] == w.l.list[..w.it] + [x])
  {
    var c := Skip(w.l.seps, w.it, w.cur);
    SkipTracks(w);
    StepBranches(v, w);
    ErasedList(w.l, w.it);
    if Refiles(v, w) { RefileBehind(v, w.(cur := c)); }
    hide Step, Refiled, Erased, Skip, Valid, Distinct;
  }

  lemma RefileBehind(v: View, w: Walk)
    requires Ready(v, w) && !Ended(w) && InBucket(w.l.seps, w.it, w.cur) && w.cur < v.intended(w.l.list[w.it])
    ensures var w', x := Refiled(v, w), w.l.list[w.it];
            && w.it <= w'.it <= |w'.l.list|
            && (w'.l.list[..w'.it] == w.l.list[..w.it] || w'.l.list[..w'.it] == w.l.list[..w.it] + [x])
  {
    var x, b := w.l.list[w.it], v.intended(w.l.list[w.it]);
    Ordered(w.l.seps, w.cur, b);
    ErasePlaces(w.l, w.it);
    ErasedList(w.l, w.it);
    var l1 := Erased(w.l, w.it);
    InsertedParts(l1, x, b);
    var p := l1.seps[b];
    assert w.it <= p;
    hide Erased, Inserted, Valid, Distinct, InBucket;
    assert l1.list[..w.it] == w.l.list[..w.it];
  }

  /** Behind the position nothing gives chunks back, except what was misfiled. */
  ghost predicate SweptBut(v: View, w: Walk, misfiled: set<EntryId>) {
    w.it <= |w.l.list| && forall y :: y in w.l.list[..w.it] && GivesBack(v, y) ==> y in misfiled
  }

  lemma SweepsOn(v: View, w: Walk, misfiled: set<EntryId>)
    requires Ready(v, w) && !Ended(w) && Tracks(w) && SweptBut(v, w, misfiled) && Ahead(v, w) <= misfiled
    ensures SweptBut(v, Step(v, w), misfiled) && Ahead(v, Step(v, w)) <= misfiled && Ready(v, Step(v, w))
  {
    hide Step, Tracks, Evictable, InBucket, Distinct, Valid;
    var w', x := Step(v, w), w.l.list[w.it];
    StepReady(v, w);
    StepBehind(v, w);
    AheadShrinks(v, w);
    StepEffect(v, w);
    PassedBy(v, w);
    if Misfiled(v, w.l, w.it) { assert x in Ahead(v, w); }
  }

  /** A visited entry that stays and is not misfiled gives nothing back. */
  lemma PassedBy(v: View, w: Walk)
    requires Ready(v, w) && !Ended(w) && Tracks(w)
    ensures GivesBack(v, w.l.list[w.it]) ==> Evictable(v, w.l, w.it) || Misfiled(v, w.l, w.it)
  {
    var b := BucketExists(w.l, w.it);
    MisfiledIff(v, w.l, w.it, b);
  }

  lemma {:induction false} SweptWalk(v: View, w: Walk, n: nat, misfiled: set<EntryId>)
    requires Ready(v, w) && SweptBut(v, w, misfiled) && Ahead(v, w) <= misfiled
    requires forall m: nat :: m <= n ==> Tracks(Walked(v, w, m))
    ensures SweptBut(v, Walked(v, w, n), misfiled)
    decreases n
  {
    hide Step, Tracks, Ahead, SweptBut, Valid, Distinct;
    if n > 0 && !Ended(w) {
      assert Walked(v, w, 0) == w;
      SweepsOn(v, w, misfiled);
      var w' := Step(v, w);
      forall m: nat | m <= n - 1 ensures Tracks(Walked(v, w', m)) {
        assert Walked(v, w', m) == Walked(v, w, m + 1);
      }
      SweptWalk(v, w', n - 1, misfiled);
    }
  }

  /** A walk that comes to the list's end with the counter right all along leaves no entry
      that gives chunks back, except some that were misfiled when it started. */
  lemma SweepsList(v: View, l: Lru, n: nat, y: EntryId)
    requires Ready(v, Start(l)) && (forall m: nat :: m <= n ==> Tracks(Walked(v, Start(l), m)))
    requires Ended(Walked(v, Start(l), n)) && y in Walked(v, Start(l), n).l.list && GivesBack(v, y)
    ensures exists k: nat :: Misfiled(v, l, k) && l.list[k] == y
  {
    var w := Walked(v, Start(l), n);
    SweptWalk(v, Start(l), n, Ahead(v, Start(l)));
    assert w.l.list[..w.it] == w.l.list;
    hide Walked, Ready, Tracks, Misfiled;
    assert y in Ahead(v, Start(l));
  }

  // ---- Well-filed lists ----------------------------------------------------------------------

  /** The entries that are not stale or give nothing back, in their order. */
  function Kept(v: View, list: seq<EntryId>): seq<EntryId> {
    if list == [] then []
    else
      var n := |list| - 1;
      Kept(v, list[..n]) + if GivesBack(v, list[n]) then [] else [list[n]]
  }

  /** The chunks that the stale entries give back. */
  function Reclaimable(v: View, list: seq<EntryId>): nat {
    if list == [] then 0
    else
      var n := |list| - 1;
      Reclaimable(v, list[..n]) + if v.stale(list[n]) then v.freed(list[n]) else 0
  }

  ghost predicate WellFiled(v: View, l: Lru) { forall k: nat :: !Misfiled(v, l, k) }

  /** Every entry of `l'` is in the bucket it has in `l`. */
  ghost predicate InOldBuckets(l: Lru, l': Lru) {
    forall k': nat :: k' < |l'.list| ==> HasOldPlace(l, l', k')
  }

  ghost predicate HasOldPlace(l: Lru, l': Lru, k': nat) { exists k: nat :: SamePlace(l, k, l', k') }

  /** The first `n` entries of `l` are sorted out, the others still to be visited. */
  ghost predicate SortedOut(v: View, l: Lru, w: Walk, n: nat) {
    && n <= |l.list|
    && w.l.list == Kept(v, l.list[..n]) + l.list[n..] && w.it == |Kept(v, l.list[..n])|
    && w.reclaimed == Reclaimable(v, l.list[..n]) && InOldBuckets(l, w.l)
  }

  lemma AtStart(v: View, l: Lru)
    requires Ready(v, Start(l)) && WellFiled(v, l)
    ensures SortedOut(v, l, Start(l), 0) && Tracks(Start(l)) && Ahead(v, Start(l)) == {}
    ensures Walked(v, Start(l), 0) == Start(l)
  {
    forall k: nat | k < |l.list| ensures HasOldPlace(l, l, k) {
      assert SamePlace(l, k, l, k);
    }
  }

  lemma {:induction false} MovedOn(v: View, l: Lru, n: nat)
    requires n < |l.list|
    ensures Kept(v, l.list[..n + 1]) == Kept(v, l.list[..n]) + if GivesBack(v, l.list[n]) then [] else [l.list[n]]
    ensures Reclaimable(v, l.list[..n + 1]) ==
            Reclaimable(v, l.list[..n]) + if v.stale(l.list[n]) then v.freed(l.list[n]) else 0
  {
    assert l.list[..n + 1][..n] == l.list[..n];
  }

  lemma EraseKeepsBuckets(l: Lru, l1: Lru, k: nat)
    requires Valid(l1) && k < |l1.list| && InOldBuckets(l, l1)
    ensures InOldBuckets(l, Erased(l1, k))
  {
    var l2 := Erased(l1, k);
    forall j': nat | j' < |l2.list| ensures HasOldPlace(l, l2, j') {
      var j1 := if j' < k then j' else j' + 1;
      EraseSame(l1, k, j1);
      assert HasOldPlace(l, l1, j1);
      var j: nat :| SamePlace(l, j, l1, j1);
      assert SamePlace(l, j, l2, j');
    }
  }

  /** A step on an entry that is not misfiled evicts it or passes it by. */
  lemma FiledStep(v: View, w: Walk)
    requires Ready(v, w) && !Ended(w) && Tracks(w) && Ahead(v, w) == {} && !Misfiled(v, w.l, w.it)
    ensures var w', x := Step(v, w), w.l.list[w.it];
            && Tracks(w') && Ahead(v, w') == {}
            && w'.l == (if GivesBack(v, x) then Erased(w.l, w.it) else w.l)
            && w'.it == (if GivesBack(v, x) then w.it else w.it + 1)
            && w'.reclaimed == w.reclaimed + if v.stale(x) then v.freed(x) else 0
  {
    hide Step, Refiled, Skip, Tracks, Ahead, Erased, Straddles, Misfiled;
    var c := Skip(w.l.seps, w.it, w.cur);
    SkipTracks(w);
    MisfiledIff(v, w.l, w.it, c);
    StepBranches(v, w);
    StraddlesMisfiled(v, w);
    TracksUntilStraddle(v, w);
    AheadShrinks(v, w);
  }

  /** The next step sorts out the next entry. */
  lemma SortsNext(v: View, l: Lru, w: Walk, n: nat)
    requires Ready(v, w) && SortedOut(v, l, w, n) && n < |l.list| && Tracks(w) && Ahead(v, w) == {}
    ensures !Ended(w) && SortedOut(v, l, Step(v, w), n + 1) && Tracks(Step(v, w)) && Ahead(v, Step(v, w)) == {}
  {
    hide Step, Tracks, Ahead, InOldBuckets, Erased, Kept, Reclaimable, Distinct, Misfiled;
    NextIsFiled(v, l, w, n);
    FiledStep(v, w);
    MovedOn(v, l, n);
    EraseKeepsBuckets(l, w.l, w.it);
    ErasedList(w.l, w.it);
    assert l.list[n..] == [l.list[n]] + l.list[n + 1..];
  }

  lemma ErasedList(l: Lru, k: nat)
    requires Valid(l) && k < |l.list|
    ensures Erased(l, k).list == l.list[..k] + l.list[k + 1..]
  {
  }

  lemma NextIsFiled(v: View, l: Lru, w: Walk, n: nat)
    requires SortedOut(v, l, w, n) && n < |l.list| && Ahead(v, w) == {}
    ensures !Ended(w) && w.l.list[w.it] == l.list[n] && !Misfiled(v, w.l, w.it)
  {
    var x := w.l.list[w.it];
    assert Misfiled(v, w.l, w.it) ==> x in Ahead(v, w);
  }

  lemma StraddlesMisfiled(v: View, w: Walk)
    requires Ready(v, w) && !Ended(w) && Tracks(w)
    ensures Straddles(v, w) ==> Misfiled(v, w.l, w.it)
  {
    RefilesIff(v, w);
    hide Misfiled;
  }

  /** Where the walk over a well-filed list is after `n` steps. */
  lemma {:induction false} WellFiledWalk(v: View, l: Lru, n: nat)
    requires Ready(v, Start(l)) && WellFiled(v, l) && n <= |l.list|
    ensures var w := Walked(v, Start(l), n);
            SortedOut(v, l, w, n) && Tracks(w) && Ahead(v, w) == {}
    decreases n
  {
    hide Ready, Tracks, WellFiled, SortedOut, Ahead, Walked, Step, Start;
    AtStart(v, l);
    if n > 0 {
      WellFiledWalk(v, l, n - 1);
      SortsNext(v, l, Walked(v, Start(l), n - 1), n - 1);
      WalkedNext(v, Start(l), n - 1);
    }
  }

  /** A walk with unmet demand over a well-filed list leaves exactly the entries that are not
      stale or give nothing back, in their order and buckets, and reclaims the chunks of all
      the others. */
  lemma WellFiledOutcome(v: View, l: Lru)
    requires Ready(v, Start(l)) && WellFiled(v, l)
    ensures var w := Walked(v, Start(l), |l.list|);
            && Ended(w) && w.l.list == Kept(v, l.list) && InOldBuckets(l, w.l)
            && w.reclaimed == Reclaimable(v, l.list)
  {
    WellFiledWalk(v, l, |l.list|);
    assert l.list[..|l.list|] == l.list && l.list[|l.list|..] == [];
    hide Ready, Walked, Kept, Reclaimable, InOldBuckets, WellFiled;
  }

  /** A walk with a demand stops behind the shortest stretch of the list that meets it, having
      sorted out that stretch and left the rest alone. */
  lemma DemandOutcome(v: View, l: Lru, needed: nat, n: nat)
    requires Ready(v, Start(l)) && WellFiled(v, l) && n <= |l.list|
    ensures Stops(v, Start(l), needed, n) <==> n == |l.list| || Reclaimable(v, l.list[..n]) >= needed
    ensures Walked(v, Start(l), n).l.list == Kept(v, l.list[..n]) + l.list[n..]
    ensures Walked(v, Start(l), n).reclaimed == Reclaimable(v, l.list[..n])
  {
    WellFiledWalk(v, l, n);
    hide Ready, Walked, Kept, Reclaimable, InOldBuckets, WellFiled;
  }
}
