/** One eviction walk over the bucketed list: it visits the entries from the list's head,
    evicts those filed low enough, and re-files those asked for since they were filed. */
module EvictionWalk {
  import opened Common
  import opened LruBuckets

  /** What the walk reads of the entries: whether an entry is consumed or stale, the bucket
      it belongs into now, and how many chunks evicting it gives back (0 when it is not
      cached, or pinned). */
  datatype View = View(stale: EntryId -> bool, intended: EntryId -> nat, freed: EntryId -> nat)

  /** The walk's position, the bucket it believes to be in, and the chunks given back. */
  datatype Walk = Walk(l: Lru, it: nat, cur: nat, reclaimed: nat)

  ghost predicate Ready(v: View, w: Walk) {
    && Valid(w.l) && Distinct(w.l.list) && w.it <= |w.l.list| && w.cur < |w.l.seps|
    && forall k :: 0 <= k < |w.l.list| ==> v.intended(w.l.list[k]) < |w.l.seps|
  }

  predicate Ended(w: Walk) { w.it == |w.l.list| }

  function Start(l: Lru): Walk { Walk(l, 0, 0, 0) }

  /** Moves on to the next bucket while the position is the current bucket's end. */
  function Skip(seps: seq<nat>, it: nat, cur: nat): nat
    decreases |seps| - cur
  {
    if cur < |seps| && it == seps[cur] then Skip(seps, it, cur + 1) else cur
  }

  function Refiled(v: View, w: Walk): Walk
    requires Valid(w.l) && w.it < |w.l.list| && v.intended(w.l.list[w.it]) < |w.l.seps|
  {
    var x := w.l.list[w.it];
    var b := v.intended(x);
    ErasePlaces(w.l, w.it);
    var l1 := Erased(w.l, w.it);
    Walk(Inserted(l1, x, b), if l1.seps[b] <= w.it then w.it + 1 else w.it, w.cur, w.reclaimed)
  }

  function Step(v: View, w: Walk): Walk
    requires Valid(w.l) && w.it < |w.l.list| && v.intended(w.l.list[w.it]) < |w.l.seps|
  {
    var x := w.l.list[w.it];
    var c := Skip(w.l.seps, w.it, w.cur);
    if !v.stale(x) then Walk(w.l, w.it + 1, c, w.reclaimed)
    else if v.intended(x) <= c then
      if v.freed(x) > 0 then Walk(Erased(w.l, w.it), w.it, c, w.reclaimed + v.freed(x))
      else Walk(w.l, w.it + 1, c, w.reclaimed)
    else Refiled(v, Walk(w.l, w.it, c, w.reclaimed))
  }

  // ---- Where the bucket counter is right ------------------------------------------------

  /** The counter is the bucket of the position (possibly one whose end the position is,
      before skipping). */
  predicate Tracks(w: Walk) {
    Ended(w) || (w.cur < |w.l.seps| && w.it <= w.l.seps[w.cur] && (w.cur > 0 ==> w.l.seps[w.cur - 1] <= w.it))
  }

  /** The end of the current bucket lies behind the position: it is never met again. */
  predicate Stuck(w: Walk) {
    w.cur < |w.l.seps| && w.l.seps[w.cur] < w.it
  }

  /** The visited entry is re-filed and its new bucket ends directly behind it, with more
      of the list to come. */
  predicate Straddles(v: View, w: Walk)
    requires Valid(w.l) && w.it < |w.l.list|
  {
    var x := w.l.list[w.it];
    && v.stale(x) && Skip(w.l.seps, w.it, w.cur) < v.intended(x) < |w.l.seps|
    && w.l.seps[v.intended(x)] == w.it + 1 < |w.l.list|
  }

  lemma {:induction false} SkipTracks(w: Walk)
    requires Valid(w.l) && w.it < |w.l.list| && Tracks(w)
    ensures var c := Skip(w.l.seps, w.it, w.cur);
            w.cur <= c && InBucket(w.l.seps, w.it, c)
    decreases |w.l.seps| - w.cur
  {
    if w.it == w.l.seps[w.cur] {
      SkipTracks(w.(cur := w.cur + 1));
    }
  }

  /** A counter that is right stays right, except exactly when an entry is re-filed to
      directly behind the position: then the counter is stuck. */
  lemma TracksUntilStraddle(v: View, w: Walk)
    requires Ready(v, w) && !Ended(w) && Tracks(w)
    ensures Tracks(Step(v, w)) <==> !Straddles(v, w)
    ensures Straddles(v, w) ==> Stuck(Step(v, w))
  {
    SkipTracks(w);
    var l, it := w.l, w.it;
    var x, c := l.list[it], Skip(l.seps, it, w.cur);
    if v.stale(x) && v.intended(x) <= c && v.freed(x) > 0 {
      ErasePlaces(l, it);
    } else if v.stale(x) && v.intended(x) > c {
      RefileSeps(v, Walk(l, it, c, w.reclaimed));
      assert l.seps[c] <= l.seps[v.intended(x)];
    }
  }

  /** Where the separators and the position are after re-filing upwards. */
  lemma RefileSeps(v: View, w: Walk)
    requires Ready(v, w) && !Ended(w) && w.cur < v.intended(w.l.list[w.it])
    ensures var b, w' := v.intended(w.l.list[w.it]), Refiled(v, w);
            && w'.cur == w.cur && |w'.l.list| == |w.l.list| && |w'.l.seps| == |w.l.seps|
            && w'.it == (if w.l.seps[b] <= w.it + 1 then w.it + 1 else w.it)
            && forall i :: 0 <= i < |w.l.seps| ==>
                 w'.l.seps[i] == w.l.seps[i] - (if w.l.seps[i] > w.it then 1 else 0) + (if i >= b then 1 else 0)
  {
    var x := w.l.list[w.it];
    var b := v.intended(x);
    var l1 := Erased(w.l, w.it);
    ErasePlaces(w.l, w.it);
    assert forall i :: 0 <= i < |w.l.seps| ==> l1.seps[i] == w.l.seps[i] - (if w.l.seps[i] > w.it then 1 else 0);
    InsertedParts(l1, x, b);
    assert Refiled(v, w).l == Inserted(l1, x, b);
    hide Inserted, Erased, Valid, Refiled;
  }

  // ---- Where a step leaves the entries ----------------------------------------------------

  /** The same entry, on the same side of every separator. */
  predicate SamePlace(l: Lru, k: nat, l': Lru, k': nat) {
    && k < |l.list| && k' < |l'.list| && |l.seps| == |l'.seps| && l.list[k] == l'.list[k']
    && forall i :: 0 <= i < |l.seps| ==> (k < l.seps[i] <==> k' < l'.seps[i])
  }

  lemma EraseSame(l: Lru, k: nat, j: nat)
    requires Valid(l) && k < |l.list| && j < |l.list| && j != k
    ensures SamePlace(l, j, Erased(l, k), if j < k then j else j - 1)
  {
  }

  lemma EraseDistinct(l: Lru, k: nat)
    requires Valid(l) && Distinct(l.list) && k < |l.list|
    ensures Distinct(Erased(l, k).list) && l.list[k] !in Erased(l, k).list
    ensures forall y :: y in Erased(l, k).list <==> y in l.list && y != l.list[k]
  {
    assert l.list == l.list[..k] + [l.list[k]] + l.list[k + 1..];
  }

  lemma InsertSame(l: Lru, x: EntryId, b: nat, j: nat)
    requires Valid(l) && b < |l.seps| && j < |l.list|
    ensures SamePlace(l, j, Inserted(l, x, b), AfterInsert(l, b, j))
  {
    var l' := Inserted(l, x, b);
    InsertedParts(l, x, b);
    forall i | 0 <= i < |l.seps| ensures j < l.seps[i] <==> AfterInsert(l, b, j) < l'.seps[i] {
      if i < b { assert l.seps[i] <= l.seps[b]; } else { assert l.seps[b] <= l.seps[i]; }
    }
  }

  /** Where re-filing puts the entry. */
  function RefiledAt(v: View, w: Walk): nat
    requires Valid(w.l) && w.it < |w.l.list| && v.intended(w.l.list[w.it]) < |w.l.seps|
  {
    ErasePlaces(w.l, w.it);
    Erased(w.l, w.it).seps[v.intended(w.l.list[w.it])]
  }

  /** Re-filing keeps every other entry's place; those ahead stay ahead. */
  lemma RefileSame(v: View, w: Walk, k: nat)
    requires Ready(v, w) && !Ended(w) && k < |w.l.list| && k != w.it
    ensures var w', k1 := Refiled(v, w), if k < w.it then k else k - 1;
            var k' := if k1 < RefiledAt(v, w) then k1 else k1 + 1;
            && SamePlace(w.l, k, w'.l, k') && (k > w.it ==> k' >= w'.it)
  {
    var l1 := Erased(w.l, w.it);
    var k1 := if k < w.it then k else k - 1;
    var x := w.l.list[w.it];
    ErasePlaces(w.l, w.it);
    EraseSame(w.l, w.it, k);
    InsertSame(l1, x, v.intended(x), k1);
    hide Erased, Inserted, Valid, Distinct;
  }

  lemma RefileReady(v: View, w: Walk)
    requires Ready(v, w) && !Ended(w)
    ensures Ready(v, Refiled(v, w)) && RefiledAt(v, w) < |Refiled(v, w).l.list|
    ensures Refiled(v, w).l.list[RefiledAt(v, w)] == w.l.list[w.it]
    ensures InBucket(Refiled(v, w).l.seps, RefiledAt(v, w), v.intended(w.l.list[w.it]))
    ensures forall y :: y in Refiled(v, w).l.list <==> y in w.l.list
    ensures |Refiled(v, w).l.list| == |w.l.list| && |Refiled(v, w).l.seps| == |w.l.seps|
  {
    var x := w.l.list[w.it];
    ErasePlaces(w.l, w.it);
    EraseDistinct(w.l, w.it);
    var l1 := Erased(w.l, w.it);
    InsertPlaces(l1, x, v.intended(x));
    InsertDistinct(l1, x, v.intended(x));
    assert x in w.l.list;
    var w' := Refiled(v, w);
    assert w'.l == Inserted(l1, x, v.intended(x));
    assert w'.it <= |w.l.list|;
    hide Erased, Inserted, Distinct, InBucket, Valid;
    forall k | 0 <= k < |w'.l.list| ensures v.intended(w'.l.list[k]) < |w'.l.seps| {
      assert w'.l.list[k] in w.l.list;
    }
  }

  /** A step keeps the walk well formed; an entry leaves the list only by being evicted,
      and then its chunks are counted. */
  lemma StepReady(v: View, w: Walk)
    requires Ready(v, w) && !Ended(w)
    ensures var w', x := Step(v, w), w.l.list[w.it];
            && Ready(v, w') && |w'.l.seps| == |w.l.seps|
            && forall y :: y in w'.l.list <==> y in w.l.list && (y == x ==> w'.reclaimed == w.reclaimed)
  {
    SkipInRange(w.l, w.it, w.cur);
    var c := Skip(w.l.seps, w.it, w.cur);
    RefileReady(v, Walk(w.l, w.it, c, w.reclaimed));
    ErasePlaces(w.l, w.it);
    EraseDistinct(w.l, w.it);
    var w', x := Step(v, w), w.l.list[w.it];
    assert x in w.l.list;
    assert w' == Walk(w.l, w.it + 1, c, w.reclaimed)
        || (w' == Walk(Erased(w.l, w.it), w.it, c, w.reclaimed + v.freed(x)) && v.freed(x) > 0)
        || w' == Refiled(v, Walk(w.l, w.it, c, w.reclaimed));
    hide Erased, Refiled, Distinct, Valid, Step, Skip;
    forall k | 0 <= k < |w'.l.list| ensures v.intended(w'.l.list[k]) < |w'.l.seps| {
      assert w'.l.list[k] in w.l.list;
    }
  }

  lemma {:induction false} SkipInRange(l: Lru, it: nat, cur: nat)
    requires Valid(l) && it < |l.list| && cur < |l.seps|
    ensures cur <= Skip(l.seps, it, cur) < |l.seps| && l.seps[Skip(l.seps, it, cur)] != it
    decreases |l.seps| - cur
  {
    if it == l.seps[cur] { SkipInRange(l, it, cur + 1); }
  }

  /** A step passes the visited entry by, evicts it or re-files it. */
  lemma StepCases(v: View, w: Walk)
    requires Ready(v, w) && !Ended(w)
    ensures var w', x, c := Step(v, w), w.l.list[w.it], Skip(w.l.seps, w.it, w.cur);
            && w.cur <= c < |w.l.seps| && w'.cur == c
            && (v.stale(x) && v.intended(x) > c ==> w' == Refiled(v, w.(cur := c)))
            && (!(v.stale(x) && v.intended(x) > c) ==>
                  || (w'.l == w.l && w'.it == w.it + 1)
                  || (w'.l == Erased(w.l, w.it) && w'.it == w.it))
  {
    SkipInRange(w.l, w.it, w.cur);
    assert w.(cur := Skip(w.l.seps, w.it, w.cur)) == Walk(w.l, w.it, Skip(w.l.seps, w.it, w.cur), w.reclaimed);
  }

  predicate Refiles(v: View, w: Walk)
    requires w.it < |w.l.list|
  {
    v.stale(w.l.list[w.it]) && v.intended(w.l.list[w.it]) > Skip(w.l.seps, w.it, w.cur)
  }

  lemma RefileForth(v: View, w: Walk, k: nat) returns (k': nat)
    requires Ready(v, w) && w.it < k < |w.l.list|
    ensures SamePlace(w.l, k, Refiled(v, w).l, k') && Refiled(v, w).it <= k'
  {
    RefileSame(v, w, k);
    hide Refiled, SamePlace, Valid, Distinct, Erased;
    k' := if k - 1 < RefiledAt(v, w) then k - 1 else k;
  }

  /** An entry ahead of the position before the step is ahead of it afterwards. */
  lemma StepForth(v: View, w: Walk, k: nat) returns (k': nat)
    requires Ready(v, w) && !Ended(w) && w.it < k < |w.l.list|
    ensures SamePlace(w.l, k, Step(v, w).l, k') && Step(v, w).it <= k'
  {
    StepCases(v, w);
    var w', c := Step(v, w), Skip(w.l.seps, w.it, w.cur);
    if Refiles(v, w) {
      k' := RefileForth(v, w.(cur := c), k);
      hide *;
    } else {
      EraseSame(w.l, w.it, k);
      hide Step, Valid, Ready, Distinct, Erased, Refiled;
      k' := if w'.it == w.it then k - 1 else k;
    }
  }

  /** An entry ahead of the position after the step was ahead of it, in the same place
      unless it is the one re-filed. */
  lemma StepBack(v: View, w: Walk, k': nat) returns (k: nat)
    requires Ready(v, w) && !Ended(w) && Step(v, w).it <= k' < |Step(v, w).l.list|
    ensures w.it <= k < |w.l.list| && w.l.list[k] == Step(v, w).l.list[k']
    ensures || (k > w.it && SamePlace(w.l, k, Step(v, w).l, k'))
            || (k == w.it && Refiles(v, w) && InBucket(Step(v, w).l.seps, k', v.intended(w.l.list[k]))
                && w.it + 1 < w.l.seps[v.intended(w.l.list[k])] && Step(v, w).it == w.it)
  {
    StepCases(v, w);
    var w', c := Step(v, w), Skip(w.l.seps, w.it, w.cur);
    if Refiles(v, w) {
      k := RefileBack(v, w.(cur := c), k');
      hide *;
    } else if w'.it == w.it {
      assert |Erased(w.l, w.it).list| == |w.l.list| - 1;
      k := k' + 1;
      EraseSame(w.l, w.it, k);
      hide *;
    } else {
      k := k';
      hide Step, Erased, Refiled, Valid, Distinct, Skip;
    }
  }

  lemma RefileBack(v: View, w: Walk, k': nat) returns (k: nat)
    requires Ready(v, w) && !Ended(w) && w.cur < v.intended(w.l.list[w.it])
    requires Refiled(v, w).it <= k' < |Refiled(v, w).l.list|
    ensures w.it <= k < |w.l.list| && w.l.list[k] == Refiled(v, w).l.list[k']
    ensures || (k > w.it && SamePlace(w.l, k, Refiled(v, w).l, k'))
            || (k == w.it && InBucket(Refiled(v, w).l.seps, k', v.intended(w.l.list[k]))
                && w.it + 1 < w.l.seps[v.intended(w.l.list[k])] && Refiled(v, w).it == w.it)
  {
    RefileReady(v, w);
    RefileSeps(v, w);
    var p, b := RefiledAt(v, w), v.intended(w.l.list[w.it]);
    assert p == w.l.seps[b] - if w.l.seps[b] > w.it then 1 else 0;
    hide Erased, Refiled, Valid, Distinct, RefiledAt;
    if k' == p {
      k := w.it;
    } else {
      k := if k' < p then k' + 1 else k';
      RefileSame(v, w, k);
    }
  }

  // ---- When the walk ends ---------------------------------------------------------------

  /** Entry `k` is stale and filed below the bucket it belongs into. */
  predicate Misfiled(v: View, l: Lru, k: nat) {
    && k < |l.list| && v.stale(l.list[k]) && 0 < v.intended(l.list[k]) <= |l.seps|
    && k < l.seps[v.intended(l.list[k]) - 1]
  }

  /** The misfiled entries the walk has yet to visit. */
  ghost function Ahead(v: View, w: Walk): set<EntryId> {
    set k | w.it <= k < |w.l.list| && Misfiled(v, w.l, k) :: w.l.list[k]
  }

  /** Two entries ahead that a stuck walk keeps re-filing behind each other: both belong
      into one bucket above the counter, and neither is filed above it. */
  predicate Pair(v: View, w: Walk, i: nat, j: nat) {
    && w.it <= i < |w.l.list| && w.it <= j < |w.l.list| && i != j
    && v.stale(w.l.list[i]) && v.stale(w.l.list[j])
    && var b := v.intended(w.l.list[i]);
       && v.intended(w.l.list[j]) == b && w.cur < b < |w.l.seps|
       && i < w.l.seps[b] && j < w.l.seps[b]
  }

  ghost predicate Trapped(v: View, w: Walk) {
    Stuck(w) && exists i: nat, j: nat :: Pair(v, w, i, j)
  }

  lemma StuckStays(v: View, w: Walk)
    requires Ready(v, w) && !Ended(w) && Stuck(w)
    ensures Stuck(Step(v, w)) && Step(v, w).cur == w.cur
  {
    assert Skip(w.l.seps, w.it, w.cur) == w.cur;
    StepCases(v, w);
    if Refiles(v, w) {
      RefileSeps(v, w);
    }
  }

  /** A trapped walk has not ended and is trapped after the next step. */
  lemma TrappedStays(v: View, w: Walk)
    requires Ready(v, w) && Trapped(v, w)
    ensures !Ended(w) && Trapped(v, Step(v, w))
  {
    var i: nat, j: nat :| Pair(v, w, i, j);
    StuckStays(v, w);
    assert Skip(w.l.seps, w.it, w.cur) == w.cur;
    var w' := Step(v, w);
    if i != w.it && j != w.it {
      var i' := StepForth(v, w, i);
      var j' := StepForth(v, w, j);
      StepReady(v, w);
      assert Pair(v, w', i', j');
    } else {
      var o := if i == w.it then j else i;
      TrappedTurn(v, w, o);
    }
  }

  /** One of the pair is visited: it goes to the tail of its bucket, behind the other. */
  lemma TrappedTurn(v: View, w: Walk, o: nat)
    requires Ready(v, w) && !Ended(w) && Stuck(w) && (Pair(v, w, w.it, o) || Pair(v, w, o, w.it))
    ensures exists i: nat, j: nat :: Pair(v, Step(v, w), i, j)
  {
    assert Skip(w.l.seps, w.it, w.cur) == w.cur;
    StepCases(v, w);
    assert w.(cur := w.cur) == w;
    RefileReady(v, w);
    RefileSeps(v, w);
    var w', p := Step(v, w), RefiledAt(v, w);
    var o' := StepForth(v, w, o);
    assert p == w.l.seps[v.intended(w.l.list[w.it])] - 1;
    hide Step, Refiled, RefiledAt, Valid, Distinct;
    assert o' < p by {
      assert SamePlace(w.l, o, w'.l, o');
    }
    assert Pair(v, w', p, o');
  }

  /** Nothing becomes misfiled, and re-filing a misfiled entry mends it. */
  lemma AheadShrinks(v: View, w: Walk)
    requires Ready(v, w) && !Ended(w)
    ensures Ahead(v, Step(v, w)) <= Ahead(v, w)
    ensures Refiles(v, w) && Misfiled(v, w.l, w.it) ==> Ahead(v, Step(v, w)) < Ahead(v, w)
  {
    var w', x := Step(v, w), w.l.list[w.it];
    StepReady(v, w);
    forall y | y in Ahead(v, w')
      ensures y in Ahead(v, w) && (Refiles(v, w) ==> y != x)
    {
      var k': nat :| w'.it <= k' < |w'.l.list| && Misfiled(v, w'.l, k') && w'.l.list[k'] == y;
      var k := StepBack(v, w, k');
      hide Step;
      assert Misfiled(v, w.l, k);
    }
    if Refiles(v, w) && Misfiled(v, w.l, w.it) {
      assert x in Ahead(v, w);
    }
  }

  /** The visited entry would be re-filed within its own bucket. */
  predicate Turns(v: View, w: Walk) {
    && !Ended(w) && w.it < |w.l.list| && v.stale(w.l.list[w.it]) && v.intended(w.l.list[w.it]) > w.cur
    && InBucket(w.l.seps, w.it, v.intended(w.l.list[w.it]))
  }

  /** While the counter is right, only misfiled entries are re-filed. */
  lemma TracksRefilesMisfiled(v: View, w: Walk)
    requires Ready(v, w) && !Ended(w) && Tracks(w) && Refiles(v, w)
    ensures Misfiled(v, w.l, w.it) && w.l.list[w.it] in Ahead(v, w)
  {
    SkipTracks(w);
    assert w.l.seps[Skip(w.l.seps, w.it, w.cur)] <= w.l.seps[v.intended(w.l.list[w.it]) - 1];
    assert Misfiled(v, w.l, w.it);
  }

  /** Outside a trap, no two entries in a row are turned. */
  lemma TurnsOnce(v: View, w: Walk)
    requires Ready(v, w) && !Ended(w) && Stuck(w) && !Trapped(v, w)
    requires Refiles(v, w) && !Misfiled(v, w.l, w.it) && Step(v, w).it == w.it
    ensures Turns(v, w) && !Turns(v, Step(v, w))
  {
    assert Skip(w.l.seps, w.it, w.cur) == w.cur;
    StepCases(v, w);
    assert w.(cur := w.cur) == w;
    RefileSeps(v, w);
    RefileSame(v, w, w.it + 1);
    var w', b := Step(v, w), v.intended(w.l.list[w.it]);
    assert RefiledAt(v, w) == w.l.seps[b] - 1;
    hide Step, Refiled, RefiledAt, Distinct;
    assert SamePlace(w.l, w.it + 1, w'.l, w.it);
    var b' := v.intended(w.l.list[w.it + 1]);
    BucketUnique(w.l.seps, w.it + 1, b);
    assert InBucket(w.l.seps, w.it + 1, b') <==> InBucket(w'.l.seps, w.it, b');
    assert !Pair(v, w, w.it, w.it + 1);
  }

  /** A step of a walk that is not trapped makes progress: it leaves fewer misfiled entries
      ahead, or fewer entries ahead, or has just turned an entry within its bucket. */
  lemma StepProgress(v: View, w: Walk)
    requires Ready(v, w) && !Ended(w) && (Tracks(w) || Stuck(w)) && !Trapped(v, w)
    ensures var w' := Step(v, w);
            && Ahead(v, w') <= Ahead(v, w)
            && (Ahead(v, w') == Ahead(v, w) ==>
                  var n, n' := |w.l.list| - w.it, |w'.l.list| - w'.it;
                  0 <= n' <= n && (n' == n ==> Turns(v, w) && !Turns(v, w')))
  {
    AheadShrinks(v, w);
    StepCases(v, w);
    var w', c := Step(v, w), Skip(w.l.seps, w.it, w.cur);
    StepReady(v, w);
    ErasePlaces(w.l, w.it);
    if Refiles(v, w) {
      RefileSeps(v, w.(cur := c));
      if Tracks(w) {
        TracksRefilesMisfiled(v, w);
      } else if !Misfiled(v, w.l, w.it) && w'.it == w.it {
        TurnsOnce(v, w);
      }
    }
  }

  lemma StepOn(v: View, w: Walk)
    requires Ready(v, w) && !Ended(w) && (Tracks(w) || Stuck(w)) && !Trapped(v, w)
    ensures var w' := Step(v, w);
            && Ready(v, w') && (Tracks(w') || Stuck(w')) && Ahead(v, w') <= Ahead(v, w)
            && (Ahead(v, w') == Ahead(v, w) ==>
                  var n, n' := |w.l.list| - w.it, |w'.l.list| - w'.it;
                  0 <= n' <= n && (n' == n ==> Turns(v, w) && !Turns(v, w')))
  {
    StepProgress(v, w);
    StepReady(v, w);
    if Tracks(w) { TracksUntilStraddle(v, w); } else { StuckStays(v, w); }
  }

  ghost function Walked(v: View, w: Walk, n: nat): Walk
    requires Ready(v, w)
    ensures Ready(v, Walked(v, w, n))
    decreases n
  {
    if n == 0 || Ended(w) then w else
      StepReady(v, w);
      Walked(v, Step(v, w), n - 1)
  }

  ghost predicate Ends(v: View, w: Walk)
    requires Ready(v, w)
  {
    exists n: nat :: Ended(Walked(v, w, n))
  }

  ghost predicate GetsTrapped(v: View, w: Walk)
    requires Ready(v, w)
  {
    exists n: nat :: Trapped(v, Walked(v, w, n))
  }

  lemma {:induction false} TrappedForever(v: View, w: Walk, n: nat)
    requires Ready(v, w) && Trapped(v, w)
    ensures Trapped(v, Walked(v, w, n)) && !Ended(Walked(v, w, n))
    decreases n
  {
    TrappedStays(v, w);
    if n > 0 {
      StepReady(v, w);
      hide Trapped, Step, Ready;
      TrappedForever(v, Step(v, w), n - 1);
    }
  }

  lemma {:induction false} TrappedNeverEnds(v: View, w: Walk, m: nat, n: nat)
    requires Ready(v, w) && Trapped(v, Walked(v, w, m))
    ensures !Ended(Walked(v, w, n))
    decreases n
  {
    if Trapped(v, w) {
      TrappedForever(v, w, n);
    } else if n > 0 {
      StepReady(v, w);
      hide Step, Ready, Trapped;
      TrappedNeverEnds(v, Step(v, w), m - 1, n - 1);
    }
  }

  lemma {:induction false} UntrappedEnds(v: View, w: Walk)
    requires Ready(v, w) && (Tracks(w) || Stuck(w)) && !GetsTrapped(v, w)
    ensures Ends(v, w)
    decreases Ahead(v, w), |w.l.list| - w.it, Turns(v, w)
  {
    if Ended(w) {
      assert Ended(Walked(v, w, 0));
    } else {
      assert !Trapped(v, Walked(v, w, 0));
      var w' := Step(v, w);
      StepOn(v, w);
      hide Step, Trapped, Tracks, Stuck, Ended, Ready, Ahead, Turns;
      forall n: nat ensures !Trapped(v, Walked(v, w', n)) {
        assert Walked(v, w', n) == Walked(v, w, n + 1);
      }
      UntrappedEnds(v, w');
      var n: nat :| Ended(Walked(v, w', n));
      assert Ended(Walked(v, w, n + 1));
    }
  }

  /** A walk whose demand stays unmet comes to the list's end exactly when it never gets
      trapped. */
  lemma WalkEndsIff(v: View, l: Lru)
    requires Ready(v, Start(l))
    ensures Ends(v, Start(l)) <==> !GetsTrapped(v, Start(l))
  {
    var w := Start(l);
    if GetsTrapped(v, w) {
      var m: nat :| Trapped(v, Walked(v, w, m));
      forall n: nat ensures !Ended(Walked(v, w, n)) {
        TrappedNeverEnds(v, w, m, n);
      }
    } else {
      UntrappedEnds(v, w);
    }
  }

  /** With no stale entry filed below the bucket it belongs into the counter is right all
      along. */
  lemma {:induction false} WellFiledTracks(v: View, w: Walk, n: nat)
    requires Ready(v, w) && Tracks(w) && Ahead(v, w) == {}
    ensures Tracks(Walked(v, w, n)) && !Trapped(v, Walked(v, w, n))
    decreases n
  {
    if n > 0 && !Ended(w) {
      StepReady(v, w);
      AheadShrinks(v, w);
      TracksUntilStraddle(v, w);
      if Refiles(v, w) {
        TracksRefilesMisfiled(v, w);
      }
      hide Ready, Step, Trapped, Tracks, Ahead;
      WellFiledTracks(v, Step(v, w), n - 1);
    }
  }

  lemma {:induction false} WalkedNext(v: View, w: Walk, n: nat)
    requires Ready(v, w) && !Ended(Walked(v, w, n))
    ensures Walked(v, w, n + 1) == Step(v, Walked(v, w, n))
    decreases n
  {
    if n > 0 {
      StepReady(v, w);
      hide Step, Ready;
      WalkedNext(v, Step(v, w), n - 1);
    } else {
      StepReady(v, w);
    }
  }

  /** After `n` steps the demand is met or the list at its end. */
  ghost predicate Stops(v: View, w: Walk, needed: nat, n: nat)
    requires Ready(v, w)
  {
    Ended(Walked(v, w, n)) || Walked(v, w, n).reclaimed >= needed
  }

  /** `w` is where the walk is after `n` steps. */
  ghost predicate OnWay(v: View, start: Walk, w: Walk, n: nat) {
    Ready(v, start) && Ready(v, w) && w == Walked(v, start, n)
  }

  lemma OnWayStep(v: View, start: Walk, w: Walk, n: nat)
    requires OnWay(v, start, w, n) && !Ended(w)
    ensures Ready(v, w) && OnWay(v, start, Step(v, w), n + 1)
  {
    StepReady(v, w);
    WalkedNext(v, start, n);
  }

  lemma GoesOn(v: View, start: Walk, w: Walk, needed: nat, n: nat)
    requires OnWay(v, start, w, n) && !Ended(w) && w.reclaimed < needed
    ensures Ready(v, start) && !Stops(v, start, needed, n)
  {
  }

  /** The walk in place, whenever it stops at all: it does the walk's steps up to the first
      state in which the demand is met or the list at its end, and keeps the membership
      flags in step with the list. */
  method EvictInPlace(lru: LruList, v: View, needed: nat) returns (reclaimed: nat, ghost last: Walk, ghost steps: nat)
    requires lru.Ok() && Ready(v, Start(lru.State()))
    requires exists n: nat :: Stops(v, Start(lru.State()), needed, n)
    modifies lru, lru.seps
    ensures lru.Ok() && lru.State() == last.l && reclaimed == last.reclaimed
    ensures OnWay(v, old(Start(lru.State())), last, steps) && (reclaimed >= needed || Ended(last))
    ensures forall n: nat :: n < steps ==> !Stops(v, old(Start(lru.State())), needed, n)
  {
    ghost var start := Start(lru.State());
    ghost var n: nat :| Stops(v, start, needed, n);
    var it: nat, cur: nat := 0, 0;
    reclaimed, last, steps := 0, start, 0;
    assert OnWay(v, start, start, 0);
    hide Step, Ready, Valid, Distinct, OnWay, Stops, Walked;
    while it < |lru.list| && reclaimed < needed
      invariant lru.Ok() && last == Walk(lru.State(), it, cur, reclaimed)
      invariant OnWay(v, start, last, steps) && steps <= n
      invariant forall m: nat :: m < steps ==> !Stops(v, start, needed, m)
      decreases n - steps
    {
      GoesOn(v, start, last, needed, steps);
      OnWayStep(v, start, last, steps);
      last, steps := Step(v, last), steps + 1;
      it, cur, reclaimed := StepInPlace(lru, v, it, cur, reclaimed);
    }
  }

  method StepInPlace(lru: LruList, v: View, it0: nat, cur0: nat, reclaimed0: nat)
    returns (it: nat, cur: nat, reclaimed: nat)
    requires lru.Ok() && it0 < |lru.list| && Ready(v, Walk(lru.State(), it0, cur0, reclaimed0))
    modifies lru, lru.seps
    ensures lru.Ok()
    ensures Walk(lru.State(), it, cur, reclaimed) == Step(v, Walk(old(lru.State()), it0, cur0, reclaimed0))
  {
    it, cur, reclaimed := it0, cur0, reclaimed0;
    ghost var l := lru.State();
    while cur < lru.seps.Length && it == lru.seps[cur]
      invariant cur <= lru.seps.Length && Skip(l.seps, it, cur) == Skip(l.seps, it, cur0)
      invariant lru.State() == l
    {
      cur := cur + 1;
    }
    SkipInRange(l, it0, cur0);
    var x := lru.list[it];
    if !v.stale(x) {
      it := it + 1;
    } else {
      var intended := v.intended(x);
      if intended <= cur {
        var freed := v.freed(x);
        if freed > 0 {
          lru.inLru := lru.inLru - {x};
          EraseDistinct(l, it);
          ErasePlaces(l, it);
          lru.Erase(it);
          reclaimed := reclaimed + freed;
        } else {
          it := it + 1;
        }
      } else {
        ErasePlaces(l, it);
        EraseDistinct(l, it);
        lru.Erase(it);
        var p := lru.seps[intended];
        InsertPlaces(lru.State(), x, intended);
        InsertDistinct(lru.State(), x, intended);
        lru.Insert(x, intended);
        if p <= it { it := it + 1; }
      }
    }
  }

  /** Three cached entries, the first asked for twice more than its bucket shows: the walk
      re-files it to directly behind its position, then turns the other two for ever. */
  lemma WalkCanLoop() returns (v: View, l: Lru)
    ensures Ready(v, Start(l)) && |l.seps| == 5 && !Ends(v, Start(l))
  {
    v := View(_ => true, x => if x == 0 then 3 else 4, _ => 1);
    l := Lru([0, 1, 2], [1, 1, 1, 1, 3]);
    var w, w1 := Start(l), Walk(Lru([0, 1, 2], [0, 0, 0, 1, 3]), 1, 0, 0);
    FirstStep(v, l, w1);
    assert Pair(v, w1, 1, 2);
    assert Trapped(v, w1);
    hide Ready, Step, Trapped, Valid, Pair;
    assert Ready(v, w1);
    assert Walked(v, w, 1) == w1;
    assert GetsTrapped(v, w);
    WalkEndsIff(v, l);
  }

  lemma FirstStep(v: View, l: Lru, w1: Walk)
    requires v.stale(0) && v.intended(0) == 3 && v.intended(1) == v.intended(2) == 4
    requires l == Lru([0, 1, 2], [1, 1, 1, 1, 3]) && w1 == Walk(Lru([0, 1, 2], [0, 0, 0, 1, 3]), 1, 0, 0)
    ensures Ready(v, Start(l)) && Step(v, Start(l)) == w1 && Ready(v, w1)
  {
    var l1 := Lru([1, 2], [0, 0, 0, 0, 2]);
    assert Ready(v, Start(l));
    assert Ready(v, w1);
    assert Skip(l.seps, 0, 0) == 0;
    FirstErase(l, l1);
    FirstInsert(l1, w1.l);
    hide Erased, Inserted, Ready, Valid, Skip;
  }

  lemma FirstErase(l: Lru, l1: Lru)
    requires l == Lru([0, 1, 2], [1, 1, 1, 1, 3]) && l1 == Lru([1, 2], [0, 0, 0, 0, 2])
    ensures Erased(l, 0) == l1
  {
    assert Erased(l, 0).list == l1.list;
    assert Erased(l, 0).seps == l1.seps;
  }

  lemma FirstInsert(l1: Lru, l2: Lru)
    requires l1 == Lru([1, 2], [0, 0, 0, 0, 2]) && l2 == Lru([0, 1, 2], [0, 0, 0, 1, 3])
    ensures Valid(l1) && Inserted(l1, 0, 3) == l2
  {
    InsertedParts(l1, 0, 3);
    hide Inserted;
    assert Inserted(l1, 0, 3).list == l2.list;
    assert Inserted(l1, 0, 3).seps == l2.seps;
  }
}
