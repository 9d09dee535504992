/** Which lists an eviction walk never gets through: a condition on the list the walk starts
    from, carried step by step to the moment the walk is trapped. */
module EvictionOutcome {
  import opened Common
  import opened LruBuckets
  import opened EvictionWalk

  // ---- The condition --------------------------------------------------------------------

  /** Entry `k`, of bucket `c`, will be re-filed to directly behind the walk's position. It is
      the last up to the end of the bucket it belongs into, nothing the walk re-files before
      it comes to lie in between, and more of the list follows. */
  ghost predicate Straddler(v: View, w: Walk, k: nat, c: nat) {
    && w.it <= k < |w.l.list| && InBucket(w.l.seps, k, c)
    && v.stale(w.l.list[k]) && c < v.intended(w.l.list[k]) < |w.l.seps|
    && var b := v.intended(w.l.list[k]);
       && w.l.seps[b] == k + 1
       && (forall m :: w.it <= m < k && Misfiled(v, w.l, m) ==> !(c <= v.intended(w.l.list[m]) <= b))
       && (k + 1 < |w.l.list| || exists m :: w.it <= m < k && Misfiled(v, w.l, m) && v.intended(w.l.list[m]) > b)
  }

  ghost predicate First(v: View, w: Walk, k: nat) {
    forall h: nat, d: nat :: w.it <= h < k ==> !Straddler(v, w, h, d)
  }

  /** Entry `m` is stale, belongs into a bucket above `c`, and will be ahead of the walk and
      not above that bucket when the walk has re-filed entry `k`. */
  ghost predicate Chased(v: View, w: Walk, k: nat, c: nat, m: nat) {
    && w.it <= m < |w.l.list| && m != k && v.stale(w.l.list[m]) && c < v.intended(w.l.list[m]) < |w.l.seps|
    && if m < k then Misfiled(v, w.l, m) else m < w.l.seps[v.intended(w.l.list[m])]
  }

  ghost predicate Doom(v: View, w: Walk, k: nat, c: nat, i: nat, j: nat) {
    && Straddler(v, w, k, c) && First(v, w, k) && i != j
    && Chased(v, w, k, c, i) && Chased(v, w, k, c, j) && v.intended(w.l.list[i]) == v.intended(w.l.list[j])
  }

  /** The first entry that will be re-filed to directly behind the position leaves two others
      ahead that belong into one bucket. */
  ghost predicate Doomed(v: View, w: Walk) {
    exists k: nat, c: nat, i: nat, j: nat :: Doom(v, w, k, c, i, j)
  }

  // ---- Where a step leaves the entries ahead ----------------------------------------------

  /** The position after a step of an entry ahead. */
  ghost function Image(v: View, w: Walk, m: nat): nat
    requires Ready(v, w) && w.it < m < |w.l.list|
  {
    if Refiles(v, w) then if m - 1 < RefiledAt(v, w) then m - 1 else m
    else if |Step(v, w).l.list| < |w.l.list| then m - 1 else m
  }

  lemma ImagePlace(v: View, w: Walk, m: nat)
    requires Ready(v, w) && w.it < m < |w.l.list|
    ensures SamePlace(w.l, m, Step(v, w).l, Image(v, w, m)) && Step(v, w).it <= Image(v, w, m)
  {
    hide Step, Refiled, RefiledAt, Valid, Distinct, Skip, Erased, SamePlace;
    StepCases(v, w);
    ErasedLength(w.l, w.it);
    if Refiles(v, w) {
      RefileSame(v, w.(cur := Skip(w.l.seps, w.it, w.cur)), m);
      SameRefiledAt(v, w, Skip(w.l.seps, w.it, w.cur));
    } else {
      EraseSame(w.l, w.it, m);
      StaysPut(w.l, m);
    }
  }

  lemma ErasedLength(l: Lru, k: nat)
    requires Valid(l) && k < |l.list|
    ensures |Erased(l, k).list| == |l.list| - 1
  {
  }

  lemma SameRefiledAt(v: View, w: Walk, c: nat)
    requires Ready(v, w) && !Ended(w)
    ensures RefiledAt(v, w.(cur := c)) == RefiledAt(v, w)
  {
  }

  lemma StaysPut(l: Lru, m: nat)
    requires m < |l.list|
    ensures SamePlace(l, m, l, m)
  {
  }

  lemma ImageOrder(v: View, w: Walk, m: nat, n: nat)
    requires Ready(v, w) && w.it < m < |w.l.list| && w.it < n < |w.l.list|
    ensures m < n <==> Image(v, w, m) < Image(v, w, n)
  {
    hide Step, RefiledAt, Valid, Distinct, Refiles;
  }

  lemma Ordered(seps: seq<nat>, i: nat, j: nat)
    requires Monotone(seps) && i < |seps| && j < |seps|
    ensures (i <= j ==> seps[i] <= seps[j]) && (j <= i ==> seps[j] <= seps[i])
  {
  }

  /** A misfiled entry lies below its bucket. */
  lemma MisfiledIff(v: View, l: Lru, m: nat, c: nat)
    requires Valid(l) && m < |l.list| && InBucket(l.seps, m, c) && v.intended(l.list[m]) < |l.seps|
    ensures Misfiled(v, l, m) <==> v.stale(l.list[m]) && c < v.intended(l.list[m])
  {
    var b := v.intended(l.list[m]);
    if b > 0 { Ordered(l.seps, b - 1, c); }
    if b > 0 && c > 0 { Ordered(l.seps, b - 1, c - 1); }
  }

  /** Positions of buckets `b` and `c`. */
  lemma BucketOrder(seps: seq<nat>, i: nat, b: nat, j: nat, c: nat)
    requires Monotone(seps) && InBucket(seps, i, b) && InBucket(seps, j, c)
    ensures b < c ==> i < seps[b] <= j
    ensures c < b ==> j < seps[c] <= i
    ensures b <= c ==> i < seps[c]
  {
    Ordered(seps, b, c);
    if c > 0 { Ordered(seps, b, c - 1); }
    if b > 0 { Ordered(seps, c, b - 1); }
  }

  lemma SameMisfiled(v: View, l: Lru, m: nat, l': Lru, m': nat)
    requires SamePlace(l, m, l', m')
    ensures Misfiled(v, l, m) <==> Misfiled(v, l', m')
  {
  }

  lemma SameBucket(l: Lru, m: nat, l': Lru, m': nat, c: nat)
    requires SamePlace(l, m, l', m')
    ensures InBucket(l.seps, m, c) <==> InBucket(l'.seps, m', c)
  {
  }

  /** What is ahead after a step was ahead before it, or is the entry just re-filed. */
  lemma ImageBack(v: View, w: Walk, m': nat) returns (m: nat)
    requires Ready(v, w) && !Ended(w) && Step(v, w).it <= m' < |Step(v, w).l.list|
    ensures w.it <= m < |w.l.list| && w.l.list[m] == Step(v, w).l.list[m']
    ensures m > w.it ==> Image(v, w, m) == m'
    ensures m == w.it ==> Refiles(v, w) && InBucket(Step(v, w).l.seps, m', v.intended(w.l.list[m]))
                          && w.it + 1 < w.l.seps[v.intended(w.l.list[m])] && !Misfiled(v, Step(v, w).l, m')
  {
    m := StepBack(v, w, m');
    StepReady(v, w);
    if m > w.it {
      ImagePlace(v, w, m);
    }
    hide Step, Image, RefiledAt, Refiles;
  }

  // ---- A step before the counter goes wrong -------------------------------------------------

  /** A walk whose counter is right and does not go wrong with the next step. */
  ghost predicate Going(v: View, w: Walk) {
    Ready(v, w) && !Ended(w) && Tracks(w) && !Straddles(v, w)
  }

  /** A step re-files the visited entry exactly when that is misfiled. */
  lemma RefilesIff(v: View, w: Walk)
    requires Ready(v, w) && !Ended(w) && Tracks(w)
    ensures Refiles(v, w) <==> Misfiled(v, w.l, w.it)
  {
    SkipTracks(w);
    MisfiledIff(v, w.l, w.it, Skip(w.l.seps, w.it, w.cur));
    hide Misfiled, Skip;
  }

  /** The re-filed entry goes to the tail of its bucket. */
  lemma TailPlace(v: View, w: Walk) returns (p: nat)
    requires Going(v, w) && Refiles(v, w) && w.it + 1 < |w.l.list|
    ensures var w', b := Step(v, w), v.intended(w.l.list[w.it]);
            && w'.it <= p < |w'.l.list| && w'.l.list[p] == w.l.list[w.it]
            && InBucket(w'.l.seps, p, b) && p + 1 == w'.l.seps[b]
            && forall m: nat :: w.it < m < |w.l.list| ==> Image(v, w, m) != p
  {
    RefilesIff(v, w);
    StepCases(v, w);
    var c, b := Skip(w.l.seps, w.it, w.cur), v.intended(w.l.list[w.it]);
    RefileSeps(v, w.(cur := c));
    RefileReady(v, w.(cur := c));
    Ordered(w.l.seps, b - 1, b);
    p := RefiledAt(v, w);
    assert p == w.l.seps[b] - 1;
    hide Step, Refiled, RefiledAt, Valid, Distinct, Skip, InBucket;
  }

  lemma MisfiledBack(v: View, w: Walk, m': nat) returns (m: nat)
    requires Going(v, w) && Step(v, w).it <= m' < |Step(v, w).l.list| && Misfiled(v, Step(v, w).l, m')
    ensures w.it < m < |w.l.list| && Image(v, w, m) == m' && Misfiled(v, w.l, m)
    ensures w.l.list[m] == Step(v, w).l.list[m']
  {
    hide Image, Step, Tracks, Straddles, Refiles, Misfiled;
    m := ImageBack(v, w, m');
    StepReady(v, w);
    ImagePlace(v, w, m);
    SameMisfiled(v, w.l, m, Step(v, w).l, m');
  }

  /** An entry between the straddler and the end of its bucket-to-be. */
  lemma EndForth(v: View, w: Walk, k: nat, c: nat)
    requires Going(v, w) && w.it < k && Straddler(v, w, k, c)
    ensures var w', k', b := Step(v, w), Image(v, w, k), v.intended(w.l.list[k]);
            b < |w'.l.seps| && w'.l.seps[b] == k' + 1
  {
    var w', k', b := Step(v, w), Image(v, w, k), v.intended(w.l.list[k]);
    StepReady(v, w);
    ImagePlace(v, w, k);
    Ordered(w.l.seps, c, b);
    Ordered(w'.l.seps, b, |w'.l.seps| - 1);
    if k' + 1 < w'.l.seps[b] {
      NothingBetween(v, w, k, c);
    }
    hide Step, Image;
  }

  lemma NothingBetween(v: View, w: Walk, k: nat, c: nat)
    requires Going(v, w) && w.it < k && Straddler(v, w, k, c)
    requires Image(v, w, k) + 1 < |Step(v, w).l.list|
    ensures var w', k', b := Step(v, w), Image(v, w, k), v.intended(w.l.list[k]);
            b < |w'.l.seps| && w'.l.seps[b] <= k' + 1
  {
    hide Step, Image, Straddles, Tracks;
    var w', k', b := Step(v, w), Image(v, w, k), v.intended(w.l.list[k]);
    StepReady(v, w);
    ImagePlace(v, w, k);
    SameBucket(w.l, k, w'.l, k', c);
    var m := ImageBack(v, w, k' + 1);
    if m > w.it {
      ImagePlace(v, w, m);
      ImageOrder(v, w, k, m);
    } else {
      RefilesIff(v, w);
      var bx := v.intended(w.l.list[m]);
      BucketOrder(w'.l.seps, k' + 1, bx, k', c);
      assert bx >= c;
      assert bx > b;
      Ordered(w'.l.seps, b, bx - 1);
    }
  }

  lemma StraddlerForth(v: View, w: Walk, k: nat, c: nat)
    requires Going(v, w) && w.it < k && Straddler(v, w, k, c)
    ensures Straddler(v, Step(v, w), Image(v, w, k), c)
  {
    hide Image, Step, Tracks, Straddles, Refiles, Misfiled, InBucket;
    var w', k', b := Step(v, w), Image(v, w, k), v.intended(w.l.list[k]);
    StepReady(v, w);
    ImagePlace(v, w, k);
    SameBucket(w.l, k, w'.l, k', c);
    EndForth(v, w, k, c);
    forall m': nat | w'.it <= m' < k' && Misfiled(v, w'.l, m') ensures !(c <= v.intended(w'.l.list[m']) <= b) {
      var m := MisfiledBack(v, w, m');
      ImageOrder(v, w, m, k);
    }
    MoreForth(v, w, k, c);
  }

  lemma MoreForth(v: View, w: Walk, k: nat, c: nat)
    requires Going(v, w) && w.it < k && Straddler(v, w, k, c)
    ensures var w', k', b := Step(v, w), Image(v, w, k), v.intended(w.l.list[k]);
            || k' + 1 < |w'.l.list|
            || exists m :: w'.it <= m < k' && Misfiled(v, w'.l, m) && v.intended(w'.l.list[m]) > b
  {
    hide Image, Step, Tracks, Straddles, Refiles, Misfiled, InBucket;
    var w', k', b := Step(v, w), Image(v, w, k), v.intended(w.l.list[k]);
    StepReady(v, w);
    ImagePlace(v, w, k);
    SameBucket(w.l, k, w'.l, k', c);
    if k + 1 < |w.l.list| {
      ImagePlace(v, w, k + 1);
      ImageOrder(v, w, k, k + 1);
    } else {
      var m :| w.it <= m < k && Misfiled(v, w.l, m) && v.intended(w.l.list[m]) > b;
      if m > w.it {
        ImagePlace(v, w, m);
        ImageOrder(v, w, m, k);
        SameMisfiled(v, w.l, m, w'.l, Image(v, w, m));
      } else {
        RefilesIff(v, w);
        var p := TailPlace(v, w);
        BucketOrder(w'.l.seps, k', c, p, v.intended(w.l.list[m]));
      }
    }
  }

  /** No re-filed entry comes to lie between a straddler and the end of its bucket-to-be. */
  lemma RefiledElsewhere(v: View, w: Walk, k: nat, c: nat)
    requires Going(v, w) && Misfiled(v, w.l, w.it) && w.it < k < |w.l.list|
    requires Straddler(v, Step(v, w), Image(v, w, k), c)
    ensures !(c <= v.intended(w.l.list[w.it]) <= v.intended(w.l.list[k]))
    ensures Image(v, w, k) + 1 < |Step(v, w).l.list| <==>
            k + 1 < |w.l.list| || v.intended(w.l.list[w.it]) > v.intended(w.l.list[k])
  {
    hide Image, Step, Tracks, Straddles, Refiles, Misfiled, InBucket;
    var w', k', b, bx := Step(v, w), Image(v, w, k), v.intended(w.l.list[k]), v.intended(w.l.list[w.it]);
    StepReady(v, w);
    RefilesIff(v, w);
    ImagePlace(v, w, k);
    var p := TailPlace(v, w);
    BucketOrder(w'.l.seps, p, bx, k', c);
    Ordered(w'.l.seps, bx, b);
    Ordered(w'.l.seps, c, bx);
    InBounds(w'.l.seps, k', c);
    if k + 1 < |w.l.list| {
      ImagePlace(v, w, k + 1);
      ImageOrder(v, w, k, k + 1);
    }
    if k' + 1 < |w'.l.list| {
      var m := ImageBack(v, w, k' + 1);
      if m > w.it { ImageOrder(v, w, k, m); }
    }
  }

  lemma InBounds(seps: seq<nat>, k: nat, c: nat)
    requires InBucket(seps, k, c)
    ensures c < |seps| && k < seps[c]
  {
  }

  lemma StraddlerBack(v: View, w: Walk, k': nat, c: nat) returns (k: nat)
    requires Going(v, w) && Straddler(v, Step(v, w), k', c)
    ensures w.it < k < |w.l.list| && Image(v, w, k) == k' && Straddler(v, w, k, c)
  {
    hide Image, Step, Tracks, Straddles, Refiles, Misfiled, InBucket;
    var w' := Step(v, w);
    StepReady(v, w);
    MisfiledIff(v, w'.l, k', c);
    k := ImageBack(v, w, k');
    var b := v.intended(w.l.list[k]);
    ImagePlace(v, w, k);
    SameBucket(w.l, k, w'.l, k', c);
    RefilesIff(v, w);
    if Misfiled(v, w.l, w.it) { RefiledElsewhere(v, w, k, c); }
    forall m: nat | w.it <= m < k && Misfiled(v, w.l, m) ensures !(c <= v.intended(w.l.list[m]) <= b) {
      if m > w.it {
        ImagePlace(v, w, m);
        ImageOrder(v, w, m, k);
        SameMisfiled(v, w.l, m, w'.l, Image(v, w, m));
      }
    }
    EndBack(v, w, k, c);
    MoreBack(v, w, k, c);
  }

  lemma EndBack(v: View, w: Walk, k: nat, c: nat)
    requires Going(v, w) && w.it < k < |w.l.list| && Straddler(v, Step(v, w), Image(v, w, k), c)
    ensures w.l.seps[v.intended(w.l.list[k])] == k + 1
  {
    hide Image, Step, Tracks, Straddles, Refiles, Misfiled, InBucket;
    var w', b := Step(v, w), v.intended(w.l.list[k]);
    StepReady(v, w);
    ImagePlace(v, w, k);
    Ordered(w.l.seps, b, |w.l.seps| - 1);
    if k + 1 < |w.l.list| {
      ImagePlace(v, w, k + 1);
      ImageOrder(v, w, k, k + 1);
    }
  }

  lemma MoreBack(v: View, w: Walk, k: nat, c: nat)
    requires Going(v, w) && w.it < k < |w.l.list| && Straddler(v, Step(v, w), Image(v, w, k), c)
    ensures || k + 1 < |w.l.list|
            || exists m :: w.it <= m < k && Misfiled(v, w.l, m) && v.intended(w.l.list[m]) > v.intended(w.l.list[k])
  {
    hide Image, Step, Tracks, Straddles, Refiles, Misfiled, InBucket;
    var w', k', b := Step(v, w), Image(v, w, k), v.intended(w.l.list[k]);
    StepReady(v, w);
    ImagePlace(v, w, k);
    RefilesIff(v, w);
    if k' + 1 < |w'.l.list| {
      var m := ImageBack(v, w, k' + 1);
      if m > w.it { ImageOrder(v, w, k, m); } else { RefiledElsewhere(v, w, k, c); }
    } else {
      var m' :| w'.it <= m' < k' && Misfiled(v, w'.l, m') && v.intended(w'.l.list[m']) > b;
      var m := MisfiledBack(v, w, m');
      ImageOrder(v, w, m, k);
    }
  }

  /** The walk goes wrong with the next step exactly when the visited entry is a straddler. */
  lemma StraddlerHere(v: View, w: Walk)
    requires Ready(v, w) && !Ended(w) && Tracks(w)
    ensures InBucket(w.l.seps, w.it, Skip(w.l.seps, w.it, w.cur))
    ensures Straddler(v, w, w.it, Skip(w.l.seps, w.it, w.cur)) <==> Straddles(v, w)
    ensures forall c: nat :: Straddler(v, w, w.it, c) ==> c == Skip(w.l.seps, w.it, w.cur)
  {
    SkipTracks(w);
    BucketUnique(w.l.seps, w.it, Skip(w.l.seps, w.it, w.cur));
    hide Skip;
  }

  lemma FirstKept(v: View, w: Walk, k: nat)
    requires Going(v, w) && w.it < k < |w.l.list|
    ensures First(v, w, k) <==> First(v, Step(v, w), Image(v, w, k))
  {
    hide Image, Step, Tracks, Straddles, Straddler;
    StepReady(v, w);
    ImagePlace(v, w, k);
    var w', k' := Step(v, w), Image(v, w, k);
    if First(v, w, k) {
      forall h': nat, d: nat | w'.it <= h' < k' ensures !Straddler(v, w', h', d) {
        if Straddler(v, w', h', d) {
          var h := StraddlerBack(v, w, h', d);
          ImageOrder(v, w, h, k);
        }
      }
    }
    if First(v, w', k') {
      forall h: nat, d: nat | w.it <= h < k ensures !Straddler(v, w, h, d) {
        StraddlerHere(v, w);
        if h > w.it && Straddler(v, w, h, d) {
          StraddlerForth(v, w, h, d);
          ImagePlace(v, w, h);
          ImageOrder(v, w, h, k);
        }
      }
    }
  }

  lemma ChasedStep(v: View, w: Walk, k: nat, c: nat, m: nat)
    requires Going(v, w) && w.it < k < |w.l.list| && w.it < m < |w.l.list|
    ensures Chased(v, w, k, c, m) <==> Chased(v, Step(v, w), Image(v, w, k), c, Image(v, w, m))
  {
    hide Image, Step, Tracks, Straddles, Misfiled;
    StepReady(v, w);
    ImagePlace(v, w, k);
    ImagePlace(v, w, m);
    ImageOrder(v, w, k, m);
    ImageOrder(v, w, m, k);
    SameMisfiled(v, w.l, m, Step(v, w).l, Image(v, w, m));
  }

  /** The visited entry is chased exactly when it is re-filed and chased where it then is. */
  lemma ChasedHere(v: View, w: Walk, k: nat, c: nat, p: nat)
    requires Going(v, w) && w.it < k < |w.l.list| && Straddler(v, w, k, c) && Refiles(v, w)
    requires var w', b := Step(v, w), v.intended(w.l.list[w.it]);
             && w'.it <= p < |w'.l.list| && w'.l.list[p] == w.l.list[w.it] && b < |w'.l.seps|
             && InBucket(w'.l.seps, p, b) && Image(v, w, k) != p
    ensures Chased(v, w, k, c, w.it) <==> Chased(v, Step(v, w), Image(v, w, k), c, p)
  {
    hide Image, Step, Tracks, Straddles, Misfiled, InBucket;
    var w', k', bx := Step(v, w), Image(v, w, k), v.intended(w.l.list[w.it]);
    StepReady(v, w);
    RefilesIff(v, w);
    ImagePlace(v, w, k);
    SameBucket(w.l, k, w'.l, k', c);
    MisfiledIff(v, w'.l, p, bx);
    BucketOrder(w'.l.seps, k', c, p, bx);
    InBounds(w'.l.seps, p, bx);
  }

  lemma DoomForth(v: View, w: Walk, k: nat, c: nat, i: nat, j: nat)
    requires Going(v, w) && Doom(v, w, k, c, i, j)
    ensures Doomed(v, Step(v, w))
  {
    hide Image, Step, Tracks, Straddles, Misfiled, InBucket, First, Straddler, Chased;
    StraddlerHere(v, w);
    StraddlerAhead(v, w, k, c);
    FirstKept(v, w, k);
    StraddlerForth(v, w, k, c);
    var i' := ChasedForth(v, w, k, c, i);
    var j' := ChasedForth(v, w, k, c, j);
    assert w.l.list[i] != w.l.list[j];
    assert Doom(v, Step(v, w), Image(v, w, k), c, i', j');
  }

  lemma StraddlerAhead(v: View, w: Walk, k: nat, c: nat)
    requires Straddler(v, w, k, c)
    ensures w.it <= k < |w.l.list|
  {
  }

  lemma ChasedAhead(v: View, w: Walk, k: nat, c: nat, m: nat)
    requires Chased(v, w, k, c, m)
    ensures w.it <= m < |w.l.list| && m != k
    ensures m == w.it < k ==> Misfiled(v, w.l, m)
  {
  }

  lemma ChasedForth(v: View, w: Walk, k: nat, c: nat, m: nat) returns (m': nat)
    requires Going(v, w) && w.it < k < |w.l.list| && Straddler(v, w, k, c) && Chased(v, w, k, c, m)
    ensures Chased(v, Step(v, w), Image(v, w, k), c, m')
    ensures m < |w.l.list| && m' < |Step(v, w).l.list| && Step(v, w).l.list[m'] == w.l.list[m]
  {
    hide Image, Step, Tracks, Straddles, Misfiled, InBucket, Straddler, Chased;
    StepReady(v, w);
    ChasedAhead(v, w, k, c, m);
    if m > w.it {
      m' := Image(v, w, m);
      ImagePlace(v, w, m);
      ChasedStep(v, w, k, c, m);
    } else {
      RefilesIff(v, w);
      m' := TailPlace(v, w);
      ChasedHere(v, w, k, c, m');
    }
  }

  lemma ChasedBack(v: View, w: Walk, k: nat, c: nat, m': nat) returns (m: nat)
    requires Going(v, w) && w.it < k < |w.l.list| && Straddler(v, w, k, c)
    requires Chased(v, Step(v, w), Image(v, w, k), c, m')
    ensures Chased(v, w, k, c, m)
    ensures m < |w.l.list| && m' < |Step(v, w).l.list| && Step(v, w).l.list[m'] == w.l.list[m]
  {
    hide Image, Step, Tracks, Straddles, Misfiled, InBucket, Straddler, Chased;
    StepReady(v, w);
    ChasedAhead(v, Step(v, w), Image(v, w, k), c, m');
    m := ImageBack(v, w, m');
    if m > w.it {
      ChasedStep(v, w, k, c, m);
    } else {
      ChasedHere(v, w, k, c, m');
    }
  }

  lemma DoomBack(v: View, w: Walk, k': nat, c: nat, i': nat, j': nat)
    requires Going(v, w) && Doom(v, Step(v, w), k', c, i', j')
    ensures Doomed(v, w)
  {
    hide Image, Step, Tracks, Straddles, Misfiled, InBucket, First, Straddler, Chased;
    StepReady(v, w);
    var k := StraddlerBack(v, w, k', c);
    FirstKept(v, w, k);
    var i := ChasedBack(v, w, k, c, i');
    var j := ChasedBack(v, w, k, c, j');
    assert Step(v, w).l.list[i'] != Step(v, w).l.list[j'];
    assert Doom(v, w, k, c, i, j);
  }

  /** A step that leaves the counter right changes nothing about the condition. */
  lemma DoomedStep(v: View, w: Walk)
    requires Going(v, w)
    ensures Doomed(v, w) <==> Doomed(v, Step(v, w))
  {
    hide Step, Doom, Tracks, Straddles;
    if k: nat, c: nat, i: nat, j: nat :| Doom(v, w, k, c, i, j) {
      DoomForth(v, w, k, c, i, j);
    }
    if k: nat, c: nat, i: nat, j: nat :| Doom(v, Step(v, w), k, c, i, j) {
      DoomBack(v, w, k, c, i, j);
    }
  }

  // ---- The step with which it goes wrong, and after -------------------------------------------

  /** The step that loses the counter traps the walk exactly under the condition. */
  lemma DoomedAtStraddle(v: View, w: Walk)
    requires Ready(v, w) && !Ended(w) && Tracks(w) && Straddles(v, w)
    ensures Doomed(v, w) <==> Trapped(v, Step(v, w))
  {
    hide Step, Tracks, Straddles, Straddler, Doom, Pair, Chased, Image;
    TracksUntilStraddle(v, w);
    StraddlerHere(v, w);
    StepReady(v, w);
    var c := Skip(w.l.seps, w.it, w.cur);
    if Doomed(v, w) {
      var k: nat, d: nat, i: nat, j: nat :| Doom(v, w, k, d, i, j);
      DoomHere(v, w, k, d, i, j);
      ChasedPair(v, w, c, i, j);
    }
    if Trapped(v, Step(v, w)) {
      var i': nat, j': nat :| Pair(v, Step(v, w), i', j');
      PairChased(v, w, c, i', j');
    }
  }

  lemma DoomHere(v: View, w: Walk, k: nat, c: nat, i: nat, j: nat)
    requires Doom(v, w, k, c, i, j) && exists d: nat :: Straddler(v, w, w.it, d)
    ensures k == w.it && Straddler(v, w, w.it, c)
    ensures i != j && Chased(v, w, w.it, c, i) && Chased(v, w, w.it, c, j)
    ensures v.intended(w.l.list[i]) == v.intended(w.l.list[j])
  {
    hide Straddler, Chased;
    StraddlerAhead(v, w, k, c);
    ChasedAhead(v, w, k, c, i);
    ChasedAhead(v, w, k, c, j);
  }

  lemma ChasedPair(v: View, w: Walk, c: nat, i: nat, j: nat)
    requires Ready(v, w) && !Ended(w) && Straddles(v, w) && c == Skip(w.l.seps, w.it, w.cur)
    requires i != j && Chased(v, w, w.it, c, i) && Chased(v, w, w.it, c, j)
    requires v.intended(w.l.list[i]) == v.intended(w.l.list[j])
    ensures Pair(v, Step(v, w), Image(v, w, i), Image(v, w, j))
  {
    hide Step, Image, Skip;
    StepCases(v, w);
    StepReady(v, w);
    ImagePlace(v, w, i);
    ImagePlace(v, w, j);
    ImageOrder(v, w, i, j);
    ImageOrder(v, w, j, i);
  }

  lemma PairChased(v: View, w: Walk, c: nat, i': nat, j': nat)
    requires Ready(v, w) && !Ended(w) && Straddles(v, w) && c == Skip(w.l.seps, w.it, w.cur)
    requires Straddler(v, w, w.it, c) && Pair(v, Step(v, w), i', j')
    ensures Doomed(v, w)
  {
    hide Step, Image, Skip;
    StepCases(v, w);
    StepReady(v, w);
    var i := ImageBack(v, w, i');
    var j := ImageBack(v, w, j');
    ImagePlace(v, w, i);
    ImagePlace(v, w, j);
    assert Chased(v, w, w.it, c, i) && Chased(v, w, w.it, c, j);
    assert Doom(v, w, w.it, c, i, j);
  }

  /** A stuck walk that is not trapped does not get trapped. */
  lemma UntrappedStays(v: View, w: Walk)
    requires Ready(v, w) && !Ended(w) && Stuck(w) && !Trapped(v, w)
    ensures Stuck(Step(v, w)) && !Trapped(v, Step(v, w))
  {
    hide Step, Image, Pair, Stuck;
    StuckStays(v, w);
    StepReady(v, w);
    if i': nat, j': nat :| Pair(v, Step(v, w), i', j') {
      PairBack(v, w, i', j');
    }
  }

  lemma PairBack(v: View, w: Walk, i': nat, j': nat)
    requires Ready(v, w) && !Ended(w) && Step(v, w).cur == w.cur && Pair(v, Step(v, w), i', j')
    ensures exists i: nat, j: nat :: Pair(v, w, i, j)
  {
    hide Step, Image;
    StepReady(v, w);
    var i := PlaceBack(v, w, i');
    var j := PlaceBack(v, w, j');
    assert Step(v, w).l.list[i'] != Step(v, w).l.list[j'];
    assert Pair(v, w, i, j);
  }

  /** What is ahead and not above its bucket after a step was so before it. */
  lemma PlaceBack(v: View, w: Walk, m': nat) returns (m: nat)
    requires Ready(v, w) && !Ended(w) && Step(v, w).it <= m' < |Step(v, w).l.list|
    requires v.intended(Step(v, w).l.list[m']) < |Step(v, w).l.seps|
    requires m' < Step(v, w).l.seps[v.intended(Step(v, w).l.list[m'])]
    ensures w.it <= m < |w.l.list| && w.l.list[m] == Step(v, w).l.list[m']
    ensures m < w.l.seps[v.intended(w.l.list[m])]
  {
    hide Step, Image;
    StepReady(v, w);
    m := ImageBack(v, w, m');
    if m > w.it { ImagePlace(v, w, m); }
  }

  // ---- Exactly when the walk ends --------------------------------------------------------------

  lemma {:induction false} DoomedTraps(v: View, w: Walk)
    requires Ready(v, w) && Tracks(w) && Doomed(v, w)
    ensures GetsTrapped(v, w)
    decreases Ahead(v, w), |w.l.list| - w.it, Turns(v, w)
  {
    DoomedAhead(v, w);
    var w' := Step(v, w);
    StepOn(v, w);
    hide Step, Trapped, Stuck, Ready, Ahead, Turns, Doomed;
    if Straddles(v, w) {
      DoomedAtStraddle(v, w);
      assert Walked(v, w', 0) == w';
      assert Trapped(v, Walked(v, w, 1));
    } else {
      TracksUntilStraddle(v, w);
      DoomedStep(v, w);
      DoomedTraps(v, w');
      var n: nat :| Trapped(v, Walked(v, w', n));
      assert Walked(v, w, n + 1) == Walked(v, w', n);
    }
  }

  lemma DoomedAhead(v: View, w: Walk)
    requires Ready(v, w) && Tracks(w) && Doomed(v, w)
    ensures !Ended(w) && !Trapped(v, w)
  {
    var k: nat, c: nat, i: nat, j: nat :| Doom(v, w, k, c, i, j);
  }

  lemma {:induction false} SparedForever(v: View, w: Walk, n: nat)
    requires Ready(v, w) && ((Tracks(w) && !Doomed(v, w)) || (Stuck(w) && !Trapped(v, w)))
    ensures !Trapped(v, Walked(v, w, n))
    decreases n
  {
    NotYetTrapped(v, w);
    if n > 0 && !Ended(w) {
      var w' := Step(v, w);
      StepReady(v, w);
      hide Step, Ready, Trapped, Doomed, Tracks, Stuck, Straddles;
      if Tracks(w) && !Doomed(v, w) {
        TracksUntilStraddle(v, w);
        if Straddles(v, w) { DoomedAtStraddle(v, w); } else { DoomedStep(v, w); }
      } else {
        UntrappedStays(v, w);
      }
      SparedForever(v, w', n - 1);
    }
  }

  lemma NotYetTrapped(v: View, w: Walk)
    requires Ready(v, w) && (Tracks(w) || !Trapped(v, w))
    ensures !Trapped(v, w)
  {
  }

  /** A walk whose demand stays unmet comes to the end of the list it starts from exactly when
      that list is not doomed. */
  lemma EndsIffNotDoomed(v: View, l: Lru)
    requires Ready(v, Start(l))
    ensures Ends(v, Start(l)) <==> !Doomed(v, Start(l))
  {
    var w := Start(l);
    assert Tracks(w);
    hide Tracks, Ready, Doomed;
    WalkEndsIff(v, l);
    if Doomed(v, w) {
      DoomedTraps(v, w);
    } else {
      forall n: nat ensures !Trapped(v, Walked(v, w, n)) {
        SparedForever(v, w, n);
      }
    }
  }

  /** In particular it ends when no stale entry lies below the bucket it belongs into. */
  lemma WellFiledListEnds(v: View, l: Lru)
    requires Ready(v, Start(l)) && forall k: nat :: !Misfiled(v, l, k)
    ensures Ends(v, Start(l))
  {
    EndsIffNotDoomed(v, l);
    forall k: nat, c: nat ensures !Straddler(v, Start(l), k, c) {
      if k < |l.list| && InBucket(l.seps, k, c) { MisfiledIff(v, l, k, c); }
    }
    hide Straddler, Ready;
  }
}
