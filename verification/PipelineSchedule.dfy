/** The scheduling of pipelines: round and round over the meta pipelines, last one first,
    each scheduled once its base pipeline's dependencies are. */
module PipelineSchedule {
  import opened Common

  type Pipeline = nat

  /** The pipelines of each meta pipeline, its base first; what a pipeline depends on; and
      whether scheduling a pipeline records it (those with a hash join as their source are
      left out, except right joins in the unmodified mode). */
  datatype Plan = Plan(metas: seq<seq<Pipeline>>, deps: Pipeline -> seq<Pipeline>, recorded: Pipeline -> bool)

  /** Every meta pipeline has a base, and no pipeline belongs to two or occurs twice. */
  ghost predicate Valid(p: Plan) {
    && (forall i :: 0 <= i < |p.metas| ==> p.metas[i] != [] && NoRepeats(p.metas[i]))
    && (forall i, j, x: Pipeline ::
          0 <= i < |p.metas| && 0 <= j < |p.metas| && x in p.metas[i] && x in p.metas[j] ==> i == j)
  }

  ghost predicate NoRepeats(order: seq<nat>) { forall k, l :: 0 <= k < l < |order| ==> order[k] != order[l] }

  function Base(p: Plan, i: nat): Pipeline
    requires i < |p.metas| && p.metas[i] != []
  {
    p.metas[i][0]
  }

  datatype State = State(scheduled: seq<Pipeline>, count: nat, meta: nat)

  const START := State([], 0, 0)

  function Current(p: Plan, s: State): nat
    requires s.meta < |p.metas|
  {
    |p.metas| - 1 - s.meta
  }

  predicate CanGo(p: Plan, scheduled: seq<Pipeline>, i: nat)
    requires i < |p.metas| && p.metas[i] != []
  {
    var b := Base(p, i);
    b !in scheduled && forall k :: 0 <= k < |p.deps(b)| ==> p.deps(b)[k] in scheduled
  }

  function Recorded(p: Plan, ps: seq<Pipeline>): seq<Pipeline> {
    if ps == [] then []
    else Recorded(p, ps[..|ps| - 1]) + if p.recorded(ps[|ps| - 1]) then [ps[|ps| - 1]] else []
  }

  /** One turn of the loop. */
  function Turn(p: Plan, s: State): State
    requires s.meta < |p.metas| && p.metas[Current(p, s)] != []
  {
    var i := Current(p, s);
    var next := (s.meta + 1) % |p.metas|;
    if CanGo(p, s.scheduled, i) then State(s.scheduled + Recorded(p, p.metas[i]), s.count + 1, next)
    else State(s.scheduled, s.count, next)
  }

  // ---- What every turn keeps -----------------------------------------------------------------------

  function Flat(p: Plan, order: seq<nat>): seq<Pipeline>
    requires forall k :: 0 <= k < |order| ==> order[k] < |p.metas|
  {
    if order == [] then [] else Flat(p, order[..|order| - 1]) + Recorded(p, p.metas[order[|order| - 1]])
  }

  /** The pipeline is recorded with one of these meta pipelines. */
  ghost predicate Among(p: Plan, order: seq<nat>, x: Pipeline) {
    p.recorded(x) && exists k :: 0 <= k < |order| && order[k] < |p.metas| && x in p.metas[order[k]]
  }

  /** The meta pipelines scheduled so far, in order: what they record is what is scheduled,
      and each one's dependencies were recorded before it. */
  ghost predicate Inv(p: Plan, s: State, order: seq<nat>) {
    && s.meta < |p.metas| && |order| == s.count
    && (forall k :: 0 <= k < |order| ==> order[k] < |p.metas| && p.metas[order[k]] != [])
    && s.scheduled == Flat(p, order)
    && (forall k, j :: 0 <= k < |order| && 0 <= j < |p.deps(Base(p, order[k]))| ==>
          Among(p, order[..k], p.deps(Base(p, order[k]))[j]))
  }

  lemma {:induction false} RecordedHas(p: Plan, ps: seq<Pipeline>, x: Pipeline)
    ensures x in Recorded(p, ps) <==> x in ps && p.recorded(x)
    decreases |ps|
  {
    if ps != [] {
      RecordedHas(p, ps[..|ps| - 1], x);
      assert ps == ps[..|ps| - 1] + [ps[|ps| - 1]];
    }
  }

  lemma {:induction false} FlatHas(p: Plan, order: seq<nat>, x: Pipeline)
    requires forall k :: 0 <= k < |order| ==> order[k] < |p.metas|
    ensures x in Flat(p, order) <==> Among(p, order, x)
    decreases |order|
  {
    if order != [] {
      var n := |order| - 1;
      FlatHas(p, order[..n], x);
      RecordedHas(p, p.metas[order[n]], x);
      if Among(p, order, x) {
        var k :| 0 <= k < |order| && order[k] < |p.metas| && x in p.metas[order[k]];
        if k < n { assert order[..n][k] == order[k]; }
      }
    }
  }

  lemma AmongMore(p: Plan, order: seq<nat>, i: nat, k: nat, x: Pipeline)
    requires k <= |order| && Among(p, order[..k], x)
    ensures Among(p, (order + [i])[..k], x)
  {
    assert (order + [i])[..k] == order[..k];
  }

  lemma TurnKeeps(p: Plan, s: State, order: seq<nat>)
    requires Valid(p) && Inv(p, s, order)
    ensures var i := Current(p, s);
            Inv(p, Turn(p, s), if CanGo(p, s.scheduled, i) then order + [i] else order)
  {
    var i := Current(p, s);
    if CanGo(p, s.scheduled, i) {
      var order' := order + [i];
      assert order'[..|order|] == order;
      forall k, j | 0 <= k < |order'| && 0 <= j < |p.deps(Base(p, order'[k]))|
        ensures Among(p, order'[..k], p.deps(Base(p, order'[k]))[j])
      {
        var d := p.deps(Base(p, order'[k]))[j];
        if k < |order| {
          AmongMore(p, order, i, k, d);
        } else {
          FlatHas(p, order, d);
        }
      }
    }
  }

  // ---- What is scheduled once ----------------------------------------------------------------------

  ghost predicate BasesRecorded(p: Plan) {
    forall i :: 0 <= i < |p.metas| && p.metas[i] != [] ==> p.recorded(p.metas[i][0])
  }

  /** A base is scheduled exactly when its meta pipeline is and scheduling records it. */
  lemma BaseScheduledIff(p: Plan, s: State, order: seq<nat>, i: nat)
    requires Valid(p) && Inv(p, s, order) && i < |p.metas|
    ensures Base(p, i) in s.scheduled <==> i in order && p.recorded(Base(p, i))
  {
    var b := Base(p, i);
    FlatHas(p, order, b);
    assert b in p.metas[i];
    if i in order {
      var k :| 0 <= k < |order| && order[k] == i;
      assert b in p.metas[order[k]];
    }
  }

  /** Only a meta pipeline whose base is not recorded is scheduled more than once. */
  ghost predicate RecordedOnce(p: Plan, order: seq<nat>) {
    forall k, l :: 0 <= k < l < |order| && order[k] == order[l] && order[k] < |p.metas| && p.metas[order[k]] != [] ==>
      !p.recorded(p.metas[order[k]][0])
  }

  lemma TurnKeepsOnce(p: Plan, s: State, order: seq<nat>)
    requires Valid(p) && Inv(p, s, order) && RecordedOnce(p, order)
    ensures var i := Current(p, s);
            CanGo(p, s.scheduled, i) ==> RecordedOnce(p, order + [i])
  {
    BaseScheduledIff(p, s, order, Current(p, s));
  }

  lemma OnceIsNoRepeats(p: Plan, s: State, order: seq<nat>)
    requires Valid(p) && BasesRecorded(p) && Inv(p, s, order) && RecordedOnce(p, order)
    ensures NoRepeats(order)
  {
  }

  function Below(n: nat): (s: set<nat>)
    ensures |s| == n && forall i: nat :: i in s <==> i < n
  {
    if n == 0 then {} else Below(n - 1) + {n - 1}
  }

  function Elems(order: seq<nat>): (s: set<nat>)
    ensures forall x: nat :: x in s <==> x in order
  {
    if order == [] then {} else
      assert order == order[..|order| - 1] + [order[|order| - 1]];
      Elems(order[..|order| - 1]) + {order[|order| - 1]}
  }

  lemma {:induction false} ElemsSize(order: seq<nat>)
    requires NoRepeats(order)
    ensures |Elems(order)| == |order|
  {
    if order != [] { ElemsSize(order[..|order| - 1]); }
  }

  lemma SubsetSize(a: set<nat>, b: set<nat>)
    requires a <= b
    ensures |a| <= |b| && (|a| == |b| <==> a == b)
  {
    assert b == a + (b - a);
    assert |b| == |a| + |b - a|;
  }

  /** Distinct numbers below `n`: at most `n` of them, and `n` only if all occur. */
  lemma Pigeons(order: seq<nat>, n: nat)
    requires NoRepeats(order) && forall k :: 0 <= k < |order| ==> order[k] < n
    ensures |order| <= n && (|order| == n <==> forall i: nat :: i < n ==> i in order)
  {
    hide Below, Elems, NoRepeats;
    ElemsSize(order);
    var seen, all := Elems(order), Below(n);
    assert seen <= all;
    SubsetSize(seen, all);
    if forall i: nat :: i < n ==> i in order {
      assert all == seen;
    }
    if seen == all {
      forall i: nat | i < n ensures i in order { assert i in all; }
    }
  }

  // ---- Exactly when the loop ends ------------------------------------------------------------------

  /** A dependency is recorded with a meta pipeline of the set that has a lower rank. */
  ghost predicate Served(p: Plan, rank: nat -> nat, among: set<nat>, i: nat, d: Pipeline) {
    p.recorded(d) && exists l: nat :: l < |p.metas| && l in among && d in p.metas[l] && rank(l) < rank(i)
  }

  ghost predicate Ranked(p: Plan, rank: nat -> nat, among: set<nat>) {
    && (forall i :: i in among ==> i < |p.metas|)
    && forall i: nat, j :: i in among && p.metas[i] != [] && 0 <= j < |p.deps(p.metas[i][0])| ==>
         Served(p, rank, among, i, p.deps(p.metas[i][0])[j])
  }

  /** Every dependency of a base is recorded, and the dependencies are not circular. */
  ghost predicate Acyclic(p: Plan) { exists rank: nat -> nat :: Ranked(p, rank, Below(|p.metas|)) }

  ghost predicate SomeUnrecorded(p: Plan, among: set<nat>) {
    exists i :: i in among && i < |p.metas| && p.metas[i] != [] && !p.recorded(p.metas[i][0])
  }

  /** The meta pipelines of the set get their turn, and they are all there are or one of
      them is counted on every round. */
  ghost predicate Enough(p: Plan, rank: nat -> nat, among: set<nat>) {
    Ranked(p, rank, among) && (among == Below(|p.metas|) || SomeUnrecorded(p, among))
  }

  ghost predicate CanEnd(p: Plan) { exists rank: nat -> nat, among: set<nat> :: Enough(p, rank, among) }

  /** While a base of the set waits, one can go: one of lowest rank. */
  lemma {:induction false} LowestCanGo(p: Plan, s: State, order: seq<nat>, rank: nat -> nat, among: set<nat>, i: nat)
    returns (t: nat)
    requires Valid(p) && Inv(p, s, order) && Ranked(p, rank, among)
    requires i in among && i < |p.metas| && Base(p, i) !in s.scheduled
    ensures t < |p.metas| && CanGo(p, s.scheduled, t)
    decreases rank(i)
  {
    var b := Base(p, i);
    if j :| 0 <= j < |p.deps(b)| && p.deps(b)[j] !in s.scheduled {
      var d := p.deps(b)[j];
      assert Served(p, rank, among, i, d);
      var l: nat :| l < |p.metas| && l in among && d in p.metas[l] && rank(l) < rank(i);
      FlatHas(p, order, d);
      BaseScheduledIff(p, s, order, l);
      t := LowestCanGo(p, s, order, rank, among, l);
    } else {
      t := i;
    }
  }

  lemma SomeCanGo(p: Plan, s: State, order: seq<nat>, rank: nat -> nat, among: set<nat>) returns (t: nat)
    requires Valid(p) && Inv(p, s, order) && RecordedOnce(p, order) && Enough(p, rank, among) && s.count < |p.metas|
    ensures t < |p.metas| && CanGo(p, s.scheduled, t)
  {
    hide Inv, Valid, RecordedOnce, Ranked, CanGo, Below;
    var i := SomeWaits(p, s, order, rank, among);
    t := LowestCanGo(p, s, order, rank, among, i);
  }

  lemma SomeWaits(p: Plan, s: State, order: seq<nat>, rank: nat -> nat, among: set<nat>) returns (i: nat)
    requires Valid(p) && Inv(p, s, order) && RecordedOnce(p, order) && Enough(p, rank, among) && s.count < |p.metas|
    ensures i in among && i < |p.metas| && p.metas[i] != [] && Base(p, i) !in s.scheduled
  {
    if SomeUnrecorded(p, among) {
      i :| i in among && i < |p.metas| && p.metas[i] != [] && !p.recorded(p.metas[i][0]);
    } else {
      AllRecorded(p, among);
      OnceIsNoRepeats(p, s, order);
      Pigeons(order, |p.metas|);
      i :| i < |p.metas| && i !in order;
    }
    BaseScheduledIff(p, s, order, i);
  }

  lemma AllRecorded(p: Plan, among: set<nat>)
    requires among == Below(|p.metas|) && !SomeUnrecorded(p, among)
    ensures BasesRecorded(p)
  {
  }

  /** Turns until the loop comes to meta pipeline `t`. */
  function Distance(p: Plan, s: State, t: nat): nat
    requires s.meta < |p.metas| && t < |p.metas|
  {
    var at := |p.metas| - 1 - t;
    if at >= s.meta then at - s.meta else at + |p.metas| - s.meta
  }

  /** A turn schedules a meta pipeline or comes closer to one that can go. */
  lemma TurnProgress(p: Plan, s: State, order: seq<nat>, t: nat)
    requires Valid(p) && Inv(p, s, order) && t < |p.metas| && CanGo(p, s.scheduled, t)
    ensures var s' := Turn(p, s);
            s'.count == s.count + 1 ||
              (s'.scheduled == s.scheduled && s'.count == s.count && Distance(p, s', t) < Distance(p, s, t))
  {
    NextMeta(s.meta, |p.metas|);
    assert !CanGo(p, s.scheduled, Current(p, s)) ==> Current(p, s) != t;
    hide Valid, Inv, CanGo;
  }

  lemma NextMeta(m: nat, n: nat)
    requires m < n
    ensures (m + 1) % n == if m + 1 == n then 0 else m + 1
  {
    if m + 1 < n { ModUnique(m + 1, n, 0, m + 1); } else { ModUnique(m + 1, n, 1, 0); }
  }

  /** A state the loop can be in, and a meta pipeline that can go from there. */
  ghost predicate Good(p: Plan, s: State, order: seq<nat>, rank: nat -> nat, among: set<nat>) {
    Valid(p) && Inv(p, s, order) && RecordedOnce(p, order) && Enough(p, rank, among) && s.count <= |p.metas|
  }

  ghost predicate Aim(p: Plan, s: State, t: nat) {
    s.count < |p.metas| ==> t < |p.metas| && p.metas[t] != [] && CanGo(p, s.scheduled, t)
  }

  /** How far the loop is from scheduling the next meta pipeline. */
  ghost function Left(p: Plan, s: State, t: nat): nat {
    if s.count < |p.metas| && s.meta < |p.metas| && t < |p.metas| then Distance(p, s, t) else 0
  }

  lemma Aiming(p: Plan, s: State, order: seq<nat>, rank: nat -> nat, among: set<nat>) returns (t: nat)
    requires Good(p, s, order, rank, among)
    ensures Aim(p, s, t)
  {
    t := 0;
    if s.count < |p.metas| { t := SomeCanGo(p, s, order, rank, among); }
  }

  lemma Advance(p: Plan, s: State, order: seq<nat>, rank: nat -> nat, among: set<nat>, t: nat)
    returns (order': seq<nat>, t': nat)
    requires Good(p, s, order, rank, among) && Aim(p, s, t) && s.count < |p.metas|
    ensures s.meta < |p.metas| && p.metas[Current(p, s)] != []
    ensures var s' := Turn(p, s);
            && Good(p, s', order', rank, among) && Aim(p, s', t')
            && (s'.count > s.count || (s'.count == s.count && Left(p, s', t') < Left(p, s, t)))
  {
    var i, s' := Current(p, s), Turn(p, s);
    TurnKeeps(p, s, order);
    TurnKeepsOnce(p, s, order);
    TurnProgress(p, s, order, t);
    order' := if CanGo(p, s.scheduled, i) then order + [i] else order;
    hide Valid, Inv, RecordedOnce, Enough, CanGo, Distance;
    assert Good(p, s', order', rank, among);
    hide Turn;
    if s'.count > s.count {
      t' := Aiming(p, s', order', rank, among);
    } else {
      t' := t;
    }
  }

  lemma GoodBounds(p: Plan, s: State, order: seq<nat>, rank: nat -> nat, among: set<nat>)
    requires Good(p, s, order, rank, among)
    ensures s.meta < |p.metas| && s.count <= |p.metas|
  {
  }

  ghost function Turned(p: Plan, s: State, k: nat): (r: State)
    requires Valid(p) && s.meta < |p.metas|
    ensures r.meta < |p.metas|
    decreases k
  {
    if k == 0 then s else Turned(p, Turn(p, s), k - 1)
  }

  /** The loop is at its end after `k` turns and not before. */
  ghost predicate EndsAt(p: Plan, s: State, k: nat)
    requires Valid(p) && s.meta < |p.metas|
  {
    Turned(p, s, k).count == |p.metas| && forall j: nat :: j < k ==> Turned(p, s, j).count < |p.metas|
  }

  lemma {:induction false} Ends(p: Plan, s: State, order: seq<nat>, rank: nat -> nat, among: set<nat>, t: nat)
    returns (k: nat)
    requires Valid(p) && s.meta < |p.metas| && Good(p, s, order, rank, among) && Aim(p, s, t)
    ensures EndsAt(p, s, k)
    decreases |p.metas| - s.count, Left(p, s, t)
  {
    hide Valid, Good, Left, Aim, Turn, CanGo, Distance, Turned;
    GoodBounds(p, s, order, rank, among);
    NoTurn(p, s);
    if s.count == |p.metas| {
      k := 0;
    } else {
      var order', t' := Advance(p, s, order, rank, among, t);
      GoodBounds(p, Turn(p, s), order', rank, among);
      var k' := Ends(p, Turn(p, s), order', rank, among, t');
      k := k' + 1;
      OneTurnMore(p, s, k');
    }
  }

  lemma NoTurn(p: Plan, s: State)
    requires Valid(p) && s.meta < |p.metas|
    ensures Turned(p, s, 0) == s
  {
  }

  lemma OneTurnMore(p: Plan, s: State, k: nat)
    requires Valid(p) && s.meta < |p.metas| && s.count < |p.metas|
    requires p.metas[Current(p, s)] != [] && Turn(p, s).meta < |p.metas| && EndsAt(p, Turn(p, s), k)
    ensures EndsAt(p, s, k + 1)
  {
    forall j: nat | j < k + 1 ensures Turned(p, s, j).count < |p.metas| {
      if j > 0 { assert Turned(p, s, j) == Turned(p, Turn(p, s), j - 1); }
    }
  }

  /** Turns one after the other. */
  lemma {:induction false} TurnedOn(p: Plan, s: State, k: nat)
    requires Valid(p) && s.meta < |p.metas|
    ensures Turned(p, s, k + 1) == Turn(p, Turned(p, s, k))
    decreases k
  {
    hide CanGo;
    if k > 0 { TurnedOn(p, Turn(p, s), k - 1); }
  }

  function PositionOf(order: seq<nat>, i: nat): nat {
    if order == [] then 0 else if order[0] == i then 0 else 1 + PositionOf(order[1..], i)
  }

  /** A number occurs at its position, and not before. */
  lemma {:induction false} PositionIs(order: seq<nat>, k: nat)
    requires k < |order|
    ensures PositionOf(order, order[k]) <= k && order[PositionOf(order, order[k])] == order[k]
    decreases |order|
  {
    if k > 0 && order[0] != order[k] {
      assert order[1..][k - 1] == order[k];
      PositionIs(order[1..], k - 1);
    }
  }

  /** What was scheduled is ranked by its first turn. */
  lemma ScheduledIsRanked(p: Plan, s: State, order: seq<nat>)
    requires Valid(p) && Inv(p, s, order)
    ensures Ranked(p, i => PositionOf(order, i), Elems(order))
  {
    var rank := (i: nat) => PositionOf(order, i);
    hide Elems, PositionOf;
    forall i: nat, j | i in Elems(order) && p.metas[i] != [] && 0 <= j < |p.deps(p.metas[i][0])|
      ensures Served(p, rank, Elems(order), i, p.deps(p.metas[i][0])[j])
    {
      var m :| 0 <= m < |order| && order[m] == i;
      PositionIs(order, m);
      var k := rank(i);
      var d := p.deps(Base(p, order[k]))[j];
      assert Among(p, order[..k], d);
      var l :| 0 <= l < |order[..k]| && order[..k][l] < |p.metas| && d in p.metas[order[..k][l]];
      PositionIs(order, l);
      assert order[l] in Elems(order) && rank(order[l]) < rank(i);
    }
  }

  /** A finished schedule holds every meta pipeline or one whose base is not recorded. */
  lemma FinishedIsEnough(p: Plan, s: State, order: seq<nat>)
    requires Valid(p) && Inv(p, s, order) && RecordedOnce(p, order) && s.count == |p.metas|
    ensures CanEnd(p) && (BasesRecorded(p) ==> Acyclic(p))
  {
    hide Ranked, Inv, Elems, PositionOf, Below, NoRepeats, RecordedOnce, Valid, BasesRecorded, SomeUnrecorded;
    var rank := (i: nat) => PositionOf(order, i);
    ScheduledIsRanked(p, s, order);
    if NoRepeats(order) {
      FinishedHasAll(p, s, order);
    } else {
      RepeatIsUnrecorded(p, s, order);
    }
    assert Enough(p, rank, Elems(order));
    if BasesRecorded(p) {
      OnceIsNoRepeats(p, s, order);
    }
  }

  lemma FinishedHasAll(p: Plan, s: State, order: seq<nat>)
    requires Inv(p, s, order) && NoRepeats(order) && s.count == |p.metas|
    ensures Elems(order) == Below(|p.metas|)
  {
    Pigeons(order, |p.metas|);
    AllThere(order, |p.metas|);
  }

  lemma RepeatIsUnrecorded(p: Plan, s: State, order: seq<nat>)
    requires Inv(p, s, order) && !NoRepeats(order) && RecordedOnce(p, order)
    ensures SomeUnrecorded(p, Elems(order))
  {
    hide Elems;
    var k, l :| 0 <= k < l < |order| && order[k] == order[l];
    assert order[k] in Elems(order);
  }

  lemma AllThere(order: seq<nat>, n: nat)
    requires forall i: nat :: i < n <==> i in order
    ensures Elems(order) == Below(n)
  {
  }

  lemma {:induction false} TurnedKeeps(p: Plan, s: State, order: seq<nat>, k: nat) returns (order': seq<nat>)
    requires Valid(p) && Inv(p, s, order) && RecordedOnce(p, order)
    requires s.meta < |p.metas|
    ensures Inv(p, Turned(p, s, k), order') && RecordedOnce(p, order')
    decreases k
  {
    hide Valid, Inv, RecordedOnce, Turn, CanGo;
    if k == 0 {
      order' := order;
    } else {
      order' := StepKeeps(p, s, order);
      order' := TurnedKeeps(p, Turn(p, s), order', k - 1);
    }
  }

  lemma StepKeeps(p: Plan, s: State, order: seq<nat>) returns (order': seq<nat>)
    requires Valid(p) && Inv(p, s, order) && RecordedOnce(p, order)
    ensures s.meta < |p.metas| && p.metas[Current(p, s)] != [] && Turn(p, s).meta < |p.metas|
    ensures Inv(p, Turn(p, s), order') && RecordedOnce(p, order')
  {
    var i := Current(p, s);
    TurnKeeps(p, s, order);
    TurnKeepsOnce(p, s, order);
    order' := if CanGo(p, s.scheduled, i) then order + [i] else order;
  }

  /** The loop comes to its end exactly when the meta pipelines that get their turn are all
      there are, or one of them has a base that is not recorded. */
  lemma EndsIff(p: Plan)
    requires Valid(p) && |p.metas| > 0
    ensures (exists k: nat :: EndsAt(p, START, k)) <==> CanEnd(p)
  {
    if exists k: nat :: EndsAt(p, START, k) {
      var k: nat :| EndsAt(p, START, k);
      OnlyEnoughEnds(p, k);
    }
    if CanEnd(p) {
      var k := EnoughEnds(p);
    }
  }

  lemma OnlyEnoughEnds(p: Plan, k: nat)
    requires Valid(p) && |p.metas| > 0 && Turned(p, START, k).count == |p.metas|
    ensures CanEnd(p) && (BasesRecorded(p) ==> Acyclic(p))
  {
    StartGood(p);
    hide Valid, BasesRecorded, Inv, RecordedOnce, Turned, Acyclic, CanEnd;
    var order := TurnedKeeps(p, START, [], k);
    FinishedIsEnough(p, Turned(p, START, k), order);
  }

  lemma EnoughEnds(p: Plan) returns (k: nat)
    requires Valid(p) && |p.metas| > 0 && CanEnd(p)
    ensures EndsAt(p, START, k)
  {
    StartGood(p);
    hide Valid, Inv, RecordedOnce, Enough, Turned, EndsAt;
    var rank: nat -> nat, among: set<nat> :| Enough(p, rank, among);
    assert Good(p, START, [], rank, among);
    hide Good;
    var t := Aiming(p, START, [], rank, among);
    k := Ends(p, START, [], rank, among, t);
  }

  lemma StartGood(p: Plan)
    requires |p.metas| > 0
    ensures Inv(p, START, []) && RecordedOnce(p, [])
  {
  }

  lemma AcyclicCanEnd(p: Plan)
    requires Acyclic(p)
    ensures CanEnd(p)
  {
    hide Ranked;
    var rank: nat -> nat :| Ranked(p, rank, Below(|p.metas|));
    assert Enough(p, rank, Below(|p.metas|));
  }

  /** With every base recorded, the loop comes to its end exactly when the dependencies are
      recorded and not circular. */
  lemma EndsIffAcyclic(p: Plan)
    requires Valid(p) && BasesRecorded(p) && |p.metas| > 0
    ensures (exists k: nat :: EndsAt(p, START, k)) <==> Acyclic(p)
  {
    hide Valid, BasesRecorded, Acyclic, CanEnd, Turned;
    EndsIff(p);
    if k: nat :| EndsAt(p, START, k) {
      OnlyEnoughEnds(p, k);
    }
    if Acyclic(p) { AcyclicCanEnd(p); }
  }

  /** The base of meta pipeline `i` is scheduled, and all it depends on before it. */
  ghost predicate InOrder(p: Plan, scheduled: seq<Pipeline>, i: nat) {
    && i < |p.metas| && p.metas[i] != []
    && exists q :: 0 <= q < |scheduled| && scheduled[q] == Base(p, i) && DependenciesIn(p, i, scheduled[..q])
  }

  ghost predicate DependenciesIn(p: Plan, i: nat, before: seq<Pipeline>) {
    && i < |p.metas| && p.metas[i] != []
    && forall j :: 0 <= j < |p.deps(Base(p, i))| ==> p.deps(Base(p, i))[j] in before
  }

  /** Nothing is scheduled twice, and every base behind all its dependencies. */
  ghost predicate AllInOrder(p: Plan, scheduled: seq<Pipeline>) {
    NoRepeats(scheduled) && forall i: nat :: i < |p.metas| ==> InOrder(p, scheduled, i)
  }

  /** In a finished schedule of recorded bases every base occurs, behind all its dependencies. */
  lemma BaseInOrder(p: Plan, s: State, order: seq<nat>, i: nat)
    requires Valid(p) && BasesRecorded(p) && Inv(p, s, order) && NoRepeats(order)
    requires s.count == |p.metas| && i < |p.metas|
    ensures InOrder(p, s.scheduled, i)
  {
    Pigeons(order, |p.metas|);
    assert i in order;
    var k :| 0 <= k < |order| && order[k] == i;
    var before := Flat(p, order[..k]);
    FlatPrefix(p, order, k);
    BaseFirst(p, p.metas[i]);
    assert s.scheduled[..|before|] == before && s.scheduled[|before|] == Base(p, i);
    forall j | 0 <= j < |p.deps(Base(p, i))| ensures p.deps(Base(p, i))[j] in before {
      FlatHas(p, order[..k], p.deps(Base(p, i))[j]);
    }
    assert DependenciesIn(p, i, s.scheduled[..|before|]);
  }

  lemma FinishedInOrder(p: Plan, s: State, order: seq<nat>)
    requires Valid(p) && BasesRecorded(p) && Inv(p, s, order) && RecordedOnce(p, order) && s.count == |p.metas|
    ensures AllInOrder(p, s.scheduled)
  {
    OnceIsNoRepeats(p, s, order);
    ScheduledOnce(p, order);
    hide InOrder;
    forall i: nat | i < |p.metas| ensures InOrder(p, s.scheduled, i) {
      BaseInOrder(p, s, order, i);
    }
  }

  lemma OrderedIsRecorded(p: Plan, s: State, order: seq<nat>)
    requires Valid(p) && Inv(p, s, order) && AllInOrder(p, s.scheduled)
    ensures BasesRecorded(p)
  {
    forall i: nat | i < |p.metas| && p.metas[i] != [] ensures p.recorded(p.metas[i][0]) {
      assert InOrder(p, s.scheduled, i);
      BaseScheduledIff(p, s, order, i);
    }
  }

  /** Where the loop ends, it has done its job exactly when every base is recorded; and then
      the dependencies are not circular. */
  lemma EndedInOrderIff(p: Plan, k: nat)
    requires Valid(p) && |p.metas| > 0 && EndsAt(p, START, k)
    ensures AllInOrder(p, Turned(p, START, k).scheduled) <==> BasesRecorded(p)
    ensures BasesRecorded(p) ==> Acyclic(p)
  {
    StartGood(p);
    hide Valid, BasesRecorded, Inv, RecordedOnce, Turned, Acyclic, AllInOrder, CanEnd;
    OnlyEnoughEnds(p, k);
    var s := Turned(p, START, k);
    var order := TurnedKeeps(p, START, [], k);
    if BasesRecorded(p) { FinishedInOrder(p, s, order); }
    if AllInOrder(p, s.scheduled) { OrderedIsRecorded(p, s, order); }
  }

  /** For every plan: the loop ends with every base scheduled behind all its dependencies and
      nothing twice, if and only if every base is recorded, every dependency is recorded and
      the dependencies are not circular. */
  lemma SchedulesAllIff(p: Plan)
    requires Valid(p) && |p.metas| > 0
    ensures (exists k: nat :: EndsAt(p, START, k) && AllInOrder(p, Turned(p, START, k).scheduled))
            <==> BasesRecorded(p) && Acyclic(p)
  {
    hide Valid, BasesRecorded, Acyclic, Turned, AllInOrder, EndsAt;
    if k: nat :| EndsAt(p, START, k) && AllInOrder(p, Turned(p, START, k).scheduled) {
      EndedInOrderIff(p, k);
    }
    if BasesRecorded(p) && Acyclic(p) {
      AcyclicCanEnd(p);
      var k := EnoughEnds(p);
      EndedInOrderIff(p, k);
    }
  }

  lemma {:induction false} RecordedNoRepeats(p: Plan, ps: seq<Pipeline>)
    requires NoRepeats(ps)
    ensures NoRepeats(Recorded(p, ps))
    decreases |ps|
  {
    if ps != [] {
      RecordedNoRepeats(p, ps[..|ps| - 1]);
      RecordedHas(p, ps[..|ps| - 1], ps[|ps| - 1]);
    }
  }

  /** Nothing is scheduled twice. */
  lemma {:induction false} ScheduledOnce(p: Plan, order: seq<nat>)
    requires Valid(p) && NoRepeats(order) && forall k :: 0 <= k < |order| ==> order[k] < |p.metas|
    ensures NoRepeats(Flat(p, order))
    decreases |order|
  {
    if order != [] {
      var n := |order| - 1;
      var before, new_ := Flat(p, order[..n]), Recorded(p, p.metas[order[n]]);
      ScheduledOnce(p, order[..n]);
      RecordedNoRepeats(p, p.metas[order[n]]);
      forall x: Pipeline | x in new_ ensures x !in before {
        RecordedHas(p, p.metas[order[n]], x);
        FlatHas(p, order[..n], x);
      }
      assert NoRepeats(before + new_) by { JoinNoRepeats(before, new_); }
    }
  }

  lemma JoinNoRepeats(a: seq<nat>, b: seq<nat>)
    requires NoRepeats(a) && NoRepeats(b) && forall x: nat :: x in b ==> x !in a
    ensures NoRepeats(a + b)
  {
    forall k, l | 0 <= k < l < |a + b| ensures (a + b)[k] != (a + b)[l] {
      if k < |a| && l >= |a| { assert b[l - |a|] in b && a[k] in a; }
    }
  }

  lemma {:induction false} BaseFirst(p: Plan, ps: seq<Pipeline>)
    requires ps != [] && p.recorded(ps[0])
    ensures Recorded(p, ps) != [] && Recorded(p, ps)[0] == ps[0]
    decreases |ps|
  {
    if |ps| > 1 {
      BaseFirst(p, ps[..|ps| - 1]);
    } else {
      assert Recorded(p, ps[..0]) == [];
    }
  }

  lemma {:induction false} FlatPrefix(p: Plan, order: seq<nat>, k: nat)
    requires k < |order| && forall l :: 0 <= l < |order| ==> order[l] < |p.metas|
    ensures Flat(p, order[..k]) + Recorded(p, p.metas[order[k]]) <= Flat(p, order)
    decreases |order|
  {
    var n := |order| - 1;
    if k < n {
      assert order[..n][..k] == order[..k];
      FlatPrefix(p, order[..n], k);
    }
  }

  // ---- The loop --------------------------------------------------------------------------------------

  method DependenciesScheduled(p: Plan, scheduled: seq<Pipeline>, b: Pipeline) returns (all: bool)
    ensures all <==> forall k :: 0 <= k < |p.deps(b)| ==> p.deps(b)[k] in scheduled
  {
    var k := 0;
    while k < |p.deps(b)|
      invariant 0 <= k <= |p.deps(b)| && forall j :: 0 <= j < k ==> p.deps(b)[j] in scheduled
    {
      if p.deps(b)[k] !in scheduled { return false; }
      k := k + 1;
    }
    return true;
  }

  method Record(p: Plan, scheduled: seq<Pipeline>, ps: seq<Pipeline>) returns (r: seq<Pipeline>)
    ensures r == scheduled + Recorded(p, ps)
  {
    r := scheduled;
    var k := 0;
    assert ps[..0] == [] && ps[..|ps|] == ps;
    while k < |ps|
      invariant 0 <= k <= |ps| && r == scheduled + Recorded(p, ps[..k])
    {
      assert ps[..k + 1][..k] == ps[..k];
      if p.recorded(ps[k]) { r := r + [ps[k]]; }
      k := k + 1;
    }
  }

  method TakeTurn(p: Plan, scheduled0: seq<Pipeline>, count0: nat, meta0: nat)
    returns (scheduled: seq<Pipeline>, count: nat, meta: nat)
    requires meta0 < |p.metas| && p.metas[|p.metas| - 1 - meta0] != []
    ensures State(scheduled, count, meta) == Turn(p, State(scheduled0, count0, meta0)) && meta < |p.metas|
  {
    scheduled, count, meta := scheduled0, count0, meta0;
    var i := |p.metas| - 1 - meta;
    var b := p.metas[i][0];
    var should := false;
    if b !in scheduled {
      should := DependenciesScheduled(p, scheduled, b);
    }
    if should {
      scheduled := Record(p, scheduled, p.metas[i]);
      count := count + 1;
    }
    meta := (meta + 1) % |p.metas|;
  }

  /** The scheduling loop, for every plan on which it ends: it does its turns up to the first
      that fills the count, and has done its job exactly when every base is recorded. */
  method Schedule(p: Plan) returns (scheduled: seq<Pipeline>, ghost k: nat)
    requires Valid(p) && CanEnd(p)
    ensures |p.metas| > 0 ==> EndsAt(p, START, k) && scheduled == Turned(p, START, k).scheduled
    ensures AllInOrder(p, scheduled) <==> BasesRecorded(p)
  {
    hide Aim, Left, Inv, RecordedOnce, Enough, BasesRecorded, Valid, Turn, AllInOrder, Turned;
    scheduled, k := [], 0;
    var count: nat, meta: nat := 0, 0;
    var n := |p.metas|;
    if n == 0 {
      NothingToDo(p);
    } else {
      ghost var order: seq<nat> := [];
      StartGood(p);
      NoTurn(p, START);
      ghost var rank: nat -> nat, among: set<nat> :| Enough(p, rank, among);
      assert Good(p, START, order, rank, among);
      hide Good;
      ghost var t: nat := Aiming(p, START, order, rank, among);
      while count < n
        invariant count <= n && meta < n
        invariant State(scheduled, count, meta) == Turned(p, START, k)
        invariant forall j: nat :: j < k ==> Turned(p, START, j).count < n
        invariant Good(p, State(scheduled, count, meta), order, rank, among)
        invariant Aim(p, State(scheduled, count, meta), t)
        decreases n - count, Left(p, State(scheduled, count, meta), t)
      {
        ghost var s := State(scheduled, count, meta);
        order, t := Advance(p, s, order, rank, among, t);
        TurnedOn(p, START, k);
        scheduled, count, meta := TakeTurn(p, scheduled, count, meta);
        GoodBounds(p, Turn(p, s), order, rank, among);
        k := k + 1;
      }
      EndedInOrderIff(p, k);
    }
  }

  lemma NothingToDo(p: Plan)
    requires p.metas == []
    ensures AllInOrder(p, []) && BasesRecorded(p)
  {
  }

  /** A base that is not recorded is counted on every round: the loop can end with another
      meta pipeline never scheduled. */
  lemma UnrecordedBaseEndsEarly() returns (p: Plan, s: State)
    ensures Valid(p) && Acyclic(p.(recorded := _ => true)) && !BasesRecorded(p)
    ensures s == Turned(p, START, 3) && s.count == |p.metas| && Base(p, 0) !in s.scheduled
  {
    p := Plan([[1], [0]], x => if x == 1 then [0] else [], x => x == 1);
    assert p.metas[0] == [1] && p.metas[1] == [0];
    var s1, s2 := State([], 1, 1), State([], 1, 0);
    s := State([], 2, 1);
    FirstTurns(p, s1, s2, s);
    ExampleAcyclic(p);
    hide Turn, Acyclic;
    assert Turned(p, s, 0) == s;
    assert Turned(p, s2, 1) == Turned(p, s, 0);
    assert Turned(p, s1, 2) == Turned(p, s2, 1);
    assert Turned(p, START, 3) == Turned(p, s1, 2);
  }

  lemma FirstTurns(p: Plan, s1: State, s2: State, s3: State)
    requires p.metas == [[1], [0]] && p.deps(1) == [0] && p.deps(0) == [] && !p.recorded(0)
    requires s1 == State([], 1, 1) && s2 == State([], 1, 0) && s3 == State([], 2, 1)
    ensures Turn(p, START) == s1 && Turn(p, s1) == s2 && Turn(p, s2) == s3
  {
    assert Recorded(p, [0][..0]) == [] && Recorded(p, [0]) == [];
    assert p.deps(1)[0] == 0;
  }

  lemma ExampleAcyclic(p: Plan)
    requires p.metas == [[1], [0]] && p.deps(1) == [0] && p.deps(0) == []
    ensures Acyclic(p.(recorded := _ => true))
  {
    var p' := p.(recorded := _ => true);
    var rank := (i: nat) => if i == 0 then 1 else 0;
    assert 0 in p'.metas[1] && 1 in Below(2);
    assert Served(p', rank, Below(2), 0, 0);
    assert Ranked(p', rank, Below(2));
  }
}
