/** The evictor's list of eviction candidates: one list cut into N buckets by N
    separators. Separator `i` is one past the end of bucket `i`; the last one is the end
    of the list. A list iterator is modelled by its position, so an insertion moves the
    separators at or behind it, as list iterators stay with their elements. */
module LruBuckets {
  import opened Common

  type EntryId = nat

  datatype Lru = Lru(list: seq<EntryId>, seps: seq<nat>)

  predicate Monotone(seps: seq<nat>) {
    forall i, j :: 0 <= i <= j < |seps| ==> seps[i] <= seps[j]
  }

  predicate Distinct(list: seq<EntryId>) {
    forall i, j :: 0 <= i < j < |list| ==> list[i] != list[j]
  }

  /** At least two buckets, separators in order, the last one at the end. */
  predicate Valid(l: Lru) {
    && |l.seps| >= 2 && Monotone(l.seps) && l.seps[|l.seps| - 1] == |l.list|
  }

  /** `b` is the bucket of position `k`: the first whose end is past `k`. */
  predicate InBucket(seps: seq<nat>, k: nat, b: nat) {
    b < |seps| && k < seps[b] && (b > 0 ==> seps[b - 1] <= k)
  }

  /** Every position is in exactly one bucket. */
  lemma BucketExists(l: Lru, k: nat) returns (b: nat)
    requires Valid(l) && k < |l.list|
    ensures InBucket(l.seps, k, b)
    ensures forall c: nat :: InBucket(l.seps, k, c) ==> c == b
  {
    b := 0;
    while l.seps[b] <= k
      invariant b < |l.seps| && (b > 0 ==> l.seps[b - 1] <= k)
      decreases |l.seps| - b
    {
      b := b + 1;
    }
    BucketUnique(l.seps, k, b);
  }

  lemma BucketUnique(seps: seq<nat>, k: nat, b: nat)
    requires Monotone(seps) && InBucket(seps, k, b)
    ensures forall c: nat :: InBucket(seps, k, c) ==> c == b
  {
    forall c: nat | c < |seps| && c != b ensures !InBucket(seps, k, c) {
      if c < b {
        assert seps[c] <= seps[b - 1];
      } else {
        assert seps[b] <= seps[c - 1];
      }
    }
  }

  // ---- Insert -------------------------------------------------------------------------

  /** The list with `x` as the new tail of bucket `b`. */
  function Inserted(l: Lru, x: EntryId, b: nat): Lru
    requires Valid(l) && b < |l.seps|
  {
    assert l.seps[b] <= l.seps[|l.seps| - 1];
    Lru(l.list[..l.seps[b]] + [x] + l.list[l.seps[b]..],
        seq(|l.seps|, i requires 0 <= i < |l.seps| => if i < b then l.seps[i] else l.seps[i] + 1))
  }

  lemma InsertedParts(l: Lru, x: EntryId, b: nat)
    requires Valid(l) && b < |l.seps|
    ensures l.seps[b] <= |l.list|
    ensures var l' := Inserted(l, x, b);
            && l'.list == l.list[..l.seps[b]] + [x] + l.list[l.seps[b]..]
            && |l'.seps| == |l.seps|
            && forall i :: 0 <= i < |l.seps| ==> l'.seps[i] == if i < b then l.seps[i] else l.seps[i] + 1
  {
    assert l.seps[b] <= l.seps[|l.seps| - 1];
  }

  /** Where an element at position `k` is after an insertion into bucket `b`. */
  function AfterInsert(l: Lru, b: nat, k: nat): nat
    requires b < |l.seps|
  {
    if k < l.seps[b] then k else k + 1
  }

  /** An insertion keeps the separators in order, makes the new element the last of the
      requested bucket, and leaves every other element in its bucket. */
  lemma InsertPlaces(l: Lru, x: EntryId, b: nat)
    requires Valid(l) && b < |l.seps|
    ensures var l', p := Inserted(l, x, b), l.seps[b];
            && Valid(l') && |l'.list| == |l.list| + 1 && |l'.seps| == |l.seps|
            && l'.list[p] == x && InBucket(l'.seps, p, b) && l'.seps[b] == p + 1
            && (forall k :: 0 <= k < |l.list| ==> l'.list[AfterInsert(l, b, k)] == l.list[k])
            && (forall k: nat, c: nat :: k < |l.list| && InBucket(l.seps, k, c) ==>
                  InBucket(l'.seps, AfterInsert(l, b, k), c))
  {
    var l', p := Inserted(l, x, b), l.seps[b];
    assert p <= l.seps[|l.seps| - 1];
    forall i, j | 0 <= i <= j < |l'.seps| ensures l'.seps[i] <= l'.seps[j] {
      assert l.seps[i] <= l.seps[j];
    }
    forall k: nat, c: nat | k < |l.list| && InBucket(l.seps, k, c) ensures InBucket(l'.seps, AfterInsert(l, b, k), c) {
      if c < b {
        assert l.seps[c] <= l.seps[b];
      } else if c > b {
        assert l.seps[b] <= l.seps[c - 1];
      }
    }
    if b > 0 { assert l.seps[b - 1] <= l.seps[b]; }
  }

  // ---- Erase --------------------------------------------------------------------------

  /** The list without position `k`; a separator at `k` moves to the next element. */
  function Erased(l: Lru, k: nat): Lru
    requires k < |l.list|
  {
    Lru(l.list[..k] + l.list[k + 1..],
        seq(|l.seps|, i requires 0 <= i < |l.seps| => if l.seps[i] <= k then l.seps[i] else l.seps[i] - 1))
  }

  /** Erasing removes one element, keeps the separators in order and leaves every other
      element in its bucket. */
  lemma ErasePlaces(l: Lru, k: nat)
    requires Valid(l) && k < |l.list|
    ensures var l' := Erased(l, k);
            && Valid(l') && |l'.list| == |l.list| - 1 && |l'.seps| == |l.seps|
            && (forall j :: 0 <= j < |l.list| && j != k ==> l'.list[if j < k then j else j - 1] == l.list[j])
            && (forall j: nat, c: nat :: j < |l.list| && j != k && InBucket(l.seps, j, c) ==>
                  InBucket(l'.seps, if j < k then j else j - 1, c))
  {
  }

  // ---- Aging --------------------------------------------------------------------------

  /** The separators after one shift: bucket `i` takes in bucket `i + 1`, and the last
      bucket keeps only the list's last element. */
  function Aged(l: Lru): Lru
    requires |l.seps| >= 2
  {
    if l.list == [] then l
    else
      Lru(l.list,
          seq(|l.seps|, i requires 0 <= i < |l.seps| =>
            if i == |l.seps| - 1 then |l.list| else Min(l.seps[i + 1], |l.list| - 1)))
  }

  lemma AgedParts(l: Lru)
    requires |l.seps| >= 2 && l.list != []
    ensures Aged(l).list == l.list && |Aged(l).seps| == |l.seps|
    ensures forall i :: 0 <= i < |l.seps| ==>
              Aged(l).seps[i] == if i == |l.seps| - 1 then |l.list| else Min(l.seps[i + 1], |l.list| - 1)
  {
  }

  /** Aging keeps the separators in order; it moves every element but the last one bucket
      down, those of bucket 0 staying, and puts the last one into the last bucket. */
  lemma AgePlaces(l: Lru)
    requires Valid(l)
    ensures Valid(Aged(l)) && Aged(l).list == l.list && |Aged(l).seps| == |l.seps|
    ensures forall k: nat, c: nat :: k < |l.list| - 1 && InBucket(l.seps, k, c) ==>
              InBucket(Aged(l).seps, k, if c == 0 then 0 else c - 1)
    ensures l.list != [] ==> InBucket(Aged(l).seps, |l.list| - 1, |l.seps| - 1)
  {
    var a := Aged(l);
    if l.list == [] { return; }
    AgedParts(l);
    hide Aged;
    forall i, j | 0 <= i <= j < |a.seps| ensures a.seps[i] <= a.seps[j] {
      if j < |l.seps| - 1 { assert l.seps[i + 1] <= l.seps[j + 1]; }
    }
    forall k: nat, c: nat | k < |l.list| - 1 && InBucket(l.seps, k, c)
      ensures InBucket(a.seps, k, if c == 0 then 0 else c - 1)
    {
      if c == 0 { assert l.seps[0] <= l.seps[1]; }
    }
  }

  function AgedTimes(l: Lru, n: nat): Lru
    requires |l.seps| >= 2
    ensures |AgedTimes(l, n).seps| == |l.seps| && AgedTimes(l, n).list == l.list
  {
    if n == 0 then l else Aged(AgedTimes(l, n - 1))
  }

  /** After `n` shifts separator `i` is the former separator `i + n`, at most at the last
      element. */
  lemma {:induction false} AgedTimesSeps(l: Lru, n: nat)
    requires Valid(l) && l.list != [] && n > 0
    ensures forall i :: 0 <= i < |l.seps| - 1 ==>
              AgedTimes(l, n).seps[i] == if i + n < |l.seps| then Min(l.seps[i + n], |l.list| - 1) else |l.list| - 1
    ensures AgedTimes(l, n).seps[|l.seps| - 1] == |l.list|
  {
    var before := AgedTimes(l, n - 1);
    if n > 1 {
      AgedTimesSeps(l, n - 1);
    }
    AgedParts(before);
    hide Aged;
  }

  /** After N - 1 shifts another shift changes nothing, so shifting min(delta, N) times
      gives what shifting delta times would. */
  lemma AgingSaturates(l: Lru, delta: nat)
    requires Valid(l)
    ensures delta >= |l.seps| - 1 ==> AgedTimes(l, delta) == AgedTimes(l, |l.seps| - 1)
    ensures AgedTimes(l, Min(delta, |l.seps|)) == AgedTimes(l, delta)
  {
    var n := |l.seps|;
    if l.list == [] {
      AgedTimesEmpty(l, delta);
      AgedTimesEmpty(l, n - 1);
      AgedTimesEmpty(l, Min(delta, n));
    } else if delta >= n - 1 {
      AgedTimesSeps(l, n - 1);
      AgedTimesSeps(l, delta);
      AgedTimesSeps(l, Min(delta, n));
      assert AgedTimes(l, delta).seps == AgedTimes(l, n - 1).seps;
      assert AgedTimes(l, Min(delta, n)).seps == AgedTimes(l, n - 1).seps;
    }
  }

  lemma {:induction false} AgedTimesEmpty(l: Lru, n: nat)
    requires |l.seps| >= 2 && l.list == []
    ensures AgedTimes(l, n) == l
  {
    if n > 0 { AgedTimesEmpty(l, n - 1); }
  }

  /** The bucket an entry belongs to: the last one for an entry asked for at least as
      often as the cache aged, lower ones for entries falling behind. */
  function BucketFor(nTotal: nat, age: int, n: nat): (b: nat)
    requires n >= 2
    ensures b < n
    ensures b == n - 1 <==> nTotal >= age
    ensures b == 0 <==> age - nTotal >= n - 1
    ensures 0 < b < n - 1 ==> age - nTotal == n - 1 - b
  {
    var idx := n - 1 + nTotal - age;
    if idx < 0 then 0 else if idx > n - 1 then n - 1 else idx
  }

  /** The evictor's list with its separators and the entries' membership flags. */
  class LruList {
    var list: seq<EntryId>
    const seps: array<nat>
    var inLru: set<EntryId>

    function State(): Lru
      reads this, seps
    {
      Lru(list, seps[..])
    }

    /** The flag of an entry is set exactly while it is on the list, once. */
    ghost predicate Ok()
      reads this, seps
    {
      && Valid(State()) && Distinct(list)
      && forall x :: x in inLru <==> x in list
    }

    constructor (n: nat)
      requires n >= 2
      ensures Ok() && fresh(seps) && seps.Length == n && list == []
    {
      seps := new nat[n](_ => 0);
      list, inLru := [], {};
    }

    /** Inserts before the separator that ends the bucket, then moves back the lower
        separators that coincided with the insertion point. */
    method Insert(x: EntryId, b: nat)
      requires Valid(State()) && b < seps.Length
      modifies this`list, seps
      ensures State() == Inserted(old(State()), x, b)
    {
      ghost var was := State();
      var pos := seps[b];
      InsertedParts(was, x, b);
      hide Inserted;
      list := list[..pos] + [x] + list[pos..];
      forall i | 0 <= i < seps.Length && seps[i] >= pos { seps[i] := seps[i] + 1; }
      var i := b;
      while i > 0 && seps[i - 1] == pos + 1
        modifies seps
        invariant 0 <= i <= b
        invariant forall j :: 0 <= j < i ==> seps[j] == if was.seps[j] >= pos then was.seps[j] + 1 else was.seps[j]
        invariant forall j :: i <= j < b ==> was.seps[j] == pos && seps[j] == pos
        invariant forall j :: b <= j < seps.Length ==> seps[j] == was.seps[j] + 1
      {
        seps[i - 1] := pos;
        i := i - 1;
      }
      forall j | 0 <= j < i ensures was.seps[j] < pos {
        assert was.seps[j] <= was.seps[i - 1] <= was.seps[b];
      }
      assert seps[..] == Inserted(was, x, b).seps;
    }

    method Erase(k: nat)
      requires Valid(State()) && k < |list|
      modifies this`list, seps
      ensures State() == Erased(old(State()), k)
    {
      ghost var was := State();
      forall i | 0 <= i < seps.Length && seps[i] == k { seps[i] := k + 1; }
      list := list[..k] + list[k + 1..];
      forall i | 0 <= i < seps.Length && seps[i] > k { seps[i] := seps[i] - 1; }
      assert seps[..] == Erased(was, k).seps;
    }

    method Age()
      requires Valid(State())
      modifies seps
      ensures State() == Aged(old(State()))
    {
      if list == [] { return; }
      ghost var was := State();
      var n := seps.Length;
      var i := 0;
      AgedParts(was);
      hide Aged;
      while i + 1 < n
        invariant 0 <= i <= n - 1
        invariant forall j :: 0 <= j < i ==> seps[j] == was.seps[j + 1]
        invariant forall j :: i <= j < n ==> seps[j] == was.seps[j]
      {
        seps[i] := seps[i + 1];
        i := i + 1;
      }
      var last := |list| - 1;
      seps[n - 2] := last;
      i := n - 2;
      while i > 0 && seps[i - 1] == |list|
        invariant 0 <= i <= n - 2
        invariant forall j :: 0 <= j < i ==> seps[j] == was.seps[j + 1]
        invariant forall j :: i <= j <= n - 2 ==> was.seps[j + 1] == |list| && seps[j] == last
        invariant seps[n - 1] == |list|
      {
        seps[i - 1] := last;
        i := i - 1;
      }
      forall j | 1 <= j <= i ensures was.seps[j] <= last {
        assert was.seps[j] <= was.seps[i] <= was.seps[n - 1];
      }
      assert seps[..] == Aged(was).seps;
    }

    /** Shifts once per epoch since `seen`, at most N times: the effect is that of
        shifting once per epoch. */
    method CatchUp(age: int, seen: int) returns (seen': int)
      requires Valid(State())
      modifies seps
      ensures Valid(State()) && |State().seps| == |old(State()).seps|
      ensures State() == AgedTimes(old(State()), if age > seen then age - seen else 0)
      ensures seen' == if age > seen then age else seen
    {
      var delta := age - seen;
      if delta <= 0 { return seen; }
      ghost var was := State();
      assert |was.seps| == seps.Length >= 2;
      var shifts := Min(delta, seps.Length);
      var i := 0;
      while i < shifts
        invariant 0 <= i <= shifts && Valid(State()) && State() == AgedTimes(was, i)
      {
        AgePlaces(State());
        Age();
        i := i + 1;
      }
      AgingSaturates(was, delta);
      return age;
    }

    /** Files the candidates that are not on the list yet into their buckets. A pair
        holds a candidate and how often it was asked for. */
    method Drain(candidates: seq<(EntryId, nat)>, age: int)
      requires Ok()
      modifies this, seps
      ensures Ok()
      ensures forall x :: x in list <==> x in old(list) || exists k :: 0 <= k < |candidates| && candidates[k].0 == x
    {
      var k := 0;
      while k < |candidates|
        invariant 0 <= k <= |candidates| && Ok()
        invariant forall x :: x in list <==> x in old(list) || exists j :: 0 <= j < k && candidates[j].0 == x
      {
        var (x, nTotal) := candidates[k];
        if x !in inLru {
          var b := BucketFor(nTotal, age, seps.Length);
          InsertPlaces(State(), x, b);
          InsertDistinct(State(), x, b);
          Insert(x, b);
          inLru := inLru + {x};
        }
        k := k + 1;
      }
    }
  }

  lemma InsertDistinct(l: Lru, x: EntryId, b: nat)
    requires Valid(l) && b < |l.seps| && Distinct(l.list) && x !in l.list
    ensures Distinct(Inserted(l, x, b).list)
    ensures forall y :: y in Inserted(l, x, b).list <==> y == x || y in l.list
  {
    var p := l.seps[b];
    assert p <= l.seps[|l.seps| - 1];
    assert l.list == l.list[..p] + l.list[p..];
  }
}
