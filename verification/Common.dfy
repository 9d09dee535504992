/** Definitions shared by several components. */
module Common {

  datatype Option<+T> = None | Some(value: T)

  function Min(a: int, b: int): int {
    if a <= b then a else b
  }

  /** One more than the largest unsigned 64-bit number. */
  const WORD: nat := 0x1_0000_0000_0000_0000

  /** Concatenation of a sequence of sequences. */
  function Flatten<T>(ss: seq<seq<T>>): seq<T> {
    if ss == [] then [] else ss[0] + Flatten(ss[1..])
  }

  lemma {:induction false} FlattenAppend<T>(ss: seq<seq<T>>, t: seq<T>)
    ensures Flatten(ss + [t]) == Flatten(ss) + t
  {
    if ss == [] {
      assert ss + [t] == [t];
      assert Flatten([t]) == t + Flatten<T>([]);
    } else {
      assert (ss + [t])[1..] == ss[1..] + [t];
      FlattenAppend(ss[1..], t);
    }
  }

  function Sum(ns: seq<nat>): nat {
    if ns == [] then 0 else ns[0] + Sum(ns[1..])
  }

  lemma {:induction false} SumAppend(ns: seq<nat>, n: nat)
    ensures Sum(ns + [n]) == Sum(ns) + n
  {
    if ns == [] {
      assert ns + [n] == [n];
      assert Sum([n]) == n + Sum([]);
    } else {
      assert (ns + [n])[1..] == ns[1..] + [n];
      SumAppend(ns[1..], n);
    }
  }

  /** The sum of a sequence of multisets. */
  ghost function BagSum<T>(bags: seq<multiset<T>>): multiset<T> {
    if bags == [] then multiset{} else BagSum(bags[..|bags| - 1]) + bags[|bags| - 1]
  }

  lemma AddToBoth<T>(w: multiset<T>, x: multiset<T>, y: multiset<T>, z: multiset<T>, more: multiset<T>)
    requires w + x == y + z
    ensures (w + more) + x == (y + more) + z
  {
    assert (w + more) + x == (w + x) + more;
    assert (y + more) + z == (y + z) + more;
  }

  lemma {:induction false} BagSumUpdate<T>(bags: seq<multiset<T>>, i: nat, b: multiset<T>)
    requires i < |bags|
    ensures BagSum(bags[i := b]) + bags[i] == BagSum(bags) + b
  {
    var n := |bags| - 1;
    if i == n {
      assert bags[i := b][..n] == bags[..n];
    } else {
      var front := bags[..n];
      assert bags[i := b][..n] == front[i := b];
      BagSumUpdate(front, i, b);
      AddToBoth(BagSum(front[i := b]), front[i], BagSum(front), b, bags[n]);
    }
  }

  lemma BagSumAppend<T>(bags: seq<multiset<T>>, b: multiset<T>)
    ensures BagSum(bags + [b]) == BagSum(bags) + b
  {
    assert (bags + [b])[..|bags|] == bags;
  }

  lemma {:induction false} BagSumHas<T>(bags: seq<multiset<T>>, i: nat)
    requires i < |bags|
    ensures bags[i] <= BagSum(bags)
  {
    var n := |bags| - 1;
    if i < n {
      BagSumHas(bags[..n], i);
      assert bags[..n][i] == bags[i];
    }
  }

  lemma {:induction false} BagSumHasTwo<T>(bags: seq<multiset<T>>, i: nat, j: nat)
    requires i < j < |bags|
    ensures bags[i] + bags[j] <= BagSum(bags)
  {
    var n := |bags| - 1;
    if j < n {
      BagSumHasTwo(bags[..n], i, j);
    } else {
      BagSumHas(bags[..n], i);
      assert bags[..n][i] == bags[i];
    }
  }

  /** Quotient and remainder are unique. */
  lemma DivUnique(a: int, b: int, q: int, r: int)
    requires b > 0 && a == b * q + r && 0 <= r < b
    ensures a / b == q
  {
    var p := a / b;
    assert a == b * p + a % b;
    assert b * (p - q) == b * p - b * q;
    if p < q { MulGrows(b, q - p); }
    if p > q { MulGrows(b, p - q); }
  }

  lemma MulGrows(b: int, n: int)
    requires b > 0 && n >= 1
    ensures b * n >= b
  {
  }

  lemma ModUnique(a: int, b: int, q: int, r: int)
    requires b > 0 && a == b * q + r && 0 <= r < b
    ensures a % b == r
  {
    DivUnique(a, b, q, r);
    assert a == b * (a / b) + a % b;
  }
}
