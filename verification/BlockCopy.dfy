/** Copying a run of bytes between two allocations cut into blocks of different sizes. */
module BlockCopy {
  import opened Common

  type Byte = bv8

  /** Where byte `k` lies in blocks of `b` bytes. */
  function BlockOf(k: nat, b: nat): nat
    requires b > 0
  {
    k / b
  }

  function OffsetOf(k: nat, b: nat): nat
    requires b > 0
  {
    k % b
  }

  lemma Located(k: nat, b: nat)
    requires b > 0
    ensures k == b * BlockOf(k, b) + OffsetOf(k, b) && OffsetOf(k, b) < b
  {
  }

  lemma Locate(k: nat, b: nat, i: nat, o: nat)
    requires b > 0 && k == b * i + o && o < b
    ensures BlockOf(k, b) == i && OffsetOf(k, b) == o
  {
    DivUnique(k, b, i, o);
    ModUnique(k, b, i, o);
  }

  lemma LessBlocks(b: nat, i: nat, n: nat)
    requires b > 0 && b * i < b * n
    ensures i < n
  {
    if i >= n { MulMonotone(b, n, i); }
  }

  lemma MulMonotone(b: nat, m: nat, n: nat)
    requires m <= n
    ensures b * m <= b * n
  {
    assert b * n == b * m + b * (n - m);
  }

  lemma NextBlock(b: nat, i: nat)
    ensures b * (i + 1) == b * i + b
  {
  }

  /** Byte `k` has a place within the blocks. */
  lemma Inside(k: nat, b: nat, n: nat)
    requires b > 0 && k < b * n
    ensures BlockOf(k, b) < n && OffsetOf(k, b) < b
  {
    Located(k, b);
    LessBlocks(b, BlockOf(k, b), n);
  }

  /** An allocation: blocks of one size, no two the same. */
  ghost predicate Allocation(blocks: seq<array<Byte>>, b: nat) {
    && (forall i :: 0 <= i < |blocks| ==> blocks[i].Length == b)
    && (forall i, j :: 0 <= i < j < |blocks| ==> blocks[i] != blocks[j])
  }

  ghost predicate Apart(src: seq<array<Byte>>, dst: seq<array<Byte>>) {
    forall i, j :: 0 <= i < |src| && 0 <= j < |dst| ==> src[i] != dst[j]
  }

  /** Byte `k` of an allocation. */
  function ByteAt(blocks: seq<array<Byte>>, b: nat, k: nat): Byte
    requires b > 0 && Allocation(blocks, b) && k < b * |blocks|
    reads set i | 0 <= i < |blocks| :: blocks[i]
  {
    Inside(k, b, |blocks|);
    blocks[BlockOf(k, b)][OffsetOf(k, b)]
  }

  /** Copies the first `size` bytes with one cursor in each allocation. Every access is
      within its block, and byte for byte the copy equals the source. */
  method CopyBlocks(src: seq<array<Byte>>, dst: seq<array<Byte>>, sb: nat, db: nat, size: nat)
    requires sb > 0 && db > 0 && Allocation(src, sb) && Allocation(dst, db) && Apart(src, dst)
    requires size <= sb * |src| && size <= db * |dst|
    modifies set i | 0 <= i < |dst| :: dst[i]
    ensures forall k: nat :: k < size ==> k < sb * |src| && k < db * |dst| && ByteAt(dst, db, k) == ByteAt(src, sb, k)
    ensures forall k: nat :: size <= k < db * |dst| ==> ByteAt(dst, db, k) == old(ByteAt(dst, db, k))
    ensures forall i :: 0 <= i < |src| ==> src[i][..] == old(src[i][..])
  {
    var si, so, di, do_ := 0, 0, 0, 0;
    var copied := 0;
    hide BlockOf, OffsetOf, ByteAt;
    while copied < size
      invariant 0 <= copied <= size && 0 <= si && 0 <= so < sb && 0 <= di && 0 <= do_ < db
      invariant copied == sb * si + so && copied == db * di + do_
      invariant forall k: nat :: k < copied ==> ByteAt(dst, db, k) == ByteAt(src, sb, k)
      invariant forall k: nat :: copied <= k < db * |dst| ==> ByteAt(dst, db, k) == old(ByteAt(dst, db, k))
      invariant forall i :: 0 <= i < |src| ==> src[i][..] == old(src[i][..])
      decreases size - copied
    {
      LessBlocks(sb, si, |src|);
      LessBlocks(db, di, |dst|);
      var n := Min(size - copied, Min(sb - so, db - do_));
      Copy(src, dst, sb, db, si, so, di, do_, n, copied);
      NextBlock(sb, si);
      NextBlock(db, di);
      copied := copied + n;
      so, do_ := so + n, do_ + n;
      if so == sb {
        si, so := si + 1, 0;
      }
      if do_ == db {
        di, do_ := di + 1, 0;
      }
    }
  }

  /** One memcpy between the two cursors: it extends the copied run by `n` bytes. */
  method Copy(src: seq<array<Byte>>, dst: seq<array<Byte>>, sb: nat, db: nat,
              si: nat, so: nat, di: nat, do_: nat, n: nat, ghost copied: nat)
    requires sb > 0 && db > 0 && Allocation(src, sb) && Allocation(dst, db) && Apart(src, dst)
    requires si < |src| && di < |dst| && so + n <= sb && do_ + n <= db && so < sb && do_ < db
    requires copied == sb * si + so && copied == db * di + do_ && copied + n <= sb * |src| && copied + n <= db * |dst|
    requires forall k: nat :: k < copied ==> ByteAt(dst, db, k) == ByteAt(src, sb, k)
    modifies dst[di]
    ensures forall k: nat :: k < copied + n ==> ByteAt(dst, db, k) == ByteAt(src, sb, k)
    ensures forall k: nat :: copied + n <= k < db * |dst| ==> ByteAt(dst, db, k) == old(ByteAt(dst, db, k))
    ensures forall i :: 0 <= i < |src| ==> src[i][..] == old(src[i][..])
  {
    var s, d := src[si], dst[di];
    forall j | 0 <= j < n { d[do_ + j] := s[so + j]; }
    forall k: nat | k < copied + n ensures ByteAt(dst, db, k) == ByteAt(src, sb, k) {
      Inside(k, sb, |src|);
      Inside(k, db, |dst|);
      Located(k, db);
      if k >= copied {
        Locate(k, sb, si, so + (k - copied));
        Locate(k, db, di, do_ + (k - copied));
      } else {
        assert old(ByteAt(dst, db, k)) == old(ByteAt(src, sb, k));
      }
    }
    forall k: nat | copied + n <= k < db * |dst| ensures ByteAt(dst, db, k) == old(ByteAt(dst, db, k)) {
      Inside(k, db, |dst|);
      Located(k, db);
    }
  }
}
