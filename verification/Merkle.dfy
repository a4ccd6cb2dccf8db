/**
 * Merkle trees kept as one flat vector, row after row, the last entry of an odd row paired with itself
 * (src/main.h:843-891).  The digest of two concatenated digests is a parameter; soundness needs it injective.
 */
module Merkle {
  import opened Common

  type Digest = nat
  type PairHash = (Digest, Digest) -> Digest

  ghost predicate Injective(h: PairHash) {
    forall a, b, c, d :: h(a, b) == h(c, d) ==> a == c && b == d
  }

  lemma PairParts(h: PairHash, a: Digest, b: Digest, c: Digest, d: Digest)
    requires Injective(h) && h(a, b) == h(c, d)
    ensures a == c && b == d
  {
  }

  /** The digest over entries 2i and 2i+1 of `row`, the last entry standing in for a missing partner. */
  function ParentAt(h: PairHash, row: seq<Digest>, i: nat): Digest
    requires 2 * i < |row|
  {
    h(row[2 * i], row[Min(2 * i + 1, |row| - 1)])
  }

  /** The row above `row`. */
  function Parents(h: PairHash, row: seq<Digest>): (up: seq<Digest>)
    ensures |up| == (|row| + 1) / 2
    ensures forall i :: 0 <= i < |up| ==> up[i] == ParentAt(h, row, i)
  {
    seq((|row| + 1) / 2, i requires 0 <= i < (|row| + 1) / 2 => ParentAt(h, row, i))
  }

  /** The digest at the top of the tree over `row`; an empty block has root 0. */
  function Root(h: PairHash, row: seq<Digest>): Digest
    decreases |row|
  {
    if |row| == 0 then 0 else if |row| == 1 then row[0] else Root(h, Parents(h, row))
  }

  /** All rows of the tree over `row`, bottom row first. */
  function FlatTree(h: PairHash, row: seq<Digest>): (tree: seq<Digest>)
    decreases |row|
  {
    if |row| <= 1 then row else row + FlatTree(h, Parents(h, row))
  }

  lemma FlatTreeRows(h: PairHash, row: seq<Digest>)
    requires |row| > 1
    ensures FlatTree(h, row) == row + FlatTree(h, Parents(h, row))
  {
  }

  lemma FlatTreeOne(h: PairHash, row: seq<Digest>)
    requires |row| <= 1
    ensures FlatTree(h, row) == row
  {
  }

  /** The last entry of the flat tree is the root. */
  lemma {:induction false} FlatTreeTop(h: PairHash, row: seq<Digest>)
    ensures if row == [] then FlatTree(h, row) == [] && Root(h, row) == 0
            else |FlatTree(h, row)| > 0 && FlatTree(h, row)[|FlatTree(h, row)| - 1] == Root(h, row)
    decreases |row|
  {
    if |row| > 1 {
      FlatTreeTop(h, Parents(h, row));
    }
  }

  /** The number of rows above a row of n entries. */
  function Height(n: nat): nat {
    if n <= 1 then 0 else 1 + Height((n + 1) / 2)
  }

  /** The neighbour of position n in its pair: n with its lowest bit flipped. */
  function Sibling(n: nat): nat {
    if n % 2 == 0 then n + 1 else n - 1
  }

  /** What has to be hashed onto entry `index` of `row`, row by row, to reach the root. */
  function Branch(h: PairHash, row: seq<Digest>, index: nat): (branch: seq<Digest>)
    decreases |row|
    ensures |branch| == Height(|row|)
  {
    if |row| <= 1 then [] else [row[Min(Sibling(index), |row| - 1)]] + Branch(h, Parents(h, row), index / 2)
  }

  lemma BranchStep(h: PairHash, row: seq<Digest>, index: nat)
    requires |row| > 1
    ensures 0 <= Min(Sibling(index), |row| - 1) < |row|
    ensures Branch(h, row, index) == [row[Min(Sibling(index), |row| - 1)]] + Branch(h, Parents(h, row), index / 2)
  {
  }

  lemma BranchEnd(h: PairHash, row: seq<Digest>, index: nat)
    requires |row| <= 1
    ensures Branch(h, row, index) == []
  {
  }

  /** Hashing a branch onto a digest, on the side given by the bits of `index`. */
  function Fold(h: PairHash, hash: Digest, branch: seq<Digest>, index: int): Digest
    decreases |branch|
  {
    if branch == [] then hash
    else if index % 2 == 1 then Fold(h, h(branch[0], hash), branch[1..], index / 2)
    else Fold(h, h(hash, branch[0]), branch[1..], index / 2)
  }

  /** A branch taken from the tree leads from its leaf to the root, whatever the number of leaves. */
  lemma {:induction false} BranchReachesRoot(h: PairHash, row: seq<Digest>, index: nat)
    requires index < |row|
    ensures Fold(h, row[index], Branch(h, row, index), index) == Root(h, row)
    decreases |row|
  {
    hide Parents;
    if |row| > 1 {
      var branch := Branch(h, row, index);
      assert branch[1..] == Branch(h, Parents(h, row), index / 2);
      assert Parents(h, row)[index / 2] == ParentAt(h, row, index / 2);
      BranchReachesRoot(h, Parents(h, row), index / 2);
    }
  }

  lemma FoldStep(h: PairHash, hash: Digest, branch: seq<Digest>, index: nat)
    requires branch != []
    ensures Fold(h, hash, branch, index) == Fold(h, Joined(h, hash, branch[0], index), branch[1..], index / 2)
  {
  }

  /** The digest of a pair, the position telling the side of the first argument. */
  function Joined(h: PairHash, hash: Digest, other: Digest, index: nat): Digest {
    if index % 2 == 1 then h(other, hash) else h(hash, other)
  }

  /** The parent of an entry is joined from it and its neighbour, and from nothing else. */
  lemma JoinedParent(h: PairHash, row: seq<Digest>, index: nat, hash: Digest, other: Digest)
    requires Injective(h) && index < |row| && |row| > 1
    ensures 0 <= Min(Sibling(index), |row| - 1)
    ensures Joined(h, hash, other, index) == ParentAt(h, row, index / 2)
       <==> hash == row[index] && other == row[Min(Sibling(index), |row| - 1)]
  {
    hide Injective;
    if Joined(h, hash, other, index) == ParentAt(h, row, index / 2) {
      if index % 2 == 1 {
        PairParts(h, other, hash, row[index - 1], row[index]);
      } else {
        PairParts(h, hash, other, row[index], row[Min(index + 1, |row| - 1)]);
      }
    }
  }

  /** Nothing but the leaf, with nothing but the tree's own branch, reaches the root at the leaf's position. */
  lemma {:induction false} OnlyTheLeafReachesRoot(h: PairHash, row: seq<Digest>, index: nat, hash: Digest, branch: seq<Digest>)
    requires Injective(h)
    requires index < |row| && |branch| == Height(|row|)
    ensures Fold(h, hash, branch, index) == Root(h, row) <==> hash == row[index] && branch == Branch(h, row, index)
    decreases |row|
  {
    hide Injective, Parents, ParentAt, Joined, Fold, Branch, Min, Sibling;
    if |row| > 1 {
      FoldStep(h, hash, branch, index);
      JoinedParent(h, row, index, hash, branch[0]);
      OnlyTheLeafReachesRoot(h, Parents(h, row), index / 2, Joined(h, hash, branch[0], index), branch[1..]);
      assert Parents(h, row)[index / 2] == ParentAt(h, row, index / 2);
      BranchStep(h, row, index);
      assert branch == [branch[0]] + branch[1..];
    } else {
      NoBranch(h, row, hash, branch, index);
    }
  }

  lemma NoBranch(h: PairHash, row: seq<Digest>, hash: Digest, branch: seq<Digest>, index: nat)
    requires |row| == 1 && index == 0 && branch == []
    ensures Fold(h, hash, branch, index) == hash && Branch(h, row, index) == []
  {
  }

  // ---------- which lists share a root ----------

  function Pow2(n: nat): nat {
    if n == 0 then 1 else 2 * Pow2(n - 1)
  }

  /**
   * The leaf at position p of the bottom row of the full tree over n leaves: an odd row is completed by its last entry,
   * so that the leaves near the end may stand at several positions.
   */
  function LeafAt(n: nat, p: nat): (k: nat)
    requires n > 0
    ensures k < n
    decreases n
  {
    if n == 1 then 0 else Min(2 * LeafAt((n + 1) / 2, p / 2) + p % 2, n - 1)
  }

  ghost predicate SameAt(a: seq<Digest>, b: seq<Digest>, p: nat)
    requires a != [] && b != []
  {
    a[LeafAt(|a|, p)] == b[LeafAt(|b|, p)]
  }

  /** The two lists fill the bottom row of the full tree in the same way. */
  ghost predicate SameBottomRow(a: seq<Digest>, b: seq<Digest>)
    requires a != [] && b != []
  {
    forall p: nat :: p < Pow2(Height(|a|)) ==> SameAt(a, b, p)
  }

  lemma LeafAtPair(n: nat, q: nat)
    requires n > 1
    ensures var i := LeafAt((n + 1) / 2, q);
      LeafAt(n, 2 * q) == 2 * i && LeafAt(n, 2 * q + 1) == Min(2 * i + 1, n - 1)
  {
    assert 2 * q / 2 == q && (2 * q + 1) / 2 == q;
  }

  /** Two parents are equal exactly when their children are. */
  lemma SameParents(h: PairHash, a: seq<Digest>, b: seq<Digest>, q: nat)
    requires |a| > 1 && |b| > 1
    ensures SameAt(a, b, 2 * q) && SameAt(a, b, 2 * q + 1) ==> SameAt(Parents(h, a), Parents(h, b), q)
    ensures Injective(h) && SameAt(Parents(h, a), Parents(h, b), q) ==> SameAt(a, b, 2 * q) && SameAt(a, b, 2 * q + 1)
  {
    hide Injective, Parents, LeafAt;
    LeafAtPair(|a|, q);
    LeafAtPair(|b|, q);
    var i, j := LeafAt((|a| + 1) / 2, q), LeafAt((|b| + 1) / 2, q);
    assert Parents(h, a)[i] == ParentAt(h, a, i) && Parents(h, b)[j] == ParentAt(h, b, j);
    if Injective(h) && SameAt(Parents(h, a), Parents(h, b), q) {
      PairParts(h, a[2 * i], a[Min(2 * i + 1, |a| - 1)], b[2 * j], b[Min(2 * j + 1, |b| - 1)]);
    }
  }

  lemma HeightOfOne(n: nat)
    requires n > 0
    ensures Height(n) == 0 <==> n == 1
    ensures n > 1 ==> Height(n) == 1 + Height((n + 1) / 2)
  {
  }

  lemma SameRowAbove(h: PairHash, a: seq<Digest>, b: seq<Digest>)
    requires |a| > 1 && |b| > 1
    ensures SameBottomRow(a, b) ==> SameBottomRow(Parents(h, a), Parents(h, b))
    ensures Injective(h) && SameBottomRow(Parents(h, a), Parents(h, b)) ==> SameBottomRow(a, b)
  {
    hide Injective, Parents, SameAt;
    var n := Pow2(Height((|a| + 1) / 2));
    assert Pow2(Height(|a|)) == 2 * n;
    if SameBottomRow(a, b) {
      forall q: nat | q < n
        ensures SameAt(Parents(h, a), Parents(h, b), q)
      {
        SameParents(h, a, b, q);
      }
    }
    if Injective(h) && SameBottomRow(Parents(h, a), Parents(h, b)) {
      forall p: nat | p < 2 * n
        ensures SameAt(a, b, p)
      {
        SameParents(h, a, b, p / 2);
        assert p == 2 * (p / 2) || p == 2 * (p / 2) + 1;
      }
    }
  }

  /** Lists that fill the bottom row in the same way have the same root, whatever the hash. */
  lemma {:induction false} SameRowSameRoot(h: PairHash, a: seq<Digest>, b: seq<Digest>)
    requires a != [] && b != [] && Height(|a|) == Height(|b|) && SameBottomRow(a, b)
    ensures Root(h, a) == Root(h, b)
    decreases |a|
  {
    hide Parents, SameBottomRow;
    HeightOfOne(|a|);
    HeightOfOne(|b|);
    if |a| > 1 {
      SameRowAbove(h, a, b);
      SameRowSameRoot(h, Parents(h, a), Parents(h, b));
    } else {
      OneLeaf(a, b);
    }
  }

  lemma OneLeaf(a: seq<Digest>, b: seq<Digest>)
    requires |a| == 1 && |b| == 1
    ensures SameBottomRow(a, b) <==> a == b
  {
    assert SameAt(a, b, 0) <==> a[0] == b[0];
    assert SameBottomRow(a, b) ==> SameAt(a, b, 0);
  }

  /** Lists of one tree height have the same root exactly when they fill the bottom row in the same way. */
  lemma {:induction false} SameRootIff(h: PairHash, a: seq<Digest>, b: seq<Digest>)
    requires Injective(h) && a != [] && b != [] && Height(|a|) == Height(|b|)
    ensures Root(h, a) == Root(h, b) <==> SameBottomRow(a, b)
    decreases |a|
  {
    hide Injective, Parents, SameBottomRow;
    HeightOfOne(|a|);
    HeightOfOne(|b|);
    if |a| > 1 {
      SameRowAbove(h, a, b);
      SameRootIff(h, Parents(h, a), Parents(h, b));
    } else {
      OneLeaf(a, b);
    }
  }

  /** Row k of the tree over `row`, counted from the bottom. */
  function RowAt(h: PairHash, row: seq<Digest>, k: nat): (r: seq<Digest>)
    requires row != [] && k <= Height(|row|)
    ensures r != [] && Height(|r|) == Height(|row|) - k
    decreases k
  {
    if k == 0 then row else RowAt(h, Parents(h, row), k - 1)
  }

  lemma {:induction false} RootOfRow(h: PairHash, row: seq<Digest>, k: nat)
    requires row != [] && k <= Height(|row|)
    ensures Root(h, RowAt(h, row, k)) == Root(h, row)
    decreases k
  {
    if k > 0 {
      RootOfRow(h, Parents(h, row), k - 1);
    }
  }

  /**
   * For any two lists: they have the same root exactly when the lower tree's leaves fill their row as the entries of
   * the row of that height in the higher tree do.
   */
  lemma SameRootAnyHeight(h: PairHash, a: seq<Digest>, b: seq<Digest>)
    requires Injective(h) && a != [] && b != [] && Height(|a|) <= Height(|b|)
    ensures Root(h, a) == Root(h, b) <==> SameBottomRow(a, RowAt(h, b, Height(|b|) - Height(|a|)))
  {
    hide Injective, Height, Root, SameBottomRow, RowAt;
    var k := Height(|b|) - Height(|a|);
    RootOfRow(h, b, k);
    SameRootIff(h, a, RowAt(h, b, k));
  }

  /** So lists of different heights can share a root. */
  lemma PairAndItsDigest(h: PairHash, x: Digest, y: Digest)
    ensures Root(h, [h(x, y)]) == Root(h, [x, y]) && Height(|[h(x, y)]|) != Height(|[x, y]|)
  {
    assert Parents(h, [x, y]) == [h(x, y)];
  }

  /** Each leaf stands at the position that is its number. */
  lemma {:induction false} LeafInPlace(n: nat, k: nat)
    requires k < n
    ensures LeafAt(n, k) == k && k < Pow2(Height(n))
    decreases n
  {
    if n > 1 {
      LeafInPlace((n + 1) / 2, k / 2);
    }
  }

  /** Two lists of the same length with the same root are the same list. */
  lemma RootDeterminesLeaves(h: PairHash, a: seq<Digest>, b: seq<Digest>)
    requires Injective(h)
    requires |a| == |b| && Root(h, a) == Root(h, b)
    ensures a == b
  {
    if a != [] {
      SameRootIff(h, a, b);
      forall k | 0 <= k < |a|
        ensures a[k] == b[k]
      {
        LeafInPlace(|a|, k);
        assert SameAt(a, b, k);
      }
    }
  }

  /** The length has to be known: repeating the last leaf of an odd list leaves the root as it was. */
  lemma RepeatedLastLeafKeepsRoot(h: PairHash, row: seq<Digest>)
    requires |row| > 1 && |row| % 2 == 1
    ensures row + [row[|row| - 1]] != row
    ensures Root(h, row + [row[|row| - 1]]) == Root(h, row)
  {
    var n, longer := |row|, row + [row[|row| - 1]];
    assert |longer| == n + 1 && (n + 2) / 2 == (n + 1) / 2;
    forall p: nat
      ensures SameAt(longer, row, p)
    {
      assert LeafAt(n + 1, p) == LeafAt(n, p) || (LeafAt(n + 1, p) == n && LeafAt(n, p) == n - 1);
    }
    SameRowSameRoot(h, longer, row);
  }

  /** The tree part of a block: the digests of its transactions and the cached flat tree. */
  class MerkleBlock {
    const vtx: seq<Digest>
    const h: PairHash
    var vMerkleTree: seq<Digest>

    ghost predicate Valid()
      reads this
    {
      vMerkleTree == [] || vMerkleTree == FlatTree(h, vtx)
    }

    constructor (h: PairHash, vtx: seq<Digest>)
      ensures Valid() && this.h == h && this.vtx == vtx
    {
      this.h := h;
      this.vtx := vtx;
      vMerkleTree := [];
    }

    /** One pass of the inner loop: the row of nSize entries from position j gets its parents appended. */
    method BuildRow(j: nat, nSize: nat)
      requires nSize > 1 && |vMerkleTree| == j + nSize
      modifies this
      ensures vMerkleTree == old(vMerkleTree) + Parents(h, old(vMerkleTree)[j..])
      ensures vMerkleTree[..j + nSize] == old(vMerkleTree)
      ensures vMerkleTree[j + nSize..] == Parents(h, old(vMerkleTree)[j..])
    {
      hide Parents;
      ghost var before := vMerkleTree;
      ghost var up := Parents(h, before[j..]);
      var i: nat := 0;
      while i < nSize
        invariant i % 2 == 0 && i <= nSize + 1
        invariant vMerkleTree == before + up[..i / 2]
      {
        var i2 := Min(i + 1, nSize - 1);
        assert up[i / 2] == ParentAt(h, before[j..], i / 2) == h(before[j + i], before[j + i2]);
        vMerkleTree := vMerkleTree + [h(vMerkleTree[j + i], vMerkleTree[j + i2])];
        i := i + 2;
      }
    }

    method BuildMerkleTree() returns (root: Digest)
      modifies this
      ensures Valid() && vMerkleTree == FlatTree(h, vtx)
      ensures root == Root(h, vtx)
    {
      hide Parents, FlatTree;
      vMerkleTree := vtx;
      var j: nat := 0;
      var nSize: nat := |vtx|;
      while nSize > 1
        invariant |vMerkleTree| == j + nSize
        invariant nSize == 0 ==> |vtx| == 0
        invariant FlatTree(h, vtx) == vMerkleTree[..j] + FlatTree(h, vMerkleTree[j..])
        decreases nSize
      {
        FlatTreeRows(h, vMerkleTree[j..]);
        BuildRow(j, nSize);
        j := j + nSize;
        nSize := (nSize + 1) / 2;
      }
      FlatTreeTop(h, vtx);
      FlatTreeOne(h, vMerkleTree[j..]);
      assert FlatTree(h, vtx) == vMerkleTree;
      root := if vMerkleTree == [] then 0 else vMerkleTree[|vMerkleTree| - 1];
    }

    method GetMerkleBranch(nIndex: nat) returns (vMerkleBranch: seq<Digest>)
      requires Valid()
      modifies this
      ensures Valid()
      ensures vMerkleBranch == Branch(h, vtx, nIndex)
    {
      hide Parents, FlatTree, Branch, Min, Sibling;
      if vMerkleTree == [] {
        var _ := BuildMerkleTree();
      }
      vMerkleBranch := [];
      var j: nat := 0;
      var nSize: nat := |vtx|;
      var n := nIndex;
      ghost var row := vtx;
      while nSize > 1
        invariant Valid()
        invariant |row| == nSize && j <= |vMerkleTree| && vMerkleTree[j..] == FlatTree(h, row)
        invariant vMerkleBranch + Branch(h, row, n) == Branch(h, vtx, nIndex)
        decreases nSize
      {
        var i := Min(Sibling(n), nSize - 1);
        FlatTreeRows(h, row);
        BranchStep(h, row, n);
        assert vMerkleTree[j + i] == vMerkleTree[j..][i] == row[i];
        vMerkleBranch := vMerkleBranch + [vMerkleTree[j + i]];
        n := n / 2;
        assert vMerkleTree[j..][nSize..] == vMerkleTree[j + nSize..];
        row := Parents(h, row);
        j := j + nSize;
        nSize := (nSize + 1) / 2;
      }
      BranchEnd(h, row, n);
    }
  }

  method CheckMerkleBranch(h: PairHash, hash: Digest, vMerkleBranch: seq<Digest>, nIndex: int) returns (r: Digest)
    ensures nIndex == -1 ==> r == 0
    ensures nIndex != -1 ==> r == Fold(h, hash, vMerkleBranch, nIndex)
  {
    if nIndex == -1 {
      return 0;
    }
    r := hash;
    var n := nIndex;
    var k := 0;
    while k < |vMerkleBranch|
      invariant 0 <= k <= |vMerkleBranch|
      invariant Fold(h, r, vMerkleBranch[k..], n) == Fold(h, hash, vMerkleBranch, nIndex)
    {
      var otherside := vMerkleBranch[k];
      assert vMerkleBranch[k..][1..] == vMerkleBranch[k + 1..];
      if n % 2 == 1 {
        r := h(otherside, r);
      } else {
        r := h(r, otherside);
      }
      n := n / 2;
      k := k + 1;
    }
  }

  /** The round trip through the three operations: building, branching and checking meet at the root. */
  method ProveInclusion(block: MerkleBlock, nIndex: nat) returns (root: Digest, reached: Digest)
    requires nIndex < |block.vtx|
    modifies block
    ensures root == Root(block.h, block.vtx)
    ensures reached == root
  {
    root := block.BuildMerkleTree();
    var branch := block.GetMerkleBranch(nIndex);
    reached := CheckMerkleBranch(block.h, block.vtx[nIndex], branch, nIndex);
    BranchReachesRoot(block.h, block.vtx, nIndex);
  }
}
