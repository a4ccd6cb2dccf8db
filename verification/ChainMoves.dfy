/** When a node can move its best chain to a block, as a matter of the blocks and of the checks outside this model. */
module ChainMoves {
  import opened Common
  import opened Transactions
  import opened TxIndexing
  import opened ChainLinks

  /**
   * The outcome, block by block, of the checks outside this model: signatures, proof of work or stake, sizes and
   * masternode payees.
   */
  type Verdict = BlockIndex -> bool

  /** The blocks that the chain of `to` has and that of `from` does not have all pass. */
  ghost predicate AllPass(verdict: Verdict, from: BlockIndex, to: BlockIndex) {
    forall b :: IsAncestor(b, to) && !IsAncestor(b, from) ==> verdict(b)
  }

  /** The chain of `to` replays, and what it adds to the chain of `from` passes. */
  ghost predicate CanReach(verdict: Verdict, from: BlockIndex, to: BlockIndex) {
    Replay(to).Some? && AllPass(verdict, from, to)
  }

  lemma {:induction false} ReplayAncestor(a: BlockIndex, b: BlockIndex)
    requires Replay(b).Some? && IsAncestor(a, b)
    ensures Replay(a).Some?
  {
    if a != b {
      ReplayAncestor(a, b.pprev);
    }
  }

  /** Whoever gets to a block gets to its ancestors. */
  lemma CanReachAncestor(verdict: Verdict, from: BlockIndex, a: BlockIndex, b: BlockIndex)
    requires CanReach(verdict, from, b) && IsAncestor(a, b)
    ensures CanReach(verdict, from, a)
  {
    ReplayAncestor(a, b);
    forall x | IsAncestor(x, a) && !IsAncestor(x, from)
      ensures verdict(x)
    {
      AncestorTransitive(x, a, b);
    }
  }

  lemma CanReachSelf(verdict: Verdict, f: BlockIndex)
    ensures CanReach(verdict, f, f) <==> Replay(f).Some?
  {
  }

  /** One block more. */
  lemma CanReachStep(verdict: Verdict, f: BlockIndex, b: BlockIndex)
    requires b.Child? && IsAncestor(f, b.pprev)
    ensures CanReach(verdict, f, b) <==> CanReach(verdict, f, b.pprev) && verdict(b) && Replay(b).Some?
  {
    if IsAncestor(b, f) {
      AncestorHeight(b, f);
      AncestorHeight(f, b.pprev);
    }
    if CanReach(verdict, f, b) {
      CanReachAncestor(verdict, f, b.pprev, b);
    }
  }

  /** Only the fork matters of the chain that is left. */
  lemma CanReachFromFork(verdict: Verdict, f: BlockIndex, from: BlockIndex, to: BlockIndex)
    requires IsLastCommonAncestor(f, from, to)
    ensures CanReach(verdict, f, to) <==> CanReach(verdict, from, to)
  {
    forall x | IsAncestor(x, to)
      ensures IsAncestor(x, f) <==> IsAncestor(x, from)
    {
      if IsAncestor(x, f) {
        AncestorTransitive(x, f, from);
      }
    }
  }

  /** Getting to b by way of a block that is not in the chain left. */
  lemma CanReachBetween(verdict: Verdict, from: BlockIndex, mid: BlockIndex, b: BlockIndex)
    requires IsAncestor(mid, b) && (mid == b || !IsAncestor(mid, from))
    ensures CanReach(verdict, from, b) <==> CanReach(verdict, from, mid) && CanReach(verdict, mid, b)
  {
    if CanReach(verdict, from, b) {
      CanReachAncestor(verdict, from, mid, b);
      forall x | IsAncestor(x, b) && !IsAncestor(x, mid)
        ensures verdict(x)
      {
        if IsAncestor(x, from) {
          AboveMid(x, mid, b, from);
        }
      }
    }
  }

  lemma AboveMid(x: BlockIndex, mid: BlockIndex, b: BlockIndex, from: BlockIndex)
    requires IsAncestor(x, b) && IsAncestor(mid, b) && !IsAncestor(x, mid) && IsAncestor(x, from)
    ensures IsAncestor(mid, from) && mid != b
  {
    if x.Height() <= mid.Height() {
      AncestorsLinear(x, mid, b);
      assert false;
    } else {
      AncestorsLinear(mid, x, b);
      AncestorTransitive(mid, x, from);
    }
  }

  /** From a best chain that passes itself, a block can be reached iff its whole chain passes. */
  lemma CanReachFromBest(verdict: Verdict, genesis: BlockIndex, best: BlockIndex, b: BlockIndex)
    requires CanReach(verdict, genesis, best) && IsAncestor(genesis, best)
    ensures CanReach(verdict, best, b) <==> CanReach(verdict, genesis, b)
  {
    forall x | IsAncestor(x, b) && IsAncestor(x, genesis)
      ensures IsAncestor(x, best)
    {
      AncestorTransitive(x, genesis, best);
    }
  }

  // ---------- how far a move gets ----------

  /** tip is the last block on the way to `to` that can be reached from `from`. */
  ghost predicate FarthestTip(verdict: Verdict, from: BlockIndex, to: BlockIndex, tip: BlockIndex) {
    && IsAncestor(tip, to) && CanReach(verdict, from, tip)
    && forall b :: IsAncestor(b, to) && CanReach(verdict, from, b) ==> IsAncestor(b, tip)
  }

  /** The way ends at a block whose successor cannot be reached. */
  lemma FarthestAt(verdict: Verdict, from: BlockIndex, to: BlockIndex, tip: BlockIndex, next: BlockIndex)
    requires next.Child? && next.pprev == tip && IsAncestor(next, to) && IsAncestor(tip, to)
    requires CanReach(verdict, from, tip) && !CanReach(verdict, from, next)
    ensures FarthestTip(verdict, from, to, tip)
  {
    forall b | IsAncestor(b, to) && CanReach(verdict, from, b)
      ensures IsAncestor(b, tip)
    {
      if b.Height() <= tip.Height() {
        AncestorsLinear(b, tip, to);
      } else {
        AncestorsLinear(next, b, to);
        CanReachAncestor(verdict, from, next, b);
        assert false;
      }
    }
  }

  lemma FarthestIsEnd(verdict: Verdict, from: BlockIndex, to: BlockIndex, tip: BlockIndex)
    requires FarthestTip(verdict, from, to, tip)
    ensures tip == to <==> CanReach(verdict, from, to)
  {
    if CanReach(verdict, from, to) {
      AncestorHeight(to, tip);
      AncestorHeight(tip, to);
    }
  }

  /** Moving on from mid gets as far as moving from `from`, if mid was reached. */
  lemma FarthestBetween(verdict: Verdict, from: BlockIndex, mid: BlockIndex, to: BlockIndex, tip: BlockIndex)
    requires IsAncestor(mid, to) && (mid == to || !IsAncestor(mid, from)) && CanReach(verdict, from, mid)
    requires FarthestTip(verdict, mid, to, tip) && IsAncestor(mid, tip)
    ensures FarthestTip(verdict, from, to, tip)
  {
    if mid == to {
      AncestorHeight(mid, tip);
      AncestorHeight(tip, to);
    }
    CanReachBetween(verdict, from, mid, tip);
    forall b | IsAncestor(b, to) && CanReach(verdict, from, b)
      ensures IsAncestor(b, tip)
    {
      if b.Height() <= mid.Height() {
        AncestorsLinear(b, mid, to);
        AncestorTransitive(b, mid, tip);
      } else {
        AncestorsLinear(mid, b, to);
        if mid == to {
          AncestorHeight(b, to);
        }
        CanReachBetween(verdict, from, mid, b);
      }
    }
  }

  // ---------- what is done in one database transaction ----------

  /** The first block of the way to b, counted back from it, whose parent has no more trust than nTrust. */
  function Intermediate(b: BlockIndex, nTrust: nat): BlockIndex {
    if b.Child? && b.pprev.ChainTrust() > nTrust then Intermediate(b.pprev, nTrust) else b
  }

  lemma {:induction false} IntermediateMeans(b: BlockIndex, nTrust: nat)
    ensures var m := Intermediate(b, nTrust);
      && IsAncestor(m, b) && (m == b || m.ChainTrust() > nTrust)
      && (m.Child? ==> m.pprev.ChainTrust() <= nTrust)
  {
    if b.Child? && b.pprev.ChainTrust() > nTrust {
      IntermediateMeans(b.pprev, nTrust);
    }
  }

  lemma {:induction false} AncestorTrust(a: BlockIndex, b: BlockIndex)
    requires IsAncestor(a, b)
    ensures a.ChainTrust() <= b.ChainTrust()
  {
    if a != b {
      AncestorTrust(a, b.pprev);
    }
  }

  // ---------- trust as a sum over blocks ----------

  /** What the blocks of a path add to the trust of a chain. */
  function TrustSum(path: seq<BlockIndex>): nat {
    if path == [] then 0 else TrustSum(path[..|path| - 1]) + path[|path| - 1].block.nTrust
  }

  lemma {:induction false} TrustAlongPath(f: BlockIndex, b: BlockIndex)
    requires IsAncestor(f, b)
    ensures b.ChainTrust() == f.ChainTrust() + TrustSum(Path(f, b))
  {
    if f != b {
      TrustAlongPath(f, b.pprev);
      assert Path(f, b)[..|Path(f, b)| - 1] == Path(f, b.pprev);
    }
  }

  /** The first block of the path by which its blocks have more trust than t. */
  function FirstBetter(path: seq<BlockIndex>, t: nat): BlockIndex
    requires TrustSum(path) > t
  {
    var front := path[..|path| - 1];
    if TrustSum(front) > t then FirstBetter(front, t) else path[|path| - 1]
  }

  /** Behind a common ancestor, trust is compared by the blocks of the two branches alone. */
  lemma BranchesCompared(f: BlockIndex, a: BlockIndex, b: BlockIndex)
    requires IsAncestor(f, a) && IsAncestor(f, b)
    ensures b.ChainTrust() > a.ChainTrust() <==> TrustSum(Path(f, b)) > TrustSum(Path(f, a))
    ensures TrustSum(Path(f, b)) > TrustSum(Path(f, a)) ==>
      Intermediate(b, a.ChainTrust()) == FirstBetter(Path(f, b), TrustSum(Path(f, a)))
  {
    TrustAlongPath(f, a);
    TrustAlongPath(f, b);
    if TrustSum(Path(f, b)) > TrustSum(Path(f, a)) {
      IntermediateOnPath(f, b, TrustSum(Path(f, a)));
    }
  }

  lemma {:induction false} IntermediateOnPath(f: BlockIndex, b: BlockIndex, t: nat)
    requires IsAncestor(f, b) && TrustSum(Path(f, b)) > t
    ensures Intermediate(b, f.ChainTrust() + t) == FirstBetter(Path(f, b), t)
  {
    var p := b.pprev;
    TrustAlongPath(f, p);
    assert Path(f, b)[..|Path(f, b)| - 1] == Path(f, p);
    if TrustSum(Path(f, p)) > t {
      IntermediateOnPath(f, p, t);
    }
  }

  /** Two children of one block compete by their own trust. */
  lemma SiblingsCompared(a: BlockIndex, b: BlockIndex)
    requires a.Child? && b.Child? && a.pprev == b.pprev
    ensures b.ChainTrust() > a.ChainTrust() <==> b.block.nTrust > a.block.nTrust
    ensures Intermediate(b, a.ChainTrust()) == b
    ensures forall verdict :: Replay(a).Some? && a != b ==> (CanReach(verdict, a, b) <==> verdict(b) && Replay(b).Some?)
  {
    forall verdict | Replay(a).Some? && a != b
      ensures CanReach(verdict, a, b) <==> verdict(b) && Replay(b).Some?
    {
      assert IsAncestor(a.pprev, a) && IsAncestor(a.pprev, b);
      forall x | IsAncestor(x, a) && IsAncestor(x, b)
        ensures IsAncestor(x, a.pprev)
      {
        AncestorHeight(x, a);
      }
      CanReachFromFork(verdict, a.pprev, a, b);
      CanReachStep(verdict, a.pprev, b);
      CanReachSelf(verdict, a.pprev);
    }
  }
}
