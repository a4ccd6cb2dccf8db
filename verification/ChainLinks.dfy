/** Ancestry in the block tree, the main-chain links, and the fork of two chains. */
module ChainLinks {
  import opened Common
  import opened Transactions

  lemma {:induction false} AncestorHeight(a: BlockIndex, b: BlockIndex)
    requires IsAncestor(a, b)
    ensures a.Height() <= b.Height() && (a.Height() == b.Height() ==> a == b)
  {
    if a != b {
      AncestorHeight(a, b.pprev);
    }
  }

  lemma {:induction false} AncestorTransitive(a: BlockIndex, b: BlockIndex, c: BlockIndex)
    requires IsAncestor(a, b) && IsAncestor(b, c)
    ensures IsAncestor(a, c)
  {
    if b != c {
      AncestorTransitive(a, b, c.pprev);
    }
  }

  /** Two ancestors of one block lie on one line. */
  lemma {:induction false} AncestorsLinear(a: BlockIndex, b: BlockIndex, c: BlockIndex)
    requires IsAncestor(a, c) && IsAncestor(b, c) && a.Height() <= b.Height()
    ensures IsAncestor(a, b)
  {
    if b != c {
      if a == c {
        AncestorHeight(b, c);
      } else {
        AncestorsLinear(a, b, c.pprev);
      }
    }
  }

  /** A chain has one block per height. */
  lemma UniqueAtHeight(a: BlockIndex, b: BlockIndex, c: BlockIndex)
    requires IsAncestor(a, c) && IsAncestor(b, c) && a.Height() == b.Height()
    ensures a == b
  {
    AncestorsLinear(a, b, c);
    AncestorHeight(a, b);
  }

  lemma {:induction false} RootIsAncestor(b: BlockIndex)
    ensures IsAncestor(b.Root(), b) && b.Root().Genesis?
  {
    if b.Child? {
      RootIsAncestor(b.pprev);
    }
  }

  lemma {:induction false} AncestorRoot(a: BlockIndex, b: BlockIndex)
    requires IsAncestor(a, b)
    ensures a.Root() == b.Root()
  {
    if a != b {
      AncestorRoot(a, b.pprev);
    }
  }

  // ---------- links ----------

  /** The `pnext` links that lead from the genesis block to b. */
  function LinksTo(b: BlockIndex): map<BlockIndex, BlockIndex> {
    if b.Genesis? then map[] else LinksTo(b.pprev)[b.pprev := b]
  }

  /** A block is linked iff it is a proper ancestor of b, and then to the next block towards b. */
  lemma {:induction false} LinksToAncestors(b: BlockIndex, x: BlockIndex)
    ensures x in LinksTo(b) <==> x != b && IsAncestor(x, b)
    ensures x in LinksTo(b) ==>
              var y := LinksTo(b)[x]; y.Child? && y.pprev == x && IsAncestor(y, b)
  {
    if b.Child? {
      LinksToAncestors(b.pprev, x);
      if IsAncestor(b, b.pprev) {
        AncestorHeight(b, b.pprev);
      }
    }
  }

  lemma Unlink(b: BlockIndex)
    requires b.Child?
    ensures LinksTo(b) - {b.pprev} == LinksTo(b.pprev)
  {
    LinksToAncestors(b.pprev, b.pprev);
  }

  // ---------- paths ----------

  /** The blocks after f, up to b. */
  function Path(f: BlockIndex, b: BlockIndex): seq<BlockIndex>
    requires IsAncestor(f, b)
  {
    if f == b then [] else Path(f, b.pprev) + [b]
  }

  /** The blocks from b back to the one after f. */
  function PathBack(f: BlockIndex, b: BlockIndex): seq<BlockIndex>
    requires IsAncestor(f, b)
  {
    if f == b then [] else [b] + PathBack(f, b.pprev)
  }

  lemma {:induction false} ReversePathBack(f: BlockIndex, b: BlockIndex)
    requires IsAncestor(f, b)
    ensures Reversed(PathBack(f, b)) == Path(f, b)
  {
    if f != b {
      ReversePathBack(f, b.pprev);
      assert PathBack(f, b)[1..] == PathBack(f, b.pprev);
    }
  }

  /** Each block of a path is the child of the one before it, the first one a child of f. */
  lemma {:induction false} PathSteps(f: BlockIndex, b: BlockIndex, i: nat)
    requires IsAncestor(f, b) && i < |Path(f, b)|
    ensures var p := Path(f, b);
      && p[i].Child? && p[i].pprev == (if i == 0 then f else p[i - 1])
      && IsAncestor(p[i], b) && p[|p| - 1] == b
  {
    if i < |Path(f, b.pprev)| {
      PathSteps(f, b.pprev, i);
    } else if i > 0 {
      PathSteps(f, b.pprev, i - 1);
    }
  }

  lemma {:induction false} PathBackSteps(f: BlockIndex, b: BlockIndex, i: nat)
    requires IsAncestor(f, b) && i < |PathBack(f, b)|
    ensures var p := PathBack(f, b);
      && p[0] == b && p[i].Child? && p[i].pprev == (if i + 1 == |p| then f else p[i + 1])
      && IsAncestor(p[i], b)
  {
    if i > 0 {
      PathBackSteps(f, b.pprev, i - 1);
    } else if f != b.pprev {
      PathBackSteps(f, b.pprev, 0);
    }
  }

  lemma {:induction false} PathBackExtend(f: BlockIndex, b: BlockIndex)
    requires f.Child? && IsAncestor(f, b)
    ensures IsAncestor(f.pprev, b) && PathBack(f.pprev, b) == PathBack(f, b) + [f]
  {
    if f == b {
      assert f.pprev.Height() < f.Height();
    } else {
      PathBackExtend(f, b.pprev);
      AncestorHeight(f, b);
    }
  }

  /** The last of the first i blocks of the path, f itself when there are none. */
  function PathPoint(f: BlockIndex, b: BlockIndex, i: nat): BlockIndex
    requires IsAncestor(f, b) && i <= |Path(f, b)|
  {
    if i == 0 then f else Path(f, b)[i - 1]
  }

  lemma {:induction false} PathPointBetween(f: BlockIndex, b: BlockIndex, i: nat)
    requires IsAncestor(f, b) && i <= |Path(f, b)|
    ensures var x := PathPoint(f, b, i);
      && IsAncestor(f, x) && IsAncestor(x, b) && x.ChainTrust() >= f.ChainTrust()
      && (x == b <==> i == |Path(f, b)|)
  {
    if f != b {
      if i == |Path(f, b)| {
        PathPointBetween(f, b.pprev, i - 1);
      } else {
        PathPointBetween(f, b.pprev, i);
        AncestorHeight(PathPoint(f, b, i), b.pprev);
      }
    }
  }

  method CollectBack(f: BlockIndex, b: BlockIndex) returns (v: seq<BlockIndex>)
    requires IsAncestor(f, b)
    ensures v == PathBack(f, b)
  {
    v := [];
    var pindex := b;
    while pindex != f
      invariant IsAncestor(f, pindex) && v + PathBack(f, pindex) == PathBack(f, b)
      decreases pindex.Height()
    {
      v, pindex := v + [pindex], pindex.pprev;
    }
  }

  // ---------- forks ----------

  ghost predicate IsLastCommonAncestor(f: BlockIndex, a: BlockIndex, b: BlockIndex) {
    && IsAncestor(f, a) && IsAncestor(f, b)
    && forall x :: IsAncestor(x, a) && IsAncestor(x, b) ==> IsAncestor(x, f)
  }

  lemma StepUp(a: BlockIndex, b: BlockIndex, x: BlockIndex)
    requires a.Child? && a != b && b.Height() <= a.Height() && IsAncestor(x, b)
    ensures IsAncestor(x, a) ==> IsAncestor(x, a.pprev)
  {
    AncestorHeight(x, b);
  }

  /** Walks both chains back to the block they share; fails only when they share none. */
  method FindFork(best: BlockIndex, new_: BlockIndex) returns (ok: bool, pfork: BlockIndex)
    ensures ok <==> best.Root() == new_.Root()
    ensures ok ==> IsAncestor(pfork, best) && IsAncestor(pfork, new_) && IsLastCommonAncestor(pfork, best, new_)
  {
    pfork := best;
    var plonger := new_;
    while pfork != plonger
      invariant IsAncestor(pfork, best) && IsAncestor(plonger, new_)
      invariant pfork.Root() == best.Root() && plonger.Root() == new_.Root()
      invariant forall x :: IsAncestor(x, best) && IsAncestor(x, new_) ==> IsAncestor(x, pfork) && IsAncestor(x, plonger)
      decreases pfork.Height() + plonger.Height()
    {
      while plonger.Height() > pfork.Height()
        invariant IsAncestor(plonger, new_) && plonger.Root() == new_.Root()
        invariant forall x :: IsAncestor(x, best) && IsAncestor(x, new_) ==> IsAncestor(x, pfork) && IsAncestor(x, plonger)
        decreases plonger.Height()
      {
        forall x | IsAncestor(x, best) && IsAncestor(x, new_)
          ensures IsAncestor(x, plonger.pprev)
        {
          StepUp(plonger, pfork, x);
        }
        AncestorTransitive(plonger.pprev, plonger, new_);
        plonger := plonger.pprev;
      }
      if pfork == plonger {
        break;
      }
      if pfork.Genesis? {
        return false, pfork;
      }
      forall x | IsAncestor(x, best) && IsAncestor(x, new_)
        ensures IsAncestor(x, pfork.pprev)
      {
        StepUp(pfork, plonger, x);
      }
      AncestorTransitive(pfork.pprev, pfork, best);
      pfork := pfork.pprev;
    }
    ok := true;
  }
}
