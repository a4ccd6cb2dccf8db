/**
 * The stake modifier (src/kernel.cpp:26-196): one bit each from up to 64 blocks, picked in rounds from the blocks of
 * a time window. A chain is the list of its blocks from the genesis block on.
 */
module StakeModifier {
  import opened Common
  import opened Bits
  import opened Numerals

  type Hash = nat

  const MODIFIER_INTERVAL: nat := 480
  const MODIFIER_INTERVAL_RATIO: nat := 3

  datatype StakeBlock = StakeBlock(
    hash: Hash,
    nTime: nat,
    hashProof: Hash,
    fProofOfStake: bool,
    nStakeModifier: nat,
    fGenerated: bool)
  {
    /** The last bit of the block's hash. */
    function EntropyBit(): (bit: nat)
      ensures bit < 2
    {
      hash % 2
    }
  }

  type MapBlockIndex = map<Hash, StakeBlock>

  /** The hash of a proof hash and a modifier. */
  type SelectionHash = (Hash, nat) -> Hash

  // ---------- the window and its sections ----------

  function Section(nSection: nat): nat
    requires nSection < 64
  {
    MODIFIER_INTERVAL * 63 / (63 + (63 - nSection) * (MODIFIER_INTERVAL_RATIO - 1))
  }

  function SectionSum(n: nat): nat
    requires n <= 64
  {
    if n == 0 then 0 else SectionSum(n - 1) + Section(n - 1)
  }

  method GetStakeModifierSelectionInterval() returns (nSelectionInterval: nat)
    ensures nSelectionInterval == SectionSum(64)
  {
    nSelectionInterval := 0;
    for nSection := 0 to 64
      invariant nSelectionInterval == SectionSum(nSection)
    {
      nSelectionInterval := nSelectionInterval + Section(nSection);
    }
  }

  function IntervalStart(nTime: nat): int {
    nTime / MODIFIER_INTERVAL * MODIFIER_INTERVAL - SectionSum(64)
  }

  /** The end of the time range that round r adds a section to. */
  function StopOf(start: int, r: nat): int
    requires r < 64
  {
    start + SectionSum(r + 1)
  }

  /** Each section is the whole part of 30240 / (189 - 2n) seconds, and the last is three times as long as the first. */
  lemma SectionMeans(nSection: nat)
    requires nSection < 64
    ensures var s := Section(nSection); s * (189 - 2 * nSection) <= 30240 < (s + 1) * (189 - 2 * nSection)
    ensures Section(63) == 3 * Section(0) == 480
  {
    var d := 189 - 2 * nSection;
    assert Section(nSection) == 30240 / d;
    assert 30240 == 30240 / d * d + 30240 % d;
  }

  /**
   * The stops of the 64 rounds are one section apart; the last is the last multiple of 480 not after the block's time.
   */
  lemma IntervalMeans(nTime: nat, r: nat)
    requires r < 64
    ensures var start := IntervalStart(nTime);
      && StopOf(start, r) == (if r == 0 then start else StopOf(start, r - 1)) + Section(r)
      && StopOf(start, 63) <= nTime < StopOf(start, 63) + 480 && StopOf(start, 63) % 480 == 0
  {
    hide Section;
    var start := IntervalStart(nTime);
    assert r == 0 ==> StopOf(start, 0) == start + SectionSum(0) + Section(0);
    assert StopOf(start, 63) == nTime / 480 * 480;
  }

  // ---------- the last generated modifier ----------

  /** The height of the nearest block, from the tip back, marked as generating; 0 if there is none. */
  function LastGenerated(chain: seq<StakeBlock>): (g: nat)
    requires chain != []
    ensures g < |chain|
  {
    if |chain| == 1 || chain[|chain| - 1].fGenerated then |chain| - 1 else LastGenerated(chain[..|chain| - 1])
  }

  lemma {:induction false} LastGeneratedMeans(chain: seq<StakeBlock>)
    requires chain != []
    ensures var g := LastGenerated(chain);
      (g > 0 ==> chain[g].fGenerated) && forall k :: g < k < |chain| ==> !chain[k].fGenerated
  {
    if |chain| > 1 && !chain[|chain| - 1].fGenerated {
      LastGeneratedMeans(chain[..|chain| - 1]);
    }
  }

  method GetLastStakeModifier(chain: seq<StakeBlock>) returns (ok: bool, nStakeModifier: nat, nModifierTime: nat)
    ensures ok <==> chain != [] && chain[LastGenerated(chain)].fGenerated
    ensures ok ==> var g := LastGenerated(chain); nStakeModifier == chain[g].nStakeModifier && nModifierTime == chain[g].nTime
  {
    nStakeModifier, nModifierTime := 0, 0;
    if chain == [] {
      return false, 0, 0;
    }
    var pindex := |chain| - 1;
    assert chain[..pindex + 1] == chain;
    while pindex > 0 && !chain[pindex].fGenerated
      invariant 0 <= pindex < |chain|
      invariant LastGenerated(chain[..pindex + 1]) == LastGenerated(chain)
    {
      assert chain[..pindex + 1][..pindex] == chain[..pindex];
      pindex := pindex - 1;
    }
    if !chain[pindex].fGenerated {
      return false, 0, 0;
    }
    return true, chain[pindex].nStakeModifier, chain[pindex].nTime;
  }

  // ---------- candidates ----------

  datatype Candidate = Candidate(nTime: nat, hash: Hash)

  predicate Before(a: Candidate, b: Candidate) {
    a.nTime < b.nTime || (a.nTime == b.nTime && a.hash < b.hash)
  }

  ghost predicate Sorted(cs: seq<Candidate>) {
    forall j, k :: 0 <= j < k < |cs| ==> !Before(cs[k], cs[j])
  }

  /** The blocks from the tip back to the first one older than start, tip first. */
  function Window(chain: seq<StakeBlock>, start: int): seq<Candidate> {
    if chain == [] || chain[|chain| - 1].nTime < start then []
    else
      var tip := chain[|chain| - 1];
      [Candidate(tip.nTime, tip.hash)] + Window(chain[..|chain| - 1], start)
  }

  /** Those are the last blocks of the chain, and the block before them, if any, is older than start. */
  lemma {:induction false} WindowMeans(chain: seq<StakeBlock>, start: int)
    ensures var w := Window(chain, start);
      && |w| <= |chain|
      && (forall k :: 0 <= k < |w| ==> var b := chain[|chain| - 1 - k]; w[k] == Candidate(b.nTime, b.hash) && b.nTime >= start)
      && (|w| < |chain| ==> chain[|chain| - 1 - |w|].nTime < start)
  {
    if chain != [] && chain[|chain| - 1].nTime >= start {
      WindowMeans(chain[..|chain| - 1], start);
    }
  }

  method CollectWindow(chain: seq<StakeBlock>, start: int) returns (cs: seq<Candidate>)
    ensures cs == Window(chain, start)
  {
    cs := [];
    var n := |chain|;
    assert chain[..n] == chain;
    while n > 0 && chain[n - 1].nTime >= start
      invariant 0 <= n <= |chain|
      invariant cs + Window(chain[..n], start) == Window(chain, start)
    {
      assert chain[..n][..n - 1] == chain[..n - 1];
      cs := cs + [Candidate(chain[n - 1].nTime, chain[n - 1].hash)];
      n := n - 1;
    }
  }

  lemma Asymmetric(a: Candidate, b: Candidate)
    requires Before(a, b)
    ensures !Before(b, a)
  {
  }

  lemma Transitive(a: Candidate, b: Candidate, c: Candidate)
    requires !Before(b, a) && !Before(c, b)
    ensures !Before(c, a)
  {
  }

  lemma Insert(sorted: seq<Candidate>, k: nat, c: Candidate)
    requires Sorted(sorted) && k <= |sorted|
    requires k < |sorted| ==> !Before(sorted[k], c)
    requires k > 0 ==> !Before(c, sorted[k - 1])
    ensures Sorted(sorted[..k] + [c] + sorted[k..])
  {
    hide Before;
    var longer := sorted[..k] + [c] + sorted[k..];
    forall i, j | 0 <= i < j < |longer|
      ensures !Before(longer[j], longer[i])
    {
      if j == k {
        if i < k - 1 {
          Transitive(sorted[i], sorted[k - 1], c);
        }
      } else if i == k {
        if j > k + 1 {
          Transitive(c, sorted[k], sorted[j - 1]);
        }
      }
    }
  }

  lemma InsertElements(sorted: seq<Candidate>, k: nat, c: Candidate)
    requires k <= |sorted|
    ensures multiset(sorted[..k] + [c] + sorted[k..]) == multiset(sorted) + multiset{c}
  {
    assert sorted == sorted[..k] + sorted[k..];
  }

  /** The sort of the standard library, as an insertion sort. */
  method Sort(cs: seq<Candidate>) returns (sorted: seq<Candidate>)
    ensures Sorted(sorted) && multiset(sorted) == multiset(cs)
  {
    hide Sorted, Before;
    SortedNone();
    sorted := [];
    for i := 0 to |cs|
      invariant Sorted(sorted) && multiset(sorted) == multiset(cs[..i])
    {
      var k := |sorted|;
      while k > 0 && Before(cs[i], sorted[k - 1])
        invariant 0 <= k <= |sorted|
        invariant k < |sorted| ==> !Before(sorted[k], cs[i])
      {
        Asymmetric(cs[i], sorted[k - 1]);
        k := k - 1;
      }
      Insert(sorted, k, cs[i]);
      InsertElements(sorted, k, cs[i]);
      assert cs[..i + 1] == cs[..i] + [cs[i]];
      sorted := sorted[..k] + [cs[i]] + sorted[k..];
    }
    assert cs[..|cs|] == cs;
  }

  lemma SortedNone()
    ensures Sorted([])
  {
  }

  lemma FirstIsLeast(a: seq<Candidate>, c: Candidate)
    requires Sorted(a) && c in multiset(a)
    ensures a != [] && !Before(c, a[0])
  {
    var k :| 0 <= k < |a| && a[k] == c;
  }

  /** There is only one way to sort. */
  lemma WithoutFirst(a: seq<Candidate>)
    requires a != []
    ensures a == [a[0]] + a[1..] && multiset(a[1..]) == multiset(a) - multiset{a[0]}
  {
    assert a == [a[0]] + a[1..];
  }

  lemma {:induction false} SortedUnique(a: seq<Candidate>, b: seq<Candidate>)
    requires Sorted(a) && Sorted(b) && multiset(a) == multiset(b)
    ensures a == b
  {
    if a == [] {
      assert |multiset(b)| == |b|;
    } else {
      assert a[0] in multiset(a);
      FirstIsLeast(b, a[0]);
      assert b[0] in multiset(b);
      FirstIsLeast(a, b[0]);
      WithoutFirst(a);
      WithoutFirst(b);
      SortedUnique(a[1..], b[1..]);
    }
  }

  // ---------- one round ----------

  /** The blocks of the window, oldest first. */
  ghost predicate Candidates(chain: seq<StakeBlock>, start: int, cs: seq<Candidate>) {
    Sorted(cs) && multiset(cs) == multiset(Window(chain, start))
  }

  ghost predicate Known(index: MapBlockIndex, cs: seq<Candidate>) {
    forall k :: 0 <= k < |cs| ==> KnownOne(index, cs[k])
  }

  ghost predicate KnownOne(index: MapBlockIndex, c: Candidate) {
    c.hash in index && index[c.hash].hash == c.hash && index[c.hash].nTime == c.nTime
  }

  /** A proof-of-stake block's hash is divided by 2^32, which favours it. */
  function Score(h: SelectionHash, b: StakeBlock, nStakeModifierPrev: nat): nat {
    if b.fProofOfStake then h(b.hashProof, nStakeModifierPrev) / 0x1_0000_0000 else h(b.hashProof, nStakeModifierPrev)
  }

  /** Candidate k may be picked: not picked before, and early enough or the first one left. */
  ghost predicate Eligible(cs: seq<Candidate>, selected: set<Hash>, stop: int, k: nat)
    requires k < |cs|
  {
    && cs[k].hash !in selected
    && (cs[k].nTime <= stop || forall j :: 0 <= j < k ==> cs[j].hash in selected)
  }

  /** Candidate k is the pick: the first of those with the least score among the eligible ones. */
  ghost predicate IsPick(h: SelectionHash, index: MapBlockIndex, cs: seq<Candidate>, selected: set<Hash>, stop: int,
                         prev: nat, k: nat)
    requires Known(index, cs)
  {
    && k < |cs| && Eligible(cs, selected, stop, k)
    && forall j: nat :: j < |cs| && Eligible(cs, selected, stop, j) ==> NotBetter(h, index, cs, prev, k, j)
  }

  /** In hashes: stake candidate j comes before work candidate i, the earlier of the two winning a draw. */
  ghost predicate StakeBeats(h: SelectionHash, index: MapBlockIndex, cs: seq<Candidate>, prev: nat, j: nat, i: nat)
    requires Known(index, cs) && j < |cs| && i < |cs|
  {
    assert KnownOne(index, cs[i]) && KnownOne(index, cs[j]);
    var hStake, hWork := h(index[cs[j].hash].hashProof, prev), h(index[cs[i].hash].hashProof, prev);
    hStake < 0x1_0000_0000 * (if j < i then hWork + 1 else hWork)
  }

  ghost predicate IsStake(index: MapBlockIndex, cs: seq<Candidate>, j: nat)
    requires Known(index, cs) && j < |cs|
  {
    assert KnownOne(index, cs[j]);
    index[cs[j].hash].fProofOfStake
  }

  /** Some eligible stake candidate comes before every eligible work candidate. */
  ghost predicate StakeAhead(h: SelectionHash, index: MapBlockIndex, cs: seq<Candidate>, selected: set<Hash>, stop: int,
                             prev: nat, j: nat)
    requires Known(index, cs)
  {
    && j < |cs| && Eligible(cs, selected, stop, j) && IsStake(index, cs, j)
    && forall i: nat :: i < |cs| && Eligible(cs, selected, stop, i) && !IsStake(index, cs, i) ==>
         StakeBeats(h, index, cs, prev, j, i)
  }

  lemma ScoresCompared(h: SelectionHash, index: MapBlockIndex, cs: seq<Candidate>, prev: nat, j: nat, i: nat)
    requires Known(index, cs) && j < |cs| && i < |cs| && IsStake(index, cs, j) && !IsStake(index, cs, i)
    ensures StakeBeats(h, index, cs, prev, j, i) <==> NotBetter(h, index, cs, prev, j, i)
    ensures StakeBeats(h, index, cs, prev, j, i) <==> !NotBetter(h, index, cs, prev, i, j)
  {
    assert KnownOne(index, cs[i]) && KnownOne(index, cs[j]);
    var hStake := h(index[cs[j].hash].hashProof, prev);
    assert hStake == hStake / 0x1_0000_0000 * 0x1_0000_0000 + hStake % 0x1_0000_0000;
  }

  /**
   * A round picks a stake block iff some eligible one has a selection hash below 2^32 times that of each eligible work
   * block. So stake is favoured, but not always: its hash must not be that much greater.
   */
  lemma PickIsStakeIff(h: SelectionHash, index: MapBlockIndex, cs: seq<Candidate>, selected: set<Hash>, stop: int,
                       prev: nat, k: nat)
    requires Known(index, cs) && IsPick(h, index, cs, selected, stop, prev, k)
    ensures IsStake(index, cs, k) <==> exists j: nat :: StakeAhead(h, index, cs, selected, stop, prev, j)
  {
    hide NotBetter, StakeBeats, Eligible, IsStake, Known;
    if IsStake(index, cs, k) {
      forall i: nat | i < |cs| && Eligible(cs, selected, stop, i) && !IsStake(index, cs, i)
        ensures StakeBeats(h, index, cs, prev, k, i)
      {
        ScoresCompared(h, index, cs, prev, k, i);
      }
      assert StakeAhead(h, index, cs, selected, stop, prev, k);
    } else if j: nat :| StakeAhead(h, index, cs, selected, stop, prev, j) {
      ScoresCompared(h, index, cs, prev, j, k);
    }
  }

  ghost predicate NotBetter(h: SelectionHash, index: MapBlockIndex, cs: seq<Candidate>, prev: nat, k: nat, j: nat)
    requires Known(index, cs) && j < |cs| && k < |cs|
  {
    assert KnownOne(index, cs[j]) && KnownOne(index, cs[k]);
    var a, b := Score(h, index[cs[k].hash], prev), Score(h, index[cs[j].hash], prev);
    a < b || (a == b && k <= j)
  }

  ghost predicate Agree(a: MapBlockIndex, b: MapBlockIndex, cs: seq<Candidate>)
    requires Known(a, cs) && Known(b, cs)
  {
    forall k :: 0 <= k < |cs| ==> AgreeAt(a, b, cs, k)
  }

  ghost predicate AgreeAt(a: MapBlockIndex, b: MapBlockIndex, cs: seq<Candidate>, k: nat)
    requires k < |cs| && Known(a, cs) && Known(b, cs)
  {
    assert KnownOne(a, cs[k]) && KnownOne(b, cs[k]);
    a[cs[k].hash] == b[cs[k].hash]
  }

  lemma SamePick(h: SelectionHash, a: MapBlockIndex, b: MapBlockIndex, cs: seq<Candidate>, selected: set<Hash>,
                 stop: int, prev: nat, k: nat)
    requires Known(a, cs) && Known(b, cs) && Agree(a, b, cs)
    requires IsPick(h, a, cs, selected, stop, prev, k)
    ensures IsPick(h, b, cs, selected, stop, prev, k)
  {
    forall j: nat | j < |cs| && Eligible(cs, selected, stop, j)
      ensures NotBetter(h, b, cs, prev, k, j)
    {
      assert NotBetter(h, a, cs, prev, k, j);
      assert AgreeAt(a, b, cs, j) && AgreeAt(a, b, cs, k);
    }
  }

  lemma PickUnique(h: SelectionHash, index: MapBlockIndex, cs: seq<Candidate>, selected: set<Hash>, stop: int, prev: nat,
                   j: nat, k: nat)
    requires Known(index, cs)
    requires IsPick(h, index, cs, selected, stop, prev, j) && IsPick(h, index, cs, selected, stop, prev, k)
    ensures j == k
  {
    assert NotBetter(h, index, cs, prev, j, k) && NotBetter(h, index, cs, prev, k, j);
  }

  /** The best of the eligible candidates before position n. */
  ghost predicate BestSoFar(h: SelectionHash, index: MapBlockIndex, cs: seq<Candidate>, selected: set<Hash>, stop: int,
                            prev: nat, n: nat, fSelected: bool, best: nat)
    requires Known(index, cs)
  {
    && n <= |cs|
    && (fSelected ==> best < n && Eligible(cs, selected, stop, best))
    && forall j: nat :: j < n ==>
         if fSelected then Eligible(cs, selected, stop, j) ==> NotBetter(h, index, cs, prev, best, j)
         else cs[j].hash in selected
  }

  method SelectBlockFromCandidates(h: SelectionHash, index: MapBlockIndex, cs: seq<Candidate>, selected: set<Hash>,
                                   stop: int, prev: nat)
    returns (fSelected: bool, best: nat)
    requires Sorted(cs) && Known(index, cs)
    ensures fSelected <==> exists k :: 0 <= k < |cs| && cs[k].hash !in selected
    ensures fSelected ==> IsPick(h, index, cs, selected, stop, prev, best)
  {
    fSelected, best := false, 0;
    var hashBest := 0;
    for i := 0 to |cs|
      invariant BestSoFar(h, index, cs, selected, stop, prev, i, fSelected, best)
      invariant fSelected ==> KnownOne(index, cs[best]) && hashBest == Score(h, index[cs[best].hash], prev)
    {
      assert KnownOne(index, cs[i]);
      var pindex := index[cs[i].hash];
      if fSelected && pindex.nTime > stop {
        RestTooLate(h, index, cs, selected, stop, prev, i, best);
        break;
      }
      if pindex.hash in selected {
        continue;
      }
      var hashSelection := Score(h, pindex, prev);
      if fSelected && hashSelection < hashBest {
        hashBest, best := hashSelection, i;
      } else if !fSelected {
        fSelected, hashBest, best := true, hashSelection, i;
      }
    }
  }

  lemma RestTooLate(h: SelectionHash, index: MapBlockIndex, cs: seq<Candidate>, selected: set<Hash>, stop: int,
                    prev: nat, i: nat, best: nat)
    requires Sorted(cs) && Known(index, cs) && i < |cs| && cs[i].nTime > stop
    requires BestSoFar(h, index, cs, selected, stop, prev, i, true, best)
    ensures IsPick(h, index, cs, selected, stop, prev, best)
  {
    forall j: nat | i <= j < |cs|
      ensures !Eligible(cs, selected, stop, j)
    {
      assert j > i ==> !Before(cs[j], cs[i]);
      assert cs[best].hash !in selected;
    }
  }

  // ---------- all rounds ----------

  function SelectedBy(cs: seq<Candidate>, picks: seq<nat>): set<Hash>
    requires forall r :: 0 <= r < |picks| ==> picks[r] < |cs|
  {
    set r: nat | r < |picks| :: cs[picks[r]].hash
  }

  /** Each pick is the right one of its round, after the earlier ones. */
  ghost predicate Rounds(h: SelectionHash, index: MapBlockIndex, cs: seq<Candidate>, start: int, prev: nat,
                         picks: seq<nat>)
    requires Known(index, cs)
  {
    && |picks| <= 64
    && (forall r :: 0 <= r < |picks| ==> picks[r] < |cs|)
    && forall r: nat :: r < |picks| ==>
         IsPick(h, index, cs, SelectedBy(cs, picks[..r]), StopOf(start, r), prev, picks[r])
  }

  /** The bits of m are the entropy bits of the picks, in order, and there are no others. */
  ghost predicate BitsOf(cs: seq<Candidate>, picks: seq<nat>, m: nat)
    requires forall r :: 0 <= r < |picks| ==> picks[r] < |cs|
  {
    m < Pow(2, |picks|) && forall r :: 0 <= r < |picks| ==> Bit(m, r) == cs[picks[r]].hash % 2
  }

  lemma {:induction false} RoundsUnique(h: SelectionHash, index: MapBlockIndex, cs: seq<Candidate>, start: int, prev: nat,
                                        p: seq<nat>, q: seq<nat>)
    requires Known(index, cs) && |p| == |q|
    requires Rounds(h, index, cs, start, prev, p) && Rounds(h, index, cs, start, prev, q)
    ensures p == q
  {
    if p != [] {
      var n := |p| - 1;
      RoundsPrefix(h, index, cs, start, prev, p, n);
      RoundsPrefix(h, index, cs, start, prev, q, n);
      RoundsUnique(h, index, cs, start, prev, p[..n], q[..n]);
      PickUnique(h, index, cs, SelectedBy(cs, p[..n]), StopOf(start, n), prev, p[n], q[n]);
      assert p == p[..n] + [p[n]] && q == q[..n] + [q[n]];
    }
  }

  lemma RoundsPrefix(h: SelectionHash, index: MapBlockIndex, cs: seq<Candidate>, start: int, prev: nat,
                     picks: seq<nat>, n: nat)
    requires Known(index, cs) && n <= |picks| && Rounds(h, index, cs, start, prev, picks)
    ensures Rounds(h, index, cs, start, prev, picks[..n])
  {
    forall r: nat | r < n
      ensures IsPick(h, index, cs, SelectedBy(cs, picks[..n][..r]), StopOf(start, r), prev, picks[..n][r])
    {
      assert picks[..n][..r] == picks[..r];
    }
  }

  lemma RoundsSnoc(h: SelectionHash, index: MapBlockIndex, cs: seq<Candidate>, start: int, prev: nat,
                   picks: seq<nat>, k: nat)
    requires Known(index, cs) && |picks| < 64 && Rounds(h, index, cs, start, prev, picks)
    requires IsPick(h, index, cs, SelectedBy(cs, picks), StopOf(start, |picks|), prev, k)
    ensures Rounds(h, index, cs, start, prev, picks + [k])
    ensures SelectedBy(cs, picks + [k]) == SelectedBy(cs, picks) + {cs[k].hash}
  {
    var longer := picks + [k];
    forall r: nat | r < |longer|
      ensures IsPick(h, index, cs, SelectedBy(cs, longer[..r]), StopOf(start, r), prev, longer[r])
    {
      assert longer[..r] == picks[..r];
      assert picks[..|picks|] == picks;
    }
    assert longer[|picks|] == k;
    forall id | id in SelectedBy(cs, picks)
      ensures id in SelectedBy(cs, longer)
    {
      var r: nat :| r < |picks| && cs[picks[r]].hash == id;
      assert cs[longer[r]].hash == id;
    }
  }

  lemma BitsDetermine(cs: seq<Candidate>, picks: seq<nat>, m: nat, n: nat)
    requires forall r :: 0 <= r < |picks| ==> picks[r] < |cs|
    requires BitsOf(cs, picks, m) && BitsOf(cs, picks, n)
    ensures m == n
  {
    SameBits(m, n, |picks|);
  }

  // ---------- the next modifier ----------

  ghost predicate DistinctHashes(chain: seq<StakeBlock>) {
    forall j, k :: 0 <= j < k < |chain| ==> chain[j].hash != chain[k].hash
  }

  /** The node's block index holds every block of the chain. */
  ghost predicate Indexed(index: MapBlockIndex, chain: seq<StakeBlock>) {
    forall k :: 0 <= k < |chain| ==> chain[k].hash in index && index[chain[k].hash] == chain[k]
  }

  /** The block index of a node that knows only this chain. */
  function IndexOf(chain: seq<StakeBlock>): MapBlockIndex {
    if chain == [] then map[] else IndexOf(chain[..|chain| - 1])[chain[|chain| - 1].hash := chain[|chain| - 1]]
  }

  lemma {:induction false} IndexOfIndexed(chain: seq<StakeBlock>)
    requires DistinctHashes(chain)
    ensures Indexed(IndexOf(chain), chain)
  {
    if chain != [] {
      var front := chain[..|chain| - 1];
      IndexOfIndexed(front);
      forall k | 0 <= k < |front|
        ensures IndexOf(chain)[chain[k].hash] == chain[k]
      {
        assert front[k] == chain[k];
      }
    }
  }

  lemma {:induction false} WindowBlocks(chain: seq<StakeBlock>, start: int, c: Candidate) returns (k: nat)
    requires c in Window(chain, start)
    ensures k < |chain| && chain[k].nTime == c.nTime && chain[k].hash == c.hash
  {
    var tip := chain[|chain| - 1];
    if c == Candidate(tip.nTime, tip.hash) {
      k := |chain| - 1;
    } else {
      k := WindowBlocks(chain[..|chain| - 1], start, c);
    }
  }

  lemma CandidatesKnown(index: MapBlockIndex, chain: seq<StakeBlock>, start: int, cs: seq<Candidate>)
    requires Candidates(chain, start, cs) && Indexed(index, chain)
    ensures Known(index, cs)
  {
    forall k | 0 <= k < |cs|
      ensures KnownOne(index, cs[k])
    {
      assert cs[k] in multiset(cs);
      assert cs[k] in Window(chain, start);
      var j := WindowBlocks(chain, start, cs[k]);
    }
  }

  lemma IndexesAgree(a: MapBlockIndex, b: MapBlockIndex, chain: seq<StakeBlock>, start: int, cs: seq<Candidate>)
    requires Candidates(chain, start, cs) && Indexed(a, chain) && Indexed(b, chain)
    ensures Known(a, cs) && Known(b, cs) && Agree(a, b, cs)
  {
    CandidatesKnown(a, chain, start, cs);
    CandidatesKnown(b, chain, start, cs);
    forall k: nat | k < |cs|
      ensures AgreeAt(a, b, cs, k)
    {
      assert cs[k] in multiset(cs);
      assert cs[k] in Window(chain, start);
      var j := WindowBlocks(chain, start, cs[k]);
    }
  }

  /** The hashes of the candidates are distinct, so that an unpicked one is left in every round. */
  lemma {:induction false} WindowDistinct(chain: seq<StakeBlock>, start: int)
    requires DistinctHashes(chain)
    ensures forall j, k :: 0 <= j < k < |Window(chain, start)| ==>
      Window(chain, start)[j].hash != Window(chain, start)[k].hash
  {
    var w := Window(chain, start);
    if w != [] {
      var front := chain[..|chain| - 1];
      WindowDistinct(front, start);
      forall k | 1 <= k < |w|
        ensures w[k].hash != w[0].hash
      {
        assert w[k] == Window(front, start)[k - 1];
        var i := WindowBlocks(front, start, w[k]);
        assert chain[i] == front[i];
      }
    }
  }

  function HashesOf(cs: multiset<Candidate>): set<Hash> {
    set c | c in cs :: c.hash
  }

  lemma {:induction false} HashCount(w: seq<Candidate>)
    requires forall j, k :: 0 <= j < k < |w| ==> w[j].hash != w[k].hash
    ensures |HashesOf(multiset(w))| == |w|
  {
    if w != [] {
      var n := |w| - 1;
      HashCount(w[..n]);
      assert w == w[..n] + [w[n]];
      assert HashesOf(multiset(w)) == HashesOf(multiset(w[..n])) + {w[n].hash};
      forall c | c in multiset(w[..n])
        ensures c.hash != w[n].hash
      {
        var j :| 0 <= j < n && w[..n][j] == c;
      }
    }
  }

  lemma {:induction false} SelectedCount(cs: seq<Candidate>, picks: seq<nat>)
    requires forall r :: 0 <= r < |picks| ==> picks[r] < |cs|
    ensures |SelectedBy(cs, picks)| <= |picks|
  {
    if picks != [] {
      var n := |picks| - 1;
      SelectedCount(cs, picks[..n]);
      assert SelectedBy(cs, picks) == SelectedBy(cs, picks[..n]) + {cs[picks[n]].hash} by {
        assert picks == picks[..n] + [picks[n]];
      }
    }
  }

  lemma OneIsLeft(chain: seq<StakeBlock>, start: int, cs: seq<Candidate>, picks: seq<nat>)
    requires DistinctHashes(chain) && Candidates(chain, start, cs) && |picks| < |cs|
    requires forall r :: 0 <= r < |picks| ==> picks[r] < |cs|
    ensures exists k :: 0 <= k < |cs| && cs[k].hash !in SelectedBy(cs, picks)
  {
    if forall k :: 0 <= k < |cs| ==> cs[k].hash in SelectedBy(cs, picks) {
      var w := Window(chain, start);
      WindowDistinct(chain, start);
      HashCount(w);
      assert |w| == |multiset(w)| == |multiset(cs)| == |cs|;
      forall c | c in multiset(cs)
        ensures c.hash in SelectedBy(cs, picks)
      {
        var k :| 0 <= k < |cs| && cs[k] == c;
      }
      SubsetSize(HashesOf(multiset(cs)), SelectedBy(cs, picks));
      SelectedCount(cs, picks);
    }
  }

  /** m is the modifier generated from the chain by the given candidates and picks. */
  ghost predicate Generation(h: SelectionHash, chain: seq<StakeBlock>, start: int, prev: nat, cs: seq<Candidate>,
                             picks: seq<nat>, m: nat)
    requires DistinctHashes(chain)
  {
    && Candidates(chain, start, cs)
    && (IndexOfIndexed(chain); CandidatesKnown(IndexOf(chain), chain, start, cs);
        Rounds(h, IndexOf(chain), cs, start, prev, picks))
    && |picks| == (if |cs| < 64 then |cs| else 64)
    && BitsOf(cs, picks, m)
  }

  /** What ComputeNextStakeModifier is to find for the block that follows the chain. */
  ghost predicate IsNextModifier(h: SelectionHash, chain: seq<StakeBlock>, m: nat, fGenerated: bool)
    requires DistinctHashes(chain)
  {
    if chain == [] then m == 0 && fGenerated
    else
      var last, tip := chain[LastGenerated(chain)], chain[|chain| - 1];
      if last.nTime / MODIFIER_INTERVAL >= tip.nTime / MODIFIER_INTERVAL then m == last.nStakeModifier && !fGenerated
      else
        fGenerated && exists cs, picks ::
          Generation(h, chain, IntervalStart(tip.nTime), last.nStakeModifier, cs, picks, m)
  }

  lemma GenerationUnique(h: SelectionHash, chain: seq<StakeBlock>, start: int, prev: nat,
                         cs: seq<Candidate>, p: seq<nat>, m: nat, ds: seq<Candidate>, q: seq<nat>, n: nat)
    requires DistinctHashes(chain)
    requires Generation(h, chain, start, prev, cs, p, m) && Generation(h, chain, start, prev, ds, q, n)
    ensures m == n
  {
    SortedUnique(cs, ds);
    IndexOfIndexed(chain);
    CandidatesKnown(IndexOf(chain), chain, start, cs);
    RoundsUnique(h, IndexOf(chain), cs, start, prev, p, q);
    BitsDetermine(cs, p, m, n);
  }

  /** The next modifier depends on the chain alone. */
  lemma NextModifierUnique(h: SelectionHash, chain: seq<StakeBlock>, m: nat, f: bool, n: nat, g: bool)
    requires DistinctHashes(chain) && IsNextModifier(h, chain, m, f) && IsNextModifier(h, chain, n, g)
    ensures m == n && f == g
  {
    if chain != [] {
      var last, tip := chain[LastGenerated(chain)], chain[|chain| - 1];
      if last.nTime / MODIFIER_INTERVAL < tip.nTime / MODIFIER_INTERVAL {
        var start := IntervalStart(tip.nTime);
        var cs, p :| Generation(h, chain, start, last.nStakeModifier, cs, p, m);
        var ds, q :| Generation(h, chain, start, last.nStakeModifier, ds, q, n);
        GenerationUnique(h, chain, start, last.nStakeModifier, cs, p, m, ds, q, n);
      }
    }
  }

  /** The rounds: every one of them finds a block that has not been picked before. */
  method SelectRounds(h: SelectionHash, index: MapBlockIndex, chain: seq<StakeBlock>, start: int, prev: nat,
                      cs: seq<Candidate>)
    returns (ok: bool, nStakeModifierNew: nat, ghost picks: seq<nat>)
    requires DistinctHashes(chain) && Indexed(index, chain) && Candidates(chain, start, cs)
    ensures ok && Generation(h, chain, start, prev, cs, picks, nStakeModifierNew)
  {
    hide IsPick, Sorted, Known, Agree, Bit, OrBit, Indexed, DistinctHashes, SelectedBy, Window;
    nStakeModifierNew, picks := 0, [];
    var stop, selected := start, {};
    IndexOfIndexed(chain);
    ghost var own := IndexOf(chain);
    IndexesAgree(index, own, chain, start, cs);
    var nRounds := if |cs| < 64 then |cs| else 64;
    NothingSelected(cs);
    for nRound := 0 to nRounds
      invariant |picks| == nRound && Rounds(h, own, cs, start, prev, picks)
      invariant selected == SelectedBy(cs, picks) && stop == start + SectionSum(nRound)
      invariant BitsOf(cs, picks, nStakeModifierNew)
    {
      stop := stop + Section(nRound);
      OneIsLeft(chain, start, cs, picks);
      var fSelected, k := SelectBlockFromCandidates(h, index, cs, selected, stop, prev);
      if !fSelected {
        ok := false;
        return;
      }
      SamePick(h, index, own, cs, selected, stop, prev, k);
      PickPosition(h, own, cs, selected, stop, prev, k);
      PickedHash(index, cs, k);
      RoundsSnoc(h, own, cs, start, prev, picks, k);
      var pindex := index[cs[k].hash];
      OrBitAbove(nStakeModifierNew, nRound, pindex.EntropyBit());
      nStakeModifierNew := OrBit(nStakeModifierNew, nRound, pindex.EntropyBit());
      selected := selected + {pindex.hash};
      picks := picks + [k];
    }
    ok := true;
  }

  lemma NothingSelected(cs: seq<Candidate>)
    ensures SelectedBy(cs, []) == {}
  {
  }

  lemma PickPosition(h: SelectionHash, index: MapBlockIndex, cs: seq<Candidate>, selected: set<Hash>, stop: int,
                     prev: nat, k: nat)
    requires Known(index, cs) && IsPick(h, index, cs, selected, stop, prev, k)
    ensures k < |cs|
  {
  }

  lemma PickedHash(index: MapBlockIndex, cs: seq<Candidate>, k: nat)
    requires Known(index, cs) && k < |cs|
    ensures cs[k].hash in index && index[cs[k].hash].hash == cs[k].hash
  {
    assert KnownOne(index, cs[k]);
  }

  method ComputeNextStakeModifier(h: SelectionHash, index: MapBlockIndex, chain: seq<StakeBlock>)
    returns (ok: bool, nStakeModifier: nat, fGenerated: bool)
    requires DistinctHashes(chain) && Indexed(index, chain)
    ensures ok <==> chain == [] || chain[LastGenerated(chain)].fGenerated
    ensures ok ==> IsNextModifier(h, chain, nStakeModifier, fGenerated)
  {
    hide Sorted, Indexed, DistinctHashes, Generation, Window;
    nStakeModifier, fGenerated := 0, false;
    if chain == [] {
      return true, 0, true;
    }
    var nModifierTime;
    ok, nStakeModifier, nModifierTime := GetLastStakeModifier(chain);
    if !ok {
      return;
    }
    var tip := chain[|chain| - 1];
    if nModifierTime / MODIFIER_INTERVAL >= tip.nTime / MODIFIER_INTERVAL {
      return;
    }
    var nSelectionInterval := GetStakeModifierSelectionInterval();
    var start := tip.nTime / MODIFIER_INTERVAL * MODIFIER_INTERVAL - nSelectionInterval;
    var window := CollectWindow(chain, start);
    var cs := Sort(window);
    var m;
    ghost var picks;
    ok, m, picks := SelectRounds(h, index, chain, start, nStakeModifier, cs);
    assert start == IntervalStart(tip.nTime) && nStakeModifier == chain[LastGenerated(chain)].nStakeModifier;
    assert Generation(h, chain, IntervalStart(tip.nTime), chain[LastGenerated(chain)].nStakeModifier, cs, picks, m);
    nStakeModifier, fGenerated := m, true;
  }

  // ---------- the chain ----------

  /** Every block carries what ComputeNextStakeModifier finds on the blocks before it. */
  ghost predicate Built(h: SelectionHash, chain: seq<StakeBlock>) {
    && DistinctHashes(chain)
    && forall k :: 0 <= k < |chain| ==> BuiltAt(h, chain, k)
  }

  ghost predicate BuiltAt(h: SelectionHash, chain: seq<StakeBlock>, k: nat)
    requires k < |chain| && DistinctHashes(chain)
  {
    IsNextModifier(h, chain[..k], chain[k].nStakeModifier, chain[k].fGenerated)
  }

  /** The stake modifier part of AddToBlockIndex. */
  method AddToBlockIndex(h: SelectionHash, index: MapBlockIndex, chain: seq<StakeBlock>, block: StakeBlock)
    returns (ok: bool, chain': seq<StakeBlock>)
    requires Built(h, chain) && Indexed(index, chain)
    requires forall k :: 0 <= k < |chain| ==> chain[k].hash != block.hash
    ensures ok && |chain'| == |chain| + 1 && chain'[..|chain|] == chain && Built(h, chain')
    ensures chain'[|chain|] == block.(nStakeModifier := chain'[|chain|].nStakeModifier, fGenerated := chain'[|chain|].fGenerated)
  {
    var m, f;
    if chain != [] {
      GenesisGenerated(h, chain);
    }
    ok, m, f := ComputeNextStakeModifier(h, index, chain);
    var pindexNew := block.(nStakeModifier := m, fGenerated := f);
    chain' := chain + [pindexNew];
    forall k | 0 <= k < |chain'|
      ensures BuiltAt(h, chain', k)
    {
      assert chain'[..k] == chain[..k];
      assert chain[..|chain|] == chain;
      assert k < |chain| ==> BuiltAt(h, chain, k);
    }
  }

  /** The walk back always ends at a generating block. */
  lemma {:induction false} GenesisGenerated(h: SelectionHash, chain: seq<StakeBlock>)
    requires Built(h, chain) && chain != []
    ensures chain[LastGenerated(chain)].fGenerated
  {
    if |chain| == 1 {
      assert BuiltAt(h, chain, 0);
    } else if !chain[|chain| - 1].fGenerated {
      BuiltPrefix(h, chain, |chain| - 1);
      GenesisGenerated(h, chain[..|chain| - 1]);
    }
  }

  lemma BuiltPrefix(h: SelectionHash, chain: seq<StakeBlock>, n: nat)
    requires Built(h, chain) && n <= |chain|
    ensures Built(h, chain[..n])
  {
    forall k | 0 <= k < n
      ensures BuiltAt(h, chain[..n], k)
    {
      assert chain[..n][..k] == chain[..k];
      assert BuiltAt(h, chain, k);
    }
  }

  /** Every block's stored modifier is that of its nearest self-or-ancestor marked as generating. */
  lemma StoredModifier(h: SelectionHash, chain: seq<StakeBlock>, k: nat)
    requires Built(h, chain) && k < |chain|
    ensures var g := LastGenerated(chain[..k + 1]);
      chain[g].fGenerated && chain[k].nStakeModifier == chain[g].nStakeModifier
  {
    BuiltPrefix(h, chain, k + 1);
    GenesisGenerated(h, chain[..k + 1]);
    assert BuiltAt(h, chain, k);
    assert chain[..k + 1][..k] == chain[..k];
  }

  ghost predicate SameBlocks(a: seq<StakeBlock>, b: seq<StakeBlock>) {
    |a| == |b| && forall k :: 0 <= k < |a| ==> a[k] == b[k].(nStakeModifier := a[k].nStakeModifier, fGenerated := a[k].fGenerated)
  }

  /** Two nodes that hold the same blocks hold the same modifiers, whatever else is in their indexes. */
  lemma {:induction false} ModifiersDetermined(h: SelectionHash, a: seq<StakeBlock>, b: seq<StakeBlock>)
    requires Built(h, a) && Built(h, b) && SameBlocks(a, b)
    ensures a == b
  {
    if a != [] {
      var n := |a| - 1;
      BuiltPrefix(h, a, n);
      BuiltPrefix(h, b, n);
      ModifiersDetermined(h, a[..n], b[..n]);
      assert BuiltAt(h, a, n) && BuiltAt(h, b, n);
      NextModifierUnique(h, a[..n], a[n].nStakeModifier, a[n].fGenerated, b[n].nStakeModifier, b[n].fGenerated);
      assert a == a[..n] + [a[n]] && b == b[..n] + [b[n]];
    }
  }
}
