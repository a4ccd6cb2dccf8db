/** The next difficulty target, from the block times of a chain. Heights are positions in it. */
module Retarget {
  import opened Common
  import opened Numerals
  import opened Bignum
  import opened CompactTarget

  const TARGET_SPACING: int := 120
  const FORK_HEIGHT_ONE: int := 225_000
  const INTERVAL_SHORT: nat := 5
  const INTERVAL_LONG: nat := 20
  const SPACING: int := 2 * TARGET_SPACING
  const TIMESPAN: int := SPACING * INTERVAL_LONG

  datatype Header = Header(nTime: Uint32, nBits: Uint32, fProofOfStake: bool)

  /** The easiest targets of the two block types, and the first one after the hash function changed. */
  datatype Limits = Limits(work: nat, stake: nat, neoScryptFirst: nat)

  // ---------- walking back along one block type ----------

  function CountType(chain: seq<Header>, lo: nat, hi: nat, fPos: bool): nat
    requires lo <= hi <= |chain|
    decreases hi - lo
  {
    if lo == hi then 0
    else (if chain[hi - 1].fProofOfStake == fPos then 1 else 0) + CountType(chain, lo, hi - 1, fPos)
  }

  /** pindex or -1 for none. */
  method GetPrevBlockIndex(chain: seq<Header>, pindex0: int, nRange0: nat, fPos: bool) returns (r: int)
    requires -1 <= pindex0 < |chain|
    ensures r == Behind(chain, pindex0, nRange0, fPos)
  {
    if pindex0 == -1 {
      return -1;
    }
    var pindex, nRange := pindex0, nRange0 + 1;
    while nRange > 0
      invariant 0 <= pindex < |chain|
      invariant nRange > 0 ==> Behind(chain, pindex0, nRange0, fPos) == Behind(chain, pindex, nRange - 1, fPos)
      invariant nRange > 0
      decreases pindex
    {
      if chain[pindex].fProofOfStake == fPos {
        nRange := nRange - 1;
        if nRange == 0 {
          return pindex;
        }
      }
      if pindex == 0 {
        break;
      }
      pindex := pindex - 1;
    }
    return -1;
  }

  /** The n-th block of the type before the first one found from pindex down, -1 if there is none. */
  function Behind(chain: seq<Header>, pindex: int, n: nat, fPos: bool): (r: int)
    requires -1 <= pindex < |chain|
    ensures -1 <= r <= pindex
    decreases pindex + 1
  {
    if pindex == -1 then -1
    else if chain[pindex].fProofOfStake != fPos then Behind(chain, pindex - 1, n, fPos)
    else if n == 0 then pindex
    else Behind(chain, pindex - 1, n - 1, fPos)
  }

  /** The block found is of the type and has exactly n of its type above it, up to pindex. */
  lemma {:induction false} BehindCounts(chain: seq<Header>, pindex: int, n: nat, fPos: bool)
    requires -1 <= pindex < |chain|
    ensures var r := Behind(chain, pindex, n, fPos);
      && (r == -1 <==> CountType(chain, 0, pindex + 1, fPos) <= n)
      && (r >= 0 ==> chain[r].fProofOfStake == fPos && CountType(chain, r, pindex + 1, fPos) == n + 1)
    decreases pindex + 1
  {
    if pindex >= 0 {
      if chain[pindex].fProofOfStake != fPos {
        BehindCounts(chain, pindex - 1, n, fPos);
      } else if n > 0 {
        BehindCounts(chain, pindex - 1, n - 1, fPos);
      } else {
        assert CountType(chain, pindex, pindex, fPos) == 0;
      }
    }
  }

  lemma {:induction false} CountSplit(chain: seq<Header>, lo: nat, mid: nat, hi: nat, fPos: bool)
    requires lo <= mid <= hi <= |chain|
    ensures CountType(chain, lo, hi, fPos) == CountType(chain, lo, mid, fPos) + CountType(chain, mid, hi, fPos)
    decreases hi - mid
  {
    if mid < hi {
      CountSplit(chain, lo, mid, hi - 1, fPos);
    }
  }

  /** Going 5 back and then 15 more ends exactly 20 blocks of the type behind. */
  lemma LongWindow(chain: seq<Header>, pindexPrev: nat, fPos: bool)
    requires pindexPrev < |chain| && chain[pindexPrev].fProofOfStake == fPos
    requires var s := Behind(chain, pindexPrev, INTERVAL_SHORT, fPos);
      s >= 0 && Behind(chain, s, INTERVAL_LONG - INTERVAL_SHORT, fPos) >= 0
    ensures var s := Behind(chain, pindexPrev, INTERVAL_SHORT, fPos);
      var l := Behind(chain, s, INTERVAL_LONG - INTERVAL_SHORT, fPos);
      CountType(chain, l, pindexPrev, fPos) == INTERVAL_LONG && l == Behind(chain, pindexPrev, INTERVAL_LONG, fPos)
  {
    var s := Behind(chain, pindexPrev, INTERVAL_SHORT, fPos);
    var l := Behind(chain, s, INTERVAL_LONG - INTERVAL_SHORT, fPos);
    BehindCounts(chain, pindexPrev, INTERVAL_SHORT, fPos);
    BehindCounts(chain, s, INTERVAL_LONG - INTERVAL_SHORT, fPos);
    CountSplit(chain, l, s + 1, pindexPrev + 1, fPos);
    CountSplit(chain, s, s + 1, pindexPrev + 1, fPos);
    BehindUnique(chain, pindexPrev, INTERVAL_LONG, fPos, l);
  }

  /** The counts determine the block. */
  lemma {:induction false} BehindUnique(chain: seq<Header>, pindex: nat, n: nat, fPos: bool, r: nat)
    requires r <= pindex < |chain| && chain[r].fProofOfStake == fPos && CountType(chain, r, pindex + 1, fPos) == n + 1
    ensures Behind(chain, pindex, n, fPos) == r
  {
    if chain[pindex].fProofOfStake != fPos {
      BehindUnique(chain, pindex - 1, n, fPos, r);
    } else if n > 0 {
      assert r != pindex by { assert CountType(chain, pindex, pindex, fPos) == 0; }
      BehindUnique(chain, pindex - 1, n - 1, fPos, r);
    } else if r < pindex {
      CountSplit(chain, r, r + 1, pindex, fPos);
      assert false;
    }
  }

  // ---------- the retarget rule after the first fork ----------

  /** Division that drops the fraction, as the big-number library's. */
  function TruncDiv(x: int, y: int): int
    requires y > 0
  {
    if x >= 0 then x / y else -(-x / y)
  }

  /** The damped and limited timespan, from the two measured ones. */
  function ActualTimespan(nShort: int, nLong: int): int {
    var s := Min(Max(nShort, SPACING * INTERVAL_SHORT / 2), SPACING * INTERVAL_SHORT * 2);
    var l := Min(Max(nLong, SPACING * INTERVAL_LONG / 2), SPACING * INTERVAL_LONG * 2);
    var nAvg := (s * (INTERVAL_LONG / INTERVAL_SHORT) + l) / 2;
    var nActual := (nAvg + 3 * TIMESPAN) / 4;
    Min(Max(nActual, TIMESPAN * 100 / 110), TIMESPAN * 120 / 100)
  }

  /** The target before it is compacted. */
  function NewTarget(old_: int, nShort: int, nLong: int, limit: nat): int {
    Min(TruncDiv(old_ * ActualTimespan(nShort, nLong), TIMESPAN), limit)
  }

  lemma TimespanBounds(nShort: int, nLong: int)
    ensures 4363 <= ActualTimespan(nShort, nLong) <= 5760
  {
  }

  lemma TimespanMonotone(s1: int, s2: int, l1: int, l2: int)
    requires s1 <= s2 && l1 <= l2
    ensures ActualTimespan(s1, l1) <= ActualTimespan(s2, l2)
  {
  }

  /** One block changes the target by at most -9.1 and +20 percent. */
  lemma NewTargetBounds(old_: nat, nShort: int, nLong: int, limit: nat)
    ensures Min(limit, old_ * 4363 / 4800) <= NewTarget(old_, nShort, nLong, limit) <= Min(limit, old_ * 5760 / 4800)
  {
    var t := ActualTimespan(nShort, nLong);
    TimespanBounds(nShort, nLong);
    hide ActualTimespan;
    MulMono(4363, t, old_);
    MulMono(t, 5760, old_);
    DivMonotone(old_ * 4363, old_ * t, 4800);
    DivMonotone(old_ * t, old_ * 5760, 4800);
  }

  /** Slower windows never make the target harder. */
  lemma NewTargetMonotone(old_: nat, s1: int, s2: int, l1: int, l2: int, limit: nat)
    requires s1 <= s2 && l1 <= l2
    ensures NewTarget(old_, s1, l1, limit) <= NewTarget(old_, s2, l2, limit)
  {
    TimespanMonotone(s1, s2, l1, l2);
    TimespanBounds(s1, l1);
    hide ActualTimespan;
    MulMono(ActualTimespan(s1, l1), ActualTimespan(s2, l2), old_);
    MulMono(0, ActualTimespan(s1, l1), old_);
    DivMonotone(old_ * ActualTimespan(s1, l1), old_ * ActualTimespan(s2, l2), TIMESPAN);
  }

  /** Both windows exactly on schedule leave the target alone. */
  lemma OnScheduleUnchanged(old_: nat, limit: nat)
    requires old_ <= limit
    ensures NewTarget(old_, SPACING * INTERVAL_SHORT, SPACING * INTERVAL_LONG, limit) == old_
  {
    DivModUnique(old_, 4800, 0);
  }

  /** The rule before the first fork. */
  function LegacyTarget(old_: int, nSpacing: int, limit: nat): int {
    var s := if nSpacing < 0 then TARGET_SPACING else nSpacing;
    var t := TruncDiv(old_ * (4 * TARGET_SPACING + s + s), 6 * TARGET_SPACING);
    if t <= 0 || t > limit then limit else t
  }

  /** What the code decides, case by case, as a target still to be compacted. */
  function RequiredTarget(chain: seq<Header>, fPos: bool, lim: Limits): int {
    var limit := if fPos then lim.stake else lim.work;
    var prev := Behind(chain, |chain| - 1, 0, fPos);
    if prev == -1 then limit
    else
      var old_ := FromCompact(chain[prev].nBits);
      if |chain| < FORK_HEIGHT_ONE then
        var prevPrev := Behind(chain, prev, 1, fPos);
        if prevPrev == -1 then limit
        else LegacyTarget(old_, chain[prev].nTime - chain[prevPrev].nTime, limit)
      else if !fPos && prev < FORK_HEIGHT_ONE then lim.neoScryptFirst
      else
        var s := Behind(chain, prev, INTERVAL_SHORT, fPos);
        if s == -1 then limit
        else
          var l := Behind(chain, s, INTERVAL_LONG - INTERVAL_SHORT, fPos);
          if l == -1 then limit
          else NewTarget(old_, chain[prev].nTime - chain[s].nTime, chain[prev].nTime - chain[l].nTime, limit)
  }

  /** The target for the block on top of `chain`; the empty chain stands for the genesis block's parent. */
  method GetNextTargetRequired(chain: seq<Header>, fPos: bool, lim: Limits) returns (nBits: Uint32)
    ensures nBits == CompactOf(RequiredTarget(chain, fPos, lim))
  {
    hide FromCompact, CompactOf, BodyOf, Behind, ActualTimespan;
    var limit := if fPos then lim.stake else lim.work;
    var pindexLast := |chain| - 1;
    if pindexLast == -1 {
      nBits := GetCompact(limit);
      return;
    }
    var pindexPrev := GetPrevBlockIndex(chain, pindexLast, 0, fPos);
    if pindexPrev == -1 {
      nBits := GetCompact(limit);
      return;
    }
    var nHeight := pindexLast + 1;
    var bnNew := SetCompact(chain[pindexPrev].nBits);
    if nHeight < FORK_HEIGHT_ONE {
      var pindexPrevPrev := GetPrevBlockIndex(chain, pindexPrev, 1, fPos);
      if pindexPrevPrev == -1 {
        nBits := GetCompact(limit);
        return;
      }
      var nTargetTimespan := 10 * 60;
      var nActualSpacing := chain[pindexPrev].nTime - chain[pindexPrevPrev].nTime;
      if nActualSpacing < 0 {
        nActualSpacing := TARGET_SPACING;
      }
      var nInterval := nTargetTimespan / TARGET_SPACING;
      bnNew := bnNew * ((nInterval - 1) * TARGET_SPACING + nActualSpacing + nActualSpacing);
      bnNew := TruncDiv(bnNew, (nInterval + 1) * TARGET_SPACING);
      if bnNew <= 0 || bnNew > limit {
        bnNew := limit;
      }
    } else {
      if !fPos && pindexPrev < FORK_HEIGHT_ONE {
        nBits := GetCompact(lim.neoScryptFirst);
        return;
      }
      var pindexShort := GetPrevBlockIndex(chain, pindexPrev, INTERVAL_SHORT, fPos);
      if pindexShort == -1 {
        nBits := GetCompact(limit);
        return;
      }
      var pindexLong := GetPrevBlockIndex(chain, pindexShort, INTERVAL_LONG - INTERVAL_SHORT, fPos);
      if pindexLong == -1 {
        nBits := GetCompact(limit);
        return;
      }
      var nShort := chain[pindexPrev].nTime - chain[pindexShort].nTime;
      var nLong := chain[pindexPrev].nTime - chain[pindexLong].nTime;
      bnNew := bnNew * ActualTimespan(nShort, nLong);
      bnNew := TruncDiv(bnNew, TIMESPAN);
      if bnNew > limit {
        bnNew := limit;
      }
    }
    nBits := GetCompact(bnNew);
  }

  /**
   * In a chain whose targets are not negative, the next one is not either, and
   * decodes to at most the limit once it is compacted, whatever the branch.
   */
  lemma RequiredWithinLimit(chain: seq<Header>, fPos: bool, lim: Limits)
    requires lim.neoScryptFirst <= lim.work && |Padded(lim.work)| <= 255 && |Padded(lim.stake)| <= 255
    requires forall i :: 0 <= i < |chain| ==> FromCompact(chain[i].nBits) >= 0
    ensures var limit := if fPos then lim.stake else lim.work;
      0 <= FromCompact(CompactOf(RequiredTarget(chain, fPos, lim))) <= limit
  {
    var limit := if fPos then lim.stake else lim.work;
    RequiredNotNegative(chain, fPos, lim);
    var t := RequiredTarget(chain, fPos, lim);
    assert t <= limit;
    hide RequiredTarget;
    ClampedStaysBelow(t, limit);
    SizeMonotone(t, limit);
    DecodedIsTruncated(t);
  }

  lemma RequiredNotNegative(chain: seq<Header>, fPos: bool, lim: Limits)
    requires forall i :: 0 <= i < |chain| ==> FromCompact(chain[i].nBits) >= 0
    ensures RequiredTarget(chain, fPos, lim) >= 0
  {
    hide FromCompact, ActualTimespan, Behind;
    var prev := Behind(chain, |chain| - 1, 0, fPos);
    if prev >= 0 {
      var old_ := FromCompact(chain[prev].nBits);
      forall nShort, nLong, limit: nat
        ensures NewTarget(old_, nShort, nLong, limit) >= 0
      {
        TimespanBounds(nShort, nLong);
        MulMono(0, ActualTimespan(nShort, nLong), old_);
        DivMonotone(0, old_ * ActualTimespan(nShort, nLong), TIMESPAN);
      }
    }
  }

  // ---------- the required target in terms of positions and times ----------

  /** The last block of the type. */
  ghost predicate IsLast(chain: seq<Header>, fPos: bool, prev: int) {
    0 <= prev < |chain| && chain[prev].fProofOfStake == fPos && CountType(chain, prev, |chain|, fPos) == 1
  }

  /** Position i has a block of the type, with n - 1 of the type between it and prev. */
  ghost predicate IsBefore(chain: seq<Header>, fPos: bool, prev: int, n: nat, i: int) {
    0 <= i <= prev < |chain| && chain[i].fProofOfStake == fPos && CountType(chain, i, prev, fPos) == n
  }

  lemma BehindAt(chain: seq<Header>, fPos: bool, prev: int, n: nat, i: int)
    requires IsBefore(chain, fPos, prev, n, i) && chain[prev].fProofOfStake == fPos
    ensures Behind(chain, prev, n, fPos) == i
  {
    BehindUnique(chain, prev, n, fPos, i);
  }

  /** Later windows of the type found from one of its blocks. */
  lemma BetweenCounts(chain: seq<Header>, fPos: bool, prev: int, m: nat, n: nat, i: int, j: int)
    requires IsBefore(chain, fPos, prev, m, i) && IsBefore(chain, fPos, prev, m + n, j)
    ensures IsBefore(chain, fPos, i, n, j)
  {
    if j > i {
      CountSplit(chain, i, i + 1, j, fPos);
      CountSplit(chain, i, j, prev, fPos);
      assert false;
    } else {
      CountSplit(chain, j, i, prev, fPos);
    }
  }

  /** Where the two windows begin, given the last block of the type and those 5 and 20 of the type before it. */
  lemma WindowsFound(chain: seq<Header>, fPos: bool, prev: int, s: int, l: int)
    requires IsLast(chain, fPos, prev) && IsBefore(chain, fPos, prev, 5, s) && IsBefore(chain, fPos, prev, 20, l)
    ensures Behind(chain, |chain| - 1, 0, fPos) == prev && Behind(chain, prev, INTERVAL_SHORT, fPos) == s
    ensures Behind(chain, s, INTERVAL_LONG - INTERVAL_SHORT, fPos) == l
  {
    BehindUnique(chain, |chain| - 1, 0, fPos, prev);
    BehindAt(chain, fPos, prev, 5, s);
    BetweenCounts(chain, fPos, prev, 5, 15, s, l);
    BehindAt(chain, fPos, s, 15, l);
  }

  /** After the fork, with both windows there, in figures: 240 seconds a block, five and twenty blocks. */
  ghost predicate BothWindows(chain: seq<Header>, fPos: bool, prev: int, s: int, l: int) {
    && |chain| >= 225_000 && (fPos || prev >= 225_000)
    && IsLast(chain, fPos, prev) && IsBefore(chain, fPos, prev, 5, s) && IsBefore(chain, fPos, prev, 20, l)
  }

  function LimitOf(fPos: bool, lim: Limits): nat {
    if fPos then lim.stake else lim.work
  }

  /** Twenty blocks in 4800 seconds, the last five of them in 1200: the target stays. */
  lemma OnScheduleRequired(chain: seq<Header>, fPos: bool, lim: Limits, prev: int, s: int, l: int)
    requires BothWindows(chain, fPos, prev, s, l)
    requires chain[prev].nTime - chain[s].nTime == 1200 && chain[prev].nTime - chain[l].nTime == 4800
    requires 0 <= FromCompact(chain[prev].nBits) <= LimitOf(fPos, lim)
    ensures RequiredTarget(chain, fPos, lim) == FromCompact(chain[prev].nBits)
  {
    hide FromCompact, ActualTimespan, Behind, NewTarget;
    WindowsFound(chain, fPos, prev, s, l);
    OnScheduleUnchanged(FromCompact(chain[prev].nBits), LimitOf(fPos, lim));
  }

  /** Twenty blocks in 4800 seconds: the time of the last five, taken between 600 and 2400, decides. */
  lemma LongOnSchedule(chain: seq<Header>, fPos: bool, lim: Limits, prev: int, s: int, l: int)
    requires BothWindows(chain, fPos, prev, s, l) && chain[prev].nTime - chain[l].nTime == 4800
    requires FromCompact(chain[prev].nBits) >= 0
    ensures var t := Min(Max(chain[prev].nTime - chain[s].nTime, 600), 2400);
      RequiredTarget(chain, fPos, lim) ==
        Min(FromCompact(chain[prev].nBits) * ((2 * t + 16_800) / 4) / 4800, LimitOf(fPos, lim))
  {
    hide FromCompact, Behind;
    WindowsFound(chain, fPos, prev, s, l);
    var t := Min(Max(chain[prev].nTime - chain[s].nTime, 600), 2400);
    assert ActualTimespan(chain[prev].nTime - chain[s].nTime, 4800) == (2 * t + 16_800) / 4;
    MulMono(0, (2 * t + 16_800) / 4, FromCompact(chain[prev].nBits));
  }

  /** The last five blocks in 1200 seconds: the time of the twenty, taken between 2400 and 9600, decides. */
  lemma ShortOnSchedule(chain: seq<Header>, fPos: bool, lim: Limits, prev: int, s: int, l: int)
    requires BothWindows(chain, fPos, prev, s, l) && chain[prev].nTime - chain[s].nTime == 1200
    requires FromCompact(chain[prev].nBits) >= 0
    ensures var t := Min(Max(chain[prev].nTime - chain[l].nTime, 2400), 9600);
      RequiredTarget(chain, fPos, lim) ==
        Min(FromCompact(chain[prev].nBits) * (((4800 + t) / 2 + 14_400) / 4) / 4800, LimitOf(fPos, lim))
  {
    hide FromCompact, Behind;
    WindowsFound(chain, fPos, prev, s, l);
    var t := Min(Max(chain[prev].nTime - chain[l].nTime, 2400), 9600);
    assert ActualTimespan(1200, chain[prev].nTime - chain[l].nTime) == ((4800 + t) / 2 + 14_400) / 4;
    MulMono(0, ((4800 + t) / 2 + 14_400) / 4, FromCompact(chain[prev].nBits));
  }

  /**
   * Whenever both windows are there: the target is multiplied by a damped average of the two times, each limited to
   * between half and twice its schedule, and divided by 4800; the average is limited once more.
   */
  lemma WindowsDecide(chain: seq<Header>, fPos: bool, lim: Limits, prev: int, s: int, l: int)
    requires BothWindows(chain, fPos, prev, s, l) && FromCompact(chain[prev].nBits) >= 0
    ensures
      var short := Min(Max(chain[prev].nTime - chain[s].nTime, 600), 2400);
      var long := Min(Max(chain[prev].nTime - chain[l].nTime, 2400), 9600);
      var t := Min(Max(((4 * short + long) / 2 + 14_400) / 4, 4363), 5760);
      RequiredTarget(chain, fPos, lim) == Min(FromCompact(chain[prev].nBits) * t / 4800, LimitOf(fPos, lim))
  {
    hide FromCompact, Behind;
    WindowsFound(chain, fPos, prev, s, l);
    var short := Min(Max(chain[prev].nTime - chain[s].nTime, 600), 2400);
    var long := Min(Max(chain[prev].nTime - chain[l].nTime, 2400), 9600);
    var t := Min(Max(((4 * short + long) / 2 + 14_400) / 4, 4363), 5760);
    assert ActualTimespan(chain[prev].nTime - chain[s].nTime, chain[prev].nTime - chain[l].nTime) == t;
    MulMono(0, t, FromCompact(chain[prev].nBits));
  }

  /**
   * Before the fork: with the block of the type before the last one dt seconds earlier, the target is multiplied by
   * (480 + 2 * dt) / 720, and is the limit when that is nothing or too much. A negative time counts as 120 seconds, and
   * that leaves the target alone.
   */
  lemma LegacyRequired(chain: seq<Header>, fPos: bool, lim: Limits, prev: int, p: int)
    requires |chain| < 225_000 && IsLast(chain, fPos, prev) && IsBefore(chain, fPos, prev, 1, p)
    requires FromCompact(chain[prev].nBits) >= 0
    ensures var old_, limit, dt := FromCompact(chain[prev].nBits), LimitOf(fPos, lim), chain[prev].nTime - chain[p].nTime;
      var t := if dt < 0 then old_ else old_ * (480 + 2 * dt) / 720;
      && RequiredTarget(chain, fPos, lim) == (if 0 < t <= limit then t else limit)
      && (dt == 120 && 0 < old_ <= limit ==> RequiredTarget(chain, fPos, lim) == old_)
  {
    hide FromCompact, Behind;
    BehindUnique(chain, |chain| - 1, 0, fPos, prev);
    BehindAt(chain, fPos, prev, 1, p);
    var old_, dt := FromCompact(chain[prev].nBits), chain[prev].nTime - chain[p].nTime;
    DivModUnique(old_, 720, 0);
    if dt >= 0 {
      MulMono(0, 480 + 2 * dt, old_);
    }
  }

  /** Without enough blocks of the type the limit is required, and the first work blocks after the fork start anew. */
  lemma TooFewBlocks(chain: seq<Header>, fPos: bool, lim: Limits)
    ensures CountType(chain, 0, |chain|, fPos) == 0 ==> RequiredTarget(chain, fPos, lim) == LimitOf(fPos, lim)
    ensures |chain| < 225_000 && CountType(chain, 0, |chain|, fPos) == 1 ==>
      RequiredTarget(chain, fPos, lim) == LimitOf(fPos, lim)
    ensures forall prev :: |chain| >= 225_000 && IsLast(chain, fPos, prev) && (fPos || prev >= 225_000)
                           && CountType(chain, 0, |chain|, fPos) <= 20 ==>
      RequiredTarget(chain, fPos, lim) == LimitOf(fPos, lim)
    ensures forall prev :: |chain| >= 225_000 && IsLast(chain, fPos, prev) && !fPos && prev < 225_000 ==>
      RequiredTarget(chain, fPos, lim) == lim.neoScryptFirst
  {
    hide FromCompact, NewTarget, LegacyTarget;
    BehindCounts(chain, |chain| - 1, 0, fPos);
    var prev := Behind(chain, |chain| - 1, 0, fPos);
    if prev >= 0 {
      CountSplit(chain, 0, prev, |chain|, fPos);
      CountSplit(chain, 0, prev, prev + 1, fPos);
      BehindCounts(chain, prev, 1, fPos);
      BehindCounts(chain, prev, INTERVAL_SHORT, fPos);
      var s := Behind(chain, prev, INTERVAL_SHORT, fPos);
      if s >= 0 {
        BehindCounts(chain, s, INTERVAL_LONG - INTERVAL_SHORT, fPos);
        CountSplit(chain, 0, s, prev + 1, fPos);
        CountSplit(chain, 0, s, s + 1, fPos);
      }
    }
    forall p | IsLast(chain, fPos, p)
      ensures p == prev
    {
      BehindUnique(chain, |chain| - 1, 0, fPos, p);
    }
  }
}
