/**
 * Counting page locks (src/allocators.h:30-94): the operating system's locks do not stack, the manager's do.
 * Page n of memory starts at address n * page_size; addresses do not wrap around.
 */
module LockedPages {
  import opened Common

  const ADDRESS_LIMIT: nat := 0x1_0000_0000_0000_0000

  datatype Range = Range(p: nat, size: nat)

  function Base(page_size: nat, n: nat): nat {
    n * page_size
  }

  /** Some byte of r lies in the page that starts at `page`. */
  ghost predicate Touches(page_size: nat, r: Range, page: nat) {
    exists a: nat :: InRange(r, a) && InPage(page_size, page, a)
  }

  predicate InRange(r: Range, a: nat) {
    r.p <= a < r.p + r.size
  }

  predicate InPage(page_size: nat, page: nat, a: nat) {
    page <= a < page + page_size
  }

  /** The number of ranges with a byte in the page. */
  ghost function Holders(page_size: nat, ranges: seq<Range>, page: nat): nat {
    if ranges == [] then 0
    else (if Touches(page_size, ranges[0], page) then 1 else 0) + Holders(page_size, ranges[1..], page)
  }

  // ---------- page arithmetic ----------

  lemma BaseMonotone(page_size: nat, m: nat, n: nat)
    requires page_size > 0
    ensures m < n ==> Base(page_size, m) + page_size <= Base(page_size, n)
    ensures m == n <==> Base(page_size, m) == Base(page_size, n)
  {
    if m < n {
      assert (m + 1) * page_size <= n * page_size;
    } else if n < m {
      assert (n + 1) * page_size <= m * page_size;
    }
  }

  lemma BaseNext(page_size: nat, n: nat)
    ensures Base(page_size, n + 1) == Base(page_size, n) + page_size
  {
  }

  /** Clearing the low bits of an address, for a page size that is a power of two, rounds it down to its page. */
  function PageNumber(page_size: nat, a: nat): (n: nat)
    requires page_size > 0
    ensures Base(page_size, n) <= a < Base(page_size, n) + page_size
  {
    a / page_size
  }

  /** A page is touched exactly when it lies between the pages of the first and the last byte. */
  lemma TouchesPages(page_size: nat, r: Range, n: nat)
    requires page_size > 0 && r.size > 0
    ensures Touches(page_size, r, Base(page_size, n)) <==>
            PageNumber(page_size, r.p) <= n <= PageNumber(page_size, r.p + r.size - 1)
  {
    hide Base;
    var page, first, last := Base(page_size, n), PageNumber(page_size, r.p), PageNumber(page_size, r.p + r.size - 1);
    BaseMonotone(page_size, n, first);
    BaseMonotone(page_size, last, n);
    if first <= n <= last {
      BaseMonotone(page_size, first, n);
      BaseMonotone(page_size, n, last);
      var a := if page < r.p then r.p else page;
      assert InRange(r, a) && InPage(page_size, page, a);
    }
  }

  lemma NoBytes(page_size: nat, r: Range, page: nat)
    requires r.size == 0
    ensures !Touches(page_size, r, page)
  {
  }

  // ---------- counting ranges ----------

  lemma {:induction false} HoldersWithout(page_size: nat, ranges: seq<Range>, at: nat, page: nat)
    requires at < |ranges|
    ensures Holders(page_size, ranges, page) ==
            Holders(page_size, ranges[..at] + ranges[at + 1..], page)
            + if Touches(page_size, ranges[at], page) then 1 else 0
  {
    var rest := ranges[..at] + ranges[at + 1..];
    if at == 0 {
      assert rest == ranges[1..];
    } else {
      HoldersWithout(page_size, ranges[1..], at - 1, page);
      assert rest[1..] == ranges[1..][..at - 1] + ranges[1..][at..];
      assert rest[0] == ranges[0];
    }
  }

  lemma {:induction false} HoldersPositive(page_size: nat, ranges: seq<Range>, at: nat, page: nat)
    requires at < |ranges| && Touches(page_size, ranges[at], page)
    ensures Holders(page_size, ranges, page) > 0
  {
    HoldersWithout(page_size, ranges, at, page);
  }

  function Count(histogram: map<nat, int>, page: nat): int {
    if page in histogram then histogram[page] else 0
  }

  /** histogram counts, for every page, the ranges that touch it, and holds no other keys. */
  ghost predicate Counts(page_size: nat, histogram: map<nat, int>, ranges: seq<Range>) {
    && (forall n: nat :: Count(histogram, Base(page_size, n)) == Holders(page_size, ranges, Base(page_size, n)))
    && Clean(page_size, histogram)
  }

  /** Keys are pages, with positive counts. */
  ghost predicate Clean(page_size: nat, histogram: map<nat, int>) {
    forall page :: page in histogram ==> histogram[page] > 0 && IsPage(page_size, page)
  }

  ghost predicate IsPage(page_size: nat, page: nat) {
    exists n: nat :: page == Base(page_size, n)
  }

  /** The counts of the pages lo up to hi have moved by d. */
  ghost predicate Shifted(page_size: nat, h0: map<nat, int>, h: map<nat, int>, lo: nat, hi: int, d: int) {
    forall n: nat :: Count(h, Base(page_size, n)) == Count(h0, Base(page_size, n)) + if lo <= n < hi then d else 0
  }

  function Increment(h: map<nat, int>, page: nat): map<nat, int> {
    h[page := Count(h, page) + 1]
  }

  function Decrement(h: map<nat, int>, page: nat): map<nat, int> {
    if Count(h, page) == 1 then h - {page} else h[page := Count(h, page) - 1]
  }

  lemma ShiftOne(page_size: nat, h0: map<nat, int>, h: map<nat, int>, lo: nat, k: nat)
    requires page_size > 0 && lo <= k && Clean(page_size, h)
    ensures Shifted(page_size, h0, h, lo, k, 1) ==>
              Shifted(page_size, h0, Increment(h, Base(page_size, k)), lo, k + 1, 1)
    ensures Clean(page_size, Increment(h, Base(page_size, k)))
    ensures Shifted(page_size, h0, h, lo, k, -1) && Count(h, Base(page_size, k)) > 0 ==>
              Shifted(page_size, h0, Decrement(h, Base(page_size, k)), lo, k + 1, -1)
              && Clean(page_size, Decrement(h, Base(page_size, k)))
  {
    hide Base;
    forall n: nat
      ensures n != k ==> Base(page_size, n) != Base(page_size, k)
    {
      BaseMonotone(page_size, n, k);
    }
    assert IsPage(page_size, Base(page_size, k));
  }

  class LockedPageManager {
    const page_size: nat
    var histogram: map<nat, int>

    /** The pages the operating system keeps in memory: Lock adds one, Unlock removes it however often it was locked. */
    var locker: set<nat>

    /** The ranges locked and not yet unlocked. */
    ghost var outstanding: seq<Range>

    ghost predicate Valid()
      reads this
    {
      && page_size > 0
      && Counts(page_size, histogram, outstanding)
      && locker == histogram.Keys
      && forall k :: 0 <= k < |outstanding| ==> outstanding[k].size > 0
    }

    constructor (page_size: nat)
      requires page_size > 0
      ensures Valid() && this.page_size == page_size && outstanding == []
    {
      this.page_size := page_size;
      histogram, locker, outstanding := map[], {}, [];
    }

    method LockRange(p: nat, size: nat)
      requires Valid() && p + size + page_size < ADDRESS_LIMIT
      modifies this
      ensures Valid()
      ensures outstanding == if size == 0 then old(outstanding) else [Range(p, size)] + old(outstanding)
    {
      hide Base, Holders, Touches, Clean, Count, Increment, Shifted;
      if size == 0 {
        return;
      }
      ghost var before := histogram;
      ghost var k, end := PageNumber(page_size, p), PageNumber(page_size, p + size - 1);
      ghost var start := k;
      var page := Base(page_size, PageNumber(page_size, p));
      var end_page := Base(page_size, PageNumber(page_size, p + size - 1));
      ShiftedNone(page_size, histogram, start);
      FirstBeforeLast(page_size, p, size);
      while page <= end_page
        invariant page == Base(page_size, k) && start <= k <= end + 1
        invariant Shifted(page_size, before, histogram, start, k, 1)
        invariant Clean(page_size, histogram) && locker == histogram.Keys
        invariant outstanding == old(outstanding)
        decreases end + 1 - k
      {
        WithinPages(page_size, k, end);
        ShiftOne(page_size, before, histogram, start, k);
        Incremented(histogram, page);
        if page !in histogram {
          locker := locker + {page};
          histogram := histogram[page := 1];
        } else {
          histogram := histogram[page := histogram[page] + 1];
        }
        BaseNext(page_size, k);
        page, k := page + page_size, k + 1;
      }
      PastPages(page_size, k, end);
      outstanding := [Range(p, size)] + outstanding;
      CountsLocked(page_size, before, histogram, old(outstanding), Range(p, size));
    }

    /** `at` says which outstanding range this matches. */
    method UnlockRange(p: nat, size: nat, ghost at: nat)
      requires Valid() && p + size + page_size < ADDRESS_LIMIT
      requires size > 0 ==> at < |outstanding| && outstanding[at] == Range(p, size)
      modifies this
      ensures Valid()
      ensures outstanding == if size == 0 then old(outstanding) else old(outstanding[..at] + outstanding[at + 1..])
    {
      hide Base, Holders, Touches, Clean, Count, Decrement, Shifted;
      if size == 0 {
        return;
      }
      ghost var before := histogram;
      ghost var k, end := PageNumber(page_size, p), PageNumber(page_size, p + size - 1);
      ghost var start := k;
      var page := Base(page_size, PageNumber(page_size, p));
      var end_page := Base(page_size, PageNumber(page_size, p + size - 1));
      ShiftedNone(page_size, histogram, start);
      FirstBeforeLast(page_size, p, size);
      while page <= end_page
        invariant page == Base(page_size, k) && start <= k <= end + 1
        invariant Shifted(page_size, before, histogram, start, k, -1)
        invariant Clean(page_size, histogram) && locker == histogram.Keys
        invariant outstanding == old(outstanding)
        decreases end + 1 - k
      {
        WithinPages(page_size, k, end);
        StillHeld(page_size, before, histogram, outstanding, at, k);
        ShiftOne(page_size, before, histogram, start, k);
        Decremented(histogram, page);
        assert page in histogram;
        histogram := histogram[page := histogram[page] - 1];
        if histogram[page] == 0 {
          locker := locker - {page};
          histogram := histogram - {page};
        }
        BaseNext(page_size, k);
        page, k := page + page_size, k + 1;
      }
      PastPages(page_size, k, end);
      outstanding := outstanding[..at] + outstanding[at + 1..];
      CountsUnlocked(page_size, before, histogram, old(outstanding), at);
    }

    method GetLockedPageCount() returns (n: nat)
      requires Valid()
      ensures n == |locker|
      ensures n == 0 <==> outstanding == []
    {
      n := |histogram|;
      LockedIffHeld(page_size, histogram, outstanding);
      assert |histogram| == |histogram.Keys|;
    }
  }

  /** At page k of the range the count has not moved yet, and the range itself is part of it. */
  lemma StillHeld(page_size: nat, h0: map<nat, int>, h: map<nat, int>, ranges: seq<Range>, at: nat, k: nat)
    requires page_size > 0 && Counts(page_size, h0, ranges) && at < |ranges| && ranges[at].size > 0
    requires var r := ranges[at];
      && PageNumber(page_size, r.p) <= k <= PageNumber(page_size, r.p + r.size - 1)
      && Shifted(page_size, h0, h, PageNumber(page_size, r.p), k, -1)
    ensures Count(h, Base(page_size, k)) > 0 && Base(page_size, k) in h
  {
    TouchesPages(page_size, ranges[at], k);
    HoldersPositive(page_size, ranges, at, Base(page_size, k));
  }

  lemma Decremented(h: map<nat, int>, page: nat)
    requires page in h
    ensures Decrement(h, page) == if h[page] == 1 then h[page := 0] - {page} else h[page := h[page] - 1]
  {
  }

  lemma CountsUnlocked(page_size: nat, h0: map<nat, int>, h: map<nat, int>, ranges: seq<Range>, at: nat)
    requires page_size > 0 && at < |ranges| && ranges[at].size > 0 && Counts(page_size, h0, ranges) && Clean(page_size, h)
    requires var r := ranges[at];
      Shifted(page_size, h0, h, PageNumber(page_size, r.p), PageNumber(page_size, r.p + r.size - 1) + 1, -1)
    ensures Counts(page_size, h, ranges[..at] + ranges[at + 1..])
  {
    forall n: nat
      ensures Count(h, Base(page_size, n)) == Holders(page_size, ranges[..at] + ranges[at + 1..], Base(page_size, n))
    {
      TouchesPages(page_size, ranges[at], n);
      HoldersWithout(page_size, ranges, at, Base(page_size, n));
    }
  }

  lemma {:induction false} HolderExists(page_size: nat, ranges: seq<Range>, page: nat)
    ensures Holders(page_size, ranges, page) > 0 <==> exists k :: 0 <= k < |ranges| && Touches(page_size, ranges[k], page)
  {
    if ranges != [] {
      HolderExists(page_size, ranges[1..], page);
      if k :| 0 <= k < |ranges[1..]| && Touches(page_size, ranges[1..][k], page) {
        assert Touches(page_size, ranges[k + 1], page);
      }
      if k :| 0 <= k < |ranges| && Touches(page_size, ranges[k], page) {
        assert k > 0 ==> Touches(page_size, ranges[1..][k - 1], page);
      }
    }
  }

  lemma KeyHeld(page_size: nat, histogram: map<nat, int>, ranges: seq<Range>, page: nat)
    requires Counts(page_size, histogram, ranges) && page in histogram
    ensures Holders(page_size, ranges, page) == histogram[page] > 0
  {
    var n: nat :| page == Base(page_size, n);
    assert Count(histogram, Base(page_size, n)) == Holders(page_size, ranges, Base(page_size, n));
  }

  lemma AllKeysHeld(page_size: nat, histogram: map<nat, int>, ranges: seq<Range>)
    requires Counts(page_size, histogram, ranges)
    ensures forall page :: page in histogram ==> Holders(page_size, ranges, page) > 0
  {
    forall page | page in histogram
      ensures Holders(page_size, ranges, page) > 0
    {
      KeyHeld(page_size, histogram, ranges, page);
    }
  }

  /** A page is kept in memory exactly while some locked range has a byte in it; none is, once all are released. */
  lemma LockedIffHeld(page_size: nat, histogram: map<nat, int>, ranges: seq<Range>)
    requires page_size > 0 && Counts(page_size, histogram, ranges)
    requires forall k :: 0 <= k < |ranges| ==> ranges[k].size > 0
    ensures forall n: nat :: var page := Base(page_size, n);
      page in histogram <==> exists k :: 0 <= k < |ranges| && Touches(page_size, ranges[k], page)
    ensures histogram == map[] <==> ranges == []
  {
    forall n: nat
      ensures var page := Base(page_size, n);
        page in histogram <==> exists k :: 0 <= k < |ranges| && Touches(page_size, ranges[k], page)
    {
      HolderExists(page_size, ranges, Base(page_size, n));
    }
    if ranges == [] {
      AllKeysHeld(page_size, histogram, ranges);
      assert forall page :: page in histogram ==> Holders(page_size, ranges, page) > 0;
    } else {
      var n := PageNumber(page_size, ranges[0].p);
      FirstBeforeLast(page_size, ranges[0].p, ranges[0].size);
      TouchesPages(page_size, ranges[0], n);
      assert Base(page_size, n) in histogram;
    }
  }

  lemma ShiftedNone(page_size: nat, h: map<nat, int>, start: nat)
    ensures Shifted(page_size, h, h, start, start, 1) && Shifted(page_size, h, h, start, start, -1)
  {
  }

  lemma FirstBeforeLast(page_size: nat, p: nat, size: nat)
    requires page_size > 0 && size > 0
    ensures PageNumber(page_size, p) <= PageNumber(page_size, p + size - 1)
  {
    hide Base;
    BaseMonotone(page_size, PageNumber(page_size, p + size - 1), PageNumber(page_size, p));
  }

  lemma WithinPages(page_size: nat, k: nat, end: nat)
    requires page_size > 0 && Base(page_size, k) <= Base(page_size, end)
    ensures k <= end
  {
    BaseMonotone(page_size, end, k);
  }

  lemma PastPages(page_size: nat, k: nat, end: nat)
    requires page_size > 0 && Base(page_size, k) > Base(page_size, end)
    ensures k > end
  {
    BaseMonotone(page_size, k, end);
  }

  lemma Incremented(h: map<nat, int>, page: nat)
    ensures Increment(h, page) == h[page := if page in h then h[page] + 1 else 1]
  {
  }

  /** Once every page of the range has been counted, the histogram counts the range too. */
  lemma CountsLocked(page_size: nat, h0: map<nat, int>, h: map<nat, int>, ranges: seq<Range>, r: Range)
    requires page_size > 0 && r.size > 0 && Counts(page_size, h0, ranges) && Clean(page_size, h)
    requires Shifted(page_size, h0, h, PageNumber(page_size, r.p), PageNumber(page_size, r.p + r.size - 1) + 1, 1)
    ensures Counts(page_size, h, [r] + ranges)
  {
    var more := [r] + ranges;
    forall n: nat
      ensures Count(h, Base(page_size, n)) == Holders(page_size, more, Base(page_size, n))
    {
      TouchesPages(page_size, r, n);
      assert more[1..] == ranges;
    }
  }

  lemma {:induction false} HoldersPermuted(page_size: nat, a: seq<Range>, b: seq<Range>, page: nat)
    requires multiset(a) == multiset(b)
    ensures Holders(page_size, a, page) == Holders(page_size, b, page)
  {
    if a == [] {
      assert |multiset(b)| == |b|;
    } else {
      assert a[0] in multiset(b);
      var at :| 0 <= at < |b| && b[at] == a[0];
      HoldersWithout(page_size, b, at, page);
      assert a == [a[0]] + a[1..];
      assert b == b[..at] + [b[at]] + b[at + 1..];
      assert multiset(a[1..]) == multiset(a) - multiset{a[0]};
      assert multiset(b[..at] + b[at + 1..]) == multiset(b) - multiset{b[at]};
      HoldersPermuted(page_size, a[1..], b[..at] + b[at + 1..], page);
    }
  }

  /**
   * The histogram depends on the outstanding ranges alone, not on the order in which ranges were locked and
   * unlocked: unlocking a range takes back exactly what locking it did, whatever happened in between.
   */
  lemma HistogramDetermined(page_size: nat, h1: map<nat, int>, a: seq<Range>, h2: map<nat, int>, b: seq<Range>)
    requires page_size > 0 && multiset(a) == multiset(b)
    requires Counts(page_size, h1, a) && Counts(page_size, h2, b)
    ensures h1 == h2
  {
    forall page: nat
      ensures page in h1 <==> page in h2
      ensures page in h1 ==> h1[page] == h2[page]
    {
      SameEntry(page_size, h1, a, h2, b, page);
      SameEntry(page_size, h2, b, h1, a, page);
    }
  }

  lemma SameEntry(page_size: nat, h1: map<nat, int>, a: seq<Range>, h2: map<nat, int>, b: seq<Range>, page: nat)
    requires page_size > 0 && multiset(a) == multiset(b)
    requires Counts(page_size, h1, a) && Counts(page_size, h2, b)
    ensures page in h1 ==> page in h2 && h1[page] == h2[page]
  {
    if page in h1 {
      KeyHeld(page_size, h1, a, page);
      HoldersPermuted(page_size, a, b, page);
      var n: nat :| page == Base(page_size, n);
      assert Count(h2, Base(page_size, n)) == Holders(page_size, b, Base(page_size, n));
    }
  }
}
