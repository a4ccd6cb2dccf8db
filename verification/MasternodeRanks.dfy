/** The list of masternodes and their ranks at a height (src/masternodeman.cpp:194-208, 338-348, 459-494, 613-645). */
module MasternodeRanks {
  import opened Transactions

  /** The input that identifies a masternode; `rest` is its script and sequence number. */
  datatype TxIn = TxIn(prevout: OutPoint, rest: nat)

  datatype Masternode = Masternode(vin: TxIn, protocolVersion: int, fEnabled: bool)

  /** A masternode's score at a height and the input it goes with. */
  datatype Scored = Scored(score: nat, vin: TxIn)

  type ScoreAt = (TxIn, int) -> nat

  ghost predicate DistinctVins(mns: seq<Masternode>) {
    forall j, k :: 0 <= j < k < |mns| ==> mns[j].vin.prevout != mns[k].vin.prevout
  }

  ghost predicate DistinctScored(order: seq<Scored>) {
    forall j, k :: 0 <= j < k < |order| ==> order[j].vin.prevout != order[k].vin.prevout
  }

  ghost predicate Descending(order: seq<Scored>) {
    forall j, k :: 0 <= j < k < |order| ==> order[j].score >= order[k].score
  }

  predicate Counts(mn: Masternode, minProtocol: int, fOnlyActive: bool) {
    mn.protocolVersion >= minProtocol && (fOnlyActive ==> mn.fEnabled)
  }

  /** The scores of the masternodes that take part, in list order. */
  function Scores(mns: seq<Masternode>, f: ScoreAt, nBlockHeight: int, minProtocol: int, fOnlyActive: bool): seq<Scored> {
    if mns == [] then []
    else
      var last := mns[|mns| - 1];
      Scores(mns[..|mns| - 1], f, nBlockHeight, minProtocol, fOnlyActive)
      + if Counts(last, minProtocol, fOnlyActive) then [Scored(f(last.vin, nBlockHeight), last.vin)] else []
  }

  /** The position of vin, counted from 1; -1 if it is not there. */
  function RankIn(order: seq<Scored>, vin: TxIn): (rank: int)
    ensures rank == -1 || (1 <= rank <= |order| && order[rank - 1].vin == vin)
    ensures rank == -1 <==> forall k :: 0 <= k < |order| ==> order[k].vin != vin
  {
    if order == [] then -1
    else
      var front := order[..|order| - 1];
      if RankIn(front, vin) != -1 then RankIn(front, vin)
      else if order[|order| - 1].vin == vin then |order| else -1
  }

  /** x is the score of a masternode that takes part. */
  ghost predicate ScoredIn(mns: seq<Masternode>, f: ScoreAt, nBlockHeight: int, minProtocol: int, fOnlyActive: bool,
                           x: Scored)
  {
    exists mn :: mn in mns && Counts(mn, minProtocol, fOnlyActive) && x == Scored(f(mn.vin, nBlockHeight), mn.vin)
  }

  lemma {:induction false} ScoresMembers(mns: seq<Masternode>, f: ScoreAt, nBlockHeight: int, minProtocol: int,
                                         fOnlyActive: bool, x: Scored)
    ensures x in Scores(mns, f, nBlockHeight, minProtocol, fOnlyActive)
       <==> ScoredIn(mns, f, nBlockHeight, minProtocol, fOnlyActive, x)
  {
    hide Counts;
    if mns != [] {
      var n := |mns| - 1;
      ScoresMembers(mns[..n], f, nBlockHeight, minProtocol, fOnlyActive, x);
      assert mns == mns[..n] + [mns[n]];
    }
  }

  lemma {:induction false} ScoresDistinct(mns: seq<Masternode>, f: ScoreAt, nBlockHeight: int, minProtocol: int,
                                          fOnlyActive: bool)
    requires DistinctVins(mns)
    ensures DistinctScored(Scores(mns, f, nBlockHeight, minProtocol, fOnlyActive))
  {
    if mns != [] {
      var n := |mns| - 1;
      var front := Scores(mns[..n], f, nBlockHeight, minProtocol, fOnlyActive);
      ScoresDistinct(mns[..n], f, nBlockHeight, minProtocol, fOnlyActive);
      forall x | x in front
        ensures x.vin.prevout != mns[n].vin.prevout
      {
        ScoresMembers(mns[..n], f, nBlockHeight, minProtocol, fOnlyActive, x);
      }
      assert forall k :: 0 <= k < |front| ==> front[k] in front;
    }
  }

  lemma ScoresOrigin(mns: seq<Masternode>, f: ScoreAt, nBlockHeight: int, minProtocol: int, fOnlyActive: bool)
    requires DistinctVins(mns)
    ensures var s := Scores(mns, f, nBlockHeight, minProtocol, fOnlyActive);
      && DistinctScored(s)
      && (forall x <- s :: x.score == f(x.vin, nBlockHeight))
      && forall x <- s :: exists mn :: mn in mns && mn.vin == x.vin && Counts(mn, minProtocol, fOnlyActive)
    ensures forall mn <- mns :: Counts(mn, minProtocol, fOnlyActive) ==>
      Scored(f(mn.vin, nBlockHeight), mn.vin) in Scores(mns, f, nBlockHeight, minProtocol, fOnlyActive)
  {
    hide Scores, DistinctScored, DistinctVins, Counts;
    ScoresDistinct(mns, f, nBlockHeight, minProtocol, fOnlyActive);
    forall x
      ensures x in Scores(mns, f, nBlockHeight, minProtocol, fOnlyActive)
         <==> ScoredIn(mns, f, nBlockHeight, minProtocol, fOnlyActive, x)
    {
      ScoresMembers(mns, f, nBlockHeight, minProtocol, fOnlyActive, x);
    }
    forall mn | mn in mns && Counts(mn, minProtocol, fOnlyActive)
      ensures ScoredIn(mns, f, nBlockHeight, minProtocol, fOnlyActive, Scored(f(mn.vin, nBlockHeight), mn.vin))
    {
    }
  }

  lemma DistinctOfMultiset(a: seq<Scored>, b: seq<Scored>)
    requires multiset(a) == multiset(b) && DistinctScored(a)
    ensures DistinctScored(b) && forall x :: x in a <==> x in b
  {
    forall x | x in a
      ensures x in b
    {
      assert x in multiset(a);
    }
    forall x | x in b
      ensures x in a
    {
      assert x in multiset(b);
    }
    forall j, k | 0 <= j < k < |b|
      ensures b[j].vin.prevout != b[k].vin.prevout
    {
      assert b[j] in a && b[k] in a;
      if b[j] == b[k] {
        TwiceInMultiset(b, j, k);
        OnceInDistinct(a, b[j]);
      }
    }
  }

  lemma TwiceInMultiset(b: seq<Scored>, j: nat, k: nat)
    requires j < k < |b| && b[j] == b[k]
    ensures multiset(b)[b[j]] >= 2
  {
    assert b == b[..k] + b[k..];
    assert b[j] in multiset(b[..k]) && b[k..][0] == b[k];
    assert b[k] in multiset(b[k..]);
  }

  lemma {:induction false} OnceInDistinct(a: seq<Scored>, x: Scored)
    requires DistinctScored(a)
    ensures multiset(a)[x] <= 1
  {
    if a != [] {
      var n := |a| - 1;
      OnceInDistinct(a[..n], x);
      assert a == a[..n] + [a[n]];
      assert forall k :: 0 <= k < n ==> a[k].vin.prevout != a[n].vin.prevout;
      assert a[n] !in a[..n];
    }
  }

  class MasternodeMan {
    var vMasternodes: seq<Masternode>
    const f: ScoreAt

    ghost predicate Valid()
      reads this
    {
      DistinctVins(vMasternodes)
    }

    constructor (f: ScoreAt)
      ensures Valid() && vMasternodes == [] && this.f == f
    {
      vMasternodes := [];
      this.f := f;
    }

    /** The position of the masternode with this outpoint, -1 if there is none. */
    method Find(vin: TxIn) returns (at: int)
      ensures at == -1 <==> forall mn <- vMasternodes :: mn.vin.prevout != vin.prevout
      ensures at != -1 ==> 0 <= at < |vMasternodes| && vMasternodes[at].vin.prevout == vin.prevout
    {
      for i := 0 to |vMasternodes|
        invariant forall k :: 0 <= k < i ==> vMasternodes[k].vin.prevout != vin.prevout
      {
        if vMasternodes[i].vin.prevout == vin.prevout {
          return i;
        }
      }
      return -1;
    }

    method Add(mn: Masternode) returns (added: bool)
      requires Valid()
      modifies this
      ensures Valid()
      ensures added <==> forall x <- old(vMasternodes) :: x.vin.prevout != mn.vin.prevout
      ensures vMasternodes == if added then old(vMasternodes) + [mn] else old(vMasternodes)
    {
      var at := Find(mn.vin);
      added := at == -1;
      if added {
        vMasternodes := vMasternodes + [mn];
      }
    }

    /** The scan of the list and the sort that follows it; equal scores may end up in either order. */
    method RankedScores(nBlockHeight: int, minProtocol: int, fOnlyActive: bool) returns (order: seq<Scored>)
      ensures Descending(order)
      ensures multiset(order) == multiset(Scores(vMasternodes, f, nBlockHeight, minProtocol, fOnlyActive))
    {
      hide Descending, Counts, Scores;
      order := [];
      DescendingNone();
      ScoresNone(f, nBlockHeight, minProtocol, fOnlyActive);
      assert vMasternodes[..0] == [];
      for i := 0 to |vMasternodes|
        invariant Descending(order)
        invariant multiset(order) == multiset(Scores(vMasternodes[..i], f, nBlockHeight, minProtocol, fOnlyActive))
      {
        var mn := vMasternodes[i];
        ScoresSnoc(vMasternodes, i, f, nBlockHeight, minProtocol, fOnlyActive);
        if Counts(mn, minProtocol, fOnlyActive) {
          var s := Scored(f(mn.vin, nBlockHeight), mn.vin);
          var k := 0;
          while k < |order| && order[k].score > s.score
            invariant 0 <= k <= |order|
            invariant k > 0 ==> order[k - 1].score >= s.score
          {
            k := k + 1;
          }
          Insert(order, k, s);
          order := order[..k] + [s] + order[k..];
        }
      }
      assert vMasternodes[..|vMasternodes|] == vMasternodes;
    }

    /** The position of vin in the order, counted from 1; -1 if it takes no part or the height is unknown. */
    method GetMasternodeRank(fHeightKnown: bool, vin: TxIn, nBlockHeight: int, minProtocol: int, fOnlyActive: bool)
      returns (rank: int)
      requires Valid()
      ensures exists order :: RankedFor(order, Scores(vMasternodes, f, nBlockHeight, minProtocol, fOnlyActive), fHeightKnown, vin, rank)
      ensures rank == -1 <==>
        (!fHeightKnown || forall mn <- vMasternodes :: mn.vin == vin ==>
           mn.protocolVersion < minProtocol || (fOnlyActive && !mn.fEnabled))
      ensures rank != -1 ==>
        var scores, s := Scores(vMasternodes, f, nBlockHeight, minProtocol, fOnlyActive), f(vin, nBlockHeight);
        Above(scores, s) < rank <= |scores| - Below(scores, s)
    {
      hide DistinctVins, DistinctScored, Descending, Scores, Above, Below, RankedFor;
      ghost var all := Scores(vMasternodes, f, nBlockHeight, minProtocol, fOnlyActive);
      var scores := RankedScores(nBlockHeight, minProtocol, fOnlyActive);
      RankedForMeans(vMasternodes, f, nBlockHeight, minProtocol, fOnlyActive, scores, fHeightKnown, vin);
      if !fHeightKnown {
        return -1;
      }
      rank := 0;
      while rank < |scores|
        invariant 0 <= rank <= |scores| && RankIn(scores[..rank], vin) == -1
      {
        assert scores[..rank + 1][..rank] == scores[..rank];
        rank := rank + 1;
        if scores[rank - 1].vin == vin {
          RankPrefix(scores, rank, vin);
          return;
        }
      }
      assert scores[..rank] == scores;
      rank := -1;
    }

    /** The position in the list of the masternode with a rank; -1 if there are fewer. */
    method GetMasternodeByRank(nRank: int, nBlockHeight: int, minProtocol: int, fOnlyActive: bool) returns (at: int)
      requires Valid()
      ensures at == -1 <==> !(1 <= nRank <= |Scores(vMasternodes, f, nBlockHeight, minProtocol, fOnlyActive)|)
      ensures at != -1 ==> 0 <= at < |vMasternodes| && exists order ::
        RankedFor(order, Scores(vMasternodes, f, nBlockHeight, minProtocol, fOnlyActive), true, vMasternodes[at].vin, nRank)
    {
      var scores := RankedScores(nBlockHeight, minProtocol, fOnlyActive);
      SameSize(scores, Scores(vMasternodes, f, nBlockHeight, minProtocol, fOnlyActive));
      var rank := 0;
      while rank < |scores|
        invariant 0 <= rank <= |scores| && (nRank < 1 || nRank > rank)
      {
        rank := rank + 1;
        if rank == nRank {
          at := Find(scores[rank - 1].vin);
          RankedIsListed(vMasternodes, f, nBlockHeight, minProtocol, fOnlyActive, scores, rank);
          assert RankedFor(scores, Scores(vMasternodes, f, nBlockHeight, minProtocol, fOnlyActive), true, vMasternodes[at].vin, nRank);
          return;
        }
      }
      at := -1;
    }
  }

  /** The rank that an order of the scores by descending score gives to vin. */
  ghost predicate RankedFor(order: seq<Scored>, scores: seq<Scored>, fHeightKnown: bool, vin: TxIn, rank: int) {
    && Descending(order) && multiset(order) == multiset(scores)
    && rank == if fHeightKnown then RankIn(order, vin) else -1
  }

  /** How many scores are higher than s. */
  function Above(scores: seq<Scored>, s: nat): nat {
    if scores == [] then 0 else Above(scores[1..], s) + if scores[0].score > s then 1 else 0
  }

  /** How many scores are lower than s. */
  function Below(scores: seq<Scored>, s: nat): nat {
    if scores == [] then 0 else Below(scores[1..], s) + if scores[0].score < s then 1 else 0
  }

  lemma SameSize(a: seq<Scored>, b: seq<Scored>)
    requires multiset(a) == multiset(b)
    ensures |a| == |b|
  {
    assert |multiset(a)| == |a| && |multiset(b)| == |b|;
  }

  lemma {:induction false} CountsOfConcat(a: seq<Scored>, b: seq<Scored>, s: nat)
    ensures Above(a + b, s) == Above(a, s) + Above(b, s) && Below(a + b, s) == Below(a, s) + Below(b, s)
  {
    if a == [] {
      assert a + b == b;
    } else {
      assert (a + b)[1..] == a[1..] + b;
      CountsOfConcat(a[1..], b, s);
    }
  }

  /** The counts do not depend on the order. */
  lemma {:induction false} CountsOfMultiset(a: seq<Scored>, b: seq<Scored>, s: nat)
    requires multiset(a) == multiset(b)
    ensures Above(a, s) == Above(b, s) && Below(a, s) == Below(b, s)
  {
    SameSize(a, b);
    if a != [] {
      assert a == [a[0]] + a[1..];
      assert a[0] in multiset(b);
      var j :| 0 <= j < |b| && b[j] == a[0];
      Without(b, j, s);
      CountsOfMultiset(a[1..], b[..j] + b[j + 1..], s);
    }
  }

  lemma Without(b: seq<Scored>, j: nat, s: nat)
    requires j < |b|
    ensures var rest := b[..j] + b[j + 1..];
      && multiset(rest) == multiset(b) - multiset{b[j]}
      && Above(b, s) == Above(rest, s) + (if b[j].score > s then 1 else 0)
      && Below(b, s) == Below(rest, s) + if b[j].score < s then 1 else 0
  {
    assert b == b[..j] + b[j..] && b[j..] == [b[j]] + b[j + 1..];
    CountsOfConcat(b[..j], b[j + 1..], s);
    CountsOfConcat(b[..j], b[j..], s);
  }

  /** A descending order has the higher scores before position k and the lower ones after it. */
  lemma {:induction false} PositionBracket(order: seq<Scored>, k: nat)
    requires Descending(order) && k < |order|
    ensures Above(order, order[k].score) <= k && Below(order, order[k].score) < |order| - k
  {
    var s := order[k].score;
    assert order == order[..k] + order[k..];
    CountsOfConcat(order[..k], order[k..], s);
    AtMostAll(order[..k], s);
    NoneAbove(order[k..], s);
    assert order[k..] == [order[k]] + order[k + 1..];
    CountsOfConcat([order[k]], order[k + 1..], s);
    AtMostAll(order[k + 1..], s);
    NoneBelow(order[..k], s);
  }

  lemma {:induction false} AtMostAll(scores: seq<Scored>, s: nat)
    ensures Above(scores, s) <= |scores| && Below(scores, s) <= |scores|
  {
    if scores != [] {
      AtMostAll(scores[1..], s);
    }
  }

  lemma {:induction false} NoneAbove(scores: seq<Scored>, s: nat)
    requires forall x <- scores :: x.score <= s
    ensures Above(scores, s) == 0
  {
    if scores != [] {
      NoneAbove(scores[1..], s);
    }
  }

  lemma {:induction false} NoneBelow(scores: seq<Scored>, s: nat)
    requires forall x <- scores :: x.score >= s
    ensures Below(scores, s) == 0
  {
    if scores != [] {
      NoneBelow(scores[1..], s);
    }
  }

  /** What a rank means in terms of the list alone, whichever way equal scores were ordered. */
  lemma RankedForMeans(mns: seq<Masternode>, f: ScoreAt, nBlockHeight: int, minProtocol: int, fOnlyActive: bool,
                       order: seq<Scored>, fHeightKnown: bool, vin: TxIn)
    requires DistinctVins(mns) && Descending(order)
    requires multiset(order) == multiset(Scores(mns, f, nBlockHeight, minProtocol, fOnlyActive))
    ensures RankedFor(order, Scores(mns, f, nBlockHeight, minProtocol, fOnlyActive), fHeightKnown, vin,
                      if fHeightKnown then RankIn(order, vin) else -1)
    ensures RankIn(order, vin) == -1 <==> forall mn <- mns :: mn.vin == vin ==> !Counts(mn, minProtocol, fOnlyActive)
    ensures RankIn(order, vin) != -1 ==>
      var scores, s := Scores(mns, f, nBlockHeight, minProtocol, fOnlyActive), f(vin, nBlockHeight);
      Above(scores, s) < RankIn(order, vin) <= |scores| - Below(scores, s)
  {
    hide DistinctVins, DistinctScored, Descending, Counts, Scores, Above, Below;
    var scores, rank := Scores(mns, f, nBlockHeight, minProtocol, fOnlyActive), RankIn(order, vin);
    ScoresOrigin(mns, f, nBlockHeight, minProtocol, fOnlyActive);
    DistinctOfMultiset(scores, order);
    SameSize(order, scores);
    if rank != -1 {
      var x := order[rank - 1];
      assert x in order && x in scores;
      PositionBracket(order, rank - 1);
      CountsOfMultiset(order, scores, x.score);
    } else {
      assert Scored(f(vin, nBlockHeight), vin) !in scores;
    }
  }

  lemma ScoresNone(f: ScoreAt, nBlockHeight: int, minProtocol: int, fOnlyActive: bool)
    ensures Scores([], f, nBlockHeight, minProtocol, fOnlyActive) == []
  {
  }

  lemma ScoresSnoc(mns: seq<Masternode>, i: nat, f: ScoreAt, nBlockHeight: int, minProtocol: int, fOnlyActive: bool)
    requires i < |mns|
    ensures multiset(Scores(mns[..i + 1], f, nBlockHeight, minProtocol, fOnlyActive)) ==
            multiset(Scores(mns[..i], f, nBlockHeight, minProtocol, fOnlyActive)) +
            if Counts(mns[i], minProtocol, fOnlyActive) then multiset{Scored(f(mns[i].vin, nBlockHeight), mns[i].vin)}
            else multiset{}
  {
    assert mns[..i + 1][..i] == mns[..i];
  }

  lemma DescendingNone()
    ensures Descending([])
  {
  }

  lemma Insert(order: seq<Scored>, k: nat, s: Scored)
    requires Descending(order) && k <= |order|
    requires k < |order| ==> order[k].score <= s.score
    requires k > 0 ==> order[k - 1].score >= s.score
    ensures Descending(order[..k] + [s] + order[k..])
    ensures multiset(order[..k] + [s] + order[k..]) == multiset(order) + multiset{s}
  {
    hide Descending;
    InsertDescending(order, k, s);
    assert multiset(order[..k] + [s] + order[k..]) == multiset(order) + multiset{s} by {
      assert order == order[..k] + order[k..];
    }
  }

  lemma InsertDescending(order: seq<Scored>, k: nat, s: Scored)
    requires Descending(order) && k <= |order|
    requires k < |order| ==> order[k].score <= s.score
    requires k > 0 ==> order[k - 1].score >= s.score
    ensures Descending(order[..k] + [s] + order[k..])
  {
    var longer := order[..k] + [s] + order[k..];
    forall i, j | 0 <= i < j < |longer|
      ensures longer[i].score >= longer[j].score
    {
      assert i < k ==> longer[i] == order[i];
      assert j > k ==> longer[j] == order[j - 1];
    }
  }

  lemma {:induction false} RankPrefix(order: seq<Scored>, n: nat, vin: TxIn)
    requires n <= |order| && RankIn(order[..n], vin) != -1
    ensures RankIn(order, vin) == RankIn(order[..n], vin)
  {
    if n < |order| {
      assert order[..|order| - 1][..n] == order[..n];
      RankPrefix(order[..|order| - 1], n, vin);
    } else {
      assert order[..n] == order;
    }
  }

  /** The masternode at a rank is in the list, under the input it was scored with, and has that rank. */
  lemma RankedIsListed(mns: seq<Masternode>, f: ScoreAt, nBlockHeight: int, minProtocol: int, fOnlyActive: bool,
                       order: seq<Scored>, rank: nat)
    requires DistinctVins(mns) && 1 <= rank <= |order|
    requires multiset(order) == multiset(Scores(mns, f, nBlockHeight, minProtocol, fOnlyActive))
    ensures exists mn <- mns :: mn.vin == order[rank - 1].vin
    ensures forall mn <- mns :: mn.vin.prevout == order[rank - 1].vin.prevout ==> RankIn(order, mn.vin) == rank
  {
    hide DistinctScored;
    ScoresOrigin(mns, f, nBlockHeight, minProtocol, fOnlyActive);
    DistinctOfMultiset(Scores(mns, f, nBlockHeight, minProtocol, fOnlyActive), order);
    assert order[rank - 1] in order;
    var x :| x in mns && x.vin == order[rank - 1].vin;
    RankOfEntry(order, rank);
    forall mn | mn in mns && mn.vin.prevout == order[rank - 1].vin.prevout
      ensures RankIn(order, mn.vin) == rank
    {
      SameMasternode(mns, x, mn);
    }
  }

  lemma SameMasternode(mns: seq<Masternode>, a: Masternode, b: Masternode)
    requires DistinctVins(mns) && a in mns && b in mns && a.vin.prevout == b.vin.prevout
    ensures a == b
  {
  }

  lemma RankOfEntry(order: seq<Scored>, rank: nat)
    requires DistinctScored(order) && 1 <= rank <= |order|
    ensures RankIn(order, order[rank - 1].vin) == rank
  {
    var r := RankIn(order, order[rank - 1].vin);
    assert order[r - 1].vin == order[rank - 1].vin;
  }

  ghost predicate DistinctScores(order: seq<Scored>) {
    forall j, k :: 0 <= j < k < |order| ==> order[j].score != order[k].score
  }

  /** When all scores differ the order, and so every rank, is determined by the list. */
  lemma {:induction false} OrderUnique(a: seq<Scored>, b: seq<Scored>)
    requires Descending(a) && Descending(b) && multiset(a) == multiset(b) && DistinctScores(a)
    ensures a == b
  {
    hide Descending, DistinctScores;
    assert |multiset(a)| == |a| && |multiset(b)| == |b|;
    if a != [] {
      HeadsEqual(a, b);
      Tails(a);
      Tails(b);
      OrderUnique(a[1..], b[1..]);
    }
  }

  lemma Tails(a: seq<Scored>)
    requires Descending(a) && a != []
    ensures Descending(a[1..]) && (DistinctScores(a) ==> DistinctScores(a[1..]))
    ensures multiset(a[1..]) == multiset(a) - multiset{a[0]} && a == [a[0]] + a[1..]
  {
    assert a == [a[0]] + a[1..];
  }

  lemma HeadsEqual(a: seq<Scored>, b: seq<Scored>)
    requires Descending(a) && Descending(b) && multiset(a) == multiset(b) && a != [] && b != []
    requires DistinctScores(a)
    ensures a[0] == b[0]
  {
    assert a[0] in multiset(b) && b[0] in multiset(a);
    var j :| 0 <= j < |b| && b[j] == a[0];
    var k :| 0 <= k < |a| && a[k] == b[0];
  }
}
