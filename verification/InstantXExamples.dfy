/** Runs of the transaction-lock state in which locks do not do what a complete lock is for. */
module InstantXExamples {
  import opened Common
  import opened Transactions
  import opened MasternodeRanks
  import opened InstantX

  // ---------- ten masternodes ----------

  function Voter(i: nat): TxIn {
    TxIn(OutPoint(i, 0), 0)
  }

  function VoteOf(i: nat, x: TxId): Vote {
    Vote(Voter(i), x, 94)
  }

  /** The same ten masternodes rank at every height. */
  ghost predicate TenRanked(ranking: Ranking) {
    forall h: int :: ranking(h) == seq(10, i requires 0 <= i < 10 => Scored(10 - i, Voter(i)))
  }

  /** As the code does, ids are sums. */
  ghost predicate IdsAreSums(idOf: IdFunction) {
    forall p: OutPoint, x: TxId :: idOf(p, x) == p.hash + p.n + x
  }

  lemma InTopTen(ranking: Ranking, i: nat, x: TxId)
    requires TenRanked(ranking) && i < 10
    ensures InQuorum(ranking, VoteOf(i, x))
  {
    var order := ranking(94);
    assert order[i].vin == Voter(i);
  }

  function Votes(n: nat, x: TxId): seq<Vote> {
    seq(n, i requires 0 <= i < n => VoteOf(i, x))
  }

  lemma {:induction false} AllMatch(n: nat, x: TxId)
    ensures Matching(Votes(n, x), 94) == Votes(n, x)
  {
    if n > 0 {
      AllMatch(n - 1, x);
      assert Votes(n, x)[..n - 1] == Votes(n - 1, x);
      assert Votes(n, x) == Votes(n - 1, x) + [VoteOf(n - 1, x)];
    }
  }

  /** The lock of x, requested and with n votes. */
  function LockWith(n: nat, x: TxId): Lock {
    Lock(94, x, Votes(n, x), 1200, 300)
  }

  lemma CompleteAtTen(n: nat, x: TxId)
    ensures Complete(LockWith(n, x)) <==> n >= 10
    ensures LockWith(n, x).(votes := LockWith(n, x).votes + [VoteOf(n, x)]) == LockWith(n + 1, x)
  {
    AllMatch(n, x);
    assert Votes(n + 1, x) == Votes(n, x) + [VoteOf(n, x)];
  }

  predicate IdBelow(k: VoteId, n: nat, x: TxId) {
    x <= k < x + n
  }

  function IdsBelow(n: nat, x: TxId): set<VoteId> {
    set k: VoteId | k < x + n && IdBelow(k, n, x)
  }

  /** Ten votes for a requested lock: the last one completes it. */
  method TenVotes(st: InstantXState, x: TxId)
    requires st.Valid() && TenRanked(st.ranking) && IdsAreSums(st.idOf)
    requires x in st.mapTxLocks && st.mapTxLocks[x] == LockWith(0, x)
    requires IdsBelow(10, x) !! st.mapTxLockVote.Keys
    modifies st
    ensures st.Valid() && st.mapTxLockReqRejected == old(st.mapTxLockReqRejected)
    ensures st.mapTxLockVote.Keys == old(st.mapTxLockVote).Keys + IdsBelow(10, x)
    ensures Completed(old(st.mapTxLockReq), st.mapTxLockReqRejected, old(st.mapTxLocks)[x := LockWith(10, x)],
                      old(st.mapLockedInputs), x, 0, st.mapTxLockReq, st.mapTxLocks, st.mapLockedInputs)
  {
    hide InstantXState.Valid, Votes, Complete, Completed, InQuorum, TenRanked;
    assert IdsBelow(0, x) == {};
    for n := 0 to 9
      invariant st.Valid() && st.mapTxLockReq == old(st.mapTxLockReq)
      invariant st.mapTxLockReqRejected == old(st.mapTxLockReqRejected)
      invariant st.mapLockedInputs == old(st.mapLockedInputs)
      invariant st.mapTxLocks == old(st.mapTxLocks)[x := LockWith(n, x)]
      invariant st.mapTxLockVote.Keys == old(st.mapTxLockVote).Keys + IdsBelow(n, x)
    {
      OneVote(st.ranking, st.idOf, n, x);
      CompleteAtTen(n, x);
      CompleteAtTen(n + 1, x);
      st.ReceiveVote(VoteOf(n, x), true, 0);
    }
    OneVote(st.ranking, st.idOf, 9, x);
    CompleteAtTen(9, x);
    CompleteAtTen(10, x);
    assert st.mapTxLocks[x] == LockWith(9, x);
    assert WithVote(st.mapTxLocks, VoteOf(9, x), 0) == LockWith(10, x);
    assert st.mapTxLocks[x := LockWith(10, x)] == old(st.mapTxLocks)[x := LockWith(10, x)];
    st.ReceiveVote(VoteOf(9, x), true, 0);
  }

  lemma OneVote(ranking: Ranking, idOf: IdFunction, n: nat, x: TxId)
    requires TenRanked(ranking) && IdsAreSums(idOf) && n < 10
    ensures InQuorum(ranking, VoteOf(n, x)) && IdOf(idOf, VoteOf(n, x)) == n + x
    ensures n + x !in IdsBelow(n, x) && n + x in IdsBelow(10, x) && IdsBelow(n + 1, x) == IdsBelow(n, x) + {n + x}
  {
    InTopTen(ranking, n, x);
  }

  // ---------- two complete locks on one input ----------

  const Coin: OutPoint := OutPoint(7, 0)
  const First: LockTx := LockTx(100, [Coin])
  const Second: LockTx := LockTx(200, [Coin])

  /**
   * Two transactions spend one coin. The request of the first is accepted and that of the second rejected; then both
   * locks get their votes. Both are complete, and neither expires before its time.
   */
  method TwoCompleteLocks(ranking: Ranking, idOf: IdFunction) returns (st: InstantXState)
    requires TenRanked(ranking) && IdsAreSums(idOf)
    ensures fresh(st) && st.Valid() && First.id in st.mapTxLocks && Second.id in st.mapTxLocks
    ensures Complete(st.mapTxLocks[First.id]) && Complete(st.mapTxLocks[Second.id])
    ensures Coin in First.vin && Coin in Second.vin && st.mapLockedInputs == map[Coin := First.id]
    ensures st.mapTxLocks[First.id].nExpiration == 1200 && st.mapTxLocks[Second.id].nExpiration == 1200
  {
    hide InstantXState.Valid, Complete, Votes, TenRanked, IdsAreSums, FirstConflict, LockInputs, Requested, Released;
    NoVotesYet(100);
    NoVotesYet(200);
    CompleteAtTen(10, 100);
    CompleteAtTen(10, 200);
    CoinLocked();
    st := new InstantXState(ranking, idOf);
    st.ReceiveRequest(First, true, true, None, _ => 10, 100, 0);
    assert st.mapTxLocks == map[100 := LockWith(0, 100)];
    TenVotes(st, First.id);
    assert st.mapTxLocks == map[100 := LockWith(10, 100)] && st.mapLockedInputs == map[Coin := 100];
    st.ReceiveRequest(Second, true, false, None, _ => 10, 100, 0);
    assert st.mapTxLocks == map[100 := LockWith(10, 100), 200 := LockWith(0, 200)];
    TenVotes(st, Second.id);
    assert st.mapTxLocks == map[100 := LockWith(10, 100), 200 := LockWith(10, 200)];
    assert st.mapLockedInputs == map[Coin := 100] && ExpiredIds(st.mapTxLocks, 1200) == {};
    NoneReleased(st.mapTxLockReq);
    st.CleanTransactionLocksList(1200);
  }

  lemma CoinLocked()
    ensures FirstConflict(map[], [Coin], 100).None? && LockInputs(map[], [Coin], 100) == map[Coin := 100]
    ensures LockInputs(map[Coin := 100], [Coin], 200) == map[Coin := 100]
    ensures Requested(map[], First, _ => 10, 100, 0) == map[100 := NewLock(100, 94, 0)]
    ensures forall l: Lock :: Requested(map[100 := l], Second, _ => 10, 100, 0) == map[100 := l, 200 := NewLock(200, 94, 0)]
  {
    assert Coin in [Coin];
  }

  lemma NoVotesYet(x: TxId)
    ensures NewLock(x, 94, 0) == LockWith(0, x) && !Complete(LockWith(0, x))
  {
    CompleteAtTen(0, x);
  }

  lemma NoneReleased(req: map<TxId, LockTx>)
    ensures forall gone: set<TxId> :: gone == {} ==> Released(req, gone) == {}
  {
  }

  // ---------- votes before the request ----------

  /** A lock without a height. */
  function EarlyLock(n: nat, x: TxId): Lock {
    LockWith(n, x).(nBlockHeight := 0)
  }

  lemma EarlyVote(n: nat, x: TxId)
    ensures !Complete(EarlyLock(n, x)) && NewLock(x, 0, 0) == EarlyLock(0, x)
    ensures EarlyLock(n, x).(votes := EarlyLock(n, x).votes + [VoteOf(n, x)]) == EarlyLock(n + 1, x)
  {
    CompleteAtTen(n, x);
  }

  /**
   * Ten votes come before the request, which is accepted: the lock is complete from then on, and until an eleventh vote
   * comes it holds nothing.
   */
  method RequestAfterVotes(ranking: Ranking, idOf: IdFunction) returns (st: InstantXState)
    requires TenRanked(ranking) && IdsAreSums(idOf)
    ensures fresh(st) && st.Valid() && st.mapTxLockReq == map[First.id := First] && First.id in st.mapTxLocks
    ensures Complete(st.mapTxLocks[First.id]) && Coin in First.vin && st.mapLockedInputs == map[]
  {
    hide InstantXState.Valid, Votes, Complete, InQuorum, TenRanked, IdsAreSums, Requested;
    st := new InstantXState(ranking, idOf);
    assert IdsBelow(0, 100) == {};
    for n := 0 to 10
      invariant fresh(st) && st.Valid() && st.mapTxLockReq == map[] && st.mapTxLockReqRejected == map[]
      invariant st.mapLockedInputs == map[] && st.mapTxLockVote.Keys == IdsBelow(n, 100)
      invariant st.mapTxLocks == if n == 0 then map[] else map[100 := EarlyLock(n, 100)]
    {
      OneVote(st.ranking, st.idOf, n, 100);
      EarlyVote(n, 100);
      EarlyVote(n + 1, 100);
      assert WithVote(st.mapTxLocks, VoteOf(n, 100), 0) == EarlyLock(n + 1, 100);
      st.ReceiveVote(VoteOf(n, 100), true, 0);
    }
    GivenHeight();
    CompleteAtTen(10, 100);
    st.ReceiveRequest(First, true, true, None, _ => 10, 100, 0);
  }

  lemma GivenHeight()
    ensures Requested(map[100 := EarlyLock(10, 100)], First, _ => 10, 100, 0) == map[100 := LockWith(10, 100)]
  {
  }
}
