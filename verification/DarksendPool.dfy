/** The masternode's side of a mixing session (src/darksend.cpp, src/darksend.h). */
module DarksendPool {
  import opened Denominations

  const MAX_TRANSACTIONS: int := 3
  const QUEUE_TIMEOUT: int := 30
  const SIGNING_TIMEOUT: int := 15

  datatype Status = Idle | Queue | AcceptingEntries | FinalizeTransaction | Signing | Transmission | Error | Success

  datatype TxIn = TxIn(prevout: nat, scriptSig: nat, prevPubKey: nat, nSequence: nat) {
    /** The comparison of inputs leaves out the previous public key. */
    predicate Same(other: TxIn) {
      prevout == other.prevout && scriptSig == other.scriptSig && nSequence == other.nSequence
    }

    predicate SamePlace(other: TxIn) {
      prevout == other.prevout && nSequence == other.nSequence
    }
  }

  datatype DsIn = DsIn(txin: TxIn, fHasSig: bool)

  /** `collateral` identifies the collateral transaction. */
  datatype Entry = Entry(sev: seq<DsIn>, vout: seq<TxOut>, amount: int, collateral: nat, addedTime: int)

  /** What an input spends, apart from how it is signed. */
  datatype Place = Place(prevout: nat, nSequence: nat)

  function PlaceOf(i: TxIn): Place {
    Place(i.prevout, i.nSequence)
  }

  function Places(vin: seq<TxIn>): seq<Place> {
    seq(|vin|, k requires 0 <= k < |vin| => PlaceOf(vin[k]))
  }

  function InputsOf(e: Entry): seq<TxIn> {
    seq(|e.sev|, k requires 0 <= k < |e.sev| => e.sev[k].txin)
  }

  function AllInputs(entries: seq<Entry>): seq<TxIn> {
    if entries == [] then [] else AllInputs(entries[..|entries| - 1]) + InputsOf(entries[|entries| - 1])
  }

  function AllOutputs(entries: seq<Entry>): seq<TxOut> {
    if entries == [] then [] else AllOutputs(entries[..|entries| - 1]) + entries[|entries| - 1].vout
  }

  // ---------- what all entries satisfy ----------

  ghost predicate Disjoint(a: Entry, b: Entry) {
    forall i, j :: 0 <= i < |a.sev| && 0 <= j < |b.sev| ==> !a.sev[i].txin.Same(b.sev[j].txin)
  }

  ghost predicate AllDisjoint(entries: seq<Entry>) {
    forall j, k :: 0 <= j < k < |entries| ==> Disjoint(entries[j], entries[k])
  }

  ghost predicate SameDenominations(entries: seq<Entry>) {
    forall k :: 0 <= k < |entries| ==> Mask(entries[k].vout) != 0 && Mask(entries[k].vout) == Mask(entries[0].vout)
  }

  /** The final transaction moves exactly the inputs and outputs of the entries, in any order. */
  ghost predicate Combines(finalVin: seq<TxIn>, finalVout: seq<TxOut>, entries: seq<Entry>) {
    && multiset(finalVout) == multiset(AllOutputs(entries))
    && multiset(Places(finalVin)) == multiset(Places(AllInputs(entries)))
  }

  /** A random permutation, by swapping each element with an earlier one or itself. */
  method Shuffle<T>(s: seq<T>) returns (t: seq<T>)
    ensures multiset(t) == multiset(s)
  {
    t := s;
    if t == [] {
      return;
    }
    for i := 1 to |s|
      invariant |t| == |s| && multiset(t) == multiset(s)
    {
      var j: nat :| j <= i;
      t := t[i := t[j]][j := t[i]];
    }
  }

  lemma PlacesWithout(b: seq<TxIn>, at: nat)
    requires at < |b|
    ensures multiset(Places(b)) == multiset(Places(b[..at] + b[at + 1..])) + multiset{PlaceOf(b[at])}
  {
    assert Places(b) == Places(b[..at]) + [PlaceOf(b[at])] + Places(b[at + 1..]);
    assert Places(b[..at] + b[at + 1..]) == Places(b[..at]) + Places(b[at + 1..]);
  }

  lemma ElementsWithout<T>(b: seq<T>, at: nat)
    requires at < |b|
    ensures multiset(b) == multiset(b[..at] + b[at + 1..]) + multiset{b[at]}
  {
    assert b == b[..at] + [b[at]] + b[at + 1..];
  }

  /** Shuffling inputs shuffles their places. */
  lemma {:induction false} PlacesShuffled(a: seq<TxIn>, b: seq<TxIn>)
    requires multiset(a) == multiset(b)
    ensures multiset(Places(a)) == multiset(Places(b))
    decreases |a|
  {
    hide Places;
    if a == [] {
      assert |multiset(b)| == |b|;
    } else {
      var at := Position(b, a[0]) by {
        assert a[0] in multiset(a);
      }
      var front, rest := a[..0] + a[1..], b[..at] + b[at + 1..];
      ElementsWithout(a, 0);
      ElementsWithout(b, at);
      Cancel(multiset(front), multiset(rest), a[0]);
      PlacesWithout(a, 0);
      PlacesWithout(b, at);
      PlacesShuffled(front, rest);
    }
  }

  lemma Position<T>(b: seq<T>, x: T) returns (at: nat)
    requires x in multiset(b)
    ensures at < |b| && b[at] == x
  {
    at :| at < |b| && b[at] == x;
  }

  lemma Cancel<T>(m: multiset<T>, n: multiset<T>, x: T)
    requires m + multiset{x} == n + multiset{x}
    ensures m == n
  {
    assert m == m + multiset{x} - multiset{x};
    assert n == n + multiset{x} - multiset{x};
  }

  // ---------- signatures ----------

  /** The first input of this place; the number of inputs if there is none. */
  function FirstPlace(sev: seq<DsIn>, newVin: TxIn): (k: nat)
    ensures k <= |sev| && forall i :: 0 <= i < k ==> !sev[i].txin.SamePlace(newVin)
    ensures k < |sev| ==> sev[k].txin.SamePlace(newVin)
  {
    if sev == [] || sev[0].txin.SamePlace(newVin) then 0 else 1 + FirstPlace(sev[1..], newVin)
  }

  /** The first input of this place is there and not signed. */
  predicate Takes(e: Entry, newVin: TxIn) {
    FirstPlace(e.sev, newVin) < |e.sev| && !e.sev[FirstPlace(e.sev, newVin)].fHasSig
  }

  /** CDarkSendEntry::AddSig: the first input of this place takes the signature, unless it has one. */
  method AddSig(e: Entry, newVin: TxIn) returns (ok: bool, e': Entry)
    ensures ok <==> Takes(e, newVin)
    ensures e' == if ok then Signed(e, FirstPlace(e.sev, newVin), newVin) else e
  {
    for k := 0 to |e.sev|
      invariant k <= FirstPlace(e.sev, newVin)
    {
      if e.sev[k].txin.SamePlace(newVin) {
        if e.sev[k].fHasSig {
          return false, e;
        }
        return true, Signed(e, k, newVin);
      }
    }
    return false, e;
  }

  function Signed(e: Entry, k: nat, newVin: TxIn): Entry
    requires k < |e.sev|
  {
    e.(sev := e.sev[k := DsIn(e.sev[k].txin.(scriptSig := newVin.scriptSig, prevPubKey := newVin.prevPubKey), true)])
  }

  /** The signature is on no input of the entry yet. */
  ghost predicate NewTo(e: Entry, scriptSig: nat) {
    forall k :: 0 <= k < |e.sev| ==> e.sev[k].txin.scriptSig != scriptSig
  }

  /** The first entry that takes the signature; the number of entries if none does. */
  function FirstTaker(entries: seq<Entry>, newVin: TxIn): (n: nat)
    ensures n <= |entries| && forall i :: 0 <= i < n ==> !Takes(entries[i], newVin)
    ensures n < |entries| ==> Takes(entries[n], newVin)
  {
    if entries == [] || Takes(entries[0], newVin) then 0 else 1 + FirstTaker(entries[1..], newVin)
  }

  /** The signature is valid, on no input yet, and some entry takes it. */
  ghost predicate Accepts(entries: seq<Entry>, newVin: TxIn, fSignatureValid: bool) {
    && fSignatureValid && (forall k :: 0 <= k < |entries| ==> NewTo(entries[k], newVin.scriptSig))
    && exists n :: 0 <= n < |entries| && Takes(entries[n], newVin)
  }

  /** The entries after a signature has come: it is on one input at most, the first of its place that takes it. */
  ghost function AfterSig(entries: seq<Entry>, newVin: TxIn, fSignatureValid: bool): seq<Entry> {
    var n := FirstTaker(entries, newVin);
    if Accepts(entries, newVin, fSignatureValid) then
      entries[n := Signed(entries[n], FirstPlace(entries[n].sev, newVin), newVin)]
    else entries
  }

  ghost function AfterSigs(entries: seq<Entry>, sigs: seq<TxIn>, valid: TxIn -> bool): seq<Entry> {
    if sigs == [] then entries
    else
      var last := sigs[|sigs| - 1];
      AfterSig(AfterSigs(entries, sigs[..|sigs| - 1], valid), last, valid(last))
  }

  /** Some signature of the list is accepted when its turn comes. */
  ghost predicate SomeAccepted(entries: seq<Entry>, sigs: seq<TxIn>, valid: TxIn -> bool) {
    exists i :: 0 <= i < |sigs| && AcceptedAt(entries, sigs, valid, i)
  }

  ghost predicate AcceptedAt(entries: seq<Entry>, sigs: seq<TxIn>, valid: TxIn -> bool, i: nat)
    requires i < |sigs|
  {
    Accepts(AfterSigs(entries, sigs[..i], valid), sigs[i], valid(sigs[i]))
  }

  ghost predicate AllSigned(entries: seq<Entry>) {
    forall k :: 0 <= k < |entries| ==> SignaturesIn(entries[k])
  }

  /** Signing with a new signature moves no input and makes no two inputs equal. */
  lemma SignedEntry(entries: seq<Entry>, n: nat, k: nat, newVin: TxIn)
    requires n < |entries| && k < |entries[n].sev| && entries[n].sev[k].txin.SamePlace(newVin)
    requires AllDisjoint(entries) && SameDenominations(entries)
    requires forall j :: 0 <= j < |entries| ==> NewTo(entries[j], newVin.scriptSig)
    ensures var after := entries[n := Signed(entries[n], k, newVin)];
      && AllDisjoint(after) && SameDenominations(after)
      && AllOutputs(after) == AllOutputs(entries) && Places(AllInputs(after)) == Places(AllInputs(entries))
  {
    var after := entries[n := Signed(entries[n], k, newVin)];
    forall i, j | 0 <= i < j < |after|
      ensures Disjoint(after[i], after[j])
    {
      assert Disjoint(entries[i], entries[j]);
      assert NewTo(entries[i], newVin.scriptSig) && NewTo(entries[j], newVin.scriptSig);
    }
    SignedPlaces(entries, n, k, newVin);
  }

  lemma {:induction false} SignedPlaces(entries: seq<Entry>, n: nat, k: nat, newVin: TxIn)
    requires n < |entries| && k < |entries[n].sev|
    ensures var after := entries[n := Signed(entries[n], k, newVin)];
      AllOutputs(after) == AllOutputs(entries) && Places(AllInputs(after)) == Places(AllInputs(entries))
  {
    var after := entries[n := Signed(entries[n], k, newVin)];
    var m := |entries| - 1;
    if n == m {
      assert after[..m] == entries[..m];
    } else {
      SignedPlaces(entries[..m], n, k, newVin);
      assert after[..m] == entries[..m][n := Signed(entries[n], k, newVin)];
    }
    PlacesJoin(AllInputs(entries[..m]), InputsOf(entries[m]));
    PlacesJoin(AllInputs(after[..m]), InputsOf(after[m]));
    assert Places(InputsOf(entries[m])) == Places(InputsOf(after[m]));
  }

  lemma PlacesJoin(a: seq<TxIn>, b: seq<TxIn>)
    ensures Places(a + b) == Places(a) + Places(b)
  {
  }

  // ---------- the pool ----------

  /** An announced session of some masternode. */
  datatype QueueEntry = QueueEntry(time: int, nDenom: int)

  predicate Expired(nNow: int, time: int) {
    nNow - time > QUEUE_TIMEOUT
  }

  function Unexpired(queue: seq<QueueEntry>, nNow: int): seq<QueueEntry> {
    if queue == [] then []
    else
      Unexpired(queue[..|queue| - 1], nNow)
      + if Expired(nNow, queue[|queue| - 1].time) then [] else [queue[|queue| - 1]]
  }

  function UnexpiredEntries(entries: seq<Entry>, nNow: int): seq<Entry> {
    if entries == [] then []
    else
      UnexpiredEntries(entries[..|entries| - 1], nNow)
      + if Expired(nNow, entries[|entries| - 1].addedTime) then [] else [entries[|entries| - 1]]
  }

  /** What is at most 30 seconds old stays, as often as it was there, and nothing else. */
  lemma {:induction false} StaysIff(queue: seq<QueueEntry>, nNow: int, q: QueueEntry)
    ensures multiset(Unexpired(queue, nNow))[q] == if nNow - q.time <= 30 then multiset(queue)[q] else 0
  {
    if queue != [] {
      var n := |queue| - 1;
      StaysIff(queue[..n], nNow, q);
      assert queue == queue[..n] + [queue[n]];
      OneMoreTime(queue[..n], queue[n], q);
      OneMoreTime(Unexpired(queue[..n], nNow), queue[n], q);
    }
  }

  lemma OneMoreTime<T>(s: seq<T>, x: T, y: T)
    ensures multiset(s + [x])[y] == multiset(s)[y] + if x == y then 1 else 0
  {
  }

  lemma {:induction false} EntryStaysIff(entries: seq<Entry>, nNow: int, e: Entry)
    ensures multiset(UnexpiredEntries(entries, nNow))[e] == if nNow - e.addedTime <= 30 then multiset(entries)[e] else 0
  {
    if entries != [] {
      var n := |entries| - 1;
      EntryStaysIff(entries[..n], nNow, e);
      assert entries == entries[..n] + [entries[n]];
      OneMoreTime(entries[..n], entries[n], e);
      OneMoreTime(UnexpiredEntries(entries[..n], nNow), entries[n], e);
    }
  }

  lemma UnexpiredNone(nNow: int)
    ensures Unexpired([], nNow) == []
  {
  }

  /** One step of the erasing loop over the queue: the entry looked at is the next of the original ones. */
  lemma QueueStep(all: seq<QueueEntry>, c: nat, queue: seq<QueueEntry>, nNow: int)
    requires c <= |all| && queue == Unexpired(all[..c], nNow) + all[c..] && |Unexpired(all[..c], nNow)| < |queue|
    ensures c < |all|
    ensures var i := |Unexpired(all[..c], nNow)|;
      && queue[i] == all[c]
      && if Expired(nNow, all[c].time)
         then queue[..i] + queue[i + 1..] == Unexpired(all[..c + 1], nNow) + all[c + 1..] && |Unexpired(all[..c + 1], nNow)| == i
         else queue == Unexpired(all[..c + 1], nNow) + all[c + 1..] && |Unexpired(all[..c + 1], nNow)| == i + 1
  {
    assert all[..c + 1][..c] == all[..c];
    var kept := Unexpired(all[..c], nNow);
    assert queue[..|kept|] == kept && queue[|kept| + 1..] == all[c + 1..];
  }

  /** The entries after the first c were looked at. */
  function Sifted(all: seq<Entry>, c: nat, nNow: int): seq<Entry>
    requires c <= |all|
  {
    UnexpiredEntries(all[..c], nNow) + all[c..]
  }

  lemma SiftedEnds(all: seq<Entry>, c: nat, nNow: int)
    requires c <= |all|
    ensures c == 0 ==> Sifted(all, c, nNow) == all && |UnexpiredEntries(all[..c], nNow)| == 0
    ensures |UnexpiredEntries(all[..c], nNow)| == |Sifted(all, c, nNow)| ==> c == |all|
    ensures c == |all| ==> Sifted(all, c, nNow) == UnexpiredEntries(all, nNow)
  {
    assert c == |all| ==> all[..c] == all;
  }

  lemma EntriesStep(all: seq<Entry>, c: nat, entries: seq<Entry>, nNow: int)
    requires c <= |all| && entries == Sifted(all, c, nNow)
    requires |UnexpiredEntries(all[..c], nNow)| < |entries|
    ensures c < |all|
    ensures var i := |UnexpiredEntries(all[..c], nNow)|;
      && entries[i] == all[c]
      && if Expired(nNow, all[c].addedTime)
         then entries[..i] + entries[i + 1..] == Sifted(all, c + 1, nNow) && |UnexpiredEntries(all[..c + 1], nNow)| == i
         else entries == Sifted(all, c + 1, nNow) && |UnexpiredEntries(all[..c + 1], nNow)| == i + 1
  {
    assert all[..c + 1][..c] == all[..c];
    var kept := UnexpiredEntries(all[..c], nNow);
    assert entries[..|kept|] == kept && entries[|kept| + 1..] == all[c + 1..];
  }

  predicate SignaturesIn(e: Entry) {
    forall k :: 0 <= k < |e.sev| ==> e.sev[k].fHasSig
  }

  ghost predicate NewInput(entries: seq<Entry>, i: TxIn) {
    forall k :: 0 <= k < |entries| ==> NewInputIn(entries[k], i)
  }

  ghost predicate AllNewInputs(entries: seq<Entry>, vin: seq<TxIn>) {
    forall k :: 0 <= k < |vin| ==> vin[k].prevout != NULL_PREVOUT && NewInput(entries, vin[k])
  }

  ghost predicate NewInputIn(e: Entry, i: TxIn) {
    forall k :: 0 <= k < |e.sev| ==> !e.sev[k].txin.Same(i)
  }

  ghost predicate Compatible(entries: seq<Entry>, vout: seq<TxOut>) {
    Mask(vout) != 0 && forall k :: 0 <= k < |entries| ==> Mask(entries[k].vout) == Mask(vout)
  }

  class Pool {
    var state: Status
    var entries: seq<Entry>
    var finalVin: seq<TxIn>
    var finalVout: seq<TxOut>
    var sessionUsers: int
    var sessionDenom: int
    var vecSessionCollateral: seq<nat>
    var lastTimeChanged: int
    var vecDarksendQueue: seq<QueueEntry>

    /** What holds between any two messages or timer ticks. */
    ghost predicate Valid()
      reads this
    {
      && (state == Idle || state == Queue || state == AcceptingEntries || state == Signing || state == Transmission)
      && Sized() && AllDisjoint(entries) && SameDenominations(entries)
      && (state == Signing || state == Transmission ==> Final())
      && (state == Transmission ==> forall k :: 0 <= k < |entries| ==> SignaturesIn(entries[k]))
    }

    /** Every session user is counted, and entries are there only while users are. */
    ghost predicate Sized()
      reads this
    {
      && 0 <= sessionUsers <= MAX_TRANSACTIONS && |entries| <= MAX_TRANSACTIONS
      && (sessionUsers == 0 ==> entries == [])
      && (state == Idle ==> sessionUsers == 0)
    }

    ghost predicate Final()
      reads this
    {
      |entries| == MAX_TRANSACTIONS && Combines(finalVin, finalVout, entries)
    }

    constructor (nMillis: int)
      ensures Valid() && state == Idle && entries == [] && vecDarksendQueue == []
    {
      state, entries, finalVin, finalVout := Idle, [], [], [];
      sessionUsers, sessionDenom, vecSessionCollateral, lastTimeChanged := 0, 0, [], nMillis;
      vecDarksendQueue := [];
    }

    /** Nothing of a session is left. */
    ghost predicate Cleared()
      reads this
    {
      && state == Idle && entries == [] && finalVin == [] && finalVout == []
      && sessionUsers == 0 && sessionDenom == 0 && vecSessionCollateral == []
    }

    method SetNull(nMillis: int)
      modifies this
      ensures Valid() && Cleared() && lastTimeChanged == nMillis
      ensures vecDarksendQueue == old(vecDarksendQueue)
    {
      state, entries, finalVin, finalVout := Idle, [], [], [];
      sessionUsers, sessionDenom, vecSessionCollateral, lastTimeChanged := 0, 0, [], nMillis;
    }

    /** A masternode never enters the two client states. */
    method UpdateState(newState: Status, nMillis: int)
      modifies this`state, this`lastTimeChanged
      ensures state == if newState == Error || newState == Success then old(state) else newState
      ensures lastTimeChanged == if state != old(state) then nMillis else old(lastTimeChanged)
    {
      if newState == Error || newState == Success {
        return;
      }
      if state != newState {
        lastTimeChanged := nMillis;
      }
      state := newState;
    }

    // ---------- joining ----------

    predicate Joinable(nDenom: int)
      reads this
    {
      || sessionUsers == 0
      || (sessionUsers < MAX_TRANSACTIONS && nDenom == sessionDenom && (state == AcceptingEntries || state == Queue))
    }

    /**
     * The "dsa" message: a user announces that it will submit an entry. The first user of a session sets the
     * denomination and opens the queue.
     */
    method IsCompatibleWithSession(nDenom: int, txCollateral: nat, fCollateralValid: bool, nMillis: int) returns (ok: bool)
      requires Valid()
      modifies this`state, this`sessionUsers, this`sessionDenom, this`vecSessionCollateral, this`lastTimeChanged
      ensures Valid()
      ensures ok <==> nDenom != 0 && fCollateralValid && old(Joinable(nDenom))
      ensures ok ==> sessionUsers == old(sessionUsers) + 1 && sessionDenom == nDenom && lastTimeChanged == nMillis
      ensures ok ==> vecSessionCollateral == old(vecSessionCollateral) + [txCollateral]
      ensures ok ==> state == if old(sessionUsers) == 0 then Queue else old(state)
      ensures !ok ==> state == old(state) && sessionUsers == old(sessionUsers) && sessionDenom == old(sessionDenom)
    {
      if nDenom == 0 {
        return false;
      }
      if !fCollateralValid {
        return false;
      }
      if sessionUsers == 0 {
        sessionDenom := nDenom;
        sessionUsers := sessionUsers + 1;
        lastTimeChanged := nMillis;
        UpdateState(Queue, nMillis);
        vecSessionCollateral := vecSessionCollateral + [txCollateral];
        return true;
      }
      if (state != AcceptingEntries && state != Queue) || sessionUsers >= MAX_TRANSACTIONS {
        return false;
      }
      if nDenom != sessionDenom {
        return false;
      }
      sessionUsers := sessionUsers + 1;
      lastTimeChanged := nMillis;
      vecSessionCollateral := vecSessionCollateral + [txCollateral];
      return true;
    }

    /** The announcement that the session is full opens it for entries. */
    method CheckForCompleteQueue(nMillis: int)
      requires Valid()
      modifies this`state, this`lastTimeChanged
      ensures Valid()
      ensures state == if old(state) == Queue && sessionUsers == MAX_TRANSACTIONS then AcceptingEntries else old(state)
    {
      if state == Queue && sessionUsers == MAX_TRANSACTIONS {
        UpdateState(AcceptingEntries, nMillis);
      }
    }

    // ---------- entries ----------

    method IsCompatibleWithEntries(vout: seq<TxOut>) returns (ok: bool)
      ensures ok <==> Compatible(entries, vout)
    {
      var denom := GetDenominations(vout);
      if denom == 0 {
        return false;
      }
      for i := 0 to |entries|
        invariant forall k :: 0 <= k < i ==> Mask(entries[k].vout) == Mask(vout)
      {
        var other := GetDenominations(entries[i].vout);
        if denom != other {
          return false;
        }
      }
      return true;
    }

    method HasInput(i: TxIn) returns (found: bool)
      ensures found <==> !NewInput(entries, i)
    {
      for n := 0 to |entries|
        invariant forall k :: 0 <= k < n ==> NewInputIn(entries[k], i)
      {
        for m := 0 to |entries[n].sev|
          invariant forall k :: 0 <= k < m ==> !entries[n].sev[k].txin.Same(i)
        {
          if entries[n].sev[m].txin.Same(i) {
            assert !NewInputIn(entries[n], i);
            return true;
          }
        }
      }
      return false;
    }

    /** A refused entry costs the session a user. */
    method AddEntry(newInput: seq<TxIn>, nAmount: int, txCollateral: nat, newOutput: seq<TxOut>, fCollateralValid: bool,
                    nNow: int)
      returns (ok: bool)
      requires Valid() && sessionUsers >= MAX_TRANSACTIONS && newInput != []
      requires Compatible(entries, newOutput)
      modifies this`entries, this`sessionUsers
      ensures Valid()
      ensures ok <==>
        nAmount >= 0 && fCollateralValid && |old(entries)| < MAX_TRANSACTIONS && AllNewInputs(old(entries), newInput)
      ensures entries ==
        if ok then old(entries) + [NewEntry(newInput, nAmount, txCollateral, newOutput, nNow)] else old(entries)
      ensures sessionUsers == if ok then old(sessionUsers) else old(sessionUsers) - 1
    {
      for i := 0 to |newInput|
        invariant sessionUsers == old(sessionUsers) && (i > 0 ==> nAmount >= 0)
        invariant forall k :: 0 <= k < i ==> newInput[k].prevout != NULL_PREVOUT
      {
        if newInput[i].prevout == NULL_PREVOUT || nAmount < 0 {
          sessionUsers := sessionUsers - 1;
          return false;
        }
      }
      if !fCollateralValid {
        sessionUsers := sessionUsers - 1;
        return false;
      }
      if |entries| >= MAX_TRANSACTIONS {
        sessionUsers := sessionUsers - 1;
        return false;
      }
      for i := 0 to |newInput|
        invariant sessionUsers == old(sessionUsers) && entries == old(entries)
        invariant forall k :: 0 <= k < i ==> NewInput(entries, newInput[k])
      {
        var found := HasInput(newInput[i]);
        if found {
          sessionUsers := sessionUsers - 1;
          return false;
        }
      }
      EntryAdded(entries, newInput, nAmount, txCollateral, newOutput, nNow);
      entries := entries + [NewEntry(newInput, nAmount, txCollateral, newOutput, nNow)];
      return true;
    }

    /**
     * The "dsi" message. fAcceptable stands for the checks of values, fees, scripts and of the inputs as a transaction,
     * which has at least one; fAccepted and fSigned for the outcome of sending the final transaction.
     */
    method SubmitEntry(newInput: seq<TxIn>, nAmount: int, txCollateral: nat, newOutput: seq<TxOut>, fCollateralValid: bool,
                       fAcceptable: bool, fAccepted: bool, fSigned: bool, nNow: int, nMillis: int)
      returns (ok: bool)
      requires Valid() && (fAcceptable ==> newInput != [])
      modifies this
      ensures Valid()
      ensures ok <==>
        && old(sessionUsers) == MAX_TRANSACTIONS && fAcceptable && Compatible(old(entries), newOutput)
        && nAmount >= 0 && fCollateralValid && |old(entries)| < MAX_TRANSACTIONS && AllNewInputs(old(entries), newInput)
      ensures ok ==> sessionUsers == old(sessionUsers)
      ensures !ok ==> entries == old(entries) && state == old(state)
      ensures !ok && old(sessionUsers) == MAX_TRANSACTIONS && fAcceptable && Compatible(old(entries), newOutput) ==>
        sessionUsers == old(sessionUsers) - 1
      ensures !ok && !(old(sessionUsers) == MAX_TRANSACTIONS && fAcceptable && Compatible(old(entries), newOutput)) ==>
        sessionUsers == old(sessionUsers)
      ensures ok && (old(state) != AcceptingEntries || |old(entries)| + 1 < MAX_TRANSACTIONS) ==>
        entries == old(entries) + [NewEntry(newInput, nAmount, txCollateral, newOutput, nNow)] && state == old(state)
      // the last entry makes the final transaction, which waits for signatures as its inputs have none
      ensures ok && old(state) == AcceptingEntries && |old(entries)| + 1 == MAX_TRANSACTIONS ==>
        state == Signing && entries == old(entries) + [NewEntry(newInput, nAmount, txCollateral, newOutput, nNow)]
    {
      ok := false;
      if sessionUsers < MAX_TRANSACTIONS {
        return;
      }
      var compatible := IsCompatibleWithEntries(newOutput);
      if !compatible || !fAcceptable {
        return;
      }
      ok := AddEntry(newInput, nAmount, txCollateral, newOutput, fCollateralValid, nNow);
      if ok {
        assert !entries[|entries| - 1].sev[0].fHasSig;
        Check(fAccepted, fSigned, nMillis);
      }
    }

    // ---------- the final transaction ----------

    /** The inputs and outputs of all entries, shuffled. */
    method BuildFinalTransaction()
      requires |entries| == MAX_TRANSACTIONS
      modifies this`finalVin, this`finalVout
      ensures Final()
    {
      var vin, vout := [], [];
      for i := 0 to |entries|
        invariant vin == AllInputs(entries[..i]) && vout == AllOutputs(entries[..i])
      {
        assert entries[..i + 1][..i] == entries[..i];
        vout := vout + entries[i].vout;
        vin := vin + InputsOf(entries[i]);
      }
      assert entries[..|entries|] == entries;
      finalVin := Shuffle(vin);
      finalVout := Shuffle(vout);
      PlacesShuffled(finalVin, vin);
    }

    method SignaturesComplete() returns (ok: bool)
      ensures ok <==> forall k :: 0 <= k < |entries| ==> SignaturesIn(entries[k])
    {
      for i := 0 to |entries|
        invariant forall k :: 0 <= k < i ==> SignaturesIn(entries[k])
      {
        if !SignaturesIn(entries[i]) {
          return false;
        }
      }
      return true;
    }

    /** Sent, refused by the memory pool, or stuck until the timeout because the relay message could not be signed. */
    method CheckFinalTransaction(fAccepted: bool, fSigned: bool, nMillis: int)
      requires Valid()
      modifies this
      ensures Valid()
      ensures vecDarksendQueue == old(vecDarksendQueue)
      ensures !fAccepted ==> state == AcceptingEntries && entries == [] && sessionUsers == 0
      ensures fAccepted && fSigned ==> state == Idle && entries == []
      ensures fAccepted && !fSigned ==> state == old(state) && entries == old(entries)
    {
      if !fAccepted {
        SetNull(nMillis);
        UpdateState(AcceptingEntries, nMillis);
        return;
      }
      if !fSigned {
        return;
      }
      SetNull(nMillis);
    }

    /** Three entries make a final transaction; all signatures send it. */
    method Check(fAccepted: bool, fSigned: bool, nMillis: int)
      requires Valid()
      modifies this
      ensures Valid() && vecDarksendQueue == old(vecDarksendQueue)
      ensures old(Collecting()) && !old(FullySigned()) ==>
        state == Signing && entries == old(entries) && sessionUsers == old(sessionUsers)
      ensures (old(Collecting()) || old(state) == Signing) && old(FullySigned()) ==>
        if !fAccepted then state == AcceptingEntries && entries == []
        else if fSigned then state == Idle && entries == []
        else state == Transmission && entries == old(entries)
      ensures !old(Collecting()) && !(old(state) == Signing && old(FullySigned())) ==>
        state == old(state) && entries == old(entries) && sessionUsers == old(sessionUsers)
    {
      hide AllDisjoint, SameDenominations, Combines;
      if state == AcceptingEntries && |entries| >= MAX_TRANSACTIONS {
        UpdateState(FinalizeTransaction, nMillis);
      }
      if state == FinalizeTransaction {
        UpdateState(Signing, nMillis);
        BuildFinalTransaction();
      }
      if state == Signing {
        var complete := SignaturesComplete();
        if complete {
          UpdateState(Transmission, nMillis);
          CheckFinalTransaction(fAccepted, fSigned, nMillis);
        }
      }
    }

    ghost predicate Collecting()
      reads this
    {
      state == AcceptingEntries && |entries| >= MAX_TRANSACTIONS
    }

    ghost predicate FullySigned()
      reads this
    {
      AllSigned(entries)
    }

    // ---------- signatures ----------

    method KnownSignature(scriptSig: nat) returns (known: bool)
      ensures !known <==> forall k :: 0 <= k < |entries| ==> NewTo(entries[k], scriptSig)
    {
      for n := 0 to |entries|
        invariant forall k :: 0 <= k < n ==> NewTo(entries[k], scriptSig)
      {
        for m := 0 to |entries[n].sev|
          invariant forall k :: 0 <= k < m ==> entries[n].sev[k].txin.scriptSig != scriptSig
        {
          if entries[n].sev[m].txin.scriptSig == scriptSig {
            assert !NewTo(entries[n], scriptSig);
            return true;
          }
        }
      }
      return false;
    }

    method SignFinal(newVin: TxIn)
      modifies this`finalVin
      ensures Places(finalVin) == Places(old(finalVin))
      ensures forall k :: 0 <= k < |finalVin| && finalVin[k].SamePlace(newVin) ==> finalVin[k].scriptSig == newVin.scriptSig
      ensures forall k :: 0 <= k < |finalVin| && !finalVin[k].SamePlace(newVin) ==> finalVin[k] == old(finalVin)[k]
    {
      for i := 0 to |finalVin|
        invariant |finalVin| == |old(finalVin)|
        invariant forall k :: 0 <= k < |finalVin| ==> finalVin[k].SamePlace(old(finalVin)[k])
        invariant forall k :: 0 <= k < i && finalVin[k].SamePlace(newVin) ==> finalVin[k].scriptSig == newVin.scriptSig
        invariant forall k :: 0 <= k < |finalVin| && (k >= i || !finalVin[k].SamePlace(newVin)) ==>
          finalVin[k] == old(finalVin)[k]
      {
        if newVin.SamePlace(finalVin[i]) {
          finalVin := finalVin[i := finalVin[i].(scriptSig := newVin.scriptSig, prevPubKey := newVin.prevPubKey)];
        }
      }
      assert Places(finalVin) == Places(old(finalVin));
    }

    /** A signature no input has yet goes to the final transaction and to the first entry that can take it. */
    method AddScriptSig(newVin: TxIn, fSignatureValid: bool) returns (ok: bool)
      requires Valid()
      modifies this`finalVin, this`entries
      ensures Valid()
      ensures ok <==> Accepts(old(entries), newVin, fSignatureValid)
      ensures entries == AfterSig(old(entries), newVin, fSignatureValid)
      ensures Places(finalVin) == Places(old(finalVin))
      ensures ok ==> forall k :: 0 <= k < |finalVin| && finalVin[k].SamePlace(newVin) ==>
        finalVin[k].scriptSig == newVin.scriptSig
    {
      hide AllDisjoint, SameDenominations, Places, AllInputs, AllOutputs, NewTo, Signed, Takes;
      var known := KnownSignature(newVin.scriptSig);
      if known || !fSignatureValid {
        return false;
      }
      SignFinal(newVin);
      for i := 0 to |entries|
        invariant entries == old(entries) && Places(finalVin) == Places(old(finalVin)) && Valid()
        invariant forall k :: 0 <= k < i ==> !Takes(entries[k], newVin)
        invariant forall k :: 0 <= k < |finalVin| && finalVin[k].SamePlace(newVin) ==>
          finalVin[k].scriptSig == newVin.scriptSig
      {
        var e;
        ok, e := AddSig(entries[i], newVin);
        if ok {
          TakesMeans(entries[i], newVin);
          var k := FirstPlace(entries[i].sev, newVin);
          SignedEntry(entries, i, k, newVin);
          SignedKeepsSignatures(entries[i], k, newVin);
          assert FirstTaker(entries, newVin) == i;
          entries := entries[i := e];
          return;
        }
      }
      return false;
    }

    /** The "dss" message. */
    method ReceiveSignatures(sigs: seq<TxIn>, valid: TxIn -> bool, fAccepted: bool, fSigned: bool, nMillis: int)
      requires Valid()
      modifies this
      ensures Valid()
      ensures var signed := AfterSigs(old(entries), sigs, valid);
        if SomeAccepted(old(entries), sigs, valid) && (old(Collecting()) || old(state) == Signing) then
          if !AllSigned(signed) then state == Signing && entries == signed
          else if !fAccepted then state == AcceptingEntries && entries == []
          else if fSigned then state == Idle && entries == []
          else state == Transmission && entries == signed
        else state == old(state) && entries == signed
    {
      hide AllDisjoint, SameDenominations, Combines, AfterSig, Accepts, Places, SignaturesIn;
      var success := false;
      for i := 0 to |sigs|
        invariant Valid() && state == old(state)
        invariant entries == AfterSigs(old(entries), sigs[..i], valid) && |entries| == |old(entries)|
        invariant success <==> exists j :: 0 <= j < i && AcceptedAt(old(entries), sigs, valid, j)
      {
        assert sigs[..i + 1][..i] == sigs[..i];
        AfterSigSize(entries, sigs[i], valid(sigs[i]));
        var ok := AddScriptSig(sigs[i], valid(sigs[i]));
        assert ok <==> AcceptedAt(old(entries), sigs, valid, i);
        if ok {
          success := true;
        }
      }
      assert sigs[..|sigs|] == sigs;
      if success {
        Check(fAccepted, fSigned, nMillis);
      }
    }

    // ---------- timeouts ----------

    method RemoveExpiredQueues(nNow: int)
      modifies this`vecDarksendQueue
      ensures vecDarksendQueue == Unexpired(old(vecDarksendQueue), nNow)
    {
      hide Unexpired;
      ghost var queue := vecDarksendQueue;
      UnexpiredNone(nNow);
      assert queue[..0] == [];
      ghost var c := 0;
      var i := 0;
      while i < |vecDarksendQueue|
        invariant 0 <= c <= |queue| && 0 <= i <= |vecDarksendQueue|
        invariant vecDarksendQueue == Unexpired(queue[..c], nNow) + queue[c..] && i == |Unexpired(queue[..c], nNow)|
        decreases |queue| - c
      {
        QueueStep(queue, c, vecDarksendQueue, nNow);
        if Expired(nNow, vecDarksendQueue[i].time) {
          vecDarksendQueue := vecDarksendQueue[..i] + vecDarksendQueue[i + 1..];
        } else {
          i := i + 1;
        }
        c := c + 1;
      }
      assert queue[..c] == queue;
    }

    /** One entry leaves; with the last one the session is over. */
    method EraseEntry(at: nat, nMillis: int)
      requires Valid() && at < |entries| && (state == AcceptingEntries || state == Queue)
      modifies this
      ensures Valid() && vecDarksendQueue == old(vecDarksendQueue)
      ensures entries == old(entries)[..at] + old(entries)[at + 1..]
      ensures if entries == [] then Cleared() && lastTimeChanged == nMillis
              else state == old(state) && lastTimeChanged == old(lastTimeChanged) && sessionUsers == old(sessionUsers)
    {
      hide AllDisjoint, SameDenominations, Combines, SignaturesIn;
      EntryRemoved(entries, at);
      entries := entries[..at] + entries[at + 1..];
      if entries == [] {
        SetNull(nMillis);
      }
    }

    /** Expired entries leave; when the last one has left, the session is over. */
    method RemoveExpiredEntries(nNow: int, nMillis: int)
      requires Valid() && (state == AcceptingEntries || state == Queue)
      modifies this
      ensures Valid() && vecDarksendQueue == old(vecDarksendQueue)
      ensures entries == UnexpiredEntries(old(entries), nNow)
      ensures if old(entries) != [] && entries == [] then Cleared() && lastTimeChanged == nMillis
              else state == old(state) && lastTimeChanged == old(lastTimeChanged) && sessionUsers == old(sessionUsers)
    {
      hide Valid, UnexpiredEntries, Cleared, Sifted;
      ghost var all := entries;
      ghost var c := 0;
      SiftedEnds(all, c, nNow);
      var i := 0;
      while i < |entries|
        invariant 0 <= c <= |all| && 0 <= i <= |entries| && Valid()
        invariant entries == Sifted(all, c, nNow) && i == |UnexpiredEntries(all[..c], nNow)|
        invariant vecDarksendQueue == old(vecDarksendQueue)
        invariant if all != [] && entries == [] then Cleared() && lastTimeChanged == nMillis
                  else state == old(state) && lastTimeChanged == old(lastTimeChanged) && sessionUsers == old(sessionUsers)
        decreases |all| - c
      {
        EntriesStep(all, c, entries, nNow);
        if Expired(nNow, entries[i].addedTime) {
          EraseEntry(i, nMillis);
        } else {
          i := i + 1;
        }
        c := c + 1;
      }
      SiftedEnds(all, c, nNow);
    }

    method CheckTimeout(nNow: int, nMillis: int)
      requires Valid()
      modifies this
      ensures Valid() && vecDarksendQueue == Unexpired(old(vecDarksendQueue), nNow)
      ensures TimedOut(old(state), nMillis - old(lastTimeChanged)) ==> Cleared()
      ensures nMillis - old(lastTimeChanged) < QUEUE_TIMEOUT * 1000 && (old(state) == AcceptingEntries || old(state) == Queue) ==>
        && entries == UnexpiredEntries(old(entries), nNow)
        && state == if old(entries) != [] && entries == [] then Idle else old(state)
      ensures !TimedOut(old(state), nMillis - old(lastTimeChanged)) && old(state) != AcceptingEntries && old(state) != Queue ==>
        && state == old(state) && entries == old(entries) && finalVin == old(finalVin) && finalVout == old(finalVout)
        && sessionUsers == old(sessionUsers) && sessionDenom == old(sessionDenom)
        && vecSessionCollateral == old(vecSessionCollateral) && lastTimeChanged == old(lastTimeChanged)
    {
      hide AllDisjoint, SameDenominations, Combines, Unexpired, UnexpiredEntries;
      RemoveExpiredQueues(nNow);
      if state == AcceptingEntries || state == Queue {
        RemoveExpiredEntries(nNow, nMillis);
        if nMillis - lastTimeChanged >= QUEUE_TIMEOUT * 1000 {
          SetNull(nMillis);
        }
      } else if nMillis - lastTimeChanged >= QUEUE_TIMEOUT * 1000 {
        SetNull(nMillis);
        UpdateState(Error, nMillis);
      }
      if state == Signing && nMillis - lastTimeChanged >= SIGNING_TIMEOUT * 1000 {
        SetNull(nMillis);
        UpdateState(Error, nMillis);
      }
    }
  }

  /** Half a minute without a change of state, or a quarter while signatures are due. */
  predicate TimedOut(state: Status, nElapsed: int) {
    nElapsed >= 30_000 || (state == Signing && nElapsed >= 15_000)
  }

  const NULL_PREVOUT: nat := 0

  function NewEntry(newInput: seq<TxIn>, nAmount: int, txCollateral: nat, newOutput: seq<TxOut>, nNow: int): Entry {
    Entry(seq(|newInput|, k requires 0 <= k < |newInput| => DsIn(newInput[k], false)), newOutput, nAmount, txCollateral, nNow)
  }

  lemma EntryAdded(entries: seq<Entry>, newInput: seq<TxIn>, nAmount: int, txCollateral: nat, newOutput: seq<TxOut>, nNow: int)
    requires AllDisjoint(entries) && SameDenominations(entries)
    requires Mask(newOutput) != 0 && forall k :: 0 <= k < |entries| ==> Mask(entries[k].vout) == Mask(newOutput)
    requires forall k :: 0 <= k < |newInput| ==> NewInput(entries, newInput[k])
    ensures var after := entries + [NewEntry(newInput, nAmount, txCollateral, newOutput, nNow)];
      AllDisjoint(after) && SameDenominations(after)
  {
    var e := NewEntry(newInput, nAmount, txCollateral, newOutput, nNow);
    forall n | 0 <= n < |entries|
      ensures Disjoint(entries[n], e)
    {
      forall i, j | 0 <= i < |entries[n].sev| && 0 <= j < |e.sev|
        ensures !entries[n].sev[i].txin.Same(e.sev[j].txin)
      {
        assert NewInput(entries, newInput[j]) && NewInputIn(entries[n], newInput[j]);
      }
    }
  }

  lemma EntryRemoved(entries: seq<Entry>, at: nat)
    requires at < |entries| && AllDisjoint(entries) && SameDenominations(entries)
    ensures AllDisjoint(entries[..at] + entries[at + 1..]) && SameDenominations(entries[..at] + entries[at + 1..])
  {
  }

  lemma TakesMeans(e: Entry, newVin: TxIn)
    requires Takes(e, newVin)
    ensures var k := FirstPlace(e.sev, newVin); k < |e.sev| && e.sev[k].txin.SamePlace(newVin) && !e.sev[k].fHasSig
  {
  }

  lemma AfterSigSize(entries: seq<Entry>, newVin: TxIn, fSignatureValid: bool)
    ensures |AfterSig(entries, newVin, fSignatureValid)| == |entries|
  {
  }

  lemma SignedKeepsSignatures(e: Entry, k: nat, newVin: TxIn)
    requires k < |e.sev|
    ensures SignaturesIn(e) ==> SignaturesIn(Signed(e, k, newVin))
  {
  }

  function Total(vout: seq<TxOut>): int {
    if vout == [] then 0 else Total(vout[..|vout| - 1]) + vout[|vout| - 1].nValue
  }

  lemma {:induction false} TotalWithout(vout: seq<TxOut>, at: nat)
    requires at < |vout|
    ensures Total(vout) == Total(vout[..at] + vout[at + 1..]) + vout[at].nValue
  {
    var m := |vout| - 1;
    if at == m {
      assert vout[..at] + vout[at + 1..] == vout[..m];
    } else {
      TotalWithout(vout[..m], at);
      var rest := vout[..at] + vout[at + 1..];
      assert rest[..m - 1] == vout[..m][..at] + vout[..m][at + 1..];
      assert rest[m - 1] == vout[m];
    }
  }

  /** Permuted outputs pay out the same. */
  lemma {:induction false} SameTotal(a: seq<TxOut>, b: seq<TxOut>)
    requires multiset(a) == multiset(b)
    ensures Total(a) == Total(b)
    decreases |a|
  {
    if a == [] {
      assert |multiset(b)| == |b|;
    } else {
      var at := Position(b, a[0]) by {
        assert a[0] in multiset(a);
      }
      var front, rest := a[..0] + a[1..], b[..at] + b[at + 1..];
      ElementsWithout(a, 0);
      ElementsWithout(b, at);
      Cancel(multiset(front), multiset(rest), a[0]);
      TotalWithout(a, 0);
      TotalWithout(b, at);
      SameTotal(front, rest);
    }
  }

  lemma {:induction false} TotalOfBoth(a: seq<TxOut>, b: seq<TxOut>)
    ensures Total(a + b) == Total(a) + Total(b)
  {
    if b == [] {
      assert a + b == a;
    } else {
      var m := |b| - 1;
      TotalOfBoth(a, b[..m]);
      assert (a + b)[..|a| + m] == a + b[..m];
    }
  }

  function PaidBy(entries: seq<Entry>): int {
    if entries == [] then 0 else PaidBy(entries[..|entries| - 1]) + Total(entries[|entries| - 1].vout)
  }

  lemma {:induction false} PaidByAll(entries: seq<Entry>)
    ensures Total(AllOutputs(entries)) == PaidBy(entries)
  {
    if entries != [] {
      var n := |entries| - 1;
      PaidByAll(entries[..n]);
      TotalOfBoth(AllOutputs(entries[..n]), entries[n].vout);
    }
  }

  /** The final transaction pays out what the entries pay out together. */
  lemma FinalPays(entries: seq<Entry>, vout: seq<TxOut>)
    requires multiset(vout) == multiset(AllOutputs(entries))
    ensures Total(vout) == PaidBy(entries)
  {
    SameTotal(vout, AllOutputs(entries));
    PaidByAll(entries);
  }
}
