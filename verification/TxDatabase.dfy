/** The transaction database: a committed index and, inside a database transaction, a log of writes. */
module TxDatabase {
  import opened Common
  import opened Transactions
  import opened TxIndexing

  datatype Write = Put(id: TxId, entry: TxIndex) | Delete(id: TxId)

  /** The index after the writes of a batch, in order. */
  function Apply(ix: Index, batch: seq<Write>): Index {
    if batch == [] then ix
    else
      var before := Apply(ix, batch[..|batch| - 1]);
      match batch[|batch| - 1]
      case Put(id, entry) => before[id := entry]
      case Delete(id) => before - {id}
  }

  function Lookup(ix: Index, id: TxId): Option<TxIndex> {
    if id in ix then Some(ix[id]) else None
  }

  class TxDb {
    var committed: Index
    var committedBest: BlockIndex
    var active: bool
    var batch: seq<Write>
    var batchBest: Option<BlockIndex>

    ghost predicate Valid()
      reads this
    {
      !active ==> batch == [] && batchBest.None?
    }

    /** The index that reads see. */
    ghost function View(): Index
      reads this
    {
      Apply(committed, batch)
    }

    constructor (genesis: BlockIndex)
      ensures Valid() && !active && committed == map[] && committedBest == genesis
    {
      committed, committedBest := map[], genesis;
      active, batch, batchBest := false, [], None;
    }

    method TxnBegin()
      requires Valid() && !active
      modifies this
      ensures Valid() && active && batch == [] && batchBest.None?
      ensures committed == old(committed) && committedBest == old(committedBest)
    {
      active, batch, batchBest := true, [], None;
    }

    method TxnCommit()
      requires Valid() && active
      modifies this
      ensures Valid() && !active
      ensures committed == old(View())
      ensures committedBest == if old(batchBest).Some? then old(batchBest).value else old(committedBest)
    {
      committed := Apply(committed, batch);
      if batchBest.Some? {
        committedBest := batchBest.value;
      }
      active, batch, batchBest := false, [], None;
    }

    method TxnAbort()
      requires Valid()
      modifies this
      ensures Valid() && !active
      ensures committed == old(committed) && committedBest == old(committedBest)
    {
      active, batch, batchBest := false, [], None;
    }

    /** Scans the whole batch: the last write of the key wins, and only if there is none is the store read. */
    method ReadTxIndex(id: TxId) returns (r: Option<TxIndex>)
      ensures r == Lookup(View(), id)
    {
      var found, deleted, value := false, false, None;
      for i := 0 to |batch|
        invariant Lookup(Apply(committed, batch[..i]), id) ==
                  if found then (if deleted then None else value) else Lookup(committed, id)
      {
        assert batch[..i + 1][..i] == batch[..i];
        match batch[i]
        case Put(k, entry) =>
          if k == id {
            found, deleted, value := true, false, Some(entry);
          }
        case Delete(k) =>
          if k == id {
            found, deleted := true, true;
          }
      }
      assert batch[..|batch|] == batch;
      if found {
        r := if deleted then None else value;
      } else {
        r := Lookup(committed, id);
      }
    }

    method UpdateTxIndex(id: TxId, entry: TxIndex)
      requires Valid() && active
      modifies this`batch
      ensures Valid() && View() == old(View())[id := entry]
    {
      ghost var b := batch;
      batch := batch + [Put(id, entry)];
      assert batch[..|batch| - 1] == b;
    }

    method EraseTxIndex(id: TxId)
      requires Valid() && active
      modifies this`batch
      ensures Valid() && View() == old(View()) - {id}
    {
      ghost var b := batch;
      batch := batch + [Delete(id)];
      assert batch[..|batch| - 1] == b;
    }

    method WriteHashBestChain(best: BlockIndex)
      requires Valid() && active
      modifies this`batchBest
      ensures Valid() && batchBest == Some(best)
    {
      batchBest := Some(best);
    }
  }
}
