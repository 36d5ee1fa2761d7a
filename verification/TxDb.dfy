/** `TxDB` of rust/src/uaas/txdb.rs, updating its fields in place. */
module TxDbs {
  import opened Common
  import opened Tables
  import opened TxDbSpec

  class TxDb {
    const saveTxs: bool
    var txs: map<Hash256, nat>
    var mempool: set<Hash256>
    var hashesToDelete: seq<Hash256>
    var txEntries: seq<(Hash256, TxRow)>
    var mempoolEntries: seq<(Hash256, MempoolRow)>
    var sent: seq<Op>

    ghost function State(): State
      reads this
    {
      TxDbSpec.State(txs, mempool, hashesToDelete, txEntries, mempoolEntries, sent)
    }

    constructor (saveTxs: bool)
      ensures this.saveTxs == saveTxs && State() == TxDbSpec.State(map[], {}, [], [], [], [])
    {
      this.saveTxs := saveTxs;
      txs, mempool, hashesToDelete, txEntries, mempoolEntries, sent := map[], {}, [], [], [], [];
    }

    /** `load_tx`; `rows` is the result of the query, the key being None where the stored hash does not decode. */
    method LoadTx(rows: seq<(Option<Hash256>, nat)>)
      modifies this`txs
      ensures Loaded(old(txs), rows, txs)
      ensures forall table :: old(txs) == map[] && RowsOf(HeightsOf(table), rows) ==> txs == HeightsOf(table)
    {
      for i := 0 to |rows|
        invariant Loaded(old(txs), rows[..i], txs)
      {
        assert rows[..i + 1] == rows[..i] + [rows[i]];
        LoadOneMore(old(txs), rows[..i], txs, rows[i]);
        if rows[i].0.None? {
          continue;
        }
        txs := txs[rows[i].0.value := rows[i].1];
      }
      assert rows[..|rows|] == rows;
      forall table: map<Hash256, TxRow> | old(txs) == map[] && RowsOf(HeightsOf(table), rows)
        ensures txs == HeightsOf(table)
      {
        LoadedTable(HeightsOf(table), rows, txs);
      }
    }

    /** `load_mempool`. */
    method LoadMempool(rows: seq<Option<Hash256>>)
      modifies this`mempool
      ensures forall h :: h in mempool <==> h in old(mempool) || Some(h) in rows
    {
      for i := 0 to |rows|
        invariant forall h :: h in mempool <==> h in old(mempool) || Some(h) in rows[..i]
      {
        assert rows[..i + 1] == rows[..i] + [rows[i]];
        if rows[i].Some? {
          mempool := mempool + {rows[i].value};
        }
      }
      assert rows[..|rows|] == rows;
    }

    method SaveTx(tx: Tx, blockindex: nat, height: nat)
      modifies this`txEntries
      ensures State() == TxDbSpec.SaveTx(old(State()), tx, blockindex, height)
    {
      if tx.satoshis < 0 {
        return;
      }
      txEntries := txEntries + [(tx.hash, TxRow(height, blockindex, tx.size % TWO_32, tx.satoshis))];
    }

    method ProcessBlock(txns: seq<Tx>, height: int)
      modifies this
      ensures State() == TxDbSpec.ProcessBlock(old(State()), saveTxs, txns, height)
    {
      if height < 0 {
        return;
      }
      for blockindex := 0 to |txns|
        invariant State() == ProcessTo(old(State()), saveTxs, txns, blockindex, height)
      {
        var tx := txns[blockindex];
        if tx.hash in mempool {
          mempool := mempool - {tx.hash};
          hashesToDelete := hashesToDelete + [tx.hash];
        }
        if saveTxs {
          if blockindex >= TWO_32 {
            continue;
          }
          SaveTx(tx, blockindex, height);
          txs := txs[tx.hash := height];
        }
      }
    }

    method BatchDeleteFromMempool()
      modifies this
      ensures State() == TxDbSpec.BatchDeleteFromMempool(old(State()))
    {
      sent := sent + [MempoolBatchDelete(hashesToDelete)];
      hashesToDelete := [];
    }

    method BatchWriteTxToTable()
      modifies this
      ensures State() == TxDbSpec.BatchWriteTxToTable(old(State()))
    {
      sent := sent + [TxBatchWrite(txEntries)];
      txEntries := [];
    }

    method BatchWriteMempool()
      modifies this
      ensures State() == TxDbSpec.BatchWriteMempool(old(State()))
    {
      if mempoolEntries == [] {
        return;
      }
      var entries := mempoolEntries;
      mempoolEntries := [];
      sent := sent + [MempoolBatchWrite(entries)];
    }

    /** `age` is what the clock says. */
    method AddToMempool(tx: Tx, fee: int, age: nat)
      modifies this
      ensures State() == TxDbSpec.AddToMempool(old(State()), tx, fee, age)
    {
      mempool := mempool + {tx.hash};
      if tx.hex.None? {
        mempool := mempool - {tx.hash};
        return;
      }
      mempoolEntries := mempoolEntries + [(tx.hash, MempoolRow(tx.lockTime, fee, age, tx.hex.value))];
    }

    method TxExists(hash: Hash256) returns (r: bool)
      ensures r == TxDbSpec.TxExists(State(), hash)
    {
      r := hash in txs || hash in mempool;
    }

    method HandleOrphanBlock(height: nat)
      modifies this
      ensures State() == HandleOrphan(old(State()), height)
    {
      sent := sent + [TxDelete(height)];
      txs := map h | h in txs && txs[h] != height :: txs[h];
    }
  }
}
