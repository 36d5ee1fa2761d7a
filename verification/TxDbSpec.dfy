/**
 * Confirmed and unconfirmed transactions of rust/src/uaas/txdb.rs, in memory and in their tables, driven
 * as rust/src/uaas/tx_analyser.rs drives them.
 */
module TxDbSpec {
  import opened Common
  import opened Tables

  /**
   * What is asked of a transaction: its hash, size, lock time, the sum of its outputs, and its hex text
   * unless writing it fails.
   */
  datatype Tx = Tx(hash: Hash256, size: nat, lockTime: nat, satoshis: int, hex: Option<string>)

  datatype State = State(
    txs: map<Hash256, nat>,
    mempool: set<Hash256>,
    hashesToDelete: seq<Hash256>,
    txEntries: seq<(Hash256, TxRow)>,
    mempoolEntries: seq<(Hash256, MempoolRow)>,
    sent: seq<Op>)

  /** `save_tx`: a negative sum of outputs is skipped. */
  function SaveTx(s: State, tx: Tx, blockindex: nat, height: nat): State {
    if tx.satoshis < 0 then s
    else s.(txEntries := s.txEntries + [(tx.hash, TxRow(height, blockindex, tx.size % TWO_32, tx.satoshis))])
  }

  /** The loop of `process_block` on transaction `i`. */
  function ProcessTx(s: State, saveTxs: bool, tx: Tx, i: nat, height: nat): State {
    var s' := if tx.hash in s.mempool
              then s.(mempool := s.mempool - {tx.hash}, hashesToDelete := s.hashesToDelete + [tx.hash])
              else s;
    if !saveTxs || i >= TWO_32 then s'
    else SaveTx(s', tx, i, height).(txs := s'.txs[tx.hash := height])
  }

  function ProcessTo(s: State, saveTxs: bool, txns: seq<Tx>, n: nat, height: nat): State
    requires n <= |txns|
  {
    if n == 0 then s else ProcessTx(ProcessTo(s, saveTxs, txns, n - 1, height), saveTxs, txns[n - 1], n - 1, height)
  }

  /** `process_block`; a negative height is refused. */
  function ProcessBlock(s: State, saveTxs: bool, txns: seq<Tx>, height: int): State {
    if height < 0 then s else ProcessTo(s, saveTxs, txns, |txns|, height)
  }

  function BatchDeleteFromMempool(s: State): State {
    s.(sent := s.sent + [MempoolBatchDelete(s.hashesToDelete)], hashesToDelete := [])
  }

  function BatchWriteTxToTable(s: State): State {
    s.(sent := s.sent + [TxBatchWrite(s.txEntries)], txEntries := [])
  }

  function BatchWriteMempool(s: State): State {
    if s.mempoolEntries == [] then s
    else s.(sent := s.sent + [MempoolBatchWrite(s.mempoolEntries)], mempoolEntries := [])
  }

  /** A transaction that cannot be written is taken out again, even if it was there before. */
  function AddToMempool(s: State, tx: Tx, fee: int, age: nat): State {
    if tx.hex.None? then s.(mempool := s.mempool - {tx.hash})
    else s.(mempool := s.mempool + {tx.hash},
            mempoolEntries := s.mempoolEntries + [(tx.hash, MempoolRow(tx.lockTime, fee, age, tx.hex.value))])
  }

  predicate TxExists(s: State, hash: Hash256) {
    hash in s.txs || hash in s.mempool
  }

  function HandleOrphan(s: State, height: nat): State {
    s.(sent := s.sent + [TxDelete(height)], txs := map h | h in s.txs && s.txs[h] != height :: s.txs[h])
  }

  // ---- as the analyser drives it ----

  /** `flush_database_cache`, without the UTXO part. */
  function Flush(s: State, saveTxs: bool): State {
    var s' := BatchWriteMempool(BatchDeleteFromMempool(s));
    if saveTxs then BatchWriteTxToTable(s') else s'
  }

  datatype Event =
    | Standalone(tx: Tx, fee: int, age: nat)
    | Confirmed(txns: seq<Tx>, height: int)
    | Orphaned(orphanHeight: nat)
    | Flushed

  /** `process_standalone_tx`, `process_block`, `handle_orphan_block`, `flush_database_cache`. */
  function Step(s: State, saveTxs: bool, e: Event): State {
    match e
    case Standalone(tx, fee, age) => BatchWriteMempool(AddToMempool(s, tx, fee, age))
    case Confirmed(txns, height) => Flush(ProcessBlock(s, saveTxs, txns, height), saveTxs)
    case Orphaned(height) => HandleOrphan(s, height)
    case Flushed => Flush(s, saveTxs)
  }

  function Run(s: State, saveTxs: bool, es: seq<Event>): State
    decreases |es|
  {
    if es == [] then s else Run(Step(s, saveTxs, es[0]), saveTxs, es[1..])
  }

  // ---- the mempool and its table ----

  /** Between events nothing of the mempool is held back, and the table lists exactly the mempool. */
  ghost predicate MempoolAgrees(db: Database, s: State) {
    && s.mempoolEntries == [] && s.hashesToDelete == []
    && ApplyAll(db, s.sent).mempool.Keys == s.mempool
  }

  /** What the loop over a block's transactions removes, and from where. */
  lemma {:induction false} ProcessToRemoves(s: State, saveTxs: bool, txns: seq<Tx>, n: nat, height: nat)
    requires n <= |txns|
    ensures var t := ProcessTo(s, saveTxs, txns, n, height);
      && t.sent == s.sent && t.mempoolEntries == s.mempoolEntries
      && (forall h :: h in t.mempool <==> h in s.mempool && !ListedTo(txns, n, h))
      && (forall h :: h in t.hashesToDelete ==> h in s.hashesToDelete || h in s.mempool)
      && (forall h :: h in s.hashesToDelete || (h in s.mempool && ListedTo(txns, n, h)) ==> h in t.hashesToDelete)
      && (forall h :: h in t.hashesToDelete && h in t.mempool ==> h in s.hashesToDelete)
  {
    if n > 0 {
      ProcessToRemoves(s, saveTxs, txns, n - 1, height);
      var t := ProcessTo(s, saveTxs, txns, n - 1, height);
      ListedStep(txns, n);
    }
  }

  predicate ListedTo(txns: seq<Tx>, n: nat, h: Hash256)
    requires n <= |txns|
  {
    exists i :: 0 <= i < n && txns[i].hash == h
  }

  lemma {:induction false} ListedStep(txns: seq<Tx>, n: nat)
    requires 0 < n <= |txns|
    ensures forall h :: ListedTo(txns, n, h) <==> ListedTo(txns, n - 1, h) || h == txns[n - 1].hash
  {
  }

  lemma {:induction false} FlushSends(s: State, saveTxs: bool, db: Database)
    requires s.mempoolEntries == []
    ensures var t := Flush(s, saveTxs);
      && t.txs == s.txs && t.mempool == s.mempool && t.hashesToDelete == [] && t.mempoolEntries == []
      && ApplyAll(db, t.sent).mempool == DeleteAll(ApplyAll(db, s.sent).mempool, s.hashesToDelete)
  {
    var d := MempoolBatchDelete(s.hashesToDelete);
    ApplyOneMore(db, s.sent, d);
    ApplyOneMore(db, s.sent + [d], TxBatchWrite(s.txEntries));
  }

  /** Pending deletes reach the mempool table before pending rows: what is in both is in the table afterwards. */
  lemma {:induction false} FlushDeletesFirst(s: State, saveTxs: bool, db: Database)
    ensures ApplyAll(db, Flush(s, saveTxs).sent).mempool ==
            InsertAll(DeleteAll(ApplyAll(db, s.sent).mempool, s.hashesToDelete), s.mempoolEntries)
  {
    var d, w := MempoolBatchDelete(s.hashesToDelete), MempoolBatchWrite(s.mempoolEntries);
    ApplyOneMore(db, s.sent, d);
    ApplyOneMore(db, s.sent + [d], w);
    ApplyOneMore(db, s.sent + [d], TxBatchWrite(s.txEntries));
    ApplyOneMore(db, s.sent + [d] + [w], TxBatchWrite(s.txEntries));
  }

  /** Hashes are noted for deletion in the order of the block. */
  lemma {:induction false} NotesInOrder(s: State, saveTxs: bool, txns: seq<Tx>, n: nat, m: nat, height: nat)
    requires n <= m <= |txns|
    ensures ProcessTo(s, saveTxs, txns, n, height).hashesToDelete <=
            ProcessTo(s, saveTxs, txns, m, height).hashesToDelete
  {
    if n < m {
      NotesInOrder(s, saveTxs, txns, n, m - 1, height);
    }
  }

  /**
   * A new unconfirmed transaction gets its row; one that is in the mempool already keeps the row it has; one
   * that cannot be written leaves the tables alone.
   */
  lemma {:induction false} StandaloneIsRecorded(db: Database, s: State, saveTxs: bool, tx: Tx, fee: int, age: nat)
    requires MempoolAgrees(db, s)
    ensures var t := Step(s, saveTxs, Standalone(tx, fee, age));
      var before, after := ApplyAll(db, s.sent), ApplyAll(db, t.sent);
      && t.mempoolEntries == [] && t.mempool == (if tx.hex.Some? then s.mempool + {tx.hash} else s.mempool - {tx.hash})
      && after == before.(mempool :=
           if tx.hash in s.mempool || tx.hex.None? then before.mempool
           else before.mempool[tx.hash := MempoolRow(tx.lockTime, fee, age, tx.hex.value)])
  {
    if tx.hex.Some? {
      var entry := (tx.hash, MempoolRow(tx.lockTime, fee, age, tx.hex.value));
      ApplyOneMore(db, s.sent, MempoolBatchWrite([entry]));
      assert [] + [entry] == [entry];
      InsertOne(ApplyAll(db, s.sent).mempool, entry.0, entry.1);
    }
  }

  /** Mempool and table part exactly when a transaction that is in the mempool cannot be written. */
  lemma {:induction false} StandaloneAgreesIff(db: Database, s: State, saveTxs: bool, tx: Tx, fee: int, age: nat)
    requires MempoolAgrees(db, s)
    ensures MempoolAgrees(db, Step(s, saveTxs, Standalone(tx, fee, age))) <==> tx.hex.Some? || tx.hash !in s.mempool
  {
    StandaloneIsRecorded(db, s, saveTxs, tx, fee, age);
    assert tx.hash in s.mempool ==> tx.hash in ApplyAll(db, s.sent).mempool.Keys;
  }

  lemma {:induction false} ConfirmedAgrees(db: Database, s: State, saveTxs: bool, txns: seq<Tx>, height: int)
    requires MempoolAgrees(db, s)
    ensures MempoolAgrees(db, Flush(ProcessBlock(s, saveTxs, txns, height), saveTxs))
  {
    var t := ProcessBlock(s, saveTxs, txns, height);
    if height >= 0 {
      ProcessToRemoves(s, saveTxs, txns, |txns|, height);
    }
    FlushSends(t, saveTxs, db);
  }

  lemma {:induction false} StepAgreesIff(db: Database, s: State, saveTxs: bool, e: Event)
    requires MempoolAgrees(db, s)
    ensures MempoolAgrees(db, Step(s, saveTxs, e)) <==> Writable(s, e)
  {
    match e {
      case Standalone(tx, fee, age) => StandaloneAgreesIff(db, s, saveTxs, tx, fee, age);
      case Confirmed(txns, height) => ConfirmedAgrees(db, s, saveTxs, txns, height);
      case Orphaned(height) => ApplyOneMore(db, s.sent, TxDelete(height));
      case Flushed => FlushSends(s, saveTxs, db);
    }
  }

  /** No transaction of the mempool is announced again but cannot be written. */
  predicate Writable(s: State, e: Event) {
    e.Standalone? ==> e.tx.hex.Some? || e.tx.hash !in s.mempool
  }

  predicate WritableRun(s: State, saveTxs: bool, es: seq<Event>)
    decreases |es|
  {
    es == [] || (Writable(s, es[0]) && WritableRun(Step(s, saveTxs, es[0]), saveTxs, es[1..]))
  }

  /** The mempool and its table agree after every such run of the analyser, orphans and extra flushes included. */
  lemma {:induction false} RunKeepsMempoolAgreement(db: Database, s: State, saveTxs: bool, es: seq<Event>)
    requires MempoolAgrees(db, s) && WritableRun(s, saveTxs, es)
    ensures MempoolAgrees(db, Run(s, saveTxs, es))
    decreases |es|
  {
    if es != [] {
      StepAgreesIff(db, s, saveTxs, es[0]);
      RunKeepsMempoolAgreement(db, Step(s, saveTxs, es[0]), saveTxs, es[1..]);
    }
  }

  // ---- confirmation ----

  /** Those of the first `n` transactions that can be numbered are indexed at the block's height. */
  lemma {:induction false} TxsOfBlock(s: State, txns: seq<Tx>, n: nat, height: nat, h: Hash256)
    requires n <= |txns|
    ensures var t, listed := ProcessTo(s, true, txns, n, height), ListedTo(txns, Min(n, TWO_32), h);
            (h in t.txs <==> h in s.txs || listed) && (h in t.txs ==> t.txs[h] == if listed then height else s.txs[h])
  {
    if n > 0 {
      TxsOfBlock(s, txns, n - 1, height, h);
      ListedStep(txns, n);
    }
  }

  /**
   * After a block exactly its transactions are confirmed at its height, as far as they can be numbered, and
   * exactly its transactions have left the mempool and the mempool table.
   */
  lemma {:induction false} BlockConfirms(db: Database, s: State, txns: seq<Tx>, height: nat)
    requires MempoolAgrees(db, s)
    ensures var t, listed := Step(s, true, Confirmed(txns, height)), Min(|txns|, TWO_32);
      && (forall h :: h in t.txs <==> h in s.txs || ListedTo(txns, listed, h))
      && (forall h :: h in t.txs ==> t.txs[h] == if ListedTo(txns, listed, h) then height else s.txs[h])
      && (forall h :: h in t.mempool <==> h in s.mempool && !ListedTo(txns, |txns|, h))
      && ApplyAll(db, t.sent).mempool.Keys == t.mempool
  {
    ConfirmedAgrees(db, s, true, txns, height);
    ProcessToRemoves(s, true, txns, |txns|, height);
    FlushSends(ProcessBlock(s, true, txns, height), true, db);
    var t, listed := Step(s, true, Confirmed(txns, height)), Min(|txns|, TWO_32);
    forall h ensures h in t.txs <==> h in s.txs || ListedTo(txns, listed, h)
             ensures h in t.txs ==> t.txs[h] == if ListedTo(txns, listed, h) then height else s.txs[h] {
      TxsOfBlock(s, txns, |txns|, height, h);
    }
  }

  /** Where transactions are not saved a block confirms none, in memory or in the table. */
  lemma {:induction false} UnsavedConfirmsNothing(db: Database, s: State, txns: seq<Tx>, height: nat)
    requires MempoolAgrees(db, s)
    ensures var t := Step(s, false, Confirmed(txns, height));
      t.txs == s.txs && t.txEntries == s.txEntries && ApplyAll(db, t.sent).tx == ApplyAll(db, s.sent).tx
  {
    UnsavedTo(s, txns, |txns|, height);
    ProcessToRemoves(s, false, txns, |txns|, height);
    ApplyOneMore(db, s.sent, MempoolBatchDelete(ProcessBlock(s, false, txns, height).hashesToDelete));
  }

  lemma {:induction false} UnsavedTo(s: State, txns: seq<Tx>, n: nat, height: nat)
    requires n <= |txns|
    ensures ProcessTo(s, false, txns, n, height).txs == s.txs
    ensures ProcessTo(s, false, txns, n, height).txEntries == s.txEntries
  {
    if n > 0 {
      UnsavedTo(s, txns, n - 1, height);
    }
  }

  // ---- the confirmed transactions and their table ----

  /** Nothing confirmed is held back, and the table has the transactions of memory at their heights. */
  ghost predicate TxsAgree(db: Database, s: State) {
    var table := ApplyAll(db, s.sent).tx;
    && s.txEntries == []
    && table.Keys == s.txs.Keys
    && forall h :: h in s.txs ==> table[h].height == s.txs[h]
  }

  /** Transaction `i` of a block gets an entry: it can be numbered and its sum fits. */
  predicate Saved(txns: seq<Tx>, i: nat)
    requires i < |txns|
  {
    i < TWO_32 && txns[i].satoshis >= 0
  }

  /** The entry meets a taken key: a confirmed transaction's or an earlier entry's. */
  predicate Taken(s: State, txns: seq<Tx>, i: nat)
    requires i < |txns|
  {
    && Saved(txns, i)
    && (txns[i].hash in s.txs || exists j {:trigger Repeats(txns, j, i)} :: 0 <= j < i && Repeats(txns, j, i))
  }

  predicate Repeats(txns: seq<Tx>, j: nat, i: nat)
    requires j < i < |txns|
  {
    Saved(txns, j) && txns[j].hash == txns[i].hash
  }

  predicate NoneTaken(s: State, txns: seq<Tx>, n: nat)
    requires n <= |txns|
  {
    forall j {:trigger Taken(s, txns, j)} :: 0 <= j < n ==> !Taken(s, txns, j)
  }

  /** The entry is there and no key is taken up to it. */
  predicate WrittenAt(s: State, txns: seq<Tx>, k: nat)
    requires k < |txns|
  {
    Saved(txns, k) && NoneTaken(s, txns, k + 1)
  }

  predicate Written(s: State, txns: seq<Tx>, n: nat, h: Hash256)
    requires n <= |txns|
  {
    exists k {:trigger WrittenAt(s, txns, k)} :: 0 <= k < n && WrittenAt(s, txns, k) && txns[k].hash == h
  }

  /** The row of transaction `i` of a block. */
  function RowOf(txns: seq<Tx>, i: nat, height: nat): TxRow
    requires i < |txns| && Saved(txns, i)
  {
    TxRow(height, i, txns[i].size % TWO_32, txns[i].satoshis)
  }

  /** What the entries of a block's first `n` transactions make of the table: their rows up to the first taken key. */
  ghost predicate Recorded(before: map<Hash256, TxRow>, after: map<Hash256, TxRow>, s: State, txns: seq<Tx>, n: nat,
                           height: nat)
    requires n <= |txns|
  {
    && (forall h :: h in after <==> h in before || Written(s, txns, n, h))
    && (forall h :: h in before ==> h in after && after[h] == before[h])
    && (forall k {:trigger WrittenAt(s, txns, k)} :: 0 <= k < n && WrittenAt(s, txns, k) ==>
          txns[k].hash in after && after[txns[k].hash] == RowOf(txns, k, height))
  }

  /** The entries `es` record the first `n` transactions, and are all inserted exactly when no key is taken. */
  ghost predicate Records(table: map<Hash256, TxRow>, es: seq<(Hash256, TxRow)>, s: State, txns: seq<Tx>, n: nat,
                          height: nat)
    requires n <= |txns|
  {
    && (AllFresh(table, es) <==> NoneTaken(s, txns, n))
    && Recorded(table, InsertAll(table, es), s, txns, n, height)
  }

  lemma {:induction false} EntryOf(s: State, txns: seq<Tx>, i: nat, height: nat)
    requires i < |txns|
    ensures ProcessTx(s, true, txns[i], i, height).txEntries ==
            if Saved(txns, i) then s.txEntries + [(txns[i].hash, RowOf(txns, i, height))] else s.txEntries
  {
  }

  lemma {:induction false} NotWrittenRecords(before: map<Hash256, TxRow>, after: map<Hash256, TxRow>, s: State,
                                             txns: seq<Tx>, n: nat, height: nat)
    requires 0 < n <= |txns| && !WrittenAt(s, txns, n - 1) && Recorded(before, after, s, txns, n - 1, height)
    ensures Recorded(before, after, s, txns, n, height)
  {
    forall h ensures Written(s, txns, n, h) <==> Written(s, txns, n - 1, h) {
    }
  }

  lemma {:induction false} UnsavedRecords(table: map<Hash256, TxRow>, es: seq<(Hash256, TxRow)>, s: State,
                                          txns: seq<Tx>, n: nat, height: nat)
    requires 0 < n <= |txns| && !Saved(txns, n - 1) && Records(table, es, s, txns, n - 1, height)
    ensures Records(table, es, s, txns, n, height)
  {
  }

  /** With no key taken so far, the next key is in the table exactly when it is taken. */
  lemma {:induction false} TakenIffThere(table: map<Hash256, TxRow>, after: map<Hash256, TxRow>, s: State,
                                         txns: seq<Tx>, i: nat, height: nat)
    requires i < |txns| && Saved(txns, i) && table.Keys == s.txs.Keys && NoneTaken(s, txns, i)
    requires Recorded(table, after, s, txns, i, height)
    ensures txns[i].hash in after <==> Taken(s, txns, i)
  {
    assert txns[i].hash in table <==> txns[i].hash in s.txs.Keys;
    if Taken(s, txns, i) && txns[i].hash !in s.txs {
      var j :| 0 <= j < i && Repeats(txns, j, i);
      assert WrittenAt(s, txns, j);
    }
    if txns[i].hash in after && txns[i].hash !in table {
      var k :| 0 <= k < i && WrittenAt(s, txns, k) && txns[k].hash == txns[i].hash;
      assert Repeats(txns, k, i);
    }
  }

  lemma {:induction false} FreshRecords(table: map<Hash256, TxRow>, es: seq<(Hash256, TxRow)>, s: State,
                                        txns: seq<Tx>, n: nat, height: nat)
    requires 0 < n <= |txns| && Saved(txns, n - 1) && Records(table, es, s, txns, n - 1, height)
    requires NoneTaken(s, txns, n - 1) && !Taken(s, txns, n - 1) && txns[n - 1].hash !in InsertAll(table, es)
    ensures Records(table, es + [(txns[n - 1].hash, RowOf(txns, n - 1, height))], s, txns, n, height)
  {
    var k, v := txns[n - 1].hash, RowOf(txns, n - 1, height);
    InsertAllAppend(table, es, [(k, v)]);
    InsertOne(InsertAll(table, es), k, v);
    assert AllFresh(InsertAll(table, es)[k := v], [(k, v)][1..]);
    assert WrittenAt(s, txns, n - 1);
  }

  /** Once a key is taken nothing more is inserted. */
  lemma {:induction false} TakenRecords(table: map<Hash256, TxRow>, es: seq<(Hash256, TxRow)>, s: State,
                                        txns: seq<Tx>, n: nat, height: nat)
    requires 0 < n <= |txns| && Saved(txns, n - 1) && Records(table, es, s, txns, n - 1, height)
    requires !NoneTaken(s, txns, n) && (NoneTaken(s, txns, n - 1) ==> txns[n - 1].hash in InsertAll(table, es))
    ensures Records(table, es + [(txns[n - 1].hash, RowOf(txns, n - 1, height))], s, txns, n, height)
  {
    var k, v := txns[n - 1].hash, RowOf(txns, n - 1, height);
    if NoneTaken(s, txns, n - 1) {
      InsertAllAppend(table, es, [(k, v)]);
      InsertOne(InsertAll(table, es), k, v);
      assert !AllFresh(InsertAll(table, es), [(k, v)]);
    } else {
      InsertAllStops(table, es, [(k, v)]);
      assert !NoneTaken(s, txns, n);
    }
    NotWrittenRecords(table, InsertAll(table, es), s, txns, n, height);
  }

  lemma {:induction false} EntriesRecord(s: State, txns: seq<Tx>, n: nat, height: nat, table: map<Hash256, TxRow>)
    requires n <= |txns| && s.txEntries == [] && table.Keys == s.txs.Keys
    ensures Records(table, ProcessTo(s, true, txns, n, height).txEntries, s, txns, n, height)
  {
    if n > 0 {
      EntriesRecord(s, txns, n - 1, height, table);
      var t := ProcessTo(s, true, txns, n - 1, height);
      EntryOf(t, txns, n - 1, height);
      if !Saved(txns, n - 1) {
        UnsavedRecords(table, t.txEntries, s, txns, n, height);
      } else {
        NextRecords(table, t.txEntries, s, txns, n, height);
      }
    }
  }

  lemma {:induction false} NextRecords(table: map<Hash256, TxRow>, es: seq<(Hash256, TxRow)>, s: State, txns: seq<Tx>,
                                       n: nat, height: nat)
    requires 0 < n <= |txns| && Saved(txns, n - 1) && Records(table, es, s, txns, n - 1, height)
    requires table.Keys == s.txs.Keys
    ensures Records(table, es + [(txns[n - 1].hash, RowOf(txns, n - 1, height))], s, txns, n, height)
  {
    if NoneTaken(s, txns, n - 1) {
      TakenIffThere(table, InsertAll(table, es), s, txns, n - 1, height);
    }
    if NoneTaken(s, txns, n - 1) && !Taken(s, txns, n - 1) {
      FreshRecords(table, es, s, txns, n, height);
    } else {
      TakenRecords(table, es, s, txns, n, height);
    }
  }

  lemma {:induction false} FlushWritesTxs(db: Database, s: State)
    requires s.mempoolEntries == []
    ensures var t := Flush(s, true);
      && t.txs == s.txs && t.txEntries == [] && t.mempoolEntries == []
      && ApplyAll(db, t.sent).tx == InsertAll(ApplyAll(db, s.sent).tx, s.txEntries)
  {
    var d := MempoolBatchDelete(s.hashesToDelete);
    ApplyOneMore(db, s.sent, d);
    ApplyOneMore(db, s.sent + [d], TxBatchWrite(s.txEntries));
  }

  /** Every block puts exactly its rows up to the first taken key into the table. */
  lemma {:induction false} ConfirmedIsRecorded(db: Database, s: State, txns: seq<Tx>, height: nat)
    requires TxsAgree(db, s) && s.mempoolEntries == []
    ensures var t := Step(s, true, Confirmed(txns, height));
      && t.txEntries == [] && t.mempoolEntries == []
      && Recorded(ApplyAll(db, s.sent).tx, ApplyAll(db, t.sent).tx, s, txns, |txns|, height)
  {
    EntriesRecord(s, txns, |txns|, height, ApplyAll(db, s.sent).tx);
    ProcessToRemoves(s, true, txns, |txns|, height);
    FlushWritesTxs(db, ProcessBlock(s, true, txns, height));
  }

  /**
   * Each transaction that can be numbered is confirmed already at this height, or new and has an entry with
   * no key taken up to it.
   */
  predicate Recordable(s: State, txns: seq<Tx>, height: nat) {
    forall i :: 0 <= i < |txns| && i < TWO_32 ==> RecordableAt(s, txns, height, i)
  }

  predicate RecordableAt(s: State, txns: seq<Tx>, height: nat, i: nat)
    requires i < |txns|
  {
    if txns[i].hash in s.txs then s.txs[txns[i].hash] == height else Written(s, txns, |txns|, txns[i].hash)
  }

  /** What memory holds after a block, with the hashes the block lists. */
  lemma {:induction false} ConfirmedInMemory(s: State, txns: seq<Tx>, height: nat, h: Hash256)
    requires s.mempoolEntries == []
    ensures var t, listed := Step(s, true, Confirmed(txns, height)), ListedTo(txns, Min(|txns|, TWO_32), h);
            (h in t.txs <==> h in s.txs || listed) && (h in t.txs ==> t.txs[h] == if listed then height else s.txs[h])
  {
    TxsOfBlock(s, txns, |txns|, height, h);
    ProcessToRemoves(s, true, txns, |txns|, height);
  }

  lemma {:induction false} RecordableAgrees(db: Database, s: State, txns: seq<Tx>, height: nat)
    requires TxsAgree(db, s) && s.mempoolEntries == [] && Recordable(s, txns, height)
    ensures TxsAgree(db, Step(s, true, Confirmed(txns, height)))
  {
    var t, n := Step(s, true, Confirmed(txns, height)), Min(|txns|, TWO_32);
    var before, after := ApplyAll(db, s.sent).tx, ApplyAll(db, t.sent).tx;
    ConfirmedIsRecorded(db, s, txns, height);
    forall h ensures h in t.txs <==> h in after
             ensures h in t.txs ==> after[h].height == t.txs[h] {
      ConfirmedInMemory(s, txns, height, h);
      assert h in before <==> h in s.txs.Keys;
      if ListedTo(txns, n, h) {
        var i :| 0 <= i < n && txns[i].hash == h;
        assert RecordableAt(s, txns, height, i);
      }
    }
  }

  lemma {:induction false} AgreeingIsRecordable(db: Database, s: State, txns: seq<Tx>, height: nat)
    requires TxsAgree(db, s) && s.mempoolEntries == [] && TxsAgree(db, Step(s, true, Confirmed(txns, height)))
    ensures Recordable(s, txns, height)
  {
    var t, n := Step(s, true, Confirmed(txns, height)), Min(|txns|, TWO_32);
    var before, after := ApplyAll(db, s.sent).tx, ApplyAll(db, t.sent).tx;
    ConfirmedIsRecorded(db, s, txns, height);
    forall i | 0 <= i < |txns| && i < TWO_32 ensures RecordableAt(s, txns, height, i) {
      var h := txns[i].hash;
      ConfirmedInMemory(s, txns, height, h);
      assert ListedTo(txns, n, h) && h in after.Keys;
      assert h in before <==> h in s.txs.Keys;
    }
  }

  /** With transactions saved, memory and table agree after a block exactly when it is recordable. */
  lemma {:induction false} ConfirmedAgreesIff(db: Database, s: State, txns: seq<Tx>, height: nat)
    requires TxsAgree(db, s) && s.mempoolEntries == []
    ensures TxsAgree(db, Step(s, true, Confirmed(txns, height))) <==> Recordable(s, txns, height)
  {
    if Recordable(s, txns, height) {
      RecordableAgrees(db, s, txns, height);
    } else if TxsAgree(db, Step(s, true, Confirmed(txns, height))) {
      AgreeingIsRecordable(db, s, txns, height);
    }
  }

  /** An orphan block is forgotten by memory and table alike, and nothing else is. */
  lemma {:induction false} OrphanForgetsBoth(db: Database, s: State, height: nat)
    requires TxsAgree(db, s)
    ensures var t := HandleOrphan(s, height);
            TxsAgree(db, t) && forall h :: h in t.txs <==> h in s.txs && s.txs[h] != height
  {
    ApplyOneMore(db, s.sent, TxDelete(height));
  }

  predicate Fits(s: State, e: Event) {
    e.Confirmed? && e.height >= 0 ==> Recordable(s, e.txns, e.height)
  }

  lemma {:induction false} StepKeepsTxsIff(db: Database, s: State, e: Event)
    requires TxsAgree(db, s) && s.mempoolEntries == []
    ensures TxsAgree(db, Step(s, true, e)) <==> Fits(s, e)
    ensures Step(s, true, e).mempoolEntries == []
  {
    match e {
      case Standalone(tx, fee, age) =>
        ApplyOneMore(db, s.sent, MempoolBatchWrite(AddToMempool(s, tx, fee, age).mempoolEntries));
      case Confirmed(txns, height) =>
        if height >= 0 {
          ConfirmedIsRecorded(db, s, txns, height);
          ConfirmedAgreesIff(db, s, txns, height);
        } else {
          FlushWritesTxs(db, s);
        }
      case Orphaned(height) => OrphanForgetsBoth(db, s, height);
      case Flushed => FlushWritesTxs(db, s);
    }
  }

  /** Every block of the run is recordable when it comes. */
  predicate RecordableRun(s: State, es: seq<Event>)
    decreases |es|
  {
    es == [] || (Fits(s, es[0]) && RecordableRun(Step(s, true, es[0]), es[1..]))
  }

  /** With transactions saved, memory and table list the same confirmed transactions after every such run. */
  lemma {:induction false} RunKeepsTxsAgreement(db: Database, s: State, es: seq<Event>)
    requires TxsAgree(db, s) && s.mempoolEntries == [] && RecordableRun(s, es)
    ensures TxsAgree(db, Run(s, true, es)) && Run(s, true, es).mempoolEntries == []
    decreases |es|
  {
    if es != [] {
      StepKeepsTxsIff(db, s, es[0]);
      RunKeepsTxsAgreement(db, Step(s, true, es[0]), es[1..]);
    }
  }

  /** A transaction exists exactly when one of the tables has it, as long as memory agrees with them. */
  lemma {:induction false} ExistsIffInTable(db: Database, s: State, h: Hash256)
    requires MempoolAgrees(db, s) && TxsAgree(db, s)
    ensures TxExists(s, h) <==> h in ApplyAll(db, s.sent).tx || h in ApplyAll(db, s.sent).mempool
  {
    assert h in ApplyAll(db, s.sent).tx <==> h in s.txs.Keys;
    assert h in ApplyAll(db, s.sent).mempool <==> h in ApplyAll(db, s.sent).mempool.Keys;
  }

  // ---- inputs that part memory and table ----

  /** A block on a new manager with an empty database. */
  function Empty(): State {
    State(map[], {}, [], [], [], [])
  }

  lemma {:induction false} RunOne(s: State, saveTxs: bool, e: Event)
    ensures Run(s, saveTxs, [e]) == Step(s, saveTxs, e)
  {
    assert [e][1..] == [];
  }

  lemma {:induction false} RunTwo(s: State, saveTxs: bool, e: Event, f: Event)
    ensures Run(s, saveTxs, [e, f]) == Step(Step(s, saveTxs, e), saveTxs, f)
  {
    assert [e, f][1..] == [f];
    RunOne(Step(s, saveTxs, e), saveTxs, f);
  }

  /** A transaction in two blocks: memory has the later height, the table the earlier. */
  lemma {:induction false} TwoHeightsDisagree(db: Database, tx: Tx)
    requires db.tx == map[] && tx.satoshis >= 0
    ensures TxsAgree(db, Run(Empty(), true, [Confirmed([tx], 5)]))
    ensures !TxsAgree(db, Run(Empty(), true, [Confirmed([tx], 5), Confirmed([tx], 6)]))
  {
    var first, second := Confirmed([tx], 5), Confirmed([tx], 6);
    var s, t := Empty(), Step(Empty(), true, first);
    RunOne(s, true, first);
    RunTwo(s, true, first, second);
    assert WrittenAt(s, [tx], 0) && [tx][0].hash == tx.hash;
    StepKeepsTxsIff(db, s, first);
    ConfirmedInMemory(s, [tx], 5, tx.hash);
    assert ListedTo([tx], 1, tx.hash);
    StepKeepsTxsIff(db, t, second);
    assert !RecordableAt(t, [tx], 6, 0);
  }

  /** A new transaction whose outputs sum below zero: memory has it, the table has not. */
  lemma {:induction false} NegativeSumDisagrees(db: Database, tx: Tx)
    requires db.tx == map[] && tx.satoshis < 0
    ensures !TxsAgree(db, Run(Empty(), true, [Confirmed([tx], 0)]))
  {
    RunOne(Empty(), true, Confirmed([tx], 0));
    StepKeepsTxsIff(db, Empty(), Confirmed([tx], 0));
    assert !RecordableAt(Empty(), [tx], 0, 0);
  }

  /** A transaction announced twice that cannot be written the second time: the table has it, memory has not. */
  lemma {:induction false} UnwritableDisagrees(db: Database, tx: Tx, saveTxs: bool, fee: int, age: nat)
    requires db.mempool == map[] && tx.hex.Some?
    ensures var again := tx.(hex := None);
            !MempoolAgrees(db, Run(Empty(), saveTxs, [Standalone(tx, fee, age), Standalone(again, fee, age)]))
  {
    var first, second := Standalone(tx, fee, age), Standalone(tx.(hex := None), fee, age);
    RunTwo(Empty(), saveTxs, first, second);
    StepAgreesIff(db, Empty(), saveTxs, first);
    StandaloneIsRecorded(db, Empty(), saveTxs, tx, fee, age);
    StepAgreesIff(db, Step(Empty(), saveTxs, first), saveTxs, second);
  }

  // ---- replaying blocks ----

  /** The block's transactions, as far as they can be numbered, are confirmed at its height. */
  predicate Known(s: State, e: Event) {
    e.Confirmed? && e.height >= 0 &&
    forall i :: 0 <= i < |e.txns| && i < TWO_32 ==> e.txns[i].hash in s.txs && s.txs[e.txns[i].hash] == e.height
  }

  lemma {:induction false} StepKeepsKnown(s: State, e: Event, known: Event)
    requires s.mempoolEntries == [] && !e.Orphaned? && Fits(s, e) && Known(s, known)
    ensures Known(Step(s, true, e), known)
  {
    if e.Confirmed? && e.height >= 0 {
      forall i | 0 <= i < |known.txns| && i < TWO_32
        ensures var h := known.txns[i].hash; h in Step(s, true, e).txs && Step(s, true, e).txs[h] == known.height {
        var h := known.txns[i].hash;
        ConfirmedInMemory(s, e.txns, e.height, h);
        if ListedTo(e.txns, Min(|e.txns|, TWO_32), h) {
          var j :| 0 <= j < Min(|e.txns|, TWO_32) && e.txns[j].hash == h;
          assert RecordableAt(s, e.txns, e.height, j);
        }
      }
    }
  }

  lemma {:induction false} ConfirmedIsKnown(s: State, e: Event)
    requires s.mempoolEntries == [] && e.Confirmed? && e.height >= 0
    ensures Known(Step(s, true, e), e)
  {
    forall i | 0 <= i < |e.txns| && i < TWO_32
      ensures var h := e.txns[i].hash; h in Step(s, true, e).txs && Step(s, true, e).txs[h] == e.height {
      ConfirmedInMemory(s, e.txns, e.height, e.txns[i].hash);
      assert ListedTo(e.txns, Min(|e.txns|, TWO_32), e.txns[i].hash);
    }
  }

  lemma {:induction false} StepHoldsNothing(s: State, e: Event)
    requires s.mempoolEntries == []
    ensures Step(s, true, e).mempoolEntries == []
  {
    if e.Confirmed? && e.height >= 0 {
      ProcessToRemoves(s, true, e.txns, |e.txns|, e.height);
    }
  }

  predicate NoOrphan(es: seq<Event>) {
    forall e :: e in es ==> !e.Orphaned?
  }

  lemma {:induction false} RunKeepsKnown(s: State, es: seq<Event>, known: Event)
    requires s.mempoolEntries == [] && NoOrphan(es) && RecordableRun(s, es) && Known(s, known)
    ensures Known(Run(s, true, es), known)
    decreases |es|
  {
    if es != [] {
      StepKeepsKnown(s, es[0], known);
      StepHoldsNothing(s, es[0]);
      RunKeepsKnown(Step(s, true, es[0]), es[1..], known);
    }
  }

  /** After a run without orphans every block of it is known. */
  lemma {:induction false} RunMakesKnown(s: State, es: seq<Event>, i: nat)
    requires s.mempoolEntries == [] && NoOrphan(es) && RecordableRun(s, es)
    requires i < |es| && es[i].Confirmed? && es[i].height >= 0
    ensures Known(Run(s, true, es), es[i])
    decreases |es|
  {
    StepHoldsNothing(s, es[0]);
    if i == 0 {
      ConfirmedIsKnown(s, es[0]);
      RunKeepsKnown(Step(s, true, es[0]), es[1..], es[0]);
    } else {
      RunMakesKnown(Step(s, true, es[0]), es[1..], i - 1);
    }
  }

  /** A known block is recordable, and changes neither memory nor table. */
  lemma {:induction false} KnownChangesNothing(db: Database, s: State, e: Event)
    requires TxsAgree(db, s) && s.mempoolEntries == [] && Known(s, e)
    ensures var t := Step(s, true, e);
            TxsAgree(db, t) && t.txs == s.txs && ApplyAll(db, t.sent).tx == ApplyAll(db, s.sent).tx
  {
    var t := Step(s, true, e);
    forall i | 0 <= i < |e.txns| && i < TWO_32 ensures RecordableAt(s, e.txns, e.height, i) {
    }
    ConfirmedAgreesIff(db, s, e.txns, e.height);
    ConfirmedIsRecorded(db, s, e.txns, e.height);
    forall h ensures (h in t.txs <==> h in s.txs) && (h in t.txs ==> t.txs[h] == s.txs[h]) {
      ConfirmedInMemory(s, e.txns, e.height, h);
    }
    forall h ensures !Written(s, e.txns, |e.txns|, h) {
      if Written(s, e.txns, |e.txns|, h) {
        var k :| 0 <= k < |e.txns| && WrittenAt(s, e.txns, k) && e.txns[k].hash == h;
        assert Taken(s, e.txns, k);
      }
    }
  }

  lemma {:induction false} KnownRunChangesNothing(db: Database, s: State, es: seq<Event>)
    requires TxsAgree(db, s) && s.mempoolEntries == [] && forall e :: e in es ==> Known(s, e)
    ensures var t := Run(s, true, es);
            TxsAgree(db, t) && t.txs == s.txs && ApplyAll(db, t.sent).tx == ApplyAll(db, s.sent).tx
    decreases |es|
  {
    if es != [] {
      var t := Step(s, true, es[0]);
      KnownChangesNothing(db, s, es[0]);
      StepHoldsNothing(s, es[0]);
      assert forall e :: Known(s, e) ==> Known(t, e);
      KnownRunChangesNothing(db, t, es[1..]);
    }
  }

  /** The heights of the `tx` table, as `load_tx` reads them. */
  function HeightsOf(table: map<Hash256, TxRow>): map<Hash256, nat> {
    map h | h in table :: table[h].height
  }

  /**
   * A restart: after a run without orphans, `load_tx` and then the blocks of the run again, as the block
   * file gives them, leave memory and table as the run left them.
   */
  lemma {:induction false} ReplayKeepsTxs(db: Database, s: State, es: seq<Event>, again: seq<Event>,
                                          rows: seq<(Option<Hash256>, nat)>, restarted: State)
    requires TxsAgree(db, s) && s.mempoolEntries == [] && NoOrphan(es) && RecordableRun(s, es)
    requires forall e :: e in again ==> e in es && e.Confirmed? && e.height >= 0
    requires restarted.txEntries == [] && restarted.mempoolEntries == [] && restarted.sent == []
    requires RowsOf(HeightsOf(ApplyAll(db, Run(s, true, es).sent).tx), rows) && Loaded(map[], rows, restarted.txs)
    ensures var after := ApplyAll(db, Run(s, true, es).sent);
      && Run(restarted, true, again).txs == Run(s, true, es).txs
      && ApplyAll(after, Run(restarted, true, again).sent).tx == after.tx
  {
    var t := Run(s, true, es);
    RunKeepsTxsAgreement(db, s, es);
    LoadedTable(HeightsOf(ApplyAll(db, t.sent).tx), rows, restarted.txs);
    assert restarted.txs == t.txs;
    forall e | e in again ensures Known(restarted, e) {
      var i :| 0 <= i < |es| && es[i] == e;
      RunMakesKnown(s, es, i);
    }
    KnownRunChangesNothing(ApplyAll(db, t.sent), restarted, again);
  }
}
