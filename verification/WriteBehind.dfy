/**
 * What reaches the tables, through pending writes and deletes, a channel shared by all and a worker that
 * batches what it finds.
 */
module WriteBehind {
  import opened Common
  import opened Tables
  import opened UtxoSpec
  import B = BlockSpec
  import C = ChainState
  import T = TxDbSpec
  import W = Worker

  /** What an event of the unspent outputs would do to a plain table. */
  function Plain(table: map<OutPoint, UtxoRow>, e: Event): map<OutPoint, UtxoRow> {
    match e
    case Added(hash, index, row) => if index >= TWO_32 then table else table[OutPoint(hash, index) := row]
    case Deleted(o) => table - {o}
    case Updated(_) => table
    case Orphaned(height) => NotAt(table, height)
  }

  function PlainRun(table: map<OutPoint, UtxoRow>, es: seq<Event>): map<OutPoint, UtxoRow>
    decreases |es|
  {
    if es == [] then table else PlainRun(Plain(table, es[0]), es[1..])
  }

  lemma {:induction false} MapIsPlain(db: Database, s: State, es: seq<Event>)
    requires Agrees(db, s) && CarefulRun(s, es)
    ensures Run(s, es).utxo == PlainRun(s.utxo, es)
    decreases |es|
  {
    if es != [] {
      StepAgreesIff(db, s, es[0]);
      assert Step(s, es[0]).utxo == Plain(s.utxo, es[0]);
      MapIsPlain(db, Step(s, es[0]), es[1..]);
    }
  }

  /**
   * Whatever else is sent in between, and however the worker batches what it finds, the `utxo` table ends
   * as a plain table would: provided the run is careful, ends with a flush, and the schedule is quiet.
   */
  lemma {:induction false} UtxoIsPlainTable(db: Database, es: seq<Event>, batch: seq<(OutPoint, UtxoRow)>,
                                            ops: seq<Op>, sees: W.Schedule)
    requires InRange(db.utxo) && CarefulRun(State(db.utxo, map[], [], []), es)
    requires Lists(Run(State(db.utxo, map[], [], []), es).entries, batch)
    requires Part(ops, UtxoTable) == Part(UpdateDb(Run(State(db.utxo, map[], [], []), es), batch).sent, UtxoTable)
    requires W.Quiet(ops, sees)
    ensures ApplyAll(db, W.Batched(ops, sees, 0, None)).utxo == PlainRun(db.utxo, es)
  {
    var s := State(db.utxo, map[], [], []);
    LoadedAgrees(db);
    CarefulRunAgrees(db, s, es, batch);
    MapIsPlain(db, s, es);
    PartDecides(UtxoTable, db, ops, UpdateDb(Run(s, es), batch).sent);
    W.OthersMergeWell(UtxoTable, db, ops, sees);
    W.QuietScheduleAppliesAll(UtxoTable, db, ops, sees);
  }

  /** On the same terms the `tx` and `mempool` tables end as memory has them, if INSERTs merge well. */
  lemma {:induction false} TxTablesFollowMemory(db: Database, s: T.State, es: seq<T.Event>, ops: seq<Op>,
                                                sees: W.Schedule)
    requires T.MempoolAgrees(db, s) && T.TxsAgree(db, s) && T.WritableRun(s, true, es) && T.RecordableRun(s, es)
    requires Part(ops, TxTable) == Part(T.Run(s, true, es).sent, TxTable)
    requires Part(ops, MempoolTable) == Part(T.Run(s, true, es).sent, MempoolTable)
    requires W.Quiet(ops, sees)
    requires W.AllMergeWell(TxTable, db, ops, sees, 0, None) && W.AllMergeWell(MempoolTable, db, ops, sees, 0, None)
    ensures var t, after := T.Run(s, true, es), ApplyAll(db, W.Batched(ops, sees, 0, None));
      && after.mempool.Keys == t.mempool
      && after.tx.Keys == t.txs.Keys && forall h :: h in t.txs ==> after.tx[h].height == t.txs[h]
  {
    var t := T.Run(s, true, es);
    T.RunKeepsMempoolAgreement(db, s, true, es);
    T.RunKeepsTxsAgreement(db, s, es);
    PartDecides(TxTable, db, ops, t.sent);
    PartDecides(MempoolTable, db, ops, t.sent);
    W.QuietScheduleAppliesAll(TxTable, db, ops, sees);
    W.QuietScheduleAppliesAll(MempoolTable, db, ops, sees);
  }

  /** And the `blocks` table lists exactly the stored headers at their heights, orphans included. */
  lemma {:induction false} BlocksFollowHeaders(c: B.Config, rank: C.Rank, db: Database, file: seq<B.Block>,
                                               es: seq<B.Event>, ops: seq<Op>, sees: W.Schedule)
    requires db.blocks == map[] && C.RunFits(c, B.New(c, file), es)
    requires forall e :: e in es && e.Deliver? ==> C.Uphill(c, rank, e.block)
    requires Part(ops, BlocksTable) == Part(B.Run(c, B.New(c, file), es).sent, BlocksTable)
    requires W.Quiet(ops, sees)
    ensures var s := B.Run(c, B.New(c, file), es);
            C.RowsMatch(c, s.headers, ApplyAll(db, W.Batched(ops, sees, 0, None)).blocks)
  {
    C.NewIsSettled(c, rank, db, file);
    C.RunKeepsSettled(c, rank, db, B.New(c, file), es);
    PartDecides(BlocksTable, db, ops, B.Run(c, B.New(c, file), es).sent);
    W.OthersMergeWell(BlocksTable, db, ops, sees);
    W.QuietScheduleAppliesAll(BlocksTable, db, ops, sees);
  }

  /** What the manager and the analyser send for one block: its row, then what the flush sends. */
  function SentForBlock(row: BlockRow, u: State, batch: seq<(OutPoint, UtxoRow)>, t: T.State): seq<Op> {
    [BlockHeaderWrite(row)] + UpdateDb(u, batch).sent + T.Flush(t, true).sent
  }

  /** If all of it has arrived when the worker looks, the deletes of outputs and the transactions are lost. */
  lemma {:induction false} BlockLosesTwo(row: BlockRow, u: State, batch: seq<(OutPoint, UtxoRow)>, t: T.State,
                                         sees: W.Schedule)
    requires u.sent == [] && t.sent == [] && t.mempoolEntries == [] && forall i :: sees(i)
    ensures var ops := SentForBlock(row, u, batch, t);
      && |ops| == 5 && ops[2] == UtxoBatchDelete(u.deletes) && ops[4] == TxBatchWrite(t.txEntries)
      && W.Lost(ops, sees) == {2, 4}
  {
    var ops := SentForBlock(row, u, batch, t);
    assert ops == [BlockHeaderWrite(row), UtxoBatchWrite(batch), UtxoBatchDelete(u.deletes),
                   MempoolBatchDelete(t.hashesToDelete), TxBatchWrite(t.txEntries)];
    assert W.Streak(ops, sees, 0) == 0 && W.Streak(ops, sees, 1) == 0 && W.Streak(ops, sees, 2) == 1;
    assert W.Streak(ops, sees, 3) == 2 && W.Streak(ops, sees, 4) == 3;
    forall j: nat ensures j in W.Lost(ops, sees) <==> j == 2 || j == 4 {
      if j < 5 {
        W.LostIffOddStreak(ops, sees, j);
      }
    }
  }
}
