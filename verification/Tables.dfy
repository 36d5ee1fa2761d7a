/**
 * The database as the writers of rust/src/uaas see it: tables, the operations sent over the channel,
 * and what each operation does to its table (rust/src/uaas/database.rs).
 */
module Tables {
  import opened Common

  datatype Hash256 = Hash256(digest: nat)

  datatype OutPoint = OutPoint(hash: Hash256, index: nat)

  datatype Header =
    Header(version: nat, prevHash: Hash256, merkleRoot: Hash256, timestamp: nat, bits: nat, nonce: nat)

  datatype UtxoRow = UtxoRow(satoshis: int, height: int, pubkeyhash: string)

  datatype TxRow = TxRow(height: nat, blockindex: nat, size: nat, satoshis: nat)

  datatype MempoolRow = MempoolRow(locktime: nat, fee: int, age: nat, tx: string)

  datatype BlockRow = BlockRow(height: nat, hash: Hash256, header: Header, position: nat, blocksize: nat, numtxs: nat)

  datatype OrphanRow = OrphanRow(height: nat, hash: Hash256, header: Header)

  /** `DBOperationType`. */
  datatype Op =
    | UtxoBatchWrite(utxoEntries: seq<(OutPoint, UtxoRow)>)
    | UtxoBatchDelete(outpoints: seq<OutPoint>)
    | TxBatchWrite(txEntries: seq<(Hash256, TxRow)>)
    | MempoolBatchDelete(hashes: seq<Hash256>)
    | MempoolBatchWrite(mempoolEntries: seq<(Hash256, MempoolRow)>)
    | BlockHeaderWrite(block: BlockRow)
    | OrphanBlockHeaderWrite(orphan: OrphanRow)
    | BlockHeaderDelete(hash: Hash256)
    | TxDelete(txHeight: nat)
    | UtxoDelete(utxoHeight: nat)

  datatype Database =
    Database(utxo: map<OutPoint, UtxoRow>, tx: map<Hash256, TxRow>, mempool: map<Hash256, MempoolRow>,
             blocks: map<Hash256, BlockRow>, orphans: seq<OrphanRow>)

  /** REPLACE INTO, entry by entry. */
  function ReplaceAll<K, V>(t: map<K, V>, es: seq<(K, V)>): map<K, V>
    decreases |es|
  {
    if es == [] then t else ReplaceAll(t[es[0].0 := es[0].1], es[1..])
  }

  /** INSERT, entry by entry; a key that is taken is an error that ends the batch. */
  function InsertAll<K, V>(t: map<K, V>, es: seq<(K, V)>): map<K, V>
    decreases |es|
  {
    if es == [] || es[0].0 in t then t else InsertAll(t[es[0].0 := es[0].1], es[1..])
  }

  lemma {:induction false} InsertOne<K, V>(t: map<K, V>, k: K, v: V)
    ensures InsertAll(t, [(k, v)]) == if k in t then t else t[k := v]
  {
    assert [(k, v)][1..] == [];
  }

  function DeleteAll<K, V>(t: map<K, V>, ks: seq<K>): map<K, V> {
    t - set k | k in ks
  }

  function Apply(db: Database, op: Op): Database {
    match op
    case UtxoBatchWrite(es) => db.(utxo := ReplaceAll(db.utxo, es))
    case UtxoBatchDelete(os) => db.(utxo := DeleteAll(db.utxo, os))
    case TxBatchWrite(es) => db.(tx := InsertAll(db.tx, es))
    case MempoolBatchDelete(hs) => db.(mempool := DeleteAll(db.mempool, hs))
    case MempoolBatchWrite(es) => db.(mempool := InsertAll(db.mempool, es))
    case BlockHeaderWrite(b) => db.(blocks := InsertAll(db.blocks, [(b.hash, b)]))
    case OrphanBlockHeaderWrite(o) => db.(orphans := db.orphans + [o])
    case BlockHeaderDelete(h) => db.(blocks := DeleteAll(db.blocks, [h]))
    case TxDelete(n) => db.(tx := map h | h in db.tx && db.tx[h].height != n :: db.tx[h])
    case UtxoDelete(n) => db.(utxo := map o | o in db.utxo && db.utxo[o].height != n :: db.utxo[o])
  }

  /** The database after the operations, in the order they were sent. */
  function ApplyAll(db: Database, ops: seq<Op>): Database
    decreases |ops|
  {
    if ops == [] then db else ApplyAll(Apply(db, ops[0]), ops[1..])
  }

  lemma {:induction false} ApplyAllAppend(db: Database, a: seq<Op>, b: seq<Op>)
    ensures ApplyAll(db, a + b) == ApplyAll(ApplyAll(db, a), b)
    decreases |a|
  {
    if a == [] {
      assert a + b == b;
    } else {
      ApplyAllAppend(Apply(db, a[0]), a[1..], b);
      assert (a + b)[1..] == a[1..] + b;
    }
  }

  lemma {:induction false} ApplyOneMore(db: Database, ops: seq<Op>, op: Op)
    ensures ApplyAll(db, ops + [op]) == Apply(ApplyAll(db, ops), op)
  {
    ApplyAllAppend(db, ops, [op]);
    assert ApplyAll(Apply(ApplyAll(db, ops), op), [op][1..]) == Apply(ApplyAll(db, ops), op);
  }

  lemma {:induction false} ApplyTwoMore(db: Database, ops: seq<Op>, a: Op, b: Op)
    ensures ApplyAll(db, ops + [a, b]) == Apply(Apply(ApplyAll(db, ops), a), b)
  {
    ApplyOneMore(db, ops, a);
    ApplyOneMore(db, ops + [a], b);
    assert ops + [a] + [b] == ops + [a, b];
  }

  lemma {:induction false} ReplaceAllAppend<K, V>(t: map<K, V>, a: seq<(K, V)>, b: seq<(K, V)>)
    ensures ReplaceAll(t, a + b) == ReplaceAll(ReplaceAll(t, a), b)
    decreases |a|
  {
    if a == [] {
      assert a + b == b;
    } else {
      ReplaceAllAppend(t[a[0].0 := a[0].1], a[1..], b);
      assert (a + b)[1..] == a[1..] + b;
    }
  }

  /** No entry of the batch meets a taken key, nor an earlier entry's. */
  predicate AllFresh<K, V>(t: map<K, V>, es: seq<(K, V)>)
    decreases |es|
  {
    es == [] || (es[0].0 !in t && AllFresh(t[es[0].0 := es[0].1], es[1..]))
  }

  lemma {:induction false} InsertAllAppend<K, V>(t: map<K, V>, a: seq<(K, V)>, b: seq<(K, V)>)
    requires AllFresh(t, a)
    ensures InsertAll(t, a + b) == InsertAll(InsertAll(t, a), b)
    ensures AllFresh(InsertAll(t, a), b) <==> AllFresh(t, a + b)
    decreases |a|
  {
    if a == [] {
      assert a + b == b;
    } else {
      InsertAllAppend(t[a[0].0 := a[0].1], a[1..], b);
      assert (a + b)[1..] == a[1..] + b;
    }
  }

  lemma {:induction false} DeleteAllAppend<K, V>(t: map<K, V>, a: seq<K>, b: seq<K>)
    ensures DeleteAll(t, a + b) == DeleteAll(DeleteAll(t, a), b)
  {
  }

  // ---- whole tables ----

  /** The batch has the entries in any order, repeated or not. */
  ghost predicate Lists<K, V>(entries: map<K, V>, batch: seq<(K, V)>) {
    && (forall i :: 0 <= i < |batch| ==> batch[i].0 in entries && entries[batch[i].0] == batch[i].1)
    && (forall o :: o in entries ==> exists i :: 0 <= i < |batch| && batch[i].0 == o)
  }

  lemma {:induction false} ReplaceAllKeeps<K, V>(t: map<K, V>, batch: seq<(K, V)>, k: K)
    requires forall i :: 0 <= i < |batch| ==> batch[i].0 != k
    ensures k in ReplaceAll(t, batch) <==> k in t
    ensures k in t ==> ReplaceAll(t, batch)[k] == t[k]
    decreases |batch|
  {
    if batch != [] {
      assert batch[0].0 != k;
      ReplaceAllKeeps(t[batch[0].0 := batch[0].1], batch[1..], k);
    }
  }

  lemma {:induction false} ReplaceAllSets<K, V>(t: map<K, V>, batch: seq<(K, V)>, i: nat, v: V)
    requires i < |batch| && forall j :: 0 <= j < |batch| && batch[j].0 == batch[i].0 ==> batch[j].1 == v
    ensures batch[i].0 in ReplaceAll(t, batch) && ReplaceAll(t, batch)[batch[i].0] == v
    decreases |batch|
  {
    var k, rest := batch[i].0, batch[1..];
    var t' := t[batch[0].0 := batch[0].1];
    assert forall j :: 0 <= j < |rest| ==> rest[j] == batch[j + 1];
    if exists j :: 0 <= j < |rest| && rest[j].0 == k {
      var j :| 0 <= j < |rest| && rest[j].0 == k;
      ReplaceAllSets(t', rest, j, v);
    } else {
      assert i == 0;
      ReplaceAllKeeps(t', rest, k);
    }
  }

  lemma {:induction false} OverlayAt<K, V>(t: map<K, V>, entries: map<K, V>, batch: seq<(K, V)>, k: K)
    requires Lists(entries, batch)
    ensures k in ReplaceAll(t, batch) <==> k in t || k in entries
    ensures k in ReplaceAll(t, batch) ==> ReplaceAll(t, batch)[k] == if k in entries then entries[k] else t[k]
  {
    if k in entries {
      var i :| 0 <= i < |batch| && batch[i].0 == k;
      ReplaceAllSets(t, batch, i, entries[k]);
    } else {
      ReplaceAllKeeps(t, batch, k);
    }
  }

  /** Written in any order, the entries overlay the table. */
  lemma {:induction false} ReplaceAllIsOverlay<K, V>(t: map<K, V>, entries: map<K, V>, batch: seq<(K, V)>)
    requires Lists(entries, batch)
    ensures ReplaceAll(t, batch) == t + entries
  {
    var r, overlay := ReplaceAll(t, batch), t + entries;
    forall k: K | k in r.Keys ensures k in overlay.Keys && overlay[k] == r[k] {
      OverlayAt(t, entries, batch, k);
    }
    forall k: K | k in overlay.Keys ensures k in r.Keys {
      OverlayAt(t, entries, batch, k);
    }
    assert r.Keys == overlay.Keys;
  }

  /** No later row has the key of row `i`, which decodes. */
  predicate IsLast<K(==), V>(rows: seq<(Option<K>, V)>, i: nat)
    requires i < |rows|
  {
    rows[i].0.Some? && forall j :: i < j < |rows| ==> rows[j].0 != rows[i].0
  }

  ghost predicate HasRow<K, V>(rows: seq<(Option<K>, V)>, k: K) {
    exists i :: 0 <= i < |rows| && rows[i].0 == Some(k)
  }

  /**
   * What loading the rows of a query into `before` gives, the key of a row being None where its stored hash
   * does not decode: every key of a row, with the value of its last one, and what was there before.
   */
  ghost predicate Loaded<K(!new), V>(before: map<K, V>, rows: seq<(Option<K>, V)>, after: map<K, V>) {
    && (forall k :: k in after <==> k in before || HasRow(rows, k))
    && (forall i :: 0 <= i < |rows| && IsLast(rows, i) ==>
          rows[i].0.value in after && after[rows[i].0.value] == rows[i].1)
    && (forall k :: k in before && !HasRow(rows, k) ==> after[k] == before[k])
  }

  lemma {:induction false} LoadedKeys<K(!new), V>(rows: seq<(Option<K>, V)>, row: (Option<K>, V))
    ensures forall k :: HasRow(rows + [row], k) <==> HasRow(rows, k) || row.0 == Some(k)
  {
    var more := rows + [row];
    forall k ensures HasRow(more, k) <==> HasRow(rows, k) || row.0 == Some(k) {
      assert more[|rows|] == row;
      if HasRow(rows, k) {
        var i :| 0 <= i < |rows| && rows[i].0 == Some(k);
        assert more[i].0 == Some(k);
      }
    }
  }

  lemma {:induction false} LoadOneMore<K(!new), V>(before: map<K, V>, rows: seq<(Option<K>, V)>, after: map<K, V>,
                                                   row: (Option<K>, V))
    requires Loaded(before, rows, after)
    ensures Loaded(before, rows + [row], if row.0.Some? then after[row.0.value := row.1] else after)
  {
    var more, result := rows + [row], if row.0.Some? then after[row.0.value := row.1] else after;
    LoadedKeys(rows, row);
    forall i | 0 <= i < |more| && IsLast(more, i)
      ensures more[i].0.value in result && result[more[i].0.value] == more[i].1
    {
      if i < |rows| {
        assert more[|rows|] == row && more[i] == rows[i];
        assert forall j :: i < j < |rows| ==> more[j] == rows[j];
        assert IsLast(rows, i);
      }
    }
  }

  /** The rows list the table: every one decodes to an entry of it, and every entry has a row. */
  ghost predicate RowsOf<K(!new), V>(table: map<K, V>, rows: seq<(Option<K>, V)>) {
    && (forall i :: 0 <= i < |rows| ==>
          rows[i].0.Some? && rows[i].0.value in table && table[rows[i].0.value] == rows[i].1)
    && (forall k :: k in table ==> HasRow(rows, k))
  }

  lemma {:induction false} LastRow<K, V>(rows: seq<(Option<K>, V)>, i: nat) returns (j: nat)
    requires i < |rows| && rows[i].0.Some?
    ensures i <= j < |rows| && rows[j].0 == rows[i].0 && IsLast(rows, j)
    decreases |rows| - i
  {
    if k :| i < k < |rows| && rows[k].0 == rows[i].0 {
      j := LastRow(rows, k);
    } else {
      j := i;
    }
  }

  /** Loading the rows of a table into nothing gives the table, in whatever order they come. */
  lemma {:induction false} LoadedTable<K(!new), V>(table: map<K, V>, rows: seq<(Option<K>, V)>, after: map<K, V>)
    requires Loaded(map[], rows, after) && RowsOf(table, rows)
    ensures after == table
  {
    forall k: K | k in after.Keys ensures k in table.Keys && table[k] == after[k] {
      var i :| 0 <= i < |rows| && rows[i].0 == Some(k);
      var j := LastRow(rows, i);
    }
    forall k: K | k in table.Keys ensures k in after.Keys {
    }
    assert after.Keys == table.Keys;
  }

  // ---- INSERTs that meet taken keys ----

  lemma {:induction false} InsertAllKeeps<K, V>(t: map<K, V>, es: seq<(K, V)>, k: K)
    requires k in t
    ensures k in InsertAll(t, es) && InsertAll(t, es)[k] == t[k]
    decreases |es|
  {
    if es != [] && es[0].0 !in t {
      InsertAllKeeps(t[es[0].0 := es[0].1], es[1..], k);
    }
  }

  /** A batch that has met a taken key takes no more. */
  lemma {:induction false} InsertAllStops<K, V>(t: map<K, V>, a: seq<(K, V)>, b: seq<(K, V)>)
    requires !AllFresh(t, a)
    ensures InsertAll(t, a + b) == InsertAll(t, a) && !AllFresh(t, a + b)
    decreases |a|
  {
    assert (a + b)[0] == a[0] && (a + b)[1..] == a[1..] + b;
    if a[0].0 !in t {
      InsertAllStops(t[a[0].0 := a[0].1], a[1..], b);
    }
  }

  /** The batch is empty, or its first key is taken. */
  predicate AddsNothing<K, V>(t: map<K, V>, es: seq<(K, V)>) {
    es == [] || es[0].0 in t
  }

  /** Two batches inserted as one do what they do one after the other only if neither cuts the other short. */
  lemma {:induction false} InsertAllAppendIff<K, V>(t: map<K, V>, a: seq<(K, V)>, b: seq<(K, V)>)
    ensures InsertAll(t, a + b) == InsertAll(InsertAll(t, a), b) <==> AllFresh(t, a) || AddsNothing(InsertAll(t, a), b)
  {
    if AllFresh(t, a) {
      InsertAllAppend(t, a, b);
    } else {
      InsertAllStops(t, a, b);
      if !AddsNothing(InsertAll(t, a), b) {
        InsertAllKeeps(InsertAll(t, a)[b[0].0 := b[0].1], b[1..], b[0].0);
      }
    }
  }

  // ---- table by table ----

  datatype Table = UtxoTable | TxTable | MempoolTable | BlocksTable | OrphansTable

  function TableOf(op: Op): Table {
    match op
    case UtxoBatchWrite(_) | UtxoBatchDelete(_) | UtxoDelete(_) => UtxoTable
    case TxBatchWrite(_) | TxDelete(_) => TxTable
    case MempoolBatchDelete(_) | MempoolBatchWrite(_) => MempoolTable
    case BlockHeaderWrite(_) | BlockHeaderDelete(_) => BlocksTable
    case OrphanBlockHeaderWrite(_) => OrphansTable
  }

  ghost predicate SameOn(t: Table, a: Database, b: Database) {
    match t
    case UtxoTable => a.utxo == b.utxo
    case TxTable => a.tx == b.tx
    case MempoolTable => a.mempool == b.mempool
    case BlocksTable => a.blocks == b.blocks
    case OrphansTable => a.orphans == b.orphans
  }

  /** An operation reads and changes its own table only. */
  lemma {:induction false} ApplySame(t: Table, a: Database, b: Database, op: Op)
    requires SameOn(t, a, b)
    ensures SameOn(t, Apply(a, op), Apply(b, op))
    ensures TableOf(op) != t ==> SameOn(t, Apply(a, op), b)
  {
  }

  lemma {:induction false} ApplyAllSame(t: Table, a: Database, b: Database, ops: seq<Op>)
    requires SameOn(t, a, b)
    ensures SameOn(t, ApplyAll(a, ops), ApplyAll(b, ops))
    decreases |ops|
  {
    if ops != [] {
      ApplySame(t, a, b, ops[0]);
      ApplyAllSame(t, Apply(a, ops[0]), Apply(b, ops[0]), ops[1..]);
    }
  }

  /** The operations on one table, among all that share the channel. */
  function Part(ops: seq<Op>, t: Table): seq<Op> {
    if ops == [] then []
    else if TableOf(ops[0]) == t then [ops[0]] + Part(ops[1..], t)
    else Part(ops[1..], t)
  }

  lemma {:induction false} OthersLeaveTable(t: Table, a: Database, b: Database, ops: seq<Op>)
    requires SameOn(t, a, b)
    ensures SameOn(t, ApplyAll(a, ops), ApplyAll(b, Part(ops, t)))
    decreases |ops|
  {
    if ops != [] {
      ApplySame(t, a, b, ops[0]);
      if TableOf(ops[0]) == t {
        assert Part(ops, t)[1..] == Part(ops[1..], t);
        OthersLeaveTable(t, Apply(a, ops[0]), Apply(b, ops[0]), ops[1..]);
      } else {
        OthersLeaveTable(t, Apply(a, ops[0]), b, ops[1..]);
      }
    }
  }

  /** What happens to a table depends only on the operations on it. */
  lemma {:induction false} PartDecides(t: Table, db: Database, ops: seq<Op>, sent: seq<Op>)
    requires Part(ops, t) == Part(sent, t)
    ensures SameOn(t, ApplyAll(db, ops), ApplyAll(db, sent))
  {
    OthersLeaveTable(t, db, db, ops);
    OthersLeaveTable(t, db, db, sent);
  }
}
