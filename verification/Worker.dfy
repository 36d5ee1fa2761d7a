/**
 * The thread that writes the database: it merges runs of batches of one kind
 * (rust/src/uaas/database.rs, `perform_db_operations` and the `coalesce_*` loops).
 */
module Worker {
  import opened Common
  import opened Tables

  /** The kinds of operation: those with a `coalesce_*` loop, and the rest. */
  datatype Kind = UtxoWrites | UtxoDeletes | TxWrites | MempoolWrites | MempoolDeletes | Single

  function KindOf(op: Op): Kind {
    match op
    case UtxoBatchWrite(_) => UtxoWrites
    case UtxoBatchDelete(_) => UtxoDeletes
    case TxBatchWrite(_) => TxWrites
    case MempoolBatchWrite(_) => MempoolWrites
    case MempoolBatchDelete(_) => MempoolDeletes
    case _ => Single
  }

  function Merge(a: Op, b: Op): (r: Op)
    requires KindOf(a) == KindOf(b) != Single
    ensures KindOf(r) == KindOf(a)
  {
    match a
    case UtxoBatchWrite(es) => UtxoBatchWrite(es + b.utxoEntries)
    case UtxoBatchDelete(os) => UtxoBatchDelete(os + b.outpoints)
    case TxBatchWrite(es) => TxBatchWrite(es + b.txEntries)
    case MempoolBatchWrite(es) => MempoolBatchWrite(es + b.mempoolEntries)
    case MempoolBatchDelete(hs) => MempoolBatchDelete(hs + b.hashes)
  }

  // ---- merging ----

  /** Merging `b` into `a` makes no difference to the table: no INSERT of one is cut short by the other. */
  predicate MergesWell(t: Table, db: Database, a: Op, b: Op)
    requires KindOf(a) == KindOf(b) != Single
  {
    match a
    case TxBatchWrite(es) => t == TxTable ==> AllFresh(db.tx, es) || AddsNothing(InsertAll(db.tx, es), b.txEntries)
    case MempoolBatchWrite(es) =>
      t == MempoolTable ==> AllFresh(db.mempool, es) || AddsNothing(InsertAll(db.mempool, es), b.mempoolEntries)
    case _ => true
  }

  /** One batch of two leaves a table as the two do, exactly when they merge well. */
  lemma {:induction false} MergeIsBothIff(t: Table, db: Database, a: Op, b: Op)
    requires KindOf(a) == KindOf(b) != Single
    ensures SameOn(t, Apply(db, Merge(a, b)), Apply(Apply(db, a), b)) <==> MergesWell(t, db, a, b)
  {
    match a
    case UtxoBatchWrite(es) => ReplaceAllAppend(db.utxo, es, b.utxoEntries);
    case UtxoBatchDelete(os) => DeleteAllAppend(db.utxo, os, b.outpoints);
    case TxBatchWrite(es) => InsertAllAppendIff(db.tx, es, b.txEntries);
    case MempoolBatchWrite(es) => InsertAllAppendIff(db.mempool, es, b.mempoolEntries);
    case MempoolBatchDelete(hs) => DeleteAllAppend(db.mempool, hs, b.hashes);
  }

  /** A merged batch deletes in the order in which the two came. */
  lemma {:induction false} MergedDeletesInOrder(a: Op, b: Op)
    requires KindOf(a) == KindOf(b) && KindOf(a) in {UtxoDeletes, MempoolDeletes}
    ensures a.UtxoBatchDelete? ==> a.outpoints <= Merge(a, b).outpoints
    ensures a.MempoolBatchDelete? ==> a.hashes <= Merge(a, b).hashes
    ensures a.UtxoBatchDelete? ==> Merge(a, b).outpoints[|a.outpoints|..] == b.outpoints
    ensures a.MempoolBatchDelete? ==> Merge(a, b).hashes[|a.hashes|..] == b.hashes
  {
  }

  /** A known transaction ends the merged batch: the new one sent after it never reaches the table. */
  lemma {:induction false} MergeCanLoseNew(db: Database, known: (Hash256, MempoolRow), novel: (Hash256, MempoolRow))
    requires known.0 in db.mempool && novel.0 !in db.mempool
    ensures var a, b := MempoolBatchWrite([known]), MempoolBatchWrite([novel]);
            novel.0 in Apply(Apply(db, a), b).mempool && novel.0 !in Apply(db, Merge(a, b)).mempool
  {
    InsertOne(db.mempool, known.0, known.1);
    InsertOne(db.mempool, novel.0, novel.1);
  }

  // ---- the schedule ----

  /**
   * What a `try_recv` finds depends on how far the senders have got. `sees(i)` says whether the i-th
   * operation sent has arrived when the worker tries for it; every schedule is some `sees`.
   */
  type Schedule = nat -> bool

  /** The worker is merging into a batch of some kind, or is back at `recv`. */
  datatype Mode = AtRecv | Merging(kind: Kind)

  /** The operation at `i` is taken off the channel by a coalescing loop of another kind, and lost. */
  predicate Swallowed(ops: seq<Op>, sees: Schedule, i: nat, mode: Mode)
    requires i < |ops|
  {
    mode.Merging? && sees(i) && KindOf(ops[i]) != mode.kind
  }

  function NextMode(ops: seq<Op>, sees: Schedule, i: nat, mode: Mode): Mode
    requires i < |ops|
  {
    if Swallowed(ops, sees, i, mode) then AtRecv
    else if mode.Merging? && sees(i) then mode
    else if KindOf(ops[i]) == Single then AtRecv
    else Merging(KindOf(ops[i]))
  }

  /** The operations from `i` on that reach the database. */
  function Kept(ops: seq<Op>, sees: Schedule, i: nat, mode: Mode): seq<Op>
    requires i <= |ops|
    decreases |ops| - i
  {
    if i == |ops| then []
    else (if Swallowed(ops, sees, i, mode) then [] else [ops[i]]) + Kept(ops, sees, i + 1, NextMode(ops, sees, i, mode))
  }

  /** The mode in which the worker meets operation `i`. */
  function ModeAt(ops: seq<Op>, sees: Schedule, i: nat): Mode
    requires i <= |ops|
  {
    if i == 0 then AtRecv else NextMode(ops, sees, i - 1, ModeAt(ops, sees, i - 1))
  }

  /** The operations that are lost. */
  ghost function Lost(ops: seq<Op>, sees: Schedule): set<nat> {
    set j: nat | 0 <= j < |ops| && Swallowed(ops, sees, j, ModeAt(ops, sees, j))
  }

  /** The operations from `i` on, in order, but for those at `lost`. */
  ghost function Omitting(ops: seq<Op>, lost: set<nat>, i: nat): seq<Op>
    requires i <= |ops|
    decreases |ops| - i
  {
    if i == |ops| then [] else (if i in lost then [] else [ops[i]]) + Omitting(ops, lost, i + 1)
  }

  /** What is kept is everything, in the order it was sent, but what is lost. */
  lemma {:induction false} KeptIsAllButLost(ops: seq<Op>, sees: Schedule, i: nat)
    requires i <= |ops|
    ensures Kept(ops, sees, i, ModeAt(ops, sees, i)) == Omitting(ops, Lost(ops, sees), i)
    decreases |ops| - i
  {
    if i < |ops| {
      KeptIsAllButLost(ops, sees, i + 1);
      assert ModeAt(ops, sees, i + 1) == NextMode(ops, sees, i, ModeAt(ops, sees, i));
    }
  }

  lemma {:induction false} KeptIsShorter(ops: seq<Op>, sees: Schedule, i: nat, mode: Mode)
    requires i <= |ops|
    ensures |Kept(ops, sees, i, mode)| <= |ops| - i
    decreases |ops| - i
  {
    if i < |ops| {
      KeptIsShorter(ops, sees, i + 1, NextMode(ops, sees, i, mode));
    }
  }

  // ---- what is lost, from the channel and the schedule alone ----

  /** A batch came just before, and this operation, of another kind, was there when it looked for more. */
  predicate Interrupts(ops: seq<Op>, sees: Schedule, j: nat) {
    0 < j < |ops| && KindOf(ops[j - 1]) != Single && sees(j) && KindOf(ops[j]) != KindOf(ops[j - 1])
  }

  /** How many operations in a row, up to the one at `j`, interrupt the one before them. */
  function Streak(ops: seq<Op>, sees: Schedule, j: nat): nat {
    if Interrupts(ops, sees, j) then 1 + Streak(ops, sees, j - 1) else 0
  }

  lemma {:induction false} ModeAfter(ops: seq<Op>, sees: Schedule, j: nat)
    requires 0 < j <= |ops|
    ensures ModeAt(ops, sees, j) ==
            if j - 1 in Lost(ops, sees) || KindOf(ops[j - 1]) == Single then AtRecv else Merging(KindOf(ops[j - 1]))
  {
    if j > 1 {
      ModeAfter(ops, sees, j - 1);
    }
  }

  /** An operation is lost exactly when it interrupts one that was not: every second one of a streak. */
  lemma {:induction false} LostIffOddStreak(ops: seq<Op>, sees: Schedule, j: nat)
    requires j < |ops|
    ensures j in Lost(ops, sees) <==> Streak(ops, sees, j) % 2 == 1
  {
    if j > 0 {
      LostIffOddStreak(ops, sees, j - 1);
      ModeAfter(ops, sees, j);
    }
  }

  /** No operation is there as a batch of another kind, sent just before it, looks for more. */
  ghost predicate Quiet(ops: seq<Op>, sees: Schedule) {
    forall j: nat :: !Interrupts(ops, sees, j)
  }

  lemma {:induction false} QuietKeepsAll(ops: seq<Op>, sees: Schedule, i: nat)
    requires i <= |ops| && Quiet(ops, sees)
    ensures Kept(ops, sees, i, ModeAt(ops, sees, i)) == ops[i..]
    decreases |ops| - i
  {
    if i < |ops| {
      QuietKeepsAll(ops, sees, i + 1);
      LostIffOddStreak(ops, sees, i);
      assert ModeAt(ops, sees, i + 1) == NextMode(ops, sees, i, ModeAt(ops, sees, i));
    }
  }

  lemma {:induction false} LossShortens(ops: seq<Op>, sees: Schedule, i: nat, j: nat)
    requires i <= j < |ops| && j in Lost(ops, sees)
    ensures |Kept(ops, sees, i, ModeAt(ops, sees, i))| < |ops| - i
    decreases |ops| - i
  {
    assert ModeAt(ops, sees, i + 1) == NextMode(ops, sees, i, ModeAt(ops, sees, i));
    if i == j {
      KeptIsShorter(ops, sees, i + 1, ModeAt(ops, sees, i + 1));
    } else {
      LossShortens(ops, sees, i + 1, j);
    }
  }

  /** The first interruption is a loss. */
  lemma {:induction false} SomeLoss(ops: seq<Op>, sees: Schedule, j: nat) returns (k: nat)
    requires Interrupts(ops, sees, j)
    ensures k < |ops| && k in Lost(ops, sees)
  {
    k := j;
    LostIffOddStreak(ops, sees, j);
    if j !in Lost(ops, sees) {
      k := SomeLoss(ops, sees, j - 1);
    }
  }

  /** All operations are kept exactly when the schedule is quiet. */
  lemma {:induction false} AllKeptIffQuiet(ops: seq<Op>, sees: Schedule)
    ensures Kept(ops, sees, 0, AtRecv) == ops <==> Quiet(ops, sees)
  {
    if Quiet(ops, sees) {
      QuietKeepsAll(ops, sees, 0);
      assert ops[0..] == ops;
    } else {
      var j: nat :| Interrupts(ops, sees, j);
      var k := SomeLoss(ops, sees, j);
      LossShortens(ops, sees, 0, k);
    }
  }

  /**
   * `Utxo::update_db` sends its writes and its deletes back to back, into a channel that may hold anything
   * before them. The writes reach the worker unless they end an odd streak, and the deletes exactly if they
   * have not arrived by the time kept writes look for more, or the writes were lost in their stead.
   */
  lemma {:induction false} FlushIsKeptIff(ops: seq<Op>, sees: Schedule, i: nat)
    requires i + 1 < |ops| && ops[i].UtxoBatchWrite? && ops[i + 1].UtxoBatchDelete?
    ensures i in Lost(ops, sees) <==> Streak(ops, sees, i) % 2 == 1
    ensures i + 1 in Lost(ops, sees) <==> sees(i + 1) && Streak(ops, sees, i) % 2 == 0
  {
    LostIffOddStreak(ops, sees, i);
    LostIffOddStreak(ops, sees, i + 1);
    assert sees(i + 1) ==> Interrupts(ops, sees, i + 1);
  }

  // ---- what is written ----

  /** The batches and single operations written, from `i` on, with a batch open or none. */
  function Batched(ops: seq<Op>, sees: Schedule, i: nat, open: Option<Op>): seq<Op>
    requires i <= |ops| && (open.Some? ==> KindOf(open.value) != Single)
    decreases |ops| - i, open.Some?
  {
    match open
    case None =>
      if i == |ops| then []
      else if KindOf(ops[i]) == Single then [ops[i]] + Batched(ops, sees, i + 1, None)
      else Batched(ops, sees, i + 1, Some(ops[i]))
    case Some(b) =>
      if i == |ops| || !sees(i) then [b] + Batched(ops, sees, i, None)
      else if KindOf(ops[i]) == KindOf(b) then Batched(ops, sees, i + 1, Some(Merge(b, ops[i])))
      else [b] + Batched(ops, sees, i + 1, None)
  }

  /** Every merge on the way, met with the database as it then is, is a good one for the table. */
  predicate AllMergeWell(t: Table, db: Database, ops: seq<Op>, sees: Schedule, i: nat, open: Option<Op>)
    requires i <= |ops| && (open.Some? ==> KindOf(open.value) != Single)
    decreases |ops| - i, open.Some?
  {
    match open
    case None =>
      if i == |ops| then true
      else if KindOf(ops[i]) == Single then AllMergeWell(t, Apply(db, ops[i]), ops, sees, i + 1, None)
      else AllMergeWell(t, db, ops, sees, i + 1, Some(ops[i]))
    case Some(b) =>
      if i == |ops| || !sees(i) then AllMergeWell(t, Apply(db, b), ops, sees, i, None)
      else if KindOf(ops[i]) == KindOf(b) then
        MergesWell(t, db, b, ops[i]) && AllMergeWell(t, db, ops, sees, i + 1, Some(Merge(b, ops[i])))
      else AllMergeWell(t, Apply(db, b), ops, sees, i + 1, None)
  }

  function OpenFirst(open: Option<Op>, ops: seq<Op>): seq<Op> {
    if open.None? then ops else [open.value] + ops
  }

  function ModeOf(open: Option<Op>): Mode {
    if open.None? then AtRecv else Merging(KindOf(open.value))
  }

  lemma {:induction false} ApplyFirst(db: Database, op: Op, rest: seq<Op>)
    ensures ApplyAll(db, [op] + rest) == ApplyAll(Apply(db, op), rest)
  {
    assert ([op] + rest)[1..] == rest;
  }

  /** Merging first or not is the same to the table, whatever comes after. */
  lemma {:induction false} MergeThenRest(t: Table, db: Database, b: Op, op: Op, rest: seq<Op>)
    requires KindOf(b) == KindOf(op) != Single && MergesWell(t, db, b, op)
    ensures SameOn(t, ApplyAll(db, [Merge(b, op)] + rest), ApplyAll(db, [b] + ([op] + rest)))
  {
    ApplyFirst(db, Merge(b, op), rest);
    ApplyFirst(db, b, [op] + rest);
    ApplyFirst(Apply(db, b), op, rest);
    MergeIsBothIff(t, db, b, op);
    ApplyAllSame(t, Apply(db, Merge(b, op)), Apply(Apply(db, b), op), rest);
  }

  /** What is written leaves a table as the kept operations would, one by one, if they merge well for it. */
  lemma {:induction false} BatchesDoWhatIsKept(t: Table, db: Database, ops: seq<Op>, sees: Schedule, i: nat,
                                               open: Option<Op>)
    requires i <= |ops| && (open.Some? ==> KindOf(open.value) != Single)
    requires AllMergeWell(t, db, ops, sees, i, open)
    ensures SameOn(t, ApplyAll(db, Batched(ops, sees, i, open)),
                      ApplyAll(db, OpenFirst(open, Kept(ops, sees, i, ModeOf(open)))))
    decreases |ops| - i, open.Some?
  {
    match open
    case None =>
      if i < |ops| {
        if KindOf(ops[i]) == Single {
          BatchesDoWhatIsKept(t, Apply(db, ops[i]), ops, sees, i + 1, None);
          ApplyFirst(db, ops[i], Batched(ops, sees, i + 1, None));
          ApplyFirst(db, ops[i], Kept(ops, sees, i + 1, AtRecv));
        } else {
          BatchesDoWhatIsKept(t, db, ops, sees, i + 1, Some(ops[i]));
        }
      }
    case Some(b) =>
      if i == |ops| || !sees(i) {
        BatchesDoWhatIsKept(t, Apply(db, b), ops, sees, i, None);
        ApplyFirst(db, b, Batched(ops, sees, i, None));
        ApplyFirst(db, b, Kept(ops, sees, i, AtRecv));
        assert Kept(ops, sees, i, ModeOf(open)) == Kept(ops, sees, i, AtRecv);
      } else if KindOf(ops[i]) == KindOf(b) {
        BatchesDoWhatIsKept(t, db, ops, sees, i + 1, Some(Merge(b, ops[i])));
        MergeThenRest(t, db, b, ops[i], Kept(ops, sees, i + 1, ModeOf(open)));
      } else {
        BatchesDoWhatIsKept(t, Apply(db, b), ops, sees, i + 1, None);
        ApplyFirst(db, b, Batched(ops, sees, i + 1, None));
        ApplyFirst(db, b, Kept(ops, sees, i + 1, AtRecv));
        assert Kept(ops, sees, i, ModeOf(open)) == Kept(ops, sees, i + 1, AtRecv);
      }
  }

  function InsertsOf(t: Table): Kind {
    match t
    case TxTable => TxWrites
    case MempoolTable => MempoolWrites
    case _ => Single
  }

  /** No batch of INSERTs into the table is there as another, sent just before it, looks for more. */
  ghost predicate Spaced(t: Table, ops: seq<Op>, sees: Schedule) {
    forall j: nat :: Follows(ops, sees, j) ==> KindOf(ops[j]) != InsertsOf(t)
  }

  predicate Follows(ops: seq<Op>, sees: Schedule, j: nat) {
    0 < j < |ops| && sees(j) && KindOf(ops[j]) == KindOf(ops[j - 1]) != Single
  }

  /** Then none is merged, and none cut short by another. */
  lemma {:induction false} SpacedMergeWell(t: Table, db: Database, ops: seq<Op>, sees: Schedule, i: nat,
                                           open: Option<Op>)
    requires i <= |ops| && Spaced(t, ops, sees)
    requires open.Some? ==> i > 0 && KindOf(open.value) == KindOf(ops[i - 1]) != Single
    ensures AllMergeWell(t, db, ops, sees, i, open)
    decreases |ops| - i, open.Some?
  {
    match open
    case None =>
      if i < |ops| {
        if KindOf(ops[i]) == Single {
          SpacedMergeWell(t, Apply(db, ops[i]), ops, sees, i + 1, None);
        } else {
          SpacedMergeWell(t, db, ops, sees, i + 1, Some(ops[i]));
        }
      }
    case Some(b) =>
      if i == |ops| || !sees(i) {
        SpacedMergeWell(t, Apply(db, b), ops, sees, i, None);
      } else if KindOf(ops[i]) == KindOf(b) {
        assert Follows(ops, sees, i);
        SpacedMergeWell(t, db, ops, sees, i + 1, Some(Merge(b, ops[i])));
      } else {
        SpacedMergeWell(t, Apply(db, b), ops, sees, i + 1, None);
      }
  }

  /** Only INSERTs can be cut short: the other tables always merge well. */
  lemma {:induction false} OthersMergeWell(t: Table, db: Database, ops: seq<Op>, sees: Schedule)
    requires t != TxTable && t != MempoolTable
    ensures AllMergeWell(t, db, ops, sees, 0, None)
  {
    SpacedMergeWell(t, db, ops, sees, 0, None);
  }

  /** On a quiet schedule, with batches that merge well for it, a table ends as if nothing had been merged. */
  lemma {:induction false} QuietScheduleAppliesAll(t: Table, db: Database, ops: seq<Op>, sees: Schedule)
    requires Quiet(ops, sees) && AllMergeWell(t, db, ops, sees, 0, None)
    ensures SameOn(t, ApplyAll(db, Batched(ops, sees, 0, None)), ApplyAll(db, ops))
  {
    AllKeptIffQuiet(ops, sees);
    BatchesDoWhatIsKept(t, db, ops, sees, 0, None);
  }

  // ---- the worker ----

  /** What is still to be written when a `try_recv` gave `more` to an open batch. */
  function Unwritten(ops: seq<Op>, sees: Schedule, i: nat, batch: Op, more: Option<Op>): seq<Op>
    requires i <= |ops| && KindOf(batch) != Single
  {
    if more.Some? && KindOf(more.value) == KindOf(batch) then Batched(ops, sees, i, Some(Merge(batch, more.value)))
    else [batch] + Batched(ops, sees, i, None)
  }

  /** `Database` of database.rs, with the channel's whole contents and the schedule of its arrivals. */
  class DatabaseWriter {
    const sent: seq<Op>
    const sees: Schedule
    var received: nat
    var db: Database

    constructor (sent: seq<Op>, sees: Schedule, db: Database)
      ensures this.sent == sent && this.sees == sees && this.db == db && received == 0
    {
      this.sent := sent;
      this.sees := sees;
      this.received := 0;
      this.db := db;
    }

    method TryRecv() returns (op: Option<Op>)
      requires received <= |sent|
      modifies this`received
      ensures if old(received) < |sent| && sees(old(received))
              then op == Some(sent[old(received)]) && received == old(received) + 1
              else op == None && received == old(received)
    {
      if received < |sent| && sees(received) {
        op := Some(sent[received]);
        received := received + 1;
      } else {
        op := None;
      }
    }

    /** Any of the five `coalesce_*` loops. */
    method Coalesce(first: Op) returns (batch: Op)
      requires received <= |sent| && KindOf(first) != Single
      modifies this`received
      ensures old(received) <= received <= |sent|
      ensures Batched(sent, sees, old(received), Some(first)) == [batch] + Batched(sent, sees, received, None)
    {
      batch := first;
      var more := TryRecv();
      while more.Some? && KindOf(more.value) == KindOf(first)
        invariant old(received) <= received <= |sent| && KindOf(batch) == KindOf(first)
        invariant Unwritten(sent, sees, received, batch, more) == Batched(sent, sees, old(received), Some(first))
        decreases |sent| - received, more.Some?
      {
        batch := Merge(batch, more.value);
        more := TryRecv();
      }
    }

    /** Until the channel is closed and empty. */
    method PerformDbOperations()
      requires received == 0
      modifies this
      ensures received == |sent|
      ensures db == ApplyAll(old(db), Batched(sent, sees, 0, None))
    {
      while received < |sent|
        invariant received <= |sent|
        invariant ApplyAll(db, Batched(sent, sees, received, None)) == ApplyAll(old(db), Batched(sent, sees, 0, None))
        decreases |sent| - received
      {
        var op := sent[received];
        ghost var unwritten := Batched(sent, sees, received, None);
        received := received + 1;
        if KindOf(op) != Single {
          op := Coalesce(op);
        }
        assert unwritten == [op] + Batched(sent, sees, received, None);
        ApplyFirst(db, op, Batched(sent, sees, received, None));
        db := Apply(db, op);
      }
    }
  }
}
