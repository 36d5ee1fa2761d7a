/**
 * Restarting: what a run of the block manager leaves in the block file and in the `blocks` table is
 * enough to rebuild its state.
 */
module Restart {
  import opened Common
  import opened Tables
  import opened BlockSpec
  import opened ChainState
  import opened Delivery
  import T = TxDbSpec

  // ---- every orphan-free run is a chain grown in order ----

  /** The state is what the blocks of `chain`, taken in order, make; only the queue is extra. */
  ghost predicate InStep(c: Config, chain: seq<Block>, s: State) {
    IsChain(c, chain) && s == Grown(c, chain, Network, |chain|).(queue := s.queue)
  }

  lemma {:induction false} GrownAgrees(c: Config, a: seq<Block>, b: seq<Block>, n: nat)
    requires n <= |a| && n <= |b| && forall i :: 0 <= i < n ==> a[i] == b[i]
    ensures Grown(c, a, Network, n) == Grown(c, b, Network, n)
  {
    if n > 0 {
      GrownAgrees(c, a, b, n - 1);
    }
  }

  /** A block above the tip, with room for its height, lengthens a chain. */
  lemma {:induction false} ChainPush(c: Config, rank: Rank, chain: seq<Block>, b: Block)
    requires IsChain(c, chain) && c.startHeight + 1 + |chain| < TWO_31
    requires forall i :: 0 <= i < |chain| ==> Uphill(c, rank, chain[i])
    requires Uphill(c, rank, b) && b.header.prevHash == TipAt(c, chain, |chain|)
    ensures IsChain(c, chain + [b])
  {
    var longer := chain + [b];
    forall i | 0 <= i < |longer| ensures LinkedAt(c, longer, i) {
      if i < |chain| {
        assert LinkedAt(c, chain, i);
      }
    }
    forall i, j | 0 <= i < j <= |longer| ensures TipsDiffer(c, longer, i, j) {
      if j <= |chain| {
        assert TipsDiffer(c, chain, i, j);
      } else {
        TipRanksRise(c, rank, chain, i, |chain|);
      }
    }
  }

  lemma {:induction false} TipRanksRise(c: Config, rank: Rank, chain: seq<Block>, i: nat, j: nat)
    requires IsChain(c, chain) && i <= j <= |chain|
    requires forall k :: 0 <= k < |chain| ==> Uphill(c, rank, chain[k])
    ensures rank(TipAt(c, chain, i)) <= rank(TipAt(c, chain, j))
    decreases j - i
  {
    if i < j {
      TipRanksRise(c, rank, chain, i, j - 1);
      assert LinkedAt(c, chain, j - 1) && Uphill(c, rank, chain[j - 1]);
    }
  }

  ghost predicate Climbing(c: Config, rank: Rank, chain: seq<Block>, s: State) {
    && InStep(c, chain, s) && QueueOk(c, rank, s.queue)
    && (forall i :: 0 <= i < |chain| ==> Uphill(c, rank, chain[i]))
    && (forall h :: h in s.queue ==> s.queue[h].position == None)
  }

  lemma {:induction false} AcceptKeepsInStep(c: Config, rank: Rank, chain: seq<Block>, s: State, b: Block)
    requires Climbing(c, rank, chain, s) && Uphill(c, rank, b) && b.header.prevHash == s.last
    requires s.height < TWO_31
    ensures Climbing(c, rank, chain + [b], Accept(c, s, Queued(None, b)))
  {
    AcceptInStep(c, rank, chain, s, b);
  }

  lemma {:induction false} AcceptInStep(c: Config, rank: Rank, chain: seq<Block>, s: State, b: Block)
    requires Climbing(c, rank, chain, s) && Uphill(c, rank, b) && b.header.prevHash == s.last
    requires s.height < TWO_31
    ensures InStep(c, chain + [b], Accept(c, s, Queued(None, b)))
  {
    var n, longer := |chain|, chain + [b];
    GrownFacts(c, chain, Network, n);
    ChainPush(c, rank, chain, b);
    GrownAgrees(c, chain, longer, n);
    AcceptIgnoresQueue(c, Grown(c, chain, Network, n), Queued(None, b), s.queue);
    assert Grown(c, longer, Network, n + 1) == Accept(c, Grown(c, longer, Network, n), Queued(None, longer[n]));
  }

  lemma {:induction false} DrainOneInStep(c: Config, rank: Rank, chain: seq<Block>, s: State)
    requires Climbing(c, rank, chain, s) && s.last in s.queue && s.height < TWO_31
    ensures Climbing(c, rank, chain + [s.queue[s.last].block], DrainOne(c, s))
  {
    var t, q := s.(queue := s.queue - {s.last}), s.queue[s.last];
    assert q == Queued(None, q.block) && Uphill(c, rank, q.block);
    AcceptKeepsInStep(c, rank, chain, t, q.block);
  }

  lemma {:induction false} DrainKeepsInStep(c: Config, rank: Rank, chain: seq<Block>, s: State)
    returns (longer: seq<Block>)
    requires Climbing(c, rank, chain, s) && DrainFits(c, s)
    ensures Climbing(c, rank, longer, Drain(c, s))
    decreases s.queue.Keys
  {
    longer := chain;
    if s.last in s.queue {
      DrainOneInStep(c, rank, chain, s);
      assert DrainOne(c, s).queue.Keys == s.queue.Keys - {s.last};
      longer := DrainKeepsInStep(c, rank, chain + [s.queue[s.last].block], DrainOne(c, s));
    }
  }

  lemma {:induction false} DeliverKeepsInStep(c: Config, rank: Rank, chain: seq<Block>, s: State, b: Block)
    returns (longer: seq<Block>)
    requires Climbing(c, rank, chain, s) && Uphill(c, rank, b) && StepFits(c, s, Deliver(b))
    ensures Climbing(c, rank, longer, OnBlock(c, s, b))
  {
    longer := chain;
    if c.hash(b.header) !in s.index && b.header.prevHash == s.last {
      AcceptKeepsInStep(c, rank, chain, s, b);
      longer := DrainKeepsInStep(c, rank, chain + [b], Accept(c, s, Queued(None, b)));
    }
  }

  lemma {:induction false} RunKeepsInStep(c: Config, rank: Rank, chain: seq<Block>, s: State, es: seq<Event>)
    returns (longer: seq<Block>)
    requires Climbing(c, rank, chain, s) && RunFits(c, s, es)
    requires forall e :: e in es ==> e.Deliver? && Uphill(c, rank, e.block)
    ensures Climbing(c, rank, longer, Run(c, s, es))
    decreases |es|
  {
    longer := chain;
    if es != [] {
      assert es[0].Deliver? && Uphill(c, rank, es[0].block);
      longer := DeliverKeepsInStep(c, rank, chain, s, es[0].block);
      longer := RunKeepsInStep(c, rank, longer, Step(c, s, es[0]), es[1..]);
    }
  }

  /** Only deliveries, of blocks above their parents, none of them taken at a height past the signed range. */
  ghost predicate OrphanFree(c: Config, rank: Rank, es: seq<Event>) {
    && RunFits(c, New(c, []), es)
    && forall e :: e in es ==> e.Deliver? && Uphill(c, rank, e.block)
  }

  /**
   * After any blocks in any order the state is that of some chain taken in order, but for what waits, and
   * if blocks are saved the file is that chain.
   */
  lemma {:induction false} OrphanFreeRunIsInStep(c: Config, rank: Rank, es: seq<Event>) returns (chain: seq<Block>)
    requires OrphanFree(c, rank, es)
    ensures InStep(c, chain, Run(c, New(c, []), es))
    ensures c.saveBlocks ==> Run(c, New(c, []), es).file == chain
  {
    chain := RunKeepsInStep(c, rank, [], New(c, []), es);
    GrownFile(c, chain, Network, |chain|);
    assert chain[..|chain|] == chain;
  }

  // ---- replaying the file ----

  /** Reading block `i` back at its offset does what its arrival did. */
  lemma {:induction false} ReadOne(c: Config, chain: seq<Block>, i: nat)
    requires c.saveBlocks && IsChain(c, chain) && i < |chain|
    ensures var s := Grown(c, chain, Network, i).(file := chain);
            Receive(c, s, Queued(Some(SizeTo(chain, i)), chain[i])) == Grown(c, chain, Network, i + 1).(file := chain)
  {
    var g := Grown(c, chain, Network, i);
    GrownFacts(c, chain, Network, i);
    GrownFile(c, chain, Network, i);
    GrownIndex(c, chain, Network, i, i + 1);
    SizeAgrees(g.file, chain, i);
    assert LinkedAt(c, chain, i);
    AcceptExtends(c, g, Queued(None, chain[i]));
  }

  lemma {:induction false} ReplayFrom(c: Config, chain: seq<Block>, i: nat)
    requires c.saveBlocks && IsChain(c, chain) && i <= |chain|
    ensures ReadFrom(c, Grown(c, chain, Network, i).(file := chain), chain, i) ==
            Grown(c, chain, Network, |chain|).(file := chain)
    decreases |chain| - i
  {
    if i < |chain| {
      ReadOne(c, chain, i);
      ReplayFrom(c, chain, i + 1);
    }
  }

  lemma {:induction false} ReplayOfChain(c: Config, chain: seq<Block>)
    requires c.saveBlocks && IsChain(c, chain)
    ensures ReadFile(c, New(c, chain), chain) == Grown(c, chain, Network, |chain|).(file := chain, queue := map[])
  {
    EmptyIsGrown(c, chain);
    ReplayFrom(c, chain, 0);
    NothingWaits(c, chain);
  }

  lemma {:induction false} EmptyIsGrown(c: Config, chain: seq<Block>)
    ensures New(c, chain) == Grown(c, chain, Network, 0).(file := chain)
  {
  }

  lemma {:induction false} NothingWaits(c: Config, chain: seq<Block>)
    requires IsChain(c, chain)
    ensures var s := Grown(c, chain, Network, |chain|); s.(file := chain) == s.(file := chain, queue := map[])
  {
    GrownFacts(c, chain, Network, |chain|);
  }

  /**
   * Restart from the file: a new manager that reads what an orphan-free run saved ends with the same
   * headers, index, height and last hash, and asks for the same rows; only what was waiting is gone.
   */
  lemma {:induction false} ReplayRebuildsState(c: Config, rank: Rank, es: seq<Event>)
    requires c.saveBlocks && OrphanFree(c, rank, es)
    ensures var s := Run(c, New(c, []), es);
            ReadFile(c, New(c, s.file), s.file) == s.(queue := map[])
  {
    var chain := OrphanFreeRunIsInStep(c, rank, es);
    ReplayOfChain(c, chain);
  }

  // ---- the table ----

  /** The table of the first `n` blocks. */
  function TableTo(c: Config, chain: seq<Block>, n: nat): map<Hash256, BlockRow>
    requires n <= |chain|
  {
    if n == 0 then map[] else TableTo(c, chain, n - 1)[TipAt(c, chain, n) := ChainRow(c, chain, Network, n - 1)]
  }

  lemma {:induction false} TableKeys(c: Config, chain: seq<Block>, n: nat, k: nat)
    requires IsChain(c, chain) && n <= |chain| && k <= |chain|
    ensures TipAt(c, chain, k) in TableTo(c, chain, n) <==> 0 < k <= n
  {
    if n > 0 {
      TableKeys(c, chain, n - 1, k);
      TipsAreDistinct(c, chain, n, k);
    }
  }

  lemma {:induction false} TableSize(c: Config, chain: seq<Block>, n: nat)
    requires IsChain(c, chain) && n <= |chain|
    ensures |TableTo(c, chain, n)| == n
  {
    if n > 0 {
      TableSize(c, chain, n - 1);
      TableKeys(c, chain, n - 1, n);
      assert TableTo(c, chain, n).Keys == TableTo(c, chain, n - 1).Keys + {TipAt(c, chain, n)};
    }
  }

  lemma {:induction false} TableRow(c: Config, chain: seq<Block>, n: nat, i: nat)
    requires IsChain(c, chain) && i < n <= |chain|
    ensures TipAt(c, chain, i + 1) in TableTo(c, chain, n)
    ensures TableTo(c, chain, n)[TipAt(c, chain, i + 1)] == ChainRow(c, chain, Network, i)
  {
    if i < n - 1 {
      TableRow(c, chain, n - 1, i);
      TipsAreDistinct(c, chain, i + 1, n);
    }
  }

  lemma {:induction false} TableOfChain(c: Config, db: Database, chain: seq<Block>, n: nat)
    requires IsChain(c, chain) && n <= |chain| && db.blocks == map[]
    ensures ApplyAll(db, ChainOps(c, chain, Network, n)).blocks == TableTo(c, chain, n)
  {
    if n > 0 {
      var row := ChainRow(c, chain, Network, n - 1);
      TableOfChain(c, db, chain, n - 1);
      TableKeys(c, chain, n - 1, n);
      InsertOne(TableTo(c, chain, n - 1), row.hash, row);
      ApplyOneMore(db, ChainOps(c, chain, Network, n - 1), BlockHeaderWrite(row));
    }
  }

  /** Sending the rows again, as a restart from the file does, changes nothing. */
  lemma {:induction false} ResendingRowsIsHarmless(c: Config, db: Database, chain: seq<Block>, n: nat)
    requires IsChain(c, chain) && n <= |chain| && db.blocks == TableTo(c, chain, |chain|)
    ensures ApplyAll(db, ChainOps(c, chain, Network, n)) == db
  {
    if n > 0 {
      var row := ChainRow(c, chain, Network, n - 1);
      ResendingRowsIsHarmless(c, db, chain, n - 1);
      ApplyOneMore(db, ChainOps(c, chain, Network, n - 1), BlockHeaderWrite(row));
      TableKeys(c, chain, |chain|, n);
      InsertOne(db.blocks, row.hash, row);
    }
  }

  // ---- loading the table ----

  /** What "SELECT * FROM blocks ORDER BY height asc" may return. */
  ghost predicate OrderedRows(table: map<Hash256, BlockRow>, rows: seq<BlockRow>) {
    && |rows| == |table|
    && (forall i :: 0 <= i < |rows| ==> rows[i].hash in table && table[rows[i].hash] == rows[i])
    && (forall i, j :: 0 <= i < j < |rows| ==> rows[i].height <= rows[j].height && rows[i].hash != rows[j].hash)
  }

  lemma {:induction false} RowOfTable(c: Config, chain: seq<Block>, n: nat, row: BlockRow) returns (i: nat)
    requires IsChain(c, chain) && n <= |chain|
    requires row.hash in TableTo(c, chain, n) && TableTo(c, chain, n)[row.hash] == row
    ensures i < n && row == ChainRow(c, chain, Network, i)
  {
    if row.hash == TipAt(c, chain, n) {
      i := n - 1;
    } else {
      i := RowOfTable(c, chain, n - 1, row);
    }
  }

  /** Sorted and complete, the rows come in chain order: row `i` is at least `i` heights up ... */
  lemma {:induction false} RowsRise(c: Config, chain: seq<Block>, rows: seq<BlockRow>, i: nat)
    requires IsChain(c, chain) && OrderedRows(TableTo(c, chain, |chain|), rows) && i < |rows|
    ensures rows[i].height >= c.startHeight + 1 + i
  {
    var k := RowOfTable(c, chain, |chain|, rows[i]);
    if i > 0 {
      var j := RowOfTable(c, chain, |chain|, rows[i - 1]);
      RowsRise(c, chain, rows, i - 1);
      assert rows[i - 1].hash != rows[i].hash;
    }
  }

  /** ... and at most as many as leave room for those after it. */
  lemma {:induction false} RowsFit(c: Config, chain: seq<Block>, rows: seq<BlockRow>, i: nat)
    requires IsChain(c, chain) && OrderedRows(TableTo(c, chain, |chain|), rows) && i < |rows|
    ensures rows[i].height <= c.startHeight + 1 + i
    decreases |rows| - i
  {
    TableSize(c, chain, |chain|);
    var k := RowOfTable(c, chain, |chain|, rows[i]);
    if i < |rows| - 1 {
      var j := RowOfTable(c, chain, |chain|, rows[i + 1]);
      RowsFit(c, chain, rows, i + 1);
      assert rows[i].hash != rows[i + 1].hash;
    }
  }

  lemma {:induction false} RowsAreChain(c: Config, chain: seq<Block>, rows: seq<BlockRow>, i: nat)
    requires IsChain(c, chain) && OrderedRows(TableTo(c, chain, |chain|), rows) && i < |rows|
    ensures i < |chain| && rows[i] == ChainRow(c, chain, Network, i)
  {
    TableSize(c, chain, |chain|);
    var k := RowOfTable(c, chain, |chain|, rows[i]);
    RowsRise(c, chain, rows, i);
    RowsFit(c, chain, rows, i);
  }

  /** `s` with the headers, index and height of another state. */
  function Taking(s: State, g: State): State {
    s.(headers := g.headers, index := g.index, height := g.height)
  }

  /** The rows as the query gives them: what was written decodes. */
  function Stored(rows: seq<BlockRow>): (r: seq<StoredRow>)
    ensures |r| == |rows|
    ensures forall i :: 0 <= i < |rows| ==> r[i] == StoredRow(rows[i].height, Some(rows[i].header))
  {
    if rows == [] then [] else [StoredRow(rows[0].height, Some(rows[0].header))] + Stored(rows[1..])
  }

  function ChainStored(c: Config, chain: seq<Block>, i: nat): StoredRow
    requires i < |chain|
  {
    StoredRow(c.startHeight + 1 + i, Some(chain[i].header))
  }

  lemma {:induction false} LoadOne(c: Config, chain: seq<Block>, i: nat, s: State)
    requires IsChain(c, chain) && i < |chain|
    ensures LoadRow(c, Taking(s, Grown(c, chain, Network, i)), ChainStored(c, chain, i)) ==
            Taking(s, Grown(c, chain, Network, i + 1))
  {
    GrownFacts(c, chain, Network, i);
    assert LinkedAt(c, chain, i);
    AcceptExtends(c, Grown(c, chain, Network, i), Queued(None, chain[i]));
  }

  /** The loading loop rebuilds headers, index and height; the tip is not its business. */
  lemma {:induction false} LoadGrows(c: Config, chain: seq<Block>, rows: seq<StoredRow>, i: nat, s: State)
    requires IsChain(c, chain) && |rows| == |chain| && i <= |chain|
    requires forall k :: 0 <= k < |rows| ==> rows[k] == ChainStored(c, chain, k)
    ensures LoadFrom(c, Taking(s, Grown(c, chain, Network, i)), rows, i) == Taking(s, Grown(c, chain, Network, |chain|))
    decreases |chain| - i
  {
    if i < |chain| {
      LoadOne(c, chain, i, s);
      LoadGrows(c, chain, rows, i + 1, s);
      assert rows[i] == ChainStored(c, chain, i);
    }
  }

  lemma {:induction false} TableLoads(c: Config, chain: seq<Block>, rows: seq<BlockRow>, file: seq<Block>)
    requires IsChain(c, chain) && OrderedRows(TableTo(c, chain, |chain|), rows)
    ensures SetupFromRows(c, New(c, file), Stored(rows)) ==
            Grown(c, chain, Network, |chain|).(queue := map[], file := file, sent := [], calls := [])
  {
    var n := |chain|;
    GrownFacts(c, chain, Network, n);
    GrownHeaders(c, chain, Network, n);
    TableSize(c, chain, n);
    forall k | 0 <= k < n ensures Stored(rows)[k] == ChainStored(c, chain, k) {
      RowsAreChain(c, chain, rows, k);
    }
    LoadGrows(c, chain, Stored(rows), 0, New(c, file));
  }

  /**
   * Restart from the database: whatever order the server gives equal heights, and whether or not blocks
   * are saved, loading the table that an orphan-free run wrote rebuilds its headers, index, height and
   * last hash.
   */
  lemma {:induction false} RowsRebuildState(c: Config, rank: Rank, db: Database, es: seq<Event>, rows: seq<BlockRow>,
                                            file: seq<Block>)
    requires OrphanFree(c, rank, es) && db.blocks == map[]
    requires OrderedRows(ApplyAll(db, Run(c, New(c, []), es).sent).blocks, rows)
    ensures var s := Run(c, New(c, []), es);
            SetupFromRows(c, New(c, file), Stored(rows)) == s.(queue := map[], file := file, sent := [], calls := [])
  {
    var chain := OrphanFreeRunIsInStep(c, rank, es);
    GrownSent(c, chain, Network, |chain|);
    TableOfChain(c, db, chain, |chain|);
    TableLoads(c, chain, rows, file);
  }

  /** A restart from the file, whose rows are sent again, leaves the database as it was. */
  lemma {:induction false} ReplayKeepsTable(c: Config, rank: Rank, db: Database, es: seq<Event>)
    requires c.saveBlocks && OrphanFree(c, rank, es) && db.blocks == map[]
    ensures var s := Run(c, New(c, []), es);
            var after := ApplyAll(db, s.sent);
            ApplyAll(after, ReadFile(c, New(c, s.file), s.file).sent) == after
  {
    var s := Run(c, New(c, []), es);
    var chain := OrphanFreeRunIsInStep(c, rank, es);
    ReplayRebuildsState(c, rank, es);
    GrownSent(c, chain, Network, |chain|);
    TableOfChain(c, db, chain, |chain|);
    ResendingRowsIsHarmless(c, ApplyAll(db, s.sent), chain, |chain|);
  }

  // ---- what the analyser sends again ----

  /** What a call makes of the transactions; `body` gives those of a block. */
  function EventOf(call: AnalyserCall, body: Block -> seq<T.Tx>): T.Event {
    match call
    case ProcessTxs(b, height) => T.Confirmed(body(b), height)
    case ForgetHeight(height) => T.Orphaned(height)
  }

  function EventsOf(calls: seq<AnalyserCall>, body: Block -> seq<T.Tx>): (r: seq<T.Event>)
    ensures |r| == |calls| && forall i :: 0 <= i < |calls| ==> r[i] == EventOf(calls[i], body)
  {
    if calls == [] then [] else [EventOf(calls[0], body)] + EventsOf(calls[1..], body)
  }

  lemma {:induction false} CallsConfirm(c: Config, rank: Rank, es: seq<Event>, body: Block -> seq<T.Tx>)
    requires OrphanFree(c, rank, es)
    ensures forall e :: e in EventsOf(Run(c, New(c, []), es).calls, body) ==> e.Confirmed? && e.height >= 0
  {
    var s := Run(c, New(c, []), es);
    var chain := OrphanFreeRunIsInStep(c, rank, es);
    GrownCalls(c, chain, Network, |chain|);
    forall e | e in EventsOf(s.calls, body) ensures e.Confirmed? && e.height >= 0 {
      var i :| 0 <= i < |s.calls| && EventsOf(s.calls, body)[i] == e;
      ChainOpsAt(c, chain, Network, |chain|, i);
    }
  }

  /**
   * A restart from the file with transactions saved: the rows and the transactions sent again change neither
   * the `blocks` nor the `tx` table, and memory knows the same transactions, if every block was recordable.
   */
  lemma {:induction false} ReplayKeepsTables(c: Config, rank: Rank, db: Database, es: seq<Event>,
                                             body: Block -> seq<T.Tx>, txs: T.State,
                                             rows: seq<(Option<Hash256>, nat)>, restarted: T.State, after: Database)
    requires c.saveBlocks && OrphanFree(c, rank, es) && db.blocks == map[]
    requires T.TxsAgree(db, txs) && txs.mempoolEntries == []
    requires T.RecordableRun(txs, EventsOf(Run(c, New(c, []), es).calls, body))
    requires after.blocks == ApplyAll(db, Run(c, New(c, []), es).sent).blocks
    requires after.tx == ApplyAll(db, T.Run(txs, true, EventsOf(Run(c, New(c, []), es).calls, body)).sent).tx
    requires restarted.txEntries == [] && restarted.mempoolEntries == [] && restarted.sent == []
    requires RowsOf(T.HeightsOf(after.tx), rows) && Loaded(map[], rows, restarted.txs)
    ensures var s := Run(c, New(c, []), es);
      var replay := ReadFile(c, New(c, s.file), s.file);
      var t := T.Run(restarted, true, EventsOf(replay.calls, body));
      && ApplyAll(after, replay.sent).blocks == after.blocks
      && ApplyAll(after, t.sent).tx == after.tx
      && t.txs == T.Run(txs, true, EventsOf(s.calls, body)).txs
  {
    var s := Run(c, New(c, []), es);
    var confirmed := EventsOf(s.calls, body);
    ReplayRebuildsState(c, rank, es);
    ReplayKeepsTable(c, rank, db, es);
    CallsConfirm(c, rank, es, body);
    T.ReplayKeepsTxs(db, txs, confirmed, confirmed, rows, restarted);
    ApplyAllSame(BlocksTable, after, ApplyAll(db, s.sent), s.sent);
    var t := T.Run(restarted, true, confirmed);
    ApplyAllSame(TxTable, after, ApplyAll(db, T.Run(txs, true, confirmed).sent), t.sent);
  }

  // ---- rows that do not decode ----

  /** The headers of the rows from `i` on, without those that do not decode. */
  function HeadersFrom(rows: seq<StoredRow>, i: nat): seq<Header>
    requires i <= |rows|
    decreases |rows| - i
  {
    if i == |rows| then []
    else (if rows[i].header.Some? then [rows[i].header.value] else []) + HeadersFrom(rows, i + 1)
  }

  lemma {:induction false} ReadableIsStored(c: Config, s: State, rows: seq<StoredRow>, i: nat)
    requires i <= |rows|
    ensures LoadFrom(c, s, rows, i).headers == s.headers + HeadersFrom(rows, i)
    decreases |rows| - i
  {
    if i < |rows| {
      ReadableIsStored(c, LoadRow(c, s, rows[i]), rows, i + 1);
    }
  }

  ghost predicate Reads(c: Config, rows: seq<StoredRow>, k: nat, h: Hash256) {
    k < |rows| && rows[k].header.Some? && c.hash(rows[k].header.value) == h
  }

  lemma {:induction false} ReadableIsIndexed(c: Config, s: State, rows: seq<StoredRow>, i: nat, h: Hash256)
    requires i <= |rows|
    ensures h in LoadFrom(c, s, rows, i).index <==> h in s.index || exists k :: i <= k && Reads(c, rows, k, h)
    decreases |rows| - i
  {
    if i < |rows| {
      ReadableIsIndexed(c, LoadRow(c, s, rows[i]), rows, i + 1, h);
      assert Reads(c, rows, i, h) <==> rows[i].header.Some? && c.hash(rows[i].header.value) == h;
    }
  }

  /** The heights are those of the last readable row. */
  lemma {:induction false} LastReadableIsHeight(c: Config, s: State, rows: seq<StoredRow>, i: nat, k: nat)
    requires i <= k < |rows| && rows[k].header.Some? && forall j :: k < j < |rows| ==> rows[j].header.None?
    ensures var t := LoadFrom(c, s, rows, i);
      var h := c.hash(rows[k].header.value);
      t.height == rows[k].height + 1 && h in t.index && t.index[h] == rows[k].height
    decreases |rows| - i
  {
    if i < k {
      LastReadableIsHeight(c, LoadRow(c, s, rows[i]), rows, i + 1, k);
    } else {
      RestIsSkipped(c, LoadRow(c, s, rows[i]), rows, i + 1);
    }
  }

  lemma {:induction false} RestIsSkipped(c: Config, s: State, rows: seq<StoredRow>, i: nat)
    requires i <= |rows| && forall j :: i <= j < |rows| ==> rows[j].header.None?
    ensures LoadFrom(c, s, rows, i) == s
    decreases |rows| - i
  {
    if i < |rows| {
      RestIsSkipped(c, s, rows, i + 1);
    }
  }

  /** A row that does not decode is skipped, and those after it are loaded all the same. */
  lemma {:induction false} UndecodableIsSkipped(c: Config, s: State, rows: seq<StoredRow>)
    ensures var t := LoadRows(c, s, rows);
      && t.headers == s.headers + HeadersFrom(rows, 0)
      && forall h :: h in t.index <==> h in s.index || exists k :: 0 <= k && Reads(c, rows, k, h)
  {
    ReadableIsStored(c, s, rows, 0);
    forall h
      ensures h in LoadRows(c, s, rows).index <==> h in s.index || exists k :: 0 <= k && Reads(c, rows, k, h)
    {
      ReadableIsIndexed(c, s, rows, 0, h);
    }
  }
}
