/** The block manager of rust/src/uaas/block_manager.rs, updating its fields in place. */
module BlockManagers {
  import opened Common
  import opened Tables
  import opened BlockSpec

  class BlockManager {
    const cfg: Config
    var blockHeaders: seq<Header>
    var hashToIndex: map<Hash256, nat>
    var lastHashProcessed: Hash256
    var height: nat
    var blockQueue: map<Hash256, Queued>
    /** The block file, the channel to the database and the calls made on the analyser. */
    var file: seq<Block>
    var sent: seq<Op>
    var calls: seq<AnalyserCall>

    ghost function State(): State
      reads this
    {
      BlockSpec.State(blockHeaders, hashToIndex, lastHashProcessed, height, blockQueue, file, sent, calls)
    }

    constructor (cfg: Config, file: seq<Block>)
      ensures this.cfg == cfg && State() == New(cfg, file)
    {
      this.cfg := cfg;
      this.blockHeaders := [];
      this.hashToIndex := map[];
      this.height := cfg.startHeight + 1;
      this.lastHashProcessed := cfg.startHash;
      this.blockQueue := map[];
      this.file := file;
      this.sent := [];
      this.calls := [];
    }

    method WriteBlockToFile(b: Block) returns (position: nat)
      modifies this`file
      ensures (State(), position) == WriteFile(cfg, old(State()), b)
    {
      if !cfg.saveBlocks {
        return 0;
      }
      position := FileSize(file);
      file := file + [b];
    }

    method WriteBlockheaderToDatabase(b: Block, position: nat)
      modifies this`sent
      ensures State() == WriteRow(cfg, old(State()), b, position)
    {
      if cfg.hash(b.header) !in hashToIndex {
        sent := sent + [BlockHeaderWrite(RowOf(cfg, b, height, position))];
      }
    }

    method ProcessBlock(b: Block)
      modifies this
      ensures State() == BlockSpec.ProcessBlock(cfg, old(State()), b)
    {
      var hash := cfg.hash(b.header);
      if lastHashProcessed != b.header.prevHash {
        return;
      }
      lastHashProcessed := hash;
      if height >= TWO_31 {
        return;
      }
      calls := calls + [ProcessTxs(b, height)];
      hashToIndex := hashToIndex[hash := height];
      blockHeaders := blockHeaders + [b.header];
      height := height + 1;
    }

    /** The waiting blocks whose turn has come, one after the other. */
    method ProcessBlockQueue()
      modifies this
      ensures State() == Drain(cfg, old(State()))
    {
      while lastHashProcessed in blockQueue
        invariant Drain(cfg, State()) == Drain(cfg, old(State()))
        decreases blockQueue.Keys
      {
        ghost var before := State();
        var blockWithPos := blockQueue[lastHashProcessed];
        blockQueue := blockQueue - {lastHashProcessed};
        var b := blockWithPos.block;
        var pos;
        if blockWithPos.position.Some? {
          pos := blockWithPos.position.value;
        } else {
          pos := WriteBlockToFile(b);
        }
        WriteBlockheaderToDatabase(b, pos);
        ProcessBlock(b);
        assert State() == DrainOne(cfg, before);
        assert blockQueue.Keys == before.queue.Keys - {before.last};
      }
    }

    method ProcessReadBlock(b: Block, position: nat)
      modifies this
      ensures State() == Receive(cfg, old(State()), Queued(Some(position), b))
    {
      if cfg.hash(b.header) !in hashToIndex {
        if lastHashProcessed == b.header.prevHash {
          WriteBlockheaderToDatabase(b, position);
          ProcessBlock(b);
          ProcessBlockQueue();
        } else if b.header.prevHash !in blockQueue {
          blockQueue := blockQueue[b.header.prevHash := Queued(Some(position), b)];
        }
      }
    }

    method OnBlock(b: Block)
      modifies this
      ensures State() == BlockSpec.OnBlock(cfg, old(State()), b)
    {
      if cfg.hash(b.header) !in hashToIndex {
        if b.header.prevHash == lastHashProcessed {
          var pos := WriteBlockToFile(b);
          WriteBlockheaderToDatabase(b, pos);
          ProcessBlock(b);
          ProcessBlockQueue();
        } else if b.header.prevHash !in blockQueue {
          blockQueue := blockQueue[b.header.prevHash := Queued(None, b)];
        }
      }
    }

    /** A manager that has a header has a height of at least one (`Standing` in ChainState). */
    method HandleOrphanBlock()
      modifies this
      ensures State() == HandleOrphan(cfg, old(State()))
    {
      blockQueue := map[];
      if blockHeaders != [] {
        var header := Last(blockHeaders);
        var hash := cfg.hash(header);
        blockHeaders := blockHeaders[..|blockHeaders| - 1];
        hashToIndex := hashToIndex - {hash};
        sent := sent + [OrphanBlockHeaderWrite(OrphanRow(height, hash, header)), BlockHeaderDelete(hash)];
        calls := calls + [ForgetHeight(height)];
        height := if height > 0 then height - 1 else 0;
      }
    }

    /** The file is read from its start; nothing is written to it meanwhile. */
    method ReadBlocksFromFile()
      modifies this
      ensures State() == ReadFile(cfg, old(State()), old(file))
    {
      var blocks := file;
      var position: nat := 0;
      for i := 0 to |blocks|
        invariant position == SizeTo(blocks, i)
        invariant ReadFrom(cfg, State(), blocks, i) == ReadFile(cfg, old(State()), blocks)
      {
        ProcessReadBlock(blocks[i], position);
        position := position + blocks[i].size;
      }
    }

    method LoadBlockheadersFromDatabase(rows: seq<StoredRow>)
      modifies this
      ensures State() == LoadRows(cfg, old(State()), rows)
    {
      for i := 0 to |rows|
        invariant LoadFrom(cfg, State(), rows, i) == LoadRows(cfg, old(State()), rows)
      {
        if rows[i].header.None? {
          continue;
        }
        var header := rows[i].header.value;
        hashToIndex := hashToIndex[cfg.hash(header) := rows[i].height];
        blockHeaders := blockHeaders + [header];
        height := rows[i].height + 1;
      }
    }

    /** `setup`; `rows` is what the query for the `blocks` table ordered by height returns. */
    method Setup(fromDatabase: bool, rows: seq<StoredRow>)
      modifies this
      ensures State() == if fromDatabase then SetupFromRows(cfg, old(State()), rows)
                         else ReadFile(cfg, old(State()), old(file))
    {
      if fromDatabase {
        LoadBlockheadersFromDatabase(rows);
        if blockHeaders != [] {
          lastHashProcessed := cfg.hash(Last(blockHeaders));
        }
      } else {
        ReadBlocksFromFile();
      }
    }

    method GetLastKnownBlockHash() returns (h: Hash256)
      ensures h == TipHash(cfg, blockHeaders)
    {
      if blockHeaders == [] {
        return cfg.startHash;
      }
      return cfg.hash(Last(blockHeaders));
    }

    method GetStartBlockTimestamp() returns (t: Option<nat>)
      ensures t == StartTimestamp(cfg, blockHeaders)
      ensures t.Some? <==> |blockHeaders| > cfg.threshold
      ensures t.Some? ==> (forall h :: h in blockHeaders ==> t.value <= h.timestamp) &&
                          (exists h :: h in blockHeaders && h.timestamp == t.value)
    {
      if |blockHeaders| <= cfg.threshold {
        return None;
      }
      var min := blockHeaders[0].timestamp;
      for i := 1 to |blockHeaders|
        invariant min == MinTimestamp(blockHeaders, i)
      {
        if blockHeaders[i].timestamp < min {
          min := blockHeaders[i].timestamp;
        }
      }
      return Some(min);
    }
  }
}
