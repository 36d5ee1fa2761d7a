/** `Logic` of rust/src/uaas/logic.rs, updating its fields in place and driving the block manager. */
module Logics {
  import opened Common
  import opened Tables
  import opened BlockManagers
  import BlockSpec
  import opened LogicSpec

  class Logic {
    const cfg: Config
    const blockManager: BlockManager
    var state: ServerState
    var startBlockTimestamp: Option<nat>
    var sendMessageQueue: seq<Message>
    var blockInventory: seq<seq<InvVect>>

    ghost function State(): State
      reads this, blockManager
    {
      LogicSpec.State(state, blockManager.State(), startBlockTimestamp, sendMessageQueue, blockInventory)
    }

    ghost predicate Valid() {
      blockManager.cfg == cfg.blocks
    }

    constructor (cfg: Config, file: seq<BlockSpec.Block>)
      ensures Valid() && fresh(blockManager) && this.cfg == cfg
      ensures State() == LogicSpec.State(Starting, BlockSpec.New(cfg.blocks, file), None, [], [])
    {
      this.cfg := cfg;
      this.blockManager := new BlockManager(cfg.blocks, file);
      this.state := Starting;
      this.startBlockTimestamp := None;
      this.sendMessageQueue := [];
      this.blockInventory := [];
    }

    method SetState(server: ServerState)
      requires Valid()
      modifies this
      ensures State() == LogicSpec.SetState(cfg, old(State()), server)
    {
      if server == Connected {
        RequestNextBlock(None);
      }
      state := server;
    }

    method IsOrphan(timestamp: nat) returns (orphan: bool)
      requires Valid()
      modifies this`startBlockTimestamp
      ensures State() == old(State()).(startTimestamp := LogicSpec.StartTimestamp(cfg, old(State())))
      ensures orphan == LogicSpec.IsOrphan(cfg, old(State()), timestamp)
    {
      if !cfg.detectOrphans {
        return false;
      }
      if startBlockTimestamp.Some? {
        return startBlockTimestamp.value > timestamp;
      }
      var start := blockManager.GetStartBlockTimestamp();
      if start.Some? {
        startBlockTimestamp := start;
        return start.value > timestamp;
      }
      return false;
    }

    method MessageToSend() returns (msgs: seq<Message>)
      modifies this`sendMessageQueue
      ensures msgs == old(sendMessageQueue) && State() == old(State()).(outbox := [])
      ensures State() == LogicSpec.Step(cfg, old(State()), LogicSpec.MessagesTaken)
    {
      msgs := sendMessageQueue;
      sendMessageQueue := [];
    }

    method OnInv(objects: seq<InvVect>)
      requires Valid()
      modifies this
      ensures State() == LogicSpec.OnInv(cfg, old(State()), objects)
    {
      var txs := Filter(objects, TX);
      if txs != [] {
        sendMessageQueue := sendMessageQueue + [GetData(txs)];
      }
      var isEmpty := blockInventory == [];
      blockInventory := blockInventory + [Filter(objects, BLOCK)];
      if isEmpty {
        RequestNextBlock(None);
      }
    }

    method TrimEmptyInventoryFront()
      modifies this`blockInventory
      ensures blockInventory == Trim(old(blockInventory))
    {
      while blockInventory != [] && blockInventory[0] == []
        invariant Trim(blockInventory) == Trim(old(blockInventory))
      {
        blockInventory := blockInventory[1..];
      }
    }

    method RequestNextBlock(hash: Option<Hash256>)
      requires Valid()
      modifies this`blockInventory, this`sendMessageQueue
      ensures State() == RequestNext(cfg, old(State()), hash)
    {
      if hash.Some? && blockInventory != [] {
        blockInventory := blockInventory[0 := Without(blockInventory[0], hash.value)];
      }
      TrimEmptyInventoryFront();
      if blockInventory == [] {
        var tip := blockManager.GetLastKnownBlockHash();
        sendMessageQueue := sendMessageQueue + [GetBlocks(tip)];
      } else if blockInventory[0] != [] {
        sendMessageQueue := sendMessageQueue + [GetData([blockInventory[0][0]])];
      } else {
        assert false; // trimming has left no empty batch at the front
      }
    }

    method OnBlock(b: BlockSpec.Block, recent: bool)
      requires Valid()
      modifies this, blockManager
      ensures State() == LogicSpec.OnBlock(cfg, old(State()), b, recent)
    {
      var orphan := IsOrphan(b.header.timestamp);
      if orphan {
        blockInventory := [];
        blockManager.HandleOrphanBlock();
        RequestNextBlock(None);
      } else {
        blockManager.OnBlock(b);
        RequestNextBlock(Some(cfg.blocks.hash(b.header)));
      }
      if state != Ready && blockManager.blockHeaders != [] && recent {
        SetState(Ready);
      }
    }
  }
}
