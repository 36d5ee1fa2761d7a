/** What the protocol logic does on each event (rust/src/uaas/logic.rs), and the discipline of its inventory. */
module LogicSpec {
  import opened Common
  import opened Tables
  import BlockSpec

  datatype ServerState = Starting | Disconnected | Connected | Ready

  const TX := 1
  const BLOCK := 2

  datatype InvVect = InvVect(objType: nat, hash: Hash256)

  /** `GetBlocks` carries a locator with one hash. */
  datatype Message = GetData(objects: seq<InvVect>) | GetBlocks(locator: Hash256)

  datatype Config = Config(blocks: BlockSpec.Config, detectOrphans: bool)

  datatype State = State(
    server: ServerState,
    bm: BlockSpec.State,
    startTimestamp: Option<nat>,
    outbox: seq<Message>,
    inventory: seq<seq<InvVect>>)

  function Filter(objects: seq<InvVect>, objType: nat): seq<InvVect> {
    if objects == [] then []
    else (if objects[0].objType == objType then [objects[0]] else []) + Filter(objects[1..], objType)
  }

  /** `entries.retain(|block| block.hash != hash)`. */
  function Without(entries: seq<InvVect>, hash: Hash256): (r: seq<InvVect>)
    ensures |r| <= |entries|
  {
    if entries == [] then []
    else (if entries[0].hash != hash then [entries[0]] else []) + Without(entries[1..], hash)
  }

  /** `trim_empty_inventory_front`. */
  function Trim(inventory: seq<seq<InvVect>>): (r: seq<seq<InvVect>>)
    ensures r != [] ==> r[0] != []
  {
    if inventory != [] && inventory[0] == [] then Trim(inventory[1..]) else inventory
  }

  /** `request_next_block`. */
  function RequestNext(c: Config, s: State, hash: Option<Hash256>): State {
    var left :=
      if hash.Some? && s.inventory != [] then s.inventory[0 := Without(s.inventory[0], hash.value)] else s.inventory;
    var inventory := Trim(left);
    var ask :=
      if inventory == [] then GetBlocks(BlockSpec.TipHash(c.blocks, s.bm.headers)) else GetData([inventory[0][0]]);
    s.(inventory := inventory, outbox := s.outbox + [ask])
  }

  function SetState(c: Config, s: State, server: ServerState): State {
    (if server == Connected then RequestNext(c, s, None) else s).(server := server)
  }

  function OnInv(c: Config, s: State, objects: seq<InvVect>): State {
    var txs := Filter(objects, TX);
    var s' := s.(outbox := if txs != [] then s.outbox + [GetData(txs)] else s.outbox,
                 inventory := s.inventory + [Filter(objects, BLOCK)]);
    if s.inventory == [] then RequestNext(c, s', None) else s'
  }

  /** The timestamp against which orphans are detected: fixed the first time there are enough headers. */
  function StartTimestamp(c: Config, s: State): Option<nat> {
    if !c.detectOrphans || s.startTimestamp.Some? then s.startTimestamp
    else BlockSpec.StartTimestamp(c.blocks, s.bm.headers)
  }

  predicate IsOrphan(c: Config, s: State, timestamp: nat) {
    c.detectOrphans && StartTimestamp(c, s).Some? && StartTimestamp(c, s).value > timestamp
  }

  /** `recent` tells whether the last header is less than ten minutes old by the clock. */
  function OnBlock(c: Config, s: State, b: BlockSpec.Block, recent: bool): State {
    var s0 := s.(startTimestamp := StartTimestamp(c, s));
    var s1 :=
      if IsOrphan(c, s, b.header.timestamp) then
        RequestNext(c, s0.(inventory := [], bm := BlockSpec.HandleOrphan(c.blocks, s.bm)), None)
      else
        RequestNext(c, s0.(bm := BlockSpec.OnBlock(c.blocks, s.bm, b)), Some(c.blocks.hash(b.header)));
    if s1.server != Ready && s1.bm.headers != [] && recent then SetState(c, s1, Ready) else s1
  }

  datatype Event =
    | StateChanged(server: ServerState)
    | InvCame(objects: seq<InvVect>)
    | BlockCame(block: BlockSpec.Block, recent: bool)
    | MessagesTaken

  function Step(c: Config, s: State, e: Event): State {
    match e
    case StateChanged(server) => SetState(c, s, server)
    case InvCame(objects) => OnInv(c, s, objects)
    case BlockCame(b, recent) => OnBlock(c, s, b, recent)
    case MessagesTaken => s.(outbox := [])
  }

  function Run(c: Config, s: State, es: seq<Event>): State
    decreases |es|
  {
    if es == [] then s else Run(c, Step(c, s, es[0]), es[1..])
  }

  // ---- orphan detection ----

  /** Once fixed, the timestamp that orphans are compared with never changes. */
  lemma {:induction false} StartTimestampStays(c: Config, s: State, es: seq<Event>)
    requires s.startTimestamp.Some?
    ensures Run(c, s, es).startTimestamp == s.startTimestamp
    decreases |es|
  {
    if es != [] {
      assert Step(c, s, es[0]).startTimestamp == s.startTimestamp;
      StartTimestampStays(c, Step(c, s, es[0]), es[1..]);
    }
  }

  /** The first block ever compared is an orphan exactly when it is older than each of more than `threshold` headers. */
  lemma {:induction false} FirstOrphanIff(c: Config, s: State, timestamp: nat)
    requires s.startTimestamp.None?
    ensures IsOrphan(c, s, timestamp) <==>
              && c.detectOrphans && |s.bm.headers| > c.blocks.threshold
              && forall i :: 0 <= i < |s.bm.headers| ==> timestamp < s.bm.headers[i].timestamp
  {
    var headers := s.bm.headers;
    if |headers| > c.blocks.threshold {
      var min := BlockSpec.MinTimestamp(headers, |headers|);
      var i :| 0 <= i < |headers| && headers[i].timestamp == min;
    }
  }

  /** Every later comparison is with the timestamp that the first fixed. */
  lemma {:induction false} KnownStartDecides(c: Config, s: State, timestamp: nat)
    requires s.startTimestamp.Some?
    ensures IsOrphan(c, s, timestamp) <==> c.detectOrphans && timestamp < s.startTimestamp.value
  {
  }

  /**
   * Over runs: once a block has been compared with more than `threshold` headers, whatever happens next, a
   * block is an orphan exactly when it is older than each header there was then.
   */
  lemma {:induction false} LaterOrphanIff(c: Config, s: State, b: BlockSpec.Block, recent: bool, es: seq<Event>,
                                          timestamp: nat)
    requires c.detectOrphans && s.startTimestamp.None? && |s.bm.headers| > c.blocks.threshold
    ensures IsOrphan(c, Run(c, OnBlock(c, s, b, recent), es), timestamp) <==>
            forall i :: 0 <= i < |s.bm.headers| ==> timestamp < s.bm.headers[i].timestamp
  {
    var t := OnBlock(c, s, b, recent);
    assert t.startTimestamp == StartTimestamp(c, s);
    StartTimestampStays(c, t, es);
    KnownStartDecides(c, Run(c, t, es), timestamp);
    FirstOrphanIff(c, s, timestamp);
  }

  /** A comparison without enough headers, or with detection off, fixes nothing. */
  lemma {:induction false} TooFewFixNothing(c: Config, s: State, b: BlockSpec.Block, recent: bool)
    requires !c.detectOrphans || |s.bm.headers| <= c.blocks.threshold
    ensures OnBlock(c, s, b, recent).startTimestamp == s.startTimestamp
  {
  }

  /** The block is older than what blocks are compared with: the known start, or each of enough headers. */
  ghost predicate Older(c: Config, s: State, timestamp: nat) {
    c.detectOrphans &&
    match s.startTimestamp
    case Some(start) => timestamp < start
    case None =>
      && |s.bm.headers| > c.blocks.threshold
      && forall i :: 0 <= i < |s.bm.headers| ==> timestamp < s.bm.headers[i].timestamp
  }

  lemma {:induction false} OrphanIffOlder(c: Config, s: State, timestamp: nat)
    ensures IsOrphan(c, s, timestamp) <==> Older(c, s, timestamp)
  {
    if s.startTimestamp.None? {
      FirstOrphanIff(c, s, timestamp);
    }
  }

  /** The hash a GetBlocks names: the last header's or the start hash. */
  function Tip(c: Config, headers: seq<Header>): Hash256 {
    if headers == [] then c.blocks.startHash else c.blocks.hash(headers[|headers| - 1])
  }

  /**
   * An older block is not stored: the last header, if there is one, goes with its index entry and everything
   * that waited or was announced, its row is sent from `blocks` to `orphans`, the analyser is told, and the
   * one message asks for blocks from the header before it.
   */
  lemma {:induction false} OlderBlockRollsBack(c: Config, s: State, b: BlockSpec.Block, recent: bool)
    requires Older(c, s, b.header.timestamp)
    ensures var t := OnBlock(c, s, b, recent);
      && t.inventory == [] && t.bm.queue == map[] && t.bm.last == s.bm.last && t.bm.file == s.bm.file
      && t.outbox == s.outbox + [GetBlocks(Tip(c, t.bm.headers))]
      && (s.bm.headers == [] ==> t.bm == s.bm.(queue := map[]))
      && (s.bm.headers != [] ==>
            var last := s.bm.headers[|s.bm.headers| - 1];
            var h, height := c.blocks.hash(last), s.bm.height;
            && s.bm.headers == t.bm.headers + [last]
            && t.bm.index == s.bm.index - {h}
            && t.bm.sent == s.bm.sent + [OrphanBlockHeaderWrite(OrphanRow(height, h, last)), BlockHeaderDelete(h)]
            && t.bm.calls == s.bm.calls + [BlockSpec.ForgetHeight(height)]
            && t.bm.height == (if height == 0 then 0 else height - 1))
  {
    OrphanIffOlder(c, s, b.header.timestamp);
  }

  /** The state once the manager has the block, before anything is asked. */
  function Taken(c: Config, s: State, b: BlockSpec.Block): State {
    s.(startTimestamp := StartTimestamp(c, s), bm := BlockSpec.OnBlock(c.blocks, s.bm, b))
  }

  /** Without an orphan a block goes to the manager and the next one is asked for; readiness asks nothing. */
  lemma {:induction false} BlockIsTaken(c: Config, s: State, b: BlockSpec.Block, recent: bool)
    requires !IsOrphan(c, s, b.header.timestamp)
    ensures var t, u := OnBlock(c, s, b, recent), RequestNext(c, Taken(c, s, b), Some(c.blocks.hash(b.header)));
            t == u.(server := t.server)
  {
  }

  /** What is left of the inventory once the block of hash `h` has come. */
  function Left(inventory: seq<seq<InvVect>>, h: Hash256): seq<seq<InvVect>> {
    if inventory == [] then [] else [Without(inventory[0], h)] + inventory[1..]
  }

  /** Any other block is given to the manager, and what was announced, but for it, is asked for next. */
  lemma {:induction false} OtherBlockIsTaken(c: Config, s: State, b: BlockSpec.Block, recent: bool)
    requires !Older(c, s, b.header.timestamp)
    ensures var t := OnBlock(c, s, b, recent);
      && t.bm == BlockSpec.OnBlock(c.blocks, s.bm, b)
      && AsksFor(c, s.outbox, t, Left(s.inventory, c.blocks.hash(b.header)))
  {
    OrphanIffOlder(c, s, b.header.timestamp);
    BlockIsTaken(c, s, b, recent);
    NextIsAskedFor(c, Taken(c, s, b), c.blocks.hash(b.header));
    SameAnswer(c, s.outbox, RequestNext(c, Taken(c, s, b), Some(c.blocks.hash(b.header))), OnBlock(c, s, b, recent),
               Left(s.inventory, c.blocks.hash(b.header)));
  }

  /** Of `left` the empty batches at the front go; the first entry of the rest, or more, is asked for. */
  ghost predicate AsksFor(c: Config, outbox: seq<Message>, t: State, left: seq<seq<InvVect>>) {
    exists k :: DropsTo(c, outbox, t, left, k)
  }

  ghost predicate DropsTo(c: Config, outbox: seq<Message>, t: State, left: seq<seq<InvVect>>, k: nat) {
    && k <= |left| && t.inventory == left[k..] && (forall i :: 0 <= i < k ==> left[i] == [])
    && (k < |left| ==> left[k] != [] && t.outbox == outbox + [GetData([left[k][0]])])
    && (k == |left| ==> t.outbox == outbox + [GetBlocks(Tip(c, t.bm.headers))])
  }

  lemma {:induction false} SameAnswer(c: Config, outbox: seq<Message>, t: State, u: State, left: seq<seq<InvVect>>)
    requires AsksFor(c, outbox, t, left) && u == t.(server := u.server)
    ensures AsksFor(c, outbox, u, left)
  {
    var k :| DropsTo(c, outbox, t, left, k);
    assert DropsTo(c, outbox, u, left, k);
  }

  /** Connecting asks for what is open, or for more; any other change of state asks nothing. */
  lemma {:induction false} OnlyConnectingAsks(c: Config, s: State, server: ServerState)
    ensures var t := SetState(c, s, server);
      && t == s.(server := server, outbox := t.outbox, inventory := t.inventory)
      && (server == Connected ==> AsksFor(c, s.outbox, t, s.inventory))
      && (server != Connected ==> t.outbox == s.outbox && t.inventory == s.inventory)
  {
    if server == Connected {
      var k := TrimDrops(s.inventory);
      assert DropsTo(c, s.outbox, SetState(c, s, server), s.inventory, k);
    }
  }

  lemma {:induction false} TrimDrops(inventory: seq<seq<InvVect>>) returns (k: nat)
    ensures k <= |inventory| && Trim(inventory) == inventory[k..] && (k < |inventory| ==> inventory[k] != [])
    ensures forall i :: 0 <= i < k ==> inventory[i] == []
  {
    k := 0;
    if inventory != [] && inventory[0] == [] {
      var j := TrimDrops(inventory[1..]);
      k := j + 1;
      assert inventory[1..][j..] == inventory[k..];
      forall i | 0 <= i < k ensures inventory[i] == [] {
        assert i > 0 ==> inventory[i] == inventory[1..][i - 1];
      }
    }
  }

  lemma {:induction false} NextIsAskedFor(c: Config, s: State, h: Hash256)
    ensures AsksFor(c, s.outbox, RequestNext(c, s, Some(h)), Left(s.inventory, h))
  {
    if s.inventory != [] {
      assert s.inventory[0 := Without(s.inventory[0], h)] == Left(s.inventory, h);
    }
    var k := TrimDrops(Left(s.inventory, h));
    assert DropsTo(c, s.outbox, RequestNext(c, s, Some(h)), Left(s.inventory, h), k);
  }

  lemma {:induction false} Append3(a: seq<InvVect>, b: seq<InvVect>, c: seq<InvVect>)
    ensures a + (b + c) == a + b + c
  {
  }

  /** Only the entries with the hash go ... */
  lemma {:induction false} WithoutIsExact(entries: seq<InvVect>, hash: Hash256, o: InvVect)
    ensures o in Without(entries, hash) <==> o in entries && o.hash != hash
  {
    if entries != [] {
      WithoutIsExact(entries[1..], hash, o);
    }
  }

  /** ... and the rest keep their order. */
  lemma {:induction false} WithoutAppends(a: seq<InvVect>, b: seq<InvVect>, hash: Hash256)
    ensures Without(a + b, hash) == Without(a, hash) + Without(b, hash)
  {
    if a == [] {
      assert a + b == b;
    } else {
      WithoutAppends(a[1..], b, hash);
      assert (a + b)[1..] == a[1..] + b;
      var head := if a[0].hash != hash then [a[0]] else [];
      Append3(head, Without(a[1..], hash), Without(b, hash));
    }
  }

  // ---- inventory discipline ----

  /** There is nothing to fetch, or the first batch has something in it. */
  predicate FrontOk(inventory: seq<seq<InvVect>>) {
    inventory == [] || inventory[0] != []
  }

  /** So the branch of `request_next_block` for a stale first entry is never taken in any run. */
  lemma {:induction false} RunKeepsFrontOk(c: Config, s: State, es: seq<Event>)
    requires FrontOk(s.inventory)
    ensures FrontOk(Run(c, s, es).inventory)
    decreases |es|
  {
    if es != [] {
      assert FrontOk(Step(c, s, es[0]).inventory);
      RunKeepsFrontOk(c, Step(c, s, es[0]), es[1..]);
    }
  }

  function Total(inventory: seq<seq<InvVect>>): nat {
    if inventory == [] then 0 else |inventory[0]| + Total(inventory[1..])
  }

  lemma {:induction false} TrimKeepsTotal(inventory: seq<seq<InvVect>>)
    ensures Total(Trim(inventory)) == Total(inventory)
  {
    if inventory != [] && inventory[0] == [] {
      TrimKeepsTotal(inventory[1..]);
    }
  }

  lemma {:induction false} WithoutShrinks(entries: seq<InvVect>, i: nat)
    requires i < |entries|
    ensures |Without(entries, entries[i].hash)| < |entries|
  {
    if i > 0 {
      WithoutShrinks(entries[1..], i - 1);
    }
  }

  /** What is asked for next: more announcements exactly when nothing announced is left to fetch. */
  lemma {:induction false} RequestAsksOnce(c: Config, s: State, hash: Option<Hash256>)
    ensures var t := RequestNext(c, s, hash);
      && |t.outbox| == |s.outbox| + 1 && t.outbox[..|s.outbox|] == s.outbox
      && FrontOk(t.inventory)
      && (t.inventory == [] <==> Last(t.outbox) == GetBlocks(BlockSpec.TipHash(c.blocks, s.bm.headers)))
      && (t.inventory != [] ==> Last(t.outbox) == GetData([t.inventory[0][0]]))
      && Total(t.inventory) <= Total(s.inventory)
  {
    if hash.Some? && s.inventory != [] {
      var left := s.inventory[0 := Without(s.inventory[0], hash.value)];
      TrimKeepsTotal(left);
      assert left[1..] == s.inventory[1..];
    } else {
      TrimKeepsTotal(s.inventory);
    }
  }

  /** The block that was asked for, once delivered, leaves fewer announced entries to fetch. */
  lemma {:induction false} RequestedBlockShrinksInventory(c: Config, s: State, b: BlockSpec.Block, recent: bool)
    requires s.inventory != [] && s.inventory[0] != []
    requires c.blocks.hash(b.header) == s.inventory[0][0].hash
    ensures Total(OnBlock(c, s, b, recent).inventory) < Total(s.inventory)
  {
    var left := s.inventory[0 := Without(s.inventory[0], s.inventory[0][0].hash)];
    WithoutShrinks(s.inventory[0], 0);
    TrimKeepsTotal(left);
    assert left[1..] == s.inventory[1..];
    if IsOrphan(c, s, b.header.timestamp) {
      assert OnBlock(c, s, b, recent).inventory == [];
    } else {
      assert OnBlock(c, s, b, recent).inventory == Trim(left);
    }
  }

  // ---- what is asked ----

  lemma {:induction false} FilterIsExact(objects: seq<InvVect>, objType: nat, o: InvVect)
    ensures o in Filter(objects, objType) <==> o in objects && o.objType == objType
  {
    if objects != [] {
      FilterIsExact(objects[1..], objType, o);
    }
  }

  /** The objects of one type, in their order. */
  lemma {:induction false} FilterAppends(a: seq<InvVect>, b: seq<InvVect>, objType: nat)
    ensures Filter(a + b, objType) == Filter(a, objType) + Filter(b, objType)
  {
    if a == [] {
      assert a + b == b;
    } else {
      FilterAppends(a[1..], b, objType);
      assert (a + b)[1..] == a[1..] + b;
      var head := if a[0].objType == objType then [a[0]] else [];
      Append3(head, Filter(a[1..], objType), Filter(b, objType));
    }
  }

  /**
   * An announcement is answered by asking for its transactions, if any, and then, only if nothing was open,
   * for its first block, or for more from the tip if it has none; otherwise its blocks wait behind those
   * announced before.
   */
  lemma {:induction false} InvIsAnswered(c: Config, s: State, objects: seq<InvVect>)
    ensures var t, txs, blocks := OnInv(c, s, objects), Filter(objects, TX), Filter(objects, BLOCK);
      var asked := if txs != [] then s.outbox + [GetData(txs)] else s.outbox;
      && t == s.(outbox := t.outbox, inventory := t.inventory)
      && (s.inventory != [] ==> t.outbox == asked && t.inventory == s.inventory + [blocks])
      && (s.inventory == [] && blocks != [] ==>
            t.outbox == asked + [GetData([blocks[0]])] && t.inventory == [blocks])
      && (s.inventory == [] && blocks == [] ==>
            t.outbox == asked + [GetBlocks(Tip(c, s.bm.headers))] && t.inventory == [])
    ensures forall o :: o in Filter(objects, TX) <==> o in objects && o.objType == TX
    ensures forall o :: o in Filter(objects, BLOCK) <==> o in objects && o.objType == BLOCK
  {
    forall o ensures o in Filter(objects, TX) <==> o in objects && o.objType == TX
             ensures o in Filter(objects, BLOCK) <==> o in objects && o.objType == BLOCK {
      FilterIsExact(objects, TX, o);
      FilterIsExact(objects, BLOCK, o);
    }
    if s.inventory == [] {
      var one := [Filter(objects, BLOCK)];
      assert s.inventory + one == one && one[1..] == [];
      assert Trim(one) == if one[0] == [] then Trim([]) else one;
    }
  }

  /** A block is answered by one message, becoming ready by none; ready is never left for a block. */
  lemma {:induction false} BlockIsAnsweredOnce(c: Config, s: State, b: BlockSpec.Block, recent: bool)
    ensures var t := OnBlock(c, s, b, recent);
      && |t.outbox| == |s.outbox| + 1 && t.outbox[..|s.outbox|] == s.outbox
      && (t.server == Ready <==> s.server == Ready || (recent && t.bm.headers != []))
      && (t.server != Ready ==> t.server == s.server)
  {
  }
}
