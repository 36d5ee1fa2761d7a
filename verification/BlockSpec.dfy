/**
 * What the block manager does to its state, event by event (rust/src/uaas/block_manager.rs).
 *
 * The header hash is a parameter: nothing is assumed about it unless a theorem says so.
 */
module BlockSpec {
  import opened Common
  import opened Tables

  type HeaderHash = Header -> Hash256

  /** A block as received; `size` is what `Block::size` returns, `numTxs` the length of its list of transactions. */
  datatype Block = Block(header: Header, txns: seq<Hash256>, size: nat)

  /** A block waiting for its parent, with its offset when it was read from the block file. */
  datatype Queued = Queued(position: Option<nat>, block: Block)

  /** What the manager asks of the transaction analyser. */
  datatype AnalyserCall = ProcessTxs(block: Block, height: nat) | ForgetHeight(height: nat)

  datatype Config = Config(hash: HeaderHash, startHash: Hash256, startHeight: nat, saveBlocks: bool, threshold: nat)

  datatype State = State(
    headers: seq<Header>,
    index: map<Hash256, nat>,
    last: Hash256,
    height: nat,
    queue: map<Hash256, Queued>,
    file: seq<Block>,
    sent: seq<Op>,
    calls: seq<AnalyserCall>)

  /** A manager as `BlockManager::new` leaves it, beside a block file that may already hold blocks. */
  function New(c: Config, file: seq<Block>): State {
    State([], map[], c.startHash, c.startHeight + 1, map[], file, [], [])
  }

  /** Blocks lie in the file one after the other: the size of the first `n`. */
  function SizeTo(file: seq<Block>, n: nat): nat
    requires n <= |file|
  {
    if n == 0 then 0 else SizeTo(file, n - 1) + file[n - 1].size
  }

  function FileSize(file: seq<Block>): nat {
    SizeTo(file, |file|)
  }

  function RowOf(c: Config, b: Block, height: nat, position: nat): BlockRow {
    BlockRow(height, c.hash(b.header), b.header, position, b.size % TWO_32, |b.txns| % TWO_32)
  }

  /** `write_block_to_file`: the offset is that of the old end of the file. */
  function WriteFile(c: Config, s: State, b: Block): (State, nat) {
    if c.saveBlocks then (s.(file := s.file + [b]), FileSize(s.file)) else (s, 0)
  }

  /** `write_blockheader_to_database`. */
  function WriteRow(c: Config, s: State, b: Block, position: nat): State {
    if c.hash(b.header) in s.index then s
    else s.(sent := s.sent + [BlockHeaderWrite(RowOf(c, b, s.height, position))])
  }

  /** `process_block`: a height past the signed range moves the tip but stores nothing. */
  function ProcessBlock(c: Config, s: State, b: Block): State {
    if s.last != b.header.prevHash then s
    else if s.height >= TWO_31 then s.(last := c.hash(b.header))
    else s.(last := c.hash(b.header),
            calls := s.calls + [ProcessTxs(b, s.height)],
            index := s.index[c.hash(b.header) := s.height],
            headers := s.headers + [b.header],
            height := s.height + 1)
  }

  /** File, row, chain: the three steps taken with every block whose turn has come. */
  function Accept(c: Config, s: State, q: Queued): (r: State)
    ensures r.queue == s.queue
  {
    var (s', position) := if q.position.Some? then (s, q.position.value) else WriteFile(c, s, q.block);
    ProcessBlock(c, WriteRow(c, s', q.block, position), q.block)
  }

  /** One turn of the loop of `process_block_queue`. */
  function DrainOne(c: Config, s: State): (r: State)
    requires s.last in s.queue
    ensures r.queue == s.queue - {s.last}
  {
    Accept(c, s.(queue := s.queue - {s.last}), s.queue[s.last])
  }

  /** `process_block_queue`. */
  function Drain(c: Config, s: State): State
    decreases s.queue.Keys
  {
    if s.last in s.queue then
      assert DrainOne(c, s).queue.Keys == s.queue.Keys - {s.last};
      Drain(c, DrainOne(c, s))
    else s
  }

  /** `on_block` (no position) and `process_read_block` (with the offset in the file). */
  function Receive(c: Config, s: State, q: Queued): State {
    if c.hash(q.block.header) in s.index then s
    else if q.block.header.prevHash == s.last then Drain(c, Accept(c, s, q))
    else if q.block.header.prevHash in s.queue then s
    else s.(queue := s.queue[q.block.header.prevHash := q])
  }

  function OnBlock(c: Config, s: State, b: Block): State {
    Receive(c, s, Queued(None, b))
  }

  /** `handle_orphan_block`: the last header goes, the hash of the tip stays. */
  function HandleOrphan(c: Config, s: State): State {
    var s' := s.(queue := map[]);
    if s.headers == [] then s'
    else
      var header := Last(s.headers);
      var hash := c.hash(header);
      s'.(headers := s.headers[..|s.headers| - 1],
          index := s.index - {hash},
          sent := s.sent + [OrphanBlockHeaderWrite(OrphanRow(s.height, hash, header)), BlockHeaderDelete(hash)],
          calls := s.calls + [ForgetHeight(s.height)],
          height := if s.height > 0 then s.height - 1 else 0)
  }

  /** `get_last_known_block_hash`. */
  function TipHash(c: Config, headers: seq<Header>): Hash256 {
    if headers == [] then c.startHash else c.hash(Last(headers))
  }

  function MinTimestamp(headers: seq<Header>, n: nat): (r: nat)
    requires 0 < n <= |headers|
    ensures exists i :: 0 <= i < n && headers[i].timestamp == r
    ensures forall i :: 0 <= i < n ==> r <= headers[i].timestamp
  {
    if n == 1 then headers[0].timestamp else Min(MinTimestamp(headers, n - 1), headers[n - 1].timestamp)
  }

  /** `get_start_block_timestamp`: the smallest timestamp, once there are enough headers. */
  function StartTimestamp(c: Config, headers: seq<Header>): Option<nat> {
    if |headers| > c.threshold then Some(MinTimestamp(headers, |headers|)) else None
  }

  /** `read_blocks_from_file`, from block `i` on: each block comes with the offset it was read at. */
  function ReadFrom(c: Config, s: State, blocks: seq<Block>, i: nat): State
    requires i <= |blocks|
    decreases |blocks| - i
  {
    if i == |blocks| then s
    else ReadFrom(c, Receive(c, s, Queued(Some(SizeTo(blocks, i)), blocks[i])), blocks, i + 1)
  }

  function ReadFile(c: Config, s: State, blocks: seq<Block>): State {
    ReadFrom(c, s, blocks, 0)
  }

  /** A row of the query; the header is None where the text of its previous hash or Merkle root does not decode. */
  datatype StoredRow = StoredRow(height: nat, header: Option<Header>)

  /** One turn of the loop of `load_blockheaders_from_database`. */
  function LoadRow(c: Config, s: State, row: StoredRow): State {
    match row.header
    case None => s
    case Some(header) =>
      s.(index := s.index[c.hash(header) := row.height], headers := s.headers + [header], height := row.height + 1)
  }

  /** `load_blockheaders_from_database`, from row `i` of the query's result on. */
  function LoadFrom(c: Config, s: State, rows: seq<StoredRow>, i: nat): State
    requires i <= |rows|
    decreases |rows| - i
  {
    if i == |rows| then s else LoadFrom(c, LoadRow(c, s, rows[i]), rows, i + 1)
  }

  function LoadRows(c: Config, s: State, rows: seq<StoredRow>): State {
    LoadFrom(c, s, rows, 0)
  }

  /** `setup` from the database. */
  function SetupFromRows(c: Config, s: State, rows: seq<StoredRow>): State {
    var s' := LoadRows(c, s, rows);
    if s'.headers == [] then s' else s'.(last := c.hash(Last(s'.headers)))
  }

  // ---- runs ----

  datatype Event = Deliver(block: Block) | Orphan

  function Step(c: Config, s: State, e: Event): State {
    match e
    case Deliver(b) => OnBlock(c, s, b)
    case Orphan => HandleOrphan(c, s)
  }

  function Run(c: Config, s: State, es: seq<Event>): State
    decreases |es|
  {
    if es == [] then s else Run(c, Step(c, s, es[0]), es[1..])
  }

  lemma {:induction false} RunOne(c: Config, s: State, e: Event)
    ensures Run(c, s, [e]) == Step(c, s, e)
  {
    assert [e][1..] == [];
  }

  lemma {:induction false} RunAppend(c: Config, s: State, a: seq<Event>, b: seq<Event>)
    ensures Run(c, s, a + b) == Run(c, Run(c, s, a), b)
    decreases |a|
  {
    if a == [] {
      assert a + b == b;
    } else {
      RunAppend(c, Step(c, s, a[0]), a[1..], b);
      assert (a + b)[1..] == a[1..] + b;
    }
  }
}
