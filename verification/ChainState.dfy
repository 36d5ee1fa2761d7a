/**
 * What every run of the block manager keeps, orphans included.
 *
 * `rank` makes the links of the blocks that arrive acyclic: a block's hash ranks above its parent's.
 */
module ChainState {
  import opened Common
  import opened Tables
  import opened BlockSpec

  type Rank = Hash256 -> nat

  /** The index that gives consecutive heights to the hashes of the first `n` headers. */
  function IndexTo(c: Config, headers: seq<Header>, n: nat): map<Hash256, nat>
    requires n <= |headers|
  {
    if n == 0 then map[] else IndexTo(c, headers, n - 1)[c.hash(headers[n - 1]) := c.startHeight + n]
  }

  function IndexOf(c: Config, headers: seq<Header>): map<Hash256, nat> {
    IndexTo(c, headers, |headers|)
  }

  /** The rows of the `blocks` table are those of `headers`, with the heights of the index. */
  ghost predicate RowsMatch(c: Config, headers: seq<Header>, rows: map<Hash256, BlockRow>) {
    && rows.Keys == IndexOf(c, headers).Keys
    && forall h :: h in rows ==>
         && rows[h].hash == h && rows[h].height == IndexOf(c, headers)[h]
         && rows[h].header in headers && c.hash(rows[h].header) == h
  }

  ghost predicate UphillHeader(c: Config, rank: Rank, h: Header) {
    rank(h.prevHash) < rank(c.hash(h))
  }

  ghost predicate Uphill(c: Config, rank: Rank, b: Block) {
    UphillHeader(c, rank, b.header)
  }

  /** Ranks grow along the headers, up to the tip. */
  ghost predicate Ascending(c: Config, rank: Rank, headers: seq<Header>, last: Hash256) {
    && (forall i :: 0 <= i < |headers| ==> UphillHeader(c, rank, headers[i]))
    && (forall i, j :: 0 <= i < j < |headers| ==> rank(c.hash(headers[i])) < rank(c.hash(headers[j])))
    && (forall i :: 0 <= i < |headers| ==> rank(c.hash(headers[i])) <= rank(last))
  }

  ghost predicate QueueOk(c: Config, rank: Rank, queue: map<Hash256, Queued>) {
    forall h :: h in queue ==> queue[h].block.header.prevHash == h && Uphill(c, rank, queue[h].block)
  }

  /** The part of the invariant that holds between the turns of the draining loop. */
  ghost predicate Standing(c: Config, rank: Rank, db: Database, s: State) {
    && s.height == c.startHeight + 1 + |s.headers|
    && s.index == IndexOf(c, s.headers)
    && Ascending(c, rank, s.headers, s.last)
    && QueueOk(c, rank, s.queue)
    && RowsMatch(c, s.headers, ApplyAll(db, s.sent).blocks)
  }

  /**
   * The invariant between events: heights, index, headers and table tell one story, and no block whose
   * turn has come is waiting. `db` is the database the manager started with.
   */
  ghost predicate Settled(c: Config, rank: Rank, db: Database, s: State) {
    Standing(c, rank, db, s) && s.last !in s.queue
  }

  // ---- the index ----

  ghost predicate Distinct(c: Config, headers: seq<Header>) {
    forall i, j :: 0 <= i < j < |headers| ==> c.hash(headers[i]) != c.hash(headers[j])
  }

  lemma {:induction false} IndexAgrees(c: Config, a: seq<Header>, b: seq<Header>, n: nat)
    requires n <= |a| && n <= |b| && forall i :: 0 <= i < n ==> a[i] == b[i]
    ensures IndexTo(c, a, n) == IndexTo(c, b, n)
  {
    if n > 0 {
      IndexAgrees(c, a, b, n - 1);
    }
  }

  lemma {:induction false} IndexKeys(c: Config, headers: seq<Header>, n: nat, h: Hash256)
    requires n <= |headers|
    ensures h in IndexTo(c, headers, n) <==> exists i :: 0 <= i < n && c.hash(headers[i]) == h
  {
    if n > 0 {
      IndexKeys(c, headers, n - 1, h);
    }
  }

  /** With distinct hashes the index sends each header to its height. */
  lemma {:induction false} IndexIsHeight(c: Config, headers: seq<Header>, n: nat, i: nat)
    requires Distinct(c, headers) && i < n <= |headers|
    ensures c.hash(headers[i]) in IndexTo(c, headers, n)
    ensures IndexTo(c, headers, n)[c.hash(headers[i])] == c.startHeight + 1 + i
  {
    if i < n - 1 {
      IndexIsHeight(c, headers, n - 1, i);
    }
  }

  lemma {:induction false} IndexPush(c: Config, headers: seq<Header>, h: Header)
    ensures IndexOf(c, headers + [h]) == IndexOf(c, headers)[c.hash(h) := c.startHeight + |headers| + 1]
  {
    IndexAgrees(c, headers, headers + [h], |headers|);
  }

  lemma {:induction false} IndexPop(c: Config, headers: seq<Header>)
    requires headers != [] && Distinct(c, headers)
    ensures IndexOf(c, headers[..|headers| - 1]) == IndexOf(c, headers) - {c.hash(Last(headers))}
  {
    var n := |headers| - 1;
    IndexAgrees(c, headers, headers[..n], n);
    IndexKeys(c, headers, n, c.hash(Last(headers)));
  }

  lemma {:induction false} AscendingIsDistinct(c: Config, rank: Rank, headers: seq<Header>, last: Hash256)
    requires Ascending(c, rank, headers, last)
    ensures Distinct(c, headers)
  {
  }

  // ---- accepting a block ----

  /** A block above the tip is not in the index. */
  lemma {:induction false} UphillIsFresh(c: Config, rank: Rank, headers: seq<Header>, last: Hash256, b: Block)
    requires Ascending(c, rank, headers, last) && Uphill(c, rank, b) && b.header.prevHash == last
    ensures c.hash(b.header) !in IndexOf(c, headers)
  {
    IndexKeys(c, headers, |headers|, c.hash(b.header));
  }

  lemma {:induction false} RowsPush(c: Config, headers: seq<Header>, rows: map<Hash256, BlockRow>, b: Block,
                                    height: nat, position: nat)
    requires RowsMatch(c, headers, rows) && c.hash(b.header) !in IndexOf(c, headers)
    requires height == c.startHeight + 1 + |headers|
    ensures var row := RowOf(c, b, height, position);
            InsertAll(rows, [(row.hash, row)]) == rows[row.hash := row] &&
            RowsMatch(c, headers + [b.header], rows[row.hash := row])
  {
    IndexPush(c, headers, b.header);
    var row := RowOf(c, b, height, position);
    InsertOne(rows, row.hash, row);
  }

  lemma {:induction false} RowsPop(c: Config, headers: seq<Header>, rows: map<Hash256, BlockRow>)
    requires RowsMatch(c, headers, rows) && headers != [] && Distinct(c, headers)
    ensures RowsMatch(c, headers[..|headers| - 1], DeleteAll(rows, [c.hash(Last(headers))]))
  {
    IndexPop(c, headers);
    var rest := DeleteAll(rows, [c.hash(Last(headers))]);
    assert rest.Keys == rows.Keys - {c.hash(Last(headers))};
    assert headers == headers[..|headers| - 1] + [Last(headers)];
  }

  /** The write of a block that extends the tip adds exactly its row. */
  lemma {:induction false} RowIsWritten(c: Config, rank: Rank, db: Database, s: State, b: Block, position: nat)
    requires Standing(c, rank, db, s) && b.header.prevHash == s.last && Uphill(c, rank, b)
    ensures var s' := WriteRow(c, s, b, position);
            s' == s.(sent := s'.sent) && RowsMatch(c, s.headers + [b.header], ApplyAll(db, s'.sent).blocks)
  {
    UphillIsFresh(c, rank, s.headers, s.last, b);
    var rows := ApplyAll(db, s.sent).blocks;
    RowsPush(c, s.headers, rows, b, s.height, position);
    ApplyOneMore(db, s.sent, BlockHeaderWrite(RowOf(c, b, s.height, position)));
  }

  lemma {:induction false} AscendingPush(c: Config, rank: Rank, headers: seq<Header>, last: Hash256, b: Block)
    requires Ascending(c, rank, headers, last) && Uphill(c, rank, b) && b.header.prevHash == last
    ensures Ascending(c, rank, headers + [b.header], c.hash(b.header))
  {
  }

  lemma {:induction false} AcceptInRange(c: Config, rank: Rank, db: Database, s: State, b: Block, position: nat)
    requires Standing(c, rank, db, s) && b.header.prevHash == s.last && Uphill(c, rank, b)
    requires s.height < TWO_31
    ensures Standing(c, rank, db, ProcessBlock(c, WriteRow(c, s, b, position), b))
  {
    RowIsWritten(c, rank, db, s, b, position);
    IndexPush(c, s.headers, b.header);
    AscendingPush(c, rank, s.headers, s.last, b);
  }

  /** Past the range, the row of hash `h` is in the table although its header was never stored. */
  ghost predicate BrokenAt(db: Database, s: State, h: Hash256) {
    s.height >= TWO_31 && h in ApplyAll(db, s.sent).blocks && h !in s.index
  }

  lemma {:induction false} BrokenIsNotStanding(c: Config, rank: Rank, db: Database, s: State, h: Hash256)
    requires BrokenAt(db, s, h)
    ensures !Standing(c, rank, db, s)
  {
    assert h in ApplyAll(db, s.sent).blocks.Keys && h !in s.index.Keys;
  }

  lemma {:induction false} AcceptOutOfRange(c: Config, rank: Rank, db: Database, s: State, b: Block, position: nat)
    requires Standing(c, rank, db, s) && b.header.prevHash == s.last && Uphill(c, rank, b)
    requires s.height >= TWO_31
    ensures BrokenAt(db, ProcessBlock(c, WriteRow(c, s, b, position), b), c.hash(b.header))
  {
    RowIsWritten(c, rank, db, s, b, position);
    UphillIsFresh(c, rank, s.headers, s.last, b);
    IndexPush(c, s.headers, b.header);
    assert c.hash(b.header) in ApplyAll(db, WriteRow(c, s, b, position).sent).blocks.Keys;
  }

  /**
   * Accepting a block that extends the tip keeps the invariant exactly while its height is in the signed
   * range: past it the tip moves and the row is written, but no header is stored.
   */
  lemma {:induction false} AcceptKeepsStandingIff(c: Config, rank: Rank, db: Database, s: State, q: Queued)
    requires Standing(c, rank, db, s) && q.block.header.prevHash == s.last && Uphill(c, rank, q.block)
    ensures Standing(c, rank, db, Accept(c, s, q)) <==> s.height < TWO_31
    ensures s.height >= TWO_31 ==> BrokenAt(db, Accept(c, s, q), c.hash(q.block.header))
  {
    var (s', position) := if q.position.Some? then (s, q.position.value) else WriteFile(c, s, q.block);
    assert Standing(c, rank, db, s');
    if s.height < TWO_31 {
      AcceptInRange(c, rank, db, s', q.block, position);
    } else {
      AcceptOutOfRange(c, rank, db, s', q.block, position);
      BrokenIsNotStanding(c, rank, db, Accept(c, s, q), c.hash(q.block.header));
    }
  }

  // ---- heights in range ----

  /** As the queue drains, every block whose turn has come meets a height in the signed range. */
  predicate DrainFits(c: Config, s: State)
    decreases s.queue.Keys
  {
    if s.last in s.queue then
      assert DrainOne(c, s).queue.Keys == s.queue.Keys - {s.last};
      s.height < TWO_31 && DrainFits(c, DrainOne(c, s))
    else true
  }

  /** So does every block that the event makes the manager take. */
  predicate StepFits(c: Config, s: State, e: Event) {
    e.Deliver? && c.hash(e.block.header) !in s.index && e.block.header.prevHash == s.last ==>
      s.height < TWO_31 && DrainFits(c, Accept(c, s, Queued(None, e.block)))
  }

  predicate RunFits(c: Config, s: State, es: seq<Event>)
    decreases |es|
  {
    es == [] || (StepFits(c, s, es[0]) && RunFits(c, Step(c, s, es[0]), es[1..]))
  }

  lemma {:induction false} DrainBelowFits(c: Config, s: State)
    requires Drain(c, s).height < TWO_31
    ensures s.height < TWO_31 && DrainFits(c, s)
    decreases s.queue.Keys
  {
    if s.last in s.queue {
      assert DrainOne(c, s).queue.Keys == s.queue.Keys - {s.last};
      DrainBelowFits(c, DrainOne(c, s));
    }
  }

  /** An event that leaves the height below 2^31 met no height past it. */
  lemma {:induction false} StepBelowFits(c: Config, s: State, e: Event)
    requires Step(c, s, e).height < TWO_31
    ensures StepFits(c, s, e)
  {
    if e.Deliver? && c.hash(e.block.header) !in s.index && e.block.header.prevHash == s.last {
      DrainBelowFits(c, Accept(c, s, Queued(None, e.block)));
    }
  }

  lemma {:induction false} DrainOneStandsIff(c: Config, rank: Rank, db: Database, s: State)
    requires Standing(c, rank, db, s) && s.last in s.queue
    ensures Standing(c, rank, db, DrainOne(c, s)) <==> s.height < TWO_31
    ensures s.height >= TWO_31 ==> BrokenAt(db, DrainOne(c, s), c.hash(s.queue[s.last].block.header))
  {
    AcceptKeepsStandingIff(c, rank, db, s.(queue := s.queue - {s.last}), s.queue[s.last]);
  }

  lemma {:induction false} AcceptStaysBroken(c: Config, db: Database, s: State, q: Queued, h: Hash256)
    requires BrokenAt(db, s, h)
    ensures BrokenAt(db, Accept(c, s, q), h)
  {
    var (s', position) := if q.position.Some? then (s, q.position.value) else WriteFile(c, s, q.block);
    var row := RowOf(c, q.block, s'.height, position);
    assert Accept(c, s, q).index == s.index && Accept(c, s, q).height == s.height;
    assert Accept(c, s, q).sent in [s.sent, s.sent + [BlockHeaderWrite(row)]];
    RowStaysThere(db, s.sent, row, h);
  }

  lemma {:induction false} RowStaysThere(db: Database, sent: seq<Op>, row: BlockRow, h: Hash256)
    requires h in ApplyAll(db, sent).blocks
    ensures h in ApplyAll(db, sent + [BlockHeaderWrite(row)]).blocks
  {
    ApplyOneMore(db, sent, BlockHeaderWrite(row));
    InsertOne(ApplyAll(db, sent).blocks, row.hash, row);
  }

  lemma {:induction false} DrainStaysBroken(c: Config, db: Database, s: State, h: Hash256)
    requires BrokenAt(db, s, h)
    ensures BrokenAt(db, Drain(c, s), h)
    decreases s.queue.Keys
  {
    if s.last in s.queue {
      AcceptStaysBroken(c, db, s.(queue := s.queue - {s.last}), s.queue[s.last], h);
      assert DrainOne(c, s).queue.Keys == s.queue.Keys - {s.last};
      DrainStaysBroken(c, db, DrainOne(c, s), h);
    }
  }

  lemma {:induction false} DrainSettlesIff(c: Config, rank: Rank, db: Database, s: State)
    requires Standing(c, rank, db, s)
    ensures Settled(c, rank, db, Drain(c, s)) <==> DrainFits(c, s)
    decreases s.queue.Keys
  {
    if s.last in s.queue {
      DrainOneStandsIff(c, rank, db, s);
      assert DrainOne(c, s).queue.Keys == s.queue.Keys - {s.last};
      if s.height < TWO_31 {
        DrainSettlesIff(c, rank, db, DrainOne(c, s));
      } else {
        var h := c.hash(s.queue[s.last].block.header);
        DrainStaysBroken(c, db, DrainOne(c, s), h);
        BrokenIsNotStanding(c, rank, db, Drain(c, s), h);
      }
    }
  }

  /** A block that is indexed already is not sent to the table again, even if its turn in the queue comes. */
  lemma {:induction false} KnownRowIsNotSent(c: Config, s: State, q: Queued)
    requires c.hash(q.block.header) in s.index
    ensures Accept(c, s, q).sent == s.sent
  {
  }

  /** A block that does not extend the tip changes nothing but the queue, and there it displaces no other. */
  lemma {:induction false} EarlyBlockOnlyWaits(c: Config, s: State, b: Block)
    requires b.header.prevHash != s.last
    ensures var t, h := OnBlock(c, s, b), b.header.prevHash;
      && t == s.(queue := t.queue)
      && (forall k :: k in s.queue ==> k in t.queue && t.queue[k] == s.queue[k])
      && (forall k :: k in t.queue && k !in s.queue ==> k == h && t.queue[k] == Queued(None, b))
      && (c.hash(b.header) !in s.index ==> h in t.queue)
  {
  }

  lemma {:induction false} DeliverKeepsSettledIff(c: Config, rank: Rank, db: Database, s: State, b: Block)
    requires Settled(c, rank, db, s) && Uphill(c, rank, b)
    ensures Settled(c, rank, db, OnBlock(c, s, b)) <==> StepFits(c, s, Deliver(b))
  {
    var t := Accept(c, s, Queued(None, b));
    if c.hash(b.header) !in s.index && b.header.prevHash == s.last {
      AcceptKeepsStandingIff(c, rank, db, s, Queued(None, b));
      if s.height < TWO_31 {
        DrainSettlesIff(c, rank, db, t);
      } else {
        DrainStaysBroken(c, db, t, c.hash(b.header));
        BrokenIsNotStanding(c, rank, db, Drain(c, t), c.hash(b.header));
      }
    }
  }

  lemma {:induction false} AscendingPop(c: Config, rank: Rank, headers: seq<Header>, last: Hash256)
    requires Ascending(c, rank, headers, last) && headers != []
    ensures Ascending(c, rank, headers[..|headers| - 1], last)
  {
  }

  /** The row of the dropped header moves from `blocks` to `orphans`. */
  lemma {:induction false} OrphanMovesRow(c: Config, db: Database, s: State)
    requires s.headers != []
    ensures var h, before := c.hash(Last(s.headers)), ApplyAll(db, s.sent);
      ApplyAll(db, HandleOrphan(c, s).sent) ==
      before.(blocks := DeleteAll(before.blocks, [h]),
              orphans := before.orphans + [OrphanRow(s.height, h, Last(s.headers))])
  {
    var h := c.hash(Last(s.headers));
    ApplyTwoMore(db, s.sent, OrphanBlockHeaderWrite(OrphanRow(s.height, h, Last(s.headers))), BlockHeaderDelete(h));
  }

  lemma {:induction false} OrphanIndexAndRows(c: Config, rank: Rank, db: Database, s: State)
    requires Settled(c, rank, db, s) && s.headers != []
    ensures var t := HandleOrphan(c, s);
            t.index == IndexOf(c, t.headers) && RowsMatch(c, t.headers, ApplyAll(db, t.sent).blocks)
  {
    var header := Last(s.headers);
    AscendingIsDistinct(c, rank, s.headers, s.last);
    IndexPop(c, s.headers);
    RowsPop(c, s.headers, ApplyAll(db, s.sent).blocks);
    OrphanMovesRow(c, db, s);
  }

  lemma {:induction false} OrphanKeepsSettled(c: Config, rank: Rank, db: Database, s: State)
    requires Settled(c, rank, db, s)
    ensures Settled(c, rank, db, HandleOrphan(c, s))
  {
    if s.headers != [] {
      AscendingPop(c, rank, s.headers, s.last);
      OrphanIndexAndRows(c, rank, db, s);
    }
  }

  /** An event keeps the invariant exactly when every block it makes the manager take has a height in range. */
  lemma {:induction false} StepKeepsSettledIff(c: Config, rank: Rank, db: Database, s: State, e: Event)
    requires Settled(c, rank, db, s) && (e.Deliver? ==> Uphill(c, rank, e.block))
    ensures Settled(c, rank, db, Step(c, s, e)) <==> StepFits(c, s, e)
  {
    if e.Deliver? {
      DeliverKeepsSettledIff(c, rank, db, s, e.block);
    } else {
      OrphanKeepsSettled(c, rank, db, s);
    }
  }

  /**
   * Every run keeps the invariant: any blocks in any order, with orphans detected anywhere, as long as the
   * links are acyclic and no block taken meets a height past the signed range.
   */
  lemma {:induction false} RunKeepsSettled(c: Config, rank: Rank, db: Database, s: State, es: seq<Event>)
    requires Settled(c, rank, db, s) && RunFits(c, s, es)
    requires forall e :: e in es && e.Deliver? ==> Uphill(c, rank, e.block)
    ensures Settled(c, rank, db, Run(c, s, es))
    decreases |es|
  {
    if es != [] {
      StepKeepsSettledIff(c, rank, db, s, es[0]);
      RunKeepsSettled(c, rank, db, Step(c, s, es[0]), es[1..]);
    }
  }

  lemma {:induction false} NewIsSettled(c: Config, rank: Rank, db: Database, file: seq<Block>)
    requires db.blocks == map[]
    ensures Settled(c, rank, db, New(c, file))
  {
  }

  lemma {:induction false} HeaderInWords(c: Config, rank: Rank, db: Database, s: State, i: nat)
    requires Settled(c, rank, db, s) && i < |s.headers|
    ensures var h, rows := c.hash(s.headers[i]), ApplyAll(db, s.sent).blocks;
      && h in s.index && s.index[h] == c.startHeight + 1 + i
      && h in rows && rows[h].height == c.startHeight + 1 + i && rows[h].header == s.headers[i]
  {
    AscendingIsDistinct(c, rank, s.headers, s.last);
    IndexIsHeight(c, s.headers, |s.headers|, i);
    var h, rows := c.hash(s.headers[i]), ApplyAll(db, s.sent).blocks;
    assert h in rows.Keys;
    var j :| 0 <= j < |s.headers| && s.headers[j] == rows[h].header;
    assert c.hash(s.headers[j]) == c.hash(s.headers[i]);
  }

  /** What the invariant says to a reader of the index and the table. */
  lemma {:induction false} SettledInWords(c: Config, rank: Rank, db: Database, s: State)
    requires Settled(c, rank, db, s)
    ensures Distinct(c, s.headers)
    ensures forall i :: 0 <= i < |s.headers| ==>
              var h, rows := c.hash(s.headers[i]), ApplyAll(db, s.sent).blocks;
              && h in s.index && s.index[h] == c.startHeight + 1 + i
              && h in rows && rows[h].height == c.startHeight + 1 + i && rows[h].header == s.headers[i]
    ensures ApplyAll(db, s.sent).blocks.Keys == s.index.Keys
    ensures forall h :: h in s.index ==> exists i :: 0 <= i < |s.headers| && c.hash(s.headers[i]) == h
  {
    AscendingIsDistinct(c, rank, s.headers, s.last);
    forall i | 0 <= i < |s.headers|
      ensures var h, rows := c.hash(s.headers[i]), ApplyAll(db, s.sent).blocks;
        && h in s.index && s.index[h] == c.startHeight + 1 + i
        && h in rows && rows[h].height == c.startHeight + 1 + i && rows[h].header == s.headers[i]
    {
      HeaderInWords(c, rank, db, s, i);
    }
    forall h | h in s.index ensures exists i :: 0 <= i < |s.headers| && c.hash(s.headers[i]) == h {
      IndexKeys(c, s.headers, |s.headers|, h);
    }
  }

  // ---- links ----

  /** Each header's parent is the one before it, and the tip is the last. */
  ghost predicate Linked(c: Config, s: State) {
    && s.last == TipHash(c, s.headers)
    && forall i :: 0 <= i < |s.headers| ==> s.headers[i].prevHash == TipHash(c, s.headers[..i])
  }

  lemma {:induction false} LinkedPush(c: Config, s: State, q: Queued)
    requires Linked(c, s) && q.block.header.prevHash == s.last && s.height < TWO_31
    ensures Linked(c, Accept(c, s, q))
  {
    var t := Accept(c, s, q);
    assert t.headers == s.headers + [q.block.header];
    forall i | 0 <= i < |t.headers| ensures t.headers[i].prevHash == TipHash(c, t.headers[..i]) {
      assert t.headers[..i] == s.headers[..i];
      if i == |s.headers| {
        assert s.headers[..i] == s.headers;
      }
    }
  }

  lemma {:induction false} DrainKeepsLinked(c: Config, rank: Rank, s: State)
    requires QueueOk(c, rank, s.queue) && DrainFits(c, s) && Linked(c, s)
    ensures Linked(c, Drain(c, s))
    decreases s.queue.Keys
  {
    if s.last in s.queue {
      LinkedPush(c, s.(queue := s.queue - {s.last}), s.queue[s.last]);
      assert DrainOne(c, s).queue.Keys == s.queue.Keys - {s.last};
      DrainKeepsLinked(c, rank, DrainOne(c, s));
    }
  }

  lemma {:induction false} DeliverKeepsLinked(c: Config, rank: Rank, s: State, b: Block)
    requires QueueOk(c, rank, s.queue) && StepFits(c, s, Deliver(b)) && Linked(c, s)
    ensures Linked(c, OnBlock(c, s, b))
  {
    if c.hash(b.header) !in s.index && b.header.prevHash == s.last {
      LinkedPush(c, s, Queued(None, b));
      DrainKeepsLinked(c, rank, Accept(c, s, Queued(None, b)));
    }
  }

  /** Runs without orphans keep the headers linked, whatever arrives in whatever order. */
  lemma {:induction false} OrphanFreeRunKeepsLinked(c: Config, rank: Rank, db: Database, s: State, es: seq<Event>)
    requires Settled(c, rank, db, s) && RunFits(c, s, es) && Linked(c, s)
    requires forall e :: e in es ==> e.Deliver? && Uphill(c, rank, e.block)
    ensures Linked(c, Run(c, s, es))
    decreases |es|
  {
    if es != [] {
      DeliverKeepsLinked(c, rank, s, es[0].block);
      StepKeepsSettledIff(c, rank, db, s, es[0]);
      OrphanFreeRunKeepsLinked(c, rank, db, Step(c, s, es[0]), es[1..]);
    }
  }

  /** The parent of the last header ranks below the tip. */
  lemma {:induction false} ShorterTipRanksBelow(c: Config, rank: Rank, s: State)
    requires Ascending(c, rank, s.headers, s.last) && Linked(c, s) && s.headers != []
    ensures rank(TipHash(c, s.headers[..|s.headers| - 1])) < rank(s.last)
  {
    assert UphillHeader(c, rank, Last(s.headers));
  }

  /** An orphan breaks the link between headers and tip exactly when there is a header to drop. */
  lemma {:induction false} OrphanKeepsLinkedIff(c: Config, rank: Rank, db: Database, s: State)
    requires Settled(c, rank, db, s) && Linked(c, s)
    ensures Linked(c, HandleOrphan(c, s)) <==> s.headers == []
  {
    if s.headers != [] {
      ShorterTipRanksBelow(c, rank, s);
    }
  }

  /** An orphan takes the last header, its index entry and what was waiting; the tip's hash and the file stay. */
  lemma {:induction false} OrphanDropsLast(c: Config, rank: Rank, db: Database, s: State)
    requires Settled(c, rank, db, s) && s.headers != []
    ensures var t, last := HandleOrphan(c, s), Last(s.headers);
      && s.headers == t.headers + [last] && s.index == t.index[c.hash(last) := t.height] && c.hash(last) !in t.index
      && t.height + 1 == s.height && t.last == s.last && t.queue == map[] && t.file == s.file
  {
    var rest, last := s.headers[..|s.headers| - 1], Last(s.headers);
    assert s.headers == rest + [last];
    AscendingIsDistinct(c, rank, s.headers, s.last);
    IndexPop(c, s.headers);
    IndexPush(c, rest, last);
  }

  /** The first block and then an orphan: no header is left, but the tip is still the block's hash. */
  lemma {:induction false} FirstBlockThenOrphan(c: Config, rank: Rank, b: Block)
    requires Uphill(c, rank, b) && b.header.prevHash == c.startHash && c.startHeight + 1 < TWO_31
    ensures Linked(c, Run(c, New(c, []), [Deliver(b)]))
    ensures var s := Run(c, New(c, []), [Deliver(b), Orphan]);
            s.headers == [] && s.last == c.hash(b.header) && !Linked(c, s)
  {
    var s := OnBlock(c, New(c, []), b);
    RunOne(c, New(c, []), Deliver(b));
    RunAppend(c, New(c, []), [Deliver(b)], [Orphan]);
    RunOne(c, s, Orphan);
    assert [Deliver(b)] + [Orphan] == [Deliver(b), Orphan];
    LinkedPush(c, New(c, []), Queued(None, b));
  }

  /** A block at height 2^31: the tip moves to it and its row is written, but it is not stored. */
  lemma {:induction false} BlockPastRange(c: Config, rank: Rank, db: Database, b: Block)
    requires Uphill(c, rank, b) && b.header.prevHash == c.startHash && c.startHeight + 1 == TWO_31
    requires db.blocks == map[]
    ensures var s := Run(c, New(c, []), [Deliver(b)]);
      && s.headers == [] && s.last == c.hash(b.header)
      && c.hash(b.header) in ApplyAll(db, s.sent).blocks && !Settled(c, rank, db, s)
  {
    RunOne(c, New(c, []), Deliver(b));
    NewIsSettled(c, rank, db, []);
    StepKeepsSettledIff(c, rank, db, New(c, []), Deliver(b));
    var s := OnBlock(c, New(c, []), b);
    var row := RowOf(c, b, TWO_31, if c.saveBlocks then FileSize([]) else 0);
    assert s.sent == [] + [BlockHeaderWrite(row)];
    ApplyOneMore(db, [], BlockHeaderWrite(row));
    InsertOne(db.blocks, row.hash, row);
  }

  /** The height given to the analyser is one above the dropped header's: no stored header has it. */
  lemma {:induction false} OrphanHeightIsOneAbove(c: Config, rank: Rank, db: Database, s: State)
    requires Settled(c, rank, db, s) && s.headers != []
    ensures var t, h := HandleOrphan(c, s), c.hash(Last(s.headers));
      && h in s.index && s.index[h] == s.height - 1
      && t.calls == s.calls + [ForgetHeight(s.index[h] + 1)]
      && forall k :: k in s.index ==> s.index[k] != s.index[h] + 1
  {
    AscendingIsDistinct(c, rank, s.headers, s.last);
    IndexIsHeight(c, s.headers, |s.headers|, |s.headers| - 1);
    forall k | k in s.index ensures s.index[k] < s.height {
      IndexKeys(c, s.headers, |s.headers|, k);
      var i :| 0 <= i < |s.headers| && c.hash(s.headers[i]) == k;
      IndexIsHeight(c, s.headers, |s.headers|, i);
    }
  }

  // ---- the tip never goes back ----

  /** Headers come only from before, or from blocks whose parent ranks at least as high as the old tip. */
  ghost predicate Onwards(rank: Rank, s: State, t: State) {
    && rank(t.last) >= rank(s.last)
    && forall h :: h in t.headers ==> h in s.headers || rank(h.prevHash) >= rank(s.last)
  }

  lemma {:induction false} DrainGoesOnwards(c: Config, rank: Rank, s: State)
    requires QueueOk(c, rank, s.queue)
    ensures Onwards(rank, s, Drain(c, s)) && QueueOk(c, rank, Drain(c, s).queue)
    decreases s.queue.Keys
  {
    if s.last in s.queue {
      var t := DrainOne(c, s);
      assert t.queue.Keys == s.queue.Keys - {s.last};
      assert Uphill(c, rank, s.queue[s.last].block);
      DrainGoesOnwards(c, rank, t);
    }
  }

  lemma {:induction false} StepGoesOnwards(c: Config, rank: Rank, s: State, e: Event)
    requires QueueOk(c, rank, s.queue) && (e.Deliver? ==> Uphill(c, rank, e.block))
    ensures Onwards(rank, s, Step(c, s, e)) && QueueOk(c, rank, Step(c, s, e).queue)
  {
    if e.Deliver? && c.hash(e.block.header) !in s.index && e.block.header.prevHash == s.last {
      DrainGoesOnwards(c, rank, Accept(c, s, Queued(None, e.block)));
    }
  }

  lemma {:induction false} RunGoesOnwards(c: Config, rank: Rank, s: State, es: seq<Event>)
    requires QueueOk(c, rank, s.queue)
    requires forall e :: e in es && e.Deliver? ==> Uphill(c, rank, e.block)
    ensures Onwards(rank, s, Run(c, s, es))
    decreases |es|
  {
    if es != [] {
      StepGoesOnwards(c, rank, s, es[0]);
      RunGoesOnwards(c, rank, Step(c, s, es[0]), es[1..]);
    }
  }

  /**
   * Because the tip's hash is not rolled back, once a last header has been dropped as an orphan no block
   * on its parent is ever stored again, whatever is delivered afterwards.
   */
  lemma {:induction false} DroppedHeaderIsNeverReplaced(c: Config, rank: Rank, db: Database, s: State, es: seq<Event>,
                                                        h: Header)
    requires Settled(c, rank, db, s) && Linked(c, s) && s.headers != []
    requires forall e :: e in es && e.Deliver? ==> Uphill(c, rank, e.block)
    requires UphillHeader(c, rank, h)
    requires h.prevHash == TipHash(c, HandleOrphan(c, s).headers)
    ensures h !in Run(c, HandleOrphan(c, s), es).headers
  {
    var t := HandleOrphan(c, s);
    ShorterTipRanksBelow(c, rank, s);
    RunGoesOnwards(c, rank, t, es);
    AscendingPop(c, rank, s.headers, s.last);
    NoneAboveTheLast(c, rank, t.headers, s.last, h);
  }

  lemma {:induction false} NoneAboveTheLast(c: Config, rank: Rank, headers: seq<Header>, last: Hash256, h: Header)
    requires Ascending(c, rank, headers, last)
    ensures h in headers ==> rank(c.hash(h)) <= rank(TipHash(c, headers))
  {
  }
}
