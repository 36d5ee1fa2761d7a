/**
 * The logic in dialogue with an honest peer: it reaches the tip of the peer's chain, however the peer
 * cuts its announcements into batches and however often the connection is made anew.
 */
module Sync {
  import opened Common
  import opened Tables
  import opened BlockSpec
  import opened Delivery
  import L = LogicSpec

  // ---- the peer ----

  datatype Reply = Announce(objects: seq<L.InvVect>) | Send(block: Block)

  function InvFor(c: Config, b: Block): L.InvVect {
    L.InvVect(L.BLOCK, c.hash(b.header))
  }

  /** The announcement of blocks `i` to `j`. */
  function InvOf(c: Config, chain: seq<Block>, i: nat, j: nat): (r: seq<L.InvVect>)
    requires i <= j <= |chain|
    ensures |r| == j - i
    decreases j - i
  {
    if i == j then [] else [InvFor(c, chain[i])] + InvOf(c, chain, i + 1, j)
  }

  ghost predicate IsNextBatch(c: Config, chain: seq<Block>, locator: Hash256, objects: seq<L.InvVect>, i: nat, j: nat) {
    i < j <= |chain| && TipAt(c, chain, i) == locator && objects == InvOf(c, chain, i, j)
  }

  /**
   * An honest peer answers GetBlocks(h) with some non-empty batch of the blocks after h, and GetData for a
   * block with that block.
   */
  ghost predicate Honest(c: Config, chain: seq<Block>, m: L.Message, r: Reply) {
    match r
    case Announce(objects) => m.GetBlocks? && exists i, j :: IsNextBatch(c, chain, m.locator, objects, i, j)
    case Send(b) => m.GetData? && b in chain && m.objects == [InvFor(c, b)]
  }

  // ---- the dialogue ----

  /** The logic, and what it has sent since it last heard anything. */
  datatype Dialogue = Dialogue(logic: L.State, asked: seq<L.Message>)

  function Posted(s: L.State): Dialogue {
    Dialogue(s.(outbox := []), s.outbox)
  }

  datatype Input = Heard(reply: Reply, recent: bool) | Reconnected

  function Hear(c: L.Config, d: Dialogue, input: Input): Dialogue {
    match input
    case Heard(Announce(objects), _) => Posted(L.OnInv(c, d.logic, objects))
    case Heard(Send(b), recent) => Posted(L.OnBlock(c, d.logic, b, recent))
    case Reconnected => Posted(L.SetState(c, d.logic, L.Connected))
  }

  function Play(c: L.Config, d: Dialogue, inputs: seq<Input>): Dialogue
    decreases |inputs|
  {
    if inputs == [] then d else Play(c, Hear(c, d, inputs[0]), inputs[1..])
  }

  /** Every reply in the play honestly answers the one message then open. */
  ghost predicate HonestPlay(c: L.Config, chain: seq<Block>, d: Dialogue, inputs: seq<Input>)
    decreases |inputs|
  {
    inputs == [] || (
      && (inputs[0].Heard? ==> |d.asked| == 1 && Honest(c.blocks, chain, d.asked[0], inputs[0].reply))
      && HonestPlay(c, chain, Hear(c, d, inputs[0]), inputs[1..]))
  }

  // ---- the invariant of the dialogue ----

  /** The first `p` blocks of the chain are in and none waits. */
  ghost predicate At(c: Config, chain: seq<Block>, p: nat, s: State) {
    && p <= |chain|
    && s.headers == Headers(chain, p) && s.index == Grown(c, chain, Network, p).index
    && s.last == TipAt(c, chain, p) && s.height == c.startHeight + 1 + p
    && s.queue == map[]
  }

  /** No block is older than the first, so none is taken for an orphan. */
  ghost predicate Dated(c: L.Config, chain: seq<Block>) {
    c.detectOrphans ==> forall i :: 0 <= i < |chain| ==> chain[0].header.timestamp <= chain[i].header.timestamp
  }

  /** Announced and not yet fetched: blocks `p` to `q`, in one batch. */
  ghost predicate Pending(c: Config, chain: seq<Block>, p: nat, q: nat, inventory: seq<seq<L.InvVect>>) {
    p <= q <= |chain| && inventory == if p < q then [InvOf(c, chain, p, q)] else []
  }

  /** What must be open: the next announced block, or more announcements. */
  ghost function Question(c: Config, chain: seq<Block>, p: nat, q: nat): L.Message
    requires p <= q <= |chain|
  {
    if p < q then L.GetData([InvFor(c, chain[p])]) else L.GetBlocks(TipAt(c, chain, p))
  }

  ghost predicate InSync(c: L.Config, chain: seq<Block>, p: nat, q: nat, d: Dialogue) {
    && At(c.blocks, chain, p, d.logic.bm)
    && Pending(c.blocks, chain, p, q, d.logic.inventory)
    && d.logic.outbox == []
    && (d.logic.startTimestamp.Some? ==> |chain| > 0 && d.logic.startTimestamp.value <= chain[0].header.timestamp)
    && d.asked == [Question(c.blocks, chain, p, q)]
  }

  /** Twice the blocks to come, and one for a question that brings no block. */
  ghost function ToDo(chain: seq<Block>, p: nat, q: nat): nat
    requires p <= q <= |chain|
  {
    2 * (|chain| - p) + if p < q then 0 else 1
  }

  // ---- steps ----

  lemma {:induction false} TipOfHeaders(c: Config, chain: seq<Block>, p: nat)
    requires p <= |chain|
    ensures TipHash(c, Headers(chain, p)) == TipAt(c, chain, p)
  {
  }

  lemma {:induction false} FilterInv(c: Config, chain: seq<Block>, i: nat, j: nat)
    requires i <= j <= |chain|
    ensures L.Filter(InvOf(c, chain, i, j), L.BLOCK) == InvOf(c, chain, i, j)
    ensures L.Filter(InvOf(c, chain, i, j), L.TX) == []
    decreases j - i
  {
    if i < j {
      FilterInv(c, chain, i + 1, j);
    }
  }

  lemma {:induction false} WithoutOther(c: Config, chain: seq<Block>, k: nat, i: nat, j: nat)
    requires IsChain(c, chain) && k < i <= j <= |chain|
    ensures L.Without(InvOf(c, chain, i, j), c.hash(chain[k].header)) == InvOf(c, chain, i, j)
    decreases j - i
  {
    if i < j {
      TipsAreDistinct(c, chain, k + 1, i + 1);
      WithoutOther(c, chain, k, i + 1, j);
    }
  }

  /** A batch after the tip is taken into the inventory and its first block asked for. */
  lemma {:induction false} HearBatch(c: L.Config, chain: seq<Block>, p: nat, q: nat, d: Dialogue,
                                     objects: seq<L.InvVect>, recent: bool)
    returns (q': nat)
    requires IsChain(c.blocks, chain) && InSync(c, chain, p, q, d)
    requires Honest(c.blocks, chain, d.asked[0], Announce(objects))
    ensures p == q < q' <= |chain| && InSync(c, chain, p, q', Hear(c, d, Heard(Announce(objects), recent)))
  {
    assert p == q;
    var i: nat, j: nat :| IsNextBatch(c.blocks, chain, TipAt(c.blocks, chain, p), objects, i, j);
    TipsAreDistinct(c.blocks, chain, i, p);
    FilterInv(c.blocks, chain, p, j);
    q' := j;
  }

  lemma {:induction false} NoOrphanAt(c: L.Config, chain: seq<Block>, p: nat, q: nat, d: Dialogue, k: nat)
    requires InSync(c, chain, p, q, d) && Dated(c, chain) && k < |chain|
    ensures !L.IsOrphan(c, d.logic, chain[k].header.timestamp)
    ensures var t := L.StartTimestamp(c, d.logic); t.Some? ==> t.value <= chain[0].header.timestamp
  {
    var headers := d.logic.bm.headers;
    if |headers| > 0 {
      assert headers[0] == chain[0].header;
    }
  }

  /** The next block of the chain goes in at once. */
  lemma {:induction false} TakeNext(c: Config, chain: seq<Block>, p: nat, s: State)
    requires IsChain(c, chain) && p < |chain| && At(c, chain, p, s)
    ensures At(c, chain, p + 1, OnBlock(c, s, chain[p]))
  {
    GrownFacts(c, chain, Network, p);
    GrownIndex(c, chain, Network, p, p + 1);
    assert LinkedAt(c, chain, p);
    AcceptExtends(c, s, Queued(None, chain[p]));
    AcceptExtends(c, Grown(c, chain, Network, p), Queued(None, chain[p]));
  }

  lemma {:induction false} RequestAfterBlock(c: L.Config, chain: seq<Block>, p: nat, q: nat, s: L.State)
    requires IsChain(c.blocks, chain) && p < q <= |chain| && At(c.blocks, chain, p + 1, s.bm)
    requires Pending(c.blocks, chain, p, q, s.inventory) && s.outbox == []
    ensures var t := L.RequestNext(c, s, Some(c.blocks.hash(chain[p].header)));
            Pending(c.blocks, chain, p + 1, q, t.inventory) && t.outbox == [Question(c.blocks, chain, p + 1, q)] &&
            t == s.(inventory := t.inventory, outbox := t.outbox)
  {
    var rest := InvOf(c.blocks, chain, p + 1, q);
    WithoutOther(c.blocks, chain, p, p + 1, q);
    assert L.Without(s.inventory[0], c.blocks.hash(chain[p].header)) == rest;
    assert s.inventory[0 := rest] == [rest];
    TipOfHeaders(c.blocks, chain, p + 1);
    if p + 1 == q {
      var one: seq<seq<L.InvVect>> := [rest];
      assert |one[1..]| == 0 && L.Trim(one) == L.Trim(one[1..]);
    } else {
      assert rest[0] == InvFor(c.blocks, chain[p + 1]);
      assert L.Trim([rest]) == [rest];
    }
  }

  lemma {:induction false} BlockAskedFor(c: L.Config, chain: seq<Block>, p: nat, q: nat, d: Dialogue, b: Block)
    requires IsChain(c.blocks, chain) && InSync(c, chain, p, q, d)
    requires Honest(c.blocks, chain, d.asked[0], Send(b))
    ensures p < q && b == chain[p]
  {
    var k :| 0 <= k < |chain| && chain[k] == b;
    assert InvFor(c.blocks, b) == InvFor(c.blocks, chain[p]);
    TipsAreDistinct(c.blocks, chain, k + 1, p + 1);
  }

  /** The block asked for is taken and the dialogue goes on, whatever the clock says. */
  lemma {:induction false} HearBlock(c: L.Config, chain: seq<Block>, p: nat, q: nat, d: Dialogue, b: Block,
                                     recent: bool)
    requires IsChain(c.blocks, chain) && Dated(c, chain) && InSync(c, chain, p, q, d)
    requires Honest(c.blocks, chain, d.asked[0], Send(b))
    ensures p < q && InSync(c, chain, p + 1, q, Hear(c, d, Heard(Send(b), recent)))
  {
    BlockAskedFor(c, chain, p, q, d, b);
    NoOrphanAt(c, chain, p, q, d, p);
    TakeNext(c.blocks, chain, p, d.logic.bm);
    L.BlockIsTaken(c, d.logic, b, recent);
    RequestAfterBlock(c, chain, p, q, L.Taken(c, d.logic, b));
  }

  /** A new connection asks again for what was open. */
  lemma {:induction false} HearReconnect(c: L.Config, chain: seq<Block>, p: nat, q: nat, d: Dialogue)
    requires InSync(c, chain, p, q, d)
    ensures InSync(c, chain, p, q, Hear(c, d, Reconnected))
  {
    TipOfHeaders(c.blocks, chain, p);
  }

  // ---- the theorems ----

  /** Every honest reply keeps the dialogue in sync and brings the tip nearer. */
  lemma {:induction false} HearReply(c: L.Config, chain: seq<Block>, p: nat, q: nat, d: Dialogue, reply: Reply,
                                     recent: bool)
    returns (p': nat, q': nat)
    requires IsChain(c.blocks, chain) && Dated(c, chain) && InSync(c, chain, p, q, d)
    requires Honest(c.blocks, chain, d.asked[0], reply)
    ensures p <= p' && InSync(c, chain, p', q', Hear(c, d, Heard(reply, recent)))
    ensures ToDo(chain, p', q') + 1 <= ToDo(chain, p, q)
  {
    if reply.Announce? {
      p' := p;
      q' := HearBatch(c, chain, p, q, d, reply.objects, recent);
    } else {
      HearBlock(c, chain, p, q, d, reply.block, recent);
      p', q' := p + 1, q;
    }
  }

  /** Every input keeps the dialogue in sync, and every reply brings the tip nearer. */
  lemma {:induction false} HearStaysInSync(c: L.Config, chain: seq<Block>, p: nat, q: nat, d: Dialogue, input: Input)
    returns (p': nat, q': nat)
    requires IsChain(c.blocks, chain) && Dated(c, chain) && InSync(c, chain, p, q, d)
    requires input.Heard? ==> Honest(c.blocks, chain, d.asked[0], input.reply)
    ensures p <= p' && InSync(c, chain, p', q', Hear(c, d, input))
    ensures ToDo(chain, p', q') + (if input.Heard? then 1 else 0) <= ToDo(chain, p, q)
  {
    if input.Heard? {
      p', q' := HearReply(c, chain, p, q, d, input.reply, input.recent);
    } else {
      p', q' := p, q;
      HearReconnect(c, chain, p, q, d);
    }
  }

  /**
   * In every play against an honest peer the dialogue stays alive, with exactly one question open, and
   * every reply brings the tip nearer.
   */
  lemma {:induction false} PlayStaysInSync(c: L.Config, chain: seq<Block>, p: nat, q: nat, d: Dialogue,
                                           inputs: seq<Input>)
    returns (p': nat, q': nat)
    requires IsChain(c.blocks, chain) && Dated(c, chain) && InSync(c, chain, p, q, d)
    requires HonestPlay(c, chain, d, inputs)
    ensures p <= p' && InSync(c, chain, p', q', Play(c, d, inputs))
    ensures ToDo(chain, p', q') + Replies(inputs) <= ToDo(chain, p, q)
    decreases |inputs|
  {
    p', q' := p, q;
    if inputs != [] {
      p', q' := HearStaysInSync(c, chain, p, q, d, inputs[0]);
      p', q' := PlayStaysInSync(c, chain, p', q', Hear(c, d, inputs[0]), inputs[1..]);
    }
  }

  function Replies(inputs: seq<Input>): nat {
    if inputs == [] then 0 else (if inputs[0].Heard? then 1 else 0) + Replies(inputs[1..])
  }

  /** Until the tip is reached the peer can always answer: the dialogue never deadlocks. */
  lemma {:induction false} PeerCanAnswer(c: L.Config, chain: seq<Block>, p: nat, q: nat, d: Dialogue) returns (r: Reply)
    requires InSync(c, chain, p, q, d) && p < |chain|
    ensures Honest(c.blocks, chain, d.asked[0], r)
  {
    if p < q {
      r := Send(chain[p]);
    } else {
      r := Announce(InvOf(c.blocks, chain, p, p + 1));
      assert IsNextBatch(c.blocks, chain, TipAt(c.blocks, chain, p), r.objects, p, p + 1);
    }
  }

  /** At the tip there is nothing left for an honest peer to say. */
  lemma {:induction false} NothingAfterTip(c: L.Config, chain: seq<Block>, d: Dialogue, r: Reply)
    requires IsChain(c.blocks, chain) && InSync(c, chain, |chain|, |chain|, d)
    ensures !Honest(c.blocks, chain, d.asked[0], r)
  {
    if Honest(c.blocks, chain, d.asked[0], r) {
      var i: nat, j: nat :| IsNextBatch(c.blocks, chain, d.asked[0].locator, r.objects, i, j);
      TipsAreDistinct(c.blocks, chain, i, |chain|);
    }
  }

  /**
   * Sync reaches the tip: a play from `p` blocks in holds at most twice the missing blocks plus one
   * replies, and when the peer has nothing more to say every block of its chain is in, in order.
   */
  lemma {:induction false} SyncReachesTip(c: L.Config, chain: seq<Block>, p: nat, q: nat, d: Dialogue,
                                          inputs: seq<Input>)
    requires IsChain(c.blocks, chain) && Dated(c, chain) && InSync(c, chain, p, q, d)
    requires HonestPlay(c, chain, d, inputs)
    ensures Replies(inputs) <= 2 * (|chain| - p) + 1
    ensures var e := Play(c, d, inputs);
            |e.asked| == 1 &&
            ((exists r :: Honest(c.blocks, chain, e.asked[0], r)) <==> |e.logic.bm.headers| < |chain|) &&
            (forall i :: 0 <= i < |e.logic.bm.headers| ==> i < |chain| && e.logic.bm.headers[i] == chain[i].header)
  {
    var p', q' := PlayStaysInSync(c, chain, p, q, d, inputs);
    var e := Play(c, d, inputs);
    if p' < |chain| {
      var r := PeerCanAnswer(c, chain, p', q', e);
    } else {
      forall r ensures !Honest(c.blocks, chain, e.asked[0], r) {
        NothingAfterTip(c, chain, e, r);
      }
    }
  }

  /** A new logic, once connected, is in sync with the empty prefix of any chain from its start hash. */
  lemma {:induction false} ConnectedIsInSync(c: L.Config, chain: seq<Block>, file: seq<Block>)
    ensures var s := L.State(L.Starting, New(c.blocks, file), None, [], []);
            InSync(c, chain, 0, 0, Posted(L.SetState(c, s, L.Connected)))
  {
  }
}
