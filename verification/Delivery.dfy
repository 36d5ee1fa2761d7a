/**
 * Blocks of one chain, delivered or read from the file in any order, with repeats: what the block manager
 * holds depends only on which blocks have arrived, and where in the file each was first read.
 */
module Delivery {
  import opened Common
  import opened Tables
  import opened BlockSpec

  /** The hash of the tip once `i` blocks of the chain are in. */
  function TipAt(c: Config, chain: seq<Block>, i: nat): Hash256
    requires i <= |chain|
  {
    if i == 0 then c.startHash else c.hash(chain[i - 1].header)
  }

  ghost predicate LinkedAt(c: Config, chain: seq<Block>, i: nat)
    requires i < |chain|
  {
    chain[i].header.prevHash == TipAt(c, chain, i)
  }

  ghost predicate TipsDiffer(c: Config, chain: seq<Block>, i: nat, j: nat)
    requires i <= |chain| && j <= |chain|
  {
    TipAt(c, chain, i) != TipAt(c, chain, j)
  }

  /** A chain from the start hash, without repeated hashes, whose heights stay in the signed range. */
  ghost predicate IsChain(c: Config, chain: seq<Block>) {
    && (forall i {:trigger LinkedAt(c, chain, i)} :: 0 <= i < |chain| ==> LinkedAt(c, chain, i))
    && (forall i, j {:trigger TipsDiffer(c, chain, i, j)} :: 0 <= i < j <= |chain| ==> TipsDiffer(c, chain, i, j))
    && (chain != [] ==> c.startHeight + 1 + |chain| <= TWO_31)
  }

  lemma {:induction false} TipsAreDistinct(c: Config, chain: seq<Block>, i: nat, j: nat)
    requires IsChain(c, chain) && i <= |chain| && j <= |chain|
    ensures TipAt(c, chain, i) == TipAt(c, chain, j) <==> i == j
  {
    assert i < j ==> TipsDiffer(c, chain, i, j);
    assert j < i ==> TipsDiffer(c, chain, j, i);
  }

  /** Where the blocks come from; `order` says which block of the chain lies at each place of the file. */
  datatype Source = Network | FromFile(file: seq<Block>, order: seq<nat>)

  /** The first place at which block `k` lies. */
  function FirstAt(order: seq<nat>, k: nat): (r: nat)
    requires k in order
    ensures r < |order| && order[r] == k && forall j :: 0 <= j < r ==> order[j] != k
  {
    if order[0] == k then 0 else 1 + FirstAt(order[1..], k)
  }

  /** The offset at which block `i` is first read. */
  function Place(src: Source, i: nat): Option<nat> {
    match src
    case Network => None
    case FromFile(file, order) =>
      if i in order && |order| == |file| then Some(SizeTo(file, FirstAt(order, i))) else None
  }

  function Entry(chain: seq<Block>, src: Source, i: nat): Queued
    requires i < |chain|
  {
    Queued(Place(src, i), chain[i])
  }

  function FileAtStart(src: Source): seq<Block> {
    if src.Network? then [] else src.file
  }

  /** The state after the first `n` blocks have been taken in chain order, with nothing ever waiting. */
  function Grown(c: Config, chain: seq<Block>, src: Source, n: nat): State
    requires n <= |chain|
  {
    if n == 0 then New(c, FileAtStart(src)) else Accept(c, Grown(c, chain, src, n - 1), Entry(chain, src, n - 1))
  }

  /** How many blocks from `p` on have all arrived. */
  function Frontier(arrived: set<nat>, n: nat, p: nat): nat
    requires p <= n
    decreases n - p
  {
    if p < n && p in arrived then Frontier(arrived, n, p + 1) else p
  }

  lemma {:induction false} FrontierIsLongestPrefix(arrived: set<nat>, n: nat, p: nat)
    requires p <= n
    ensures p <= Frontier(arrived, n, p) <= n
    ensures forall i :: p <= i < Frontier(arrived, n, p) ==> i in arrived
    ensures Frontier(arrived, n, p) < n ==> Frontier(arrived, n, p) !in arrived
    decreases n - p
  {
    if p < n && p in arrived {
      FrontierIsLongestPrefix(arrived, n, p + 1);
    }
  }

  /** Block `i` waits under its parent's hash. */
  ghost predicate EntryFor(c: Config, chain: seq<Block>, src: Source, i: nat, queue: map<Hash256, Queued>)
    requires i < |chain|
  {
    TipAt(c, chain, i) in queue && queue[TipAt(c, chain, i)] == Entry(chain, src, i)
  }

  ghost predicate KeyOf(c: Config, chain: seq<Block>, arrived: set<nat>, p: nat, h: Hash256, i: nat) {
    i in arrived && p <= i < |chain| && h == TipAt(c, chain, i)
  }

  /** The arrived blocks from `p` on, and only those, wait under their parents' hashes. */
  ghost predicate Waiting(c: Config, chain: seq<Block>, src: Source, arrived: set<nat>, p: nat,
                          queue: map<Hash256, Queued>)
  {
    && (forall i {:trigger EntryFor(c, chain, src, i, queue)} ::
          i in arrived && p <= i < |chain| ==> EntryFor(c, chain, src, i, queue))
    && (forall h :: h in queue ==> exists i :: KeyOf(c, chain, arrived, p, h, i))
  }

  /** The first `p` blocks taken in order, the other arrivals waiting. */
  ghost predicate TakenTo(c: Config, chain: seq<Block>, src: Source, arrived: set<nat>, p: nat, s: State) {
    p <= |chain| && s == Grown(c, chain, src, p).(queue := s.queue) && Waiting(c, chain, src, arrived, p, s.queue)
  }

  /** The state once the blocks of `arrived` have been delivered: their longest prefix taken, the rest waiting. */
  ghost predicate Delivered(c: Config, chain: seq<Block>, src: Source, arrived: set<nat>, s: State) {
    TakenTo(c, chain, src, arrived, Frontier(arrived, |chain|, 0), s)
  }

  // ---- growing in order ----

  /** The offset that the row of a block records: where it was read, or where it is written. */
  function PositionOf(c: Config, s: State, q: Queued): nat {
    if q.position.Some? then q.position.value else if c.saveBlocks then FileSize(s.file) else 0
  }

  lemma {:induction false} AcceptExtends(c: Config, s: State, q: Queued)
    requires s.last == q.block.header.prevHash && s.height < TWO_31
    ensures var t, b := Accept(c, s, q), q.block;
      && t.headers == s.headers + [b.header]
      && t.last == c.hash(b.header)
      && t.height == s.height + 1
      && t.index == s.index[c.hash(b.header) := s.height]
      && t.queue == s.queue
      && t.file == (if q.position.None? && c.saveBlocks then s.file + [b] else s.file)
      && t.calls == s.calls + [ProcessTxs(b, s.height)]
      && (c.hash(b.header) !in s.index ==>
            t.sent == s.sent + [BlockHeaderWrite(RowOf(c, b, s.height, PositionOf(c, s, q)))])
  {
  }

  lemma {:induction false} GrownFacts(c: Config, chain: seq<Block>, src: Source, n: nat)
    requires IsChain(c, chain) && n <= |chain|
    ensures var s := Grown(c, chain, src, n);
            |s.headers| == n && s.last == TipAt(c, chain, n) && s.height == c.startHeight + 1 + n && s.queue == map[]
  {
    if n > 0 {
      GrownFacts(c, chain, src, n - 1);
      assert LinkedAt(c, chain, n - 1);
      AcceptExtends(c, Grown(c, chain, src, n - 1), Entry(chain, src, n - 1));
    }
  }

  /** What the next block of the chain adds. */
  lemma {:induction false} GrownStep(c: Config, chain: seq<Block>, src: Source, n: nat)
    requires IsChain(c, chain) && 0 < n <= |chain|
    ensures var s, t, b := Grown(c, chain, src, n - 1), Grown(c, chain, src, n), chain[n - 1];
      && t.headers == s.headers + [b.header]
      && t.index == s.index[c.hash(b.header) := c.startHeight + n]
      && t.file == (if Place(src, n - 1).None? && c.saveBlocks then s.file + [b] else s.file)
      && t.calls == s.calls + [ProcessTxs(b, c.startHeight + n)]
  {
    GrownFacts(c, chain, src, n - 1);
    assert LinkedAt(c, chain, n - 1);
    AcceptExtends(c, Grown(c, chain, src, n - 1), Entry(chain, src, n - 1));
  }

  lemma {:induction false} GrownIndex(c: Config, chain: seq<Block>, src: Source, n: nat, k: nat)
    requires IsChain(c, chain) && n <= |chain| && k <= |chain|
    ensures TipAt(c, chain, k) in Grown(c, chain, src, n).index <==> 0 < k <= n
  {
    if n > 0 {
      GrownStep(c, chain, src, n);
      GrownIndex(c, chain, src, n - 1, k);
      TipsAreDistinct(c, chain, n, k);
    }
  }

  /** What is waiting does not change what accepting a block does. */
  lemma {:induction false} AcceptIgnoresQueue(c: Config, s: State, q: Queued, queue: map<Hash256, Queued>)
    ensures Accept(c, s.(queue := queue), q) == Accept(c, s, q).(queue := queue)
  {
  }

  // ---- draining ----

  lemma {:induction false} WaitingShrinks(c: Config, chain: seq<Block>, src: Source, arrived: set<nat>, p: nat,
                                          queue: map<Hash256, Queued>)
    requires IsChain(c, chain) && p < |chain| && Waiting(c, chain, src, arrived, p, queue)
    ensures Waiting(c, chain, src, arrived, p + 1, queue - {TipAt(c, chain, p)})
  {
    var rest, q := queue - {TipAt(c, chain, p)}, p + 1;
    forall i | i in arrived && q <= i < |chain| ensures EntryFor(c, chain, src, i, rest) {
      assert EntryFor(c, chain, src, i, queue);
      TipsAreDistinct(c, chain, p, i);
    }
    forall h | h in rest ensures exists i :: KeyOf(c, chain, arrived, q, h, i) {
      var i :| KeyOf(c, chain, arrived, p, h, i);
      assert KeyOf(c, chain, arrived, q, h, i);
    }
  }

  /** A child is waiting exactly when it has arrived and its turn has not come. */
  lemma {:induction false} WaitsIff(c: Config, chain: seq<Block>, src: Source, arrived: set<nat>, p: nat,
                                    queue: map<Hash256, Queued>, k: nat)
    requires IsChain(c, chain) && p <= k <= |chain| && Waiting(c, chain, src, arrived, p, queue)
    ensures TipAt(c, chain, k) in queue <==> k < |chain| && k in arrived
    ensures TipAt(c, chain, k) in queue ==> queue[TipAt(c, chain, k)] == Entry(chain, src, k)
  {
    if k < |chain| && k in arrived {
      assert EntryFor(c, chain, src, k, queue);
    } else if TipAt(c, chain, k) in queue {
      var i :| KeyOf(c, chain, arrived, p, TipAt(c, chain, k), i);
      TipsAreDistinct(c, chain, k, i);
    }
  }

  lemma {:induction false} DrainOneGrows(c: Config, chain: seq<Block>, src: Source, arrived: set<nat>, p: nat, s: State)
    requires IsChain(c, chain) && TakenTo(c, chain, src, arrived, p, s)
    ensures s.last in s.queue <==> p < |chain| && p in arrived
    ensures s.last in s.queue ==> TakenTo(c, chain, src, arrived, p + 1, DrainOne(c, s))
  {
    GrownFacts(c, chain, src, p);
    WaitsIff(c, chain, src, arrived, p, s.queue, p);
    if s.last in s.queue {
      WaitingShrinks(c, chain, src, arrived, p, s.queue);
      AcceptIgnoresQueue(c, Grown(c, chain, src, p), Entry(chain, src, p), s.queue - {s.last});
      assert DrainOne(c, s) == Grown(c, chain, src, p + 1).(queue := s.queue - {s.last});
    }
  }

  lemma {:induction false} DrainReachesFrontier(c: Config, chain: seq<Block>, src: Source, arrived: set<nat>, p: nat,
                                                s: State)
    requires IsChain(c, chain) && TakenTo(c, chain, src, arrived, p, s)
    ensures TakenTo(c, chain, src, arrived, Frontier(arrived, |chain|, p), Drain(c, s))
    decreases |chain| - p
  {
    DrainOneGrows(c, chain, src, arrived, p, s);
    if s.last in s.queue {
      DrainReachesFrontier(c, chain, src, arrived, p + 1, DrainOne(c, s));
    }
  }

  lemma {:induction false} DrainFromGrown(c: Config, chain: seq<Block>, src: Source, arrived: set<nat>, p: nat,
                                          queue: map<Hash256, Queued>)
    requires IsChain(c, chain) && p <= |chain| && Waiting(c, chain, src, arrived, p, queue)
    ensures TakenTo(c, chain, src, arrived, Frontier(arrived, |chain|, p),
                    Drain(c, Grown(c, chain, src, p).(queue := queue)))
  {
    DrainReachesFrontier(c, chain, src, arrived, p, Grown(c, chain, src, p).(queue := queue));
  }

  // ---- one delivery ----

  /** Arrivals below `p` do not matter for what lies beyond it. */
  lemma {:induction false} FrontierFrom(arrived: set<nat>, n: nat, p: nat, q: nat)
    requires p <= q <= n && forall i :: p <= i < q ==> i in arrived
    ensures Frontier(arrived, n, p) == Frontier(arrived, n, q)
    decreases q - p
  {
    if p < q {
      FrontierFrom(arrived, n, p + 1, q);
    }
  }

  lemma {:induction false} FrontierUnmoved(arrived: set<nat>, n: nat, p: nat, k: nat)
    requires p <= n && k != Frontier(arrived, n, p)
    ensures Frontier(arrived + {k}, n, p) == Frontier(arrived, n, p)
    decreases n - p
  {
    if p < n && p in arrived {
      FrontierUnmoved(arrived, n, p + 1, k);
    }
  }

  /** More arrivals, all of them already taken or now waiting. */
  lemma {:induction false} WaitingGrows(c: Config, chain: seq<Block>, src: Source, arrived: set<nat>, p: nat,
                                        queue: map<Hash256, Queued>, k: nat)
    requires IsChain(c, chain) && p <= k < |chain| && Waiting(c, chain, src, arrived, p, queue)
    requires EntryFor(c, chain, src, k, queue[TipAt(c, chain, k) := Entry(chain, src, k)])
    ensures Waiting(c, chain, src, arrived + {k}, p, queue[TipAt(c, chain, k) := Entry(chain, src, k)])
  {
    var queue', more := queue[TipAt(c, chain, k) := Entry(chain, src, k)], arrived + {k};
    forall i | i in more && p <= i < |chain| ensures EntryFor(c, chain, src, i, queue') {
      TipsAreDistinct(c, chain, i, k);
      assert i in arrived ==> EntryFor(c, chain, src, i, queue);
    }
    forall h | h in queue' ensures exists i :: KeyOf(c, chain, more, p, h, i) {
      if h == TipAt(c, chain, k) {
        assert KeyOf(c, chain, more, p, h, k);
      } else {
        var i :| KeyOf(c, chain, arrived, p, h, i);
        assert KeyOf(c, chain, more, p, h, i);
      }
    }
  }

  /** A block taken at once never waits. */
  lemma {:induction false} WaitingSkips(c: Config, chain: seq<Block>, src: Source, arrived: set<nat>, p: nat,
                                        queue: map<Hash256, Queued>)
    requires IsChain(c, chain) && p < |chain| && p !in arrived && Waiting(c, chain, src, arrived, p, queue)
    ensures Waiting(c, chain, src, arrived + {p}, p + 1, queue)
  {
    var more, q := arrived + {p}, p + 1;
    forall i | i in more && q <= i < |chain| ensures EntryFor(c, chain, src, i, queue) {
    }
    forall h | h in queue ensures exists i :: KeyOf(c, chain, more, q, h, i) {
      var i :| KeyOf(c, chain, arrived, p, h, i);
      assert KeyOf(c, chain, more, q, h, i);
    }
  }

  lemma {:induction false} NextIsAccepted(c: Config, chain: seq<Block>, src: Source, p: nat, s: State)
    requires IsChain(c, chain) && p < |chain| && s == Grown(c, chain, src, p).(queue := s.queue)
    ensures Receive(c, s, Entry(chain, src, p)) == Drain(c, Grown(c, chain, src, p + 1).(queue := s.queue))
  {
    GrownFacts(c, chain, src, p);
    GrownIndex(c, chain, src, p, p + 1);
    assert LinkedAt(c, chain, p);
    AcceptIgnoresQueue(c, Grown(c, chain, src, p), Entry(chain, src, p), s.queue);
  }

  lemma {:induction false} FrontierPasses(arrived: set<nat>, n: nat)
    requires Frontier(arrived, n, 0) < n
    ensures var p := Frontier(arrived, n, 0);
            p !in arrived && Frontier(arrived + {p}, n, 0) == Frontier(arrived + {p}, n, p + 1)
  {
    var p := Frontier(arrived, n, 0);
    FrontierIsLongestPrefix(arrived, n, 0);
    FrontierFrom(arrived + {p}, n, 0, p + 1);
  }

  lemma {:induction false} NextIsTaken(c: Config, chain: seq<Block>, src: Source, arrived: set<nat>, p: nat, s: State)
    requires IsChain(c, chain) && p < |chain| && s == Grown(c, chain, src, p).(queue := s.queue)
    requires Waiting(c, chain, src, arrived, p + 1, s.queue)
    ensures TakenTo(c, chain, src, arrived, Frontier(arrived, |chain|, p + 1), Receive(c, s, Entry(chain, src, p)))
  {
    NextIsAccepted(c, chain, src, p, s);
    DrainFromGrown(c, chain, src, arrived, p + 1, s.queue);
  }

  lemma {:induction false} ReceiveNext(c: Config, chain: seq<Block>, src: Source, arrived: set<nat>, s: State, p: nat)
    requires IsChain(c, chain) && p == Frontier(arrived, |chain|, 0) < |chain|
    requires TakenTo(c, chain, src, arrived, p, s)
    ensures var more := arrived + {p};
            TakenTo(c, chain, src, more, Frontier(more, |chain|, p + 1), Receive(c, s, Entry(chain, src, p)))
  {
    FrontierPasses(arrived, |chain|);
    WaitingSkips(c, chain, src, arrived, p, s.queue);
    NextIsTaken(c, chain, src, arrived + {p}, p, s);
  }

  /** A block that comes before its parent is put with those that wait, unless it is there already. */
  lemma {:induction false} EarlyIsQueued(c: Config, chain: seq<Block>, src: Source, p: nat, s: State, k: nat, q: Queued)
    requires IsChain(c, chain) && p < k < |chain| && s == Grown(c, chain, src, p).(queue := s.queue)
    requires q.block == chain[k]
    requires var h := TipAt(c, chain, k); (if h in s.queue then s.queue[h] else q) == Entry(chain, src, k)
    ensures Receive(c, s, q) == s.(queue := s.queue[TipAt(c, chain, k) := Entry(chain, src, k)])
  {
    GrownFacts(c, chain, src, p);
    GrownIndex(c, chain, src, p, k + 1);
    assert LinkedAt(c, chain, k);
    TipsAreDistinct(c, chain, p, k);
    if TipAt(c, chain, k) in s.queue {
      assert s.queue[TipAt(c, chain, k) := Entry(chain, src, k)] == s.queue;
    }
  }

  lemma {:induction false} ReceiveEarly(c: Config, chain: seq<Block>, src: Source, arrived: set<nat>, s: State,
                                        p: nat, k: nat, q: Queued)
    requires IsChain(c, chain) && TakenTo(c, chain, src, arrived, p, s) && p < k < |chain|
    requires q.block == chain[k] && (k !in arrived ==> q == Entry(chain, src, k))
    ensures TakenTo(c, chain, src, arrived + {k}, p, Receive(c, s, q))
  {
    WaitsIff(c, chain, src, arrived, p, s.queue, k);
    WaitingGrows(c, chain, src, arrived, p, s.queue, k);
    EarlyIsQueued(c, chain, src, p, s, k, q);
  }

  lemma {:induction false} ReceiveAgain(c: Config, chain: seq<Block>, src: Source, arrived: set<nat>, s: State,
                                        p: nat, k: nat, q: Queued)
    requires IsChain(c, chain) && TakenTo(c, chain, src, arrived, p, s) && k < p == Frontier(arrived, |chain|, 0)
    requires q.block == chain[k]
    ensures arrived + {k} == arrived && Receive(c, s, q) == s
  {
    FrontierIsLongestPrefix(arrived, |chain|, 0);
    GrownIndex(c, chain, src, p, k + 1);
    KnownIsIgnored(c, s, q);
  }

  lemma {:induction false} KnownIsIgnored(c: Config, s: State, q: Queued)
    requires c.hash(q.block.header) in s.index
    ensures Receive(c, s, q) == s
  {
  }

  /** A block of the chain comes; only on its first arrival does it matter where it was read. */
  lemma {:induction false} ReceiveOne(c: Config, chain: seq<Block>, src: Source, arrived: set<nat>, s: State, k: nat,
                                      q: Queued)
    requires IsChain(c, chain) && k < |chain| && Delivered(c, chain, src, arrived, s)
    requires q.block == chain[k] && (k !in arrived ==> q == Entry(chain, src, k))
    ensures Delivered(c, chain, src, arrived + {k}, Receive(c, s, q))
  {
    var p := Frontier(arrived, |chain|, 0);
    if k < p {
      ReceiveAgain(c, chain, src, arrived, s, p, k, q);
    } else if k == p {
      FrontierPasses(arrived, |chain|);
      ReceiveNext(c, chain, src, arrived, s, p);
    } else {
      FrontierUnmoved(arrived, |chain|, 0, k);
      ReceiveEarly(c, chain, src, arrived, s, p, k, q);
    }
  }

  // ---- any sequence of deliveries ----

  function Elements(order: seq<nat>): set<nat> {
    set k | k in order
  }

  ghost predicate Drawn(order: seq<nat>, n: nat) {
    forall i :: 0 <= i < |order| ==> order[i] < n
  }

  function Deliveries(chain: seq<Block>, order: seq<nat>): (r: seq<Event>)
    requires Drawn(order, |chain|)
    ensures |r| == |order|
  {
    if order == [] then [] else [Deliver(chain[order[0]])] + Deliveries(chain, order[1..])
  }

  lemma {:induction false} RunDelivers(c: Config, chain: seq<Block>, arrived: set<nat>, s: State, order: seq<nat>)
    requires IsChain(c, chain) && Delivered(c, chain, Network, arrived, s)
    requires Drawn(order, |chain|)
    ensures Delivered(c, chain, Network, arrived + Elements(order), Run(c, s, Deliveries(chain, order)))
    decreases |order|
  {
    if order == [] {
      assert arrived + Elements(order) == arrived;
    } else {
      var t := OnBlock(c, s, chain[order[0]]);
      ReceiveOne(c, chain, Network, arrived, s, order[0], Queued(None, chain[order[0]]));
      RunDelivers(c, chain, arrived + {order[0]}, t, order[1..]);
      ElementsSplit(order);
      assert arrived + {order[0]} + Elements(order[1..]) == arrived + Elements(order);
      assert Deliveries(chain, order)[1..] == Deliveries(chain, order[1..]);
    }
  }

  lemma {:induction false} ElementsSplit(order: seq<nat>)
    requires order != []
    ensures Elements(order) == {order[0]} + Elements(order[1..])
  {
    assert order == [order[0]] + order[1..];
  }

  lemma {:induction false} NewHasNothingDelivered(c: Config, chain: seq<Block>, src: Source)
    ensures Delivered(c, chain, src, {}, New(c, FileAtStart(src)))
  {
  }

  lemma {:induction false} WaitingIsUnique(c: Config, chain: seq<Block>, src: Source, arrived: set<nat>, p: nat,
                                           q1: map<Hash256, Queued>, q2: map<Hash256, Queued>)
    requires Waiting(c, chain, src, arrived, p, q1) && Waiting(c, chain, src, arrived, p, q2)
    ensures q1 == q2
  {
    forall h ensures h in q1 ==> h in q2 && q2[h] == q1[h] {
      if h in q1 {
        var i :| KeyOf(c, chain, arrived, p, h, i);
        assert EntryFor(c, chain, src, i, q1) && EntryFor(c, chain, src, i, q2);
      }
    }
    forall h ensures h in q2 ==> h in q1 {
      if h in q2 {
        var i :| KeyOf(c, chain, arrived, p, h, i);
        assert EntryFor(c, chain, src, i, q1) && EntryFor(c, chain, src, i, q2);
      }
    }
  }

  /**
   * After any sequence of deliveries from the chain, in any order and with repeats, the longest prefix
   * that has arrived is in, as if it had come in order, and the other arrivals wait under their parents.
   */
  lemma {:induction false} AnyOrderDelivers(c: Config, chain: seq<Block>, order: seq<nat>)
    requires IsChain(c, chain) && Drawn(order, |chain|)
    ensures Delivered(c, chain, Network, Elements(order), Run(c, New(c, []), Deliveries(chain, order)))
  {
    NewHasNothingDelivered(c, chain, Network);
    RunDelivers(c, chain, {}, New(c, []), order);
    assert {} + Elements(order) == Elements(order);
  }

  /** The order of arrival leaves no trace: not in the index, the queue, the file, or what was sent. */
  lemma {:induction false} OrderLeavesNoTrace(c: Config, chain: seq<Block>, order1: seq<nat>, order2: seq<nat>)
    requires IsChain(c, chain) && Drawn(order1, |chain|) && Drawn(order2, |chain|)
    requires Elements(order1) == Elements(order2)
    ensures Run(c, New(c, []), Deliveries(chain, order1)) == Run(c, New(c, []), Deliveries(chain, order2))
  {
    AnyOrderDelivers(c, chain, order1);
    AnyOrderDelivers(c, chain, order2);
    var s1, s2 := Run(c, New(c, []), Deliveries(chain, order1)), Run(c, New(c, []), Deliveries(chain, order2));
    var arrived := Elements(order1);
    WaitingIsUnique(c, chain, Network, arrived, Frontier(arrived, |chain|, 0), s1.queue, s2.queue);
  }

  /** Once every block has arrived the whole chain is in and nothing waits. */
  lemma {:induction false} AllDelivered(c: Config, chain: seq<Block>, order: seq<nat>)
    requires IsChain(c, chain) && Drawn(order, |chain|)
    requires forall k :: 0 <= k < |chain| ==> k in order
    ensures Run(c, New(c, []), Deliveries(chain, order)) == Grown(c, chain, Network, |chain|)
  {
    var n, arrived := |chain|, Elements(order);
    AnyOrderDelivers(c, chain, order);
    FrontierIsLongestPrefix(arrived, n, 0);
    assert Frontier(arrived, n, 0) == n;
    GrownFacts(c, chain, Network, n);
    assert Run(c, New(c, []), Deliveries(chain, order)).queue.Keys == {};
  }

  // ---- any file ----

  /** The file holds blocks of the chain, those that `order` says. */
  ghost predicate FileOf(chain: seq<Block>, file: seq<Block>, order: seq<nat>) {
    Drawn(order, |chain|) && |order| == |file| && forall i :: 0 <= i < |file| ==> file[i] == chain[order[i]]
  }

  lemma {:induction false} ElementsGrow(order: seq<nat>, i: nat)
    requires i < |order|
    ensures Elements(order[..i + 1]) == Elements(order[..i]) + {order[i]}
  {
    assert order[..i + 1] == order[..i] + [order[i]];
  }

  lemma {:induction false} FirstReading(file: seq<Block>, order: seq<nat>, i: nat)
    requires i < |order| == |file| && order[i] !in Elements(order[..i])
    ensures Place(FromFile(file, order), order[i]) == Some(SizeTo(file, i))
  {
    forall j | 0 <= j < i ensures order[j] != order[i] {
      assert order[..i][j] == order[j];
    }
  }

  lemma {:induction false} ReadNext(c: Config, chain: seq<Block>, file: seq<Block>, order: seq<nat>, s: State, i: nat)
    requires IsChain(c, chain) && FileOf(chain, file, order) && i < |file|
    requires Delivered(c, chain, FromFile(file, order), Elements(order[..i]), s)
    ensures Delivered(c, chain, FromFile(file, order), Elements(order[..i + 1]),
                      Receive(c, s, Queued(Some(SizeTo(file, i)), file[i])))
  {
    if order[i] !in Elements(order[..i]) {
      FirstReading(file, order, i);
    }
    var q := Queued(Some(SizeTo(file, i)), file[i]);
    ReceiveOne(c, chain, FromFile(file, order), Elements(order[..i]), s, order[i], q);
    ElementsGrow(order, i);
  }

  lemma {:induction false} ReadDelivers(c: Config, chain: seq<Block>, file: seq<Block>, order: seq<nat>, s: State,
                                        i: nat)
    requires IsChain(c, chain) && FileOf(chain, file, order) && i <= |file|
    requires Delivered(c, chain, FromFile(file, order), Elements(order[..i]), s)
    ensures Delivered(c, chain, FromFile(file, order), Elements(order), ReadFrom(c, s, file, i))
    decreases |file| - i
  {
    if i == |file| {
      assert order[..i] == order;
    } else {
      ReadNext(c, chain, file, order, s, i);
      ReadDelivers(c, chain, file, order, Receive(c, s, Queued(Some(SizeTo(file, i)), file[i])), i + 1);
    }
  }

  /**
   * After reading a file of blocks from the chain, in any order and with repeats, the longest prefix in it
   * is in, each block with the offset at which it was first read, and the others wait with theirs.
   */
  lemma {:induction false} AnyFileIsRead(c: Config, chain: seq<Block>, file: seq<Block>, order: seq<nat>)
    requires IsChain(c, chain) && FileOf(chain, file, order)
    ensures Delivered(c, chain, FromFile(file, order), Elements(order), ReadFile(c, New(c, file), file))
  {
    NewHasNothingDelivered(c, chain, FromFile(file, order));
    assert Elements(order[..0]) == {};
    ReadDelivers(c, chain, file, order, New(c, file), 0);
  }

  // ---- what growing in order leaves behind ----

  function Headers(chain: seq<Block>, n: nat): (r: seq<Header>)
    requires n <= |chain|
    ensures |r| == n && forall i :: 0 <= i < n ==> r[i] == chain[i].header
  {
    if n == 0 then [] else Headers(chain, n - 1) + [chain[n - 1].header]
  }

  /** The row of block `i`: its height, where it was read or, if blocks are saved, written, its size and count. */
  function ChainRow(c: Config, chain: seq<Block>, src: Source, i: nat): BlockRow
    requires i < |chain|
  {
    var b := chain[i];
    var position :=
      if Place(src, i).Some? then Place(src, i).value else if c.saveBlocks then SizeTo(chain, i) else 0;
    BlockRow(c.startHeight + 1 + i, c.hash(b.header), b.header, position, b.size % TWO_32, |b.txns| % TWO_32)
  }

  /** The rows of the first `n` blocks, sent in order. */
  function ChainOps(c: Config, chain: seq<Block>, src: Source, n: nat): (r: seq<Op>)
    requires n <= |chain|
    ensures |r| == n
  {
    if n == 0 then [] else ChainOps(c, chain, src, n - 1) + [BlockHeaderWrite(ChainRow(c, chain, src, n - 1))]
  }

  function ChainCalls(c: Config, chain: seq<Block>, n: nat): (r: seq<AnalyserCall>)
    requires n <= |chain|
    ensures |r| == n
  {
    if n == 0 then [] else ChainCalls(c, chain, n - 1) + [ProcessTxs(chain[n - 1], c.startHeight + n)]
  }

  lemma {:induction false} ChainOpsAt(c: Config, chain: seq<Block>, src: Source, n: nat, i: nat)
    requires i < n <= |chain|
    ensures ChainOps(c, chain, src, n)[i] == BlockHeaderWrite(ChainRow(c, chain, src, i))
    ensures ChainCalls(c, chain, n)[i] == ProcessTxs(chain[i], c.startHeight + 1 + i)
  {
    if i < n - 1 {
      ChainOpsAt(c, chain, src, n - 1, i);
    }
  }

  lemma {:induction false} SizeAgrees(a: seq<Block>, b: seq<Block>, n: nat)
    requires n <= |a| && n <= |b| && forall i :: 0 <= i < n ==> a[i] == b[i]
    ensures SizeTo(a, n) == SizeTo(b, n)
  {
    if n > 0 {
      SizeAgrees(a, b, n - 1);
    }
  }

  lemma {:induction false} OneMoreBlock(chain: seq<Block>, n: nat)
    requires 0 < n <= |chain|
    ensures chain[..n] == chain[..n - 1] + [chain[n - 1]]
  {
  }

  /** The blocks come from the network, or the first `n` are all in the file. */
  predicate Sourced(src: Source, n: nat) {
    src.Network? || forall i :: 0 <= i < n ==> Place(src, i).Some?
  }

  /** A file that is read is not written to; blocks from the network are saved in chain order, if at all. */
  lemma {:induction false} GrownFile(c: Config, chain: seq<Block>, src: Source, n: nat)
    requires IsChain(c, chain) && n <= |chain| && Sourced(src, n)
    ensures Grown(c, chain, src, n).file ==
            if src.FromFile? then src.file else if c.saveBlocks then chain[..n] else []
  {
    if n > 0 {
      GrownFile(c, chain, src, n - 1);
      GrownStep(c, chain, src, n);
      OneMoreBlock(chain, n);
    }
  }

  lemma {:induction false} OneMoreHeader(before: seq<Header>, after: seq<Header>, chain: seq<Block>, n: nat)
    requires 0 < n <= |chain| && before == Headers(chain, n - 1) && after == before + [chain[n - 1].header]
    ensures after == Headers(chain, n)
  {
  }

  lemma {:induction false} GrownHeaders(c: Config, chain: seq<Block>, src: Source, n: nat)
    requires IsChain(c, chain) && n <= |chain|
    ensures Grown(c, chain, src, n).headers == Headers(chain, n)
  {
    if n > 0 {
      GrownHeaders(c, chain, src, n - 1);
      GrownStep(c, chain, src, n);
      OneMoreHeader(Grown(c, chain, src, n - 1).headers, Grown(c, chain, src, n).headers, chain, n);
    }
  }

  lemma {:induction false} OneMoreCall(c: Config, chain: seq<Block>, n: nat, before: seq<AnalyserCall>,
                                       after: seq<AnalyserCall>)
    requires 0 < n <= |chain| && before == ChainCalls(c, chain, n - 1)
    requires after == before + [ProcessTxs(chain[n - 1], c.startHeight + n)]
    ensures after == ChainCalls(c, chain, n)
  {
  }

  lemma {:induction false} GrownCalls(c: Config, chain: seq<Block>, src: Source, n: nat)
    requires IsChain(c, chain) && n <= |chain|
    ensures Grown(c, chain, src, n).calls == ChainCalls(c, chain, n)
  {
    if n > 0 {
      GrownCalls(c, chain, src, n - 1);
      GrownStep(c, chain, src, n);
      OneMoreCall(c, chain, n, Grown(c, chain, src, n - 1).calls, Grown(c, chain, src, n).calls);
    }
  }

  lemma {:induction false} PositionIsOffset(c: Config, chain: seq<Block>, src: Source, n: nat)
    requires IsChain(c, chain) && n < |chain| && Sourced(src, n + 1)
    ensures PositionOf(c, Grown(c, chain, src, n), Entry(chain, src, n)) == ChainRow(c, chain, src, n).position
  {
    GrownFile(c, chain, src, n);
    if src.Network? && c.saveBlocks {
      SizeAgrees(chain[..n], chain, n);
    }
  }

  lemma {:induction false} AcceptSends(c: Config, s: State, q: Queued, row: BlockRow)
    requires s.last == q.block.header.prevHash && c.hash(q.block.header) !in s.index
    requires row == RowOf(c, q.block, s.height, PositionOf(c, s, q))
    ensures Accept(c, s, q).sent == s.sent + [BlockHeaderWrite(row)]
  {
  }

  lemma {:induction false} NextRow(c: Config, chain: seq<Block>, src: Source, n: nat)
    requires IsChain(c, chain) && n < |chain| && Sourced(src, n + 1)
    ensures var s, q := Grown(c, chain, src, n), Entry(chain, src, n);
      && s.last == q.block.header.prevHash && c.hash(q.block.header) !in s.index
      && ChainRow(c, chain, src, n) == RowOf(c, q.block, s.height, PositionOf(c, s, q))
  {
    PositionIsOffset(c, chain, src, n);
    GrownFacts(c, chain, src, n);
    GrownIndex(c, chain, src, n, n + 1);
    assert LinkedAt(c, chain, n);
  }

  lemma {:induction false} GrownSends(c: Config, chain: seq<Block>, src: Source, n: nat)
    requires IsChain(c, chain) && 0 < n <= |chain| && Sourced(src, n)
    ensures Grown(c, chain, src, n).sent ==
            Grown(c, chain, src, n - 1).sent + [BlockHeaderWrite(ChainRow(c, chain, src, n - 1))]
  {
    NextRow(c, chain, src, n - 1);
    AcceptSends(c, Grown(c, chain, src, n - 1), Entry(chain, src, n - 1), ChainRow(c, chain, src, n - 1));
  }

  lemma {:induction false} GrownSent(c: Config, chain: seq<Block>, src: Source, n: nat)
    requires IsChain(c, chain) && n <= |chain| && Sourced(src, n)
    ensures Grown(c, chain, src, n).sent == ChainOps(c, chain, src, n)
  {
    if n > 0 {
      GrownSent(c, chain, src, n - 1);
      GrownSends(c, chain, src, n);
    }
  }

  /**
   * The first `n` blocks have each been given the next height, written once to the file or left where they
   * were read, sent once to the table with that offset and passed once to the analyser.
   */
  lemma {:induction false} GrownInWords(c: Config, chain: seq<Block>, src: Source, n: nat)
    requires IsChain(c, chain) && n <= |chain| && Sourced(src, n)
    ensures var s := Grown(c, chain, src, n);
      && |s.headers| == |s.sent| == |s.calls| == n
      && s.file == (if src.FromFile? then src.file else if c.saveBlocks then chain[..n] else [])
      && (forall i :: 0 <= i < n ==> s.headers[i] == chain[i].header)
      && (forall i :: 0 <= i < n ==> s.sent[i] == BlockHeaderWrite(ChainRow(c, chain, src, i)))
      && (forall i :: 0 <= i < n ==> s.calls[i] == ProcessTxs(chain[i], c.startHeight + 1 + i))
  {
    GrownFile(c, chain, src, n);
    GrownHeaders(c, chain, src, n);
    GrownCalls(c, chain, src, n);
    GrownSent(c, chain, src, n);
    forall i | 0 <= i < n
      ensures ChainOps(c, chain, src, n)[i] == BlockHeaderWrite(ChainRow(c, chain, src, i))
      ensures ChainCalls(c, chain, n)[i] == ProcessTxs(chain[i], c.startHeight + 1 + i)
    {
      ChainOpsAt(c, chain, src, n, i);
    }
  }

  /** The blocks of the file from `p` on wait under their parents, each with the offset of its first reading. */
  ghost predicate WaitsFromFile(c: Config, chain: seq<Block>, file: seq<Block>, order: seq<nat>, p: nat,
                                queue: map<Hash256, Queued>)
    requires FileOf(chain, file, order)
  {
    && (forall i :: 0 <= i < |order| && p <= order[i] ==>
          && TipAt(c, chain, order[i]) in queue
          && queue[TipAt(c, chain, order[i])] == Queued(Some(SizeTo(file, FirstAt(order, order[i]))), chain[order[i]]))
    && (forall h :: h in queue ==> exists i :: 0 <= i < |order| && p <= order[i] && h == TipAt(c, chain, order[i]))
  }

  lemma {:induction false} WaitingInWords(c: Config, chain: seq<Block>, file: seq<Block>, order: seq<nat>, p: nat,
                                          queue: map<Hash256, Queued>)
    requires FileOf(chain, file, order) && Waiting(c, chain, FromFile(file, order), Elements(order), p, queue)
    ensures WaitsFromFile(c, chain, file, order, p, queue)
  {
    forall i | 0 <= i < |order| && p <= order[i]
      ensures EntryFor(c, chain, FromFile(file, order), order[i], queue)
    {
      assert order[i] in Elements(order);
    }
    forall h | h in queue ensures exists i :: 0 <= i < |order| && p <= order[i] && h == TipAt(c, chain, order[i]) {
      var k :| KeyOf(c, chain, Elements(order), p, h, k);
      var i :| 0 <= i < |order| && order[i] == k;
    }
  }

  /** The row of block `i` has the offset of its first reading. */
  lemma {:induction false} RowFromFile(c: Config, chain: seq<Block>, file: seq<Block>, order: seq<nat>, i: nat)
    requires FileOf(chain, file, order) && i < |chain| && i in order
    ensures ChainRow(c, chain, FromFile(file, order), i) ==
            BlockRow(c.startHeight + 1 + i, c.hash(chain[i].header), chain[i].header, SizeTo(file, FirstAt(order, i)),
                     chain[i].size % TWO_32, |chain[i].txns| % TWO_32)
  {
  }

  lemma {:induction false} FrontierIs(arrived: set<nat>, n: nat, p: nat)
    requires p <= n && p !in arrived && forall i :: 0 <= i < p ==> i in arrived
    ensures Frontier(arrived, n, 0) == p
  {
    FrontierFrom(arrived, n, 0, p);
  }

  /** What reading any file of blocks from the chain leaves: `p` is the first block of the chain not in the file. */
  lemma {:induction false} AnyFileInWords(c: Config, chain: seq<Block>, file: seq<Block>, order: seq<nat>, p: nat)
    requires IsChain(c, chain) && FileOf(chain, file, order)
    requires p <= |chain| && p !in order && forall i :: 0 <= i < p ==> i in order
    ensures var s := ReadFile(c, New(c, file), file);
      && s.file == file && |s.headers| == |s.sent| == |s.calls| == p
      && (forall i :: 0 <= i < p ==>
            s.headers[i] == chain[i].header && s.calls[i] == ProcessTxs(chain[i], c.startHeight + 1 + i))
      && (forall i :: 0 <= i < p ==>
            s.sent[i] == BlockHeaderWrite(
              BlockRow(c.startHeight + 1 + i, c.hash(chain[i].header), chain[i].header,
                       SizeTo(file, FirstAt(order, i)), chain[i].size % TWO_32, |chain[i].txns| % TWO_32)))
      && WaitsFromFile(c, chain, file, order, p, s.queue)
  {
    var src := FromFile(file, order);
    AnyFileIsRead(c, chain, file, order);
    FrontierIs(Elements(order), |chain|, p);
    GrownInWords(c, chain, src, p);
    WaitingInWords(c, chain, file, order, p, ReadFile(c, New(c, file), file).queue);
    forall i | 0 <= i < p
      ensures ChainRow(c, chain, src, i) ==
              BlockRow(c.startHeight + 1 + i, c.hash(chain[i].header), chain[i].header, SizeTo(file, FirstAt(order, i)),
                       chain[i].size % TWO_32, |chain[i].txns| % TWO_32)
    {
      RowFromFile(c, chain, file, order, i);
    }
  }

  function HeightsTo(c: Config, chain: seq<Block>, n: nat): map<Hash256, nat>
    requires n <= |chain|
  {
    if n == 0 then map[] else HeightsTo(c, chain, n - 1)[TipAt(c, chain, n) := c.startHeight + n]
  }

  lemma {:induction false} OneMoreHeight(c: Config, chain: seq<Block>, n: nat, before: map<Hash256, nat>,
                                         after: map<Hash256, nat>)
    requires 0 < n <= |chain| && before == HeightsTo(c, chain, n - 1)
    requires after == before[TipAt(c, chain, n) := c.startHeight + n]
    ensures after == HeightsTo(c, chain, n)
  {
  }

  lemma {:induction false} GrownIndexIs(c: Config, chain: seq<Block>, src: Source, n: nat)
    requires IsChain(c, chain) && n <= |chain|
    ensures Grown(c, chain, src, n).index == HeightsTo(c, chain, n)
  {
    if n > 0 {
      GrownIndexIs(c, chain, src, n - 1);
      GrownStep(c, chain, src, n);
      OneMoreHeight(c, chain, n, Grown(c, chain, src, n - 1).index, Grown(c, chain, src, n).index);
    }
  }

  lemma {:induction false} HeightAt(c: Config, chain: seq<Block>, n: nat, i: nat)
    requires IsChain(c, chain) && i < n <= |chain|
    ensures TipAt(c, chain, i + 1) in HeightsTo(c, chain, n)
    ensures HeightsTo(c, chain, n)[TipAt(c, chain, i + 1)] == c.startHeight + 1 + i
  {
    TipsAreDistinct(c, chain, i + 1, n);
    if i < n - 1 {
      HeightAt(c, chain, n - 1, i);
    }
  }

  lemma {:induction false} GrownHeights(c: Config, chain: seq<Block>, src: Source, n: nat, i: nat)
    requires IsChain(c, chain) && i < n <= |chain|
    ensures TipAt(c, chain, i + 1) in Grown(c, chain, src, n).index
    ensures Grown(c, chain, src, n).index[TipAt(c, chain, i + 1)] == c.startHeight + 1 + i
  {
    GrownIndexIs(c, chain, src, n);
    HeightAt(c, chain, n, i);
  }
}
