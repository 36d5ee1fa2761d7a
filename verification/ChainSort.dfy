/** `sort_blocks_by_hash_from_last` of python/src/util.py. */
module ChainSort {
  import opened Common

  /** A block's own hash, if it has been computed, and its parent's. */
  datatype Block = Block(hash: Option<string>, prev: string, nTime: nat)

  datatype SortError = KeyError(key: string)

  /** The dictionary of the blocks that have a hash; a later block replaces an earlier one. */
  function HashToIndex(blocks: seq<Block>, n: nat): (m: map<string, nat>)
    requires n <= |blocks|
    ensures forall h :: h in m ==> m[h] < n && blocks[m[h]].hash == Some(h)
    ensures forall i :: 0 <= i < n && blocks[i].hash.Some? ==> blocks[i].hash.value in m
  {
    if n == 0 then map[]
    else if blocks[n - 1].hash.None? then HashToIndex(blocks, n - 1)
    else HashToIndex(blocks, n - 1)[blocks[n - 1].hash.value := n - 1]
  }

  /** Each block is the parent of the next. */
  predicate Linked(chain: seq<Block>) {
    forall i :: 0 <= i < |chain| - 1 ==> chain[i].hash == Some(chain[i + 1].prev)
  }

  predicate Within(chain: seq<Block>, blocks: seq<Block>) {
    forall i :: 0 <= i < |chain| ==> chain[i] in blocks
  }

  /** A run of blocks that ends in the last one and whose first block's parent is not there. */
  ghost predicate BrokenBefore(blocks: seq<Block>, tail: seq<Block>, key: string) {
    && tail != [] && |tail| < |blocks|
    && Linked(tail) && Within(tail, blocks) && Last(tail) == Last(blocks)
    && tail[0].prev == key && forall i :: 0 <= i < |blocks| ==> blocks[i].hash != Some(key)
  }

  /** Follow parents from the last block, inserting at the front. */
  method SortFromLast(blocks: seq<Block>) returns (r: Result<seq<Block>, SortError>)
    ensures blocks == [] ==> r == Success([])
    ensures r.Success? ==>
      && |r.value| == |blocks| && Linked(r.value) && Within(r.value, blocks)
      && (blocks != [] ==> Last(r.value) == Last(blocks))
    ensures r.Failure? ==> exists tail :: BrokenBefore(blocks, tail, r.error.key)
  {
    if blocks == [] {
      return Success([]);
    }
    var hashToIndex := HashToIndex(blocks, |blocks|);
    var b := blocks[|blocks| - 1];
    var newBlocks := [b];
    while |newBlocks| < |blocks|
      invariant newBlocks != [] && |newBlocks| <= |blocks| && newBlocks[0] == b
      invariant Linked(newBlocks) && Within(newBlocks, blocks) && Last(newBlocks) == Last(blocks)
      decreases |blocks| - |newBlocks|
    {
      if b.prev !in hashToIndex {
        assert BrokenBefore(blocks, newBlocks, b.prev);
        return Failure(KeyError(b.prev));
      }
      var parent := blocks[hashToIndex[b.prev]];
      LinkedPush(parent, newBlocks);
      b := parent;
      newBlocks := [b] + newBlocks;
    }
    return Success(newBlocks);
  }

  lemma {:induction false} LinkedPush(parent: Block, chain: seq<Block>)
    requires chain != [] && Linked(chain) && parent.hash == Some(chain[0].prev)
    ensures Linked([parent] + chain)
  {
    var longer := [parent] + chain;
    forall i | 0 <= i < |longer| - 1 ensures longer[i].hash == Some(longer[i + 1].prev) {
      if i > 0 {
        assert longer[i] == chain[i - 1] && longer[i + 1] == chain[i];
      }
    }
  }

  // ---- a sorted chain is a rearrangement ----

  type Rank = string -> nat

  /** Every block has a hash, and it ranks above its parent's. */
  ghost predicate Acyclic(rank: Rank, blocks: seq<Block>) {
    forall i :: 0 <= i < |blocks| ==> blocks[i].hash.Some? && rank(blocks[i].prev) < rank(blocks[i].hash.value)
  }

  ghost predicate DistinctHashes(blocks: seq<Block>) {
    forall i, j :: 0 <= i < j < |blocks| ==> blocks[i].hash != blocks[j].hash
  }

  ghost predicate NoRepeats(s: seq<Block>) {
    forall i, j :: 0 <= i < j < |s| ==> s[i] != s[j]
  }

  lemma {:induction false} RanksRise(rank: Rank, chain: seq<Block>, i: nat, j: nat)
    requires Linked(chain) && Acyclic(rank, chain) && i < j < |chain|
    ensures rank(chain[i].hash.value) < rank(chain[j].hash.value)
    decreases j - i
  {
    assert chain[j - 1].hash == Some(chain[j].prev);
    if i < j - 1 {
      RanksRise(rank, chain, i, j - 1);
    }
  }

  // ---- there is at most one chain to find ----

  /** Counted from the end, two runs of linked blocks that end alike agree. */
  lemma {:induction false} SameFromTheEnd(blocks: seq<Block>, a: seq<Block>, b: seq<Block>, k: nat)
    requires DistinctHashes(blocks) && Linked(a) && Within(a, blocks) && Linked(b) && Within(b, blocks)
    requires k < |a| && k < |b| && Last(a) == Last(b)
    ensures a[|a| - 1 - k] == b[|b| - 1 - k]
  {
    if k > 0 {
      SameFromTheEnd(blocks, a, b, k - 1);
      var x, y := a[|a| - 1 - k], b[|b| - 1 - k];
      assert x.hash == y.hash;
      var i :| 0 <= i < |blocks| && blocks[i] == x;
      var j :| 0 <= j < |blocks| && blocks[j] == y;
    }
  }

  /** In a chain, the parent of every block but the first is listed. */
  lemma {:induction false} ParentIsThere(blocks: seq<Block>, chain: seq<Block>, tail: seq<Block>)
    requires tail != [] && |tail| < |blocks| && DistinctHashes(blocks)
    requires |chain| == |blocks| && Linked(chain) && Within(chain, blocks) && Last(chain) == Last(blocks)
    requires Linked(tail) && Within(tail, blocks) && Last(tail) == Last(blocks)
    ensures exists i :: 0 <= i < |blocks| && blocks[i].hash == Some(tail[0].prev)
  {
    SameFromTheEnd(blocks, chain, tail, |tail| - 1);
    var parent := chain[|chain| - 1 - |tail|];
    assert parent in blocks && parent.hash == Some(tail[0].prev);
  }

  /** If the blocks form a chain, however they are listed before its last, no lookup fails and the chain is found. */
  lemma {:induction false} ChainIsFound(blocks: seq<Block>, chain: seq<Block>, r: Result<seq<Block>, SortError>)
    requires blocks != [] && DistinctHashes(blocks)
    requires |chain| == |blocks| && Linked(chain) && Within(chain, blocks) && Last(chain) == Last(blocks)
    requires r.Success? ==>
      |r.value| == |blocks| && Linked(r.value) && Within(r.value, blocks) && Last(r.value) == Last(blocks)
    requires r.Failure? ==> exists tail :: BrokenBefore(blocks, tail, r.error.key)
    ensures r == Success(chain)
  {
    match r
    case Failure(e) =>
      var tail :| BrokenBefore(blocks, tail, e.key);
      ParentIsThere(blocks, chain, tail);
      assert false;
    case Success(found) =>
      forall i | 0 <= i < |chain| ensures found[i] == chain[i] {
        SameFromTheEnd(blocks, found, chain, |chain| - 1 - i);
      }
      assert found == chain;
  }

  // ---- counting ----

  function Elements(s: seq<Block>): set<Block> {
    set b | b in s
  }

  lemma {:induction false} NoRepeatsCounts(s: seq<Block>)
    requires NoRepeats(s)
    ensures |Elements(s)| == |s|
    ensures forall b :: multiset(s)[b] == if b in s then 1 else 0
  {
    if s != [] {
      var init := s[..|s| - 1];
      NoRepeatsCounts(init);
      assert s == init + [Last(s)];
      assert Elements(s) == Elements(init) + {Last(s)};
      assert Last(s) !in init;
    }
  }

  lemma {:induction false} SubsetOfSameSize(a: set<Block>, b: set<Block>)
    requires a <= b && |a| == |b|
    ensures a == b
  {
    if exists x :: x in b && x !in a {
      var x :| x in b && x !in a;
      assert a <= b - {x};
      SubsetSize(a, b - {x});
    }
  }

  lemma {:induction false} SubsetSize(a: set<Block>, b: set<Block>)
    requires a <= b
    ensures |a| <= |b|
    decreases a
  {
    if a != {} {
      var x :| x in a;
      SubsetSize(a - {x}, b - {x});
    }
  }

  /** Acyclic links leave no room for repeats, so a sorted list has every block exactly once. */
  lemma {:induction false} SortedIsPermutation(rank: Rank, blocks: seq<Block>, sorted: seq<Block>)
    requires Acyclic(rank, blocks) && DistinctHashes(blocks)
    requires |sorted| == |blocks| && Linked(sorted) && Within(sorted, blocks)
    ensures multiset(sorted) == multiset(blocks)
  {
    forall i | 0 <= i < |sorted| ensures sorted[i].hash.Some? && rank(sorted[i].prev) < rank(sorted[i].hash.value) {
      assert sorted[i] in blocks;
    }
    forall i, j | 0 <= i < j < |sorted| ensures sorted[i] != sorted[j] {
      RanksRise(rank, sorted, i, j);
    }
    NoRepeatsCounts(sorted);
    NoRepeatsCounts(blocks);
    SubsetOfSameSize(Elements(sorted), Elements(blocks));
    forall b ensures multiset(sorted)[b] == multiset(blocks)[b] {
      assert b in sorted <==> b in Elements(sorted);
      assert b in blocks <==> b in Elements(blocks);
    }
  }
}
