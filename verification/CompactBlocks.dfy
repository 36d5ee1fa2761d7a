/**
 * Differentially encoded indexes of compact blocks (BIP 152): `BlockTransactionsRequest` and
 * `HeaderAndShortIDs` of python/src/p2p_framework/object.py.
 */
module CompactBlocks {
  import opened Common

  /** The index before position `i`; -1 before the first. */
  function Before(xs: seq<int>, i: nat): int
    requires i <= |xs|
  {
    if i == 0 then -1 else xs[i - 1]
  }

  /** `diffs` encodes `absolute`: each index less the one before it, less one. */
  predicate Encodes(absolute: seq<int>, diffs: seq<int>) {
    |diffs| == |absolute| && forall i :: 0 <= i < |absolute| ==> diffs[i] == absolute[i] - Before(absolute, i) - 1
  }

  class BlockTransactionsRequest {
    var indexes: seq<int>

    constructor (indexes: seq<int>)
      ensures this.indexes == indexes
    {
      this.indexes := indexes;
    }

    method FromAbsolute(absolute: seq<int>)
      modifies this
      ensures Encodes(absolute, indexes)
    {
      indexes := [];
      var lastIndex := -1;
      for i := 0 to |absolute|
        invariant |indexes| == i && lastIndex == Before(absolute, i)
        invariant forall j :: 0 <= j < i ==> indexes[j] == absolute[j] - Before(absolute, j) - 1
      {
        indexes := indexes + [absolute[i] - lastIndex - 1];
        lastIndex := absolute[i];
      }
    }

    method ToAbsolute() returns (absolute: seq<int>)
      ensures Encodes(absolute, indexes)
    {
      absolute := [];
      var lastIndex := -1;
      for i := 0 to |indexes|
        invariant |absolute| == i && lastIndex == Before(absolute, i)
        invariant forall j :: 0 <= j < i ==> indexes[j] == absolute[j] - Before(absolute, j) - 1
      {
        var longer := absolute + [indexes[i] + lastIndex + 1];
        assert forall j :: 0 <= j <= i ==> Before(longer, j) == Before(absolute, j);
        absolute := longer;
        lastIndex := Last(absolute);
      }
    }
  }

  lemma {:induction false} DecodedAgrees(a1: seq<int>, a2: seq<int>, diffs: seq<int>, i: nat)
    requires Encodes(a1, diffs) && Encodes(a2, diffs) && i < |diffs|
    ensures a1[i] == a2[i]
  {
    if i > 0 {
      DecodedAgrees(a1, a2, diffs, i - 1);
    }
  }

  /**
   * A list of indexes has one list of differences and the other way round, so `to_absolute` and
   * `from_absolute` undo each other on all lists.
   */
  lemma {:induction false} EncodingIsOneToOne(a1: seq<int>, d1: seq<int>, a2: seq<int>, d2: seq<int>)
    requires Encodes(a1, d1) && Encodes(a2, d2)
    ensures a1 == a2 <==> d1 == d2
  {
    if d1 == d2 {
      forall i | 0 <= i < |d1| ensures a1[i] == a2[i] {
        DecodedAgrees(a1, a2, d1, i);
      }
    }
  }

  predicate StrictlyIncreasing(xs: seq<int>) {
    forall i, j :: 0 <= i < j < |xs| ==> xs[i] < xs[j]
  }

  predicate NonNegative(xs: seq<int>) {
    forall i :: 0 <= i < |xs| ==> xs[i] >= 0
  }

  lemma {:induction false} RisesFromBefore(absolute: seq<int>, diffs: seq<int>, i: nat, j: nat)
    requires Encodes(absolute, diffs) && NonNegative(diffs) && i <= j < |absolute|
    ensures Before(absolute, i) < absolute[j]
    decreases j
  {
    if i < j {
      RisesFromBefore(absolute, diffs, i, j - 1);
    }
  }

  /** The indexes rise strictly from zero on exactly when no difference is negative. */
  lemma {:induction false} ValidIndexesIff(absolute: seq<int>, diffs: seq<int>)
    requires Encodes(absolute, diffs)
    ensures StrictlyIncreasing(absolute) && NonNegative(absolute) <==> NonNegative(diffs)
  {
    if NonNegative(diffs) {
      forall j | 0 <= j < |absolute| ensures absolute[j] >= 0 {
        RisesFromBefore(absolute, diffs, 0, j);
      }
      forall i, j | 0 <= i < j < |absolute| ensures absolute[i] < absolute[j] {
        RisesFromBefore(absolute, diffs, i + 1, j);
      }
    }
  }

  // ---- prefilled transactions ----

  datatype Prefilled<Tx> = Prefilled(index: int, tx: Tx)

  function IndexBefore<Tx>(ps: seq<Prefilled<Tx>>, i: nat): int
    requires i <= |ps|
  {
    if i == 0 then -1 else ps[i - 1].index
  }

  /** `wire` carries the transactions of `prefilled` with differentially encoded indexes. */
  ghost predicate Carries<Tx>(prefilled: seq<Prefilled<Tx>>, wire: seq<Prefilled<Tx>>) {
    && |wire| == |prefilled|
    && forall i :: 0 <= i < |wire| ==>
         wire[i] == Prefilled(prefilled[i].index - IndexBefore(prefilled, i) - 1, prefilled[i].tx)
  }

  /** The loop of `HeaderAndShortIDs.to_p2p`. */
  method ToP2P<Tx>(prefilled: seq<Prefilled<Tx>>) returns (wire: seq<Prefilled<Tx>>)
    ensures Carries(prefilled, wire)
  {
    wire := [];
    var lastIndex := -1;
    for i := 0 to |prefilled|
      invariant lastIndex == IndexBefore(prefilled, i)
      invariant |wire| == i
      invariant forall j :: 0 <= j < i ==>
        wire[j] == Prefilled(prefilled[j].index - IndexBefore(prefilled, j) - 1, prefilled[j].tx)
    {
      wire := wire + [Prefilled(prefilled[i].index - lastIndex - 1, prefilled[i].tx)];
      lastIndex := prefilled[i].index;
    }
  }

  /** The loop of the constructor of `HeaderAndShortIDs`. */
  method FromP2P<Tx>(wire: seq<Prefilled<Tx>>) returns (prefilled: seq<Prefilled<Tx>>)
    ensures Carries(prefilled, wire)
  {
    prefilled := [];
    var lastIndex := -1;
    for i := 0 to |wire|
      invariant |prefilled| == i && lastIndex == IndexBefore(prefilled, i)
      invariant Carries(prefilled, wire[..i])
    {
      CarriesOneMore(prefilled, wire, i);
      prefilled := prefilled + [Prefilled(wire[i].index + lastIndex + 1, wire[i].tx)];
      lastIndex := Last(prefilled).index;
    }
    assert wire[..|wire|] == wire;
  }

  lemma {:induction false} CarriesOneMore<Tx>(prefilled: seq<Prefilled<Tx>>, wire: seq<Prefilled<Tx>>, i: nat)
    requires i < |wire| && Carries(prefilled, wire[..i])
    ensures Carries(prefilled + [Prefilled(wire[i].index + IndexBefore(prefilled, i) + 1, wire[i].tx)], wire[..i + 1])
  {
    var longer := prefilled + [Prefilled(wire[i].index + IndexBefore(prefilled, i) + 1, wire[i].tx)];
    forall j | 0 <= j < i + 1
      ensures wire[..i + 1][j] == Prefilled(longer[j].index - IndexBefore(longer, j) - 1, longer[j].tx)
    {
      assert IndexBefore(longer, j) == IndexBefore(prefilled, j);
      assert j < i ==> wire[..i][j] == wire[j];
    }
  }

  lemma {:induction false} RebuiltAgrees<Tx>(prefilled: seq<Prefilled<Tx>>, wire: seq<Prefilled<Tx>>,
                                             rebuilt: seq<Prefilled<Tx>>, i: nat)
    requires Carries(prefilled, wire) && Carries(rebuilt, wire) && i < |wire|
    ensures rebuilt[i] == prefilled[i]
  {
    if i > 0 {
      RebuiltAgrees(prefilled, wire, rebuilt, i - 1);
    }
  }

  /** Rebuilding from what was sent gives back the same indexes and transactions. */
  lemma {:induction false} RebuiltIsSame<Tx>(prefilled: seq<Prefilled<Tx>>, wire: seq<Prefilled<Tx>>,
                                             rebuilt: seq<Prefilled<Tx>>)
    requires Carries(prefilled, wire) && Carries(rebuilt, wire)
    ensures rebuilt == prefilled
  {
    forall i | 0 <= i < |wire| ensures rebuilt[i] == prefilled[i] {
      RebuiltAgrees(prefilled, wire, rebuilt, i);
    }
  }

  function Indexes<Tx>(ps: seq<Prefilled<Tx>>): (r: seq<int>)
    ensures |r| == |ps| && forall i :: 0 <= i < |ps| ==> r[i] == ps[i].index
  {
    if ps == [] then [] else [ps[0].index] + Indexes(ps[1..])
  }

  /** The prefilled indexes are encoded like those of a request, and every transaction stays at its place. */
  lemma {:induction false} CarriesEncodes<Tx>(prefilled: seq<Prefilled<Tx>>, wire: seq<Prefilled<Tx>>)
    ensures Carries(prefilled, wire) <==>
              && Encodes(Indexes(prefilled), Indexes(wire))
              && forall i :: 0 <= i < |wire| ==> wire[i].tx == prefilled[i].tx
  {
    var a, d := Indexes(prefilled), Indexes(wire);
    forall i | 0 <= i < |prefilled| ensures Before(a, i) == IndexBefore(prefilled, i) {
    }
    if Encodes(a, d) && forall i :: 0 <= i < |wire| ==> wire[i].tx == prefilled[i].tx {
      forall i | 0 <= i < |wire|
        ensures wire[i] == Prefilled(prefilled[i].index - IndexBefore(prefilled, i) - 1, prefilled[i].tx)
      {
        assert d[i] == a[i] - Before(a, i) - 1;
      }
    }
  }
}
