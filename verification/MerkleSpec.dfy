/**
 * What a Merkle root is, said twice: bottom-up, layer by layer, as the program folds it, and
 * top-down, as a perfect binary tree whose missing right halves repeat the left one.
 */
module MerkleSpec {
  import opened Common
  import opened Arithmetic

  /**
   * How two neighbours make their parent. The program's nodes are byte strings and its merge is
   * `hash256(left + right)`; nothing in this module depends on either.
   */
  type Merge<!Node> = (Node, Node) -> Node

  function Pow2(k: nat): (r: nat)
    ensures r >= 1
  {
    if k == 0 then 1 else 2 * Pow2(k - 1)
  }

  function CeilDiv(a: nat, b: nat): nat
    requires b >= 1
  {
    (a + b - 1) / b
  }

  /** The layer above `layer`: neighbours are hashed together, a last odd one with itself. */
  function Parents<Node>(m: Merge<Node>, layer: seq<Node>): (r: seq<Node>)
    ensures |r| == (|layer| + 1) / 2
  {
    if |layer| == 0 then []
    else if |layer| == 1 then [m(layer[0], layer[0])]
    else [m(layer[0], layer[1])] + Parents(m, layer[2..])
  }

  /** The layer-by-layer fold. */
  function Root<Node>(m: Merge<Node>, layer: seq<Node>): Node
    requires layer != []
    decreases |layer|
  {
    if |layer| == 1 then layer[0] else Root(m, Parents(m, layer))
  }

  /** Number of layers above `n` leaves. */
  function Depth(n: nat): nat
  {
    if n <= 1 then 0 else 1 + Depth((n + 1) / 2)
  }

  /** Width of the layer `k` steps above `n` leaves. */
  function Width(n: nat, k: nat): nat
  {
    if k == 0 then n else (Width(n, k - 1) + 1) / 2
  }

  /** The layer `k` steps above the leaves. */
  function Level<Node>(m: Merge<Node>, leaves: seq<Node>, k: nat): (r: seq<Node>)
    ensures |r| == Width(|leaves|, k)
  {
    if k == 0 then leaves else Parents(m, Level(m, leaves, k - 1))
  }

  /** The root of the height-`k` tree over `leaves`, top-down. */
  function Subtree<Node>(m: Merge<Node>, leaves: seq<Node>, k: nat): Node
    requires 0 < |leaves| <= Pow2(k)
  {
    if k == 0 then leaves[0]
    else if |leaves| <= Pow2(k - 1) then
      var l := Subtree(m, leaves, k - 1);
      m(l, l)
    else
      m(Subtree(m, leaves[..Pow2(k - 1)], k - 1), Subtree(m, leaves[Pow2(k - 1)..], k - 1))
  }

  /** The parent of pair `i`. */
  function Pairing<Node>(m: Merge<Node>, layer: seq<Node>, i: nat): Node
    requires 2 * i < |layer|
  {
    m(layer[2 * i], layer[Min(2 * i + 1, |layer| - 1)])
  }

  lemma {:induction false} ParentsAt<Node>(m: Merge<Node>, layer: seq<Node>, i: nat)
    requires i < |Parents(m, layer)|
    ensures 2 * i < |layer| && Parents(m, layer)[i] == Pairing(m, layer, i)
  {
    if i > 0 {
      ParentsAt(m, layer[2..], i - 1);
    }
  }

  // ---- shape arithmetic ----

  lemma {:induction false} WidthPositive(n: nat, k: nat)
    requires n >= 1
    ensures Width(n, k) >= 1
  {
    if k > 0 {
      WidthPositive(n, k - 1);
    }
  }

  lemma {:induction false} WidthShift(n: nat, k: nat)
    ensures Width(n, k + 1) == Width((n + 1) / 2, k)
  {
    if k > 0 {
      WidthShift(n, k - 1);
    }
  }

  /** `Depth` is the first height at which one node is left. */
  lemma {:induction false} WidthAtDepth(n: nat, k: nat)
    requires n >= 1 && k <= Depth(n)
    ensures Width(n, k) == 1 <==> k == Depth(n)
    decreases n
  {
    if n > 1 && k > 0 {
      WidthShift(n, k - 1);
      WidthAtDepth((n + 1) / 2, k - 1);
    }
  }

  /** `Depth` is the exact rounded-up base-two logarithm. */
  lemma {:induction false} DepthIsCeilLog2(n: nat)
    requires n >= 1
    ensures n <= Pow2(Depth(n))
    ensures n > 1 ==> Pow2(Depth(n) - 1) < n
  {
    if n > 1 {
      DepthIsCeilLog2((n + 1) / 2);
    }
  }

  lemma {:induction false} HalvingCeil(a: nat, b: nat)
    requires b >= 1
    ensures (CeilDiv(a, b) + 1) / 2 == CeilDiv(a, 2 * b)
  {
    var q, r := (a + b - 1) / b, (a + b - 1) % b;
    var p, s := (q + 1) / 2, (q + 1) % 2;
    var rest := if s == 0 then r else r + b;
    assert b * q == b * (2 * p + s - 1) == 2 * b * p + b * s - b;
    assert a + 2 * b - 1 == (2 * b) * p + rest;
    DivUnique(a + 2 * b - 1, 2 * b, p, rest);
  }

  /** The widths the tree is built with agree with the widths of the folded layers. */
  lemma {:induction false} WidthIsCeilDiv(n: nat, k: nat)
    ensures Width(n, k) == CeilDiv(n, Pow2(k))
  {
    if k > 0 {
      WidthIsCeilDiv(n, k - 1);
      HalvingCeil(n, Pow2(k - 1));
    }
  }

  // ---- the two readings of the root agree ----

  lemma {:induction false} LevelShift<Node>(m: Merge<Node>, leaves: seq<Node>, k: nat)
    ensures Level(m, leaves, k + 1) == Level(m, Parents(m, leaves), k)
  {
    if k > 0 {
      LevelShift(m, leaves, k - 1);
    }
  }

  /** The fold ends at the one node of the layer `Depth` steps up. */
  lemma {:induction false} TopLevelIsRoot<Node>(m: Merge<Node>, leaves: seq<Node>)
    requires leaves != []
    ensures Level(m, leaves, Depth(|leaves|)) == [Root(m, leaves)]
    decreases |leaves|
  {
    if |leaves| > 1 {
      LevelShift(m, leaves, Depth(|leaves|) - 1);
      TopLevelIsRoot(m, Parents(m, leaves));
    }
  }

  lemma {:induction false} WidthOfPower(e: nat, k: nat)
    requires k <= e
    ensures Width(Pow2(e), k) == Pow2(e - k)
  {
    if k > 0 {
      WidthOfPower(e, k - 1);
    }
  }

  lemma {:induction false} BelowTopIsEven(e: nat, k: nat)
    requires k < e
    ensures Width(Pow2(e), k) % 2 == 0
  {
    WidthOfPower(e, k);
    assert Pow2(e - k) == 2 * Pow2(e - k - 1);
  }

  /** A full block of leaves is folded on its own, whatever follows it. */
  lemma {:induction false} LevelOfAppend<Node>(m: Merge<Node>, a: seq<Node>, b: seq<Node>, e: nat, k: nat)
    requires |a| == Pow2(e) && k <= e
    ensures Level(m, a + b, k) == Level(m, a, k) + Level(m, b, k)
  {
    if k > 0 {
      LevelOfAppend(m, a, b, e, k - 1);
      BelowTopIsEven(e, k - 1);
      ParentsOfAppend(m, Level(m, a, k - 1), Level(m, b, k - 1));
    }
  }

  lemma {:induction false} ParentsOfAppend<Node>(m: Merge<Node>, a: seq<Node>, b: seq<Node>)
    requires |a| % 2 == 0
    ensures Parents(m, a + b) == Parents(m, a) + Parents(m, b)
  {
    if |a| == 0 {
      assert a + b == b;
    } else {
      var head, upper, lower := [m(a[0], a[1])], Parents(m, a[2..]), Parents(m, b);
      ParentsOfAppend(m, a[2..], b);
      assert (a + b)[2..] == a[2..] + b;
      assert head + (upper + lower) == head + upper + lower;
    }
  }

  lemma {:induction false} LevelIsSubtree<Node>(m: Merge<Node>, leaves: seq<Node>, k: nat)
    requires 0 < |leaves| <= Pow2(k)
    ensures Level(m, leaves, k) == [Subtree(m, leaves, k)]
  {
    if k == 0 {
    } else if |leaves| <= Pow2(k - 1) {
      LevelIsSubtree(m, leaves, k - 1);
    } else {
      var a, b := leaves[..Pow2(k - 1)], leaves[Pow2(k - 1)..];
      LevelIsSubtree(m, a, k - 1);
      LevelIsSubtree(m, b, k - 1);
      LevelOfAppend(m, a, b, k - 1, k - 1);
      assert leaves == a + b;
    }
  }

  /** The layer-by-layer fold computes the top-down root, for every number of leaves. */
  lemma {:induction false} RootIsSubtree<Node>(m: Merge<Node>, leaves: seq<Node>)
    requires leaves != []
    ensures |leaves| <= Pow2(Depth(|leaves|))
    ensures Root(m, leaves) == Subtree(m, leaves, Depth(|leaves|))
  {
    DepthIsCeilLog2(|leaves|);
    TopLevelIsRoot(m, leaves);
    LevelIsSubtree(m, leaves, Depth(|leaves|));
  }
}
