/** The ragged tree of python/src/merkle.py, filled by a cursor. */
module MerkleTrees {
  import opened Common
  import opened MerkleSpec

  /** Row `d` holds the nodes at depth `d`; row 0 is the root. A cell is None until it is computed. */
  type Grid<+Node> = seq<seq<Option<Node>>>

  /** The rows have the widths of the folded layers. */
  ghost predicate Shaped<Node>(g: Grid<Node>, n: nat)
  {
    && |g| == Depth(n) + 1
    && forall d :: 0 <= d < |g| ==> |g[d]| == Width(n, Depth(n) - d)
  }

  ghost predicate InGrid<Node>(g: Grid<Node>, d: int, i: int)
  {
    0 <= d < |g| && 0 <= i < |g[d]|
  }

  ghost predicate IsSet<Node>(g: Grid<Node>, d: int, i: int)
    requires InGrid(g, d, i)
  {
    g[d][i].Some?
  }

  /** The value the cell at depth `d`, position `i` must hold. */
  ghost function Wanted<Node>(m: Merge<Node>, leaves: seq<Node>, d: nat, i: nat): Node
    requires d <= Depth(|leaves|) && i < Width(|leaves|, Depth(|leaves|) - d)
  {
    Level(m, leaves, Depth(|leaves|) - d)[i]
  }

  /**
   * What every cell keeps: a set cell holds its layer's value, the bottom row is set, and the parent
   * of an unset cell is unset.
   */
  ghost predicate CellOk<Node>(g: Grid<Node>, m: Merge<Node>, leaves: seq<Node>, d: int, i: int)
    requires Shaped(g, |leaves|) && InGrid(g, d, i)
  {
    && (IsSet(g, d, i) ==> g[d][i].value == Wanted(m, leaves, d, i))
    && (d == |g| - 1 ==> IsSet(g, d, i))
    && (d > 0 && !IsSet(g, d, i) ==> InGrid(g, d - 1, i / 2) && !IsSet(g, d - 1, i / 2))
  }

  /** The invariant of a tree over `leaves`. */
  ghost predicate TreeInvariant<Node>(g: Grid<Node>, m: Merge<Node>, leaves: seq<Node>)
  {
    && leaves != []
    && Shaped(g, |leaves|)
    && forall d, i {:trigger CellOk(g, m, leaves, d, i)} :: InGrid(g, d, i) ==> CellOk(g, m, leaves, d, i)
  }

  /** The cursor may rest on any cell that is still unset. */
  ghost predicate CursorOk<Node>(g: Grid<Node>, d: int, i: int)
  {
    InGrid(g, d, i) && !IsSet(g, d, i)
  }

  ghost predicate Full<Node>(g: Grid<Node>)
  {
    forall d, i :: InGrid(g, d, i) ==> IsSet(g, d, i)
  }

  ghost function Unset<Node>(g: Grid<Node>): set<(int, int)>
  {
    set d, i | 0 <= d < |g| && 0 <= i < |g[d]| && g[d][i].None? :: (d, i)
  }

  function SetCell<Node>(g: Grid<Node>, d: nat, i: nat, v: Node): Grid<Node>
    requires d < |g| && i < |g[d]|
  {
    g[d := g[d][i := Some(v)]]
  }

  lemma {:induction false} ParentInGrid<Node>(g: Grid<Node>, n: nat, d: int, i: int)
    requires Shaped(g, n) && InGrid(g, d, i) && d > 0
    ensures |g[d - 1]| == (|g[d]| + 1) / 2
    ensures InGrid(g, d - 1, i / 2)
  {
    assert |g[d - 1]| == Width(n, Depth(n) - d + 1);
  }

  /** All ancestors of an unset cell are unset: the cursor can climb without losing its place. */
  lemma {:induction false} ParentOfUnsetIsUnset<Node>(g: Grid<Node>, m: Merge<Node>, leaves: seq<Node>, d: int, i: int)
    requires TreeInvariant(g, m, leaves) && CursorOk(g, d, i)
    ensures d < Depth(|leaves|)
    ensures if d > 0 then CursorOk(g, d - 1, i / 2) else i == 0
  {
    assert CellOk(g, m, leaves, d, i);
    WidthAtDepth(|leaves|, Depth(|leaves|));
  }

  /** A set root means that nothing is left to compute. */
  lemma {:induction false} RootSetMeansFull<Node>(g: Grid<Node>, m: Merge<Node>, leaves: seq<Node>, d: int, i: int)
    requires TreeInvariant(g, m, leaves) && InGrid(g, 0, 0) && IsSet(g, 0, 0) && InGrid(g, d, i)
    ensures IsSet(g, d, i)
    decreases d
  {
    assert CellOk(g, m, leaves, d, i);
    if d > 0 {
      ParentInGrid(g, |leaves|, d, i);
      RootSetMeansFull(g, m, leaves, d - 1, i / 2);
    } else {
      TopLevelIsRoot(m, leaves);
    }
  }

  lemma {:induction false} FullWithRoot<Node>(g: Grid<Node>, m: Merge<Node>, leaves: seq<Node>)
    requires TreeInvariant(g, m, leaves) && InGrid(g, 0, 0) && IsSet(g, 0, 0)
    ensures Full(g) && g[0][0].value == Root(m, leaves)
  {
    forall d, i | InGrid(g, d, i) ensures IsSet(g, d, i) {
      RootSetMeansFull(g, m, leaves, d, i);
    }
    assert CellOk(g, m, leaves, 0, 0);
    TopLevelIsRoot(m, leaves);
  }

  lemma {:induction false} LeftChildInGrid<Node>(g: Grid<Node>, n: nat, d: int, i: int)
    requires Shaped(g, n) && InGrid(g, d, i) && d < Depth(n)
    ensures InGrid(g, d + 1, 2 * i)
  {
    assert |g[d + 1]| == Width(n, Depth(n) - d - 1);
  }

  /** The children of cell (d, i) are computed and `v` is what they hash to. */
  ghost predicate Computable<Node>(g: Grid<Node>, m: Merge<Node>, d: int, i: int, v: Node)
  {
    && InGrid(g, d + 1, 2 * i) && IsSet(g, d + 1, 2 * i)
    && (InGrid(g, d + 1, 2 * i + 1) ==> IsSet(g, d + 1, 2 * i + 1))
    && v == m(g[d + 1][2 * i].value,
              if InGrid(g, d + 1, 2 * i + 1) then g[d + 1][2 * i + 1].value else g[d + 1][2 * i].value)
  }

  /** Filling the cursor's cell from its children keeps the invariant and leaves less to do. */
  lemma {:induction false} SetCellKeepsInvariant<Node>(g: Grid<Node>, m: Merge<Node>, leaves: seq<Node>, d: int,
                                                       i: int, v: Node)
    requires TreeInvariant(g, m, leaves) && CursorOk(g, d, i) && Computable(g, m, d, i, v)
    ensures TreeInvariant(SetCell(g, d, i, v), m, leaves)
  {
    var g' := SetCell(g, d, i, v);
    SetCellIsSound(g, m, leaves, d, i, v);
    forall e, j | InGrid(g', e, j) ensures CellOk(g', m, leaves, e, j) {
      assert CellOk(g, m, leaves, e, j);
    }
  }

  lemma {:induction false} SetCellShrinksUnset<Node>(g: Grid<Node>, d: int, i: int, v: Node)
    requires CursorOk(g, d, i)
    ensures Unset(SetCell(g, d, i, v)) < Unset(g)
  {
    assert (d, i) in Unset(g) && (d, i) !in Unset(SetCell(g, d, i, v));
  }

  lemma {:induction false} SetCellIsSound<Node>(g: Grid<Node>, m: Merge<Node>, leaves: seq<Node>, d: int, i: int,
                                                v: Node)
    requires TreeInvariant(g, m, leaves) && CursorOk(g, d, i) && Computable(g, m, d, i, v)
    ensures v == Wanted(m, leaves, d, i)
  {
    var below := Level(m, leaves, Depth(|leaves|) - d - 1);
    assert CellOk(g, m, leaves, d + 1, 2 * i);
    if InGrid(g, d + 1, 2 * i + 1) {
      assert CellOk(g, m, leaves, d + 1, 2 * i + 1);
    }
    ParentsAt(m, below, i);
  }

  /** `MerkleTree` of merkle.py. Python integers are unbounded; the cursor leaves the grid upwards. */
  class MerkleTree<Node(==)> {
    const parent: Merge<Node>
    const total: nat
    const maxDepth: nat
    var nodes: Grid<Node>
    var currentDepth: int
    var currentIndex: int

    constructor (parent: Merge<Node>, total: nat)
      requires total >= 1
      ensures this.parent == parent && this.total == total && maxDepth == Depth(total)
      ensures Shaped(nodes, total) && forall d, i :: InGrid(nodes, d, i) ==> !IsSet(nodes, d, i)
      ensures currentDepth == 0 && currentIndex == 0
    {
      var deepest := Depth(total);
      var rows: Grid<Node> := [];
      for depth := 0 to deepest + 1
        invariant |rows| == depth
        invariant forall d :: 0 <= d < depth ==> |rows[d]| == Width(total, deepest - d)
        invariant forall d, i :: InGrid(rows, d, i) ==> !IsSet(rows, d, i)
      {
        WidthIsCeilDiv(total, deepest - depth);
        var numItems := CeilDiv(total, Pow2(deepest - depth));
        var levelHashes := seq(numItems, _ => None);
        assert forall i :: 0 <= i < numItems ==> levelHashes[i].None?;
        assert forall d, i :: InGrid(rows + [levelHashes], d, i) && d < depth ==>
                 InGrid(rows, d, i) && !IsSet(rows, d, i);
        rows := rows + [levelHashes];
      }
      this.parent := parent;
      this.total := total;
      this.maxDepth := deepest;
      this.nodes := rows;
      this.currentDepth := 0;
      this.currentIndex := 0;
    }

    method Up()
      modifies this`currentDepth, this`currentIndex
      ensures currentDepth == old(currentDepth) - 1 && currentIndex == old(currentIndex) / 2
    {
      currentDepth := currentDepth - 1;
      currentIndex := currentIndex / 2;
    }

    method Left()
      modifies this`currentDepth, this`currentIndex
      ensures currentDepth == old(currentDepth) + 1 && currentIndex == 2 * old(currentIndex)
    {
      currentDepth := currentDepth + 1;
      currentIndex := currentIndex * 2;
    }

    method Right()
      modifies this`currentDepth, this`currentIndex
      ensures currentDepth == old(currentDepth) + 1 && currentIndex == 2 * old(currentIndex) + 1
    {
      currentDepth := currentDepth + 1;
      currentIndex := currentIndex * 2 + 1;
    }

    method SetCurrentNode(value: Node)
      requires InGrid(nodes, currentDepth, currentIndex)
      modifies this`nodes
      ensures nodes == SetCell(old(nodes), currentDepth, currentIndex, value)
    {
      nodes := nodes[currentDepth := nodes[currentDepth][currentIndex := Some(value)]];
    }

    function RootNode(): Option<Node>
      requires InGrid(nodes, 0, 0)
      reads this
    {
      nodes[0][0]
    }

    function CurrentNode(): Option<Node>
      requires InGrid(nodes, currentDepth, currentIndex)
      reads this
    {
      nodes[currentDepth][currentIndex]
    }

    function LeftNode(): Option<Node>
      requires InGrid(nodes, currentDepth + 1, currentIndex * 2)
      reads this
    {
      nodes[currentDepth + 1][currentIndex * 2]
    }

    function RightNode(): Option<Node>
      requires InGrid(nodes, currentDepth + 1, currentIndex * 2 + 1)
      reads this
    {
      nodes[currentDepth + 1][currentIndex * 2 + 1]
    }

    predicate IsLeaf()
      reads this
    {
      currentDepth == maxDepth
    }

    predicate AtRoot()
      reads this
    {
      currentDepth == 0 && currentIndex == 0
    }

    predicate RightExists()
      requires 0 <= currentDepth + 1 < |nodes|
      reads this
    {
      |nodes[currentDepth + 1]| > currentIndex * 2 + 1
    }

    /** The invariant of the tree, and the cursor's part of it while the root is missing. */
    ghost predicate Valid(leaves: seq<Node>)
      reads this
    {
      && total == |leaves| && maxDepth == Depth(total)
      && TreeInvariant(nodes, parent, leaves)
      && InGrid(nodes, 0, 0)
      && (nodes[0][0].None? ==> CursorOk(nodes, currentDepth, currentIndex))
    }

    /**
     * The walk ends, the root cell holds the layer-by-layer fold of the leaves, and every other cell
     * has been filled on the way. Each turn either fills a cell or goes one row down.
     */
    method CalcRoot(ghost leaves: seq<Node>)
      requires Valid(leaves)
      modifies this
      ensures Valid(leaves) && Full(nodes)
      ensures RootNode() == Some(Root(parent, leaves))
    {
      while RootNode().None?
        invariant Valid(leaves)
        decreases Unset(nodes), maxDepth - currentDepth
      {
        ParentOfUnsetIsUnset(nodes, parent, leaves, currentDepth, currentIndex);
        if IsLeaf() {
          assert false; // the bottom row is set, so the cursor never gets there
        } else {
          LeftChildInGrid(nodes, total, currentDepth, currentIndex);
          var leftHash := LeftNode();
          if leftHash.None? {
            Left();
          } else if RightExists() {
            var rightHash := RightNode();
            if rightHash.None? {
              Right();
            } else {
              Fill(leaves, parent(leftHash.value, rightHash.value));
            }
          } else {
            Fill(leaves, parent(leftHash.value, leftHash.value));
          }
        }
      }
      FullWithRoot(nodes, parent, leaves);
    }

    /** The two statements that end a filling turn: set the current cell, then go up. */
    method Fill(ghost leaves: seq<Node>, value: Node)
      requires Valid(leaves) && RootNode().None?
      requires Computable(nodes, parent, currentDepth, currentIndex, value)
      modifies this
      ensures Valid(leaves)
      ensures nodes == SetCell(old(nodes), old(currentDepth), old(currentIndex), value)
      ensures currentDepth == old(currentDepth) - 1
      ensures Unset(nodes) < old(Unset(nodes))
    {
      SetCellKeepsInvariant(nodes, parent, leaves, currentDepth, currentIndex, value);
      SetCellShrinksUnset(nodes, currentDepth, currentIndex, value);
      ParentOfUnsetIsUnset(nodes, parent, leaves, currentDepth, currentIndex);
      SetCurrentNode(value);
      Up();
    }
  }
}
