/**
 * The two programs a Merkle proof passes through: python/src/merkle.py produces it,
 * python/src/tools/merkle_verifier.py checks it.
 */
module MerkleProofs {
  import opened Common
  import opened Hex
  import opened MerkleSpec
  import opened MerkleTrees
  import opened Serial

  datatype Branch = Branch(hash: string, pos: string)

  /** HashNotListed is the failed `assert`; BadHex and EmptyTree are ValueErrors. */
  datatype ProofError = HashNotListed | BadHex | EmptyTree

  datatype RootError = NoHashes | ShortHash

  function MerkleParent(h: HashFn): Merge<Bytes> {
    (left, right) => h(left + right)
  }

  // ---- the root as the block object computes it ----

  /** The `for` loop of `get_merkle_root`. */
  method NextLayer(h: HashFn, layer: seq<Bytes>) returns (newHashes: seq<Bytes>)
    ensures newHashes == Parents(MerkleParent(h), layer)
  {
    ghost var m := MerkleParent(h);
    ghost var above := Parents(m, layer);
    newHashes := [];
    var i := 0;
    while i < |layer|
      invariant i == 2 * |newHashes| && |newHashes| <= |above|
      invariant forall j :: 0 <= j < |newHashes| ==> newHashes[j] == above[j]
    {
      var i2 := Min(i + 1, |layer| - 1);
      var parent := h(layer[i] + layer[i2]);
      assert parent == m(layer[i], layer[i2]) == Pairing(m, layer, |newHashes|);
      ParentsAt(m, layer, |newHashes|);
      newHashes := newHashes + [parent];
      i := i + 2;
    }
  }

  /** `CBlock.get_merkle_root`: fold layers until one hash is left. */
  method GetMerkleRoot(h: HashFn, hashes: seq<Bytes>) returns (r: Result<nat, RootError>)
    ensures hashes == [] ==> r == Failure(NoHashes)
    ensures hashes != [] ==>
      var root := Root(MerkleParent(h), hashes);
      r == if |root| < 32 then Failure(ShortHash) else Success(FromLE(root[..32]))
  {
    var layer := hashes;
    while |layer| > 1
      invariant hashes == [] <==> layer == []
      invariant hashes != [] ==> Root(MerkleParent(h), layer) == Root(MerkleParent(h), hashes)
      decreases |layer|
    {
      layer := NextLayer(h, layer);
    }
    if layer == [] {
      return Failure(NoHashes);
    }
    if |layer[0]| < 32 {
      return Failure(ShortHash);
    }
    return Success(FromLE(layer[0][..32]));
  }

  lemma {:induction false} RootOfTwo(h: HashFn, a: Bytes, b: Bytes)
    ensures Root(MerkleParent(h), [a, b]) == h(a + b)
  {
    assert [a, b][2..] == [];
    assert Parents(MerkleParent(h), [a, b]) == [h(a + b)];
  }

  /** Which way round hashes are joined, and that a last odd one is joined with itself. */
  lemma {:induction false} SmallRoots(h: HashFn, a: Bytes, b: Bytes, c: Bytes)
    ensures Root(MerkleParent(h), [a]) == a
    ensures Root(MerkleParent(h), [a, b]) == h(a + b)
    ensures Root(MerkleParent(h), [a, b, c]) == h(h(a + b) + h(c + c))
  {
    RootOfTwo(h, a, b);
    RootOfTwo(h, h(a + b), h(c + c));
    var m := MerkleParent(h);
    assert [a, b, c][2..] == [c];
    assert Parents(m, [c]) == [h(c + c)];
    assert Parents(m, [a, b, c]) == [h(a + b), h(c + c)];
  }

  // ---- the proof ----

  /** Every text in the list is hex. */
  predicate AllHex(txs: seq<string>) {
    forall i :: 0 <= i < |txs| ==> StrToNode(txs[i]).Some?
  }

  function Leaves(txs: seq<string>): (r: seq<Bytes>)
    requires AllHex(txs)
    ensures |r| == |txs|
    ensures forall i :: 0 <= i < |txs| ==> Some(r[i]) == StrToNode(txs[i])
  {
    if txs == [] then [] else [StrToNode(txs[0]).value] + Leaves(txs[1..])
  }

  /** Where the path from leaf `pos` crosses the layer `k` steps up. */
  function PathIndex(pos: nat, k: nat): nat {
    if k == 0 then pos else PathIndex(pos, k - 1) / 2
  }

  lemma {:induction false} PathIndexInLevel(n: nat, pos: nat, k: nat)
    requires pos < n
    ensures PathIndex(pos, k) < Width(n, k)
  {
    if k > 0 {
      PathIndexInLevel(n, pos, k - 1);
    }
  }

  /**
   * The sibling noted for node `p` of a layer, and whether it goes on the right. The side depends on the
   * values met, not on positions; a node without a sibling is its own left one.
   */
  function Sibling<Node(==)>(layer: seq<Node>, p: nat): (Node, bool)
    requires p < |layer|
  {
    var l := 2 * (p / 2);
    if l + 1 < |layer| && layer[l] == layer[p] then (layer[l + 1], true) else (layer[l], false)
  }

  function BranchStep(layer: seq<Bytes>, p: nat): Branch
    requires p < |layer|
  {
    var (value, right) := Sibling(layer, p);
    Branch(NodeToStr(value), if right then "R" else "L")
  }

  /** The first `k` steps of the proof for the leaf at `pos`. */
  function HonestBranches(m: Merge<Bytes>, leaves: seq<Bytes>, pos: nat, k: nat): (r: seq<Branch>)
    requires pos < |leaves|
    ensures |r| == k
  {
    if k == 0 then [] else
    PathIndexInLevel(|leaves|, pos, k - 1);
    HonestBranches(m, leaves, pos, k - 1) + [BranchStep(Level(m, leaves, k - 1), PathIndex(pos, k - 1))]
  }

  /** One turn of `verify_proof`: any position but "R" counts as left. */
  function Join(m: Merge<Bytes>, working: Bytes, value: Bytes, pos: string): Bytes {
    if pos == "R" then m(working, value) else m(value, working)
  }

  /** The same turn on the texts of the proof; None where one is not hex. */
  function JoinText(m: Merge<Bytes>, working: Option<Bytes>, step: Branch): Option<Bytes> {
    match working
    case None => None
    case Some(w) =>
      match StrToNode(step.hash)
      case None => None
      case Some(value) => Some(Join(m, w, value, step.pos))
  }

  /** `verify_proof`'s working hash after all branches. */
  function Working(m: Merge<Bytes>, txHash: string, branches: seq<Branch>): Option<Bytes> {
    if branches == [] then StrToNode(txHash)
    else JoinText(m, Working(m, txHash, branches[..|branches| - 1]), Last(branches))
  }

  /** What `verify_proof` answers: None is a ValueError. */
  function Verdict(m: Merge<Bytes>, txHash: string, merkleRoot: string, branches: seq<Branch>): Option<bool> {
    match Working(m, txHash, branches)
    case None => None
    case Some(w) => Some(NodeToStr(w) == merkleRoot)
  }

  lemma {:induction false} WorkingStep(m: Merge<Bytes>, txHash: string, branches: seq<Branch>, step: Branch)
    ensures Working(m, txHash, branches + [step]) == JoinText(m, Working(m, txHash, branches), step)
  {
    assert (branches + [step])[..|branches|] == branches;
  }

  lemma {:induction false} WorkingFailsOnPrefix(m: Merge<Bytes>, txHash: string, branches: seq<Branch>, k: nat)
    requires k <= |branches| && Working(m, txHash, branches[..k]).None?
    ensures Working(m, txHash, branches).None?
    decreases |branches| - k
  {
    if k < |branches| {
      WorkingStep(m, txHash, branches[..k], branches[k]);
      assert branches[..k + 1] == branches[..k] + [branches[k]];
      WorkingFailsOnPrefix(m, txHash, branches, k + 1);
    } else {
      assert branches[..k] == branches;
    }
  }

  /** The fold of `verify_proof` over the branches. */
  method VerifyProof(h: HashFn, txHash: string, merkleRoot: string, branches: seq<Branch>)
    returns (r: Result<bool, ProofError>)
    ensures match Verdict(MerkleParent(h), txHash, merkleRoot, branches)
            case None => r == Failure(BadHex)
            case Some(accepted) => r == Success(accepted)
  {
    ghost var m := MerkleParent(h);
    var start := StrToNode(txHash);
    if start.None? {
      WorkingFailsOnPrefix(m, txHash, branches, 0);
      return Failure(BadHex);
    }
    var working := start.value;
    for i := 0 to |branches|
      invariant Working(m, txHash, branches[..i]) == Some(working)
    {
      assert branches[..i + 1] == branches[..i] + [branches[i]];
      WorkingStep(m, txHash, branches[..i], branches[i]);
      var value := StrToNode(branches[i].hash);
      if value.None? {
        WorkingFailsOnPrefix(m, txHash, branches, i + 1);
        return Failure(BadHex);
      }
      if branches[i].pos == "R" {
        working := h(working + value.value);
      } else {
        working := h(value.value + working);
      }
    }
    assert branches[..|branches|] == branches;
    return Success(NodeToStr(working) == merkleRoot);
  }

  // ---- completeness ----

  /** Whichever side is noted, joining the sibling gives the parent. */
  lemma {:induction false} SiblingGivesParent<Node>(m: Merge<Node>, layer: seq<Node>, p: nat)
    requires p < |layer|
    ensures var (value, right) := Sibling(layer, p);
            Pairing(m, layer, p / 2) == if right then m(layer[p], value) else m(value, layer[p])
  {
    var i := p / 2;
    assert p == 2 * i || p == 2 * i + 1;
  }

  /**
   * What the walk notes: the right neighbour of a left node and the left one of a right node, unless the two
   * are equal, when it is always the right one; a node without a neighbour notes itself, on the left.
   */
  lemma {:induction false} StepInWords(layer: seq<Bytes>, p: nat)
    requires p < |layer|
    ensures p % 2 == 0 && p + 1 < |layer| ==> BranchStep(layer, p) == Branch(NodeToStr(layer[p + 1]), "R")
    ensures p % 2 == 0 && p + 1 == |layer| ==> BranchStep(layer, p) == Branch(NodeToStr(layer[p]), "L")
    ensures p % 2 == 1 && layer[p - 1] != layer[p] ==> BranchStep(layer, p) == Branch(NodeToStr(layer[p - 1]), "L")
    ensures p % 2 == 1 && layer[p - 1] == layer[p] ==> BranchStep(layer, p) == Branch(NodeToStr(layer[p]), "R")
  {
  }

  /** Any side but "R" counts as the left. */
  lemma {:induction false} OtherSidesAreLeft(m: Merge<Bytes>, working: Option<Bytes>, step: Branch)
    requires step.pos != "R"
    ensures JoinText(m, working, step) == JoinText(m, working, step.(pos := "L"))
  {
    assert "L"[0] != "R"[0];
  }

  lemma {:induction false} TextJoins(m: Merge<Bytes>, w: Bytes, value: Bytes, right: bool)
    ensures JoinText(m, Some(w), Branch(NodeToStr(value), if right then "R" else "L")) ==
            Some(if right then m(w, value) else m(value, w))
  {
    NodeRoundTrip(value);
    assert "L"[0] != "R"[0];
  }

  /** One honest step takes the working hash from a node to its parent. */
  lemma {:induction false} HonestStepClimbs(m: Merge<Bytes>, layer: seq<Bytes>, p: nat)
    requires p < |layer|
    ensures JoinText(m, Some(layer[p]), BranchStep(layer, p)) == Some(Parents(m, layer)[p / 2])
  {
    var (value, right) := Sibling(layer, p);
    ParentsAt(m, layer, p / 2);
    SiblingGivesParent(m, layer, p);
    TextJoins(m, layer[p], value, right);
  }

  lemma {:induction false} HonestBranchesClimb(m: Merge<Bytes>, txHash: string, leaves: seq<Bytes>, pos: nat, k: nat)
    requires pos < |leaves| && StrToNode(txHash) == Some(leaves[pos])
    ensures PathIndex(pos, k) < Width(|leaves|, k)
    ensures Working(m, txHash, HonestBranches(m, leaves, pos, k)) ==
            Some(Level(m, leaves, k)[PathIndex(pos, k)])
  {
    PathIndexInLevel(|leaves|, pos, k);
    if k > 0 {
      HonestBranchesClimb(m, txHash, leaves, pos, k - 1);
      var layer, p := Level(m, leaves, k - 1), PathIndex(pos, k - 1);
      WorkingStep(m, txHash, HonestBranches(m, leaves, pos, k - 1), BranchStep(layer, p));
      HonestStepClimbs(m, layer, p);
    }
  }

  /**
   * The proof of every leaf, at every position of a list of any length and with any repetitions, is
   * accepted for the folded root.
   */
  lemma {:induction false} HonestProofAccepted(m: Merge<Bytes>, txHash: string, leaves: seq<Bytes>, pos: nat)
    requires pos < |leaves| && StrToNode(txHash) == Some(leaves[pos])
    ensures Verdict(m, txHash, NodeToStr(Root(m, leaves)), HonestBranches(m, leaves, pos, Depth(|leaves|))) ==
            Some(true)
  {
    HonestBranchesClimb(m, txHash, leaves, pos, Depth(|leaves|));
    TopLevelIsRoot(m, leaves);
  }

  // ---- production ----

  method CreateTree(h: HashFn, hexHashes: seq<string>) returns (r: Result<MerkleTree<Bytes>, ProofError>)
    ensures hexHashes == [] ==> r == Failure(EmptyTree)
    ensures hexHashes != [] && !AllHex(hexHashes) ==> r == Failure(BadHex)
    ensures hexHashes != [] && AllHex(hexHashes) ==>
      r.Success? && fresh(r.value) && r.value.parent == MerkleParent(h) &&
      r.value.Valid(Leaves(hexHashes)) && Full(r.value.nodes) &&
      r.value.RootNode() == Some(Root(MerkleParent(h), Leaves(hexHashes)))
  {
    if hexHashes == [] {
      return Failure(EmptyTree);
    }
    var tree := new MerkleTree(MerkleParent(h), |hexHashes|);
    var bottom: seq<Option<Bytes>> := [];
    for i := 0 to |hexHashes|
      invariant |bottom| == i
      invariant forall j :: 0 <= j < i ==> bottom[j].Some? && bottom[j] == StrToNode(hexHashes[j])
    {
      var node := StrToNode(hexHashes[i]);
      if node.None? {
        return Failure(BadHex);
      }
      bottom := bottom + [node];
    }
    NewTreeIsValid(tree.nodes, bottom, tree.parent, Leaves(hexHashes));
    tree.nodes := tree.nodes[tree.maxDepth := bottom];
    tree.CalcRoot(Leaves(hexHashes));
    return Success(tree);
  }

  lemma {:induction false} NewTreeIsValid(empty: Grid<Bytes>, bottom: seq<Option<Bytes>>, m: Merge<Bytes>,
                                          leaves: seq<Bytes>)
    requires leaves != [] && Shaped(empty, |leaves|)
    requires forall d, i :: InGrid(empty, d, i) ==> !IsSet(empty, d, i)
    requires |bottom| == |leaves| && forall i :: 0 <= i < |leaves| ==> bottom[i] == Some(leaves[i])
    ensures var g := empty[|empty| - 1 := bottom];
            TreeInvariant(g, m, leaves) && InGrid(g, 0, 0) && (IsSet(g, 0, 0) || CursorOk(g, 0, 0))
  {
    var g := empty[|empty| - 1 := bottom];
    forall d, i | InGrid(g, d, i) ensures CellOk(g, m, leaves, d, i) {
      if d < |g| - 1 {
        assert InGrid(empty, d, i);
        if d > 0 {
          ParentInGrid(g, |leaves|, d, i);
          assert InGrid(empty, d - 1, i / 2);
        }
      }
    }
    WidthPositive(|leaves|, Depth(|leaves|));
  }

  ghost predicate Built(g: Grid<Bytes>, m: Merge<Bytes>, leaves: seq<Bytes>) {
    TreeInvariant(g, m, leaves) && Full(g)
  }

  lemma {:induction false} CellOfBuiltTree(g: Grid<Bytes>, m: Merge<Bytes>, leaves: seq<Bytes>, d: nat, k: nat, i: nat)
    requires Built(g, m, leaves) && d + k == Depth(|leaves|) && i < Width(|leaves|, k)
    ensures InGrid(g, d, i) && |g[d]| == Width(|leaves|, k) && g[d][i] == Some(Level(m, leaves, k)[i])
  {
    assert InGrid(g, d, i);
    assert CellOk(g, m, leaves, d, i);
    assert IsSet(g, d, i);
  }

  /** One turn of the walk: up to the parent, and from there note the sibling of where it came from. */
  method ClimbOne(tree: MerkleTree<Bytes>, startNode: Option<Bytes>, ghost leaves: seq<Bytes>, ghost k: nat,
                  ghost p: nat)
    returns (branch: Branch, next: Option<Bytes>)
    requires Built(tree.nodes, tree.parent, leaves) && k < Depth(|leaves|) && p < Width(|leaves|, k)
    requires tree.currentDepth == Depth(|leaves|) - k && tree.currentIndex == p
    requires startNode == Some(Level(tree.parent, leaves, k)[p])
    modifies tree`currentDepth, tree`currentIndex
    ensures tree.currentDepth == Depth(|leaves|) - (k + 1) && tree.currentIndex == p / 2 < Width(|leaves|, k + 1)
    ensures branch == BranchStep(Level(tree.parent, leaves, k), p)
    ensures next == Some(Level(tree.parent, leaves, k + 1)[p / 2])
  {
    ghost var g, m, l := tree.nodes, tree.parent, 2 * (p / 2);
    ghost var d := tree.currentDepth;
    CellOfBuiltTree(g, m, leaves, d, k, l);
    CellOfBuiltTree(g, m, leaves, d - 1, k + 1, p / 2);
    if l + 1 < Width(|leaves|, k) {
      CellOfBuiltTree(g, m, leaves, d, k, l + 1);
    }
    ghost var layer := Level(m, leaves, k);
    tree.Up();
    var leftHash := tree.LeftNode();
    assert leftHash == Some(layer[l]) && startNode == Some(layer[p]);
    if tree.RightExists() {
      assert tree.RightNode() == Some(layer[l + 1]);
      if leftHash == startNode {
        branch := Branch(NodeToStr(tree.RightNode().value), "R");
      } else {
        branch := Branch(NodeToStr(tree.LeftNode().value), "L");
      }
    } else {
      branch := Branch(NodeToStr(tree.LeftNode().value), "L");
    }
    next := tree.CurrentNode();
  }

  /** `k` steps up from leaf `pos`: the node reached and the branches noted. */
  ghost predicate OnPath(m: Merge<Bytes>, leaves: seq<Bytes>, pos: nat, k: nat, node: Option<Bytes>,
                         branches: seq<Branch>)
    requires pos < |leaves|
  {
    && PathIndex(pos, k) < Width(|leaves|, k)
    && node == Some(Level(m, leaves, k)[PathIndex(pos, k)])
    && branches == HonestBranches(m, leaves, pos, k)
  }

  lemma {:induction false} OneUp(m: Merge<Bytes>, leaves: seq<Bytes>, pos: nat, k: nat, node: Option<Bytes>,
                                 branches: seq<Branch>, branch: Branch, next: Option<Bytes>)
    requires pos < |leaves| && OnPath(m, leaves, pos, k, node, branches)
    requires branch == BranchStep(Level(m, leaves, k), PathIndex(pos, k))
    requires PathIndex(pos, k) / 2 < Width(|leaves|, k + 1)
    requires next == Some(Level(m, leaves, k + 1)[PathIndex(pos, k) / 2])
    ensures OnPath(m, leaves, pos, k + 1, next, branches + [branch])
  {
  }

  /** Climbs from leaf `pos` to the root, noting a sibling at every layer. */
  method WalkTreeFromPos(tree: MerkleTree<Bytes>, pos: nat, hash: string, ghost leaves: seq<Bytes>)
    returns (branches: seq<Branch>)
    requires Built(tree.nodes, tree.parent, leaves) && tree.maxDepth == Depth(|leaves|) >= 1
    requires pos < |leaves| && StrToNode(hash) == Some(leaves[pos])
    modifies tree`currentDepth, tree`currentIndex
    ensures branches == HonestBranches(tree.parent, leaves, pos, Depth(|leaves|))
  {
    branches := [];
    tree.currentDepth := tree.maxDepth;
    tree.currentIndex := pos;
    var startNode := StrToNode(hash);
    ghost var k, g, m := 0, tree.nodes, tree.parent;
    while true
      invariant tree.nodes == g
      invariant 0 <= k < Depth(|leaves|) && tree.currentDepth == Depth(|leaves|) - k
      invariant tree.currentIndex == PathIndex(pos, k)
      invariant OnPath(m, leaves, pos, k, startNode, branches)
      decreases Depth(|leaves|) - k
    {
      var branch, next := ClimbOne(tree, startNode, leaves, k, PathIndex(pos, k));
      OneUp(m, leaves, pos, k, startNode, branches, branch, next);
      branches := branches + [branch];
      startNode := next;
      k := k + 1;
      WidthAtDepth(|leaves|, k);
      if tree.AtRoot() {
        break;
      }
    }
  }

  /** `txs.index(hash)`: the first place. */
  function IndexOf(txs: seq<string>, hash: string): (r: nat)
    requires hash in txs
    ensures r < |txs| && txs[r] == hash && hash !in txs[..r]
  {
    if txs[0] == hash then 0 else 1 + IndexOf(txs[1..], hash)
  }

  /**
   * Every proof produced for a listed transaction is accepted by `verify_proof` against the root that
   * `get_merkle_root` folds from the same list.
   */
  method CreateMerkleBranch(h: HashFn, hash: string, txs: seq<string>)
    returns (r: Result<seq<Branch>, ProofError>)
    ensures hash !in txs ==> r == Failure(HashNotListed)
    ensures hash in txs && |txs| == 1 ==> r == Success([])
    ensures hash in txs && |txs| > 1 && !AllHex(txs) ==> r == Failure(BadHex)
    ensures hash in txs && AllHex(txs) ==>
      var m := MerkleParent(h);
      r == Success(HonestBranches(m, Leaves(txs), IndexOf(txs, hash), Depth(|txs|))) &&
      Verdict(m, hash, NodeToStr(Root(m, Leaves(txs))), r.value) == Some(true)
  {
    if hash !in txs {
      return Failure(HashNotListed);
    }
    var pos := IndexOf(txs, hash);
    if AllHex(txs) {
      HonestProofAccepted(MerkleParent(h), hash, Leaves(txs), pos);
    }
    if |txs| == 1 {
      return Success([]);
    }
    var tree := CreateTree(h, txs);
    if tree.Failure? {
      return Failure(tree.error);
    }
    var branches := WalkTreeFromPos(tree.value, pos, hash, Leaves(txs));
    return Success(branches);
  }

  // ---- binding ----

  /** The text of a 32-byte node. */
  predicate NodeText(s: string) {
    match StrToNode(s)
    case None => false
    case Some(bs) => |bs| == 32
  }

  predicate WellSized(txHash: string, branches: seq<Branch>) {
    NodeText(txHash) && forall i :: 0 <= i < |branches| ==> NodeText(branches[i].hash)
  }

  predicate SameSides(b1: seq<Branch>, b2: seq<Branch>) {
    |b1| == |b2| && forall i :: 0 <= i < |b1| ==> (b1[i].pos == "R" <==> b2[i].pos == "R")
  }

  ghost predicate HashesTo32(h: HashFn) {
    forall x :: |h(x)| == 32
  }

  predicate Collides(h: HashFn, x: Bytes, y: Bytes) {
    x != y && h(x) == h(y)
  }

  lemma {:induction false} WorkingIs32(h: HashFn, txHash: string, branches: seq<Branch>)
    requires HashesTo32(h) && WellSized(txHash, branches)
    ensures Working(MerkleParent(h), txHash, branches).Some? && |Working(MerkleParent(h), txHash, branches).value| == 32
  {
    if branches != [] {
      WorkingIs32(h, txHash, branches[..|branches| - 1]);
      assert NodeText(Last(branches).hash);
    }
  }

  /** The hash input of the last step. */
  function LastInput(h: HashFn, txHash: string, branches: seq<Branch>): Bytes
    requires branches != [] && Working(MerkleParent(h), txHash, branches).Some?
  {
    var w, step := Working(MerkleParent(h), txHash, branches[..|branches| - 1]).value, Last(branches);
    var value := StrToNode(step.hash).value;
    if step.pos == "R" then w + value else value + w
  }

  lemma {:induction false} LastInputSplits(h: HashFn, tx1: string, b1: seq<Branch>, tx2: string, b2: seq<Branch>)
    requires HashesTo32(h) && WellSized(tx1, b1) && WellSized(tx2, b2) && SameSides(b1, b2) && b1 != []
    requires Working(MerkleParent(h), tx1, b1).Some? && Working(MerkleParent(h), tx2, b2).Some?
    requires LastInput(h, tx1, b1) == LastInput(h, tx2, b2)
    ensures Working(MerkleParent(h), tx1, b1[..|b1| - 1]) == Working(MerkleParent(h), tx2, b2[..|b2| - 1])
    ensures StrToNode(Last(b1).hash) == StrToNode(Last(b2).hash)
  {
    WorkingIs32(h, tx1, b1[..|b1| - 1]);
    WorkingIs32(h, tx2, b2[..|b2| - 1]);
    assert NodeText(Last(b1).hash) && NodeText(Last(b2).hash);
    var x := LastInput(h, tx1, b1);
    var y := LastInput(h, tx2, b2);
    var w1 := Working(MerkleParent(h), tx1, b1[..|b1| - 1]).value;
    var w2 := Working(MerkleParent(h), tx2, b2[..|b2| - 1]).value;
    var v1, v2 := StrToNode(Last(b1).hash).value, StrToNode(Last(b2).hash).value;
    if Last(b1).pos == "R" {
      assert w1 == x[..32] && w2 == y[..32] && v1 == x[32..] && v2 == y[32..];
    } else {
      assert v1 == x[..32] && v2 == y[..32] && w1 == x[32..] && w2 == y[32..];
    }
  }

  /** The proofs start from different leaves or name a different sibling somewhere. */
  ghost predicate Differ(tx1: string, b1: seq<Branch>, tx2: string, b2: seq<Branch>)
    requires |b1| == |b2|
  {
    StrToNode(tx1) != StrToNode(tx2) || exists i :: 0 <= i < |b1| && StrToNode(b1[i].hash) != StrToNode(b2[i].hash)
  }

  /** Two proofs that end alike although their beginnings or siblings differ. */
  ghost predicate Clash(h: HashFn, tx1: string, b1: seq<Branch>, tx2: string, b2: seq<Branch>) {
    && WellSized(tx1, b1) && WellSized(tx2, b2) && SameSides(b1, b2)
    && Working(MerkleParent(h), tx1, b1) == Working(MerkleParent(h), tx2, b2)
    && Differ(tx1, b1, tx2, b2)
  }

  lemma {:induction false} PrefixesFit(tx1: string, b1: seq<Branch>, tx2: string, b2: seq<Branch>)
    requires WellSized(tx1, b1) && WellSized(tx2, b2) && SameSides(b1, b2) && b1 != []
    ensures WellSized(tx1, b1[..|b1| - 1]) && WellSized(tx2, b2[..|b2| - 1])
    ensures SameSides(b1[..|b1| - 1], b2[..|b2| - 1])
  {
  }

  lemma {:induction false} DifferBelow(tx1: string, b1: seq<Branch>, tx2: string, b2: seq<Branch>)
    requires |b1| == |b2| > 0 && Differ(tx1, b1, tx2, b2)
    requires StrToNode(Last(b1).hash) == StrToNode(Last(b2).hash)
    ensures Differ(tx1, b1[..|b1| - 1], tx2, b2[..|b2| - 1])
  {
    var c1, c2 := b1[..|b1| - 1], b2[..|b2| - 1];
    if StrToNode(tx1) == StrToNode(tx2) {
      var i :| 0 <= i < |b1| && StrToNode(b1[i].hash) != StrToNode(b2[i].hash);
      assert StrToNode(c1[i].hash) != StrToNode(c2[i].hash);
    }
  }

  /** Equal last inputs push a clash one step down. */
  lemma {:induction false} ClashBelow(h: HashFn, tx1: string, b1: seq<Branch>, tx2: string, b2: seq<Branch>)
    requires HashesTo32(h) && Clash(h, tx1, b1, tx2, b2) && b1 != []
    requires Working(MerkleParent(h), tx1, b1).Some? && Working(MerkleParent(h), tx2, b2).Some?
    requires LastInput(h, tx1, b1) == LastInput(h, tx2, b2)
    ensures Clash(h, tx1, b1[..|b1| - 1], tx2, b2[..|b2| - 1])
  {
    LastInputSplits(h, tx1, b1, tx2, b2);
    PrefixesFit(tx1, b1, tx2, b2);
    DifferBelow(tx1, b1, tx2, b2);
  }

  /** What checking the two proofs hashes at step `k` is not the same, but its hashes are. */
  ghost predicate CollideAt(h: HashFn, tx1: string, b1: seq<Branch>, tx2: string, b2: seq<Branch>, k: nat) {
    && 0 < k <= |b1| && k <= |b2|
    && Working(MerkleParent(h), tx1, b1[..k]).Some? && Working(MerkleParent(h), tx2, b2[..k]).Some?
    && Collides(h, LastInput(h, tx1, b1[..k]), LastInput(h, tx2, b2[..k]))
  }

  /**
   * Two accepted proofs for one root that go the same way from different leaves, or past different
   * siblings, hash two distinct inputs to one value at the same step.
   */
  lemma {:induction false} FindCollision(h: HashFn, tx1: string, b1: seq<Branch>, tx2: string, b2: seq<Branch>)
    returns (k: nat)
    requires HashesTo32(h) && Clash(h, tx1, b1, tx2, b2)
    ensures CollideAt(h, tx1, b1, tx2, b2, k)
    decreases |b1|
  {
    k := |b1|;
    WorkingIs32(h, tx1, b1);
    WorkingIs32(h, tx2, b2);
    if b1 != [] && LastInput(h, tx1, b1) == LastInput(h, tx2, b2) {
      ClashBelow(h, tx1, b1, tx2, b2);
      k := FindCollision(h, tx1, b1[..|b1| - 1], tx2, b2[..|b2| - 1]);
      CollideBefore(h, tx1, b1, tx2, b2, k);
    } else {
      CollideAtLast(h, tx1, b1, tx2, b2);
    }
  }

  lemma {:induction false} CollideBefore(h: HashFn, tx1: string, b1: seq<Branch>, tx2: string, b2: seq<Branch>, k: nat)
    requires |b1| == |b2| > 0 && CollideAt(h, tx1, b1[..|b1| - 1], tx2, b2[..|b2| - 1], k)
    ensures CollideAt(h, tx1, b1, tx2, b2, k)
  {
    assert b1[..|b1| - 1][..k] == b1[..k] && b2[..|b2| - 1][..k] == b2[..k];
  }

  lemma {:induction false} CollideAtLast(h: HashFn, tx1: string, b1: seq<Branch>, tx2: string, b2: seq<Branch>)
    requires HashesTo32(h) && Clash(h, tx1, b1, tx2, b2)
    requires Working(MerkleParent(h), tx1, b1).Some? && Working(MerkleParent(h), tx2, b2).Some?
    requires b1 != [] ==> LastInput(h, tx1, b1) != LastInput(h, tx2, b2)
    ensures CollideAt(h, tx1, b1, tx2, b2, |b1|)
  {
    assert b1[..|b1|] == b1 && b2[..|b2|] == b2;
    if b1 != [] {
      assert NodeText(Last(b1).hash) && NodeText(Last(b2).hash);
    }
  }

  /** Proofs that do not differ hash the same inputs all the way up. */
  lemma {:induction false} SameProofSameWorking(m: Merge<Bytes>, tx1: string, b1: seq<Branch>, tx2: string,
                                                b2: seq<Branch>, k: nat)
    requires SameSides(b1, b2) && !Differ(tx1, b1, tx2, b2) && k <= |b1|
    ensures Working(m, tx1, b1[..k]) == Working(m, tx2, b2[..k])
  {
    if k > 0 {
      SameProofSameWorking(m, tx1, b1, tx2, b2, k - 1);
      assert b1[..k][..k - 1] == b1[..k - 1] && b2[..k][..k - 1] == b2[..k - 1];
      assert Last(b1[..k]) == b1[k - 1] && Last(b2[..k]) == b2[k - 1];
    }
  }

  lemma {:induction false} SameProofSameInput(h: HashFn, tx1: string, b1: seq<Branch>, tx2: string, b2: seq<Branch>,
                                              k: nat)
    requires SameSides(b1, b2) && !Differ(tx1, b1, tx2, b2) && 0 < k <= |b1|
    requires Working(MerkleParent(h), tx1, b1[..k]).Some? && Working(MerkleParent(h), tx2, b2[..k]).Some?
    ensures LastInput(h, tx1, b1[..k]) == LastInput(h, tx2, b2[..k])
  {
    SameProofSameWorking(MerkleParent(h), tx1, b1, tx2, b2, k - 1);
    assert b1[..k][..k - 1] == b1[..k - 1] && b2[..k][..k - 1] == b2[..k - 1];
    assert Last(b1[..k]) == b1[k - 1] && Last(b2[..k]) == b2[k - 1];
  }

  /**
   * A proof accepted for the folded root of a list, going the way the honest proof for position `pos`
   * goes, names the transaction at `pos` and the honest siblings, unless at some step checking it and
   * checking the honest proof hash two distinct inputs to one value.
   */
  lemma {:induction false} AcceptedProofIsHonest(h: HashFn, txs: seq<string>, pos: nat, txHash: string,
                                                 branches: seq<Branch>)
    requires HashesTo32(h) && AllHex(txs) && pos < |txs|
    requires forall i :: 0 <= i < |txs| ==> NodeText(txs[i])
    requires WellSized(txHash, branches)
    requires SameSides(branches, HonestBranches(MerkleParent(h), Leaves(txs), pos, Depth(|txs|)))
    requires Verdict(MerkleParent(h), txHash, NodeToStr(Root(MerkleParent(h), Leaves(txs))), branches) == Some(true)
    ensures var honest := HonestBranches(MerkleParent(h), Leaves(txs), pos, Depth(|txs|));
      (exists k :: CollideAt(h, txHash, branches, txs[pos], honest, k)) <==>
      !(StrToNode(txHash) == StrToNode(txs[pos]) &&
        forall i :: 0 <= i < |branches| ==> StrToNode(branches[i].hash) == StrToNode(honest[i].hash))
  {
    var m, leaves := MerkleParent(h), Leaves(txs);
    var honest := HonestBranches(m, leaves, pos, Depth(|txs|));
    HonestProofAccepted(m, txs[pos], leaves, pos);
    NodeRoundTrip(Working(m, txHash, branches).value);
    NodeRoundTrip(Working(m, txs[pos], honest).value);
    HonestIsWellSized(h, txs, pos, Depth(|txs|));
    if Differ(txHash, branches, txs[pos], honest) {
      var k := FindCollision(h, txHash, branches, txs[pos], honest);
    }
    if !Differ(txHash, branches, txs[pos], honest) {
      forall k | CollideAt(h, txHash, branches, txs[pos], honest, k) ensures false {
        SameProofSameInput(h, txHash, branches, txs[pos], honest, k);
      }
    }
  }

  lemma {:induction false} LevelIs32(h: HashFn, leaves: seq<Bytes>, k: nat, i: nat)
    requires HashesTo32(h) && i < Width(|leaves|, k)
    requires forall j :: 0 <= j < |leaves| ==> |leaves[j]| == 32
    ensures |Level(MerkleParent(h), leaves, k)[i]| == 32
  {
    if k > 0 {
      ParentsAt(MerkleParent(h), Level(MerkleParent(h), leaves, k - 1), i);
    }
  }

  lemma {:induction false} StepIsWellSized(layer: seq<Bytes>, p: nat)
    requires p < |layer| && forall i :: 0 <= i < |layer| ==> |layer[i]| == 32
    ensures NodeText(BranchStep(layer, p).hash)
  {
    var l, r := 2 * (p / 2), Min(2 * (p / 2) + 1, |layer| - 1);
    NodeRoundTrip(layer[l]);
    NodeRoundTrip(layer[r]);
  }

  lemma {:induction false} HonestIsWellSized(h: HashFn, txs: seq<string>, pos: nat, k: nat)
    requires HashesTo32(h) && AllHex(txs) && pos < |txs|
    requires forall i :: 0 <= i < |txs| ==> NodeText(txs[i])
    ensures WellSized(txs[pos], HonestBranches(MerkleParent(h), Leaves(txs), pos, k))
  {
    assert NodeText(txs[pos]);
    if k > 0 {
      var leaves, m := Leaves(txs), MerkleParent(h);
      HonestIsWellSized(h, txs, pos, k - 1);
      PathIndexInLevel(|leaves|, pos, k - 1);
      var layer := Level(m, leaves, k - 1);
      forall i | 0 <= i < |layer| ensures |layer[i]| == 32 {
        forall j | 0 <= j < |leaves| ensures |leaves[j]| == 32 {
          assert NodeText(txs[j]);
        }
        LevelIs32(h, leaves, k - 1, i);
      }
      StepIsWellSized(layer, PathIndex(pos, k - 1));
    }
  }
}
