/**
  packages/shared/src/merkle.ts: building a tree, generating and verifying inclusion
  proofs. SHA-256 is any function H from byte strings to 32-byte digests; nothing is
  assumed about it. Soundness therefore says "the claim is true, or the proof itself
  shows two different inputs with the same digest", and names the two inputs.
 */
module Merkle {
  import opened Wrappers

  type bytes = seq<byte>
  type Digest = d: bytes | |d| == 32 witness seq(32, i => 0)
  type Hash = bytes -> Digest

  datatype Direction = Left | Right

  /** A step as it arrives: the sibling may be anything, well-formed or not. */
  datatype Step = Step(sibling: bytes, direction: Direction)

  datatype Tree = Tree(root: Digest, layers: seq<seq<Digest>>)

  datatype Error = InvalidLeafHash | InvalidSibling | NoLeaves | IndexOutOfRange

  function LeafInput(data: bytes): bytes {
    [0] + data
  }

  function NodeInput(left: bytes, right: bytes): bytes {
    [1] + left + right
  }

  function HashLeaf(H: Hash, data: bytes): Digest {
    H(LeafInput(data))
  }

  function HashNode(H: Hash, left: bytes, right: bytes): Digest {
    H(NodeInput(left, right))
  }

  predicate WellFormed(h: bytes) {
    |h| == 32
  }

  // ---------------------------------------------------------------------------
  // Layers and heights
  // ---------------------------------------------------------------------------

  /** The node above positions 2i and 2i + 1; an odd last node is paired with itself. */
  function Parent(H: Hash, layer: seq<Digest>, i: nat): Digest
    requires 2 * i < |layer|
  {
    HashNode(H, layer[2 * i], if 2 * i + 1 < |layer| then layer[2 * i + 1] else layer[2 * i])
  }

  function ParentLayer(H: Hash, layer: seq<Digest>): (r: seq<Digest>)
    ensures |r| == (|layer| + 1) / 2
  {
    seq((|layer| + 1) / 2, i requires 0 <= i < (|layer| + 1) / 2 => Parent(H, layer, i))
  }

  /** How often n has to be halved, rounding up, to reach one. */
  function Height(n: nat): nat
    decreases n
  {
    if n <= 1 then 0 else 1 + Height((n + 1) / 2)
  }

  /** The layers from this one up to the root. */
  ghost function Layers(H: Hash, layer: seq<Digest>): (r: seq<seq<Digest>>)
    requires |layer| > 0
    ensures |r| == Height(|layer|) + 1 && r[0] == layer
    decreases |layer|
  {
    if |layer| == 1 then [layer] else [layer] + Layers(H, ParentLayer(H, layer))
  }

  ghost function LeafLayer(H: Hash, leaves: seq<bytes>): (r: seq<Digest>)
    ensures |r| == |leaves|
  {
    seq(|leaves|, i requires 0 <= i < |leaves| => HashLeaf(H, leaves[i]))
  }

  /** The root above a layer. */
  ghost function Root(H: Hash, layer: seq<Digest>): Digest
    requires |layer| > 0
    decreases |layer|
  {
    if |layer| == 1 then layer[0] else Root(H, ParentLayer(H, layer))
  }

  /** The tree buildMerkleTree promises. */
  ghost predicate IsTree(H: Hash, leaves: seq<bytes>, tree: Tree) {
    && leaves != []
    && tree.layers == Layers(H, LeafLayer(H, leaves))
    && tree.root == Root(H, LeafLayer(H, leaves))
  }

  lemma {:induction false} LayersStep(H: Hash, layer: seq<Digest>, k: nat)
    requires |layer| > 0 && k < Height(|layer|)
    ensures |Layers(H, layer)[k]| > 1
    ensures Layers(H, layer)[k + 1] == ParentLayer(H, Layers(H, layer)[k])
    ensures Layers(H, layer)[k..] == Layers(H, Layers(H, layer)[k])
    decreases |layer|
  {
    if k > 0 {
      LayersStep(H, ParentLayer(H, layer), k - 1);
      assert Layers(H, layer)[k..] == Layers(H, ParentLayer(H, layer))[k - 1..];
    } else {
      assert Layers(H, layer)[0..] == Layers(H, layer);
    }
  }

  /** The outer loop's invariant: the layers so far, continued from the last one, are the whole tree. */
  ghost predicate Building(H: Hash, layers: seq<seq<Digest>>, current: seq<Digest>, bottom: seq<Digest>) {
    && |current| > 0 && |bottom| > 0 && |layers| > 0 && layers[|layers| - 1] == current
    && layers[..|layers| - 1] + Layers(H, current) == Layers(H, bottom)
    && Root(H, current) == Root(H, bottom)
  }

  lemma BuildingStart(H: Hash, leaves: seq<bytes>)
    requires leaves != []
    ensures Building(H, [LeafLayer(H, leaves)], LeafLayer(H, leaves), LeafLayer(H, leaves))
  {
    hide LeafLayer, Root;
    var bottom := LeafLayer(H, leaves);
    assert [bottom][..0] + Layers(H, bottom) == Layers(H, bottom);
  }

  lemma BuildingStep(H: Hash, layers: seq<seq<Digest>>, current: seq<Digest>, bottom: seq<Digest>)
    requires Building(H, layers, current, bottom) && |current| > 1
    ensures Building(H, layers + [ParentLayer(H, current)], ParentLayer(H, current), bottom)
  {
    hide ParentLayer;
    var next := ParentLayer(H, current);
    var init := layers[..|layers| - 1];
    assert layers == init + [current];
    assert (layers + [next])[..|layers|] == layers;
    assert init + ([current] + Layers(H, next)) == init + [current] + Layers(H, next);
  }

  lemma BuildingEnd(H: Hash, layers: seq<seq<Digest>>, current: seq<Digest>, leaves: seq<bytes>)
    requires leaves != [] && Building(H, layers, current, LeafLayer(H, leaves)) && |current| == 1
    ensures IsTree(H, leaves, Tree(current[0], layers))
  {
    hide LeafLayer, ParentLayer;
    assert layers == layers[..|layers| - 1] + [current];
  }

  lemma ParentLayerStep(H: Hash, layer: seq<Digest>, i: nat, right: Digest)
    requires i < |layer| && i % 2 == 0
    requires right == if i + 1 < |layer| then layer[i + 1] else layer[i]
    ensures i / 2 < |ParentLayer(H, layer)|
    ensures ParentLayer(H, layer)[..i / 2] + [HashNode(H, layer[i], right)] == ParentLayer(H, layer)[..(i + 2) / 2]
  {
    hide HashNode;
    var n := i / 2;
    assert ParentLayer(H, layer)[n] == Parent(H, layer, n);
  }

  method BuildMerkleTree(H: Hash, leaves: seq<bytes>) returns (r: Result<Tree, Error>)
    ensures leaves == [] ==> r == Err(NoLeaves)
    ensures leaves != [] ==> r.Ok? && IsTree(H, leaves, r.value)
  {
    hide ParentLayer, LeafLayer, Layers, Root, Building, IsTree, HashNode, HashLeaf;
    if |leaves| == 0 {
      return Err(NoLeaves);
    }
    var currentLayer: seq<Digest> := seq(|leaves|, i requires 0 <= i < |leaves| => HashLeaf(H, leaves[i]));
    LeafLayerIs(H, leaves, currentLayer);
    var layers := [currentLayer];
    BuildingStart(H, leaves);
    while |currentLayer| > 1
      invariant |currentLayer| > 0 && Building(H, layers, currentLayer, LeafLayer(H, leaves))
      decreases |currentLayer|
    {
      var nextLayer: seq<Digest> := [];
      var i := 0;
      while i < |currentLayer|
        invariant i % 2 == 0 && 0 <= i <= |currentLayer| + 1
        invariant i / 2 <= |ParentLayer(H, currentLayer)| && nextLayer == ParentLayer(H, currentLayer)[..i / 2]
      {
        var left := currentLayer[i];
        var right := if i + 1 < |currentLayer| then currentLayer[i + 1] else currentLayer[i];
        ParentLayerStep(H, currentLayer, i, right);
        nextLayer := nextLayer + [HashNode(H, left, right)];
        i := i + 2;
      }
      assert nextLayer == ParentLayer(H, currentLayer);
      BuildingStep(H, layers, currentLayer, LeafLayer(H, leaves));
      layers := layers + [nextLayer];
      currentLayer := nextLayer;
    }
    BuildingEnd(H, layers, currentLayer, leaves);
    return Ok(Tree(currentLayer[0], layers));
  }

  lemma LeafLayerIs(H: Hash, leaves: seq<bytes>, layer: seq<Digest>)
    requires |layer| == |leaves| && forall i :: 0 <= i < |leaves| ==> layer[i] == HashLeaf(H, leaves[i])
    ensures layer == LeafLayer(H, leaves)
  {
  }

  // ---------------------------------------------------------------------------
  // Proof paths
  // ---------------------------------------------------------------------------

  /** Position i's sibling in a layer, and the side it is on. */
  function SiblingStep(layer: seq<Digest>, i: nat): Step
    requires i < |layer|
  {
    if i % 2 == 1 then Step(layer[i - 1], Left)
    else Step(if i + 1 < |layer| then layer[i + 1] else layer[i], Right)
  }

  /** The path generateMerkleProof promises, from a layer up to the root. */
  ghost function Path(H: Hash, layer: seq<Digest>, i: nat): (r: seq<Step>)
    requires i < |layer|
    ensures |r| == Height(|layer|)
    decreases |layer|
  {
    if |layer| == 1 then [] else [SiblingStep(layer, i)] + Path(H, ParentLayer(H, layer), i / 2)
  }

  method GenerateMerkleProof(H: Hash, ghost leaves: seq<bytes>, tree: Tree, leafIndex: int)
    returns (r: Result<seq<Step>, Error>)
    requires IsTree(H, leaves, tree)
    ensures !(0 <= leafIndex < |leaves|) ==> r == Err(IndexOutOfRange)
    ensures 0 <= leafIndex < |leaves| ==> r == Ok(Path(H, LeafLayer(H, leaves), leafIndex))
  {
    hide ParentLayer, LeafLayer, Layers, Root, SiblingStep, Height, Path;
    var leafCount := |tree.layers[0]|;
    if leafIndex < 0 || leafIndex >= leafCount {
      return Err(IndexOutOfRange);
    }
    var path: seq<Step> := [];
    var index := leafIndex;
    ghost var bottom := LeafLayer(H, leaves);
    assert tree.layers[0..] == tree.layers;
    for level := 0 to |tree.layers| - 1
      invariant 0 <= index < |tree.layers[level]|
      invariant path + Path(H, tree.layers[level], index) == Path(H, bottom, leafIndex)
    {
      var layer := tree.layers[level];
      PathStep(H, bottom, level, index);
      var isRightNode := index % 2 == 1;
      var siblingIndex := if isRightNode then index - 1 else index + 1;
      var siblingHash := if siblingIndex < |layer| then layer[siblingIndex] else layer[index];
      SiblingStepIs(layer, index, siblingHash);
      path := path + [Step(siblingHash, if isRightNode then Left else Right)];
      index := index / 2;
    }
    PathEnd(H, bottom, index);
    assert path + [] == path;
    return Ok(path);
  }

  lemma SiblingStepIs(layer: seq<Digest>, index: nat, siblingHash: Digest)
    requires index < |layer|
    requires var s := if index % 2 == 1 then index - 1 else index + 1;
             siblingHash == if s < |layer| then layer[s] else layer[index]
    ensures SiblingStep(layer, index) == Step(siblingHash, if index % 2 == 1 then Left else Right)
  {
  }

  lemma PathStep(H: Hash, bottom: seq<Digest>, level: nat, index: nat)
    requires |bottom| > 0 && level + 1 < |Layers(H, bottom)| && index < |Layers(H, bottom)[level]|
    ensures var layer, above := Layers(H, bottom)[level], Layers(H, bottom)[level + 1];
            && index / 2 < |above|
            && Path(H, layer, index) == [SiblingStep(layer, index)] + Path(H, above, index / 2)
  {
    hide SiblingStep;
    LayersStep(H, bottom, level);
  }

  lemma PathEnd(H: Hash, bottom: seq<Digest>, index: nat)
    requires |bottom| > 0 && index < |Layers(H, bottom)[Height(|bottom|)]|
    ensures Path(H, Layers(H, bottom)[Height(|bottom|)], index) == []
  {
    TopLayer(H, bottom);
  }

  lemma {:induction false} TopLayer(H: Hash, layer: seq<Digest>)
    requires |layer| > 0
    ensures Layers(H, layer)[Height(|layer|)] == [Root(H, layer)]
    decreases |layer|
  {
    hide ParentLayer;
    if |layer| > 1 {
      TopLayer(H, ParentLayer(H, layer));
    }
  }

  // ---------------------------------------------------------------------------
  // Folding and verifying
  // ---------------------------------------------------------------------------

  /** The hash input one proof step feeds. */
  function StepInput(current: bytes, step: Step): bytes {
    if step.direction == Left then NodeInput(step.sibling, current) else NodeInput(current, step.sibling)
  }

  ghost function Fold(H: Hash, current: Digest, path: seq<Step>): Digest
    decreases |path|
  {
    if path == [] then current else Fold(H, H(StepInput(current, path[0])), path[1..])
  }

  ghost predicate WellFormedPath(path: seq<Step>) {
    forall i :: 0 <= i < |path| ==> WellFormed(path[i].sibling)
  }

  /** What computeMerkleRoot answers. */
  ghost function Folded(H: Hash, leafHash: bytes, path: seq<Step>): Result<Digest, Error> {
    if !WellFormed(leafHash) then Err(InvalidLeafHash)
    else if !WellFormedPath(path) then Err(InvalidSibling)
    else Ok(Fold(H, leafHash, path))
  }

  method ComputeMerkleRoot(H: Hash, leafHash: bytes, path: seq<Step>) returns (r: Result<Digest, Error>)
    ensures r == Folded(H, leafHash, path)
  {
    hide HashNode;
    if !WellFormed(leafHash) {
      return Err(InvalidLeafHash);
    }
    var current: Digest := leafHash;
    assert path[0..] == path;
    for i := 0 to |path|
      invariant WellFormedPath(path[..i]) && Fold(H, current, path[i..]) == Fold(H, leafHash, path)
    {
      var step := path[i];
      if !WellFormed(step.sibling) {
        return Err(InvalidSibling);
      }
      FoldStep(H, current, path, i);
      WellFormedSnoc(path, i);
      current := if step.direction == Left then HashNode(H, step.sibling, current) else HashNode(H, current, step.sibling);
    }
    assert path[..|path|] == path && path[|path|..] == [];
    return Ok(current);
  }

  lemma FoldStep(H: Hash, current: Digest, path: seq<Step>, i: nat)
    requires i < |path|
    ensures var step := path[i];
            var next := if step.direction == Left then HashNode(H, step.sibling, current) else HashNode(H, current, step.sibling);
            Fold(H, next, path[i + 1..]) == Fold(H, current, path[i..])
  {
    assert path[i..][0] == path[i] && path[i..][1..] == path[i + 1..];
  }

  lemma WellFormedSnoc(path: seq<Step>, i: nat)
    requires i < |path| && WellFormedPath(path[..i]) && WellFormed(path[i].sibling)
    ensures WellFormedPath(path[..i + 1])
  {
  }

  method VerifyMerkleProof(H: Hash, leafHash: bytes, path: seq<Step>, expectedRoot: bytes) returns (ok: bool)
    ensures ok <==> WellFormed(expectedRoot) && Folded(H, leafHash, path) == Ok(expectedRoot)
  {
    if !WellFormed(expectedRoot) || !WellFormed(leafHash) {
      return false;
    }
    var computedRoot := ComputeMerkleRoot(H, leafHash, path);
    return computedRoot.Ok? && computedRoot.value == expectedRoot;
  }

  // ---------------------------------------------------------------------------
  // Completeness
  // ---------------------------------------------------------------------------

  lemma {:induction false} PathFolds(H: Hash, layer: seq<Digest>, i: nat)
    requires i < |layer|
    ensures WellFormedPath(Path(H, layer, i))
    ensures Fold(H, layer[i], Path(H, layer, i)) == Root(H, layer)
    decreases |layer|
  {
    hide ParentLayer;
    if |layer| > 1 {
      var above, step, path := ParentLayer(H, layer), SiblingStep(layer, i), Path(H, layer, i);
      PathFolds(H, above, i / 2);
      assert path[0] == step && path[1..] == Path(H, above, i / 2);
      StepReachesParent(H, layer, i);
    }
  }

  lemma StepReachesParent(H: Hash, layer: seq<Digest>, i: nat)
    requires i < |layer|
    ensures i / 2 < |ParentLayer(H, layer)|
    ensures H(StepInput(layer[i], SiblingStep(layer, i))) == ParentLayer(H, layer)[i / 2]
  {
  }

  /** Every generated path verifies, and is as long as the tree is high. */
  lemma Completeness(H: Hash, leaves: seq<bytes>, tree: Tree, i: nat)
    requires IsTree(H, leaves, tree) && i < |leaves|
    ensures var path := Path(H, LeafLayer(H, leaves), i);
            && Folded(H, HashLeaf(H, leaves[i]), path) == Ok(tree.root)
            && |path| == |tree.layers| - 1 == Height(|leaves|)
  {
    hide Root, Layers, Fold, Path;
    PathFolds(H, LeafLayer(H, leaves), i);
  }

  // ---------------------------------------------------------------------------
  // Soundness for a claimed position
  // ---------------------------------------------------------------------------

  /** The path has the length and the sides of position i. */
  ghost predicate ClaimsPosition(path: seq<Step>, count: nat, i: nat)
    decreases count
  {
    if count <= 1 then path == []
    else
      && path != [] && path[0].direction == (if i % 2 == 1 then Left else Right)
      && ClaimsPosition(path[1..], (count + 1) / 2, i / 2)
  }

  /** On its way up the proof feeds H an input that differs from the tree's own at the same node, with the same digest. */
  ghost predicate ShowsCollision(H: Hash, layer: seq<Digest>, i: nat, current: Digest, path: seq<Step>)
    requires i < |layer|
    decreases |path|
  {
    path != [] && |layer| > 1 &&
    var mine, own := StepInput(current, path[0]), StepInput(layer[i], SiblingStep(layer, i));
    || (mine != own && H(mine) == H(own))
    || ShowsCollision(H, ParentLayer(H, layer), i / 2, H(mine), path[1..])
  }

  lemma {:induction false} PositionSound(H: Hash, layer: seq<Digest>, i: nat, current: Digest, path: seq<Step>)
    requires i < |layer| && ClaimsPosition(path, |layer|, i) && WellFormedPath(path)
    requires Fold(H, current, path) == Root(H, layer)
    ensures (current == layer[i] && path == Path(H, layer, i)) || ShowsCollision(H, layer, i, current, path)
    decreases |layer|
  {
    hide ParentLayer;
    if |layer| > 1 {
      var above := ParentLayer(H, layer);
      var mine, own := StepInput(current, path[0]), StepInput(layer[i], SiblingStep(layer, i));
      PositionSound(H, above, i / 2, H(mine), path[1..]);
      StepReachesParent(H, layer, i);
      if !ShowsCollision(H, layer, i, current, path) {
        assert mine == own;
        SameInput(current, path[0], layer[i], SiblingStep(layer, i));
        assert path == [path[0]] + path[1..];
      }
    }
  }

  lemma SameInput(a: bytes, s: Step, b: bytes, t: Step)
    requires |a| == |b| == |s.sibling| == |t.sibling| == 32 && s.direction == t.direction
    requires StepInput(a, s) == StepInput(b, t)
    ensures a == b && s == t
  {
    var x, y := StepInput(a, s), StepInput(b, t);
    if s.direction == Left {
      assert s.sibling == x[1..33] && a == x[33..] && t.sibling == y[1..33] && b == y[33..];
    } else {
      assert a == x[1..33] && s.sibling == x[33..] && b == y[1..33] && t.sibling == y[33..];
    }
  }

  /**
    A verified proof with the shape of position i proves leaf i with the tree's own
    siblings, or exhibits a collision of H on its way up.
   */
  lemma SoundnessAtPosition(H: Hash, leaves: seq<bytes>, tree: Tree, i: nat, leafHash: bytes, path: seq<Step>)
    requires IsTree(H, leaves, tree) && i < |leaves| && ClaimsPosition(path, |leaves|, i)
    requires Folded(H, leafHash, path) == Ok(tree.root)
    ensures
      || (leafHash == HashLeaf(H, leaves[i]) && path == Path(H, LeafLayer(H, leaves), i))
      || ShowsCollision(H, LeafLayer(H, leaves), i, leafHash, path)
  {
    hide Root, Layers, Fold, Path;
    PositionSound(H, LeafLayer(H, leaves), i, leafHash, path);
  }

  // ---------------------------------------------------------------------------
  // What is hashed, byte for byte
  // ---------------------------------------------------------------------------

  /** Trees of one, two and three leaves: leaves behind a byte 0, nodes behind a byte 1, the odd node twice. */
  lemma SmallRoots(H: Hash, a: bytes, b: bytes, c: bytes)
    ensures Root(H, LeafLayer(H, [a])) == H([0] + a)
    ensures Root(H, LeafLayer(H, [a, b])) == H([1] + H([0] + a) + H([0] + b))
    ensures var (x, y) := (H([1] + H([0] + a) + H([0] + b)), H([1] + H([0] + c) + H([0] + c)));
            Root(H, LeafLayer(H, [a, b, c])) == H([1] + x + y)
  {
    assert LeafLayer(H, [a]) == [H([0] + a)];
    assert LeafLayer(H, [a, b]) == [H([0] + a), H([0] + b)];
    assert LeafLayer(H, [a, b, c]) == [H([0] + a), H([0] + b), H([0] + c)];
    TwoNodes(H, H([0] + a), H([0] + b));
    assert ParentLayer(H, LeafLayer(H, [a, b, c]))
        == [H([1] + H([0] + a) + H([0] + b)), H([1] + H([0] + c) + H([0] + c))];
    TwoNodes(H, H([1] + H([0] + a) + H([0] + b)), H([1] + H([0] + c) + H([0] + c)));
  }

  lemma TwoNodes(H: Hash, x: Digest, y: Digest)
    ensures Root(H, [x, y]) == H([1] + x + y)
  {
    assert ParentLayer(H, [x, y]) == [H([1] + x + y)];
  }

  /** No leaf is hashed from the bytes of a node, and one step of a proof hashes the sibling on its own side. */
  lemma StepHashed(H: Hash, leafHash: Digest, sibling: Digest, data: bytes, left: bytes, right: bytes)
    ensures [0] + data != [1] + left + right
    ensures Folded(H, leafHash, [Step(sibling, Left)]) == Ok(H([1] + sibling + leafHash))
    ensures Folded(H, leafHash, [Step(sibling, Right)]) == Ok(H([1] + leafHash + sibling))
  {
    assert ([0] + data)[0] == 0 && ([1] + left + right)[0] == 1;
    OneStep(H, leafHash, Step(sibling, Left));
    OneStep(H, leafHash, Step(sibling, Right));
  }

  lemma OneStep(H: Hash, leafHash: Digest, step: Step)
    requires WellFormed(step.sibling)
    ensures Folded(H, leafHash, [step]) == Ok(H(StepInput(leafHash, step)))
  {
    var path := [step];
    assert path[1..] == [];
    assert Fold(H, H(StepInput(leafHash, step)), []) == H(StepInput(leafHash, step));
  }

  /** Which hash is complained about: the leaf's before those of the path. */
  lemma FoldErrors(H: Hash, leafHash: bytes, path: seq<Step>)
    ensures Folded(H, leafHash, path) == Err(InvalidLeafHash) <==> |leafHash| != 32
    ensures Folded(H, leafHash, path) == Err(InvalidSibling) <==>
              |leafHash| == 32 && exists i :: 0 <= i < |path| && |path[i].sibling| != 32
  {
  }
}
