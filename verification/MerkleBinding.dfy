/**
  What the leading 0x00 and 0x01 bytes of packages/shared/src/merkle.ts buy: a verified
  proof for a payload, whatever its length and sides, proves that the payload is a leaf;
  and a root fixes the leaves once their number is known.
 */
module MerkleBinding {
  import opened Wrappers
  import opened Merkle

  /** What was hashed for node j of level k of the tree over these leaves. */
  ghost function TreeInput(H: Hash, leaves: seq<bytes>, k: nat, j: nat): bytes
    requires leaves != [] && k <= Height(|leaves|) && j < |Layers(H, LeafLayer(H, leaves))[k]|
    requires k > 0 ==> 2 * j < |Layers(H, LeafLayer(H, leaves))[k - 1]|
  {
    if k == 0 then LeafInput(leaves[j])
    else
      var below := Layers(H, LeafLayer(H, leaves))[k - 1];
      NodeInput(below[2 * j], if 2 * j + 1 < |below| then below[2 * j + 1] else below[2 * j])
  }

  /** What a verifier of a payload hashes at the k-th step, the payload itself being step 0. */
  ghost function ProofInput(H: Hash, data: bytes, path: seq<Step>, k: nat): bytes
    requires k <= |path|
  {
    if k == 0 then LeafInput(data) else StepInput(H(ProofInput(H, data, path, k - 1)), path[k - 1])
  }

  ghost predicate InTree(H: Hash, leaves: seq<bytes>, k: nat, j: nat) {
    && leaves != [] && k <= Height(|leaves|)
    && j < |Layers(H, LeafLayer(H, leaves))[k]|
    && (k > 0 ==> 2 * j < |Layers(H, LeafLayer(H, leaves))[k - 1]|)
  }

  lemma NodeInTree(H: Hash, leaves: seq<bytes>, k: nat, j: nat)
    requires leaves != [] && k <= Height(|leaves|) && j < |Layers(H, LeafLayer(H, leaves))[k]|
    ensures InTree(H, leaves, k, j)
    ensures H(TreeInput(H, leaves, k, j)) == Layers(H, LeafLayer(H, leaves))[k][j]
  {
    hide Layers, Height;
    if k > 0 {
      LayersStep(H, LeafLayer(H, leaves), k - 1);
    }
  }

  lemma {:induction false} FoldIsProofInput(H: Hash, data: bytes, path: seq<Step>)
    ensures Fold(H, HashLeaf(H, data), path) == H(ProofInput(H, data, path, |path|))
  {
    FoldFrom(H, data, path, 0);
    assert path[0..] == path;
  }

  lemma {:induction false} FoldFrom(H: Hash, data: bytes, path: seq<Step>, k: nat)
    requires k <= |path|
    ensures Fold(H, H(ProofInput(H, data, path, k)), path[k..]) == H(ProofInput(H, data, path, |path|))
    decreases |path| - k
  {
    if k < |path| {
      FoldFrom(H, data, path, k + 1);
      assert path[k..][0] == path[k] && path[k..][1..] == path[k + 1..];
    }
  }

  /** Two different inputs with the same digest: one hashed by the verifier, one by the tree. */
  ghost predicate CollisionAt(H: Hash, leaves: seq<bytes>, data: bytes, path: seq<Step>, m: nat, k: nat, j: nat) {
    && m <= |path| && InTree(H, leaves, k, j)
    && ProofInput(H, data, path, m) != TreeInput(H, leaves, k, j)
    && H(ProofInput(H, data, path, m)) == H(TreeInput(H, leaves, k, j))
  }

  /** Walking down from a node the verifier and the tree agree on. */
  lemma {:induction false} Descend(H: Hash, leaves: seq<bytes>, data: bytes, path: seq<Step>, m: nat, k: nat, j: nat)
    requires m <= |path| && WellFormedPath(path)
    requires leaves != [] && k <= Height(|leaves|) && j < |Layers(H, LeafLayer(H, leaves))[k]|
    requires H(ProofInput(H, data, path, m)) == Layers(H, LeafLayer(H, leaves))[k][j]
    ensures data in leaves || exists m', k', j' :: CollisionAt(H, leaves, data, path, m', k', j')
    decreases m
  {
    hide Layers, Height, LeafLayer, TreeInput, ProofInput;
    NodeInTree(H, leaves, k, j);
    if ProofInput(H, data, path, m) != TreeInput(H, leaves, k, j) {
      assert CollisionAt(H, leaves, data, path, m, k, j);
    } else if m == 0 || k == 0 {
      PrefixesAgree(H, leaves, data, path, m, k, j);
    } else {
      var i := ChildOf(H, leaves, data, path, m, k, j);
      Descend(H, leaves, data, path, m - 1, k - 1, i);
    }
  }

  /** A leaf input is never a node input: their first bytes differ. */
  lemma PrefixesAgree(H: Hash, leaves: seq<bytes>, data: bytes, path: seq<Step>, m: nat, k: nat, j: nat)
    requires m <= |path| && InTree(H, leaves, k, j) && (m == 0 || k == 0)
    requires ProofInput(H, data, path, m) == TreeInput(H, leaves, k, j)
    ensures data in leaves
  {
    hide Layers, Height;
    var p, t := ProofInput(H, data, path, m), TreeInput(H, leaves, k, j);
    assert p[0] == if m == 0 then 0 else 1;
    assert t[0] == if k == 0 then 0 else 1;
    assert p[1..] == data;
    assert t[1..] == leaves[j];
  }

  lemma ChildOf(H: Hash, leaves: seq<bytes>, data: bytes, path: seq<Step>, m: nat, k: nat, j: nat) returns (i: nat)
    requires 0 < m <= |path| && k > 0 && InTree(H, leaves, k, j) && WellFormedPath(path)
    requires ProofInput(H, data, path, m) == TreeInput(H, leaves, k, j)
    ensures i < |Layers(H, LeafLayer(H, leaves))[k - 1]|
    ensures H(ProofInput(H, data, path, m - 1)) == Layers(H, LeafLayer(H, leaves))[k - 1][i]
  {
    hide Layers, Height, LeafLayer;
    var below := Layers(H, LeafLayer(H, leaves))[k - 1];
    var left, right := 2 * j, if 2 * j + 1 < |below| then 2 * j + 1 else 2 * j;
    var step, current := path[m - 1], H(ProofInput(H, data, path, m - 1));
    assert WellFormed(step.sibling);
    i := if step.direction == Left then right else left;
    var a, b := if step.direction == Left then step.sibling else current, if step.direction == Left then current else step.sibling;
    NodeInputInjective(a, b, below[left], below[right]);
  }

  lemma NodeInputInjective(a: bytes, b: bytes, c: bytes, d: bytes)
    requires |a| == |b| == |c| == |d| == 32 && NodeInput(a, b) == NodeInput(c, d)
    ensures a == c && b == d
  {
    var x, y := NodeInput(a, b), NodeInput(c, d);
    assert a == x[1..33] && b == x[33..] && c == y[1..33] && d == y[33..];
  }

  /**
    A proof for a payload that verifies against a built tree, of any length and with any
    sides, shows that the payload is one of the leaves, or the verifier and the tree
    hashed two different inputs to the same digest.
   */
  lemma PayloadSound(H: Hash, leaves: seq<bytes>, tree: Tree, data: bytes, path: seq<Step>)
    requires IsTree(H, leaves, tree) && Folded(H, HashLeaf(H, data), path) == Ok(tree.root)
    ensures data in leaves || exists m, k, j :: CollisionAt(H, leaves, data, path, m, k, j)
  {
    hide Layers, LeafLayer, HashLeaf, CollisionAt;
    FoldIsProofInput(H, data, path);
    TopLayer(H, LeafLayer(H, leaves));
    Descend(H, leaves, data, path, |path|, Height(|leaves|), 0);
  }

  // ---------------------------------------------------------------------------
  // What a root fixes
  // ---------------------------------------------------------------------------

  /** The two trees hashed different inputs to the same digest at the same node. */
  ghost predicate TreesCollideAt(H: Hash, a: seq<bytes>, b: seq<bytes>, k: nat, j: nat) {
    && InTree(H, a, k, j) && InTree(H, b, k, j)
    && TreeInput(H, a, k, j) != TreeInput(H, b, k, j)
    && H(TreeInput(H, a, k, j)) == H(TreeInput(H, b, k, j))
  }

  lemma {:induction false} LayerSizes(H: Hash, a: seq<Digest>, b: seq<Digest>, k: nat)
    requires |a| == |b| > 0 && k <= Height(|a|)
    ensures |Layers(H, a)[k]| == |Layers(H, b)[k]|
    decreases k
  {
    hide Layers, Height;
    if k > 0 {
      LayerSizes(H, a, b, k - 1);
      LayersStep(H, a, k - 1);
      LayersStep(H, b, k - 1);
    } else {
      LayersStart(H, a);
      LayersStart(H, b);
    }
  }

  lemma LayersStart(H: Hash, layer: seq<Digest>)
    requires |layer| > 0
    ensures Layers(H, layer)[0] == layer
  {
  }

  /** Equal layers have equal layers below them, or the trees collide. */
  lemma {:induction false} EqualBelow(H: Hash, a: seq<bytes>, b: seq<bytes>, k: nat)
    requires |a| == |b| > 0 && k <= Height(|a|)
    requires Layers(H, LeafLayer(H, a))[k] == Layers(H, LeafLayer(H, b))[k]
    ensures a == b || exists k', j :: TreesCollideAt(H, a, b, k', j)
    decreases k
  {
    hide Layers, Height, LeafLayer, TreeInput;
    var layer := Layers(H, LeafLayer(H, a))[k];
    forall j | 0 <= j < |layer| ensures InTree(H, a, k, j) && InTree(H, b, k, j)
      && (TreesCollideAt(H, a, b, k, j) || TreeInput(H, a, k, j) == TreeInput(H, b, k, j))
    {
      NodeInTree(H, a, k, j);
      NodeInTree(H, b, k, j);
    }
    if j :| 0 <= j < |layer| && TreesCollideAt(H, a, b, k, j) {
    } else if k == 0 {
      SameLeaves(H, a, b);
    } else {
      LayerSizes(H, LeafLayer(H, a), LeafLayer(H, b), k - 1);
      SameLayerBelow(H, a, b, k);
      EqualBelow(H, a, b, k - 1);
    }
  }

  lemma SameLeaves(H: Hash, a: seq<bytes>, b: seq<bytes>)
    requires |a| == |b| > 0
    requires forall j :: 0 <= j < |a| ==>
               InTree(H, a, 0, j) && InTree(H, b, 0, j) && TreeInput(H, a, 0, j) == TreeInput(H, b, 0, j)
    ensures a == b
  {
    hide Layers, Height, LeafLayer;
    forall j | 0 <= j < |a| ensures a[j] == b[j] {
      assert TreeInput(H, a, 0, j)[1..] == a[j] && TreeInput(H, b, 0, j)[1..] == b[j];
    }
  }

  lemma SameLayerBelow(H: Hash, a: seq<bytes>, b: seq<bytes>, k: nat)
    requires |a| == |b| > 0 && 0 < k <= Height(|a|)
    requires |Layers(H, LeafLayer(H, a))[k - 1]| == |Layers(H, LeafLayer(H, b))[k - 1]|
    requires forall j :: 0 <= j < |Layers(H, LeafLayer(H, a))[k]| ==>
               InTree(H, a, k, j) && InTree(H, b, k, j) && TreeInput(H, a, k, j) == TreeInput(H, b, k, j)
    ensures Layers(H, LeafLayer(H, a))[k - 1] == Layers(H, LeafLayer(H, b))[k - 1]
  {
    hide Layers, Height, LeafLayer, TreeInput, InTree;
    LayersStep(H, LeafLayer(H, a), k - 1);
    var p, q := Layers(H, LeafLayer(H, a))[k - 1], Layers(H, LeafLayer(H, b))[k - 1];
    forall i | 0 <= i < |p| ensures p[i] == q[i] {
      assert i / 2 < |Layers(H, LeafLayer(H, a))[k]|;
      assert InTree(H, a, k, i / 2);
      SameChildren(H, a, b, k, i);
    }
  }

  lemma SameChildren(H: Hash, a: seq<bytes>, b: seq<bytes>, k: nat, i: nat)
    requires k > 0 && InTree(H, a, k, i / 2) && InTree(H, b, k, i / 2)
    requires TreeInput(H, a, k, i / 2) == TreeInput(H, b, k, i / 2)
    requires i < |Layers(H, LeafLayer(H, a))[k - 1]| == |Layers(H, LeafLayer(H, b))[k - 1]|
    ensures Layers(H, LeafLayer(H, a))[k - 1][i] == Layers(H, LeafLayer(H, b))[k - 1][i]
  {
    hide Layers, Height, LeafLayer, NodeInput;
    var p, q := Layers(H, LeafLayer(H, a))[k - 1], Layers(H, LeafLayer(H, b))[k - 1];
    var j := i / 2;
    var r := if 2 * j + 1 < |p| then 2 * j + 1 else 2 * j;
    NodeInputInjective(p[2 * j], p[r], q[2 * j], q[r]);
  }

  /** With the number of leaves known, the root fixes every leaf, or the trees collide. */
  lemma RootBindsLeaves(H: Hash, a: seq<bytes>, b: seq<bytes>, s: Tree, t: Tree)
    requires IsTree(H, a, s) && IsTree(H, b, t) && |a| == |b| && s.root == t.root
    ensures a == b || exists k, j :: TreesCollideAt(H, a, b, k, j)
  {
    hide Layers, LeafLayer, TreesCollideAt;
    TopLayer(H, LeafLayer(H, a));
    TopLayer(H, LeafLayer(H, b));
    EqualBelow(H, a, b, Height(|a|));
  }

  /**
    Without the number of leaves it does not: repeating the last of an odd number of
    leaves, more than one, leaves the root as it was, for every H.
   */
  lemma RepeatedLastLeaf(H: Hash, leaves: seq<bytes>)
    requires |leaves| > 1 && |leaves| % 2 == 1
    ensures Root(H, LeafLayer(H, leaves)) == Root(H, LeafLayer(H, leaves + [leaves[|leaves| - 1]]))
  {
    var a, b := LeafLayer(H, leaves), LeafLayer(H, leaves + [leaves[|leaves| - 1]]);
    assert ParentLayer(H, a) == ParentLayer(H, b);
  }
}
