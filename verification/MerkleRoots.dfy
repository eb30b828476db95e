/**
  When two leaf lists have the same root: packages/shared/src/merkle.ts pairs an odd last
  node with itself, so lists of different lengths can be one tree to the hash function.
 */
module MerkleRoots {
  import opened Merkle
  import opened MerkleBinding
  import JsBits

  /**
    The leaf that a path down the tree over n leaves ends at; the path's binary digits, the
    highest first, choose between left and right, and the right of an odd last node is itself.
   */
  function At(n: nat, path: nat): (i: nat)
    requires n > 0
    ensures i < n
    decreases n
  {
    if n == 1 then 0
    else
      var child := 2 * At((n + 1) / 2, path / 2) + path % 2;
      if child < n then child else n - 1
  }

  /** Trees of one height that show the same leaf at the end of every path. */
  ghost predicate Alike(a: seq<bytes>, b: seq<bytes>)
    requires a != [] && b != []
  {
    && Height(|a|) == Height(|b|)
    && forall path: nat :: path < JsBits.Pow2(Height(|a|)) ==> a[At(|a|, path)] == b[At(|b|, path)]
  }

  /** The two trees hashed different inputs to the same digest, at these two nodes. */
  ghost predicate NodesCollide(H: Hash, a: seq<bytes>, b: seq<bytes>, k: nat, i: nat, m: nat, j: nat) {
    && InTree(H, a, k, i) && InTree(H, b, m, j)
    && TreeInput(H, a, k, i) != TreeInput(H, b, m, j)
    && H(TreeInput(H, a, k, i)) == H(TreeInput(H, b, m, j))
  }

  ghost predicate SomeCollision(H: Hash, a: seq<bytes>, b: seq<bytes>) {
    exists k, i, m, j :: NodesCollide(H, a, b, k, i, m, j)
  }

  // ---------------------------------------------------------------------------
  // Alike lists have one root
  // ---------------------------------------------------------------------------

  ghost predicate SameOnPaths(x: seq<Digest>, y: seq<Digest>)
    requires x != [] && y != []
  {
    forall path: nat :: path < JsBits.Pow2(Height(|x|)) ==> x[At(|x|, path)] == y[At(|y|, path)]
  }

  lemma OnPath(x: seq<Digest>, y: seq<Digest>, path: nat)
    requires x != [] && y != [] && SameOnPaths(x, y) && path < JsBits.Pow2(Height(|x|))
    ensures x[At(|x|, path)] == y[At(|y|, path)]
  {
    hide Height, At;
  }

  lemma PathsDouble(n: nat)
    requires n > 1
    ensures JsBits.Pow2(Height(n)) == 2 * JsBits.Pow2(Height((n + 1) / 2))
  {
  }

  lemma AtStep(n: nat, path: nat)
    requires n > 1
    ensures var child := 2 * At((n + 1) / 2, path / 2) + path % 2;
            At(n, path) == if child < n then child else n - 1
  {
  }

  lemma AtChildren(n: nat, path: nat)
    requires n > 1
    ensures var i := At((n + 1) / 2, path);
            && 2 * i < n
            && At(n, 2 * path) == 2 * i
            && At(n, 2 * path + 1) == if 2 * i + 1 < n then 2 * i + 1 else 2 * i
  {
    hide At;
    AtStep(n, 2 * path);
    AtStep(n, 2 * path + 1);
    Halves(path);
  }

  lemma Halves(path: nat)
    ensures 2 * path / 2 == path && 2 * path % 2 == 0
    ensures (2 * path + 1) / 2 == path && (2 * path + 1) % 2 == 1
  {
  }

  lemma SameParent(H: Hash, x: seq<Digest>, y: seq<Digest>, path: nat)
    requires |x| > 1 && |y| > 1 && SameOnPaths(x, y)
    requires path < JsBits.Pow2(Height((|x| + 1) / 2))
    ensures ParentLayer(H, x)[At((|x| + 1) / 2, path)] == ParentLayer(H, y)[At((|y| + 1) / 2, path)]
  {
    hide *;
    var i, j := At((|x| + 1) / 2, path), At((|y| + 1) / 2, path);
    PathsDouble(|x|);
    AtChildren(|x|, path);
    AtChildren(|y|, path);
    OnPath(x, y, 2 * path);
    OnPath(x, y, 2 * path + 1);
    ParentIs(H, x, i);
    ParentIs(H, y, j);
  }

  lemma SameAbove(H: Hash, x: seq<Digest>, y: seq<Digest>)
    requires |x| > 1 && |y| > 1 && SameOnPaths(x, y)
    ensures SameOnPaths(ParentLayer(H, x), ParentLayer(H, y))
  {
    hide ParentLayer, Height, At;
    var p, q := ParentLayer(H, x), ParentLayer(H, y);
    forall path: nat | path < JsBits.Pow2(Height(|p|))
      ensures p[At(|p|, path)] == q[At(|q|, path)]
    {
      SameParent(H, x, y, path);
    }
  }

  lemma ParentIs(H: Hash, layer: seq<Digest>, i: nat)
    requires 2 * i < |layer|
    ensures i < |ParentLayer(H, layer)|
    ensures ParentLayer(H, layer)[i] == HashNode(H, layer[2 * i], if 2 * i + 1 < |layer| then layer[2 * i + 1] else layer[2 * i])
  {
  }

  lemma {:induction false} SameRoot(H: Hash, x: seq<Digest>, y: seq<Digest>)
    requires x != [] && y != [] && Height(|x|) == Height(|y|) && SameOnPaths(x, y)
    ensures Root(H, x) == Root(H, y)
    decreases |x|
  {
    hide ParentLayer, SameOnPaths;
    if |x| == 1 {
      assert |y| == 1;
      assert At(1, 0) == 0;
      assert x[At(|x|, 0)] == y[At(|y|, 0)] by { OnlyPath(x, y); }
    } else {
      SameAbove(H, x, y);
      SameRoot(H, ParentLayer(H, x), ParentLayer(H, y));
    }
  }

  lemma OnlyPath(x: seq<Digest>, y: seq<Digest>)
    requires |x| == 1 && |y| == 1 && SameOnPaths(x, y)
    ensures x[At(|x|, 0)] == y[At(|y|, 0)]
  {
    assert JsBits.Pow2(Height(|x|)) == 1;
  }

  lemma AlikeLayers(H: Hash, a: seq<bytes>, b: seq<bytes>)
    requires a != [] && b != [] && Alike(a, b)
    ensures SameOnPaths(LeafLayer(H, a), LeafLayer(H, b))
  {
    hide Height;
    var x, y := LeafLayer(H, a), LeafLayer(H, b);
    forall path: nat | path < JsBits.Pow2(Height(|x|))
      ensures x[At(|x|, path)] == y[At(|y|, path)]
    {
      assert a[At(|a|, path)] == b[At(|b|, path)];
    }
  }

  // ---------------------------------------------------------------------------
  // Lists with one root are alike, or show a collision
  // ---------------------------------------------------------------------------

  /** Layer k of the tree over the leaves. */
  ghost function Layer(H: Hash, leaves: seq<bytes>, k: nat): (r: seq<Digest>)
    requires leaves != [] && k <= Height(|leaves|)
  {
    Layers(H, LeafLayer(H, leaves))[k]
  }

  lemma LayerFacts(H: Hash, leaves: seq<bytes>, k: nat)
    requires leaves != [] && k <= Height(|leaves|)
    ensures Layer(H, leaves, k) != []
    ensures k > 0 ==> |Layer(H, leaves, k - 1)| > 1 && |Layer(H, leaves, k)| == (|Layer(H, leaves, k - 1)| + 1) / 2
    ensures k == 0 ==> |Layer(H, leaves, k)| == |leaves|
  {
    hide Layers, Height, LeafLayer;
    if k > 0 {
      LayersStep(H, LeafLayer(H, leaves), k - 1);
    } else {
      LayersStart(H, LeafLayer(H, leaves));
    }
  }

  /** The node at depth d under the root where the path of d digits ends, as a digest. */
  ghost function NodeAt(H: Hash, leaves: seq<bytes>, d: nat, path: nat): Digest
    requires leaves != [] && d <= Height(|leaves|)
  {
    LayerFacts(H, leaves, Height(|leaves|) - d);
    var layer := Layer(H, leaves, Height(|leaves|) - d);
    layer[At(|layer|, path)]
  }

  /** The position of that node in its layer. */
  ghost function IndexAt(H: Hash, leaves: seq<bytes>, d: nat, path: nat): (i: nat)
    requires leaves != [] && d <= Height(|leaves|)
    ensures i < |Layer(H, leaves, Height(|leaves|) - d)|
  {
    LayerFacts(H, leaves, Height(|leaves|) - d);
    At(|Layer(H, leaves, Height(|leaves|) - d)|, path)
  }

  lemma LayerNode(H: Hash, leaves: seq<bytes>, k: nat, i: nat)
    requires leaves != [] && k <= Height(|leaves|) && i < |Layer(H, leaves, k)|
    ensures InTree(H, leaves, k, i) && H(TreeInput(H, leaves, k, i)) == Layer(H, leaves, k)[i]
  {
    hide Layers, Height, LeafLayer, InTree, TreeInput;
    NodeInTree(H, leaves, k, i);
  }

  lemma NodeIs(H: Hash, leaves: seq<bytes>, d: nat, path: nat)
    requires leaves != [] && d <= Height(|leaves|)
    ensures NodeAt(H, leaves, d, path) == Layer(H, leaves, Height(|leaves|) - d)[IndexAt(H, leaves, d, path)]
  {
    hide Layer, Height, At;
  }

  lemma NodeHashed(H: Hash, leaves: seq<bytes>, d: nat, path: nat)
    requires leaves != [] && d <= Height(|leaves|)
    ensures var k, i := Height(|leaves|) - d, IndexAt(H, leaves, d, path);
            InTree(H, leaves, k, i) && H(TreeInput(H, leaves, k, i)) == NodeAt(H, leaves, d, path)
  {
    hide *;
    NodeIs(H, leaves, d, path);
    LayerNode(H, leaves, Height(|leaves|) - d, IndexAt(H, leaves, d, path));
  }

  lemma IndexIs(H: Hash, leaves: seq<bytes>, d: nat, path: nat)
    requires leaves != [] && d <= Height(|leaves|)
    ensures Layer(H, leaves, Height(|leaves|) - d) != []
    ensures IndexAt(H, leaves, d, path) == At(|Layer(H, leaves, Height(|leaves|) - d)|, path)
  {
    hide Layer, Height, At;
    LayerFacts(H, leaves, Height(|leaves|) - d);
  }

  lemma InputIs(H: Hash, leaves: seq<bytes>, k: nat, i: nat)
    requires k > 0 && InTree(H, leaves, k, i)
    ensures var below := Layer(H, leaves, k - 1);
            && 2 * i < |below|
            && TreeInput(H, leaves, k, i) == NodeInput(below[2 * i], below[if 2 * i + 1 < |below| then 2 * i + 1 else 2 * i])
  {
    hide Layers, Height, LeafLayer, NodeInput;
  }

  lemma ChildNodes(H: Hash, leaves: seq<bytes>, d: nat, path: nat)
    requires leaves != [] && d < Height(|leaves|)
    requires Layer(H, leaves, Height(|leaves|) - d - 1) != [] && Layer(H, leaves, Height(|leaves|) - d) != []
    ensures var below, i := Layer(H, leaves, Height(|leaves|) - d - 1), IndexAt(H, leaves, d, path);
            && 2 * i < |below|
            && NodeAt(H, leaves, d + 1, 2 * path) == below[2 * i]
            && NodeAt(H, leaves, d + 1, 2 * path + 1) == below[if 2 * i + 1 < |below| then 2 * i + 1 else 2 * i]
  {
    hide *;
    var k, i := Height(|leaves|) - d, IndexAt(H, leaves, d, path);
    var below := Layer(H, leaves, k - 1);
    LayerFacts(H, leaves, k);
    AtChildren(|below|, path);
    IndexIs(H, leaves, d, path);
    IndexIs(H, leaves, d + 1, 2 * path);
    IndexIs(H, leaves, d + 1, 2 * path + 1);
    NodeIs(H, leaves, d + 1, 2 * path);
    NodeIs(H, leaves, d + 1, 2 * path + 1);
  }

  /** Above the leaves, a node is hashed from the two nodes its path leads on to. */
  lemma ChildrenHashed(H: Hash, leaves: seq<bytes>, d: nat, path: nat)
    requires leaves != [] && d < Height(|leaves|)
    ensures var k, i := Height(|leaves|) - d, IndexAt(H, leaves, d, path);
            && InTree(H, leaves, k, i)
            && TreeInput(H, leaves, k, i) == NodeInput(NodeAt(H, leaves, d + 1, 2 * path), NodeAt(H, leaves, d + 1, 2 * path + 1))
  {
    hide *;
    var k, i := Height(|leaves|) - d, IndexAt(H, leaves, d, path);
    LayerNode(H, leaves, k, i);
    InputIs(H, leaves, k, i);
    LayerFacts(H, leaves, k);
    ChildNodes(H, leaves, d, path);
  }

  lemma Collision(H: Hash, a: seq<bytes>, b: seq<bytes>, k: nat, i: nat, m: nat, j: nat)
    requires InTree(H, a, k, i) && InTree(H, b, m, j)
    requires H(TreeInput(H, a, k, i)) == H(TreeInput(H, b, m, j)) && !SomeCollision(H, a, b)
    ensures TreeInput(H, a, k, i) == TreeInput(H, b, m, j)
  {
    hide Layers, Height, LeafLayer, TreeInput;
    assert !NodesCollide(H, a, b, k, i, m, j);
  }

  /** One node the trees share, and no collision: they share both nodes below it. */
  lemma ShareBelow(H: Hash, a: seq<bytes>, b: seq<bytes>, d: nat, path: nat)
    requires a != [] && b != [] && d < Height(|a|) && d < Height(|b|) && !SomeCollision(H, a, b)
    requires NodeAt(H, a, d, path) == NodeAt(H, b, d, path)
    ensures NodeAt(H, a, d + 1, 2 * path) == NodeAt(H, b, d + 1, 2 * path)
    ensures NodeAt(H, a, d + 1, 2 * path + 1) == NodeAt(H, b, d + 1, 2 * path + 1)
  {
    hide *;
    NodeHashed(H, a, d, path);
    NodeHashed(H, b, d, path);
    ChildrenHashed(H, a, d, path);
    ChildrenHashed(H, b, d, path);
    Collision(H, a, b, Height(|a|) - d, IndexAt(H, a, d, path), Height(|b|) - d, IndexAt(H, b, d, path));
    NodeInputInjective(NodeAt(H, a, d + 1, 2 * path), NodeAt(H, a, d + 1, 2 * path + 1),
                       NodeAt(H, b, d + 1, 2 * path), NodeAt(H, b, d + 1, 2 * path + 1));
  }

  lemma {:induction false} ShareDown(H: Hash, a: seq<bytes>, b: seq<bytes>, d: nat, path: nat)
    requires a != [] && b != [] && d <= Height(|a|) && d <= Height(|b|) && !SomeCollision(H, a, b)
    requires Root(H, LeafLayer(H, a)) == Root(H, LeafLayer(H, b)) && path < JsBits.Pow2(d)
    ensures NodeAt(H, a, d, path) == NodeAt(H, b, d, path)
    decreases d
  {
    hide NodeAt, Height, SomeCollision, Root, LeafLayer;
    if d == 0 {
      TopNode(H, a);
      TopNode(H, b);
    } else {
      ShareDown(H, a, b, d - 1, path / 2);
      ShareBelow(H, a, b, d - 1, path / 2);
    }
  }

  lemma TopNode(H: Hash, leaves: seq<bytes>)
    requires leaves != []
    ensures NodeAt(H, leaves, 0, 0) == Root(H, LeafLayer(H, leaves))
  {
    hide Height, Layers;
    TopLayer(H, LeafLayer(H, leaves));
  }

  /** A leaf's digest is of an input that starts with 0, any other node's of one that starts with 1. */
  lemma InputKind(H: Hash, leaves: seq<bytes>, k: nat, i: nat)
    requires InTree(H, leaves, k, i)
    ensures TreeInput(H, leaves, k, i) != [] && TreeInput(H, leaves, k, i)[0] == (if k == 0 then 0 else 1)
    ensures k == 0 ==> i < |leaves| && TreeInput(H, leaves, k, i)[1..] == leaves[i]
  {
    hide Height;
    LayerFacts(H, leaves, k);
  }

  lemma SameHeight(H: Hash, a: seq<bytes>, b: seq<bytes>)
    requires a != [] && b != [] && Height(|a|) < Height(|b|)
    requires Root(H, LeafLayer(H, a)) == Root(H, LeafLayer(H, b))
    ensures SomeCollision(H, a, b) && SomeCollision(H, b, a)
  {
    hide *;
    if !SomeCollision(H, a, b) {
      var d := Height(|a|);
      assert 0 < JsBits.Pow2(d);
      ShareDown(H, a, b, d, 0);
      NodeHashed(H, a, d, 0);
      NodeHashed(H, b, d, 0);
      var i, j := IndexAt(H, a, d, 0), IndexAt(H, b, d, 0);
      InputKind(H, a, 0, i);
      InputKind(H, b, Height(|b|) - d, j);
      Collision(H, a, b, 0, i, Height(|b|) - d, j);
      assert false;
    }
    Turned(H, a, b);
  }

  lemma Turned(H: Hash, a: seq<bytes>, b: seq<bytes>)
    ensures SomeCollision(H, a, b) ==> SomeCollision(H, b, a)
  {
    hide InTree, TreeInput;
    if SomeCollision(H, a, b) {
      var k, i, m, j :| NodesCollide(H, a, b, k, i, m, j);
      assert NodesCollide(H, b, a, m, j, k, i);
    }
  }

  lemma SameLeafAt(H: Hash, a: seq<bytes>, b: seq<bytes>, path: nat)
    requires a != [] && b != [] && Height(|a|) == Height(|b|) && !SomeCollision(H, a, b)
    requires Root(H, LeafLayer(H, a)) == Root(H, LeafLayer(H, b)) && path < JsBits.Pow2(Height(|a|))
    ensures a[At(|a|, path)] == b[At(|b|, path)]
  {
    hide *;
    var d := Height(|a|);
    ShareDown(H, a, b, d, path);
    NodeHashed(H, a, d, path);
    NodeHashed(H, b, d, path);
    LayerFacts(H, a, 0);
    LayerFacts(H, b, 0);
    IndexIs(H, a, d, path);
    IndexIs(H, b, d, path);
    var i, j := IndexAt(H, a, d, path), IndexAt(H, b, d, path);
    Collision(H, a, b, 0, i, 0, j);
    InputKind(H, a, 0, i);
    InputKind(H, b, 0, j);
  }

  /**
    Two leaf lists, of any lengths, have the same root when they are alike, whatever the
    hash; and when they have the same root they are alike, or the trees show two different
    inputs with the same digest.
   */
  lemma RootsExactly(H: Hash, a: seq<bytes>, b: seq<bytes>, s: Tree, t: Tree)
    requires IsTree(H, a, s) && IsTree(H, b, t)
    ensures Alike(a, b) ==> s.root == t.root
    ensures s.root == t.root ==> Alike(a, b) || SomeCollision(H, a, b)
  {
    hide Layers, LeafLayer, Root, SomeCollision, Height, At, SameOnPaths;
    if Alike(a, b) {
      AlikeLayers(H, a, b);
      SameRoot(H, LeafLayer(H, a), LeafLayer(H, b));
    }
    if s.root == t.root && !SomeCollision(H, a, b) {
      if Height(|a|) < Height(|b|) { SameHeight(H, a, b); }
      if Height(|b|) < Height(|a|) { SameHeight(H, b, a); }
      forall path: nat | path < JsBits.Pow2(Height(|a|))
        ensures a[At(|a|, path)] == b[At(|b|, path)]
      {
        SameLeafAt(H, a, b, path);
      }
    }
  }

  // ---------------------------------------------------------------------------
  // What alike means
  // ---------------------------------------------------------------------------

  /** Every leaf is at the end of some path. */
  lemma {:induction false} PathTo(n: nat, i: nat) returns (path: nat)
    requires i < n
    ensures path < JsBits.Pow2(Height(n)) && At(n, path) == i
    decreases n
  {
    if n == 1 {
      path := 0;
    } else {
      var above := PathTo((n + 1) / 2, i / 2);
      path := 2 * above + i % 2;
    }
  }

  /** Lists of one length are alike only when they are equal. */
  lemma AlikeSameLength(a: seq<bytes>, b: seq<bytes>)
    requires a != [] && |a| == |b|
    ensures Alike(a, b) <==> a == b
  {
    hide Height, At;
    if Alike(a, b) {
      forall i | 0 <= i < |a|
        ensures a[i] == b[i]
      {
        var path := PathTo(|a|, i);
      }
    }
  }
}
