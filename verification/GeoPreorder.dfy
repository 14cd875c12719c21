/** Shapes are laid out in preorder: each new shape hangs below the shape before
    it or below one of that shape's ancestors. */
module GeoPreorder {
  import opened GeoTypes
  import opened GeoLayout
  import opened GeoLayoutProofs

  /** Shape `a` is shape `j` or one of its ancestors. */
  predicate OnChain(shapes: seq<Shape>, a: int, j: nat)
    requires j < |shapes|
    decreases j
  {
    a == j || (0 <= shapes[j].parent < j && OnChain(shapes, a, shapes[j].parent))
  }

  /** The shapes from `from` on continue a preorder walk. */
  predicate Preorder(shapes: seq<Shape>, from: nat) {
    forall j :: from <= j < |shapes| && 0 < j ==> OnChain(shapes, shapes[j].parent, j - 1)
  }

  lemma {:induction false} ChainPrefix(s: seq<Shape>, s2: seq<Shape>, a: int, j: nat)
    requires s <= s2 && j < |s|
    ensures OnChain(s, a, j) <==> OnChain(s2, a, j)
    decreases j
  {
    if a != j && 0 <= s[j].parent < j {
      ChainPrefix(s, s2, a, s[j].parent);
    }
  }

  lemma {:induction false} ChainTransitive(s: seq<Shape>, a: int, b: nat, j: nat)
    requires b < |s| && j < |s| && OnChain(s, b, j) && OnChain(s, a, b)
    ensures OnChain(s, a, j)
    decreases j
  {
    if b != j {
      ChainTransitive(s, a, b, s[j].parent);
    }
  }

  lemma {:induction false} PreorderPrefix(s: seq<Shape>, s2: seq<Shape>, from: nat)
    requires s <= s2 && Preorder(s, from) && Preorder(s2, |s|)
    ensures Preorder(s2, from)
  {
    forall j | from <= j < |s| && 0 < j ensures OnChain(s2, s2[j].parent, j - 1) {
      ChainPrefix(s, s2, s2[j].parent, j - 1);
    }
  }

  /** A node's shapes are in preorder below its own, which is the first new one. */
  lemma {:induction false} NodePreorder(node: Node, parent: i32, t: Tables)
    requires Fits(PushNode(node, parent, t))
    ensures var t2 := PushNode(node, parent, t);
            && |t.shapes| < |t2.shapes|
            && t2.shapes[|t.shapes|].parent == parent
            && Preorder(t2.shapes, |t.shapes| + 1)
            && OnChain(t2.shapes, |t.shapes|, |t2.shapes| - 1)
    decreases node, 0
  {
    match node
    case Leaf(_, runs) => PushRunsPrefix(runs, t);
    case Branch(ty, children) =>
      var t1 := PushShape(parent, if children == [] then -1 else AsI32(|t.figures|), ty, t);
      PushNodesPrefix(children, AsI32(|t.shapes|), t1);
      assert AsI32(|t.shapes|) == |t.shapes|;
      NodesPreorder(children, |t.shapes|, t1);
  }

  lemma {:induction false} NodesPreorder(nodes: seq<Node>, parent: i32, t: Tables)
    requires Fits(PushNodes(nodes, parent, t))
    requires 0 <= parent < |t.shapes| && OnChain(t.shapes, parent, |t.shapes| - 1)
    ensures var t2 := PushNodes(nodes, parent, t);
            && |t.shapes| <= |t2.shapes|
            && Preorder(t2.shapes, |t.shapes|)
            && OnChain(t2.shapes, parent, |t2.shapes| - 1)
    decreases nodes, 1
  {
    if nodes != [] {
      var root, t1 := |t.shapes|, PushNode(nodes[0], parent, t);
      PushNodePrefix(nodes[0], parent, t);
      PushNodesPrefix(nodes[1..], parent, t1);
      NodePreorder(nodes[0], parent, t);
      ChainPrefix(t.shapes, t1.shapes, parent, root - 1);
      assert OnChain(t1.shapes, parent, root);
      ChainTransitive(t1.shapes, parent, root, |t1.shapes| - 1);
      NodesPreorder(nodes[1..], parent, t1);
      PreorderPrefix(t1.shapes, PushNodes(nodes[1..], parent, t1).shapes, root);
    }
  }
}
