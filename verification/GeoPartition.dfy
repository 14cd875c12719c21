/** The figure table cuts the point table into consecutive non-empty runs. */
module GeoPartition {
  import opened Common
  import opened GeoTypes
  import opened GeoLayout
  import opened GeoLayoutProofs
  import opened GeoPreorder
  import opened GeoRoundTrip

  /** Offsets start at zero, strictly increase and stay inside the points. */
  predicate Partitioned(t: Tables) {
    && (t.figures == [] ==> t.points == [])
    && (t.figures != [] ==> t.figures[0].pointOffset == 0)
    && (forall i, j :: 0 <= i < j < |t.figures| ==> t.figures[i].pointOffset < t.figures[j].pointOffset)
    && (forall i :: 0 <= i < |t.figures| ==> t.figures[i].pointOffset < |t.points|)
  }

  /** Where the points of figure `i` end. */
  function FigureEnd(t: Tables, i: nat): nat
    requires i < |t.figures|
  {
    if i + 1 < |t.figures| then t.figures[i + 1].pointOffset else |t.points|
  }

  /** Each figure owns exactly the points up to the next figure's offset, and at
      least one. */
  lemma {:induction false} FigureOwnsItsRun(t: Tables, i: nat)
    requires Partitioned(t) && i < |t.figures| && i < 0x8000_0000
    ensures t.figures[i].pointOffset < FigureEnd(t, i) <= |t.points|
    ensures FigureCoords(i, t) == Ok(t.points[t.figures[i].pointOffset..FigureEnd(t, i)])
  {
    var start := t.figures[i].pointOffset;
    MinAboveNone(t.figures, start, i + 1);
    if i + 1 < |t.figures| {
      MinAboveKeeps(t.figures, start, FigureEnd(t, i), i + 2, |t.figures|);
    }
  }

  /** The runs of the first `n` figures, joined. */
  function JoinedRuns(t: Tables, n: nat): seq<Coord>
    requires n <= |t.figures| && n <= 0x8000_0000
  {
    if n == 0 then []
    else
      var run := FigureCoords(n - 1, t);
      JoinedRuns(t, n - 1) + (if run.Ok? then run.value else [])
  }

  /** The figures together read every point once, in order. */
  lemma {:induction false} FiguresReadAllPoints(t: Tables, n: nat)
    requires Partitioned(t) && n <= |t.figures| && |t.figures| <= 0x8000_0000
    ensures JoinedRuns(t, n) == t.points[..if n < |t.figures| then t.figures[n].pointOffset else |t.points|]
  {
    if n == 0 {
      assert t.points[..0] == [];
    } else {
      FiguresReadAllPoints(t, n - 1);
      FigureOwnsItsRun(t, n - 1);
      var start, end := t.figures[n - 1].pointOffset, FigureEnd(t, n - 1);
      assert t.points[..start] + t.points[start..end] == t.points[..end];
    }
  }

  // ----- Encoding keeps the partition

  predicate Solid(node: Node) {
    match node
    case Leaf(_, runs) => forall i :: 0 <= i < |runs| ==> runs[i].coords != []
    case Branch(_, children) => forall i :: 0 <= i < |children| ==> Solid(children[i])
  }

  lemma {:induction false} RunKeepsPartition(run: PointRun, t: Tables)
    requires Partitioned(t) && run.coords != [] && |t.points| < 0x1_0000_0000
    ensures Partitioned(PushRun(run, t))
  {}

  lemma {:induction false} RunsKeepPartition(runs: seq<PointRun>, t: Tables)
    requires Partitioned(t) && forall i :: 0 <= i < |runs| ==> runs[i].coords != []
    requires |PushRuns(runs, t).points| < 0x1_0000_0000
    ensures Partitioned(PushRuns(runs, t))
  {
    if runs != [] {
      PushRunsPrefix(runs[1..], PushRun(runs[0], t));
      RunKeepsPartition(runs[0], t);
      RunsKeepPartition(runs[1..], PushRun(runs[0], t));
    }
  }

  lemma {:induction false} NodeKeepsPartition(node: Node, parent: i32, t: Tables)
    requires Partitioned(t) && Solid(node)
    requires |PushNode(node, parent, t).points| < 0x1_0000_0000
    ensures Partitioned(PushNode(node, parent, t))
    decreases node, 0
  {
    match node
    case Leaf(_, runs) => RunsKeepPartition(runs, t);
    case Branch(ty, children) =>
      var offset := if children == [] then -1 else AsI32(|t.figures|);
      NodesKeepPartition(children, AsI32(|t.shapes|), PushShape(parent, offset, ty, t));
  }

  lemma {:induction false} NodesKeepPartition(nodes: seq<Node>, parent: i32, t: Tables)
    requires Partitioned(t) && forall i :: 0 <= i < |nodes| ==> Solid(nodes[i])
    requires |PushNodes(nodes, parent, t).points| < 0x1_0000_0000
    ensures Partitioned(PushNodes(nodes, parent, t))
    decreases nodes, 1
  {
    if nodes != [] {
      var t1 := PushNode(nodes[0], parent, t);
      PushNodesPrefix(nodes[1..], parent, t1);
      NodeKeepsPartition(nodes[0], parent, t);
      NodesKeepPartition(nodes[1..], parent, t1);
    }
  }

  lemma {:induction false} PolygonSolid(p: Poly)
    ensures Solid(PolygonNode(p)) <==> !HollowPoly(p)
  {
    NonEmptyRings(p.interiors);
    if HollowPoly(p) {
      assert PolygonRuns(p)[0].coords == [];
    }
  }

  /** Only a hollow polygon gives a figure no points of its own. */
  lemma {:induction false} SolidUnlessHollow(g: Geometry)
    ensures Solid(Plan(g)) <==> !Hollow(g)
  {
    match g
    case Polygon(p) => PolygonSolid(p);
    case MultiPolygon(ps) =>
      forall i | 0 <= i < |ps| ensures Solid(Plan(g).children[i]) <==> !HollowPoly(ps[i]) { PolygonSolid(ps[i]); }
    case GeometryCollection(ms) =>
      forall i | 0 <= i < |ms| ensures Solid(Plan(g).children[i]) <==> !Hollow(ms[i]) { SolidUnlessHollow(ms[i]); }
    case Rect(outline) => PolygonSolid(Poly(outline, []));
    case Triangle(outline) => PolygonSolid(Poly(outline, []));
    case _ =>
  }

  // ----- Only solid nodes keep it

  /** Some offset does not lie above an earlier one. */
  predicate Tied(t: Tables) {
    exists i, j :: 0 <= i < j < |t.figures| && t.figures[j].pointOffset <= t.figures[i].pointOffset
  }

  /** An empty first run starts where the second one does. */
  lemma {:induction false} EmptyRunTies(runs: seq<PointRun>, t: Tables)
    requires GoodRuns(runs) && runs != [] && runs[0].coords == []
    ensures Tied(PushRuns(runs, t))
  {
    var t1 := PushRun(runs[0], t);
    var t2 := PushRun(runs[1], t1);
    PushRunsPrefix(runs[2..], t2);
    assert runs[1..][1..] == runs[2..] && t1.points == t.points;
    assert t2.figures[|t.figures|].pointOffset == t2.figures[|t.figures| + 1].pointOffset;
    assert PushRuns(runs[1..], t1) == PushRuns(runs[2..], t2);
  }

  lemma {:induction false} HollowNodeTies(node: Node, parent: i32, t: Tables)
    requires GoodNode(node) && !Solid(node)
    ensures Tied(PushNode(node, parent, t))
    decreases node, 0
  {
    match node
    case Leaf(_, runs) => EmptyRunTies(runs, t);
    case Branch(ty, children) =>
      var offset := if children == [] then -1 else AsI32(|t.figures|);
      HollowNodesTie(children, AsI32(|t.shapes|), PushShape(parent, offset, ty, t));
  }

  lemma {:induction false} HollowNodesTie(nodes: seq<Node>, parent: i32, t: Tables)
    requires forall i :: 0 <= i < |nodes| ==> GoodNode(nodes[i])
    requires exists i :: 0 <= i < |nodes| && !Solid(nodes[i])
    ensures Tied(PushNodes(nodes, parent, t))
    decreases nodes, 1
  {
    var t1 := PushNode(nodes[0], parent, t);
    if Solid(nodes[0]) {
      var i :| 0 <= i < |nodes| && !Solid(nodes[i]);
      assert nodes[1..][i - 1] == nodes[i];
      HollowNodesTie(nodes[1..], parent, t1);
    } else {
      HollowNodeTies(nodes[0], parent, t);
      PushNodesPrefix(nodes[1..], parent, t1);
    }
  }

  // ----- Main result

  /** Encoding a geometry keeps the layout: it appends one tree of shapes, in
      preorder, whose root gets the old shape count as its index, hangs below
      `parent`, and spells out the geometry. It keeps the partition of the points
      exactly when the geometry is not hollow. */
  lemma {:induction false} GeometryKeepsLayout(g: Geometry, parent: i32, t: Tables)
    requires WellFormed(t) && parent < |t.shapes|
    requires Fits(PushNode(Plan(g), parent, t))
    ensures var t2 := PushNode(Plan(g), parent, t);
            && Appended(t, t2)
            && OneNewTree(t, t2, parent)
            && Preorder(t2.shapes, |t.shapes| + 1)
            && Represents(Plan(g), |t.shapes|, t2)
            && (Partitioned(t) ==> (Partitioned(t2) <==> !Hollow(g)))
  {
    PlanGood(g);
    PushNodeCorrect(Plan(g), parent, t);
    NodePreorder(Plan(g), parent, t);
    SolidUnlessHollow(g);
    if Hollow(g) {
      HollowNodeTies(Plan(g), parent, t);
    } else if Partitioned(t) {
      NodeKeepsPartition(Plan(g), parent, t);
    }
  }
}
