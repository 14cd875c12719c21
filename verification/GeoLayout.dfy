/** How a geometry is laid out in the point, figure and shape tables, and what
    later appends leave unchanged. */
module GeoLayout {
  import opened Common
  import opened GeoTypes

  // ----- Reading a layout: runs of points, holes and children

  /** The least of the first `n` point offsets that lie above `start`. */
  function MinAbove(figures: seq<Figure>, start: nat, n: nat): Option<nat>
    requires n <= |figures|
  {
    if n == 0 then None
    else
      var least, offset := MinAbove(figures, start, n - 1), figures[n - 1].pointOffset;
      if start < offset && (least.None? || offset < least.value) then Some(offset) else least
  }

  /** The points of a figure: from its offset up to the next greater one. */
  function FigureCoords(offset: i32, t: Tables): Decoded<seq<Coord>> {
    if offset < 0 then Ok([])
    else if |t.figures| <= offset then Err(FigureOutsideTable)
    else
      var start := t.figures[offset].pointOffset;
      var least := MinAbove(t.figures, start, |t.figures|);
      var end := if least.Some? then least.value else |t.points|;
      if start <= end <= |t.points| then Ok(t.points[start..end]) else Err(PointRangeOutsideTable)
  }

  /** The interior rings from figure `from` on, up to the next exterior ring. */
  function Holes(figures: seq<Figure>, from: nat): seq<nat>
    decreases |figures| - from
  {
    if |figures| <= from || figures[from].attribute == FIGURE_EXTERIOR_RING then []
    else if figures[from].attribute == FIGURE_INTERIOR_RING then [from] + Holes(figures, from + 1)
    else Holes(figures, from + 1)
  }

  /** The first `n` shapes' indices whose parent reference is `key`. */
  function Kids(shapes: seq<Shape>, key: i32, n: nat): (kids: seq<nat>)
    requires n <= |shapes|
    ensures forall i :: 0 <= i < |kids| ==> kids[i] < n && shapes[kids[i]].parent == key
  {
    if n == 0 then []
    else Kids(shapes, key, n - 1) + (if shapes[n - 1].parent == key then [n - 1] else [])
  }

  // ----- Writing a layout

  /** The shapes a geometry becomes: a leaf owns runs of points, a branch owns
      child shapes. */
  datatype PointRun = PointRun(attribute: byte, coords: seq<Coord>)

  datatype Node =
    | Leaf(shapeType: byte, runs: seq<PointRun>)
    | Branch(shapeType: byte, children: seq<Node>)

  function StrokeRuns(coords: seq<Coord>): seq<PointRun> {
    if coords == [] then [] else [PointRun(FIGURE_STROKE, coords)]
  }

  function NonEmpty(rings: seq<Ring>): (kept: seq<Ring>)
    ensures forall r :: r in kept <==> r in rings && r != []
  {
    if rings == [] then []
    else if rings[0] == [] then NonEmpty(rings[1..])
    else [rings[0]] + NonEmpty(rings[1..])
  }

  function HoleRuns(rings: seq<Ring>): seq<PointRun> {
    seq(|rings|, i requires 0 <= i < |rings| => PointRun(FIGURE_INTERIOR_RING, rings[i]))
  }

  function PolygonRuns(p: Poly): seq<PointRun> {
    if p.exterior == [] && NonEmpty(p.interiors) == [] then []
    else [PointRun(FIGURE_EXTERIOR_RING, p.exterior)] + HoleRuns(NonEmpty(p.interiors))
  }

  function PointNode(c: Coord): Node {
    Leaf(SHAPE_POINT, [PointRun(FIGURE_STROKE, [c])])
  }

  function LineNode(line: seq<Coord>): Node {
    Leaf(SHAPE_LINESTRING, StrokeRuns(line))
  }

  function PolygonNode(p: Poly): Node {
    Leaf(SHAPE_POLYGON, PolygonRuns(p))
  }

  function PointNodes(ps: seq<Coord>): (nodes: seq<Node>)
    ensures |nodes| == |ps| && forall i :: 0 <= i < |ps| ==> nodes[i] == PointNode(ps[i])
  {
    if ps == [] then [] else [PointNode(ps[0])] + PointNodes(ps[1..])
  }

  function LineNodes(ls: seq<seq<Coord>>): (nodes: seq<Node>)
    ensures |nodes| == |ls| && forall i :: 0 <= i < |ls| ==> nodes[i] == LineNode(ls[i])
  {
    if ls == [] then [] else [LineNode(ls[0])] + LineNodes(ls[1..])
  }

  function PolygonNodes(ps: seq<Poly>): (nodes: seq<Node>)
    ensures |nodes| == |ps| && forall i :: 0 <= i < |ps| ==> nodes[i] == PolygonNode(ps[i])
  {
    if ps == [] then [] else [PolygonNode(ps[0])] + PolygonNodes(ps[1..])
  }

  function Plans(ms: seq<Geometry>): (nodes: seq<Node>)
    ensures |nodes| == |ms| && forall i :: 0 <= i < |ms| ==> nodes[i] == Plan(ms[i])
    decreases ms, 1
  {
    if ms == [] then [] else [Plan(ms[0])] + Plans(ms[1..])
  }

  function Plan(g: Geometry): Node
    decreases g, 0
  {
    match g
    case Point(at) => PointNode(at)
    case Line(start, end) => LineNode([start, end])
    case LineString(line) => LineNode(line)
    case Polygon(p) => PolygonNode(p)
    case MultiPoint(ps) => Branch(SHAPE_MULTIPOINT, PointNodes(ps))
    case MultiLineString(ls) => Branch(SHAPE_MULTILINESTRING, LineNodes(ls))
    case MultiPolygon(ps) => Branch(SHAPE_MULTIPOLYGON, PolygonNodes(ps))
    case GeometryCollection(ms) => Branch(SHAPE_GEOMETRYCOLLECTION, Plans(ms))
    case Rect(outline) => PolygonNode(Poly(outline, []))
    case Triangle(outline) => PolygonNode(Poly(outline, []))
  }

  function PushRun(run: PointRun, t: Tables): Tables {
    t.(points := t.points + run.coords,
       figures := t.figures + [Figure(run.attribute, AsU32(|t.points|))])
  }

  function PushRuns(runs: seq<PointRun>, t: Tables): Tables {
    if runs == [] then t else PushRuns(runs[1..], PushRun(runs[0], t))
  }

  function PushShape(parent: i32, figureOffset: i32, shapeType: byte, t: Tables): Tables {
    t.(shapes := t.shapes + [Shape(parent, figureOffset, shapeType)])
  }

  /** The tables after appending a node under `parent`. */
  function PushNode(node: Node, parent: i32, t: Tables): Tables
    decreases node, 0
  {
    match node
    case Leaf(ty, runs) =>
      var offset := if runs == [] then -1 else AsI32(|t.figures|);
      PushShape(parent, offset, ty, PushRuns(runs, t))
    case Branch(ty, children) =>
      var offset := if children == [] then -1 else AsI32(|t.figures|);
      PushNodes(children, AsI32(|t.shapes|), PushShape(parent, offset, ty, t))
  }

  function PushNodes(nodes: seq<Node>, parent: i32, t: Tables): Tables
    decreases nodes, 1
  {
    if nodes == [] then t
    else PushNodes(nodes[1..], parent, PushNode(nodes[0], parent, t))
  }

  const EMPTY_TABLES := Tables([], [], [])

  /** The tables of a whole geometry. */
  function Flatten(g: Geometry): Tables {
    PushNode(Plan(g), -1, EMPTY_TABLES)
  }

  // ----- Invariants

  /** Every figure starts inside the point table, so no later point can shrink
      or grow its run, and every shape follows the parent it names. */
  predicate WellFormed(t: Tables) {
    && (forall i :: 0 <= i < |t.figures| ==> t.figures[i].pointOffset < |t.points|)
    && (forall j :: 0 <= j < |t.shapes| ==> t.shapes[j].parent < j)
  }

  /** No offset or index in the tables is cut by its cast to 32 bits. */
  predicate Fits(t: Tables) {
    && |t.points| < 0x1_0000_0000
    && |t.figures| <= 0x8000_0000
    && |t.shapes| <= 0x8000_0000
  }

  /** The runs a geometry can produce: at most the first one is empty, and
      then a non-empty one follows it. */
  predicate GoodRuns(runs: seq<PointRun>) {
    && (forall i :: 1 <= i < |runs| ==> runs[i].coords != [] && runs[i].attribute == FIGURE_INTERIOR_RING)
    && (|runs| == 1 ==> runs[0].coords != [])
    && (runs != [] ==> runs[0].attribute == FIGURE_STROKE || runs[0].attribute == FIGURE_EXTERIOR_RING)
    && (|runs| > 1 ==> runs[0].attribute == FIGURE_EXTERIOR_RING)
  }

  predicate GoodNode(node: Node) {
    match node
    case Leaf(_, runs) => GoodRuns(runs)
    case Branch(_, children) => forall i :: 0 <= i < |children| ==> GoodNode(children[i])
  }

  /** What `t2` may add to `t`. Shapes whose index is below `lo` may get new
      children; shapes from `lo` on are finished. */
  predicate Frame(t: Tables, t2: Tables, lo: nat) {
    && t.points <= t2.points
    && t.figures <= t2.figures
    && t.shapes <= t2.shapes
    && FigureFrame(t, t2)
    && (forall j :: |t.shapes| <= j < |t2.shapes| ==>
                      t2.shapes[j].parent < lo || |t.shapes| <= t2.shapes[j].parent)
  }

  predicate FigureFrame(t: Tables, t2: Tables)
    requires t.figures <= t2.figures
  {
    && (forall i :: |t.figures| <= i < |t2.figures| ==> |t.points| <= t2.figures[i].pointOffset)
    && (|t.figures| < |t2.figures| ==> t2.figures[|t.figures|].pointOffset == |t.points|)
    && (|t.figures| == |t2.figures| ==> |t.points| == |t2.points|)
    && Holes(t2.figures, |t.figures|) == []
  }

  /** What a figure shows of a leaf's runs: an empty run shares its offset with
      the next one, and so shows that one. */
  function Seen(runs: seq<PointRun>, i: nat): seq<Coord>
    requires i < |runs|
  {
    if runs[i].coords == [] && i + 1 < |runs| then runs[i + 1].coords else runs[i].coords
  }

  function Range(lo: nat, hi: nat): seq<nat>
    decreases hi - lo
  {
    if hi <= lo then [] else [lo] + Range(lo + 1, hi)
  }

  /** Shape `index` of the tables spells out `node`. */
  predicate Represents(node: Node, index: nat, t: Tables)
    decreases node
  {
    && index < |t.shapes|
    && index < 0x8000_0000
    && var shape := t.shapes[index];
    && shape.shapeType == node.shapeType
    && match node {
         case Leaf(_, runs) =>
           if runs == [] then shape.figureOffset == -1
           else RunsAt(runs, shape.figureOffset, t)
         case Branch(_, children) =>
           var kids := Kids(t.shapes, index, |t.shapes|);
           && |kids| == |children|
           && (forall i :: 0 <= i < |kids| ==> index < kids[i])
           && (forall i :: 0 <= i < |children| ==> Represents(children[i], kids[i], t))
       }
  }

  predicate RunsAt(runs: seq<PointRun>, offset: i32, t: Tables)
    requires runs != []
  {
    && 0 <= offset
    && offset + |runs| <= |t.figures|
    && offset + |runs| <= 0x8000_0000
    && (forall i :: 0 <= i < |runs| ==> FigureCoords(offset + i, t) == Ok(Seen(runs, i)))
    && Holes(t.figures, offset + 1) == Range(offset + 1, offset + |runs|)
  }
}
