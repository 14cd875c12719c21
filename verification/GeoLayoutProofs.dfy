/** Appending a node keeps everything that was laid out before it, and the new
    shape spells out the node. */
module GeoLayoutProofs {
  import opened Common
  import opened GeoTypes
  import opened GeoLayout

  // ----- Frame lemmas: what later appends leave unchanged

  lemma {:induction false} HolesFrame(figures: seq<Figure>, figures2: seq<Figure>, from: nat)
    requires figures <= figures2 && from <= |figures|
    requires Holes(figures2, |figures|) == []
    ensures Holes(figures2, from) == Holes(figures, from)
    decreases |figures| - from
  {
    if from < |figures| {
      assert figures2[from] == figures[from];
      HolesFrame(figures, figures2, from + 1);
    }
  }

  lemma {:induction false} FigureFrameTransitive(a: Tables, b: Tables, c: Tables)
    requires a.figures <= b.figures <= c.figures && a.points <= b.points <= c.points
    requires FigureFrame(a, b) && FigureFrame(b, c)
    ensures FigureFrame(a, c)
  {
    HolesFrame(b.figures, c.figures, |a.figures|);
    forall i | |a.figures| <= i < |c.figures|
      ensures |a.points| <= c.figures[i].pointOffset
    {
      if i < |b.figures| {
        assert c.figures[i] == b.figures[i];
      }
    }
    if |a.figures| < |b.figures| {
      assert c.figures[|a.figures|] == b.figures[|a.figures|];
    }
  }

  /** `MinAbove` is the least of the offsets above `start`. */
  lemma {:induction false} MinAboveIsLeast(figures: seq<Figure>, start: nat, n: nat)
    requires n <= |figures|
    ensures var least := MinAbove(figures, start, n);
            && (least.Some? ==>
                  && start < least.value
                  && (exists i :: 0 <= i < n && figures[i].pointOffset == least.value))
            && (forall i :: 0 <= i < n && start < figures[i].pointOffset ==>
                  least.Some? && least.value <= figures[i].pointOffset)
  {
    if n > 0 {
      MinAboveIsLeast(figures, start, n - 1);
    }
  }

  lemma {:induction false} MinAboveSame(figures: seq<Figure>, figures2: seq<Figure>, start: nat, n: nat)
    requires figures <= figures2 && n <= |figures|
    ensures MinAbove(figures2, start, n) == MinAbove(figures, start, n)
  {
    if n > 0 {
      assert figures2[n - 1] == figures[n - 1];
      MinAboveSame(figures, figures2, start, n - 1);
    }
  }

  lemma {:induction false} MinAboveNone(figures: seq<Figure>, start: nat, n: nat)
    requires n <= |figures|
    requires forall i :: 0 <= i < n ==> figures[i].pointOffset <= start
    ensures MinAbove(figures, start, n).None?
  {
    if n > 0 {
      MinAboveNone(figures, start, n - 1);
    }
  }

  lemma {:induction false} MinAboveKeeps(figures: seq<Figure>, start: nat, least: nat, lo: nat, hi: nat)
    requires lo <= hi <= |figures|
    requires MinAbove(figures, start, lo) == Some(least)
    requires forall i :: lo <= i < hi ==> least <= figures[i].pointOffset
    ensures MinAbove(figures, start, hi) == Some(least)
    decreases hi
  {
    if lo < hi {
      MinAboveKeeps(figures, start, least, lo, hi - 1);
    }
  }

  lemma {:induction false} MinAboveFrame(t: Tables, t2: Tables, start: nat)
    requires t.figures < t2.figures && WellFormed(t) && FigureFrame(t, t2)
    requires start < |t.points|
    ensures var least := MinAbove(t.figures, start, |t.figures|);
            && (least.Some? ==> start < least.value < |t.points|)
            && MinAbove(t2.figures, start, |t2.figures|) == if least.Some? then least else Some(|t.points|)
  {
    var n := |t.figures|;
    MinAboveIsLeast(t.figures, start, n);
    MinAboveSame(t.figures, t2.figures, start, n);
    var least := MinAbove(t.figures, start, n);
    if least.Some? {
      MinAboveKeeps(t2.figures, start, least.value, n, |t2.figures|);
    } else {
      MinAboveKeeps(t2.figures, start, |t.points|, n + 1, |t2.figures|);
    }
  }

  /** A figure keeps its points: later offsets lie at or beyond the old end of
      the point table, and the first of them exactly there. */
  lemma {:induction false} FigureCoordsFrame(offset: i32, t: Tables, t2: Tables)
    requires t.points <= t2.points && t.figures <= t2.figures
    requires WellFormed(t) && FigureFrame(t, t2)
    requires offset < |t.figures|
    ensures FigureCoords(offset, t2) == FigureCoords(offset, t)
  {
    if 0 <= offset {
      assert t2.figures[offset] == t.figures[offset];
      var start := t.figures[offset].pointOffset;
      if |t.figures| == |t2.figures| {
        assert t2.figures == t.figures && t2.points == t.points;
      } else {
        MinAboveFrame(t, t2, start);
        var least := MinAbove(t.figures, start, |t.figures|);
        var end := if least.Some? then least.value else |t.points|;
        assert t2.points[start..end] == t.points[start..end];
      }
    }
  }

  lemma {:induction false} KidsPrefix(shapes: seq<Shape>, shapes2: seq<Shape>, key: i32, n: nat)
    requires shapes <= shapes2 && n <= |shapes|
    ensures Kids(shapes, key, n) == Kids(shapes2, key, n)
  {
    if n > 0 {
      assert shapes[n - 1] == shapes2[n - 1];
      KidsPrefix(shapes, shapes2, key, n - 1);
    }
  }

  lemma {:induction false} KidsNoMore(shapes: seq<Shape>, key: i32, lo: nat, hi: nat)
    requires lo <= hi <= |shapes|
    requires forall j :: lo <= j < hi ==> shapes[j].parent != key
    ensures Kids(shapes, key, hi) == Kids(shapes, key, lo)
    decreases hi
  {
    if lo < hi {
      KidsNoMore(shapes, key, lo, hi - 1);
    }
  }

  lemma {:induction false} RunsAtFrame(runs: seq<PointRun>, offset: i32, t: Tables, t2: Tables)
    requires runs != [] && RunsAt(runs, offset, t)
    requires t.points <= t2.points && t.figures <= t2.figures
    requires WellFormed(t) && FigureFrame(t, t2)
    ensures RunsAt(runs, offset, t2)
  {
    forall i | 0 <= i < |runs| ensures FigureCoords(offset + i, t2) == Ok(Seen(runs, i)) {
      FigureCoordsFrame(offset + i, t, t2);
    }
    HolesFrame(t.figures, t2.figures, offset + 1);
  }

  /** A finished shape still spells out its node after later appends. */
  lemma {:induction false} RepresentsFrame(node: Node, index: nat, t: Tables, t2: Tables, lo: nat)
    requires Represents(node, index, t) && WellFormed(t)
    requires Frame(t, t2, lo) && lo <= index
    ensures Represents(node, index, t2)
    decreases node
  {
    assert t2.shapes[index] == t.shapes[index];
    match node
    case Leaf(_, runs) =>
      if runs != [] {
        RunsAtFrame(runs, t.shapes[index].figureOffset, t, t2);
      }
    case Branch(_, children) =>
      var kids := Kids(t.shapes, index, |t.shapes|);
      KidsPrefix(t.shapes, t2.shapes, index, |t.shapes|);
      KidsNoMore(t2.shapes, index, |t.shapes|, |t2.shapes|);
      forall i | 0 <= i < |children| ensures Represents(children[i], kids[i], t2) {
        RepresentsFrame(children[i], kids[i], t, t2, lo);
      }
  }

  // ----- One leaf

  /** The number of points in the first `i` runs. */
  function Length(runs: seq<PointRun>, i: nat): nat
    requires i <= |runs|
  {
    if i == 0 then 0 else Length(runs, i - 1) + |runs[i - 1].coords|
  }

  lemma {:induction false} LengthTail(runs: seq<PointRun>, i: nat)
    requires 1 <= i <= |runs|
    ensures Length(runs, i) == |runs[0].coords| + Length(runs[1..], i - 1)
  {
    if i > 1 {
      LengthTail(runs, i - 1);
      assert runs[1..][i - 2] == runs[i - 1];
    }
  }

  lemma {:induction false} LengthMonotone(runs: seq<PointRun>, i: nat, j: nat)
    requires i <= j <= |runs|
    ensures Length(runs, i) <= Length(runs, j)
    decreases j
  {
    if i < j {
      LengthMonotone(runs, i, j - 1);
    }
  }

  function PointsOf(runs: seq<PointRun>): seq<Coord> {
    if runs == [] then [] else runs[0].coords + PointsOf(runs[1..])
  }

  function FiguresOf(runs: seq<PointRun>, base: nat): seq<Figure> {
    if runs == [] then []
    else [Figure(runs[0].attribute, AsU32(base))] + FiguresOf(runs[1..], base + |runs[0].coords|)
  }

  lemma {:induction false} PushRunsSum(runs: seq<PointRun>, t: Tables)
    ensures PushRuns(runs, t) ==
            Tables(t.points + PointsOf(runs), t.figures + FiguresOf(runs, |t.points|), t.shapes)
  {
    if runs == [] {
      assert t.points + [] == t.points && t.figures + [] == t.figures;
    } else {
      var t1 := PushRun(runs[0], t);
      PushRunsSum(runs[1..], t1);
      Regroup(t.points, runs[0].coords, PointsOf(runs[1..]));
      Regroup(t.figures, [Figure(runs[0].attribute, AsU32(|t.points|))], FiguresOf(runs[1..], |t1.points|));
    }
  }

  lemma {:induction false} PointsOfRun(runs: seq<PointRun>, i: nat)
    requires i < |runs|
    ensures |PointsOf(runs)| == Length(runs, |runs|)
    ensures Length(runs, i) <= Length(runs, i + 1) <= |PointsOf(runs)|
    ensures PointsOf(runs)[Length(runs, i)..Length(runs, i + 1)] == runs[i].coords
  {
    var rest := runs[1..];
    LengthTail(runs, |runs|);
    if i == 0 {
      if rest != [] { PointsOfRun(rest, 0); }
      assert Length(runs, 1) == Length(runs, 0) + |runs[0].coords|;
    } else {
      PointsOfRun(rest, i - 1);
      LengthTail(runs, i);
      LengthTail(runs, i + 1);
    }
  }

  lemma {:induction false} FiguresOfRun(runs: seq<PointRun>, base: nat, i: nat)
    requires i < |runs|
    ensures |FiguresOf(runs, base)| == |runs|
    ensures FiguresOf(runs, base)[i] == Figure(runs[i].attribute, AsU32(base + Length(runs, i)))
  {
    var rest := runs[1..];
    if i > 0 {
      FiguresOfRun(rest, base + |runs[0].coords|, i - 1);
      LengthTail(runs, i);
      assert rest[i - 1] == runs[i];
    } else if rest != [] {
      FiguresOfRun(rest, base + |runs[0].coords|, 0);
    }
  }

  /** The figure table ends in the figures of `runs`, whose points start at `base`. */
  predicate Laid(runs: seq<PointRun>, figures: seq<Figure>, n: nat, base: nat) {
    && |figures| == n + |runs|
    && (forall j :: 0 <= j < n ==> figures[j].pointOffset < base)
    && (forall j :: n <= j < |figures| ==>
          && figures[j].attribute == runs[j - n].attribute
          && figures[j].pointOffset == base + Length(runs, j - n))
  }

  lemma {:induction false} RunsAreLaid(runs: seq<PointRun>, figures: seq<Figure>, base: nat)
    requires forall j :: 0 <= j < |figures| ==> figures[j].pointOffset < base
    requires base + Length(runs, |runs|) < 0x1_0000_0000
    ensures Laid(runs, figures + FiguresOf(runs, base), |figures|, base)
  {
    var all, n := figures + FiguresOf(runs, base), |figures|;
    if runs != [] {
      FiguresOfRun(runs, base, 0);
    }
    forall j | n <= j < |all|
      ensures all[j].attribute == runs[j - n].attribute
      ensures all[j].pointOffset == base + Length(runs, j - n)
    {
      FiguresOfRun(runs, base, j - n);
      LengthMonotone(runs, j - n, |runs|);
    }
  }

  /** The next offset after that of run `i`, when run `k` is the first
      non-empty run from `i` on. */
  lemma {:induction false} NextOffset(runs: seq<PointRun>, figures: seq<Figure>, n: nat, base: nat, i: nat, k: nat)
    requires Laid(runs, figures, n, base) && i <= k < |runs|
    requires Length(runs, i) == Length(runs, k) && runs[k].coords != []
    requires forall j :: k < j < |runs| ==> runs[j].coords != []
    ensures MinAbove(figures, base + Length(runs, i), |figures|) ==
            if k + 1 < |runs| then Some(base + Length(runs, k + 1)) else None
  {
    var start, end, next := base + Length(runs, k), base + Length(runs, k + 1), n + k + 1;
    forall j | 0 <= j < next ensures figures[j].pointOffset <= start {
      if n <= j { LengthMonotone(runs, j - n, k); }
    }
    MinAboveNone(figures, start, next);
    if k + 1 < |runs| {
      assert figures[next].pointOffset == end;
      forall j | next < j < |figures| ensures end <= figures[j].pointOffset {
        LengthMonotone(runs, k + 1, j - n);
      }
      MinAboveKeeps(figures, start, end, next + 1, |figures|);
    }
  }

  /** The coordinates that the figure of run `i` shows once the leaf is laid out. */
  lemma {:induction false} SeenRun(runs: seq<PointRun>, t: Tables, t2: Tables, i: nat)
    requires GoodRuns(runs) && i < |runs|
    requires Laid(runs, t2.figures, |t.figures|, |t.points|)
    requires t2.points == t.points + PointsOf(runs)
    requires |t.figures| + i < 0x8000_0000
    ensures FigureCoords(|t.figures| + i, t2) == Ok(Seen(runs, i))
  {
    var k := if runs[i].coords == [] then i + 1 else i;
    assert Length(runs, i) == Length(runs, k);
    assert Seen(runs, i) == runs[k].coords;
    NextOffset(runs, t2.figures, |t.figures|, |t.points|, i, k);
    SliceOfRun(runs, t.points, k);
    var start, end := |t.points| + Length(runs, k), |t.points| + Length(runs, k + 1);
    assert t2.figures[|t.figures| + i].pointOffset == start;
    ShowsSlice(|t.figures| + i, t2, start, end);
  }

  lemma {:induction false} SliceOfRun(runs: seq<PointRun>, before: seq<Coord>, k: nat)
    requires k < |runs|
    ensures var lo, hi := |before| + Length(runs, k), |before| + Length(runs, k + 1);
            && lo <= hi <= |before| + |PointsOf(runs)|
            && (before + PointsOf(runs))[lo..hi] == runs[k].coords
            && (k + 1 == |runs| ==> hi == |before| + |PointsOf(runs)|)
  {
    PointsOfRun(runs, k);
  }

  lemma {:induction false} ShowsSlice(offset: nat, t: Tables, start: nat, end: nat)
    requires offset < |t.figures| && offset < 0x8000_0000
    requires t.figures[offset].pointOffset == start <= end <= |t.points|
    requires MinAbove(t.figures, start, |t.figures|) == Some(end)
          || (MinAbove(t.figures, start, |t.figures|).None? && end == |t.points|)
    ensures FigureCoords(offset, t) == Ok(t.points[start..end])
  {}

  lemma {:induction false} LaidOffsets(runs: seq<PointRun>, figures: seq<Figure>, n: nat, base: nat)
    requires runs != [] && GoodRuns(runs) && Laid(runs, figures, n, base)
    ensures forall j :: n <= j < |figures| ==> base <= figures[j].pointOffset < base + |PointsOf(runs)|
    ensures figures[n].pointOffset == base
  {
    var last := |runs| - 1;
    PointsOfRun(runs, last);
    assert runs[last].coords != [];
    forall j | n <= j < |figures| ensures base <= figures[j].pointOffset < base + |PointsOf(runs)| {
      LengthMonotone(runs, j - n, last);
    }
  }

  lemma {:induction false} LaidHoles(runs: seq<PointRun>, figures: seq<Figure>, n: nat, base: nat)
    requires runs != [] && GoodRuns(runs) && Laid(runs, figures, n, base)
    ensures Holes(figures, n) == []
    ensures Holes(figures, n + 1) == Range(n + 1, n + |runs|)
  {
    forall j | n + 1 <= j < |figures| ensures figures[j].attribute == FIGURE_INTERIOR_RING {
      assert figures[j].attribute == runs[j - n].attribute;
    }
    HolesOfRuns(figures, n + 1);
    assert figures[n].attribute == runs[0].attribute;
    if figures[n].attribute == FIGURE_STROKE {
      assert Holes(figures, n) == Holes(figures, n + 1);
    }
  }

  lemma {:induction false} PushLeaf(runs: seq<PointRun>, t: Tables, t2: Tables)
    requires runs != [] && GoodRuns(runs) && WellFormed(t)
    requires t2 == Tables(t.points + PointsOf(runs), t.figures + FiguresOf(runs, |t.points|), t.shapes)
    requires |t2.points| < 0x1_0000_0000 && |t.figures| + |runs| <= 0x8000_0000
    ensures FigureFrame(t, t2) && WellFormed(t2)
    ensures RunsAt(runs, |t.figures|, t2)
  {
    PointsOfRun(runs, 0);
    RunsAreLaid(runs, t.figures, |t.points|);
    LaidLeaf(runs, t, t2);
  }

  lemma {:induction false} LaidLeaf(runs: seq<PointRun>, t: Tables, t2: Tables)
    requires runs != [] && GoodRuns(runs) && WellFormed(t)
    requires Laid(runs, t2.figures, |t.figures|, |t.points|) && t.figures <= t2.figures
    requires t2.points == t.points + PointsOf(runs) && t2.shapes == t.shapes
    requires |t.figures| + |runs| <= 0x8000_0000
    ensures FigureFrame(t, t2) && WellFormed(t2)
    ensures RunsAt(runs, |t.figures|, t2)
  {
    LaidFrame(runs, t, t2);
    LaidRuns(runs, t, t2);
  }

  lemma {:induction false} LaidFrame(runs: seq<PointRun>, t: Tables, t2: Tables)
    requires runs != [] && GoodRuns(runs) && WellFormed(t)
    requires Laid(runs, t2.figures, |t.figures|, |t.points|) && t.figures <= t2.figures
    requires t2.points == t.points + PointsOf(runs) && t2.shapes == t.shapes
    ensures FigureFrame(t, t2) && WellFormed(t2)
  {
    LaidHoles(runs, t2.figures, |t.figures|, |t.points|);
    LaidOffsets(runs, t2.figures, |t.figures|, |t.points|);
    assert |t.figures| < |t2.figures|;
  }

  lemma {:induction false} LaidRuns(runs: seq<PointRun>, t: Tables, t2: Tables)
    requires runs != [] && GoodRuns(runs)
    requires Laid(runs, t2.figures, |t.figures|, |t.points|)
    requires t2.points == t.points + PointsOf(runs)
    requires |t.figures| + |runs| <= 0x8000_0000
    ensures RunsAt(runs, |t.figures|, t2)
  {
    LaidHoles(runs, t2.figures, |t.figures|, |t.points|);
    forall i | 0 <= i < |runs| ensures FigureCoords(|t.figures| + i, t2) == Ok(Seen(runs, i)) {
      SeenRun(runs, t, t2, i);
    }
  }

  lemma {:induction false} HolesOfRuns(figures: seq<Figure>, from: nat)
    requires from <= |figures|
    requires forall j :: from <= j < |figures| ==> figures[j].attribute == FIGURE_INTERIOR_RING
    ensures Holes(figures, from) == Range(from, |figures|)
    decreases |figures| - from
  {
    if from < |figures| {
      HolesOfRuns(figures, from + 1);
    }
  }

  // ----- Whole nodes

  lemma {:induction false} PushNodePrefix(node: Node, parent: i32, t: Tables)
    ensures var t2 := PushNode(node, parent, t);
            t.points <= t2.points && t.figures <= t2.figures && t.shapes <= t2.shapes
    decreases node, 0
  {
    match node
    case Leaf(_, runs) => PushRunsPrefix(runs, t);
    case Branch(ty, children) =>
      var offset := if children == [] then -1 else AsI32(|t.figures|);
      PushNodesPrefix(children, AsI32(|t.shapes|), PushShape(parent, offset, ty, t));
  }

  lemma {:induction false} PushNodesPrefix(nodes: seq<Node>, parent: i32, t: Tables)
    ensures var t2 := PushNodes(nodes, parent, t);
            t.points <= t2.points && t.figures <= t2.figures && t.shapes <= t2.shapes
    decreases nodes, 1
  {
    if nodes != [] {
      PushNodePrefix(nodes[0], parent, t);
      PushNodesPrefix(nodes[1..], parent, PushNode(nodes[0], parent, t));
    }
  }

  lemma {:induction false} PushRunsPrefix(runs: seq<PointRun>, t: Tables)
    ensures var t2 := PushRuns(runs, t);
            t.points <= t2.points && t.figures <= t2.figures && t2.shapes == t.shapes
  {
    if runs != [] {
      PushRunsPrefix(runs[1..], PushRun(runs[0], t));
    }
  }

  /** `t2` extends `t`, with every new figure beyond the old points. */
  predicate Appended(t: Tables, t2: Tables) {
    && t.points <= t2.points && t.figures <= t2.figures && t.shapes <= t2.shapes
    && FigureFrame(t, t2) && WellFormed(t2)
  }

  /** The first new shape hangs below `parent`, the others below new shapes. */
  predicate OneNewTree(t: Tables, t2: Tables, parent: i32) {
    && |t.shapes| < |t2.shapes|
    && t2.shapes[|t.shapes|].parent == parent
    && (forall j :: |t.shapes| < j < |t2.shapes| ==> |t.shapes| <= t2.shapes[j].parent)
  }

  /** Every new shape hangs below `parent` or below a new shape. */
  predicate NewForest(t: Tables, t2: Tables, parent: i32) {
    forall j :: |t.shapes| <= j < |t2.shapes| ==>
      t2.shapes[j].parent == parent || |t.shapes| <= t2.shapes[j].parent
  }

  /** Encoding a node only appends; the node gets the old shape count as its
      index, is the only new child of its parent, and is spelled out by the new
      tables. */
  lemma {:induction false} PushNodeCorrect(node: Node, parent: i32, t: Tables)
    requires GoodNode(node) && WellFormed(t)
    requires parent < |t.shapes|
    requires Fits(PushNode(node, parent, t))
    ensures Appended(t, PushNode(node, parent, t))
    ensures OneNewTree(t, PushNode(node, parent, t), parent)
    ensures Represents(node, |t.shapes|, PushNode(node, parent, t))
    decreases node, 0
  {
    match node
    case Leaf(ty, runs) =>
      PushLeafNode(ty, runs, parent, t);
    case Branch(ty, children) =>
      var offset := if children == [] then -1 else AsI32(|t.figures|);
      var t1 := PushShape(parent, offset, ty, t);
      PushNodesPrefix(children, AsI32(|t.shapes|), t1);
      assert AsI32(|t.shapes|) == |t.shapes|;
      var t2 := PushNodes(children, |t.shapes|, t1);
      assert PushNode(node, parent, t) == t2;
      PushNodesCorrect(children, |t.shapes|, t1);
      BranchSpelledOut(ty, children, parent, offset, t, t2);
  }

  lemma {:induction false} PushLeafNode(ty: byte, runs: seq<PointRun>, parent: i32, t: Tables)
    requires GoodRuns(runs) && WellFormed(t) && parent < |t.shapes|
    requires Fits(PushNode(Leaf(ty, runs), parent, t))
    ensures Appended(t, PushNode(Leaf(ty, runs), parent, t))
    ensures OneNewTree(t, PushNode(Leaf(ty, runs), parent, t), parent)
    ensures Represents(Leaf(ty, runs), |t.shapes|, PushNode(Leaf(ty, runs), parent, t))
  {
    var node := Leaf(ty, runs);
    if runs == [] {
      assert Holes(t.figures, |t.figures|) == [];
      LeafSpelledOut(ty, runs, parent, -1, t, t);
      assert PushNode(node, parent, t) == PushShape(parent, -1, ty, t);
    } else {
      var t1 := PushRuns(runs, t);
      PushRunsSum(runs, t);
      FiguresOfRun(runs, |t.points|, 0);
      assert AsI32(|t.figures|) == |t.figures|;
      var t2 := PushShape(parent, |t.figures|, ty, t1);
      assert PushNode(node, parent, t) == t2;
      PushLeaf(runs, t, t1);
      LeafSpelledOut(ty, runs, parent, |t.figures|, t, t1);
    }
  }

  lemma {:induction false} LeafSpelledOut(
    ty: byte, runs: seq<PointRun>, parent: i32, offset: i32, t: Tables, t1: Tables)
    requires parent < |t.shapes| < 0x8000_0000
    requires t.points <= t1.points && t.figures <= t1.figures && t.shapes == t1.shapes
    requires FigureFrame(t, t1) && WellFormed(t1)
    requires if runs == [] then offset == -1 else RunsAt(runs, offset, t1)
    ensures var t2 := PushShape(parent, offset, ty, t1);
            Appended(t, t2) && OneNewTree(t, t2, parent) && Represents(Leaf(ty, runs), |t.shapes|, t2)
  {}

  lemma {:induction false} BranchSpelledOut(
    ty: byte, children: seq<Node>, parent: i32, offset: i32, t: Tables, t2: Tables)
    requires WellFormed(t) && parent < |t.shapes| < 0x8000_0000
    requires var t1 := PushShape(parent, offset, ty, t);
             Appended(t1, t2) && NewForest(t1, t2, |t.shapes|) && KidsSpellOut(children, |t.shapes|, t1, t2)
    ensures Appended(t, t2) && OneNewTree(t, t2, parent)
    ensures Represents(Branch(ty, children), |t.shapes|, t2)
  {
    var t1, index := PushShape(parent, offset, ty, t), |t.shapes|;
    assert t2.shapes[index] == t1.shapes[index] == Shape(parent, offset, ty);
    forall j | 0 <= j < |t1.shapes| ensures t1.shapes[j].parent != index {
      if j < index { assert t1.shapes[j] == t.shapes[j]; }
    }
    KidsNoMore(t1.shapes, index, 0, |t1.shapes|);
    var kids := Kids(t2.shapes, index, |t2.shapes|);
    assert kids[0..] == kids;
  }

  lemma {:induction false} PushNodesCorrect(nodes: seq<Node>, parent: nat, t: Tables)
    requires forall i :: 0 <= i < |nodes| ==> GoodNode(nodes[i])
    requires WellFormed(t) && parent < |t.shapes| && parent < 0x8000_0000
    requires Fits(PushNodes(nodes, parent, t))
    ensures Appended(t, PushNodes(nodes, parent, t))
    ensures NewForest(t, PushNodes(nodes, parent, t), parent)
    ensures KidsSpellOut(nodes, parent, t, PushNodes(nodes, parent, t))
    decreases nodes, 1
  {
    if nodes == [] {
      assert Holes(t.figures, |t.figures|) == [];
    } else {
      var t1 := PushNode(nodes[0], parent, t);
      var t2 := PushNodes(nodes[1..], parent, t1);
      PushNodePrefix(nodes[0], parent, t);
      PushNodesPrefix(nodes[1..], parent, t1);
      PushNodeCorrect(nodes[0], parent, t);
      PushNodesCorrect(nodes[1..], parent, t1);
      ForestGrows(nodes, parent, t, t1, t2);
    }
  }

  lemma {:induction false} ForestGrows(nodes: seq<Node>, parent: nat, t: Tables, t1: Tables, t2: Tables)
    requires nodes != [] && WellFormed(t) && parent < |t.shapes| && parent < 0x8000_0000
    requires Appended(t, t1) && OneNewTree(t, t1, parent) && Represents(nodes[0], |t.shapes|, t1)
    requires Appended(t1, t2) && NewForest(t1, t2, parent) && KidsSpellOut(nodes[1..], parent, t1, t2)
    ensures Appended(t, t2) && NewForest(t, t2, parent) && KidsSpellOut(nodes, parent, t, t2)
  {
    FigureFrameTransitive(t, t1, t2);
    forall j | |t.shapes| <= j < |t2.shapes|
      ensures t2.shapes[j].parent == parent || |t.shapes| <= t2.shapes[j].parent
    {
      if j < |t1.shapes| { assert t2.shapes[j] == t1.shapes[j]; }
    }
    KidsGrow(nodes, parent, t, t1, t2);
  }

  lemma {:induction false} KidsGrow(nodes: seq<Node>, parent: nat, t: Tables, t1: Tables, t2: Tables)
    requires nodes != [] && WellFormed(t) && parent < |t.shapes| && parent < 0x8000_0000
    requires Appended(t, t1) && OneNewTree(t, t1, parent) && Represents(nodes[0], |t.shapes|, t1)
    requires Appended(t1, t2) && NewForest(t1, t2, parent) && KidsSpellOut(nodes[1..], parent, t1, t2)
    ensures KidsSpellOut(nodes, parent, t, t2)
  {
    FirstKid(parent, t, t1);
    RepresentsFrame(nodes[0], |t.shapes|, t1, t2, |t.shapes|);
    var kids, kids2 := Kids(t.shapes, parent, |t.shapes|), Kids(t2.shapes, parent, |t2.shapes|);
    var added, later := kids2[|kids|..], kids2[|kids| + 1..];
    assert added == [|t.shapes|] + later;
    forall i | 0 <= i < |nodes| ensures |t.shapes| <= added[i] && Represents(nodes[i], added[i], t2) {
      if i > 0 { assert nodes[i] == nodes[1..][i - 1] && added[i] == later[i - 1]; }
    }
  }

  /** The shapes appended for `nodes` are the new children of `parent`, in order. */
  predicate KidsSpellOut(nodes: seq<Node>, parent: nat, t: Tables, t2: Tables)
    requires parent < 0x8000_0000
  {
    var kids, kids2 := Kids(t.shapes, parent, |t.shapes|), Kids(t2.shapes, parent, |t2.shapes|);
    && kids <= kids2
    && var added := kids2[|kids|..];
    && |added| == |nodes|
    && (forall i :: 0 <= i < |nodes| ==> |t.shapes| <= added[i] && Represents(nodes[i], added[i], t2))
  }

  lemma {:induction false} FirstKid(parent: nat, t: Tables, t1: Tables)
    requires parent < |t.shapes| && parent < 0x8000_0000
    requires t.shapes <= t1.shapes && OneNewTree(t, t1, parent)
    ensures Kids(t1.shapes, parent, |t1.shapes|) == Kids(t.shapes, parent, |t.shapes|) + [|t.shapes|]
  {
    OneMoreKid(t.shapes, t1.shapes, parent);
  }

  lemma {:induction false} OneMoreKid(shapes: seq<Shape>, shapes2: seq<Shape>, key: i32)
    requires shapes < shapes2 && shapes2[|shapes|].parent == key
    requires forall j :: |shapes| < j < |shapes2| ==> shapes2[j].parent != key
    ensures Kids(shapes2, key, |shapes2|) == Kids(shapes, key, |shapes|) + [|shapes|]
  {
    KidsNoMore(shapes2, key, |shapes| + 1, |shapes2|);
    KidsPrefix(shapes, shapes2, key, |shapes|);
  }
}
