/** What a payload says, byte by byte: which ones are refused, and where each
    number of the others stands. Bits and codes are written out. */
module GeoFormat {
  import opened Common
  import opened GeoTypes
  import opened GeoBuild
  import opened GeoBytes

  /** The little-endian number at byte `k`. */
  function Unsigned(b: seq<byte>, k: nat): nat
    requires k + 4 <= |b|
  {
    var b0: int, b1: int, b2: int, b3: int := b[k], b[k + 1], b[k + 2], b[k + 3];
    b0 + 256 * b1 + 65536 * b2 + 16777216 * b3
  }

  function Signed(b: seq<byte>, k: nat): int
    requires k + 4 <= |b|
  {
    if Unsigned(b, k) < 2147483648 then Unsigned(b, k) else Unsigned(b, k) - 4294967296
  }

  // ----- The header

  /** The first six bytes alone decide these answers, for every input: too short,
      a version other than 1, or one of the two lowest property bits set. */
  lemma {:induction false} HeaderDecides(b: seq<byte>)
    ensures |b| < 5 ==> Decode(b) == Err(Truncated)
    ensures |b| >= 5 && b[4] != 1 ==> Decode(b) == Err(UnsupportedVersion(b[4]))
    ensures |b| == 5 && b[4] == 1 ==> Decode(b) == Err(Truncated)
    ensures |b| >= 6 && b[4] == 1 && b[5] % 4 != 0 ==> Decode(b) == Err(HasZOrM)
    ensures Decode(b).Ok? ==> |b| >= 6 && b[4] == 1 && b[5] % 4 == 0
  {
    HeaderReads(b);
    if |b| >= 6 { LowBits(b[5]); }
  }

  lemma {:induction false} LowBits(p: byte)
    ensures Has(p, PROP_Z) || Has(p, PROP_M) <==> p % 4 != 0
    ensures Has(p, PROP_SINGLE_POINT) <==> p / 8 % 2 == 1
    ensures Has(p, PROP_SINGLE_LINE) <==> p / 16 % 2 == 1
  {}

  /** What is left to read once the header has been. */
  lemma {:induction false} HeaderReads(b: seq<byte>)
    ensures |b| < 5 ==> ReadPayload(b) == Err(Truncated)
    ensures |b| >= 5 && b[4] != 1 ==> ReadPayload(b) == Err(UnsupportedVersion(b[4]))
    ensures |b| == 5 && b[4] == 1 ==> ReadPayload(b) == Err(Truncated)
    ensures |b| >= 6 && b[4] == 1 ==>
              ReadPayload(b) ==
              if Has(b[5], PROP_Z) || Has(b[5], PROP_M) then Err(HasZOrM)
              else
                var tables := ReadTables(b[6..], b[5]);
                if tables.Err? then Err(tables.error)
                else Ok((Payload(Signed(b, 0), tables.value.0), tables.value.1))
  {
    if |b| >= 4 {
      assert b[..4][0] == b[0] && b[..4][1] == b[1] && b[..4][2] == b[2] && b[..4][3] == b[3];
      if |b| >= 5 {
        assert b[4..][..1][0] == b[4];
        if |b| >= 6 {
          assert b[4..][1..] == b[5..] && b[5..][..1][0] == b[5] && b[5..][1..] == b[6..];
        }
      }
    }
  }

  /** The bits that choose a form: one point, else one line, else tables. */
  predicate SameForm(p: byte, q: byte) {
    p / 8 % 2 == q / 8 % 2 && (p / 8 % 2 == 0 ==> p / 16 % 2 == q / 16 % 2)
  }

  /** Every other property bit may be set or not. */
  lemma {:induction false} OtherBitsIgnored(b: seq<byte>, q: byte)
    requires |b| >= 6 && b[5] % 4 == 0 && q % 4 == 0 && SameForm(b[5], q)
    ensures Decode(b[5 := q]) == Decode(b)
  {
    var c := b[5 := q];
    HeaderReads(b);
    HeaderReads(c);
    LowBits(b[5]);
    LowBits(q);
    assert c[6..] == b[6..];
    assert Signed(c, 0) == Signed(b, 0);
    if b[4] == 1 {
      assert ReadTables(c[6..], q) == ReadTables(b[6..], b[5]);
    }
  }

  // ----- The rows of the three tables

  function PointAt(b: seq<byte>, k: nat): Coord
    requires k + 16 <= |b|
  {
    Coord(b[k..k + 8], b[k + 8..k + 16])
  }

  function FigureAt(b: seq<byte>, k: nat): Figure
    requires k + 5 <= |b|
  {
    Figure(b[k], Unsigned(b, k + 1))
  }

  function ShapeRowAt(b: seq<byte>, k: nat): Shape
    requires k + 9 <= |b|
  {
    Shape(Signed(b, k), Signed(b, k + 4), b[k + 8])
  }

  lemma {:induction false} U32At(b: seq<byte>, k: nat)
    requires k <= |b|
    ensures ReadU32(b[k..]) == if k + 4 <= |b| then Ok((Unsigned(b, k), b[k + 4..])) else Err(Truncated)
    ensures ReadI32(b[k..]) == if k + 4 <= |b| then Ok((Signed(b, k), b[k + 4..])) else Err(Truncated)
  {
    if k + 4 <= |b| {
      var s := b[k..][..4];
      assert s[0] == b[k] && s[1] == b[k + 1] && s[2] == b[k + 2] && s[3] == b[k + 3];
      assert b[k..][4..] == b[k + 4..];
    }
  }

  lemma {:induction false} U8At(b: seq<byte>, k: nat)
    requires k <= |b|
    ensures ReadU8(b[k..]) == if k + 1 <= |b| then Ok((b[k], b[k + 1..])) else Err(Truncated)
  {
    if k + 1 <= |b| {
      assert b[k..][..1][0] == b[k] && b[k..][1..] == b[k + 1..];
    }
  }

  lemma {:induction false} CoordAt(b: seq<byte>, k: nat)
    requires k <= |b|
    ensures ReadCoord(b[k..]) == if k + 16 <= |b| then Ok((PointAt(b, k), b[k + 16..])) else Err(Truncated)
  {
    if k + 8 <= |b| {
      assert b[k..][..8] == b[k..k + 8] && b[k..][8..] == b[k + 8..];
      if k + 16 <= |b| {
        assert b[k + 8..][..8] == b[k + 8..k + 16] && b[k + 8..][8..] == b[k + 16..];
      }
    }
  }

  lemma {:induction false} FigureReadAt(b: seq<byte>, k: nat)
    requires k <= |b|
    ensures ReadFigure(b[k..]) == if k + 5 <= |b| then Ok((FigureAt(b, k), b[k + 5..])) else Err(Truncated)
  {
    U8At(b, k);
    if k + 1 <= |b| { U32At(b, k + 1); }
  }

  lemma {:induction false} ShapeReadAt(b: seq<byte>, k: nat)
    requires k <= |b|
    ensures ReadShape(b[k..]) == if k + 9 <= |b| then Ok((ShapeRowAt(b, k), b[k + 9..])) else Err(Truncated)
  {
    U32At(b, k);
    if k + 4 <= |b| {
      U32At(b, k + 4);
      if k + 8 <= |b| { U8At(b, k + 8); }
    }
  }

  /** `n` points stand one after the other, 16 bytes each. */
  lemma {:induction false} PointsAt(b: seq<byte>, k: nat, n: nat)
    requires k <= |b|
    ensures var p := ReadCoords(b[k..], n);
            if k + 16 * n <= |b| then
              && p.Ok? && p.value.1 == b[k + 16 * n..] && |p.value.0| == n
              && forall i :: 0 <= i < n ==> p.value.0[i] == PointAt(b, k + 16 * i)
            else p == Err(Truncated)
  {
    PointsAtLength(b, k, n);
    if k + 16 * n <= |b| {
      forall i | 0 <= i < n ensures ReadCoords(b[k..], n).value.0[i] == PointAt(b, k + 16 * i) {
        PointsAtRow(b, k, n, i);
      }
    }
  }

  lemma {:induction false} PointsAtLength(b: seq<byte>, k: nat, n: nat)
    requires k <= |b|
    ensures var p := ReadCoords(b[k..], n);
            if k + 16 * n <= |b| then p.Ok? && p.value.1 == b[k + 16 * n..] && |p.value.0| == n
            else p == Err(Truncated)
    decreases n
  {
    if n > 0 {
      CoordAt(b, k);
      if k + 16 <= |b| {
        PointsAtLength(b, k + 16, n - 1);
        Stride(16, n);
      }
    }
  }

  lemma {:induction false} PointsAtRow(b: seq<byte>, k: nat, n: nat, i: nat)
    requires i < n && k + 16 * n <= |b|
    ensures var p := ReadCoords(b[k..], n); p.Ok? && |p.value.0| == n && p.value.0[i] == PointAt(b, k + 16 * i)
    decreases n
  {
    Stride(16, n);
    PointsAtFirst(b, k, n);
    if i > 0 {
      PointsAtRow(b, k + 16, n - 1, i - 1);
      Stride(16, i);
    }
  }

  lemma {:induction false} PointsAtFirst(b: seq<byte>, k: nat, n: nat)
    requires n > 0 && k + 16 + 16 * (n - 1) <= |b|
    ensures var p, rest := ReadCoords(b[k..], n), ReadCoords(b[k + 16..], n - 1);
            && p.Ok? && rest.Ok? && |rest.value.0| == n - 1
            && p.value.0 == [PointAt(b, k)] + rest.value.0
  {
    CoordAt(b, k);
    PointsAtLength(b, k + 16, n - 1);
  }

  lemma {:induction false} FiguresAt(b: seq<byte>, k: nat, n: nat)
    requires k <= |b|
    ensures var p := ReadFigures(b[k..], n);
            if k + 5 * n <= |b| then
              && p.Ok? && p.value.1 == b[k + 5 * n..] && |p.value.0| == n
              && forall i :: 0 <= i < n ==> p.value.0[i] == FigureAt(b, k + 5 * i)
            else p == Err(Truncated)
  {
    FiguresAtLength(b, k, n);
    if k + 5 * n <= |b| {
      forall i | 0 <= i < n ensures ReadFigures(b[k..], n).value.0[i] == FigureAt(b, k + 5 * i) {
        FiguresAtRow(b, k, n, i);
      }
    }
  }

  lemma {:induction false} FiguresAtLength(b: seq<byte>, k: nat, n: nat)
    requires k <= |b|
    ensures var p := ReadFigures(b[k..], n);
            if k + 5 * n <= |b| then p.Ok? && p.value.1 == b[k + 5 * n..] && |p.value.0| == n
            else p == Err(Truncated)
    decreases n
  {
    if n > 0 {
      FigureReadAt(b, k);
      if k + 5 <= |b| {
        FiguresAtLength(b, k + 5, n - 1);
        Stride(5, n);
      }
    }
  }

  lemma {:induction false} FiguresAtRow(b: seq<byte>, k: nat, n: nat, i: nat)
    requires i < n && k + 5 * n <= |b|
    ensures var p := ReadFigures(b[k..], n); p.Ok? && |p.value.0| == n && p.value.0[i] == FigureAt(b, k + 5 * i)
    decreases n
  {
    Stride(5, n);
    FiguresAtFirst(b, k, n);
    if i > 0 {
      FiguresAtRow(b, k + 5, n - 1, i - 1);
      Stride(5, i);
    }
  }

  lemma {:induction false} FiguresAtFirst(b: seq<byte>, k: nat, n: nat)
    requires n > 0 && k + 5 + 5 * (n - 1) <= |b|
    ensures var p, rest := ReadFigures(b[k..], n), ReadFigures(b[k + 5..], n - 1);
            && p.Ok? && rest.Ok? && |rest.value.0| == n - 1
            && p.value.0 == [FigureAt(b, k)] + rest.value.0
  {
    FigureReadAt(b, k);
    FiguresAtLength(b, k + 5, n - 1);
  }

  lemma {:induction false} ShapesAtRows(b: seq<byte>, k: nat, n: nat)
    requires k <= |b|
    ensures var p := ReadShapes(b[k..], n);
            if k + 9 * n <= |b| then
              && p.Ok? && p.value.1 == b[k + 9 * n..] && |p.value.0| == n
              && forall i :: 0 <= i < n ==> p.value.0[i] == ShapeRowAt(b, k + 9 * i)
            else p == Err(Truncated)
  {
    ShapesAtRowsLength(b, k, n);
    if k + 9 * n <= |b| {
      forall i | 0 <= i < n ensures ReadShapes(b[k..], n).value.0[i] == ShapeRowAt(b, k + 9 * i) {
        ShapesAtRow(b, k, n, i);
      }
    }
  }

  lemma {:induction false} ShapesAtRowsLength(b: seq<byte>, k: nat, n: nat)
    requires k <= |b|
    ensures var p := ReadShapes(b[k..], n);
            if k + 9 * n <= |b| then p.Ok? && p.value.1 == b[k + 9 * n..] && |p.value.0| == n
            else p == Err(Truncated)
    decreases n
  {
    if n > 0 {
      ShapeReadAt(b, k);
      if k + 9 <= |b| {
        ShapesAtRowsLength(b, k + 9, n - 1);
        Stride(9, n);
      }
    }
  }

  lemma {:induction false} ShapesAtRow(b: seq<byte>, k: nat, n: nat, i: nat)
    requires i < n && k + 9 * n <= |b|
    ensures var p := ReadShapes(b[k..], n); p.Ok? && |p.value.0| == n && p.value.0[i] == ShapeRowAt(b, k + 9 * i)
    decreases n
  {
    Stride(9, n);
    ShapesAtRowsFirst(b, k, n);
    if i > 0 {
      ShapesAtRow(b, k + 9, n - 1, i - 1);
      Stride(9, i);
    }
  }

  lemma {:induction false} ShapesAtRowsFirst(b: seq<byte>, k: nat, n: nat)
    requires n > 0 && k + 9 + 9 * (n - 1) <= |b|
    ensures var p, rest := ReadShapes(b[k..], n), ReadShapes(b[k + 9..], n - 1);
            && p.Ok? && rest.Ok? && |rest.value.0| == n - 1
            && p.value.0 == [ShapeRowAt(b, k)] + rest.value.0
  {
    ShapeReadAt(b, k);
    ShapesAtRowsLength(b, k + 9, n - 1);
  }

  lemma {:induction false} Stride(width: nat, n: nat)
    requires n > 0
    ensures width * n == width + width * (n - 1)
  {}

  // ----- Whole payloads

  /** The bytes that a payload with tables needs: it counts its points, its
      figures and its shapes in front of each table. */
  predicate Complete(b: seq<byte>) {
    && 10 <= |b|
    && var p := Unsigned(b, 6);
    && 14 + 16 * p <= |b|
    && var f := Unsigned(b, 10 + 16 * p);
    && 18 + 16 * p + 5 * f <= |b|
    && var s := Unsigned(b, 14 + 16 * p + 5 * f);
    && 18 + 16 * p + 5 * f + 9 * s <= |b|
  }

  /** The three tables stand where those counts put them. */
  predicate Holds(b: seq<byte>, t: Tables)
    requires Complete(b)
  {
    var p := Unsigned(b, 6);
    var f := Unsigned(b, 10 + 16 * p);
    var s := Unsigned(b, 14 + 16 * p + 5 * f);
    && |t.points| == p && |t.figures| == f && |t.shapes| == s
    && (forall i :: 0 <= i < p ==> t.points[i] == PointAt(b, 10 + 16 * i))
    && (forall i :: 0 <= i < f ==> t.figures[i] == FigureAt(b, 14 + 16 * p + 5 * i))
    && (forall i :: 0 <= i < s ==> t.shapes[i] == ShapeRowAt(b, 18 + 16 * p + 5 * f + 9 * i))
  }

  /** The two tables after the points. */
  function ReadRest(points: seq<Coord>, b: seq<byte>): Parsed<Tables> {
    var (figures, b1) :- ReadFigureTable(b);
    var (shapes, b2) :- ReadShapeTable(b1);
    Ok((Tables(points, figures, shapes), b2))
  }

  lemma {:induction false} PointTableRead(b: seq<byte>, p: byte) returns (points: seq<Coord>)
    requires |b| >= 6 && p / 8 % 2 == 0 && p / 16 % 2 == 0
    ensures if 10 <= |b| && 10 + 16 * Unsigned(b, 6) <= |b| then
              && |points| == Unsigned(b, 6)
              && (forall i :: 0 <= i < |points| ==> points[i] == PointAt(b, 10 + 16 * i))
              && ReadTables(b[6..], p) == ReadRest(points, b[10 + 16 * Unsigned(b, 6)..])
            else ReadTables(b[6..], p) == Err(Truncated)
  {
    LowBits(p);
    U32At(b, 6);
    points := [];
    if 10 <= |b| {
      PointsAt(b, 10, Unsigned(b, 6));
      if 10 + 16 * Unsigned(b, 6) <= |b| {
        points := ReadCoords(b[10..], Unsigned(b, 6)).value.0;
      }
    }
  }

  /** What reading the two tables at byte `k` must give. */
  predicate RestRight(points: seq<Coord>, b: seq<byte>, k: nat, r: Parsed<Tables>)
    requires k <= |b|
  {
    if k + 4 <= |b| && k + 4 + 5 * Unsigned(b, k) <= |b| then
      var m := k + 4 + 5 * Unsigned(b, k);
      if m + 4 <= |b| && m + 4 + 9 * Unsigned(b, m) <= |b| then
        && r.Ok? && r.value.0.points == points
        && |r.value.0.figures| == Unsigned(b, k) && |r.value.0.shapes| == Unsigned(b, m)
        && (forall i :: 0 <= i < Unsigned(b, k) ==> r.value.0.figures[i] == FigureAt(b, k + 4 + 5 * i))
        && (forall i :: 0 <= i < Unsigned(b, m) ==> r.value.0.shapes[i] == ShapeRowAt(b, m + 4 + 9 * i))
      else r == Err(Truncated)
    else r == Err(Truncated)
  }

  lemma {:induction false} RestAt(points: seq<Coord>, b: seq<byte>, k: nat)
    requires k <= |b|
    ensures RestRight(points, b, k, ReadRest(points, b[k..]))
  {
    FigureTableAt(b, k);
    if k + 4 <= |b| && k + 4 + 5 * Unsigned(b, k) <= |b| {
      ShapeTableAt(b, k + 4 + 5 * Unsigned(b, k));
    }
  }

  /** The tables after the header. */
  lemma {:induction false} TablesRead(b: seq<byte>, p: byte)
    requires |b| >= 6 && p / 8 % 2 == 0 && p / 16 % 2 == 0
    ensures var r := ReadTables(b[6..], p);
            if Complete(b) then r.Ok? && Holds(b, r.value.0) else r == Err(Truncated)
  {
    var points := PointTableRead(b, p);
    if 10 <= |b| && 10 + 16 * Unsigned(b, 6) <= |b| {
      RestAt(points, b, 10 + 16 * Unsigned(b, 6));
      RestHolds(points, b, ReadTables(b[6..], p));
    }
  }

  lemma {:induction false} RestHolds(points: seq<Coord>, b: seq<byte>, r: Parsed<Tables>)
    requires 10 <= |b| && 10 + 16 * Unsigned(b, 6) <= |b| && |points| == Unsigned(b, 6)
    requires forall i :: 0 <= i < |points| ==> points[i] == PointAt(b, 10 + 16 * i)
    requires RestRight(points, b, 10 + 16 * Unsigned(b, 6), r)
    ensures if Complete(b) then r.Ok? && Holds(b, r.value.0) else r == Err(Truncated)
  {}

  lemma {:induction false} FigureTableAt(b: seq<byte>, k: nat)
    requires k <= |b|
    ensures var r := ReadFigureTable(b[k..]);
            if k + 4 <= |b| && k + 4 + 5 * Unsigned(b, k) <= |b| then
              && r.Ok? && r.value.1 == b[k + 4 + 5 * Unsigned(b, k)..] && |r.value.0| == Unsigned(b, k)
              && forall i :: 0 <= i < Unsigned(b, k) ==> r.value.0[i] == FigureAt(b, k + 4 + 5 * i)
            else r == Err(Truncated)
  {
    U32At(b, k);
    if k + 4 <= |b| { FiguresAt(b, k + 4, Unsigned(b, k)); }
  }

  lemma {:induction false} ShapeTableAt(b: seq<byte>, k: nat)
    requires k <= |b|
    ensures var r := ReadShapeTable(b[k..]);
            if k + 4 <= |b| && k + 4 + 9 * Unsigned(b, k) <= |b| then
              && r.Ok? && |r.value.0| == Unsigned(b, k)
              && forall i :: 0 <= i < Unsigned(b, k) ==> r.value.0[i] == ShapeRowAt(b, k + 4 + 9 * i)
            else r == Err(Truncated)
  {
    U32At(b, k);
    if k + 4 <= |b| { ShapesAtRows(b, k + 4, Unsigned(b, k)); }
  }

  /** A version 1 payload with tables: it is read if and only if it is complete,
      as the SRID at its start and the tables in their places. */
  lemma {:induction false} ExpandedPayload(b: seq<byte>)
    requires |b| >= 6 && b[4] == 1 && b[5] % 4 == 0 && b[5] / 8 % 2 == 0 && b[5] / 16 % 2 == 0
    ensures var r := ReadPayload(b);
            if Complete(b) then r.Ok? && r.value.0.srid == Signed(b, 0) && Holds(b, r.value.0.tables)
            else r == Err(Truncated)
  {
    HeaderReads(b);
    LowBits(b[5]);
    TablesRead(b, b[5]);
  }

  /** The compact forms: one point, or two points, and nothing else. */
  lemma {:induction false} CompactPayload(b: seq<byte>)
    requires |b| >= 6 && b[4] == 1 && b[5] % 4 == 0 && (b[5] / 8 % 2 == 1 || b[5] / 16 % 2 == 1)
    ensures var n, kind := if b[5] / 8 % 2 == 1 then 1 else 2, if b[5] / 8 % 2 == 1 then 1 else 2;
            var r := ReadPayload(b);
            if 6 + 16 * n <= |b| then
              && r.Ok? && r.value.0.srid == Signed(b, 0)
              && r.value.0.tables.points == (if n == 1 then [PointAt(b, 6)] else [PointAt(b, 6), PointAt(b, 22)])
              && r.value.0.tables.figures == [Figure(1, 0)]
              && r.value.0.tables.shapes == [Shape(-1, 0, kind)]
            else r == Err(Truncated)
  {
    HeaderReads(b);
    LowBits(b[5]);
    PointsAt(b, 6, if b[5] / 8 % 2 == 1 then 1 else 2);
  }

  // ----- What is written

  /** Written tables stand in the same places, so every byte of a payload is
      fixed; its version is 1 and its properties are the `valid` bit alone. */
  lemma {:induction false} PayloadLayout(srid: i32, t: Tables)
    requires |t.points| < 4294967296 && |t.figures| < 4294967296 && |t.shapes| < 4294967296
    ensures var b := PayloadBytes(srid, t);
            && Signed(b, 0) == srid && b[4] == 1 && b[5] == 4
            && Complete(b) && Holds(b, t)
            && |b| == 18 + 16 * |t.points| + 5 * |t.figures| + 9 * |t.shapes|
  {
    var b := PayloadBytes(srid, t);
    PayloadRoundTrip(srid, t, []);
    assert b + [] == b;
    HeaderBytes(srid, t);
    ExpandedPayload(b);
  }

  lemma {:induction false} HeaderBytes(srid: i32, t: Tables)
    ensures PayloadBytes(srid, t)[4] == 1 && PayloadBytes(srid, t)[5] == 4
  {
    var front := I32Bytes(srid) + [1] + [PROP_VALID];
    assert PayloadBytes(srid, t) == front + (PointTable(t) + FigureTable(t) + ShapeTable(t));
    assert front[4] == 1 && front[5] == 4;
  }
}
