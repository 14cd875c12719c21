/** The byte form of the tables: writing is a function to bytes, reading one
    from the bytes that are left. */
module GeoBytes {
  import opened Common
  import opened GeoTypes
  import opened GeoBuild

  // ----- Writing

  function U32Bytes(n: u32): (bytes: seq<byte>)
    ensures |bytes| == 4
  {
    [n % 0x100, n / 0x100 % 0x100, n / 0x1_0000 % 0x100, n / 0x100_0000]
  }

  function I32Bytes(n: i32): (bytes: seq<byte>)
    ensures |bytes| == 4
  {
    U32Bytes(if n < 0 then n + 0x1_0000_0000 else n)
  }

  function CoordBytes(c: Coord): (bytes: seq<byte>)
    ensures |bytes| == 16
  {
    c.x + c.y
  }

  function FigureBytes(f: Figure): (bytes: seq<byte>)
    ensures |bytes| == 5
  {
    [f.attribute] + U32Bytes(f.pointOffset)
  }

  function ShapeBytes(s: Shape): (bytes: seq<byte>)
    ensures |bytes| == 9
  {
    I32Bytes(s.parent) + I32Bytes(s.figureOffset) + [s.shapeType]
  }

  function CoordsBytes(cs: seq<Coord>): (bytes: seq<byte>)
    ensures |bytes| == 16 * |cs|
  {
    if cs == [] then [] else CoordBytes(cs[0]) + CoordsBytes(cs[1..])
  }

  function FiguresBytes(fs: seq<Figure>): (bytes: seq<byte>)
    ensures |bytes| == 5 * |fs|
  {
    if fs == [] then [] else FigureBytes(fs[0]) + FiguresBytes(fs[1..])
  }

  function ShapesBytes(ss: seq<Shape>): (bytes: seq<byte>)
    ensures |bytes| == 9 * |ss|
  {
    if ss == [] then [] else ShapeBytes(ss[0]) + ShapesBytes(ss[1..])
  }

  const PROP_Z: byte := 0x01
  const PROP_M: byte := 0x02
  const PROP_VALID: byte := 0x04
  const PROP_SINGLE_POINT: byte := 0x08
  const PROP_SINGLE_LINE: byte := 0x10

  function PointTable(t: Tables): seq<byte> {
    U32Bytes(AsU32(|t.points|)) + CoordsBytes(t.points)
  }

  function FigureTable(t: Tables): seq<byte> {
    U32Bytes(AsU32(|t.figures|)) + FiguresBytes(t.figures)
  }

  function ShapeTable(t: Tables): seq<byte> {
    U32Bytes(AsU32(|t.shapes|)) + ShapesBytes(t.shapes)
  }

  /** A version 1 payload that lists its tables: 18 bytes of header and counts,
      and 16, 5 and 9 bytes per row. */
  function PayloadBytes(srid: i32, t: Tables): (bytes: seq<byte>)
    ensures |bytes| == 18 + 16 * |t.points| + 5 * |t.figures| + 9 * |t.shapes|
  {
    I32Bytes(srid) + [1] + [PROP_VALID] + PointTable(t) + FigureTable(t) + ShapeTable(t)
  }

  // ----- Reading

  /** A value and the bytes after it. */
  type Parsed<+T> = Decoded<(T, seq<byte>)>

  function Take(b: seq<byte>, count: nat): (p: Parsed<seq<byte>>)
    ensures p.Ok? ==> |p.value.0| == count
  {
    if |b| < count then Err(Truncated) else Ok((b[..count], b[count..]))
  }

  function ReadU8(b: seq<byte>): Parsed<byte> {
    var (s, rest) :- Take(b, 1);
    Ok((s[0], rest))
  }

  function U32Of(s: seq<byte>): u32
    requires |s| == 4
  {
    var b0: int, b1: int, b2: int, b3: int := s[0], s[1], s[2], s[3];
    b0 + 0x100 * b1 + 0x1_0000 * b2 + 0x100_0000 * b3
  }

  function ReadU32(b: seq<byte>): Parsed<u32> {
    var (s, rest) :- Take(b, 4);
    Ok((U32Of(s), rest))
  }

  function I32Of(s: seq<byte>): i32
    requires |s| == 4
  {
    if U32Of(s) < 0x8000_0000 then U32Of(s) else U32Of(s) - 0x1_0000_0000
  }

  function ReadI32(b: seq<byte>): Parsed<i32> {
    var (s, rest) :- Take(b, 4);
    Ok((I32Of(s), rest))
  }

  function ReadF64(b: seq<byte>): Parsed<F64> {
    var (s, rest) :- Take(b, 8);
    Ok((s, rest))
  }

  function ReadCoord(b: seq<byte>): Parsed<Coord> {
    var (x, b1) :- ReadF64(b);
    var (y, b2) :- ReadF64(b1);
    Ok((Coord(x, y), b2))
  }

  function ReadFigure(b: seq<byte>): Parsed<Figure> {
    var (attribute, b1) :- ReadU8(b);
    var (offset, b2) :- ReadU32(b1);
    Ok((Figure(attribute, offset), b2))
  }

  function ReadShape(b: seq<byte>): Parsed<Shape> {
    var (parent, b1) :- ReadI32(b);
    var (offset, b2) :- ReadI32(b1);
    var (ty, b3) :- ReadU8(b2);
    Ok((Shape(parent, offset, ty), b3))
  }

  function ReadCoords(b: seq<byte>, n: nat): (p: Parsed<seq<Coord>>)
    ensures p.Err? ==> p.error == Truncated
  {
    if n == 0 then Ok(([], b))
    else
      var (c, b1) :- ReadCoord(b);
      var (cs, b2) :- ReadCoords(b1, n - 1);
      Ok(([c] + cs, b2))
  }

  function ReadFigures(b: seq<byte>, n: nat): (p: Parsed<seq<Figure>>)
    ensures p.Err? ==> p.error == Truncated
  {
    if n == 0 then Ok(([], b))
    else
      var (f, b1) :- ReadFigure(b);
      var (fs, b2) :- ReadFigures(b1, n - 1);
      Ok(([f] + fs, b2))
  }

  function ReadShapes(b: seq<byte>, n: nat): (p: Parsed<seq<Shape>>)
    ensures p.Ok? ==> |p.value.0| == n
    ensures p.Err? ==> p.error == Truncated
  {
    if n == 0 then Ok(([], b))
    else
      var (s, b1) :- ReadShape(b);
      var (ss, b2) :- ReadShapes(b1, n - 1);
      Ok(([s] + ss, b2))
  }

  /** `properties & flag != 0` for a one-bit flag. */
  predicate Has(properties: byte, flag: byte)
    requires flag != 0
  {
    properties / flag % 2 == 1
  }

  predicate IsSingle(properties: byte) {
    Has(properties, PROP_SINGLE_POINT) || Has(properties, PROP_SINGLE_LINE)
  }

  function ReadPointCount(b: seq<byte>, properties: byte): Parsed<u32> {
    if Has(properties, PROP_SINGLE_POINT) then Ok((1, b))
    else if Has(properties, PROP_SINGLE_LINE) then Ok((2, b))
    else ReadU32(b)
  }

  const SINGLE_FIGURES := [Figure(FIGURE_STROKE, 0)]

  function SingleShapes(properties: byte): seq<Shape> {
    [Shape(-1, 0, if Has(properties, PROP_SINGLE_POINT) then SHAPE_POINT else SHAPE_LINESTRING)]
  }

  function ReadFigureTable(b: seq<byte>): Parsed<seq<Figure>> {
    var (count, rest) :- ReadU32(b);
    ReadFigures(rest, count)
  }

  function ReadShapeTable(b: seq<byte>): (p: Parsed<seq<Shape>>)
    ensures p.Ok? ==> Countable(p.value.0)
  {
    var (count, rest) :- ReadU32(b);
    ReadShapes(rest, count)
  }

  function ReadTables(b: seq<byte>, properties: byte): (p: Parsed<Tables>)
    ensures p.Ok? ==> Countable(p.value.0.shapes)
    ensures p.Err? ==> p.error == Truncated
  {
    var (pointCount, b1) :- ReadPointCount(b, properties);
    var (points, b2) :- ReadCoords(b1, pointCount);
    if IsSingle(properties) then Ok((Tables(points, SINGLE_FIGURES, SingleShapes(properties)), b2))
    else
      var (figures, b3) :- ReadFigureTable(b2);
      var (shapes, b4) :- ReadShapeTable(b3);
      Ok((Tables(points, figures, shapes), b4))
  }

  datatype Payload = Payload(srid: i32, tables: Tables)

  function ReadPayload(b: seq<byte>): (p: Parsed<Payload>)
    ensures p.Ok? ==> Countable(p.value.0.tables.shapes)
  {
    var (srid, b1) :- ReadI32(b);
    var (version, b2) :- ReadU8(b1);
    if version != 1 then Err(UnsupportedVersion(version))
    else
      var (properties, b3) :- ReadU8(b2);
      if Has(properties, PROP_Z) || Has(properties, PROP_M) then Err(HasZOrM)
      else
        var (tables, b4) :- ReadTables(b3, properties);
        Ok((Payload(srid, tables), b4))
  }

  /** `wire::decode`. */
  function Decode(b: seq<byte>): Decoded<(i32, Geometry)> {
    var (payload, rest) :- ReadPayload(b);
    var geometry :- Assemble(payload.tables);
    Ok((payload.srid, geometry))
  }

  // ----- Written values are read back

  lemma {:induction false} U32OfBytes(n: u32)
    ensures U32Of(U32Bytes(n)) == n
  {
    var q1, q2, q3 := n / 0x100, n / 0x1_0000, n / 0x100_0000;
    assert q2 == q1 / 0x100 && q3 == q2 / 0x100;
    assert n == n % 0x100 + 0x100 * q1;
    assert q1 == q1 % 0x100 + 0x100 * q2;
    assert q2 == q2 % 0x100 + 0x100 * q3;
  }

  lemma {:induction false} U32RoundTrip(n: u32, rest: seq<byte>)
    ensures ReadU32(U32Bytes(n) + rest) == Ok((n, rest))
  {
    U32OfBytes(n);
    var s := U32Bytes(n);
    assert (s + rest)[..4] == s && (s + rest)[4..] == rest;
  }

  lemma {:induction false} I32RoundTrip(n: i32, rest: seq<byte>)
    ensures ReadI32(I32Bytes(n) + rest) == Ok((n, rest))
  {
    var s := I32Bytes(n);
    assert (s + rest)[..4] == s && (s + rest)[4..] == rest;
    U32OfBytes(if n < 0 then n + 0x1_0000_0000 else n);
  }

  lemma {:induction false} U8RoundTrip(n: byte, rest: seq<byte>)
    ensures ReadU8([n] + rest) == Ok((n, rest))
  {}

  lemma {:induction false} CoordRoundTrip(c: Coord, rest: seq<byte>)
    ensures ReadCoord(CoordBytes(c) + rest) == Ok((c, rest))
  {
    assert CoordBytes(c) + rest == c.x + (c.y + rest);
  }

  lemma {:induction false} FigureRoundTrip(f: Figure, rest: seq<byte>)
    ensures ReadFigure(FigureBytes(f) + rest) == Ok((f, rest))
  {
    var tail := U32Bytes(f.pointOffset) + rest;
    assert FigureBytes(f) + rest == [f.attribute] + tail;
    U8RoundTrip(f.attribute, tail);
    U32RoundTrip(f.pointOffset, rest);
  }

  lemma {:induction false} ShapeRoundTrip(s: Shape, rest: seq<byte>)
    ensures ReadShape(ShapeBytes(s) + rest) == Ok((s, rest))
  {
    var tail := [s.shapeType] + rest;
    assert ShapeBytes(s) + rest == I32Bytes(s.parent) + (I32Bytes(s.figureOffset) + tail);
    I32RoundTrip(s.parent, I32Bytes(s.figureOffset) + tail);
    I32RoundTrip(s.figureOffset, tail);
    U8RoundTrip(s.shapeType, rest);
  }

  lemma {:induction false} CoordsRoundTrip(cs: seq<Coord>, rest: seq<byte>)
    ensures ReadCoords(CoordsBytes(cs) + rest, |cs|) == Ok((cs, rest))
  {
    if cs == [] {
      assert CoordsBytes(cs) + rest == rest;
    } else {
      var tail := CoordsBytes(cs[1..]) + rest;
      assert CoordsBytes(cs) + rest == CoordBytes(cs[0]) + tail;
      CoordRoundTrip(cs[0], tail);
      CoordsRoundTrip(cs[1..], rest);
      assert cs == [cs[0]] + cs[1..];
    }
  }

  lemma {:induction false} FiguresRoundTrip(fs: seq<Figure>, rest: seq<byte>)
    ensures ReadFigures(FiguresBytes(fs) + rest, |fs|) == Ok((fs, rest))
  {
    if fs == [] {
      assert FiguresBytes(fs) + rest == rest;
    } else {
      var tail := FiguresBytes(fs[1..]) + rest;
      assert FiguresBytes(fs) + rest == FigureBytes(fs[0]) + tail;
      FigureRoundTrip(fs[0], tail);
      FiguresRoundTrip(fs[1..], rest);
      assert fs == [fs[0]] + fs[1..];
    }
  }

  lemma {:induction false} ShapesRoundTrip(ss: seq<Shape>, rest: seq<byte>)
    ensures ReadShapes(ShapesBytes(ss) + rest, |ss|) == Ok((ss, rest))
  {
    if ss == [] {
      assert ShapesBytes(ss) + rest == rest;
    } else {
      var tail := ShapesBytes(ss[1..]) + rest;
      assert ShapesBytes(ss) + rest == ShapeBytes(ss[0]) + tail;
      ShapeRoundTrip(ss[0], tail);
      ShapesRoundTrip(ss[1..], rest);
      assert ss == [ss[0]] + ss[1..];
    }
  }

  lemma {:induction false} FigureTableRoundTrip(t: Tables, rest: seq<byte>)
    requires |t.figures| < 0x1_0000_0000
    ensures ReadFigureTable(FigureTable(t) + rest) == Ok((t.figures, rest))
  {
    var tail := FiguresBytes(t.figures) + rest;
    assert FigureTable(t) + rest == U32Bytes(|t.figures|) + tail;
    U32RoundTrip(|t.figures|, tail);
    FiguresRoundTrip(t.figures, rest);
  }

  lemma {:induction false} ShapeTableRoundTrip(t: Tables, rest: seq<byte>)
    requires |t.shapes| < 0x1_0000_0000
    ensures ReadShapeTable(ShapeTable(t) + rest) == Ok((t.shapes, rest))
  {
    var count, tail := U32Bytes(|t.shapes|), ShapesBytes(t.shapes) + rest;
    assert ShapeTable(t) == count + ShapesBytes(t.shapes);
    assert count + ShapesBytes(t.shapes) + rest == count + tail;
    U32RoundTrip(|t.shapes|, tail);
    ShapesRoundTrip(t.shapes, rest);
  }

  lemma {:induction false} PointTableRoundTrip(t: Tables, tail: seq<byte>)
    requires |t.points| < 0x1_0000_0000
    ensures ReadU32(PointTable(t) + tail) == Ok((|t.points|, CoordsBytes(t.points) + tail))
  {
    assert PointTable(t) + tail == U32Bytes(|t.points|) + (CoordsBytes(t.points) + tail);
    U32RoundTrip(|t.points|, CoordsBytes(t.points) + tail);
  }

  lemma {:induction false} TablesFromParts(
    b: seq<byte>, n: u32, b1: seq<byte>, b2: seq<byte>, b3: seq<byte>, t: Tables, rest: seq<byte>)
    requires ReadU32(b) == Ok((n, b1)) && ReadCoords(b1, n) == Ok((t.points, b2))
    requires ReadFigureTable(b2) == Ok((t.figures, b3)) && ReadShapeTable(b3) == Ok((t.shapes, rest))
    ensures ReadTables(b, PROP_VALID) == Ok((t, rest))
  {}

  lemma {:induction false} TablesRoundTrip(t: Tables, rest: seq<byte>)
    requires |t.points| < 0x1_0000_0000 && |t.figures| < 0x1_0000_0000 && |t.shapes| < 0x1_0000_0000
    ensures ReadTables(PointTable(t) + (FigureTable(t) + (ShapeTable(t) + rest)), PROP_VALID) == Ok((t, rest))
  {
    var tail := FigureTable(t) + (ShapeTable(t) + rest);
    PointTableRoundTrip(t, tail);
    CoordsRoundTrip(t.points, tail);
    FigureTableRoundTrip(t, ShapeTable(t) + rest);
    ShapeTableRoundTrip(t, rest);
    TablesFromParts(PointTable(t) + tail, |t.points|, CoordsBytes(t.points) + tail, tail,
                    ShapeTable(t) + rest, t, rest);
  }

  lemma {:induction false} PayloadFromParts(
    b: seq<byte>, b1: seq<byte>, b2: seq<byte>, properties: byte, body: seq<byte>, p: Payload, rest: seq<byte>)
    requires ReadI32(b) == Ok((p.srid, b1)) && ReadU8(b1) == Ok((1, b2)) && ReadU8(b2) == Ok((properties, body))
    requires !Has(properties, PROP_Z) && !Has(properties, PROP_M)
    requires ReadTables(body, properties) == Ok((p.tables, rest))
    ensures ReadPayload(b) == Ok((p, rest))
  {}

  lemma {:induction false} PayloadParts(srid: i32, t: Tables, rest: seq<byte>)
    ensures PayloadBytes(srid, t) + rest ==
            I32Bytes(srid) + ([1] + ([PROP_VALID] + (PointTable(t) + (FigureTable(t) + (ShapeTable(t) + rest)))))
  {}

  /** Tables with 32-bit counts are read back from their payload, and whatever
      follows the payload is left alone. */
  lemma {:induction false} PayloadRoundTrip(srid: i32, t: Tables, rest: seq<byte>)
    requires |t.points| < 0x1_0000_0000 && |t.figures| < 0x1_0000_0000 && |t.shapes| < 0x1_0000_0000
    ensures ReadPayload(PayloadBytes(srid, t) + rest) == Ok((Payload(srid, t), rest))
  {
    var body := PointTable(t) + (FigureTable(t) + (ShapeTable(t) + rest));
    PayloadParts(srid, t, rest);
    I32RoundTrip(srid, [1] + ([PROP_VALID] + body));
    U8RoundTrip(1, [PROP_VALID] + body);
    U8RoundTrip(PROP_VALID, body);
    TablesRoundTrip(t, rest);
    PayloadFromParts(PayloadBytes(srid, t) + rest, [1] + ([PROP_VALID] + body), [PROP_VALID] + body,
                     PROP_VALID, body, Payload(srid, t), rest);
  }

  // ----- More input changes nothing but the rest

  /** The same outcome with `extra` more bytes after it. */
  function Extend<T>(p: Parsed<T>, extra: seq<byte>): Parsed<T> {
    if p.Ok? then Ok((p.value.0, p.value.1 + extra)) else p
  }

  lemma {:induction false} ExtendTake(b: seq<byte>, extra: seq<byte>, n: nat)
    requires n <= |b|
    ensures (b + extra)[..n] == b[..n] && (b + extra)[n..] == b[n..] + extra
  {}

  lemma {:induction false} ExtendU8(b: seq<byte>, extra: seq<byte>)
    requires ReadU8(b).Ok?
    ensures ReadU8(b + extra) == Extend(ReadU8(b), extra)
  {
    ExtendTake(b, extra, 1);
  }

  lemma {:induction false} ExtendU32(b: seq<byte>, extra: seq<byte>)
    requires ReadU32(b).Ok?
    ensures ReadU32(b + extra) == Extend(ReadU32(b), extra)
  {
    ExtendTake(b, extra, 4);
  }

  lemma {:induction false} ExtendI32(b: seq<byte>, extra: seq<byte>)
    requires ReadI32(b).Ok?
    ensures ReadI32(b + extra) == Extend(ReadI32(b), extra)
  {
    ExtendTake(b, extra, 4);
  }

  lemma {:induction false} ExtendCoord(b: seq<byte>, extra: seq<byte>)
    requires ReadCoord(b).Ok?
    ensures ReadCoord(b + extra) == Extend(ReadCoord(b), extra)
  {
    ExtendTake(b, extra, 8);
    ExtendTake(b[8..], extra, 8);
  }

  lemma {:induction false} ExtendFigure(b: seq<byte>, extra: seq<byte>)
    requires ReadFigure(b).Ok?
    ensures ReadFigure(b + extra) == Extend(ReadFigure(b), extra)
  {
    ExtendU8(b, extra);
    ExtendU32(b[1..], extra);
  }

  lemma {:induction false} ExtendShape(b: seq<byte>, extra: seq<byte>)
    requires ReadShape(b).Ok?
    ensures ReadShape(b + extra) == Extend(ReadShape(b), extra)
  {
    ExtendI32(b, extra);
    ExtendI32(b[4..], extra);
    ExtendU8(b[4..][4..], extra);
  }

  lemma {:induction false} ExtendCoords(b: seq<byte>, extra: seq<byte>, n: nat)
    requires ReadCoords(b, n).Ok?
    ensures ReadCoords(b + extra, n) == Extend(ReadCoords(b, n), extra)
  {
    if n > 0 {
      ExtendCoord(b, extra);
      ExtendCoords(ReadCoord(b).value.1, extra, n - 1);
    }
  }

  lemma {:induction false} ExtendFigures(b: seq<byte>, extra: seq<byte>, n: nat)
    requires ReadFigures(b, n).Ok?
    ensures ReadFigures(b + extra, n) == Extend(ReadFigures(b, n), extra)
  {
    if n > 0 {
      ExtendFigure(b, extra);
      ExtendFigures(ReadFigure(b).value.1, extra, n - 1);
    }
  }

  lemma {:induction false} ExtendShapes(b: seq<byte>, extra: seq<byte>, n: nat)
    requires ReadShapes(b, n).Ok?
    ensures ReadShapes(b + extra, n) == Extend(ReadShapes(b, n), extra)
  {
    if n > 0 {
      ExtendShape(b, extra);
      ExtendShapes(ReadShape(b).value.1, extra, n - 1);
    }
  }

  lemma {:induction false} ExtendFigureTable(b: seq<byte>, extra: seq<byte>)
    requires ReadFigureTable(b).Ok?
    ensures ReadFigureTable(b + extra) == Extend(ReadFigureTable(b), extra)
  {
    ExtendU32(b, extra);
    var (count, rest) := ReadU32(b).value;
    ExtendFigures(rest, extra, count);
  }

  lemma {:induction false} ExtendShapeTable(b: seq<byte>, extra: seq<byte>)
    requires ReadShapeTable(b).Ok?
    ensures ReadShapeTable(b + extra) == Extend(ReadShapeTable(b), extra)
  {
    ExtendU32(b, extra);
    var (count, rest) := ReadU32(b).value;
    ExtendShapes(rest, extra, count);
  }

  lemma {:induction false} ExtendTables(b: seq<byte>, extra: seq<byte>, properties: byte)
    requires ReadTables(b, properties).Ok?
    ensures ReadTables(b + extra, properties) == Extend(ReadTables(b, properties), extra)
  {
    if !IsSingle(properties) { ExtendU32(b, extra); }
    var (n, b1) := ReadPointCount(b, properties).value;
    assert ReadPointCount(b + extra, properties) == Ok((n, b1 + extra));
    ExtendCoords(b1, extra, n);
    if !IsSingle(properties) {
      var b2 := ReadCoords(b1, n).value.1;
      ExtendFigureTable(b2, extra);
      ExtendShapeTable(ReadFigureTable(b2).value.1, extra);
    }
  }

  lemma {:induction false} ExtendPayload(b: seq<byte>, extra: seq<byte>)
    requires ReadPayload(b) != Err(Truncated)
    ensures ReadPayload(b + extra) == Extend(ReadPayload(b), extra)
  {
    ExtendI32(b, extra);
    var b1 := ReadI32(b).value.1;
    ExtendU8(b1, extra);
    var (version, b2) := ReadU8(b1).value;
    if version == 1 {
      ExtendU8(b2, extra);
      var (properties, b3) := ReadU8(b2).value;
      if !Has(properties, PROP_Z) && !Has(properties, PROP_M) {
        ExtendTables(b3, extra, properties);
      }
    }
  }

  // ----- Main results on bytes

  /** Once a payload is complete, bytes after it change nothing. */
  lemma {:induction false} TrailingBytesIgnored(b: seq<byte>, extra: seq<byte>)
    requires ReadPayload(b) != Err(Truncated)
    ensures Decode(b + extra) == Decode(b)
  {
    ExtendPayload(b, extra);
  }

  /** Every prefix that stops short of the bytes a payload uses is rejected as
      truncated: no error is misreported and no shorter value is made up. */
  lemma {:induction false} PrefixRejected(b: seq<byte>, k: nat)
    requires ReadPayload(b).Ok? && k + |ReadPayload(b).value.1| < |b|
    ensures Decode(b[..k]) == Err(Truncated)
  {
    if ReadPayload(b[..k]) != Err(Truncated) {
      assert b[..k] + b[k..] == b;
      ExtendPayload(b[..k], b[k..]);
      assert false;
    }
  }
}
