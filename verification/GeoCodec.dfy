/** `wire::encode` and `wire::decode` together. */
module GeoCodec {
  import opened Common
  import opened GeoTypes
  import opened GeoLayout
  import opened GeoBuild
  import opened GeoRoundTrip
  import opened GeoCounts
  import opened GeoBytes
  import opened GeoRows
  import opened GeoFormat

  /** `wire::encode`. */
  function Encode(srid: i32, g: Geometry): seq<byte> {
    PayloadBytes(srid, Flatten(g))
  }

  lemma {:induction false} FlattenFits(g: Geometry)
    requires FitsFormat(g)
    ensures Fits(Flatten(g))
  {
    GeometryAdds(g, -1, EMPTY_TABLES);
    assert EMPTY_TABLES.points + AllPoints(g) == AllPoints(g);
  }

  /** The central law, for every geometry of any nesting that the format can
      count: decoding an encoded geometry gives the same SRID and `ReadBack` of
      the geometry, whatever bytes follow. */
  lemma {:induction false} DecodeEncode(srid: i32, g: Geometry, trailing: seq<byte>)
    requires FitsFormat(g)
    ensures Decode(Encode(srid, g) + trailing) == Ok((srid, ReadBack(g)))
  {
    FlattenFits(g);
    PayloadRoundTrip(srid, Flatten(g), trailing);
    AssembleFlatten(g);
  }

  /** Decoding gives the promised normal form back exactly when no empty
      exterior ring surrounds a non-empty hole. */
  lemma {:induction false} DecodeEncodeIsNorm(srid: i32, g: Geometry)
    requires FitsFormat(g)
    ensures Decode(Encode(srid, g)) == Ok((srid, Norm(g))) <==> !Hollow(g)
  {
    DecodeEncode(srid, g, []);
    assert Encode(srid, g) + [] == Encode(srid, g);
    ReadBackIsNorm(g);
  }

  /** Decoding gives the very geometry back exactly when it is canonical. */
  lemma {:induction false} DecodeEncodeIsIdentity(srid: i32, g: Geometry)
    requires FitsFormat(g)
    ensures Decode(Encode(srid, g)) == Ok((srid, g)) <==> Canonical(g)
  {
    DecodeEncode(srid, g, []);
    assert Encode(srid, g) + [] == Encode(srid, g);
    ReadBackIsIdentity(g);
  }

  /** Encoding a decoded geometry again and decoding that gives the decoded one
      exactly when no ring starts at a NaN. */
  lemma {:induction false} ReencodeDecoded(srid: i32, g: Geometry)
    requires FitsFormat(g) && FitsFormat(ReadBack(g))
    ensures Decode(Encode(srid, g)) == Ok((srid, ReadBack(g)))
    ensures Decode(Encode(srid, ReadBack(g))) == Ok((srid, ReadBack(g))) <==> SteadyRings(g)
  {
    DecodeEncode(srid, g, []);
    assert Encode(srid, g) + [] == Encode(srid, g);
    DecodeEncodeIsIdentity(srid, ReadBack(g));
    ReadBackIsCanonical(g);
  }

  /** A hole in an empty polygon comes back as its exterior ring as well. */
  lemma {:induction false} HollowPolygonChanges(srid: i32, c: Coord)
    requires SamePlace(c, c)
    ensures var g := Polygon(Poly([], [[c]]));
            && Decode(Encode(srid, g)) == Ok((srid, Polygon(Poly([c], [[c]]))))
            && Norm(g) == Polygon(Poly([], [[c]]))
  {
    var p := Poly([], [[c]]);
    var g := Polygon(p);
    assert NonEmpty(p.interiors) == [[c]];
    assert Concat([[c]]) == [c] + Concat([]);
    DecodeEncode(srid, g, []);
    assert Encode(srid, g) + [] == Encode(srid, g);
    assert CloseAll([[c]]) == [[c]];
  }

  /** The size of a payload, in terms of the geometry. */
  lemma {:induction false} EncodedSize(srid: i32, g: Geometry)
    ensures |Encode(srid, g)| == 18 + 16 * |AllPoints(g)| + 5 * FigureCount(g) + 9 * ShapeCount(g)
  {
    GeometryAdds(g, -1, EMPTY_TABLES);
  }

  /** Every byte of an encoding, in terms of the geometry: the SRID, version 1, the
      `valid` bit alone, and the tables in their places, whose rows are those of
      the geometry. */
  lemma {:induction false} EncodedLayout(srid: i32, g: Geometry)
    requires FitsFormat(g)
    ensures var b, t := Encode(srid, g), Flatten(g);
            && Signed(b, 0) == srid && b[4] == 1 && b[5] == 4
            && Complete(b) && Holds(b, t)
            && t.points == AllPoints(g)
            && FigureEntries(t.figures) == RowsOf(g, -1, 0, 0, 0).figures
            && ShapeEntries(t.shapes) == RowsOf(g, -1, 0, 0, 0).shapes
  {
    FlattenFits(g);
    PayloadLayout(srid, Flatten(g));
    FlattenRows(g);
  }

  /** No strict prefix of an encoded geometry decodes. */
  lemma {:induction false} EncodedPrefixRejected(srid: i32, g: Geometry, k: nat)
    requires FitsFormat(g) && k < |Encode(srid, g)|
    ensures Decode(Encode(srid, g)[..k]) == Err(Truncated)
  {
    FlattenFits(g);
    PayloadRoundTrip(srid, Flatten(g), []);
    assert Encode(srid, g) + [] == Encode(srid, g);
    PrefixRejected(Encode(srid, g), k);
  }

  // ----- The compact forms

  /** A payload that gives one point or two points and no tables. */
  function CompactBytes(srid: i32, properties: byte, points: seq<Coord>): seq<byte> {
    I32Bytes(srid) + ([1] + ([properties] + CoordsBytes(points)))
  }

  lemma {:induction false} ReadCompact(srid: i32, properties: byte, points: seq<Coord>)
    requires !Has(properties, PROP_Z) && !Has(properties, PROP_M) && IsSingle(properties)
    requires |points| == if Has(properties, PROP_SINGLE_POINT) then 1 else 2
    ensures ReadPayload(CompactBytes(srid, properties, points)) ==
            Ok((Payload(srid, Tables(points, SINGLE_FIGURES, SingleShapes(properties))), []))
  {
    var body := CoordsBytes(points);
    I32RoundTrip(srid, [1] + ([properties] + body));
    U8RoundTrip(1, [properties] + body);
    U8RoundTrip(properties, body);
    CoordsRoundTrip(points, []);
    assert body + [] == body;
    PayloadFromParts(CompactBytes(srid, properties, points), [1] + ([properties] + body), [properties] + body,
                     properties, body, Payload(srid, Tables(points, SINGLE_FIGURES, SingleShapes(properties))), []);
  }

  lemma {:induction false} CompactTables(c: Coord, d: Coord)
    ensures Flatten(Point(c)) == Tables([c], SINGLE_FIGURES, [Shape(-1, 0, SHAPE_POINT)])
    ensures Flatten(Line(c, d)) == Tables([c, d], SINGLE_FIGURES, [Shape(-1, 0, SHAPE_LINESTRING)])
  {
    var point, line := [PointRun(FIGURE_STROKE, [c])], [PointRun(FIGURE_STROKE, [c, d])];
    assert PushRuns(point, EMPTY_TABLES) == PushRun(point[0], EMPTY_TABLES);
    assert PushRuns(line, EMPTY_TABLES) == PushRun(line[0], EMPTY_TABLES);
  }

  /** SQL Server's compact forms of one point and of one segment decode as the
      encoding of that point and of that line do, for every coordinate and
      every setting of the other property bits except Z and M. */
  lemma {:induction false} CompactDecodesAlike(srid: i32, properties: byte, c: Coord, d: Coord)
    requires !Has(properties, PROP_Z) && !Has(properties, PROP_M)
    ensures Has(properties, PROP_SINGLE_POINT) ==>
              && Decode(CompactBytes(srid, properties, [c])) == Decode(Encode(srid, Point(c)))
              && Decode(CompactBytes(srid, properties, [c])) == Ok((srid, Point(c)))
    ensures !Has(properties, PROP_SINGLE_POINT) && Has(properties, PROP_SINGLE_LINE) ==>
              && Decode(CompactBytes(srid, properties, [c, d])) == Decode(Encode(srid, Line(c, d)))
              && Decode(CompactBytes(srid, properties, [c, d])) == Ok((srid, LineString([c, d])))
  {
    CompactTables(c, d);
    if Has(properties, PROP_SINGLE_POINT) {
      ReadCompact(srid, properties, [c]);
      DecodeEncode(srid, Point(c), []);
      PayloadRoundTrip(srid, Flatten(Point(c)), []);
      assert Encode(srid, Point(c)) + [] == Encode(srid, Point(c));
    } else if Has(properties, PROP_SINGLE_LINE) {
      ReadCompact(srid, properties, [c, d]);
      DecodeEncode(srid, Line(c, d), []);
      PayloadRoundTrip(srid, Flatten(Line(c, d)), []);
      assert Encode(srid, Line(c, d)) + [] == Encode(srid, Line(c, d));
    }
  }

  // ----- Payloads as SQL Server writes them

  lemma {:induction false} SmallNumbers()
    ensures U32Bytes(0) == [0, 0, 0, 0] && U32Bytes(1) == [1, 0, 0, 0]
    ensures I32Bytes(4326) == [0xE6, 0x10, 0, 0] && I32Bytes(-1) == [0xFF, 0xFF, 0xFF, 0xFF]
  {}

  lemma {:induction false} LineTables(line: seq<Coord>)
    requires line != []
    ensures Flatten(LineString(line)) == Tables(line, SINGLE_FIGURES, [Shape(-1, 0, SHAPE_LINESTRING)])
  {
    var run := PointRun(FIGURE_STROKE, line);
    assert PushRuns([run], EMPTY_TABLES) == PushRun(run, EMPTY_TABLES);
    assert [] + line == line;
  }

  /** Any line is written in the bytes that SQL Server itself uses for one: SRID,
      version, properties, points, one stroke figure, one root shape. */
  lemma {:induction false} LineStringBytes(line: seq<Coord>)
    requires line != [] && |line| < 0x1_0000_0000
    ensures Encode(4326, LineString(line)) ==
            [0xE6, 0x10, 0, 0] + [1] + [4] + (U32Bytes(|line|) + CoordsBytes(line))
            + ([1, 0, 0, 0] + [1, 0, 0, 0, 0])
            + ([1, 0, 0, 0] + ([0xFF, 0xFF, 0xFF, 0xFF] + [0, 0, 0, 0] + [2]))
  {
    LineTables(line);
    SmallNumbers();
    assert AsU32(|line|) == |line| && AsU32(1) == 1;
  }

  /** The compact payload that SQL Server writes for a point. */
  lemma {:induction false} CapturedPoint(c: Coord)
    ensures Decode([0xE6, 0x10, 0, 0] + ([1] + ([0x0C] + CoordsBytes([c])))) == Ok((4326, Point(c)))
  {
    assert CompactBytes(4326, 0x0C, [c]) == [0xE6, 0x10, 0, 0] + ([1] + ([0x0C] + CoordsBytes([c]))) by {
      SmallNumbers();
    }
    assert Decode(CompactBytes(4326, 0x0C, [c])) == Ok((4326, Point(c))) by {
      CompactDecodesAlike(4326, 0x0C, c, c);
    }
  }
}
