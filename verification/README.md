# Verified model of the SQL Server driver's core

A Dafny model of the parts of this driver that decide something: the spatial
codec, the connection's transaction and result-set bookkeeping, the parameter
marker rewriter with the quoting used for migrations, and the calendar
arithmetic. `dafny verify dfyconfig.toml` checks all of it.

## What is modelled

**Spatial codec** (`types/geo.rs`; modules `Geo*`). A geometry tree of any
nesting is flattened into tables of points, figures and shapes, written as
little-endian bytes, read back and rebuilt. `GeoLayout` has the layout and its
invariants, `GeoLayoutProofs` shows that later appends change nothing earlier,
`GeoBuild` rebuilds from arbitrary tables and shows why that ends, `GeoRoundTrip`
joins the two, `GeoBytes` has the byte layer and `GeoCodec` the main results.
`GeoRows`, `GeoFormat` and `GeoReading` say the same in the format's own numbers:
what rows a geometry becomes, where each byte stands, and what any tables are read
as or refused for.
`GeoWire` is the codec in the form in which it runs: a builder that pushes, a
reader that advances, loops that collect.

**Connection** (`connection.rs`). `TdsServer` is the assumed server. `Connection`
says what each operation does to the connection's three fields and to the server,
with the network's answers as inputs, so that every failure is covered.
`Transactions` shows that this refines a stack of snapshots, `Streams` that a
half-read response is marked, `MigrationPair` that a migration is all or nothing;
`Replies` says what each operation answers from the network's replies alone.
`Driver` has the client and the connection as objects whose methods are proved
against `Connection`.

**Markers and quoting** (`param_markers.rs`, `migrate.rs`). `SqlLexer` is an
automaton that reads one character with one character of lookahead;
`ParamMarkers` has the rewriter, which skips whole regions, and proves it against
the automaton; `MarkerProperties` has the laws, `MarkerNames` says when the server
reads a substituted name as such, and `NestedComments` compares the automaton with
one that nests comments; `MarkerBinding` says when an argument is bound at its
marker only. `Migrate` lexes the statement that records a migration, `SchemaSql`
the one that creates a schema.
`InferParameters` models the parameter declarations, and `DeclarationText` reads
them back.

**Calendar** (`types/jiff.rs`, `types/mod.rs`). `Calendar` proves the day-number
arithmetic against an independent definition of the next day, over all integer
years; `DateTime2` adds the library's date range and the 100-nanosecond ticks.

## Where the code and its documentation differ

The model follows the code in each case.

- The comment at `connection.rs:765-767` leaves a failed rollback for
  `drain_pending` to recover. The rollback is not queued, so no drain recovers it:
  `MigrationPair.FailedRollbackIsNotQueued`.
- The format is meant to keep a geometry. A polygon with an empty exterior and a
  non-empty hole does not come back as it was; `GeoCodec.DecodeEncodeIsNorm` says
  that these are the only geometries for which the normal form is lost.
- Each flag is cleared before its request, so a queued rollback that fails is
  forgotten: `Transactions.FailedDrainNestsNextBegin`.
- `connection.rs:39-41` has a half-read result set drained before anything else
  can be sent. Commit and rollback do not drain, so a transaction that ends after
  a stream was dropped sends its request on the unread rows:
  `Streams.EndingOverlaps`, with the exact condition in `Streams.StepOverlaps`.
  The mark itself is lost when a close fails, or when `exec_sql` cannot read off
  its response: `Streams.StepKeepsMark`.
- `param_markers.rs:9-10` leaves a `?` in a comment alone. T-SQL nests block
  comments and the rewriter ends them at the first `*/`:
  `NestedComments.NestedMarkerReplaced`, with the exact condition in
  `NestedComments.AgreesWithNesting`.
- A marker is to be rewritten to a name. Beside a character that continues a name,
  or another marker, on either side, it becomes part of a longer run of such
  characters: `MarkerNames.LetterBeforeJoins`, with the exact condition in
  `MarkerNames.NameStandsAlone`. A number right before a marker counts as joining
  it, although T-SQL may end the number there and read the name after it.
- Parameters are bound by name, and the statement may use the same names: with
  `@P1=?` the first argument is bound twice. `MarkerBinding.RequestBinds` has the
  exact condition under which each argument is bound at its marker only.
- A rewriting does not say which statement it came from. It can be undone exactly
  when no `@` of the statement is code (`MarkerProperties.UndoRewrite`), and no
  other statement has it exactly when the statement has no marker and no `@P1` in
  code (`MarkerProperties.RewriteInjective`).
- `migrate.rs:170-178` escapes the schema's name for brackets and not for the string
  around them. The string holds what is meant exactly for names without a quote:
  `SchemaSql.CreateSchemaLexes`.

## Assumptions

- The server (`TdsServer`): data is the list of statements in effect on it.
  Rolling back to a savepoint name uses the most recent savepoint of that name; a
  begin inside a transaction only counts; a request that fails has no effect on
  the data or on the transaction; a response that fails part-way stays unread. A
  request sent on a half-read response is counted and then served as any other.
- Which characters continue a T-SQL name is a parameter of `MarkerNames` and
  `MarkerBinding`; only `@`, `P` and the digits are required to. Names are compared
  letter by letter, where a server that ignores case would also take `@p1`.
- A coordinate is its eight bytes, compared by the rules of IEEE 754 (NaN equals
  nothing, the zeros are equal) where `Polygon::new` tests whether a ring is
  closed. A geometry is built from any rings, closed or not.
- A declaration list is read back for names without blanks that do not end in a
  comma and for types without a comma and blank.
- The size law `GeoCodec.EncodedSize` holds for every geometry; the round trip
  needs tables whose counts and indices fit their 32-bit fields.

## Model

| member | source | states |
|---|---|---|
| `GeoCodec.DecodeEncode` | sqlx-mssql-rs-core/src/types/geo.rs:361-832 | For every geometry, of any nesting and with any rings, that the 32-bit fields can count: decoding its encoding, whatever bytes follow, gives the same SRID and the geometry as it is read back |
| `GeoCodec.DecodeEncodeIsNorm` | sqlx-mssql-rs-core/src/types/geo.rs:361-832 | What comes back is the promised normal form (lines as line strings, outlines as polygons, rings closed, empty holes dropped) if and only if no empty exterior surrounds a non-empty hole |
| `GeoCodec.DecodeEncodeIsIdentity` | sqlx-mssql-rs-core/src/types/geo.rs:361-832 | The round trip is the identity if and only if the geometry is canonical: a decodable kind, every ring closed, no empty hole, no hole without an exterior |
| `GeoCodec.HollowPolygonChanges` | sqlx-mssql-rs-core/src/types/geo.rs:805-829 | The counterexample: a hole in an empty polygon comes back as the exterior as well |
| `GeoCodec.ReencodeDecoded` | sqlx-mssql-rs-core/src/types/geo.rs:361-832 | Encoding a decoded geometry and decoding that changes nothing more if and only if no ring starts at a NaN |
| `GeoRoundTrip.ReadBackTwice` | sqlx-mssql-rs-core/src/types/geo.rs:560-590 | The same without the bytes: reading back is idempotent on exactly those geometries, since a NaN ring is closed again each time |
| `GeoRoundTrip.AssembleFlatten` | sqlx-mssql-rs-core/src/types/geo.rs:442-832 | The same law on the three tables, before any byte is written |
| `GeoRoundTrip.ShapeReadBack` | sqlx-mssql-rs-core/src/types/geo.rs:484-557 | Any shape of any tables that spells out a geometry is rebuilt as that geometry, at every depth |
| `GeoRoundTrip.ReadBackIsNorm` | sqlx-mssql-rs-core/src/types/geo.rs:805-829 | Exact condition under which the layout keeps the normal form, for every geometry |
| `GeoRoundTrip.ReadBackIsIdentity` | sqlx-mssql-rs-core/src/types/geo.rs:560-590 | Exact condition under which a geometry survives unchanged, including the ring closing of `Polygon::new` |
| `GeoPartition.GeometryKeepsLayout` | sqlx-mssql-rs-core/src/types/geo.rs:654-832 | On any well-formed tables, encoding only appends; the new shapes are one tree in preorder whose root has the old shape count as its index; the geometry is spelled out; and offsets go on cutting the points into non-empty runs if and only if the geometry is not hollow |
| `GeoPartition.FigureOwnsItsRun` | sqlx-mssql-rs-core/src/types/geo.rs:604-633 | With increasing offsets a figure reads at least one point, and exactly those up to the next figure |
| `GeoPartition.FiguresReadAllPoints` | sqlx-mssql-rs-core/src/types/geo.rs:608-633 | The figures together read every point once, in order |
| `GeoPartition.SolidUnlessHollow` | sqlx-mssql-rs-core/src/types/geo.rs:805-829 | A geometry produces a figure without points of its own if and only if it is hollow |
| `GeoPreorder.NodePreorder` | sqlx-mssql-rs-core/src/types/geo.rs:635-765 | Each new shape hangs below the shape written just before it or below one of that shape's ancestors |
| `GeoLayoutProofs.PushNodeCorrect` | sqlx-mssql-rs-core/src/types/geo.rs:652-832 | Appending a node at any depth keeps the tables well formed and spells the node out at the old shape count, below its parent |
| `GeoLayoutProofs.RepresentsFrame` | sqlx-mssql-rs-core/src/types/geo.rs:484-557 | A finished shape still spells out the same node after any later shapes, figures and points are appended |
| `GeoLayoutProofs.FigureCoordsFrame` | sqlx-mssql-rs-core/src/types/geo.rs:608-633 | Later appends leave the points of every earlier figure unchanged, although a figure's end is implicit |
| `GeoLayoutProofs.HolesFrame` | sqlx-mssql-rs-core/src/types/geo.rs:573-587 | Later appends leave the holes of every earlier polygon unchanged |
| `GeoLayoutProofs.MinAboveIsLeast` | sqlx-mssql-rs-core/src/types/geo.rs:622-627 | The end of a figure is the least greater offset of the whole table, and the end of the points if there is none |
| `GeoLayoutProofs.SeenRun` | sqlx-mssql-rs-core/src/types/geo.rs:608-633 | A figure reads exactly the run it was written for; an empty exterior reads the first hole instead |
| `GeoCounts.GeometryAdds` | sqlx-mssql-rs-core/src/types/geo.rs:654-832 | Conservation: the point table grows by exactly the geometry's coordinates in traversal order, the other two tables by its figure and shape counts |
| `GeoCodec.EncodedSize` | sqlx-mssql-rs-core/src/types/geo.rs:451-481 | A payload has 18 + 16p + 5f + 9s bytes for the points, figures and shapes counted on the geometry itself |
| `GeoCodec.EncodedLayout` | sqlx-mssql-rs-core/src/types/geo.rs:451-832 | Every byte of an encoding in terms of the geometry: SRID, version 1, properties 4, the three counts, and the rows of the three tables in their places, with type codes and attributes as numbers |
| `GeoRows.GeometryWrites` | sqlx-mssql-rs-core/src/types/geo.rs:654-832 | At any place in any tables, encoding writes exactly the figure and shape rows of the geometry: shapes in preorder with parent, type code and figure offset (-1 when empty, else the figures before), figures with attribute and point offset |
| `GeoRows.FlattenRows` | sqlx-mssql-rs-core/src/types/geo.rs:451-481 | The three tables of a whole geometry, row by row |
| `GeoFormat.PayloadLayout` | sqlx-mssql-rs-core/src/types/geo.rs:451-481 | Written tables stand, as little-endian numbers, where the counts in front of them put them |
| `GeoFormat.HeaderDecides` | sqlx-mssql-rs-core/src/types/geo.rs:361-383 | For every input: a version other than 1 is refused as such, a set Z or M bit (property byte not divisible by 4) as such, a shorter header as truncated, and nothing decodes otherwise |
| `GeoFormat.OtherBitsIgnored` | sqlx-mssql-rs-core/src/types/geo.rs:377-407 | The property bits that choose no form may be set in any way |
| `GeoFormat.ExpandedPayload` | sqlx-mssql-rs-core/src/types/geo.rs:385-440 | Any version 1 payload with tables is read if and only if it is as long as its counts say, and then as the numbers in those places |
| `GeoFormat.CompactPayload` | sqlx-mssql-rs-core/src/types/geo.rs:385-418 | The compact forms are read if and only if one point or two are there, as one stroke figure and one root shape |
| `GeoReading.FigureRead` | sqlx-mssql-rs-core/src/types/geo.rs:604-633 | Any figure offset in any tables: negative is empty, outside the table or with points outside theirs is refused, otherwise the points up to the least greater offset |
| `GeoReading.FirstPointRead` | sqlx-mssql-rs-core/src/types/geo.rs:592-602 | The first point of a figure, its refusal, or the refusal of an empty point |
| `GeoReading.HolesRead` | sqlx-mssql-rs-core/src/types/geo.rs:573-587 | The holes are the figures of attribute 0, in order, up to the first of attribute 2 |
| `GeoReading.KidsRead` | sqlx-mssql-rs-core/src/types/geo.rs:491-495 | The children are all shapes that name the parent, in order |
| `GeoReading.PolygonRead` | sqlx-mssql-rs-core/src/types/geo.rs:561-590 | Exterior first, then the holes, each closed, with the first refusal |
| `GeoReading.RingsRead` | sqlx-mssql-rs-core/src/types/geo.rs:576-587 | All holes, or the first refusal |
| `GeoReading.PointsRead` | sqlx-mssql-rs-core/src/types/geo.rs:512-519 | All points of the children, or the first refusal |
| `GeoReading.LinesRead` | sqlx-mssql-rs-core/src/types/geo.rs:520-530 | All lines of the children, or the first refusal |
| `GeoReading.PolygonsRead` | sqlx-mssql-rs-core/src/types/geo.rs:531-537 | All polygons of the children, or the first refusal |
| `GeoReading.MembersRead` | sqlx-mssql-rs-core/src/types/geo.rs:538-546 | All members of a collection, or the first refusal |
| `GeoReading.ShapeKinds` | sqlx-mssql-rs-core/src/types/geo.rs:497-556 | Any shape by its type code, in numbers: 1 to 7 are the seven geometries, 8 to 11 are refused as curved, all others as unknown |
| `GeoReading.AssembleStarts` | sqlx-mssql-rs-core/src/types/geo.rs:442-447 | Decoding starts at the first shape without a parent, and is refused if and only if there is none |
| `GeoCodec.EncodedPrefixRejected` | sqlx-mssql-rs-core/src/types/geo.rs:361-448 | Every strict prefix of an encoded geometry is rejected as truncated |
| `GeoBytes.PrefixRejected` | sqlx-mssql-rs-core/src/types/geo.rs:845-856 | The same for every payload, compact or expanded, however it was made: cut short of the bytes it uses, it is truncated and nothing else |
| `GeoBytes.TrailingBytesIgnored` | sqlx-mssql-rs-core/src/types/geo.rs:361-448 | Once a payload is long enough to be judged, valid or not, bytes after it change nothing |
| `GeoBytes.PayloadRoundTrip` | sqlx-mssql-rs-core/src/types/geo.rs:361-481 | The byte layer alone: any three tables and SRID that fit are read back from their bytes, and the rest of the input is left over |
| `GeoCodec.CompactDecodesAlike` | sqlx-mssql-rs-core/src/types/geo.rs:385-447 | The compact one-point and one-segment payloads decode to the same result as the expanded encoding, for all coordinates and all other property bits |
| `GeoCodec.LineStringBytes` | sqlx-mssql-rs-core/src/types/geo.rs:879-885 | The bytes of any encoded line have the form of the captured line payload: header, points, one stroke figure, one root shape |
| `GeoCodec.CapturedPoint` | sqlx-mssql-rs-core/src/types/geo.rs:879-880 | The captured header for a point decodes to SRID 4326 and that point |
| `GeoBuild.ChildPath` | sqlx-mssql-rs-core/src/types/geo.rs:484-546 | Every child lies on a longer path from the root, and no path is longer than the shape table: so rebuilding ends for every table, cyclic or not |
| `GeoBuild.PathUnique` | sqlx-mssql-rs-core/src/types/geo.rs:491-495 | Single parents: a shape is reached from a root along one path only |
| `GeoBuild.PathDistinct` | sqlx-mssql-rs-core/src/types/geo.rs:491-495 | A path from a root never meets the same shape twice |
| `GeoBuild.TopIsRooted` | sqlx-mssql-rs-core/src/types/geo.rs:442-447 | The shape that decoding starts from is a root |
| `GeoWire.EncodePayload` | sqlx-mssql-rs-core/src/types/geo.rs:451-481 | The encoder with its three tables and its output loops writes the specified bytes |
| `GeoWire.TableBuilder.EncodeGeometry` | sqlx-mssql-rs-core/src/types/geo.rs:654-773 | The pushing encoder leaves exactly the tables whose rows `GeoRows.GeometryWrites` gives, and returns the old shape count |
| `GeoWire.TableBuilder.EncodeMembers` | sqlx-mssql-rs-core/src/types/geo.rs:760-762 | Pushes the members of a collection under its shape, in order, at any depth |
| `GeoWire.TableBuilder.EncodePlaces` | sqlx-mssql-rs-core/src/types/geo.rs:699-708 | Pushes the points of a multi-point under its shape, in order |
| `GeoWire.TableBuilder.EncodeLines` | sqlx-mssql-rs-core/src/types/geo.rs:724-726 | Pushes the lines of a multi-line under its shape, in order |
| `GeoWire.TableBuilder.EncodePolygons` | sqlx-mssql-rs-core/src/types/geo.rs:742-744 | Pushes the polygons of a multi-polygon under its shape, in order |
| `GeoWire.TableBuilder.EncodePolygon` | sqlx-mssql-rs-core/src/types/geo.rs:798-832 | Skips empty holes, and pushes an empty shape only when every ring is empty |
| `GeoWire.TableBuilder.EncodeLineString` | sqlx-mssql-rs-core/src/types/geo.rs:776-795 | Pushes one stroke figure, or an empty shape for an empty line |
| `GeoWire.TableBuilder.EncodePoint` | sqlx-mssql-rs-core/src/types/geo.rs:662-671 | Pushes one point, one stroke figure and one shape |
| `GeoWire.TableBuilder.PushNewShape` | sqlx-mssql-rs-core/src/types/geo.rs:635-644 | Appends one shape and returns its index as the cast gives it |
| `GeoWire.TableBuilder.PushFigure` | sqlx-mssql-rs-core/src/types/geo.rs:811-817 | Appends points and one figure at the old point count |
| `GeoWire.DecodePayload` | sqlx-mssql-rs-core/src/types/geo.rs:361-448 | The decoder, with every refusal in its order, computes for every input the result that `GeoFormat` and `GeoReading` describe |
| `GeoWire.BuildShape` | sqlx-mssql-rs-core/src/types/geo.rs:484-557 | The recursive loop rebuilds the specified geometry or fails with the specified error, and terminates for every table |
| `GeoWire.BuildPolygon` | sqlx-mssql-rs-core/src/types/geo.rs:561-590 | The scan for holes stops at the next exterior ring and skips other figures |
| `GeoWire.BuildPlaces` | sqlx-mssql-rs-core/src/types/geo.rs:512-519 | Children of a multi-point, in order, with the first error if any |
| `GeoWire.BuildLines` | sqlx-mssql-rs-core/src/types/geo.rs:520-530 | Children of a multi-line, in order, with the first error if any |
| `GeoWire.BuildPolygons` | sqlx-mssql-rs-core/src/types/geo.rs:531-537 | Children of a multi-polygon, in order, with the first error if any |
| `GeoWire.Reader.TakeBytes` | sqlx-mssql-rs-core/src/types/geo.rs:845-856 | Gives the next bytes and advances past them, or fails and stays where it was |
| `GeoWire.Reader.Points` | sqlx-mssql-rs-core/src/types/geo.rs:393-399 | Reads exactly the declared number of points or reports truncation |
| `GeoWire.Reader.Figures` | sqlx-mssql-rs-core/src/types/geo.rs:420-427 | Reads exactly the declared number of figures or reports truncation |
| `GeoWire.Reader.Shapes` | sqlx-mssql-rs-core/src/types/geo.rs:429-437 | Reads exactly the declared number of shapes or reports truncation |
| `Transactions.RunRefines` | sqlx-mssql-rs-core/src/connection.rs:91-201 | Over every run of begins, commits, rollbacks, abandonments, statements and row streams, with any failures, the connection stands for what the effects of its operations make of an abstract stack of snapshots, as long as no queued rollback fails |
| `Transactions.StepRefines` | sqlx-mssql-rs-core/src/connection.rs:91-201 | One operation, whatever the network answers, keeps driver and server in agreement if and only if it does not send a queued rollback that fails |
| `Transactions.RollbackUndoesToBegin` | sqlx-mssql-rs-core/src/connection.rs:124-201 | A rollback undoes exactly the work since its matching begin, at any depth, whatever was committed or rolled back inside and whatever stale savepoints share its name |
| `Transactions.BeginRefines` | sqlx-mssql-rs-core/src/connection.rs:124-147 | A begin pushes a snapshot, also when an equally named savepoint is already set |
| `Transactions.CommitRefines` | sqlx-mssql-rs-core/src/connection.rs:149-170 | A commit pops a level and keeps the data; only the outermost one ends the transaction |
| `Transactions.RollbackRefines` | sqlx-mssql-rs-core/src/connection.rs:172-201 | A rollback restores the snapshot of the innermost level and pops it |
| `Transactions.AbandonRefines` | sqlx-mssql-rs-core/src/connection.rs:91-94 | Queueing a rollback abandons all levels at once, down to the outermost snapshot |
| `Transactions.DrainKeeps` | sqlx-mssql-rs-core/src/connection.rs:97-122 | Driver and server stay in agreement if and only if no queued rollback is sent and fails, and then the drain keeps what the connection stands for; a drain that succeeds leaves no flag and brings the data on the server to it |
| `Replies.DrainReplies` | sqlx-mssql-rs-core/src/connection.rs:97-122 | A drain succeeds if and only if the requests it sends do, and what it leaves in every case |
| `Replies.BeginReplies` | sqlx-mssql-rs-core/src/connection.rs:124-147 | A begin succeeds if and only if the drain and its own request do; at depth zero it opens a transaction, deeper it sets the savepoint `sqlx_sp_` with the depth |
| `Replies.CommitReplies` | sqlx-mssql-rs-core/src/connection.rs:149-170 | A commit fails only at depth one and with its request; depth, data and transaction afterwards |
| `Replies.RollbackReplies` | sqlx-mssql-rs-core/src/connection.rs:172-201 | A rollback fails only with its request; depth, data and transaction afterwards |
| `Replies.ExecReplies` | sqlx-mssql-rs-core/src/connection.rs:674-700 | A statement succeeds if and only if the drain, the execution, every read and the close do; data and unread rest afterwards |
| `Transactions.RunPending` | sqlx-mssql-rs-core/src/connection.rs:91-170 | After any run, with any failures, a queued rollback means depth zero |
| `Transactions.NothingEndsWhilePending` | sqlx-mssql-rs-core/src/connection.rs:149-201 | In every reachable state with a queued rollback, commit and rollback report success and send nothing |
| `Transactions.AbandonUndoesEverything` | sqlx-mssql-rs-core/src/connection.rs:91-122 | After an abandonment, and whatever is called while the rollback stays queued, the next drain that succeeds undoes all work since the outermost begin before anything else takes effect |
| `Transactions.RunWhilePending` | sqlx-mssql-rs-core/src/connection.rs:91-201 | Operations that leave the rollback queued change neither the data nor the transaction |
| `Transactions.FailedDrainNestsNextBegin` | sqlx-mssql-rs-core/src/connection.rs:108-119 | A queued rollback that fails is forgotten: the next begin nests in the open transaction and its commit does not end it |
| `Streams.PullYieldsPrefix` | sqlx-mssql-rs-core/src/connection.rs:909-973 | However a row stream comes to rest, it has yielded a prefix of the items of the response; it ends if and only if it is polled once more than there are items and no call fails, and then it has yielded all; otherwise it was dropped after as many items as polls, or failed |
| `Replies.FetchReplies` | sqlx-mssql-rs-core/src/connection.rs:895-973 | A stream that is started, from the replies alone: exact conditions for its ending and for what is left unread, and the statement added to the data, which without arguments is the text as it is |
| `Replies.PullEnding` | sqlx-mssql-rs-core/src/connection.rs:909-973 | A stream is dropped if and only if it is polled no more often than there are items and the calls for those items succeed |
| `Replies.FetchRefused` | sqlx-mssql-rs-core/src/connection.rs:875-907 | A stream whose drain, request or execution fails yields nothing and ends in failure |
| `Replies.BuildReplies` | sqlx-mssql-rs-core/src/connection.rs:511-531 | A request is built if and only if there are no arguments or as many as code-mode markers; without arguments the text is unchanged |
| `Streams.FetchMarks` | sqlx-mssql-rs-core/src/connection.rs:487-508 | Once the statement was sent, the response is read to its end or the connection is marked for reset, however much was consumed |
| `Streams.StepKeepsMark` | sqlx-mssql-rs-core/src/connection.rs:97-127 | Every operation, whatever the network answers, leaves a half-read response marked if and only if it does not lose the mark: by a drain whose close fails after the flag was cleared, or by `exec_sql` failing to read off its own response |
| `Streams.StepOverlaps` | sqlx-mssql-rs-core/src/connection.rs:97-201 | In any state and with any answers, an operation sends a request on a half-read response if and only if one is half-read and the operation has a request that no close precedes; commit and rollback never close |
| `Streams.RunOverlaps` | sqlx-mssql-rs-core/src/connection.rs:97-201 | The same over every run from any state: a request is sent on a half-read response if and only if some operation of the run does so |
| `Streams.StepOverlapsOnlyEnding` | sqlx-mssql-rs-core/src/connection.rs:37-42 | While half-read responses are marked, the only operations that send on one are the outermost commit and a rollback at any depth, one request each |
| `Streams.RunNeverOverlaps` | sqlx-mssql-rs-core/src/connection.rs:97-127 | Over every run that loses no mark, no statement, begin, savepoint or queued rollback is sent on a half-read response, and the commits and rollbacks sent on one are counted exactly |
| `Streams.EndingOverlaps` | sqlx-mssql-rs-core/src/connection.rs:149-201 | The failing run, without any failure of the network: begin, a stream dropped after one of two rows, commit or rollback; the request is sent on the unread row |
| `Streams.FailedCloseOverlaps` | sqlx-mssql-rs-core/src/connection.rs:97-106 | A run in which a close fails after its flag was cleared, and the next begin is sent on the unread row |
| `Streams.ExecMarksNothing` | sqlx-mssql-rs-core/src/connection.rs:674-700 | `exec_sql` leaves a half-read response unmarked if and only if the close before it fails or reading off its own response does |
| `Streams.UnmarkedOverlaps` | sqlx-mssql-rs-core/src/connection.rs:674-700 | A run in which the next begin is then sent on a half-read response |
| `Streams.EndingDoesNotDrain` | sqlx-mssql-rs-core/src/connection.rs:149-201 | Commit and rollback leave a half-read response and its mark as they are, and send on it if and only if the depth has a request of its own |
| `MigrationPair.AllOrNothing` | sqlx-mssql-rs-core/src/connection.rs:738-773 | With a transaction, at any depth: `Ok` means both statements took effect in the enclosing scope and an error neither, depth and outer levels restored, if and only if neither the queued rollback sent first nor the request that ends the pair fails |
| `Replies.PairReplies` | sqlx-mssql-rs-core/src/connection.rs:752-773 | A pair with a transaction is `Ok` if and only if drain, begin, both statements and, at depth zero, the commit are answered |
| `Replies.PairApplies` | sqlx-mssql-rs-core/src/connection.rs:738-773 | A pair that is `Ok` has added exactly the two statements; without a transaction it is `Ok` if and only if the drain and both statements are answered |
| `MigrationPair.FailedRollbackIsNotQueued` | sqlx-mssql-rs-core/src/connection.rs:764-769 | A failed rollback is not queued: the connection stays one level deeper and the work stays in effect |
| `MigrationPair.ExecBothInside` | sqlx-mssql-rs-core/src/connection.rs:754-758 | Inside the transaction the two statements change only the data, by appending those of the two that the server ran, and both if the pair succeeds |
| `MigrationPair.WithoutTransaction` | sqlx-mssql-rs-core/src/connection.rs:746-750 | Without a transaction, from any state: an error can leave the first statement in effect, and never the second alone; agreement with the server is kept if and only if no queued rollback sent first fails |
| `Driver.MssqlConnection.BeginTransaction` | sqlx-mssql-rs-core/src/connection.rs:124-147 | Drains first, then begins or sets the savepoint named by the depth; the depth grows only if the request succeeds, and every failure leaves fields and server as the specification says |
| `Driver.MssqlConnection.CommitTransaction` | sqlx-mssql-rs-core/src/connection.rs:149-170 | At depth zero and at inner depths nothing is sent; the depth falls unless the outermost commit fails |
| `Driver.MssqlConnection.RollbackTransaction` | sqlx-mssql-rs-core/src/connection.rs:172-201 | Sends a full rollback at depth one and a rollback to the savepoint of the level outside at greater depths; the depth falls only on success |
| `Driver.MssqlConnection.QueueRollback` | sqlx-mssql-rs-core/src/connection.rs:91-94 | Sets the flag and forgets all levels, and changes nothing on the server |
| `Driver.MssqlConnection.DrainPending` | sqlx-mssql-rs-core/src/connection.rs:97-122 | Each flag is cleared before its request is sent |
| `Driver.MssqlConnection.ExecSql` | sqlx-mssql-rs-core/src/connection.rs:674-700 | The loop reads off every result set, or stops at the first failure with the rest unread |
| `Driver.MssqlConnection.FetchMany` | sqlx-mssql-rs-core/src/connection.rs:847-977 | The stream and its guard: state, items and ending are as specified for every number of polls and every failure |
| `Driver.MssqlConnection.ReadResponse` | sqlx-mssql-rs-core/src/connection.rs:913-970 | The loop over result sets yields the specified items and leaves the specified rest |
| `Driver.MssqlConnection.ReadRows` | sqlx-mssql-rs-core/src/connection.rs:932-956 | The loop over the rows of one result set |
| `Driver.MssqlConnection.RunMigrationPair` | sqlx-mssql-rs-core/src/connection.rs:738-773 | The method leaves the state and gives the answer of which `Replies.PairReplies` and `MigrationPair.AllOrNothing` say what they are |
| `MarkerProperties.RequestMatches` | sqlx-mssql-rs-core/src/connection.rs:511-547 | With arguments, a request is built if and only if each marker has one; then the i-th parameter bears the text substituted for the i-th marker and the i-th value, no two names are equal, and the text has no marker left |
| `MarkerBinding.RequestSpells` | sqlx-mssql-rs-core/src/connection.rs:511-547 | The text of a request character by character: without arguments the statement; with some, every character in its turn, a code-mode `?` as its name and any other as itself, and nothing else |
| `MarkerBinding.RequestBinds` | sqlx-mssql-rs-core/src/connection.rs:511-547 | In a request that is built, the name of each parameter stands as a whole name in code at its own marker and nowhere else if and only if every marker stands alone and the code of the statement has none of these names itself |
| `MarkerBinding.BoundExactlyWhenApart` | sqlx-mssql-rs-core/src/param_markers.rs:15-67 | The same of the rewriting, for every statement and every class of name characters that has those of `@P1` |
| `MarkerBinding.OwnNameBound` | sqlx-mssql-rs-core/src/param_markers.rs:51-57 | `@P1=?` becomes `@P1=@P1`: the name that the statement uses itself takes the first argument |
| `MarkerBinding.WholeNameIsRun` | sqlx-mssql-rs-core/src/param_markers.rs:51-57 | A whole name at a position is the longest run of name characters there |
| `InferParameters.ArrivalOrderIrrelevant` | sqlx-mssql-rs-core/src/connection.rs:403-439 | Rows with distinct ordinals give the same declarations and types in every arrival order |
| `InferParameters.TypesMatchDeclarations` | sqlx-mssql-rs-core/src/connection.rs:425-438 | Types are reported if and only if each is known, one per declaration and in its position |
| `InferParameters.SortOrders` | sqlx-mssql-rs-core/src/connection.rs:417-419 | Sorting orders by ordinal and neither loses nor adds a parameter |
| `DeclarationText.DeclarationsRead` | sqlx-mssql-rs-core/src/connection.rs:403-437 | For rows with distinct ordinals, splitting the declaration list at `, ` and each part at its first blank gives each name and type back at the place of its ordinal; missing names and types read as their defaults |
| `DeclarationText.TypesRead` | sqlx-mssql-rs-core/src/connection.rs:425-438 | Types are reported if and only if all are known, each at the place of its ordinal |
| `InferParameters.InferFrom` | sqlx-mssql-rs-core/src/connection.rs:403-440 | The collecting loop, the sort and the reporting loop compute the result that `DeclarationText` reads |
| `InferParameters.Declare` | sqlx-mssql-rs-core/src/connection.rs:421-439 | The loop declares each parameter in turn, as `DeclarationText` reads it, and drops all types when one is unknown |
| `ParamMarkers.RewriteParamMarkers` | sqlx-mssql-rs-core/src/param_markers.rs:15-67 | The region-skipping scan refines the character automaton on every input: exactly the code-mode `?` are replaced, numbered in source order, all other text is verbatim, and the count is returned |
| `ParamMarkers.CopyQuoted` | sqlx-mssql-rs-core/src/param_markers.rs:78-105 | Copies a region up to its closing delimiter, or to the end of the input, past every doubled delimiter |
| `ParamMarkers.QuotedCopied` | sqlx-mssql-rs-core/src/param_markers.rs:78-105 | In the automaton, such a region is copied whole and scanning goes on in code |
| `ParamMarkers.LineCopied` | sqlx-mssql-rs-core/src/param_markers.rs:25-31 | Likewise a line comment, up to its line break or the end of the input |
| `ParamMarkers.BlockCopied` | sqlx-mssql-rs-core/src/param_markers.rs:34-40 | Likewise a block comment, up to the first `*/` |
| `MarkerProperties.RewriteCounts` | sqlx-mssql-rs-core/src/param_markers.rs:15-67 | The count is the number of code-mode markers, and the text grows by one character and the digits of its number for each |
| `MarkerProperties.RewriteIdempotent` | sqlx-mssql-rs-core/src/param_markers.rs:15-67 | A second pass, with any starting count, changes nothing |
| `MarkerProperties.UndoRewrite` | sqlx-mssql-rs-core/src/param_markers.rs:15-67 | A statement is recovered from its rewriting by reading each code-mode `@` as the next name if and only if it has no code-mode `@` itself |
| `MarkerProperties.RewriteInjective` | sqlx-mssql-rs-core/src/param_markers.rs:15-67 | No other statement is rewritten to the same text if and only if the statement has no marker and the text `@P1` stands nowhere in its code |
| `MarkerProperties.UndoneApart` | sqlx-mssql-rs-core/src/param_markers.rs:15-67 | In particular, two statements that can be recovered are never rewritten to the same text |
| `MarkerProperties.CodeAtCollides` | sqlx-mssql-rs-core/src/param_markers.rs:51-57 | For every statement without a marker in whose code `@P1` stands, another with a marker that is rewritten to the same text |
| `MarkerProperties.MarkersCollide` | sqlx-mssql-rs-core/src/param_markers.rs:51-57 | Every statement with a marker differs from its rewriting and is rewritten to the same text as that |
| `MarkerProperties.SubstitutedNames` | sqlx-mssql-rs-core/src/param_markers.rs:51-57 | The names substituted are `@P1`, `@P2`, ... in source order |
| `MarkerNames.NameStandsAlone` | sqlx-mssql-rs-core/src/param_markers.rs:51-57 | At any marker of any statement, and for any class of name characters that has those of `@P1`: the longest name of the rewritten code there is the substituted one if and only if neither neighbour of the marker is a code character that continues a name or is a marker |
| `MarkerNames.NameOfMarker` | sqlx-mssql-rs-core/src/param_markers.rs:51-57 | The name at a marker is the one in its place in the list of substituted names |
| `MarkerNames.RunIsLongest` | sqlx-mssql-rs-core/src/param_markers.rs:51-57 | The run compared with is all name characters in code and cannot be made longer |
| `MarkerNames.LetterBeforeJoins` | sqlx-mssql-rs-core/src/param_markers.rs:51-57 | `x?` becomes `x@P1`, one run of name characters |
| `MarkerNames.AccentedLetterJoins` | sqlx-mssql-rs-core/src/param_markers.rs:51-57 | A marker followed by a letter outside ASCII joins with it as well |
| `NestedComments.AgreesWithNesting` | sqlx-mssql-rs-core/src/param_markers.rs:34-40 | For every statement, the rewriter and an automaton that nests block comments as T-SQL does agree on which characters are code if and only if no block comment that the rewriter closes before the end of the text has an opening mark in it |
| `NestedComments.MarkersAreTsqlMarkers` | sqlx-mssql-rs-core/src/param_markers.rs:9-10 | For those statements, exactly the `?` of T-SQL code are replaced |
| `NestedComments.NestedMarkerReplaced` | sqlx-mssql-rs-core/src/param_markers.rs:34-40 | The failing input: `/*/**/?*/` has a marker replaced that T-SQL reads inside a comment |
| `Migrate.InsertLexes` | sqlx-mssql-rs-core/src/migrate.rs:77-100 | For every table name, description, text and checksum, the recording statement lexes as fixed code, with the columns, their order and the `no_tx` digit written out, around exactly those texts, one literal each and no comment anywhere; the marker scan passes it through with count unchanged |
| `SchemaSql.CreateSchemaLexes` | sqlx-mssql-rs-core/src/migrate.rs:170-178 | The statement that creates a schema lexes as fixed code around the name and the inner statement if and only if the name has no quote |
| `SchemaSql.SchemaBatchLexes` | sqlx-mssql-rs-core/src/migrate.rs:176-178 | The inner statement itself lexes as fixed code around the name, whatever the name |
| `SchemaSql.RawQuoted` | sqlx-mssql-rs-core/src/migrate.rs:174-178 | Text put between quotes without escaping is the content of the string if and only if it has no quote |
| `Migrate.UnquoteDoubled` | sqlx-mssql-rs-core/src/migrate.rs:34-41 | A value with its delimiter doubled is read back whole, and its region ends where it should |
| `Migrate.ScanDoubled` | sqlx-mssql-rs-core/src/migrate.rs:34-41 | The marker scan copies such a region verbatim and is back in code after it |
| `Migrate.TableStep` | sqlx-mssql-rs-core/src/migrate.rs:62-74 | A table name lexes as one bracketed name, or two around a dot, with the parts as contents |
| `Migrate.SplitJoins` | sqlx-mssql-rs-core/src/migrate.rs:54-59 | The split cuts at the first dot and loses nothing else |
| `Migrate.FormatHex` | sqlx-mssql-rs-core/src/migrate.rs:44-51 | The loop writes `0x` and two upper-case digits per byte |
| `Migrate.HexRoundTrip` | sqlx-mssql-rs-core/src/migrate.rs:44-51 | The digits name exactly the given bytes |
| `Decimals.ValueOfIntText` | sqlx-mssql-rs-core/src/migrate.rs:88-93 | The version is written as a sign, if it is negative, and its digits |
| `Calendar.CivilOfUnixDays` | sqlx-mssql-rs-core/src/types/jiff.rs:33-72 | Every valid date, of any integer year, is recovered from its day number |
| `Calendar.UnixDaysOfCivil` | sqlx-mssql-rs-core/src/types/jiff.rs:49-72 | Every integer is mapped to a valid Gregorian date, of which it is the day number |
| `Calendar.NextDayIsOneMore` | sqlx-mssql-rs-core/src/types/jiff.rs:33-46 | The next calendar day, over month ends and leap years, has the next day number |
| `Calendar.UnixDaysMonotone` | sqlx-mssql-rs-core/src/types/jiff.rs:33-46 | Earlier dates have smaller day numbers |
| `Calendar.EpochIsDayZero` | sqlx-mssql-rs-core/src/types/jiff.rs:28-46 | 1970-01-01 is day zero |
| `Calendar.LeapDay2000` | sqlx-mssql-rs-core/src/types/jiff.rs:33-46 | 2000-02-29 is a day, with its known number |
| `Calendar.NoLeapDay1900` | sqlx-mssql-rs-core/src/types/jiff.rs:33-46 | 1900 has none: the day after 28 February, with its known number, is 1 March |
| `DateTime2.FirstDay` | sqlx-mssql-rs-core/src/types/jiff.rs:18-20 | The constant that shifts day numbers is the day number of 0001-01-01, negated |
| `DateTime2.DateRoundTrip` | sqlx-mssql-rs-core/src/types/jiff.rs:74-80 | A date is encoded if and only if it is not before 0001-01-01, and decodes to itself |
| `DateTime2.DaysRoundTrip` | sqlx-mssql-rs-core/src/types/jiff.rs:74-80 | A day count is decoded if and only if it is at most that of 9999-12-31, and encodes to itself |
| `DateTime2.TimeOfNanos` | sqlx-mssql-rs-core/src/types/jiff.rs:82-104 | Every time of day is recovered from its nanoseconds |
| `DateTime2.NanosOfTime` | sqlx-mssql-rs-core/src/types/jiff.rs:91-104 | A nanosecond count is a time of day if and only if it is below 24 hours |
| `DateTime2.TicksTruncate` | sqlx-mssql-rs-core/src/types/mod.rs:30-38 | Ticks and back is truncation to 100 nanoseconds |
| `DateTime2.CivilRoundTrip` | sqlx-mssql-rs-core/src/types/jiff.rs:115-136 | Encoding fails exactly before 0001-01-01, and otherwise decodes to the value truncated to 100 nanoseconds |
| `DateTime2.SqlRoundTrip` | sqlx-mssql-rs-core/src/types/jiff.rs:115-136 | Decoding fails exactly past 9999-12-31 or for a tick count of a day or more, and what it gives encodes to the same value |
| `DateTime2.EncodingKeepsOrder` | sqlx-mssql-rs-core/src/types/jiff.rs:115-120 | Encoded values are ordered as the moments are |
| `DateTime2.EncodingSeparates` | sqlx-mssql-rs-core/src/types/jiff.rs:115-120 | Two moments get the same encoding if and only if they lie in the same tick of the same day |
| `DateTime2.SentInFigures` | sqlx-mssql-rs-core/src/types/jiff.rs:106-120 | The days and ticks that are sent, in figures: 719162 more than the day number, and ten million ticks a second |

## Left out

- Allocation failure in `Vec::with_capacity` for a huge declared count, and overflow of `usize` positions in the reader: every read is of unbounded size here.
- Strings are sequences of characters; the UTF-8 offsets with which the rewriter steps are not modelled.
- `Rect::to_polygon` and `Triangle::to_polygon` of `geo-types`: a rectangle or triangle is given by the ring they return.
- Overflow of 64-bit day arithmetic: the driver calls it only with days that a `u32` or a library date gives.
- The library's own range checks are modelled by its documented ranges (years -9999 to 9999, hours 0 to 23 and so on).
- The loop over the rows of one result set, the loops over table rows and the loops over the children of multi-geometries are methods of their own, called from the places where the source has them in line; `str::find` is a recursive function and `sort_by_key` a stable insertion sort.
- Row streams: a caller is a number of polls; reading starts at the first poll. A stream that is leaked instead of dropped is not modelled.
- A failed `execute` leaves no response; statements that themselves begin, commit or roll back are not modelled.
- The type table behind `from_system_type_name` is a parameter of `InferParameters.Infer` and the rows that the server returns are an input.
- `query_rows`, `collect_rows`, `execute_simple`, `ping` and lock helpers repeat the drain, execute, read and close steps of `exec_sql`.
- `describe_statement`, column metadata and row values: library plumbing.
- The other migration statements (databases, table creation, listing, deletion, locks): fixed text around single names and values quoted by the functions modelled here.
- `MssqlGeometry` and `MssqlGeography` themselves, the WKB mapping of `Geometry<f64>` and the serde shapes: the work is done in other crates.
- Timestamps, zoned and offset date-times of `jiff`, and `chrono.rs` and `time.rs`: instants come from the libraries.
- `type_info.rs`, `arguments.rs`, `value.rs`, `options.rs`, `row.rs`: finite tables and lookups that would add only easy members.
- The TDS client, TLS, login, pooling, asynchrony, logging, the command line and the macros.
