/** The declaration list as the server reads it: split at `", "`, and each part at
    its first blank. */
module DeclarationText {
  import opened Common
  import opened Decimals
  import opened InferParameters

  // ----- A reader

  function FindSeparator(text: string): (at: Option<nat>)
    ensures at.Some? ==> at.value + 2 <= |text| && text[at.value] == ',' && text[at.value + 1] == ' '
  {
    if |text| < 2 then None
    else if text[0] == ',' && text[1] == ' ' then Some(0)
    else
      var rest := FindSeparator(text[1..]);
      if rest.None? then None else Some(rest.value + 1)
  }

  /** The parts between separators; the empty text has none. */
  function Parts(text: string): seq<string>
    decreases |text|
  {
    if text == "" then []
    else
      var at := FindSeparator(text);
      if at.None? then [text]
      else
        var rest := text[at.value + 2..];
        [text[..at.value]] + (if rest == "" then [""] else Parts(rest))
  }

  /** A part's name, up to its first blank, and its type, after it. */
  function NameAndType(part: string): (string, string) {
    if part == "" then ("", "")
    else if part[0] == ' ' then ("", part[1..])
    else
      var (name, typeName) := NameAndType(part[1..]);
      ([part[0]] + name, typeName)
  }

  function ReadParts(parts: seq<string>): seq<(string, string)> {
    if parts == [] then [] else [NameAndType(parts[0])] + ReadParts(parts[1..])
  }

  function ReadDeclarations(text: string): seq<(string, string)> {
    ReadParts(Parts(text))
  }

  // ----- What the rows say

  function OrdinalOf(row: MetaRow): int {
    if row.ordinal.Some? then row.ordinal.value else 0
  }

  function NameOf(row: MetaRow): string {
    if row.name.Some? then row.name.value else "@P" + IntText(OrdinalOf(row))
  }

  function TypeOf(row: MetaRow): string {
    if row.typeName.Some? then row.typeName.value else "nvarchar(4000)"
  }

  /** The number of rows with a smaller ordinal. */
  function Rank(rows: seq<MetaRow>, ordinal: int): nat {
    if rows == [] then 0 else (if OrdinalOf(rows[0]) < ordinal then 1 else 0) + Rank(rows[1..], ordinal)
  }

  predicate OrdinalsDiffer(rows: seq<MetaRow>) {
    forall i, j :: 0 <= i < j < |rows| ==> OrdinalOf(rows[i]) != OrdinalOf(rows[j])
  }

  predicate NoBlank(text: string) {
    forall i :: 0 <= i < |text| ==> text[i] != ' '
  }

  predicate NoSeparator(text: string) {
    forall i :: 0 <= i < |text| - 1 ==> !(text[i] == ',' && text[i + 1] == ' ')
  }

  /** A name without blanks that does not end in a comma, and a type without the
      separator. */
  predicate Readable(name: string, typeName: string) {
    NoBlank(name) && (name == "" || name[|name| - 1] != ',') && NoSeparator(typeName)
  }

  // ----- Reading what was joined

  lemma {:induction false} FindAfter(part: string, rest: string)
    requires NoSeparator(part)
    ensures FindSeparator(part + ", " + rest) == Some(|part|)
  {
    var text := part + ", " + rest;
    if part != "" {
      FindAfter(part[1..], rest);
      assert text[1..] == part[1..] + ", " + rest;
      assert text[0] == part[0] && text[1] == if |part| > 1 then part[1] else ',';
    }
  }

  lemma {:induction false} FindNone(part: string)
    requires NoSeparator(part)
    ensures FindSeparator(part).None?
  {
    if part != "" {
      FindNone(part[1..]);
    }
  }

  predicate AllNoSeparator(parts: seq<string>) {
    forall i :: 0 <= i < |parts| ==> NoSeparator(parts[i]) && parts[i] != ""
  }

  lemma {:induction false} PartsOfJoin(parts: seq<string>)
    requires AllNoSeparator(parts)
    ensures Parts(Join(parts)) == parts
  {
    if |parts| == 1 {
      FindNone(parts[0]);
      assert parts == [parts[0]];
    } else if |parts| > 1 {
      var rest := Join(parts[1..]);
      PartsOfJoin(parts[1..]);
      FindAfter(parts[0], rest);
      JoinNotEmpty(parts[1..]);
      FirstPart(parts[0], rest);
      assert parts == [parts[0]] + parts[1..];
    }
  }

  lemma {:induction false} FirstPart(part: string, rest: string)
    requires FindSeparator(part + ", " + rest) == Some(|part|) && rest != ""
    ensures Parts(part + ", " + rest) == [part] + Parts(rest)
  {
    var text := part + ", " + rest;
    assert text[..|part|] == part && text[|part| + 2..] == rest;
  }

  lemma {:induction false} JoinNotEmpty(parts: seq<string>)
    requires parts != [] && parts[0] != ""
    ensures Join(parts) != ""
  {}

  lemma {:induction false} NameFirst(name: string, typeName: string)
    requires NoBlank(name)
    ensures NameAndType(name + " " + typeName) == (name, typeName)
  {
    var part := name + " " + typeName;
    if name == "" {
      assert part[1..] == typeName;
    } else {
      NameFirst(name[1..], typeName);
      assert part[1..] == name[1..] + " " + typeName;
      assert [name[0]] + name[1..] == name;
    }
  }

  lemma {:induction false} PartHasNoSeparator(name: string, typeName: string)
    requires Readable(name, typeName)
    ensures NoSeparator(name + " " + typeName)
  {
    var part := name + " " + typeName;
    forall i | 0 <= i < |part| - 1 ensures !(part[i] == ',' && part[i + 1] == ' ') {
      if i > |name| {
        assert part[i] == typeName[i - |name| - 1] && part[i + 1] == typeName[i - |name|];
      }
    }
  }

  /** Sorted parameters are read back, name and type in place. */
  lemma {:induction false} ParametersReadBack(ps: seq<Parameter>)
    requires forall i :: 0 <= i < |ps| ==> Readable(ps[i].name, ps[i].typeName)
    ensures var read := ReadDeclarations(Join(Declarations(ps)));
            |read| == |ps| && forall i :: 0 <= i < |ps| ==> read[i] == (ps[i].name, ps[i].typeName)
  {
    DeclarationParts(ps);
    PartsOfJoin(Declarations(ps));
    PartsReadBack(ps);
  }

  lemma {:induction false} DeclarationParts(ps: seq<Parameter>)
    requires forall i :: 0 <= i < |ps| ==> Readable(ps[i].name, ps[i].typeName)
    ensures AllNoSeparator(Declarations(ps))
  {
    if ps != [] {
      DeclarationParts(ps[1..]);
      PartHasNoSeparator(ps[0].name, ps[0].typeName);
    }
  }

  lemma {:induction false} PartsReadBack(ps: seq<Parameter>)
    requires forall i :: 0 <= i < |ps| ==> Readable(ps[i].name, ps[i].typeName)
    ensures var read := ReadParts(Declarations(ps));
            |read| == |ps| && forall i :: 0 <= i < |ps| ==> read[i] == (ps[i].name, ps[i].typeName)
  {
    if ps != [] {
      NameFirst(ps[0].name, ps[0].typeName);
      PartsReadBack(ps[1..]);
      assert forall i :: 1 <= i < |ps| ==> ps[i] == ps[1..][i - 1];
    }
  }

  // ----- The place of a row

  function Below(ps: seq<Parameter>, ordinal: int): nat {
    if ps == [] then 0 else (if ps[0].ordinal < ordinal then 1 else 0) + Below(ps[1..], ordinal)
  }

  lemma {:induction false} BelowInsert(p: Parameter, sorted: seq<Parameter>, ordinal: int)
    ensures Below(Insert(p, sorted), ordinal) == (if p.ordinal < ordinal then 1 else 0) + Below(sorted, ordinal)
  {
    if sorted != [] && sorted[0].ordinal < p.ordinal {
      BelowInsert(p, sorted[1..], ordinal);
      assert Insert(p, sorted)[1..] == Insert(p, sorted[1..]);
    }
  }

  lemma {:induction false} BelowSort(ps: seq<Parameter>, ordinal: int)
    ensures Below(Sort(ps), ordinal) == Below(ps, ordinal)
  {
    if ps != [] {
      BelowSort(ps[1..], ordinal);
      BelowInsert(ps[0], Sort(ps[1..]), ordinal);
    }
  }

  lemma {:induction false} BelowRows(rows: seq<MetaRow>, ordinal: int)
    ensures Below(Parameters(rows), ordinal) == Rank(rows, ordinal)
  {
    if rows != [] {
      BelowRows(rows[1..], ordinal);
    }
  }

  /** In an ordered list without ties a parameter stands after exactly those with
      smaller ordinals. */
  lemma {:induction false} PlaceIsBelow(ps: seq<Parameter>, k: nat)
    requires Ordered(ps) && DistinctOrdinals(ps) && k < |ps|
    ensures Below(ps, ps[k].ordinal) == k
  {
    if k == 0 {
      NoneBelow(ps, ps[0].ordinal);
    } else {
      PlaceIsBelow(ps[1..], k - 1);
    }
  }

  lemma {:induction false} NoneBelow(ps: seq<Parameter>, ordinal: int)
    requires forall i :: 0 <= i < |ps| ==> ordinal <= ps[i].ordinal
    ensures Below(ps, ordinal) == 0
  {
    if ps != [] {
      NoneBelow(ps[1..], ordinal);
    }
  }

  lemma {:induction false} DistinctKept(ps: seq<Parameter>, qs: seq<Parameter>)
    requires multiset(ps) == multiset(qs) && DistinctOrdinals(ps)
    ensures DistinctOrdinals(qs)
  {
    forall i, j | 0 <= i < j < |qs| ensures qs[i].ordinal != qs[j].ordinal {
      if qs[i].ordinal == qs[j].ordinal {
        TwoAlike(ps, qs, i, j);
        assert false;
      }
    }
  }

  /** Two elements with one ordinal would be two in any arrangement. */
  lemma {:induction false} TwoAlike(ps: seq<Parameter>, qs: seq<Parameter>, i: nat, j: nat)
    requires multiset(ps) == multiset(qs) && i < j < |qs| && qs[i].ordinal == qs[j].ordinal
    ensures !DistinctOrdinals(ps)
  {
    Apart(qs, i);
    var a := RemoveOne([qs[i]] + Without(qs, i), ps);
    assert ([qs[i]] + Without(qs, i))[1..] == Without(qs, i);
    var rest := Without(ps, a);
    assert Without(qs, i)[j - 1] == qs[j];
    assert qs[j] in multiset(Without(qs, i));
    assert qs[j] in multiset(rest);
    var b :| 0 <= b < |rest| && rest[b] == qs[j];
    assert rest[b] == ps[if b < a then b else b + 1];
  }

  lemma {:induction false} Apart(qs: seq<Parameter>, i: nat)
    requires i < |qs|
    ensures multiset([qs[i]] + Without(qs, i)) == multiset(qs)
  {
    assert qs == qs[..i] + ([qs[i]] + qs[i + 1..]);
  }

  lemma {:induction false} Position(ps: seq<Parameter>, sorted: seq<Parameter>, i: nat) returns (k: nat)
    requires multiset(ps) == multiset(sorted) && i < |ps|
    ensures k < |sorted| && sorted[k] == ps[i]
  {
    assert ps[i] in multiset(ps);
    assert ps[i] in multiset(sorted);
    k :| 0 <= k < |sorted| && sorted[k] == ps[i];
  }

  /** Sorting puts each row at the place that its ordinal gives it. */
  lemma {:induction false} SortedPlaces(rows: seq<MetaRow>)
    requires OrdinalsDiffer(rows)
    ensures var sorted := Sort(Parameters(rows));
            && |sorted| == |rows|
            && forall i :: 0 <= i < |rows| ==>
                 var place := Rank(rows, OrdinalOf(rows[i]));
                 place < |sorted| && sorted[place] == Parameter(OrdinalOf(rows[i]), NameOf(rows[i]), TypeOf(rows[i]))
  {
    var ps := Parameters(rows);
    var sorted := Sort(ps);
    ParametersAt(rows);
    SortOrders(ps);
    assert |sorted| == |multiset(sorted)| == |multiset(ps)| == |ps|;
    DistinctKept(ps, sorted);
    forall i | 0 <= i < |rows|
      ensures var place := Rank(rows, OrdinalOf(rows[i]));
              place < |sorted| && sorted[place] == ParameterOf(rows[i])
    {
      var k := Position(ps, sorted, i);
      PlaceIsBelow(sorted, k);
      BelowSort(ps, sorted[k].ordinal);
      BelowRows(rows, sorted[k].ordinal);
    }
  }

  /** Every sorted parameter is some row's. */
  lemma {:induction false} SourceRow(rows: seq<MetaRow>, k: nat) returns (i: nat)
    requires k < |Sort(Parameters(rows))|
    ensures i < |rows|
    ensures Sort(Parameters(rows))[k] == Parameter(OrdinalOf(rows[i]), NameOf(rows[i]), TypeOf(rows[i]))
  {
    var ps := Parameters(rows);
    ParametersAt(rows);
    SortOrders(ps);
    i := Position(Sort(ps), ps, k);
    assert ps[i] == ParameterOf(rows[i]);
  }

  // ----- Main results

  /** For rows with distinct ordinals, in any order: reading the declaration list
      gives one entry per row, and each row's name and type at its ordinal's
      place. A missing name reads as `@P` and the ordinal, a missing type as
      `nvarchar(4000)`. */
  lemma {:induction false} DeclarationsRead<T>(rows: seq<MetaRow>, known: string -> Option<T>)
    requires OrdinalsDiffer(rows)
    requires forall i :: 0 <= i < |rows| ==> Readable(NameOf(rows[i]), TypeOf(rows[i]))
    ensures var read := ReadDeclarations(Infer(rows, known).declarations);
            && |read| == |rows|
            && forall i :: 0 <= i < |rows| ==>
                 var place := Rank(rows, OrdinalOf(rows[i]));
                 place < |read| && read[place] == (NameOf(rows[i]), TypeOf(rows[i]))
  {
    var ps := Parameters(rows);
    var sorted := Sort(ps);
    ParametersAt(rows);
    SortOrders(ps);
    assert |sorted| == |multiset(sorted)| == |multiset(ps)| == |ps|;
    DistinctKept(ps, sorted);
    forall k | 0 <= k < |sorted| ensures Readable(sorted[k].name, sorted[k].typeName) {
      var i := Position(sorted, ps, k);
      assert ps[i] == ParameterOf(rows[i]);
    }
    ParametersReadBack(sorted);
    forall i | 0 <= i < |rows|
      ensures var place := Rank(rows, OrdinalOf(rows[i]));
              place < |sorted| && sorted[place] == ParameterOf(rows[i])
    {
      var k := Position(ps, sorted, i);
      PlaceIsBelow(sorted, k);
      BelowSort(ps, sorted[k].ordinal);
      BelowRows(rows, sorted[k].ordinal);
    }
  }

  /** Types are reported exactly when every row's type is known, one per row and
      each at its ordinal's place. */
  lemma {:induction false} TypesRead<T>(rows: seq<MetaRow>, known: string -> Option<T>)
    requires OrdinalsDiffer(rows)
    ensures var types := Infer(rows, known).types;
            && (types.Some? <==> forall i :: 0 <= i < |rows| ==> known(TypeOf(rows[i])).Some?)
            && (types.Some? ==>
                  && |types.value| == |rows|
                  && forall i :: 0 <= i < |rows| ==>
                       var place := Rank(rows, OrdinalOf(rows[i]));
                       place < |types.value| && known(TypeOf(rows[i])) == Some(types.value[place]))
  {
    var sorted := Sort(Parameters(rows));
    SortedPlaces(rows);
    TypesMatchDeclarations(sorted, known);
    if forall i :: 0 <= i < |rows| ==> known(TypeOf(rows[i])).Some? {
      forall k | 0 <= k < |sorted| ensures known(sorted[k].typeName).Some? {
        var i := SourceRow(rows, k);
      }
    }
    if forall k :: 0 <= k < |sorted| ==> known(sorted[k].typeName).Some? {
      forall i | 0 <= i < |rows| ensures known(TypeOf(rows[i])).Some? {
        assert sorted[Rank(rows, OrdinalOf(rows[i]))].typeName == TypeOf(rows[i]);
      }
    }
  }
}
