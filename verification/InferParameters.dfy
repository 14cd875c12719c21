/** `infer_parameters`: declarations and types from metadata rows in any order. */
module InferParameters {
  import opened Common
  import opened Decimals

  /** One row of `sp_describe_undeclared_parameters`; a column may be missing. */
  datatype MetaRow = MetaRow(ordinal: Option<int>, name: Option<string>, typeName: Option<string>)

  datatype Parameter = Parameter(ordinal: int, name: string, typeName: string)

  function ParameterOf(row: MetaRow): Parameter {
    var ordinal := if row.ordinal.Some? then row.ordinal.value else 0;
    Parameter(ordinal,
              if row.name.Some? then row.name.value else "@P" + IntText(ordinal),
              if row.typeName.Some? then row.typeName.value else "nvarchar(4000)")
  }

  // ----- Sorting by ordinal

  /** Keeps equal ordinals in their old order. */
  function Insert(p: Parameter, sorted: seq<Parameter>): seq<Parameter> {
    if sorted == [] then [p]
    else if p.ordinal <= sorted[0].ordinal then [p] + sorted
    else [sorted[0]] + Insert(p, sorted[1..])
  }

  function Sort(ps: seq<Parameter>): seq<Parameter> {
    if ps == [] then [] else Insert(ps[0], Sort(ps[1..]))
  }

  predicate Ordered(ps: seq<Parameter>) {
    forall i, j :: 0 <= i < j < |ps| ==> ps[i].ordinal <= ps[j].ordinal
  }

  lemma {:induction false} InsertKeeps(p: Parameter, sorted: seq<Parameter>)
    ensures multiset(Insert(p, sorted)) == multiset{p} + multiset(sorted)
  {
    if sorted != [] && sorted[0].ordinal < p.ordinal {
      InsertKeeps(p, sorted[1..]);
      assert sorted == [sorted[0]] + sorted[1..];
    }
  }

  lemma {:induction false} InsertOrdered(p: Parameter, sorted: seq<Parameter>)
    requires Ordered(sorted)
    ensures Ordered(Insert(p, sorted))
    ensures Insert(p, sorted)[0].ordinal ==
            if sorted == [] || p.ordinal <= sorted[0].ordinal then p.ordinal else sorted[0].ordinal
  {
    if sorted != [] && sorted[0].ordinal < p.ordinal {
      InsertOrdered(p, sorted[1..]);
      var rest := Insert(p, sorted[1..]);
      assert forall j :: 0 < j < |rest| ==> rest[0].ordinal <= rest[j].ordinal;
    }
  }

  /** Sorting orders the parameters and neither loses nor adds one. */
  lemma {:induction false} SortOrders(ps: seq<Parameter>)
    ensures Ordered(Sort(ps)) && multiset(Sort(ps)) == multiset(ps)
  {
    if ps != [] {
      SortOrders(ps[1..]);
      InsertOrdered(ps[0], Sort(ps[1..]));
      InsertKeeps(ps[0], Sort(ps[1..]));
      assert ps == [ps[0]] + ps[1..];
    }
  }

  lemma {:induction false} InsertCommutes(p: Parameter, q: Parameter, sorted: seq<Parameter>)
    requires p.ordinal != q.ordinal
    ensures Insert(p, Insert(q, sorted)) == Insert(q, Insert(p, sorted))
  {
    if sorted != [] && sorted[0].ordinal < p.ordinal && sorted[0].ordinal < q.ordinal {
      InsertCommutes(p, q, sorted[1..]);
    }
  }

  predicate DistinctOrdinals(ps: seq<Parameter>) {
    forall i, j :: 0 <= i < j < |ps| ==> ps[i].ordinal != ps[j].ordinal
  }

  function Without<T>(s: seq<T>, i: nat): seq<T>
    requires i < |s|
  {
    s[..i] + s[i + 1..]
  }

  /** Of two arrangements of the same elements, the second holds the first
      element of the first one, and the rest are arrangements of each other. */
  lemma {:induction false} RemoveOne<T>(a: seq<T>, b: seq<T>) returns (i: nat)
    requires a != [] && multiset(a) == multiset(b)
    ensures i < |b| && b[i] == a[0] && multiset(a[1..]) == multiset(Without(b, i))
  {
    assert a[0] in multiset(b);
    i :| 0 <= i < |b| && b[i] == a[0];
    assert a == [a[0]] + a[1..];
    var before, after := b[..i], b[i + 1..];
    assert b == before + ([b[i]] + after);
    assert multiset(b) == multiset(before) + (multiset{b[i]} + multiset(after));
    assert multiset(Without(b, i)) == multiset(before) + multiset(after) == multiset(b) - multiset{b[i]};
    assert multiset(a) == multiset{a[0]} + multiset(a[1..]);
    assert multiset(a[1..]) == multiset(a) - multiset{a[0]};
  }

  /** It does not matter when an element is inserted. */
  lemma {:induction false} SortPicks(ps: seq<Parameter>, i: nat)
    requires i < |ps| && DistinctOrdinals(ps)
    ensures Sort(ps) == Insert(ps[i], Sort(Without(ps, i)))
  {
    if i == 0 {
      assert Without(ps, 0) == ps[1..];
    } else {
      var rest := ps[1..];
      SortPicks(rest, i - 1);
      assert Without(ps, i) == [ps[0]] + Without(rest, i - 1);
      assert Without(ps, i)[1..] == Without(rest, i - 1);
      InsertCommutes(ps[0], ps[i], Sort(Without(rest, i - 1)));
    }
  }

  lemma {:induction false} SamePartsSortAlike(ps: seq<Parameter>, qs: seq<Parameter>)
    requires multiset(ps) == multiset(qs) && DistinctOrdinals(ps) && DistinctOrdinals(qs)
    ensures Sort(ps) == Sort(qs)
  {
    if ps == [] {
      assert |qs| == |multiset(qs)|;
    } else {
      var i := RemoveOne(ps, qs);
      SortPicks(qs, i);
      SamePartsSortAlike(ps[1..], Without(qs, i));
    }
  }

  // ----- Declarations and types

  function Parameters(rows: seq<MetaRow>): seq<Parameter> {
    if rows == [] then [] else [ParameterOf(rows[0])] + Parameters(rows[1..])
  }

  function Declaration(p: Parameter): string {
    p.name + " " + p.typeName
  }

  function Declarations(ps: seq<Parameter>): seq<string> {
    if ps == [] then [] else [Declaration(ps[0])] + Declarations(ps[1..])
  }

  function Join(parts: seq<string>): string {
    if parts == [] then "" else if |parts| == 1 then parts[0] else parts[0] + ", " + Join(parts[1..])
  }

  datatype Inferred<T> = Inferred(declarations: string, types: Option<seq<T>>)

  /** The types, when each parameter's is known; `known` is the driver's type table. */
  function Types<T>(ps: seq<Parameter>, known: string -> Option<T>): Option<seq<T>> {
    if ps == [] then Some([])
    else
      var first, rest := known(ps[0].typeName), Types(ps[1..], known);
      if first.None? || rest.None? then None else Some([first.value] + rest.value)
  }

  function Infer<T>(rows: seq<MetaRow>, known: string -> Option<T>): Inferred<T> {
    var ps := Sort(Parameters(rows));
    Inferred(Join(Declarations(ps)), Types(ps, known))
  }

  /** The types known so far, in front of the rest. */
  function TypesThen<T>(types: seq<T>, rest: Option<seq<T>>): (all: Option<seq<T>>)
    ensures types == [] ==> all == rest
    ensures rest == Some([]) ==> all == Some(types)
  {
    if rest.None? then None
    else
      assert types == [] ==> types + rest.value == rest.value;
      assert rest.value == [] ==> types + rest.value == types;
      Some(types + rest.value)
  }

  lemma {:induction false} TypesThenStep<T>(types: seq<T>, info: T, rest: Option<seq<T>>)
    ensures TypesThen(types + [info], rest) == TypesThen(types, if rest.None? then None else Some([info] + rest.value))
  {
    if rest.Some? {
      assert types + [info] + rest.value == types + ([info] + rest.value);
    }
  }

  method InferFrom<T>(rows: seq<MetaRow>, known: string -> Option<T>) returns (inferred: Inferred<T>)
    ensures inferred == Infer(rows, known)
  {
    var collected: seq<Parameter> := [];
    for i := 0 to |rows|
      invariant rows[0..] == rows
      invariant collected + Parameters(rows[i..]) == Parameters(rows)
    {
      assert rows[i..][1..] == rows[i + 1..];
      collected := collected + [ParameterOf(rows[i])];
    }
    assert collected == Parameters(rows);
    inferred := Declare(Sort(collected), known);
  }

  /** Declares sorted parameters, and collects their types while all are known. */
  method Declare<T>(ps: seq<Parameter>, known: string -> Option<T>) returns (inferred: Inferred<T>)
    ensures inferred == Inferred(Join(Declarations(ps)), Types(ps, known))
  {
    var declarations: seq<string> := [];
    var types: seq<T> := [];
    var everyTypeIsKnown := true;
    for i := 0 to |ps|
      invariant ps[0..] == ps
      invariant declarations + Declarations(ps[i..]) == Declarations(ps)
      invariant Types(ps, known) == if everyTypeIsKnown then TypesThen(types, Types(ps[i..], known)) else None
    {
      assert ps[i..][1..] == ps[i + 1..];
      declarations := declarations + [Declaration(ps[i])];
      match known(ps[i].typeName) {
        case Some(info) =>
          TypesThenStep(types, info, Types(ps[i + 1..], known));
          types := types + [info];
        case None => everyTypeIsKnown := false;
      }
    }
    assert declarations == Declarations(ps);
    inferred := Inferred(Join(declarations), if everyTypeIsKnown then Some(types) else None);
  }

  lemma {:induction false} ParametersAt(rows: seq<MetaRow>)
    ensures |Parameters(rows)| == |rows|
    ensures forall i :: 0 <= i < |rows| ==> Parameters(rows)[i] == ParameterOf(rows[i])
  {
    if rows != [] {
      ParametersAt(rows[1..]);
    }
  }

  lemma {:induction false} ParametersSame(a: seq<MetaRow>, b: seq<MetaRow>)
    requires multiset(a) == multiset(b)
    ensures multiset(Parameters(a)) == multiset(Parameters(b))
  {
    if a == [] {
      assert |b| == |multiset(b)|;
    } else {
      var i := RemoveOne(a, b);
      ParametersSame(a[1..], Without(b, i));
      ParametersWithout(b, i);
      assert Parameters(a) == [ParameterOf(a[0])] + Parameters(a[1..]);
    }
  }

  lemma {:induction false} ParametersWithout(rows: seq<MetaRow>, i: nat)
    requires i < |rows|
    ensures multiset(Parameters(rows)) == multiset{ParameterOf(rows[i])} + multiset(Parameters(Without(rows, i)))
  {
    var before, after := rows[..i], rows[i + 1..];
    assert rows == before + ([rows[i]] + after);
    ParametersJoin(before, after);
    ParametersJoin(before, [rows[i]] + after);
    assert ([rows[i]] + after)[1..] == after;
    assert multiset(Parameters(rows)) ==
           multiset(Parameters(before)) + (multiset{ParameterOf(rows[i])} + multiset(Parameters(after)));
  }

  lemma {:induction false} ParametersJoin(a: seq<MetaRow>, b: seq<MetaRow>)
    ensures Parameters(a + b) == Parameters(a) + Parameters(b)
  {
    if a == [] {
      assert a + b == b;
    } else {
      assert (a + b)[1..] == a[1..] + b;
      ParametersJoin(a[1..], b);
    }
  }

  predicate DistinctRows(rows: seq<MetaRow>) {
    forall i, j :: 0 <= i < j < |rows| ==> ParameterOf(rows[i]).ordinal != ParameterOf(rows[j]).ordinal
  }

  /** The result does not depend on the order in which the rows arrive. */
  lemma {:induction false} ArrivalOrderIrrelevant<T>(a: seq<MetaRow>, b: seq<MetaRow>, known: string -> Option<T>)
    requires multiset(a) == multiset(b) && DistinctRows(a) && DistinctRows(b)
    ensures Infer(a, known) == Infer(b, known)
  {
    ParametersAt(a);
    ParametersAt(b);
    ParametersSame(a, b);
    SamePartsSortAlike(Parameters(a), Parameters(b));
  }

  /** Types are reported for all parameters or for none, each in the position of
      its declaration. */
  lemma {:induction false} TypesMatchDeclarations<T>(ps: seq<Parameter>, known: string -> Option<T>)
    ensures Types(ps, known).Some? <==> forall i :: 0 <= i < |ps| ==> known(ps[i].typeName).Some?
    ensures Types(ps, known).Some? ==>
              && |Types(ps, known).value| == |ps| == |Declarations(ps)|
              && forall i :: 0 <= i < |ps| ==>
                   known(ps[i].typeName) == Some(Types(ps, known).value[i]) && Declarations(ps)[i] == Declaration(ps[i])
  {
    if ps != [] {
      TypesMatchDeclarations(ps[1..], known);
      assert forall i :: 1 <= i < |ps| ==> ps[i] == ps[1..][i - 1];
    }
  }
}
