/** Whether an argument is bound at its marker and nowhere else: the statement may
    use the same names itself. */
module MarkerBinding {
  import opened Common
  import opened Decimals
  import opened SqlLexer
  import opened MarkerProperties
  import opened MarkerNames

  /** `name` stands at `p` in the code of a text, and no longer name does. */
  predicate WholeName(text: string, nameChar: char -> bool, p: nat, name: string) {
    && p + |name| <= |text| && text[p..p + |name|] == name
    && AllInName(text, nameChar, p, p + |name|)
    && !(p > 0 && InName(text, nameChar, p - 1))
    && !InName(text, nameChar, p + |name|)
  }

  /** That is to say: it is the longest name around `p`, and starts there. */
  lemma {:induction false} WholeNameIsRun(text: string, nameChar: char -> bool, p: nat, name: string)
    requires name != []
    ensures WholeName(text, nameChar, p, name) <==>
            && InName(text, nameChar, p)
            && RunStart(text, nameChar, p) == p && NameRun(text, nameChar, p) == name
  {
    if WholeName(text, nameChar, p, name) {
      RunReaches(text, nameChar, p, p + |name|);
    } else if InName(text, nameChar, p) && RunStart(text, nameChar, p) == p && NameRun(text, nameChar, p) == name {
      RunIsLongest(text, nameChar, p);
    }
  }

  function Out(s: string): string {
    Scan(s, Code, 0).sql
  }

  /** Where character `k` is written. */
  function Place(s: string, k: nat): nat
    requires k <= |s|
  {
    |Front(s, Code, 0, k)|
  }

  // ----- The condition

  predicate StandsAlone(s: string, nameChar: char -> bool, k: nat) {
    !JoinsBefore(s, nameChar, k) && !JoinsAfter(s, nameChar, k)
  }

  predicate AllAlone(s: string, nameChar: char -> bool) {
    forall k :: 0 <= k < |s| && IsMarkerAt(s, k) ==> StandsAlone(s, nameChar, k)
  }

  /** The code of the statement has one of the first `n` names of its own. */
  predicate NamedInCode(s: string, nameChar: char -> bool, n: nat) {
    exists q, i :: 0 <= q < |s| && 1 <= i <= n && WholeName(s, nameChar, q, ParamName(i))
  }

  /** Name `i` is the one substituted for a marker, and is written at `p`. */
  predicate WrittenAt(s: string, p: nat, i: nat) {
    exists k :: 0 <= k < |s| && IsMarkerAt(s, k) && p == Place(s, k) && i == MarkersBefore(s, Code, k) + 1
  }

  /** In the request, each name stands where its marker was and nowhere else. */
  ghost predicate BoundAtMarkers(s: string, nameChar: char -> bool, n: nat) {
    forall p: nat, i: nat :: 1 <= i <= n ==> (WholeName(Out(s), nameChar, p, ParamName(i)) <==> WrittenAt(s, p, i))
  }

  // ----- Names at markers

  lemma {:induction false} AloneIsWhole(s: string, nameChar: char -> bool, k: nat)
    requires SpellsNames(nameChar) && IsMarkerAt(s, k)
    ensures WholeName(Out(s), nameChar, Place(s, k), NameAt(s, k)) <==> StandsAlone(s, nameChar, k)
  {
    NameInside(s, nameChar, k);
    BeforeName(s, nameChar, k);
    AfterName(s, nameChar, k);
  }

  lemma {:induction false} MarkerNumber(s: string, k: nat)
    requires IsMarkerAt(s, k)
    ensures MarkersBefore(s, Code, k) < MarkerCount(s, Code)
  {
    NameOfMarker(s, Code, 0, k);
    SubstitutedNames(s, Code, 0);
  }

  /** At one place stands one name. */
  lemma {:induction false} OneName(text: string, nameChar: char -> bool, p: nat, a: string, b: string)
    requires WholeName(text, nameChar, p, a) && WholeName(text, nameChar, p, b)
    ensures a == b
  {
    var afterA: nat, afterB: nat := p + |a|, p + |b|;
    assert |a| < |b| ==> InName(text, nameChar, afterA);
    assert |b| < |a| ==> InName(text, nameChar, afterB);
  }

  // ----- Names elsewhere

  /** No character from `q` up to `k` is a marker. */
  predicate Ordinary(s: string, q: nat, k: nat) {
    k <= |s| && forall j :: q <= j < k ==> !IsMarkerAt(s, j)
  }

  /** Such characters are written one after the other. */
  lemma {:induction false} StretchPlace(s: string, q: nat, k: nat)
    requires q <= k && Ordinary(s, q, k)
    ensures Place(s, k) == Place(s, q) + (k - q) <= |Out(s)|
    decreases k
  {
    if q < k {
      StretchPlace(s, q, k - 1);
      CharBefore(s, k - 1);
    } else {
      ScanSplit(s, Code, 0, q);
    }
  }

  /** They are written as they are, and as the same kind of text. */
  lemma {:induction false} StretchChar(s: string, nameChar: char -> bool, q: nat, k: nat, x: nat)
    requires q <= k && Ordinary(s, q, k) && Place(s, q) <= x < Place(s, q) + (k - q)
    ensures var j := q + (x - Place(s, q));
            && x < |Out(s)| && Out(s)[x] == s[j]
            && (InName(Out(s), nameChar, x) <==> InName(s, nameChar, j))
  {
    var j := q + (x - Place(s, q));
    StretchPlace(s, q, j);
    CharBefore(s, j);
  }

  lemma {:induction false} WholePlace(s: string)
    ensures Place(s, |s|) == |Out(s)|
  {
    ScanSplit(s, Code, 0, |s|);
    assert s[|s|..] == [];
  }

  /** What follows a name character that is no marker's. */
  lemma {:induction false} FollowsAlike(s: string, nameChar: char -> bool, k: nat)
    requires SpellsNames(nameChar) && AllAlone(s, nameChar)
    requires 0 < k <= |s| && InName(s, nameChar, k - 1)
    ensures !IsMarkerAt(s, k)
    ensures InName(Out(s), nameChar, Place(s, k)) <==> InName(s, nameChar, k)
  {
    assert IsMarkerAt(s, k) ==> JoinsBefore(s, nameChar, k);
    assert !IsMarkerAt(s, k);
    if k < |s| {
      CharBefore(s, k);
    } else {
      WholePlace(s);
    }
  }

  /** What stands before an ordinary name character. */
  lemma {:induction false} PrecedesAlike(s: string, nameChar: char -> bool, k: nat)
    requires SpellsNames(nameChar) && AllAlone(s, nameChar) && InName(s, nameChar, k)
    ensures Place(s, k) > 0 && InName(Out(s), nameChar, Place(s, k) - 1) <==> k > 0 && InName(s, nameChar, k - 1)
  {
    BeforeName(s, nameChar, k);
    assert k > 0 && IsMarkerAt(s, k - 1) ==> JoinsAfter(s, nameChar, k - 1);
  }

  predicate NoMark(name: string) {
    name != [] && forall j :: 0 <= j < |name| ==> name[j] != '?'
  }

  /** A name in the statement's own code is a name in the request. */
  lemma {:induction false} CodeNameWritten(s: string, nameChar: char -> bool, q: nat, name: string)
    requires SpellsNames(nameChar) && AllAlone(s, nameChar) && NoMark(name)
    requires WholeName(s, nameChar, q, name)
    ensures WholeName(Out(s), nameChar, Place(s, q), name)
  {
    var end := q + |name|;
    forall j | q <= j < end ensures !IsMarkerAt(s, j) {
      assert s[q..end][j - q] == name[j - q];
    }
    StretchPlace(s, q, end);
    SameStretch(s, nameChar, q, end);
    PrecedesAlike(s, nameChar, q);
    FollowsAlike(s, nameChar, end);
  }

  /** An ordinary stretch of name characters is one in both texts. */
  lemma {:induction false} SameStretch(s: string, nameChar: char -> bool, q: nat, k: nat)
    requires q <= k && Ordinary(s, q, k)
    ensures var p, end := Place(s, q), Place(s, q) + (k - q);
            && end <= |Out(s)| && Out(s)[p..end] == s[q..k]
            && (AllInName(Out(s), nameChar, p, end) <==> AllInName(s, nameChar, q, k))
  {
    StretchPlace(s, q, k);
    var p, end, out := Place(s, q), Place(s, q) + (k - q), Out(s);
    forall x | p <= x < end
      ensures out[x] == s[q + (x - p)] && (InName(out, nameChar, x) <==> InName(s, nameChar, q + (x - p)))
    {
      StretchChar(s, nameChar, q, k, x);
    }
    if AllInName(out, nameChar, p, end) {
      forall j | q <= j < k ensures InName(s, nameChar, j) {
        assert InName(out, nameChar, p + (j - q));
      }
    }
  }

  /** Reading a name of the request from an ordinary character meets no marker. */
  lemma {:induction false} NoMarkerInside(s: string, nameChar: char -> bool, q: nat, length: nat)
    requires SpellsNames(nameChar) && AllAlone(s, nameChar) && q < |s| && !IsMarkerAt(s, q)
    requires AllInName(Out(s), nameChar, Place(s, q), Place(s, q) + length)
    ensures Ordinary(s, q, q + length)
  {
    if length > 1 {
      var k := q + length - 1;
      NoMarkerInside(s, nameChar, q, length - 1);
      StretchPlace(s, q, k);
      StretchChar(s, nameChar, q, k, Place(s, q) + (length - 2));
      FollowsAlike(s, nameChar, k);
      assert InName(Out(s), nameChar, Place(s, k));
    }
  }

  /** A name of the request that starts at an ordinary character is one of the
      statement's own. */
  lemma {:induction false} NameReadBack(s: string, nameChar: char -> bool, q: nat, name: string)
    requires SpellsNames(nameChar) && AllAlone(s, nameChar) && name != []
    requires q < |s| && !IsMarkerAt(s, q) && WholeName(Out(s), nameChar, Place(s, q), name)
    ensures WholeName(s, nameChar, q, name)
  {
    var end := q + |name|;
    NoMarkerInside(s, nameChar, q, |name|);
    SameStretch(s, nameChar, q, end);
    StretchPlace(s, q, end);
    PrecedesAlike(s, nameChar, q);
    FollowsAlike(s, nameChar, end);
  }

  /** Every character of the request is written for one of the statement. */
  lemma {:induction false} Source(s: string, p: nat, k: nat) returns (q: nat)
    requires k <= |s| && p < Place(s, k)
    ensures q < k && Place(s, q) <= p < Place(s, q + 1)
  {
    if p < Place(s, k - 1) {
      q := Source(s, p, k - 1);
    } else {
      q := k - 1;
    }
  }

  /** A name of the request either is a marker's or is the statement's own. */
  lemma {:induction false} NameHasSource(s: string, nameChar: char -> bool, p: nat, name: string) returns (q: nat)
    requires SpellsNames(nameChar) && AllAlone(s, nameChar) && name != []
    requires WholeName(Out(s), nameChar, p, name)
    ensures q < |s| && p == Place(s, q)
    ensures if IsMarkerAt(s, q) then name == NameAt(s, q) else WholeName(s, nameChar, q, name)
  {
    WholePlace(s);
    q := Source(s, p, |s|);
    FrontStep(s, Code, 0, q);
    if IsMarkerAt(s, q) {
      assert Place(s, q + 1) == Place(s, q) + |NameAt(s, q)|;
      MarkerSource(s, nameChar, p, name, q);
    } else {
      assert Place(s, q + 1) == Place(s, q) + 1;
      NameReadBack(s, nameChar, q, name);
    }
  }

  /** A name that starts in a marker's starts where that does, and is that. */
  lemma {:induction false} MarkerSource(s: string, nameChar: char -> bool, p: nat, name: string, q: nat)
    requires SpellsNames(nameChar) && AllAlone(s, nameChar) && IsMarkerAt(s, q)
    requires WholeName(Out(s), nameChar, p, name) && Place(s, q) <= p < Place(s, q) + |NameAt(s, q)|
    ensures p == Place(s, q) && name == NameAt(s, q)
  {
    AloneIsWhole(s, nameChar, q);
    OneName(Out(s), nameChar, p, name, NameAt(s, q));
  }

  // ----- Main result

  lemma {:induction false} BoundIfApart(s: string, nameChar: char -> bool, p: nat, i: nat)
    requires SpellsNames(nameChar) && AllAlone(s, nameChar)
    requires 1 <= i && forall q: nat :: !WholeName(s, nameChar, q, ParamName(i))
    ensures WholeName(Out(s), nameChar, p, ParamName(i)) <==> WrittenAt(s, p, i)
  {
    if WholeName(Out(s), nameChar, p, ParamName(i)) {
      var q := NameHasSource(s, nameChar, p, ParamName(i));
      assert IsMarkerAt(s, q);
      NamesDiffer(i, MarkersBefore(s, Code, q) + 1);
    }
    if WrittenAt(s, p, i) {
      var k :| 0 <= k < |s| && IsMarkerAt(s, k) && p == Place(s, k) && i == MarkersBefore(s, Code, k) + 1;
      AloneIsWhole(s, nameChar, k);
    }
  }

  lemma {:induction false} AloneIfBound(s: string, nameChar: char -> bool, k: nat)
    requires SpellsNames(nameChar) && BoundAtMarkers(s, nameChar, MarkerCount(s, Code)) && IsMarkerAt(s, k)
    ensures StandsAlone(s, nameChar, k)
  {
    MarkerNumber(s, k);
    assert WrittenAt(s, Place(s, k), MarkersBefore(s, Code, k) + 1);
    AloneIsWhole(s, nameChar, k);
  }

  /** A name of the statement's own is not where a marker's is. */
  lemma {:induction false} OwnNameUnwritten(s: string, nameChar: char -> bool, q: nat, i: nat)
    requires SpellsNames(nameChar) && AllAlone(s, nameChar) && WholeName(s, nameChar, q, ParamName(i))
    ensures !WrittenAt(s, Place(s, q), i)
  {
    assert s[q] == ParamName(i)[0] && !IsMarkerAt(s, q);
    forall k | 0 <= k < |s| && IsMarkerAt(s, k) ensures Place(s, q) != Place(s, k) {
      PlacesDiffer(s, q, k);
    }
  }

  lemma {:induction false} PlacesDiffer(s: string, a: nat, b: nat)
    requires a < |s| && b < |s| && a != b
    ensures Place(s, a) != Place(s, b)
  {
    if a < b {
      PlaceGrows(s, a);
      PlacesGrow(s, a + 1, b);
    } else {
      PlaceGrows(s, b);
      PlacesGrow(s, b + 1, a);
    }
  }

  lemma {:induction false} PlaceGrows(s: string, k: nat)
    requires k < |s|
    ensures Place(s, k) < Place(s, k + 1)
  {
    FrontStep(s, Code, 0, k);
  }

  lemma {:induction false} PlacesGrow(s: string, a: nat, b: nat)
    requires a <= b <= |s|
    ensures Place(s, a) <= Place(s, b)
    decreases b
  {
    if a < b {
      PlacesGrow(s, a, b - 1);
      PlaceGrows(s, b - 1);
    }
  }

  /** In the rewritten statement each parameter's name stands, as a whole name in
      code, at its marker and nowhere else, exactly when every marker stands alone
      and the statement's own code has none of the names. */
  lemma {:induction false} BoundExactlyWhenApart(s: string, nameChar: char -> bool)
    requires SpellsNames(nameChar)
    ensures BoundAtMarkers(s, nameChar, MarkerCount(s, Code)) <==>
            AllAlone(s, nameChar) && !NamedInCode(s, nameChar, MarkerCount(s, Code))
  {
    var n := MarkerCount(s, Code);
    if BoundAtMarkers(s, nameChar, n) {
      forall k: nat | IsMarkerAt(s, k) ensures StandsAlone(s, nameChar, k) {
        AloneIfBound(s, nameChar, k);
      }
      forall q: nat, i: nat | 1 <= i <= n && WholeName(s, nameChar, q, ParamName(i)) ensures false {
        CodeNameWritten(s, nameChar, q, ParamName(i));
        OwnNameUnwritten(s, nameChar, q, i);
      }
    }
    if AllAlone(s, nameChar) && !NamedInCode(s, nameChar, n) {
      forall p: nat, i: nat | 1 <= i <= n
        ensures WholeName(Out(s), nameChar, p, ParamName(i)) <==> WrittenAt(s, p, i)
      {
        BoundIfApart(s, nameChar, p, i);
      }
    }
  }

  // ----- The request

  /** Character `k` is written in its turn: a code-mode `?` as the next name, and
      any other as itself. */
  predicate SpelledAt(s: string, text: string, k: nat) {
    && k < |s| && Place(s, k) < Place(s, k + 1) <= |text|
    && text[Place(s, k)..Place(s, k + 1)] ==
       if s[k] == '?' && ModeAt(s, Code, k) == Code then "@P" + Decimal(MarkersBefore(s, Code, k) + 1) else [s[k]]
  }

  /** The text of a request, character by character. Without arguments it is the
      statement. With some, every character is written in its turn from the start
      to the end, and nothing else is. */
  lemma {:induction false} RequestSpells<T>(s: string, arguments: seq<T>)
    requires BuildRequest(s, arguments).Ok?
    ensures arguments == [] ==> BuildRequest(s, arguments).value == (s, [])
    ensures arguments != [] ==>
              var text := BuildRequest(s, arguments).value.0;
              && Place(s, 0) == 0 && Place(s, |s|) == |text|
              && forall k :: 0 <= k < |s| ==> SpelledAt(s, text, k)
  {
    if arguments != [] {
      assert BuildRequest(s, arguments).value.0 == Out(s);
      WholePlace(s);
      forall k | 0 <= k < |s| ensures SpelledAt(s, Out(s), k) {
        CharacterSpelled(s, k);
      }
    }
  }

  lemma {:induction false} CharacterSpelled(s: string, k: nat)
    requires k < |s|
    ensures SpelledAt(s, Out(s), k)
  {
    var front, written := Front(s, Code, 0, k), Written(s, Code, 0, k);
    ScanSplit(s, Code, 0, k + 1);
    FrontStep(s, Code, 0, k);
    Middle(front, written, Scan(s[k + 1..], ModeAt(s, Code, k + 1), MarkersBefore(s, Code, k + 1)).sql);
  }

  lemma {:induction false} Middle(a: string, b: string, c: string)
    ensures (a + b + c)[|a|..|a + b|] == b
  {
    assert a + b == (a + b + c)[..|a + b|];
  }

  /** Each argument's name stands in the request at its own marker only. */
  ghost predicate ArgumentsBound<T>(s: string, text: string, params: seq<Param<T>>, nameChar: char -> bool) {
    forall p: nat, i: nat :: i < |params| ==>
      (WholeName(text, nameChar, p, params[i].name) <==> WrittenAt(s, p, i + 1))
  }

  /** A request binds every argument at its marker and nowhere else under exactly
      that condition on the statement. */
  lemma {:induction false} RequestBinds<T>(s: string, arguments: seq<T>, nameChar: char -> bool)
    requires SpellsNames(nameChar) && arguments != [] && BuildRequest(s, arguments).Ok?
    ensures var (text, params) := BuildRequest(s, arguments).value;
            ArgumentsBound(s, text, params, nameChar) <==>
            AllAlone(s, nameChar) && !NamedInCode(s, nameChar, |arguments|)
  {
    var (text, params) := BuildRequest(s, arguments).value;
    RewriteCounts(s, Code, 0);
    BoundExactlyWhenApart(s, nameChar);
    assert text == Out(s) && forall i :: 0 <= i < |params| ==> params[i].name == ParamName(i + 1);
    if ArgumentsBound(s, text, params, nameChar) {
      forall p: nat, i: nat | 1 <= i <= |params|
        ensures WholeName(Out(s), nameChar, p, ParamName(i)) <==> WrittenAt(s, p, i)
      {
        assert params[i - 1].name == ParamName(i);
      }
    }
  }

  /** `@P1=?`: the statement's own name takes the first argument too. */
  lemma {:induction false} OwnNameBound(nameChar: char -> bool)
    requires SpellsNames(nameChar) && !nameChar('=')
    ensures Scan("@P1=?", Code, 0) == Rewritten("@P1=@P1", 1)
    ensures NamedInCode("@P1=?", nameChar, 1)
  {
    OneMarker("@P1=", "");
    assert "@P1=" + ("?" + "") == "@P1=?" && "@P1=" + ("@P1" + "") == "@P1=@P1";
    assert Decimal(1) == "1";
    assert ParamName(1) == "@P1";
    forall j: nat | j <= 4 ensures ModeAt("@P1=?", Code, j) == Code {
      PlainModes("@P1=", "?", j);
    }
    assert WholeName("@P1=?", nameChar, 0, ParamName(1));
  }
}
