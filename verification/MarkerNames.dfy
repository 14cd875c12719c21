/** Whether the server reads a substituted name as that name: what stands beside
    the marker can run together with it. */
module MarkerNames {
  import opened Common
  import opened Decimals
  import opened SqlLexer
  import opened MarkerProperties

  /** The characters that continue a T-SQL name, of which more than these are not
      fixed here: letters of any script may be among them. */
  predicate SpellsNames(nameChar: char -> bool) {
    nameChar('@') && nameChar('P') && forall c :: IsDigit(c) ==> nameChar(c)
  }

  // ----- Names in a text

  /** Character `j` of a text is code and continues a name. */
  predicate InName(text: string, nameChar: char -> bool, j: nat) {
    j < |text| && ModeAt(text, Code, j) == Code && nameChar(text[j])
  }

  predicate AllInName(text: string, nameChar: char -> bool, p: nat, q: nat) {
    forall j :: p <= j < q ==> InName(text, nameChar, j)
  }

  function RunStart(text: string, nameChar: char -> bool, p: nat): (start: nat)
    ensures start <= p
  {
    if p > 0 && InName(text, nameChar, p - 1) then RunStart(text, nameChar, p - 1) else p
  }

  function RunEnd(text: string, nameChar: char -> bool, p: nat): (end: nat)
    requires p <= |text|
    ensures p <= end <= |text|
    decreases |text| - p
  {
    if InName(text, nameChar, p) then RunEnd(text, nameChar, p + 1) else p
  }

  /** The longest run of name characters around position `p`. */
  function NameRun(text: string, nameChar: char -> bool, p: nat): string
    requires p <= |text|
  {
    text[RunStart(text, nameChar, p)..RunEnd(text, nameChar, p)]
  }

  /** It consists of name characters and cannot be made longer. */
  lemma {:induction false} RunIsLongest(text: string, nameChar: char -> bool, p: nat)
    requires p <= |text|
    ensures var start, end := RunStart(text, nameChar, p), RunEnd(text, nameChar, p);
            && (forall j :: start <= j < end ==> InName(text, nameChar, j))
            && (start > 0 ==> !InName(text, nameChar, start - 1))
            && !InName(text, nameChar, end)
  {
    StartIsLeast(text, nameChar, p);
    EndIsGreatest(text, nameChar, p);
  }

  lemma {:induction false} StartIsLeast(text: string, nameChar: char -> bool, p: nat)
    ensures var start := RunStart(text, nameChar, p);
            && (forall j :: start <= j < p ==> InName(text, nameChar, j))
            && (start > 0 ==> !InName(text, nameChar, start - 1))
  {
    if p > 0 && InName(text, nameChar, p - 1) {
      StartIsLeast(text, nameChar, p - 1);
    }
  }

  lemma {:induction false} EndIsGreatest(text: string, nameChar: char -> bool, p: nat)
    requires p <= |text|
    ensures var end := RunEnd(text, nameChar, p);
            && (forall j :: p <= j < end ==> InName(text, nameChar, j))
            && !InName(text, nameChar, end)
    decreases |text| - p
  {
    if InName(text, nameChar, p) {
      EndIsGreatest(text, nameChar, p + 1);
    }
  }

  // ----- Where a marker's name goes

  predicate IsMarkerAt(s: string, k: nat) {
    k < |s| && IsMarker(ModeAt(s, Code, k), s[k])
  }

  /** The markers among the first `k` characters. */
  function MarkersBefore(s: string, mode: Mode, k: nat): nat
    requires k <= |s|
    decreases k
  {
    if k == 0 then 0
    else (if IsMarker(mode, s[0]) then 1 else 0) + MarkersBefore(s[1..], Next(mode, s[0], First(s[1..])), k - 1)
  }

  /** What the first `k` characters are rewritten to. */
  function Front(s: string, mode: Mode, n: nat, k: nat): string
    requires k <= |s|
    decreases k
  {
    if k == 0 then []
    else
      var next := Next(mode, s[0], First(s[1..]));
      if IsMarker(mode, s[0]) then ParamName(n + 1) + Front(s[1..], next, n + 1, k - 1)
      else [s[0]] + Front(s[1..], next, n, k - 1)
  }

  /** What character `k` is rewritten to. */
  function Written(s: string, mode: Mode, n: nat, k: nat): string
    requires k < |s|
  {
    if IsMarker(ModeAt(s, mode, k), s[k]) then ParamName(n + MarkersBefore(s, mode, k) + 1) else [s[k]]
  }

  /** The rewriting is that of the first `k` characters and that of the rest. */
  lemma {:induction false} ScanSplit(s: string, mode: Mode, n: nat, k: nat)
    requires k <= |s|
    ensures Scan(s, mode, n).sql ==
            Front(s, mode, n, k) + Scan(s[k..], ModeAt(s, mode, k), n + MarkersBefore(s, mode, k)).sql
    decreases k
  {
    if k > 0 {
      var t, next, n2 := s[1..], Next(mode, s[0], First(s[1..])), if IsMarker(mode, s[0]) then n + 1 else n;
      ScanSplit(t, next, n2, k - 1);
      assert t[k - 1..] == s[k..];
      FrontCons(s, mode, n, k);
      Regroup(Written(s, mode, n, 0), Front(t, next, n2, k - 1),
              Scan(s[k..], ModeAt(t, next, k - 1), n2 + MarkersBefore(t, next, k - 1)).sql);
    }
  }

  lemma {:induction false} ReachableAt(s: string, mode: Mode, k: nat)
    requires k <= |s| && Reachable(mode)
    ensures Reachable(ModeAt(s, mode, k))
    decreases k
  {
    if k > 0 {
      ReachableAt(s[1..], Next(mode, s[0], First(s[1..])), k - 1);
    }
  }

  /** Plain text stays in code. */
  lemma {:induction false} PlainModes(text: string, rest: string, j: nat)
    requires AllPlain(text) && j <= |text|
    ensures ModeAt(text + rest, Code, j) == Code
    decreases j
  {
    if j > 0 {
      assert (text + rest)[1..] == text[1..] + rest;
      PlainModes(text[1..], rest, j - 1);
    }
  }

  /** The character written for character `k` is in the mode of character `k`. */
  lemma {:induction false} ModesKept(s: string, mode: Mode, n: nat, k: nat)
    requires k <= |s| && Reachable(mode)
    ensures Kept(s, mode, n, k)
    decreases k
  {
    if k > 0 {
      var t, next := s[1..], Next(mode, s[0], First(s[1..]));
      if IsMarker(mode, s[0]) {
        ModesKept(t, Code, n + 1, k - 1);
        KeptByMarker(s, n, k);
      } else {
        KeptReachable(s, mode);
        ModesKept(t, next, n, k - 1);
        KeptByChar(s, mode, n, k);
      }
    }
  }

  /** The character written for character `k`, in its mode. */
  predicate Kept(s: string, mode: Mode, n: nat, k: nat)
    requires k <= |s|
  {
    var out, p := Scan(s, mode, n).sql, |Front(s, mode, n, k)|;
    p <= |out| && ModeAt(out, mode, p) == ModeAt(s, mode, k)
  }

  lemma {:induction false} KeptByMarker(s: string, n: nat, k: nat)
    requires 0 < k <= |s| && s[0] == '?' && Kept(s[1..], Code, n + 1, k - 1)
    ensures Kept(s, Code, n, k)
  {
    FrontCons(s, Code, n, k);
    KeptAfterMarker(s, n, |Front(s[1..], Code, n + 1, k - 1)|);
  }

  lemma {:induction false} KeptByChar(s: string, mode: Mode, n: nat, k: nat)
    requires 0 < k <= |s| && Reachable(mode) && !IsMarker(mode, s[0])
    requires Kept(s[1..], Next(mode, s[0], First(s[1..])), n, k - 1)
    ensures Kept(s, mode, n, k)
  {
    FrontCons(s, mode, n, k);
    KeptAfterChar(s, mode, n, |Front(s[1..], Next(mode, s[0], First(s[1..])), n, k - 1)|);
  }

  lemma {:induction false} KeptReachable(s: string, mode: Mode)
    requires s != [] && Reachable(mode)
    ensures Reachable(Next(mode, s[0], First(s[1..])))
  {}

  lemma {:induction false} KeptAfterMarker(s: string, n: nat, j: nat)
    requires s != [] && s[0] == '?' && j <= |Scan(s[1..], Code, n + 1).sql|
    ensures var name, rest := ParamName(n + 1), Scan(s[1..], Code, n + 1).sql;
            Scan(s, Code, n).sql == name + rest && ModeAt(name + rest, Code, |name| + j) == ModeAt(rest, Code, j)
  {
    NameIsPlain(n + 1);
    PlainShift(ParamName(n + 1), Scan(s[1..], Code, n + 1).sql, j);
  }

  lemma {:induction false} PlainShift(text: string, rest: string, j: nat)
    requires AllPlain(text) && j <= |rest|
    ensures ModeAt(text + rest, Code, |text| + j) == ModeAt(rest, Code, j)
  {
    PlainModes(text, rest, |text|);
    ModeSplit(text + rest, Code, |text|, j);
    assert (text + rest)[|text|..] == rest;
  }

  lemma {:induction false} KeptAfterChar(s: string, mode: Mode, n: nat, j: nat)
    requires s != [] && Reachable(mode) && !IsMarker(mode, s[0])
    requires j <= |Scan(s[1..], Next(mode, s[0], First(s[1..])), n).sql|
    ensures var next := Next(mode, s[0], First(s[1..]));
            var rest := Scan(s[1..], next, n).sql;
            Scan(s, mode, n).sql == [s[0]] + rest && ModeAt([s[0]] + rest, mode, 1 + j) == ModeAt(rest, next, j)
  {
    var rest := Scan(s[1..], Next(mode, s[0], First(s[1..])), n).sql;
    NextUnmoved(s, mode, n);
    assert ([s[0]] + rest)[1..] == rest;
  }

  // ----- The two neighbours

  /** The code character before the marker is a name character or a marker. */
  predicate JoinsBefore(s: string, nameChar: char -> bool, k: nat) {
    0 < k <= |s| && ModeAt(s, Code, k - 1) == Code && (nameChar(s[k - 1]) || s[k - 1] == '?')
  }

  /** The character after the marker, which is code, is one or the other. */
  predicate JoinsAfter(s: string, nameChar: char -> bool, k: nat) {
    k + 1 < |s| && (nameChar(s[k + 1]) || s[k + 1] == '?')
  }

  lemma {:induction false} FrontStep(s: string, mode: Mode, n: nat, k: nat)
    requires k < |s|
    ensures Front(s, mode, n, k + 1) == Front(s, mode, n, k) + Written(s, mode, n, k)
    decreases k
  {
    var t, next, n2 := s[1..], Next(mode, s[0], First(s[1..])), if IsMarker(mode, s[0]) then n + 1 else n;
    var first := Written(s, mode, n, 0);
    FrontCons(s, mode, n, k + 1);
    if k == 0 {
      assert first + Front(t, next, n2, 0) == [] + first;
    } else {
      FrontCons(s, mode, n, k);
      FrontStep(t, next, n2, k - 1);
      WrittenLater(s, mode, n, k);
      Regroup(first, Front(t, next, n2, k - 1), Written(s, mode, n, k));
    }
  }

  lemma {:induction false} FrontCons(s: string, mode: Mode, n: nat, k: nat)
    requires 0 < k <= |s|
    ensures var n2 := if IsMarker(mode, s[0]) then n + 1 else n;
            Front(s, mode, n, k) == Written(s, mode, n, 0) + Front(s[1..], Next(mode, s[0], First(s[1..])), n2, k - 1)
  {}

  lemma {:induction false} WrittenLater(s: string, mode: Mode, n: nat, k: nat)
    requires 0 < k < |s|
    ensures var n2 := if IsMarker(mode, s[0]) then n + 1 else n;
            Written(s, mode, n, k) == Written(s[1..], Next(mode, s[0], First(s[1..])), n2, k - 1)
  {}

  /** The name that is substituted for the marker at `k`. */
  function NameAt(s: string, k: nat): string
    requires k <= |s|
  {
    ParamName(MarkersBefore(s, Code, k) + 1)
  }

  /** What is written before the name, the name, and what is written after it. */
  lemma {:induction false} NamePlace(s: string, k: nat)
    requires IsMarkerAt(s, k)
    ensures Scan(s, Code, 0).sql ==
            Front(s, Code, 0, k) + (NameAt(s, k) + Scan(s[k + 1..], Code, MarkersBefore(s, Code, k) + 1).sql)
  {
    ScanSplit(s, Code, 0, k);
    assert s[k..][1..] == s[k + 1..];
  }

  /** Plain text that is entered in code is code throughout, and so is what
      follows it at first. */
  lemma {:induction false} PlainInside(out: string, front: string, name: string, rest: string, j: nat)
    requires out == front + (name + rest) && ModeAt(out, Code, |front|) == Code
    requires AllPlain(name) && j <= |name|
    ensures ModeAt(out, Code, |front| + j) == Code
  {
    assert out[|front|..] == name + rest;
    ModeSplit(out, Code, |front|, j);
    PlainModes(name, rest, j);
  }

  /** The name is written where the marker was, as code. */
  lemma {:induction false} NameModes(s: string, k: nat, j: nat)
    requires IsMarkerAt(s, k) && j <= |NameAt(s, k)|
    ensures |Front(s, Code, 0, k)| + j <= |Scan(s, Code, 0).sql|
    ensures ModeAt(Scan(s, Code, 0).sql, Code, |Front(s, Code, 0, k)| + j) == Code
  {
    NamePlace(s, k);
    ModesKept(s, Code, 0, k);
    NameIsPlain(MarkersBefore(s, Code, k) + 1);
    PlainInside(Scan(s, Code, 0).sql, Front(s, Code, 0, k), NameAt(s, k),
                Scan(s[k + 1..], Code, MarkersBefore(s, Code, k) + 1).sql, j);
  }

  /** An ordinary character before position `k` stands before its rewriting. */
  lemma {:induction false} CharBefore(s: string, k: nat)
    requires k < |s| && !IsMarkerAt(s, k)
    ensures var out, p := Scan(s, Code, 0).sql, |Front(s, Code, 0, k)|;
            && p < |out| && out[p] == s[k] && ModeAt(out, Code, p) == ModeAt(s, Code, k)
            && |Front(s, Code, 0, k + 1)| == p + 1
  {
    ModesKept(s, Code, 0, k);
    FrontStep(s, Code, 0, k);
    ScanSplit(s, Code, 0, k + 1);
  }

  /** What stands before the name. */
  lemma {:induction false} BeforeName(s: string, nameChar: char -> bool, k: nat)
    requires SpellsNames(nameChar) && k <= |s|
    ensures var out, p := Scan(s, Code, 0).sql, |Front(s, Code, 0, k)|;
            p <= |out| && (p > 0 && InName(out, nameChar, p - 1) <==> JoinsBefore(s, nameChar, k))
  {
    if k > 0 {
      if IsMarkerAt(s, k - 1) {
        MarkerJoins(s, nameChar, k - 1);
      } else {
        CharJoins(s, nameChar, k - 1);
      }
    }
  }

  /** A marker's name ends in a digit, and the digit is code. */
  lemma {:induction false} MarkerJoins(s: string, nameChar: char -> bool, k: nat)
    requires SpellsNames(nameChar) && IsMarkerAt(s, k)
    ensures var out, p := Scan(s, Code, 0).sql, |Front(s, Code, 0, k + 1)|;
            0 < p <= |out| && InName(out, nameChar, p - 1)
  {
    FrontStep(s, Code, 0, k);
    NameInside(s, nameChar, k);
  }

  lemma {:induction false} CharJoins(s: string, nameChar: char -> bool, k: nat)
    requires k < |s| && !IsMarkerAt(s, k)
    ensures var out, p := Scan(s, Code, 0).sql, |Front(s, Code, 0, k + 1)|;
            0 < p <= |out| && (InName(out, nameChar, p - 1) <==> ModeAt(s, Code, k) == Code && nameChar(s[k]))
  {
    CharBefore(s, k);
  }

  /** What stands after it. */
  lemma {:induction false} AfterName(s: string, nameChar: char -> bool, k: nat)
    requires SpellsNames(nameChar) && IsMarkerAt(s, k)
    ensures InName(Scan(s, Code, 0).sql, nameChar, |Front(s, Code, 0, k)| + |NameAt(s, k)|) <==>
            JoinsAfter(s, nameChar, k)
  {
    NameModes(s, k, |NameAt(s, k)|);
    NamePlace(s, k);
    FirstOfScan(s[k + 1..], MarkersBefore(s, Code, k) + 1);
    FirstAfter(Scan(s, Code, 0).sql, Front(s, Code, 0, k), NameAt(s, k),
               Scan(s[k + 1..], Code, MarkersBefore(s, Code, k) + 1).sql, nameChar);
  }

  lemma {:induction false} FirstAfter(
    out: string, front: string, name: string, rest: string, nameChar: char -> bool)
    requires out == front + (name + rest) && ModeAt(out, Code, |front| + |name|) == Code
    ensures InName(out, nameChar, |front| + |name|) <==> rest != [] && nameChar(rest[0])
  {
    assert rest != [] ==> out[|front| + |name|] == rest[0];
  }

  lemma {:induction false} FirstOfScan(s: string, n: nat)
    ensures var out := Scan(s, Code, n).sql;
            if s == [] then out == [] else out != [] && out[0] == if s[0] == '?' then '@' else s[0]
  {}

  lemma {:induction false} NameInside(s: string, nameChar: char -> bool, k: nat)
    requires SpellsNames(nameChar) && IsMarkerAt(s, k)
    ensures var out, p := Scan(s, Code, 0).sql, |Front(s, Code, 0, k)|;
            && p + |NameAt(s, k)| <= |out| && out[p..p + |NameAt(s, k)|] == NameAt(s, k)
            && AllInName(out, nameChar, p, p + |NameAt(s, k)|)
  {
    NamePlace(s, k);
    ModesKept(s, Code, 0, k);
    NameIsPlain(MarkersBefore(s, Code, k) + 1);
    StretchInName(Scan(s, Code, 0).sql, Front(s, Code, 0, k), NameAt(s, k),
                  Scan(s[k + 1..], Code, MarkersBefore(s, Code, k) + 1).sql, nameChar);
  }

  lemma {:induction false} StretchInName(
    out: string, front: string, name: string, rest: string, nameChar: char -> bool)
    requires out == front + (name + rest) && ModeAt(out, Code, |front|) == Code && AllPlain(name)
    requires forall j :: 0 <= j < |name| ==> nameChar(name[j])
    ensures |front| + |name| <= |out| && out[|front|..|front| + |name|] == name
    ensures AllInName(out, nameChar, |front|, |front| + |name|)
  {
    forall j | |front| <= j < |front| + |name| ensures InName(out, nameChar, j) {
      PlainInside(out, front, name, rest, j - |front|);
      assert out[j] == name[j - |front|];
    }
  }

  /** A run reaches at least as far as the name characters around it. */
  lemma {:induction false} RunReaches(text: string, nameChar: char -> bool, p: nat, q: nat)
    requires p <= q <= |text| && AllInName(text, nameChar, p, q)
    ensures RunEnd(text, nameChar, p) == RunEnd(text, nameChar, q)
    decreases q - p
  {
    if p < q {
      RunReaches(text, nameChar, p + 1, q);
    }
  }

  /** The run around a stretch of name characters is that stretch exactly when
      none stands at either side of it. */
  lemma {:induction false} RunIsStretch(text: string, nameChar: char -> bool, p: nat, q: nat)
    requires p <= q <= |text| && AllInName(text, nameChar, p, q)
    ensures NameRun(text, nameChar, p) == text[p..q] <==>
            !(p > 0 && InName(text, nameChar, p - 1)) && !InName(text, nameChar, q)
  {
    RunReaches(text, nameChar, p, q);
    var start, end := RunStart(text, nameChar, p), RunEnd(text, nameChar, p);
    assert |text[start..end]| == end - start && |text[p..q]| == q - p;
  }

  /** At any marker of any statement, and for any set of name characters with
      those of the names in it: the longest name that the rewritten statement has
      there is the substituted one exactly when the code character before the
      marker and the one after it are neither name characters nor markers. */
  lemma {:induction false} NameStandsAlone(s: string, nameChar: char -> bool, k: nat)
    requires SpellsNames(nameChar) && IsMarkerAt(s, k)
    ensures var out, p := Scan(s, Code, 0).sql, |Front(s, Code, 0, k)|;
            && p + |NameAt(s, k)| <= |out| && out[p..p + |NameAt(s, k)|] == NameAt(s, k)
            && (NameRun(out, nameChar, p) == NameAt(s, k) <==>
                !JoinsBefore(s, nameChar, k) && !JoinsAfter(s, nameChar, k))
  {
    RunAtName(s, nameChar, k);
    BeforeName(s, nameChar, k);
    AfterName(s, nameChar, k);
  }

  lemma {:induction false} RunAtName(s: string, nameChar: char -> bool, k: nat)
    requires SpellsNames(nameChar) && IsMarkerAt(s, k)
    ensures var out, p, q := Scan(s, Code, 0).sql, |Front(s, Code, 0, k)|, |Front(s, Code, 0, k)| + |NameAt(s, k)|;
            && q <= |out| && out[p..q] == NameAt(s, k)
            && (NameRun(out, nameChar, p) == NameAt(s, k) <==>
                !(p > 0 && InName(out, nameChar, p - 1)) && !InName(out, nameChar, q))
  {
    NameInside(s, nameChar, k);
    RunIsStretch(Scan(s, Code, 0).sql, nameChar, |Front(s, Code, 0, k)|, |Front(s, Code, 0, k)| + |NameAt(s, k)|);
  }

  /** The marker's name is the one that the request gives to its argument. */
  lemma {:induction false} NameOfMarker(s: string, mode: Mode, n: nat, k: nat)
    requires k < |s| && IsMarker(ModeAt(s, mode, k), s[k])
    ensures MarkersBefore(s, mode, k) < |Substituted(s, mode, n)|
    ensures Substituted(s, mode, n)[MarkersBefore(s, mode, k)] == ParamName(n + MarkersBefore(s, mode, k) + 1)
    decreases k
  {
    if k > 0 {
      NameOfMarker(s[1..], Next(mode, s[0], First(s[1..])), if IsMarker(mode, s[0]) then n + 1 else n, k - 1);
    }
  }

  // ----- Two statements whose names do not stand alone

  lemma {:induction false} OneMarker(before: string, after: string)
    requires AllPlain(before) && AllPlain(after)
    ensures Scan(before + ("?" + after), Code, 0) == Rewritten(before + ("@P1" + after), 1)
  {
    PlainCopied(before, "?" + after, 0);
    assert ("?" + after)[1..] == after;
    PlainCopied(after, [], 1);
    assert after + [] == after;
    assert Decimal(1) == "1";
    assert "@P" + Decimal(1) == "@P1";
  }

  lemma {:induction false} PlainRun(text: string, nameChar: char -> bool, p: nat)
    requires p <= |text| && AllPlain(text) && forall j :: 0 <= j < |text| ==> nameChar(text[j])
    ensures NameRun(text, nameChar, p) == text
  {
    assert text + [] == text;
    forall j | 0 <= j < |text| ensures InName(text, nameChar, j) {
      PlainModes(text, [], j);
    }
    RunReaches(text, nameChar, p, |text|);
    StartIsLeast(text, nameChar, p);
  }

  /** `x?`: nothing follows the marker, and the server reads `x@P1`. */
  lemma {:induction false} LetterBeforeJoins(nameChar: char -> bool)
    requires SpellsNames(nameChar) && nameChar('x')
    ensures Scan("x?", Code, 0) == Rewritten("x@P1", 1) && NameRun("x@P1", nameChar, 1) == "x@P1"
  {
    OneMarker("x", "");
    assert "x" + ("?" + "") == "x?" && "x" + ("@P1" + "") == "x@P1";
    PlainRun("x@P1", nameChar, 1);
  }

  /** A letter outside ASCII after the marker joins as any other does. */
  lemma {:induction false} AccentedLetterJoins(nameChar: char -> bool)
    requires SpellsNames(nameChar) && nameChar('\U{E9}')
    ensures Scan("?\U{E9}", Code, 0) == Rewritten("@P1\U{E9}", 1)
    ensures NameRun("@P1\U{E9}", nameChar, 0) == "@P1\U{E9}"
  {
    OneMarker("", "\U{E9}");
    assert "" + ("?" + "\U{E9}") == "?\U{E9}" && "" + ("@P1" + "\U{E9}") == "@P1\U{E9}";
    PlainRun("@P1\U{E9}", nameChar, 0);
  }
}
