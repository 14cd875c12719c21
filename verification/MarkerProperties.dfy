/** What rewriting does to a statement as a whole, and the request built from it. */
module MarkerProperties {
  import opened Common
  import opened Decimals
  import opened SqlLexer

  /** Characters that stay in code whatever follows them. */
  predicate Plain(c: char) {
    c != '-' && c != '/' && c != '\'' && c != '"' && c != '[' && c != '?'
  }

  predicate AllPlain(s: string) {
    forall i :: 0 <= i < |s| ==> Plain(s[i])
  }

  lemma {:induction false} PlainCopied(text: string, rest: string, n: nat)
    requires AllPlain(text)
    ensures Scan(text + rest, Code, n) == Prefix(text, Scan(rest, Code, n))
  {
    if text == [] {
      assert text + rest == rest;
    } else {
      assert (text + rest)[1..] == text[1..] + rest;
      PlainCopied(text[1..], rest, n);
      PrefixPrefix([text[0]], text[1..], Scan(rest, Code, n));
      assert [text[0]] + text[1..] == text;
    }
  }

  lemma {:induction false} NameIsPlain(n: nat)
    ensures AllPlain(ParamName(n))
  {}

  // ----- Markers

  function MarkerCount(s: string, mode: Mode): nat {
    if s == [] then 0
    else
      (if IsMarker(mode, s[0]) then 1 else 0) + MarkerCount(s[1..], Next(mode, s[0], First(s[1..])))
  }

  /** The total length of the names `@P`n+1 up to `@P`m, less the markers they replace. */
  function Growth(n: nat, m: nat): nat
    requires n <= m
    decreases m - n
  {
    if n == m then 0 else 1 + |Decimal(n + 1)| + Growth(n + 1, m)
  }

  /** Rewriting counts the code-mode markers, and lengthens the statement by one
      character and the digits of its number for each of them. */
  lemma {:induction false} RewriteCounts(s: string, mode: Mode, n: nat)
    ensures Scan(s, mode, n).markers == n + MarkerCount(s, mode)
    ensures |Scan(s, mode, n).sql| == |s| + Growth(n, n + MarkerCount(s, mode))
  {
    if s != [] {
      RewriteCounts(s[1..], Next(mode, s[0], First(s[1..])), if IsMarker(mode, s[0]) then n + 1 else n);
    }
  }

  /** The texts that stand for the markers, in source order. */
  function Substituted(s: string, mode: Mode, n: nat): seq<string> {
    if s == [] then []
    else
      var next := Next(mode, s[0], First(s[1..]));
      if IsMarker(mode, s[0]) then [ParamName(n + 1)] + Substituted(s[1..], next, n + 1)
      else Substituted(s[1..], next, n)
  }

  lemma {:induction false} SubstitutedNames(s: string, mode: Mode, n: nat)
    ensures var names := Substituted(s, mode, n);
            |names| == MarkerCount(s, mode) && forall i :: 0 <= i < |names| ==> names[i] == ParamName(n + i + 1)
  {
    if s != [] {
      SubstitutedNames(s[1..], Next(mode, s[0], First(s[1..])), if IsMarker(mode, s[0]) then n + 1 else n);
    }
  }

  lemma {:induction false} NamesDiffer(m: nat, n: nat)
    requires ParamName(m) == ParamName(n)
    ensures m == n
  {
    assert ParamName(m)[2..] == Decimal(m) && ParamName(n)[2..] == Decimal(n);
    DecimalInjective(m, n);
  }

  lemma {:induction false} NamesAllDiffer()
    ensures forall i: nat, j: nat :: ParamName(i) == ParamName(j) ==> i == j
  {
    forall i: nat, j: nat | ParamName(i) == ParamName(j) ensures i == j {
      NamesDiffer(i, j);
    }
  }

  // ----- A second pass

  /** A name in the place of the marker after a character leaves the mode alone. */
  lemma {:induction false} NextUnmoved(s: string, mode: Mode, n: nat)
    requires s != [] && Reachable(mode)
    requires !IsMarker(mode, s[0])
    ensures var next := Next(mode, s[0], First(s[1..]));
            Next(mode, s[0], First(Scan(s[1..], next, n).sql)) == next && Reachable(next)
  {}

  /** Rewriting is idempotent: a second pass, with any count, changes nothing. */
  lemma {:induction false} RewriteIdempotent(s: string, mode: Mode, n: nat, m: nat)
    requires Reachable(mode)
    ensures Scan(Scan(s, mode, n).sql, mode, m) == Rewritten(Scan(s, mode, n).sql, m)
  {
    if s != [] {
      var next := Next(mode, s[0], First(s[1..]));
      if IsMarker(mode, s[0]) {
        RewriteIdempotent(s[1..], Code, n + 1, m);
        NameIsPlain(n + 1);
        PlainCopied(ParamName(n + 1), Scan(s[1..], Code, n + 1).sql, m);
      } else {
        NextUnmoved(s, mode, n);
        RewriteIdempotent(s[1..], next, n, m);
        var out := Scan(s, mode, n).sql;
        assert out[1..] == Scan(s[1..], next, n).sql;
      }
    }
  }

  // ----- Undoing a rewrite

  /** No `@` of the statement is code. */
  predicate NoCodeAt(s: string, mode: Mode) {
    s != [] ==> !(mode == Code && s[0] == '@') && NoCodeAt(s[1..], Next(mode, s[0], First(s[1..])))
  }

  /** Puts a `?` for every code-mode name, counting from `n`. */
  function Undo(s: string, mode: Mode, n: nat): string {
    if s == [] then []
    else if mode == Code && s[0] == '@' then
      var length := |ParamName(n + 1)|;
      "?" + (if |s| <= length then [] else Undo(s[length..], Code, n + 1))
    else [s[0]] + Undo(s[1..], Next(mode, s[0], First(s[1..])), n)
  }

  /** A statement is recovered from its rewriting exactly when it has no code-mode
      `@`: such a one would be taken for a name. */
  lemma {:induction false} UndoRewrite(s: string, mode: Mode, n: nat)
    requires Reachable(mode)
    ensures Undo(Scan(s, mode, n).sql, mode, n) == s <==> NoCodeAt(s, mode)
  {
    if s != [] {
      var next, out := Next(mode, s[0], First(s[1..])), Scan(s, mode, n).sql;
      if IsMarker(mode, s[0]) {
        UndoRewrite(s[1..], Code, n + 1);
        UndoName(n, Scan(s[1..], Code, n + 1).sql);
        SameTail('?', Undo(Scan(s[1..], Code, n + 1).sql, Code, n + 1), s);
      } else if mode == Code && s[0] == '@' {
        assert out[0] == '@';
        assert Undo(out, mode, n)[0] == '?';
      } else {
        NextUnmoved(s, mode, n);
        UndoRewrite(s[1..], next, n);
        assert out[1..] == Scan(s[1..], next, n).sql;
        SameTail(s[0], Undo(out[1..], next, n), s);
      }
    }
  }

  lemma {:induction false} UndoName(n: nat, rest: string)
    ensures Undo(ParamName(n + 1) + rest, Code, n) == "?" + Undo(rest, Code, n + 1)
  {
    var name := ParamName(n + 1);
    assert (name + rest)[|name|..] == rest;
  }

  lemma {:induction false} SameTail(c: char, tail: string, s: string)
    requires s != [] && s[0] == c
    ensures [c] + tail == s <==> tail == s[1..]
  {
    assert s == [c] + s[1..];
    assert ([c] + tail)[1..] == tail;
  }

  /** Two statements without code-mode `@` are never rewritten to the same text. */
  lemma {:induction false} UndoneApart(a: string, b: string)
    requires NoCodeAt(a, Code) && NoCodeAt(b, Code)
    requires Scan(a, Code, 0).sql == Scan(b, Code, 0).sql
    ensures a == b
  {
    UndoRewrite(a, Code, 0);
    UndoRewrite(b, Code, 0);
  }

  // ----- Statements with the same rewriting

  /** The name of the next marker stands in code somewhere. */
  predicate HasName(s: string, mode: Mode, n: nat) {
    s != [] && ((mode == Code && ParamName(n + 1) <= s) || HasName(s[1..], Next(mode, s[0], First(s[1..])), n))
  }

  /** Without a marker a statement is its own rewriting, and only then. */
  lemma {:induction false} OwnRewriting(s: string, mode: Mode, n: nat)
    ensures Scan(s, mode, n).sql == s <==> MarkerCount(s, mode) == 0
    ensures MarkerCount(s, mode) == 0 ==> Scan(s, mode, n).markers == n
  {
    RewriteCounts(s, mode, n);
    if s != [] && MarkerCount(s, mode) == 0 {
      OwnRewriting(s[1..], Next(mode, s[0], First(s[1..])), n);
    }
  }

  /** The first marker leaves the name of the next one in the rewriting. */
  lemma {:induction false} MarkerLeavesName(s: string, mode: Mode, n: nat)
    requires Reachable(mode) && MarkerCount(s, mode) > 0
    ensures HasName(Scan(s, mode, n).sql, mode, n)
  {
    if !IsMarker(mode, s[0]) {
      NextUnmoved(s, mode, n);
      MarkerLeavesName(s[1..], Next(mode, s[0], First(s[1..])), n);
      assert Scan(s, mode, n).sql[1..] == Scan(s[1..], Next(mode, s[0], First(s[1..])), n).sql;
    }
  }

  /** Plain text counts no marker and does not change what follows. */
  lemma {:induction false} PlainUncounted(text: string, rest: string)
    requires AllPlain(text)
    ensures MarkerCount(text + rest, Code) == MarkerCount(rest, Code)
  {
    if text == [] {
      assert text + rest == rest;
    } else {
      assert (text + rest)[1..] == text[1..] + rest;
      PlainUncounted(text[1..], rest);
    }
  }

  /** Where the name stands in code, a marker can stand instead. */
  lemma {:induction false} NameMadeMarker(s: string, mode: Mode, n: nat) returns (b: string)
    requires Reachable(mode) && MarkerCount(s, mode) == 0 && HasName(s, mode, n)
    ensures b != s && b != [] && Scan(b, mode, n).sql == s
    ensures b[0] == s[0] || (b[0] == '?' && s[0] == '@')
  {
    var name := ParamName(n + 1);
    if mode == Code && name <= s {
      b := "?" + s[|name|..];
      assert s == name + s[|name|..];
      MarkerForName(s[|name|..], n);
    } else {
      assert Reachable(Next(mode, s[0], First(s[1..])));
      var tail := NameMadeMarker(s[1..], Next(mode, s[0], First(s[1..])), n);
      b := [s[0]] + tail;
      SameFirst(s, mode, n, tail);
    }
  }

  lemma {:induction false} MarkerForName(rest: string, n: nat)
    requires MarkerCount(ParamName(n + 1) + rest, Code) == 0
    ensures Scan("?" + rest, Code, n).sql == ParamName(n + 1) + rest
    ensures "?" + rest != ParamName(n + 1) + rest
  {
    NameIsPlain(n + 1);
    PlainUncounted(ParamName(n + 1), rest);
    OwnRewriting(rest, Code, n + 1);
    assert ("?" + rest)[1..] == rest;
    assert ("?" + rest)[0] != (ParamName(n + 1) + rest)[0];
  }

  lemma {:induction false} SameFirst(s: string, mode: Mode, n: nat, tail: string)
    requires s != [] && s[1..] != [] && tail != [] && tail != s[1..] && !IsMarker(mode, s[0]) && Reachable(mode)
    requires tail[0] == s[1] || (tail[0] == '?' && s[1] == '@')
    requires Scan(tail, Next(mode, s[0], First(s[1..])), n).sql == s[1..]
    ensures [s[0]] + tail != s && Scan([s[0]] + tail, mode, n).sql == s
  {
    var b := [s[0]] + tail;
    assert b[1..] == tail && Next(mode, b[0], First(tail)) == Next(mode, s[0], First(s[1..]));
    assert s == [s[0]] + s[1..];
  }

  /** Every statement with a marker has the rewriting of another: its own. */
  lemma {:induction false} MarkersCollide(s: string)
    requires MarkerCount(s, Code) > 0
    ensures var b := Scan(s, Code, 0).sql; b != s && Scan(b, Code, 0).sql == b
  {
    OwnRewriting(s, Code, 0);
    RewriteIdempotent(s, Code, 0, 0);
  }

  /** And so has every one without a marker in whose code `@P1` stands. */
  lemma {:induction false} CodeAtCollides(s: string) returns (b: string)
    requires MarkerCount(s, Code) == 0 && HasName(s, Code, 0)
    ensures b != s && MarkerCount(b, Code) > 0 && Scan(b, Code, 0).sql == Scan(s, Code, 0).sql
  {
    b := NameMadeMarker(s, Code, 0);
    OwnRewriting(s, Code, 0);
    OwnRewriting(b, Code, 0);
  }

  /** No other statement is rewritten to the same text exactly when the statement
      has no marker and its code has no `@P1`. */
  lemma {:induction false} RewriteInjective(s: string)
    ensures (forall b :: Scan(b, Code, 0).sql == Scan(s, Code, 0).sql ==> b == s) <==>
            MarkerCount(s, Code) == 0 && !HasName(s, Code, 0)
  {
    if MarkerCount(s, Code) > 0 {
      MarkersCollide(s);
    } else if HasName(s, Code, 0) {
      var b := CodeAtCollides(s);
    } else {
      OwnRewriting(s, Code, 0);
      forall b | Scan(b, Code, 0).sql == Scan(s, Code, 0).sql ensures b == s {
        OwnRewriting(b, Code, 0);
        if MarkerCount(b, Code) > 0 {
          MarkerLeavesName(b, Code, 0);
        }
      }
    }
  }

  // ----- The request

  datatype Param<T> = Param(name: string, value: T)

  datatype RequestError = MarkerMismatch(markers: nat, arguments: nat)

  type Request<T> = Result<(string, seq<Param<T>>), RequestError>

  /** `build_request`. Without arguments the statement is sent as it is. */
  function BuildRequest<T>(sql: string, arguments: seq<T>): Request<T> {
    if arguments == [] then Ok((sql, []))
    else
      var rewritten := Scan(sql, Code, 0);
      if rewritten.markers != |arguments| then Err(MarkerMismatch(rewritten.markers, |arguments|))
      else
        var params := seq(|arguments|, i requires 0 <= i < |arguments| => Param(ParamName(i + 1), arguments[i]));
        Ok((rewritten.sql, params))
  }

  /** With arguments, a request is built exactly when each marker has one; then
      the i-th parameter bears the text that stands for the i-th marker, no two
      bear the same, and a rewrite of the request text finds no marker left. */
  lemma {:induction false} RequestMatches<T>(sql: string, arguments: seq<T>)
    requires arguments != []
    ensures BuildRequest(sql, arguments).Ok? <==> MarkerCount(sql, Code) == |arguments|
    ensures BuildRequest(sql, arguments).Ok? ==>
              var (text, params) := BuildRequest(sql, arguments).value;
              && |params| == |arguments| == |Substituted(sql, Code, 0)|
              && (forall i :: 0 <= i < |params| ==> params[i].name == Substituted(sql, Code, 0)[i])
              && (forall i :: 0 <= i < |params| ==> params[i].value == arguments[i])
              && (forall i, j :: 0 <= i < j < |params| ==> params[i].name != params[j].name)
              && MarkerCount(text, Code) == 0
  {
    RewriteCounts(sql, Code, 0);
    SubstitutedNames(sql, Code, 0);
    if BuildRequest(sql, arguments).Ok? {
      var (text, params) := BuildRequest(sql, arguments).value;
      NamesAllDiffer();
      RewriteIdempotent(sql, Code, 0, 0);
      RewriteCounts(text, Code, 0);
    }
  }
}
