/** The rewriter ends a block comment at the first closing mark; T-SQL counts the
    opening marks inside. Where the two agree on what is code, and where not. */
module NestedComments {
  import opened Common
  import opened Decimals
  import opened SqlLexer
  import opened MarkerProperties
  import opened MarkerNames

  /** As `Mode`, with the number of comments that a character is inside of. */
  datatype NestMode =
    | NestCode
    | NestLine
    | Opening(depth: nat)
    | Inside(depth: nat)
    | Ending(depth: nat)
    | NestQuoted(closing: char)
    | NestEscape(closing: char)

  /** The mode after `ch` by the rules of T-SQL. */
  function NestNext(mode: NestMode, ch: char, ahead: Option<char>): NestMode {
    match mode
    case NestCode =>
      if ch == '-' && ahead == Some('-') then NestLine
      else if ch == '/' && ahead == Some('*') then Opening(1)
      else if ch == '\'' || ch == '"' then NestQuoted(ch)
      else if ch == '[' then NestQuoted(']')
      else NestCode
    case NestLine => if ch == '\n' then NestCode else NestLine
    case Opening(d) => Inside(d)
    case Inside(d) =>
      if ch == '/' && ahead == Some('*') then Opening(d + 1)
      else if ch == '*' && ahead == Some('/') then Ending(d)
      else mode
    case Ending(d) => if d <= 1 then NestCode else Inside(d - 1)
    case NestQuoted(c) => if ch != c then mode else if ahead == Some(c) then NestEscape(c) else NestCode
    case NestEscape(c) => NestQuoted(c)
  }

  /** The T-SQL mode of character `k` of `s`, whose first character is in `mode`. */
  function NestModeAt(s: string, mode: NestMode, k: nat): NestMode
    requires k <= |s|
    decreases k
  {
    if k == 0 then mode else NestModeAt(s[1..], NestNext(mode, s[0], First(s[1..])), k - 1)
  }

  /** The T-SQL mode that stands for a mode of the rewriter. */
  function Nested(mode: Mode): NestMode {
    match mode
    case Code => NestCode
    case LineComment => NestLine
    case BlockOpen => Opening(1)
    case Block => Inside(1)
    case BlockClose => Ending(1)
    case Quoted(c) => NestQuoted(c)
    case Escape(c) => NestEscape(c)
  }

  // ----- The condition

  /** An opening mark at `k` inside a block comment. Its `*` may be that of the
      comment's closing mark. */
  predicate OpensInside(s: string, mode: Mode, k: nat) {
    k + 1 < |s| && ModeAt(s, mode, k) == Block && s[k] == '/' && s[k + 1] == '*'
  }

  /** The comment around `k` is closed, and a character follows it. */
  predicate CodeAfter(s: string, mode: Mode, k: nat) {
    exists j :: k < j < |s| && ModeAt(s, mode, j) == Code
  }

  /** No block comment that ends before the text does has an opening mark in it. */
  predicate CommentsFlat(s: string, mode: Mode) {
    forall k :: 0 <= k < |s| && OpensInside(s, mode, k) ==> !CodeAfter(s, mode, k)
  }

  /** Both readings give the same characters as code. */
  predicate SameCode(s: string, mode: Mode, nest: NestMode) {
    forall k :: 0 <= k < |s| ==> (ModeAt(s, mode, k) == Code <==> NestModeAt(s, nest, k) == NestCode)
  }

  // ----- In step and out of step

  lemma {:induction false} SameCodeStep(s: string, mode: Mode, nest: NestMode)
    requires s != []
    ensures SameCode(s, mode, nest) <==>
            && (mode == Code <==> nest == NestCode)
            && SameCode(s[1..], Next(mode, s[0], First(s[1..])), NestNext(nest, s[0], First(s[1..])))
  {
    var m, n := Next(mode, s[0], First(s[1..])), NestNext(nest, s[0], First(s[1..]));
    if SameCode(s, mode, nest) {
      assert ModeAt(s, mode, 0) == mode && NestModeAt(s, nest, 0) == nest;
      forall k | 0 <= k < |s[1..]|
        ensures ModeAt(s[1..], m, k) == Code <==> NestModeAt(s[1..], n, k) == NestCode
      {
        assert ModeAt(s, mode, k + 1) == ModeAt(s[1..], m, k);
        assert NestModeAt(s, nest, k + 1) == NestModeAt(s[1..], n, k);
      }
    }
    if (mode == Code <==> nest == NestCode) && SameCode(s[1..], m, n) {
      forall k | 0 <= k < |s| ensures ModeAt(s, mode, k) == Code <==> NestModeAt(s, nest, k) == NestCode {
        assert k > 0 ==> (ModeAt(s[1..], m, k - 1) == Code <==> NestModeAt(s[1..], n, k - 1) == NestCode);
      }
    }
  }

  /** Some character of `s` is code. */
  predicate HasCode(s: string, mode: Mode) {
    exists j :: 0 <= j < |s| && ModeAt(s, mode, j) == Code
  }

  lemma {:induction false} HasCodeStep(s: string, mode: Mode)
    requires s != []
    ensures HasCode(s, mode) <==> mode == Code || HasCode(s[1..], Next(mode, s[0], First(s[1..])))
  {
    var m := Next(mode, s[0], First(s[1..]));
    if HasCode(s[1..], m) {
      var j :| 0 <= j < |s[1..]| && ModeAt(s[1..], m, j) == Code;
      assert ModeAt(s, mode, j + 1) == Code;
    }
    if mode == Code {
      assert ModeAt(s, mode, 0) == Code;
    } else if HasCode(s, mode) {
      var j :| 0 <= j < |s| && ModeAt(s, mode, j) == Code;
      assert ModeAt(s[1..], m, j - 1) == Code;
    }
  }

  /** The rewriter is about to leave, or still in, a comment that T-SQL is deeper in. */
  predicate OutOfStep(mode: Mode, nest: NestMode) {
    || (mode == Block && (nest.Opening? || nest.Inside?) && nest.depth >= 2)
    || (mode == BlockClose && (nest.Ending? || nest.Inside?) && nest.depth >= 2)
  }

  /** Out of step, the two agree on the rest only if the rewriter never gets back
      to code in it: when it does, T-SQL is still in the comment. */
  lemma {:induction false} OutOfStepDiffers(s: string, mode: Mode, nest: NestMode)
    requires OutOfStep(mode, nest)
    ensures SameCode(s, mode, nest) <==> !HasCode(s, mode)
  {
    if s != [] {
      var m, n := Next(mode, s[0], First(s[1..])), NestNext(nest, s[0], First(s[1..]));
      SameCodeStep(s, mode, nest);
      HasCodeStep(s, mode);
      if mode == Block {
        OutOfStepDiffers(s[1..], m, n);
      } else if s[1..] != [] {
        assert m == Code && n != NestCode;
        SameCodeStep(s[1..], m, n);
        HasCodeStep(s[1..], m);
      }
    }
  }

  lemma {:induction false} FlatStep(s: string, mode: Mode)
    requires s != []
    ensures var m := Next(mode, s[0], First(s[1..]));
            CommentsFlat(s, mode) <==>
            (OpensInside(s, mode, 0) ==> !HasCode(s[1..], m)) && CommentsFlat(s[1..], m)
  {
    var t, m := s[1..], Next(mode, s[0], First(s[1..]));
    AfterFirst(s, mode);
    forall k | 0 <= k < |t|
      ensures OpensInside(s, mode, k + 1) <==> OpensInside(t, m, k)
      ensures CodeAfter(s, mode, k + 1) <==> CodeAfter(t, m, k)
    {
      OneLater(s, mode, k);
    }
    if CommentsFlat(s, mode) {
      forall k | 0 <= k < |t| && OpensInside(t, m, k) ensures !CodeAfter(t, m, k) {
        assert OpensInside(s, mode, k + 1);
      }
    }
    if CommentsFlat(t, m) && (OpensInside(s, mode, 0) ==> !HasCode(t, m)) {
      forall k | 0 <= k < |s| && OpensInside(s, mode, k) ensures !CodeAfter(s, mode, k) {
        if k > 0 { assert OpensInside(t, m, k - 1); }
      }
    }
  }

  lemma {:induction false} AfterFirst(s: string, mode: Mode)
    requires s != []
    ensures CodeAfter(s, mode, 0) <==> HasCode(s[1..], Next(mode, s[0], First(s[1..])))
  {
    var t, m := s[1..], Next(mode, s[0], First(s[1..]));
    if HasCode(t, m) {
      var j :| 0 <= j < |t| && ModeAt(t, m, j) == Code;
      assert ModeAt(s, mode, j + 1) == Code;
    }
    if CodeAfter(s, mode, 0) {
      var j :| 0 < j < |s| && ModeAt(s, mode, j) == Code;
      assert ModeAt(t, m, j - 1) == Code;
    }
  }

  lemma {:induction false} OneLater(s: string, mode: Mode, k: nat)
    requires k + 1 < |s|
    ensures var m := Next(mode, s[0], First(s[1..]));
            && (OpensInside(s, mode, k + 1) <==> OpensInside(s[1..], m, k))
            && (CodeAfter(s, mode, k + 1) <==> CodeAfter(s[1..], m, k))
  {
    var t, m := s[1..], Next(mode, s[0], First(s[1..]));
    if CodeAfter(t, m, k) {
      var j :| k < j < |t| && ModeAt(t, m, j) == Code;
      assert ModeAt(s, mode, j + 1) == Code;
    }
    if CodeAfter(s, mode, k + 1) {
      var j :| k + 1 < j < |s| && ModeAt(s, mode, j) == Code;
      assert ModeAt(t, m, j - 1) == Code;
    }
  }

  /** In step, they stay so until an opening mark inside a block comment. */
  lemma {:induction false} InStep(s: string, mode: Mode)
    ensures SameCode(s, mode, Nested(mode)) <==> CommentsFlat(s, mode)
  {
    if s != [] {
      var m, n := Next(mode, s[0], First(s[1..])), NestNext(Nested(mode), s[0], First(s[1..]));
      SameCodeStep(s, mode, Nested(mode));
      FlatStep(s, mode);
      InStep(s[1..], m);
      if OpensInside(s, mode, 0) {
        OutOfStepDiffers(s[1..], m, n);
        if !HasCode(s[1..], m) { NothingToOpen(s[1..], m); }
      } else {
        assert n == Nested(m);
      }
    }
  }

  /** Without code there is nothing that could follow a comment. */
  lemma {:induction false} NothingToOpen(s: string, mode: Mode)
    requires !HasCode(s, mode)
    ensures CommentsFlat(s, mode)
  {}

  // ----- Main results

  /** For every statement: the rewriter and T-SQL agree on which characters are
      code exactly when no block comment that the rewriter closes before the end
      of the text has an opening mark in it. */
  lemma {:induction false} AgreesWithNesting(s: string)
    ensures SameCode(s, Code, NestCode) <==> CommentsFlat(s, Code)
  {
    InStep(s, Code);
  }

  /** Then the characters that are replaced are exactly the markers of T-SQL code. */
  lemma {:induction false} MarkersAreTsqlMarkers(s: string, k: nat)
    requires CommentsFlat(s, Code) && k < |s|
    ensures IsMarkerAt(s, k) <==> s[k] == '?' && NestModeAt(s, NestCode, k) == NestCode
  {
    AgreesWithNesting(s);
    assert ModeAt(s, Code, k) == Code <==> NestModeAt(s, NestCode, k) == NestCode;
  }

  /** A marker inside a nested comment that the rewriter replaces. */
  lemma {:induction false} NestedMarkerReplaced()
    ensures var s := "/*/**/?*/";
            && Scan(s, Code, 0).markers == 1
            && IsMarkerAt(s, 6) && NestModeAt(s, NestCode, 6) == Inside(1)
            && !CommentsFlat(s, Code)
  {
    var s := "/*/**/?*/";
    NestedMarkerModes();
    assert Scan(s, Code, 0).markers == 1 by { NestedMarkerCounted(); }
    assert OpensInside(s, Code, 2) && CodeAfter(s, Code, 2);
  }

  lemma {:induction false} NestedMarkerModes()
    ensures var s := "/*/**/?*/";
            && ModeAt(s, Code, 2) == Block && ModeAt(s, Code, 6) == Code
            && NestModeAt(s, NestCode, 6) == Inside(1)
  {
    var s := "/*/**/?*/";
    assert s[1..] == "*/**/?*/" && s[2..] == "/**/?*/" && s[3..] == "**/?*/" && s[4..] == "*/?*/";
    assert s[5..] == "/?*/" && s[6..] == "?*/";
  }

  lemma {:induction false} NestedMarkerCounted()
    ensures Scan("/*/**/?*/", Code, 0).markers == 1
  {
    CountOne("/*/**/?*/", "*/**/?*/", Code, 0);
    CountOne("*/**/?*/", "/**/?*/", BlockOpen, 0);
    CountOne("/**/?*/", "**/?*/", Block, 0);
    CountOne("**/?*/", "*/?*/", Block, 0);
    CountOne("*/?*/", "/?*/", Block, 0);
    CountOne("/?*/", "?*/", BlockClose, 0);
    CountOne("?*/", "*/", Code, 0);
    CountOne("*/", "/", Code, 1);
    CountOne("/", "", Code, 1);
  }

  lemma {:induction false} CountOne(s: string, t: string, mode: Mode, n: nat)
    requires s != [] && s[1..] == t
    ensures Scan(s, mode, n).markers ==
            Scan(t, Next(mode, s[0], First(t)), if IsMarker(mode, s[0]) then n + 1 else n).markers
  {}
}
