/** `rewrite_param_markers`: region by region, as the driver does it. */
module ParamMarkers {
  import opened Common
  import opened Decimals
  import opened SqlLexer

  function FindChar(s: string, c: char): (at: Option<nat>)
    ensures at.Some? ==> at.value < |s| && s[at.value] == c
  {
    if s == [] then None
    else if s[0] == c then Some(0)
    else
      var rest := FindChar(s[1..], c);
      if rest.None? then None else Some(rest.value + 1)
  }

  function FindBlockEnd(s: string): (at: Option<nat>)
    ensures at.Some? ==> at.value + 2 <= |s|
  {
    if |s| < 2 then None
    else if s[0] == '*' && s[1] == '/' then Some(0)
    else
      var rest := FindBlockEnd(s[1..]);
      if rest.None? then None else Some(rest.value + 1)
  }

  function EndOr(at: Option<nat>, after: nat, length: nat): nat {
    if at.Some? then at.value + after else length
  }

  // ----- A region is copied verbatim

  /** `s[..end]` is copied, and the scan goes on in code. */
  predicate Copies(s: string, mode: Mode, end: nat, n: nat) {
    end <= |s| && Scan(s, mode, n) == Prefix(s[..end], Scan(s[end..], Code, n))
  }

  lemma {:induction false} CopiesStep(s: string, mode: Mode, next: Mode, end: nat, n: nat)
    requires s != [] && !IsMarker(mode, s[0]) && next == Next(mode, s[0], First(s[1..]))
    requires Copies(s[1..], next, end, n)
    ensures Copies(s, mode, end + 1, n)
  {
    var rest := s[1..];
    assert rest[end..] == s[end + 1..];
    PrefixPrefix([s[0]], rest[..end], Scan(rest[end..], Code, n));
    assert [s[0]] + rest[..end] == s[..end + 1];
  }

  lemma {:induction false} NothingCopied(s: string, mode: Mode, n: nat)
    requires s == [] || Scan(s, mode, n) == Scan(s, Code, n)
    ensures Copies(s, mode, 0, n)
  {}

  lemma {:induction false} LineCopied(s: string, n: nat)
    ensures Copies(s, LineComment, EndOr(FindChar(s, '\n'), 0, |s|), n)
  {
    if s == [] || s[0] == '\n' {
      NothingCopied(s, LineComment, n);
    } else {
      LineCopied(s[1..], n);
      CopiesStep(s, LineComment, LineComment, EndOr(FindChar(s[1..], '\n'), 0, |s[1..]|), n);
    }
  }

  lemma {:induction false} BlockCopied(s: string, n: nat)
    ensures Copies(s, Block, EndOr(FindBlockEnd(s), 2, |s|), n)
  {
    if s == [] {
      NothingCopied(s, Block, n);
    } else if 2 <= |s| && s[0] == '*' && s[1] == '/' {
      NothingCopied(s[1..][1..], Code, n);
      CopiesStep(s[1..], BlockClose, Code, 0, n);
      CopiesStep(s, Block, BlockClose, 1, n);
    } else {
      BlockCopied(s[1..], n);
      CopiesStep(s, Block, Block, EndOr(FindBlockEnd(s[1..]), 2, |s[1..]|), n);
    }
  }

  /** The length of a quoted region after its opening delimiter. A doubled
      closing delimiter does not end it. */
  function QuotedEnd(s: string, closing: char): (end: nat)
    ensures end <= |s|
  {
    if s == [] then 0
    else if s[0] != closing then 1 + QuotedEnd(s[1..], closing)
    else if 2 <= |s| && s[1] == closing then 2 + QuotedEnd(s[2..], closing)
    else 1
  }

  lemma {:induction false} QuotedCopied(s: string, closing: char, n: nat)
    ensures Copies(s, Quoted(closing), QuotedEnd(s, closing), n)
  {
    if s == [] {
      NothingCopied(s, Quoted(closing), n);
    } else if s[0] != closing {
      QuotedCopied(s[1..], closing, n);
      CopiesStep(s, Quoted(closing), Quoted(closing), QuotedEnd(s[1..], closing), n);
    } else if 2 <= |s| && s[1] == closing {
      assert s[1..][1..] == s[2..];
      QuotedCopied(s[2..], closing, n);
      CopiesStep(s[1..], Escape(closing), Quoted(closing), QuotedEnd(s[2..], closing), n);
      CopiesStep(s, Quoted(closing), Escape(closing), 1 + QuotedEnd(s[2..], closing), n);
    } else {
      NothingCopied(s[1..], Code, n);
      CopiesStep(s, Quoted(closing), Code, 0, n);
    }
  }

  /** One step of a quoted region. */
  lemma {:induction false} QuotedEndStep(sql: string, at: nat, closing: char)
    requires at < |sql|
    ensures QuotedEnd(sql[at..], closing) ==
            if sql[at] != closing then 1 + QuotedEnd(sql[at + 1..], closing)
            else if at + 1 < |sql| && sql[at + 1] == closing then 2 + QuotedEnd(sql[at + 2..], closing)
            else 1
  {}

  /** Moves one character of the input to the output. */
  lemma {:induction false} MoveOne(output: string, sql: string, at: nat)
    requires at < |sql|
    ensures output + [sql[at]] + sql[at + 1..] == output + sql[at..]
  {}

  /** Copies a quoted region verbatim, including its delimiters. */
  method CopyQuoted(sql: string, output: string, index: nat, closing: char) returns (output2: string, index2: nat)
    requires index < |sql|
    ensures index < index2 <= |sql|
    ensures index2 == index + 1 + QuotedEnd(sql[index + 1..], closing)
    ensures output2 + sql[index2..] == output + sql[index..]
  {
    output2 := output + [sql[index]];
    index2 := index + 1;
    MoveOne(output, sql, index);
    while index2 < |sql|
      invariant index < index2 <= |sql|
      invariant output2 + sql[index2..] == output + sql[index..]
      invariant index + 1 + QuotedEnd(sql[index + 1..], closing) == index2 + QuotedEnd(sql[index2..], closing)
      decreases |sql| - index2
    {
      var ch := sql[index2];
      QuotedEndStep(sql, index2, closing);
      MoveOne(output2, sql, index2);
      if ch == closing {
        var after := index2 + 1;
        if after < |sql| && sql[after] == closing {
          MoveOne(output2 + [closing], sql, after);
          output2 := output2 + [closing] + [closing];
          index2 := after + 1;
          continue;
        }
        output2 := output2 + [closing];
        index2 := after;
        return;
      }
      output2 := output2 + [ch];
      index2 := index2 + 1;
    }
  }

  // ----- The whole scan

  /** The scan of `sql` once `output` stands for what precedes `rest`. */
  predicate ScannedTo(sql: string, output: string, rest: string, markers: nat) {
    Scan(sql, Code, 0) == Prefix(output, Scan(rest, Code, markers))
  }

  lemma {:induction false} LineRegion(s: string, n: nat)
    requires s != [] && s[0] == '-' && First(s[1..]) == Some('-')
    ensures Copies(s, Code, EndOr(FindChar(s, '\n'), 0, |s|), n)
  {
    LineCopied(s[1..], n);
    CopiesStep(s, Code, LineComment, EndOr(FindChar(s[1..], '\n'), 0, |s[1..]|), n);
  }

  lemma {:induction false} BlockRegion(s: string, n: nat)
    requires s != [] && s[0] == '/' && First(s[1..]) == Some('*')
    ensures Copies(s, Code, EndOr(FindBlockEnd(s[2..]), 4, |s|), n)
  {
    assert s[1..][1..] == s[2..];
    BlockCopied(s[2..], n);
    CopiesStep(s[1..], BlockOpen, Block, EndOr(FindBlockEnd(s[2..]), 2, |s[2..]|), n);
    CopiesStep(s, Code, BlockOpen, 1 + EndOr(FindBlockEnd(s[2..]), 2, |s[2..]|), n);
  }

  lemma {:induction false} QuotedRegion(s: string, closing: char, n: nat)
    requires s != [] && Next(Code, s[0], First(s[1..])) == Quoted(closing) && s[0] != '?'
    ensures Copies(s, Code, 1 + QuotedEnd(s[1..], closing), n)
  {
    QuotedCopied(s[1..], closing, n);
    CopiesStep(s, Code, Quoted(closing), QuotedEnd(s[1..], closing), n);
  }

  /** Slices of a suffix are slices of the whole. */
  lemma {:induction false} Suffixes(sql: string, index: nat, end: nat)
    requires index <= end <= |sql|
    ensures sql[index..][..end - index] == sql[index..end]
    ensures sql[index..][end - index..] == sql[end..]
    ensures index < |sql| ==> sql[index..][1..] == sql[index + 1..]
  {}

  lemma {:induction false} Moved(output: string, output2: string, sql: string, index: nat, index2: nat)
    requires index <= index2 <= |sql| && output2 + sql[index2..] == output + sql[index..]
    ensures output2 == output + sql[index..index2]
  {
    var tail := sql[index2..];
    assert sql[index..] == sql[index..index2] + tail;
    assert output + sql[index..] == (output + sql[index..index2]) + tail;
    assert output2 == (output2 + tail)[..|output2|];
    assert output + sql[index..index2] == ((output + sql[index..index2]) + tail)[..|output2|];
  }

  /** A copied region of the remaining text, said in indices of the whole. */
  lemma {:induction false} ScanCopies(sql: string, output: string, rest: string, end: nat, markers: nat)
    requires ScannedTo(sql, output, rest, markers) && Copies(rest, Code, end, markers)
    ensures ScannedTo(sql, output + rest[..end], rest[end..], markers)
  {
    PrefixPrefix(output, rest[..end], Scan(rest[end..], Code, markers));
  }

  lemma {:induction false} ScanRegion(sql: string, output: string, index: nat, end: nat, markers: nat)
    requires index <= end <= |sql|
    requires ScannedTo(sql, output, sql[index..], markers) && Copies(sql[index..], Code, end - index, markers)
    ensures ScannedTo(sql, output + sql[index..end], sql[end..], markers)
  {
    Suffixes(sql, index, end);
    ScanCopies(sql, output, sql[index..], end - index, markers);
  }

  function LineEnd(sql: string, index: nat): (end: nat)
    requires index <= |sql|
    ensures end <= |sql|
  {
    index + EndOr(FindChar(sql[index..], '\n'), 0, |sql| - index)
  }

  function BlockEnd(sql: string, index: nat): (end: nat)
    requires index + 2 <= |sql|
    ensures end <= |sql|
  {
    index + EndOr(FindBlockEnd(sql[index + 2..]), 4, |sql| - index)
  }

  lemma {:induction false} ScanLine(sql: string, output: string, index: nat, markers: nat)
    requires index + 1 < |sql| && sql[index] == '-' && sql[index + 1] == '-'
    requires ScannedTo(sql, output, sql[index..], markers)
    ensures index < LineEnd(sql, index)
    ensures ScannedTo(sql, output + sql[index..LineEnd(sql, index)], sql[LineEnd(sql, index)..], markers)
  {
    var rest, end := sql[index..], LineEnd(sql, index);
    LineRegion(rest, markers);
    assert EndOr(FindChar(rest, '\n'), 0, |rest|) == end - index;
    ScanRegion(sql, output, index, end, markers);
  }

  lemma {:induction false} ScanBlock(sql: string, output: string, index: nat, markers: nat)
    requires index + 1 < |sql| && sql[index] == '/' && sql[index + 1] == '*'
    requires ScannedTo(sql, output, sql[index..], markers)
    ensures index < BlockEnd(sql, index)
    ensures ScannedTo(sql, output + sql[index..BlockEnd(sql, index)], sql[BlockEnd(sql, index)..], markers)
  {
    var rest, end := sql[index..], BlockEnd(sql, index);
    assert rest[2..] == sql[index + 2..];
    BlockRegion(rest, markers);
    assert EndOr(FindBlockEnd(rest[2..]), 4, |rest|) == end - index;
    ScanRegion(sql, output, index, end, markers);
  }

  lemma {:induction false} ScanQuoted(
    sql: string, output: string, index: nat, closing: char, output2: string, index2: nat, markers: nat)
    requires index < index2 <= |sql| && sql[index] != '?'
    requires Next(Code, sql[index], First(sql[index..][1..])) == Quoted(closing)
    requires index2 == index + 1 + QuotedEnd(sql[index + 1..], closing)
    requires output2 + sql[index2..] == output + sql[index..]
    requires ScannedTo(sql, output, sql[index..], markers)
    ensures ScannedTo(sql, output2, sql[index2..], markers)
  {
    assert sql[index..][1..] == sql[index + 1..];
    QuotedRegion(sql[index..], closing, markers);
    Moved(output, output2, sql, index, index2);
    ScanRegion(sql, output, index, index2, markers);
  }

  lemma {:induction false} ScanChar(sql: string, output: string, index: nat, markers: nat)
    requires index < |sql| && ScannedTo(sql, output, sql[index..], markers)
    requires Next(Code, sql[index], First(sql[index + 1..])) == Code
    ensures if sql[index] == '?' then ScannedTo(sql, output + ParamName(markers + 1), sql[index + 1..], markers + 1)
            else ScannedTo(sql, output + [sql[index]], sql[index + 1..], markers)
  {}

  /** Replaces `?` markers by `@P1`, `@P2`, ... exactly where the character
      automaton is in code, and copies everything else. */
  method RewriteParamMarkers(sql: string) returns (output: string, markers: nat)
    ensures Rewritten(output, markers) == Scan(sql, Code, 0)
  {
    output, markers := [], 0;
    var index := 0;
    assert sql[0..] == sql;
    while index < |sql|
      invariant index <= |sql|
      invariant ScannedTo(sql, output, sql[index..], markers)
      decreases |sql| - index
    {
      var ch := sql[index];
      if ch == '-' && index + 1 < |sql| && sql[index + 1] == '-' {
        ScanLine(sql, output, index, markers);
        var end := LineEnd(sql, index);
        output := output + sql[index..end];
        index := end;
      } else if ch == '/' && index + 1 < |sql| && sql[index + 1] == '*' {
        ScanBlock(sql, output, index, markers);
        var end := BlockEnd(sql, index);
        output := output + sql[index..end];
        index := end;
      } else if ch == '\'' || ch == '"' || ch == '[' {
        var closing := if ch == '[' then ']' else ch;
        ghost var before, from := output, index;
        output, index := CopyQuoted(sql, output, index, closing);
        ScanQuoted(sql, before, from, closing, output, index, markers);
      } else if ch == '?' {
        ScanChar(sql, output, index, markers);
        markers := markers + 1;
        output := output + ("@P" + Decimal(markers));
        index := index + 1;
      } else {
        ScanChar(sql, output, index, markers);
        output := output + [ch];
        index := index + 1;
      }
    }
  }
}
