/** The lexical rules that decide whether a character of a statement is code. */
module SqlLexer {
  import opened Common
  import opened Decimals

  /** What the next character is part of. `BlockOpen`, `BlockClose` and `Escape`
      are the second character of a two-character mark. */
  datatype Mode =
    | Code
    | LineComment
    | BlockOpen
    | Block
    | BlockClose
    | Quoted(closing: char)
    | Escape(closing: char)

  function First(s: string): Option<char> {
    if s == [] then None else Some(s[0])
  }

  /** The mode after `ch`, given the character that follows it. Block comments
      do not nest. */
  function Next(mode: Mode, ch: char, ahead: Option<char>): Mode {
    match mode
    case Code =>
      if ch == '-' && ahead == Some('-') then LineComment
      else if ch == '/' && ahead == Some('*') then BlockOpen
      else if ch == '\'' || ch == '"' then Quoted(ch)
      else if ch == '[' then Quoted(']')
      else Code
    case LineComment => if ch == '\n' then Code else LineComment
    case BlockOpen => Block
    case Block => if ch == '*' && ahead == Some('/') then BlockClose else Block
    case BlockClose => Code
    case Quoted(c) => if ch != c then mode else if ahead == Some(c) then Escape(c) else Code
    case Escape(c) => Quoted(c)
  }

  /** The mode of character `k` of `s`, whose first character is in `mode`. */
  function ModeAt(s: string, mode: Mode, k: nat): Mode
    requires k <= |s|
    decreases k
  {
    if k == 0 then mode else ModeAt(s[1..], Next(mode, s[0], First(s[1..])), k - 1)
  }

  lemma {:induction false} ModeSplit(s: string, mode: Mode, i: nat, j: nat)
    requires i + j <= |s|
    ensures ModeAt(s, mode, i + j) == ModeAt(s[i..], ModeAt(s, mode, i), j)
    decreases i
  {
    if i > 0 {
      ModeSplit(s[1..], Next(mode, s[0], First(s[1..])), i - 1, j);
      assert s[1..][i - 1..] == s[i..];
    }
  }

  /** The modes that a scan from code can reach. */
  predicate Reachable(mode: Mode) {
    (mode.Quoted? || mode.Escape?) ==> mode.closing == '\'' || mode.closing == '"' || mode.closing == ']'
  }

  datatype Rewritten = Rewritten(sql: string, markers: nat)

  function ParamName(n: nat): (name: string)
    ensures |name| >= 3
  {
    "@P" + Decimal(n)
  }

  predicate IsMarker(mode: Mode, ch: char) {
    mode == Code && ch == '?'
  }

  /** Replaces every code-mode `?` of `s`, whose first character is in `mode`,
      after `n` earlier ones. */
  function Scan(s: string, mode: Mode, n: nat): Rewritten {
    if s == [] then Rewritten([], n)
    else
      var next := Next(mode, s[0], First(s[1..]));
      if IsMarker(mode, s[0]) then Prefix(ParamName(n + 1), Scan(s[1..], next, n + 1))
      else Prefix([s[0]], Scan(s[1..], next, n))
  }

  function Prefix(text: string, r: Rewritten): Rewritten {
    r.(sql := text + r.sql)
  }

  lemma {:induction false} PrefixPrefix(a: string, b: string, r: Rewritten)
    ensures Prefix(a, Prefix(b, r)) == Prefix(a + b, r)
  {}
}
