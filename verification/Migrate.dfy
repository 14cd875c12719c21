/** T-SQL quoting in `migrate.rs`, and what a lexer makes of the statement that
    records an applied migration. */
module Migrate {
  import opened Common
  import opened Decimals
  import opened SqlLexer
  import opened MarkerProperties

  // ----- Quoting

  /** `value.replace(c, "cc")`. */
  function Doubled(value: string, c: char): string {
    if value == [] then []
    else (if value[0] == c then [c, c] else [value[0]]) + Doubled(value[1..], c)
  }

  function EscapeSqlBracket(value: string): string {
    Doubled(value, ']')
  }

  function EscapeSqlString(value: string): string {
    Doubled(value, '\'')
  }

  /** The content of a quoted region whose opening delimiter has been read, and
      the text after it. */
  function Unquote(s: string, closing: char): (r: Option<(string, string)>)
    ensures r.Some? ==> |r.value.1| < |s|
  {
    if s == [] then None
    else if s[0] != closing then UnquotedThen(s[0], Unquote(s[1..], closing))
    else if 2 <= |s| && s[1] == closing then UnquotedThen(closing, Unquote(s[2..], closing))
    else Some(([], s[1..]))
  }

  function UnquotedThen(c: char, r: Option<(string, string)>): Option<(string, string)> {
    if r.None? then None else Some(([c] + r.value.0, r.value.1))
  }

  /** A quoted value is read back whole, and its region ends where it should. */
  lemma {:induction false} UnquoteDoubled(value: string, closing: char, rest: string)
    requires rest == [] || rest[0] != closing
    ensures Unquote(Doubled(value, closing) + [closing] + rest, closing) == Some((value, rest))
  {
    var s := Doubled(value, closing) + [closing] + rest;
    if value == [] {
      assert s[1..] == rest;
    } else {
      UnquoteDoubled(value[1..], closing, rest);
      var s1 := Doubled(value[1..], closing) + [closing] + rest;
      assert s == (if value[0] == closing then [closing, closing] else [value[0]]) + s1;
      assert if value[0] == closing then s[2..] == s1 else s[1..] == s1;
      assert [value[0]] + value[1..] == value;
    }
  }

  /** A character of the content that is not the closing delimiter. */
  lemma {:induction false} ScanInner(ch: char, t: string, rest: string, closing: char, n: nat)
    requires ch != closing
    requires Scan(t + rest, Quoted(closing), n) == Prefix(t, Scan(rest, Code, n))
    ensures Scan([ch] + t + rest, Quoted(closing), n) == Prefix([ch] + t, Scan(rest, Code, n))
  {
    assert [ch] + t + rest == [ch] + (t + rest);
    assert ([ch] + (t + rest))[1..] == t + rest;
    PrefixPrefix([ch], t, Scan(rest, Code, n));
  }

  /** A doubled closing delimiter. */
  lemma {:induction false} ScanEscaped(t: string, rest: string, closing: char, n: nat)
    requires Scan(t + rest, Quoted(closing), n) == Prefix(t, Scan(rest, Code, n))
    ensures Scan([closing, closing] + t + rest, Quoted(closing), n) ==
            Prefix([closing, closing] + t, Scan(rest, Code, n))
  {
    var r := Scan(rest, Code, n);
    var s1, s2 := [closing] + (t + rest), [closing, closing] + t + rest;
    assert s1[1..] == t + rest && s2[1..] == s1;
    EscapedPair(s2, s1, t + rest, closing, n);
    PrefixPrefix([closing], t, r);
    PrefixPrefix([closing], [closing] + t, r);
    assert [closing] + ([closing] + t) == [closing, closing] + t;
  }

  lemma {:induction false} EscapedPair(s2: string, s1: string, s0: string, closing: char, n: nat)
    requires 2 <= |s2| && s2[0] == closing && s2[1..] == s1 && s1[0] == closing && s1[1..] == s0
    ensures Scan(s2, Quoted(closing), n) == Prefix([closing], Prefix([closing], Scan(s0, Quoted(closing), n)))
  {}

  lemma {:induction false} ScanDoubled(value: string, closing: char, rest: string, n: nat)
    requires rest == [] || rest[0] != closing
    ensures Scan(Doubled(value, closing) + [closing] + rest, Quoted(closing), n) ==
            Prefix(Doubled(value, closing) + [closing], Scan(rest, Code, n))
  {
    if value == [] {
      assert ([closing] + rest)[1..] == rest;
      assert Doubled(value, closing) + [closing] == [closing];
    } else {
      ScanDoubled(value[1..], closing, rest, n);
      var t := Doubled(value[1..], closing) + [closing];
      if value[0] == closing {
        ScanEscaped(t, rest, closing, n);
        assert Doubled(value, closing) + [closing] == [closing, closing] + t;
      } else {
        ScanInner(value[0], t, rest, closing, n);
        assert Doubled(value, closing) + [closing] == [value[0]] + t;
      }
    }
  }

  // ----- Table names

  function FindDot(s: string): (at: Option<nat>)
    ensures at.Some? ==> at.value < |s| && s[at.value] == '.'
    ensures at.Some? ==> forall i :: 0 <= i < at.value ==> s[i] != '.'
    ensures at.None? ==> forall i :: 0 <= i < |s| ==> s[i] != '.'
  {
    if s == [] then None
    else if s[0] == '.' then Some(0)
    else
      var rest := FindDot(s[1..]);
      if rest.None? then None else Some(rest.value + 1)
  }

  function SplitTableName(name: string): (string, string) {
    var dot := FindDot(name);
    if dot.Some? then (name[..dot.value], name[dot.value + 1..]) else ("", name)
  }

  function Bracketed(value: string): string {
    "[" + (EscapeSqlBracket(value) + "]")
  }

  function QuotedTableName(name: string): string {
    var (schema, table) := SplitTableName(name);
    if schema == "" then Bracketed(table) else Bracketed(schema) + "." + Bracketed(table)
  }

  /** The split loses nothing but the dot, and cuts at the first one. */
  lemma {:induction false} SplitJoins(name: string)
    ensures var (schema, table) := SplitTableName(name);
            && (forall i :: 0 <= i < |schema| ==> schema[i] != '.')
            && (name == schema + "." + table || (schema == "" && name == table && FindDot(name).None?))
  {}

  // ----- Binary literals

  function HexDigit(d: nat): char
    requires d < 16
  {
    "0123456789ABCDEF"[d]
  }

  function HexDigits(bytes: seq<byte>): string {
    if bytes == [] then []
    else [HexDigit(bytes[0] / 16), HexDigit(bytes[0] % 16)] + HexDigits(bytes[1..])
  }

  method FormatHex(bytes: seq<byte>) returns (hex: string)
    ensures hex == "0x" + HexDigits(bytes)
  {
    hex := "0x";
    for i := 0 to |bytes|
      invariant bytes[0..] == bytes
      invariant "0x" + HexDigits(bytes) == hex + HexDigits(bytes[i..])
    {
      assert bytes[i..][1..] == bytes[i + 1..];
      hex := hex + [HexDigit(bytes[i] / 16), HexDigit(bytes[i] % 16)];
    }
    assert bytes[|bytes|..] == [];
  }

  function HexValue(c: char): int {
    if '0' <= c <= '9' then c as int - '0' as int
    else if 'A' <= c <= 'F' then c as int - 'A' as int + 10
    else 0
  }

  function HexBytes(hex: string): seq<byte> {
    if |hex| < 2 then []
    else [(16 * HexValue(hex[0]) + HexValue(hex[1])) % 0x100] + HexBytes(hex[2..])
  }

  lemma {:induction false} HexDigitValue(d: nat)
    requires d < 16
    ensures HexValue(HexDigit(d)) == d && Plain(HexDigit(d))
  {}

  /** The literal names exactly the checksum's bytes. */
  lemma {:induction false} HexRoundTrip(bytes: seq<byte>)
    ensures HexBytes(HexDigits(bytes)) == bytes
  {
    if bytes != [] {
      HexRoundTrip(bytes[1..]);
      HexOfByte(bytes[0], HexDigits(bytes[1..]));
    }
  }

  lemma {:induction false} HexOfByte(b: byte, rest: string)
    ensures HexBytes([HexDigit(b / 16), HexDigit(b % 16)] + rest) == [b] + HexBytes(rest)
  {
    HexValueOfByte(b);
  }

  lemma {:induction false} HexValueOfByte(b: byte)
    ensures (16 * HexValue(HexDigit(b / 16)) + HexValue(HexDigit(b % 16))) % 0x100 == b
  {
    HexDigitValue(b / 16);
    HexDigitValue(b % 16);
  }

  lemma {:induction false} HexIsPlain(bytes: seq<byte>)
    ensures AllPlain(HexDigits(bytes))
  {
    if bytes != [] {
      HexIsPlain(bytes[1..]);
      HexDigitValue(bytes[0] / 16);
      HexDigitValue(bytes[0] % 16);
    }
  }

  // ----- The statement

  datatype Migration = Migration(
    version: int, description: string, migrationType: string, sql: string, checksum: seq<byte>, noTx: bool)

  function StringLiteral(value: string): string {
    "N" + ("'" + (EscapeSqlString(value) + "'"))
  }

  const COLUMNS := " (version, " + "description, " + ("migration_type, " + "sql, checksum, ") + "no_tx) VALUES ("

  /** The checksum, the `no_tx` flag and the end of the statement. */
  function Tail(m: Migration): string {
    ", 0x" + HexDigits(m.checksum) + (if m.noTx then ", 1)" else ", 0)")
  }

  function InsertMigrationSql(tableName: string, m: Migration, recordSql: bool): string {
    var sqlText := if recordSql then StringLiteral(m.sql) else "N''";
    "INSERT INTO " + (QuotedTableName(tableName) + (COLUMNS + (IntText(m.version)
    + (", " + StringLiteral(m.description) + (", " + StringLiteral(m.migrationType)
    + (", " + sqlText + Tail(m)))))))
  }

  // ----- Lexing a statement

  datatype Literal = Literal(closing: char, content: string)

  /** A statement with its quoted contents taken out, and those contents in order. */
  datatype Lexed = Lexed(code: string, literals: seq<Literal>)

  function Joined(a: Lexed, b: Lexed): Lexed {
    Lexed(a.code + b.code, a.literals + b.literals)
  }

  function Closing(c: char): Option<char> {
    if c == '\'' || c == '"' then Some(c) else if c == '[' then Some(']') else None
  }

  /** Lexes a statement. From the start of a comment, or of a region that is not
      finished, all text is kept as code. */
  function Lex(s: string): Lexed
    decreases |s|
  {
    if s == [] then Lexed([], [])
    else if Next(Code, s[0], First(s[1..])).LineComment? || Next(Code, s[0], First(s[1..])).BlockOpen? then Lexed(s, [])
    else
      var closing := Closing(s[0]);
      if closing.None? then Joined(Lexed([s[0]], []), Lex(s[1..]))
      else
        var region := Unquote(s[1..], closing.value);
        if region.None? then Lexed(s, [])
        else Joined(Lexed([s[0], closing.value], [Literal(closing.value, region.value.0)]), Lex(region.value.1))
  }

  /** In front of `rest`, the text `text` lexes as `lexed` and is copied by the
      marker scan. */
  predicate LexesAs(text: string, lexed: Lexed, rest: string, n: nat) {
    && Lex(text + rest) == Joined(lexed, Lex(rest))
    && Scan(text + rest, Code, n) == Prefix(text, Scan(rest, Code, n))
  }

  lemma {:induction false} JoinedAssociative(a: Lexed, b: Lexed, c: Lexed)
    ensures Joined(Joined(a, b), c) == Joined(a, Joined(b, c))
  {}

  lemma {:induction false} LexesInTurn(a: string, la: Lexed, b: string, lb: Lexed, rest: string, n: nat)
    requires LexesAs(a, la, b + rest, n) && LexesAs(b, lb, rest, n)
    ensures LexesAs(a + b, Joined(la, lb), rest, n)
  {
    assert a + b + rest == a + (b + rest);
    JoinedAssociative(la, lb, Lex(rest));
    PrefixPrefix(a, b, Scan(rest, Code, n));
  }

  lemma {:induction false} PlainLexed(text: string, rest: string)
    requires AllPlain(text)
    ensures Lex(text + rest) == Joined(Lexed(text, []), Lex(rest))
  {
    if text == [] {
      assert text + rest == rest;
      assert [] + Lex(rest).code == Lex(rest).code && [] + Lex(rest).literals == Lex(rest).literals;
    } else {
      assert (text + rest)[1..] == text[1..] + rest;
      PlainLexed(text[1..], rest);
      JoinedAssociative(Lexed([text[0]], []), Lexed(text[1..], []), Lex(rest));
      assert [text[0]] + text[1..] == text;
    }
  }

  lemma {:induction false} PlainStep(text: string, rest: string, n: nat)
    requires AllPlain(text)
    ensures LexesAs(text, Lexed(text, []), rest, n)
  {
    PlainLexed(text, rest);
    PlainCopied(text, rest, n);
  }

  /** One quoted value is one region, with the value as its content. */
  lemma {:induction false} QuotedStep(opening: char, closing: char, value: string, rest: string, n: nat)
    requires (opening == '\'' && closing == '\'') || (opening == '[' && closing == ']')
    requires rest == [] || rest[0] != closing
    ensures LexesAs([opening] + (Doubled(value, closing) + [closing]),
                 Lexed([opening, closing], [Literal(closing, value)]), rest, n)
  {
    var body := Doubled(value, closing) + [closing];
    assert [opening] + body + rest == [opening] + (body + rest);
    assert ([opening] + (body + rest))[1..] == body + rest;
    UnquoteDoubled(value, closing, rest);
    ScanDoubled(value, closing, rest, n);
    PrefixPrefix([opening], body, Scan(rest, Code, n));
  }

  lemma {:induction false} BracketStep(value: string, rest: string, n: nat)
    requires rest == [] || rest[0] != ']'
    ensures LexesAs(Bracketed(value), Lexed("[]", [Literal(']', value)]), rest, n)
  {
    QuotedStep('[', ']', value, rest, n);
  }

  lemma {:induction false} StringStep(value: string, rest: string, n: nat)
    requires rest == [] || rest[0] != '\''
    ensures LexesAs(StringLiteral(value), Lexed("N''", [Literal('\'', value)]), rest, n)
  {
    var quoted := "'" + (Doubled(value, '\'') + "'");
    QuotedStep('\'', '\'', value, rest, n);
    PlainStep("N", quoted + rest, n);
    LexesInTurn("N", Lexed("N", []), quoted, Lexed("''", [Literal('\'', value)]), rest, n);
    assert Joined(Lexed("N", []), Lexed("''", [Literal('\'', value)])) == Lexed("N''", [Literal('\'', value)]);
  }

  function TableLexed(name: string): Lexed {
    var (schema, table) := SplitTableName(name);
    if schema == "" then Lexed("[]", [Literal(']', table)])
    else Lexed("[].[]", [Literal(']', schema), Literal(']', table)])
  }

  lemma {:induction false} TwoPartStep(schema: string, table: string, rest: string, n: nat)
    requires rest == [] || rest[0] != ']'
    ensures LexesAs(Bracketed(schema) + ("." + Bracketed(table)),
                 Lexed("[].[]", [Literal(']', schema), Literal(']', table)]), rest, n)
  {
    var last, first := Lexed("[]", [Literal(']', table)]), Lexed("[]", [Literal(']', schema)]);
    var tail := "." + Bracketed(table);
    BracketStep(table, rest, n);
    PlainStep(".", Bracketed(table) + rest, n);
    LexesInTurn(".", Lexed(".", []), Bracketed(table), last, rest, n);
    BracketStep(schema, tail + rest, n);
    LexesInTurn(Bracketed(schema), first, tail, Joined(Lexed(".", []), last), rest, n);
    assert Joined(first, Joined(Lexed(".", []), last)) == Lexed("[].[]", [Literal(']', schema), Literal(']', table)]);
  }

  /** A table name becomes one bracketed name, or two around a dot, whose
      contents are the parts of the name. */
  lemma {:induction false} TableStep(name: string, rest: string, n: nat)
    requires rest == [] || rest[0] != ']'
    ensures LexesAs(QuotedTableName(name), TableLexed(name), rest, n)
  {
    var (schema, table) := SplitTableName(name);
    if schema == "" {
      BracketStep(table, rest, n);
    } else {
      TwoPartStep(schema, table, rest, n);
      TwoPartText(schema, table);
    }
  }

  lemma {:induction false} TwoPartText(schema: string, table: string)
    ensures Bracketed(schema) + "." + Bracketed(table) == Bracketed(schema) + ("." + Bracketed(table))
  {}

  lemma {:induction false} DigitsPlain(n: nat)
    ensures AllPlain(Decimal(n))
  {}

  /** A version number, signed or not. */
  lemma {:induction false} VersionStep(version: int, rest: string, n: nat)
    ensures LexesAs(IntText(version), Lexed(IntText(version), []), rest, n)
  {
    if 0 <= version {
      DigitsPlain(version);
      PlainStep(IntText(version), rest, n);
    } else {
      var digits := Decimal(-version);
      DigitsPlain(-version);
      PlainStep(digits, rest, n);
      var tail := digits + rest;
      assert ("-" + tail)[1..] == tail && First(tail) == Some(digits[0]);
      assert LexesAs("-", Lexed("-", []), tail, n);
      LexesInTurn("-", Lexed("-", []), digits, Lexed(digits, []), rest, n);
      assert Joined(Lexed("-", []), Lexed(digits, [])) == Lexed("-" + digits, []);
    }
  }

  lemma {:induction false} AllPlainJoin(a: string, b: string)
    requires AllPlain(a) && AllPlain(b)
    ensures AllPlain(a + b)
  {}

  lemma {:induction false} TailPlain(m: Migration)
    ensures AllPlain(Tail(m))
  {
    HexIsPlain(m.checksum);
    AllPlainJoin(", 0x", HexDigits(m.checksum));
    AllPlainJoin(", 0x" + HexDigits(m.checksum), if m.noTx then ", 1)" else ", 0)");
  }

  /** The recording statement as it must lex: the code depends on the texts only
      through the number of parts of the table name. */
  function InsertLexed(tableName: string, m: Migration, recordSql: bool): Lexed {
    Lexed("INSERT INTO " + TableLexed(tableName).code
          + " (version, description, migration_type, sql, checksum, no_tx) VALUES (" + IntText(m.version)
          + ", N'', N'', N'', 0x" + HexDigits(m.checksum) + (if m.noTx then ", 1)" else ", 0)"),
          TableLexed(tableName).literals
          + [Literal('\'', m.description), Literal('\'', m.migrationType),
             Literal('\'', if recordSql then m.sql else "")])
  }

  /** The same, in the pieces in which it is put together. */
  function InsertPieces(tableName: string, m: Migration, recordSql: bool): Lexed {
    Lexed("INSERT INTO " + (TableLexed(tableName).code + (COLUMNS + (IntText(m.version)
          + (", N''" + (", N''" + (", N''" + Tail(m))))))),
          TableLexed(tableName).literals
          + [Literal('\'', m.description), Literal('\'', m.migrationType), Literal('\'', RecordedSql(m, recordSql))])
  }

  lemma {:induction false} ColumnsPlain()
    ensures AllPlain(COLUMNS)
  {
    AllPlainJoin(" (version, " + "description, ", "migration_type, " + "sql, checksum, ");
    AllPlainJoin(" (version, " + "description, " + ("migration_type, " + "sql, checksum, "), "no_tx) VALUES (");
  }

  function RecordedSql(m: Migration, recordSql: bool): string {
    if recordSql then m.sql else ""
  }

  /** A comma and a string literal. */
  lemma {:induction false} ColumnStep(value: string, rest: string, n: nat)
    requires rest == [] || rest[0] != '\''
    ensures LexesAs(", " + StringLiteral(value), Lexed(", N''", [Literal('\'', value)]), rest, n)
  {
    StringStep(value, rest, n);
    PlainStep(", ", StringLiteral(value) + rest, n);
    LexesInTurn(", ", Lexed(", ", []), StringLiteral(value), Lexed("N''", [Literal('\'', value)]), rest, n);
    assert Joined(Lexed(", ", []), Lexed("N''", [Literal('\'', value)])) == Lexed(", N''", [Literal('\'', value)]);
  }

  /** The three string columns and what follows them. */
  lemma {:induction false} ColumnsStep(m: Migration, recordSql: bool, n: nat)
    ensures var sql := RecordedSql(m, recordSql);
            LexesAs(", " + StringLiteral(m.description) + (", " + StringLiteral(m.migrationType)
                 + (", " + StringLiteral(sql) + Tail(m))),
                 Lexed(", N''" + (", N''" + (", N''" + Tail(m))),
                       [Literal('\'', m.description), Literal('\'', m.migrationType), Literal('\'', sql)]), "", n)
  {
    var sql := RecordedSql(m, recordSql);
    var d, ty := ", " + StringLiteral(m.description), ", " + StringLiteral(m.migrationType);
    var q := ", " + StringLiteral(sql);
    var ld, lt, lq := Literal('\'', m.description), Literal('\'', m.migrationType), Literal('\'', sql);
    var t3 := Tail(m);
    TailPlain(m);
    PlainStep(t3, "", n);
    ColumnStep(sql, t3 + "", n);
    LexesInTurn(q, Lexed(", N''", [lq]), t3, Lexed(t3, []), "", n);
    var l2 := Lexed(", N''" + t3, [lq]);
    assert Joined(Lexed(", N''", [lq]), Lexed(t3, [])) == l2;
    ColumnStep(m.migrationType, q + t3 + "", n);
    LexesInTurn(ty, Lexed(", N''", [lt]), q + t3, l2, "", n);
    var l1 := Lexed(", N''" + (", N''" + t3), [lt, lq]);
    assert Joined(Lexed(", N''", [lt]), l2) == l1;
    ColumnStep(m.description, ty + (q + t3) + "", n);
    LexesInTurn(d, Lexed(", N''", [ld]), ty + (q + t3), l1, "", n);
    assert Joined(Lexed(", N''", [ld]), l1) == Lexed(", N''" + (", N''" + (", N''" + t3)), [ld, lt, lq]);
  }

  /** The text after the table name. */
  function ValuesText(m: Migration, recordSql: bool): string {
    COLUMNS + (IntText(m.version)
    + (", " + StringLiteral(m.description) + (", " + StringLiteral(m.migrationType)
    + (", " + StringLiteral(RecordedSql(m, recordSql)) + Tail(m)))))
  }

  function ValuesLexed(m: Migration, recordSql: bool): Lexed {
    Lexed(COLUMNS + (IntText(m.version) + (", N''" + (", N''" + (", N''" + Tail(m))))),
          [Literal('\'', m.description), Literal('\'', m.migrationType), Literal('\'', RecordedSql(m, recordSql))])
  }

  lemma {:induction false} ValuesStep(m: Migration, recordSql: bool, n: nat)
    ensures LexesAs(ValuesText(m, recordSql), ValuesLexed(m, recordSql), "", n)
  {
    var sql := RecordedSql(m, recordSql);
    var columns := ", " + StringLiteral(m.description) + (", " + StringLiteral(m.migrationType)
                   + (", " + StringLiteral(sql) + Tail(m)));
    var lc := Lexed(", N''" + (", N''" + (", N''" + Tail(m))),
                    [Literal('\'', m.description), Literal('\'', m.migrationType), Literal('\'', sql)]);
    var v := IntText(m.version);
    ColumnsStep(m, recordSql, n);
    VersionStep(m.version, columns + "", n);
    LexesInTurn(v, Lexed(v, []), columns, lc, "", n);
    var l3 := Lexed(v + lc.code, lc.literals);
    assert Joined(Lexed(v, []), lc) == l3;
    ColumnsPlain();
    PlainStep(COLUMNS, v + columns + "", n);
    LexesInTurn(COLUMNS, Lexed(COLUMNS, []), v + columns, l3, "", n);
    assert Joined(Lexed(COLUMNS, []), l3) == ValuesLexed(m, recordSql);
  }

  lemma {:induction false} InsertStep(tableName: string, m: Migration, recordSql: bool, n: nat)
    ensures LexesAs("INSERT INTO " + (QuotedTableName(tableName) + ValuesText(m, recordSql)),
                 InsertPieces(tableName, m, recordSql), "", n)
  {
    var table, lt := QuotedTableName(tableName), TableLexed(tableName);
    var values, lv := ValuesText(m, recordSql), ValuesLexed(m, recordSql);
    ValuesStep(m, recordSql, n);
    assert (values + "")[0] == ' ';
    TableStep(tableName, values + "", n);
    InsertParts(table, lt, values, lv, n);
  }

  lemma {:induction false} PiecesJoined(tableName: string, m: Migration, recordSql: bool)
    ensures InsertPieces(tableName, m, recordSql) == InsertLexed(tableName, m, recordSql)
  {
    var columns := " (version, description, migration_type, sql, checksum, no_tx) VALUES (";
    var hex, end := HexDigits(m.checksum), if m.noTx then ", 1)" else ", 0)";
    ColumnsJoined();
    SevenJoined("INSERT INTO ", TableLexed(tableName).code, columns, IntText(m.version), hex, end);
  }

  lemma {:induction false} ColumnsJoined()
    ensures COLUMNS == " (version, description, migration_type, sql, checksum, no_tx) VALUES ("
  {
    var first, last := " (version, description, ", "no_tx) VALUES (";
    assert " (version, " + "description, " == first;
    assert "migration_type, " + "sql, checksum, " == "migration_type, sql, checksum, ";
    FirstColumns();
    LastColumns();
  }

  lemma {:induction false} FirstColumns()
    ensures " (version, description, " + "migration_type, sql, checksum, " ==
            " (version, description, migration_type, sql, checksum, "
  {}

  lemma {:induction false} LastColumns()
    ensures " (version, description, migration_type, sql, checksum, " + "no_tx) VALUES (" ==
            " (version, description, migration_type, sql, checksum, no_tx) VALUES ("
  {}

  lemma {:induction false} SevenJoined(a: string, b: string, c: string, d: string, hex: string, end: string)
    ensures a + (b + (c + (d + (", N''" + (", N''" + (", N''" + (", 0x" + hex + end))))))) ==
            a + b + c + d + ", N'', N'', N'', 0x" + hex + end
  {
    assert ", N''" + (", N''" + (", N''" + (", 0x" + hex + end))) == ", N'', N'', N'', 0x" + hex + end;
  }

  lemma {:induction false} InsertParts(table: string, lt: Lexed, values: string, lv: Lexed, n: nat)
    requires LexesAs(table, lt, values + "", n) && LexesAs(values, lv, "", n)
    ensures LexesAs("INSERT INTO " + (table + values),
                 Lexed("INSERT INTO " + (lt.code + lv.code), lt.literals + lv.literals), "", n)
  {
    LexesInTurn(table, lt, values, lv, "", n);
    PlainStep("INSERT INTO ", table + values + "", n);
    LexesInTurn("INSERT INTO ", Lexed("INSERT INTO ", []), table + values, Joined(lt, lv), "", n);
    JoinedCode("INSERT INTO ", Joined(lt, lv));
  }

  lemma {:induction false} JoinedCode(code: string, l: Lexed)
    ensures Joined(Lexed(code, []), l) == Lexed(code + l.code, l.literals)
  {}

  /** A step with nothing after it is the whole statement. */
  lemma {:induction false} LastStep(text: string, lexed: Lexed, n: nat)
    requires LexesAs(text, lexed, "", n)
    ensures Lex(text) == lexed && Scan(text, Code, n) == Rewritten(text, n)
  {
    assert text + "" == text;
    assert lexed.code + "" == lexed.code && lexed.literals + [] == lexed.literals;
  }

  /** Whatever the table name, the description, the SQL text and the checksum,
      the recording statement lexes as fixed code around exactly those texts,
      and the marker rewriter passes it through with no marker found. */
  lemma {:induction false} InsertLexes(tableName: string, m: Migration, recordSql: bool, n: nat)
    ensures Lex(InsertMigrationSql(tableName, m, recordSql)) == InsertLexed(tableName, m, recordSql)
    ensures Scan(InsertMigrationSql(tableName, m, recordSql), Code, n) ==
            Rewritten(InsertMigrationSql(tableName, m, recordSql), n)
  {
    InsertStep(tableName, m, recordSql, n);
    assert StringLiteral("") == "N''";
    var text := "INSERT INTO " + (QuotedTableName(tableName) + ValuesText(m, recordSql));
    LastStep(text, InsertPieces(tableName, m, recordSql), n);
    PiecesJoined(tableName, m, recordSql);
  }
}
