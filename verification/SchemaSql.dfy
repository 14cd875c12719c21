/** The statement that creates a schema: a bracketed name inside a string. */
module SchemaSql {
  import opened Common
  import opened SqlLexer
  import opened MarkerProperties
  import opened Migrate

  const SCHEMA_TEST := "IF NOT EXISTS " + ("(SELECT * FROM " + ("sys.schemas " + "WHERE name = "))

  /** The statement that is to be run if the schema is missing. */
  function SchemaBatch(name: string): string {
    "CREATE SCHEMA " + Bracketed(name)
  }

  /** `create_schema_if_not_exists`. The batch goes into a string as it is. */
  function CreateSchemaSql(name: string): string {
    SCHEMA_TEST + (StringLiteral(name) + (") EXEC(" + ("'" + (SchemaBatch(name) + "')"))))
  }

  /** As it should lex: the name and the batch are the contents of the two strings. */
  function SchemaLexed(name: string): Lexed {
    Lexed(SCHEMA_TEST + "N'') EXEC('')", [Literal('\'', name), Literal('\'', SchemaBatch(name))])
  }

  // ----- Reading a quoted value the other way round

  predicate Contains(value: string, c: char) {
    value != [] && (value[0] == c || Contains(value[1..], c))
  }

  lemma {:induction false} DoubledLength(value: string, c: char)
    ensures |Doubled(value, c)| >= |value|
    ensures |Doubled(value, c)| == |value| <==> !Contains(value, c)
    ensures !Contains(value, c) ==> Doubled(value, c) == value
  {
    if value != [] {
      DoubledLength(value[1..], c);
      assert value == [value[0]] + value[1..];
    }
  }

  lemma {:induction false} DoubledJoin(a: string, b: string, c: char)
    ensures Doubled(a + b, c) == Doubled(a, c) + Doubled(b, c)
    ensures Contains(a + b, c) <==> Contains(a, c) || Contains(b, c)
  {
    if a == [] {
      assert a + b == b;
    } else {
      assert (a + b)[1..] == a[1..] + b;
      DoubledJoin(a[1..], b, c);
    }
  }

  /** What a region is read as is what was quoted there. */
  lemma {:induction false} UnquoteOnlyDoubled(s: string, closing: char)
    requires Unquote(s, closing).Some?
    ensures var (value, rest) := Unquote(s, closing).value; s == Doubled(value, closing) + ([closing] + rest)
  {
    var (value, rest) := Unquote(s, closing).value;
    if s[0] != closing || (2 <= |s| && s[1] == closing) {
      var width := if s[0] != closing then 1 else 2;
      UnquoteOnlyDoubled(s[width..], closing);
      assert value[1..] == Unquote(s[width..], closing).value.0;
      assert s == s[..width] + s[width..];
      assert Doubled(value, closing) == s[..width] + Doubled(value[1..], closing);
    } else {
      assert value == [];
      assert s == [closing] + rest;
    }
  }

  lemma {:induction false} LongerThanRaw(text: string, doubled: string, rest: string)
    requires |doubled| > |text|
    ensures text + "')" != doubled + ("'" + rest)
  {
    if rest == [] {
      var a, b := text + "')", doubled + ("'" + rest);
      assert a[|a| - 1] == ')' && b[|b| - 1] == '\'';
    }
  }

  /** A text put between quotes as it is, before a closing parenthesis, is the
      content of the string exactly when it has no quote. */
  lemma {:induction false} RawQuoted(text: string)
    ensures var region := Unquote(text + "')", '\'');
            && (region.Some? && region.value.0 == text <==> !Contains(text, '\''))
            && (!Contains(text, '\'') ==> region.value.1 == ")")
  {
    var s := text + "')";
    DoubledLength(text, '\'');
    if !Contains(text, '\'') {
      assert s == Doubled(text, '\'') + ['\''] + ")";
      UnquoteDoubled(text, '\'', ")");
    } else if Unquote(s, '\'').Some? && Unquote(s, '\'').value.0 == text {
      UnquoteOnlyDoubled(s, '\'');
      LongerThanRaw(text, Doubled(text, '\''), Unquote(s, '\'').value.1);
    }
  }

  // ----- The statement

  lemma {:induction false} BatchQuotes(name: string)
    ensures Contains(SchemaBatch(name), '\'') <==> Contains(name, '\'')
  {
    var escaped := EscapeSqlBracket(name);
    BracketDoublingKeeps(name);
    DoubledJoin("CREATE SCHEMA ", Bracketed(name), '\'');
    DoubledJoin("[", escaped + "]", '\'');
    DoubledJoin(escaped, "]", '\'');
    assert Contains("[", '\'') == Contains([], '\'') && Contains("]", '\'') == Contains([], '\'');
  }

  lemma {:induction false} BracketDoublingKeeps(name: string)
    ensures Contains(EscapeSqlBracket(name), '\'') <==> Contains(name, '\'')
  {
    if name != [] {
      BracketDoublingKeeps(name[1..]);
      DoubledJoin(if name[0] == ']' then "]]" else [name[0]], EscapeSqlBracket(name[1..]), '\'');
      assert Contains("]]", '\'') == Contains("]", '\'') && Contains("]", '\'') == Contains("", '\'');
      assert Contains([name[0]], '\'') <==> name[0] == '\'' || Contains([], '\'');
    }
  }

  lemma {:induction false} PlainUnquoted(text: string)
    requires AllPlain(text)
    ensures !Contains(text, '\'')
  {
    if text != [] {
      PlainUnquoted(text[1..]);
    }
  }

  lemma {:induction false} TestPlain()
    ensures AllPlain(SCHEMA_TEST)
  {
    AllPlainJoin("sys.schemas ", "WHERE name = ");
    AllPlainJoin("(SELECT * FROM ", "sys.schemas " + "WHERE name = ");
    AllPlainJoin("IF NOT EXISTS ", "(SELECT * FROM " + ("sys.schemas " + "WHERE name = "));
  }

  /** The statement lexes as it should up to the second string. */
  lemma {:induction false} SchemaFront(name: string)
    ensures var rest := "'" + (SchemaBatch(name) + "')");
            Lex(CreateSchemaSql(name)) ==
            Joined(Lexed(SCHEMA_TEST + "N'') EXEC(", [Literal('\'', name)]), Lex(rest))
  {
    var rest := "'" + (SchemaBatch(name) + "')");
    var text, lexed := StringLiteral(name) + ") EXEC(", Lexed("N'') EXEC(", [Literal('\'', name)]);
    SchemaName(name, rest);
    TestPlain();
    TestFirst(SCHEMA_TEST, text, lexed, rest);
    FourParts(SCHEMA_TEST, StringLiteral(name), ") EXEC(", rest);
  }

  lemma {:induction false} SchemaName(name: string, rest: string)
    ensures LexesAs(StringLiteral(name) + ") EXEC(", Lexed("N'') EXEC(", [Literal('\'', name)]), rest, 0)
  {
    var middle := ") EXEC(";
    StringStep(name, middle + rest, 0);
    PlainStep(middle, rest, 0);
    LexesInTurn(StringLiteral(name), Lexed("N''", [Literal('\'', name)]), middle, Lexed(middle, []), rest, 0);
    assert "N''" + middle == "N'') EXEC(";
    assert [Literal('\'', name)] + [] == [Literal('\'', name)];
  }

  lemma {:induction false} TestFirst(test: string, text: string, lexed: Lexed, rest: string)
    requires AllPlain(test) && LexesAs(text, lexed, rest, 0)
    ensures Lex(test + text + rest) == Joined(Lexed(test + lexed.code, lexed.literals), Lex(rest))
  {
    PlainStep(test, text + rest, 0);
    LexesInTurn(test, Lexed(test, []), text, lexed, rest, 0);
    JoinedCode(test, lexed);
  }

  lemma {:induction false} FourParts(a: string, b: string, c: string, d: string)
    ensures a + (b + c) + d == a + (b + (c + d))
  {}

  /** What the lexer makes of the second string. */
  lemma {:induction false} SecondString(text: string)
    ensures var lexed := Lex("'" + (text + "')"));
            lexed == Lexed("'')", [Literal('\'', text)]) <==> !Contains(text, '\'')
    ensures Contains(text, '\'') ==>
              var literals := Lex("'" + (text + "')")).literals;
              literals == [] || literals[0] != Literal('\'', text)
  {
    var s := "'" + (text + "')");
    assert s[1..] == text + "')";
    RawQuoted(text);
    if !Contains(text, '\'') {
      assert Lex(s) == Joined(Lexed("''", [Literal('\'', text)]), Lex(")"));
      assert "''" + ")" == "'')";
      assert [Literal('\'', text)] + [] == [Literal('\'', text)];
    } else {
      assert [Literal('\'', text)][0] == Literal('\'', text);
    }
  }

  /** The statement that creates a schema lexes as fixed code around the name and
      the batch exactly when the name has no quote: the batch is put into the
      second string without escaping it. */
  lemma {:induction false} CreateSchemaLexes(name: string)
    ensures Lex(CreateSchemaSql(name)) == SchemaLexed(name) <==> !Contains(name, '\'')
  {
    var front := Lexed(SCHEMA_TEST + "N'') EXEC(", [Literal('\'', name)]);
    var text := SchemaBatch(name);
    SchemaFront(name);
    BatchQuotes(name);
    SecondString(text);
    if Contains(name, '\'') {
      var literals := Lex("'" + (text + "')")).literals;
      assert (front.literals + literals)[1..] == literals;
      assert SchemaLexed(name).literals[1..] == [Literal('\'', text)];
    } else {
      assert SCHEMA_TEST + "N'') EXEC(" + "'')" == SCHEMA_TEST + "N'') EXEC('')";
    }
  }

  /** The batch itself always lexes as it should: its one bracketed name is the
      schema's. */
  lemma {:induction false} SchemaBatchLexes(name: string)
    ensures Lex(SchemaBatch(name)) == Lexed("CREATE SCHEMA []", [Literal(']', name)])
  {
    BracketStep(name, "", 0);
    PlainStep("CREATE SCHEMA ", Bracketed(name) + "", 0);
    var bracketed := Lexed("[]", [Literal(']', name)]);
    LexesInTurn("CREATE SCHEMA ", Lexed("CREATE SCHEMA ", []), Bracketed(name), bracketed, "", 0);
    JoinedCode("CREATE SCHEMA ", bracketed);
    LastStep(SchemaBatch(name), Lexed("CREATE SCHEMA []", [Literal(']', name)]), 0);
  }
}
