/**
 * From the request body to the executor: which bodies lead to which statements, and that a body, being a C string,
 * brings no NUL into a statement. This is what the storage and execution theorems ask of the values of an INSERT.
 */
module Input {
  import opened Wrappers
  import opened Ast
  import opened Text
  import opened Lexer
  import opened Parser
  import opened SqlText
  import opened JsonObjects
  import opened ExecFacts
  import Json

  // ---- the JSON body ----

  lemma {:induction false} SkipWsClean(s: string)
    requires NulFree(s)
    ensures NulFree(Json.SkipWs(s))
  {
    if s != "" && Json.IsJsonSpace(s[0]) {
      SkipWsClean(s[1..]);
    }
  }

  lemma {:induction false} BodyClean(s: string, text: string)
    requires NulFree(s) && NulFree(text)
    ensures var r := Json.StringBody(s, text); r.Some? ==> NulFree(r.value.0) && NulFree(r.value.1)
    decreases |s|
  {
    if s == "" || s[0] == '"' {
    } else if s[0] == '\\' {
      if |s| > 1 && Json.Unescape(s[1]).Some? {
        BodyClean(s[2..], text + [Json.Unescape(s[1]).value]);
      }
    } else {
      BodyClean(s[1..], text + [s[0]]);
    }
  }

  lemma ParseStringClean(s: string)
    requires NulFree(s)
    ensures var r := Json.ParseString(s); r.Some? ==> NulFree(r.value.0) && NulFree(r.value.1)
  {
    if s != "" {
      BodyClean(s[1..], "");
    }
  }

  lemma {:induction false} SkipNumberClean(s: string)
    requires NulFree(s)
    ensures NulFree(Json.SkipNumber(s))
  {
    if s != "" && Json.IsNumberChar(s[0]) {
      SkipNumberClean(s[1..]);
    }
  }

  lemma SkipValueClean(s: string)
    requires NulFree(s)
    ensures Json.SkipValue(s).Some? ==> NulFree(Json.SkipValue(s).value)
  {
    hide Json.SkipWs, Json.SkipNumber, Json.ParseString;
    SkipWsClean(s);
    ParseStringClean(Json.SkipWs(s));
    SkipNumberClean(Json.SkipWs(s));
  }

  ghost predicate FoundClean(found: Option<string>) {
    found.Some? ==> NulFree(found.value)
  }

  lemma FieldClean(s: string, found: Option<string>)
    requires NulFree(s) && FoundClean(found)
    ensures var r := Json.Field(s, found); r.Some? ==> FoundClean(r.value.0) && NulFree(r.value.1)
  {
    hide Json.SkipWs, Json.SkipValue, Json.ParseString;
    ParseStringClean(s);
    if Json.ParseString(s).Some? {
      var colon := Json.SkipWs(Json.ParseString(s).value.1);
      SkipWsClean(Json.ParseString(s).value.1);
      if colon != "" {
        SkipWsClean(colon[1..]);
        ParseStringClean(Json.SkipWs(colon[1..]));
        SkipValueClean(Json.SkipWs(colon[1..]));
      }
    }
  }

  lemma {:induction false} FieldsClean(s: string, found: Option<string>)
    requires NulFree(s) && FoundClean(found)
    ensures Json.Fields(s, found).Sql? ==> NulFree(Json.Fields(s, found).value)
    decreases |s|
  {
    hide Json.SkipWs, Json.Field;
    var start := Json.SkipWs(s);
    SkipWsClean(s);
    FieldClean(start, found);
    var field := Json.Field(start, found);
    if !(start != "" && start[0] == '}') && field.Some? {
      var next := Json.SkipWs(field.value.1);
      SkipWsClean(field.value.1);
      if next != "" && next[0] == ',' {
        FieldsClean(next[1..], field.value.0);
      }
    }
  }

  /** The SQL text taken from a body holds no NUL. */
  lemma ExtractClean(body: string)
    requires NulFree(body)
    ensures Json.Extract(body).Sql? ==> NulFree(Json.Extract(body).value)
  {
    hide Json.SkipWs, Json.Fields;
    var start := Json.SkipWs(body);
    SkipWsClean(body);
    if start != "" {
      FieldsClean(start[1..], None);
    }
  }

  // ---- the tokens ----

  ghost predicate TokensClean(ts: Tokens) {
    forall i | 0 <= i < |ts| :: NulFree(ts[i].text)
  }

  lemma {:induction false} StringRestClean(s: string, last: char, text: string)
    requires NulFree(s) && NulFree(text)
    ensures var r := StringRest(s, last, text); r.Some? ==> NulFree(r.value.0) && NulFree(r.value.1)
    decreases |s|
  {
    if s == "" {
    } else if s[0] != '\'' {
      StringRestClean(s[1..], s[0], text + [s[0]]);
    } else if |s| > 1 && s[1] == '\'' {
      StringRestClean(s[2..], '\'', text + "'");
    }
  }

  /** No token of a clean input holds a NUL. */
  lemma {:induction false} LexClean(s: string)
    requires NulFree(s)
    ensures Lex(s).Some? ==> TokensClean(Lex(s).value)
    decreases |s|
  {
    hide StringRest, IsWordChar;
    if s == "" {
    } else if IsSpace(s[0]) {
      LexClean(s[1..]);
    } else if IsWordChar(s[0]) {
      LexClean(s[WordLength(s)..]);
    } else if s[0] == '\'' {
      StringRestShrinks(s[1..], '\'', "");
      StringRestClean(s[1..], '\'', "");
      if StringRest(s[1..], '\'', "").Some? {
        LexClean(StringRest(s[1..], '\'', "").value.1);
      }
    } else {
      LexClean(s[1..]);
    }
  }

  // ---- the statement ----

  ghost predicate AllClean(items: seq<string>) {
    forall i | 0 <= i < |items| :: NulFree(items[i])
  }

  lemma {:induction false} ItemsFromClean(ts: Tokens, any: bool, items: seq<string>)
    requires Ended(ts) && TokensClean(ts) && AllClean(items)
    ensures var r := ItemsFrom(ts, any, items); r.Some? ==> AllClean(r.value.0) && TokensClean(r.value.1)
    decreases |ts|
  {
    hide NulFree, IsValue;
    if Match(ts, Comma).Some? && Item(ts[1..], any).Some? {
      ItemsFromClean(ts[2..], any, items + [ts[1].text]);
    }
  }

  lemma ItemsClean(ts: Tokens, any: bool)
    requires Ended(ts) && TokensClean(ts)
    ensures var r := Items(ts, any); r.Some? ==> AllClean(r.value.0) && TokensClean(r.value.1)
  {
    hide NulFree, IsValue;
    if Item(ts, any).Some? {
      ItemsFromClean(ts[1..], any, [ts[0].text]);
    }
  }

  /** The value list of an INSERT, and where it starts. */
  lemma InsertClean(ts: Tokens)
    requires Ended(ts) && TokensClean(ts) && InsertRest(ts).Some?
    ensures InsertRest(ts).value.0.Insert? && AllClean(InsertRest(ts).value.0.values)
  {
    hide NulFree, Items, IsKeyword, AllClean;
    var t4 := ts[4..];
    ItemsClean(t4, false);
    ItemsClean(Items(t4, false).value.1[3..], true);
  }

  lemma SelectSelects(ts: Tokens)
    requires Ended(ts) && SelectRest(ts).Some?
    ensures SelectRest(ts).value.0.Select?
  {
    hide Items, WhereRest, IsKeyword;
  }

  /** Whatever is lexed and parsed from a clean text has clean values. */
  lemma ParsedClean(sql: string)
    requires NulFree(sql)
    ensures Lex(sql).Some? ==> Ended(Lex(sql).value)
    ensures Lex(sql).Some? && ParseTokens(Lex(sql).value).Some? ==> CStrings(ParseTokens(Lex(sql).value).value)
  {
    hide Lex, NulFree, InsertRest, SelectRest, IsKeyword;
    LexEnded(sql);
    LexClean(sql);
    if Lex(sql).Some? && InsertRest(Lex(sql).value).Some? {
      InsertClean(Lex(sql).value);
    }
    if Lex(sql).Some? && SelectRest(Lex(sql).value).Some? {
      SelectSelects(Lex(sql).value);
    }
  }

  lemma ParsedNulFree(sql: string)
    requires NulFree(sql)
    ensures Parsed(sql).Some? ==> CStrings(Parsed(sql).value)
  {
    hide Lex, ParseTokens, CStrings;
    LexEnded(sql);
    ParsedClean(sql);
  }

  /** The statement a request asks for: the body's `sql` text, lexed and parsed. */
  function StatementOf(body: string): Option<Statement> {
    var sql := Json.Extract(body);
    if !sql.Sql? then None else Parsed(sql.value)
  }

  /**
   * A request leads to a statement if and only if its body spells a flat object whose last `sql` text spells that
   * statement, and no `sql` value of it is anything but a string.
   */
  lemma RequestExactly(body: string, s: Statement)
    ensures StatementOf(body) == Some(s)
       <==> exists ms: seq<Json.Member>, text: string ::
              IsObject(body, ms) && Json.Verdict(ms, None) == Json.Sql(text) && Writes(text, s)
  {
    hide Json.Extract, Json.Verdict, Parsed, Writes, IsObject;
    var sql := Json.Extract(body);
    if StatementOf(body) == Some(s) {
      ExtractExactly(body, sql);
      SqlExactly(sql.value, s);
      var ms: seq<Json.Member> :| IsObject(body, ms) && Json.Verdict(ms, None) == sql;
    }
    if exists ms: seq<Json.Member>, text: string ::
        IsObject(body, ms) && Json.Verdict(ms, None) == Json.Sql(text) && Writes(text, s) {
      var ms: seq<Json.Member>, text: string :|
        IsObject(body, ms) && Json.Verdict(ms, None) == Json.Sql(text) && Writes(text, s);
      ExtractExactly(body, Json.Sql(text));
      SqlExactly(text, s);
    }
  }

  /** Every statement that reaches the executor meets its condition on values. */
  lemma RequestClean(body: string)
    requires NulFree(body)
    ensures StatementOf(body).Some? ==> CStrings(StatementOf(body).value)
  {
    hide Json.Extract, Parsed, CStrings;
    ExtractClean(body);
    if Json.Extract(body).Sql? {
      ParsedNulFree(Json.Extract(body).value);
    }
  }
}
