/** The SQL parser: recursive descent over the token array with one index. */
module Parser {
  import opened Wrappers
  import opened Ast
  import opened Lexer
  import opened Text

  function Lower(c: char): char {
    if 'A' <= c <= 'Z' then (c as int + 32) as char else c
  }

  predicate EqualIgnoringCase(a: string, b: string) {
    |a| == |b| && forall i | 0 <= i < |a| :: Lower(a[i]) == Lower(b[i])
  }

  method StringsEqualIgnoreCase(a: string, b: string) returns (equal: bool)
    ensures equal == EqualIgnoringCase(a, b)
  {
    var i := 0;
    while i < |a| && i < |b|
      invariant i <= |a| && i <= |b| && forall k | 0 <= k < i :: Lower(a[k]) == Lower(b[k])
    {
      if Lower(a[i]) != Lower(b[i]) {
        return false;
      }
      i := i + 1;
    }
    return i == |a| && i == |b|;
  }

  type Tokens = seq<Token>

  /** What the lexer delivers: the last token is END, so reading can stop there. */
  predicate Ended(ts: Tokens) {
    ts != [] && ts[|ts| - 1].kind == End
  }

  /** Whatever the lexer accepts ends with an END token, which is what the parser demands. */
  lemma {:induction false} LexEnded(s: string)
    ensures Lex(s).Some? ==> Ended(Lex(s).value)
    decreases |s|
  {
    hide StringRest, IsWordChar;
    if s == "" {
    } else if IsSpace(s[0]) {
      LexEnded(s[1..]);
    } else if IsWordChar(s[0]) {
      LexEnded(s[WordLength(s)..]);
    } else if s[0] == '\'' {
      StringRestShrinks(s[1..], '\'', "");
      if StringRest(s[1..], '\'', "").Some? {
        LexEnded(StringRest(s[1..], '\'', "").value.1);
      }
    } else {
      LexEnded(s[1..]);
    }
  }

  // ---- the grammar on the remaining tokens ----

  function Match(ts: Tokens, kind: Kind): (r: Option<Tokens>)
    requires Ended(ts) && kind != End
    ensures r.Some? ==> Ended(r.value) && |r.value| < |ts|
  {
    if ts[0].kind == kind then Some(ts[1..]) else None
  }

  predicate IsKeyword(t: Token, keyword: string) {
    t.kind == Identifier && EqualIgnoringCase(t.text, keyword)
  }

  function Keyword(ts: Tokens, keyword: string): (r: Option<Tokens>)
    requires Ended(ts)
    ensures r.Some? ==> Ended(r.value) && |r.value| < |ts|
  {
    if IsKeyword(ts[0], keyword) then Some(ts[1..]) else None
  }

  predicate IsValue(t: Token) {
    t.kind == StringLiteral || t.kind == Number || t.kind == Identifier
  }

  /** An identifier, or any value when `any` is set. */
  function Item(ts: Tokens, any: bool): (r: Option<(string, Tokens)>)
    requires Ended(ts)
    ensures r.Some? ==> Ended(r.value.1) && |r.value.1| < |ts|
  {
    if (if any then IsValue(ts[0]) else ts[0].kind == Identifier) then Some((ts[0].text, ts[1..])) else None
  }

  function ItemsFrom(ts: Tokens, any: bool, items: seq<string>): (r: Option<(seq<string>, Tokens)>)
    requires Ended(ts)
    ensures r.Some? ==> Ended(r.value.1) && |r.value.1| <= |ts|
    decreases |ts|
  {
    var comma := Match(ts, Comma);
    if comma.None? then Some((items, ts))
    else
      var (item, rest) :- Item(comma.value, any);
      ItemsFrom(rest, any, items + [item])
  }

  /** The list goes on after a comma. */
  function AfterComma(ts: Tokens, any: bool, items: seq<string>): Option<(seq<string>, Tokens)>
    requires Ended(ts)
  {
    var (item, rest) :- Item(ts, any);
    ItemsFrom(rest, any, items + [item])
  }

  lemma FromStep(ts: Tokens, any: bool, items: seq<string>)
    requires Ended(ts)
    ensures ItemsFrom(ts, any, items)
         == if Match(ts, Comma).None? then Some((items, ts)) else AfterComma(Match(ts, Comma).value, any, items)
  {
    hide Item, Match;
  }

  /** A list of at least one item separated by commas. */
  function Items(ts: Tokens, any: bool): (r: Option<(seq<string>, Tokens)>)
    requires Ended(ts)
    ensures r.Some? ==> Ended(r.value.1) && |r.value.1| < |ts|
  {
    var (item, rest) :- Item(ts, any);
    ItemsFrom(rest, any, [item])
  }

  /** INSERT INTO table (columns) */
  function InsertHead(ts: Tokens): (r: Option<(string, seq<string>, Tokens)>)
    requires Ended(ts)
    ensures r.Some? ==> Ended(r.value.2)
  {
    var t1 :- Keyword(ts, "INSERT");
    var t2 :- Keyword(t1, "INTO");
    var (table, t3) :- Item(t2, false);
    var t4 :- Match(t3, LParen);
    var (columns, t5) :- Items(t4, false);
    var t6 :- Match(t5, RParen);
    Some((table, columns, t6))
  }

  /** VALUES (values) */
  function InsertTail(ts: Tokens): (r: Option<(seq<string>, Tokens)>)
    requires Ended(ts)
    ensures r.Some? ==> Ended(r.value.1)
  {
    var t7 :- Keyword(ts, "VALUES");
    var t8 :- Match(t7, LParen);
    var (values, t9) :- Items(t8, true);
    var t10 :- Match(t9, RParen);
    Some((values, t10))
  }

  function InsertRest(ts: Tokens): (r: Option<(Statement, Tokens)>)
    requires Ended(ts)
    ensures r.Some? ==> Ended(r.value.1)
  {
    var (table, columns, t6) :- InsertHead(ts);
    var (values, t10) :- InsertTail(t6);
    Some((Insert(table, columns, values), t10))
  }

  /** The optional WHERE clause; a second condition is refused. */
  function WhereRest(ts: Tokens): (r: Option<(Option<Condition>, Tokens)>)
    requires Ended(ts)
    ensures r.Some? ==> Ended(r.value.1)
  {
    var t0 := Keyword(ts, "WHERE");
    if t0.None? then Some((None, ts))
    else
      var (column, t1) :- Item(t0.value, false);
      var t2 :- Match(t1, Equals);
      var (value, t3) :- Item(t2, true);
      if IsKeyword(t3[0], "AND") || IsKeyword(t3[0], "OR") then None
      else Some((Some(Condition(column, value)), t3))
  }

  function SelectRest(ts: Tokens): (r: Option<(Statement, Tokens)>)
    requires Ended(ts)
    ensures r.Some? ==> Ended(r.value.1)
  {
    var t1 :- Keyword(ts, "SELECT");
    var star := Match(t1, Star);
    var (columns, t2) :- if star.Some? then Some(([], star.value)) else Items(t1, false);
    var t3 :- Keyword(t2, "FROM");
    var (table, t4) :- Item(t3, false);
    var (where, t5) :- WhereRest(t4);
    Some((Select(table, star.Some?, columns, where), t5))
  }

  /** A statement, a semicolon, and nothing after it. */
  function ParseTokens(ts: Tokens): Option<Statement>
    requires Ended(ts)
  {
    var (statement, t1) :-
      if IsKeyword(ts[0], "INSERT") then InsertRest(ts)
      else if IsKeyword(ts[0], "SELECT") then SelectRest(ts)
      else None;
    var t2 :- Match(t1, Semicolon);
    if t2[0].kind == End then Some(statement) else None
  }

  // ---- the parser object ----

  class ParserState {
    const tokens: Tokens
    var index: nat

    /** Every read is at `index`, which never passes the END token. */
    ghost predicate Valid()
      reads this
    {
      Ended(tokens) && index < |tokens|
    }

    ghost function Rest(): Tokens
      requires Valid()
      reads this
    {
      tokens[index..]
    }

    constructor (tokens: Tokens)
      requires Ended(tokens)
      ensures Valid() && this.tokens == tokens && Rest() == tokens
    {
      this.tokens := tokens;
      index := 0;
    }

    method MatchType(kind: Kind) returns (ok: bool)
      requires Valid() && kind != End
      modifies this`index
      ensures Valid() && ok == Match(old(Rest()), kind).Some?
      ensures Rest() == if ok then Match(old(Rest()), kind).value else old(Rest())
    {
      if tokens[index].kind == kind {
        index := index + 1;
        return true;
      }
      return false;
    }

    method ExpectKeyword(keyword: string) returns (ok: bool)
      requires Valid()
      modifies this`index
      ensures Valid() && ok == Keyword(old(Rest()), keyword).Some?
      ensures Rest() == if ok then Keyword(old(Rest()), keyword).value else old(Rest())
    {
      ok := false;
      if tokens[index].kind == Identifier {
        ok := StringsEqualIgnoreCase(tokens[index].text, keyword);
        if ok {
          index := index + 1;
        }
      }
    }

    method AtEnd() returns (end: bool)
      requires Valid()
      ensures end == (Rest()[0].kind == End)
    {
      end := tokens[index].kind == End;
    }

    /** Reads an identifier, or any value when `any` is set. */
    method ParseItem(any: bool) returns (item: Option<string>)
      requires Valid()
      modifies this`index
      ensures Valid() && item.Some? == Item(old(Rest()), any).Some?
      ensures item.Some? ==> (item.value, Rest()) == Item(old(Rest()), any).value
    {
      var token := tokens[index];
      if if any then IsValue(token) else token.kind == Identifier {
        index := index + 1;
        return Some(token.text);
      }
      return None;
    }

    method ParseItems(any: bool) returns (items: Option<seq<string>>)
      requires Valid()
      modifies this`index
      ensures Valid() && items.Some? == Items(old(Rest()), any).Some?
      ensures items.Some? ==> (items.value, Rest()) == Items(old(Rest()), any).value
    {
      hide Item, Match, ItemsFrom;
      var item := ParseItem(any);
      if item.None? {
        return None;
      }
      var list := [item.value];
      ghost var all := Items(old(Rest()), any);
      FromStep(Rest(), any, list);
      var more := MatchType(Comma);
      while more
        invariant Valid()
        invariant all == if more then AfterComma(Rest(), any, list) else Some((list, Rest()))
        decreases |tokens| - index, more
      {
        item := ParseItem(any);
        if item.None? {
          return None;
        }
        list := list + [item.value];
        FromStep(Rest(), any, list);
        more := MatchType(Comma);
      }
      return Some(list);
    }

    method ParseInsert() returns (statement: Option<Statement>)
      requires Valid()
      modifies this`index
      ensures Valid() && statement.Some? == InsertRest(old(Rest())).Some?
      ensures statement.Some? ==> (statement.value, Rest()) == InsertRest(old(Rest())).value
    {
      var ok := ExpectKeyword("INSERT");
      if !ok { return None; }
      ok := ExpectKeyword("INTO");
      if !ok { return None; }
      var table := ParseItem(false);
      if table.None? { return None; }
      ok := MatchType(LParen);
      if !ok { return None; }
      var columns := ParseItems(false);
      if columns.None? { return None; }
      ok := MatchType(RParen);
      if !ok { return None; }
      ok := ExpectKeyword("VALUES");
      if !ok { return None; }
      ok := MatchType(LParen);
      if !ok { return None; }
      var values := ParseItems(true);
      if values.None? { return None; }
      ok := MatchType(RParen);
      if !ok { return None; }
      return Some(Insert(table.value, columns.value, values.value));
    }

    method ParseWhere() returns (where: Option<Option<Condition>>)
      requires Valid()
      modifies this`index
      ensures Valid() && where.Some? == WhereRest(old(Rest())).Some?
      ensures where.Some? ==> (where.value, Rest()) == WhereRest(old(Rest())).value
    {
      var present := ExpectKeyword("WHERE");
      if !present { return Some(None); }
      var column := ParseItem(false);
      if column.None? { return None; }
      var ok := MatchType(Equals);
      if !ok { return None; }
      var value := ParseItem(true);
      if value.None? { return None; }
      if IsKeyword(tokens[index], "AND") || IsKeyword(tokens[index], "OR") { return None; }
      return Some(Some(Condition(column.value, value.value)));
    }

    method ParseSelect() returns (statement: Option<Statement>)
      requires Valid()
      modifies this`index
      ensures Valid() && statement.Some? == SelectRest(old(Rest())).Some?
      ensures statement.Some? ==> (statement.value, Rest()) == SelectRest(old(Rest())).value
    {
      var ok := ExpectKeyword("SELECT");
      if !ok { return None; }
      var star := MatchType(Star);
      var columns := Some([]);
      if !star {
        columns := ParseItems(false);
        if columns.None? { return None; }
      }
      ok := ExpectKeyword("FROM");
      if !ok { return None; }
      var table := ParseItem(false);
      if table.None? { return None; }
      var where := ParseWhere();
      if where.None? { return None; }
      return Some(Select(table.value, star, columns.value, where.value));
    }
  }

  method ParseStatement(tokens: Tokens) returns (statement: Option<Statement>)
    requires Ended(tokens)
    ensures statement == ParseTokens(tokens)
  {
    hide InsertRest, SelectRest, Match, EqualIgnoringCase;
    var state := new ParserState(tokens);
    if IsKeyword(tokens[0], "INSERT") {
      statement := state.ParseInsert();
    } else if IsKeyword(tokens[0], "SELECT") {
      statement := state.ParseSelect();
    } else {
      return None;
    }
    if statement.None? { return None; }
    var ok := state.MatchType(Semicolon);
    if !ok { return None; }
    var end := state.AtEnd();
    if !end { return None; }
  }

  // ---- rendering statements and parsing them back ----

  function Word(text: string): Token {
    Token(Identifier, text)
  }

  function Sign(kind: Kind, c: char): Token {
    Token(kind, [c])
  }

  /** Values are rendered as quoted literals. */
  function ItemToken(text: string, quoted: bool): Token {
    if quoted then Token(StringLiteral, text) else Word(text)
  }

  /** Each item after a comma. */
  function MoreTokens(items: seq<string>, quoted: bool): Tokens {
    if items == [] then [] else [Sign(Comma, ','), ItemToken(items[0], quoted)] + MoreTokens(items[1..], quoted)
  }

  function ItemTokens(items: seq<string>, quoted: bool): Tokens {
    if items == [] then [] else [ItemToken(items[0], quoted)] + MoreTokens(items[1..], quoted)
  }

  function WhereTokens(where: Option<Condition>): Tokens {
    if where.None? then []
    else [Word("WHERE"), Word(where.value.column), Sign(Equals, '='), Token(StringLiteral, where.value.value)]
  }

  function StatementTokens(s: Statement): Tokens {
    match s
    case Insert(table, columns, values) =>
      [Word("INSERT"), Word("INTO"), Word(table), Sign(LParen, '(')] + ItemTokens(columns, false)
      + [Sign(RParen, ')'), Word("VALUES"), Sign(LParen, '(')] + ItemTokens(values, true) +
        [Sign(RParen, ')'), Sign(Semicolon, ';')]
    case Select(table, all, columns, where) =>
      [Word("SELECT")] + ListTokens(all, columns)
      + [Word("FROM"), Word(table)] + WhereTokens(where) + [Sign(Semicolon, ';')]
  }

  /** An identifier: word characters not starting with a digit. It may equal a keyword. */
  predicate IsIdentifier(text: string) {
    text != "" && (forall c | c in text :: IsWordChar(c)) && !IsDigit(text[0])
  }

  predicate WellFormed(s: Statement) {
    match s
    case Insert(table, columns, values) =>
      IsIdentifier(table) && columns != [] && values != [] && forall c | c in columns :: IsIdentifier(c)
    case Select(table, all, columns, where) =>
      && IsIdentifier(table) && (all <==> columns == []) && (forall c | c in columns :: IsIdentifier(c))
      && (where.Some? ==> IsIdentifier(where.value.column))
  }

  lemma ReadWord(text: string, rest: Tokens)
    requires Ended(rest)
    ensures var ts := [Word(text)] + rest;
              Ended(ts) && Item(ts, false) == Some((text, rest)) && Keyword(ts, text) == Some(rest)
  {
  }

  lemma ReadSign(kind: Kind, c: char, rest: Tokens)
    requires Ended(rest) && kind != End
    ensures var ts := [Sign(kind, c)] + rest; Ended(ts) && Match(ts, kind) == Some(rest)
  {
  }

  lemma ReadItem(text: string, quoted: bool, rest: Tokens)
    requires Ended(rest)
    ensures var ts := [ItemToken(text, quoted)] + rest; Ended(ts) && Item(ts, quoted) == Some((text, rest))
  {
  }

  lemma Assoc(a: Tokens, b: Tokens, c: Tokens)
    ensures a + b + c == a + (b + c)
  {
  }

  lemma MoreSpelled(items: seq<string>, quoted: bool, rest: Tokens)
    requires items != []
    ensures MoreTokens(items, quoted) + rest
         == [Sign(Comma, ',')] + ([ItemToken(items[0], quoted)] + (MoreTokens(items[1..], quoted) + rest))
  {
    var comma, item, more := [Sign(Comma, ',')], [ItemToken(items[0], quoted)], MoreTokens(items[1..], quoted);
    assert MoreTokens(items, quoted) == comma + item + more;
    hide MoreTokens, Sign, ItemToken;
    Assoc(comma, item, more);
    Assoc(comma, item + more, rest);
    Assoc(item, more, rest);
  }

  lemma NoMore(quoted: bool, rest: Tokens, done: seq<string>)
    requires Ended(rest) && rest[0].kind != Comma
    ensures MoreTokens([], quoted) + rest == rest && ItemsFrom(rest, quoted, done) == Some((done, rest))
  {
  }

  lemma Appending(items: seq<string>, done: seq<string>)
    ensures done + [] == done
    ensures items != [] ==> done + [items[0]] + items[1..] == done + items
  {
  }

  /** Parsing a rendered item list stops at the first token that is not a comma. */
  lemma {:induction false} ParseRenderedFrom(items: seq<string>, quoted: bool, rest: Tokens, done: seq<string>)
    requires Ended(rest) && rest[0].kind != Comma
    ensures Ended(MoreTokens(items, quoted) + rest)
    ensures ItemsFrom(MoreTokens(items, quoted) + rest, quoted, done) == Some((done + items, rest))
  {
    hide Item, ItemToken, Sign, ItemsFrom, MoreTokens, Match;
    Appending(items, done);
    if items == [] {
      NoMore(quoted, rest, done);
    } else {
      hide Ended;
      var tail := MoreTokens(items[1..], quoted) + rest;
      ParseRenderedFrom(items[1..], quoted, rest, done + [items[0]]);
      MoreSpelled(items, quoted, rest);
      FromOne(items[0], quoted, tail, done);
    }
  }

  lemma FromOne(item: string, quoted: bool, tail: Tokens, done: seq<string>)
    requires Ended(tail)
    ensures var ts := [Sign(Comma, ',')] + ([ItemToken(item, quoted)] + tail);
            Ended(ts) && ItemsFrom(ts, quoted, done) == ItemsFrom(tail, quoted, done + [item])
  {
  }

  lemma ItemsSpelled(items: seq<string>, quoted: bool, rest: Tokens)
    requires items != []
    ensures ItemTokens(items, quoted) + rest
         == [ItemToken(items[0], quoted)] + (MoreTokens(items[1..], quoted) + rest)
  {
    hide MoreTokens, ItemToken;
    Assoc([ItemToken(items[0], quoted)], MoreTokens(items[1..], quoted), rest);
  }

  lemma ItemsStart(item: string, quoted: bool, tail: Tokens)
    requires Ended(tail)
    ensures Ended([ItemToken(item, quoted)] + tail)
    ensures Items([ItemToken(item, quoted)] + tail, quoted) == ItemsFrom(tail, quoted, [item])
  {
    hide Item, ItemsFrom, ItemToken;
    ReadItem(item, quoted, tail);
  }

  lemma ParseRenderedItems(items: seq<string>, quoted: bool, rest: Tokens)
    requires Ended(rest) && rest[0].kind != Comma && items != []
    ensures Ended(ItemTokens(items, quoted) + rest)
    ensures Items(ItemTokens(items, quoted) + rest, quoted) == Some((items, rest))
  {
    hide Item, Items, ItemsFrom, ItemToken, ItemTokens, MoreTokens, Ended;
    ParseRenderedFrom(items[1..], quoted, rest, [items[0]]);
    ItemsSpelled(items, quoted, rest);
    ItemsStart(items[0], quoted, MoreTokens(items[1..], quoted) + rest);
    assert [items[0]] + items[1..] == items;
  }

  lemma ParseRenderedInsert(s: Statement, rest: Tokens)
    requires s.Insert? && s.columns != [] && s.values != [] && Ended(rest)
    ensures Ended(StatementTokens(s) + rest) && IsKeyword((StatementTokens(s) + rest)[0], "INSERT")
    ensures InsertRest(StatementTokens(s) + rest) == Some((s, [Sign(Semicolon, ';')] + rest))
  {
    hide Item, Items, Match, Keyword, ItemTokens, IsKeyword, EqualIgnoringCase;
    var t10 := [Sign(Semicolon, ';')] + rest;
    var t9 := [Sign(RParen, ')')] + t10;
    ReadSign(RParen, ')', t10);
    var t8 := ItemTokens(s.values, true) + t9;
    ParseRenderedItems(s.values, true, t9);
    var t7 := [Sign(LParen, '(')] + t8;
    ReadSign(LParen, '(', t8);
    var t6 := [Word("VALUES")] + t7;
    ReadWord("VALUES", t7);
    var t5 := [Sign(RParen, ')')] + t6;
    ReadSign(RParen, ')', t6);
    var t4 := ItemTokens(s.columns, false) + t5;
    ParseRenderedItems(s.columns, false, t5);
    var t3 := [Sign(LParen, '(')] + t4;
    ReadSign(LParen, '(', t4);
    var t2 := [Word(s.table)] + t3;
    ReadWord(s.table, t3);
    var t1 := [Word("INTO")] + t2;
    ReadWord("INTO", t2);
    ReadWord("INSERT", t1);
    InsertSpelled(s, rest, t1, t5);
  }

  lemma InsertSpelled(s: Statement, rest: Tokens, t1: Tokens, t5: Tokens)
    requires s.Insert?
    requires t5 == [Sign(RParen, ')')] + ([Word("VALUES")] + ([Sign(LParen, '(')] + (ItemTokens(s.values, true)
                   + ([Sign(RParen, ')')] + ([Sign(Semicolon, ';')] + rest)))))
    requires t1 == [Word("INTO")] + ([Word(s.table)] + ([Sign(LParen, '(')] + (ItemTokens(s.columns, false) + t5)))
    ensures StatementTokens(s) + rest == [Word("INSERT")] + t1 && IsKeyword((StatementTokens(s) + rest)[0], "INSERT")
  {
    var a, b := [Word("INSERT"), Word("INTO"), Word(s.table), Sign(LParen, '(')], ItemTokens(s.columns, false);
    var c, d := [Sign(RParen, ')'), Word("VALUES"), Sign(LParen, '(')], ItemTokens(s.values, true);
    var e := [Sign(RParen, ')'), Sign(Semicolon, ';')];
    assert StatementTokens(s) == a + b + c + d + e;
    hide StatementTokens, ItemTokens, Sign;
    Assoc(a + b + c + d, e, rest);
    Assoc(a + b + c, d, e + rest);
    Assoc(a + b, c, d + (e + rest));
    Assoc(a, b, c + (d + (e + rest)));
    assert e + rest == [e[0]] + ([e[1]] + rest);
    ThreeSpelled(c[0], c[1], c[2], d + (e + rest));
    ThreeSpelled(a[1], a[2], a[3], b + t5);
    assert a + (b + t5) == [a[0]] + ([a[1], a[2], a[3]] + (b + t5));
  }

  lemma ThreeSpelled(x: Token, y: Token, z: Token, rest: Tokens)
    ensures [x, y, z] + rest == [x] + ([y] + ([z] + rest))
  {
  }

  lemma NoKeyword(kind: Kind, c: char, rest: Tokens, keyword: string)
    requires Ended(rest) && kind != Identifier
    ensures var ts := [Sign(kind, c)] + rest; Ended(ts) && !IsKeyword(ts[0], keyword) && Keyword(ts, keyword) == None
  {
  }

  lemma ParseRenderedWhere(where: Option<Condition>, rest: Tokens)
    requires Ended(rest)
    ensures var end := [Sign(Semicolon, ';')] + rest;
            Ended(WhereTokens(where) + end) && WhereRest(WhereTokens(where) + end) == Some((where, end))
  {
    hide Item, Match, Keyword, IsKeyword, EqualIgnoringCase;
    var end := [Sign(Semicolon, ';')] + rest;
    NoKeyword(Semicolon, ';', rest, "WHERE");
    NoKeyword(Semicolon, ';', rest, "AND");
    NoKeyword(Semicolon, ';', rest, "OR");
    if where.None? {
      assert WhereTokens(where) + end == end;
    } else {
      var t2 := [ItemToken(where.value.value, true)] + end;
      ReadItem(where.value.value, true, end);
      var t1 := [Sign(Equals, '=')] + t2;
      ReadSign(Equals, '=', t2);
      var t0 := [Word(where.value.column)] + t1;
      ReadWord(where.value.column, t1);
      ReadWord("WHERE", t0);
      assert WhereTokens(where) + end == [Word("WHERE")] + t0;
    }
  }

  /** The select list: the star, or the named columns. */
  function ListTokens(all: bool, columns: seq<string>): Tokens {
    if all then [Sign(Star, '*')] else ItemTokens(columns, false)
  }

  /** A keyword after a select list. */
  lemma ParseRenderedList(all: bool, columns: seq<string>, rest: Tokens)
    requires Ended(rest) && rest[0].kind != Comma && (all <==> columns == [])
    ensures var ts := ListTokens(all, columns) + rest;
            && Ended(ts)
            && (if all then Match(ts, Star) == Some(rest)
                 else Match(ts, Star) == None && Items(ts, false) == Some((columns, rest)))
  {
    hide Items, MoreTokens;
    if all {
      ReadSign(Star, '*', rest);
    } else {
      ParseRenderedItems(columns, false, rest);
    }
  }

  lemma ParseRenderedSelect(s: Statement, rest: Tokens)
    requires s.Select? && (s.all <==> s.columns == []) && Ended(rest)
    ensures Ended(StatementTokens(s) + rest)
    ensures IsKeyword((StatementTokens(s) + rest)[0], "SELECT") && !IsKeyword((StatementTokens(s) + rest)[0], "INSERT")
    ensures SelectRest(StatementTokens(s) + rest) == Some((s, [Sign(Semicolon, ';')] + rest))
  {
    hide Item, Items, Match, Keyword, ListTokens, WhereTokens, WhereRest, IsKeyword, EqualIgnoringCase;
    var end := [Sign(Semicolon, ';')] + rest;
    var t4 := WhereTokens(s.where) + end;
    ParseRenderedWhere(s.where, rest);
    var t3 := [Word(s.table)] + t4;
    ReadWord(s.table, t4);
    var t2 := [Word("FROM")] + t3;
    ReadWord("FROM", t3);
    var t1 := ListTokens(s.all, s.columns) + t2;
    ParseRenderedList(s.all, s.columns, t2);
    ReadWord("SELECT", t1);
    SelectSpelled(s, rest, t1);
  }

  lemma SelectIsNotInsert()
    ensures EqualIgnoringCase("SELECT", "SELECT") && !EqualIgnoringCase("SELECT", "INSERT")
  {
    assert Lower("SELECT"[0]) != Lower("INSERT"[0]);
  }

  lemma SelectSpelled(s: Statement, rest: Tokens, t1: Tokens)
    requires s.Select?
    requires t1 == ListTokens(s.all, s.columns) + ([Word("FROM")] + ([Word(s.table)] + (WhereTokens(s.where)
                   + ([Sign(Semicolon, ';')] + rest))))
    ensures StatementTokens(s) + rest == [Word("SELECT")] + t1
    ensures IsKeyword((StatementTokens(s) + rest)[0], "SELECT") && !IsKeyword((StatementTokens(s) + rest)[0], "INSERT")
  {
    hide ListTokens, WhereTokens, EqualIgnoringCase;
    SelectIsNotInsert();
  }

  /** Parsing the tokens of a statement gives back the statement. */
  lemma ParseRendered(s: Statement)
    requires WellFormed(s)
    ensures Ended(StatementTokens(s) + [END]) && ParseTokens(StatementTokens(s) + [END]) == Some(s)
  {
    hide StatementTokens, InsertRest, SelectRest, Match, IsKeyword;
    ReadSign(Semicolon, ';', [END]);
    if s.Insert? {
      ParseRenderedInsert(s, [END]);
    } else {
      ParseRenderedSelect(s, [END]);
    }
  }

  // ---- the rendered tokens can be spelled ----

  ghost predicate AllSpellable(ts: Tokens) {
    forall t | t in ts :: Spellable(t)
  }

  lemma {:induction false} MoreSpellable(items: seq<string>, quoted: bool)
    requires quoted || forall c | c in items :: IsIdentifier(c)
    ensures AllSpellable(MoreTokens(items, quoted))
  {
    if items != [] {
      assert items[0] in items;
      MoreSpellable(items[1..], quoted);
    }
  }

  lemma ItemsSpellable(items: seq<string>, quoted: bool)
    requires quoted || forall c | c in items :: IsIdentifier(c)
    ensures AllSpellable(ItemTokens(items, quoted))
  {
    if items != [] {
      assert items[0] in items;
      MoreSpellable(items[1..], quoted);
    }
  }

  lemma KeywordIdentifiers()
    ensures IsIdentifier("INSERT") && IsIdentifier("INTO") && IsIdentifier("VALUES")
    ensures IsIdentifier("SELECT") && IsIdentifier("FROM") && IsIdentifier("WHERE")
  {
  }

  lemma WordSpellable(text: string)
    requires IsIdentifier(text)
    ensures Spellable(Word(text))
  {
  }

  lemma SignsSpellable()
    ensures Spellable(Sign(LParen, '(')) && Spellable(Sign(RParen, ')')) && Spellable(Sign(Semicolon, ';'))
    ensures Spellable(Sign(Star, '*')) && Spellable(Sign(Equals, '='))
  {
  }

  lemma WhereSpellable(where: Option<Condition>)
    requires where.Some? ==> IsIdentifier(where.value.column)
    ensures AllSpellable(WhereTokens(where))
  {
  }

  lemma InsertSpellable(s: Statement)
    requires WellFormed(s) && s.Insert?
    ensures AllSpellable(StatementTokens(s))
  {
    hide ItemTokens, Sign, Spellable, IsIdentifier;
    KeywordIdentifiers();
    SignsSpellable();
    WordSpellable("INSERT");
    WordSpellable("INTO");
    WordSpellable(s.table);
    WordSpellable("VALUES");
    ItemsSpellable(s.columns, false);
    ItemsSpellable(s.values, true);
  }

  lemma SelectSpellable(s: Statement)
    requires WellFormed(s) && s.Select?
    ensures AllSpellable(StatementTokens(s))
  {
    hide ItemTokens, WhereTokens, Sign, Spellable, IsIdentifier;
    KeywordIdentifiers();
    SignsSpellable();
    WordSpellable("SELECT");
    WordSpellable("FROM");
    WordSpellable(s.table);
    ItemsSpellable(s.columns, false);
    WhereSpellable(s.where);
  }

  /**
   * A statement spelled with any admissible white space, before it and between its tokens, is read back exactly.
   * Identifiers may equal keywords and values may hold quotes, commas and line breaks.
   */
  lemma SqlRoundTrip(s: Statement, lead: string, gaps: seq<string>)
    requires WellFormed(s) && Blank(lead) && Gaps(StatementTokens(s), gaps)
    ensures var tokens := Lex(lead + Render(StatementTokens(s), gaps));
            tokens.Some? && Ended(tokens.value) && ParseTokens(tokens.value) == Some(s)
  {
    hide Lex, Render, StatementTokens, ParseTokens, Spellable, WellFormed;
    if s.Insert? {
      InsertSpellable(s);
    } else {
      SelectSpellable(s);
    }
    LexRendered(StatementTokens(s), gaps);
    LexBlank(lead, Render(StatementTokens(s), gaps));
    ParseRendered(s);
  }
}
