/** The SQL grammar on tokens, said without the parser, and that the parser accepts exactly it. */
module Grammar {
  import opened Wrappers
  import opened Ast
  import opened Lexer
  import opened Parser

  // ---- words ----

  /** Equal up to the case of ASCII letters. */
  ghost predicate SameLetters(a: string, b: string) {
    |a| == |b| && forall i | 0 <= i < |a| :: a[i] == b[i] || Capital(a[i], b[i]) || Capital(b[i], a[i])
  }

  /** `big` is the capital of the small letter `small`. */
  ghost predicate Capital(big: char, small: char) {
    'A' <= big <= 'Z' && small as int - 'a' as int == big as int - 'A' as int
  }

  lemma CaseIgnored(a: string, b: string)
    ensures EqualIgnoringCase(a, b) <==> SameLetters(a, b)
  {
    forall i | 0 <= i < |a| && i < |b|
      ensures Lower(a[i]) == Lower(b[i]) <==> a[i] == b[i] || Capital(a[i], b[i]) || Capital(b[i], a[i])
    {
      LowerSame(a[i], b[i]);
    }
  }

  lemma LowerSame(c: char, d: char)
    ensures Lower(c) == Lower(d) <==> c == d || Capital(c, d) || Capital(d, c)
  {
  }

  ghost predicate Key(t: Token, word: string) {
    t.kind == Identifier && SameLetters(t.text, word)
  }

  ghost predicate Name(t: Token, text: string) {
    t.kind == Identifier && t.text == text
  }

  /** A value is a quoted literal, a number or a bare word. */
  ghost predicate Value(t: Token, text: string) {
    (t.kind == StringLiteral || t.kind == Number || t.kind == Identifier) && t.text == text
  }

  ghost predicate Entry(t: Token, text: string, values: bool) {
    if values then Value(t, text) else Name(t, text)
  }

  /** A list of names, or of values, with a comma before each but the first. */
  ghost predicate Lists(ts: Tokens, at: nat, items: seq<string>, values: bool) {
    && items != [] && at + 2 * |items| - 1 <= |ts|
    && (forall i | 0 <= i < |items| :: Entry(ts[at + 2 * i], items[i], values))
    && forall i | 1 <= i < |items| :: ts[at + 2 * i - 1].kind == Comma
  }

  // ---- statements ----

  function ListSize(items: seq<string>): nat {
    if items == [] then 0 else 2 * |items| - 1
  }

  /** How many tokens a statement is spelled with, the semicolon included. */
  function Size(s: Statement): nat {
    match s
    case Insert(_, columns, values) => 9 + ListSize(columns) + ListSize(values)
    case Select(_, all, columns, where) =>
      4 + (if all then 1 else ListSize(columns)) + if where.None? then 0 else 4
  }

  /** INSERT INTO table (columns) VALUES (values) */
  ghost predicate InsertTokens(ts: Tokens, table: string, columns: seq<string>, values: seq<string>) {
    var n, m := ListSize(columns), ListSize(values);
    && |ts| >= 8 + n + m
    && Key(ts[0], "INSERT") && Key(ts[1], "INTO") && Name(ts[2], table)
    && ts[3].kind == LParen && Lists(ts, 4, columns, false) && ts[4 + n].kind == RParen
    && Key(ts[5 + n], "VALUES")
    && ts[6 + n].kind == LParen && Lists(ts, 7 + n, values, true) && ts[7 + n + m].kind == RParen
  }

  /** An optional WHERE column = value; nothing that starts with that word otherwise. */
  ghost predicate WhereAt(ts: Tokens, at: nat, where: Option<Condition>) {
    match where
    case None => true
    case Some(c) =>
      && at + 4 <= |ts| && Key(ts[at], "WHERE") && Name(ts[at + 1], c.column) && ts[at + 2].kind == Equals
      && Value(ts[at + 3], c.value)
  }

  /** SELECT * FROM table, or SELECT columns FROM table, and the condition. */
  ghost predicate SelectTokens(ts: Tokens, table: string, all: bool, columns: seq<string>, where: Option<Condition>) {
    var n := if all then 1 else ListSize(columns);
    && |ts| >= 3 + n
    && Key(ts[0], "SELECT")
    && (if all then ts[1].kind == Star && columns == [] else Lists(ts, 1, columns, false))
    && Key(ts[1 + n], "FROM") && Name(ts[2 + n], table)
    && WhereAt(ts, 3 + n, where)
  }

  /** The tokens spell the statement and its semicolon, keywords in any case, each value in any of its forms. */
  ghost predicate Spells(ts: Tokens, s: Statement) {
    && |ts| == Size(s) && ts[|ts| - 1].kind == Semicolon
    && match s
       case Insert(table, columns, values) => InsertTokens(ts, table, columns, values)
       case Select(table, all, columns, where) => SelectTokens(ts, table, all, columns, where)
  }

  // ---- the parser's steps at a position ----

  lemma KeyAt(ts: Tokens, k: nat, word: string)
    requires Ended(ts) && k < |ts|
    ensures Ended(ts[k..]) && (IsKeyword(ts[k], word) <==> Key(ts[k], word))
    ensures Keyword(ts[k..], word) == if Key(ts[k], word) then Some(ts[k + 1..]) else None
    ensures Key(ts[k], word) ==> k + 1 < |ts|
  {
    CaseIgnored(ts[k].text, word);
  }

  lemma MatchAt(ts: Tokens, k: nat, kind: Kind)
    requires Ended(ts) && k < |ts| && kind != End
    ensures Ended(ts[k..]) && Match(ts[k..], kind) == if ts[k].kind == kind then Some(ts[k + 1..]) else None
    ensures ts[k].kind == kind ==> k + 1 < |ts|
  {
  }

  lemma ItemAt(ts: Tokens, k: nat, values: bool)
    requires Ended(ts) && k < |ts|
    ensures Ended(ts[k..])
    ensures Item(ts[k..], values)
         == if Entry(ts[k], ts[k].text, values) then Some((ts[k].text, ts[k + 1..])) else None
    ensures Entry(ts[k], ts[k].text, values) ==> k + 1 < |ts|
  {
  }

  /** Further items, each after its comma. */
  ghost predicate MoreAt(ts: Tokens, k: nat, more: seq<string>, values: bool) {
    && k + 2 * |more| < |ts|
    && (forall i | 0 <= i < |more| :: ts[k + 2 * i].kind == Comma && Entry(ts[k + 2 * i + 1], more[i], values))
    && ts[k + 2 * |more|].kind != Comma
  }

  /** One round of the parser's list loop. */
  lemma OneMore(ts: Tokens, k: nat, values: bool, done: seq<string>)
    requires Ended(ts) && k < |ts|
    ensures Ended(ts[k..])
    ensures ts[k].kind != Comma ==> ItemsFrom(ts[k..], values, done) == Some((done, ts[k..]))
    ensures ts[k].kind == Comma ==>
              && k + 1 < |ts|
              && if Entry(ts[k + 1], ts[k + 1].text, values) then
                   k + 2 < |ts| && Ended(ts[k + 2..])
                   && ItemsFrom(ts[k..], values, done) == ItemsFrom(ts[k + 2..], values, done + [ts[k + 1].text])
                 else ItemsFrom(ts[k..], values, done) == None
  {
    hide Item, Match, Entry, ItemsFrom;
    MatchAt(ts, k, Comma);
    FromStep(ts[k..], values, done);
    if ts[k].kind == Comma {
      ItemAt(ts, k + 1, values);
      if Entry(ts[k + 1], ts[k + 1].text, values) {
        MatchAt(ts, k + 2, Comma);
      }
    }
  }

  lemma Appending(done: seq<string>, item: string, rest: seq<string>)
    ensures done + [item] + rest == done + ([item] + rest) && done + [] == done
  {
  }

  /** What the parser reads is such a list. */
  lemma {:induction false} MoreRead(ts: Tokens, k: nat, values: bool, done: seq<string>) returns (more: seq<string>)
    requires Ended(ts) && k < |ts| && Ended(ts[k..]) && ItemsFrom(ts[k..], values, done).Some?
    ensures MoreAt(ts, k, more, values)
    ensures ItemsFrom(ts[k..], values, done).value == (done + more, ts[k + 2 * |more|..])
    decreases |ts| - k
  {
    hide Item, Entry, ItemsFrom, Match, MoreAt, Ended;
    OneMore(ts, k, values, done);
    more := [];
    if ts[k].kind == Comma {
      var rest := MoreRead(ts, k + 2, values, done + [ts[k + 1].text]);
      more := [ts[k + 1].text] + rest;
      MoreInside(ts, k + 2, rest, values);
      MoreStep(ts, k, rest, values);
      Appending(done, ts[k + 1].text, rest);
    } else {
      NoMoreAt(ts, k, values);
      Appending(done, "", []);
    }
  }

  lemma NoMoreAt(ts: Tokens, k: nat, values: bool)
    requires k < |ts| && ts[k].kind != Comma
    ensures MoreAt(ts, k, [], values)
  {
  }

  lemma MoreInside(ts: Tokens, k: nat, more: seq<string>, values: bool)
    requires MoreAt(ts, k, more, values)
    ensures k + 2 * |more| < |ts|
  {
  }

  lemma MoreStep(ts: Tokens, k: nat, rest: seq<string>, values: bool)
    requires k + 2 < |ts| && ts[k].kind == Comma && Entry(ts[k + 1], ts[k + 1].text, values)
    requires MoreAt(ts, k + 2, rest, values)
    ensures MoreAt(ts, k, [ts[k + 1].text] + rest, values)
  {
    hide Entry;
    var more := [ts[k + 1].text] + rest;
    forall i | 0 <= i < |more| ensures ts[k + 2 * i].kind == Comma && Entry(ts[k + 2 * i + 1], more[i], values) {
      if i > 0 {
        assert ts[(k + 2) + 2 * (i - 1)].kind == Comma && Entry(ts[(k + 2) + 2 * (i - 1) + 1], rest[i - 1], values);
      }
    }
  }

  /** And such a list is read. */
  lemma {:induction false} ReadMore(ts: Tokens, k: nat, values: bool, done: seq<string>, more: seq<string>)
    requires Ended(ts) && MoreAt(ts, k, more, values)
    ensures Ended(ts[k..]) && k + 2 * |more| < |ts|
    ensures ItemsFrom(ts[k..], values, done) == Some((done + more, ts[k + 2 * |more|..]))
    decreases |more|
  {
    hide Item, Entry, ItemsFrom, Match, MoreAt, Ended;
    MoreInside(ts, k, more, values);
    OneMore(ts, k, values, done);
    if more == [] {
      EndsList(ts, k, values);
      Appending(done, "", []);
    } else {
      MoreRest(ts, k, more, values);
      ReadMore(ts, k + 2, values, done + [more[0]], more[1..]);
      Appending(done, more[0], more[1..]);
      assert [more[0]] + more[1..] == more;
    }
  }

  lemma EndsList(ts: Tokens, k: nat, values: bool)
    requires MoreAt(ts, k, [], values)
    ensures k < |ts| && ts[k].kind != Comma
  {
  }

  lemma MoreRest(ts: Tokens, k: nat, more: seq<string>, values: bool)
    requires MoreAt(ts, k, more, values) && more != []
    ensures MoreAt(ts, k + 2, more[1..], values)
    ensures k + 1 < |ts| && ts[k].kind == Comma && Entry(ts[k + 1], ts[k + 1].text, values)
    ensures ts[k + 1].text == more[0]
  {
    assert ts[k + 2 * 0].kind == Comma && Entry(ts[k + 2 * 0 + 1], more[0], values);
    hide Entry;
    forall i | 0 <= i < |more| - 1
      ensures ts[k + 2 + 2 * i].kind == Comma && Entry(ts[k + 2 + 2 * i + 1], more[1..][i], values)
    {
      assert ts[k + 2 * (i + 1)].kind == Comma && Entry(ts[k + 2 * (i + 1) + 1], more[i + 1], values);
    }
  }

  /** A list and what follows it. */
  ghost predicate ListAt(ts: Tokens, k: nat, items: seq<string>, values: bool) {
    Lists(ts, k, items, values) && k + ListSize(items) < |ts| && ts[k + ListSize(items)].kind != Comma
  }

  lemma ListIsMore(ts: Tokens, k: nat, items: seq<string>, values: bool)
    ensures ListAt(ts, k, items, values)
       <==> items != [] && k + 1 < |ts| && Entry(ts[k], items[0], values) && MoreAt(ts, k + 1, items[1..], values)
  {
    hide Entry;
    if items != [] && k + 2 * |items| - 1 < |ts| {
      var more := items[1..];
      if ListAt(ts, k, items, values) {
        assert Entry(ts[k + 2 * 0], items[0], values);
        forall i | 0 <= i < |more|
          ensures ts[k + 1 + 2 * i].kind == Comma && Entry(ts[k + 1 + 2 * i + 1], more[i], values)
        {
          assert Entry(ts[k + 2 * (i + 1)], items[i + 1], values) && ts[k + 2 * (i + 1) - 1].kind == Comma;
        }
      } else if Entry(ts[k], items[0], values) && MoreAt(ts, k + 1, more, values) {
        forall i | 0 <= i < |items|
          ensures Entry(ts[k + 2 * i], items[i], values) && (i > 0 ==> ts[k + 2 * i - 1].kind == Comma)
        {
          if i > 0 {
            assert ts[k + 1 + 2 * (i - 1)].kind == Comma && Entry(ts[k + 1 + 2 * (i - 1) + 1], more[i - 1], values);
          }
        }
      }
    }
  }

  /** The parser reads exactly the lists. */
  lemma ItemsAt(ts: Tokens, k: nat, values: bool)
    requires Ended(ts) && k < |ts|
    ensures Ended(ts[k..])
    ensures Items(ts[k..], values).Some? ==>
              var (items, rest) := Items(ts[k..], values).value;
              ListAt(ts, k, items, values) && rest == ts[k + ListSize(items)..]
  {
    hide Item, Entry, ItemsFrom, Lists;
    ItemAt(ts, k, values);
    if Items(ts[k..], values).Some? {
      var more := MoreRead(ts, k + 1, values, [ts[k].text]);
      assert ([ts[k].text] + more)[1..] == more;
      ListIsMore(ts, k, [ts[k].text] + more, values);
    }
  }

  lemma AtItems(ts: Tokens, k: nat, items: seq<string>, values: bool)
    requires Ended(ts) && ListAt(ts, k, items, values)
    ensures Ended(ts[k..]) && Items(ts[k..], values) == Some((items, ts[k + ListSize(items)..]))
  {
    hide Item, ItemsFrom, Lists;
    ListIsMore(ts, k, items, values);
    ItemAt(ts, k, values);
    ReadMore(ts, k + 1, values, [items[0]], items[1..]);
    assert [items[0]] + items[1..] == items;
  }

  // ---- INSERT ----

  /** INSERT INTO table (columns) at the front. */
  ghost predicate HeadTokens(ts: Tokens, table: string, columns: seq<string>) {
    var n := ListSize(columns);
    && |ts| >= 5 + n && Key(ts[0], "INSERT") && Key(ts[1], "INTO") && Name(ts[2], table)
    && ts[3].kind == LParen && Lists(ts, 4, columns, false) && ts[4 + n].kind == RParen
  }

  /** VALUES (values) at a position. */
  ghost predicate TailTokens(ts: Tokens, k: nat, values: seq<string>) {
    var m := ListSize(values);
    && |ts| >= k + 3 + m && Key(ts[k], "VALUES")
    && ts[k + 1].kind == LParen && Lists(ts, k + 2, values, true) && ts[k + 2 + m].kind == RParen
  }

  lemma InsertParts(ts: Tokens, table: string, columns: seq<string>, values: seq<string>)
    ensures InsertTokens(ts, table, columns, values)
       <==> HeadTokens(ts, table, columns) && TailTokens(ts, 5 + ListSize(columns), values)
  {
    hide Key, Name, Lists, ListSize;
  }

  lemma HeadRead(ts: Tokens)
    requires Ended(ts) && InsertHead(ts).Some?
    ensures var (table, columns, rest) := InsertHead(ts).value;
            && HeadTokens(ts, table, columns)
            && 5 + ListSize(columns) < |ts| && rest == ts[5 + ListSize(columns)..]
  {
    hide Keyword, Match, Item, Items, Key, Lists, IsKeyword, Ended;
    assert ts[0..] == ts;
    EndedNonEmpty(ts);
    KeyAt(ts, 0, "INSERT");
    KeyAt(ts, 1, "INTO");
    ItemAt(ts, 2, false);
    MatchAt(ts, 3, LParen);
    ItemsAt(ts, 4, false);
    MatchAt(ts, 4 + ListSize(Items(ts[4..], false).value.0), RParen);
  }

  lemma TailRead(ts: Tokens, k: nat)
    requires Ended(ts) && k < |ts| && Ended(ts[k..]) && InsertTail(ts[k..]).Some?
    ensures var (values, rest) := InsertTail(ts[k..]).value;
            && TailTokens(ts, k, values)
            && k + 3 + ListSize(values) < |ts| && rest == ts[k + 3 + ListSize(values)..]
  {
    hide Keyword, Match, Item, Items, Key, Lists, IsKeyword, Ended;
    KeyAt(ts, k, "VALUES");
    MatchAt(ts, k + 1, LParen);
    ItemsAt(ts, k + 2, true);
    MatchAt(ts, k + 2 + ListSize(Items(ts[k + 2..], true).value.0), RParen);
  }

  /** What the parser takes for an INSERT is one. */
  lemma InsertRead(ts: Tokens)
    requires Ended(ts) && InsertRest(ts).Some?
    ensures var (s, rest) := InsertRest(ts).value;
            && s.Insert? && InsertTokens(ts, s.table, s.columns, s.values)
            && 8 + ListSize(s.columns) + ListSize(s.values) < |ts|
            && rest == ts[8 + ListSize(s.columns) + ListSize(s.values)..]
  {
    hide InsertHead, InsertTail, HeadTokens, TailTokens, InsertTokens, Ended, ListSize;
    HeadRead(ts);
    var s := InsertRest(ts).value.0;
    var k := 5 + ListSize(s.columns);
    assert InsertHead(ts).value.2 == ts[k..];
    TailRead(ts, k);
    InsertParts(ts, s.table, s.columns, s.values);
  }

  lemma EndedNonEmpty(ts: Tokens)
    requires Ended(ts)
    ensures |ts| > 0
  {
  }

  lemma ListEnds(ts: Tokens, k: nat, items: seq<string>, values: bool)
    requires Lists(ts, k, items, values) && k + ListSize(items) < |ts| && ts[k + ListSize(items)].kind != Comma
    ensures ListAt(ts, k, items, values)
  {
  }

  lemma ItemIs(ts: Tokens, k: nat, text: string, values: bool)
    requires Ended(ts) && k < |ts| && if values then Value(ts[k], text) else Name(ts[k], text)
    ensures Ended(ts[k..]) && Item(ts[k..], values) == Some((text, ts[k + 1..])) && k + 1 < |ts|
  {
    ItemAt(ts, k, values);
  }

  lemma HeadList(ts: Tokens, table: string, columns: seq<string>)
    requires HeadTokens(ts, table, columns)
    ensures ListAt(ts, 4, columns, false)
  {
    ListEnds(ts, 4, columns, false);
  }

  lemma TailList(ts: Tokens, k: nat, values: seq<string>)
    requires TailTokens(ts, k, values)
    ensures ListAt(ts, k + 2, values, true) && k + 3 + ListSize(values) <= |ts|
    ensures Key(ts[k], "VALUES") && ts[k + 1].kind == LParen && ts[k + 2 + ListSize(values)].kind == RParen
  {
    ListEnds(ts, k + 2, values, true);
  }

  lemma ReadHead(ts: Tokens, table: string, columns: seq<string>)
    requires Ended(ts) && HeadTokens(ts, table, columns)
    ensures InsertHead(ts) == Some((table, columns, ts[5 + ListSize(columns)..]))
    ensures 5 + ListSize(columns) < |ts|
  {
    HeadList(ts, table, columns);
    hide Keyword, Match, Item, Items, Key, Entry, Lists, ListAt, IsKeyword, Ended, ListSize, InsertHead;
    assert ts[0..] == ts;
    var end := 4 + ListSize(columns);
    KeyAt(ts, 0, "INSERT");
    KeyAt(ts, 1, "INTO");
    ItemIs(ts, 2, table, false);
    MatchAt(ts, 3, LParen);
    AtItems(ts, 4, columns, false);
    MatchAt(ts, end, RParen);
    HeadChain(ts, ts[1..], ts[2..], table, ts[3..], ts[4..], columns, ts[end..], ts[end + 1..]);
  }

  lemma HeadChain(t: Tokens, t1: Tokens, t2: Tokens, table: string, t3: Tokens, t4: Tokens, columns: seq<string>,
                  t5: Tokens, t6: Tokens)
    requires Ended(t) && Ended(t1) && Ended(t2) && Ended(t3) && Ended(t4) && Ended(t5)
    requires Keyword(t, "INSERT") == Some(t1) && Keyword(t1, "INTO") == Some(t2) && Item(t2, false) == Some((table, t3))
    requires Match(t3, LParen) == Some(t4) && Items(t4, false) == Some((columns, t5)) && Match(t5, RParen) == Some(t6)
    ensures InsertHead(t) == Some((table, columns, t6))
  {
    hide Keyword, Match, Item, Items, Ended;
  }

  lemma ReadTail(ts: Tokens, k: nat, values: seq<string>)
    requires Ended(ts) && TailTokens(ts, k, values)
    ensures Ended(ts[k..]) && InsertTail(ts[k..]) == Some((values, ts[k + 3 + ListSize(values)..]))
    ensures k + 3 + ListSize(values) < |ts|
  {
    hide Keyword, Match, Item, Items, Key, Lists, ListAt, IsKeyword, Ended, ListSize, InsertTail, TailTokens;
    TailList(ts, k, values);
    var end := k + 2 + ListSize(values);
    KeyAt(ts, k, "VALUES");
    MatchAt(ts, k + 1, LParen);
    AtItems(ts, k + 2, values, true);
    MatchAt(ts, end, RParen);
    TailChain(ts[k..], ts[k + 1..], ts[k + 2..], values, ts[end..], ts[end + 1..]);
  }

  lemma TailChain(t: Tokens, t7: Tokens, t8: Tokens, values: seq<string>, t9: Tokens, t10: Tokens)
    requires Ended(t) && Ended(t7) && Ended(t8) && Ended(t9)
    requires Keyword(t, "VALUES") == Some(t7) && Match(t7, LParen) == Some(t8)
    requires Items(t8, true) == Some((values, t9)) && Match(t9, RParen) == Some(t10)
    ensures InsertTail(t) == Some((values, t10))
  {
    hide Keyword, Match, Items, Ended;
  }

  /** And an INSERT is taken for one. */
  lemma ReadInsert(ts: Tokens, table: string, columns: seq<string>, values: seq<string>)
    requires Ended(ts) && InsertTokens(ts, table, columns, values)
    ensures InsertRest(ts) == Some((Insert(table, columns, values), ts[8 + ListSize(columns) + ListSize(values)..]))
    ensures 8 + ListSize(columns) + ListSize(values) < |ts|
  {
    hide InsertHead, InsertTail, HeadTokens, TailTokens, InsertTokens, Ended, ListSize;
    InsertParts(ts, table, columns, values);
    ReadHead(ts, table, columns);
    ReadTail(ts, 5 + ListSize(columns), values);
  }

  // ---- SELECT ----

  function WhereSize(where: Option<Condition>): nat {
    if where.None? then 0 else 4
  }

  /** What follows a condition, or a table without one, for the parser to go on. */
  ghost predicate WhereEnds(ts: Tokens, at: nat, where: Option<Condition>) {
    var end := at + WhereSize(where);
    && WhereAt(ts, at, where) && end < |ts|
    && if where.None? then !Key(ts[end], "WHERE") else !Key(ts[end], "AND") && !Key(ts[end], "OR")
  }

  /** The parser reads exactly the conditions that end so. */
  lemma WhereRead(ts: Tokens, k: nat)
    requires Ended(ts) && k < |ts|
    ensures Ended(ts[k..])
    ensures WhereRest(ts[k..]).Some? ==>
              var (where, rest) := WhereRest(ts[k..]).value;
              WhereEnds(ts, k, where) && rest == ts[k + WhereSize(where)..]
  {
    hide Keyword, Match, Item, Key, IsKeyword;
    KeyAt(ts, k, "WHERE");
    if Key(ts[k], "WHERE") {
      ItemAt(ts, k + 1, false);
      if ts[k + 1].kind == Identifier {
        MatchAt(ts, k + 2, Equals);
        if ts[k + 2].kind == Equals {
          ItemAt(ts, k + 3, true);
          if Entry(ts[k + 3], ts[k + 3].text, true) {
            KeyAt(ts, k + 4, "AND");
            KeyAt(ts, k + 4, "OR");
          }
        }
      }
    }
  }

  lemma ReadWhere(ts: Tokens, k: nat, where: Option<Condition>)
    requires Ended(ts) && WhereEnds(ts, k, where)
    ensures k + WhereSize(where) < |ts|
    ensures Ended(ts[k..]) && WhereRest(ts[k..]) == Some((where, ts[k + WhereSize(where)..]))
  {
    hide Keyword, Match, Item, Key, IsKeyword;
    KeyAt(ts, k, "WHERE");
    if where.Some? {
      ItemAt(ts, k + 1, false);
      MatchAt(ts, k + 2, Equals);
      ItemAt(ts, k + 3, true);
      KeyAt(ts, k + 4, "AND");
      KeyAt(ts, k + 4, "OR");
    }
  }

  function HeadSize(all: bool, columns: seq<string>): nat {
    if all then 1 else ListSize(columns)
  }

  /** What the parser takes for a SELECT is one. */
  lemma SelectRead(ts: Tokens)
    requires Ended(ts) && SelectRest(ts).Some?
    ensures var (s, rest) := SelectRest(ts).value;
            && s.Select? && SelectTokens(ts, s.table, s.all, s.columns, s.where)
            && WhereEnds(ts, 3 + HeadSize(s.all, s.columns), s.where)
            && rest == ts[3 + HeadSize(s.all, s.columns) + WhereSize(s.where)..]
  {
    hide Keyword, Match, Item, Items, Key, Lists, IsKeyword, Ended, WhereRest, WhereEnds;
    assert ts[0..] == ts;
    EndedNonEmpty(ts);
    KeyAt(ts, 0, "SELECT");
    MatchAt(ts, 1, Star);
    if ts[1].kind != Star {
      ItemsAt(ts, 1, false);
    }
    var n := if ts[1].kind == Star then 1 else ListSize(Items(ts[1..], false).value.0);
    KeyAt(ts, 1 + n, "FROM");
    ItemAt(ts, 2 + n, false);
    WhereRead(ts, 3 + n);
    WherePart(ts, 3 + n, WhereRest(ts[3 + n..]).value.0);
  }

  lemma WherePart(ts: Tokens, k: nat, where: Option<Condition>)
    requires WhereEnds(ts, k, where)
    ensures WhereAt(ts, k, where)
  {
  }

  lemma ReadSelect(ts: Tokens, table: string, all: bool, columns: seq<string>, where: Option<Condition>)
    requires Ended(ts) && SelectTokens(ts, table, all, columns, where)
    requires WhereEnds(ts, 3 + HeadSize(all, columns), where)
    ensures SelectRest(ts)
         == Some((Select(table, all, columns, where), ts[3 + HeadSize(all, columns) + WhereSize(where)..]))
  {
    hide Keyword, Match, Item, Items, Key, Entry, Lists, ListAt, IsKeyword, Ended, WhereRest, WhereEnds, WhereAt,
         ListSize, SelectRest;
    var n := HeadSize(all, columns);
    if !all {
      SelectList(ts, table, columns, where);
      AtItems(ts, 1, columns, false);
    }
    assert ts[0..] == ts;
    KeyAt(ts, 0, "SELECT");
    MatchAt(ts, 1, Star);
    KeyAt(ts, 1 + n, "FROM");
    ItemIs(ts, 2 + n, table, false);
    ReadWhere(ts, 3 + n, where);
    SelectChain(ts, ts[1..], all, columns, ts[1 + n..], ts[2 + n..], table, ts[3 + n..], where,
                ts[3 + n + WhereSize(where)..]);
  }

  lemma SelectChain(t: Tokens, t1: Tokens, all: bool, columns: seq<string>, t2: Tokens, t3: Tokens, table: string,
                    t4: Tokens, where: Option<Condition>, t5: Tokens)
    requires Ended(t) && Ended(t1) && Ended(t2) && Ended(t3) && Ended(t4)
    requires Keyword(t, "SELECT") == Some(t1)
    requires if all then columns == [] && Match(t1, Star) == Some(t2)
             else Match(t1, Star) == None && Items(t1, false) == Some((columns, t2))
    requires Keyword(t2, "FROM") == Some(t3) && Item(t3, false) == Some((table, t4))
    requires WhereRest(t4) == Some((where, t5))
    ensures SelectRest(t) == Some((Select(table, all, columns, where), t5))
  {
    hide Keyword, Match, Item, Items, Ended, WhereRest;
  }

  lemma SelectList(ts: Tokens, table: string, columns: seq<string>, where: Option<Condition>)
    requires SelectTokens(ts, table, false, columns, where)
    ensures ListAt(ts, 1, columns, false) && ts[1].kind != Star
  {
    ListEnds(ts, 1, columns, false);
    assert Entry(ts[1 + 2 * 0], columns[0], false);
  }

  // ---- whole statements ----

  lemma PrefixLists(ts: Tokens, n: nat, at: nat, items: seq<string>, values: bool)
    requires n <= |ts| && at + ListSize(items) <= n
    ensures Lists(ts[..n], at, items, values) <==> Lists(ts, at, items, values)
  {
    hide Entry;
    if items != [] {
      assert forall i | 0 <= i < |items| :: ts[..n][at + 2 * i] == ts[at + 2 * i];
      assert forall i | 1 <= i < |items| :: ts[..n][at + 2 * i - 1] == ts[at + 2 * i - 1];
    }
  }

  lemma PrefixInsert(ts: Tokens, n: nat, table: string, columns: seq<string>, values: seq<string>)
    requires n <= |ts| && 8 + ListSize(columns) + ListSize(values) <= n
    ensures InsertTokens(ts[..n], table, columns, values) <==> InsertTokens(ts, table, columns, values)
  {
    hide Lists, Key;
    PrefixLists(ts, n, 4, columns, false);
    PrefixLists(ts, n, 7 + ListSize(columns), values, true);
  }

  lemma PrefixSelect(ts: Tokens, n: nat, table: string, all: bool, columns: seq<string>, where: Option<Condition>)
    requires n <= |ts| && 3 + HeadSize(all, columns) + WhereSize(where) <= n
    ensures SelectTokens(ts[..n], table, all, columns, where) <==> SelectTokens(ts, table, all, columns, where)
  {
    hide Lists, Key;
    if !all {
      PrefixLists(ts, n, 1, columns, false);
    }
  }

  /** The statement at the front of the tokens, with its semicolon and END after it. */
  ghost predicate Stands(ts: Tokens, s: Statement) {
    Size(s) < |ts| && Spells(ts[..Size(s)], s) && ts[Size(s)].kind == End
  }

  lemma NotBoth(t: Token)
    ensures Key(t, "INSERT") ==> !Key(t, "SELECT")
  {
    if Key(t, "INSERT") {
      assert t.text[0] == 'I' || t.text[0] == 'i';
    }
  }

  lemma KeyIsWord(t: Token, word: string)
    requires t.kind != Identifier
    ensures !Key(t, word)
  {
  }

  /** What is parsed stands at the front. */
  lemma ParsedStands(ts: Tokens)
    requires Ended(ts) && ParseTokens(ts).Some?
    ensures Stands(ts, ParseTokens(ts).value)
  {
    hide InsertRest, SelectRest, Match, Key, Stands, Ended;
    EndedNonEmpty(ts);
    KeyAt(ts, 0, "INSERT");
    KeyAt(ts, 0, "SELECT");
    if Key(ts[0], "INSERT") {
      InsertStands(ts);
    } else {
      SelectStands(ts);
    }
  }

  /** A semicolon and END after what was read. */
  ghost predicate Closed(rest: Tokens)
    requires Ended(rest)
  {
    var end := Match(rest, Semicolon);
    end.Some? && end.value[0].kind == End
  }

  lemma ClosedAt(ts: Tokens, k: nat)
    requires Ended(ts) && k < |ts| && Ended(ts[k..]) && Closed(ts[k..])
    ensures k + 1 < |ts| && ts[k].kind == Semicolon && ts[k + 1].kind == End
  {
  }

  lemma InsertStands(ts: Tokens)
    requires Ended(ts) && InsertRest(ts).Some? && Closed(InsertRest(ts).value.1)
    ensures Stands(ts, InsertRest(ts).value.0)
  {
    hide InsertRest, Key, InsertTokens, Ended, Closed;
    InsertRead(ts);
    var s := InsertRest(ts).value.0;
    ClosedAt(ts, Size(s) - 1);
    PrefixInsert(ts, Size(s), s.table, s.columns, s.values);
  }

  lemma SelectStands(ts: Tokens)
    requires Ended(ts) && SelectRest(ts).Some? && Closed(SelectRest(ts).value.1)
    ensures Stands(ts, SelectRest(ts).value.0)
  {
    hide SelectRest, Key, SelectTokens, WhereEnds, Ended, Closed;
    SelectRead(ts);
    var s := SelectRest(ts).value.0;
    WhereInside(ts, 3 + HeadSize(s.all, s.columns), s.where);
    ClosedAt(ts, Size(s) - 1);
    PrefixSelect(ts, Size(s), s.table, s.all, s.columns, s.where);
  }

  lemma WhereInside(ts: Tokens, at: nat, where: Option<Condition>)
    requires WhereEnds(ts, at, where)
    ensures at + WhereSize(where) < |ts|
  {
  }

  lemma StandingInsert(ts: Tokens, s: Statement)
    requires Ended(ts) && s.Insert? && Stands(ts, s)
    ensures ParseTokens(ts) == Some(s)
  {
    hide InsertRest, SelectRest, Match, Key, Lists, Ended, ListSize;
    KeyAt(ts, 0, "INSERT");
    PrefixInsert(ts, Size(s), s.table, s.columns, s.values);
    hide InsertTokens;
    ReadInsert(ts, s.table, s.columns, s.values);
    MatchAt(ts, Size(s) - 1, Semicolon);
  }

  lemma ParseChain(ts: Tokens, s: Statement, k: nat)
    requires Ended(ts) && k + 1 < |ts| && Ended(ts[k..]) && ts[k].kind == Semicolon && ts[k + 1].kind == End
    requires if IsKeyword(ts[0], "INSERT") then InsertRest(ts) == Some((s, ts[k..]))
             else IsKeyword(ts[0], "SELECT") && SelectRest(ts) == Some((s, ts[k..]))
    ensures ParseTokens(ts) == Some(s)
  {
    hide InsertRest, SelectRest, Match, IsKeyword, Ended;
    MatchAt(ts, k, Semicolon);
  }

  lemma StandingSelect(ts: Tokens, s: Statement)
    requires Ended(ts) && s.Select? && Stands(ts, s)
    ensures ParseTokens(ts) == Some(s)
  {
    SelectSpelled(ts, s);
    hide InsertRest, SelectRest, Match, Key, Ended, Stands, SelectTokens, WhereEnds, ParseTokens, Size, IsKeyword,
         HeadSize, WhereSize;
    var k := Size(s) - 1;
    assert k == 3 + HeadSize(s.all, s.columns) + WhereSize(s.where);
    NotInsert(ts);
    ReadSelect(ts, s.table, s.all, s.columns, s.where);
    assert s == Select(s.table, s.all, s.columns, s.where);
    MatchAt(ts, k, Semicolon);
    ParseChain(ts, s, k);
  }

  lemma NotInsert(ts: Tokens)
    requires Ended(ts) && |ts| > 0 && Key(ts[0], "SELECT")
    ensures IsKeyword(ts[0], "SELECT") && !IsKeyword(ts[0], "INSERT")
  {
    hide Key, Ended, IsKeyword;
    KeyAt(ts, 0, "INSERT");
    KeyAt(ts, 0, "SELECT");
    NotBoth(ts[0]);
  }

  /** A standing SELECT is read up to its semicolon. */
  lemma SelectSpelled(ts: Tokens, s: Statement)
    requires s.Select? && Stands(ts, s)
    ensures 0 < Size(s) < |ts| && ts[Size(s) - 1].kind == Semicolon && ts[Size(s)].kind == End
    ensures Key(ts[0], "SELECT") && SelectTokens(ts, s.table, s.all, s.columns, s.where)
    ensures WhereEnds(ts, 3 + HeadSize(s.all, s.columns), s.where)
    ensures Size(s) == 4 + HeadSize(s.all, s.columns) + WhereSize(s.where)
  {
    hide Key, Lists;
    KeyIsWord(ts[Size(s) - 1], "WHERE");
    KeyIsWord(ts[Size(s) - 1], "AND");
    KeyIsWord(ts[Size(s) - 1], "OR");
    PrefixSelect(ts, Size(s), s.table, s.all, s.columns, s.where);
  }

  /**
   * The parser accepts exactly the grammar: it gives `s` if and only if the tokens up to the first END spell `s` and
   * its semicolon, keywords in any case and each value as a quoted literal, a number or a bare word.
   */
  lemma ParseExactly(ts: Tokens, s: Statement)
    requires Ended(ts)
    ensures ParseTokens(ts) == Some(s) <==> Stands(ts, s)
  {
    hide ParseTokens, Stands, Ended;
    if ParseTokens(ts) == Some(s) {
      ParsedStands(ts);
    }
    if Stands(ts, s) {
      if s.Insert? {
        StandingInsert(ts, s);
      } else {
        StandingSelect(ts, s);
      }
    }
  }
}
