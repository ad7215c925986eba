/** The character tables of the code, entry by entry, and that the predicates of the model are these tables. */
module Tables {
  import opened Wrappers
  import opened Text
  import Lexer
  import Csv
  import Json
  import Utf8

  const CAPITALS := "ABCDEFGHIJKLMNOPQRSTUVWXYZ"
  const SMALL := "abcdefghijklmnopqrstuvwxyz"

  /** White space in the C locale. */
  const SPACES := " \t\n\U{0B}\U{0C}\r"

  const LINE_ENDS := "\n\r"

  const QUOTED := "\",\n\r"

  const JSON_SPACES := " \t\r\n"

  const JSON_ESCAPED := "\"\\\n\r\t"

  /** The letter after a backslash, and what it stands for. */
  const JSON_ESCAPES: map<char, char> :=
    map['"' := '"', '\\' := '\\', '/' := '/', 'n' := '\n', 'r' := '\r', 't' := '\t']

  const SIGNS: map<char, Lexer.Kind> :=
    map['*' := Lexer.Star, '=' := Lexer.Equals, ',' := Lexer.Comma, '(' := Lexer.LParen, ')' := Lexer.RParen,
        ';' := Lexer.Semicolon]

  /** Code points that take no column, from first to last of each block. */
  const NO_COLUMN: seq<(nat, nat)> :=
    [(0x0300, 0x036F), (0x1AB0, 0x1AFF), (0x1DC0, 0x1DFF), (0x20D0, 0x20FF), (0xFE20, 0xFE2F)]

  /** Code points that take two columns. */
  const TWO_COLUMNS: seq<(nat, nat)> :=
    [(0x1100, 0x115F), (0x2329, 0x232A), (0x2E80, 0xA4CF), (0xAC00, 0xD7A3), (0xF900, 0xFAFF), (0xFE10, 0xFE19),
     (0xFE30, 0xFE6F), (0xFF00, 0xFF60), (0xFFE0, 0xFFE6), (0x1F300, 0x1FAFF), (0x20000, 0x3FFFD)]

  ghost predicate InBlocks(c: nat, blocks: seq<(nat, nat)>) {
    exists i :: 0 <= i < |blocks| && blocks[i].0 <= c <= blocks[i].1
  }

  lemma DigitTable(c: char)
    ensures IsDigit(c) <==> c in DIGITS
    ensures IsDigit(c) ==> DIGITS[c as int - '0' as int] == c
  {
    if IsDigit(c) {
      assert DIGITS[c as int - '0' as int] == c;
    }
  }

  lemma SpaceTable(c: char)
    ensures IsSpace(c) <==> c in SPACES
  {
    assert c == '\U{0B}' ==> SPACES[3] == c;
    assert c == '\U{0C}' ==> SPACES[4] == c;
  }

  lemma LineEndTable(c: char)
    ensures IsLineEnd(c) <==> c in LINE_ENDS
  {
  }

  lemma WordTable(c: char)
    ensures Lexer.IsWordChar(c) <==> c in CAPITALS || c in SMALL || c in DIGITS || c == '_' || c as int >= 0x80
  {
    DigitTable(c);
    CapitalTable(c);
    SmallTable(c);
    hide Text.IsDigit;
  }

  lemma CapitalTable(c: char)
    ensures 'A' <= c <= 'Z' <==> c in CAPITALS
  {
    if 'A' <= c <= 'Z' {
      assert CAPITALS[c as int - 'A' as int] == c;
    }
  }

  lemma SmallTable(c: char)
    ensures 'a' <= c <= 'z' <==> c in SMALL
  {
    if 'a' <= c <= 'z' {
      assert SMALL[c as int - 'a' as int] == c;
    }
  }

  lemma SignTable(c: char)
    ensures Lexer.Simple(c) == if c in SIGNS then Some(SIGNS[c]) else None
  {
  }

  lemma QuoteTable(value: string)
    ensures Csv.NeedsQuotes(value) <==> exists i :: 0 <= i < |value| && value[i] in QUOTED
  {
    if Csv.NeedsQuotes(value) {
      var c :| c in value && (c == '"' || c == ',' || IsLineEnd(c));
      var i :| 0 <= i < |value| && value[i] == c;
      LineEndTable(c);
      assert value[i] in QUOTED;
    }
    if exists i :: 0 <= i < |value| && value[i] in QUOTED {
      var i :| 0 <= i < |value| && value[i] in QUOTED;
      assert value[i] in value;
    }
  }

  lemma JsonTables(c: char)
    ensures Json.IsJsonSpace(c) <==> c in JSON_SPACES
    ensures Json.IsNumberChar(c) <==> c in DIGITS || c == '-' || c == '+'
    ensures Json.NeedsEscape(c) <==> c in JSON_ESCAPED
    ensures Json.Unescape(c) == if c in JSON_ESCAPES then Some(JSON_ESCAPES[c]) else None
    ensures Json.NeedsEscape(c) ==>
              Json.EscapeLetter(c) in JSON_ESCAPES && JSON_ESCAPES[Json.EscapeLetter(c)] == c
  {
    DigitTable(c);
  }

  lemma WidthTable(c: nat)
    ensures Utf8.CodepointWidth(c)
         == if c == 0 || InBlocks(c, NO_COLUMN) then 0 else if InBlocks(c, TWO_COLUMNS) then 2 else 1
  {
    assert Utf8.IsCombining(c) <==> InBlocks(c, NO_COLUMN) by {
      CombiningTable(c);
    }
    assert Utf8.IsWide(c) <==> InBlocks(c, TWO_COLUMNS) by {
      WideTable(c);
    }
  }

  lemma CombiningTable(c: nat)
    ensures Utf8.IsCombining(c) <==> InBlocks(c, NO_COLUMN)
  {
    var b := NO_COLUMN;
    assert |b| == 5;
    assert InBlocks(c, b) <==>
           (b[0].0 <= c <= b[0].1 || b[1].0 <= c <= b[1].1 || b[2].0 <= c <= b[2].1 || b[3].0 <= c <= b[3].1
            || b[4].0 <= c <= b[4].1);
  }

  lemma WideTable(c: nat)
    ensures Utf8.IsWide(c) <==> InBlocks(c, TWO_COLUMNS)
  {
    var b := TWO_COLUMNS;
    assert |b| == 11;
    assert InBlocks(c, b) <==>
           (b[0].0 <= c <= b[0].1 || b[1].0 <= c <= b[1].1 || b[2].0 <= c <= b[2].1 || b[3].0 <= c <= b[3].1
            || b[4].0 <= c <= b[4].1 || b[5].0 <= c <= b[5].1 || b[6].0 <= c <= b[6].1 || b[7].0 <= c <= b[7].1
            || b[8].0 <= c <= b[8].1 || b[9].0 <= c <= b[9].1 || b[10].0 <= c <= b[10].1);
  }
}
