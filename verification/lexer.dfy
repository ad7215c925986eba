/** The SQL lexer: words, quoted strings and single-character tokens. */
module Lexer {
  import opened Wrappers
  import opened Text

  datatype Kind = Identifier | StringLiteral | Number | Star | Equals | Comma | LParen | RParen | Semicolon | End

  datatype Token = Token(kind: Kind, text: string)

  const END := Token(End, "")

  /** Letters, digits, underscore, and every byte of a multi-byte character. */
  predicate IsWordChar(c: char) {
    'a' <= c <= 'z' || 'A' <= c <= 'Z' || IsDigit(c) || c == '_' || c as int >= 0x80
  }

  /** The length of the word at the front. */
  function WordLength(s: string): (n: nat)
    ensures n <= |s| && (forall c | c in s[..n] :: IsWordChar(c)) && (n < |s| ==> !IsWordChar(s[n]))
  {
    if s == "" || !IsWordChar(s[0]) then 0
    else
      var n := WordLength(s[1..]);
      assert s[..n + 1] == [s[0]] + s[1..][..n];
      n + 1
  }

  function WordToken(text: string): Token {
    Token(if text != "" && IsDigit(text[0]) then Number else Identifier, text)
  }

  /** One-character tokens. */
  function Simple(c: char): Option<Kind> {
    match c
    case '*' => Some(Star)
    case '=' => Some(Equals)
    case ',' => Some(Comma)
    case '(' => Some(LParen)
    case ')' => Some(RParen)
    case ';' => Some(Semicolon)
    case _ => None
  }

  /**
   * A string literal after its opening quote; `last` is the character before `s`. A doubled quote is one quote.
   * At the end of input the literal counts as closed if the previous character is a quote.
   */
  function StringRest(s: string, last: char, text: string): Option<(string, string)>
    decreases |s|
  {
    if s == "" then if last == '\'' then Some((text, "")) else None
    else if s[0] != '\'' then StringRest(s[1..], s[0], text + [s[0]])
    else if |s| > 1 && s[1] == '\'' then StringRest(s[2..], '\'', text + "'")
    else Some((text, s[1..]))
  }

  lemma {:induction false} StringRestShrinks(s: string, last: char, text: string)
    ensures StringRest(s, last, text).Some? ==>
              |StringRest(s, last, text).value.1| <= |s| &&
                StringRest(s, last, text).value.1 == s[|s| - |StringRest(s, last, text).value.1|..]
    decreases |s|
  {
    if s != "" && s[0] != '\'' {
      StringRestShrinks(s[1..], s[0], text + [s[0]]);
    } else if |s| > 1 && s[1] == '\'' {
      StringRestShrinks(s[2..], '\'', text + "'");
    }
  }

  function Cons(t: Token, rest: Option<seq<Token>>): Option<seq<Token>> {
    if rest.None? then None else Some([t] + rest.value)
  }

  /** The tokens of an input, closed by an END token; None for an unexpected character or an unterminated string. */
  function Lex(s: string): Option<seq<Token>>
    decreases |s|
  {
    if s == "" then Some([END])
    else if IsSpace(s[0]) then Lex(s[1..])
    else if IsWordChar(s[0]) then
      var n := WordLength(s);
      Cons(WordToken(s[..n]), Lex(s[n..]))
    else if s[0] == '\'' then
      StringRestShrinks(s[1..], '\'', "");
      var (text, rest) :- StringRest(s[1..], '\'', "");
      Cons(Token(StringLiteral, text), Lex(rest))
    else
      var kind :- Simple(s[0]);
      Cons(Token(kind, [s[0]]), Lex(s[1..]))
  }

  /** Advances over a word. */
  method LexWord(input: string, index: nat) returns (token: Token, index': nat)
    requires index < |input| && IsWordChar(input[index])
    ensures index' == index + WordLength(input[index..]) && token == WordToken(input[index..index'])
    ensures index < index' <= |input|
  {
    index' := index;
    while index' < |input| && IsWordChar(input[index'])
      invariant index <= index' <= |input|
      invariant index' + WordLength(input[index'..]) == index + WordLength(input[index..])
    {
      index' := index' + 1;
    }
    var buffer := input[index..index'];
    token := Token(if IsDigit(buffer[0]) then Number else Identifier, buffer);
  }

  /** Reads a string literal that starts with a quote at `index`. */
  method LexString(input: string, index: nat) returns (text: Option<string>, index': nat)
    requires index < |input| && input[index] == '\''
    ensures var r := StringRest(input[index + 1..], '\'', "");
            if r.None? then text.None?
              else text == Some(r.value.0) && index < index' <= |input| && input[index'..] == r.value.1
  {
    index' := index + 1;
    var buffer := "";
    var closed := false;
    while index' < |input| && !closed
      invariant index < index' <= |input|
      invariant !closed ==>
                  StringRest(input[index'..], input[index' - 1], buffer) == StringRest(input[index + 1..], '\'', "")
      invariant closed ==>
                  StringRest(input[index + 1..], '\'', "") == Some((buffer, input[index'..])) &&
                    input[index' - 1] == '\''
      decreases |input| - index', !closed
    {
      var current := input[index'];
      if current == '\'' && !(index' + 1 < |input| && input[index' + 1] == '\'') {
        index' := index' + 1;
        closed := true;
      } else {
        if current == '\'' {
          index' := index' + 1;
        }
        buffer := buffer + [current];
        index' := index' + 1;
      }
    }
    if input[index' - 1] != '\'' {
      return None, index';
    }
    return Some(buffer), index';
  }

  /** Walks over the whole input. */
  method LexSql(input: string) returns (tokens: Option<seq<Token>>)
    ensures tokens == Lex(input)
  {
    var index := 0;
    var found: seq<Token> := [];
    assert input[0..] == input && (Lex(input).Some? ==> [] + Lex(input).value == Lex(input).value);
    while index < |input|
      invariant index <= |input| && Prepend(found, Lex(input[index..])) == Lex(input)
      decreases |input| - index
    {
      var current := input[index];
      ghost var was := index;
      var token := END;
      if IsSpace(current) {
        index := index + 1;
        continue;
      } else if IsWordChar(current) {
        token, index := LexWord(input, index);
      } else if current == '\'' {
        var text, next := LexString(input, index);
        if text.None? {
          return None;
        }
        token, index := Token(StringLiteral, text.value), next;
      } else {
        var kind := Simple(current);
        if kind.None? {
          return None;
        }
        token, index := Token(kind.value, [current]), index + 1;
      }
      hide StringRest, WordLength, IsWordChar;
      assert input[was..][1..] == input[was + 1..];
      assert input[was..][index - was..] == input[index..] && input[was..][..index - was] == input[was..index];
      assert Lex(input[was..]) == Cons(token, Lex(input[index..]));
      PrependCons(found, token, Lex(input[index..]));
      found := found + [token];
    }
    return Some(found + [END]);
  }

  function Prepend(found: seq<Token>, rest: Option<seq<Token>>): Option<seq<Token>> {
    if rest.None? then None else Some(found + rest.value)
  }

  lemma PrependCons(found: seq<Token>, t: Token, rest: Option<seq<Token>>)
    ensures Prepend(found, Cons(t, rest)) == Prepend(found + [t], rest)
  {
    assert rest.Some? ==> found + ([t] + rest.value) == found + [t] + rest.value;
  }

  // ---- spelling tokens and reading them back ----

  /** Every quote doubled. */
  function Quoted(text: string): string {
    if text == "" then "" else (if text[0] == '\'' then "''" else [text[0]]) + Quoted(text[1..])
  }

  function Spell(t: Token): string {
    if t.kind == StringLiteral then "'" + Quoted(t.text) + "'" else t.text
  }

  /** A token that some input can spell. */
  ghost predicate Spellable(t: Token) {
    match t.kind
    case Identifier => t.text != "" && (forall c | c in t.text :: IsWordChar(c)) && !IsDigit(t.text[0])
    case Number => t.text != "" && (forall c | c in t.text :: IsWordChar(c)) && IsDigit(t.text[0])
    case StringLiteral => true
    case End => false
    case _ => |t.text| == 1 && Simple(t.text[0]) == Some(t.kind)
  }

  predicate IsWord(t: Token) {
    t.kind == Identifier || t.kind == Number
  }

  ghost predicate Blank(s: string) {
    forall c | c in s :: IsSpace(c)
  }

  /** White space that may follow each token: two words, or two strings, need some between them. */
  ghost predicate Gaps(tokens: seq<Token>, gaps: seq<string>) {
    && |gaps| == |tokens|
    && (forall i | 0 <= i < |gaps| :: Blank(gaps[i]))
    && forall i | 0 <= i < |tokens| - 1 ::
         (IsWord(tokens[i]) && IsWord(tokens[i + 1])) || (tokens[i].kind == tokens[i + 1].kind == StringLiteral) ==>
           gaps[i] != ""
  }

  function Render(tokens: seq<Token>, gaps: seq<string>): string
    requires |gaps| == |tokens|
  {
    if tokens == [] then "" else Spell(tokens[0]) + gaps[0] + Render(tokens[1..], gaps[1..])
  }

  lemma {:induction false} LexBlank(gap: string, rest: string)
    requires Blank(gap)
    ensures Lex(gap + rest) == Lex(rest)
  {
    if gap == "" {
      assert gap + rest == rest;
    } else {
      assert (gap + rest)[1..] == gap[1..] + rest && gap[0] in gap;
      LexBlank(gap[1..], rest);
    }
  }

  lemma {:induction false} ReadQuoted(text: string, rest: string, last: char, acc: string)
    requires rest == "" || rest[0] != '\''
    ensures StringRest(Quoted(text) + "'" + rest, last, acc) == Some((acc + text, rest))
  {
    var s := Quoted(text) + "'" + rest;
    if text == "" {
      assert s[1..] == rest && acc + text == acc;
    } else {
      assert s[if text[0] == '\'' then 2 else 1..] == Quoted(text[1..]) + "'" + rest;
      assert acc + [text[0]] + text[1..] == acc + text;
      ReadQuoted(text[1..], rest, text[0], acc + [text[0]]);
    }
  }

  lemma {:induction false} WordAt(text: string, rest: string)
    requires (forall c | c in text :: IsWordChar(c)) && (rest == "" || !IsWordChar(rest[0]))
    ensures WordLength(text + rest) == |text|
  {
    if text == "" {
      assert text + rest == rest;
    } else {
      assert (text + rest)[1..] == text[1..] + rest && text[0] in text;
      WordAt(text[1..], rest);
    }
  }

  /** Reading one spelled token off the front. */
  lemma {:induction false} LexToken(t: Token, rest: string)
    requires Spellable(t)
    requires IsWord(t) ==> rest == "" || !IsWordChar(rest[0])
    requires t.kind == StringLiteral ==> rest == "" || rest[0] != '\''
    ensures Lex(Spell(t) + rest) == Cons(t, Lex(rest))
  {
    if IsWord(t) {
      LexWordToken(t, rest);
    } else if t.kind == StringLiteral {
      LexLiteral(t.text, rest);
    } else {
      LexSign(t, rest);
    }
  }

  lemma LexWordToken(t: Token, rest: string)
    requires Spellable(t) && IsWord(t) && (rest == "" || !IsWordChar(rest[0]))
    ensures Lex(t.text + rest) == Cons(t, Lex(rest))
  {
    hide WordLength, StringRest;
    var s := t.text + rest;
    assert s[0] == t.text[0] && t.text[0] in t.text;
    WordAt(t.text, rest);
    assert s[..|t.text|] == t.text && s[|t.text|..] == rest;
    assert !IsSpace(s[0]) && IsWordChar(s[0]);
  }

  lemma LexLiteral(text: string, rest: string)
    requires rest == "" || rest[0] != '\''
    ensures Lex("'" + Quoted(text) + "'" + rest) == Cons(Token(StringLiteral, text), Lex(rest))
  {
    hide WordLength, StringRest, Quoted;
    var s := "'" + Quoted(text) + "'" + rest;
    assert s[0] == '\'' && s[1..] == Quoted(text) + "'" + rest && "" + text == text;
    ReadQuoted(text, rest, '\'', "");
  }

  lemma LexSign(t: Token, rest: string)
    requires Spellable(t) && !IsWord(t) && t.kind != StringLiteral
    ensures Lex(t.text + rest) == Cons(t, Lex(rest))
  {
    hide WordLength, StringRest;
    var s := t.text + rest;
    assert s[0] == t.text[0] && s[1..] == rest && t.text == [t.text[0]];
    assert Simple(s[0]) == Some(t.kind) && !IsSpace(s[0]) && !IsWordChar(s[0]) && s[0] != '\'';
  }

  /** Lexing spelled tokens with admissible white space gives back the tokens. */
  lemma {:induction false} LexRendered(tokens: seq<Token>, gaps: seq<string>)
    requires Gaps(tokens, gaps) && forall i | 0 <= i < |tokens| :: Spellable(tokens[i])
    ensures Lex(Render(tokens, gaps)) == Some(tokens + [END])
  {
    if tokens == [] {
      assert tokens + [END] == [END];
    } else {
      LexFirst(tokens, gaps);
      LexRendered(tokens[1..], gaps[1..]);
      assert tokens + [END] == [tokens[0]] + (tokens[1..] + [END]);
    }
  }

  lemma {:induction false} LexFirst(tokens: seq<Token>, gaps: seq<string>)
    requires tokens != [] && Gaps(tokens, gaps) && forall i | 0 <= i < |tokens| :: Spellable(tokens[i])
    ensures Lex(Render(tokens, gaps)) == Cons(tokens[0], Lex(Render(tokens[1..], gaps[1..])))
    ensures Gaps(tokens[1..], gaps[1..])
  {
    hide Lex, Spell, Spellable, Blank, IsWord;
    var rest := Render(tokens[1..], gaps[1..]);
    LexBlank(gaps[0], rest);
    Separated(tokens, gaps);
    LexToken(tokens[0], gaps[0] + rest);
    assert Spell(tokens[0]) + (gaps[0] + rest) == Render(tokens, gaps);
  }

  /** What follows a token cannot be taken for a part of it. */
  lemma {:induction false} Separated(tokens: seq<Token>, gaps: seq<string>)
    requires tokens != [] && Gaps(tokens, gaps) && forall i | 0 <= i < |tokens| :: Spellable(tokens[i])
    ensures var rest := gaps[0] + Render(tokens[1..], gaps[1..]);
            && (IsWord(tokens[0]) ==> rest == "" || !IsWordChar(rest[0]))
            && (tokens[0].kind == StringLiteral ==> rest == "" || rest[0] != '\'')
  {
    if gaps[0] != "" {
      assert gaps[0][0] in gaps[0];
    } else if |tokens| > 1 {
      assert Spellable(tokens[1]);
      assert Render(tokens[1..], gaps[1..])[0] == Spell(tokens[1])[0];
      assert IsWord(tokens[1]) ==> tokens[1].text[0] in tokens[1].text;
    }
  }
}
