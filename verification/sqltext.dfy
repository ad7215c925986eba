/** SQL as text: a text is accepted exactly if it spells a statement, with white space where it likes. */
module SqlText {
  import opened Wrappers
  import opened Ast
  import opened Text
  import opened Lexer
  import opened Parser
  import opened Grammar

  // ---- from text to tokens ----

  /** What was read as a string literal, with more input after it, was spelled as one. */
  lemma {:induction false} LiteralSpelled(s: string, last: char, acc: string) returns (w: string)
    requires StringRest(s, last, acc).Some? && StringRest(s, last, acc).value.1 != ""
    ensures var (text, rest) := StringRest(s, last, acc).value;
            text == acc + w && s == Quoted(w) + "'" + rest && rest[0] != '\''
    decreases |s|
  {
    if s[0] != '\'' {
      var v := LiteralSpelled(s[1..], s[0], acc + [s[0]]);
      w := [s[0]] + v;
      LiteralGrows(s, 1, s[0], v, acc);
    } else if |s| > 1 && s[1] == '\'' {
      var v := LiteralSpelled(s[2..], '\'', acc + "'");
      w := ['\''] + v;
      LiteralGrows(s, 2, '\'', v, acc);
    } else {
      w := "";
      assert acc + w == acc && s == "'" + s[1..];
    }
  }

  lemma LiteralGrows(s: string, n: nat, c: char, v: string, acc: string)
    requires n <= |s| && s[..n] == (if c == '\'' then "''" else [c])
    ensures forall rest :: s[n..] == Quoted(v) + "'" + rest ==> s == Quoted([c] + v) + "'" + rest
    ensures acc + [c] + v == acc + ([c] + v)
  {
    assert ([c] + v)[1..] == v && s == s[..n] + s[n..];
    forall rest | s[n..] == Quoted(v) + "'" + rest ensures s == Quoted([c] + v) + "'" + rest {
      assert s[..n] + (Quoted(v) + "'" + rest) == s[..n] + Quoted(v) + "'" + rest;
    }
  }

  /** A text spells tokens: white space, then each token with the white space after it. */
  ghost predicate Reads(text: string, lead: string, body: Tokens, gaps: seq<string>) {
    && Blank(lead) && Gaps(body, gaps) && (forall i | 0 <= i < |body| :: Spellable(body[i]))
    && text == lead + Render(body, gaps)
  }

  /** One token in front of what the rest of the text spells. */
  lemma OneMoreToken(text: string, t: Token, rest: string, lead: string, body: Tokens, gaps: seq<string>)
    requires Spellable(t) && text == Spell(t) + rest && Reads(rest, lead, body, gaps)
    requires IsWord(t) ==> rest == "" || !IsWordChar(rest[0])
    requires t.kind == StringLiteral ==> rest == "" || rest[0] != '\''
    ensures Reads(text, "", [t] + body, [lead] + gaps)
  {
    MoreGaps(t, rest, lead, body, gaps);
    hide Spellable, IsWord, Blank, Gaps, Spell, IsWordChar;
    var all, spaces := [t] + body, [lead] + gaps;
    assert all[1..] == body && spaces[1..] == gaps;
    assert Render(all, spaces) == Spell(t) + lead + Render(body, gaps) == Spell(t) + (lead + Render(body, gaps));
    assert "" + Render(all, spaces) == Render(all, spaces);
  }

  /** The white space in front of the rest keeps a token apart from it. */
  lemma MoreGaps(t: Token, rest: string, lead: string, body: Tokens, gaps: seq<string>)
    requires Reads(rest, lead, body, gaps)
    requires IsWord(t) ==> rest == "" || !IsWordChar(rest[0])
    requires t.kind == StringLiteral ==> rest == "" || rest[0] != '\''
    ensures Gaps([t] + body, [lead] + gaps) && Blank("")
  {
    if body != [] && lead == "" {
      FirstChar(rest, body, gaps);
    }
  }

  lemma FirstChar(rest: string, body: Tokens, gaps: seq<string>)
    requires body != [] && |gaps| == |body| && Spellable(body[0]) && rest == "" + Render(body, gaps)
    ensures rest != "" && (IsWord(body[0]) ==> IsWordChar(rest[0]))
    ensures body[0].kind == StringLiteral ==> rest[0] == '\''
  {
    assert rest == Render(body, gaps) && rest[0] == Spell(body[0])[0];
    assert IsWord(body[0]) ==> body[0].text[0] in body[0].text;
  }

  lemma NoTokens(text: string)
    requires Blank(text)
    ensures Reads(text, text, [], [])
  {
    assert text + "" == text;
  }

  lemma MoreSpace(c: char, rest: string, lead: string, body: Tokens, gaps: seq<string>)
    requires IsSpace(c) && Reads(rest, lead, body, gaps)
    ensures Reads([c] + rest, [c] + lead, body, gaps)
  {
    assert [c] + rest == [c] + lead + Render(body, gaps);
  }

  /** The tokens before END, if the last of them is not a string literal. */
  ghost predicate Plainly(ts: Tokens, body: Tokens) {
    ts == body + [END] && (body != [] ==> body[|body| - 1].kind != StringLiteral)
  }

  /** Whatever is read as tokens was spelled so. */
  lemma {:induction false} LexSpelled(s: string, body: Tokens) returns (lead: string, gaps: seq<string>)
    requires Lex(s).Some? && Plainly(Lex(s).value, body)
    ensures Reads(s, lead, body, gaps)
    decreases |s|
  {
    hide StringRest, IsWordChar, Reads, IsSpace, Simple;
    if s == "" {
      lead, gaps := "", [];
      NoTokens("");
    } else if IsSpace(s[0]) {
      lead, gaps := LexSpelled(s[1..], body);
      MoreSpace(s[0], s[1..], lead, body, gaps);
      lead := [s[0]] + lead;
      assert s == [s[0]] + s[1..];
    } else {
      var t, rest := FirstToken(s, body);
      var before;
      before, gaps := LexSpelled(rest, body[1..]);
      OneMoreToken(s, t, rest, before, body[1..], gaps);
      assert body == [t] + body[1..];
      lead, gaps := "", [before] + gaps;
    }
  }

  /** The first token of a text and what is left. */
  lemma FirstToken(s: string, body: Tokens) returns (t: Token, rest: string)
    requires s != "" && !IsSpace(s[0]) && Lex(s).Some? && Plainly(Lex(s).value, body)
    ensures Spellable(t) && s == Spell(t) + rest && |rest| < |s|
    ensures IsWord(t) ==> rest == "" || !IsWordChar(rest[0])
    ensures t.kind == StringLiteral ==> rest == "" || rest[0] != '\''
    ensures body != [] && t == body[0] && Lex(rest).Some? && Plainly(Lex(rest).value, body[1..])
  {
    if IsWordChar(s[0]) {
      hide StringRest, IsWordChar;
      var n := WordLength(s);
      t, rest := WordToken(s[..n]), s[n..];
      assert s[..n][0] == s[0] && s == s[..n] + s[n..];
      RestPlain(s, t, rest, body);
    } else if s[0] == '\'' {
      hide IsWordChar;
      StringRestShrinks(s[1..], '\'', "");
      t, rest := FirstLiteral(s, body);
    } else {
      hide StringRest;
      t, rest := Token(Simple(s[0]).value, [s[0]]), s[1..];
      RestPlain(s, t, rest, body);
    }
  }

  lemma RestPlain(s: string, t: Token, rest: string, body: Tokens)
    requires Lex(s).Some? && Lex(s) == Cons(t, Lex(rest)) && Plainly(Lex(s).value, body) && t.kind != End
    ensures body != [] && t == body[0] && Lex(rest).Some? && Plainly(Lex(rest).value, body[1..])
    ensures rest == "" ==> |body| == 1
  {
    LexEnded(rest);
    var all := Lex(s).value;
    assert rest == "" ==> Lex(rest) == Some([END]);
    hide Lex;
    assert all == [t] + Lex(rest).value && all == body + [END];
    assert all[0] == t && all[1..] == Lex(rest).value;
    assert body != [] ==> all[0] == body[0] && all[1..] == body[1..] + [END];
  }

  lemma FirstLiteral(s: string, body: Tokens) returns (t: Token, rest: string)
    requires s != "" && s[0] == '\'' && Lex(s).Some? && Plainly(Lex(s).value, body)
    ensures t.kind == StringLiteral && s == Spell(t) + rest && |rest| < |s| && (rest == "" || rest[0] != '\'')
    ensures body != [] && t == body[0] && Lex(rest).Some? && Plainly(Lex(rest).value, body[1..])
  {
    hide StringRest, Quoted;
    StringRestShrinks(s[1..], '\'', "");
    assert !IsSpace(s[0]) && !IsWordChar(s[0]);
    var r := StringRest(s[1..], '\'', "").value;
    t, rest := Token(StringLiteral, r.0), r.1;
    assert Lex(s) == Cons(t, Lex(rest));
    RestPlain(s, t, rest, body);
    assert rest != "";
    var w := LiteralSpelled(s[1..], '\'', "");
    assert "" + w == w && s == "'" + s[1..];
    assert "'" + (Quoted(w) + "'" + rest) == "'" + Quoted(w) + "'" + rest;
  }

  // ---- from text to statements ----

  /** What the SQL front end makes of a text. */
  function Parsed(text: string): Option<Statement> {
    var tokens :- Lex(text);
    LexEnded(text);
    ParseTokens(tokens)
  }

  /** A text spells a statement. */
  ghost predicate Writes(text: string, s: Statement) {
    exists lead: string, body: Tokens, gaps: seq<string> :: Spells(body, s) && Reads(text, lead, body, gaps)
  }

  /** Any spelling of a statement, with any white space, is read back as the statement. */
  lemma SpelledRoundTrip(s: Statement, body: Tokens, lead: string, gaps: seq<string>)
    requires Spells(body, s) && Blank(lead) && Gaps(body, gaps) && forall i | 0 <= i < |body| :: Spellable(body[i])
    ensures Parsed(lead + Render(body, gaps)) == Some(s)
  {
    assert |gaps| == |body|;
    hide Lex, ParseTokens, Spellable, Spells, Gaps, Blank;
    assert |body| == Size(s) by {
      SpelledSize(body, s);
    }
    LexRendered(body, gaps);
    LexBlank(lead, Render(body, gaps));
    var ts := body + [END];
    assert ts[..Size(s)] == body;
    LexEnded(lead + Render(body, gaps));
    ParseExactly(ts, s);
  }

  lemma SpelledSize(body: Tokens, s: Statement)
    requires Spells(body, s)
    ensures |body| == Size(s) > 0 && body[|body| - 1].kind == Semicolon
  {
  }

  /** The lexer puts END nowhere but at the end. */
  lemma {:induction false} OneEnd(s: string)
    ensures Lex(s).Some? ==> Lex(s).value != [] && Lex(s).value[|Lex(s).value| - 1] == END
    ensures Lex(s).Some? ==> forall i | 0 <= i < |Lex(s).value| - 1 :: Lex(s).value[i].kind != End
    decreases |s|
  {
    hide StringRest, IsWordChar;
    LexEnded(s);
    if s == "" {
    } else if IsSpace(s[0]) {
      OneEnd(s[1..]);
    } else if IsWordChar(s[0]) {
      OneEnd(s[WordLength(s)..]);
    } else if s[0] == '\'' {
      StringRestShrinks(s[1..], '\'', "");
      if StringRest(s[1..], '\'', "").Some? {
        OneEnd(StringRest(s[1..], '\'', "").value.1);
      }
    } else {
      OneEnd(s[1..]);
    }
  }

  /**
   * The SQL front end accepts exactly the texts that spell a statement: `s` is what it gives if and only if the text is
   * a spelling of the tokens of `s`, with white space anywhere between them and at least where words or literals would
   * run together.
   */
  lemma SqlExactly(text: string, s: Statement)
    ensures Parsed(text) == Some(s) <==> Writes(text, s)
  {
    hide Lex, ParseTokens, Spells, Reads;
    if Parsed(text) == Some(s) {
      ParsedWrites(text, s);
    }
    if Writes(text, s) {
      var lead: string, body: Tokens, gaps: seq<string> :| Spells(body, s) && Reads(text, lead, body, gaps);
      ReadsParts(text, lead, body, gaps);
      SpelledRoundTrip(s, body, lead, gaps);
    }
  }

  lemma ReadsParts(text: string, lead: string, body: Tokens, gaps: seq<string>)
    requires Reads(text, lead, body, gaps)
    ensures Blank(lead) && Gaps(body, gaps) && (forall i | 0 <= i < |body| :: Spellable(body[i]))
    ensures text == lead + Render(body, gaps)
  {
  }

  lemma ParsedWrites(text: string, s: Statement)
    requires Parsed(text) == Some(s)
    ensures Writes(text, s)
  {
    hide Lex, ParseTokens, Spells, Reads;
    var ts := Lex(text).value;
    LexEnded(text);
    ParseExactly(ts, s);
    OneEnd(text);
    var n := Size(s);
    assert n == |ts| - 1;
    SpelledSize(ts[..n], s);
    assert ts == ts[..n] + [END];
    var lead, gaps := LexSpelled(text, ts[..n]);
  }
}
