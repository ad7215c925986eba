/** The CSV line codec: a character state machine for reading and a quoting rule for writing. */
module Csv {
  import opened Wrappers
  import opened Text

  /** Text collected so far for the current field; None is the null buffer before any character. */
  type Buffer = Option<string>

  function Collected(b: Buffer): string {
    if b.None? then "" else b.value
  }

  function Cat(b: Buffer, s: string): Buffer {
    if s == "" then b else Some(Collected(b) + s)
  }

  /**
   * What the reader makes of `rest` in a given state: `quoted` inside quotes, `closed` after a closing quote.
   * The end of `rest` is the terminating NUL.
   */
  function Run(rest: string, quoted: bool, closed: bool, b: Buffer, fields: seq<string>): Result<seq<string>>
    decreases |rest|
  {
    if quoted then
      if rest == "" then Err
      else if rest[0] != '"' then Run(rest[1..], true, closed, Cat(b, [rest[0]]), fields)
      else if |rest| > 1 && rest[1] == '"' then Run(rest[2..], true, closed, Cat(b, "\""), fields)
      else Run(rest[1..], false, true, b, fields)
    else if rest == "" then Ok(fields + [Field(b, closed)])
    else if rest[0] == ',' then Run(rest[1..], false, false, None, fields + [Field(b, closed)])
    else if rest[0] == '"' && b.None? then Run(rest[1..], true, closed, b, fields)
    else if closed && rest[0] != ' ' && rest[0] != '\t' then Err
    else if IsLineEnd(rest[0]) then Run(rest[1..], false, closed, b, fields)
    else Run(rest[1..], false, closed, Cat(b, [rest[0]]), fields)
  }

  /** A quoted field is kept as it is, any other is trimmed. */
  function Field(b: Buffer, closed: bool): string {
    if closed then Collected(b) else Trim(Collected(b))
  }

  function Parse(line: string): Result<seq<string>> {
    Run(line, false, false, None, [])
  }

  /** Reads one line into fields, cursor by cursor. */
  method ParseLine(line: string) returns (result: Result<seq<string>>)
    ensures result == Parse(line)
  {
    var quoted, closed := false, false;
    var buffer: Buffer := None;
    var fields := [];
    var cursor := 0;
    while true
      invariant cursor <= |line|
      invariant Run(line[cursor..], quoted, closed, buffer, fields) == Parse(line)
      decreases |line| - cursor
    {
      var atEnd := cursor == |line|;
      if quoted {
        if atEnd {
          return Err;
        } else if line[cursor] == '"' {
          if cursor + 1 < |line| && line[cursor + 1] == '"' {
            buffer := Some(Collected(buffer) + "\"");
            cursor := cursor + 1;
          } else {
            quoted, closed := false, true;
          }
        } else {
          buffer := Some(Collected(buffer) + [line[cursor]]);
        }
      } else if atEnd || line[cursor] == ',' {
        fields := fields + [if closed then Collected(buffer) else Trim(Collected(buffer))];
        buffer, closed := None, false;
        if atEnd {
          return Ok(fields);
        }
      } else if line[cursor] == '"' && buffer.None? {
        quoted := true;
      } else if closed && line[cursor] != ' ' && line[cursor] != '\t' {
        return Err;
      } else if line[cursor] != '\r' && line[cursor] != '\n' {
        buffer := Some(Collected(buffer) + [line[cursor]]);
      }
      cursor := cursor + 1;
    }
  }

  predicate NeedsQuotes(value: string) {
    exists c | c in value :: c == '"' || c == ',' || IsLineEnd(c)
  }

  lemma NeedsQuotesSnoc(s: string, c: char)
    ensures NeedsQuotes(s + [c]) == (NeedsQuotes(s) || c == '"' || c == ',' || IsLineEnd(c))
  {
    assert c in s + [c];
    assert forall x | x in s :: x in s + [c];
  }

  /** Every quote doubled. */
  function Doubled(value: string): string {
    if value == "" then ""
    else (if value[0] == '"' then "\"\"" else [value[0]]) + Doubled(value[1..])
  }

  function Escape(value: string): string {
    if value == "" then "\"\""
    else if NeedsQuotes(value) then "\"" + Doubled(value) + "\""
    else value
  }

  function Quotes(value: string): nat {
    if value == "" then 0 else (if value[0] == '"' then 1 else 0) + Quotes(value[1..])
  }

  lemma {:induction false} DoubledLength(value: string)
    ensures |Doubled(value)| == |value| + Quotes(value)
  {
    if value != "" {
      DoubledLength(value[1..]);
    }
  }

  lemma {:induction false} DoubledSnoc(value: string, i: nat)
    requires i < |value|
    ensures Doubled(value[..i + 1]) == Doubled(value[..i]) + (if value[i] == '"' then "\"\"" else [value[i]])
    ensures Quotes(value[..i + 1]) == Quotes(value[..i]) + if value[i] == '"' then 1 else 0
  {
    if i > 0 {
      assert value[..i + 1][1..] == value[1..][..i] && value[..i][1..] == value[1..][..i - 1];
      DoubledSnoc(value[1..], i - 1);
    }
  }

  lemma {:induction false} QuotesPrefix(value: string, i: nat)
    requires i <= |value|
    ensures Quotes(value[..i]) <= Quotes(value)
  {
    if i > 0 {
      assert value[..i][1..] == value[1..][..i - 1];
      QuotesPrefix(value[1..], i - 1);
    }
  }

  /** Writes the escaped form of a value into an allocation computed beforehand, which it fills exactly. */
  method EscapeField(value: string) returns (escaped: array<char>)
    ensures fresh(escaped) && escaped[..] == Escape(value) + "\0"
  {
    if |value| == 0 {
      escaped := new char[] ['"', '"', '\0'];
      return;
    }
    var needsQuotes, extraQuotes := false, 0;
    for index := 0 to |value|
      invariant needsQuotes == NeedsQuotes(value[..index]) && extraQuotes == Quotes(value[..index])
    {
      DoubledSnoc(value, index);
      NeedsQuotesSnoc(value[..index], value[index]);
      assert value[..index + 1] == value[..index] + [value[index]];
      if value[index] == '"' || value[index] == ',' || value[index] == '\n' || value[index] == '\r' {
        needsQuotes := true;
      }
      if value[index] == '"' {
        extraQuotes := extraQuotes + 1;
      }
    }
    assert value[..|value|] == value;
    if !needsQuotes {
      escaped := new char[|value| + 1](i => if 0 <= i < |value| then value[i] else '\0');
      return;
    }
    escaped := WriteQuoted(value, extraQuotes);
  }

  method WriteQuoted(value: string, extraQuotes: nat) returns (escaped: array<char>)
    requires extraQuotes == Quotes(value)
    ensures fresh(escaped) && escaped[..] == "\"" + Doubled(value) + "\"" + "\0"
  {
    DoubledLength(value);
    assert Doubled(value[..0]) == "" && Quotes(value[..0]) == 0;
    hide Doubled, Quotes;
    escaped := new char[|value| + extraQuotes + 3];
    escaped[0] := '"';
    var writeIndex := 1;
    for index := 0 to |value|
      invariant Quotes(value[..index]) <= extraQuotes && writeIndex == 1 + index + Quotes(value[..index])
      invariant escaped[..writeIndex] == "\"" + Doubled(value[..index])
    {
      DoubledSnoc(value, index);
      QuotesPrefix(value, index + 1);
      ghost var written := escaped[..writeIndex];
      if value[index] == '"' {
        escaped[writeIndex] := '"';
        writeIndex := writeIndex + 1;
      }
      escaped[writeIndex] := value[index];
      writeIndex := writeIndex + 1;
      assert escaped[..writeIndex] == written + (if value[index] == '"' then "\"\"" else [value[index]]);
    }
    assert value[..|value|] == value;
    escaped[writeIndex] := '"';
    writeIndex := writeIndex + 1;
    escaped[writeIndex] := '\0';
  }

  /** A row as it is written: escaped fields joined by commas. */
  function Encode(row: seq<string>): string {
    if row == [] then "" else if |row| == 1 then Escape(row[0]) else Escape(row[0]) + "," + Encode(row[1..])
  }

  /** What a field reads back as. */
  function Normal(value: string): string {
    if value == "" || NeedsQuotes(value) then value else Trim(value)
  }

  function NormalRow(row: seq<string>): seq<string> {
    seq(|row|, i requires 0 <= i < |row| => Normal(row[i]))
  }

  lemma CatTwice(b: Buffer, c: char, s: string)
    ensures Cat(Cat(b, [c]), s) == Cat(b, [c] + s)
  {
    assert Collected(b) + [c] + s == Collected(b) + ([c] + s);
    assert s == "" ==> [c] + s == [c];
  }

  lemma {:induction false} RunPlain(v: string, rest: string, b: Buffer, fields: seq<string>)
    requires !NeedsQuotes(v)
    ensures Run(v + rest, false, false, b, fields) == Run(rest, false, false, Cat(b, v), fields)
  {
    if v == "" {
      assert v + rest == rest;
    } else {
      assert (v + rest)[1..] == v[1..] + rest && v[0] in v && [v[0]] + v[1..] == v;
      RunPlain(v[1..], rest, Cat(b, [v[0]]), fields);
      CatTwice(b, v[0], v[1..]);
    }
  }

  lemma {:induction false} RunQuoted(v: string, rest: string, closed: bool, b: Buffer, fields: seq<string>)
    requires rest == "" || rest[0] != '"'
    ensures Run(Doubled(v) + "\"" + rest, true, closed, b, fields) == Run(rest, false, true, Cat(b, v), fields)
  {
    var s := Doubled(v) + "\"" + rest;
    if v == "" {
      assert s[1..] == rest;
    } else {
      assert [v[0]] + v[1..] == v;
      assert s[if v[0] == '"' then 2 else 1..] == Doubled(v[1..]) + "\"" + rest;
      RunQuoted(v[1..], rest, closed, Cat(b, [v[0]]), fields);
      CatTwice(b, v[0], v[1..]);
    }
  }

  /** Reading one escaped field up to the comma or the end of the line. */
  lemma {:induction false} RunField(v: string, rest: string, fields: seq<string>)
    requires rest == "" || rest[0] == ','
    ensures Run(Escape(v) + rest, false, false, None, fields)
         == if rest == "" then Ok(fields + [Normal(v)]) else Run(rest[1..], false, false, None, fields + [Normal(v)])
  {
    hide NeedsQuotes;
    if v != "" && !NeedsQuotes(v) {
      RunPlain(v, rest, None, fields);
      assert "" + v == v;
    } else {
      RunOpened(v, rest, fields);
    }
  }

  lemma RunOpened(v: string, rest: string, fields: seq<string>)
    requires rest == "" || rest[0] == ','
    ensures Run("\"" + Doubled(v) + "\"" + rest, false, false, None, fields)
         == if rest == "" then Ok(fields + [v]) else Run(rest[1..], false, false, None, fields + [v])
  {
    hide Doubled;
    var s := "\"" + Doubled(v) + "\"" + rest;
    assert s[0] == '"' && s[1..] == Doubled(v) + "\"" + rest;
    RunQuoted(v, rest, false, None, fields);
    assert "" + v == v;
  }

  lemma {:induction false} RunRow(row: seq<string>, fields: seq<string>)
    requires row != []
    ensures Run(Encode(row), false, false, None, fields) == Ok(fields + NormalRow(row))
  {
    hide Run, Escape, Normal;
    if |row| == 1 {
      assert Encode(row) == Escape(row[0]) + "";
      RunField(row[0], "", fields);
      assert NormalRow(row) == [Normal(row[0])];
    } else {
      var rest := "," + Encode(row[1..]);
      assert Encode(row) == Escape(row[0]) + rest && rest[1..] == Encode(row[1..]);
      RunField(row[0], rest, fields);
      RunRow(row[1..], fields + [Normal(row[0])]);
      assert fields + [Normal(row[0])] + NormalRow(row[1..]) == fields + NormalRow(row);
    }
  }

  /** Reading back a written row gives as many fields, each exact if it was empty or quoted and trimmed otherwise. */
  lemma RoundTrip(row: seq<string>)
    requires row != []
    ensures Parse(Encode(row)) == Ok(NormalRow(row))
  {
    RunRow(row, []);
    assert [] + NormalRow(row) == NormalRow(row);
  }

  /** A field that is written plainly and has white space at an end. */
  predicate LosesSpace(value: string) {
    value != "" && !NeedsQuotes(value) && (IsSpace(value[0]) || IsSpace(value[|value| - 1]))
  }

  lemma NormalExact(value: string)
    ensures Normal(value) == value <==> !LosesSpace(value)
  {
    if value != "" {
      var i := LeftEdge(value);
      var j := RightEdge(value[i..]);
      assert Trim(value) == value[i..][..j];
      if i == 0 {
        assert value[i..] == value;
      }
    }
  }

  /** A row reads back exactly if and only if no plain field has white space at an end. */
  lemma ExactRoundTrip(row: seq<string>)
    requires row != []
    ensures Parse(Encode(row)) == Ok(row) <==> forall i | 0 <= i < |row| :: !LosesSpace(row[i])
  {
    hide LosesSpace, Normal;
    RoundTrip(row);
    forall i | 0 <= i < |row| ensures NormalRow(row)[i] == row[i] <==> !LosesSpace(row[i]) {
      NormalExact(row[i]);
    }
    if forall i | 0 <= i < |row| :: !LosesSpace(row[i]) {
      assert NormalRow(row) == row;
    } else {
      var i :| 0 <= i < |row| && LosesSpace(row[i]);
      assert NormalRow(row)[i] != row[i];
    }
  }
}
