/** The JSON side of the HTTP interface: escaping response text and finding the `sql` field of a request. */
module Json {
  import opened Wrappers

  // ---- escaping ----

  predicate NeedsEscape(c: char) {
    c == '\\' || c == '"' || c == '\n' || c == '\r' || c == '\t'
  }

  /** The letter that follows the backslash. */
  function EscapeLetter(c: char): char
    requires NeedsEscape(c)
  {
    if c == '\n' then 'n' else if c == '\r' then 'r' else if c == '\t' then 't' else c
  }

  function EscapeChar(c: char): string {
    if NeedsEscape(c) then ['\\', EscapeLetter(c)] else [c]
  }

  function Escape(s: string): string {
    if s == "" then "" else Escape(s[..|s| - 1]) + EscapeChar(s[|s| - 1])
  }

  lemma EscapeSize(c: char)
    ensures |EscapeChar(c)| == if NeedsEscape(c) then 2 else 1
  {
  }

  lemma EscapeStep(s: string, n: nat)
    requires n < |s|
    ensures Escape(s[..n + 1]) == Escape(s[..n]) + EscapeChar(s[n]) && |Escape(s[..n + 1])| <= |Escape(s)|
  {
    assert s[..n + 1][..n] == s[..n];
    EscapeGrows(s, n + 1);
  }

  lemma {:induction false} EscapeGrows(s: string, n: nat)
    requires n <= |s|
    ensures |Escape(s[..n])| <= |Escape(s)|
  {
    if n == |s| {
      assert s[..n] == s;
    } else {
      assert s[..|s| - 1][..n] == s[..n];
      EscapeGrows(s[..|s| - 1], n);
    }
  }

  /** Two passes: the first counts, the second writes. The text and its NUL fill the allocation exactly. */
  method JsonEscape(value: string) returns (escaped: array<char>)
    ensures fresh(escaped) && escaped[..] == Escape(value) + "\0"
  {
    var length := 0;
    assert Escape(value[..0]) == "";
    hide Escape, EscapeChar;
    for index := 0 to |value|
      invariant length == |Escape(value[..index])|
    {
      EscapeStep(value, index);
      EscapeSize(value[index]);
      length := length + if NeedsEscape(value[index]) then 2 else 1;
    }
    assert value[..|value|] == value;
    escaped := new char[length + 1];
    var offset := 0;
    for index := 0 to |value|
      invariant offset == |Escape(value[..index])| <= length && escaped[..offset] == Escape(value[..index])
    {
      EscapeStep(value, index);
      offset := WriteEscaped(escaped, offset, value[index]);
    }
    escaped[offset] := '\0';
    assert escaped[..] == escaped[..offset] + "\0";
  }

  method WriteEscaped(escaped: array<char>, offset: nat, c: char) returns (offset': nat)
    requires offset + |EscapeChar(c)| <= escaped.Length
    modifies escaped
    ensures offset' == offset + |EscapeChar(c)| && escaped[..offset'] == old(escaped[..offset]) + EscapeChar(c)
  {
    if NeedsEscape(c) {
      escaped[offset] := '\\';
      escaped[offset + 1] := EscapeLetter(c);
      offset' := offset + 2;
    } else {
      escaped[offset] := c;
      offset' := offset + 1;
    }
  }

  lemma {:induction false} EscapeConcat(a: string, b: string)
    ensures Escape(a + b) == Escape(a) + Escape(b)
  {
    if b == "" {
      assert a + b == a && Escape(a) + Escape(b) == Escape(a);
    } else {
      assert (a + b)[..|a + b| - 1] == a + b[..|b| - 1];
      EscapeConcat(a, b[..|b| - 1]);
    }
  }

  // ---- reading ----

  predicate IsJsonSpace(c: char) {
    c == ' ' || c == '\t' || c == '\r' || c == '\n'
  }

  /** The end of a string plays the part of the terminating NUL. */
  function SkipWs(s: string): (r: string)
    ensures |r| <= |s| && (r != "" ==> !IsJsonSpace(r[0]))
  {
    if s != "" && IsJsonSpace(s[0]) then SkipWs(s[1..]) else s
  }

  function Unescape(c: char): Option<char> {
    match c
    case '"' => Some(c)
    case '\\' => Some(c)
    case '/' => Some(c)
    case 'n' => Some('\n')
    case 'r' => Some('\r')
    case 't' => Some('\t')
    case _ => None
  }

  /** A string after its opening quote: the text and what follows the closing quote. */
  function StringBody(s: string, text: string): (r: Option<(string, string)>)
    ensures r.Some? ==> |r.value.1| < |s|
    decreases |s|
  {
    if s == "" then None
    else if s[0] == '"' then Some((text, s[1..]))
    else if s[0] != '\\' then StringBody(s[1..], text + [s[0]])
    else if |s| == 1 then None
    else
      var c :- Unescape(s[1]);
      StringBody(s[2..], text + [c])
  }

  function ParseString(s: string): (r: Option<(string, string)>)
    ensures r.Some? ==> |r.value.1| < |s|
  {
    if s == "" || s[0] != '"' then None else StringBody(s[1..], "")
  }

  predicate IsNumberChar(c: char) {
    '0' <= c <= '9' || c == '-' || c == '+'
  }

  function SkipNumber(s: string): (r: string)
    ensures |r| <= |s| && (r != "" ==> !IsNumberChar(r[0]))
  {
    if s != "" && IsNumberChar(s[0]) then SkipNumber(s[1..]) else s
  }

  predicate StartsWith(s: string, prefix: string) {
    |prefix| <= |s| && s[..|prefix|] == prefix
  }

  /** Passes over a string, null, true, false or a run of number characters. */
  function SkipValue(s: string): (r: Option<string>)
    ensures r.Some? ==> |r.value| < |s|
  {
    var input := SkipWs(s);
    if input != "" && input[0] == '"' then
      var (_, rest) :- ParseString(input);
      Some(rest)
    else if StartsWith(input, "null") || StartsWith(input, "true") then Some(input[4..])
    else if StartsWith(input, "false") then Some(input[5..])
    else
      var rest := SkipNumber(input);
      if |rest| < |s| then Some(rest) else None
  }

  datatype Extracted = Malformed | Missing | Sql(value: string)

  /** One `key : value` pair: what `sql` is afterwards, and the rest. */
  function Field(s: string, found: Option<string>): (r: Option<(Option<string>, string)>)
    ensures r.Some? ==> |r.value.1| < |s|
  {
    var (key, afterKey) :- ParseString(s);
    var colon := SkipWs(afterKey);
    if colon == "" || colon[0] != ':' then None
    else
      var input := SkipWs(colon[1..]);
      if key == "sql" then
        var (value, rest) :- ParseString(input);
        Some((Some(value), rest))
      else
        var rest :- SkipValue(input);
        Some((found, rest))
  }

  /** After the closing brace only white space may follow. */
  function Finish(s: string, found: Option<string>): Extracted {
    if SkipWs(s) != "" then Malformed else if found.None? then Missing else Sql(found.value)
  }

  /** The fields of an object, after its opening brace or a comma. */
  function Fields(s: string, found: Option<string>): Extracted
    decreases |s|
  {
    var start := SkipWs(s);
    if start != "" && start[0] == '}' then Finish(start[1..], found)
    else
      var field := Field(start, found);
      if field.None? then Malformed
      else
        var next := SkipWs(field.value.1);
        if next == "" then Malformed
        else if next[0] == ',' then Fields(next[1..], field.value.0)
        else if next[0] == '}' then Finish(next[1..], field.value.0)
        else Malformed
  }

  function Extract(body: string): Extracted {
    var start := SkipWs(body);
    if start == "" || start[0] != '{' then Malformed else Fields(start[1..], None)
  }

  // ---- the cursor loops ----

  method SkipSpaces(input: string, cursor: nat) returns (cursor': nat)
    requires cursor <= |input|
    ensures cursor <= cursor' <= |input| && input[cursor'..] == SkipWs(input[cursor..])
  {
    cursor' := cursor;
    while cursor' < |input| && IsJsonSpace(input[cursor'])
      invariant cursor <= cursor' <= |input| && SkipWs(input[cursor'..]) == SkipWs(input[cursor..])
    {
      assert input[cursor'..][1..] == input[cursor' + 1..];
      cursor' := cursor' + 1;
    }
  }

  /** Copies the characters up to the closing quote into a growing buffer. */
  method ParseJsonString(input: string, cursor: nat) returns (value: Option<string>, cursor': nat)
    requires cursor <= |input|
    ensures var r := ParseString(input[cursor..]);
            if r.None? then value.None?
              else value == Some(r.value.0) && cursor < cursor' <= |input| && input[cursor'..] == r.value.1
  {
    cursor' := cursor;
    if cursor == |input| || input[cursor] != '"' {
      return None, cursor;
    }
    cursor' := cursor + 1;
    var buffer := "";
    while cursor' < |input| && input[cursor'] != '"'
      invariant cursor < cursor' <= |input| && StringBody(input[cursor'..], buffer) == ParseString(input[cursor..])
    {
      var ch := input[cursor'];
      ghost var was := cursor';
      cursor' := cursor' + 1;
      if ch == '\\' {
        var letter := if cursor' < |input| then Unescape(input[cursor']) else None;
        if letter.None? {
          return None, cursor;
        }
        ch := letter.value;
        cursor' := cursor' + 1;
      }
      assert input[was..][cursor' - was..] == input[cursor'..];
      buffer := buffer + [ch];
    }
    if cursor' == |input| {
      return None, cursor;
    }
    return Some(buffer), cursor' + 1;
  }

  method SkipJsonValue(input: string, cursor: nat) returns (ok: bool, cursor': nat)
    requires cursor <= |input|
    ensures var r := SkipValue(input[cursor..]);
            if r.None? then !ok else ok && cursor < cursor' <= |input| && input[cursor'..] == r.value
  {
    cursor' := SkipSpaces(input, cursor);
    if cursor' < |input| && input[cursor'] == '"' {
      var ignored, next := ParseJsonString(input, cursor');
      return ignored.Some?, next;
    }
    if StartsWith(input[cursor'..], "null") || StartsWith(input[cursor'..], "true") {
      return true, cursor' + 4;
    }
    if StartsWith(input[cursor'..], "false") {
      return true, cursor' + 5;
    }
    ghost var start := cursor';
    while cursor' < |input| && IsNumberChar(input[cursor'])
      invariant start <= cursor' <= |input| && SkipNumber(input[cursor'..]) == SkipNumber(input[start..])
    {
      assert input[cursor'..][1..] == input[cursor' + 1..];
      cursor' := cursor' + 1;
    }
    ok := cursor' != cursor;
  }

  /** One field; `sql` is overwritten when the key is `sql`. */
  method ExtractField(input: string, cursor: nat, sql: Option<string>)
    returns (ok: bool, sql': Option<string>, cursor': nat)
    requires cursor <= |input|
    ensures var r := Field(input[cursor..], sql);
            if r.None? then !ok
              else ok && sql' == r.value.0 && cursor < cursor' <= |input| && input[cursor'..] == r.value.1
  {
    hide ParseString, SkipValue, SkipWs;
    ok, sql' := false, sql;
    var key;
    key, cursor' := ParseJsonString(input, cursor);
    if key.None? { return; }
    cursor' := SkipSpaces(input, cursor');
    if cursor' == |input| || input[cursor'] != ':' { return; }
    assert input[cursor'..][1..] == input[cursor' + 1..];
    cursor' := SkipSpaces(input, cursor' + 1);
    if key.value == "sql" {
      var value;
      value, cursor' := ParseJsonString(input, cursor');
      if value.None? { return; }
      return true, value, cursor';
    }
    ok, cursor' := SkipJsonValue(input, cursor');
  }

  method ExtractSqlField(body: string) returns (result: Extracted)
    ensures result == Extract(body)
  {
    hide Field, SkipWs;
    var cursor := SkipSpaces(body, 0);
    assert body[0..] == body;
    if cursor == |body| || body[cursor] != '{' {
      return Malformed;
    }
    assert body[cursor..][1..] == body[cursor + 1..];
    cursor := cursor + 1;
    var sql: Option<string> := None;
    while true
      invariant cursor <= |body| && Fields(body[cursor..], sql) == Extract(body)
      decreases |body| - cursor
    {
      cursor := SkipSpaces(body, cursor);
      if cursor < |body| && body[cursor] == '}' {
        break;
      }
      var ok;
      ok, sql, cursor := ExtractField(body, cursor, sql);
      if !ok {
        return Malformed;
      }
      cursor := SkipSpaces(body, cursor);
      if cursor < |body| && body[cursor] == ',' {
        assert body[cursor..][1..] == body[cursor + 1..];
        cursor := cursor + 1;
        continue;
      }
      if cursor < |body| && body[cursor] == '}' {
        break;
      }
      return Malformed;
    }
    assert body[cursor..][1..] == body[cursor + 1..];
    cursor := SkipSpaces(body, cursor + 1);
    if cursor != |body| {
      return Malformed;
    }
    return if sql.None? then Missing else Sql(sql.value);
  }

  // ---- strings ----

  /** How the inside of a string spells a text: a character stands for itself, or an escape for what it means. */
  ghost predicate Spelled(raw: string, text: string)
    decreases |raw|
  {
    if raw == "" then text == ""
    else if text == "" then false
    else if raw[0] == '\\' then |raw| > 1 && Unescape(raw[1]) == Some(text[0]) && Spelled(raw[2..], text[1..])
    else raw[0] != '"' && raw[0] == text[0] && Spelled(raw[1..], text[1..])
  }

  lemma Appending(s: string, acc: string)
    ensures acc + "" == acc
    ensures s != "" ==> acc + [s[0]] + s[1..] == acc + s
  {
  }

  /** A spelled text is read up to its closing quote. */
  lemma {:induction false} ReadSpelled(raw: string, text: string, rest: string, acc: string)
    requires Spelled(raw, text)
    ensures StringBody(raw + "\"" + rest, acc) == Some((acc + text, rest))
    decreases |raw|
  {
    var s := raw + "\"" + rest;
    Appending(text, acc);
    if raw == "" {
      assert s[1..] == rest;
    } else if raw[0] == '\\' {
      assert s[2..] == raw[2..] + "\"" + rest && s[1] == raw[1];
      ReadSpelled(raw[2..], text[1..], rest, acc + [text[0]]);
    } else {
      assert s[1..] == raw[1..] + "\"" + rest && s[0] == raw[0];
      ReadSpelled(raw[1..], text[1..], rest, acc + [text[0]]);
    }
  }

  /** And whatever is read was spelled so. */
  lemma {:induction false} WasSpelled(s: string, acc: string) returns (raw: string, text: string)
    requires StringBody(s, acc).Some?
    ensures s == raw + "\"" + StringBody(s, acc).value.1 && Spelled(raw, text)
    ensures StringBody(s, acc).value.0 == acc + text
    decreases |s|
  {
    if s[0] == '"' {
      raw, text := "", "";
      assert s == "\"" + s[1..] && acc + text == acc;
    } else {
      var n := if s[0] == '\\' then 2 else 1;
      var c := if n == 2 then Unescape(s[1]).value else s[0];
      var r, t := WasSpelled(s[n..], acc + [c]);
      raw, text := s[..n] + r, [c] + t;
      assert raw[n..] == r && text[1..] == t && s == s[..n] + s[n..];
      Appending(text, acc);
      LongerSpelling(s, n, r, StringBody(s, acc).value.1);
    }
  }

  lemma LongerSpelling(s: string, n: nat, r: string, rest: string)
    requires n <= |s| && s[n..] == r + "\"" + rest
    ensures s == s[..n] + r + "\"" + rest
  {
    assert s == s[..n] + (r + "\"" + rest);
  }

  /** A string is read exactly if it is a spelled text between quotes. */
  lemma StringExactly(s: string, text: string, rest: string)
    ensures ParseString(s) == Some((text, rest))
       <==> exists raw: string :: Spelled(raw, text) && s == "\"" + raw + "\"" + rest
  {
    hide Spelled, StringBody;
    if ParseString(s) == Some((text, rest)) {
      var raw, t := WasSpelled(s[1..], "");
      assert "" + t == t && s == "\"" + s[1..];
      assert "\"" + (raw + "\"" + rest) == "\"" + raw + "\"" + rest;
    }
    if exists raw: string :: Spelled(raw, text) && s == "\"" + raw + "\"" + rest {
      var raw: string :| Spelled(raw, text) && s == "\"" + raw + "\"" + rest;
      ReadString(raw, text, rest);
    }
  }

  lemma ReadString(raw: string, text: string, rest: string)
    requires Spelled(raw, text)
    ensures ParseString("\"" + raw + "\"" + rest) == Some((text, rest))
  {
    hide Spelled, StringBody;
    assert ("\"" + raw + "\"" + rest)[1..] == raw + "\"" + rest && "" + text == text;
    ReadSpelled(raw, text, rest, "");
  }

  lemma EscapeHead(s: string)
    requires s != ""
    ensures Escape(s) == EscapeChar(s[0]) + Escape(s[1..])
  {
    assert [s[0]] + s[1..] == s && [s[0]][..0] == "";
    EscapeConcat([s[0]], s[1..]);
    assert Escape([s[0]]) == "" + EscapeChar(s[0]) == EscapeChar(s[0]);
  }

  /** What the writer escapes is a spelling of it. */
  lemma {:induction false} EscapeSpells(s: string)
    ensures Spelled(Escape(s), s)
  {
    if s != "" {
      EscapeHead(s);
      EscapeSpells(s[1..]);
      hide Escape;
      OneSpelled(s, Escape(s[1..]));
    }
  }

  lemma OneSpelled(s: string, raw: string)
    requires s != "" && Spelled(raw, s[1..])
    ensures Spelled(EscapeChar(s[0]) + raw, s)
  {
    var all, n := EscapeChar(s[0]) + raw, |EscapeChar(s[0])|;
    assert all[n..] == raw && forall i | 0 <= i < n :: all[i] == EscapeChar(s[0])[i];
  }

  function Quote(s: string): string {
    "\"" + Escape(s) + "\""
  }

  /** Parsing a quoted, escaped string returns it and stops exactly at what follows. */
  lemma StringRoundTrip(s: string, rest: string)
    ensures ParseString(Quote(s) + rest) == Some((s, rest))
  {
    EscapeSpells(s);
    ReadString(Escape(s), s, rest);
  }

  // ---- rendered objects ----

  /** A value the extractor can pass over: a string, given as it is spelled, or null, true, false, a number. */
  datatype Value = Text(raw: string, text: string) | Bare(word: string)

  /** A member with its key, the spelling of that, its value, and the white space around them. */
  datatype Member = Member(key: string, raw: string, value: Value, beforeKey: string, afterKey: string,
    beforeValue: string, afterValue: string)

  ghost predicate Blank(s: string) {
    forall c | c in s :: IsJsonSpace(c)
  }

  predicate IsNumber(s: string) {
    s != "" && forall c | c in s :: IsNumberChar(c)
  }

  ghost predicate MemberOk(m: Member) {
    && Blank(m.beforeKey) && Blank(m.afterKey) && Blank(m.beforeValue) && Blank(m.afterValue)
    && Spelled(m.raw, m.key) && ValueOk(m.value)
  }

  ghost predicate ValueOk(v: Value) {
    match v
    case Text(raw, text) => Spelled(raw, text)
    case Bare(word) => IsLiteral(word) || IsNumber(word)
  }

  function InQuotes(raw: string): string {
    "\"" + raw + "\""
  }

  function RenderValue(v: Value): string {
    if v.Text? then InQuotes(v.raw) else v.word
  }

  /** The member from its key on. */
  function RenderMember(m: Member): string {
    InQuotes(m.raw) + (m.afterKey + (":" + (m.beforeValue + (RenderValue(m.value) + m.afterValue))))
  }

  function RenderMembers(ms: seq<Member>): string {
    if ms == [] then ""
    else ms[0].beforeKey + RenderMember(ms[0]) + (if |ms| == 1 then "" else "," + RenderMembers(ms[1..]))
  }

  /** The last `sql` text wins; a `sql` that is not a string spoils the object. */
  function Verdict(ms: seq<Member>, found: Option<string>): Extracted {
    if ms == [] then if found.None? then Missing else Sql(found.value)
    else if ms[0].key != "sql" then Verdict(ms[1..], found)
    else if ms[0].value.Bare? then Malformed
    else Verdict(ms[1..], Some(ms[0].value.text))
  }

  lemma {:induction false} SkipBlank(gap: string, rest: string)
    requires Blank(gap)
    ensures SkipWs(gap + rest) == SkipWs(rest)
  {
    if gap == "" {
      assert gap + rest == rest;
    } else {
      assert (gap + rest)[1..] == gap[1..] + rest && gap[0] in gap;
      SkipBlank(gap[1..], rest);
    }
  }

  lemma {:induction false} SkipDigits(digits: string, rest: string)
    requires (forall c | c in digits :: IsNumberChar(c)) && (rest == "" || !IsNumberChar(rest[0]))
    ensures SkipNumber(digits + rest) == rest
  {
    if digits == "" {
      assert digits + rest == rest;
    } else {
      assert (digits + rest)[1..] == digits[1..] + rest && digits[0] in digits;
      SkipDigits(digits[1..], rest);
    }
  }

  predicate IsLiteral(s: string) {
    s == "null" || s == "true" || s == "false"
  }

  lemma SkipLiteral(word: string, rest: string)
    requires IsLiteral(word)
    ensures SkipValue(word + rest) == Some(rest)
  {
  }

  lemma SkipDigitRun(word: string, rest: string)
    requires IsNumber(word) && (rest == "" || !IsNumberChar(rest[0]))
    ensures SkipValue(word + rest) == Some(rest)
  {
    hide StringBody, SkipNumber;
    var s := word + rest;
    assert word[0] in word && s[0] == word[0] && SkipWs(s) == s;
    SkipDigits(word, rest);
    assert forall p: string | p != "" && StartsWith(s, p) :: p[0] == s[0] by {
      forall p: string | p != "" && StartsWith(s, p) ensures p[0] == s[0] {
        assert s[..|p|][0] == s[0];
      }
    }
  }

  /** Passing over a rendered value stops where it ends. */
  lemma SkipRendered(v: Value, rest: string)
    requires ValueOk(v) && (rest == "" || !IsNumberChar(rest[0]))
    ensures SkipValue(RenderValue(v) + rest) == Some(rest)
  {
    hide StringBody, SkipNumber, Spelled;
    if v.Text? {
      ReadString(v.raw, v.text, rest);
      assert SkipWs(InQuotes(v.raw) + rest) == InQuotes(v.raw) + rest;
    } else if IsLiteral(v.word) {
      SkipLiteral(v.word, rest);
    } else {
      SkipDigitRun(v.word, rest);
    }
  }

  /** A rendered value starts with neither white space nor, when bare, a quote. */
  lemma ValueStart(v: Value, rest: string)
    requires ValueOk(v)
    ensures SkipWs(RenderValue(v) + rest) == RenderValue(v) + rest
    ensures v.Bare? ==> ParseString(RenderValue(v) + rest) == None
  {
    hide StringBody, Spelled;
    if v.Bare? && IsNumber(v.word) {
      assert v.word[0] in v.word;
    }
    assert (RenderValue(v) + rest)[0] == RenderValue(v)[0];
  }

  /** Reading a rendered member. */
  lemma ReadMember(m: Member, rest: string, found: Option<string>)
    requires MemberOk(m) && (rest == "" || !IsNumberChar(rest[0]))
    ensures var field := Field(RenderMember(m) + rest, found);
            if m.key == "sql" && m.value.Bare? then field == None
            else field == Some((if m.key == "sql" then Some(m.value.text) else found, m.afterValue + rest))
  {
    hide SkipWs, InQuotes, ParseString, SkipValue, RenderValue, Blank, Spelled;
    var end := m.afterValue + rest;
    var value := RenderValue(m.value) + end;
    var colon := ":" + (m.beforeValue + value);
    assert RenderMember(m) + rest == InQuotes(m.raw) + (m.afterKey + colon);
    ReadInQuotes(m.raw, m.key, m.afterKey + colon);
    SkipBlank(m.afterKey, colon);
    ColonStays(m.beforeValue + value);
    assert colon[1..] == m.beforeValue + value;
    SkipBlank(m.beforeValue, value);
    ValueStart(m.value, end);
    EndOfValue(m.afterValue, rest);
    SkipRendered(m.value, end);
    if m.value.Text? {
      TextValue(m.value, end);
    }
  }

  lemma ColonStays(rest: string)
    ensures SkipWs(":" + rest) == ":" + rest
  {
  }

  lemma EndOfValue(gap: string, rest: string)
    requires Blank(gap) && (rest == "" || !IsNumberChar(rest[0]))
    ensures gap + rest == "" || !IsNumberChar((gap + rest)[0])
  {
    if gap != "" {
      assert gap[0] in gap;
    }
  }

  lemma TextValue(v: Value, rest: string)
    requires v.Text? && ValueOk(v)
    ensures ParseString(RenderValue(v) + rest) == Some((v.text, rest))
  {
    ReadInQuotes(v.raw, v.text, rest);
  }

  lemma ReadInQuotes(raw: string, text: string, rest: string)
    requires Spelled(raw, text)
    ensures ParseString(InQuotes(raw) + rest) == Some((text, rest))
  {
    ReadString(raw, text, rest);
  }

  /** Where a key starts nothing is skipped, and the object does not end. */
  lemma MemberStart(m: Member, rest: string)
    ensures var s := RenderMember(m) + rest; SkipWs(s) == s && s != "" && s[0] == '"'
  {
  }

  /** The end of an object: a comma is allowed after the last member. */
  function Closing(comma: bool, blank: string, trail: string): string {
    (if comma then "," else "") + (blank + ("}" + trail))
  }

  lemma ReadClosing(comma: bool, blank: string, trail: string, found: Option<string>)
    requires Blank(blank) && Blank(trail)
    ensures var next := SkipWs(Closing(comma, blank, trail));
            && next != "" && next[0] == (if comma then ',' else '}')
            && (if comma then Fields(next[1..], found) else Finish(next[1..], found)) == Verdict([], found)
    ensures !IsNumberChar(Closing(comma, blank, trail)[0])
  {
    CloseStays(blank, trail);
    assert blank != "" ==> blank[0] in blank;
    if comma {
      CommaStays(blank + ("}" + trail));
      assert Closing(true, blank, trail)[1..] == blank + ("}" + trail);
    } else {
      assert Closing(false, blank, trail) == blank + ("}" + trail);
    }
  }

  /** The members of a rendered object, from after the opening brace on. */
  lemma {:induction false} ReadMembers(ms: seq<Member>, comma: bool, blank: string, trail: string,
                                       found: Option<string>)
    requires ms != [] && (forall m | m in ms :: MemberOk(m)) && Blank(blank) && Blank(trail)
    ensures Fields(RenderMembers(ms) + Closing(comma, blank, trail), found) == Verdict(ms, found)
  {
    hide Field, SkipWs, RenderMember, RenderMembers, Closing, Blank, Finish, MemberOk;
    var m, close := ms[0], Closing(comma, blank, trail);
    assert m in ms && MemberOk(m);
    var rest := AfterMember(ms, close);
    var found' := if m.key == "sql" && m.value.Text? then Some(m.value.text) else found;
    MembersSplit(ms, close);
    MemberGaps(m);
    SkipBlank(m.beforeKey, RenderMember(m) + rest);
    MemberStart(m, rest);
    ReadClosing(comma, blank, trail, found');
    ReadMember(m, rest, found);
    SkipBlank(m.afterValue, rest);
    if |ms| > 1 {
      CommaStays(RenderMembers(ms[1..]) + close);
      if !(m.key == "sql" && m.value.Bare?) {
        ReadMembers(ms[1..], comma, blank, trail, found');
      }
    }
  }

  /** What follows the first member. */
  function AfterMember(ms: seq<Member>, close: string): string
    requires ms != []
  {
    if |ms| == 1 then close else "," + (RenderMembers(ms[1..]) + close)
  }

  lemma MembersSplit(ms: seq<Member>, close: string)
    requires ms != []
    ensures RenderMembers(ms) + close == ms[0].beforeKey + (RenderMember(ms[0]) + AfterMember(ms, close))
    ensures |ms| > 1 ==> AfterMember(ms, close)[1..] == RenderMembers(ms[1..]) + close
  {
    var first, own := ms[0].beforeKey, RenderMember(ms[0]);
    var more := if |ms| == 1 then "" else "," + RenderMembers(ms[1..]);
    assert RenderMembers(ms) == first + own + more;
    assert more + close == AfterMember(ms, close) by {
      if |ms| > 1 {
        CommaFirst(RenderMembers(ms[1..]), close);
      } else {
        assert "" + close == close;
      }
    }
    hide RenderMember, RenderMembers;
    Regrouped(first, own, more, close);
  }

  lemma CommaFirst(more: string, close: string)
    ensures "," + more + close == "," + (more + close) && ("," + (more + close))[1..] == more + close
  {
  }

  lemma Regrouped(first: string, own: string, more: string, close: string)
    ensures first + own + more + close == first + (own + (more + close))
  {
  }

  lemma MemberGaps(m: Member)
    requires MemberOk(m)
    ensures Blank(m.beforeKey) && Blank(m.afterValue)
  {
  }

  lemma CommaStays(rest: string)
    ensures SkipWs("," + rest) == "," + rest
  {
  }

  lemma CloseStays(blank: string, trail: string)
    requires Blank(blank) && Blank(trail)
    ensures SkipWs(blank + ("}" + trail)) == "}" + trail && ("}" + trail)[1..] == trail && SkipWs(trail) == ""
  {
    SkipBlank(blank, "}" + trail);
    assert trail + "" == trail;
    SkipBlank(trail, "");
  }

  /** A body that is an object with these members. */
  function RenderObject(lead: string, ms: seq<Member>, comma: bool, blank: string, trail: string): string {
    lead + ("{" + (RenderMembers(ms) + Closing(comma, blank, trail)))
  }

  /**
   * For any rendered object, with any spelling of its texts and any white space the extractor allows, extraction
   * returns the last `sql` text, reports a missing field when there is none, and refuses the object when a `sql` value
   * is not a string.
   */
  lemma ObjectRoundTrip(ms: seq<Member>, lead: string, comma: bool, blank: string, trail: string)
    requires (forall m | m in ms :: MemberOk(m)) && Blank(lead) && Blank(blank) && Blank(trail) && (comma ==> ms != [])
    ensures Extract(RenderObject(lead, ms, comma, blank, trail)) == Verdict(ms, None)
  {
    hide Blank, MemberOk;
    var inner := RenderMembers(ms) + Closing(comma, blank, trail);
    SkipBlank(lead, "{" + inner);
    assert ("{" + inner)[1..] == inner;
    if ms == [] {
      assert inner == blank + ("}" + trail);
      CloseStays(blank, trail);
    } else {
      ReadMembers(ms, comma, blank, trail, None);
    }
  }

  /** Without a `sql` member the field is missing. */
  lemma {:induction false} VerdictMissing(ms: seq<Member>, found: Option<string>)
    requires forall i | 0 <= i < |ms| :: ms[i].key != "sql"
    ensures Verdict(ms, found) == Verdict([], found)
  {
    if ms != [] {
      VerdictMissing(ms[1..], found);
    }
  }

  /** With only string values under `sql`, the last one decides. */
  lemma {:induction false} VerdictIsLast(ms: seq<Member>, found: Option<string>, last: nat)
    requires forall i | 0 <= i < |ms| :: ms[i].key == "sql" ==> ms[i].value.Text?
    requires last < |ms| && ms[last].key == "sql" && forall i | last < i < |ms| :: ms[i].key != "sql"
    ensures Verdict(ms, found) == Sql(ms[last].value.text)
  {
    if last == 0 {
      VerdictMissing(ms[1..], Some(ms[0].value.text));
    } else {
      VerdictIsLast(ms[1..], if ms[0].key == "sql" then Some(ms[0].value.text) else found, last - 1);
    }
  }

  /** An object is refused exactly if some `sql` value is not a string, wherever it stands. */
  lemma {:induction false} VerdictMalformed(ms: seq<Member>, found: Option<string>)
    ensures Verdict(ms, found) == Malformed
       <==> exists i :: 0 <= i < |ms| && ms[i].key == "sql" && ms[i].value.Bare?
  {
    if ms != [] && !(ms[0].key == "sql" && ms[0].value.Bare?) {
      VerdictMalformed(ms[1..], if ms[0].key == "sql" then Some(ms[0].value.text) else found);
      assert forall i | 0 < i < |ms| :: ms[i] == ms[1..][i - 1];
    }
  }
}
