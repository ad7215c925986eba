/** The lines the CSV reader accepts, said without its state machine. */
module CsvLines {
  import opened Wrappers
  import opened Text
  import opened Csv

  /** The text without its carriage returns and line feeds. */
  function WithoutEnds(s: string): string {
    if s == "" then "" else (if IsLineEnd(s[0]) then "" else [s[0]]) + WithoutEnds(s[1..])
  }

  /** A plain field holds no comma and does not start with a quote; it is read trimmed. */
  ghost predicate PlainField(raw: string, field: string) {
    && ',' !in raw && field == Trim(WithoutEnds(raw))
    && (WithoutEnds(raw) != "" ==> WithoutEnds(raw)[0] != '"')
  }

  /**
   * A quoted field is a text with every quote doubled, between quotes. Line ends before it are dropped; blanks after it
   * belong to the field, and nothing else may follow.
   */
  ghost predicate QuotedField(raw: string, field: string) {
    exists ends: string, v: string, tail: string ::
      && raw == ends + "\"" + Doubled(v) + "\"" + tail && field == v + tail
      && (forall c | c in ends :: IsLineEnd(c)) && forall c | c in tail :: c == ' ' || c == '\t'
  }

  ghost predicate ReadsAs(raw: string, field: string) {
    PlainField(raw, field) || QuotedField(raw, field)
  }

  function Commas(raws: seq<string>): string {
    if raws == [] then "" else if |raws| == 1 then raws[0] else raws[0] + "," + Commas(raws[1..])
  }

  /** A line is such fields with commas between them. */
  ghost predicate Holds(line: string, raws: seq<string>, fields: seq<string>) {
    && raws != [] && |raws| == |fields| && line == Commas(raws)
    && forall i | 0 <= i < |raws| :: ReadsAs(raws[i], fields[i])
  }

  /** What the reader goes on with after a field. */
  function AfterField(rest: string, done: seq<string>): Result<seq<string>>
    requires rest == "" || rest[0] == ','
  {
    if rest == "" then Ok(done) else Run(rest[1..], false, false, None, done)
  }

  // ---- such lines are read ----

  lemma {:induction false} RunPlainRaw(raw: string, rest: string, b: Buffer, done: seq<string>)
    requires ',' !in raw && (b.Some? || WithoutEnds(raw) == "" || WithoutEnds(raw)[0] != '"')
    ensures Run(raw + rest, false, false, b, done) == Run(rest, false, false, Cat(b, WithoutEnds(raw)), done)
  {
    if raw == "" {
      assert raw + rest == rest;
    } else {
      assert (raw + rest)[0] == raw[0] && (raw + rest)[1..] == raw[1..] + rest && raw[0] in raw;
      if IsLineEnd(raw[0]) {
        assert WithoutEnds(raw) == WithoutEnds(raw[1..]);
        RunPlainRaw(raw[1..], rest, b, done);
      } else {
        RunPlainRaw(raw[1..], rest, Cat(b, [raw[0]]), done);
        CatTwice(b, raw[0], WithoutEnds(raw[1..]));
      }
    }
  }

  lemma {:induction false} SkipEnds(ends: string, rest: string, done: seq<string>)
    requires forall c | c in ends :: IsLineEnd(c)
    ensures Run(ends + rest, false, false, None, done) == Run(rest, false, false, None, done)
  {
    if ends == "" {
      assert ends + rest == rest;
    } else {
      assert (ends + rest)[0] == ends[0] && (ends + rest)[1..] == ends[1..] + rest && ends[0] in ends;
      SkipEnds(ends[1..], rest, done);
    }
  }

  lemma {:induction false} RunTail(tail: string, rest: string, b: Buffer, done: seq<string>)
    requires (forall c | c in tail :: c == ' ' || c == '\t') && (rest == "" || rest[0] == ',')
    ensures Run(tail + rest, false, true, b, done) == AfterField(rest, done + [Collected(b) + tail])
  {
    if tail == "" {
      assert tail + rest == rest && Collected(b) + tail == Collected(b);
    } else {
      assert (tail + rest)[0] == tail[0] && (tail + rest)[1..] == tail[1..] + rest && tail[0] in tail;
      assert forall c | c in tail[1..] :: c in tail;
      RunTail(tail[1..], rest, Cat(b, [tail[0]]), done);
      assert Collected(b) + [tail[0]] + tail[1..] == Collected(b) + tail;
    }
  }

  lemma ReadQuotedField(raw: string, field: string, rest: string, done: seq<string>)
    requires QuotedField(raw, field) && (rest == "" || rest[0] == ',')
    ensures Run(raw + rest, false, false, None, done) == AfterField(rest, done + [field])
  {
    var ends: string, v: string, tail: string :|
      && raw == ends + "\"" + Doubled(v) + "\"" + tail && field == v + tail
      && (forall c | c in ends :: IsLineEnd(c)) && forall c | c in tail :: c == ' ' || c == '\t';
    hide Doubled, AfterField, Run;
    var inner := Doubled(v) + "\"" + (tail + rest);
    Regroup(ends, Doubled(v), tail, rest);
    SkipEnds(ends, "\"" + inner, done);
    assert ("\"" + inner)[0] == '"' && ("\"" + inner)[1..] == inner;
    OpensQuote("\"" + inner, done);
    TailStart(tail, rest);
    RunQuoted(v, tail + rest, false, None, done);
    RunTail(tail, rest, Cat(None, v), done);
    CollectedAlone(v);
  }

  lemma TailStart(tail: string, rest: string)
    requires (forall c | c in tail :: c == ' ' || c == '\t') && (rest == "" || rest[0] == ',')
    ensures tail + rest == "" || (tail + rest)[0] != '"'
  {
    if tail == "" {
      assert tail + rest == rest;
    } else {
      assert tail[0] in tail && (tail + rest)[0] == tail[0];
    }
  }

  lemma ReadField(raw: string, field: string, rest: string, done: seq<string>)
    requires ReadsAs(raw, field) && (rest == "" || rest[0] == ',')
    ensures Run(raw + rest, false, false, None, done) == AfterField(rest, done + [field])
  {
    if PlainField(raw, field) {
      RunPlainRaw(raw, rest, None, done);
      assert "" + WithoutEnds(raw) == WithoutEnds(raw);
    } else {
      ReadQuotedField(raw, field, rest, done);
    }
  }

  lemma {:induction false} ReadAll(raws: seq<string>, fields: seq<string>, done: seq<string>)
    requires raws != [] && |raws| == |fields| && forall i | 0 <= i < |raws| :: ReadsAs(raws[i], fields[i])
    ensures Run(Commas(raws), false, false, None, done) == Ok(done + fields)
  {
    hide Run, ReadsAs;
    var rest := if |raws| == 1 then "" else "," + Commas(raws[1..]);
    assert Commas(raws) == raws[0] + rest;
    ReadField(raws[0], fields[0], rest, done);
    if |raws| == 1 {
      assert fields == [fields[0]];
    } else {
      assert rest[1..] == Commas(raws[1..]);
      ReadAll(raws[1..], fields[1..], done + [fields[0]]);
      assert done + [fields[0]] + fields[1..] == done + fields;
    }
  }

  // ---- and no others ----

  /** What was read up to the end of a plain field. */
  lemma {:induction false} PlainRead(s: string, b: Buffer, done: seq<string>) returns (raw: string, rest: string)
    requires Run(s, false, false, b, done).Ok? && (b.Some? || s == "" || s[0] != '"')
    requires b.None? ==> s == "" || !IsLineEnd(s[0])
    ensures s == raw + rest && ',' !in raw && (rest == "" || rest[0] == ',')
    ensures b.None? && WithoutEnds(raw) != "" ==> WithoutEnds(raw)[0] != '"'
    ensures Run(s, false, false, b, done) == AfterField(rest, done + [Trim(Collected(Cat(b, WithoutEnds(raw))))])
    decreases |s|
  {
    if s == "" || s[0] == ',' {
      raw, rest := "", s;
    } else {
      var c, b' := s[0], if IsLineEnd(s[0]) then b else Cat(b, [s[0]]);
      var r;
      r, rest := PlainRead(s[1..], b', done);
      raw := [c] + r;
      assert s == [c] + s[1..] && raw[1..] == r;
      if IsLineEnd(c) {
        assert WithoutEnds(raw) == WithoutEnds(r);
      } else {
        CatTwice(b, c, WithoutEnds(r));
      }
    }
  }

  lemma NothingDoubled(s: string)
    requires s != "" && s[0] == '"'
    ensures s == Doubled("") + "\"" + s[1..]
    ensures forall b: Buffer :: Cat(b, "") == b
  {
  }

  lemma QuotedGrows(s: string, n: nat, c: char, w: string, rest: string)
    requires n <= |s| && s[..n] == (if c == '"' then "\"\"" else [c]) && s[n..] == Doubled(w) + "\"" + rest
    ensures s == Doubled([c] + w) + "\"" + rest
  {
    assert ([c] + w)[1..] == w && s == s[..n] + s[n..];
    assert Doubled([c] + w) == s[..n] + Doubled(w);
    hide Doubled;
    assert s[..n] + (Doubled(w) + "\"" + rest) == s[..n] + Doubled(w) + "\"" + rest;
  }

  /** What was read between quotes. */
  lemma {:induction false} QuotedRead(s: string, closed: bool, b: Buffer, done: seq<string>)
    returns (v: string, rest: string)
    requires Run(s, true, closed, b, done).Ok?
    ensures s == Doubled(v) + "\"" + rest && (rest == "" || rest[0] != '"')
    ensures Run(s, true, closed, b, done) == Run(rest, false, true, Cat(b, v), done)
    decreases |s|
  {
    hide Doubled;
    if s[0] != '"' || (|s| > 1 && s[1] == '"') {
      var n, c := if s[0] == '"' then 2 else 1, s[0];
      var w;
      w, rest := QuotedRead(s[n..], closed, Cat(b, [c]), done);
      v := [c] + w;
      QuotedGrows(s, n, c, w, rest);
      CatTwice(b, c, w);
    } else {
      v, rest := "", s[1..];
      NothingDoubled(s);
    }
  }

  /** What was read after the closing quote. */
  lemma {:induction false} TailRead(s: string, b: Buffer, done: seq<string>) returns (tail: string, rest: string)
    requires Run(s, false, true, b, done).Ok? && (b.None? ==> s == "" || s[0] != '"')
    ensures s == tail + rest && (forall c | c in tail :: c == ' ' || c == '\t') && (rest == "" || rest[0] == ',')
    ensures Run(s, false, true, b, done) == AfterField(rest, done + [Collected(b) + tail])
    decreases |s|
  {
    if s == "" || s[0] == ',' {
      tail, rest := "", s;
      assert Collected(b) + tail == Collected(b);
    } else {
      var r;
      r, rest := TailRead(s[1..], Cat(b, [s[0]]), done);
      tail := [s[0]] + r;
      assert s == [s[0]] + s[1..];
      assert Collected(b) + [s[0]] + r == Collected(b) + tail;
    }
  }

  /** The line ends in front of a field. */
  lemma {:induction false} EndsRead(s: string, done: seq<string>) returns (ends: string, rest: string)
    ensures s == ends + rest && (forall c | c in ends :: IsLineEnd(c)) && (rest == "" || !IsLineEnd(rest[0]))
    ensures Run(s, false, false, None, done) == Run(rest, false, false, None, done)
    decreases |s|
  {
    if s != "" && IsLineEnd(s[0]) {
      var e;
      e, rest := EndsRead(s[1..], done);
      ends := [s[0]] + e;
      assert s == [s[0]] + s[1..];
    } else {
      ends, rest := "", s;
    }
  }

  lemma {:induction false} EndsDropped(ends: string, raw: string)
    requires forall c | c in ends :: IsLineEnd(c)
    ensures WithoutEnds(ends + raw) == WithoutEnds(raw)
  {
    if ends == "" {
      assert ends + raw == raw;
    } else {
      assert (ends + raw)[0] == ends[0] && (ends + raw)[1..] == ends[1..] + raw && ends[0] in ends;
      EndsDropped(ends[1..], raw);
    }
  }

  /** The first field of what was read. */
  lemma FieldRead(s: string, done: seq<string>) returns (raw: string, field: string, rest: string)
    requires Run(s, false, false, None, done).Ok?
    ensures s == raw + rest && ReadsAs(raw, field) && (rest == "" || rest[0] == ',')
    ensures Run(s, false, false, None, done) == AfterField(rest, done + [field])
  {
    hide Run, ReadsAs;
    var ends, first := EndsRead(s, done);
    if first != "" && first[0] == '"' {
      raw, field, rest := QuotedFieldRead(s, ends, first, done);
    } else {
      raw, field, rest := PlainFieldRead(s, ends, first, done);
    }
  }

  lemma PlainFieldRead(s: string, ends: string, first: string, done: seq<string>)
    returns (raw: string, field: string, rest: string)
    requires s == ends + first && (forall c | c in ends :: IsLineEnd(c))
    requires first == "" || (first[0] != '"' && !IsLineEnd(first[0]))
    requires Run(s, false, false, None, done) == Run(first, false, false, None, done)
    requires Run(first, false, false, None, done).Ok?
    ensures s == raw + rest && ReadsAs(raw, field) && (rest == "" || rest[0] == ',')
    ensures Run(s, false, false, None, done) == AfterField(rest, done + [field])
  {
    hide Run, AfterField, WithoutEnds, Trim, ReadsAs;
    var r;
    r, rest := PlainRead(first, None, done);
    raw, field := ends + r, Trim(WithoutEnds(r));
    CollectedAlone(WithoutEnds(r));
    EndsBefore(ends, r);
    assert ends + (r + rest) == raw + rest;
  }

  lemma CollectedAlone(text: string)
    ensures Collected(Cat(None, text)) == text
  {
    assert "" + text == text;
  }

  lemma EndsBefore(ends: string, r: string)
    requires (forall c | c in ends :: IsLineEnd(c)) && ',' !in r
    requires WithoutEnds(r) != "" ==> WithoutEnds(r)[0] != '"'
    ensures ReadsAs(ends + r, Trim(WithoutEnds(r)))
  {
    hide QuotedField, Trim;
    EndsDropped(ends, r);
    assert ',' !in ends;
  }

  lemma QuotedFieldRead(s: string, ends: string, first: string, done: seq<string>)
    returns (raw: string, field: string, rest: string)
    requires s == ends + first && (forall c | c in ends :: IsLineEnd(c)) && first != "" && first[0] == '"'
    requires Run(s, false, false, None, done) == Run(first, false, false, None, done)
    requires Run(first, false, false, None, done).Ok?
    ensures s == raw + rest && ReadsAs(raw, field) && (rest == "" || rest[0] == ',')
    ensures Run(s, false, false, None, done) == AfterField(rest, done + [field])
  {
    OpensQuote(first, done);
    hide Run, Doubled, AfterField, ReadsAs;
    var v, after := QuotedRead(first[1..], false, None, done);
    var tail;
    tail, rest := TailRead(after, Cat(None, v), done);
    raw, field := ends + "\"" + Doubled(v) + "\"" + tail, v + tail;
    CollectedAlone(v);
    QuotedIs(ends, v, tail);
    assert first == "\"" + first[1..];
    Regroup(ends, Doubled(v), tail, rest);
  }

  lemma OpensQuote(s: string, done: seq<string>)
    requires s != "" && s[0] == '"'
    ensures Run(s, false, false, None, done) == Run(s[1..], true, false, None, done)
  {
  }

  lemma QuotedIs(ends: string, v: string, tail: string)
    requires (forall c | c in ends :: IsLineEnd(c)) && forall c | c in tail :: c == ' ' || c == '\t'
    ensures ReadsAs(ends + "\"" + Doubled(v) + "\"" + tail, v + tail)
  {
    hide PlainField, Doubled;
  }

  lemma Regroup(ends: string, inner: string, tail: string, rest: string)
    ensures ends + ("\"" + (inner + "\"" + (tail + rest))) == ends + "\"" + inner + "\"" + tail + rest
  {
  }

  lemma {:induction false} AllRead(s: string, done: seq<string>, fields: seq<string>) returns (raws: seq<string>)
    requires Run(s, false, false, None, done) == Ok(fields) && |done| <= |fields|
    ensures done <= fields && Holds(s, raws, fields[|done|..])
    decreases |s|
  {
    hide Run, ReadsAs;
    var raw, field, rest := FieldRead(s, done);
    if rest == "" {
      raws := [raw];
      assert fields == done + [field] && fields[|done|..] == [field];
    } else {
      LongerFields(rest[1..], done + [field], fields);
      var more := AllRead(rest[1..], done + [field], fields);
      raws := [raw] + more;
      assert raws[1..] == more && rest == "," + rest[1..];
      assert Commas(raws) == raw + "," + Commas(more) == raw + rest;
      assert fields[|done|..] == [field] + fields[|done| + 1..];
      assert done <= done + [field] <= fields && fields[|done|] == field;
    }
  }

  /** Reading only adds fields. */
  lemma {:induction false} LongerFields(s: string, done: seq<string>, fields: seq<string>)
    requires Run(s, false, false, None, done) == Ok(fields)
    ensures |done| <= |fields|
    decreases |s|
  {
    var raw, field, rest := FieldRead(s, done);
    hide Run;
    if rest != "" {
      LongerFields(rest[1..], done + [field], fields);
    }
  }

  /**
   * The reader accepts exactly the lines that are fields with commas between them, each plain or quoted, and gives the
   * fields; every other line is refused.
   */
  lemma ParseExactly(line: string, fields: seq<string>)
    ensures Parse(line) == Ok(fields) <==> exists raws: seq<string> :: Holds(line, raws, fields)
  {
    hide Run, ReadsAs;
    if Parse(line) == Ok(fields) {
      var raws := AllRead(line, [], fields);
      assert fields[0..] == fields;
    }
    if exists raws: seq<string> :: Holds(line, raws, fields) {
      var raws: seq<string> :| Holds(line, raws, fields);
      ReadAll(raws, fields, []);
      assert [] + fields == fields;
    }
  }
}
