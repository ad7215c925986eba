/** The bodies the extractor accepts: exactly the spellings of flat objects, and nothing after them. */
module JsonObjects {
  import opened Wrappers
  import opened Json

  lemma {:induction false} GapBefore(s: string) returns (gap: string)
    ensures s == gap + SkipWs(s) && Blank(gap)
  {
    gap := "";
    if s != "" && IsJsonSpace(s[0]) {
      var rest := GapBefore(s[1..]);
      gap := [s[0]] + rest;
      assert s == [s[0]] + s[1..];
    } else {
      assert s == "" + s;
    }
  }

  lemma {:induction false} NumberBefore(s: string) returns (word: string)
    ensures s == word + SkipNumber(s) && forall c | c in word :: IsNumberChar(c)
  {
    word := "";
    if s != "" && IsNumberChar(s[0]) {
      var rest := NumberBefore(s[1..]);
      word := [s[0]] + rest;
      assert s == [s[0]] + s[1..];
    } else {
      assert s == "" + s;
    }
  }

  lemma StringBefore(s: string) returns (raw: string)
    requires ParseString(s).Some?
    ensures Spelled(raw, ParseString(s).value.0) && s == InQuotes(raw) + ParseString(s).value.1
  {
    hide Spelled, StringBody;
    StringExactly(s, ParseString(s).value.0, ParseString(s).value.1);
    raw :| Spelled(raw, ParseString(s).value.0) && s == "\"" + raw + "\"" + ParseString(s).value.1;
  }

  /** What was passed over was a value. */
  lemma ValueBefore(s: string) returns (v: Value)
    requires SkipWs(s) == s && SkipValue(s).Some?
    ensures ValueOk(v) && s == RenderValue(v) + SkipValue(s).value
  {
    hide Spelled, StringBody, SkipWs, SkipNumber, ParseString;
    if s != "" && s[0] == '"' {
      var raw := StringBefore(s);
      v := Text(raw, ParseString(s).value.0);
    } else if StartsWith(s, "null") || StartsWith(s, "true") {
      v := Bare(s[..4]);
      assert s == s[..4] + s[4..];
    } else if StartsWith(s, "false") {
      v := Bare(s[..5]);
      assert s == s[..5] + s[5..];
    } else {
      var word := NumberBefore(s);
      v := Bare(word);
    }
  }

  /** What one member leaves of the result. */
  function FoundAfter(m: Member, found: Option<string>): Option<string> {
    if m.key == "sql" && m.value.Text? then Some(m.value.text) else found
  }

  /** What was read as a member was one. */
  lemma MemberBefore(s: string, found: Option<string>) returns (m: Member)
    requires Field(s, found).Some?
    ensures MemberOk(m) && m.beforeKey == "" && !(m.key == "sql" && m.value.Bare?)
    ensures s == RenderMember(m) + SkipWs(Field(s, found).value.1)
    ensures Field(s, found).value.0 == FoundAfter(m, found)
  {
    hide Spelled, SkipWs, ParseString, SkipValue, Blank, InQuotes, RenderValue;
    var (key, afterKey) := ParseString(s).value;
    var raw := StringBefore(s);
    var gap1 := GapBefore(afterKey);
    var colon := SkipWs(afterKey);
    var gap2 := GapBefore(colon[1..]);
    var input := SkipWs(colon[1..]);
    SkipTwice(colon[1..]);
    var v;
    if key == "sql" {
      var inner := StringBefore(input);
      v := Text(inner, ParseString(input).value.0);
      TextRendered(v);
    } else {
      v := ValueBefore(input);
    }
    var end := Field(s, found).value.1;
    var gap3 := GapBefore(end);
    m := Member(key, raw, v, "", gap1, gap2, gap3);
    NoGap();
    assert input == RenderValue(v) + end;
    assert colon == ":" + colon[1..];
    MemberSpelled(m, SkipWs(end));
  }

  lemma SkipTwice(s: string)
    ensures SkipWs(SkipWs(s)) == SkipWs(s)
  {
  }

  lemma NoGap()
    ensures Blank("")
  {
  }

  lemma TextRendered(v: Value)
    requires v.Text?
    ensures RenderValue(v) == InQuotes(v.raw)
  {
  }

  lemma MemberSpelled(m: Member, rest: string)
    ensures RenderMember(m) + rest
         == InQuotes(m.raw) + (m.afterKey + (":" + (m.beforeValue + (RenderValue(m.value) + (m.afterValue + rest)))))
  {
    hide InQuotes, RenderValue;
  }

  /** The members and the end that a text after an opening brace or a comma spells. */
  ghost predicate Spells(s: string, ms: seq<Member>, comma: bool, blank: string, trail: string) {
    && (forall m | m in ms :: MemberOk(m)) && Blank(blank) && Blank(trail) && (comma ==> ms != [])
    && s == RenderMembers(ms) + Closing(comma, blank, trail)
  }

  /** What was read as the rest of an object was one. */
  lemma {:induction false} MembersBefore(s: string, found: Option<string>)
    returns (ms: seq<Member>, comma: bool, blank: string, trail: string)
    requires Fields(s, found) != Malformed
    ensures Spells(s, ms, comma, blank, trail) && Verdict(ms, found) == Fields(s, found)
    decreases |s|
  {
    hide SkipWs, Field, Blank, MemberOk, Spells;
    var gap := GapBefore(s);
    var start := SkipWs(s);
    if start != "" && start[0] == '}' {
      trail := EndBefore(start[1..], found);
      ms, comma, blank := [], false, gap;
      ClosesHere(s, gap, start, trail);
    } else {
      var m := MemberBefore(start, found);
      var next := SkipWs(Field(start, found).value.1);
      m := m.(beforeKey := gap);
      var found' := FoundAfter(m, found);
      GapIn(m, start, next);
      if next[0] == '}' {
        trail := EndBefore(next[1..], found');
        ms, comma, blank := [m], false, "";
        NoGap();
        LastMember(s, m, next, trail);
      } else {
        var more;
        more, comma, blank, trail := MembersBefore(next[1..], found');
        ms := [m] + more;
        if more == [] {
          LastComma(s, m, next, comma, blank, trail);
          comma := true;
          assert ms == [m];
        } else {
          OneMoreMember(s, m, more, next, comma, blank, trail);
        }
      }
      VerdictStep(m, ms, found);
    }
  }

  lemma EndBefore(s: string, found: Option<string>) returns (trail: string)
    requires Finish(s, found) != Malformed
    ensures trail == s && Blank(trail) && Finish(s, found) == Verdict([], found)
  {
    trail := GapBefore(s);
    assert trail + "" == trail;
  }

  lemma ClosesHere(s: string, gap: string, start: string, trail: string)
    requires s == gap + start && Blank(gap) && Blank(trail) && start != "" && start[0] == '}' && start[1..] == trail
    ensures Spells(s, [], false, gap, trail)
  {
    assert start == "}" + trail;
    assert RenderMembers([]) + Closing(false, gap, trail) == gap + ("}" + trail);
  }

  /** White space in front of a member belongs to it. */
  lemma GapIn(m: Member, start: string, next: string)
    requires Blank(m.beforeKey) && MemberOk(m.(beforeKey := "")) && start == RenderMember(m.(beforeKey := "")) + next
    ensures MemberOk(m) && m.beforeKey + start == RenderMembers([m]) + next
  {
    hide InQuotes, RenderValue, Blank, Spelled, ValueOk;
    assert RenderMember(m) == RenderMember(m.(beforeKey := ""));
    hide RenderMember;
    assert RenderMembers([m]) == m.beforeKey + RenderMember(m);
  }

  lemma LastMember(s: string, m: Member, next: string, trail: string)
    requires MemberOk(m) && s == RenderMembers([m]) + next && Blank("") && Blank(trail)
    requires next != "" && next[0] == '}' && next[1..] == trail
    ensures Spells(s, [m], false, "", trail)
  {
    hide MemberOk, RenderMembers;
    assert next == "}" + trail && Closing(false, "", trail) == next;
  }

  lemma LastComma(s: string, m: Member, next: string, comma: bool, blank: string, trail: string)
    requires MemberOk(m) && s == RenderMembers([m]) + next && next != "" && next[0] == ','
    requires Spells(next[1..], [], comma, blank, trail)
    ensures Spells(s, [m], true, blank, trail)
  {
    hide MemberOk, Blank;
    assert RenderMembers([]) == "" && !comma;
    hide RenderMembers;
    assert next == "," + next[1..] && next[1..] == Closing(false, blank, trail);
    assert Closing(true, blank, trail) == "," + Closing(false, blank, trail);
  }

  lemma OneMoreMember(s: string, m: Member, more: seq<Member>, next: string, comma: bool, blank: string, trail: string)
    requires MemberOk(m) && s == RenderMembers([m]) + next && next != "" && next[0] == ',' && more != []
    requires Spells(next[1..], more, comma, blank, trail)
    ensures Spells(s, [m] + more, comma, blank, trail)
  {
    hide MemberOk, Blank, RenderMember, Closing;
    var ms := [m] + more;
    assert ms[1..] == more && next == "," + next[1..];
    assert RenderMembers(ms) == RenderMembers([m]) + ("," + RenderMembers(more));
    assert s == RenderMembers(ms) + Closing(comma, blank, trail);
  }

  lemma VerdictStep(m: Member, ms: seq<Member>, found: Option<string>)
    requires ms != [] && ms[0] == m && !(m.key == "sql" && m.value.Bare?)
    ensures Verdict(ms, found) == Verdict(ms[1..], FoundAfter(m, found))
  {
  }

  /** A body is an object, spelled with these members, with nothing but white space around it. */
  ghost predicate IsObject(body: string, ms: seq<Member>) {
    exists lead: string, comma: bool, blank: string, trail: string ::
      && (forall m | m in ms :: MemberOk(m)) && Blank(lead) && Blank(blank) && Blank(trail) && (comma ==> ms != [])
      && body == RenderObject(lead, ms, comma, blank, trail)
  }

  lemma ObjectBefore(body: string) returns (ms: seq<Member>)
    requires Extract(body) != Malformed
    ensures IsObject(body, ms) && Verdict(ms, None) == Extract(body)
  {
    hide Fields, SkipWs, Blank, MemberOk;
    var lead := GapBefore(body);
    var start := SkipWs(body);
    var comma, blank, trail;
    ms, comma, blank, trail := MembersBefore(start[1..], None);
    assert start == "{" + start[1..];
    assert body == RenderObject(lead, ms, comma, blank, trail);
  }

  /**
   * The extractor accepts exactly the bodies that are such an object with no `sql` value that is not a string, and then
   * gives the last `sql` text, or reports that there is none. Every other body is refused.
   */
  lemma ExtractExactly(body: string, v: Extracted)
    requires v != Malformed
    ensures Extract(body) == v <==> exists ms: seq<Member> :: IsObject(body, ms) && Verdict(ms, None) == v
  {
    hide Extract, IsObject;
    if Extract(body) == v {
      var ms := ObjectBefore(body);
    }
    if exists ms: seq<Member> :: IsObject(body, ms) && Verdict(ms, None) == v {
      var ms: seq<Member> :| IsObject(body, ms) && Verdict(ms, None) == v;
      ObjectExtracted(body, ms);
    }
  }

  lemma ObjectExtracted(body: string, ms: seq<Member>)
    requires IsObject(body, ms)
    ensures Extract(body) == Verdict(ms, None)
  {
    hide Extract, MemberOk, Blank, RenderObject;
    var lead: string, comma: bool, blank: string, trail: string :|
      && (forall m | m in ms :: MemberOk(m)) && Blank(lead) && Blank(blank) && Blank(trail) && (comma ==> ms != [])
      && body == RenderObject(lead, ms, comma, blank, trail);
    ObjectRoundTrip(ms, lead, comma, blank, trail);
  }
}
