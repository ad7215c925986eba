/** C-string helpers. A string has one char per byte; the terminating NUL is not part of it. */
module Text {
  predicate IsSpace(c: char) {
    c == ' ' || '\t' <= c <= '\r'
  }

  predicate IsDigit(c: char) {
    '0' <= c <= '9'
  }

  /** The digits in the order of their values. */
  const DIGITS := "0123456789"

  predicate NulFree(s: string) {
    '\0' !in s
  }

  /** The C string stored in a buffer: everything before the first NUL. */
  function CString(s: string): string {
    if s == "" || s[0] == '\0' then "" else [s[0]] + CString(s[1..])
  }

  function TrimLeft(s: string): string {
    if s != "" && IsSpace(s[0]) then TrimLeft(s[1..]) else s
  }

  function TrimRight(s: string): string {
    if s != "" && IsSpace(s[|s| - 1]) then TrimRight(s[..|s| - 1]) else s
  }

  function Trim(s: string): string {
    TrimRight(TrimLeft(s))
  }

  predicate IsLineEnd(c: char) {
    c == '\n' || c == '\r'
  }

  /** Drops all trailing line-end characters. */
  function Strip(s: string): string {
    if s != "" && IsLineEnd(s[|s| - 1]) then Strip(s[..|s| - 1]) else s
  }

  lemma {:induction false} CStringOfClean(s: string)
    requires NulFree(s)
    ensures CString(s) == s
  {
    if s != "" {
      CStringOfClean(s[1..]);
    }
  }

  /** A NUL cuts off whatever follows; without one the rest is read as well. */
  lemma FirstApart(a: string, r: string)
    requires a != ""
    ensures [a[0]] + (a[1..] + r) == a + r && (a + r)[0] == a[0] && (a + r)[1..] == a[1..] + r
    ensures NulFree(a) <==> a[0] != '\0' && NulFree(a[1..])
  {
    assert a == [a[0]] + a[1..];
  }

  lemma {:induction false} CStringConcat(a: string, b: string)
    ensures CString(a + b) == if NulFree(a) then a + CString(b) else CString(a)
  {
    hide NulFree;
    if a == "" {
      assert a + b == b && NulFree(a) by {
        NoNul();
      }
      assert a + CString(b) == CString(b);
    } else {
      FirstApart(a, b);
      FirstApart(a, CString(b));
      if a[0] != '\0' {
        CStringConcat(a[1..], b);
      }
    }
  }

  lemma NoNul()
    ensures NulFree("")
  {
  }

  /** Exactly the line ends at the end are dropped. */
  lemma {:induction false} StripShape(s: string)
    ensures |Strip(s)| <= |s| && Strip(s) == s[..|Strip(s)|]
    ensures Strip(s) != "" ==> !IsLineEnd(s[|Strip(s)| - 1])
    ensures forall i | |Strip(s)| <= i < |s| :: IsLineEnd(s[i])
  {
    if s != "" && IsLineEnd(s[|s| - 1]) {
      StripShape(s[..|s| - 1]);
    } else {
      assert s[..|s|] == s;
    }
  }

  /** Exactly what comes before the first NUL is kept. */
  lemma {:induction false} CStringShape(s: string)
    ensures |CString(s)| <= |s| && CString(s) == s[..|CString(s)|] && NulFree(CString(s))
    ensures |CString(s)| < |s| ==> s[|CString(s)|] == '\0'
  {
    if s != "" && s[0] != '\0' {
      CStringShape(s[1..]);
      assert s[..|CString(s)|] == [s[0]] + s[1..][..|CString(s)| - 1];
    }
  }

  lemma {:induction false} StripKeeps(s: string)
    requires s == "" || !IsLineEnd(s[|s| - 1])
    ensures Strip(s) == s
  {
  }

  lemma {:induction false} StripLineEnd(s: string, c: char)
    requires IsLineEnd(c)
    ensures Strip(s + [c]) == Strip(s)
  {
  }

  /** A line with any other character does not strip to nothing. */
  lemma {:induction false} StripNonBlank(s: string, i: nat)
    requires i < |s| && !IsLineEnd(s[i])
    ensures Strip(s) != ""
  {
    if IsLineEnd(s[|s| - 1]) {
      StripNonBlank(s[..|s| - 1], i);
    }
  }

  /** Trimming removes exactly the outer white space. */
  lemma {:induction false} TrimShape(s: string)
    ensures exists i, j :: 0 <= i <= j <= |s| && Trim(s) == s[i..j]
              && (forall k | 0 <= k < i || j <= k < |s| :: IsSpace(s[k]))
              && (i < j ==> !IsSpace(s[i]) && !IsSpace(s[j - 1]))
  {
    var i := LeftEdge(s);
    var t := s[i..];
    var j := RightEdge(t);
    assert Trim(s) == t[..j] == s[i..i + j];
    assert forall k | i + j <= k < |s| :: s[k] == t[k - i];
  }

  lemma {:induction false} LeftEdge(s: string) returns (i: nat)
    ensures i <= |s| && TrimLeft(s) == s[i..] && (forall k | 0 <= k < i :: IsSpace(s[k]))
    ensures (i < |s| ==> !IsSpace(s[i]))
  {
    i := 0;
    if s != "" && IsSpace(s[0]) {
      i := LeftEdge(s[1..]);
      i := i + 1;
    }
  }

  lemma {:induction false} RightEdge(s: string) returns (j: nat)
    ensures j <= |s| && TrimRight(s) == s[..j] && (forall k | j <= k < |s| :: IsSpace(s[k]))
    ensures (j > 0 ==> !IsSpace(s[j - 1]))
  {
    j := |s|;
    if s != "" && IsSpace(s[|s| - 1]) {
      j := RightEdge(s[..|s| - 1]);
    }
  }

  // ---- the helpers that work in the caller's buffer ----

  /** A buffer that holds a C string. */
  ghost predicate HasEnd(buffer: seq<char>) {
    '\0' in buffer
  }

  lemma {:induction false} CStringEnds(buffer: seq<char>)
    requires HasEnd(buffer)
    ensures var n := |CString(buffer)|;
            n < |buffer| && buffer[n] == '\0' && buffer[..n] == CString(buffer) && NulFree(CString(buffer))
  {
    if buffer[0] != '\0' {
      CStringEnds(buffer[1..]);
      assert buffer == [buffer[0]] + buffer[1..];
    }
  }

  /** Text up to a NUL is the string the buffer holds. */
  lemma CStringIs(buffer: seq<char>, n: nat)
    requires n < |buffer| && buffer[n] == '\0' && NulFree(buffer[..n])
    ensures CString(buffer) == buffer[..n]
  {
    CStringConcat(buffer[..n], buffer[n..]);
    assert buffer == buffer[..n] + buffer[n..];
    assert buffer[..n] + CString(buffer[n..]) == buffer[..n];
  }

  method StringLength(text: array<char>) returns (length: nat)
    requires HasEnd(text[..])
    ensures length == |CString(text[..])| && length < text.Length
  {
    CStringEnds(text[..]);
    length := 0;
    while text[length] != '\0'
      invariant length <= |CString(text[..])|
      decreases text.Length - length
    {
      assert text[length] == text[..][length] == CString(text[..])[length];
      length := length + 1;
    }
  }

  method StripLineEndings(text: array<char>)
    requires HasEnd(text[..])
    modifies text
    ensures HasEnd(text[..]) && CString(text[..]) == Strip(old(CString(text[..])))
  {
    hide CString, Strip;
    ghost var was := CString(text[..]);
    CStringEnds(text[..]);
    var length := StringLength(text);
    assert was[..length] == was;
    while length > 0 && IsLineEnd(text[length - 1])
      invariant length <= |was| < text.Length && text[length] == '\0' && text[..length] == was[..length]
      invariant Strip(was[..length]) == Strip(was)
    {
      StripLineEnd(was[..length - 1], was[length - 1]);
      assert was[..length - 1] + [was[length - 1]] == was[..length];
      text[length - 1] := '\0';
      length := length - 1;
    }
    StripKeeps(was[..length]);
    CStringIs(text[..], length);
    assert text[..][length] == '\0';
  }

  lemma TrimRightStep(s: string)
    ensures TrimRight(s) == if s != "" && IsSpace(s[|s| - 1]) then TrimRight(s[..|s| - 1]) else s
  {
  }

  method SkipLeft(text: array<char>) returns (start: nat)
    requires HasEnd(text[..])
    ensures var s := CString(text[..]); start <= |s| && TrimLeft(s) == s[start..]
  {
    hide CString;
    ghost var s := CString(text[..]);
    CStringEnds(text[..]);
    start := 0;
    while text[start] != '\0' && IsSpace(text[start])
      invariant start <= |s| && TrimLeft(s[start..]) == TrimLeft(s)
      decreases text.Length - start
    {
      assert text[start] == text[..][start];
      assert text[..][..|s|] == s && start < |s| && s[start] == text[start];
      assert s[start..][1..] == s[start + 1..];
      start := start + 1;
    }
    assert start < |s| ==> s[start] == text[..][..|s|][start];
  }

  /** Returns where the trimmed text starts and ends it in place. */
  method TrimWhitespace(text: array<char>) returns (start: nat)
    requires HasEnd(text[..])
    modifies text
    ensures start < text.Length && HasEnd(text[start..])
    ensures CString(text[start..]) == Trim(old(CString(text[..])))
  {
    hide CString, TrimLeft, TrimRight;
    ghost var was := CString(text[..]);
    CStringEnds(text[..]);
    start := SkipLeft(text);
    var end := StringLength(text);
    ghost var left := was[start..];
    assert text[start..end] == left;
    while end > start && IsSpace(text[end - 1])
      invariant start <= end <= |was| && TrimRight(text[start..end]) == TrimRight(left) && text[start..end] <= left
      invariant text[..] == old(text[..])
    {
      TrimRightStep(text[start..end]);
      assert text[start..end][..end - start - 1] == text[start..end - 1];
      end := end - 1;
    }
    TrimRightStep(text[start..end]);
    ghost var trimmed := text[start..end];
    text[end] := '\0';
    assert text[start..][..end - start] == trimmed && text[start..][end - start] == '\0';
    CStringIs(text[start..], end - start);
  }
}
