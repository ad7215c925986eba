/** Decimal integers as the executor prints and parses them. */
module Numbers {
  import opened Wrappers
  import opened Text

  const INT_MAX := 2147483647

  function DigitValue(c: char): nat
    requires IsDigit(c)
  {
    c as int - '0' as int
  }

  function DigitsValue(s: string): (v: int)
    requires forall c | c in s :: IsDigit(c)
    ensures v >= 0
  {
    if s == "" then 0 else
      var last := s[|s| - 1];
      assert last in s;
      DigitsValue(s[..|s| - 1]) * 10 + DigitValue(last)
  }

  function NatText(n: int): (s: string)
    requires n >= 0
    ensures s != "" && forall c | c in s :: IsDigit(c)
  {
    (if n < 10 then "" else NatText(n / 10)) + [('0' as int + n % 10) as char]
  }

  /** The text of an id column: `%d`. */
  function IntText(n: int): string {
    if n < 0 then "-" + NatText(-n) else NatText(n)
  }

  /** Leading white space, an optional sign, digits up to the end, and a value in the range of `int`. */
  function ParseInt(text: string): Option<int> {
    var s := TrimLeft(text);
    var negative := s != "" && s[0] == '-';
    var digits := if s != "" && (s[0] == '-' || s[0] == '+') then s[1..] else s;
    if digits == "" || exists c | c in digits :: !IsDigit(c) then None
    else
      var value: int := if negative then -DigitsValue(digits) else DigitsValue(digits);
      if -INT_MAX - 1 <= value <= INT_MAX then Some(value) else None
  }

  lemma {:induction false} DigitsOfNatText(n: int)
    requires n >= 0
    ensures DigitsValue(NatText(n)) == n
  {
    var s := NatText(n);
    var last := [('0' as int + n % 10) as char];
    if n < 10 {
      assert s == last && DigitsValue(s[..0]) == 0;
    } else {
      DigitsOfNatText(n / 10);
      assert s[..|s| - 1] == NatText(n / 10);
    }
  }

  /** A printed id parses back to itself. */
  lemma IntRoundTrip(n: int)
    requires -INT_MAX - 1 <= n <= INT_MAX
    ensures ParseInt(IntText(n)) == Some(n)
  {
    hide NatText, DigitsValue, ParseInt;
    DigitsOfNatText(if n < 0 then -n else n);
    ParseDigits(NatText(if n < 0 then -n else n));
  }

  lemma ParseDigits(t: string)
    requires t != "" && forall c | c in t :: IsDigit(c)
    ensures DigitsValue(t) <= INT_MAX ==> ParseInt(t) == Some(DigitsValue(t))
    ensures DigitsValue(t) <= INT_MAX + 1 ==> ParseInt("-" + t) == Some(-DigitsValue(t))
  {
    hide DigitsValue;
    assert t[0] in t && IsDigit(t[0]);
    assert TrimLeft(t) == t && TrimLeft("-" + t) == "-" + t && ("-" + t)[1..] == t;
  }

  // ---- every text, and place values ----

  /** A further digit multiplies by ten, in printing and in parsing. */
  lemma DigitsByPlace(n: int, d: nat)
    requires n >= 0 && d < 10
    ensures NatText(d) == [DIGITS[d]]
    ensures n > 0 ==> NatText(10 * n + d) == NatText(n) + [DIGITS[d]]
  {
    DigitChar(d);
    assert (10 * n + d) % 10 == d && (10 * n + d) / 10 == n;
  }

  lemma DigitChar(d: nat)
    requires d < 10
    ensures ('0' as int + d) as char == DIGITS[d]
  {
  }

  lemma ValueByPlace(s: string, d: nat)
    requires (forall c | c in s :: IsDigit(c)) && d < 10
    ensures (forall c | c in s + [DIGITS[d]] :: IsDigit(c)) && DigitsValue("") == 0
    ensures DigitsValue(s + [DIGITS[d]]) == 10 * DigitsValue(s) + d
  {
    DigitChar(d);
    assert (s + [DIGITS[d]])[..|s|] == s;
  }

  /** How a text spells a number: white space, a sign or none, and digits to the end. */
  ghost predicate SpelledAs(text: string, space: string, sign: string, digits: string) {
    && text == space + sign + digits && (forall c | c in space :: IsSpace(c))
    && (sign == "" || sign == "+" || sign == "-")
    && digits != "" && forall c | c in digits :: IsDigit(c)
  }

  lemma {:induction false} LeadingSpace(text: string) returns (space: string)
    ensures text == space + TrimLeft(text) && forall c | c in space :: IsSpace(c)
  {
    space := "";
    if text != "" && IsSpace(text[0]) {
      var rest := LeadingSpace(text[1..]);
      space := [text[0]] + rest;
      assert text == [text[0]] + text[1..];
    }
  }

  lemma {:induction false} SpaceTrimmed(space: string, rest: string)
    requires (forall c | c in space :: IsSpace(c)) && rest != "" && !IsSpace(rest[0])
    ensures TrimLeft(space + rest) == rest
  {
    if space == "" {
      assert space + rest == rest;
    } else {
      assert space[0] in space && (space + rest)[1..] == space[1..] + rest;
      SpaceTrimmed(space[1..], rest);
    }
  }

  /** The number so spelled. */
  ghost predicate Means(text: string, v: int) {
    exists space: string, sign: string, digits: string ::
      SpelledAs(text, space, sign, digits) && v == Signed(sign, digits)
  }

  ghost function Signed(sign: string, digits: string): int
    requires forall c | c in digits :: IsDigit(c)
  {
    if sign == "-" then -DigitsValue(digits) else DigitsValue(digits)
  }

  /**
   * A text is accepted as a number exactly if it is spelled so and the value is in the range of `int`; text before or
   * after, a second sign or no digits at all is refused.
   */
  lemma ParseExactly(text: string, v: int)
    ensures ParseInt(text) == Some(v) <==> -2147483648 <= v <= 2147483647 && Means(text, v)
  {
    hide DigitsValue, ParseInt;
    if ParseInt(text) == Some(v) {
      ParsedMeans(text, v);
    }
    if Means(text, v) {
      var space: string, sign: string, digits: string :|
        SpelledAs(text, space, sign, digits) && v == Signed(sign, digits);
      SpellingParsed(text, space, sign, digits);
    }
  }

  lemma ParsedMeans(text: string, v: int)
    requires ParseInt(text) == Some(v)
    ensures Means(text, v) && -2147483648 <= v <= 2147483647
  {
    hide DigitsValue;
    var space := LeadingSpace(text);
    var s := TrimLeft(text);
    var sign := if s[0] == '-' || s[0] == '+' then s[..1] else "";
    var digits := s[|sign|..];
    assert s == sign + digits && space + sign + digits == space + (sign + digits);
    assert SpelledAs(text, space, sign, digits);
    assert v == Signed(sign, digits);
  }

  lemma SpellingParsed(text: string, space: string, sign: string, digits: string)
    requires SpelledAs(text, space, sign, digits)
    ensures var v := Signed(sign, digits); ParseInt(text) == if -INT_MAX - 1 <= v <= INT_MAX then Some(v) else None
  {
    hide DigitsValue;
    var rest := sign + digits;
    assert digits[0] in digits && text == space + rest;
    assert rest[0] == (if sign == "" then digits[0] else sign[0]) && rest[|sign|..] == digits;
    SpaceTrimmed(space, rest);
  }
}
