/** Display width of UTF-8 text. A string has one char per byte; the byte after the last is the terminating NUL. */
module Utf8 {

  datatype Decoded = Decoded(codepoint: nat, bytes: nat)

  /** Reading is allowed up to the terminator and not beyond. */
  function ByteAt(s: string, i: nat): nat
    requires i <= |s|
  {
    if i < |s| then s[i] as nat else 0
  }

  predicate IsContinuation(b: nat) {
    0x80 <= b < 0xC0
  }

  /** The code point at the front and the bytes it takes; a malformed byte stands for itself. */
  function Decode(s: string): (d: Decoded)
    requires s != ""
    ensures 1 <= d.bytes <= |s| && d.bytes <= 4
  {
    var b := ByteAt(s, 0);
    if b < 0x80 then Decoded(b, 1)
    else if 0xC0 <= b < 0xE0 && IsContinuation(ByteAt(s, 1)) then
      Decoded((b - 0xC0) * 0x40 + (ByteAt(s, 1) - 0x80), 2)
    else if 0xE0 <= b < 0xF0 && IsContinuation(ByteAt(s, 1)) && IsContinuation(ByteAt(s, 2)) then
      Decoded((b - 0xE0) * 0x1000 + (ByteAt(s, 1) - 0x80) * 0x40 + (ByteAt(s, 2) - 0x80), 3)
    else if 0xF0 <= b < 0xF8 && IsContinuation(ByteAt(s, 1)) && IsContinuation(ByteAt(s, 2)) &&
      IsContinuation(ByteAt(s, 3)) then
      Decoded((b - 0xF0) * 0x40000 + (ByteAt(s, 1) - 0x80) * 0x1000 + (ByteAt(s, 2) - 0x80) * 0x40 +
        (ByteAt(s, 3) - 0x80), 4)
    else Decoded(b, 1)
  }

  /** The bits of a byte that a mask keeps. */
  function Masked(b: nat, mask: bv8): nat
    requires b < 0x100
  {
    ((b as bv8) & mask) as nat
  }

  lemma RangeMask(v: bv8)
    ensures v & 0xC0 == 0x80 <==> 0x80 <= v < 0xC0
    ensures v & 0xE0 == 0xC0 <==> 0xC0 <= v < 0xE0
    ensures v & 0xF0 == 0xE0 <==> 0xE0 <= v < 0xF0
    ensures v & 0xF8 == 0xF0 <==> 0xF0 <= v < 0xF8
  {
  }

  lemma RangeMasks(b: nat)
    requires b < 0x100
    ensures Masked(b, 0xC0) == 0x80 <==> IsContinuation(b)
    ensures Masked(b, 0xE0) == 0xC0 <==> 0xC0 <= b < 0xE0
    ensures Masked(b, 0xF0) == 0xE0 <==> 0xE0 <= b < 0xF0
    ensures Masked(b, 0xF8) == 0xF0 <==> 0xF0 <= b < 0xF8
  {
    RangeMask(b as bv8);
  }

  lemma Successor(v: bv8)
    requires v as nat < 0xFF
    ensures (v + 1) as nat == v as nat + 1
  {
    assert v != 0xFF;
  }

  lemma BackToBits(v: bv8)
    ensures (v as nat) as bv8 == v
  {
  }

  /** A byte as a number and as a bit vector. */
  lemma {:induction false} AsBits(b: nat)
    requires b < 0x100
    ensures (b as bv8) as nat == b
  {
    if b > 0 {
      var v := (b - 1) as bv8;
      AsBits(b - 1);
      Successor(v);
      BackToBits(v + 1);
    }
  }

  lemma ContinuationRange(b: nat)
    requires IsContinuation(b)
    ensures 0x80 <= b as bv8 < 0xC0
  {
  }

  lemma LeadRange(b: nat)
    requires 0xC0 <= b < 0xE0
    ensures 0xC0 <= b as bv8 < 0xE0
  {
  }

  lemma ContinuationBits(v: bv8)
    requires 0x80 <= v < 0xC0
    ensures (v & 0x3F) as nat == v as nat - 0x80
  {
    assert v & 0x3F == v - 0x80;
  }

  lemma LeadBits(v: bv8)
    requires 0xC0 <= v < 0xE0
    ensures (v & 0x1F) as nat == v as nat - 0xC0
  {
    assert v & 0x1F == v - 0xC0;
  }

  lemma ContinuationPayload(b: nat)
    requires IsContinuation(b)
    ensures Masked(b, 0x3F) == b - 0x80
  {
    AsBits(b);
    ContinuationRange(b);
    ContinuationBits(b as bv8);
  }

  lemma LeadPayload2(b: nat)
    requires 0xC0 <= b < 0xE0
    ensures Masked(b, 0x1F) == b - 0xC0
  {
    AsBits(b);
    LeadRange(b);
    LeadBits(b as bv8);
  }

  lemma LeadPayload3(b: nat)
    requires 0xE0 <= b < 0xF0
    ensures Masked(b, 0x0F) == b - 0xE0
  {
  }

  lemma LeadPayload4(b: nat)
    requires 0xF0 <= b < 0xF8
    ensures Masked(b, 0x07) == b - 0xF0
  {
  }

  /** The masks of the decoder select byte ranges and payload bits. */
  lemma Masks(b: nat)
    requires b < 0x100
    ensures Masked(b, 0xC0) == 0x80 <==> IsContinuation(b)
    ensures Masked(b, 0xE0) == 0xC0 <==> 0xC0 <= b < 0xE0
    ensures Masked(b, 0xF0) == 0xE0 <==> 0xE0 <= b < 0xF0
    ensures Masked(b, 0xF8) == 0xF0 <==> 0xF0 <= b < 0xF8
    ensures IsContinuation(b) ==> Masked(b, 0x3F) == b - 0x80
    ensures 0xC0 <= b < 0xE0 ==> Masked(b, 0x1F) == b - 0xC0
    ensures 0xE0 <= b < 0xF0 ==> Masked(b, 0x0F) == b - 0xE0
    ensures 0xF0 <= b < 0xF8 ==> Masked(b, 0x07) == b - 0xF0
  {
    hide Masked;
    RangeMasks(b);
    if IsContinuation(b) {
      ContinuationPayload(b);
    } else if 0xC0 <= b < 0xE0 {
      LeadPayload2(b);
    } else if 0xE0 <= b < 0xF0 {
      LeadPayload3(b);
    } else if 0xF0 <= b < 0xF8 {
      LeadPayload4(b);
    }
  }

  predicate IsBytes(s: string) {
    forall i | 0 <= i < |s| :: s[i] as nat < 0x100
  }

  /** The decoder in the notation of the C code: masks and shifted payloads. */
  function DecodeByMasks(s: string): Decoded
    requires s != "" && IsBytes(s)
  {
    var b := ByteAt(s, 0);
    if b < 0x80 then Decoded(b, 1)
    else if Masked(b, 0xE0) == 0xC0 && Masked(ByteAt(s, 1), 0xC0) == 0x80 then
      Decoded(Masked(b, 0x1F) * 0x40 + Masked(ByteAt(s, 1), 0x3F), 2)
    else if Masked(b, 0xF0) == 0xE0 && Masked(ByteAt(s, 1), 0xC0) == 0x80
            && (Masks(ByteAt(s, 1)); Masked(ByteAt(s, 2), 0xC0) == 0x80) then
      Decoded(Masked(b, 0x0F) * 0x1000 + Masked(ByteAt(s, 1), 0x3F) * 0x40 + Masked(ByteAt(s, 2), 0x3F), 3)
    else if Masked(b, 0xF8) == 0xF0 && Masked(ByteAt(s, 1), 0xC0) == 0x80
            && (Masks(ByteAt(s, 1)); Masked(ByteAt(s, 2), 0xC0) == 0x80)
            && (Masks(ByteAt(s, 2)); Masked(ByteAt(s, 3), 0xC0) == 0x80) then
      Decoded(Masked(b, 0x07) * 0x40000 + Masked(ByteAt(s, 1), 0x3F) * 0x1000
              + Masked(ByteAt(s, 2), 0x3F) * 0x40 + Masked(ByteAt(s, 3), 0x3F), 4)
    else Decoded(b, 1)
  }

  lemma DecodeIsMasked(s: string)
    requires s != "" && IsBytes(s)
    ensures DecodeByMasks(s) == Decode(s)
  {
    hide Masked;
    Masks(ByteAt(s, 0));
    if |s| > 1 {
      Masks(ByteAt(s, 1));
    }
    if |s| > 2 {
      Masks(ByteAt(s, 2));
    }
    if |s| > 3 {
      Masks(ByteAt(s, 3));
    }
    Masks(0);
  }

  predicate IsCombining(c: nat) {
    0x0300 <= c <= 0x036F || 0x1AB0 <= c <= 0x1AFF || 0x1DC0 <= c <= 0x1DFF || 0x20D0 <= c <= 0x20FF ||
      0xFE20 <= c <= 0xFE2F
  }

  predicate IsWide(c: nat) {
    || 0x1100 <= c <= 0x115F || 0x2329 <= c <= 0x232A || 0x2E80 <= c <= 0xA4CF || 0xAC00 <= c <= 0xD7A3
    || 0xF900 <= c <= 0xFAFF || 0xFE10 <= c <= 0xFE19 || 0xFE30 <= c <= 0xFE6F || 0xFF00 <= c <= 0xFF60
    || 0xFFE0 <= c <= 0xFFE6 || 0x1F300 <= c <= 0x1FAFF || 0x20000 <= c <= 0x3FFFD
  }

  function CodepointWidth(c: nat): nat {
    if c == 0 || IsCombining(c) then 0 else if IsWide(c) then 2 else 1
  }

  function Width(s: string): nat
    decreases |s|
  {
    if s == "" then 0
    else
      var d := Decode(s);
      CodepointWidth(d.codepoint) + Width(s[d.bytes..])
  }

  method DisplayWidth(text: string) returns (width: nat)
    ensures width == Width(text)
  {
    hide Decode, CodepointWidth;
    width := 0;
    var at := 0;
    while at < |text|
      invariant at <= |text| && width + Width(text[at..]) == Width(text)
    {
      var d := Decode(text[at..]);
      assert text[at..][d.bytes..] == text[at + d.bytes..];
      width := width + CodepointWidth(d.codepoint);
      at := at + d.bytes;
    }
  }

  // ---- agreement with the encoding ----

  /** The encoding of section 3 of RFC 3629, for every value of up to 21 bits. */
  function Encode(c: nat): string
    requires c < 0x200000
  {
    if c < 0x80 then [c as char]
    else if c < 0x800 then [(0xC0 + c / 0x40) as char, (0x80 + c % 0x40) as char]
    else if c < 0x10000 then [(0xE0 + c / 0x1000) as char, (0x80 + c / 0x40 % 0x40) as char, (0x80 + c % 0x40) as char]
    else [(0xF0 + c / 0x40000) as char, (0x80 + c / 0x1000 % 0x40) as char, (0x80 + c / 0x40 % 0x40) as char,
      (0x80 + c % 0x40) as char]
  }

  lemma DecodeEncoded2(c: nat, rest: string)
    requires 0x80 <= c < 0x800
    ensures Decode(Encode(c) + rest) == Decoded(c, 2)
  {
  }

  /** A lead byte and two continuation bytes with payloads `p`, `q`, `r`. */
  lemma DecodeThree(s: string, p: nat, q: nat, r: nat)
    requires |s| >= 3 && p < 0x10 && q < 0x40 && r < 0x40
    requires s[0] as nat == 0xE0 + p && s[1] as nat == 0x80 + q && s[2] as nat == 0x80 + r
    ensures Decode(s) == Decoded(p * 0x1000 + q * 0x40 + r, 3)
  {
  }

  lemma DecodeFour(s: string, o: nat, p: nat, q: nat, r: nat)
    requires |s| >= 4 && o < 0x08 && p < 0x40 && q < 0x40 && r < 0x40
    requires s[0] as nat == 0xF0 + o && s[1] as nat == 0x80 + p && s[2] as nat == 0x80 + q && s[3] as nat == 0x80 + r
    ensures Decode(s) == Decoded(o * 0x40000 + p * 0x1000 + q * 0x40 + r, 4)
  {
  }

  /** Groups of six bits make up the value again. */
  lemma Pieces(c: nat)
    ensures c / 0x1000 * 0x1000 + c / 0x40 % 0x40 * 0x40 + c % 0x40 == c
    ensures c / 0x40000 * 0x40000 + c / 0x1000 % 0x40 * 0x1000 + c / 0x40 % 0x40 * 0x40 + c % 0x40 == c
  {
    var d := c / 0x40;
    var e := d / 0x40;
    assert e == c / 0x1000 && e / 0x40 == c / 0x40000;
  }

  lemma DecodeEncoded3(c: nat, rest: string)
    requires 0x800 <= c < 0x10000
    ensures Decode(Encode(c) + rest) == Decoded(c, 3)
  {
    hide Decode;
    Pieces(c);
    DecodeThree(Encode(c) + rest, c / 0x1000, c / 0x40 % 0x40, c % 0x40);
  }

  lemma DecodeEncoded4(c: nat, rest: string)
    requires 0x10000 <= c < 0x200000
    ensures Decode(Encode(c) + rest) == Decoded(c, 4)
  {
    hide Decode;
    Pieces(c);
    DecodeFour(Encode(c) + rest, c / 0x40000, c / 0x1000 % 0x40, c / 0x40 % 0x40, c % 0x40);
  }

  /** Decoding inverts encoding and consumes exactly the encoded bytes. */
  lemma DecodeEncoded(c: nat, rest: string)
    requires c < 0x200000
    ensures Encode(c) + rest != "" && Decode(Encode(c) + rest) == Decoded(c, |Encode(c)|)
  {
    hide Decode;
    if c < 0x80 {
      DecodeAscii(c, rest);
    } else if c < 0x800 {
      DecodeEncoded2(c, rest);
    } else if c < 0x10000 {
      DecodeEncoded3(c, rest);
    } else {
      DecodeEncoded4(c, rest);
    }
  }

  lemma DecodeAscii(c: nat, rest: string)
    requires c < 0x80
    ensures Decode([c as char] + rest) == Decoded(c, 1)
  {
  }

  // ---- additivity ----

  /** Decoding from the front comes to a stop after exactly `n` bytes: no character straddles that position. */
  ghost predicate Boundary(s: string, n: nat)
    decreases n
  {
    n == 0 || (s != "" && Decode(s).bytes <= n && Boundary(s[Decode(s).bytes..], n - Decode(s).bytes))
  }

  /** A character of several bytes takes fewer columns than bytes, and each of its bytes alone would take one. */
  lemma CharacterWidth(s: string)
    requires s != "" && Decode(s).bytes > 1
    ensures CodepointWidth(Decode(s).codepoint) < Decode(s).bytes
    ensures forall i | 0 <= i < Decode(s).bytes :: 0x80 <= s[i] as nat < 0xF8
    ensures forall i | 0 < i < Decode(s).bytes :: IsContinuation(s[i] as nat)
  {
  }

  /** Bytes cut off from their character count one column each. */
  lemma {:induction false} StrayWidth(s: string, rest: string)
    requires forall i | 0 <= i < |s| :: IsContinuation(s[i] as nat)
    ensures Width(s + rest) == |s| + Width(rest)
  {
    if s == "" {
      assert s + rest == rest;
    } else {
      assert (s + rest)[0] == s[0] && (s + rest)[1..] == s[1..] + rest;
      StrayWidth(s[1..], rest);
    }
  }

  /** A first byte whose character is cut off counts one column. */
  lemma CutOff(a: string, b: string)
    requires a != "" && Decode(a + b).bytes > |a|
    ensures Decode(a) == Decoded(a[0] as nat, 1) && CodepointWidth(a[0] as nat) == 1
  {
    CharacterWidth(a + b);
    assert forall i | 0 <= i < |a| :: (a + b)[i] == a[i];
  }

  lemma CutOffWidth(a: string, b: string)
    requires a != "" && Decode(a + b).bytes > |a|
    ensures Width(a) == |a|
    ensures Width(a + b) < Width(a) + Width(b)
  {
    hide Decode, CodepointWidth;
    var n := Decode(a + b).bytes;
    CharacterWidth(a + b);
    CutOff(a, b);
    forall i | 0 <= i < |a| ensures (a + b)[i] == a[i] {
    }
    var tail, head := b[n - |a|..], b[..n - |a|];
    assert forall i | 0 <= i < |head| :: (a + b)[|a| + i] == head[i];
    assert a[1..] + "" == a[1..] && b == head + tail && (a + b)[n..] == tail;
    StrayWidth(a[1..], "");
    StrayWidth(head, tail);
  }

  /** A character that ends inside the first part is decoded the same without the second. */
  lemma DecodePrefix(a: string, b: string)
    requires a != "" && Decode(a + b).bytes <= |a|
    ensures Decode(a) == Decode(a + b)
  {
    hide IsWide, IsCombining;
    assert forall i | 0 <= i < |a| :: (a + b)[i] == a[i];
  }

  /** Concatenation never adds columns. */
  lemma {:induction false} WidthAtMost(a: string, b: string)
    ensures Width(a + b) <= Width(a) + Width(b)
    ensures Width(a + b) == Width(a) + Width(b) <==> Boundary(a + b, |a|)
    decreases |a|
  {
    hide CodepointWidth, Decode;
    if a == "" {
      assert a + b == b;
    } else {
      var n := Decode(a + b).bytes;
      if n > |a| {
        CutOffWidth(a, b);
      } else {
        DecodePrefix(a, b);
        assert (a + b)[n..] == a[n..] + b;
        WidthAtMost(a[n..], b);
      }
    }
  }

  /** The display width of a concatenation is the sum exactly if no character straddles the seam. */
  lemma WidthAdditive(a: string, b: string)
    ensures Width(a + b) == Width(a) + Width(b) <==> Boundary(a + b, |a|)
  {
    WidthAtMost(a, b);
  }

  /** In particular where the second part does not start with a continuation byte. */
  lemma {:induction false} SeamIsBoundary(a: string, b: string)
    requires b == "" || !IsContinuation(b[0] as nat)
    ensures Boundary(a + b, |a|)
    decreases |a|
  {
    hide Decode;
    if a != "" {
      assert b != "" ==> (a + b)[|a|] == b[0];
      var n := Decode(a + b).bytes;
      if n > |a| {
        CharacterWidth(a + b);
        assert false;
      }
      assert (a + b)[n..] == a[n..] + b;
      SeamIsBoundary(a[n..], b);
    }
  }

  lemma WidthConcat(a: string, b: string)
    requires b == "" || !IsContinuation(b[0] as nat)
    ensures Width(a + b) == Width(a) + Width(b)
  {
    SeamIsBoundary(a, b);
    WidthAtMost(a, b);
  }

  /** A seam inside a character: one column becomes two. */
  lemma WidthSplitsCharacter()
    ensures var a, b := [0xC3 as char], [0xA4 as char]; Width(a + b) == 1 && Width(a) + Width(b) == 2
  {
  }

  /** A printable ASCII character takes one column whatever follows it. */
  lemma AsciiFirst(c: char, rest: string)
    requires 0 < c as nat < 0x80
    ensures Width([c] + rest) == 1 + Width(rest)
  {
  }
}
