/** What RFC 8259 (section 7) asks of the text inside a JSON string, and RFC 3629 (section 4)
    of UTF-8; and how far the escaper meets them. */
module JsonValidity {
  import opened JsonText

  // ---------------------------------------------------------------------- escapes

  predicate IsHex(c: char) {
    '0' <= c <= '9' || 'a' <= c <= 'f' || 'A' <= c <= 'F'
  }

  /** Length of the escape at the start of `e`, 0 when it is none. */
  function EscapeLength(e: string): (n: nat)
    requires e != ""
    ensures n <= |e|
  {
    if |e| < 2 || e[0] != '\\' then 0
    else if e[1] in "\"\\/bfnrt" then 2
    else if |e| >= 6 && e[1] == 'u' && IsHex(e[2]) && IsHex(e[3]) && IsHex(e[4]) && IsHex(e[5]) then 6
    else 0
  }

  /** No bare quote or control character, and every backslash starts an escape. */
  predicate StringBody(e: string) {
    if e == "" then true
    else if e[0] == '\\' then EscapeLength(e) > 0 && StringBody(e[EscapeLength(e)..])
    else Code(e[0]) >= 0x20 && e[0] != '"' && StringBody(e[1..])
  }

  lemma HexDigitIsHex(n: int)
    requires 0 <= n < 16
    ensures IsHex(HexDigit(n))
  {
  }

  lemma EscapeOfLength(c: char, y: string)
    requires NeedsEscape(c)
    ensures EscapeOf(c)[0] == '\\' && EscapeLength(EscapeOf(c) + y) == |EscapeOf(c)|
  {
    hide HexDigit, IsHex;
    if |EscapeOf(c)| > 2 {
      HexDigitIsHex(Code(c) / 16);
      HexDigitIsHex(Code(c) % 16);
      HexDigitIsHex(0);
      assert HexDigit(0) == '0' by { ZeroDigit(); }
    }
  }

  lemma ZeroDigit()
    ensures HexDigit(0) == '0'
  {
  }

  lemma {:induction false} PlainBody(p: string, y: string)
    requires forall k: nat :: k < |p| ==> Code(p[k]) >= 0x20 && p[k] != '"' && p[k] != '\\'
    ensures StringBody(p + y) == StringBody(y)
  {
    if p == "" {
      assert p + y == y;
    } else {
      assert (p + y)[1..] == p[1..] + y;
      PlainBody(p[1..], y);
    }
  }

  lemma UnitBody(s: string, y: string)
    requires s != ""
    ensures StringBody(Unit(s) + y) == StringBody(y)
  {
    hide EscapeOf, EscapeLength, SequenceLength;
    if NeedsEscape(s[0]) {
      var e := EscapeOf(s[0]);
      EscapeOfLength(s[0], y);
      assert (e + y)[|e|..] == y;
    } else {
      if Code(s[0]) >= 0x80 {
        SequenceBytes(s);
      }
      PlainBody(Unit(s), y);
    }
  }

  /** Whatever its input, the escaper writes the body of a JSON string. */
  lemma {:induction false} EscapeIsStringBody(s: string)
    ensures StringBody(Escape(s))
  {
    hide Unit, StringBody, Taken;
    if s == "" {
      assert StringBody("") by { EmptyBody(); }
    } else {
      EscapeIsStringBody(s[Taken(s)..]);
      UnitBody(s, Escape(s[Taken(s)..]));
    }
  }

  lemma EmptyBody()
    ensures StringBody("")
  {
  }

  // ------------------------------------------------------------------------ UTF-8

  predicate Within(c: char, low: int, high: int) {
    low <= Code(c) <= high
  }

  /** Length of the UTF-8 character at the start of `s`, 0 when there is none. */
  function Utf8Length(s: string): (n: nat)
    requires s != ""
    ensures n <= |s|
  {
    var two := |s| >= 2 && Within(s[1], 0x80, 0xBF);
    var three := |s| >= 3 && Within(s[2], 0x80, 0xBF);
    var four := |s| >= 4 && Within(s[3], 0x80, 0xBF);
    if Code(s[0]) < 0x80 then 1
    else if Within(s[0], 0xC2, 0xDF) then if two then 2 else 0
    else if Within(s[0], 0xE0, 0xEF) then
      if two && three && (Code(s[0]) == 0xE0 ==> Code(s[1]) >= 0xA0) && (Code(s[0]) == 0xED ==> Code(s[1]) <= 0x9F)
      then 3 else 0
    else if Within(s[0], 0xF0, 0xF4) then
      if two && three && four && (Code(s[0]) == 0xF0 ==> Code(s[1]) >= 0x90)
          && (Code(s[0]) == 0xF4 ==> Code(s[1]) <= 0x8F)
      then 4 else 0
    else 0
  }

  predicate IsUtf8(s: string) {
    s == "" || (Utf8Length(s) > 0 && IsUtf8(s[Utf8Length(s)..]))
  }

  /** Overlong forms, surrogates, and code points above U+10FFFF. */
  predicate Misshapen(s: string)
    requires |s| >= 2
  {
    || (Code(s[0]) == 0xE0 && Code(s[1]) < 0xA0)
    || (Code(s[0]) == 0xED && Code(s[1]) > 0x9F)
    || (Code(s[0]) == 0xF0 && Code(s[1]) < 0x90)
    || (Code(s[0]) == 0xF4 && Code(s[1]) > 0x8F)
  }

  /** Every multi-byte sequence that the escaper copies is a character. */
  predicate WellShaped(s: string) {
    if s == "" then true
    else (SequenceLength(s) > 0 ==> !Misshapen(s)) && WellShaped(s[Taken(s)..])
  }

  lemma SequenceIsCharacter(s: string)
    requires s != "" && SequenceLength(s) > 0
    ensures Utf8Length(s) == if Misshapen(s) then 0 else SequenceLength(s)
  {
    assert Continuation(s[1]);
    assert SequenceLength(s) >= 3 ==> Continuation(s[2]);
    assert SequenceLength(s) == 4 ==> Continuation(s[3]);
  }

  lemma {:induction false} AsciiPrefix(p: string, y: string)
    requires forall k: nat :: k < |p| ==> Code(p[k]) < 0x80
    ensures IsUtf8(p + y) == IsUtf8(y)
  {
    if p == "" {
      assert p + y == y;
    } else {
      assert (p + y)[1..] == p[1..] + y;
      AsciiPrefix(p[1..], y);
    }
  }

  lemma EscapeOfAscii(c: char)
    requires NeedsEscape(c)
    ensures forall k: nat :: k < |EscapeOf(c)| ==> Code(EscapeOf(c)[k]) < 0x80
  {
    hide HexDigit;
    if |EscapeOf(c)| > 2 {
      HexDigitIsHex(Code(c) / 16);
      HexDigitIsHex(Code(c) % 16);
    }
  }

  lemma ReplacementIs(y: string)
    ensures IsUtf8(REPLACEMENT + y) == IsUtf8(y)
  {
    assert Utf8Length(REPLACEMENT + y) == 3;
    assert (REPLACEMENT + y)[3..] == y;
  }

  /** A copied sequence keeps its length whatever follows. */
  lemma SequenceStays(s: string, y: string)
    requires s != "" && SequenceLength(s) > 0
    ensures var u := s[..SequenceLength(s)] + y;
      SequenceLength(u) == SequenceLength(s) && (Misshapen(u) <==> Misshapen(s)) && u[SequenceLength(s)..] == y
  {
    var n := SequenceLength(s);
    var u := s[..n] + y;
    assert forall k: nat :: k < n ==> u[k] == s[k];
  }

  lemma UnitUtf8(s: string, y: string)
    requires s != ""
    ensures var ok := SequenceLength(s) > 0 ==> !Misshapen(s);
      IsUtf8(Unit(s) + y) <==> ok && IsUtf8(y)
  {
    hide EscapeOf, SequenceLength, Utf8Length, Misshapen;
    if NeedsEscape(s[0]) {
      AsciiOnly(s);
      EscapeOfAscii(s[0]);
      AsciiPrefix(Unit(s), y);
    } else if Code(s[0]) < 0x80 {
      AsciiOnly(s);
      AsciiPrefix(Unit(s), y);
    } else if SequenceLength(s) == 0 {
      ReplacementIs(y);
    } else {
      var u := Unit(s) + y;
      SequenceStays(s, y);
      SequenceIsCharacter(u);
    }
  }

  lemma AsciiOnly(s: string)
    requires s != "" && Code(s[0]) < 0x80
    ensures SequenceLength(s) == 0
  {
  }

  /** The output is UTF-8 exactly when no overlong form, surrogate or code point out of range
      is among the sequences that the escaper accepts. */
  lemma {:induction false} EscapeIsUtf8Iff(s: string)
    ensures IsUtf8(Escape(s)) <==> WellShaped(s)
  {
    hide Unit, Taken, SequenceLength, Misshapen, Utf8Length;
    if s != "" {
      EscapeIsUtf8Iff(s[Taken(s)..]);
      UnitUtf8(s, Escape(s[Taken(s)..]));
    }
  }

  /** UTF-8 goes through unharmed, so the output is UTF-8 again. */
  lemma {:induction false} Utf8IsWellShaped(s: string)
    requires IsUtf8(s)
    ensures WellShaped(s)
  {
    if s != "" {
      Utf8Taken(s);
      Utf8IsWellShaped(s[Taken(s)..]);
    }
  }

  lemma Utf8Taken(s: string)
    requires s != "" && Utf8Length(s) > 0
    ensures Taken(s) == Utf8Length(s)
    ensures SequenceLength(s) > 0 ==> !Misshapen(s)
  {
    var n := Utf8Length(s);
    assert n >= 2 ==> Continuation(s[1]);
    assert n >= 3 ==> Continuation(s[2]);
    assert n >= 4 ==> Continuation(s[3]);
  }

  /** The overlong slash E0 80 AF is copied as it stands, and is no UTF-8. */
  lemma OverlongIsCopied()
    ensures var s := "\U{E0}\U{80}\U{AF}"; Escape(s) == s && !IsUtf8(s)
  {
    var s := "\U{E0}\U{80}\U{AF}";
    assert Continuation(s[1]) && Continuation(s[2]);
    assert SequenceLength(s) == 3;
    assert s[3..] == "" && s[..3] == s;
  }
}
