/** JSON string escaping and the baseline reader's unescaping. A character stands for one
    byte of UTF-8 text. */
module JsonText {

  // -------------------------------------------------------------------- classes

  function Code(c: char): int {
    c as int
  }

  /** Escaped with a backslash: control characters, the quote and the backslash. */
  predicate NeedsEscape(c: char) {
    Code(c) < 0x20 || c == '"' || c == '\\'
  }

  /** Continuation bytes that a lead byte announces; none for anything else. */
  function ExtraBytes(c: char): nat {
    var b := Code(c);
    if 0xC2 <= b <= 0xDF then 1
    else if 0xE0 <= b <= 0xEF then 2
    else if 0xF0 <= b <= 0xF4 then 3
    else 0
  }

  predicate Continuation(c: char) {
    0x80 <= Code(c) <= 0xBF
  }

  /** Length of the multi-byte sequence at the start of `s`, 0 when it is malformed. */
  function SequenceLength(s: string): (n: nat)
    requires s != ""
    ensures n <= |s| && n <= 4 && (n > 0 ==> n >= 2)
  {
    var extra := ExtraBytes(s[0]);
    if extra > 0 && extra < |s| && forall k: nat :: 1 <= k <= extra ==> Continuation(s[k])
    then extra + 1 else 0
  }

  const REPLACEMENT: string := "\U{EF}\U{BF}\U{BD}"

  function HexDigit(n: int): char
    requires 0 <= n < 16
  {
    "0123456789abcdef"[n]
  }

  function EscapeOf(c: char): (e: string)
    requires NeedsEscape(c)
    ensures |e| >= 2 && e[0] == '\\'
  {
    if c == '"' then "\\\""
    else if c == '\\' then "\\\\"
    else if c == '\n' then "\\n"
    else if c == '\r' then "\\r"
    else if c == '\t' then "\\t"
    else if Code(c) == 8 then "\\b"
    else if Code(c) == 12 then "\\f"
    else "\\u00" + [HexDigit(Code(c) / 16), HexDigit(Code(c) % 16)]
  }

  // ----------------------------------------------------------------- as functions

  /** Bytes taken from the input by one step of the escaper. */
  function Taken(s: string): (n: nat)
    requires s != ""
    ensures 0 < n <= |s|
  {
    if Code(s[0]) < 0x80 || SequenceLength(s) == 0 then 1 else SequenceLength(s)
  }

  /** What one step of the escaper writes. */
  function Unit(s: string): string
    requires s != ""
  {
    if NeedsEscape(s[0]) then EscapeOf(s[0])
    else if Code(s[0]) < 0x80 then [s[0]]
    else if SequenceLength(s) == 0 then REPLACEMENT
    else s[..SequenceLength(s)]
  }

  function Escape(s: string): string {
    if s == "" then "" else Unit(s) + Escape(s[Taken(s)..])
  }

  function Meaning(c: char): char {
    if c == 'n' then '\n' else c
  }

  function Unescape(s: string): string {
    if s == "" then ""
    else if s[0] == '\\' && |s| > 1 then [Meaning(s[1])] + Unescape(s[2..])
    else [s[0]] + Unescape(s[1..])
  }

  // ------------------------------------------------------------------- as loops

  method AppendUtf8(s: string, p: nat) returns (out: string, q: nat)
    requires p < |s| && Code(s[p]) >= 0x80
    ensures out == Unit(s[p..]) && q == p + Taken(s[p..])
  {
    var extra := ExtraBytes(s[p]);
    if extra == 0 {
      return REPLACEMENT, p + 1;
    }
    q := p + 1;
    var i := 0;
    while i < extra
      invariant 0 <= i <= extra && q == p + 1 + i <= |s|
      invariant forall k: nat :: 1 <= k <= i ==> Continuation(s[p..][k])
    {
      if q >= |s| || !Continuation(s[q]) {
        return REPLACEMENT, p + 1;
      }
      q := q + 1;
      i := i + 1;
    }
    out := s[p..q];
    assert s[p..][..q - p] == out;
  }

  method EscapeStep(s: string, p: nat) returns (unit: string, q: nat)
    requires p < |s|
    ensures unit == Unit(s[p..]) && q == p + Taken(s[p..])
  {
    hide SequenceLength, EscapeOf;
    var b := s[p];
    assert s[p..][0] == b;
    if NeedsEscape(b) {
      return EscapeOf(b), p + 1;
    }
    if Code(b) < 0x80 {
      return [b], p + 1;
    }
    unit, q := AppendUtf8(s, p);
  }

  method JsonEscape(s: string) returns (out: string)
    ensures out == Escape(s)
  {
    hide Unit, Taken;
    out := "";
    var p := 0;
    while p < |s|
      invariant 0 <= p <= |s| && out + Escape(s[p..]) == Escape(s)
    {
      ghost var rest := s[p..];
      var unit, q := EscapeStep(s, p);
      assert rest[Taken(rest)..] == s[q..];
      out := out + unit;
      p := q;
    }
  }

  lemma UnescapeStep(s: string)
    ensures s == "" ==> Unescape(s) == ""
    ensures s != "" && !(s[0] == '\\' && |s| > 1) ==> Unescape(s) == [s[0]] + Unescape(s[1..])
    ensures |s| > 1 && s[0] == '\\' ==> Unescape(s) == [Meaning(s[1])] + Unescape(s[2..])
  {
    hide Meaning;
  }

  method JsonUnescape(s: string) returns (out: string)
    ensures out == Unescape(s)
  {
    hide Unescape, Meaning;
    out := "";
    var i := 0;
    while i < |s|
      invariant 0 <= i <= |s| && out + Unescape(s[i..]) == Unescape(s)
    {
      ghost var rest := s[i..];
      UnescapeStep(rest);
      if s[i] == '\\' && i + 1 < |s| {
        assert rest[2..] == s[i + 2..];
        out := out + [Meaning(s[i + 1])];
        i := i + 2;
      } else {
        assert rest[1..] == s[i + 1..];
        out := out + [s[i]];
        i := i + 1;
      }
    }
    UnescapeStep(s[i..]);
  }

  // ------------------------------------------------------------------- the escape

  /** Quotes follow a backslash, and no control character remains. */
  ghost predicate Sealed(e: string) {
    && (forall k: nat :: k < |e| && e[k] == '"' ==> k > 0 && e[k - 1] == '\\')
    && (forall k: nat :: k < |e| ==> Code(e[k]) >= 0x20)
  }

  lemma EscapeOfSealed(c: char)
    requires NeedsEscape(c)
    ensures Sealed(EscapeOf(c))
    ensures forall k: nat :: 2 <= k < |EscapeOf(c)| ==> EscapeOf(c)[k] != '\\' && EscapeOf(c)[k] != '"'
  {
    hide HexDigit;
    var e := EscapeOf(c);
    if |e| > 2 {
      HexDigitPlain(Code(c) / 16);
      HexDigitPlain(Code(c) % 16);
      assert e == ['\\', 'u', '0', '0', HexDigit(Code(c) / 16), HexDigit(Code(c) % 16)];
    } else {
      assert e == [e[0], e[1]];
    }
  }

  lemma HexDigitPlain(n: int)
    requires 0 <= n < 16
    ensures HexDigit(n) != '"' && HexDigit(n) != '\\' && Code(HexDigit(n)) >= 0x20
  {
  }

  /** The bytes of an accepted sequence are all outside ASCII. */
  lemma SequenceBytes(s: string)
    requires s != "" && Code(s[0]) >= 0x80
    ensures forall k: nat :: k < SequenceLength(s) ==> Code(s[k]) >= 0x80
  {
  }

  lemma UnitSealed(s: string)
    requires s != ""
    ensures Sealed(Unit(s)) && Unit(s) != ""
  {
    hide EscapeOf, SequenceLength;
    if NeedsEscape(s[0]) {
      EscapeOfSealed(s[0]);
    } else if Code(s[0]) >= 0x80 {
      SequenceBytes(s);
    }
  }

  lemma SealedConcat(a: string, b: string)
    requires Sealed(a) && Sealed(b)
    ensures Sealed(a + b)
  {
  }

  lemma {:induction false} EscapeSealed(s: string)
    ensures Sealed(Escape(s))
  {
    hide Sealed, Unit;
    if s == "" {
      NothingSealed();
    } else {
      UnitSealed(s);
      EscapeSealed(s[Taken(s)..]);
      SealedConcat(Unit(s), Escape(s[Taken(s)..]));
    }
  }

  lemma NothingSealed()
    ensures Sealed("")
  {
  }

  // ---------------------------------------------------------------- the round trip

  /** The first character of `s` survives being written and read. */
  predicate Survives(s: string)
    requires s != ""
  {
    && (Code(s[0]) < 0x20 ==> s[0] == '\n')
    && (Code(s[0]) >= 0x80 ==> SequenceLength(s) > 0)
  }

  /** The bytes that survive: every control character is a newline, and every byte from
      0x80 up belongs to a sequence the escaper accepts. */
  predicate Faithful(s: string) {
    if s == "" then true
    else Survives(s) && Faithful(s[Taken(s)..])
  }

  /** What a string becomes when it is written and read again. */
  function Laundered(s: string): string {
    Unescape(Escape(s))
  }

  /** What one unit reads back as. */
  function UnitBack(s: string): string
    requires s != ""
  {
    if NeedsEscape(s[0]) then [Meaning(EscapeOf(s[0])[1])] + EscapeOf(s[0])[2..] else Unit(s)
  }

  lemma {:induction false} UnescapePlain(p: string, y: string)
    requires forall k: nat :: k < |p| ==> p[k] != '\\'
    ensures Unescape(p + y) == p + Unescape(y)
  {
    if p == "" {
      assert p + y == y;
    } else {
      assert (p + y)[1..] == p[1..] + y;
      UnescapePlain(p[1..], y);
    }
  }

  lemma UnescapeEscape(c: char, y: string)
    requires NeedsEscape(c)
    ensures Unescape(EscapeOf(c) + y) == [Meaning(EscapeOf(c)[1])] + EscapeOf(c)[2..] + Unescape(y)
  {
    hide EscapeOf, Unescape, Meaning;
    var u := EscapeOf(c);
    EscapeOfSealed(c);
    UnescapeStep(u + y);
    assert (u + y)[2..] == u[2..] + y;
    UnescapePlain(u[2..], y);
    assert [Meaning(u[1])] + (u[2..] + Unescape(y)) == [Meaning(u[1])] + u[2..] + Unescape(y);
  }

  lemma UnescapeUnit(s: string, y: string)
    requires s != ""
    ensures Unescape(Unit(s) + y) == UnitBack(s) + Unescape(y)
  {
    hide EscapeOf, SequenceLength, Unescape, Meaning;
    if NeedsEscape(s[0]) {
      UnescapeEscape(s[0], y);
    } else {
      if Code(s[0]) >= 0x80 {
        SequenceBytes(s);
      }
      UnescapePlain(Unit(s), y);
    }
  }

  /** A step reads back as what it took when that survives; otherwise as something
      longer or different. */
  lemma UnitReadsBack(s: string)
    requires s != ""
    ensures |UnitBack(s)| >= Taken(s)
    ensures Survives(s) ==> UnitBack(s) == s[..Taken(s)]
    ensures !Survives(s) ==> |UnitBack(s)| > Taken(s) || UnitBack(s) != s[..Taken(s)]
  {
    hide SequenceLength, HexDigit;
    if NeedsEscape(s[0]) {
      assert s[..1] == [s[0]];
    }
  }

  lemma {:induction false} NeverShorter(s: string)
    ensures |Laundered(s)| >= |s|
  {
    if s != "" {
      UnitReadsBack(s);
      UnescapeUnit(s, Escape(s[Taken(s)..]));
      NeverShorter(s[Taken(s)..]);
    }
  }

  /** Writing and reading a string gives it back exactly when it is faithful. */
  lemma {:induction false} RoundTripIff(s: string)
    ensures Laundered(s) == s <==> Faithful(s)
  {
    hide Survives, UnitBack, Unit, Taken;
    if s != "" {
      var rest := s[Taken(s)..];
      UnitReadsBack(s);
      UnescapeUnit(s, Escape(rest));
      NeverShorter(rest);
      RoundTripIff(rest);
      assert Laundered(s) == UnitBack(s) + Laundered(rest);
      assert s == s[..Taken(s)] + rest;
      if |UnitBack(s)| == Taken(s) {
        assert Laundered(s)[..Taken(s)] == UnitBack(s) && Laundered(s)[Taken(s)..] == Laundered(rest);
      } else {
        assert |Laundered(s)| > |s|;
      }
    }
  }

  /** Printable ASCII and newlines always survive. */
  lemma {:induction false} PlainTextIsFaithful(s: string)
    requires forall k: nat :: k < |s| ==> s[k] == '\n' || 0x20 <= Code(s[k]) < 0x80
    ensures Faithful(s)
  {
    if s != "" {
      PlainTextIsFaithful(s[1..]);
    }
  }

  lemma {:induction false} FaithfulConcat(a: string, b: string)
    requires Faithful(a) && Faithful(b)
    ensures Faithful(a + b)
  {
    hide Survives, Taken;
    if a == "" {
      assert a + b == b;
    } else {
      SurvivesStill(a, b);
      assert (a + b)[Taken(a)..] == a[Taken(a)..] + b;
      FaithfulConcat(a[Taken(a)..], b);
    }
  }

  lemma SurvivesStill(a: string, b: string)
    requires a != "" && Survives(a)
    ensures Survives(a + b) && Taken(a + b) == Taken(a)
  {
    assert forall k: nat :: k < |a| ==> (a + b)[k] == a[k];
  }

  lemma UnitBackFaithful(s: string)
    requires s != ""
    ensures Faithful(UnitBack(s))
  {
    hide EscapeOf, HexDigit, SequenceLength, Faithful;
    if NeedsEscape(s[0]) {
      EscapeReadsBackPlain(s[0]);
      PlainTextIsFaithful(UnitBack(s));
    } else if Code(s[0]) < 0x80 {
      PlainTextIsFaithful([s[0]]);
    } else if SequenceLength(s) == 0 {
      SequenceFaithful(REPLACEMENT);
    } else {
      SequenceFaithful(s);
    }
  }

  /** An escape reads back as printable text or a newline. */
  lemma EscapeReadsBackPlain(c: char)
    requires NeedsEscape(c)
    ensures var back := [Meaning(EscapeOf(c)[1])] + EscapeOf(c)[2..];
      forall k: nat :: k < |back| ==> back[k] == '\n' || 0x20 <= Code(back[k]) < 0x80
  {
    hide HexDigit;
    var e := EscapeOf(c);
    if |e| > 2 {
      HexDigitAscii(Code(c) / 16);
      HexDigitAscii(Code(c) % 16);
      assert [Meaning(e[1])] + e[2..] == ['u', '0', '0', HexDigit(Code(c) / 16), HexDigit(Code(c) % 16)];
    } else {
      assert e[2..] == "";
      assert [Meaning(e[1])] + e[2..] == [Meaning(e[1])];
    }
  }

  lemma HexDigitAscii(n: int)
    requires 0 <= n < 16
    ensures 0x20 <= Code(HexDigit(n)) < 0x80
  {
  }

  lemma SequenceFaithful(s: string)
    requires s != "" && Code(s[0]) >= 0x80
    ensures SequenceLength(s) > 0 ==> Faithful(s[..SequenceLength(s)])
    ensures s == REPLACEMENT ==> Faithful(s)
  {
    if s == REPLACEMENT {
      assert Continuation(s[1]) && Continuation(s[2]);
      assert SequenceLength(s) == 3;
    }
    var n := SequenceLength(s);
    if n > 0 {
      var u := s[..n];
      assert forall k: nat :: k < n ==> u[k] == s[k];
      assert SequenceLength(u) == n && u[n..] == "";
      assert s == REPLACEMENT ==> u == s;
    }
  }

  /** Reading what was written always yields a faithful text. */
  lemma {:induction false} LaunderedIsFaithful(s: string)
    ensures Faithful(Laundered(s))
  {
    hide Faithful, UnitBack, Unit;
    if s == "" {
      PlainTextIsFaithful("");
    } else {
      var rest := s[Taken(s)..];
      UnescapeUnit(s, Escape(rest));
      UnitBackFaithful(s);
      LaunderedIsFaithful(rest);
      FaithfulConcat(UnitBack(s), Laundered(rest));
    }
  }
}
