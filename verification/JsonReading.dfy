/** What a JSON reader that follows RFC 8259 (section 7) gets from escaped text. */
module JsonReading {
  import opened JsonText
  import opened JsonValidity

  /** The character behind a backslash that names another one. */
  function Named(c: char): char {
    match c
    case 'b' => '\U{08}'
    case 'f' => '\U{0C}'
    case 'n' => '\U{0A}'
    case 'r' => '\U{0D}'
    case 't' => '\U{09}'
    case _ => c
  }

  function HexValue(c: char): (n: nat)
    requires IsHex(c)
    ensures n < 16
  {
    if '0' <= c <= '9' then c as int - '0' as int
    else if 'a' <= c <= 'f' then c as int - 'a' as int + 10
    else c as int - 'A' as int + 10
  }

  /** The bytes of a code point of four hexadecimal digits. */
  function Bytes(n: nat): string
    requires n < 0x10000
  {
    if n < 0x80 then [n as char]
    else if n < 0x800 then [(0xC0 + n / 64) as char, (0x80 + n % 64) as char]
    else [(0xE0 + n / 4096) as char, (0x80 + n / 64 % 64) as char, (0x80 + n % 64) as char]
  }

  /** What the escape at the start of `e` stands for. */
  function Denoted(e: string): string
    requires e != "" && EscapeLength(e) > 0
  {
    if EscapeLength(e) == 2 then [Named(e[1])]
    else Bytes(HexValue(e[2]) * 4096 + HexValue(e[3]) * 256 + HexValue(e[4]) * 16 + HexValue(e[5]))
  }

  /** The text that the body of a JSON string stands for. */
  function Decode(e: string): string
    requires StringBody(e)
  {
    if e == "" then ""
    else if e[0] == '\\' then Denoted(e) + Decode(e[EscapeLength(e)..])
    else [e[0]] + Decode(e[1..])
  }

  /** `s` with U+FFFD for every byte from 0x80 up that no accepted sequence holds. */
  function Mended(s: string): string {
    if s == "" then ""
    else
      (if Code(s[0]) >= 0x80 && SequenceLength(s) == 0 then "\U{EF}\U{BF}\U{BD}" else s[..Taken(s)])
      + Mended(s[Taken(s)..])
  }

  lemma HexDigitValue(n: int)
    requires 0 <= n < 16
    ensures IsHex(HexDigit(n)) && HexValue(HexDigit(n)) == n
  {
  }

  /** Every escape that is written stands for the character it was written for. */
  lemma EscapeDenotes(c: char, y: string)
    requires NeedsEscape(c)
    ensures EscapeLength(EscapeOf(c) + y) == |EscapeOf(c)| && Denoted(EscapeOf(c) + y) == [c]
  {
    hide HexDigit, HexValue, IsHex;
    EscapeOfLength(c, y);
    if |EscapeOf(c)| > 2 {
      HexDigitValue(Code(c) / 16);
      HexDigitValue(Code(c) % 16);
      ZeroDigit();
      HexDigitValue(0);
    }
  }

  /** Where the standard names a character, the short escape is written. */
  lemma ShortWhereNamed(c: char)
    requires NeedsEscape(c)
    ensures |EscapeOf(c)| == 2 <==> exists n :: n in "\"\\/bfnrt" && Named(n) == c
  {
    hide HexDigit;
    var names := "\"\\/bfnrt";
    assert names[0] == '"' && names[1] == '\\' && names[2] == '/' && names[3] == 'b' && names[4] == 'f'
      && names[5] == 'n' && names[6] == 'r' && names[7] == 't';
    if |EscapeOf(c)| == 2 {
      var n := EscapeOf(c)[1];
      assert n in names && Named(n) == c;
    }
  }

  lemma {:induction false} DecodePlain(p: string, y: string)
    requires (forall k: nat :: k < |p| ==> p[k] != '\\') && StringBody(p + y) && StringBody(y)
    ensures Decode(p + y) == p + Decode(y)
  {
    hide StringBody, Decode;
    if p == "" {
      assert p + y == y;
    } else {
      var e := p + y;
      DecodeStep(e);
      assert e[1..] == p[1..] + y;
      DecodePlain(p[1..], y);
      assert [p[0]] + (p[1..] + Decode(y)) == p + Decode(y);
    }
  }

  lemma DecodeStep(e: string)
    requires e != "" && StringBody(e) && e[0] != '\\'
    ensures StringBody(e[1..]) && Decode(e) == [e[0]] + Decode(e[1..])
  {
    hide Denoted;
  }

  lemma DecodeUnit(s: string, y: string)
    requires s != "" && StringBody(y)
    ensures StringBody(Unit(s) + y)
    ensures Decode(Unit(s) + y)
         == (if Code(s[0]) >= 0x80 && SequenceLength(s) == 0 then "\U{EF}\U{BF}\U{BD}" else s[..Taken(s)]) + Decode(y)
  {
    hide EscapeOf, EscapeLength, SequenceLength, Denoted;
    UnitBody(s, y);
    if NeedsEscape(s[0]) {
      var e := EscapeOf(s[0]);
      EscapeDenotes(s[0], y);
      assert (e + y)[|e|..] == y;
      NoSequence(s);
    } else {
      if Code(s[0]) >= 0x80 {
        SequenceBytes(s);
      }
      DecodePlain(Unit(s), y);
    }
  }

  lemma NoSequence(s: string)
    requires s != "" && NeedsEscape(s[0])
    ensures Code(s[0]) < 0x80 && s[..Taken(s)] == [s[0]]
  {
  }

  /** A JSON reader gets the text back, with U+FFFD where it held stray bytes. */
  lemma {:induction false} ReaderGets(s: string)
    ensures StringBody(Escape(s)) && Decode(Escape(s)) == Mended(s)
  {
    hide Unit, Taken, SequenceLength, StringBody;
    if s == "" {
      EmptyBody();
    } else {
      ReaderGets(s[Taken(s)..]);
      DecodeUnit(s, Escape(s[Taken(s)..]));
    }
  }

  /** UTF-8 text of any kind, control characters included, comes back as it was. */
  lemma {:induction false} ReaderGetsUtf8(s: string)
    requires IsUtf8(s)
    ensures StringBody(Escape(s)) && Decode(Escape(s)) == s
  {
    hide Escape, Decode, StringBody, Utf8Length;
    ReaderGets(s);
    Utf8NeedsNoMending(s);
  }

  lemma {:induction false} Utf8NeedsNoMending(s: string)
    requires IsUtf8(s)
    ensures Mended(s) == s
  {
    hide Taken, SequenceLength, Utf8Length;
    if s != "" {
      CharacterStays(s);
      Utf8NeedsNoMending(s[Taken(s)..]);
      assert s[..Taken(s)] + s[Taken(s)..] == s;
    }
  }

  lemma CharacterStays(s: string)
    requires s != "" && IsUtf8(s)
    ensures IsUtf8(s[Taken(s)..]) && (Code(s[0]) >= 0x80 ==> SequenceLength(s) > 0)
  {
    hide SequenceLength;
    Utf8Taken(s);
    assert Code(s[0]) >= 0x80 ==> Utf8Length(s) != 1;
  }
}
