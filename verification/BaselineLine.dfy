/** One violation as one line of a baseline file. */
module BaselineLine {
  import opened Wrappers
  import opened Violations
  import opened JsonText
  import opened JsonFields

  function OpenRule(): string { "    {\"rule\": \"" }

  function OpenFile(): string { "\", \"file\": \"" }

  function OpenLine(): string { "\", \"line\": " }

  function OpenMessage(): string { ", \"message\": \"" }

  function Close(): string { "\"}" }

  /** The line of `v`, with `tail` after it: a comma or nothing. */
  function LineOf(v: Violation, tail: string): string {
    OpenRule() + Escape(v.ruleId) + OpenFile() + Escape(v.file) + OpenLine() + Printed(v.line)
      + OpenMessage() + Escape(v.message) + Close() + tail
  }

  function ParseLine(line: string): Option<Violation> {
    match (TextField(line, "rule"), TextField(line, "file"), NumberField(line, "line"), TextField(line, "message"))
    case (Some(rule), Some(file), Some(ln), Some(message)) => Some(Violation(rule, file, ln, message))
    case _ => None
  }

  method ParseViolationLine(line: string) returns (v: Option<Violation>)
    ensures v == ParseLine(line)
  {
    hide TextField, NumberField;
    var rule := ExtractString(line, "rule");
    var file := ExtractString(line, "file");
    var ln := ExtractInt(line, "line");
    var message := ExtractString(line, "message");
    if rule == None || file == None || ln == None || message == None {
      return None;
    }
    return Some(Violation(rule.value, file.value, ln.value, message.value));
  }

  // ---------------------------------------------------- where a key can be found

  /** A quote that could close a key: after a letter or digit, before a colon. */
  predicate ClosesKey(line: string, c: nat) {
    0 < c && c + 1 < |line| && line[c] == '"' && line[c - 1] != '\\' && line[c - 1] != ' ' && line[c + 1] == ':'
  }

  lemma PartAt(line: string, o: nat, part: string, k: nat)
    requires Occurs(line, part, o) && k < |part|
    ensures line[o + k] == part[k]
  {
    assert line[o..o + |part|][k] == part[k];
  }

  /** All quotes of `part` stand before something other than a colon, or after a space,
      except the one at `at`. */
  ghost predicate OneKey(part: string, at: int) {
    forall k: nat :: k < |part| ==> ClosesOnlyAt(part, k, at)
  }

  predicate ClosesOnlyAt(part: string, k: nat, at: int)
    requires k < |part|
  {
    part[k] == '"' ==> k == at || (k > 0 && part[k - 1] == ' ') || (k + 1 < |part| && part[k + 1] != ':')
  }

  lemma KeyInPart(line: string, o: nat, part: string, at: int, c: nat)
    requires Occurs(line, part, o) && OneKey(part, at) && o <= c < o + |part| && ClosesKey(line, c)
    ensures c == o + at
  {
    var k := c - o;
    PartAt(line, o, part, k);
    assert ClosesOnlyAt(part, k, at);
    if k > 0 {
      PartAt(line, o, part, k - 1);
    }
    if k + 1 < |part| {
      PartAt(line, o, part, k + 1);
    }
  }

  lemma NoKeyInSealed(line: string, o: nat, part: string, c: nat)
    requires Occurs(line, part, o) && Sealed(part) && o <= c < o + |part|
    ensures !ClosesKey(line, c)
  {
    var k := c - o;
    PartAt(line, o, part, k);
    if k > 0 {
      PartAt(line, o, part, k - 1);
    }
  }

  /** Start of every variable part of the line. */
  datatype Layout = Layout(rule: nat, file: nat, number: nat, message: nat)

  function LayoutOf(v: Violation): Layout {
    var rule := |OpenRule()|;
    var file := rule + |Escape(v.ruleId)| + |OpenFile()|;
    var number := file + |Escape(v.file)| + |OpenLine()|;
    Layout(rule, file, number, number + |Printed(v.line)| + |OpenMessage()|)
  }

  lemma Parts(v: Violation, tail: string)
    ensures var line, at := LineOf(v, tail), LayoutOf(v);
      && Occurs(line, OpenRule(), 0) && Occurs(line, Escape(v.ruleId), at.rule)
      && Occurs(line, OpenFile(), at.rule + |Escape(v.ruleId)|) && Occurs(line, Escape(v.file), at.file)
      && Occurs(line, OpenLine(), at.file + |Escape(v.file)|) && Occurs(line, Printed(v.line), at.number)
      && Occurs(line, OpenMessage(), at.number + |Printed(v.line)|) && Occurs(line, Escape(v.message), at.message)
      && Occurs(line, Close(), at.message + |Escape(v.message)|)
      && |line| == at.message + |Escape(v.message)| + |Close()| + |tail|
  {
    hide Escape, Printed, OpenRule, OpenFile, OpenLine, OpenMessage, Close, Occurs;
    var line := LineOf(v, tail);
    var toRule := OpenRule() + Escape(v.ruleId);
    var toFile := toRule + OpenFile() + Escape(v.file);
    var toNumber := toFile + OpenLine() + Printed(v.line);
    var toMessage := toNumber + OpenMessage() + Escape(v.message);
    LastPart(toMessage + Close(), tail, line);
    LastPart(toMessage, Close(), line);
    LastPart(toNumber + OpenMessage(), Escape(v.message), line);
    LastPart(toNumber, OpenMessage(), line);
    LastPart(toFile + OpenLine(), Printed(v.line), line);
    LastPart(toFile, OpenLine(), line);
    LastPart(toRule + OpenFile(), Escape(v.file), line);
    LastPart(toRule, OpenFile(), line);
    LastPart(OpenRule(), Escape(v.ruleId), line);
    LastPart("", OpenRule(), line);
    assert "" + OpenRule() == OpenRule();
  }

  lemma LastPart(x: string, part: string, line: string)
    requires x + part <= line
    ensures x <= line && Occurs(line, part, |x|)
  {
    assert line[|x|..|x| + |part|] == (x + part)[|x|..];
  }

  lemma Literals()
    ensures OneKey(OpenRule(), 10) && OpenRule()[5..] == TextKey("rule") && OpenRule()[6] == 'r'
    ensures OneKey(OpenFile(), 8) && OpenFile()[3..] == TextKey("file") && OpenFile()[4] == 'f'
    ensures OneKey(OpenLine(), 8) && OpenLine()[3..] == NumberKey("line") && OpenLine()[4] == 'l'
    ensures OneKey(OpenMessage(), 10) && OpenMessage()[2..] == TextKey("message") && OpenMessage()[6] == 's'
    ensures OneKey(Close(), -1) && OpenFile()[0] == '"' && OpenLine()[0] == '"' && Close()[0] == '"'
    ensures OpenMessage()[0] == ','
    ensures |OpenRule()| == 14 && |OpenFile()| == 12 && |OpenLine()| == 11 && |OpenMessage()| == 14 && |Close()| == 2
  {
  }

  /** No value can forge a key: only the four keys of the line close with a quote and a
      colon. The fourth character before that quote tells them apart. */
  lemma OnlyKeys(v: Violation, tail: string, c: nat)
    requires tail == "" || tail == ","
    requires ClosesKey(LineOf(v, tail), c)
    ensures var at, line := LayoutOf(v), LineOf(v, tail);
      && c >= 4
      && (|| (c == at.rule - 4 && line[c - 4] == 'r')
          || (c == at.file - 4 && line[c - 4] == 'f')
          || (c == at.number - 3 && line[c - 4] == 'l')
          || (c == at.message - 4 && line[c - 4] == 's'))
  {
    hide Escape, Printed, OpenRule, OpenFile, OpenLine, OpenMessage, Close, LineOf, ClosesKey, Sealed, OneKey, Occurs;
    var line, at := LineOf(v, tail), LayoutOf(v);
    Parts(v, tail);
    Literals();
    BeforeClose(v, tail, c);
    SealedParts(v);
    if c < at.rule {
      KeyInPart(line, 0, OpenRule(), 10, c);
      PartAt(line, 0, OpenRule(), 6);
    } else if c < at.rule + |Escape(v.ruleId)| {
      NoKeyInSealed(line, at.rule, Escape(v.ruleId), c);
    } else if c < at.file {
      KeyInPart(line, at.rule + |Escape(v.ruleId)|, OpenFile(), 8, c);
      PartAt(line, at.rule + |Escape(v.ruleId)|, OpenFile(), 4);
    } else if c < at.file + |Escape(v.file)| {
      NoKeyInSealed(line, at.file, Escape(v.file), c);
    } else if c < at.number {
      KeyInPart(line, at.file + |Escape(v.file)|, OpenLine(), 8, c);
      PartAt(line, at.file + |Escape(v.file)|, OpenLine(), 4);
    } else if c < at.number + |Printed(v.line)| {
      NoKeyInSealed(line, at.number, Printed(v.line), c);
    } else if c < at.message {
      KeyInPart(line, at.number + |Printed(v.line)|, OpenMessage(), 10, c);
      PartAt(line, at.number + |Printed(v.line)|, OpenMessage(), 6);
    } else if c < at.message + |Escape(v.message)| {
      NoKeyInSealed(line, at.message, Escape(v.message), c);
    } else {
      KeyInPart(line, at.message + |Escape(v.message)|, Close(), -1, c);
    }
  }

  /** The last character of the line, and the comma after it, close no key. */
  lemma BeforeClose(v: Violation, tail: string, c: nat)
    requires tail == "" || tail == ","
    requires ClosesKey(LineOf(v, tail), c)
    ensures c < LayoutOf(v).message + |Escape(v.message)| + |Close()|
  {
    hide Escape, Printed, OpenRule, OpenFile, OpenLine, OpenMessage, Close, LineOf, Occurs, LayoutOf;
    Parts(v, tail);
  }

  lemma SealedParts(v: Violation)
    ensures Sealed(Escape(v.ruleId)) && Sealed(Escape(v.file)) && Sealed(Escape(v.message)) && Sealed(Printed(v.line))
  {
    EscapeSealed(v.ruleId);
    EscapeSealed(v.file);
    EscapeSealed(v.message);
    PrintedSealed(v.line);
  }

  lemma PrintedSealed(n: int)
    ensures Sealed(Printed(n)) && Printed(n) != ""
  {
    DecimalDigits(if n < 0 then -n else n);
  }

  // ------------------------------------------------------------- reading a field

  /** Where a key is found, a quote closes it. */
  lemma FoundKeyCloses(line: string, key: string, p: nat)
    requires |key| >= 4 && key[|key| - 1] == 'e'
    requires Occurs(line, TextKey(key), p) || Occurs(line, NumberKey(key), p)
    ensures ClosesKey(line, p + |key| + 1) && line[p + |key| - 3] == key[|key| - 4]
  {
    var n := NumberKey(key);
    assert Occurs(line, n, p) by {
      if Occurs(line, TextKey(key), p) {
        assert TextKey(key)[..|n|] == n;
        assert line[p..p + |n|] == line[p..p + |TextKey(key)|][..|n|];
      }
    }
    PartAt(line, p, n, |key| + 1);
    PartAt(line, p, n, |key| + 2);
    PartAt(line, p, n, |key|);
    PartAt(line, p, n, |key| - 3);
    KeyShape(key);
  }

  lemma KeyShape(key: string)
    requires |key| >= 4
    ensures var n := NumberKey(key);
      && |n| == |key| + 4 && n[|key| + 1] == '"' && n[|key| + 2] == ':'
      && n[|key|] == key[|key| - 1] && n[|key| - 3] == key[|key| - 4]
  {
    var n, tail := NumberKey(key), "\": ";
    assert n == "\"" + key + tail && |tail| == 3;
    assert n[|key| + 1] == tail[0] && n[|key| + 2] == tail[1];
    assert n[|key|] == ("\"" + key)[|key|] && n[|key| - 3] == ("\"" + key)[|key| - 3];
  }

  lemma SplitAfter(line: string, o: nat, part: string)
    requires Occurs(line, part, o) && o + |part| < |line|
    ensures line[o..] == part + [line[o + |part|]] + line[o + |part| + 1..]
  {
    assert line[o..][..|part|] == part;
  }

  lemma TextAt(line: string, key: string, p: nat, s: string)
    requires Occurs(line, TextKey(key), p) && forall q: nat :: Occurs(line, TextKey(key), q) ==> q == p
    requires Occurs(line, Escape(s), p + |TextKey(key)|)
    requires p + |TextKey(key)| + |Escape(s)| < |line| && line[p + |TextKey(key)| + |Escape(s)|] == '"'
    ensures TextField(line, key) == Some(Laundered(s))
  {
    hide Escape, Unescape, Closing, Find, Occurs, TextKey;
    FindOnly(line, TextKey(key), p);
    var o := p + |TextKey(key)|;
    var rest := line[o..];
    var y := line[o + |Escape(s)| + 1..];
    SplitAfter(line, o, Escape(s));
    assert ['"'] == "\"";
    EscapedClosesAfter(s, y);
    assert rest[..|Escape(s)|] == Escape(s);
  }

  lemma NumberAt(line: string, key: string, p: nat, n: int)
    requires Occurs(line, NumberKey(key), p) && forall q: nat :: Occurs(line, NumberKey(key), q) ==> q == p
    requires Occurs(line, Printed(n), p + |NumberKey(key)|)
    requires p + |NumberKey(key)| + |Printed(n)| < |line| && !IsDigit(line[p + |NumberKey(key)| + |Printed(n)|])
    ensures NumberField(line, key) == Some(n)
  {
    hide Printed, Number, Find, Occurs, NumberKey;
    FindOnly(line, NumberKey(key), p);
    var o := p + |NumberKey(key)|;
    var y := line[o + |Printed(n)|..];
    SplitAfter(line, o, Printed(n));
    assert line[o..] == Printed(n) + y;
    NumberRoundTrip(n, y);
  }

  /** The tail of an opening part is its key. */
  lemma KeyAt(line: string, o: nat, part: string, k: nat, needle: string)
    requires Occurs(line, part, o) && k <= |part| && part[k..] == needle
    ensures Occurs(line, needle, o + k)
  {
    assert line[o + k..o + |part|] == line[o..o + |part|][k..];
  }

  lemma RuleField(v: Violation, tail: string)
    requires tail == "" || tail == ","
    ensures TextField(LineOf(v, tail), "rule") == Some(Laundered(v.ruleId))
  {
    hide Escape, Printed, OpenRule, OpenFile, OpenLine, OpenMessage, Close, LineOf, ClosesKey, Sealed, OneKey,
      Occurs, TextField, Laundered;
    var line, at := LineOf(v, tail), LayoutOf(v);
    Parts(v, tail);
    Literals();
    KeyAt(line, 0, OpenRule(), 5, TextKey("rule"));
    forall q: nat | Occurs(line, TextKey("rule"), q)
      ensures q == 5
    {
      FoundKeyCloses(line, "rule", q);
      OnlyKeys(v, tail, q + 5);
    }
    PartAt(line, at.rule + |Escape(v.ruleId)|, OpenFile(), 0);
    PartFits(line, at.rule + |Escape(v.ruleId)|, OpenFile());
    TextAt(line, "rule", 5, v.ruleId);
  }

  lemma PartFits(line: string, o: nat, part: string)
    requires Occurs(line, part, o)
    ensures o + |part| <= |line|
  {
  }

  lemma FileField(v: Violation, tail: string)
    requires tail == "" || tail == ","
    ensures TextField(LineOf(v, tail), "file") == Some(Laundered(v.file))
  {
    hide Escape, Printed, OpenRule, OpenFile, OpenLine, OpenMessage, Close, LineOf, ClosesKey, Sealed, OneKey,
      Occurs, TextField, Laundered;
    var line, at := LineOf(v, tail), LayoutOf(v);
    Parts(v, tail);
    Literals();
    var p := at.file - 9;
    KeyAt(line, p - 3, OpenFile(), 3, TextKey("file"));
    forall q: nat | Occurs(line, TextKey("file"), q)
      ensures q == p
    {
      FoundKeyCloses(line, "file", q);
      OnlyKeys(v, tail, q + 5);
    }
    PartAt(line, at.file + |Escape(v.file)|, OpenLine(), 0);
    PartFits(line, at.file + |Escape(v.file)|, OpenLine());
    TextAt(line, "file", p, v.file);
  }

  lemma LineField(v: Violation, tail: string)
    requires tail == "" || tail == ","
    ensures NumberField(LineOf(v, tail), "line") == Some(v.line)
  {
    hide Escape, Printed, OpenRule, OpenFile, OpenLine, OpenMessage, Close, LineOf, ClosesKey, Sealed, OneKey,
      Occurs, NumberField;
    var line, at := LineOf(v, tail), LayoutOf(v);
    Parts(v, tail);
    Literals();
    var p := at.number - 8;
    KeyAt(line, p - 3, OpenLine(), 3, NumberKey("line"));
    forall q: nat | Occurs(line, NumberKey("line"), q)
      ensures q == p
    {
      FoundKeyCloses(line, "line", q);
      OnlyKeys(v, tail, q + 5);
    }
    PartAt(line, at.number + |Printed(v.line)|, OpenMessage(), 0);
    PartFits(line, at.number + |Printed(v.line)|, OpenMessage());
    NumberAt(line, "line", p, v.line);
  }

  lemma MessageField(v: Violation, tail: string)
    requires tail == "" || tail == ","
    ensures TextField(LineOf(v, tail), "message") == Some(Laundered(v.message))
  {
    hide Escape, Printed, OpenRule, OpenFile, OpenLine, OpenMessage, Close, LineOf, ClosesKey, Sealed, OneKey,
      Occurs, TextField, Laundered;
    var line, at := LineOf(v, tail), LayoutOf(v);
    Parts(v, tail);
    Literals();
    var p := at.message - 12;
    KeyAt(line, p - 2, OpenMessage(), 2, TextKey("message"));
    forall q: nat | Occurs(line, TextKey("message"), q)
      ensures q == p
    {
      FoundKeyCloses(line, "message", q);
      OnlyKeys(v, tail, q + 8);
    }
    PartAt(line, at.message + |Escape(v.message)|, Close(), 0);
    PartFits(line, at.message + |Escape(v.message)|, Close());
    TextAt(line, "message", p, v.message);
  }

  /** What a violation reads back as. */
  function ReadBack(v: Violation): Violation {
    Violation(Laundered(v.ruleId), Laundered(v.file), v.line, Laundered(v.message))
  }

  /** Whatever its fields hold, a saved line yields each field's own value. */
  lemma LineRoundTrip(v: Violation, tail: string)
    requires tail == "" || tail == ","
    ensures ParseLine(LineOf(v, tail)) == Some(ReadBack(v))
  {
    hide LineOf, TextField, NumberField, Laundered;
    RuleField(v, tail);
    FileField(v, tail);
    LineField(v, tail);
    MessageField(v, tail);
  }
}
