/** The baseline file of known violations: written, read again, and used as a filter. */
module ViolationBaseline {
  import opened Wrappers
  import opened Violations
  import opened JsonText
  import opened JsonFields
  import opened BaselineLine
  import opened Sorting

  // ----------------------------------------------------------------------- writing

  function Open(): string { "{" }

  function Version(): string { "  \"version\": 1," }

  function ListOpen(): string { "  \"violations\": [" }

  function ListClose(): string { "  ]" }

  function End(): string { "}" }

  function Head(): string {
    Open() + "\n" + Version() + "\n" + ListOpen() + "\n"
  }

  function Foot(): string {
    ListClose() + "\n" + End() + "\n"
  }

  function Comma(more: bool): string { if more then "," else "" }

  function Lines(vs: seq<Violation>): string {
    if vs == [] then ""
    else LineOf(vs[0], Comma(|vs| > 1)) + "\n" + Lines(vs[1..])
  }

  function Document(vs: seq<Violation>): string {
    Head() + Lines(vs) + Foot()
  }

  lemma LinesNext(vs: seq<Violation>, i: nat, f: string, line: string)
    requires i < |vs| && line == LineOf(vs[i], Comma(i + 1 < |vs|))
    ensures f + line + "\n" + Lines(vs[i + 1..]) == f + Lines(vs[i..])
  {
    hide LineOf, Comma;
    var rest := vs[i..];
    assert rest[1..] == vs[i + 1..];
    assert f + line + "\n" + Lines(rest[1..]) == f + (line + "\n" + Lines(rest[1..]));
  }

  method SaveBaseline(vs: seq<Violation>) returns (f: string)
    ensures f == Document(vs)
  {
    hide Escape, Printed, OpenRule, OpenFile, OpenLine, OpenMessage, Close, Head, Foot, Lines;
    f := Head();
    var i := 0;
    assert vs[0..] == vs;
    while i < |vs|
      invariant i <= |vs| && f + Lines(vs[i..]) == Head() + Lines(vs)
    {
      var rule := JsonEscape(vs[i].ruleId);
      var file := JsonEscape(vs[i].file);
      var message := JsonEscape(vs[i].message);
      var line := OpenRule() + rule + OpenFile() + file + OpenLine() + Printed(vs[i].line)
                  + OpenMessage() + message + Close();
      if i + 1 < |vs| {
        line := line + ",";
      }
      LinesNext(vs, i, f, line);
      f := f + line;
      f := f + "\n";
      i := i + 1;
    }
    NoLines(vs, i);
    f := f + Foot();
  }

  lemma NoLines(vs: seq<Violation>, i: nat)
    requires i == |vs|
    ensures Lines(vs[i..]) == ""
  {
  }

  // ----------------------------------------------------------------------- reading

  datatype Loaded = Known(known: seq<Violation>) | NotABaseline | Malformed(lineNo: nat)

  predicate IsViolationLine(line: string) {
    |line| >= 5 && line[0] == ' ' && line[1] == ' ' && line[2] == ' ' && line[3] == ' ' && line[4] == '{'
  }

  /** Only lines that start with four spaces and a brace are read. */
  lemma ViolationLineIff(line: string)
    ensures IsViolationLine(line) <==> "    {" <= line
  {
    if IsViolationLine(line) {
      assert line[..5] == "    {";
    }
  }

  function Index(s: string, c: char): (i: nat)
    ensures i <= |s| && (i < |s| ==> s[i] == c) && c !in s[..i]
  {
    if s == "" || s[0] == c then 0 else 1 + Index(s[1..], c)
  }

  /** `loaded` with the violations read before it in front. */
  function After(known: seq<Violation>, loaded: Loaded): Loaded {
    match loaded
    case Known(vs) => Known(known + vs)
    case err => err
  }

  /** The violations of the lines of `text`, the first line being number `lineNo` + 1. */
  function ParseFrom(text: string, lineNo: nat): Loaded
    decreases |text|
  {
    if text == "" then Known([])
    else
      var n := Index(text, '\n');
      var rest := if n < |text| then text[n + 1..] else "";
      if !IsViolationLine(text[..n]) then ParseFrom(rest, lineNo + 1)
      else
        match ParseLine(text[..n])
        case None => Malformed(lineNo + 1)
        case Some(v) => After([v], ParseFrom(rest, lineNo + 1))
  }

  function Load(content: string): Loaded {
    if Find(content, "\"violations\"", 0).None? then NotABaseline else ParseFrom(content, 0)
  }

  lemma AfterStep(known: seq<Violation>, v: Violation, loaded: Loaded)
    ensures After(known, After([v], loaded)) == After(known + [v], loaded)
    ensures After([], loaded) == loaded
  {
    assert loaded.Known? ==> known + ([v] + loaded.known) == known + [v] + loaded.known;
  }

  lemma ParseStep(text: string, n: nat, rest: string, lineNo: nat)
    requires text != "" && n == Index(text, '\n') && rest == if n < |text| then text[n + 1..] else ""
    ensures ParseFrom(text, lineNo) ==
      if !IsViolationLine(text[..n]) then ParseFrom(rest, lineNo + 1)
      else
        match ParseLine(text[..n])
        case None => Malformed(lineNo + 1)
        case Some(v) => After([v], ParseFrom(rest, lineNo + 1))
  {
    hide ParseLine, IsViolationLine;
  }

  method LoadBaseline(content: string) returns (result: Loaded)
    ensures result == Load(content)
  {
    hide ParseLine, Find, IsViolationLine, ParseFrom, After;
    if Find(content, "\"violations\"", 0).None? {
      return NotABaseline;
    }
    result := ParseLines(content);
  }

  method ParseLines(content: string) returns (result: Loaded)
    ensures result == ParseFrom(content, 0)
  {
    hide ParseLine, IsViolationLine, ParseFrom;
    var known: seq<Violation> := [];
    var lineNo: nat := 0;
    var pos: nat := 0;
    assert content[0..] == content;
    while pos < |content|
      invariant pos <= |content|
      invariant ParseFrom(content, 0) == After(known, ParseFrom(content[pos..], lineNo))
    {
      ghost var text := content[pos..];
      var n := Index(content[pos..], '\n');
      var line := content[pos..pos + n];
      var next := if pos + n < |content| then pos + n + 1 else |content|;
      assert text[..n] == line;
      assert content[next..] == if n < |text| then text[n + 1..] else "";
      ParseStep(text, n, content[next..], lineNo);
      lineNo := lineNo + 1;
      if IsViolationLine(line) {
        var v := ParseViolationLine(line);
        if v == None {
          return Malformed(lineNo);
        }
        AfterStep(known, v.value, ParseFrom(content[next..], lineNo));
        known := known + [v.value];
      }
      pos := next;
    }
    assert content[pos..] == "";
    NothingParses(lineNo);
    return Known(known);
  }

  lemma NothingParses(lineNo: nat)
    ensures ParseFrom("", lineNo) == Known([])
  {
  }

  // ---------------------------------------------------------------- the round trip

  lemma {:induction false} FirstIndex(s: string, c: char, n: nat)
    requires n < |s| && s[n] == c && c !in s[..n]
    ensures Index(s, c) == n
  {
    if n > 0 {
      assert s[0] in s[..n];
      assert s[..n] == [s[0]] + s[1..][..n - 1];
      FirstIndex(s[1..], c, n - 1);
    }
  }

  lemma ParseOneLine(line: string, rest: string, lineNo: nat)
    requires '\n' !in line
    ensures ParseFrom(line + "\n" + rest, lineNo) ==
      if !IsViolationLine(line) then ParseFrom(rest, lineNo + 1)
      else
        match ParseLine(line)
        case None => Malformed(lineNo + 1)
        case Some(v) => After([v], ParseFrom(rest, lineNo + 1))
  {
    hide ParseLine, IsViolationLine;
    var s := line + "\n" + rest;
    assert s[..|line|] == line;
    FirstIndex(s, '\n', |line|);
    assert s[..|line|] == line && s[|line| + 1..] == rest;
  }

  lemma SealedHasNoBreak(s: string)
    requires Sealed(s)
    ensures '\n' !in s
  {
  }

  lemma LineHasNoBreak(v: Violation, tail: string)
    requires tail == "" || tail == ","
    ensures '\n' !in LineOf(v, tail) && IsViolationLine(LineOf(v, tail))
  {
    hide Escape, Printed, OpenRule, OpenFile, OpenLine, OpenMessage, Close, Sealed;
    SealedParts(v);
    SealedHasNoBreak(Escape(v.ruleId));
    SealedHasNoBreak(Escape(v.file));
    SealedHasNoBreak(Escape(v.message));
    SealedHasNoBreak(Printed(v.line));
    FixedPartsHaveNoBreak();
  }

  lemma FixedPartsHaveNoBreak()
    ensures '\n' !in OpenRule() && '\n' !in OpenFile() && '\n' !in OpenLine() && '\n' !in OpenMessage()
    ensures '\n' !in Close() && IsViolationLine(OpenRule())
  {
  }

  function ReadBacks(vs: seq<Violation>): (r: seq<Violation>)
    ensures |r| == |vs| && forall i: nat :: i < |vs| ==> r[i] == ReadBack(vs[i])
  {
    if vs == [] then [] else [ReadBack(vs[0])] + ReadBacks(vs[1..])
  }

  lemma FixedLines()
    ensures '\n' !in Open() && '\n' !in Version() && '\n' !in ListOpen() && '\n' !in ListClose() && '\n' !in End()
    ensures !IsViolationLine(Open()) && !IsViolationLine(Version()) && !IsViolationLine(ListOpen())
    ensures !IsViolationLine(ListClose()) && !IsViolationLine(End())
  {
  }

  lemma FootParses(lineNo: nat)
    ensures ParseFrom(Foot(), lineNo) == Known([])
  {
    hide ParseFrom, ListClose, End, IsViolationLine;
    FixedLines();
    var end := End() + "\n" + "";
    assert Foot() == ListClose() + "\n" + end;
    ParseOneLine(ListClose(), end, lineNo);
    ParseOneLine(End(), "", lineNo + 1);
    NothingParses(lineNo + 2);
  }

  lemma {:induction false} LinesParse(vs: seq<Violation>, lineNo: nat)
    ensures ParseFrom(Lines(vs) + Foot(), lineNo) == Known(ReadBacks(vs))
  {
    hide LineOf, ParseLine, Foot, ReadBack, IsViolationLine;
    if vs == [] {
      assert "" + Foot() == Foot();
      FootParses(lineNo);
    } else {
      var line := LineOf(vs[0], Comma(|vs| > 1));
      LineHasNoBreak(vs[0], Comma(|vs| > 1));
      LineRoundTrip(vs[0], Comma(|vs| > 1));
      assert Lines(vs) + Foot() == line + "\n" + (Lines(vs[1..]) + Foot());
      ParseOneLine(line, Lines(vs[1..]) + Foot(), lineNo);
      LinesParse(vs[1..], lineNo + 1);
    }
  }

  lemma HeadParses(rest: string)
    ensures ParseFrom(Head() + rest, 0) == ParseFrom(rest, 3)
  {
    hide ParseFrom, Open, Version, ListOpen, IsViolationLine;
    FixedLines();
    var list := ListOpen() + "\n" + rest;
    var version := Version() + "\n" + list;
    assert Head() + rest == Open() + "\n" + version;
    ParseOneLine(Open(), version, 0);
    ParseOneLine(Version(), list, 1);
    ParseOneLine(ListOpen(), rest, 2);
  }

  lemma HeadIsMarked(rest: string)
    ensures Find(Head() + rest, "\"violations\"", 0).Some?
  {
    assert Occurs(Head() + rest, "\"violations\"", 20);
  }

  /** A saved baseline always loads: the same violations in the same order, each text as
      the escaper lets it through. No content can break a line or forge a key. */
  lemma LoadAfterSave(vs: seq<Violation>)
    ensures Load(Document(vs)) == Known(ReadBacks(vs))
  {
    hide Head, Foot, Lines, ReadBacks, Find, ParseFrom;
    var rest := Lines(vs) + Foot();
    assert Document(vs) == Head() + rest;
    HeadIsMarked(rest);
    HeadParses(rest);
    LinesParse(vs, 3);
  }

  predicate FaithfulTexts(v: Violation) {
    Faithful(v.ruleId) && Faithful(v.file) && Faithful(v.message)
  }

  /** Loading gives back what was saved exactly when every text is faithful. */
  lemma RoundTripExactly(vs: seq<Violation>)
    ensures Load(Document(vs)) == Known(vs) <==> forall i: nat :: i < |vs| ==> FaithfulTexts(vs[i])
  {
    hide Faithful, Load, Document, Laundered;
    LoadAfterSave(vs);
    forall i: nat | i < |vs|
      ensures ReadBack(vs[i]) == vs[i] <==> FaithfulTexts(vs[i])
    {
      RoundTripIff(vs[i].ruleId);
      RoundTripIff(vs[i].file);
      RoundTripIff(vs[i].message);
    }
    var back := ReadBacks(vs);
    if back == vs {
      assert forall i: nat :: i < |vs| ==> back[i] == vs[i];
    } else {
      assert exists i: nat :: i < |vs| && back[i] != vs[i];
    }
  }

  // --------------------------------------------------------------------- filtering

  function Key(v: Violation): (string, string, int) {
    (v.ruleId, v.file, v.line)
  }

  /** The baseline has a violation of the same rule, in the same file, on the same line. */
  predicate IsKnown(v: Violation, known: seq<Violation>) {
    exists i: nat ::
      i < |known| && known[i].ruleId == v.ruleId && known[i].file == v.file && known[i].line == v.line
  }

  lemma KnownByKey(known: set<(string, string, int)>, baseline: seq<Violation>, v: Violation)
    requires forall k :: k in known <==> exists j: nat :: j < |baseline| && Key(baseline[j]) == k
    ensures Key(v) in known <==> IsKnown(v, baseline)
  {
    if IsKnown(v, baseline) {
      var i: nat :|
        i < |baseline| && baseline[i].ruleId == v.ruleId && baseline[i].file == v.file && baseline[i].line == v.line;
      assert Key(baseline[i]) == Key(v);
    }
  }

  lemma NothingFiltered(keep: Violation -> bool, s: seq<Violation>)
    requires s == []
    ensures Filter(keep, s) == []
  {
  }

  /** Keeps, in order, the violations with no known one of the same rule, file and line. */
  method FilterNew(all: seq<Violation>, baseline: seq<Violation>) returns (result: seq<Violation>)
    ensures result == Filter(v => !IsKnown(v, baseline), all)
  {
    hide IsKnown, Filter;
    ghost var unseen := v => !IsKnown(v, baseline);
    assert Filter(unseen, all[..0]) == [] by { NothingFiltered(unseen, all[..0]); }
    var known: set<(string, string, int)> := {};
    var i := 0;
    while i < |baseline|
      invariant i <= |baseline|
      invariant forall k :: k in known <==> exists j: nat :: j < i && Key(baseline[j]) == k
    {
      known := known + {Key(baseline[i])};
      i := i + 1;
    }
    result := [];
    i := 0;
    while i < |all|
      invariant i <= |all| && result == Filter(unseen, all[..i])
    {
      FilterNext(unseen, all, i);
      KnownByKey(known, baseline, all[i]);
      if Key(all[i]) !in known {
        result := result + [all[i]];
      }
      i := i + 1;
    }
    assert all[..i] == all;
  }

  /** One violation hides another only on the same line of the same file for the same rule,
      and then whatever the messages. */
  lemma OnlySameSiteHides(v: Violation, b: Violation)
    ensures Filter(w => !IsKnown(w, [b]), [v])
         == if v.ruleId == b.ruleId && v.file == b.file && v.line == b.line then [] else [v]
  {
    assert [b][0] == b && [v][1..] == [];
  }

  predicate FaithfulKey(v: Violation) {
    Faithful(v.ruleId) && Faithful(v.file)
  }

  /** A saved violation is known after save and load exactly when its rule and its file are
      faithful text, whatever its message and whatever else was saved. */
  lemma SavedIsKnownIff(all: seq<Violation>, i: nat)
    requires i < |all|
    ensures IsKnown(all[i], ReadBacks(all)) <==> FaithfulKey(all[i])
  {
    hide Faithful, Laundered;
    var back, v := ReadBacks(all), all[i];
    if FaithfulKey(v) {
      RoundTripIff(v.ruleId);
      RoundTripIff(v.file);
      assert back[i].ruleId == v.ruleId && back[i].file == v.file && back[i].line == v.line;
    } else if IsKnown(v, back) {
      var j: nat :| j < |back| && back[j].ruleId == v.ruleId && back[j].file == v.file && back[j].line == v.line;
      assert back[j] == ReadBack(all[j]);
      LaunderedIsFaithful(all[j].ruleId);
      LaunderedIsFaithful(all[j].file);
      assert false;
    }
  }

  lemma {:induction false} FilterEmptyIff<T(!new)>(p: T -> bool, s: seq<T>)
    ensures Filter(p, s) == [] <==> forall i: nat :: i < |s| ==> !p(s[i])
  {
    if s != [] {
      FilterEmptyIff(p, s[1..]);
      assert forall i: nat :: 0 < i < |s| ==> s[i] == s[1..][i - 1];
      assert forall i: nat :: i < |s| - 1 ==> s[1..][i] == s[i + 1];
    }
  }

  /** The violations that are new against the baseline just saved from them are exactly those
      whose rule or file is no faithful text; so none is new iff all of these are faithful. */
  lemma NothingSavedIsNewIff(all: seq<Violation>)
    ensures Load(Document(all)).Known?
    ensures var unknown := Filter(v => !IsKnown(v, Load(Document(all)).known), all);
      && unknown == Filter(v => !FaithfulKey(v), all)
      && (unknown == [] <==> forall i: nat :: i < |all| ==> FaithfulKey(all[i]))
  {
    hide FaithfulKey, Load, Document, IsKnown;
    LoadAfterSave(all);
    var back := ReadBacks(all);
    forall v | v in all
      ensures IsKnown(v, back) == FaithfulKey(v)
    {
      var i: nat :| i < |all| && all[i] == v;
      SavedIsKnownIff(all, i);
    }
    FilterSame(v => !IsKnown(v, back), v => !FaithfulKey(v), all);
    FilterEmptyIff(v => !FaithfulKey(v), all);
  }

  /** A tab in a file name comes back as the letter t: the violation just saved is new. */
  lemma TabIsNew(rule: string, message: string, line: int)
    ensures var v := Violation(rule, "a\tb", line, message);
      Load(Document([v])).Known? && Filter(w => !IsKnown(w, Load(Document([v])).known), [v]) == [v]
  {
    hide Faithful, Load, Document, IsKnown;
    var v := Violation(rule, "a\tb", line, message);
    assert !Faithful(v.file) by { TabIsLost(); }
    NothingSavedIsNewIff([v]);
    assert [v][1..] == [];
  }

  lemma TabIsLost()
    ensures !Faithful("a\tb")
  {
    assert "a\tb"[1..] == "\tb";
    assert !Survives("\tb");
  }
}
