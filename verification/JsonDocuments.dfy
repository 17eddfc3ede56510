/** The saved violation baseline as a JSON document (RFC 8259, sections 2 to 7). */
module JsonDocuments {
  import opened JsonText
  import opened JsonValidity
  import opened JsonReading
  import opened JsonFields
  import opened BaselineLine
  import opened Violations
  import opened ViolationBaseline

  // ---------------------------------------------------------------------- the grammar

  datatype Json = Text(text: string) | Integer(n: int) | Array(items: Items) | Object(members: Members)

  datatype Items = NoItems | Item(first: Json, rest: Items)

  datatype Members = NoMembers | Member(name: string, value: Json, rest: Members)

  predicate Blank(s: string) {
    forall k: nat :: k < |s| ==> s[k] in " \t\n\r"
  }

  /** Digits without a needless leading zero. */
  predicate Natural(s: string) {
    s != "" && (forall k: nat :: k < |s| ==> '0' <= s[k] <= '9') && (s[0] == '0' ==> |s| == 1)
  }

  /** `s` is a string in quotes that stands for `text`. */
  ghost predicate ShowsText(s: string, text: string) {
    exists body :: StringBody(body) && Decode(body) == text && s == "\"" + body + "\""
  }

  predicate ShowsInteger(s: string, n: int) {
    if n < 0 then s != "" && s[0] == '-' && Natural(s[1..]) && Value(s[1..]) == -n
    else Natural(s) && Value(s) == n
  }

  /** `s` is a text of the value. */
  ghost predicate Shows(s: string, v: Json)
    decreases v, 0
  {
    match v
    case Text(text) => ShowsText(s, text)
    case Integer(n) => ShowsInteger(s, n)
    case Array(items) => exists inner :: s == "[" + inner + "]" && ShowsItems(inner, items)
    case Object(members) => exists inner :: s == "{" + inner + "}" && ShowsMembers(inner, members)
  }

  /** The same with blanks around it. */
  ghost predicate ShowsPadded(s: string, v: Json)
    decreases v, 1
  {
    exists before, core, after :: s == before + core + after && Blank(before) && Shows(core, v) && Blank(after)
  }

  ghost predicate ShowsItems(s: string, items: Items)
    decreases items
  {
    match items
    case NoItems => Blank(s)
    case Item(first, NoItems) => ShowsPadded(s, first)
    case Item(first, rest) => exists a, b :: s == a + "," + b && ShowsPadded(a, first) && ShowsItems(b, rest)
  }

  ghost predicate ShowsMembers(s: string, members: Members)
    decreases members
  {
    match members
    case NoMembers => Blank(s)
    case Member(name, value, NoMembers) => ShowsMember(s, name, value)
    case Member(name, value, rest) =>
      exists a, b :: s == a + "," + b && ShowsMember(a, name, value) && ShowsMembers(b, rest)
  }

  ghost predicate ShowsMember(s: string, name: string, value: Json)
    decreases value, 2
  {
    exists before, key, between, after ::
      && Blank(before) && ShowsText(key, name) && Blank(between) && ShowsPadded(after, value)
      && s == before + key + between + ":" + after
  }

  // ------------------------------------------------------------------ single values

  lemma PlainText(p: string)
    requires forall k: nat :: k < |p| ==> 0x20 <= Code(p[k]) && p[k] != '"' && p[k] != '\\'
    ensures ShowsText("\"" + p + "\"", p)
  {
    PlainBody(p, "");
    assert p + "" == p;
    DecodePlain(p, "");
  }

  lemma EscapedText(s: string)
    ensures ShowsText("\"" + Escape(s) + "\"", Mended(s))
  {
    ReaderGets(s);
  }

  lemma {:induction false} NoLeadingZero(n: nat)
    ensures Natural(Decimal(n))
    ensures n > 0 ==> Decimal(n)[0] != '0'
  {
    DecimalDigits(n);
    if n >= 10 {
      NoLeadingZero(n / 10);
    }
  }

  lemma PrintedInteger(n: int)
    ensures ShowsInteger(Printed(n), n)
  {
    hide Decimal, Value, Natural;
    var m := if n < 0 then -n else n;
    NoLeadingZero(m);
    DecimalValue(m);
  }

  lemma Padded(before: string, core: string, after: string, v: Json)
    requires Blank(before) && Blank(after) && Shows(core, v)
    ensures ShowsPadded(before + core + after, v)
  {
    hide Shows;
  }

  /** `"name": ` */
  function KeyText(before: string, name: string): string {
    before + "\"" + name + "\": "
  }

  lemma NamedValue(before: string, name: string, value: string, after: string, v: Json)
    requires Blank(before) && Blank(after) && Shows(value, v)
    requires forall k: nat :: k < |name| ==> 0x20 <= Code(name[k]) && name[k] != '"' && name[k] != '\\'
    ensures ShowsMember(KeyText(before, name) + value + after, name, v)
  {
    hide Shows, ShowsText;
    PlainText(name);
    Padded(" ", value, after, v);
    MemberParts(before, "\"" + name + "\"", " " + value + after, name, v);
    assert "\": " == "\"" + ":" + " ";
    KeyRegroups(before, "\"", name, ":", " ", value, after);
  }

  lemma KeyRegroups(before: string, q: string, name: string, colon: string, sp: string, value: string, after: string)
    ensures before + q + name + (q + colon + sp) + value + after
         == before + (q + name + q) + colon + (sp + value + after)
  {
  }

  lemma NamedLast(before: string, name: string, value: string, v: Json)
    requires Blank(before) && Shows(value, v)
    requires forall k: nat :: k < |name| ==> 0x20 <= Code(name[k]) && name[k] != '"' && name[k] != '\\'
    ensures ShowsMember(KeyText(before, name) + value, name, v)
  {
    hide Shows, KeyText;
    var none := "";
    NamedValue(before, name, value, none, v);
    assert KeyText(before, name) + value + none == KeyText(before, name) + value;
  }

  lemma MemberParts(before: string, key: string, after: string, name: string, v: Json)
    requires Blank(before) && ShowsText(key, name) && ShowsPadded(after, v)
    ensures ShowsMember(before + key + ":" + after, name, v)
  {
    hide ShowsText, ShowsPadded;
    var none := "";
    assert Blank(none) && before + key + none == before + key;
  }

  lemma MoreMembers(a: string, name: string, v: Json, b: string, rest: Members)
    requires rest.Member? && ShowsMember(a, name, v) && ShowsMembers(b, rest)
    ensures ShowsMembers(a + "," + b, Member(name, v, rest))
  {
    hide ShowsMember;
  }

  lemma MoreItems(a: string, v: Json, b: string, rest: Items)
    requires rest.Item? && ShowsPadded(a, v) && ShowsItems(b, rest)
    ensures ShowsItems(a + "," + b, Item(v, rest))
  {
    hide ShowsPadded;
  }

  // ------------------------------------------------------------------- the document

  /** One violation as a JSON object; stray bytes are U+FFFD. */
  function ViolationJson(v: Violation): Json {
    Object(Member("rule", Text(Mended(v.ruleId)),
           Member("file", Text(Mended(v.file)),
           Member("line", Integer(v.line),
           Member("message", Text(Mended(v.message)), NoMembers)))))
  }

  function ItemsOf(vs: seq<Violation>): Items {
    if vs == [] then NoItems else Item(ViolationJson(vs[0]), ItemsOf(vs[1..]))
  }

  function BaselineJson(vs: seq<Violation>): Json {
    Object(Member("version", Integer(1), Member("violations", Array(ItemsOf(vs)), NoMembers)))
  }

  function Quoted(s: string): string {
    "\"" + Escape(s) + "\""
  }

  /** The text of the object, in one line. */
  function Braced(v: Violation): string {
    "{" + (KeyText("", "rule") + Quoted(v.ruleId) + "," + (KeyText(" ", "file") + Quoted(v.file) + ","
           + (KeyText(" ", "line") + Printed(v.line) + "," + (KeyText(" ", "message") + Quoted(v.message))))) + "}"
  }

  lemma RuleLiteral()
    ensures OpenRule() == "    " + "{" + KeyText("", "rule") + "\""
  {
  }

  lemma FileLiteral()
    ensures OpenFile() == "\"" + "," + KeyText(" ", "file") + "\""
  {
  }

  lemma LineLiteral()
    ensures OpenLine() == "\"" + "," + KeyText(" ", "line")
  {
  }

  lemma MessageLiteral()
    ensures OpenMessage() == "," + KeyText(" ", "message") + "\""
  {
  }

  lemma CloseLiteral()
    ensures Close() == "\"" + "}"
  {
  }

  lemma MessageRegroups(x: string, c: string, k: string, q: string, m: string, close: string)
    ensures x + (c + k + q) + m + (q + close) == x + (c + (k + (q + m + q)) + close)
  {
  }

  lemma LineRegroups(x: string, q: string, c: string, k: string, n: string, rest: string, close: string)
    ensures x + (q + c + k) + n + (c + rest + close) == x + (q + (c + (k + n + c + rest) + close))
  {
  }

  lemma FileRegroups(x: string, q: string, c: string, k: string, f: string, rest: string, close: string)
    ensures x + (q + c + k + q) + f + (q + (c + rest + close)) == x + (q + (c + (k + (q + f + q) + c + rest) + close))
  {
  }

  lemma RuleRegroups(sp: string, open: string, k: string, q: string, r: string, c: string, rest: string,
      close: string)
    ensures (sp + open + k + q) + r + (q + (c + rest + close)) == sp + (open + (k + (q + r + q) + c + rest) + close)
  {
  }

  lemma LineIsBraced(v: Violation)
    ensures LineOf(v, "") == "    " + Braced(v)
  {
    hide Escape, Printed, KeyText, OpenRule, OpenFile, OpenLine, OpenMessage, Close;
    var r, f, n, m := Escape(v.ruleId), Escape(v.file), Printed(v.line), Escape(v.message);
    RuleLiteral();
    FileLiteral();
    LineLiteral();
    MessageLiteral();
    CloseLiteral();
    Assembled(KeyText("", "rule"), KeyText(" ", "file"), KeyText(" ", "line"), KeyText(" ", "message"), r, f, n, m,
      "    ", "{", "\"", ",", "}");
    assert LineOf(v, "") == OpenRule() + r + OpenFile() + f + OpenLine() + n + OpenMessage() + m + Close() + "";
  }

  lemma Assembled(rule: string, file: string, line: string, message: string, r: string, f: string, n: string, m: string,
      sp: string, open: string, q: string, c: string, close: string)
    ensures (sp + open + rule + q) + r + (q + c + file + q) + f + (q + c + line) + n + (c + message + q) + m
            + (q + close)
         == sp + (open + (rule + (q + r + q) + c + (file + (q + f + q) + c + (line + n + c + (message + (q + m + q)))))
                  + close)
  {
    var toRule := sp + open + rule + q;
    var toFile := toRule + r + (q + c + file + q);
    var toLine := toFile + f + (q + c + line);
    var last := message + (q + m + q);
    MessageRegroups(toLine + n, c, message, q, m, close);
    LineRegroups(toFile + f, q, c, line, n, last, close);
    FileRegroups(toRule + r, q, c, file, f, line + n + c + last, close);
    RuleRegroups(sp, open, rule, q, r, c, file + (q + f + q) + c + (line + n + c + last), close);
  }

  lemma BracedIsJson(v: Violation)
    ensures Shows(Braced(v), ViolationJson(v))
  {
    hide Escape, Printed, Mended, ShowsText, ShowsInteger, ShowsMember, KeyText;
    EscapedText(v.ruleId);
    EscapedText(v.file);
    EscapedText(v.message);
    PrintedInteger(v.line);
    NamedLast("", "rule", Quoted(v.ruleId), Text(Mended(v.ruleId)));
    NamedLast(" ", "file", Quoted(v.file), Text(Mended(v.file)));
    NamedLast(" ", "line", Printed(v.line), Integer(v.line));
    NamedLast(" ", "message", Quoted(v.message), Text(Mended(v.message)));
    FourMembers(KeyText("", "rule") + Quoted(v.ruleId), KeyText(" ", "file") + Quoted(v.file),
      KeyText(" ", "line") + Printed(v.line), KeyText(" ", "message") + Quoted(v.message), v);
  }

  lemma FourMembers(rule: string, file: string, line: string, message: string, v: Violation)
    requires ShowsMember(rule, "rule", Text(Mended(v.ruleId))) && ShowsMember(file, "file", Text(Mended(v.file)))
    requires ShowsMember(line, "line", Integer(v.line)) && ShowsMember(message, "message", Text(Mended(v.message)))
    ensures Shows("{" + (rule + "," + (file + "," + (line + "," + message))) + "}", ViolationJson(v))
  {
    hide ShowsMember, Mended;
    var m := Member("message", Text(Mended(v.message)), NoMembers);
    var l := Member("line", Integer(v.line), m);
    var f := Member("file", Text(Mended(v.file)), l);
    LastMember(message, "message", Text(Mended(v.message)));
    MoreMembers(line, "line", Integer(v.line), message, m);
    MoreMembers(file, "file", Text(Mended(v.file)), line + "," + message, l);
    MoreMembers(rule, "rule", Text(Mended(v.ruleId)), file + "," + (line + "," + message), f);
    ObjectOf(rule + "," + (file + "," + (line + "," + message)), Member("rule", Text(Mended(v.ruleId)), f));
  }

  lemma LastMember(s: string, name: string, v: Json)
    requires ShowsMember(s, name, v)
    ensures ShowsMembers(s, Member(name, v, NoMembers))
  {
    hide ShowsMember;
  }

  lemma ObjectOf(inner: string, members: Members)
    requires ShowsMembers(inner, members)
    ensures Shows("{" + inner + "}", Object(members))
  {
    hide ShowsMembers;
  }

  lemma LineMore(v: Violation)
    ensures LineOf(v, ",") == LineOf(v, "") + ","
  {
    hide Escape, Printed, OpenRule, OpenFile, OpenLine, OpenMessage, Close;
  }

  lemma {:induction false} LinesAreItems(before: string, vs: seq<Violation>)
    requires Blank(before)
    ensures ShowsItems(before + Lines(vs) + "  ", ItemsOf(vs))
    decreases |vs|
  {
    hide LineOf, Shows, ShowsItems, Braced, ViolationJson, ShowsPadded;
    if vs == [] {
      NoItemsShown(before, "  ");
    } else {
      var v, rest := vs[0], vs[1..];
      LineIsBraced(v);
      BracedIsJson(v);
      if rest == [] {
        Padded(before + "    ", Braced(v), "\n" + "  ", ViolationJson(v));
        LastLine(before, "    ", Braced(v), "\n", "  ");
        LastItem(before + "    " + Braced(v) + ("\n" + "  "), ViolationJson(v));
      } else {
        LineMore(v);
        LinesAreItems("\n", rest);
        Padded(before + "    ", Braced(v), "", ViolationJson(v));
        assert before + "    " + Braced(v) + "" == before + "    " + Braced(v);
        MoreItems(before + "    " + Braced(v), ViolationJson(v), "\n" + Lines(rest) + "  ", ItemsOf(rest));
        NextLines(before, "    ", Braced(v), ",", "\n", Lines(rest), "  ");
      }
    }
  }

  lemma NoItemsShown(before: string, after: string)
    requires Blank(before) && Blank(after)
    ensures ShowsItems(before + "" + after, NoItems)
  {
  }

  lemma LastItem(s: string, v: Json)
    requires ShowsPadded(s, v)
    ensures ShowsItems(s, Item(v, NoItems))
  {
    hide ShowsPadded;
  }

  lemma LastLine(before: string, sp: string, braced: string, nl: string, after: string)
    ensures before + (sp + braced + nl + "") + after == before + sp + braced + (nl + after)
  {
  }

  lemma NextLines(before: string, sp: string, braced: string, c: string, nl: string, rest: string, after: string)
    ensures before + (sp + braced + c + nl + rest) + after == before + sp + braced + c + (nl + rest + after)
  {
  }

  /** What is saved is one JSON object: version 1 and the violations in order, each with its
      rule, file, line and message. */
  lemma SavedIsJson(vs: seq<Violation>)
    ensures ShowsPadded(Document(vs), BaselineJson(vs))
  {
    hide Lines, ItemsOf, ShowsItems, ShowsMember, KeyText, Document, Shows;
    LinesAreItems("\n", vs);
    var inner := "\n" + Lines(vs) + "  ";
    ArrayOf(inner, ItemsOf(vs));
    NamedValue("\n  ", "violations", "[" + inner + "]", "\n", Array(ItemsOf(vs)));
    OneIsOne();
    NamedLast("\n  ", "version", "1", Integer(1));
    var a, b := KeyText("\n  ", "version") + "1", KeyText("\n  ", "violations") + ("[" + inner + "]") + "\n";
    var ms := Member("violations", Array(ItemsOf(vs)), NoMembers);
    LastMember(b, "violations", Array(ItemsOf(vs)));
    MoreMembers(a, "version", Integer(1), b, ms);
    ObjectOf(a + "," + b, Member("version", Integer(1), ms));
    Padded("", "{" + (a + "," + b) + "}", "\n", BaselineJson(vs));
    DocumentSpelled(vs);
  }

  lemma HeadLiteral()
    ensures Head() == "{" + (KeyText("\n  ", "version") + "1") + "," + KeyText("\n  ", "violations") + "[" + "\n"
  {
  }

  lemma FootLiteral()
    ensures Foot() == "  " + "]" + "\n" + "}" + "\n"
  {
  }

  lemma DocumentRegroups(open: string, version: string, c: string, key: string, bracket: string, nl: string,
      lines: string, sp: string, bracket': string, close: string)
    ensures (open + version + c + key + bracket + nl) + lines + (sp + bracket' + nl + close + nl)
         == open + (version + c + (key + (bracket + (nl + lines + sp) + bracket') + nl)) + close + nl
  {
  }

  lemma DocumentSpelled(vs: seq<Violation>)
    ensures Document(vs)
         == "" + ("{" + (KeyText("\n  ", "version") + "1" + ","
                         + (KeyText("\n  ", "violations") + ("[" + ("\n" + Lines(vs) + "  ") + "]") + "\n"))
                  + "}")
            + "\n"
  {
    hide Lines, KeyText, Head, Foot;
    HeadLiteral();
    FootLiteral();
    DocumentRegroups("{", KeyText("\n  ", "version") + "1", ",", KeyText("\n  ", "violations"), "[", "\n", Lines(vs),
      "  ", "]", "}");
    assert Document(vs) == Head() + Lines(vs) + Foot();
  }

  lemma ArrayOf(inner: string, items: Items)
    requires ShowsItems(inner, items)
    ensures Shows("[" + inner + "]", Array(items))
  {
    hide ShowsItems;
  }

  lemma OneIsOne()
    ensures Shows("1", Integer(1))
  {
    assert "1"[..0] == "";
  }
}
