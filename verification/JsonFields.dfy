/** Reading one field out of a line of a baseline file by searching for its key. */
module JsonFields {
  import opened Wrappers
  import opened JsonText

  // --------------------------------------------------------------------- searching

  predicate Occurs(line: string, needle: string, p: nat) {
    p + |needle| <= |line| && line[p..p + |needle|] == needle
  }

  /** The first position at which `needle` occurs. */
  function Find(line: string, needle: string, from: nat): (pos: Option<nat>)
    ensures pos.Some? ==>
      && from <= pos.value && Occurs(line, needle, pos.value)
      && forall p: nat :: from <= p < pos.value ==> !Occurs(line, needle, p)
    ensures pos.None? ==> forall p: nat :: from <= p ==> !Occurs(line, needle, p)
    decreases |line| - from
  {
    if from + |needle| > |line| then None
    else if Occurs(line, needle, from) then Some(from)
    else Find(line, needle, from + 1)
  }

  lemma FindOnly(line: string, needle: string, p: nat)
    requires Occurs(line, needle, p) && forall q: nat :: Occurs(line, needle, q) ==> q == p
    ensures Find(line, needle, 0) == Some(p)
  {
  }

  function TextKey(key: string): string {
    "\"" + key + "\": \""
  }

  function NumberKey(key: string): string {
    "\"" + key + "\": "
  }

  // ----------------------------------------------------------------------- strings

  /** Characters before the closing quote of the string that starts `x`. */
  function Closing(x: string): Option<nat> {
    if x == "" then None
    else if x[0] == '"' then Some(0)
    else
      var step := if x[0] == '\\' then 2 else 1;
      if step > |x| then None
      else
        match Closing(x[step..])
        case Some(n) => Some(step + n)
        case None => None
  }

  lemma {:induction false} ClosingInRange(x: string)
    ensures Closing(x).Some? ==> Closing(x).value < |x|
  {
    if x != "" && x[0] != '"' {
      var step := if x[0] == '\\' then 2 else 1;
      if step <= |x| {
        ClosingInRange(x[step..]);
      }
    }
  }

  function TextField(line: string, key: string): Option<string> {
    match Find(line, TextKey(key), 0)
    case None => None
    case Some(pos) =>
      var rest := line[pos + |TextKey(key)|..];
      match Closing(rest)
      case None => None
      case Some(n) => ClosingInRange(rest); Some(Unescape(rest[..n]))
  }

  /** The closing quote of the string that starts at `start`. */
  method FindClosing(line: string, start: nat) returns (end: Option<nat>)
    requires start <= |line|
    ensures end.Some? ==> start <= end.value < |line|
    ensures Closing(line[start..]) == if end.Some? then Some(end.value - start) else None
  {
    hide Closing, Further;
    ghost var rest := line[start..];
    FurtherZero(Closing(rest));
    var i := start;
    while i < |line|
      invariant start <= i
      invariant i <= |line| ==> Closing(rest) == Further(Closing(line[i..]), i - start)
      invariant i > |line| ==> Closing(rest) == None
    {
      ghost var x := line[i..];
      ClosingStep(x);
      FurtherMore(Some(0), 0, i - start);
      if line[i] == '\\' {
        if i + 2 <= |line| {
          assert x[2..] == line[i + 2..];
          FurtherMore(Closing(x[2..]), 2, i - start);
        } else {
          FurtherNone(i - start);
        }
        i := i + 1;
      } else if line[i] == '"' {
        return Some(i);
      } else {
        assert x[1..] == line[i + 1..];
        FurtherMore(Closing(x[1..]), 1, i - start);
      }
      i := i + 1;
    }
    if i == |line| {
      NothingCloses(line[i..]);
      FurtherNone(i - start);
    }
    return None;
  }

  function Further(n: Option<nat>, steps: nat): Option<nat> {
    if n.Some? then Some(n.value + steps) else None
  }

  lemma FurtherZero(n: Option<nat>)
    ensures Further(n, 0) == n
  {
  }

  lemma FurtherMore(n: Option<nat>, a: nat, b: nat)
    ensures Further(Further(n, a), b) == Further(n, a + b)
    ensures n.Some? ==> Further(n, a) == Some(n.value + a)
    ensures Further(Some(0), b) == Some(b)
  {
  }

  lemma FurtherNone(b: nat)
    ensures Further(None, b) == None
  {
  }

  lemma NothingCloses(x: string)
    requires x == ""
    ensures Closing(x) == None
  {
  }

  lemma ClosingStep(x: string)
    requires x != ""
    ensures x[0] == '"' ==> Closing(x) == Some(0)
    ensures x[0] == '\\' ==> Closing(x) == if |x| < 2 then None else Further(Closing(x[2..]), 2)
    ensures x[0] != '"' && x[0] != '\\' ==> Closing(x) == Further(Closing(x[1..]), 1)
  {
  }

  method ExtractString(line: string, key: string) returns (value: Option<string>)
    ensures value == TextField(line, key)
  {
    hide Unescape, Closing, Find, TextKey, Occurs;
    var needle := TextKey(key);
    var pos := Find(line, needle, 0);
    if pos == None {
      return None;
    }
    FoundFits(line, needle, pos.value);
    var start := pos.value + |needle|;
    var end := FindClosing(line, start);
    if end == None {
      return None;
    }
    assert line[start..][..end.value - start] == line[start..end.value];
    var text := JsonUnescape(line[start..end.value]);
    return Some(text);
  }

  lemma FoundFits(line: string, needle: string, p: nat)
    requires Occurs(line, needle, p)
    ensures p + |needle| <= |line|
  {
  }

  // ----------------------------------------------------------------------- numbers

  predicate IsDigit(c: char) {
    '0' <= c <= '9'
  }

  function DigitValue(c: char): nat {
    if IsDigit(c) then c as int - '0' as int else 0
  }

  function Value(digits: string): nat {
    if digits == "" then 0
    else
      var n := |digits| - 1;
      Value(digits[..n]) * 10 + DigitValue(digits[n])
  }

  /** Digits at the start of `x`. */
  function DigitRun(x: string): (n: nat)
    ensures n <= |x| && (forall k: nat :: k < n ==> IsDigit(x[k])) && (n < |x| ==> !IsDigit(x[n]))
  {
    if x == "" || !IsDigit(x[0]) then 0 else 1 + DigitRun(x[1..])
  }

  function Number(x: string): Option<int> {
    var neg := x != "" && x[0] == '-';
    var digits := if neg then x[1..] else x;
    var n := DigitRun(digits);
    if n == 0 then None
    else
      var v: int := Value(digits[..n]);
      Some(if neg then -v else v)
  }

  function NumberField(line: string, key: string): Option<int> {
    match Find(line, NumberKey(key), 0)
    case None => None
    case Some(pos) => Number(line[pos + |NumberKey(key)|..])
  }

  lemma RunIs(x: string, n: nat)
    requires n <= |x| && (forall k: nat :: k < n ==> IsDigit(x[k])) && (n < |x| ==> !IsDigit(x[n]))
    ensures DigitRun(x) == n
  {
  }

  method ExtractInt(line: string, key: string) returns (value: Option<int>)
    ensures value == NumberField(line, key)
  {
    hide Number, Find, NumberKey, Occurs;
    var needle := NumberKey(key);
    var pos := Find(line, needle, 0);
    if pos == None {
      return None;
    }
    FoundFits(line, needle, pos.value);
    value := ReadNumber(line, pos.value + |needle|);
  }

  method ReadNumber(line: string, from: nat) returns (value: Option<int>)
    requires from <= |line|
    ensures value == Number(line[from..])
  {
    hide DigitRun, Value;
    var neg := from < |line| && line[from] == '-';
    var start := if neg then from + 1 else from;
    assert neg ==> line[from..][1..] == line[start..];
    var n, val := ReadDigits(line, start);
    if n == 0 {
      return None;
    }
    return Some(if neg then -val else val);
  }

  /** How many digits start at `start`, and their value. */
  method ReadDigits(line: string, start: nat) returns (n: nat, val: int)
    requires start <= |line|
    ensures n == DigitRun(line[start..]) && val == Value(line[start..][..n])
  {
    hide DigitRun;
    ghost var digits := line[start..];
    n, val := 0, 0;
    while start + n < |line| && IsDigit(line[start + n])
      invariant start + n <= |line|
      invariant forall k: nat :: k < n ==> IsDigit(digits[k])
      invariant val == Value(digits[..n])
    {
      assert digits[..n + 1][..n] == digits[..n];
      assert line[start + n] == digits[n];
      val := val * 10 + (line[start + n] as int - '0' as int);
      n := n + 1;
    }
    RunIs(digits, n);
  }

  /** The accumulated value never exceeds the number read in the end. */
  lemma {:induction false} PrefixValueSmaller(digits: string, n: nat)
    requires n <= |digits|
    ensures Value(digits[..n]) <= Value(digits)
  {
    if n == |digits| {
      assert digits[..n] == digits;
    } else {
      var m := |digits| - 1;
      PrefixValueSmaller(digits[..m], n);
      assert digits[..m][..n] == digits[..n];
    }
  }

  /** Decimal digits, as a number is printed. */
  function Decimal(n: nat): string {
    var last := [('0' as int + n % 10) as char];
    if n < 10 then last else Decimal(n / 10) + last
  }

  function Printed(n: int): string {
    if n < 0 then "-" + Decimal(-n) else Decimal(n)
  }

  lemma {:induction false} DecimalDigits(n: nat)
    ensures Decimal(n) != "" && forall k: nat :: k < |Decimal(n)| ==> IsDigit(Decimal(n)[k])
  {
    if n >= 10 {
      DecimalDigits(n / 10);
    }
  }

  lemma {:induction false} DecimalValue(n: nat)
    ensures Value(Decimal(n)) == n
  {
    if n >= 10 {
      DecimalValue(n / 10);
      var d := Decimal(n);
      assert d[..|d| - 1] == Decimal(n / 10);
    }
  }

  /** A printed number reads back, whatever follows that is not a digit. */
  lemma NumberRoundTrip(n: int, rest: string)
    requires rest == "" || !('0' <= rest[0] <= '9')
    ensures Number(Printed(n) + rest) == Some(n)
  {
    hide Decimal, Value, DigitRun;
    var m := if n < 0 then -n else n;
    var x := Printed(n) + rest;
    DecimalDigits(m);
    var digits := if n < 0 then x[1..] else x;
    assert digits == Decimal(m) + rest;
    DigitsRoundTrip(m, rest);
    assert n >= 0 ==> x[0] == Decimal(m)[0] && x[0] != '-';
  }

  lemma DigitsRoundTrip(m: nat, rest: string)
    requires rest == "" || !IsDigit(rest[0])
    ensures var digits := Decimal(m) + rest;
      DigitRun(digits) > 0 && Value(digits[..DigitRun(digits)]) == m
  {
    hide Decimal, Value, DigitRun;
    DecimalDigits(m);
    DecimalValue(m);
    var d := Decimal(m);
    var digits := d + rest;
    assert forall k: nat :: k < |d| ==> digits[k] == d[k];
    RunIs(digits, |d|);
    assert digits[..|d|] == d;
  }

  // ------------------------------------------------------------- the closing quote

  lemma ClosingPlain(p: string, y: string)
    requires forall k: nat :: k < |p| ==> p[k] != '\\' && p[k] != '"'
    ensures Closing(p + y) == match Closing(y) case Some(n) => Some(|p| + n) case None => None
  {
    if p == "" {
      assert p + y == y;
    } else {
      assert (p + y)[1..] == p[1..] + y;
      ClosingPlain(p[1..], y);
    }
  }

  lemma ClosingEscape(c: char, y: string)
    requires NeedsEscape(c)
    ensures Closing(EscapeOf(c) + y) == Further(Closing(y), |EscapeOf(c)|)
  {
    hide EscapeOf, Closing;
    var u := EscapeOf(c);
    EscapeOfSealed(c);
    ClosingStep(u + y);
    assert (u + y)[2..] == u[2..] + y;
    ClosingPlain(u[2..], y);
  }

  lemma ClosingUnit(s: string, y: string)
    requires s != ""
    ensures Closing(Unit(s) + y) == Further(Closing(y), |Unit(s)|)
  {
    hide EscapeOf, SequenceLength, Closing;
    if NeedsEscape(s[0]) {
      ClosingEscape(s[0], y);
    } else {
      if Code(s[0]) >= 0x80 {
        SequenceBytes(s);
      }
      ClosingPlain(Unit(s), y);
    }
  }

  /** The quote after an escaped string is the one that closes it. */
  lemma {:induction false} EscapedClosesAfter(s: string, y: string)
    ensures Closing(Escape(s) + "\"" + y) == Some(|Escape(s)|)
  {
    hide Unit, Taken;
    if s == "" {
      assert Escape(s) + "\"" + y == "\"" + y;
    } else {
      var rest := Escape(s[Taken(s)..]);
      EscapedClosesAfter(s[Taken(s)..], y);
      ClosingUnit(s, rest + "\"" + y);
      assert Escape(s) + "\"" + y == Unit(s) + (rest + "\"" + y);
    }
  }
}
