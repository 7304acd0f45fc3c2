/** The catalogue header's plural settings: how many forms there are and the expression that picks
    one. */
module PluralHeader {
  import opened Bytes
  import opened PluralExpression
  import opened PluralMeaning

  const NEWLINE: byte := 10
  const RETURN: byte := 13
  const SEMICOLON: byte := 59

  /** "Plural-Forms:", "nplurals=" and "plural=". */
  const KEY: seq<byte> := [80, 108, 117, 114, 97, 108, 45, 70, 111, 114, 109, 115, 58]
  const COUNT: seq<byte> := [110, 112, 108, 117, 114, 97, 108, 115, 61]
  const CHOICE: seq<byte> := [112, 108, 117, 114, 97, 108, 61]

  datatype Settings = Settings(count: nat, expression: seq<byte>)

  /** Two forms, and "(n != 1)". */
  const DEFAULT: Settings := Settings(2, [OPEN, LETTER_N, BLANK, BANG, EQUALS, BLANK, 49, CLOSE])

  // ----- parse_header

  function Find(text: seq<byte>, token: seq<byte>, at: nat): (r: Option<nat>)
    ensures r.Some? ==> at <= r.value && Has(text, r.value, token)
    decreases |text| - at
  {
    if at + |token| > |text| then None
    else if Has(text, at, token) then Some(at)
    else Find(text, token, at + 1)
  }

  predicate Trails(b: byte) { b == SEMICOLON || b == BLANK || b == TAB }

  function Trimmed(s: seq<byte>): seq<byte>
  {
    if s != [] && Trails(s[|s| - 1]) then Trimmed(s[..|s| - 1]) else s
  }

  function Chomped(line: seq<byte>): seq<byte>
  {
    if line != [] && line[|line| - 1] == RETURN then line[..|line| - 1] else line
  }

  function CountIn(value: seq<byte>): nat
  {
    match Find(value, COUNT, 0)
    case None => 0
    case Some(at) =>
      var r := Digits(value, at + |COUNT|, 0);
      if r.value > 0 then r.value else 0
  }

  function OnLine(s: Settings, raw: seq<byte>): Settings
  {
    var line := Chomped(raw);
    if !Has(line, 0, KEY) then s
    else
      var value := line[|KEY|..];
      var counted := if CountIn(value) > 0 then s.(count := CountIn(value)) else s;
      match Find(value, CHOICE, 0)
      case None => counted
      case Some(at) => counted.(expression := Trimmed(value[at + |CHOICE|..]))
  }

  function LineStop(header: seq<byte>, start: nat): (stop: nat)
    requires start <= |header|
    ensures start <= stop <= |header| && NEWLINE !in header[start..stop] && (stop < |header| ==> header[stop] == NEWLINE)
    decreases |header| - start
  {
    if start == |header| || header[start] == NEWLINE then start
    else
      var stop := LineStop(header, start + 1);
      assert header[start..stop] == [header[start]] + header[start + 1..stop];
      stop
  }

  function OnHeader(s: Settings, header: seq<byte>, start: nat): Settings
    decreases |header| - start
  {
    if start >= |header| then s
    else
      var stop := LineStop(header, start);
      OnHeader(OnLine(s, header[start..stop]), header, stop + 1)
  }

  lemma {:induction false} DigitsPositive(text: seq<byte>, at: nat, value: int)
    requires at <= |text| && value >= 0
    ensures Digits(text, at, value).value >= 0
    decreases |text| - at
  {
    if at < |text| && IsDigit(text[at]) {
      DigitsPositive(text, at + 1, 10 * value + (text[at] - ZERO));
    }
  }

  method CountForms(value: seq<byte>, at: nat) returns (count: nat)
    requires at <= |value|
    ensures count == Digits(value, at, 0).value
  {
    count := 0;
    var p := at;
    while p < |value| && IsDigit(value[p])
      invariant p <= |value| && Digits(value, at, 0) == Digits(value, p, count)
      decreases |value| - p
    {
      count := count * 10 + (value[p] - ZERO);
      p := p + 1;
    }
  }

  method Trim(s: seq<byte>) returns (r: seq<byte>)
    ensures r == Trimmed(s)
  {
    r := s;
    while r != [] && Trails(r[|r| - 1])
      invariant Trimmed(s) == Trimmed(r)
    {
      r := r[..|r| - 1];
    }
  }

  /** `parse_header`. */
  method ParseHeader(header: seq<byte>) returns (s: Settings)
    ensures s == OnHeader(DEFAULT, header, 0)
  {
    hide LineStop, Digits, Find, Trimmed, Chomped;
    s := DEFAULT;
    var start := 0;
    while start < |header|
      invariant OnHeader(DEFAULT, header, 0) == OnHeader(s, header, start)
      decreases |header| - start
    {
      var stop := LineStop(header, start);
      var line := Chomped(header[start..stop]);
      ghost var before := s;
      if Has(line, 0, KEY) {
        var value := line[|KEY|..];
        var at := Find(value, COUNT, 0);
        if at.Some? {
          var count := CountForms(value, at.value + |COUNT|);
          if count > 0 {
            s := s.(count := count);
          }
        }
        at := Find(value, CHOICE, 0);
        if at.Some? {
          var expression := Trim(value[at.value + |CHOICE|..]);
          s := s.(expression := expression);
        }
      }
      assert s == OnLine(before, header[start..stop]);
      start := stop + 1;
    }
  }

  // ----- a header as it is written

  /** The line that sets them. */
  function FormsLine(count: nat, expression: seq<byte>): seq<byte>
  {
    KEY + Value(count, expression)
  }

  function Value(count: nat, expression: seq<byte>): seq<byte>
  {
    [BLANK] + COUNT + Decimal(count) + [SEMICOLON, BLANK] + CHOICE + expression + [SEMICOLON]
  }

  /** Lines with a newline behind each. */
  function Lines(lines: seq<seq<byte>>): seq<byte>
  {
    if lines == [] then [] else lines[0] + [NEWLINE] + Lines(lines[1..])
  }

  lemma {:induction false} FindIs(text: seq<byte>, token: seq<byte>, at: nat, found: nat)
    requires at <= found && Has(text, found, token) && forall j | at <= j < found :: !Has(text, j, token)
    ensures Find(text, token, at) == Some(found)
    decreases found - at
  {
    hide Has;
    assert found + |token| <= |text| by { HasFits(text, found, token); }
    if at < found {
      FindIs(text, token, at + 1, found);
    }
  }

  lemma HasFits(text: seq<byte>, at: nat, token: seq<byte>)
    requires Has(text, at, token)
    ensures at + |token| <= |text|
  {
  }

  lemma HasNot(text: seq<byte>, at: nat, token: seq<byte>, i: nat)
    requires i < |token| && at + i < |text| && text[at + i] != token[i]
    ensures !Has(text, at, token)
  {
    if at + |token| <= |text| {
      assert text[at..at + |token|][i] == text[at + i];
    }
  }

  lemma HasAt(a: seq<byte>, token: seq<byte>, b: seq<byte>)
    ensures Has(a + token + b, |a|, token)
  {
    var text := a + token + b;
    assert text[|a|..|a| + |token|] == token;
  }

  lemma ValueCount(count: nat, expression: seq<byte>)
    requires count > 0
    ensures CountIn(Value(count, expression)) == count
  {
    hide Decimal, Digits, Find;
    var v, d := Value(count, expression), Decimal(count);
    var tail := [SEMICOLON, BLANK] + CHOICE + expression + [SEMICOLON];
    assert v == [BLANK] + COUNT + (d + tail);
    HasAt([BLANK], COUNT, d + tail);
    HasNot(v, 0, COUNT, 0);
    FindIs(v, COUNT, 0, 1);
    assert v == ([BLANK] + COUNT) + d + tail;
    HasAt([BLANK] + COUNT, d, tail);
    assert v[10 + |d|] == tail[0];
    DigitsRead(v, 10, d, 0);
    DecimalFolds(count);
  }

  /** The word for the count is not taken for the word for the choice. */
  lemma ValueChoice(count: nat, expression: seq<byte>)
    ensures Find(Value(count, expression), CHOICE, 0) == Some(12 + |Decimal(count)|)
    ensures Value(count, expression)[19 + |Decimal(count)|..] == expression + [SEMICOLON]
  {
    hide Decimal, Find;
    var v, d := Value(count, expression), Decimal(count);
    var front := [BLANK] + COUNT + d + [SEMICOLON, BLANK];
    assert v == front + CHOICE + (expression + [SEMICOLON]);
    HasAt(front, CHOICE, expression + [SEMICOLON]);
    forall j | 0 <= j < |front| ensures !Has(v, j, CHOICE) {
      assert v[j] == front[j] && (10 <= j < 10 + |d| ==> front[j] == d[j - 10]);
      if j == 2 {
        HasNot(v, j, CHOICE, 6);
      } else {
        HasNot(v, j, CHOICE, 0);
      }
    }
    FindIs(v, CHOICE, 0, |front|);
    assert v[|front| + 7..] == expression + [SEMICOLON];
  }

  lemma LineRead(s: Settings, count: nat, expression: seq<byte>)
    requires count > 0 && Trimmed(expression) == expression
    ensures OnLine(s, FormsLine(count, expression)) == Settings(count, expression)
  {
    hide Find, CountIn, Value, Decimal, Trimmed;
    var line, v := FormsLine(count, expression), Value(count, expression);
    ValueEnds(count, expression);
    assert Chomped(line) == line;
    assert line[..13] == KEY && line[13..] == v;
    ValueCount(count, expression);
    ValueChoice(count, expression);
    TrimsSemicolon(expression);
  }

  lemma ValueEnds(count: nat, expression: seq<byte>)
    ensures var v := Value(count, expression); v != [] && v[|v| - 1] == SEMICOLON
  {
    hide Decimal;
  }

  lemma TrimsSemicolon(s: seq<byte>)
    ensures Trimmed(s + [SEMICOLON]) == Trimmed(s)
  {
    assert (s + [SEMICOLON])[..|s|] == s;
  }

  // ----- the whole header

  function OnLines(s: Settings, lines: seq<seq<byte>>): Settings
    decreases |lines|
  {
    if lines == [] then s else OnLines(OnLine(s, lines[0]), lines[1..])
  }

  lemma {:induction false} StopIs(header: seq<byte>, start: nat, line: seq<byte>)
    requires start + |line| < |header| && header[start..start + |line|] == line && header[start + |line|] == NEWLINE && NEWLINE !in line
    ensures LineStop(header, start) == start + |line|
    decreases |line|
  {
    if line != [] {
      assert header[start] == header[start..start + |line|][0];
      assert header[start + 1..start + |line|] == line[1..];
      StopIs(header, start + 1, line[1..]);
    }
  }

  lemma {:induction false} HeaderIsLines(s: Settings, header: seq<byte>, start: nat, lines: seq<seq<byte>>)
    requires start <= |header| && header[start..] == Lines(lines) && forall i | 0 <= i < |lines| :: NEWLINE !in lines[i]
    ensures OnHeader(s, header, start) == OnLines(s, lines)
    decreases |lines|
  {
    hide OnLine, LineStop;
    if lines != [] {
      var line, rest := lines[0], Lines(lines[1..]);
      var tail := header[start..];
      assert tail == line + [NEWLINE] + rest;
      assert header[start..start + |line|] == tail[..|line|] == line;
      assert header[start + |line|] == tail[|line|] == NEWLINE;
      StopIs(header, start, line);
      assert header[start + |line| + 1..] == tail[|line| + 1..] == rest;
      HeaderIsLines(OnLine(s, line), header, start + |line| + 1, lines[1..]);
    }
  }

  /** Whether a line leaves the settings alone. */
  predicate Other(line: seq<byte>) { !Has(Chomped(line), 0, KEY) }

  lemma {:induction false} OthersKeep(s: Settings, lines: seq<seq<byte>>)
    requires forall i | 0 <= i < |lines| :: Other(lines[i])
    ensures OnLines(s, lines) == s
    decreases |lines|
  {
    if lines != [] {
      OthersKeep(s, lines[1..]);
    }
  }

  lemma {:induction false} OneSets(s: Settings, lines: seq<seq<byte>>, i: nat, count: nat, expression: seq<byte>)
    requires i < |lines| && lines[i] == FormsLine(count, expression) && count > 0 && Trimmed(expression) == expression
    requires forall j | 0 <= j < |lines| && j != i :: Other(lines[j])
    ensures OnLines(s, lines) == Settings(count, expression)
    decreases |lines|
  {
    hide OnLine, FormsLine, Other, Trimmed;
    if i == 0 {
      LineRead(s, count, expression);
      OthersKeep(Settings(count, expression), lines[1..]);
    } else {
      OthersKeep(s, [lines[0]]);
      assert OnLines(s, [lines[0]]) == OnLines(OnLine(s, lines[0]), [lines[0]][1..]) == OnLine(s, lines[0]);
      OneSets(s, lines[1..], i - 1, count, expression);
    }
  }

  /** A header with one line for the plural forms, anywhere among others, sets what the line
      says. */
  lemma HeaderRead(lines: seq<seq<byte>>, i: nat, count: nat, expression: seq<byte>)
    requires i < |lines| && lines[i] == FormsLine(count, expression) && count > 0 && Trimmed(expression) == expression
    requires forall j | 0 <= j < |lines| && j != i :: Other(lines[j])
    requires forall j | 0 <= j < |lines| :: NEWLINE !in lines[j]
    ensures OnHeader(DEFAULT, Lines(lines), 0) == Settings(count, expression)
  {
    hide OnLine, FormsLine, Other, Trimmed, OnHeader, OnLines, Lines;
    assert Lines(lines)[0..] == Lines(lines);
    HeaderIsLines(DEFAULT, Lines(lines), 0, lines);
    OneSets(DEFAULT, lines, i, count, expression);
  }
}
