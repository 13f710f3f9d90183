/**
 Byte offsets and the line-and-column positions of an editor
 (crates/lib/mrs-asm/src/span.rs:112-187, crates/lib/mrs-lsp/src/encoding.rs:66-165).
 */
module Positions {
  import opened Words
  import opened Syntax

  // ----- characters as bytes and as code units -----

  datatype Encoding = Utf8 | Utf16 | Utf32 {
    /** How many code units a character takes. */
    function Width(c: char): (w: nat)
      ensures 1 <= w <= 4
    {
      match this
      case Utf8 => if c as int < 0x80 then 1 else if c as int < 0x800 then 2 else if c as int < 0x1_0000 then 3 else 4
      case Utf16 => if c as int < 0x1_0000 then 1 else 2
      case Utf32 => 1
    }

    function Measure(text: string): nat {
      if text == [] then 0 else Width(text[0]) + Measure(text[1..])
    }
  }

  type Byte = b: int | 0 <= b < 0x100

  /** The UTF-8 form of a character. */
  function Utf8Bytes(c: char): (bytes: seq<Byte>)
    ensures |bytes| == Utf8.Width(c)
    ensures 10 in bytes <==> c == '\n'
  {
    var v := c as int;
    if v < 0x80 then [v]
    else if v < 0x800 then [0xC0 + v / 0x40, 0x80 + v % 0x40]
    else if v < 0x1_0000 then [0xE0 + v / 0x1000, 0x80 + v / 0x40 % 0x40, 0x80 + v % 0x40]
    else [0xF0 + v / 0x4_0000, 0x80 + v / 0x1000 % 0x40, 0x80 + v / 0x40 % 0x40, 0x80 + v % 0x40]
  }

  function Bytes(text: string): (bytes: seq<Byte>)
    ensures |bytes| == Utf8.Measure(text)
  {
    if text == [] then [] else Utf8Bytes(text[0]) + Bytes(text[1..])
  }

  lemma {:induction false} MeasureSplit(e: Encoding, a: string, b: string)
    ensures e.Measure(a + b) == e.Measure(a) + e.Measure(b)
    decreases |a|
  {
    if a == [] {
      assert a + b == b;
    } else {
      MeasureSplit(e, a[1..], b);
      assert (a + b)[1..] == a[1..] + b;
    }
  }

  /** Longer prefixes measure strictly more. */
  lemma PrefixGrows(e: Encoding, text: string, i: nat, j: nat)
    requires i <= j <= |text|
    ensures e.Measure(text[..j]) == e.Measure(text[..i]) + e.Measure(text[i..j])
    ensures i < j ==> e.Measure(text[..i]) < e.Measure(text[..j])
  {
    assert text[..j] == text[..i] + text[i..j];
    MeasureSplit(e, text[..i], text[i..j]);
  }

  /** The byte offset of a character. */
  function ByteOffset(source: string, i: nat): nat
    requires i <= |source|
  {
    Utf8.Measure(source[..i])
  }

  /** The character that starts at a byte offset, or nothing inside a character. */
  function CharIndex(source: string, byte: nat): (i: Option<nat>)
    ensures i.Some? ==> i.value <= |source|
  {
    if byte == 0 then Some(0)
    else if source == [] || byte < Utf8.Width(source[0]) then None
    else
      match CharIndex(source[1..], byte - Utf8.Width(source[0]))
      case Some(i) => Some(i + 1)
      case None => None
  }

  lemma {:induction false} CharIndexOfOffset(source: string, i: nat)
    requires i <= |source|
    ensures CharIndex(source, ByteOffset(source, i)) == Some(i)
    decreases i
  {
    if i > 0 {
      assert source[..i][1..] == source[1..][..i - 1];
      CharIndexOfOffset(source[1..], i - 1);
    }
  }

  /** `str::get` with a byte range: nothing unless both ends are character boundaries in order. */
  function Text(source: string, start: nat, end: nat): Option<string> {
    var i, j := CharIndex(source, start), CharIndex(source, end);
    if i.Some? && j.Some? && i.value <= j.value then Some(source[i.value..j.value]) else None
  }

  // ----- where lines start -----

  datatype LineIndex = LineIndex(starts: seq<nat>, length: nat) {
    predicate Ok() {
      starts != [] && starts[0] == 0 && forall i, j :: 0 <= i < j < |starts| ==> starts[i] < starts[j]
    }

    function LineStart(line: nat): Option<nat> {
      if line < |starts| then Some(starts[line]) else None
    }

    function LineEnd(line: nat): Option<nat>
      requires Ok()
    {
      if line >= |starts| then None
      else if line + 1 < |starts| then Some(starts[line + 1] - 1)
      else Some(length)
    }

    /** The last line that starts at or before the offset: the next one, and so every later one, starts after it. */
    function LineOf(offset: nat): (line: nat)
      requires Ok()
      ensures line < |starts| && starts[line] <= offset
      ensures line + 1 < |starts| ==> offset < starts[line + 1]
    {
      Search(offset, |starts| - 1)
    }

    function Search(offset: nat, line: nat): (r: nat)
      requires Ok() && line < |starts| && (line + 1 < |starts| ==> offset < starts[line + 1])
      ensures r < |starts| && starts[r] <= offset
      ensures r + 1 < |starts| ==> offset < starts[r + 1]
    {
      if starts[line] <= offset then line else Search(offset, line - 1)
    }
  }

  /** The offset of each line, as the parser's running base counts them. */
  function Starts(lines: seq<string>, base: nat): (starts: seq<nat>)
    requires lines != []
    ensures |starts| == |lines| && starts[0] == base
    decreases |lines|
  {
    if |lines| == 1 then [base] else [base] + Starts(lines[1..], base + Utf8.Measure(lines[0]) + 1)
  }

  lemma {:induction false} StartsAscend(lines: seq<string>, base: nat)
    requires lines != []
    ensures forall i, j :: 0 <= i < j < |lines| ==> Starts(lines, base)[i] < Starts(lines, base)[j]
    decreases |lines|
  {
    if |lines| > 1 {
      var next := base + Utf8.Measure(lines[0]) + 1;
      var starts, rest := Starts(lines, base), Starts(lines[1..], next);
      StartsAscend(lines[1..], next);
      forall i, j | 0 <= i < j < |lines|
        ensures starts[i] < starts[j]
      {
        assert starts[j] == rest[j - 1] && (j > 1 ==> rest[0] < rest[j - 1]);
        if i > 0 {
          assert starts[i] == rest[i - 1];
        }
      }
    }
  }

  /** One past each newline byte. */
  function AfterNewlines(bytes: seq<Byte>, base: nat): seq<nat>
    decreases |bytes|
  {
    if bytes == [] then []
    else AfterNewlines(bytes[..|bytes| - 1], base) + if bytes[|bytes| - 1] == 10 then [base + |bytes|] else []
  }

  lemma {:induction false} AfterNewlinesSplit(a: seq<Byte>, b: seq<Byte>, base: nat)
    ensures AfterNewlines(a + b, base) == AfterNewlines(a, base) + AfterNewlines(b, base + |a|)
    decreases |b|
  {
    if b == [] {
      assert a + b == a && AfterNewlines(a, base) + [] == AfterNewlines(a, base);
    } else {
      var init := b[..|b| - 1];
      AfterNewlinesSplit(a, init, base);
      assert (a + b)[..|a + b| - 1] == a + init;
      var last := if b[|b| - 1] == 10 then [base + |a| + |b|] else [];
      Regroup(AfterNewlines(a, base), AfterNewlines(init, base + |a|), last);
    }
  }

  lemma {:induction false} NoNewlines(bytes: seq<Byte>, base: nat)
    requires 10 !in bytes
    ensures AfterNewlines(bytes, base) == []
    decreases |bytes|
  {
    if bytes != [] {
      NoNewlines(bytes[..|bytes| - 1], base);
    }
  }

  lemma {:induction false} BytesSplit(a: string, b: string)
    ensures Bytes(a + b) == Bytes(a) + Bytes(b)
    decreases |a|
  {
    if a == [] {
      assert a + b == b;
    } else {
      BytesSplit(a[1..], b);
      assert (a + b)[1..] == a[1..] + b;
      Regroup(Utf8Bytes(a[0]), Bytes(a[1..]), Bytes(b));
    }
  }

  lemma {:induction false} UnbrokenBytes(line: string)
    requires Unbroken(line)
    ensures 10 !in Bytes(line)
    decreases |line|
  {
    if line != [] {
      assert line[0] in line;
      UnbrokenBytes(line[1..]);
    }
  }

  lemma OnlyLast(first: seq<Byte>, base: nat)
    requires 10 !in first
    ensures AfterNewlines(first + [10], base) == [base + |first| + 1]
  {
    NoNewlines(first, base);
    assert (first + [10])[..|first|] == first;
  }

  lemma OneLine(first: seq<Byte>, rest: seq<Byte>, base: nat)
    requires 10 !in first
    ensures AfterNewlines(first + [10] + rest, base)
         == [base + |first| + 1] + AfterNewlines(rest, base + |first| + 1)
  {
    OnlyLast(first, base);
    AfterNewlinesSplit(first + [10], rest, base);
  }

  lemma BytesOfLine(line: string)
    ensures Bytes(line + ['\n']) == Bytes(line) + [10] && Utf8.Measure(line + ['\n']) == Utf8.Measure(line) + 1
  {
    BytesSplit(line, ['\n']);
    assert Bytes(['\n']) == [10];
  }

  lemma OneLineOfBytes(line: string, rest: string, base: nat)
    requires Unbroken(line)
    ensures var next := base + Utf8.Measure(line) + 1;
      AfterNewlines(Bytes(line + ['\n'] + rest), base) == [next] + AfterNewlines(Bytes(rest), next)
  {
    UnbrokenBytes(line);
    BytesOfLine(line);
    BytesSplit(line + ['\n'], rest);
    OneLine(Bytes(line), Bytes(rest), base);
  }

  lemma MoreNewlines(lines: seq<string>, base: nat)
    requires |lines| > 1 && Unbroken(lines[0])
    ensures var next := base + Utf8.Measure(lines[0]) + 1;
      AfterNewlines(Bytes(Join(lines)), base) == [next] + AfterNewlines(Bytes(Join(lines[1..])), next)
  {
    OneLineOfBytes(lines[0], Join(lines[1..]), base);
  }

  lemma MoreStarts(lines: seq<string>, base: nat)
    requires |lines| > 1
    ensures Starts(lines, base) == [base] + Starts(lines[1..], base + Utf8.Measure(lines[0]) + 1)
  {
  }

  /** Scanning bytes for newlines finds the parser's bases. */
  lemma {:induction false} NewlinesStartLines(lines: seq<string>, base: nat)
    requires lines != [] && forall l :: l in lines ==> Unbroken(l)
    ensures [base] + AfterNewlines(Bytes(Join(lines)), base) == Starts(lines, base)
    decreases |lines|
  {
    assert Unbroken(lines[0]);
    if |lines| > 1 {
      MoreNewlines(lines, base);
      NewlinesStartLines(lines[1..], base + Utf8.Measure(lines[0]) + 1);
      MoreStarts(lines, base);
    } else {
      UnbrokenBytes(lines[0]);
      NoNewlines(Bytes(lines[0]), base);
    }
  }

  /** Indexes a source file in one pass over its bytes. */
  method NewLineIndex(source: string) returns (index: LineIndex)
    ensures index.Ok()
    ensures index == LineIndex(Starts(Lines(source), 0), Utf8.Measure(source))
  {
    var bytes := Bytes(source);
    var starts: seq<nat> := [0];
    for offset := 0 to |bytes|
      invariant starts == [0] + AfterNewlines(bytes[..offset], 0)
    {
      var seen := bytes[..offset + 1];
      assert seen[..offset] == bytes[..offset];
      if bytes[offset] == 10 {
        starts := starts + [offset + 1];
      }
    }
    assert bytes[..|bytes|] == bytes;
    JoinLines(source);
    NewlinesStartLines(Lines(source), 0);
    StartsAscend(Lines(source), 0);
    index := LineIndex(starts, |bytes|);
  }

  // ----- positions -----

  datatype Position = Position(line: nat, character: nat) {
    predicate Before(other: Position) {
      line < other.line || (line == other.line && character < other.character)
    }
  }

  /** The first character at or past a column, or the end of the line. */
  function Column(e: Encoding, line: string, column: nat, i: nat): (r: nat)
    requires i <= |line|
    ensures i <= r <= |line|
    ensures r < |line| ==> column <= e.Measure(line[..r])
    decreases |line| - i
  {
    if i == |line| || column <= e.Measure(line[..i]) then i else Column(e, line, column, i + 1)
  }

  lemma {:induction false} BeforeColumn(e: Encoding, line: string, column: nat, i: nat, j: nat)
    requires i <= |line| && i <= j < Column(e, line, column, i)
    ensures e.Measure(line[..j]) < column
    decreases j - i
  {
    if i < j {
      BeforeColumn(e, line, column, i + 1, j);
    }
  }

  /** A document as the converter sees it. */
  datatype Converter = Converter(source: string, lines: LineIndex, encoding: Encoding) {
    /** `Positions::position`. */
    function PositionOf(offset: nat): Position
      requires lines.Ok()
    {
      var line := lines.LineOf(offset);
      var prefix := Text(source, lines.starts[line], offset);
      Position(line, encoding.Measure(if prefix.Some? then prefix.value else ""))
    }

    /** `Positions::offset`. */
    function OffsetOf(position: Position): Option<nat>
      requires lines.Ok()
    {
      if position.line >= |lines.starts| then None
      else
        var start, end := lines.starts[position.line], lines.LineEnd(position.line).value;
        match Text(source, start, end)
        case None => None
        case Some(line) =>
          var i := Column(encoding, line, position.character, 0);
          Some(if i == |line| then end else start + Utf8.Measure(line[..i]))
    }

    method FindOffset(position: Position) returns (offset: Option<nat>)
      requires lines.Ok()
      ensures offset == OffsetOf(position)
    {
      var start, end := lines.LineStart(position.line), lines.LineEnd(position.line);
      if start.None? || end.None? {
        return None;
      }
      var line := Text(source, start.value, end.value);
      if line.None? {
        return None;
      }
      var byte := SearchColumn(encoding, line.value, position.character);
      offset := Some(if byte.Some? then start.value + byte.value else end.value);
    }
  }

  /** The converter of a source, with the index `NewLineIndex` builds. */
  function ConverterOf(source: string, e: Encoding): (c: Converter)
    ensures c.lines.Ok()
  {
    StartsAscend(Lines(source), 0);
    Converter(source, LineIndex(Starts(Lines(source), 0), Utf8.Measure(source)), e)
  }

  /** The column search: the byte at which the column is reached, or nothing on this line. */
  method SearchColumn(e: Encoding, line: string, column: nat) returns (offset: Option<nat>)
    ensures var i := Column(e, line, column, 0);
      offset == if i == |line| then None else Some(Utf8.Measure(line[..i]))
  {
    var units, byte := 0, 0;
    for i := 0 to |line|
      invariant units == e.Measure(line[..i]) && byte == Utf8.Measure(line[..i])
      invariant Column(e, line, column, 0) == Column(e, line, column, i)
    {
      if units >= column {
        return Some(byte);
      }
      assert line[..i + 1] == line[..i] + [line[i]];
      MeasureSplit(e, line[..i], [line[i]]);
      MeasureSplit(Utf8, line[..i], [line[i]]);
      units := units + e.Width(line[i]);
      byte := byte + Utf8.Width(line[i]);
    }
    return None;
  }

  // ----- where the text of a line is -----

  /** The index of the first character of a line. */
  function CharStart(lines: seq<string>, k: nat): nat
    requires k < |lines|
  {
    if k == 0 then 0 else |lines[0]| + 1 + CharStart(lines[1..], k - 1)
  }

  /** The line, `from` characters and `start` bytes into the text. */
  ghost predicate Stands(s: string, line: string, from: nat, start: nat) {
    from + |line| <= |s| && s[from..from + |line|] == line && ByteOffset(s, from) == start
  }

  lemma OffsetAfter(text: string, head: string, rest: string, i: nat, at: nat)
    requires text == head + rest && i <= |rest| && at == |head| + i
    ensures ByteOffset(text, at) == Utf8.Measure(head) + ByteOffset(rest, i)
  {
    assert text[..at] == head + rest[..i];
    MeasureSplit(Utf8, head, rest[..i]);
  }

  lemma SliceAfter(text: string, head: string, rest: string, from: nat, end: nat, at: nat, past: nat)
    requires text == head + rest && from <= end <= |rest| && at == |head| + from && past == |head| + end
    ensures past <= |text| && text[at..past] == rest[from..end]
  {
  }

  lemma LaterLine(text: string, head: string, rest: string, line: string, from: nat, start: nat, at: nat)
    requires text == head + rest && Stands(rest, line, from, start) && at == |head| + from
    ensures Stands(text, line, at, Utf8.Measure(head) + start)
  {
    OffsetAfter(text, head, rest, from, at);
    SliceAfter(text, head, rest, from, from + |line|, at, at + |line|);
  }

  /** Line `k` stands where it should, in characters and in bytes, and ends at a newline or at the end. */
  ghost predicate LineInPlace(lines: seq<string>, k: nat, base: nat)
    requires k < |lines|
  {
    var from, start, n := CharStart(lines, k), Starts(lines, base)[k], Utf8.Measure(lines[k]);
    && base <= start
    && Stands(Join(lines), lines[k], from, start - base)
    && (k + 1 < |lines| ==>
          from + |lines[k]| + 1 == CharStart(lines, k + 1) && start + n + 1 == Starts(lines, base)[k + 1])
    && (k + 1 == |lines| ==> from + |lines[k]| == |Join(lines)| && start + n == base + Utf8.Measure(Join(lines)))
  }

  lemma FirstStands(lines: seq<string>)
    requires lines != []
    ensures Stands(Join(lines), lines[0], 0, 0)
  {
    var s := Join(lines);
    assert s[..0] == [] && s[0..0 + |lines[0]|] == lines[0];
  }

  lemma LaterStands(lines: seq<string>, k: nat, start: nat)
    requires 0 < k < |lines| && Stands(Join(lines[1..]), lines[k], CharStart(lines[1..], k - 1), start)
    ensures Stands(Join(lines), lines[k], CharStart(lines, k), Utf8.Measure(lines[0]) + 1 + start)
  {
    var head := lines[0] + ['\n'];
    BytesOfLine(lines[0]);
    LaterLine(
      Join(lines), head, Join(lines[1..]), lines[k], CharStart(lines[1..], k - 1), start, CharStart(lines, k));
  }

  lemma {:induction false} TextStands(lines: seq<string>, k: nat, base: nat)
    requires k < |lines|
    ensures base <= Starts(lines, base)[k]
    ensures Stands(Join(lines), lines[k], CharStart(lines, k), Starts(lines, base)[k] - base)
    decreases |lines|
  {
    if k == 0 {
      FirstStands(lines);
    } else {
      var next := base + Utf8.Measure(lines[0]) + 1;
      TextStands(lines[1..], k - 1, next);
      LaterStands(lines, k, Starts(lines[1..], next)[k - 1] - next);
    }
  }

  lemma {:induction false} NextStart(lines: seq<string>, k: nat, base: nat)
    requires k + 1 < |lines|
    ensures CharStart(lines, k) + |lines[k]| + 1 == CharStart(lines, k + 1)
    ensures Starts(lines, base)[k] + Utf8.Measure(lines[k]) + 1 == Starts(lines, base)[k + 1]
    decreases |lines|
  {
    if k > 0 {
      NextStart(lines[1..], k - 1, base + Utf8.Measure(lines[0]) + 1);
    } else {
      assert CharStart(lines[1..], 0) == 0;
    }
  }

  lemma JoinMeasure(lines: seq<string>)
    requires |lines| > 1
    ensures Utf8.Measure(Join(lines)) == Utf8.Measure(lines[0]) + 1 + Utf8.Measure(Join(lines[1..]))
    ensures |Join(lines)| == |lines[0]| + 1 + |Join(lines[1..])|
  {
    BytesOfLine(lines[0]);
    MeasureSplit(Utf8, lines[0] + ['\n'], Join(lines[1..]));
  }

  lemma {:induction false} LastEnds(lines: seq<string>, base: nat)
    requires lines != []
    ensures var k := |lines| - 1;
      && CharStart(lines, k) + |lines[k]| == |Join(lines)|
      && Starts(lines, base)[k] + Utf8.Measure(lines[k]) == base + Utf8.Measure(Join(lines))
    decreases |lines|
  {
    if |lines| > 1 {
      LastEnds(lines[1..], base + Utf8.Measure(lines[0]) + 1);
      JoinMeasure(lines);
    }
  }

  lemma LineStands(lines: seq<string>, k: nat, base: nat)
    requires k < |lines|
    ensures LineInPlace(lines, k, base)
  {
    TextStands(lines, k, base);
    if k + 1 < |lines| {
      NextStart(lines, k, base);
    } else {
      LastEnds(lines, base);
    }
  }

  /** Every character boundary is on some line. */
  lemma {:induction false} OnSomeLine(lines: seq<string>, i: nat) returns (k: nat, j: nat)
    requires lines != [] && i <= |Join(lines)|
    ensures k < |lines| && j <= |lines[k]| && i == CharStart(lines, k) + j
    decreases |lines|
  {
    if i <= |lines[0]| {
      k, j := 0, i;
    } else {
      k, j := OnSomeLine(lines[1..], i - |lines[0]| - 1);
      k := k + 1;
    }
  }

  // ----- the round trip -----

  /** Line `k` of the document is this one, `from` characters into the text. */
  ghost predicate LineAt(c: Converter, k: nat, line: string, from: nat) {
    && c.lines.Ok() && k < |c.lines.starts|
    && Stands(c.source, line, from, c.lines.starts[k])
    && c.lines.LineEnd(k) == Some(c.lines.starts[k] + Utf8.Measure(line))
    && (k + 1 < |c.lines.starts| ==> c.lines.starts[k] + Utf8.Measure(line) + 1 == c.lines.starts[k + 1])
  }

  lemma LinesAt(source: string, e: Encoding, k: nat)
    requires k < |Lines(source)|
    ensures LineAt(ConverterOf(source, e), k, Lines(source)[k], CharStart(Lines(source), k))
  {
    JoinLines(source);
    InPlaceIsAt(source, Lines(source), e, k);
  }

  lemma InPlaceIsAt(source: string, lines: seq<string>, e: Encoding, k: nat)
    requires k < |lines| && source == Join(lines)
    ensures LineAt(Converter(source, LineIndex(Starts(lines, 0), Utf8.Measure(source)), e), k, lines[k], CharStart(lines, k))
  {
    LineStands(lines, k, 0);
    StartsAscend(lines, 0);
    AtIndex(Converter(source, LineIndex(Starts(lines, 0), Utf8.Measure(source)), e), k, lines[k], CharStart(lines, k));
  }

  lemma AtIndex(c: Converter, k: nat, line: string, from: nat)
    requires c.lines.Ok() && k < |c.lines.starts| && Stands(c.source, line, from, c.lines.starts[k])
    requires var end := c.lines.starts[k] + Utf8.Measure(line);
      if k + 1 < |c.lines.starts| then end + 1 == c.lines.starts[k + 1] else end == c.lines.length
    ensures LineAt(c, k, line, from)
  {
  }

  lemma StandsAt(s: string, line: string, from: nat, start: nat, j: nat)
    requires Stands(s, line, from, start) && j <= |line|
    ensures from + j <= |s| && ByteOffset(s, from + j) == start + Utf8.Measure(line[..j])
    ensures Text(s, start, start + Utf8.Measure(line[..j])) == Some(line[..j])
  {
    assert s[..from + j] == s[..from] + line[..j];
    MeasureSplit(Utf8, s[..from], line[..j]);
    CharIndexOfOffset(s, from);
    CharIndexOfOffset(s, from + j);
    assert s[from..from + j] == line[..j];
  }

  /** The line of an offset is the one it lies on. */
  lemma LineFound(index: LineIndex, k: nat, offset: nat)
    requires index.Ok() && k < |index.starts| && index.starts[k] <= offset
    requires k + 1 < |index.starts| ==> offset < index.starts[k + 1]
    ensures index.LineOf(offset) == k
  {
  }

  lemma PositionIs(c: Converter, offset: nat, k: nat, text: string)
    requires c.lines.Ok() && k < |c.lines.starts| && c.lines.LineOf(offset) == k
    requires Text(c.source, c.lines.starts[k], offset) == Some(text)
    ensures c.PositionOf(offset) == Position(k, c.encoding.Measure(text))
  {
  }

  lemma OffsetIs(c: Converter, k: nat, column: nat, line: string)
    requires c.lines.Ok() && k < |c.lines.starts|
    requires Text(c.source, c.lines.starts[k], c.lines.LineEnd(k).value) == Some(line)
    ensures var m := Column(c.encoding, line, column, 0);
      c.OffsetOf(Position(k, column))
      == Some(if m == |line| then c.lines.LineEnd(k).value else c.lines.starts[k] + Utf8.Measure(line[..m]))
  {
  }

  lemma PrefixFits(e: Encoding, text: string, j: nat)
    requires j <= |text|
    ensures e.Measure(text[..j]) <= e.Measure(text)
  {
    PrefixGrows(e, text, j, |text|);
    assert text[..|text|] == text;
  }

  lemma LineHolds(c: Converter, k: nat, line: string, from: nat, j: nat)
    requires LineAt(c, k, line, from) && j <= |line|
    ensures c.lines.LineOf(c.lines.starts[k] + Utf8.Measure(line[..j])) == k
  {
    PrefixFits(Utf8, line, j);
    LineFound(c.lines, k, c.lines.starts[k] + Utf8.Measure(line[..j]));
  }

  lemma PositionAt(c: Converter, k: nat, line: string, from: nat, j: nat)
    requires LineAt(c, k, line, from) && j <= |line|
    ensures from + j <= |c.source|
    ensures c.PositionOf(ByteOffset(c.source, from + j)) == Position(k, c.encoding.Measure(line[..j]))
  {
    StandsAt(c.source, line, from, c.lines.starts[k], j);
    LineHolds(c, k, line, from, j);
    PositionIs(c, c.lines.starts[k] + Utf8.Measure(line[..j]), k, line[..j]);
  }

  lemma WholeLine(c: Converter, k: nat, line: string, from: nat)
    requires LineAt(c, k, line, from)
    ensures Text(c.source, c.lines.starts[k], c.lines.LineEnd(k).value) == Some(line)
  {
    StandsAt(c.source, line, from, c.lines.starts[k], |line|);
    assert line[..|line|] == line;
  }

  lemma OffsetAt(c: Converter, k: nat, line: string, from: nat, column: nat)
    requires LineAt(c, k, line, from)
    ensures var m := Column(c.encoding, line, column, 0);
      from + m <= |c.source| && c.OffsetOf(Position(k, column)) == Some(ByteOffset(c.source, from + m))
  {
    var m := Column(c.encoding, line, column, 0);
    WholeLine(c, k, line, from);
    OffsetIs(c, k, column, line);
    StandsAt(c.source, line, from, c.lines.starts[k], m);
    assert m == |line| ==> line[..m] == line;
  }

  /** A column that is the width of a prefix is found at that prefix. */
  lemma ColumnFound(e: Encoding, line: string, j: nat)
    requires j <= |line|
    ensures Column(e, line, e.Measure(line[..j]), 0) == j
  {
    var r := Column(e, line, e.Measure(line[..j]), 0);
    if r < j {
      PrefixGrows(e, line, r, j);
    } else if j < r {
      BeforeColumn(e, line, e.Measure(line[..j]), 0, j);
    }
  }

  /** Character `i` is the `j`-th of line `k`, or its end. */
  ghost predicate On(c: Converter, lines: seq<string>, i: nat, k: nat, j: nat, from: nat) {
    && k < |lines| && from == CharStart(lines, k) && j <= |lines[k]| && i == from + j && LineAt(c, k, lines[k], from)
  }

  lemma RoundTripOn(c: Converter, lines: seq<string>, i: nat, k: nat, j: nat, from: nat)
    requires On(c, lines, i, k, j, from) && i <= |c.source|
    ensures c.OffsetOf(c.PositionOf(ByteOffset(c.source, i))) == Some(ByteOffset(c.source, i))
  {
    PositionAt(c, k, lines[k], from, j);
    OffsetBack(c, k, lines[k], from, j);
    ThereAndBack(c, ByteOffset(c.source, i), Position(k, c.encoding.Measure(lines[k][..j])));
  }

  lemma OffsetBack(c: Converter, k: nat, line: string, from: nat, j: nat)
    requires LineAt(c, k, line, from) && j <= |line|
    ensures from + j <= |c.source|
    ensures c.OffsetOf(Position(k, c.encoding.Measure(line[..j]))) == Some(ByteOffset(c.source, from + j))
  {
    ColumnFound(c.encoding, line, j);
    OffsetAt(c, k, line, from, c.encoding.Measure(line[..j]));
  }

  lemma ThereAndBack(c: Converter, offset: nat, position: Position)
    requires c.lines.Ok() && c.PositionOf(offset) == position && c.OffsetOf(position) == Some(offset)
    ensures c.OffsetOf(c.PositionOf(offset)) == Some(offset)
  {
  }

  lemma OnLine(source: string, e: Encoding, i: nat) returns (k: nat, j: nat, from: nat)
    requires i <= |source|
    ensures On(ConverterOf(source, e), Lines(source), i, k, j, from)
  {
    JoinLines(source);
    k, j := OnSomeLine(Lines(source), i);
    from := CharStart(Lines(source), k);
    LinesAt(source, e, k);
  }

  /** For every source, every encoding and every character boundary, its position leads back to it. */
  lemma PositionRoundTrips(source: string, e: Encoding, i: nat)
    requires i <= |source|
    ensures var c := ConverterOf(source, e);
      c.OffsetOf(c.PositionOf(ByteOffset(source, i))) == Some(ByteOffset(source, i))
  {
    var k, j, from := OnLine(source, e, i);
    RoundTripOn(ConverterOf(source, e), Lines(source), i, k, j, from);
  }

  lemma PositionOn(c: Converter, lines: seq<string>, i: nat, k: nat, j: nat, from: nat)
    requires On(c, lines, i, k, j, from)
    ensures i <= |c.source| && c.PositionOf(ByteOffset(c.source, i)) == Position(k, c.encoding.Measure(lines[k][..j]))
  {
    PositionAt(c, k, lines[k], from, j);
  }

  lemma BeforeOn(
    c: Converter, lines: seq<string>, i: nat, k: nat, j: nat, from: nat, i': nat, k': nat, j': nat, from': nat)
    requires On(c, lines, i, k, j, from) && On(c, lines, i', k', j', from') && i < i' <= |c.source|
    ensures c.PositionOf(ByteOffset(c.source, i)).Before(c.PositionOf(ByteOffset(c.source, i')))
  {
    LinesInOrder(lines, k, j, k', j');
    PositionOn(c, lines, i, k, j, from);
    PositionOn(c, lines, i', k', j', from');
    if k == k' {
      PrefixGrows(c.encoding, lines[k], j, j');
    }
  }

  /** Positions are ordered as offsets are, strictly. */
  lemma PositionsAreMonotone(source: string, e: Encoding, i: nat, i': nat)
    requires i < i' <= |source|
    ensures var c := ConverterOf(source, e);
      c.PositionOf(ByteOffset(source, i)).Before(c.PositionOf(ByteOffset(source, i')))
  {
    var k, j, from := OnLine(source, e, i);
    var k', j', from' := OnLine(source, e, i');
    BeforeOn(ConverterOf(source, e), Lines(source), i, k, j, from, i', k', j', from');
  }

  lemma LinesInOrder(lines: seq<string>, k: nat, j: nat, k': nat, j': nat)
    requires k < |lines| && k' < |lines| && j <= |lines[k]| && j' <= |lines[k']|
    requires CharStart(lines, k) + j < CharStart(lines, k') + j'
    ensures k < k' || (k == k' && j < j')
  {
    if k' < k {
      LaterLinesStartLater(lines, k', k);
    }
  }

  lemma {:induction false} LaterLinesStartLater(lines: seq<string>, k: nat, k': nat)
    requires k < k' < |lines|
    ensures CharStart(lines, k) + |lines[k]| < CharStart(lines, k')
    decreases |lines|
  {
    if k > 0 {
      LaterLinesStartLater(lines[1..], k - 1, k' - 1);
    }
  }

  /** The first boundary of a line at or past a column, or else its end. */
  ghost predicate LeastBoundary(e: Encoding, line: string, column: nat, m: nat) {
    && m <= |line|
    && (column <= e.Measure(line[..m]) || m == |line|)
    && (forall j :: 0 <= j < m ==> e.Measure(line[..j]) < column)
  }

  lemma ColumnIsLeast(e: Encoding, line: string, column: nat)
    ensures LeastBoundary(e, line, column, Column(e, line, column, 0))
  {
    forall j | 0 <= j < Column(e, line, column, 0)
      ensures e.Measure(line[..j]) < column
    {
      BeforeColumn(e, line, column, 0, j);
    }
  }

  /**
   The offset of any position whatever: none exactly when there is no such line; otherwise the
   first character boundary of the line at or past the column, and if there is none, the end
   of the line.
   */
  lemma OffsetIsTheLeastBoundary(source: string, e: Encoding, position: Position)
    ensures ConverterOf(source, e).OffsetOf(position).Some? <==> position.line < |Lines(source)|
    ensures position.line < |Lines(source)| ==>
      var from, line := CharStart(Lines(source), position.line), Lines(source)[position.line];
      exists m: nat ::
        && LeastBoundary(e, line, position.character, m) && from + m <= |source|
        && ConverterOf(source, e).OffsetOf(position) == Some(ByteOffset(source, from + m))
  {
    if position.line < |Lines(source)| {
      BoundaryOn(source, e, position);
    }
  }

  lemma BoundaryOn(source: string, e: Encoding, position: Position)
    requires position.line < |Lines(source)|
    ensures var from, line := CharStart(Lines(source), position.line), Lines(source)[position.line];
      exists m: nat ::
        && LeastBoundary(e, line, position.character, m) && from + m <= |source|
        && ConverterOf(source, e).OffsetOf(position) == Some(ByteOffset(source, from + m))
  {
    LinesAt(source, e, position.line);
    BoundaryAt(ConverterOf(source, e), position, Lines(source)[position.line], CharStart(Lines(source), position.line));
  }

  lemma BoundaryAt(c: Converter, position: Position, line: string, from: nat)
    requires LineAt(c, position.line, line, from)
    ensures exists m: nat ::
      && LeastBoundary(c.encoding, line, position.character, m) && from + m <= |c.source|
      && c.OffsetOf(position) == Some(ByteOffset(c.source, from + m))
  {
    OffsetAt(c, position.line, line, from, position.character);
    ColumnIsLeast(c.encoding, line, position.character);
    var m := Column(c.encoding, line, position.character, 0);
    assert LeastBoundary(c.encoding, line, position.character, m);
  }
}
