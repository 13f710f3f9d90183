/**
 One line of a rename: the label it defines and the operand it uses are replaced, and the
 line is read as the same statement (crates/lib/mrs-lsp/src/features/navigation.rs:92-176).
 */
module RenamedLines {
  import opened Words
  import opened Literals
  import opened Lexer
  import opened LineShapes
  import opened LineEdits
  import opened Syntax
  import opened Parser
  import opened Assembler

  /** The faults a new name can have, in the order they are looked for; the last one needs the table. */
  datatype RenameError = EmptyName | DigitFirst | ContainsWhitespace | ContainsComma | ContainsSlash | NameTaken

  function RenameErrorOf(ws: char -> bool, name: string): Option<RenameError> {
    if name == [] then Some(EmptyName)
    else if IsDecimalDigit(name[0]) then Some(DigitFirst)
    else if exists i :: 0 <= i < |name| && ws(name[i]) then Some(ContainsWhitespace)
    else if ',' in name then Some(ContainsComma)
    else if '/' in name then Some(ContainsSlash)
    else None
  }

  lemma AcceptedNamesArePlain(ws: char -> bool, name: string)
    requires RenameErrorOf(ws, name).None?
    ensures name != [] && !IsDecimalDigit(name[0]) && Plain(ws, name, 0, |name|)
  {
    forall i | 0 <= i < |name|
      ensures !ws(name[i]) && name[i] != ',' && name[i] != '/'
    {
      assert name[i] in name;
    }
  }

  function Replace(line: string, span: Span, text: string): string {
    if span.start <= span.end <= |line| then line[..span.start] + text + line[span.end..] else line
  }

  lemma ReplaceReplaces(line: string, span: Span, text: string)
    requires span.start <= span.end <= |line|
    ensures ReplacedBy(line, span, text, Replace(line, span, text))
  {
  }

  /** The line defines the label. */
  predicate HasTag(line: string, p: Parts, name: string) {
    p.tag.Some? && Slice(line, p.tag.value) == name
  }

  /** The line's operand is looked up, and is the label. */
  predicate HasUse(d: Dialect, line: string, p: Parts, name: string) {
    p.operand.Some? && LookedUp(ItemOf(d, line, 0, 0, p, 0)).Some? && Slice(line, p.operand.value) == name
  }

  function RenamedStatement(d: Dialect, line: string, p: Parts, name: string, text: string): string {
    var used := if HasUse(d, line, p, name) then Replace(line, p.operand.value, text) else line;
    if HasTag(line, p, name) then Replace(used, p.tag.value, text) else used
  }

  function RenamedLine(d: Dialect, line: string, name: string, text: string): string {
    match FormOf(d.ws, line)
    case Statement(p) => RenamedStatement(d, line, p, name, text)
    case _ => line
  }

  // ----- a statement line is no other form -----

  /** What follows the operator is an operand or a tail. */
  lemma {:induction false} BodyAtRest(ws: char -> bool, line: string, p: nat, i: nat)
    requires p <= i <= |line|
    ensures var r := BodyAt(ws, line, p, i, None);
      r.Some? ==>
        && i <= r.value.mnemonic.end <= |line|
        && AfterMnemonic(ws, line, r.value.mnemonic.end) == Some((r.value.operand, r.value.comment))
    decreases |line| - i
  {
    if AfterMnemonic(ws, line, i).None? && WordAt(ws, line, i) {
      BodyAtRest(ws, line, p, i + 1);
    }
  }

  lemma RestStarts(ws: char -> bool, line: string, i: nat)
    requires i < |line| && AfterMnemonic(ws, line, i).Some?
    ensures ws(line[i]) || line[i] == '/'
  {
  }

  /** A plain label, up to its comma, cannot read as `org` and a space. */
  lemma LabelIsNotOrg(ws: char -> bool, line: string, start: nat, e: nat)
    requires Patterns.IsWhitespace(ws) && start < e < |line| && line[e] == ',' && Plain(ws, line, start, e)
    ensures !(OrgAt(line, start) && SpaceAt(ws, line, start + 3))
  {
  }

  /** An operator that is not `org` cannot read as `org` and a space. */
  lemma OperatorIsNotOrg(ws: char -> bool, line: string, start: nat, e: nat)
    requires LettersAreNotSpace(ws) && start < e <= |line| && AllWord(ws, line, Span(start, e))
    requires e == |line| || ws(line[e]) || line[e] == '/'
    requires !(e == start + 3 && OrgAt(line[start..e], 0))
    ensures !(OrgAt(line, start) && SpaceAt(ws, line, start + 3))
  {
    if SpaceAt(ws, line, start + 3) {
      assert !WordAt(ws, line, start + 3);
    }
  }

  lemma NotOrigin(ws: char -> bool, line: string, p: Parts)
    requires Patterns.IsWhitespace(ws) && LettersAreNotSpace(ws)
    requires StatementOf(ws, line) == Some(p)
    requires p.tag.Some? ==> Plain(ws, line, p.tag.value.start, p.tag.value.end) && p.tag.value.start < p.tag.value.end
    requires !(|Slice(line, p.mnemonic)| == 3 && OrgAt(Slice(line, p.mnemonic), 0))
    ensures OriginOf(ws, line).None?
  {
    if p.tag.Some? {
      StatementShape(ws, line);
      LabelledBody(ws, line, p);
      LabelIsNotOrg(ws, line, p.tag.value.start, p.tag.value.end);
    } else {
      PlainStatementRest(ws, line, p);
      OperatorIsNotOrg(ws, line, p.mnemonic.start, p.mnemonic.end);
    }
  }

  lemma PlainStatementRest(ws: char -> bool, line: string, p: Parts)
    requires StatementOf(ws, line) == Some(p) && p.tag.None?
    ensures p.mnemonic.start == Skip(ws, line, 0) && AllWord(ws, line, p.mnemonic)
    ensures var e := p.mnemonic.end; e == |line| || ws(line[e]) || line[e] == '/'
  {
    var start := Skip(ws, line, 0);
    FoundAtLeading(ws, line, p);
    BodyShape(ws, line, start);
    BodyAtRest(ws, line, start, start + 1);
    if p.mnemonic.end < |line| {
      RestStarts(ws, line, p.mnemonic.end);
    }
  }

  lemma IsStatement(ws: char -> bool, line: string, p: Parts)
    requires StatementOf(ws, line) == Some(p) && OriginOf(ws, line).None?
    requires Skip(ws, line, 0) < |line| && line[Skip(ws, line, 0)] != '/'
    ensures FormOf(ws, line) == Statement(p)
  {
  }

  lemma StatementStarts(ws: char -> bool, line: string, p: Parts)
    requires FormOf(ws, line) == Statement(p)
    ensures StatementOf(ws, line) == Some(p)
    ensures Skip(ws, line, 0) < |line| && line[Skip(ws, line, 0)] != '/'
  {
  }

  // ----- the texts after a replacement -----

  lemma SliceBefore(line: string, span: Span, text: string, other: string, s: Span)
    requires ReplacedBy(line, span, text, other) && s.start <= s.end <= span.start
    ensures Slice(other, s) == Slice(line, s)
  {
  }

  lemma SliceAfter(line: string, span: Span, text: string, other: string, s: Span)
    requires ReplacedBy(line, span, text, other) && span.end <= s.start <= s.end <= |line|
    ensures 0 <= s.start + Growth(span, text) && Slice(other, Moved(s, Growth(span, text))) == Slice(line, s)
  {
  }

  lemma SliceAt(line: string, span: Span, text: string, other: string)
    requires ReplacedBy(line, span, text, other)
    ensures Slice(other, Span(span.start, span.start + |text|)) == text
  {
  }

  // ----- the two replacements in turn -----

  /** The label of the line was accepted when the line was first parsed. */
  ghost predicate PlainTag(ws: char -> bool, line: string, p: Parts) {
    p.tag.Some? ==> p.tag.value.start < p.tag.value.end && Plain(ws, line, p.tag.value.start, p.tag.value.end)
  }

  lemma UseRenamed(ws: char -> bool, line: string, p: Parts, name: string, text: string) returns (other: string, q: Parts)
    requires Patterns.IsWhitespace(ws) && StatementOf(ws, line) == Some(p) && PlainTag(ws, line, p)
    requires p.operand.Some? && Slice(line, p.operand.value) == name
    requires name != [] && Plain(ws, name, 0, |name|) && text != [] && Plain(ws, text, 0, |text|)
    ensures other == Replace(line, p.operand.value, text)
    ensures StatementOf(ws, other) == Some(q) && PlainTag(ws, other, q)
    ensures Skip(ws, other, 0) == Skip(ws, line, 0) < |line| && Skip(ws, line, 0) < |other|
    ensures other[Skip(ws, line, 0)] == line[Skip(ws, line, 0)]
    ensures q.tag == p.tag && q.mnemonic == p.mnemonic
    ensures Slice(other, q.mnemonic) == Slice(line, p.mnemonic)
    ensures q.operand.Some? && Slice(other, q.operand.value) == text
    ensures p.tag.Some? ==> Slice(other, p.tag.value) == Slice(line, p.tag.value)
  {
    var o := p.operand.value;
    StatementShape(ws, line);
    PlainSlice(ws, line, o, name);
    other := Replace(line, o, text);
    ReplaceReplaces(line, o, text);
    ReplaceOperand(ws, line, p, text, other);
    q := WithOperand(p, p.tag, o, |text|);
    SliceBefore(line, o, text, other, p.mnemonic);
    SliceAt(line, o, text, other);
    if p.tag.Some? {
      SliceBefore(line, o, text, other, p.tag.value);
    }
  }

  lemma PlainSlice(ws: char -> bool, line: string, span: Span, name: string)
    requires span.start <= span.end <= |line| && Slice(line, span) == name && Plain(ws, name, 0, |name|)
    ensures Plain(ws, line, span.start, span.end)
  {
    forall i | span.start <= i < span.end
      ensures !ws(line[i]) && line[i] != ',' && line[i] != '/'
    {
      assert line[i] == name[i - span.start];
    }
  }

  /** The parts of a line whose label has been replaced. */
  function WithTag(p: Parts, text: string): Parts
    requires p.tag.Some? && BodyMovable(p, Growth(p.tag.value, text))
  {
    MovedParts(p, Some(Span(p.tag.value.start, p.tag.value.start + |text|)), Growth(p.tag.value, text))
  }

  lemma TagParses(ws: char -> bool, line: string, p: Parts, text: string, other: string)
    requires StatementOf(ws, line) == Some(p) && p.tag.Some? && PlainTag(ws, line, p)
    requires p.tag.value.end <= |line| && text != [] && Plain(ws, text, 0, |text|)
    requires ReplacedBy(line, p.tag.value, text, other)
    ensures BodyMovable(p, Growth(p.tag.value, text)) && StatementOf(ws, other) == Some(WithTag(p, text))
    ensures Skip(ws, other, 0) == p.tag.value.start
  {
    ReplaceLabel(ws, line, p, text, other);
  }

  lemma TagRenamed(ws: char -> bool, line: string, p: Parts, text: string) returns (other: string, q: Parts)
    requires StatementOf(ws, line) == Some(p) && PlainTag(ws, line, p)
    requires p.tag.Some? && text != [] && Plain(ws, text, 0, |text|)
    ensures other == Replace(line, p.tag.value, text)
    ensures StatementOf(ws, other) == Some(q) && PlainTag(ws, other, q)
    ensures Skip(ws, other, 0) < |other| && other[Skip(ws, other, 0)] == text[0]
    ensures Slice(other, q.mnemonic) == Slice(line, p.mnemonic)
    ensures q.tag.Some? && Slice(other, q.tag.value) == text
    ensures q.operand.Some? == p.operand.Some?
    ensures p.operand.Some? ==> Slice(other, q.operand.value) == Slice(line, p.operand.value)
  {
    var t := p.tag.value;
    TagBounds(ws, line, p);
    other := Replace(line, t, text);
    ReplaceReplaces(line, t, text);
    TagParses(ws, line, p, text, other);
    q := WithTag(p, text);
    MovedSlices(line, p, text, other);
    TagReads(ws, line, t, text, other);
  }

  lemma TagReads(ws: char -> bool, line: string, t: Span, text: string, other: string)
    requires text != [] && Plain(ws, text, 0, |text|) && ReplacedBy(line, t, text, other)
    ensures t.start < |other| && other[t.start] == text[0] && Plain(ws, other, t.start, t.start + |text|)
  {
    NameReads(ws, line, t, text, other);
  }

  lemma MovedSlices(line: string, p: Parts, text: string, other: string)
    requires p.tag.Some? && ReplacedBy(line, p.tag.value, text, other) && BodyMovable(p, Growth(p.tag.value, text))
    requires p.tag.value.end <= p.mnemonic.start && p.mnemonic.end <= |line|
    requires p.operand.Some? ==> p.tag.value.end <= p.operand.value.start && p.operand.value.end <= |line|
    ensures var q := WithTag(p, text);
      && Slice(other, q.mnemonic) == Slice(line, p.mnemonic)
      && Slice(other, q.tag.value) == text
      && (p.operand.Some? ==> Slice(other, q.operand.value) == Slice(line, p.operand.value))
  {
    var t := p.tag.value;
    SliceAfter(line, t, text, other, p.mnemonic);
    SliceAt(line, t, text, other);
    if p.operand.Some? {
      SliceAfter(line, t, text, other, p.operand.value);
    }
  }

  lemma TagBounds(ws: char -> bool, line: string, p: Parts)
    requires StatementOf(ws, line) == Some(p) && p.tag.Some?
    ensures p.tag.value.start < p.tag.value.end < p.mnemonic.start < p.mnemonic.end <= |line|
    ensures p.operand.Some? ==> p.mnemonic.end < p.operand.value.start < p.operand.value.end <= |line|
  {
    StatementShape(ws, line);
  }

  function Swapped(s: string, name: string, text: string): string {
    if s == name then text else s
  }

  /**
   The renamed line is the same statement: the same operator, the label and the looked-up
   operand renamed if they were the name, and any other label or operand as it was.
   */
  lemma RenamedLineIsTheSame(d: Dialect, line: string, p: Parts, name: string, text: string) returns (q: Parts)
    requires Sane(d) && FormOf(d.ws, line) == Statement(p) && PlainTag(d.ws, line, p)
    requires d.classify(Slice(line, p.mnemonic)) != DirectiveKind(Org)
    requires name != [] && Plain(d.ws, name, 0, |name|) && text != [] && Plain(d.ws, text, 0, |text|)
    ensures var other := RenamedLine(d, line, name, text);
      && FormOf(d.ws, other) == Statement(q)
      && Slice(other, q.mnemonic) == Slice(line, p.mnemonic)
      && q.tag.Some? == p.tag.Some? && q.operand.Some? == p.operand.Some?
      && (p.tag.Some? ==> Slice(other, q.tag.value) == Swapped(Slice(line, p.tag.value), name, text))
      && (p.operand.Some? ==>
            Slice(other, q.operand.value) ==
            if HasUse(d, line, p, name) then text else Slice(line, p.operand.value))
  {
    StatementStarts(d.ws, line, p);
    var other;
    other, q := line, p;
    if HasUse(d, line, p, name) {
      other, q := UseRenamed(d.ws, line, p, name, text);
    }
    if HasTag(line, p, name) {
      other, q := TagRenamed(d.ws, other, q, text);
    }
    assert other == RenamedLine(d, line, name, text);
    NotOrigin(d.ws, other, q);
    IsStatement(d.ws, other, q);
  }
}
