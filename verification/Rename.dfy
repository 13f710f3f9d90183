/**
 Renaming a label: the edits, applied to the text, leave the assembled program as it was
 (crates/lib/mrs-lsp/src/features/navigation.rs:69-176, crates/lib/mrs-asm/src/symbols.rs:92-162).
 */
module Rename {
  import opened Words
  import opened Literals
  import opened Lexer
  import opened LineShapes
  import opened LineEdits
  import opened Syntax
  import opened Parser
  import opened Assembler
  import opened Consistency
  import opened RenamedLines
  import opened TextEdits

  datatype RenameResult = Refused(error: RenameError) | Edits(spans: seq<Span>)

  /** Every place a rename touches: the definition, then the references in source order. */
  function RenameSpans(symbols: SymbolTable, name: string): seq<Span>
    requires name in symbols
  {
    [symbols[name].definition] + symbols[name].references
  }

  /** The spans to edit, or the reason for refusing: the name is unfit, or another label has it. */
  function RenameLabel(ws: char -> bool, symbols: SymbolTable, name: string, text: string): RenameResult
    requires name in symbols
  {
    match RenameErrorOf(ws, text)
    case Some(error) => Refused(error)
    case None =>
      if name != text && text in symbols then Refused(NameTaken) else Edits(RenameSpans(symbols, name))
  }

  // ----- the edits, line by line -----

  function LineSpans(d: Dialect, line: string, name: string): set<Span> {
    match FormOf(d.ws, line)
    case Statement(p) => StatementSpans(d, line, p, name)
    case _ => {}
  }

  function StatementSpans(d: Dialect, line: string, p: Parts, name: string): set<Span> {
    (if HasTag(line, p, name) then {p.tag.value} else {}) + (if HasUse(d, line, p, name) then {p.operand.value} else {})
  }

  predicate EndsProgram(d: Dialect, line: string) {
    match FormOf(d.ws, line)
    case Statement(p) => d.classify(Slice(line, p.mnemonic)) == DirectiveKind(End)
    case _ => false
  }

  /** The rename of one line, as an editor of lines. */
  function Renamer(d: Dialect, name: string, text: string): LineEditor {
    LineEditor(
      (line: string) => LineSpans(d, line, name),
      (line: string) => RenamedLine(d, line, name, text),
      (line: string) => EndsProgram(d, line))
  }

  lemma LineSpansInside(d: Dialect, line: string, name: string)
    ensures forall s :: s in LineSpans(d, line, name) ==> s.start < s.end <= |line|
  {
    var form := FormOf(d.ws, line);
    if form.Statement? {
      StatementStarts(d.ws, line, form.parts);
      StatementShape(d.ws, line);
    }
  }

  /** Editing one line is renaming it. */
  lemma LineEdited(d: Dialect, line: string, name: string, text: string)
    ensures Edited(line, LineSpans(d, line, name), text, 0, |line|) == RenamedLine(d, line, name, text)
  {
    var form := FormOf(d.ws, line);
    if form.Statement? {
      StatementStarts(d.ws, line, form.parts);
      StatementShape(d.ws, line);
      StatementEdited(d, line, form.parts, name, text);
    } else {
      EditedOutside(line, {}, text, 0, |line|);
      assert line[0..|line|] == line;
    }
  }

  lemma StatementEdited(d: Dialect, line: string, p: Parts, name: string, text: string)
    requires Shaped(d.ws, line, p)
    ensures Edited(line, StatementSpans(d, line, p, name), text, 0, |line|) == RenamedStatement(d, line, p, name, text)
  {
    var tag, used := HasTag(line, p, name), HasUse(d, line, p, name);
    if tag && used {
      TwoEdits(line, text, p.tag.value, p.operand.value);
    } else if tag {
      assert StatementSpans(d, line, p, name) == {p.tag.value};
      OneEdit(line, text, p.tag.value);
    } else if used {
      assert StatementSpans(d, line, p, name) == {p.operand.value};
      OneEdit(line, text, p.operand.value);
    } else {
      assert StatementSpans(d, line, p, name) == {};
      EditedOutside(line, {}, text, 0, |line|);
      assert line[0..|line|] == line;
    }
  }

  lemma OneEdit(line: string, text: string, s: Span)
    requires s.start < s.end <= |line|
    ensures Edited(line, {s}, text, 0, |line|) == Replace(line, s, text)
  {
    var spans := {s};
    ApplyLastFirst(line, spans, text, s);
    assert spans - {s} == {};
    EditedOutside(line[..s.start], {}, text, 0, s.start);
    assert line[..s.start][0..s.start] == line[..s.start];
  }

  lemma TwoEdits(line: string, text: string, s: Span, t: Span)
    requires s.start < s.end < t.start < t.end <= |line|
    ensures Edited(line, {s} + {t}, text, 0, |line|) == Replace(Replace(line, t, text), s, text)
  {
    var spans := {s} + {t};
    ApplyLastFirst(line, spans, text, t);
    var before := line[..t.start];
    assert spans - {t} == {s};
    OneEdit(before, text, s);
    assert Replace(before, s, text) + text + line[t.end..] == Replace(Replace(line, t, text), s, text);
  }

  lemma RenamerEditsLines(d: Dialect, name: string, text: string)
    ensures EditsLines(Renamer(d, name, text), text)
  {
    var e := Renamer(d, name, text);
    forall line: string
      ensures Inside(e.spans(line), line)
    {
      LineSpansInside(d, line, name);
    }
    forall line: string
      ensures EditsLine(e, text, line)
    {
      LineEdited(d, line, name, text);
    }
  }
}
