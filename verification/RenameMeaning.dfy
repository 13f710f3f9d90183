/**
 The promise of a rename: the edits, applied to the text of a program that assembles, give
 the text of the same program (crates/lib/mrs-lsp/src/features/navigation.rs:92-176).
 */
module RenameMeaning {
  import opened Words
  import opened Literals
  import opened Lexer
  import opened LineShapes
  import opened LineEdits
  import opened Syntax
  import opened Parser
  import opened Assembler
  import opened Consistency
  import opened RenamedLines
  import opened TextEdits
  import opened Rename
  import opened RenamedPrograms
  import opened RenameSites

  // ----- the names a program defines -----

  ghost predicate PlainName(ws: char -> bool, name: string) {
    name != [] && !IsDecimalDigit(name[0]) && Plain(ws, name, 0, |name|)
  }

  ghost predicate PlainNames(ws: char -> bool, p: Parsed) {
    forall n :: n in p.symbols ==> PlainName(ws, n)
  }

  lemma AcceptedTagName(d: Dialect, p: Parsed, line: string, parts: Parts)
    requires FormOf(d.ws, line) == Statement(parts) && parts.tag.Some?
    requires LabelError(d.ws, p.symbols, Slice(line, parts.tag.value)).None?
    ensures PlainName(d.ws, Slice(line, parts.tag.value))
  {
    StatementStarts(d.ws, line, parts);
    StatementShape(d.ws, line);
    AcceptedTagIsPlain(d, p.symbols, line, parts);
  }

  lemma LineKeepsPlain(d: Dialect, p: Parsed, line: string, base: nat, k: nat)
    requires PlainNames(d.ws, p)
    ensures PlainNames(d.ws, ParseLine(d, p, line, base, k).0)
  {
    var form := FormOf(d.ws, line);
    if form.Statement? && form.parts.tag.Some? && LabelError(d.ws, p.symbols, Slice(line, form.parts.tag.value)).None? {
      AcceptedTagName(d, p, line, form.parts);
    }
  }

  lemma ParserKeepsPlain(d: Dialect, total: nat)
    ensures KeptByLines(ReaderOf(d, total), (p: Parsed, base: nat) => PlainNames(d.ws, p))
  {
    var r := ReaderOf(d, total);
    forall p: Parsed, line: string, base: nat, k: nat | PlainNames(d.ws, p)
      ensures PlainNames(d.ws, r.live(p, line, base, k).0)
    {
      LineKeepsPlain(d, p, line, base, k);
    }
    forall p: Parsed, line: string, base: nat, k: nat | PlainNames(d.ws, p)
      ensures PlainNames(d.ws, r.dead(p, line, base, k))
    {
    }
  }

  // ----- the edited text, line by line -----

  lemma ReplaceUnbroken(line: string, span: Span, text: string)
    requires Unbroken(line) && Unbroken(text)
    ensures Unbroken(Replace(line, span, text))
  {
  }

  lemma RenamedUnbroken(d: Dialect, line: string, name: string, text: string)
    requires Unbroken(line) && Unbroken(text)
    ensures Unbroken(RenamedLine(d, line, name, text))
  {
    var form := FormOf(d.ws, line);
    if form.Statement? {
      var p := form.parts;
      var used := if HasUse(d, line, p, name) then Replace(line, p.operand.value, text) else line;
      if HasUse(d, line, p, name) {
        ReplaceUnbroken(line, p.operand.value, text);
      }
      if HasTag(line, p, name) {
        ReplaceUnbroken(used, p.tag.value, text);
      }
    }
  }

  /** No line is broken by its edits. */
  ghost predicate KeepsUnbroken(e: LineEditor) {
    forall line: string :: Unbroken(line) ==> Unbroken(e.edited(line))
  }

  lemma {:induction false} EditedUnbroken(e: LineEditor, lines: seq<string>, stopped: bool)
    requires KeepsUnbroken(e) && forall l :: l in lines ==> Unbroken(l)
    ensures forall l :: l in EditedLines(e, lines, stopped) ==> Unbroken(l)
    decreases |lines|
  {
    if lines != [] && !stopped {
      assert Unbroken(lines[0]) && Unbroken(e.edited(lines[0]));
      EditedUnbroken(e, lines[1..], e.last(lines[0]));
    }
  }

  lemma RenamerKeepsUnbroken(d: Dialect, name: string, text: string)
    requires Unbroken(text)
    ensures KeepsUnbroken(Renamer(d, name, text))
  {
    forall line: string | Unbroken(line)
      ensures Unbroken(Renamer(d, name, text).edited(line))
    {
      RenamedUnbroken(d, line, name, text);
    }
  }

  /** The edited text has the edited lines. */
  lemma LinesOfEdited(source: string, e: LineEditor, text: string)
    requires EditsLines(e, text) && KeepsUnbroken(e)
    ensures Lines(ApplyEdits(source, AllSpans(e, Lines(source), 0, false), text)) == EditedLines(e, Lines(source), false)
    ensures ApplyEdits(source, AllSpans(e, Lines(source), 0, false), text) == Join(EditedLines(e, Lines(source), false))
  {
    var lines := Lines(source);
    JoinLines(source);
    assert source[0..] == source;
    TextEdited(source, AllSpans(e, lines, 0, false), e, text, lines, 0, false);
    EditedUnbroken(e, lines, false);
    LinesJoin(EditedLines(e, lines, false));
  }

  // ----- the theorem -----

  /** The set of spans of a list of edits. */
  function EditSet(spans: seq<Span>): set<Span> {
    set s | s in spans
  }

  lemma AssembledIsRenamable(d: Dialect, source: string, text: string)
    requires Assemble(d, source).Succeeded() && text !in Parse(d, source).symbols
    ensures Renamable(Parse(d, source), text)
  {
    var p := Parse(d, source);
    WordsFollowItems(d.ws, p.symbols, p.symbols, p.items);
    forall i | 0 <= i < |p.items|
      ensures p.items[i].kind != DirectiveKind(Org)
    {
      assert AssembleItem(d.ws, p.symbols, p.items[i]).Emitted?;
    }
  }

  /** The edited text parses to the same program, up to the name. */
  lemma EditedParse(d: Dialect, source: string, name: string, text: string)
    requires Sane(d) && GoodNames(d.ws, name, text)
    requires Assemble(d, source).Succeeded() && text !in Parse(d, source).symbols
    ensures SameProgram(
      Parse(d, source), Parse(d, ApplyEdits(source, AllSpans(Renamer(d, name, text), Lines(source), 0, false), text)),
      name, text)
  {
    var e := Renamer(d, name, text);
    var edited := ApplyEdits(source, AllSpans(e, Lines(source), 0, false), text);
    NoBreakIn(d, text);
    RenamerEditsLines(d, name, text);
    RenamerKeepsUnbroken(d, name, text);
    LinesOfEdited(source, e, text);
    AssembledIsRenamable(d, source, text);
    ReaderOnlyAdds(d, |source|);
    ParserReadsAlike(d, |source|, |edited|, name, text);
    LinesAreTheSame(ReaderOf(d, |source|), ReaderOf(d, |edited|), e, NOTHING, NOTHING, Lines(source), 0, 0, 0, false, name, text);
  }

  lemma NoBreakIn(d: Dialect, text: string)
    requires Sane(d) && Plain(d.ws, text, 0, |text|)
    ensures Unbroken(text)
  {
  }

  /** The same program emits the same words. */
  lemma SameProgramSameWords(ws: char -> bool, p: Parsed, q: Parsed, name: string, text: string)
    requires GoodNames(ws, name, text) && SameProgram(p, q, name, text) && text !in p.symbols
    requires AllEmitted(ws, p.symbols, p.items)
    ensures AllEmitted(ws, q.symbols, q.items)
    ensures forall i :: 0 <= i < |p.items| ==>
      AssembleItem(ws, q.symbols, q.items[i]) == AssembleItem(ws, p.symbols, p.items[i])
  {
    forall i | 0 <= i < |p.items|
      ensures AssembleItem(ws, q.symbols, q.items[i]) == AssembleItem(ws, p.symbols, p.items[i])
    {
      WordIsTheSame(ws, p.symbols, q.symbols, p.items[i], q.items[i], name, text);
    }
  }

  // ----- renaming a label to itself -----

  lemma SameNameLine(d: Dialect, line: string, name: string)
    ensures RenamedLine(d, line, name, name) == line
  {
    var form := FormOf(d.ws, line);
    if form.Statement? {
      var p := form.parts;
      if HasUse(d, line, p, name) {
        SameReplace(line, p.operand.value);
      }
      if HasTag(line, p, name) {
        SameReplace(line, p.tag.value);
      }
    }
  }

  lemma SameReplace(line: string, span: Span)
    ensures Replace(line, span, Slice(line, span)) == line
  {
  }

  lemma {:induction false} NothingEdited(e: LineEditor, lines: seq<string>, stopped: bool)
    requires forall line: string :: e.edited(line) == line
    ensures EditedLines(e, lines, stopped) == lines
    decreases |lines|
  {
    if lines != [] && !stopped {
      NothingEdited(e, lines[1..], e.last(lines[0]));
      assert e.edited(lines[0]) == lines[0];
    }
  }

  lemma SameNameSameText(d: Dialect, source: string, name: string)
    requires Sane(d) && PlainName(d.ws, name)
    ensures ApplyEdits(source, AllSpans(Renamer(d, name, name), Lines(source), 0, false), name) == source
  {
    var e := Renamer(d, name, name);
    forall line: string
      ensures e.edited(line) == line
    {
      SameNameLine(d, line, name);
    }
    NoBreakIn(d, name);
    RenamerEditsLines(d, name, name);
    RenamerKeepsUnbroken(d, name, name);
    LinesOfEdited(source, e, name);
    NothingEdited(e, Lines(source), false);
    JoinLines(source);
  }

  // ----- the theorem -----

  /** The same words at the same place, from the same lines, with the same labels up to the one name. */
  ghost predicate SameMeaning(a: Assembly, b: Assembly, name: string, text: string) {
    && a.Succeeded() && b.Succeeded()
    && a.words == b.words && a.origin == b.origin
    && a.program.sourceMap == b.program.sourceMap
    && SameTable(a.symbols, b.symbols, name, text)
  }

  lemma SamePrograms(d: Dialect, source: string, other: string, name: string, text: string)
    requires GoodNames(d.ws, name, text) && text !in Parse(d, source).symbols
    requires AllEmitted(d.ws, Parse(d, source).symbols, Parse(d, source).items)
    requires SameProgram(Parse(d, source), Parse(d, other), name, text)
    ensures SameMeaning(Assemble(d, source), Assemble(d, other), name, text)
  {
    var p, q := Parse(d, source), Parse(d, other);
    SameProgramSameWords(d.ws, p, q, name, text);
    WordsFollowItems(d.ws, p.symbols, p.symbols, p.items);
    WordsFollowItems(d.ws, q.symbols, q.symbols, q.items);
  }

  lemma DefinedNamesArePlain(d: Dialect, source: string, name: string)
    requires name in Assemble(d, source).symbols
    ensures name in Parse(d, source).symbols && PlainName(d.ws, name)
  {
    var p := Parse(d, source);
    WordsFollowItems(d.ws, p.symbols, p.symbols, p.items);
    ParserKeepsPlain(d, |source|);
    AllLinesKeep(ReaderOf(d, |source|), (p: Parsed, base: nat) => PlainNames(d.ws, p), NOTHING, Lines(source), 0, 0, false);
  }

  /** The text with every site replaced. */
  function Renamed(d: Dialect, source: string, name: string, text: string): string {
    ApplyEdits(source, AllSpans(Renamer(d, name, text), Lines(source), 0, false), text)
  }

  lemma ReplacedSitesMeanTheSame(d: Dialect, source: string, name: string, text: string)
    requires Sane(d) && Assemble(d, source).Succeeded() && name in Assemble(d, source).symbols
    requires PlainName(d.ws, text) && name != text && text !in Assemble(d, source).symbols
    ensures SameMeaning(Assemble(d, source), Assemble(d, Renamed(d, source, name, text)), name, text)
  {
    var p := Parse(d, source);
    DefinedNamesArePlain(d, source, name);
    WordsFollowItems(d.ws, p.symbols, p.symbols, p.items);
    EditedParse(d, source, name, text);
    SamePrograms(d, source, Renamed(d, source, name, text), name, text);
  }

  lemma ReplacedByItself(d: Dialect, source: string, name: string)
    requires Sane(d) && Assemble(d, source).Succeeded() && name in Assemble(d, source).symbols
    ensures SameMeaning(Assemble(d, source), Assemble(d, Renamed(d, source, name, name)), name, name)
  {
    DefinedNamesArePlain(d, source, name);
    SameNameSameText(d, source, name);
  }

  /**
   Renaming preserves meaning. For every source that assembles, every label it defines and
   every new name the rename accepts, applying the edits to the text and assembling again
   succeeds, with the same words at the same origin, the same map between lines and addresses
   and the same labels at the same addresses, the one name replaced.
   */
  lemma RenamePreservesMeaning(d: Dialect, source: string, name: string, text: string)
    requires Sane(d) && Assemble(d, source).Succeeded() && name in Assemble(d, source).symbols
    requires RenameLabel(d.ws, Assemble(d, source).symbols, name, text).Edits?
    ensures var edits := RenameLabel(d.ws, Assemble(d, source).symbols, name, text).spans;
      SameMeaning(Assemble(d, source), Assemble(d, ApplyEdits(source, EditSet(edits), text)), name, text)
  {
    RenameSpansAreTheSites(d, source, name, text);
    AcceptedNamesArePlain(d.ws, text);
    if name == text {
      ReplacedByItself(d, source, name);
    } else {
      ReplacedSitesMeanTheSame(d, source, name, text);
    }
  }
}
