/**
 The rename request as the server answers it: from a position in the client's encoding to
 ranges in that encoding (crates/lib/mrs-lsp/src/features/navigation.rs:17-25, 142-176;
 crates/lib/mrs-lsp/src/encoding.rs:133-136). The server's spans are in bytes.
 */
module RenameRequests {
  import opened Words
  import opened Lexer
  import opened Syntax
  import opened Parser
  import opened Assembler
  import opened Consistency
  import opened RenamedLines
  import opened TextEdits
  import opened Rename
  import opened RenameSites
  import opened RenameMeaning
  import opened Carets
  import Positions

  type Position = Positions.Position
  type Converter = Positions.Converter

  datatype Range = Range(start: Position, end: Position)

  datatype RenameAnswer = Failed(error: RenameError) | NothingThere | RangeEdits(ranges: seq<Range>)

  // ----- the server's side -----

  function Byte(source: string, i: nat): nat {
    Positions.ByteOffset(source, if i <= |source| then i else |source|)
  }

  function InBytes(source: string, s: Span): Span {
    Span(Byte(source, s.start), Byte(source, s.end))
  }

  function SymbolInBytes(source: string, symbol: Symbol): Symbol {
    var n := |symbol.references|;
    symbol.(definition := InBytes(source, symbol.definition),
            references := seq(n, i requires 0 <= i < n => InBytes(source, symbol.references[i])))
  }

  function TableInBytes(source: string, symbols: SymbolTable): SymbolTable {
    map name | name in symbols :: SymbolInBytes(source, symbols[name])
  }

  /** `symbol_at`: the label under the caret. */
  function SymbolAt(c: Converter, symbols: SymbolTable, order: seq<string>, position: Position)
    : (found: Option<(string, Role)>)
    requires c.lines.Ok() && forall n :: n in order ==> n in symbols
    ensures found.Some? ==> found.value.0 in symbols
  {
    match c.OffsetOf(position)
    case None => None
    case Some(offset) => FindAt(symbols, order, offset)
  }

  function RangeOf(c: Converter, s: Span): Range
    requires c.lines.Ok()
  {
    Range(c.PositionOf(s.start), c.PositionOf(s.end))
  }

  function RangesOf(c: Converter, spans: seq<Span>): seq<Range>
    requires c.lines.Ok()
  {
    seq(|spans|, i requires 0 <= i < |spans| => RangeOf(c, spans[i]))
  }

  function AnswerRename(
    ws: char -> bool, c: Converter, symbols: SymbolTable, order: seq<string>, position: Position, newName: string)
    : (r: RenameAnswer)
    requires c.lines.Ok() && forall n :: n in order ==> n in symbols
  {
    match RenameErrorOf(ws, newName)
    case Some(error) => Failed(error)
    case None =>
      match SymbolAt(c, symbols, order, position)
      case None => NothingThere
      case Some((name, _)) =>
        if name != newName && newName in symbols then Failed(NameTaken)
        else RangeEdits(RangesOf(c, RenameSpans(symbols, name)))
  }

  // ----- the client's side -----

  function CharacterAt(c: Converter, position: Position): Option<nat>
    requires c.lines.Ok()
  {
    match c.OffsetOf(position)
    case None => None
    case Some(offset) => Positions.CharIndex(c.source, offset)
  }

  /** The characters a range covers, read back through the same positions. */
  function Covered(c: Converter, r: Range): Option<Span>
    requires c.lines.Ok()
  {
    match (CharacterAt(c, r.start), CharacterAt(c, r.end))
    case (Some(start), Some(end)) => Some(Span(start, end))
    case _ => None
  }

  ghost function CoveredAll(c: Converter, ranges: seq<Range>): set<Span>
    requires c.lines.Ok()
  {
    set i | 0 <= i < |ranges| && Covered(c, ranges[i]).Some? :: Covered(c, ranges[i]).value
  }

  // ----- bytes and characters tell the same story -----

  lemma ByteOrder(source: string, i: nat, j: nat)
    requires i <= |source| && j <= |source|
    ensures Byte(source, i) <= Byte(source, j) <==> i <= j
  {
    if i < j {
      Positions.PrefixGrows(Positions.Utf8, source, i, j);
    } else if j < i {
      Positions.PrefixGrows(Positions.Utf8, source, j, i);
    }
  }

  ghost predicate Inside(source: string, symbol: Symbol) {
    && symbol.definition.start < symbol.definition.end <= |source|
    && forall i :: 0 <= i < |symbol.references| ==>
         symbol.references[i].start < symbol.references[i].end <= |source|
  }

  lemma TouchesInBytes(source: string, s: Span, i: nat)
    requires s.start < s.end <= |source| && i <= |source|
    ensures InBytes(source, s).Touches(Byte(source, i)) <==> s.Touches(i)
  {
    ByteOrder(source, s.start, i);
    ByteOrder(source, i, s.end);
  }

  lemma RoleInBytes(source: string, symbol: Symbol, i: nat)
    requires Inside(source, symbol) && i <= |source|
    ensures RoleAt(SymbolInBytes(source, symbol), Byte(source, i)) == RoleAt(symbol, i)
  {
    TouchesInBytes(source, symbol.definition, i);
    var bytes := SymbolInBytes(source, symbol).references;
    forall k | 0 <= k < |symbol.references|
      ensures bytes[k].Touches(Byte(source, i)) <==> symbol.references[k].Touches(i)
    {
      TouchesInBytes(source, symbol.references[k], i);
    }
  }

  lemma {:induction false} FindInBytes(source: string, symbols: SymbolTable, order: seq<string>, i: nat)
    requires forall n :: n in order ==> n in symbols && Inside(source, symbols[n])
    requires i <= |source|
    ensures FindAt(TableInBytes(source, symbols), order, Byte(source, i)) == FindAt(symbols, order, i)
    decreases |order|
  {
    if order != [] {
      assert order[0] in order;
      RoleInBytes(source, symbols[order[0]], i);
      FindInBytes(source, symbols, order[1..], i);
    }
  }

  /** Every span of the table lies inside the source. */
  lemma TableInside(d: Dialect, source: string, name: string)
    requires name in Assemble(d, source).symbols
    ensures Inside(source, Assemble(d, source).symbols[name])
  {
    var p := Parse(d, source);
    SitesInSource(d, source);
    WordsFollowItems(d.ws, p.symbols, p.symbols, p.items);
    ReferencesAreUses(d.ws, p.symbols, p.items, name);
    assert [] + Uses(p.items, name) == Uses(p.items, name);
    var symbol := Assemble(d, source).symbols[name];
    assert Site(p, name, symbol.definition);
    forall i | 0 <= i < |symbol.references|
      ensures Site(p, name, symbol.references[i])
    {
    }
  }

  lemma OffsetIsCharacter(c: Converter, position: Position, i: nat)
    requires c.lines.Ok() && i <= |c.source| && c.OffsetOf(position) == Some(Positions.ByteOffset(c.source, i))
    ensures CharacterAt(c, position) == Some(i) && c.OffsetOf(position) == Some(Byte(c.source, i))
  {
    Positions.CharIndexOfOffset(c.source, i);
  }

  lemma OnItsLine(c: Converter, position: Position, line: string, from: nat)
    requires Positions.LineAt(c, position.line, line, from)
    ensures match CharacterAt(c, position)
      case Some(i) => i <= |c.source| && c.OffsetOf(position) == Some(Byte(c.source, i))
      case None => false
  {
    Positions.OffsetAt(c, position.line, line, from, position.character);
    OffsetIsCharacter(c, position, from + Positions.Column(c.encoding, line, position.character, 0));
  }

  /** A position on some line is the position of a character, or of the end of the text. */
  lemma PositionIsCharacter(source: string, e: Positions.Encoding, position: Position)
    ensures var c := Positions.ConverterOf(source, e);
      match CharacterAt(c, position)
      case Some(i) => i <= |source| && c.OffsetOf(position) == Some(Byte(source, i))
      case None => c.OffsetOf(position) == None
  {
    if position.line < |Lines(source)| {
      Positions.LinesAt(source, e, position.line);
      OnItsLine(Positions.ConverterOf(source, e), position, Lines(source)[position.line],
                Positions.CharStart(Lines(source), position.line));
    }
  }

  /** A range the server gives out covers the characters it was made for. */
  lemma RangeCoversSpan(source: string, e: Positions.Encoding, s: Span)
    requires s.start < s.end <= |source|
    ensures var c := Positions.ConverterOf(source, e);
      Covered(c, RangeOf(c, InBytes(source, s))) == Some(s)
  {
    Positions.PositionRoundTrips(source, e, s.start);
    Positions.PositionRoundTrips(source, e, s.end);
    Positions.CharIndexOfOffset(source, s.start);
    Positions.CharIndexOfOffset(source, s.end);
  }

  // ----- the request -----

  /** What an answer's ranges cover, range by range. */
  ghost predicate CoverSpans(c: Converter, ranges: seq<Range>, spans: seq<Span>)
    requires c.lines.Ok()
  {
    |ranges| == |spans| && forall i :: 0 <= i < |ranges| ==> Covered(c, ranges[i]) == Some(spans[i])
  }

  lemma RangesCoverSpans(source: string, e: Positions.Encoding, bytes: seq<Span>, spans: seq<Span>)
    requires |bytes| == |spans|
    requires forall i :: 0 <= i < |spans| ==>
      spans[i].start < spans[i].end <= |source| && bytes[i] == InBytes(source, spans[i])
    ensures var c := Positions.ConverterOf(source, e);
      CoverSpans(c, RangesOf(c, bytes), spans)
  {
    var c := Positions.ConverterOf(source, e);
    forall i | 0 <= i < |spans|
      ensures Covered(c, RangesOf(c, bytes)[i]) == Some(spans[i])
    {
      RangeCoversSpan(source, e, spans[i]);
    }
  }

  lemma SpansInBytes(source: string, symbol: Symbol, i: nat)
    requires Inside(source, symbol) && i <= |symbol.references|
    ensures var bytes := SymbolInBytes(source, symbol);
      var span := ([symbol.definition] + symbol.references)[i];
      && span.start < span.end <= |source|
      && ([bytes.definition] + bytes.references)[i] == InBytes(source, span)
  {
    if i > 0 {
      assert ([symbol.definition] + symbol.references)[i] == symbol.references[i - 1];
    }
  }

  lemma CoveringIsEditing(c: Converter, ranges: seq<Range>, spans: seq<Span>)
    requires c.lines.Ok() && CoverSpans(c, ranges, spans)
    ensures CoveredAll(c, ranges) == EditSet(spans)
  {
    forall s | s in spans
      ensures s in CoveredAll(c, ranges)
    {
      var i :| 0 <= i < |spans| && spans[i] == s;
      assert Covered(c, ranges[i]) == Some(s);
    }
  }

  /** The label the server finds under a position is the one written around that character, if any. */
  lemma ServerFindsItsLabel(d: Dialect, source: string, e: Positions.Encoding, order: seq<string>, position: Position)
    requires forall n :: n in order <==> n in Assemble(d, source).symbols
    ensures var c, symbols := Positions.ConverterOf(source, e), Assemble(d, source).symbols;
      SymbolAt(c, TableInBytes(source, symbols), order, position) ==
        match CharacterAt(c, position)
        case Some(i) => FindAt(symbols, order, i)
        case None => None
  {
    var symbols := Assemble(d, source).symbols;
    PositionIsCharacter(source, e, position);
    forall n | n in order
      ensures Inside(source, symbols[n])
    {
      TableInside(d, source, n);
    }
    var i := CharacterAt(Positions.ConverterOf(source, e), position);
    if i.Some? {
      FindInBytes(source, symbols, order, i.value);
    }
  }

  /** The label is written around the character at the position. */
  ghost predicate Under(c: Converter, symbols: SymbolTable, position: Position, name: string)
    requires c.lines.Ok()
  {
    name in symbols && CharacterAt(c, position).Some? && On(symbols[name], CharacterAt(c, position).value)
  }

  /** The ranges are read back as spans no two of which overlap, and editing those renames the label and nothing else. */
  ghost predicate Renames(d: Dialect, c: Converter, name: string, ranges: seq<Range>, text: string)
    requires c.lines.Ok()
  {
    && (forall i :: 0 <= i < |ranges| ==> Covered(c, ranges[i]).Some?)
    && (forall i, j :: 0 <= i < j < |ranges| ==> Disjoint(Covered(c, ranges[i]).value, Covered(c, ranges[j]).value))
    && SameMeaning(
         Assemble(d, c.source), Assemble(d, ApplyEdits(c.source, CoveredAll(c, ranges), text)), name, text)
  }

  lemma SymbolRangesCover(source: string, e: Positions.Encoding, symbol: Symbol)
    requires Inside(source, symbol)
    ensures var bytes := SymbolInBytes(source, symbol);
      CoverSpans(Positions.ConverterOf(source, e),
                 RangesOf(Positions.ConverterOf(source, e), [bytes.definition] + bytes.references),
                 [symbol.definition] + symbol.references)
  {
    var inBytes := SymbolInBytes(source, symbol);
    var bytes, spans := [inBytes.definition] + inBytes.references, [symbol.definition] + symbol.references;
    forall i | 0 <= i < |spans|
      ensures spans[i].start < spans[i].end <= |source| && bytes[i] == InBytes(source, spans[i])
    {
      SpansInBytes(source, symbol, i);
    }
    RangesCoverSpans(source, e, bytes, spans);
  }

  lemma CoveringRenames(d: Dialect, c: Converter, name: string, ranges: seq<Range>, spans: seq<Span>, text: string)
    requires c.lines.Ok() && CoverSpans(c, ranges, spans)
    requires forall i, j :: 0 <= i < j < |spans| ==> Disjoint(spans[i], spans[j])
    requires SameMeaning(
      Assemble(d, c.source), Assemble(d, ApplyEdits(c.source, EditSet(spans), text)), name, text)
    ensures Renames(d, c, name, ranges, text)
  {
    CoveringIsEditing(c, ranges, spans);
  }

  lemma EditsRename(d: Dialect, source: string, e: Positions.Encoding, name: string, text: string)
    requires Sane(d) && Assemble(d, source).Succeeded() && name in Assemble(d, source).symbols
    requires RenameLabel(d.ws, Assemble(d, source).symbols, name, text).Edits?
    ensures var c, symbols := Positions.ConverterOf(source, e), Assemble(d, source).symbols;
      Renames(d, c, name, RangesOf(c, RenameSpans(TableInBytes(source, symbols), name)), text)
  {
    var c, symbols := Positions.ConverterOf(source, e), Assemble(d, source).symbols;
    TableInside(d, source, name);
    SymbolRangesCover(source, e, symbols[name]);
    RenameSpansAreTheSites(d, source, name, text);
    RenamePreservesMeaning(d, source, name, text);
    CoveringRenames(
      d, c, name, RangesOf(c, RenameSpans(TableInBytes(source, symbols), name)), RenameSpans(symbols, name), text);
  }

  lemma AnswerWhenFound(
    ws: char -> bool, c: Converter, table: SymbolTable, order: seq<string>, position: Position, name: string, text: string)
    requires c.lines.Ok() && forall n :: n in order ==> n in table
    requires RenameErrorOf(ws, text).None?
    requires var found := SymbolAt(c, table, order, position); found.Some? && found.value.0 == name
    ensures AnswerRename(ws, c, table, order, position, text)
      == if name == text || text !in table then RangeEdits(RangesOf(c, RenameSpans(table, name))) else Failed(NameTaken)
  {
  }

  /** The answer about a label that was found, to an acceptable name. */
  lemma FoundIsAnswered(
    d: Dialect, source: string, e: Positions.Encoding, order: seq<string>, position: Position, name: string, text: string)
    requires Sane(d) && Assemble(d, source).Succeeded() && RenameErrorOf(d.ws, text).None?
    requires forall n :: n in order ==> n in Assemble(d, source).symbols
    requires var found := SymbolAt(
        Positions.ConverterOf(source, e), TableInBytes(source, Assemble(d, source).symbols), order, position);
      found.Some? && found.value.0 == name
    ensures var c, symbols := Positions.ConverterOf(source, e), Assemble(d, source).symbols;
      match AnswerRename(d.ws, c, TableInBytes(source, symbols), order, position, text)
      case RangeEdits(ranges) => (name == text || text !in symbols) && Renames(d, c, name, ranges, text)
      case NothingThere => false
      case Failed(error) => error == NameTaken && text in symbols && name != text
  {
    var c, symbols := Positions.ConverterOf(source, e), Assemble(d, source).symbols;
    AnswerWhenFound(d.ws, c, TableInBytes(source, symbols), order, position, name, text);
    if name == text || text !in symbols {
      EditsRename(d, source, e, name, text);
    }
  }

  /**
   The whole request. For every source that assembles, every encoding, every position and
   every new name: if the server answers with ranges, a label is written under the position,
   and an editor that replaces what those ranges cover has renamed that label and kept the
   meaning of the program; it answers with nothing exactly when the name is acceptable and no
   label is written there; and it refuses exactly an unacceptable name, or one that another
   label already has.
   */
  lemma RenameRequestPreservesMeaning(
    d: Dialect, source: string, e: Positions.Encoding, order: seq<string>, position: Position, text: string)
    requires Sane(d) && Assemble(d, source).Succeeded()
    requires forall n :: n in order <==> n in Assemble(d, source).symbols
    ensures var c, symbols := Positions.ConverterOf(source, e), Assemble(d, source).symbols;
      match AnswerRename(d.ws, c, TableInBytes(source, symbols), order, position, text)
      case RangeEdits(ranges) =>
        && RenameErrorOf(d.ws, text).None?
        && exists name :: Under(c, symbols, position, name) && (name == text || text !in symbols)
                          && Renames(d, c, name, ranges, text)
      case NothingThere =>
        RenameErrorOf(d.ws, text).None? && forall name :: name in symbols ==> !Under(c, symbols, position, name)
      case Failed(error) =>
        || RenameErrorOf(d.ws, text) == Some(error)
        || (error == NameTaken && text in symbols && exists name :: Under(c, symbols, position, name) && name != text)
  {
    var c, symbols := Positions.ConverterOf(source, e), Assemble(d, source).symbols;
    LabelsUnder(d, source, e, order, position);
    var found := SymbolAt(c, TableInBytes(source, symbols), order, position);
    if found.Some? && RenameErrorOf(d.ws, text).None? {
      FoundIsAnswered(d, source, e, order, position, found.value.0, text);
    }
  }

  /** What the lookup finds is under the position, and when it finds nothing, nothing is. */
  lemma LabelsUnder(d: Dialect, source: string, e: Positions.Encoding, order: seq<string>, position: Position)
    requires forall n :: n in order <==> n in Assemble(d, source).symbols
    ensures var c, symbols := Positions.ConverterOf(source, e), Assemble(d, source).symbols;
      match SymbolAt(c, TableInBytes(source, symbols), order, position)
      case Some((name, _)) => Under(c, symbols, position, name)
      case None => forall name :: name in symbols ==> !Under(c, symbols, position, name)
  {
    var c := Positions.ConverterOf(source, e);
    ServerFindsItsLabel(d, source, e, order, position);
    if CharacterAt(c, position).Some? {
      CaretFindsItsLabel(d, source, order, CharacterAt(c, position).value);
    }
  }
}
