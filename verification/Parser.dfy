/**
 The first pass (crates/lib/mrs-asm/src/parser.rs): a fold over the lines, as a function of
 the parse so far and as the class that updates it.
 */
module Parser {
  import opened Words
  import opened Literals
  import opened Lexer
  import opened Syntax

  datatype Parsed = Parsed(
    origin: Option<OriginLine>, items: seq<Item>, end: Option<EndLine>, trailing: Option<Span>,
    symbols: SymbolTable, sourceMap: SourceMap, errors: seq<Diagnostic>)
  {
    function OriginAddress(): Address {
      if origin.Some? then origin.value.address else 0
    }

    /** The origin plus the number of items so far, while that is an address. */
    function NextAddress(): Option<Address> {
      var index := OriginAddress() + |items|;
      if index < WORDS_IN_MEMORY then Some(index) else None
    }

    function Report(code: Code, span: Span, line: nat): Parsed {
      this.(errors := errors + [Diagnostic(code, span, line)])
    }
  }

  const NOTHING: Parsed := Parsed(None, [], None, None, map[], SourceMap(map[], map[]), [])

  /** The characters a span covers; total, so a span that does not fit covers none. */
  function Slice(text: string, span: Span): string {
    if span.start <= span.end <= |text| then text[span.start..span.end] else ""
  }

  function Trimmed(ws: char -> bool, line: string): string {
    TrimStart(ws, TrimEnd(ws, line))
  }

  function TrimmedSpan(ws: char -> bool, line: string, base: nat): Span {
    var end := |TrimEnd(ws, line)|;
    Span(base + end - |Trimmed(ws, line)|, base + end)
  }

  function OriginDigits(text: string): Address {
    var value := if AllDigits(text, 16) then Accumulate(text, 16, 0x1_0000) else None;
    if value.Some? then Masked(value.value) else 0
  }

  /** The first `ORG` ahead of all items sets the origin; any other is reported and ignored. */
  function ParseOrigin(p: Parsed, line: string, base: nat, k: nat, keyword: Span, digits: Span): Parsed {
    var span := keyword.Join(digits).Shift(base);
    if p.items != [] || p.origin.Some? then p.Report(UnexpectedOrigin, span, k)
    else p.(origin := Some(OriginLine(OriginDigits(Slice(line, digits)), digits.Shift(base), span, k)))
  }

  function LabelError(ws: char -> bool, symbols: SymbolTable, name: string): Option<Code> {
    if name != [] && IsDecimalDigit(name[0]) then Some(LabelStartsWithDigit)
    else if exists i :: 0 <= i < |name| && ws(name[i]) then Some(LabelContainsWhitespace)
    else if name in symbols then Some(DuplicateLabel)
    else None
  }

  /** Records a label definition, or reports why it is rejected. */
  function DefineLabel(ws: char -> bool, p: Parsed, name: string, span: Span, address: Address, k: nat): (Parsed, bool) {
    match LabelError(ws, p.symbols, name)
    case Some(code) => (p.Report(code, span, k), false)
    case None => (p.(symbols := p.symbols[name := Symbol(address, span, k, [])]), true)
  }

  /** The item a statement line becomes. */
  function ItemOf(d: Dialect, line: string, base: nat, k: nat, parts: Parts, address: Address): Item {
    var mnemonic := Slice(line, parts.mnemonic);
    var whole := if parts.operand.Some? then parts.mnemonic.Join(parts.operand.value) else parts.mnemonic;
    Item(
      if parts.tag.Some? then Some(Tag(Slice(line, parts.tag.value), parts.tag.value.Shift(base))) else None,
      mnemonic, d.classify(mnemonic), parts.mnemonic.Shift(base),
      if parts.operand.Some? then Some(Operand(Slice(line, parts.operand.value), parts.operand.value.Shift(base))) else None,
      if parts.comment.Some? then Some(parts.comment.value.Shift(base)) else None,
      address, k, whole.Shift(base))
  }

  /**
   A statement line: first the address, then the label, then the map entry, then `END` or an
   item. The order shows: `END` may carry a label, and a line with a bad label adds nothing.
   */
  function ParseStatement(d: Dialect, p: Parsed, line: string, base: nat, k: nat, parts: Parts): (Parsed, bool) {
    var mnemonic := Slice(line, parts.mnemonic);
    match p.NextAddress()
    case None => (p.Report(ProgramTooLarge, parts.mnemonic.Shift(base), k), true)
    case Some(address) =>
      var (q, accepted) := if parts.tag.None? then (p, true)
                           else DefineLabel(d.ws, p, Slice(line, parts.tag.value), parts.tag.value.Shift(base), address, k);
      if !accepted then (q, false)
      else
        var mapped := q.(sourceMap := q.sourceMap.Insert(address, k));
        if d.classify(mnemonic) == DirectiveKind(End) then
          (mapped.(end := Some(EndLine(parts.mnemonic.Shift(base), k))), true)
        else
          (mapped.(items := mapped.items + [ItemOf(d, line, base, k, parts, address)]), false)
  }

  /** One live line; the flag says whether parsing stops after it. */
  function ParseLine(d: Dialect, p: Parsed, line: string, base: nat, k: nat): (Parsed, bool) {
    match FormOf(d.ws, line)
    case Blank(_) => (p, false)
    case Origin(keyword, digits, _) => (ParseOrigin(p, line, base, k, keyword, digits), false)
    case Statement(parts) => ParseStatement(d, p, line, base, k, parts)
    case Malformed => (p.Report(MalformedLine, TrimmedSpan(d.ws, line, base), k), false)
  }

  /** A line after `END`: only where the dead text starts is remembered. */
  function SkipLine(d: Dialect, p: Parsed, line: string, base: nat, total: nat): Parsed {
    if p.trailing.None? && Trimmed(d.ws, line) != [] then
      p.(trailing := Some(Span(TrimmedSpan(d.ws, line, base).start, total)))
    else p
  }

  /** What is done with a live line, and with a line after `END`. */
  datatype Reader = Reader(
    live: (Parsed, string, nat, nat) -> (Parsed, bool),
    dead: (Parsed, string, nat, nat) -> Parsed)

  function ReaderOf(d: Dialect, total: nat): Reader {
    Reader((p: Parsed, line: string, base: nat, k: nat) => ParseLine(d, p, line, base, k),
           (p: Parsed, line: string, base: nat, k: nat) => SkipLine(d, p, line, base, total))
  }

  function ParseLines(r: Reader, p: Parsed, lines: seq<string>, base: nat, k: nat, stopped: bool): Parsed
    decreases |lines|
  {
    if lines == [] then p
    else
      var (q, stop) := if stopped then (r.dead(p, lines[0], base, k), true) else r.live(p, lines[0], base, k);
      ParseLines(r, q, lines[1..], base + |lines[0]| + 1, k + 1, stop)
  }

  function Parse(d: Dialect, source: string): Parsed {
    ParseLines(ReaderOf(d, |source|), NOTHING, Lines(source), 0, 0, false)
  }

  /** One line of the loop, live or dead. */
  function ReadLine(d: Dialect, total: nat, p: Parsed, line: string, base: nat, k: nat, stopped: bool): (Parsed, bool) {
    if stopped then (SkipLine(d, p, line, base, total), true) else ParseLine(d, p, line, base, k)
  }

  lemma ParseNext(d: Dialect, total: nat, p: Parsed, lines: seq<string>, base: nat, k: nat, stopped: bool)
    requires k < |lines|
    ensures var (q, stop) := ReadLine(d, total, p, lines[k], base, k, stopped);
      ParseLines(ReaderOf(d, total), p, lines[k..], base, k, stopped)
        == ParseLines(ReaderOf(d, total), q, lines[k + 1..], base + |lines[k]| + 1, k + 1, stop)
  {
    assert lines[k..][0] == lines[k] && lines[k..][1..] == lines[k + 1..];
  }

  // ----- the parser, updating its result in place -----

  class LineParser {
    const dialect: Dialect
    var origin: Option<OriginLine>
    var items: seq<Item>
    var end: Option<EndLine>
    var trailing: Option<Span>
    var symbols: SymbolTable
    var sourceMap: SourceMap
    var errors: seq<Diagnostic>

    ghost function View(): Parsed
      reads this
    {
      Parsed(origin, items, end, trailing, symbols, sourceMap, errors)
    }

    constructor (dialect: Dialect)
      ensures View() == NOTHING && this.dialect == dialect
    {
      this.dialect := dialect;
      origin, items, end, trailing := None, [], None, None;
      symbols, sourceMap, errors := map[], SourceMap(map[], map[]), [];
    }

    method Report(code: Code, span: Span, line: nat)
      modifies this`errors
      ensures View() == old(View()).Report(code, span, line)
    {
      errors := errors + [Diagnostic(code, span, line)];
    }

    method OnOrigin(line: string, base: nat, k: nat, keyword: Span, digits: Span)
      modifies this
      ensures View() == ParseOrigin(old(View()), line, base, k, keyword, digits)
    {
      var span := keyword.Join(digits).Shift(base);
      if items != [] || origin.Some? {
        Report(UnexpectedOrigin, span, k);
        return;
      }
      origin := Some(OriginLine(OriginDigits(Slice(line, digits)), digits.Shift(base), span, k));
    }

    method Define(name: string, span: Span, address: Address, k: nat) returns (accepted: bool)
      modifies this
      ensures (View(), accepted) == DefineLabel(dialect.ws, old(View()), name, span, address, k)
    {
      var error := LabelError(dialect.ws, symbols, name);
      if error.Some? {
        Report(error.value, span, k);
        return false;
      }
      symbols := symbols[name := Symbol(address, span, k, [])];
      accepted := true;
    }

    method OnStatement(line: string, base: nat, k: nat, parts: Parts) returns (stop: bool)
      modifies this
      ensures (View(), stop) == ParseStatement(dialect, old(View()), line, base, k, parts)
    {
      var mnemonic := Slice(line, parts.mnemonic);
      var index := (if origin.Some? then origin.value.address else 0) + |items|;
      if index >= WORDS_IN_MEMORY {
        Report(ProgramTooLarge, parts.mnemonic.Shift(base), k);
        return true;
      }
      if parts.tag.Some? {
        var accepted := Define(Slice(line, parts.tag.value), parts.tag.value.Shift(base), index, k);
        if !accepted {
          return false;
        }
      }
      sourceMap := sourceMap.Insert(index, k);
      if dialect.classify(mnemonic) == DirectiveKind(End) {
        end := Some(EndLine(parts.mnemonic.Shift(base), k));
        return true;
      }
      items := items + [ItemOf(dialect, line, base, k, parts, index)];
      stop := false;
    }

    method OnLine(line: string, base: nat, k: nat) returns (stop: bool)
      modifies this
      ensures (View(), stop) == ParseLine(dialect, old(View()), line, base, k)
    {
      stop := false;
      match FormOf(dialect.ws, line) {
        case Blank(_) =>
        case Origin(keyword, digits, _) => OnOrigin(line, base, k, keyword, digits);
        case Statement(parts) => stop := OnStatement(line, base, k, parts);
        case Malformed => Report(MalformedLine, TrimmedSpan(dialect.ws, line, base), k);
      }
    }

    method OnDeadLine(line: string, base: nat, total: nat)
      modifies this`trailing
      ensures View() == SkipLine(dialect, old(View()), line, base, total)
    {
      if trailing.None? && Trimmed(dialect.ws, line) != [] {
        trailing := Some(Span(TrimmedSpan(dialect.ws, line, base).start, total));
      }
    }

    method OnNext(line: string, base: nat, k: nat, total: nat, stopped: bool) returns (stop: bool)
      modifies this
      ensures (View(), stop) == ReadLine(dialect, total, old(View()), line, base, k, stopped)
    {
      stop := stopped;
      if stopped {
        OnDeadLine(line, base, total);
      } else {
        stop := OnLine(line, base, k);
      }
    }

    method ParseSource(source: string)
      requires View() == NOTHING
      modifies this
      ensures View() == Parse(dialect, source)
    {
      var lines := Lines(source);
      var base: nat := 0;
      var stopped := false;
      for k := 0 to |lines|
        invariant ParseLines(ReaderOf(dialect, |source|), View(), lines[k..], base, k, stopped) == Parse(dialect, source)
      {
        ParseNext(dialect, |source|, View(), lines, base, k, stopped);
        stopped := OnNext(lines[k], base, k, |source|, stopped);
        base := base + |lines[k]| + 1;
      }
    }
  }
}
