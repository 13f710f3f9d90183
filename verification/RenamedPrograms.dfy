/**
 A program whose lines have been renamed parses to the same program, up to the one name,
 and emits the same words (crates/lib/mrs-asm/src/parser.rs:37-266, crates/lib/mrs-asm/src/assembler.rs).
 */
module RenamedPrograms {
  import opened Words
  import opened Instructions
  import opened Literals
  import opened Lexer
  import opened LineShapes
  import opened LineEdits
  import opened Syntax
  import opened Parser
  import opened Assembler
  import opened RenamedLines
  import opened TextEdits
  import opened Rename

  /** The same item, its label and its looked-up operand renamed if they were the name. */
  ghost predicate SameItem(a: Item, b: Item, name: string, text: string) {
    && a.kind == b.kind && a.address == b.address && a.line == b.line
    && a.tag.Some? == b.tag.Some? && a.operand.Some? == b.operand.Some?
    && (a.tag.Some? ==> b.tag.value.name == Swapped(a.tag.value.name, name, text))
    && (a.operand.Some? ==>
          b.operand.value.text ==
          if LookedUp(a).Some? then Swapped(a.operand.value.text, name, text) else a.operand.value.text)
  }

  /** The same labels at the same addresses, up to the one name. */
  ghost predicate SameTable(a: SymbolTable, b: SymbolTable, name: string, text: string) {
    && (forall n :: n in a ==> Swapped(n, name, text) in b && b[Swapped(n, name, text)].address == a[n].address)
    && (forall n :: n in b ==> (n == text && name in a) || (n != name && n in a))
  }

  ghost predicate SameProgram(p: Parsed, q: Parsed, name: string, text: string) {
    && p.errors == q.errors == []
    && p.origin.Some? == q.origin.Some? && p.OriginAddress() == q.OriginAddress() && p.end.Some? == q.end.Some?
    && |p.items| == |q.items| && (forall i :: 0 <= i < |p.items| ==> SameItem(p.items[i], q.items[i], name, text))
    && SameTable(p.symbols, q.symbols, name, text)
    && p.sourceMap == q.sourceMap
  }

  // ----- parsing only ever adds -----

  ghost predicate Extends(p: Parsed, q: Parsed) {
    && p.items <= q.items && p.errors <= q.errors
    && forall n :: n in p.symbols ==> n in q.symbols
  }

  lemma LineExtends(d: Dialect, p: Parsed, line: string, base: nat, k: nat)
    ensures Extends(p, ParseLine(d, p, line, base, k).0)
  {
  }

  ghost predicate OnlyAdds(r: Reader) {
    && (forall p: Parsed, line: string, base: nat, k: nat :: Extends(p, r.live(p, line, base, k).0))
    && (forall p: Parsed, line: string, base: nat, k: nat :: Extends(p, r.dead(p, line, base, k)))
  }

  lemma {:induction false} LinesExtend(r: Reader, p: Parsed, lines: seq<string>, base: nat, k: nat, stopped: bool)
    requires OnlyAdds(r)
    ensures Extends(p, ParseLines(r, p, lines, base, k, stopped))
    decreases |lines|
  {
    if lines != [] {
      var (q, stop) := if stopped then (r.dead(p, lines[0], base, k), true) else r.live(p, lines[0], base, k);
      LinesExtend(r, q, lines[1..], base + |lines[0]| + 1, k + 1, stop);
    }
  }

  lemma ReaderOnlyAdds(d: Dialect, total: nat)
    ensures OnlyAdds(ReaderOf(d, total))
  {
    var r := ReaderOf(d, total);
    forall p: Parsed, line: string, base: nat, k: nat
      ensures Extends(p, r.live(p, line, base, k).0)
    {
      LineExtends(d, p, line, base, k);
    }
  }

  // ----- one line -----

  /** What an assembled program's renaming may rely on: the new name is free, and `org` is no mnemonic of it. */
  ghost predicate Renamable(p: Parsed, text: string) {
    && p.errors == [] && text !in p.symbols
    && forall i :: 0 <= i < |p.items| ==> p.items[i].kind != DirectiveKind(Org)
  }

  ghost predicate GoodNames(ws: char -> bool, name: string, text: string) {
    && name != text && name != [] && text != []
    && Plain(ws, name, 0, |name|) && Plain(ws, text, 0, |text|)
    && !IsDecimalDigit(text[0])
  }

  lemma AcceptedTagIsPlain(d: Dialect, symbols: SymbolTable, line: string, parts: Parts)
    requires FormOf(d.ws, line) == Statement(parts)
    requires parts.tag.Some? ==> LabelError(d.ws, symbols, Slice(line, parts.tag.value)).None?
    ensures PlainTag(d.ws, line, parts)
  {
    StatementStarts(d.ws, line, parts);
    StatementShape(d.ws, line);
    if parts.tag.Some? {
      var t := parts.tag.value;
      var label' := Slice(line, t);
      forall i | t.start <= i < t.end
        ensures !d.ws(line[i]) && line[i] != ',' && line[i] != '/'
      {
        assert line[i] == label'[i - t.start];
      }
    }
  }

  /** A use is a use wherever the line stands. */
  lemma UseAnywhere(d: Dialect, line: string, base: nat, k: nat, parts: Parts, address: Address)
    ensures var item := ItemOf(d, line, base, k, parts, address);
      && LookedUp(item).Some? == LookedUp(ItemOf(d, line, 0, 0, parts, 0)).Some?
      && (LookedUp(item).Some? ==> LookedUp(item) == item.operand)
  {
  }

  /** The parts of a line and of its renamed line. */
  ghost predicate SameParts(d: Dialect, line: string, parts: Parts, other: string, parts': Parts, name: string, text: string) {
    && Slice(other, parts'.mnemonic) == Slice(line, parts.mnemonic)
    && parts'.tag.Some? == parts.tag.Some? && parts'.operand.Some? == parts.operand.Some?
    && (parts.tag.Some? ==> Slice(other, parts'.tag.value) == Swapped(Slice(line, parts.tag.value), name, text))
    && (parts.operand.Some? ==>
          Slice(other, parts'.operand.value)
          == if HasUse(d, line, parts, name) then text else Slice(line, parts.operand.value))
  }

  lemma ItemsAreTheSame(
    d: Dialect, line: string, base: nat, parts: Parts, other: string, base': nat, parts': Parts,
    k: nat, address: Address, name: string, text: string)
    requires SameParts(d, line, parts, other, parts', name, text)
    ensures SameItem(ItemOf(d, line, base, k, parts, address), ItemOf(d, other, base', k, parts', address), name, text)
  {
    UseAnywhere(d, line, base, k, parts, address);
  }

  lemma LabelsAreTheSame(
    ws: char -> bool, a: SymbolTable, b: SymbolTable, tag: string, address: Address, name: string, text: string,
    s: Symbol, t: Symbol)
    requires GoodNames(ws, name, text) && SameTable(a, b, name, text)
    requires LabelError(ws, a, tag).None? && text !in a && tag != text
    requires s.address == t.address
    ensures LabelError(ws, b, Swapped(tag, name, text)).None?
    ensures SameTable(a[tag := s], b[Swapped(tag, name, text) := t], name, text)
  {
  }

  /** The parse once a statement's label is recorded, if it has one. */
  function Tagged(p: Parsed, tag: Option<Tag>, address: Address, k: nat): Parsed {
    if tag.Some? then p.(symbols := p.symbols[tag.value.name := Symbol(address, tag.value.span, k, [])]) else p
  }

  lemma TagIsTheSame(
    ws: char -> bool, p: Parsed, p': Parsed, tag: Option<Tag>, tag': Option<Tag>, address: Address, k: nat,
    name: string, text: string)
    requires SameProgram(p, p', name, text) && GoodNames(ws, name, text)
    requires tag.Some? == tag'.Some? && (tag.Some? ==> tag'.value.name == Swapped(tag.value.name, name, text))
    requires tag.Some? ==> LabelError(ws, p.symbols, tag.value.name).None?
    requires text !in Tagged(p, tag, address, k).symbols
    ensures tag.Some? ==> LabelError(ws, p'.symbols, tag'.value.name).None?
    ensures SameProgram(Tagged(p, tag, address, k), Tagged(p', tag', address, k), name, text)
  {
    if tag.Some? {
      LabelsAreTheSame(ws, p.symbols, p'.symbols, tag.value.name, address, name, text,
                       Symbol(address, tag.value.span, k, []), Symbol(address, tag'.value.span, k, []));
    }
  }

  /** The parse once a statement's item, or its `END`, is recorded too. */
  function Extended(p: Parsed, item: Item, end: EndLine): (Parsed, bool) {
    var mapped := p.(sourceMap := p.sourceMap.Insert(item.address, item.line));
    if item.kind == DirectiveKind(End) then (mapped.(end := Some(end)), true)
    else (mapped.(items := mapped.items + [item]), false)
  }

  lemma ExtendedIsTheSame(p: Parsed, p': Parsed, a: Item, b: Item, end: EndLine, end': EndLine, name: string, text: string)
    requires SameProgram(p, p', name, text) && SameItem(a, b, name, text)
    ensures SameProgram(Extended(p, a, end).0, Extended(p', b, end').0, name, text)
    ensures Extended(p, a, end).1 == Extended(p', b, end').1
  {
  }

  /** An accepted statement line in two steps. */
  lemma StatementInSteps(d: Dialect, p: Parsed, line: string, base: nat, k: nat, parts: Parts)
    requires p.NextAddress().Some?
    requires parts.tag.Some? ==> LabelError(d.ws, p.symbols, Slice(line, parts.tag.value)).None?
    ensures var address := p.NextAddress().value;
      var item := ItemOf(d, line, base, k, parts, address);
      ParseStatement(d, p, line, base, k, parts)
      == Extended(Tagged(p, item.tag, address, k), item, EndLine(parts.mnemonic.Shift(base), k))
  {
  }

  /** The same program after a line, and the same verdict on whether it was the last. */
  ghost predicate SameNext(x: (Parsed, bool), y: (Parsed, bool), name: string, text: string) {
    SameProgram(x.0, y.0, name, text) && x.1 == y.1
  }

  lemma StepsAreTheSame(
    ws: char -> bool, p: Parsed, p': Parsed, a: Item, b: Item, k: nat, end: EndLine, end': EndLine, name: string, text: string)
    requires SameProgram(p, p', name, text) && GoodNames(ws, name, text) && SameItem(a, b, name, text)
    requires a.tag.Some? ==> LabelError(ws, p.symbols, a.tag.value.name).None?
    requires text !in Tagged(p, a.tag, a.address, k).symbols
    ensures b.tag.Some? ==> LabelError(ws, p'.symbols, b.tag.value.name).None?
    ensures SameNext(
      Extended(Tagged(p, a.tag, a.address, k), a, end), Extended(Tagged(p', b.tag, b.address, k), b, end'), name, text)
  {
    TagIsTheSame(ws, p, p', a.tag, b.tag, a.address, k, name, text);
    ExtendedIsTheSame(Tagged(p, a.tag, a.address, k), Tagged(p', b.tag, b.address, k), a, b, end, end', name, text);
  }

  lemma StatementIsTheSame(
    d: Dialect, p: Parsed, line: string, base: nat, parts: Parts, p': Parsed, other: string, base': nat, parts': Parts,
    k: nat, name: string, text: string)
    requires SameProgram(p, p', name, text) && GoodNames(d.ws, name, text)
    requires Renamable(ParseStatement(d, p, line, base, k, parts).0, text)
    requires SameParts(d, line, parts, other, parts', name, text)
    ensures SameNext(
      ParseStatement(d, p, line, base, k, parts), ParseStatement(d, p', other, base', k, parts'), name, text)
  {
    StatementAccepted(d, p, line, base, k, parts, text);
    var address := p.NextAddress().value;
    var a, b := ItemOf(d, line, base, k, parts, address), ItemOf(d, other, base', k, parts', address);
    StatementInSteps(d, p, line, base, k, parts);
    ItemsAreTheSame(d, line, base, parts, other, base', parts', k, address, name, text);
    StepsAreTheSame(d.ws, p, p', a, b, k, EndLine(parts.mnemonic.Shift(base), k), EndLine(parts'.mnemonic.Shift(base'), k),
                    name, text);
    SameAddress(p, p', name, text);
    StatementInSteps(d, p', other, base', k, parts');
  }

  lemma SameAddress(p: Parsed, p': Parsed, name: string, text: string)
    requires SameProgram(p, p', name, text)
    ensures p'.NextAddress() == p.NextAddress()
  {
  }

  /** What an error-free statement line tells about itself. */
  lemma StatementAccepted(d: Dialect, p: Parsed, line: string, base: nat, k: nat, parts: Parts, text: string)
    requires Renamable(ParseStatement(d, p, line, base, k, parts).0, text)
    ensures p.NextAddress().Some?
    ensures parts.tag.Some? ==> LabelError(d.ws, p.symbols, Slice(line, parts.tag.value)).None?
    ensures d.classify(Slice(line, parts.mnemonic)) != DirectiveKind(Org)
  {
    var q := ParseStatement(d, p, line, base, k, parts).0;
    if d.classify(Slice(line, parts.mnemonic)) != DirectiveKind(End) {
      assert q.items[|p.items|].kind == d.classify(Slice(line, parts.mnemonic));
    }
  }

  lemma LineIsTheSame(
    d: Dialect, p: Parsed, line: string, base: nat, p': Parsed, base': nat, k: nat, name: string, text: string)
    requires Sane(d) && GoodNames(d.ws, name, text)
    requires SameProgram(p, p', name, text) && Renamable(ParseLine(d, p, line, base, k).0, text)
    ensures var (q, stop) := ParseLine(d, p, line, base, k);
      var (q', stop') := ParseLine(d, p', RenamedLine(d, line, name, text), base', k);
      SameProgram(q, q', name, text) && stop == stop' == EndsProgram(d, line)
  {
    match FormOf(d.ws, line) {
      case Blank(_) =>
      case Origin(_, _, _) =>
      case Malformed =>
      case Statement(parts) =>
        StatementAccepted(d, p, line, base, k, parts, text);
        AcceptedTagIsPlain(d, p.symbols, line, parts);
        var parts' := RenamedLineIsTheSame(d, line, parts, name, text);
        StatementIsTheSame(d, p, line, base, parts, p', RenamedLine(d, line, name, text), base', parts', k, name, text);
    }
  }

  // ----- all lines -----

  lemma EarlierIsRenamable(p: Parsed, q: Parsed, text: string)
    requires Extends(p, q) && Renamable(q, text)
    ensures Renamable(p, text)
  {
    forall i | 0 <= i < |p.items|
      ensures p.items[i].kind != DirectiveKind(Org)
    {
      assert p.items[i] == q.items[i];
    }
  }

  /** Reading edited lines in place of the original ones gives the same program. */
  ghost predicate ReadsAlike(r: Reader, r': Reader, e: LineEditor, name: string, text: string) {
    && (forall p: Parsed, p': Parsed, line: string, base: nat, base': nat, k: nat
          {:trigger r.live(p, line, base, k), r'.live(p', e.edited(line), base', k)} ::
          SameProgram(p, p', name, text) && Renamable(r.live(p, line, base, k).0, text) ==>
            && SameProgram(r.live(p, line, base, k).0, r'.live(p', e.edited(line), base', k).0, name, text)
            && r.live(p, line, base, k).1 == r'.live(p', e.edited(line), base', k).1 == e.last(line))
    && (forall p: Parsed, p': Parsed, line: string, base: nat, base': nat, k: nat
          {:trigger r.dead(p, line, base, k), r'.dead(p', line, base', k)} ::
          SameProgram(p, p', name, text) ==>
            SameProgram(r.dead(p, line, base, k), r'.dead(p', line, base', k), name, text))
  }

  lemma {:induction false} DeadLinesAreTheSame(
    r: Reader, r': Reader, e: LineEditor, p: Parsed, p': Parsed, lines: seq<string>, base: nat, base': nat, k: nat,
    name: string, text: string)
    requires ReadsAlike(r, r', e, name, text) && SameProgram(p, p', name, text)
    ensures SameProgram(ParseLines(r, p, lines, base, k, true), ParseLines(r', p', lines, base', k, true), name, text)
    decreases |lines|
  {
    if lines != [] {
      var line := lines[0];
      DeadLinesAreTheSame(r, r', e, r.dead(p, line, base, k), r'.dead(p', line, base', k), lines[1..],
                          base + |line| + 1, base' + |line| + 1, k + 1, name, text);
    }
  }

  lemma FirstLineIsTheSame(
    r: Reader, r': Reader, e: LineEditor, p: Parsed, p': Parsed, lines: seq<string>, base: nat, base': nat, k: nat,
    name: string, text: string)
    requires lines != [] && OnlyAdds(r) && ReadsAlike(r, r', e, name, text) && SameProgram(p, p', name, text)
    requires Renamable(ParseLines(r, p, lines, base, k, false), text)
    ensures SameNext(r.live(p, lines[0], base, k), r'.live(p', e.edited(lines[0]), base', k), name, text)
    ensures r.live(p, lines[0], base, k).1 == e.last(lines[0])
  {
    var (q, stop) := r.live(p, lines[0], base, k);
    LinesExtend(r, q, lines[1..], base + |lines[0]| + 1, k + 1, stop);
    EarlierIsRenamable(q, ParseLines(r, p, lines, base, k, false), text);
  }

  lemma {:induction false} LinesAreTheSame(
    r: Reader, r': Reader, e: LineEditor, p: Parsed, p': Parsed, lines: seq<string>, base: nat, base': nat, k: nat,
    stopped: bool, name: string, text: string)
    requires OnlyAdds(r) && ReadsAlike(r, r', e, name, text) && SameProgram(p, p', name, text)
    requires Renamable(ParseLines(r, p, lines, base, k, stopped), text)
    ensures SameProgram(ParseLines(r, p, lines, base, k, stopped),
                        ParseLines(r', p', EditedLines(e, lines, stopped), base', k, stopped), name, text)
    decreases |lines|
  {
    if stopped {
      DeadLinesAreTheSame(r, r', e, p, p', lines, base, base', k, name, text);
    } else if lines != [] {
      var line, other := lines[0], e.edited(lines[0]);
      FirstLineIsTheSame(r, r', e, p, p', lines, base, base', k, name, text);
      var (q, stop) := r.live(p, line, base, k);
      LinesAreTheSame(r, r', e, q, r'.live(p', other, base', k).0, lines[1..],
                      base + |line| + 1, base' + |other| + 1, k + 1, stop, name, text);
      EditedFirst(e, lines);
    }
  }

  lemma EditedFirst(e: LineEditor, lines: seq<string>)
    requires lines != []
    ensures var edited := EditedLines(e, lines, false);
      edited != [] && edited[0] == e.edited(lines[0]) && edited[1..] == EditedLines(e, lines[1..], e.last(lines[0]))
  {
  }

  lemma ParserReadsAlike(d: Dialect, total: nat, total': nat, name: string, text: string)
    requires Sane(d) && GoodNames(d.ws, name, text)
    ensures ReadsAlike(ReaderOf(d, total), ReaderOf(d, total'), Renamer(d, name, text), name, text)
  {
    var r, r', e := ReaderOf(d, total), ReaderOf(d, total'), Renamer(d, name, text);
    forall p: Parsed, p': Parsed, line: string, base: nat, base': nat, k: nat
      | SameProgram(p, p', name, text) && Renamable(r.live(p, line, base, k).0, text)
      ensures SameProgram(r.live(p, line, base, k).0, r'.live(p', e.edited(line), base', k).0, name, text)
      ensures r.live(p, line, base, k).1 == r'.live(p', e.edited(line), base', k).1 == e.last(line)
    {
      LineIsTheSame(d, p, line, base, p', base', k, name, text);
    }
    forall p: Parsed, p': Parsed, line: string, base: nat, base': nat, k: nat | SameProgram(p, p', name, text)
      ensures SameProgram(r.dead(p, line, base, k), r'.dead(p', line, base', k), name, text)
    {
    }
  }

  // ----- the words -----

  lemma WordIsTheSame(ws: char -> bool, s: SymbolTable, t: SymbolTable, a: Item, b: Item, name: string, text: string)
    requires GoodNames(ws, name, text) && SameTable(s, t, name, text) && SameItem(a, b, name, text)
    requires AssembleItem(ws, s, a).Emitted? && text !in s
    ensures AssembleItem(ws, t, b) == AssembleItem(ws, s, a)
  {
    if LiteralRadix(a.kind).Some? {
      LiteralIsTheSame(ws, a, b, name, text);
    } else {
      assert Alias(a).Some?;
      InstructionIsTheSame(ws, s, t, a, b, name, text);
    }
  }

  lemma LiteralIsTheSame(ws: char -> bool, a: Item, b: Item, name: string, text: string)
    requires SameItem(a, b, name, text) && LiteralRadix(a.kind).Some?
    requires AssembleLiteral(ws, a, LiteralRadix(a.kind).value).Emitted?
    ensures AssembleLiteral(ws, b, LiteralRadix(a.kind).value) == AssembleLiteral(ws, a, LiteralRadix(a.kind).value)
  {
    assert LookedUp(a) == None;
  }

  lemma OperandIsTheSame(ws: char -> bool, s: SymbolTable, t: SymbolTable, x: Operand, y: Operand, name: string, text: string)
    requires GoodNames(ws, name, text) && SameTable(s, t, name, text)
    requires y.text == if LooksLikeAddress(x.text) then x.text else Swapped(x.text, name, text)
    requires ResolveOperand(s, x).Some?
    ensures ResolveOperand(t, y) == ResolveOperand(s, x)
  {
  }

  /** Both items resolve to the same opcode, and their operands correspond. */
  lemma AliasIsTheSame(a: Item, b: Item, name: string, text: string)
    requires SameItem(a, b, name, text) && Alias(a).Some? && LiteralRadix(a.kind).None?
    ensures Alias(b).Some? && Alias(b).value.0 == Alias(a).value.0
    ensures var (opcode, x) := Alias(a).value;
      var y := Alias(b).value.1;
      && x.Some? == y.Some?
      && (x.Some? && opcode.TakesOperand() ==>
            y.value.text == if LooksLikeAddress(x.value.text) then x.value.text else Swapped(x.value.text, name, text))
  {
    if a.kind == DirectiveKind(Clear) {
      assert LooksLikeAddress("0");
    }
  }

  /** The instruction an opcode and its operand resolve to. */
  function Resolved(symbols: SymbolTable, opcode: Opcode, operand: Option<Operand>): Option<Instruction> {
    match operand
    case None => if opcode.TakesOperand() then None else Some(Instruction(opcode, 0))
    case Some(o) =>
      if !opcode.TakesOperand() || ResolveOperand(symbols, o).None? then None
      else Some(Instruction(opcode, ResolveOperand(symbols, o).value))
  }

  lemma EmitsResolved(symbols: SymbolTable, item: Item, opcode: Opcode, operand: Option<Operand>)
    ensures AssembleInstruction(symbols, item, opcode, operand).Emitted? <==> Resolved(symbols, opcode, operand).Some?
    ensures Resolved(symbols, opcode, operand).Some? ==>
      AssembleInstruction(symbols, item, opcode, operand) == Emitted(Resolved(symbols, opcode, operand).value.Encode())
  {
  }

  lemma ResolvesAlike(
    ws: char -> bool, s: SymbolTable, t: SymbolTable, opcode: Opcode, x: Option<Operand>, y: Option<Operand>,
    name: string, text: string)
    requires GoodNames(ws, name, text) && SameTable(s, t, name, text) && x.Some? == y.Some?
    requires x.Some? && opcode.TakesOperand() ==>
      y.value.text == if LooksLikeAddress(x.value.text) then x.value.text else Swapped(x.value.text, name, text)
    requires Resolved(s, opcode, x).Some?
    ensures Resolved(t, opcode, y) == Resolved(s, opcode, x)
  {
    if x.Some? {
      OperandIsTheSame(ws, s, t, x.value, y.value, name, text);
    }
  }

  lemma InstructionIsTheSame(
    ws: char -> bool, s: SymbolTable, t: SymbolTable, a: Item, b: Item, name: string, text: string)
    requires GoodNames(ws, name, text) && SameTable(s, t, name, text) && SameItem(a, b, name, text)
    requires LiteralRadix(a.kind).None? && Alias(a).Some?
    requires var (opcode, x) := Alias(a).value; AssembleInstruction(s, a, opcode, x).Emitted?
    ensures Alias(b).Some?
    ensures var (opcode, x) := Alias(a).value;
      AssembleInstruction(t, b, Alias(b).value.0, Alias(b).value.1) == AssembleInstruction(s, a, opcode, x)
  {
    var (opcode, x) := Alias(a).value;
    AliasIsTheSame(a, b, name, text);
    var y := Alias(b).value.1;
    EmitsResolved(s, a, opcode, x);
    ResolvesAlike(ws, s, t, opcode, x, y, name, text);
    EmitsResolved(t, b, opcode, y);
  }
}
