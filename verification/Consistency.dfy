/**
 What the two passes agree on, for every source
 (crates/lib/mrs-asm/src/parser.rs:37-266, crates/lib/mrs-asm/src/lib.rs:176-199).
 */
module Consistency {
  import opened Words
  import opened Instructions
  import opened Literals
  import opened Lexer
  import opened Syntax
  import opened Parser
  import opened Assembler

  // ----- the first pass -----

  /** The symbol is the label of one of the items, at that item's address. */
  ghost predicate LabelsItem(p: Parsed, name: string, i: nat) {
    && i < |p.items| && name in p.symbols
    && p.items[i].tag == Some(Tag(name, p.symbols[name].definition))
    && p.items[i].address == p.symbols[name].address
    && p.items[i].line == p.symbols[name].line
  }

  /** The symbol is the label of the `END` line, one past the last word. */
  ghost predicate LabelsEnd(p: Parsed, name: string) {
    && p.end.Some? && name in p.symbols
    && p.symbols[name].address == p.OriginAddress() + |p.items|
    && p.symbols[name].line == p.end.value.line
  }

  ghost predicate ItemsInPlace(p: Parsed) {
    && p.OriginAddress() + |p.items| <= WORDS_IN_MEMORY
    && (forall i :: 0 <= i < |p.items| ==> p.items[i].address == p.OriginAddress() + i)
  }

  ghost predicate LabelsInPlace(p: Parsed) {
    && (forall name :: name in p.symbols ==> LabelsEnd(p, name) || exists i :: LabelsItem(p, name, i))
    && (forall i :: 0 <= i < |p.items| && p.items[i].tag.Some? ==> LabelsItem(p, p.items[i].tag.value.name, i))
  }

  /** Every mapped address is an item's, or the `END` line's, and comes from that line. */
  ghost predicate MapInPlace(p: Parsed) {
    && p.sourceMap.Inverse()
    && (forall i :: 0 <= i < |p.items| ==>
          p.items[i].address in p.sourceMap.byAddress && p.sourceMap.byAddress[p.items[i].address] == p.items[i].line)
    && (forall a :: a in p.sourceMap.byAddress ==>
          p.OriginAddress() <= a < p.OriginAddress() + |p.items|
          || (p.end.Some? && a == p.OriginAddress() + |p.items| && p.sourceMap.byAddress[a] == p.end.value.line))
  }

  /** Lines are used in order: the origin, then the items, then the end. */
  ghost predicate LinesInOrder(p: Parsed, k: nat) {
    && (p.origin.Some? ==> p.origin.value.line < k)
    && (p.origin.Some? ==> forall l :: l in p.sourceMap.byLine ==> p.origin.value.line < l)
    && (forall l :: l in p.sourceMap.byLine ==> l < k)
    && (forall i, j :: 0 <= i < j < |p.items| ==> p.items[i].line < p.items[j].line)
    && (p.end.Some? ==> forall i :: 0 <= i < |p.items| ==> p.items[i].line < p.end.value.line)
  }

  ghost predicate Consistent(p: Parsed, k: nat) {
    ItemsInPlace(p) && LabelsInPlace(p) && MapInPlace(p) && LinesInOrder(p, k)
  }

  lemma OriginKeeps(p: Parsed, line: string, base: nat, k: nat, keyword: Span, digits: Span)
    requires Consistent(p, k) && p.end.None?
    ensures Consistent(ParseOrigin(p, line, base, k, keyword, digits), k + 1)
    ensures ParseOrigin(p, line, base, k, keyword, digits).end.None?
  {
    var q := ParseOrigin(p, line, base, k, keyword, digits);
    if p.items != [] || p.origin.Some? {
      assert forall name, i :: LabelsItem(p, name, i) ==> LabelsItem(q, name, i);
    } else {
      forall name
        ensures name !in p.symbols
      {
        assert forall i :: !LabelsItem(p, name, i);
      }
      assert forall l :: l in p.sourceMap.byLine ==> p.sourceMap.byLine[l] in p.sourceMap.byAddress;
    }
  }

  lemma ReportKeeps(p: Parsed, code: Code, span: Span, k: nat)
    requires Consistent(p, k)
    ensures Consistent(p.Report(code, span, k), k + 1)
  {
    var q := p.Report(code, span, k);
    assert forall name, i :: LabelsItem(p, name, i) ==> LabelsItem(q, name, i);
    assert forall name :: LabelsEnd(p, name) ==> LabelsEnd(q, name);
  }

  function WithSymbol(symbols: SymbolTable, tag: Option<Tag>, address: Address, k: nat): SymbolTable {
    if tag.Some? then symbols[tag.value.name := Symbol(address, tag.value.span, k, [])] else symbols
  }

  /** An accepted line: its label and its map entry, before its item or `END` is added. */
  ghost predicate Accepts(p: Parsed, q: Parsed, tag: Option<Tag>, k: nat) {
    && p.NextAddress().Some? && (tag.Some? ==> tag.value.name !in p.symbols)
    && q.origin == p.origin
    && q.symbols == WithSymbol(p.symbols, tag, p.NextAddress().value, k)
    && q.sourceMap == p.sourceMap.Insert(p.NextAddress().value, k)
  }

  lemma FreshEntry(p: Parsed, k: nat)
    requires Consistent(p, k) && p.end.None? && p.NextAddress().Some?
    ensures p.NextAddress().value !in p.sourceMap.byAddress && k !in p.sourceMap.byLine
    ensures p.sourceMap.Insert(p.NextAddress().value, k).Inverse()
    ensures forall i :: 0 <= i < |p.items| ==> p.items[i].line < k && p.items[i].line in p.sourceMap.byLine
  {
    forall i | 0 <= i < |p.items|
      ensures p.items[i].line < k && p.items[i].line in p.sourceMap.byLine
    {
      assert p.items[i].address in p.sourceMap.byAddress;
    }
  }

  ghost predicate AddsItem(p: Parsed, q: Parsed, tag: Option<Tag>, item: Item, k: nat) {
    && p.end.None? && q.end.None? && Accepts(p, q, tag, k)
    && q.items == p.items + [item]
    && item.tag == tag && item.address == p.NextAddress().value && item.line == k
  }

  lemma ItemKeepsLabels(p: Parsed, q: Parsed, tag: Option<Tag>, item: Item, k: nat)
    requires LabelsInPlace(p) && AddsItem(p, q, tag, item, k)
    ensures LabelsInPlace(q)
  {
    forall name | name in q.symbols
      ensures exists i :: LabelsItem(q, name, i)
    {
      if name in p.symbols {
        var i :| LabelsItem(p, name, i);
        assert LabelsItem(q, name, i);
      } else {
        assert LabelsItem(q, name, |p.items|);
      }
    }
    forall i | 0 <= i < |q.items| && q.items[i].tag.Some?
      ensures LabelsItem(q, q.items[i].tag.value.name, i)
    {
      if i < |p.items| {
        assert LabelsItem(p, p.items[i].tag.value.name, i);
      }
    }
  }

  lemma ItemKeepsMap(p: Parsed, q: Parsed, tag: Option<Tag>, item: Item, k: nat)
    requires Consistent(p, k) && AddsItem(p, q, tag, item, k)
    ensures MapInPlace(q)
  {
    FreshEntry(p, k);
  }

  lemma ItemKeepsOrder(p: Parsed, q: Parsed, tag: Option<Tag>, item: Item, k: nat)
    requires Consistent(p, k) && AddsItem(p, q, tag, item, k)
    ensures LinesInOrder(q, k + 1)
  {
    FreshEntry(p, k);
  }

  lemma ItemKeeps(p: Parsed, q: Parsed, tag: Option<Tag>, item: Item, k: nat)
    requires Consistent(p, k) && AddsItem(p, q, tag, item, k)
    ensures Consistent(q, k + 1)
  {
    ItemKeepsLabels(p, q, tag, item, k);
    ItemKeepsMap(p, q, tag, item, k);
    ItemKeepsOrder(p, q, tag, item, k);
  }

  ghost predicate AddsEnd(p: Parsed, q: Parsed, tag: Option<Tag>, k: nat) {
    p.end.None? && q.end.Some? && q.end.value.line == k && Accepts(p, q, tag, k) && q.items == p.items
  }

  lemma EndKeepsLabels(p: Parsed, q: Parsed, tag: Option<Tag>, k: nat)
    requires LabelsInPlace(p) && AddsEnd(p, q, tag, k)
    ensures LabelsInPlace(q)
  {
    forall name | name in q.symbols
      ensures LabelsEnd(q, name) || exists i :: LabelsItem(q, name, i)
    {
      if name in p.symbols {
        var i :| LabelsItem(p, name, i);
        assert LabelsItem(q, name, i);
      }
    }
    forall i | 0 <= i < |q.items| && q.items[i].tag.Some?
      ensures LabelsItem(q, q.items[i].tag.value.name, i)
    {
      assert LabelsItem(p, p.items[i].tag.value.name, i);
    }
  }

  lemma EndKeeps(p: Parsed, q: Parsed, tag: Option<Tag>, k: nat)
    requires Consistent(p, k) && AddsEnd(p, q, tag, k)
    ensures Consistent(q, k + 1)
  {
    EndKeepsLabels(p, q, tag, k);
    EndKeepsMap(p, q, tag, k);
  }

  lemma EndKeepsMap(p: Parsed, q: Parsed, tag: Option<Tag>, k: nat)
    requires Consistent(p, k) && AddsEnd(p, q, tag, k)
    ensures MapInPlace(q) && LinesInOrder(q, k + 1)
  {
    FreshEntry(p, k);
  }

  lemma AcceptedKeeps(d: Dialect, p: Parsed, line: string, base: nat, k: nat, parts: Parts)
    requires Consistent(p, k) && p.end.None? && p.NextAddress().Some?
    requires var tag := ItemOf(d, line, base, k, parts, 0).tag;
      tag.Some? ==> LabelError(d.ws, p.symbols, tag.value.name).None?
    ensures Consistent(ParseStatement(d, p, line, base, k, parts).0, k + 1)
  {
    var q := ParseStatement(d, p, line, base, k, parts).0;
    var item := ItemOf(d, line, base, k, parts, p.NextAddress().value);
    if item.kind == DirectiveKind(End) {
      EndKeeps(p, q, item.tag, k);
    } else {
      ItemKeeps(p, q, item.tag, item, k);
    }
  }

  lemma StatementKeeps(d: Dialect, p: Parsed, line: string, base: nat, k: nat, parts: Parts)
    requires Consistent(p, k) && p.end.None?
    ensures Consistent(ParseStatement(d, p, line, base, k, parts).0, k + 1)
    ensures !ParseStatement(d, p, line, base, k, parts).1 ==> ParseStatement(d, p, line, base, k, parts).0.end.None?
  {
    if p.NextAddress().None? {
      ReportKeeps(p, ProgramTooLarge, parts.mnemonic.Shift(base), k);
    } else {
      var tag := ItemOf(d, line, base, k, parts, 0).tag;
      if tag.Some? && LabelError(d.ws, p.symbols, tag.value.name).Some? {
        ReportKeeps(p, LabelError(d.ws, p.symbols, tag.value.name).value, tag.value.span, k);
      } else {
        AcceptedKeeps(d, p, line, base, k, parts);
      }
    }
  }

  lemma LineKeeps(d: Dialect, p: Parsed, line: string, base: nat, k: nat)
    requires Consistent(p, k) && p.end.None?
    ensures Consistent(ParseLine(d, p, line, base, k).0, k + 1)
    ensures !ParseLine(d, p, line, base, k).1 ==> ParseLine(d, p, line, base, k).0.end.None?
  {
    match FormOf(d.ws, line) {
      case Blank(_) =>
      case Origin(keyword, digits, _) => OriginKeeps(p, line, base, k, keyword, digits);
      case Statement(parts) => StatementKeeps(d, p, line, base, k, parts);
      case Malformed => ReportKeeps(p, MalformedLine, TrimmedSpan(d.ws, line, base), k);
    }
  }

  /** Where the dead text starts matters to none of it. */
  lemma TrailingDoesNotMatter(p: Parsed, trailing: Option<Span>, k: nat)
    requires Consistent(p, k)
    ensures Consistent(p.(trailing := trailing), k + 1)
  {
    var q := p.(trailing := trailing);
    assert forall name, i :: LabelsItem(p, name, i) ==> LabelsItem(q, name, i);
    assert forall name :: LabelsEnd(p, name) ==> LabelsEnd(q, name);
  }

  lemma SkipKeeps(d: Dialect, p: Parsed, line: string, base: nat, k: nat, total: nat)
    requires Consistent(p, k)
    ensures Consistent(SkipLine(d, p, line, base, total), k + 1)
  {
    TrailingDoesNotMatter(p, SkipLine(d, p, line, base, total).trailing, k);
  }

  ghost predicate LiveKeeps(p: Parsed, k: nat, next: (Parsed, bool)) {
    Consistent(p, k) && p.end.None? ==> Consistent(next.0, k + 1) && (!next.1 ==> next.0.end.None?)
  }

  ghost predicate DeadKeeps(p: Parsed, k: nat, next: Parsed) {
    Consistent(p, k) ==> Consistent(next, k + 1)
  }

  /** Every line read keeps the parse consistent. */
  ghost predicate Keeps(r: Reader) {
    && (forall p: Parsed, line: string, base: nat, k: nat :: LiveKeeps(p, k, r.live(p, line, base, k)))
    && (forall p: Parsed, line: string, base: nat, k: nat :: DeadKeeps(p, k, r.dead(p, line, base, k)))
  }

  lemma OnLiveLine(d: Dialect, p: Parsed, line: string, base: nat, k: nat)
    ensures LiveKeeps(p, k, ParseLine(d, p, line, base, k))
  {
    if Consistent(p, k) && p.end.None? {
      LineKeeps(d, p, line, base, k);
    }
  }

  lemma OnDeadLine(d: Dialect, p: Parsed, line: string, base: nat, k: nat, total: nat)
    ensures DeadKeeps(p, k, SkipLine(d, p, line, base, total))
  {
    if Consistent(p, k) {
      SkipKeeps(d, p, line, base, k, total);
    }
  }

  lemma ReaderKeeps(d: Dialect, total: nat)
    ensures Keeps(ReaderOf(d, total))
  {
    var r := ReaderOf(d, total);
    forall p: Parsed, line: string, base: nat, k: nat
      ensures LiveKeeps(p, k, r.live(p, line, base, k)) && DeadKeeps(p, k, r.dead(p, line, base, k))
    {
      OnLiveLine(d, p, line, base, k);
      OnDeadLine(d, p, line, base, k, total);
    }
  }

  lemma {:induction false} LinesKeep(r: Reader, p: Parsed, lines: seq<string>, base: nat, k: nat, stopped: bool)
    requires Keeps(r) && Consistent(p, k) && (!stopped ==> p.end.None?)
    ensures Consistent(ParseLines(r, p, lines, base, k, stopped), k + |lines|)
    decreases |lines|
  {
    if lines != [] {
      var (q, stop) := if stopped then (r.dead(p, lines[0], base, k), true) else r.live(p, lines[0], base, k);
      assert LiveKeeps(p, k, r.live(p, lines[0], base, k)) && DeadKeeps(p, k, r.dead(p, lines[0], base, k));
      LinesKeep(r, q, lines[1..], base + |lines[0]| + 1, k + 1, stop);
    }
  }

  // ----- the second pass -----

  /** The same labels at the same addresses, whatever references have been recorded. */
  ghost predicate SameAddresses(a: SymbolTable, b: SymbolTable) {
    a.Keys == b.Keys && forall name :: name in a ==> a[name].address == b[name].address
  }

  lemma ReferencesDoNotMatter(ws: char -> bool, a: SymbolTable, b: SymbolTable, item: Item)
    requires SameAddresses(a, b)
    ensures AssembleItem(ws, a, item) == AssembleItem(ws, b, item)
    ensures SameAddresses(a, WithReference(b, item))
  {
  }

  /** Every item emits its word. */
  ghost predicate AllEmitted(ws: char -> bool, table: SymbolTable, items: seq<Item>) {
    forall i :: 0 <= i < |items| ==> AssembleItem(ws, table, items[i]).Emitted?
  }

  lemma {:induction false} WordsFollowItems(ws: char -> bool, table: SymbolTable, symbols: SymbolTable, items: seq<Item>)
    requires SameAddresses(table, symbols)
    ensures |AssembleItems(ws, symbols, items).0| == |items|
    ensures SameAddresses(table, AssembleItems(ws, symbols, items).1)
    ensures forall i :: 0 <= i < |items| ==>
      AssembleItems(ws, symbols, items).0[i] == WordOf(AssembleItem(ws, table, items[i]))
    ensures AssembleItems(ws, symbols, items).2 == [] <==> AllEmitted(ws, table, items)
    decreases |items|
  {
    if items != [] {
      ReferencesDoNotMatter(ws, table, symbols, items[0]);
      WordsFollowItems(ws, table, WithReference(symbols, items[0]), items[1..]);
      AllOrFirst(ws, table, items);
    }
  }

  lemma AllOrFirst(ws: char -> bool, table: SymbolTable, items: seq<Item>)
    requires items != []
    ensures AllEmitted(ws, table, items) <==>
      AssembleItem(ws, table, items[0]).Emitted? && AllEmitted(ws, table, items[1..])
  {
    var rest := items[1..];
    if AllEmitted(ws, table, items) {
      forall i | 0 <= i < |rest|
        ensures AssembleItem(ws, table, rest[i]).Emitted?
      {
        assert rest[i] == items[i + 1];
      }
    } else if AssembleItem(ws, table, items[0]).Emitted? {
      var i :| 0 <= i < |items| && !AssembleItem(ws, table, items[i]).Emitted?;
      assert rest[i - 1] == items[i];
    }
  }

  /**
   Two-pass consistency, for every source, with or without errors: one word per item, item
   `i` at the origin plus `i`, every label at its own item's address or, on `END`, one past
   the last word, the source map's directions inverse to each other, an accepted `ORG` above
   every line that was given an address, and everything inside memory.
   */
  lemma TwoPassConsistency(d: Dialect, source: string)
    ensures var a := Assemble(d, source);
      var p := a.program;
      && |a.words| == |p.items|
      && a.origin + |a.words| <= WORDS_IN_MEMORY
      && (forall i :: 0 <= i < |p.items| ==> p.items[i].address == a.origin + i)
      && SameAddresses(p.symbols, a.symbols)
      && (forall name :: name in p.symbols ==> LabelsEnd(p, name) || exists i :: LabelsItem(p, name, i))
      && (forall i :: 0 <= i < |p.items| && p.items[i].tag.Some? ==> LabelsItem(p, p.items[i].tag.value.name, i))
      && p.sourceMap.Inverse()
      && (forall i :: 0 <= i < |p.items| ==>
            p.items[i].address in p.sourceMap.byAddress
            && p.sourceMap.byAddress[p.items[i].address] == p.items[i].line)
      && (p.origin.Some? ==> forall l :: l in p.sourceMap.byLine ==> p.origin.value.line < l)
      && (a.Succeeded() <==>
            p.errors == [] && AllEmitted(d.ws, p.symbols, p.items))
      && (forall i :: 0 <= i < |p.items| ==> a.words[i] == WordOf(AssembleItem(d.ws, p.symbols, p.items[i])))
  {
    ReaderKeeps(d, |source|);
    LinesKeep(ReaderOf(d, |source|), NOTHING, Lines(source), 0, 0, false);
    var p := Parse(d, source);
    WordsFollowItems(d.ws, p.symbols, p.symbols, p.items);
  }

  lemma ImageAt(a: Assembly, x: Address)
    requires a.Image().Some?
    ensures a.Image().value[x] == if a.origin <= x < a.origin + |a.words| then a.words[x - a.origin] else 0
  {
  }

  lemma ImageOfWords(a: Assembly)
    requires a.origin + |a.words| <= WORDS_IN_MEMORY
    ensures a.Succeeded() <==> a.Image().Some?
    ensures a.Succeeded() ==> forall x: Address ::
      a.Image().value[x] == if a.origin <= x < a.origin + |a.words| then a.words[x - a.origin] else 0
  {
    if a.Succeeded() {
      forall x: Address
        ensures a.Image().value[x] == if a.origin <= x < a.origin + |a.words| then a.words[x - a.origin] else 0
      {
        ImageAt(a, x);
      }
    }
  }

  /** A program that assembles has an image: its words at the origin, and zero everywhere else. */
  lemma ImageHoldsTheWords(d: Dialect, source: string)
    ensures var a := Assemble(d, source);
      && (a.Succeeded() <==> a.Image().Some?)
      && (a.Succeeded() ==> forall x: Address ::
            a.Image().value[x] == if a.origin <= x < a.origin + |a.words| then a.words[x - a.origin] else 0)
  {
    TwoPassConsistency(d, source);
    ImageOfWords(Assemble(d, source));
  }

  // ----- what the words mean -----

  lemma ThreeDigitsFit(text: string)
    requires |text| == 3 && AllDigits(text, 16)
    ensures Meaning(text, 16) <= 0xFFF && OriginDigits(text) == Meaning(text, 16)
  {
    MeaningBound(text, 16);
    PowSixteen(3);
    AccumulateIsMeaning(text, 16, 0x1_0000);
  }

  /** The digits of an `ORG` line are hexadecimal and fit: neither the fallback nor the mask is ever needed. */
  lemma OriginMeansItsDigits(ws: char -> bool, line: string)
    requires FormOf(ws, line).Origin?
    ensures var text := Slice(line, FormOf(ws, line).digits);
      |text| == 3 && AllDigits(text, 16) && Meaning(text, 16) <= 0xFFF && OriginDigits(text) == Meaning(text, 16)
  {
    var digits := FormOf(ws, line).digits;
    var text := Slice(line, digits);
    assert OriginOf(ws, line) == Some(FormOf(ws, line));
    assert text[0] == line[digits.start] && text[1] == line[digits.start + 1] && text[2] == line[digits.start + 2];
    HexDigits(text);
    ThreeDigitsFit(text);
  }

  /** What an operand stands for: its hexadecimal value, or the place its label is on. */
  ghost predicate StandsFor(p: Parsed, text: string, address: Address) {
    if LooksLikeAddress(text) then AllDigits(text, 16) && address == Meaning(text, 16)
    else
      || (LabelsEnd(p, text) && address == p.OriginAddress() + |p.items|)
      || exists j :: LabelsItem(p, text, j) && address == p.OriginAddress() + j
  }

  /** The instruction an item writes down. */
  ghost predicate Writes(p: Parsed, item: Item, i: Instruction) {
    && Alias(item).Some? && i.opcode == Alias(item).value.0
    && match Alias(item).value.1
       case None => !i.opcode.TakesOperand() && i.operand == 0
       case Some(operand) => i.opcode.TakesOperand() && StandsFor(p, operand.text, i.operand)
  }

  lemma ResolvedStandsFor(p: Parsed, operand: Operand)
    requires ItemsInPlace(p) && LabelsInPlace(p) && ResolveOperand(p.symbols, operand).Some?
    ensures StandsFor(p, operand.text, ResolveOperand(p.symbols, operand).value)
  {
    if LooksLikeAddress(operand.text) {
      AddressLiteralsMeanWhatTheySpell(operand.text);
    } else if !LabelsEnd(p, operand.text) {
      var j :| LabelsItem(p, operand.text, j);
      assert p.symbols[operand.text].address == p.OriginAddress() + j;
    }
  }

  /**
   End to end: in a program that assembles, the word of a literal line is the integer written
   there, modulo 2^16, and any other word decodes to the operator written there, with the
   hexadecimal value or the address of the label written after it.
   */
  lemma WordsMeanTheirLines(d: Dialect, source: string, i: nat)
    requires Assemble(d, source).Succeeded() && i < |Assemble(d, source).program.items|
    ensures |Assemble(d, source).words| == |Assemble(d, source).program.items|
    ensures var p, word := Assemble(d, source).program, Assemble(d, source).words[i];
      var item := p.items[i];
      match LiteralRadix(item.kind)
      case Some(radix) =>
        && item.operand.Some? && IsLiteral(d.ws, item.operand.value.text, radix)
        && word == Integer(d.ws, item.operand.value.text, radix) % 0x1_0000
      case None => Instruction.Decode(word).Some? && Writes(p, item, Instruction.Decode(word).value)
  {
    var p := Parse(d, source);
    ReaderKeeps(d, |source|);
    LinesKeep(ReaderOf(d, |source|), NOTHING, Lines(source), 0, 0, false);
    WordsFollowItems(d.ws, p.symbols, p.symbols, p.items);
    assert AssembleItem(d.ws, p.symbols, p.items[i]).Emitted?;
    EmittedMeans(d.ws, p, p.items[i]);
  }

  lemma EmittedMeans(ws: char -> bool, p: Parsed, item: Item)
    requires ItemsInPlace(p) && LabelsInPlace(p) && AssembleItem(ws, p.symbols, item).Emitted?
    ensures var word := AssembleItem(ws, p.symbols, item).word;
      match LiteralRadix(item.kind)
      case Some(radix) =>
        && item.operand.Some? && IsLiteral(ws, item.operand.value.text, radix)
        && word == Integer(ws, item.operand.value.text, radix) % 0x1_0000
      case None => Instruction.Decode(word).Some? && Writes(p, item, Instruction.Decode(word).value)
  {
    var word := AssembleItem(ws, p.symbols, item).word;
    if LiteralRadix(item.kind).Some? {
      FittingLiteral(ws, item.operand.value.text, LiteralRadix(item.kind).value);
    } else {
      var (opcode, operand) := Alias(item).value;
      if operand.Some? {
        ResolvedStandsFor(p, operand.value);
        EncodeDecode(Instruction(opcode, ResolveOperand(p.symbols, operand.value).value), word);
      } else {
        EncodeDecode(Instruction(opcode, 0), word);
      }
    }
  }
}
