/**
 The second pass: items to words (crates/lib/mrs-asm/src/assembler.rs), and the assembly of
 a whole source (crates/lib/mrs-asm/src/lib.rs:190-248).
 */
module Assembler {
  import opened Words
  import opened Instructions
  import opened Literals
  import opened Lexer
  import opened Syntax
  import opened Parser

  function LiteralRadix(kind: Kind): Option<Radix> {
    match kind
    case DirectiveKind(Dec) => Some(Decimal)
    case DirectiveKind(Oct) => Some(Octal)
    case DirectiveKind(Hexa) => Some(Hexadecimal)
    case _ => None
  }

  /** What an item executes as: the two aliases resolved, and nothing for a literal or an unknown word. */
  function Alias(item: Item): Option<(Opcode, Option<Operand>)> {
    match item.kind
    case OpcodeKind(opcode) => Some((opcode, item.operand))
    case DirectiveKind(Adr) => Some((JnS, item.operand))
    case DirectiveKind(Clear) => Some((LoadImmi, Some(Operand("0", item.mnemonicSpan))))
    case _ => None
  }

  datatype Emission = Emitted(word: Word) | Rejected(diagnostic: Diagnostic)

  function AssembleLiteral(ws: char -> bool, item: Item, radix: Radix): Emission {
    match item.operand
    case None => Rejected(Diagnostic(MissingOperand, item.span, item.line))
    case Some(operand) =>
      match ParseWord(ws, operand.text, radix)
      case Fits(value) => Emitted(value)
      case Bad(OutOfRange) => Rejected(Diagnostic(LiteralOutOfRange, operand.span, item.line))
      case Bad(_) => Rejected(Diagnostic(MalformedLiteral, operand.span, item.line))
  }

  /** A literal names its address; anything else is looked up as a label. */
  function ResolveOperand(symbols: SymbolTable, operand: Operand): Option<Address> {
    if LooksLikeAddress(operand.text) then AddressLiteral(operand.text)
    else if operand.text in symbols then Some(symbols[operand.text].address)
    else None
  }

  function AssembleInstruction(symbols: SymbolTable, item: Item, opcode: Opcode, operand: Option<Operand>): Emission {
    match operand
    case None =>
      if opcode.TakesOperand() then Rejected(Diagnostic(MissingOperand, item.span, item.line))
      else Emitted(Instruction(opcode, 0).Encode())
    case Some(o) =>
      if !opcode.TakesOperand() then Rejected(Diagnostic(UnexpectedOperand, o.span, item.line))
      else
        match ResolveOperand(symbols, o)
        case Some(address) => Emitted(Instruction(opcode, address).Encode())
        case None =>
          Rejected(Diagnostic(if LooksLikeAddress(o.text) then AddressOutOfRange else UnknownLabel, o.span, item.line))
  }

  function AssembleItem(ws: char -> bool, symbols: SymbolTable, item: Item): Emission {
    match LiteralRadix(item.kind)
    case Some(radix) => AssembleLiteral(ws, item, radix)
    case None =>
      match Alias(item)
      case None => Rejected(Diagnostic(UnknownMnemonic, item.mnemonicSpan, item.line))
      case Some(resolved) => AssembleInstruction(symbols, item, resolved.0, resolved.1)
  }

  /** The operand an item looks up as a label, if it looks one up. */
  function LookedUp(item: Item): Option<Operand> {
    if LiteralRadix(item.kind).Some? || Alias(item).None? then None
    else
      var (opcode, operand) := Alias(item).value;
      if operand.Some? && opcode.TakesOperand() && !LooksLikeAddress(operand.value.text) then operand else None
  }

  /** A failed item still emits a zero, so words stay aligned with items. */
  function WordOf(emission: Emission): Word {
    if emission.Emitted? then emission.word else 0
  }

  function ErrorOf(emission: Emission): seq<Diagnostic> {
    if emission.Rejected? then [emission.diagnostic] else []
  }

  function WithReference(symbols: SymbolTable, item: Item): SymbolTable {
    match LookedUp(item)
    case Some(operand) => Referenced(symbols, operand.text, operand.span)
    case None => symbols
  }

  function AssembleItems(ws: char -> bool, symbols: SymbolTable, items: seq<Item>): (seq<Word>, SymbolTable, seq<Diagnostic>) {
    if items == [] then ([], symbols, [])
    else
      var emission := AssembleItem(ws, symbols, items[0]);
      var (words, after, errors) := AssembleItems(ws, WithReference(symbols, items[0]), items[1..]);
      ([WordOf(emission)] + words, after, ErrorOf(emission) + errors)
  }

  datatype Assembly = Assembly(
    program: Parsed, origin: Address, words: seq<Word>, symbols: SymbolTable, errors: seq<Diagnostic>)
  {
    predicate Succeeded() {
      errors == []
    }

    /** The words with zeros before and after them, once there are no errors. */
    function Image(): Option<Memory> {
      if !Succeeded() || origin + |words| > WORDS_IN_MEMORY then None
      else Some(seq(origin, _ => 0) + words + seq(WORDS_IN_MEMORY - origin - |words|, _ => 0))
    }
  }

  function Assemble(d: Dialect, source: string): Assembly {
    var p := Parse(d, source);
    var (words, symbols, errors) := AssembleItems(d.ws, p.symbols, p.items);
    Assembly(p, p.OriginAddress(), words, symbols, p.errors + errors)
  }

  // ----- the second pass as the loop it is -----

  /** The result of the pass, given what has been emitted so far and the items to come. */
  ghost function Resumed(
    ws: char -> bool, words: seq<Word>, symbols: SymbolTable, errors: seq<Diagnostic>, items: seq<Item>)
    : (seq<Word>, SymbolTable, seq<Diagnostic>)
  {
    var (more, after, rest) := AssembleItems(ws, symbols, items);
    (words + more, after, errors + rest)
  }

  lemma ResumeAfter(
    ws: char -> bool, words: seq<Word>, symbols: SymbolTable, errors: seq<Diagnostic>, items: seq<Item>)
    requires items != []
    ensures var emission := AssembleItem(ws, symbols, items[0]);
      Resumed(ws, words, symbols, errors, items)
      == Resumed(ws, words + [WordOf(emission)], WithReference(symbols, items[0]), errors + ErrorOf(emission), items[1..])
  {
    var emission := AssembleItem(ws, symbols, items[0]);
    var (more, after, rest) := AssembleItems(ws, WithReference(symbols, items[0]), items[1..]);
    assert words + ([WordOf(emission)] + more) == words + [WordOf(emission)] + more;
    assert errors + (ErrorOf(emission) + rest) == errors + ErrorOf(emission) + rest;
  }

  lemma ResumeAtEnd(ws: char -> bool, words: seq<Word>, symbols: SymbolTable, errors: seq<Diagnostic>)
    ensures Resumed(ws, words, symbols, errors, []) == (words, symbols, errors)
    ensures forall table, items :: Resumed(ws, [], table, [], items) == AssembleItems(ws, table, items)
  {
    assert words + [] == words && errors + [] == errors;
    forall table, items
      ensures Resumed(ws, [], table, [], items) == AssembleItems(ws, table, items)
    {
      var (more, after, rest) := AssembleItems(ws, table, items);
      assert [] + more == more && [] + rest == rest;
    }
  }

  /** Words are collected item by item while references and diagnostics accumulate. */
  method AssembleProgram(ws: char -> bool, items: seq<Item>, table: SymbolTable)
    returns (words: seq<Word>, symbols: SymbolTable, errors: seq<Diagnostic>)
    ensures (words, symbols, errors) == AssembleItems(ws, table, items)
    ensures |words| == |items|
  {
    words, symbols, errors := [], table, [];
    for i := 0 to |items|
      invariant |words| == i
      invariant Resumed(ws, words, symbols, errors, items[i..]) == Resumed(ws, [], table, [], items)
    {
      ResumeAfter(ws, words, symbols, errors, items[i..]);
      var item := items[i];
      var emission := AssembleItem(ws, symbols, item);
      words := words + [WordOf(emission)];
      errors := errors + ErrorOf(emission);
      symbols := WithReference(symbols, item);
    }
    assert items[|items|..] == [];
    ResumeAtEnd(ws, words, symbols, errors);
  }

  method AssembleSource(d: Dialect, source: string) returns (assembly: Assembly)
    ensures assembly == Assemble(d, source)
  {
    var parser := new LineParser(d);
    parser.ParseSource(source);
    var program := Parsed(parser.origin, parser.items, parser.end, parser.trailing, parser.symbols,
                          parser.sourceMap, parser.errors);
    var words, symbols, errors := AssembleProgram(d.ws, program.items, program.symbols);
    assembly := Assembly(program, program.OriginAddress(), words, symbols, program.errors + errors);
  }
}
