/**
 Sources without labels, and lines with a mnemonic, perhaps one blank and an operand, and
 nothing else: enough to follow a concrete source from its text to its graph
 (crates/lib/mrs-asm/src/lib.rs:233-247, crates/lib/mrs-lint/src/cfg.rs:62-78).
 */
module PlainSources {
  import opened Words
  import opened Instructions
  import opened Literals
  import opened Patterns
  import opened Lexer
  import opened Syntax
  import opened Parser
  import opened Assembler
  import opened Consistency
  import opened Cfg

  // ----- sources without labels, line by line -----

  /** What a line without a label says: its mnemonic's meaning and the text of its operand. */
  datatype Spelling = Spelling(kind: Kind, operand: Option<string>)

  ghost predicate Spells(d: Dialect, line: string, s: Spelling) {
    && FormOf(d.ws, line).Statement?
    && var parts := FormOf(d.ws, line).parts;
       && parts.tag.None?
       && s.kind == d.classify(Slice(line, parts.mnemonic)) && s.kind != DirectiveKind(End)
       && s.operand == if parts.operand.Some? then Some(Slice(line, parts.operand.value)) else None
  }

  function SpellingOf(item: Item): Spelling {
    Spelling(item.kind, if item.operand.Some? then Some(item.operand.value.text) else None)
  }

  /** A parse in which nothing but such lines has been read. */
  ghost predicate Unlabelled(p: Parsed, spellings: seq<Spelling>) {
    && p.errors == [] && p.origin.None? && p.symbols == map[]
    && |p.items| == |spellings| && forall i :: 0 <= i < |spellings| ==> SpellingOf(p.items[i]) == spellings[i]
  }

  lemma LineAddsItem(d: Dialect, p: Parsed, line: string, base: nat, k: nat, before: seq<Spelling>, s: Spelling)
    requires Unlabelled(p, before) && Spells(d, line, s) && |before| < WORDS_IN_MEMORY
    ensures !ParseLine(d, p, line, base, k).1 && Unlabelled(ParseLine(d, p, line, base, k).0, before + [s])
  {
  }

  ghost predicate LiveAdds(d: Dialect, p: Parsed, line: string, before: seq<Spelling>, s: Spelling, next: (Parsed, bool)) {
    Unlabelled(p, before) && Spells(d, line, s) && |before| < WORDS_IN_MEMORY ==>
      !next.1 && Unlabelled(next.0, before + [s])
  }

  /** Every such line read is one more item. */
  ghost predicate Adds(d: Dialect, r: Reader) {
    forall p: Parsed, line: string, base: nat, k: nat, before: seq<Spelling>, s: Spelling ::
      LiveAdds(d, p, line, before, s, r.live(p, line, base, k))
  }

  lemma ReaderAdds(d: Dialect, total: nat)
    ensures Adds(d, ReaderOf(d, total))
  {
    var r := ReaderOf(d, total);
    forall p: Parsed, line: string, base: nat, k: nat, before: seq<Spelling>, s: Spelling
      ensures LiveAdds(d, p, line, before, s, r.live(p, line, base, k))
    {
      if Unlabelled(p, before) && Spells(d, line, s) && |before| < WORDS_IN_MEMORY {
        LineAddsItem(d, p, line, base, k, before, s);
      }
    }
  }

  // ----- lines with a mnemonic, perhaps one blank and an operand, and nothing else -----

  /** The only blank, if there is one, is at `at`, with words on both sides. */
  ghost predicate OneBlank(ws: char -> bool, line: string, at: nat) {
    && 0 < at <= |line| && at + 1 != |line|
    && forall i :: 0 <= i < |line| ==> line[i] != ',' && line[i] != '/' && (ws(line[i]) <==> i == at)
  }

  lemma {:induction false} OperandToEnd(ws: char -> bool, line: string, at: nat, i: nat)
    requires OneBlank(ws, line, at) && at + 1 < i <= |line|
    ensures OperandAt(ws, line, at + 1, i) == Some((Span(at + 1, |line|), None))
    decreases |line| - i
  {
    if i < |line| {
      assert Skip(ws, line, i) == i;
      OperandToEnd(ws, line, at, i + 1);
    }
  }

  lemma {:induction false} MnemonicToBlank(ws: char -> bool, line: string, at: nat, i: nat)
    requires OneBlank(ws, line, at) && 0 < i <= at
    ensures BodyAt(ws, line, 0, i, None)
         == Some(Parts(None, Span(0, at), if at == |line| then None else Some(Span(at + 1, |line|)), None))
    decreases at - i
  {
    if i < at {
      assert Skip(ws, line, i) == i;
      MnemonicToBlank(ws, line, at, i + 1);
    } else if at < |line| {
      assert Skip(ws, line, at + 1) == at + 1;
      OperandToEnd(ws, line, at, at + 2);
    }
  }

  lemma {:induction false} NoCommaNoSlash(ws: char -> bool, line: string, i: nat)
    requires i <= |line| && forall j :: i <= j < |line| ==> line[j] != ',' && line[j] != '/'
    ensures RunEnd(ws, line, NotCommaOrSlash, i) == |line|
    decreases |line| - i
  {
    if i < |line| {
      NoCommaNoSlash(ws, line, i + 1);
    }
  }

  lemma PlainLine(ws: char -> bool, line: string, at: nat)
    requires OneBlank(ws, line, at) && !OrgAt(line, 0)
    ensures FormOf(ws, line)
         == Statement(Parts(None, Span(0, at), if at == |line| then None else Some(Span(at + 1, |line|)), None))
  {
    assert Skip(ws, line, 0) == 0;
    NoCommaNoSlash(ws, line, 0);
    assert WithLabel(ws, line, 0) == None;
    MnemonicToBlank(ws, line, at, 1);
  }

  function PlainSpelling(line: string, at: nat): Spelling
    requires at <= |line| && at + 1 != |line|
  {
    Spelling(ClassifyMnemonic(line[..at]), if at == |line| then None else Some(line[at + 1..]))
  }

  lemma PlainSpells(line: string, at: nat)
    requires OneBlank(MARIE.ws, line, at) && !OrgAt(line, 0)
    requires ClassifyMnemonic(line[..at]) != DirectiveKind(End)
    ensures Spells(MARIE, line, PlainSpelling(line, at))
  {
    PlainLine(MARIE.ws, line, at);
    assert line[0..at] == line[..at];
    if at < |line| {
      assert line[at + 1..|line|] == line[at + 1..];
    }
  }

  // ----- from lines to words -----

  /** Every item spelt so emits this word, whatever the labels and whatever else it is. */
  ghost predicate EmitsAs(ws: char -> bool, s: Spelling, word: Word) {
    forall symbols, item :: SpellingOf(item) == s ==> AssembleItem(ws, symbols, item) == Emitted(word)
  }

  lemma ItemsEmit(ws: char -> bool, symbols: SymbolTable, items: seq<Item>, spelt: seq<Spelling>, words: seq<Word>)
    requires |items| == |spelt| == |words|
    requires forall i :: 0 <= i < |items| ==> SpellingOf(items[i]) == spelt[i] && EmitsAs(ws, spelt[i], words[i])
    ensures AssembleItems(ws, symbols, items).0 == words && AssembleItems(ws, symbols, items).2 == []
  {
    WordsFollowItems(ws, symbols, symbols, items);
    forall i | 0 <= i < |items|
      ensures AssembleItem(ws, symbols, items[i]) == Emitted(words[i])
    {
      assert EmitsAs(ws, spelt[i], words[i]);
    }
  }

  function KindsOf(spelt: seq<Spelling>): seq<Kind> {
    seq(|spelt|, i requires 0 <= i < |spelt| => spelt[i].kind)
  }

  /** The source assembles, and that is its graph. */
  ghost predicate HasGraph(d: Dialect, source: string, g: Graph) {
    Assemble(d, source).Succeeded() && GraphOf(Assemble(d, source)) == g
  }

  /** One line: what it spells, and the word that emits. */
  ghost predicate SpellsLine(d: Dialect, line: string, s: Spelling, word: Word) {
    Unbroken(line) && Spells(d, line, s) && EmitsAs(d.ws, s, word)
  }

  /** Line by line. */
  ghost predicate SpellsOut(d: Dialect, lines: seq<string>, spelt: seq<Spelling>, words: seq<Word>)
    decreases |lines|
  {
    && |lines| == |spelt| == |words| <= WORDS_IN_MEMORY
    && (lines != [] ==> SpellsLine(d, lines[0], spelt[0], words[0]) && SpellsOut(d, lines[1..], spelt[1..], words[1..]))
  }

  lemma {:induction false} EachLineSpells(d: Dialect, lines: seq<string>, spelt: seq<Spelling>, words: seq<Word>)
    requires SpellsOut(d, lines, spelt, words)
    ensures |lines| == |spelt| == |words|
    ensures forall i :: 0 <= i < |lines| ==> SpellsLine(d, lines[i], spelt[i], words[i])
    decreases |lines|
  {
    if lines != [] {
      EachLineSpells(d, lines[1..], spelt[1..], words[1..]);
      forall i | 0 <= i < |lines|
        ensures SpellsLine(d, lines[i], spelt[i], words[i])
      {
        if i > 0 {
          assert lines[i] == lines[1..][i - 1] && spelt[i] == spelt[1..][i - 1] && words[i] == words[1..][i - 1];
        }
      }
    }
  }

  lemma {:induction false} LinesAddItems(
    d: Dialect, r: Reader, p: Parsed, lines: seq<string>, base: nat, k: nat,
    before: seq<Spelling>, after: seq<Spelling>, words: seq<Word>)
    requires Adds(d, r) && Unlabelled(p, before)
    requires SpellsOut(d, lines, after, words) && |before| + |after| <= WORDS_IN_MEMORY
    ensures Unlabelled(ParseLines(r, p, lines, base, k, false), before + after)
    decreases |lines|
  {
    if lines == [] {
      assert before + after == before;
    } else {
      var next := r.live(p, lines[0], base, k);
      assert LiveAdds(d, p, lines[0], before, after[0], next);
      LinesAddItems(
        d, r, next.0, lines[1..], base + |lines[0]| + 1, k + 1, before + [after[0]], after[1..], words[1..]);
      assert before + [after[0]] + after[1..] == before + after;
    }
  }

  lemma LinesParse(d: Dialect, lines: seq<string>, spelt: seq<Spelling>, words: seq<Word>)
    requires lines != [] && SpellsOut(d, lines, spelt, words)
    ensures Unlabelled(Parse(d, Join(lines)), spelt)
  {
    EachLineSpells(d, lines, spelt, words);
    forall l | l in lines
      ensures Unbroken(l)
    {
      var i :| 0 <= i < |lines| && lines[i] == l;
      assert SpellsLine(d, lines[i], spelt[i], words[i]);
    }
    LinesJoin(lines);
    var total := |Join(lines)|;
    ReaderAdds(d, total);
    LinesAddItems(d, ReaderOf(d, total), NOTHING, lines, 0, 0, [], spelt, words);
    assert [] + spelt == spelt;
  }

  lemma ParsedAssembles(d: Dialect, source: string, spelt: seq<Spelling>, words: seq<Word>)
    requires Unlabelled(Parse(d, source), spelt) && |spelt| == |words|
    requires forall i :: 0 <= i < |spelt| ==> EmitsAs(d.ws, spelt[i], words[i])
    ensures HasGraph(d, source, Graph(KindsOf(spelt), words, 0))
  {
    var p := Parse(d, source);
    ItemsEmit(d.ws, p.symbols, p.items, spelt, words);
    forall i | 0 <= i < |spelt|
      ensures p.items[i].kind == spelt[i].kind
    {
      assert SpellingOf(p.items[i]) == spelt[i];
    }
  }

  /** Lines that spell something out make a source with that graph. */
  lemma SpeltSourceAssembles(d: Dialect, lines: seq<string>, spelt: seq<Spelling>, words: seq<Word>)
    requires lines != [] && SpellsOut(d, lines, spelt, words)
    ensures HasGraph(d, Join(lines), Graph(KindsOf(spelt), words, 0))
  {
    EachLineSpells(d, lines, spelt, words);
    LinesParse(d, lines, spelt, words);
    ParsedAssembles(d, Join(lines), spelt, words);
  }

  // ----- the words of some spellings -----

  lemma OperandEmits(ws: char -> bool, symbols: SymbolTable, item: Item, opcode: Opcode, address: Address)
    requires item.kind == OpcodeKind(opcode) && opcode.TakesOperand() && item.operand.Some?
    requires ResolveOperand(symbols, item.operand.value) == Some(address)
    ensures AssembleItem(ws, symbols, item) == Emitted(Instruction(opcode, address).Encode())
  {
    assert LiteralRadix(item.kind) == None && Alias(item) == Some((opcode, item.operand));
  }

  lemma DigitResolves(symbols: SymbolTable, operand: Operand, digit: Address)
    requires |operand.text| == 1 && IsDecimalDigit(operand.text[0]) && digit == operand.text[0] as int - '0' as int
    ensures ResolveOperand(symbols, operand) == Some(digit)
  {
    AddressLiteralsMeanWhatTheySpell(operand.text);
    assert operand.text[..0] == [];
    assert Meaning(operand.text, 16) == digit;
  }

  /** An instruction with one decimal digit for its operand. */
  lemma DigitEmits(ws: char -> bool, opcode: Opcode, text: string, digit: Address)
    requires opcode.TakesOperand() && |text| == 1
    requires IsDecimalDigit(text[0]) && digit == text[0] as int - '0' as int
    ensures EmitsAs(ws, Spelling(OpcodeKind(opcode), Some(text)), Instruction(opcode, digit).Encode())
  {
    forall symbols: SymbolTable, item | SpellingOf(item) == Spelling(OpcodeKind(opcode), Some(text))
      ensures AssembleItem(ws, symbols, item) == Emitted(Instruction(opcode, digit).Encode())
    {
      DigitResolves(symbols, item.operand.value, digit);
      OperandEmits(ws, symbols, item, opcode, digit);
    }
  }

  /** An instruction that takes no operand and has none. */
  lemma PlainEmits(ws: char -> bool, opcode: Opcode)
    requires !opcode.TakesOperand()
    ensures EmitsAs(ws, Spelling(OpcodeKind(opcode), None), Instruction(opcode, 0).Encode())
  {
    forall symbols: SymbolTable, item | SpellingOf(item) == Spelling(OpcodeKind(opcode), None)
      ensures AssembleItem(ws, symbols, item) == Emitted(Instruction(opcode, 0).Encode())
    {
      assert LiteralRadix(item.kind) == None && Alias(item) == Some((opcode, None));
    }
  }

  lemma LiteralItemEmits(ws: char -> bool, symbols: SymbolTable, item: Item, radix: Radix, value: Word)
    requires LiteralRadix(item.kind) == Some(radix) && item.operand.Some?
    requires ParseWord(ws, item.operand.value.text, radix) == Fits(value)
    ensures AssembleItem(ws, symbols, item) == Emitted(value)
  {
    assert AssembleItem(ws, symbols, item) == AssembleLiteral(ws, item, radix);
  }

  /** A literal directive and its operand. */
  lemma LiteralEmits(ws: char -> bool, kind: Kind, radix: Radix, text: string, value: Word)
    requires LiteralRadix(kind) == Some(radix) && ParseWord(ws, text, radix) == Fits(value)
    ensures EmitsAs(ws, Spelling(kind, Some(text)), value)
  {
    forall symbols: SymbolTable, item | SpellingOf(item) == Spelling(kind, Some(text))
      ensures AssembleItem(ws, symbols, item) == Emitted(value)
    {
      LiteralItemEmits(ws, symbols, item, radix, value);
    }
  }

  // ----- the one-word program -----

  lemma HaltLine(line: string)
    requires line == "Halt"
    ensures Unbroken(line) && OneBlank(MARIE.ws, line, 4) && !OrgAt(line, 0)
    ensures PlainSpelling(line, 4) == Spelling(OpcodeKind(Halt), None)
  {
    assert Lowercase(line[..4]) == "halt";
  }

  lemma HaltSpellsOut(line: string)
    requires line == "Halt"
    ensures SpellsOut(MARIE, [line], [Spelling(OpcodeKind(Halt), None)], [0x7000])
  {
    HaltLine(line);
    PlainSpells(line, 4);
    PlainEmits(MARIE.ws, Halt);
  }

  lemma HaltAssembles(source: string)
    requires source == "Halt"
    ensures HasGraph(MARIE, source, Graph([OpcodeKind(Halt)], [0x7000], 0))
  {
    var spelling := Spelling(OpcodeKind(Halt), None);
    HaltSpellsOut(source);
    SpeltSourceAssembles(MARIE, [source], [spelling], [0x7000]);
    assert Join([source]) == source;
    assert KindsOf([spelling]) == [OpcodeKind(Halt)];
  }
}
