/**
 What parsing produces: items, diagnostics, the table of labels, the map of lines
 (crates/lib/mrs-asm/src/ast.rs, symbols.rs, source_map.rs; crates/lib/mrs-core/src/directive.rs).
 */
module Syntax {
  import opened Words
  import opened Instructions
  import opened Literals
  import opened Lexer
  import Patterns

  datatype Directive = Org | Dec | Oct | Hexa | Adr | Clear | End

  datatype Kind = OpcodeKind(opcode: Opcode) | DirectiveKind(directive: Directive) | Unknown

  /**
   The two tables the assembler consults about characters and words: what is whitespace,
   and what a mnemonic names. Everything below holds for every such pair.
   */
  datatype Dialect = Dialect(ws: char -> bool, classify: string -> Kind)

  /** Unicode `White_Space`, as `char::is_whitespace` has it. */
  predicate UnicodeSpace(c: char) {
    || '\t' <= c <= '\r' || c == ' ' || c == '\U{85}' || c == '\U{A0}' || c == '\U{1680}'
    || '\U{2000}' <= c <= '\U{200A}' || c == '\U{2028}' || c == '\U{2029}' || c == '\U{202F}'
    || c == '\U{205F}' || c == '\U{3000}'
  }

  function Lowercase(s: string): string {
    seq(|s|, i requires 0 <= i < |s| => Patterns.LowerAscii(s[i]))
  }

  function ClassifyMnemonic(text: string): Kind {
    match Lowercase(text)
    case "jns" => OpcodeKind(JnS)
    case "load" => OpcodeKind(Load)
    case "store" => OpcodeKind(Store)
    case "add" => OpcodeKind(Add)
    case "subt" => OpcodeKind(Subt)
    case "input" => OpcodeKind(Input)
    case "output" => OpcodeKind(Output)
    case "halt" => OpcodeKind(Halt)
    case "skipcond" => OpcodeKind(SkipCond)
    case "jump" => OpcodeKind(Jump)
    case "loadimmi" => OpcodeKind(LoadImmi)
    case "addi" => OpcodeKind(AddI)
    case "jumpi" => OpcodeKind(JumpI)
    case "loadi" => OpcodeKind(LoadI)
    case "storei" => OpcodeKind(StoreI)
    case "org" => DirectiveKind(Org)
    case "dec" => DirectiveKind(Dec)
    case "oct" => DirectiveKind(Oct)
    case "hex" => DirectiveKind(Hexa)
    case "adr" => DirectiveKind(Adr)
    case "clear" => DirectiveKind(Clear)
    case "end" => DirectiveKind(End)
    case _ => Unknown
  }

  const MARIE := Dialect(c => UnicodeSpace(c), text => ClassifyMnemonic(text))

  /** What little the proofs need of a dialect. */
  ghost predicate Sane(d: Dialect) {
    && Patterns.IsWhitespace(d.ws)
    && LettersAreNotSpace(d.ws)
    && d.ws('\n')
    && (forall text :: |text| == 3 && OrgAt(text, 0) ==> d.classify(text) == DirectiveKind(Org))
  }

  lemma MarieIsSane()
    ensures Sane(MARIE)
  {
    forall text: string | |text| == 3 && OrgAt(text, 0)
      ensures MARIE.classify(text) == DirectiveKind(Org)
    {
      assert Lowercase(text) == "org";
    }
  }

  // ----- the tree -----

  datatype Tag = Tag(name: string, span: Span)
  datatype Operand = Operand(text: string, span: Span)

  datatype Item = Item(
    tag: Option<Tag>, mnemonic: string, kind: Kind, mnemonicSpan: Span, operand: Option<Operand>,
    comment: Option<Span>, address: Address, line: nat, span: Span)

  datatype OriginLine = OriginLine(address: Address, digits: Span, span: Span, line: nat)
  datatype EndLine = EndLine(span: Span, line: nat)

  datatype Code =
    | MalformedLine | UnexpectedOrigin | ProgramTooLarge
    | LabelStartsWithDigit | LabelContainsWhitespace | DuplicateLabel
    | MissingOperand | UnexpectedOperand | LiteralOutOfRange | MalformedLiteral
    | UnknownMnemonic | UnknownLabel | AddressOutOfRange

  datatype Diagnostic = Diagnostic(code: Code, span: Span, line: nat)

  // ----- symbols and source map -----

  datatype Symbol = Symbol(address: Address, definition: Span, line: nat, references: seq<Span>)

  type SymbolTable = map<string, Symbol>

  /** `SymbolTable::reference`: records a use of a label that is defined. */
  function Referenced(symbols: SymbolTable, name: string, span: Span): SymbolTable {
    if name in symbols
    then symbols[name := symbols[name].(references := symbols[name].references + [span])]
    else symbols
  }

  datatype SourceMap = SourceMap(byAddress: map<Address, nat>, byLine: map<nat, Address>) {
    function Insert(address: Address, line: nat): SourceMap {
      SourceMap(byAddress[address := line], byLine[line := address])
    }

    /** The two directions answer each other. */
    ghost predicate Inverse() {
      && (forall a :: a in byAddress ==> byAddress[a] in byLine && byLine[byAddress[a]] == a)
      && (forall l :: l in byLine ==> byLine[l] in byAddress && byAddress[byLine[l]] == l)
    }
  }

  // ----- lines -----

  /** The first `\n`, or the end. */
  function LineEnd(s: string): (e: nat)
    ensures e <= |s| && (e < |s| ==> s[e] == '\n')
  {
    if s == [] || s[0] == '\n' then 0 else 1 + LineEnd(s[1..])
  }

  lemma {:induction false} UnbrokenToEnd(s: string)
    ensures forall i :: 0 <= i < LineEnd(s) ==> s[i] != '\n'
  {
    if s != [] && s[0] != '\n' {
      UnbrokenToEnd(s[1..]);
      forall i | 0 <= i < LineEnd(s)
        ensures s[i] != '\n'
      {
        if i > 0 {
          assert s[i] == s[1..][i - 1];
        }
      }
    }
  }

  /** `str::split('\n')`. */
  function Lines(s: string): (lines: seq<string>)
    ensures lines != []
    decreases |s|
  {
    var e := LineEnd(s);
    if e == |s| then [s] else [s[..e]] + Lines(s[e + 1..])
  }

  function Join(lines: seq<string>): string
    requires lines != []
  {
    if |lines| == 1 then lines[0] else lines[0] + ['\n'] + Join(lines[1..])
  }

  predicate Unbroken(line: string) {
    '\n' !in line
  }

  lemma {:induction false} LinesAreUnbroken(s: string)
    ensures forall l :: l in Lines(s) ==> Unbroken(l)
    decreases |s|
  {
    var e := LineEnd(s);
    UnbrokenToEnd(s);
    if e < |s| {
      LinesAreUnbroken(s[e + 1..]);
    }
  }

  lemma JoinFirst(first: string, rest: seq<string>)
    requires rest != []
    ensures Join([first] + rest) == first + ['\n'] + Join(rest)
  {
    assert ([first] + rest)[1..] == rest;
  }

  lemma BrokenAt(s: string, e: nat)
    requires e < |s| && s[e] == '\n'
    ensures s[..e] + ['\n'] + s[e + 1..] == s
  {
  }

  lemma {:induction false} LinesJoinBack(s: string)
    ensures Join(Lines(s)) == s
    decreases |s|
  {
    var e := LineEnd(s);
    if e < |s| {
      LinesJoinBack(s[e + 1..]);
      JoinFirst(s[..e], Lines(s[e + 1..]));
      BrokenAt(s, e);
    }
  }

  lemma JoinLines(s: string)
    ensures Join(Lines(s)) == s && forall l :: l in Lines(s) ==> Unbroken(l)
  {
    LinesJoinBack(s);
    LinesAreUnbroken(s);
  }

  lemma {:induction false} LineEndIs(s: string, e: nat)
    requires e <= |s| && forall i :: 0 <= i < e ==> s[i] != '\n'
    requires e < |s| ==> s[e] == '\n'
    ensures LineEnd(s) == e
    decreases e
  {
    if e > 0 {
      LineEndIs(s[1..], e - 1);
    }
  }

  /** The first line of a text is what precedes its first break. */
  lemma FirstLine(first: string, rest: string)
    requires Unbroken(first)
    ensures Lines(first + ['\n'] + rest) == [first] + Lines(rest)
  {
    var s := first + ['\n'] + rest;
    assert s[|first|] == '\n' && s[..|first|] == first && s[|first| + 1..] == rest;
    assert forall i :: 0 <= i < |first| ==> s[i] == first[i];
    LineEndIs(s, |first|);
  }

  lemma {:induction false} LinesJoin(lines: seq<string>)
    requires lines != [] && forall l :: l in lines ==> Unbroken(l)
    ensures Lines(Join(lines)) == lines
    decreases |lines|
  {
    assert Unbroken(lines[0]);
    if |lines| == 1 {
      LineEndIs(lines[0], |lines[0]|);
    } else {
      LinesJoin(lines[1..]);
      FirstLine(lines[0], Join(lines[1..]));
      assert lines == [lines[0]] + lines[1..];
    }
  }
}
