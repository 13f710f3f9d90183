/**
 Why the soundness of the analyser needs more than an exact graph
 (crates/lib/mrs-lint/src/cfg.rs:114-134, 172-175): a source whose graph is exact and which
 runs an instruction reported unreachable (crates/lib/mrs-lint/src/lints/flow.rs:120-150).
 */
module SelfRewriting {
  import opened Words
  import opened Instructions
  import opened Devices
  import opened Machine
  import opened Refinement
  import opened Literals
  import opened Patterns
  import opened Lexer
  import opened Syntax
  import opened Parser
  import opened Assembler
  import opened Consistency
  import opened Cfg
  import opened Soundness
  import opened PlainSources

  // ----- the source -----

  /** Loads the word at 4, which is `Jump 3`, and stores it over the `Halt` at 2. */
  const LINES: seq<string> := ["Load 4", "Store 2", "Halt", "Output", "HEX 9003"]

  const REWRITES_ITSELF: string := Join(LINES)

  const SPELT: seq<Spelling> := [
    Spelling(OpcodeKind(Load), Some("4")), Spelling(OpcodeKind(Store), Some("2")),
    Spelling(OpcodeKind(Halt), None), Spelling(OpcodeKind(Output), None),
    Spelling(DirectiveKind(Hexa), Some("9003"))]

  const WORDS: seq<Word> := [0x1004, 0x2002, 0x7000, 0x6000, 0x9003]

  lemma LoadLine(line: string)
    requires line == "Load 4"
    ensures Unbroken(line) && OneBlank(MARIE.ws, line, 4) && !OrgAt(line, 0)
    ensures PlainSpelling(line, 4) == Spelling(OpcodeKind(Load), Some("4"))
  {
    assert Lowercase(line[..4]) == "load";
    assert line[5..] == "4";
  }

  lemma StoreLine(line: string)
    requires line == "Store 2"
    ensures Unbroken(line) && OneBlank(MARIE.ws, line, 5) && !OrgAt(line, 0)
    ensures PlainSpelling(line, 5) == Spelling(OpcodeKind(Store), Some("2"))
  {
    assert Lowercase(line[..5]) == "store";
    assert line[6..] == "2";
  }

  lemma OutputLine(line: string)
    requires line == "Output"
    ensures Unbroken(line) && OneBlank(MARIE.ws, line, 6) && !OrgAt(line, 0)
    ensures PlainSpelling(line, 6) == Spelling(OpcodeKind(Output), None)
  {
    assert Lowercase(line[..6]) == "output";
  }

  lemma HexLine(line: string)
    requires line == "HEX 9003"
    ensures Unbroken(line) && OneBlank(MARIE.ws, line, 3) && !OrgAt(line, 0)
    ensures PlainSpelling(line, 3) == Spelling(DirectiveKind(Hexa), Some("9003"))
  {
    assert Lowercase(line[..3]) == "hex";
    assert line[4..] == "9003";
  }

  lemma LinesSpell(i: nat)
    requires i < |LINES|
    ensures Unbroken(LINES[i]) && Spells(MARIE, LINES[i], SPELT[i])
  {
    if i == 0 {
      LoadLine(LINES[0]);
      PlainSpells(LINES[0], 4);
    } else if i == 1 {
      StoreLine(LINES[1]);
      PlainSpells(LINES[1], 5);
    } else if i == 2 {
      HaltLine(LINES[2]);
      PlainSpells(LINES[2], 4);
    } else if i == 3 {
      OutputLine(LINES[3]);
      PlainSpells(LINES[3], 6);
    } else {
      HexLine(LINES[4]);
      PlainSpells(LINES[4], 3);
    }
  }

  // ----- its words -----

  lemma FourDigits(s: string)
    requires |s| == 4 && AllDigits(s, 16)
    ensures Meaning(s, 16) == Digit(s[0], 16).value * 0x1000 + Digit(s[1], 16).value * 0x100
                            + Digit(s[2], 16).value * 0x10 + Digit(s[3], 16).value
  {
    var s3, s2, s1 := s[..3], s[..2], s[..1];
    assert s3[..2] == s2 && s2[..1] == s1 && s1[..0] == [];
    assert Meaning(s1, 16) == Digit(s[0], 16).value;
    assert Meaning(s2, 16) == Meaning(s1, 16) * 16 + Digit(s[1], 16).value;
    assert Meaning(s3, 16) == Meaning(s2, 16) * 16 + Digit(s[2], 16).value;
  }

  ghost predicate Is9003(text: string) {
    |text| == 4 && text[0] == '9' && text[1] == '0' && text[2] == '0' && text[3] == '3'
  }

  lemma NothingToTrim(ws: char -> bool, text: string)
    requires text != [] && !ws(text[0]) && !ws(text[|text| - 1]) && text[0] != '-'
    ensures SplitSign(ws, text) == (false, text)
  {
  }

  lemma HexLiteral(text: string)
    requires Is9003(text)
    ensures ParseWord(MARIE.ws, text, Hexadecimal) == Fits(0x9003)
  {
    NothingToTrim(MARIE.ws, text);
    HexDigits(text);
    FourDigits(text);
    assert SignedMeaning(false, text, 16) == 0x9003;
    LiteralsMeanTheirInteger(MARIE.ws, text, Hexadecimal);
  }

  lemma FirstEmit()
    ensures EmitsAs(MARIE.ws, SPELT[0], WORDS[0]) && EmitsAs(MARIE.ws, SPELT[1], WORDS[1])
  {
    DigitEmits(MARIE.ws, Load, "4", 4);
    DigitEmits(MARIE.ws, Store, "2", 2);
  }

  lemma SpellingsEmit(i: nat)
    requires i < |SPELT|
    ensures EmitsAs(MARIE.ws, SPELT[i], WORDS[i])
  {
    if i < 2 {
      FirstEmit();
    } else if i == 2 {
      PlainEmits(MARIE.ws, Halt);
    } else if i == 3 {
      PlainEmits(MARIE.ws, Output);
    } else {
      HexLiteral("9003");
      LiteralEmits(MARIE.ws, DirectiveKind(Hexa), Hexadecimal, "9003", 0x9003);
    }
  }

  /** The graph of the source: nothing in it is an indirect jump or store. */
  const GRAPH := Graph(
    [OpcodeKind(Load), OpcodeKind(Store), OpcodeKind(Halt), OpcodeKind(Output), DirectiveKind(Hexa)], WORDS, 0)

  lemma LineSpellsOut(i: nat)
    requires i < |LINES|
    ensures SpellsLine(MARIE, LINES[i], SPELT[i], WORDS[i])
  {
    LinesSpell(i);
    SpellingsEmit(i);
  }

  /** The lines from the `i`-th on. */
  lemma {:induction false} RestSpellsOut(i: nat)
    requires i <= |LINES|
    ensures SpellsOut(MARIE, LINES[i..], SPELT[i..], WORDS[i..])
    decreases |LINES| - i
  {
    if i < |LINES| {
      LineSpellsOut(i);
      RestSpellsOut(i + 1);
      assert LINES[i..][1..] == LINES[i + 1..] && SPELT[i..][1..] == SPELT[i + 1..] && WORDS[i..][1..] == WORDS[i + 1..];
    }
  }

  lemma GraphIsSpelt()
    ensures Graph(KindsOf(SPELT), WORDS, 0) == GRAPH
  {
    assert KindsOf(SPELT) == GRAPH.kinds;
  }

  lemma SourceAssembles()
    ensures HasGraph(MARIE, REWRITES_ITSELF, GRAPH)
  {
    RestSpellsOut(0);
    assert LINES[0..] == LINES && SPELT[0..] == SPELT && WORDS[0..] == WORDS;
    SpeltSourceAssembles(MARIE, LINES, SPELT, WORDS);
    GraphIsSpelt();
  }

  // ----- its run -----

  lemma OutputLooksUnreachable()
    ensures GRAPH.Ok() && GRAPH.Exact() && Unreachable(GRAPH, 3)
  {
    assert GRAPH.Edges(0) == [ToWord(1)] && GRAPH.Edges(1) == [ToWord(2)] && GRAPH.Edges(2) == [];
    var marked := [true, true, true, false, false];
    if Reaches(GRAPH, 3) {
      var path :| IsPath(GRAPH, path) && path[|path| - 1] == 3;
      ClosedHoldsPath(GRAPH, marked, path);
    }
  }

  /** Three instructions of it. */
  lemma OutputIsNext<D>(dev: Device<D>, a: Arch<D>)
    requires a.pc == 0 && a.memory[0] == 0x1004 && a.memory[1] == 0x2002 && a.memory[4] == 0x9003
    ensures var (a1, stop1) := ExecuteNext(dev, a);
      var (a2, stop2) := ExecuteNext(dev, a1);
      var (a3, stop3) := ExecuteNext(dev, a2);
      stop1 == stop2 == stop3 == None && a3.pc == 3
  {
    var a1 := a.(pc := 1, ac := 0x9003);
    assert ExecuteNext(dev, a) == (a1, None);
    var a2 := Poke(dev, a1, 2, 0x9003).(pc := 2);
    assert ExecuteNext(dev, a1) == (a2, None);
    assert a2.memory[2] == 0x9003;
  }

  /** The machine after one more instruction. */
  ghost function After<D>(dev: Device<D>, s: State<D>): State<D> {
    if s.control.Ok() then Finish(dev, s).0 else s
  }

  lemma InstructionCompletes<D>(dev: Device<D>, s: State<D>)
    requires s.control.Ok() && s.control.microPc == 0 && ExecuteNext(dev, ArchOf(s)).1.None?
    ensures var t := After(dev, s);
      t.control.Ok() && t.control.microPc == 0 && ArchOf(t) == ExecuteNext(dev, ArchOf(s)).0
  {
    MicrocodeRefinesInstructions(dev, s);
  }

  /**
   A source that assembles can have an exact graph, with an instruction reported unreachable,
   and run that instruction: a direct `Store` rewrites the `Halt` above it into a jump to it.
   The self-modifying-code lint is the one that speaks up.
   */
  lemma ExactIsNotEnough<D>(dev: Device<D>, s: State<D>)
    requires s.control.Ok() && Loaded(GRAPH, s)
    ensures HasGraph(MARIE, REWRITES_ITSELF, GRAPH)
    ensures GRAPH.Exact() && Unreachable(GRAPH, 3) && SelfModifying(GRAPH, 1)
    ensures var t := After(dev, After(dev, After(dev, s)));
      t.control.microPc == 0 && t.registers.pc == 3
  {
    SourceAssembles();
    OutputLooksUnreachable();
    HaltIsStoredOver();
    ThreeInstructions(dev, s);
  }

  lemma HaltIsStoredOver()
    ensures SelfModifying(GRAPH, 1)
  {
    assert GRAPH.Edges(0) == [ToWord(1)] && GRAPH.Edges(1) == [ToWord(2)];
    ReachesStart(GRAPH);
    assert Follows(GRAPH, 0, 1) && Follows(GRAPH, 1, 2);
    ReachesNext(GRAPH, 0, 1);
    ReachesNext(GRAPH, 1, 2);
  }

  lemma ThreeInstructions<D>(dev: Device<D>, s: State<D>)
    requires s.control.Ok() && Loaded(GRAPH, s)
    ensures var t := After(dev, After(dev, After(dev, s)));
      t.control.microPc == 0 && t.registers.pc == 3
  {
    assert GRAPH.words[0] == 0x1004 && GRAPH.words[1] == 0x2002 && GRAPH.words[4] == 0x9003;
    assert s.memory[GRAPH.origin + 0] == 0x1004 && s.memory[GRAPH.origin + 1] == 0x2002;
    assert s.memory[GRAPH.origin + 4] == 0x9003;
    OutputIsNext(dev, ArchOf(s));
    InstructionCompletes(dev, s);
    InstructionCompletes(dev, After(dev, s));
    InstructionCompletes(dev, After(dev, After(dev, s)));
  }
}
