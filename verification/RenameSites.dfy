/**
 Where a rename edits: for a program that parses without errors, the recorded definition and
 references of a label are exactly the places, line by line, where its name is written as a
 label or read as one, and no two of them overlap
 (crates/lib/mrs-asm/src/assembler.rs:140-203, crates/lib/mrs-asm/src/symbols.rs:64-96).
 */
module RenameSites {
  import opened Words
  import opened Literals
  import opened Lexer
  import opened LineShapes
  import opened Syntax
  import opened Parser
  import opened Assembler
  import opened Consistency
  import opened RenamedLines
  import opened TextEdits
  import opened Rename
  import opened RenamedPrograms

  function UseIn(item: Item, name: string): seq<Span> {
    match LookedUp(item)
    case Some(operand) => if operand.text == name then [operand.span] else []
    case None => []
  }

  /** The uses of a name, in source order. */
  function Uses(items: seq<Item>, name: string): seq<Span> {
    if items == [] then [] else UseIn(items[0], name) + Uses(items[1..], name)
  }

  lemma {:induction false} UsesAppend(items: seq<Item>, item: Item, name: string)
    ensures Uses(items + [item], name) == Uses(items, name) + UseIn(item, name)
    decreases |items|
  {
    if items == [] {
      assert [item][1..] == [] && UseIn(item, name) + [] == [] + UseIn(item, name);
    } else {
      UsesAppend(items[1..], item, name);
      assert (items + [item])[1..] == items[1..] + [item];
      assert UseIn(items[0], name) + (Uses(items[1..], name) + UseIn(item, name))
        == UseIn(items[0], name) + Uses(items[1..], name) + UseIn(item, name);
    }
  }

  lemma OneReference(symbols: SymbolTable, item: Item, name: string)
    requires name in symbols
    ensures var next := WithReference(symbols, item);
      && name in next
      && next[name] == symbols[name].(references := symbols[name].references + UseIn(item, name))
  {
    assert symbols[name].references + [] == symbols[name].references;
  }

  /** The second pass records exactly the uses, in order, and touches nothing else. */
  lemma {:induction false} ReferencesAreUses(ws: char -> bool, symbols: SymbolTable, items: seq<Item>, name: string)
    requires name in symbols
    ensures var after := AssembleItems(ws, symbols, items).1;
      name in after && after[name] == symbols[name].(references := symbols[name].references + Uses(items, name))
    decreases |items|
  {
    if items == [] {
      assert symbols[name].references + [] == symbols[name].references;
    } else {
      var next := WithReference(symbols, items[0]);
      OneReference(symbols, items[0], name);
      ReferencesAreUses(ws, next, items[1..], name);
      Regroup(symbols[name].references, UseIn(items[0], name), Uses(items[1..], name));
      assert AssembleItems(ws, symbols, items).1 == AssembleItems(ws, next, items[1..]).1;
    }
  }

  function DefinitionOf(p: Parsed, name: string): set<Span> {
    if name in p.symbols then {p.symbols[name].definition} else {}
  }

  /** The definition, if there is one yet, and the uses. */
  function Sites(p: Parsed, name: string): set<Span> {
    DefinitionOf(p, name) + (set s | s in Uses(p.items, name))
  }

  ghost predicate Unreferenced(p: Parsed) {
    forall n :: n in p.symbols ==> p.symbols[n].references == []
  }

  /** Nonempty, before `base`, and in order. */
  ghost predicate InOrder(uses: seq<Span>, base: nat) {
    && (forall i :: 0 <= i < |uses| ==> uses[i].start < uses[i].end <= base)
    && (forall i, j :: 0 <= i < j < |uses| ==> uses[i].end <= uses[j].start)
  }

  ghost predicate OffAll(s: Span, uses: seq<Span>) {
    forall i :: 0 <= i < |uses| ==> Disjoint(s, uses[i])
  }

  /** The sites are nonempty, before `base`, and no two overlap; the uses are in order. */
  ghost predicate Apart(p: Parsed, base: nat, name: string) {
    && InOrder(Uses(p.items, name), base)
    && (name in p.symbols ==>
          var s := p.symbols[name].definition;
          s.start < s.end <= base && OffAll(s, Uses(p.items, name)))
  }

  /** What one more line does to the sites: `spans` are those of the line, from `base`. */
  ghost predicate Gains(p: Parsed, q: Parsed, spans: set<Span>, base: nat, next: nat, name: string) {
    && Sites(q, name) == Sites(p, name) + ShiftAll(spans, base)
    && (Unreferenced(p) ==> Unreferenced(q))
    && (Apart(p, base, name) ==> Apart(q, next, name))
  }

  lemma NothingGained(p: Parsed, q: Parsed, base: nat, next: nat, name: string)
    requires q.items == p.items && q.symbols == p.symbols && base <= next
    ensures Gains(p, q, {}, base, next, name)
  {
    assert ShiftAll({}, base) == {};
  }

  /** A recorded label, and at most one use after it, both between `base` and `next`. */
  ghost predicate Adds(p: Parsed, q: Parsed, tag: Option<Tag>, used: seq<Span>, base: nat, next: nat, name: string) {
    && Uses(q.items, name) == Uses(p.items, name) + used && |used| <= 1
    && (used != [] ==> base <= used[0].start < used[0].end < next)
    && (tag.None? ==> q.symbols == p.symbols)
    && (tag.Some? ==>
          && tag.value.name !in p.symbols
          && q.symbols.Keys == p.symbols.Keys + {tag.value.name}
          && (forall n :: n in p.symbols ==> q.symbols[n] == p.symbols[n])
          && q.symbols[tag.value.name].definition == tag.value.span && q.symbols[tag.value.name].references == []
          && base <= tag.value.span.start < tag.value.span.end < next
          && (used != [] ==> tag.value.span.end < used[0].start))
  }

  lemma OneMoreInOrder(uses: seq<Span>, used: seq<Span>, base: nat, next: nat)
    requires InOrder(uses, base) && base <= next && |used| <= 1
    requires used != [] ==> base <= used[0].start < used[0].end <= next
    ensures InOrder(uses + used, next)
  {
  }

  lemma OneMoreOff(s: Span, uses: seq<Span>, used: seq<Span>)
    requires OffAll(s, uses) && |used| <= 1 && (used != [] ==> Disjoint(s, used[0]))
    ensures OffAll(s, uses + used)
  {
  }

  lemma AddingKeepsApart(p: Parsed, q: Parsed, tag: Option<Tag>, used: seq<Span>, base: nat, next: nat, name: string)
    requires Adds(p, q, tag, used, base, next, name) && Apart(p, base, name) && base <= next
    ensures Apart(q, next, name)
  {
    OneMoreInOrder(Uses(p.items, name), used, base, next);
    if name in q.symbols {
      OneMoreOff(q.symbols[name].definition, Uses(p.items, name), used);
    }
  }

  lemma AddingDefines(p: Parsed, q: Parsed, tag: Option<Tag>, used: seq<Span>, base: nat, next: nat, name: string)
    requires Adds(p, q, tag, used, base, next, name)
    ensures DefinitionOf(q, name)
         == DefinitionOf(p, name) + (if tag.Some? && tag.value.name == name then {tag.value.span} else {})
    ensures Unreferenced(p) ==> Unreferenced(q)
  {
  }

  lemma SetOfSum<T>(a: seq<T>, b: seq<T>)
    ensures (set s | s in a + b) == (set s | s in a) + (set s | s in b)
  {
  }

  lemma AddingGains(
    p: Parsed, q: Parsed, tag: Option<Tag>, used: seq<Span>, spans: set<Span>, base: nat, next: nat, name: string)
    requires Adds(p, q, tag, used, base, next, name) && base <= next
    requires ShiftAll(spans, base)
          == (if tag.Some? && tag.value.name == name then {tag.value.span} else {}) + (set s | s in used)
    ensures Gains(p, q, spans, base, next, name)
  {
    if Apart(p, base, name) {
      AddingKeepsApart(p, q, tag, used, base, next, name);
    }
    AddingDefines(p, q, tag, used, base, next, name);
    SetOfSum(Uses(p.items, name), used);
  }

  /** There is room for the statement's word and its label is accepted. */
  predicate Accepted(d: Dialect, p: Parsed, line: string, parts: Parts) {
    && p.NextAddress().Some?
    && (parts.tag.Some? ==> LabelError(d.ws, p.symbols, Slice(line, parts.tag.value)).None?)
  }

  lemma StatementUses(d: Dialect, p: Parsed, line: string, base: nat, k: nat, parts: Parts, name: string)
    requires Accepted(d, p, line, parts)
    ensures var item := ItemOf(d, line, base, k, parts, p.NextAddress().value);
      Uses(ParseStatement(d, p, line, base, k, parts).0.items, name) == Uses(p.items, name) + UseIn(item, name)
  {
    var q := ParseStatement(d, p, line, base, k, parts).0;
    var item := ItemOf(d, line, base, k, parts, p.NextAddress().value);
    if item.kind == DirectiveKind(End) {
      assert Uses(p.items, name) + [] == Uses(p.items, name);
    } else {
      assert q.items == p.items + [item];
      UsesAppend(p.items, item, name);
    }
  }

  lemma StatementDefines(d: Dialect, p: Parsed, line: string, base: nat, k: nat, parts: Parts)
    requires Accepted(d, p, line, parts)
    ensures var q, tag := ParseStatement(d, p, line, base, k, parts).0, ItemOf(d, line, base, k, parts, 0).tag;
      && (tag.None? ==> q.symbols == p.symbols)
      && (tag.Some? ==>
            && tag.value.name !in p.symbols
            && q.symbols == p.symbols[tag.value.name := Symbol(p.NextAddress().value, tag.value.span, k, [])])
  {
  }

  /** A label and a use lie inside their line, the label first. */
  lemma ItemInside(d: Dialect, line: string, base: nat, k: nat, parts: Parts, address: Address, name: string)
    requires Shaped(d.ws, line, parts)
    ensures var item, next := ItemOf(d, line, base, k, parts, address), base + |line| + 1;
      var used := UseIn(item, name);
      && |used| <= 1
      && (used != [] ==> base <= used[0].start < used[0].end < next)
      && (item.tag.Some? ==>
            && base <= item.tag.value.span.start < item.tag.value.span.end < next
            && (used != [] ==> item.tag.value.span.end < used[0].start))
  {
    UseAnywhere(d, line, base, k, parts, address);
  }

  lemma StatementAdds(d: Dialect, p: Parsed, line: string, base: nat, k: nat, parts: Parts, name: string)
    requires Shaped(d.ws, line, parts) && Accepted(d, p, line, parts)
    ensures var item := ItemOf(d, line, base, k, parts, p.NextAddress().value);
      Adds(p, ParseStatement(d, p, line, base, k, parts).0, item.tag, UseIn(item, name), base, base + |line| + 1, name)
  {
    ItemInside(d, line, base, k, parts, p.NextAddress().value, name);
    StatementUses(d, p, line, base, k, parts, name);
    StatementDefines(d, p, line, base, k, parts);
  }

  lemma SpansAreSites(d: Dialect, line: string, base: nat, k: nat, parts: Parts, address: Address, name: string)
    ensures var item := ItemOf(d, line, base, k, parts, address);
      ShiftAll(StatementSpans(d, line, parts, name), base)
      == (if item.tag.Some? && item.tag.value.name == name then {item.tag.value.span} else {})
         + (set s | s in UseIn(item, name))
  {
    UseAnywhere(d, line, base, k, parts, address);
    var item := ItemOf(d, line, base, k, parts, address);
    var spans := StatementSpans(d, line, parts, name);
    assert HasTag(line, parts, name) == (item.tag.Some? && item.tag.value.name == name);
    assert HasUse(d, line, parts, name) == (UseIn(item, name) != []);
    if HasTag(line, parts, name) {
      assert parts.tag.value in spans && parts.tag.value.Shift(base) == item.tag.value.span;
    }
    if HasUse(d, line, parts, name) {
      assert parts.operand.value in spans && UseIn(item, name) == [parts.operand.value.Shift(base)];
    }
  }

  lemma LineGains(d: Dialect, p: Parsed, line: string, base: nat, k: nat, name: string)
    requires ParseLine(d, p, line, base, k).0.errors == []
    ensures Gains(p, ParseLine(d, p, line, base, k).0, LineSpans(d, line, name), base, base + |line| + 1, name)
    ensures ParseLine(d, p, line, base, k).1 == EndsProgram(d, line)
  {
    var q := ParseLine(d, p, line, base, k).0;
    LineExtends(d, p, line, base, k);
    match FormOf(d.ws, line) {
      case Blank(_) => NothingGained(p, q, base, base + |line| + 1, name);
      case Origin(_, _, _) => NothingGained(p, q, base, base + |line| + 1, name);
      case Malformed => 
      case Statement(parts) =>
        StatementStarts(d.ws, line, parts);
        StatementShape(d.ws, line);
        assert Accepted(d, p, line, parts);
        StatementAdds(d, p, line, base, k, parts, name);
        var item := ItemOf(d, line, base, k, parts, p.NextAddress().value);
        SpansAreSites(d, line, base, k, parts, p.NextAddress().value, name);
        AddingGains(p, q, item.tag, UseIn(item, name), StatementSpans(d, line, parts, name), base, base + |line| + 1, name);
    }
  }

  // ----- all lines -----

  /** Where the line after these would start. */
  function PastLines(lines: seq<string>, base: nat): nat
    decreases |lines|
  {
    if lines == [] then base else PastLines(lines[1..], base + |lines[0]| + 1)
  }

  /** What is kept of a program and of where its next line starts, by every line, live or dead. */
  ghost predicate KeptByLines(r: Reader, kept: (Parsed, nat) -> bool) {
    && (forall p: Parsed, line: string, base: nat, k: nat ::
          kept(p, base) ==> kept(r.live(p, line, base, k).0, base + |line| + 1))
    && (forall p: Parsed, line: string, base: nat, k: nat ::
          kept(p, base) ==> kept(r.dead(p, line, base, k), base + |line| + 1))
  }

  lemma {:induction false} AllLinesKeep(
    r: Reader, kept: (Parsed, nat) -> bool, p: Parsed, lines: seq<string>, base: nat, k: nat, stopped: bool)
    requires KeptByLines(r, kept) && kept(p, base)
    ensures kept(ParseLines(r, p, lines, base, k, stopped), PastLines(lines, base))
    decreases |lines|
  {
    if lines != [] {
      var (q, stop) := if stopped then (r.dead(p, lines[0], base, k), true) else r.live(p, lines[0], base, k);
      AllLinesKeep(r, kept, q, lines[1..], base + |lines[0]| + 1, k + 1, stop);
    }
  }

  /** The same as long as there are no errors. */
  ghost predicate KeptByCleanLines(r: Reader, kept: (Parsed, nat) -> bool) {
    && (forall p: Parsed, line: string, base: nat, k: nat :: kept(p, base) && r.live(p, line, base, k).0.errors == [] ==>
          kept(r.live(p, line, base, k).0, base + |line| + 1))
    && (forall p: Parsed, line: string, base: nat, k: nat ::
          kept(p, base) ==> kept(r.dead(p, line, base, k), base + |line| + 1))
  }

  lemma {:induction false} CleanLinesKeep(
    r: Reader, kept: (Parsed, nat) -> bool, p: Parsed, lines: seq<string>, base: nat, k: nat, stopped: bool)
    requires OnlyAdds(r) && KeptByCleanLines(r, kept) && kept(p, base)
    requires ParseLines(r, p, lines, base, k, stopped).errors == []
    ensures kept(ParseLines(r, p, lines, base, k, stopped), PastLines(lines, base))
    decreases |lines|
  {
    if lines != [] {
      var (q, stop) := if stopped then (r.dead(p, lines[0], base, k), true) else r.live(p, lines[0], base, k);
      LinesExtend(r, q, lines[1..], base + |lines[0]| + 1, k + 1, stop);
      CleanLinesKeep(r, kept, q, lines[1..], base + |lines[0]| + 1, k + 1, stop);
    }
  }

  /** Every error-free live line gains the sites its editor names, and ends where the editor says; a dead line gains none. */
  ghost predicate GainedByLines(r: Reader, e: LineEditor, sites: Parsed -> set<Span>) {
    && (forall p: Parsed, line: string, base: nat, k: nat :: r.live(p, line, base, k).0.errors == [] ==>
          sites(r.live(p, line, base, k).0) == sites(p) + ShiftAll(e.spans(line), base)
          && r.live(p, line, base, k).1 == e.last(line))
    && (forall p: Parsed, line: string, base: nat, k: nat :: sites(r.dead(p, line, base, k)) == sites(p))
  }

  lemma {:induction false} DeadLinesGainNone(
    r: Reader, e: LineEditor, sites: Parsed -> set<Span>, p: Parsed, lines: seq<string>, base: nat, k: nat)
    requires GainedByLines(r, e, sites)
    ensures sites(ParseLines(r, p, lines, base, k, true)) == sites(p)
    decreases |lines|
  {
    if lines != [] {
      DeadLinesGainNone(r, e, sites, r.dead(p, lines[0], base, k), lines[1..], base + |lines[0]| + 1, k + 1);
    }
  }

  lemma {:induction false} LinesGain(
    r: Reader, e: LineEditor, sites: Parsed -> set<Span>, p: Parsed, lines: seq<string>, base: nat, k: nat, stopped: bool)
    requires OnlyAdds(r) && GainedByLines(r, e, sites)
    requires ParseLines(r, p, lines, base, k, stopped).errors == []
    ensures sites(ParseLines(r, p, lines, base, k, stopped)) == sites(p) + AllSpans(e, lines, base, stopped)
    decreases |lines|
  {
    if stopped {
      DeadLinesGainNone(r, e, sites, p, lines, base, k);
    } else if lines != [] {
      var (q, stop) := r.live(p, lines[0], base, k);
      var next := base + |lines[0]| + 1;
      LinesExtend(r, q, lines[1..], next, k + 1, stop);
      LinesGain(r, e, sites, q, lines[1..], next, k + 1, stop);
      Unite(sites(p), ShiftAll(e.spans(lines[0]), base), AllSpans(e, lines[1..], next, stop));
    }
  }

  lemma Unite<T>(before: set<T>, first: set<T>, rest: set<T>)
    ensures (before + first) + rest == before + (first + rest)
  {
  }

  lemma SkipGains(d: Dialect, p: Parsed, line: string, base: nat, total: nat, name: string)
    ensures Gains(p, SkipLine(d, p, line, base, total), {}, base, base + |line| + 1, name)
  {
    NothingGained(p, SkipLine(d, p, line, base, total), base, base + |line| + 1, name);
  }

  lemma ParserGains(d: Dialect, total: nat, name: string, text: string)
    ensures GainedByLines(ReaderOf(d, total), Renamer(d, name, text), (p: Parsed) => Sites(p, name))
  {
    var r, e := ReaderOf(d, total), Renamer(d, name, text);
    forall p: Parsed, line: string, base: nat, k: nat | r.live(p, line, base, k).0.errors == []
      ensures Sites(r.live(p, line, base, k).0, name) == Sites(p, name) + ShiftAll(e.spans(line), base)
      ensures r.live(p, line, base, k).1 == e.last(line)
    {
      LineGains(d, p, line, base, k, name);
    }
    forall p: Parsed, line: string, base: nat, k: nat
      ensures Sites(r.dead(p, line, base, k), name) == Sites(p, name)
    {
      SkipGains(d, p, line, base, total, name);
    }
  }

  /** Nothing recorded yet, and the sites apart, from `base` on. */
  ghost predicate Laid(p: Parsed, base: nat, name: string) {
    Unreferenced(p) && forall next: nat :: base <= next ==> Apart(p, next, name)
  }

  lemma ApartIsLaid(p: Parsed, base: nat, name: string)
    requires Unreferenced(p) && Apart(p, base, name)
    ensures Laid(p, base, name)
  {
  }

  lemma LineKeepsLaid(d: Dialect, p: Parsed, line: string, base: nat, k: nat, name: string)
    requires Laid(p, base, name) && ParseLine(d, p, line, base, k).0.errors == []
    ensures Laid(ParseLine(d, p, line, base, k).0, base + |line| + 1, name)
  {
    assert Apart(p, base, name);
    LineGains(d, p, line, base, k, name);
    ApartIsLaid(ParseLine(d, p, line, base, k).0, base + |line| + 1, name);
  }

  lemma SkipKeepsLaid(d: Dialect, p: Parsed, line: string, base: nat, total: nat, name: string)
    requires Laid(p, base, name)
    ensures Laid(SkipLine(d, p, line, base, total), base + |line| + 1, name)
  {
    assert Apart(p, base, name);
    SkipGains(d, p, line, base, total, name);
    ApartIsLaid(SkipLine(d, p, line, base, total), base + |line| + 1, name);
  }

  lemma ParserKeepsLaid(d: Dialect, total: nat, name: string)
    ensures KeptByCleanLines(ReaderOf(d, total), (p: Parsed, base: nat) => Laid(p, base, name))
  {
    var r := ReaderOf(d, total);
    forall p: Parsed, line: string, base: nat, k: nat | Laid(p, base, name) && r.live(p, line, base, k).0.errors == []
      ensures Laid(r.live(p, line, base, k).0, base + |line| + 1, name)
    {
      LineKeepsLaid(d, p, line, base, k, name);
    }
    forall p: Parsed, line: string, base: nat, k: nat | Laid(p, base, name)
      ensures Laid(r.dead(p, line, base, k), base + |line| + 1, name)
    {
      SkipKeepsLaid(d, p, line, base, total, name);
    }
  }

  /** The sites of an error-free source are those its lines name, and they are apart. */
  lemma SitesOfLines(d: Dialect, source: string, name: string, text: string)
    requires Parse(d, source).errors == []
    ensures Sites(Parse(d, source), name) == AllSpans(Renamer(d, name, text), Lines(source), 0, false)
    ensures Unreferenced(Parse(d, source)) && Apart(Parse(d, source), PastLines(Lines(source), 0), name)
  {
    var r, e := ReaderOf(d, |source|), Renamer(d, name, text);
    ReaderOnlyAdds(d, |source|);
    ParserGains(d, |source|, name, text);
    LinesGain(r, e, (p: Parsed) => Sites(p, name), NOTHING, Lines(source), 0, 0, false);
    ParserKeepsLaid(d, |source|, name);
    assert Apart(NOTHING, 0, name);
    ApartIsLaid(NOTHING, 0, name);
    CleanLinesKeep(r, (p: Parsed, base: nat) => Laid(p, base, name), NOTHING, Lines(source), 0, 0, false);
    assert Sites(NOTHING, name) == {};
  }

  // ----- the edits of a rename -----

  /**
   The spans an accepted rename edits are all the places the name is written or read, line by
   line; each is nonempty and no two overlap, as the protocol demands of a list of edits.
   */
  lemma RenameSpansAreTheSites(d: Dialect, source: string, name: string, text: string)
    requires Assemble(d, source).Succeeded() && name in Assemble(d, source).symbols
    ensures var spans := RenameSpans(Assemble(d, source).symbols, name);
      && (set s | s in spans) == AllSpans(Renamer(d, name, text), Lines(source), 0, false)
      && (forall i :: 0 <= i < |spans| ==> spans[i].start < spans[i].end)
      && (forall i, j :: 0 <= i < j < |spans| ==> Disjoint(spans[i], spans[j]))
  {
    SitesOfLines(d, source, name, text);
    RecordedSpans(d.ws, Parse(d, source), name);
    SpansOfSites(Parse(d, source), PastLines(Lines(source), 0), name);
  }

  lemma RecordedSpans(ws: char -> bool, p: Parsed, name: string)
    requires Unreferenced(p) && name in AssembleItems(ws, p.symbols, p.items).1
    ensures name in p.symbols
    ensures RenameSpans(AssembleItems(ws, p.symbols, p.items).1, name) == [p.symbols[name].definition] + Uses(p.items, name)
  {
    WordsFollowItems(ws, p.symbols, p.symbols, p.items);
    ReferencesAreUses(ws, p.symbols, p.items, name);
    assert [] + Uses(p.items, name) == Uses(p.items, name);
  }

  lemma FirstAndRest(first: Span, rest: seq<Span>, i: nat)
    requires i <= |rest|
    ensures ([first] + rest)[i] == if i == 0 then first else rest[i - 1]
  {
  }

  /** The definition, off all the uses, and the uses, in order. */
  lemma SpansApart(definition: Span, uses: seq<Span>, end: nat)
    requires InOrder(uses, end) && definition.start < definition.end && OffAll(definition, uses)
    ensures var spans := [definition] + uses;
      && (forall i :: 0 <= i < |spans| ==> spans[i].start < spans[i].end)
      && (forall i, j :: 0 <= i < j < |spans| ==> Disjoint(spans[i], spans[j]))
  {
    var spans := [definition] + uses;
    forall i | 0 <= i < |spans|
      ensures spans[i].start < spans[i].end
    {
      FirstAndRest(definition, uses, i);
    }
    forall i, j | 0 <= i < j < |spans|
      ensures Disjoint(spans[i], spans[j])
    {
      FirstAndRest(definition, uses, i);
      FirstAndRest(definition, uses, j);
    }
  }

  lemma SpansOfSites(p: Parsed, end: nat, name: string)
    requires name in p.symbols && Apart(p, end, name)
    ensures var spans := [p.symbols[name].definition] + Uses(p.items, name);
      && (set s | s in spans) == Sites(p, name)
      && (forall i :: 0 <= i < |spans| ==> spans[i].start < spans[i].end)
      && (forall i, j :: 0 <= i < j < |spans| ==> Disjoint(spans[i], spans[j]))
  {
    SpansApart(p.symbols[name].definition, Uses(p.items, name), end);
  }
}
