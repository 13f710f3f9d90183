/**
 Which label a caret is on (crates/lib/mrs-asm/src/symbols.rs:122-146). The table is
 searched in the order of its names, and a caret belongs to a span at either end of it;
 still at most one label can be found, because no two places where labels are written
 touch.
 */
module Carets {
  import opened Words
  import opened Lexer
  import opened LineShapes
  import opened Syntax
  import opened Parser
  import opened Assembler
  import opened Consistency
  import opened RenamedLines
  import opened RenamedPrograms
  import opened RenameSites

  datatype Role = Definition | Reference

  function RoleAt(symbol: Symbol, offset: nat): Option<Role> {
    if symbol.definition.Touches(offset) then Some(Definition)
    else if exists i :: 0 <= i < |symbol.references| && symbol.references[i].Touches(offset) then Some(Reference)
    else None
  }

  /** `find_at`: the first symbol of `order` with a role at the offset, and that role. */
  function FindAt(symbols: SymbolTable, order: seq<string>, offset: nat): (found: Option<(string, Role)>)
    requires forall n :: n in order ==> n in symbols
    ensures found.Some? ==> found.value.0 in order && RoleAt(symbols[found.value.0], offset) == Some(found.value.1)
  {
    if order == [] then None
    else
      match RoleAt(symbols[order[0]], offset)
      case Some(role) => Some((order[0], role))
      case None => FindAt(symbols, order[1..], offset)
  }

  // ----- no two places touch -----

  /** The label is written here, as a definition or a use. */
  ghost predicate Site(p: Parsed, name: string, s: Span) {
    (name in p.symbols && p.symbols[name].definition == s) || s in Uses(p.items, name)
  }

  /** At least one character apart. */
  ghost predicate Separate(s: Span, t: Span) {
    s.end < t.start || t.end < s.start
  }

  ghost predicate Ended(p: Parsed, base: nat) {
    forall n, s :: Site(p, n, s) ==> s.start < s.end < base
  }

  ghost predicate AllSeparate(p: Parsed) {
    forall n, s, m, t :: Site(p, n, s) && Site(p, m, t) && (n != m || s != t) ==> Separate(s, t)
  }

  ghost predicate Spread(p: Parsed, base: nat) {
    Ended(p, base) && AllSeparate(p) && Unreferenced(p)
  }

  /** Where a site of the extended program comes from. */
  lemma NewSite(p: Parsed, q: Parsed, item: Item, base: nat, next: nat, n: string, s: Span)
    requires Adds(p, q, item.tag, UseIn(item, n), base, next, n) && Site(q, n, s)
    ensures Site(p, n, s) || item.tag == Some(Tag(n, s)) || UseIn(item, n) == [s]
  {
  }

  lemma StatementSpreads(d: Dialect, p: Parsed, line: string, base: nat, k: nat, parts: Parts)
    requires Shaped(d.ws, line, parts) && Accepted(d, p, line, parts) && Spread(p, base)
    ensures Spread(ParseStatement(d, p, line, base, k, parts).0, base + |line| + 1)
  {
    var q, next := ParseStatement(d, p, line, base, k, parts).0, base + |line| + 1;
    var item := ItemOf(d, line, base, k, parts, p.NextAddress().value);
    forall n: string
      ensures Adds(p, q, item.tag, UseIn(item, n), base, next, n)
    {
      StatementAdds(d, p, line, base, k, parts, n);
    }
    AddingSpreads(p, q, item, base, next);
  }

  lemma AddingSpreads(p: Parsed, q: Parsed, item: Item, base: nat, next: nat)
    requires forall n: string :: Adds(p, q, item.tag, UseIn(item, n), base, next, n)
    requires Spread(p, base) && base <= next
    ensures Spread(q, next)
  {
    assert Adds(p, q, item.tag, UseIn(item, ""), base, next, "");
    forall n, s | Site(q, n, s)
      ensures s.start < s.end < next
    {
      NewSite(p, q, item, base, next, n, s);
    }
    forall n, s, m, t | Site(q, n, s) && Site(q, m, t) && (n != m || s != t)
      ensures Separate(s, t)
    {
      NewSite(p, q, item, base, next, n, s);
      NewSite(p, q, item, base, next, m, t);
    }
  }

  lemma SameSites(p: Parsed, q: Parsed, base: nat, next: nat)
    requires q.items == p.items && q.symbols == p.symbols && Spread(p, base) && base <= next
    ensures Spread(q, next)
  {
    forall n, s | Site(q, n, s)
      ensures Site(p, n, s)
    {
    }
  }

  /** Only an accepted statement adds labels or items. */
  lemma OthersAddNothing(d: Dialect, p: Parsed, line: string, base: nat, k: nat)
    requires var form := FormOf(d.ws, line); form.Statement? ==> !Accepted(d, p, line, form.parts)
    ensures var q := ParseLine(d, p, line, base, k).0; q.items == p.items && q.symbols == p.symbols
  {
  }

  lemma LiveLineSpreads(d: Dialect, p: Parsed, line: string, base: nat, k: nat)
    requires Spread(p, base)
    ensures Spread(ParseLine(d, p, line, base, k).0, base + |line| + 1)
  {
    var form := FormOf(d.ws, line);
    if form.Statement? && Accepted(d, p, line, form.parts) {
      StatementStarts(d.ws, line, form.parts);
      StatementShape(d.ws, line);
      StatementSpreads(d, p, line, base, k, form.parts);
    } else {
      OthersAddNothing(d, p, line, base, k);
      SameSites(p, ParseLine(d, p, line, base, k).0, base, base + |line| + 1);
    }
  }

  lemma DeadLineSpreads(d: Dialect, p: Parsed, line: string, base: nat, total: nat)
    requires Spread(p, base)
    ensures Spread(SkipLine(d, p, line, base, total), base + |line| + 1)
  {
    SameSites(p, SkipLine(d, p, line, base, total), base, base + |line| + 1);
  }

  lemma ParserSpreads(d: Dialect, total: nat)
    ensures KeptByLines(ReaderOf(d, total), (p: Parsed, base: nat) => Spread(p, base))
  {
    var r := ReaderOf(d, total);
    forall p: Parsed, line: string, base: nat, k: nat | Spread(p, base)
      ensures Spread(r.live(p, line, base, k).0, base + |line| + 1)
    {
      LiveLineSpreads(d, p, line, base, k);
    }
    forall p: Parsed, line: string, base: nat, k: nat | Spread(p, base)
      ensures Spread(r.dead(p, line, base, k), base + |line| + 1)
    {
      DeadLineSpreads(d, p, line, base, total);
    }
  }

  lemma {:induction false} PastJoin(lines: seq<string>, base: nat)
    requires lines != []
    ensures PastLines(lines, base) == base + |Join(lines)| + 1
    decreases |lines|
  {
    if |lines| > 1 {
      PastJoin(lines[1..], base + |lines[0]| + 1);
    }
  }

  /** Every place a label is written lies inside the source, and no two touch. */
  lemma SitesInSource(d: Dialect, source: string)
    ensures Spread(Parse(d, source), |source| + 1)
  {
    ParserSpreads(d, |source|);
    AllLinesKeep(ReaderOf(d, |source|), (p: Parsed, base: nat) => Spread(p, base), NOTHING, Lines(source), 0, 0, false);
    PastJoin(Lines(source), 0);
    JoinLines(source);
  }

  // ----- the caret -----

  /** The caret is on a place where the label is written. */
  ghost predicate On(symbol: Symbol, offset: nat) {
    RoleAt(symbol, offset).Some?
  }

  /** The definition and the references of the table are the places the label is written. */
  lemma RoleIsAtSite(ws: char -> bool, p: Parsed, name: string, offset: nat) returns (s: Span)
    requires Unreferenced(p) && name in p.symbols
    requires name in AssembleItems(ws, p.symbols, p.items).1
    requires On(AssembleItems(ws, p.symbols, p.items).1[name], offset)
    ensures Site(p, name, s) && s.Touches(offset)
  {
    var symbol := AssembleItems(ws, p.symbols, p.items).1[name];
    ReferencesAreUses(ws, p.symbols, p.items, name);
    assert [] + Uses(p.items, name) == Uses(p.items, name);
    if symbol.definition.Touches(offset) {
      s := symbol.definition;
    } else {
      var i :| 0 <= i < |symbol.references| && symbol.references[i].Touches(offset);
      s := symbol.references[i];
    }
  }

  lemma {:induction false} FoundIsFirst(symbols: SymbolTable, order: seq<string>, offset: nat)
    requires forall n :: n in order ==> n in symbols
    requires forall n, m :: n in order && m in order && On(symbols[n], offset) && On(symbols[m], offset) ==> n == m
    ensures forall n :: n in order && On(symbols[n], offset) ==>
      FindAt(symbols, order, offset) == Some((n, RoleAt(symbols[n], offset).value))
    ensures (forall n :: n in order ==> !On(symbols[n], offset)) ==> FindAt(symbols, order, offset).None?
    decreases |order|
  {
    if order != [] {
      assert order[0] in order;
      FoundIsFirst(symbols, order[1..], offset);
    }
  }

  /** At most one label is under a caret. */
  lemma OneAtMost(d: Dialect, source: string, offset: nat, n: string, m: string)
    requires var symbols := Assemble(d, source).symbols;
      n in symbols && m in symbols && On(symbols[n], offset) && On(symbols[m], offset)
    ensures n == m
  {
    var p := Parse(d, source);
    WordsFollowItems(d.ws, p.symbols, p.symbols, p.items);
    SitesInSource(d, source);
    var s := RoleIsAtSite(d.ws, p, n, offset);
    var t := RoleIsAtSite(d.ws, p, m, offset);
  }

  /**
   For every source, with or without errors, every caret and every order of the table: the
   search finds the label the caret is on, in the right role, and there is never a second one
   it could have found; on no label it finds nothing.
   */
  lemma CaretFindsItsLabel(d: Dialect, source: string, order: seq<string>, offset: nat)
    requires forall n :: n in order <==> n in Assemble(d, source).symbols
    ensures var symbols := Assemble(d, source).symbols;
      && (forall n, m :: n in symbols && m in symbols && On(symbols[n], offset) && On(symbols[m], offset) ==> n == m)
      && (forall n :: n in symbols && On(symbols[n], offset) ==>
            FindAt(symbols, order, offset) == Some((n, RoleAt(symbols[n], offset).value)))
      && ((forall n :: n in symbols ==> !On(symbols[n], offset)) ==> FindAt(symbols, order, offset).None?)
  {
    var symbols := Assemble(d, source).symbols;
    forall n, m | n in symbols && m in symbols && On(symbols[n], offset) && On(symbols[m], offset)
      ensures n == m
    {
      OneAtMost(d, source, offset, n, m);
    }
    FoundIsFirst(symbols, order, offset);
  }
}
