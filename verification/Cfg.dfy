/**
 Which words control can reach (crates/lib/mrs-lint/src/cfg.rs), and the lints that ask
 (crates/lib/mrs-lint/src/lints/flow.rs, hazards.rs).
 */
module Cfg {
  import opened Words
  import opened Instructions
  import opened Syntax
  import opened Assembler

  datatype WordKind = Code | Data

  datatype Edge = ToWord(index: nat) | Outside(address: Address) | OffEnd | Elsewhere

  /** A word is data if a literal or `ADR` emitted it. */
  function Classify(kind: Kind): WordKind {
    match kind
    case DirectiveKind(Dec) => Data
    case DirectiveKind(Oct) => Data
    case DirectiveKind(Hexa) => Data
    case DirectiveKind(Adr) => Data
    case _ => Code
  }

  /** An opcode for every code word, `Clear` included, and for no literal. */
  function EffectiveOpcode(kind: Kind): Option<Opcode> {
    match kind
    case OpcodeKind(opcode) => Some(opcode)
    case DirectiveKind(Clear) => Some(LoadImmi)
    case _ => None
  }

  /** What the graph is built from: a kind and a word for every item, and where they sit. */
  datatype Graph = Graph(kinds: seq<Kind>, words: seq<Word>, origin: Address) {
    predicate Ok() {
      |words| == |kinds| && origin + |kinds| <= WORDS_IN_MEMORY
    }

    function IndexOf(address: Address): Option<nat> {
      if origin <= address < origin + |kinds| then Some(address - origin) else None
    }

    function Advance(index: nat, offset: nat): Edge {
      if index + offset < |kinds| then ToWord(index + offset) else OffEnd
    }

    function Target(address: Address): Edge {
      match IndexOf(address)
      case Some(index) => ToWord(index)
      case None => Outside(address)
    }

    /** The successors of a word: none for data and `Halt`, two for `SkipCond`, one for everything else. */
    function Edges(index: nat): seq<Edge>
      requires Ok()
    {
      if index >= |kinds| || Classify(kinds[index]) == Data then []
      else
        var operand := Masked(words[index]);
        match EffectiveOpcode(kinds[index])
        case None => []
        case Some(Halt) => []
        case Some(Jump) => [Target(operand)]
        case Some(JnS) => [Target(Next(operand))]
        case Some(JumpI) => [Elsewhere]
        case Some(SkipCond) => [Advance(index, 1), Advance(index, 2)]
        case Some(_) => [Advance(index, 1)]
    }

    /** Neither `JumpI` nor `StoreI` among the words. */
    predicate Exact() {
      forall i :: 0 <= i < |kinds| ==> kinds[i] != OpcodeKind(JumpI) && kinds[i] != OpcodeKind(StoreI)
    }

    predicate IsCode(index: nat) {
      index < |kinds| && Classify(kinds[index]) == Code
    }
  }

  function GraphOf(a: Assembly): Graph {
    Graph(seq(|a.program.items|, i requires 0 <= i < |a.program.items| => a.program.items[i].kind), a.words, a.origin)
  }

  // ----- reachability -----

  ghost predicate Follows(g: Graph, i: nat, j: nat)
    requires g.Ok()
  {
    i < |g.kinds| && j < |g.kinds| && ToWord(j) in g.Edges(i)
  }

  /** A path along in-program edges from word zero; its inner words are code, since data has no edges. */
  ghost predicate IsPath(g: Graph, path: seq<nat>)
    requires g.Ok()
  {
    && path != [] && path[0] == 0 && |g.kinds| > 0
    && forall k :: 0 <= k < |path| - 1 ==> Follows(g, path[k], path[k + 1])
  }

  ghost predicate Reaches(g: Graph, i: nat)
    requires g.Ok()
  {
    exists path :: IsPath(g, path) && path[|path| - 1] == i
  }

  lemma ReachesStart(g: Graph)
    requires g.Ok() && |g.kinds| > 0
    ensures Reaches(g, 0)
  {
    assert IsPath(g, [0]);
    assert [0][|[0]| - 1] == 0;
  }

  lemma ReachesNext(g: Graph, i: nat, j: nat)
    requires g.Ok() && Reaches(g, i) && Follows(g, i, j)
    ensures Reaches(g, j)
  {
    var path :| IsPath(g, path) && path[|path| - 1] == i;
    var longer := path + [j];
    assert IsPath(g, longer) && longer[|longer| - 1] == j;
  }

  lemma ReachesInside(g: Graph, i: nat)
    requires g.Ok() && Reaches(g, i)
    ensures i < |g.kinds|
  {
    var path :| IsPath(g, path) && path[|path| - 1] == i;
    if |path| > 1 {
      assert Follows(g, path[|path| - 2], path[|path| - 1]);
    }
  }

  /** A closed set of words holding word zero holds everything reachable. */
  lemma {:induction false} ClosedHoldsPath(g: Graph, marked: seq<bool>, path: seq<nat>)
    requires g.Ok() && |marked| == |g.kinds| && IsPath(g, path)
    requires marked[0]
    requires forall i: nat, j: nat :: i < |marked| && Follows(g, i, j) && marked[i] ==> marked[j]
    ensures path[|path| - 1] < |marked| && marked[path[|path| - 1]]
    decreases |path|
  {
    if |path| > 1 {
      var n := |path|;
      var shorter := path[..n - 1];
      assert forall k :: 0 <= k < n - 1 ==> shorter[k] == path[k];
      assert IsPath(g, shorter);
      ClosedHoldsPath(g, marked, shorter);
      assert Follows(g, path[n - 2], path[n - 1]);
    }
  }

  function Unmarked(marked: seq<bool>): nat {
    if marked == [] then 0 else (if marked[0] then 0 else 1) + Unmarked(marked[1..])
  }

  lemma {:induction false} MarkingCounts(marked: seq<bool>, i: nat)
    requires i < |marked| && !marked[i]
    ensures Unmarked(marked[i := true]) == Unmarked(marked) - 1
  {
    if i > 0 {
      assert marked[i := true][1..] == marked[1..][i - 1 := true];
      MarkingCounts(marked[1..], i - 1);
    }
  }

  /** Every word on the stack, and every marked word, is reachable; what a marked word leads to is marked or waiting. */
  ghost predicate Explored(g: Graph, marked: seq<bool>, stack: seq<nat>)
    requires g.Ok() && |marked| == |g.kinds|
  {
    && (forall k :: 0 <= k < |stack| ==> Reaches(g, stack[k]))
    && (forall i :: 0 <= i < |marked| && marked[i] ==> Reaches(g, i))
    && (forall i: nat, j: nat :: i < |marked| && marked[i] && Follows(g, i, j) ==> marked[j] || j in stack)
    && (|marked| > 0 ==> marked[0] || 0 in stack)
  }

  /** A popped word that was marked already leaves nothing to do. */
  lemma PopMarked(g: Graph, marked: seq<bool>, stack: seq<nat>)
    requires g.Ok() && |marked| == |g.kinds| && stack != [] && Explored(g, marked, stack)
    requires stack[|stack| - 1] < |marked| && marked[stack[|stack| - 1]]
    ensures Explored(g, marked, stack[..|stack| - 1])
  {
    assert forall j :: j in stack ==> j == stack[|stack| - 1] || j in stack[..|stack| - 1];
  }

  /** A popped word is marked and its successors are pushed. */
  lemma PopAndPush(g: Graph, marked: seq<bool>, stack: seq<nat>, pushed: seq<nat>)
    requires g.Ok() && |marked| == |g.kinds| && stack != [] && Explored(g, marked, stack)
    requires stack[|stack| - 1] < |marked| && Pushed(g, stack[|stack| - 1], stack[..|stack| - 1], pushed)
    ensures Explored(g, marked[stack[|stack| - 1] := true], pushed)
  {
    var index, rest := stack[|stack| - 1], stack[..|stack| - 1];
    assert forall j :: j in stack ==> j == index || j in rest;
    assert forall j :: j in rest ==> j in pushed;
  }

  /** `stack` with the in-program successors of a word on top. */
  ghost predicate Pushed(g: Graph, index: nat, stack: seq<nat>, pushed: seq<nat>)
    requires g.Ok()
  {
    && stack <= pushed
    && (forall k :: |stack| <= k < |pushed| ==> Reaches(g, pushed[k]))
    && (forall j :: Follows(g, index, j) ==> j in pushed)
  }

  /**
   The worklist computes exactly the least fixed point: a word is marked if and only if a
   path of in-program edges through code words leads to it from word zero.
   */
  method MarkReachable(g: Graph) returns (reachable: array<bool>)
    requires g.Ok()
    ensures fresh(reachable) && reachable.Length == |g.kinds|
    ensures forall i :: 0 <= i < reachable.Length ==> (reachable[i] <==> Reaches(g, i))
  {
    reachable := new bool[|g.kinds|](_ => false);
    var stack := if |g.kinds| == 0 then [] else [0];
    if |g.kinds| > 0 {
      ReachesStart(g);
    }
    while stack != []
      invariant Explored(g, reachable[..], stack)
      decreases Unmarked(reachable[..]), |stack|
    {
      var index := stack[|stack| - 1];
      ghost var before, marked := stack, reachable[..];
      stack := stack[..|stack| - 1];
      ReachesInside(g, index);
      if reachable[index] {
        PopMarked(g, marked, before);
        continue;
      }
      MarkingCounts(marked, index);
      reachable[index] := true;
      assert reachable[..] == marked[index := true];
      stack := PushSuccessors(g, index, stack);
      PopAndPush(g, marked, before, stack);
    }
    forall i | 0 <= i < reachable.Length && Reaches(g, i)
      ensures reachable[i]
    {
      var path :| IsPath(g, path) && path[|path| - 1] == i;
      ClosedHoldsPath(g, reachable[..], path);
    }
  }

  /** Pushes the in-program successors; a data word has none. */
  method PushSuccessors(g: Graph, index: nat, stack: seq<nat>) returns (r: seq<nat>)
    requires g.Ok() && Reaches(g, index)
    ensures Pushed(g, index, stack, r)
  {
    r := stack;
    var edges := g.Edges(index);
    ReachesInside(g, index);
    for k := 0 to |edges|
      invariant stack <= r
      invariant forall m :: |stack| <= m < |r| ==> Reaches(g, r[m])
      invariant forall m :: 0 <= m < k && edges[m].ToWord? ==> edges[m].index in r
    {
      if edges[k].ToWord? {
        assert Follows(g, index, edges[k].index);
        ReachesNext(g, index, edges[k].index);
        r := r + [edges[k].index];
      }
    }
  }

  // ----- the lints, as what they look for and as the loops that look -----

  ghost predicate FallsIntoData(g: Graph, i: nat)
    requires g.Ok()
  {
    Reaches(g, i) && !g.IsCode(i)
  }

  ghost predicate FallsOffEnd(g: Graph, i: nat)
    requires g.Ok()
  {
    Reaches(g, i) && g.IsCode(i) && OffEnd in g.Edges(i)
  }

  ghost predicate JumpsOutside(g: Graph, i: nat)
    requires g.Ok()
  {
    Reaches(g, i) && exists e :: e in g.Edges(i) && e.Outside?
  }

  ghost predicate Unreachable(g: Graph, i: nat)
    requires g.Ok()
  {
    g.Exact() && g.IsCode(i) && !Reaches(g, i)
  }

  /** The index of the word the operand addresses. */
  function Slot(g: Graph, i: nat): Option<nat>
    requires g.Ok() && i < |g.kinds|
  {
    g.IndexOf(Masked(g.words[i]))
  }

  ghost predicate JnsOverwritesCode(g: Graph, i: nat)
    requires g.Ok()
  {
    && i < |g.kinds| && EffectiveOpcode(g.kinds[i]) == Some(JnS)
    && Slot(g, i).Some? && g.IsCode(Slot(g, i).value)
  }

  ghost predicate SelfModifying(g: Graph, i: nat)
    requires g.Ok()
  {
    && i < |g.kinds| && EffectiveOpcode(g.kinds[i]) == Some(Store)
    && Slot(g, i).Some? && g.IsCode(Slot(g, i).value) && Reaches(g, Slot(g, i).value)
  }

  datatype Findings = Findings(
    intoData: seq<nat>, offEnd: seq<nat>, outside: seq<nat>, unreachable: seq<nat>,
    jnsOverwrites: seq<nat>, selfModifying: seq<nat>)

  /** Each list holds exactly the words its lint is about. */
  ghost predicate Reports(g: Graph, f: Findings)
    requires g.Ok()
  {
    && (forall i: nat :: i in f.intoData <==> FallsIntoData(g, i))
    && (forall i: nat :: i in f.offEnd <==> FallsOffEnd(g, i))
    && (forall i: nat :: i in f.outside <==> JumpsOutside(g, i))
    && (forall i: nat :: i in f.unreachable <==> Unreachable(g, i))
    && (forall i: nat :: i in f.jnsOverwrites <==> JnsOverwritesCode(g, i))
    && (forall i: nat :: i in f.selfModifying <==> SelfModifying(g, i))
  }

  lemma NothingBeyond(g: Graph)
    requires g.Ok()
    ensures forall i: nat :: Reaches(g, i) ==> i < |g.kinds|
  {
    forall i: nat | Reaches(g, i)
      ensures i < |g.kinds|
    {
      ReachesInside(g, i);
    }
  }

  lemma OutsideEdge(g: Graph, i: nat)
    requires g.Ok() && Reaches(g, i)
    ensures JumpsOutside(g, i) <==> exists k :: 0 <= k < |g.Edges(i)| && g.Edges(i)[k].Outside?
  {
    assert forall k :: 0 <= k < |g.Edges(i)| ==> g.Edges(i)[k] in g.Edges(i);
  }

  /** The marks are those of the reachable words. */
  ghost predicate Marked(g: Graph, reachable: array<bool>)
    requires g.Ok()
    reads reachable
  {
    reachable.Length == |g.kinds| && forall i :: 0 <= i < reachable.Length ==> (reachable[i] <==> Reaches(g, i))
  }

  method FindIntoData(g: Graph, reachable: array<bool>) returns (found: seq<nat>)
    requires g.Ok() && Marked(g, reachable)
    ensures forall i: nat :: i in found <==> FallsIntoData(g, i)
  {
    found := [];
    for i := 0 to |g.kinds|
      invariant forall j: nat :: j in found <==> j < i && FallsIntoData(g, j)
    {
      if reachable[i] && !g.IsCode(i) {
        found := found + [i];
      }
    }
    NothingBeyond(g);
  }

  method FindOffEnd(g: Graph, reachable: array<bool>) returns (found: seq<nat>)
    requires g.Ok() && Marked(g, reachable)
    ensures forall i: nat :: i in found <==> FallsOffEnd(g, i)
  {
    found := [];
    for i := 0 to |g.kinds|
      invariant forall j: nat :: j in found <==> j < i && FallsOffEnd(g, j)
    {
      if reachable[i] && g.IsCode(i) && OffEnd in g.Edges(i) {
        found := found + [i];
      }
    }
    NothingBeyond(g);
  }

  method FindOutside(g: Graph, reachable: array<bool>) returns (found: seq<nat>)
    requires g.Ok() && Marked(g, reachable)
    ensures forall i: nat :: i in found <==> JumpsOutside(g, i)
  {
    found := [];
    for i := 0 to |g.kinds|
      invariant forall j: nat :: j in found <==> j < i && JumpsOutside(g, j)
    {
      if reachable[i] {
        var edges := g.Edges(i);
        OutsideEdge(g, i);
        if exists k :: 0 <= k < |edges| && edges[k].Outside? {
          found := found + [i];
        }
      }
    }
    NothingBeyond(g);
  }

  method FindUnreachable(g: Graph, reachable: array<bool>) returns (found: seq<nat>)
    requires g.Ok() && Marked(g, reachable)
    ensures forall i: nat :: i in found <==> Unreachable(g, i)
  {
    found := [];
    var exact := g.Exact();
    for i := 0 to |g.kinds|
      invariant forall j: nat :: j in found <==> j < i && Unreachable(g, j)
    {
      if exact && !reachable[i] && g.IsCode(i) {
        found := found + [i];
      }
    }
  }

  method FindJnsOverwrites(g: Graph) returns (found: seq<nat>)
    requires g.Ok()
    ensures forall i: nat :: i in found <==> JnsOverwritesCode(g, i)
  {
    found := [];
    for i := 0 to |g.kinds|
      invariant forall j: nat :: j in found <==> j < i && JnsOverwritesCode(g, j)
    {
      var slot := Slot(g, i);
      if EffectiveOpcode(g.kinds[i]) == Some(JnS) && slot.Some? && g.IsCode(slot.value) {
        found := found + [i];
      }
    }
  }

  method FindSelfModifying(g: Graph, reachable: array<bool>) returns (found: seq<nat>)
    requires g.Ok() && Marked(g, reachable)
    ensures forall i: nat :: i in found <==> SelfModifying(g, i)
  {
    found := [];
    for i := 0 to |g.kinds|
      invariant forall j: nat :: j in found <==> j < i && SelfModifying(g, j)
    {
      var slot := Slot(g, i);
      if EffectiveOpcode(g.kinds[i]) == Some(Store) && slot.Some? && g.IsCode(slot.value) && reachable[slot.value] {
        found := found + [i];
      }
    }
  }

  method Lint(g: Graph) returns (f: Findings)
    requires g.Ok()
    ensures Reports(g, f)
  {
    var reachable := MarkReachable(g);
    var intoData := FindIntoData(g, reachable);
    var offEnd := FindOffEnd(g, reachable);
    var outside := FindOutside(g, reachable);
    var unreachable := FindUnreachable(g, reachable);
    var jnsOverwrites := FindJnsOverwrites(g);
    var selfModifying := FindSelfModifying(g, reachable);
    f := Findings(intoData, offEnd, outside, unreachable, jnsOverwrites, selfModifying);
  }
}
