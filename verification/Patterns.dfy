/**
 Backtracking matching in ECMAScript order (section 22.2.2 of ECMA-262, Pattern
 Semantics), for the pattern terms the line forms are written with.
 */
module Patterns {
  import opened Words

  /** A character class; what counts as whitespace is a parameter of every match. */
  datatype CharSet = Space | NotSpaceOrComma | NotCommaOrSlash | Any | Exactly(c: char) | Letter(lower: char) | Hex

  /** `,` and `/` are not whitespace; nothing else about the class is ever needed. */
  ghost predicate IsWhitespace(ws: char -> bool) {
    !ws(',') && !ws('/')
  }

  predicate IsHex(c: char) {
    '0' <= c <= '9' || 'a' <= c <= 'f' || 'A' <= c <= 'F'
  }

  function LowerAscii(c: char): char {
    if 'A' <= c <= 'Z' then c + 32 as char else c
  }

  predicate Accepts(set_: CharSet, ws: char -> bool, c: char) {
    match set_
    case Space => ws(c)
    case NotSpaceOrComma => !ws(c) && c != ','
    case NotCommaOrSlash => c != ',' && c != '/'
    case Any => true
    case Exactly(d) => c == d
    case Letter(lower) => LowerAscii(c) == lower
    case Hex => IsHex(c)
  }

  datatype Name = Label | Operator | Operand | Comment | Digits

  datatype Node =
    | One(chars: CharSet)                 // x
    | Greedy(chars: CharSet, min: nat)    // x* and x+
    | Lazy(chars: CharSet, min: nat)      // x*? and x+?
    | Optional(body: seq<Node>)           // (?: ... )?
    | Group(name: Name, body: seq<Node>)  // (?<name> ... )
    | Close(name: Name, start: nat)       // the end of a group opened at `start`
    | EndOfInput                          // $

  type Captures = map<Name, (nat, nat)>

  function Size(n: Node): (size: nat)
    ensures size >= 1
  {
    match n
    case Greedy(_, min) => 2 * min + 1
    case Lazy(_, min) => 2 * min + 1
    case Optional(body) => 1 + SizeAll(body)
    case Group(_, body) => 2 + SizeAll(body)
    case _ => 1
  }

  function SizeAll(ns: seq<Node>): nat {
    if ns == [] then 0 else Size(ns[0]) + SizeAll(ns[1..])
  }

  lemma SizeOfConcatenation(a: seq<Node>, b: seq<Node>)
    ensures SizeAll(a + b) == SizeAll(a) + SizeAll(b)
  {
    if a == [] {
      assert a + b == b;
    } else {
      assert (a + b)[1..] == a[1..] + b;
    }
  }

  /**
   The first match of `ns` from index `i`, in backtracking order: a greedy quantifier tries
   to take one more before going on, a lazy one tries to go on first, an optional group is
   tried before being skipped, and every choice is revisited if what follows it fails.
   */
  function Match(ws: char -> bool, line: string, ns: seq<Node>, i: nat, caps: Captures): Option<Captures>
    requires i <= |line|
    decreases |line| - i, SizeAll(ns)
  {
    if ns == [] then Some(caps)
    else
      var rest := ns[1..];
      assert SizeAll(ns) == Size(ns[0]) + SizeAll(rest);
      match ns[0]
      case One(chars) =>
        if i < |line| && Accepts(chars, ws, line[i]) then Match(ws, line, rest, i + 1, caps) else None
      case Greedy(chars, min) =>
        if min > 0 then Match(ws, line, Counted(One(chars), Greedy(chars, min - 1), rest), i, caps)
        else
          var more := if i < |line| && Accepts(chars, ws, line[i]) then Match(ws, line, ns, i + 1, caps) else None;
          if more.Some? then more else Match(ws, line, rest, i, caps)
      case Lazy(chars, min) =>
        if min > 0 then Match(ws, line, Counted(One(chars), Lazy(chars, min - 1), rest), i, caps)
        else
          var now := Match(ws, line, rest, i, caps);
          if now.Some? then now
          else if i < |line| && Accepts(chars, ws, line[i]) then Match(ws, line, ns, i + 1, caps)
          else None
      case Optional(body) =>
        SizeOfConcatenation(body, rest);
        var taken := Match(ws, line, body + rest, i, caps);
        if taken.Some? then taken else Match(ws, line, rest, i, caps)
      case Group(name, body) =>
        SizeOfConcatenation(body, [Close(name, i)] + rest);
        assert ([Close(name, i)] + rest)[1..] == rest;
        Match(ws, line, body + ([Close(name, i)] + rest), i, caps)
      case Close(name, start) => Match(ws, line, rest, i, caps[name := (start, i)])
      case EndOfInput => if i == |line| then Match(ws, line, rest, i, caps) else None
  }

  function Counted(one: Node, again: Node, rest: seq<Node>): (r: seq<Node>)
    ensures SizeAll(r) == Size(one) + Size(again) + SizeAll(rest)
  {
    var r := [one, again] + rest;
    assert r[1..] == [again] + rest && r[1..][1..] == rest;
    r
  }

  // ----- the three line forms, as quoted by the source -----

  /** `\s*(?:/.*)?$`, with the comment captured. */
  const TAIL: seq<Node> :=
    [Greedy(Space, 0), Optional([Group(Comment, [One(Exactly('/')), Greedy(Any, 0)])]), EndOfInput]

  /** `\s*(?<operator>[^\s,]+?)(?:\s+(?<operand>[^\s,]+?))?` and the tail. */
  const OPERAND: seq<Node> := [Greedy(Space, 1), Group(Operand, [Lazy(NotSpaceOrComma, 1)])]
  const AFTER_OPERATOR: seq<Node> := [Optional(OPERAND)] + TAIL
  const BODY: seq<Node> := [Greedy(Space, 0), Group(Operator, [Lazy(NotSpaceOrComma, 1)])] + AFTER_OPERATOR

  /** `(?:(?<label>[^,/]+),)?` and the body. */
  const LABEL: seq<Node> := [Group(Label, [Greedy(NotCommaOrSlash, 1)]), One(Exactly(','))]
  const LABELLED: seq<Node> := [Optional(LABEL)] + BODY

  const STATEMENT: seq<Node> := [Greedy(Space, 0)] + LABELLED

  /** `^\s*org\s+([0-9a-f]{3})\s*(?:/.*)?$`, case-insensitively. */
  const ORIGIN: seq<Node> :=
    [Greedy(Space, 0), One(Letter('o')), One(Letter('r')), One(Letter('g')), Greedy(Space, 1),
     Group(Digits, [One(Hex), One(Hex), One(Hex)])] + TAIL

  // ----- greedy runs -----

  /** Where a run of `chars` from `i` ends. */
  function RunEnd(ws: char -> bool, line: string, chars: CharSet, i: nat): (e: nat)
    requires i <= |line|
    ensures i <= e <= |line|
    ensures e < |line| ==> !Accepts(chars, ws, line[e])
    decreases |line| - i
  {
    if i < |line| && Accepts(chars, ws, line[i]) then RunEnd(ws, line, chars, i + 1) else i
  }

  /** The run itself is all of `chars`. */
  lemma {:induction false} RunAccepts(ws: char -> bool, line: string, chars: CharSet, i: nat)
    requires i <= |line|
    ensures forall j :: i <= j < RunEnd(ws, line, chars, i) ==> Accepts(chars, ws, line[j])
    decreases |line| - i
  {
    if i < |line| && Accepts(chars, ws, line[i]) {
      RunAccepts(ws, line, chars, i + 1);
    }
  }

  /** If what follows cannot start inside the run, a greedy run is taken whole. */
  lemma {:induction false} GreedyTakesAll(ws: char -> bool, line: string, chars: CharSet, rest: seq<Node>, i: nat, caps: Captures)
    requires i <= |line|
    requires forall j :: i <= j < RunEnd(ws, line, chars, i) ==> Match(ws, line, rest, j, caps) == None
    ensures Match(ws, line, [Greedy(chars, 0)] + rest, i, caps)
         == Match(ws, line, rest, RunEnd(ws, line, chars, i), caps)
    decreases |line| - i
  {
    var ns := [Greedy(chars, 0)] + rest;
    assert ns[1..] == rest;
    if i < |line| && Accepts(chars, ws, line[i]) {
      GreedyTakesAll(ws, line, chars, rest, i + 1, caps);
    }
  }
}
