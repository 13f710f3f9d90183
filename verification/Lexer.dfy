/**
 Splitting a source line into its parts (crates/lib/mrs-asm/src/lexer.rs). The search is
 written by hand; it is proved to find what the patterns of MARIE.js would find.
 */
module Lexer {
  import opened Words
  import opened Patterns

  /** A half-open range of characters. */
  datatype Span = Span(start: nat, end: nat) {
    function Shift(base: nat): Span {
      Span(start + base, end + base)
    }

    function Join(other: Span): Span {
      Span(if start <= other.start then start else other.start, if end >= other.end then end else other.end)
    }

    /** The end is included, so a caret right after a token resolves to it. */
    predicate Touches(offset: nat) {
      start <= offset <= end
    }
  }

  datatype Parts = Parts(tag: Option<Span>, mnemonic: Span, operand: Option<Span>, comment: Option<Span>)

  datatype LineForm =
    | Blank(comment: Option<Span>)
    | Origin(keyword: Span, digits: Span, comment: Option<Span>)
    | Statement(parts: Parts)
    | Malformed

  // ----- the search, as functions of the line -----

  predicate At(line: string, i: nat, c: char) {
    i < |line| && line[i] == c
  }

  predicate SpaceAt(ws: char -> bool, line: string, i: nat) {
    i < |line| && ws(line[i])
  }

  /** A character an operator or an operand may contain. */
  predicate WordAt(ws: char -> bool, line: string, i: nat) {
    i < |line| && !ws(line[i]) && line[i] != ','
  }

  /** `skip_whitespace`: the first position from `i` on that holds no whitespace. */
  function Skip(ws: char -> bool, line: string, i: nat): (e: nat)
    requires i <= |line|
    ensures i <= e <= |line| && !SpaceAt(ws, line, e)
  {
    RunEnd(ws, line, Space, i)
  }

  /** `tail`: blanks, then the end or a comment; nothing if anything else is left. */
  function Tail(ws: char -> bool, line: string, start: nat): Option<Option<Span>>
    requires start <= |line|
  {
    var i := Skip(ws, line, start);
    if i == |line| then Some(None) else if line[i] == '/' then Some(Some(Span(i, |line|))) else None
  }

  /** The shortest operand from `p`, at least as long as `p..i`, that leaves a consumable tail. */
  function OperandAt(ws: char -> bool, line: string, p: nat, i: nat): Option<(Span, Option<Span>)>
    requires p <= i <= |line|
    decreases |line| - i
  {
    match Tail(ws, line, i)
    case Some(comment) => Some((Span(p, i), comment))
    case None => if WordAt(ws, line, i) then OperandAt(ws, line, p, i + 1) else None
  }

  function OperandFrom(ws: char -> bool, line: string, p: nat): Option<(Span, Option<Span>)>
    requires p <= |line|
  {
    if WordAt(ws, line, p) then OperandAt(ws, line, p, p + 1) else None
  }

  /** `after_mnemonic`: with an operand if there is a way, else without one. */
  function AfterMnemonic(ws: char -> bool, line: string, start: nat): Option<(Option<Span>, Option<Span>)>
    requires start <= |line|
  {
    var operand := if SpaceAt(ws, line, start) then OperandFrom(ws, line, Skip(ws, line, start)) else None;
    if operand.Some? then Some((Some(operand.value.0), operand.value.1))
    else
      match Tail(ws, line, start)
      case Some(comment) => Some((None, comment))
      case None => None
  }

  /** The shortest operator from `p`, at least as long as `p..i`, whose remainder matches. */
  function BodyAt(ws: char -> bool, line: string, p: nat, i: nat, tag: Option<Span>): Option<Parts>
    requires p <= i <= |line|
    decreases |line| - i
  {
    match AfterMnemonic(ws, line, i)
    case Some(rest) => Some(Parts(tag, Span(p, i), rest.0, rest.1))
    case None => if WordAt(ws, line, i) then BodyAt(ws, line, p, i + 1, tag) else None
  }

  function Body(ws: char -> bool, line: string, start: nat, tag: Option<Span>): Option<Parts>
    requires start <= |line|
  {
    var p := Skip(ws, line, start);
    if WordAt(ws, line, p) then BodyAt(ws, line, p, p + 1, tag) else None
  }

  function WithLabel(ws: char -> bool, line: string, start: nat): Option<Parts>
    requires start <= |line|
  {
    var i := RunEnd(ws, line, NotCommaOrSlash, start);
    if At(line, i, ',') && i != start then Body(ws, line, i + 1, Some(Span(start, i))) else None
  }

  /** The leading whitespace is shrunk from `taken` down; without a label it matters only once. */
  function StatementFrom(ws: char -> bool, line: string, leading: nat, taken: nat): Option<Parts>
    requires taken <= leading <= |line|
  {
    var labelled := WithLabel(ws, line, taken);
    if labelled.Some? then labelled
    else
      var plain := if taken == leading then Body(ws, line, leading, None) else None;
      if plain.Some? then plain
      else if taken == 0 then None
      else StatementFrom(ws, line, leading, taken - 1)
  }

  function StatementOf(ws: char -> bool, line: string): Option<Parts> {
    var leading := Skip(ws, line, 0);
    StatementFrom(ws, line, leading, leading)
  }

  function BlankOf(ws: char -> bool, line: string): Option<LineForm> {
    match Tail(ws, line, 0)
    case Some(comment) => Some(Blank(comment))
    case None => None
  }

  predicate OrgAt(line: string, i: nat) {
    i + 3 <= |line| && LowerAscii(line[i]) == 'o' && LowerAscii(line[i + 1]) == 'r' && LowerAscii(line[i + 2]) == 'g'
  }

  predicate HexAt(line: string, i: nat) {
    i + 3 <= |line| && IsHex(line[i]) && IsHex(line[i + 1]) && IsHex(line[i + 2])
  }

  function OriginOf(ws: char -> bool, line: string): Option<LineForm> {
    var start := Skip(ws, line, 0);
    if !OrgAt(line, start) || !SpaceAt(ws, line, start + 3) then None
    else
      var digits := Skip(ws, line, start + 3);
      if !HexAt(line, digits) then None
      else
        match Tail(ws, line, digits + 3)
        case Some(comment) => Some(Origin(Span(start, start + 3), Span(digits, digits + 3), comment))
        case None => None
  }

  /** `split_line` without its base offset: the three forms in order. */
  function FormOf(ws: char -> bool, line: string): LineForm {
    var blank := BlankOf(ws, line);
    if blank.Some? then blank.value
    else
      var origin := OriginOf(ws, line);
      if origin.Some? then origin.value
      else
        match StatementOf(ws, line)
        case Some(parts) => Statement(parts)
        case None => Malformed
  }

  // ----- the search finds the first match -----

  function Captured(caps: Captures, name: Name, span: Option<Span>): Captures {
    if span.Some? then caps[name := (span.value.start, span.value.end)] else caps
  }

  function TailCaptures(caps: Captures, tail: Option<Option<Span>>): Option<Captures> {
    if tail.Some? then Some(Captured(caps, Comment, tail.value)) else None
  }

  function PartsCaptures(p: Parts): Captures {
    Captured(Captured(Captured(Captured(map[], Label, p.tag), Operator, Some(p.mnemonic)), Operand, p.operand),
             Comment, p.comment)
  }

  lemma TailMatches(ws: char -> bool, line: string, i: nat, caps: Captures)
    requires IsWhitespace(ws) && i <= |line|
    ensures Match(ws, line, TAIL, i, caps) == TailCaptures(caps, Tail(ws, line, i))
  {
    var group := Group(Comment, [One(Exactly('/')), Greedy(Any, 0)]);
    var rest := [Optional([group]), EndOfInput];
    assert TAIL == [Greedy(Space, 0)] + rest && rest[1..] == [EndOfInput];
    forall j | i <= j <= |line|
      ensures Match(ws, line, rest, j, caps) ==
        if j == |line| then Some(caps)
        else if line[j] == '/' then Some(caps[Comment := (j, |line|)])
        else None
    {
      CommentMatches(ws, line, j, caps);
      assert [group] + [EndOfInput] == [group, EndOfInput];
      assert Match(ws, line, [EndOfInput], j, caps) == if j == |line| then Some(caps) else None;
    }
    RunAccepts(ws, line, Space, i);
    GreedyTakesAll(ws, line, Space, rest, i, caps);
  }

  lemma CommentMatches(ws: char -> bool, line: string, j: nat, caps: Captures)
    requires j <= |line|
    ensures Match(ws, line, [Group(Comment, [One(Exactly('/')), Greedy(Any, 0)]), EndOfInput], j, caps)
         == if At(line, j, '/') then Some(caps[Comment := (j, |line|)]) else None
  {
    var inside := [One(Exactly('/')), Greedy(Any, 0)];
    var ns := [Group(Comment, inside), EndOfInput];
    var closing := [Close(Comment, j), EndOfInput];
    assert ns[1..] == [EndOfInput] && [Close(Comment, j)] + [EndOfInput] == closing;
    assert (inside + closing)[1..] == [Greedy(Any, 0)] + closing;
    assert closing[1..] == [EndOfInput];
    if At(line, j, '/') {
      assert RunEnd(ws, line, Any, j + 1) == |line|;
      forall k | j + 1 <= k <= |line|
        ensures Match(ws, line, closing, k, caps) == if k == |line| then Some(caps[Comment := (j, |line|)]) else None
      {
        var caps' := caps[Comment := (j, k)];
        assert Match(ws, line, [EndOfInput], k, caps') == if k == |line| then Some(caps') else None;
      }
      GreedyTakesAll(ws, line, Any, closing, j + 1, caps);
    }
  }

  lemma {:induction false} LazyOperand(ws: char -> bool, line: string, p: nat, i: nat, caps: Captures)
    requires IsWhitespace(ws) && p <= i <= |line|
    ensures Match(ws, line, [Lazy(NotSpaceOrComma, 0)] + ([Close(Operand, p)] + TAIL), i, caps)
         == match OperandAt(ws, line, p, i)
            case Some(o) => Some(Captured(Captured(caps, Operand, Some(o.0)), Comment, o.1))
            case None => None
    decreases |line| - i
  {
    var closing := [Close(Operand, p)] + TAIL;
    var ns := [Lazy(NotSpaceOrComma, 0)] + closing;
    assert ns[1..] == closing && closing[1..] == TAIL;
    TailMatches(ws, line, i, caps[Operand := (p, i)]);
    if Tail(ws, line, i).None? && WordAt(ws, line, i) {
      LazyOperand(ws, line, p, i + 1, caps);
    }
  }

  /** One character, then more of the same lazily. */
  lemma LazyPlus(ws: char -> bool, line: string, rest: seq<Node>, i: nat, caps: Captures)
    requires i <= |line|
    ensures Match(ws, line, [Lazy(NotSpaceOrComma, 1)] + rest, i, caps)
         == if WordAt(ws, line, i) then Match(ws, line, [Lazy(NotSpaceOrComma, 0)] + rest, i + 1, caps) else None
  {
    var ns := [Lazy(NotSpaceOrComma, 1)] + rest;
    assert ns[1..] == rest;
    var counted := Counted(One(NotSpaceOrComma), Lazy(NotSpaceOrComma, 0), rest);
    assert counted[1..] == [Lazy(NotSpaceOrComma, 0)] + rest;
  }

  lemma GroupedWord(ws: char -> bool, line: string, name: Name, rest: seq<Node>, i: nat, caps: Captures)
    requires i <= |line|
    ensures Match(ws, line, [Group(name, [Lazy(NotSpaceOrComma, 1)])] + rest, i, caps)
         == if WordAt(ws, line, i)
            then Match(ws, line, [Lazy(NotSpaceOrComma, 0)] + ([Close(name, i)] + rest), i + 1, caps)
            else None
  {
    var ns := [Group(name, [Lazy(NotSpaceOrComma, 1)])] + rest;
    assert ns[1..] == rest;
    LazyPlus(ws, line, [Close(name, i)] + rest, i, caps);
  }

  /** `\s+`, when what follows cannot start at whitespace: all of it. */
  lemma SpacesMatch(ws: char -> bool, line: string, rest: seq<Node>, i: nat, caps: Captures)
    requires i <= |line|
    requires forall j: nat :: i < j < |line| && ws(line[j]) ==> Match(ws, line, rest, j, caps) == None
    ensures Match(ws, line, [Greedy(Space, 1)] + rest, i, caps)
         == if SpaceAt(ws, line, i) then Match(ws, line, rest, Skip(ws, line, i), caps) else None
  {
    var ns := [Greedy(Space, 1)] + rest;
    assert ns[1..] == rest;
    var counted := Counted(One(Space), Greedy(Space, 0), rest);
    assert counted[1..] == [Greedy(Space, 0)] + rest;
    if SpaceAt(ws, line, i) {
      RunAccepts(ws, line, Space, i + 1);
      GreedyTakesAll(ws, line, Space, rest, i + 1, caps);
    }
  }

  /** The group of the operand where no more whitespace follows. */
  lemma OperandGroupMatches(ws: char -> bool, line: string, p: nat, caps: Captures)
    requires IsWhitespace(ws) && p <= |line|
    ensures Match(ws, line, [Group(Operand, [Lazy(NotSpaceOrComma, 1)])] + TAIL, p, caps)
         == match OperandFrom(ws, line, p)
            case Some(o) => Some(Captured(Captured(caps, Operand, Some(o.0)), Comment, o.1))
            case None => None
  {
    GroupedWord(ws, line, Operand, TAIL, p, caps);
    if WordAt(ws, line, p) {
      LazyOperand(ws, line, p, p + 1, caps);
    }
  }

  lemma OperandMatches(ws: char -> bool, line: string, start: nat, caps: Captures)
    requires IsWhitespace(ws) && start <= |line|
    ensures Match(ws, line, OPERAND + TAIL, start, caps)
         == if !SpaceAt(ws, line, start) then None
            else match OperandFrom(ws, line, Skip(ws, line, start))
                 case Some(o) => Some(Captured(Captured(caps, Operand, Some(o.0)), Comment, o.1))
                 case None => None
  {
    var rest := [Group(Operand, [Lazy(NotSpaceOrComma, 1)])] + TAIL;
    assert OPERAND + TAIL == [Greedy(Space, 1)] + rest;
    forall j: nat | start < j < |line| && ws(line[j])
      ensures Match(ws, line, rest, j, caps) == None
    {
      GroupedWord(ws, line, Operand, TAIL, j, caps);
    }
    SpacesMatch(ws, line, rest, start, caps);
    OperandGroupMatches(ws, line, Skip(ws, line, start), caps);
  }

  lemma AfterMatches(ws: char -> bool, line: string, start: nat, caps: Captures)
    requires IsWhitespace(ws) && start <= |line|
    ensures Match(ws, line, AFTER_OPERATOR, start, caps)
         == match AfterMnemonic(ws, line, start)
            case Some(r) => Some(Captured(Captured(caps, Operand, r.0), Comment, r.1))
            case None => None
  {
    assert AFTER_OPERATOR[1..] == TAIL;
    OperandMatches(ws, line, start, caps);
    TailMatches(ws, line, start, caps);
  }

  function BodyCaptures(caps: Captures, body: Option<Parts>): Option<Captures> {
    if body.None? then None
    else Some(Captured(Captured(Captured(caps, Operator, Some(body.value.mnemonic)), Operand, body.value.operand),
                       Comment, body.value.comment))
  }

  lemma {:induction false} LazyOperator(ws: char -> bool, line: string, p: nat, i: nat, tag: Option<Span>, caps: Captures)
    requires IsWhitespace(ws) && p <= i <= |line|
    ensures Match(ws, line, [Lazy(NotSpaceOrComma, 0)] + ([Close(Operator, p)] + AFTER_OPERATOR), i, caps)
         == BodyCaptures(caps, BodyAt(ws, line, p, i, tag))
    decreases |line| - i
  {
    var closing := [Close(Operator, p)] + AFTER_OPERATOR;
    var ns := [Lazy(NotSpaceOrComma, 0)] + closing;
    assert ns[1..] == closing && closing[1..] == AFTER_OPERATOR;
    AfterMatches(ws, line, i, caps[Operator := (p, i)]);
    if AfterMnemonic(ws, line, i).None? && WordAt(ws, line, i) {
      LazyOperator(ws, line, p, i + 1, tag, caps);
    }
  }

  lemma BodyMatches(ws: char -> bool, line: string, start: nat, tag: Option<Span>, caps: Captures)
    requires IsWhitespace(ws) && start <= |line|
    ensures Match(ws, line, BODY, start, caps) == BodyCaptures(caps, Body(ws, line, start, tag))
  {
    var rest := [Group(Operator, [Lazy(NotSpaceOrComma, 1)])] + AFTER_OPERATOR;
    assert BODY == [Greedy(Space, 0)] + rest;
    forall j | start <= j <= |line|
      ensures SpaceAt(ws, line, j) ==> Match(ws, line, rest, j, caps) == None
    {
      GroupedWord(ws, line, Operator, AFTER_OPERATOR, j, caps);
    }
    RunAccepts(ws, line, Space, start);
    GreedyTakesAll(ws, line, Space, rest, start, caps);
    var p := Skip(ws, line, start);
    GroupedWord(ws, line, Operator, AFTER_OPERATOR, p, caps);
    if WordAt(ws, line, p) {
      LazyOperator(ws, line, p, p + 1, tag, caps);
    }
  }

  /** A label group: at least one character, then all the rest of them, then its end. */
  lemma LabelOpens(ws: char -> bool, line: string, start: nat)
    requires start <= |line|
    ensures Match(ws, line, LABEL + BODY, start, map[]) ==
      if start < |line| && Accepts(NotCommaOrSlash, ws, line[start])
      then Match(ws, line, [Greedy(NotCommaOrSlash, 0)] + LabelCloses(start), start + 1, map[])
      else None
  {
    var none: Captures := map[];
    var ns, closing := LABEL + BODY, LabelCloses(start);
    assert ns[1..] == [One(Exactly(','))] + BODY;
    var inside := [Greedy(NotCommaOrSlash, 1)] + closing;
    assert inside[1..] == closing;
    var counted := Counted(One(NotCommaOrSlash), Greedy(NotCommaOrSlash, 0), closing);
    assert counted[1..] == [Greedy(NotCommaOrSlash, 0)] + closing;
    assert Match(ws, line, ns, start, none) == Match(ws, line, inside, start, none);
    assert Match(ws, line, inside, start, none) == Match(ws, line, counted, start, none);
  }

  function LabelCloses(start: nat): seq<Node> {
    [Close(Label, start)] + ([One(Exactly(','))] + BODY)
  }

  /** The group closes at a comma, and the body follows. */
  lemma LabelClosesAt(ws: char -> bool, line: string, start: nat, j: nat)
    requires start <= j <= |line|
    ensures Match(ws, line, LabelCloses(start), j, map[]) ==
      if At(line, j, ',') then Match(ws, line, BODY, j + 1, map[Label := (start, j)]) else None
  {
    var none: Captures := map[];
    var comma := [One(Exactly(','))] + BODY;
    assert comma[1..] == BODY && LabelCloses(start)[1..] == comma;
    assert Match(ws, line, LabelCloses(start), j, none) == Match(ws, line, comma, j, none[Label := (start, j)]);
    assert none[Label := (start, j)] == map[Label := (start, j)];
  }

  lemma LabelMatches(ws: char -> bool, line: string, start: nat)
    requires IsWhitespace(ws) && start <= |line|
    ensures Match(ws, line, LABEL + BODY, start, map[]) ==
      match WithLabel(ws, line, start)
      case Some(p) => Some(PartsCaptures(p))
      case None => None
  {
    var i := RunEnd(ws, line, NotCommaOrSlash, start);
    LabelOpens(ws, line, start);
    if start < i {
      forall j | start + 1 <= j <= i
        ensures Match(ws, line, LabelCloses(start), j, map[]) ==
          if At(line, j, ',') then Match(ws, line, BODY, j + 1, map[Label := (start, j)]) else None
      {
        LabelClosesAt(ws, line, start, j);
      }
      RunAccepts(ws, line, NotCommaOrSlash, start + 1);
      GreedyTakesAll(ws, line, NotCommaOrSlash, LabelCloses(start), start + 1, map[]);
      if At(line, i, ',') {
        BodyMatches(ws, line, i + 1, Some(Span(start, i)), map[Label := (start, i)]);
        BodyKeepsLabel(ws, line, i + 1, Some(Span(start, i)));
      }
    }
  }

  lemma {:induction false} BodyAtKeepsLabel(ws: char -> bool, line: string, p: nat, i: nat, tag: Option<Span>)
    requires p <= i <= |line|
    ensures BodyAt(ws, line, p, i, tag).Some? ==> BodyAt(ws, line, p, i, tag).value.tag == tag
    decreases |line| - i
  {
    if AfterMnemonic(ws, line, i).None? && WordAt(ws, line, i) {
      BodyAtKeepsLabel(ws, line, p, i + 1, tag);
    }
  }

  lemma BodyKeepsLabel(ws: char -> bool, line: string, start: nat, tag: Option<Span>)
    requires start <= |line|
    ensures Body(ws, line, start, tag).Some? ==> Body(ws, line, start, tag).value.tag == tag
  {
    var p := Skip(ws, line, start);
    if WordAt(ws, line, p) {
      BodyAtKeepsLabel(ws, line, p, p + 1, tag);
    }
  }

  /** With or without a label, from one particular amount of leading whitespace. */
  function LabelledAt(ws: char -> bool, line: string, t: nat): Option<Parts>
    requires t <= |line|
  {
    var labelled := WithLabel(ws, line, t);
    if labelled.Some? then labelled else Body(ws, line, t, None)
  }

  lemma LabelledMatches(ws: char -> bool, line: string, t: nat)
    requires IsWhitespace(ws) && t <= |line|
    ensures Match(ws, line, LABELLED, t, map[]) ==
      match LabelledAt(ws, line, t)
      case Some(p) => Some(PartsCaptures(p))
      case None => None
  {
    assert LABELLED[1..] == BODY;
    LabelMatches(ws, line, t);
    BodyMatches(ws, line, t, None, map[]);
    BodyKeepsLabel(ws, line, t, None);
  }

  /** All that the pattern tries from `t` on, in its order: more leading whitespace first. */
  function Tries(ws: char -> bool, line: string, t: nat): Option<Parts>
    requires t <= |line|
    decreases |line| - t
  {
    var more := if SpaceAt(ws, line, t) then Tries(ws, line, t + 1) else None;
    if more.Some? then more else LabelledAt(ws, line, t)
  }

  function StatementCaptures(parts: Option<Parts>): Option<Captures> {
    if parts.Some? then Some(PartsCaptures(parts.value)) else None
  }

  lemma {:induction false} TriesMatch(ws: char -> bool, line: string, t: nat)
    requires IsWhitespace(ws) && t <= |line|
    ensures Match(ws, line, STATEMENT, t, map[]) == StatementCaptures(Tries(ws, line, t))
    decreases |line| - t
  {
    assert STATEMENT[1..] == LABELLED;
    LabelledMatches(ws, line, t);
    if SpaceAt(ws, line, t) {
      TriesMatch(ws, line, t + 1);
    }
  }

  lemma {:induction false} RunFromInside(ws: char -> bool, line: string, i: nat, t: nat)
    requires i <= t <= |line| && t <= RunEnd(ws, line, Space, i)
    ensures RunEnd(ws, line, Space, t) == RunEnd(ws, line, Space, i)
    decreases t - i
  {
    if i < t {
      RunFromInside(ws, line, i + 1, t);
    }
  }

  function OrElse(first: Option<Parts>, second: Option<Parts>): Option<Parts> {
    if first.Some? then first else second
  }

  /** From anywhere in the leading whitespace the body is the same one. */
  lemma BodyAfterSpace(ws: char -> bool, line: string, t: nat)
    requires t <= Skip(ws, line, 0)
    ensures Body(ws, line, t, None) == Body(ws, line, Skip(ws, line, 0), None)
  {
    RunFromInside(ws, line, 0, t);
    RunFromInside(ws, line, 0, Skip(ws, line, 0));
  }

  lemma InLeadingSpace(ws: char -> bool, line: string, i: nat, t: nat)
    requires i <= |line| && i <= t < RunEnd(ws, line, Space, i)
    ensures t < |line| && SpaceAt(ws, line, t)
  {
    RunFromInside(ws, line, i, t);
  }

  /** One try: more whitespace first, then a label, then a body. */
  lemma TriesStep(ws: char -> bool, line: string, t: nat)
    requires t <= Skip(ws, line, 0)
    ensures var leading := Skip(ws, line, 0);
      Tries(ws, line, t) ==
      OrElse(if t < leading then Tries(ws, line, t + 1) else None,
             OrElse(WithLabel(ws, line, t), Body(ws, line, leading, None)))
  {
    BodyAfterSpace(ws, line, t);
    if t < Skip(ws, line, 0) {
      InLeadingSpace(ws, line, 0, t);
    }
  }

  /** One step of the search: a label, then once a body, then less whitespace. */
  lemma SearchStep(ws: char -> bool, line: string, leading: nat, taken: nat)
    requires taken <= leading <= |line|
    ensures StatementFrom(ws, line, leading, taken) ==
      OrElse(WithLabel(ws, line, taken),
             OrElse(if taken == leading then Body(ws, line, leading, None) else None,
                    if taken == 0 then None else StatementFrom(ws, line, leading, taken - 1)))
  {
  }

  /** What the search still has to try once the pattern has tried everything from `t` up. */
  function Remaining(ws: char -> bool, line: string, leading: nat, t: nat): Option<Parts>
    requires t <= leading <= |line|
  {
    if t == 0 then None else StatementFrom(ws, line, leading, t - 1)
  }

  /** The search, resumed where the pattern has given back everything above `t`. */
  lemma {:induction false} TriesSearch(ws: char -> bool, line: string, t: nat)
    requires t <= Skip(ws, line, 0)
    ensures StatementOf(ws, line) == OrElse(Tries(ws, line, t), Remaining(ws, line, Skip(ws, line, 0), t))
    ensures Tries(ws, line, t).None? ==> Body(ws, line, Skip(ws, line, 0), None).None?
    decreases Skip(ws, line, 0) - t
  {
    var leading := Skip(ws, line, 0);
    TriesStep(ws, line, t);
    SearchStep(ws, line, leading, t);
    if t < leading {
      TriesSearch(ws, line, t + 1);
    }
  }

  /**
   The hand-written search is the pattern: on every line, for every whitespace class, it
   finds exactly the first match in backtracking order, with the same label, operator,
   operand and comment, and finds nothing exactly when there is no match.
   */
  lemma StatementSearchIsThePattern(ws: char -> bool, line: string)
    requires IsWhitespace(ws)
    ensures Match(ws, line, STATEMENT, 0, map[]) == StatementCaptures(StatementOf(ws, line))
  {
    TriesMatch(ws, line, 0);
    TriesSearch(ws, line, 0);
  }

  /** The other two forms are their patterns too; `org` and the digits must not be whitespace. */
  ghost predicate LettersAreNotSpace(ws: char -> bool) {
    forall c: char :: IsHex(c) || LowerAscii(c) in {'o', 'r', 'g'} ==> !ws(c)
  }

  lemma BlankIsThePattern(ws: char -> bool, line: string)
    requires IsWhitespace(ws)
    ensures Match(ws, line, TAIL, 0, map[]) ==
      match BlankOf(ws, line)
      case Some(form) => Some(Captured(map[], Comment, form.comment))
      case None => None
  {
    TailMatches(ws, line, 0, map[]);
  }

  lemma OneMatches(ws: char -> bool, line: string, chars: CharSet, rest: seq<Node>, i: nat, caps: Captures)
    requires i <= |line|
    ensures Match(ws, line, [One(chars)] + rest, i, caps)
         == if i < |line| && Accepts(chars, ws, line[i]) then Match(ws, line, rest, i + 1, caps) else None
  {
    assert ([One(chars)] + rest)[1..] == rest;
  }

  /** Three single characters in a row. */
  lemma ThreeMatch(ws: char -> bool, line: string, a: CharSet, b: CharSet, c: CharSet, rest: seq<Node>, i: nat, caps: Captures)
    requires i <= |line|
    ensures Match(ws, line, [One(a), One(b), One(c)] + rest, i, caps)
         == if i + 3 <= |line| && Accepts(a, ws, line[i]) && Accepts(b, ws, line[i + 1]) && Accepts(c, ws, line[i + 2])
            then Match(ws, line, rest, i + 3, caps) else None
  {
    var n1, n2 := [One(c)] + rest, [One(b)] + ([One(c)] + rest);
    assert [One(a), One(b), One(c)] + rest == [One(a)] + n2;
    OneMatches(ws, line, a, n2, i, caps);
    if i + 1 <= |line| {
      OneMatches(ws, line, b, n1, i + 1, caps);
    }
    if i + 2 <= |line| {
      OneMatches(ws, line, c, rest, i + 2, caps);
    }
  }

  const DIGITS: seq<Node> := [Group(Digits, [One(Hex), One(Hex), One(Hex)])] + TAIL
  const SPACED_DIGITS: seq<Node> := [Greedy(Space, 1)] + DIGITS
  const ORG: seq<Node> := [One(Letter('o')), One(Letter('r')), One(Letter('g'))] + SPACED_DIGITS

  lemma DigitsMatch(ws: char -> bool, line: string, i: nat, none: Captures)
    requires IsWhitespace(ws) && i <= |line| && none == map[]
    ensures Match(ws, line, DIGITS, i, none) ==
      if HexAt(line, i)
      then TailCaptures(Captured(none, Digits, Some(Span(i, i + 3))), Tail(ws, line, i + 3))
      else None
  {
    var closing := [Close(Digits, i)] + TAIL;
    assert DIGITS[1..] == TAIL && closing[1..] == TAIL;
    ThreeMatch(ws, line, Hex, Hex, Hex, closing, i, none);
    if HexAt(line, i) {
      TailMatches(ws, line, i + 3, none[Digits := (i, i + 3)]);
    }
  }

  /** `\s+` and the digits. */
  lemma SpacedDigitsMatch(ws: char -> bool, line: string, i: nat, none: Captures)
    requires IsWhitespace(ws) && LettersAreNotSpace(ws) && i <= |line| && none == map[]
    ensures Match(ws, line, SPACED_DIGITS, i, none) ==
      if SpaceAt(ws, line, i) then Match(ws, line, DIGITS, Skip(ws, line, i), none) else None
  {
    forall j: nat | i < j < |line| && ws(line[j])
      ensures Match(ws, line, DIGITS, j, none) == None
    {
      DigitsMatch(ws, line, j, none);
    }
    SpacesMatch(ws, line, DIGITS, i, none);
  }

  lemma OrgMatches(ws: char -> bool, line: string, j: nat, none: Captures)
    requires j <= |line|
    ensures Match(ws, line, ORG, j, none) == if OrgAt(line, j) then Match(ws, line, SPACED_DIGITS, j + 3, none) else None
  {
    ThreeMatch(ws, line, Letter('o'), Letter('r'), Letter('g'), SPACED_DIGITS, j, none);
  }

  /** Leading whitespace, then the keyword. */
  lemma OriginOpens(ws: char -> bool, line: string, none: Captures)
    requires LettersAreNotSpace(ws)
    ensures Match(ws, line, ORIGIN, 0, none) == Match(ws, line, ORG, Skip(ws, line, 0), none)
  {
    assert ORIGIN == [Greedy(Space, 0)] + ORG;
    RunAccepts(ws, line, Space, 0);
    forall j | 0 <= j < Skip(ws, line, 0)
      ensures Match(ws, line, ORG, j, none) == None
    {
      OrgMatches(ws, line, j, none);
    }
    GreedyTakesAll(ws, line, Space, ORG, 0, none);
  }

  lemma OriginIsThePattern(ws: char -> bool, line: string)
    requires IsWhitespace(ws) && LettersAreNotSpace(ws)
    ensures Match(ws, line, ORIGIN, 0, map[]) ==
      match OriginOf(ws, line)
      case Some(form) => Some(Captured(Captured(map[], Digits, Some(form.digits)), Comment, form.comment))
      case None => None
  {
    var none: Captures := map[];
    var start := Skip(ws, line, 0);
    OriginOpens(ws, line, none);
    OrgMatches(ws, line, start, none);
    if OrgAt(line, start) {
      SpacedDigitsMatch(ws, line, start + 3, none);
      DigitsMatch(ws, line, Skip(ws, line, start + 3), none);
    }
  }

  // ----- the same search, with the loops the source writes -----

  method SkipWhitespace(ws: char -> bool, line: string, start: nat) returns (i: nat)
    requires start <= |line|
    ensures i == Skip(ws, line, start)
  {
    i := start;
    while SpaceAt(ws, line, i)
      invariant start <= i <= |line| && Skip(ws, line, i) == Skip(ws, line, start)
      decreases |line| - i
    {
      i := i + 1;
    }
  }

  method SearchAfterMnemonic(ws: char -> bool, line: string, start: nat)
    returns (r: Option<(Option<Span>, Option<Span>)>)
    requires start <= |line|
    ensures r == AfterMnemonic(ws, line, start)
  {
    if SpaceAt(ws, line, start) {
      var p := SkipWhitespace(ws, line, start);
      var end := p + 1;
      while end <= |line| && WordAt(ws, line, end - 1)
        invariant p + 1 <= end <= |line| + 1
        invariant OperandFrom(ws, line, p) == if WordAt(ws, line, end - 1) then OperandAt(ws, line, p, end) else None
        decreases |line| + 1 - end
      {
        var comment := Tail(ws, line, end);
        if comment.Some? {
          return Some((Some(Span(p, end)), comment.value));
        }
        end := end + 1;
      }
    }
    var comment := Tail(ws, line, start);
    r := if comment.Some? then Some((None, comment.value)) else None;
  }

  method SearchBody(ws: char -> bool, line: string, start: nat, tag: Option<Span>) returns (r: Option<Parts>)
    requires start <= |line|
    ensures r == Body(ws, line, start, tag)
  {
    var p := SkipWhitespace(ws, line, start);
    var end := p + 1;
    while end <= |line|
      invariant p + 1 <= end <= |line| + 1
      invariant Body(ws, line, start, tag) == if WordAt(ws, line, end - 1) then BodyAt(ws, line, p, end, tag) else None
      decreases |line| + 1 - end
    {
      if !WordAt(ws, line, end - 1) {
        return None;
      }
      var rest := SearchAfterMnemonic(ws, line, end);
      if rest.Some? {
        return Some(Parts(tag, Span(p, end), rest.value.0, rest.value.1));
      }
      end := end + 1;
    }
    r := None;
  }

  method SearchWithLabel(ws: char -> bool, line: string, start: nat) returns (r: Option<Parts>)
    requires start <= |line|
    ensures r == WithLabel(ws, line, start)
  {
    var i := start;
    while i < |line| && line[i] != ',' && line[i] != '/'
      invariant start <= i <= |line|
      invariant RunEnd(ws, line, NotCommaOrSlash, i) == RunEnd(ws, line, NotCommaOrSlash, start)
      decreases |line| - i
    {
      i := i + 1;
    }
    if !At(line, i, ',') || i == start {
      return None;
    }
    r := SearchBody(ws, line, i + 1, Some(Span(start, i)));
  }

  method SearchStatement(ws: char -> bool, line: string) returns (r: Option<Parts>)
    ensures r == StatementOf(ws, line)
    ensures IsWhitespace(ws) ==> Match(ws, line, STATEMENT, 0, map[]) == StatementCaptures(r)
  {
    if IsWhitespace(ws) {
      StatementSearchIsThePattern(ws, line);
    }
    var leading := SkipWhitespace(ws, line, 0);
    var taken := leading;
    while true
      invariant taken <= leading && StatementFrom(ws, line, leading, taken) == StatementOf(ws, line)
      decreases taken
    {
      r := SearchWithLabel(ws, line, taken);
      if r.Some? {
        return;
      }
      if taken == leading {
        r := SearchBody(ws, line, leading, None);
        if r.Some? {
          return;
        }
      }
      if taken == 0 {
        return None;
      }
      taken := taken - 1;
    }
  }
}
