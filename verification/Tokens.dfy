/**
 Tokens for highlighting, and their encoding as differences
 (crates/lib/mrs-asm/src/lexer.rs:114-169, crates/lib/mrs-lsp/src/features/tokens.rs:44-102).
 */
module Tokens {
  import opened Words
  import opened Literals
  import opened Lexer
  import opened LineShapes
  import opened Syntax
  import opened Parser
  import opened Positions

  datatype TokenKind = LabelToken | CommaToken | OriginToken | MnemonicToken | OperandToken | CommentToken | UnknownToken

  datatype Token = Token(kind: TokenKind, span: Span)

  function Maybe(kind: TokenKind, span: Option<Span>, base: nat): seq<Token> {
    if span.Some? then [Token(kind, span.value.Shift(base))] else []
  }

  /** A label and its comma, the one character its span stops short of. */
  function LabelTokens(tag: Option<Span>, base: nat): seq<Token> {
    match tag
    case Some(t) => [Token(LabelToken, t.Shift(base)), Token(CommaToken, Span(t.end, t.end + 1).Shift(base))]
    case None => []
  }

  function RestTokens(p: Parts, base: nat): seq<Token> {
    Maybe(OperandToken, p.operand, base) + Maybe(CommentToken, p.comment, base)
  }

  function BodyTokens(p: Parts, base: nat): seq<Token> {
    Maybe(MnemonicToken, Some(p.mnemonic), base) + RestTokens(p, base)
  }

  function StatementTokens(p: Parts, base: nat): seq<Token> {
    LabelTokens(p.tag, base) + BodyTokens(p, base)
  }

  function OriginTokens(keyword: Span, digits: Span, comment: Option<Span>, base: nat): seq<Token> {
    [Token(OriginToken, keyword.Shift(base)), Token(OperandToken, digits.Shift(base))]
    + Maybe(CommentToken, comment, base)
  }

  /** The tokens of one line that starts at `base`, in source order. */
  function LineTokens(ws: char -> bool, line: string, base: nat): seq<Token> {
    match FormOf(ws, line)
    case Blank(comment) => Maybe(CommentToken, comment, base)
    case Origin(keyword, digits, comment) => OriginTokens(keyword, digits, comment, base)
    case Statement(p) => StatementTokens(p, base)
    case Malformed =>
      if Trimmed(ws, line) != [] then [Token(UnknownToken, TrimmedSpan(ws, line, base))] else []
  }

  /** Every line is tokenized, those after `END` too. */
  function TokensOf(ws: char -> bool, lines: seq<string>, base: nat): seq<Token> {
    if lines == [] then [] else LineTokens(ws, lines[0], base) + TokensOf(ws, lines[1..], base + |lines[0]| + 1)
  }

  /** The tokens of the first `k` lines have been pushed, and line `k` starts at `base`. */
  ghost predicate PushedUpTo(ws: char -> bool, tokens: seq<Token>, lines: seq<string>, k: nat, base: nat)
    requires k <= |lines|
  {
    tokens + TokensOf(ws, lines[k..], base) == TokensOf(ws, lines, 0)
  }

  lemma NonePushed(ws: char -> bool, tokens: seq<Token>, lines: seq<string>)
    requires tokens == []
    ensures PushedUpTo(ws, tokens, lines, 0, 0)
  {
    assert lines[0..] == lines && tokens + TokensOf(ws, lines, 0) == TokensOf(ws, lines, 0);
  }

  lemma TokensFrom(ws: char -> bool, lines: seq<string>, k: nat, base: nat)
    requires k < |lines|
    ensures TokensOf(ws, lines[k..], base)
         == LineTokens(ws, lines[k], base) + TokensOf(ws, lines[k + 1..], base + |lines[k]| + 1)
  {
    assert lines[k..][0] == lines[k] && lines[k..][1..] == lines[k + 1..];
  }

  lemma PushFirst<T>(pushed: seq<T>, first: seq<T>, later: seq<T>, rest: seq<T>, whole: seq<T>)
    requires pushed + rest == whole && rest == first + later
    ensures pushed + first + later == whole
  {
    Regroup(pushed, first, later);
  }

  lemma LinePushed(ws: char -> bool, tokens: seq<Token>, lines: seq<string>, k: nat, base: nat)
    requires k < |lines| && PushedUpTo(ws, tokens, lines, k, base)
    ensures PushedUpTo(ws, tokens + LineTokens(ws, lines[k], base), lines, k + 1, base + |lines[k]| + 1)
  {
    TokensFrom(ws, lines, k, base);
    PushFirst(tokens, LineTokens(ws, lines[k], base), TokensOf(ws, lines[k + 1..], base + |lines[k]| + 1),
              TokensOf(ws, lines[k..], base), TokensOf(ws, lines, 0));
  }

  lemma AllPushed(ws: char -> bool, tokens: seq<Token>, lines: seq<string>, base: nat)
    requires PushedUpTo(ws, tokens, lines, |lines|, base)
    ensures tokens == TokensOf(ws, lines, 0)
  {
    assert tokens + [] == tokens;
  }

  // ----- order -----

  /** Nonempty, in order, disjoint, and between `from` and `upto`. */
  ghost predicate Ordered(tokens: seq<Token>, from: nat, upto: nat) {
    && (forall i :: 0 <= i < |tokens| ==> from <= tokens[i].span.start < tokens[i].span.end <= upto)
    && (forall i, j :: 0 <= i < j < |tokens| ==> tokens[i].span.end <= tokens[j].span.start)
  }

  lemma OrderedAppend(a: seq<Token>, b: seq<Token>, from: nat, middle: nat, upto: nat)
    requires Ordered(a, from, middle) && Ordered(b, middle, upto) && from <= middle <= upto
    ensures Ordered(a + b, from, upto)
  {
  }

  lemma MaybeOrdered(kind: TokenKind, span: Option<Span>, base: nat, from: nat, upto: nat)
    requires span.Some? ==> from <= span.value.start < span.value.end <= upto
    ensures Ordered(Maybe(kind, span, base), base + from, base + upto)
  {
  }

  /** The parts in numbers: where each begins and ends on a line of `n` characters. */
  ghost predicate InParts(p: Parts, n: nat) {
    var last := WordsEnd(p.mnemonic, p.operand);
    && p.mnemonic.start < p.mnemonic.end <= last <= n
    && (p.operand.Some? ==> p.mnemonic.end < p.operand.value.start < p.operand.value.end)
    && (p.comment.Some? ==> last <= p.comment.value.start < p.comment.value.end == n)
    && (p.tag.Some? ==> p.tag.value.start < p.tag.value.end < p.mnemonic.start)
  }

  lemma LabelTokensOrdered(tag: Option<Span>, base: nat, upto: nat)
    requires tag.Some? ==> tag.value.start < tag.value.end < upto
    ensures Ordered(LabelTokens(tag, base), base, base + upto)
  {
  }

  lemma RestTokensOrdered(p: Parts, n: nat, base: nat)
    requires InParts(p, n)
    ensures Ordered(RestTokens(p, base), base + p.mnemonic.end, base + n)
  {
    var last := WordsEnd(p.mnemonic, p.operand);
    MaybeOrdered(OperandToken, p.operand, base, p.mnemonic.end, last);
    MaybeOrdered(CommentToken, p.comment, base, last, n);
    OrderedAppend(Maybe(OperandToken, p.operand, base), Maybe(CommentToken, p.comment, base),
                  base + p.mnemonic.end, base + last, base + n);
  }

  lemma BodyTokensOrdered(p: Parts, n: nat, base: nat)
    requires InParts(p, n)
    ensures Ordered(BodyTokens(p, base), base + p.mnemonic.start, base + n)
  {
    RestTokensOrdered(p, n, base);
    MaybeOrdered(MnemonicToken, Some(p.mnemonic), base, p.mnemonic.start, p.mnemonic.end);
    OrderedAppend(Maybe(MnemonicToken, Some(p.mnemonic), base), RestTokens(p, base),
                  base + p.mnemonic.start, base + p.mnemonic.end, base + n);
  }

  lemma StatementTokensOrdered(p: Parts, n: nat, base: nat)
    requires InParts(p, n)
    ensures Ordered(StatementTokens(p, base), base, base + n)
  {
    BodyTokensOrdered(p, n, base);
    LabelTokensOrdered(p.tag, base, p.mnemonic.start);
    OrderedAppend(LabelTokens(p.tag, base), BodyTokens(p, base), base, base + p.mnemonic.start, base + n);
  }

  lemma TailComment(ws: char -> bool, line: string, i: nat)
    requires i <= |line|
    ensures var tail := Tail(ws, line, i);
      tail.Some? && tail.value.Some? ==> i <= tail.value.value.start < tail.value.value.end == |line|
  {
  }

  lemma BlankTokensOrdered(ws: char -> bool, line: string, base: nat)
    requires FormOf(ws, line).Blank?
    ensures Ordered(LineTokens(ws, line, base), base, base + |line|)
  {
    TailComment(ws, line, 0);
    MaybeOrdered(CommentToken, FormOf(ws, line).comment, base, 0, |line|);
  }

  /** The parts of an `ORG` line in numbers. */
  lemma OriginShape(ws: char -> bool, line: string)
    requires FormOf(ws, line).Origin?
    ensures var form := FormOf(ws, line);
      && form.keyword.start < form.keyword.end <= form.digits.start < form.digits.end <= |line|
      && (form.comment.Some? ==> form.digits.end <= form.comment.value.start < form.comment.value.end == |line|)
  {
    var form := FormOf(ws, line);
    assert OriginOf(ws, line) == Some(form);
    TailComment(ws, line, form.digits.end);
  }

  lemma KeywordAndDigitsOrdered(keyword: Span, digits: Span, base: nat)
    requires keyword.start < keyword.end <= digits.start < digits.end
    ensures Ordered([Token(OriginToken, keyword.Shift(base)), Token(OperandToken, digits.Shift(base))],
                    base, base + digits.end)
  {
  }

  lemma OriginTokensOrdered(ws: char -> bool, line: string, base: nat)
    requires FormOf(ws, line).Origin?
    ensures Ordered(LineTokens(ws, line, base), base, base + |line|)
  {
    var form := FormOf(ws, line);
    OriginShape(ws, line);
    OriginPartsOrdered(form.keyword, form.digits, form.comment, base, |line|);
  }

  lemma OriginPartsOrdered(keyword: Span, digits: Span, comment: Option<Span>, base: nat, n: nat)
    requires keyword.start < keyword.end <= digits.start < digits.end <= n
    requires comment.Some? ==> digits.end <= comment.value.start < comment.value.end <= n
    ensures Ordered(OriginTokens(keyword, digits, comment, base), base, base + n)
  {
    MaybeOrdered(CommentToken, comment, base, digits.end, n);
    KeywordAndDigitsOrdered(keyword, digits, base);
    var words := [Token(OriginToken, keyword.Shift(base)), Token(OperandToken, digits.Shift(base))];
    OrderedAppend(words, Maybe(CommentToken, comment, base), base, base + digits.end, base + n);
  }

  lemma LineTokensOrdered(ws: char -> bool, line: string, base: nat)
    ensures Ordered(LineTokens(ws, line, base), base, base + |line|)
  {
    match FormOf(ws, line) {
      case Blank(_) => BlankTokensOrdered(ws, line, base);
      case Origin(_, _, _) => OriginTokensOrdered(ws, line, base);
      case Malformed =>
      case Statement(p) =>
        StatementShape(ws, line);
        assert Shaped(ws, line, p);
        StatementTokensOrdered(p, |line|, base);
    }
  }

  /** The token lies on line `k`, which starts `base` characters into the lines. */
  ghost predicate InLine(lines: seq<string>, k: nat, base: nat, span: Span) {
    k < |lines| && base + CharStart(lines, k) <= span.start && span.end <= base + CharStart(lines, k) + |lines[k]|
  }

  ghost predicate OnALine(lines: seq<string>, base: nat, span: Span) {
    exists k: nat :: InLine(lines, k, base, span)
  }

  ghost predicate OnLines(tokens: seq<Token>, lines: seq<string>, base: nat) {
    forall i :: 0 <= i < |tokens| ==> OnALine(lines, base, tokens[i].span)
  }

  lemma FirstOnLines(first: seq<Token>, lines: seq<string>, base: nat)
    requires lines != [] && Ordered(first, base, base + |lines[0]|)
    ensures OnLines(first, lines, base)
  {
    forall i | 0 <= i < |first|
      ensures OnALine(lines, base, first[i].span)
    {
      assert InLine(lines, 0, base, first[i].span);
    }
  }

  lemma RestOnLines(rest: seq<Token>, lines: seq<string>, base: nat)
    requires |lines| > 1 && OnLines(rest, lines[1..], base + |lines[0]| + 1)
    ensures OnLines(rest, lines, base)
  {
    forall i | 0 <= i < |rest|
      ensures OnALine(lines, base, rest[i].span)
    {
      assert OnALine(lines[1..], base + |lines[0]| + 1, rest[i].span);
      var k: nat :| InLine(lines[1..], k, base + |lines[0]| + 1, rest[i].span);
      assert InLine(lines, k + 1, base, rest[i].span);
    }
  }

  lemma StepOrdered(first: seq<Token>, rest: seq<Token>, lines: seq<string>, base: nat)
    requires |lines| > 1 && Ordered(first, base, base + |lines[0]|)
    requires var next := base + |lines[0]| + 1;
      Ordered(rest, next, next + |Join(lines[1..])|) && OnLines(rest, lines[1..], next)
    ensures Ordered(first + rest, base, base + |Join(lines)|) && OnLines(first + rest, lines, base)
  {
    JoinMeasure(lines);
    OrderedAppend(first, rest, base, base + |lines[0]| + 1, base + |Join(lines)|);
    FirstOnLines(first, lines, base);
    RestOnLines(rest, lines, base);
  }

  /**
   The tokens of any source are nonempty, in order, disjoint and inside it, and each lies on
   one line, so it never crosses a newline.
   */
  lemma {:induction false} TokensAreOrdered(ws: char -> bool, lines: seq<string>, base: nat)
    requires lines != []
    ensures Ordered(TokensOf(ws, lines, base), base, base + |Join(lines)|)
    ensures OnLines(TokensOf(ws, lines, base), lines, base)
    decreases |lines|
  {
    var first, next := LineTokens(ws, lines[0], base), base + |lines[0]| + 1;
    LineTokensOrdered(ws, lines[0], base);
    if |lines| > 1 {
      TokensAreOrdered(ws, lines[1..], next);
      StepOrdered(first, TokensOf(ws, lines[1..], next), lines, base);
    } else {
      FirstOnLines(first, lines, base);
      assert lines[1..] == [] && first + [] == first;
    }
  }

  /** All tokens of a document. */
  function DocumentTokens(ws: char -> bool, source: string): (tokens: seq<Token>)
    ensures Ordered(tokens, 0, |source|) && OnLines(tokens, Lines(source), 0)
  {
    DocumentTokensInside(ws, source);
    TokensOf(ws, Lines(source), 0)
  }

  lemma DocumentTokensInside(ws: char -> bool, source: string)
    ensures Ordered(TokensOf(ws, Lines(source), 0), 0, |source|)
    ensures OnLines(TokensOf(ws, Lines(source), 0), Lines(source), 0)
  {
    JoinLines(source);
    TokensAreOrdered(ws, Lines(source), 0);
  }

  method Tokenize(ws: char -> bool, source: string) returns (tokens: seq<Token>)
    ensures tokens == DocumentTokens(ws, source)
  {
    tokens := TokenizeLines(ws, Lines(source));
  }

  method TokenizeLines(ws: char -> bool, lines: seq<string>) returns (tokens: seq<Token>)
    ensures tokens == TokensOf(ws, lines, 0)
  {
    tokens := [];
    var base: nat := 0;
    NonePushed(ws, tokens, lines);
    for k := 0 to |lines|
      invariant PushedUpTo(ws, tokens, lines, k, base)
    {
      LinePushed(ws, tokens, lines, k, base);
      tokens := tokens + LineTokens(ws, lines[k], base);
      base := base + |lines[k]| + 1;
    }
    AllPushed(ws, tokens, lines, base);
  }

  // ----- what the editor is told -----

  datatype Style = Keyword | Function | Variable | Number | Comment | Operator

  /** The style of a token and whether it declares a label; nothing for unclassifiable text. */
  function StyleOf(symbols: SymbolTable, source: string, token: Token): Option<(Style, bool)> {
    match token.kind
    case LabelToken => Some((Function, true))
    case CommaToken => Some((Operator, false))
    case OriginToken => Some((Keyword, false))
    case MnemonicToken => Some((Keyword, false))
    case OperandToken =>
      var text := Slice(source, token.span);
      Some((if text != [] && IsDecimalDigit(text[0]) then Number else if text in symbols then Function else Variable, false))
    case CommentToken => Some((Comment, false))
    case UnknownToken => None
  }

  /** A token where the editor will draw it. */
  datatype Placed = Placed(at: Position, length: nat, style: Style, declares: bool)

  datatype SemanticToken =
    SemanticToken(deltaLine: nat, deltaStart: nat, length: nat, style: Style, declares: bool)

  /** Where one token goes: its position and its length in code units, if it has a style and a length. */
  function Place(c: Converter, symbols: SymbolTable, token: Token): Option<Placed>
    requires c.lines.Ok() && token.span.start <= token.span.end <= |c.source|
  {
    var at := c.PositionOf(ByteOffset(c.source, token.span.start));
    var text := Text(c.source, ByteOffset(c.source, token.span.start), ByteOffset(c.source, token.span.end));
    var length := c.encoding.Measure(if text.Some? then text.value else "");
    match StyleOf(symbols, c.source, token)
    case Some((style, declares)) => if length == 0 then None else Some(Placed(at, length, style, declares))
    case None => None
  }

  ghost predicate Inside(tokens: seq<Token>, n: nat) {
    forall i :: 0 <= i < |tokens| ==> tokens[i].span.start < tokens[i].span.end <= n
  }

  function AllPlaced(c: Converter, symbols: SymbolTable, tokens: seq<Token>): seq<Placed>
    requires c.lines.Ok() && Inside(tokens, |c.source|)
    decreases |tokens|
  {
    if tokens == [] then []
    else
      var last := Place(c, symbols, tokens[|tokens| - 1]);
      AllPlaced(c, symbols, tokens[..|tokens| - 1]) + if last.Some? then [last.value] else []
  }

  /** Reading differences back: section "Semantic Tokens" of version 3.17 of the Language Server Protocol. */
  function Decode(data: seq<SemanticToken>): seq<Placed>
    decreases |data|
  {
    if data == [] then []
    else
      var before, t := Decode(data[..|data| - 1]), data[|data| - 1];
      var previous := if before == [] then Position(0, 0) else before[|before| - 1].at;
      var character := if t.deltaLine == 0 then previous.character + t.deltaStart else t.deltaStart;
      before + [Placed(Position(previous.line + t.deltaLine, character),
                       t.length, t.style, t.declares)]
  }

  /** The position differences count from. */
  function LastOf(placed: seq<Placed>): Position {
    if placed == [] then Position(0, 0) else placed[|placed| - 1].at
  }

  lemma DecodeAppend(data: seq<SemanticToken>, t: SemanticToken)
    ensures var previous := LastOf(Decode(data));
      Decode(data + [t])
      == Decode(data) + [Placed(Position(previous.line + t.deltaLine,
                                         if t.deltaLine == 0 then previous.character + t.deltaStart else t.deltaStart),
                                t.length, t.style, t.declares)]
  {
    assert (data + [t])[..|data|] == data;
  }

  /** One difference more is one placed token more. */
  lemma OneMoreDecoded(data: seq<SemanticToken>, placed: Placed, t: SemanticToken)
    requires var previous := LastOf(Decode(data));
      && previous.line + t.deltaLine == placed.at.line
      && (if t.deltaLine == 0 then previous.character + t.deltaStart else t.deltaStart) == placed.at.character
    requires t.length == placed.length && t.style == placed.style && t.declares == placed.declares
    ensures Decode(data + [t]) == Decode(data) + [placed] && LastOf(Decode(data + [t])) == placed.at
  {
    DecodeAppend(data, t);
  }

  /** The placed tokens come from earlier tokens, so their positions are not after the next one's. */
  ghost predicate NotAfter(previous: Position, next: Position) {
    previous.line < next.line || (previous.line == next.line && previous.character <= next.character)
  }

  lemma PositionsInOrder(source: string, e: Encoding, i: nat, j: nat)
    requires i <= j <= |source|
    ensures var c := ConverterOf(source, e);
      NotAfter(c.PositionOf(ByteOffset(source, i)), c.PositionOf(ByteOffset(source, j)))
  {
    if i < j {
      PositionsAreMonotone(source, e, i, j);
    }
  }

  lemma LastOfAppend(placed: seq<Placed>, next: Option<Placed>)
    ensures LastOf(placed + if next.Some? then [next.value] else []) == if next.Some? then next.value.at else LastOf(placed)
  {
  }

  lemma PlacedAtStart(c: Converter, symbols: SymbolTable, token: Token)
    requires c.lines.Ok() && token.span.start <= token.span.end <= |c.source|
    ensures var placed := Place(c, symbols, token);
      placed.Some? ==> placed.value.at == c.PositionOf(ByteOffset(c.source, token.span.start))
  {
  }

  lemma LastPlaced(c: Converter, symbols: SymbolTable, tokens: seq<Token>)
    requires c.lines.Ok() && Inside(tokens, |c.source|) && tokens != []
    ensures var n := |tokens| - 1;
      && Inside(tokens[..n], |c.source|)
      && (LastOf(AllPlaced(c, symbols, tokens)) == c.PositionOf(ByteOffset(c.source, tokens[n].span.start))
          || LastOf(AllPlaced(c, symbols, tokens)) == LastOf(AllPlaced(c, symbols, tokens[..n])))
  {
    var n := |tokens| - 1;
    PlacedAtStart(c, symbols, tokens[n]);
    LastOfAppend(AllPlaced(c, symbols, tokens[..n]), Place(c, symbols, tokens[n]));
  }

  lemma {:induction false} LastIsNotAfter(
    source: string, e: Encoding, symbols: SymbolTable, tokens: seq<Token>, start: nat)
    requires Inside(tokens, |source|) && start <= |source|
    requires forall i :: 0 <= i < |tokens| ==> tokens[i].span.start < start
    ensures NotAfter(LastOf(AllPlaced(ConverterOf(source, e), symbols, tokens)),
                     ConverterOf(source, e).PositionOf(ByteOffset(source, start)))
    decreases |tokens|
  {
    if tokens != [] {
      var n := |tokens| - 1;
      LastPlaced(ConverterOf(source, e), symbols, tokens);
      LastIsNotAfter(source, e, symbols, tokens[..n], start);
      PositionsInOrder(source, e, tokens[n].span.start, start);
    }
  }

  /** Where the next token goes, given that it is not before the last one. */
  method Difference(previous: Position, placed: Placed) returns (t: SemanticToken)
    requires NotAfter(previous, placed.at)
    ensures previous.line + t.deltaLine == placed.at.line
    ensures (if t.deltaLine == 0 then previous.character + t.deltaStart else t.deltaStart) == placed.at.character
    ensures t.length == placed.length && t.style == placed.style && t.declares == placed.declares
  {
    var start := placed.at;
    var deltaLine: nat := start.line - previous.line;
    var deltaStart: nat := if deltaLine == 0 then start.character - previous.character else start.character;
    t := SemanticToken(deltaLine, deltaStart, placed.length, placed.style, placed.declares);
  }

  /** The tokens up to and including token `i`. */
  lemma OneMorePlaced(c: Converter, symbols: SymbolTable, tokens: seq<Token>, i: nat)
    requires c.lines.Ok() && Inside(tokens, |c.source|) && i < |tokens|
    ensures Inside(tokens[..i], |c.source|) && Inside(tokens[..i + 1], |c.source|)
    ensures var placed := Place(c, symbols, tokens[i]);
      AllPlaced(c, symbols, tokens[..i + 1])
      == AllPlaced(c, symbols, tokens[..i]) + if placed.Some? then [placed.value] else []
  {
    assert tokens[..i + 1][..i] == tokens[..i];
  }

  lemma NextIsNotBefore(source: string, e: Encoding, symbols: SymbolTable, tokens: seq<Token>, i: nat)
    requires Ordered(tokens, 0, |source|) && i < |tokens| && Place(ConverterOf(source, e), symbols, tokens[i]).Some?
    ensures Inside(tokens[..i], |source|)
    ensures NotAfter(LastOf(AllPlaced(ConverterOf(source, e), symbols, tokens[..i])),
                     Place(ConverterOf(source, e), symbols, tokens[i]).value.at)
  {
    LastIsNotAfter(source, e, symbols, tokens[..i], tokens[i].span.start);
  }

  /**
   Every token is encoded as its difference from the one before. The subtractions never go
   below zero, and reading the differences back gives the absolute positions.
   */
  method SemanticTokens(ws: char -> bool, source: string, e: Encoding, symbols: SymbolTable)
    returns (data: seq<SemanticToken>)
    ensures Inside(DocumentTokens(ws, source), |source|)
    ensures Decode(data) == AllPlaced(ConverterOf(source, e), symbols, DocumentTokens(ws, source))
  {
    var lines := NewLineIndex(source);
    var tokens := Tokenize(ws, source);
    data := EncodeAll(source, lines, e, symbols, tokens);
  }

  method EncodeAll(source: string, lines: LineIndex, e: Encoding, symbols: SymbolTable, tokens: seq<Token>)
    returns (data: seq<SemanticToken>)
    requires lines == ConverterOf(source, e).lines && Ordered(tokens, 0, |source|)
    ensures Inside(tokens, |source|)
    ensures Decode(data) == AllPlaced(ConverterOf(source, e), symbols, tokens)
  {
    var c := Converter(source, lines, e);
    data := [];
    var previous := Position(0, 0);
    for i := 0 to |tokens|
      invariant Inside(tokens[..i], |source|) && previous == LastOf(Decode(data))
      invariant Decode(data) == AllPlaced(c, symbols, tokens[..i])
    {
      OneMorePlaced(c, symbols, tokens, i);
      var placed := Place(c, symbols, tokens[i]);
      if placed.Some? {
        NextIsNotBefore(source, e, symbols, tokens, i);
        var t := Difference(previous, placed.value);
        OneMoreDecoded(data, placed.value, t);
        data := data + [t];
        previous := placed.value.at;
      }
    }
    assert tokens[..|tokens|] == tokens;
  }

  // ----- what is drawn -----

  /** Characters `i` to `j` are those from `a` to `b` of line `k`. */
  ghost predicate Within(c: Converter, k: nat, line: string, from: nat, a: nat, b: nat, i: nat, j: nat) {
    LineAt(c, k, line, from) && a < b <= |line| && i == from + a && j == from + b
  }

  lemma WidthOf(e: Encoding, line: string, a: nat, b: nat)
    requires a < b <= |line|
    ensures e.Measure(line[..b]) == e.Measure(line[..a]) + e.Measure(line[a..b]) && e.Measure(line[a..b]) > 0
  {
    PrefixGrows(e, line, a, b);
  }

  lemma WithinSource(c: Converter, k: nat, line: string, from: nat, a: nat, b: nat, i: nat, j: nat)
    requires Within(c, k, line, from, a, b, i, j)
    ensures i < j <= |c.source|
  {
  }

  lemma CharacterStandsAt(c: Converter, k: nat, line: string, from: nat, a: nat, i: nat)
    requires LineAt(c, k, line, from) && a <= |line| && i == from + a
    ensures i <= |c.source| && c.PositionOf(ByteOffset(c.source, i)) == Position(k, c.encoding.Measure(line[..a]))
  {
    PositionAt(c, k, line, from, a);
  }

  lemma StartsAt(c: Converter, k: nat, line: string, from: nat, a: nat, b: nat, i: nat, j: nat)
    requires Within(c, k, line, from, a, b, i, j)
    ensures i < j <= |c.source| && c.PositionOf(ByteOffset(c.source, i)) == Position(k, c.encoding.Measure(line[..a]))
  {
    WithinSource(c, k, line, from, a, b, i, j);
    CharacterStandsAt(c, k, line, from, a, i);
  }

  lemma EndsAt(c: Converter, k: nat, line: string, from: nat, a: nat, b: nat, i: nat, j: nat)
    requires Within(c, k, line, from, a, b, i, j)
    ensures i < j <= |c.source| && c.encoding.Measure(line[a..b]) > 0
    ensures c.PositionOf(ByteOffset(c.source, j))
         == Position(k, c.encoding.Measure(line[..a]) + c.encoding.Measure(line[a..b]))
  {
    WithinSource(c, k, line, from, a, b, i, j);
    CharacterStandsAt(c, k, line, from, b, j);
    WidthOf(c.encoding, line, a, b);
  }

  lemma TextAt(c: Converter, k: nat, line: string, from: nat, a: nat, b: nat, i: nat, j: nat)
    requires Within(c, k, line, from, a, b, i, j)
    ensures i < j <= |c.source| && Text(c.source, ByteOffset(c.source, i), ByteOffset(c.source, j)) == Some(line[a..b])
  {
    CharIndexOfOffset(c.source, i);
    CharIndexOfOffset(c.source, j);
    assert c.source[i..j] == c.source[from..from + |line|][a..b];
  }

  /** The token is drawn unless it is unclassifiable, and its length reaches exactly to where it ends. */
  ghost predicate DrawnWhole(c: Converter, symbols: SymbolTable, token: Token)
    requires c.lines.Ok() && token.span.start <= token.span.end <= |c.source|
  {
    var placed := Place(c, symbols, token);
    && (placed.Some? <==> token.kind != UnknownToken)
    && (placed.Some? ==>
          && placed.value.at == c.PositionOf(ByteOffset(c.source, token.span.start))
          && placed.value.length > 0
          && c.PositionOf(ByteOffset(c.source, token.span.end))
             == Position(placed.value.at.line, placed.value.at.character + placed.value.length))
  }

  lemma DrawnWholeFrom(c: Converter, symbols: SymbolTable, token: Token, text: string, at: Position)
    requires c.lines.Ok() && token.span.start <= token.span.end <= |c.source| && c.encoding.Measure(text) > 0
    requires Text(c.source, ByteOffset(c.source, token.span.start), ByteOffset(c.source, token.span.end)) == Some(text)
    requires c.PositionOf(ByteOffset(c.source, token.span.start)) == at
    requires c.PositionOf(ByteOffset(c.source, token.span.end))
          == Position(at.line, at.character + c.encoding.Measure(text))
    ensures DrawnWhole(c, symbols, token)
  {
  }

  lemma DrawnWholeAt(c: Converter, symbols: SymbolTable, token: Token, k: nat, line: string, from: nat, a: nat, b: nat)
    requires Within(c, k, line, from, a, b, token.span.start, token.span.end)
    ensures token.span.start < token.span.end <= |c.source| && DrawnWhole(c, symbols, token)
  {
    StartsAt(c, k, line, from, a, b, token.span.start, token.span.end);
    EndsAt(c, k, line, from, a, b, token.span.start, token.span.end);
    TextAt(c, k, line, from, a, b, token.span.start, token.span.end);
    DrawnWholeFrom(c, symbols, token, line[a..b], Position(k, c.encoding.Measure(line[..a])));
  }

  lemma TokenIsDrawn(source: string, e: Encoding, symbols: SymbolTable, token: Token)
    requires OnALine(Lines(source), 0, token.span) && token.span.start < token.span.end <= |source|
    ensures DrawnWhole(ConverterOf(source, e), symbols, token)
  {
    var k: nat :| InLine(Lines(source), k, 0, token.span);
    var from := CharStart(Lines(source), k);
    LinesAt(source, e, k);
    DrawnWholeAt(ConverterOf(source, e), symbols, token, k, Lines(source)[k], from,
                 token.span.start - from, token.span.end - from);
  }

  /** One token ends, on the screen, before the other begins. */
  predicate EndsBefore(a: Placed, b: Placed) {
    a.at.line < b.at.line || (a.at.line == b.at.line && a.at.character + a.length <= b.at.character)
  }

  lemma ApartOnScreen(c: Converter, symbols: SymbolTable, a: Token, b: Token)
    requires c.lines.Ok() && a.span.start <= a.span.end <= b.span.start <= b.span.end <= |c.source|
    requires DrawnWhole(c, symbols, a) && DrawnWhole(c, symbols, b) && a.kind != UnknownToken && b.kind != UnknownToken
    requires NotAfter(c.PositionOf(ByteOffset(c.source, a.span.end)), c.PositionOf(ByteOffset(c.source, b.span.start)))
    ensures Place(c, symbols, a).Some? && Place(c, symbols, b).Some?
    ensures EndsBefore(Place(c, symbols, a).value, Place(c, symbols, b).value)
  {
  }

  /**
   Every token of any source is drawn, unless it is unclassifiable, exactly as long as it is,
   and each ends on the screen before the next one begins.
   */
  lemma DrawnTokensAreApart(ws: char -> bool, source: string, e: Encoding, symbols: SymbolTable)
    ensures var c, tokens := ConverterOf(source, e), DocumentTokens(ws, source);
      && Inside(tokens, |source|)
      && (forall i :: 0 <= i < |tokens| ==> DrawnWhole(c, symbols, tokens[i]))
      && (forall i, j :: 0 <= i < j < |tokens| && tokens[i].kind != UnknownToken && tokens[j].kind != UnknownToken ==>
            && Place(c, symbols, tokens[i]).Some? && Place(c, symbols, tokens[j]).Some?
            && EndsBefore(Place(c, symbols, tokens[i]).value, Place(c, symbols, tokens[j]).value))
  {
    var c, tokens := ConverterOf(source, e), DocumentTokens(ws, source);
    forall i | 0 <= i < |tokens|
      ensures DrawnWhole(c, symbols, tokens[i])
    {
      TokenIsDrawn(source, e, symbols, tokens[i]);
    }
    forall i, j | 0 <= i < j < |tokens| && tokens[i].kind != UnknownToken && tokens[j].kind != UnknownToken
      ensures Place(c, symbols, tokens[i]).Some? && Place(c, symbols, tokens[j]).Some?
      ensures EndsBefore(Place(c, symbols, tokens[i]).value, Place(c, symbols, tokens[j]).value)
    {
      PositionsInOrder(source, e, tokens[i].span.end, tokens[j].span.start);
      ApartOnScreen(c, symbols, tokens[i], tokens[j]);
    }
  }
}
