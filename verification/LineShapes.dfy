/**
 What the parts of a statement line look like, and what becomes of them when a label or an
 operand on the line is replaced (crates/lib/mrs-asm/src/lexer.rs:279-390).
 */
module LineShapes {
  import opened Words
  import opened Patterns
  import opened Lexer

  // ----- where the parts are -----

  ghost predicate AllWord(ws: char -> bool, line: string, span: Span) {
    span.start < span.end <= |line| && forall i :: span.start <= i < span.end ==> WordAt(ws, line, i)
  }

  /** A comment starts with its slash at or after `from` and runs to the end. */
  ghost predicate CommentAfter(line: string, comment: Option<Span>, from: nat) {
    comment.Some? ==> from <= comment.value.start < comment.value.end == |line| && line[comment.value.start] == '/'
  }

  ghost predicate OperandAfter(ws: char -> bool, line: string, operand: Option<Span>, from: nat) {
    operand.Some? ==> from < operand.value.start && SpaceAt(ws, line, from) && AllWord(ws, line, operand.value)
  }

  function WordsEnd(mnemonic: Span, operand: Option<Span>): nat {
    if operand.Some? then operand.value.end else mnemonic.end
  }

  /** Label, comma, operator, operand and comment, in that order and apart from each other. */
  ghost predicate Shaped(ws: char -> bool, line: string, p: Parts) {
    && AllWord(ws, line, p.mnemonic)
    && OperandAfter(ws, line, p.operand, p.mnemonic.end)
    && CommentAfter(line, p.comment, WordsEnd(p.mnemonic, p.operand))
    && (p.tag.Some? ==>
          && p.tag.value.start < p.tag.value.end < p.mnemonic.start && line[p.tag.value.end] == ','
          && forall i :: p.tag.value.start <= i < p.tag.value.end ==> line[i] != ',' && line[i] != '/')
  }

  lemma {:induction false} OperandAtShape(ws: char -> bool, line: string, p: nat, i: nat)
    requires p < i <= |line| && AllWord(ws, line, Span(p, i))
    ensures var r := OperandAt(ws, line, p, i);
      r.Some? ==> r.value.0.start == p && AllWord(ws, line, r.value.0) && CommentAfter(line, r.value.1, r.value.0.end)
    decreases |line| - i
  {
    if Tail(ws, line, i).None? && WordAt(ws, line, i) {
      OperandAtShape(ws, line, p, i + 1);
    }
  }

  lemma AfterShape(ws: char -> bool, line: string, start: nat)
    requires start <= |line|
    ensures var r := AfterMnemonic(ws, line, start);
      r.Some? ==>
        && OperandAfter(ws, line, r.value.0, start)
        && CommentAfter(line, r.value.1, if r.value.0.Some? then r.value.0.value.end else start)
  {
    var p := Skip(ws, line, start);
    if SpaceAt(ws, line, start) && WordAt(ws, line, p) {
      assert p > start;
      OperandAtShape(ws, line, p, p + 1);
    }
  }

  lemma {:induction false} BodyAtShape(ws: char -> bool, line: string, p: nat, i: nat)
    requires p < i <= |line| && AllWord(ws, line, Span(p, i))
    ensures var r := BodyAt(ws, line, p, i, None);
      r.Some? ==> r.value.mnemonic.start == p && Shaped(ws, line, r.value)
    decreases |line| - i
  {
    AfterShape(ws, line, i);
    if AfterMnemonic(ws, line, i).None? && WordAt(ws, line, i) {
      BodyAtShape(ws, line, p, i + 1);
    }
  }

  function Retagged(p: Option<Parts>, tag: Option<Span>): Option<Parts> {
    if p.Some? then Some(p.value.(tag := tag)) else None
  }

  /** The label is only carried along. */
  lemma {:induction false} BodyAtLabel(ws: char -> bool, line: string, p: nat, i: nat, tag: Option<Span>)
    requires p <= i <= |line|
    ensures BodyAt(ws, line, p, i, tag) == Retagged(BodyAt(ws, line, p, i, None), tag)
    decreases |line| - i
  {
    if AfterMnemonic(ws, line, i).None? && WordAt(ws, line, i) {
      BodyAtLabel(ws, line, p, i + 1, tag);
    }
  }

  /** The label of a body is only carried along. */
  lemma BodyTag(ws: char -> bool, line: string, start: nat, tag: Option<Span>)
    requires start <= |line|
    ensures Body(ws, line, start, tag) == Retagged(Body(ws, line, start, None), tag)
    ensures Body(ws, line, start, None).Some? ==> Body(ws, line, start, None).value.tag.None?
  {
    var p := Skip(ws, line, start);
    if WordAt(ws, line, p) {
      BodyAtLabel(ws, line, p, p + 1, tag);
      BodyAtLabel(ws, line, p, p + 1, None);
    }
  }

  lemma BodyShape(ws: char -> bool, line: string, start: nat)
    requires start <= |line|
    ensures var r := Body(ws, line, start, None);
      r.Some? ==> r.value.tag == None && r.value.mnemonic.start == Skip(ws, line, start) && Shaped(ws, line, r.value)
    ensures forall tag :: Body(ws, line, start, tag) == Retagged(Body(ws, line, start, None), tag)
  {
    var p := Skip(ws, line, start);
    if WordAt(ws, line, p) {
      BodyAtShape(ws, line, p, p + 1);
      BodyKeepsLabel(ws, line, start, None);
      forall tag
        ensures Body(ws, line, start, tag) == Retagged(Body(ws, line, start, None), tag)
      {
        BodyAtLabel(ws, line, p, p + 1, tag);
      }
    }
  }

  lemma WithLabelShape(ws: char -> bool, line: string, start: nat)
    requires start <= |line|
    ensures var r := WithLabel(ws, line, start);
      r.Some? ==> Shaped(ws, line, r.value) && r.value.tag.Some? && r.value.tag.value.start == start
  {
    var i := RunEnd(ws, line, NotCommaOrSlash, start);
    if At(line, i, ',') && i != start {
      RunAccepts(ws, line, NotCommaOrSlash, start);
      BodyShape(ws, line, i + 1);
    }
  }

  lemma {:induction false} StatementFromShape(ws: char -> bool, line: string, leading: nat, taken: nat)
    requires taken <= leading <= |line|
    ensures var r := StatementFrom(ws, line, leading, taken);
      r.Some? ==> Shaped(ws, line, r.value) && (r.value.tag.Some? ==> r.value.tag.value.start <= taken)
    decreases taken
  {
    WithLabelShape(ws, line, taken);
    BodyShape(ws, line, leading);
    if WithLabel(ws, line, taken).None? && taken > 0 {
      StatementFromShape(ws, line, leading, taken - 1);
    }
  }

  lemma StatementShape(ws: char -> bool, line: string)
    ensures StatementOf(ws, line).Some? ==> Shaped(ws, line, StatementOf(ws, line).value)
  {
    var leading := Skip(ws, line, 0);
    StatementFromShape(ws, line, leading, leading);
  }

  // ----- the search only looks at what follows -----

  /** From `i` on, `line` reads as `other` does from `j` on. */
  ghost predicate Alike(line: string, i: nat, other: string, j: nat) {
    && i <= |line| && |line| - i == |other| - j
    && forall m {:trigger other[m]} :: j <= m < |other| ==> other[m] == line[m - j + i]
  }

  lemma AlikeFurther(line: string, i: nat, other: string, j: nat, k: nat)
    requires Alike(line, i, other, j) && i + k <= |line|
    ensures Alike(line, i + k, other, j + k)
    ensures i + k < |line| ==> j + k < |other| && line[i + k] == other[j + k]
  {
  }

  /** The two characters are of the same kind, and what follows them is alike. */
  lemma NextAlike(ws: char -> bool, line: string, i: nat, other: string, j: nat)
    requires Alike(line, i, other, j)
    ensures i <= |line| && j <= |other|
    ensures WordAt(ws, other, j) == WordAt(ws, line, i) && SpaceAt(ws, other, j) == SpaceAt(ws, line, i)
    ensures i < |line| ==> Alike(line, i + 1, other, j + 1)
  {
    AlikeFurther(line, i, other, j, 0);
  }

  /** The span `delta` characters further along. */
  function Moved(span: Span, delta: int): Span
    requires 0 <= span.start + delta && span.start <= span.end
  {
    Span(span.start + delta, span.end + delta)
  }

  predicate Movable(span: Option<Span>, delta: int) {
    span.Some? ==> 0 <= span.value.start + delta && span.value.start <= span.value.end
  }

  function MovedOption(span: Option<Span>, delta: int): Option<Span>
    requires Movable(span, delta)
  {
    if span.Some? then Some(Moved(span.value, delta)) else None
  }

  lemma {:induction false} RunEndAlike(ws: char -> bool, chars: CharSet, line: string, i: nat, other: string, j: nat)
    requires Alike(line, i, other, j)
    ensures RunEnd(ws, other, chars, j) == RunEnd(ws, line, chars, i) - i + j
    decreases |line| - i
  {
    AlikeFurther(line, i, other, j, 0);
    if i < |line| {
      AlikeFurther(line, i, other, j, 1);
      if Accepts(chars, ws, line[i]) {
        RunEndAlike(ws, chars, line, i + 1, other, j + 1);
      }
    }
  }

  lemma TailAlike(ws: char -> bool, line: string, i: nat, other: string, j: nat)
    requires Alike(line, i, other, j)
    ensures var t := Tail(ws, line, i);
      if t.None? then Tail(ws, other, j).None?
      else Movable(t.value, j - i) && Tail(ws, other, j) == Some(MovedOption(t.value, j - i))
  {
    RunEndAlike(ws, Space, line, i, other, j);
    var e := Skip(ws, line, i);
    AlikeFurther(line, i, other, j, e - i);
  }

  /** The same for a tail that is known, and a distance by any name. */
  lemma TailMoves(ws: char -> bool, line: string, i: nat, other: string, j: nat, delta: int, comment: Option<Span>)
    requires Alike(line, i, other, j) && delta == j - i && Tail(ws, line, i) == Some(comment)
    ensures j <= |other| && Movable(comment, delta) && Tail(ws, other, j) == Some(MovedOption(comment, delta))
  {
    TailAlike(ws, line, i, other, j);
  }

  lemma {:induction false} OperandAtAlike(ws: char -> bool, line: string, p: nat, i: nat, other: string, q: nat, j: nat)
    requires Alike(line, i, other, j) && p <= i && q <= j && j - i == q - p
    ensures var r := OperandAt(ws, line, p, i);
      if r.None? then OperandAt(ws, other, q, j).None?
      else
        && Movable(Some(r.value.0), j - i) && Movable(r.value.1, j - i)
        && OperandAt(ws, other, q, j) == Some((Moved(r.value.0, j - i), MovedOption(r.value.1, j - i)))
    decreases |line| - i
  {
    TailAlike(ws, line, i, other, j);
    NextAlike(ws, line, i, other, j);
    if Tail(ws, line, i).None? && WordAt(ws, line, i) {
      OperandAtAlike(ws, line, p, i + 1, other, q, j + 1);
    }
  }

  lemma OperandFromAlike(ws: char -> bool, line: string, i: nat, other: string, j: nat)
    requires Alike(line, i, other, j)
    ensures var r := OperandFrom(ws, line, Skip(ws, line, i));
      if r.None? then OperandFrom(ws, other, Skip(ws, other, j)).None?
      else
        && Movable(Some(r.value.0), j - i) && Movable(r.value.1, j - i)
        && OperandFrom(ws, other, Skip(ws, other, j)) == Some((Moved(r.value.0, j - i), MovedOption(r.value.1, j - i)))
  {
    RunEndAlike(ws, Space, line, i, other, j);
    var p := Skip(ws, line, i);
    AlikeFurther(line, i, other, j, p - i);
    OperandFromAlikeAt(ws, line, p, other, p - i + j);
  }

  lemma OperandFromAlikeAt(ws: char -> bool, line: string, p: nat, other: string, q: nat)
    requires Alike(line, p, other, q)
    ensures q <= |other|
    ensures var r := OperandFrom(ws, line, p);
      if r.None? then OperandFrom(ws, other, q).None?
      else
        && Movable(Some(r.value.0), q - p) && Movable(r.value.1, q - p)
        && OperandFrom(ws, other, q) == Some((Moved(r.value.0, q - p), MovedOption(r.value.1, q - p)))
  {
    NextAlike(ws, line, p, other, q);
    if WordAt(ws, line, p) {
      OperandAtAlike(ws, line, p, p + 1, other, q, q + 1);
    }
  }

  lemma AfterAlike(ws: char -> bool, line: string, i: nat, other: string, j: nat)
    requires Alike(line, i, other, j)
    ensures var r := AfterMnemonic(ws, line, i);
      if r.None? then AfterMnemonic(ws, other, j).None?
      else
        && Movable(r.value.0, j - i) && Movable(r.value.1, j - i)
        && AfterMnemonic(ws, other, j) == Some((MovedOption(r.value.0, j - i), MovedOption(r.value.1, j - i)))
  {
    TailAlike(ws, line, i, other, j);
    NextAlike(ws, line, i, other, j);
    OperandFromAlike(ws, line, i, other, j);
  }

  /** Everything but the label can be moved by `delta`. */
  predicate BodyMovable(p: Parts, delta: int) {
    Movable(Some(p.mnemonic), delta) && Movable(p.operand, delta) && Movable(p.comment, delta)
  }

  function MovedParts(p: Parts, tag: Option<Span>, delta: int): Parts
    requires BodyMovable(p, delta)
  {
    Parts(tag, Moved(p.mnemonic, delta), MovedOption(p.operand, delta), MovedOption(p.comment, delta))
  }

  lemma {:induction false} BodyAtAlike(
    ws: char -> bool, line: string, p: nat, i: nat, other: string, q: nat, j: nat, tag: Option<Span>)
    requires Alike(line, i, other, j) && p <= i && q <= j && j - i == q - p
    ensures var r := BodyAt(ws, line, p, i, None);
      if r.None? then BodyAt(ws, other, q, j, tag).None?
      else BodyMovable(r.value, j - i) && BodyAt(ws, other, q, j, tag) == Some(MovedParts(r.value, tag, j - i))
    decreases |line| - i
  {
    AfterAlike(ws, line, i, other, j);
    NextAlike(ws, line, i, other, j);
    if AfterMnemonic(ws, line, i).None? && WordAt(ws, line, i) {
      BodyAtAlike(ws, line, p, i + 1, other, q, j + 1, tag);
    }
  }

  /** The body is what starts at the first character that is not whitespace. */
  lemma BodyAlikeAt(ws: char -> bool, line: string, i: nat, p: nat, other: string, j: nat, q: nat, tag: Option<Span>)
    requires i <= |line| && j <= |other| && Skip(ws, line, i) == p && Skip(ws, other, j) == q
    requires Alike(line, p, other, q)
    ensures var r := Body(ws, line, i, None);
      if r.None? then Body(ws, other, j, tag).None?
      else BodyMovable(r.value, q - p) && Body(ws, other, j, tag) == Some(MovedParts(r.value, tag, q - p))
  {
    NextAlike(ws, line, p, other, q);
    if WordAt(ws, line, p) {
      BodyAtAlike(ws, line, p, p + 1, other, q, q + 1, tag);
    }
  }

  lemma BodyAlike(ws: char -> bool, line: string, i: nat, other: string, j: nat, tag: Option<Span>)
    requires Alike(line, i, other, j)
    ensures var r := Body(ws, line, i, None);
      if r.None? then Body(ws, other, j, tag).None?
      else BodyMovable(r.value, j - i) && Body(ws, other, j, tag) == Some(MovedParts(r.value, tag, j - i))
  {
    var p := Skip(ws, line, i);
    RunEndAlike(ws, Space, line, i, other, j);
    AlikeFurther(line, i, other, j, p - i);
    BodyAlikeAt(ws, line, i, p, other, j, p - i + j, tag);
  }

  /** The same for a body that is known. */
  lemma BodyMoves(
    ws: char -> bool, line: string, i: nat, other: string, j: nat, delta: int, tag: Option<Span>, body: Parts)
    requires Alike(line, i, other, j) && delta == j - i && Body(ws, line, i, None) == Some(body)
    ensures j <= |other| && BodyMovable(body, delta) && Body(ws, other, j, tag) == Some(MovedParts(body, tag, delta))
  {
    BodyAlike(ws, line, i, other, j, tag);
  }
}
