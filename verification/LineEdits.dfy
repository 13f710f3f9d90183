/**
 Replacing a label or an operand on a statement line by another name leaves the line a
 statement with the same parts, moved (crates/lib/mrs-asm/src/lexer.rs:279-390).
 */
module LineEdits {
  import opened Words
  import opened Patterns
  import opened Lexer
  import opened LineShapes

  /** Neither a comma, nor a slash, nor whitespace between `a` and `b`. */
  ghost predicate Plain(ws: char -> bool, s: string, a: nat, b: nat) {
    b <= |s| && forall i :: a <= i < b ==> !ws(s[i]) && s[i] != ',' && s[i] != '/'
  }

  /** `other` is `line` with the text of `span` replaced. */
  ghost predicate ReplacedBy(line: string, span: Span, text: string, other: string) {
    && span.start <= span.end <= |line|
    && Alike(line, span.end, other, span.start + |text|)
    && (forall k {:trigger other[k]} :: 0 <= k < span.start ==> other[k] == line[k])
    && (forall k {:trigger other[k]} :: span.start <= k < span.start + |text| ==> other[k] == text[k - span.start])
  }

  function Growth(span: Span, text: string): int {
    |text| - (span.end - span.start)
  }

  /** A run is determined by where it stops. */
  lemma {:induction false} RunEndIs(ws: char -> bool, line: string, chars: CharSet, i: nat, e: nat)
    requires i <= e <= |line|
    requires forall k :: i <= k < e ==> Accepts(chars, ws, line[k])
    requires e == |line| || !Accepts(chars, ws, line[e])
    ensures RunEnd(ws, line, chars, i) == e
    decreases e - i
  {
    if i < e {
      RunEndIs(ws, line, chars, i + 1, e);
    }
  }

  // ----- where a statement was found -----

  /** A label that does not start with whitespace was found right after the leading whitespace. */
  lemma FoundAtLeading(ws: char -> bool, line: string, p: Parts)
    requires StatementOf(ws, line) == Some(p)
    requires p.tag.Some? ==> p.tag.value.start < |line| && !ws(line[p.tag.value.start])
    ensures var leading := Skip(ws, line, 0);
      && (p.tag.Some? ==> WithLabel(ws, line, leading) == Some(p) && p.tag.value.start == leading)
      && (p.tag.None? ==> WithLabel(ws, line, leading).None? && Body(ws, line, leading, None) == Some(p))
  {
    var leading := Skip(ws, line, 0);
    RunAccepts(ws, line, Space, 0);
    WithLabelShape(ws, line, leading);
    BodyShape(ws, line, leading);
    if WithLabel(ws, line, leading).None? && Body(ws, line, leading, None).None? && leading > 0 {
      StatementFromShape(ws, line, leading, leading - 1);
      NoBodyHasLabel(ws, line, leading, leading - 1);
    }
  }

  lemma {:induction false} NoBodyHasLabel(ws: char -> bool, line: string, leading: nat, taken: nat)
    requires taken < leading <= |line|
    ensures var r := StatementFrom(ws, line, leading, taken);
      r.Some? ==> r.value.tag.Some?
    decreases taken
  {
    WithLabelShape(ws, line, taken);
    if WithLabel(ws, line, taken).None? && taken > 0 {
      NoBodyHasLabel(ws, line, leading, taken - 1);
    }
  }

  // ----- replacing the label -----

  /** The leading whitespace depends only on the characters before the first other one. */
  lemma SameLeading(ws: char -> bool, line: string, other: string)
    requires Skip(ws, line, 0) < |other| && !ws(other[Skip(ws, line, 0)])
    requires forall k {:trigger other[k]} :: 0 <= k < Skip(ws, line, 0) ==> other[k] == line[k]
    ensures Skip(ws, other, 0) == Skip(ws, line, 0)
  {
    var leading := Skip(ws, line, 0);
    RunAccepts(ws, line, Space, 0);
    RunEndIs(ws, other, Space, 0, leading);
  }

  /** A label right after the leading whitespace, up to its comma. */
  ghost predicate LabelAt(ws: char -> bool, line: string, t: Span) {
    && Skip(ws, line, 0) == t.start < t.end < |line| && line[t.end] == ','
    && forall k :: t.start <= k < t.end ==> line[k] != ',' && line[k] != '/'
  }

  lemma LabelFound(ws: char -> bool, line: string, p: Parts)
    requires StatementOf(ws, line) == Some(p) && p.tag.Some?
    requires p.tag.value.start < |line| && !ws(line[p.tag.value.start])
    ensures LabelAt(ws, line, p.tag.value) && WithLabel(ws, line, p.tag.value.start) == Some(p)
  {
    FoundAtLeading(ws, line, p);
    StatementShape(ws, line);
  }

  lemma Untagged(body: Option<Parts>, tag: Span, p: Parts)
    requires Retagged(body, Some(tag)) == Some(p) && (body.Some? ==> body.value.tag.None?)
    ensures body == Some(p.(tag := None))
  {
  }

  /** A statement with a label: the body after its comma. */
  lemma LabelledBody(ws: char -> bool, line: string, p: Parts)
    requires StatementOf(ws, line) == Some(p) && p.tag.Some?
    requires p.tag.value.start < |line| && !ws(line[p.tag.value.start])
    ensures LabelAt(ws, line, p.tag.value) && Body(ws, line, p.tag.value.end + 1, None) == Some(p.(tag := None))
  {
    var t := p.tag.value;
    LabelFound(ws, line, p);
    LabelIs(ws, line, t.start, t.end);
    BodyTag(ws, line, t.end + 1, Some(t));
    Untagged(Body(ws, line, t.end + 1, None), t, p);
  }

  /** Conversely, a label right after the leading whitespace with a body after its comma is the statement. */
  lemma FirstLabelled(ws: char -> bool, line: string, t: Span, r: Parts)
    requires LabelAt(ws, line, t) && Body(ws, line, t.end + 1, Some(t)) == Some(r)
    ensures StatementOf(ws, line) == Some(r)
  {
    LabelIs(ws, line, t.start, t.end);
  }

  /** Where the name now stands, and what stands after it. */
  lemma NameReads(ws: char -> bool, line: string, span: Span, name: string, other: string)
    requires name != [] && Plain(ws, name, 0, |name|) && ReplacedBy(line, span, name, other)
    ensures Plain(ws, other, span.start, span.start + |name|) && !ws(other[span.start])
    ensures span.end < |line| ==> span.start + |name| < |other| && other[span.start + |name|] == line[span.end]
  {
    assert other[span.start] == name[0];
  }

  lemma MovedBody(ws: char -> bool, line: string, t: Span, name: string, other: string, body: Parts)
    requires t.end < |line| && Body(ws, line, t.end + 1, None) == Some(body) && ReplacedBy(line, t, name, other)
    ensures t.start + |name| < |other| && BodyMovable(body, Growth(t, name))
    ensures var tag := Some(Span(t.start, t.start + |name|));
      Body(ws, other, t.start + |name| + 1, tag) == Some(MovedParts(body, tag, Growth(t, name)))
  {
    var e := t.start + |name|;
    AlikeFurther(line, t.end, other, e, 1);
    BodyMoves(ws, line, t.end + 1, other, e + 1, Growth(t, name), Some(Span(t.start, e)), body);
  }

  /** The name now reads as the label: right after the leading whitespace, up to the comma. */
  lemma NewLabelReads(ws: char -> bool, line: string, t: Span, name: string, other: string)
    requires LabelAt(ws, line, t)
    requires name != [] && Plain(ws, name, 0, |name|) && ReplacedBy(line, t, name, other)
    ensures LabelAt(ws, other, Span(t.start, t.start + |name|))
  {
    NameReads(ws, line, t, name, other);
    SameLeading(ws, line, other);
  }

  lemma NewLabelled(ws: char -> bool, line: string, t: Span, body: Parts, name: string, other: string)
    requires LabelAt(ws, line, t) && Body(ws, line, t.end + 1, None) == Some(body)
    requires name != [] && Plain(ws, name, 0, |name|) && ReplacedBy(line, t, name, other)
    ensures BodyMovable(body, Growth(t, name)) && Skip(ws, other, 0) == t.start == Skip(ws, line, 0)
    ensures StatementOf(ws, other) == Some(MovedParts(body, Some(Span(t.start, t.start + |name|)), Growth(t, name)))
  {
    NewLabelReads(ws, line, t, name, other);
    MovedBody(ws, line, t, name, other, body);
    var tag := Span(t.start, t.start + |name|);
    FirstLabelled(ws, other, tag, MovedParts(body, Some(tag), Growth(t, name)));
  }

  lemma MovedUntagged(p: Parts, tag: Option<Span>, delta: int)
    requires BodyMovable(p.(tag := None), delta)
    ensures BodyMovable(p, delta) && MovedParts(p.(tag := None), tag, delta) == MovedParts(p, tag, delta)
  {
  }

  lemma ReplaceLabel(ws: char -> bool, line: string, p: Parts, name: string, other: string)
    requires StatementOf(ws, line) == Some(p) && p.tag.Some?
    requires p.tag.value.start < |line| && !ws(line[p.tag.value.start])
    requires name != [] && Plain(ws, name, 0, |name|) && ReplacedBy(line, p.tag.value, name, other)
    ensures var t := p.tag.value;
      && BodyMovable(p, Growth(t, name))
      && StatementOf(ws, other) == Some(MovedParts(p, Some(Span(t.start, t.start + |name|)), Growth(t, name)))
      && Skip(ws, other, 0) == Skip(ws, line, 0) == t.start
  {
    var t := p.tag.value;
    LabelledBody(ws, line, p);
    NewLabelled(ws, line, t, p.(tag := None), name, other);
    MovedUntagged(p, Some(Span(t.start, t.start + |name|)), Growth(t, name));
  }

  /** A label is what runs up to the first comma. */
  lemma LabelIs(ws: char -> bool, line: string, start: nat, e: nat)
    requires start < e < |line| && line[e] == ','
    requires forall k :: start <= k < e ==> line[k] != ',' && line[k] != '/'
    ensures WithLabel(ws, line, start) == Body(ws, line, e + 1, Some(Span(start, e)))
  {
    RunEndIs(ws, line, NotCommaOrSlash, start, e);
  }

  // ----- replacing the operand -----

  lemma {:induction false} OperandAtTail(ws: char -> bool, line: string, p: nat, i: nat)
    requires p <= i <= |line|
    ensures var r := OperandAt(ws, line, p, i);
      r.Some? ==>
        && r.value.0.start == p && i <= r.value.0.end <= |line|
        && Tail(ws, line, r.value.0.end) == Some(r.value.1)
    decreases |line| - i
  {
    if Tail(ws, line, i).None? && WordAt(ws, line, i) {
      OperandAtTail(ws, line, p, i + 1);
    }
  }

  /** Inside a word that is no slash, no tail starts. */
  lemma NoTailInside(ws: char -> bool, line: string, i: nat)
    requires i < |line| && !ws(line[i])
    ensures Skip(ws, line, i) == i
    ensures Tail(ws, line, i) == if line[i] == '/' then Some(Some(Span(i, |line|))) else None
  {
  }

  /** A name standing where an operand starts is that operand, if a tail follows it. */
  lemma {:induction false} OperandIs(ws: char -> bool, line: string, p: nat, i: nat, e: nat)
    requires p <= i <= e <= |line| && Plain(ws, line, i, e) && Tail(ws, line, e).Some?
    ensures OperandAt(ws, line, p, i) == Some((Span(p, e), Tail(ws, line, e).value))
    decreases e - i
  {
    if i < e {
      NoTailInside(ws, line, i);
      OperandIs(ws, line, p, i + 1, e);
    }
  }

  lemma AfterOperand(ws: char -> bool, line: string, i: nat)
    requires i <= |line|
    ensures var r := AfterMnemonic(ws, line, i);
      r.Some? && r.value.0.Some? ==>
        && SpaceAt(ws, line, i) && i < r.value.0.value.start == Skip(ws, line, i)
        && r.value.0.value.start < r.value.0.value.end <= |line|
        && Tail(ws, line, r.value.0.value.end) == Some(r.value.1)
  {
    var q := Skip(ws, line, i);
    if SpaceAt(ws, line, i) && WordAt(ws, line, q) {
      OperandAtTail(ws, line, q, q + 1);
    }
  }

  /** The operand of a body, and the tail after it. */
  lemma {:induction false} BodyAtOperand(ws: char -> bool, line: string, p: nat, i: nat)
    requires p <= i <= |line|
    ensures var r := BodyAt(ws, line, p, i, None);
      r.Some? && r.value.operand.Some? ==>
        var o := r.value.operand.value;
        && i <= r.value.mnemonic.end < o.start < o.end <= |line|
        && o.start == Skip(ws, line, r.value.mnemonic.end)
        && SpaceAt(ws, line, r.value.mnemonic.end)
        && Tail(ws, line, o.end) == Some(r.value.comment)
    decreases |line| - i
  {
    AfterOperand(ws, line, i);
    if AfterMnemonic(ws, line, i).None? && WordAt(ws, line, i) {
      BodyAtOperand(ws, line, p, i + 1);
    }
  }

  /** The parts of a line whose operand `o` has been replaced by a name of length `n`. */
  function WithOperand(p: Parts, tag: Option<Span>, o: Span, n: nat): Parts
    requires o.start <= o.end && Movable(p.comment, n - (o.end - o.start))
  {
    Parts(tag, p.mnemonic, Some(Span(o.start, o.start + n)), MovedOption(p.comment, n - (o.end - o.start)))
  }

  /** Whitespace before the operand ends where it did. */
  lemma SkipReplaced(ws: char -> bool, line: string, i: nat, o: Span, name: string, other: string)
    requires i <= |line| && Skip(ws, line, i) <= o.start && ReplacedBy(line, o, name, other)
    requires Skip(ws, line, i) == o.start ==> name != [] && !ws(name[0])
    ensures i <= |other| && Skip(ws, other, i) == Skip(ws, line, i)
  {
    var q := Skip(ws, line, i);
    RunAccepts(ws, line, Space, i);
    if q == o.start {
      assert other[q] == name[0];
    }
    RunEndIs(ws, other, Space, i, q);
  }

  /** The name stands where the operand did, after the same whitespace. */
  lemma OperandStands(ws: char -> bool, line: string, i: nat, o: Span, name: string, other: string)
    requires SpaceAt(ws, line, i) && i < o.start == Skip(ws, line, i)
    requires name != [] && Plain(ws, name, 0, |name|) && ReplacedBy(line, o, name, other)
    ensures SpaceAt(ws, other, i) && Skip(ws, other, i) == o.start && o.start < o.start + |name| <= |other|
    ensures WordAt(ws, other, o.start) && Plain(ws, other, o.start + 1, o.start + |name|)
  {
    SkipReplaced(ws, line, i, o, name, other);
    NameReads(ws, line, o, name, other);
    assert other[i] == line[i] && other[o.start] == name[0];
  }

  /** At the operator's end the new operand is found, and the old tail after it. */
  lemma AfterReplaced(ws: char -> bool, line: string, i: nat, o: Span, comment: Option<Span>, name: string, other: string)
    requires i < |line| && AfterMnemonic(ws, line, i) == Some((Some(o), comment))
    requires name != [] && Plain(ws, name, 0, |name|) && ReplacedBy(line, o, name, other)
    ensures i <= |other| && o.start <= o.end && Movable(comment, Growth(o, name))
    ensures AfterMnemonic(ws, other, i)
         == Some((Some(Span(o.start, o.start + |name|)), MovedOption(comment, Growth(o, name))))
  {
    AfterOperand(ws, line, i);
    var e := o.start + |name|;
    OperandStands(ws, line, i, o, name, other);
    TailMoves(ws, line, o.end, other, e, Growth(o, name), comment);
    OperandIs(ws, other, o.start, o.start + 1, e);
  }

  /** Where the operator goes on in one line it goes on in the other. */
  lemma StillOperator(ws: char -> bool, line: string, i: nat, other: string)
    requires i < |line| && i < |other| && other[i] == line[i]
    requires WordAt(ws, line, i) && AfterMnemonic(ws, line, i).None?
    ensures WordAt(ws, other, i) && AfterMnemonic(ws, other, i).None?
  {
    NoTailInside(ws, line, i);
    NoTailInside(ws, other, i);
  }

  /** Up to the operator's end the two lines are the same. */
  lemma {:induction false} BodyAtReplaced(
    ws: char -> bool, line: string, p: nat, i: nat, r: Parts, name: string, tag: Option<Span>, other: string)
    requires p <= i <= |line| && BodyAt(ws, line, p, i, None) == Some(r) && r.operand.Some?
    requires name != [] && Plain(ws, name, 0, |name|) && ReplacedBy(line, r.operand.value, name, other)
    ensures var o := r.operand.value;
      && i <= |other| && o.start <= o.end && Movable(r.comment, Growth(o, name))
      && BodyAt(ws, other, p, i, tag) == Some(WithOperand(r, tag, o, |name|))
    decreases |line| - i
  {
    var o := r.operand.value;
    BodyAtOperand(ws, line, p, i);
    if AfterMnemonic(ws, line, i).None? {
      assert other[i] == line[i];
      StillOperator(ws, line, i, other);
      BodyAtReplaced(ws, line, p, i + 1, r, name, tag, other);
    } else {
      AfterReplaced(ws, line, i, o, r.comment, name, other);
    }
  }

  /** The operator starts where it did. */
  lemma OperatorStarts(ws: char -> bool, line: string, start: nat, r: Parts, name: string, other: string)
    requires start <= |line| && Body(ws, line, start, None) == Some(r) && r.operand.Some?
    requires ReplacedBy(line, r.operand.value, name, other)
    ensures var p, o := Skip(ws, line, start), r.operand.value;
      && p + 1 <= |line| && BodyAt(ws, line, p, p + 1, None) == Some(r) && start <= p < o.start < o.end
      && start <= |other| && Skip(ws, other, start) == p && WordAt(ws, other, p)
  {
    var p := Skip(ws, line, start);
    BodyAtOperand(ws, line, p, p + 1);
    SkipReplaced(ws, line, start, r.operand.value, name, other);
    assert other[p] == line[p];
  }

  lemma BodyReplaced(ws: char -> bool, line: string, start: nat, r: Parts, name: string, tag: Option<Span>, other: string)
    requires start <= |line| && Body(ws, line, start, None) == Some(r) && r.operand.Some?
    requires name != [] && Plain(ws, name, 0, |name|) && ReplacedBy(line, r.operand.value, name, other)
    ensures var o := r.operand.value;
      && start < o.start < o.end && start <= |other| && Movable(r.comment, Growth(o, name))
      && Body(ws, other, start, tag) == Some(WithOperand(r, tag, o, |name|))
  {
    var p := Skip(ws, line, start);
    OperatorStarts(ws, line, start, r, name, other);
    BodyAtReplaced(ws, line, p, p + 1, r, name, tag, other);
  }

  /** Before the operand of an unlabelled line there is no comma, and none right after it. */
  lemma NoCommaAround(ws: char -> bool, line: string, start: nat, r: Parts)
    requires start <= |line| && Body(ws, line, start, None) == Some(r) && r.operand.Some?
    ensures var o := r.operand.value;
      && start < o.start < o.end <= |line|
      && (forall k :: start <= k < o.start ==> line[k] != ',' || ws(','))
      && Tail(ws, line, o.end).Some?
  {
    BodyShape(ws, line, start);
    var p := Skip(ws, line, start);
    BodyAtOperand(ws, line, p, p + 1);
    var o := r.operand.value;
    RunAccepts(ws, line, Space, start);
    RunAccepts(ws, line, Space, r.mnemonic.end);
    forall k | start <= k < o.start
      ensures line[k] != ',' || ws(',')
    {
      if r.mnemonic.end <= k {
        assert Accepts(Space, ws, line[k]);
      } else if p <= k {
        assert WordAt(ws, line, k);
      } else {
        assert Accepts(Space, ws, line[k]);
      }
    }
  }

  /** The run of label characters reaches past the operand, to what is no comma. */
  lemma RunPastOperand(ws: char -> bool, line: string, start: nat, o: Span, name: string, other: string)
    requires IsWhitespace(ws) && start < o.start < o.end <= |line| && Tail(ws, line, o.end).Some?
    requires forall k :: start <= k < o.start ==> line[k] != ',' && line[k] != '/'
    requires name != [] && Plain(ws, name, 0, |name|) && ReplacedBy(line, o, name, other)
    ensures start <= |other| && !At(other, RunEnd(ws, other, NotCommaOrSlash, start), ',')
  {
    var end := Skip(ws, line, o.end);
    var end' := end + Growth(o, name);
    RunAccepts(ws, line, Space, o.end);
    AlikeFurther(line, o.end, other, o.start + |name|, end - o.end);
    forall k | start <= k < end'
      ensures other[k] != ',' && other[k] != '/'
    {
      if o.start + |name| <= k {
        assert line[k - Growth(o, name)] == other[k];
      }
    }
    RunEndIs(ws, other, NotCommaOrSlash, start, end');
  }

  /** No label appears where there was none. */
  lemma StillNoLabel(ws: char -> bool, line: string, start: nat, r: Parts, name: string, other: string)
    requires IsWhitespace(ws) && start <= |line| && Body(ws, line, start, None) == Some(r) && r.operand.Some?
    requires WithLabel(ws, line, start).None?
    requires Plain(ws, line, r.operand.value.start, r.operand.value.end)
    requires name != [] && Plain(ws, name, 0, |name|) && ReplacedBy(line, r.operand.value, name, other)
    ensures start <= |other| && WithLabel(ws, other, start).None?
  {
    var o := r.operand.value;
    NoCommaAround(ws, line, start, r);
    var i := RunEnd(ws, line, NotCommaOrSlash, start);
    RunAccepts(ws, line, NotCommaOrSlash, start);
    if i < o.start {
      assert line[i] == '/' == other[i];
      RunEndIs(ws, other, NotCommaOrSlash, start, i);
    } else {
      RunPastOperand(ws, line, start, o, name, other);
    }
  }

  /** An unlabelled statement is the body right after the leading whitespace, if no label is there. */
  lemma FirstUnlabelled(ws: char -> bool, line: string, r: Parts)
    requires WithLabel(ws, line, Skip(ws, line, 0)).None? && Body(ws, line, Skip(ws, line, 0), None) == Some(r)
    ensures StatementOf(ws, line) == Some(r)
  {
  }

  lemma LabelStays(ws: char -> bool, line: string, t: Span, o: Span, name: string, other: string)
    requires LabelAt(ws, line, t) && t.end < o.start && ReplacedBy(line, o, name, other)
    ensures LabelAt(ws, other, t)
  {
    assert !ws(line[t.start]);
    SameLeading(ws, line, other);
  }

  lemma ReplaceLabelledOperand(ws: char -> bool, line: string, p: Parts, name: string, other: string)
    requires StatementOf(ws, line) == Some(p) && p.operand.Some? && p.tag.Some?
    requires p.tag.value.start < |line| && !ws(line[p.tag.value.start])
    requires name != [] && Plain(ws, name, 0, |name|) && ReplacedBy(line, p.operand.value, name, other)
    ensures var o := p.operand.value;
      && Skip(ws, line, 0) < o.start < o.end && Movable(p.comment, Growth(o, name))
      && StatementOf(ws, other) == Some(WithOperand(p, p.tag, o, |name|))
      && Skip(ws, other, 0) == Skip(ws, line, 0)
  {
    var t, o := p.tag.value, p.operand.value;
    LabelledBody(ws, line, p);
    BodyReplaced(ws, line, t.end + 1, p.(tag := None), name, p.tag, other);
    assert WithOperand(p.(tag := None), p.tag, o, |name|) == WithOperand(p, p.tag, o, |name|);
    LabelStays(ws, line, t, o, name, other);
    FirstLabelled(ws, other, t, WithOperand(p, p.tag, o, |name|));
  }

  lemma ReplaceUnlabelledOperand(ws: char -> bool, line: string, p: Parts, name: string, other: string)
    requires IsWhitespace(ws) && StatementOf(ws, line) == Some(p) && p.operand.Some? && p.tag.None?
    requires Plain(ws, line, p.operand.value.start, p.operand.value.end)
    requires name != [] && Plain(ws, name, 0, |name|) && ReplacedBy(line, p.operand.value, name, other)
    ensures var o := p.operand.value;
      && Skip(ws, line, 0) < o.start < o.end && Movable(p.comment, Growth(o, name))
      && StatementOf(ws, other) == Some(WithOperand(p, p.tag, o, |name|))
      && Skip(ws, other, 0) == Skip(ws, line, 0)
  {
    var o, leading := p.operand.value, Skip(ws, line, 0);
    FoundAtLeading(ws, line, p);
    BodyReplaced(ws, line, leading, p, name, None, other);
    SameLeading(ws, line, other);
    StillNoLabel(ws, line, leading, p, name, other);
    FirstUnlabelled(ws, other, WithOperand(p, p.tag, o, |name|));
  }

  lemma ReplaceOperand(ws: char -> bool, line: string, p: Parts, name: string, other: string)
    requires IsWhitespace(ws) && StatementOf(ws, line) == Some(p) && p.operand.Some?
    requires p.tag.Some? ==> p.tag.value.start < |line| && !ws(line[p.tag.value.start])
    requires Plain(ws, line, p.operand.value.start, p.operand.value.end)
    requires name != [] && Plain(ws, name, 0, |name|) && ReplacedBy(line, p.operand.value, name, other)
    ensures var o := p.operand.value;
      && Skip(ws, line, 0) < o.start < o.end && Movable(p.comment, Growth(o, name))
      && StatementOf(ws, other) == Some(WithOperand(p, p.tag, o, |name|))
      && Skip(ws, other, 0) == Skip(ws, line, 0)
  {
    if p.tag.Some? {
      ReplaceLabelledOperand(ws, line, p, name, other);
    } else {
      ReplaceUnlabelledOperand(ws, line, p, name, other);
    }
  }
}
