/**
 Applying a set of replacements to a text, all at once, as an editor does.
 */
module TextEdits {
  import opened Words
  import opened Lexer
  import opened Syntax

  predicate Begins(spans: set<Span>, i: nat) {
    exists s :: s in spans && s.start == i && s.start < s.end
  }

  predicate Covers(spans: set<Span>, i: nat) {
    exists s :: s in spans && s.start <= i < s.end
  }

  /** What becomes of the character at `i`: the text where a span begins, nothing inside one. */
  function Piece(source: string, spans: set<Span>, text: string, i: nat): string
    requires i < |source|
  {
    (if Begins(spans, i) then text else "") + (if Covers(spans, i) then "" else [source[i]])
  }

  function Edited(source: string, spans: set<Span>, text: string, from: nat, upto: nat): string
    requires from <= upto <= |source|
    decreases upto - from
  {
    if from == upto then "" else Piece(source, spans, text, from) + Edited(source, spans, text, from + 1, upto)
  }

  /** Every span replaced by the text, all positions meant in the original. */
  function ApplyEdits(source: string, spans: set<Span>, text: string): string {
    Edited(source, spans, text, 0, |source|)
  }

  // ----- the pieces, one after the other -----

  function Concat(pieces: seq<string>): string {
    if pieces == [] then "" else pieces[0] + Concat(pieces[1..])
  }

  lemma ConcatFirst(first: string, rest: seq<string>)
    ensures Concat([first] + rest) == first + Concat(rest)
  {
    assert ([first] + rest)[1..] == rest;
  }

  lemma {:induction false} ConcatSplit(x: seq<string>, y: seq<string>)
    ensures Concat(x + y) == Concat(x) + Concat(y)
    decreases |x|
  {
    if x == [] {
      assert x + y == y;
    } else {
      var rest := x[1..];
      assert x + y == [x[0]] + (rest + y);
      ConcatFirst(x[0], rest + y);
      ConcatSplit(rest, y);
      assert x[0] + (Concat(rest) + Concat(y)) == x[0] + Concat(rest) + Concat(y);
    }
  }

  function Pieces(source: string, spans: set<Span>, text: string): seq<string> {
    seq(|source|, i requires 0 <= i < |source| => Piece(source, spans, text, i))
  }

  lemma {:induction false} EditedGathers(source: string, spans: set<Span>, text: string, from: nat, upto: nat)
    requires from <= upto <= |source|
    ensures Edited(source, spans, text, from, upto) == Concat(Pieces(source, spans, text)[from..upto])
    decreases upto - from
  {
    if from < upto {
      var pieces := Pieces(source, spans, text);
      EditedGathers(source, spans, text, from + 1, upto);
      assert pieces[from..upto] == [pieces[from]] + pieces[from + 1..upto];
      ConcatFirst(pieces[from], pieces[from + 1..upto]);
    }
  }

  lemma EditedSplit(source: string, spans: set<Span>, text: string, a: nat, b: nat, c: nat)
    requires a <= b <= c <= |source|
    ensures Edited(source, spans, text, a, c) == Edited(source, spans, text, a, b) + Edited(source, spans, text, b, c)
  {
    EditedGathers(source, spans, text, a, c);
    EditedGathers(source, spans, text, a, b);
    EditedGathers(source, spans, text, b, c);
    var pieces := Pieces(source, spans, text);
    ConcatSplit(pieces[a..b], pieces[b..c]);
    assert pieces[a..c] == pieces[a..b] + pieces[b..c];
  }

  /** Outside every span the text is kept. */
  lemma {:induction false} EditedOutside(source: string, spans: set<Span>, text: string, a: nat, b: nat)
    requires a <= b <= |source|
    requires forall i: nat :: a <= i < b ==> !Covers(spans, i)
    ensures Edited(source, spans, text, a, b) == source[a..b]
    decreases b - a
  {
    if a < b {
      if Begins(spans, a) {
        assert Covers(spans, a);
      }
      EditedOutside(source, spans, text, a + 1, b);
      assert source[a..b] == [source[a]] + source[a + 1..b];
      assert Piece(source, spans, text, a) == [source[a]];
    }
  }

  ghost predicate Disjoint(s: Span, t: Span) {
    s.end <= t.start || t.end <= s.start
  }

  lemma {:induction false} EditedInside(source: string, spans: set<Span>, text: string, s: Span, a: nat)
    requires s in spans && s.start < a <= s.end <= |source|
    requires forall t :: t in spans && t != s ==> Disjoint(s, t)
    ensures Edited(source, spans, text, a, s.end) == ""
    decreases s.end - a
  {
    if a < s.end {
      assert Covers(spans, a);
      assert !Begins(spans, a);
      EditedInside(source, spans, text, s, a + 1);
    }
  }

  /** A span disjoint from the others becomes the text. */
  lemma EditedSpan(source: string, spans: set<Span>, text: string, s: Span)
    requires s in spans && s.start < s.end <= |source|
    requires forall t :: t in spans && t != s ==> Disjoint(s, t)
    ensures Edited(source, spans, text, s.start, s.end) == text
  {
    assert Begins(spans, s.start) && Covers(spans, s.start);
    EditedInside(source, spans, text, s, s.start + 1);
    assert text + "" + "" == text;
  }

  /** The same character, edited the same way. */
  ghost predicate AlikeAt(source: string, spans: set<Span>, line: string, local: set<Span>, base: nat, i: nat) {
    && base + i < |source| && i < |line| && source[base + i] == line[i]
    && Begins(spans, base + i) == Begins(local, i) && Covers(spans, base + i) == Covers(local, i)
  }

  lemma PieceAlike(source: string, spans: set<Span>, line: string, local: set<Span>, text: string, base: nat, i: nat)
    requires AlikeAt(source, spans, line, local, base, i)
    ensures Pieces(source, spans, text)[base + i] == Pieces(line, local, text)[i]
  {
  }

  ghost predicate LineAlike(source: string, spans: set<Span>, line: string, local: set<Span>, base: nat) {
    base + |line| <= |source| && forall i: nat :: i < |line| ==> AlikeAt(source, spans, line, local, base, i)
  }

  lemma PiecesAlike(source: string, spans: set<Span>, line: string, local: set<Span>, text: string, base: nat)
    requires LineAlike(source, spans, line, local, base)
    ensures Pieces(source, spans, text)[base..base + |line|] == Pieces(line, local, text)
  {
    forall i: nat | i < |line|
      ensures Pieces(source, spans, text)[base + i] == Pieces(line, local, text)[i]
    {
      assert AlikeAt(source, spans, line, local, base, i);
      PieceAlike(source, spans, line, local, text, base, i);
    }
  }

  /** Two texts that read alike over a range, with the same edits there, are edited alike. */
  lemma EditedAlike(source: string, spans: set<Span>, line: string, local: set<Span>, text: string, base: nat)
    requires LineAlike(source, spans, line, local, base)
    ensures Edited(source, spans, text, base, base + |line|) == Edited(line, local, text, 0, |line|)
  {
    EditedGathers(source, spans, text, base, base + |line|);
    EditedGathers(line, local, text, 0, |line|);
    PiecesAlike(source, spans, line, local, text, base);
    assert Pieces(line, local, text)[0..|line|] == Pieces(line, local, text);
  }

  /**
   Replacing all spans at once is replacing the last one and then the others in what
   precedes it, so it is what applying them one by one from the end does.
   */
  lemma ApplyLastFirst(source: string, spans: set<Span>, text: string, s: Span)
    requires s in spans && s.start < s.end <= |source|
    requires forall t :: t in spans && t != s ==> t.end <= s.start
    ensures ApplyEdits(source, spans, text)
         == ApplyEdits(source[..s.start], spans - {s}, text) + text + source[s.end..]
  {
    var before, others := source[..s.start], spans - {s};
    EditedSplit(source, spans, text, 0, s.start, |source|);
    EditedSplit(source, spans, text, s.start, s.end, |source|);
    EditedSpan(source, spans, text, s);
    assert forall i: nat :: s.end <= i < |source| ==> !Covers(spans, i);
    EditedOutside(source, spans, text, s.end, |source|);
    forall i: nat | 0 <= i < |before|
      ensures AlikeAt(source, spans, before, others, 0, i)
    {
      if Begins(spans, i) {
        var t :| t in spans && t.start == i && t.start < t.end;
        assert t in others;
      }
      if Covers(spans, i) {
        var t :| t in spans && t.start <= i < t.end;
        assert t in others;
      }
    }
    EditedAlike(source, spans, before, others, text, 0);
    assert source[s.end..|source|] == source[s.end..];
  }

  // ----- edits that stay within lines -----

  /** How one line is edited: where, into what, and whether it is the last live one. */
  datatype LineEditor = LineEditor(spans: string -> set<Span>, edited: string -> string, last: string -> bool)

  /** The spans of a line are inside it. */
  ghost predicate Inside(spans: set<Span>, line: string) {
    forall s :: s in spans ==> s.start < s.end <= |line|
  }

  ghost predicate StaysInside(e: LineEditor) {
    forall line :: Inside(e.spans(line), line)
  }

  /** Editing its spans is what the editor does to a line. */
  ghost predicate EditsLine(e: LineEditor, text: string, line: string) {
    Edited(line, e.spans(line), text, 0, |line|) == e.edited(line)
  }

  ghost predicate EditsLines(e: LineEditor, text: string) {
    StaysInside(e) && forall line :: EditsLine(e, text, line)
  }

  function ShiftAll(spans: set<Span>, base: nat): set<Span> {
    set s | s in spans :: s.Shift(base)
  }

  /** The spans of all live lines, the first of which starts at `base`. */
  function AllSpans(e: LineEditor, lines: seq<string>, base: nat, stopped: bool): set<Span> {
    if lines == [] || stopped then {}
    else ShiftAll(e.spans(lines[0]), base) + AllSpans(e, lines[1..], base + |lines[0]| + 1, e.last(lines[0]))
  }

  /** The edited lines; what follows the last live one is left alone. */
  function EditedLines(e: LineEditor, lines: seq<string>, stopped: bool): (r: seq<string>)
    ensures |r| == |lines|
  {
    if lines == [] || stopped then lines
    else [e.edited(lines[0])] + EditedLines(e, lines[1..], e.last(lines[0]))
  }

  lemma {:induction false} AllSpansAfter(e: LineEditor, lines: seq<string>, base: nat, stopped: bool)
    requires StaysInside(e)
    ensures forall s :: s in AllSpans(e, lines, base, stopped) ==> base <= s.start < s.end
    decreases |lines|
  {
    if lines != [] && !stopped {
      assert Inside(e.spans(lines[0]), lines[0]);
      AllSpansAfter(e, lines[1..], base + |lines[0]| + 1, e.last(lines[0]));
    }
  }

  /** From `base` on, the text is these lines. */
  ghost predicate TextFrom(source: string, lines: seq<string>, base: nat) {
    lines != [] && base + |Join(lines)| == |source| && source[base..] == Join(lines)
  }

  /** From `base` on, the spans are those of these lines. */
  ghost predicate SpansFrom(spans: set<Span>, e: LineEditor, lines: seq<string>, base: nat, stopped: bool) {
    && AllSpans(e, lines, base, stopped) <= spans
    && forall s :: s in spans ==> s in AllSpans(e, lines, base, stopped) || s.end <= base
  }

  lemma FirstLineText(source: string, lines: seq<string>, base: nat)
    requires TextFrom(source, lines, base)
    ensures base + |lines[0]| <= |source|
    ensures forall i :: 0 <= i < |lines[0]| ==> source[base + i] == lines[0][i]
    ensures |lines| == 1 ==> base + |lines[0]| == |source|
    ensures |lines| > 1 ==>
      var next := base + |lines[0]| + 1;
      TextFrom(source, lines[1..], next) && source[next - 1] == '\n'
  {
    var tail := source[base..];
    forall i | 0 <= i < |lines[0]|
      ensures source[base + i] == lines[0][i]
    {
      assert source[base + i] == tail[i] == Join(lines)[i];
    }
    if |lines| > 1 {
      var n := |lines[0]|;
      var rest := Join(lines[1..]);
      assert Join(lines) == lines[0] + (['\n'] + rest);
      assert source[base + n] == tail[n] == '\n';
      assert source[base + n + 1..] == tail[n + 1..];
      assert Join(lines)[n + 1..] == rest;
    }
  }

  /** A span that reaches into the first line or its end is one of that line's. */
  lemma SpanOfFirstLine(
    spans: set<Span>, e: LineEditor, lines: seq<string>, base: nat, s: Span) returns (local: Span)
    requires StaysInside(e) && lines != [] && SpansFrom(spans, e, lines, base, false)
    requires s in spans && base < s.end && s.start <= base + |lines[0]|
    ensures local in e.spans(lines[0]) && s == local.Shift(base)
  {
    AllSpansAfter(e, lines[1..], base + |lines[0]| + 1, e.last(lines[0]));
    assert s in ShiftAll(e.spans(lines[0]), base);
    local :| local in e.spans(lines[0]) && local.Shift(base) == s;
  }

  /** Positions of the first line are covered by that line's spans and by no others; its newline by none. */
  lemma FirstLineEdits(
    spans: set<Span>, e: LineEditor, lines: seq<string>, base: nat, i: nat)
    requires StaysInside(e) && lines != [] && SpansFrom(spans, e, lines, base, false) && i <= |lines[0]|
    ensures Begins(spans, base + i) == Begins(e.spans(lines[0]), i)
    ensures Covers(spans, base + i) == Covers(e.spans(lines[0]), i)
  {
    var here := e.spans(lines[0]);
    if Begins(spans, base + i) {
      var s :| s in spans && s.start == base + i && s.start < s.end;
      var local := SpanOfFirstLine(spans, e, lines, base, s);
      assert local.start == i && local.start < local.end;
    }
    if Covers(spans, base + i) {
      var s :| s in spans && s.start <= base + i < s.end;
      var local := SpanOfFirstLine(spans, e, lines, base, s);
      assert local.start <= i < local.end;
    }
    if Begins(here, i) {
      var s :| s in here && s.start == i && s.start < s.end;
      assert s.Shift(base) in spans && s.Shift(base).start == base + i;
    }
    if Covers(here, i) {
      var s :| s in here && s.start <= i < s.end;
      assert s.Shift(base) in spans && s.Shift(base).start <= base + i < s.Shift(base).end;
    }
  }

  lemma FirstLineAlike(
    source: string, spans: set<Span>, e: LineEditor, lines: seq<string>, base: nat, i: nat)
    requires StaysInside(e) && TextFrom(source, lines, base) && SpansFrom(spans, e, lines, base, false)
    requires i < |lines[0]|
    ensures AlikeAt(source, spans, lines[0], e.spans(lines[0]), base, i)
  {
    FirstLineText(source, lines, base);
    FirstLineEdits(spans, e, lines, base, i);
  }

  lemma FirstLineIsAlike(source: string, spans: set<Span>, e: LineEditor, lines: seq<string>, base: nat)
    requires StaysInside(e) && TextFrom(source, lines, base) && SpansFrom(spans, e, lines, base, false)
    ensures LineAlike(source, spans, lines[0], e.spans(lines[0]), base)
  {
    FirstLineText(source, lines, base);
    forall i: nat | i < |lines[0]|
      ensures AlikeAt(source, spans, lines[0], e.spans(lines[0]), base, i)
    {
      FirstLineAlike(source, spans, e, lines, base, i);
    }
  }

  ghost predicate KeepsNewline(source: string, spans: set<Span>, i: nat) {
    i < |source| && source[i] == '\n' && !Begins(spans, i) && !Covers(spans, i)
  }

  lemma NewlineKept(source: string, spans: set<Span>, e: LineEditor, lines: seq<string>, base: nat)
    requires StaysInside(e) && TextFrom(source, lines, base) && SpansFrom(spans, e, lines, base, false) && |lines| > 1
    ensures KeepsNewline(source, spans, base + |lines[0]|)
  {
    FirstLineText(source, lines, base);
    FirstLineEdits(spans, e, lines, base, |lines[0]|);
    assert Inside(e.spans(lines[0]), lines[0]);
  }

  lemma SpansNext(spans: set<Span>, e: LineEditor, lines: seq<string>, base: nat)
    requires StaysInside(e) && lines != [] && SpansFrom(spans, e, lines, base, false)
    ensures SpansFrom(spans, e, lines[1..], base + |lines[0]| + 1, e.last(lines[0]))
  {
    assert Inside(e.spans(lines[0]), lines[0]);
  }

  /** Line after line, the text is edited as the line is; breaks and dead text are kept. */
  ghost predicate EditedByLine(source: string, spans: set<Span>, e: LineEditor, lines: seq<string>, base: nat, stopped: bool)
    decreases |lines|
  {
    && lines != [] && base <= |source|
    && if stopped then
         (forall i: nat :: base <= i < |source| ==> !Covers(spans, i)) && source[base..] == Join(lines)
       else
         var end := base + |lines[0]|;
         && LineAlike(source, spans, lines[0], e.spans(lines[0]), base)
         && if |lines| == 1 then end == |source|
            else KeepsNewline(source, spans, end)
                 && EditedByLine(source, spans, e, lines[1..], end + 1, e.last(lines[0]))
  }

  lemma {:induction false} SpansEditByLine(
    source: string, spans: set<Span>, e: LineEditor, lines: seq<string>, base: nat, stopped: bool)
    requires StaysInside(e) && TextFrom(source, lines, base) && SpansFrom(spans, e, lines, base, stopped)
    ensures EditedByLine(source, spans, e, lines, base, stopped)
    decreases |lines|
  {
    if !stopped {
      FirstLineIsAlike(source, spans, e, lines, base);
      FirstLineText(source, lines, base);
      if |lines| > 1 {
        NewlineKept(source, spans, e, lines, base);
        SpansNext(spans, e, lines, base);
        SpansEditByLine(source, spans, e, lines[1..], base + |lines[0]| + 1, e.last(lines[0]));
      }
    }
  }

  lemma JoinEdited(e: LineEditor, lines: seq<string>)
    requires |lines| > 1
    ensures Join(EditedLines(e, lines, false))
         == e.edited(lines[0]) + (['\n'] + Join(EditedLines(e, lines[1..], e.last(lines[0]))))
  {
    var renamed := EditedLines(e, lines, false);
    assert renamed[0] == e.edited(lines[0]) && renamed[1..] == EditedLines(e, lines[1..], e.last(lines[0]));
    assert renamed[0] + ['\n'] + Join(renamed[1..]) == renamed[0] + (['\n'] + Join(renamed[1..]));
  }

  lemma FirstLineEdited(
    source: string, spans: set<Span>, e: LineEditor, text: string, line: string, base: nat)
    requires LineAlike(source, spans, line, e.spans(line), base) && EditsLine(e, text, line)
    ensures base + |line| <= |source| && Edited(source, spans, text, base, base + |line|) == e.edited(line)
    ensures Edited(source, spans, text, base, |source|)
         == e.edited(line) + Edited(source, spans, text, base + |line|, |source|)
  {
    EditedAlike(source, spans, line, e.spans(line), text, base);
    EditedSplit(source, spans, text, base, base + |line|, |source|);
  }

  lemma BreakEdited(source: string, spans: set<Span>, text: string, i: nat)
    requires KeepsNewline(source, spans, i)
    ensures Edited(source, spans, text, i, |source|) == ['\n'] + Edited(source, spans, text, i + 1, |source|)
  {
    assert Piece(source, spans, text, i) == ['\n'];
  }

  lemma {:induction false} ByLineJoins(
    source: string, spans: set<Span>, e: LineEditor, text: string, lines: seq<string>, base: nat, stopped: bool)
    requires EditsLines(e, text) && EditedByLine(source, spans, e, lines, base, stopped)
    ensures Edited(source, spans, text, base, |source|) == Join(EditedLines(e, lines, stopped))
    decreases |lines|
  {
    if stopped {
      EditedOutside(source, spans, text, base, |source|);
      assert source[base..|source|] == source[base..];
    } else {
      var end := base + |lines[0]|;
      assert EditsLine(e, text, lines[0]);
      FirstLineEdited(source, spans, e, text, lines[0], base);
      if |lines| == 1 {
        assert EditedLines(e, lines, false) == [e.edited(lines[0])];
        assert e.edited(lines[0]) + "" == e.edited(lines[0]);
      } else {
        BreakEdited(source, spans, text, end);
        ByLineJoins(source, spans, e, text, lines[1..], end + 1, e.last(lines[0]));
        JoinEdited(e, lines);
      }
    }
  }

  /** Edits never cross a line break, so editing the text is editing its lines. */
  lemma TextEdited(
    source: string, spans: set<Span>, e: LineEditor, text: string, lines: seq<string>, base: nat, stopped: bool)
    requires EditsLines(e, text) && TextFrom(source, lines, base) && SpansFrom(spans, e, lines, base, stopped)
    ensures Edited(source, spans, text, base, |source|) == Join(EditedLines(e, lines, stopped))
  {
    SpansEditByLine(source, spans, e, lines, base, stopped);
    ByLineJoins(source, spans, e, text, lines, base, stopped);
  }
}
