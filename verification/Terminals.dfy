/**
 Typed input (crates/lib/mrs-vm/src/io.rs:124-223) and the debugger's device, which reads it
 and can be rewound (crates/bin/marie/src/debug.rs:60-119).
 */
module Terminals {
  import opened Words
  import opened Literals
  import opened Devices

  // ----- what a line yields -----

  datatype InputMode = WordMode | Utf16Mode

  /** The code units of one character: one below U+10000, a surrogate pair above. */
  function Units(c: char): (units: seq<Word>)
    ensures |units| == if c as int < 0x1_0000 then 1 else 2
  {
    var code := c as int;
    if code < 0x1_0000 then [code]
    else [0xD800 + (code - 0x1_0000) / 0x400, 0xDC00 + (code - 0x1_0000) % 0x400]
  }

  function Utf16(text: string): seq<Word> {
    if text == [] then [] else Units(text[0]) + Utf16(text[1..])
  }

  /** One `\n` is dropped from the end, then one `\r`. */
  function WithoutEnding(line: string): string {
    var n := |line|;
    var text := if n > 0 && line[n - 1] == '\n' then line[..n - 1] else line;
    var m := |text|;
    if m > 0 && text[m - 1] == '\r' then text[..m - 1] else text
  }

  /** `InputMode::decode`: the words of a line, or nothing for a line that does not parse. */
  function Decode(ws: char -> bool, mode: InputMode, line: string): Option<seq<Word>> {
    match mode
    case WordMode =>
      var trimmed := TrimStart(ws, TrimEnd(ws, line));
      if trimmed == [] then Some([])
      else
        (match ParsePrefixedWord(ws, trimmed)
         case Fits(value) => Some([value])
         case Bad(_) => None)
    case Utf16Mode => Some(Utf16(WithoutEnding(line)))
  }

  /** The character that code units start with, and how many of them it took. */
  function FirstCharacter(units: seq<Word>): Option<(char, nat)> {
    if units == [] then None
    else if units[0] < 0xD800 || units[0] >= 0xE000 then Some((units[0] as char, 1))
    else if units[0] < 0xDC00 && |units| > 1 && 0xDC00 <= units[1] < 0xE000 then
      var high: int, low: int := units[0] as int - 0xD800, units[1] as int - 0xDC00;
      Some(((high * 0x400 + low + 0x1_0000) as char, 2))
    else None
  }

  /** Reads code units back; nothing if a surrogate stands alone. */
  function Characters(units: seq<Word>): Option<string>
    decreases |units|
  {
    if units == [] then Some([])
    else
      match FirstCharacter(units)
      case None => None
      case Some((c, n)) =>
        match Characters(units[n..])
        case None => None
        case Some(rest) => Some([c] + rest)
  }

  lemma FirstOfUnits(c: char, rest: seq<Word>)
    ensures FirstCharacter(Units(c) + rest) == Some((c, |Units(c)|))
  {
  }

  /** A program fed a line of text can put it together again, whatever characters it has. */
  lemma {:induction false} Utf16RoundTrips(text: string)
    ensures Characters(Utf16(text)) == Some(text)
    decreases |text|
  {
    if text != [] {
      var first, rest := Units(text[0]), Utf16(text[1..]);
      FirstOfUnits(text[0], rest);
      assert (first + rest)[|first|..] == rest;
      Utf16RoundTrips(text[1..]);
      assert Characters(first + rest) == Some([text[0]] + text[1..]);
      assert [text[0]] + text[1..] == text;
    }
  }

  lemma TrimmedTwice(ws: char -> bool, s: string)
    ensures var t := TrimStart(ws, TrimEnd(ws, s));
      TrimStart(ws, TrimEnd(ws, t)) == t
  {
    var e := TrimEnd(ws, s);
    var t := TrimStart(ws, e);
    TrimStartKeepsEnd(ws, e);
    if t != [] {
      assert t[|t| - 1] == e[|e| - 1];
      assert TrimEnd(ws, t) == t;
    }
  }

  /** Blanks around a literal are trimmed anyway. */
  lemma ParsesTrimmed(ws: char -> bool, line: string)
    ensures ParsePrefixedWord(ws, TrimStart(ws, TrimEnd(ws, line))) == ParsePrefixedWord(ws, line)
  {
    TrimmedTwice(ws, line);
    assert SplitPrefixedSign(ws, TrimStart(ws, TrimEnd(ws, line))) == SplitPrefixedSign(ws, line);
  }

  /** What a line of one literal feeds: a word that fits, or nothing, and then it is asked for again. */
  function Fed(parsed: ParsedWord): Option<seq<Word>> {
    if parsed.Fits? then Some([parsed.value]) else None
  }

  lemma DecodesItsLiteral(ws: char -> bool, line: string)
    requires TrimStart(ws, TrimEnd(ws, line)) != []
    ensures Decode(ws, WordMode, line) == Fed(ParsePrefixedWord(ws, line))
  {
    ParsesTrimmed(ws, line);
  }

  /** In word mode a line is blank, or the integer it spells, or asked for again; it never feeds more than one `Input`. */
  lemma TypedWordsMeanTheirInteger(ws: char -> bool, line: string)
    ensures TrimStart(ws, TrimEnd(ws, line)) == [] ==> Decode(ws, WordMode, line) == Some([])
    ensures TrimStart(ws, TrimEnd(ws, line)) != [] ==>
      var (negative, radix, digits) := PrefixedParts(ws, line);
      Decode(ws, WordMode, line) == Fed(Meant(negative, digits, radix.Base()))
  {
    if TrimStart(ws, TrimEnd(ws, line)) != [] {
      DecodesItsLiteral(ws, line);
      PrefixedLiteralsMeanTheirInteger(ws, line);
    }
  }

  // ----- the terminal -----

  /** How typed lines become words, and how reading fails once nothing more is typed. */
  datatype Typing = Typing(words: string -> seq<Word>, ending: IoError)

  /** The terminal of the frontends: a line that does not parse feeds nothing. */
  function TypingIn(ws: char -> bool, mode: InputMode, ending: IoError): Typing {
    Typing((line: string) => match Decode(ws, mode, line) case Some(words) => words case None => [], ending)
  }

  /** What the frontends' terminal feeds for one line, in text and in word mode. */
  lemma TypedLinesAreFed(ws: char -> bool, line: string, ending: IoError)
    ensures Characters(TypingIn(ws, Utf16Mode, ending).words(line)) == Some(WithoutEnding(line))
    ensures TrimStart(ws, TrimEnd(ws, line)) != [] ==>
      var (negative, radix, digits) := PrefixedParts(ws, line);
      var parsed := Meant(negative, digits, radix.Base());
      TypingIn(ws, WordMode, ending).words(line) == if parsed.Fits? then [parsed.value] else []
  {
    Utf16RoundTrips(WithoutEnding(line));
    TypedWordsMeanTheirInteger(ws, line);
  }

  function WordsOf(typing: Typing, lines: seq<string>): seq<Word> {
    if lines == [] then [] else typing.words(lines[0]) + WordsOf(typing, lines[1..])
  }

  /** Reads lines until one yields a word; at the end both parts come back empty. */
  function Prompt(typing: Typing, queue: seq<Word>, lines: seq<string>): (r: (seq<Word>, seq<string>))
    ensures r.0 + WordsOf(typing, r.1) == queue + WordsOf(typing, lines)
    ensures r.0 == [] ==> r.1 == []
    decreases |lines|
  {
    if queue != [] || lines == [] then (queue, lines) else Prompt(typing, typing.words(lines[0]), lines[1..])
  }

  /**
   `prompt_stdin` with its loop: the next word of everything queued and typed, in order, and
   all the words after it still to come; or the failure, once there is none.
   */
  method PromptStdin(typing: Typing, queue: seq<Word>, lines: seq<string>)
    returns (answer: Poll, newQueue: seq<Word>, newLines: seq<string>)
    ensures var words := queue + WordsOf(typing, lines);
      && (words == [] ==> answer == Failed(typing.ending))
      && (words != [] ==> answer == Ready(words[0]))
      && newQueue + WordsOf(typing, newLines) == if words == [] then [] else words[1..]
    ensures var (rest, left) := Prompt(typing, queue, lines);
      newLines == left && newQueue == if rest == [] then [] else rest[1..]
  {
    newQueue, newLines := queue, lines;
    while newQueue == [] && newLines != []
      invariant Prompt(typing, newQueue, newLines) == Prompt(typing, queue, lines)
      decreases |newLines|
    {
      newQueue, newLines := typing.words(newLines[0]), newLines[1..];
    }
    assert newQueue + WordsOf(typing, newLines) == queue + WordsOf(typing, lines);
    if newQueue == [] {
      return Failed(typing.ending), newQueue, newLines;
    }
    assert newQueue[1..] + WordsOf(typing, newLines) == (newQueue + WordsOf(typing, newLines))[1..];
    answer := Ready(newQueue[0]);
    newQueue := newQueue[1..];
  }

  // ----- ReplayIo: the debugger's device over a terminal -----

  /** `terminal` holds the lines still to be typed; `typed` is left over from the last one. */
  datatype ReplayIo = ReplayIo(pending: seq<Word>, typed: seq<Word>, terminal: seq<string>, outputs: seq<Word>) {
    function Poll(typing: Typing): (ReplayIo, Poll) {
      if pending != [] then (this.(pending := pending[1..]), Ready(pending[0]))
      else
        var (rest, lines) := Prompt(typing, typed, terminal);
        if rest == [] then (this.(typed := [], terminal := []), Failed(typing.ending))
        else (this.(typed := rest[1..], terminal := lines), Ready(rest[0]))
    }

    function Output(v: Word): (ReplayIo, Option<IoError>) {
      (this.(outputs := outputs + [v]), None)
    }

    function Unread(v: Word): (ReplayIo, bool) {
      (this.(pending := [v] + pending), true)
    }

    function Unwrite(v: Word): (ReplayIo, bool) {
      if outputs != [] && outputs[|outputs| - 1] == v then (this.(outputs := outputs[..|outputs| - 1]), true)
      else (this, false)
    }

    /** Everything the program can still read, in order. */
    function Stream(typing: Typing): seq<Word> {
      pending + typed + WordsOf(typing, terminal)
    }

    /** The scripted device with the same future inputs and the same outputs. */
    function AsVecIo(typing: Typing): VecIo {
      VecIo(Stream(typing), outputs)
    }
  }

  function TerminalIo(typing: Typing): Device<ReplayIo> {
    Device(
      (d: ReplayIo) => d.Poll(typing),
      (d: ReplayIo, v: Word) => d.Output(v),
      (d: ReplayIo, v: Word) => d.Unread(v),
      (d: ReplayIo, v: Word) => d.Unwrite(v),
      (d: ReplayIo, i: nat, p: Word) => d)
  }

  function ReplayView(typing: Typing): ReplayIo -> VecIo {
    (d: ReplayIo) => d.AsVecIo(typing)
  }

  lemma ReplayPoll(d: ReplayIo, typing: Typing)
    ensures (d.Poll(typing).0.AsVecIo(typing), d.Poll(typing).1) == d.AsVecIo(typing).Poll(typing.ending)
  {
    if d.pending != [] {
      assert d.pending[1..] + d.typed + WordsOf(typing, d.terminal) == d.Stream(typing)[1..];
    } else {
      var (rest, lines) := Prompt(typing, d.typed, d.terminal);
      assert d.Stream(typing) == rest + WordsOf(typing, lines);
      if rest != [] {
        assert [] + rest[1..] + WordsOf(typing, lines) == d.Stream(typing)[1..];
      }
    }
  }

  /**
   The two-queue device behaves like a scripted one fed the pushed-back values, then the
   queued words, then those of the lines to come: rewinding moves words between the queues,
   and no reader can tell.
   */
  lemma ReplayIoSimulatesVecIo(typing: Typing)
    ensures Simulates(TerminalIo(typing), ScriptedIo(typing.ending), ReplayView(typing))
  {
    var dev, model, view := TerminalIo(typing), ScriptedIo(typing.ending), ReplayView(typing);
    forall d: ReplayIo
      ensures (view(dev.poll(d).0), dev.poll(d).1) == model.poll(view(d))
    {
      ReplayPoll(d, typing);
    }
    forall d: ReplayIo, v: Word
      ensures (view(dev.unread(d, v).0), dev.unread(d, v).1) == model.unread(view(d), v)
    {
      assert [v] + d.pending + d.typed + WordsOf(typing, d.terminal) == [v] + d.Stream(typing);
    }
  }
}
