/** The incremental parser of the notification stream (compare section 9.2.6 of the WHATWG HTML Standard). */
module EventStream {
  import opened Wrappers
  import opened Strings

  const CR := '\r'
  const LF := '\n'

  // ---------- Pure pieces ----------

  /** Length of a line break at the start of `s`, matching \r?\n; zero if there is none. */
  function BreakAt(s: string): nat {
    if |s| > 0 && s[0] == LF then 1
    else if |s| > 1 && s[0] == CR && s[1] == LF then 2
    else 0
  }

  /** Length of a frame separator at the start of `s`, matching \r?\n\r?\n; zero if there is none. */
  function SeparatorAt(s: string): (n: nat)
    ensures n <= |s|
  {
    var first := BreakAt(s);
    if first == 0 then 0
    else
      var second := BreakAt(s[first..]);
      if second == 0 then 0 else first + second
  }

  datatype Cut = Cut(at: nat, length: nat)

  /** The leftmost frame separator. */
  function Boundary(s: string): (r: Option<Cut>)
    ensures r.Some? ==> r.value.at + r.value.length <= |s| && r.value.length > 0
  {
    if s == "" then None
    else if SeparatorAt(s) > 0 then Some(Cut(0, SeparatorAt(s)))
    else
      var c := Boundary(s[1..]);
      if c.Some? then Some(c.value.(at := c.value.at + 1)) else None
  }

  /** split(/\r?\n/) */
  function Lines(s: string): (lines: seq<string>)
    ensures |lines| > 0
    decreases |s|
  {
    if s == "" then [""]
    else if BreakAt(s) > 0 then [""] + Lines(s[BreakAt(s)..])
    else
      var rest := Lines(s[1..]);
      [[s[0]] + rest[0]] + rest[1..]
  }

  const FIELD := "data:"

  predicate IsData(line: string) {
    FIELD <= line
  }

  function ValueOf(line: string): string
    requires IsData(line)
  {
    var value := line[|FIELD|..];
    if |value| > 0 && value[0] == ' ' then value[1..] else value
  }

  function Values(lines: seq<string>): seq<string> {
    if lines == [] then []
    else (if IsData(lines[0]) then [ValueOf(lines[0])] else []) + Values(lines[1..])
  }

  function Data(frame: string): string {
    Join(Values(Lines(frame)), LF)
  }

  /** One frame and the separator that ended it. */
  datatype Frame = Frame(text: string, separator: string)

  function FrameOf(s: string): Frame
    requires Boundary(s).Some?
  {
    var c := Boundary(s).value;
    Frame(s[..c.at], s[c.at..c.at + c.length])
  }

  function After(s: string): (rest: string)
    requires Boundary(s).Some?
    ensures |rest| < |s|
  {
    s[Boundary(s).value.at + Boundary(s).value.length..]
  }

  function Frames(s: string): seq<Frame>
    decreases |s|
  {
    if Boundary(s).None? then [] else [FrameOf(s)] + Frames(After(s))
  }

  function Leftover(s: string): string
    decreases |s|
  {
    if Boundary(s).None? then s else Leftover(After(s))
  }

  /** The messages handed to the callback; frames without data are dropped. */
  function Messages(frames: seq<Frame>): seq<string> {
    if frames == [] then []
    else (if Data(frames[0].text) != "" then [Data(frames[0].text)] else []) + Messages(frames[1..])
  }

  function Concat(parts: seq<string>): string {
    if parts == [] then "" else parts[0] + Concat(parts[1..])
  }

  // ---------- The parser ----------

  method ConsumeNotificationStream(chunks: seq<string>) returns (emitted: seq<string>, buffer: string)
    ensures emitted == Messages(Frames(Concat(chunks)))
    ensures buffer == Leftover(Concat(chunks))
  {
    buffer, emitted := "", [];
    var i := 0;
    while i < |chunks|
      invariant 0 <= i <= |chunks|
      invariant emitted == Messages(Frames(Concat(chunks[..i])))
      invariant buffer == Leftover(Concat(chunks[..i]))
    {
      ghost var before := Concat(chunks[..i]);
      var data;
      data, buffer := Drain(buffer + chunks[i]);
      emitted := emitted + data;
      FeedMore(before, chunks[i]);
      ConcatLast(chunks[..i], chunks[i]);
      assert chunks[..i + 1] == chunks[..i] + [chunks[i]];
      i := i + 1;
    }
    assert chunks[..i] == chunks;
  }

  /** The inner loop: emits every complete frame of the buffer. */
  method Drain(input: string) returns (emitted: seq<string>, buffer: string)
    ensures emitted == Messages(Frames(input)) && buffer == Leftover(input)
  {
    buffer, emitted := input, [];
    var boundary := Boundary(buffer);
    while boundary.Some?
      invariant boundary == Boundary(buffer)
      invariant emitted + Messages(Frames(buffer)) == Messages(Frames(input))
      invariant Leftover(buffer) == Leftover(input)
      decreases |buffer|
    {
      TakeFrame(buffer);
      var frame := FrameOf(buffer);
      buffer := After(buffer);
      emitted := emitted + MessageIn(frame);
      boundary := Boundary(buffer);
    }
  }

  function MessageIn(f: Frame): seq<string> {
    if Data(f.text) != "" then [Data(f.text)] else []
  }

  lemma TakeFrame(s: string)
    requires Boundary(s).Some?
    ensures Messages(Frames(s)) == MessageIn(FrameOf(s)) + Messages(Frames(After(s)))
    ensures Leftover(s) == Leftover(After(s))
  {
    assert Frames(s)[1..] == Frames(After(s));
  }

  lemma {:induction false} ConcatLast(parts: seq<string>, last: string)
    ensures Concat(parts + [last]) == Concat(parts) + last
  {
    if parts != [] {
      assert (parts + [last])[1..] == parts[1..] + [last];
      ConcatLast(parts[1..], last);
    }
  }

  // ---------- Cutting the text differently changes nothing ----------

  lemma SeparatorIsStable(s: string, more: string)
    requires SeparatorAt(s) > 0
    ensures SeparatorAt(s + more) == SeparatorAt(s)
  {
    var first := BreakAt(s);
    assert (s + more)[first..] == s[first..] + more;
  }

  /** The beginning of a separator is not itself cut anywhere. */
  lemma PartialSeparator(s: string, more: string)
    requires s != "" && SeparatorAt(s) == 0 && SeparatorAt(s + more) > 0
    ensures Boundary(s).None?
  {
    var first := BreakAt(s + more);
    assert |s| < 4;
    assert (s + more)[first..] == if first <= |s| then s[first..] + more else more[first - |s|..];
  }

  lemma {:induction false} BoundaryIsStable(s: string, more: string)
    requires Boundary(s).Some?
    ensures Boundary(s + more) == Boundary(s)
  {
    if SeparatorAt(s) > 0 {
      SeparatorIsStable(s, more);
    } else {
      if SeparatorAt(s + more) > 0 {
        PartialSeparator(s, more);
      }
      BoundaryIsStable(s[1..], more);
      assert (s + more)[1..] == s[1..] + more;
    }
  }

  lemma CutIsStable(s: string, more: string)
    requires Boundary(s).Some?
    ensures Boundary(s + more).Some? && FrameOf(s + more) == FrameOf(s) && After(s + more) == After(s) + more
  {
    BoundaryIsStable(s, more);
  }

  /** Text that arrives later is parsed as if it had been there from the start. */
  lemma {:induction false} FeedMore(s: string, more: string)
    ensures Frames(s + more) == Frames(s) + Frames(Leftover(s) + more)
    ensures Leftover(s + more) == Leftover(Leftover(s) + more)
    ensures Messages(Frames(s + more)) == Messages(Frames(s)) + Messages(Frames(Leftover(s) + more))
    decreases |s|
  {
    if Boundary(s).Some? {
      CutIsStable(s, more);
      FeedMore(After(s), more);
    }
    MessagesConcat(Frames(s), Frames(Leftover(s) + more));
  }

  lemma {:induction false} MessagesConcat(a: seq<Frame>, b: seq<Frame>)
    ensures Messages(a + b) == Messages(a) + Messages(b)
  {
    if a == [] {
      assert a + b == b;
    } else {
      assert (a + b)[1..] == a[1..] + b;
      MessagesConcat(a[1..], b);
    }
  }

  // ---------- Nothing is lost between the frames ----------

  function Rebuilt(frames: seq<Frame>): string {
    if frames == [] then "" else frames[0].text + frames[0].separator + Rebuilt(frames[1..])
  }

  lemma {:induction false} SeparatorIsThere(s: string)
    requires Boundary(s).Some?
    ensures SeparatorAt(s[Boundary(s).value.at..]) == Boundary(s).value.length
  {
    if SeparatorAt(s) == 0 {
      SeparatorIsThere(s[1..]);
      assert s[Boundary(s).value.at..] == s[1..][Boundary(s[1..]).value.at..];
    }
  }

  /** A text that has a boundary before position `n` has it there too once more text follows. */
  lemma NoneBefore(s: string)
    requires Boundary(s).Some?
    ensures Boundary(s[..Boundary(s).value.at]).None?
  {
    var text, more := s[..Boundary(s).value.at], s[Boundary(s).value.at..];
    assert s == text + more;
    if Boundary(text).Some? {
      BoundaryIsStable(text, more);
    }
  }

  /** Exactly one frame separator and nothing else. */
  predicate IsSeparator(s: string) {
    0 < |s| == SeparatorAt(s)
  }

  lemma SeparatorStandsAlone(s: string)
    requires SeparatorAt(s) > 0
    ensures IsSeparator(s[..SeparatorAt(s)])
  {
    var first, n := BreakAt(s), SeparatorAt(s);
    assert s[..n][first..] == s[first..][..n - first];
  }

  lemma SliceInTwo(s: string, at: nat, length: nat)
    requires at + length <= |s|
    ensures s[at..at + length] == s[at..][..length] && s[at..][length..] == s[at + length..]
    ensures s == s[..at] + s[at..at + length] + s[at + length..]
  {
  }

  lemma FrameIsCut(s: string)
    requires Boundary(s).Some?
    ensures s == FrameOf(s).text + FrameOf(s).separator + After(s)
    ensures Boundary(FrameOf(s).text).None? && IsSeparator(FrameOf(s).separator)
  {
    var c := Boundary(s).value;
    SliceInTwo(s, c.at, c.length);
    NoneBefore(s);
    SeparatorIsThere(s);
    SeparatorStandsAlone(s[c.at..]);
  }

  lemma FramesFromFirst(s: string)
    requires Boundary(s).Some?
    ensures Frames(s) == [FrameOf(s)] + Frames(After(s)) && Leftover(s) == Leftover(After(s))
    ensures Rebuilt(Frames(s)) == FrameOf(s).text + FrameOf(s).separator + Rebuilt(Frames(After(s)))
  {
    assert Frames(s)[1..] == Frames(After(s));
  }

  lemma {:induction false} LeftoverIsClean(s: string)
    ensures Boundary(Leftover(s)).None?
    decreases |s|
  {
    if Boundary(s).Some? {
      LeftoverIsClean(After(s));
    }
  }

  /** No frame contains a separator, and every separator is exactly one. */
  lemma {:induction false} FramesAreClean(s: string)
    ensures forall f | f in Frames(s) :: Boundary(f.text).None? && IsSeparator(f.separator)
    decreases |s|
  {
    if Boundary(s).Some? {
      FrameIsCut(s);
      FramesAreClean(After(s));
      FramesFromFirst(s);
    }
  }

  /** Frames, separators and leftover put together again are the input. */
  lemma {:induction false} FramesRebuildInput(s: string)
    ensures Rebuilt(Frames(s)) + Leftover(s) == s
    decreases |s|
  {
    if Boundary(s).Some? {
      FrameIsCut(s);
      FramesRebuildInput(After(s));
      FramesFromFirst(s);
    }
  }

  // ---------- However the text is cut into chunks ----------

  /** What one pass of the outer loop does to the buffer and to the messages handed on. */
  function Fed(emitted: seq<string>, buffer: string, chunks: seq<string>): (seq<string>, string)
    decreases |chunks|
  {
    if chunks == [] then (emitted, buffer)
    else
      var text := buffer + chunks[0];
      Fed(emitted + Messages(Frames(text)), Leftover(text), chunks[1..])
  }

  /** Feeding chunk by chunk equals parsing the whole text at once. */
  lemma {:induction false} FedIsWholeText(text: string, chunks: seq<string>)
    ensures Fed(Messages(Frames(text)), Leftover(text), chunks)
         == (Messages(Frames(text + Concat(chunks))), Leftover(text + Concat(chunks)))
    decreases |chunks|
  {
    if chunks == [] {
      assert text + Concat(chunks) == text;
    } else {
      var longer := text + chunks[0];
      assert text + Concat(chunks) == longer + Concat(chunks[1..]);
      FedIsWholeText(longer, chunks[1..]);
      FedStep(text, chunks);
    }
  }

  lemma FedStep(text: string, chunks: seq<string>)
    requires chunks != []
    ensures Fed(Messages(Frames(text)), Leftover(text), chunks)
         == Fed(Messages(Frames(text + chunks[0])), Leftover(text + chunks[0]), chunks[1..])
  {
    FeedMore(text, chunks[0]);
  }

  /** Two ways of cutting the same text give the same messages and the same unfinished rest. */
  lemma ChunksDoNotMatter(a: seq<string>, b: seq<string>)
    requires Concat(a) == Concat(b)
    ensures Fed([], "", a) == Fed([], "", b)
  {
    FedIsWholeText("", a);
    FedIsWholeText("", b);
    assert "" + Concat(a) == "" + Concat(b);
  }

  // ---------- Printing and parsing ----------

  predicate EndsInCR(s: string) {
    s != "" && s[|s| - 1] == CR
  }

  /** Nonempty, and no carriage return that a line feed follows or that ends the message. */
  predicate Printable(message: string) {
    message != "" && !EndsInCR(message)
    && forall i :: 0 < i < |message| && message[i] == LF ==> message[i - 1] != CR
  }

  predicate Plain(line: string) {
    LF !in line && !EndsInCR(line)
  }

  function Prefixed(lines: seq<string>): (r: seq<string>)
    ensures |r| == |lines|
    ensures forall i :: 0 <= i < |lines| ==> r[i] == FIELD + " " + lines[i]
  {
    if lines == [] then [] else [FIELD + " " + lines[0]] + Prefixed(lines[1..])
  }

  /** One data field per line, and an empty line after each message. */
  function Print(messages: seq<string>): string {
    if messages == [] then "" else Join(Prefixed(Lines(messages[0])), LF) + [LF, LF] + Print(messages[1..])
  }

  function Shifted(c: Option<Cut>, n: nat): Option<Cut> {
    if c.Some? then Some(Cut(n + c.value.at, c.value.length)) else None
  }

  /** `text` put in front of the first of some lines. */
  function InFront(text: string, lines: seq<string>): (r: seq<string>)
    requires lines != []
    ensures |r| == |lines|
  {
    [text + lines[0]] + lines[1..]
  }

  lemma InFrontTwice(a: string, b: string, lines: seq<string>)
    requires lines != []
    ensures InFront(a, InFront(b, lines)) == InFront(a + b, lines)
  {
    assert a + (b + lines[0]) == a + b + lines[0];
  }

  lemma SkipOne(c: char, s: string)
    requires BreakAt([c] + s) == 0
    ensures Boundary([c] + s) == Shifted(Boundary(s), 1)
    ensures Lines([c] + s) == InFront([c], Lines(s))
  {
    assert ([c] + s)[1..] == s;
  }

  lemma {:induction false} SkipPlain(line: string, rest: string)
    requires Plain(line)
    ensures Boundary(line + rest) == Shifted(Boundary(rest), |line|)
    ensures Lines(line + rest) == InFront(line, Lines(rest))
    decreases |line|
  {
    if line == "" {
      assert line + rest == rest && line + Lines(rest)[0] == Lines(rest)[0];
      assert Shifted(Boundary(rest), 0) == Boundary(rest);
    } else {
      var more := line[1..] + rest;
      assert line == [line[0]] + line[1..] && line + rest == [line[0]] + more;
      assert line[0] == CR ==> |line| > 1 && more[0] == line[1] != LF;
      SkipOne(line[0], more);
      SkipPlain(line[1..], rest);
      InFrontTwice([line[0]], line[1..], Lines(rest));
    }
  }

  lemma SkipPlainBoundary(line: string, rest: string)
    requires Plain(line)
    ensures Boundary(line + rest) == Shifted(Boundary(rest), |line|)
  {
    SkipPlain(line, rest);
  }

  lemma NewLine(s: string)
    ensures Lines([LF] + s) == [""] + Lines(s)
  {
    assert ([LF] + s)[1..] == s;
  }

  lemma LinesInFront(line: string, rest: string)
    requires Plain(line)
    ensures Lines(line + ([LF] + rest)) == [line] + Lines(rest)
  {
    NewLine(rest);
    SkipPlain(line, [LF] + rest);
    assert line + "" == line;
  }

  lemma {:induction false} LinesOfJoin(parts: seq<string>)
    requires parts != [] && forall p | p in parts :: Plain(p)
    ensures Lines(Join(parts, LF)) == parts
    decreases |parts|
  {
    if |parts| == 1 {
      SkipPlain(parts[0], "");
      assert parts[0] + "" == parts[0];
    } else {
      assert parts[0] in parts;
      LinesOfJoin(parts[1..]);
      LinesInFront(parts[0], Join(parts[1..], LF));
      assert Join(parts, LF) == parts[0] + ([LF] + Join(parts[1..], LF));
    }
  }

  lemma {:induction false} JoinOfLines(message: string)
    requires message == "" || Printable(message)
    ensures Join(Lines(message), LF) == message
    ensures forall p | p in Lines(message) :: Plain(p)
    decreases |message|
  {
    if message != "" {
      var c, rest := message[0], message[1..];
      assert message == [c] + rest;
      JoinOfLines(rest);
      if c == LF {
        NewLine(rest);
        JoinNewLine(Lines(rest));
      } else {
        StartOfLine(message);
        SkipOne(c, rest);
        JoinGrows(c, Lines(rest));
      }
    }
  }

  /** A printable message that starts with a carriage return does not end its line there. */
  lemma StartOfLine(message: string)
    requires Printable(message) && message[0] != LF
    ensures BreakAt(message) == 0
    ensures Plain(Lines(message[1..])[0]) ==> Plain([message[0]] + Lines(message[1..])[0])
  {
    if message[0] == CR {
      assert message[1] != LF;
      assert |message| > 2 && message[2] == LF ==> message[1] != CR;
      FirstLine(message[1..]);
    }
  }

  lemma JoinNewLine(lines: seq<string>)
    requires lines != []
    ensures Join([""] + lines, LF) == [LF] + Join(lines, LF)
  {
    assert ([""] + lines)[1..] == lines;
  }

  lemma JoinGrows(c: char, lines: seq<string>)
    requires lines != []
    ensures Join(InFront([c], lines), LF) == [c] + Join(lines, LF)
  {
    assert InFront([c], lines)[1..] == lines[1..];
  }

  lemma FirstLine(s: string)
    ensures s != "" && BreakAt(s) == 0 ==> Lines(s)[0] != ""
  {
  }

  /** The first empty line ends the frame. */
  lemma {:induction false} BoundaryAfterJoin(parts: seq<string>, tail: string)
    requires parts != [] && forall p | p in parts :: Plain(p) && FIELD <= p
    ensures Boundary(Join(parts, LF) + ([LF, LF] + tail)) == Some(Cut(|Join(parts, LF)|, 2))
    decreases |parts|
  {
    var end := [LF, LF] + tail;
    if |parts| == 1 {
      EmptyLine(tail);
      SkipPlain(parts[0], end);
    } else {
      BoundaryAfterJoin(parts[1..], tail);
      assert parts[0] in parts && parts[1] in parts;
      StartsLikeFirst(parts[1..]);
      OneMoreLine(parts[0], Join(parts[1..], LF) + end);
      assert Join(parts, LF) + end == parts[0] + ([LF] + (Join(parts[1..], LF) + end));
    }
  }

  lemma OneMoreLine(line: string, s: string)
    requires Plain(line) && s != "" && s[0] == FIELD[0]
    ensures Boundary(line + ([LF] + s)) == Shifted(Boundary(s), |line| + 1)
  {
    LineFeedAlone(s);
    SkipPlainBoundary(line, [LF] + s);
    ShiftedTwice(Boundary(s), |line|);
  }

  lemma ShiftedTwice(c: Option<Cut>, n: nat)
    ensures Shifted(Shifted(c, 1), n) == Shifted(c, n + 1)
  {
  }

  lemma StartsLikeFirst(parts: seq<string>)
    requires parts != [] && FIELD <= parts[0]
    ensures Join(parts, LF) != "" && Join(parts, LF)[0] == FIELD[0]
  {
    assert parts[0][0] == FIELD[0];
  }

  lemma EmptyLine(tail: string)
    ensures Boundary([LF, LF] + tail) == Some(Cut(0, 2))
  {
    assert ([LF, LF] + tail)[1..][0] == LF;
  }

  lemma LineFeedAlone(s: string)
    requires s != "" && s[0] != LF && s[0] != CR
    ensures Boundary([LF] + s) == Shifted(Boundary(s), 1)
  {
    assert ([LF] + s)[1..] == s;
  }

  lemma {:induction false} ValuesOfPrefixed(lines: seq<string>)
    ensures Values(Prefixed(lines)) == lines
  {
    if lines != [] {
      ValuesOfPrefixed(lines[1..]);
      var line := FIELD + " " + lines[0];
      assert line[|FIELD|..] == " " + lines[0];
    }
  }

  lemma PrintedFrame(message: string)
    requires Printable(message)
    ensures forall p | p in Prefixed(Lines(message)) :: Plain(p) && FIELD <= p
    ensures Data(Join(Prefixed(Lines(message)), LF)) == message
  {
    var lines := Lines(message);
    JoinOfLines(message);
    forall p | p in Prefixed(lines) ensures Plain(p) && FIELD <= p {
      var i :| 0 <= i < |lines| && p == FIELD + " " + lines[i];
      assert Plain(lines[i]);
    }
    LinesOfJoin(Prefixed(lines));
    ValuesOfPrefixed(lines);
  }

  lemma CutAt(s: string, text: string, separator: string, tail: string)
    requires s == text + separator + tail && separator != ""
    requires Boundary(s) == Some(Cut(|text|, |separator|))
    ensures After(s) == tail && FrameOf(s).text == text
  {
  }

  /** Parsing what was printed gives the messages back, with nothing left in the buffer. */
  lemma {:induction false} ParsePrinted(messages: seq<string>)
    requires forall m | m in messages :: Printable(m)
    ensures Messages(Frames(Print(messages))) == messages
    ensures Leftover(Print(messages)) == ""
  {
    if messages != [] {
      var parts, tail := Prefixed(Lines(messages[0])), Print(messages[1..]);
      PrintedFrame(messages[0]);
      BoundaryAfterJoin(parts, tail);
      var s := Print(messages);
      assert s == Join(parts, LF) + [LF, LF] + tail == Join(parts, LF) + ([LF, LF] + tail);
      CutAt(s, Join(parts, LF), [LF, LF], tail);
      TakeFrame(Print(messages));
      ParsePrinted(messages[1..]);
    }
  }
}
