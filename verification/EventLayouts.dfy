/** What the notification parser understands, for every layout of a stream: fields with and without a space, other lines,
    and both kinds of line breaks in any mixture. */
module EventLayouts {
  import opened Wrappers
  import opened Strings
  import opened EventStream

  /** One line of a block and how it is broken off; `spaced` data lines have one space after the colon. */
  datatype Line =
    | DataLine(value: string, spaced: bool, crlf: bool)
    | OtherLine(text: string, crlf: bool)
  {
    function Text(): string {
      match this
      case DataLine(value, spaced, _) => if spaced then "data: " + value else "data:" + value
      case OtherLine(text, _) => text
    }

    /** Lines are not empty and do not contain a line break; what follows the colon says whether there was a space, and
        other lines are comments or other fields. */
    predicate Valid() {
      && Plain(Text())
      && match this
         case DataLine(value, spaced, _) => spaced || value == "" || value[0] != ' '
         case OtherLine(text, _) => text != "" && !("data:" <= text)
    }
  }

  /** The lines of one message and the empty line that ends it. */
  datatype Block = Block(lines: seq<Line>, crlf: bool) {
    predicate Valid() {
      lines != [] && AllValid(lines)
    }
  }

  predicate AllValid(lines: seq<Line>) {
    lines != [] ==> lines[0].Valid() && AllValid(lines[1..])
  }

  function Break(crlf: bool): string {
    if crlf then "\r\n" else "\n"
  }

  /** The values of the data lines, one per line; other lines are ignored. */
  function DataOf(lines: seq<Line>): seq<string> {
    if lines == [] then []
    else (if lines[0].DataLine? then [lines[0].value] else []) + DataOf(lines[1..])
  }

  /** A block is a message unless it has no data. */
  function Meant(blocks: seq<Block>): seq<string> {
    if blocks == [] then []
    else
      var data := Join(DataOf(blocks[0].lines), '\n');
      (if data != "" then [data] else []) + Meant(blocks[1..])
  }

  function Texts(lines: seq<Line>): (r: seq<string>)
    ensures |r| == |lines|
  {
    if lines == [] then [] else [lines[0].Text()] + Texts(lines[1..])
  }

  /** The lines with the breaks between them. */
  function Inner(lines: seq<Line>): string
    requires lines != []
  {
    if |lines| == 1 then lines[0].Text()
    else lines[0].Text() + (Break(lines[0].crlf) + Inner(lines[1..]))
  }

  /** The last break and the empty line. */
  function Ending(b: Block): string
    requires b.lines != []
  {
    Break(b.lines[|b.lines| - 1].crlf) + Break(b.crlf)
  }

  function Written(blocks: seq<Block>): string
    requires forall b | b in blocks :: b.Valid()
  {
    if blocks == [] then ""
    else
      assert blocks[0].Valid();
      Inner(blocks[0].lines) + Ending(blocks[0]) + Written(blocks[1..])
  }

  // ---------- Splitting a block into lines ----------

  lemma LinesAfterBreak(crlf: bool, s: string)
    ensures Lines(Break(crlf) + s) == [""] + Lines(s)
  {
    assert (Break(crlf) + s)[|Break(crlf)|..] == s;
  }

  lemma LinesOfTwo(line: string, crlf: bool, rest: string)
    requires Plain(line)
    ensures Lines(line + (Break(crlf) + rest)) == [line] + Lines(rest)
  {
    LinesAfterBreak(crlf, rest);
    SkipPlain(line, Break(crlf) + rest);
    assert line + "" == line;
  }

  lemma {:induction false} LinesOfInner(lines: seq<Line>)
    requires lines != [] && AllValid(lines)
    ensures Lines(Inner(lines)) == Texts(lines)
    decreases |lines|
  {
    if |lines| == 1 {
      SkipPlain(lines[0].Text(), "");
      assert lines[0].Text() + "" == lines[0].Text();
      assert Texts(lines[1..]) == [];
    } else {
      LinesOfInner(lines[1..]);
      LinesOfTwo(lines[0].Text(), lines[0].crlf, Inner(lines[1..]));
    }
  }

  lemma ValueOfLine(line: Line)
    requires line.Valid()
    ensures IsData(line.Text()) <==> line.DataLine?
    ensures line.DataLine? ==> ValueOf(line.Text()) == line.value
  {
    if line.DataLine? {
      assert line.spaced ==> ("data: " + line.value)[5..] == " " + line.value;
    }
  }

  lemma {:induction false} ValuesOfTexts(lines: seq<Line>)
    requires AllValid(lines)
    ensures Values(Texts(lines)) == DataOf(lines)
    decreases |lines|
  {
    if lines != [] {
      ValueOfLine(lines[0]);
      ValuesOfTexts(lines[1..]);
      assert Texts(lines)[1..] == Texts(lines[1..]);
    }
  }

  // ---------- Finding the end of a block ----------

  lemma BreakThenLine(crlf: bool, s: string)
    requires s != "" && BreakAt(s) == 0
    ensures Boundary(Break(crlf) + s) == Shifted(Boundary(s), |Break(crlf)|)
  {
    var text := Break(crlf) + s;
    assert text[|Break(crlf)|..] == s;
    if crlf {
      assert text[1..] == "\n" + s && (text[1..])[1..] == s;
      ShiftedTwice(Boundary(s), 1);
    }
  }

  lemma LineHasNoBreak(line: Line, rest: string)
    requires line.Valid()
    ensures line.Text() + rest != "" && BreakAt(line.Text() + rest) == 0
  {
    var text := line.Text();
    assert text != "" && text[0] in text;
    assert text[0] == '\r' ==> |text| > 1 && text[1] in text;
  }

  lemma TwoBreaks(first: bool, second: bool, tail: string)
    ensures Boundary(Break(first) + Break(second) + tail) == Some(Cut(0, |Break(first) + Break(second)|))
  {
    var text := Break(first) + Break(second) + tail;
    assert text[|Break(first)|..] == Break(second) + tail;
  }

  lemma ShiftedSum(c: Option<Cut>, m: nat, n: nat)
    ensures Shifted(Shifted(c, m), n) == Shifted(c, m + n)
  {
  }

  /** The lines with the breaks between them, and what follows. */
  function Laid(lines: seq<Line>, rest: string): string
    requires lines != []
  {
    if |lines| == 1 then lines[0].Text() + rest
    else lines[0].Text() + (Break(lines[0].crlf) + Laid(lines[1..], rest))
  }

  lemma FourInARow(a: string, b: string, c: string, d: string)
    ensures a + (b + (c + d)) == a + (b + c) + d
  {
  }

  lemma {:induction false} LaidIsInner(lines: seq<Line>, rest: string)
    requires lines != []
    ensures Laid(lines, rest) == Inner(lines) + rest
    decreases |lines|
  {
    if |lines| > 1 {
      LaidIsInner(lines[1..], rest);
      FourInARow(lines[0].Text(), Break(lines[0].crlf), Inner(lines[1..]), rest);
    }
  }

  lemma LaidStarts(lines: seq<Line>, rest: string)
    requires lines != [] && lines[0].Valid()
    ensures Laid(lines, rest) != "" && BreakAt(Laid(lines, rest)) == 0
  {
    if |lines| == 1 {
      LineHasNoBreak(lines[0], rest);
    } else {
      LineHasNoBreak(lines[0], Break(lines[0].crlf) + Laid(lines[1..], rest));
    }
  }

  lemma OneLineMore(line: Line, s: string)
    requires line.Valid() && s != "" && BreakAt(s) == 0
    ensures Boundary(line.Text() + (Break(line.crlf) + s)) == Shifted(Boundary(s), |line.Text()| + |Break(line.crlf)|)
  {
    BreakThenLine(line.crlf, s);
    SkipPlainBoundary(line.Text(), Break(line.crlf) + s);
    ShiftedSum(Boundary(s), |Break(line.crlf)|, |line.Text()|);
  }

  lemma {:induction false} BoundaryOfLaid(lines: seq<Line>, end: string, length: nat)
    requires lines != [] && AllValid(lines) && Boundary(end) == Some(Cut(0, length))
    ensures Boundary(Laid(lines, end)) == Some(Cut(|Inner(lines)|, length))
    decreases |lines|
  {
    if |lines| == 1 {
      SkipPlainBoundary(lines[0].Text(), end);
    } else {
      BoundaryOfLaid(lines[1..], end, length);
      LaidStarts(lines[1..], end);
      OneLineMore(lines[0], Laid(lines[1..], end));
    }
  }

  lemma BoundaryOfBlock(b: Block, rest: string)
    requires b.Valid()
    ensures Boundary(Inner(b.lines) + (Ending(b) + rest)) == Some(Cut(|Inner(b.lines)|, |Ending(b)|))
  {
    TwoBreaks(b.lines[|b.lines| - 1].crlf, b.crlf, rest);
    BoundaryOfLaid(b.lines, Ending(b) + rest, |Ending(b)|);
    LaidIsInner(b.lines, Ending(b) + rest);
  }

  // ---------- The whole stream ----------

  lemma BlockIsRead(b: Block, rest: string)
    requires b.Valid()
    ensures var s := Inner(b.lines) + Ending(b) + rest;
      && Boundary(s).Some? && After(s) == rest && FrameOf(s).text == Inner(b.lines)
      && Data(FrameOf(s).text) == Join(DataOf(b.lines), '\n')
  {
    var s := Inner(b.lines) + Ending(b) + rest;
    assert s == Inner(b.lines) + (Ending(b) + rest);
    BoundaryOfBlock(b, rest);
    CutAt(s, Inner(b.lines), Ending(b), rest);
    LinesOfInner(b.lines);
    ValuesOfTexts(b.lines);
  }

  /** However a stream is laid out, its messages are the data of its blocks, and an unfinished rest stays in the buffer. */
  lemma {:induction false} ParseWritten(blocks: seq<Block>, rest: string)
    requires (forall b | b in blocks :: b.Valid()) && Boundary(rest).None?
    ensures Messages(Frames(Written(blocks) + rest)) == Meant(blocks)
    ensures Leftover(Written(blocks) + rest) == rest
    decreases |blocks|
  {
    if blocks == [] {
      assert Written(blocks) + rest == rest;
    } else {
      var b, more := blocks[0], Written(blocks[1..]) + rest;
      assert b in blocks;
      assert Written(blocks) + rest == Inner(b.lines) + Ending(b) + more;
      BlockIsRead(b, more);
      TakeFrame(Written(blocks) + rest);
      ParseWritten(blocks[1..], rest);
    }
  }

  /** The same block is read alike with either kind of break and with or without the space. */
  lemma LayoutDoesNotMatter(a: seq<Block>, b: seq<Block>)
    requires (forall x | x in a :: x.Valid()) && (forall x | x in b :: x.Valid()) && Meant(a) == Meant(b)
    ensures Messages(Frames(Written(a))) == Messages(Frames(Written(b)))
  {
    ParseWritten(a, "");
    ParseWritten(b, "");
    assert Written(a) + "" == Written(a) && Written(b) + "" == Written(b);
  }
}
