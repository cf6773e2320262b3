/**
  The content stream of a text page: the uploaded text, with CR LF turned
  into LF, cut into lines and then into chunks of at most 90 characters,
  each chunk escaped and shown as one line of 12-point Helvetica starting
  at (50, 800) with a 14-point leading. Output stops once the baseline
  would drop below 50, so a page shows at most 54 chunks.
*/
module PdfText {
  import opened Util

  const Top: int := 800
  const Bottom: int := 50
  const Leading: int := 14
  const ChunkWidth: nat := 90
  /** The number of chunks after which the baseline is below Bottom: 800 - 14 * 54 = 44. */
  const MaxLines: nat := 54

  const Header: string := "BT /F1 12 Tf 50 800 Td 14 TL\n"
  const Footer: string := "ET\n"

  function CountChar(s: string, c: char): nat
  {
    if |s| == 0 then 0 else (if s[0] == c then 1 else 0) + CountChar(s[1..], c)
  }

  lemma {:induction false} CountCharAppend(a: string, b: string, c: char)
    ensures CountChar(a + b, c) == CountChar(a, c) + CountChar(b, c)
  {
    if |a| > 0 {
      assert (a + b)[1..] == a[1..] + b;
      CountCharAppend(a[1..], b, c);
    } else {
      assert a + b == b;
    }
  }

  /** text.Replace("\r\n", "\n"): each CR LF pair, scanned left to right, becomes one LF. */
  function NormalizeNewlines(s: string): (r: string)
    ensures |r| <= |s|
    ensures CountChar(r, '\n') == CountChar(s, '\n')
    ensures '\r' !in s ==> r == s
  {
    if |s| == 0 then ""
    else if |s| >= 2 && s[0] == '\r' && s[1] == '\n' then
      assert s[1..][1..] == s[2..];
      "\n" + NormalizeNewlines(s[2..])
    else [s[0]] + NormalizeNewlines(s[1..])
  }

  /** The text's lines: text.Split('\n') after the newline clean-up, empty lines kept. */
  function Lines(text: string): seq<string>
  {
    Split(NormalizeNewlines(text), '\n')
  }

  /** There is one line per line feed, plus one: a lone CR does not start a line. */
  lemma {:induction false} SplitCount(s: string, sep: char)
    ensures |Split(s, sep)| == CountChar(s, sep) + 1
    decreases |s|
  {
    var head := Before(s, sep);
    NoSepCount(head, sep);
    if |head| < |s| {
      var tail := s[|head| + 1..];
      assert s == head + ([sep] + tail);
      CountCharAppend(head, [sep] + tail, sep);
      assert ([sep] + tail)[1..] == tail;
      SplitCount(tail, sep);
    } else {
      assert head == s;
    }
  }

  lemma {:induction false} NoSepCount(s: string, c: char)
    requires c !in s
    ensures CountChar(s, c) == 0
  {
    if |s| > 0 {
      assert c !in s[1..];
      NoSepCount(s[1..], c);
    }
  }

  lemma LinesCount(text: string)
    ensures |Lines(text)| == CountChar(text, '\n') + 1
  {
    SplitCount(NormalizeNewlines(text), '\n');
  }

  function Concat(cs: seq<string>): string
  {
    if |cs| == 0 then "" else cs[0] + Concat(cs[1..])
  }

  /**
    The wrapping loop on one line: chunks of 90 characters, the last one
    shorter; an empty line gives no chunk at all.
  */
  function Chunks(line: string): (cs: seq<string>)
    ensures Concat(cs) == line
    ensures |cs| == (|line| + ChunkWidth - 1) / ChunkWidth
    ensures forall i :: 0 <= i < |cs| ==> 0 < |cs[i]| <= ChunkWidth
    ensures forall i :: 0 <= i < |cs| - 1 ==> |cs[i]| == ChunkWidth
    decreases |line|
  {
    if |line| == 0 then []
    else
      var k := if |line| < ChunkWidth then |line| else ChunkWidth;
      var cs := [line[..k]] + Chunks(line[k..]);
      assert cs[1..] == Chunks(line[k..]);
      assert line == line[..k] + line[k..];
      cs
  }

  /** The chunks of all lines in order. */
  function AllChunks(lines: seq<string>): (cs: seq<string>)
    ensures Concat(cs) == Concat(lines)
    ensures forall i :: 0 <= i < |cs| ==> 0 < |cs[i]| <= ChunkWidth
  {
    if |lines| == 0 then []
    else
      var cs := Chunks(lines[0]) + AllChunks(lines[1..]);
      ConcatAppend(Chunks(lines[0]), AllChunks(lines[1..]));
      cs
  }

  lemma {:induction false} ConcatAppend(a: seq<string>, b: seq<string>)
    ensures Concat(a + b) == Concat(a) + Concat(b)
  {
    if |a| > 0 {
      assert (a + b)[1..] == a[1..] + b;
      ConcatAppend(a[1..], b);
    } else {
      assert a + b == b;
    }
  }

  function EscapeChar(c: char): string
  {
    if c == '\\' || c == '(' || c == ')' then ['\\', c] else [c]
  }

  /** A chunk made safe for a PDF literal string: backslash and both parentheses get a backslash. */
  function Escape(s: string): (r: string)
    ensures |r| >= |s|
  {
    if |s| == 0 then "" else EscapeChar(s[0]) + Escape(s[1..])
  }

  /**
    How a PDF reader reads the inside of a literal string (section 7.3.4.2
    of ISO 32000-1): a backslash takes the next character as it is.
  */
  function Unescape(s: string): string
  {
    if |s| == 0 then ""
    else if s[0] == '\\' && |s| >= 2 then [s[1]] + Unescape(s[2..])
    else [s[0]] + Unescape(s[1..])
  }

  /**
    Text that can sit between "(" and ")" without ending the string early
    or unbalancing it: no bare parenthesis and no dangling backslash.
  */
  predicate SafeLiteral(s: string)
  {
    if |s| == 0 then true
    else if s[0] == '\\' then |s| >= 2 && SafeLiteral(s[2..])
    else s[0] != '(' && s[0] != ')' && SafeLiteral(s[1..])
  }

  /** The reader gets back exactly the chunk, and the chunk cannot break out of its string. */
  lemma {:induction false} EscapeRoundTrip(s: string)
    ensures Unescape(Escape(s)) == s
    ensures SafeLiteral(Escape(s))
  {
    if |s| > 0 {
      EscapeRoundTrip(s[1..]);
      var e, t := EscapeChar(s[0]), Escape(s[1..]);
      if s[0] == '\\' || s[0] == '(' || s[0] == ')' {
        assert (e + t)[2..] == t;
      } else {
        assert (e + t)[1..] == t;
      }
    }
  }

  /** String.Replace for a one-character pattern. */
  function ReplaceChar(s: string, c: char, rep: string): (r: string)
  {
    if |s| == 0 then "" else (if s[0] == c then rep else [s[0]]) + ReplaceChar(s[1..], c, rep)
  }

  lemma {:induction false} ReplaceCharAppend(a: string, b: string, c: char, rep: string)
    ensures ReplaceChar(a + b, c, rep) == ReplaceChar(a, c, rep) + ReplaceChar(b, c, rep)
  {
    if |a| > 0 {
      assert (a + b)[1..] == a[1..] + b;
      ReplaceCharAppend(a[1..], b, c, rep);
    } else {
      assert a + b == b;
    }
  }

  /** The source's three Replace calls, in its order. */
  function EscapeByReplace(s: string): string
  {
    ReplaceChar(ReplaceChar(ReplaceChar(s, '\\', "\\\\"), '(', "\\("), ')', "\\)")
  }

  /**
    Doubling backslashes first is what makes the chain correct: the
    backslashes added for parentheses are not doubled again.
  */
  lemma {:induction false} ReplaceOrderIsEscape(s: string)
    ensures EscapeByReplace(s) == Escape(s)
  {
    if |s| > 0 {
      var c := s[0];
      var r1 := if c == '\\' then "\\\\" else [c];
      assert s == [c] + s[1..];
      ReplaceCharAppend([c], s[1..], '\\', "\\\\");
      assert ReplaceChar([c], '\\', "\\\\") == r1;
      var a1, b1 := r1, ReplaceChar(s[1..], '\\', "\\\\");
      ReplaceCharAppend(a1, b1, '(', "\\(");
      var a2, b2 := ReplaceChar(a1, '(', "\\("), ReplaceChar(b1, '(', "\\(");
      ReplaceCharAppend(a2, b2, ')', "\\)");
      EscapeCharByReplace(c);
      ReplaceOrderIsEscape(s[1..]);
    }
  }

  lemma ReplaceOne(c: char, x: char, rep: string)
    ensures ReplaceChar([c], x, rep) == if c == x then rep else [c]
  {
    assert [c][1..] == [];
  }

  lemma ReplaceTwo(c: char, d: char, x: char, rep: string)
    requires c != x && d != x
    ensures ReplaceChar([c, d], x, rep) == [c, d]
  {
    assert [c, d] == [c] + [d];
    ReplaceCharAppend([c], [d], x, rep);
    ReplaceOne(c, x, rep);
    ReplaceOne(d, x, rep);
  }

  lemma EscapeCharByReplace(c: char)
    ensures EscapeByReplace([c]) == EscapeChar(c)
  {
    ReplaceOne(c, '\\', "\\\\");
    if c == '\\' {
      ReplaceTwo('\\', '\\', '(', "\\(");
      ReplaceTwo('\\', '\\', ')', "\\)");
    } else {
      ReplaceOne(c, '(', "\\(");
      if c == '(' {
        ReplaceTwo('\\', '(', ')', "\\)");
      } else {
        ReplaceOne(c, ')', "\\)");
      }
    }
  }

  /** One shown line: "(" + escaped chunk + ") Tj T*" and a line break. */
  function ShowLine(chunk: string): string
  {
    "(" + Escape(chunk) + ") Tj T*\n"
  }

  function Render(cs: seq<string>): string
  {
    if |cs| == 0 then "" else Render(cs[..|cs| - 1]) + ShowLine(cs[|cs| - 1])
  }

  /** The chunks the page shows: all of them, cut after the first 54. */
  function Shown(text: string): (cs: seq<string>)
    ensures |cs| <= MaxLines && |cs| <= |AllChunks(Lines(text))|
    ensures cs == AllChunks(Lines(text))[..|cs|]
    ensures |AllChunks(Lines(text))| <= MaxLines ==> cs == AllChunks(Lines(text))
  {
    var all := AllChunks(Lines(text));
    if |all| <= MaxLines then all else all[..MaxLines]
  }

  /** The content stream FormatTextToPdfStream returns. */
  function FormattedText(text: string): string
  {
    Header + Render(Shown(text)) + Footer
  }

  /**
    A text that fits on the page loses nothing but its line breaks: the
    shown chunks put back together are the lines put back together.
  */
  lemma ShortTextShownWhole(text: string)
    requires |AllChunks(Lines(text))| <= MaxLines
    ensures Concat(Shown(text)) == Concat(Lines(text))
  {
  }

  /** A longer text shows exactly 54 full or partial lines, each at most 90 characters. */
  lemma LongTextClipped(text: string)
    requires |AllChunks(Lines(text))| > MaxLines
    ensures |Shown(text)| == MaxLines
    ensures forall i :: 0 <= i < MaxLines ==> 0 < |Shown(text)[i]| <= ChunkWidth
  {
  }

  lemma RenderSnoc(cs: seq<string>, c: string)
    ensures Render(cs + [c]) == Render(cs) + ShowLine(c)
  {
    assert (cs + [c])[..|cs|] == cs;
  }

  lemma ChunksStep(line: string, k: nat)
    requires |line| > 0 && k == (if ChunkWidth < |line| then ChunkWidth else |line|)
    ensures Chunks(line) == [line[..k]] + Chunks(line[k..])
  {
  }

  lemma AllChunksStep(lines: seq<string>, li: nat)
    requires li < |lines|
    ensures AllChunks(lines[li..]) == Chunks(lines[li]) + AllChunks(lines[li + 1..])
  {
    assert lines[li..][1..] == lines[li + 1..];
  }

  lemma AppendShown(sb: string, emitted: seq<string>, chunk: string, shown: string)
    requires sb == Header + Render(emitted) && shown == "(" + Escape(chunk) + ") Tj T*\n"
    ensures sb + shown == Header + Render(emitted + [chunk])
  {
    RenderSnoc(emitted, chunk);
  }

  lemma MoveFront<T>(done: seq<T>, x: T, after: seq<T>, later: seq<T>)
    ensures done + (([x] + after) + later) == (done + [x]) + (after + later)
  {
  }

  /** When the loops stop, what was shown is what Shown describes. */
  lemma ShownWhenStopped(text: string, emitted: seq<string>, rest: seq<string>)
    requires emitted + rest == AllChunks(Lines(text))
    requires |emitted| == MaxLines || (rest == [] && |emitted| < MaxLines)
    ensures Shown(text) == emitted
  {
    assert emitted == (emitted + rest)[..|emitted|];
  }

  /**
    FormatTextToPdfStream: the line loop of the source, with the wrapping
    loop in WrapLine, proved to produce FormattedText. The baseline y falls
    by 14 per chunk and the loops stop once it is below 50.
  */
  method FormatTextToPdfStream(text: string) returns (s: string)
    ensures s == FormattedText(text)
  {
    var sb := Header;
    var cleaned := NormalizeNewlines(text);
    var lines := Split(cleaned, '\n');
    ghost var emitted: seq<string> := [];
    ghost var all := AllChunks(lines);
    ghost var rest := all;
    var y := Top;
    var li := 0;
    while li < |lines|
      invariant 0 <= li <= |lines|
      invariant rest == AllChunks(lines[li..])
      invariant emitted + rest == all
      invariant sb == Header + Render(emitted)
      invariant y == Top - Leading * |emitted| && |emitted| < MaxLines
      decreases |lines| - li
    {
      AllChunksStep(lines, li);
      ghost var later := AllChunks(lines[li + 1..]);
      sb, y, emitted, rest := WrapLine(lines[li], sb, y, emitted, later, all);
      if y < Bottom {
        break;
      }
      li := li + 1;
    }
    ShownWhenStopped(text, emitted, rest);
    sb := sb + Footer;
    return sb;
  }

  /**
    The wrapping loop for one line: chunks of at most 90 characters are
    escaped and shown, each lowering y by 14, until the line is used up or
    y falls below 50. `emitted` are the chunks shown so far and `later` the
    chunks of the lines after this one.
  */
  method WrapLine(line: string, sb: string, y: int, ghost emitted: seq<string>, ghost later: seq<string>,
                  ghost all: seq<string>)
    returns (sb': string, y': int, ghost emitted': seq<string>, ghost rest': seq<string>)
    requires emitted + (Chunks(line) + later) == all
    requires sb == Header + Render(emitted) && y == Top - Leading * |emitted| && |emitted| < MaxLines
    ensures emitted' + rest' == all
    ensures sb' == Header + Render(emitted') && y' == Top - Leading * |emitted'|
    ensures y' >= Bottom ==> rest' == later && |emitted'| < MaxLines
    ensures y' < Bottom ==> |emitted'| == MaxLines
  {
    sb', y', emitted', rest' := sb, y, emitted, Chunks(line) + later;
    var remaining := line;
    while |remaining| > 0
      invariant rest' == Chunks(remaining) + later
      invariant emitted' + rest' == all
      invariant sb' == Header + Render(emitted')
      invariant y' == Top - Leading * |emitted'| && |emitted'| < MaxLines
      decreases |remaining|
    {
      var chunkLen := if ChunkWidth < |remaining| then ChunkWidth else |remaining|;
      var chunk := remaining[..chunkLen];
      ChunksStep(remaining, chunkLen);
      remaining := remaining[chunkLen..];
      var escaped := EscapeByReplace(chunk);
      ReplaceOrderIsEscape(chunk);
      var shown := "(" + escaped + ") Tj T*\n";
      AppendShown(sb', emitted', chunk, shown);
      sb' := sb' + shown;
      MoveFront(emitted', chunk, Chunks(remaining), later);
      emitted' := emitted' + [chunk];
      rest' := Chunks(remaining) + later;
      y' := y' - Leading;
      if y' < Bottom {
        return;
      }
    }
  }
}
