/** The text the read loop accumulates: each decoded chunk is split on
    newlines, empty lines are dropped, each line is parsed on its own, lines
    that do not parse are skipped, and a truthy `response` is appended. */
module Streaming {
  import opened Wrappers
  import opened JsText

  /** What the client reads from a line that `JSON.parse` accepts: its
      `response` field when that is a string. `None` from the parser covers
      both a parse error and a value (such as `null`) whose field access
      throws; both are caught and skipped. */
  datatype Record = Record(response: Option<string>)

  /** `chunk.split("\n").filter(Boolean)`. */
  function Lines(chunk: string): seq<string>
  {
    NonEmpty(SplitOn(chunk, '\n'))
  }

  /** Every line of a chunk is non-empty and holds no newline. */
  lemma LinesShape(chunk: string)
    ensures forall i :: 0 <= i < |Lines(chunk)| ==> Lines(chunk)[i] != "" && '\n' !in Lines(chunk)[i]
  {
    var pieces := SplitOn(chunk, '\n');
    SplitOnPiecesLackSep(chunk, '\n');
    NonEmptyKeeps(pieces);
    forall i | 0 <= i < |Lines(chunk)| ensures '\n' !in Lines(chunk)[i] {
      var j :| 0 <= j < |pieces| && pieces[j] == Lines(chunk)[i];
    }
  }

  /** What one line adds to the buffer: its `response` when the line parses
      and the field is a string; nothing otherwise (`""` is falsy and adds
      nothing either). */
  function LineText(line: string, parse: string -> Option<Record>): string
  {
    var parsed := parse(line);
    if parsed.Some? && parsed.value.response.Some? then parsed.value.response.value else ""
  }

  /** A line adds text only when it parses and has a response, and then it
      adds exactly that response. */
  lemma LineTextMeaning(line: string, parse: string -> Option<Record>)
    ensures parse(line).None? || parse(line).value.response.None? ==> LineText(line, parse) == ""
    ensures LineText(line, parse) != "" ==> parse(line) == Some(Record(Some(LineText(line, parse))))
    ensures parse(line).Some? && parse(line).value.response.Some? ==>
      LineText(line, parse) == parse(line).value.response.value
  {
  }

  function LinesText(lines: seq<string>, parse: string -> Option<Record>): string
  {
    if |lines| == 0 then ""
    else LinesText(lines[..|lines| - 1], parse) + LineText(lines[|lines| - 1], parse)
  }

  lemma LinesTextSnoc(lines: seq<string>, i: nat, parse: string -> Option<Record>)
    requires i < |lines|
    ensures LinesText(lines[..i + 1], parse) == LinesText(lines[..i], parse) + LineText(lines[i], parse)
  {
    assert lines[..i + 1][..i] == lines[..i];
  }

  /** What one decoded chunk adds to the buffer. */
  function ChunkText(chunk: string, parse: string -> Option<Record>): string
  {
    LinesText(Lines(chunk), parse)
  }

  /** What each decoded chunk adds, chunk by chunk. */
  function ChunkTexts(chunks: seq<string>, parse: string -> Option<Record>): (ts: seq<string>)
    ensures |ts| == |chunks|
    ensures forall i :: 0 <= i < |chunks| ==> ts[i] == ChunkText(chunks[i], parse)
  {
    seq(|chunks|, i requires 0 <= i < |chunks| => ChunkText(chunks[i], parse))
  }

  function Concat(ts: seq<string>): string
  {
    if |ts| == 0 then "" else Concat(ts[..|ts| - 1]) + ts[|ts| - 1]
  }

  /** What a whole sequence of decoded chunks adds to the buffer, in order. */
  function StreamText(chunks: seq<string>, parse: string -> Option<Record>): string
  {
    Concat(ChunkTexts(chunks, parse))
  }

  lemma {:induction false} LinesTextAppend(a: seq<string>, b: seq<string>, parse: string -> Option<Record>)
    ensures LinesText(a + b, parse) == LinesText(a, parse) + LinesText(b, parse)
    decreases |b|
  {
    if |b| == 0 {
      assert a + b == a;
    } else {
      var front, last := b[..|b| - 1], b[|b| - 1];
      assert (a + b)[..|a + b| - 1] == a + front;
      assert (a + b)[|a + b| - 1] == last;
      LinesTextAppend(a, front, parse);
      calc {
        LinesText(a + b, parse);
        LinesText(a + front, parse) + LineText(last, parse);
        (LinesText(a, parse) + LinesText(front, parse)) + LineText(last, parse);
        LinesText(a, parse) + (LinesText(front, parse) + LineText(last, parse));
        LinesText(a, parse) + LinesText(b, parse);
      }
    }
  }

  lemma {:induction false} ConcatAppend(a: seq<string>, b: seq<string>)
    ensures Concat(a + b) == Concat(a) + Concat(b)
    decreases |b|
  {
    if |b| == 0 {
      assert a + b == a;
    } else {
      var front, last := b[..|b| - 1], b[|b| - 1];
      assert (a + b)[..|a + b| - 1] == a + front;
      assert (a + b)[|a + b| - 1] == last;
      ConcatAppend(a, front);
      calc {
        Concat(a + b);
        Concat(a + front) + last;
        (Concat(a) + Concat(front)) + last;
        Concat(a) + (Concat(front) + last);
        Concat(a) + Concat(b);
      }
    }
  }

  /** What the chunks of `a + b` add, chunk by chunk, is what those of `a`
      add followed by what those of `b` add. */
  lemma ChunkTextsAppend(a: seq<string>, b: seq<string>, parse: string -> Option<Record>)
    ensures ChunkTexts(a + b, parse) == ChunkTexts(a, parse) + ChunkTexts(b, parse)
  {
    var ab, ta, tb := ChunkTexts(a + b, parse), ChunkTexts(a, parse), ChunkTexts(b, parse);
    forall i | 0 <= i < |ab| ensures ab[i] == (ta + tb)[i] {
      if i < |a| {
        assert (a + b)[i] == a[i];
      } else {
        assert (a + b)[i] == b[i - |a|];
      }
    }
  }

  lemma StreamTextAppend(a: seq<string>, b: seq<string>, parse: string -> Option<Record>)
    ensures StreamText(a + b, parse) == StreamText(a, parse) + StreamText(b, parse)
  {
    ChunkTextsAppend(a, b, parse);
    ConcatAppend(ChunkTexts(a, parse), ChunkTexts(b, parse));
  }

  /** Reading one more chunk adds what that chunk adds. */
  lemma StreamTextSnoc(chunks: seq<string>, chunk: string, parse: string -> Option<Record>)
    ensures StreamText(chunks + [chunk], parse) == StreamText(chunks, parse) + ChunkText(chunk, parse)
  {
    var ts := ChunkTexts(chunks + [chunk], parse);
    assert ts[..|ts| - 1] == ChunkTexts(chunks, parse);
  }

  lemma StreamTextPrefix(chunks: seq<string>, k: nat, parse: string -> Option<Record>)
    requires k < |chunks|
    ensures StreamText(chunks[..k + 1], parse) == StreamText(chunks[..k], parse) + ChunkText(chunks[k], parse)
  {
    StreamTextSnoc(chunks[..k], chunks[k], parse);
    assert chunks[..k + 1] == chunks[..k] + [chunks[k]];
  }

  /** The buffer only grows: what the first k chunks add is a prefix of what
      all of them add. */
  lemma StreamTextGrows(chunks: seq<string>, k: nat, parse: string -> Option<Record>)
    requires k <= |chunks|
    ensures StreamText(chunks[..k], parse) <= StreamText(chunks, parse)
  {
    assert chunks[..k] + chunks[k..] == chunks;
    StreamTextAppend(chunks[..k], chunks[k..], parse);
  }

  /** The buffer is the in-order concatenation of what every line adds: a
      line that does not parse, between any others, changes nothing. */
  lemma SkipUnparseableLine(a: seq<string>, bad: string, b: seq<string>, parse: string -> Option<Record>)
    requires parse(bad).None?
    ensures LinesText(a + [bad] + b, parse) == LinesText(a + b, parse)
  {
    assert [bad][..0] == [];
    assert LineText(bad, parse) == "";
    assert LinesText([bad], parse) == "";
    LinesTextAppend(a, [bad], parse);
    LinesTextAppend(a + [bad], b, parse);
    LinesTextAppend(a, b, parse);
    calc {
      LinesText(a + [bad] + b, parse);
      LinesText(a + [bad], parse) + LinesText(b, parse);
      (LinesText(a, parse) + LinesText([bad], parse)) + LinesText(b, parse);
      LinesText(a, parse) + LinesText(b, parse);
      LinesText(a + b, parse);
    }
  }

  /** The lines of a text are the lines on each side of any one newline in it. */
  lemma LinesAtNewline(x: string, y: string)
    ensures Lines(x + "\n" + y) == Lines(x) + Lines(y)
  {
    assert x + "\n" + y == x + ['\n'] + y;
    SplitOnAtSep(x, y, '\n');
    NonEmptyAppend(SplitOn(x, '\n'), SplitOn(y, '\n'));
  }

  lemma LinesAroundLine(x: string, mid: string, y: string)
    ensures Lines(x + "\n" + mid + "\n" + y) == Lines(x) + Lines(mid) + Lines(y)
  {
    assert x + "\n" + mid + "\n" + y == x + "\n" + (mid + "\n" + y);
    LinesAtNewline(x, mid + "\n" + y);
    LinesAtNewline(mid, y);
  }

  /** Inserting an unparseable line into a chunk does not change what the chunk adds. */
  lemma ChunkSkipsUnparseableLine(x: string, bad: string, y: string, parse: string -> Option<Record>)
    requires '\n' !in bad
    requires parse(bad).None?
    ensures ChunkText(x + "\n" + bad + "\n" + y, parse) == ChunkText(x + "\n" + y, parse)
  {
    var lx, ly := Lines(x), Lines(y);
    LinesAroundLine(x, bad, y);
    LinesAtNewline(x, y);
    if bad == "" {
      assert Lines(bad) == [];
      assert lx + [] + ly == lx + ly;
    } else {
      SingleLine(bad);
      SkipUnparseableLine(lx, bad, ly, parse);
    }
  }

  /** A chunk boundary that falls on a newline is harmless: the two halves add
      what the whole would have added. */
  lemma ChunkBoundaryAtNewline(x: string, y: string, parse: string -> Option<Record>)
    ensures ChunkText(x + "\n" + y, parse) == ChunkText(x, parse) + ChunkText(y, parse)
  {
    LinesAtNewline(x, y);
    LinesTextAppend(Lines(x), Lines(y), parse);
  }

  lemma StreamTextOfTwo(x: string, y: string, parse: string -> Option<Record>)
    ensures StreamText([x], parse) == ChunkText(x, parse)
    ensures StreamText([x, y], parse) == ChunkText(x, parse) + ChunkText(y, parse)
  {
    StreamTextSnoc([], x, parse);
    StreamTextSnoc([x], y, parse);
    assert [] + [x] == [x] && [x] + [y] == [x, y];
  }

  /** Reading a text as one chunk or as two chunks split at a newline gives the same buffer. */
  lemma StreamSplitAtNewline(x: string, y: string, parse: string -> Option<Record>)
    ensures StreamText([x + "\n" + y], parse) == StreamText([x, y], parse)
  {
    ChunkBoundaryAtNewline(x, y, parse);
    StreamTextOfTwo(x + "\n" + y, y, parse);
    StreamTextOfTwo(x, y, parse);
  }

  lemma SingleLine(line: string)
    requires line != "" && '\n' !in line
    ensures Lines(line) == [line]
  {
    SplitOnWithoutSep(line, '\n');
    assert [line][1..] == [];
    assert NonEmpty([line]) == [line] + NonEmpty([]);
  }

  /** Partial lines are not carried across reads: a record split between two
      chunks is two parse failures and adds nothing, although the whole line
      would have added its response. */
  lemma SplitRecordIsLost(a: string, b: string, text: string, parse: string -> Option<Record>)
    requires a != "" && b != "" && '\n' !in a && '\n' !in b
    requires parse(a + b) == Some(Record(Some(text))) && text != ""
    requires parse(a).None? && parse(b).None?
    ensures StreamText([a + b], parse) == text
    ensures StreamText([a, b], parse) == ""
  {
    SplitOnWithoutSep(a, '\n');
    SplitOnWithoutSep(b, '\n');
    assert '\n' !in a + b;
    SplitOnWithoutSep(a + b, '\n');
    SingleLine(a);
    SingleLine(b);
    SingleLine(a + b);
    assert LinesText([a + b], parse) == LinesText([], parse) + LineText(a + b, parse);
    assert LinesText([a], parse) == LinesText([], parse) + LineText(a, parse);
    assert LinesText([b], parse) == LinesText([], parse) + LineText(b, parse);
    StreamTextOfTwo(a + b, b, parse);
    StreamTextOfTwo(a, b, parse);
  }
}
