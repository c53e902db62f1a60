/** The `text/event-stream` reader that both ends of the chat pipeline run: the
    chat page over the relay's response (page.tsx) and the relay's observer over
    the upstream response (route.ts). A reader keeps one text buffer; each chunk
    is appended to it, carriage returns are normalised to line feeds, and the
    buffer is cut at the earliest blank line into frames; the text after the last
    blank line stays buffered for the next chunk. A frame is then decoded into
    the payload of its `data:` lines, which `JSON.parse` turns into an event. */
module EventStream {
  import opened Text
  import opened Json

  const Blank: string := "\n\n"

  /** Text the splitter can emit as one frame: it holds no blank line and does
      not end with a line feed (otherwise the separator would have started one
      character earlier). */
  predicate IsFrameText(f: string) {
    !Contains(f, Blank) && (f == [] || f[|f| - 1] != '\n')
  }

  /** The frames written back to back, each followed by its separator. */
  function JoinFrames(frames: seq<string>): string {
    if frames == [] then [] else frames[0] + Blank + JoinFrames(frames[1..])
  }

  /** The text before the earliest blank line is a frame. */
  lemma PrefixBeforeSeparator(s: string, sep: int)
    requires sep >= 0 && sep == IndexOf(s, Blank)
    ensures IsFrameText(s[..sep])
  {
    var f := s[..sep];
    forall j | 0 <= j <= |f| ensures !OccursAt(f, Blank, j) {
      if OccursAt(f, Blank, j) {
        assert f[j..j + 2] == s[j..j + 2];
        assert OccursAt(s, Blank, j);
        assert false;
      }
    }
    if f != [] && f[|f| - 1] == '\n' {
      assert s[sep] == '\n' by { assert s[sep..sep + 2] == Blank; }
      assert s[sep - 1..sep + 1] == Blank;
      assert OccursAt(s, Blank, sep - 1);
      assert false;
    }
  }

  /** The whole-buffer cut: the frames before each earliest blank line, in order,
      and the text left over, which holds no blank line. With `SplitAllJoin` and
      `SplitAllFrames` this determines the result. */
  function SplitAll(s: string): (r: (seq<string>, string))
    ensures !Contains(r.1, Blank)
    decreases |s|
  {
    var sep := IndexOf(s, Blank);
    if sep < 0 then
      IndexOfMissing(s, Blank);
      ([], s)
    else
      ([s[..sep]] + SplitAll(s[sep + 2..]).0, SplitAll(s[sep + 2..]).1)
  }

  /** Writing the frames back with their separators and appending the rest gives
      the input back. */
  lemma {:induction false} SplitAllJoin(s: string)
    ensures JoinFrames(SplitAll(s).0) + SplitAll(s).1 == s
    decreases |s|
  {
    var sep := IndexOf(s, Blank);
    if sep >= 0 {
      SeparatorSplits(s, sep);
      var tail := SplitAll(s[sep + 2..]);
      SplitAllJoin(s[sep + 2..]);
      JoinCons(s[..sep], tail.0, tail.1);
    }
  }

  lemma SeparatorSplits(s: string, sep: int)
    requires sep >= 0 && OccursAt(s, Blank, sep)
    ensures s == s[..sep] + Blank + s[sep + 2..]
  {
  }

  /** Every frame the cut emits is frame text. */
  lemma {:induction false} SplitAllFrames(s: string)
    ensures forall f <- SplitAll(s).0 :: IsFrameText(f)
    decreases |s|
  {
    var sep := IndexOf(s, Blank);
    if sep >= 0 {
      PrefixBeforeSeparator(s, sep);
      SplitAllFrames(s[sep + 2..]);
    }
  }

  lemma JoinCons(f: string, frames: seq<string>, rest: string)
    ensures JoinFrames([f] + frames) + rest == f + Blank + (JoinFrames(frames) + rest)
  {
    assert ([f] + frames)[1..] == frames;
  }

  /** The earliest blank line of `a` is also the earliest of `a + b`. */
  lemma SeparatorInPrefix(a: string, b: string, sep: int)
    requires sep >= 0 && sep == IndexOf(a, Blank)
    ensures IndexOf(a + b, Blank) == sep
  {
    assert (a + b)[sep..sep + 2] == a[sep..sep + 2];
    forall j | 0 <= j < sep ensures !OccursAt(a + b, Blank, j) {
      assert (a + b)[j..j + 2] == a[j..j + 2];
      assert !OccursAt(a, Blank, j);
    }
    IndexOfAt(a + b, Blank, sep);
  }

  /** Cutting a longer text: the frames of the prefix come first, and the rest of
      the prefix is cut again together with what follows. */
  lemma {:induction false} SplitAppend(a: string, b: string)
    ensures SplitAll(a + b) == (SplitAll(a).0 + SplitAll(SplitAll(a).1 + b).0, SplitAll(SplitAll(a).1 + b).1)
    decreases |a|
  {
    var sep := IndexOf(a, Blank);
    if sep >= 0 {
      SplitAppend(a[sep + 2..], b);
      SplitAppendCut(a, b, sep);
    } else {
      assert [] + SplitAll(a + b).0 == SplitAll(a + b).0;
    }
  }

  /** The inductive step of `SplitAppend`, once the cut after the first frame of
      `a` is known to satisfy it. */
  lemma SplitAppendCut(a: string, b: string, sep: int)
    requires sep >= 0 && sep == IndexOf(a, Blank)
    requires var a' := a[sep + 2..];
      SplitAll(a' + b) == (SplitAll(a').0 + SplitAll(SplitAll(a').1 + b).0, SplitAll(SplitAll(a').1 + b).1)
    ensures SplitAll(a + b) == (SplitAll(a).0 + SplitAll(SplitAll(a).1 + b).0, SplitAll(SplitAll(a).1 + b).1)
  {
    var a' := a[sep + 2..];
    SeparatorInPrefix(a, b, sep);
    DropAppend(a, b, sep + 2);
    assert (a + b)[..sep] == a[..sep];
    SplitStep(a, sep);
    SplitStep(a + b, sep);
    var left := SplitAll(a');
    var right := SplitAll(left.1 + b);
    assert [a[..sep]] + (left.0 + right.0) == ([a[..sep]] + left.0) + right.0;
  }

  /** One cut: the frame before the earliest blank line, then the cut of the text
      after it. */
  lemma SplitStep(s: string, sep: int)
    requires sep >= 0 && sep == IndexOf(s, Blank)
    ensures SplitAll(s) == ([s[..sep]] + SplitAll(s[sep + 2..]).0, SplitAll(s[sep + 2..]).1)
  {
  }

  /** A frame text followed by its separator is cut off as exactly that frame. */
  lemma SplitFramed(f: string, rest: string)
    requires IsFrameText(f)
    ensures SplitAll(f + Blank + rest) == ([f] + SplitAll(rest).0, SplitAll(rest).1)
  {
    var s := f + Blank + rest;
    assert s[|f|..|f| + 2] == Blank;
    assert OccursAt(s, Blank, |f|);
    forall j | 0 <= j < |f| ensures !OccursAt(s, Blank, j) {
      if j + 2 <= |f| {
        assert s[j..j + 2] == f[j..j + 2];
        assert !OccursAt(f, Blank, j);
      } else {
        assert s[j] == f[|f| - 1];
      }
    }
    IndexOfAt(s, Blank, |f|);
    assert s[..|f|] == f;
    assert s[|f| + 2..] == rest;
  }

  /** After normalisation no CR LF CR LF separator can be found. */
  lemma NoCrLfSeparator(s: string)
    requires '\r' !in s
    ensures IndexOf(s, "\r\n\r\n") == -1
  {
    forall i | 0 <= i <= |s| ensures !OccursAt(s, "\r\n\r\n", i) {
      if i < |s| {
        assert s[i] in s;
      }
    }
  }

  /** Cutting one frame off the buffer keeps the reader's loop invariant. */
  lemma CutOneFrame(whole: string, frames: seq<string>, buf: string, sep: int)
    requires '\r' !in buf && sep >= 0 && sep == IndexOf(buf, Blank)
    requires SplitAll(whole) == (frames + SplitAll(buf).0, SplitAll(buf).1)
    ensures '\r' !in buf[sep + 2..]
    ensures SplitAll(whole) == ((frames + [buf[..sep]]) + SplitAll(buf[sep + 2..]).0, SplitAll(buf[sep + 2..]).1)
  {
    SplitStep(buf, sep);
    assert forall c <- buf[sep + 2..] :: c in buf;
    var tail := SplitAll(buf[sep + 2..]).0;
    assert frames + ([buf[..sep]] + tail) == (frames + [buf[..sep]]) + tail;
  }

  /** One arrival of a chunk at a reader whose buffer is `buffer` (page.tsx
      lines 217-239, the observer of route.ts lines 68-74): the frames completed by
      the chunk, in order, and the new buffer. The client searches for both a
      LF LF and a CR LF CR LF separator and takes the earlier; the observer
      searches for LF LF only. Both are this method, because no carriage return
      survives normalisation and the second search never succeeds. */
  method PushChunk(buffer: string, chunk: string) returns (frames: seq<string>, rest: string)
    ensures (frames, rest) == SplitAll(NormalizeNewlines(buffer + chunk))
    ensures '\r' !in rest && !Contains(rest, Blank)
  {
    var buf := buffer + chunk;
    if '\r' in buf {
      buf := NormalizeNewlines(buf);
    }
    ghost var whole := buf;
    frames := [];
    assert [] + SplitAll(buf).0 == SplitAll(buf).0;
    while true
      invariant '\r' !in buf
      invariant SplitAll(whole) == (frames + SplitAll(buf).0, SplitAll(buf).1)
      decreases |buf|
    {
      var lfSep := IndexOf(buf, Blank);
      var crlfSep := IndexOf(buf, "\r\n\r\n");
      NoCrLfSeparator(buf);
      var sep, sepLen := -1, 2;
      if lfSep != -1 && crlfSep != -1 {
        sep := if lfSep < crlfSep then lfSep else crlfSep;
        sepLen := if sep == lfSep then 2 else 4;
      } else if lfSep != -1 {
        sep, sepLen := lfSep, 2;
      } else if crlfSep != -1 {
        sep, sepLen := crlfSep, 4;
      }
      if sep == -1 {
        assert SplitAll(buf).0 == [];
        assert frames + [] == frames;
        break;
      }
      assert sep == lfSep && sepLen == 2;
      CutOneFrame(whole, frames, buf, sep);
      frames := frames + [buf[..sep]];
      buf := buf[sep + sepLen..];
    }
    rest := buf;
  }

  /** The chunks received so far, in order. */
  function Concat(chunks: seq<string>): string {
    if chunks == [] then [] else Concat(chunks[..|chunks| - 1]) + chunks[|chunks| - 1]
  }

  /** The chunks, each normalised on its own. */
  function NormalizedConcat(chunks: seq<string>): (r: string)
    ensures '\r' !in r
  {
    if chunks == [] then []
    else NormalizedConcat(chunks[..|chunks| - 1]) + NormalizeNewlines(chunks[|chunks| - 1])
  }

  /** A reader fed `chunks` one after another, starting from `buffer`: all frames
      it emits, and its final buffer. */
  function Feed(buffer: string, chunks: seq<string>): (seq<string>, string) {
    if chunks == [] then ([], buffer)
    else
      var prev := Feed(buffer, chunks[..|chunks| - 1]);
      var step := SplitAll(NormalizeNewlines(prev.1 + chunks[|chunks| - 1]));
      (prev.0 + step.0, step.1)
  }

  /** No chunk boundary falls between a CR and the LF after it. */
  predicate CleanCuts(chunks: seq<string>) {
    chunks == [] ||
    (CleanCuts(chunks[..|chunks| - 1]) && CleanCut(Concat(chunks[..|chunks| - 1]), chunks[|chunks| - 1]))
  }

  /** Feeding chunks one at a time cuts the chunk-wise normalised stream as a whole. */
  lemma {:induction false} FeedSplitsNormalized(buffer: string, chunks: seq<string>)
    requires '\r' !in buffer && !Contains(buffer, Blank)
    ensures Feed(buffer, chunks) == SplitAll(buffer + NormalizedConcat(chunks))
    decreases |chunks|
  {
    if chunks == [] {
      assert buffer + [] == buffer;
      assert IndexOf(buffer, Blank) == -1;
    } else {
      var init, last := chunks[..|chunks| - 1], chunks[|chunks| - 1];
      FeedSplitsNormalized(buffer, init);
      var prev := Feed(buffer, init);
      var x := buffer + NormalizedConcat(init);
      SplitAllJoin(x);
      assert '\r' !in x;
      assert JoinFrames(prev.0) + prev.1 == x;
      assert '\r' !in prev.1;
      NormalizeAfterClean(prev.1, last);
      SplitAppend(buffer + NormalizedConcat(init), NormalizeNewlines(last));
      assert buffer + NormalizedConcat(chunks) == (buffer + NormalizedConcat(init)) + NormalizeNewlines(last);
    }
  }

  /** Under clean cuts, normalising chunk by chunk is normalising the whole. */
  lemma {:induction false} NormalizedConcatClean(chunks: seq<string>)
    requires CleanCuts(chunks)
    ensures NormalizedConcat(chunks) == NormalizeNewlines(Concat(chunks))
    decreases |chunks|
  {
    if chunks != [] {
      var init, last := chunks[..|chunks| - 1], chunks[|chunks| - 1];
      NormalizedConcatClean(init);
      NormalizeAppend(Concat(init), last);
    }
  }

  /** Chunking independence: as long as no chunk boundary separates a CR from
      the LF after it, a stream fed in any number of chunks yields the same frames
      and the same final buffer as the whole stream fed at once. */
  lemma ChunkingIndependent(chunks: seq<string>)
    requires CleanCuts(chunks)
    ensures Feed("", chunks) == Feed("", [Concat(chunks)])
  {
    var whole := [Concat(chunks)];
    FeedSplitsNormalized("", chunks);
    FeedSplitsNormalized("", whole);
    NormalizedConcatClean(chunks);
    assert whole[..0] == [];
    assert NormalizedConcat(whole) == NormalizeNewlines(Concat(chunks));
  }

  lemma {:induction false} CleanCutsWithoutCr(chunks: seq<string>)
    requires forall c <- chunks :: '\r' !in c
    ensures CleanCuts(chunks) && '\r' !in Concat(chunks)
    decreases |chunks|
  {
    if chunks != [] {
      var init := chunks[..|chunks| - 1];
      assert forall c <- init :: c in chunks;
      CleanCutsWithoutCr(init);
      assert chunks[|chunks| - 1] in chunks;
      var c := Concat(init);
      assert c != [] ==> c[|c| - 1] in c;
    }
  }

  /** For a stream with no carriage return, any split into chunks gives the
      frames of cutting the whole stream at once. */
  lemma ChunkingIndependentWithoutCr(chunks: seq<string>)
    requires forall c <- chunks :: '\r' !in c
    ensures Feed("", chunks) == SplitAll(Concat(chunks))
  {
    CleanCutsWithoutCr(chunks);
    ChunkingIndependent(chunks);
    FeedOne(Concat(chunks));
  }

  /** The whole stream fed at once, to a fresh reader. */
  lemma FeedOne(text: string)
    ensures Feed("", [text]) == SplitAll(NormalizeNewlines(text))
  {
    var one := [text];
    assert one[..0] == [];
    assert [] + text == text;
    var step := SplitAll(NormalizeNewlines(text));
    assert Feed("", one) == ([] + step.0, step.1);
    assert [] + step.0 == step.0;
  }

  /** A blank line starts at `i` exactly when two line feeds do. */
  lemma BlankAt(s: string, i: int)
    ensures OccursAt(s, Blank, i) <==> 0 <= i && i + 2 <= |s| && s[i] == '\n' && s[i + 1] == '\n'
  {
    if 0 <= i && i + 2 <= |s| && s[i] == '\n' && s[i + 1] == '\n' {
      assert s[i..i + 2] == Blank;
    }
  }

  /** A text with no two line feeds in a row is all rest. */
  lemma SplitNoBlank(s: string)
    requires forall i | 0 <= i < |s| - 1 :: !(s[i] == '\n' && s[i + 1] == '\n')
    ensures SplitAll(s) == ([], s)
  {
    forall i | 0 <= i <= |s| ensures !OccursAt(s, Blank, i) {
      BlankAt(s, i);
    }
  }

  /** The earliest two line feeds in a row, at `i`, cut the first frame. */
  lemma SplitAtBlank(s: string, i: nat)
    requires i + 2 <= |s| && s[i] == '\n' && s[i + 1] == '\n'
    requires forall j | 0 <= j < i :: !(s[j] == '\n' && s[j + 1] == '\n')
    ensures SplitAll(s) == ([s[..i]] + SplitAll(s[i + 2..]).0, SplitAll(s[i + 2..]).1)
  {
    BlankAt(s, i);
    forall j | 0 <= j < i ensures !OccursAt(s, Blank, j) {
      BlankAt(s, j);
    }
    IndexOfAt(s, Blank, i);
    SplitStep(s, i);
  }

  /** A CR LF pair split across two chunks is read as two line feeds: the
      buffer turns the lone CR into a LF before the LF arrives, so the blank line
      this makes cuts a frame that the unsplit stream (`CrLfInOneChunk`) does not
      have. */
  lemma CrLfSplitAcrossChunks()
    ensures Feed("", ["a\r", "\na\n\n"]) == (["a", "a"], "")
  {
    var split: seq<string> := ["a\r", "\na\n\n"];
    NormalizeTrailingCr();
    FeedOne("a\r");
    SplitNoBlank("a\n");
    assert Feed("", split[..1]) == ([], "a\n") by { assert split[..1] == ["a\r"]; }
    var s := "a\n" + "\na\n\n";
    assert s == "a\n\na\n\n";
    assert NormalizeNewlines(s) == s;
    SplitTwoFrames();
    assert Feed("", split) == ([] + SplitAll(s).0, SplitAll(s).1);
    assert [] + ["a", "a"] == ["a", "a"];
  }

  lemma SplitTwoFrames()
    ensures SplitAll("a\n\na\n\n") == (["a", "a"], "")
  {
    var s := "a\n\na\n\n";
    SplitAtBlank(s, 1);
    assert s[..1] == "a" && s[3..] == "a\n\n";
    SplitAtBlank("a\n\n", 1);
    assert "a\n\n"[..1] == "a" && "a\n\n"[3..] == "";
    SplitNoBlank("");
    assert ["a"] + [] == ["a"] && ["a"] + ["a"] == ["a", "a"];
    assert SplitAll("a\n\n") == (["a"], "");
  }

  lemma NormalizeTrailingCr()
    ensures NormalizeNewlines("a\r") == "a\n"
  {
    ReplaceCrLfStep("a\r");
    ReplaceCrLfStep("\r");
    assert ReplaceCrLf("a\r") == "a\r";
  }

  lemma CrLfInOneChunk()
    ensures Feed("", ["a\r\na\n\n"]) == (["a\na"], "")
  {
    var s := "a\r\na\n\n";
    var n := "a\na\n\n";
    NormalizeLeadingCrLf();
    FeedOne(s);
    SplitAtBlank(n, 3);
    assert n[..3] == "a\na" && n[5..] == "";
    SplitNoBlank("");
    assert ["a\na"] + [] == ["a\na"];
  }

  lemma NormalizeLeadingCrLf()
    ensures NormalizeNewlines("a\r\na\n\n") == "a\na\n\n"
  {
    var s := "a\r\na\n\n";
    ReplaceCrLfStep(s);
    ReplaceCrLfStep(s[1..]);
    assert s[1..][2..] == "a\n\n";
    ReplaceCrLfClean("a\n\n");
    assert ReplaceCrLf(s) == "a\na\n\n";
    ReplaceCrClean("a\na\n\n");
  }

  /** The frames emitted for a prefix of the chunks are a prefix of the frames
      emitted for all of them. */
  lemma {:induction false} FeedPrefix(buffer: string, chunks: seq<string>, n: nat)
    requires n <= |chunks|
    ensures Feed(buffer, chunks[..n]).0 <= Feed(buffer, chunks).0
    decreases |chunks|
  {
    if n < |chunks| {
      var init := chunks[..|chunks| - 1];
      assert init[..n] == chunks[..n];
      FeedPrefix(buffer, init, n);
    } else {
      assert chunks[..n] == chunks;
    }
  }

  predicate IsComment(line: string) {
    StartsWith(line, ":")
  }

  predicate IsDataLine(line: string) {
    StartsWith(line, "data:")
  }

  /** `lines.filter(l => l.startsWith('data:')).map(l => l.slice(5).trimStart())`. */
  function DataValues(lines: seq<string>): seq<string> {
    if lines == [] then []
    else if IsDataLine(lines[0]) then [TrimStart(lines[0][5..])] + DataValues(lines[1..])
    else DataValues(lines[1..])
  }

  /** The payload of one frame (page.tsx lines 241-248, route.ts lines 75-78):
      none for a frame whose lines are all comments or whose data lines carry
      nothing, otherwise the data values joined by line feeds. */
  function DecodeFrame(raw: string): (payload: Option<string>)
    ensures payload.Some? ==> payload.value != []
  {
    var lines := SplitLines(raw);
    if forall l <- lines :: IsComment(l) then None
    else
      var data := JoinLines(DataValues(lines));
      if data == [] then None else Some(data)
  }

  /** A frame without a `data:` line carries no payload; in particular a frame of
      comment lines only. */
  lemma NoDataLineNoPayload(raw: string)
    requires forall l <- SplitLines(raw) :: !IsDataLine(l)
    ensures DecodeFrame(raw) == None
  {
    NoDataValues(SplitLines(raw));
  }

  lemma {:induction false} NoDataValues(lines: seq<string>)
    requires forall l <- lines :: !IsDataLine(l)
    ensures DataValues(lines) == []
    decreases |lines|
  {
    if lines != [] {
      assert lines[0] in lines;
      assert forall l <- lines[1..] :: l in lines;
      NoDataValues(lines[1..]);
    }
  }

  /** Splitting text written as lines joined by line feeds gives back those lines. */
  lemma {:induction false} SplitJoinLines(lines: seq<string>)
    requires |lines| >= 1 && forall l <- lines :: '\n' !in l
    ensures SplitLines(JoinLines(lines)) == lines
    decreases |lines|, |lines[0]|
  {
    if |lines| == 1 {
      SplitLinesWithoutFeed(lines[0]);
    } else if lines[0] == [] {
      var tail := lines[1..];
      assert forall l <- tail :: l in lines;
      SplitJoinLines(tail);
      assert JoinLines(lines) == "\n" + JoinLines(tail);
      assert ("\n" + JoinLines(tail))[1..] == JoinLines(tail);
    } else {
      var shorter := [lines[0][1..]] + lines[1..];
      assert forall l <- shorter :: '\n' !in l by {
        assert forall l <- shorter[1..] :: l in lines;
        assert lines[0] in lines;
      }
      SplitJoinLines(shorter);
      JoinLinesCons(lines);
      assert lines[0][0] in lines[0] && lines[0] in lines;
      SplitLinesCons(lines[0][0], JoinLines(shorter));
      ConsBack(lines);
    }
  }

  /** Lines rebuilt from the first character of the first line and the rest. */
  lemma ConsBack(lines: seq<string>)
    requires |lines| >= 1 && lines[0] != []
    ensures [[lines[0][0]] + lines[0][1..]] + lines[1..] == lines
  {
    assert [lines[0][0]] + lines[0][1..] == lines[0];
  }

  /** Joining lines whose first is not empty starts with its first character. */
  lemma JoinLinesCons(lines: seq<string>)
    requires |lines| >= 1 && lines[0] != []
    ensures JoinLines(lines) == [lines[0][0]] + JoinLines([lines[0][1..]] + lines[1..])
  {
    var c := lines[0][0];
    var shorter := [lines[0][1..]] + lines[1..];
    assert lines[0] == [c] + lines[0][1..];
    if |lines| > 1 {
      assert shorter[1..] == lines[1..];
      var rest := JoinLines(lines[1..]);
      assert JoinLines(shorter) == lines[0][1..] + "\n" + rest;
      assert JoinLines(lines) == lines[0] + "\n" + rest;
      ConsAssoc(c, lines[0][1..], "\n", rest);
    }
  }

  lemma ConsAssoc(c: char, a: string, b: string, d: string)
    ensures [c] + a + b + d == [c] + (a + b + d)
  {
  }

  /** Splitting text that starts with a character other than a line feed. */
  lemma SplitLinesCons(c: char, s: string)
    requires c != '\n'
    ensures SplitLines([c] + s) == [[c] + SplitLines(s)[0]] + SplitLines(s)[1..]
  {
    assert ([c] + s)[1..] == s;
  }

  lemma {:induction false} SplitLinesWithoutFeed(s: string)
    requires '\n' !in s
    ensures SplitLines(s) == [s]
    decreases |s|
  {
    if s != [] {
      assert s[0] in s;
      SplitLinesWithoutFeed(s[1..]);
      assert [s[0]] + s[1..] == s;
    }
  }

  /** A frame made only of `data:` lines decodes to their values (with one
      separating space or other leading white space dropped) joined by line feeds,
      as long as that is not empty. */
  lemma DecodeDataLines(values: seq<string>, spaces: seq<string>)
    requires |values| >= 1 && |spaces| == |values|
    requires forall i :: 0 <= i < |values| ==>
      '\n' !in values[i] && '\n' !in spaces[i] && (values[i] == [] || !IsJsWhitespace(values[i][0]))
      && forall c <- spaces[i] :: IsJsWhitespace(c)
    requires JoinLines(values) != []
    ensures DecodeFrame(JoinLines(DataLines(values, spaces))) == Some(JoinLines(values))
  {
    var lines := DataLines(values, spaces);
    DataLinesFacts(values, spaces);
    SplitJoinLines(lines);
    assert !IsComment(lines[0]);
  }

  /** The lines `"data:" + spaces[i] + values[i]`. */
  function DataLines(values: seq<string>, spaces: seq<string>): seq<string>
    requires |spaces| == |values|
  {
    seq(|values|, i requires 0 <= i < |values| => "data:" + spaces[i] + values[i])
  }

  lemma {:induction false} DataLinesFacts(values: seq<string>, spaces: seq<string>)
    requires |spaces| == |values|
    requires forall i :: 0 <= i < |values| ==>
      '\n' !in values[i] && '\n' !in spaces[i] && (values[i] == [] || !IsJsWhitespace(values[i][0]))
      && forall c <- spaces[i] :: IsJsWhitespace(c)
    ensures forall l <- DataLines(values, spaces) :: '\n' !in l && IsDataLine(l)
    ensures DataValues(DataLines(values, spaces)) == values
    decreases |values|
  {
    var lines := DataLines(values, spaces);
    forall i | 0 <= i < |lines| ensures '\n' !in lines[i] && IsDataLine(lines[i]) {
      DataLineFacts(spaces[i], values[i]);
    }
    if values != [] {
      assert DataLines(values[1..], spaces[1..]) == lines[1..];
      DataLinesFacts(values[1..], spaces[1..]);
      DataLineFacts(spaces[0], values[0]);
    }
  }

  /** One line `"data:" + space + value`. */
  lemma DataLineFacts(space: string, value: string)
    requires '\n' !in value && '\n' !in space && (value == [] || !IsJsWhitespace(value[0]))
    requires forall c <- space :: IsJsWhitespace(c)
    ensures var line := "data:" + space + value;
      '\n' !in line && IsDataLine(line) && TrimStart(line[5..]) == value
  {
    var line := "data:" + space + value;
    assert line[..5] == "data:";
    assert line[5..] == space + value;
    assert '\n' !in "data:";
    assert line == "data:" + (space + value);
    assert '\n' !in space + value;
    TrimWhitespacePrefix(space, value);
  }

  lemma {:induction false} TrimWhitespacePrefix(w: string, v: string)
    requires forall c <- w :: IsJsWhitespace(c)
    requires v == [] || !IsJsWhitespace(v[0])
    ensures TrimStart(w + v) == v
    decreases |w|
  {
    if w == [] {
      assert w + v == v;
    } else {
      assert w[0] in w;
      assert (w + v)[1..] == w[1..] + v;
      TrimWhitespacePrefix(w[1..], v);
    }
  }

  /** A frame made of one comment line yields no payload. */
  lemma DecodeCommentLine(c: string)
    requires '\n' !in c
    ensures DecodeFrame(": " + c) == None
  {
    SplitLinesWithoutFeed(": " + c);
    assert (": " + c)[..1] == ":";
  }

  /** The event a frame carries: its payload, if any, through `JSON.parse`, whose
      failures (None) drop the frame. */
  function FrameEvent(frame: string, parse: string -> Option<Json>): Option<Json> {
    match DecodeFrame(frame)
    case None => None
    case Some(payload) => parse(payload)
  }

  /** The events of a frame sequence, in order; undecodable frames are skipped. */
  function EventsOf(frames: seq<string>, parse: string -> Option<Json>): seq<Json> {
    if frames == [] then []
    else
      var e := FrameEvent(frames[|frames| - 1], parse);
      EventsOf(frames[..|frames| - 1], parse) + (if e.Some? then [e.value] else [])
  }

  lemma {:induction false} EventsOfAppend(a: seq<string>, b: seq<string>, parse: string -> Option<Json>)
    ensures EventsOf(a + b, parse) == EventsOf(a, parse) + EventsOf(b, parse)
    decreases |b|
  {
    if b == [] {
      assert a + b == a;
    } else {
      var init := b[..|b| - 1];
      assert (a + b)[..|a + b| - 1] == a + init;
      EventsOfAppend(a, init, parse);
    }
  }

  /** The events of one more frame. */
  lemma EventsOfStep(frames: seq<string>, i: nat, parse: string -> Option<Json>)
    requires i < |frames|
    ensures var e := FrameEvent(frames[i], parse);
      EventsOf(frames[..i + 1], parse) == EventsOf(frames[..i], parse) + (if e.Some? then [e.value] else [])
  {
    assert frames[..i + 1][..i] == frames[..i];
  }

  /** A frame that fails to decode or to parse does not stop the frames after it:
      the events are those of the frames before it followed by those after it. */
  lemma BadFrameSkipped(a: seq<string>, bad: string, b: seq<string>, parse: string -> Option<Json>)
    requires FrameEvent(bad, parse) == None
    ensures EventsOf(a + [bad] + b, parse) == EventsOf(a, parse) + EventsOf(b, parse)
  {
    EventsOfAppend(a + [bad], b, parse);
    assert (a + [bad])[..|a|] == a;
  }

  lemma EventsOfPrefix(a: seq<string>, b: seq<string>, parse: string -> Option<Json>)
    requires a <= b
    ensures EventsOf(a, parse) <= EventsOf(b, parse)
  {
    assert b == a + b[|a|..];
    EventsOfAppend(a, b[|a|..], parse);
  }
}
