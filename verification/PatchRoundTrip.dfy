/** Writing a patch set and parsing it again, in utils/check-style.py: exactly the patch sets that the parser can
    produce survive, and a line that looks like a file header is what does not. */
module PatchRoundTrip {
  import opened PatchText
  import opened Wrappers
  import opened LinearScan

  predicate LineOk(line: Line) {
    && '\n' !in line.text
    && !(line.kind == SRC && "-- " <= line.text)
    && !(line.kind == DST && "++ " <= line.text)
  }

  ghost predicate ChunkOk(chunk: Chunk) {
    forall i :: 0 <= i < |chunk.lines| ==> LineOk(chunk.lines[i])
  }

  ghost predicate PatchOk(patch: Patch) {
    && '\n' !in patch.src && '\n' !in patch.dst
    && forall i :: 0 <= i < |patch.chunks| ==> ChunkOk(patch.chunks[i])
  }

  /** No newline inside a name or a line, no removed line that starts with "-- ", no added one with "++ ". */
  ghost predicate WellFormed(patches: seq<Patch>) {
    forall i :: 0 <= i < |patches| ==> PatchOk(patches[i])
  }

  // ----- what a written line is recognised as

  lemma AfterWritten(prefix: string, text: string)
    requires '\n' !in prefix && '\n' !in text
    ensures StripNewline(prefix + text + "\n") == prefix + text
    ensures After(prefix, prefix + text + "\n") == Some(text)
  {
    assert (prefix + text + "\n")[..|prefix + text|] == prefix + text;
  }

  /** A body line is neither a file header nor the head of a chunk. */
  lemma LineIsNoHeader(line: Line)
    requires LineOk(line)
    ensures var written := LineText(line);
            After("--- ", written).None? && After("+++ ", written).None? && ChunkStart(written).None?
  {
    AfterWritten(Sign(line.kind), line.text);
    assert "--- " == ['-'] + "-- " && "+++ " == ['+'] + "++ ";
    assert LineText(line)[0] == Sign(line.kind)[0];
  }

  lemma LineIsRecognised(line: Line)
    requires LineOk(line)
    ensures Classify(LineText(line)) == Body(line)
  {
    LineIsNoHeader(line);
    AfterWritten(Sign(line.kind), line.text);
    hide ChunkStart;
    assert LineText(line)[0] == Sign(line.kind)[0];
  }

  lemma SrcHeadIsRecognised(name: string)
    requires '\n' !in name
    ensures Classify("--- " + name + "\n") == SrcFile(name)
  {
    AfterWritten("--- ", name);
  }

  lemma DstHeadIsRecognised(name: string)
    requires '\n' !in name
    ensures Classify("+++ " + name + "\n") == DstFile(name)
  {
    AfterWritten("+++ ", name);
    assert ("+++ " + name)[0] == '+';
  }

  lemma OneDigit(c: char, s: string)
    requires IsDigit(c)
    ensures TakeDigits([c] + s) == ([c] + TakeDigits(s).0, TakeDigits(s).1)
  {
    assert ([c] + s)[1..] == s;
  }

  lemma NoDigit(rest: string)
    requires rest != "" ==> !IsDigit(rest[0])
    ensures TakeDigits(rest) == ("", rest)
  {
  }

  lemma {:induction false} DigitsTaken(digits: string, rest: string)
    requires forall c :: c in digits ==> IsDigit(c)
    requires rest != "" ==> !IsDigit(rest[0])
    ensures TakeDigits(digits + rest) == (digits, rest)
  {
    hide TakeDigits;
    if digits == "" {
      assert digits + rest == rest;
      NoDigit(rest);
    } else {
      assert digits[0] in digits;
      DigitsTaken(digits[1..], rest);
      OneDigit(digits[0], digits[1..] + rest);
      assert digits == [digits[0]] + digits[1..];
      assert digits + rest == [digits[0]] + (digits[1..] + rest);
    }
  }

  lemma NumberTaken(n: nat, separator: string, rest: string)
    requires separator != "" && !IsDigit(separator[0])
    ensures TakeNumber(Decimal(n) + separator + rest, separator) == Some((n, rest))
  {
    DecimalRoundTrip(n);
    DigitsTaken(Decimal(n), separator + rest);
    assert Decimal(n) + separator + rest == Decimal(n) + (separator + rest);
  }

  /** How many lines are of the kind. */
  ghost function CountOf(lines: seq<Line>, kind: LineKind): nat {
    if lines == [] then 0 else CountOf(lines[..|lines| - 1], kind) + (if lines[|lines| - 1].kind == kind then 1 else 0)
  }

  /** Each side is the scan for the lines that are not only on the other, and has so many. */
  lemma {:induction false} SidesByKind(lines: seq<Line>)
    ensures SrcLines(lines) == Filter(lines, (l: Line) => l.kind != DST)
    ensures DstLines(lines) == Filter(lines, (l: Line) => l.kind != SRC)
    ensures |SrcLines(lines)| + CountOf(lines, DST) == |lines|
    ensures |DstLines(lines)| + CountOf(lines, SRC) == |lines|
  {
    if lines != [] {
      SidesByKind(lines[..|lines| - 1]);
    }
  }

  /** The header that is written gives back the positions, and its counts are the lines that are not only on the other
      side. */
  lemma HeaderIsRecognised(chunk: Chunk)
    ensures CountOf(chunk.lines, DST) <= |chunk.lines| && CountOf(chunk.lines, SRC) <= |chunk.lines|
    ensures Classify(HeaderText(chunk)) == ChunkHead(Header(chunk.srcPos, |chunk.lines| - CountOf(chunk.lines, DST),
                                                            chunk.dstPos, |chunk.lines| - CountOf(chunk.lines, SRC)))
  {
    hide TakeNumber, Decimal, SrcLines, DstLines, CountOf, Filter;
    SidesByKind(chunk.lines);
    var a, b := chunk.srcPos, |SrcLines(chunk.lines)|;
    var c, d := chunk.dstPos, |DstLines(chunk.lines)|;
    var r3 := Decimal(d) + " @@" + "\n";
    var r2 := Decimal(c) + "," + r3;
    var r1 := Decimal(b) + " +" + r2;
    var r0 := Decimal(a) + "," + r1;
    var text := HeaderText(chunk);
    assert text == "@@ -" + r0;
    assert text[0] == '@';
    assert text[4..] == r0;
    NumberTaken(a, ",", r1);
    NumberTaken(b, " +", r2);
    NumberTaken(c, ",", r3);
    NumberTaken(d, " @@", "\n");
    assert StripNewline(text)[0] == '@';
  }

  ghost function ExampleChunk(): Chunk {
    Chunk(1, 1, [Line(BOTH, "x"), Line(SRC, "y"), Line(DST, "z")])
  }

  lemma ExampleHeader()
    ensures HeaderText(ExampleChunk()) == "@@ -1,2 +1,2 @@\n"
  {
    var lines := ExampleChunk().lines;
    assert CountOf(lines[..0], DST) == CountOf(lines[..0], SRC) == 0;
    assert lines[..3] == lines && lines[..3][..2] == lines[..2] && lines[..2][..1] == lines[..1] && lines[..1][..0] == lines[..0];
    assert CountOf(lines[..1], DST) == CountOf(lines[..1], SRC) == 0;
    assert CountOf(lines[..2], DST) == 0 && CountOf(lines[..2], SRC) == 1;
    assert CountOf(lines, DST) == CountOf(lines, SRC) == 1;
    SidesByKind(lines);
    hide CountOf, SrcLines, DstLines;
    assert Decimal(1) == "1" && Decimal(2) == "2";
  }

  /** A chunk with one line of each kind. */
  lemma ChunkExample()
    ensures ChunkText(ExampleChunk()) == ["@@ -1,2 +1,2 @@\n", " x\n", "-y\n", "+z\n"]
  {
    hide HeaderText;
    ExampleHeader();
    var lines := ExampleChunk().lines;
    assert lines[..3] == lines && lines[..0] == [];
    LinesTextNext(lines, 0);
    LinesTextNext(lines, 1);
    LinesTextNext(lines, 2);
    hide LinesText;
    assert LineText(lines[0]) == " x\n" && LineText(lines[1]) == "-y\n" && LineText(lines[2]) == "+z\n";
  }

  // ----- writing, then parsing

  lemma ParseLast(st: ParseState, lines: seq<string>, line: string)
    requires InPlace(st)
    ensures ParseFrom(st, lines + [line]) ==
            match ParseFrom(st, lines) { case None => None case Some(mid) => ParseToken(mid, Classify(line)) }
  {
    hide ParseToken, Classify;
    assert (lines + [line])[..|lines|] == lines;
  }

  lemma ParseNothing(st: ParseState)
    requires InPlace(st)
    ensures ParseFrom(st, []) == Some(st)
  {
  }

  lemma {:induction false} ParseInParts(st: ParseState, a: seq<string>, b: seq<string>)
    requires InPlace(st)
    ensures ParseFrom(st, a + b) ==
            match ParseFrom(st, a) { case None => None case Some(mid) => ParseFrom(mid, b) }
  {
    hide ParseToken, Classify, ParseFrom;
    if b == [] {
      assert a + b == a;
      if ParseFrom(st, a).Some? {
        ParseNothing(ParseFrom(st, a).value);
      }
    } else {
      var init, line := b[..|b| - 1], b[|b| - 1];
      ParseInParts(st, a, init);
      ParseLast(st, a + init, line);
      assert a + b == (a + init) + [line] && b == init + [line];
      if ParseFrom(st, a).Some? {
        ParseLast(ParseFrom(st, a).value, init, line);
      }
    }
  }

  function AddLines(patches: seq<Patch>, at: (nat, nat), lines: seq<Line>): seq<Patch>
    requires at.0 < |patches| && at.1 < |patches[at.0].chunks|
  {
    var patch := patches[at.0];
    var chunk := patch.chunks[at.1];
    patches[at.0 := patch.(chunks := patch.chunks[at.1 := chunk.(lines := chunk.lines + lines)])]
  }

  lemma AddOneMoreLine(patches: seq<Patch>, at: (nat, nat), lines: seq<Line>, line: Line)
    requires at.0 < |patches| && at.1 < |patches[at.0].chunks|
    ensures AddLine(AddLines(patches, at, lines), at, line) == AddLines(patches, at, lines + [line])
    ensures AddLines(patches, at, []) == patches
  {
    var had := patches[at.0].chunks[at.1].lines;
    assert had + lines + [line] == had + (lines + [line]);
    assert had + [] == had;
    var patch, mid := patches[at.0], AddLines(patches, at, lines)[at.0];
    var chunk := patch.chunks[at.1].(lines := had + lines + [line]);
    assert mid.chunks[at.1 := chunk] == patch.chunks[at.1 := chunk];
    var done := patch.(chunks := patch.chunks[at.1 := chunk]);
    assert AddLines(patches, at, lines)[at.0 := done] == patches[at.0 := done];
    assert patches[at.0].chunks[at.1 := patches[at.0].chunks[at.1]] == patches[at.0].chunks;
  }

  lemma OneLine(st: ParseState, line: string)
    requires InPlace(st)
    ensures ParseFrom(st, [line]) == ParseToken(st, Classify(line))
  {
    hide Classify, ParseToken;
    assert [line][..0] == [];
    assert ParseFrom(st, []) == Some(st);
  }

  lemma OneMoreToken(st: ParseState, patches: seq<Patch>, line: Line)
    requires InPlace(st.(patches := patches)) && st.chunk.Some? && LineOk(line)
    ensures ParseFrom(st.(patches := patches), [LineText(line)]) ==
            Some(st.(patches := AddLine(patches, st.chunk.value, line)))
  {
    hide LineOk, LineText, Classify, AddLine;
    LineIsRecognised(line);
    OneLine(st.(patches := patches), LineText(line));
  }

  lemma {:induction false} LinesComeBack(st: ParseState, lines: seq<Line>)
    requires InPlace(st) && st.chunk.Some? && forall i :: 0 <= i < |lines| ==> LineOk(lines[i])
    ensures ParseFrom(st, LinesText(lines)) == Some(st.(patches := AddLines(st.patches, st.chunk.value, lines)))
  {
    hide LineOk, LineText, AddLine, ParseFrom, AddLines, LinesText;
    if lines == [] {
      AddOneMoreLine(st.patches, st.chunk.value, [], Line(BOTH, ""));
      NothingToParse(st);
    } else {
      var last := |lines| - 1;
      LinesComeBack(st, lines[..last]);
      AddOneMoreLine(st.patches, st.chunk.value, lines[..last], lines[last]);
      ParseInParts(st, LinesText(lines[..last]), [LineText(lines[last])]);
      StillInPlace(st, lines[..last]);
      OneMoreToken(st, AddLines(st.patches, st.chunk.value, lines[..last]), lines[last]);
      LinesTextNext(lines, last);
      assert lines[..last + 1] == lines == lines[..last] + [lines[last]];
    }
  }

  lemma NothingToParse(st: ParseState)
    requires InPlace(st)
    ensures ParseFrom(st, LinesText([])) == Some(st)
  {
  }

  lemma StillInPlace(st: ParseState, lines: seq<Line>)
    requires InPlace(st) && st.chunk.Some?
    ensures InPlace(st.(patches := AddLines(st.patches, st.chunk.value, lines)))
  {
  }

  /** The last patch with more chunks. */
  function MoreChunks(patches: seq<Patch>, chunks: seq<Chunk>): seq<Patch>
    requires patches != []
  {
    var last := patches[|patches| - 1];
    patches[|patches| - 1 := last.(chunks := last.chunks + chunks)]
  }

  lemma ChunkComesBack(st: ParseState, chunk: Chunk)
    requires InPlace(st) && st.patches != [] && ChunkOk(chunk)
    ensures var r := ParseFrom(st, ChunkText(chunk));
            r.Some? && r.value.patches == MoreChunks(st.patches, [chunk])
  {
    hide Classify, LineOk, HeaderText, LinesText, ParseFrom, ParseToken;
    HeaderIsRecognised(chunk);
    ParseInParts(st, [HeaderText(chunk)], LinesText(chunk.lines));
    OneLine(st, HeaderText(chunk));
    var begun := Begun(st, chunk);
    BegunAtHeader(st, chunk);
    LinesComeBack(begun, chunk.lines);
    FilledChunk(st, chunk);
  }

  /** The state behind the chunk's header. */
  function Begun(st: ParseState, chunk: Chunk): ParseState
    requires st.patches != []
  {
    var last := st.patches[|st.patches| - 1];
    ParseState(MoreChunks(st.patches, [Chunk(chunk.srcPos, chunk.dstPos, [])]), Some((|st.patches| - 1, |last.chunks|)))
  }

  lemma BegunAtHeader(st: ParseState, chunk: Chunk)
    requires InPlace(st) && st.patches != []
    ensures forall m, n :: ParseToken(st, ChunkHead(Header(chunk.srcPos, m, chunk.dstPos, n))) == Some(Begun(st, chunk))
    ensures InPlace(Begun(st, chunk))
  {
  }

  lemma FilledChunk(st: ParseState, chunk: Chunk)
    requires st.patches != []
    ensures var begun := Begun(st, chunk);
            && InPlace(begun) && begun.chunk.Some?
            && AddLines(begun.patches, begun.chunk.value, chunk.lines) == MoreChunks(st.patches, [chunk])
  {
    assert [] + chunk.lines == chunk.lines;
    var last := |st.patches| - 1;
    var chunks := st.patches[last].chunks;
    assert (chunks + [Chunk(chunk.srcPos, chunk.dstPos, [])])[|chunks| := chunk] == chunks + [chunk];
    assert Begun(st, chunk).patches[last := st.patches[last].(chunks := chunks + [chunk])] == MoreChunks(st.patches, [chunk]);
  }

  lemma MoreAndMore(patches: seq<Patch>, chunks: seq<Chunk>, chunk: Chunk)
    requires patches != []
    ensures MoreChunks(MoreChunks(patches, chunks), [chunk]) == MoreChunks(patches, chunks + [chunk])
    ensures MoreChunks(patches, []) == patches
  {
    var had := patches[|patches| - 1].chunks;
    assert had + chunks + [chunk] == had + (chunks + [chunk]) && had + [] == had;
  }

  lemma {:induction false} ChunksComeBack(st: ParseState, chunks: seq<Chunk>)
    requires InPlace(st) && st.patches != [] && forall i :: 0 <= i < |chunks| ==> ChunkOk(chunks[i])
    ensures var r := ParseFrom(st, ChunksText(chunks));
            r.Some? && r.value.patches == MoreChunks(st.patches, chunks)
  {
    hide ChunkOk, ChunkText, ParseToken, InPlace, MoreChunks;
    if chunks == [] {
      MoreAndMore(st.patches, [], Chunk(0, 0, []));
    } else {
      hide ParseFrom;
      var last := |chunks| - 1;
      ChunksComeBack(st, chunks[..last]);
      var mid := ParseFrom(st, ChunksText(chunks[..last])).value;
      MoreAndMore(st.patches, chunks[..last], chunks[last]);
      assert chunks == chunks[..last] + [chunks[last]];
      MoreIsSome(st.patches, chunks[..last]);
      ChunkComesBack(mid, chunks[last]);
      ParseInParts(st, ChunksText(chunks[..last]), ChunkText(chunks[last]));
    }
  }

  lemma MoreIsSome(patches: seq<Patch>, chunks: seq<Chunk>)
    requires patches != []
    ensures |MoreChunks(patches, chunks)| == |patches|
  {
  }

  lemma PatchComesBack(st: ParseState, patch: Patch)
    requires InPlace(st) && PatchOk(patch)
    ensures var r := ParseFrom(st, PatchLines(patch));
            r.Some? && r.value.patches == st.patches + [patch]
  {
    hide Classify, ChunkOk, ChunksText;
    SrcHeadIsRecognised(patch.src);
    DstHeadIsRecognised(patch.dst);
    var src, dst := "--- " + patch.src + "\n", "+++ " + patch.dst + "\n";
    OneLine(st, src);
    var named := ParseToken(st, Classify(src)).value;
    OneLine(named, dst);
    ParseInParts(st, [src], [dst]);
    assert [src] + [dst] == PatchHead(patch);
    var headed := ParseToken(named, Classify(dst)).value;
    assert headed.patches == st.patches + [Patch(patch.src, patch.dst, [])];
    ChunksComeBack(headed, patch.chunks);
    ParseInParts(st, PatchHead(patch), ChunksText(patch.chunks));
    assert [] + patch.chunks == patch.chunks;
    assert MoreChunks(headed.patches, patch.chunks) == st.patches + [patch];
  }

  lemma WellFormedParts(patches: seq<Patch>)
    requires WellFormed(patches) && patches != []
    ensures PatchOk(patches[|patches| - 1]) && WellFormed(patches[..|patches| - 1])
  {
  }

  lemma {:induction false} PatchSetComesBack(patches: seq<Patch>)
    requires WellFormed(patches)
    ensures var r := ParseFrom(ParseState([], None), PatchSetLines(patches));
            r.Some? && r.value.patches == patches
  {
    hide PatchOk, PatchLines, ParseToken, ParseFrom, WellFormed;
    if patches == [] {
      ParseNothing(ParseState([], None));
    } else {
      assert PatchOk(patches[|patches| - 1]) && WellFormed(patches[..|patches| - 1]) by { WellFormedParts(patches); }
      var last := |patches| - 1;
      PatchSetComesBack(patches[..last]);
      var st := ParseState([], None);
      var mid := ParseFrom(st, PatchSetLines(patches[..last])).value;
      PatchComesBack(mid, patches[last]);
      ParseInParts(st, PatchSetLines(patches[..last]), PatchLines(patches[last]));
      assert patches == patches[..last] + [patches[last]];
    }
  }

  // ----- whatever is parsed is well formed

  lemma TokenOk(line: string)
    ensures match Classify(line)
            case SrcFile(name) => '\n' !in name
            case DstFile(name) => '\n' !in name
            case Body(l) => LineOk(l)
            case ChunkHead(_) => true
            case Bad => true
  {
    hide ChunkStart;
    var body := StripNewline(line);
    if After("-", line).Some? && "-- " <= After("-", line).value {
      assert body == "-" + body[1..];
      assert "--- " <= body;
    }
    if After("+", line).Some? && "++ " <= After("+", line).value {
      assert body == "+" + body[1..];
      assert "+++ " <= body;
    }
  }

  lemma AddLineOk(patches: seq<Patch>, at: (nat, nat), line: Line)
    requires WellFormed(patches) && LineOk(line)
    requires at.0 < |patches| && at.1 < |patches[at.0].chunks|
    ensures WellFormed(AddLine(patches, at, line))
  {
    hide LineOk;
    var patch := patches[at.0];
    var chunk := patch.chunks[at.1];
    assert PatchOk(patch) && ChunkOk(chunk);
    assert ChunkOk(chunk.(lines := chunk.lines + [line]));
  }

  lemma StepOk(st: ParseState, line: string)
    requires InPlace(st) && WellFormed(st.patches)
    ensures var r := ParseToken(st, Classify(line)); r.Some? ==> WellFormed(r.value.patches)
  {
    TokenOk(line);
    hide Classify, LineOk;
    match Classify(line)
    case Body(l) =>
      if st.chunk.Some? {
        AddLineOk(st.patches, st.chunk.value, l);
      }
    case SrcFile(_) =>
    case DstFile(_) =>
    case ChunkHead(_) =>
    case Bad =>
  }

  lemma {:induction false} ParsedIsWellFormed(lines: seq<string>)
    ensures var r := ParseFrom(ParseState([], None), lines); r.Some? ==> WellFormed(r.value.patches)
  {
    hide WellFormed, ParseToken, Classify;
    if lines == [] {
      assert WellFormed([]) by { EmptyIsWellFormed(); }
    } else {
      ParsedIsWellFormed(lines[..|lines| - 1]);
      var before := ParseFrom(ParseState([], None), lines[..|lines| - 1]);
      if before.Some? {
        StepOk(before.value, lines[|lines| - 1]);
      }
    }
  }

  lemma EmptyIsWellFormed()
    ensures WellFormed([])
  {
  }

  // ----- the main results

  /** Parsing what was written gives the patch set back exactly when it is well formed. */
  lemma RoundTrip(patches: seq<Patch>)
    ensures Parsed(PatchSetLines(patches)) == Some(patches) <==> WellFormed(patches)
  {
    hide WellFormed, ParseToken, Classify;
    if WellFormed(patches) {
      PatchSetComesBack(patches);
    }
    ParsedIsWellFormed(PatchSetLines(patches));
  }

  /** Whatever text was parsed, writing the result and parsing it again changes nothing. */
  lemma ParseWriteParse(lines: seq<string>)
    ensures Parsed(lines).Some? ==> Parsed(PatchSetLines(Parsed(lines).value)) == Parsed(lines)
  {
    hide WellFormed, ParseToken, Classify, PatchSetLines;
    ParsedIsWellFormed(lines);
    if Parsed(lines).Some? {
      RoundTrip(Parsed(lines).value);
    }
  }

  /** A removed line that reads "-- x" comes back as a file header. */
  lemma HeaderLookalike()
    ensures Parsed(PatchSetLines([Patch("a", "b", [Chunk(1, 1, [Line(SRC, "-- x")])])]))
         != Some([Patch("a", "b", [Chunk(1, 1, [Line(SRC, "-- x")])])])
  {
    var lookalike := [Patch("a", "b", [Chunk(1, 1, [Line(SRC, "-- x")])])];
    RoundTrip(lookalike);
    assert !LineOk(lookalike[0].chunks[0].lines[0]);
    assert !ChunkOk(lookalike[0].chunks[0]);
    assert !PatchOk(lookalike[0]);
  }

  // ----- the same through a file

  function Join(writes: seq<string>): string {
    if writes == [] then "" else writes[0] + Join(writes[1..])
  }

  /** How a file object yields its lines: each up to and including its newline. */
  function ReadLines(text: string): seq<string>
    decreases |text|
  {
    if text == "" then []
    else
      var n := LineEnd(text);
      [text[..n]] + ReadLines(text[n..])
  }

  function LineEnd(text: string): (n: nat)
    requires text != ""
    ensures 0 < n <= |text|
  {
    if text[0] == '\n' || |text| == 1 then 1 else 1 + LineEnd(text[1..])
  }

  ghost predicate IsOneLine(w: string) {
    w != "" && w[|w| - 1] == '\n' && '\n' !in w[..|w| - 1]
  }

  lemma {:induction false} LineEndOf(w: string, rest: string)
    requires IsOneLine(w)
    ensures LineEnd(w + rest) == |w|
  {
    if |w| > 1 {
      assert w[..|w| - 1][0] == w[0];
      assert (w + rest)[1..] == w[1..] + rest;
      assert w[1..][..|w| - 2] == w[..|w| - 1][1..];
      LineEndOf(w[1..], rest);
    }
  }

  lemma {:induction false} ReadWhatWasWritten(writes: seq<string>)
    requires forall i :: 0 <= i < |writes| ==> IsOneLine(writes[i])
    ensures ReadLines(Join(writes)) == writes
  {
    hide IsOneLine, LineEnd;
    if writes != [] {
      var w, rest := writes[0], Join(writes[1..]);
      LineEndOf(w, rest);
      ReadWhatWasWritten(writes[1..]);
      assert (w + rest)[..|w|] == w && (w + rest)[|w|..] == rest;
    }
  }

  lemma SignedIsOneLine(prefix: string, text: string)
    requires '\n' !in prefix && '\n' !in text
    ensures IsOneLine(prefix + text + "\n")
  {
    assert (prefix + text + "\n")[..|prefix + text|] == prefix + text;
  }

  lemma HeaderIsOneLine(chunk: Chunk)
    ensures IsOneLine(HeaderText(chunk))
  {
    hide SrcLines, DstLines;
    var b, d := |SrcLines(chunk.lines)|, |DstLines(chunk.lines)|;
    hide Decimal;
    var text := "@@ -" + Decimal(chunk.srcPos) + "," + Decimal(b) + " +" + Decimal(chunk.dstPos) + "," + Decimal(d) + " @@";
    assert HeaderText(chunk) == text + "\n";
    assert '\n' !in text;
    assert (text + "\n")[..|text|] == text;
  }

  ghost predicate AllOneLine(writes: seq<string>) {
    forall i :: 0 <= i < |writes| ==> IsOneLine(writes[i])
  }

  lemma {:induction false} LinesAreLines(lines: seq<Line>)
    requires forall i :: 0 <= i < |lines| ==> LineOk(lines[i])
    ensures AllOneLine(LinesText(lines))
  {
    hide IsOneLine;
    if lines != [] {
      LinesAreLines(lines[..|lines| - 1]);
      SignedIsOneLine(Sign(lines[|lines| - 1].kind), lines[|lines| - 1].text);
    }
  }

  lemma {:induction false} ChunksAreLines(chunks: seq<Chunk>)
    requires forall i :: 0 <= i < |chunks| ==> ChunkOk(chunks[i])
    ensures AllOneLine(ChunksText(chunks))
  {
    hide IsOneLine, HeaderText, LineText, LineOk;
    if chunks != [] {
      ChunksAreLines(chunks[..|chunks| - 1]);
      HeaderIsOneLine(chunks[|chunks| - 1]);
      LinesAreLines(chunks[|chunks| - 1].lines);
    }
  }

  lemma {:induction false} PatchSetAreLines(patches: seq<Patch>)
    requires WellFormed(patches)
    ensures AllOneLine(PatchSetLines(patches))
  {
    hide IsOneLine, ChunkOk, ChunksText;
    if patches != [] {
      var patch := patches[|patches| - 1];
      PatchSetAreLines(patches[..|patches| - 1]);
      SignedIsOneLine("--- ", patch.src);
      SignedIsOneLine("+++ ", patch.dst);
      ChunksAreLines(patch.chunks);
    }
  }

  /** Writing to a file and parsing the lines read back gives the patch set exactly when it is well formed. */
  lemma FileRoundTrip(patches: seq<Patch>)
    ensures Parsed(ReadLines(Join(PatchSetLines(patches)))) == Some(patches) <==> WellFormed(patches)
  {
    hide WellFormed, ParseToken, Classify, ReadLines, Join, PatchSetLines, IsOneLine;
    if WellFormed(patches) {
      PatchSetAreLines(patches);
      ReadWhatWasWritten(PatchSetLines(patches));
      RoundTrip(patches);
    }
    ParsedIsWellFormed(ReadLines(Join(PatchSetLines(patches))));
  }
}
