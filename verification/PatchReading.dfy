/** What parse_patchset of utils/check-style.py makes of any text: which lines it recognises, which files it accepts, and
    what it reads in them. */
module PatchReading {
  import opened Wrappers
  import opened PatchText
  import opened PatchRoundTrip

  // ----- lines

  /** The line is the prefix and the text, with or without its newline. */
  ghost predicate Reads(prefix: string, text: string, line: string) {
    '\n' !in prefix + text && (line == prefix + text || line == prefix + text + "\n")
  }

  lemma AfterIff(prefix: string, text: string, line: string)
    ensures After(prefix, line) == Some(text) <==> Reads(prefix, text, line)
  {
    var body := StripNewline(line);
    if After(prefix, line) == Some(text) {
      assert body == prefix + text;
      assert line == body || line == body + "\n";
    }
    if Reads(prefix, text, line) {
      NoNewlineAtTheEnd(prefix + text);
      assert (prefix + text + "\n")[..|prefix + text|] == prefix + text;
      assert body == prefix + text;
    }
  }

  lemma NoNewlineAtTheEnd(s: string)
    requires '\n' !in s
    ensures s != "" ==> s[|s| - 1] != '\n'
  {
  }

  ghost predicate IsNumber(s: string, n: nat) {
    s != "" && (forall c :: c in s ==> IsDigit(c)) && ToInt(s) == n
  }

  /** The four numbers of the header, spelled in any way, and anything behind them. */
  ghost predicate IsHeader(line: string, h: Header) {
    exists a, b, c, d, rest ::
      && IsNumber(a, h.srcPos) && IsNumber(b, h.srcLen) && IsNumber(c, h.dstPos) && IsNumber(d, h.dstLen)
      && line == HeaderSpelled(a, b, c, d, rest)
  }

  ghost function HeaderSpelled(a: string, b: string, c: string, d: string, rest: string): string {
    "@@ -" + (a + "," + (b + " +" + (c + "," + (d + " @@" + rest))))
  }

  lemma NumberIsTaken(digits: string, n: nat, separator: string, rest: string)
    requires IsNumber(digits, n) && separator != "" && !IsDigit(separator[0])
    ensures TakeNumber(digits + separator + rest, separator) == Some((n, rest))
  {
    hide ToInt;
    DigitsTaken(digits, separator + rest);
    assert digits + separator + rest == digits + (separator + rest);
  }

  lemma TakenIsNumber(s: string, separator: string) returns (digits: string)
    requires TakeNumber(s, separator).Some?
    ensures var (n, rest) := TakeNumber(s, separator).value;
            IsNumber(digits, n) && s == digits + separator + rest
  {
    hide ToInt;
    digits := TakeDigits(s).0;
  }

  lemma ChunkStartIff(line: string, h: Header)
    ensures ChunkStart(line) == Some(h) <==> IsHeader(line, h)
  {
    hide TakeNumber, IsNumber;
    if ChunkStart(line) == Some(h) {
      HeaderHasNumbers(line, h);
    }
    if a, b, c, d, rest :|
      && IsNumber(a, h.srcPos) && IsNumber(b, h.srcLen) && IsNumber(c, h.dstPos) && IsNumber(d, h.dstLen)
      && line == HeaderSpelled(a, b, c, d, rest)
    {
      var r3 := d + " @@" + rest;
      var r2 := c + "," + r3;
      var r1 := b + " +" + r2;
      var r0 := a + "," + r1;
      assert line[4..] == r0;
      NumberIsTaken(a, h.srcPos, ",", r1);
      NumberIsTaken(b, h.srcLen, " +", r2);
      NumberIsTaken(c, h.dstPos, ",", r3);
      NumberIsTaken(d, h.dstLen, " @@", rest);
    }
  }

  lemma HeaderHasNumbers(line: string, h: Header)
    requires ChunkStart(line) == Some(h)
    ensures IsHeader(line, h)
  {
    hide TakeNumber, IsNumber;
    var a := TakenIsNumber(line[4..], ",");
    var r1 := TakeNumber(line[4..], ",").value.1;
    var b := TakenIsNumber(r1, " +");
    var r2 := TakeNumber(r1, " +").value.1;
    var c := TakenIsNumber(r2, ",");
    var r3 := TakeNumber(r2, ",").value.1;
    var d := TakenIsNumber(r3, " @@");
    var rest := TakeNumber(r3, " @@").value.1;
    assert line == "@@ -" + line[4..];
    assert line == HeaderSpelled(a, b, c, d, rest);
  }

  /** What the parser takes a line for, by the text of the line. */
  ghost predicate Means(line: string, token: Token) {
    match token
    case SrcFile(name) => Reads("--- ", name, line)
    case DstFile(name) => Reads("+++ ", name, line)
    case ChunkHead(h) => IsHeader(line, h)
    case Body(Line(SRC, text)) => Reads("-", text, line) && !("-- " <= text)
    case Body(Line(DST, text)) => Reads("+", text, line) && !("++ " <= text)
    case Body(Line(BOTH, text)) => Reads(" ", text, line)
    case Bad => false
  }

  /** The two longer prefixes hide what follows a shorter one. */
  lemma ReadsLonger(c: char, prefix: string, line: string, text: string)
    requires Reads([c], text, line)
    ensures After([c] + prefix, line).Some? <==> prefix <= text
  {
    AfterIff([c], text, line);
    var body := StripNewline(line);
    assert body == [c] + text;
    PrefixCons(c, prefix, text);
  }

  lemma PrefixCons(c: char, prefix: string, text: string)
    ensures [c] + prefix <= [c] + text <==> prefix <= text
  {
    if [c] + prefix <= [c] + text {
      assert prefix == ([c] + prefix)[1..] && text == ([c] + text)[1..];
    }
  }

  lemma HeaderBegins(line: string)
    ensures ChunkStart(line).Some? ==> line != "" && line[0] == '@'
  {
  }

  lemma AfterBegins(prefix: string, line: string)
    requires prefix != ""
    ensures After(prefix, line).Some? ==> line != "" && line[0] == prefix[0]
  {
  }

  lemma SrcBodyIff(line: string, text: string)
    ensures Classify(line) == Body(Line(SRC, text)) <==> Reads("-", text, line) && !("-- " <= text)
  {
    AfterBegins("-", line);
    AfterBegins("+++ ", line);
    HeaderBegins(line);
    AfterIff("-", text, line);
    assert "--- " == ['-'] + "-- ";
    hide After, ChunkStart;
    if Reads("-", text, line) {
      ReadsLonger('-', "-- ", line, text);
    }
    hide Reads;
  }

  lemma DstBodyIff(line: string, text: string)
    ensures Classify(line) == Body(Line(DST, text)) <==> Reads("+", text, line) && !("++ " <= text)
  {
    AfterBegins("+", line);
    AfterBegins("--- ", line);
    AfterBegins("-", line);
    HeaderBegins(line);
    AfterIff("+", text, line);
    assert "+++ " == ['+'] + "++ ";
    hide After, ChunkStart;
    if Reads("+", text, line) {
      ReadsLonger('+', "++ ", line, text);
    }
    hide Reads;
  }

  lemma BothBodyIff(line: string, text: string)
    ensures Classify(line) == Body(Line(BOTH, text)) <==> Reads(" ", text, line)
  {
    AfterBegins(" ", line);
    AfterBegins("--- ", line);
    AfterBegins("+++ ", line);
    AfterBegins("-", line);
    AfterBegins("+", line);
    HeaderBegins(line);
    AfterIff(" ", text, line);
    hide After, ChunkStart, Reads;
  }

  /** The parser takes a line for something exactly if the text of the line says so. */
  lemma ClassifyIff(line: string, token: Token)
    requires token != Bad
    ensures Classify(line) == token <==> Means(line, token)
  {
    match token
    case SrcFile(name) => AfterIff("--- ", name, line);
    case DstFile(name) =>
      AfterIff("+++ ", name, line);
      AfterBegins("--- ", line);
      AfterBegins("+++ ", line);
    case ChunkHead(h) =>
      ChunkStartIff(line, h);
      HeaderBegins(line);
      AfterBegins("--- ", line);
      AfterBegins("+++ ", line);
    case Body(Line(SRC, text)) => SrcBodyIff(line, text);
    case Body(Line(DST, text)) => DstBodyIff(line, text);
    case Body(Line(BOTH, text)) => BothBodyIff(line, text);
  }

  // ----- files

  ghost predicate SrcFileBefore(lines: seq<string>, i: nat) {
    exists j :: 0 <= j < i && j < |lines| && Classify(lines[j]).SrcFile?
  }

  ghost predicate ChunkHeadBefore(lines: seq<string>, i: nat) {
    exists j :: 0 <= j < i && j < |lines| && Classify(lines[j]).ChunkHead?
  }

  /** The line is recognised, and what it needs stands somewhere before it. */
  ghost predicate Fits(lines: seq<string>, i: nat)
    requires i < |lines|
  {
    match Classify(lines[i])
    case SrcFile(_) => true
    case DstFile(_) => SrcFileBefore(lines, i)
    case ChunkHead(_) => SrcFileBefore(lines, i)
    case Body(_) => ChunkHeadBefore(lines, i)
    case Bad => false
  }

  ghost predicate AllFit(lines: seq<string>) {
    forall i :: 0 <= i < |lines| ==> Fits(lines, i)
  }

  lemma FitsInPrefix(lines: seq<string>, line: string, i: nat)
    requires i < |lines|
    ensures Fits(lines + [line], i) <==> Fits(lines, i)
  {
    hide Classify;
    var more := lines + [line];
    assert forall j :: 0 <= j < |lines| ==> more[j] == lines[j];
    assert SrcFileBefore(more, i) <==> SrcFileBefore(lines, i);
    assert ChunkHeadBefore(more, i) <==> ChunkHeadBefore(lines, i);
  }

  lemma AllFitNext(lines: seq<string>, line: string)
    ensures AllFit(lines + [line]) <==> AllFit(lines) && Fits(lines + [line], |lines|)
  {
    hide Fits;
    forall i | 0 <= i < |lines| ensures Fits(lines + [line], i) <==> Fits(lines, i) { FitsInPrefix(lines, line, i); }
  }

  lemma BeforeNext(lines: seq<string>, line: string)
    ensures var more, n := lines + [line], |lines|;
            && (SrcFileBefore(more, n + 1) <==> SrcFileBefore(lines, n) || Classify(line).SrcFile?)
            && (ChunkHeadBefore(more, n + 1) <==> ChunkHeadBefore(lines, n) || Classify(line).ChunkHead?)
            && (SrcFileBefore(more, n) <==> SrcFileBefore(lines, n))
            && (ChunkHeadBefore(more, n) <==> ChunkHeadBefore(lines, n))
  {
    hide Classify;
    var more := lines + [line];
    assert forall j :: 0 <= j < |lines| ==> more[j] == lines[j];
    assert more[|lines|] == line;
  }

  lemma {:induction false} AcceptedSoFar(lines: seq<string>)
    ensures var r := ParseFrom(ParseState([], None), lines);
            && (r.Some? <==> AllFit(lines))
            && (r.Some? ==> (r.value.patches != [] <==> SrcFileBefore(lines, |lines|)))
            && (r.Some? ==> (r.value.chunk.Some? <==> ChunkHeadBefore(lines, |lines|)))
  {
    hide Classify, AllFit, SrcFileBefore, ChunkHeadBefore, ParseFrom, AddLine;
    var st := ParseState([], None);
    if lines == [] {
      NothingBefore();
      ParseNothing(st);
    } else {
      var init, line := lines[..|lines| - 1], lines[|lines| - 1];
      assert lines == init + [line];
      AcceptedSoFar(init);
      ParseLast(st, init, line);
      AllFitNext(init, line);
      BeforeNext(init, line);
    }
  }

  lemma NothingBefore()
    ensures AllFit([]) && !SrcFileBefore([], 0) && !ChunkHeadBefore([], 0)
  {
  }

  /** A text is accepted exactly if every line is recognised, every "+++" line and chunk header comes after some "---"
      line, and every body line after some chunk header. */
  lemma AcceptedIff(lines: seq<string>)
    ensures Parsed(lines).Some? <==> AllFit(lines)
  {
    hide AllFit, ParseFrom;
    AcceptedSoFar(lines);
  }

  // ----- what is read, from the end of the text backwards

  /** What the lines behind a place belong to: body lines to the last chunk header before it, chunks and the name of the
      other side to the last "---" line before it. */
  datatype Rest = Rest(bodies: seq<Line>, dst: Option<string>, chunks: seq<Chunk>, patches: seq<Patch>)

  ghost function Before(token: Token, rest: Rest): Rest {
    match token
    case SrcFile(name) =>
      var dst := if rest.dst.Some? then rest.dst.value else "";
      Rest(rest.bodies, None, [], [Patch(name, dst, rest.chunks)] + rest.patches)
    case DstFile(name) => if rest.dst.Some? then rest else rest.(dst := Some(name))
    case ChunkHead(h) => Rest([], rest.dst, [Chunk(h.srcPos, h.dstPos, rest.bodies)] + rest.chunks, rest.patches)
    case Body(line) => rest.(bodies := [line] + rest.bodies)
    case Bad => rest
  }

  ghost function Backwards(lines: seq<string>): Rest {
    if lines == [] then Rest([], None, [], []) else Before(Classify(lines[0]), Backwards(lines[1..]))
  }

  /** The last patch gets the name and the chunks. */
  ghost function LastExtended(patches: seq<Patch>, rest: Rest): seq<Patch> {
    if patches == [] then []
    else
      var last := patches[|patches| - 1];
      patches[|patches| - 1 := Patch(last.src, if rest.dst.Some? then rest.dst.value else last.dst, last.chunks + rest.chunks)]
  }

  ghost function BodiesAdded(st: ParseState, bodies: seq<Line>): (p: seq<Patch>)
    requires InPlace(st)
    ensures |p| == |st.patches|
  {
    if st.chunk.Some? then AddLines(st.patches, st.chunk.value, bodies) else st.patches
  }

  /** What has been read so far, with what the rest of the text adds to it. */
  ghost function Completed(st: ParseState, rest: Rest): seq<Patch>
    requires InPlace(st)
  {
    LastExtended(BodiesAdded(st, rest.bodies), rest) + rest.patches
  }

  lemma NothingAdded(st: ParseState)
    requires InPlace(st)
    ensures BodiesAdded(st, []) == st.patches
    ensures Completed(st, Rest([], None, [], [])) == st.patches
  {
    hide AddLines;
    if st.chunk.Some? {
      AddOneMoreLine(st.patches, st.chunk.value, [], Line(BOTH, ""));
    }
    assert BodiesAdded(st, []) == st.patches;
    if st.patches != [] {
      var last := st.patches[|st.patches| - 1];
      assert last.chunks + [] == last.chunks;
      assert Patch(last.src, last.dst, last.chunks + []) == last;
    }
  }

  lemma BodyCompleted(st: ParseState, line: Line, rest: Rest)
    requires InPlace(st) && st.chunk.Some?
    ensures var next := ParseToken(st, Body(line)).value;
            Completed(next, rest) == Completed(st, Before(Body(line), rest))
  {
    hide LastExtended;
    LineThenLines(st.patches, st.chunk.value, line, rest.bodies);
    SameExtension(AddLines(st.patches, st.chunk.value, [line] + rest.bodies), rest, Before(Body(line), rest));
  }

  lemma SameExtension(patches: seq<Patch>, rest: Rest, rest': Rest)
    requires rest.dst == rest'.dst && rest.chunks == rest'.chunks
    ensures LastExtended(patches, rest) == LastExtended(patches, rest')
  {
  }

  lemma LineThenLines(patches: seq<Patch>, at: (nat, nat), line: Line, lines: seq<Line>)
    requires at.0 < |patches| && at.1 < |patches[at.0].chunks|
    ensures AddLines(AddLine(patches, at, line), at, lines) == AddLines(patches, at, [line] + lines)
  {
    var patch := patches[at.0];
    var chunk := patch.chunks[at.1];
    var done := chunk.(lines := chunk.lines + ([line] + lines));
    assert chunk.lines + [line] + lines == chunk.lines + ([line] + lines);
    var mid := AddLine(patches, at, line)[at.0];
    assert mid.chunks[at.1 := done] == patch.chunks[at.1 := done];
    var filled := patch.(chunks := patch.chunks[at.1 := done]);
    assert AddLine(patches, at, line)[at.0 := filled] == patches[at.0 := filled];
  }

  lemma HeadCompleted(st: ParseState, h: Header, rest: Rest)
    requires InPlace(st) && st.patches != []
    ensures var next := ParseToken(st, ChunkHead(h)).value;
            Completed(next, rest) == Completed(st, Before(ChunkHead(h), rest))
  {
    NothingAdded(st);
    var n := |st.patches| - 1;
    var last := st.patches[n];
    var next := ParseToken(st, ChunkHead(h)).value;
    var filled := Chunk(h.srcPos, h.dstPos, rest.bodies);
    assert [] + rest.bodies == rest.bodies;
    assert (last.chunks + [Chunk(h.srcPos, h.dstPos, [])])[|last.chunks| := filled] == last.chunks + [filled];
    assert BodiesAdded(next, rest.bodies) == st.patches[n := last.(chunks := last.chunks + [filled])];
    assert last.chunks + [filled] + rest.chunks == last.chunks + ([filled] + rest.chunks);
  }

  lemma NameCompleted(st: ParseState, name: string, rest: Rest)
    requires InPlace(st) && st.patches != []
    ensures var next := ParseToken(st, DstFile(name)).value;
            Completed(next, rest) == Completed(st, Before(DstFile(name), rest))
  {
    var n := |st.patches| - 1;
    var next := ParseToken(st, DstFile(name)).value;
    var p, q := BodiesAdded(st, rest.bodies), BodiesAdded(next, rest.bodies);
    assert q[n] == p[n].(dst := name);
    assert q[..n] == p[..n];
    assert LastExtended(q, rest) == q[..n] + [LastExtended(q, rest)[n]];
    assert LastExtended(p, Before(DstFile(name), rest)) == p[..n] + [LastExtended(p, Before(DstFile(name), rest))[n]];
  }

  lemma FileCompleted(st: ParseState, name: string, rest: Rest)
    requires InPlace(st)
    ensures var next := ParseToken(st, SrcFile(name)).value;
            Completed(next, rest) == Completed(st, Before(SrcFile(name), rest))
  {
    var n := |st.patches|;
    var next := ParseToken(st, SrcFile(name)).value;
    var p, q := BodiesAdded(st, rest.bodies), BodiesAdded(next, rest.bodies);
    assert q == p + [Patch(name, "", [])];
    assert [] + rest.chunks == rest.chunks;
    var whole := Patch(name, if rest.dst.Some? then rest.dst.value else "", rest.chunks);
    assert LastExtended(q, rest) == p + [whole];
    NothingExtended(p, rest.bodies);
    assert p + [whole] + rest.patches == p + ([whole] + rest.patches);
  }

  lemma NothingExtended(patches: seq<Patch>, bodies: seq<Line>)
    ensures forall more :: LastExtended(patches, Rest(bodies, None, [], more)) == patches
  {
    if patches != [] {
      var last := patches[|patches| - 1];
      assert last.chunks + [] == last.chunks;
      assert Patch(last.src, last.dst, last.chunks + []) == last;
    }
  }

  lemma TokenCompleted(st: ParseState, token: Token, rest: Rest)
    requires InPlace(st) && ParseToken(st, token).Some?
    ensures Completed(ParseToken(st, token).value, rest) == Completed(st, Before(token, rest))
  {
    match token
    case SrcFile(name) => FileCompleted(st, name, rest);
    case DstFile(name) => NameCompleted(st, name, rest);
    case ChunkHead(h) => HeadCompleted(st, h, rest);
    case Body(line) => BodyCompleted(st, line, rest);
    case Bad =>
  }

  lemma {:induction false} RestIsRead(st: ParseState, lines: seq<string>)
    requires InPlace(st) && ParseFrom(st, lines).Some?
    ensures ParseFrom(st, lines).value.patches == Completed(st, Backwards(lines))
    decreases |lines|
  {
    hide ParseFrom, ParseToken, Completed, Before, Classify;
    if lines == [] {
      ParseNothing(st);
      NothingAdded(st);
    } else {
      assert lines == [lines[0]] + lines[1..];
      ParseInParts(st, [lines[0]], lines[1..]);
      OneLine(st, lines[0]);
      var token := Classify(lines[0]);
      RestIsRead(ParseToken(st, token).value, lines[1..]);
      TokenCompleted(st, token, Backwards(lines[1..]));
    }
  }

  /** What an accepted text means: each body line belongs to the last chunk header before it, even one in an earlier file,
      each chunk to the last "---" line before it, and the last "+++" line of a file names its other side. */
  lemma ParsedIsBackwards(lines: seq<string>)
    requires Parsed(lines).Some?
    ensures Parsed(lines).value == Backwards(lines).patches
  {
    hide Backwards, ParseFrom;
    var st := ParseState([], None);
    RestIsRead(st, lines);
    assert Completed(st, Backwards(lines)) == [] + Backwards(lines).patches;
  }
}
