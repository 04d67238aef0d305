/** Unified diffs as utils/check-style.py reads and writes them: the values, the text of each line, and what the
    regular expressions of parse_patchset recognise. */
module PatchText {
  import opened Wrappers

  datatype LineKind = SRC | DST | BOTH

  datatype Line = Line(kind: LineKind, text: string)

  datatype Chunk = Chunk(srcPos: nat, dstPos: nat, lines: seq<Line>)

  datatype Patch = Patch(src: string, dst: string, chunks: seq<Chunk>)

  // ----- decimal numbers

  predicate IsDigit(c: char) {
    '0' <= c <= '9'
  }

  function Digit(d: nat): (c: char)
    requires d < 10
    ensures IsDigit(c)
  {
    '0' + d as char
  }

  /** '%d' */
  function Decimal(n: nat): (s: string)
    ensures s != "" && forall c :: c in s ==> IsDigit(c)
  {
    if n < 10 then [Digit(n)] else Decimal(n / 10) + [Digit(n % 10)]
  }

  /** int(s) on a string of digits */
  function ToInt(s: string): nat
    requires forall c :: c in s ==> IsDigit(c)
  {
    if s == "" then 0
    else
      assert s[|s| - 1] in s && IsDigit(s[|s| - 1]);
      10 * ToInt(s[..|s| - 1]) + (s[|s| - 1] - '0') as nat
  }

  lemma {:induction false} DecimalRoundTrip(n: nat)
    ensures ToInt(Decimal(n)) == n
  {
    if n >= 10 {
      DecimalRoundTrip(n / 10);
      assert Decimal(n)[..|Decimal(n)| - 1] == Decimal(n / 10);
    } else {
      assert ToInt([Digit(n)]) == 10 * ToInt([]) + n;
    }
  }

  /** The digits are decimal, the most significant first. */
  lemma DecimalExample()
    ensures Decimal(1980) == "1980" && ToInt("1980") == 1980
  {
    assert Decimal(1) == "1" && Decimal(19) == "19" && Decimal(198) == "198";
    DecimalRoundTrip(1980);
  }

  // ----- the regular expressions

  /** '$' also matches before one final newline. */
  function StripNewline(s: string): string {
    if s != "" && s[|s| - 1] == '\n' then s[..|s| - 1] else s
  }

  /** '^' prefix '(.*)$': what '.*' matches, which is everything but newlines. */
  function After(prefix: string, line: string): Option<string> {
    var body := StripNewline(line);
    if prefix <= body && '\n' !in body then Some(body[|prefix|..]) else None
  }

  /** The longest run of digits at the front, and the rest. */
  function TakeDigits(s: string): (r: (string, string))
    ensures r.0 + r.1 == s && forall c :: c in r.0 ==> IsDigit(c)
    ensures r.1 != "" ==> !IsDigit(r.1[0])
  {
    if s == "" || !IsDigit(s[0]) then ("", s)
    else
      var (digits, rest) := TakeDigits(s[1..]);
      ([s[0]] + digits, rest)
  }

  /** '([0-9]+)' followed by a separator that does not start with a digit: the number and what follows. */
  function TakeNumber(s: string, separator: string): Option<(nat, string)> {
    var (digits, rest) := TakeDigits(s);
    if digits != "" && separator <= rest then Some((ToInt(digits), rest[|separator|..])) else None
  }

  datatype Header = Header(srcPos: nat, srcLen: nat, dstPos: nat, dstLen: nat)

  /** '^@@ -([0-9]+),([0-9]+) \+([0-9]+),([0-9]+) @@', with anything behind it. */
  function ChunkStart(line: string): Option<Header> {
    if !("@@ -" <= line) then None
    else
      match TakeNumber(line[4..], ",")
      case None => None
      case Some((srcPos, r1)) =>
        match TakeNumber(r1, " +")
        case None => None
        case Some((srcLen, r2)) =>
          match TakeNumber(r2, ",")
          case None => None
          case Some((dstPos, r3)) =>
            match TakeNumber(r3, " @@")
            case None => None
            case Some((dstLen, _)) => Some(Header(srcPos, srcLen, dstPos, dstLen))
  }

  /** Which of the tests of the parser's loop a line passes first. */
  datatype Token =
    | SrcFile(name: string)
    | DstFile(name: string)
    | ChunkHead(header: Header)
    | Body(line: Line)
    | Bad

  function Classify(line: string): Token {
    if After("--- ", line).Some? then SrcFile(After("--- ", line).value)
    else if After("+++ ", line).Some? then DstFile(After("+++ ", line).value)
    else if ChunkStart(line).Some? then ChunkHead(ChunkStart(line).value)
    else if After("-", line).Some? then Body(Line(SRC, After("-", line).value))
    else if After("+", line).Some? then Body(Line(DST, After("+", line).value))
    else if After(" ", line).Some? then Body(Line(BOTH, After(" ", line).value))
    else Bad
  }

  // ----- writing

  function Sign(kind: LineKind): string {
    match kind case SRC => "-" case DST => "+" case BOTH => " "
  }

  predicate IsSrc(line: Line) { line.kind == SRC || line.kind == BOTH }

  predicate IsDst(line: Line) { line.kind == DST || line.kind == BOTH }

  function SrcLines(lines: seq<Line>): seq<Line> {
    if lines == [] then []
    else SrcLines(lines[..|lines| - 1]) + (if IsSrc(lines[|lines| - 1]) then [lines[|lines| - 1]] else [])
  }

  function DstLines(lines: seq<Line>): seq<Line> {
    if lines == [] then []
    else DstLines(lines[..|lines| - 1]) + (if IsDst(lines[|lines| - 1]) then [lines[|lines| - 1]] else [])
  }

  function LineText(line: Line): string {
    Sign(line.kind) + line.text + "\n"
  }

  function HeaderText(chunk: Chunk): string {
    "@@ -" + Decimal(chunk.srcPos) + "," + Decimal(|SrcLines(chunk.lines)|)
    + " +" + Decimal(chunk.dstPos) + "," + Decimal(|DstLines(chunk.lines)|) + " @@\n"
  }

  function LinesText(lines: seq<Line>): seq<string> {
    if lines == [] then [] else LinesText(lines[..|lines| - 1]) + [LineText(lines[|lines| - 1])]
  }

  /** One string for each write to the file. */
  function ChunkText(chunk: Chunk): seq<string> {
    [HeaderText(chunk)] + LinesText(chunk.lines)
  }

  function ChunksText(chunks: seq<Chunk>): seq<string> {
    if chunks == [] then [] else ChunksText(chunks[..|chunks| - 1]) + ChunkText(chunks[|chunks| - 1])
  }

  function PatchHead(patch: Patch): seq<string> {
    ["--- " + patch.src + "\n", "+++ " + patch.dst + "\n"]
  }

  function PatchLines(patch: Patch): seq<string> {
    PatchHead(patch) + ChunksText(patch.chunks)
  }

  function PatchSetLines(patches: seq<Patch>): seq<string> {
    if patches == [] then [] else PatchSetLines(patches[..|patches| - 1]) + PatchLines(patches[|patches| - 1])
  }

  lemma LinesTextNext(lines: seq<Line>, i: nat)
    requires i < |lines|
    ensures LinesText(lines[..i + 1]) == LinesText(lines[..i]) + [LineText(lines[i])]
  {
    assert lines[..i + 1][..i] == lines[..i];
  }

  // ----- what the parser builds

  /** The patches so far, and the place of current_chunk: which patch, which chunk. A new file header does not
      reset current_chunk, so it may be in an earlier patch. */
  datatype ParseState = ParseState(patches: seq<Patch>, chunk: Option<(nat, nat)>)

  ghost predicate InPlace(st: ParseState) {
    st.chunk.Some? ==> st.chunk.value.0 < |st.patches| && st.chunk.value.1 < |st.patches[st.chunk.value.0].chunks|
  }

  function AddLine(patches: seq<Patch>, at: (nat, nat), line: Line): seq<Patch>
    requires at.0 < |patches| && at.1 < |patches[at.0].chunks|
  {
    var patch := patches[at.0];
    var chunk := patch.chunks[at.1];
    patches[at.0 := patch.(chunks := patch.chunks[at.1 := chunk.(lines := chunk.lines + [line])])]
  }

  /** One line of input; None when the parser raises an exception. */
  function ParseToken(st: ParseState, token: Token): (r: Option<ParseState>)
    requires InPlace(st)
    ensures r.Some? ==> InPlace(r.value)
  {
    var last := |st.patches| - 1;
    match token
    case SrcFile(name) => Some(st.(patches := st.patches + [Patch(name, "", [])]))
    case DstFile(name) =>
      if st.patches == [] then None
      else Some(st.(patches := st.patches[last := st.patches[last].(dst := name)]))
    case ChunkHead(h) =>
      if st.patches == [] then None
      else
        var patch := st.patches[last];
        Some(ParseState(st.patches[last := patch.(chunks := patch.chunks + [Chunk(h.srcPos, h.dstPos, [])])],
                        Some((last, |patch.chunks|))))
    case Body(line) =>
      if st.chunk.None? then None else Some(st.(patches := AddLine(st.patches, st.chunk.value, line)))
    case Bad => None
  }

  function ParseFrom(st: ParseState, lines: seq<string>): (r: Option<ParseState>)
    requires InPlace(st)
    ensures r.Some? ==> InPlace(r.value)
  {
    if lines == [] then Some(st)
    else
      match ParseFrom(st, lines[..|lines| - 1])
      case None => None
      case Some(before) => ParseToken(before, Classify(lines[|lines| - 1]))
  }

  function Parsed(lines: seq<string>): Option<seq<Patch>> {
    match ParseFrom(ParseState([], None), lines)
    case None => None
    case Some(st) => Some(st.patches)
  }
}
