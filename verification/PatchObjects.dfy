/** The classes of utils/check-style.py: patches and chunks that are filled in place, the parser's loop over them, and
    the writers. */
module PatchObjects {
  import T = PatchText
  import opened PatchRoundTrip
  import opened LinearScan
  import opened Wrappers

  /** The file object that is written to: one entry for each write. */
  class Output {
    var writes: seq<string>

    constructor ()
      ensures writes == []
    {
      writes := [];
    }

    method Write(s: string)
      modifies this
      ensures writes == old(writes) + [s]
    {
      writes := writes + [s];
    }
  }

  class PatchChunk {
    const srcPos: nat
    const dstPos: nat
    ghost const place: (nat, nat)  // which patch it was added to, and which chunk of it this is
    var lines: seq<T.Line>

    ghost function View(): T.Chunk
      reads this
    {
      T.Chunk(srcPos, dstPos, lines)
    }

    constructor (srcPos: nat, dstPos: nat, ghost place: (nat, nat))
      ensures View() == T.Chunk(srcPos, dstPos, []) && this.place == place
    {
      this.srcPos, this.dstPos, this.place, lines := srcPos, dstPos, place, [];
    }

    method AddLine(line: T.Line)
      modifies this`lines
      ensures lines == old(lines) + [line]
    {
      lines := lines + [line];
    }

    method Src() returns (src: seq<T.Line>)
      ensures src == T.SrcLines(lines) == Filter(lines, (l: T.Line) => l.kind != T.DST)
    {
      SidesByKind(lines);
      src := [];
      for i := 0 to |lines|
        invariant src == T.SrcLines(lines[..i])
      {
        assert lines[..i + 1][..i] == lines[..i];
        if T.IsSrc(lines[i]) {
          src := src + [lines[i]];
        }
      }
      assert lines[..|lines|] == lines;
    }

    method Dst() returns (dst: seq<T.Line>)
      ensures dst == T.DstLines(lines) == Filter(lines, (l: T.Line) => l.kind != T.SRC)
    {
      SidesByKind(lines);
      dst := [];
      for i := 0 to |lines|
        invariant dst == T.DstLines(lines[..i])
      {
        assert lines[..i + 1][..i] == lines[..i];
        if T.IsDst(lines[i]) {
          dst := dst + [lines[i]];
        }
      }
      assert lines[..|lines|] == lines;
    }

    method Write(f: Output)
      modifies f
      ensures f.writes == old(f.writes) + T.ChunkText(View())
    {
      hide T.SrcLines, T.DstLines, T.Decimal;
      var src := Src();
      var dst := Dst();
      f.Write("@@ -" + T.Decimal(srcPos) + "," + T.Decimal(|src|) + " +" + T.Decimal(dstPos) + "," + T.Decimal(|dst|) + " @@\n");
      ghost var start := f.writes;
      assert start == old(f.writes) + [T.HeaderText(View())];
      assert T.LinesText(lines[..0]) == [];
      for i := 0 to |lines|
        invariant f.writes == start + T.LinesText(lines[..i])
      {
        hide *;
        T.LinesTextNext(lines, i);
        assert T.LineText(lines[i]) == T.Sign(lines[i].kind) + lines[i].text + "\n";
        f.Write(T.Sign(lines[i].kind) + lines[i].text + "\n");
      }
      assert lines[..|lines|] == lines;
    }
  }

  class Patch {
    var src: string
    var dst: string
    var chunks: seq<PatchChunk>
    ghost const index: nat  // which patch of the set it is

    ghost function View(): T.Patch
      reads this, chunks
    {
      T.Patch(src, dst, Views(chunks))
    }

    constructor (ghost index: nat)
      ensures src == "" && dst == "" && chunks == [] && this.index == index
    {
      src, dst, chunks, this.index := "", "", [], index;
    }

    method AddChunk(chunk: PatchChunk)
      modifies this`chunks
      ensures chunks == old(chunks) + [chunk]
    {
      chunks := chunks + [chunk];
    }

    method SetSrc(src: string)
      modifies this`src
      ensures this.src == src
    {
      this.src := src;
    }

    method SetDst(dst: string)
      modifies this`dst
      ensures this.dst == dst
    {
      this.dst := dst;
    }

    method Write(f: Output)
      modifies f
      ensures f.writes == old(f.writes) + T.PatchLines(View())
    {
      hide T.ChunksText;
      f.Write("--- " + src + "\n");
      f.Write("+++ " + dst + "\n");
      assert f.writes == old(f.writes) + T.PatchHead(View());
      WriteChunks(f);
    }

    /** The loop over the chunks. */
    method WriteChunks(f: Output)
      modifies f
      ensures f.writes == old(f.writes) + T.ChunksText(Views(chunks))
    {
      hide *;
      FirstView(chunks);
      for i := 0 to |chunks|
        invariant f.writes == old(f.writes) + T.ChunksText(Views(chunks[..i]))
      {
        NextView(chunks, i);
        chunks[i].Write(f);
      }
      assert chunks[..|chunks|] == chunks;
    }
  }

  ghost function Views(chunks: seq<PatchChunk>): (v: seq<T.Chunk>)
    reads chunks
    ensures |v| == |chunks|
  {
    if chunks == [] then [] else Views(chunks[..|chunks| - 1]) + [chunks[|chunks| - 1].View()]
  }

  lemma FirstView(chunks: seq<PatchChunk>)
    ensures T.ChunksText(Views(chunks[..0])) == []
  {
  }

  lemma NextView(chunks: seq<PatchChunk>, i: nat)
    requires i < |chunks|
    ensures T.ChunksText(Views(chunks[..i + 1])) == T.ChunksText(Views(chunks[..i])) + T.ChunkText(chunks[i].View())
  {
    hide T.ChunkText;
    assert chunks[..i + 1][..i] == chunks[..i];
    assert Views(chunks[..i + 1])[..i] == Views(chunks[..i]);
  }

  // ----- the parser's loop

  ghost function ChunkSet(patches: seq<Patch>): set<PatchChunk>
    reads patches`chunks
  {
    set i, j | 0 <= i < |patches| && 0 <= j < |patches[i].chunks| :: patches[i].chunks[j]
  }

  /** Every object is where it says, so no object is in two places. */
  ghost predicate Separate(patches: seq<Patch>)
    reads patches`chunks
  {
    && (forall i :: 0 <= i < |patches| ==> patches[i].index == i)
    && (forall i, j :: 0 <= i < |patches| && 0 <= j < |patches[i].chunks| ==> patches[i].chunks[j].place == (i, j))
  }

  /** The objects hold these values. */
  ghost predicate Hold(patches: seq<Patch>, values: seq<T.Patch>)
    reads patches, ChunkSet(patches)
  {
    && |patches| == |values|
    && (forall i :: 0 <= i < |patches| ==>
          patches[i].src == values[i].src && patches[i].dst == values[i].dst && |patches[i].chunks| == |values[i].chunks|)
    && (forall i, j :: 0 <= i < |patches| && 0 <= j < |patches[i].chunks| ==>
          patches[i].chunks[j].View() == values[i].chunks[j])
  }

  /** current_chunk is the object at the place the state says. */
  ghost predicate IsCurrent(patches: seq<Patch>, chunk: PatchChunk?, place: Option<(nat, nat)>)
    reads patches`chunks
  {
    match place
    case None => chunk == null
    case Some((i, j)) => i < |patches| && j < |patches[i].chunks| && chunk == patches[i].chunks[j]
  }

  /** A parser state and the objects that stand for it. */
  ghost predicate Stands(patches: seq<Patch>, chunk: PatchChunk?, st: T.ParseState)
    reads patches, ChunkSet(patches)
  {
    T.InPlace(st) && Separate(patches) && Hold(patches, st.patches) && IsCurrent(patches, chunk, st.chunk)
  }

  /** A "---" line: a new patch. */
  method StartPatch(patchset: seq<Patch>, ghost chunk: PatchChunk?, ghost st: T.ParseState, name: string)
    returns (patch: Patch, patchset': seq<Patch>)
    requires Stands(patchset, chunk, st)
    ensures fresh(patch) && patchset' == patchset + [patch] && patch.chunks == []
    ensures Stands(patchset', chunk, T.ParseToken(st, T.SrcFile(name)).value)
  {
    patch := new Patch(|patchset|);
    patchset' := patchset + [patch];
    patch.SetSrc(name);
    OnePatchMore(patchset, chunk, st, patch, name);
  }

  lemma OnePatchMore(patches: seq<Patch>, chunk: PatchChunk?, st: T.ParseState, patch: Patch, name: string)
    requires Stands(patches, chunk, st)
    requires patch.index == |patches| && patch.src == name && patch.dst == "" && patch.chunks == []
    ensures Stands(patches + [patch], chunk, T.ParseToken(st, T.SrcFile(name)).value)
  {
    var more := patches + [patch];
    assert forall i :: 0 <= i < |patches| ==> more[i] == patches[i];
    assert more[|patches|] == patch;
    assert Separate(more) by {
      hide Hold, IsCurrent;
    }
    assert IsCurrent(more, chunk, st.chunk) by {
      hide Hold, Separate, ChunkSet;
    }
    assert Hold(more, st.patches + [T.Patch(name, "", [])]) by {
      hide Separate, IsCurrent;
    }
    hide Hold, IsCurrent, Separate, ChunkSet;
  }

  /** A "+++" line names the other side of the last patch. */
  method NamePatch(ghost patchset: seq<Patch>, patch: Patch, ghost chunk: PatchChunk?, ghost st: T.ParseState, name: string)
    requires patchset != [] && patch == patchset[|patchset| - 1] && Stands(patchset, chunk, st)
    modifies patch`dst
    ensures st.patches != [] && Stands(patchset, chunk, T.ParseToken(st, T.DstFile(name)).value)
  {
    patch.SetDst(name);
  }

  /** These are the patch's chunks, up to the next one. */
  ghost predicate HoldsChunks(patch: Patch, chunks: seq<PatchChunk>, index: nat, value: T.Patch)
    reads patch`src, patch`dst, chunks
  {
    && patch.index == index && patch.src == value.src && patch.dst == value.dst && |chunks| == |value.chunks|
    && forall j :: 0 <= j < |chunks| ==> chunks[j].place == (index, j) && chunks[j].View() == value.chunks[j]
  }

  lemma TakeLastApart(patches: seq<Patch>, chunk: PatchChunk?, st: T.ParseState)
    requires patches != [] && Stands(patches, chunk, st)
    ensures var last := |patches| - 1;
            && st.patches != [] && T.InPlace(st) && |st.patches| == |patches|
            && Separate(patches[..last]) && Hold(patches[..last], st.patches[..last])
            && HoldsChunks(patches[last], patches[last].chunks, last, st.patches[last])
            && patches[last] !in patches[..last]
  {
    hide PatchChunk.View;
  }

  lemma OneChunkMore(patches: seq<Patch>, chunks: seq<PatchChunk>, begun: PatchChunk, st: T.ParseState, h: T.Header)
    requires patches != [] && |st.patches| == |patches| && T.InPlace(st)
    requires var last := |patches| - 1;
             && Separate(patches[..last]) && Hold(patches[..last], st.patches[..last])
             && HoldsChunks(patches[last], chunks, last, st.patches[last])
             && patches[last].chunks == chunks + [begun] && begun.place == (last, |chunks|)
    requires begun.View() == T.Chunk(h.srcPos, h.dstPos, [])
    ensures Stands(patches, begun, T.ParseToken(st, T.ChunkHead(h)).value)
  {
    ChunkHeadShape(st, h);
    hide T.ParseToken, PatchChunk.View;
    var first, last, values := patches[..|patches| - 1], |patches| - 1, T.ParseToken(st, T.ChunkHead(h)).value.patches;
    assert forall i :: 0 <= i < last ==> first[i] == patches[i] && st.patches[..last][i] == values[i];
    assert Hold(patches, values) by {
      hide Separate;
    }
    assert Separate(patches) by {
      hide Hold;
    }
  }

  /** A "@@" line opens a chunk in the last patch. */
  method StartChunk(ghost patchset: seq<Patch>, patch: Patch, ghost chunk: PatchChunk?, ghost st: T.ParseState, h: T.Header)
    returns (begun: PatchChunk)
    requires patchset != [] && patch == patchset[|patchset| - 1] && Stands(patchset, chunk, st)
    modifies patch`chunks
    ensures fresh(begun) && patch.chunks == old(patch.chunks) + [begun]
    ensures st.patches != [] && Stands(patchset, begun, T.ParseToken(st, T.ChunkHead(h)).value)
  {
    TakeLastApart(patchset, chunk, st);
    hide Separate, Hold, Stands, HoldsChunks, T.ParseToken;
    ghost var first, chunks := patchset[..|patchset| - 1], patch.chunks;
    begun := new PatchChunk(h.srcPos, h.dstPos, (|patchset| - 1, |patch.chunks|));
    patch.AddChunk(begun);
    assert Separate(first) && Hold(first, st.patches[..|patchset| - 1]);
    OneChunkMore(patchset, chunks, begun, st, h);
  }

  lemma ChunkHeadShape(st: T.ParseState, h: T.Header)
    requires T.InPlace(st) && st.patches != []
    ensures T.ParseToken(st, T.ChunkHead(h)).Some?
    ensures var r, last := T.ParseToken(st, T.ChunkHead(h)).value, |st.patches| - 1;
            && |r.patches| == |st.patches| && (forall i :: 0 <= i < last ==> r.patches[i] == st.patches[i])
            && r.patches[last].src == st.patches[last].src && r.patches[last].dst == st.patches[last].dst
            && r.patches[last].chunks == st.patches[last].chunks + [T.Chunk(h.srcPos, h.dstPos, [])]
            && r.chunk == Some((last, |st.patches[last].chunks|))
  {
  }

  /** A body line goes to current_chunk, wherever that is. */
  method AddBodyLine(ghost patchset: seq<Patch>, chunk: PatchChunk, ghost st: T.ParseState, line: T.Line)
    requires st.chunk.Some? && Stands(patchset, chunk, st)
    modifies chunk`lines
    ensures Stands(patchset, chunk, T.ParseToken(st, T.Body(line)).value)
  {
    chunk.AddLine(line);
  }

  lemma FailsForGood(st: T.ParseState, lines: seq<string>, n: nat)
    requires T.InPlace(st) && n <= |lines| && T.ParseFrom(st, lines[..n]).None?
    ensures T.ParseFrom(st, lines).None?
  {
    hide T.ParseFrom;
    ParseInParts(st, lines[..n], lines[n..]);
    assert lines == lines[..n] + lines[n..];
  }

  lemma NextLine(st: T.ParseState, now: T.ParseState, lines: seq<string>, n: nat)
    requires T.InPlace(st) && n < |lines| && T.ParseFrom(st, lines[..n]) == Some(now)
    ensures T.ParseFrom(st, lines[..n + 1]) == T.ParseToken(now, T.Classify(lines[n]))
    ensures T.ParseToken(now, T.Classify(lines[n])).None? ==> T.ParseFrom(st, lines).None?
  {
    hide T.ParseToken, T.Classify;
    assert lines[..n + 1][..n] == lines[..n];
    if T.ParseToken(now, T.Classify(lines[n])).None? {
      FailsForGood(st, lines, n + 1);
    }
  }

  /** The last three tests of the loop. */
  function BodyOf(line: string): (r: Option<T.Line>)
    requires T.After("--- ", line).None? && T.After("+++ ", line).None? && T.ChunkStart(line).None?
    ensures T.Classify(line) == if r.Some? then T.Body(r.value) else T.Bad
  {
    if T.After("-", line).Some? then Some(T.Line(T.SRC, T.After("-", line).value))
    else if T.After("+", line).Some? then Some(T.Line(T.DST, T.After("+", line).value))
    else if T.After(" ", line).Some? then Some(T.Line(T.BOTH, T.After(" ", line).value))
    else None
  }

  lemma HeadTests(line: string)
    ensures T.After("--- ", line).Some? ==> T.Classify(line) == T.SrcFile(T.After("--- ", line).value)
    ensures T.After("--- ", line).None? && T.After("+++ ", line).Some? ==>
              T.Classify(line) == T.DstFile(T.After("+++ ", line).value)
    ensures T.After("--- ", line).None? && T.After("+++ ", line).None? && T.ChunkStart(line).Some? ==>
              T.Classify(line) == T.ChunkHead(T.ChunkStart(line).value)
  {
    hide T.After, T.ChunkStart;
  }

  /** None stands for an exception: a line that is no part of a diff, or one that comes before its patch or chunk. */
  method ParsePatchset(generator: seq<string>) returns (r: Option<seq<Patch>>)
    ensures r.Some? <==> T.Parsed(generator).Some?
    ensures r.Some? ==> Separate(r.value) && Hold(r.value, T.Parsed(generator).value)
  {
    hide T.Classify, T.After, T.ChunkStart, Separate, Hold, T.ParseFrom, ChunkSet;
    var patchset: seq<Patch> := [];
    var currentPatch: Patch? := null;
    var currentChunk: PatchChunk? := null;
    ghost var start := T.ParseState([], None);
    ghost var st := start;
    NothingParsed(generator);
    for n := 0 to |generator|
      invariant T.InPlace(st) && T.ParseFrom(start, generator[..n]) == Some(st)
      invariant forall p :: p in patchset ==> fresh(p)
      invariant forall p, c :: p in patchset && c in p.chunks ==> fresh(c)
      invariant Stands(patchset, currentChunk, st) && |patchset| == |st.patches|
      invariant currentPatch == if patchset == [] then null else patchset[|patchset| - 1]
    {
      var line := generator[n];
      NextLine(start, st, generator, n);
      HeadTests(line);
      ghost var before := st;
      ghost var next := T.ParseToken(st, T.Classify(line));
      if next.Some? {
        st := next.value;
      }
      var m := T.After("--- ", line);
      if m.Some? {
        currentPatch, patchset := StartPatch(patchset, currentChunk, before, m.value);
        continue;
      }
      m := T.After("+++ ", line);
      if m.Some? {
        if currentPatch == null {
          return None;
        }
        assert currentPatch in patchset;
        NamePatch(patchset, currentPatch, currentChunk, before, m.value);
        continue;
      }
      var header := T.ChunkStart(line);
      if header.Some? {
        if currentPatch == null {
          return None;
        }
        assert currentPatch in patchset;
        currentChunk := StartChunk(patchset, currentPatch, currentChunk, before, header.value);
        continue;
      }
      var body := BodyOf(line);
      if body.None? || currentChunk == null {
        return None;
      }
      ChunkIsListed(patchset, currentChunk, before);
      AddBodyLine(patchset, currentChunk, before, body.value);
    }
    assert generator[..|generator|] == generator;
    r := Some(patchset);
  }

  lemma NothingParsed(lines: seq<string>)
    ensures T.ParseFrom(T.ParseState([], None), lines[..0]) == Some(T.ParseState([], None))
    ensures Separate([]) && Hold([], [])
  {
  }

  lemma ChunkIsListed(patches: seq<Patch>, chunk: PatchChunk, st: T.ParseState)
    requires Stands(patches, chunk, st)
    ensures exists p :: p in patches && chunk in p.chunks
  {
  }

  // ----- writing what was parsed

  lemma {:induction false} ViewAt(chunks: seq<PatchChunk>, j: nat)
    requires j < |chunks|
    ensures Views(chunks)[j] == chunks[j].View()
  {
    if j < |chunks| - 1 {
      ViewAt(chunks[..|chunks| - 1], j);
    }
  }

  lemma HeldIsViewed(patches: seq<Patch>, values: seq<T.Patch>, i: nat)
    requires Hold(patches, values) && i < |patches|
    ensures patches[i].View() == values[i]
  {
    hide Views;
    forall j | 0 <= j < |patches[i].chunks| ensures Views(patches[i].chunks)[j] == values[i].chunks[j] {
      ViewAt(patches[i].chunks, j);
    }
    assert Views(patches[i].chunks) == values[i].chunks;
  }

  /** Each patch of a set written in turn: the file then holds the text of the whole set. */
  method WritePatchSet(patchset: seq<Patch>, ghost values: seq<T.Patch>, f: Output)
    requires Hold(patchset, values)
    modifies f
    ensures f.writes == old(f.writes) + T.PatchSetLines(values)
  {
    hide T.PatchLines, Patch.View;
    assert |patchset| == |values|;
    for i := 0 to |patchset|
      invariant Hold(patchset, values)
      invariant f.writes == old(f.writes) + T.PatchSetLines(values[..i])
    {
      HeldIsViewed(patchset, values, i);
      assert values[..i + 1][..i] == values[..i];
      patchset[i].Write(f);
    }
    assert values[..|patchset|] == values;
  }

  /** Parse, write, parse: the second parse succeeds and holds the same values as the first. */
  method Rewrite(generator: seq<string>) returns (r: Option<seq<Patch>>)
    ensures r.Some? <==> T.Parsed(generator).Some?
    ensures r.Some? ==> Separate(r.value) && Hold(r.value, T.Parsed(generator).value)
  {
    hide T.Parsed, T.PatchSetLines, Separate;
    var first := ParsePatchset(generator);
    if first.None? {
      return None;
    }
    ghost var values := T.Parsed(generator).value;
    var f := new Output();
    WritePatchSet(first.value, values, f);
    assert f.writes == T.PatchSetLines(values);
    ParseWriteParse(generator);
    r := ParsePatchset(f.writes);
  }
}
