/** The patch classes, whose objects the parser fills in place, and the parser itself. */
module PatchObjects {
  import opened Options
  import opened Sequences
  import V = Patches

  lemma {:induction false} WriteLinesLast(lines: seq<V.Line>, i: nat)
    requires i < |lines| && V.AllSet(lines[..i]) && !lines[i].Unset?
    ensures V.AllSet(lines[..i + 1])
    ensures V.WriteLines(lines[..i + 1]) == V.WriteLines(lines[..i]) + [V.WriteLine(lines[i]).value]
    decreases i
  {
    if i > 0 {
      assert lines[..i][1..] == lines[1..][..i - 1] && lines[..i + 1][1..] == lines[1..][..i];
      WriteLinesLast(lines[1..], i - 1);
    } else {
      assert lines[..1] == [lines[0]];
    }
  }

  lemma {:induction false} WriteChunksLast(chunks: seq<V.Chunk>, i: nat)
    requires i < |chunks| && V.Writable(chunks[..i + 1])
    ensures V.Writable(chunks[..i])
    ensures V.WriteChunks(chunks[..i + 1])
         == V.WriteChunks(chunks[..i]) + ([V.ChunkHeader(chunks[i])] + V.WriteLines(chunks[i].lines))
    decreases i
  {
    assert chunks[..i + 1][..i] == chunks[..i];
    if i > 0 {
      assert chunks[..i][1..] == chunks[1..][..i - 1] && chunks[..i + 1][1..] == chunks[1..][..i];
      WriteChunksLast(chunks[1..], i - 1);
      Nested([V.ChunkHeader(chunks[0])], V.WriteLines(chunks[0].lines), V.WriteChunks(chunks[1..][..i - 1]),
             [V.ChunkHeader(chunks[i])] + V.WriteLines(chunks[i].lines));
    } else {
      assert chunks[..1] == [chunks[0]];
    }
  }

  class PatchChunk {
    const srcPos: nat
    const dstPos: nat
    var lines: seq<V.Line>

    constructor (sp: nat, dp: nat)
      ensures srcPos == sp && dstPos == dp && lines == []
    {
      srcPos, dstPos, lines := sp, dp, [];
    }

    function View(): V.Chunk
      reads this
    {
      V.Chunk(srcPos, dstPos, lines)
    }

    method AddLine(line: V.Line)
      modifies this
      ensures lines == old(lines) + [line]
    {
      lines := lines + [line];
    }

    /** The lines written; not ok where the program raises its exception for a line that was never set. */
    method Write() returns (ok: bool, out: seq<string>)
      ensures ok <==> V.AllSet(lines)
      ensures ok ==> out == [V.ChunkHeader(View())] + V.WriteLines(lines)
    {
      var srcLines := Src();
      var dstLines := Dst();
      out := ["@@ -" + (V.Decimal(srcPos) + ("," + (V.Decimal(|srcLines|) + (" +" + (V.Decimal(dstPos) + ("," +
              (V.Decimal(|dstLines|) + " @@\n")))))))];
      for i := 0 to |lines|
        invariant V.AllSet(lines[..i]) && out == [V.ChunkHeader(View())] + V.WriteLines(lines[..i])
      {
        var line := V.WriteLine(lines[i]);
        if line == None {
          return false, out;
        }
        WriteLinesLast(lines, i);
        out := out + [line.value];
      }
      assert lines[..|lines|] == lines;
      ok := true;
    }

    method Src() returns (src: seq<V.Line>)
      ensures src == V.SrcLines(lines)
    {
      src := [];
      for i := 0 to |lines|
        invariant src == V.SrcLines(lines[..i])
      {
        assert lines[..i + 1][..i] == lines[..i];
        if V.IsSrc(lines[i]) {
          src := src + [lines[i]];
        }
      }
      assert lines[..|lines|] == lines;
    }

    method Dst() returns (dst: seq<V.Line>)
      ensures dst == V.DstLines(lines)
    {
      dst := [];
      for i := 0 to |lines|
        invariant dst == V.DstLines(lines[..i])
      {
        assert lines[..i + 1][..i] == lines[..i];
        if V.IsDst(lines[i]) {
          dst := dst + [lines[i]];
        }
      }
      assert lines[..|lines|] == lines;
    }
  }

  class Patch {
    var src: string
    var dst: string
    var chunks: seq<PatchChunk>

    constructor ()
      ensures src == "" && dst == "" && chunks == []
    {
      src, dst, chunks := "", "", [];
    }

    /** The lines written for a patch whose hunks hold the given values. */
    method Write(ghost values: seq<V.Chunk>) returns (ok: bool, out: seq<string>)
      requires |values| == |chunks| && forall j :: 0 <= j < |chunks| ==> chunks[j].View() == values[j]
      ensures ok <==> V.Writable(values)
      ensures ok ==> out == V.WritePatches([V.Patch(src, dst, values)])
    {
      ghost var names := ["--- " + src + "\n"] + ["+++ " + dst + "\n"];
      out := ["--- " + src + "\n"] + ["+++ " + dst + "\n"];
      for j := 0 to |chunks|
        invariant V.Writable(values[..j]) && out == names + V.WriteChunks(values[..j])
      {
        var done, lines := chunks[j].Write();
        if !done {
          return false, out;
        }
        WriteChunksLast(values, j);
        Associates(names, V.WriteChunks(values[..j]), lines);
        out := out + lines;
      }
      assert values[..|chunks|] == values;
      WriteOnePatch(V.Patch(src, dst, values));
      ok := true;
    }
  }

  lemma WriteOnePatch(p: V.Patch)
    requires V.Writable(p.chunks)
    ensures V.WritePatches([p]) == ["--- " + p.src + "\n"] + ["+++ " + p.dst + "\n"] + V.WriteChunks(p.chunks)
  {
    assert [p][1..] == [];
    assert V.WriteChunks(p.chunks) + [] == V.WriteChunks(p.chunks);
    Associates(["--- " + p.src + "\n"], ["+++ " + p.dst + "\n"], V.WriteChunks(p.chunks));
  }

  /** The objects of a patch set: its patches, and for each the hunks it holds. */
  datatype Objects = Objects(patches: seq<Patch>, chunks: seq<seq<PatchChunk>>)

  ghost function AllChunks(chunks: seq<seq<PatchChunk>>): set<PatchChunk> {
    set i, j | 0 <= i < |chunks| && 0 <= j < |chunks[i]| :: chunks[i][j]
  }

  /** No object occurs twice. */
  ghost predicate Separate(o: Objects) {
    && |o.patches| == |o.chunks| && Distinct(o.patches)
    && forall i, j, k, l ::
         (0 <= i < |o.chunks| && 0 <= j < |o.chunks[i]| && 0 <= k < |o.chunks| && 0 <= l < |o.chunks[k]|
          && o.chunks[i][j] == o.chunks[k][l]) ==> i == k && j == l
  }

  ghost predicate Represents(o: Objects, values: seq<V.Patch>)
    reads o.patches, AllChunks(o.chunks)
  {
    && Separate(o) && |o.patches| == |values|
    && (forall i :: 0 <= i < |o.patches| ==>
          o.patches[i].src == values[i].src && o.patches[i].dst == values[i].dst && o.patches[i].chunks == o.chunks[i])
    && (forall i :: 0 <= i < |o.chunks| ==> |o.chunks[i]| == |values[i].chunks|)
    && (forall i, j :: 0 <= i < |o.chunks| && 0 <= j < |o.chunks[i]| ==> o.chunks[i][j].View() == values[i].chunks[j])
  }

  /** The current hunk is the object that the value model points at. */
  ghost predicate AtChunk(o: Objects, current: PatchChunk?, at: Option<(nat, nat)>) {
    match at
    case None => current == null
    case Some((i, j)) => i < |o.chunks| && j < |o.chunks[i]| && current == o.chunks[i][j]
  }

  method StartPatch(patchset: seq<Patch>, name: string, ghost chunks: seq<seq<PatchChunk>>, ghost values: seq<V.Patch>)
    returns (more: seq<Patch>)
    requires Represents(Objects(patchset, chunks), values)
    ensures |more| == |patchset| + 1 && more[..|patchset|] == patchset && fresh(more[|patchset|])
    ensures Represents(Objects(more, chunks + [[]]), values + [V.Patch(name, "", [])])
  {
    var p := new Patch();
    p.src := name;
    more := patchset + [p];
    DistinctAppend(patchset, [p]);
  }

  method SetDst(patchset: seq<Patch>, name: string, ghost chunks: seq<seq<PatchChunk>>, ghost values: seq<V.Patch>)
    requires patchset != [] && Represents(Objects(patchset, chunks), values)
    modifies patchset[|patchset| - 1]
    ensures var n := |patchset| - 1;
            Represents(Objects(patchset, chunks), values[n := values[n].(dst := name)])
  {
    patchset[|patchset| - 1].dst := name;
  }

  method StartChunk(patchset: seq<Patch>, sp: nat, dp: nat, ghost chunks: seq<seq<PatchChunk>>,
                    ghost values: seq<V.Patch>)
    returns (c: PatchChunk)
    requires patchset != [] && Represents(Objects(patchset, chunks), values)
    modifies patchset[|patchset| - 1]
    ensures fresh(c)
    ensures var n := |patchset| - 1;
            Represents(Objects(patchset, chunks[n := chunks[n] + [c]]),
                       values[n := values[n].(chunks := values[n].chunks + [V.Chunk(sp, dp, [])])])
  {
    c := new PatchChunk(sp, dp);
    var p := patchset[|patchset| - 1];
    p.chunks := p.chunks + [c];
  }

  method AddToChunk(c: PatchChunk, l: V.Line, ghost o: Objects, ghost s: V.State)
    requires Represents(o, s.patchset) && AtChunk(o, c, s.chunk) && V.InRange(s)
    modifies c
    ensures Represents(o, V.AddLine(s, l).patchset)
  {
    c.AddLine(l);
  }

  /** The objects of the patch set are all in the footprint. */
  ghost predicate Within(footprint: set<object>, patchset: seq<Patch>, chunks: seq<seq<PatchChunk>>) {
    && (forall i :: 0 <= i < |patchset| ==> patchset[i] in footprint)
    && forall i, j :: 0 <= i < |chunks| && 0 <= j < |chunks[i]| ==> chunks[i][j] in footprint
  }

  /** What the lines so far have built. */
  ghost predicate Built(footprint: set<object>, patchset: seq<Patch>, chunks: seq<seq<PatchChunk>>,
                        currentPatch: Patch?, currentChunk: PatchChunk?, s: V.State)
    reads patchset, AllChunks(chunks)
  {
    && Within(footprint, patchset, chunks)
    && Represents(Objects(patchset, chunks), s.patchset)
    && currentPatch == (if patchset == [] then null else patchset[|patchset| - 1])
    && AtChunk(Objects(patchset, chunks), currentChunk, s.chunk) && V.InRange(s)
  }

  method OnSrcFile(name: string, patchset: seq<Patch>, currentPatch: Patch?, currentChunk: PatchChunk?,
                   ghost chunks: seq<seq<PatchChunk>>, ghost s: V.State, ghost footprint: set<object>)
    returns (more: seq<Patch>, nextPatch: Patch, ghost objects: seq<seq<PatchChunk>>, ghost grown: set<object>)
    requires Built(footprint, patchset, chunks, currentPatch, currentChunk, s)
    ensures Built(grown, more, objects, nextPatch, currentChunk, s.(patchset := s.patchset + [V.Patch(name, "", [])]))
    ensures fresh(grown - footprint)
  {
    more := StartPatch(patchset, name, chunks, s.patchset);
    nextPatch := more[|patchset|];
    objects := chunks + [[]];
    grown := footprint + {nextPatch};
  }

  method OnChunkStart(sp: nat, dp: nat, patchset: seq<Patch>, currentPatch: Patch?, currentChunk: PatchChunk?,
                      ghost chunks: seq<seq<PatchChunk>>, ghost s: V.State, ghost footprint: set<object>)
    returns (nextChunk: PatchChunk, ghost objects: seq<seq<PatchChunk>>, ghost grown: set<object>)
    requires Built(footprint, patchset, chunks, currentPatch, currentChunk, s) && patchset != []
    modifies footprint
    ensures var n := |s.patchset| - 1;
            var p := s.patchset[n];
            Built(grown, patchset, objects, currentPatch, nextChunk,
                  V.State(s.patchset[n := p.(chunks := p.chunks + [V.Chunk(sp, dp, [])])], Some((n, |p.chunks|))))
    ensures fresh(grown - footprint)
  {
    ghost var n := |patchset| - 1;
    nextChunk := StartChunk(patchset, sp, dp, chunks, s.patchset);
    objects := chunks[n := chunks[n] + [nextChunk]];
    grown := footprint + {nextChunk};
  }

  /** The body of the parser's loop. */
  method ParseLine(line: string, patchset: seq<Patch>, currentPatch: Patch?, currentChunk: PatchChunk?,
                   ghost chunks: seq<seq<PatchChunk>>, ghost s: V.State, ghost footprint: set<object>)
    returns (error: Option<V.Error>, more: seq<Patch>, nextPatch: Patch?, nextChunk: PatchChunk?,
             ghost objects: seq<seq<PatchChunk>>, ghost grown: set<object>)
    requires Built(footprint, patchset, chunks, currentPatch, currentChunk, s)
    modifies footprint
    ensures match V.Step(s, line)
            case Failed(e) => error == Some(e)
            case Next(t) => error == None && Built(grown, more, objects, nextPatch, nextChunk, t)
    ensures fresh(grown - footprint)
  {
    error, more, nextPatch, nextChunk, objects, grown := None, patchset, currentPatch, currentChunk, chunks, footprint;
    var m := V.MatchLine("--- ", line);
    if m.Some? {
      more, nextPatch, objects, grown := OnSrcFile(m.value, patchset, currentPatch, currentChunk, chunks, s, footprint);
      return;
    }
    m := V.MatchLine("+++ ", line);
    if m.Some? {
      if currentPatch == null {
        error := Some(V.NoPatch);
        return;
      }
      SetDst(patchset, m.value, chunks, s.patchset);
      return;
    }
    var h := V.MatchChunk(line);
    if h.Some? {
      if currentPatch == null {
        error := Some(V.NoPatch);
        return;
      }
      nextChunk, objects, grown :=
        OnChunkStart(h.value.0, h.value.2, patchset, currentPatch, currentChunk, chunks, s, footprint);
      return;
    }
    var l := V.HunkLine(line);
    if l == None {
      error := Some(V.NoMatch);
    } else if currentChunk == null {
      error := Some(V.NoChunk);
    } else {
      AddToChunk(currentChunk, l.value, Objects(patchset, chunks), s);
    }
  }

  /** parse_patchset over the lines of a file. It fills objects of its own; what they hold is what the value model
      says. */
  method ParsePatchset(lines: seq<string>)
    returns (error: Option<V.Error>, patchset: seq<Patch>, ghost chunks: seq<seq<PatchChunk>>)
    ensures match V.Scan(V.START, lines)
            case Failed(e) => error == Some(e)
            case Next(t) => error == None && Represents(Objects(patchset, chunks), t.patchset)
    ensures forall i :: 0 <= i < |patchset| ==> fresh(patchset[i])
  {
    patchset, chunks, error := [], [], None;
    var currentPatch: Patch?, currentChunk: PatchChunk? := null, null;
    ghost var s, footprint := V.START, {};
    for i := 0 to |lines|
      invariant Built(footprint, patchset, chunks, currentPatch, currentChunk, s) && fresh(footprint)
      invariant V.Scan(V.START, lines) == V.Scan(s, lines[i..])
      invariant error == None
    {
      assert lines[i..][1..] == lines[i + 1..];
      ghost var result := V.Step(s, lines[i]);
      error, patchset, currentPatch, currentChunk, chunks, footprint :=
        ParseLine(lines[i], patchset, currentPatch, currentChunk, chunks, s, footprint);
      if error.Some? {
        return error, [], [];
      }
      s := result.state;
    }
  }
}
