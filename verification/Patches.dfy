/** Unified patches: writing them, parsing them back, and exactly when that gives the same patch set. */
module Patches {
  import opened Options
  import Python
  import opened Sequences

  /** A line of a hunk; Unset until one of the setters is called. */
  datatype Line = Unset | Src(text: string) | Dst(text: string) | Both(text: string)

  datatype Chunk = Chunk(srcPos: nat, dstPos: nat, lines: seq<Line>)

  datatype Patch = Patch(src: string, dst: string, chunks: seq<Chunk>)

  predicate IsSrc(l: Line) { l.Src? || l.Both? }

  predicate IsDst(l: Line) { l.Dst? || l.Both? }

  function SrcLines(lines: seq<Line>): seq<Line> {
    if lines == [] then []
    else SrcLines(lines[..|lines| - 1]) + if IsSrc(lines[|lines| - 1]) then [lines[|lines| - 1]] else []
  }

  function DstLines(lines: seq<Line>): seq<Line> {
    if lines == [] then []
    else DstLines(lines[..|lines| - 1]) + if IsDst(lines[|lines| - 1]) then [lines[|lines| - 1]] else []
  }

  // ---------------------------------------------------------------- decimal numbers

  predicate IsDigit(c: char) { '0' <= c <= '9' }

  predicate AllDigits(s: string) {
    forall i :: 0 <= i < |s| ==> IsDigit(s[i])
  }

  function DigitOf(n: nat): char
    requires n < 10
  {
    '0' + n as char
  }

  function ValueOf(c: char): nat
    requires IsDigit(c)
  {
    (c - '0') as nat
  }

  /** The format %d of a number that is not negative. */
  function Decimal(n: nat): (s: string)
    ensures s != [] && AllDigits(s)
  {
    if n < 10 then [DigitOf(n)] else Decimal(n / 10) + [DigitOf(n % 10)]
  }

  /** int() of a string of digits. */
  function ToInt(s: string): nat
    requires AllDigits(s)
  {
    if s == [] then 0 else 10 * ToInt(s[..|s| - 1]) + ValueOf(s[|s| - 1])
  }

  lemma {:induction false} DecimalRoundTrip(n: nat)
    ensures ToInt(Decimal(n)) == n
  {
    if n >= 10 {
      DecimalRoundTrip(n / 10);
      assert Decimal(n)[..|Decimal(n)| - 1] == Decimal(n / 10);
    }
  }

  // ---------------------------------------------------------------- writing

  function ChunkHeader(c: Chunk): string {
    "@@ -" + (Decimal(c.srcPos) + ("," + (Decimal(|SrcLines(c.lines)|) + (" +" + (Decimal(c.dstPos) + ("," +
    (Decimal(|DstLines(c.lines)|) + " @@\n")))))))
  }

  /** The text of a line; None where the program raises its exception. */
  function WriteLine(l: Line): Option<string> {
    match l
    case Unset => None
    case Src(t) => Some("-" + t + "\n")
    case Dst(t) => Some("+" + t + "\n")
    case Both(t) => Some(" " + t + "\n")
  }

  predicate AllSet(lines: seq<Line>) {
    forall i :: 0 <= i < |lines| ==> !lines[i].Unset?
  }

  function WriteLines(lines: seq<Line>): seq<string>
    requires AllSet(lines)
  {
    if lines == [] then [] else [WriteLine(lines[0]).value] + WriteLines(lines[1..])
  }

  predicate Writable(chunks: seq<Chunk>) {
    forall i :: 0 <= i < |chunks| ==> AllSet(chunks[i].lines)
  }

  function WriteChunks(chunks: seq<Chunk>): seq<string>
    requires Writable(chunks)
  {
    if chunks == [] then []
    else [ChunkHeader(chunks[0])] + (WriteLines(chunks[0].lines) + WriteChunks(chunks[1..]))
  }

  predicate WritableSet(ps: seq<Patch>) {
    forall i :: 0 <= i < |ps| ==> Writable(ps[i].chunks)
  }

  /** The lines written for a patch set. */
  function WritePatches(ps: seq<Patch>): seq<string>
    requires WritableSet(ps)
  {
    if ps == [] then []
    else ["--- " + ps[0].src + "\n"] + (["+++ " + ps[0].dst + "\n"] +
          (WriteChunks(ps[0].chunks) + WritePatches(ps[1..])))
  }

  // ---------------------------------------------------------------- the patterns

  predicate OneLine(s: string) {
    forall i :: 0 <= i < |s| ==> s[i] != '\n'
  }

  /** The match of ^prefix(.*)$ : the group. */
  function MatchLine(prefix: string, line: string): Option<string> {
    if prefix <= line && OneLine(Python.DropLineFeed(line[|prefix|..]))
    then Some(Python.DropLineFeed(line[|prefix|..]))
    else None
  }

  /** How many digits s starts with. */
  function CountDigits(s: string): (n: nat)
    ensures n <= |s| && AllDigits(s[..n])
  {
    if s == [] || !IsDigit(s[0]) then 0 else 1 + CountDigits(s[1..])
  }

  /** The match of ([0-9]+) and the literal after it, at the start of s: the number and what follows. */
  function MatchNumber(s: string, literal: string): Option<(nat, string)> {
    var n := CountDigits(s);
    if n > 0 && literal <= s[n..] then Some((ToInt(s[..n]), s[n + |literal|..])) else None
  }

  /** The match of ^@@ -([0-9]+),([0-9]+) \+([0-9]+),([0-9]+) @@ : the four numbers. */
  function MatchChunk(line: string): Option<(nat, nat, nat, nat)> {
    if !("@@ -" <= line) then None
    else
      var a := MatchNumber(line[4..], ",");
      if a == None then None
      else
        var b := MatchNumber(a.value.1, " +");
        if b == None then None
        else
          var c := MatchNumber(b.value.1, ",");
          if c == None then None
          else
            var d := MatchNumber(c.value.1, " @@");
            if d == None then None else Some((a.value.0, b.value.0, c.value.0, d.value.0))
  }

  lemma {:induction false} CountDigitsOf(digits: string, rest: string)
    requires AllDigits(digits) && (rest == [] || !IsDigit(rest[0]))
    ensures CountDigits(digits + rest) == |digits|
  {
    if digits == [] {
      assert digits + rest == rest;
    } else {
      assert (digits + rest)[1..] == digits[1..] + rest;
      CountDigitsOf(digits[1..], rest);
    }
  }

  lemma MatchNumberOf(n: nat, literal: string, rest: string)
    requires literal != [] && !IsDigit(literal[0])
    ensures MatchNumber(Decimal(n) + (literal + rest), literal) == Some((n, rest))
  {
    var s := Decimal(n) + (literal + rest);
    CountDigitsOf(Decimal(n), literal + rest);
    DecimalRoundTrip(n);
    assert s[..|Decimal(n)|] == Decimal(n) && s[|Decimal(n)|..] == literal + rest;
    assert s[|Decimal(n)| + |literal|..] == rest;
  }

  /** The header of a hunk carries its positions and the numbers of its source and destination lines, and the parser
      reads them back. */
  lemma HeaderRoundTrip(c: Chunk)
    ensures MatchChunk(ChunkHeader(c)) == Some((c.srcPos, |SrcLines(c.lines)|, c.dstPos, |DstLines(c.lines)|))
  {
    var d := Decimal(|DstLines(c.lines)|) + " @@\n";
    var e := Decimal(c.dstPos) + ("," + d);
    var f := Decimal(|SrcLines(c.lines)|) + (" +" + e);
    var g := Decimal(c.srcPos) + ("," + f);
    assert ChunkHeader(c)[4..] == g;
    MatchNumberOf(c.srcPos, ",", f);
    MatchNumberOf(|SrcLines(c.lines)|, " +", e);
    MatchNumberOf(c.dstPos, ",", d);
    assert " @@" + "\n" == " @@\n";
    MatchNumberOf(|DstLines(c.lines)|, " @@", "\n");
  }

  // ---------------------------------------------------------------- what the numbers in a header count

  /** Whether a written line is one of those with the sign, or a context line. */
  predicate StartsWith(line: string, sign: char) {
    line != [] && (line[0] == ' ' || line[0] == sign)
  }

  function CountStarting(lines: seq<string>, sign: char): nat {
    if lines == [] then 0 else (if StartsWith(lines[0], sign) then 1 else 0) + CountStarting(lines[1..], sign)
  }

  lemma {:induction false} SrcLinesFirst(lines: seq<Line>)
    requires lines != []
    ensures |SrcLines(lines)| == (if IsSrc(lines[0]) then 1 else 0) + |SrcLines(lines[1..])|
  {
    var k := |lines| - 1;
    if k > 0 {
      SrcLinesFirst(lines[..k]);
      assert lines[..k][1..] == lines[1..][..k - 1];
    }
  }

  lemma {:induction false} DstLinesFirst(lines: seq<Line>)
    requires lines != []
    ensures |DstLines(lines)| == (if IsDst(lines[0]) then 1 else 0) + |DstLines(lines[1..])|
  {
    var k := |lines| - 1;
    if k > 0 {
      DstLinesFirst(lines[..k]);
      assert lines[..k][1..] == lines[1..][..k - 1];
    }
  }

  lemma {:induction false} WrittenSides(lines: seq<Line>)
    requires AllSet(lines)
    ensures CountStarting(WriteLines(lines), '-') == |SrcLines(lines)|
    ensures CountStarting(WriteLines(lines), '+') == |DstLines(lines)|
  {
    if lines != [] {
      SrcLinesFirst(lines);
      DstLinesFirst(lines);
      WrittenSides(lines[1..]);
      assert WriteLines(lines)[1..] == WriteLines(lines[1..]);
    }
  }

  /** Of the lines written for a hunk, the first gives, as its second and fourth numbers, how many of the following ones
      start with a blank or a minus, and with a blank or a plus. */
  lemma HeaderCountsWritten(c: Chunk)
    requires AllSet(c.lines)
    ensures var out := WriteChunks([c]);
            && |out| == |c.lines| + 1 && MatchChunk(out[0]).Some?
            && MatchChunk(out[0]).value.1 == CountStarting(out[1..], '-')
            && MatchChunk(out[0]).value.3 == CountStarting(out[1..], '+')
  {
    HeaderRoundTrip(c);
    WrittenSides(c.lines);
    WrittenLength(c.lines);
    OneChunk(c);
  }

  lemma {:induction false} WrittenLength(lines: seq<Line>)
    requires AllSet(lines)
    ensures |WriteLines(lines)| == |lines|
  {
    if lines != [] {
      WrittenLength(lines[1..]);
    }
  }

  lemma OneChunk(c: Chunk)
    requires AllSet(c.lines)
    ensures WriteChunks([c]) == [ChunkHeader(c)] + WriteLines(c.lines)
    ensures WriteChunks([c])[1..] == WriteLines(c.lines)
  {
    assert [c][1..] == [];
    AppendNothing(WriteLines(c.lines));
  }

  /** The digits of a number by their places, most significant first. */
  function PowerOfTen(n: nat): nat {
    if n == 0 then 1 else 10 * PowerOfTen(n - 1)
  }

  function Positional(s: string): nat
    requires AllDigits(s)
  {
    if s == [] then 0 else ValueOf(s[0]) * PowerOfTen(|s| - 1) + Positional(s[1..])
  }

  lemma {:induction false} ToIntIsPositional(s: string)
    requires AllDigits(s)
    ensures ToInt(s) == Positional(s)
  {
    if s != [] {
      ToIntIsPositional(s[..|s| - 1]);
      PositionalLast(s);
    }
  }

  lemma {:induction false} PositionalLast(s: string)
    requires s != [] && AllDigits(s)
    ensures Positional(s) == 10 * Positional(s[..|s| - 1]) + ValueOf(s[|s| - 1])
  {
    if |s| > 1 {
      PositionalLast(s[1..]);
      assert s[1..][..|s| - 2] == s[..|s| - 1][1..];
      TenTimes(ValueOf(s[0]), PowerOfTen(|s| - 2));
    } else {
      assert s[1..] == [] && s[..0] == [];
    }
  }

  lemma TenTimes(v: nat, p: nat)
    ensures v * (10 * p) == 10 * (v * p)
  {}

  /** A written number reads as itself, place by place. */
  lemma DecimalIsPositional(n: nat)
    ensures Positional(Decimal(n)) == n
  {
    DecimalRoundTrip(n);
    ToIntIsPositional(Decimal(n));
  }

  // ---------------------------------------------------------------- parsing

  datatype Error =
    | NoMatch      // the exception raised for a line that fits no pattern
    | NoPatch      // a header that needs a patch before any patch has started
    | NoChunk      // a hunk line before any hunk has started

  /** The patches so far, the last of which is the current one, and where the current hunk is. A new patch does not
      end the current hunk: it stays where it was added. */
  datatype State = State(patchset: seq<Patch>, chunk: Option<(nat, nat)>)

  datatype StepResult = Next(state: State) | Failed(error: Error)

  predicate InRange(s: State) {
    s.chunk.Some? ==> s.chunk.value.0 < |s.patchset| && s.chunk.value.1 < |s.patchset[s.chunk.value.0].chunks|
  }

  function AddLine(s: State, l: Line): State
    requires InRange(s) && s.chunk.Some?
  {
    var (i, j) := s.chunk.value;
    var p := s.patchset[i];
    var c := p.chunks[j];
    s.(patchset := s.patchset[i := p.(chunks := p.chunks[j := c.(lines := c.lines + [l])])])
  }

  /** The line of a hunk that a line of the file stands for, if any. */
  function HunkLine(line: string): Option<Line> {
    var src := MatchLine("-", line);
    var dst := MatchLine("+", line);
    var both := MatchLine(" ", line);
    if src.Some? then Some(Src(src.value))
    else if dst.Some? then Some(Dst(dst.value))
    else if both.Some? then Some(Both(both.value))
    else None
  }

  function Step(s: State, line: string): (r: StepResult)
    requires InRange(s)
    ensures r.Next? ==> InRange(r.state)
  {
    var srcFile, dstFile, chunkStart := MatchLine("--- ", line), MatchLine("+++ ", line), MatchChunk(line);
    var n := |s.patchset|;
    if srcFile.Some? then Next(s.(patchset := s.patchset + [Patch(srcFile.value, "", [])]))
    else if dstFile.Some? then
      if n == 0 then Failed(NoPatch)
      else Next(s.(patchset := s.patchset[n - 1 := s.patchset[n - 1].(dst := dstFile.value)]))
    else if chunkStart.Some? then
      if n == 0 then Failed(NoPatch)
      else
        var p := s.patchset[n - 1];
        var c := Chunk(chunkStart.value.0, chunkStart.value.2, []);
        Next(State(s.patchset[n - 1 := p.(chunks := p.chunks + [c])], Some((n - 1, |p.chunks|))))
    else
      var l := HunkLine(line);
      if l == None then Failed(NoMatch)
      else if s.chunk == None then Failed(NoChunk)
      else Next(AddLine(s, l.value))
  }

  function Scan(s: State, lines: seq<string>): (r: StepResult)
    requires InRange(s)
    ensures r.Next? ==> InRange(r.state)
    decreases |lines|
  {
    if lines == [] then Next(s)
    else
      var next := Step(s, lines[0]);
      if next.Failed? then next else Scan(next.state, lines[1..])
  }

  const START := State([], None)

  // ---------------------------------------------------------------- what the patterns make of written lines

  lemma MatchOwn(prefix: string, text: string)
    requires OneLine(text)
    ensures MatchLine(prefix, prefix + text + "\n") == Some(text)
  {
    var line := prefix + text + "\n";
    assert line[|prefix|..] == text + "\n";
    assert Python.DropLineFeed(text + "\n") == text;
  }

  lemma MatchOther(prefix: string, line: string)
    requires prefix != [] && line != [] && prefix[0] != line[0]
    ensures MatchLine(prefix, line) == None
  {}

  lemma HeaderStart(c: Chunk)
    ensures ChunkHeader(c)[0] == '@'
  {}

  /** Text that makes a removed or added line look like the header of a patch. */
  predicate LooksLikeHeader(l: Line) {
    (l.Src? && "-- " <= l.text) || (l.Dst? && "++ " <= l.text)
  }

  lemma MatchSigned(sign: string, text: string)
    requires |sign| == 1 && OneLine(text)
    ensures var line, header := sign + text + "\n", sign + sign + sign + " ";
            MatchLine(header, line).Some? <==> sign + sign + " " <= text
  {
    var line, header, tail := sign + text + "\n", sign + sign + sign + " ", sign + sign + " ";
    assert header == sign + tail;
    assert line[1..] == text + "\n";
    if tail <= text {
      var rest := text[3..];
      assert text == tail + rest;
      assert line == header + rest + "\n";
      MatchOwn(header, rest);
    } else if header <= line {
      assert header[1..] == tail && line[1..] == text + "\n";
      PrefixBeforeLineFeed(tail, text);
    }
  }

  lemma PrefixBeforeLineFeed(tail: string, text: string)
    requires OneLine(tail) && tail <= text + "\n"
    ensures tail <= text
  {
    var whole := text + "\n";
    assert whole[|text|] == '\n' && tail == whole[..|tail|];
  }

  /** A written hunk line that does not look like a header is parsed as itself. */
  lemma WrittenLine(l: Line)
    requires !l.Unset? && OneLine(l.text)
    ensures var line := WriteLine(l).value;
            && MatchChunk(line) == None && HunkLine(line) == Some(l)
            && (MatchLine("--- ", line).Some? || MatchLine("+++ ", line).Some? <==> LooksLikeHeader(l))
  {
    var line := WriteLine(l).value;
    match l
    case Src(t) =>
      MatchOwn("-", t);
      MatchSigned("-", t);
      MatchOther("+++ ", line);
      assert "-" + "-" + "-" + " " == "--- " && "-" + "-" + " " == "-- ";
    case Dst(t) =>
      MatchOwn("+", t);
      MatchSigned("+", t);
      MatchOther("--- ", line);
      MatchOther("-", line);
      assert "+" + "+" + "+" + " " == "+++ " && "+" + "+" + " " == "++ ";
    case Both(t) =>
      MatchOwn(" ", t);
      MatchOther("+++ ", line);
      MatchOther("--- ", line);
      MatchOther("-", line);
      MatchOther("+", line);
  }

  // ---------------------------------------------------------------- the round trip

  ghost predicate Texts(lines: seq<Line>) {
    forall i :: 0 <= i < |lines| ==> !lines[i].Unset? && OneLine(lines[i].text)
  }

  ghost predicate TextsOfChunks(chunks: seq<Chunk>) {
    forall j :: 0 <= j < |chunks| ==> Texts(chunks[j].lines)
  }

  /** Every line has been set, and names and texts come from lines of a file. */
  ghost predicate TextsOfSet(ps: seq<Patch>) {
    forall i :: 0 <= i < |ps| ==> OneLine(ps[i].src) && OneLine(ps[i].dst) && TextsOfChunks(ps[i].chunks)
  }

  lemma TextsAreSet(chunks: seq<Chunk>)
    requires TextsOfChunks(chunks)
    ensures Writable(chunks)
  {}

  lemma TextsAreWritable(ps: seq<Patch>)
    requires TextsOfSet(ps)
    ensures WritableSet(ps)
  {
    forall i | 0 <= i < |ps|
      ensures Writable(ps[i].chunks)
    {
      TextsAreSet(ps[i].chunks);
    }
  }

  ghost predicate Plain(lines: seq<Line>) {
    Texts(lines) && forall i :: 0 <= i < |lines| ==> !LooksLikeHeader(lines[i])
  }

  ghost predicate PlainChunks(chunks: seq<Chunk>) {
    forall j :: 0 <= j < |chunks| ==> Plain(chunks[j].lines)
  }

  /** No removed line's text starts with "-- " and no added line's text with "++ ". */
  ghost predicate PlainSet(ps: seq<Patch>) {
    TextsOfSet(ps) && forall i :: 0 <= i < |ps| ==> PlainChunks(ps[i].chunks)
  }

  /** The state while the hunk c, the last of a patch that follows the patches in front, is being read. */
  ghost function Reading(front: seq<Patch>, src: string, dst: string, cs: seq<Chunk>, c: Chunk): State {
    State(front + [Patch(src, dst, cs + [c])], Some((|front|, |cs|)))
  }

  lemma AddToLast(front: seq<Patch>, src: string, dst: string, cs: seq<Chunk>, c: Chunk, l: Line)
    ensures AddLine(Reading(front, src, dst, cs, c), l) == Reading(front, src, dst, cs, c.(lines := c.lines + [l]))
  {
    var d := c.(lines := c.lines + [l]);
    UpdateLast(cs, c, d);
    UpdateLast(front, Patch(src, dst, cs + [c]), Patch(src, dst, cs + [d]));
  }

  lemma ScanNext(s: State, line: string, rest: seq<string>)
    requires InRange(s) && Step(s, line).Next?
    ensures Scan(s, [line] + rest) == Scan(Step(s, line).state, rest)
  {
    assert ([line] + rest)[1..] == rest;
  }

  lemma WriteLinesCons(more: seq<Line>, rest: seq<string>)
    requires more != [] && AllSet(more)
    ensures WriteLines(more) + rest == [WriteLine(more[0]).value] + (WriteLines(more[1..]) + rest)
  {}

  lemma WriteChunksCons(more: seq<Chunk>, rest: seq<string>)
    requires more != [] && Writable(more)
    ensures WriteChunks(more) + rest
         == [ChunkHeader(more[0])] + (WriteLines(more[0].lines) + (WriteChunks(more[1..]) + rest))
  {
    var a, b, c := [ChunkHeader(more[0])], WriteLines(more[0].lines), WriteChunks(more[1..]);
    assert a + (b + c) + rest == a + (b + (c + rest));
  }

  /** Reading a plain line adds it to the current hunk. */
  lemma StepLine(front: seq<Patch>, src: string, dst: string, cs: seq<Chunk>, c: Chunk, l: Line)
    requires !l.Unset? && OneLine(l.text) && !LooksLikeHeader(l)
    ensures InRange(Reading(front, src, dst, cs, c))
    ensures Step(Reading(front, src, dst, cs, c), WriteLine(l).value)
         == Next(Reading(front, src, dst, cs, c.(lines := c.lines + [l])))
  {
    WrittenLine(l);
    AddToLast(front, src, dst, cs, c, l);
  }

  lemma {:induction false} LinesBack(front: seq<Patch>, src: string, dst: string, cs: seq<Chunk>, c: Chunk,
                                     more: seq<Line>, rest: seq<string>)
    requires Plain(more)
    ensures InRange(Reading(front, src, dst, cs, c))
    ensures Scan(Reading(front, src, dst, cs, c), WriteLines(more) + rest)
         == Scan(Reading(front, src, dst, cs, c.(lines := c.lines + more)), rest)
    decreases |more|
  {
    if more == [] {
      AppendNothing(c.lines);
      AppendNothing(rest);
    } else {
      var l, d := more[0], c.(lines := c.lines + [more[0]]);
      StepLine(front, src, dst, cs, c, l);
      WriteLinesCons(more, rest);
      ScanNext(Reading(front, src, dst, cs, c), WriteLine(l).value, WriteLines(more[1..]) + rest);
      LinesBack(front, src, dst, cs, d, more[1..], rest);
      AppendHead(c.lines, more);
    }
  }

  /** Reading a hunk header starts an empty hunk at the header's positions. */
  lemma StepHeader(front: seq<Patch>, src: string, dst: string, cs: seq<Chunk>, cur: Option<(nat, nat)>, c: Chunk)
    requires InRange(State(front + [Patch(src, dst, cs)], cur))
    ensures Step(State(front + [Patch(src, dst, cs)], cur), ChunkHeader(c))
         == Next(Reading(front, src, dst, cs, Chunk(c.srcPos, c.dstPos, [])))
  {
    HeaderRoundTrip(c);
    HeaderStart(c);
    MatchOther("--- ", ChunkHeader(c));
    MatchOther("+++ ", ChunkHeader(c));
    UpdateLast(front, Patch(src, dst, cs), Patch(src, dst, cs + [Chunk(c.srcPos, c.dstPos, [])]));
  }

  lemma ChunkBack(front: seq<Patch>, src: string, dst: string, cs: seq<Chunk>, cur: Option<(nat, nat)>,
                  c: Chunk, rest: seq<string>)
    requires Plain(c.lines) && InRange(State(front + [Patch(src, dst, cs)], cur))
    ensures InRange(Reading(front, src, dst, cs, c))
    ensures Scan(State(front + [Patch(src, dst, cs)], cur), [ChunkHeader(c)] + (WriteLines(c.lines) + rest))
         == Scan(Reading(front, src, dst, cs, c), rest)
  {
    StepHeader(front, src, dst, cs, cur, c);
    ScanNext(State(front + [Patch(src, dst, cs)], cur), ChunkHeader(c), WriteLines(c.lines) + rest);
    LinesBack(front, src, dst, cs, Chunk(c.srcPos, c.dstPos, []), c.lines, rest);
    AppendNothing(c.lines);
  }

  lemma {:induction false} ChunksBack(front: seq<Patch>, src: string, dst: string, cs: seq<Chunk>,
                                      cur: Option<(nat, nat)>,
                                      more: seq<Chunk>, rest: seq<string>) returns (after: Option<(nat, nat)>)
    requires PlainChunks(more) && Writable(more) && InRange(State(front + [Patch(src, dst, cs)], cur))
    ensures InRange(State(front + [Patch(src, dst, cs + more)], after))
    ensures Scan(State(front + [Patch(src, dst, cs)], cur), WriteChunks(more) + rest)
         == Scan(State(front + [Patch(src, dst, cs + more)], after), rest)
    decreases |more|
  {
    if more == [] {
      after := cur;
      AppendNothing(cs);
      AppendNothing(rest);
    } else {
      ChunkBack(front, src, dst, cs, cur, more[0], WriteChunks(more[1..]) + rest);
      WriteChunksCons(more, rest);
      after := ChunksBack(front, src, dst, cs + [more[0]], Some((|front|, |cs|)), more[1..], rest);
      AppendHead(cs, more);
    }
  }

  lemma WritePatchesCons(ps: seq<Patch>)
    requires ps != [] && WritableSet(ps)
    ensures WritePatches(ps) == ["--- " + ps[0].src + "\n"] +
              (["+++ " + ps[0].dst + "\n"] + (WriteChunks(ps[0].chunks) + WritePatches(ps[1..])))
  {}

  lemma StepNames(front: seq<Patch>, cur: Option<(nat, nat)>, src: string, dst: string)
    requires InRange(State(front, cur)) && OneLine(src) && OneLine(dst)
    ensures Step(State(front, cur), "--- " + src + "\n") == Next(State(front + [Patch(src, "", [])], cur))
    ensures InRange(State(front + [Patch(src, "", [])], cur))
    ensures Step(State(front + [Patch(src, "", [])], cur), "+++ " + dst + "\n")
         == Next(State(front + [Patch(src, dst, [])], cur))
    ensures InRange(State(front + [Patch(src, dst, [])], cur))
  {
    MatchOwn("--- ", src);
    MatchOwn("+++ ", dst);
    MatchOther("--- ", "+++ " + dst + "\n");
    UpdateLast(front, Patch(src, "", []), Patch(src, dst, []));
  }

  lemma {:induction false} PatchesBack(front: seq<Patch>, cur: Option<(nat, nat)>, more: seq<Patch>)
    requires PlainSet(more) && WritableSet(more) && InRange(State(front, cur))
    ensures Scan(State(front, cur), WritePatches(more)).Next?
    ensures Scan(State(front, cur), WritePatches(more)).state.patchset == front + more
    decreases |more|
  {
    if more == [] {
      AppendNothing(front);
    } else {
      var p := more[0];
      var a, b, c := "--- " + p.src + "\n", "+++ " + p.dst + "\n", WriteChunks(p.chunks) + WritePatches(more[1..]);
      StepNames(front, cur, p.src, p.dst);
      ScanNext(State(front, cur), a, [b] + c);
      ScanNext(State(front + [Patch(p.src, "", [])], cur), b, c);
      var after := ChunksBack(front, p.src, p.dst, [], cur, p.chunks, WritePatches(more[1..]));
      AppendNothing(p.chunks);
      PatchesBack(front + [p], after, more[1..]);
      WritePatchesCons(more);
      AppendHead(front, more);
    }
  }

  // ---------------------------------------------------------------- exactly when

  ghost function LinesIn(chunks: seq<Chunk>): nat {
    if chunks == [] then 0 else LinesIn(chunks[..|chunks| - 1]) + |chunks[|chunks| - 1].lines|
  }

  ghost function LinesOf(ps: seq<Patch>): nat {
    if ps == [] then 0 else LinesOf(ps[..|ps| - 1]) + LinesIn(ps[|ps| - 1].chunks)
  }

  ghost predicate IsHeader(line: string) {
    MatchLine("--- ", line).Some? || MatchLine("+++ ", line).Some? || MatchChunk(line).Some?
  }

  ghost function HunkLines(lines: seq<string>): nat {
    if lines == [] then 0 else (if IsHeader(lines[0]) then 0 else 1) + HunkLines(lines[1..])
  }

  lemma {:induction false} LinesInUpdate(chunks: seq<Chunk>, j: nat, c: Chunk)
    requires j < |chunks|
    ensures LinesIn(chunks[j := c]) + |chunks[j].lines| == LinesIn(chunks) + |c.lines|
  {
    var k := |chunks| - 1;
    if j < k {
      assert chunks[j := c][..k] == chunks[..k][j := c];
      LinesInUpdate(chunks[..k], j, c);
    } else {
      assert chunks[j := c][..k] == chunks[..k];
    }
  }

  lemma {:induction false} LinesOfUpdate(ps: seq<Patch>, i: nat, p: Patch)
    requires i < |ps|
    ensures LinesOf(ps[i := p]) + LinesIn(ps[i].chunks) == LinesOf(ps) + LinesIn(p.chunks)
  {
    var k := |ps| - 1;
    if i < k {
      assert ps[i := p][..k] == ps[..k][i := p];
      LinesOfUpdate(ps[..k], i, p);
    } else {
      assert ps[i := p][..k] == ps[..k];
    }
  }

  lemma AppendEmptyChunk(chunks: seq<Chunk>, c: Chunk)
    requires c.lines == []
    ensures LinesIn(chunks + [c]) == LinesIn(chunks)
  {
    assert (chunks + [c])[..|chunks|] == chunks;
  }

  /** Each line that is no header becomes one line of one hunk; headers add none. */
  lemma StepCounts(s: State, line: string)
    requires InRange(s) && Step(s, line).Next?
    ensures LinesOf(Step(s, line).state.patchset) == LinesOf(s.patchset) + if IsHeader(line) then 0 else 1
  {
    var t, n := Step(s, line).state, |s.patchset|;
    if MatchLine("--- ", line).Some? {
      assert t.patchset[..n] == s.patchset;
      assert LinesIn(t.patchset[n].chunks) == 0;
    } else if MatchLine("+++ ", line).Some? {
      LinesOfUpdate(s.patchset, n - 1, t.patchset[n - 1]);
    } else if MatchChunk(line).Some? {
      AppendEmptyChunk(s.patchset[n - 1].chunks, t.patchset[n - 1].chunks[|s.patchset[n - 1].chunks|]);
      LinesOfUpdate(s.patchset, n - 1, t.patchset[n - 1]);
    } else {
      AddLineCounts(s, HunkLine(line).value);
    }
  }

  lemma AddLineCounts(s: State, l: Line)
    requires InRange(s) && s.chunk.Some?
    ensures LinesOf(AddLine(s, l).patchset) == LinesOf(s.patchset) + 1
  {
    var (i, j) := s.chunk.value;
    var t := AddLine(s, l);
    LinesInUpdate(s.patchset[i].chunks, j, t.patchset[i].chunks[j]);
    LinesOfUpdate(s.patchset, i, t.patchset[i]);
  }

  lemma {:induction false} ScanCounts(s: State, lines: seq<string>)
    requires InRange(s) && Scan(s, lines).Next?
    ensures LinesOf(Scan(s, lines).state.patchset) == LinesOf(s.patchset) + HunkLines(lines)
    decreases |lines|
  {
    if lines != [] {
      StepCounts(s, lines[0]);
      ScanCounts(Step(s, lines[0]).state, lines[1..]);
    }
  }

  lemma {:induction false} HunkLinesAppend(a: seq<string>, b: seq<string>)
    ensures HunkLines(a + b) == HunkLines(a) + HunkLines(b)
  {
    if a == [] {
      AppendNothing(b);
    } else {
      assert (a + b)[1..] == a[1..] + b;
      HunkLinesAppend(a[1..], b);
    }
  }

  /** At most as many hunk lines are written as there are lines, and as many only if none looks like a header. */
  lemma {:induction false} WrittenLines(lines: seq<Line>)
    requires Texts(lines)
    ensures AllSet(lines) && HunkLines(WriteLines(lines)) <= |lines|
    ensures HunkLines(WriteLines(lines)) == |lines| ==> Plain(lines)
  {
    if lines != [] {
      WrittenLine(lines[0]);
      WrittenLines(lines[1..]);
      assert WriteLines(lines)[1..] == WriteLines(lines[1..]);
    }
  }

  lemma {:induction false} LinesInCons(chunks: seq<Chunk>)
    requires chunks != []
    ensures LinesIn(chunks) == |chunks[0].lines| + LinesIn(chunks[1..])
  {
    var k := |chunks| - 1;
    if k > 0 {
      LinesInCons(chunks[..k]);
      assert chunks[..k][1..] == chunks[1..][..k - 1];
    }
  }

  lemma {:induction false} LinesOfCons(ps: seq<Patch>)
    requires ps != []
    ensures LinesOf(ps) == LinesIn(ps[0].chunks) + LinesOf(ps[1..])
  {
    var k := |ps| - 1;
    if k > 0 {
      LinesOfCons(ps[..k]);
      assert ps[..k][1..] == ps[1..][..k - 1];
    }
  }

  lemma HeaderIsHeader(c: Chunk, rest: seq<string>)
    ensures HunkLines([ChunkHeader(c)] + rest) == HunkLines(rest)
  {
    HeaderRoundTrip(c);
    assert ([ChunkHeader(c)] + rest)[1..] == rest;
  }

  lemma {:induction false} WrittenChunks(chunks: seq<Chunk>)
    requires TextsOfChunks(chunks) && Writable(chunks)
    ensures HunkLines(WriteChunks(chunks)) <= LinesIn(chunks)
    ensures HunkLines(WriteChunks(chunks)) == LinesIn(chunks) ==> PlainChunks(chunks)
  {
    if chunks != [] {
      var c, lines, more := chunks[0], WriteLines(chunks[0].lines), WriteChunks(chunks[1..]);
      WrittenLines(c.lines);
      WrittenChunks(chunks[1..]);
      HeaderIsHeader(c, lines + more);
      HunkLinesAppend(lines, more);
      LinesInCons(chunks);
      if PlainChunks(chunks[1..]) && Plain(c.lines) {
        assert forall j :: 1 <= j < |chunks| ==> chunks[j] == chunks[1..][j - 1];
      }
    }
  }

  lemma NamesAreHeaders(src: string, dst: string, rest: seq<string>)
    requires OneLine(src) && OneLine(dst)
    ensures HunkLines(["--- " + src + "\n"] + (["+++ " + dst + "\n"] + rest)) == HunkLines(rest)
  {
    var a, b := "--- " + src + "\n", "+++ " + dst + "\n";
    MatchOwn("--- ", src);
    MatchOwn("+++ ", dst);
    assert ([a] + ([b] + rest))[1..] == [b] + rest;
    assert ([b] + rest)[1..] == rest;
  }

  lemma {:induction false} WrittenPatches(ps: seq<Patch>)
    requires TextsOfSet(ps) && WritableSet(ps)
    ensures HunkLines(WritePatches(ps)) <= LinesOf(ps)
    ensures HunkLines(WritePatches(ps)) == LinesOf(ps) ==> PlainSet(ps)
  {
    if ps != [] {
      var p := ps[0];
      var chunks, more := WriteChunks(p.chunks), WritePatches(ps[1..]);
      WrittenChunks(p.chunks);
      WrittenPatches(ps[1..]);
      WritePatchesCons(ps);
      NamesAreHeaders(p.src, p.dst, chunks + more);
      HunkLinesAppend(chunks, more);
      LinesOfCons(ps);
      if PlainSet(ps[1..]) && PlainChunks(p.chunks) {
        assert forall i :: 1 <= i < |ps| ==> ps[i] == ps[1..][i - 1];
      }
    }
  }

  /** Parsing what was written gives back the same patch set if and only if no removed line's text starts with "-- "
      and no added line's text starts with "++ ". */
  lemma RoundTripIff(ps: seq<Patch>)
    requires TextsOfSet(ps)
    ensures WritableSet(ps)
    ensures var r := Scan(START, WritePatches(ps));
            (r.Next? && r.state.patchset == ps) <==> PlainSet(ps)
  {
    TextsAreWritable(ps);
    var r := Scan(START, WritePatches(ps));
    if PlainSet(ps) {
      PatchesBack([], None, ps);
      AppendNothing(ps);
    }
    if r.Next? && r.state.patchset == ps {
      ScanCounts(START, WritePatches(ps));
      WrittenPatches(ps);
    }
  }
}
