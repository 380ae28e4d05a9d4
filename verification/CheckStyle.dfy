/** Unified diffs: parsing a patch set and writing it out again. Lines carry no line break. */
module CheckStyle {
  import opened Basics

  datatype Kind = SRC | DST | BOTH

  datatype PatchChunkLine = PatchChunkLine(kind: Kind, line: string)

  datatype PatchChunk = PatchChunk(srcPos: nat, dstPos: nat, lines: seq<PatchChunkLine>)

  datatype Patch = Patch(src: string, dst: string, chunks: seq<PatchChunk>)

  // ---- Decimal numbers ----

  predicate IsDigit(c: char) {
    '0' <= c <= '9'
  }

  function Decimal(n: nat): (s: string)
    ensures s != "" && forall i :: 0 <= i < |s| ==> IsDigit(s[i])
  {
    if n < 10 then [('0' as int + n) as char] else Decimal(n / 10) + [('0' as int + n % 10) as char]
  }

  function ParseInt(s: string): nat
    requires forall i :: 0 <= i < |s| ==> IsDigit(s[i])
  {
    if s == "" then 0 else
      assert IsDigit(s[|s| - 1]);
      10 * ParseInt(s[..|s| - 1]) + (s[|s| - 1] as int - '0' as int)
  }

  lemma {:induction false} ParseIntOfDecimal(n: nat)
    ensures ParseInt(Decimal(n)) == n
  {
    var s := Decimal(n);
    if n >= 10 {
      ParseIntOfDecimal(n / 10);
      assert s[..|s| - 1] == Decimal(n / 10);
    } else {
      assert s[..0] == "";
    }
  }

  function Pow10(n: nat): nat {
    if n == 0 then 1 else 10 * Pow10(n - 1)
  }

  lemma LastDigit(s: string, init: string)
    requires s != "" && s == init + [s[|s| - 1]] && forall i :: 0 <= i < |s| ==> IsDigit(s[i])
    ensures forall i :: 0 <= i < |init| ==> IsDigit(init[i])
    ensures ParseInt(s) == 10 * ParseInt(init) + (s[|s| - 1] as int - '0' as int)
  {
    assert s[..|s| - 1] == init;
    assert forall i :: 0 <= i < |init| ==> init[i] == s[i];
    assert IsDigit(s[|s| - 1]);
  }

  lemma Shift(x: nat, p: nat)
    ensures x * (10 * p) == 10 * (x * p)
  {
  }

  /** The most significant digits come first. */
  lemma {:induction false} ParseIntConcat(a: string, b: string)
    requires (forall i :: 0 <= i < |a| ==> IsDigit(a[i])) && (forall i :: 0 <= i < |b| ==> IsDigit(b[i]))
    ensures ParseInt(a + b) == ParseInt(a) * Pow10(|b|) + ParseInt(b)
    decreases |b|
  {
    if b == "" {
      assert a + b == a;
    } else {
      var m := |b| - 1;
      LastDigit(b, b[..m]);
      assert a + b == a + b[..m] + [b[m]];
      LastDigit(a + b, a + b[..m]);
      ParseIntConcat(a, b[..m]);
      Shift(ParseInt(a), Pow10(m));
      hide ParseInt;
    }
  }

  function DigitCount(s: string): (n: nat)
    ensures n <= |s| && (forall i :: 0 <= i < n ==> IsDigit(s[i])) && (n < |s| ==> !IsDigit(s[n]))
  {
    if s == "" || !IsDigit(s[0]) then 0 else 1 + DigitCount(s[1..])
  }

  lemma {:induction false} DigitCountIs(digits: string, rest: string)
    requires (forall i :: 0 <= i < |digits| ==> IsDigit(digits[i])) && (rest != "" ==> !IsDigit(rest[0]))
    ensures DigitCount(digits + rest) == |digits|
  {
    var s := digits + rest;
    if digits == "" {
      assert s == rest;
    } else {
      assert s[1..] == digits[1..] + rest;
      DigitCountIs(digits[1..], rest);
    }
  }

  // ---- One line ----

  /** A number followed by mark: the number and what comes after the mark. */
  function MatchNumber(s: string, mark: string): Option<(nat, string)> {
    var n := DigitCount(s);
    if n > 0 && mark <= s[n..] then Some((ParseInt(s[..n]), s[n + |mark|..])) else None
  }

  lemma MatchNumberOf(n: nat, mark: string, rest: string)
    requires mark != "" && !IsDigit(mark[0])
    ensures MatchNumber(Decimal(n) + mark + rest, mark) == Some((n, rest))
  {
    var s := Decimal(n) + mark + rest;
    assert s == Decimal(n) + (mark + rest);
    DigitCountIs(Decimal(n), mark + rest);
    ParseIntOfDecimal(n);
    assert s[..|Decimal(n)|] == Decimal(n) && s[|Decimal(n)|..] == mark + rest;
    assert s[|Decimal(n)| + |mark|..] == rest;
  }

  /** Source position and length, destination position and length. */
  function MatchHeader(line: string): Option<(nat, nat, nat, nat)> {
    if !("@@ -" <= line) then None else
      var a := MatchNumber(line[4..], ",");
      if a.None? then None else
      var b := MatchNumber(a.value.1, " +");
      if b.None? then None else
      var c := MatchNumber(b.value.1, ",");
      if c.None? then None else
      var d := MatchNumber(c.value.1, " @@");
      if d.None? then None else Some((a.value.0, b.value.0, c.value.0, d.value.0))
  }

  /** The positions of a chunk header; the lengths are only matched. */
  function MatchChunkStart(line: string): Option<(nat, nat)> {
    var m := MatchHeader(line);
    if m.None? then None else Some((m.value.0, m.value.2))
  }

  ghost predicate IsNumeral(digits: string) {
    digits != "" && forall i :: 0 <= i < |digits| ==> IsDigit(digits[i])
  }

  ghost predicate Reads(s: string, digits: string, mark: string, n: nat, rest: string) {
    IsNumeral(digits) && ParseInt(digits) == n && s == digits + (mark + rest)
  }

  lemma NumbersAre(s: string, mark: string, n: nat, rest: string)
    requires mark != "" && !IsDigit(mark[0])
    ensures MatchNumber(s, mark) == Some((n, rest)) <==> exists digits :: Reads(s, digits, mark, n, rest)
  {
    hide ParseInt;
    var k := DigitCount(s);
    if MatchNumber(s, mark) == Some((n, rest)) {
      assert s == s[..k] + (mark + rest);
      assert Reads(s, s[..k], mark, n, rest);
    }
    if digits :| Reads(s, digits, mark, n, rest) {
      DigitCountIs(digits, mark + rest);
      assert s[..|digits|] == digits && s[|digits|..] == mark + rest && s[|digits| + |mark|..] == rest;
    }
  }

  ghost predicate IsHeader(line: string, s1: string, s2: string, s3: string, s4: string, rest: string) {
    && IsNumeral(s1) && IsNumeral(s2) && IsNumeral(s3) && IsNumeral(s4)
    && line == "@@ -" + (s1 + ("," + (s2 + (" +" + (s3 + ("," + (s4 + (" @@" + rest))))))))
  }

  ghost predicate HeaderOf(line: string, s1: string, s2: string, s3: string, s4: string, rest: string,
                           a: nat, b: nat, c: nat, d: nat) {
    && IsHeader(line, s1, s2, s3, s4, rest)
    && ParseInt(s1) == a && ParseInt(s2) == b && ParseInt(s3) == c && ParseInt(s4) == d
  }

  /** The four numbers of a header are read exactly from lines of this form, whatever follows. */
  lemma HeadersAre(line: string, a: nat, b: nat, c: nat, d: nat)
    ensures MatchHeader(line) == Some((a, b, c, d)) <==>
            exists s1, s2, s3, s4, rest :: HeaderOf(line, s1, s2, s3, s4, rest, a, b, c, d)
  {
    hide ParseInt;
    hide MatchNumber;
    hide IsNumeral;
    if MatchHeader(line) == Some((a, b, c, d)) {
      var r1 := MatchNumber(line[4..], ",").value.1;
      var r2 := MatchNumber(r1, " +").value.1;
      var r3 := MatchNumber(r2, ",").value.1;
      var r4 := MatchNumber(r3, " @@").value.1;
      NumbersAre(line[4..], ",", a, r1);
      NumbersAre(r1, " +", b, r2);
      NumbersAre(r2, ",", c, r3);
      NumbersAre(r3, " @@", d, r4);
      var s1 :| Reads(line[4..], s1, ",", a, r1);
      var s2 :| Reads(r1, s2, " +", b, r2);
      var s3 :| Reads(r2, s3, ",", c, r3);
      var s4 :| Reads(r3, s4, " @@", d, r4);
      assert line == "@@ -" + line[4..];
      assert HeaderOf(line, s1, s2, s3, s4, r4, a, b, c, d);
    }
    if s1, s2, s3, s4, rest :| HeaderOf(line, s1, s2, s3, s4, rest, a, b, c, d) {
      var r3 := s4 + (" @@" + rest);
      var r2 := s3 + ("," + r3);
      var r1 := s2 + (" +" + r2);
      assert line[4..] == s1 + ("," + r1);
      assert Reads(line[4..], s1, ",", a, r1) && Reads(r1, s2, " +", b, r2);
      assert Reads(r2, s3, ",", c, r3) && Reads(r3, s4, " @@", d, rest);
      NumbersAre(line[4..], ",", a, r1);
      NumbersAre(r1, " +", b, r2);
      NumbersAre(r2, ",", c, r3);
      NumbersAre(r3, " @@", d, rest);
    }
  }

  datatype Meaning =
    | SrcFile(name: string) | DstFile(name: string) | ChunkStart(srcPos: nat, dstPos: nat)
    | Content(line: PatchChunkLine) | Unknown

  /** The patterns are tried in this order. */
  function Classify(line: string): Meaning {
    if "--- " <= line then SrcFile(line[4..])
    else if "+++ " <= line then DstFile(line[4..])
    else
      var start := MatchChunkStart(line);
      if start.Some? then ChunkStart(start.value.0, start.value.1)
      else if "-" <= line then Content(PatchChunkLine(SRC, line[1..]))
      else if "+" <= line then Content(PatchChunkLine(DST, line[1..]))
      else if " " <= line then Content(PatchChunkLine(BOTH, line[1..]))
      else Unknown
  }

  // ---- Parsing ----

  /** The patches so far and where the current chunk is; it stays current when a new patch begins. */
  datatype Progress = Progress(patches: seq<Patch>, chunk: Option<(nat, nat)>)

  predicate ValidProgress(p: Progress) {
    p.chunk.Some? ==> p.chunk.value.0 < |p.patches| && p.chunk.value.1 < |p.patches[p.chunk.value.0].chunks|
  }

  function AddLine(p: Progress, line: PatchChunkLine): Progress
    requires p.chunk.Some? && ValidProgress(p)
  {
    var (i, j) := p.chunk.value;
    var chunk := p.patches[i].chunks[j];
    var patch := p.patches[i].(chunks := p.patches[i].chunks[j := chunk.(lines := chunk.lines + [line])]);
    p.(patches := p.patches[i := patch])
  }

  /** None when the code fails: no patch or no chunk to add to, or a line that no pattern matches. */
  function Step(p: Progress, line: string): (r: Option<Progress>)
    requires ValidProgress(p)
    ensures r.Some? ==> ValidProgress(r.value)
  {
    var n := |p.patches|;
    match Classify(line)
    case SrcFile(name) => Some(p.(patches := p.patches + [Patch(name, "", [])]))
    case DstFile(name) =>
      if n == 0 then None else Some(p.(patches := p.patches[n - 1 := p.patches[n - 1].(dst := name)]))
    case ChunkStart(a, b) =>
      if n == 0 then None else
        var patch := p.patches[n - 1];
        Some(Progress(p.patches[n - 1 := patch.(chunks := patch.chunks + [PatchChunk(a, b, [])])],
                      Some((n - 1, |patch.chunks|))))
    case Content(l) => if p.chunk.None? then None else Some(AddLine(p, l))
    case Unknown => None
  }

  function Steps(p: Progress, lines: seq<string>): Option<Progress>
    requires ValidProgress(p)
    decreases |lines|
  {
    if lines == [] then Some(p) else
      var next := Step(p, lines[0]);
      if next.None? then None else Steps(next.value, lines[1..])
  }

  function Parsed(lines: seq<string>): Option<seq<Patch>> {
    var r := Steps(Progress([], None), lines);
    if r.None? then None else Some(r.value.patches)
  }

  method ParsePatchset(generator: seq<string>) returns (r: Option<seq<Patch>>)
    ensures r == Parsed(generator)
  {
    hide Step;
    var progress := Progress([], None);
    for k := 0 to |generator|
      invariant ValidProgress(progress)
      invariant Steps(Progress([], None), generator) == Steps(progress, generator[k..])
    {
      assert generator[k..][0] == generator[k] && generator[k..][1..] == generator[k + 1..];
      var next := Step(progress, generator[k]);
      if next.None? {
        return None;
      }
      progress := next.value;
    }
    return Some(progress.patches);
  }

  // ---- Writing ----

  predicate IsSrc(line: PatchChunkLine) { line.kind.SRC? || line.kind.BOTH? }
  predicate IsDst(line: PatchChunkLine) { line.kind.DST? || line.kind.BOTH? }

  function SrcLen(lines: seq<PatchChunkLine>): nat {
    if lines == [] then 0
    else SrcLen(lines[..|lines| - 1]) + if IsSrc(lines[|lines| - 1]) then 1 else 0
  }

  function DstLen(lines: seq<PatchChunkLine>): nat {
    if lines == [] then 0
    else DstLen(lines[..|lines| - 1]) + if IsDst(lines[|lines| - 1]) then 1 else 0
  }

  ghost function SrcLines(lines: seq<PatchChunkLine>): set<nat> {
    set i | 0 <= i < |lines| && lines[i].kind != DST
  }

  ghost function DstLines(lines: seq<PatchChunkLine>): set<nat> {
    set i | 0 <= i < |lines| && lines[i].kind != SRC
  }

  /** The length on one side is the number of lines that are not only on the other side. */
  lemma {:induction false} SrcLenCounts(lines: seq<PatchChunkLine>)
    ensures SrcLen(lines) == |set i | 0 <= i < |lines| && lines[i].kind != DST|
  {
    if lines != [] {
      var n := |lines| - 1;
      SrcLenCounts(lines[..n]);
      assert SrcLines(lines) == SrcLines(lines[..n]) + if lines[n].kind != DST then {n} else {};
    }
  }

  lemma {:induction false} DstLenCounts(lines: seq<PatchChunkLine>)
    ensures DstLen(lines) == |set i | 0 <= i < |lines| && lines[i].kind != SRC|
  {
    if lines != [] {
      var n := |lines| - 1;
      DstLenCounts(lines[..n]);
      assert DstLines(lines) == DstLines(lines[..n]) + if lines[n].kind != SRC then {n} else {};
    }
  }

  function WriteLine(line: PatchChunkLine): string {
    (match line.kind case SRC => "-" case DST => "+" case BOTH => " ") + line.line
  }

  function WriteLines(lines: seq<PatchChunkLine>): (r: seq<string>)
    ensures |r| == |lines|
  {
    if lines == [] then [] else WriteLines(lines[..|lines| - 1]) + [WriteLine(lines[|lines| - 1])]
  }

  function ChunkHeader(chunk: PatchChunk): string {
    "@@ -" + (Decimal(chunk.srcPos) + "," + (Decimal(SrcLen(chunk.lines)) + " +" +
      (Decimal(chunk.dstPos) + "," + (Decimal(DstLen(chunk.lines)) + " @@" + ""))))
  }

  function WriteChunk(chunk: PatchChunk): seq<string> {
    [ChunkHeader(chunk)] + WriteLines(chunk.lines)
  }

  function WriteChunks(chunks: seq<PatchChunk>): seq<string> {
    if chunks == [] then [] else WriteChunks(chunks[..|chunks| - 1]) + WriteChunk(chunks[|chunks| - 1])
  }

  function WritePatch(patch: Patch): seq<string> {
    ["--- " + patch.src, "+++ " + patch.dst] + WriteChunks(patch.chunks)
  }

  function WritePatches(patches: seq<Patch>): seq<string> {
    if patches == [] then [] else WritePatches(patches[..|patches| - 1]) + WritePatch(patches[|patches| - 1])
  }

  /** The file that a patch set is written to. */
  class OutputFile {
    var lines: seq<string>

    constructor ()
      ensures lines == []
    {
      lines := [];
    }

    method Write(patch: Patch)
      modifies this
      ensures lines == old(lines) + WritePatch(patch)
    {
      hide WriteChunk;
      hide MatchHeader;
      lines := lines + ["--- " + patch.src];
      lines := lines + ["+++ " + patch.dst];
      ghost var head := lines;
      for i := 0 to |patch.chunks|
        invariant lines == head + WriteChunks(patch.chunks[..i])
      {
        assert patch.chunks[..i + 1][..i] == patch.chunks[..i];
        WriteOneChunk(patch.chunks[i]);
      }
      assert patch.chunks[..|patch.chunks|] == patch.chunks;
    }

    method WriteOneChunk(chunk: PatchChunk)
      modifies this
      ensures lines == old(lines) + WriteChunk(chunk)
      ensures |lines| == |old(lines)| + 1 + |chunk.lines| && MatchHeader(lines[|old(lines)|]) ==
        Some((chunk.srcPos, |set i | 0 <= i < |chunk.lines| && chunk.lines[i].kind != DST|,
              chunk.dstPos, |set i | 0 <= i < |chunk.lines| && chunk.lines[i].kind != SRC|))
    {
      ClassifyHeader(chunk);
      hide MatchHeader;
      lines := lines + [ChunkHeader(chunk)];
      ghost var head := lines;
      for i := 0 to |chunk.lines|
        invariant lines == head + WriteLines(chunk.lines[..i])
      {
        assert chunk.lines[..i + 1][..i] == chunk.lines[..i];
        lines := lines + [WriteLine(chunk.lines[i])];
      }
      assert chunk.lines[..|chunk.lines|] == chunk.lines;
    }
  }

  // ---- Round trip ----

  /** A removed line that looks like the name of a source file, or an added line that looks like
      the name of a destination file, once it has its sign in front. */
  predicate Misread(line: PatchChunkLine) {
    (line.kind.SRC? && "-- " <= line.line) || (line.kind.DST? && "++ " <= line.line)
  }

  ghost predicate NoneMisread(patches: seq<Patch>) {
    forall i, j, k :: 0 <= i < |patches| && 0 <= j < |patches[i].chunks| && 0 <= k < |patches[i].chunks[j].lines| ==>
      !Misread(patches[i].chunks[j].lines[k])
  }

  lemma ClassifyWritten(line: PatchChunkLine)
    ensures Misread(line) ==> !Classify(WriteLine(line)).Content?
    ensures !Misread(line) ==> Classify(WriteLine(line)) == Content(line)
  {
    var s := WriteLine(line);
    assert s[1..] == line.line;
    assert MatchChunkStart(s).None? by {
      assert s[0] != '@';
    }
    if line.kind.SRC? {
      assert "--- " <= s <==> "-- " <= line.line by {
        assert "--- "[1..] == "-- ";
        assert |s| >= 4 ==> s[..4] == [s[0]] + line.line[..3];
      }
    }
    if line.kind.DST? {
      assert "+++ " <= s <==> "++ " <= line.line by {
        assert "+++ "[1..] == "++ ";
        assert |s| >= 4 ==> s[..4] == [s[0]] + line.line[..3];
      }
    }
  }

  lemma HeaderMatches(a: nat, b: nat, c: nat, d: nat)
    ensures MatchChunkStart("@@ -" + (Decimal(a) + "," + (Decimal(b) + " +" +
              (Decimal(c) + "," + (Decimal(d) + " @@" + "")))))
            == Some((a, c))
    ensures MatchHeader("@@ -" + (Decimal(a) + "," + (Decimal(b) + " +" +
              (Decimal(c) + "," + (Decimal(d) + " @@" + "")))))
            == Some((a, b, c, d))
  {
    hide MatchNumber;
    hide Decimal;
    var s4 := Decimal(d) + " @@" + "";
    var s3 := Decimal(c) + "," + s4;
    var s2 := Decimal(b) + " +" + s3;
    var s1 := Decimal(a) + "," + s2;
    MatchNumberOf(d, " @@", "");
    MatchNumberOf(c, ",", s4);
    MatchNumberOf(b, " +", s3);
    MatchNumberOf(a, ",", s2);
    assert ("@@ -" + s1)[4..] == s1;
  }

  lemma ClassifyHeader(chunk: PatchChunk)
    ensures Classify(ChunkHeader(chunk)) == ChunkStart(chunk.srcPos, chunk.dstPos)
    ensures MatchHeader(ChunkHeader(chunk)) ==
            Some((chunk.srcPos, |set i | 0 <= i < |chunk.lines| && chunk.lines[i].kind != DST|,
                  chunk.dstPos, |set i | 0 <= i < |chunk.lines| && chunk.lines[i].kind != SRC|))
  {
    HeaderMatches(chunk.srcPos, SrcLen(chunk.lines), chunk.dstPos, DstLen(chunk.lines));
    SrcLenCounts(chunk.lines);
    DstLenCounts(chunk.lines);
    hide MatchChunkStart;
    hide MatchHeader;
    hide Decimal;
    hide SrcLen;
    hide DstLen;
    assert ChunkHeader(chunk)[0] == '@';
  }

  lemma ClassifyNames(name: string)
    ensures Classify("--- " + name) == SrcFile(name) && Classify("+++ " + name) == DstFile(name)
  {
    hide MatchChunkStart;
    var a, b := "--- " + name, "+++ " + name;
    assert a[4..] == name && b[4..] == name && b[0] == '+';
  }

  lemma {:induction false} StepsAppend(p: Progress, a: seq<string>, b: seq<string>)
    requires ValidProgress(p)
    ensures Steps(p, a).Some? ==> ValidProgress(Steps(p, a).value)
    ensures Steps(p, a + b) == if Steps(p, a).None? then None else Steps(Steps(p, a).value, b)
    decreases |a|
  {
    hide Step;
    if a == [] {
      assert a + b == b;
    } else {
      assert (a + b)[0] == a[0] && (a + b)[1..] == a[1..] + b;
      var next := Step(p, a[0]);
      if next.Some? {
        StepsAppend(next.value, a[1..], b);
      }
    }
  }

  lemma OneStep(p: Progress, line: string)
    requires ValidProgress(p)
    ensures Steps(p, [line]) == Step(p, line)
  {
  }

  /** The progress while a chunk of the last patch is being read. */
  function InChunk(init: seq<Patch>, patch: Patch, chunk: PatchChunk): (p: Progress)
    ensures ValidProgress(p)
  {
    Progress(init + [patch.(chunks := patch.chunks + [chunk])], Some((|init|, |patch.chunks|)))
  }

  lemma ReadLine(init: seq<Patch>, patch: Patch, chunk: PatchChunk, line: PatchChunkLine)
    requires !Misread(line)
    ensures Step(InChunk(init, patch, chunk), WriteLine(line)) ==
            Some(InChunk(init, patch, chunk.(lines := chunk.lines + [line])))
  {
    hide Classify;
    hide WriteLine;
    ClassifyWritten(line);
    var more := chunk.(lines := chunk.lines + [line]);
    assert (patch.chunks + [chunk])[|patch.chunks| := more] == patch.chunks + [more];
    var last, last' := patch.(chunks := patch.chunks + [chunk]), patch.(chunks := patch.chunks + [more]);
    assert (init + [last])[|init| := last'] == init + [last'];
  }

  lemma {:induction false} ReadLines(init: seq<Patch>, patch: Patch, chunk: PatchChunk, lines: seq<PatchChunkLine>)
    requires chunk.lines == [] && forall k :: 0 <= k < |lines| ==> !Misread(lines[k])
    ensures Steps(InChunk(init, patch, chunk), WriteLines(lines)) == Some(InChunk(init, patch, chunk.(lines := lines)))
  {
    hide Step;
    hide Misread;
    hide InChunk;
    if lines != [] {
      var m := |lines| - 1;
      var start, middle := InChunk(init, patch, chunk), InChunk(init, patch, chunk.(lines := lines[..m]));
      ReadLines(init, patch, chunk, lines[..m]);
      ReadLine(init, patch, chunk.(lines := lines[..m]), lines[m]);
      assert lines[..m] + [lines[m]] == lines;
      StepsAppend(start, WriteLines(lines[..m]), [WriteLine(lines[m])]);
      OneStep(middle, WriteLine(lines[m]));
    } else {
      assert chunk.(lines := lines) == chunk;
    }
  }

  lemma ReadHeader(init: seq<Patch>, patch: Patch, at: Option<(nat, nat)>, chunk: PatchChunk)
    requires ValidProgress(Progress(init + [patch], at))
    ensures Step(Progress(init + [patch], at), ChunkHeader(chunk)) == Some(InChunk(init, patch, chunk.(lines := [])))
  {
    hide Classify;
    hide ChunkHeader;
    ClassifyHeader(chunk);
    var last := patch.(chunks := patch.chunks + [chunk.(lines := [])]);
    assert (init + [patch])[|init| := last] == init + [last];
  }

  ghost predicate ChunksNotMisread(chunks: seq<PatchChunk>) {
    forall j, k :: 0 <= j < |chunks| && 0 <= k < |chunks[j].lines| ==> !Misread(chunks[j].lines[k])
  }

  function AfterChunks(init: seq<Patch>, patch: Patch, at: Option<(nat, nat)>): Progress {
    Progress(init + [patch], if patch.chunks == [] then at else Some((|init|, |patch.chunks| - 1)))
  }

  lemma {:induction false} ReadChunks(init: seq<Patch>, patch: Patch, at: Option<(nat, nat)>, chunks: seq<PatchChunk>)
    requires patch.chunks == [] && ValidProgress(Progress(init + [patch], at)) && ChunksNotMisread(chunks)
    ensures Steps(Progress(init + [patch], at), WriteChunks(chunks)) ==
            Some(AfterChunks(init, patch.(chunks := chunks), at))
  {
    hide Step;
    hide Misread;
    hide WriteLines;
    hide ChunkHeader;
    var start := Progress(init + [patch], at);
    if chunks != [] {
      var m := |chunks| - 1;
      var early, chunk := chunks[..m], chunks[m];
      var some := patch.(chunks := early);
      ReadChunks(init, patch, at, early);
      var middle := AfterChunks(init, some, at);
      assert middle.patches == init + [some];
      StepsAppend(start, WriteChunks(early), WriteChunk(chunk));
      ReadHeader(init, some, middle.chunk, chunk);
      ReadLines(init, some, chunk.(lines := []), chunk.lines);
      StepsAppend(middle, [ChunkHeader(chunk)], WriteLines(chunk.lines));
      OneStep(middle, ChunkHeader(chunk));
      assert chunk.(lines := []).(lines := chunk.lines) == chunk;
      assert early + [chunk] == chunks;
    } else {
      assert patch.(chunks := chunks) == patch;
    }
  }

  lemma ReadNames(p: Progress, src: string, dst: string)
    requires ValidProgress(p)
    ensures Steps(p, ["--- " + src, "+++ " + dst]) == Some(p.(patches := p.patches + [Patch(src, dst, [])]))
  {
    hide Classify;
    var a, b := "--- " + src, "+++ " + dst;
    ClassifyNames(src);
    ClassifyNames(dst);
    var p1 := p.(patches := p.patches + [Patch(src, "", [])]);
    assert Step(p, a) == Some(p1);
    var n := |p1.patches|;
    assert p1.patches[n - 1 := Patch(src, dst, [])] == p.patches + [Patch(src, dst, [])];
    assert Step(p1, b) == Some(p.(patches := p.patches + [Patch(src, dst, [])]));
    assert [a, b][1..] == [b];
    OneStep(p1, b);
  }

  lemma {:induction false} ReadPatches(patches: seq<Patch>)
    requires NoneMisread(patches)
    ensures var r := Steps(Progress([], None), WritePatches(patches));
            r.Some? && ValidProgress(r.value) && r.value.patches == patches
  {
    hide Step;
    hide Misread;
    hide WriteChunks;
    var start := Progress([], None);
    if patches != [] {
      var m := |patches| - 1;
      var init, patch := patches[..m], patches[m];
      ReadPatches(init);
      StepsAppend(start, WritePatches(init), WritePatch(patch));
      var p := Steps(start, WritePatches(init)).value;
      var names := ["--- " + patch.src, "+++ " + patch.dst];
      StepsAppend(p, names, WriteChunks(patch.chunks));
      ReadNames(p, patch.src, patch.dst);
      ReadChunks(init, Patch(patch.src, patch.dst, []), p.chunk, patch.chunks);
      assert Patch(patch.src, patch.dst, []).(chunks := patch.chunks) == patch;
      assert init + [patch] == patches;
      StepsAppend(start, WritePatches(patches), []);
    }
  }

  // ---- When parsing fails ----

  lemma NoPatternMatches(line: string)
    ensures Classify(line).Unknown? <==>
            (line == "" || line[0] !in {'-', '+', ' '}) &&
            !exists s1, s2, s3, s4, rest :: IsHeader(line, s1, s2, s3, s4, rest)
  {
    if MatchHeader(line).Some? {
      var (a, b, c, d) := MatchHeader(line).value;
      HeadersAre(line, a, b, c, d);
      var s1, s2, s3, s4, rest :| HeaderOf(line, s1, s2, s3, s4, rest, a, b, c, d);
    }
    if s1, s2, s3, s4, rest :| IsHeader(line, s1, s2, s3, s4, rest) {
      var a, b, c, d := ParseInt(s1), ParseInt(s2), ParseInt(s3), ParseInt(s4);
      assert HeaderOf(line, s1, s2, s3, s4, rest, a, b, c, d);
      HeadersAre(line, a, b, c, d);
    }
  }

  ghost predicate AnySource(lines: seq<string>) {
    exists j :: 0 <= j < |lines| && Classify(lines[j]).SrcFile?
  }

  ghost predicate AnyChunk(lines: seq<string>) {
    exists j :: 0 <= j < |lines| && Classify(lines[j]).ChunkStart?
  }

  /** Line k matches no pattern, or needs a source file or a chunk before it and has none. */
  ghost predicate FailsAt(lines: seq<string>, k: nat)
    requires k < |lines|
  {
    match Classify(lines[k])
    case SrcFile(_) => false
    case DstFile(_) => !AnySource(lines[..k])
    case ChunkStart(_, _) => !AnySource(lines[..k])
    case Content(_) => !AnyChunk(lines[..k])
    case Unknown => true
  }

  lemma AnyLast(lines: seq<string>)
    requires lines != []
    ensures var n := |lines| - 1;
            && (AnySource(lines) <==> AnySource(lines[..n]) || Classify(lines[n]).SrcFile?)
            && (AnyChunk(lines) <==> AnyChunk(lines[..n]) || Classify(lines[n]).ChunkStart?)
  {
    hide Classify;
    var n := |lines| - 1;
    assert forall j :: 0 <= j < n ==> lines[..n][j] == lines[j];
  }

  /** What is known after some lines: whether there is a patch and whether there is a chunk. */
  lemma {:induction false} StepsState(lines: seq<string>)
    ensures Steps(Progress([], None), lines).None? <==> exists k: nat :: k < |lines| && FailsAt(lines, k)
    ensures var r := Steps(Progress([], None), lines);
            r.Some? ==> (r.value.patches != [] <==> AnySource(lines)) && (r.value.chunk.Some? <==> AnyChunk(lines))
  {
    hide Classify;
    hide AddLine;
    if lines != [] {
      var n := |lines| - 1;
      var init := lines[..n];
      StepsState(init);
      StepsAppend(Progress([], None), init, [lines[n]]);
      assert init + [lines[n]] == lines;
      AnyLast(lines);
      FailsAtPrefix(lines);
      var r := Steps(Progress([], None), init);
      if r.Some? {
        StepAt(r.value, lines[n]);
        OneStep(r.value, lines[n]);
      }
      hide Steps;
      hide AnySource;
      hide AnyChunk;
    }
  }

  lemma FailsAtPrefix(lines: seq<string>)
    requires lines != []
    ensures var n := |lines| - 1;
            (exists k: nat :: k < n + 1 && FailsAt(lines, k)) <==>
            (exists k: nat :: k < n && FailsAt(lines[..n], k)) || FailsAt(lines, n)
  {
    hide Classify;
    hide AnySource;
    hide AnyChunk;
    var n := |lines| - 1;
    forall k: nat | k < n ensures FailsAt(lines, k) <==> FailsAt(lines[..n], k) {
      assert lines[..n][..k] == lines[..k];
    }
  }

  lemma StepAt(p: Progress, line: string)
    requires ValidProgress(p)
    ensures Step(p, line).None? <==>
            match Classify(line)
            case SrcFile(_) => false
            case DstFile(_) => p.patches == []
            case ChunkStart(_, _) => p.patches == []
            case Content(_) => p.chunk.None?
            case Unknown => true
    ensures Step(p, line).Some? ==>
              (Step(p, line).value.patches != [] <==> p.patches != [] || Classify(line).SrcFile?) &&
              (Step(p, line).value.chunk.Some? <==> p.chunk.Some? || Classify(line).ChunkStart?)
  {
    hide Classify;
  }

  /** Parsing fails exactly when some line cannot be read where it stands. */
  lemma ParsingFails(lines: seq<string>)
    ensures Parsed(lines).None? <==> exists k: nat :: k < |lines| && FailsAt(lines, k)
  {
    hide Steps;
    hide FailsAt;
    StepsState(lines);
  }

  // ---- Counting the lines that are read as content ----

  function ChunksTotal(chunks: seq<PatchChunk>): nat {
    if chunks == [] then 0 else ChunksTotal(chunks[..|chunks| - 1]) + |chunks[|chunks| - 1].lines|
  }

  function Total(patches: seq<Patch>): nat {
    if patches == [] then 0 else Total(patches[..|patches| - 1]) + ChunksTotal(patches[|patches| - 1].chunks)
  }

  function Contents(lines: seq<string>): nat {
    if lines == [] then 0
    else Contents(lines[..|lines| - 1]) + if Classify(lines[|lines| - 1]).Content? then 1 else 0
  }

  lemma {:induction false} ContentsAppend(a: seq<string>, b: seq<string>)
    ensures Contents(a + b) == Contents(a) + Contents(b)
    decreases |b|
  {
    hide Classify;
    if b == [] {
      assert a + b == a;
    } else {
      ContentsAppend(a, b[..|b| - 1]);
      assert (a + b)[..|a + b| - 1] == a + b[..|b| - 1];
    }
  }

  lemma {:induction false} ChunksUpdate(chunks: seq<PatchChunk>, j: nat, chunk: PatchChunk)
    requires j < |chunks|
    ensures ChunksTotal(chunks[j := chunk]) + |chunks[j].lines| == ChunksTotal(chunks) + |chunk.lines|
  {
    var n := |chunks| - 1;
    if j < n {
      ChunksUpdate(chunks[..n], j, chunk);
      assert chunks[j := chunk][..n] == chunks[..n][j := chunk];
    } else {
      assert chunks[j := chunk][..n] == chunks[..n];
    }
  }

  lemma {:induction false} PatchesUpdate(patches: seq<Patch>, i: nat, patch: Patch)
    requires i < |patches|
    ensures Total(patches[i := patch]) + ChunksTotal(patches[i].chunks) == Total(patches) + ChunksTotal(patch.chunks)
  {
    var n := |patches| - 1;
    if i < n {
      PatchesUpdate(patches[..n], i, patch);
      assert patches[i := patch][..n] == patches[..n][i := patch];
    } else {
      assert patches[i := patch][..n] == patches[..n];
    }
  }

  lemma FileTotal(patches: seq<Patch>, name: string)
    ensures Total(patches + [Patch(name, "", [])]) == Total(patches)
  {
    assert (patches + [Patch(name, "", [])])[..|patches|] == patches;
  }

  lemma HeaderTotal(patches: seq<Patch>, patch: Patch, a: nat, b: nat)
    requires patches != [] && patch == patches[|patches| - 1]
    ensures Total(patches[|patches| - 1 := patch.(chunks := patch.chunks + [PatchChunk(a, b, [])])]) == Total(patches)
  {
    var chunks := patch.chunks + [PatchChunk(a, b, [])];
    assert chunks[..|chunks| - 1] == patch.chunks;
    PatchesUpdate(patches, |patches| - 1, patch.(chunks := chunks));
  }

  lemma LineTotal(p: Progress, line: PatchChunkLine)
    requires ValidProgress(p) && p.chunk.Some?
    ensures Total(AddLine(p, line).patches) == Total(p.patches) + 1
  {
    hide Total;
    var (i, j) := p.chunk.value;
    var patch := AddLine(p, line).patches[i];
    ChunksUpdate(p.patches[i].chunks, j, patch.chunks[j]);
    PatchesUpdate(p.patches, i, patch);
  }

  lemma StepTotal(p: Progress, line: string)
    requires ValidProgress(p) && Step(p, line).Some?
    ensures Total(Step(p, line).value.patches) == Total(p.patches) + if Classify(line).Content? then 1 else 0
  {
    hide Classify;
    hide Total;
    hide AddLine;
    var n := |p.patches|;
    match Classify(line)
    case SrcFile(name) => FileTotal(p.patches, name);
    case DstFile(name) => PatchesUpdate(p.patches, n - 1, p.patches[n - 1].(dst := name));
    case ChunkStart(a, b) => HeaderTotal(p.patches, p.patches[n - 1], a, b);
    case Content(l) => LineTotal(p, l);
    case Unknown =>
  }

  lemma {:induction false} StepsTotal(p: Progress, lines: seq<string>)
    requires ValidProgress(p) && Steps(p, lines).Some?
    ensures Total(Steps(p, lines).value.patches) == Total(p.patches) + Contents(lines)
    decreases |lines|
  {
    hide Step;
    hide Classify;
    if lines != [] {
      StepTotal(p, lines[0]);
      StepsTotal(Step(p, lines[0]).value, lines[1..]);
      assert lines == [lines[0]] + lines[1..];
      ContentsAppend([lines[0]], lines[1..]);
      assert Contents([lines[0]]) == if Classify(lines[0]).Content? then 1 else 0 by {
        assert [lines[0]][..0] == [];
      }
    }
  }

  lemma {:induction false} LinesContents(lines: seq<PatchChunkLine>)
    ensures Contents(WriteLines(lines)) <= |lines|
    ensures Contents(WriteLines(lines)) == |lines| <==> forall k :: 0 <= k < |lines| ==> !Misread(lines[k])
  {
    hide Classify;
    hide WriteLine;
    hide Misread;
    if lines != [] {
      var m := |lines| - 1;
      LinesContents(lines[..m]);
      ClassifyWritten(lines[m]);
      var w := WriteLines(lines);
      assert w[..m] == WriteLines(lines[..m]);
      assert forall k :: 0 <= k < m ==> lines[..m][k] == lines[k];
    }
  }

  lemma LastChunkMisread(chunks: seq<PatchChunk>)
    requires chunks != []
    ensures var m := |chunks| - 1;
            ChunksNotMisread(chunks) <==>
            ChunksNotMisread(chunks[..m]) && forall k :: 0 <= k < |chunks[m].lines| ==> !Misread(chunks[m].lines[k])
  {
  }

  lemma LastPatchMisread(patches: seq<Patch>)
    requires patches != []
    ensures var m := |patches| - 1;
            NoneMisread(patches) <==> NoneMisread(patches[..m]) && ChunksNotMisread(patches[m].chunks)
  {
  }

  lemma NamesContents(src: string, dst: string)
    ensures Contents(["--- " + src, "+++ " + dst]) == 0
  {
    var a, b := "--- " + src, "+++ " + dst;
    assert [a, b] == [a] + [b];
    assert [a][..0] == [] && [b][..0] == [];
    ContentsAppend([a], [b]);
    ClassifyNames(src);
    ClassifyNames(dst);
    hide Classify;
    assert Contents([a]) == 0 && Contents([b]) == 0;
  }

  lemma {:induction false} ChunksContents(chunks: seq<PatchChunk>)
    ensures Contents(WriteChunks(chunks)) <= ChunksTotal(chunks)
    ensures Contents(WriteChunks(chunks)) == ChunksTotal(chunks) <==> ChunksNotMisread(chunks)
  {
    hide Classify;
    hide WriteLines;
    hide Misread;
    hide ChunkHeader;
    assert chunks == [] ==> ChunksNotMisread(chunks);
    hide ChunksNotMisread;
    if chunks != [] {
      var m := |chunks| - 1;
      ChunksContents(chunks[..m]);
      LinesContents(chunks[m].lines);
      ClassifyHeader(chunks[m]);
      ContentsAppend(WriteChunks(chunks[..m]), WriteChunk(chunks[m]));
      ContentsAppend([ChunkHeader(chunks[m])], WriteLines(chunks[m].lines));
      assert [ChunkHeader(chunks[m])][..0] == [];
      LastChunkMisread(chunks);
    }
  }

  lemma {:induction false} PatchesContents(patches: seq<Patch>)
    ensures Contents(WritePatches(patches)) <= Total(patches)
    ensures Contents(WritePatches(patches)) == Total(patches) <==> NoneMisread(patches)
  {
    hide WriteChunks;
    hide Misread;
    hide Classify;
    assert patches == [] ==> NoneMisread(patches);
    hide NoneMisread;
    hide ChunksNotMisread;
    if patches != [] {
      var m := |patches| - 1;
      var names := ["--- " + patches[m].src, "+++ " + patches[m].dst];
      PatchesContents(patches[..m]);
      ChunksContents(patches[m].chunks);
      ContentsAppend(WritePatches(patches[..m]), WritePatch(patches[m]));
      ContentsAppend(names, WriteChunks(patches[m].chunks));
      NamesContents(patches[m].src, patches[m].dst);
      LastPatchMisread(patches);
    }
  }

  /** Parsing what was written gives the patch set back exactly when no line is misread as a file name. */
  lemma RoundTrip(patches: seq<Patch>)
    ensures Parsed(WritePatches(patches)) == Some(patches) <==> NoneMisread(patches)
  {
    hide Steps;
    hide NoneMisread;
    var lines := WritePatches(patches);
    if NoneMisread(patches) {
      ReadPatches(patches);
    }
    if Parsed(lines) == Some(patches) {
      StepsTotal(Progress([], None), lines);
      PatchesContents(patches);
    }
  }

  lemma WrittenOneLine(src: string, dst: string, chunk: PatchChunk, line: PatchChunkLine)
    requires chunk.lines == [line]
    ensures WritePatches([Patch(src, dst, [chunk])]) ==
            ["--- " + src, "+++ " + dst] + ([ChunkHeader(chunk)] + [WriteLine(line)])
  {
    assert WriteLines([line]) == [WriteLine(line)];
    WrittenOneChunk(src, dst, chunk);
  }

  lemma WrittenOneChunk(src: string, dst: string, chunk: PatchChunk)
    ensures WritePatches([Patch(src, dst, [chunk])]) ==
            ["--- " + src, "+++ " + dst] + ([ChunkHeader(chunk)] + WriteLines(chunk.lines))
  {
    hide ChunkHeader;
    hide WriteLines;
    assert WriteChunks([chunk]) == WriteChunk(chunk);
    assert WritePatches([Patch(src, dst, [chunk])]) == WritePatch(Patch(src, dst, [chunk]));
  }

  lemma BeginPatch(p: Progress, line: PatchChunkLine, x: string)
    requires ValidProgress(p) && line == PatchChunkLine(SRC, "-- " + x)
    ensures Step(p, WriteLine(line)) == Some(p.(patches := p.patches + [Patch(x, "", [])]))
  {
    hide Classify;
    assert WriteLine(line) == "--- " + x by {
      assert "-" + ("-- " + x) == ("-" + "-- ") + x;
    }
    ClassifyNames(x);
  }

  lemma RemovedDashesProgress(src: string, dst: string, srcPos: nat, dstPos: nat, x: string)
    ensures var chunk := PatchChunk(srcPos, dstPos, [PatchChunkLine(SRC, "-- " + x)]);
            Steps(Progress([], None), WritePatches([Patch(src, dst, [chunk])])) ==
            Some(Progress([Patch(src, dst, [chunk.(lines := [])]), Patch(x, "", [])], Some((0, 0))))
  {
    var line := PatchChunkLine(SRC, "-- " + x);
    var chunk := PatchChunk(srcPos, dstPos, [line]);
    var empty := chunk.(lines := []);
    var start, named := Progress([], None), Progress([Patch(src, dst, [])], None);
    var begun := Progress([Patch(src, dst, [empty])], Some((0, 0)));
    var names, rest := ["--- " + src, "+++ " + dst], [ChunkHeader(chunk)] + [WriteLine(line)];
    assert [] + [empty] == [empty] && [] + named.patches == named.patches && [] + begun.patches == begun.patches;
    assert begun == InChunk([], Patch(src, dst, []), empty);
    hide Steps;
    hide Step;
    hide WritePatches;
    hide WriteLine;
    hide ChunkHeader;
    WrittenOneLine(src, dst, chunk, line);
    assert Steps(named, rest) == Some(begun.(patches := begun.patches + [Patch(x, "", [])])) by {
      ReadHeader([], Patch(src, dst, []), None, chunk);
      OneStep(named, ChunkHeader(chunk));
      BeginPatch(begun, line, x);
      OneStep(begun, WriteLine(line));
      StepsAppend(named, [ChunkHeader(chunk)], [WriteLine(line)]);
    }
    ReadNames(start, src, dst);
    assert start.patches + named.patches == named.patches;
    StepsAppend(start, names, rest);
    assert begun.patches + [Patch(x, "", [])] == [begun.patches[0], Patch(x, "", [])];
  }

  /** A patch that removes the one line "-- x" is read as two patches, the second for a file x. */
  lemma RemovedDashesAreMisread(src: string, dst: string, srcPos: nat, dstPos: nat, x: string)
    ensures var chunk := PatchChunk(srcPos, dstPos, [PatchChunkLine(SRC, "-- " + x)]);
            Parsed(WritePatches([Patch(src, dst, [chunk])])) ==
            Some([Patch(src, dst, [chunk.(lines := [])]), Patch(x, "", [])])
  {
    RemovedDashesProgress(src, dst, srcPos, dstPos, x);
    hide Steps;
    hide WritePatches;
  }

  /** The current chunk stays current when a new patch begins, so the next line goes to the old patch. */
  lemma OldChunkStaysCurrent(src: string, dst: string, srcPos: nat, dstPos: nat, x: string, line: PatchChunkLine)
    requires !Misread(line)
    ensures var chunk := PatchChunk(srcPos, dstPos, [PatchChunkLine(SRC, "-- " + x)]);
            Parsed(WritePatches([Patch(src, dst, [chunk])]) + [WriteLine(line)]) ==
            Some([Patch(src, dst, [chunk.(lines := [line])]), Patch(x, "", [])])
  {
    var chunk := PatchChunk(srcPos, dstPos, [PatchChunkLine(SRC, "-- " + x)]);
    var empty := chunk.(lines := []);
    var lines := WritePatches([Patch(src, dst, [chunk])]);
    var p := Progress([Patch(src, dst, [empty]), Patch(x, "", [])], Some((0, 0)));
    RemovedDashesProgress(src, dst, srcPos, dstPos, x);
    StepsAppend(Progress([], None), lines, [WriteLine(line)]);
    ClassifyWritten(line);
    hide Steps;
    hide WritePatches;
    hide WriteLine;
    hide Classify;
    OneStep(p, WriteLine(line));
    assert [] + [line] == [line] && [empty][0 := chunk.(lines := [line])] == [chunk.(lines := [line])];
    assert p.patches[0 := Patch(src, dst, [chunk.(lines := [line])])]
        == [Patch(src, dst, [chunk.(lines := [line])]), Patch(x, "", [])];
  }

  lemma OneMoreLine(lines: seq<PatchChunkLine>, line: PatchChunkLine)
    ensures WriteLines(lines + [line]) == WriteLines(lines) + [WriteLine(line)]
  {
    hide WriteLine;
    assert (lines + [line])[..|lines|] == lines;
  }

  lemma ThreeLines(x: PatchChunkLine, y: PatchChunkLine, z: PatchChunkLine)
    ensures WriteLines([x, y, z]) == [WriteLine(x), WriteLine(y), WriteLine(z)]
  {
    OneMoreLine([], x);
    OneMoreLine([x], y);
    OneMoreLine([x, y], z);
    assert [] + [x] == [x] && [x] + [y] == [x, y] && [x, y] + [z] == [x, y, z];
    hide WriteLine;
    assert WriteLines([]) == [];
  }

  lemma SmallHeader(x: PatchChunkLine, y: PatchChunkLine, z: PatchChunkLine)
    requires x.kind == BOTH && y.kind == SRC && z.kind == DST
    ensures ChunkHeader(PatchChunk(1, 2, [x, y, z])) == "@@ -1,2 +2,2 @@"
  {
    assert [x, y, z][..2] == [x, y] && [x, y][..1] == [x] && [x][..0] == [];
    assert SrcLen([x]) == 1 && SrcLen([x, y]) == 2 && SrcLen([x, y, z]) == 2;
    assert DstLen([x]) == 1 && DstLen([x, y]) == 1 && DstLen([x, y, z]) == 2;
    assert Decimal(1) == "1" && Decimal(2) == "2";
  }

  /** A small patch and its text. */
  lemma SmallPatch()
    ensures WritePatches([Patch("a", "b", [PatchChunk(1, 2, [
              PatchChunkLine(BOTH, "x"), PatchChunkLine(SRC, "y"), PatchChunkLine(DST, "z")])])]) ==
            ["--- a", "+++ b", "@@ -1,2 +2,2 @@", " x", "-y", "+z"]
  {
    var x, y, z := PatchChunkLine(BOTH, "x"), PatchChunkLine(SRC, "y"), PatchChunkLine(DST, "z");
    var chunk := PatchChunk(1, 2, [x, y, z]);
    assert WriteLine(x) == " x" && WriteLine(y) == "-y" && WriteLine(z) == "+z";
    assert "--- " + "a" == "--- a" && "+++ " + "b" == "+++ b";
    hide *;
    ThreeLines(x, y, z);
    SmallHeader(x, y, z);
    WrittenOneChunk("a", "b", chunk);
  }
}
