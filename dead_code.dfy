/**
 * The dead-code detector: runs of commented-out code longer than five lines,
 * the files the unused-export tool lists, and source files no other file
 * seems to import. File contents, the export tool's runs and grep's runs
 * are given data. The report is modelled up to its first section, which
 * is enough to show that main's exit code, read back from the whole report,
 * can be 0 although issues were found; the later sections are given.
 */
module DeadCode {
  import opened Wrappers
  import opened Strings

  // ---------------------------------------------------------------------------
  // Commented-out code blocks

  /** A stripped line that opens a line or block comment which is not a doc comment. */
  predicate IsComment(stripped: string) {
    || (StartsWith(stripped, "//") && !StartsWith(stripped, "///"))
    || (StartsWith(stripped, "/*") && !StartsWith(stripped, "/**"))
  }

  /** The fragments whose presence makes a line look like code. */
  const CodeKeywords: seq<string> := [
    "const ", "let ", "var ", "function ", "import ", "export ",
    "if (", "for (", "while (", "return ", "= ", "=> ", ".push(",
    ".map(", ".filter(", "console.", "logger."
  ]

  predicate LooksLikeCode(stripped: string) {
    exists k :: 0 <= k < |CodeKeywords| && Contains(stripped, CodeKeywords[k])
  }

  /** A line that extends a block: once stripped, a non-doc comment that looks like code. */
  predicate Qualifies(line: string) {
    IsComment(Strip(line)) && LooksLikeCode(Strip(line))
  }

  /**
   * The scan below is stated for any line test `q`; the detector uses
   * Qualifies. Line `n` (counting from 1) exists and passes the test; line 0
   * and the line after the last do not exist.
   */
  predicate QualifiesAt(q: string -> bool, lines: seq<string>, n: int) {
    1 <= n <= |lines| && q(lines[n - 1])
  }

  /** One reported block: its file, its first and last line (from 1), its length and a preview. */
  datatype Block = Block(file: string, startLine: nat, endLine: nat, lineCount: nat, preview: string)

  /** The first three right-stripped lines of a run, one per line, then "...". */
  function Preview(run: seq<string>): string {
    Join(if |run| <= 3 then run else run[..3], "\n") + "\n..."
  }

  /** The scanner's variables: where the current run started, its lines so far, and the blocks found. */
  datatype ScanState = ScanState(start: Option<nat>, run: seq<string>, blocks: seq<Block>)

  /** Closing the current run at `endLine`: it is reported only when longer than five lines. */
  function Close(file: string, st: ScanState, endLine: nat): seq<Block> {
    if st.start.Some? && |st.run| > 5 then
      st.blocks + [Block(file, st.start.value, endLine, |st.run|, Preview(st.run))]
    else st.blocks
  }

  /** Line `i` (from 1) read: a qualifying line extends the run, any other closes it at line i - 1. */
  function ScanLine(q: string -> bool, file: string, st: ScanState, i: nat, line: string): ScanState
    requires i >= 1
  {
    if q(line) then
      ScanState(if st.start.None? then Some(i) else st.start, st.run + [RStrip(line)], st.blocks)
    else
      ScanState(None, [], Close(file, st, i - 1))
  }

  /** The scanner's state after reading `lines`. */
  function ScanLines(q: string -> bool, file: string, lines: seq<string>): ScanState {
    if lines == [] then ScanState(None, [], [])
    else ScanLine(q, file, ScanLines(q, file, lines[..|lines| - 1]), |lines|, lines[|lines| - 1])
  }

  /** The blocks of one file: those closed inside it, then a run that reaches its end. */
  function ScanBlocks(q: string -> bool, file: string, lines: seq<string>): seq<Block> {
    Close(file, ScanLines(q, file, lines), |lines|)
  }

  /** The blocks the detector reports for one file. */
  function FileBlocks(file: string, lines: seq<string>): seq<Block> {
    ScanBlocks(Qualifies, file, lines)
  }

  /** Each line right-stripped, as the run keeps them. */
  function RStrips(lines: seq<string>): seq<string> {
    if lines == [] then []
    else RStrips(lines[..|lines| - 1]) + [RStrip(lines[|lines| - 1])]
  }

  lemma {:induction false} RStripsIndex(lines: seq<string>)
    ensures |RStrips(lines)| == |lines|
    ensures forall j :: 0 <= j < |lines| ==> RStrips(lines)[j] == RStrip(lines[j])
    decreases |lines|
  {
    if lines != [] {
      var init := lines[..|lines| - 1];
      RStripsIndex(init);
      assert RStrips(lines) == RStrips(init) + [RStrip(lines[|lines| - 1])];
      forall j | 0 <= j < |lines| ensures RStrips(lines)[j] == RStrip(lines[j]) {
        if j < |init| {
          assert init[j] == lines[j];
        }
      }
    }
  }

  /** A block is a maximal run of more than five qualifying lines, previewed by its right-stripped lines. */
  predicate BlockOf(q: string -> bool, file: string, lines: seq<string>, b: Block) {
    && b.file == file
    && 1 <= b.startLine && b.endLine <= |lines|
    && b.lineCount == b.endLine - b.startLine + 1
    && b.lineCount > 5
    && (forall n :: b.startLine <= n <= b.endLine ==> QualifiesAt(q, lines, n))
    && !QualifiesAt(q, lines, b.startLine - 1)
    && !QualifiesAt(q, lines, b.endLine + 1)
    && b.preview == Preview(RStrips(lines[b.startLine - 1..b.endLine]))
  }

  /** Blocks in file order, separated by at least one line that does not qualify. */
  predicate InOrder(blocks: seq<Block>) {
    forall a, b :: 0 <= a < b < |blocks| ==> blocks[a].endLine + 1 < blocks[b].startLine
  }

  /** What the current run says about the lines read so far: it is the longest qualifying suffix. */
  predicate RunInvariant(q: string -> bool, lines: seq<string>, st: ScanState) {
    && (st.start.None? ==> st.run == [] && !QualifiesAt(q, lines, |lines|))
    && (st.start.Some? ==>
          var s := st.start.value;
          && 1 <= s <= |lines|
          && st.run == RStrips(lines[s - 1..])
          && (forall n :: s <= n <= |lines| ==> QualifiesAt(q, lines, n))
          && !QualifiesAt(q, lines, s - 1))
  }

  /** What the blocks found say: each is a block of the lines read, in order, before the current run. */
  predicate BlocksInvariant(q: string -> bool, file: string, lines: seq<string>, st: ScanState) {
    && (st.start.Some? ==> forall k :: 0 <= k < |st.blocks| ==> st.blocks[k].endLine + 1 < st.start.value)
    && (forall k :: 0 <= k < |st.blocks| ==> BlockOf(q, file, lines, st.blocks[k]) && st.blocks[k].endLine < |lines|)
    && InOrder(st.blocks)
  }

  /** What the scanner's state says about the lines read so far. */
  predicate ScanInvariant(q: string -> bool, file: string, lines: seq<string>, st: ScanState) {
    RunInvariant(q, lines, st) && BlocksInvariant(q, file, lines, st)
  }

  /** Lines already read keep their verdict when another line follows. */
  lemma QualifiesAtExtend(q: string -> bool, lines: seq<string>, line: string, n: int)
    requires n <= |lines|
    ensures QualifiesAt(q, lines + [line], n) == QualifiesAt(q, lines, n)
  {
    if 1 <= n {
      assert (lines + [line])[n - 1] == lines[n - 1];
    }
  }

  /** A block that ends at or before the last line read keeps its lines, its preview and its start. */
  lemma BlockExtendsInside(q: string -> bool, file: string, lines: seq<string>, line: string, b: Block)
    requires BlockOf(q, file, lines, b)
    ensures var longer := lines + [line];
            && (forall n :: b.startLine - 1 <= n <= b.endLine ==> QualifiesAt(q, longer, n) == QualifiesAt(q, lines, n))
            && longer[b.startLine - 1..b.endLine] == lines[b.startLine - 1..b.endLine]
  {
    var longer := lines + [line];
    forall n | b.startLine - 1 <= n <= b.endLine
      ensures QualifiesAt(q, longer, n) == QualifiesAt(q, lines, n)
    {
      QualifiesAtExtend(q, lines, line, n);
    }
  }

  /** A block closed before the last line read stays a block of the longer text. */
  lemma BlockExtends(q: string -> bool, file: string, lines: seq<string>, line: string, b: Block)
    requires BlockOf(q, file, lines, b) && b.endLine < |lines|
    ensures BlockOf(q, file, lines + [line], b)
  {
    BlockExtendsInside(q, file, lines, line, b);
    QualifiesAtExtend(q, lines, line, b.endLine + 1);
  }

  /** A block closed at the last line read stays a block when a non-qualifying line follows. */
  lemma ClosedBlockExtends(q: string -> bool, file: string, lines: seq<string>, line: string, b: Block)
    requires BlockOf(q, file, lines, b) && b.endLine == |lines|
    requires !q(line)
    ensures BlockOf(q, file, lines + [line], b)
  {
    BlockExtendsInside(q, file, lines, line, b);
    assert !QualifiesAt(q, lines + [line], b.endLine + 1);
  }

  /** `sep.join` of three parts. */
  lemma JoinThree(a: string, b: string, c: string, sep: string)
    ensures Join([a, b, c], sep) == a + sep + b + sep + c
  {
    assert [a, b, c] == [a] + [b, c];
    JoinCons(a, [b, c], sep);
    assert [b, c] == [b] + [c];
    JoinCons(b, [c], sep);
  }

  /** The preview of a run longer than five lines names its first three lines. */
  lemma PreviewOfRun(run: seq<string>)
    requires |run| > 5
    ensures Preview(run) == run[0] + "\n" + run[1] + "\n" + run[2] + "\n..."
  {
    assert run[..3] == [run[0], run[1], run[2]];
    JoinThree(run[0], run[1], run[2], "\n");
  }

  /** A block's preview: its first three lines, right-stripped, then "...". */
  lemma BlockPreview(q: string -> bool, file: string, lines: seq<string>, b: Block)
    requires BlockOf(q, file, lines, b)
    ensures b.preview == RStrip(lines[b.startLine - 1]) + "\n" + RStrip(lines[b.startLine]) + "\n"
                         + RStrip(lines[b.startLine + 1]) + "\n..."
  {
    var slice := lines[b.startLine - 1..b.endLine];
    RStripsIndex(slice);
    PreviewOfRun(RStrips(slice));
    assert slice[0] == lines[b.startLine - 1] && slice[1] == lines[b.startLine] && slice[2] == lines[b.startLine + 1];
  }

  /** A run of more than five lines that nothing follows is a block. */
  lemma RunIsBlock(q: string -> bool, file: string, lines: seq<string>, st: ScanState)
    requires ScanInvariant(q, file, lines, st)
    requires !QualifiesAt(q, lines, |lines| + 1)
    requires st.start.Some? && |st.run| > 5
    ensures BlockOf(q, file, lines, Block(file, st.start.value, |lines|, |st.run|, Preview(st.run)))
  {
    var s := st.start.value;
    RStripsIndex(lines[s - 1..]);
    assert lines[s - 1..|lines|] == lines[s - 1..];
  }

  /** Closing a run that satisfies the invariant yields blocks that satisfy it too. */
  lemma CloseKeepsBlocks(q: string -> bool, file: string, lines: seq<string>, st: ScanState)
    requires ScanInvariant(q, file, lines, st)
    requires !QualifiesAt(q, lines, |lines| + 1)
    ensures forall k :: 0 <= k < |Close(file, st, |lines|)| ==>
              BlockOf(q, file, lines, Close(file, st, |lines|)[k]) && Close(file, st, |lines|)[k].endLine <= |lines|
    ensures InOrder(Close(file, st, |lines|))
  {
    if st.start.Some? && |st.run| > 5 {
      var b := Block(file, st.start.value, |lines|, |st.run|, Preview(st.run));
      RunIsBlock(q, file, lines, st);
      var closed := st.blocks + [b];
      assert Close(file, st, |lines|) == closed;
      forall k | 0 <= k < |closed|
        ensures BlockOf(q, file, lines, closed[k]) && closed[k].endLine <= |lines|
      {
        if k < |st.blocks| {
          assert closed[k] == st.blocks[k];
        }
      }
    }
  }

  /** Right-stripping one more line extends the stripped run by that line. */
  lemma RStripsSnoc(lines: seq<string>, line: string)
    ensures RStrips(lines + [line]) == RStrips(lines) + [RStrip(line)]
  {
    assert (lines + [line])[..|lines|] == lines;
  }

  /** Blocks closed before the last line read stay blocks when any line follows. */
  lemma BlocksExtend(q: string -> bool, file: string, lines: seq<string>, line: string, blocks: seq<Block>)
    requires forall k :: 0 <= k < |blocks| ==> BlockOf(q, file, lines, blocks[k]) && blocks[k].endLine < |lines|
    ensures forall k :: 0 <= k < |blocks| ==> BlockOf(q, file, lines + [line], blocks[k]) && blocks[k].endLine < |lines| + 1
  {
    forall k | 0 <= k < |blocks|
      ensures BlockOf(q, file, lines + [line], blocks[k])
    {
      BlockExtends(q, file, lines, line, blocks[k]);
    }
  }

  /** A qualifying line extends the current run, or starts one right after a line that does not qualify. */
  lemma RunExtends(q: string -> bool, lines: seq<string>, line: string, s: nat)
    requires 1 <= s <= |lines| + 1 && q(line)
    requires forall n :: s <= n <= |lines| ==> QualifiesAt(q, lines, n)
    requires !QualifiesAt(q, lines, s - 1)
    ensures forall n :: s <= n <= |lines| + 1 ==> QualifiesAt(q, lines + [line], n)
    ensures !QualifiesAt(q, lines + [line], s - 1)
    ensures RStrips((lines + [line])[s - 1..]) == RStrips(lines[s - 1..]) + [RStrip(line)]
  {
    var longer := lines + [line];
    forall m | s - 1 <= m <= |lines|
      ensures QualifiesAt(q, longer, m) == QualifiesAt(q, lines, m)
    {
      QualifiesAtExtend(q, lines, line, m);
    }
    assert QualifiesAt(q, longer, |longer|);
    assert longer[s - 1..] == lines[s - 1..] + [line];
    RStripsSnoc(lines[s - 1..], line);
  }

  /** Reading a qualifying line keeps the invariant: the run grows by that line. */
  lemma ExtendKeeps(q: string -> bool, file: string, lines: seq<string>, line: string, st: ScanState)
    requires ScanInvariant(q, file, lines, st)
    requires q(line)
    ensures ScanInvariant(q, file, lines + [line], ScanLine(q, file, st, |lines| + 1, line))
  {
    ExtendKeepsRun(q, file, lines, line, st);
    ExtendKeepsBlocks(q, file, lines, line, st);
  }

  /** A qualifying line extends the run, or starts one at its own position. */
  lemma ExtendKeepsRun(q: string -> bool, file: string, lines: seq<string>, line: string, st: ScanState)
    requires RunInvariant(q, lines, st)
    requires q(line)
    ensures RunInvariant(q, lines + [line], ScanLine(q, file, st, |lines| + 1, line))
  {
    var st' := ScanLine(q, file, st, |lines| + 1, line);
    var s := if st.start.None? then |lines| + 1 else st.start.value;
    assert st' == ScanState(Some(s), st.run + [RStrip(line)], st.blocks);
    if st.start.None? {
      assert lines[s - 1..] == [];
    }
    RunExtends(q, lines, line, s);
  }

  /** A qualifying line leaves the blocks found as they were, and still before the run. */
  lemma ExtendKeepsBlocks(q: string -> bool, file: string, lines: seq<string>, line: string, st: ScanState)
    requires ScanInvariant(q, file, lines, st)
    requires q(line)
    ensures BlocksInvariant(q, file, lines + [line], ScanLine(q, file, st, |lines| + 1, line))
  {
    var st' := ScanLine(q, file, st, |lines| + 1, line);
    var s := if st.start.None? then |lines| + 1 else st.start.value;
    assert st' == ScanState(Some(s), st.run + [RStrip(line)], st.blocks);
    BlocksExtend(q, file, lines, line, st.blocks);
  }

  /** Reading a line that does not qualify keeps the invariant: the run is closed. */
  lemma CloseKeeps(q: string -> bool, file: string, lines: seq<string>, line: string, st: ScanState)
    requires ScanInvariant(q, file, lines, st)
    requires !q(line)
    ensures ScanInvariant(q, file, lines + [line], ScanLine(q, file, st, |lines| + 1, line))
  {
    var longer := lines + [line];
    CloseKeepsBlocks(q, file, lines, st);
    var closed := Close(file, st, |lines|);
    assert ScanLine(q, file, st, |lines| + 1, line) == ScanState(None, [], closed);
    forall k | 0 <= k < |closed|
      ensures BlockOf(q, file, longer, closed[k]) && closed[k].endLine < |longer|
    {
      if closed[k].endLine == |lines| {
        ClosedBlockExtends(q, file, lines, line, closed[k]);
      } else {
        BlockExtends(q, file, lines, line, closed[k]);
      }
    }
    assert !QualifiesAt(q, longer, |longer|);
  }

  /** Reading one more line keeps the invariant. */
  lemma ScanLineKeeps(q: string -> bool, file: string, lines: seq<string>, line: string, st: ScanState)
    requires ScanInvariant(q, file, lines, st)
    ensures ScanInvariant(q, file, lines + [line], ScanLine(q, file, st, |lines| + 1, line))
  {
    if q(line) {
      ExtendKeeps(q, file, lines, line, st);
    } else {
      CloseKeeps(q, file, lines, line, st);
    }
  }

  lemma {:induction false} ScanLinesInvariant(q: string -> bool, file: string, lines: seq<string>)
    ensures ScanInvariant(q, file, lines, ScanLines(q, file, lines))
    decreases |lines|
  {
    if lines != [] {
      var init := lines[..|lines| - 1];
      ScanLinesInvariant(q, file, init);
      var last := lines[|lines| - 1];
      assert ScanLines(q, file, lines) == ScanLine(q, file, ScanLines(q, file, init), |lines|, last);
      ScanLineKeeps(q, file, init, last, ScanLines(q, file, init));
      assert init + [last] == lines;
    }
  }

  /** Every reported block is a maximal run of more than five qualifying lines, and they come in file order. */
  lemma FileBlocksSound(file: string, lines: seq<string>)
    ensures forall k :: 0 <= k < |FileBlocks(file, lines)| ==> BlockOf(Qualifies, file, lines, FileBlocks(file, lines)[k])
    ensures InOrder(FileBlocks(file, lines))
  {
    ScanLinesInvariant(Qualifies, file, lines);
    CloseKeepsBlocks(Qualifies, file, lines, ScanLines(Qualifies, file, lines));
  }

  /** Reading more lines only appends blocks. */
  lemma {:induction false} BlocksGrow(q: string -> bool, file: string, lines: seq<string>, m: nat)
    requires m <= |lines|
    ensures ScanLines(q, file, lines[..m]).blocks <= ScanLines(q, file, lines).blocks
    decreases |lines|
  {
    if m < |lines| {
      var init := lines[..|lines| - 1];
      BlocksGrow(q, file, init, m);
      assert init[..m] == lines[..m];
      assert ScanLines(q, file, lines) == ScanLine(q, file, ScanLines(q, file, init), |lines|, lines[|lines| - 1]);
    } else {
      assert lines[..m] == lines;
    }
  }

  /** Up to line `e`, the first `e` lines and the whole text agree on which lines qualify. */
  lemma QualifiesAtPrefix(q: string -> bool, lines: seq<string>, e: nat, n: int)
    requires e <= |lines| && n <= e
    ensures QualifiesAt(q, lines[..e], n) == QualifiesAt(q, lines, n)
  {
  }

  /** After the last line of a qualifying run that starts right after a non-qualifying line, the scanner holds exactly that run. */
  lemma RunStart(q: string -> bool, file: string, lines: seq<string>, s: nat, e: nat)
    requires 1 <= s <= e <= |lines|
    requires forall n :: s <= n <= e ==> QualifiesAt(q, lines, n)
    requires !QualifiesAt(q, lines, s - 1)
    ensures ScanLines(q, file, lines[..e]).start == Some(s)
    ensures |ScanLines(q, file, lines[..e]).run| == e - s + 1
  {
    var prefix := lines[..e];
    var st := ScanLines(q, file, prefix);
    ScanLinesRun(q, file, prefix);
    forall n | s - 1 <= n <= e ensures QualifiesAt(q, prefix, n) == QualifiesAt(q, lines, n) {
      QualifiesAtPrefix(q, lines, e, n);
    }
    assert QualifiesAt(q, prefix, e);
    SameStart(q, prefix, s, st.start.value);
    RStripsIndex(prefix[s - 1..]);
  }

  /** The scanner's run is the longest qualifying suffix of the lines read. */
  lemma ScanLinesRun(q: string -> bool, file: string, lines: seq<string>)
    ensures RunInvariant(q, lines, ScanLines(q, file, lines))
  {
    ScanLinesInvariant(q, file, lines);
  }

  /** Two qualifying runs that reach the last line and follow a line that does not qualify start at the same line. */
  lemma SameStart(q: string -> bool, lines: seq<string>, s: nat, t: nat)
    requires 1 <= s <= |lines| && 1 <= t <= |lines|
    requires forall n :: s <= n <= |lines| ==> QualifiesAt(q, lines, n)
    requires forall n :: t <= n <= |lines| ==> QualifiesAt(q, lines, n)
    requires !QualifiesAt(q, lines, s - 1) && !QualifiesAt(q, lines, t - 1)
    ensures s == t
  {
  }

  /** A maximal run that reaches the last line is closed when the file ends. */
  lemma RunAtEndReported(q: string -> bool, file: string, lines: seq<string>, s: nat) returns (k: nat)
    requires 1 <= s <= |lines| && |lines| - s + 1 > 5
    requires forall n :: s <= n <= |lines| ==> QualifiesAt(q, lines, n)
    requires !QualifiesAt(q, lines, s - 1)
    ensures k < |ScanBlocks(q, file, lines)|
    ensures ScanBlocks(q, file, lines)[k].startLine == s && ScanBlocks(q, file, lines)[k].endLine == |lines|
  {
    RunStart(q, file, lines, s, |lines|);
    assert lines[..|lines|] == lines;
    var st := ScanLines(q, file, lines);
    assert ScanBlocks(q, file, lines) == st.blocks + [Block(file, s, |lines|, |st.run|, Preview(st.run))];
    k := |st.blocks|;
  }

  /** A maximal run followed by a line that does not qualify is closed when that line is read. */
  lemma RunBeforeLineReported(q: string -> bool, file: string, lines: seq<string>, s: nat, e: nat) returns (k: nat)
    requires 1 <= s <= e < |lines| && e - s + 1 > 5
    requires forall n :: s <= n <= e ==> QualifiesAt(q, lines, n)
    requires !QualifiesAt(q, lines, s - 1) && !QualifiesAt(q, lines, e + 1)
    ensures k < |ScanBlocks(q, file, lines)|
    ensures ScanBlocks(q, file, lines)[k].startLine == s && ScanBlocks(q, file, lines)[k].endLine == e
  {
    var st := ScanLines(q, file, lines[..e]);
    var b := Block(file, s, e, |st.run|, Preview(st.run));
    RunClosed(q, file, lines, s, e);
    BlocksGrow(q, file, lines, e + 1);
    var all := ScanLines(q, file, lines).blocks;
    k := |st.blocks|;
    assert all[k] == b;
    assert all <= ScanBlocks(q, file, lines);
  }

  /** Reading the line after a maximal run of more than five lines adds that run's block. */
  lemma RunClosed(q: string -> bool, file: string, lines: seq<string>, s: nat, e: nat)
    requires 1 <= s <= e < |lines| && e - s + 1 > 5
    requires forall n :: s <= n <= e ==> QualifiesAt(q, lines, n)
    requires !QualifiesAt(q, lines, s - 1) && !QualifiesAt(q, lines, e + 1)
    ensures var st := ScanLines(q, file, lines[..e]);
            ScanLines(q, file, lines[..e + 1]).blocks == st.blocks + [Block(file, s, e, |st.run|, Preview(st.run))]
  {
    RunStart(q, file, lines, s, e);
    ScanLinesStep(q, file, lines, e + 1);
    assert !q(lines[e]);
  }

  /** Every maximal run of more than five qualifying lines is reported, with its bounds. */
  lemma FileBlocksComplete(file: string, lines: seq<string>, s: nat, e: nat)
    requires 1 <= s <= e <= |lines| && e - s + 1 > 5
    requires forall n :: s <= n <= e ==> QualifiesAt(Qualifies, lines, n)
    requires !QualifiesAt(Qualifies, lines, s - 1) && !QualifiesAt(Qualifies, lines, e + 1)
    ensures exists k :: 0 <= k < |FileBlocks(file, lines)| &&
              FileBlocks(file, lines)[k].startLine == s && FileBlocks(file, lines)[k].endLine == e
  {
    var k;
    if e == |lines| {
      k := RunAtEndReported(Qualifies, file, lines, s);
    } else {
      k := RunBeforeLineReported(Qualifies, file, lines, s, e);
    }
    assert FileBlocks(file, lines)[k].startLine == s;
  }

  // ---------------------------------------------------------------------------
  // Scanning the source trees

  /** A file met by the walks of the two source trees: `path` as the program prints it (absolute), `relPath` from the repository root. */
  datatype TsFile = TsFile(path: string, relPath: string)

  /** Its lines as `readlines` gives them, or None when it cannot be read. */
  datatype SourceText = SourceText(file: TsFile, lines: Option<seq<string>>)

  /** Paths under node_modules and test files are never scanned for comments. */
  predicate SkippedForComments(f: TsFile) {
    Contains(f.path, "node_modules") || Contains(f.path, ".test.")
  }

  /** The blocks of every scanned file, file by file; a file that cannot be read contributes none. */
  function AllBlocks(sources: seq<SourceText>): seq<Block> {
    if sources == [] then []
    else
      var last := sources[|sources| - 1];
      AllBlocks(sources[..|sources| - 1])
        + (if SkippedForComments(last.file) || last.lines.None? then [] else FileBlocks(last.file.relPath, last.lines.value))
  }

  /** The scanner's state after line `i` is the one after line `i - 1` with line `i` read. */
  lemma ScanLinesStep(q: string -> bool, file: string, lines: seq<string>, i: nat)
    requires 1 <= i <= |lines|
    ensures ScanLines(q, file, lines[..i]) == ScanLine(q, file, ScanLines(q, file, lines[..i - 1]), i, lines[i - 1])
  {
    assert lines[..i][..i - 1] == lines[..i - 1];
  }

  /** The blocks found by scanning one file's lines, in the detector's own loop. */
  method ScanFile(file: string, lines: seq<string>) returns (found: seq<Block>)
    ensures found == FileBlocks(file, lines)
  {
    found := [];
    var commentStart: Option<nat> := None;
    var consecutiveComments: seq<string> := [];
    for i := 1 to |lines| + 1
      invariant ScanLines(Qualifies, file, lines[..i - 1]) == ScanState(commentStart, consecutiveComments, found)
    {
      var line := lines[i - 1];
      var stripped := Strip(line);
      var isComment := IsComment(stripped);
      var looksLikeCode := LooksLikeCode(stripped);
      ScanLinesStep(Qualifies, file, lines, i);
      assert isComment && looksLikeCode <==> Qualifies(line);
      if isComment && looksLikeCode {
        if commentStart.None? {
          commentStart := Some(i);
        }
        consecutiveComments := consecutiveComments + [RStrip(line)];
      } else {
        if commentStart.Some? && |consecutiveComments| > 5 {
          found := found + [Block(file, commentStart.value, i - 1, |consecutiveComments|, Preview(consecutiveComments))];
        }
        commentStart := None;
        consecutiveComments := [];
      }
    }
    assert lines[..|lines|] == lines;
    if commentStart.Some? && |consecutiveComments| > 5 {
      found := found + [Block(file, commentStart.value, |lines|, |consecutiveComments|, Preview(consecutiveComments))];
    }
  }

  /** detect_commented_code_blocks: every file's lines scanned in order, runs of more than five reported. */
  method DetectCommentedCodeBlocks(sources: seq<SourceText>) returns (commentedBlocks: seq<Block>)
    ensures commentedBlocks == AllBlocks(sources)
  {
    commentedBlocks := [];
    for f := 0 to |sources|
      invariant commentedBlocks == AllBlocks(sources[..f])
    {
      var source := sources[f];
      assert sources[..f + 1][..f] == sources[..f];
      if Contains(source.file.path, "node_modules") || Contains(source.file.path, ".test.") {
        continue;
      }
      if source.lines.None? {
        continue;
      }
      var found := ScanFile(source.file.relPath, source.lines.value);
      commentedBlocks := commentedBlocks + found;
    }
    assert sources[..|sources|] == sources;
  }

  // ---------------------------------------------------------------------------
  // Unused exports

  /** One run of `npx ts-unused-exports`: it raised (timeout or any other error), or it finished. */
  datatype ToolRun = Raised | Finished(returncode: int, stdout: string)

  /** The lines of the tool's output: stdout stripped, then split at each newline. */
  function ToolLines(stdout: string): (r: seq<string>)
    ensures forall j :: 0 <= j < |r| ==> '\n' !in r[j]
  {
    var lines := Split(Strip(stdout), "\n");
    SplitPiecesAvoidSep(Strip(stdout), "\n");
    forall j | 0 <= j < |lines| ensures '\n' !in lines[j] {
      ContainsLetter(lines[j], '\n');
    }
    lines
  }

  /**
   * One output line read as `path: name, name, ..`: blank lines and lines
   * starting "Need to install" are skipped; otherwise `(.+?):\s*(.+)` needs
   * a colon after the first character with at least one character after it,
   * and the first such colon splits the line. The key and the remainder are
   * stripped and the remainder is split at ", ". A line holds no newline: it
   * comes from splitting the output at newlines, and `.` does not match one.
   */
  function ExportEntry(line: string): Option<(string, seq<string>)>
    requires '\n' !in line
  {
    if Skipped(line) then None else Groups(line)
  }

  /** Blank lines and the "Need to install" notice carry no entry. */
  predicate Skipped(line: string) {
    Strip(line) == [] || StartsWith(line, "Need to install")
  }

  /** The two groups of `(.+?):\s*(.+)`, if the line matches; the first group needs a character. */
  function Groups(line: string): Option<(string, seq<string>)> {
    if line == [] then None else SplitAtColon(line, IndexFrom(line, ":", 1))
  }

  /** The two groups of the match, given the first colon after the first character, if any. */
  function SplitAtColon(line: string, colon: Option<nat>): Option<(string, seq<string>)>
    requires colon.Some? ==> colon.value <= |line|
  {
    if colon.Some? && colon.value + 1 < |line| then
      Some((Strip(line[..colon.value]), Split(Strip(line[colon.value + 1..]), ", ")))
    else None
  }

  /** Names without whitespace joined by ", " hold no newline. */
  lemma JoinedNamesNoNewline(names: seq<string>)
    requires forall k, i :: 0 <= k < |names| && 0 <= i < |names[k]| ==> !IsSpace(names[k][i])
    ensures '\n' !in Join(names, ", ")
  {
    forall c | c in Join(names, ", ") ensures c != '\n' {
      JoinChars(names, ", ", c);
      if c !in ", " {
        var k :| 0 <= k < |names| && c in names[k];
        var i :| 0 <= i < |names[k]| && names[k][i] == c;
        assert !IsSpace(names[k][i]);
      }
    }
  }

  /** Gluing newline-free texts with ": " gives a newline-free line. */
  lemma NoNewlineGlued(path: string, joined: string)
    requires '\n' !in path && '\n' !in joined
    ensures '\n' !in path + ": " + joined
  {
    var line := path + ": " + joined;
    forall i | 0 <= i < |line| ensures line[i] != '\n' {
      if i < |path| {
        assert line[i] == path[i];
      } else if i >= |path| + 2 {
        assert line[i] == joined[i - |path| - 2];
      }
    }
  }

  /** In `path: ..` with a colon-free path, the first colon after the first character ends the path. */
  lemma FirstColonAfterPath(path: string, rest: string)
    requires path != [] && ':' !in path
    ensures IndexFrom(path + ": " + rest, ":", 1) == Some(|path|)
  {
    var line := path + ": " + rest;
    assert OccursAt(line, ":", |path|);
    forall j | 1 <= j < |path| ensures !OccursAt(line, ":", j) {
      assert line[j] == path[j] != ':';
      assert line[j..j + 1][0] == line[j];
    }
  }

  /**
   * The line format the tool prints, `path: name, name, ..`, reads back as
   * the path and its names, for a path with no colon and no whitespace at
   * either end, and names without commas or whitespace. Only a path that
   * makes the line start "Need to install" is lost.
   */
  lemma ExportEntryRoundTrip(path: string, names: seq<string>)
    requires path != [] && ':' !in path && '\n' !in path
    requires !IsSpace(path[0]) && !IsSpace(path[|path| - 1])
    requires names != [] && forall k :: 0 <= k < |names| ==> names[k] != [] && ',' !in names[k]
    requires forall k, i :: 0 <= k < |names| && 0 <= i < |names[k]| ==> !IsSpace(names[k][i])
    ensures '\n' !in path + ": " + Join(names, ", ")
    ensures ExportEntry(path + ": " + Join(names, ", ")) ==
              if StartsWith(path + ": " + Join(names, ", "), "Need to install") then None else Some((path, names))
  {
    var line := path + ": " + Join(names, ", ");
    EntryLineShape(path, names);
    EntryLineParts(path, names);
    assert !Skipped(line) <==> !StartsWith(line, "Need to install");
    assert Groups(line) == SplitAtColon(line, Some(|path|));
  }

  /** Names without whitespace joined by ", " neither start nor end with whitespace. */
  lemma JoinedNamesTrimmed(names: seq<string>)
    requires names != [] && forall k :: 0 <= k < |names| ==> names[k] != []
    requires forall k, i :: 0 <= k < |names| && 0 <= i < |names[k]| ==> !IsSpace(names[k][i])
    ensures var joined := Join(names, ", ");
            joined != [] && !IsSpace(joined[0]) && !IsSpace(joined[|joined| - 1])
  {
    var first, last := names[0], names[|names| - 1];
    assert first != [] && last != [];
    assert !IsSpace(first[0]) && !IsSpace(last[|last| - 1]);
    JoinFirst(names, ", ");
    JoinLast(names, ", ");
  }

  /** The glued line holds no newline, is already stripped, and its first colon after the start ends the path. */
  lemma EntryLineShape(path: string, names: seq<string>)
    requires path != [] && ':' !in path && '\n' !in path
    requires !IsSpace(path[0])
    requires names != [] && forall k :: 0 <= k < |names| ==> names[k] != []
    requires forall k, i :: 0 <= k < |names| && 0 <= i < |names[k]| ==> !IsSpace(names[k][i])
    ensures var line := path + ": " + Join(names, ", ");
            '\n' !in line && Strip(line) == line && line != [] && |path| + 1 < |line|
    ensures IndexFrom(path + ": " + Join(names, ", "), ":", 1) == Some(|path|)
  {
    var joined := Join(names, ", ");
    JoinedNamesNoNewline(names);
    NoNewlineGlued(path, joined);
    JoinedNamesTrimmed(names);
    GluedStripped(path, joined);
    FirstColonAfterPath(path, joined);
  }

  /** Gluing a path and a text that both start and end with non-whitespace leaves nothing to strip. */
  lemma GluedStripped(path: string, joined: string)
    requires path != [] && !IsSpace(path[0])
    requires joined != [] && !IsSpace(joined[|joined| - 1])
    ensures Strip(path + ": " + joined) == path + ": " + joined
  {
    var line := path + ": " + joined;
    assert line[0] == path[0];
    assert line[|line| - 1] == joined[|joined| - 1];
    StripUnchanged(line);
  }

  /** Around the path's colon, the glued line reads back as the path and the names. */
  lemma EntryLineParts(path: string, names: seq<string>)
    requires path != [] && !IsSpace(path[0]) && !IsSpace(path[|path| - 1])
    requires names != [] && forall k :: 0 <= k < |names| ==> names[k] != [] && ',' !in names[k]
    requires forall k, i :: 0 <= k < |names| && 0 <= i < |names[k]| ==> !IsSpace(names[k][i])
    ensures var line := path + ": " + Join(names, ", ");
            |path| + 1 <= |line| && Strip(line[..|path|]) == path && Split(Strip(line[|path| + 1..]), ", ") == names
  {
    var joined := Join(names, ", ");
    var line := path + ": " + joined;
    JoinedNamesTrimmed(names);
    assert line[..|path|] == path;
    StripUnchanged(path);
    assert line[|path| + 1..] == " " + joined;
    StripAfterSpace(joined);
    assert ", "[0] == ',';
    SplitJoin(names, ", ");
  }

  /** A parsed line: the file path and its unused export names. */
  type Entry = (string, seq<string>)

  /** The entry each output line yields, if any. */
  function Entries(lines: seq<string>): (r: seq<Option<Entry>>)
    requires forall j :: 0 <= j < |lines| ==> '\n' !in lines[j]
    ensures |r| == |lines|
    ensures forall j :: 0 <= j < |lines| ==> r[j] == ExportEntry(lines[j])
  {
    seq(|lines|, j requires 0 <= j < |lines| => ExportEntry(lines[j]))
  }

  /** The dictionary after storing the entries in order, each replacing what its key held. */
  function Store(entries: seq<Option<Entry>>, exports: map<string, seq<string>>): map<string, seq<string>> {
    if entries == [] then exports
    else Put(Store(entries[..|entries| - 1], exports), entries[|entries| - 1])
  }

  /** `exports[path] = names` for an entry; nothing for a line that yields none. */
  function Put(exports: map<string, seq<string>>, e: Option<Entry>): map<string, seq<string>> {
    match e
    case None => exports
    case Some(entry) => exports[entry.0 := entry.1]
  }

  /** Storing one more entry puts it over what the earlier ones stored. */
  lemma StoreStep(entries: seq<Option<Entry>>, exports: map<string, seq<string>>, i: nat)
    requires i < |entries|
    ensures Store(entries[..i + 1], exports) == Put(Store(entries[..i], exports), entries[i])
  {
    assert entries[..i + 1][..i] == entries[..i];
  }

  /** Entry `j` is for `key`. */
  predicate EntryAt(entries: seq<Option<Entry>>, j: int, key: string) {
    0 <= j < |entries| && entries[j].Some? && entries[j].value.0 == key
  }

  /** A key no entry names keeps what it held before. */
  lemma {:induction false} StoreUntouched(entries: seq<Option<Entry>>, exports: map<string, seq<string>>, key: string)
    requires forall j :: 0 <= j < |entries| ==> !EntryAt(entries, j, key)
    ensures key in Store(entries, exports) <==> key in exports
    ensures key in exports ==> Store(entries, exports)[key] == exports[key]
    decreases |entries|
  {
    if entries != [] {
      var init := entries[..|entries| - 1];
      forall j | 0 <= j < |init| ensures !EntryAt(init, j, key) {
        assert !EntryAt(entries, j, key);
      }
      assert !EntryAt(entries, |entries| - 1, key);
      StoreUntouched(init, exports, key);
    }
  }

  /** A key some entry names holds the value of the last entry that names it. */
  lemma {:induction false} StoreLast(entries: seq<Option<Entry>>, exports: map<string, seq<string>>, key: string, j: nat)
    requires EntryAt(entries, j, key)
    requires forall j' :: j < j' < |entries| ==> !EntryAt(entries, j', key)
    ensures key in Store(entries, exports) && Store(entries, exports)[key] == entries[j].value.1
    decreases |entries|
  {
    var init := entries[..|entries| - 1];
    if j < |init| {
      forall j' | j < j' < |init| ensures !EntryAt(init, j', key) {
        assert !EntryAt(entries, j', key);
      }
      assert EntryAt(init, j, key);
      assert !EntryAt(entries, |entries| - 1, key);
      StoreLast(init, exports, key, j);
    }
  }

  /** Every key of the result was there before or is named by some entry. */
  lemma {:induction false} StoreKeys(entries: seq<Option<Entry>>, exports: map<string, seq<string>>)
    ensures forall key :: key in Store(entries, exports) ==> key in exports || exists j :: EntryAt(entries, j, key)
    decreases |entries|
  {
    if entries != [] {
      var init := entries[..|entries| - 1];
      StoreKeys(init, exports);
      forall key | key in Store(entries, exports) && key !in exports
        ensures exists j :: EntryAt(entries, j, key)
      {
        if key in Store(init, exports) {
          var j :| EntryAt(init, j, key);
          assert EntryAt(entries, j, key);
        } else {
          assert EntryAt(entries, |entries| - 1, key);
        }
      }
    }
  }

  /** What one run adds: its output is read only when the tool exited non-zero and printed something. */
  function ToolExports(run: Option<ToolRun>, exports: map<string, seq<string>>): map<string, seq<string>> {
    if run.Some? && run.value.Finished? && run.value.returncode != 0 && run.value.stdout != [] then
      Store(Entries(ToolLines(run.value.stdout)), exports)
    else exports
  }

  /** The body of the parsing loop: one line, matched and stored. */
  method ReadLine(line: string, exports: map<string, seq<string>>) returns (unusedExports: map<string, seq<string>>)
    requires '\n' !in line
    ensures unusedExports == Put(exports, ExportEntry(line))
  {
    unusedExports := exports;
    if !Skipped(line) {
      var groups := Groups(line);
      if groups.Some? {
        var (filePath, exportNames) := groups.value;
        unusedExports := unusedExports[filePath := exportNames];
      }
    }
  }

  /** The parsing loop of detect_unused_exports over the lines of one output. */
  method ReadLines(lines: seq<string>, exports: map<string, seq<string>>) returns (unusedExports: map<string, seq<string>>)
    requires forall j :: 0 <= j < |lines| ==> '\n' !in lines[j]
    ensures unusedExports == Store(Entries(lines), exports)
  {
    unusedExports := exports;
    ghost var entries := Entries(lines);
    for i := 0 to |lines|
      invariant unusedExports == Store(entries[..i], exports)
    {
      StoreStep(entries, exports, i);
      unusedExports := ReadLine(lines[i], unusedExports);
    }
    assert entries[..|entries|] == entries;
  }

  /**
   * One half of detect_unused_exports: `run` is None when the tsconfig.json
   * does not exist, so the tool is not started.
   */
  method ReadToolRun(run: Option<ToolRun>, exports: map<string, seq<string>>) returns (unusedExports: map<string, seq<string>>)
    ensures unusedExports == ToolExports(run, exports)
  {
    unusedExports := exports;
    if run.None? || run.value.Raised? {
      return;
    }
    var result := run.value;
    if result.returncode != 0 && result.stdout != [] {
      unusedExports := ReadLines(ToolLines(result.stdout), exports);
    }
  }

  /** detect_unused_exports: the frontend's report, then the backend's over it. */
  method DetectUnusedExports(frontend: Option<ToolRun>, backend: Option<ToolRun>) returns (unusedExports: map<string, seq<string>>)
    ensures unusedExports == ToolExports(backend, ToolExports(frontend, map[]))
  {
    unusedExports := map[];
    unusedExports := ReadToolRun(frontend, unusedExports);
    unusedExports := ReadToolRun(backend, unusedExports);
  }

  /** A path the backend tool names holds the backend's list, whatever the frontend said. */
  lemma BackendOverwrites(frontend: Option<ToolRun>, backend: ToolRun, key: string, j: nat)
    requires backend.Finished? && backend.returncode != 0 && backend.stdout != []
    requires EntryAt(Entries(ToolLines(backend.stdout)), j, key)
    requires forall j' :: j < j' < |ToolLines(backend.stdout)| ==> !EntryAt(Entries(ToolLines(backend.stdout)), j', key)
    ensures key in ToolExports(Some(backend), ToolExports(frontend, map[]))
    ensures ToolExports(Some(backend), ToolExports(frontend, map[]))[key] == ExportEntry(ToolLines(backend.stdout)[j]).value.1
  {
    var lines := ToolLines(backend.stdout);
    var before := ToolExports(frontend, map[]);
    assert ToolExports(Some(backend), before) == Store(Entries(lines), before);
    StoreLast(Entries(lines), before, key, j);
    assert Entries(lines)[j] == ExportEntry(lines[j]);
  }

  /** Nothing is reported when neither tool finished with a failing exit code and some output. */
  lemma NoFailingRunNoExports(frontend: Option<ToolRun>, backend: Option<ToolRun>)
    requires frontend.Some? && frontend.value.Finished? ==> frontend.value.returncode == 0 || frontend.value.stdout == []
    requires backend.Some? && backend.value.Finished? ==> backend.value.returncode == 0 || backend.value.stdout == []
    ensures ToolExports(backend, ToolExports(frontend, map[])) == map[]
  {
  }

  // ---------------------------------------------------------------------------
  // Potentially unused files

  /** Entry points, tests and configuration files are never reported, by a substring of their name. */
  const ExcludePatterns: seq<string> := [
    "main.tsx", "index.ts", "App.tsx", ".test.ts", ".test.tsx",
    "vite.config.ts", "vitest.config.ts", "ecosystem.config"
  ]

  predicate Excluded(name: string) {
    exists k :: 0 <= k < |ExcludePatterns| && Contains(name, ExcludePatterns[k])
  }

  /** Position of the last `c` in `s` (`s.rfind(c)`). */
  function LastIndexOf(s: string, c: char): (r: Option<nat>)
    ensures r.Some? ==> r.value < |s| && s[r.value] == c && forall j :: r.value < j < |s| ==> s[j] != c
    ensures r.None? ==> c !in s
  {
    if s == [] then None
    else if s[|s| - 1] == c then Some(|s| - 1)
    else LastIndexOf(s[..|s| - 1], c)
  }

  /** `Path.name`: what follows the last '/'. */
  function BaseName(path: string): (r: string)
    ensures '/' !in r
    ensures EndsWith(path, r)
    ensures r == path || path[|path| - |r| - 1] == '/'
  {
    match LastIndexOf(path, '/')
    case None => path
    case Some(i) =>
      assert path[i + 1..] == path[|path| - |path[i + 1..]|..];
      path[i + 1..]
  }

  /** `Path.stem`: the name without its last suffix; a leading or trailing dot is no suffix. */
  function Stem(name: string): string {
    match LastIndexOf(name, '.')
    case Some(i) => if 0 < i < |name| - 1 then name[..i] else name
    case None => name
  }

  /** The last extension of a name is dropped; the stem may itself contain dots. */
  lemma StemDropsExtension(base: string, ext: string)
    requires base != [] && ext != [] && '.' !in ext
    ensures Stem(base + "." + ext) == base
  {
    var name := base + "." + ext;
    assert name[|base|] == '.';
    assert forall j :: |base| < j < |name| ==> name[j] == ext[j - |base| - 1];
    assert LastIndexOf(name, '.') == Some(|base|);
    assert name[..|base|] == base;
  }

  /** A name without a suffix is its own stem. */
  lemma StemWithoutDot(name: string)
    requires '.' !in name
    ensures Stem(name) == name
  {
  }

  /** The two grep patterns of a stem: a `from '..stem` and an `import '..stem`, with either quote. */
  function ImportPatterns(stem: string): seq<string> {
    ["from ['\"].*" + stem, "import ['\"].*" + stem]
  }

  /** One run of `grep -r -l pattern apps/`: it raised, or it finished. */
  datatype GrepRun = GrepRaised | GrepFinished(returncode: int, stdout: string)

  /** The listed lines that are not empty and do not contain `path`. */
  function Others(lines: seq<string>, path: string): seq<string> {
    if lines == [] then []
    else
      var rest := Others(lines[..|lines| - 1], path);
      var last := lines[|lines| - 1];
      if last != [] && !Contains(last, path) then rest + [last] else rest
  }

  /** Nothing is left exactly when every listed line is empty or names the file itself. */
  lemma {:induction false} OthersEmptyIff(lines: seq<string>, path: string)
    ensures Others(lines, path) == [] <==> forall j :: 0 <= j < |lines| ==> lines[j] == [] || Contains(lines[j], path)
    decreases |lines|
  {
    if lines != [] {
      var init := lines[..|lines| - 1];
      OthersEmptyIff(init, path);
      assert forall j :: 0 <= j < |init| ==> init[j] == lines[j];
    }
  }

  /** The run succeeded and lists some file other than `path`, judged by substring. */
  predicate ListsOther(run: GrepRun, path: string) {
    && run.GrepFinished? && run.returncode == 0 && Strip(run.stdout) != []
    && Others(Split(Strip(run.stdout), "\n"), path) != []
  }

  /**
   * grep prints paths relative to the repository root while `path` is
   * absolute, so the filter never removes a file's own listing: a file that
   * only matches its own import pattern counts as imported.
   */
  lemma OwnListingCounts(path: string, listed: string)
    requires listed != [] && '\n' !in listed && |listed| < |path|
    requires !IsSpace(listed[0]) && !IsSpace(listed[|listed| - 1])
    ensures ListsOther(GrepFinished(0, listed + "\n"), path)
  {
    var out := listed + "\n";
    assert out[1..] == listed[1..] + "\n";
    assert LStrip(out) == out;
    assert out[..|out| - 1] == listed;
    assert RStrip(out) == RStrip(listed) == listed;
    NoSepChar(listed, "\n");
    assert IndexOf(listed, "\n").None?;
    assert Split(listed, "\n") == [listed];
    assert !OccursAt(listed, path, 0);
    assert !Contains(listed, path);
    assert Others([listed], path) == [listed];
  }

  /** Some pattern of the file's stem is matched in a file grep lists other than itself. */
  predicate ImportFound(path: string, grep: string -> GrepRun) {
    AnyListsOther(ImportPatterns(Stem(BaseName(path))), path, grep)
  }

  /** Some pattern's run lists a file other than `path`. */
  predicate AnyListsOther(patterns: seq<string>, path: string, grep: string -> GrepRun) {
    AnyBelow(patterns, |patterns|, path, grep)
  }

  /** Among the first `n` patterns, some pattern's run lists a file other than `path`. */
  predicate AnyBelow(patterns: seq<string>, n: nat, path: string, grep: string -> GrepRun)
    requires n <= |patterns|
  {
    n > 0 && (AnyBelow(patterns, n - 1, path, grep) || ListsOther(grep(patterns[n - 1]), path))
  }

  /** A pattern found among the first `m` is found among the first `n` for any larger `n`. */
  lemma {:induction false} AnyBelowGrows(patterns: seq<string>, m: nat, n: nat, path: string, grep: string -> GrepRun)
    requires m <= n <= |patterns| && AnyBelow(patterns, m, path, grep)
    ensures AnyBelow(patterns, n, path, grep)
    decreases n - m
  {
    if m < n {
      AnyBelowGrows(patterns, m + 1, n, path, grep);
    }
  }

  /** When some pattern among the first `n` is found, one of them, at position `k`, lists another file. */
  lemma {:induction false} AnyBelowWitness(patterns: seq<string>, n: nat, path: string, grep: string -> GrepRun)
    returns (k: nat)
    requires n <= |patterns| && AnyBelow(patterns, n, path, grep)
    ensures k < n && ListsOther(grep(patterns[k]), path)
  {
    if ListsOther(grep(patterns[n - 1]), path) {
      k := n - 1;
    } else {
      k := AnyBelowWitness(patterns, n - 1, path, grep);
    }
  }

  /** A pattern at position `k` whose run lists another file is found among any first `n` that include it. */
  lemma AnyBelowFrom(patterns: seq<string>, n: nat, k: nat, path: string, grep: string -> GrepRun)
    requires k < n <= |patterns| && ListsOther(grep(patterns[k]), path)
    ensures AnyBelow(patterns, n, path, grep)
  {
    assert AnyBelow(patterns, k + 1, path, grep);
    AnyBelowGrows(patterns, k + 1, n, path, grep);
  }

  /** The found-import loop for one file. */
  method FindImport(path: string, grep: string -> GrepRun) returns (foundImport: bool)
    ensures foundImport <==> ImportFound(path, grep)
  {
    foundImport := SearchPatterns(ImportPatterns(Stem(BaseName(path))), path, grep);
  }

  /** Each pattern in turn, stopping at the first whose run lists another file. */
  method SearchPatterns(patterns: seq<string>, path: string, grep: string -> GrepRun) returns (foundImport: bool)
    ensures foundImport <==> AnyListsOther(patterns, path, grep)
  {
    foundImport := false;
    for k := 0 to |patterns|
      invariant !AnyBelow(patterns, k, path, grep)
    {
      var listsOther := ReadGrep(grep(patterns[k]), path);
      if listsOther {
        foundImport := true;
        AnyBelowGrows(patterns, k + 1, |patterns|, path, grep);
        break;
      }
    }
  }

  /** One pattern's run: its stripped output split into lines, keeping those that do not name `path`. */
  method ReadGrep(result: GrepRun, path: string) returns (listsOther: bool)
    ensures listsOther <==> ListsOther(result, path)
  {
    listsOther := false;
    if result.GrepFinished? && result.returncode == 0 && Strip(result.stdout) != [] {
      var imports := Others(Split(Strip(result.stdout), "\n"), path);
      listsOther := imports != [];
    }
  }

  /** A walked file is reported when it is not under node_modules, not excluded, and no import of it is found. */
  predicate ReportedUnused(f: TsFile, grep: string -> GrepRun) {
    !Contains(f.path, "node_modules") && !Excluded(BaseName(f.path)) && !ImportFound(f.path, grep)
  }

  /** The relative paths of the reported files, in the order the files are visited. */
  function UnusedFiles(files: seq<TsFile>, grep: string -> GrepRun): seq<string> {
    if files == [] then []
    else
      var last := files[|files| - 1];
      UnusedFiles(files[..|files| - 1], grep) + (if ReportedUnused(last, grep) then [last.relPath] else [])
  }

  /** Every reported path is the relative path of a visited file that qualifies. */
  lemma {:induction false} UnusedFilesSound(files: seq<TsFile>, grep: string -> GrepRun, x: string) returns (i: nat)
    requires x in UnusedFiles(files, grep)
    ensures i < |files| && ReportedUnused(files[i], grep) && files[i].relPath == x
    decreases |files|
  {
    var init := files[..|files| - 1];
    var last := files[|files| - 1];
    var reported := ReportedUnused(last, grep);
    assert UnusedFiles(files, grep) == UnusedFiles(init, grep) + (if reported then [last.relPath] else []);
    if x in UnusedFiles(init, grep) {
      i := UnusedFilesSound(init, grep, x);
      assert files[i] == init[i];
    } else {
      i := |files| - 1;
    }
  }

  /** Every visited file that qualifies is reported. */
  lemma {:induction false} UnusedFilesComplete(files: seq<TsFile>, grep: string -> GrepRun, i: nat)
    requires i < |files| && ReportedUnused(files[i], grep)
    ensures files[i].relPath in UnusedFiles(files, grep)
    decreases |files|
  {
    var init := files[..|files| - 1];
    if i < |init| {
      assert init[i] == files[i];
      UnusedFilesComplete(init, grep, i);
    }
  }

  /**
   * detect_potentially_unused_files over the walked files, in the order the
   * set of them is iterated; each reported file gives its relative path.
   */
  method DetectPotentiallyUnusedFiles(allFiles: seq<TsFile>, grep: string -> GrepRun) returns (unusedFiles: seq<string>)
    ensures unusedFiles == UnusedFiles(allFiles, grep)
  {
    unusedFiles := [];
    for i := 0 to |allFiles|
      invariant unusedFiles == UnusedFiles(allFiles[..i], grep)
    {
      var filePath := allFiles[i];
      assert allFiles[..i + 1][..i] == allFiles[..i];
      if Contains(filePath.path, "node_modules") {
        continue;
      }
      var fileName := BaseName(filePath.path);
      if Excluded(fileName) {
        continue;
      }
      var foundImport := FindImport(filePath.path, grep);
      if !foundImport {
        unusedFiles := unusedFiles + [filePath.relPath];
      }
    }
    assert allFiles[..|allFiles|] == allFiles;
  }

  // ---------------------------------------------------------------------------
  // Totals and the exit code

  /** total_issues: commented blocks, files with unused exports, and potentially unused files. */
  function TotalIssues(blocks: seq<Block>, unusedExports: map<string, seq<string>>, unusedFiles: seq<string>): (n: nat)
    ensures n == 0 <==> blocks == [] && unusedExports == map[] && unusedFiles == []
  {
    |blocks| + |unusedExports.Keys| + |unusedFiles|
  }

  // ---------------------------------------------------------------------------
  // The report text

  /** The text main searches the whole report for; it holds no line break. */
  const Needle := "Total Issues:** 0"

  /** The moment the report is generated, as the fields `strftime` prints. */
  datatype Moment = Moment(year: nat, month: nat, day: nat, hour: nat, minute: nat, second: nat)

  /** `n` in decimal, zero-padded on the left to at least `width` digits. */
  function Padded(n: nat, width: nat): (r: string)
    ensures |r| >= width
    ensures forall i :: 0 <= i < |r| ==> IsDigit(r[i])
  {
    var d := Decimal(n);
    if |d| >= width then d else seq(width - |d|, _ => '0') + d
  }

  /** The generation time as `%Y-%m-%d %H:%M:%S` prints it: digits and separators, never a 'T'. */
  function Timestamp(t: Moment): (r: string)
    ensures forall i :: 0 <= i < |r| ==> r[i] != 'T'
  {
    Padded(t.year, 4) + "-" + Padded(t.month, 2) + "-" + Padded(t.day, 2) + " "
    + Padded(t.hour, 2) + ":" + Padded(t.minute, 2) + ":" + Padded(t.second, 2)
  }

  const Title := "# Dead Code Detection Report\n"
  const RepositoryLine := "**Repository:** TerrainSim"

  /** The lines before the total: title, blank line, generation time, repository. */
  function Head(t: Moment): string {
    Title + "\n" + ("**Generated:** " + Timestamp(t)) + "\n" + RepositoryLine
  }

  /** The total line, without its line break. */
  function TotalLine(total: nat): string {
    "**Total Issues:** " + Decimal(total)
  }

  /** The summary table and the first section's heading, which follow the total line. */
  function Summary(blocks: nat, exports: nat, files: nat): string {
    "\n---\n\n## Summary\n\n| Category | Count |\n|----------|-------|\n"
    + "| Commented Code Blocks (>5 lines) | " + Decimal(blocks) + " |\n"
    + "| Files with Unused Exports | " + Decimal(exports) + " |\n"
    + "| Potentially Unused Files | " + Decimal(files) + " |\n"
    + "\n---\n\n## 1. Commented-Out Code Blocks\n\n"
  }

  /** A block's entry up to its preview: its file and lines, its length, and the opening code fence. */
  function BlockHeading(b: Block): string {
    "### " + b.file + " (Lines " + Decimal(b.startLine) + "-" + Decimal(b.endLine) + ")\n\n"
    + "**" + Decimal(b.lineCount) + " consecutive commented lines**\n\n"
    + "```typescript\n"
  }

  /** One block's entry: its heading, then its preview in the code fence. */
  function BlockText(b: Block): string {
    BlockHeading(b) + b.preview + "\n```\n\n"
  }

  /** The entries of all blocks, in order. */
  function BlockTexts(blocks: seq<Block>): string {
    if blocks == [] then [] else BlockTexts(blocks[..|blocks| - 1]) + BlockText(blocks[|blocks| - 1])
  }

  function BlocksIntro(n: nat): string {
    "Found **" + Decimal(n) + "** large commented code blocks that may be dead code:\n\n"
  }

  /** Section 1: the blocks, or a line saying there are none. */
  function BlocksSection(blocks: seq<Block>): string {
    if blocks != [] then BlocksIntro(|blocks|) + BlockTexts(blocks)
    else
      "✅ No large commented code blocks found.\n\n"
  }

  /**
   * Sections 2 and 3, the recommendations and the footer, as a given function
   * of the findings: their dictionary order, file sizes and dates are not modelled.
   */
  type LaterSections = (seq<Block>, map<string, seq<string>>, seq<string>) -> string

  /** Everything after the total line. */
  function Body(blocks: seq<Block>, exports: map<string, seq<string>>, files: seq<string>, later: LaterSections): string {
    Summary(|blocks|, |exports.Keys|, |files|) + BlocksSection(blocks) + later(blocks, exports, files)
  }

  /** generate_report's text. */
  function Report(t: Moment, total: nat, body: string): string {
    Head(t) + "\n" + TotalLine(total) + "\n" + body
  }

  /** main's exit code: 1 unless the report holds the needle anywhere. */
  function ExitCode(report: string): int {
    if Contains(report, Needle) then 0 else 1
  }

  /** A text without 'T' cannot hold the needle, which starts with one. */
  lemma NoNeedleWithoutT(s: string)
    requires forall i :: 0 <= i < |s| ==> s[i] != 'T'
    ensures !Contains(s, Needle)
  {
    forall i | 0 <= i <= |s| ensures !OccursAt(s, Needle, i) {
      if i + |Needle| <= |s| {
        assert s[i..i + |Needle|][0] == s[i];
      }
    }
  }

  /** The repository line's only 'T' leaves too little room after it for the needle. */
  lemma RepositoryLineClean()
    ensures !Contains(RepositoryLine, Needle)
  {
    forall i | 0 <= i <= |RepositoryLine| ensures !OccursAt(RepositoryLine, Needle, i) {
      if i + |Needle| <= |RepositoryLine| {
        assert RepositoryLine[i..i + |Needle|][0] == RepositoryLine[i];
      }
    }
  }

  /** The lines before the total never hold the needle, whatever the time. */
  lemma HeadClean(t: Moment)
    ensures !Contains(Head(t), Needle)
  {
    var generated := "**Generated:** " + Timestamp(t);
    forall i | 0 <= i < |generated| ensures generated[i] != 'T' {
      if i >= 15 {
        assert generated[i] == Timestamp(t)[i - 15];
      }
    }
    NoNeedleWithoutT(Title);
    NoNeedleWithoutT(generated);
    RepositoryLineClean();
    ContainsAcrossBreak(Title, generated, Needle);
    ContainsAcrossBreak(Title + "\n" + generated, RepositoryLine, Needle);
  }

  /** On the total line, 'T' appears only where the label starts, and the number follows the label. */
  lemma TotalLineChars(total: nat)
    ensures |TotalLine(total)| == 18 + |Decimal(total)|
    ensures TotalLine(total)[18] == Decimal(total)[0]
    ensures forall i :: 0 <= i < |TotalLine(total)| && i != 2 ==> TotalLine(total)[i] != 'T'
  {
    var caption := "**Total Issues:** ";
    var d := Decimal(total);
    var line := TotalLine(total);
    forall i | 0 <= i < |line| && i != 2 ensures line[i] != 'T' {
      if i < 18 {
        assert line[i] == caption[i];
      } else {
        assert line[i] == d[i - 18];
      }
    }
  }

  /** The total line holds the needle exactly when the total is zero. */
  lemma TotalLineExit(total: nat)
    ensures Contains(TotalLine(total), Needle) <==> total == 0
  {
    var line := TotalLine(total);
    TotalLineChars(total);
    DecimalLeadingZero(total);
    if total == 0 {
      assert line[2..2 + |Needle|] == Needle;
      assert OccursAt(line, Needle, 2);
    } else {
      forall i | 0 <= i <= |line| ensures !OccursAt(line, Needle, i) {
        if i + |Needle| <= |line| {
          assert line[i..i + |Needle|][0] == line[i];
          assert line[i..i + |Needle|][16] == line[i + 16];
        }
      }
    }
  }

  /**
   * main's test over the whole report: exit 0 when the total is zero, and
   * also whenever the text after the total line happens to hold the needle.
   */
  lemma ReportExit(t: Moment, total: nat, body: string)
    ensures ExitCode(Report(t, total, body)) == 0 <==> total == 0 || Contains(body, Needle)
  {
    HeadClean(t);
    TotalLineExit(total);
    ContainsAcrossBreak(Head(t), TotalLine(total), Needle);
    ContainsAcrossBreak(Head(t) + "\n" + TotalLine(total), body, Needle);
  }

  /** A block whose preview holds `sub` puts it into the blocks' entries. */
  lemma {:induction false} BlockTextsContain(blocks: seq<Block>, k: nat, sub: string)
    requires k < |blocks| && Contains(blocks[k].preview, sub)
    ensures Contains(BlockTexts(blocks), sub)
  {
    var init, b := blocks[..|blocks| - 1], blocks[|blocks| - 1];
    if k == |blocks| - 1 {
      ContainsRight(BlockHeading(b), b.preview, sub);
      ContainsLeft(BlockHeading(b) + b.preview, "\n```\n\n", sub);
      ContainsRight(BlockTexts(init), BlockText(b), sub);
    } else {
      assert init[k] == blocks[k];
      BlockTextsContain(init, k, sub);
      ContainsLeft(BlockTexts(init), BlockText(b), sub);
    }
  }

  /** A block whose preview holds `sub` puts it into section 1. */
  lemma BlocksSectionContains(blocks: seq<Block>, k: nat, sub: string)
    requires k < |blocks| && Contains(blocks[k].preview, sub)
    ensures Contains(BlocksSection(blocks), sub)
  {
    BlockTextsContain(blocks, k, sub);
    ContainsRight(BlocksIntro(|blocks|), BlockTexts(blocks), sub);
  }

  /** A block whose preview holds the needle puts it into the text after the total line. */
  lemma BodyContainsPreview(blocks: seq<Block>, exports: map<string, seq<string>>, files: seq<string>,
                            later: LaterSections, k: nat)
    requires k < |blocks| && Contains(blocks[k].preview, Needle)
    ensures Contains(Body(blocks, exports, files, later), Needle)
  {
    var summary := Summary(|blocks|, |exports.Keys|, |files|);
    BlocksSectionContains(blocks, k, Needle);
    ContainsRight(summary, BlocksSection(blocks), Needle);
    ContainsLeft(summary + BlocksSection(blocks), later(blocks, exports, files), Needle);
  }

  /** A commented-out line of code that quotes the needle. */
  const QuotingLine := "// const s = \"**" + Needle + "\";"

  /** The quoting line is a comment that looks like code, has no trailing space, and holds the needle. */
  lemma QuotingLineShape()
    ensures Qualifies(QuotingLine) && RStrip(QuotingLine) == QuotingLine && Contains(QuotingLine, Needle)
  {
    StripUnchanged(QuotingLine);
    assert QuotingLine[..3][2] == ' ';
    assert StartsWith(QuotingLine, "//") && !StartsWith(QuotingLine, "///");
    assert OccursAt(QuotingLine, CodeKeywords[0], 3);
    ContainsInfix("// const s = \"**", Needle, "\";");
  }

  /** A reported block's preview is its first three lines, right-stripped, then an ellipsis. */
  lemma FileBlockPreview(file: string, lines: seq<string>, k: nat)
    requires k < |FileBlocks(file, lines)|
    ensures var b := FileBlocks(file, lines)[k];
            1 <= b.startLine && b.startLine + 2 <= |lines|
            && b.preview == RStrip(lines[b.startLine - 1]) + "\n" + RStrip(lines[b.startLine]) + "\n"
                            + RStrip(lines[b.startLine + 1]) + "\n..."
  {
    FileBlocksSound(file, lines);
    BlockPreview(Qualifies, file, lines, FileBlocks(file, lines)[k]);
  }

  /** A preview holds whatever its first line holds. */
  lemma PreviewKeepsFirst(r0: string, r1: string, r2: string, sub: string)
    requires Contains(r0, sub)
    ensures Contains(r0 + "\n" + r1 + "\n" + r2 + "\n...", sub)
  {
    ContainsLeft(r0, "\n", sub);
    ContainsLeft(r0 + "\n", r1, sub);
    ContainsLeft(r0 + "\n" + r1, "\n", sub);
    ContainsLeft(r0 + "\n" + r1 + "\n", r2, sub);
    ContainsLeft(r0 + "\n" + r1 + "\n" + r2, "\n...", sub);
  }

  /** Six qualifying lines, the first holding the needle, give a block whose preview holds it. */
  lemma RunCarriesNeedle(file: string, lines: seq<string>) returns (k: nat)
    requires |lines| == 6 && forall n :: 1 <= n <= 6 ==> QualifiesAt(Qualifies, lines, n)
    requires Contains(RStrip(lines[0]), Needle)
    ensures k < |FileBlocks(file, lines)| && Contains(FileBlocks(file, lines)[k].preview, Needle)
  {
    FileBlocksComplete(file, lines, 1, 6);
    var blocks := FileBlocks(file, lines);
    k :| 0 <= k < |blocks| && blocks[k].startLine == 1 && blocks[k].endLine == 6;
    FileBlockPreview(file, lines, k);
    PreviewKeepsFirst(RStrip(lines[0]), RStrip(lines[1]), RStrip(lines[2]), Needle);
  }

  /** A single readable source that is not skipped contributes exactly its own blocks. */
  lemma OneSourceBlocks(f: TsFile, lines: seq<string>)
    requires !SkippedForComments(f)
    ensures AllBlocks([SourceText(f, Some(lines))]) == FileBlocks(f.relPath, lines)
  {
    assert [SourceText(f, Some(lines))][..0] == [];
  }

  /**
   * One file of six such lines: a block is found, so the total is at least one,
   * yet its preview carries the needle into the report and main exits with 0.
   */
  lemma PreviewHidesIssues(t: Moment, later: LaterSections)
    ensures var sources := [SourceText(TsFile("a.ts", "a.ts"), Some(seq(6, _ => QuotingLine)))];
            var blocks := AllBlocks(sources);
            TotalIssues(blocks, map[], []) >= 1
            && ExitCode(Report(t, TotalIssues(blocks, map[], []), Body(blocks, map[], [], later))) == 0
  {
    var file := TsFile("a.ts", "a.ts");
    var lines := seq(6, _ => QuotingLine);
    QuotingLineShape();
    forall n | 1 <= n <= 6 ensures QualifiesAt(Qualifies, lines, n) {
      assert lines[n - 1] == QuotingLine;
    }
    assert lines[0] == QuotingLine;
    var k := RunCarriesNeedle("a.ts", lines);
    assert !SkippedForComments(file);
    OneSourceBlocks(file, lines);
    var blocks := FileBlocks("a.ts", lines);
    ReportExit(t, TotalIssues(blocks, map[], []), Body(blocks, map[], [], later));
    BodyContainsPreview(blocks, map[], [], later, k);
  }

  /**
   * main's evidently intended exit code: 0 exactly when nothing was found,
   * whatever the rest of the report says.
   */
  function IntendedExitCode(blocks: seq<Block>, unusedExports: map<string, seq<string>>, unusedFiles: seq<string>): (c: int)
    ensures c == 0 <==> blocks == [] && unusedExports == map[] && unusedFiles == []
    ensures c == 0 || c == 1
  {
    if TotalIssues(blocks, unusedExports, unusedFiles) == 0 then 0 else 1
  }

  /** When the text after the total line does not hold the needle, main's test gives the intended exit code. */
  lemma IntendedAgrees(t: Moment, blocks: seq<Block>, exports: map<string, seq<string>>, files: seq<string>, later: LaterSections)
    requires !Contains(Body(blocks, exports, files, later), Needle)
    ensures ExitCode(Report(t, TotalIssues(blocks, exports, files), Body(blocks, exports, files, later)))
            == IntendedExitCode(blocks, exports, files)
  {
    ReportExit(t, TotalIssues(blocks, exports, files), Body(blocks, exports, files, later));
  }

  /**
   * generate_report and main: the three detections, the total, the report
   * text, and the exit code main reads back from the whole report.
   */
  method DetectDeadCode(sources: seq<SourceText>, frontend: Option<ToolRun>, backend: Option<ToolRun>,
                        allFiles: seq<TsFile>, grep: string -> GrepRun, now: Moment, later: LaterSections)
    returns (totalIssues: nat, report: string, exitCode: int)
    ensures totalIssues == |AllBlocks(sources)| + |ToolExports(backend, ToolExports(frontend, map[])).Keys| + |UnusedFiles(allFiles, grep)|
    ensures report == Report(now, totalIssues,
                             Body(AllBlocks(sources), ToolExports(backend, ToolExports(frontend, map[])), UnusedFiles(allFiles, grep), later))
    ensures exitCode == 0 <==>
              || (AllBlocks(sources) == [] && ToolExports(backend, ToolExports(frontend, map[])) == map[] && UnusedFiles(allFiles, grep) == [])
              || Contains(Body(AllBlocks(sources), ToolExports(backend, ToolExports(frontend, map[])), UnusedFiles(allFiles, grep), later), Needle)
  {
    var commentedBlocks := DetectCommentedCodeBlocks(sources);
    var unusedExports := DetectUnusedExports(frontend, backend);
    var unusedFiles := DetectPotentiallyUnusedFiles(allFiles, grep);
    totalIssues := TotalIssues(commentedBlocks, unusedExports, unusedFiles);
    var body := Body(commentedBlocks, unusedExports, unusedFiles, later);
    report := Report(now, totalIssues, body);
    ReportExit(now, totalIssues, body);
    exitCode := ExitCode(report);
  }
}
