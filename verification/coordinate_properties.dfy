/**
  What the coordinate parser guarantees: how each kind of line is treated,
  the shape of the generated headers, the shape of every flushed block, and
  the columns, row count and cells of the combined table.
*/
module CoordinateProperties {
  import opened Wrappers
  import opened Text
  import opened Coordinates

  /** The lines the loop keeps: every line that is not blank after stripping. */
  function NonBlank(lines: seq<string>): seq<string> {
    if lines == [] then []
    else NonBlank(lines[..|lines| - 1]) + (if KindOf(lines[|lines| - 1]) == Blank then [] else [lines[|lines| - 1]])
  }

  /** The number of lines that are data rows: neither blank nor a `Frame` or `Tracks` line. */
  function DataLineCount(lines: seq<string>): nat {
    if lines == [] then 0
    else DataLineCount(lines[..|lines| - 1]) + (if KindOf(lines[|lines| - 1]) == DataLine then 1 else 0)
  }

  /** The number of rows held by a list of blocks. */
  function RowCount(blocks: seq<Block>): nat {
    if blocks == [] then 0 else RowCount(blocks[..|blocks| - 1]) + |blocks[|blocks| - 1].rows|
  }

  /** A flushed block: rectangular, with at least one row and one column. */
  predicate GoodBlock(b: Block) {
    Rectangular(b) && b.rows != [] && b.columns != []
  }

  predicate GoodState(s: ScanState) {
    && (forall j :: 0 <= j < |s.blocks| ==> GoodBlock(s.blocks[j]))
    && (s.header.Some? ==> s.header.value != [])
    && (forall j :: 0 <= j < |s.pending| ==> s.pending[j] != [])
  }

  lemma ScanSnoc(lines: seq<string>, x: string)
    ensures ScanLines(lines + [x]) ==
      match ScanLines(lines)
      case Err(e) => Err(e)
      case Ok(s) => Step(s, x)
  {
    assert (lines + [x])[..|lines|] == lines;
  }

  lemma RowCountSnoc(blocks: seq<Block>, b: Block)
    ensures RowCount(blocks + [b]) == RowCount(blocks) + |b.rows|
  {
    assert (blocks + [b])[..|blocks|] == blocks;
  }

  /** Blank lines are ignored: removing all of them does not change the outcome of the scan. */
  lemma {:induction false} ScanSkipsBlanks(lines: seq<string>)
    ensures ScanLines(NonBlank(lines)) == ScanLines(lines)
  {
    if lines != [] {
      var init, x := lines[..|lines| - 1], lines[|lines| - 1];
      assert lines == init + [x];
      ScanSkipsBlanks(init);
      if KindOf(x) == Blank {
        assert NonBlank(lines) == NonBlank(init);
        if ScanLines(init).Ok? {
          assert Step(ScanLines(init).value, x) == ScanLines(init);
        }
      } else {
        assert NonBlank(lines) == NonBlank(init) + [x];
        ScanSnoc(NonBlank(init), x);
      }
    }
  }

  /**
    Every data line becomes exactly one row (a `Frame` or `Tracks` line
    never does), a flush keeps all rows of its block, and every flushed block
    is rectangular and non-empty.
  */
  lemma {:induction false} ScanInvariant(lines: seq<string>)
    ensures ScanLines(lines).Ok? ==>
      && GoodState(ScanLines(lines).value)
      && RowCount(ScanLines(lines).value.blocks) + |ScanLines(lines).value.pending| == DataLineCount(lines)
  {
    if lines != [] {
      var init, x := lines[..|lines| - 1], lines[|lines| - 1];
      ScanInvariant(init);
      if ScanLines(init).Ok? && ScanLines(lines).Ok? {
        StepKeepsInvariant(ScanLines(init).value, x);
      }
    }
  }

  /** One turn of the loop keeps `GoodState` and adds one row exactly for a data line. */
  lemma StepKeepsInvariant(s: ScanState, x: string)
    requires GoodState(s) && Step(s, x).Ok?
    ensures GoodState(Step(s, x).value)
    ensures RowCount(Step(s, x).value.blocks) + |Step(s, x).value.pending|
         == RowCount(s.blocks) + |s.pending| + (if KindOf(x) == DataLine then 1 else 0)
  {
    var line := Strip(x);
    match KindOf(x)
    case Blank =>
      assert Step(s, x) == Ok(s);
    case FrameLine =>
      assert Step(s, x) == Ok(s.(header := Some(Split(line, '\t'))));
    case DataLine =>
      var row := Split(line, '\t');
      assert Step(s, x) == Ok(s.(pending := s.pending + [row]));
      assert row != [];
    case TracksLine =>
      var blocks := FlushPending(s).value;
      var range := TracksRange(line).value;
      assert Step(s, x) == Ok(ScanState(Some(TracksHeader(range.0, range.1)), [], blocks));
      FlushKeepsInvariant(s);
  }

  /** Closing a block keeps every block good and every row. */
  lemma FlushKeepsInvariant(s: ScanState)
    requires GoodState(s) && FlushPending(s).Ok?
    ensures forall j :: 0 <= j < |FlushPending(s).value| ==> GoodBlock(FlushPending(s).value[j])
    ensures RowCount(FlushPending(s).value) == RowCount(s.blocks) + |s.pending|
  {
    if s.pending != [] {
      var b := Flush(s.header.value, s.pending);
      assert |s.pending[0]| <= MaxLen(s.pending);
      assert GoodBlock(b);
      RowCountSnoc(s.blocks, b);
      assert FlushPending(s).value == s.blocks + [b];
    }
  }

  /** The blocks of a file that loads: all rows of all data lines, in rectangular non-empty blocks. */
  lemma BlocksInvariant(lines: seq<string>)
    requires Blocks(lines).Ok?
    ensures forall j :: 0 <= j < |Blocks(lines).value| ==> GoodBlock(Blocks(lines).value[j])
    ensures RowCount(Blocks(lines).value) == DataLineCount(lines)
  {
    ScanInvariant(lines);
    FlushKeepsInvariant(ScanLines(lines).value);
  }

  lemma {:induction false} GoodBlocksHaveRows(blocks: seq<Block>)
    requires forall j :: 0 <= j < |blocks| ==> GoodBlock(blocks[j])
    ensures RowCount(blocks) >= |blocks|
  {
    if blocks != [] {
      GoodBlocksHaveRows(blocks[..|blocks| - 1]);
    }
  }

  /** A file without data rows (an empty or all-blank file among them) yields no table. */
  lemma NoDataRowsFails(lines: seq<string>)
    requires DataLineCount(lines) == 0
    ensures Parse(lines).Err?
  {
    if Blocks(lines).Ok? {
      BlocksInvariant(lines);
      GoodBlocksHaveRows(Blocks(lines).value);
    }
  }

  /** A `Tracks a to b` line yields `Frame` followed by one `X`, `Y`, `Flag` triplet per track. */
  lemma TracksHeaderShape(a: int, b: int)
    ensures |TracksHeader(a, b)| == 1 + 3 * (if a <= b then b - a + 1 else 0)
    ensures TracksHeader(a, b)[0] == "Frame"
    ensures forall k :: 0 <= k && a + k <= b ==>
      && TracksHeader(a, b)[1 + 3 * k] == "X" + IntToString(a + k)
      && TracksHeader(a, b)[2 + 3 * k] == "Y" + IntToString(a + k)
      && TracksHeader(a, b)[3 + 3 * k] == "Flag" + IntToString(a + k)
  {
    TripletsShape(a, b);
    var h := TracksHeader(a, b);
    forall k | 0 <= k && a + k <= b
      ensures h[1 + 3 * k] == "X" + IntToString(a + k)
      ensures h[2 + 3 * k] == "Y" + IntToString(a + k)
      ensures h[3 + 3 * k] == "Flag" + IntToString(a + k)
    {
      var t := Triplets(a, b);
      assert t[3 * k..3 * k + 3] == Triplet(a + k);
      assert h[1 + 3 * k] == t[3 * k] == Triplet(a + k)[0];
      assert h[2 + 3 * k] == t[3 * k + 1] == Triplet(a + k)[1];
      assert h[3 + 3 * k] == t[3 * k + 2] == Triplet(a + k)[2];
    }
  }

  /** `Triplets(a, b)` is the triplet of `a`, then that of `a + 1`, and so on up to `b`. */
  lemma TripletsShape(a: int, b: int)
    ensures |Triplets(a, b)| == 3 * (if a <= b then b - a + 1 else 0)
    ensures forall k :: 0 <= k && a + k <= b ==> Triplets(a, b)[3 * k..3 * k + 3] == Triplet(a + k)
  {
    TripletsLength(a, b);
    forall k | 0 <= k && a + k <= b
      ensures Triplets(a, b)[3 * k..3 * k + 3] == Triplet(a + k)
    {
      TripletAt(a, b, k);
    }
  }

  lemma {:induction false} TripletsLength(a: int, b: int)
    ensures |Triplets(a, b)| == 3 * (if a <= b then b - a + 1 else 0)
    decreases if a <= b then b - a + 1 else 0
  {
    if a <= b {
      TripletsLength(a + 1, b);
    }
  }

  lemma {:induction false} TripletAt(a: int, b: int, k: nat)
    requires a + k <= b
    ensures 3 * k + 3 <= |Triplets(a, b)|
    ensures Triplets(a, b)[3 * k..3 * k + 3] == Triplet(a + k)
    decreases k
  {
    if k == 0 {
      FrontSlice(Triplet(a), Triplets(a + 1, b));
    } else {
      TripletAt(a + 1, b, k - 1);
      TripletStep(a, b, k);
    }
  }

  lemma TripletStep(a: int, b: int, k: nat)
    requires 0 < k && a + k <= b
    requires 3 * (k - 1) + 3 <= |Triplets(a + 1, b)|
    requires Triplets(a + 1, b)[3 * (k - 1)..3 * (k - 1) + 3] == Triplet(a + 1 + (k - 1))
    ensures 3 * k + 3 <= |Triplets(a, b)|
    ensures Triplets(a, b)[3 * k..3 * k + 3] == Triplet(a + k)
  {
    var head, tail := Triplet(a), Triplets(a + 1, b);
    assert Triplets(a, b) == head + tail;
    assert |head| == 3;
    ShiftedSlice(head, tail, 3 * (k - 1));
    assert 3 * (k - 1) + 3 == 3 * k && a + 1 + (k - 1) == a + k;
  }

  lemma FrontSlice(head: seq<string>, tail: seq<string>)
    requires |head| == 3
    ensures (head + tail)[..3] == head
  {
  }

  lemma ShiftedSlice(head: seq<string>, tail: seq<string>, i: nat)
    requires |head| == 3 && i + 3 <= |tail|
    ensures (head + tail)[i + 3..i + 6] == tail[i..i + 3]
  {
  }

  /** The columns the later blocks contribute to the merged table, in block order. */
  function LaterColumns(blocks: seq<Block>, k: nat): seq<string>
    requires k <= |blocks|
  {
    if k <= 1 then []
    else LaterColumns(blocks, k - 1) + KeepNonFrame(blocks[k - 1].columns, blocks[k - 1].columns)
  }

  /** The smallest row count among the first `k` blocks. */
  function MinRows(blocks: seq<Block>, k: nat): nat
    requires 1 <= k <= |blocks|
  {
    if k == 1 then |blocks[0].rows|
    else Min(MinRows(blocks, k - 1), |blocks[k - 1].rows|)
  }

  /** The cells the later blocks contribute to row `i` of the merged table. */
  function LaterCells(blocks: seq<Block>, k: nat, i: nat): seq<string>
    requires 1 <= k <= |blocks| && i < MinRows(blocks, k)
  {
    if k == 1 then []
    else LaterCells(blocks, k - 1, i) + KeepNonFrame(blocks[k - 1].columns, blocks[k - 1].rows[i])
  }

  /** Dropping the `Frame` columns keeps a row exactly as wide as its labels. */
  lemma {:induction false} KeepNonFrameWidth(labels: seq<string>, row: seq<string>)
    requires |row| == |labels|
    ensures |KeepNonFrame(labels, row)| == |KeepNonFrame(labels, labels)|
    ensures "Frame" !in KeepNonFrame(labels, labels)
  {
    if labels != [] {
      KeepNonFrameWidth(labels[1..], row[1..]);
    }
  }

  /** The merge of the first `k` blocks fails exactly when one of the later blocks has no `Frame` column. */
  lemma {:induction false} MergeSucceeds(blocks: seq<Block>, k: nat)
    requires 1 <= k <= |blocks|
    ensures MergePrefix(blocks, k).Ok? <==> forall j :: 1 <= j < k ==> "Frame" in blocks[j].columns
  {
    if k > 1 {
      MergeSucceeds(blocks, k - 1);
    }
  }

  /**
    A successful merge of the first `k` blocks: its columns are the first
    block's columns followed by every later block's columns other than
    `Frame`, its row count is the smallest block's, and row `i` joins the
    rows `i` of all blocks.
  */
  lemma {:induction false} MergeShape(blocks: seq<Block>, k: nat)
    requires 1 <= k <= |blocks|
    requires forall j :: 0 <= j < |blocks| ==> Rectangular(blocks[j])
    requires MergePrefix(blocks, k).Ok?
    ensures
      var m := MergePrefix(blocks, k).value;
      && Rectangular(m)
      && m.columns == blocks[0].columns + LaterColumns(blocks, k)
      && |m.rows| == MinRows(blocks, k)
      && |m.rows| <= |blocks[0].rows|
      && forall i :: 0 <= i < |m.rows| ==> m.rows[i] == blocks[0].rows[i] + LaterCells(blocks, k, i)
  {
    MinRowsBound(blocks, k);
    if k > 1 {
      var acc := MergePrefix(blocks, k - 1).value;
      MergeShape(blocks, k - 1);
      var b := blocks[k - 1];
      DropShape(b, k - 1);
      var d := DropFrame(b, k - 1).value;
      JoinShape(acc, d);
      var m := MergePrefix(blocks, k).value;
      assert m == JoinByPosition(acc, d);
      assert LaterColumns(blocks, k) == LaterColumns(blocks, k - 1) + d.columns;
      assert m.columns == blocks[0].columns + LaterColumns(blocks, k);
      assert MinRows(blocks, k) == Min(MinRows(blocks, k - 1), |b.rows|);
      assert |m.rows| == MinRows(blocks, k);
      forall i | 0 <= i < |m.rows|
        ensures m.rows[i] == blocks[0].rows[i] + LaterCells(blocks, k, i)
      {
        MergeRow(blocks, k, i);
      }
    }
  }

  /** Row `i` of the merge joins the rows `i` of all merged blocks. */
  lemma {:induction false} MergeRow(blocks: seq<Block>, k: nat, i: nat)
    requires 1 <= k <= |blocks|
    requires MergePrefix(blocks, k).Ok?
    requires i < |MergePrefix(blocks, k).value.rows| && i < MinRows(blocks, k)
    ensures MinRows(blocks, k) <= |blocks[0].rows|
    ensures MergePrefix(blocks, k).value.rows[i] == blocks[0].rows[i] + LaterCells(blocks, k, i)
  {
    MinRowsBound(blocks, k);
    if k > 1 {
      var acc := MergePrefix(blocks, k - 1).value;
      var d := DropFrame(blocks[k - 1], k - 1).value;
      var m := MergePrefix(blocks, k).value;
      assert m == JoinByPosition(acc, d);
      assert i < |acc.rows| && i < |d.rows| && i < MinRows(blocks, k - 1);
      var front, later := blocks[0].rows[i], LaterCells(blocks, k - 1, i);
      var cells := KeepNonFrame(blocks[k - 1].columns, blocks[k - 1].rows[i]);
      assert d.rows[i] == cells;
      MergeRow(blocks, k - 1, i);
      assert acc.rows[i] == front + later;
      assert LaterCells(blocks, k, i) == later + cells;
      assert m.rows[i] == (front + later) + cells;
    }
  }

  lemma DropShape(b: Block, k: nat)
    requires Rectangular(b) && "Frame" in b.columns
    ensures DropFrame(b, k).Ok?
    ensures
      var d := DropFrame(b, k).value;
      && Rectangular(d)
      && d.columns == KeepNonFrame(b.columns, b.columns)
      && |d.rows| == |b.rows|
      && forall i :: 0 <= i < |d.rows| ==> d.rows[i] == KeepNonFrame(b.columns, b.rows[i])
  {
    var d := DropFrame(b, k).value;
    forall i | 0 <= i < |d.rows| ensures |d.rows[i]| == |d.columns| {
      KeepNonFrameWidth(b.columns, b.rows[i]);
    }
  }

  lemma JoinShape(left: Block, right: Block)
    requires Rectangular(left) && Rectangular(right)
    ensures
      var m := JoinByPosition(left, right);
      && Rectangular(m)
      && m.columns == left.columns + right.columns
      && |m.rows| == Min(|left.rows|, |right.rows|)
      && forall i :: 0 <= i < |m.rows| ==> m.rows[i] == left.rows[i] + right.rows[i]
  {
  }

  /** The line that opens the block of tracks `a` to `b`. */
  function TracksLineOf(a: int, b: int): string {
    "Tracks " + IntToString(a) + " to " + IntToString(b)
  }

  /** The `Tracks a to b` line the tracker writes reads back as the range from `a` to `b`. */
  lemma TracksRangeRoundTrip(a: int, b: int)
    ensures TracksRange(TracksLineOf(a, b)) == Ok((a, b))
  {
    var parts := ["Tracks", IntToString(a), "to", IntToString(b)];
    IntStringNoSpace(a);
    IntStringNoSpace(b);
    assert parts[3..] == [IntToString(b)];
    assert Join(parts[2..], [' ']) == "to" + [' '] + IntToString(b);
    assert Join(parts[1..], [' ']) == IntToString(a) + [' '] + ("to" + [' '] + IntToString(b));
    assert Join(parts, [' ']) == TracksLineOf(a, b);
    forall i | 0 <= i < |parts| ensures ' ' !in parts[i] {
      if ' ' in parts[i] {
        var k :| 0 <= k < |parts[i]| && parts[i][k] == ' ';
        assert IsSpace(parts[i][k]);
      }
    }
    SplitJoin(parts, ' ');
    ParseIntToString(a);
    ParseIntToString(b);
  }

  /** A `Tracks a to b` line is its own `strip()` and is read as a `Tracks` line. */
  lemma TracksLineKind(a: int, b: int)
    ensures Strip(TracksLineOf(a, b)) == TracksLineOf(a, b)
    ensures KindOf(TracksLineOf(a, b)) == TracksLine
  {
    var line := TracksLineOf(a, b);
    IntStringNoSpace(b);
    var tail := IntToString(b);
    assert line[|line| - 1] == tail[|tail| - 1];
    StripBareEnds(line);
    assert line[..6] == "Tracks";
    assert line[..5] != "Frame" by {
      assert line[0] != "Frame"[0];
    }
  }

  /**
    Reading a `Tracks a to b` line closes the block being read and replaces
    the header by the generated one for tracks `a` to `b`, with no row pending.
  */
  lemma TracksLineStep(s: ScanState, a: int, b: int)
    requires FlushPending(s).Ok?
    ensures Step(s, TracksLineOf(a, b)) == Ok(ScanState(Some(TracksHeader(a, b)), [], FlushPending(s).value))
  {
    TracksLineKind(a, b);
    TracksRangeRoundTrip(a, b);
  }

  /** `CellValue` reads back every integer `str` writes, and the padding cell reads as 0. */
  lemma CellValueRoundTrip(i: int)
    ensures CellValue(IntToString(i)) == i
    ensures CellValue("") == 0
  {
    ParseIntToString(i);
  }

  /**
    The table of a file that loads: one row per row position common to all
    blocks, the first block's columns followed by the later blocks' non-`Frame`
    columns, and each cell the integer value of the raw cell at that place.
  */
  lemma ParseShape(lines: seq<string>)
    requires Parse(lines).Ok?
    ensures Blocks(lines).Ok? && Blocks(lines).value != []
    ensures
      var blocks := Blocks(lines).value;
      var t := Parse(lines).value;
      && t.columns == blocks[0].columns + LaterColumns(blocks, |blocks|)
      && |t.cells| == MinRows(blocks, |blocks|)
      && |t.cells| <= |blocks[0].rows|
      && Rectangular(blocks[0])
      && (forall i :: 0 <= i < |t.cells| ==> |t.cells[i]| == |t.columns|)
      && (forall i, j :: 0 <= i < |t.cells| && 0 <= j < |blocks[0].columns| ==>
            t.cells[i][j] == CellValue(blocks[0].rows[i][j]))
      && (forall i :: 0 <= i < |t.cells| ==>
            var raw := blocks[0].rows[i] + LaterCells(blocks, |blocks|, i);
            |t.cells[i]| == |raw| && forall j :: 0 <= j < |raw| ==> t.cells[i][j] == CellValue(raw[j]))
  {
    var blocks := Blocks(lines).value;
    BlocksInvariant(lines);
    MergeShape(blocks, |blocks|);
    MinRowsBound(blocks, |blocks|);
    var m := MergePrefix(blocks, |blocks|).value;
    var t := Parse(lines).value;
    assert t == ToTable(m);
    forall i | 0 <= i < |t.cells|
      ensures var raw := blocks[0].rows[i] + LaterCells(blocks, |blocks|, i);
        |t.cells[i]| == |raw| && forall j :: 0 <= j < |raw| ==> t.cells[i][j] == CellValue(raw[j])
    {
      assert m.rows[i] == blocks[0].rows[i] + LaterCells(blocks, |blocks|, i);
    }
    forall i, j | 0 <= i < |t.cells| && 0 <= j < |blocks[0].columns|
      ensures t.cells[i][j] == CellValue(blocks[0].rows[i][j])
    {
      var raw := blocks[0].rows[i] + LaterCells(blocks, |blocks|, i);
      assert |blocks[0].rows[i]| == |blocks[0].columns|;
      assert raw[j] == blocks[0].rows[i][j];
    }
  }

  lemma {:induction false} MinRowsBound(blocks: seq<Block>, k: nat)
    requires 1 <= k <= |blocks|
    ensures MinRows(blocks, k) <= |blocks[0].rows|
    ensures forall j :: 0 <= j < k ==> MinRows(blocks, k) <= |blocks[j].rows|
  {
    if k > 1 {
      MinRowsBound(blocks, k - 1);
    }
  }
}
