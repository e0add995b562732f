/**
  The multi-block coordinate-file parser of `FileHandler.load_current_video`.

  A `*_tracks_raw.txt` file holds several blocks. Each block starts with a
  `Tracks a to b` line (or carries an explicit `Frame...` header line) and is
  followed by tab-separated rows. The parser collects the rows of each block,
  cuts or pads them to a common width, joins the blocks side by side by row
  position (dropping the `Frame` column of every later block) and converts
  every cell to an integer, with 0 for anything that does not parse.

  The specification is the left fold `ScanLines` of `Step` over the lines,
  followed by `FlushPending`, `MergePrefix` and `ToTable`; the method
  `ParseCoordinates` is the loop of the source, proved equal to `Parse`.
*/
module Coordinates {
  import opened Wrappers
  import opened Text

  /** Why loading a coordinate file fails (the load is then abandoned). */
  datatype ParseError =
    | MissingHeader                // rows to flush but no header yet: `len(None)` raises
    | BadTracksLine(line: string)  // tokens 1 and 3 of a `Tracks` line are not both integers
    | NoBlocks                     // `dataframes[0]` on an empty list
    | MissingFrameColumn(block: nat) // `drop(columns=["Frame"])` on a block without that column

  /** One block as the parser holds it: column labels and rows of raw cells. */
  datatype Block = Block(columns: seq<string>, rows: seq<seq<string>>)

  /** Every row has one cell per column. */
  predicate Rectangular(b: Block) {
    forall i :: 0 <= i < |b.rows| ==> |b.rows[i]| == |b.columns|
  }

  /** The integer table returned by the parser. */
  datatype CoordTable = CoordTable(columns: seq<string>, cells: seq<seq<int>>)

  /** The accumulator of the loop over lines: `header`, `current_data`, `dataframes`. */
  datatype ScanState = ScanState(header: Option<seq<string>>, pending: seq<seq<string>>, blocks: seq<Block>)

  const Initial: ScanState := ScanState(None, [], [])

  /** How the loop treats a line, judged after stripping it. */
  datatype LineKind = Blank | FrameLine | TracksLine | DataLine

  function KindOf(raw: string): LineKind {
    var line := Strip(raw);
    if line == [] then Blank
    else if StartsWith(line, "Frame") then FrameLine
    else if StartsWith(line, "Tracks") then TracksLine
    else DataLine
  }

  function Min(a: int, b: int): int {
    if a <= b then a else b
  }

  /**
    `adjust_row_length(row, n)`: exactly `n` cells, the row's own cells first
    and empty strings after them.
  */
  function AdjustRowLength(row: seq<string>, n: nat): (r: seq<string>)
    ensures |r| == n
    ensures r[..Min(|row|, n)] == row[..Min(|row|, n)]
    ensures forall j :: |row| <= j < n ==> r[j] == ""
  {
    if |row| > n then row[..n]
    else if |row| < n then row + seq(n - |row|, _ => "")
    else row
  }

  /** `len(max(rows, key=len))`: the length of a longest row. */
  function MaxLen(rows: seq<seq<string>>): (m: nat)
    ensures forall i :: 0 <= i < |rows| ==> |rows[i]| <= m
    ensures rows != [] ==> exists i :: 0 <= i < |rows| && |rows[i]| == m
    ensures rows == [] ==> m == 0
  {
    if rows == [] then 0
    else
      var m := MaxLen(rows[1..]);
      assert forall i :: 1 <= i < |rows| ==> rows[i] == rows[1..][i - 1];
      if |rows[0]| >= m then |rows[0]| else m
  }

  /**
    Turns the collected rows of one block into a block: the width is the
    smaller of the header length and the longest row, the labels are that
    prefix of the header and every row is cut or padded to it.
  */
  function Flush(header: seq<string>, pending: seq<seq<string>>): (b: Block)
    requires pending != []
    ensures |b.columns| == Min(|header|, MaxLen(pending))
    ensures b.columns == header[..|b.columns|]
    ensures |b.rows| == |pending| && Rectangular(b)
    ensures forall i, j :: 0 <= i < |pending| && 0 <= j < Min(|pending[i]|, |b.columns|) ==>
      b.rows[i][j] == pending[i][j]
    ensures forall i, j :: 0 <= i < |pending| && |pending[i]| <= j < |b.columns| ==>
      b.rows[i][j] == ""
  {
    var m := Min(|header|, MaxLen(pending));
    var rows := seq(|pending|, i requires 0 <= i < |pending| => AdjustRowLength(pending[i], m));
    assert forall i, j :: 0 <= i < |pending| && 0 <= j < Min(|pending[i]|, m) ==>
      rows[i][j] == rows[i][..Min(|pending[i]|, m)][j];
    Block(header[..m], rows)
  }

  /** The three column labels of track `i`. */
  function Triplet(i: int): seq<string> {
    ["X" + IntToString(i), "Y" + IntToString(i), "Flag" + IntToString(i)]
  }

  /** The labels `X{i}`, `Y{i}`, `Flag{i}` for every `i` from `a` to `b`. */
  function Triplets(a: int, b: int): seq<string>
    decreases if a <= b then b - a + 1 else 0
  {
    if a > b then [] else Triplet(a) + Triplets(a + 1, b)
  }

  /** The header a `Tracks a to b` line installs. */
  function TracksHeader(a: int, b: int): seq<string> {
    ["Frame"] + Triplets(a, b)
  }

  /** `line.split(" ")[1:4:2]` read as two integers. */
  function TracksRange(line: string): Result<(int, int), ParseError> {
    var tokens := Split(line, ' ');
    if |tokens| >= 4 && ParseInt(tokens[1]).Some? && ParseInt(tokens[3]).Some? then
      Ok((ParseInt(tokens[1]).value, ParseInt(tokens[3]).value))
    else Err(BadTracksLine(line))
  }

  /** Closes the current block, if it has rows. */
  function FlushPending(s: ScanState): Result<seq<Block>, ParseError> {
    if s.pending == [] then Ok(s.blocks)
    else if s.header.None? then Err(MissingHeader)
    else Ok(s.blocks + [Flush(s.header.value, s.pending)])
  }

  /** One turn of the loop over lines. */
  function Step(s: ScanState, raw: string): Result<ScanState, ParseError> {
    var line := Strip(raw);
    match KindOf(raw)
    case Blank => Ok(s)
    case FrameLine => Ok(s.(header := Some(Split(line, '\t'))))
    case TracksLine =>
      var blocks :- FlushPending(s);
      var range :- TracksRange(line);
      Ok(ScanState(Some(TracksHeader(range.0, range.1)), [], blocks))
    case DataLine => Ok(s.(pending := s.pending + [Split(line, '\t')]))
  }

  /** The loop over the lines of the file, from the first line on. */
  function ScanLines(lines: seq<string>): Result<ScanState, ParseError> {
    if lines == [] then Ok(Initial)
    else
      var s :- ScanLines(lines[..|lines| - 1]);
      Step(s, lines[|lines| - 1])
  }

  /** All blocks of the file, the last one flushed after the loop. */
  function Blocks(lines: seq<string>): Result<seq<Block>, ParseError> {
    var s :- ScanLines(lines);
    FlushPending(s)
  }

  /** The entries of `row` whose label is not `Frame`. */
  function KeepNonFrame(labels: seq<string>, row: seq<string>): seq<string>
  {
    if labels == [] || row == [] then []
    else (if labels[0] == "Frame" then [] else [row[0]]) + KeepNonFrame(labels[1..], row[1..])
  }

  /** `df.drop(columns=["Frame"])` for the block at position `k`. */
  function DropFrame(b: Block, k: nat): Result<Block, ParseError> {
    if "Frame" !in b.columns then Err(MissingFrameColumn(k))
    else Ok(Block(KeepNonFrame(b.columns, b.columns),
                  seq(|b.rows|, i requires 0 <= i < |b.rows| => KeepNonFrame(b.columns, b.rows[i]))))
  }

  /** `pd.merge(left, right, left_index=True, right_index=True)`: an inner join on row position. */
  function JoinByPosition(left: Block, right: Block): Block {
    var n := Min(|left.rows|, |right.rows|);
    Block(left.columns + right.columns,
          seq(n, i requires 0 <= i < n => left.rows[i] + right.rows[i]))
  }

  /** The combined block after the first `k` blocks have been joined. */
  function MergePrefix(blocks: seq<Block>, k: nat): Result<Block, ParseError>
    requires 1 <= k <= |blocks|
  {
    if k == 1 then Ok(blocks[0])
    else
      var acc :- MergePrefix(blocks, k - 1);
      var dropped :- DropFrame(blocks[k - 1], k - 1);
      Ok(JoinByPosition(acc, dropped))
  }

  /** `pd.to_numeric(errors='coerce')`, `fillna(0)`, `astype(int)` on one cell. */
  function CellValue(cell: string): int {
    match ParseInt(cell)
    case Some(v) => v
    case None => 0
  }

  function ToTable(b: Block): CoordTable {
    CoordTable(b.columns,
      seq(|b.rows|, i requires 0 <= i < |b.rows| =>
        seq(|b.rows[i]|, j requires 0 <= j < |b.rows[i]| => CellValue(b.rows[i][j]))))
  }

  /** The whole parse, from the lines of the file to the integer table. */
  function Parse(lines: seq<string>): Result<CoordTable, ParseError> {
    var blocks :- Blocks(lines);
    if blocks == [] then Err(NoBlocks)
    else
      var merged :- MergePrefix(blocks, |blocks|);
      Ok(ToTable(merged))
  }

  /** The loop of lines 109-111 that builds the header of a `Tracks` line. */
  method BuildTracksHeader(a: int, b: int) returns (h: seq<string>)
    ensures h == TracksHeader(a, b)
  {
    h := ["Frame"];
    var i := a;
    while i <= b
      invariant i == a || a <= i <= b + 1
      invariant h + Triplets(i, b) == TracksHeader(a, b)
      decreases b - i + 1
    {
      h := h + Triplet(i);
      i := i + 1;
    }
  }

  /** Once the scan has failed, later lines do not change the outcome. */
  lemma {:induction false} ScanErrorSticks(lines: seq<string>, i: nat)
    requires i <= |lines|
    requires ScanLines(lines[..i]).Err?
    ensures ScanLines(lines) == ScanLines(lines[..i])
    decreases |lines| - i
  {
    if i < |lines| {
      assert lines[..i + 1][..i] == lines[..i];
      ScanErrorSticks(lines, i + 1);
      assert lines[..|lines|] == lines;
    } else {
      assert lines[..i] == lines;
    }
  }

  /** Once the merge has failed, later blocks do not change the outcome. */
  lemma {:induction false} MergeErrorSticks(blocks: seq<Block>, k: nat)
    requires 1 <= k <= |blocks|
    requires MergePrefix(blocks, k).Err?
    ensures MergePrefix(blocks, |blocks|) == MergePrefix(blocks, k)
    decreases |blocks| - k
  {
    if k < |blocks| {
      MergeErrorSticks(blocks, k + 1);
    }
  }

  /** Closes the current block if it has rows (lines 99-103 and 117-120). */
  method CloseBlock(header: Option<seq<string>>, pending: seq<seq<string>>, blocks: seq<Block>)
    returns (r: Result<seq<Block>, ParseError>)
    ensures r == FlushPending(ScanState(header, pending, blocks))
  {
    if pending == [] {
      return Ok(blocks);
    }
    if header.None? {
      return Err(MissingHeader);
    }
    r := Ok(blocks + [Flush(header.value, pending)]);
  }

  /** The turn of the loop for a `Tracks` line: close the block, then install the new header. */
  method ScanTracksLine(header: Option<seq<string>>, pending: seq<seq<string>>, blocks: seq<Block>, raw: string)
    returns (r: Result<ScanState, ParseError>)
    requires KindOf(raw) == TracksLine
    ensures r == Step(ScanState(header, pending, blocks), raw)
  {
    var line := Strip(raw);
    var closed := CloseBlock(header, pending, blocks);
    if closed.Err? {
      return Err(closed.error);
    }
    var range := ReadTracksRange(line);
    if range.Err? {
      return Err(range.error);
    }
    var h := BuildTracksHeader(range.value.0, range.value.1);
    r := Ok(ScanState(Some(h), [], closed.value));
  }

  /** Lines 105-107: tokens 1 and 3 of a `Tracks` line, split at single spaces, as integers. */
  method ReadTracksRange(line: string) returns (r: Result<(int, int), ParseError>)
    ensures r == TracksRange(line)
  {
    var tokens := Split(line, ' ');
    if |tokens| < 4 || ParseInt(tokens[1]).None? || ParseInt(tokens[3]).None? {
      return Err(BadTracksLine(line));
    }
    r := Ok((ParseInt(tokens[1]).value, ParseInt(tokens[3]).value));
  }

  /** One turn of the loop over lines, on the loop's own variables. */
  method ScanLine(header: Option<seq<string>>, pending: seq<seq<string>>, blocks: seq<Block>, raw: string)
    returns (r: Result<ScanState, ParseError>)
    ensures r == Step(ScanState(header, pending, blocks), raw)
  {
    var line := Strip(raw);
    if line == [] {
      assert KindOf(raw) == Blank;
      r := Ok(ScanState(header, pending, blocks));
    } else if StartsWith(line, "Frame") {
      assert KindOf(raw) == FrameLine;
      r := Ok(ScanState(Some(Split(line, '\t')), pending, blocks));
    } else if StartsWith(line, "Tracks") {
      assert KindOf(raw) == TracksLine;
      r := ScanTracksLine(header, pending, blocks, raw);
    } else {
      assert KindOf(raw) == DataLine;
      r := Ok(ScanState(header, pending + [Split(line, '\t')], blocks));
    }
  }

  /** The loop over the lines of the coordinate file. */
  method ScanAll(lines: seq<string>) returns (r: Result<ScanState, ParseError>)
    ensures r == ScanLines(lines)
  {
    var header: Option<seq<string>> := None;
    var pending: seq<seq<string>> := [];
    var blocks: seq<Block> := [];
    var i := 0;
    while i < |lines|
      invariant 0 <= i <= |lines|
      invariant ScanLines(lines[..i]) == Ok(ScanState(header, pending, blocks))
    {
      assert lines[..i + 1][..i] == lines[..i];
      var next := ScanLine(header, pending, blocks, lines[i]);
      if next.Err? {
        ScanErrorSticks(lines, i + 1);
        return next;
      }
      header, pending, blocks := next.value.header, next.value.pending, next.value.blocks;
      i := i + 1;
    }
    assert lines[..i] == lines;
    r := Ok(ScanState(header, pending, blocks));
  }

  /** The merge loop: `combined_df = dataframes[0]`, then one join per later block. */
  method MergeAll(blocks: seq<Block>) returns (r: Result<Block, ParseError>)
    requires blocks != []
    ensures r == MergePrefix(blocks, |blocks|)
  {
    var combined := blocks[0];
    var k := 1;
    while k < |blocks|
      invariant 1 <= k <= |blocks|
      invariant MergePrefix(blocks, k) == Ok(combined)
    {
      var dropped := DropFrame(blocks[k], k);
      if dropped.Err? {
        MergeErrorSticks(blocks, k + 1);
        return Err(dropped.error);
      }
      combined := JoinByPosition(combined, dropped.value);
      k := k + 1;
    }
    r := Ok(combined);
  }

  /**
    The coordinate part of `load_current_video`: the loop over lines, the
    flush after it, the merge loop and the conversion to integers.
  */
  method ParseCoordinates(lines: seq<string>) returns (r: Result<CoordTable, ParseError>)
    ensures r == Parse(lines)
  {
    var scanned := ScanAll(lines);
    if scanned.Err? {
      return Err(scanned.error);
    }
    var s := scanned.value;
    var closed := CloseBlock(s.header, s.pending, s.blocks);
    if closed.Err? {
      return Err(closed.error);
    }
    var blocks := closed.value;
    if blocks == [] {
      return Err(NoBlocks);
    }
    var merged := MergeAll(blocks);
    if merged.Err? {
      return Err(merged.error);
    }
    r := Ok(ToTable(merged.value));
  }
}
