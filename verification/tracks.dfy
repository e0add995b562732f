/**
  The track table of `TrackProcessor` and what combining and deleting tracks
  do to it.

  The table (`process_df`) maps each integer track id to a row of numeric
  fields (`#Frames`, `1stFrame`, `time(s)`, `Bends`, `BBPS`, ...), all of the
  same width. Combining relabels the listed ids to the first one and sums
  the rows that then share a label (`groupby('Track').sum()`); deleting drops
  the listed ids.
*/
module Tracks {
  import opened Wrappers
  import opened Text

  type Row = seq<int>
  type Table = map<int, Row>

  /** Every row of the table has `width` fields. */
  predicate WellFormed(t: Table, width: nat) {
    forall k :: k in t ==> |t[k]| == width
  }

  function Zero(width: nat): Row {
    seq(width, _ => 0)
  }

  /** Field-by-field sum of two rows. */
  function Add(a: Row, b: Row): Row
    requires |a| == |b|
  {
    seq(|a|, c requires 0 <= c < |a| => a[c] + b[c])
  }

  /** The rows of `t` whose ids are in `ids`. */
  function Restrict(t: Table, ids: set<int>): Table {
    map k | k in t && k in ids :: t[k]
  }

  lemma RestrictKeys(t: Table, ids: set<int>)
    ensures Restrict(t, ids).Keys == t.Keys * ids
  {
  }

  /** The column totals of a table: the field-by-field sum of all its rows. */
  ghost function Total(t: Table, width: nat): (r: Row)
    requires WellFormed(t, width)
    ensures |r| == width
    decreases |t.Keys|
  {
    if t.Keys == {} then Zero(width)
    else
      NonEmptyHasElement(t.Keys);
      var k :| k in t.Keys;
      assert (t - {k}).Keys == t.Keys - {k};
      Add(t[k], Total(t - {k}, width))
  }

  lemma NonEmptyHasElement(s: set<int>)
    requires s != {}
    ensures exists x :: x in s
  {
    if forall x :: x !in s {
      assert false;
    }
  }

  /** The set of ids listed. */
  function Listed(ids: seq<int>): set<int> {
    set x | x in ids
  }

  /**
    The table after combining `ids`: the listed ids that are present are
    replaced by one row under the first id holding the sum of their rows;
    when none is present the table is unchanged.
  */
  ghost function CombineSpec(t: Table, width: nat, ids: seq<int>): Table
    requires WellFormed(t, width) && |ids| >= 1
  {
    var group := Restrict(t, Listed(ids));
    if group == map[] then t
    else (t - Listed(ids))[ids[0] := Total(group, width)]
  }

  /** `process_df.drop(ids)`: the table without the listed ids, or `None` (`KeyError`) if one is absent. */
  function DeleteSpec(t: Table, ids: seq<int>): Option<Table> {
    if forall i :: 0 <= i < |ids| ==> ids[i] in t then Some(t - Listed(ids))
    else None
  }

  predicate AllInts(parts: seq<string>) {
    forall i :: 0 <= i < |parts| ==> ParseInt(parts[i]).Some?
  }

  /** `list(map(int, entry.split(",")))`, with `None` for the `ValueError`. */
  function ParseIdList(entry: string): Option<seq<int>> {
    var parts := Split(entry, ',');
    if AllInts(parts) then
      Some(seq(|parts|, i requires 0 <= i < |parts| => ParseInt(parts[i]).value))
    else None
  }

  /** `map(str, ids)`. */
  function IdStrings(ids: seq<int>): seq<string> {
    seq(|ids|, i requires 0 <= i < |ids| => IntToString(ids[i]))
  }

  function CombineLogLine(ids: seq<int>): string
    requires |ids| >= 1
  {
    "Tracks " + Join(IdStrings(ids), ", ") + " combined to Track " + IntToString(ids[0]) + "!"
  }

  function DeleteLogLine(ids: seq<int>): string {
    "Track(s) " + Join(IdStrings(ids), ", ") + " deleted!"
  }

  const UndoLogLine: string := "Last step undone."

  /** `str` of the ids in the log examples below. */
  lemma ExampleIdStrings()
    ensures IntToString(3) == "3" && IntToString(7) == "7"
    ensures IntToString(12) == "12" && IntToString(-40) == "-40"
  {
    assert NatToString(12) == NatToString(1) + [DigitChar(2)];
    assert NatToString(40) == NatToString(4) + [DigitChar(0)];
  }

  /** `map(str, ids)` of the id lists in the log examples below. */
  lemma ExampleIdLists()
    ensures IdStrings([3, 12]) == ["3", "12"]
    ensures IdStrings([7, -40]) == ["7", "-40"]
  {
    ExampleIdStrings();
    assert IdStrings([3, 12])[1] == IntToString(12);
    assert IdStrings([7, -40])[1] == IntToString(-40);
  }

  /** The combine log line, written out for the entry `3,12`. */
  lemma CombineLogLineExample()
    ensures CombineLogLine([3, 12]) == "Tracks 3, 12 combined to Track 3!"
  {
    ExampleIdStrings();
    ExampleIdLists();
    assert Join(["3", "12"], ", ") == "3, 12";
  }

  /** The delete log line, written out for the entry `7,-40`. */
  lemma DeleteLogLineExample()
    ensures DeleteLogLine([7, -40]) == "Track(s) 7, -40 deleted!"
  {
    ExampleIdStrings();
    ExampleIdLists();
    assert Join(["7", "-40"], ", ") == "7, -40";
  }

  // ---------------------------------------------------------------------
  // The rename loop and `groupby('Track').sum()`
  // ---------------------------------------------------------------------

  /**
    A table whose index may repeat, as the rename loop makes it: each label
    holds the rows that currently carry it (their order is not kept).
  */
  type Labelled = map<int, seq<Row>>

  /** Every row of `t` under its own label. */
  function Singletons(t: Table): Labelled {
    map k | k in t :: [t[k]]
  }

  /** `df.rename(index={from: to})`: the rows labelled `from` take the label `to`. */
  function Rename(m: Labelled, from: int, to: int): Labelled {
    if from == to || from !in m then m
    else (m - {from})[to := (if to in m then m[to] else []) + m[from]]
  }

  predicate RowsWidth(rows: seq<Row>, width: nat) {
    forall j :: 0 <= j < |rows| ==> |rows[j]| == width
  }

  /** The field-by-field sum of a list of rows. */
  function SumRows(rows: seq<Row>, width: nat): (r: Row)
    requires RowsWidth(rows, width)
    ensures |r| == width
  {
    if rows == [] then Zero(width)
    else Add(SumRows(rows[..|rows| - 1], width), rows[|rows| - 1])
  }

  /** `groupby('Track').sum()`: one row per label, the sum of the rows carrying it. */
  function GroupSum(m: Labelled, width: nat): Table
    requires forall k :: k in m ==> RowsWidth(m[k], width)
  {
    map k | k in m :: SumRows(m[k], width)
  }

  /** The ids whose rows sit under the first id after `i` turns of the rename loop. */
  function Absorbed(ids: seq<int>, i: nat): set<int>
    requires 1 <= |ids| && i <= |ids|
  {
    Listed(ids[..i]) + {ids[0]}
  }

  /**
    The state of the rename loop after `i` turns: every row not yet absorbed
    keeps its own label, and the rows under the first id sum to the rows of
    the absorbed ids.
  */
  ghost predicate RenameInvariant(t: Table, width: nat, ids: seq<int>, i: nat, m: Labelled)
    requires WellFormed(t, width) && 1 <= |ids| && i <= |ids|
  {
    var done := Absorbed(ids, i);
    var first := ids[0];
    && (forall k :: k in m ==> k == first || (k in t && k !in done))
    && (forall k :: k in t && k !in done ==> k in m && m[k] == [t[k]])
    && (first in m <==> Restrict(t, done) != map[])
    && (first in m ==> RowsWidth(m[first], width) && SumRows(m[first], width) == Total(Restrict(t, done), width))
  }

  // ---------------------------------------------------------------------
  // Lemmas about row sums
  // ---------------------------------------------------------------------

  lemma AddZero(a: Row)
    ensures Add(a, Zero(|a|)) == a && Add(Zero(|a|), a) == a
  {
  }

  lemma AddComm(a: Row, b: Row)
    requires |a| == |b|
    ensures Add(a, b) == Add(b, a)
  {
  }

  lemma AddAssoc(a: Row, b: Row, c: Row)
    requires |a| == |b| == |c|
    ensures Add(Add(a, b), c) == Add(a, Add(b, c))
  {
  }

  /** The total of a table is the row of any one id plus the total of the others. */
  lemma {:induction false} TotalRemove(t: Table, width: nat, k: int)
    requires WellFormed(t, width) && k in t
    ensures Total(t, width) == Add(t[k], Total(t - {k}, width))
    decreases |t.Keys|
  {
    var j :| j in t.Keys && Total(t, width) == Add(t[j], Total(t - {j}, width));
    if j != k {
      assert (t - {j}).Keys == t.Keys - {j};
      assert (t - {k}).Keys == t.Keys - {k};
      TotalRemove(t - {j}, width, k);
      TotalRemove(t - {k}, width, j);
      assert t - {j} - {k} == t - {k} - {j};
      var rest := Total(t - {j} - {k}, width);
      AddAssoc(t[j], t[k], rest);
      AddAssoc(t[k], t[j], rest);
      AddComm(t[j], t[k]);
    }
  }

  lemma TotalEmpty(t: Table, width: nat)
    requires WellFormed(t, width) && t == map[]
    ensures Total(t, width) == Zero(width)
  {
    assert t.Keys == {};
  }

  lemma TotalSingleton(k: int, r: Row)
    ensures Total(map[k := r], |r|) == r
  {
    var t := map[k := r];
    TotalRemove(t, |r|, k);
    assert t - {k} == map[];
    TotalEmpty(t - {k}, |r|);
    AddZero(r);
  }

  /** Splitting a table by an id set splits its column totals. */
  lemma {:induction false} TotalSplit(t: Table, width: nat, s: set<int>)
    requires WellFormed(t, width)
    ensures Total(t, width) == Add(Total(Restrict(t, s), width), Total(t - s, width))
    decreases |t.Keys|
  {
    if t.Keys == {} {
      assert t == map[];
      assert Restrict(t, s) == map[];
      assert t - s == map[];
      TotalEmpty(t, width);
      AddZero(Zero(width));
    } else {
      NonEmptyHasElement(t.Keys);
      var k :| k in t.Keys;
      var t' := t - {k};
      assert t'.Keys == t.Keys - {k};
      TotalSplit(t', width, s);
      if k in s {
        TotalSplitIn(t, width, s, k);
      } else {
        TotalSplitOut(t, width, s, k);
      }
    }
  }

  lemma TotalSplitIn(t: Table, width: nat, s: set<int>, k: int)
    requires WellFormed(t, width) && k in t && k in s
    requires Total(t - {k}, width) == Add(Total(Restrict(t - {k}, s), width), Total(t - {k} - s, width))
    ensures Total(t, width) == Add(Total(Restrict(t, s), width), Total(t - s, width))
  {
    var t' := t - {k};
    var a, b := Total(Restrict(t', s), width), Total(t' - s, width);
    TotalRemove(t, width, k);
    assert Restrict(t, s) - {k} == Restrict(t', s);
    assert t - s == t' - s;
    TotalRemove(Restrict(t, s), width, k);
    AddAssoc(t[k], a, b);
  }

  lemma TotalSplitOut(t: Table, width: nat, s: set<int>, k: int)
    requires WellFormed(t, width) && k in t && k !in s
    requires Total(t - {k}, width) == Add(Total(Restrict(t - {k}, s), width), Total(t - {k} - s, width))
    ensures Total(t, width) == Add(Total(Restrict(t, s), width), Total(t - s, width))
  {
    var t' := t - {k};
    var a, b := Total(Restrict(t', s), width), Total(t' - s, width);
    TotalRemove(t, width, k);
    assert (t - s) - {k} == t' - s;
    assert Restrict(t, s) == Restrict(t', s);
    TotalRemove(t - s, width, k);
    AddAssoc(t[k], a, b);
    AddAssoc(a, t[k], b);
    AddComm(a, t[k]);
  }

  lemma SumRowsSnoc(rows: seq<Row>, r: Row, width: nat)
    requires RowsWidth(rows, width) && |r| == width
    ensures RowsWidth(rows + [r], width)
    ensures SumRows(rows + [r], width) == Add(SumRows(rows, width), r)
  {
    assert (rows + [r])[..|rows|] == rows;
  }

  lemma SumRowsSingle(r: Row)
    ensures SumRows([r], |r|) == r
  {
    assert [r][..0] == [];
    AddZero(r);
  }

  // ---------------------------------------------------------------------
  // The rename loop computes CombineSpec
  // ---------------------------------------------------------------------

  lemma RenameStart(t: Table, width: nat, ids: seq<int>)
    requires WellFormed(t, width) && |ids| >= 1
    ensures RenameInvariant(t, width, ids, 0, Singletons(t))
  {
    var first := ids[0];
    var done := Absorbed(ids, 0);
    assert done == {first};
    var m := Singletons(t);
    if first in t {
      assert Restrict(t, done) == map[first := t[first]];
      assert Restrict(t, done) != map[] by {
        assert first in Restrict(t, done);
      }
      TotalSingleton(first, t[first]);
      SumRowsSingle(t[first]);
    } else {
      assert Restrict(t, done) == map[];
    }
  }

  /** One turn of the rename loop keeps its invariant. */
  lemma RenameStep(t: Table, width: nat, ids: seq<int>, i: nat, m: Labelled)
    requires WellFormed(t, width) && 1 <= |ids| && i < |ids|
    requires RenameInvariant(t, width, ids, i, m)
    ensures RenameInvariant(t, width, ids, i + 1, Rename(m, ids[i], ids[0]))
  {
    var x, first := ids[i], ids[0];
    var done, done' := Absorbed(ids, i), Absorbed(ids, i + 1);
    assert ids[..i + 1] == ids[..i] + [x];
    assert done' == done + {x};
    var m' := Rename(m, x, first);
    if x in done || x !in t {
      assert x != first ==> x !in m;
      assert m' == m;
      assert Restrict(t, done') == Restrict(t, done);
    } else {
      assert x != first && x in m && m[x] == [t[x]];
      var r := Restrict(t, done);
      var r' := Restrict(t, done');
      assert r' - {x} == r;
      assert x in r';
      TotalRemove(r', width, x);
      var old_rows := if first in m then m[first] else [];
      assert m'[first] == old_rows + [t[x]];
      SumRowsSnoc(old_rows, t[x], width);
      if first in m {
        AddComm(SumRows(old_rows, width), t[x]);
      } else {
        TotalEmpty(r, width);
        assert old_rows == [];
        AddZero(t[x]);
      }
    }
  }

  /** After the whole rename loop, `groupby('Track').sum()` gives `CombineSpec`. */
  lemma RenameFinish(t: Table, width: nat, ids: seq<int>, m: Labelled)
    requires WellFormed(t, width) && 1 <= |ids|
    requires RenameInvariant(t, width, ids, |ids|, m)
    ensures forall k :: k in m ==> RowsWidth(m[k], width)
    ensures GroupSum(m, width) == CombineSpec(t, width, ids)
  {
    var first := ids[0];
    assert ids[..|ids|] == ids;
    assert Absorbed(ids, |ids|) == Listed(ids);
    var g := GroupSum(m, width);
    var c := CombineSpec(t, width, ids);
    forall k | k in m && k != first ensures SumRows(m[k], width) == t[k] {
      SumRowsSingle(t[k]);
    }
    if Restrict(t, Listed(ids)) == map[] {
      forall k | k in t ensures k !in Listed(ids) {
        assert k in Listed(ids) ==> k in Restrict(t, Listed(ids));
      }
      assert c == t;
      assert forall k :: k in g <==> k in t;
    } else {
      assert c == (t - Listed(ids))[first := Total(Restrict(t, Listed(ids)), width)];
      forall k ensures k in g <==> k in c {
        if k == first {
          assert first in m;
        }
      }
    }
    forall k | k in g ensures g[k] == c[k] {
    }
  }

  // ---------------------------------------------------------------------
  // What combining promises
  // ---------------------------------------------------------------------

  /**
    The ids after a combine: the old ids minus the listed ones, plus the
    first listed id when at least one listed id was present; the rows of
    unlisted ids are untouched.
  */
  lemma CombineKeys(t: Table, width: nat, ids: seq<int>)
    requires WellFormed(t, width) && |ids| >= 1
    ensures CombineSpec(t, width, ids).Keys ==
      (t.Keys - Listed(ids)) + (if t.Keys * Listed(ids) != {} then {ids[0]} else {})
    ensures forall k :: k in t && k !in Listed(ids) ==> k in CombineSpec(t, width, ids) && CombineSpec(t, width, ids)[k] == t[k]
  {
    var group := Restrict(t, Listed(ids));
    RestrictKeys(t, Listed(ids));
    if t.Keys * Listed(ids) != {} {
      NonEmptyHasElement(t.Keys * Listed(ids));
      var k :| k in t.Keys * Listed(ids);
      assert k in group.Keys;
    } else {
      assert group.Keys == {};
    }
  }

  /** Combining keeps every column total of the table. */
  lemma CombinePreservesTotals(t: Table, width: nat, ids: seq<int>)
    requires WellFormed(t, width) && |ids| >= 1
    ensures WellFormed(CombineSpec(t, width, ids), width)
    ensures Total(CombineSpec(t, width, ids), width) == Total(t, width)
  {
    var s := Listed(ids);
    var group := Restrict(t, s);
    if group != map[] {
      var c := CombineSpec(t, width, ids);
      assert ids[0] in s;
      assert c - {ids[0]} == t - s;
      TotalRemove(c, width, ids[0]);
      TotalSplit(t, width, s);
    }
  }

  /** An absent id listed anywhere but first contributes nothing. */
  lemma CombineIgnoresMissing(t: Table, width: nat, ids: seq<int>, x: int, p: nat)
    requires WellFormed(t, width) && 1 <= p <= |ids| && x !in t
    ensures CombineSpec(t, width, ids[..p] + [x] + ids[p..]) == CombineSpec(t, width, ids)
  {
    var ids' := ids[..p] + [x] + ids[p..];
    assert ids'[0] == ids[0];
    assert Listed(ids') == Listed(ids) + {x} by {
      assert ids == ids[..p] + ids[p..];
      forall y | y in ids' ensures y in ids || y == x {
        var k :| 0 <= k < |ids'| && ids'[k] == y;
        if k < p {
          assert y == ids[k];
        } else if k > p {
          assert y == ids[k - 1];
        }
      }
      forall y | y in ids ensures y in ids' {
        var k :| 0 <= k < |ids| && ids[k] == y;
        if k < p {
          assert ids'[k] == y;
        } else {
          assert ids'[k + 1] == y;
        }
      }
    }
    assert Restrict(t, Listed(ids')) == Restrict(t, Listed(ids));
    assert t - Listed(ids') == t - Listed(ids);
  }

  /** Combining a single id changes nothing. */
  lemma CombineSingle(t: Table, width: nat, k: int)
    requires WellFormed(t, width)
    ensures CombineSpec(t, width, [k]) == t
  {
    assert Listed([k]) == {k};
    if k in t {
      assert Restrict(t, {k}) == map[k := t[k]];
      TotalSingleton(k, t[k]);
      assert (t - {k})[k := t[k]] == t;
    } else {
      assert Restrict(t, {k}) == map[];
    }
  }

  /** Combining the same ids a second time changes nothing more. */
  lemma CombineIdempotent(t: Table, width: nat, ids: seq<int>)
    requires WellFormed(t, width) && |ids| >= 1
    ensures WellFormed(CombineSpec(t, width, ids), width)
    ensures CombineSpec(CombineSpec(t, width, ids), width, ids) == CombineSpec(t, width, ids)
  {
    var s := Listed(ids);
    var group := Restrict(t, s);
    if group != map[] {
      var c := CombineSpec(t, width, ids);
      var total := Total(group, width);
      assert ids[0] in s;
      assert Restrict(c, s) == map[ids[0] := total];
      TotalSingleton(ids[0], total);
      assert (c - s)[ids[0] := total] == c;
    }
  }

  /** Combining two present tracks `[a, b]` leaves one row under `a` holding the sum of both. */
  lemma CombinePair(t: Table, width: nat, a: int, b: int)
    requires WellFormed(t, width) && a in t && b in t && a != b
    ensures CombineSpec(t, width, [a, b]) == (t - {b})[a := Add(t[a], t[b])]
  {
    var s := Listed([a, b]);
    assert s == {a, b};
    var group := Restrict(t, s);
    assert group == map[a := t[a], b := t[b]];
    assert a in group;
    TotalRemove(group, width, a);
    assert group - {a} == map[b := t[b]];
    TotalSingleton(b, t[b]);
    assert (t - s)[a := Add(t[a], t[b])] == (t - {b})[a := Add(t[a], t[b])];
  }

  /** The worked example: tracks 1 and 2 (frames, time, bends) combined to track 1. */
  lemma CombineExample()
    ensures CombineSpec(map[1 := [10, 5, 20], 2 := [8, 4, 10]], 3, [1, 2]) == map[1 := [18, 9, 30]]
  {
    var t: Table := map[1 := [10, 5, 20], 2 := [8, 4, 10]];
    CombinePair(t, 3, 1, 2);
    assert Add(t[1], t[2]) == [18, 9, 30];
    assert (t - {2})[1 := [18, 9, 30]] == map[1 := [18, 9, 30]];
  }

  // ---------------------------------------------------------------------
  // What deleting promises
  // ---------------------------------------------------------------------

  /**
    Deleting succeeds exactly when every listed id is present; it then
    removes exactly the listed ids, keeps every other row, and the column
    totals drop by the totals of the removed rows.
  */
  lemma DeleteRemovesExactly(t: Table, width: nat, ids: seq<int>)
    requires WellFormed(t, width)
    ensures DeleteSpec(t, ids).Some? <==> Listed(ids) <= t.Keys
    ensures DeleteSpec(t, ids).Some? ==>
      var r := DeleteSpec(t, ids).value;
      && r.Keys == t.Keys - Listed(ids)
      && (forall k :: k in r ==> r[k] == t[k])
      && WellFormed(r, width)
      && Total(t, width) == Add(Total(Restrict(t, Listed(ids)), width), Total(r, width))
  {
    if forall i :: 0 <= i < |ids| ==> ids[i] in t {
      assert Listed(ids) <= t.Keys;
      TotalSplit(t, width, Listed(ids));
    } else {
      var i :| 0 <= i < |ids| && ids[i] !in t;
      assert ids[i] in Listed(ids);
    }
  }

  // ---------------------------------------------------------------------
  // The id entry field
  // ---------------------------------------------------------------------

  lemma IntStringNoComma(i: int)
    ensures ',' !in IntToString(i)
  {
    var s := IntToString(i);
    var d := NatToString(if i < 0 then -i else i);
    assert forall k :: 0 <= k < |d| ==> IsDigit(d[k]);
    if i < 0 {
      assert s == "-" + d;
      assert forall k :: 0 <= k < |s| ==> s[k] == '-' || IsDigit(s[k]) by {
        forall k | 0 <= k < |s| ensures s[k] == '-' || IsDigit(s[k]) {
          if k > 0 {
            assert s[k] == d[k - 1];
          }
        }
      }
    }
  }

  lemma SplitJoinedIds(ids: seq<int>)
    ensures |ids| >= 1 ==> Split(Join(IdStrings(ids), [',']), ',') == IdStrings(ids)
  {
    var parts := IdStrings(ids);
    forall i | 0 <= i < |parts| ensures ',' !in parts[i] {
      IntStringNoComma(ids[i]);
    }
    if |ids| >= 1 {
      SplitJoin(parts, ',');
    }
  }

  /** Reading back a comma-joined list of ids gives the ids. */
  lemma ParseIdListRoundTrip(ids: seq<int>)
    requires |ids| >= 1
    ensures ParseIdList(Join(IdStrings(ids), [','])) == Some(ids)
  {
    var parts := IdStrings(ids);
    forall i | 0 <= i < |parts| ensures ',' !in parts[i] && ParseInt(parts[i]) == Some(ids[i]) {
      IntStringNoComma(ids[i]);
      ParseIntToString(ids[i]);
    }
    ParsePieces(parts, ids);
  }

  /**
    The ids as the log lines write them, joined by `", "`, read back as the
    same ids: `int()` skips the space after each comma.
  */
  lemma ParseIdListSpaced(ids: seq<int>)
    requires |ids| >= 1
    ensures ParseIdList(Join(IdStrings(ids), ", ")) == Some(ids)
  {
    var parts := IdStrings(ids);
    JoinSpaced(parts);
    SpacedPiecesParse(ids);
    ParsePieces(Spaced(parts), ids);
  }

  /** Comma-free pieces that each read as the id at their place read back, joined by commas, as those ids. */
  lemma {:induction false} ParsePieces(pieces: seq<string>, ids: seq<int>)
    requires |pieces| == |ids| >= 1
    requires forall i :: 0 <= i < |pieces| ==> ',' !in pieces[i] && ParseInt(pieces[i]) == Some(ids[i])
    ensures ParseIdList(Join(pieces, [','])) == Some(ids)
  {
    SplitJoin(pieces, ',');
    var entry := Join(pieces, [',']);
    assert Split(entry, ',') == pieces;
    assert AllInts(pieces);
    var v := ParseIdList(entry).value;
    forall i | 0 <= i < |ids| ensures v[i] == ids[i] {
      assert v[i] == ParseInt(pieces[i]).value;
    }
    assert v == ids;
  }

  /** The pieces of a `", "`-joined list split at the commas: every piece but the first keeps its space. */
  function Spaced(parts: seq<string>): seq<string>
    requires |parts| >= 1
  {
    [parts[0]] + seq(|parts| - 1, k requires 0 <= k < |parts| - 1 => " " + parts[k + 1])
  }

  lemma {:induction false} SpacedPiecesParse(ids: seq<int>)
    requires |ids| >= 1
    ensures |Spaced(IdStrings(ids))| == |ids|
    ensures forall i :: 0 <= i < |ids| ==>
      ',' !in Spaced(IdStrings(ids))[i] && ParseInt(Spaced(IdStrings(ids))[i]) == Some(ids[i])
  {
    var pieces := Spaced(IdStrings(ids));
    forall i | 0 <= i < |ids| ensures ',' !in pieces[i] && ParseInt(pieces[i]) == Some(ids[i]) {
      SpacedPieceParses(ids, i);
    }
  }

  lemma SpacedPieceParses(ids: seq<int>, i: nat)
    requires i < |ids|
    ensures |Spaced(IdStrings(ids))| == |ids|
    ensures ',' !in Spaced(IdStrings(ids))[i] && ParseInt(Spaced(IdStrings(ids))[i]) == Some(ids[i])
  {
    var x := IntToString(ids[i]);
    var piece := Spaced(IdStrings(ids))[i];
    IntStringNoComma(ids[i]);
    if i == 0 {
      assert piece == x;
      ParseIntToString(ids[i]);
    } else {
      assert piece == " " + x;
      ParseIntSpaced(ids[i]);
    }
  }

  lemma {:induction false} JoinSpaced(parts: seq<string>)
    requires |parts| >= 1
    ensures Join(parts, ", ") == Join(Spaced(parts), [','])
    decreases |parts|
  {
    if |parts| > 1 {
      var rest := parts[1..];
      JoinSpaced(rest);
      SpacedTail(parts);
      var restPieces := Spaced(rest);
      JoinPrefixed(restPieces, " ");
      var joined := Join(restPieces, [',']);
      assert Join(parts, ", ") == parts[0] + ", " + joined;
      assert Join(Spaced(parts), [',']) == parts[0] + [','] + (" " + joined);
    }
  }

  lemma {:induction false} SpacedTail(parts: seq<string>)
    requires |parts| > 1
    ensures Spaced(parts)[0] == parts[0]
    ensures Spaced(parts)[1..] == [" " + Spaced(parts[1..])[0]] + Spaced(parts[1..])[1..]
  {
    var rest := parts[1..];
    var tail := Spaced(parts)[1..];
    var restPieces := Spaced(rest);
    var shifted := [" " + restPieces[0]] + restPieces[1..];
    assert |tail| == |shifted| == |parts| - 1;
    forall k | 0 <= k < |tail| ensures tail[k] == shifted[k] {
      assert tail[k] == " " + parts[k + 1];
      if k > 0 {
        assert shifted[k] == restPieces[k] == " " + rest[k];
      }
    }
  }

  /** Putting text before the first piece puts it before the whole join. */
  lemma {:induction false} JoinPrefixed(parts: seq<string>, p: string)
    requires |parts| >= 1
    ensures Join([p + parts[0]] + parts[1..], [',']) == p + Join(parts, [','])
  {
    var q := [p + parts[0]] + parts[1..];
    assert |q| == |parts| && q[0] == p + parts[0];
    if |parts| > 1 {
      assert q[1..] == parts[1..];
      var rest := Join(parts[1..], [',']);
      assert Join(q, [',']) == (p + parts[0]) + [','] + rest;
      assert Join(parts, [',']) == parts[0] + [','] + rest;
    }
  }
}
