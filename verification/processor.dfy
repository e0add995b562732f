/**
  The track reconciliation engine of `TrackProcessor`: the in-memory table
  `process_df`, the undo file `<base>_tracks.txt.temp_undo.xlsx`, the working
  checkpoint `<base>_tracks.txt.temp.xlsx` and the log
  `tracks_processed/<base>_log.txt`, all for the video being curated. The two
  spreadsheet files are fields holding the table they contain (`None` while
  the file does not exist); the log is the list of its lines.
*/
module TrackEngine {
  import opened Wrappers
  import opened Tracks
  import Coordinates

  /** What an operation reports to the reviewer. */
  datatype Outcome =
    | Done
    | NoTrackData                             // "Please load a track first."
    | InvalidInput                            // the entry is not a comma-separated list of integers
    | TrackNotFound                           // `KeyError` from `drop`
    | FileMissing                             // `FileNotFoundError` while loading
    | LoadFailed(error: Coordinates.ParseError) // the coordinate file could not be rebuilt

  /**
    The body of `combine_tracks` on the table: every row whose id is listed
    is relabelled to the first listed id, one id at a time, and the rows that
    then share a label are summed column by column (`groupby('Track').sum()`).
    Listed ids that are not in the table are passed over.
  */
  method CombineRows(t: Table, width: nat, ids: seq<int>) returns (r: Table)
    requires WellFormed(t, width) && |ids| >= 1
    ensures r == CombineSpec(t, width, ids)
    ensures WellFormed(r, width)
  {
    var first := ids[0];
    var labelled := Singletons(t);
    RenameStart(t, width, ids);
    var i := 0;
    while i < |ids|
      invariant 0 <= i <= |ids|
      invariant RenameInvariant(t, width, ids, i, labelled)
    {
      RenameStep(t, width, ids, i, labelled);
      labelled := Rename(labelled, ids[i], first);
      i := i + 1;
    }
    assert i == |ids|;
    RenameFinish(t, width, ids, labelled);
    CombinePreservesTotals(t, width, ids);
    r := GroupSum(labelled, width);
  }

  class TrackProcessor {
    /** The number of numeric fields of every track row. */
    const width: nat
    /** `process_df`; `None` until a video has been loaded. */
    var table: Option<Table>
    /** `coords_df`, the rebuilt coordinate table. */
    var coords: Option<Coordinates.CoordTable>
    /** The undo file. */
    var undo: Option<Table>
    /** The working checkpoint file. */
    var checkpoint: Option<Table>
    /** The lines of the log file. */
    var log: seq<string>

    ghost predicate Valid()
      reads this
    {
      && (table.Some? ==> WellFormed(table.value, width) && undo.Some?)
      && (undo.Some? ==> WellFormed(undo.value, width))
      && (checkpoint.Some? ==> WellFormed(checkpoint.value, width))
    }

    /** The engine before any video is loaded, over the files already on disk. */
    constructor (width: nat, checkpoint: Option<Table>, undo: Option<Table>, log: seq<string>)
      requires checkpoint.Some? ==> WellFormed(checkpoint.value, width)
      requires undo.Some? ==> WellFormed(undo.value, width)
      ensures Valid()
      ensures this.width == width && table == None && coords == None
      ensures this.checkpoint == checkpoint && this.undo == undo && this.log == log
    {
      this.width := width;
      table := None;
      coords := None;
      this.undo := undo;
      this.checkpoint := checkpoint;
      this.log := log;
    }

    /**
      The loading part of `load_current_video`: rebuild the coordinate table;
      take the track table from the working checkpoint if there is one, else
      from the track-summary file; write it to the undo file. `None` stands
      for a track-summary or coordinate file that does not exist. When either
      is missing, or the coordinate file cannot be rebuilt, nothing is loaded.
    */
    method Load(source: Option<Table>, coordLines: Option<seq<string>>) returns (outcome: Outcome)
      requires Valid() && (source.Some? ==> WellFormed(source.value, width))
      modifies this
      ensures Valid()
      ensures (source.None? || coordLines.None?) ==> outcome == FileMissing && unchanged(this)
      ensures source.Some? && coordLines.Some? && Coordinates.Parse(coordLines.value).Err? ==>
        outcome == LoadFailed(Coordinates.Parse(coordLines.value).error) && unchanged(this)
      ensures source.Some? && coordLines.Some? && Coordinates.Parse(coordLines.value).Ok? ==>
        && outcome == Done
        && coords == Some(Coordinates.Parse(coordLines.value).value)
        && table == Some(if old(checkpoint).Some? then old(checkpoint).value else source.value)
        && undo == table
        && checkpoint == old(checkpoint) && log == old(log)
    {
      if source.None? || coordLines.None? {
        return FileMissing;
      }
      var parsed := Coordinates.ParseCoordinates(coordLines.value);
      if parsed.Err? {
        return LoadFailed(parsed.error);
      }
      coords := Some(parsed.value);
      table := if checkpoint.Some? then checkpoint else source;
      undo := table;
      outcome := Done;
    }

    /**
      `combine_tracks`: parse the entry, write the undo file, relabel every
      listed id to the first one, sum the rows sharing a label, write the
      working checkpoint and log the combination. A malformed entry changes
      nothing.
    */
    method Combine(entry: string) returns (outcome: Outcome)
      requires Valid()
      modifies this
      ensures Valid()
      ensures old(table).None? ==> outcome == NoTrackData && unchanged(this)
      ensures old(table).Some? && ParseIdList(entry).None? ==> outcome == InvalidInput && unchanged(this)
      ensures old(table).Some? && ParseIdList(entry).Some? ==>
        var ids := ParseIdList(entry).value;
        && outcome == Done
        && undo == old(table)
        && table == Some(CombineSpec(old(table).value, width, ids))
        && checkpoint == table
        && log == old(log) + [CombineLogLine(ids)]
        && coords == old(coords)
    {
      if table.None? {
        return NoTrackData;
      }
      var parsed := ParseIdList(entry);
      if parsed.None? {
        return InvalidInput;
      }
      var ids := parsed.value;
      var combined := CombineRows(table.value, width, ids);
      Commit(table.value, combined, CombineLogLine(ids));
      outcome := Done;
    }

    /**
      A successful edit: the table before it goes to the undo file, the new
      table to the working checkpoint, and one line to the log.
    */
    method Commit(before: Table, after: Table, line: string)
      requires Valid() && WellFormed(before, width) && WellFormed(after, width)
      modifies this
      ensures Valid()
      ensures undo == Some(before) && table == Some(after) && checkpoint == Some(after)
      ensures log == old(log) + [line] && coords == old(coords)
    {
      undo := Some(before);
      table := Some(after);
      checkpoint := table;
      log := log + [line];
    }

    /**
      `delete_tracks`: parse the entry, write the undo file, drop the listed
      ids, write the working checkpoint and log the deletion. If a listed id
      is missing the table, the checkpoint and the log stay as they were,
      but the undo file has already been overwritten.
    */
    method Delete(entry: string) returns (outcome: Outcome)
      requires Valid()
      modifies this
      ensures Valid()
      ensures old(table).None? ==> outcome == NoTrackData && unchanged(this)
      ensures old(table).Some? && ParseIdList(entry).None? ==> outcome == InvalidInput && unchanged(this)
      ensures old(table).Some? && ParseIdList(entry).Some? ==>
        var ids := ParseIdList(entry).value;
        && undo == old(table)
        && coords == old(coords)
        && match DeleteSpec(old(table).value, ids)
           case None =>
             outcome == TrackNotFound && table == old(table) && checkpoint == old(checkpoint) && log == old(log)
           case Some(rest) =>
             outcome == Done && table == Some(rest) && checkpoint == Some(rest)
             && log == old(log) + [DeleteLogLine(ids)]
    {
      if table.None? {
        return NoTrackData;
      }
      var parsed := ParseIdList(entry);
      if parsed.None? {
        return InvalidInput;
      }
      var ids := parsed.value;
      var dropped := DeleteSpec(table.value, ids);
      if dropped.None? {
        undo := table;
        return TrackNotFound;
      }
      DeleteRemovesExactly(table.value, width, ids);
      Commit(table.value, dropped.value, DeleteLogLine(ids));
      outcome := Done;
    }

    /**
      `undo`: restore the table from the undo file, write it to the working
      checkpoint and log the step. The undo file itself is kept.
    */
    method Undo() returns (outcome: Outcome)
      requires Valid()
      modifies this
      ensures Valid()
      ensures old(table).None? ==> outcome == NoTrackData && unchanged(this)
      ensures old(table).Some? ==>
        && outcome == Done
        && table == old(undo) && checkpoint == old(undo) && undo == old(undo)
        && log == old(log) + [UndoLogLine]
        && coords == old(coords)
    {
      if table.None? {
        return NoTrackData;
      }
      table := undo;
      checkpoint := table;
      log := log + [UndoLogLine];
      outcome := Done;
    }
  }

  /** Undo right after a combine gives back exactly the table before it. */
  method UndoAfterCombine(p: TrackProcessor, entry: string)
    requires p.Valid() && p.table.Some? && ParseIdList(entry).Some?
    modifies p
    ensures p.Valid() && p.table == old(p.table) && p.checkpoint == old(p.table)
  {
    var combined := p.Combine(entry);
    var undone := p.Undo();
  }

  /** A second undo restores the same table as the first and changes no file but the log. */
  method UndoTwice(p: TrackProcessor)
    requires p.Valid() && p.table.Some?
    modifies p
    ensures p.Valid() && p.table == old(p.undo) && p.undo == old(p.undo)
    ensures p.log == old(p.log) + [UndoLogLine, UndoLogLine]
  {
    var first := p.Undo();
    var second := p.Undo();
  }

  /** After a load the first action can be undone back to the table as loaded. */
  method UndoAfterLoad(p: TrackProcessor, source: Table, coordLines: seq<string>, entry: string)
    requires p.Valid() && WellFormed(source, p.width) && Coordinates.Parse(coordLines).Ok?
    modifies p
    ensures p.Valid() && p.table.Some?
    ensures p.table == Some(if old(p.checkpoint).Some? then old(p.checkpoint).value else source)
  {
    var loaded := p.Load(Some(source), Some(coordLines));
    var loadedTable := p.table;
    var deleted := p.Delete(entry);
    var undone := p.Undo();
    assert p.table == loadedTable;
  }
}
