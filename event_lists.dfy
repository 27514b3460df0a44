/** Event tables and the per-file event list that the event- and
    segment-based evaluations hand to the matching library
    (`get_event_list_current_file`). */
module EventLists {
  import opened Wrappers

  /** One row of an event table: a detection or a ground-truth event.
      `eventLabel` is missing for a file that has no event; onset, offset and
      score are carried along but never computed with here. */
  datatype EventRow = EventRow(filename: string, eventLabel: Option<string>, onset: real, offset: real, score: Option<real>)

  /** One entry of a per-file event list: a whole row (`to_dict('records')`),
      or the placeholder `{"filename": fname}` that stands for "this file has
      no event". */
  datatype EventRecord = Record(row: EventRow) | FilenameOnly(filename: string)

  /** The file an entry is about. */
  function FileOf(e: EventRecord): string
  {
    match e
    case Record(row) => row.filename
    case FilenameOnly(f) => f
  }

  /** `df[df["filename"] == fname]`: the rows of one file, in table order
      (`AudioTagging.ClipsOf` is the same filter on weak rows). */
  function RowsOf(df: seq<EventRow>, fname: string): (rows: seq<EventRow>)
    ensures |rows| <= |df|
    ensures forall e :: e in rows <==> e in df && e.filename == fname
  {
    if df == [] then []
    else
      var init := RowsOf(df[..|df| - 1], fname);
      var last := df[|df| - 1];
      assert df == df[..|df| - 1] + [last];
      init + (if last.filename == fname then [last] else [])
  }

  /** `get_event_list_current_file(df, fname)`. */
  function GetEventListCurrentFile(df: seq<EventRow>, fname: string): (events: seq<EventRecord>)
    ensures forall e :: e in events ==> FileOf(e) == fname
  {
    var rows := RowsOf(df, fname);
    if |rows| == 1 && rows[0].eventLabel.None? then [FilenameOnly(fname)]
    else
      assert forall i :: 0 <= i < |rows| ==> rows[i] in rows;
      seq(|rows|, i requires 0 <= i < |rows| => Record(rows[i]))
  }

  /** True when `events` is the single placeholder record. */
  predicate IsPlaceholder(events: seq<EventRecord>)
  {
    |events| == 1 && events[0].FilenameOnly?
  }

  /** The rows carried by the whole-row records of a list. */
  function RowsIn(events: seq<EventRecord>): seq<EventRow>
  {
    if events == [] then []
    else (match events[0] case Record(row) => [row] case FilenameOnly(_) => []) + RowsIn(events[1..])
  }

  // ---------------------------------------------------------------------
  // The filter keeps exactly the file's rows, in order
  // ---------------------------------------------------------------------

  /** Filtering a table made of two parts filters each part in turn, so the
      rows keep their relative order. */
  lemma {:induction false} RowsOfConcat(df: seq<EventRow>, df2: seq<EventRow>, fname: string)
    ensures RowsOf(df + df2, fname) == RowsOf(df, fname) + RowsOf(df2, fname)
    decreases |df2|
  {
    if df2 != [] {
      var init := df2[..|df2| - 1];
      var last := df2[|df2| - 1];
      var extra := if last.filename == fname then [last] else [];
      RowsOfConcat(df, init, fname);
      assert (df + df2)[..|df + df2| - 1] == df + init;
      assert (df + df2)[|df + df2| - 1] == last;
      calc {
        RowsOf(df + df2, fname);
        RowsOf(df + init, fname) + extra;
        RowsOf(df, fname) + RowsOf(init, fname) + extra;
        RowsOf(df, fname) + (RowsOf(init, fname) + extra);
        RowsOf(df, fname) + RowsOf(df2, fname);
      }
    } else {
      assert df + df2 == df;
    }
  }

  /** A row is kept as often as it occurs in the table if it belongs to the
      file, and never otherwise. */
  lemma {:induction false} RowsOfMultiplicity(df: seq<EventRow>, fname: string, e: EventRow)
    ensures multiset(RowsOf(df, fname))[e] == if e.filename == fname then multiset(df)[e] else 0
  {
    if df != [] {
      var init := df[..|df| - 1];
      RowsOfMultiplicity(init, fname, e);
      assert df == init + [df[|df| - 1]];
    }
  }

  /** A table whose rows all belong to `fname` is returned whole. */
  lemma {:induction false} RowsOfAllMatching(df: seq<EventRow>, fname: string)
    requires forall i :: 0 <= i < |df| ==> df[i].filename == fname
    ensures RowsOf(df, fname) == df
  {
    if df != [] {
      var init := df[..|df| - 1];
      RowsOfAllMatching(init, fname);
      assert df == init + [df[|df| - 1]];
    }
  }

  lemma {:induction false} RowsInRecords(rows: seq<EventRow>)
    ensures RowsIn(seq(|rows|, i requires 0 <= i < |rows| => Record(rows[i]))) == rows
  {
    if rows != [] {
      var tail := seq(|rows| - 1, i requires 0 <= i < |rows| - 1 => Record(rows[1..][i]));
      RowsInRecords(rows[1..]);
      assert seq(|rows|, i requires 0 <= i < |rows| => Record(rows[i])) == [Record(rows[0])] + tail;
    }
  }

  /** The list is the placeholder exactly when the file has one row and that
      row has no label; otherwise its records are the file's rows, all of
      them, in table order. */
  lemma EventListIsFileRows(df: seq<EventRow>, fname: string)
    ensures var events := GetEventListCurrentFile(df, fname);
      var rows := RowsOf(df, fname);
      && (IsPlaceholder(events) <==> |rows| == 1 && rows[0].eventLabel.None?)
      && (IsPlaceholder(events) ==> events == [FilenameOnly(fname)])
      && (!IsPlaceholder(events) ==> |events| == |rows| && RowsIn(events) == rows)
  {
    var rows := RowsOf(df, fname);
    if !(|rows| == 1 && rows[0].eventLabel.None?) {
      RowsInRecords(rows);
    }
  }

  /** A file with no row in the table gets an empty list (not the
      placeholder). */
  lemma AbsentFileHasNoEvents(df: seq<EventRow>, fname: string)
    requires forall i :: 0 <= i < |df| ==> df[i].filename != fname
    ensures GetEventListCurrentFile(df, fname) == []
  {
    RowsOfAbsent(df, fname);
  }

  lemma {:induction false} RowsOfAbsent(df: seq<EventRow>, fname: string)
    requires forall i :: 0 <= i < |df| ==> df[i].filename != fname
    ensures RowsOf(df, fname) == []
  {
    if df != [] {
      RowsOfAbsent(df[..|df| - 1], fname);
    }
  }
}
