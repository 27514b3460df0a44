/** Strong-to-weak table conversion: `format_df` with its inner
    `join_labels`. The many-hot encoder is taken abstractly: a label list
    becomes a 0/1 vector over a fixed class list. */
module WeakLabels {
  import opened Wrappers
  import opened EventLists
  import opened Keys

  /** A row of a weak (clip-level) table: a file and its multi-hot tags. */
  datatype WeakRow = WeakRow(filename: string, tags: seq<int>)

  /** A table as `format_df` sees it: `Strong` when it has an onset or an
      offset column (one row per event), `Weak` when it has neither. */
  datatype Table = Strong(events: seq<EventRow>) | Weak(clips: seq<WeakRow>)

  /** `encode_weak(labels)` over `classes`: 1 at each class that is listed. */
  function EncodeWeak(classes: seq<string>, labels: seq<string>): (v: seq<int>)
    ensures |v| == |classes|
  {
    seq(|classes|, i requires 0 <= i < |classes| => if classes[i] in labels then 1 else 0)
  }

  /** `Series.dropna().tolist()`: the present values, in order. */
  function DropNa(xs: seq<Option<string>>): (r: seq<string>)
    ensures forall s :: s in r <==> Some(s) in xs
    ensures Distinct(xs) ==> Distinct(r)
  {
    if xs == [] then []
    else
      var init := xs[..|xs| - 1];
      var last := xs[|xs| - 1];
      assert xs == init + [last];
      assert Distinct(xs) ==> Distinct(init) && last !in init;
      DropNa(init) + (match last case Some(s) => [s] case None => [])
  }

  /** The `event_label` column of a table. */
  function LabelColumn(rows: seq<EventRow>): (col: seq<Option<string>>)
    ensures |col| == |rows|
    ensures forall i :: 0 <= i < |rows| ==> col[i] == rows[i].eventLabel
  {
    seq(|rows|, i requires 0 <= i < |rows| => rows[i].eventLabel)
  }

  /** The `filename` column of a table. The same projection is taken of
      a weak table by `ClipNames` and of a joined table by
      `AudioTagging.MatchNames`; each row type has its own. */
  function FilenameColumn(rows: seq<EventRow>): (col: seq<string>)
    ensures |col| == |rows|
    ensures forall i :: 0 <= i < |rows| ==> col[i] == rows[i].filename
  {
    seq(|rows|, i requires 0 <= i < |rows| => rows[i].filename)
  }

  /** The `filename` column of a weak table (see `FilenameColumn`). */
  function ClipNames(clips: seq<WeakRow>): (col: seq<string>)
    ensures |col| == |clips|
    ensures forall i :: 0 <= i < |clips| ==> col[i] == clips[i].filename
  {
    seq(|clips|, i requires 0 <= i < |clips| => clips[i].filename)
  }

  /** The labels of a file's group: deduplicated (`Keys.Unique`, a missing
      value kept once like any other), then missing ones dropped. */
  function GroupLabels(group: seq<EventRow>): (labels: seq<string>)
    ensures Distinct(labels)
    ensures forall s :: s in labels <==> exists i :: 0 <= i < |group| && group[i].eventLabel == Some(s)
  {
    var col := LabelColumn(group);
    var labels := DropNa(Unique(col));
    assert forall s :: Some(s) in col <==> exists i :: 0 <= i < |group| && group[i].eventLabel == Some(s);
    labels
  }

  /** `join_labels(x)` for the group `x` of the rows of file `fname`: one
      weak row for the file, with a 1 exactly at the classes some row of the
      group is labelled with (missing labels and repeats ignored). */
  function JoinLabels(group: seq<EventRow>, fname: string, classes: seq<string>): (w: WeakRow)
    ensures w.filename == fname && |w.tags| == |classes|
    ensures forall c :: 0 <= c < |classes| ==> w.tags[c] == 0 || w.tags[c] == 1
    ensures forall c :: 0 <= c < |classes| ==>
      (w.tags[c] == 1 <==> exists i :: 0 <= i < |group| && group[i].eventLabel == Some(classes[c]))
  {
    WeakRow(fname, EncodeWeak(classes, GroupLabels(group)))
  }

  /** `format_df(df, mhe)`. A strong table is grouped by filename (one row
      per file, keys in sorted order as `groupby` gives them) and each group
      is reduced by `join_labels`; a table that is already weak comes back
      unchanged, so applying it twice is the same as applying it once. */
  function FormatDf(t: Table, classes: seq<string>): (r: Table)
    ensures r.Weak?
    ensures t.Weak? ==> r == t
  {
    match t
    case Weak(_) => t
    case Strong(events) =>
      var keys := SortedKeys(FilenameColumn(events));
      Weak(seq(|keys|, i requires 0 <= i < |keys| => JoinLabels(RowsOf(events, keys[i]), keys[i], classes)))
  }

  /** File `fname` has an event row labelled `tag`. */
  predicate HasLabel(events: seq<EventRow>, fname: string, tag: string)
  {
    exists i :: 0 <= i < |events| && events[i].filename == fname && events[i].eventLabel == Some(tag)
  }

  /** File `fname` has at least one row. */
  predicate HasFile(events: seq<EventRow>, fname: string)
  {
    exists i :: 0 <= i < |events| && events[i].filename == fname
  }

  /** Every tag vector has one 0/1 entry per class. */
  predicate TagsShaped(clips: seq<WeakRow>, classes: nat)
  {
    forall i :: 0 <= i < |clips| ==>
      && |clips[i].tags| == classes
      && (forall c :: 0 <= c < classes ==> clips[i].tags[c] == 0 || clips[i].tags[c] == 1)
  }

  /** Applying `format_df` twice is the same as applying it once. */
  lemma FormatDfIdempotent(t: Table, classes: seq<string>)
    ensures FormatDf(FormatDf(t, classes), classes) == FormatDf(t, classes)
  {
  }

  /** A label is among the group labels of file `fname` exactly when a row
      of that file carries it. */
  lemma GroupHasLabel(events: seq<EventRow>, fname: string, tag: string)
    ensures tag in GroupLabels(RowsOf(events, fname)) <==> HasLabel(events, fname, tag)
  {
    var group := RowsOf(events, fname);
    if HasLabel(events, fname, tag) {
      var j :| 0 <= j < |events| && events[j].filename == fname && events[j].eventLabel == Some(tag);
      assert events[j] in group;
      var k :| 0 <= k < |group| && group[k] == events[j];
      assert group[k].eventLabel == Some(tag);
    }
    if tag in GroupLabels(group) {
      var k :| 0 <= k < |group| && group[k].eventLabel == Some(tag);
      assert group[k] in events;
      var j :| 0 <= j < |events| && events[j] == group[k];
      assert events[j].filename == fname;
    }
  }

  /** The tag of class `classes[c]` in the group of file `fname` is 1
      exactly when a row of that file carries that label. */
  lemma JoinLabelsTag(events: seq<EventRow>, fname: string, classes: seq<string>, c: nat)
    requires c < |classes|
    ensures var tags := JoinLabels(RowsOf(events, fname), fname, classes).tags;
      (tags[c] == 1 <==> HasLabel(events, fname, classes[c])) && (tags[c] == 0 || tags[c] == 1)
  {
    GroupHasLabel(events, fname, classes[c]);
  }

  /** The files `format_df` lists for a strong table are the table's files,
      each once, in strictly increasing order. */
  lemma FormatDfFiles(events: seq<EventRow>, classes: seq<string>)
    ensures var clips := FormatDf(Strong(events), classes).clips;
      && ClipNames(clips) == SortedKeys(FilenameColumn(events))
      && StrictlySorted(ClipNames(clips))
      && (forall f :: f in ClipNames(clips) <==> HasFile(events, f))
  {
    var clips := FormatDf(Strong(events), classes).clips;
    var keys := SortedKeys(FilenameColumn(events));
    assert ClipNames(clips) == keys;
    forall f ensures f in keys <==> HasFile(events, f) {
      assert f in KeySet(keys) <==> f in KeySet(FilenameColumn(events));
      if HasFile(events, f) {
        var i :| 0 <= i < |events| && events[i].filename == f;
        assert FilenameColumn(events)[i] == f;
      }
    }
  }

  /** What `format_df` makes of a strong table: one row per file, files in
      strictly increasing order and exactly the files of the table, and the
      tag of class `c` for a file is 1 exactly when some row of that file
      carries the label `classes[c]`, 0 otherwise. */
  lemma FormatDfGroups(events: seq<EventRow>, classes: seq<string>)
    ensures var clips := FormatDf(Strong(events), classes).clips;
      && StrictlySorted(ClipNames(clips))
      && (forall f :: f in ClipNames(clips) <==> HasFile(events, f))
      && TagsShaped(clips, |classes|)
      && (forall i, c :: 0 <= i < |clips| && 0 <= c < |classes| ==>
            (clips[i].tags[c] == 1 <==> HasLabel(events, clips[i].filename, classes[c])))
  {
    var clips := FormatDf(Strong(events), classes).clips;
    var keys := SortedKeys(FilenameColumn(events));
    FormatDfFiles(events, classes);
    forall i, c | 0 <= i < |clips| && 0 <= c < |classes|
      ensures (clips[i].tags[c] == 1 <==> HasLabel(events, clips[i].filename, classes[c]))
      ensures clips[i].tags[c] == 0 || clips[i].tags[c] == 1
    {
      assert clips[i] == JoinLabels(RowsOf(events, keys[i]), keys[i], classes);
      JoinLabelsTag(events, keys[i], classes, c);
    }
  }
}
