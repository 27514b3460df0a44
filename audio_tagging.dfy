/** Clip-level (audio-tagging) scores: `audio_tagging_results`. Both event
    tables are reduced to one multi-hot row per file by `format_df`, joined
    on the filename with an outer join, a side missing a file is filled
    with zeros, and the per-class F-measure, precision and recall are put in
    a table with a final "avg" row. */
module AudioTagging {
  import opened Wrappers
  import opened Confusion
  import opened Scores
  import opened EventLists
  import opened Keys
  import opened WeakLabels

  /** A row of `reference.merge(estimated, how='outer', on="filename")`:
      the reference tags and the predicted tags of one file, `None` (NaN)
      on a side that does not list the file. */
  datatype Match = Match(filename: string, refTags: Option<seq<int>>, predTags: Option<seq<int>>)

  /** A row of the results table: a class name (or "avg") with its f, p
      and r; a NaN is `None`. */
  datatype ScoreRow = ScoreRow(name: string, f: Option<real>, p: Option<real>, r: Option<real>)

  // ---------------------------------------------------------------------
  // Outer join on the filename
  // ---------------------------------------------------------------------

  /** The rows of a weak table that belong to file `key`, in order: the
      filter `EventLists.RowsOf` applies to event rows. */
  function ClipsOf(clips: seq<WeakRow>, key: string): (rows: seq<WeakRow>)
    ensures forall w :: w in rows <==> w in clips && w.filename == key
  {
    if clips == [] then []
    else
      var init := clips[..|clips| - 1];
      var last := clips[|clips| - 1];
      assert clips == init + [last];
      ClipsOf(init, key) + (if last.filename == key then [last] else [])
  }

  /** Every pairing of a left row with a right row of file `key`, left-major:
      |left| * |right| rows, each pair once, both sides present. */
  function Cross(key: string, left: seq<WeakRow>, right: seq<WeakRow>): (m: seq<Match>)
    ensures |m| == |left| * |right|
    ensures forall x :: x in m ==> x.filename == key && x.refTags.Some? && x.predTags.Some?
    ensures forall i, j :: 0 <= i < |left| && 0 <= j < |right| ==>
      Match(key, Some(left[i].tags), Some(right[j].tags)) in m
  {
    if left == [] then []
    else
      var row := seq(|right|, j requires 0 <= j < |right| => Match(key, Some(left[0].tags), Some(right[j].tags)));
      var rest := Cross(key, left[1..], right);
      assert |left| * |right| == |right| + (|left| - 1) * |right|;
      assert forall i :: 1 <= i < |left| ==> left[i] == left[1..][i - 1];
      assert forall i, j :: 0 <= i < |left| && 0 <= j < |right| && i == 0 ==>
        row[j] == Match(key, Some(left[i].tags), Some(right[j].tags));
      row + rest
  }

  /** The joined rows of one key: all pairs when both sides list it, and
      otherwise the rows of the one side that does, with NaN on the other.
      A side is NaN exactly when it does not list the key, and the key gets
      rows exactly when one of the sides lists it. */
  function KeyMatches(key: string, left: seq<WeakRow>, right: seq<WeakRow>): (m: seq<Match>)
    ensures forall x :: x in m ==>
      && x.filename == key
      && (x.refTags.Some? <==> key in ClipNames(left))
      && (x.predTags.Some? <==> key in ClipNames(right))
    ensures m != [] <==> key in ClipNames(left) || key in ClipNames(right)
  {
    var l := ClipsOf(left, key);
    var r := ClipsOf(right, key);
    ClipsOfListed(left, key);
    ClipsOfListed(right, key);
    if |l| > 0 && |r| > 0 then
      assert Match(key, Some(l[0].tags), Some(r[0].tags)) in Cross(key, l, r);
      Cross(key, l, r)
    else if |l| > 0 then seq(|l|, i requires 0 <= i < |l| => Match(key, Some(l[i].tags), None))
    else seq(|r|, i requires 0 <= i < |r| => Match(key, None, Some(r[i].tags)))
  }

  /** A weak table has rows for `key` exactly when it lists `key`. */
  lemma ClipsOfListed(clips: seq<WeakRow>, key: string)
    ensures ClipsOf(clips, key) != [] <==> key in ClipNames(clips)
  {
    if key in ClipNames(clips) {
      var i :| 0 <= i < |clips| && ClipNames(clips)[i] == key;
      assert clips[i] in ClipsOf(clips, key);
    }
  }

  /** The joined rows of the keys, key by key: every row belongs to one of
      the keys, and every key listed by a side has a row. */
  function JoinKeys(keys: seq<string>, left: seq<WeakRow>, right: seq<WeakRow>): (m: seq<Match>)
    ensures forall x :: x in m ==>
      && x.filename in keys
      && (x.refTags.Some? <==> x.filename in ClipNames(left))
      && (x.predTags.Some? <==> x.filename in ClipNames(right))
    ensures forall k :: k in keys && (k in ClipNames(left) || k in ClipNames(right)) ==>
      exists x :: x in m && x.filename == k
  {
    if keys == [] then []
    else
      var head := KeyMatches(keys[0], left, right);
      var rest := JoinKeys(keys[1..], left, right);
      assert forall k :: k in keys ==> k == keys[0] || k in keys[1..];
      assert head != [] ==> head[0] in head + rest;
      head + rest
  }

  /** The outer join on "filename" without `sort=True`: keys are the
      distinct filenames of the left side in order, then those only the
      right side lists, in its order. Every row is a file of one of the sides,
      NaN exactly on a side that does not list it, and every file of either
      side gets a row. */
  function OuterJoin(left: seq<WeakRow>, right: seq<WeakRow>): (m: seq<Match>)
    ensures forall x :: x in m ==>
      && (x.filename in ClipNames(left) || x.filename in ClipNames(right))
      && (x.refTags.Some? <==> x.filename in ClipNames(left))
      && (x.predTags.Some? <==> x.filename in ClipNames(right))
    ensures forall k :: k in ClipNames(left) || k in ClipNames(right) ==>
      exists x :: x in m && x.filename == k
  {
    JoinKeys(Unique(ClipNames(left) + ClipNames(right)), left, right)
  }

  /** The tags a weak table gives file `key`, or `None` if it lists no row
      for it. */
  function Lookup(clips: seq<WeakRow>, key: string): (tags: Option<seq<int>>)
    ensures tags.Some? <==> key in ClipNames(clips)
    ensures tags.Some? ==> exists i :: 0 <= i < |clips| && clips[i].filename == key && clips[i].tags == tags.value
  {
    var rows := ClipsOf(clips, key);
    if rows == [] then
      assert forall i :: 0 <= i < |clips| ==> clips[i] !in rows;
      None
    else
      assert rows[0] in clips;
      Some(rows[0].tags)
  }

  lemma {:induction false} ClipsOfAbsent(clips: seq<WeakRow>, key: string)
    requires forall i :: 0 <= i < |clips| ==> clips[i].filename != key
    ensures ClipsOf(clips, key) == []
  {
    if clips != [] {
      ClipsOfAbsent(clips[..|clips| - 1], key);
    }
  }

  /** A weak table with at most one row per file gives each file at most
      one row. */
  lemma {:induction false} ClipsOfDistinct(clips: seq<WeakRow>, key: string)
    requires Distinct(ClipNames(clips))
    ensures |ClipsOf(clips, key)| <= 1
  {
    if clips != [] {
      var init := clips[..|clips| - 1];
      var last := clips[|clips| - 1];
      assert ClipNames(init) == ClipNames(clips)[..|clips| - 1];
      ClipsOfDistinct(init, key);
      if last.filename == key {
        forall i | 0 <= i < |init| ensures init[i].filename != key {
          assert ClipNames(clips)[i] != ClipNames(clips)[|clips| - 1];
        }
        ClipsOfAbsent(init, key);
      }
    }
  }

  /** One row on each side pairs into exactly one joined row. */
  lemma CrossSingle(key: string, left: seq<WeakRow>, right: seq<WeakRow>)
    requires |left| == 1 && |right| == 1
    ensures Cross(key, left, right) == [Match(key, Some(left[0].tags), Some(right[0].tags))]
  {
    assert left[1..] == [];
  }

  /** With at most one row per file on each side, the join of one listed
      key is the single row pairing what each side gives the file. */
  lemma KeyMatchesDistinct(key: string, left: seq<WeakRow>, right: seq<WeakRow>)
    requires Distinct(ClipNames(left)) && Distinct(ClipNames(right))
    requires key in ClipNames(left) || key in ClipNames(right)
    ensures KeyMatches(key, left, right) == [Match(key, Lookup(left, key), Lookup(right, key))]
  {
    ClipsOfDistinct(left, key);
    ClipsOfDistinct(right, key);
    var l := ClipsOf(left, key);
    var r := ClipsOf(right, key);
    var lt := Lookup(left, key);
    var rt := Lookup(right, key);
    assert lt == (if |l| == 0 then None else Some(l[0].tags));
    assert rt == (if |r| == 0 then None else Some(r[0].tags));
    if |l| > 0 && |r| > 0 {
      CrossSingle(key, l, r);
    } else if |l| > 0 {
      assert KeyMatches(key, left, right) == [Match(key, lt, None)];
    } else {
      assert |r| > 0;
      assert KeyMatches(key, left, right) == [Match(key, None, rt)];
    }
  }

  lemma {:induction false} JoinKeysDistinct(keys: seq<string>, left: seq<WeakRow>, right: seq<WeakRow>)
    requires Distinct(ClipNames(left)) && Distinct(ClipNames(right))
    requires forall k :: k in keys ==> k in ClipNames(left) || k in ClipNames(right)
    ensures var m := JoinKeys(keys, left, right);
      |m| == |keys| && forall i :: 0 <= i < |keys| ==> m[i] == Match(keys[i], Lookup(left, keys[i]), Lookup(right, keys[i]))
  {
    if keys != [] {
      KeyMatchesDistinct(keys[0], left, right);
      JoinKeysDistinct(keys[1..], left, right);
    }
  }

  /** When each side lists a file at most once, the outer join has exactly
      one row per file of either side, each file once, the left side's files
      first and in the left side's order, and each row carries what each
      side gives that file (NaN where it gives nothing). */
  lemma OuterJoinDistinct(left: seq<WeakRow>, right: seq<WeakRow>)
    requires Distinct(ClipNames(left)) && Distinct(ClipNames(right))
    ensures var keys := Unique(ClipNames(left) + ClipNames(right));
      var m := OuterJoin(left, right);
      && |m| == |keys|
      && (forall i :: 0 <= i < |keys| ==> m[i] == Match(keys[i], Lookup(left, keys[i]), Lookup(right, keys[i])))
      && Distinct(keys)
      && (forall k :: k in keys <==> k in ClipNames(left) || k in ClipNames(right))
      && |left| <= |keys| && keys[..|left|] == ClipNames(left)
  {
    var keys := Unique(ClipNames(left) + ClipNames(right));
    UniqueConcat(ClipNames(left), ClipNames(right));
    JoinKeysDistinct(keys, left, right);
  }

  /** The order pandas gives the outer merge: a file only the right side
      lists comes after the left side's files, even when it sorts first. */
  lemma MergeOrderExample()
    ensures var m := OuterJoin([WeakRow("b.wav", [1])], [WeakRow("a.wav", [0]), WeakRow("b.wav", [1])]);
      |m| == 2 && m[0].filename == "b.wav" && m[1].filename == "a.wav"
  {
    var left, right := [WeakRow("b.wav", [1])], [WeakRow("a.wav", [0]), WeakRow("b.wav", [1])];
    assert ClipNames(left) == ["b.wav"];
    assert ClipNames(right) == ["a.wav", "b.wav"];
    assert "a.wav" != "b.wav";
    var names := ClipNames(left) + ClipNames(right);
    assert names[..2] == ["b.wav", "a.wav"];
    assert Unique(names[..2]) == ["b.wav", "a.wav"];
    assert Unique(names) == ["b.wav", "a.wav"];
    OuterJoinDistinct(left, right);
  }

  // ---------------------------------------------------------------------
  // Zero-fill and the matrices handed to the confusion counter
  // ---------------------------------------------------------------------

  /** `na_values`: a NaN cell becomes the all-zero vector over the classes;
      a present cell is kept as it is. */
  function ZeroFill(tags: Option<seq<int>>, classes: nat): (v: seq<int>)
    ensures tags.Some? ==> v == tags.value
    ensures tags.None? ==> |v| == classes && forall c :: 0 <= c < classes ==> v[c] == 0
  {
    match tags
    case Some(v) => v
    case None => Zeros(classes)
  }

  /** The reference column of the joined table, zero-filled. */
  function RefMatrix(m: seq<Match>, classes: nat): (rows: Matrix)
    ensures |rows| == |m|
  {
    seq(|m|, i requires 0 <= i < |m| => ZeroFill(m[i].refTags, classes))
  }

  /** The prediction column of the joined table, zero-filled. */
  function PredMatrix(m: seq<Match>, classes: nat): (rows: Matrix)
    ensures |rows| == |m|
  {
    seq(|m|, i requires 0 <= i < |m| => ZeroFill(m[i].predTags, classes))
  }

  /** The filename column of the joined table (the projection
      `FilenameColumn` and `ClipNames` take of the other row types). */
  function MatchNames(m: seq<Match>): (names: seq<string>)
    ensures |names| == |m|
    ensures forall i :: 0 <= i < |m| ==> names[i] == m[i].filename
  {
    seq(|m|, i requires 0 <= i < |m| => m[i].filename)
  }

  /** The weak table of one side after `format_df`: one row per file of
      the events, each a 0/1 vector over the classes. */
  function FormattedClips(events: seq<EventRow>, classes: seq<string>): (clips: seq<WeakRow>)
    ensures forall f :: f in ClipNames(clips) <==> HasFile(events, f)
    ensures TagsShaped(clips, |classes|)
  {
    FormatDfGroups(events, classes);
    FormatDf(Strong(events), classes).clips
  }

  /** `matching`: the outer join of the two formatted tables. A side of a
      row is NaN exactly when its event table has no row for the file
      (`MatchingKeys` states which files get rows, and in what order). */
  function Matching(reference: seq<EventRow>, estimated: seq<EventRow>, classes: seq<string>): (m: seq<Match>)
    ensures forall x :: x in m ==>
      && (x.refTags.Some? <==> HasFile(reference, x.filename))
      && (x.predTags.Some? <==> HasFile(estimated, x.filename))
  {
    OuterJoin(FormattedClips(reference, classes), FormattedClips(estimated, classes))
  }

  /** One side's zero-filled tags for file `key`: exactly the multi-hot
      vector of the labels the table gives that file, all zeros when the
      table has no row for it. */
  lemma SideTags(events: seq<EventRow>, classes: seq<string>, key: string)
    ensures var tags := Lookup(FormattedClips(events, classes), key);
      var v := ZeroFill(tags, |classes|);
      && (tags.Some? <==> HasFile(events, key))
      && |v| == |classes|
      && (forall c :: 0 <= c < |classes| ==> v[c] == 0 || v[c] == 1)
      && (forall c :: 0 <= c < |classes| ==> (v[c] == 1 <==> HasLabel(events, key, classes[c])))
  {
    var clips := FormattedClips(events, classes);
    FormatDfGroups(events, classes);
    var tags := Lookup(clips, key);
    if tags.Some? {
      var i :| 0 <= i < |clips| && clips[i].filename == key && clips[i].tags == tags.value;
      assert forall c :: 0 <= c < |classes| ==>
        (clips[i].tags[c] == 1 <==> HasLabel(events, clips[i].filename, classes[c]));
    } else {
      forall c | 0 <= c < |classes| ensures !HasLabel(events, key, classes[c]) {
        assert !HasFile(events, key);
      }
    }
  }

  /** Each side of the formatted tables lists a file at most once, and the
      join's keys are the files of either table, the reference's first. */
  lemma MatchingJoin(reference: seq<EventRow>, estimated: seq<EventRow>, classes: seq<string>)
    ensures var left, right := FormattedClips(reference, classes), FormattedClips(estimated, classes);
      var keys := Unique(ClipNames(left) + ClipNames(right));
      var m := Matching(reference, estimated, classes);
      && Distinct(keys)
      && |left| <= |keys| && keys[..|left|] == ClipNames(left)
      && |m| == |keys|
      && (forall i :: 0 <= i < |keys| ==> m[i] == Match(keys[i], Lookup(left, keys[i]), Lookup(right, keys[i])))
      && (forall f :: f in keys <==> HasFile(reference, f) || HasFile(estimated, f))
  {
    var left, right := FormattedClips(reference, classes), FormattedClips(estimated, classes);
    FormatDfFiles(reference, classes);
    FormatDfFiles(estimated, classes);
    SortedIsDistinct(ClipNames(left));
    SortedIsDistinct(ClipNames(right));
    OuterJoinDistinct(left, right);
  }

  /** The joined table has one row per file of either table, the files of
      the reference first (in its sorted order), and each row carries what
      each formatted table gives that file. */
  lemma MatchingKeys(reference: seq<EventRow>, estimated: seq<EventRow>, classes: seq<string>)
    ensures var m := Matching(reference, estimated, classes);
      var left := FormattedClips(reference, classes);
      && Distinct(MatchNames(m))
      && |left| <= |m| && MatchNames(m)[..|left|] == ClipNames(left)
      && (forall f :: f in MatchNames(m) <==> HasFile(reference, f) || HasFile(estimated, f))
      && (forall i :: 0 <= i < |m| ==>
            m[i] == Match(m[i].filename, Lookup(FormattedClips(reference, classes), m[i].filename),
                          Lookup(FormattedClips(estimated, classes), m[i].filename)))
  {
    var left, right := FormattedClips(reference, classes), FormattedClips(estimated, classes);
    var m := Matching(reference, estimated, classes);
    var keys := Unique(ClipNames(left) + ClipNames(right));
    MatchingJoin(reference, estimated, classes);
    assert MatchNames(m) == keys;
  }

  /** One row of the joined table after zero-fill: each side is NaN exactly
      where its table lacks the file, and holds the file's multi-hot labels,
      all zeros where the table lacks the file. */
  lemma MatchRow(reference: seq<EventRow>, estimated: seq<EventRow>, classes: seq<string>, i: nat)
    requires i < |Matching(reference, estimated, classes)|
    ensures var m := Matching(reference, estimated, classes);
      var C := |classes|;
      var ref, pred := RefMatrix(m, C), PredMatrix(m, C);
      && (m[i].refTags.Some? <==> HasFile(reference, m[i].filename))
      && (m[i].predTags.Some? <==> HasFile(estimated, m[i].filename))
      && |ref[i]| == C && |pred[i]| == C
      && (!HasFile(estimated, m[i].filename) ==> pred[i] == Zeros(C))
      && (!HasFile(reference, m[i].filename) ==> ref[i] == Zeros(C))
      && (forall c :: 0 <= c < C ==> ref[i][c] == 0 || ref[i][c] == 1)
      && (forall c :: 0 <= c < C ==> pred[i][c] == 0 || pred[i][c] == 1)
      && (forall c :: 0 <= c < C ==> (ref[i][c] == 1 <==> HasLabel(reference, m[i].filename, classes[c])))
      && (forall c :: 0 <= c < C ==> (pred[i][c] == 1 <==> HasLabel(estimated, m[i].filename, classes[c])))
  {
    var m := Matching(reference, estimated, classes);
    MatchingKeys(reference, estimated, classes);
    assert m[i] == Match(m[i].filename, Lookup(FormattedClips(reference, classes), m[i].filename),
                         Lookup(FormattedClips(estimated, classes), m[i].filename));
    SideTags(reference, classes, m[i].filename);
    SideTags(estimated, classes, m[i].filename);
  }

  /** The joined table has one row per file of either table, each file
      once; a side is NaN exactly where its table has
      no row for the file; and after zero-fill each row holds each side's
      multi-hot labels for that file. In particular a file that only the
      reference lists gets an all-zero prediction, and one that only the
      estimate lists an all-zero reference. */
  lemma MatchingFacts(reference: seq<EventRow>, estimated: seq<EventRow>, classes: seq<string>)
    ensures var m := Matching(reference, estimated, classes);
      var C := |classes|;
      var ref, pred := RefMatrix(m, C), PredMatrix(m, C);
      && Distinct(MatchNames(m))
      && (forall f :: f in MatchNames(m) <==> HasFile(reference, f) || HasFile(estimated, f))
      && (forall i :: 0 <= i < |m| ==> (m[i].refTags.Some? <==> HasFile(reference, m[i].filename)))
      && (forall i :: 0 <= i < |m| ==> (m[i].predTags.Some? <==> HasFile(estimated, m[i].filename)))
      && (forall i :: 0 <= i < |m| && !HasFile(estimated, m[i].filename) ==> pred[i] == Zeros(C))
      && (forall i :: 0 <= i < |m| && !HasFile(reference, m[i].filename) ==> ref[i] == Zeros(C))
      && SameShape(ref, pred, C) && Binary(ref) && Binary(pred)
      && (forall i, c :: 0 <= i < |m| && 0 <= c < C ==>
            (ref[i][c] == 1 <==> HasLabel(reference, m[i].filename, classes[c])))
      && (forall i, c :: 0 <= i < |m| && 0 <= c < C ==>
            (pred[i][c] == 1 <==> HasLabel(estimated, m[i].filename, classes[c])))
  {
    MatchingKeys(reference, estimated, classes);
    MatchingShape(reference, estimated, classes);
    MatchingSides(reference, estimated, classes);
    MatchingLabels(reference, estimated, classes);
  }

  /** Row by row: NaN sides, and the all-zero vectors that replace them. */
  lemma MatchingSides(reference: seq<EventRow>, estimated: seq<EventRow>, classes: seq<string>)
    ensures var m := Matching(reference, estimated, classes);
      var C := |classes|;
      var ref, pred := RefMatrix(m, C), PredMatrix(m, C);
      && (forall i :: 0 <= i < |m| ==> (m[i].refTags.Some? <==> HasFile(reference, m[i].filename)))
      && (forall i :: 0 <= i < |m| ==> (m[i].predTags.Some? <==> HasFile(estimated, m[i].filename)))
      && (forall i :: 0 <= i < |m| && !HasFile(estimated, m[i].filename) ==> pred[i] == Zeros(C))
      && (forall i :: 0 <= i < |m| && !HasFile(reference, m[i].filename) ==> ref[i] == Zeros(C))
  {
    var m := Matching(reference, estimated, classes);
    forall i | 0 <= i < |m| {
      MatchRow(reference, estimated, classes, i);
    }
  }

  /** Row by row: each zero-filled side is the file's multi-hot labels. */
  lemma MatchingLabels(reference: seq<EventRow>, estimated: seq<EventRow>, classes: seq<string>)
    ensures var m := Matching(reference, estimated, classes);
      var C := |classes|;
      var ref, pred := RefMatrix(m, C), PredMatrix(m, C);
      && (forall i, c :: 0 <= i < |m| && 0 <= c < C && c < |ref[i]| ==>
            (ref[i][c] == 1 <==> HasLabel(reference, m[i].filename, classes[c])))
      && (forall i, c :: 0 <= i < |m| && 0 <= c < C && c < |pred[i]| ==>
            (pred[i][c] == 1 <==> HasLabel(estimated, m[i].filename, classes[c])))
  {
    var m := Matching(reference, estimated, classes);
    forall i | 0 <= i < |m| {
      MatchRow(reference, estimated, classes, i);
    }
  }

  /** The zero-filled sides are 0/1 matrices of the same shape, one column
      per class. */
  lemma MatchingShape(reference: seq<EventRow>, estimated: seq<EventRow>, classes: seq<string>)
    ensures var m := Matching(reference, estimated, classes);
      var ref, pred := RefMatrix(m, |classes|), PredMatrix(m, |classes|);
      SameShape(ref, pred, |classes|) && Binary(ref) && Binary(pred)
  {
    var m := Matching(reference, estimated, classes);
    var C := |classes|;
    var ref, pred := RefMatrix(m, C), PredMatrix(m, C);
    forall i | 0 <= i < |m|
      ensures |ref[i]| == C && |pred[i]| == C
      ensures forall c :: 0 <= c < C ==> ref[i][c] == 0 || ref[i][c] == 1
      ensures forall c :: 0 <= c < C ==> pred[i][c] == 0 || pred[i][c] == 1
    {
      MatchRow(reference, estimated, classes, i);
    }
  }

  // ---------------------------------------------------------------------
  // What the counts count
  // ---------------------------------------------------------------------

  /** The confusion cell a file falls in for one class, from whether the
      reference and the estimate tag the file with that class. */
  predicate Cell(k: Outcome, inRef: bool, inEst: bool)
  {
    match k
    case TruePositive => inRef && inEst
    case FalsePositive => !inRef && inEst
    case FalseNegative => inRef && !inEst
    case TrueNegative => !inRef && !inEst
  }

  /** The files of either table that fall in cell `k` for class `classes[c]`. */
  function FilesWhere(reference: seq<EventRow>, estimated: seq<EventRow>, classes: seq<string>, c: nat, k: Outcome): set<string>
    requires c < |classes|
  {
    set f | f in KeySet(FilenameColumn(reference) + FilenameColumn(estimated))
      && Cell(k, HasLabel(reference, f, classes[c]), HasLabel(estimated, f, classes[c]))
  }

  /** The per-class counts of the audio-tagging evaluation. */
  function TaggingCounts(reference: seq<EventRow>, estimated: seq<EventRow>, classes: seq<string>): (k: Counts)
    ensures |k.tp| == |k.fp| == |k.fn| == |k.tn| == |classes|
    ensures forall c :: 0 <= c < |classes| ==> k.tp[c] >= 0 && k.fp[c] >= 0 && k.fn[c] >= 0 && k.tn[c] >= 0
  {
    var m := Matching(reference, estimated, classes);
    MatchingFacts(reference, estimated, classes);
    IntermediateAtMeasures(RefMatrix(m, |classes|), PredMatrix(m, |classes|), |classes|)
  }

  /** An injective indexing keeps the size of a set of indices. */
  lemma {:induction false} DistinctImageSize(indices: set<nat>, names: seq<string>)
    requires Distinct(names)
    requires forall i :: i in indices ==> i < |names|
    ensures |set i | i in indices :: names[i]| == |indices|
    decreases |indices|
  {
    if indices != {} {
      var x :| x in indices;
      var rest := indices - {x};
      DistinctImageSize(rest, names);
      var image := set i | i in indices :: names[i];
      var restImage := set i | i in rest :: names[i];
      assert image == restImage + {names[x]};
      assert names[x] !in restImage;
    }
  }

  /** When the rows are labelled by distinct names, a column count is the
      number of names whose rows pass the test. */
  lemma NamedCount(ref: Matrix, est: Matrix, names: seq<string>, c: nat, k: Outcome, files: set<string>)
    requires HasColumn(ref, est, c) && |names| == |ref| && Distinct(names)
    requires forall i :: 0 <= i < |ref| ==> (Matches(k, ref[i][c], est[i][c]) <==> names[i] in files)
    requires forall f :: f in files ==> f in names
    ensures ColumnCount(ref, est, c, k) == |files|
  {
    ColumnCountIsCardinality(ref, est, c, k);
    var rows := RowsWhere(ref, est, c, k);
    DistinctImageSize(rows, names);
    var image := set i | i in rows :: names[i];
    forall f | f in files ensures f in image {
      var i :| 0 <= i < |names| && names[i] == f;
      assert i in rows;
    }
    assert image == files;
  }

  /** Each count is a number of files: for class `classes[c]`, tp counts the
      files of either table that both the reference and the estimate tag
      with it, fp those only the estimate tags, fn those only the reference
      tags, and tn those neither tags. */
  lemma TaggingCountsCountFiles(reference: seq<EventRow>, estimated: seq<EventRow>, classes: seq<string>, c: nat)
    requires c < |classes|
    ensures var k := TaggingCounts(reference, estimated, classes);
      && k.tp[c] == |FilesWhere(reference, estimated, classes, c, TruePositive)|
      && k.fp[c] == |FilesWhere(reference, estimated, classes, c, FalsePositive)|
      && k.fn[c] == |FilesWhere(reference, estimated, classes, c, FalseNegative)|
      && k.tn[c] == |FilesWhere(reference, estimated, classes, c, TrueNegative)|
  {
    CellCount(reference, estimated, classes, c, TruePositive);
    CellCount(reference, estimated, classes, c, FalsePositive);
    CellCount(reference, estimated, classes, c, FalseNegative);
    CellCount(reference, estimated, classes, c, TrueNegative);
  }

  lemma CellCount(reference: seq<EventRow>, estimated: seq<EventRow>, classes: seq<string>, c: nat, k: Outcome)
    requires c < |classes|
    ensures var m := Matching(reference, estimated, classes);
      var ref, pred := RefMatrix(m, |classes|), PredMatrix(m, |classes|);
      HasColumn(ref, pred, c) && ColumnCount(ref, pred, c, k) == |FilesWhere(reference, estimated, classes, c, k)|
  {
    var m := Matching(reference, estimated, classes);
    var C := |classes|;
    var ref, pred := RefMatrix(m, C), PredMatrix(m, C);
    var names := MatchNames(m);
    var files := FilesWhere(reference, estimated, classes, c, k);
    MatchingFacts(reference, estimated, classes);
    forall i | 0 <= i < |m|
      ensures Matches(k, ref[i][c], pred[i][c]) <==> names[i] in files
    {
      MatchesOnBits(ref[i][c], pred[i][c]);
      ColumnHasFile(reference, estimated, names[i]);
    }
    forall f | f in files ensures f in names {
      ColumnHasFile(reference, estimated, f);
    }
    NamedCount(ref, pred, names, c, k, files);
  }

  lemma ColumnHasFile(reference: seq<EventRow>, estimated: seq<EventRow>, f: string)
    ensures f in KeySet(FilenameColumn(reference) + FilenameColumn(estimated))
        <==> HasFile(reference, f) || HasFile(estimated, f)
  {
    var col := FilenameColumn(reference) + FilenameColumn(estimated);
    if HasFile(reference, f) {
      var i :| 0 <= i < |reference| && reference[i].filename == f;
      assert col[i] == f;
    }
    if HasFile(estimated, f) {
      var i :| 0 <= i < |estimated| && estimated[i].filename == f;
      assert col[|reference| + i] == f;
    }
    if f in col {
      var i :| 0 <= i < |col| && col[i] == f;
      if i < |reference| {
        assert reference[i].filename == f;
      } else {
        assert estimated[i - |reference|].filename == f;
      }
    }
  }

  // ---------------------------------------------------------------------
  // The results table
  // ---------------------------------------------------------------------

  /** The three per-class score columns. */
  datatype Columns = Columns(f: seq<Option<real>>, p: seq<Option<real>>, r: seq<Option<real>>)

  /** The per-class f, p and r: all zeros when the formatted estimate is
      empty, and otherwise the masked F-measure and the unguarded ratios
      tp / (tp + fp) and tp / (tp + fn) of the tagging counts, which are NaN
      where their denominator is zero. The F-measure is never NaN. */
  function ScoreColumns(reference: seq<EventRow>, estimated: seq<EventRow>, classes: seq<string>): (cols: Columns)
    ensures |cols.f| == |cols.p| == |cols.r| == |classes|
    ensures forall c :: 0 <= c < |classes| ==> cols.f[c].Some? && 0.0 <= cols.f[c].value <= 1.0
    ensures forall c :: 0 <= c < |classes| && cols.p[c].Some? ==> 0.0 <= cols.p[c].value <= 1.0
    ensures forall c :: 0 <= c < |classes| && cols.r[c].Some? ==> 0.0 <= cols.r[c].value <= 1.0
    ensures estimated == [] ==> forall c :: 0 <= c < |classes| ==>
      cols.f[c] == Some(0.0) && cols.p[c] == Some(0.0) && cols.r[c] == Some(0.0)
  {
    var C := |classes|;
    if estimated == [] then
      var zeros := seq(C, _ => Some(0.0));
      Columns(zeros, zeros, zeros)
    else
      CountColumns(TaggingCounts(reference, estimated, classes), C)
  }

  /** `macro_f`, `macro_p` and `macro_r` of non-negative per-class counts:
      f always defined, every defined value in [0, 1]. */
  function CountColumns(k: Counts, C: nat): (cols: Columns)
    requires |k.tp| == |k.fp| == |k.fn| == C
    requires forall c :: 0 <= c < C ==> k.tp[c] >= 0 && k.fp[c] >= 0 && k.fn[c] >= 0
    ensures |cols.f| == |cols.p| == |cols.r| == C
    ensures forall c :: 0 <= c < C ==> cols.f[c].Some? && 0.0 <= cols.f[c].value <= 1.0
    ensures forall c :: 0 <= c < C && cols.p[c].Some? ==> 0.0 <= cols.p[c].value <= 1.0
    ensures forall c :: 0 <= c < C && cols.r[c].Some? ==> 0.0 <= cols.r[c].value <= 1.0
  {
    var f := MacroFMeasure(k.tp, k.fp, k.fn);
    Columns(seq(C, c requires 0 <= c < C => Some(f[c])), PrecisionVector(k.tp, k.fp), RecallVector(k.tp, k.fn))
  }

  /** With a non-empty estimate, each class's f is the masked F-measure of
      its tagging counts, and its p and r are tp / (tp + fp) and
      tp / (tp + fn), NaN where the denominator is zero. */
  lemma ScoresOfCounts(reference: seq<EventRow>, estimated: seq<EventRow>, classes: seq<string>, c: nat)
    requires estimated != [] && c < |classes|
    ensures var k := TaggingCounts(reference, estimated, classes);
      var cols := ScoreColumns(reference, estimated, classes);
      && cols.f[c] == Some(ClassF(k.tp[c], k.fp[c], k.fn[c]))
      && cols.p[c] == Precision(k.tp[c], k.fp[c])
      && cols.r[c] == Recall(k.tp[c], k.fn[c])
  {
  }

  /** The class rows, named by `classes`, followed by the "avg" row of
      column means. */
  function Tabulate(classes: seq<string>, cols: Columns): (table: seq<ScoreRow>)
    requires |cols.f| == |cols.p| == |cols.r| == |classes|
    ensures |table| == |classes| + 1
    ensures forall c :: 0 <= c < |classes| ==> table[c] == ScoreRow(classes[c], cols.f[c], cols.p[c], cols.r[c])
    ensures table[|classes|] == ScoreRow("avg", Mean(cols.f), Mean(cols.p), Mean(cols.r))
  {
    var C := |classes|;
    seq(C, c requires 0 <= c < C => ScoreRow(classes[c], cols.f[c], cols.p[c], cols.r[c]))
      + [ScoreRow("avg", Mean(cols.f), Mean(cols.p), Mean(cols.r))]
  }

  /** What the table shows of well-formed columns: class names, then "avg"
      whose columns are the unweighted means of the class rows; values in
      [0, 1] stay there, and f is never NaN when there is a class. */
  lemma TabulateFacts(classes: seq<string>, cols: Columns)
    requires |cols.f| == |cols.p| == |cols.r| == |classes|
    requires forall c :: 0 <= c < |classes| ==> cols.f[c].Some? && 0.0 <= cols.f[c].value <= 1.0
    requires forall c :: 0 <= c < |classes| && cols.p[c].Some? ==> 0.0 <= cols.p[c].value <= 1.0
    requires forall c :: 0 <= c < |classes| && cols.r[c].Some? ==> 0.0 <= cols.r[c].value <= 1.0
    ensures var table := Tabulate(classes, cols);
      && (forall c :: 0 <= c < |classes| ==> table[c].name == classes[c])
      && table[|classes|].name == "avg"
      && (var rows := table[..|classes|];
          && table[|classes|].f == Mean(seq(|rows|, c requires 0 <= c < |rows| => rows[c].f))
          && table[|classes|].p == Mean(seq(|rows|, c requires 0 <= c < |rows| => rows[c].p))
          && table[|classes|].r == Mean(seq(|rows|, c requires 0 <= c < |rows| => rows[c].r)))
      && (forall i :: 0 <= i < |table| && table[i].f.Some? ==> 0.0 <= table[i].f.value <= 1.0)
      && (forall i :: 0 <= i < |table| && table[i].p.Some? ==> 0.0 <= table[i].p.value <= 1.0)
      && (forall i :: 0 <= i < |table| && table[i].r.Some? ==> 0.0 <= table[i].r.value <= 1.0)
      && (|classes| > 0 ==> forall i :: 0 <= i < |table| ==> table[i].f.Some?)
  {
    var table := Tabulate(classes, cols);
    var rows := table[..|classes|];
    assert seq(|rows|, c requires 0 <= c < |rows| => rows[c].f) == cols.f;
    assert seq(|rows|, c requires 0 <= c < |rows| => rows[c].p) == cols.p;
    assert seq(|rows|, c requires 0 <= c < |rows| => rows[c].r) == cols.r;
    ColumnMeanBounds(cols.f);
    ColumnMeanBounds(cols.p);
    ColumnMeanBounds(cols.r);
    if |classes| > 0 {
      assert AllDefined(cols.f);
    }
  }

  /** `audio_tagging_results(reference, estimated)` for strong tables: one
      row per class in the order of `classes`, then the "avg" row, whose
      every column is the unweighted mean of that column over the classes
      (NaN when there is no class or a class's value is NaN). */
  function AudioTaggingResults(reference: seq<EventRow>, estimated: seq<EventRow>, classes: seq<string>): (table: seq<ScoreRow>)
    ensures |table| == |classes| + 1
    ensures forall c :: 0 <= c < |classes| ==> table[c].name == classes[c]
    ensures table[|classes|].name == "avg"
    ensures var rows := table[..|classes|];
      && table[|classes|].f == Mean(seq(|rows|, c requires 0 <= c < |rows| => rows[c].f))
      && table[|classes|].p == Mean(seq(|rows|, c requires 0 <= c < |rows| => rows[c].p))
      && table[|classes|].r == Mean(seq(|rows|, c requires 0 <= c < |rows| => rows[c].r))
    ensures forall i :: 0 <= i < |table| && table[i].f.Some? ==> 0.0 <= table[i].f.value <= 1.0
    ensures forall i :: 0 <= i < |table| && table[i].p.Some? ==> 0.0 <= table[i].p.value <= 1.0
    ensures forall i :: 0 <= i < |table| && table[i].r.Some? ==> 0.0 <= table[i].r.value <= 1.0
    ensures |classes| > 0 ==> forall i :: 0 <= i < |table| ==> table[i].f.Some?
  {
    var cols := ScoreColumns(reference, estimated, classes);
    TabulateFacts(classes, cols);
    Tabulate(classes, cols)
  }

  /** A column's mean, when it is defined, lies in [0, 1] if every defined
      entry does. */
  lemma ColumnMeanBounds(xs: seq<Option<real>>)
    requires forall i :: 0 <= i < |xs| && xs[i].Some? ==> 0.0 <= xs[i].value <= 1.0
    ensures Mean(xs).Some? ==> 0.0 <= Mean(xs).value <= 1.0
  {
    if Mean(xs).Some? {
      MeanBounds(xs, 0.0, 1.0);
    }
  }

  /** An empty estimate scores every class, and the average, at 0 for f, p
      and r (as long as there is at least one class to average over). */
  lemma EmptyEstimateScoresZero(reference: seq<EventRow>, classes: seq<string>)
    requires |classes| > 0
    ensures forall row :: row in AudioTaggingResults(reference, [], classes) ==>
      row.f == Some(0.0) && row.p == Some(0.0) && row.r == Some(0.0)
  {
    var cols := ScoreColumns(reference, [], classes);
    MeanOfConstant(cols.f, 0.0);
    MeanOfConstant(cols.p, 0.0);
    MeanOfConstant(cols.r, 0.0);
    var table := AudioTaggingResults(reference, [], classes);
    var C := |classes|;
    assert seq(C, c requires 0 <= c < C => table[..C][c].f) == cols.f;
    assert seq(C, c requires 0 <= c < C => table[..C][c].p) == cols.p;
    assert seq(C, c requires 0 <= c < C => table[..C][c].r) == cols.r;
  }

  /** Some row of the table carries the label `tag`. */
  predicate UsesLabel(events: seq<EventRow>, tag: string)
  {
    exists i :: 0 <= i < |events| && events[i].eventLabel == Some(tag)
  }

  /** The estimate uses a class exactly when some file falls in the tp or
      the fp cell of that class. */
  lemma EstimateCells(reference: seq<EventRow>, estimated: seq<EventRow>, classes: seq<string>, c: nat)
    requires c < |classes|
    ensures UsesLabel(estimated, classes[c])
        <==> |FilesWhere(reference, estimated, classes, c, TruePositive)| + |FilesWhere(reference, estimated, classes, c, FalsePositive)| > 0
  {
    var tag := classes[c];
    var tps := FilesWhere(reference, estimated, classes, c, TruePositive);
    var fps := FilesWhere(reference, estimated, classes, c, FalsePositive);
    assert forall f :: f in tps + fps ==> HasLabel(estimated, f, tag);
    assert forall f :: HasLabel(estimated, f, tag) ==> UsesLabel(estimated, tag);
    if UsesLabel(estimated, tag) {
      var i :| 0 <= i < |estimated| && estimated[i].eventLabel == Some(tag);
      var f := estimated[i].filename;
      assert HasLabel(estimated, f, tag);
      ColumnHasFile(reference, estimated, f);
      if f in tps {
        assert |tps| > 0;
      } else {
        assert f in fps;
        assert |fps| > 0;
      }
    } else {
      assert tps == {} && fps == {};
    }
  }

  /** The reference uses a class exactly when some file falls in the tp or
      the fn cell of that class. */
  lemma ReferenceCells(reference: seq<EventRow>, estimated: seq<EventRow>, classes: seq<string>, c: nat)
    requires c < |classes|
    ensures UsesLabel(reference, classes[c])
        <==> |FilesWhere(reference, estimated, classes, c, TruePositive)| + |FilesWhere(reference, estimated, classes, c, FalseNegative)| > 0
  {
    var tag := classes[c];
    var tps := FilesWhere(reference, estimated, classes, c, TruePositive);
    var fns := FilesWhere(reference, estimated, classes, c, FalseNegative);
    assert forall f :: f in tps + fns ==> HasLabel(reference, f, tag);
    assert forall f :: HasLabel(reference, f, tag) ==> UsesLabel(reference, tag);
    if UsesLabel(reference, tag) {
      var i :| 0 <= i < |reference| && reference[i].eventLabel == Some(tag);
      var f := reference[i].filename;
      assert HasLabel(reference, f, tag);
      ColumnHasFile(reference, estimated, f);
      if f in tps {
        assert |tps| > 0;
      } else {
        assert f in fns;
        assert |fns| > 0;
      }
    } else {
      assert tps == {} && fns == {};
    }
  }

  /** tp + fp for a class is zero exactly when the estimate never uses the
      class. */
  lemma EstimateDenominator(reference: seq<EventRow>, estimated: seq<EventRow>, classes: seq<string>, c: nat)
    requires c < |classes|
    ensures var k := TaggingCounts(reference, estimated, classes);
      k.tp[c] + k.fp[c] == 0 <==> !UsesLabel(estimated, classes[c])
  {
    TaggingCountsCountFiles(reference, estimated, classes, c);
    EstimateCells(reference, estimated, classes, c);
  }

  /** tp + fn for a class is zero exactly when the reference never uses the
      class. */
  lemma ReferenceDenominator(reference: seq<EventRow>, estimated: seq<EventRow>, classes: seq<string>, c: nat)
    requires c < |classes|
    ensures var k := TaggingCounts(reference, estimated, classes);
      k.tp[c] + k.fn[c] == 0 <==> !UsesLabel(reference, classes[c])
  {
    TaggingCountsCountFiles(reference, estimated, classes, c);
    ReferenceCells(reference, estimated, classes, c);
  }

  /** With a non-empty estimate, a class's precision is NaN exactly when the
      estimate never uses the class, and its recall is NaN exactly when the
      reference never uses it. */
  lemma UndefinedRatios(reference: seq<EventRow>, estimated: seq<EventRow>, classes: seq<string>, c: nat)
    requires estimated != [] && c < |classes|
    ensures var row := AudioTaggingResults(reference, estimated, classes)[c];
      && (row.p.None? <==> !UsesLabel(estimated, classes[c]))
      && (row.r.None? <==> !UsesLabel(reference, classes[c]))
  {
    var table := AudioTaggingResults(reference, estimated, classes);
    var cols := ScoreColumns(reference, estimated, classes);
    assert table[c].p == cols.p[c] && table[c].r == cols.r[c];
    ScoresOfCounts(reference, estimated, classes, c);
    EstimateDenominator(reference, estimated, classes, c);
    ReferenceDenominator(reference, estimated, classes, c);
  }

  /** `classes` lists each label used by either table once (the order is the
      one `list(set(...))` happens to give). */
  ghost predicate IsClassList(reference: seq<EventRow>, estimated: seq<EventRow>, classes: seq<string>)
  {
    && Distinct(classes)
    && forall tag :: tag in classes <==> UsesLabel(reference, tag) || UsesLabel(estimated, tag)
  }

  /** With the class list built from the two tables and a non-empty
      estimate, no class has both its precision and its recall NaN. */
  lemma SomeRatioDefined(reference: seq<EventRow>, estimated: seq<EventRow>, classes: seq<string>, c: nat)
    requires estimated != [] && c < |classes|
    requires IsClassList(reference, estimated, classes)
    ensures var row := AudioTaggingResults(reference, estimated, classes)[c];
      row.p.Some? || row.r.Some?
  {
    assert classes[c] in classes;
    UndefinedRatios(reference, estimated, classes, c);
  }
}
