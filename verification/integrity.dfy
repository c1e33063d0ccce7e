/** `DataProcessor.validate_data_integrity`: required columns, coordinates that
    disagree within an enhancer, and accessibility scores outside [0, 1]. */
module Integrity {
  import opened Wrappers
  import opened Text
  import opened Seqs
  import opened Tables
  import opened PeakQueries

  datatype IntegrityWarning =
    | /** Enhancers, in ascending id order, whose rows disagree on a coordinate. */
      InconsistentCoordinates(enhancerIds: seq<string>)
    | NegativeScores
    | ScoresAboveOne

  datatype IntegrityError = PeakDataEmpty | MissingRequiredColumns(columns: seq<Column>)

  datatype Validation = Validation(isValid: bool, warnings: seq<IntegrityWarning>, errors: seq<IntegrityError>)

  const RequiredColumns: seq<Column> := [EnhancerId, Chr, Start, End, CellType, AccessibilityScore]

  /** The coordinate values one enhancer's rows take (`nunique` leaves out a null `chr`). */
  datatype CoordinateValues = CoordinateValues(chrs: set<string>, starts: set<int>, ends: set<int>)

  const NoValues := CoordinateValues({}, {}, {})

  function ValuesOf(rows: seq<PeakRow>, id: string): CoordinateValues
  {
    CoordinateValues(set p | p in rows && p.enhancerId == id && p.chr.Some? :: p.chr.value,
                     set p | p in rows && p.enhancerId == id :: p.start,
                     set p | p in rows && p.enhancerId == id :: p.end)
  }

  function WithRow(v: CoordinateValues, p: PeakRow): CoordinateValues
  {
    CoordinateValues(v.chrs + (if p.chr.Some? then {p.chr.value} else {}), v.starts + {p.start}, v.ends + {p.end})
  }

  /** `(nunique > 1).any(axis=1)` for one enhancer. */
  predicate Inconsistent(v: CoordinateValues)
  {
    |v.chrs| > 1 || |v.starts| > 1 || |v.ends| > 1
  }

  function Identity(s: string): string
  {
    s
  }

  /** The ids of `ids` whose coordinates are inconsistent, in the order of `ids`. */
  function Flagged(ids: seq<string>, rows: seq<PeakRow>): (flagged: seq<string>)
    ensures |flagged| <= |ids|
    ensures forall k :: 0 <= k < |flagged| ==> flagged[k] in ids
  {
    if ids == [] then []
    else
      var id := ids[|ids| - 1];
      Flagged(ids[..|ids| - 1], rows) + (if Inconsistent(ValuesOf(rows, id)) then [id] else [])
  }

  /** The groupby index: the distinct ids in ascending order. */
  function GroupKeys(rows: seq<PeakRow>): seq<string>
  {
    SortBy(Distinct(EnhancerIds(rows)), Identity)
  }

  function InconsistentIds(rows: seq<PeakRow>): seq<string>
  {
    Flagged(GroupKeys(rows), rows)
  }

  /** `acc_scores.min()`. */
  function MinScore(rows: seq<PeakRow>): (lo: real)
    requires rows != []
    ensures forall k :: 0 <= k < |rows| ==> lo <= rows[k].accessibilityScore
    ensures exists k :: 0 <= k < |rows| && lo == rows[k].accessibilityScore
  {
    var last := rows[|rows| - 1].accessibilityScore;
    if |rows| == 1 then last
    else
      var lo := MinScore(rows[..|rows| - 1]);
      if lo <= last then lo else last
  }

  /** `acc_scores.max()`. */
  function MaxScore(rows: seq<PeakRow>): (hi: real)
    requires rows != []
    ensures forall k :: 0 <= k < |rows| ==> rows[k].accessibilityScore <= hi
    ensures exists k :: 0 <= k < |rows| && hi == rows[k].accessibilityScore
  {
    var last := rows[|rows| - 1].accessibilityScore;
    if |rows| == 1 then last
    else
      var hi := MaxScore(rows[..|rows| - 1]);
      if last <= hi then hi else last
  }

  function CoordinateWarnings(peak: PeakData): seq<IntegrityWarning>
  {
    if {EnhancerId, Chr, Start, End} <= peak.columns && InconsistentIds(peak.rows) != []
    then [InconsistentCoordinates(InconsistentIds(peak.rows))]
    else []
  }

  function ScoreWarnings(peak: PeakData): seq<IntegrityWarning>
  {
    if peak.rows == [] || AccessibilityScore !in peak.columns then []
    else
      (if MinScore(peak.rows) < 0.0 then [NegativeScores] else [])
      + (if MaxScore(peak.rows) > 1.0 then [ScoresAboveOne] else [])
  }

  /** The validation report, with each check that needs an absent column left out
      (the missing column is reported as an error instead). */
  function IntegrityReport(peak: PeakData): Validation
  {
    if peak.IsEmpty() then Validation(false, [], [PeakDataEmpty])
    else
      var missing := MissingColumns(RequiredColumns, peak.columns);
      Validation(missing == [], CoordinateWarnings(peak) + ScoreWarnings(peak),
                 if missing == [] then [] else [MissingRequiredColumns(missing)])
  }

  /** The function as written: the coordinate check and the score check index their
      columns whether or not they exist, so an absent one raises `KeyError`. */
  function IntegrityReportAsWritten(peak: PeakData): (r: Result<Validation, Raised>)
    ensures r.Failure? <==>
              !peak.IsEmpty() && exists c :: c in [EnhancerId, Chr, Start, End, AccessibilityScore] && c !in peak.columns
    ensures r.Failure? ==>
              r.error.KeyError? && r.error.columns != [] && forall c :: c in r.error.columns ==> c !in peak.columns
    ensures r.Success? ==> r.value == IntegrityReport(peak)
  {
    var absent := MissingColumns([Chr, Start, End], peak.columns);
    assert absent == [] <==> Chr in peak.columns && Start in peak.columns && End in peak.columns by {
      MissingColumnsExact([Chr, Start, End], peak.columns, Chr);
      MissingColumnsExact([Chr, Start, End], peak.columns, Start);
      MissingColumnsExact([Chr, Start, End], peak.columns, End);
      if absent != [] {
        MissingColumnsExact([Chr, Start, End], peak.columns, absent[0]);
      }
    }
    assert forall c :: c in absent ==> c !in peak.columns by {
      forall c | c in absent ensures c !in peak.columns {
        MissingColumnsExact([Chr, Start, End], peak.columns, c);
      }
    }
    if peak.IsEmpty() then Success(IntegrityReport(peak))
    else if EnhancerId !in peak.columns then Failure(KeyError([EnhancerId]))
    else if absent != [] then Failure(KeyError(absent))
    else if AccessibilityScore !in peak.columns then Failure(KeyError([AccessibilityScore]))
    else Success(IntegrityReport(peak))
  }

  lemma ValuesStep(rows: seq<PeakRow>, i: int, id: string)
    requires 0 <= i < |rows|
    ensures ValuesOf(rows[..i + 1], id) == if rows[i].enhancerId == id then WithRow(ValuesOf(rows[..i], id), rows[i]) else ValuesOf(rows[..i], id)
  {
    assert rows[..i + 1] == rows[..i] + [rows[i]];
  }

  lemma ValuesOfAbsent(rows: seq<PeakRow>, id: string)
    requires id !in EnhancerIdSet(rows)
    ensures ValuesOf(rows, id) == NoValues
  {
    forall p | p in rows ensures p.enhancerId != id {
      assert p.enhancerId in EnhancerIdSet(rows);
    }
  }

  /** `peak_data.groupby('enhancer_id')[['chr', 'start', 'end']]`: one pass filling a
      dictionary from each id to its coordinate values. */
  method GroupCoordinates(rows: seq<PeakRow>) returns (groups: map<string, CoordinateValues>)
    ensures forall id :: id in groups <==> id in EnhancerIdSet(rows)
    ensures forall id :: id in groups ==> groups[id] == ValuesOf(rows, id)
  {
    groups := map[];
    for i := 0 to |rows|
      invariant forall id :: id in groups <==> id in EnhancerIdSet(rows[..i])
      invariant forall id :: id in groups ==> groups[id] == ValuesOf(rows[..i], id)
    {
      var p := rows[i];
      forall id ensures ValuesOf(rows[..i + 1], id) == if p.enhancerId == id then WithRow(ValuesOf(rows[..i], id), p) else ValuesOf(rows[..i], id) {
        ValuesStep(rows, i, id);
      }
      EnhancerIdSetStep(rows, i);
      if p.enhancerId !in groups {
        ValuesOfAbsent(rows[..i], p.enhancerId);
      }
      var current := if p.enhancerId in groups then groups[p.enhancerId] else NoValues;
      groups := groups[p.enhancerId := WithRow(current, p)];
    }
    assert rows[..|rows|] == rows;
  }

  /** The enhancers whose group has more than one value in some coordinate, in key order. */
  method SelectInconsistent(keys: seq<string>, groups: map<string, CoordinateValues>, ghost rows: seq<PeakRow>)
    returns (flagged: seq<string>)
    requires forall k :: 0 <= k < |keys| ==> keys[k] in groups && groups[keys[k]] == ValuesOf(rows, keys[k])
    ensures flagged == Flagged(keys, rows)
  {
    flagged := [];
    for i := 0 to |keys|
      invariant flagged == Flagged(keys[..i], rows)
    {
      assert keys[..i + 1][..i] == keys[..i];
      if Inconsistent(groups[keys[i]]) {
        flagged := flagged + [keys[i]];
      }
    }
    assert keys[..|keys|] == keys;
  }

  /** `min()` and `max()` of the score column, in one pass. */
  method ScoreRange(rows: seq<PeakRow>) returns (lo: real, hi: real)
    requires rows != []
    ensures lo == MinScore(rows) && hi == MaxScore(rows)
  {
    lo := rows[0].accessibilityScore;
    hi := rows[0].accessibilityScore;
    for i := 1 to |rows|
      invariant lo == MinScore(rows[..i]) && hi == MaxScore(rows[..i])
    {
      assert rows[..i + 1][..i] == rows[..i];
      var score := rows[i].accessibilityScore;
      if score < lo {
        lo := score;
      }
      if score > hi {
        hi := score;
      }
    }
    assert rows[..|rows|] == rows;
  }

  /** The coordinate-consistency check. */
  method CheckCoordinates(peak: PeakData) returns (warnings: seq<IntegrityWarning>)
    ensures warnings == CoordinateWarnings(peak)
  {
    warnings := [];
    if {EnhancerId, Chr, Start, End} <= peak.columns {
      var groups := GroupCoordinates(peak.rows);
      var ids := UniqueEnhancerIds(peak.rows);
      var keys := SortBy(ids, Identity);
      DistinctEnhancerIds(peak.rows);
      SortByElements(ids, Identity);
      forall k | 0 <= k < |keys| ensures keys[k] in EnhancerIdSet(peak.rows) {
        assert keys[k] in keys;
      }
      var inconsistent := SelectInconsistent(keys, groups, peak.rows);
      if inconsistent != [] {
        warnings := [InconsistentCoordinates(inconsistent)];
      }
    }
  }

  /** The two accessibility-score range checks. */
  method CheckScores(peak: PeakData) returns (warnings: seq<IntegrityWarning>)
    ensures warnings == ScoreWarnings(peak)
  {
    warnings := [];
    if peak.rows != [] && AccessibilityScore in peak.columns {
      var lo, hi := ScoreRange(peak.rows);
      if lo < 0.0 {
        warnings := warnings + [NegativeScores];
      }
      if hi > 1.0 {
        warnings := warnings + [ScoresAboveOne];
      }
    }
  }

  method ValidateDataIntegrity(peak: PeakData) returns (v: Validation)
    ensures v == IntegrityReport(peak)
  {
    if peak.IsEmpty() {
      return Validation(false, [], [PeakDataEmpty]);
    }
    var missing := MissingColumns(RequiredColumns, peak.columns);
    var errors := if missing == [] then [] else [MissingRequiredColumns(missing)];
    var coordinateWarnings := CheckCoordinates(peak);
    var scoreWarnings := CheckScores(peak);
    v := Validation(missing == [], coordinateWarnings + scoreWarnings, errors);
  }
}

/** What the validation report promises, and where the code as written falls short. */
module IntegrityProperties {
  import opened Wrappers
  import opened Text
  import opened Seqs
  import opened Tables
  import opened PeakQueries
  import opened Integrity

  /** Two rows disagree on a coordinate: different non-null chromosomes, starts or ends. */
  predicate Disagree(p: PeakRow, q: PeakRow)
  {
    (p.chr.Some? && q.chr.Some? && p.chr != q.chr) || p.start != q.start || p.end != q.end
  }

  /** Some two rows of enhancer `id` disagree. */
  predicate RowsDisagree(rows: seq<PeakRow>, id: string)
  {
    exists i, j :: && 0 <= i < |rows| && 0 <= j < |rows|
                   && rows[i].enhancerId == id && rows[j].enhancerId == id
                   && Disagree(rows[i], rows[j])
  }

  lemma InconsistentExact(rows: seq<PeakRow>, id: string)
    ensures Inconsistent(ValuesOf(rows, id)) <==> RowsDisagree(rows, id)
  {
    var v := ValuesOf(rows, id);
    TwoDifferentElements(v.chrs);
    TwoDifferentElements(v.starts);
    TwoDifferentElements(v.ends);
    if Inconsistent(v) {
      if |v.chrs| > 1 {
        var a, b :| a in v.chrs && b in v.chrs && a != b;
        var p :| p in rows && p.enhancerId == id && p.chr.Some? && p.chr.value == a;
        var q :| q in rows && q.enhancerId == id && q.chr.Some? && q.chr.value == b;
        var i :| 0 <= i < |rows| && rows[i] == p;
        var j :| 0 <= j < |rows| && rows[j] == q;
        assert Disagree(rows[i], rows[j]);
      } else if |v.starts| > 1 {
        var a, b :| a in v.starts && b in v.starts && a != b;
        var p :| p in rows && p.enhancerId == id && p.start == a;
        var q :| q in rows && q.enhancerId == id && q.start == b;
        var i :| 0 <= i < |rows| && rows[i] == p;
        var j :| 0 <= j < |rows| && rows[j] == q;
        assert Disagree(rows[i], rows[j]);
      } else {
        var a, b :| a in v.ends && b in v.ends && a != b;
        var p :| p in rows && p.enhancerId == id && p.end == a;
        var q :| q in rows && q.enhancerId == id && q.end == b;
        var i :| 0 <= i < |rows| && rows[i] == p;
        var j :| 0 <= j < |rows| && rows[j] == q;
        assert Disagree(rows[i], rows[j]);
      }
    }
    if RowsDisagree(rows, id) {
      var i, j :| && 0 <= i < |rows| && 0 <= j < |rows|
                  && rows[i].enhancerId == id && rows[j].enhancerId == id
                  && Disagree(rows[i], rows[j]);
      assert rows[i] in rows && rows[j] in rows;
      if rows[i].chr.Some? && rows[j].chr.Some? && rows[i].chr != rows[j].chr {
        assert rows[i].chr.value in v.chrs && rows[j].chr.value in v.chrs;
      } else if rows[i].start != rows[j].start {
        assert rows[i].start in v.starts && rows[j].start in v.starts;
      } else {
        assert rows[i].end in v.ends && rows[j].end in v.ends;
      }
    }
  }

  lemma {:induction false} FlaggedMembership(ids: seq<string>, rows: seq<PeakRow>, id: string)
    ensures id in Flagged(ids, rows) <==> id in ids && Inconsistent(ValuesOf(rows, id))
  {
    if ids != [] {
      var prefix := ids[..|ids| - 1];
      assert ids == prefix + [ids[|ids| - 1]];
      FlaggedMembership(prefix, rows, id);
    }
  }

  lemma {:induction false} FlaggedOrdered(ids: seq<string>, rows: seq<PeakRow>)
    requires SortedBy(ids, Identity) && NoDuplicates(ids)
    ensures SortedBy(Flagged(ids, rows), Identity) && NoDuplicates(Flagged(ids, rows))
  {
    if ids != [] {
      var n := |ids| - 1;
      var prefix := ids[..n];
      assert SortedBy(prefix, Identity) && NoDuplicates(prefix) by {
        forall i, j | 0 <= i < j < |prefix| ensures StrLe(Identity(prefix[i]), Identity(prefix[j])) && prefix[i] != prefix[j] {
          assert prefix[i] == ids[i] && prefix[j] == ids[j];
        }
      }
      FlaggedOrdered(prefix, rows);
      var earlier := Flagged(prefix, rows);
      var last := if Inconsistent(ValuesOf(rows, ids[n])) then [ids[n]] else [];
      var r := earlier + last;
      assert Flagged(ids, rows) == r;
      forall i, j | 0 <= i < j < |r| ensures StrLe(Identity(r[i]), Identity(r[j])) && r[i] != r[j] {
        if j < |earlier| {
          assert r[i] == earlier[i] && r[j] == earlier[j];
          assert StrLe(Identity(earlier[i]), Identity(earlier[j]));
        } else {
          assert r[j] == ids[n] && r[i] == earlier[i];
          var m :| 0 <= m < |prefix| && prefix[m] == earlier[i];
          assert StrLe(Identity(ids[m]), Identity(ids[n]));
        }
      }
    }
  }

  /** The warning names exactly the enhancers two of whose rows disagree on a coordinate. */
  lemma InconsistentIdsExact(rows: seq<PeakRow>, id: string)
    ensures id in InconsistentIds(rows) <==> RowsDisagree(rows, id)
  {
    var keys := GroupKeys(rows);
    FlaggedMembership(keys, rows, id);
    InconsistentExact(rows, id);
    SortByElements(Distinct(EnhancerIds(rows)), Identity);
    DistinctEnhancerIds(rows);
    if RowsDisagree(rows, id) {
      var i :| 0 <= i < |rows| && rows[i].enhancerId == id;
      assert rows[i] in rows;
      assert id in Elements(Distinct(EnhancerIds(rows)));
    }
  }

  /** The warning lists the enhancers in ascending id order, each once. */
  lemma InconsistentIdsOrdered(rows: seq<PeakRow>)
    ensures SortedBy(InconsistentIds(rows), Identity) && NoDuplicates(InconsistentIds(rows))
  {
    var ids := Distinct(EnhancerIds(rows));
    var keys := GroupKeys(rows);
    SortBySorted(ids, Identity);
    DistinctProperties(EnhancerIds(rows));
    PermutationKeepsDistinctKeys(ids, keys, Identity);
    FlaggedOrdered(keys, rows);
  }

  /** The negative-score warning is raised exactly when some score is negative. */
  lemma NegativeScoreWarning(peak: PeakData)
    requires !peak.IsEmpty() && AccessibilityScore in peak.columns
    ensures NegativeScores in IntegrityReport(peak).warnings <==>
              exists k :: 0 <= k < |peak.rows| && peak.rows[k].accessibilityScore < 0.0
  {
    assert NegativeScores !in CoordinateWarnings(peak);
    var lo := MinScore(peak.rows);
  }

  /** The above-one warning is raised exactly when some score exceeds one. */
  lemma AboveOneScoreWarning(peak: PeakData)
    requires !peak.IsEmpty() && AccessibilityScore in peak.columns
    ensures ScoresAboveOne in IntegrityReport(peak).warnings <==>
              exists k :: 0 <= k < |peak.rows| && peak.rows[k].accessibilityScore > 1.0
  {
    assert ScoresAboveOne !in CoordinateWarnings(peak);
    var hi := MaxScore(peak.rows);
  }

  /** A table is valid exactly when it is non-empty and has every required column; an
      invalid non-empty table has one error naming exactly the absent ones. */
  lemma MissingColumnsReported(peak: PeakData)
    ensures IntegrityReport(peak).isValid <==>
              !peak.IsEmpty() && forall c :: c in RequiredColumns ==> c in peak.columns
    ensures IntegrityReport(peak).isValid <==> IntegrityReport(peak).errors == []
    ensures peak.IsEmpty() ==> IntegrityReport(peak).errors == [PeakDataEmpty]
    ensures !peak.IsEmpty() && !IntegrityReport(peak).isValid ==>
              exists missing :: && IntegrityReport(peak).errors == [MissingRequiredColumns(missing)]
                                && forall c :: c in missing <==> c in RequiredColumns && c !in peak.columns
  {
    var missing := MissingColumns(RequiredColumns, peak.columns);
    forall c ensures c in missing <==> c in RequiredColumns && c !in peak.columns {
      MissingColumnsExact(RequiredColumns, peak.columns, c);
    }
    if missing != [] {
      assert missing[0] in missing;
    }
  }

  /** As written, the missing-columns error can only ever name `cell_type`: any other
      absent required column raises `KeyError` before the report is returned. */
  lemma AsWrittenReportsOnlyCellType(peak: PeakData, v: Validation, missing: seq<Column>)
    requires IntegrityReportAsWritten(peak) == Success(v) && MissingRequiredColumns(missing) in v.errors
    ensures forall c :: c in missing ==> c == CellType
  {
    forall c | c in missing ensures c == CellType {
      MissingColumnsExact(RequiredColumns, peak.columns, c);
      MissingColumnsExact([Chr, Start, End], peak.columns, c);
    }
  }

  /** A frame with rows whose columns are all unknown ones is not empty: the report
      names every required column, and the code as written raises on `enhancer_id`. */
  lemma UnknownColumnsOnlyReported(peak: PeakData)
    requires peak.columns == {} && peak.otherColumns && peak.rows != []
    ensures IntegrityReport(peak).errors == [MissingRequiredColumns(RequiredColumns)]
    ensures IntegrityReportAsWritten(peak) == Failure(KeyError([EnhancerId]))
  {
    NothingPresent(RequiredColumns);
  }

  /** A non-empty table without a `chr` column: the corrected report names the column,
      the code as written raises `KeyError('chr')` instead. */
  lemma MissingChrRaises()
    ensures var row := PeakRow("hs1", None, 10, 20, Some("L2/3 IT"), 0, 0.5);
            var peak := PeakData({EnhancerId, Start, End, CellType, PositionIndex, AccessibilityScore}, false, [row]);
            && IntegrityReportAsWritten(peak) == Failure(KeyError([Chr]))
            && IntegrityReport(peak).errors == [MissingRequiredColumns([Chr])]
            && !IntegrityReport(peak).isValid
  {
    var row := PeakRow("hs1", None, 10, 20, Some("L2/3 IT"), 0, 0.5);
    var columns := {EnhancerId, Start, End, CellType, PositionIndex, AccessibilityScore};
    assert MissingColumns([Chr, Start, End], columns) == [Chr];
    assert MissingColumns(RequiredColumns, columns) == [Chr];
  }
}
