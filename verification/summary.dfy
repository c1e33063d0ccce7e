/** The count fields of `DataProcessor.get_enhancer_summary`. */
module EnhancerSummary {
  import opened Wrappers
  import opened Seqs
  import opened Tables
  import opened PeakQueries
  import opened Reconciler
  import opened HallOfFameProperties

  /** `total_enhancers`, `total_cell_types`, `total_records` and, when the table has a
      `chr` column, `chromosomes_represented`. */
  datatype SummaryCounts = SummaryCounts(
    totalEnhancers: nat,
    totalCellTypes: nat,
    totalRecords: nat,
    chromosomesRepresented: Option<nat>)

  /** Non-null cell types (`value_counts` and `nunique` skip nulls). */
  function CellTypeSet(rows: seq<PeakRow>): set<string>
  {
    set p | p in rows && p.cellType.Some? :: p.cellType.value
  }

  /** Non-null chromosomes. */
  function ChromosomeSet(rows: seq<PeakRow>): set<string>
  {
    set p | p in rows && p.chr.Some? :: p.chr.value
  }

  /** `get_enhancer_summary(peak_data)`: `None` is the empty dictionary returned for an
      empty table; `EmptyIndex` is the `IndexError` of `value_counts().index[0]` on a
      column with no non-null value. */
  function Summary(peak: PeakData): Result<Option<SummaryCounts>, Raised>
  {
    if peak.IsEmpty() then Success(None)
    else if EnhancerId !in peak.columns then Failure(KeyError([EnhancerId]))
    else if CellType !in peak.columns then Failure(KeyError([CellType]))
    else if AccessibilityScore !in peak.columns then Failure(KeyError([AccessibilityScore]))
    else if CellTypeSet(peak.rows) == {} then Failure(EmptyIndex)
    else if Chr in peak.columns && ChromosomeSet(peak.rows) == {} then Failure(EmptyIndex)
    else
      var chromosomes := if Chr in peak.columns then Some(|ChromosomeSet(peak.rows)|) else None;
      Success(Some(SummaryCounts(|EnhancerIdSet(peak.rows)|, |CellTypeSet(peak.rows)|, |peak.rows|, chromosomes)))
  }

  lemma SetsStep(rows: seq<PeakRow>, i: int)
    requires 0 <= i < |rows|
    ensures CellTypeSet(rows[..i + 1]) == CellTypeSet(rows[..i]) + (if rows[i].cellType.Some? then {rows[i].cellType.value} else {})
    ensures ChromosomeSet(rows[..i + 1]) == ChromosomeSet(rows[..i]) + (if rows[i].chr.Some? then {rows[i].chr.value} else {})
  {
    assert rows[..i + 1] == rows[..i] + [rows[i]];
  }

  /** One pass over the rows collecting the distinct values the counts are taken of. */
  method EnhancerSummaryOf(peak: PeakData) returns (r: Result<Option<SummaryCounts>, Raised>)
    ensures r == Summary(peak)
  {
    if peak.IsEmpty() {
      return Success(None);
    }
    if EnhancerId !in peak.columns {
      return Failure(KeyError([EnhancerId]));
    }
    if CellType !in peak.columns {
      return Failure(KeyError([CellType]));
    }
    if AccessibilityScore !in peak.columns {
      return Failure(KeyError([AccessibilityScore]));
    }
    var enhancers: set<string> := {};
    var cellTypes: set<string> := {};
    var chromosomes: set<string> := {};
    for i := 0 to |peak.rows|
      invariant enhancers == EnhancerIdSet(peak.rows[..i])
      invariant cellTypes == CellTypeSet(peak.rows[..i])
      invariant chromosomes == ChromosomeSet(peak.rows[..i])
    {
      EnhancerIdSetStep(peak.rows, i);
      SetsStep(peak.rows, i);
      var p := peak.rows[i];
      enhancers := enhancers + {p.enhancerId};
      if p.cellType.Some? {
        cellTypes := cellTypes + {p.cellType.value};
      }
      if p.chr.Some? {
        chromosomes := chromosomes + {p.chr.value};
      }
    }
    assert peak.rows[..|peak.rows|] == peak.rows;
    if cellTypes == {} {
      return Failure(EmptyIndex);
    }
    if Chr in peak.columns && chromosomes == {} {
      return Failure(EmptyIndex);
    }
    var represented := if Chr in peak.columns then Some(|chromosomes|) else None;
    r := Success(Some(SummaryCounts(|enhancers|, |cellTypes|, |peak.rows|, represented)));
  }

  lemma {:induction false} SetBounds(rows: seq<PeakRow>)
    ensures |EnhancerIdSet(rows)| <= |rows|
    ensures |CellTypeSet(rows)| <= |rows|
    ensures |ChromosomeSet(rows)| <= |rows|
  {
    if rows != [] {
      var n := |rows| - 1;
      SetBounds(rows[..n]);
      EnhancerIdSetStep(rows, n);
      SetsStep(rows, n);
      assert rows[..n + 1] == rows;
    }
  }

  /** Every count lies between one and the number of records. */
  lemma SummaryBounds(peak: PeakData, counts: SummaryCounts)
    requires Summary(peak) == Success(Some(counts))
    ensures 1 <= counts.totalEnhancers <= counts.totalRecords
    ensures 1 <= counts.totalCellTypes <= counts.totalRecords
    ensures counts.totalRecords == |peak.rows|
    ensures counts.chromosomesRepresented.Some? <==> Chr in peak.columns
    ensures counts.chromosomesRepresented.Some? ==> 1 <= counts.chromosomesRepresented.value <= counts.totalRecords
  {
    SetBounds(peak.rows);
    assert peak.rows[0].enhancerId in EnhancerIdSet(peak.rows);
  }

  lemma DistinctIdsCardinality(rows: seq<HofRow>)
    requires forall i, j :: 0 <= i < j < |rows| ==> rows[i].enhancerId != rows[j].enhancerId
    ensures |IdsOf(rows)| == |rows|
  {
    var keys := seq(|rows|, k requires 0 <= k < |rows| => rows[k].enhancerId);
    assert Elements(keys) == IdsOf(rows) by {
      forall id ensures id in Elements(keys) <==> id in IdsOf(rows) {
        if id in IdsOf(rows) {
          var r :| r in rows && r.enhancerId == id;
          var k :| 0 <= k < |rows| && rows[k] == r;
          assert keys[k] == id;
        }
      }
    }
    NoDuplicatesCardinality(keys);
  }

  /** Without metadata, the Hall of Fame table has one row per enhancer the summary counts. */
  lemma SummaryMatchesHallOfFame(metadata: MetaFrame, peak: PeakData, counts: SummaryCounts, rows: seq<HofRow>)
    requires Summary(peak) == Success(Some(counts))
    requires HallOfFame(metadata, peak) == Success(rows) && !HasMetadata(metadata)
    ensures |rows| == counts.totalEnhancers
  {
    HallOfFameCoversEachEnhancer(metadata, peak, rows);
    OneProfilePerEnhancer(metadata, peak, rows);
    DistinctIdsCardinality(rows);
  }

  /** A frame with rows whose columns are all unknown ones is not empty, so both the
      Hall of Fame extraction and the summary select `enhancer_id` and raise. */
  lemma UnknownColumnsOnly(metadata: MetaFrame, peak: PeakData)
    requires peak.columns == {} && peak.otherColumns && peak.rows != []
    ensures HallOfFame(metadata, peak) == Failure(KeyError([EnhancerId]))
    ensures Summary(peak) == Failure(KeyError([EnhancerId]))
  {
  }
}
