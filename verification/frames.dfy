/** The pandas queries the processor runs on the peak table: selecting one
    enhancer's rows, `unique()` of a column, and the first row of a selection. */
module PeakQueries {
  import opened Wrappers
  import opened Seqs
  import opened Tables

  /** `peak_data[peak_data['enhancer_id'] == id]`: the rows of one enhancer, in table order. */
  function RowsOf(rows: seq<PeakRow>, id: string): (sel: seq<PeakRow>)
    ensures |sel| <= |rows|
    ensures forall k :: 0 <= k < |sel| ==> sel[k].enhancerId == id
  {
    if rows == [] then []
    else RowsOf(rows[..|rows| - 1], id) + (if rows[|rows| - 1].enhancerId == id then [rows[|rows| - 1]] else [])
  }

  /** Row `k` is the first row of enhancer `id` (`iloc[0]` of its selection). */
  predicate FirstRowOf(rows: seq<PeakRow>, id: string, k: int)
  {
    && 0 <= k < |rows|
    && rows[k].enhancerId == id
    && forall j :: 0 <= j < k ==> rows[j].enhancerId != id
  }

  /** The cell-type values, null included, that enhancer `id` was profiled in. */
  function CellTypeValues(rows: seq<PeakRow>, id: string): set<Option<string>>
  {
    set p | p in rows && p.enhancerId == id :: p.cellType
  }

  lemma {:induction false} RowsOfMembership(rows: seq<PeakRow>, id: string, p: PeakRow)
    ensures p in RowsOf(rows, id) <==> p in rows && p.enhancerId == id
  {
    if rows != [] {
      var prefix := rows[..|rows| - 1];
      assert rows == prefix + [rows[|rows| - 1]];
      RowsOfMembership(prefix, id, p);
    }
  }

  /** An enhancer has rows exactly when it occurs in the table. */
  lemma RowsOfNonEmpty(rows: seq<PeakRow>, id: string)
    ensures RowsOf(rows, id) != [] <==> id in EnhancerIdSet(rows)
  {
    if id in EnhancerIdSet(rows) {
      var p :| p in rows && p.enhancerId == id;
      RowsOfMembership(rows, id, p);
    }
    if RowsOf(rows, id) != [] {
      RowsOfMembership(rows, id, RowsOf(rows, id)[0]);
    }
  }

  /** `len(enhancer_peaks)` is the number of table rows carrying the id. */
  lemma {:induction false} RowsOfCount(rows: seq<PeakRow>, id: string)
    ensures |RowsOf(rows, id)| == multiset(EnhancerIds(rows))[id]
  {
    if rows != [] {
      var prefix := rows[..|rows| - 1];
      RowsOfCount(prefix, id);
      assert EnhancerIds(rows) == EnhancerIds(prefix) + [rows[|rows| - 1].enhancerId];
    }
  }

  /** The head of an enhancer's selection is its first row in the table. */
  lemma {:induction false} RowsOfHead(rows: seq<PeakRow>, id: string)
    requires RowsOf(rows, id) != []
    ensures exists k :: FirstRowOf(rows, id, k) && RowsOf(rows, id)[0] == rows[k]
  {
    var prefix := rows[..|rows| - 1];
    if RowsOf(prefix, id) != [] {
      RowsOfHead(prefix, id);
      var k :| FirstRowOf(prefix, id, k) && RowsOf(prefix, id)[0] == prefix[k];
      assert FirstRowOf(rows, id, k);
    } else {
      var k := |rows| - 1;
      forall j | 0 <= j < k ensures rows[j].enhancerId != id {
        assert rows[j] == prefix[j];
        RowsOfMembership(prefix, id, prefix[j]);
      }
      assert FirstRowOf(rows, id, k);
    }
  }

  /** `len(enhancer_peaks['cell_type'].unique())` counts the enhancer's cell-type values. */
  lemma CellTypeCount(rows: seq<PeakRow>, id: string)
    ensures |Distinct(CellTypes(RowsOf(rows, id)))| == |CellTypeValues(rows, id)|
  {
    var sel := RowsOf(rows, id);
    var cts := CellTypes(sel);
    DistinctCardinality(cts);
    forall c ensures c in Elements(cts) <==> c in CellTypeValues(rows, id) {
      if c in Elements(cts) {
        var k :| 0 <= k < |cts| && cts[k] == c;
        RowsOfMembership(rows, id, sel[k]);
      }
      if c in CellTypeValues(rows, id) {
        var p :| p in rows && p.enhancerId == id && p.cellType == c;
        RowsOfMembership(rows, id, p);
        var k :| 0 <= k < |sel| && sel[k] == p;
        assert cts[k] == c;
      }
    }
    assert Elements(cts) == CellTypeValues(rows, id);
  }

  /** `unique()` of the id column holds exactly the table's ids. */
  lemma DistinctEnhancerIds(rows: seq<PeakRow>)
    ensures Elements(Distinct(EnhancerIds(rows))) == EnhancerIdSet(rows)
  {
    var ids := EnhancerIds(rows);
    DistinctProperties(ids);
    forall id ensures id in Distinct(ids) <==> id in EnhancerIdSet(rows) {
      if id in Distinct(ids) {
        var k :| 0 <= k < |ids| && ids[k] == id;
        assert rows[k] in rows;
      }
      if id in EnhancerIdSet(rows) {
        var p :| p in rows && p.enhancerId == id;
        var k :| 0 <= k < |rows| && rows[k] == p;
        assert ids[k] == id;
      }
    }
  }

  /** `peak_data['enhancer_id'].unique()`: each id once, in order of first appearance. */
  method UniqueEnhancerIds(rows: seq<PeakRow>) returns (ids: seq<string>)
    ensures ids == Distinct(EnhancerIds(rows))
  {
    ids := [];
    for i := 0 to |rows|
      invariant ids == Distinct(EnhancerIds(rows[..i]))
    {
      assert rows[..i + 1][..i] == rows[..i];
      assert EnhancerIds(rows[..i + 1])[..i] == EnhancerIds(rows[..i]);
      if rows[i].enhancerId !in ids {
        ids := ids + [rows[i].enhancerId];
      }
    }
    assert rows[..|rows|] == rows;
  }

  /** `enhancer_peaks['cell_type'].unique()`, null counted as a value. */
  method UniqueCellTypes(rows: seq<PeakRow>) returns (cellTypes: seq<Option<string>>)
    ensures cellTypes == Distinct(CellTypes(rows))
  {
    cellTypes := [];
    for i := 0 to |rows|
      invariant cellTypes == Distinct(CellTypes(rows[..i]))
    {
      assert rows[..i + 1][..i] == rows[..i];
      assert CellTypes(rows[..i + 1])[..i] == CellTypes(rows[..i]);
      if rows[i].cellType !in cellTypes {
        cellTypes := cellTypes + [rows[i].cellType];
      }
    }
    assert rows[..|rows|] == rows;
  }

  /** The boolean-mask selection of one enhancer's rows. */
  method SelectEnhancer(rows: seq<PeakRow>, id: string) returns (sel: seq<PeakRow>)
    ensures sel == RowsOf(rows, id)
  {
    sel := [];
    for i := 0 to |rows|
      invariant sel == RowsOf(rows[..i], id)
    {
      assert rows[..i + 1][..i] == rows[..i];
      if rows[i].enhancerId == id {
        sel := sel + [rows[i]];
      }
    }
    assert rows[..|rows|] == rows;
  }
}
