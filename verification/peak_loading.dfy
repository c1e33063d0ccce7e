/** `DataProcessor.load_peak_data`: read the peak-signal table and clean it in three
    steps, reporting how many rows each step removed. */
module PeakLoading {
  import opened Wrappers
  import opened Seqs
  import opened Tables

  /** `pd.to_numeric(..., errors='coerce')`, left abstract: a text that is not a
      number gives `None`. Coordinates and positions are integers, scores are reals. */
  datatype Parsers = Parsers(integer: string -> Option<int>, decimal: string -> Option<real>)

  /** The columns whose missing values drop a row before coercion. */
  const CriticalColumns: seq<Column> := [EnhancerId, AccessibilityScore]

  /** The columns coerced to numbers. */
  const NumericColumns: seq<Column> := [Start, End, PositionIndex, AccessibilityScore]

  predicate HasCriticalData(r: RawRow)
  {
    r.enhancerId.Some? && r.accessibilityScore.Some?
  }

  function CoerceCell<N>(cell: Option<string>, parse: string -> Option<N>): Option<N>
  {
    match cell
    case None => None
    case Some(text) => parse(text)
  }

  function Coerce(r: RawRow, parse: Parsers): CoercedRow
    requires r.enhancerId.Some?
  {
    CoercedRow(
      r.enhancerId.value, r.chr,
      CoerceCell(r.start, parse.integer), CoerceCell(r.end, parse.integer),
      r.cellType,
      CoerceCell(r.positionIndex, parse.integer),
      CoerceCell(r.accessibilityScore, parse.decimal))
  }

  /** Every row with its numeric columns coerced. */
  function CoerceAll(rows: seq<RawRow>, parse: Parsers): (cs: seq<CoercedRow>)
    requires forall k :: 0 <= k < |rows| ==> rows[k].enhancerId.Some?
    ensures |cs| == |rows|
    ensures forall k :: 0 <= k < |rows| ==> cs[k] == Coerce(rows[k], parse)
  {
    if rows == [] then []
    else CoerceAll(rows[..|rows| - 1], parse) + [Coerce(rows[|rows| - 1], parse)]
  }

  predicate IsComplete(c: CoercedRow)
  {
    c.start.Some? && c.end.Some? && c.positionIndex.Some? && c.accessibilityScore.Some?
  }

  function Completed(c: CoercedRow): PeakRow
    requires IsComplete(c)
  {
    PeakRow(c.enhancerId, c.chr, c.start.value, c.end.value, c.cellType,
            c.positionIndex.value, c.accessibilityScore.value)
  }

  /** A clean row seen as a coerced row. */
  function Widen(p: PeakRow): CoercedRow
  {
    CoercedRow(p.enhancerId, p.chr, Some(p.start), Some(p.end), p.cellType,
               Some(p.positionIndex), Some(p.accessibilityScore))
  }

  function WidenAll(ps: seq<PeakRow>): (cs: seq<CoercedRow>)
    ensures |cs| == |ps|
    ensures forall k :: 0 <= k < |ps| ==> cs[k] == Widen(ps[k])
  {
    if ps == [] then [] else WidenAll(ps[..|ps| - 1]) + [Widen(ps[|ps| - 1])]
  }

  /** `dropna(subset=numeric_cols)`: keep the rows whose coercions all succeeded. */
  function DropIncomplete(cs: seq<CoercedRow>): seq<PeakRow>
  {
    if cs == [] then []
    else
      var last := cs[|cs| - 1];
      DropIncomplete(cs[..|cs| - 1]) + (if IsComplete(last) then [Completed(last)] else [])
  }

  predicate HasValidCoordinates(p: PeakRow)
  {
    p.start < p.end
  }

  /** The rows that come through the first two cleaning steps. */
  function ParsedRows(t: RawTable, parse: Parsers): seq<PeakRow>
  {
    DropIncomplete(CoerceAll(Filter(t.rows, HasCriticalData), parse))
  }

  /** The cleaned frame and the diagnostics reported on the way. */
  datatype PeakLoad = PeakLoad(data: PeakData, diagnostics: seq<Diagnostic>)

  /** The warning naming the expected columns the file lacks, if any. */
  function SchemaDiagnostics(columns: set<Column>): seq<Diagnostic>
  {
    var missing := MissingColumns(ExpectedPeakColumns, columns);
    if missing == [] then [] else [Diagnostic(Warning, MissingPeakColumns(missing))]
  }

  /** The report of the first cleaning step: how many rows lacked an id or a score. */
  function CriticalDiagnostics(rows: seq<RawRow>): seq<Diagnostic>
  {
    var removed := |rows| - |Filter(rows, HasCriticalData)|;
    if removed > 0 then [Diagnostic(Info, RemovedMissingCritical(removed))] else []
  }

  /** The error reported when `dropna` selects columns the file lacks. */
  function LoadFailure(wanted: seq<Column>, columns: set<Column>): Diagnostic
  {
    Diagnostic(Error, PeakLoadFailed(KeyError(MissingColumns(wanted, columns))))
  }

  /** What `load_peak_data` returns for a file (`None`: the file does not exist). */
  function LoadedPeakData(file: Option<RawTable>, parse: Parsers): PeakLoad
  {
    match file
    case None => PeakLoad(NoPeakData, [Diagnostic(Error, PeakFileNotFound)])
    case Some(t) =>
      var schema := SchemaDiagnostics(t.columns);
      if MissingColumns(CriticalColumns, t.columns) != [] then
        PeakLoad(NoPeakData, schema + [LoadFailure(CriticalColumns, t.columns)])
      else
        var reported := schema + CriticalDiagnostics(t.rows);
        if MissingColumns(NumericColumns, t.columns) != [] then
          PeakLoad(NoPeakData, reported + [LoadFailure(NumericColumns, t.columns)])
        else
          var checked := CoordinateCheck(t, ParsedRows(t, parse));
          PeakLoad(checked.data, reported + checked.diagnostics)
  }

  /** The last cleaning step: drop and report the rows with `start >= end`. */
  function CoordinateCheck(t: RawTable, parsed: seq<PeakRow>): PeakLoad
  {
    var invalid := Reject(parsed, HasValidCoordinates);
    if |invalid| > 0 then
      PeakLoad(PeakData(t.columns, t.otherColumns, Filter(parsed, HasValidCoordinates)),
               [Diagnostic(Warning, InvalidCoordinates(|invalid|))])
    else
      PeakLoad(PeakData(t.columns, t.otherColumns, parsed), [])
  }

  method CoerceNumeric(rows: seq<RawRow>, parse: Parsers) returns (cs: seq<CoercedRow>)
    requires forall k :: 0 <= k < |rows| ==> rows[k].enhancerId.Some?
    ensures cs == CoerceAll(rows, parse)
  {
    cs := [];
    var i := 0;
    while i < |rows|
      invariant 0 <= i <= |rows|
      invariant |cs| == i
      invariant forall k :: 0 <= k < i ==> cs[k] == Coerce(rows[k], parse)
    {
      cs := cs + [Coerce(rows[i], parse)];
      i := i + 1;
    }
  }

  method DropUnparsed(cs: seq<CoercedRow>) returns (ps: seq<PeakRow>)
    ensures ps == DropIncomplete(cs)
  {
    ps := [];
    var i := 0;
    while i < |cs|
      invariant 0 <= i <= |cs|
      invariant ps == DropIncomplete(cs[..i])
    {
      assert cs[..i + 1][..i] == cs[..i];
      if IsComplete(cs[i]) {
        ps := ps + [Completed(cs[i])];
      }
      i := i + 1;
    }
    assert cs[..|cs|] == cs;
  }

  /** The `start >= end` mask: the rows it keeps and how many it flags. */
  method DropInvalidCoordinates(ps: seq<PeakRow>) returns (valid: seq<PeakRow>, flagged: nat)
    ensures valid == Filter(ps, HasValidCoordinates)
    ensures flagged == |Reject(ps, HasValidCoordinates)|
  {
    valid, flagged := [], 0;
    var i := 0;
    while i < |ps|
      invariant 0 <= i <= |ps|
      invariant valid == Filter(ps[..i], HasValidCoordinates)
      invariant flagged == |Reject(ps[..i], HasValidCoordinates)|
    {
      assert ps[..i + 1][..i] == ps[..i];
      if ps[i].start < ps[i].end {
        valid := valid + [ps[i]];
      } else {
        flagged := flagged + 1;
      }
      i := i + 1;
    }
    assert ps[..|ps|] == ps;
  }

  /** `load_peak_data`: the frame is rebound after each cleaning step. */
  method LoadPeakData(file: Option<RawTable>, parse: Parsers) returns (data: PeakData, diagnostics: seq<Diagnostic>)
    ensures PeakLoad(data, diagnostics) == LoadedPeakData(file, parse)
  {
    if file.None? {
      return NoPeakData, [Diagnostic(Error, PeakFileNotFound)];
    }
    var t := file.value;
    diagnostics := SchemaDiagnostics(t.columns);
    if MissingColumns(CriticalColumns, t.columns) != [] {
      return NoPeakData, diagnostics + [LoadFailure(CriticalColumns, t.columns)];
    }
    var initialRows := |t.rows|;
    var df := Select(t.rows, HasCriticalData);
    if |df| < initialRows {
      diagnostics := diagnostics + [Diagnostic(Info, RemovedMissingCritical(initialRows - |df|))];
    }
    if MissingColumns(NumericColumns, t.columns) != [] {
      return NoPeakData, diagnostics + [LoadFailure(NumericColumns, t.columns)];
    }
    var coerced := CoerceNumeric(df, parse);
    var parsed := DropUnparsed(coerced);
    var valid, flagged := DropInvalidCoordinates(parsed);
    if flagged > 0 {
      diagnostics := diagnostics + [Diagnostic(Warning, InvalidCoordinates(flagged))];
      data := PeakData(t.columns, t.otherColumns, valid);
    } else {
      data := PeakData(t.columns, t.otherColumns, parsed);
    }
  }
}

module PeakLoadingProperties {
  import opened Wrappers
  import opened Seqs
  import opened Tables
  import opened PeakLoading

  /** `p` is what cleaning makes of `raw`: its key, text cells and parsed numbers. */
  predicate CleanedFrom(p: PeakRow, raw: RawRow, parse: Parsers)
  {
    && raw.enhancerId == Some(p.enhancerId)
    && raw.chr == p.chr
    && raw.cellType == p.cellType
    && raw.start.Some? && parse.integer(raw.start.value) == Some(p.start)
    && raw.end.Some? && parse.integer(raw.end.value) == Some(p.end)
    && raw.positionIndex.Some? && parse.integer(raw.positionIndex.value) == Some(p.positionIndex)
    && raw.accessibilityScore.Some? && parse.decimal(raw.accessibilityScore.value) == Some(p.accessibilityScore)
  }

  /** The columns cleaning selects; without any of them pandas raises and the load fails. */
  predicate CleaningColumnsPresent(columns: set<Column>)
  {
    EnhancerId in columns && Start in columns && End in columns
    && PositionIndex in columns && AccessibilityScore in columns
  }

  lemma CleaningColumnsChecked(columns: set<Column>)
    ensures (MissingColumns(CriticalColumns, columns) == [] && MissingColumns(NumericColumns, columns) == [])
            <==> CleaningColumnsPresent(columns)
  {
    MissingColumnsExact(CriticalColumns, columns, EnhancerId);
    MissingColumnsExact(CriticalColumns, columns, AccessibilityScore);
    MissingColumnsExact(NumericColumns, columns, Start);
    MissingColumnsExact(NumericColumns, columns, End);
    MissingColumnsExact(NumericColumns, columns, PositionIndex);
    MissingColumnsExact(NumericColumns, columns, AccessibilityScore);
    var critical, numeric := MissingColumns(CriticalColumns, columns), MissingColumns(NumericColumns, columns);
    if critical != [] {
      MissingColumnsExact(CriticalColumns, columns, critical[0]);
    }
    if numeric != [] {
      MissingColumnsExact(NumericColumns, columns, numeric[0]);
    }
  }

  lemma CoerceMatches(raw: RawRow, p: PeakRow, parse: Parsers)
    requires raw.enhancerId.Some?
    ensures Coerce(raw, parse) == Widen(p) <==> CleanedFrom(p, raw, parse)
  {
  }

  lemma {:induction false} DropIncompleteMembership(cs: seq<CoercedRow>, p: PeakRow)
    ensures p in DropIncomplete(cs) <==> Widen(p) in cs
  {
    if cs != [] {
      var last := cs[|cs| - 1];
      DropIncompleteMembership(cs[..|cs| - 1], p);
      assert cs == cs[..|cs| - 1] + [last];
      if IsComplete(last) {
        assert Widen(Completed(last)) == last;
      }
    }
  }

  lemma {:induction false} DropIncompleteWidened(cs: seq<CoercedRow>)
    ensures WidenAll(DropIncomplete(cs)) == Filter(cs, IsComplete)
  {
    if cs != [] {
      DropIncompleteWidened(cs[..|cs| - 1]);
      var last := cs[|cs| - 1];
      if IsComplete(last) {
        assert Widen(Completed(last)) == last;
        var d := DropIncomplete(cs);
        assert d[..|d| - 1] == DropIncomplete(cs[..|cs| - 1]);
      }
    }
  }

  lemma {:induction false} WidenPreservesSubsequence(a: seq<PeakRow>, b: seq<PeakRow>)
    requires IsSubsequence(a, b)
    ensures IsSubsequence(WidenAll(a), WidenAll(b))
    decreases |b|
  {
    if a != [] {
      var a', b' := a[..|a| - 1], b[..|b| - 1];
      assert WidenAll(a)[..|a| - 1] == WidenAll(a');
      assert WidenAll(b) == WidenAll(b') + [Widen(b[|b| - 1])];
      if a[|a| - 1] == b[|b| - 1] {
        WidenPreservesSubsequence(a', b');
      } else {
        WidenPreservesSubsequence(a, b');
        SubsequenceExtend(WidenAll(a), WidenAll(b'), Widen(b[|b| - 1]));
      }
    }
  }

  lemma LoadedRows(t: RawTable, parse: Parsers)
    ensures LoadedPeakData(Some(t), parse).data.rows ==
              if CleaningColumnsPresent(t.columns)
              then CoordinateCheck(t, ParsedRows(t, parse)).data.rows
              else []
  {
    CleaningColumnsChecked(t.columns);
  }

  lemma CoordinateCheckMembership(t: RawTable, parsed: seq<PeakRow>, p: PeakRow)
    ensures p in CoordinateCheck(t, parsed).data.rows <==> p in parsed && p.start < p.end
  {
    FilterMembership(parsed, HasValidCoordinates, p);
    if Reject(parsed, HasValidCoordinates) == [] {
      RejectNothing(parsed, HasValidCoordinates);
    }
  }

  /** A row is in the cleaned frame exactly when the file has a row that parses to it
      and its coordinates satisfy `start < end`; a file lacking a column that cleaning
      selects gives no rows at all. */
  lemma LoadedRowsExactlyClean(file: Option<RawTable>, parse: Parsers, p: PeakRow)
    ensures p in LoadedPeakData(file, parse).data.rows <==>
              && file.Some?
              && CleaningColumnsPresent(file.value.columns)
              && p.start < p.end
              && exists raw :: raw in file.value.rows && CleanedFrom(p, raw, parse)
  {
    if file.Some? {
      var t := file.value;
      LoadedRows(t, parse);
      if CleaningColumnsPresent(t.columns) {
        var keyed := Filter(t.rows, HasCriticalData);
        var cs := CoerceAll(keyed, parse);
        var parsed := ParsedRows(t, parse);
        CoordinateCheckMembership(t, parsed, p);
        DropIncompleteMembership(cs, p);
        if p in parsed {
          var k :| 0 <= k < |cs| && cs[k] == Widen(p);
          FilterMembership(t.rows, HasCriticalData, keyed[k]);
          CoerceMatches(keyed[k], p, parse);
        }
        if exists raw :: raw in t.rows && CleanedFrom(p, raw, parse) {
          var raw :| raw in t.rows && CleanedFrom(p, raw, parse);
          FilterMembership(t.rows, HasCriticalData, raw);
          var k :| 0 <= k < |keyed| && keyed[k] == raw;
          CoerceMatches(raw, p, parse);
          assert cs[k] == Widen(p);
        }
      }
    }
  }

  /** Cleaning only removes rows: the cleaned rows are, in their original order,
      a subsequence of the coerced rows. */
  lemma LoadedRowsAreSubsequence(t: RawTable, parse: Parsers)
    requires CleaningColumnsPresent(t.columns)
    ensures IsSubsequence(WidenAll(LoadedPeakData(Some(t), parse).data.rows),
                          CoerceAll(Filter(t.rows, HasCriticalData), parse))
  {
    LoadedRows(t, parse);
    var cs := CoerceAll(Filter(t.rows, HasCriticalData), parse);
    var parsed := ParsedRows(t, parse);
    var rows := LoadedPeakData(Some(t), parse).data.rows;
    DropIncompleteWidened(cs);
    FilterIsSubsequence(cs, IsComplete);
    FilterIsSubsequence(parsed, HasValidCoordinates);
    SubsequenceOfSelf(parsed);
    WidenPreservesSubsequence(rows, parsed);
    SubsequenceTransitive(WidenAll(rows), WidenAll(parsed), cs);
  }

  /** The "missing critical data" count is the number of rows lacking an enhancer id
      or a score, and it is reported exactly when it is positive. */
  lemma MissingCriticalReported(t: RawTable, parse: Parsers)
    requires EnhancerId in t.columns && AccessibilityScore in t.columns
    ensures var diagnostics := LoadedPeakData(Some(t), parse).diagnostics;
            var lacking := |Reject(t.rows, HasCriticalData)|;
            && (Diagnostic(Info, RemovedMissingCritical(lacking)) in diagnostics <==> lacking > 0)
            && (forall n :: Diagnostic(Info, RemovedMissingCritical(n)) in diagnostics ==> n == lacking)
  {
    FilterRejectPartition(t.rows, HasCriticalData);
    assert MissingColumns(CriticalColumns, t.columns) == [];
    var tail := if MissingColumns(NumericColumns, t.columns) != [] then [LoadFailure(NumericColumns, t.columns)]
                else CoordinateCheck(t, ParsedRows(t, parse)).diagnostics;
    assert forall d :: d in tail ==> d.severity != Info;
    assert forall d :: d in SchemaDiagnostics(t.columns) ==> d.severity != Info;
    assert LoadedPeakData(Some(t), parse).diagnostics == SchemaDiagnostics(t.columns) + CriticalDiagnostics(t.rows) + tail;
  }

  /** The invalid-coordinate count is the number of rows the `start < end` step
      removed, and it is reported exactly when that step removed a row. */
  lemma InvalidCoordinatesReported(t: RawTable, parse: Parsers)
    requires CleaningColumnsPresent(t.columns)
    ensures var load := LoadedPeakData(Some(t), parse);
            var parsed := ParsedRows(t, parse);
            var removed := |parsed| - |load.data.rows|;
            && removed == |Reject(parsed, HasValidCoordinates)|
            && (Diagnostic(Warning, InvalidCoordinates(removed)) in load.diagnostics <==> removed > 0)
            && (forall n :: Diagnostic(Warning, InvalidCoordinates(n)) in load.diagnostics ==> n == removed)
  {
    CleaningColumnsChecked(t.columns);
    FilterRejectPartition(ParsedRows(t, parse), HasValidCoordinates);
  }

  /** A loaded frame that has rows carries every column cleaning selected, so it is
      empty exactly when it has no rows. */
  lemma LoadedFrameShape(file: Option<RawTable>, parse: Parsers)
    ensures var data := LoadedPeakData(file, parse).data;
            && (data.rows != [] ==> CleaningColumnsPresent(data.columns))
            && (data.IsEmpty() <==> data.rows == [])
  {
    if file.Some? {
      CleaningColumnsChecked(file.value.columns);
    }
  }
}
