/** The tables the data processor works on: signal ("peak") rows before and after
    cleaning, the metadata catalogue, and the diagnostics reported while loading. */
module Tables {
  import opened Wrappers

  /** The columns of the peak-signal CSV that the processor knows by name. */
  datatype Column = EnhancerId | Chr | Start | End | CellType | PositionIndex | AccessibilityScore

  /** The columns a peak-signal file is expected to carry, in the order they are reported. */
  const ExpectedPeakColumns: seq<Column> :=
    [EnhancerId, Chr, Start, End, CellType, PositionIndex, AccessibilityScore]

  /** `[c for c in wanted if c not in present]`. */
  function MissingColumns(wanted: seq<Column>, present: set<Column>): (m: seq<Column>)
    ensures |m| <= |wanted|
  {
    if wanted == [] then []
    else (if wanted[0] in present then [] else [wanted[0]]) + MissingColumns(wanted[1..], present)
  }

  /** The missing-column list names exactly the wanted columns that are absent. */
  lemma {:induction false} MissingColumnsExact(wanted: seq<Column>, present: set<Column>, c: Column)
    ensures c in MissingColumns(wanted, present) <==> c in wanted && c !in present
  {
    if wanted != [] {
      MissingColumnsExact(wanted[1..], present, c);
      assert wanted == [wanted[0]] + wanted[1..];
    }
  }

  /** With no known column present, every wanted column is missing. */
  lemma {:induction false} NothingPresent(wanted: seq<Column>)
    ensures MissingColumns(wanted, {}) == wanted
  {
    if wanted != [] {
      NothingPresent(wanted[1..]);
      assert wanted == [wanted[0]] + wanted[1..];
    }
  }

  /** One CSV row as read: every cell may be missing (NaN), numeric cells are still text. */
  datatype RawRow = RawRow(
    enhancerId: Option<string>,
    chr: Option<string>,
    start: Option<string>,
    end: Option<string>,
    cellType: Option<string>,
    positionIndex: Option<string>,
    accessibilityScore: Option<string>)

  /** A peak-signal file: the known columns its header names, whether it names any other
      column, and its rows. */
  datatype RawTable = RawTable(columns: set<Column>, otherColumns: bool, rows: seq<RawRow>)

  /** A row after numeric coercion: a failed conversion is a missing value. */
  datatype CoercedRow = CoercedRow(
    enhancerId: string,
    chr: Option<string>,
    start: Option<int>,
    end: Option<int>,
    cellType: Option<string>,
    positionIndex: Option<int>,
    accessibilityScore: Option<real>)

  /** A SignalRecord: a row whose key and numeric cells are all present. */
  datatype PeakRow = PeakRow(
    enhancerId: string,
    chr: Option<string>,
    start: int,
    end: int,
    cellType: Option<string>,
    positionIndex: int,
    accessibilityScore: real)

  /** A peak-signal data frame: its known columns, whether it has any column outside the
      known ones, and its rows. */
  datatype PeakData = PeakData(columns: set<Column>, otherColumns: bool, rows: seq<PeakRow>)
  {
    /** pandas' `DataFrame.empty`: no rows or no columns at all. */
    predicate IsEmpty()
    {
      |rows| == 0 || (columns == {} && !otherColumns)
    }
  }

  /** `pd.DataFrame()`. */
  const NoPeakData := PeakData({}, false, [])

  /** The `enhancer_id` column of a peak frame, row by row. */
  function EnhancerIds(rows: seq<PeakRow>): (ids: seq<string>)
    ensures |ids| == |rows|
    ensures forall k :: 0 <= k < |rows| ==> ids[k] == rows[k].enhancerId
  {
    if rows == [] then [] else EnhancerIds(rows[..|rows| - 1]) + [rows[|rows| - 1].enhancerId]
  }

  /** The `cell_type` column of a peak frame, row by row. */
  function CellTypes(rows: seq<PeakRow>): (cts: seq<Option<string>>)
    ensures |cts| == |rows|
    ensures forall k :: 0 <= k < |rows| ==> cts[k] == rows[k].cellType
  {
    if rows == [] then [] else CellTypes(rows[..|rows| - 1]) + [rows[|rows| - 1].cellType]
  }

  /** The distinct enhancer ids of a peak frame. */
  function EnhancerIdSet(rows: seq<PeakRow>): set<string>
  {
    set r | r in rows :: r.enhancerId
  }

  /** Adding a row adds its id to the table's ids. */
  lemma EnhancerIdSetStep(rows: seq<PeakRow>, i: int)
    requires 0 <= i < |rows|
    ensures EnhancerIdSet(rows[..i + 1]) == EnhancerIdSet(rows[..i]) + {rows[i].enhancerId}
  {
    assert rows[..i + 1] == rows[..i] + [rows[i]];
  }

  /** The exceptions pandas raises on the paths the model follows. */
  datatype Raised =
    | KeyError(columns: seq<Column>)   // a selected column is absent
    | EmptyIndex                       // `.index[0]` of an empty `value_counts()`

  /** One metadata row: one cell per column, `None` for null. */
  type MetaRow = seq<Option<string>>

  /** The metadata catalogue (a feather table): column names and rows. */
  datatype MetaFrame = MetaFrame(columns: seq<string>, rows: seq<MetaRow>)
  {
    /** pandas' `DataFrame.empty`: no rows or no columns. */
    predicate IsEmpty()
    {
      |rows| == 0 || |columns| == 0
    }
  }

  const NoMetadata := MetaFrame([], [])

  /** Position of the first column called `name`, or `|names|` when there is none. */
  function IndexOf(names: seq<string>, name: string): (i: nat)
    ensures i <= |names|
    ensures i < |names| <==> name in names
    ensures i < |names| ==> names[i] == name
    ensures forall j :: 0 <= j < i ==> names[j] != name
  {
    if names == [] then 0
    else if names[0] == name then 0
    else 1 + IndexOf(names[1..], name)
  }

  function Cell(row: MetaRow, i: nat): Option<string>
  {
    if i < |row| then row[i] else None
  }

  /** The cell of `row` in the column called `name`. */
  function ValueIn(frame: MetaFrame, row: MetaRow, name: string): Option<string>
  {
    Cell(row, IndexOf(frame.columns, name))
  }

  datatype Severity = Info | Warning | Error

  /** What a loader reports; counts are carried, message wording is not. */
  datatype Message =
    | MissingPeakColumns(columns: seq<Column>)
    | RemovedMissingCritical(count: nat)
    | InvalidCoordinates(count: nat)
    | PeakFileNotFound
    | PeakLoadFailed(error: Raised)
    | MetadataMissingIdColumn
    | MetadataFileNotFound

  datatype Diagnostic = Diagnostic(severity: Severity, message: Message)
}
