/** `DataProcessor.load_metadata`: read the enhancer/experiment catalogue, give its
    columns their canonical names and keep the rows that carry an enhancer id. */
module MetadataLoading {
  import opened Wrappers
  import opened Seqs
  import opened Tables

  /** The catalogue's own column names mapped to the names the dashboard uses. */
  function RenamedColumn(name: string): string
  {
    if name == "Enhancer_ID" then "enhancer_id"
    else if name == "Cargo" then "cargo"
    else if name == "Experiment_Type" then "experiment"
    else if name == "Proximal_Gene" then "proximal_gene"
    else if name == "Viewer Link" then "neuroglancer_url"
    else name
  }

  function RenameColumns(names: seq<string>): (renamed: seq<string>)
    ensures |renamed| == |names|
    ensures forall i :: 0 <= i < |names| ==> renamed[i] == RenamedColumn(names[i])
  {
    if names == [] then [] else [RenamedColumn(names[0])] + RenameColumns(names[1..])
  }

  /** The row's `enhancer_id` cell is neither null nor the empty string. */
  predicate HasEnhancerId(columns: seq<string>, row: MetaRow)
  {
    match Cell(row, IndexOf(columns, "enhancer_id"))
    case Some(id) => id != ""
    case None => false
  }

  datatype MetaLoad = MetaLoad(frame: MetaFrame, diagnostics: seq<Diagnostic>)

  /** `load_metadata` on a catalogue file (`None`: the file does not exist). */
  function LoadMetadata(file: Option<MetaFrame>): (r: MetaLoad)
    ensures file.None? ==> r == MetaLoad(NoMetadata, [Diagnostic(Warning, MetadataFileNotFound)])
    ensures file.Some? && "Enhancer_ID" !in file.value.columns ==>
              r == MetaLoad(NoMetadata, [Diagnostic(Warning, MetadataMissingIdColumn)])
    ensures file.Some? && "Enhancer_ID" in file.value.columns ==>
              && r.diagnostics == []
              && "enhancer_id" in r.frame.columns
              && |r.frame.rows| <= |file.value.rows|
              && forall row :: row in r.frame.rows ==>
                   ValueIn(r.frame, row, "enhancer_id").Some? && ValueIn(r.frame, row, "enhancer_id").value != ""
  {
    match file
    case None => MetaLoad(NoMetadata, [Diagnostic(Warning, MetadataFileNotFound)])
    case Some(df) =>
      if "Enhancer_ID" in df.columns then
        var columns := RenameColumns(df.columns);
        assert columns[IndexOf(df.columns, "Enhancer_ID")] == "enhancer_id";
        var rows := Filter(df.rows, (row: MetaRow) => HasEnhancerId(columns, row));
        assert forall row :: row in rows ==> HasEnhancerId(columns, row);
        MetaLoad(MetaFrame(columns, rows), [])
      else
        MetaLoad(NoMetadata, [Diagnostic(Warning, MetadataMissingIdColumn)])
  }

  /** The kept rows are the file's rows with an id, unchanged and in file order. */
  lemma LoadMetadataKeepsIdentifiedRows(df: MetaFrame)
    requires "Enhancer_ID" in df.columns
    ensures var frame := LoadMetadata(Some(df)).frame;
            && frame.columns == RenameColumns(df.columns)
            && IsSubsequence(frame.rows, df.rows)
            && forall row :: row in frame.rows <==> row in df.rows && HasEnhancerId(frame.columns, row)
  {
    var columns := RenameColumns(df.columns);
    var keep := (row: MetaRow) => HasEnhancerId(columns, row);
    FilterIsSubsequence(df.rows, keep);
    forall row ensures row in Filter(df.rows, keep) <==> row in df.rows && HasEnhancerId(columns, row) {
      FilterMembership(df.rows, keep, row);
    }
  }
}
