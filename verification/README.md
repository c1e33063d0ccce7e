# Hall of Fame enhancer data processor: a Dafny model

This project models the core of `DataProcessor` (`data_processor.py`), which feeds the
enhancer accessibility dashboard. It covers:

- **Loading the peak-signal table** (`load_peak_data`). Three cleaning steps run in order:
  - rows missing an enhancer id or an accessibility score are dropped;
  - start, end, position index and score are coerced to numbers, and rows where a
    coercion failed are dropped;
  - rows with `start >= end` are dropped.

  The steps that remove rows report how many they removed.
- **Loading the enhancer/experiment catalogue** (`load_metadata`). Its columns are renamed,
  and rows without an enhancer id are dropped.
- **Building the Hall of Fame table** (`extract_hof_enhancers`):
  - when there is metadata: the metadata rows of the profiled enhancers, plus a
    placeholder for each profiled enhancer the metadata does not list;
  - otherwise: one profile row per enhancer, built from its signal rows;
  - in both cases, ordered by enhancer id.
- **The count fields of `get_enhancer_summary`.**
- **`validate_data_integrity`:**
  - the required columns;
  - enhancers whose rows disagree on chromosome, start or end;
  - accessibility scores outside [0, 1].

Frames are modelled as values:

- a peak table is a set of present known columns, a flag for any other column, and a sequence of rows;
- the catalogue is a sequence of column names plus rows of optional cells.

A column the code indexes but the table lacks raises `KeyError` in pandas. Where that exception escapes the function, the model returns it as a `Failure(KeyError(..))`. Messages to the user are returned as a list of `Diagnostic(severity, message)` values.

The loops the source runs (cleaning, `unique()`, row selection, the placeholder and profile loops, the grouping and the min/max scans) are methods. Most are proved equal to a specification function, and the promised properties are lemmas about those functions. The grouping method `GroupCoordinates` is instead characterised key by key: its keys are the table's ids, and each id maps to that id's values.

Files:

- `wrappers.dfy`: `Option` and `Result`.
- `text.dfy`: code-point string order and the decimal rendering of counts.
- `seqs.dfy`: filtering, subsequences, `unique()`, sorting.
- `tables.dfy`: columns, rows, frames, diagnostics.
- `peak_loading.dfy`, `metadata.dfy`, `frames.dfy`, `reconcile.dfy`, `summary.dfy`, `integrity.dfy`: the core operations and their properties.

## Model

| member | source | states |
|---|---|---|
| Text.StrLeTotal | data_processor.py:170 | any two enhancer ids are comparable in the code-point order `sort_values` uses |
| Text.StrLeTransitive | data_processor.py:170 | the id order is transitive |
| Text.DecimalRoundTrip | data_processor.py:133 | the decimal text written into "N cell types" reads back as N |
| Text.DecimalInjective | data_processor.py:155 | different counts give different "N cell types analyzed" texts |
| Seqs.Select | data_processor.py:41 | the row-by-row selection keeps exactly the rows the predicate accepts, in order |
| Seqs.FilterMembership | data_processor.py:41 | a row survives a filter exactly when it was in the input and passes the predicate |
| Seqs.FilterRejectPartition | data_processor.py:40-44 | kept rows plus removed rows account for every input row |
| Seqs.FilterIsSubsequence | data_processor.py:41 | filtering keeps the surviving rows in their original order |
| Seqs.SubsequenceTransitive | data_processor.py:41-60 | composing order-preserving cleaning steps is order-preserving |
| Seqs.DistinctProperties | data_processor.py:111 | `unique()` holds every input value and only input values, each once |
| Seqs.DistinctCardinality | data_processor.py:127 | `len(unique())` is the number of distinct values |
| Seqs.SortBy | data_processor.py:170 | sorting returns a permutation of its input |
| Seqs.SortBySorted | data_processor.py:170 | sorting returns rows ordered by the key, with ties in any order |
| Seqs.PermutationKeepsDistinctKeys | data_processor.py:170 | reordering rows whose ids are all different keeps them all different |
| Seqs.TwoDifferentElements | data_processor.py:236 | `nunique() > 1` exactly when two different values occur |
| Tables.MissingColumnsExact | data_processor.py:34 | the missing-column list holds exactly the expected columns the table lacks |
| Tables.IndexOf | data_processor.py:90 | a column is looked up at its first position, and a missing name is reported as such |
| PeakLoading.LoadPeakData | data_processor.py:26-69 | the loader's diagnostics and cleaned frame equal the load specification, including the not-found and failed-`dropna` paths |
| PeakLoading.CoerceNumeric | data_processor.py:47-50 | each row's numeric cells are coerced with the column's parser |
| PeakLoading.DropUnparsed | data_processor.py:53 | rows with a failed coercion are dropped and the others kept in order |
| PeakLoading.DropInvalidCoordinates | data_processor.py:56-60 | rows with `start >= end` are dropped, and the number dropped is returned |
| PeakLoadingProperties.CleaningColumnsChecked | data_processor.py:41-53 | both `dropna` calls succeed exactly when id, start, end, position index and score are all present |
| PeakLoadingProperties.LoadedRowsExactlyClean | data_processor.py:40-60 | a row is in the cleaned frame exactly when the file exists, has the needed columns and has a row with id and score whose numeric cells parse to it with `start < end` |
| PeakLoadingProperties.LoadedRowsAreSubsequence | data_processor.py:40-60 | cleaning only removes rows: the result is an order-preserving subsequence of the coerced input |
| PeakLoadingProperties.MissingCriticalReported | data_processor.py:40-44 | the "missing critical data" notice appears exactly when rows lacked an id or a score, with that count |
| PeakLoadingProperties.LoadedFrameShape | data_processor.py:40-62 | a loaded frame with rows has every column cleaning selected, so it is empty exactly when it has no rows |
| PeakLoadingProperties.InvalidCoordinatesReported | data_processor.py:55-60 | the invalid-coordinate warning appears exactly when the coordinate step removed rows, with that count |
| MetadataLoading.RenameColumns | data_processor.py:81-87 | each column is renamed by the fixed table, and the others are kept, in place |
| MetadataLoading.LoadMetadata | data_processor.py:71-98 | a missing file or id column gives an empty frame and a warning; otherwise every kept row has a non-null, non-empty `enhancer_id` |
| MetadataLoading.LoadMetadataKeepsIdentifiedRows | data_processor.py:89-92 | the kept rows are exactly the file's rows with an id, unchanged and in file order |
| PeakQueries.UniqueEnhancerIds | data_processor.py:111 | the scan returns the `unique()` of the id column |
| PeakQueries.UniqueCellTypes | data_processor.py:127 | the scan returns the `unique()` of the cell-type column, null included |
| PeakQueries.SelectEnhancer | data_processor.py:126 | the scan returns the enhancer's selection |
| PeakQueries.RowsOfMembership | data_processor.py:126 | a row is selected exactly when it belongs to the enhancer |
| PeakQueries.RowsOfNonEmpty | data_processor.py:146 | an enhancer's selection is non-empty exactly when the id occurs in the table |
| PeakQueries.RowsOfHead | data_processor.py:158-161 | `iloc[0]` of the selection is the enhancer's first row in the table |
| PeakQueries.RowsOfCount | data_processor.py:165 | the selection's length is the number of rows with the id |
| PeakQueries.CellTypeCount | data_processor.py:127-133 | `len(cell_types)` is the number of distinct cell-type values of the enhancer |
| PeakQueries.DistinctEnhancerIds | data_processor.py:111 | the ids of `unique()` are the ids of the table |
| Reconciler.Catalogue | data_processor.py:116 | the `isin` selection holds only metadata rows whose id is canonical |
| Reconciler.Uncovered | data_processor.py:119 | each missing enhancer is a canonical id the metadata selection does not cover, and the missing enhancers are pairwise distinct when the canonical ids are |
| HallOfFameProperties.UncoveredMembership | data_processor.py:119 | an id is missing exactly when it is canonical and not covered by the metadata selection |
| Reconciler.ExtractHofEnhancers | data_processor.py:104-170 | the method returns the Hall of Fame table or the `KeyError` the source raises |
| Reconciler.SelectCatalogued | data_processor.py:116 | the scan returns the `isin` selection |
| Reconciler.BuildPlaceholders | data_processor.py:123-136 | the loop builds one placeholder per missing enhancer |
| Reconciler.BuildProfiles | data_processor.py:142-166 | the loop builds one profile per enhancer that has rows |
| HallOfFameProperties.CatalogueMembership | data_processor.py:116 | a metadata row is selected exactly when its id is canonical |
| HallOfFameProperties.HallOfFameCoversEachEnhancer | data_processor.py:107-168 | empty signal gives an empty table; otherwise the table's ids are exactly the signal's ids |
| HallOfFameProperties.HallOfFameSorted | data_processor.py:170 | the table is ordered by enhancer id |
| HallOfFameProperties.CataloguedRowsPassThrough | data_processor.py:114-116 | with metadata, a metadata row appears unchanged exactly when its id is a profiled enhancer |
| HallOfFameProperties.PlaceholdersForUncatalogued | data_processor.py:118-139 | with metadata, a row is a placeholder exactly when no metadata row has its id; its fields are "Not specified", "Not specified", "Not specified", "", and "n cell types" with n the enhancer's distinct cell types |
| HallOfFameProperties.OneProfilePerEnhancer | data_processor.py:141-168 | without metadata, no two rows share an enhancer id |
| HallOfFameProperties.ProfilesSummariseEnhancers | data_processor.py:143-166 | without metadata, each row is the "Hall of Fame Collection" profile, with the first row's chromosome and coordinates, `length_bp = end - start`, its distinct cell types and its row count |
| EnhancerSummary.UnknownColumnsOnly | data_processor.py:174-180 | a frame with rows but only unknown columns is not empty, so the summary raises `KeyError` on `enhancer_id`, as the Hall of Fame extraction does at line 111 |
| EnhancerSummary.EnhancerSummaryOf | data_processor.py:172-212 | the one-pass count equals the summary: empty for an empty table, `KeyError` for a missing id, cell-type or score column, `IndexError` for an all-null cell-type or chromosome column |
| EnhancerSummary.SummaryBounds | data_processor.py:180-182 | the enhancer and cell-type counts lie between one and the record count, and the record count is the row count |
| EnhancerSummary.SummaryMatchesHallOfFame | data_processor.py:180 | without metadata, the Hall of Fame table has `total_enhancers` rows |
| Integrity.MinScore | data_processor.py:244 | the minimum is a score of some row and no row scores lower |
| Integrity.MaxScore | data_processor.py:247 | the maximum is a score of some row and no row scores higher |
| Integrity.GroupCoordinates | data_processor.py:235 | the grouping maps each id of the table, and only those, to its chromosome, start and end values |
| Integrity.SelectInconsistent | data_processor.py:236 | the scan keeps the group keys with more than one value in some coordinate |
| Integrity.ScoreRange | data_processor.py:243-247 | the scan returns the minimum and maximum score |
| Integrity.CheckCoordinates | data_processor.py:235-240 | the coordinate check returns the coordinate warning of the report |
| Integrity.CheckScores | data_processor.py:243-248 | the score checks return the score warnings of the report |
| Integrity.ValidateDataIntegrity | data_processor.py:214-250 | the method returns the corrected validation report |
| Integrity.IntegrityReportAsWritten | data_processor.py:214-250 | as written, the function raises `KeyError` exactly when the table is non-empty and lacks `enhancer_id`, `chr`, `start`, `end` or `accessibility_score`, naming only absent columns; otherwise it returns the report |
| IntegrityProperties.UnknownColumnsOnlyReported | data_processor.py:222-235 | for a frame with rows but only unknown columns, the report names every required column, and the function as written raises on `enhancer_id` |
| IntegrityProperties.InconsistentIdsExact | data_processor.py:235-240 | the coordinate warning names an enhancer exactly when two of its rows disagree on a non-null chromosome, a start or an end |
| IntegrityProperties.InconsistentIdsOrdered | data_processor.py:235-239 | the named enhancers are in ascending id order, each once |
| IntegrityProperties.NegativeScoreWarning | data_processor.py:243-245 | the negative-score warning appears exactly when some score is below 0 |
| IntegrityProperties.AboveOneScoreWarning | data_processor.py:247-248 | the above-one warning appears exactly when some score is above 1 |
| IntegrityProperties.MissingColumnsReported | data_processor.py:222-232 | empty input gives only "Peak data is empty"; otherwise the table is valid exactly when all required columns are present, whatever the warnings, and the error names exactly the absent columns |
| IntegrityProperties.AsWrittenReportsOnlyCellType | data_processor.py:228-243 | as written, a returned missing-columns error can only name `cell_type` |
| IntegrityProperties.MissingChrRaises | data_processor.py:235 | as written, a non-empty table without `chr` raises `KeyError`, while the corrected report names the missing column |

## Left out

- File access and paths (`pd.read_csv`, `feather.read_feather`, `os.path.exists`, the hard-coded file names). The loaders take the file's contents as an optional input, where `None` means the file does not exist.
- Streamlit output (`st.info`, `st.warning`, `st.error`). The model returns the diagnostics as values with a severity and a message kind carrying its counts or columns, not the message wording.
- The catch-all `except Exception` paths. In `load_peak_data` the modelled failure is the `KeyError` of a `dropna` on an absent column; any other pandas failure, and every failure in `load_metadata`, is not modelled.
- Number parsing: `pd.to_numeric` is an abstract parser per column kind. Start, end and position index parse to integers and the score to a real, so float-valued coordinates are not modelled.
- Coercion order: the source coerces column by column; the model coerces row by row, which gives the same cells.
- Floating-point statistics: the mean, max, median, std and round of scores and lengths in `extract_hof_enhancers` and `get_enhancer_summary`, and the `mean_accessibility`/`max_accessibility` fields of profile rows. Scores are exact reals, used only for the comparisons with 0 and 1.
- EnhancerSummary.Summary: `most_common_cell_type`, `least_common_cell_type` and `most_common_chromosome` depend on `value_counts` tie order and are left out; only their `IndexError` on an all-null column is kept.
- Reconciler.Uncovered: the source iterates the missing enhancers in Python set order, and the model takes first-appearance order. The missing ids are distinct and none of them is a catalogued id, so after the final sort by id the order does not show.
- Row shape of the Hall of Fame table: the pandas frame after `concat` holds null cells for the columns a row lacks. The model keeps each kind of row as its own constructor.
- MetadataLoading.LoadMetadata: duplicate column names after the rename are not modelled. A lookup by name reads the first such column.
- Frames that did not come out of `load_peak_data`: `extract_hof_enhancers`, `get_enhancer_summary` and `validate_data_integrity` are modelled on cleaned rows. Every row has a non-null `enhancer_id`, integer `start`, `end` and `position_index`, and a non-null score. A null id (the skip at line 146), NaN scores or coordinates (skipped by `nunique`, `min` and `max`), and `int(NaN)` at line 159 cannot be expressed in the model. Columns outside the seven known ones are recorded only as a flag, which `DataFrame.empty` needs.
- Integrity.ValidateDataIntegrity: the `metadata` parameter of `validate_data_integrity` is not modelled, because the function never reads it.
- `load_all_data` is plain sequencing of the three loaders and is not modelled.
- The facet filter and the chart builders are not part of this model.

## Findings

| source | as written | input that shows it | evidently intended | confidence | as-written member | corrected member |
|---|---|---|---|---|---|---|
| data_processor.py:228-243 | The missing-columns error is recorded. Then `groupby('enhancer_id')[['chr', 'start', 'end']]` and `peak_data['accessibility_score']` index those columns regardless, so an absent one raises `KeyError`. | A non-empty table without a `chr` column, e.g. one row `hs1`, start 10, end 20. `load_peak_data` only warns about the missing column, so such a table reaches validation. | Report `Missing required columns: ['chr']`, set `is_valid` to false, and skip the checks that need the absent column. | not executed | IntegrityProperties.MissingChrRaises | IntegrityProperties.MissingColumnsReported |
