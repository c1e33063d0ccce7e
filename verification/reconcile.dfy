/** `DataProcessor.extract_hof_enhancers`: one catalogue row per Hall of Fame
    enhancer, taken from the metadata when there is any and otherwise built
    from the enhancer's accessibility profile, ordered by enhancer id. */
module Reconciler {
  import opened Wrappers
  import opened Text
  import opened Seqs
  import opened Tables
  import opened PeakQueries

  const NotSpecified := "Not specified"
  const Collection := "Hall of Fame Collection"

  /** A row of the Hall of Fame table. */
  datatype HofRow =
    | /** A metadata row whose `enhancer_id` is one of the profiled enhancers, passed through. */
      Catalogued(enhancerId: string, cells: MetaRow)
    | /** Stand-in for a profiled enhancer the metadata does not list. */
      Placeholder(enhancerId: string, cargo: string, experiment: string, cellType: string,
                  proximalGene: string, neuroglancerUrl: string)
    | /** Summary of an enhancer's profile when there is no metadata at all. */
      Profiled(enhancerId: string, cargo: string, experiment: string, cellType: string,
               proximalGene: string, neuroglancerUrl: string,
               chromosome: Option<string>, startPosition: int, endPosition: int, lengthBp: int,
               numCellTypes: nat, totalDataPoints: nat)

  function IdKey(r: HofRow): string
  {
    r.enhancerId
  }

  function IdsOf(table: seq<HofRow>): set<string>
  {
    set r | r in table :: r.enhancerId
  }

  /** The metadata frame is non-empty and has an `enhancer_id` column. */
  predicate HasMetadata(metadata: MetaFrame)
  {
    !metadata.IsEmpty() && "enhancer_id" in metadata.columns
  }

  function MetadataId(metadata: MetaFrame, row: MetaRow): Option<string>
  {
    ValueIn(metadata, row, "enhancer_id")
  }

  /** `metadata_df[metadata_df['enhancer_id'].isin(ids)]`, in metadata order. */
  function Catalogue(metadata: MetaFrame, rows: seq<MetaRow>, ids: set<string>): (c: seq<HofRow>)
    ensures |c| <= |rows|
    ensures forall k :: 0 <= k < |c| ==> c[k].Catalogued? && c[k].enhancerId in ids
  {
    if rows == [] then []
    else
      var row := rows[|rows| - 1];
      var id := MetadataId(metadata, row);
      Catalogue(metadata, rows[..|rows| - 1], ids) + (if id.Some? && id.value in ids then [Catalogued(id.value, row)] else [])
  }

  /** The profiled ids the catalogue does not cover, as a set difference. */
  function Uncovered(ids: seq<string>, covered: set<string>): (missing: seq<string>)
    ensures forall k :: 0 <= k < |missing| ==> missing[k] in ids && missing[k] !in covered
    ensures NoDuplicates(ids) ==> NoDuplicates(missing)
  {
    if ids == [] then []
    else
      var last := ids[|ids| - 1];
      var earlier := Uncovered(ids[..|ids| - 1], covered);
      assert NoDuplicates(ids) ==> last !in ids[..|ids| - 1];
      earlier + (if last in covered then [] else [last])
  }

  /** The stand-in row for an uncatalogued enhancer. */
  function PlaceholderFor(id: string, rows: seq<PeakRow>): HofRow
  {
    var cellTypes := Distinct(CellTypes(RowsOf(rows, id)));
    Placeholder(id, NotSpecified, NotSpecified, Decimal(|cellTypes|) + " cell types", NotSpecified, "")
  }

  function Placeholders(ids: seq<string>, rows: seq<PeakRow>): (table: seq<HofRow>)
    ensures |table| == |ids|
    ensures forall k :: 0 <= k < |ids| ==> table[k] == PlaceholderFor(ids[k], rows)
  {
    if ids == [] then []
    else Placeholders(ids[..|ids| - 1], rows) + [PlaceholderFor(ids[|ids| - 1], rows)]
  }

  /** The `enhancer_info` record of an enhancer, from its rows and their first row. */
  function ProfileOf(id: string, enhancerPeaks: seq<PeakRow>, numCellTypes: nat): HofRow
    requires enhancerPeaks != []
  {
    var first := enhancerPeaks[0];
    Profiled(id, NotSpecified, Collection, Decimal(numCellTypes) + " cell types analyzed", NotSpecified, "",
             first.chr, first.start, first.end, first.end - first.start, numCellTypes, |enhancerPeaks|)
  }

  function ProfileFor(id: string, rows: seq<PeakRow>): HofRow
    requires RowsOf(rows, id) != []
  {
    var enhancerPeaks := RowsOf(rows, id);
    ProfileOf(id, enhancerPeaks, |Distinct(CellTypes(enhancerPeaks))|)
  }

  /** One profile per id that has rows, in id order. */
  function Profiles(ids: seq<string>, rows: seq<PeakRow>): (table: seq<HofRow>)
    ensures |table| <= |ids|
    ensures forall k :: 0 <= k < |table| ==> table[k].enhancerId in ids
  {
    if ids == [] then []
    else
      var id := ids[|ids| - 1];
      Profiles(ids[..|ids| - 1], rows) + (if RowsOf(rows, id) != [] then [ProfileFor(id, rows)] else [])
  }

  /** Columns the profile loop reads, in the order it reads them. */
  const ProfileColumns: seq<Column> := [CellType, AccessibilityScore, Chr, Start, End]

  /** The metadata branch: catalogued rows plus a placeholder per uncatalogued enhancer. */
  function FromMetadata(metadata: MetaFrame, peak: PeakData, ids: seq<string>): Result<seq<HofRow>, Raised>
  {
    var catalogued := Catalogue(metadata, metadata.rows, Elements(ids));
    var missing := Uncovered(ids, IdsOf(catalogued));
    if missing != [] && CellType !in peak.columns then Failure(KeyError([CellType]))
    else Success(SortBy(catalogued + Placeholders(missing, peak.rows), IdKey))
  }

  /** The branch without metadata: a profile per enhancer. */
  function FromProfiles(peak: PeakData, ids: seq<string>): Result<seq<HofRow>, Raised>
  {
    var absent := MissingColumns(ProfileColumns, peak.columns);
    if absent != [] then Failure(KeyError([absent[0]]))
    else Success(SortBy(Profiles(ids, peak.rows), IdKey))
  }

  /** `extract_hof_enhancers(metadata_df, peak_data)`; a `Failure` is the `KeyError` it raises. */
  function HallOfFame(metadata: MetaFrame, peak: PeakData): Result<seq<HofRow>, Raised>
  {
    if peak.IsEmpty() then Success([])
    else if EnhancerId !in peak.columns then Failure(KeyError([EnhancerId]))
    else
      var ids := Distinct(EnhancerIds(peak.rows));
      if HasMetadata(metadata) then FromMetadata(metadata, peak, ids) else FromProfiles(peak, ids)
  }

  method ExtractHofEnhancers(metadata: MetaFrame, peak: PeakData) returns (r: Result<seq<HofRow>, Raised>)
    ensures r == HallOfFame(metadata, peak)
  {
    if peak.IsEmpty() {
      return Success([]);
    }
    if EnhancerId !in peak.columns {
      return Failure(KeyError([EnhancerId]));
    }
    var hofIds := UniqueEnhancerIds(peak.rows);
    if HasMetadata(metadata) {
      var hofMetadata := SelectCatalogued(metadata, Elements(hofIds));
      var missing := Uncovered(hofIds, IdsOf(hofMetadata));
      if missing != [] && CellType !in peak.columns {
        return Failure(KeyError([CellType]));
      }
      var missingData := BuildPlaceholders(missing, peak.rows);
      r := Success(SortBy(hofMetadata + missingData, IdKey));
    } else {
      var absent := MissingColumns(ProfileColumns, peak.columns);
      if absent != [] {
        return Failure(KeyError([absent[0]]));
      }
      var enhancerInfo := BuildProfiles(hofIds, peak.rows);
      r := Success(SortBy(enhancerInfo, IdKey));
    }
  }

  /** The `isin` selection of the metadata rows, one row at a time. */
  method SelectCatalogued(metadata: MetaFrame, ids: set<string>) returns (hofMetadata: seq<HofRow>)
    ensures hofMetadata == Catalogue(metadata, metadata.rows, ids)
  {
    hofMetadata := [];
    for i := 0 to |metadata.rows|
      invariant hofMetadata == Catalogue(metadata, metadata.rows[..i], ids)
    {
      assert metadata.rows[..i + 1][..i] == metadata.rows[..i];
      var id := MetadataId(metadata, metadata.rows[i]);
      if id.Some? && id.value in ids {
        hofMetadata := hofMetadata + [Catalogued(id.value, metadata.rows[i])];
      }
    }
    assert metadata.rows[..|metadata.rows|] == metadata.rows;
  }

  /** The loop over the missing enhancers that fills `missing_data`. */
  method BuildPlaceholders(missing: seq<string>, rows: seq<PeakRow>) returns (missingData: seq<HofRow>)
    ensures missingData == Placeholders(missing, rows)
  {
    missingData := [];
    for i := 0 to |missing|
      invariant missingData == Placeholders(missing[..i], rows)
    {
      assert missing[..i + 1][..i] == missing[..i];
      var enhancerPeaks := SelectEnhancer(rows, missing[i]);
      var cellTypes := UniqueCellTypes(enhancerPeaks);
      missingData := missingData + [Placeholder(missing[i], NotSpecified, NotSpecified,
                                                Decimal(|cellTypes|) + " cell types", NotSpecified, "")];
    }
    assert missing[..|missing|] == missing;
  }

  /** The loop over the enhancer ids that fills `enhancer_info`. */
  method BuildProfiles(ids: seq<string>, rows: seq<PeakRow>) returns (enhancerInfo: seq<HofRow>)
    ensures enhancerInfo == Profiles(ids, rows)
  {
    enhancerInfo := [];
    for i := 0 to |ids|
      invariant enhancerInfo == Profiles(ids[..i], rows)
    {
      assert ids[..i + 1][..i] == ids[..i];
      var enhancerPeaks := SelectEnhancer(rows, ids[i]);
      if |enhancerPeaks| > 0 {
        var cellTypes := UniqueCellTypes(enhancerPeaks);
        var profile := ProfileOf(ids[i], enhancerPeaks, |cellTypes|);
        enhancerInfo := enhancerInfo + [profile];
      }
    }
    assert ids[..|ids|] == ids;
  }
}

/** What the Hall of Fame table promises about the profiled enhancers. */
module HallOfFameProperties {
  import opened Wrappers
  import opened Text
  import opened Seqs
  import opened Tables
  import opened PeakQueries
  import opened Reconciler

  lemma {:induction false} CatalogueMembership(metadata: MetaFrame, rows: seq<MetaRow>, ids: set<string>, v: string, m: MetaRow)
    ensures Catalogued(v, m) in Catalogue(metadata, rows, ids) <==> m in rows && MetadataId(metadata, m) == Some(v) && v in ids
  {
    if rows != [] {
      var prefix := rows[..|rows| - 1];
      assert rows == prefix + [rows[|rows| - 1]];
      CatalogueMembership(metadata, prefix, ids, v, m);
    }
  }

  lemma {:induction false} UncoveredMembership(ids: seq<string>, covered: set<string>, x: string)
    ensures x in Uncovered(ids, covered) <==> x in ids && x !in covered
  {
    if ids != [] {
      var prefix := ids[..|ids| - 1];
      assert ids == prefix + [ids[|ids| - 1]];
      UncoveredMembership(prefix, covered, x);
    }
  }

  lemma {:induction false} ProfilesMembership(ids: seq<string>, rows: seq<PeakRow>, r: HofRow)
    ensures r in Profiles(ids, rows) <==>
              r.enhancerId in ids && RowsOf(rows, r.enhancerId) != [] && r == ProfileFor(r.enhancerId, rows)
  {
    if ids != [] {
      var prefix := ids[..|ids| - 1];
      assert ids == prefix + [ids[|ids| - 1]];
      ProfilesMembership(prefix, rows, r);
    }
  }

  lemma {:induction false} ProfilesDistinctIds(ids: seq<string>, rows: seq<PeakRow>)
    requires NoDuplicates(ids)
    ensures forall i, j :: 0 <= i < j < |Profiles(ids, rows)| ==> Profiles(ids, rows)[i].enhancerId != Profiles(ids, rows)[j].enhancerId
  {
    if ids != [] {
      var prefix := ids[..|ids| - 1];
      assert NoDuplicates(prefix);
      ProfilesDistinctIds(prefix, rows);
      assert ids[|ids| - 1] !in prefix;
    }
  }

  /** The table's metadata branch, taken apart. */
  lemma MetadataBranch(metadata: MetaFrame, peak: PeakData, rows: seq<HofRow>)
    requires HallOfFame(metadata, peak) == Success(rows) && !peak.IsEmpty() && HasMetadata(metadata)
    ensures var ids := Distinct(EnhancerIds(peak.rows));
            var catalogued := Catalogue(metadata, metadata.rows, Elements(ids));
            var placeholders := Placeholders(Uncovered(ids, IdsOf(catalogued)), peak.rows);
            && Elements(ids) == EnhancerIdSet(peak.rows)
            && forall r :: r in rows <==> r in catalogued || r in placeholders
  {
    DistinctEnhancerIds(peak.rows);
    var ids := Distinct(EnhancerIds(peak.rows));
    var catalogued := Catalogue(metadata, metadata.rows, Elements(ids));
    var placeholders := Placeholders(Uncovered(ids, IdsOf(catalogued)), peak.rows);
    SortByElements(catalogued + placeholders, IdKey);
  }

  /** The table's branch without metadata, taken apart. */
  lemma ProfileBranch(metadata: MetaFrame, peak: PeakData, rows: seq<HofRow>)
    requires HallOfFame(metadata, peak) == Success(rows) && !peak.IsEmpty() && !HasMetadata(metadata)
    ensures var ids := Distinct(EnhancerIds(peak.rows));
            && (forall k :: 0 <= k < |ids| ==> ids[k] in EnhancerIdSet(peak.rows))
            && multiset(rows) == multiset(Profiles(ids, peak.rows))
            && forall r :: r in rows <==> r in Profiles(ids, peak.rows)
  {
    var ids := Distinct(EnhancerIds(peak.rows));
    DistinctEnhancerIds(peak.rows);
    assert forall k :: 0 <= k < |ids| ==> ids[k] in Elements(ids);
    SortByElements(Profiles(ids, peak.rows), IdKey);
  }

  lemma MetadataTableIds(metadata: MetaFrame, ids: seq<string>, peakRows: seq<PeakRow>)
    ensures var catalogued := Catalogue(metadata, metadata.rows, Elements(ids));
            IdsOf(catalogued + Placeholders(Uncovered(ids, IdsOf(catalogued)), peakRows)) == Elements(ids)
  {
    var catalogued := Catalogue(metadata, metadata.rows, Elements(ids));
    var missing := Uncovered(ids, IdsOf(catalogued));
    var placeholders := Placeholders(missing, peakRows);
    var table := catalogued + placeholders;
    forall id ensures id in IdsOf(table) <==> id in Elements(ids) {
      if id in IdsOf(table) {
        var r :| r in table && r.enhancerId == id;
        if r in placeholders {
          var k :| 0 <= k < |placeholders| && placeholders[k] == r;
          UncoveredMembership(ids, IdsOf(catalogued), missing[k]);
        }
      }
      if id in Elements(ids) && id !in IdsOf(catalogued) {
        UncoveredMembership(ids, IdsOf(catalogued), id);
        var k :| 0 <= k < |missing| && missing[k] == id;
        assert placeholders[k] in table;
      }
    }
  }

  lemma ProfileTableIds(ids: seq<string>, peakRows: seq<PeakRow>)
    requires forall k :: 0 <= k < |ids| ==> ids[k] in EnhancerIdSet(peakRows)
    ensures IdsOf(Profiles(ids, peakRows)) == Elements(ids)
  {
    var table := Profiles(ids, peakRows);
    forall id ensures id in IdsOf(table) <==> id in Elements(ids) {
      if id in IdsOf(table) {
        var r :| r in table && r.enhancerId == id;
        ProfilesMembership(ids, peakRows, r);
      }
      if id in Elements(ids) {
        RowsOfNonEmpty(peakRows, id);
        ProfilesMembership(ids, peakRows, ProfileFor(id, peakRows));
      }
    }
  }

  lemma MetadataCoverage(metadata: MetaFrame, peak: PeakData, rows: seq<HofRow>)
    requires HallOfFame(metadata, peak) == Success(rows) && !peak.IsEmpty() && HasMetadata(metadata)
    ensures IdsOf(rows) == EnhancerIdSet(peak.rows)
  {
    var ids := Distinct(EnhancerIds(peak.rows));
    MetadataBranch(metadata, peak, rows);
    MetadataTableIds(metadata, ids, peak.rows);
    var catalogued := Catalogue(metadata, metadata.rows, Elements(ids));
    var table := catalogued + Placeholders(Uncovered(ids, IdsOf(catalogued)), peak.rows);
    assert IdsOf(rows) == IdsOf(table);
  }

  lemma ProfileCoverage(metadata: MetaFrame, peak: PeakData, rows: seq<HofRow>)
    requires HallOfFame(metadata, peak) == Success(rows) && !peak.IsEmpty() && !HasMetadata(metadata)
    ensures IdsOf(rows) == EnhancerIdSet(peak.rows)
  {
    var ids := Distinct(EnhancerIds(peak.rows));
    ProfileBranch(metadata, peak, rows);
    ProfileTableIds(ids, peak.rows);
    assert IdsOf(rows) == IdsOf(Profiles(ids, peak.rows));
    DistinctEnhancerIds(peak.rows);
  }

  /** Every profiled enhancer appears in the table, and nothing else does. */
  lemma HallOfFameCoversEachEnhancer(metadata: MetaFrame, peak: PeakData, rows: seq<HofRow>)
    requires HallOfFame(metadata, peak) == Success(rows)
    ensures peak.IsEmpty() ==> rows == []
    ensures !peak.IsEmpty() ==> IdsOf(rows) == EnhancerIdSet(peak.rows)
  {
    if !peak.IsEmpty() {
      if HasMetadata(metadata) {
        MetadataCoverage(metadata, peak, rows);
      } else {
        ProfileCoverage(metadata, peak, rows);
      }
    }
  }

  /** The table is ordered by enhancer id. */
  lemma HallOfFameSorted(metadata: MetaFrame, peak: PeakData, rows: seq<HofRow>)
    requires HallOfFame(metadata, peak) == Success(rows)
    ensures SortedBy(rows, IdKey)
  {
    if !peak.IsEmpty() {
      var ids := Distinct(EnhancerIds(peak.rows));
      if HasMetadata(metadata) {
        var catalogued := Catalogue(metadata, metadata.rows, Elements(ids));
        SortBySorted(catalogued + Placeholders(Uncovered(ids, IdsOf(catalogued)), peak.rows), IdKey);
      } else {
        SortBySorted(Profiles(ids, peak.rows), IdKey);
      }
    }
  }

  /** With metadata, the metadata rows of profiled enhancers pass through unchanged. */
  lemma CataloguedRowsPassThrough(metadata: MetaFrame, peak: PeakData, rows: seq<HofRow>, v: string, m: MetaRow)
    requires HallOfFame(metadata, peak) == Success(rows) && !peak.IsEmpty() && HasMetadata(metadata)
    ensures Catalogued(v, m) in rows <==>
              m in metadata.rows && MetadataId(metadata, m) == Some(v) && v in EnhancerIdSet(peak.rows)
  {
    MetadataBranch(metadata, peak, rows);
    var ids := Distinct(EnhancerIds(peak.rows));
    CatalogueMembership(metadata, metadata.rows, Elements(ids), v, m);
  }

  lemma PlaceholderRow(metadata: MetaFrame, ids: seq<string>, peakRows: seq<PeakRow>, r: HofRow)
    requires var catalogued := Catalogue(metadata, metadata.rows, Elements(ids));
             r in catalogued + Placeholders(Uncovered(ids, IdsOf(catalogued)), peakRows)
    ensures r.Catalogued? || r.Placeholder?
    ensures r.Placeholder? <==> forall m :: m in metadata.rows ==> MetadataId(metadata, m) != Some(r.enhancerId)
    ensures r.Placeholder? ==>
              && r.cargo == NotSpecified && r.experiment == NotSpecified && r.proximalGene == NotSpecified
              && r.neuroglancerUrl == ""
              && r.cellType == Decimal(|CellTypeValues(peakRows, r.enhancerId)|) + " cell types"
  {
    var catalogued := Catalogue(metadata, metadata.rows, Elements(ids));
    var missing := Uncovered(ids, IdsOf(catalogued));
    var placeholders := Placeholders(missing, peakRows);
    if r in catalogued {
      CatalogueMembership(metadata, metadata.rows, Elements(ids), r.enhancerId, r.cells);
    } else {
      var k :| 0 <= k < |placeholders| && placeholders[k] == r;
      var id := missing[k];
      UncoveredMembership(ids, IdsOf(catalogued), id);
      forall m | m in metadata.rows ensures MetadataId(metadata, m) != Some(id) {
        CatalogueMembership(metadata, metadata.rows, Elements(ids), id, m);
        assert Catalogued(id, m) in catalogued ==> id in IdsOf(catalogued);
      }
      CellTypeCount(peakRows, id);
    }
  }

  /** With metadata, a profiled enhancer the metadata does not list gets a stand-in row
      that reports how many cell types it was seen in. */
  lemma PlaceholdersForUncatalogued(metadata: MetaFrame, peak: PeakData, rows: seq<HofRow>, r: HofRow)
    requires HallOfFame(metadata, peak) == Success(rows) && HasMetadata(metadata) && r in rows
    ensures r.Catalogued? || r.Placeholder?
    ensures r.Placeholder? <==> forall m :: m in metadata.rows ==> MetadataId(metadata, m) != Some(r.enhancerId)
    ensures r.Placeholder? ==>
              && r.cargo == NotSpecified && r.experiment == NotSpecified && r.proximalGene == NotSpecified
              && r.neuroglancerUrl == ""
              && r.cellType == Decimal(|CellTypeValues(peak.rows, r.enhancerId)|) + " cell types"
  {
    MetadataBranch(metadata, peak, rows);
    PlaceholderRow(metadata, Distinct(EnhancerIds(peak.rows)), peak.rows, r);
  }

  /** Without metadata, each profiled enhancer has exactly one row. */
  lemma OneProfilePerEnhancer(metadata: MetaFrame, peak: PeakData, rows: seq<HofRow>)
    requires HallOfFame(metadata, peak) == Success(rows) && !HasMetadata(metadata)
    ensures forall i, j :: 0 <= i < j < |rows| ==> rows[i].enhancerId != rows[j].enhancerId
  {
    if !peak.IsEmpty() {
      var ids := Distinct(EnhancerIds(peak.rows));
      ProfileBranch(metadata, peak, rows);
      DistinctProperties(EnhancerIds(peak.rows));
      ProfilesDistinctIds(ids, peak.rows);
      PermutationKeepsDistinctKeys(Profiles(ids, peak.rows), rows, IdKey);
    }
  }

  /** Without metadata, each row summarises its enhancer: coordinates from the
      enhancer's first row, its distinct cell types and its number of rows. */
  lemma ProfilesSummariseEnhancers(metadata: MetaFrame, peak: PeakData, rows: seq<HofRow>, r: HofRow)
    requires HallOfFame(metadata, peak) == Success(rows) && !HasMetadata(metadata) && r in rows
    ensures r.Profiled?
    ensures r.cargo == NotSpecified && r.experiment == Collection && r.proximalGene == NotSpecified
    ensures r.neuroglancerUrl == ""
    ensures exists k :: && FirstRowOf(peak.rows, r.enhancerId, k)
                        && r.chromosome == peak.rows[k].chr
                        && r.startPosition == peak.rows[k].start
                        && r.endPosition == peak.rows[k].end
    ensures r.lengthBp == r.endPosition - r.startPosition
    ensures r.numCellTypes == |CellTypeValues(peak.rows, r.enhancerId)|
    ensures r.cellType == Decimal(r.numCellTypes) + " cell types analyzed"
    ensures r.totalDataPoints == multiset(EnhancerIds(peak.rows))[r.enhancerId]
  {
    var ids := Distinct(EnhancerIds(peak.rows));
    ProfileBranch(metadata, peak, rows);
    ProfilesMembership(ids, peak.rows, r);
    var id := r.enhancerId;
    RowsOfHead(peak.rows, id);
    CellTypeCount(peak.rows, id);
    RowsOfCount(peak.rows, id);
  }
}
