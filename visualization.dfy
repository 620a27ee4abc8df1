/**
 * application/utils/visualization.py: the data rules behind the event bar
 * and pie charts: the City-or-Town filter, the twelve month buckets, the
 * split of multi-category cells and their grouping under the primary event
 * categories. Figures, colours and percentages are left to the plotting
 * library.
 */
module Visualization {
  import opened Optional
  import opened Strings
  import opened Seqs
  import opened Records
  import DataClean
  import DataTransform

  // ---------------------------------------------------------------------
  // City-or-Town filter
  // ---------------------------------------------------------------------

  predicate InGeo(e: Event, geo: string) {
    e.city == Some(geo) || e.town == Some(geo)
  }

  function InGeoOf(geo: string): Event -> bool {
    e => InGeo(e, geo)
  }

  /** `df[(City == geo) | (Town == geo)]`: a missing cell never equals the selection. */
  function GeoFilter(events: seq<Event>, geo: string): (r: seq<Event>)
    ensures |r| <= |events|
    ensures forall e :: e in r <==> e in events && (e.city == Some(geo) || e.town == Some(geo))
  {
    Filter(events, InGeoOf(geo))
  }

  /** A place that some event names as its City or Town has events. */
  lemma NamedPlaceHasEvents(events: seq<Event>, geo: string)
    requires Some(geo) in Column(events, DataTransform.EventCity) || Some(geo) in Column(events, DataTransform.EventTown)
    ensures GeoFilter(events, geo) != []
  {
    var cities := Column(events, DataTransform.EventCity);
    var towns := Column(events, DataTransform.EventTown);
    var i :| 0 <= i < |events| && (cities[i] == Some(geo) || towns[i] == Some(geo));
    assert cities[i] == events[i].city && towns[i] == events[i].town;
    assert events[i] in GeoFilter(events, geo);
  }

  /** The default geography of the event page always has events, so neither chart opens on "no data". */
  lemma DefaultGeoHasEvents(events: seq<Event>)
    requires DataTransform.EventDashboardDefaults(events).bar1Geo.Some?
    ensures GeoFilter(events, DataTransform.EventDashboardDefaults(events).bar1Geo.value) != []
  {
    var g := DataTransform.DefaultGeo(Column(events, DataTransform.EventCity), Column(events, DataTransform.EventTown));
    NamedPlaceHasEvents(events, g.value);
  }

  // ---------------------------------------------------------------------
  // generate_bar: the twelve month buckets
  // ---------------------------------------------------------------------

  /** The months of the events that `count()` sees: an EventID and a parsed start month. */
  function CountedMonths(events: seq<Event>): (r: seq<int>)
    ensures |r| <= |events|
    ensures forall m | m in r :: 1 <= m <= 12
  {
    if events == [] then []
    else
      var e := events[0];
      (if e.id.Some? && e.startMonth.Some? then [e.startMonth.value as int] else []) + CountedMonths(events[1..])
  }

  /** January to December. */
  const Months: seq<int> := [1, 2, 3, 4, 5, 6, 7, 8, 9, 10, 11, 12]

  /** `groupby('Start month')['EventID'].count().reindex(full_month_order, fill_value=0)`. */
  function MonthlyCounts(events: seq<Event>): (r: seq<nat>)
    ensures |r| == 12
    ensures forall m | 1 <= m <= 12 :: r[m - 1] == CountOf(CountedMonths(events), m)
    ensures forall m | 1 <= m <= 12 :: r[m - 1] == 0 <==> m !in CountedMonths(events)
  {
    seq(12, i requires 0 <= i < 12 => CountOf(CountedMonths(events), i + 1))
  }

  /** The twelve buckets together hold every counted event once. */
  lemma MonthlyCountsTotal(events: seq<Event>)
    ensures TotalOver(Months, CountedMonths(events)) == |CountedMonths(events)|
  {
    assert NoDuplicates(Months);
    TotalOverAll(Months, CountedMonths(events));
  }

  datatype BarChart = BarNoSelection | BarNoEvents | MonthBars(counts: seq<nat>)

  /**
   * `generate_bar`: no selection gives the prompt figure, a place without
   * events the "no data" figure, otherwise the twelve month counts.
   */
  function GenerateBar(events: seq<Event>, geo: Option<string>): (r: BarChart)
    ensures r.BarNoSelection? <==> geo.None? || geo.value == ""
    ensures r.BarNoEvents? <==> geo.Some? && geo.value != "" && GeoFilter(events, geo.value) == []
    ensures r.MonthBars? ==> r.counts == MonthlyCounts(GeoFilter(events, geo.value))
  {
    if geo.None? || geo.value == "" then BarNoSelection
    else
      var group := GeoFilter(events, geo.value);
      if group == [] then BarNoEvents else MonthBars(MonthlyCounts(group))
  }

  // ---------------------------------------------------------------------
  // generate_pie: map_to_primary_category
  // ---------------------------------------------------------------------

  const PrimaryCategories: seq<string> := ["節慶活動", "藝文活動", "年度活動", "遊憩活動", "地方社區型活動", "其他活動（Other）"]

  const Other := "其他"

  /** The labels a slice of the pie can carry. */
  const PieLabels: seq<string> := PrimaryCategories + [Other]

  /** The first candidate, in list order, that `name` starts with. */
  function FirstPrefix(name: string, candidates: seq<string>): (r: Option<string>)
    ensures r.Some? ==> r.value in candidates && StartsWith(name, r.value)
    ensures r.None? <==> forall k | 0 <= k < |candidates| :: !StartsWith(name, candidates[k])
  {
    if candidates == [] then None
    else if StartsWith(name, candidates[0]) then Some(candidates[0])
    else
      assert forall k | 1 <= k < |candidates| :: candidates[k] == candidates[1..][k - 1];
      FirstPrefix(name, candidates[1..])
  }

  /** The specification of `map_to_primary_category`. */
  function PrimaryOf(name: string): (r: string)
    ensures r == Other || r in PrimaryCategories
    ensures (name == "" || name == "nan") ==> r == Other
    ensures r != Other ==> StartsWith(name, r)
    ensures r == Other <==> forall k | 0 <= k < |PrimaryCategories| :: !StartsWith(name, PrimaryCategories[k])
  {
    assert forall k | 0 <= k < |PrimaryCategories| :: PrimaryCategories[k] != Other && |PrimaryCategories[k]| > 3;
    if name == "" || name == "nan" then Other
    else
      match FirstPrefix(name, PrimaryCategories)
      case Some(p) => p
      case None => Other
  }

  /** A candidate is picked only when no earlier one is a prefix. */
  lemma {:induction false} FirstPrefixIsFirst(name: string, candidates: seq<string>, k: nat)
    requires k < |candidates| && StartsWith(name, candidates[k])
    requires forall j | 0 <= j < k :: !StartsWith(name, candidates[j])
    ensures FirstPrefix(name, candidates) == Some(candidates[k])
  {
    if k > 0 {
      FirstPrefixIsFirst(name, candidates[1..], k - 1);
    }
  }

  /** `map_to_primary_category`: the search loop, returning at the first primary that is a prefix. */
  method MapToPrimaryCategory(name: string) returns (r: string)
    ensures r == PrimaryOf(name)
  {
    if name == "" || name == "nan" {
      return Other;
    }
    for i := 0 to |PrimaryCategories|
      invariant forall j | 0 <= j < i :: !StartsWith(name, PrimaryCategories[j])
    {
      var primary := PrimaryCategories[i];
      if |primary| <= |name| && name[..|primary|] == primary {
        FirstPrefixIsFirst(name, PrimaryCategories, i);
        return primary;
      }
    }
    return Other;
  }

  /** The generic "other" event label (code 9) is not its English-suffixed primary, so it lands in 其他. */
  lemma OtherEventLabelIsOther()
    ensures PrimaryOf(DataClean.EventMainClasses[9]) == Other
  {
    var name := DataClean.EventMainClasses[9];
    assert name == "其他活動";
    assert forall k | 0 <= k < 5 :: name[0] != PrimaryCategories[k][0];
    assert |PrimaryCategories[5]| > |name|;
  }

  /** A festival sub-category (codes 101 to 110) is grouped under 節慶活動. */
  lemma FestivalLabelsGroup(code: int)
    requires code in DataClean.FestivalSubclasses
    ensures PrimaryOf(DataClean.FestivalSubclasses[code]) == "節慶活動"
  {
    var name := DataClean.FestivalSubclasses[code];
    assert name[..4] == "節慶活動";
    FirstPrefixIsFirst(name, PrimaryCategories, 0);
  }

  /** An arts sub-category (codes 201 to 208) is grouped under 藝文活動. */
  lemma ArtsLabelsGroup1(code: int)
    requires code in DataClean.ArtsSubclasses1
    ensures PrimaryOf(DataClean.ArtsSubclasses1[code]) == "藝文活動"
  {
    var name := DataClean.ArtsSubclasses1[code];
    assert name[..4] == "藝文活動";
    assert name[0] != PrimaryCategories[0][0];
    FirstPrefixIsFirst(name, PrimaryCategories, 1);
  }

  /** An arts sub-category (codes 209 to 215) is grouped under 藝文活動. */
  lemma ArtsLabelsGroup2(code: int)
    requires code in DataClean.ArtsSubclasses2
    ensures PrimaryOf(DataClean.ArtsSubclasses2[code]) == "藝文活動"
  {
    var name := DataClean.ArtsSubclasses2[code];
    assert name[..4] == "藝文活動";
    assert name[0] != PrimaryCategories[0][0];
    FirstPrefixIsFirst(name, PrimaryCategories, 1);
  }

  // ---------------------------------------------------------------------
  // generate_pie: splitting and counting
  // ---------------------------------------------------------------------

  /** `astype(str)`: a missing cell reads "nan". */
  function CellText(cell: Option<string>): string {
    match cell
    case None => "nan"
    case Some(s) => s
  }

  /** `.astype(str).str.split(', ').explode().str.strip()` over the cells, in order. */
  function CategoryPieces(cells: seq<Option<string>>): (r: seq<string>)
    ensures |r| >= |cells|
    ensures forall x | x in r :: Strip(x) == x
  {
    if cells == [] then []
    else StripAll(Split(CellText(cells[0]), ", ")) + CategoryPieces(cells[1..])
  }

  /** A missing cell becomes the single piece "nan", which falls into 其他. */
  lemma MissingCellIsOther(rest: seq<Option<string>>)
    ensures CategoryPieces([None] + rest) == ["nan"] + CategoryPieces(rest)
    ensures PrimaryOf("nan") == Other
  {
    var cells := [None] + rest;
    assert cells[0] == None && cells[1..] == rest;
    NanPieces();
  }

  lemma NanPieces()
    ensures StripAll(Split(CellText(None), ", ")) == ["nan"]
  {
    LacksNotContains("nan", ", ");
    SplitSingle("nan", ", ");
    StripUnpadded("nan");
    assert StripAll(["nan"]) == ["nan"];
  }

  /** Each piece mapped to its primary category. */
  function MapPrimary(pieces: seq<string>): (r: seq<string>)
    ensures |r| == |pieces|
    ensures forall i | 0 <= i < |r| :: r[i] == PrimaryOf(pieces[i])
    ensures forall x | x in r :: x in PieLabels
  {
    seq(|pieces|, i requires 0 <= i < |pieces| => PrimaryOf(pieces[i]))
  }

  /** The slice sizes, in the order of `PieLabels`. */
  function SliceCounts(mapped: seq<string>): (r: seq<nat>)
    ensures |r| == |PieLabels|
    ensures forall k | 0 <= k < |r| :: r[k] == CountOf(mapped, PieLabels[k])
  {
    seq(|PieLabels|, k requires 0 <= k < |PieLabels| => CountOf(mapped, PieLabels[k]))
  }

  datatype PieChart = PieNoSelection | PieNoEvents | PieSlices(counts: seq<nat>)

  /**
   * `generate_pie` on the category column: no selection gives the prompt
   * figure, a place without events the "no data" figure, otherwise one
   * count per label of the pieces of the place's cells.
   */
  function GeneratePie(events: seq<Event>, geo: Option<string>, field: Option<string>): (r: PieChart)
    ensures r.PieNoSelection? <==> geo.None? || geo.value == "" || field.None? || field.value == ""
    ensures r.PieNoEvents? <==> !r.PieNoSelection? && GeoFilter(events, geo.value) == []
    ensures r.PieSlices? ==> r.counts == SliceCounts(MapPrimary(CategoryPieces(
      Column(GeoFilter(events, geo.value), (e: Event) => e.categoryNames))))
  {
    if geo.None? || geo.value == "" || field.None? || field.value == "" then PieNoSelection
    else
      var group := GeoFilter(events, geo.value);
      if group == [] then PieNoEvents
      else PieSlices(SliceCounts(MapPrimary(CategoryPieces(Column(group, (e: Event) => e.categoryNames)))))
  }

  /** Every piece lands in exactly one slice: the slices add up to the number of pieces. */
  lemma SlicesCoverPieces(pieces: seq<string>)
    ensures TotalOver(PieLabels, MapPrimary(pieces)) == |pieces|
  {
    assert NoDuplicates(PieLabels) by {
      forall i, j | 0 <= i < j < |PieLabels| ensures PieLabels[i] != PieLabels[j] {
        assert PieLabels[i][0] != PieLabels[j][0] || PieLabels[i][1] != PieLabels[j][1]
            || |PieLabels[i]| != |PieLabels[j]|;
      }
    }
    TotalOverAll(PieLabels, MapPrimary(pieces));
  }

  /** A cell rendered from event codes splits into exactly the codes' names, in order. */
  lemma RenderedCellPieces(codes: seq<int>)
    requires codes != []
    ensures CategoryPieces([DataClean.CodesToNames(Some(codes), DataClean.EventClassMap)])
         == DataClean.CodeNames(codes, DataClean.EventClassMap)
  {
    DataClean.EventTableClean();
    CleanCellPieces(codes, DataClean.EventClassMap);
  }

  /** Over any clean table, a rendered cell splits back into its codes' names. */
  lemma CleanCellPieces(codes: seq<int>, table: map<int, string>)
    requires codes != []
    requires DataClean.CleanTable(table)
    ensures CategoryPieces([DataClean.CodesToNames(Some(codes), table)])
         == DataClean.CodeNames(codes, table)
  {
    var names := DataClean.CodeNames(codes, table);
    var cell := DataClean.CodesToNames(Some(codes), table);
    DataClean.CodesToNamesSplit(codes, table);
    assert Split(CellText(cell), ", ") == names;
    CleanNamesStrip(codes, table);
    assert [cell][0] == cell && [cell][1..] == [];
    assert CategoryPieces([cell]) == StripAll(names) + [];
  }

  /** Names drawn from a clean table are already stripped. */
  lemma CleanNamesStrip(codes: seq<int>, table: map<int, string>)
    requires forall c | c in table :: DataClean.CleanLabel(table[c])
    ensures StripAll(DataClean.CodeNames(codes, table)) == DataClean.CodeNames(codes, table)
  {
    var names := DataClean.CodeNames(codes, table);
    forall i | 0 <= i < |names| ensures Strip(names[i]) == names[i] {
      assert DataClean.CleanLabel(DataClean.CodeName(codes[i], table));
      StripUnpadded(names[i]);
    }
  }
}
