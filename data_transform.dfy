/**
 * application/utils/data_transform.py: the query rules behind the planner
 * and the overview pages: dropdown sanitising, the hotel price/type filter,
 * travel-alert ranking, dropdown options exploded from multi-name cells, the
 * default geography of each page, first-non-blank aggregation, the country
 * comparison rows and the in-place fill of the attraction "free" flag.
 */
module DataTransform {
  import opened Optional
  import opened Strings
  import opened Seqs
  import opened Records
  import opened Const
  import DataClean

  // ---------------------------------------------------------------------
  // first_nonnull
  // ---------------------------------------------------------------------

  /** `pd.notna(v) and str(v).strip() != ''`. */
  predicate Filled(v: Option<string>) {
    v.Some? && !IsBlank(v.value)
  }

  /** The first value that is present and not blank, as `first_nonnull` returns it. */
  function FirstFilled(values: seq<Option<string>>): (r: Option<string>)
    ensures r.Some? ==> r in values && Filled(r)
    ensures r.None? <==> forall i | 0 <= i < |values| :: !Filled(values[i])
  {
    if values == [] then None
    else if Filled(values[0]) then values[0]
    else
      assert forall i | 1 <= i < |values| :: values[i] == values[1..][i - 1];
      FirstFilled(values[1..])
  }

  /** A filled value preceded only by unfilled ones is the one `FirstFilled` picks. */
  lemma {:induction false} FirstFilledAt(values: seq<Option<string>>, i: nat)
    requires i < |values| && Filled(values[i])
    requires forall j | 0 <= j < i :: !Filled(values[j])
    ensures FirstFilled(values) == values[i]
  {
    if i > 0 {
      FirstFilledAt(values[1..], i - 1);
    }
  }

  /** `first_nonnull`: scan the series and return at the first filled value. */
  method FirstNonNull(series: seq<Option<string>>) returns (r: Option<string>)
    ensures r == FirstFilled(series)
  {
    for i := 0 to |series|
      invariant forall j | 0 <= j < i :: !Filled(series[j])
    {
      if Filled(series[i]) {
        FirstFilledAt(series, i);
        return series[i];
      }
    }
    NothingFilled(series);
    return None;
  }

  lemma NothingFilled(values: seq<Option<string>>)
    requires forall j | 0 <= j < |values| :: !Filled(values[j])
    ensures FirstFilled(values) == None
  {
  }

  // ---------------------------------------------------------------------
  // sanitize_list_input, sanitize_cost_bounds
  // ---------------------------------------------------------------------

  /** `sanitize_list_input`: `[]` for a missing or empty selection, else the items that are not `None`, in order. */
  function SanitizeListInput<T(!new)>(input: Option<seq<Option<T>>>): (r: seq<T>)
    ensures input.None? ==> r == []
    ensures input.Some? ==> |r| <= |input.value|
    ensures forall x :: x in r <==> input.Some? && Some(x) in input.value
  {
    match input
    case None => []
    case Some(items) => if items == [] then [] else Present(items)
  }

  /** Sanitising works item by item: a selection's two halves are sanitised separately and concatenated. */
  lemma SanitizeConcat<T(!new)>(a: seq<Option<T>>, b: seq<Option<T>>)
    ensures SanitizeListInput(Some(a + b)) == SanitizeListInput(Some(a)) + SanitizeListInput(Some(b))
  {
    PresentConcat(a, b);
  }

  /** A selection without `None` items comes back exactly as it was, order included. */
  lemma {:induction false} SanitizeKeepsSelection<T(!new)>(items: seq<T>)
    ensures SanitizeListInput(Some(seq(|items|, i requires 0 <= i < |items| => Some(items[i])))) == items
  {
    if items != [] {
      var init := items[..|items| - 1];
      var last := items[|items| - 1];
      var wrappedInit := seq(|init|, i requires 0 <= i < |init| => Some(init[i]));
      WrapSnoc(items);
      assert items == init + [last];
      SanitizeKeepsSelection(init);
      PresentConcat(wrappedInit, [Some(last)]);
    }
  }

  lemma WrapSnoc<T>(items: seq<T>)
    requires items != []
    ensures var init := items[..|items| - 1];
      seq(|items|, i requires 0 <= i < |items| => Some(items[i]))
      == seq(|init|, i requires 0 <= i < |init| => Some(init[i])) + [Some(items[|items| - 1])]
  {
  }

  /** `sanitize_cost_bounds`: swap the bounds only when both are given and the minimum exceeds the maximum. */
  function SanitizeCostBounds(costMin: Option<real>, costMax: Option<real>): (r: (Option<real>, Option<real>))
    ensures r == (costMin, costMax) || r == (costMax, costMin)
    ensures r.0.Some? && r.1.Some? ==> r.0.value <= r.1.value
    ensures r != (costMin, costMax) ==> costMin.Some? && costMax.Some? && costMin.value > costMax.value
  {
    if costMin.Some? && costMax.Some? && costMin.value > costMax.value then (costMax, costMin)
    else (costMin, costMax)
  }

  /** Sanitising sanitised bounds changes nothing. */
  lemma SanitizeCostBoundsIdempotent(costMin: Option<real>, costMax: Option<real>)
    ensures var r := SanitizeCostBounds(costMin, costMax); SanitizeCostBounds(r.0, r.1) == r
  {
  }

  // ---------------------------------------------------------------------
  // preprocess_hotel_df, filter_by_cost_and_types
  // ---------------------------------------------------------------------

  predicate HasPositivePrice(h: Hotel) {
    h.lowestPrice.Some? && h.lowestPrice.value > 0.0
  }

  /** `preprocess_hotel_df`: drop hotels whose LowestPrice is missing or not above zero. */
  function PreprocessHotels(hotels: seq<Hotel>): (r: seq<Hotel>)
    ensures |r| <= |hotels|
    ensures forall h :: h in r <==> h in hotels && HasPositivePrice(h)
  {
    Filter(hotels, HasPositivePrice)
  }

  /** Preprocessing twice is preprocessing once. */
  lemma PreprocessHotelsIdempotent(hotels: seq<Hotel>)
    ensures PreprocessHotels(PreprocessHotels(hotels)) == PreprocessHotels(hotels)
  {
    var p := PreprocessHotels(hotels);
    FilterAll(p, HasPositivePrice);
  }

  /**
   * The price test of `filter_by_cost_and_types`: an absent bound is -inf or
   * +inf, and a missing (NaN) price fails every comparison.
   */
  predicate InCostRange(h: Hotel, costMin: Option<real>, costMax: Option<real>) {
    && h.lowestPrice.Some?
    && (costMin.None? || costMin.value <= h.lowestPrice.value)
    && (costMax.None? || h.lowestPrice.value <= costMax.value)
  }

  /** The type test: no selection (missing or empty) selects every type; otherwise `isin`. */
  predicate TypeSelected(h: Hotel, types: Option<seq<string>>) {
    types.None? || types.value == [] || (h.className.Some? && h.className.value in types.value)
  }

  /** `filter_by_cost_and_types`: one combined mask, rows kept in their order. */
  function FilterByCostAndTypes(hotels: seq<Hotel>, costMin: Option<real>, costMax: Option<real>,
                                types: Option<seq<string>>): (r: seq<Hotel>)
    ensures |r| <= |hotels|
    ensures forall h :: h in r <==>
      && h in hotels
      && h.lowestPrice.Some?
      && (costMin.None? || costMin.value <= h.lowestPrice.value)
      && (costMax.None? || h.lowestPrice.value <= costMax.value)
      && (types.None? || types.value == [] || (h.className.Some? && h.className.value in types.value))
  {
    Filter(hotels, (h: Hotel) => InCostRange(h, costMin, costMax) && TypeSelected(h, types))
  }

  predicate AtLeast(h: Hotel, bound: real) {
    h.lowestPrice.Some? && bound <= h.lowestPrice.value
  }

  predicate AtMost(h: Hotel, bound: real) {
    h.lowestPrice.Some? && h.lowestPrice.value <= bound
  }

  /**
   * The bound masks of the earlier, commented-out version of
   * `filter_by_cost_and_types`: one mask per given bound.
   */
  function BoundMasks(hotels: seq<Hotel>, costMin: Option<real>, costMax: Option<real>): (r: seq<Hotel>)
    ensures |r| <= |hotels|
    ensures forall h :: h in r <==>
      && h in hotels
      && (costMin.None? || AtLeast(h, costMin.value))
      && (costMax.None? || AtMost(h, costMax.value))
  {
    var a := if costMin.Some? then Filter(hotels, (h: Hotel) => AtLeast(h, costMin.value)) else hotels;
    if costMax.Some? then Filter(a, (h: Hotel) => AtMost(h, costMax.value)) else a
  }

  /** On hotels whose prices are all present, the bound masks select what the combined price test selects. */
  lemma BoundMasksArePriceTest(hotels: seq<Hotel>, costMin: Option<real>, costMax: Option<real>)
    requires forall i | 0 <= i < |hotels| :: hotels[i].lowestPrice.Some?
    ensures BoundMasks(hotels, costMin, costMax) == Filter(hotels, (h: Hotel) => InCostRange(h, costMin, costMax))
  {
    var price := (h: Hotel) => InCostRange(h, costMin, costMax);
    if costMin.Some? && costMax.Some? {
      FilterFilter(hotels, (h: Hotel) => AtLeast(h, costMin.value), (h: Hotel) => AtMost(h, costMax.value), price);
    } else if costMin.Some? {
      FilterExt(hotels, (h: Hotel) => AtLeast(h, costMin.value), price);
    } else if costMax.Some? {
      FilterExt(hotels, (h: Hotel) => AtMost(h, costMax.value), price);
    } else {
      FilterAll(hotels, price);
    }
  }

  /**
   * The earlier, commented-out version of the filter: the bound masks, then
   * the type mask when types are selected.
   */
  function FilterByCostAndTypesSequential(hotels: seq<Hotel>, costMin: Option<real>, costMax: Option<real>,
                                          types: Option<seq<string>>): (r: seq<Hotel>)
    ensures |r| <= |hotels|
    ensures forall h :: h in r <==>
      && h in hotels
      && (costMin.None? || AtLeast(h, costMin.value))
      && (costMax.None? || AtMost(h, costMax.value))
      && TypeSelected(h, types)
  {
    var b := BoundMasks(hotels, costMin, costMax);
    if types.Some? && types.value != [] then Filter(b, (h: Hotel) => TypeSelected(h, types)) else b
  }

  /**
   * On preprocessed hotels (every price present) the single-mask filter and
   * the sequential one agree row for row, order included.
   */
  lemma FilterByCostAndTypesAgrees(hotels: seq<Hotel>, costMin: Option<real>, costMax: Option<real>,
                                   types: Option<seq<string>>)
    requires forall i | 0 <= i < |hotels| :: hotels[i].lowestPrice.Some?
    ensures FilterByCostAndTypesSequential(hotels, costMin, costMax, types)
         == FilterByCostAndTypes(hotels, costMin, costMax, types)
  {
    var price := (h: Hotel) => InCostRange(h, costMin, costMax);
    var b := BoundMasks(hotels, costMin, costMax);
    BoundMasksArePriceTest(hotels, costMin, costMax);
    var ty := (h: Hotel) => TypeSelected(h, types);
    var whole := (h: Hotel) => InCostRange(h, costMin, costMax) && TypeSelected(h, types);
    if types.Some? && types.value != [] {
      FilterFilter(hotels, price, ty, whole);
    } else {
      FilterExt(hotels, price, whole);
    }
  }

  // ---------------------------------------------------------------------
  // get_alert_rank, filter_by_alert_and_visa
  // ---------------------------------------------------------------------

  /** `get_alert_rank`: the rank of the trimmed colour name, or `defaultRank` for any other value (NaN included). */
  function AlertRank(alert: Option<string>, defaultRank: int := 3): (r: int)
    ensures alert.Some? && Strip(alert.value) in AlertRankMap ==> r == AlertRankMap[Strip(alert.value)]
    ensures alert.None? || Strip(alert.value) !in AlertRankMap ==> r == defaultRank
  {
    match alert
    case None => defaultRank
    case Some(a) =>
      var key := Strip(a);
      if key in AlertRankMap then AlertRankMap[key] else defaultRank
  }

  /** Whitespace around a colour name does not change its rank. */
  lemma AlertRankIgnoresPadding(left: string, name: string, right: string, defaultRank: int)
    requires AllSpace(left) && AllSpace(right)
    ensures AlertRank(Some(left + name + right), defaultRank) == AlertRank(Some(name), defaultRank)
  {
    StripPadded(left, name, right);
  }

  /** The three colours, written plainly, rank 2, 3 and 4 whatever the default. */
  lemma AlertColourRanks(defaultRank: int)
    ensures AlertRank(Some("灰色"), defaultRank) == 2
    ensures AlertRank(Some("黃色"), defaultRank) == 3
    ensures AlertRank(Some("橙色"), defaultRank) == 4
  {
    ColourRank("灰色", 2, defaultRank);
    ColourRank("黃色", 3, defaultRank);
    ColourRank("橙色", 4, defaultRank);
  }

  /** A listed colour with no padding ranks as listed. */
  lemma ColourRank(colour: string, rank: int, defaultRank: int)
    requires colour in AlertRankMap && AlertRankMap[colour] == rank
    requires colour != [] && !IsSpace(colour[0]) && !IsSpace(colour[|colour| - 1])
    ensures AlertRank(Some(colour), defaultRank) == rank
  {
    StripUnpadded(colour);
  }

  /** A row of the country table, restricted to the columns the alert and visa filter reads. */
  datatype CountryRow = CountryRow(destination: Option<string>, travelAlert: Option<string>, visaExempt: Option<string>)

  predicate AlertWithin(row: CountryRow, alertMax: Option<string>) {
    alertMax.None? || AlertRank(row.travelAlert) <= AlertRank(alertMax)
  }

  predicate VisaKept(row: CountryRow, visaOnly: Option<seq<string>>, hasVisaColumn: bool, isExempt: Option<string> -> bool) {
    !(visaOnly.Some? && "exempt" in visaOnly.value && hasVisaColumn) || isExempt(row.visaExempt)
  }

  /** The alert half of `filter_by_alert_and_visa`: with a threshold, the rows whose alert ranks no higher. */
  function AlertFiltered(rows: seq<CountryRow>, alertMax: Option<string>): (r: seq<CountryRow>)
    ensures |r| <= |rows|
    ensures forall row :: row in r <==>
      row in rows && (alertMax.Some? ==> AlertRank(row.travelAlert) <= AlertRank(alertMax))
  {
    if alertMax.Some? then Filter(rows, (row: CountryRow) => AlertWithin(row, alertMax)) else rows
  }

  /**
   * `filter_by_alert_and_visa`: the alert half, then, with "exempt" selected
   * and the visa column present, the rows `is_exempt` accepts. `is_exempt`
   * is a parameter.
   */
  function FilterByAlertAndVisa(rows: seq<CountryRow>, alertMax: Option<string>, visaOnly: Option<seq<string>>,
                                hasVisaColumn: bool, isExempt: Option<string> -> bool): (r: seq<CountryRow>)
    ensures |r| <= |rows|
    ensures forall row :: row in r <==>
      && row in rows
      && (alertMax.Some? ==> AlertRank(row.travelAlert) <= AlertRank(alertMax))
      && (visaOnly.Some? && "exempt" in visaOnly.value && hasVisaColumn ==> isExempt(row.visaExempt))
  {
    var afterAlert := AlertFiltered(rows, alertMax);
    if visaOnly.Some? && "exempt" in visaOnly.value && hasVisaColumn then
      Filter(afterAlert, (row: CountryRow) => isExempt(row.visaExempt))
    else afterAlert
  }

  /**
   * Lowering the alert threshold only removes rows: the stricter result is
   * the looser result filtered by the stricter threshold, order kept.
   */
  lemma AlertThresholdMonotone(rows: seq<CountryRow>, strict: string, loose: string)
    requires AlertRank(Some(strict)) <= AlertRank(Some(loose))
    ensures AlertFiltered(rows, Some(strict)) == AlertFiltered(AlertFiltered(rows, Some(loose)), Some(strict))
  {
    var s := (row: CountryRow) => AlertWithin(row, Some(strict));
    var l := (row: CountryRow) => AlertWithin(row, Some(loose));
    FilterFilter(rows, l, s, s);
  }

  // ---------------------------------------------------------------------
  // get_dashboard_default_*_values
  // ---------------------------------------------------------------------

  predicate NotBlank(s: string) {
    !IsBlank(s)
  }

  /** `col.dropna().unique()` with the blank values left out, in order of first appearance. */
  function NonBlankUnique(column: seq<Option<string>>): (r: seq<string>)
    ensures forall s :: s in r <==> Some(s) in column && !IsBlank(s)
  {
    Filter(Distinct(Present(column)), NotBlank)
  }

  /** The reference definition of a page's default geography: the first filled City, else the first filled Town. */
  function FirstFilledGeo(cities: seq<Option<string>>, towns: seq<Option<string>>): Option<string> {
    if FirstFilled(cities).Some? then FirstFilled(cities) else FirstFilled(towns)
  }

  /** The present non-blank values, read in order, begin with the first filled value. */
  lemma {:induction false} FirstFilledPresent(column: seq<Option<string>>)
    ensures var f := Filter(Present(column), NotBlank); FirstFilled(column) == if f == [] then None else Some(f[0])
  {
    if column != [] {
      var rest := column[1..];
      FirstFilledPresent(rest);
      var head := if column[0].Some? then [column[0].value] else [];
      assert Present(column) == head + Present(rest);
      FilterConcat(head, Present(rest), NotBlank);
      var f := Filter(Present(column), NotBlank);
      if Filled(column[0]) {
        assert head == [column[0].value] && head[1..] == [];
        assert Filter(head, NotBlank) == [column[0].value];
        assert f[0] == column[0].value;
      } else {
        assert Filter(head, NotBlank) == [];
        assert FirstFilled(column) == FirstFilled(rest);
      }
    }
  }

  /** The first of the unique non-blank values is the first filled value. */
  lemma FirstNonBlankUnique(column: seq<Option<string>>)
    ensures var u := NonBlankUnique(column); FirstFilled(column) == if u == [] then None else Some(u[0])
  {
    var f := Filter(Present(column), NotBlank);
    FirstFilledPresent(column);
    FilterDistinct(Present(column), NotBlank);
    if f != [] {
      DistinctFirst(f);
    }
  }

  /**
   * `_first_geo`: the first unique non-blank City, else the first unique
   * non-blank Town, else missing; it is the first filled City, else the
   * first filled Town.
   */
  function DefaultGeo(cities: seq<Option<string>>, towns: seq<Option<string>>): (r: Option<string>)
    ensures r.Some? ==> !IsBlank(r.value) && (Some(r.value) in cities || Some(r.value) in towns)
    ensures r == FirstFilledGeo(cities, towns)
  {
    var conts := NonBlankUnique(cities);
    var dests := NonBlankUnique(towns);
    FirstNonBlankUnique(cities);
    FirstNonBlankUnique(towns);
    if conts != [] then Some(conts[0])
    else if dests != [] then Some(dests[0])
    else None
  }

  function EventCity(e: Event): Option<string> { e.city }
  function EventTown(e: Event): Option<string> { e.town }
  function AttractionCity(a: Attraction): Option<string> { a.city }
  function AttractionTown(a: Attraction): Option<string> { a.town }
  function HotelCity(h: Hotel): Option<string> { h.city }
  function HotelTown(h: Hotel): Option<string> { h.town }
  function RestaurantCity(x: Restaurant): Option<string> { x.city }
  function RestaurantTown(x: Restaurant): Option<string> { x.town }

  datatype EventDefaults = EventDefaults(bar1Geo: Option<string>, pie1Geo: Option<string>, pie2Field: string)
  datatype AttractionDefaults = AttractionDefaults(map1Geo: Option<string>, map2Metric: string)
  datatype HotelDefaults = HotelDefaults(box1Geo: Option<string>, box2Metric: string)
  datatype RestaurantDefaults = RestaurantDefaults(pieGeo: Option<string>, pieField: string)

  /** `get_dashboard_default_values`: both event charts start at the default geography, the pie on category names. */
  function EventDashboardDefaults(events: seq<Event>): (r: EventDefaults)
    ensures r.bar1Geo == r.pie1Geo == FirstFilledGeo(Column(events, EventCity), Column(events, EventTown))
    ensures r.pie2Field == "EventCategoryNames"
  {
    var geo := DefaultGeo(Column(events, EventCity), Column(events, EventTown));
    EventDefaults(geo, geo, "EventCategoryNames")
  }

  /**
   * `get_dashboard_default_attraction_values`: the geography is computed but
   * not used; the map starts on all places, coloured by primary category.
   */
  function AttractionDashboardDefaults(attractions: seq<Attraction>): (r: AttractionDefaults)
    ensures r.map1Geo.None?
    ensures r.map2Metric == "PrimaryCategory"
  {
    var _ := DefaultGeo(Column(attractions, AttractionCity), Column(attractions, AttractionTown));
    AttractionDefaults(None, "PrimaryCategory")
  }

  /** `get_dashboard_default_hotel_values`: the box plot starts at the default geography, by hotel class. */
  function HotelDashboardDefaults(hotels: seq<Hotel>): (r: HotelDefaults)
    ensures r.box1Geo == FirstFilledGeo(Column(hotels, HotelCity), Column(hotels, HotelTown))
    ensures r.box2Metric == "HotelClassName"
  {
    HotelDefaults(DefaultGeo(Column(hotels, HotelCity), Column(hotels, HotelTown)), "HotelClassName")
  }

  /** `get_dashboard_default_restaurant_values`: the pie starts at the default geography, on cuisine names. */
  function RestaurantDashboardDefaults(restaurants: seq<Restaurant>): (r: RestaurantDefaults)
    ensures r.pieGeo == FirstFilledGeo(Column(restaurants, RestaurantCity), Column(restaurants, RestaurantTown))
    ensures r.pieField == "CuisineNames"
  {
    RestaurantDefaults(DefaultGeo(Column(restaurants, RestaurantCity), Column(restaurants, RestaurantTown)), "CuisineNames")
  }

  /** A page whose rows all lack a filled City and Town has no default geography. */
  lemma NoGeoWithoutPlaces(cities: seq<Option<string>>, towns: seq<Option<string>>)
    requires forall i | 0 <= i < |cities| :: !Filled(cities[i])
    requires forall i | 0 <= i < |towns| :: !Filled(towns[i])
    ensures DefaultGeo(cities, towns) == None
  {
  }

  // ---------------------------------------------------------------------
  // get_exploded_categories
  // ---------------------------------------------------------------------

  /** `.str.split(sep).explode().str.strip()`: every cell's stripped pieces, cell after cell. */
  function Pieces(cells: seq<string>, sep: string): (r: seq<string>)
    requires sep != []
    ensures forall y :: y in r <==> exists c | c in cells :: y in StripAll(Split(c, sep))
    ensures forall y | y in r :: Strip(y) == y
  {
    if cells == [] then []
    else
      var head := StripAll(Split(cells[0], sep));
      var tail := Pieces(cells[1..], sep);
      forall y ensures y in head + tail <==> exists c | c in cells :: y in StripAll(Split(c, sep)) {
        if y in head {
          assert cells[0] in cells;
        }
        if y in tail {
          var c :| c in cells[1..] && y in StripAll(Split(c, sep));
          assert c in cells;
        }
        if exists c | c in cells :: y in StripAll(Split(c, sep)) {
          var c :| c in cells && y in StripAll(Split(c, sep));
          if c != cells[0] {
            assert c in cells[1..];
          }
        }
      }
      head + tail
  }

  /** `y` is a stripped piece of some present cell of `column`. */
  ghost predicate ExplodesTo(column: seq<Option<string>>, sep: string, y: string)
    requires sep != []
  {
    exists c | Some(c) in column :: y in StripAll(Split(c, sep))
  }

  /**
   * `get_exploded_categories`: `[]` when the column is absent or empty,
   * otherwise the distinct stripped pieces of the present cells, sorted.
   */
  function GetExplodedCategories(column: Option<seq<Option<string>>>, sep: string := ","): (r: seq<string>)
    requires sep != []
    ensures StrictlySorted(r)
    ensures forall y :: y in r <==> column.Some? && ExplodesTo(column.value, sep, y)
    ensures forall y | y in r :: Strip(y) == y
  {
    if column.None? || column.value == [] then []
    else
      var cells := Present(column.value);
      var r := SortedDistinct(Pieces(cells, sep));
      assert forall c :: c in cells <==> Some(c) in column.value;
      r
  }

  /** A single space is padding without a comma. */
  lemma SpacePad()
    ensures AllSpace(" ") && Lacks(" ", ',')
  {
  }

  /** A clean name behind padding strips to itself. */
  lemma PaddedNameStrips(pad: string, first: string)
    requires AllSpace(pad) && DataClean.CleanLabel(first)
    ensures Strip(pad + first) == first
  {
    StripPadded(pad, first, "");
    assert pad + first + "" == pad + first;
    StripUnpadded(first);
  }

  /** The first clean name, after its padding, is cut off at the first ",". */
  lemma SplitJoinedHead(pad: string, first: string, rest: seq<string>)
    requires Lacks(pad, ',') && DataClean.CleanLabel(first)
    ensures |rest| >= 1 ==> Split(pad + Join([first] + rest, ", "), ",") == [pad + first] + Split(" " + Join(rest, ", "), ",")
    ensures rest == [] ==> Split(pad + Join([first] + rest, ", "), ",") == [pad + first]
  {
    LacksConcat(pad, first, ',');
    LacksNotContains(pad + first, ",");
    JoinedAfterPad(pad, first, rest);
    if rest == [] {
      SplitSingle(pad + first, ",");
    } else {
      SplitAtFirst(pad + first, ",", " " + Join(rest, ", "));
    }
  }

  /** The padded joined text is the padded first name, a ",", then a space and the rest. */
  lemma JoinedAfterPad(pad: string, first: string, rest: seq<string>)
    ensures rest == [] ==> pad + Join([first] + rest, ", ") == pad + first
    ensures rest != [] ==> pad + Join([first] + rest, ", ") == (pad + first) + "," + (" " + Join(rest, ", "))
  {
    var names := [first] + rest;
    JoinHead(names, ", ");
    assert names[0] == first && names[1..] == rest;
  }

  /**
   * Splitting a ", "-joined list of clean names at "," and stripping the
   * pieces gives the names back (`pad` is whitespace the first piece carries).
   */
  lemma {:induction false} StripSplitJoin(pad: string, names: seq<string>)
    requires AllSpace(pad) && Lacks(pad, ',')
    requires names != [] && forall n | n in names :: DataClean.CleanLabel(n)
    ensures StripAll(Split(pad + Join(names, ", "), ",")) == names
    decreases |names|
  {
    var first := names[0];
    var rest := names[1..];
    assert names == [first] + rest;
    SplitJoinedHead(pad, first, rest);
    PaddedNameStrips(pad, first);
    var whole := Split(pad + Join(names, ", "), ",");
    if rest == [] {
      assert whole == [pad + first];
      StripAllCons(pad + first, []);
      assert [pad + first] + [] == [pad + first];
    } else {
      var tail := Split(" " + Join(rest, ", "), ",");
      assert whole == [pad + first] + tail;
      assert forall n | n in rest :: n in names;
      SpacePad();
      StripSplitJoin(" ", rest);
      StripAllCons(pad + first, tail);
      assert StripAll(whole) == [first] + rest;
    }
    assert StripAll(whole) == names;
  }

  lemma CodeNamesAt(codes: seq<int>, table: map<int, string>, i: int)
    requires 0 <= i < |DataClean.CodeNames(codes, table)| || 0 <= i < |codes|
    ensures |DataClean.CodeNames(codes, table)| == |codes|
    ensures DataClean.CodeNames(codes, table)[i] == DataClean.CodeName(codes[i], table)
  {
  }

  /** Every exploded option comes from some present cell. */
  lemma ExplodedFromCell(column: seq<Option<string>>, y: string)
    requires y in GetExplodedCategories(Some(column), ",")
    ensures exists k | 0 <= k < |column| && column[k].Some? :: y in StripAll(Split(column[k].value, ","))
  {
    var c :| Some(c) in column && y in StripAll(Split(c, ","));
    var k :| 0 <= k < |column| && column[k] == Some(c);
  }

  /** Every stripped piece of a present cell is an exploded option. */
  lemma ExplodedIncludesCell(column: seq<Option<string>>, k: nat, y: string)
    requires k < |column| && column[k].Some? && y in StripAll(Split(column[k].value, ","))
    ensures y in GetExplodedCategories(Some(column), ",")
  {
    var c := column[k].value;
    assert Some(c) in column;
    assert ExplodesTo(column, ",", y);
  }

  /** One rendered cell explodes into the names of its codes, in order. */
  lemma CellPieces(codes: seq<int>, table: map<int, string>)
    requires codes != []
    requires forall c | c in table :: DataClean.CleanLabel(table[c])
    ensures StripAll(Split(DataClean.CodesToNames(Some(codes), table).value, ",")) == DataClean.CodeNames(codes, table)
  {
    var names := DataClean.CodeNames(codes, table);
    forall n | n in names ensures DataClean.CleanLabel(n) {
      var i :| 0 <= i < |names| && names[i] == n;
      assert n == DataClean.CodeName(codes[i], table);
    }
    StripSplitJoin("", names);
    assert "" + Join(names, ", ") == DataClean.CodesToNames(Some(codes), table).value;
  }

  /** The cells rendered from code lists, one per list. */
  function RenderedCells(codeLists: seq<seq<int>>, table: map<int, string>): (r: seq<Option<string>>)
    ensures |r| == |codeLists|
    ensures forall k | 0 <= k < |r| :: r[k] == DataClean.CodesToNames(Some(codeLists[k]), table)
  {
    seq(|codeLists|, k requires 0 <= k < |codeLists| => DataClean.CodesToNames(Some(codeLists[k]), table))
  }

  /** `y` names one of the codes in one of the lists. */
  ghost predicate NamesSomeCode(codeLists: seq<seq<int>>, table: map<int, string>, y: string) {
    exists k, i | 0 <= k < |codeLists| && 0 <= i < |codeLists[k]| :: y == DataClean.CodeName(codeLists[k][i], table)
  }

  lemma ExplodedNameIsCodeName(codeLists: seq<seq<int>>, table: map<int, string>, y: string)
    requires forall c | c in table :: DataClean.CleanLabel(table[c])
    requires y in GetExplodedCategories(Some(RenderedCells(codeLists, table)), ",")
    ensures NamesSomeCode(codeLists, table, y)
  {
    var cells := RenderedCells(codeLists, table);
    ExplodedFromCell(cells, y);
    var k :| 0 <= k < |cells| && cells[k].Some? && y in StripAll(Split(cells[k].value, ","));
    assert cells[k] == DataClean.CodesToNames(Some(codeLists[k]), table);
    var i := CellNameIsCodeName(codeLists[k], table, y);
    assert 0 <= k < |codeLists| && 0 <= i < |codeLists[k]| && y == DataClean.CodeName(codeLists[k][i], table);
  }

  /** A piece of one rendered cell is the name of one of its codes. */
  lemma CellNameIsCodeName(codes: seq<int>, table: map<int, string>, y: string) returns (i: nat)
    requires forall c | c in table :: DataClean.CleanLabel(table[c])
    requires codes != [] && y in StripAll(Split(DataClean.CodesToNames(Some(codes), table).value, ","))
    ensures i < |codes| && y == DataClean.CodeName(codes[i], table)
  {
    CellPieces(codes, table);
    var names := DataClean.CodeNames(codes, table);
    i :| 0 <= i < |names| && names[i] == y;
    CodeNamesAt(codes, table, i);
  }

  lemma CodeNameIsExploded(codeLists: seq<seq<int>>, table: map<int, string>, k: nat, i: nat)
    requires forall c | c in table :: DataClean.CleanLabel(table[c])
    requires k < |codeLists| && i < |codeLists[k]|
    ensures DataClean.CodeName(codeLists[k][i], table) in GetExplodedCategories(Some(RenderedCells(codeLists, table)), ",")
  {
    var cells := RenderedCells(codeLists, table);
    CellPieces(codeLists[k], table);
    CodeNamesAt(codeLists[k], table, i);
    var names := DataClean.CodeNames(codeLists[k], table);
    assert names[i] in names;
    ExplodedIncludesCell(cells, k, names[i]);
  }

  /**
   * The planner's event and cuisine options: when the cells were rendered
   * from code lists with a clean table, the exploded options are exactly the
   * names of the codes that occur (each once and sorted, by the contract of
   * `GetExplodedCategories`).
   */
  lemma ExplodedCodeNames(codeLists: seq<seq<int>>, table: map<int, string>)
    requires forall c | c in table :: DataClean.CleanLabel(table[c])
    ensures forall y :: y in GetExplodedCategories(Some(RenderedCells(codeLists, table)), ",") <==>
      NamesSomeCode(codeLists, table, y)
  {
    forall y | y in GetExplodedCategories(Some(RenderedCells(codeLists, table)), ",")
      ensures NamesSomeCode(codeLists, table, y)
    {
      ExplodedNameIsCodeName(codeLists, table, y);
    }
    forall y | NamesSomeCode(codeLists, table, y)
      ensures y in GetExplodedCategories(Some(RenderedCells(codeLists, table)), ",")
    {
      var k, i :| 0 <= k < |codeLists| && 0 <= i < |codeLists[k]| && y == DataClean.CodeName(codeLists[k][i], table);
      CodeNameIsExploded(codeLists, table, k, i);
    }
  }

  // ---------------------------------------------------------------------
  // prepare_country_compare_data
  // ---------------------------------------------------------------------

  /** A dropdown value: a string, or anything else (which the comparison ignores). */
  datatype Choice = Text(s: string) | NonText

  /** The string choices, in order. */
  function Texts(choices: seq<Choice>): (r: seq<string>)
    ensures forall t :: t in r <==> Text(t) in choices
  {
    if choices == [] then []
    else
      var last := choices[|choices| - 1];
      assert choices == choices[..|choices| - 1] + [last];
      Texts(choices[..|choices| - 1]) + (if last.Text? then [last.s] else [])
  }

  lemma TextsSnoc(choices: seq<Choice>, c: Choice)
    ensures Texts(choices + [c]) == Texts(choices) + (if c.Text? then [c.s] else [])
  {
    assert (choices + [c])[..|choices|] == choices;
  }

  /** A row of the merged country table, restricted to the columns the comparison reads. */
  datatype CountryRecord = CountryRecord(destination: Option<string>, safety: Option<real>, cpi: Option<real>, pce: Option<real>)

  /** `set(df_merged['Destination'].dropna().unique())`. */
  function Available(table: seq<CountryRecord>): set<string> {
    set i | 0 <= i < |table| && table[i].destination.Some? :: table[i].destination.value
  }

  function AvailableIn(table: seq<CountryRecord>): string -> bool {
    c => c in Available(table)
  }

  /**
   * The countries compared: missing or empty selections give none;
   * otherwise the string choices, first occurrences only, that the table
   * has, in order, at most five.
   */
  function LimitedCountries(countries: Option<seq<Choice>>, metrics: Option<seq<string>>,
                            table: seq<CountryRecord>): (r: seq<string>)
    ensures |r| <= 5
    ensures NoDuplicates(r)
    ensures (countries.None? || countries.value == [] || metrics.None? || metrics.value == []) ==> r == []
    ensures forall c | c in r :: countries.Some? && Text(c) in countries.value && c in Available(table)
    ensures |r| < 5 && metrics.Some? && metrics.value != [] && countries.Some? ==>
      forall c | Text(c) in countries.value && c in Available(table) :: c in r
    ensures countries.Some? && countries.value != [] && metrics.Some? && metrics.value != [] ==>
      var q := Filter(Distinct(Texts(countries.value)), AvailableIn(table));
      r <= q && (|r| == 5 || r == q)
  {
    if countries.None? || countries.value == [] || metrics.None? || metrics.value == [] then []
    else
      var kept := Filter(Distinct(Texts(countries.value)), AvailableIn(table));
      FilterNoDuplicates(Distinct(Texts(countries.value)), AvailableIn(table));
      var r := SliceTo(kept, 5);
      assert forall c | c in r :: c in kept;
      assert |r| < 5 ==> r == kept;
      r
  }

  /** `df_compare[df_compare['Destination'] == country]`. */
  function RecordsOf(table: seq<CountryRecord>, country: string): (r: seq<CountryRecord>)
    ensures forall x :: x in r <==> x in table && x.destination == Some(country)
  {
    Filter(table, (x: CountryRecord) => x.destination == Some(country))
  }

  /** `col.dropna()` then the first value, or NaN when none is left. */
  function FirstPresent(values: seq<Option<real>>): (r: Option<real>)
    ensures r.Some? <==> exists i | 0 <= i < |values| :: values[i].Some?
    ensures r.Some? ==> exists i :: FirstSomeAt(values, i) && values[i] == r
  {
    var p := Present(values);
    if p == [] then None
    else
      PresentHead(values);
      Some(p[0])
  }

  function SafetyOf(x: CountryRecord): Option<real> { x.safety }
  function CpiOf(x: CountryRecord): Option<real> { x.cpi }
  function PceOf(x: CountryRecord): Option<real> { x.pce }

  /**
   * One comparison row. A metric not selected leaves its key out (`None`);
   * a selected one holds the first present value, or NaN (`Some(None)`).
   */
  datatype CompareRow = CompareRow(country: string, safety: Option<Option<real>>, cpi: Option<Option<real>>,
                                   pce: Option<Option<real>>, travelers: Option<nat>)

  function CompareRowFor(country: string, metrics: seq<string>, records: seq<CountryRecord>): (r: CompareRow)
    ensures r.country == country
    ensures r.safety.Some? <==> "safety" in metrics
    ensures r.cpi.Some? <==> "cpi" in metrics
    ensures r.pce.Some? <==> "pce" in metrics
    ensures r.travelers.Some? <==> "travelers" in metrics
    ensures r.safety.Some? ==> r.safety.value == FirstPresent(Column(records, SafetyOf))
    ensures r.cpi.Some? ==> r.cpi.value == FirstPresent(Column(records, CpiOf))
    ensures r.pce.Some? ==> r.pce.value == FirstPresent(Column(records, PceOf))
    ensures r.travelers.Some? ==> r.travelers.value == |records|
  {
    CompareRow(
      country,
      if "safety" in metrics then Some(FirstPresent(Column(records, SafetyOf))) else None,
      if "cpi" in metrics then Some(FirstPresent(Column(records, CpiOf))) else None,
      if "pce" in metrics then Some(FirstPresent(Column(records, PceOf))) else None,
      if "travelers" in metrics then Some(|records|) else None)
  }

  /** One row per country that has records, in the order of `countries`. */
  function CompareRows(countries: seq<string>, metrics: seq<string>, table: seq<CountryRecord>): (r: seq<CompareRow>)
    ensures |r| <= |countries|
  {
    if countries == [] then []
    else
      var last := countries[|countries| - 1];
      var records := RecordsOf(table, last);
      CompareRows(countries[..|countries| - 1], metrics, table)
        + (if records == [] then [] else [CompareRowFor(last, metrics, records)])
  }

  /**
   * Every available country has records, so the comparison has exactly one
   * row per limited country, in order, and "travelers" counts its records.
   */
  lemma {:induction false} CompareRowsCover(countries: seq<string>, metrics: seq<string>, table: seq<CountryRecord>)
    requires forall c | c in countries :: c in Available(table)
    ensures |CompareRows(countries, metrics, table)| == |countries|
    ensures forall i | 0 <= i < |countries| ::
      CompareRows(countries, metrics, table)[i] == CompareRowFor(countries[i], metrics, RecordsOf(table, countries[i]))
    ensures forall i | 0 <= i < |countries| :: RecordsOf(table, countries[i]) != []
  {
    if countries != [] {
      var init := countries[..|countries| - 1];
      var last := countries[|countries| - 1];
      assert forall c | c in init :: c in countries;
      CompareRowsCover(init, metrics, table);
      AvailableHasRecords(table, last);
      var rows := CompareRows(countries, metrics, table);
      assert rows == CompareRows(init, metrics, table) + [CompareRowFor(last, metrics, RecordsOf(table, last))];
      forall i | 0 <= i < |countries|
        ensures rows[i] == CompareRowFor(countries[i], metrics, RecordsOf(table, countries[i]))
        ensures RecordsOf(table, countries[i]) != []
      {
        if i < |init| {
          assert countries[i] == init[i];
        }
      }
    }
  }

  /** A country the table lists has at least one record. */
  lemma AvailableHasRecords(table: seq<CountryRecord>, country: string)
    requires country in Available(table)
    ensures RecordsOf(table, country) != []
  {
    var k :| 0 <= k < |table| && table[k].destination == Some(country);
    assert table[k] in RecordsOf(table, country);
  }

  /** The de-duplication loop: skip non-strings and countries already `seen`. */
  method DedupCountries(choices: seq<Choice>) returns (deduped: seq<string>)
    ensures deduped == Distinct(Texts(choices))
  {
    var seen: set<string> := {};
    deduped := [];
    for i := 0 to |choices|
      invariant deduped == Distinct(Texts(choices[..i]))
      invariant forall c :: c in seen <==> c in deduped
    {
      var country := choices[i];
      assert choices[..i + 1] == choices[..i] + [country];
      TextsSnoc(choices[..i], country);
      if country.NonText? {
        assert Texts(choices[..i]) + [] == Texts(choices[..i]);
        assert Texts(choices[..i + 1]) == Texts(choices[..i]);
        assert deduped == Distinct(Texts(choices[..i + 1]));
        continue;
      }
      var before := Texts(choices[..i]);
      assert Texts(choices[..i + 1]) == before + [country.s];
      DistinctSnoc(before, country.s);
      if country.s in seen {
        assert country.s in before;
        assert deduped == Distinct(Texts(choices[..i + 1]));
        continue;
      }
      assert country.s !in before;
      seen := seen + {country.s};
      deduped := deduped + [country.s];
      assert deduped == Distinct(Texts(choices[..i + 1]));
    }
    assert choices[..|choices|] == choices;
  }

  /** The row loop: one row per country with records, each metric's key only when selected. */
  method BuildCompareRows(limited: seq<string>, metrics: seq<string>, table: seq<CountryRecord>)
    returns (rows: seq<CompareRow>)
    ensures rows == CompareRows(limited, metrics, table)
  {
    rows := [];
    for i := 0 to |limited|
      invariant rows == CompareRows(limited[..i], metrics, table)
    {
      var country := limited[i];
      assert limited[..i + 1][..i] == limited[..i];
      var countryData := RecordsOf(table, country);
      if countryData == [] {
        continue;
      }
      var row := CompareRow(country, None, None, None, None);
      if "safety" in metrics {
        row := row.(safety := Some(FirstPresent(Column(countryData, SafetyOf))));
      }
      if "cpi" in metrics {
        row := row.(cpi := Some(FirstPresent(Column(countryData, CpiOf))));
      }
      if "pce" in metrics {
        row := row.(pce := Some(FirstPresent(Column(countryData, PceOf))));
      }
      if "travelers" in metrics {
        row := row.(travelers := Some(|countryData|));
      }
      rows := rows + [row];
    }
    assert limited[..|limited|] == limited;
  }

  /**
   * `prepare_country_compare_data`: de-duplicate the string choices, keep
   * the available ones (at most five), then build one row per kept country
   * that has records.
   */
  method PrepareCountryCompare(countries: Option<seq<Choice>>, metrics: Option<seq<string>>, table: seq<CountryRecord>)
    returns (rows: seq<CompareRow>, limited: seq<string>)
    ensures limited == LimitedCountries(countries, metrics, table)
    ensures rows == CompareRows(limited, metrics.GetOr([]), table)
  {
    var validMetrics := if metrics.Some? then metrics.value else [];
    var validCountries := if countries.Some? then countries.value else [];
    if validCountries == [] || validMetrics == [] {
      return [], [];
    }
    var deduped := DedupCountries(validCountries);
    limited := SliceTo(Filter(deduped, AvailableIn(table)), 5);
    if limited == [] {
      return [], [];
    }
    rows := BuildCompareRows(limited, validMetrics, table);
  }

  // ---------------------------------------------------------------------
  // preprocess_attraction_df
  // ---------------------------------------------------------------------

  /** `IsAccessibleForFree.fillna(False)` on one row. */
  function FreeFilled(a: Attraction): (r: Attraction)
    ensures r.isFree.Some?
    ensures a.isFree.Some? ==> r == a
    ensures a.isFree.None? ==> r == a.(isFree := Some(false))
  {
    a.(isFree := Some(a.isFree.GetOr(false)))
  }

  /** Filling an already filled row changes nothing. */
  lemma FreeFilledIdempotent(a: Attraction)
    ensures FreeFilled(FreeFilled(a)) == FreeFilled(a)
  {
  }

  /**
   * `preprocess_attraction_df`: when the frame has the IsAccessibleForFree
   * column, fill its missing cells with False, in place.
   */
  method PreprocessAttractions(attractions: array<Attraction>, hasFreeColumn: bool)
    modifies attractions
    ensures hasFreeColumn ==> forall i | 0 <= i < attractions.Length :: attractions[i] == FreeFilled(old(attractions[i]))
    ensures !hasFreeColumn ==> attractions[..] == old(attractions[..])
  {
    if hasFreeColumn {
      for i := 0 to attractions.Length
        invariant forall j | 0 <= j < i :: attractions[j] == FreeFilled(old(attractions[j]))
        invariant forall j | i <= j < attractions.Length :: attractions[j] == old(attractions[j])
      {
        attractions[i] := attractions[i].(isFree := Some(attractions[i].isFree.GetOr(false)));
      }
    }
  }
}
