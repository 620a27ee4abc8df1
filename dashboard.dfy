/**
 * application/__init__.py: the rules inside the dashboard's callbacks:
 * page routing, the four trip-planner filters with their 50-row cap, and
 * the rows the POI map plots. Component trees and figures are left out; a
 * callback's answer is an outcome datatype naming which branch it took.
 */
module Dashboard {
  import opened Optional
  import opened Strings
  import opened Seqs
  import opened Records
  import DataTransform
  import Visualization

  // ---------------------------------------------------------------------
  // render_page_content
  // ---------------------------------------------------------------------

  const Overview := "/dashboard/overview"
  const Planner := "/dashboard/planner"
  const AttractionsMap := "/dashboard/attractions"

  datatype Page = OverviewPage | PlannerPage | AttractionsPage | NotFound(path: Option<string>)

  /** "/dashboard/" and "/dashboard" stand for the overview. */
  function NormalizePath(pathname: Option<string>): (r: Option<string>)
    ensures pathname == Some("/dashboard/") || pathname == Some("/dashboard") ==> r == Some(Overview)
    ensures pathname != Some("/dashboard/") && pathname != Some("/dashboard") ==> r == pathname
  {
    if pathname == Some("/dashboard/") || pathname == Some("/dashboard") then Some(Overview) else pathname
  }

  /** `render_page_content`: three pages, everything else the 404 page. */
  function RenderPage(pathname: Option<string>): (r: Page)
    ensures r.OverviewPage? <==> NormalizePath(pathname) == Some(Overview)
    ensures r.PlannerPage? <==> pathname == Some(Planner)
    ensures r.AttractionsPage? <==> pathname == Some(AttractionsMap)
    ensures r.NotFound? ==> r.path == pathname
  {
    var p := NormalizePath(pathname);
    if p == Some(Overview) then OverviewPage
    else if p == Some(Planner) then PlannerPage
    else if p == Some(AttractionsMap) then AttractionsPage
    else NotFound(p)
  }

  /** Normalising is idempotent, and the two dashboard roots render the overview. */
  lemma RoutingFacts(pathname: Option<string>)
    ensures NormalizePath(NormalizePath(pathname)) == NormalizePath(pathname)
    ensures RenderPage(Some("/dashboard")) == OverviewPage && RenderPage(Some("/dashboard/")) == OverviewPage
    ensures RenderPage(NormalizePath(pathname)) == RenderPage(pathname)
  {
  }

  /** Any path other than the five spellings above gets the 404 page. */
  lemma UnknownPathNotFound(pathname: Option<string>)
    requires pathname !in {Some("/dashboard"), Some("/dashboard/"), Some(Overview), Some(Planner), Some(AttractionsMap)}
    ensures RenderPage(pathname) == NotFound(pathname)
  {
  }

  // ---------------------------------------------------------------------
  // Trip planner: shared pieces
  // ---------------------------------------------------------------------

  /** `df.head(50)`: the number of rows a planner table shows. */
  const TableRows := 50

  /** What a planner callback answers: no update (another page), "無符合資料", or the table's rows. */
  datatype Planned<T> = Prevented | NoMatch | Table(rows: seq<T>)

  /** The common tail: nothing left says "no match", otherwise the first 50 rows in filter order. */
  function Tabulate<T>(rows: seq<T>): (r: Planned<T>)
    ensures r.NoMatch? <==> rows == []
    ensures r.Table? ==> |r.rows| == if |rows| < TableRows then |rows| else TableRows
    ensures r.Table? ==> 0 < |r.rows| <= TableRows && r.rows == rows[..|r.rows|]
    ensures !r.Prevented?
  {
    if rows == [] then NoMatch else Table(Head(rows, TableRows))
  }

  /** A present, non-blank cell: `notna() & astype(str).str.strip().ne('')`. */
  predicate HasText(cell: Option<string>) {
    cell.Some? && !IsBlank(cell.value)
  }

  // ---------------------------------------------------------------------
  // update_planner_attraction
  // ---------------------------------------------------------------------

  /** The FREE test: `IsAccessibleForFree == True` or no FeeInfo. */
  predicate FreeOrNoFee(a: Attraction) {
    a.isFree == Some(true) || a.feeInfo.None?
  }

  /** `PrimaryCategory.isin(cats)`: a missing category is never in the list. */
  function CategoryIn(cats: seq<string>): Attraction -> bool {
    (a: Attraction) => a.primaryCategory.Some? && a.primaryCategory.value in cats
  }

  /** The PARKING_EXIST / TRAFFIC_EXIST mask, starting from all-true. */
  function ServicesPresent(parking: bool, traffic: bool): Attraction -> bool {
    (a: Attraction) => (!parking || HasText(a.parkingInfo)) && (!traffic || HasText(a.trafficInfo))
  }

  /** The `is_free` step: with FREE selected, keep the free attractions and those without a fee. */
  function FreeStep(df: seq<Attraction>, isFree: Option<seq<Option<string>>>): (r: seq<Attraction>)
    ensures forall a :: a in r <==>
      a in df && (Some("FREE") in isFree.GetOr([]) ==> FreeOrNoFee(a))
  {
    if "FREE" in DataTransform.SanitizeListInput(isFree) then Filter(df, FreeOrNoFee) else df
  }

  /** The `categories` step: with a selection, keep the attractions whose primary category is selected. */
  function CategoryStep(df: seq<Attraction>, cats: Option<seq<Option<string>>>): (r: seq<Attraction>)
    ensures forall a :: a in r <==>
      && a in df
      && (DataTransform.SanitizeListInput(cats) != [] ==>
            a.primaryCategory.Some? && Some(a.primaryCategory.value) in cats.value)
  {
    var cs := DataTransform.SanitizeListInput(cats);
    if cs != [] then Filter(df, CategoryIn(cs)) else df
  }

  /** The `services` step: each selected service must have a non-blank description. */
  function ServiceStep(df: seq<Attraction>, servs: Option<seq<Option<string>>>): (r: seq<Attraction>)
    ensures forall a :: a in r <==>
      && a in df
      && (Some("PARKING_EXIST") in servs.GetOr([]) ==> HasText(a.parkingInfo))
      && (Some("TRAFFIC_EXIST") in servs.GetOr([]) ==> HasText(a.trafficInfo))
  {
    var sv := DataTransform.SanitizeListInput(servs);
    if sv != [] then Filter(df, ServicesPresent("PARKING_EXIST" in sv, "TRAFFIC_EXIST" in sv)) else df
  }

  /** The attractions the planner keeps before the cap, in frame order. */
  function AttractionMatches(attractions: seq<Attraction>, isFree: Option<seq<Option<string>>>,
                             cats: Option<seq<Option<string>>>, servs: Option<seq<Option<string>>>): (r: seq<Attraction>)
    ensures forall a :: a in r <==>
      && a in Column(attractions, DataTransform.FreeFilled)
      && (Some("FREE") in isFree.GetOr([]) ==> a.isFree == Some(true) || a.feeInfo.None?)
      && (DataTransform.SanitizeListInput(cats) != [] ==>
            a.primaryCategory.Some? && Some(a.primaryCategory.value) in cats.value)
      && (Some("PARKING_EXIST") in servs.GetOr([]) ==> HasText(a.parkingInfo))
      && (Some("TRAFFIC_EXIST") in servs.GetOr([]) ==> HasText(a.trafficInfo))
  {
    ServiceStep(CategoryStep(FreeStep(Column(attractions, DataTransform.FreeFilled), isFree), cats), servs)
  }

  /** `update_planner_attraction`. */
  function PlanAttractions(attractions: seq<Attraction>, isFree: Option<seq<Option<string>>>,
                           cats: Option<seq<Option<string>>>, servs: Option<seq<Option<string>>>,
                           pathname: Option<string>): (r: Planned<Attraction>)
    ensures r.Prevented? <==> pathname != Some(Planner)
    ensures !r.Prevented? ==> r == Tabulate(AttractionMatches(attractions, isFree, cats, servs))
  {
    if pathname != Some(Planner) then Prevented
    else Tabulate(AttractionMatches(attractions, isFree, cats, servs))
  }

  /** With FREE selected, every shown attraction is free or lists no fee. */
  lemma FreeSelectionShowsFree(attractions: seq<Attraction>, cats: Option<seq<Option<string>>>,
                               servs: Option<seq<Option<string>>>, a: Attraction)
    requires a in AttractionMatches(attractions, Some([Some("FREE")]), cats, servs)
    ensures a.isFree == Some(true) || a.feeInfo.None?
  {
  }

  /** An empty or missing selection filters nothing: every attraction is listed, its free flag filled. */
  lemma NoSelectionKeepsAll(attractions: seq<Attraction>, isFree: Option<seq<Option<string>>>)
    requires isFree == None || isFree == Some([])
    ensures AttractionMatches(attractions, isFree, None, Some([])) == Column(attractions, DataTransform.FreeFilled)
  {
  }

  // ---------------------------------------------------------------------
  // update_planner_event and the cuisine filter of update_planner_restaurant
  // ---------------------------------------------------------------------

  /**
   * `astype(str).str.contains('|'.join(map(re.escape, names)))`: the cell's
   * text holds one of the names as a literal substring.
   */
  function MentionsAny(cell: Option<string>, names: seq<string>): (r: bool)
    ensures r <==> exists k | 0 <= k < |names| :: Contains(Visualization.CellText(cell), names[k])
  {
    if names == [] then false
    else if Contains(Visualization.CellText(cell), names[0]) then true
    else
      assert forall k | 1 <= k < |names| :: names[k] == names[1..][k - 1];
      MentionsAny(cell, names[1..])
  }

  function EventMentions(names: seq<string>): Event -> bool {
    (e: Event) => MentionsAny(e.categoryNames, names)
  }

  /** The events the planner keeps before the cap. The date range it reads plays no part. */
  function EventMatches(events: seq<Event>, cats: Option<seq<Option<string>>>): (r: seq<Event>)
    ensures forall e :: e in r <==> (e in events &&
      (DataTransform.SanitizeListInput(cats) != [] ==> MentionsAny(e.categoryNames, DataTransform.SanitizeListInput(cats))))
  {
    var cs := DataTransform.SanitizeListInput(cats);
    if cs != [] then Filter(events, EventMentions(cs)) else events
  }

  /** `update_planner_event`: `start` and `end` are read and never used. */
  function PlanEvents<D>(events: seq<Event>, start: D, end: D, cats: Option<seq<Option<string>>>,
                         pathname: Option<string>): (r: Planned<Event>)
    ensures r.Prevented? <==> pathname != Some(Planner)
    ensures !r.Prevented? ==> r == Tabulate(EventMatches(events, cats))
  {
    if pathname != Some(Planner) then Prevented else Tabulate(EventMatches(events, cats))
  }

  /** The date range never changes the table. */
  lemma EventDatesIgnored<D>(events: seq<Event>, start1: D, end1: D, start2: D, end2: D,
                             cats: Option<seq<Option<string>>>, pathname: Option<string>)
    ensures PlanEvents(events, start1, end1, cats, pathname) == PlanEvents(events, start2, end2, cats, pathname)
  {
  }

  /** Names are matched literally, as substrings: a selected name inside a longer label matches it. */
  lemma SubstringMatches(before: string, name: string, after: string)
    ensures MentionsAny(Some(before + name + after), [name])
  {
    assert OccursAt(before + name + after, name, |before|) by {
      assert (before + name + after)[|before|..|before| + |name|] == name;
    }
  }

  /** A missing category cell reads "nan", so a selected name that occurs in "nan" keeps it. */
  lemma MissingCellReadsNan(e: Event)
    requires e.categoryNames.None?
    ensures EventMentions(["nan"])(e)
  {
    assert OccursAt("nan", "nan", 0);
  }

  // ---------------------------------------------------------------------
  // update_planner_hotel
  // ---------------------------------------------------------------------

  /** The hotels the planner keeps before the cap: positive price, sanitised bounds, type selection. */
  function HotelMatches(hotels: seq<Hotel>, minPrice: Option<real>, maxPrice: Option<real>,
                        types: Option<seq<string>>): seq<Hotel> {
    var bounds := DataTransform.SanitizeCostBounds(minPrice, maxPrice);
    DataTransform.FilterByCostAndTypes(DataTransform.PreprocessHotels(hotels), bounds.0, bounds.1, types)
  }

  /** `update_planner_hotel`; its second output, the selected countries, is always cleared. */
  function PlanHotels(hotels: seq<Hotel>, minPrice: Option<real>, maxPrice: Option<real>,
                      types: Option<seq<string>>, pathname: Option<string>): (r: Planned<Hotel>)
    ensures r.Prevented? <==> pathname != Some(Planner)
    ensures !r.Prevented? ==> r == Tabulate(HotelMatches(hotels, minPrice, maxPrice, types))
  {
    if pathname != Some(Planner) then Prevented else Tabulate(HotelMatches(hotels, minPrice, maxPrice, types))
  }

  /**
   * A shown hotel has a positive price inside the range, whichever order
   * the two bounds were typed in, and a selected type when types are chosen.
   */
  lemma HotelMatchesInRange(hotels: seq<Hotel>, lo: real, hi: real, types: Option<seq<string>>, h: Hotel)
    requires h in HotelMatches(hotels, Some(lo), Some(hi), types) || h in HotelMatches(hotels, Some(hi), Some(lo), types)
    ensures h in hotels && h.lowestPrice.Some? && h.lowestPrice.value > 0.0
    ensures (if lo <= hi then lo else hi) <= h.lowestPrice.value <= (if lo <= hi then hi else lo)
    ensures types.Some? && types.value != [] ==> h.className.Some? && h.className.value in types.value
  {
  }

  /** Swapping the two price bounds changes nothing. */
  lemma HotelBoundsSymmetric(hotels: seq<Hotel>, lo: real, hi: real, types: Option<seq<string>>)
    ensures HotelMatches(hotels, Some(lo), Some(hi), types) == HotelMatches(hotels, Some(hi), Some(lo), types)
  {
  }

  // ---------------------------------------------------------------------
  // update_planner_restaurant
  // ---------------------------------------------------------------------

  /** The restaurant table: the display columns that exist, and the rows. */
  datatype RestaurantAnswer =
    | RestaurantPrevented
    | LoadError
    | RestaurantNoMatch
    | RestaurantTable(columns: seq<string>, rows: seq<Restaurant>)

  function CityIs(city: string): Restaurant -> bool {
    (r: Restaurant) => r.city == Some(city)
  }

  function CuisineMentions(names: seq<string>): Restaurant -> bool {
    (r: Restaurant) => MentionsAny(r.cuisineNames, names)
  }

  /** `'PostalAddress.City'` when the frame has it, else `'City'`. */
  function CityColumn(columns: set<string>): string {
    if "PostalAddress.City" in columns then "PostalAddress.City" else "City"
  }

  /** The restaurants kept before the cap; the frame's column set decides which filters can run. */
  function RestaurantMatches(restaurants: seq<Restaurant>, columns: set<string>, city: Option<string>,
                             cuisines: Option<seq<Option<string>>>): (r: seq<Restaurant>)
    ensures forall x :: x in r <==> (x in restaurants
      && (city.Some? && city.value != "" && CityColumn(columns) in columns ==> x.city == city)
      && (DataTransform.SanitizeListInput(cuisines) != [] && "CuisineNames" in columns ==>
            MentionsAny(x.cuisineNames, DataTransform.SanitizeListInput(cuisines))))
  {
    var byCity := if city.Some? && city.value != "" && CityColumn(columns) in columns
      then Filter(restaurants, CityIs(city.value)) else restaurants;
    var cs := DataTransform.SanitizeListInput(cuisines);
    if cs != [] && "CuisineNames" in columns then Filter(byCity, CuisineMentions(cs)) else byCity
  }

  /** `col_map`: display name and source column, in display order. */
  function ColumnMap(cityColumn: string): seq<(string, string)> {
    [("餐廳名稱", "RestaurantName"), ("縣市", cityColumn), ("菜系", "CuisineNames"), ("狀態", "ServiceStatus")]
  }

  /** The display names whose source column exists, in `col_map` order. */
  function ShownColumns(colMap: seq<(string, string)>, columns: set<string>): (r: seq<string>)
    ensures |r| <= |colMap|
    ensures forall d :: d in r <==> exists k | 0 <= k < |colMap| :: colMap[k].0 == d && colMap[k].1 in columns
  {
    if colMap == [] then []
    else
      assert forall k | 1 <= k < |colMap| :: colMap[k] == colMap[1..][k - 1];
      (if colMap[0].1 in columns then [colMap[0].0] else []) + ShownColumns(colMap[1..], columns)
  }

  lemma {:induction false} ShownColumnsAppend(a: seq<(string, string)>, b: seq<(string, string)>, columns: set<string>)
    ensures ShownColumns(a + b, columns) == ShownColumns(a, columns) + ShownColumns(b, columns)
  {
    if a != [] {
      assert (a + b)[1..] == a[1..] + b;
      ShownColumnsAppend(a[1..], b, columns);
    } else {
      assert a + b == b;
    }
  }

  /** The loop that fills `display` column by column. */
  method BuildDisplay(colMap: seq<(string, string)>, columns: set<string>) returns (display: seq<string>)
    ensures display == ShownColumns(colMap, columns)
  {
    display := [];
    for i := 0 to |colMap|
      invariant display == ShownColumns(colMap[..i], columns)
    {
      var (dName, dbCol) := colMap[i];
      assert colMap[..i + 1] == colMap[..i] + [colMap[i]];
      ShownColumnsAppend(colMap[..i], [colMap[i]], columns);
      if dbCol in columns {
        display := display + [dName];
      }
    }
    assert colMap[..|colMap|] == colMap;
  }

  /** `update_planner_restaurant`. */
  function PlanRestaurants(restaurants: seq<Restaurant>, columns: set<string>, city: Option<string>,
                           cuisines: Option<seq<Option<string>>>, pathname: Option<string>): (r: RestaurantAnswer)
    ensures r.RestaurantPrevented? <==> pathname != Some(Planner)
    ensures r.LoadError? <==> pathname == Some(Planner) && restaurants == []
    ensures r.RestaurantNoMatch? <==> (pathname == Some(Planner) && restaurants != []
      && RestaurantMatches(restaurants, columns, city, cuisines) == [])
    ensures r.RestaurantTable? ==>
      && r.columns == ShownColumns(ColumnMap(CityColumn(columns)), columns)
      && r.rows == Head(RestaurantMatches(restaurants, columns, city, cuisines), TableRows)
  {
    if pathname != Some(Planner) then RestaurantPrevented
    else if restaurants == [] then LoadError
    else
      var rows := RestaurantMatches(restaurants, columns, city, cuisines);
      if rows == [] then RestaurantNoMatch
      else RestaurantTable(ShownColumns(ColumnMap(CityColumn(columns)), columns), Head(rows, TableRows))
  }

  /** With a city chosen and a city column present, every listed restaurant is in that city. */
  lemma RestaurantCityRespected(restaurants: seq<Restaurant>, columns: set<string>, city: string,
                                cuisines: Option<seq<Option<string>>>, pathname: Option<string>)
    requires city != "" && ("PostalAddress.City" in columns || "City" in columns)
    requires PlanRestaurants(restaurants, columns, Some(city), cuisines, pathname).RestaurantTable?
    ensures forall x | x in PlanRestaurants(restaurants, columns, Some(city), cuisines, pathname).rows :: x.city == Some(city)
  {
    var all := RestaurantMatches(restaurants, columns, Some(city), cuisines);
    var shown := Head(all, TableRows);
    forall x | x in shown ensures x.city == Some(city) {
      assert x in all;
    }
  }

  /** A frame with every source column shows all four display columns, in order. */
  lemma FullFrameShowsAll(columns: set<string>)
    requires {"PostalAddress.City", "RestaurantName", "CuisineNames", "ServiceStatus"} <= columns
    ensures ShownColumns(ColumnMap(CityColumn(columns)), columns) == ["餐廳名稱", "縣市", "菜系", "狀態"]
  {
    var m := ColumnMap("PostalAddress.City");
    assert ShownColumns(m[3..], columns) == ["狀態"] by {
      assert m[3..][1..] == [];
    }
    assert m[2..][1..] == m[3..];
    assert ShownColumns(m[2..], columns) == ["菜系", "狀態"];
    assert m[1..][1..] == m[2..];
    assert ShownColumns(m[1..], columns) == ["縣市", "菜系", "狀態"];
    assert CityColumn(columns) == "PostalAddress.City";
  }

  // ---------------------------------------------------------------------
  // update_poi_map
  // ---------------------------------------------------------------------

  /** A row of the merged POI frame: its kind label, name, city and coordinates. */
  datatype Poi = Poi(kind: string, name: Option<string>, city: Option<string>, lat: Option<real>, lon: Option<real>)

  function AttractionPoi(a: Attraction): Poi { Poi("景點", a.name, a.city, a.lat, a.lon) }
  function HotelPoi(h: Hotel): Poi { Poi("住宿", h.name, h.city, h.lat, h.lon) }
  function RestaurantPoi(r: Restaurant): Poi { Poi("餐廳", r.name, r.city, r.lat, r.lon) }
  function EventPoi(e: Event): Poi { Poi("活動", e.name, e.city, e.lat, e.lon) }

  function PoiInCity(city: string): Poi -> bool {
    (p: Poi) => p.city == Some(city)
  }

  predicate HasCoordinates(p: Poi) {
    p.lat.Some? && p.lon.Some?
  }

  /** The four tables, and whether each has a Lat column. */
  datatype Tables = Tables(
    attractions: seq<Attraction>, attractionsHaveLat: bool,
    hotels: seq<Hotel>, hotelsHaveLat: bool,
    restaurants: seq<Restaurant>, restaurantsHaveLat: bool,
    events: seq<Event>, eventsHaveLat: bool)

  datatype PoiMap = PoiPrevented | NoFrames | NoCoordinates | Points(pois: seq<Poi>)

  /** `df[df['City'] == city]` with the attraction columns renamed to a point of kind 景點. */
  function AttractionFrame(t: Tables, city: string): (r: seq<Poi>)
    ensures forall p | p in r :: p.city == Some(city) && p.kind == "景點"
  {
    Filter(Column(t.attractions, AttractionPoi), PoiInCity(city))
  }

  function HotelFrame(t: Tables, city: string): (r: seq<Poi>)
    ensures forall p | p in r :: p.city == Some(city) && p.kind == "住宿"
  {
    Filter(Column(t.hotels, HotelPoi), PoiInCity(city))
  }

  function RestaurantFrame(t: Tables, city: string): (r: seq<Poi>)
    ensures forall p | p in r :: p.city == Some(city) && p.kind == "餐廳"
  {
    Filter(Column(t.restaurants, RestaurantPoi), PoiInCity(city))
  }

  function EventFrame(t: Tables, city: string): (r: seq<Poi>)
    ensures forall p | p in r :: p.city == Some(city) && p.kind == "活動"
  {
    Filter(Column(t.events, EventPoi), PoiInCity(city))
  }

  /** The frames appended to `all_pois`, in the callback's order: attractions, hotels, restaurants, events. */
  function PoiFrames(t: Tables, city: string, cats: seq<string>): (r: seq<seq<Poi>>)
    ensures |r| <= 4
  {
    (if "attractions" in cats && t.attractionsHaveLat then [AttractionFrame(t, city)] else [])
    + (if "hotels" in cats && t.hotelsHaveLat then [HotelFrame(t, city)] else [])
    + (if "restaurants" in cats && t.restaurantsHaveLat then [RestaurantFrame(t, city)] else [])
    + (if "events" in cats && t.eventsHaveLat then [EventFrame(t, city)] else [])
  }

  /** Every point of every frame is in the city and of a selected kind. */
  lemma PoiFramesSound(t: Tables, city: string, cats: seq<string>)
    ensures forall f | f in PoiFrames(t, city, cats) :: forall p | p in f :: p.city == Some(city) && p.kind in KindsOf(cats)
  {
  }

  /** The kind labels of the selected categories. */
  ghost function KindsOf(cats: seq<string>): set<string> {
    (if "attractions" in cats then {"景點"} else {})
    + (if "hotels" in cats then {"住宿"} else {})
    + (if "restaurants" in cats then {"餐廳"} else {})
    + (if "events" in cats then {"活動"} else {})
  }

  function Concat(frames: seq<seq<Poi>>): (r: seq<Poi>)
    ensures forall p :: p in r <==> exists f | f in frames :: p in f
  {
    if frames == [] then []
    else
      assert forall f | f in frames[1..] :: f in frames;
      frames[0] + Concat(frames[1..])
  }

  /** The specification of `update_poi_map`. */
  function PoiMapOf(t: Tables, city: Option<string>, cats: Option<seq<string>>): PoiMap {
    if city.None? || city.value == "" || cats.None? || cats.value == [] then PoiPrevented
    else
      var frames := PoiFrames(t, city.value, cats.value);
      if frames == [] then NoFrames
      else
        var merged := Filter(Concat(frames), HasCoordinates);
        if merged == [] then NoCoordinates else Points(merged)
  }

  /** `update_poi_map`: append each selected frame to `all_pois`, concatenate, drop rows without coordinates. */
  method UpdatePoiMap(t: Tables, city: Option<string>, cats: Option<seq<string>>) returns (r: PoiMap)
    ensures r == PoiMapOf(t, city, cats)
  {
    if city.None? || city.value == "" || cats.None? || cats.value == [] {
      return PoiPrevented;
    }
    var c := city.value;
    var allPois: seq<seq<Poi>> := [];
    var sel := cats.value;
    ghost var a := if "attractions" in sel && t.attractionsHaveLat then [AttractionFrame(t, c)] else [];
    ghost var h := if "hotels" in sel && t.hotelsHaveLat then [HotelFrame(t, c)] else [];
    ghost var rs := if "restaurants" in sel && t.restaurantsHaveLat then [RestaurantFrame(t, c)] else [];
    ghost var e := if "events" in sel && t.eventsHaveLat then [EventFrame(t, c)] else [];
    if "attractions" in sel && t.attractionsHaveLat {
      allPois := allPois + [AttractionFrame(t, c)];
    }
    assert allPois == a;
    if "hotels" in sel && t.hotelsHaveLat {
      allPois := allPois + [HotelFrame(t, c)];
    }
    assert allPois == a + h;
    if "restaurants" in sel && t.restaurantsHaveLat {
      allPois := allPois + [RestaurantFrame(t, c)];
    }
    assert allPois == a + h + rs;
    if "events" in sel && t.eventsHaveLat {
      allPois := allPois + [EventFrame(t, c)];
    }
    assert allPois == a + h + rs + e;
    assert allPois == PoiFrames(t, c, sel);
    if allPois == [] {
      return NoFrames;
    }
    var dfAll := Filter(Concat(allPois), HasCoordinates);
    if dfAll == [] {
      return NoCoordinates;
    }
    return Points(dfAll);
  }

  /** Every plotted point is in the chosen city, of a selected kind, and has both coordinates. */
  lemma PoiPointsSound(t: Tables, city: string, cats: seq<string>)
    requires PoiMapOf(t, Some(city), Some(cats)).Points?
    ensures forall p | p in PoiMapOf(t, Some(city), Some(cats)).pois ::
      p.city == Some(city) && p.kind in KindsOf(cats) && p.lat.Some? && p.lon.Some?
  {
    var frames := PoiFrames(t, city, cats);
    PoiFramesSound(t, city, cats);
    forall p | p in PoiMapOf(t, Some(city), Some(cats)).pois
      ensures p.city == Some(city) && p.kind in KindsOf(cats) && p.lat.Some? && p.lon.Some?
    {
      assert p in Concat(frames);
      var f :| f in frames && p in f;
    }
  }

  /** Every attraction of the city with both coordinates is plotted when attractions are selected. */
  lemma PoiAttractionsComplete(t: Tables, city: string, cats: seq<string>, a: Attraction)
    requires "attractions" in cats && t.attractionsHaveLat
    requires a in t.attractions && a.city == Some(city) && a.lat.Some? && a.lon.Some?
    requires city != ""
    ensures PoiMapOf(t, Some(city), Some(cats)).Points?
    ensures AttractionPoi(a) in PoiMapOf(t, Some(city), Some(cats)).pois
  {
    var frames := PoiFrames(t, city, cats);
    var first := AttractionFrame(t, city);
    assert frames[0] == first;
    var i :| 0 <= i < |t.attractions| && t.attractions[i] == a;
    assert AttractionPoi(a) in Column(t.attractions, AttractionPoi);
    assert AttractionPoi(a) in first;
    assert AttractionPoi(a) in Concat(frames);
  }
}
