# Taiwan tourism dashboard: record, filter and ranking rules

This project is a Dafny model of the deterministic rules inside a Dash/Flask
tourism dashboard. The dashboard loads Taiwanese attraction, event, hotel and
restaurant records and shows them on charts, in a trip planner and on a POI
map. It also searches attraction photos by image similarity. The model covers:

- **Record normalisation** (`application/utils/data_clean.py`):
  - code-to-name rendering with the `未知代碼(c)` fallback;
  - the first-image and first-telephone extractors;
  - the fee, service-time and restaurant opening-hours summaries;
  - the hotel class and star labels;
  - an attraction's `PrimaryCategory`.
- **Query and filter rules** (`application/utils/data_transform.py`):
  - list and price-bound sanitising;
  - the price/type hotel filter;
  - alert ranks and the alert filter;
  - exploded category options;
  - default geographies;
  - `first_nonnull`;
  - country de-duplication for the comparison.
- **The planner and map callbacks** (`application/__init__.py`):
  - routing;
  - the attraction, event, hotel and restaurant filters and the 50-row cap;
  - the POI merge.
- **Chart bucketing** (`application/utils/visualization.py`):
  - the City-or-Town filter;
  - twelve month buckets;
  - splitting multi-category cells;
  - grouping names under primary event categories.
- **Headline counts and the alert rank table** (`application/utils/const.py`).
- **Similarity search plumbing**:
  - `application/utils/image_search.py`: the result list, the stable descending sort and the top-k cut;
  - `generate_index.py`: the file filter, the ID derivation and the dictionary-building loop.

pandas frames are sequences of records (`Records`). A NaN or absent cell is
`None` (`Optional`). A Python `dict` whose insertion order matters is an
ordered sequence of pairs (`OrderedDict`). Python's `str` operations that the
rules use live in `Strings`, and the frame operations live in `Seqs`: `df[mask]`,
`dropna`, `head`, `unique`, `sorted(set(..))` and `value_counts` for one label.

Loops in the source are methods with loop invariants, each proved equal to a
specification function. These include:

- `_summarize_list_data`;
- `_summarize_list_restaurant_data`;
- `first_nonnull`;
- `map_to_primary_category`;
- the de-duplication and row loops of `prepare_country_compare_data`;
- the `display` loop of `update_planner_restaurant`;
- `update_poi_map`;
- the result loop of `search_similar_images`;
- `generate_npy_index`.

The properties the rules promise are then proved about those functions.
`preprocess_attraction_df` mutates its frame in place, so it works on an
`array`. The stable `list.sort` is an in-place insertion sort on an array,
proved equal to a functional insertion sort. That functional sort is proved to
be a permutation, ordered and stable.

The feature extractor, the similarity score and the check `is_exempt` are
opaque function parameters. `os.listdir` order and the date range the event
planner ignores are parameters too.

The dict literals for attraction, event, cuisine and feature classes are
written as unions of disjoint blocks of their rows. This is the same mapping.
It lets the label facts be proved block by block.

## Model

| member | source | states |
|---|---|---|
| Const.AlertRanksOrdered | application/utils/const.py:4 | The alert table lists exactly 灰色, 黃色 and 橙色, ranked strictly increasing (2 < 3 < 4). |
| Const.DistinctCount | application/utils/const.py:36-63 | `nunique()` is the number of distinct present values; it is at most the row count and zero exactly when every cell is missing. |
| Const.DuplicateRowKeepsCount | application/utils/const.py:36-63 | Inserting a copy of any row anywhere in a column leaves its distinct count unchanged. |
| Const.GetConstants | application/utils/const.py:19-47 | Returns the distinct counts of City, Town and AttractionID in that order, each at most the number of rows. |
| Const.GetConstantsEvent | application/utils/const.py:49-53 | Returns the distinct count of EventID, at most the number of rows. |
| Const.GetConstantsHotel | application/utils/const.py:55-59 | Returns the distinct count of HotelID, at most the number of rows. |
| Const.GetConstantsRestaurant | application/utils/const.py:61-65 | Returns the distinct count of RestaurantID, at most the number of rows. |
| Const.ConstantsIgnoreDuplicateRows | application/utils/const.py:19-47 | Listing an attraction twice changes none of the three counts. |
| Const.EventCountIgnoresDuplicateRows | application/utils/const.py:49-53 | Listing an event twice leaves the event count unchanged. |
| Const.HotelCountIgnoresDuplicateRows | application/utils/const.py:55-59 | Listing a hotel twice leaves the hotel count unchanged. |
| Const.RestaurantCountIgnoresDuplicateRows | application/utils/const.py:61-65 | Listing a restaurant twice leaves the restaurant count unchanged. |
| Dashboard.NormalizePath | application/__init__.py:123-124 | "/dashboard/" and "/dashboard" become "/dashboard/overview"; every other path is left as it is. |
| Dashboard.RenderPage | application/__init__.py:121-359 | The overview iff the normalised path is the overview, the planner iff the path is the planner, the POI map iff it is the attractions page; anything else is the 404 page carrying the path. |
| Dashboard.RoutingFacts | application/__init__.py:123-127 | Normalising is idempotent, both dashboard roots render the overview, and rendering a normalised path equals rendering the path. |
| Dashboard.UnknownPathNotFound | application/__init__.py:354-359 | Any path other than the five recognised spellings renders the 404 page. |
| Dashboard.Tabulate | application/__init__.py:461-464 | No rows gives "無符合資料"; otherwise the table holds the first min(n, 50) filtered rows, in filter order. |
| Dashboard.FreeStep | application/__init__.py:450-451 | With FREE selected an attraction stays iff it is free or has no FeeInfo; otherwise every attraction stays. |
| Dashboard.CategoryStep | application/__init__.py:452-453 | With a non-empty sanitised selection an attraction stays iff its PrimaryCategory is present and selected; otherwise every attraction stays. |
| Dashboard.ServiceStep | application/__init__.py:454-459 | PARKING_EXIST and TRAFFIC_EXIST each require a present, non-blank ParkingInfo or TrafficInfo; selecting both requires both. |
| Dashboard.AttractionMatches | application/__init__.py:447-459 | An attraction is kept iff it is in the preprocessed frame and passes the free, category and service conditions. |
| Dashboard.PlanAttractions | application/__init__.py:445-471 | Off the planner page nothing updates; on it the answer is the capped table of the matching attractions. |
| Dashboard.FreeSelectionShowsFree | application/__init__.py:451 | With FREE selected every kept attraction is free or lists no fee. |
| Dashboard.NoSelectionKeepsAll | application/__init__.py:450-459 | An empty or missing selection filters nothing: every attraction is kept, in order, with its free flag filled. |
| Dashboard.MentionsAny | application/__init__.py:483-484 | The escaped alternation matches iff the cell's text, "nan" for a missing cell, contains one of the names as a literal substring. |
| Dashboard.EventMatches | application/__init__.py:481-485 | With a non-empty selection an event is kept iff its category text mentions a selected name; otherwise all events are kept. |
| Dashboard.PlanEvents | application/__init__.py:476-496 | Off the planner nothing updates; on it the capped table of the matching events. |
| Dashboard.EventDatesIgnored | application/__init__.py:476-490 | The chosen date range never changes the event table. |
| Dashboard.SubstringMatches | application/__init__.py:483-484 | A selected name inside a longer label matches it. |
| Dashboard.MissingCellReadsNan | application/__init__.py:484 | A missing category cell reads "nan", so the name "nan" keeps it. |
| Dashboard.PlanHotels | application/__init__.py:501-518 | Off the planner nothing updates; on it the capped table of the positive-price hotels within the sanitised bounds and selected types. |
| Dashboard.HotelMatchesInRange | application/__init__.py:503-505 | A shown hotel has a positive price between the two bounds, whichever order they were typed in, and a selected type when types are chosen. |
| Dashboard.HotelBoundsSymmetric | application/__init__.py:504-505 | Swapping the two price bounds changes nothing. |
| Dashboard.RestaurantMatches | application/__init__.py:527-536 | A restaurant is kept iff it is in the chosen city, when a city is chosen and a city column exists, and mentions a selected cuisine, when cuisines are selected and the column exists. |
| Dashboard.ShownColumns | application/__init__.py:540-543 | The display names are exactly those whose source column exists, at most one per `col_map` entry. |
| Dashboard.ShownColumnsAppend | application/__init__.py:542-543 | The shown columns of two parts of `col_map` are those of the first part, then those of the second. |
| Dashboard.BuildDisplay | application/__init__.py:541-543 | The loop builds exactly the shown display columns, in `col_map` order. |
| Dashboard.PlanRestaurants | application/__init__.py:523-550 | No update off the planner; "資料載入錯誤" for an empty table; "無符合資料" iff nothing matches; otherwise the shown columns and the first 50 matches. |
| Dashboard.RestaurantCityRespected | application/__init__.py:528-530 | With a city chosen and a city column present, every listed restaurant is in that city. |
| Dashboard.FullFrameShowsAll | application/__init__.py:540-543 | A frame with every source column shows 餐廳名稱, 縣市, 菜系 and 狀態 in that order. |
| Dashboard.AttractionFrame | application/__init__.py:564 | Every point of the attraction frame is in the city and has kind 景點. |
| Dashboard.HotelFrame | application/__init__.py:565 | Every point of the hotel frame is in the city and has kind 住宿. |
| Dashboard.RestaurantFrame | application/__init__.py:566 | Every point of the restaurant frame is in the city and has kind 餐廳. |
| Dashboard.EventFrame | application/__init__.py:567 | Every point of the event frame is in the city and has kind 活動. |
| Dashboard.PoiFramesSound | application/__init__.py:564-567 | Every point of every appended frame is in the city and of a selected kind. |
| Dashboard.Concat | application/__init__.py:571 | A point is in the concatenation iff it is in one of the frames. |
| Dashboard.UpdatePoiMap | application/__init__.py:559-572 | The callback's append steps produce the specified map: no update without a city or categories, "無數據" without frames, "無座標數據" without coordinates, otherwise the points. |
| Dashboard.PoiPointsSound | application/__init__.py:563-572 | Every plotted point is in the chosen city, is of a selected kind and has both coordinates. |
| Dashboard.PoiAttractionsComplete | application/__init__.py:564-571 | When attractions are selected, every attraction of the city with both coordinates is plotted. |
| DataClean.CleanUnion | application/utils/data_clean.py:171-221 | Merging two tables whose labels are clean gives a table whose labels are clean. |
| DataClean.AttractionTableClean | application/utils/data_clean.py:171-182 | Every attraction class label has no comma and no surrounding whitespace. |
| DataClean.EventTableClean | application/utils/data_clean.py:184-221 | Every event class label has no comma and no surrounding whitespace. |
| DataClean.CuisineTableClean | application/utils/data_clean.py:530-539 | Every cuisine label has no comma and no surrounding whitespace. |
| DataClean.FeatureTableClean | application/utils/data_clean.py:542-551 | Every restaurant feature label has no comma and no surrounding whitespace. |
| DataClean.UnknownCode | application/utils/data_clean.py:562 | The fallback label `未知代碼(c)` is itself clean. |
| DataClean.CodesToNames | application/utils/data_clean.py:557-563 | Missing exactly for a non-list or empty list; otherwise the text starts with the first code's name. |
| DataClean.CodesToNamesSplit | application/utils/data_clean.py:557-563 | Splitting the rendered text at ", " gives one name per code, in order: the table's label, or `未知代碼(c)` for an unmapped code. |
| DataClean.PrimaryCategory | application/utils/data_clean.py:338 | Present exactly when the category is present, and already stripped. |
| DataClean.PrimaryCategoryIsFirstClass | application/utils/data_clean.py:290-338 | An attraction's PrimaryCategory is the name of its first class code. |
| DataClean.PrimaryCategoryIsFirstName | application/utils/data_clean.py:557-563 | Over any clean table, the stripped text before the first comma of a rendered cell is the first code's name. |
| DataClean.ThumbnailUrl | application/utils/data_clean.py:159-164 | Present iff the list is non-empty and its first image has a URL, and then it is that URL; later images are never read. |
| DataClean.MainTelephone | application/utils/data_clean.py:257-261 | Present iff the list is non-empty and its first entry has a non-null `Tel`, and then it is that number; an absent and a `null` `Tel` both give missing. |
| DataClean.MainTelephoneAsWritten | application/utils/data_clean.py:453-455 | The hotel/restaurant lambda raises KeyError exactly when the first entry has no `Tel` key (a `null` `Tel` reads as missing without error); otherwise it agrees with `MainTelephone`. |
| DataClean.TelephoneWithoutTel | application/utils/data_clean.py:634-636 | A first entry without `Tel` aborts the lambda as written, where the checked rule yields missing. |
| DataClean.TelephoneNullTel | application/utils/data_clean.py:453-455 | A first entry whose `Tel` is `null` does not abort the lambda as written; it and the checked rule both yield missing. |
| DataClean.PriceLabel | application/utils/data_clean.py:113-116 | "免費" exactly when the price is not a digit string or non-negative integer, or is 0; otherwise "$" and the digits of the amount. |
| DataClean.PriceSpellingsAgree | application/utils/data_clean.py:113 | A price given as a digit string and the same price as an integer render alike. |
| DataClean.SummarizeFees | application/utils/data_clean.py:92-139 | The loop yields the fee summary: missing for a non-list or an empty list, otherwise one line per fee joined by newlines. |
| DataClean.FeesSummaryLines | application/utils/data_clean.py:105-139 | With single-line names, the summary splits back at newlines into one `name: label` line per fee, in order. |
| DataClean.SummarizeServiceTimes | application/utils/data_clean.py:92-139 | The loop yields the time summary: missing for a non-list or an empty list, otherwise one line per entry joined by newlines. |
| DataClean.ServiceTimesSummaryLines | application/utils/data_clean.py:121-139 | The summary splits into one line per entry, in order; a 公休日/休假日 line shows `name: days` and no times. |
| DataClean.TimeLineSingle | application/utils/data_clean.py:124-133 | An entry with single-line fields renders as a single line. |
| DataClean.DayCountLabel | application/utils/data_clean.py:588-593 | "每日" iff 7 days, "N/A" iff 0 days, and otherwise "每週n天" with n written in decimal. |
| DataClean.SummarizeOpeningHours | application/utils/data_clean.py:570-597 | The loop yields the opening-hours summary: missing for a non-list or an empty list, otherwise the entries joined by " \| ". |
| DataClean.OpeningHoursSummaryAppend | application/utils/data_clean.py:574-597 | Entries render in input order: the summary of a + b is that of a, " \| ", then that of b. |
| DataClean.HoursLinesConcat | application/utils/data_clean.py:574-595 | The lines of a + b are the lines of a followed by those of b. |
| DataClean.MainHotelClass | application/utils/data_clean.py:465-467 | Present iff `HotelClasses` is a non-empty list, and then it is its first code. |
| DataClean.HotelClassName | application/utils/data_clean.py:486 | "未知類型" exactly when the class is missing or unmapped; otherwise the class's label. |
| DataClean.HotelStarsName | application/utils/data_clean.py:490 | "未知星級" exactly when the rating is missing or unmapped; otherwise the star label. |
| DataTransform.FirstFilled | application/utils/data_transform.py:16-21 | The result is a present, non-blank value of the series; it is missing exactly when no value is present and non-blank. |
| DataTransform.FirstFilledAt | application/utils/data_transform.py:17-20 | A filled value preceded only by unfilled values is the one returned. |
| DataTransform.FirstNonNull | application/utils/data_transform.py:16-21 | The scan returns the first filled value, or missing. |
| DataTransform.SanitizeListInput | application/utils/data_transform.py:44-48 | [] for a missing or empty input; otherwise exactly the non-`None` items. |
| DataTransform.SanitizeConcat | application/utils/data_transform.py:48 | Sanitising works item by item and keeps order: the result for a + b is that for a followed by that for b. |
| DataTransform.SanitizeKeepsSelection | application/utils/data_transform.py:44-48 | A selection without `None` comes back exactly as it was. |
| DataTransform.SanitizeCostBounds | application/utils/data_transform.py:50-54 | The bounds are swapped only when both are given and min > max; afterwards min <= max whenever both are present. |
| DataTransform.SanitizeCostBoundsIdempotent | application/utils/data_transform.py:50-54 | Sanitising sanitised bounds changes nothing. |
| DataTransform.PreprocessHotels | application/utils/data_transform.py:82-88 | A hotel stays iff its LowestPrice is present and above 0. |
| DataTransform.PreprocessHotelsIdempotent | application/utils/data_transform.py:82-88 | Preprocessing twice is preprocessing once. |
| DataTransform.FilterByCostAndTypes | application/utils/data_transform.py:103-123 | A hotel stays iff min <= LowestPrice <= max, with an absent bound unbounded and a missing price failing, and, when types are chosen, its class is among them. |
| DataTransform.BoundMasks | application/utils/data_transform.py:93-98 | The commented-out earlier version's bound masks, one per given bound: a hotel stays iff its price is present and at least the minimum, when one is given, and at most the maximum, when one is given. |
| DataTransform.BoundMasksArePriceTest | application/utils/data_transform.py:93-112 | When every price is present, the commented-out per-bound masks select exactly what the live combined range test selects, order included. |
| DataTransform.FilterByCostAndTypesSequential | application/utils/data_transform.py:93-101 | The commented-out earlier filter: a hotel stays iff it passes each given bound's mask and, when types are chosen, its class is among them. |
| DataTransform.FilterByCostAndTypesAgrees | application/utils/data_transform.py:93-123 | On preprocessed hotels the live single-mask filter and the commented-out mask-by-mask filter agree row for row, order included. |
| DataTransform.AlertRank | application/utils/data_transform.py:126-132 | The rank of the stripped colour name when it is listed, else the default (3 unless given), NaN included. |
| DataTransform.AlertRankIgnoresPadding | application/utils/data_transform.py:132 | Whitespace around a colour name does not change its rank. |
| DataTransform.AlertColourRanks | application/utils/data_transform.py:132 | 灰色, 黃色 and 橙色 rank 2, 3 and 4 whatever the default. |
| DataTransform.ColourRank | application/utils/data_transform.py:132 | A listed colour without padding ranks as the table lists it. |
| DataTransform.AlertFiltered | application/utils/data_transform.py:34-37 | With a threshold a row stays iff its alert rank is at most the threshold's rank; without one all rows stay. |
| DataTransform.FilterByAlertAndVisa | application/utils/data_transform.py:32-42 | A row stays iff it passes the alert test and, when "exempt" is chosen and the visa column exists, `is_exempt`. |
| DataTransform.AlertThresholdMonotone | application/utils/data_transform.py:34-37 | A stricter threshold keeps a subset: its result is the looser result filtered again, order kept. |
| DataTransform.NonBlankUnique | application/utils/data_transform.py:135 | The list holds exactly the present non-blank values. |
| DataTransform.FirstFilledPresent | application/utils/data_transform.py:135 | The present non-blank values, read in order, begin with the first filled value. |
| DataTransform.FirstNonBlankUnique | application/utils/data_transform.py:135-137 | The first unique non-blank value is the first filled value. |
| DataTransform.DefaultGeo | application/utils/data_transform.py:134-137 | `_first_geo` is the first filled City, else the first filled Town, else missing; a present result is non-blank and occurs in one of the columns. |
| DataTransform.EventDashboardDefaults | application/utils/data_transform.py:134-147 | Both event charts start at the default geography; the pie starts on EventCategoryNames. |
| DataTransform.AttractionDashboardDefaults | application/utils/data_transform.py:149-162 | The attraction map starts on all places, coloured by PrimaryCategory. |
| DataTransform.HotelDashboardDefaults | application/utils/data_transform.py:164-172 | The hotel box plot starts at the default geography, by HotelClassName. |
| DataTransform.RestaurantDashboardDefaults | application/utils/data_transform.py:174-182 | The restaurant pie starts at the default geography, on CuisineNames. |
| DataTransform.NoGeoWithoutPlaces | application/utils/data_transform.py:137 | Without a filled City or Town there is no default geography. |
| DataTransform.Pieces | application/utils/data_transform.py:191-196 | The exploded values are exactly the stripped pieces of the cells, and each is already stripped. |
| DataTransform.GetExplodedCategories | application/utils/data_transform.py:184-198 | [] for an absent column; otherwise strictly sorted, with no duplicates, holding exactly the stripped pieces of present cells. |
| DataTransform.ExplodedFromCell | application/utils/data_transform.py:191-198 | Every option comes from some present cell. |
| DataTransform.ExplodedIncludesCell | application/utils/data_transform.py:191-198 | Every stripped piece of a present cell is an option. |
| DataTransform.PaddedNameStrips | application/utils/data_transform.py:196 | A clean name behind whitespace strips to itself. |
| DataTransform.SplitJoinedHead | application/utils/data_transform.py:192 | Splitting ", "-joined clean names at "," cuts the first name off at the first comma. |
| DataTransform.StripSplitJoin | application/utils/data_transform.py:192-196 | Splitting ", "-joined clean names at "," and stripping gives back the names. |
| DataTransform.CellPieces | application/utils/data_transform.py:191-196 | A cell rendered from codes explodes into its codes' names, in order. |
| DataTransform.RenderedCells | application/utils/data_clean.py:639-642 | One cell per code list, each rendered by `_convert_codes_to_names`. |
| DataTransform.ExplodedNameIsCodeName | application/__init__.py:258-260 | Over cells rendered from a clean table, every option names a code that occurs. |
| DataTransform.CodeNameIsExploded | application/__init__.py:258-260 | Over cells rendered from a clean table, every occurring code's name is an option. |
| DataTransform.ExplodedCodeNames | application/__init__.py:258-260 | The event and cuisine options are exactly the names of the codes that occur. |
| DataTransform.Texts | application/utils/data_transform.py:270-271 | The kept choices are exactly the string choices. |
| DataTransform.LimitedCountries | application/utils/data_transform.py:259-281 | At most 5 countries, no repeats; none when either selection is missing or empty; each is a chosen string the table has; fewer than 5 only when no other qualifying country exists. With both selections given, the result is a prefix of the qualifying choices in first-occurrence order: their first five, or all of them. |
| DataTransform.RecordsOf | application/utils/data_transform.py:289 | The records are exactly those with that destination. |
| DataTransform.FirstPresent | application/utils/data_transform.py:296-305 | Present iff some value is present, and then it is the value of the first cell that holds one. |
| DataTransform.CompareRowFor | application/utils/data_transform.py:293-316 | Each of the safety, cpi, pce and travelers keys is present iff that metric is selected. A selected index holds the first present value of its column, or NaN when there is none. "travelers" counts the country's records. |
| DataTransform.CompareRows | application/utils/data_transform.py:287-318 | At most one row per country. |
| DataTransform.CompareRowsCover | application/utils/data_transform.py:283-291 | Every limited country has records, so there is exactly one row per country, in order. |
| DataTransform.AvailableHasRecords | application/utils/data_transform.py:277-289 | A destination the table lists has at least one record. |
| DataTransform.DedupCountries | application/utils/data_transform.py:267-275 | The loop yields the string choices, first occurrences only, in order. |
| DataTransform.BuildCompareRows | application/utils/data_transform.py:287-318 | The row loop yields the specified comparison rows. |
| DataTransform.PrepareCountryCompare | application/utils/data_transform.py:259-321 | Returns the limited countries and one row per limited country with records. |
| DataTransform.FreeFilled | application/utils/data_transform.py:70 | The free flag becomes present; a present flag is kept and a missing one becomes False. |
| DataTransform.FreeFilledIdempotent | application/utils/data_transform.py:70 | Filling an already filled row changes nothing. |
| DataTransform.PreprocessAttractions | application/utils/data_transform.py:68-71 | With the column present, every row's flag is filled in place; without it the frame is unchanged. |
| ImageSearch.ResultsOf | application/utils/image_search.py:31-36 | One result per index entry, in iteration order, each carrying its key and its score. |
| ImageSearch.BuildResults | application/utils/image_search.py:31-36 | The append loop builds exactly that result list. |
| ImageSearch.ResultIndicesDistinct | application/utils/image_search.py:32-36 | Distinct dictionary keys give results with distinct indices. |
| ImageSearch.SortedByScorePermutes | application/utils/image_search.py:39 | The sort only reorders: the same results, each as often. |
| ImageSearch.InsertAfterPermutes | application/utils/image_search.py:39 | One insertion step adds exactly the inserted result. |
| ImageSearch.InsertAfterNonIncreasing | application/utils/image_search.py:39 | Inserting into a non-increasing list keeps it non-increasing. |
| ImageSearch.SortedByScoreNonIncreasing | application/utils/image_search.py:39 | The sorted results have non-increasing scores. |
| ImageSearch.WithScoreMembers | application/utils/image_search.py:39 | The results of one score are exactly the results carrying that score. |
| ImageSearch.InsertAfterStable | application/utils/image_search.py:39 | An insertion step keeps each score's results in their input order. |
| ImageSearch.SortedByScoreStable | application/utils/image_search.py:39 | Stability: results with equal scores keep their index order. |
| ImageSearch.InsertAfterAt | application/utils/image_search.py:39 | The step puts the result right after the last entry scoring at least as high. |
| ImageSearch.ShiftLower | application/utils/image_search.py:39 | The inner loop moves the lower-scoring entries one place right and leaves the gap after the last higher-or-equal entry. |
| ImageSearch.InsertAt | application/utils/image_search.py:39 | One outer pass turns the array's prefix into the specified insertion and leaves the rest unchanged. |
| ImageSearch.SortByScore | application/utils/image_search.py:39 | The in-place sort leaves the array equal to the specified stable descending sort. |
| ImageSearch.SearchSimilarImages | application/utils/image_search.py:18-40 | Returns the sorted results cut with `[:top_k]`, where top_k defaults to 15. |
| ImageSearch.TopMatchesCount | application/utils/image_search.py:18-40 | A non-negative top_k returns min(top_k, index size) results, each from the index. |
| ImageSearch.TopMatchesBest | application/utils/image_search.py:39-40 | The returned results are ordered, and no left-out result scores higher than a returned one. |
| ImageSearch.TopMatchesStable | application/utils/image_search.py:39-40 | Ties among the returned results are the first of that score in index order. |
| IndexBuilder.LowerChar | generate_index.py:30 | Upper-case ASCII letters map to lower case; every other character is unchanged. |
| IndexBuilder.Lower | generate_index.py:30 | `lower()` maps every character, keeping the length. |
| IndexBuilder.EndsWithAny | generate_index.py:27-30 | `endswith(tuple)` holds iff one of the suffixes ends the name. |
| IndexBuilder.LastDot | generate_index.py:38 | The index of a '.' with no later '.', or none when the name has no dot. |
| IndexBuilder.Stem | generate_index.py:36-38 | `splitext(f)[0]` is a prefix of the name; it is the whole name iff there is no dot or only dots lead up to the last one; otherwise the name continues with the last dot. |
| IndexBuilder.StemExamples | generate_index.py:36-38 | "101.jpg" and "101.png" give "101", "a.b.webp" gives "a.b", and ".jpg" keeps its name. |
| IndexBuilder.UpperCaseImageFile | generate_index.py:30 | "A.JPG" passes the case-insensitive filter. |
| IndexBuilder.ListedExtensionImageFile | generate_index.py:27-30 | A lower-case name ending in a listed extension passes. |
| IndexBuilder.OtherFilesSkipped | generate_index.py:27-30 | "notes.txt" and "jpg" do not pass. |
| IndexBuilder.GenerateNpyIndex | generate_index.py:23-54 | The loop builds the specified index, and every key occurs once. |
| IndexBuilder.InsertionsConcat | generate_index.py:34-54 | Going over a then b is going over a + b. |
| IndexBuilder.InsertionsKeys | generate_index.py:34-54 | A key is in the dictionary iff it was there before or is the ID of a file whose extraction succeeded. |
| IndexBuilder.FeatureIndexKeys | generate_index.py:30-54 | The index's keys are exactly the IDs of the image files whose extraction succeeded. |
| IndexBuilder.FailedFileSkipped | generate_index.py:53-54 | A file whose processing fails leaves the index as if it were absent. |
| IndexBuilder.LaterFileWins | generate_index.py:51 | An ID reads the features of the last successful file that carries it. |
| IndexBuilder.SharedIdListing | generate_index.py:30 | "101.jpg" and "101.png" both pass the filter. |
| IndexBuilder.SharedIdExample | generate_index.py:36-51 | "101.jpg" then "101.png" leave one entry, "101", holding the PNG's features. |
| OrderedDict.Get | generate_index.py:51 | Missing iff the key is absent; otherwise the stored value. |
| OrderedDict.Set | generate_index.py:51 | Assigning an existing key keeps the dict's length; a new key adds one entry. |
| OrderedDict.SetPlace | generate_index.py:51 | An existing key keeps its place, so the key order is unchanged; a new key is appended at the end; every entry of another key stays where it was. |
| OrderedDict.SetGet | generate_index.py:51 | After `d[k] = v` the key reads v, other keys read as before, and the key set grows by k only. |
| OrderedDict.SetValid | generate_index.py:51 | Assignment keeps every key unique. |
| Seqs.Filter | application/__init__.py:451 | `df[mask]` keeps exactly the rows the mask accepts, in order. |
| Seqs.FilterConcat | application/__init__.py:451 | Filtering works row by row over a concatenation. |
| Seqs.FilterFilter | application/utils/data_transform.py:111-121 | Two masks applied in turn select what their conjunction selects. |
| Seqs.FilterAll | application/__init__.py:456 | A mask every row passes keeps the frame unchanged. |
| Seqs.Present | application/utils/data_transform.py:191 | `dropna()` keeps exactly the present values, in order. |
| Seqs.PresentHead | application/utils/data_transform.py:296-297 | The first value `dropna()` keeps is the value of the first cell that holds one. |
| Seqs.Head | application/__init__.py:464 | `head(n)` is the first min(n, length) rows. |
| Seqs.SliceTo | application/utils/image_search.py:40 | `s[:k]` is a prefix, of length min(k, length) for k >= 0 and counted from the end for k < 0. |
| Seqs.Distinct | application/utils/data_transform.py:267-275 | Each value once, no repeats, nothing else. |
| Seqs.FilterDistinct | application/utils/data_transform.py:267-278 | De-duplicating then filtering equals filtering then de-duplicating. |
| Seqs.DistinctFirst | application/utils/data_transform.py:135-137 | De-duplicating keeps the first value first. |
| Seqs.SortedDistinct | application/utils/data_transform.py:198 | `sorted(set(xs))` is strictly increasing and holds exactly the values of xs. |
| Seqs.SortedListsAgree | application/utils/data_transform.py:198 | A strictly increasing list is fixed by its values. |
| Seqs.LessTransitive | application/utils/data_transform.py:198 | Python's string order is transitive. |
| Seqs.LessTotal | application/utils/data_transform.py:198 | Python's string order is total on distinct strings. |
| Seqs.CountOf | application/utils/visualization.py:288 | A label's count is at most the length, and zero iff the label does not occur. |
| Seqs.TotalOverAll | application/utils/visualization.py:288 | When every value is a label, the labels' counts add up to the number of values. |
| Strings.LStrip | application/utils/data_transform.py:132 | Drops exactly the leading whitespace. |
| Strings.RStrip | application/utils/data_transform.py:132 | Drops exactly the trailing whitespace. |
| Strings.Strip | application/utils/data_transform.py:132 | Empty iff all whitespace; otherwise neither end is whitespace. |
| Strings.StripPadded | application/utils/data_transform.py:132 | Whitespace around a value never changes its strip. |
| Strings.StripIdempotent | application/utils/data_transform.py:196 | Stripping twice is stripping once. |
| Strings.StripAll | application/utils/data_transform.py:196 | `.str.strip()` strips every piece. |
| Strings.JoinConcat | application/utils/data_clean.py:597 | Joining a + b is a's text, one separator, then b's text. |
| Strings.JoinLacks | application/utils/data_clean.py:124-139 | Pieces and separator without a character give a joined text without it. |
| Strings.JoinSplit | application/utils/visualization.py:258 | Joining the pieces of a split with its separator gives the text back. |
| Strings.SplitPiecesFree | application/utils/visualization.py:258 | No piece of a split contains the separator. |
| Strings.SplitJoin | application/utils/data_clean.py:563 | For a separator that cannot overlap itself and pieces free of it, split undoes join. |
| Strings.NatToString | application/utils/data_clean.py:591 | `str(n)` is a non-empty digit string with no leading zero. |
| Strings.NatToStringValue | application/utils/data_clean.py:591 | The digits of `str(n)` denote n. |
| Visualization.GeoFilter | application/utils/visualization.py:169-172 | An event stays iff its City or its Town equals the selection; a missing cell never does. |
| Visualization.NamedPlaceHasEvents | application/utils/visualization.py:169-177 | A place that some event names as its City or Town has events. |
| Visualization.DefaultGeoHasEvents | application/utils/data_transform.py:134-140 | The event page's default geography always has events. |
| Visualization.CountedMonths | application/utils/visualization.py:181-184 | The counted months are months 1 to 12, at most one per event. |
| Visualization.MonthlyCounts | application/utils/visualization.py:184-190 | Twelve buckets, January to December; each holds its month's count and is 0 iff no event falls in it. |
| Visualization.MonthlyCountsTotal | application/utils/visualization.py:184-194 | The twelve buckets together hold every counted event once. |
| Visualization.GenerateBar | application/utils/visualization.py:162-190 | No selection gives the prompt, a place without events gives "no data", otherwise the month counts of the place's events. |
| Visualization.FirstPrefix | application/utils/visualization.py:277-279 | The result is a candidate the name starts with; there is none iff no candidate is a prefix. |
| Visualization.FirstPrefixIsFirst | application/utils/visualization.py:277-279 | The chosen candidate is the first prefix in list order. |
| Visualization.PrimaryOf | application/utils/visualization.py:262-282 | The result is 其他 or a listed primary; "" and "nan" give 其他; a primary result is a prefix of the name; 其他 iff no primary is a prefix. |
| Visualization.MapToPrimaryCategory | application/utils/visualization.py:262-282 | The search loop with early return computes that grouping. |
| Visualization.OtherEventLabelIsOther | application/utils/visualization.py:273-282 | 其他活動 (event code 9) lands in 其他, because 其他活動（Other） is not its prefix. |
| Visualization.FestivalLabelsGroup | application/utils/visualization.py:267-279 | Festival sub-categories (codes 101-110) group under 節慶活動. |
| Visualization.ArtsLabelsGroup1 | application/utils/visualization.py:267-279 | Arts sub-categories 201-208 group under 藝文活動. |
| Visualization.ArtsLabelsGroup2 | application/utils/visualization.py:267-279 | Arts sub-categories 209-215 group under 藝文活動. |
| Visualization.CategoryPieces | application/utils/visualization.py:254-259 | At least one piece per cell, every piece stripped. |
| Visualization.MissingCellIsOther | application/utils/visualization.py:258-265 | A missing cell becomes the single piece "nan", which groups under 其他. |
| Visualization.MapPrimary | application/utils/visualization.py:285 | One primary per piece, each a pie label. |
| Visualization.SliceCounts | application/utils/visualization.py:288 | One count per pie label, each the label's number of occurrences. |
| Visualization.GeneratePie | application/utils/visualization.py:224-288 | No selection gives the prompt, a place without events gives "no data", otherwise the slice counts of the place's pieces. |
| Visualization.SlicesCoverPieces | application/utils/visualization.py:285-288 | Every piece lands in exactly one slice: the slices add up to the number of pieces. |
| Visualization.RenderedCellPieces | application/utils/visualization.py:258-259 | A cell rendered from event codes splits into exactly the codes' names, in order. |
| Visualization.CleanCellPieces | application/utils/visualization.py:258-259 | Over any clean table, a rendered cell splits back into its codes' names. |
| Visualization.CleanNamesStrip | application/utils/visualization.py:259 | Names from a clean table are already stripped. |

## Left out

- I/O is outside the model: JSON loading, `np.save`/`np.load`, `os.listdir` and printing. Listings and parsed records are parameters.
- The loaders' frame merges and the other derived columns are not modelled: the left joins on AttractionID, datetime coercion, `DurationDays`, `to_numeric` of coordinates and `ServiceList`. Rows carry the already-parsed values.
- `preprocess_event_df` is left out, because its date and status coercion has no effect on the rules modelled.
- ResNet-50 feature extraction, image preprocessing, L2 normalisation and dot products are floating-point library calls. Features are opaque and the similarity is a function parameter.
- NaN scores are left out, because `list.sort` on NaN keys has no consistent order. Scores are reals.
- Floating-point scoring is left out: `compute_scores`, `normalize_weights`, `adjust_costs_with_cpi`, radar scaling and the bar chart's percentages.
- `is_exempt` comes from a module that is not shown, so it is an opaque predicate parameter.
- DataTransform.CompareRowFor: the "Avg Accommodation Cost" and "Avg Transportation Cost" means are left out, because they are floating-point averages. The safety, CPI, PCE and travelers keys are modelled.
- DataTransform.PrepareCountryCompare: the `df_compare.empty` early return (data_transform.py:284-285) is not a separate branch. It cannot be taken, because every limited country is available and so has records.
- `pick_country_level`'s grouping and `dropna(subset=...)` are left out. Only its `first_nonnull` is modelled.
- Strings.IsDigits: `str.isdigit` is modelled on ASCII digits only, because Python also accepts other Unicode digits, which no price uses.
- IndexBuilder.Lower: `str.lower` is modelled on ASCII letters only, because the extensions compared are ASCII.
- Strings.Split: requires a non-empty separator. Python raises ValueError for an empty one, and every caller passes "," or ", ".
- DataTransform.GetExplodedCategories: requires a non-empty separator, for the same reason as Strings.Split.
- Column absence is modelled only where a rule tests for it: the restaurant city and cuisine columns, the display columns, IsAccessibleForFree, the visa column, and each table's Lat column in the POI map. Elsewhere the columns a rule reads are assumed present.
- DataTransform.CompareRowFor: the `'Safety Index'`, `'CPI'` and `'PCE' in country_data.columns` guards (data_transform.py:295-303) are not modelled. The comparison table is assumed to have these three columns, so a selected index metric always gets its key.
- Dashboard.UpdatePoiMap: a frame with a Lat column but no Lon column would raise KeyError in `dropna(subset=[LAT, LON])`. The model assumes Lon exists whenever Lat does.
- Dashboard.PlanHotels: `types` reaches `isin` without sanitising, so a `None` item is not modelled. Selected types are strings.
- Dashboard.PlanHotels: the second output, the always-empty selected-country list, is not part of the result.
- Dashboard.RestaurantMatches: the city column's name is abstracted. The restaurant's city field stands for whichever of 'PostalAddress.City' and 'City' the frame has.
- Visualization.SliceCounts: counts are given in the fixed label order. `value_counts` orders by count and omits zero-count labels; the plotted slices are the same.
- Visualization.GeneratePie: the counted column is the category column. `dropdown_value_2` is only tested for being non-empty, which is how the dashboard always calls it.
- Visualization.MonthlyCounts: months are numbers 1 to 12 rather than "%m - %b" labels. An event counts only when it has an EventID and a parsed start month, as `groupby(...).count()` does.
- DataClean.SummarizeFees: a JSON `null` is not told apart from an absent key. In the source, `item.get(name_key, '項目')` returns None for a null name, which renders "None: …". The model renders the default name "項目". The same holds for DataClean.SummarizeServiceTimes and DataClean.SummarizeOpeningHours: a null name renders "None" in the source, and a null StartTime or EndTime renders "None". The model renders the absent-key default ("項目", "N/A" or "") instead.
- DataClean.SummarizeServiceTimes: a null `ServiceDays` makes `", ".join(None)` raise TypeError in the source. Days are a list in the model, so that failure is not expressed. The same holds for DataClean.SummarizeOpeningHours, where a null day list makes `len(None)` raise TypeError.
- DataClean.PriceLabel: `int(float(value))` goes through a double in the source, so a price above 2^53 is rounded: "9007199254740993" renders "$9007199254740992". The model keeps the exact amount.
- The legacy country-data code is left out, because nothing calls it: `travel_data_clean`, `countryinfo_data_clean` and `data_merge`.
- The constant mapping tables are left out, because no shown code reads them: restaurant_mapping.py, accommodation_mapping.py and attraction_mapping.py.
- download_and_index.py and build_image_index.py are not part of this model. They are a network download script and a script importing functions that do not exist.
- UI, layout, plotting styles, the Flask app, routes and ORM models are presentation and framework code.

## Findings

| source | as written | input that shows it | evidently intended | confidence | as-written member | corrected member |
|---|---|---|---|---|---|---|
| application/utils/data_clean.py:453-455, 634-636 | The hotel and restaurant loaders read `x[0]['Tel']` without checking that the key exists | `Telephones = [{}, {"Tel": "02-1234"}]`: a first entry without a `Tel` key raises KeyError and aborts the whole loader (a `null` `Tel` does not) | Missing when the first entry has no `Tel`, as `_get_main_telephone` (data_clean.py:257-261) and the neighbouring URL lambdas (460, 629) check | medium, not executed | DataClean.MainTelephoneAsWritten (with DataClean.TelephoneWithoutTel) | DataClean.MainTelephone |
