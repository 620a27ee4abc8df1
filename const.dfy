/**
 * application/utils/const.py: the travel-alert rank table and the headline
 * counts (`nunique` of a column) shown on each dashboard page.
 */
module Const {
  import opened Optional
  import opened Seqs
  import opened Records

  /** Travel-alert colours by rank; a smaller rank is safer. */
  const AlertRankMap: map<string, int> := map["灰色" := 2, "黃色" := 3, "橙色" := 4]

  /** Grey is safer than yellow, yellow safer than orange, and no other colour has a rank. */
  lemma AlertRanksOrdered()
    ensures AlertRankMap.Keys == {"灰色", "黃色", "橙色"}
    ensures AlertRankMap["灰色"] < AlertRankMap["黃色"] < AlertRankMap["橙色"]
  {
  }

  /** The distinct present values of a column. */
  ghost function ValueSet<T>(column: seq<Option<T>>): set<T> {
    set i | 0 <= i < |column| && column[i].Some? :: column[i].value
  }

  /** `Series.nunique()`: the number of distinct present values; missing cells are not counted. */
  function DistinctCount<T(==,!new)>(column: seq<Option<T>>): (r: nat)
    ensures r == |ValueSet(column)|
    ensures r <= |column|
    ensures r == 0 <==> forall i | 0 <= i < |column| :: column[i].None?
  {
    var d := Distinct(Present(column));
    NoDuplicatesCard(d);
    assert Elements(d) == ValueSet(column) by {
      forall x ensures x in Elements(d) <==> x in ValueSet(column) {
        if x in Elements(d) {
          assert x in d;
        }
        if x in ValueSet(column) {
          var i :| 0 <= i < |column| && column[i].Some? && column[i].value == x;
          assert Some(x) in column;
          var k :| 0 <= k < |d| && d[k] == x;
        }
      }
    }
    assert d == [] ==> forall i | 0 <= i < |column| :: column[i].None? by {
      forall i | 0 <= i < |column| && column[i].Some? ensures d != [] {
        assert column[i].value in ValueSet(column);
      }
    }
    |d|
  }

  /** Inserting a copy of row `j` at position `k` leaves the count as it was. */
  lemma DuplicateRowKeepsCount<T(!new)>(column: seq<Option<T>>, j: nat, k: nat)
    requires j < |column| && k <= |column|
    ensures DistinctCount(column[..k] + [column[j]] + column[k..]) == DistinctCount(column)
  {
    var c := column[..k] + [column[j]] + column[k..];
    assert ValueSet(c) == ValueSet(column) by {
      forall x ensures x in ValueSet(c) <==> x in ValueSet(column) {
        if x in ValueSet(c) {
          var i :| 0 <= i < |c| && c[i].Some? && c[i].value == x;
          if i < k { assert c[i] == column[i]; }
          else if i == k { assert c[i] == column[j]; }
          else { assert c[i] == column[i - 1]; }
        }
        if x in ValueSet(column) {
          var i :| 0 <= i < |column| && column[i].Some? && column[i].value == x;
          if i < k { assert c[i] == column[i]; } else { assert c[i + 1] == column[i]; }
        }
      }
    }
  }

  /** A row copied into position `k` adds one copy of its field to the column. */
  lemma ColumnOfDuplicate<R, T>(rows: seq<R>, field: R -> T, j: nat, k: nat)
    requires j < |rows| && k <= |rows|
    ensures Column(rows[..k] + [rows[j]] + rows[k..], field)
         == Column(rows, field)[..k] + [Column(rows, field)[j]] + Column(rows, field)[k..]
  {
  }

  /** `get_constants`: the numbers of distinct cities, towns and attraction IDs. */
  function GetConstants(attractions: seq<Attraction>): (r: (nat, nat, nat))
    ensures r.0 == |ValueSet(Column(attractions, (a: Attraction) => a.city))|
    ensures r.1 == |ValueSet(Column(attractions, (a: Attraction) => a.town))|
    ensures r.2 == |ValueSet(Column(attractions, (a: Attraction) => a.id))|
    ensures r.0 <= |attractions| && r.1 <= |attractions| && r.2 <= |attractions|
  {
    (DistinctCount(Column(attractions, (a: Attraction) => a.city)),
     DistinctCount(Column(attractions, (a: Attraction) => a.town)),
     DistinctCount(Column(attractions, (a: Attraction) => a.id)))
  }

  /** `get_constants_event`: the number of distinct event IDs. */
  function GetConstantsEvent(events: seq<Event>): (r: nat)
    ensures r == |ValueSet(Column(events, (e: Event) => e.id))|
    ensures r <= |events|
  {
    DistinctCount(Column(events, (e: Event) => e.id))
  }

  /** `get_constants_hotel`: the number of distinct hotel IDs. */
  function GetConstantsHotel(hotels: seq<Hotel>): (r: nat)
    ensures r == |ValueSet(Column(hotels, (h: Hotel) => h.id))|
    ensures r <= |hotels|
  {
    DistinctCount(Column(hotels, (h: Hotel) => h.id))
  }

  /** `get_constants_restaurant`: the number of distinct restaurant IDs. */
  function GetConstantsRestaurant(restaurants: seq<Restaurant>): (r: nat)
    ensures r == |ValueSet(Column(restaurants, (x: Restaurant) => x.id))|
    ensures r <= |restaurants|
  {
    DistinctCount(Column(restaurants, (x: Restaurant) => x.id))
  }

  /** Listing an attraction twice changes none of the three headline counts. */
  lemma ConstantsIgnoreDuplicateRows(attractions: seq<Attraction>, j: nat, k: nat)
    requires j < |attractions| && k <= |attractions|
    ensures GetConstants(attractions[..k] + [attractions[j]] + attractions[k..]) == GetConstants(attractions)
  {
    var city := (a: Attraction) => a.city;
    var town := (a: Attraction) => a.town;
    var id := (a: Attraction) => a.id;
    ColumnOfDuplicate(attractions, city, j, k);
    ColumnOfDuplicate(attractions, town, j, k);
    ColumnOfDuplicate(attractions, id, j, k);
    DuplicateRowKeepsCount(Column(attractions, city), j, k);
    DuplicateRowKeepsCount(Column(attractions, town), j, k);
    DuplicateRowKeepsCount(Column(attractions, id), j, k);
  }

  /** Listing an event twice leaves the event count unchanged. */
  lemma EventCountIgnoresDuplicateRows(events: seq<Event>, j: nat, k: nat)
    requires j < |events| && k <= |events|
    ensures GetConstantsEvent(events[..k] + [events[j]] + events[k..]) == GetConstantsEvent(events)
  {
    var id := (x: Event) => x.id;
    ColumnOfDuplicate(events, id, j, k);
    DuplicateRowKeepsCount(Column(events, id), j, k);
  }

  /** Listing a hotel twice leaves the hotel count unchanged. */
  lemma HotelCountIgnoresDuplicateRows(hotels: seq<Hotel>, j: nat, k: nat)
    requires j < |hotels| && k <= |hotels|
    ensures GetConstantsHotel(hotels[..k] + [hotels[j]] + hotels[k..]) == GetConstantsHotel(hotels)
  {
    var id := (x: Hotel) => x.id;
    ColumnOfDuplicate(hotels, id, j, k);
    DuplicateRowKeepsCount(Column(hotels, id), j, k);
  }

  /** Listing a restaurant twice leaves the restaurant count unchanged. */
  lemma RestaurantCountIgnoresDuplicateRows(restaurants: seq<Restaurant>, j: nat, k: nat)
    requires j < |restaurants| && k <= |restaurants|
    ensures GetConstantsRestaurant(restaurants[..k] + [restaurants[j]] + restaurants[k..]) == GetConstantsRestaurant(restaurants)
  {
    var id := (x: Restaurant) => x.id;
    ColumnOfDuplicate(restaurants, id, j, k);
    DuplicateRowKeepsCount(Column(restaurants, id), j, k);
  }
}
