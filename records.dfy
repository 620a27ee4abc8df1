/**
 * Rows of the four tables the loaders in application/utils/data_clean.py
 * build (attractions, events, hotels, restaurants), restricted to the columns
 * the dashboard's rules read. A cell pandas holds as NaN/None is `None`.
 */
module Records {
  import opened Optional

  /** A calendar month, 1 = January. */
  type Month = m: int | 1 <= m <= 12 witness 1

  datatype Attraction = Attraction(
    id: Option<string>,
    name: Option<string>,
    city: Option<string>,
    town: Option<string>,
    lat: Option<real>,
    lon: Option<real>,
    primaryCategory: Option<string>,
    category: Option<string>,
    serviceTimesSummary: Option<string>,
    isFree: Option<bool>,
    feeInfo: Option<string>,
    trafficInfo: Option<string>,
    parkingInfo: Option<string>)

  /** `startMonth` is the month of StartDateTime, `None` when the date did not parse. */
  datatype Event = Event(
    id: Option<string>,
    name: Option<string>,
    city: Option<string>,
    town: Option<string>,
    lat: Option<real>,
    lon: Option<real>,
    categoryNames: Option<string>,
    startMonth: Option<Month>)

  datatype Hotel = Hotel(
    id: Option<string>,
    name: Option<string>,
    city: Option<string>,
    town: Option<string>,
    lat: Option<real>,
    lon: Option<real>,
    lowestPrice: Option<real>,
    className: Option<string>,
    stars: Option<int>)

  datatype Restaurant = Restaurant(
    id: Option<string>,
    name: Option<string>,
    city: Option<string>,
    town: Option<string>,
    lat: Option<real>,
    lon: Option<real>,
    cuisineNames: Option<string>,
    serviceStatus: Option<string>)
}
