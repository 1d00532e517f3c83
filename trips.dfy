/**
  The data model: one trip record per row of a city's table, after the
  derived `month`, `day_of_week` and `hour` columns have been added, and the
  fixed choices the program offers.
 */
module Trips {

  datatype Option<+T> = None | Some(value: T)

  datatype Result<+T, +E> = Ok(value: T) | Err(error: E)

  /**
    One row. `month`, `dayOfWeek` and `hour` are derived from the start time
    (a month number, a day name such as "Monday", an hour of the day).
    Times are in seconds. `gender` and `birthYear` are None where the cell is
    missing, and for every row of the Washington table, which has no such columns.
   */
  datatype Trip = Trip(
    month: int,
    dayOfWeek: string,
    hour: int,
    startTime: int,
    endTime: int,
    startStation: string,
    endStation: string,
    userType: string,
    gender: Option<string>,
    birthYear: Option<int>)

  /** The city registry: each selectable city and the file its table is read from. */
  const CityData: map<string, string> :=
    map["chicago" := "chicago.csv",
        "new york city" := "new_york_city.csv",
        "washington" := "washington.csv"]

  /** The keys of the registry, in the order the registry lists them. */
  const Cities: seq<string> := ["chicago", "new york city", "washington"]

  /** The months whose names map to a month number, January first. */
  const MonthNames: seq<string> := ["january", "february", "march", "april", "may", "june"]

  /** The answers accepted for the month prompt. */
  const MonthChoices: seq<string> := MonthNames + ["all"]

  /** The answers accepted for the day prompt. */
  const DayChoices: seq<string> :=
    ["monday", "tuesday", "wednesday", "thursday", "friday", "saturday", "sunday", "all"]

  /** The day names as the derived `day_of_week` column holds them, Monday first. */
  const DayNames: seq<string> :=
    ["Monday", "Tuesday", "Wednesday", "Thursday", "Friday", "Saturday", "Sunday"]

  /** The one city whose table has no gender and birth-year columns. */
  const Washington: string := "washington"

  /** The answer that disables a month or a day filter. */
  const All: string := "all"

  /** The city list is exactly the set of keys of the city registry. */
  lemma CitiesAreRegistryKeys(city: string)
    ensures city in Cities <==> city in CityData
  {
  }
}
