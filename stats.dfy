/**
  The four statistics reporters (`time_stats`, `station_stats`,
  `trip_duration_stats`, `user_stats`) as functions from the loaded rows to
  the values they print. A most-common value is any value of the column with
  the largest count; aggregates over gender and birth year skip missing cells.
 */
module Stats {
  import opened Trips
  import opened Sequences
  import opened Loader

  /** A column of the table: one value per row, in row order. */
  function Column<U>(rows: seq<Trip>, field: Trip -> U): (c: seq<U>)
    ensures |c| == |rows|
    ensures forall i :: 0 <= i < |rows| ==> c[i] == field(rows[i])
  {
    seq(|rows|, i requires 0 <= i < |rows| => field(rows[i]))
  }

  lemma ColumnSplits<U>(rows: seq<Trip>, field: Trip -> U)
    requires rows != []
    ensures Column(rows, field) == [field(rows[0])] + Column(rows[1..], field)
  {
  }

  /** `x` occurs in `s` and no value occurs more often. */
  ghost predicate IsMode<T(!new)>(s: seq<T>, x: T)
  {
    x in s && forall y :: Count(s, y) <= Count(s, x)
  }

  /** The first position in `s[from..]` holding a value of largest count in `s`. */
  function MostFrequentFrom<T(==)>(s: seq<T>, from: nat): (k: nat)
    requires from < |s|
    ensures from <= k < |s|
    ensures forall j :: from <= j < |s| ==> Count(s, s[j]) <= Count(s, s[k])
    ensures forall j :: from <= j < k ==> Count(s, s[j]) < Count(s, s[k])
    decreases |s| - from
  {
    if from == |s| - 1 then from
    else
      var best := MostFrequentFrom(s, from + 1);
      if Count(s, s[from]) >= Count(s, s[best]) then from else best
  }

  /**
    `column.mode()[0]`: a most common value of the column. On an empty column
    `bikeshare.py`'s `[0]` fails; the model answers None.
   */
  function Mode<T(==,!new)>(s: seq<T>): (r: Option<T>)
    ensures r.None? <==> s == []
    ensures r.Some? ==> IsMode(s, r.value)
  {
    if s == [] then None
    else
      var k := MostFrequentFrom(s, 0);
      assert forall y :: y in s ==> Count(s, y) <= Count(s, s[k]) by {
        forall y | y in s
          ensures Count(s, y) <= Count(s, s[k])
        {
          var j :| 0 <= j < |s| && s[j] == y;
        }
      }
      Some(s[k])
  }

  // ---------------------------------------------------------------- time_stats

  function MonthOf(t: Trip): int { t.month }
  function DayOf(t: Trip): string { t.dayOfWeek }
  function HourOf(t: Trip): int { t.hour }

  datatype TimeReport = TimeReport(commonMonth: int, commonDay: string, commonHour: int)

  /** `time_stats`: the most common month, day of week and start hour. */
  function TimeStats(rows: seq<Trip>): (r: Option<TimeReport>)
    ensures r.None? <==> rows == []
    ensures r.Some? ==>
      && IsMode(Column(rows, MonthOf), r.value.commonMonth)
      && IsMode(Column(rows, DayOf), r.value.commonDay)
      && IsMode(Column(rows, HourOf), r.value.commonHour)
  {
    if rows == [] then None
    else Some(TimeReport(
      Mode(Column(rows, MonthOf)).value,
      Mode(Column(rows, DayOf)).value,
      Mode(Column(rows, HourOf)).value))
  }

  // ------------------------------------------------------------- station_stats

  function StartOf(t: Trip): string { t.startStation }
  function EndOf(t: Trip): string { t.endStation }

  /** The `trip` column: start station, " TO ", end station. */
  function TripKey(t: Trip): string
  {
    t.startStation + " TO " + t.endStation
  }

  /** The key holds the start station, the separator and the end station, in that order. */
  lemma TripKeyParts(t: Trip)
    ensures var key := TripKey(t);
      var n := |t.startStation|;
      && |key| == n + 4 + |t.endStation|
      && key[..n] == t.startStation
      && key[n..n + 4] == " TO "
      && key[n + 4..] == t.endStation
  {
  }

  /** The (start, end) station pair of a row. */
  function StationPair(t: Trip): (string, string) { (t.startStation, t.endStation) }

  datatype StationReport = StationReport(commonStart: string, commonEnd: string, commonTrip: string)

  /** `station_stats`: the most common start station, end station and trip. */
  function StationStats(rows: seq<Trip>): (r: Option<StationReport>)
    ensures r.None? <==> rows == []
    ensures r.Some? ==>
      && IsMode(Column(rows, StartOf), r.value.commonStart)
      && IsMode(Column(rows, EndOf), r.value.commonEnd)
      && IsMode(Column(rows, TripKey), r.value.commonTrip)
  {
    if rows == [] then None
    else Some(StationReport(
      Mode(Column(rows, StartOf)).value,
      Mode(Column(rows, EndOf)).value,
      Mode(Column(rows, TripKey)).value))
  }

  /** Rows with the same station pair have the same trip key, so a key counts at least the rows of its pair. */
  lemma {:induction false} PairCountAtMostKeyCount(rows: seq<Trip>, pair: (string, string))
    ensures Count(Column(rows, StationPair), pair) <= Count(Column(rows, TripKey), pair.0 + " TO " + pair.1)
  {
    if rows != [] {
      ColumnSplits(rows, StationPair);
      ColumnSplits(rows, TripKey);
      assert ([StationPair(rows[0])] + Column(rows[1..], StationPair))[1..] == Column(rows[1..], StationPair);
      assert ([TripKey(rows[0])] + Column(rows[1..], TripKey))[1..] == Column(rows[1..], TripKey);
      PairCountAtMostKeyCount(rows[1..], pair);
    }
  }

  /** The most common trip is taken by at least as many rows as any single (start, end) pair. */
  lemma CommonTripCoversEveryPair(rows: seq<Trip>, pair: (string, string))
    requires rows != []
    ensures Count(Column(rows, StationPair), pair) <= Count(Column(rows, TripKey), StationStats(rows).value.commonTrip)
  {
    PairCountAtMostKeyCount(rows, pair);
  }

  // ------------------------------------------------------- trip_duration_stats

  /** The `Travel Time` column: end time minus start time, in seconds. */
  function TravelTime(t: Trip): int { t.endTime - t.startTime }

  /** The sum of the `Travel Time` column; 0 on no rows. */
  function TotalTravelTime(rows: seq<Trip>): (total: int)
    ensures (forall i :: 0 <= i < |rows| ==> rows[i].startTime <= rows[i].endTime) ==> total >= 0
  {
    if rows == [] then 0 else TravelTime(rows[0]) + TotalTravelTime(rows[1..])
  }

  lemma {:induction false} TotalTravelTimeAppend(a: seq<Trip>, b: seq<Trip>)
    ensures TotalTravelTime(a + b) == TotalTravelTime(a) + TotalTravelTime(b)
  {
    if a == [] {
      assert a + b == b;
    } else {
      assert (a + b)[1..] == a[1..] + b;
      TotalTravelTimeAppend(a[1..], b);
      assert TotalTravelTime(a + b) == TravelTime(a[0]) + TotalTravelTime(a[1..] + b);
    }
  }

  /**
    A filter splits the total: the travel time of the rows a condition keeps
    plus that of the rows it drops is the travel time of all rows.
   */
  lemma {:induction false} TotalTravelTimeSplits(rows: seq<Trip>, keep: Trip -> bool, drop: Trip -> bool)
    requires forall t :: drop(t) == !keep(t)
    ensures TotalTravelTime(rows) == TotalTravelTime(Keep(rows, keep)) + TotalTravelTime(Keep(rows, drop))
  {
    if rows != [] {
      TotalTravelTimeSplits(rows[1..], keep, drop);
      if keep(rows[0]) {
        assert ([rows[0]] + Keep(rows[1..], keep))[1..] == Keep(rows[1..], keep);
      } else {
        assert ([rows[0]] + Keep(rows[1..], drop))[1..] == Keep(rows[1..], drop);
      }
    }
  }

  // ---------------------------------------------------------------- user_stats

  function UserTypeOf(t: Trip): string { t.userType }
  function GenderOf(t: Trip): Option<string> { t.gender }
  function BirthYearOf(t: Trip): Option<int> { t.birthYear }

  /** The values present in a column with missing cells, in order. */
  function Present<T(==,!new)>(s: seq<Option<T>>): (r: seq<T>)
    ensures |r| <= |s|
    ensures forall x :: Count(r, x) == Count(s, Some(x))
  {
    if s == [] then []
    else
      var rest := Present(s[1..]);
      match s[0]
      case None => rest
      case Some(x) =>
        assert forall y :: Count([x] + rest, y) == (if x == y then 1 else 0) + Count(rest, y) by {
          assert ([x] + rest)[1..] == rest;
        }
        [x] + rest
  }

  /** `value_counts()`: each distinct value with the number of times it occurs. */
  function ValueCounts<T(==,!new)>(s: seq<T>): (counts: map<T, nat>)
    ensures forall x :: x in counts <==> x in s
    ensures forall x :: x in counts ==> counts[x] == Count(s, x) && counts[x] > 0
  {
    map x | x in s :: Count(s, x)
  }

  /** `min()`: the smallest value; None on no values (`bikeshare.py` prints NaN). */
  function Least(s: seq<int>): (r: Option<int>)
    ensures r.None? <==> s == []
    ensures r.Some? ==> r.value in s && forall i :: 0 <= i < |s| ==> r.value <= s[i]
  {
    if s == [] then None
    else match Least(s[1..])
      case None => Some(s[0])
      case Some(m) => Some(if s[0] <= m then s[0] else m)
  }

  /** `max()`: the largest value; None on no values (`bikeshare.py` prints NaN). */
  function Greatest(s: seq<int>): (r: Option<int>)
    ensures r.None? <==> s == []
    ensures r.Some? ==> r.value in s && forall i :: 0 <= i < |s| ==> s[i] <= r.value
  {
    if s == [] then None
    else match Greatest(s[1..])
      case None => Some(s[0])
      case Some(m) => Some(if s[0] >= m then s[0] else m)
  }

  /** The non-missing birth years, in row order. */
  function BirthYears(rows: seq<Trip>): seq<int>
  {
    Present(Column(rows, BirthYearOf))
  }

  /** The non-missing genders, in row order. */
  function Genders(rows: seq<Trip>): seq<string>
  {
    Present(Column(rows, GenderOf))
  }

  datatype Demographics = Demographics(
    genderCounts: map<string, nat>,
    earliestBirth: int,
    latestBirth: int,
    commonBirth: int)

  datatype UserReport = UserReport(userTypeCounts: map<string, nat>, demographics: Option<Demographics>)

  /** The failure of `user_stats`: `mode()[0]` on a birth-year column with no value. */
  datatype StatsError = NoBirthYear

  /**
    `user_stats`: user-type counts always; for every city but Washington also
    gender counts and the earliest, latest and most common birth year.
   */
  function UserStats(rows: seq<Trip>, city: string): (r: Result<UserReport, StatsError>)
    ensures r.Err? <==> city != Washington && BirthYears(rows) == []
    ensures r.Ok? ==> r.value.userTypeCounts == ValueCounts(Column(rows, UserTypeOf))
    ensures r.Ok? ==> (r.value.demographics.Some? <==> city != Washington)
    ensures r.Ok? && r.value.demographics.Some? ==>
      var d := r.value.demographics.value;
      var years := BirthYears(rows);
      && d.genderCounts == ValueCounts(Genders(rows))
      && d.earliestBirth in years
      && d.latestBirth in years
      && (forall i :: 0 <= i < |years| ==> d.earliestBirth <= years[i] <= d.latestBirth)
      && IsMode(years, d.commonBirth)
      && d.earliestBirth <= d.commonBirth <= d.latestBirth
  {
    var userTypes := ValueCounts(Column(rows, UserTypeOf));
    if city == Washington then Ok(UserReport(userTypes, None))
    else
      var years := BirthYears(rows);
      if years == [] then Err(NoBirthYear)
      else
        var common := Mode(years).value;
        assert common in years;
        Ok(UserReport(userTypes, Some(Demographics(
          ValueCounts(Genders(rows)),
          Least(years).value,
          Greatest(years).value,
          common))))
  }
}
