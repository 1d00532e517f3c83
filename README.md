# US bikeshare explorer — verified model

`bikeshare.py` is an interactive command-line tool over US bikeshare trip
tables. The user picks a city (Chicago, New York City or Washington), a month
(January to June, or all) and a day of the week (or all); the tool loads that
city's trips, filters them, prints the most popular times and stations, the
total trip duration and user statistics, and then pages through the raw rows
five at a time.

This project models the rules underneath that I/O, in Dafny:

- `Trips` (trips.dfy): the trip record after loading (derived `month`,
  `day_of_week` and `hour`, stations, user type, optional gender and birth
  year, start and end times in seconds), the city registry and the fixed lists
  of month and day answers.
- `Text` (text.dfy): `str.lower()` and `str.title()` on ASCII letters.
- `Sequences` (sequences.dfy): occurrence counts, `list.index`, and
  order-preserving subsequences.
- `Prompts` (prompts.dfy): `get_filters`. Each of the three prompt loops is a
  method with a `while` loop, driven by the user's answers as a sequence of
  strings. It is proved against a specification function: the first answer
  whose lower form is in the list wins, and every earlier answer only causes
  the prompt to be repeated.
- `Loader` (loader.dfy): `load_data` after the table has been read. The month
  name becomes its 1-based number, and the month and day filters keep the
  matching rows in their original order. The filters are idempotent and
  commute.
- `Stats` (stats.dfy): the four reporters. A most-common value is a value of
  the column with the largest count. The trip key is `start + " TO " + end`.
  The total travel time is the sum of `end - start`. The gender and
  birth-year statistics appear only when the city is not Washington, and there
  the earliest birth year is at most the most common one, which is at most the
  latest.
- `Pager` (pager.dfy): `display_data`, a method with the program's loop and
  counters. The model keeps the guard `end_loc <= n - 1`, so the last row is
  never shown: with 5 rows nothing is shown, with 10 rows only `[0, 5)`, with
  12 rows `[0, 5)` and `[5, 10)`.

Where the program would stop with an exception, the model returns an error
value:

- the answers run out at an `input()` call: None, or `InputClosed` in the pager;
- `months.index` is given a name it does not list: `Err(UnknownMonth)`;
- `mode()[0]` runs on an empty column: None from `Mode`, `TimeStats` and
  `StationStats`, `Err(NoBirthYear)` from `UserStats`.

Three behaviours of the program are kept as they are:

- `time_stats` and `station_stats` fail on an empty table. So does
  `user_stats` for any city other than Washington, and it also fails on a
  table with no birth year. `trip_duration_stats` reports a total of 0.
- The guard `end_loc <= n - 1` stops the pager before the last row.
- A trip key cannot tell apart two station pairs whose names contain " TO ".
  The most common trip is therefore counted over keys.
  `CommonTripCoversEveryPair` states the bound that does hold: the most common
  trip's count is at least that of any single (start, end) pair.

## Model

| member | source | states |
|---|---|---|
| `Prompts.FirstValid` | bikeshare.py:25-26 | the answer a prompt loop stops at: every earlier answer, lowered, is not in the list, and the one it stops at is; or all answers are rejected |
| `Prompts.Ask` | bikeshare.py:23-26 | one prompt loop: None exactly when no answer is accepted; otherwise the result is the lowered accepted answer, it is in the list, every earlier answer was rejected, and the later answers are left over |
| `Prompts.GetFilters` | bikeshare.py:11-42 | the three prompts in order on one stream of answers; on return the city is a key of `CITY_DATA`, the month one of the seven month answers and the day one of the eight day answers |
| `Prompts.AcceptSkips` | bikeshare.py:25-26 | a rejected answer changes nothing but the number of prompts: the loop accepts what it would have accepted without it |
| `Prompts.AcceptTakes` | bikeshare.py:23-25 | an accepted first answer ends the loop at once, with all later answers left for the next prompt |
| `Prompts.InvalidCityReprompts` | bikeshare.py:23-26 | an invalid city answer only repeats the city prompt: the selection is the same without it |
| `Prompts.InvalidMonthReprompts` | bikeshare.py:30-33 | after an accepted city, an invalid month answer only repeats the month prompt |
| `Prompts.InvalidDayReprompts` | bikeshare.py:36-39 | after an accepted city and month, an invalid day answer only repeats the day prompt |
| `Trips.CitiesAreRegistryKeys` | bikeshare.py:7-9 | the list of accepted cities is exactly the set of keys of the city registry |
| `Text.Lower` | bikeshare.py:23 | lowering keeps the length and leaves no upper-case letter; every other character is kept, and each upper-case letter becomes the lower-case letter whose upper form it is |
| `Text.LowerIdempotent` | bikeshare.py:23-26 | lowering an answer that was already lowered changes nothing |
| `Text.TitleAt` | bikeshare.py:80 | `title()` upper-cases exactly the letters that start a word and lower-cases every other letter |
| `Text.TitleOfLower` | bikeshare.py:80 | title-casing does not depend on the case of its input |
| `Text.TitleOfLowerWord` | bikeshare.py:80 | a lower-case word comes out of `title()` with only its first letter upper-cased |
| `Sequences.IndexOf` | bikeshare.py:72 | `list.index`: None exactly when the value is absent; otherwise a position holding the value with no earlier position holding it |
| `Loader.MonthIndex` | bikeshare.py:69-72 | a month name maps to a number in 1..6 exactly when it is one of the six listed names, and the name listed at that number minus one is the given name |
| `Loader.MonthIndexInverse` | bikeshare.py:71-72 | the round trip from a number to its name and back: january is 1, ..., june is 6 |
| `Loader.Keep` | bikeshare.py:75 | a mask selection returns no more rows than it is given, and every row it returns satisfies the condition |
| `Loader.KeepIsSubsequence` | bikeshare.py:75 | a mask selection keeps the rows it keeps in their original order |
| `Loader.KeepCount` | bikeshare.py:80 | a mask selection keeps each matching row as often as it occurs, and drops every other row |
| `Loader.KeepAllPass` | bikeshare.py:80 | a selection that every row passes returns the rows unchanged |
| `Loader.KeepKeepsPassing` | bikeshare.py:75-80 | rows that survive the day filter still pass the month filter they passed before |
| `Loader.KeepIdempotent` | bikeshare.py:75 | selecting twice by the same condition is selecting once |
| `Loader.KeepCommutes` | bikeshare.py:75-80 | the month and day selections can be applied in either order |
| `Loader.DayFilterMatchesDayNames` | bikeshare.py:64-80 | each accepted day other than "all", title-cased, is the name `day_name()` gives that day ("Monday", ...) |
| `Loader.LoadData` | bikeshare.py:44-82 | fails exactly for a month that is neither "all" nor one of the six names; with "all" and "all" returns the rows unchanged; never adds rows |
| `Loader.LoadDataSelects` | bikeshare.py:68-82 | for every accepted month, the loaded rows are an order-preserving subsequence of the table holding exactly the rows whose month and day match, each as often as in the table |
| `Loader.LoadDataIdempotent` | bikeshare.py:68-82 | filtering the loaded rows again with the same month and day changes nothing |
| `Stats.MostFrequentFrom` | bikeshare.py:92 | picks a position whose value has a count at least that of the value at every later position, and strictly greater than at every position before it: the first value of largest count |
| `Stats.Mode` | bikeshare.py:92-100 | None exactly on an empty column; otherwise a value that occurs in the column and whose count is at least that of every value |
| `Stats.TimeStats` | bikeshare.py:85-101 | fails exactly on no rows; otherwise the reported month, day and hour are each a most common value of their column |
| `Stats.TripKeyParts` | bikeshare.py:122 | a trip key is the start station, then " TO ", then the end station |
| `Stats.StationStats` | bikeshare.py:107-124 | fails exactly on no rows; otherwise the reported start station, end station and trip are each a most common value of their column |
| `Stats.PairCountAtMostKeyCount` | bikeshare.py:122-123 | a trip key occurs in at least as many rows as its (start, end) station pair |
| `Stats.CommonTripCoversEveryPair` | bikeshare.py:122-123 | the most common trip occurs in at least as many rows as any single (start, end) pair |
| `Stats.TotalTravelTime` | bikeshare.py:136-139 | the total travel time is not negative when no trip ends before it starts |
| `Stats.TotalTravelTimeAppend` | bikeshare.py:139 | the total over two blocks of rows is the sum of their totals |
| `Stats.TotalTravelTimeSplits` | bikeshare.py:136-139 | the totals of the rows a filter keeps and of the rows it drops add up to the total of all rows |
| `Stats.Present` | bikeshare.py:163-170 | the non-missing values of a column: each value occurs as often as its present cells, and no missing cell adds anything |
| `Stats.ValueCounts` | bikeshare.py:155-163 | the counted values are exactly the distinct values of the column, each with its positive count |
| `Stats.Least` | bikeshare.py:168 | None exactly on no values; otherwise a value of the column at most every value |
| `Stats.Greatest` | bikeshare.py:169 | None exactly on no values; otherwise a value of the column at least every value |
| `Stats.UserStats` | bikeshare.py:148-174 | user-type counts always; gender and birth-year statistics exactly when the city is not "washington"; then the earliest and latest birth years occur and bound every birth year, the most common one is a mode, earliest <= most common <= latest; fails exactly when a city other than Washington has no birth year |
| `Pager.MaxWindows` | bikeshare.py:188 | the number of windows the guard allows: each ends at `n - 1` or before, and one more would not |
| `Pager.FirstNo` | bikeshare.py:192-194 | the follow-up answer that stops the pager: every earlier one, lowered, is not "no", and it is; or none is |
| `Pager.DisplayData` | bikeshare.py:180-194 | the loop shows exactly the windows and stops for exactly the reason the closed-form specification gives; window k is `[5k, 5k+5)` and ends at `n - 1` or before |
| `Pager.WindowsAdvanceByFive` | bikeshare.py:189-191 | every window has five rows, starts where the previous one ended, and no two overlap |
| `Pager.PagerStaysBeforeLastRow` | bikeshare.py:188-189 | every shown window lies in `[0, n - 1]`, so the last row is never shown |
| `Pager.PagerNeedsFirstYes` | bikeshare.py:186-187 | nothing is shown unless the first answer is "yes" |
| `Pager.PagerRunsToGuard` | bikeshare.py:188-194 | with no "no" among enough follow-up answers, the pager shows every window the guard allows and stops at the guard |
| `Pager.PagerSmallTables` | bikeshare.py:183-188 | a table of 5 rows shows nothing, and one of 10 rows shows at most `[0, 5)` |
| `Pager.PagerTwelveRows` | bikeshare.py:183-194 | a table of 12 rows shows `[0, 5)` and `[5, 10)` and then stops at the guard |

## Left out

- Reading the city's CSV file, `pd.to_datetime`, and deriving the month, day name and hour from the start time (bikeshare.py:56-65). These are library calls. The model takes the derived values as fields of each record, and `LoadData` takes the rows already read. The registry is modelled only as the constant `CityData`.
- Printing, `pd.set_option`, and the elapsed wall-clock time of each reporter. These are output only.
- The mean travel time (bikeshare.py:142). It is a timedelta division. The formatting of durations as days, hours, minutes and seconds is left out too: times are whole seconds.
- The `main` restart loop (bikeshare.py:196-208). It only calls the other parts in order.
- Stats.Mode: pandas returns the smallest of tied values. The model picks the first tied value in row order, and its contract states only that the count is maximal.
- Stats.ValueCounts: `value_counts()` prints its counts in descending order. The model gives the counts as a map, without that order.
- Stats.Present: pandas stores a birth-year column with missing cells as floating point. The model keeps birth years as integers and missing cells as None.
- Text.Lower: Python's `lower()` and `title()` follow Unicode. The model handles only the ASCII letters.
