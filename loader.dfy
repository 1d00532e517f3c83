/**
  The dataset loader (`load_data`) after the city's table has been read and the
  derived columns added: the month name is mapped to its number, and the month
  and day filters keep the matching rows in their original order.
 */
module Loader {
  import opened Text
  import opened Trips
  import opened Sequences

  /** The error `load_data` raises: `months.index` finds no such month. */
  datatype LoadError = UnknownMonth(month: string)

  /** `months.index(month) + 1`: the 1-based number of a month name. */
  function MonthIndex(month: string): (r: Option<int>)
    ensures r.None? <==> month !in MonthNames
    ensures r.Some? ==> 1 <= r.value <= |MonthNames| && MonthNames[r.value - 1] == month
  {
    match IndexOf(MonthNames, month)
    case None => None
    case Some(k) => Some(k + 1)
  }

  /** Mapping a month number to its name and back gives the number: january is 1, ..., june is 6. */
  lemma MonthIndexInverse(k: int)
    requires 1 <= k <= |MonthNames|
    ensures MonthIndex(MonthNames[k - 1]) == Some(k)
  {
  }

  /** A boolean-mask selection `df[mask]`: the rows that satisfy `keep`, in order. */
  function Keep<T>(rows: seq<T>, keep: T -> bool): (r: seq<T>)
    ensures |r| <= |rows|
    ensures forall i :: 0 <= i < |r| ==> keep(r[i])
  {
    if rows == [] then []
    else if keep(rows[0]) then [rows[0]] + Keep(rows[1..], keep)
    else Keep(rows[1..], keep)
  }

  /** Filtering keeps the order of the rows it keeps. */
  lemma {:induction false} KeepIsSubsequence<T>(rows: seq<T>, keep: T -> bool)
    ensures IsSubsequence(Keep(rows, keep), rows)
  {
    if rows != [] {
      KeepIsSubsequence(rows[1..], keep);
      var r := Keep(rows, keep);
      if keep(rows[0]) {
        assert r[0] == rows[0] && r[1..] == Keep(rows[1..], keep);
      } else if r != [] {
        assert r == Keep(rows[1..], keep);
        var t := Keep(rows[1..], keep);
        assert keep(t[0]);
      }
    }
  }

  /** Filtering keeps every matching row as often as it occurs, and no other row. */
  lemma {:induction false} KeepCount<T>(rows: seq<T>, keep: T -> bool, x: T)
    ensures Count(Keep(rows, keep), x) == if keep(x) then Count(rows, x) else 0
  {
    if rows != [] {
      KeepCount(rows[1..], keep, x);
      if keep(rows[0]) {
        assert ([rows[0]] + Keep(rows[1..], keep))[1..] == Keep(rows[1..], keep);
      }
    }
  }

  /** A filter that every row passes changes nothing. */
  lemma {:induction false} KeepAllPass<T>(rows: seq<T>, keep: T -> bool)
    requires forall i :: 0 <= i < |rows| ==> keep(rows[i])
    ensures Keep(rows, keep) == rows
  {
    if rows != [] {
      KeepAllPass(rows[1..], keep);
      assert [rows[0]] + rows[1..] == rows;
    }
  }

  /** Rows kept by one filter still pass any condition that all input rows pass. */
  lemma KeepKeepsPassing<T>(rows: seq<T>, passes: T -> bool, keep: T -> bool)
    requires forall i :: 0 <= i < |rows| ==> passes(rows[i])
    ensures forall i :: 0 <= i < |Keep(rows, keep)| ==> passes(Keep(rows, keep)[i])
  {
    var r := Keep(rows, keep);
    KeepIsSubsequence(rows, keep);
    SubsequenceElements(r, rows);
    forall i | 0 <= i < |r|
      ensures passes(r[i])
    {
      assert r[i] in rows;
    }
  }

  /** Filtering twice by the same condition is filtering once. */
  lemma KeepIdempotent<T>(rows: seq<T>, keep: T -> bool)
    ensures Keep(Keep(rows, keep), keep) == Keep(rows, keep)
  {
    KeepAllPass(Keep(rows, keep), keep);
  }

  /** Two filters can be applied in either order. */
  lemma {:induction false} KeepCommutes<T>(rows: seq<T>, p: T -> bool, q: T -> bool)
    ensures Keep(Keep(rows, p), q) == Keep(Keep(rows, q), p)
  {
    if rows != [] {
      KeepCommutes(rows[1..], p, q);
      var x := rows[0];
      var rest := rows[1..];
      if p(x) {
        assert Keep([x] + Keep(rest, p), q) == (if q(x) then [x] else []) + Keep(Keep(rest, p), q) by {
          assert ([x] + Keep(rest, p))[1..] == Keep(rest, p);
        }
      }
      if q(x) {
        assert Keep([x] + Keep(rest, q), p) == (if p(x) then [x] else []) + Keep(Keep(rest, q), p) by {
          assert ([x] + Keep(rest, q))[1..] == Keep(rest, q);
        }
      }
    }
  }

  /** The row condition of a month answer other than "all". */
  function MonthFilter(number: int): Trip -> bool
  {
    (t: Trip) => t.month == number
  }

  /** The row condition of a day answer other than "all": the day name title-cased, as `day_name()` writes it. */
  function DayFilter(day: string): Trip -> bool
  {
    var name := Title(day);
    (t: Trip) => t.dayOfWeek == name
  }

  /** Each day the prompt accepts, title-cased, is the name the `day_of_week` column uses for that day. */
  lemma DayFilterMatchesDayNames(i: int)
    requires 0 <= i < |DayNames|
    ensures DayChoices[i] != All
    ensures Title(DayChoices[i]) == DayNames[i]
  {
    TitleOfLowerWord(DayChoices[i]);
  }

  /** Whether a row survives `load_data`'s filters for a month answer (or "all") and a day answer (or "all"). */
  predicate Selected(t: Trip, month: string, day: string)
  {
    && (month == All || (MonthIndex(month).Some? && t.month == MonthIndex(month).value))
    && (day == All || t.dayOfWeek == Title(day))
  }

  /**
    `load_data` on the rows read from the city's file: filter by month unless
    the month is "all", then by day unless the day is "all".
   */
  function LoadData(rows: seq<Trip>, month: string, day: string): (r: Result<seq<Trip>, LoadError>)
    ensures r.Err? <==> month != All && month !in MonthNames
    ensures month == All && day == All ==> r == Ok(rows)
    ensures r.Ok? ==> |r.value| <= |rows|
  {
    var byMonth :=
      if month == All then Ok(rows)
      else match MonthIndex(month)
        case None => Err(UnknownMonth(month))
        case Some(number) => Ok(Keep(rows, MonthFilter(number)));
    match byMonth
    case Err(e) => Err(e)
    case Ok(kept) => Ok(if day == All then kept else Keep(kept, DayFilter(day)))
  }

  /**
    For every month the prompt accepts, the loaded rows are the rows of the
    table that match the month and the day, each as often as in the table,
    in the table's order.
   */
  lemma LoadDataSelects(rows: seq<Trip>, month: string, day: string)
    requires month in MonthChoices
    ensures LoadData(rows, month, day).Ok?
    ensures IsSubsequence(LoadData(rows, month, day).value, rows)
    ensures forall x :: Count(LoadData(rows, month, day).value, x) == if Selected(x, month, day) then Count(rows, x) else 0
  {
    var r := LoadData(rows, month, day).value;
    var byMonth := if month == All then rows else Keep(rows, MonthFilter(MonthIndex(month).value));
    if month != All {
      KeepIsSubsequence(rows, MonthFilter(MonthIndex(month).value));
    } else {
      SubsequenceReflexive(rows);
    }
    if day != All {
      KeepIsSubsequence(byMonth, DayFilter(day));
      SubsequenceTransitive(r, byMonth, rows);
    }
    forall x
      ensures Count(r, x) == if Selected(x, month, day) then Count(rows, x) else 0
    {
      if month != All {
        KeepCount(rows, MonthFilter(MonthIndex(month).value), x);
      }
      if day != All {
        KeepCount(byMonth, DayFilter(day), x);
      }
    }
  }

  /** Loading is idempotent: filtering the loaded rows again by the same answers changes nothing. */
  lemma LoadDataIdempotent(rows: seq<Trip>, month: string, day: string)
    requires month in MonthChoices
    ensures LoadData(rows, month, day).Ok?
    ensures LoadData(LoadData(rows, month, day).value, month, day) == LoadData(rows, month, day)
  {
    var r := LoadData(rows, month, day).value;
    if month != All {
      var m := MonthFilter(MonthIndex(month).value);
      var byMonth := Keep(rows, m);
      if day == All {
        KeepIdempotent(rows, m);
      } else {
        var d := DayFilter(day);
        KeepKeepsPassing(byMonth, m, d);
        KeepAllPass(r, m);
        KeepAllPass(r, d);
      }
    } else if day != All {
      KeepIdempotent(rows, DayFilter(day));
    }
  }
}
