/**
  The input collector (`get_filters`). Each prompt re-asks until the lower-cased
  answer is one of a fixed list. The user's answers are a sequence read in
  order; when it runs out before a prompt is satisfied, `input()` would raise
  end-of-file, which the model reports as None.
 */
module Prompts {
  import opened Text
  import opened Trips

  /** What `get_filters` returns: a city, a month or "all", a day or "all". */
  datatype Selection = Selection(city: string, month: string, day: string)

  /**
    The position of the first answer whose lower form is in `valid`, or
    `|answers|` when there is none: the answer a prompt loop stops at.
   */
  function FirstValid(answers: seq<string>, valid: seq<string>): (k: nat)
    ensures k <= |answers|
    ensures forall j :: 0 <= j < k ==> Lower(answers[j]) !in valid
    ensures k < |answers| ==> Lower(answers[k]) in valid
  {
    if answers == [] then 0
    else if Lower(answers[0]) in valid then 0
    else 1 + FirstValid(answers[1..], valid)
  }

  /** An accepted answer, lower-cased, and the answers left for the next prompt. */
  datatype Accepted = Accepted(value: string, rest: seq<string>)

  /** What one prompt loop makes of `answers`: None when they run out first. */
  function Accept(answers: seq<string>, valid: seq<string>): Option<Accepted>
  {
    var k := FirstValid(answers, valid);
    if k == |answers| then None else Some(Accepted(Lower(answers[k]), answers[k + 1..]))
  }

  /**
    The specification of `get_filters`: the three prompts take their answers
    one after the other from the same sequence.
   */
  function SelectFilters(answers: seq<string>): Option<Selection>
  {
    match Accept(answers, Cities)
    case None => None
    case Some(city) =>
      match Accept(city.rest, MonthChoices)
      case None => None
      case Some(month) =>
        match Accept(month.rest, DayChoices)
        case None => None
        case Some(day) => Some(Selection(city.value, month.value, day.value))
  }

  /**
    One prompt loop: read an answer, lower it, and read again while it is not
    in `valid`. Returns the accepted answer and how many answers were read.
   */
  method Ask(answers: seq<string>, valid: seq<string>) returns (choice: Option<string>, used: nat)
    ensures used <= |answers|
    ensures choice.None? <==> Accept(answers, valid).None?
    ensures choice.None? ==> used == |answers|
    ensures choice.Some? ==>
      && 0 < used
      && choice.value == Lower(answers[used - 1])
      && choice.value in valid
      && (forall j :: 0 <= j < used - 1 ==> Lower(answers[j]) !in valid)
      && Accept(answers, valid) == Some(Accepted(choice.value, answers[used..]))
  {
    if |answers| == 0 {
      return None, 0;
    }
    var answer := Lower(answers[0]);
    used := 1;
    while answer !in valid
      invariant 1 <= used <= |answers|
      invariant answer == Lower(answers[used - 1])
      invariant forall j :: 0 <= j < used - 1 ==> Lower(answers[j]) !in valid
      decreases |answers| - used
    {
      if used == |answers| {
        return None, used;
      }
      answer := Lower(answers[used]);
      used := used + 1;
    }
    choice := Some(answer);
  }

  /**
    `get_filters`: ask for the city, then the month, then the day. On return
    the city is a key of the city registry, the month one of the seven month
    choices and the day one of the eight day choices.
   */
  method GetFilters(answers: seq<string>) returns (selection: Option<Selection>)
    ensures selection == SelectFilters(answers)
    ensures selection.Some? ==>
      && selection.value.city in CityData
      && selection.value.month in MonthChoices
      && selection.value.day in DayChoices
  {
    var city, usedCity := Ask(answers, Cities);
    if city.None? {
      return None;
    }
    var afterCity := answers[usedCity..];
    var month, usedMonth := Ask(afterCity, MonthChoices);
    if month.None? {
      return None;
    }
    var afterMonth := afterCity[usedMonth..];
    var day, usedDay := Ask(afterMonth, DayChoices);
    if day.None? {
      return None;
    }
    CitiesAreRegistryKeys(city.value);
    selection := Some(Selection(city.value, month.value, day.value));
  }

  /** An answer that is not accepted is skipped: the prompt simply asks again. */
  lemma AcceptSkips(x: string, answers: seq<string>, valid: seq<string>)
    requires Lower(x) !in valid
    ensures Accept([x] + answers, valid) == Accept(answers, valid)
  {
    var k := FirstValid(answers, valid);
    assert ([x] + answers)[1..] == answers;
    assert FirstValid([x] + answers, valid) == k + 1;
    if k < |answers| {
      assert ([x] + answers)[k + 1] == answers[k];
      assert ([x] + answers)[k + 2..] == answers[k + 1..];
    }
  }

  /** An accepted answer ends the prompt; the following answers are left for the next one. */
  lemma AcceptTakes(x: string, answers: seq<string>, valid: seq<string>)
    requires Lower(x) in valid
    ensures Accept([x] + answers, valid) == Some(Accepted(Lower(x), answers))
  {
    assert ([x] + answers)[1..] == answers;
  }

  /** An invalid city answer only causes the city prompt to be repeated. */
  lemma InvalidCityReprompts(x: string, answers: seq<string>)
    requires Lower(x) !in Cities
    ensures SelectFilters([x] + answers) == SelectFilters(answers)
  {
    AcceptSkips(x, answers, Cities);
  }

  /** After an accepted city, an invalid month answer only causes the month prompt to be repeated. */
  lemma InvalidMonthReprompts(city: string, x: string, answers: seq<string>)
    requires Lower(city) in Cities
    requires Lower(x) !in MonthChoices
    ensures SelectFilters([city, x] + answers) == SelectFilters([city] + answers)
  {
    assert [city, x] + answers == [city] + ([x] + answers);
    AcceptTakes(city, [x] + answers, Cities);
    AcceptTakes(city, answers, Cities);
    AcceptSkips(x, answers, MonthChoices);
  }

  /** After an accepted city and month, an invalid day answer only causes the day prompt to be repeated. */
  lemma InvalidDayReprompts(city: string, month: string, x: string, answers: seq<string>)
    requires Lower(city) in Cities
    requires Lower(month) in MonthChoices
    requires Lower(x) !in DayChoices
    ensures SelectFilters([city, month, x] + answers) == SelectFilters([city, month] + answers)
  {
    assert [city, month, x] + answers == [city] + ([month] + ([x] + answers));
    assert [city, month] + answers == [city] + ([month] + answers);
    AcceptTakes(city, [month] + ([x] + answers), Cities);
    AcceptTakes(city, [month] + answers, Cities);
    AcceptTakes(month, [x] + answers, MonthChoices);
    AcceptTakes(month, answers, MonthChoices);
    AcceptSkips(x, answers, DayChoices);
  }
}
