/**
  The raw-data pager (`display_data`). After a first "yes" it shows the rows
  `[start_loc, end_loc)` five at a time while `end_loc <= n - 1`, asking after
  each window whether to go on; the answer "no" stops it. Because of that
  guard the last row is never shown: with 10 rows only `[0, 5)` is shown, with
  5 rows nothing.
 */
module Pager {
  import opened Text

  /** The rows `df.iloc[start:end]` shown by one step. */
  datatype Window = Window(start: int, end: int)

  /** Why the pager stopped. */
  datatype Ending =
    | Declined      // the first answer was not "yes"
    | AnsweredNo    // a follow-up answer was "no"
    | PastLastRow   // the loop guard `end_loc <= n - 1` failed
    | InputClosed   // the answers ran out: `input()` would raise end-of-file

  /** The number of windows `[5k, 5k + 5)` whose end is at most `n - 1`. */
  function MaxWindows(n: int): (m: nat)
    ensures m == 0 || 5 * m <= n - 1
    ensures n - 1 < 5 * (m + 1)
  {
    if n < 1 then 0 else (n - 1) / 5
  }

  /** The position of the first follow-up answer that reads "no", or their number. */
  function FirstNo(answers: seq<string>): (k: nat)
    ensures k <= |answers|
    ensures forall j :: 0 <= j < k ==> Lower(answers[j]) != "no"
    ensures k < |answers| ==> Lower(answers[k]) == "no"
  {
    if answers == [] then 0
    else if Lower(answers[0]) == "no" then 0
    else 1 + FirstNo(answers[1..])
  }

  /** The first `count` windows: `[0, 5)`, `[5, 10)`, ... */
  function Windows(count: nat): (ws: seq<Window>)
    ensures |ws| == count
  {
    seq(count, k requires 0 <= k < count => Window(5 * k, 5 * k + 5))
  }

  /** How many windows the pager shows for `n` rows and the given answers. */
  function ShownCount(n: int, answers: seq<string>): nat
  {
    if answers == [] || Lower(answers[0]) != "yes" then 0
    else
      var k := FirstNo(answers[1..]);
      if k + 1 < MaxWindows(n) then k + 1 else MaxWindows(n)
  }

  /** The windows the pager shows. */
  function PagerWindows(n: int, answers: seq<string>): seq<Window>
  {
    Windows(ShownCount(n, answers))
  }

  /** Why the pager stops for `n` rows and the given answers. */
  function PagerEnding(n: int, answers: seq<string>): Ending
  {
    if answers == [] then InputClosed
    else if Lower(answers[0]) != "yes" then Declined
    else
      var more := answers[1..];
      var k := FirstNo(more);
      if k < MaxWindows(n) then (if k == |more| then InputClosed else AnsweredNo)
      else PastLastRow
  }

  /**
    `display_data` on a table of `n` rows: returns the windows it shows, in
    order, and why it stopped.
   */
  method DisplayData(n: nat, answers: seq<string>) returns (shown: seq<Window>, ending: Ending)
    ensures shown == PagerWindows(n, answers)
    ensures ending == PagerEnding(n, answers)
    ensures forall k :: 0 <= k < |shown| ==> shown[k] == Window(5 * k, 5 * k + 5) && shown[k].end <= n - 1
  {
    var start, end := 0, 5;
    shown := [];
    if |answers| == 0 {
      return shown, InputClosed;
    }
    var showData := Lower(answers[0]);
    if showData != "yes" {
      return shown, Declined;
    }
    var next := 1;
    ending := PastLastRow;
    while end <= n - 1
      invariant start == 5 * |shown| && end == start + 5
      invariant next == 1 + |shown| <= |answers|
      invariant shown == Windows(|shown|)
      invariant |shown| <= MaxWindows(n)
      invariant forall j :: 1 <= j < next ==> Lower(answers[j]) != "no"
      decreases n - end
    {
      shown := shown + [Window(start, end)];
      start := start + 5;
      end := end + 5;
      if next == |answers| {
        ending := InputClosed;
        return;
      }
      var continueShow := Lower(answers[next]);
      next := next + 1;
      if continueShow == "no" {
        ending := AnsweredNo;
        break;
      }
    }
  }

  /** Each window holds five rows, starts where the previous one ended, and no two overlap. */
  lemma WindowsAdvanceByFive(count: nat)
    ensures forall k :: 0 <= k < count ==> Windows(count)[k].end == Windows(count)[k].start + 5
    ensures forall k :: 0 < k < count ==> Windows(count)[k].start == Windows(count)[k - 1].end
    ensures forall i, j :: 0 <= i < j < count ==> Windows(count)[i].end <= Windows(count)[j].start
  {
  }

  /** Every window ends at `n - 1` or before: the pager never reaches the last row. */
  lemma PagerStaysBeforeLastRow(n: int, answers: seq<string>)
    ensures forall k :: 0 <= k < |PagerWindows(n, answers)| ==> 0 <= PagerWindows(n, answers)[k].start
    ensures forall k :: 0 <= k < |PagerWindows(n, answers)| ==> PagerWindows(n, answers)[k].end <= n - 1
  {
    var count := ShownCount(n, answers);
    assert count <= MaxWindows(n);
    forall k | 0 <= k < count
      ensures PagerWindows(n, answers)[k].end <= n - 1
    {
      assert 5 * k + 5 <= 5 * count;
    }
  }

  /** Nothing is shown unless the first answer is "yes". */
  lemma PagerNeedsFirstYes(n: int, answers: seq<string>)
    requires answers == [] || Lower(answers[0]) != "yes"
    ensures PagerWindows(n, answers) == []
  {
  }

  /** When no follow-up answer says "no", the pager shows every window the guard allows, and then stops. */
  lemma PagerRunsToGuard(n: int, answers: seq<string>)
    requires answers != [] && Lower(answers[0]) == "yes"
    requires MaxWindows(n) < |answers|
    requires forall j :: 1 <= j < |answers| ==> Lower(answers[j]) != "no"
    ensures |PagerWindows(n, answers)| == MaxWindows(n)
    ensures PagerEnding(n, answers) == PastLastRow
  {
    var more := answers[1..];
    assert forall j :: 0 <= j < |more| ==> Lower(more[j]) != "no" by {
      forall j | 0 <= j < |more| ensures Lower(more[j]) != "no" {
        assert more[j] == answers[j + 1];
      }
    }
  }

  /** A table of 5 rows shows nothing; one of 10 rows shows at most `[0, 5)`. */
  lemma PagerSmallTables(answers: seq<string>)
    ensures PagerWindows(5, answers) == []
    ensures PagerWindows(10, answers) == [] || PagerWindows(10, answers) == [Window(0, 5)]
  {
    assert MaxWindows(5) == 0;
    assert MaxWindows(10) == 1;
  }

  /** A table of 12 rows shows `[0, 5)` and `[5, 10)` and stops without showing `[10, 15)`. */
  lemma PagerTwelveRows()
    ensures PagerWindows(12, ["yes", "yes", "yes"]) == [Window(0, 5), Window(5, 10)]
    ensures PagerEnding(12, ["yes", "yes", "yes"]) == PastLastRow
  {
    var answers := ["yes", "yes", "yes"];
    assert MaxWindows(12) == 2;
    assert Lower("yes") == "yes";
    assert answers[1..] == ["yes", "yes"];
    assert FirstNo(["yes", "yes"]) == 2;
  }
}
