/**
  Case conversion of the user's answers and of the day filter.
  Python's `str.lower()` and `str.title()` are modelled on the ASCII letters;
  every other character is left as it is.
 */
module Text {

  predicate IsUpper(c: char) { 'A' <= c <= 'Z' }

  predicate IsLower(c: char) { 'a' <= c <= 'z' }

  /** A cased character in the sense of `str.title()`. */
  predicate IsLetter(c: char) { IsUpper(c) || IsLower(c) }

  function LowerChar(c: char): (r: char)
    ensures !IsUpper(r)
    ensures IsLetter(c) <==> IsLetter(r)
    ensures !IsUpper(c) ==> r == c
  {
    if IsUpper(c) then (c as int + 32) as char else c
  }

  function UpperChar(c: char): (r: char)
    ensures !IsLower(r)
    ensures IsLetter(c) <==> IsLetter(r)
    ensures !IsLower(c) ==> r == c
  {
    if IsLower(c) then (c as int - 32) as char else c
  }

  /** `s.lower()`: every upper-case letter replaced by its lower-case form. */
  function Lower(s: string): (r: string)
    ensures |r| == |s|
    ensures forall i :: 0 <= i < |s| ==> !IsUpper(r[i])
    ensures forall i :: 0 <= i < |s| && !IsUpper(s[i]) ==> r[i] == s[i]
    ensures forall i :: 0 <= i < |s| && IsUpper(s[i]) ==> IsLower(r[i]) && UpperChar(r[i]) == s[i]
  {
    seq(|s|, i requires 0 <= i < |s| => LowerChar(s[i]))
  }

  /** Lowering twice is lowering once: an answer that was lowered stays as it is. */
  lemma LowerIdempotent(s: string)
    ensures Lower(Lower(s)) == Lower(s)
  {
    var once := Lower(s);
    assert forall i :: 0 <= i < |s| ==> LowerChar(once[i]) == once[i];
  }

  /**
    `s.title()`: a letter is upper-cased when it starts the string or follows a
    character that is not a letter, and lower-cased otherwise.
    `afterLetter` says whether the character before `s` was a letter.
   */
  function TitleFrom(s: string, afterLetter: bool): (r: string)
    ensures |r| == |s|
  {
    if s == [] then []
    else
      var c := if afterLetter then LowerChar(s[0]) else UpperChar(s[0]);
      [c] + TitleFrom(s[1..], IsLetter(s[0]))
  }

  function Title(s: string): (r: string)
    ensures |r| == |s|
  {
    TitleFrom(s, false)
  }

  /** Whether position `i` of `s` starts a word, for `str.title()`. */
  predicate StartsWord(s: string, i: int)
    requires 0 <= i < |s|
  {
    i == 0 || !IsLetter(s[i - 1])
  }

  lemma {:induction false} TitleFromAt(s: string, afterLetter: bool, i: int)
    requires 0 <= i < |s|
    ensures TitleFrom(s, afterLetter)[i] ==
      if (if i == 0 then afterLetter else IsLetter(s[i - 1])) then LowerChar(s[i]) else UpperChar(s[i])
    decreases |s|
  {
    if i > 0 {
      TitleFromAt(s[1..], IsLetter(s[0]), i - 1);
      assert s[1..][i - 1] == s[i];
      if i > 1 {
        assert s[1..][i - 2] == s[i - 1];
      }
    }
  }

  /** Character by character, `Title` upper-cases exactly the letters that start a word. */
  lemma TitleAt(s: string, i: int)
    requires 0 <= i < |s|
    ensures Title(s)[i] == if StartsWord(s, i) then UpperChar(s[i]) else LowerChar(s[i])
  {
    TitleFromAt(s, false, i);
  }

  /** Title-casing does not depend on the case of its input. */
  lemma TitleOfLower(s: string)
    ensures Title(Lower(s)) == Title(s)
  {
    var l := Lower(s);
    forall i | 0 <= i < |s|
      ensures Title(l)[i] == Title(s)[i]
    {
      TitleAt(l, i);
      TitleAt(s, i);
    }
  }

  /** A word in lower case comes out of `Title` with its first letter upper-cased. */
  lemma TitleOfLowerWord(s: string)
    requires s != []
    requires forall i :: 0 <= i < |s| ==> IsLower(s[i])
    ensures Title(s) == [UpperChar(s[0])] + s[1..]
  {
    forall i | 0 <= i < |s|
      ensures Title(s)[i] == ([UpperChar(s[0])] + s[1..])[i]
    {
      TitleAt(s, i);
    }
  }
}
