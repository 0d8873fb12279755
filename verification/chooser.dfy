/** `choose_format` (index.py:21-27): for each preferred height in order,
    the first descriptor that matches it; `None` when no pair matches. */
module Chooser {
  import opened Wrappers
  import opened Formats

  /** Some descriptor of `formats` matches preference `res`. */
  predicate AnyMatch(formats: seq<Format>, res: Height) {
    exists j :: 0 <= j < |formats| && Matches(formats[j], res)
  }

  /** Some (preference, descriptor) pair satisfies the three-way match. */
  predicate AnyPairMatch(formats: seq<Format>, preferred: seq<Height>) {
    exists i :: 0 <= i < |preferred| && AnyMatch(formats, preferred[i])
  }

  /** No descriptor before position `j` matches `res`. */
  predicate NoMatchBefore(formats: seq<Format>, res: Height, j: int)
    requires 0 <= j <= |formats|
  {
    forall k :: 0 <= k < j ==> !Matches(formats[k], res)
  }

  /** No preference before position `i` has any match. */
  predicate NoPreferenceBefore(formats: seq<Format>, preferred: seq<Height>, i: int)
    requires 0 <= i <= |preferred|
  {
    forall k :: 0 <= k < i ==> !AnyMatch(formats, preferred[k])
  }

  /** Reference definition of the resolver's answer, independent of the
      loop order: `formats[j]` matches `preferred[i]`, `preferred[i]` is the
      earliest preference with any match, and `j` the earliest descriptor
      matching it. */
  predicate IsChoiceAt(formats: seq<Format>, preferred: seq<Height>, i: int, j: int) {
    && 0 <= i < |preferred|
    && 0 <= j < |formats|
    && Matches(formats[j], preferred[i])
    && NoPreferenceBefore(formats, preferred, i)
    && NoMatchBefore(formats, preferred[i], j)
  }

  ghost predicate IsChoice(formats: seq<Format>, preferred: seq<Height>, f: Format) {
    exists i, j :: IsChoiceAt(formats, preferred, i, j) && formats[j] == f
  }

  /** The inner loop (index.py:24-26): the first descriptor, in the
      engine's order, matching `res`. */
  function FirstMatch(formats: seq<Format>, res: Height): (r: Option<Format>)
    ensures r.Some? <==> AnyMatch(formats, res)
    ensures r.Some? ==> exists j :: 0 <= j < |formats| && formats[j] == r.value
                                    && Matches(formats[j], res) && NoMatchBefore(formats, res, j)
  {
    if |formats| == 0 then None
    else if Matches(formats[0], res) then
      assert NoMatchBefore(formats, res, 0);
      Some(formats[0])
    else
      var r := FirstMatch(formats[1..], res);
      FirstMatchStep(formats, res, r);
      r
  }

  /** The inductive step of `FirstMatch`: a descriptor that does not match
      shifts every witness of the tail by one. */
  lemma FirstMatchStep(formats: seq<Format>, res: Height, r: Option<Format>)
    requires 0 < |formats| && !Matches(formats[0], res)
    requires r.Some? <==> AnyMatch(formats[1..], res)
    requires r.Some? ==> exists j :: 0 <= j < |formats[1..]| && formats[1..][j] == r.value
                                     && Matches(formats[1..][j], res) && NoMatchBefore(formats[1..], res, j)
    ensures r.Some? <==> AnyMatch(formats, res)
    ensures r.Some? ==> exists j :: 0 <= j < |formats| && formats[j] == r.value
                                    && Matches(formats[j], res) && NoMatchBefore(formats, res, j)
  {
  }

  /** The outer loop (index.py:23-27). */
  function ChooseFormat(formats: seq<Format>, preferred: seq<Height>): (r: Option<Format>)
    ensures r.Some? <==> AnyPairMatch(formats, preferred)
    ensures r.Some? ==> IsChoice(formats, preferred, r.value)
    ensures |preferred| == 0 || |formats| == 0 ==> r.None?
    ensures r.Some? ==> r.value in formats && IsMp4(r.value) && HasAudio(r.value)
                        && r.value.height in preferred
  {
    if |preferred| == 0 then None
    else
      var first := FirstMatch(formats, preferred[0]);
      if first.Some? then
        FirstPreferenceChosen(formats, preferred, first.value);
        first
      else
        var r := ChooseFormat(formats, preferred[1..]);
        ChooseFormatStep(formats, preferred, r);
        r
  }

  /** A match for the first preference is the reference choice. */
  lemma FirstPreferenceChosen(formats: seq<Format>, preferred: seq<Height>, f: Format)
    requires 0 < |preferred|
    requires exists j :: 0 <= j < |formats| && formats[j] == f
                         && Matches(formats[j], preferred[0]) && NoMatchBefore(formats, preferred[0], j)
    ensures AnyPairMatch(formats, preferred)
    ensures IsChoice(formats, preferred, f)
  {
    var j :| 0 <= j < |formats| && formats[j] == f
             && Matches(formats[j], preferred[0]) && NoMatchBefore(formats, preferred[0], j);
    assert IsChoiceAt(formats, preferred, 0, j);
    assert AnyMatch(formats, preferred[0]);
  }

  /** The inductive step of `ChooseFormat`: a first preference with no match
      shifts every answer for the remaining preferences by one. */
  lemma ChooseFormatStep(formats: seq<Format>, preferred: seq<Height>, r: Option<Format>)
    requires 0 < |preferred| && !AnyMatch(formats, preferred[0])
    requires r.Some? <==> AnyPairMatch(formats, preferred[1..])
    requires r.Some? ==> IsChoice(formats, preferred[1..], r.value)
    ensures r.Some? <==> AnyPairMatch(formats, preferred)
    ensures r.Some? ==> IsChoice(formats, preferred, r.value)
  {
    if r.Some? {
      var i, j :| IsChoiceAt(formats, preferred[1..], i, j) && formats[j] == r.value;
      assert preferred[i + 1] == preferred[1..][i];
      assert NoPreferenceBefore(formats, preferred, i + 1) by {
        forall k | 0 <= k < i + 1 ensures !AnyMatch(formats, preferred[k]) {
          if k > 0 { assert preferred[k] == preferred[1..][k - 1]; }
        }
      }
      assert IsChoiceAt(formats, preferred, i + 1, j);
      assert AnyMatch(formats, preferred[i + 1]);
    } else {
      assert !AnyPairMatch(formats, preferred) by {
        forall k | 0 <= k < |preferred| ensures !AnyMatch(formats, preferred[k]) {
          if k > 0 { assert preferred[k] == preferred[1..][k - 1]; }
        }
      }
    }
  }

  /** The reference definition admits at most one answer, so together with
      the contract of `ChooseFormat` it determines the resolver completely. */
  lemma ChoiceIsUnique(formats: seq<Format>, preferred: seq<Height>, f: Format, g: Format)
    requires IsChoice(formats, preferred, f) && IsChoice(formats, preferred, g)
    ensures f == g
  {
  }

  /** The resolver is exactly the reference definition: it answers with a
      descriptor `f` if and only if `f` is the reference choice. */
  lemma ChooseFormatIsReference(formats: seq<Format>, preferred: seq<Height>, f: Format)
    ensures ChooseFormat(formats, preferred) == Some(f) <==> IsChoice(formats, preferred, f)
  {
  }

  /** Trying a preference list is trying its front part and, only when that
      finds nothing, its back part: an unmatched preference falls through to the next. */
  lemma {:induction false} ChooseFormatFallsThrough(formats: seq<Format>, front: seq<Height>, back: seq<Height>)
    ensures ChooseFormat(formats, front + back)
         == (if ChooseFormat(formats, front).Some? then ChooseFormat(formats, front)
             else ChooseFormat(formats, back))
  {
    if |front| == 0 {
      assert front + back == back;
    } else {
      assert (front + back)[0] == front[0];
      assert (front + back)[1..] == front[1..] + back;
      ChooseFormatFallsThrough(formats, front[1..], back);
    }
  }

  /** When the first preference has a match, the answer is the first
      descriptor with that height. */
  lemma FirstPreferenceWins(formats: seq<Format>, preferred: seq<Height>, j: int)
    requires 0 < |preferred| && 0 <= j < |formats| && Matches(formats[j], preferred[0])
    ensures ChooseFormat(formats, preferred) == FirstMatch(formats, preferred[0])
    ensures ChooseFormat(formats, preferred).Some?
    ensures ChooseFormat(formats, preferred).value.height == preferred[0]
  {
  }
}
