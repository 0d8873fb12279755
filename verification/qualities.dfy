/** `list_available_qualities` (index.py:29-36): the distinct heights of
    descriptors with video, audio and an mp4 container, sorted descending. */
module Qualities {
  import opened Wrappers
  import opened Formats

  /** Python's `sorted` raises `TypeError` when it has to compare `None`
      with an `int`. */
  datatype SortError = Unorderable

  /** Some descriptor with video, audio and mp4 has height `h`. */
  predicate HasQualifying(formats: seq<Format>, h: Height) {
    exists j :: 0 <= j < |formats| && Qualifies(formats[j]) && formats[j].height == h
  }

  predicate NoDuplicates(hs: seq<Height>) {
    forall i, j :: 0 <= i < j < |hs| ==> hs[i] != hs[j]
  }

  /** Every height is present, so Python can order them. */
  predicate AllKnown(hs: seq<Height>) {
    forall i :: 0 <= i < |hs| ==> hs[i].Some?
  }

  /** `a > b` as Python evaluates it on two present heights. */
  predicate Above(a: Height, b: Height) {
    a.Some? && b.Some? && a.value > b.value
  }

  predicate StrictlyDescending(hs: seq<Height>) {
    forall i, j :: 0 <= i < j < |hs| ==> Above(hs[i], hs[j])
  }

  /** The accumulation loop (index.py:31-35): each qualifying height is
      appended the first time it is seen. */
  function Collect(formats: seq<Format>): (hs: seq<Height>)
    ensures NoDuplicates(hs)
    ensures forall h :: h in hs <==> HasQualifying(formats, h)
    decreases |formats|
  {
    if |formats| == 0 then []
    else
      var prev := Collect(formats[..|formats| - 1]);
      var f := formats[|formats| - 1];
      CollectStep(formats, prev);
      if Qualifies(f) && f.height !in prev then prev + [f.height] else prev
  }

  /** The heights qualifying in `formats` are those qualifying in all but
      its last descriptor, plus the last one's when it qualifies. */
  lemma CollectStep(formats: seq<Format>, prev: seq<Height>)
    requires 0 < |formats|
    requires forall h :: h in prev <==> HasQualifying(formats[..|formats| - 1], h)
    ensures forall h :: HasQualifying(formats, h) <==>
      (h in prev || (Qualifies(formats[|formats| - 1]) && formats[|formats| - 1].height == h))
  {
  }

  lemma CollectEmptyIffNoneQualifies(formats: seq<Format>)
    ensures |Collect(formats)| == 0 <==> forall j :: 0 <= j < |formats| ==> !Qualifies(formats[j])
  {
  }

  /** Insert a new known height into a strictly descending sequence. */
  function Insert(x: Height, hs: seq<Height>): (r: seq<Height>)
    requires x.Some? && AllKnown(hs) && StrictlyDescending(hs) && x !in hs
    ensures StrictlyDescending(r)
    ensures AllKnown(r)
    ensures multiset(r) == multiset(hs) + multiset{x}
  {
    if |hs| == 0 then [x]
    else if x.value > hs[0].value then
      assert forall k :: 0 <= k < |hs| ==> Above(x, hs[k]) by {
        forall k | 0 < k < |hs| ensures Above(x, hs[k]) { assert Above(hs[0], hs[k]); }
      }
      [x] + hs
    else
      var rest := Insert(x, hs[1..]);
      InsertStep(x, hs, rest);
      [hs[0]] + rest
  }

  lemma InsertStep(x: Height, hs: seq<Height>, rest: seq<Height>)
    requires x.Some? && AllKnown(hs) && StrictlyDescending(hs) && x !in hs
    requires 0 < |hs| && x.value <= hs[0].value
    requires StrictlyDescending(rest) && AllKnown(rest)
    requires multiset(rest) == multiset(hs[1..]) + multiset{x}
    ensures StrictlyDescending([hs[0]] + rest)
    ensures AllKnown([hs[0]] + rest)
    ensures multiset([hs[0]] + rest) == multiset(hs) + multiset{x}
  {
    assert hs == [hs[0]] + hs[1..];
    assert x != hs[0];
    forall k | 0 <= k < |rest| ensures Above(hs[0], rest[k]) {
      assert rest[k] in multiset(rest);
      if rest[k] != x {
        assert rest[k] in multiset(hs[1..]);
        var m :| 0 <= m < |hs[1..]| && hs[1..][m] == rest[k];
        assert Above(hs[0], hs[m + 1]);
      }
    }
    var r := [hs[0]] + rest;
    forall i, j | 0 <= i < j < |r| ensures Above(r[i], r[j]) {
      if i == 0 {
        assert r[j] == rest[j - 1];
      } else {
        assert r[i] == rest[i - 1] && r[j] == rest[j - 1];
      }
    }
  }

  /** `sorted(hs, reverse=True)` on distinct known heights. */
  function SortDescending(hs: seq<Height>): (r: seq<Height>)
    requires AllKnown(hs) && NoDuplicates(hs)
    ensures StrictlyDescending(r)
    ensures AllKnown(r)
    ensures multiset(r) == multiset(hs)
  {
    if |hs| == 0 then []
    else
      var rest := SortDescending(hs[1..]);
      assert hs[0] !in hs[1..];
      assert hs[0] !in multiset(rest);
      assert hs == [hs[0]] + hs[1..];
      Insert(hs[0], rest)
  }

  /** The whole lister. Sorting fails exactly when a height-less qualifying
      descriptor sits beside a qualifying one with a height: Python then
      compares `None` with an `int`. A lone `None` needs no comparison. */
  function ListAvailableQualities(formats: seq<Format>): (r: Result<seq<Height>, SortError>)
    ensures r.Success? ==> StrictlyDescending(r.value) && NoDuplicates(r.value)
    ensures r.Success? ==> forall h :: h in r.value <==> HasQualifying(formats, h)
    ensures r.Failure? <==> HasQualifying(formats, None) && exists n: int :: HasQualifying(formats, Some(n))
    ensures r.Success? && |r.value| == 0 <==> forall j :: 0 <= j < |formats| ==> !Qualifies(formats[j])
  {
    var hs := Collect(formats);
    CollectEmptyIffNoneQualifies(formats);
    UnorderableIffMixed(formats);
    if AllKnown(hs) then
      var sorted := SortDescending(hs);
      SortedKeepsHeights(hs, sorted);
      Success(sorted)
    else if |hs| == 1 then
      Success(hs)
    else
      Failure(Unorderable)
  }

  /** Sorting keeps exactly the collected heights. */
  lemma SortedKeepsHeights(hs: seq<Height>, sorted: seq<Height>)
    requires multiset(sorted) == multiset(hs)
    ensures forall h :: h in sorted <==> h in hs
    ensures |sorted| == |hs|
  {
    assert forall h :: h in sorted <==> h in multiset(sorted);
    assert forall h :: h in hs <==> h in multiset(hs);
    assert |sorted| == |multiset(sorted)|;
  }

  /** The collected heights cannot be ordered exactly when both a missing
      and a present height qualify. */
  lemma UnorderableIffMixed(formats: seq<Format>)
    ensures (!AllKnown(Collect(formats)) && |Collect(formats)| != 1)
        <==> (HasQualifying(formats, None) && exists n: int :: HasQualifying(formats, Some(n)))
  {
    var hs := Collect(formats);
    if !AllKnown(hs) && |hs| != 1 {
      var i :| 0 <= i < |hs| && hs[i].None?;
      assert hs[i] in hs;
      var k := if i == 0 then 1 else 0;
      assert hs[k] != hs[i];
      assert hs[k] in hs;
      assert HasQualifying(formats, Some(hs[k].value));
    }
    if HasQualifying(formats, None) && exists n: int :: HasQualifying(formats, Some(n)) {
      var n: int :| HasQualifying(formats, Some(n));
      assert None in hs && Some(n) in hs;
      var i :| 0 <= i < |hs| && hs[i] == None;
      assert !AllKnown(hs);
    }
  }

  /** The head of a strictly descending sequence is above every other
      element. */
  lemma HeadIsMaximum(a: seq<Height>, h: Height)
    requires StrictlyDescending(a) && h in a
    ensures h == a[0] || Above(a[0], h)
  {
  }

  /** A strictly descending sequence is determined by its elements: the
      lister's answer is the one descending enumeration of the qualifying
      heights, whatever order the engine listed them in. */
  lemma {:induction false} DescendingIsUnique(a: seq<Height>, b: seq<Height>)
    requires StrictlyDescending(a) && StrictlyDescending(b)
    requires forall h :: h in a <==> h in b
    ensures a == b
  {
    assert |a| > 0 ==> a[0] in b;
    assert |b| > 0 ==> b[0] in a;
    if |a| > 0 && |b| > 0 {
      HeadIsMaximum(a, b[0]);
      HeadIsMaximum(b, a[0]);
      forall h ensures h in a[1..] <==> h in b[1..] {
        if h in a[1..] {
          var i :| 1 <= i < |a| && a[i] == h;
          assert Above(a[0], a[i]);
          assert h in b;
        }
        if h in b[1..] {
          var j :| 1 <= j < |b| && b[j] == h;
          assert Above(b[0], b[j]);
          assert h in a;
        }
      }
      DescendingIsUnique(a[1..], b[1..]);
      assert a == [a[0]] + a[1..] && b == [b[0]] + b[1..];
    }
  }
}
