/** The decision logic of `main` (index.py:72-112) with its console I/O
    replaced by parameters: which exit it takes, or which descriptor it
    hands to the downloader. */
module Selection {
  import opened Wrappers
  import opened Formats
  import opened Chooser
  import opened Qualities

  /** The "best available" order of menu entry 0 (index.py:98). */
  const DefaultPreference: seq<Height> := [Some(1080), Some(720), Some(360)]

  /** The menu number typed by the user; text that `int()` rejects
      (`None` here) counts as 0 (index.py:94-97). */
  function ChoiceOf(input: Option<int>): int {
    match input
    case None => 0
    case Some(n) => n
  }

  /** The preference list a menu choice stands for (index.py:98-105): a
      listed quality for `1..|qualities|`, the default order for 0 and for
      every number outside the menu. */
  function PreferenceFor(choice: int, qualities: seq<Height>): (p: seq<Height>)
    ensures 1 <= choice <= |qualities| ==> p == [qualities[choice - 1]]
    ensures !(1 <= choice <= |qualities|) ==> p == DefaultPreference
  {
    if choice == 0 then DefaultPreference
    else if 1 <= choice <= |qualities| then [qualities[choice - 1]]
    else DefaultPreference
  }

  /** Every listed height has a descriptor the resolver accepts for it. */
  lemma ListedHeightMatches(formats: seq<Format>, qualities: seq<Height>, k: int)
    requires ListAvailableQualities(formats) == Success(qualities)
    requires 0 <= k < |qualities|
    ensures AnyMatch(formats, qualities[k])
  {
    assert qualities[k] in qualities;
    var j :| 0 <= j < |formats| && Qualifies(formats[j]) && formats[j].height == qualities[k];
    QualifiesMatchesOwnHeight(formats[j]);
  }

  /** Fallback soundness (index.py:106-111): resolving against the listed
      qualities always succeeds once the list is non-empty, and it picks the
      highest listed height. */
  lemma FallbackSucceeds(formats: seq<Format>, qualities: seq<Height>)
    requires ListAvailableQualities(formats) == Success(qualities)
    requires 0 < |qualities|
    ensures ChooseFormat(formats, qualities).Some?
    ensures ChooseFormat(formats, qualities).value.height == qualities[0]
    ensures forall h :: HasQualifying(formats, h) ==> h == qualities[0] || Above(qualities[0], h)
  {
    ListedHeightMatches(formats, qualities, 0);
    var j :| 0 <= j < |formats| && Matches(formats[j], qualities[0]);
    FirstPreferenceWins(formats, qualities, j);
    forall h | HasQualifying(formats, h) ensures h == qualities[0] || Above(qualities[0], h) {
      HeadIsMaximum(qualities, h);
    }
  }

  /** A quality picked from the menu is always available and is exactly
      the height downloaded (index.py:101-102). */
  lemma MenuChoiceAvailable(formats: seq<Format>, qualities: seq<Height>, k: int)
    requires ListAvailableQualities(formats) == Success(qualities)
    requires 0 <= k < |qualities|
    ensures ChooseFormat(formats, [qualities[k]]).Some?
    ensures ChooseFormat(formats, [qualities[k]]).value.height == qualities[k]
  {
    ListedHeightMatches(formats, qualities, k);
    var j :| 0 <= j < |formats| && Matches(formats[j], qualities[k]);
    FirstPreferenceWins(formats, [qualities[k]], j);
  }

  /** Reference definition of the descriptor `main` settles on
      (index.py:98-108): the resolver's choice for the menu's preference list,
      or, when that list has no match, its choice for the listed qualities. */
  ghost predicate IsSelection(formats: seq<Format>, qualities: seq<Height>, choice: int, f: Format) {
    var p := PreferenceFor(choice, qualities);
    if AnyPairMatch(formats, p) then IsChoice(formats, p, f) else IsChoice(formats, qualities, f)
  }

  /** At most one descriptor is the selection. */
  lemma SelectionIsUnique(formats: seq<Format>, qualities: seq<Height>, choice: int, g: Format)
    requires IsSelection(formats, qualities, choice, g)
    ensures forall f :: IsSelection(formats, qualities, choice, f) ==> f == g
  {
  }

  /** The choice, preference and fallback steps (index.py:98-108), reached
      only once the listed qualities are known to be non-empty
      (index.py:86-89). */
  function SelectFormat(formats: seq<Format>, qualities: seq<Height>, choice: int): (r: Option<Format>)
    requires ListAvailableQualities(formats) == Success(qualities)
    requires 0 < |qualities|
    ensures r.Some?
    ensures IsSelection(formats, qualities, choice, r.value)
    ensures r.value in formats && IsMp4(r.value) && HasAudio(r.value)
    ensures 1 <= choice <= |qualities| ==>
              IsChoice(formats, [qualities[choice - 1]], r.value) && r.value.height == qualities[choice - 1]
    ensures !(1 <= choice <= |qualities|) && AnyPairMatch(formats, DefaultPreference) ==>
              IsChoice(formats, DefaultPreference, r.value)
    ensures !(1 <= choice <= |qualities|) && !AnyPairMatch(formats, DefaultPreference) ==>
              IsChoice(formats, qualities, r.value) && r.value.height == qualities[0]
  {
    var first := ChooseFormat(formats, PreferenceFor(choice, qualities));
    assert 1 <= choice <= |qualities| ==> first.Some? && first.value.height == qualities[choice - 1] by {
      if 1 <= choice <= |qualities| {
        MenuChoiceAvailable(formats, qualities, choice - 1);
      }
    }
    FallbackSucceeds(formats, qualities);
    if first.Some? then first else ChooseFormat(formats, qualities)
  }

  /** How one run of the console program ends. */
  datatype Outcome =
    | NoUrl             // empty URL, exit 1 (index.py:75-77)
    | NoInfo            // metadata lookup failed, exit 1 (index.py:79-81)
    | NoFormats         // no descriptors at all, exit 1 (index.py:83-85)
    | UnsortableHeights // `sorted` raises TypeError (index.py:36)
    | NoQualities       // nothing qualifies, exit 1 (index.py:87-89)
    | NoFormatFound     // resolver and fallback both failed, exit 1 (index.py:109-111)
    | NoFormatId        // `fmt['format_id']` raises KeyError (index.py:112)
    | Download(formatId: string, chosen: Format)  // handed to the downloader

  /** The inputs get past every early exit of `main` (index.py:75-89). */
  predicate PastQualityCheck(url: string, info: Option<seq<Format>>) {
    && 0 < |url|
    && info.Some?
    && 0 < |info.value|
    && ListAvailableQualities(info.value).Success?
    && 0 < |ListAvailableQualities(info.value).value|
  }

  /** `main` up to the download call. `url` is the stripped input line,
      `info` the formats of the metadata lookup (`None` when the lookup
      failed), `choiceInput` the parsed menu number. */
  function Main(url: string, info: Option<seq<Format>>, choiceInput: Option<int>): (r: Outcome)
    ensures r.NoUrl? <==> |url| == 0
    ensures r.NoInfo? <==> 0 < |url| && info.None?
    ensures r.NoFormats? <==> 0 < |url| && info.Some? && |info.value| == 0
    ensures r.UnsortableHeights? <==>
              0 < |url| && info.Some? && 0 < |info.value| && ListAvailableQualities(info.value).Failure?
    ensures r.NoQualities? <==>
              && 0 < |url| && info.Some? && 0 < |info.value|
              && ListAvailableQualities(info.value).Success?
              && |ListAvailableQualities(info.value).value| == 0
    ensures r != NoFormatFound
    ensures PastQualityCheck(url, info) ==> r.Download? || r.NoFormatId?
    ensures r.Download? ==>
              && PastQualityCheck(url, info)
              && IsSelection(info.value, ListAvailableQualities(info.value).value, ChoiceOf(choiceInput), r.chosen)
              && r.chosen in info.value && IsMp4(r.chosen) && HasAudio(r.chosen)
              && r.chosen.formatId == Some(r.formatId)
    ensures r.NoFormatId? ==>
              && PastQualityCheck(url, info)
              && forall f :: IsSelection(info.value, ListAvailableQualities(info.value).value, ChoiceOf(choiceInput), f) ==>
                   f.formatId.None?
    ensures r.Download? && ListAvailableQualities(info.value).Success? &&
            1 <= ChoiceOf(choiceInput) <= |ListAvailableQualities(info.value).value| ==>
              r.chosen.height == ListAvailableQualities(info.value).value[ChoiceOf(choiceInput) - 1]
  {
    if |url| == 0 then NoUrl
    else if info.None? then NoInfo
    else if |info.value| == 0 then NoFormats
    else match ListAvailableQualities(info.value)
      case Failure(_) => UnsortableHeights
      case Success(qualities) =>
        if |qualities| == 0 then NoQualities
        else
          var fmt := SelectFormat(info.value, qualities, ChoiceOf(choiceInput));
          SelectionIsUnique(info.value, qualities, ChoiceOf(choiceInput), fmt.value);
          if fmt.None? then NoFormatFound
          else if fmt.value.formatId.None? then NoFormatId
          else Download(fmt.value.formatId.value, fmt.value)
  }

  /** Past the early exits, `main` downloads `f` under `id` exactly when `f`
      is the selection and carries that `format_id` (index.py:98-112). */
  lemma MainDownloadsSelection(url: string, formats: seq<Format>, choiceInput: Option<int>, id: string, f: Format)
    requires PastQualityCheck(url, Some(formats))
    ensures Main(url, Some(formats), choiceInput) == Download(id, f) <==>
              IsSelection(formats, ListAvailableQualities(formats).value, ChoiceOf(choiceInput), f)
              && f.formatId == Some(id)
  {
  }

  /** The resolver never tests the video codec (index.py:25), so a menu pick
      can hand over an audio-only descriptor. Here the first 720p mp4 entry
      has no video track, and picking 720 from the menu downloads it, not
      the 720p entry with video that put 720 on the menu. */
  lemma SelectionMayLackVideo()
    ensures var audioOnly := Format(Some(720), Some(Mp4), Some(NoTrack), Some("aac"), Some("a"));
            var withVideo := Format(Some(720), Some(Mp4), Some("avc1"), Some("aac"), Some("b"));
            && Main("u", Some([audioOnly, withVideo]), Some(1)) == Download("a", audioOnly)
            && !HasVideo(audioOnly)
  {
  }
}
