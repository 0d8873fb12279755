# yt-downloader: the console downloader's decision logic in Dafny

The console downloader `index.py` asks the yt-dlp engine for the stream
descriptors ("formats") of a video, lists the heights it can offer, lets the
user choose one, resolves that choice to a single descriptor and downloads it
with a tqdm progress bar. The engine, tqdm and the console are external. This
project models the repository's own logic and proves its properties:

- `chooser.dfy` (module `Chooser`): `choose_format`. For each preferred height
  in order, it returns the first descriptor with that height, an `mp4`
  container and an audio codec other than `'none'`.
- `qualities.dfy` (module `Qualities`): `list_available_qualities`. It returns
  the distinct heights of descriptors that have video, audio and `mp4`,
  sorted in descending order.
- `selection.dfy` (module `Selection`): the decisions of `main`. These are the
  early exits, the menu choice mapped to a preference list, and the fallback
  to the full quality list.
- `progress.dfy` (module `Progress`): `TqdmHook.__call__` as a pure transition
  over "no bar yet" or a bar `(total, n)`.
- `formats.dfy` (module `Formats`): the descriptor record and the two filters.
- `wrappers.dfy` (module `Wrappers`): `Option` and `Result`.

Modelling choices:

- Every descriptor field is what `dict.get` returns, so it is an `Option`.
  Python's `None != 'none'` is true, so a missing codec counts as present.
- A height is `Option<int>`. Preference lists hold heights, so the fallback
  call `choose_format(formats, qualities)` has a type even when the listed
  qualities are `[None]`. Python's `None == None` then matches a descriptor
  that has no height.
- `sorted(qualities, reverse=True)` raises `TypeError` when it has to compare
  `None` with an `int`. That happens exactly when a height-less qualifying
  descriptor sits beside one with a height. The lister returns `Failure` in
  that case. A lone `None` is returned unsorted, as Python does.
- `if self.pbar:` tests a tqdm bar's truth value. tqdm defines that as
  `total != 0` when the total is known. So `finished` leaves a bar whose total
  is 0 unchanged (`BarTruthy`).
- A `finished` event with no bar does nothing in the console hook
  (index.py:51-52). The dashboard's own hook, which is not modelled, is
  different: it always sets its progress to 1.0 (yt_downloader.py:292-293).
  `NoDownloadNoBar` states the console behaviour.
- `main` is a pure function from three inputs to an `Outcome`. The inputs
  are the stripped URL, the formats from the metadata lookup (`None` when the
  lookup failed) and the parsed menu number (`None` when `int()` rejects the
  text, which counts as 0). The outcome is the exit taken, or the
  `format_id` and descriptor passed to the downloader.
- The resolver tests height, container and audio but never the video codec
  (index.py:25), while the lister also demands video (index.py:33). The
  descriptor handed to the downloader is therefore an mp4 with audio, but it
  need not have a video track. Picking a quality from the menu can download
  an audio-only entry of that height if the engine lists one first.
  `SelectionMayLackVideo` shows such an input.
- `Selection.IsSelection` is the reference definition of the descriptor that
  `main` settles on. It is the resolver's choice for the menu's preference
  list, or its choice for the listed qualities when that list has no match.
- Some members are plain definitions with no contract of their own, so the
  table has no row for them. The filters `Formats.Matches` (index.py:25) and
  `Formats.Qualifies` (index.py:33) and tqdm's truth test
  `Progress.BarTruthy` (index.py:52) are stated through the resolver, the
  lister and `Step`. Three more are the following. `Selection.ChoiceOf` turns the parsed menu number
  into a choice, with text that `int()` rejects counting as 0
  (index.py:94-97). `Progress.InitialTotal` is the `or` chain that gives a new
  bar its total (index.py:46). `Progress.Downloaded` is
  `d.get('downloaded_bytes', 0)` (index.py:48). Their meaning is stated
  through `Main`, `FirstDownloadFixesTotal`, `FinishedFillsBar`, `Step` and
  `CountFollowsLastDownload`.

## Model

| member | source | states |
|---|---|---|
| Formats.QualifiesMatchesOwnHeight | index.py:25-33 | the listing filter (video, audio, mp4) implies the choosing filter for the descriptor's own height |
| Chooser.FirstMatch | index.py:24-26 | finds a descriptor iff one matches the height; the result is the earliest matching descriptor in the engine's order |
| Chooser.ChooseFormat | index.py:21-27 | returns a descriptor iff some (preference, descriptor) pair matches; it is None for an empty preference or format list; a result comes from `formats`, is mp4, has audio, has a preferred height, and is the reference choice (earliest preference with a match, earliest descriptor for it) |
| Chooser.ChoiceIsUnique | index.py:23-26 | the reference choice (earliest matching preference, then earliest matching descriptor) is unique |
| Chooser.ChooseFormatIsReference | index.py:21-27 | the resolver answers `f` if and only if `f` is the reference choice |
| Chooser.ChooseFormatFallsThrough | index.py:23-27 | resolving `front + back` is resolving `front`, or `back` only when `front` finds nothing |
| Chooser.FirstPreferenceWins | index.py:23-26 | when the first preference has a match, the answer is the first descriptor matching it, so it has exactly that height |
| Qualities.Collect | index.py:31-35 | the accumulated list has no duplicates and holds a height iff some descriptor with video, audio and mp4 has it |
| Qualities.Insert | index.py:36 | inserting a new height keeps a sequence strictly descending and adds exactly that element |
| Qualities.SortDescending | index.py:36 | distinct known heights sort into a strictly descending permutation |
| Qualities.ListAvailableQualities | index.py:29-36 | on success the result is strictly descending, has no duplicates, and holds exactly the qualifying heights; it fails iff a missing and a present height both qualify; it is empty iff no descriptor qualifies |
| Qualities.UnorderableIffMixed | index.py:36 | the collected heights cannot be ordered exactly when both `None` and some integer height qualify |
| Qualities.DescendingIsUnique | index.py:36 | two strictly descending sequences with the same elements are equal, so the listed order does not depend on the engine's order |
| Selection.PreferenceFor | index.py:98-105 | a choice in `1..len(qualities)` yields `[qualities[choice-1]]`; 0 and every other number yield `[1080, 720, 360]` |
| Selection.ListedHeightMatches | index.py:25-35 | every listed height has a descriptor the resolver accepts for it |
| Selection.FallbackSucceeds | index.py:106-111 | with a non-empty quality list the fallback always finds a descriptor, and it has the highest qualifying height |
| Selection.MenuChoiceAvailable | index.py:101-102 | a quality picked from the menu always resolves, to a descriptor of exactly that height |
| Selection.SelectFormat | index.py:98-108 | the selection always yields a descriptor, and it is the one `IsSelection` defines. It comes from `formats`, is mp4 and has audio. A menu pick yields the first descriptor, in the engine's order, that matches the picked height. Otherwise the result is the reference choice for `[1080, 720, 360]` when that list matches, and the reference choice for the listed qualities when it does not; that choice has the highest listed height |
| Selection.SelectionIsUnique | index.py:98-108 | at most one descriptor is the selection, so the selection determines the downloaded descriptor |
| Selection.Main | index.py:72-112 | each early exit is taken exactly when its condition holds and the earlier ones do not: empty URL, failed lookup, no formats, unsortable heights, no qualities. The "No suitable format found" exit is never taken. Past the quality check every run ends in a download or a missing `format_id`. A download hands over the selection with its own `format_id`; when a menu entry was picked, that descriptor has the picked height. The missing-`format_id` exit is taken only when the selection has no `format_id` |
| Selection.SelectionMayLackVideo | index.py:25-33 | a concrete input where a menu pick of 720 downloads a 720p mp4 entry with no video track, because the resolver does not test the video codec |
| Selection.MainDownloadsSelection | index.py:98-112 | past the early exits, `main` downloads `f` under `id` exactly when `f` is the selection and its `format_id` is `id` |
| Progress.Step | index.py:43-55 | `downloading` always leaves a bar counting `downloaded_bytes` (0 when absent); an existing bar keeps its total and is never removed; `finished` fills a bar with non-zero total and otherwise changes nothing; other statuses change nothing |
| Progress.BarPersists | index.py:45-47 | once a bar exists every later event sequence keeps it and its total |
| Progress.NoDownloadNoBar | index.py:51-55 | events without a `downloading` status never create a bar |
| Progress.FirstDownloadFixesTotal | index.py:44-47 | after any event sequence, the bar's total is the one computed from the first `downloading` event |
| Progress.CountFollowsLastDownload | index.py:48-49 | after a `downloading` event the bar shows exactly that event's downloaded bytes, whatever came before |
| Progress.FinishedFillsBar | index.py:51-53 | `finished` after a download whose initial total is non-zero leaves `n == total` |

## Left out

- `get_video_info` and `download_with_progress` apart from its `TqdmHook` (index.py:7-19, 38-39, 56-70) call the yt-dlp engine over the network. `Main` takes the lookup's result as a parameter and stops at the download call.
- Console I/O, `input().strip()`, the `int()` parse, `sys.exit`, `os.makedirs` and `os.getcwd` in `main`. The URL and the parsed number are parameters; the exits are `Outcome` values.
- tqdm rendering (`refresh`, `close`, the "Download completed!" line). A closed bar is still a bar in the model, as it is in the code.
- An info dictionary that is empty: it makes `main` take the failed-lookup exit (index.py:79-81), the same as `info = None` here. An info dictionary whose `formats` key holds `None` takes the "No downloadable formats found." exit (index.py:82-85), the same as `info = Some([])` here. `Main` takes the formats list directly.
- Selection.Main: a `format_id` key present with the value `None` is treated like a missing key, so the model answers `NoFormatId`. Python raises `KeyError` only for a missing key. With `None` it calls the downloader with `None` (index.py:112-116). A descriptor's fields are `dict.get` results, which cannot tell the two apart, and the engine always supplies a string identifier.
- A progress dictionary without a `status` key: `d['status']` would raise `KeyError` (index.py:44, 51). `Event.status` is always present, because the engine always sends one.
- `downloaded_bytes` present with the value `None`: `d.get('downloaded_bytes', 0)` would then yield `None`. The engine always sends an integer there.
- Heights or byte counts that are floats or other non-integer values.
- yt_downloader.py, the browser dashboard, is not part of this model. It is Streamlit rendering, engine configuration strings, wall-clock formatting and filesystem handling.
