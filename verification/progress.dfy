/** The progress hook `TqdmHook.__call__` (index.py:40-55) as a pure state
    transition. The tqdm bar is abstracted to its `total` and its count `n`;
    rendering, `refresh`, `close` and printing are left out. */
module Progress {
  import opened Wrappers

  /** A tqdm bar as far as the hook changes it. */
  datatype Bar = Bar(total: int, n: int)

  /** `self.pbar`: `None` until the first download event creates a bar. */
  type HookState = Option<Bar>

  /** One progress dictionary from the engine. The byte counts are what
      `d.get(key)` yields, so a missing key is `None`. */
  datatype Event = Event(
    status: string,
    totalBytes: Option<int>,
    totalBytesEstimate: Option<int>,
    downloadedBytes: Option<int>)

  const Downloading: string := "downloading"
  const Finished: string := "finished"

  /** Python truthiness of a byte count: `None` and `0` are false. */
  predicate Truthy(count: Option<int>) {
    count.Some? && count.value != 0
  }

  /** `d.get('total_bytes') or d.get('total_bytes_estimate') or 0`
      (index.py:46). */
  function InitialTotal(e: Event): int {
    if Truthy(e.totalBytes) then e.totalBytes.value
    else if Truthy(e.totalBytesEstimate) then e.totalBytesEstimate.value
    else 0
  }

  /** `d.get('downloaded_bytes', 0)` (index.py:48). */
  function Downloaded(e: Event): int {
    match e.downloadedBytes
    case None => 0
    case Some(n) => n
  }

  /** `if self.pbar:` (index.py:52) tests the bar's truth value, and a tqdm
      bar with a known total is true exactly when that total is not 0. */
  predicate BarTruthy(b: Bar) {
    b.total != 0
  }

  /** One call of the hook. */
  function Step(s: HookState, e: Event): (r: HookState)
    ensures e.status == Downloading ==> r.Some? && r.value.n == Downloaded(e)
    ensures e.status == Downloading && s.None? ==> r.value.total == InitialTotal(e)
    ensures s.Some? ==> r.Some? && r.value.total == s.value.total
    ensures e.status == Finished && s.Some? && BarTruthy(s.value) ==>
              r == Some(Bar(s.value.total, s.value.total))
    ensures e.status != Downloading && (s.None? || !BarTruthy(s.value)) ==> r == s
    ensures e.status != Downloading && e.status != Finished ==> r == s
  {
    if e.status == Downloading then
      var total := if s.None? then InitialTotal(e) else s.value.total;
      Some(Bar(total, Downloaded(e)))
    else if e.status == Finished then
      if s.Some? && BarTruthy(s.value) then Some(Bar(s.value.total, s.value.total)) else s
    else s
  }

  /** The hook's state after the engine delivers `events` in order. */
  function Run(s: HookState, events: seq<Event>): HookState
    decreases |events|
  {
    if |events| == 0 then s else Run(Step(s, events[0]), events[1..])
  }

  /** Delivering one more event is one more step. */
  lemma {:induction false} RunSnoc(s: HookState, events: seq<Event>, e: Event)
    ensures Run(s, events + [e]) == Step(Run(s, events), e)
    decreases |events|
  {
    if |events| == 0 {
      assert events + [e] == [e];
    } else {
      assert (events + [e])[0] == events[0];
      assert (events + [e])[1..] == events[1..] + [e];
      RunSnoc(Step(s, events[0]), events[1..], e);
    }
  }

  /** Once created, the bar is never re-created: it survives every later
      event and keeps its total. */
  lemma {:induction false} BarPersists(s: HookState, events: seq<Event>)
    requires s.Some?
    ensures Run(s, events).Some?
    ensures Run(s, events).value.total == s.value.total
    decreases |events|
  {
    if |events| > 0 {
      BarPersists(Step(s, events[0]), events[1..]);
    }
  }

  /** Without a download event no bar ever exists, so `finished` alone
      changes nothing (index.py:51-52). */
  lemma {:induction false} NoDownloadNoBar(events: seq<Event>)
    requires forall i :: 0 <= i < |events| ==> events[i].status != Downloading
    ensures Run(None, events) == None
    decreases |events|
  {
    if |events| > 0 {
      NoDownloadNoBar(events[1..]);
    }
  }

  /** The bar's total is fixed by the first download event (index.py:45-47). */
  lemma {:induction false} FirstDownloadFixesTotal(events: seq<Event>, i: int)
    requires 0 <= i < |events| && events[i].status == Downloading
    requires forall k :: 0 <= k < i ==> events[k].status != Downloading
    ensures Run(None, events).Some?
    ensures Run(None, events).value.total == InitialTotal(events[i])
    decreases i
  {
    if i == 0 {
      BarPersists(Step(None, events[0]), events[1..]);
    } else {
      assert Step(None, events[0]) == None;
      FirstDownloadFixesTotal(events[1..], i - 1);
    }
  }

  /** After a download event the bar shows exactly its downloaded bytes,
      whatever came before (index.py:48-49). */
  lemma CountFollowsLastDownload(s: HookState, events: seq<Event>, e: Event)
    requires e.status == Downloading
    ensures Run(s, events + [e]).Some?
    ensures Run(s, events + [e]).value.n == Downloaded(e)
  {
    RunSnoc(s, events, e);
  }

  /** `finished` after a download with a non-zero total fills the bar
      (index.py:51-53). */
  lemma FinishedFillsBar(events: seq<Event>, i: int, e: Event)
    requires 0 <= i < |events| && events[i].status == Downloading
    requires forall k :: 0 <= k < i ==> events[k].status != Downloading
    requires InitialTotal(events[i]) != 0
    requires e.status == Finished
    ensures Run(None, events + [e]) == Some(Bar(InitialTotal(events[i]), InitialTotal(events[i])))
  {
    FirstDownloadFixesTotal(events, i);
    RunSnoc(None, events, e);
  }
}
