/** Stream descriptors as the extraction engine reports them, and the two
    filters index.py applies to them. */
module Formats {
  import opened Wrappers

  /** A height in pixels; `None` when the descriptor has no `height` key. */
  type Height = Option<int>

  /** A stream descriptor. Every field is what `f.get(key)` yields, so a
      missing key is `None`. */
  datatype Format = Format(
    height: Height,
    ext: Option<string>,
    vcodec: Option<string>,
    acodec: Option<string>,
    formatId: Option<string>)

  /** The container both filters demand. */
  const Mp4: string := "mp4"

  /** The engine's sentinel for "no such track". */
  const NoTrack: string := "none"

  /** The audio-track test `f.get('acodec') != 'none'`: a missing codec
      (`None`) is not the string `'none'`, so it counts as present. */
  predicate HasAudio(f: Format) {
    f.acodec != Some(NoTrack)
  }

  /** The video-track test `f.get('vcodec') != 'none'`. */
  predicate HasVideo(f: Format) {
    f.vcodec != Some(NoTrack)
  }

  predicate IsMp4(f: Format) {
    f.ext == Some(Mp4)
  }

  /** The test of `choose_format`: the descriptor has height `res`, is an
      mp4 and has audio. */
  predicate Matches(f: Format, res: Height) {
    f.height == res && IsMp4(f) && HasAudio(f)
  }

  /** The test of `list_available_qualities`: video, audio and mp4. */
  predicate Qualifies(f: Format) {
    HasVideo(f) && HasAudio(f) && IsMp4(f)
  }

  /** The listing filter is stricter than the choosing filter: a qualifying
      descriptor matches its own height. */
  lemma QualifiesMatchesOwnHeight(f: Format)
    requires Qualifies(f)
    ensures Matches(f, f.height)
  {
  }
}
