/**
 * The progress write both EPUB reader components schedule: the same save effect, a
 * write one second after the location or percentage last changed, guarded by
 * `currentLocation && percentage >= 0`.
 */
module EpubProgress {
  import opened Wrappers

  /** `!!currentLocation`. */
  function HasLocation(location: Option<string>): (b: bool)
    ensures b <==> location.Some? && |location.value| > 0
  {
    location.Some? && location.value != ""
  }

  /** A progress write. */
  datatype Write = Write(location: string, percentage: int)

  /** The save effect's request: a write only with a location and a non-negative percentage. */
  function SaveRequest(location: Option<string>, percentage: int): (r: Option<Write>)
    ensures r.Some? <==> HasLocation(location) && percentage >= 0
    ensures r.Some? ==> r.value == Write(location.value, percentage)
  {
    if HasLocation(location) && percentage >= 0 then Some(Write(location.value, percentage)) else None
  }
}
