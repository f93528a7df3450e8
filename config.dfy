// The shared configuration constants (js/shared/config.js).

module Config {

  import opened Common

  const CACHE_KEY: string := "yt_realname_store"
  const DEFAULT_MAX_LENGTH: nat := 20
  const DEFAULT_TTL_DAYS: int := 15
  const DEFAULT_DELETE_DAYS: int := 30

  const SECOND_MS: int := 1000
  const HOUR_MS: int := 60 * 60 * SECOND_MS
  const DAY_MS: int := 24 * HOUR_MS

  /** How long a cached name counts as fresh: seven days. */
  const TTL: int := 7 * DAY_MS

  /** The fetch-speed presets, keyed "NORMAL" and "SLOW". */
  datatype Preset = Preset(min: int, max: int)

  function SpeedPreset(mode: string): (p: Option<Preset>)
    ensures p.Some? <==> mode == "NORMAL" || mode == "SLOW"
    ensures p.Some? ==> 0 < p.value.min <= p.value.max
  {
    if mode == "NORMAL" then Some(Preset(1200, 2500))
    else if mode == "SLOW" then Some(Preset(3500, 6000))
    else None
  }
}
