/**
 * Datetimes as the bot handles them, and `ensure_utc` (bot/utils.py).
 * A `datetime` is its wall-clock reading, in seconds on a linear scale, plus an
 * optional zone; a naive datetime has no zone. A zone is a fixed offset from UTC.
 */
module Utils {
  import opened Wrappers

  const SecondsPerDay: int := 86400

  /** A `tzinfo`: seconds east of UTC. */
  datatype Zone = Zone(utcOffset: int)

  const UTC: Zone := Zone(0)

  datatype DateTime = DateTime(wall: int, tzinfo: Option<Zone>)

  predicate IsAware(dt: DateTime) {
    dt.tzinfo.Some?
  }

  /** The UTC instant, in seconds, that an aware datetime denotes. */
  function Instant(dt: DateTime): int
    requires IsAware(dt)
  {
    dt.wall - dt.tzinfo.value.utcOffset
  }

  /** `dt - timedelta(days=days)`: wall-clock arithmetic that keeps the zone. */
  function MinusDays(dt: DateTime, days: int): DateTime {
    DateTime(dt.wall - days * SecondsPerDay, dt.tzinfo)
  }

  /**
   * `ensure_utc(dt)`: a naive datetime gets UTC attached through `replace`
   * (the wall clock is kept, nothing is converted); an aware one is returned as is.
   */
  function EnsureUtc(dt: DateTime): (r: DateTime)
    ensures r.wall == dt.wall
    ensures IsAware(r)
    ensures IsAware(dt) ==> r == dt
    ensures !IsAware(dt) ==> r.tzinfo == Some(UTC) && Instant(r) == dt.wall
  {
    if dt.tzinfo.None? then dt.(tzinfo := Some(UTC)) else dt
  }

  /** A `datetime.time` with hour and minute; seconds are always zero here. */
  datatype TimeOfDay = TimeOfDay(hour: int, minute: int)

  /** `time(hour, minute)`: `None` stands for the ValueError on an out-of-range field. */
  function MakeTime(hour: int, minute: int): (r: Option<TimeOfDay>)
    ensures r.Some? <==> 0 <= hour < 24 && 0 <= minute < 60
    ensures r.Some? ==> r.value.hour == hour && r.value.minute == minute
  {
    if 0 <= hour < 24 && 0 <= minute < 60 then Some(TimeOfDay(hour, minute)) else None
  }

  lemma EnsureUtcIdempotent(dt: DateTime)
    ensures EnsureUtc(EnsureUtc(dt)) == EnsureUtc(dt)
  {
  }
}
