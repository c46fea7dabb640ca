/** Staleness rule for cached photo references (app/utils/photoCache.ts). */
module PhotoCache {
  import opened Common

  /** Time to live of a cached photo reference: 7 days, in milliseconds. */
  const PHOTO_TTL: int := 7 * 24 * 60 * 60 * 1000

  /**
   * A photo is stale when its update time is unknown, or when more than the
   * TTL has elapsed at `now`. Times are integer milliseconds since the epoch.
   */
  predicate IsPhotoStale(photoUpdated: Option<int>, now: int) {
    match photoUpdated
    case None => true
    case Some(updated) => now - updated > PHOTO_TTL
  }

  lemma TtlIsSevenDays()
    ensures PHOTO_TTL == 604_800_000
  {
  }

  lemma NullIsStale(now: int)
    ensures IsPhotoStale(None, now)
  {
  }

  /** With a known timestamp, stale exactly when the age exceeds 604,800,000 ms. */
  lemma StaleIffOlderThanTtl(updated: int, now: int)
    ensures IsPhotoStale(Some(updated), now) <==> now - updated > 604_800_000
  {
  }

  /** The comparison is strict: an age of exactly the TTL is still fresh. */
  lemma AgeOfExactlyTtlIsFresh(updated: int)
    ensures !IsPhotoStale(Some(updated), updated + PHOTO_TTL)
    ensures IsPhotoStale(Some(updated), updated + PHOTO_TTL + 1)
  {
  }

  /** Once stale, a photo stays stale as time moves forward. */
  lemma StaleIsMonotone(photoUpdated: Option<int>, t: int, t': int)
    requires t <= t'
    requires IsPhotoStale(photoUpdated, t)
    ensures IsPhotoStale(photoUpdated, t')
  {
  }

  /** A timestamp in the future (negative age) is fresh. */
  lemma FutureTimestampIsFresh(updated: int, now: int)
    requires now < updated
    ensures !IsPhotoStale(Some(updated), now)
  {
  }
}
