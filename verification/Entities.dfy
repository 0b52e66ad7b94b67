/** The values that pass between the components (src/domain/entities.py). */
module Entities {
  import opened Text

  newtype byte = x: int | 0 <= x < 256

  type Bytes = seq<byte>

  function Ascii(s: string): Bytes {
    seq(|s|, i requires 0 <= i < |s| => (s[i] as int % 256) as byte)
  }

  type Time = real

  type Headers = map<string, string>

  /** A stored response. */
  datatype CacheEntry = CacheEntry(
    content: Bytes,
    headers: Headers,
    etag: Option<string>,
    createdAt: Time,
    ttl: Time,
    lastAccessed: Time,
    size: nat,
    statusCode: int,
    staleWhileRevalidate: Time,
    varyHeaders: Option<seq<string>>
  ) {
    predicate IsExpired(now: Time) { now - createdAt > ttl }

    /** Expired, but still inside the stale-while-revalidate window. */
    predicate IsStaleServable(now: Time) {
      now - createdAt > ttl && now - createdAt <= ttl + staleWhileRevalidate
    }

    function Touch(now: Time): CacheEntry { this.(lastAccessed := now) }
  }

  /** What the origin sent. */
  datatype OriginResponse = OriginResponse(
    content: Bytes,
    statusCode: int,
    headers: Headers,
    etag: Option<string>
  )
}
