/** Keys that expire, as the shared store keeps them. Times are milliseconds. */
module RedisKeys {
  /** A key with its expiry; from `expiresAt` on it no longer exists. */
  datatype Key<+T> = Absent | Present(value: T, expiresAt: int)

  predicate Exists<T>(k: Key<T>, now: int) {
    k.Present? && now < k.expiresAt
  }
}
