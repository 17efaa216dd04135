/** How long a rotated-out signed prekey is kept, classic and Kyber alike, and the two waits that window is made of. */
module KeyLimits {
  const RETENTION: nat := 14 * 24 * 3600
  const QUEUE_TTL: nat := 7 * 24 * 3600
  const MAX_UNANSWERED_AGE: nat := 7 * 24 * 3600
}
