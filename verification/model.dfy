/** The persisted entity of the service and the values the environment
    hands to a request: a freshly generated hash and the clock readings. */
module Model {

  /** A stored secret. Timestamps are nanoseconds on one wall clock. */
  datatype Secret = Secret(
    hash: string,
    secretText: string,
    createdAt: int,
    expiresAt: int,
    remainingViews: int
  )

  /** Length of the random hash generated for every new secret. */
  const HashLength := 10

  /** A hash as produced by the random generator: only its length is known. */
  type Handle = s: string | |s| == HashLength witness "0000000000"

  /** Two successive readings of the wall clock taken while one request is
      handled; the second is never earlier than the first. */
  datatype Clock = Clock(first: int, second: int)

  type Readings = c: Clock | c.first <= c.second witness Clock(0, 0)
}
