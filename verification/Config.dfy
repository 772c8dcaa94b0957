/** Constants the server, the client and the subscriber agree on. */
module Config {
  const PRICE_WINDOW: nat := 65536

  const SYMBOL_BYTES: nat := 4
  const QTY_BYTES: nat := 4
  const PRICE_BYTES: nat := 4
  const ID_BYTES: nat := 4

  const SNAPSHOT_LEN: nat := 10
  const SNAPSHOT_FREQUENCY: nat := 1

  const NUM_SHARDS: nat := 16
  const NUM_MARKET_BOOK_THREADS: nat := 4

  const MALFORMED_REQUEST: int := 100
  const SYMBOL_NOT_FOUND: int := 101
  const INVALID_QUANTITY: int := 102
  const INVALID_PRICE: int := 103
  const INVALID_ORDER_ID: int := 104
}
