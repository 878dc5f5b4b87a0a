/** Values shared by every component: machine words, orders, matches, results. */
module Basics {

  const TWO64: nat := 0x1_0000_0000_0000_0000

  type U64 = x: int | 0 <= x < TWO64

  /** u64 arithmetic of a release build: the result is kept modulo 2^64. */
  function Wrap(x: nat): U64 {
    x % TWO64
  }

  function Min(a: nat, b: nat): nat {
    if a <= b then a else b
  }

  function SaturatingSub(a: nat, b: nat): nat {
    if a >= b then a - b else 0
  }

  function Pow10(n: nat): (p: nat)
    ensures p > 0
  {
    if n == 0 then 1 else 10 * Pow10(n - 1)
  }

  const TWO32: nat := 0x1_0000_0000
  const TWO128: nat := 0x1_0000_0000_0000_0000_0000_0000_0000_0000

  /** `10u128.pow(n)` of a release build: kept modulo 2^128, so zero from 2^128 on. */
  function PowU128(n: nat): nat {
    Pow10(n) % TWO128
  }

  /** `10u64.pow(n)` of a release build. */
  function PowU64(n: nat): U64 {
    Pow10(n) % TWO64
  }

  /** The scale between quantity times price and quote units, 10^(base + 8 - quote): the exponent is a u32, the power a
      u128. Dividing by it fails where it is zero. */
  function Divisor(baseDecimals: nat, quoteDecimals: nat): nat {
    PowU128((baseDecimals + 8 - quoteDecimals) % TWO32)
  }

  /** Quote units for `q` base units at `price`: the floor of the scaled product. */
  function QuoteUnits(q: nat, price: nat, divisor: nat): nat
    requires divisor > 0
  {
    q * price / divisor
  }

  /** `v` is `q` units at a price of 8 decimals, turned from base decimals into quote decimals and rounded down. */
  predicate InQuoteUnits(v: nat, q: nat, price: nat, baseDecimals: nat, quoteDecimals: nat) {
    v * Pow10(baseDecimals + 8) <= q * price * Pow10(quoteDecimals) < (v + 1) * Pow10(baseDecimals + 8)
  }

  /** A u64 that is such an amount, cut if it does not fit. */
  ghost predicate CutQuoteUnits(u: U64, q: nat, price: nat, baseDecimals: nat, quoteDecimals: nat) {
    exists v: nat :: InQuoteUnits(v, q, price, baseDecimals, quoteDecimals) && u == v % 0x1_0000_0000_0000_0000
  }

  lemma NextMultiple(a: nat, b: nat, d: nat)
    ensures a < b ==> (a + 1) * d <= b * d
  {
    if a < b {
      assert b * d == (a + 1) * d + (b - a - 1) * d;
    }
  }

  lemma Recompose(n: nat, p: nat)
    requires p > 0
    ensures n == (n / p) * p + n % p
  {
  }

  function Quotient(n: nat, d: nat): nat
    requires d > 0
  {
    n / d
  }

  function Remainder(n: nat, d: nat): (r: nat)
    requires d > 0
    ensures r < d
  {
    n % d
  }

  /** Quotient and remainder are determined by their equation. */
  lemma QuotientOf(n: nat, q: nat, r: nat, d: nat)
    requires n == q * d + r && r < d
    ensures n / d == q && n % d == r
  {
    Recompose(n, d);
    NextMultiple(q, n / d, d);
    NextMultiple(n / d, q, d);
  }

  datatype Option<+T> = None | Some(value: T)

  datatype Result<+T, +E> = Ok(value: T) | Err(error: E)

  type Symbol = string
  type Token = string
  type Byte = x: int | 0 <= x < 256
  type Bytes = seq<Byte>

  /** A 32-byte hash read as a big-endian number: comparing the byte arrays is comparing the numbers. */
  type Hash = nat

  const SELL := 0
  const BUY := 1

  datatype Order = Order(
    nftId: U64,
    symbol: Symbol,
    side: nat,
    price: U64,
    quantity: U64,
    batchId: nat,
    nonce: Bytes)

  datatype RevealedOrder = RevealedOrder(order: Order, signature: Bytes, orderHash: Hash)

  /** SHA-256 of (batch, buyer hash, seller hash, fill): collision freedom makes it a free constructor. */
  datatype MatchHash = MatchHash(batchId: nat, buyerHash: Hash, sellerHash: Hash, fillQuantity: nat)

  datatype Match = Match(
    batchId: nat,
    poolId: U64,
    symbol: Symbol,
    buyer: RevealedOrder,
    seller: RevealedOrder,
    fillQuantity: U64,
    settlementPrice: U64,
    matchHash: MatchHash,
    gasPayerNftId: U64)

  datatype MarketConfig = MarketConfig(symbol: Symbol, minQuantity: U64)

  datatype MatchingInput = MatchingInput(
    batchId: nat,
    poolId: U64,
    revealed: seq<RevealedOrder>,
    markets: seq<MarketConfig>)
}
