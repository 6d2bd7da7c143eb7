/** Constants of the exchange that several components share. */
module Constants {

  const FEE_TICK: nat := 1_000_000
  const MARGIN_TICK: nat := 10_000
  const USDC_TO_COLLATERAL_MULTIPLIER: nat := 1_000_000
  const MARGIN_FRACTION_MULTIPLIER: nat := 100

  const MAX_ORDER_PRICE: nat := 0xFFFF_FFFF

  /** 2^56 - 1 */
  const MARKET_OPEN_INTEREST_NOTIONAL: nat := 0xFF_FFFF_FFFF_FFFF
}
