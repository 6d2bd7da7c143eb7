/** Perpetual trades: position change, funding, fees and isolated margin of both sides of one fill. */
module PerpsTrade {
  import opened Constants
  import opened Options
  import opened Numbers

  const NIL_PUBLIC_MARKET_INDEX: nat := 255

  datatype Position = Position(
    marketIndex: nat, size: int, entryQuote: nat, lastFunding: int,
    initialMarginFraction: nat, isolated: bool, margin: int)

  /** An account as far as one market is concerned; `pool` marks public pools and the insurance fund. */
  datatype Holder = Holder(cross: int, pool: bool, position: Position)

  datatype Market = Market(
    index: nat, markPrice: nat, quoteMultiplier: nat, fundingPrefix: int,
    defaultMarginFraction: nat, minMarginFraction: nat, defaultIsolated: bool)

  function FreshPosition(index: nat, isolated: bool): Position {
    Position(index, 0, 0, 0, 0, isolated, 0)
  }

  /** A position that is empty or was left behind by another market in the same slot starts afresh. */
  function InitIfEmpty(p: Position, pool: bool, m: Market): Position {
    if p == FreshPosition(NIL_PUBLIC_MARKET_INDEX, false) || p.marketIndex != m.index
    then FreshPosition(m.index, !pool && m.defaultIsolated)
    else p
  }

  function FundingDelta(p: Position, m: Market): int {
    p.size * m.quoteMultiplier * (p.lastFunding - m.fundingPrefix)
  }

  function InitialMarginFraction(p: Position, m: Market): nat {
    Max(if p.initialMarginFraction == 0 then m.defaultMarginFraction else p.initialMarginFraction, m.minMarginFraction)
  }

  function UnrealizedPnl(p: Position, markPrice: nat, quoteMultiplier: nat): int {
    var result := quoteMultiplier * markPrice * Abs(p.size) - p.entryQuote;
    if p.size > 0 then result else -result
  }

  function NewEntryQuote(p: Position, delta: int, quote: int, base: nat): nat {
    var size := p.size + delta;
    if Sign(p.size) != Sign(size) then
      if quote > 0 then Div(quote, base) * Abs(size) else 0
    else if Sign(delta) == Sign(p.size) then
      p.entryQuote + (if quote > 0 then quote else 0)
    else Div(p.entryQuote * Abs(size), Abs(p.size))
  }

  datatype PositionChange = PositionChange(position: Position, realized: int, openInterestDelta: int)

  function CalculatePositionChange(p: Position, delta: int, quote: int, base: nat, m: Market): PositionChange {
    var size := p.size + delta;
    var entry := NewEntryQuote(p, delta, quote, base);
    PositionChange(
      p.(size := size, entryQuote := entry, lastFunding := m.fundingPrefix,
         initialMarginFraction := InitialMarginFraction(p, m)),
      Sign(size) * entry - (Sign(p.size) * p.entryQuote + Sign(delta) * quote),
      Abs(size) - Abs(p.size))
  }

  // Isolated margin

  function MarginRequirement(p: Position, size: nat, m: Market): nat {
    size * (m.markPrice * m.quoteMultiplier * MARGIN_FRACTION_MULTIPLIER * InitialMarginFraction(p, m))
  }

  function MarketValue(p: Position, m: Market): int {
    p.margin + USDC_TO_COLLATERAL_MULTIPLIER * UnrealizedPnl(p, m.markPrice, m.quoteMultiplier)
  }

  /** What must stay in a reduced position. */
  function TargetValue(before: Position, p: Position, m: Market): int {
    var value := MarketValue(before, m);
    var required := MarginRequirement(p, Abs(p.size), m);
    if value > 0 then Max(CeilDiv(value * Abs(p.size), Abs(before.size)), required) else required
  }

  /** Collateral that moves into (or, when negative, out of) an isolated position after a trade. */
  function IsolatedMarginChange(before: Position, p: Position, openInterestDelta: int, fee: int, m: Market): int {
    if p.size == 0 then -Max(p.margin, 0)
    else if -Sign(before.size) == Sign(p.size) then
      MarginRequirement(p, Abs(p.size), m) - MarketValue(p, m)
    else if openInterestDelta < 0 then
      -Min(Max(MarketValue(p, m) - TargetValue(before, p, m), 0), Max(p.margin, 0))
    else
      var pnl := UnrealizedPnl(p, m.markPrice, m.quoteMultiplier)
                 - UnrealizedPnl(before, m.markPrice, m.quoteMultiplier);
      Max(MarginRequirement(p, Abs(openInterestDelta), m) - (USDC_TO_COLLATERAL_MULTIPLIER * pnl - fee), 0)
  }

  // One side of a trade

  datatype Side = Side(holder: Holder, openInterestDelta: int, marginDelta: int)

  function Funded(p: Position, m: Market): Position {
    p.(margin := if p.isolated then p.margin + FundingDelta(p, m) else p.margin, lastFunding := m.fundingPrefix)
  }

  function TradeSide(h: Holder, delta: int, quote: int, base: nat, fee: int, m: Market): Side {
    var start := InitIfEmpty(h.position, h.pool, m);
    var before := Funded(start, m);
    var change := CalculatePositionChange(before, delta, quote, base, m);
    var collateral := change.realized * USDC_TO_COLLATERAL_MULTIPLIER - fee;
    if start.isolated then
      var p := change.position.(margin := change.position.margin + collateral);
      var margin := IsolatedMarginChange(before, p, change.openInterestDelta, fee, m);
      Side(h.(cross := h.cross - margin, position := p.(margin := p.margin + margin)),
           change.openInterestDelta, margin)
    else
      Side(h.(cross := h.cross + FundingDelta(start, m) + collateral, position := change.position),
           change.openInterestDelta, 0)
  }

  /** An isolated position after its trade and before margin moves. */
  function Unmoved(start: Position, delta: int, quote: int, base: nat, fee: int, m: Market): Position {
    var change := CalculatePositionChange(Funded(start, m), delta, quote, base, m);
    change.position.(margin := change.position.margin + (change.realized * USDC_TO_COLLATERAL_MULTIPLIER - fee))
  }

  /** Margin moves between the position and the cross collateral, by the margin rule. */
  lemma {:induction false} MarginMoves(h: Holder, delta: int, quote: int, base: nat, fee: int, m: Market)
    requires InitIfEmpty(h.position, h.pool, m).isolated
    ensures var start, side := InitIfEmpty(h.position, h.pool, m), TradeSide(h, delta, quote, base, fee, m);
            var p := Unmoved(start, delta, quote, base, fee, m);
            && side.openInterestDelta == Abs(p.size) - Abs(start.size)
            && side.marginDelta == IsolatedMarginChange(Funded(start, m), p, Abs(p.size) - Abs(start.size), fee, m)
            && side.holder.position == p.(margin := p.margin + side.marginDelta)
            && side.holder.cross == h.cross - side.marginDelta
  {
  }

  datatype Order = Order(isTakerAsk: bool, base: nat, quote: int, takerFee: int, makerFee: int)

  datatype Outcome = Outcome(taker: Side, maker: Side, fees: int, openInterest: int)

  function TakerDelta(o: Order): int {
    if o.isTakerAsk then 0 - o.base else o.base
  }

  /** None when the fees of both sides together are negative. */
  function PerpsTrade(taker: Holder, maker: Holder, o: Order, openInterest: int, m: Market): Option<Outcome> {
    var delta := TakerDelta(o);
    var t := TradeSide(taker, delta, o.quote, o.base, o.quote * o.takerFee, m);
    var k := TradeSide(maker, -delta, o.quote, o.base, o.quote * o.makerFee, m);
    var fees := o.quote * o.takerFee + o.quote * o.makerFee;
    if fees < 0 then None
    else Some(Outcome(t, k, fees, openInterest + (t.openInterestDelta + k.openInterestDelta)))
  }

  /** The circuit's order of work, with positions and collateral deltas updated step by step. */
  method ApplyPerpsTrade(taker: Holder, maker: Holder, o: Order, openInterest: int, m: Market)
    returns (r: Option<Outcome>)
    ensures r == PerpsTrade(taker, maker, o, openInterest, m)
  {
    var feesEnabled := o.takerFee != 0 || o.makerFee != 0;
    var quoteForFees := if feesEnabled then o.quote else 0;
    var takerFee, makerFee := quoteForFees * o.takerFee, quoteForFees * o.makerFee;
    NoFeesNoProducts(o, quoteForFees);
    var takerSide := ApplySide(taker, TakerDelta(o), o, takerFee, m);
    var makerSide := ApplySide(maker, -TakerDelta(o), o, makerFee, m);
    if takerFee + makerFee < 0 { return None; }
    return Some(Outcome(takerSide, makerSide, takerFee + makerFee,
                        openInterest + (takerSide.openInterestDelta + makerSide.openInterestDelta)));
  }

  lemma {:induction false} NoFeesNoProducts(o: Order, quote: int)
    requires quote == if o.takerFee != 0 || o.makerFee != 0 then o.quote else 0
    ensures quote * o.takerFee == o.quote * o.takerFee && quote * o.makerFee == o.quote * o.makerFee
  {
    if o.takerFee == 0 && o.makerFee == 0 {
      assert o.quote * 0 == 0;
    }
  }

  method ApplySide(h: Holder, delta: int, o: Order, fee: int, m: Market) returns (side: Side)
    ensures side == TradeSide(h, delta, o.quote, o.base, fee, m)
  {
    var p := InitIfEmpty(h.position, h.pool, m);
    var isolated := p.isolated;
    var funding := FundingDelta(p, m);
    var cross := h.cross + if isolated then 0 else funding;
    if isolated {
      p := p.(margin := p.margin + funding);
    }
    p := p.(lastFunding := m.fundingPrefix);
    var before := p;
    var change := CalculatePositionChange(p, delta, o.quote, o.base, m);
    var collateralDelta := change.realized * USDC_TO_COLLATERAL_MULTIPLIER;
    collateralDelta := collateralDelta - fee;
    p := change.position;
    if isolated {
      p := p.(margin := p.margin + collateralDelta);
    }
    var marginDelta :=
      if isolated then IsolatedMarginChange(before, p, change.openInterestDelta, fee, m) else 0;
    if isolated {
      p := p.(margin := p.margin + marginDelta);
    }
    collateralDelta := collateralDelta + marginDelta;
    cross := cross + if isolated then -marginDelta else collateralDelta;
    side := Side(h.(cross := cross, position := p), change.openInterestDelta, marginDelta);
  }

  // Value

  predicate ZeroEntry(p: Position) {
    p.size == 0 ==> p.entryQuote == 0
  }

  /** A position's worth to its holder, at any mark price and funding prefix sum; a position of another
      market in the same slot is worth nothing here. */
  function PositionValue(p: Position, index: nat, mark: nat, multiplier: nat, prefix: int): int {
    if p.marketIndex != index then 0
    else
      (if p.isolated then p.margin else 0)
      + USDC_TO_COLLATERAL_MULTIPLIER * UnrealizedPnl(p, mark, multiplier)
      + p.size * multiplier * (p.lastFunding - prefix)
  }

  function Value(h: Holder, index: nat, mark: nat, multiplier: nat, prefix: int): int {
    h.cross + PositionValue(h.position, index, mark, multiplier, prefix)
  }

  lemma {:induction false} PnlIsSigned(p: Position, mark: nat, multiplier: nat)
    requires ZeroEntry(p)
    ensures UnrealizedPnl(p, mark, multiplier) == multiplier * mark * p.size - Sign(p.size) * p.entryQuote
  {
    var k := multiplier * mark;
    if p.size < 0 {
      assert k * -p.size == -(k * p.size);
    }
  }

  lemma {:induction false} EmptyEntry(p: Position, delta: int, quote: int, base: nat)
    requires ZeroEntry(p) && delta != 0
    ensures p.size + delta == 0 ==> NewEntryQuote(p, delta, quote, base) == 0
  {
  }

  /** Funding settled at one prefix and the rest at another. */
  lemma {:induction false} FundingSplits(s: int, d: int, q: int, last: int, now: int, later: int)
    ensures s * q * (last - now) + (s + d) * q * (now - later) == s * q * (last - later) + d * q * (now - later)
  {
    var a, b := last - now, now - later;
    assert s * q * (a + b) == s * q * a + s * q * b;
    assert (s + d) * q == s * q + d * q;
    assert (s * q + d * q) * b == s * q * b + d * q * b;
  }

  lemma {:induction false} InitKeepsValue(h: Holder, m: Market, mark: nat, prefix: int)
    requires h.position.marketIndex == m.index ==> ZeroEntry(h.position)
    ensures var start := InitIfEmpty(h.position, h.pool, m);
            && start.marketIndex == m.index && ZeroEntry(start)
            && PositionValue(start, m.index, mark, m.quoteMultiplier, prefix)
                 == PositionValue(h.position, m.index, mark, m.quoteMultiplier, prefix)
  {
    var start := InitIfEmpty(h.position, h.pool, m);
    assert m.quoteMultiplier * mark * 0 == 0;
    assert start.size == 0 ==> start.size * m.quoteMultiplier == 0;
  }

  /** The part of a side's value that its trade moves, for entry quote `e` before and `f` after. */
  lemma {:induction false} RealizedBalances(
    k: int, s: int, d: int, e: int, f: int, sign: int, signAfter: int, paid: int)
    ensures var unit := USDC_TO_COLLATERAL_MULTIPLIER;
            var realized := signAfter * f - (sign * e + paid);
            unit * (k * (s + d) - signAfter * f) - unit * (k * s - sign * e) + realized * unit
              == unit * (k * d - paid)
  {
    assert k * (s + d) == k * s + k * d;
  }

  /** What a trade adds to the value of one side. */
  function Gain(delta: int, quote: int, fee: int, m: Market, mark: nat, prefix: int): int {
    USDC_TO_COLLATERAL_MULTIPLIER * (m.quoteMultiplier * mark * delta - Sign(delta) * quote)
    + delta * m.quoteMultiplier * (m.fundingPrefix - prefix) - fee
  }

  /** Whatever the rounding of the entry quote, the margin mode and the margin moved, a side's value changes
      by the notional it takes on, the quote it pays and its fee. */
  lemma {:induction false} SideValue(
    h: Holder, delta: int, quote: int, base: nat, fee: int, m: Market, mark: nat, prefix: int)
    requires h.position.marketIndex == m.index ==> ZeroEntry(h.position)
    requires delta != 0
    ensures var after := TradeSide(h, delta, quote, base, fee, m).holder;
            && after.position.marketIndex == m.index && ZeroEntry(after.position)
            && Value(after, m.index, mark, m.quoteMultiplier, prefix)
                 == Value(h, m.index, mark, m.quoteMultiplier, prefix) + Gain(delta, quote, fee, m, mark, prefix)
  {
    var start := InitIfEmpty(h.position, h.pool, m);
    InitKeepsValue(h, m, mark, prefix);
    EmptyEntry(Funded(start, m), delta, quote, base);
    var after := TradeSide(h, delta, quote, base, fee, m).holder;
    SidePosition(h, delta, quote, base, fee, m);
    PnlIsSigned(start, mark, m.quoteMultiplier);
    PnlIsSigned(after.position, mark, m.quoteMultiplier);
    FundingSplits(start.size, delta, m.quoteMultiplier, start.lastFunding, m.fundingPrefix, prefix);
    RealizedBalances(m.quoteMultiplier * mark, start.size, delta, start.entryQuote, after.position.entryQuote,
                     Sign(start.size), Sign(after.position.size), Sign(delta) * quote);
  }

  /** Collateral and margin together grow by funding, realized profit and fee, whatever margin moves. */
  lemma {:induction false} SidePosition(h: Holder, delta: int, quote: int, base: nat, fee: int, m: Market)
    ensures var start := InitIfEmpty(h.position, h.pool, m);
            var after := TradeSide(h, delta, quote, base, fee, m).holder;
            var p := after.position;
            && p.size == start.size + delta
            && p.entryQuote == NewEntryQuote(Funded(start, m), delta, quote, base)
            && p.lastFunding == m.fundingPrefix
            && p.isolated == start.isolated && p.marketIndex == start.marketIndex
            && after.cross + (if p.isolated then p.margin else 0)
                 == h.cross + (if p.isolated then start.margin else 0) + FundingDelta(start, m)
                    + (Sign(p.size) * p.entryQuote - (Sign(start.size) * start.entryQuote + Sign(delta) * quote))
                      * USDC_TO_COLLATERAL_MULTIPLIER
                    - fee
  {
  }
}
