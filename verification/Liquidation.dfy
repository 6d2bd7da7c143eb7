/** The quote and the price at which closing part of a position keeps an account's ratio of liquidation
    threshold to maintenance margin.
 */
module Liquidation {
  import opened Constants
  import opened Numbers
  import opened PerpsTrade

  /** The part of an account's risk parameters that health is compared by. */
  datatype Risk = Risk(threshold: int, maintenance: int)

  function RiskAfterTrade(
    r: Risk, collateralDelta: int, before: Position, after: Position, m: Market, marginFraction: nat): Risk
  {
    var multiplier := m.markPrice * m.quoteMultiplier * MARGIN_FRACTION_MULTIPLIER;
    var pnl := UnrealizedPnl(after, m.markPrice, m.quoteMultiplier)
               - UnrealizedPnl(before, m.markPrice, m.quoteMultiplier);
    Risk(r.threshold + collateralDelta + pnl * USDC_TO_COLLATERAL_MULTIPLIER,
         r.maintenance + Abs(after.size) * multiplier * marginFraction - Abs(before.size) * multiplier * marginFraction)
  }

  predicate HealthImproved(r: Risk, after: Risk) {
    r.threshold * after.maintenance <= after.threshold * r.maintenance
  }

  /** Quotient of a signed number, rounded away from zero or towards it. */
  function SignedQuotient(dividend: int, divisor: nat, awayFromZero: bool): int {
    Sign(dividend) * (if awayFromZero then CeilDiv(Abs(dividend), divisor) else Div(Abs(dividend), divisor))
  }

  function Divisor(r: Risk): int {
    r.maintenance * MARGIN_TICK
  }

  /** Notional minus the threshold's share, both times the divisor. */
  function Dividend(notional: nat, p: Position, r: Risk, marginFraction: nat): int {
    notional * Divisor(r) - Sign(p.size) * (notional * marginFraction * r.threshold)
  }

  function PositionZeroQuote(p: Position, m: Market, marginFraction: nat, r: Risk, tradeSize: nat): int
    requires r.maintenance >= 0
  {
    var dividend := Dividend(m.markPrice * m.quoteMultiplier * tradeSize, p, r, marginFraction);
    SignedQuotient(dividend, Divisor(r), (dividend > 0) == (p.size > 0))
  }

  // Rounding

  /** The quotient is the least integer not below the true one for longs, the greatest not above it for shorts. */
  lemma {:induction false} QuotientIsTight(dividend: int, divisor: nat, long: bool, x: int)
    requires divisor > 0
    ensures var q := SignedQuotient(dividend, divisor, (dividend > 0) == long);
            if long then x * divisor >= dividend <==> x >= q else x * divisor <= dividend <==> x <= q
  {
    assert -x * divisor == -(x * divisor);
    if dividend >= 0 {
      CeilDivIsLeast(dividend, divisor, x);
      DivIsGreatest(dividend, divisor, x);
    } else {
      CeilDivIsLeast(-dividend, divisor, -x);
      DivIsGreatest(-dividend, divisor, -x);
    }
    if dividend == 0 {
      assert CeilDiv(0, divisor) == 0 && Div(0, divisor) == 0;
    }
  }

  // Closing part of a position

  /** The risk parameters after closing `t` units at a quote, without fee and before any margin moves. */
  function RiskAfterClosing(h: Holder, t: nat, quote: int, m: Market, marginFraction: nat, r: Risk): Risk {
    var before := Funded(h.position, m);
    var change := CalculatePositionChange(before, -Sign(before.size) * t, quote, t, m);
    RiskAfterTrade(r, change.realized * USDC_TO_COLLATERAL_MULTIPLIER, before, change.position, m, marginFraction)
  }

  predicate Closable(h: Holder, t: nat, m: Market) {
    && h.position.marketIndex == m.index
    && 0 < t <= Abs(h.position.size)
  }

  /** The risk parameters of an isolated position are its own; funding has been settled. */
  function IsolatedRisk(p: Position, m: Market, marginFraction: nat): Risk {
    var multiplier := m.markPrice * m.quoteMultiplier * MARGIN_FRACTION_MULTIPLIER;
    Risk(MarketValue(p, m), Abs(p.size) * multiplier * marginFraction)
  }

  /** A cross position is closed against the account's parameters, whatever they are, an isolated one against
      its own. */
  predicate RiskOf(h: Holder, m: Market, marginFraction: nat, r: Risk) {
    h.position.isolated ==> r == IsolatedRisk(Funded(h.position, m), m, marginFraction)
  }

  function Traded(h: Holder, t: nat, quote: int, m: Market): Holder {
    TradeSide(h, -Sign(h.position.size) * t, quote, t, 0, m).holder
  }

  /** The parameters after the trade itself, with the margin that it moves out of an isolated position. */
  function RiskAfterTrading(h: Holder, t: nat, quote: int, m: Market, marginFraction: nat, r: Risk): Risk {
    var after := Traded(h, t, quote, m);
    if h.position.isolated then IsolatedRisk(after.position, m, marginFraction)
    else RiskAfterTrade(r, after.cross - h.cross - FundingDelta(h.position, m), Funded(h.position, m),
                        after.position, m, marginFraction)
  }

  /** Collateral and unrealized profit together move by what the closed part is sold for, less its notional. */
  lemma {:induction false} ClosingMovesThreshold(before: Position, t: nat, quote: int, m: Market)
    requires 0 < t <= Abs(before.size)
    ensures var s, n := Sign(before.size), m.markPrice * m.quoteMultiplier * t;
            var change := CalculatePositionChange(before, -s * t, quote, t, m);
            change.realized * USDC_TO_COLLATERAL_MULTIPLIER
            + (UnrealizedPnl(change.position, m.markPrice, m.quoteMultiplier)
               - UnrealizedPnl(before, m.markPrice, m.quoteMultiplier)) * USDC_TO_COLLATERAL_MULTIPLIER
              == USDC_TO_COLLATERAL_MULTIPLIER * (s * (quote - n))
  {
    var s, k := Sign(before.size), m.quoteMultiplier * m.markPrice;
    var delta := -s * t;
    var after := CalculatePositionChange(before, delta, quote, t, m).position;
    EmptyEntry(before, delta, quote, t);
    PnlIsSigned(before, m.markPrice, m.quoteMultiplier);
    PnlIsSigned(after, m.markPrice, m.quoteMultiplier);
    RealizedBalances(k, before.size, delta, before.entryQuote, after.entryQuote, s, Sign(after.size),
                     Sign(delta) * quote);
    SoldForQuote(k, s, t, quote);
    assert k * t == m.markPrice * m.quoteMultiplier * t;
  }

  lemma {:induction false} SoldForQuote(k: int, s: int, t: int, quote: int)
    requires t > 0 && (s == 1 || s == -1)
    ensures k * (-s * t) - Sign(-s * t) * quote == s * (quote - k * t)
  {
  }

  lemma {:induction false} ClosingMovesRisk(h: Holder, t: nat, quote: int, m: Market, marginFraction: nat, r: Risk)
    requires Closable(h, t, m)
    ensures var s, n := Sign(h.position.size), m.markPrice * m.quoteMultiplier * t;
            var after := RiskAfterClosing(h, t, quote, m, marginFraction, r);
            && after.threshold == r.threshold + USDC_TO_COLLATERAL_MULTIPLIER * (s * (quote - n))
            && after.maintenance == r.maintenance - n * marginFraction * MARGIN_FRACTION_MULTIPLIER
  {
    var before := Funded(h.position, m);
    ClosingMovesThreshold(before, t, quote, m);
    RequirementShrinks(Abs(before.size), t, m.markPrice * m.quoteMultiplier, marginFraction);
  }

  lemma {:induction false} RequirementShrinks(size: int, t: int, k: int, fraction: int)
    ensures var unit := k * MARGIN_FRACTION_MULTIPLIER;
            (size - t) * unit * fraction - size * unit * fraction == -(k * t * fraction * MARGIN_FRACTION_MULTIPLIER)
  {
    var unit := k * MARGIN_FRACTION_MULTIPLIER;
    assert (size - t) * unit == size * unit - t * unit;
    assert (size * unit - t * unit) * fraction == size * unit * fraction - t * unit * fraction;
    assert t * unit * fraction == k * t * fraction * MARGIN_FRACTION_MULTIPLIER;
  }

  /** Cross-multiplied ratios before and after, for threshold l, requirement r and notional n. */
  lemma {:induction false} RatioDifference(l: int, r: int, n: int, f: int, s: int, quote: int)
    requires s * s == 1
    ensures (l + USDC_TO_COLLATERAL_MULTIPLIER * (s * (quote - n))) * r - l * (r - n * f * MARGIN_FRACTION_MULTIPLIER)
         == MARGIN_FRACTION_MULTIPLIER * (s * (quote * (r * MARGIN_TICK) - (n * (r * MARGIN_TICK) - s * (n * f * l))))
  {
    var u, c := USDC_TO_COLLATERAL_MULTIPLIER, MARGIN_FRACTION_MULTIPLIER;
    var d := r * MARGIN_TICK;
    var x := n * f * l;
    assert s * (quote * d - (n * d - s * x)) == s * ((quote - n) * d) + s * s * x;
    assert (l + u * (s * (quote - n))) * r == l * r + u * (s * (quote - n)) * r;
    assert u * (s * (quote - n)) * r == c * (s * ((quote - n) * d));
    assert l * (r - n * f * c) == l * r - c * x;
  }

  /** Closing at any quote keeps the ratio exactly when the quote is on the right side of the true quotient. */
  lemma {:induction false} ClosingImprovesIff(h: Holder, t: nat, quote: int, m: Market, marginFraction: nat, r: Risk)
    requires Closable(h, t, m)
    ensures var dividend := Dividend(m.markPrice * m.quoteMultiplier * t, h.position, r, marginFraction);
            HealthImproved(r, RiskAfterClosing(h, t, quote, m, marginFraction, r)) <==>
              if h.position.size > 0 then quote * Divisor(r) >= dividend else quote * Divisor(r) <= dividend
  {
    ClosingMovesRisk(h, t, quote, m, marginFraction, r);
    RatioDifference(r.threshold, r.maintenance, m.markPrice * m.quoteMultiplier * t, marginFraction,
                    Sign(h.position.size), quote);
  }

  // The margin that an isolated position gives up

  /** An isolated position after closing and before margin moves. */
  function Closed(h: Holder, t: nat, quote: int, m: Market): Position {
    Unmoved(h.position, -Sign(h.position.size) * t, quote, t, 0, m)
  }

  lemma {:induction false} TradedMovesMargin(h: Holder, t: nat, quote: int, m: Market)
    requires Closable(h, t, m) && h.position.isolated
    ensures var before, p := Funded(h.position, m), Closed(h, t, quote, m);
            && Traded(h, t, quote, m).position
                 == p.(margin := p.margin + IsolatedMarginChange(before, p, 0 - t, 0, m))
            && Abs(p.size) == Abs(before.size) - t && (p.size != 0 ==> Sign(p.size) == Sign(before.size))
            && (p.size == 0 ==> p.entryQuote == 0)
  {
    MarginMoves(h, -Sign(h.position.size) * t, quote, t, 0, m);
  }

  lemma {:induction false} ClosedRisk(h: Holder, t: nat, quote: int, m: Market, marginFraction: nat, r: Risk)
    requires Closable(h, t, m) && h.position.isolated && RiskOf(h, m, marginFraction, r)
    ensures RiskAfterClosing(h, t, quote, m, marginFraction, r)
         == IsolatedRisk(Closed(h, t, quote, m), m, marginFraction)
  {
  }

  /** Ratios of isolated positions compare value per unit of size. */
  lemma {:induction false} ImprovedPerUnit(value: int, size: nat, valueAfter: int, sizeAfter: nat, k: nat, f: nat)
    requires size * k * f > 0
    ensures HealthImproved(Risk(value, size * k * f), Risk(valueAfter, sizeAfter * k * f))
       <==> value * sizeAfter <= valueAfter * size
  {
    assert k * f > 0 by { assert size * k * f == size * (k * f); }
    assert value * (sizeAfter * k * f) == value * sizeAfter * (k * f);
    assert valueAfter * (size * k * f) == valueAfter * size * (k * f);
    ScaledCompare(valueAfter * size, value * sizeAfter, k * f);
  }

  /** Margin leaves a reduced position only as far as its value per unit allows, so the move changes no verdict. */
  lemma {:induction false} MoveKeepsVerdict(before: Position, p: Position, t: nat, m: Market)
    requires t > 0 && Abs(p.size) == Abs(before.size) - t && (p.size != 0 ==> Sign(p.size) == Sign(before.size))
    requires p.size == 0 ==> p.entryQuote == 0
    ensures var moved := IsolatedMarginChange(before, p, 0 - t, 0, m);
            var after := p.(margin := p.margin + moved);
            && (MarketValue(before, m) * Abs(p.size) <= MarketValue(after, m) * Abs(before.size) ==>
                  MarketValue(before, m) * Abs(p.size) <= MarketValue(p, m) * Abs(before.size))
            && (MarketValue(before, m) * Abs(p.size) <= MarketValue(p, m) * Abs(before.size) ==>
                  MarketValue(before, m) * Abs(p.size) <= MarketValue(after, m) * Abs(before.size))
  {
    var moved := IsolatedMarginChange(before, p, 0 - t, 0, m);
    var after := p.(margin := p.margin + moved);
    assert MarketValue(after, m) == MarketValue(p, m) + moved;
    if p.size == 0 {
      assert UnrealizedPnl(p, m.markPrice, m.quoteMultiplier) == 0 by {
        assert m.quoteMultiplier * m.markPrice * 0 == 0;
      }
      SameSign(p.margin, Min(p.margin, 0), Abs(before.size));
    } else if moved < 0 {
      var share, target := MarketValue(before, m) * Abs(p.size), TargetValue(before, p, m);
      assert MarketValue(after, m) >= target;
      TargetCoversShare(before, p, m);
      MulMono(target, MarketValue(after, m), Abs(before.size));
      MulMono(MarketValue(after, m), MarketValue(p, m), Abs(before.size));
    }
  }

  lemma {:induction false} SameSign(a: int, b: int, c: nat)
    requires b == Min(a, 0)
    ensures 0 <= b * c <==> 0 <= a * c
  {
    if a >= 0 { MulMono(0, a, c); }
  }

  lemma {:induction false} TargetCoversShare(before: Position, p: Position, m: Market)
    requires before.size != 0
    ensures MarketValue(before, m) * Abs(p.size) <= TargetValue(before, p, m) * Abs(before.size)
  {
    var value, target := MarketValue(before, m), TargetValue(before, p, m);
    if value > 0 {
      var share := CeilDiv(value * Abs(p.size), Abs(before.size));
      CeilDivCovers(value * Abs(p.size), Abs(before.size));
      MulMono(share, target, Abs(before.size));
    } else {
      MulMono(value, 0, Abs(p.size));
      MulMono(0, target, Abs(before.size));
    }
  }

  /** The trade improves the ratio exactly when closing does, in both margin modes. */
  lemma {:induction false} TradingIsClosing(h: Holder, t: nat, quote: int, m: Market, marginFraction: nat, r: Risk)
    requires Closable(h, t, m) && RiskOf(h, m, marginFraction, r) && r.maintenance > 0
    ensures HealthImproved(r, RiskAfterTrading(h, t, quote, m, marginFraction, r))
       <==> HealthImproved(r, RiskAfterClosing(h, t, quote, m, marginFraction, r))
  {
    if h.position.isolated {
      IsolatedTradingIsClosing(h, t, quote, m, marginFraction, r);
    } else {
      CrossTradingIsClosing(h, t, quote, m, marginFraction, r);
    }
  }

  lemma {:induction false} CrossTradingIsClosing(h: Holder, t: nat, quote: int, m: Market, marginFraction: nat, r: Risk)
    requires Closable(h, t, m) && !h.position.isolated
    ensures RiskAfterTrading(h, t, quote, m, marginFraction, r)
         == RiskAfterClosing(h, t, quote, m, marginFraction, r)
  {
  }

  lemma {:induction false} IsolatedTradingIsClosing(
    h: Holder, t: nat, quote: int, m: Market, marginFraction: nat, r: Risk)
    requires Closable(h, t, m) && RiskOf(h, m, marginFraction, r) && r.maintenance > 0 && h.position.isolated
    ensures HealthImproved(r, RiskAfterTrading(h, t, quote, m, marginFraction, r))
       <==> HealthImproved(r, RiskAfterClosing(h, t, quote, m, marginFraction, r))
  {
    var before, p, after := Funded(h.position, m), Closed(h, t, quote, m), Traded(h, t, quote, m).position;
    var k := m.markPrice * m.quoteMultiplier * MARGIN_FRACTION_MULTIPLIER;
    TradedMovesMargin(h, t, quote, m);
    ClosedRisk(h, t, quote, m, marginFraction, r);
    MoveKeepsVerdict(before, p, t, m);
    ImprovedPerUnit(MarketValue(before, m), Abs(before.size), MarketValue(p, m), Abs(p.size), k, marginFraction);
    ImprovedPerUnit(MarketValue(before, m), Abs(before.size), MarketValue(after, m), Abs(p.size), k, marginFraction);
  }

  /** The zero quote is the exact limit: closing any part of a long or short at a quote keeps or improves the
      ratio of threshold to maintenance margin if and only if the quote is at least as good as the zero
      quote, whatever the signs of threshold and dividend, for a cross position against its account and for an
      isolated one against itself, the margin it gives up included. */
  lemma {:induction false} ZeroQuoteIsTheLimit(h: Holder, t: nat, quote: int, m: Market, marginFraction: nat, r: Risk)
    requires Closable(h, t, m) && RiskOf(h, m, marginFraction, r) && r.maintenance > 0
    ensures var zero := PositionZeroQuote(h.position, m, marginFraction, r, t);
            HealthImproved(r, RiskAfterTrading(h, t, quote, m, marginFraction, r)) <==>
              if h.position.size > 0 then quote >= zero else quote <= zero
  {
    TradingIsClosing(h, t, quote, m, marginFraction, r);
    ClosingImprovesIff(h, t, quote, m, marginFraction, r);
    QuotientIsTight(Dividend(m.markPrice * m.quoteMultiplier * t, h.position, r, marginFraction), Divisor(r),
                    h.position.size > 0, quote);
  }

  // Zero price

  function PriceDividend(p: Position, m: Market, marginFraction: nat, r: Risk): int {
    m.markPrice * Divisor(r) - Sign(p.size) * (m.markPrice * marginFraction * r.threshold)
  }

  function UntrimmedZeroPrice(p: Position, m: Market, marginFraction: nat, r: Risk): nat
    requires r.maintenance >= 0
  {
    var dividend := PriceDividend(p, m, marginFraction, r);
    if p.size > 0 then CeilDiv(Abs(dividend), Divisor(r)) else Div(Abs(dividend), Divisor(r))
  }

  function PositionZeroPrice(p: Position, m: Market, marginFraction: nat, r: Risk): nat
    requires r.maintenance >= 0
  {
    var price := UntrimmedZeroPrice(p, m, marginFraction, r);
    if PriceDividend(p, m, marginFraction, r) <= 0 then 1
    else if price > MAX_ORDER_PRICE then MAX_ORDER_PRICE
    else price
  }

  lemma {:induction false} PriceScales(q: int, t: int, mark: int, d: int, s: int, f: int, l: int)
    ensures (mark * q * t) * d - s * ((mark * q * t) * f * l) == (mark * d - s * (mark * f * l)) * (q * t)
  {
    assert (mark * q * t) * d == mark * d * (q * t);
    assert (mark * q * t) * f * l == mark * f * l * (q * t);
    assert (mark * d - s * (mark * f * l)) * (q * t) == mark * d * (q * t) - s * (mark * f * l) * (q * t);
    assert s * (mark * f * l) * (q * t) == s * (mark * f * l * (q * t));
  }

  lemma {:induction false} ScaledCompare(a: int, b: int, k: nat)
    requires k > 0
    ensures a * k >= b * k <==> a >= b
  {
    if a >= b { MulMono(b, a, k); } else { MulMono(a, b - 1, k); }
  }

  lemma {:induction false} ClosingAtPriceIff(h: Holder, t: nat, price: int, m: Market, marginFraction: nat, r: Risk)
    requires Closable(h, t, m) && r.maintenance > 0 && m.quoteMultiplier > 0
    ensures var dividend := PriceDividend(h.position, m, marginFraction, r);
            HealthImproved(r, RiskAfterClosing(h, t, price * m.quoteMultiplier * t, m, marginFraction, r)) <==>
              if h.position.size > 0 then price * Divisor(r) >= dividend else price * Divisor(r) <= dividend
  {
    ClosingImprovesIff(h, t, price * m.quoteMultiplier * t, m, marginFraction, r);
    QuoteScales(m.quoteMultiplier, t, m.markPrice, Divisor(r), Sign(h.position.size), marginFraction, r.threshold,
                price);
  }

  lemma {:induction false} QuoteScales(q: nat, t: nat, mark: int, d: int, s: int, f: int, l: int, price: int)
    requires q > 0 && t > 0
    ensures var whole, unit := (mark * q * t) * d - s * ((mark * q * t) * f * l), mark * d - s * (mark * f * l);
            && ((price * q * t) * d >= whole <==> price * d >= unit)
            && ((price * q * t) * d <= whole <==> price * d <= unit)
  {
    var k, unit := q * t, mark * d - s * (mark * f * l);
    PriceScales(q, t, mark, d, s, f, l);
    assert (price * q * t) * d == (price * d) * k by { PriceScales(q, t, price, d, 0, 0, 0); }
    assert k > 0;
    ScaledCompare(price * d, unit, k);
    ScaledCompare(unit, price * d, k);
  }

  lemma {:induction false} TrimmedPrice(dividend: int, d: nat, long: bool)
    requires d > 0
    ensures var untrimmed := if long then CeilDiv(Abs(dividend), d) else Div(Abs(dividend), d);
            var price := if dividend <= 0 then 1 else Min(untrimmed, MAX_ORDER_PRICE);
            if long then price * d >= dividend <==> dividend <= 0 || untrimmed <= MAX_ORDER_PRICE
            else price * d <= dividend <==> dividend > 0
  {
    if dividend > 0 {
      CeilDivIsLeast(dividend, d, MAX_ORDER_PRICE);
      CeilDivIsLeast(dividend, d, CeilDiv(dividend, d));
      DivIsGreatest(dividend, d, MAX_ORDER_PRICE);
      DivIsGreatest(dividend, d, Div(dividend, d));
    }
  }

  /** Closing at the zero price keeps the ratio except in exactly two trimmed cases: a long whose price was cut
      to the largest order price, and a short whose price was raised to one. */
  lemma {:induction false} ZeroPriceKeepsRatioIff(h: Holder, t: nat, m: Market, marginFraction: nat, r: Risk)
    requires Closable(h, t, m) && RiskOf(h, m, marginFraction, r) && r.maintenance > 0 && m.quoteMultiplier > 0
    ensures var price := PositionZeroPrice(h.position, m, marginFraction, r);
            HealthImproved(r, RiskAfterTrading(h, t, price * m.quoteMultiplier * t, m, marginFraction, r)) <==>
              if h.position.size > 0
              then PriceDividend(h.position, m, marginFraction, r) <= 0
                   || UntrimmedZeroPrice(h.position, m, marginFraction, r) <= MAX_ORDER_PRICE
              else PriceDividend(h.position, m, marginFraction, r) > 0
  {
    TradingIsClosing(h, t, PositionZeroPrice(h.position, m, marginFraction, r) * m.quoteMultiplier * t, m,
                     marginFraction, r);
    ClosingAtPriceIff(h, t, PositionZeroPrice(h.position, m, marginFraction, r), m, marginFraction, r);
    TrimmedPrice(PriceDividend(h.position, m, marginFraction, r), Divisor(r), h.position.size > 0);
  }

  /** Closing at a price keeps the ratio. */
  predicate KeepsAt(price: nat, h: Holder, t: nat, m: Market, marginFraction: nat, r: Risk) {
    HealthImproved(r, RiskAfterTrading(h, t, price * m.quoteMultiplier * t, m, marginFraction, r))
  }

  lemma {:induction false} KeepsAtIff(price: nat, h: Holder, t: nat, m: Market, marginFraction: nat, r: Risk)
    requires Closable(h, t, m) && RiskOf(h, m, marginFraction, r) && r.maintenance > 0 && m.quoteMultiplier > 0
    ensures var dividend := PriceDividend(h.position, m, marginFraction, r);
            KeepsAt(price, h, t, m, marginFraction, r) <==>
              if h.position.size > 0 then price * Divisor(r) >= dividend else price * Divisor(r) <= dividend
  {
    TradingIsClosing(h, t, price * m.quoteMultiplier * t, m, marginFraction, r);
    ClosingAtPriceIff(h, t, price, m, marginFraction, r);
  }

  lemma {:induction false} TrimmedPriceIsLimit(dividend: int, d: nat, long: bool, zero: nat, p: nat)
    requires d > 0 && 1 <= p <= 0xFFFF_FFFF
    requires var untrimmed := if long then CeilDiv(Abs(dividend), d) else Div(Abs(dividend), d);
             zero == if dividend <= 0 then 1 else Min(untrimmed, MAX_ORDER_PRICE)
    ensures zero <= 0xFFFF_FFFF
    ensures if long
            then && (p * d >= dividend <==> p >= zero && zero * d >= dividend)
                 && zero >= 1 && (zero * d < dividend ==> zero == 0xFFFF_FFFF)
            else && (p * d <= dividend <==> p <= zero && zero * d <= dividend)
                 && (zero * d > dividend ==> zero == 1)
  {
    if dividend > 0 {
      CeilDivIsLeast(dividend, d, p);
      CeilDivIsLeast(dividend, d, zero);
      CeilDivIsLeast(dividend, d, 0);
      DivIsGreatest(dividend, d, p);
      DivIsGreatest(dividend, d, zero);
      assert 0 * d == 0;
    } else {
      MulMono(1, p, d);
    }
  }

  /** Among all order prices the zero price of a long is the least that keeps the ratio, or the largest order price
      when none does; that of a short the greatest, or one when it keeps none. */
  lemma {:induction false} ZeroPriceIsTheLimit(h: Holder, t: nat, p: nat, m: Market, marginFraction: nat, r: Risk)
    requires Closable(h, t, m) && RiskOf(h, m, marginFraction, r) && r.maintenance > 0 && m.quoteMultiplier > 0
    requires 1 <= p <= 0xFFFF_FFFF
    ensures var zero := PositionZeroPrice(h.position, m, marginFraction, r);
            var keeps := KeepsAt(zero, h, t, m, marginFraction, r);
            && zero <= 0xFFFF_FFFF
            && (if h.position.size > 0
                then && (KeepsAt(p, h, t, m, marginFraction, r) <==> p >= zero && keeps)
                     && zero >= 1 && (!keeps ==> zero == 0xFFFF_FFFF)
                else && (KeepsAt(p, h, t, m, marginFraction, r) <==> p <= zero && keeps)
                     && (!keeps ==> zero == 1))
  {
    var zero := PositionZeroPrice(h.position, m, marginFraction, r);
    KeepsAtIff(p, h, t, m, marginFraction, r);
    KeepsAtIff(zero, h, t, m, marginFraction, r);
    TrimmedPriceIsLimit(PriceDividend(h.position, m, marginFraction, r), Divisor(r), h.position.size > 0, zero, p);
  }
}
