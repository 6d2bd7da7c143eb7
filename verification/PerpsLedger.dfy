/** Whole runs of perpetual trades in one market: what the accounts together own does not change. */
module PerpsLedger {
  import opened Constants
  import opened Numbers
  import opened Totals
  import opened PerpsTrade

  /** What stays fixed over a run: the market's index and its quote multiplier. */
  datatype Frame = Frame(index: nat, quoteMultiplier: nat)

  datatype Ledger = Ledger(holders: seq<Holder>, openInterest: int)

  /** One fill, with the market's prices and funding prefix at its time. */
  datatype Trade = Trade(taker: nat, maker: nat, feeAccount: nat, order: Order, market: Market)

  predicate Executes(l: Ledger, f: Frame, t: Trade) {
    && t.taker < |l.holders| && t.maker < |l.holders| && t.feeAccount < |l.holders|
    && t.taker != t.maker
    && t.order.base > 0
    && t.market.index == f.index && t.market.quoteMultiplier == f.quoteMultiplier
    && PerpsTrade.PerpsTrade(l.holders[t.taker], l.holders[t.maker], t.order, l.openInterest, t.market).Some?
  }

  function Credit(h: Holder, fees: int): Holder {
    h.(cross := h.cross + fees)
  }

  function Settle(l: Ledger, t: Trade, o: Outcome): Ledger
    requires t.taker < |l.holders| && t.maker < |l.holders| && t.feeAccount < |l.holders|
  {
    var both := l.holders[t.taker := o.taker.holder][t.maker := o.maker.holder];
    Ledger(both[t.feeAccount := Credit(both[t.feeAccount], o.fees)], o.openInterest)
  }

  function Execute(l: Ledger, f: Frame, t: Trade): Ledger
    requires Executes(l, f, t)
  {
    Settle(l, t, PerpsTrade.PerpsTrade(l.holders[t.taker], l.holders[t.maker], t.order, l.openInterest, t.market).value)
  }

  function Worth(f: Frame, mark: nat, prefix: int): Holder -> int {
    (h: Holder) => Value(h, f.index, mark, f.quoteMultiplier, prefix)
  }

  function Exposure(f: Frame): Holder -> int {
    (h: Holder) => if h.position.marketIndex == f.index then Abs(h.position.size) else 0
  }

  /** All accounts together, valued at any mark price and any funding prefix sum. */
  function TotalValue(l: Ledger, f: Frame, mark: nat, prefix: int): int {
    Sum(l.holders, Worth(f, mark, prefix))
  }

  predicate Sound(l: Ledger, f: Frame) {
    && (forall i :: 0 <= i < |l.holders| && l.holders[i].position.marketIndex == f.index ==>
          ZeroEntry(l.holders[i].position))
    && l.openInterest == Sum(l.holders, Exposure(f))
  }

  lemma {:induction false} SumAfterTrade(l: Ledger, t: Trade, o: Outcome, g: Holder -> int)
    requires t.taker < |l.holders| && t.maker < |l.holders| && t.feeAccount < |l.holders| && t.taker != t.maker
    ensures var both := l.holders[t.taker := o.taker.holder][t.maker := o.maker.holder];
            Sum(Settle(l, t, o).holders, g)
              == Sum(l.holders, g) - g(l.holders[t.taker]) + g(o.taker.holder)
                 - g(l.holders[t.maker]) + g(o.maker.holder)
                 - g(both[t.feeAccount]) + g(Credit(both[t.feeAccount], o.fees))
  {
    var one := l.holders[t.taker := o.taker.holder];
    var both := one[t.maker := o.maker.holder];
    SumUpdate(l.holders, t.taker, o.taker.holder, g);
    SumUpdate(one, t.maker, o.maker.holder, g);
    SumUpdate(both, t.feeAccount, Credit(both[t.feeAccount], o.fees), g);
  }

  /** Both sides and the fee account: gains cancel. */
  lemma {:induction false} GainsCancel(
    delta: int, quote: int, takerFee: int, makerFee: int, m: Market, mark: nat, prefix: int)
    ensures Gain(delta, quote, takerFee, m, mark, prefix) + Gain(-delta, quote, makerFee, m, mark, prefix)
         == -(takerFee + makerFee)
  {
    var k := m.quoteMultiplier * mark;
    assert k * -delta == -(k * delta);
    assert Sign(-delta) * quote == -(Sign(delta) * quote);
    assert -delta * m.quoteMultiplier == -(delta * m.quoteMultiplier);
    assert -(delta * m.quoteMultiplier) * (m.fundingPrefix - prefix)
        == -(delta * m.quoteMultiplier * (m.fundingPrefix - prefix));
  }

  lemma {:induction false} TradeMovesInterest(
    h: Holder, delta: int, quote: int, base: nat, fee: int, m: Market, f: Frame)
    requires m.index == f.index
    ensures var side := TradeSide(h, delta, quote, base, fee, m);
            side.openInterestDelta == Exposure(f)(side.holder) - Exposure(f)(h)
  {
    SidePosition(h, delta, quote, base, fee, m);
  }

  /** What a buyer's worth gains before fees: the notional of the base less the quote, and the funding between the
      prefix sum of the trade and a later one. */
  function BuyerGain(base: nat, quote: int, m: Market, mark: nat, prefix: int): int {
    USDC_TO_COLLATERAL_MULTIPLIER * (m.quoteMultiplier * mark * base - quote)
    + base * m.quoteMultiplier * (m.fundingPrefix - prefix)
  }

  function WorthOf(h: Holder, m: Market, mark: nat, prefix: int): int {
    Value(h, m.index, mark, m.quoteMultiplier, prefix)
  }

  lemma {:induction false} SideIsFair(
    h: Holder, isAsk: bool, quote: int, base: nat, fee: int, m: Market, mark: nat, prefix: int)
    requires h.position.marketIndex == m.index ==> ZeroEntry(h.position)
    requires base > 0
    ensures var delta: int := if isAsk then 0 - base else base;
            var gain := BuyerGain(base, quote, m, mark, prefix);
            WorthOf(TradeSide(h, delta, quote, base, fee, m).holder, m, mark, prefix)
              == WorthOf(h, m, mark, prefix) + (if isAsk then -gain else gain) - fee
  {
    SideValue(h, if isAsk then 0 - base else base, quote, base, fee, m, mark, prefix);
    GainsCancel(base, quote, fee, fee, m, mark, prefix);
  }

  lemma {:induction false} OutcomeOfSides(taker: Holder, maker: Holder, o: Order, openInterest: int, m: Market)
    ensures var r := PerpsTrade.PerpsTrade(taker, maker, o, openInterest, m);
            var takerFee, makerFee := o.quote * o.takerFee, o.quote * o.makerFee;
            var delta: int := if o.isTakerAsk then 0 - o.base else o.base;
            && (r.None? <==> takerFee + makerFee < 0)
            && (r.Some? ==>
                  && r.value.fees == takerFee + makerFee
                  && r.value.taker == TradeSide(taker, delta, o.quote, o.base, takerFee, m)
                  && r.value.maker == TradeSide(maker, -delta, o.quote, o.base, makerFee, m))
  {
  }

  /** Who pays what. Valued at any mark price and funding prefix sum, the buyer's worth moves by the notional of the
      base less the quote and by the funding between the two prefix sums, the seller's the opposite way; each side
      pays its own fee, and the fees collected are the two together. */
  lemma {:induction false} SidesAreFair(
    taker: Holder, maker: Holder, o: Order, openInterest: int, m: Market, mark: nat, prefix: int)
    requires taker.position.marketIndex == m.index ==> ZeroEntry(taker.position)
    requires maker.position.marketIndex == m.index ==> ZeroEntry(maker.position)
    requires o.base > 0 && PerpsTrade.PerpsTrade(taker, maker, o, openInterest, m).Some?
    ensures var r := PerpsTrade.PerpsTrade(taker, maker, o, openInterest, m).value;
            var gain := BuyerGain(o.base, o.quote, m, mark, prefix);
            && r.fees == o.quote * o.takerFee + o.quote * o.makerFee
            && WorthOf(r.taker.holder, m, mark, prefix)
                 == WorthOf(taker, m, mark, prefix) + (if o.isTakerAsk then -gain else gain) - o.quote * o.takerFee
            && WorthOf(r.maker.holder, m, mark, prefix)
                 == WorthOf(maker, m, mark, prefix) + (if o.isTakerAsk then gain else -gain) - o.quote * o.makerFee
  {
    OutcomeOfSides(taker, maker, o, openInterest, m);
    SideIsFair(taker, o.isTakerAsk, o.quote, o.base, o.quote * o.takerFee, m, mark, prefix);
    SideIsFair(maker, !o.isTakerAsk, o.quote, o.base, o.quote * o.makerFee, m, mark, prefix);
  }

  lemma {:induction false} TradeConserves(l: Ledger, f: Frame, t: Trade, mark: nat, prefix: int)
    requires Sound(l, f) && Executes(l, f, t)
    ensures TotalValue(Execute(l, f, t), f, mark, prefix) == TotalValue(l, f, mark, prefix)
  {
    var o, m := t.order, t.market;
    var taker, maker := l.holders[t.taker], l.holders[t.maker];
    var r := PerpsTrade.PerpsTrade(taker, maker, o, l.openInterest, m).value;
    SideValue(taker, TakerDelta(o), o.quote, o.base, o.quote * o.takerFee, m, mark, prefix);
    SideValue(maker, -TakerDelta(o), o.quote, o.base, o.quote * o.makerFee, m, mark, prefix);
    GainsCancel(TakerDelta(o), o.quote, o.quote * o.takerFee, o.quote * o.makerFee, m, mark, prefix);
    SumAfterTrade(l, t, r, Worth(f, mark, prefix));
  }

  lemma {:induction false} TradeKeepsSound(l: Ledger, f: Frame, t: Trade)
    requires Sound(l, f) && Executes(l, f, t)
    ensures Sound(Execute(l, f, t), f)
  {
    var o, m := t.order, t.market;
    var taker, maker := l.holders[t.taker], l.holders[t.maker];
    SideValue(taker, TakerDelta(o), o.quote, o.base, o.quote * o.takerFee, m, 0, 0);
    SideValue(maker, -TakerDelta(o), o.quote, o.base, o.quote * o.makerFee, m, 0, 0);
    TradeMovesInterest(taker, TakerDelta(o), o.quote, o.base, o.quote * o.takerFee, m, f);
    TradeMovesInterest(maker, -TakerDelta(o), o.quote, o.base, o.quote * o.makerFee, m, f);
    SumAfterTrade(l, t, PerpsTrade.PerpsTrade(taker, maker, o, l.openInterest, m).value, Exposure(f));
  }

  lemma {:induction false} SumCovers(holders: seq<Holder>, f: Frame, i: nat, j: nat)
    requires i < j < |holders|
    ensures Exposure(f)(holders[i]) + Exposure(f)(holders[j]) <= Sum(holders, Exposure(f))
  {
    var last := |holders| - 1;
    if j < last {
      SumCovers(holders[..last], f, i, j);
    } else {
      SumCoversOne(holders[..last], f, i);
    }
  }

  lemma {:induction false} SumCoversOne(holders: seq<Holder>, f: Frame, i: nat)
    requires i < |holders|
    ensures 0 <= Exposure(f)(holders[i]) <= Sum(holders, Exposure(f))
  {
    var last := |holders| - 1;
    if i < last {
      SumCoversOne(holders[..last], f, i);
    } else if last > 0 {
      SumCoversOne(holders[..last], f, 0);
    }
  }

  /** Open interest covers the positions of any two accounts, so an exit or a trade never takes it below zero. */
  lemma {:induction false} InterestCovers(l: Ledger, f: Frame, i: nat, j: nat)
    requires Sound(l, f) && i < |l.holders| && j < |l.holders| && i != j
    ensures Exposure(f)(l.holders[i]) + Exposure(f)(l.holders[j]) <= l.openInterest
  {
    SumCovers(l.holders, f, if i < j then i else j, if i < j then j else i);
  }

  predicate RunExecutes(l: Ledger, f: Frame, trades: seq<Trade>)
    decreases |trades|
  {
    trades == [] || (Executes(l, f, trades[0]) && RunExecutes(Execute(l, f, trades[0]), f, trades[1..]))
  }

  function RunTrades(l: Ledger, f: Frame, trades: seq<Trade>): Ledger
    requires RunExecutes(l, f, trades)
    decreases |trades|
  {
    if trades == [] then l else RunTrades(Execute(l, f, trades[0]), f, trades[1..])
  }

  /** Conservation. No run of trades, at whatever mark prices and funding prefix sums it happens, changes what
      all accounts together are worth, valued at any mark price and funding prefix sum; open interest stays
      the sum of all position sizes. */
  lemma {:induction false} RunConserves(l: Ledger, f: Frame, trades: seq<Trade>, mark: nat, prefix: int)
    requires Sound(l, f) && RunExecutes(l, f, trades)
    ensures Sound(RunTrades(l, f, trades), f)
    ensures TotalValue(RunTrades(l, f, trades), f, mark, prefix) == TotalValue(l, f, mark, prefix)
    decreases |trades|
  {
    if trades != [] {
      TradeConserves(l, f, trades[0], mark, prefix);
      TradeKeepsSound(l, f, trades[0]);
      RunConserves(Execute(l, f, trades[0]), f, trades[1..], mark, prefix);
    }
  }

  /** Why a fill needs a positive base: with base zero a side's value changes by its fee alone exactly when it
      has a position or the quote is not positive. On an empty position a positive quote would be booked as entry
      quote and count as profit in full. */
  lemma {:induction false} EmptyFillConservesIff(h: Holder, quote: int, fee: int, m: Market, mark: nat, prefix: int)
    requires h.position.marketIndex == m.index ==> ZeroEntry(h.position)
    ensures var after := TradeSide(h, 0, quote, 0, fee, m).holder;
            var counted := if InitIfEmpty(h.position, h.pool, m).size == 0 then Max(quote, 0) else 0;
            && Gain(0, quote, fee, m, mark, prefix) == -fee
            && Value(after, m.index, mark, m.quoteMultiplier, prefix)
                 == Value(h, m.index, mark, m.quoteMultiplier, prefix) - fee + USDC_TO_COLLATERAL_MULTIPLIER * counted
            && (counted == 0 <==> InitIfEmpty(h.position, h.pool, m).size != 0 || quote <= 0)
  {
    var start := InitIfEmpty(h.position, h.pool, m);
    InitKeepsValue(h, m, mark, prefix);
    SidePosition(h, 0, quote, 0, fee, m);
    var after := TradeSide(h, 0, quote, 0, fee, m).holder.position;
    assert Gain(0, quote, fee, m, mark, prefix) == 0 - fee by {
      assert m.quoteMultiplier * mark * 0 == 0;
    }
    FundingSplits(start.size, 0, m.quoteMultiplier, start.lastFunding, m.fundingPrefix, prefix);
    if start.size != 0 {
      WholeShare(start.entryQuote, Abs(start.size));
    } else {
      assert m.quoteMultiplier * mark * 0 == 0;
    }
  }

  lemma {:induction false} WholeShare(entry: nat, size: nat)
    requires size > 0
    ensures Div(entry * size, size) == entry
  {
    DivIsLargest(entry * size, size, entry);
    DivIsSmallest(entry * size, size, entry);
  }

  // Entry quotes

  /** Reducing keeps the entry quote of what is left pro rata, rounded down by less than one. */
  lemma {:induction false} ReducedEntryIsProRata(p: Position, delta: int, quote: int, base: nat)
    requires p.size != 0 && Sign(p.size + delta) == Sign(p.size) == -Sign(delta)
    ensures var entry, left := NewEntryQuote(p, delta, quote, base), Abs(p.size + delta);
            && entry * Abs(p.size) <= p.entryQuote * left < (entry + 1) * Abs(p.size)
            && entry <= p.entryQuote
  {
    var left := Abs(p.size + delta);
    DivBounds(p.entryQuote * left, Abs(p.size));
    MulMono(left, Abs(p.size), p.entryQuote);
    DivIsSmallest(p.entryQuote * left, Abs(p.size), p.entryQuote);
  }

  /** At a fill of the engine, whose quote is base times a price, opening, adding and flipping book exactly the
      price of what is opened. */
  lemma {:induction false} OpenedEntryIsAtPrice(p: Position, delta: int, price: nat, base: nat)
    requires base > 0 && Abs(delta) == base && price > 0
    ensures Sign(p.size) != Sign(p.size + delta) ==>
              NewEntryQuote(p, delta, base * price, base) == price * Abs(p.size + delta)
    ensures Sign(p.size) == Sign(p.size + delta) == Sign(delta) ==>
              NewEntryQuote(p, delta, base * price, base) == p.entryQuote + price * base
  {
    assert base * price == price * base > 0;
    DivIsLargest(base * price, base, price);
    DivIsSmallest(base * price, base, price);
  }

  /** At any other quote what is opened is booked at the greatest whole price within it, and at nothing for a quote
      that is not positive. */
  lemma {:induction false} OpenedEntryIsAtWholePrice(p: Position, delta: int, quote: int, base: nat)
    returns (price: nat)
    requires Sign(p.size) != Sign(p.size + delta) && base > 0
    ensures NewEntryQuote(p, delta, quote, base) == price * Abs(p.size + delta)
    ensures if quote > 0 then price * base <= quote < (price + 1) * base else price == 0
  {
    price := if quote > 0 then Div(quote, base) else 0;
    if quote > 0 {
      DivBounds(quote, base);
    }
  }

  // Isolated margin

  /** Closing pays out all that is left of margin, funding, profit and fee; a loss stays with the position. */
  lemma {:induction false} ClosingReleasesMargin(h: Holder, delta: int, quote: int, base: nat, fee: int, m: Market)
    requires var start := InitIfEmpty(h.position, h.pool, m);
             start.isolated && delta != 0 && start.size + delta == 0
    ensures var start, after := InitIfEmpty(h.position, h.pool, m), TradeSide(h, delta, quote, base, fee, m).holder;
            var paid := -Sign(start.size) * (start.entryQuote - quote);
            var left := start.margin + FundingDelta(start, m) + paid * USDC_TO_COLLATERAL_MULTIPLIER - fee;
            && after.position.size == 0 && after.position.entryQuote == 0
            && after.position.margin == Min(left, 0) && after.cross == h.cross + Max(left, 0)
  {
    MarginMoves(h, delta, quote, base, fee, m);
    ClosingRealizes(Funded(InitIfEmpty(h.position, h.pool, m), m), delta, quote, base, m);
  }

  lemma {:induction false} ClosingRealizes(p: Position, delta: int, quote: int, base: nat, m: Market)
    requires delta != 0 && p.size + delta == 0
    ensures var change := CalculatePositionChange(p, delta, quote, base, m);
            change.position.entryQuote == 0 && change.realized == -Sign(p.size) * (p.entryQuote - quote)
  {
  }

  /** Margin does not enter profit or requirement. */
  lemma {:induction false} MarginIsValue(p: Position, moved: int, m: Market)
    ensures var after := p.(margin := p.margin + moved);
            && MarketValue(after, m) == MarketValue(p, m) + moved
            && (forall size: nat :: MarginRequirement(after, size, m) == MarginRequirement(p, size, m))
  {
  }

  /** The worth that margin is measured by is the position's value at the mark price with funding settled. */
  lemma {:induction false} MarketValueIsValue(p: Position, m: Market)
    requires p.isolated && p.marketIndex == m.index && p.lastFunding == m.fundingPrefix
    ensures MarketValue(p, m) == PositionValue(p, m.index, m.markPrice, m.quoteMultiplier, m.fundingPrefix)
  {
    assert p.size * m.quoteMultiplier * 0 == 0;
  }

  /** A first trade opens in the market's default mode, for pools always cross; a trade stores the larger of the
      market's least margin fraction and the position's own, or the market's default while it has none. */
  lemma {:induction false} TradeSetsMode(h: Holder, delta: int, quote: int, base: nat, fee: int, m: Market)
    requires m.index != 255
    ensures var p := TradeSide(h, delta, quote, base, fee, m).holder.position;
            var other := h.position.marketIndex != m.index;
            var own := if other then 0 else h.position.initialMarginFraction;
            && p.isolated == (if other then !h.pool && m.defaultIsolated else h.position.isolated)
            && p.initialMarginFraction >= m.minMarginFraction
            && p.initialMarginFraction >= (if own == 0 then m.defaultMarginFraction else own)
            && p.initialMarginFraction in {m.minMarginFraction, if own == 0 then m.defaultMarginFraction else own}
  {
  }

  /** What a traded position must hold for part of its size, by the margin fraction it stores. */
  function Required(p: Position, size: nat, m: Market): nat {
    size * (m.markPrice * m.quoteMultiplier * MARGIN_FRACTION_MULTIPLIER * p.initialMarginFraction)
  }

  lemma {:induction false} StoredFraction(p: Position, moved: int, size: nat, m: Market)
    requires p.initialMarginFraction == InitialMarginFraction(p, m)
    ensures MarginRequirement(p, size, m) == Required(p.(margin := p.margin + moved), size, m)
  {
  }

  /** A flipped position is worth exactly its requirement. */
  lemma {:induction false} FlippingMeetsRequirement(h: Holder, delta: int, quote: int, base: nat, fee: int, m: Market)
    requires var start := InitIfEmpty(h.position, h.pool, m);
             start.isolated && start.size != 0 && Sign(start.size + delta) == -Sign(start.size)
    ensures var after := TradeSide(h, delta, quote, base, fee, m).holder.position;
            MarketValue(after, m) == Required(after, Abs(after.size), m)
  {
    var side := TradeSide(h, delta, quote, base, fee, m);
    var p := Unmoved(InitIfEmpty(h.position, h.pool, m), delta, quote, base, fee, m);
    MarginMoves(h, delta, quote, base, fee, m);
    MarginIsValue(p, side.marginDelta, m);
    StoredFraction(p, side.marginDelta, Abs(p.size), m);
  }

  /** Worth that a reduced position must keep: its requirement and, if it was worth anything, its share. */
  predicate KeepsEnough(before: Position, after: Position, value: int, m: Market) {
    && value >= Required(after, Abs(after.size), m)
    && (MarketValue(before, m) > 0 ==> value * Abs(before.size) >= MarketValue(before, m) * Abs(after.size))
  }

  lemma {:induction false} EnoughIffTarget(before: Position, p: Position, after: Position, m: Market)
    requires before.size != 0 && after.size == p.size
    requires MarginRequirement(p, Abs(p.size), m) == Required(after, Abs(after.size), m)
    ensures forall value: int :: KeepsEnough(before, after, value, m) <==> value >= TargetValue(before, p, m)
  {
    forall value: int ensures KeepsEnough(before, after, value, m) <==> value >= TargetValue(before, p, m) {
      if MarketValue(before, m) > 0 {
        CeilDivIsLeast(MarketValue(before, m) * Abs(p.size), Abs(before.size), value);
      }
    }
  }

  /** The amount above a target, but no more than there is. */
  lemma {:induction false} MostAboveTarget(value: int, margin: int, target: int, moved: int)
    requires moved == -Min(Max(value - target, 0), Max(margin, 0))
    ensures -Max(margin, 0) <= moved <= 0 && (moved < 0 ==> value + moved >= target)
    ensures margin + moved > 0 ==> value + moved <= target
  {
  }

  lemma {:induction false} ReducedMove(h: Holder, delta: int, quote: int, base: nat, fee: int, m: Market)
    requires var start := InitIfEmpty(h.position, h.pool, m);
             start.isolated && start.size != 0 && Sign(start.size + delta) == Sign(start.size) == -Sign(delta)
    ensures var start, side := InitIfEmpty(h.position, h.pool, m), TradeSide(h, delta, quote, base, fee, m);
            var before, p := Funded(start, m), Unmoved(start, delta, quote, base, fee, m);
            && side.marginDelta
                 == -Min(Max(MarketValue(p, m) - TargetValue(before, p, m), 0), Max(p.margin, 0))
            && side.holder.position.margin == p.margin + side.marginDelta
            && side.holder.position.size == p.size
            && MarketValue(side.holder.position, m) == MarketValue(p, m) + side.marginDelta
            && MarginRequirement(p, Abs(p.size), m) == Required(side.holder.position, Abs(p.size), m)
  {
    var start, side := InitIfEmpty(h.position, h.pool, m), TradeSide(h, delta, quote, base, fee, m);
    var p := Unmoved(start, delta, quote, base, fee, m);
    MarginMoves(h, delta, quote, base, fee, m);
    MarginIsValue(p, side.marginDelta, m);
    StoredFraction(p, side.marginDelta, Abs(p.size), m);
  }

  /** Reducing moves out margin only while enough is kept, never more than there is, and then all it may. */
  lemma {:induction false} ReducingKeepsTarget(h: Holder, delta: int, quote: int, base: nat, fee: int, m: Market)
    requires var start := InitIfEmpty(h.position, h.pool, m);
             start.isolated && start.size != 0 && Sign(start.size + delta) == Sign(start.size) == -Sign(delta)
    ensures var before, side := Funded(InitIfEmpty(h.position, h.pool, m), m), TradeSide(h, delta, quote, base, fee, m);
            var after, moved := side.holder.position, side.marginDelta;
            && -Max(after.margin - moved, 0) <= moved <= 0
            && (moved < 0 ==> KeepsEnough(before, after, MarketValue(after, m), m))
            && (forall less: int :: MarketValue(after, m) - after.margin <= less < MarketValue(after, m) ==>
                  !KeepsEnough(before, after, less, m))
  {
    var start, side := InitIfEmpty(h.position, h.pool, m), TradeSide(h, delta, quote, base, fee, m);
    var before, p := Funded(start, m), Unmoved(start, delta, quote, base, fee, m);
    ReducedMove(h, delta, quote, base, fee, m);
    MostAboveTarget(MarketValue(p, m), p.margin, TargetValue(before, p, m), side.marginDelta);
    EnoughIffTarget(before, p, side.holder.position, m);
  }

  /** Opening at a quote that is a price times the base, as the engine's are, or adding at any positive quote
      realizes nothing. Margin moves in only as far as the value must grow by the requirement of what was added. */
  lemma {:induction false} AddingIsFunded(h: Holder, delta: int, quote: int, base: nat, fee: int, m: Market)
    requires var start := InitIfEmpty(h.position, h.pool, m);
             && start.isolated && delta != 0 && quote > 0 && Sign(start.size) != -Sign(delta)
             && (start.size == 0 ==> base == Abs(delta) && quote % base == 0)
    ensures var before, side := Funded(InitIfEmpty(h.position, h.pool, m), m), TradeSide(h, delta, quote, base, fee, m);
            var after := side.holder.position;
            var growth, required := MarketValue(after, m) - MarketValue(before, m), Required(after, Abs(delta), m);
            && CalculatePositionChange(before, delta, quote, base, m).realized == 0
            && growth >= required && side.marginDelta >= 0 && (side.marginDelta > 0 ==> growth == required)
  {
    var start, side := InitIfEmpty(h.position, h.pool, m), TradeSide(h, delta, quote, base, fee, m);
    var before, p := Funded(start, m), Unmoved(start, delta, quote, base, fee, m);
    if start.size == 0 {
      OpeningBooksQuote(before, delta, quote, base);
    }
    NothingRealized(Sign(delta), before.entryQuote, quote);
    MarginMoves(h, delta, quote, base, fee, m);
    MarginIsValue(p, side.marginDelta, m);
    StoredFraction(p, side.marginDelta, Abs(delta), m);
    assert p.margin == before.margin - fee && Abs(p.size) - Abs(before.size) == Abs(delta);
  }

  lemma {:induction false} OpeningBooksQuote(p: Position, delta: int, quote: int, base: nat)
    requires p.size == 0 && base == Abs(delta) > 0 && quote > 0 && quote % base == 0
    ensures NewEntryQuote(p, delta, quote, base) == quote
  {
    assert quote == quote / base * base;
  }

  lemma {:induction false} NothingRealized(sign: int, entry: int, quote: int)
    ensures sign * (entry + quote) - (sign * entry + sign * quote) == 0
  {
  }
}
