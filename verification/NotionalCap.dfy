/** The cap on a market's open interest notional, over runs of everything that moves open interest or mark price:
    engine steps, oracle updates, deleveraging and exits. Engine steps rely on the cap to make progress.
 */
module NotionalCap {
  import opened Constants
  import opened Options
  import opened Numbers
  import opened MerkleOpenings
  import opened BookTree
  import Perps = PerpsTrade
  import opened Matching
  import opened MatchingProgress
  import opened MatchingLocks

  /** The parts of a perps market the cap is about. */
  datatype Capped = Capped(openInterest: nat, markPrice: nat, quoteMultiplier: nat)

  function Notional(m: Capped): nat {
    m.openInterest * (m.markPrice * m.quoteMultiplier)
  }

  predicate Within(m: Capped) {
    Notional(m) <= MARKET_OPEN_INTEREST_NOTIONAL && m.markPrice <= MAX_ORDER_PRICE
  }

  /** The largest mark price an oracle update may set. */
  function MaxMarkPrice(m: Capped): nat {
    if m.openInterest == 0 then MAX_ORDER_PRICE
    else Min(Div(Div(MARKET_OPEN_INTEREST_NOTIONAL, m.openInterest), m.quoteMultiplier), MAX_ORDER_PRICE)
  }

  predicate OracleAccepts(m: Capped, markPrice: nat) {
    markPrice <= MaxMarkPrice(m)
  }

  /** Two floor divisions in a row cut off exactly at the cap: nothing is lost to rounding. */
  lemma {:induction false} OracleAcceptsIff(m: Capped, markPrice: nat)
    requires m.quoteMultiplier > 0
    ensures OracleAccepts(m, markPrice) <==> Within(m.(markPrice := markPrice))
  {
    var cap, oi, q := MARKET_OPEN_INTEREST_NOTIONAL, m.openInterest, m.quoteMultiplier;
    if oi > 0 {
      var price := markPrice;
      assert oi * (price * q) == price * q * oi;
      if price <= Div(Div(cap, oi), q) {
        DivBounds(Div(cap, oi), q);
        MulMono(price, Div(Div(cap, oi), q), q);
        DivBounds(cap, oi);
        MulMono(price * q, Div(cap, oi), oi);
      }
      if price * q * oi <= cap {
        DivIsLargest(cap, oi, price * q);
        DivIsLargest(Div(cap, oi), q, price);
      }
    }
  }

  /** Deleveraging closes part of a bankrupt position against another account, without fees and without the
      notional test. Exits drop one position. */
  datatype Event =
    | Oracle(markPrice: nat)
    | Step(e: Env, s: Valid)
    | Deleverage(bankrupt: Perps.Holder, deleverager: Perps.Holder, size: nat, quote: int, market: Perps.Market)
    | Exit(position: int)

  /** Open interest counts every account's position. */
  predicate Covers(m: Capped, a: int, b: int) {
    Abs(a) + Abs(b) <= m.openInterest
  }

  predicate Shows(m: Capped, s: Valid) {
    && s.market.openInterest == m.openInterest && s.market.markPrice == m.markPrice
    && s.market.quoteMultiplier == m.quoteMultiplier
  }

  function SizeIn(h: Perps.Holder, market: Perps.Market): int {
    Perps.InitIfEmpty(h.position, h.pool, market).size
  }

  /** The bankrupt account is the taker, selling a long or buying back a short. */
  function DeleverageTrade(m: Capped, e: Event): Option<Perps.Outcome>
    requires e.Deleverage?
  {
    var order := Perps.Order(SizeIn(e.bankrupt, e.market) > 0, e.size, e.quote, 0, 0);
    Perps.PerpsTrade(e.bankrupt, e.deleverager, order, m.openInterest, e.market)
  }

  predicate Happens(m: Capped, e: Event) {
    match e
    case Oracle(price) => OracleAccepts(m, price)
    case Step(env, s) =>
      && Shows(m, s) && IsPerps(s) && Covers(m, SizeOf(s.taker.position), SizeOf(s.maker.position))
      && ExecuteMatching(env, s).Some?
    case Deleverage(bankrupt, deleverager, size, quote, market) =>
      && 0 < size <= Abs(SizeIn(bankrupt, market))
      && Covers(m, SizeIn(bankrupt, market), SizeIn(deleverager, market)) && DeleverageTrade(m, e).Some?
    case Exit(size) => Covers(m, size, 0)
  }

  function InterestAfter(m: Capped, e: Event): int
    requires Happens(m, e)
  {
    match e
    case Oracle(price) => m.openInterest
    case Step(env, s) => ExecuteMatching(env, s).value.s.market.openInterest
    case Deleverage(_, _, _, _, _) => DeleverageTrade(m, e).value.openInterest
    case Exit(size) => m.openInterest - Abs(size)
  }

  /** A side that only shrinks makes up for whatever the other side grows. */
  lemma {:induction false} ShrinkingSideCovers(a: int, b: int, delta: int)
    requires Sign(delta) == -Sign(a) && Abs(delta) <= Abs(a)
    ensures Abs(a + delta) - Abs(a) + (Abs(b - delta) - Abs(b)) <= 0
  {
  }

  lemma {:induction false} DeleverageShrinks(m: Capped, e: Event)
    requires e.Deleverage? && Happens(m, e)
    ensures 0 <= InterestAfter(m, e) <= m.openInterest
  {
    var a, b := SizeIn(e.bankrupt, e.market), SizeIn(e.deleverager, e.market);
    var delta: int := if a > 0 then 0 - e.size else e.size;
    ShrinkingSideCovers(a, b, delta);
    SideInterest(e.bankrupt, delta, e.quote, e.size, e.quote * 0, e.market);
    SideInterest(e.deleverager, -delta, e.quote, e.size, e.quote * 0, e.market);
  }

  lemma {:induction false} SideInterest(
    h: Perps.Holder, delta: int, quote: int, base: nat, fee: int, market: Perps.Market)
    ensures var size := SizeIn(h, market);
            Perps.TradeSide(h, delta, quote, base, fee, market).openInterestDelta == Abs(size + delta) - Abs(size)
  {
  }

  /** A step leaves open interest where it was, or within the cap after its trade. */
  lemma {:induction false} StepMovesInterest(e: Env, s: Valid)
    requires ExecuteMatching(e, s).Some? && IsPerps(s) && !OverCap(s.market, s.market.openInterest)
    ensures var m := ExecuteMatching(e, s).value.s.market;
            && !OverCap(s.market, m.openInterest)
            && (m.openInterest == s.market.openInterest || m.openInterest == NewInterest(s, TradeAmount(s)))
            && m.markPrice == s.market.markPrice && m.quoteMultiplier == s.market.quoteMultiplier
  {
    var d, m := Decided(e, s), Middle(e, s);
    SelfTradesKeepMarket(e, s, Opening(e, s));
    UndecidedIsUntouched(e, s);
    ConcludeKeepsInterest(m.s, m.f);
    if Checked(e, d).on {
      ChecksTakeNothing(e, d);
      TradedWithinCap(e, d);
    }
  }

  lemma {:induction false} InterestNotNegative(m: Capped, s: Valid)
    requires Shows(m, s) && Covers(m, SizeOf(s.taker.position), SizeOf(s.maker.position))
    ensures NewInterest(s, TradeAmount(s)) >= 0
  {
  }

  lemma {:induction false} NextIsNatural(m: Capped, e: Event)
    requires Happens(m, e) && Within(m)
    ensures InterestAfter(m, e) >= 0
  {
    match e
    case Oracle(_) =>
    case Step(env, s) =>
      StepMovesInterest(env, s);
      InterestNotNegative(m, s);
    case Deleverage(_, _, _, _, _) => DeleverageShrinks(m, e);
    case Exit(_) =>
  }

  function Next(m: Capped, e: Event): (next: Capped)
    requires Happens(m, e) && Within(m)
  {
    NextIsNatural(m, e);
    m.(openInterest := InterestAfter(m, e), markPrice := if e.Oracle? then e.markPrice else m.markPrice)
  }

  lemma {:induction false} NextKeepsCap(m: Capped, e: Event)
    requires Happens(m, e) && Within(m) && m.quoteMultiplier > 0
    ensures Within(Next(m, e))
  {
    match e
    case Oracle(price) => OracleAcceptsIff(m, price);
    case Step(env, s) => StepMovesInterest(env, s);
    case Deleverage(_, _, _, _, _) =>
      DeleverageShrinks(m, e);
      MulMono(InterestAfter(m, e), m.openInterest, m.markPrice * m.quoteMultiplier);
    case Exit(_) => MulMono(InterestAfter(m, e), m.openInterest, m.markPrice * m.quoteMultiplier);
  }

  ghost predicate Runs(m: Capped, events: seq<Event>)
    requires Within(m) && m.quoteMultiplier > 0
    decreases |events|
  {
    events == []
    || (Happens(m, events[0]) && (NextKeepsCap(m, events[0]); Runs(Next(m, events[0]), events[1..])))
  }

  ghost function Run(m: Capped, events: seq<Event>): (end: Capped)
    requires Within(m) && m.quoteMultiplier > 0 && Runs(m, events)
    ensures Within(end) && end.quoteMultiplier == m.quoteMultiplier
    decreases |events|
  {
    if events == [] then m else
      NextKeepsCap(m, events[0]);
      Run(Next(m, events[0]), events[1..])
  }

  /** The cap holds after every run, so every accepted engine step that a run can go on with makes progress, it
      pops the taker or removes the resting order, unless its fill stalls. */
  lemma {:induction false} ReachableStepMakesProgress(m: Capped, events: seq<Event>, e: Env, s: Valid)
    requires Within(m) && m.quoteMultiplier > 0 && Runs(m, events)
    requires Happens(Run(m, events), Step(e, s)) && s.enabled && ReduceOnlyInPerps(s)
    ensures Within(Run(m, events)) && Within(Next(Run(m, events), Step(e, s)))
    ensures Decisive(ExecuteMatching(e, s).value.f) <==> !Stalls(e, s)
    ensures OppositeSides(s) ==> Decisive(ExecuteMatching(e, s).value.f)
  {
    NextKeepsCap(Run(m, events), Step(e, s));
    StepMakesProgressIff(e, s);
  }

  // Markets without market details

  /** Spot and binary options markets read empty market details, whose mark price is zero. */
  predicate DetailsOfPerpsOnly(s: Valid) {
    !IsPerps(s) ==> s.market.markPrice == 0
  }

  /** Their notional is zero: every step starts and ends within the cap, whatever their open interest. */
  lemma {:induction false} OtherMarketsWithinCap(e: Env, s: Valid)
    requires DetailsOfPerpsOnly(s) && !IsPerps(s)
    ensures WithinCap(s)
    ensures ExecuteMatching(e, s).Some? ==>
              && WithinCap(ExecuteMatching(e, s).value.s)
              && (s.enabled && ReduceOnlyInPerps(s) ==> Decisive(ExecuteMatching(e, s).value.f))
  {
    NoPriceNoNotional(s.market.openInterest, s.market.quoteMultiplier);
    if ExecuteMatching(e, s).Some? {
      StepKeepsCap(e, s);
      if s.enabled && ReduceOnlyInPerps(s) {
        StepMakesProgress(e, s);
      }
    }
  }
}
