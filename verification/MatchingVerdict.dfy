/** What a matching step decides, as one decision list over its input, independent of the cascade of flags; and that
    the cascade takes exactly that decision.
 */
module MatchingVerdict {
  import opened Constants
  import opened Options
  import opened Numbers
  import opened MerkleOpenings
  import opened BookTree
  import opened Matching
  import opened MatchingProgress

  /** `Reduce` shrinks both orders of one account, `Match` trades. */
  datatype Verdict = Idle | Rest | DropTaker | DropMaker | DropBoth | Reduce | Match

  predicate Removes(isAsk: bool, size: int) {
    if isAsk then size > 0 else size < 0
  }

  /** Decisions on the pending order and the market alone. */
  function AdmissionVerdict(s: Valid): Option<Verdict> {
    var r := Pending(s);
    if !s.enabled then Some(Idle)
    else if r.triggerStatus != TRIGGER_STATUS_NA then Some(Rest)
    else if s.market.marketType == MARKET_TYPE_PERPS && r.reduceOnly && !Removes(r.isAsk, s.taker.position.size)
    then Some(DropTaker)
    else if s.market.marketType == MARKET_TYPE_BINARY_OPTIONS && s.market.isFrozen
    then Some(if r.timeInForce == IOC then DropTaker else Rest)
    else None
  }

  /** Decisions on the leaf and the other side. */
  function FacingVerdict(s: Valid): Option<Verdict> {
    var r, top := Pending(s), s.path[|s.path| - 1].sums;
    if r.timeInForce == IOC && (if r.isAsk then top.bidBase else top.askBase) == 0 then Some(DropTaker)
    else if s.leaf.sums == Sums(0, 0, 0, 0) then Some(if r.timeInForce == IOC then DropTaker else Rest)
    else None
  }

  function PendingVerdict(s: Valid): Option<Verdict> {
    if AdmissionVerdict(s).Some? then AdmissionVerdict(s) else FacingVerdict(s)
  }

  /** Decisions on an order of the taker's own account. */
  function SelfTradeVerdict(e: Env, s: Valid): Option<Verdict> {
    var r, o := Pending(s), s.order;
    var reduce := if r.timeInForce == POST_ONLY then DropTaker else Reduce;
    if o.owner != r.account || (e.byMaster && !e.integratorFees) then None
    else if o.expiry <= e.timestamp then Some(DropMaker)
    else if e.integratorFees then Some(reduce)
    else if e.behavior == EXPIRE_MAKER then Some(DropMaker)
    else if e.behavior == EXPIRE_TAKER then Some(DropTaker)
    else if e.behavior == EXPIRE_BOTH then Some(DropBoth)
    else if e.behavior == REDUCE then Some(reduce)
    else None
  }

  /** Decisions on an order of another account. */
  function MeetingVerdict(e: Env, s: Valid): Option<Verdict> {
    var r, o := Pending(s), s.order;
    var oneMaster := e.byMaster && e.sameMaster && !e.integratorFees;
    if e.deadMansSwitch || o.expiry <= e.timestamp then Some(DropMaker)
    else if oneMaster && e.behavior == EXPIRE_MAKER then Some(DropMaker)
    else if oneMaster && e.behavior == EXPIRE_TAKER then Some(DropTaker)
    else if oneMaster && e.behavior == EXPIRE_BOTH then Some(DropBoth)
    else if r.timeInForce == POST_ONLY then Some(DropTaker)
    else if s.market.marketType == MARKET_TYPE_PERPS && o.reduceOnly && !Removes(o.isAsk, s.maker.position.size)
    then Some(DropMaker)
    else None
  }

  function Drop(taker: bool, maker: bool): Option<Verdict> {
    if taker && maker then Some(DropBoth) else if taker then Some(DropTaker) else if maker then Some(DropMaker)
    else None
  }

  /** Decisions on the trade itself. */
  function TradeVerdict(e: Env, s: Valid): Verdict {
    var r, m, base := Pending(s), s.market, TradeAmount(s);
    var t, k: int := if s.taker.position.stale then 0 else s.taker.position.size,
                     if s.maker.position.stale then 0 else s.maker.position.size;
    var bought: int := if r.isAsk then 0 - base else base;
    var interest := m.openInterest + (Abs(t + bought) - Abs(t)) + (Abs(k - bought) - Abs(k));
    var tooMuch := interest * (m.markPrice * m.quoteMultiplier) > MARKET_OPEN_INTEREST_NOTIONAL;
    if r.orderType in {MARKET_ORDER, STOP_LOSS_ORDER, TAKE_PROFIT_ORDER, TWAP_SUB_ORDER} && base == 0 then DropTaker
    else
      var first := Drop(e.takerRejected(base) || (m.marketType == MARKET_TYPE_PERPS && tooMuch), e.makerRejected(base));
      var second := if m.marketType == MARKET_TYPE_BINARY_OPTIONS
                    then Drop(e.takerOptionsRejected(base), e.makerOptionsRejected(base)) else None;
      if first.Some? then first.value else if second.Some? then second.value else Match
  }

  function VerdictOf(e: Env, s: Valid): Verdict {
    match PendingVerdict(s)
    case Some(v) => v
    case None =>
      match SelfTradeVerdict(e, s)
      case Some(v) => v
      case None => (match MeetingVerdict(e, s) case Some(v) => v case None => TradeVerdict(e, s))
  }

  /** The flags of a verdict, before an order that was filled is counted as finished. */
  function FlagsOf(v: Option<Verdict>, ok: bool): Flags {
    match v
    case None => Flags(ok, true, false, false, false)
    case Some(Match) => Flags(ok, true, false, false, false)
    case Some(Idle) => Flags(ok, false, false, false, false)
    case Some(Rest) => Flags(ok, false, false, false, true)
    case Some(DropTaker) => Flags(ok, false, true, false, false)
    case Some(DropMaker) => Flags(ok, false, false, true, false)
    case Some(DropBoth) => Flags(ok, false, true, true, false)
    case Some(Reduce) => Flags(ok, false, false, false, false)
  }

  lemma {:induction false} AdmittedTakesVerdict(s: Valid)
    requires Admitted(s).ok
    ensures Admitted(s) == FlagsOf(AdmissionVerdict(s), true)
  {
  }

  lemma {:induction false} FacedTakesVerdict(e: Env, s: Valid, f: Flags)
    requires f.ok && Faced(e, s, FacedSide(s, f)).ok
    ensures !f.on ==> Faced(e, s, FacedSide(s, f)) == f
    ensures f == Flags(true, true, false, false, false) ==>
              Faced(e, s, FacedSide(s, f)) == FlagsOf(FacingVerdict(s), true)
  {
  }

  lemma {:induction false} OpeningTakesVerdict(e: Env, s: Valid)
    requires Opening(e, s).ok
    ensures Opening(e, s) == FlagsOf(PendingVerdict(s), true)
  {
    assert Admitted(s).ok;
    AdmittedTakesVerdict(s);
    FacedTakesVerdict(e, s, Admitted(s));
  }

  /** Both orders of one account shrink by the smaller of the two amounts, and an empty one is finished. */
  predicate ReducesBoth(s: Valid, t: Engine) {
    var base := Min(Pending(s).size, s.order.remaining);
    && t.f == Flags(true, false, Pending(s).size == base, s.order.remaining == base, false)
    && Pending(t.s) == Pending(s).(size := Pending(s).size - base) && t.s.stack[1..] == s.stack[1..]
    && t.s.order == s.order.(remaining := s.order.remaining - base)
    && t.s.market == s.market && t.s.maker == s.maker && t.s.instructions == s.instructions
    && t.s.taker == s.taker.(assets := t.s.taker.assets)
  }

  lemma {:induction false} ReduceTakesVerdict(s: Valid, f: Flags)
    requires f == Flags(true, true, false, false, false) && SelfTradeReduce(s, f, true).f.ok
    ensures var t := SelfTradeReduce(s, f, true);
            if Pending(s).timeInForce == POST_ONLY then t == Engine(s, FlagsOf(Some(DropTaker), true))
            else ReducesBoth(s, t)
  {
    ReplacingFrontKeepsRest(s.stack, Pending(s).(size := Pending(s).size - AmountBoth(s)));
  }

  lemma {:induction false} ReduceIdle(s: Valid, f: Flags, flag: bool)
    requires !(f.on && flag)
    ensures SelfTradeReduce(s, f, flag) == Engine(s, f)
  {
  }

  lemma {:induction false} SelfTradesTakeVerdict(e: Env, s: Valid, f: Flags)
    requires f == Flags(true, true, false, false, false) && SelfTrades(e, s, f).f.ok
    ensures var t := SelfTrades(e, s, f);
            if SelfTradeVerdict(e, s) == Some(Reduce) then ReducesBoth(s, t)
            else t == Engine(s, FlagsOf(SelfTradeVerdict(e, s), true))
  {
    var withFees := SameAccount(s) && e.integratorFees;
    var f1 := CancelMakerIf(f, withFees && Expired(e, s));
    if withFees && !Expired(e, s) {
      var first := SelfTradeReduce(s, f, true);
      assert ReduceWithFees(e, s, f) == first;
      ReduceNeedsOk(first.s, SelfTradeCancels(e, first.s, first.f),
                    !e.byMaster && SameAccount(first.s) && e.behavior == REDUCE);
      CancelsNeedOk(e, first.s, first.f);
      ReduceTakesVerdict(s, f);
      ReduceIdle(first.s, first.f, !e.byMaster && SameAccount(first.s) && e.behavior == REDUCE);
    } else {
      ReduceIdle(s, f1, withFees);
      SecondReduceTakesVerdict(e, s, f1);
    }
  }

  lemma {:induction false} CancelsNeedOk(e: Env, s: Valid, f: Flags)
    ensures SelfTradeCancels(e, s, f).ok == f.ok && (!f.on ==> SelfTradeCancels(e, s, f) == f)
  {
  }

  lemma {:induction false} SecondReduceTakesVerdict(e: Env, s: Valid, f: Flags)
    requires !(SameAccount(s) && e.integratorFees && !Expired(e, s))
    requires f == CancelMakerIf(Flags(true, true, false, false, false),
                                SameAccount(s) && e.integratorFees && Expired(e, s))
    requires ReduceByMode(e, s, SelfTradeCancels(e, s, f)).f.ok
    ensures var t := ReduceByMode(e, s, SelfTradeCancels(e, s, f));
            if SelfTradeVerdict(e, s) == Some(Reduce) then ReducesBoth(s, t)
            else t == Engine(s, FlagsOf(SelfTradeVerdict(e, s), true))
  {
    var g, flag := SelfTradeCancels(e, s, f), !e.byMaster && SameAccount(s) && e.behavior == REDUCE;
    if g.on && flag {
      ReduceTakesVerdict(s, g);
    } else {
      ReduceIdle(s, g, flag);
    }
  }

  lemma {:induction false} ScreenTakesVerdict(e: Env, s: Valid, f: Flags)
    requires f == Flags(true, true, false, false, false) && BeforeTrade(e, s, f).ok
    ensures BeforeTrade(e, s, f) == FlagsOf(MeetingVerdict(e, s), true)
  {
  }

  lemma {:induction false} ChecksTakeVerdict(e: Env, s: Valid, f: Flags)
    requires f == Flags(true, true, false, false, false) && WithinCap(s)
    ensures Checked(e, Engine(s, f)) == FlagsOf(Some(TradeVerdict(e, s)), true)
  {
  }

  // Amounts

  predicate MarketLike(orderType: nat) {
    orderType in {MARKET_ORDER, STOP_LOSS_ORDER, TAKE_PROFIT_ORDER, TWAP_SUB_ORDER}
  }

  /** What a fill at the leaf's price loses per unit against the order's own price. */
  function Loss(s: Valid): int {
    if Pending(s).isAsk then Pending(s).price - s.leaf.price else s.leaf.price - Pending(s).price
  }

  /** An amount both orders have, and that reduces neither reduce-only position beyond zero. */
  predicate BothHave(s: Valid, amount: int) {
    && amount <= Pending(s).size && amount <= s.order.remaining
    && (s.order.reduceOnly ==> amount <= Abs(s.maker.position.size))
    && (Pending(s).reduceOnly ==> amount <= Abs(s.taker.position.size))
  }

  predicate BudgetPays(s: Valid, amount: int) {
    MarketLike(Pending(s).orderType) && Loss(s) > 0 ==> amount * Loss(s) <= Pending(s).slippage
  }

  /** The traded amount is the largest that both orders have and that the slippage budget of a market order pays
      for. */
  lemma {:induction false} TradeAmountIsLargest(s: Valid, amount: nat)
    ensures amount <= TradeAmount(s) <==> BothHave(s, amount) && BudgetPays(s, amount)
  {
    var gain := Improvement(Pending(s), s.leaf.price);
    if gain < 0 {
      DivIsGreatest(Pending(s).slippage, -gain, amount);
    }
  }

  /** Bought by the taker, sold by the maker. */
  function Bought(s: Valid): int {
    if Pending(s).isAsk then 0 - TradeAmount(s) else TradeAmount(s)
  }

  function EffectiveSize(p: Position): int {
    if p.stale then 0 else p.size
  }

  function SizeAfter(s: Valid, p: Position, bought: int): int {
    if s.market.marketType == MARKET_TYPE_PERPS then EffectiveSize(p) + bought else p.size
  }

  /** A traded taker is finished when it is filled, has nothing left to reduce, could trade more but for its budget, or
      is a liquidation that is no longer needed. */
  predicate TakerEnds(e: Env, s: Valid) {
    var r, base := Pending(s), TradeAmount(s);
    || base == r.size
    || (r.reduceOnly && !Removes(r.isAsk, SizeAfter(s, s.taker.position, Bought(s))))
    || (MarketLike(r.orderType) && Loss(s) > 0 && BothHave(s, base + 1))
    || (r.orderType == LIQUIDATION_ORDER && !e.inLiquidation(base))
  }

  predicate MakerEnds(s: Valid) {
    || TradeAmount(s) == s.order.remaining
    || (s.order.reduceOnly && !Removes(s.order.isAsk, SizeAfter(s, s.maker.position, -Bought(s))))
  }

  lemma {:induction false} EndsIff(e: Env, s: Valid)
    ensures TakerFinished(e, s) == TakerEnds(e, s) && MakerFinished(s) == MakerEnds(s)
  {
    TradeAmountIsLargest(s, TradeAmount(s));
    TradeAmountIsLargest(s, TradeAmount(s) + 1);
    SlippageCut(s);
  }

  lemma {:induction false} SlippageCut(s: Valid)
    ensures TooMuchSlippage(s) <==> MarketLike(Pending(s).orderType) && Loss(s) > 0 && BothHave(s, TradeAmount(s) + 1)
  {
  }

  // The whole step

  /** The flags a step ends with. */
  function FinalFlags(e: Env, s: Valid): Flags {
    var base := Min(Pending(s).size, s.order.remaining);
    match VerdictOf(e, s)
    case Match => Flags(true, true, TakerEnds(e, s), MakerEnds(s), false)
    case Reduce => Flags(true, false, Pending(s).size == base, s.order.remaining == base, false)
    case v => FlagsOf(Some(v), true)
  }

  /** What a step takes off both orders. */
  function TakenBy(e: Env, s: Valid): nat {
    match VerdictOf(e, s)
    case Match => TradeAmount(s)
    case Reduce => Min(Pending(s).size, s.order.remaining)
    case _ => 0
  }

  /** The verdict before the trade itself is looked at. */
  function EarlyVerdict(e: Env, s: Valid): Option<Verdict> {
    if PendingVerdict(s).Some? then PendingVerdict(s)
    else if SelfTradeVerdict(e, s).Some? then SelfTradeVerdict(e, s)
    else MeetingVerdict(e, s)
  }

  /** The state and flags a verdict leads to. */
  predicate Follows(s: Valid, v: Option<Verdict>, t: Engine) {
    if v == Some(Reduce) then ReducesBoth(s, t) else t == Engine(s, FlagsOf(v, true))
  }

  lemma {:induction false} DecidedNeedsOk(e: Env, s: Valid)
    requires Decided(e, s).f.ok
    ensures Opening(e, s).ok && SelfTrades(e, s, Opening(e, s)).f.ok
  {
    var t := SelfTrades(e, s, Opening(e, s));
    BeforeTradeNeedsOk(e, t.s, t.f);
    SelfTradesNeedOk(e, s, Opening(e, s));
  }

  lemma {:induction false} PendingTakesVerdict(e: Env, s: Valid)
    requires Opening(e, s).ok && PendingVerdict(s).Some?
    ensures PendingVerdict(s) != Some(Reduce) && Decided(e, s) == Engine(s, FlagsOf(PendingVerdict(s), true))
  {
    OpeningTakesVerdict(e, s);
    AllIdle(e, s, Opening(e, s));
  }

  lemma {:induction false} MeetingTakesVerdict(e: Env, s: Valid)
    requires Decided(e, s).f.ok && Opening(e, s).ok && SelfTrades(e, s, Opening(e, s)).f.ok && PendingVerdict(s).None?
    ensures Follows(s, EarlyVerdict(e, s), Decided(e, s))
  {
    OpeningTakesVerdict(e, s);
    MetTakesVerdict(e, s, Opening(e, s));
  }

  lemma {:induction false} DecidedTakesVerdict(e: Env, s: Valid)
    requires Decided(e, s).f.ok
    ensures Follows(s, EarlyVerdict(e, s), Decided(e, s))
  {
    DecidedNeedsOk(e, s);
    if PendingVerdict(s).Some? {
      PendingTakesVerdict(e, s);
    } else {
      MeetingTakesVerdict(e, s);
    }
  }

  lemma {:induction false} MetTakesVerdict(e: Env, s: Valid, f: Flags)
    requires f == Flags(true, true, false, false, false) && SelfTrades(e, s, f).f.ok
    requires var t := SelfTrades(e, s, f); BeforeTrade(e, t.s, t.f).ok
    ensures var v := if SelfTradeVerdict(e, s).Some? then SelfTradeVerdict(e, s) else MeetingVerdict(e, s);
            var t := SelfTrades(e, s, f);
            Follows(s, v, Engine(t.s, BeforeTrade(e, t.s, t.f)))
  {
    var t := SelfTrades(e, s, f);
    SelfTradesTakeVerdict(e, s, f);
    if SelfTradeVerdict(e, s).Some? {
      ScreenIdle(e, t.s, t.f);
    } else {
      ScreenTakesVerdict(e, s, f);
    }
  }

  lemma {:induction false} ScreenIdle(e: Env, s: Valid, f: Flags)
    requires !f.on
    ensures BeforeTrade(e, s, f) == f
  {
  }

  lemma {:induction false} AllIdle(e: Env, s: Valid, f: Flags)
    requires !f.on
    ensures SelfTrades(e, s, f) == Engine(s, f) && BeforeTrade(e, s, f) == f
  {
  }

  lemma {:induction false} ChecksIdle(e: Env, d: Engine)
    requires !d.f.on && WithinCap(d.s)
    ensures Checked(e, d) == d.f
  {
  }

  /** The state between the trade and the conclusion follows the whole verdict. */
  predicate FollowsTo(e: Env, s: Valid, m: Engine) {
    && m.f == FinalFlags(e, s)
    && (VerdictOf(e, s) == Reduce ==> ReducesBoth(s, m))
    && (VerdictOf(e, s) == Match ==> m.s == Middle(e, s).s)
    && (VerdictOf(e, s) !in {Reduce, Match} ==> m.s == s)
  }

  lemma {:induction false} EarlyIsFinal(e: Env, s: Valid, m: Engine)
    requires EarlyVerdict(e, s).Some? && Follows(s, EarlyVerdict(e, s), m)
    ensures VerdictOf(e, s) == EarlyVerdict(e, s).value != Match && FollowsTo(e, s, m) && !m.f.on
  {
  }

  lemma {:induction false} IdleTrade(e: Env, s: Valid, f: Flags)
    requires !f.on
    ensures ApplyTrade(e, s, f) == Engine(s, f)
  {
  }

  lemma {:induction false} EarlyTakesVerdict(e: Env, s: Valid)
    requires WithinCap(s) && Decided(e, s).f.ok && EarlyVerdict(e, s).Some?
    ensures FollowsTo(e, s, Middle(e, s)) && !Checked(e, Decided(e, s)).on && VerdictOf(e, s) != Match
  {
    var d := Decided(e, s);
    DecidedTakesVerdict(e, s);
    EarlyIsFinal(e, s, d);
    DecidedKeepsMarket(e, s);
    ChecksIdle(e, d);
    IdleTrade(e, d.s, d.f);
  }

  lemma {:induction false} LateVerdict(e: Env, s: Valid)
    requires EarlyVerdict(e, s).None?
    ensures VerdictOf(e, s) == TradeVerdict(e, s) && VerdictOf(e, s) !in {Idle, Rest, Reduce}
  {
  }

  lemma {:induction false} LateTakesVerdict(e: Env, s: Valid)
    requires WithinCap(s) && Middle(e, s).f.ok && Decided(e, s).f.ok && EarlyVerdict(e, s).None?
    ensures FollowsTo(e, s, Middle(e, s)) && Decided(e, s).s == s
    ensures Checked(e, Decided(e, s)).on <==> VerdictOf(e, s) == Match
  {
    DecidedTakesVerdict(e, s);
    LateVerdict(e, s);
    var f := FlagsOf(None, true);
    ChecksTakeVerdict(e, s, f);
    TradedTakesVerdict(e, s, Checked(e, Engine(s, f)));
  }

  lemma {:induction false} TradedTakesVerdict(e: Env, s: Valid, f: Flags)
    requires f == FlagsOf(Some(TradeVerdict(e, s)), true) && ApplyTrade(e, s, f).f.ok
    requires VerdictOf(e, s) == TradeVerdict(e, s) && VerdictOf(e, s) !in {Idle, Rest, Reduce}
    ensures ApplyTrade(e, s, f).f == FinalFlags(e, s)
    ensures VerdictOf(e, s) != Match ==> ApplyTrade(e, s, f).s == s
  {
    EndsIff(e, s);
  }

  lemma {:induction false} MiddleTakesVerdict(e: Env, s: Valid)
    requires WithinCap(s) && Middle(e, s).f.ok
    ensures FollowsTo(e, s, Middle(e, s))
    ensures Checked(e, Decided(e, s)).on <==> VerdictOf(e, s) == Match
    ensures VerdictOf(e, s) == Match ==> Decided(e, s).s == s
  {
    var d := Decided(e, s);
    ChecksKeepOk(e, d);
    ApplyNeedsOk(e, d.s, Checked(e, d));
    if EarlyVerdict(e, s).Some? {
      EarlyTakesVerdict(e, s);
    } else {
      LateTakesVerdict(e, s);
    }
  }

  lemma {:induction false} DecidedKeepsMarket(e: Env, s: Valid)
    ensures Decided(e, s).s.market == s.market
  {
    SelfTradesKeepMarket(e, s, Opening(e, s));
  }

  lemma {:induction false} MiddleIsOk(e: Env, s: Valid)
    requires ExecuteMatching(e, s).Some?
    ensures Middle(e, s).f.ok
  {
    ConcludeNeedsOk(Middle(e, s).s, Middle(e, s).f);
  }

  /** The cascade takes the decision of the list: within the cap an accepted step ends with exactly its flags. */
  lemma {:induction false} StepTakesVerdict(e: Env, s: Valid)
    requires ExecuteMatching(e, s).Some? && WithinCap(s)
    ensures ExecuteMatching(e, s).value.f == FinalFlags(e, s)
  {
    MiddleIsOk(e, s);
    MiddleTakesVerdict(e, s);
    EndingKeepsFlags(e, s);
    EndingIsOk(e, s);
  }

  lemma {:induction false} EndingIsOk(e: Env, s: Valid)
    requires ExecuteMatching(e, s).Some?
    ensures ExecuteMatching(e, s).value.f.ok
  {
  }
}
