/** Which matching steps finish the taker or remove the resting order. Under the notional cap only one kind of
    step does neither: a fill of the taker's own side that a reduce-only resting order cuts short.
 */
module MatchingProgress {
  import opened Constants
  import opened Options
  import opened Numbers
  import opened SparseTree
  import opened MerkleOpenings
  import opened BookTree
  import opened Matching
  import Locks = LockedBalance

  predicate TakerDone(f: Flags) {
    f.cancelTaker || f.insert
  }

  /** Some decision has been taken. */
  predicate Decisive(f: Flags) {
    TakerDone(f) || f.cancelMaker
  }

  /** Either undecided, without any decision, or decided. */
  predicate Live(f: Flags) {
    f.on != Decisive(f)
  }

  /** What the engine may rely on: every transaction that creates an order refuses reduce-only outside perps
      markets. */
  predicate ReduceOnlyInPerps(s: Valid) {
    Pending(s).reduceOnly || s.order.reduceOnly ==> IsPerps(s)
  }

  /** What an honest presentation does and the engine never asserts: the resting order is on the other side. */
  predicate OppositeSides(s: Valid) {
    s.leaf.sums != NO_SUMS ==> s.order.isAsk != Pending(s).isAsk
  }

  predicate WithinCap(s: Valid) {
    !OverCap(s.market, s.market.openInterest)
  }

  /** An undecided order reduces in the right direction, if it only reduces. */
  predicate Directed(s: Valid) {
    && (Pending(s).reduceOnly ==> !InvalidReduceDirection(s.taker.position.size, Pending(s).isAsk))
    && (s.order.reduceOnly ==> !InvalidReduceDirection(s.maker.position.size, s.order.isAsk))
  }

  lemma {:induction false} OpeningDecides(e: Env, s: Valid)
    requires s.enabled
    ensures Live(Opening(e, s)) && !Opening(e, s).cancelMaker
    ensures Opening(e, s).on ==>
              && s.leaf.sums != NO_SUMS
              && (IsPerps(s) && Pending(s).reduceOnly ==>
                    !InvalidReduceDirection(s.taker.position.size, Pending(s).isAsk))
  {
  }

  /** Self-trade reduction empties one of the two orders. */
  lemma {:induction false} ReduceDecides(s: Valid, f: Flags, flag: bool)
    requires Live(f)
    ensures var r := SelfTradeReduce(s, f, flag);
            && Live(r.f) && (r.f.on ==> f.on && r.s == s) && r.s.market == s.market
            && (TakerDone(f) ==> TakerDone(r.f)) && (!f.on ==> r == Engine(s, f))
  {
  }

  lemma {:induction false} SelfTradesDecide(e: Env, s: Valid, f: Flags)
    requires Live(f)
    ensures var r := SelfTrades(e, s, f);
            Live(r.f) && (r.f.on ==> f.on && r.s == s) && r.s.market == s.market && (!f.on ==> r == Engine(s, f))
  {
    var withFees := f.on && SameAccount(s) && e.integratorFees;
    var first := ReduceWithFees(e, s, f);
    ReduceDecides(s, CancelMakerIf(f, withFees && Expired(e, s)), withFees);
    ReduceDecides(first.s, SelfTradeCancels(e, first.s, first.f),
        !e.byMaster && SameAccount(first.s) && e.behavior == REDUCE);
  }

  lemma {:induction false} BeforeTradeDecides(e: Env, s: Valid, f: Flags)
    requires Live(f)
    ensures var r := BeforeTrade(e, s, f);
            && Live(r) && (!f.on ==> r == f)
            && (r.on ==> f.on && (IsPerps(s) && s.order.reduceOnly ==>
                                    !InvalidReduceDirection(s.maker.position.size, s.order.isAsk)))
  {
  }

  /** The decision before the checks, and what an undecided state looks like. */
  lemma {:induction false} DecidedMeans(e: Env, s: Valid)
    requires s.enabled && ReduceOnlyInPerps(s)
    ensures var d := Decided(e, s);
            && Live(d.f) && d.s.market == s.market
            && (d.f.on ==> d.s == s && Directed(s) && s.leaf.sums != NO_SUMS)
  {
    OpeningDecides(e, s);
    SelfTradesDecide(e, s, Opening(e, s));
    var t := SelfTrades(e, s, Opening(e, s));
    BeforeTradeDecides(e, t.s, t.f);
  }

  /** Under the cap the checks never take a decision back. */
  lemma {:induction false} ChecksKeepDecisions(e: Env, d: Engine)
    requires Live(d.f) && WithinCap(d.s)
    ensures Live(Checked(e, d))
    ensures Checked(e, d).on ==> d.f.on
    ensures !d.f.on ==> Checked(e, d) == d.f
  {
  }

  /** The fill is cut to the position that a resting order of the taker's own side may only reduce. The trade
      makes that position grow instead, so nothing ends the order. */
  predicate OwnSideCut(s: Valid) {
    && s.order.reduceOnly && s.order.isAsk == Pending(s).isAsk
    && TradeAmount(s) == Abs(s.maker.position.size) < AmountBoth(s)
  }

  /** A trade uses up the taker's amount, the maker's amount, a reducing position or the slippage budget, unless
      it is cut for an order of the taker's own side. */
  lemma {:induction false} TradeFinishesIff(e: Env, s: Valid, f: Flags)
    requires f.on && Live(f) && ReduceOnlyInPerps(s) && Directed(s)
    ensures Decisive(ApplyTrade(e, s, f).f) <==> !OwnSideCut(s) || TakerFinished(e, s)
  {
    if OwnSideCut(s) {
      CutOrderStays(s);
    } else {
      UncutTradeFinishes(e, s);
    }
  }

  lemma {:induction false} CutOrderStays(s: Valid)
    requires OwnSideCut(s) && ReduceOnlyInPerps(s) && Directed(s)
    ensures !MakerFinished(s)
  {
  }

  lemma {:induction false} UncutTradeFinishes(e: Env, s: Valid)
    requires !OwnSideCut(s) && ReduceOnlyInPerps(s) && Directed(s)
    ensures TakerFinished(e, s) || MakerFinished(s)
  {
    var amount, clipped := AmountBoth(s), ClippedAmount(s);
    var makerClipped := Clip(amount, s.order.reduceOnly, s.maker.position.size);
    if TradeAmount(s) < clipped {
      assert TooMuchSlippage(s);
    } else if clipped < makerClipped {
      assert Pending(s).reduceOnly && TradeAmount(s) == Abs(s.taker.position.size);
    } else if clipped < amount {
      assert s.order.reduceOnly && TradeAmount(s) == Abs(s.maker.position.size);
    }
  }

  /** The state between the trade and the conclusion. */
  function Middle(e: Env, s: Valid): Engine {
    ApplyTrade(e, Decided(e, s).s, Checked(e, Decided(e, s)))
  }

  lemma {:induction false} EndingKeepsFlags(e: Env, s: Valid)
    requires ExecuteMatching(e, s).Some?
    ensures var d := Decided(e, s);
            var f, r := ApplyTrade(e, d.s, Checked(e, d)).f, ExecuteMatching(e, s).value.f;
            r == f.(ok := r.ok)
  {
  }

  // The decision, read off the input

  /** A decision that cancels the taker and nothing else. */
  predicate OnlyTaker(f: Flags) {
    !f.on && !f.insert && !f.cancelMaker
  }

  /** The taker is cancelled before it meets an order. */
  predicate CancelsUnmet(s: Valid) {
    var r := Pending(s);
    || (IsPerps(s) && r.reduceOnly && InvalidReduceDirection(s.taker.position.size, r.isAsk))
    || (r.timeInForce == IOC && ((IsOptions(s) && s.market.isFrozen) || OppositeEmpty(s) || s.leaf.sums == NO_SUMS))
  }

  /** Reducing both orders of one account finishes only the taker. */
  predicate ReduceEndsTaker(s: Valid) {
    Pending(s).timeInForce == POST_ONLY || Pending(s).size < s.order.remaining
  }

  /** A trade with oneself is settled without a trade. */
  predicate SettlesSelfTrade(e: Env, s: Valid) {
    SameAccount(s) && (e.integratorFees || (!e.byMaster && (Expired(e, s) || e.behavior <= REDUCE)))
  }

  predicate SelfTradeEndsTaker(e: Env, s: Valid) {
    && !Expired(e, s)
    && (if e.integratorFees then ReduceEndsTaker(s)
        else e.behavior == EXPIRE_TAKER || (e.behavior == REDUCE && ReduceEndsTaker(s)))
  }

  /** The taker is cancelled in front of another account's order. */
  predicate MeetingEndsTaker(e: Env, s: Valid) {
    var r, sameMaster := Pending(s), e.byMaster && e.sameMaster && !e.integratorFees;
    && !e.deadMansSwitch && !Expired(e, s)
    && (if sameMaster && e.behavior < REDUCE then e.behavior == EXPIRE_TAKER
        else || r.timeInForce == POST_ONLY
             || (IsMarketLike(r.orderType) && TradeAmount(s) == 0
                 && !(IsPerps(s) && s.order.reduceOnly
                      && InvalidReduceDirection(s.maker.position.size, s.order.isAsk))))
  }

  /** The cases in which a step decides to cancel the taker and to leave the resting order alone, before the
      checks of a trade: read off the pending order, the presented order and the accounts' settings. */
  predicate CancelsOnlyTaker(e: Env, s: Valid) {
    && Pending(s).triggerStatus == TRIGGER_STATUS_NA
    && (|| CancelsUnmet(s)
        || (s.leaf.sums != NO_SUMS
            && if SettlesSelfTrade(e, s) then SelfTradeEndsTaker(e, s) else MeetingEndsTaker(e, s)))
  }

  lemma {:induction false} OpeningMeans(e: Env, s: Valid)
    requires s.enabled && Opening(e, s).ok
    ensures var f, unmet := Opening(e, s), Pending(s).triggerStatus == TRIGGER_STATUS_NA && CancelsUnmet(s);
            && !f.cancelMaker && (f.cancelTaker <==> unmet)
            && (f.on <==> Pending(s).triggerStatus == TRIGGER_STATUS_NA && !unmet && s.leaf.sums != NO_SUMS)
  {
  }

  lemma {:induction false} ReduceMeans(s: Valid, f: Flags, flag: bool)
    ensures var t := SelfTradeReduce(s, f, flag);
            if !(f.on && flag) then t == Engine(s, f)
            else !t.f.on && t.f.insert == f.insert
                 && (t.f.cancelMaker <==> f.cancelMaker || !ReduceEndsTaker(s))
  {
  }

  lemma {:induction false} SelfTradesMean(e: Env, s: Valid, f: Flags)
    requires f.on && !f.insert && !f.cancelMaker
    ensures var t := SelfTrades(e, s, f);
            && !t.f.insert
            && (if SettlesSelfTrade(e, s) then !t.f.on && (t.f.cancelMaker <==> !SelfTradeEndsTaker(e, s))
                else t == Engine(s, f))
  {
    var withFees := f.on && SameAccount(s) && e.integratorFees;
    ReduceMeans(s, CancelMakerIf(f, withFees && Expired(e, s)), withFees);
    var first := ReduceWithFees(e, s, f);
    SelfTradesAfterFees(e, first.s, first.f);
  }

  /** The second half, when the first has not settled it. */
  lemma {:induction false} SelfTradesAfterFees(e: Env, s: Valid, f: Flags)
    ensures var t := ReduceByMode(e, s, SelfTradeCancels(e, s, f));
            var same := !e.byMaster && SameAccount(s);
            && (!f.on || !(same && (Expired(e, s) || e.behavior <= REDUCE)) ==> t == Engine(s, f))
            && (f.on && same && (Expired(e, s) || e.behavior <= REDUCE) ==>
                  && !t.f.on && t.f.insert == f.insert
                  && (t.f.cancelMaker <==>
                        || f.cancelMaker || Expired(e, s)
                        || !(e.behavior == EXPIRE_TAKER || (e.behavior == REDUCE && ReduceEndsTaker(s)))))
  {
    ReduceMeans(s, SelfTradeCancels(e, s, f), !e.byMaster && SameAccount(s) && e.behavior == REDUCE);
  }

  /** Nothing decides in front of another account's order. */
  predicate MeetingGoesOn(e: Env, s: Valid) {
    var r, sameMaster := Pending(s), e.byMaster && e.sameMaster && !e.integratorFees;
    && !e.deadMansSwitch && !Expired(e, s) && !(sameMaster && e.behavior < REDUCE) && r.timeInForce != POST_ONLY
    && !(IsPerps(s) && s.order.reduceOnly && InvalidReduceDirection(s.maker.position.size, s.order.isAsk))
  }

  predicate NothingToTrade(s: Valid) {
    IsMarketLike(Pending(s).orderType) && TradeAmount(s) == 0
  }

  /** Both orders meet and neither is cancelled before the checks of a trade. */
  predicate Undecided(e: Env, s: Valid) {
    && Pending(s).triggerStatus == TRIGGER_STATUS_NA && !CancelsUnmet(s) && s.leaf.sums != NO_SUMS
    && !SettlesSelfTrade(e, s) && MeetingGoesOn(e, s) && !NothingToTrade(s)
  }

  predicate PassesChecks(e: Env, s: Valid) {
    var base := TradeAmount(s);
    && !e.takerRejected(base) && !e.makerRejected(base)
    && (IsPerps(s) ==> !OverCap(s.market, NewInterest(s, base)))
    && (IsOptions(s) ==> !e.takerOptionsRejected(base) && !e.makerOptionsRejected(base))
  }

  /** The steps that trade. */
  predicate Trades(e: Env, s: Valid) {
    Undecided(e, s) && PassesChecks(e, s)
  }

  lemma {:induction false} BeforeTradeMeans(e: Env, s: Valid, f: Flags)
    requires f.on && !f.insert && !f.cancelMaker
    ensures var g := BeforeTrade(e, s, f);
            OnlyTaker(CancelTakerIf(g, IsMarketLike(Pending(s).orderType) && TradeAmount(s) == 0))
              == MeetingEndsTaker(e, s)
  {
  }

  lemma {:induction false} BeforeTradeGoesOn(e: Env, s: Valid, f: Flags)
    requires f.on
    ensures BeforeTrade(e, s, f).on == MeetingGoesOn(e, s)
  {
  }

  lemma {:induction false} BeforeTradeOff(e: Env, s: Valid, f: Flags)
    requires !f.on
    ensures !BeforeTrade(e, s, f).on
  {
  }

  /** The decision before the checks of a trade cancels only the taker in exactly these cases. */
  lemma {:induction false} CancelsOnlyTakerIff(e: Env, s: Valid)
    requires s.enabled && Opening(e, s).ok
    ensures var d := Decided(e, s);
            OnlyTaker(CancelTakerIf(d.f, IsMarketLike(Pending(d.s).orderType) && TradeAmount(d.s) == 0))
              == CancelsOnlyTaker(e, s)
  {
    OpeningMeans(e, s);
    OpeningDecides(e, s);
    var f := Opening(e, s);
    var t := SelfTrades(e, s, f);
    SelfTradesDecide(e, s, f);
    BeforeTradeDecides(e, t.s, t.f);
    if f.on {
      SelfTradesMean(e, s, f);
      BeforeTradeMeans(e, s, f);
    }
  }

  lemma {:induction false} UndecidedIff(e: Env, s: Valid)
    requires s.enabled && Opening(e, s).ok
    ensures var d := Decided(e, s);
            CancelTakerIf(d.f, IsMarketLike(Pending(d.s).orderType) && TradeAmount(d.s) == 0).on == Undecided(e, s)
  {
    OpeningMeans(e, s);
    OpeningDecides(e, s);
    var f := Opening(e, s);
    var t := SelfTrades(e, s, f);
    if f.on {
      SelfTradesMean(e, s, f);
      if t.f.on {
        BeforeTradeGoesOn(e, s, f);
      } else {
        BeforeTradeOff(e, t.s, t.f);
      }
    } else {
      SelfTradesDecide(e, s, f);
      BeforeTradeOff(e, s, f);
    }
  }

  lemma {:induction false} ChecksPassIff(e: Env, d: Engine)
    requires Live(d.f)
    ensures var f := CancelTakerIf(d.f, IsMarketLike(Pending(d.s).orderType) && TradeAmount(d.s) == 0);
            Checked(e, d).on == (f.on && PassesChecks(e, d.s))
  {
  }

  lemma {:induction false} ChecksTakeNothing(e: Env, d: Engine)
    ensures var f := Checked(e, d);
            && f.ok == d.f.ok && f.insert == d.f.insert && (f.on ==> d.f.on)
            && (!d.f.on ==> f.cancelMaker == d.f.cancelMaker)
  {
  }

  lemma {:induction false} UndecidedIsUntouched(e: Env, s: Valid)
    ensures Decided(e, s).f.on ==> Decided(e, s).s == s
  {
  }

  /** The engine trades in exactly these cases. */
  lemma {:induction false} TradesIff(e: Env, s: Valid)
    requires s.enabled && Opening(e, s).ok
    ensures Checked(e, Decided(e, s)).on <==> Trades(e, s)
  {
    UndecidedIff(e, s);
    OpeningDecides(e, s);
    var f := Opening(e, s);
    var t := SelfTrades(e, s, f);
    SelfTradesDecide(e, s, f);
    BeforeTradeDecides(e, t.s, t.f);
    ChecksPassIff(e, Decided(e, s));
  }

  // No stage takes a failed assertion back

  lemma {:induction false} ReduceNeedsOk(s: Valid, f: Flags, flag: bool)
    ensures SelfTradeReduce(s, f, flag).f.ok ==> f.ok
  {
  }

  lemma {:induction false} SelfTradesNeedOk(e: Env, s: Valid, f: Flags)
    ensures SelfTrades(e, s, f).f.ok ==> f.ok
  {
    var withFees := f.on && SameAccount(s) && e.integratorFees;
    var first := ReduceWithFees(e, s, f);
    ReduceNeedsOk(s, CancelMakerIf(f, withFees && Expired(e, s)), withFees);
    ReduceNeedsOk(first.s, SelfTradeCancels(e, first.s, first.f),
                  !e.byMaster && SameAccount(first.s) && e.behavior == REDUCE);
  }

  lemma {:induction false} BeforeTradeNeedsOk(e: Env, s: Valid, f: Flags)
    ensures BeforeTrade(e, s, f).ok ==> f.ok
  {
  }

  lemma {:induction false} ChecksKeepOk(e: Env, d: Engine)
    ensures Checked(e, d).ok == d.f.ok
  {
  }

  lemma {:induction false} ApplyNeedsOk(e: Env, s: Valid, f: Flags)
    ensures ApplyTrade(e, s, f).f.ok ==> f.ok
  {
  }

  lemma {:induction false} ConcludeNeedsOk(s: Valid, f: Flags)
    ensures Conclude(s, f).f.ok ==> f.ok
  {
  }

  lemma {:induction false} OpeningNeedsOk(e: Env, s: Valid)
    ensures ExecuteMatching(e, s).Some? ==> Opening(e, s).ok
  {
    var d, t := Decided(e, s), SelfTrades(e, s, Opening(e, s));
    var traded := ApplyTrade(e, d.s, Checked(e, d));
    SelfTradesNeedOk(e, s, Opening(e, s));
    BeforeTradeNeedsOk(e, t.s, t.f);
    ChecksKeepOk(e, d);
    ApplyNeedsOk(e, d.s, Checked(e, d));
    ConcludeNeedsOk(traded.s, traded.f);
  }

  // Progress

  /** The step trades, its fill is cut for a resting order of the taker's own side, and the taker goes on too. */
  predicate Stalls(e: Env, s: Valid) {
    Trades(e, s) && OwnSideCut(s) && !TakerFinished(e, s)
  }

  /** Exactly two kinds of accepted steps make no progress: fills that stall, and, above the notional cap, steps
      that had decided to cancel only the taker, whose flag the ungated notional test then overwrites. All other
      steps end with the taker popped or the resting order removed, through every self-trade, reduce-only and
      slippage case. */
  lemma {:induction false} ProgressIff(e: Env, s: Valid)
    requires s.enabled && ReduceOnlyInPerps(s) && ExecuteMatching(e, s).Some?
    ensures Decisive(ExecuteMatching(e, s).value.f) <==> !Stalls(e, s) && (WithinCap(s) || !CancelsOnlyTaker(e, s))
  {
    OpeningNeedsOk(e, s);
    CancelsOnlyTakerIff(e, s);
    DecidedMeans(e, s);
    EndingKeepsFlags(e, s);
    TradesIff(e, s);
    var d := Decided(e, s);
    if Checked(e, d).on {
      TradingIsLive(e, d);
      TradeFinishesIff(e, s, Checked(e, d));
    } else if WithinCap(s) {
      ChecksKeepDecisions(e, d);
    } else {
      ChecksAboveTheCap(e, d);
    }
  }

  lemma {:induction false} TradingIsLive(e: Env, d: Engine)
    requires Live(d.f) && Checked(e, d).on
    ensures Live(Checked(e, d)) && d.f.on
    ensures CancelTakerIf(d.f, IsMarketLike(Pending(d.s).orderType) && TradeAmount(d.s) == 0).on
  {
  }

  lemma {:induction false} ChecksAboveTheCap(e: Env, d: Engine)
    requires Live(d.f) && !WithinCap(d.s) && !Checked(e, d).on
    ensures var f := CancelTakerIf(d.f, IsMarketLike(Pending(d.s).orderType) && TradeAmount(d.s) == 0);
            Decisive(Checked(e, d)) <==> !OnlyTaker(f)
  {
  }

  /** Progress under the notional cap. */
  lemma {:induction false} StepMakesProgressIff(e: Env, s: Valid)
    requires s.enabled && ReduceOnlyInPerps(s) && WithinCap(s) && ExecuteMatching(e, s).Some?
    ensures Decisive(ExecuteMatching(e, s).value.f) <==> !Stalls(e, s)
  {
    ProgressIff(e, s);
  }

  /** In particular every step on an order of the other side, and every step outside perps markets. */
  lemma {:induction false} StepMakesProgress(e: Env, s: Valid)
    requires s.enabled && ReduceOnlyInPerps(s) && WithinCap(s) && ExecuteMatching(e, s).Some?
    requires OppositeSides(s) || !IsPerps(s)
    ensures Decisive(ExecuteMatching(e, s).value.f)
  {
    ProgressIff(e, s);
  }

  /** Such a step: an immediate-or-cancel order on an empty book, in a market above the cap. */
  lemma {:induction false} NoProgressAboveTheCap() returns (e: Env, s: Valid)
    ensures s.enabled && ReduceOnlyInPerps(s) && OppositeSides(s) && !WithinCap(s)
    ensures ExecuteMatching(e, s).Some? && !Decisive(ExecuteMatching(e, s).value.f)
    ensures Decisive(Opening(e, s))
  {
    e := Env(0, false, true, false, false, false, 0, _ => false, _ => false, _ => false, _ => false, _ => 0,
             _ => false, _ => true, _ => None, _ => None);
    var nobody := Account(0, false, false, 0, 0, 0, Position(0, 0, 0, false, false), []);
    var market := Market(MARKET_TYPE_PERPS, 0, false, MARKET_OPEN_INTEREST_NOTIONAL + 1, 1, 1, 0,
                         Locks.Multipliers(0, 0, 0, 0));
    s := State(true, [EMPTY_REGISTER], 1, Leaf(0, 0, NO_SUMS), EmptyAccountOrder(0, 0, 0),
               [PathNode(NO_SUMS, Raw(NO_SUMS))], [false], market, nobody, nobody, map[]);
    assert OppositeEmpty(s);
    assert Opening(e, s) == Flags(true, false, true, false, false);
    DecidedMeans(e, s);
  }

  // What the decisions do

  /** The parts of a state that only the conclusion changes. */
  predicate SameQueue(s: Valid, t: Valid) {
    && t.stack[1..] == s.stack[1..] && t.count == s.count
    && t.leaf.price == s.leaf.price && t.leaf.nonce == s.leaf.nonce
    && t.path == s.path && t.helpers == s.helpers
    && Pending(t).price == Pending(s).price && Pending(t).isAsk == Pending(s).isAsk
    && Pending(t).nonce == Pending(s).nonce && Pending(t).triggerStatus == Pending(s).triggerStatus
    && Pending(t).orderType == Pending(s).orderType
  }

  lemma {:induction false} ReplacingFrontKeepsRest(stack: seq<Register>, r: Register)
    requires stack != []
    ensures stack[0 := r][1..] == stack[1..]
  {
  }

  lemma {:induction false} ReducedKeepsQueue(s: Valid, base: nat)
    requires base <= Pending(s).size && base <= s.order.remaining
    ensures SameQueue(s, Reduced(s, base))
  {
    ReplacingFrontKeepsRest(s.stack, Pending(s).(size := Pending(s).size - base));
  }

  lemma {:induction false} ReduceKeepsQueue(s: Valid, f: Flags, flag: bool)
    ensures SameQueue(s, SelfTradeReduce(s, f, flag).s)
    ensures Pending(SelfTradeReduce(s, f, flag).s).slippage == Pending(s).slippage
  {
    ReducedKeepsQueue(s, AmountBoth(s));
  }

  lemma {:induction false} SelfTradesKeepQueue(e: Env, s: Valid, f: Flags)
    ensures SameQueue(s, SelfTrades(e, s, f).s)
    ensures Pending(SelfTrades(e, s, f).s).slippage == Pending(s).slippage
  {
    var withFees := f.on && SameAccount(s) && e.integratorFees;
    var first := ReduceWithFees(e, s, f);
    ReduceKeepsQueue(s, CancelMakerIf(f, withFees && Expired(e, s)), withFees);
    ReduceKeepsQueue(first.s, SelfTradeCancels(e, first.s, first.f),
        !e.byMaster && SameAccount(first.s) && e.behavior == REDUCE);
  }

  lemma {:induction false} TradeKeepsQueue(e: Env, s: Valid, f: Flags)
    ensures SameQueue(s, ApplyTrade(e, s, f).s)
  {
    ReducedKeepsQueue(s, TradeAmount(s));
    var moved := Reduced(s, TradeAmount(s));
    ReplacingFrontKeepsRest(moved.stack, Pending(moved).(slippage := NewSlippage(s)));
  }

  /** A finished taker leaves the front of the register stack; an inserted one takes its leaf; a removed maker
      leaves an empty leaf. */
  ghost predicate Concluded(s: Valid, f: Flags, t: Valid) {
    && t.stack == (if TakerDone(f) then s.stack[1..] + [EMPTY_REGISTER] else s.stack)
    && t.count == (if TakerDone(f) && s.count > 0 then s.count - 1 else s.count)
    && t.leaf == (if f.insert && Pending(s).triggerStatus == TRIGGER_STATUS_NA then LeafFromRegister(Pending(s))
                  else if f.cancelMaker then s.leaf.(sums := NO_SUMS) else s.leaf)
  }

  lemma {:induction false} ConcludeTakesEffect(s: Valid, f: Flags)
    ensures Concluded(s, f, Conclude(s, f).s)
    ensures Conclude(s, f).f.ok ==> f.ok && (TakerDone(f) ==> s.count > 0)
  {
    var r := Pending(s);
    var popped := if TakerDone(f) then Pop(s) else s;
    RemovalTakesEffect(popped, s.order.owner == r.account, r.marketIndex);
    var removed := if f.cancelMaker then RemoveMaker(popped, s.order.owner == r.account, r.marketIndex).s else popped;
    InsertionTakesEffect(removed, r);
  }

  lemma {:induction false} RemovalTakesEffect(s: Valid, ofTaker: bool, market: nat)
    ensures var t := RemoveMaker(s, ofTaker, market).s;
            t.stack == s.stack && t.count == s.count && t.leaf == s.leaf.(sums := NO_SUMS)
  {
  }

  lemma {:induction false} InsertionTakesEffect(s: Valid, r: Register)
    ensures var t := InsertTaker(s, r).s;
            && t.stack == s.stack && t.count == s.count
            && t.leaf == if r.triggerStatus == TRIGGER_STATUS_NA then LeafFromRegister(r) else s.leaf
  {
  }

  lemma {:induction false} DecisionsTakeEffect(e: Env, s: Valid)
    requires ExecuteMatching(e, s).Some?
    ensures var r := ExecuteMatching(e, s).value;
            && (TakerDone(r.f) ==> r.s.stack == s.stack[1..] + [EMPTY_REGISTER] && r.s.count + 1 == s.count)
            && (!TakerDone(r.f) ==> r.s.stack[1..] == s.stack[1..] && r.s.count == s.count)
            && (r.f.cancelMaker && !r.f.insert ==> r.s.leaf == Leaf(s.leaf.price, s.leaf.nonce, NO_SUMS))
  {
    var d := Decided(e, s);
    var t := ApplyTrade(e, d.s, Checked(e, d));
    SelfTradesKeepQueue(e, s, Opening(e, s));
    TradeKeepsQueue(e, d.s, Checked(e, d));
    ConcludeTakesEffect(t.s, t.f);
    EndingKeepsFlags(e, s);
  }

  // The cap itself

  lemma {:induction false} ConcludeKeepsInterest(s: Valid, f: Flags)
    ensures var m := Conclude(s, f).s.market;
            && m.openInterest == s.market.openInterest && m.markPrice == s.market.markPrice
            && m.quoteMultiplier == s.market.quoteMultiplier
  {
  }

  /** A perps trade that is still on has passed the notional test. */
  lemma {:induction false} TradedWithinCap(e: Env, d: Engine)
    requires Checked(e, d).on && IsPerps(d.s)
    ensures !OverCap(d.s.market, NewInterest(d.s, TradeAmount(d.s)))
  {
  }

  /** A step that starts within the cap ends within it. Markets other than perps have no mark price. */
  lemma {:induction false} StepKeepsCap(e: Env, s: Valid)
    requires ExecuteMatching(e, s).Some? && WithinCap(s) && (!IsPerps(s) ==> s.market.markPrice == 0)
    ensures WithinCap(ExecuteMatching(e, s).value.s)
  {
    var d := Decided(e, s);
    var t := ApplyTrade(e, d.s, Checked(e, d));
    SelfTradesKeepMarket(e, s, Opening(e, s));
    if Checked(e, d).on && IsPerps(s) {
      TradedWithinCap(e, d);
    }
    ConcludeKeepsInterest(t.s, t.f);
    if !IsPerps(s) {
      NoPriceNoNotional(t.s.market.openInterest, s.market.quoteMultiplier);
    }
  }

  lemma {:induction false} NoPriceNoNotional(openInterest: int, quoteMultiplier: nat)
    ensures openInterest * (0 * quoteMultiplier) == 0
  {
  }

  lemma {:induction false} SelfTradesKeepMarket(e: Env, s: Valid, f: Flags)
    ensures SelfTrades(e, s, f).s.market == s.market
  {
  }
}
