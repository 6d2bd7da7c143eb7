/** At which prices a step trades, when it is accepted at all, and what a whole run pays. */
module MatchingPrices {
  import opened Constants
  import opened Options
  import opened Numbers
  import opened Shifts
  import opened SparseTree
  import opened MerkleOpenings
  import opened BookTree
  import opened Matching
  import opened MatchingProgress
  import opened MatchingVerdict
  import opened MatchingEffects
  import opened MatchingRuns
  import Locks = LockedBalance

  predicate LimitLike(orderType: nat) {
    orderType in {LIMIT_ORDER, LIQUIDATION_ORDER, STOP_LOSS_LIMIT_ORDER, TAKE_PROFIT_LIMIT_ORDER}
  }

  /** An ask sells at no less than its price, a bid buys at no more. */
  predicate PriceAllows(isAsk: bool, price: nat, at: nat) {
    if isAsk then at >= price else at <= price
  }

  /** The leaf a pending order may rest on. */
  predicate OwnLeaf(s: Valid) {
    var r := Pending(s);
    && s.leaf.price == r.price && s.leaf.nonce == r.nonce && s.order.owner == r.account
    && s.order.index0 == r.orderIndex && s.order.index1 == r.clientOrderIndex
  }

  lemma {:induction false} AdmittedOkIff(s: Valid)
    ensures var r, empty, ioc := Pending(s), s.leaf.sums == Sums(0, 0, 0, 0), Pending(s).timeInForce == IOC;
            var frozen := s.market.marketType == MARKET_TYPE_BINARY_OPTIONS && s.market.isFrozen;
            var wrongWay := s.market.marketType == MARKET_TYPE_PERPS && r.reduceOnly
                            && !Removes(r.isAsk, s.taker.position.size);
            var live := s.enabled && r.triggerStatus == TRIGGER_STATUS_NA && !wrongWay;
            && (Admitted(s).on <==> live && !frozen)
            && (Admitted(s).ok <==>
                  (live ==> (empty ==> OwnLeaf(s)) && (frozen ==> empty && (ioc || LimitLike(r.orderType)))))
  {
  }

  /** The other side is empty for an order that does not rest. */
  predicate NothingToTake(s: Valid) {
    var top := s.path[|s.path| - 1].sums;
    Pending(s).timeInForce == IOC && (if Pending(s).isAsk then top.bidBase else top.askBase) == 0
  }

  lemma {:induction false} FacedSideOkIff(s: Valid, f: Flags)
    ensures FacedSide(s, f).on <==> f.on && !NothingToTake(s)
    ensures FacedSide(s, f).ok <==>
              f.ok && (f.on && !NothingToTake(s) ==>
                         PathQuote(Pending(s).isAsk, s.leaf.sums, s.path, s.helpers).base == 0)
  {
  }

  /** What is asserted in front of the leaf. */
  predicate LeafAsserts(e: Env, s: Valid) {
    var r := Pending(s);
    if s.leaf.sums == Sums(0, 0, 0, 0) then r.timeInForce == IOC || LimitLike(r.orderType)
    else
      && (LimitLike(r.orderType) ==> PriceAllows(r.isAsk, r.price, s.leaf.price))
      && s.leaf.price == s.order.price && s.leaf.nonce == s.order.nonce && e.orderInMarket
  }

  lemma {:induction false} FacedOkIff(e: Env, s: Valid, f: Flags)
    ensures Faced(e, s, f).ok <==> f.ok && (f.on ==> LeafAsserts(e, s))
  {
  }

  /** What the engine asserts of an order that is admitted: an empty leaf is its own, a frozen book is only rested
      in, and otherwise the presented leaf has no better one, and matches the order and the taker's limit. */
  predicate OpeningAsserts(e: Env, s: Valid) {
    var r, empty, ioc := Pending(s), s.leaf.sums == Sums(0, 0, 0, 0), Pending(s).timeInForce == IOC;
    var frozen := s.market.marketType == MARKET_TYPE_BINARY_OPTIONS && s.market.isFrozen;
    var wrongWay := s.market.marketType == MARKET_TYPE_PERPS && r.reduceOnly
                    && !Removes(r.isAsk, s.taker.position.size);
    s.enabled && r.triggerStatus == TRIGGER_STATUS_NA && !wrongWay ==>
      && (empty ==> OwnLeaf(s))
      && (frozen ==> empty && (ioc || LimitLike(r.orderType)))
      && (!frozen && !NothingToTake(s) ==>
            PathQuote(r.isAsk, s.leaf.sums, s.path, s.helpers).base == 0 && LeafAsserts(e, s))
  }

  lemma {:induction false} OpeningOkIff(e: Env, s: Valid)
    ensures Opening(e, s).ok <==> OpeningAsserts(e, s)
  {
    AdmittedOkIff(s);
    FacedSideOkIff(s, Admitted(s));
    FacedOkIff(e, s, FacedSide(s, Admitted(s)));
  }

  // Fills and limits

  /** A step that trades had an order admitted, in front of an order. */
  lemma {:induction false} TradedWasOpen(e: Env, s: Valid)
    requires Checked(e, Decided(e, s)).on
    ensures Opening(e, s).on && s.leaf.sums != NO_SUMS && !NothingToTake(s)
  {
    ChecksTakeNothing(e, Decided(e, s));
    OpeningMeetsOrders(e, s);
    FacedSideOkIff(s, Admitted(s));
    if !Opening(e, s).on {
      OffStaysOff(e, s, Opening(e, s));
    } else {
      FacedOn(e, s, FacedSide(s, Admitted(s)));
    }
  }

  lemma {:induction false} FacedOn(e: Env, s: Valid, f: Flags)
    ensures Faced(e, s, f).on ==> f.on
  {
  }

  /** An accepted trade is at a price the taker's limit allows, and at the price of the order it takes. */
  lemma {:induction false} LimitPriceHolds(e: Env, s: Valid)
    requires ExecuteMatching(e, s).Some? && Checked(e, Decided(e, s)).on
    ensures LimitLike(Pending(s).orderType) ==> PriceAllows(Pending(s).isAsk, Pending(s).price, s.leaf.price)
    ensures s.leaf.price == s.order.price && s.leaf.nonce == s.order.nonce
    ensures PathQuote(Pending(s).isAsk, s.leaf.sums, s.path, s.helpers).base == 0
  {
    OpeningNeedsOk(e, s);
    TradedWasOpen(e, s);
    AdmittedOkIff(s);
    FacedSideOkIff(s, Admitted(s));
    FacedOkIff(e, s, FacedSide(s, Admitted(s)));
    FacedOn(e, s, FacedSide(s, Admitted(s)));
  }

  /** An order of the other side at an index of the book. */
  predicate OffersAt(book: Book, isAsk: bool, i: nat) {
    if isAsk then OrderNo(book)(i).bidBase != 0 else OrderNo(book)(i).askBase != 0
  }

  /** A trade takes the best: no order of the other side has a better price, or the same price and an earlier nonce,
      which for asks is a smaller index and for bids a larger one. */
  lemma {:induction false} TradeTakesTheBest(t: Turn, i: nat)
    requires Accepted(t) && Checked(t.e, Decided(t.e, t.s)).on && NoNegativeBase(t.book)
    requires i < ShiftLeft(1, t.book.depth) && OffersAt(t.book, Pending(t.s).isAsk, i)
    ensures if Pending(t.s).isAsk then i <= IndexOf(t.k) else IndexOf(t.k) <= i
  {
    LimitPriceHolds(t.e, t.s);
    ZeroQuoteIsBest(t.book, Pending(t.s).isAsk, t.k);
    if (if Pending(t.s).isAsk then IndexOf(t.k) < i else i < IndexOf(t.k)) {
      assert false;
    }
  }

  // Acceptance

  /** An order that is still undecided in front of the resting one must belong to the maker that is presented. */
  predicate OwnersAssert(e: Env, s: Valid) {
    var oneMaster := e.byMaster && e.sameMaster && !e.integratorFees;
    && PendingVerdict(s).None? && SelfTradeVerdict(e, s).None?
    && !e.deadMansSwitch && s.order.expiry > e.timestamp && !(oneMaster && e.behavior <= EXPIRE_BOTH)
    ==> s.order.owner == s.maker.index && s.taker.index != s.maker.index
  }

  /** The lock of what is taken can be released, and fees are accepted. */
  predicate TakenIsFunded(e: Env, s: Valid) {
    match VerdictOf(e, s)
    case Reduce => Unlocked(s, s.taker, Min(Pending(s).size, s.order.remaining)).Some?
    case Match => Unlocked(s, s.maker, TradeAmount(s)).Some? && e.feesAccepted(TradeAmount(s))
    case _ => true
  }

  /** A finished taker is in the queue, the rest of a removed order's lock can be released and an inserted one's
      made. */
  predicate EndIsFunded(s: Valid, f: Flags) {
    var r := Pending(s);
    && (f.cancelTaker || f.insert ==> s.count != 0)
    && (f.cancelMaker ==> Unlocked(s, if s.order.owner == r.account then s.taker else s.maker, s.order.remaining).Some?)
    && (f.insert && r.triggerStatus == TRIGGER_STATUS_NA && LocksBalance(s, s.taker, r.orderType) ==>
          Locks.Lock(s.market.multipliers, s.taker.assets, r.size, r.price, r.isAsk).Some?)
  }

  lemma {:induction false} SelfTradesOkIff(e: Env, s: Valid, f: Flags)
    requires f == Flags(true, true, false, false, false)
    ensures SelfTrades(e, s, f).f.ok <==>
              (SelfTradeVerdict(e, s) == Some(Reduce) ==>
                 Unlocked(s, s.taker, Min(Pending(s).size, s.order.remaining)).Some?)
  {
    var withFees := SameAccount(s) && e.integratorFees;
    var f1 := CancelMakerIf(f, withFees && Expired(e, s));
    ReduceOkIff(s, f1, withFees);
    var first := ReduceWithFees(e, s, f);
    CancelsNeedOk(e, first.s, first.f);
    var flag := !e.byMaster && SameAccount(first.s) && e.behavior == REDUCE;
    ReduceOkIff(first.s, SelfTradeCancels(e, first.s, first.f), flag);
    if !(f1.on && withFees) {
      ReduceIdle(s, f1, withFees);
      CancelsOn(e, s, f1);
    } else {
      ReduceEnds(s, f1);
    }
  }

  lemma {:induction false} ReduceOkIff(s: Valid, f: Flags, flag: bool)
    ensures SelfTradeReduce(s, f, flag).f.ok <==>
              f.ok && (f.on && flag && Pending(s).timeInForce != POST_ONLY ==>
                         Unlocked(s, s.taker, Min(Pending(s).size, s.order.remaining)).Some?)
  {
  }

  lemma {:induction false} ReduceEnds(s: Valid, f: Flags)
    requires f.on
    ensures !SelfTradeReduce(s, f, true).f.on
  {
  }

  lemma {:induction false} CancelsOn(e: Env, s: Valid, f: Flags)
    ensures SelfTradeCancels(e, s, f).on <==>
              f.on && !(!e.byMaster && s.order.owner == Pending(s).account
                        && (s.order.expiry <= e.timestamp || e.behavior <= EXPIRE_BOTH))
  {
  }

  lemma {:induction false} ScreenOkIff(e: Env, s: Valid, f: Flags)
    requires f == Flags(true, true, false, false, false)
    ensures var oneMaster := e.byMaster && e.sameMaster && !e.integratorFees;
            BeforeTrade(e, s, f).ok <==>
              (!e.deadMansSwitch && s.order.expiry > e.timestamp && !(oneMaster && e.behavior <= EXPIRE_BOTH) ==>
                 s.order.owner == s.maker.index && s.taker.index != s.maker.index)
  {
  }

  predicate ReduceIsFunded(e: Env, s: Valid) {
    EarlyVerdict(e, s) == Some(Reduce) ==> Unlocked(s, s.taker, Min(Pending(s).size, s.order.remaining)).Some?
  }

  lemma {:induction false} MetOkIff(e: Env, s: Valid, f: Flags)
    requires f == Flags(true, true, false, false, false) && PendingVerdict(s).None?
    ensures var t := SelfTrades(e, s, f);
            BeforeTrade(e, t.s, t.f).ok <==> OwnersAssert(e, s) && ReduceIsFunded(e, s)
  {
    var t := SelfTrades(e, s, f);
    SelfTradesOkIff(e, s, f);
    BeforeTradeNeedsOk(e, t.s, t.f);
    if t.f.ok {
      SelfTradesTakeVerdict(e, s, f);
      if SelfTradeVerdict(e, s).Some? {
        ScreenIdle(e, t.s, t.f);
      } else {
        ScreenOkIff(e, s, f);
      }
    }
  }

  lemma {:induction false} DecidedOkIff(e: Env, s: Valid)
    ensures Decided(e, s).f.ok <==> OpeningAsserts(e, s) && OwnersAssert(e, s) && ReduceIsFunded(e, s)
  {
    OpeningOkIff(e, s);
    if !Opening(e, s).ok {
      if Decided(e, s).f.ok { DecidedNeedsOk(e, s); }
    } else if PendingVerdict(s).Some? {
      PendingTakesVerdict(e, s);
    } else {
      OpeningTakesVerdict(e, s);
      MetOkIff(e, s, Opening(e, s));
    }
  }

  lemma {:induction false} ApplyOkIff(e: Env, s: Valid, f: Flags)
    ensures ApplyTrade(e, s, f).f.ok <==>
              f.ok && (f.on ==> Unlocked(s, s.maker, TradeAmount(s)).Some? && e.feesAccepted(TradeAmount(s)))
  {
  }

  lemma {:induction false} LateOkIff(e: Env, s: Valid)
    requires WithinCap(s) && Decided(e, s).f.ok && EarlyVerdict(e, s).None?
    ensures Middle(e, s).f.ok <==> TakenIsFunded(e, s)
  {
    DecidedTakesVerdict(e, s);
    LateVerdict(e, s);
    var f := FlagsOf(None, true);
    ChecksTakeVerdict(e, s, f);
    ApplyOkIff(e, s, Checked(e, Engine(s, f)));
  }

  lemma {:induction false} MiddleOkIff(e: Env, s: Valid)
    requires WithinCap(s)
    ensures Middle(e, s).f.ok <==> OpeningAsserts(e, s) && OwnersAssert(e, s) && TakenIsFunded(e, s)
  {
    DecidedOkIff(e, s);
    if !Decided(e, s).f.ok {
      ChecksKeepOk(e, Decided(e, s));
      ApplyNeedsOk(e, Decided(e, s).s, Checked(e, Decided(e, s)));
      NotFundedEarly(e, s);
    } else if EarlyVerdict(e, s).Some? {
      EarlyTakesVerdict(e, s);
      EarlyFunded(e, s);
    } else {
      LateOkIff(e, s);
    }
  }

  lemma {:induction false} NotFundedEarly(e: Env, s: Valid)
    requires !(OpeningAsserts(e, s) && OwnersAssert(e, s) && ReduceIsFunded(e, s))
    ensures !(OpeningAsserts(e, s) && OwnersAssert(e, s) && TakenIsFunded(e, s))
  {
  }

  lemma {:induction false} EarlyFunded(e: Env, s: Valid)
    requires EarlyVerdict(e, s).Some? && ReduceIsFunded(e, s)
    ensures TakenIsFunded(e, s) && FinalFlags(e, s).ok
  {
  }

  lemma {:induction false} ConcludeOkIff(s: Valid, f: Flags)
    requires f.ok && !(f.insert && f.cancelMaker)
    ensures Conclude(s, f).f.ok <==> EndIsFunded(s, f)
  {
  }

  lemma {:induction false} MiddleNeverBoth(e: Env, s: Valid)
    requires WithinCap(s) && Middle(e, s).f.ok
    ensures !(Middle(e, s).f.insert && Middle(e, s).f.cancelMaker)
  {
    MiddleTakesVerdict(e, s);
    FinalNeverBoth(e, s);
  }

  lemma {:induction false} FinalNeverBoth(e: Env, s: Valid)
    ensures !(FinalFlags(e, s).insert && FinalFlags(e, s).cancelMaker)
  {
  }

  /** When a step is accepted: exactly when the opening's assertions hold, the presented maker is the order's owner
      where that matters, locks can be released and made, fees are accepted, and a finished taker was queued. Prices
      play a part in the opening's assertions alone, so prices that cross are never the reason for a refusal. */
  lemma {:induction false} AcceptedIff(e: Env, s: Valid)
    requires WithinCap(s)
    ensures ExecuteMatching(e, s).Some? <==>
              && OpeningAsserts(e, s) && OwnersAssert(e, s) && TakenIsFunded(e, s)
              && EndIsFunded(Middle(e, s).s, Middle(e, s).f)
  {
    var m := Middle(e, s);
    MiddleOkIff(e, s);
    if m.f.ok {
      MiddleNeverBoth(e, s);
      ConcludeOkIff(m.s, m.f);
    } else {
      ConcludeNeedsOk(m.s, m.f);
    }
  }

  // Whole runs of limit orders

  /** Every fill of a run is at a price the order allows. */
  predicate FillsAllowed(isAsk: bool, price: nat, fills: seq<Fill>) {
    forall i :: 0 <= i < |fills| ==> fills[i].base != 0 ==> PriceAllows(isAsk, price, fills[i].price)
  }

  /** A limit order goes on with the same side and price. */
  lemma {:induction false} LimitCarries(turns: seq<Turn>, i: nat)
    requires Run(turns) && i + 1 < |turns|
    ensures var r, q := Pending(turns[i].s), Pending(turns[i + 1].s);
            q.isAsk == r.isAsk && q.price == r.price && q.orderType == r.orderType
  {
    assert Linked(turns, i);
    PendingCarries(turns[i].e, turns[i].s);
  }

  lemma {:induction false} FillAllowedAt(turns: seq<Turn>, i: nat)
    requires Run(turns) && i < |turns| && LimitLike(Pending(turns[i].s).orderType)
    ensures var r, fill := Pending(turns[i].s), Fill(turns[i].s.leaf.price, FillBase(turns[i]));
            && FillsAllowed(r.isAsk, r.price, [fill])
            && Fills(turns[i..]) == [fill] + Fills(turns[i + 1..])
  {
    assert AcceptedAt(turns, i);
    FirstFillAllowed(turns[i]);
    assert turns[i..][1..] == turns[i + 1..];
  }

  lemma {:induction false} RunAllows(turns: seq<Turn>, i: nat, isAsk: bool, price: nat)
    requires Run(turns) && i < |turns| && LimitLike(Pending(turns[i].s).orderType)
    requires isAsk == Pending(turns[i].s).isAsk && price == Pending(turns[i].s).price
    ensures FillsAllowed(isAsk, price, Fills(turns[i..]))
    decreases |turns| - i
  {
    FillAllowedAt(turns, i);
    if i + 1 < |turns| {
      LimitCarries(turns, i);
      RunAllows(turns, i + 1, isAsk, price);
    }
  }

  lemma {:induction false} FirstFillAllowed(t: Turn)
    requires Accepted(t) && LimitLike(Pending(t.s).orderType)
    ensures FillBase(t) != 0 ==> PriceAllows(Pending(t.s).isAsk, Pending(t.s).price, t.s.leaf.price)
  {
    if Checked(t.e, Decided(t.e, t.s)).on {
      LimitPriceHolds(t.e, t.s);
    }
  }

  lemma {:induction false} AllowedAddsUp(isAsk: bool, price: nat, fills: seq<Fill>)
    requires FillsAllowed(isAsk, price, fills)
    ensures if isAsk then TotalQuote(fills) >= price * TotalBase(fills)
            else TotalQuote(fills) <= price * TotalBase(fills)
  {
    if fills == [] {
      assert price * 0 == 0;
    } else {
      assert forall i :: 0 <= i < |fills[1..]| ==> fills[1..][i] == fills[i + 1];
      AllowedAddsUp(isAsk, price, fills[1..]);
      OneFill(isAsk, price, fills[0].price, fills[0].base);
      assert price * (fills[0].base + TotalBase(fills[1..])) == price * fills[0].base + price * TotalBase(fills[1..]);
    }
  }

  lemma {:induction false} OneFill(isAsk: bool, price: nat, at: nat, base: nat)
    requires base != 0 ==> PriceAllows(isAsk, price, at)
    ensures if isAsk then Product(at, base) >= price * base else Product(at, base) <= price * base
  {
    if base != 0 {
      MulMono(if isAsk then price else at, if isAsk then at else price, base);
    }
  }

  /** A limit order, over whatever run of accepted steps, sells for at least its price times the base it sold in
      total, or buys for at most as much; so does every single fill. */
  lemma {:induction false} LimitRunNoWorse(turns: seq<Turn>)
    requires Run(turns) && LimitLike(Pending(turns[0].s).orderType)
    ensures var r, fills := Pending(turns[0].s), Fills(turns);
            && FillsAllowed(r.isAsk, r.price, fills)
            && (if r.isAsk then TotalQuote(fills) >= r.price * TotalBase(fills)
                else TotalQuote(fills) <= r.price * TotalBase(fills))
  {
    RunAllows(turns, 0, Pending(turns[0].s).isAsk, Pending(turns[0].s).price);
    assert turns[0..] == turns;
    AllowedAddsUp(Pending(turns[0].s).isAsk, Pending(turns[0].s).price, Fills(turns));
  }
}
