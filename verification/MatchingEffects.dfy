/** What an accepted step does to the two orders, to positions and counts, and what it tells other orders. */
module MatchingEffects {
  import opened Constants
  import opened Options
  import opened Numbers
  import opened BookTree
  import opened Matching
  import opened MatchingProgress
  import opened MatchingVerdict
  import Locks = LockedBalance

  function Result(e: Env, s: Valid): Engine
    requires ExecuteMatching(e, s).Some?
  {
    ExecuteMatching(e, s).value
  }

  // The orders

  /** The pending order and the resting one with `taken` off both. */
  predicate Shrunk(s: Valid, t: Valid, taken: nat, slippage: nat) {
    && taken <= Pending(s).size && taken <= s.order.remaining
    && Pending(t) == Pending(s).(size := Pending(s).size - taken, slippage := slippage)
    && t.order == s.order.(remaining := s.order.remaining - taken)
  }

  function SlippageAfter(e: Env, s: Valid): int {
    var r := Pending(s);
    if VerdictOf(e, s) == Match && MarketLike(r.orderType) then r.slippage - Loss(s) * TradeAmount(s) else r.slippage
  }

  lemma {:induction false} TradedShrinks(e: Env, s: Valid)
    ensures Shrunk(s, Traded(e, s), TradeAmount(s), NewSlippage(s))
    ensures NewSlippage(s) == if MarketLike(Pending(s).orderType)
                              then Pending(s).slippage - Loss(s) * TradeAmount(s) else Pending(s).slippage
  {
    LossIsNoGain(Improvement(Pending(s), s.leaf.price), Loss(s), TradeAmount(s));
  }

  lemma {:induction false} LossIsNoGain(gain: int, loss: int, amount: nat)
    requires loss == -gain
    ensures gain * amount == -(loss * amount)
  {
  }

  lemma {:induction false} ApplyKeepsTraded(e: Env, s: Valid, f: Flags)
    requires f.on
    ensures var t, u := ApplyTrade(e, s, f).s, Traded(e, s);
            t.stack == u.stack && t.order == u.order && t.market == u.market && t.taker == u.taker
            && t.maker.position == u.maker.position && t.maker.defaultIsolated == s.maker.defaultIsolated
  {
  }

  lemma {:induction false} MatchIsTraded(e: Env, s: Valid)
    requires WithinCap(s) && Middle(e, s).f.ok && VerdictOf(e, s) == Match
    ensures var t, u := Middle(e, s).s, Traded(e, s);
            t.stack == u.stack && t.order == u.order && t.market == u.market && t.taker == u.taker
            && t.maker.position == u.maker.position && t.maker.defaultIsolated == s.maker.defaultIsolated
  {
    MiddleTakesVerdict(e, s);
    ApplyKeepsTraded(e, s, Checked(e, Decided(e, s)));
  }

  lemma {:induction false} ShrunkWithoutTrade(e: Env, s: Valid, m: Engine)
    requires FollowsTo(e, s, m) && VerdictOf(e, s) != Match
    ensures SlippageAfter(e, s) == Pending(s).slippage && Shrunk(s, m.s, TakenBy(e, s), Pending(s).slippage)
  {
  }

  lemma {:induction false} ShrunkByTrade(e: Env, s: Valid, m: Valid)
    requires VerdictOf(e, s) == Match && m.stack == Traded(e, s).stack && m.order == Traded(e, s).order
    ensures SlippageAfter(e, s) >= 0 && Shrunk(s, m, TakenBy(e, s), SlippageAfter(e, s))
  {
    TradedShrinks(e, s);
  }

  lemma {:induction false} MiddleShrinksBoth(e: Env, s: Valid)
    requires WithinCap(s) && Middle(e, s).f.ok
    ensures SlippageAfter(e, s) >= 0 && Shrunk(s, Middle(e, s).s, TakenBy(e, s), SlippageAfter(e, s))
  {
    if VerdictOf(e, s) == Match {
      MatchIsTraded(e, s);
      ShrunkByTrade(e, s, Middle(e, s).s);
    } else {
      MiddleTakesVerdict(e, s);
      ShrunkWithoutTrade(e, s, Middle(e, s));
    }
  }

  /** A resting order with everything the pending order asked for. */
  predicate RestsAs(r: Register, o: AccountOrder) {
    && o.owner == r.account && o.isAsk == r.isAsk && o.price == r.price && o.nonce == r.nonce
    && o.remaining == r.size && o.initial == r.initialSize
    && o.index0 == r.orderIndex && o.index1 == r.clientOrderIndex
    && o.orderType == r.orderType && o.timeInForce == r.timeInForce && o.triggerStatus == r.triggerStatus
    && o.reduceOnly == r.reduceOnly && o.child0 == r.child0 && o.child1 == r.child1
    && o.expiry == r.expiry && o.details == r.details
  }

  predicate ListedAs(r: Register, leaf: Leaf) {
    && leaf.price == r.price && leaf.nonce == r.nonce
    && leaf.sums == if r.isAsk then Sums(r.size, r.size * r.price, 0, 0) else Sums(0, 0, r.size, r.size * r.price)
  }

  /** What the conclusion leaves of the resting order and its leaf. */
  predicate OrderAfter(s: Valid, f: Flags, t: Valid) {
    if f.insert then
      && RestsAs(Pending(s), t.order)
      && (if Pending(s).triggerStatus == TRIGGER_STATUS_NA then ListedAs(Pending(s), t.leaf)
          else !f.cancelMaker ==> t.leaf == s.leaf)
    else if f.cancelMaker then
      && t.order.remaining == 0 && t.order.initial == 0 && t.leaf.sums == Sums(0, 0, 0, 0)
      && t.order.index0 == s.order.index0 && t.order.index1 == s.order.index1 && t.order.owner == s.order.owner
    else t.order == s.order && t.leaf == s.leaf
  }

  lemma {:induction false} ConclusionOfOrder(s: Valid, f: Flags)
    ensures OrderAfter(s, f, Conclude(s, f).s)
  {
  }

  /** A step takes one amount off both orders. A taker that goes on keeps everything but its size and its slippage
      budget, a resting order that stays everything but its remaining amount; an inserted order rests as it was
      asked for, a removed one is empty. */
  lemma {:induction false} StepMovesOrders(e: Env, s: Valid)
    requires ExecuteMatching(e, s).Some? && WithinCap(s)
    ensures var r, taken := Result(e, s), TakenBy(e, s);
            && taken <= Pending(s).size && taken <= s.order.remaining
            && (!TakerDone(r.f) ==>
                  && SlippageAfter(e, s) >= 0
                  && Pending(r.s) == Pending(s).(size := Pending(s).size - taken, slippage := SlippageAfter(e, s)))
            && (r.f.insert ==> taken == 0 && RestsAs(Pending(s), r.s.order)
                               && (Pending(s).triggerStatus == TRIGGER_STATUS_NA ==> ListedAs(Pending(s), r.s.leaf)))
            && (!r.f.insert && r.f.cancelMaker ==> r.s.order.remaining == 0 && r.s.leaf.sums == Sums(0, 0, 0, 0))
            && (!r.f.insert && !r.f.cancelMaker ==>
                  r.s.order == s.order.(remaining := s.order.remaining - taken))
  {
    var m := Middle(e, s);
    MiddleIsOk(e, s);
    MiddleShrinksBoth(e, s);
    MiddleTakesVerdict(e, s);
    InsertTakesNothing(e, s, m);
    EndingKeepsFlags(e, s);
    ConclusionOfOrder(m.s, m.f);
    ConcludeTakesEffect(m.s, m.f);
  }

  lemma {:induction false} InsertTakesNothing(e: Env, s: Valid, m: Engine)
    requires FollowsTo(e, s, m)
    ensures m.f.insert ==> TakenBy(e, s) == 0 && m.s == s
  {
  }

  // Positions

  /** Whether a position's orders count as isolated; a stale slot takes the account's default. */
  predicate CountsIsolated(a: Account) {
    if a.position.stale then a.defaultIsolated else a.position.isolated
  }

  /** A position keeps its margin mode; one that is initialized takes the account's default. */
  predicate ModeKept(a: Account, b: Account) {
    && b.defaultIsolated == a.defaultIsolated
    && (b.position.stale ==> a.position.stale) && CountsIsolated(b) == CountsIsolated(a)
  }

  predicate SamePositions(s: Valid, t: Valid) {
    && EffectiveSize(t.taker.position) == EffectiveSize(s.taker.position)
    && EffectiveSize(t.maker.position) == EffectiveSize(s.maker.position)
    && t.market.openInterest == s.market.openInterest
    && ModeKept(s.taker, t.taker) && ModeKept(s.maker, t.maker)
  }

  lemma {:induction false} RemovalKeepsPositions(s: Valid, ofTaker: bool, market: nat)
    ensures SamePositions(s, RemoveMaker(s, ofTaker, market).s)
  {
  }

  lemma {:induction false} InsertionKeepsPositions(s: Valid, r: Register)
    ensures SamePositions(s, InsertTaker(s, r).s)
  {
  }

  lemma {:induction false} ConclusionKeepsPositions(s: Valid, f: Flags)
    ensures SamePositions(s, Conclude(s, f).s)
  {
    var r, popped := Pending(s), PopIfDone(s, f);
    RemovalKeepsPositions(popped, s.order.owner == r.account, r.marketIndex);
    var removed := RemoveIfCancelled(popped, f, s.order.owner == r.account, r.marketIndex).s;
    InsertionKeepsPositions(TellIfCancelled(removed, f, r), r);
  }

  /** What a trade buys for the taker in a perps market; nothing moves otherwise. */
  function PositionDelta(e: Env, s: Valid): int {
    if VerdictOf(e, s) == Match && s.market.marketType == MARKET_TYPE_PERPS then Bought(s) else 0
  }

  function InterestAfter(e: Env, s: Valid): int {
    var t, k, delta := EffectiveSize(s.taker.position), EffectiveSize(s.maker.position), PositionDelta(e, s);
    if VerdictOf(e, s) == Match && s.market.marketType == MARKET_TYPE_BINARY_OPTIONS
    then e.optionsInterest(TradeAmount(s))
    else s.market.openInterest + (Abs(t + delta) - Abs(t)) + (Abs(k - delta) - Abs(k))
  }

  predicate PositionsMoved(e: Env, s: Valid, t: Valid) {
    && EffectiveSize(t.taker.position) == EffectiveSize(s.taker.position) + PositionDelta(e, s)
    && EffectiveSize(t.maker.position) == EffectiveSize(s.maker.position) - PositionDelta(e, s)
    && t.market.openInterest == InterestAfter(e, s)
    && ModeKept(s.taker, t.taker) && ModeKept(s.maker, t.maker)
  }

  lemma {:induction false} PositionsWithoutTrade(e: Env, s: Valid, m: Engine)
    requires FollowsTo(e, s, m) && VerdictOf(e, s) != Match
    ensures PositionsMoved(e, s, m.s)
  {
  }

  lemma {:induction false} PositionsByTrade(e: Env, s: Valid, m: Valid)
    requires VerdictOf(e, s) == Match && m.market == Traded(e, s).market
    requires m.taker.position == Traded(e, s).taker.position && m.maker.position == Traded(e, s).maker.position
    requires m.taker.defaultIsolated == s.taker.defaultIsolated && m.maker.defaultIsolated == s.maker.defaultIsolated
    ensures PositionsMoved(e, s, m)
  {
  }

  /** The taker's position moves by what it bought, the maker's by as much the other way, and open interest by what
      their sizes grow; binary options keep theirs elsewhere, and nothing else moves any of it. Margin modes stay. */
  lemma {:induction false} StepMovesPositions(e: Env, s: Valid)
    requires ExecuteMatching(e, s).Some? && WithinCap(s)
    ensures PositionsMoved(e, s, Result(e, s).s)
  {
    var m := Middle(e, s);
    MiddleIsOk(e, s);
    if VerdictOf(e, s) == Match {
      MatchIsTraded(e, s);
      PositionsByTrade(e, s, m.s);
    } else {
      MiddleTakesVerdict(e, s);
      PositionsWithoutTrade(e, s, m);
    }
    ConclusionKeepsPositions(m.s, m.f);
  }

  /** A reduce-only order only reduces: what it trades comes off its owner's position, which never changes sign. For
      the resting order this needs the other side. */
  lemma {:induction false} ReduceOnlyReduces(e: Env, s: Valid)
    requires VerdictOf(e, s) == Match && s.market.marketType == MARKET_TYPE_PERPS
    requires (s.taker.position.stale ==> s.taker.position.size == 0)
             && (s.maker.position.stale ==> s.maker.position.size == 0)
    ensures var t, k := s.taker.position.size, s.maker.position.size;
            && (Pending(s).reduceOnly ==>
                  Abs(t + Bought(s)) == Abs(t) - TradeAmount(s) && Sign(t + Bought(s)) in {0, Sign(t)})
            && (s.order.reduceOnly && s.order.isAsk != Pending(s).isAsk ==>
                  Abs(k - Bought(s)) == Abs(k) - TradeAmount(s) && Sign(k - Bought(s)) in {0, Sign(k)})
  {
    TradeAmountIsLargest(s, TradeAmount(s));
    MatchMeans(e, s);
  }

  lemma {:induction false} MatchMeans(e: Env, s: Valid)
    requires VerdictOf(e, s) == Match && s.market.marketType == MARKET_TYPE_PERPS
    ensures Pending(s).reduceOnly ==> Removes(Pending(s).isAsk, s.taker.position.size)
    ensures s.order.reduceOnly ==> Removes(s.order.isAsk, s.maker.position.size)
  {
  }

  // Order counts

  function EffectiveOrders(p: Position): int {
    if p.stale then 0 else p.orders
  }

  function EffectiveTied(p: Position): int {
    if p.stale then 0 else p.tiedOrders
  }

  /** The counts of one account move together: in perps markets the position's own and, for isolated positions, the
      account's orders outside cross margin; elsewhere the latter always, and those of binary options there. */
  predicate CountsTogether(s: Valid, a: Account, b: Account, step: int) {
    && b.orders == a.orders + step
    && (if s.market.marketType == MARKET_TYPE_PERPS then
          && EffectiveOrders(b.position) == EffectiveOrders(a.position) + step
          && b.nonCrossOrders == a.nonCrossOrders + (if CountsIsolated(a) then step else 0)
          && b.optionOrders == a.optionOrders
        else
          && b.position == a.position && b.nonCrossOrders == a.nonCrossOrders + step
          && b.optionOrders
               == a.optionOrders + (if s.market.marketType == MARKET_TYPE_BINARY_OPTIONS then step else 0))
  }

  /** An order tied to its position: it only reduces and does not wait for a parent. */
  predicate Tied(reduceOnly: bool, triggerStatus: nat) {
    reduceOnly && triggerStatus != TRIGGER_STATUS_PARENT_ORDER
  }

  /** An inserted order counts for the taker, and as tied if it is. */
  lemma {:induction false} InsertCounts(s: Valid, r: Register)
    ensures var t := InsertTaker(s, r).s;
            && CountsTogether(s, s.taker, t.taker, 1) && t.maker == s.maker
            && (s.market.marketType == MARKET_TYPE_PERPS ==>
                  EffectiveTied(t.taker.position)
                    == EffectiveTied(s.taker.position) + if Tied(r.reduceOnly, r.triggerStatus) then 1 else 0)
  {
  }

  /** A removed order no longer counts for its owner, whose position is not stale. */
  lemma {:induction false} RemovalCounts(s: Valid, ofTaker: bool, market: nat)
    requires !s.taker.position.stale && !s.maker.position.stale
    ensures var t := RemoveMaker(s, ofTaker, market).s;
            var a, b := if ofTaker then s.taker else s.maker, if ofTaker then t.taker else t.maker;
            && CountsTogether(s, a, b, -1) && (if ofTaker then t.maker == s.maker else t.taker == s.taker)
            && (s.market.marketType == MARKET_TYPE_PERPS ==>
                  b.position.tiedOrders
                    == a.position.tiedOrders - if Tied(s.order.reduceOnly, s.order.triggerStatus) then 1 else 0)
  {
  }

  // What other orders are told

  /** Slot `at` holds an instruction if it is given, and what it held otherwise. */
  predicate Tells(before: Instructions, after: Instructions, at: nat, given: bool, told: Instruction) {
    if given then at in after && after[at] == told
    else (at in after <==> at in before) && (at in after ==> after[at] == before[at])
  }

  /** The children of an order that nothing was filled of are cancelled, others triggered with what was filled. */
  function ToChild(market: nat, account: nat, child: nat, filled: int): Instruction {
    if filled == 0 then CancelChild(market, account, child) else TriggerChild(market, account, child, filled)
  }

  /** Two children, in a slot and the one before it. */
  predicate TellsChildren(
    before: Instructions, after: Instructions, at: nat, given: bool, market: nat, account: nat, child0: nat,
    child1: nat, filled: int)
    requires at >= 1
  {
    && Tells(before, after, at, given && child0 != 0, ToChild(market, account, child0, filled))
    && Tells(before, after, at - 1, given && child1 != 0, ToChild(market, account, child1, filled))
  }

  predicate SameAt(before: Instructions, after: Instructions, at: nat) {
    (at in after <==> at in before) && (at in after ==> after[at] == before[at])
  }

  lemma {:induction false} ChildrenAreTold(
    m: Instructions, account: nat, market: nat, child0: nat, child1: nat, filled: int, at: nat)
    requires at >= 1
    ensures var after := Children(m, account, market, child0, child1, filled, at);
            && TellsChildren(m, after, at, true, market, account, child0, child1, filled)
            && (forall i: nat :: i != at && i != at - 1 ==> SameAt(m, after, i))
  {
  }

  lemma {:induction false} RemovalTells(s: Valid, f: Flags, ofTaker: bool, market: nat)
    ensures var o, t := s.order, RemoveIfCancelled(s, f, ofTaker, market).s;
            && TellsChildren(s.instructions, t.instructions, 7, f.cancelMaker, market, o.owner, o.child0, o.child1,
                             o.initial - o.remaining)
            && (forall i: nat :: i < 6 ==> SameAt(s.instructions, t.instructions, i))
  {
    var o := s.order;
    ChildrenAreTold(s.instructions, o.owner, market, o.child0, o.child1, o.initial - o.remaining, 7);
  }

  lemma {:induction false} CancelTells(s: Valid, f: Flags, r: Register)
    ensures var t := TellIfCancelled(s, f, r);
            && TellsChildren(s.instructions, t.instructions, 5, f.cancelTaker, r.marketIndex, r.account, r.child0,
                             r.child1, r.initialSize - r.size)
            && (forall i: nat :: i != 5 && i != 4 ==> SameAt(s.instructions, t.instructions, i))
  {
    ChildrenAreTold(s.instructions, r.account, r.marketIndex, r.child0, r.child1, r.initialSize - r.size, 5);
  }

  lemma {:induction false} InsertionTellsNothing(s: Valid, f: Flags, r: Register)
    ensures InsertIfDecided(s, f, r).s.instructions == s.instructions
  {
  }

  /** A removed order's children are told in slots 7 and 6, those of a cancelled taker in slots 5 and 4; an insert
      tells nothing. */
  predicate TellsAll(s: Valid, f: Flags, before: Instructions, after: Instructions) {
    var r, o := Pending(s), s.order;
    && TellsChildren(before, after, 7, f.cancelMaker, r.marketIndex, o.owner, o.child0, o.child1,
                     o.initial - o.remaining)
    && TellsChildren(before, after, 5, f.cancelTaker, r.marketIndex, r.account, r.child0, r.child1,
                     r.initialSize - r.size)
  }

  lemma {:induction false} ConclusionTells(s: Valid, f: Flags)
    ensures TellsAll(s, f, s.instructions, Conclude(s, f).s.instructions)
    ensures forall i: nat :: i < 4 ==> SameAt(s.instructions, Conclude(s, f).s.instructions, i)
  {
    var r, popped := Pending(s), PopIfDone(s, f);
    var removed := RemoveIfCancelled(popped, f, s.order.owner == r.account, r.marketIndex).s;
    RemovalTells(popped, f, s.order.owner == r.account, r.marketIndex);
    CancelTells(removed, f, r);
    InsertionTellsNothing(TellIfCancelled(removed, f, r), f, r);
    TellingTwice(s, f, popped.instructions, removed.instructions, TellIfCancelled(removed, f, r).instructions);
  }

  lemma {:induction false} TellingTwice(s: Valid, f: Flags, m: Instructions, n: Instructions, p: Instructions)
    requires var r, o := Pending(s), s.order;
             && TellsChildren(m, n, 7, f.cancelMaker, r.marketIndex, o.owner, o.child0, o.child1,
                              o.initial - o.remaining)
             && TellsChildren(n, p, 5, f.cancelTaker, r.marketIndex, r.account, r.child0, r.child1,
                              r.initialSize - r.size)
    requires forall i: nat :: i < 6 ==> SameAt(m, n, i)
    requires forall i: nat :: i != 5 && i != 4 ==> SameAt(n, p, i)
    ensures TellsAll(s, f, m, p) && forall i: nat :: i < 4 ==> SameAt(m, p, i)
  {
    assert SameAt(m, n, 5) && SameAt(m, n, 4) && SameAt(n, p, 7) && SameAt(n, p, 6);
    forall i: nat | i < 4 ensures SameAt(m, p, i) {
      assert SameAt(m, n, i) && SameAt(n, p, i);
    }
  }

  // What a trade tells

  predicate Flips(before: int, after: int) {
    Sign(before) != Sign(after)
  }

  /** Instructions of the slots below 4 after a trade: tied orders of a side whose position changed sign are
      cancelled, and collected fees are passed on. */
  predicate TellsTrade(e: Env, s: Valid, before: Instructions, after: Instructions, tied: int, makerTied: int) {
    var r, base := Pending(s), TradeAmount(s);
    var takerFlips := Flips(EffectiveSize(s.taker.position), SizeAfter(s, s.taker.position, Bought(s)));
    var makerFlips := Flips(EffectiveSize(s.maker.position), SizeAfter(s, s.maker.position, -Bought(s)));
    var fee, makerFee := e.takerFeeTransfer(base), e.makerFeeTransfer(base);
    && Tells(before, after, 3, takerFlips && tied != 0, CancelTied(r.marketIndex, r.account, tied))
    && Tells(before, after, 2, makerFlips && makerTied != 0, CancelTied(r.marketIndex, s.order.owner, makerTied))
    && (if base != 0 && fee.Some? then 1 in after && after[1] == fee.value else SameAt(before, after, 1))
    && (if base != 0 && makerFee.Some? then 0 in after && after[0] == makerFee.value else SameAt(before, after, 0))
  }

  lemma {:induction false} PutTells(m: Instructions, flag: bool, told: Instruction, at: nat)
    ensures Tells(m, Put(m, flag, told, at), at, flag, told)
    ensures forall i: nat :: i != at ==> SameAt(m, Put(m, flag, told, at), i)
  {
  }

  /** Two slots put one after the other. */
  lemma {:induction false} TwoPutsTell(
    m: Instructions, f1: bool, v1: Instruction, at1: nat, f2: bool, v2: Instruction, at2: nat)
    requires at1 != at2
    ensures var t := Put(Put(m, f1, v1, at1), f2, v2, at2);
            && Tells(m, t, at1, f1, v1) && Tells(m, t, at2, f2, v2)
            && (forall i: nat :: i != at1 && i != at2 ==> SameAt(m, t, i))
  {
    PutTells(m, f1, v1, at1);
    PutTells(Put(m, f1, v1, at1), f2, v2, at2);
    assert SameAt(Put(m, f1, v1, at1), Put(Put(m, f1, v1, at1), f2, v2, at2), at1);
  }

  lemma {:induction false} FourPutsTell(
    m: Instructions, f3: bool, v3: Instruction, f2: bool, v2: Instruction, f1: bool, v1: Instruction, f0: bool,
    v0: Instruction)
    ensures var p := Put(Put(Put(Put(m, f3, v3, 3), f2, v2, 2), f1, v1, 1), f0, v0, 0);
            && Tells(m, p, 3, f3, v3) && Tells(m, p, 2, f2, v2) && Tells(m, p, 1, f1, v1) && Tells(m, p, 0, f0, v0)
            && (forall i: nat :: i >= 4 ==> SameAt(m, p, i))
  {
    var n := Put(Put(m, f3, v3, 3), f2, v2, 2);
    var p := Put(Put(n, f1, v1, 1), f0, v0, 0);
    TwoPutsTell(m, f3, v3, 3, f2, v2, 2);
    TwoPutsTell(n, f1, v1, 1, f0, v0, 0);
    assert SameAt(n, p, 3) && SameAt(n, p, 2) && SameAt(m, n, 1) && SameAt(m, n, 0);
    SameAbove(m, n, p);
  }

  lemma {:induction false} TradeInstructionsTell(e: Env, s: Valid, ended: Valid)
    ensures var t := TradeInstructions(e, ended, s, TradeAmount(s));
            && TellsTrade(e, s, ended.instructions, t, ended.taker.position.tiedOrders,
                          ended.maker.position.tiedOrders)
            && (forall i: nat :: i >= 4 ==> SameAt(ended.instructions, t, i))
  {
    var r, base := Pending(s), TradeAmount(s);
    var takerFlips := Flips(EffectiveSize(s.taker.position), SizeAfter(s, s.taker.position, Bought(s)));
    var makerFlips := Flips(EffectiveSize(s.maker.position), SizeAfter(s, s.maker.position, -Bought(s)));
    var tied, makerTied := ended.taker.position.tiedOrders, ended.maker.position.tiedOrders;
    var fee, makerFee := e.takerFeeTransfer(base), e.makerFeeTransfer(base);
    FourPuts(e, s, ended);
    FourPutsTell(ended.instructions, takerFlips && tied != 0, CancelTied(r.marketIndex, r.account, tied),
                 makerFlips && makerTied != 0, CancelTied(r.marketIndex, s.order.owner, makerTied),
                 base != 0 && fee.Some?, ValueOr(fee), base != 0 && makerFee.Some?, ValueOr(makerFee));
  }

  lemma {:induction false} SameAbove(m: Instructions, n: Instructions, p: Instructions)
    requires forall i: nat :: i != 3 && i != 2 ==> SameAt(m, n, i)
    requires forall i: nat :: i != 1 && i != 0 ==> SameAt(n, p, i)
    ensures forall i: nat :: i >= 4 ==> SameAt(m, p, i)
  {
    forall i: nat | i >= 4 ensures SameAt(m, p, i) {
      assert SameAt(m, n, i) && SameAt(n, p, i);
    }
  }

  function ValueOr(i: Option<Instruction>): Instruction {
    if i.Some? then i.value else TransferFee(0)
  }

  lemma {:induction false} FourPuts(e: Env, s: Valid, ended: Valid)
    ensures var r, base, m := Pending(s), TradeAmount(s), ended.instructions;
            var takerFlips := Flips(EffectiveSize(s.taker.position), SizeAfter(s, s.taker.position, Bought(s)));
            var makerFlips := Flips(EffectiveSize(s.maker.position), SizeAfter(s, s.maker.position, -Bought(s)));
            var tied, makerTied := ended.taker.position.tiedOrders, ended.maker.position.tiedOrders;
            var fee, makerFee := e.takerFeeTransfer(base), e.makerFeeTransfer(base);
            var n := Put(Put(m, takerFlips && tied != 0, CancelTied(r.marketIndex, r.account, tied), 3),
                         makerFlips && makerTied != 0, CancelTied(r.marketIndex, s.order.owner, makerTied), 2);
            TradeInstructions(e, ended, s, base)
              == Put(Put(n, base != 0 && fee.Some?, ValueOr(fee), 1), base != 0 && makerFee.Some?, ValueOr(makerFee), 0)
  {
  }

  lemma {:induction false} TraderInstructionsKept(e: Env, s: Valid)
    requires WithinCap(s) && Middle(e, s).f.ok
    ensures Middle(e, s).s.instructions == s.instructions
  {
    MiddleTakesVerdict(e, s);
    if VerdictOf(e, s) == Match {
      ApplyKeepsInstructions(e, s, Checked(e, Decided(e, s)));
    }
  }

  lemma {:induction false} ApplyKeepsInstructions(e: Env, s: Valid, f: Flags)
    ensures ApplyTrade(e, s, f).s.instructions == s.instructions
  {
  }

  /** The children of the orders a step ends are told, with what has been filled of each by then. */
  predicate TellsByStep(e: Env, s: Valid, f: Flags, after: Instructions) {
    var o, p, taken := s.order, Pending(s), TakenBy(e, s);
    && TellsChildren(s.instructions, after, 7, f.cancelMaker, p.marketIndex, o.owner, o.child0, o.child1,
                     o.initial - (o.remaining - taken))
    && TellsChildren(s.instructions, after, 5, f.cancelTaker, p.marketIndex, p.account, p.child0, p.child1,
                     p.initialSize - (p.size - taken))
  }

  lemma {:induction false} TellsFromMiddle(e: Env, s: Valid, m: Valid, f: Flags, ended: Instructions, slippage: nat)
    requires Shrunk(s, m, TakenBy(e, s), slippage) && m.instructions == s.instructions
    requires TellsAll(m, f, m.instructions, ended)
    ensures TellsByStep(e, s, f, ended)
  {
  }

  lemma {:induction false} TellsAboveTrade(e: Env, s: Valid, f: Flags, ended: Instructions, after: Instructions)
    requires TellsByStep(e, s, f, ended) && forall i: nat :: i >= 4 ==> SameAt(ended, after, i)
    ensures TellsByStep(e, s, f, after)
  {
    assert SameAt(ended, after, 7) && SameAt(ended, after, 6) && SameAt(ended, after, 5) && SameAt(ended, after, 4);
  }

  lemma {:induction false} TradeFromMiddle(
    e: Env, s: Valid, ended: Instructions, after: Instructions, tied: int, makerTied: int)
    requires TellsTrade(e, s, ended, after, tied, makerTied)
    requires forall i: nat :: i < 4 ==> SameAt(s.instructions, ended, i)
    ensures TellsTrade(e, s, s.instructions, after, tied, makerTied)
  {
    assert SameAt(s.instructions, ended, 0) && SameAt(s.instructions, ended, 1);
    assert SameAt(s.instructions, ended, 2) && SameAt(s.instructions, ended, 3);
  }

  lemma {:induction false} EndedTells(e: Env, s: Valid)
    requires WithinCap(s) && Middle(e, s).f.ok
    ensures var m := Middle(e, s);
            var ended := Conclude(m.s, m.f).s.instructions;
            TellsByStep(e, s, m.f, ended) && forall i: nat :: i < 4 ==> SameAt(s.instructions, ended, i)
  {
    var m := Middle(e, s);
    MiddleShrinksBoth(e, s);
    TraderInstructionsKept(e, s);
    ConclusionTells(m.s, m.f);
    TellsFromMiddle(e, s, m.s, m.f, Conclude(m.s, m.f).s.instructions, SlippageAfter(e, s));
  }

  lemma {:induction false} AftermathOfStep(e: Env, s: Valid)
    requires ExecuteMatching(e, s).Some? && WithinCap(s)
    ensures var m := Middle(e, s);
            var ended := Conclude(m.s, m.f).s;
            Result(e, s).s == if VerdictOf(e, s) == Match
                              then ended.(instructions := TradeInstructions(e, ended, s, TradeAmount(s))) else ended
  {
    MiddleIsOk(e, s);
    MiddleTakesVerdict(e, s);
  }

  /** What a step tells: the children of the orders it ends and, after a trade, tied orders and fee transfers. */
  lemma {:induction false} StepTells(e: Env, s: Valid)
    requires ExecuteMatching(e, s).Some? && WithinCap(s)
    ensures var r := Result(e, s);
            && TellsByStep(e, s, r.f, r.s.instructions)
            && (if VerdictOf(e, s) == Match
                then TellsTrade(e, s, s.instructions, r.s.instructions, r.s.taker.position.tiedOrders,
                                r.s.maker.position.tiedOrders)
                else forall i: nat :: i < 4 ==> SameAt(s.instructions, r.s.instructions, i))
  {
    var m, r := Middle(e, s), Result(e, s);
    MiddleIsOk(e, s);
    EndedTells(e, s);
    EndingKeepsFlags(e, s);
    AftermathOfStep(e, s);
    var ended := Conclude(m.s, m.f).s;
    if VerdictOf(e, s) == Match {
      TradeInstructionsTell(e, s, ended);
      TellsAboveTrade(e, s, m.f, ended.instructions, r.s.instructions);
      TradeFromMiddle(e, s, ended.instructions, r.s.instructions, ended.taker.position.tiedOrders,
                      ended.maker.position.tiedOrders);
    }
  }
}
