/** One step of the matching engine: a pending order meets the best resting order of the other side. A cascade
    of status flags decides whether the taker is inserted or cancelled, the maker is cancelled, or both trade.
 */
module Matching {
  import opened Constants
  import opened Options
  import opened Numbers
  import opened BookTree
  import Locks = LockedBalance

  const MARKET_TYPE_PERPS: nat := 0
  const MARKET_TYPE_SPOT: nat := 1
  const MARKET_TYPE_BINARY_OPTIONS: nat := 2

  const LIMIT_ORDER: nat := 0
  const MARKET_ORDER: nat := 1
  const STOP_LOSS_ORDER: nat := 2
  const STOP_LOSS_LIMIT_ORDER: nat := 3
  const TAKE_PROFIT_ORDER: nat := 4
  const TAKE_PROFIT_LIMIT_ORDER: nat := 5
  const TWAP_SUB_ORDER: nat := 7
  const LIQUIDATION_ORDER: nat := 8

  const IOC: nat := 0
  const POST_ONLY: nat := 2

  const TRIGGER_STATUS_NA: nat := 0
  const TRIGGER_STATUS_PARENT_ORDER: nat := 3

  const EXPIRE_MAKER: nat := 0
  const EXPIRE_TAKER: nat := 1
  const EXPIRE_BOTH: nat := 2
  const REDUCE: nat := 3

  // State

  /** A pending order; `details` stands for fields that are only copied. */
  datatype Register = Register(
    marketIndex: nat, account: nat, isAsk: bool, size: nat, initialSize: nat, price: nat, nonce: nat,
    orderType: nat, timeInForce: nat, triggerStatus: nat, reduceOnly: bool, slippage: nat,
    orderIndex: nat, clientOrderIndex: nat, child0: nat, child1: nat, expiry: nat, details: int)

  const EMPTY_REGISTER: Register :=
    Register(0, 0, false, 0, 0, 0, 0, 0, 0, 0, false, 0, 0, 0, 0, 0, 0, 0)

  datatype AccountOrder = AccountOrder(
    index0: nat, index1: nat, owner: nat, isAsk: bool, remaining: nat, initial: nat, price: nat, nonce: nat,
    orderType: nat, timeInForce: nat, triggerStatus: nat, reduceOnly: bool,
    child0: nat, child1: nat, expiry: nat, details: int)

  function EmptyAccountOrder(index0: nat, index1: nat, owner: nat): AccountOrder {
    AccountOrder(index0, index1, owner, false, 0, 0, 0, 0, 0, 0, 0, false, 0, 0, 0, 0)
  }

  /** A leaf of the order book. */
  datatype Leaf = Leaf(price: nat, nonce: nat, sums: Sums)

  /** `stale` positions are initialized before they are used. */
  datatype Position = Position(size: int, orders: int, tiedOrders: int, isolated: bool, stale: bool)

  datatype Account = Account(
    index: nat, isInsuranceFund: bool, defaultIsolated: bool,
    orders: int, nonCrossOrders: int, optionOrders: int, position: Position, assets: seq<Locks.AssetSlot>)

  datatype Market = Market(
    marketType: nat, index: nat, isFrozen: bool, openInterest: int, markPrice: nat, quoteMultiplier: nat,
    orders: int, multipliers: Locks.Multipliers)

  datatype Instruction =
    | CancelChild(market: nat, account: nat, order: nat)
    | TriggerChild(market: nat, account: nat, order: nat, size: int)
    | CancelTied(market: nat, account: nat, count: int)
    | TransferFee(details: int)

  datatype State = State(
    enabled: bool,
    stack: seq<Register>, count: nat,
    leaf: Leaf, order: AccountOrder, path: seq<PathNode>, helpers: seq<bool>,
    market: Market, taker: Account, maker: Account,
    instructions: Instructions)

  /** What the engine takes from code it calls: the outcome of risk, balance and fee checks for a traded base
      amount, and facts about accounts. */
  datatype Env = Env(
    timestamp: nat, deadMansSwitch: bool, orderInMarket: bool,
    integratorFees: bool, byMaster: bool, sameMaster: bool, behavior: nat,
    takerRejected: nat -> bool, makerRejected: nat -> bool,
    takerOptionsRejected: nat -> bool, makerOptionsRejected: nat -> bool, optionsInterest: nat -> int,
    inLiquidation: nat -> bool, feesAccepted: nat -> bool,
    takerFeeTransfer: nat -> Option<Instruction>, makerFeeTransfer: nat -> Option<Instruction>)

  predicate WellFormed(s: State) {
    s.stack != [] && |s.path| == |s.helpers| && s.path != []
  }

  type Valid = s: State | WellFormed(s)
    witness State(false, [EMPTY_REGISTER], 0, Leaf(0, 0, NO_SUMS), EmptyAccountOrder(0, 0, 0),
                  [PathNode(NO_SUMS, Raw(NO_SUMS))], [false],
                  Market(0, 0, false, 0, 0, 0, 0, Locks.Multipliers(0, 0, 0, 0)),
                  Account(0, false, false, 0, 0, 0, Position(0, 0, 0, false, false), []),
                  Account(0, false, false, 0, 0, 0, Position(0, 0, 0, false, false), []), map[])

  /** `on` while no decision has been taken; `ok` while every assertion held. */
  datatype Flags = Flags(ok: bool, on: bool, cancelTaker: bool, cancelMaker: bool, insert: bool)

  function Assert(f: Flags, condition: bool): Flags {
    f.(ok := f.ok && condition)
  }

  function CancelTakerIf(f: Flags, condition: bool): Flags {
    if f.on && condition then f.(on := false, cancelTaker := true) else f
  }

  function CancelMakerIf(f: Flags, condition: bool): Flags {
    if f.on && condition then f.(on := false, cancelMaker := true) else f
  }

  function CancelBothIf(f: Flags, condition: bool): Flags {
    if f.on && condition then f.(on := false, cancelTaker := true, cancelMaker := true) else f
  }

  function InsertIf(f: Flags, condition: bool): Flags {
    if f.on && condition then f.(on := false, insert := true) else f
  }

  // Conditions

  function Pending(s: Valid): Register {
    s.stack[0]
  }

  predicate IsMarketLike(orderType: nat) {
    orderType in {MARKET_ORDER, STOP_LOSS_ORDER, TAKE_PROFIT_ORDER, TWAP_SUB_ORDER}
  }

  predicate IsLimitLike(orderType: nat) {
    orderType in {LIMIT_ORDER, LIQUIDATION_ORDER, STOP_LOSS_LIMIT_ORDER, TAKE_PROFIT_LIMIT_ORDER}
  }

  predicate InvalidReduceDirection(size: int, isAsk: bool) {
    !(if isAsk then size > 0 else size < 0)
  }

  predicate OppositeEmpty(s: Valid) {
    Opposite(Pending(s).isAsk, s.path[|s.path| - 1].sums).base == 0
  }

  /** The presented leaf is the best of the opposite side. */
  predicate BestPresented(s: Valid) {
    PathQuote(Pending(s).isAsk, s.leaf.sums, s.path, s.helpers).base == 0
  }

  predicate LeafBelongsToTaker(s: Valid) {
    var r := Pending(s);
    && s.leaf.price == r.price && s.leaf.nonce == r.nonce
    && s.order.owner == r.account && s.order.index0 == r.orderIndex && s.order.index1 == r.clientOrderIndex
  }

  predicate Crosses(s: Valid) {
    if Pending(s).isAsk then Pending(s).price <= s.leaf.price else Pending(s).price >= s.leaf.price
  }

  predicate SameAccount(s: Valid) {
    s.order.owner == Pending(s).account
  }

  predicate Expired(e: Env, s: Valid) {
    s.order.expiry <= e.timestamp
  }

  /** The type of a market as one of three flags. */
  predicate IsPerps(s: State) { s.market.marketType == MARKET_TYPE_PERPS }

  predicate IsSpot(s: State) { s.market.marketType == MARKET_TYPE_SPOT }

  predicate IsOptions(s: State) { s.market.marketType == MARKET_TYPE_BINARY_OPTIONS }

  // The cascade, up to the trade

  /** Orders that wait for a trigger, reduce in the wrong direction, or come to a frozen book. */
  function Admitted(s: Valid): Flags {
    var r, empty := Pending(s), s.leaf.sums == NO_SUMS;
    var f := Flags(true, s.enabled, false, false, false);
    var f := InsertIf(f, r.triggerStatus != TRIGGER_STATUS_NA);
    var f := CancelTakerIf(f, IsPerps(s) && r.reduceOnly && InvalidReduceDirection(s.taker.position.size, r.isAsk));
    var f := Assert(f, f.on && empty ==> LeafBelongsToTaker(s));
    var frozen := f.on && IsOptions(s) && s.market.isFrozen;
    var f := Assert(f, frozen ==> empty && (r.timeInForce != IOC ==> IsLimitLike(r.orderType)));
    InsertIf(CancelTakerIf(f, frozen && r.timeInForce == IOC), frozen)
  }

  /** Orders that find the other side empty; otherwise its best leaf must be presented. */
  function FacedSide(s: Valid, f: Flags): Flags {
    var f := CancelTakerIf(f, Pending(s).timeInForce == IOC && OppositeEmpty(s));
    Assert(f, f.on ==> BestPresented(s))
  }

  /** Orders that find no order to cross. */
  function Faced(e: Env, s: Valid, f: Flags): Flags {
    var r, empty := Pending(s), s.leaf.sums == NO_SUMS;
    var f := CancelTakerIf(f, r.timeInForce == IOC && empty);
    var f := Assert(f, f.on && empty ==> IsLimitLike(r.orderType));
    var f := InsertIf(f, empty);
    var f := Assert(f, f.on && IsLimitLike(r.orderType) ==> Crosses(s));
    Assert(f, f.on ==> s.leaf.price == s.order.price && s.leaf.nonce == s.order.nonce && e.orderInMarket)
  }

  /** Cases decided without looking at the resting order's owner. */
  function Opening(e: Env, s: Valid): Flags {
    Faced(e, s, FacedSide(s, Admitted(s)))
  }

  datatype Engine = Engine(s: Valid, f: Flags)

  function WithPending(s: Valid, r: Register): Valid {
    s.(stack := s.stack[0 := r])
  }

  function SetRemaining(leaf: Leaf, isAsk: bool, remaining: nat): Leaf {
    var quote := leaf.price * remaining;
    leaf.(sums := if isAsk then leaf.sums.(askBase := remaining, askQuote := quote)
                  else leaf.sums.(bidBase := remaining, bidQuote := quote))
  }

  function AmountBoth(s: Valid): (a: nat)
    ensures a <= Pending(s).size && a <= s.order.remaining
  {
    Min(s.order.remaining, Pending(s).size)
  }

  /** Spot orders of anyone but the insurance fund lock a balance while they rest. */
  predicate LocksBalance(s: State, a: Account, orderType: nat) {
    IsSpot(s) && orderType == LIMIT_ORDER && !a.isInsuranceFund
  }

  /** Takes `base` off both orders. */
  function Reduced(s: Valid, base: nat): Valid
    requires base <= Pending(s).size && base <= s.order.remaining
  {
    var left := s.order.remaining - base;
    WithPending(s, Pending(s).(size := Pending(s).size - base))
      .(order := s.order.(remaining := left), leaf := SetRemaining(s.leaf, s.order.isAsk, left))
  }

  function Unlocked(s: Valid, a: Account, base: nat): Option<seq<Locks.AssetSlot>> {
    if LocksBalance(s, a, s.order.orderType)
    then Locks.Unlock(s.market.multipliers, a.assets, base, s.order.price, s.order.isAsk)
    else Some(a.assets)
  }

  /** A trade with oneself: a post-only taker is cancelled, otherwise both orders shrink. */
  function SelfTradeReduce(s: Valid, f: Flags, flag: bool): Engine {
    var f := CancelTakerIf(f, flag && Pending(s).timeInForce == POST_ONLY);
    if !(f.on && flag) then Engine(s, f)
    else
      var base := AmountBoth(s);
      var assets, next := Unlocked(s, s.taker, base), Reduced(s, base);
      var f := f.(ok := f.ok && assets.Some?,
                  on := false,
                  cancelTaker := f.cancelTaker || Pending(next).size == 0,
                  cancelMaker := f.cancelMaker || next.order.remaining == 0);
      Engine(if assets.Some? then next.(taker := next.taker.(assets := assets.value)) else next, f)
  }

  /** The cancels of a trade with oneself, in the taker's mode. */
  function SelfTradeCancels(e: Env, s: Valid, f: Flags): Flags {
    var same := !e.byMaster && SameAccount(s);
    var f := CancelMakerIf(f, same && Expired(e, s));
    var f := CancelMakerIf(f, same && e.behavior == EXPIRE_MAKER);
    var f := CancelTakerIf(f, same && e.behavior == EXPIRE_TAKER);
    CancelBothIf(f, same && e.behavior == EXPIRE_BOTH)
  }

  function ReduceByMode(e: Env, s: Valid, f: Flags): Engine {
    SelfTradeReduce(s, f, !e.byMaster && SameAccount(s) && e.behavior == REDUCE)
  }

  /** With integrator fees every trade with oneself reduces both orders. */
  function ReduceWithFees(e: Env, s: Valid, f: Flags): Engine {
    var withFees := f.on && SameAccount(s) && e.integratorFees;
    SelfTradeReduce(s, CancelMakerIf(f, withFees && Expired(e, s)), withFees)
  }

  function SelfTrades(e: Env, s: Valid, f: Flags): Engine {
    var first := ReduceWithFees(e, s, f);
    ReduceByMode(e, first.s, SelfTradeCancels(e, first.s, first.f))
  }

  /** Everything else that cancels an order before amounts are looked at. */
  function BeforeTrade(e: Env, s: Valid, f: Flags): Flags {
    var sameMaster := e.byMaster && e.sameMaster && !e.integratorFees;
    var f := CancelMakerIf(f, e.deadMansSwitch || Expired(e, s));
    var f := CancelMakerIf(f, sameMaster && e.behavior == EXPIRE_MAKER);
    var f := CancelTakerIf(f, sameMaster && e.behavior == EXPIRE_TAKER);
    var f := CancelBothIf(f, sameMaster && e.behavior == EXPIRE_BOTH);
    var f := Assert(f, f.on ==> s.order.owner == s.maker.index && s.taker.index != s.maker.index);
    var f := CancelTakerIf(f, Pending(s).timeInForce == POST_ONLY);
    CancelMakerIf(f, IsPerps(s) && s.order.reduceOnly
                     && InvalidReduceDirection(s.maker.position.size, s.order.isAsk))
  }

  // Amounts

  function Clip(amount: nat, reduceOnly: bool, size: int): (clipped: nat)
    ensures clipped <= amount
  {
    if reduceOnly && Abs(size) < amount then Abs(size) else amount
  }

  function ClippedAmount(s: Valid): (a: nat)
    ensures a <= Pending(s).size && a <= s.order.remaining
  {
    Clip(Clip(AmountBoth(s), s.order.reduceOnly, s.maker.position.size),
         Pending(s).reduceOnly, s.taker.position.size)
  }

  /** How much better than the order's price the resting price is for the taker. */
  function Improvement(r: Register, price: nat): int {
    if r.isAsk then price - r.price else r.price - price
  }

  /** The amount a market order may trade at a price: its slippage budget pays for worse prices. */
  function AllowedAmount(s: Valid): nat {
    var gain := Improvement(Pending(s), s.leaf.price);
    if gain < 0 then Div(Pending(s).slippage, -gain) else ClippedAmount(s)
  }

  function TradeAmount(s: Valid): (a: nat)
    ensures a <= Pending(s).size && a <= s.order.remaining
  {
    if IsMarketLike(Pending(s).orderType) then Min(AllowedAmount(s), ClippedAmount(s)) else ClippedAmount(s)
  }

  predicate TooMuchSlippage(s: Valid) {
    && IsMarketLike(Pending(s).orderType)
    && Improvement(Pending(s), s.leaf.price) < 0
    && TradeAmount(s) == AllowedAmount(s) != ClippedAmount(s)
  }

  // The trade

  function SizeOf(p: Position): int {
    if p.stale then 0 else p.size
  }

  function TakerDelta(s: Valid, base: nat): int {
    if Pending(s).isAsk then 0 - base else base
  }

  function NewSize(s: Valid, p: Position, delta: int): int {
    if IsPerps(s) then SizeOf(p) + delta else p.size
  }

  function NewInterest(s: Valid, base: nat): int {
    var t, m, d := SizeOf(s.taker.position), SizeOf(s.maker.position), TakerDelta(s, base);
    s.market.openInterest + (Abs(t + d) - Abs(t)) + (Abs(m - d) - Abs(m))
  }

  predicate OverCap(market: Market, openInterest: int) {
    openInterest * (market.markPrice * market.quoteMultiplier) > MARKET_OPEN_INTEREST_NOTIONAL
  }

  /** The perps check. Its notional test is not gated: it looks at the unchanged open interest when no perps
      trade happens, and then overwrites the taker's flag with "not enabled". */
  function PerpsCheck(e: Env, s: Valid, f: Flags, base: nat): Flags {
    var enabled := f.on && IsPerps(s);
    var over := OverCap(s.market, if enabled then NewInterest(s, base) else s.market.openInterest);
    var cancelTaker := if (enabled && e.takerRejected(base)) || over then enabled else f.cancelTaker;
    var cancelMaker := if enabled && e.makerRejected(base) then enabled else f.cancelMaker;
    f.(on := f.on && !cancelTaker && !cancelMaker, cancelTaker := cancelTaker, cancelMaker := cancelMaker)
  }

  function BalanceCheck(e: Env, s: Valid, f: Flags, base: nat): Flags {
    var enabled := f.on && !IsPerps(s);
    var cancelTaker := f.cancelTaker || (enabled && e.takerRejected(base));
    var cancelMaker := f.cancelMaker || (enabled && e.makerRejected(base));
    f.(on := f.on && !cancelTaker && !cancelMaker, cancelTaker := cancelTaker, cancelMaker := cancelMaker)
  }

  function OptionsCheck(e: Env, s: Valid, f: Flags, base: nat): Flags {
    var enabled := f.on && IsOptions(s);
    var cancelTaker, cancelMaker := enabled && e.takerOptionsRejected(base), enabled && e.makerOptionsRejected(base);
    f.(on := f.on && !cancelTaker && !cancelMaker,
       cancelTaker := f.cancelTaker || cancelTaker, cancelMaker := f.cancelMaker || cancelMaker)
  }

  function NewSlippage(s: Valid): (slippage: nat)
    ensures var r := Pending(s);
            slippage == if IsMarketLike(r.orderType)
                        then r.slippage + Improvement(r, s.leaf.price) * TradeAmount(s) else r.slippage
  {
    var r := Pending(s);
    var gain := Improvement(r, s.leaf.price);
    if !IsMarketLike(r.orderType) then r.slippage
    else
      SlippagePaysFor(s);
      r.slippage + gain * TradeAmount(s)
  }

  /** What a fill costs never exceeds the slippage budget. */
  lemma {:induction false} SlippagePaysFor(s: Valid)
    requires IsMarketLike(Pending(s).orderType)
    ensures Pending(s).slippage + Improvement(Pending(s), s.leaf.price) * TradeAmount(s) >= 0
  {
    BudgetPaysFor(Pending(s).slippage, Improvement(Pending(s), s.leaf.price), TradeAmount(s));
  }

  lemma {:induction false} BudgetPaysFor(budget: nat, gain: int, amount: nat)
    requires gain < 0 ==> amount <= Div(budget, -gain)
    ensures budget + gain * amount >= 0
  {
    if gain < 0 {
      DivBounds(budget, -gain);
      MulMono(amount, Div(budget, -gain), -gain);
      assert gain * amount == -(amount * -gain);
    } else {
      MulMono(0, gain, amount);
    }
  }

  function Traded(e: Env, s: Valid): Valid {
    var base := TradeAmount(s);
    var r, delta := Pending(s), TakerDelta(s, base);
    var moved := Reduced(s, base);
    WithPending(moved, Pending(moved).(slippage := NewSlippage(s))).(
      market := s.market.(openInterest := if IsPerps(s) then NewInterest(s, base)
                                          else if IsOptions(s) then e.optionsInterest(base) else s.market.openInterest),
      taker := s.taker.(position := AfterTrade(s, s.taker, delta)),
      maker := s.maker.(position := AfterTrade(s, s.maker, -delta)))
  }

  function AfterTrade(s: Valid, a: Account, delta: int): Position {
    if !IsPerps(s) then a.position
    else Initialized(a.position, a.defaultIsolated).(size := SizeOf(a.position) + delta)
  }

  function Initialized(p: Position, isolated: bool): Position {
    if p.stale then Position(0, 0, 0, isolated, false) else p
  }

  /** The trade uses up the taker's amount, its reducing position, its slippage budget or its liquidation. */
  predicate TakerFinished(e: Env, s: Valid) {
    var base, r := TradeAmount(s), Pending(s);
    || r.size == base
    || (r.reduceOnly && InvalidReduceDirection(NewSize(s, s.taker.position, TakerDelta(s, base)), r.isAsk))
    || TooMuchSlippage(s)
    || (r.orderType == LIQUIDATION_ORDER && !e.inLiquidation(base))
  }

  predicate MakerFinished(s: Valid) {
    var base, o := TradeAmount(s), s.order;
    || o.remaining == base
    || (o.reduceOnly && InvalidReduceDirection(NewSize(s, s.maker.position, -TakerDelta(s, base)), o.isAsk))
  }

  /** Applies the trade, and decides which of the two orders is finished. */
  function ApplyTrade(e: Env, s: Valid, f: Flags): Engine {
    var base := TradeAmount(s);
    if !f.on then Engine(s, f)
    else
      var assets, next := Unlocked(s, s.maker, base), Traded(e, s);
      Engine(if assets.Some? then next.(maker := next.maker.(assets := assets.value)) else next,
             f.(ok := f.ok && assets.Some? && e.feesAccepted(base),
                cancelTaker := f.cancelTaker || TakerFinished(e, s), cancelMaker := f.cancelMaker || MakerFinished(s)))
  }

  // The ending

  function LeafFromRegister(r: Register): Leaf {
    var quote := r.size * r.price;
    Leaf(r.price, r.nonce, if r.isAsk then Sums(r.size, quote, 0, 0) else Sums(0, 0, r.size, quote))
  }

  function OrderFromRegister(r: Register): AccountOrder {
    AccountOrder(r.orderIndex, r.clientOrderIndex, r.account, r.isAsk, r.size, r.initialSize, r.price, r.nonce,
                 r.orderType, r.timeInForce, r.triggerStatus, r.reduceOnly, r.child0, r.child1, r.expiry, r.details)
  }

  function Pop(s: Valid): Valid {
    s.(stack := s.stack[1..] + [EMPTY_REGISTER], count := if s.count == 0 then 0 else s.count - 1)
  }

  type Instructions = map<nat, Instruction>

  function Put(m: Instructions, flag: bool, i: Instruction, at: nat): Instructions {
    if flag then m[at := i] else m
  }

  function ToldChild(account: nat, market: nat, child: nat, filled: int): Instruction {
    if filled == 0 then CancelChild(market, account, child) else TriggerChild(market, account, child, filled)
  }

  /** Child orders are cancelled with an unfilled parent and triggered by a filled one. */
  function Children(m: Instructions, account: nat, market: nat, child0: nat, child1: nat, filled: int, at: nat)
    : Instructions
    requires at >= 1
  {
    Put(Put(m, child0 != 0, ToldChild(account, market, child0, filled), at),
        child1 != 0, ToldChild(account, market, child1, filled), at - 1)
  }

  /** Order counts of an account when an order is added (1) or removed (-1). */
  function Counted(s: Valid, a: Account, step: int, tied: bool): Account {
    if !IsPerps(s) then
      a.(orders := a.orders + step, nonCrossOrders := a.nonCrossOrders + step,
         optionOrders := if IsOptions(s) then a.optionOrders + step else a.optionOrders)
    else
      var p := if step > 0 then Initialized(a.position, a.defaultIsolated) else a.position;
      a.(orders := a.orders + step,
         nonCrossOrders := a.nonCrossOrders + (if p.isolated then step else 0),
         position := p.(orders := p.orders + step, tiedOrders := p.tiedOrders + (if tied then step else 0)))
  }

  predicate IsTied(o: AccountOrder) {
    o.triggerStatus != TRIGGER_STATUS_PARENT_ORDER && o.reduceOnly
  }

  function CountedMarket(s: Valid, step: int): Market {
    s.market.(orders := s.market.orders + step)
  }

  /** Removes the resting order from its owner's slot and from the book. */
  function RemoveMaker(s: Valid, ofTaker: bool, market: nat): Engine {
    var o, a := s.order, if ofTaker then s.taker else s.maker;
    var counted := Counted(s, a, -1, IsTied(o));
    var assets := Unlocked(s, a, o.remaining);
    var owner := if assets.Some? then counted.(assets := assets.value) else counted;
    Engine(s.(market := CountedMarket(s, -1),
              taker := if ofTaker then owner else s.taker, maker := if ofTaker then s.maker else owner,
              order := EmptyAccountOrder(o.index0, o.index1, o.owner), leaf := s.leaf.(sums := NO_SUMS),
              instructions := Children(s.instructions, o.owner, market, o.child0, o.child1,
                                       o.initial - o.remaining, 7)),
           Flags(assets.Some?, false, false, false, false))
  }

  /** Puts the pending order to rest; only one that waits for no trigger enters the book. */
  function InsertTaker(s: Valid, r: Register): Engine {
    var o, inBook := OrderFromRegister(r), r.triggerStatus == TRIGGER_STATUS_NA;
    var counted := Counted(s, s.taker, 1, IsTied(o));
    var assets := if inBook && LocksBalance(s, s.taker, r.orderType)
                  then Locks.Lock(s.market.multipliers, s.taker.assets, o.remaining, o.price, o.isAsk)
                  else Some(s.taker.assets);
    Engine(s.(market := CountedMarket(s, 1), order := o, leaf := if inBook then LeafFromRegister(r) else s.leaf,
              taker := if assets.Some? then counted.(assets := assets.value) else counted),
           Flags(assets.Some?, false, false, false, false))
  }

  function PopIfDone(s: Valid, f: Flags): Valid {
    if f.cancelTaker || f.insert then Pop(s) else s
  }

  function RemoveIfCancelled(s: Valid, f: Flags, ofTaker: bool, market: nat): Engine {
    if f.cancelMaker then RemoveMaker(s, ofTaker, market) else Engine(s, Flags(true, false, false, false, false))
  }

  function TellIfCancelled(s: Valid, f: Flags, r: Register): Valid {
    if f.cancelTaker
    then s.(instructions := Children(s.instructions, r.account, r.marketIndex, r.child0, r.child1,
                                     r.initialSize - r.size, 5))
    else s
  }

  function InsertIfDecided(s: Valid, f: Flags, r: Register): Engine {
    if f.insert then InsertTaker(s, r) else Engine(s, Flags(true, false, false, false, false))
  }

  /** Carries out the decision. The pending order is taken as the trade left it. */
  function Conclude(s: Valid, f: Flags): Engine {
    var r := Pending(s);
    var removed := RemoveIfCancelled(PopIfDone(s, f), f, s.order.owner == r.account, r.marketIndex);
    var inserted := InsertIfDecided(TellIfCancelled(removed.s, f, r), f, r);
    var f := Assert(f, f.cancelTaker || f.insert ==> s.count != 0);
    Engine(inserted.s, Assert(Assert(f, removed.f.ok), inserted.f.ok))
  }

  /** Instructions that only a trade causes. */
  function TradeInstructions(e: Env, s: Valid, before: Valid, base: nat): Instructions {
    var r, delta := Pending(before), TakerDelta(before, base);
    var takerFlips := Sign(SizeOf(before.taker.position)) != Sign(NewSize(before, before.taker.position, delta));
    var makerFlips := Sign(SizeOf(before.maker.position)) != Sign(NewSize(before, before.maker.position, -delta));
    var tied, makerTied := s.taker.position.tiedOrders, s.maker.position.tiedOrders;
    var m := Put(s.instructions, takerFlips && tied != 0, CancelTied(r.marketIndex, r.account, tied), 3);
    var m := Put(m, makerFlips && makerTied != 0, CancelTied(r.marketIndex, before.order.owner, makerTied), 2);
    var fee, makerFee := e.takerFeeTransfer(base), e.makerFeeTransfer(base);
    var m := if base != 0 && fee.Some? then m[1 := fee.value] else m;
    if base != 0 && makerFee.Some? then m[0 := makerFee.value] else m
  }

  function Aftermath(e: Env, s: Valid, before: Valid, base: nat, traded: bool): Valid {
    if traded then s.(instructions := TradeInstructions(e, s, before, base)) else s
  }

  /** Flags when amounts are known and the trade is about to be checked. */
  function Decided(e: Env, s: Valid): Engine {
    var selfTrade := SelfTrades(e, s, Opening(e, s));
    Engine(selfTrade.s, BeforeTrade(e, selfTrade.s, selfTrade.f))
  }

  function Checked(e: Env, d: Engine): Flags {
    var base := TradeAmount(d.s);
    var f := CancelTakerIf(d.f, IsMarketLike(Pending(d.s).orderType) && base == 0);
    var f := PerpsCheck(e, d.s, f, base);
    var f := BalanceCheck(e, d.s, f, base);
    OptionsCheck(e, d.s, f, base)
  }

  /** The whole step: the final state and flags, or None when an assertion failed. */
  function ExecuteMatching(e: Env, s: Valid): Option<Engine> {
    var d := Decided(e, s);
    var traded := ApplyTrade(e, d.s, Checked(e, d));
    var ended := Conclude(traded.s, traded.f);
    if !ended.f.ok then None
    else Some(Engine(Aftermath(e, ended.s, d.s, TradeAmount(d.s), traded.f.on), ended.f))
  }
}
