/** The engine in the circuit's own form: flags and transaction state are overwritten stage by stage. */
module MatchingInPlace {
  import opened Options
  import opened Numbers
  import opened BookTree
  import Locks = LockedBalance
  import opened Matching

  class TxState {
    var s: Valid

    constructor (s: Valid)
      ensures this.s == s
    {
      this.s := s;
    }

    /** `apply_self_trade_reduce`. */
    method ApplySelfTradeReduce(f: Flags, flag: bool) returns (g: Flags)
      modifies this
      ensures Engine(s, g) == SelfTradeReduce(old(s), f, flag)
    {
      g := f;
      if g.on && flag && Pending(s).timeInForce == POST_ONLY {
        g := g.(cancelTaker := true, on := false);
      }
      if !(g.on && flag) { return; }
      var base := AmountBoth(s);
      var assets := Unlocked(s, s.taker, base);
      s := Reduced(s, base);
      if assets.Some? {
        s := s.(taker := s.taker.(assets := assets.value));
      } else {
        g := g.(ok := false);
      }
      if Pending(s).size == 0 {
        g := g.(cancelTaker := true);
      }
      if s.order.remaining == 0 {
        g := g.(cancelMaker := true);
      }
      g := g.(on := false);
    }

    /** Self trades: with integrator fees both sides are reduced, otherwise the taker's mode decides. */
    method HandleSelfTrades(e: Env, f: Flags) returns (g: Flags)
      modifies this
      ensures Engine(s, g) == SelfTrades(e, old(s), f)
    {
      var sameAccount, expired := SameAccount(s), Expired(e, s);
      g := f;
      var withFees := g.on && sameAccount && e.integratorFees;
      if g.on && withFees && expired {
        g := g.(cancelMaker := true, on := false);
      }
      g := ApplySelfTradeReduce(g, withFees);
      var same := !e.byMaster && sameAccount;
      if g.on && same {
        if expired || e.behavior == EXPIRE_MAKER {
          g := g.(cancelMaker := true, on := false);
        } else if e.behavior == EXPIRE_TAKER {
          g := g.(cancelTaker := true, on := false);
        } else if e.behavior == EXPIRE_BOTH {
          g := g.(cancelTaker := true, cancelMaker := true, on := false);
        }
      }
      g := ApplySelfTradeReduce(g, same && e.behavior == REDUCE);
    }

    /** Moves the traded amount and releases the maker's lock. */
    method MoveAmounts(e: Env) returns (unlocked: bool)
      modifies this
      ensures var assets, next := Unlocked(old(s), old(s).maker, TradeAmount(old(s))), Traded(e, old(s));
              && unlocked == assets.Some?
              && s == if assets.Some? then next.(maker := next.maker.(assets := assets.value)) else next
    {
      var assets := Unlocked(s, s.maker, TradeAmount(s));
      s := Traded(e, s);
      unlocked := assets.Some?;
      if unlocked {
        s := s.(maker := s.maker.(assets := assets.value));
      }
    }

    /** Which of the two orders the trade is about to finish. */
    method Finishes(e: Env) returns (taker: bool, maker: bool)
      ensures taker == TakerFinished(e, s) && maker == MakerFinished(s)
    {
      var base, r, o := TradeAmount(s), Pending(s), s.order;
      taker := r.size - base == 0 || TooMuchSlippage(s);
      maker := o.remaining - base == 0;
      var delta := TakerDelta(s, base);
      if r.reduceOnly && InvalidReduceDirection(NewSize(s, s.taker.position, delta), r.isAsk) {
        taker := true;
      }
      if o.reduceOnly && InvalidReduceDirection(NewSize(s, s.maker.position, -delta), o.isAsk) {
        maker := true;
      }
      if r.orderType == LIQUIDATION_ORDER && !e.inLiquidation(base) {
        taker := true;
      }
    }

    /** The trade itself. */
    method Trade(e: Env, f: Flags) returns (g: Flags)
      modifies this
      ensures Engine(s, g) == ApplyTrade(e, old(s), f)
    {
      g := f;
      if !g.on { return; }
      var base := TradeAmount(s);
      var taker, maker := Finishes(e);
      var unlocked := MoveAmounts(e);
      g := g.(ok := g.ok && unlocked && e.feesAccepted(base));
      if taker {
        g := g.(cancelTaker := true);
      }
      if maker {
        g := g.(cancelMaker := true);
      }
    }

    /** Order counts of one account. */
    method CountOrder(a: Account, step: int, tied: bool) returns (b: Account)
      ensures b == Counted(s, a, step, tied)
    {
      b := a.(orders := a.orders + step);
      if IsPerps(s) {
        var p := b.position;
        if step > 0 && p.stale {
          p := Position(0, 0, 0, a.defaultIsolated, false);
        }
        if p.isolated {
          b := b.(nonCrossOrders := b.nonCrossOrders + step);
        }
        p := p.(orders := p.orders + step);
        if tied {
          p := p.(tiedOrders := p.tiedOrders + step);
        }
        b := b.(position := p);
      } else {
        b := b.(nonCrossOrders := b.nonCrossOrders + step);
        if IsOptions(s) {
          b := b.(optionOrders := b.optionOrders + step);
        }
      }
    }

    /** Tells the children of a finished order. */
    method TellChildren(account: nat, market: nat, child0: nat, child1: nat, filled: int, at: nat)
      requires at >= 1
      modifies this
      ensures s == old(s).(instructions := Children(old(s).instructions, account, market, child0, child1, filled, at))
    {
      var told := s.instructions;
      if child0 != 0 {
        told := told[at := if filled == 0 then CancelChild(market, account, child0)
                           else TriggerChild(market, account, child0, filled)];
      }
      if child1 != 0 {
        told := told[at - 1 := if filled == 0 then CancelChild(market, account, child1)
                               else TriggerChild(market, account, child1, filled)];
      }
      s := s.(instructions := told);
    }

    /** Removes the resting order: counts, lock, children, then the order and its leaf. */
    method Remove(ofTaker: bool, market: nat) returns (ok: bool)
      modifies this
      ensures Engine(s, Flags(ok, false, false, false, false)) == RemoveMaker(old(s), ofTaker, market)
    {
      var o := s.order;
      var a := if ofTaker then s.taker else s.maker;
      var assets := Unlocked(s, a, o.remaining);
      a := CountOrder(a, -1, IsTied(o));
      ok := assets.Some?;
      if ok {
        a := a.(assets := assets.value);
      }
      s := s.(market := s.market.(orders := s.market.orders - 1));
      if ofTaker {
        s := s.(taker := a);
      } else {
        s := s.(maker := a);
      }
      TellChildren(o.owner, market, o.child0, o.child1, o.initial - o.remaining, 7);
      s := s.(order := EmptyAccountOrder(o.index0, o.index1, o.owner));
      s := s.(leaf := s.leaf.(sums := NO_SUMS));
    }

    /** Puts the pending order to rest: the leaf, the order, counts, then the lock. */
    method Insert(r: Register) returns (ok: bool)
      modifies this
      ensures Engine(s, Flags(ok, false, false, false, false)) == InsertTaker(old(s), r)
    {
      var o, taker, inBook := OrderFromRegister(r), s.taker, r.triggerStatus == TRIGGER_STATUS_NA;
      var locks := inBook && LocksBalance(s, taker, r.orderType);
      var counted := CountOrder(taker, 1, IsTied(o));
      if inBook {
        s := s.(leaf := LeafFromRegister(r));
      }
      s := s.(order := o);
      s := s.(market := s.market.(orders := s.market.orders + 1));
      ok := true;
      if locks {
        var assets := Locks.Lock(s.market.multipliers, taker.assets, o.remaining, o.price, o.isAsk);
        ok := assets.Some?;
        if ok {
          counted := counted.(assets := assets.value);
        }
      }
      s := s.(taker := counted);
    }

    /** Carries out the decision: pops, removes, tells children, inserts. */
    method Finish(f: Flags) returns (g: Flags)
      modifies this
      ensures Engine(s, g) == Conclude(old(s), f)
    {
      g := f;
      var r, ofTaker := Pending(s), SameAccount(s);
      if g.cancelTaker || g.insert {
        g := g.(ok := g.ok && s.count != 0);
        s := Pop(s);
      }
      if g.cancelMaker {
        var removed := Remove(ofTaker, r.marketIndex);
        g := g.(ok := g.ok && removed);
      }
      if g.cancelTaker {
        TellChildren(r.account, r.marketIndex, r.child0, r.child1, r.initialSize - r.size, 5);
      }
      if g.insert {
        var inserted := Insert(r);
        g := g.(ok := g.ok && inserted);
      }
    }

    // The cascade

    /** Orders that wait for a trigger, reduce in the wrong direction, or come to a frozen book. */
    method Admit() returns (f: Flags)
      ensures f == Admitted(s)
    {
      var r, empty := Pending(s), s.leaf.sums == NO_SUMS;
      var isIoc := r.timeInForce == IOC;
      f := Flags(true, s.enabled, false, false, false);
      if f.on && r.triggerStatus != TRIGGER_STATUS_NA {
        f := f.(insert := true, on := false);
      }
      if f.on && IsPerps(s) && r.reduceOnly && InvalidReduceDirection(s.taker.position.size, r.isAsk) {
        f := f.(cancelTaker := true, on := false);
      }
      if f.on && empty {
        f := f.(ok := LeafBelongsToTaker(s));
      }
      if f.on && IsOptions(s) && s.market.isFrozen {
        f := f.(ok := f.ok && empty && (isIoc || IsLimitLike(r.orderType)));
        f := f.(cancelTaker := isIoc, insert := !isIoc, on := false);
      }
    }

    /** Orders that find the other side empty; otherwise its best leaf must be presented. */
    method FaceSide(f: Flags) returns (g: Flags)
      ensures g == FacedSide(s, f)
    {
      var r := Pending(s);
      g := f;
      if g.on && r.timeInForce == IOC && OppositeEmpty(s) {
        g := g.(cancelTaker := true, on := false);
      }
      var better := GetQuote(r.isAsk, s.leaf.sums, s.path, s.helpers);
      g := g.(ok := g.ok && (g.on ==> better.base == 0));
    }

    /** Orders that find no order to cross. */
    method Face(e: Env, f: Flags) returns (g: Flags)
      ensures g == Faced(e, s, f)
    {
      var r := Pending(s);
      g := f;
      if g.on && s.leaf.sums == NO_SUMS {
        if r.timeInForce == IOC {
          g := g.(cancelTaker := true, on := false);
        } else {
          g := g.(ok := g.ok && IsLimitLike(r.orderType), insert := true, on := false);
        }
      }
      if g.on {
        g := g.(ok := g.ok && (IsLimitLike(r.orderType) ==> Crosses(s)));
        g := g.(ok := g.ok && s.leaf.price == s.order.price && s.leaf.nonce == s.order.nonce && e.orderInMarket);
      }
    }

    /** Everything else that cancels an order before amounts are looked at. */
    method Screen(e: Env, f: Flags) returns (g: Flags)
      ensures g == BeforeTrade(e, s, f)
    {
      g := f;
      if g.on && (e.deadMansSwitch || Expired(e, s)) {
        g := g.(cancelMaker := true, on := false);
      }
      if g.on && e.byMaster && e.sameMaster && !e.integratorFees {
        if e.behavior == EXPIRE_MAKER {
          g := g.(cancelMaker := true, on := false);
        } else if e.behavior == EXPIRE_TAKER {
          g := g.(cancelTaker := true, on := false);
        } else if e.behavior == EXPIRE_BOTH {
          g := g.(cancelTaker := true, cancelMaker := true, on := false);
        }
      }
      if g.on {
        g := g.(ok := g.ok && s.order.owner == s.maker.index && s.taker.index != s.maker.index);
        if Pending(s).timeInForce == POST_ONLY {
          g := g.(cancelTaker := true, on := false);
        } else if IsPerps(s) && s.order.reduceOnly
                  && InvalidReduceDirection(s.maker.position.size, s.order.isAsk)
        {
          g := g.(cancelMaker := true, on := false);
        }
      }
    }

    /** The traded amount: both orders' sizes, cut to reducing positions and to the slippage budget. */
    method Amount() returns (base: nat)
      ensures base == TradeAmount(s)
    {
      var r := Pending(s);
      base := if s.order.remaining < r.size then s.order.remaining else r.size;
      if s.order.reduceOnly && Abs(s.maker.position.size) < base {
        base := Abs(s.maker.position.size);
      }
      if r.reduceOnly && Abs(s.taker.position.size) < base {
        base := Abs(s.taker.position.size);
      }
      if IsMarketLike(r.orderType) {
        var worse := if r.isAsk then r.price - s.leaf.price else s.leaf.price - r.price;
        if worse > 0 && Div(r.slippage, worse) < base {
          base := Div(r.slippage, worse);
        }
      }
    }

    /** Perps: risk of both sides and open interest. The notional test is not gated. */
    method CheckPerps(e: Env, f: Flags, base: nat) returns (g: Flags)
      ensures g == PerpsCheck(e, s, f, base)
    {
      g := f;
      var enabled := g.on && IsPerps(s);
      var interest := if enabled then NewInterest(s, base) else s.market.openInterest;
      if OverCap(s.market, interest) || (enabled && e.takerRejected(base)) {
        g := g.(cancelTaker := enabled);
      }
      if enabled && e.makerRejected(base) {
        g := g.(cancelMaker := true);
      }
      g := g.(on := g.on && !g.cancelTaker && !g.cancelMaker);
    }

    /** Spot and binary options: balances. */
    method CheckBalances(e: Env, f: Flags, base: nat) returns (g: Flags)
      ensures g == BalanceCheck(e, s, f, base)
    {
      g := f;
      if g.on && !IsPerps(s) {
        var rejectTaker, rejectMaker := e.takerRejected(base), e.makerRejected(base);
        g := g.(cancelTaker := g.cancelTaker || rejectTaker, cancelMaker := g.cancelMaker || rejectMaker);
      }
      g := g.(on := g.on && !g.cancelTaker && !g.cancelMaker);
    }

    /** Binary options: positions and escrow. */
    method CheckOptions(e: Env, f: Flags, base: nat) returns (g: Flags)
      ensures g == OptionsCheck(e, s, f, base)
    {
      g := f;
      if g.on && IsOptions(s) {
        var rejectTaker, rejectMaker := e.takerOptionsRejected(base), e.makerOptionsRejected(base);
        g := g.(cancelTaker := g.cancelTaker || rejectTaker, cancelMaker := g.cancelMaker || rejectMaker,
                on := !rejectTaker && !rejectMaker);
      }
    }

    /** `execute_matching`: computes exactly the function of the same name; an assertion failed when `g.ok`
        is false. */
    method Execute(e: Env) returns (g: Flags)
      modifies this
      ensures match ExecuteMatching(e, old(s))
              case None => !g.ok
              case Some(r) => r == Engine(s, g) && g.ok
    {
      g := Admit();
      g := FaceSide(g);
      g := Face(e, g);
      g := HandleSelfTrades(e, g);
      g := Screen(e, g);
      var before := s;
      assert Engine(before, g) == Decided(e, old(s));
      ghost var decided := Engine(s, g);
      var base := Amount();
      if g.on && IsMarketLike(Pending(s).orderType) && base == 0 {
        g := g.(cancelTaker := true, on := false);
      }
      g := CheckPerps(e, g, base);
      g := CheckBalances(e, g, base);
      g := CheckOptions(e, g, base);
      assert g == Checked(e, decided);
      g := Trade(e, g);
      var traded := g.on;
      g := Finish(g);
      s := Aftermath(e, s, before, base, traded);
    }
  }
}
