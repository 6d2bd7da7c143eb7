/** The engine's bookkeeping for resting orders: locked balances and order counts follow its decisions. */
module MatchingLocks {
  import opened Constants
  import opened Options
  import opened Numbers
  import opened BookTree
  import Locks = LockedBalance
  import opened LockedLedger
  import opened Matching
  import opened MatchingProgress

  /** What the resting order needs locked: an ask its base, a bid its quote. */
  function Needed(s: Valid, remaining: nat): nat {
    remaining * if s.order.isAsk then s.market.multipliers.sizeExtension
                else s.order.price * s.market.multipliers.quoteExtension
  }

  function LockAsset(s: Valid): nat {
    if s.order.isAsk then s.market.multipliers.baseAsset else s.market.multipliers.quoteAsset
  }

  /** Releasing part of an order's lock moves its asset by that part and no other asset. */
  lemma {:induction false} UnlockMoves(s: Valid, a: Account, base: nat, asset: nat)
    requires LocksBalance(s, a, s.order.orderType) && Unlocked(s, a, base).Some?
    ensures LockedOf(Unlocked(s, a, base).value, asset)
         == LockedOf(a.assets, asset) - if asset == LockAsset(s) then Needed(s, base) else 0
  {
    AdjustMovesOne(a.assets, LockAsset(s), 0 - Needed(s, base), asset);
  }

  /** The account behind the resting order: the taker itself in a trade with oneself. */
  function OwnerOf(s: Valid): Account {
    if SameAccount(s) then s.taker else s.maker
  }

  predicate SameHolder(a: Account, b: Account) {
    b.index == a.index && b.isInsuranceFund == a.isInsuranceFund
  }

  /** `assets` are the account's after the resting order's lock on `base` has been released. */
  predicate Released(s: Valid, a: Account, base: nat, assets: seq<Locks.AssetSlot>) {
    Unlocked(s, a, base) == Some(assets) || (base == 0 && assets == a.assets)
  }

  /** `t` is `s` after `base` was taken off the resting order and released to its owner. */
  predicate Takes(s: Valid, t: Valid, base: nat) {
    && base <= s.order.remaining && t.order == s.order.(remaining := s.order.remaining - base)
    && t.market.multipliers == s.market.multipliers && t.market.marketType == s.market.marketType
    && Pending(t).account == Pending(s).account
    && SameHolder(s.taker, t.taker) && SameHolder(s.maker, t.maker)
    && (if SameAccount(s) then Released(s, s.taker, base, t.taker.assets) else t.taker.assets == s.taker.assets)
    && (if SameAccount(s) then t.maker.assets == s.maker.assets else Released(s, s.maker, base, t.maker.assets))
  }

  /** `t` is `s` after some amount was taken off the resting order. */
  predicate TakesSome(s: Valid, t: Valid) {
    t.order.remaining <= s.order.remaining && Takes(s, t, s.order.remaining - t.order.remaining)
  }

  /** What a stage of the cascade before the trade may do: nothing when decided, and it decides when it acts. */
  predicate Stage(s: Valid, f: Flags, t: Engine) {
    && f.ok && t.f.insert == f.insert && (!f.on ==> t == Engine(s, f))
    && (t.f.on ==> f.on && t.s == s) && TakesSome(s, t.s)
  }

  /** Cancelling only: the state stays. */
  predicate Narrows(f: Flags, g: Flags) {
    g.ok == f.ok && g.insert == f.insert && (!f.on ==> g == f)
  }

  lemma {:induction false} ReduceTakes(s: Valid, f: Flags, flag: bool)
    requires SelfTradeReduce(s, f, flag).f.ok && (flag ==> SameAccount(s))
    ensures Stage(s, f, SelfTradeReduce(s, f, flag))
  {
  }

  lemma {:induction false} StagesCompose(s: Valid, f: Flags, g: Flags, first: Engine, h: Flags, second: Engine)
    requires Narrows(f, g) && Stage(s, g, first) && Narrows(first.f, h) && Stage(first.s, h, second)
    ensures Stage(s, f, second)
  {
  }

  lemma {:induction false} SelfTradeCancelsNarrow(e: Env, s: Valid, f: Flags)
    ensures Narrows(f, SelfTradeCancels(e, s, f))
  {
  }

  lemma {:induction false} ReduceWithFeesTakes(e: Env, s: Valid, f: Flags)
    requires ReduceWithFees(e, s, f).f.ok
    ensures Stage(s, f, ReduceWithFees(e, s, f))
  {
    var withFees := f.on && SameAccount(s) && e.integratorFees;
    var g := CancelMakerIf(f, withFees && Expired(e, s));
    ReduceTakes(s, g, withFees);
    var first := SelfTradeReduce(s, g, withFees);
    StagesCompose(s, f, g, first, first.f, first);
  }

  /** At most one of the two self-trade reductions acts, and then nothing is left undecided. */
  lemma {:induction false} SelfTradesTake(e: Env, s: Valid, f: Flags)
    requires SelfTrades(e, s, f).f.ok
    ensures Stage(s, f, SelfTrades(e, s, f))
  {
    var first := ReduceWithFees(e, s, f);
    var g, flag := SelfTradeCancels(e, first.s, first.f), !e.byMaster && SameAccount(first.s) && e.behavior == REDUCE;
    ReduceNeedsOk(first.s, g, flag);
    SelfTradeCancelsNarrow(e, first.s, first.f);
    ReduceWithFeesTakes(e, s, f);
    ReduceTakes(first.s, g, flag);
    StagesCompose(s, f, f, first, g, SelfTradeReduce(first.s, g, flag));
  }

  /** An order still undecided before the trade belongs to another account. */
  lemma {:induction false} BeforeTradeAsserts(e: Env, s: Valid, f: Flags)
    requires BeforeTrade(e, s, f).ok
    ensures BeforeTrade(e, s, f).on ==> f.on && s.order.owner == s.maker.index != s.taker.index
  {
  }

  lemma {:induction false} BeforeTradeNarrows(e: Env, s: Valid, f: Flags)
    requires BeforeTrade(e, s, f).ok
    ensures f.ok && BeforeTrade(e, s, f).insert == f.insert && (!f.on ==> BeforeTrade(e, s, f) == f)
  {
  }

  lemma {:induction false} TradeTakes(e: Env, s: Valid, f: Flags)
    requires ApplyTrade(e, s, f).f.ok && (f.on ==> !SameAccount(s))
    ensures f.ok && ApplyTrade(e, s, f).f.insert == f.insert && (!f.on ==> ApplyTrade(e, s, f) == Engine(s, f))
    ensures TakesSome(s, ApplyTrade(e, s, f).s)
  {
  }

  /** Up to the conclusion a step takes one amount off the resting order and releases its lock to the owner. */
  lemma {:induction false} MiddleTakes(e: Env, s: Valid)
    requires ExecuteMatching(e, s).Some? && s.taker.index == Pending(s).account
    ensures TakesSome(s, Middle(e, s).s) && Middle(e, s).f.ok
    ensures Opening(e, s).ok && (!Opening(e, s).on ==> Middle(e, s).s == s)
    ensures Middle(e, s).f.insert == Opening(e, s).insert
    ensures !Opening(e, s).on ==> Middle(e, s).f.cancelMaker == Opening(e, s).cancelMaker
  {
    var d, m := Decided(e, s), Middle(e, s);
    ConcludeNeedsOk(m.s, m.f);
    DecidedTakes(e, s);
    ChecksTakeNothing(e, d);
    TradeTakes(e, d.s, Checked(e, d));
    StagesCompose(s, Opening(e, s), Opening(e, s), d, d.f, d);
  }

  lemma {:induction false} DecidedTakes(e: Env, s: Valid)
    requires Decided(e, s).f.ok && s.taker.index == Pending(s).account
    ensures Stage(s, Opening(e, s), Decided(e, s))
    ensures Decided(e, s).f.on ==> !SameAccount(Decided(e, s).s)
  {
    var t := SelfTrades(e, s, Opening(e, s));
    BeforeTradeAsserts(e, t.s, t.f);
    BeforeTradeNarrows(e, t.s, t.f);
    SelfTradesTake(e, s, Opening(e, s));
  }

  /** Insertion is decided before anything else, on an order that meets no other. */
  lemma {:induction false} OpeningInserts(e: Env, s: Valid)
    requires Opening(e, s).ok
    ensures !Opening(e, s).cancelMaker && (Opening(e, s).insert ==> !Opening(e, s).on && !Meets(s))
    ensures Opening(e, s).on ==> Meets(s)
  {
  }

  /** The presented leaf holds an order the taker may meet. */
  predicate Meets(s: Valid) {
    s.leaf.sums != NO_SUMS && Pending(s).triggerStatus == TRIGGER_STATUS_NA
  }

  /** A step that inserts, or meets no order, changes nothing before the conclusion. */
  lemma {:induction false} InsertingIsQuiet(e: Env, s: Valid)
    requires ExecuteMatching(e, s).Some? && s.taker.index == Pending(s).account
    ensures var f := Middle(e, s).f;
            && (f.insert ==> !Meets(s))
            && (f.insert || !Meets(s) ==> Middle(e, s).s == s && !f.cancelMaker)
  {
    MiddleTakes(e, s);
    OpeningInserts(e, s);
  }

  /** What the conclusion does to balances and to the order. */
  predicate Concludes(s: Valid, f: Flags, t: Valid) {
    && SameHolder(s.taker, t.taker) && SameHolder(s.maker, t.maker)
    && t.market.multipliers == s.market.multipliers && t.market.marketType == s.market.marketType
    && (f.insert ==>
          && t.order == OrderFromRegister(Pending(s)) && t.maker.assets == s.maker.assets
          && Some(t.taker.assets) == LockedFor(s, Pending(s)))
    && (!f.insert && !f.cancelMaker ==>
          t.order == s.order && t.taker.assets == s.taker.assets && t.maker.assets == s.maker.assets)
    && (!f.insert && f.cancelMaker ==>
          if SameAccount(s)
          then Some(t.taker.assets) == Unlocked(s, s.taker, s.order.remaining) && t.maker.assets == s.maker.assets
          else Some(t.maker.assets) == Unlocked(s, s.maker, s.order.remaining) && t.taker.assets == s.taker.assets)
  }

  /** The taker's assets after its pending order came to rest. */
  function LockedFor(s: Valid, r: Register): Option<seq<Locks.AssetSlot>> {
    if r.triggerStatus == TRIGGER_STATUS_NA && LocksBalance(s, s.taker, r.orderType)
    then Locks.Lock(s.market.multipliers, s.taker.assets, r.size, r.price, r.isAsk)
    else Some(s.taker.assets)
  }

  lemma {:induction false} ConclusionConcludes(s: Valid, f: Flags)
    requires Conclude(s, f).f.ok && !(f.insert && f.cancelMaker)
    ensures Concludes(s, f, Conclude(s, f).s)
  {
  }

  /** What a step releases of the resting order's lock, in an asset. */
  function ReleasedBy(s: Valid, left: nat, asset: nat): int {
    if LocksBalance(s, OwnerOf(s), s.order.orderType) && asset == LockAsset(s)
    then Needed(s, s.order.remaining) - Needed(s, left) else 0
  }

  lemma {:induction false} ReleaseMoves(s: Valid, a: Account, base: nat, assets: seq<Locks.AssetSlot>, asset: nat)
    requires Released(s, a, base, assets) && base <= s.order.remaining && a == OwnerOf(s)
    ensures LockedOf(assets, asset) == LockedOf(a.assets, asset) - ReleasedBy(s, s.order.remaining - base, asset)
  {
    AmountSplits(s.market.multipliers, s.order.remaining, base, s.order.price, s.order.isAsk);
    if LocksBalance(s, a, s.order.orderType) && Unlocked(s, a, base).Some? {
      UnlockMoves(s, a, base, asset);
    }
  }

  /** What a step locks for the taker, in an asset. */
  function LockedBy(s: Valid, f: Flags, asset: nat): nat {
    var r, m := Pending(s), s.market.multipliers;
    if f.insert && r.triggerStatus == TRIGGER_STATUS_NA && LocksBalance(s, s.taker, r.orderType)
       && asset == (if r.isAsk then m.baseAsset else m.quoteAsset)
    then r.size * (if r.isAsk then m.sizeExtension else r.price * m.quoteExtension) else 0
  }

  /** What is left of the resting order. */
  function LeftBy(s: Valid, r: Engine): nat {
    if r.f.insert then s.order.remaining else if r.f.cancelMaker then 0 else r.s.order.remaining
  }

  /** Two releases in a row, the second of all that is left. */
  lemma {:induction false} RemovalMoves(s: Valid, t: Valid, base: nat, assets: seq<Locks.AssetSlot>, asset: nat)
    requires Takes(s, t, base) && Unlocked(t, OwnerOf(t), t.order.remaining) == Some(assets)
    ensures LockedOf(assets, asset) == LockedOf(OwnerOf(s).assets, asset) - ReleasedBy(s, 0, asset)
  {
    ReleaseMoves(s, OwnerOf(s), base, OwnerOf(t).assets, asset);
    ReleaseMoves(t, OwnerOf(t), t.order.remaining, assets, asset);
  }

  /** Over one step of the engine, in any market and with any order, locked balances move by exactly what the
      resting order no longer needs, for its owner and in its asset, and by what an inserted spot limit order
      needs, for the taker: fills, trades with oneself, removals and inserts alike. */
  lemma {:induction false} StepLocksExactly(e: Env, s: Valid, asset: nat)
    requires ExecuteMatching(e, s).Some? && s.taker.index == Pending(s).account
    ensures var r := ExecuteMatching(e, s).value;
            var released := ReleasedBy(s, LeftBy(s, r), asset);
            && LeftBy(s, r) <= s.order.remaining
            && LockedOf(r.s.taker.assets, asset)
                 == LockedOf(s.taker.assets, asset) + LockedBy(s, r.f, asset) - (if SameAccount(s) then released else 0)
            && LockedOf(r.s.maker.assets, asset)
                 == LockedOf(s.maker.assets, asset) - (if SameAccount(s) then 0 else released)
  {
    EndingKeepsFlags(e, s);
    MiddleTakes(e, s);
    InsertingIsQuiet(e, s);
    var m := Middle(e, s);
    ConclusionConcludes(m.s, m.f);
    EndMoves(s, m.s, m.f, Conclude(m.s, m.f).s, asset);
  }

  lemma {:induction false} EndMoves(s: Valid, m: Valid, f: Flags, t: Valid, asset: nat)
    requires TakesSome(s, m) && Concludes(m, f, t) && (f.insert ==> m == s && !f.cancelMaker)
    ensures var released := ReleasedBy(s, LeftBy(s, Engine(t, f)), asset);
            && LeftBy(s, Engine(t, f)) <= s.order.remaining
            && LockedOf(t.taker.assets, asset)
                 == LockedOf(s.taker.assets, asset) + LockedBy(s, f, asset) - (if SameAccount(s) then released else 0)
            && LockedOf(t.maker.assets, asset)
                 == LockedOf(s.maker.assets, asset) - (if SameAccount(s) then 0 else released)
  {
    var base := s.order.remaining - m.order.remaining;
    var ownerAssets := if SameAccount(s) then t.taker.assets else t.maker.assets;
    if f.insert {
      InsertMoves(s, t, asset);
    } else if f.cancelMaker {
      RemovalMoves(s, m, base, ownerAssets, asset);
    } else {
      ReleaseMoves(s, OwnerOf(s), base, ownerAssets, asset);
    }
  }

  lemma {:induction false} InsertMoves(s: Valid, t: Valid, asset: nat)
    requires Some(t.taker.assets) == LockedFor(s, Pending(s))
    ensures LockedOf(t.taker.assets, asset)
         == LockedOf(s.taker.assets, asset) + LockedBy(s, Flags(true, false, false, false, true), asset)
  {
    var r, m := Pending(s), s.market.multipliers;
    if r.triggerStatus == TRIGGER_STATUS_NA && LocksBalance(s, s.taker, r.orderType) {
      AdjustMovesOne(s.taker.assets, Locks.LockedAsset(m, r.isAsk), Locks.LockedAmount(m, r.size, r.price, r.isAsk),
                     asset);
    }
  }

  /** Order counts of the market and of both accounts follow the decisions: one more for an inserted order of
      the taker, one less for a removed order of its owner. */
  lemma {:induction false} CountsFollowDecisions(e: Env, s: Valid)
    requires ExecuteMatching(e, s).Some?
    ensures var r := ExecuteMatching(e, s).value;
            var added, removed := if r.f.insert then 1 else 0, if r.f.cancelMaker then 1 else 0;
            && r.s.market.orders == s.market.orders + added - removed
            && r.s.taker.orders == s.taker.orders + added - (if SameAccount(s) then removed else 0)
            && r.s.maker.orders == s.maker.orders - (if SameAccount(s) then 0 else removed)
  {
    CascadeKeepsCounts(e, s);
    EndingKeepsFlags(e, s);
    var d := Decided(e, s);
    var t := ApplyTrade(e, d.s, Checked(e, d));
    ConclusionCounts(t.s, t.f);
  }

  predicate SameCounts(s: Valid, t: Valid) {
    && t.market.orders == s.market.orders && t.taker.orders == s.taker.orders && t.maker.orders == s.maker.orders
    && SameAccount(t) == SameAccount(s)
  }

  lemma {:induction false} CascadeKeepsCounts(e: Env, s: Valid)
    ensures var d := Decided(e, s);
            SameCounts(s, ApplyTrade(e, d.s, Checked(e, d)).s)
  {
    SelfTradesKeepCounts(e, s, Opening(e, s));
    TradeKeepsCounts(e, Decided(e, s).s, Checked(e, Decided(e, s)));
  }

  lemma {:induction false} SelfTradesKeepCounts(e: Env, s: Valid, f: Flags)
    ensures SameCounts(s, SelfTrades(e, s, f).s)
  {
    var withFees := f.on && SameAccount(s) && e.integratorFees;
    var first := ReduceWithFees(e, s, f);
    ReduceKeepsCounts(s, CancelMakerIf(f, withFees && Expired(e, s)), withFees);
    ReduceKeepsCounts(first.s, SelfTradeCancels(e, first.s, first.f),
        !e.byMaster && SameAccount(first.s) && e.behavior == REDUCE);
  }

  lemma {:induction false} ReduceKeepsCounts(s: Valid, f: Flags, flag: bool)
    ensures SameCounts(s, SelfTradeReduce(s, f, flag).s)
  {
  }

  lemma {:induction false} TradeKeepsCounts(e: Env, s: Valid, f: Flags)
    ensures SameCounts(s, ApplyTrade(e, s, f).s)
  {
  }

  lemma {:induction false} ConclusionCounts(s: Valid, f: Flags)
    ensures var t := Conclude(s, f).s;
            var added, removed := if f.insert then 1 else 0, if f.cancelMaker then 1 else 0;
            && t.market.orders == s.market.orders + added - removed
            && t.taker.orders == s.taker.orders + added - (if SameAccount(s) then removed else 0)
            && t.maker.orders == s.maker.orders - (if SameAccount(s) then 0 else removed)
  {
  }
}
