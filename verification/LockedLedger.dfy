/** Locked balances and order counts over whole runs of inserts, fills, self-trade reductions and cancels. */
module LockedLedger {
  import opened Options
  import opened Numbers
  import opened LockedBalance

  /** A resting order; spot limit orders in the book lock a balance. */
  datatype Order = Order(owner: nat, market: Multipliers, isAsk: bool, price: nat, remaining: nat, locks: bool)

  /** All orders ever inserted, with None for removed ones; per account its asset slots and order count. */
  datatype Ledger = Ledger(
    orders: seq<Option<Order>>, assets: map<nat, seq<AssetSlot>>, counts: map<nat, int>, insurance: set<nat>)

  /** Fills and self-trade reductions take from an order; a cancel removes it. */
  datatype Event = Insert(order: Order) | Take(id: nat, base: nat) | Cancel(id: nat)

  predicate Exists(l: Ledger, id: nat) {
    id < |l.orders| && l.orders[id].Some? && l.orders[id].value.owner in l.assets
    && l.orders[id].value.owner in l.counts
  }

  predicate Allowed(l: Ledger, e: Event) {
    match e
    case Insert(o) => o.owner in l.assets && o.owner in l.counts
    case Take(id, base) => Exists(l, id) && base <= l.orders[id].value.remaining
    case Cancel(id) => Exists(l, id)
  }

  /** The insurance fund locks nothing. */
  function SlotsAfter(l: Ledger, o: Order, base: nat, lock: bool): Option<seq<AssetSlot>>
    requires o.owner in l.assets
  {
    if !o.locks || o.owner in l.insurance then Some(l.assets[o.owner])
    else if lock then Lock(o.market, l.assets[o.owner], base, o.price, o.isAsk)
    else Unlock(o.market, l.assets[o.owner], base, o.price, o.isAsk)
  }

  /** None when an assertion on a balance fails. */
  function Apply(l: Ledger, e: Event): Option<Ledger>
    requires Allowed(l, e)
  {
    match e
    case Insert(o) =>
      (match SlotsAfter(l, o, o.remaining, true)
       case None => None
       case Some(slots) =>
         Some(l.(orders := l.orders + [Some(o)], assets := l.assets[o.owner := slots],
                 counts := l.counts[o.owner := l.counts[o.owner] + 1])))
    case Take(id, base) =>
      var o := l.orders[id].value;
      (match SlotsAfter(l, o, base, false)
       case None => None
       case Some(slots) =>
         Some(l.(orders := l.orders[id := Some(o.(remaining := o.remaining - base))],
                 assets := l.assets[o.owner := slots])))
    case Cancel(id) =>
      var o := l.orders[id].value;
      (match SlotsAfter(l, o, o.remaining, false)
       case None => None
       case Some(slots) =>
         Some(l.(orders := l.orders[id := None], assets := l.assets[o.owner := slots],
                 counts := l.counts[o.owner := l.counts[o.owner] - 1])))
  }

  // What should be locked

  /** An ask needs its remaining base in the market's base asset, a bid its price in the quote asset. */
  function Share(o: Option<Order>, owner: nat, asset: nat): nat {
    if o.None? || !o.value.locks || o.value.owner != owner then 0
    else
      var m := o.value.market;
      if o.value.isAsk then (if asset == m.baseAsset then o.value.remaining * m.sizeExtension else 0)
      else if asset == m.quoteAsset then o.value.remaining * (o.value.price * m.quoteExtension)
      else 0
  }

  /** The sum over an account's resting orders of remaining amount times multiplier. */
  function Due(orders: seq<Option<Order>>, owner: nat, asset: nat): nat {
    if orders == [] then 0
    else Due(orders[..|orders| - 1], owner, asset) + Share(orders[|orders| - 1], owner, asset)
  }

  function CountOf(orders: seq<Option<Order>>, owner: nat): nat {
    if orders == [] then 0
    else
      var last := orders[|orders| - 1];
      CountOf(orders[..|orders| - 1], owner) + (if last.Some? && last.value.owner == owner then 1 else 0)
  }

  function LockedOf(slots: seq<AssetSlot>, asset: nat): nat {
    var i := Find(slots, asset);
    if i < |slots| then slots[i].locked else 0
  }

  ghost predicate Balanced(l: Ledger) {
    && (forall owner, asset :: owner in l.assets && owner !in l.insurance ==>
          LockedOf(l.assets[owner], asset) == Due(l.orders, owner, asset))
    && (forall owner :: owner in l.counts ==> l.counts[owner] == CountOf(l.orders, owner))
    && (forall owner :: owner in l.assets ==> Narrow(l.assets[owner]))
  }

  /** Slots hold 96-bit balances. */
  predicate Narrow(slots: seq<AssetSlot>) {
    forall i :: 0 <= i < |slots| ==> slots[i].locked < U96
  }

  lemma {:induction false} DueUpdate(orders: seq<Option<Order>>, id: nat, o: Option<Order>, owner: nat, asset: nat)
    requires id < |orders|
    ensures Due(orders[id := o], owner, asset)
         == Due(orders, owner, asset) - Share(orders[id], owner, asset) + Share(o, owner, asset)
    ensures Share(orders[id], owner, asset) <= Due(orders, owner, asset)
  {
    var last := |orders| - 1;
    if id < last {
      assert orders[id := o][..last] == orders[..last][id := o];
      DueUpdate(orders[..last], id, o, owner, asset);
    } else {
      assert orders[id := o][..last] == orders[..last];
    }
  }

  lemma {:induction false} CountUpdate(orders: seq<Option<Order>>, id: nat, o: Option<Order>, owner: nat)
    requires id < |orders|
    ensures CountOf(orders[id := o], owner)
         == CountOf(orders, owner) - CountOf([orders[id]], owner) + CountOf([o], owner)
  {
    var last := |orders| - 1;
    if id < last {
      assert orders[id := o][..last] == orders[..last][id := o];
      CountUpdate(orders[..last], id, o, owner);
    } else {
      assert orders[id := o][..last] == orders[..last];
    }
  }

  /** A slot change moves one asset and no other. */
  lemma {:induction false} AdjustMovesOne(slots: seq<AssetSlot>, asset: nat, delta: int, other: nat)
    requires Adjusted(slots, asset, delta).Some?
    ensures LockedOf(Adjusted(slots, asset, delta).value, other)
         == LockedOf(slots, other) + if other == asset then delta else 0
    ensures Narrow(slots) ==> Narrow(Adjusted(slots, asset, delta).value)
  {
    var changed, i, j := Adjusted(slots, asset, delta).value, Find(slots, asset), Find(slots, other);
    FindIsFirst(changed, other, j);
  }

  lemma {:induction false} FindIsFirst(slots: seq<AssetSlot>, asset: nat, i: nat)
    requires i <= |slots| && (i < |slots| ==> slots[i].index == asset)
    requires forall j :: 0 <= j < i ==> slots[j].index != asset
    ensures Find(slots, asset) == i
  {
  }

  lemma {:induction false} AmountSplits(m: Multipliers, whole: nat, part: nat, price: nat, isAsk: bool)
    requires part <= whole
    ensures LockedAmount(m, whole, price, isAsk)
         == LockedAmount(m, part, price, isAsk) + LockedAmount(m, whole - part, price, isAsk)
  {
    var k := if isAsk then m.sizeExtension else price * m.quoteExtension;
    assert (part + (whole - part)) * k == part * k + (whole - part) * k;
  }

  /** What an event on one order moves for an account and asset. */
  function Moved(o: Order, delta: int, owner: nat, asset: nat): int {
    if o.locks && owner == o.owner && asset == LockedAsset(o.market, o.isAsk) then delta else 0
  }

  /** An account is balanced when its slots moved by what its orders' shares moved. */
  lemma {:induction false} StillBalanced(l: Ledger, next: Ledger, o: Order, delta: int)
    requires Balanced(l) && o.owner in l.assets && o.owner in l.counts
    requires next.insurance == l.insurance && next.assets.Keys == l.assets.Keys && next.counts.Keys == l.counts.Keys
    requires forall owner :: owner in l.assets && owner != o.owner ==> next.assets[owner] == l.assets[owner]
    requires if !o.locks || o.owner in l.insurance then next.assets[o.owner] == l.assets[o.owner]
             else Adjusted(l.assets[o.owner], LockedAsset(o.market, o.isAsk), delta) == Some(next.assets[o.owner])
    requires forall owner, asset ::
               Due(next.orders, owner, asset) == Due(l.orders, owner, asset) + Moved(o, delta, owner, asset)
    requires forall owner :: owner in l.counts ==> next.counts[owner] == CountOf(next.orders, owner)
    ensures Balanced(next)
  {
    forall owner, asset | owner in next.assets && owner !in next.insurance
      ensures LockedOf(next.assets[owner], asset) == Due(next.orders, owner, asset)
    {
      assert LockedOf(l.assets[owner], asset) == Due(l.orders, owner, asset);
      if o.locks && owner == o.owner {
        AdjustMovesOne(l.assets[owner], LockedAsset(o.market, o.isAsk), delta, asset);
      }
    }
    forall owner | owner in next.assets ensures Narrow(next.assets[owner]) {
      if o.locks && owner == o.owner && owner !in l.insurance {
        AdjustMovesOne(l.assets[owner], LockedAsset(o.market, o.isAsk), delta, 0);
      }
    }
  }

  lemma {:induction false} InsertKeepsBalance(l: Ledger, o: Order)
    requires Balanced(l) && Allowed(l, Insert(o)) && Apply(l, Insert(o)).Some?
    ensures Balanced(Apply(l, Insert(o)).value)
  {
    var next := Apply(l, Insert(o)).value;
    assert next.orders[..|l.orders|] == l.orders;
    StillBalanced(l, next, o, LockedAmount(o.market, o.remaining, o.price, o.isAsk));
  }

  lemma {:induction false} TakeKeepsBalance(l: Ledger, id: nat, base: nat)
    requires Balanced(l) && Allowed(l, Take(id, base)) && Apply(l, Take(id, base)).Some?
    ensures Balanced(Apply(l, Take(id, base)).value)
  {
    var o, next := l.orders[id].value, Apply(l, Take(id, base)).value;
    var after := Some(o.(remaining := o.remaining - base));
    AmountSplits(o.market, o.remaining, base, o.price, o.isAsk);
    var delta := 0 - LockedAmount(o.market, base, o.price, o.isAsk);
    forall owner, asset
      ensures Due(next.orders, owner, asset) == Due(l.orders, owner, asset) + Moved(o, delta, owner, asset)
    {
      DueUpdate(l.orders, id, after, owner, asset);
    }
    forall owner | owner in l.counts ensures next.counts[owner] == CountOf(next.orders, owner) {
      CountUpdate(l.orders, id, after, owner);
    }
    StillBalanced(l, next, o, delta);
  }

  lemma {:induction false} CancelKeepsBalance(l: Ledger, id: nat)
    requires Balanced(l) && Allowed(l, Cancel(id)) && Apply(l, Cancel(id)).Some?
    ensures Balanced(Apply(l, Cancel(id)).value)
  {
    var o, next := l.orders[id].value, Apply(l, Cancel(id)).value;
    var delta := 0 - LockedAmount(o.market, o.remaining, o.price, o.isAsk);
    forall owner, asset
      ensures Due(next.orders, owner, asset) == Due(l.orders, owner, asset) + Moved(o, delta, owner, asset)
    {
      DueUpdate(l.orders, id, None, owner, asset);
    }
    forall owner | owner in l.counts ensures next.counts[owner] == CountOf(next.orders, owner) {
      CountUpdate(l.orders, id, None, owner);
    }
    StillBalanced(l, next, o, delta);
  }

  /** Releasing at most what an order has locked cannot fail: its share is part of a 96-bit balance. */
  lemma {:induction false} ReleaseSucceeds(l: Ledger, id: nat, base: nat)
    requires Balanced(l) && Allowed(l, Take(id, base))
    requires var o := l.orders[id].value;
             o.locks ==> Find(l.assets[o.owner], LockedAsset(o.market, o.isAsk)) < |l.assets[o.owner]|
    ensures SlotsAfter(l, l.orders[id].value, base, false).Some?
  {
    var o := l.orders[id].value;
    var asset := LockedAsset(o.market, o.isAsk);
    AmountSplits(o.market, o.remaining, base, o.price, o.isAsk);
    DueUpdate(l.orders, id, None, o.owner, asset);
    if o.locks && o.owner !in l.insurance {
      assert LockedOf(l.assets[o.owner], asset) == Due(l.orders, o.owner, asset);
    }
  }

  /** Every locking order's asset has a slot. */
  ghost predicate Slotted(l: Ledger) {
    forall id :: 0 <= id < |l.orders| && l.orders[id].Some? ==>
      var o := l.orders[id].value;
      && o.owner in l.assets && o.owner in l.counts
      && (o.locks && o.owner !in l.insurance ==> HasSlot(l.assets[o.owner], LockedAsset(o.market, o.isAsk)))
  }

  predicate HasSlot(slots: seq<AssetSlot>, asset: nat) {
    Find(slots, asset) < |slots|
  }

  lemma {:induction false} AdjustKeepsSlots(slots: seq<AssetSlot>, asset: nat, delta: int, other: nat)
    requires Adjusted(slots, asset, delta).Some?
    ensures HasSlot(slots, asset)
    ensures HasSlot(Adjusted(slots, asset, delta).value, other) <==> HasSlot(slots, other)
  {
    FindIsFirst(Adjusted(slots, asset, delta).value, other, Find(slots, other));
  }

  lemma {:induction false} ApplyKeepsSlots(l: Ledger, e: Event)
    requires Slotted(l) && Allowed(l, e) && Apply(l, e).Some?
    ensures Slotted(Apply(l, e).value)
  {
    var next := Apply(l, e).value;
    var o := if e.Insert? then e.order else l.orders[e.id].value;
    forall asset ensures o.locks && o.owner !in l.insurance ==>
      && (HasSlot(next.assets[o.owner], asset) <==> HasSlot(l.assets[o.owner], asset))
      && HasSlot(l.assets[o.owner], LockedAsset(o.market, o.isAsk))
    {
      if o.locks && o.owner !in l.insurance {
        var amount: int := LockedAmount(o.market, if e.Take? then e.base else o.remaining, o.price, o.isAsk);
        var delta := if e.Insert? then amount else -amount;
        AdjustKeepsSlots(l.assets[o.owner], LockedAsset(o.market, o.isAsk), delta, asset);
      }
    }
  }

  /** Locking succeeds exactly with a slot of the side's own asset and room below 2^96 in it, releasing exactly
      with a slot that has as much locked. */
  lemma {:induction false} LockSucceedsIff(m: Multipliers, slots: seq<AssetSlot>, base: nat, price: nat, isAsk: bool)
    requires Narrow(slots)
    ensures var own := if isAsk then m.baseAsset else m.quoteAsset;
            var amount := base * if isAsk then m.sizeExtension else price * m.quoteExtension;
            var some := exists i :: 0 <= i < |slots| && slots[i].index == own;
            var room := LockedOf(slots, own) + amount < 0x1_0000_0000_0000_0000_0000_0000;
            && (Lock(m, slots, base, price, isAsk).Some? <==> some && room)
            && (Unlock(m, slots, base, price, isAsk).Some? <==> some && amount <= LockedOf(slots, own))
  {
  }

  /** What an event locks (or, when negative, releases) for an order: all of it, or the base taken. */
  function Locked(l: Ledger, e: Event): int
    requires Allowed(l, e)
  {
    match e
    case Insert(o) => o.remaining
    case Take(id, base) => 0 - base
    case Cancel(id) => 0 - l.orders[id].value.remaining
  }

  /** An event of an ask moves its owner's slot of the base asset and no other, one of a bid that of the quote
      asset, by the base it locks or releases times the side's multiplier. */
  lemma {:induction false} EventMovesOwnAsset(l: Ledger, e: Event, asset: nat)
    requires Allowed(l, e) && Apply(l, e).Some?
    requires var o := if e.Insert? then e.order else l.orders[e.id].value;
             o.locks && o.owner !in l.insurance
    ensures var o := if e.Insert? then e.order else l.orders[e.id].value;
            var m, next := o.market, Apply(l, e).value;
            var own, unit := if o.isAsk then m.baseAsset else m.quoteAsset,
                             if o.isAsk then m.sizeExtension else o.price * m.quoteExtension;
            LockedOf(next.assets[o.owner], asset)
              == LockedOf(l.assets[o.owner], asset) + if asset == own then Locked(l, e) * unit else 0
  {
    var o := if e.Insert? then e.order else l.orders[e.id].value;
    var unit := if o.isAsk then o.market.sizeExtension else o.price * o.market.quoteExtension;
    var base := if e.Take? then e.base else o.remaining;
    assert (0 - base) * unit == 0 - base * unit;
    AdjustMovesOne(l.assets[o.owner], LockedAsset(o.market, o.isAsk), Locked(l, e) * unit, asset);
  }

  predicate RunOk(l: Ledger, events: seq<Event>)
    decreases |events|
  {
    events == []
    || (Allowed(l, events[0]) && Apply(l, events[0]).Some? && RunOk(Apply(l, events[0]).value, events[1..]))
  }

  function Run(l: Ledger, events: seq<Event>): Ledger
    requires RunOk(l, events)
    decreases |events|
  {
    if events == [] then l else Run(Apply(l, events[0]).value, events[1..])
  }

  lemma {:induction false} ApplyKeepsBalance(l: Ledger, e: Event)
    requires Balanced(l) && Allowed(l, e) && Apply(l, e).Some?
    ensures Balanced(Apply(l, e).value)
  {
    match e
    case Insert(o) => InsertKeepsBalance(l, o);
    case Take(id, base) => TakeKeepsBalance(l, id, base);
    case Cancel(id) => CancelKeepsBalance(l, id);
  }

  /** After any run every account but the insurance fund has locked exactly what its resting orders need, per
      asset; order counts are the numbers of resting orders; and no later fill or cancel can underflow. */
  lemma {:induction false} RunKeepsBalance(l: Ledger, events: seq<Event>)
    requires Balanced(l) && Slotted(l) && RunOk(l, events)
    ensures var end := Run(l, events);
            && Balanced(end) && Slotted(end)
            && (forall id: nat, base: nat :: Allowed(end, Take(id, base)) ==> Apply(end, Take(id, base)).Some?)
            && (forall id: nat :: Allowed(end, Cancel(id)) ==> Apply(end, Cancel(id)).Some?)
    decreases |events|
  {
    if events != [] {
      ApplyKeepsBalance(l, events[0]);
      ApplyKeepsSlots(l, events[0]);
      RunKeepsBalance(Apply(l, events[0]).value, events[1..]);
    } else {
      forall id: nat, base: nat | Allowed(l, Take(id, base)) ensures Apply(l, Take(id, base)).Some? {
        NoUnderflow(l, id, base);
      }
      forall id: nat | Allowed(l, Cancel(id)) ensures Apply(l, Cancel(id)).Some? {
        NoUnderflow(l, id, l.orders[id].value.remaining);
      }
    }
  }

  lemma {:induction false} NoUnderflow(l: Ledger, id: nat, base: nat)
    requires Balanced(l) && Slotted(l) && Allowed(l, Take(id, base))
    ensures SlotsAfter(l, l.orders[id].value, base, false).Some?
  {
    if l.orders[id].value.owner !in l.insurance {
      ReleaseSucceeds(l, id, base);
    }
  }
}
