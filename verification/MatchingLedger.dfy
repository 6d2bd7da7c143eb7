/** Engine steps over the whole ledger: every accepted step is a short run of ledger events, so locked balances
    and order counts stay right over any run of steps mixed with other transactions' inserts and cancels.
 */
module MatchingLedger {
  import opened Options
  import opened Numbers
  import opened BookTree
  import Locks = LockedBalance
  import opened LockedLedger
  import opened Matching
  import opened MatchingProgress
  import opened MatchingLocks

  /** An account's order as the ledger holds it. */
  function Entry(m: Market, o: AccountOrder, inBook: bool): Order {
    Order(o.owner, m.multipliers, o.isAsk, o.price, o.remaining,
          inBook && m.marketType == MARKET_TYPE_SPOT && o.orderType == LIMIT_ORDER)
  }

  predicate ShowsAccount(l: Ledger, a: Account) {
    && a.index in l.assets && a.index in l.counts
    && l.assets[a.index] == a.assets && l.counts[a.index] == a.orders
    && (a.isInsuranceFund <==> a.index in l.insurance)
  }

  /** A step sees two accounts and, on a leaf it may meet, one order of either of them. */
  predicate Shows(l: Ledger, s: Valid, id: nat) {
    && s.taker.index == Pending(s).account && ShowsAccount(l, s.taker) && ShowsAccount(l, s.maker)
    && (Meets(s) ==> && id < |l.orders| && l.orders[id] == Some(Entry(s.market, s.order, true))
                     && (s.order.owner == s.taker.index || s.order.owner == s.maker.index))
  }

  /** The ledger with what a step writes back: both accounts, the order it met and the one it inserted. */
  function Written(l: Ledger, s: Valid, r: Engine, id: nat): Ledger
    requires Shows(l, s, id)
  {
    var met := if r.f.cancelMaker then None else Some(Entry(s.market, r.s.order, true));
    var kept := if Meets(s) then l.orders[id := met] else l.orders;
    var inBook := Pending(s).triggerStatus == TRIGGER_STATUS_NA;
    Ledger(if r.f.insert then kept + [Some(Entry(s.market, r.s.order, inBook))] else kept,
           l.assets[s.maker.index := r.s.maker.assets][s.taker.index := r.s.taker.assets],
           l.counts[s.maker.index := r.s.maker.orders][s.taker.index := r.s.taker.orders],
           l.insurance)
  }

  /** The events of a step: what it takes off the order it meets, that order's removal, the taker's insertion. */
  function EventsOf(s: Valid, m: Engine, id: nat): seq<Event> {
    (if m.s.order.remaining < s.order.remaining then [Take(id, s.order.remaining - m.s.order.remaining)] else [])
    + (if m.f.cancelMaker then [Cancel(id)] else [])
    + (if m.f.insert
       then [Insert(Entry(s.market, OrderFromRegister(Pending(s)), Pending(s).triggerStatus == TRIGGER_STATUS_NA))]
       else [])
  }

  function Events(e: Env, s: Valid, id: nat): seq<Event> {
    EventsOf(s, Middle(e, s), id)
  }

  /** The resting order and its owner's slots, as the ledger holds them. */
  predicate ShowsOrder(l: Ledger, s: Valid, id: nat) {
    var owner := s.order.owner;
    && id < |l.orders| && l.orders[id] == Some(Entry(s.market, s.order, true))
    && owner in l.assets && owner in l.counts && l.assets[owner] == OwnerOf(s).assets
    && (OwnerOf(s).isInsuranceFund <==> owner in l.insurance)
  }

  lemma {:induction false} OrderIsShown(l: Ledger, s: Valid, id: nat)
    requires Shows(l, s, id) && Meets(s)
    ensures ShowsOrder(l, s, id) && l.counts[s.order.owner] == OwnerOf(s).orders
  {
  }

  /** Ledger and engine release the same. */
  lemma {:induction false} SlotsAreUnlocked(l: Ledger, s: Valid, id: nat, base: nat)
    requires ShowsOrder(l, s, id)
    ensures SlotsAfter(l, l.orders[id].value, base, false) == Unlocked(s, OwnerOf(s), base)
  {
  }

  lemma {:induction false} ReleasedNothing(s: Valid, a: Account, assets: seq<Locks.AssetSlot>)
    requires Released(s, a, 0, assets)
    ensures assets == a.assets
  {
    if LocksBalance(s, a, s.order.orderType) && Unlocked(s, a, 0) == Some(assets) {
      var i := Locks.Find(a.assets, LockAsset(s));
      assert Needed(s, 0) == 0;
      assert assets == a.assets[i := a.assets[i]];
    }
  }

  lemma {:induction false} TakeIsEvent(l: Ledger, s: Valid, t: Valid, id: nat)
    requires ShowsOrder(l, s, id) && TakesSome(s, t) && t.order.remaining < s.order.remaining
    ensures var take := Take(id, s.order.remaining - t.order.remaining);
            && Allowed(l, take)
            && Apply(l, take) == Some(l.(orders := l.orders[id := Some(Entry(s.market, t.order, true))],
                                         assets := l.assets[s.order.owner := OwnerOf(t).assets]))
            && ShowsOrder(Apply(l, take).value, t, id)
  {
    SlotsAreUnlocked(l, s, id, s.order.remaining - t.order.remaining);
  }

  lemma {:induction false} CancelIsEvent(l: Ledger, s: Valid, id: nat, assets: seq<Locks.AssetSlot>)
    requires ShowsOrder(l, s, id) && Unlocked(s, OwnerOf(s), s.order.remaining) == Some(assets)
    ensures Allowed(l, Cancel(id))
    ensures Apply(l, Cancel(id))
         == Some(l.(orders := l.orders[id := None], assets := l.assets[s.order.owner := assets],
                    counts := l.counts[s.order.owner := l.counts[s.order.owner] - 1]))
  {
    SlotsAreUnlocked(l, s, id, s.order.remaining);
  }

  /** The ledger after an amount was taken off the order that was met. */
  function TakenLedger(l: Ledger, s: Valid, t: Valid, id: nat): Ledger
    requires ShowsOrder(l, s, id)
  {
    l.(orders := l.orders[id := Some(Entry(s.market, t.order, true))],
       assets := l.assets[s.order.owner := OwnerOf(t).assets])
  }

  lemma {:induction false} TakenIsRun(l: Ledger, s: Valid, t: Valid, id: nat, rest: seq<Event>)
    requires ShowsOrder(l, s, id) && TakesSome(s, t)
    requires RunOk(TakenLedger(l, s, t, id), rest)
    ensures var taken := s.order.remaining - t.order.remaining;
            var events := (if taken > 0 then [Take(id, taken)] else []) + rest;
            RunOk(l, events) && Run(l, events) == Run(TakenLedger(l, s, t, id), rest)
    ensures ShowsOrder(TakenLedger(l, s, t, id), t, id)
  {
    var taken := s.order.remaining - t.order.remaining;
    if taken > 0 {
      TakeIsEvent(l, s, t, id);
      assert ([Take(id, taken)] + rest)[1..] == rest;
    } else {
      ReleasedNothing(s, OwnerOf(s), OwnerOf(t).assets);
      assert TakenLedger(l, s, t, id) == l;
      assert [] + rest == rest;
    }
  }

  /** What a conclusion leaves of the accounts' order counts. */
  predicate Counts(s: Valid, f: Flags, t: Valid) {
    var added, removed := if f.insert then 1 else 0, if f.cancelMaker then 1 else 0;
    && t.taker.orders == s.taker.orders + added - (if SameAccount(s) then removed else 0)
    && t.maker.orders == s.maker.orders - (if SameAccount(s) then 0 else removed)
  }

  lemma {:induction false} InsertIsEvent(l: Ledger, s: Valid, f: Flags, t: Valid, id: nat)
    requires Shows(l, s, id) && f.insert && !f.cancelMaker && Concludes(s, f, t) && Counts(s, f, t)
    ensures var r, inBook := Pending(s), Pending(s).triggerStatus == TRIGGER_STATUS_NA;
            var insert := Insert(Entry(s.market, OrderFromRegister(r), inBook));
            && Allowed(l, insert)
            && Apply(l, insert) == Some(Ledger(l.orders + [Some(Entry(s.market, t.order, inBook))],
                                               l.assets[s.taker.index := t.taker.assets],
                                               l.counts[s.taker.index := t.taker.orders], l.insurance))
  {
  }

  /** Steps that meet no order. */
  lemma {:induction false} QuietIsRun(l: Ledger, s: Valid, f: Flags, t: Valid, id: nat, events: seq<Event>)
    requires Shows(l, s, id) && !f.cancelMaker && Concludes(s, f, t) && Counts(s, f, t) && !Meets(s)
    requires var r := Pending(s);
             events == if f.insert
                       then [Insert(Entry(s.market, OrderFromRegister(r), r.triggerStatus == TRIGGER_STATUS_NA))]
                       else []
    ensures RunOk(l, events) && Run(l, events) == Written(l, s, Engine(t, f), id)
  {
    var written := Written(l, s, Engine(t, f), id);
    assert written.assets == l.assets[s.taker.index := t.taker.assets];
    assert written.counts == l.counts[s.taker.index := t.taker.orders];
    if f.insert {
      InsertIsEvent(l, s, f, t, id);
      OneEvent(l, events[0]);
    } else {
      assert l.assets[s.taker.index := t.taker.assets] == l.assets;
      assert l.counts[s.taker.index := t.taker.orders] == l.counts;
    }
  }

  lemma {:induction false} OneEvent(l: Ledger, e: Event)
    requires Allowed(l, e) && Apply(l, e).Some?
    ensures RunOk(l, [e]) && Run(l, [e]) == Apply(l, e).value
  {
    var next := Apply(l, e).value;
    assert [e][1..] == [] && RunOk(next, []) && Run(next, []) == next;
  }

  /** The parts of both accounts that a step may write, where it met the order `id`. */
  lemma {:induction false} WrittenAtOwner(l: Ledger, s: Valid, f: Flags, t: Valid, id: nat)
    requires Shows(l, s, id) && Meets(s) && !f.insert && Counts(s, f, t)
    requires if SameAccount(s) then t.maker.assets == s.maker.assets else t.taker.assets == s.taker.assets
    ensures var written, owner := Written(l, s, Engine(t, f), id), s.order.owner;
            && written.assets == l.assets[owner := if SameAccount(s) then t.taker.assets else t.maker.assets]
            && written.counts == l.counts[owner := l.counts[owner] - (if f.cancelMaker then 1 else 0)]
  {
  }

  /** The order is removed: what was left of it is released as well. */
  lemma {:induction false} RemovalIsRun(l: Ledger, s: Valid, m: Valid, id: nat, assets: seq<Locks.AssetSlot>)
    requires ShowsOrder(l, s, id) && TakesSome(s, m) && Unlocked(m, OwnerOf(m), m.order.remaining) == Some(assets)
    ensures var middle := TakenLedger(l, s, m, id);
            && RunOk(middle, [Cancel(id)])
            && Run(middle, [Cancel(id)])
                 == l.(orders := l.orders[id := None], assets := l.assets[s.order.owner := assets],
                       counts := l.counts[s.order.owner := l.counts[s.order.owner] - 1])
  {
    var middle := TakenLedger(l, s, m, id);
    TakenIsRun(l, s, m, id, []);
    CancelIsEvent(middle, m, id, assets);
    OneEvent(middle, Cancel(id));
  }

  /** Steps that meet an order: an amount is taken, and the order is removed if nothing is to stay of it. */
  lemma {:induction false} MeetingIsRun(l: Ledger, s: Valid, m: Valid, f: Flags, t: Valid, id: nat, events: seq<Event>)
    requires Shows(l, s, id) && Meets(s) && TakesSome(s, m) && !f.insert && Concludes(m, f, t) && Counts(s, f, t)
    requires var taken := s.order.remaining - m.order.remaining;
             events == (if taken > 0 then [Take(id, taken)] else []) + (if f.cancelMaker then [Cancel(id)] else [])
    ensures RunOk(l, events) && Run(l, events) == Written(l, s, Engine(t, f), id)
  {
    OrderIsShown(l, s, id);
    WrittenAtOwner(l, s, f, t, id);
    if f.cancelMaker {
      RemovalIsRun(l, s, m, id, if SameAccount(s) then t.taker.assets else t.maker.assets);
      TakenIsRun(l, s, m, id, [Cancel(id)]);
    } else {
      TakenIsRun(l, s, m, id, []);
      assert l.counts[s.order.owner := l.counts[s.order.owner]] == l.counts;
    }
  }

  /** An accepted step as an amount taken and a conclusion. */
  predicate StepMeans(s: Valid, m: Engine, r: Engine) {
    && TakesSome(s, m.s) && Concludes(m.s, m.f, r.s) && Counts(s, m.f, r.s)
    && r.f == m.f.(ok := r.f.ok)
    && (m.f.insert ==> !Meets(s)) && (!Meets(s) ==> m.s == s && !m.f.cancelMaker)
  }

  lemma {:induction false} StepHasMeaning(e: Env, s: Valid)
    requires ExecuteMatching(e, s).Some? && s.taker.index == Pending(s).account
    ensures StepMeans(s, Middle(e, s), ExecuteMatching(e, s).value)
  {
    EndingKeepsFlags(e, s);
    MiddleTakes(e, s);
    InsertingIsQuiet(e, s);
    CountsFollowDecisions(e, s);
    var m := Middle(e, s);
    ConclusionConcludes(m.s, m.f);
  }

  lemma {:induction false} MeaningIsRun(l: Ledger, s: Valid, m: Engine, r: Engine, id: nat)
    requires Shows(l, s, id) && StepMeans(s, m, r)
    ensures RunOk(l, EventsOf(s, m, id)) && Run(l, EventsOf(s, m, id)) == Written(l, s, r, id)
  {
    assert Written(l, s, Engine(r.s, m.f), id) == Written(l, s, r, id);
    if Meets(s) {
      MeetingIsRun(l, s, m.s, m.f, r.s, id, EventsOf(s, m, id));
    } else {
      QuietIsRun(l, s, m.f, r.s, id, EventsOf(s, m, id));
    }
  }

  /** Every accepted step, in any market, is a run of ledger events: of the right owner, asset and amounts, since
      it ends in the ledger the step writes back. */
  lemma {:induction false} StepIsEvents(l: Ledger, e: Env, s: Valid, id: nat)
    requires Shows(l, s, id) && ExecuteMatching(e, s).Some?
    ensures RunOk(l, Events(e, s, id))
    ensures Run(l, Events(e, s, id)) == Written(l, s, ExecuteMatching(e, s).value, id)
  {
    StepHasMeaning(e, s);
    MeaningIsRun(l, s, Middle(e, s), ExecuteMatching(e, s).value, id);
  }

  // Runs of steps and other transactions

  datatype Move = Step(e: Env, s: Valid, id: nat) | Other(event: Event)

  predicate Possible(l: Ledger, m: Move) {
    match m
    case Step(e, s, id) => Shows(l, s, id) && ExecuteMatching(e, s).Some?
    case Other(event) => Allowed(l, event) && Apply(l, event).Some?
  }

  function Moved(l: Ledger, m: Move): Ledger
    requires Possible(l, m)
  {
    match m
    case Step(e, s, id) => Written(l, s, ExecuteMatching(e, s).value, id)
    case Other(event) => Apply(l, event).value
  }

  predicate AllPossible(l: Ledger, moves: seq<Move>)
    decreases |moves|
  {
    moves == [] || (Possible(l, moves[0]) && AllPossible(Moved(l, moves[0]), moves[1..]))
  }

  function AllMoved(l: Ledger, moves: seq<Move>): Ledger
    requires AllPossible(l, moves)
    decreases |moves|
  {
    if moves == [] then l else AllMoved(Moved(l, moves[0]), moves[1..])
  }

  lemma {:induction false} MoveKeepsBalance(l: Ledger, m: Move)
    requires Balanced(l) && Slotted(l) && Possible(l, m)
    ensures Balanced(Moved(l, m)) && Slotted(Moved(l, m))
  {
    match m
    case Step(e, s, id) =>
      StepIsEvents(l, e, s, id);
      RunKeepsBalance(l, Events(e, s, id));
    case Other(event) =>
      ApplyKeepsBalance(l, event);
      ApplyKeepsSlots(l, event);
  }

  /** Over any run of engine steps, in any markets and mixed with other inserts, fills and cancels, every account
      but the insurance fund has locked exactly what its resting spot limit orders need, per asset, and order
      counts are the numbers of resting orders. */
  lemma {:induction false} RunsKeepBalance(l: Ledger, moves: seq<Move>)
    requires Balanced(l) && Slotted(l) && AllPossible(l, moves)
    ensures Balanced(AllMoved(l, moves)) && Slotted(AllMoved(l, moves))
    decreases |moves|
  {
    if moves != [] {
      MoveKeepsBalance(l, moves[0]);
      RunsKeepBalance(Moved(l, moves[0]), moves[1..]);
    }
  }

  /** So after any run the engine's releases cannot fail: no fill or removal it decides underflows a balance. */
  lemma {:induction false} ReleaseNeverFails(l: Ledger, moves: seq<Move>, s: Valid, id: nat, base: nat)
    requires Balanced(l) && Slotted(l) && AllPossible(l, moves)
    requires Shows(AllMoved(l, moves), s, id) && Meets(s) && base <= s.order.remaining
    ensures Unlocked(s, OwnerOf(s), base).Some?
  {
    var end := AllMoved(l, moves);
    RunsKeepBalance(l, moves);
    OrderIsShown(end, s, id);
    NoUnderflow(end, id, base);
    SlotsAreUnlocked(end, s, id, base);
  }
}
