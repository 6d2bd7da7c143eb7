/** The light engine: the cheap form for steps in which no trade happens. */
module MatchingLight {
  import opened Options
  import opened Numbers
  import opened BookTree
  import Locks = LockedBalance
  import opened Matching
  import opened MatchingProgress

  /** Nothing after the opening changes a state or flags that are already decided. */
  lemma {:induction false} DecidedEarly(e: Env, s: Valid)
    requires WithinCap(s) && !Opening(e, s).on
    ensures var c := Conclude(s, Opening(e, s));
            ExecuteMatching(e, s) == if c.f.ok then Some(c) else None
  {
    var f := Opening(e, s);
    SelfTradesOff(e, s, f);
    assert Decided(e, s) == Engine(s, f);
    ChecksOff(e, s, f);
    assert ApplyTrade(e, s, f) == Engine(s, f);
  }

  lemma {:induction false} SelfTradesOff(e: Env, s: Valid, f: Flags)
    requires !f.on
    ensures SelfTrades(e, s, f) == Engine(s, f) && BeforeTrade(e, s, f) == f
  {
  }

  lemma {:induction false} ChecksOff(e: Env, s: Valid, f: Flags)
    requires !f.on && WithinCap(s)
    ensures Checked(e, Engine(s, f)) == f
  {
  }

  /** Removing nothing, and inserting or popping. */
  lemma {:induction false} ConcludeWithoutMaker(s: Valid, f: Flags)
    requires !f.cancelMaker
    ensures var r := Pending(s);
            var popped := if f.cancelTaker || f.insert then Pop(s) else s;
            var told := if f.cancelTaker
                        then popped.(instructions := Children(popped.instructions, r.account, r.marketIndex, r.child0,
                                                              r.child1, r.initialSize - r.size, 5))
                        else popped;
            var inserted := InsertTaker(told, r);
            Conclude(s, f)
              == if f.insert
                 then Engine(inserted.s, f.(ok := f.ok && s.count != 0 && inserted.f.ok))
                 else Engine(told, f.(ok := f.ok && (f.cancelTaker ==> s.count != 0)))
  {
  }

  /** The light engine's own decision; None when it rejects the state. */
  method Decide(e: Env, s: Valid) returns (decision: Option<Flags>)
    ensures decision.Some? ==> decision.value == Opening(e, s) && decision.value.ok && !decision.value.on
    ensures decision.Some? ==> !decision.value.cancelMaker && (s.enabled ==> TakerDone(decision.value))
  {
    var r := Pending(s);
    var isIoc := r.timeInForce == IOC;
    var on, cancelTaker, insert := s.enabled, false, false;
    if on && (r.orderType != LIMIT_ORDER || r.triggerStatus != TRIGGER_STATUS_NA) { return None; }

    // 0. Reduce-only orders in the wrong direction
    var flag := on && IsPerps(s) && r.reduceOnly && InvalidReduceDirection(s.taker.position.size, r.isAsk);
    cancelTaker, on := cancelTaker || flag, on && !flag;

    // An empty leaf belongs to the taker
    var empty := s.leaf.sums == NO_SUMS;
    if on && empty && !LeafBelongsToTaker(s) { return None; }

    // A frozen book never matches
    var frozen := on && IsOptions(s) && s.market.isFrozen;
    if frozen && !empty { return None; }
    cancelTaker, insert := cancelTaker || (frozen && isIoc), insert || (frozen && !isIoc);
    on := on && !frozen;

    // Nothing on the other side
    flag := on && isIoc && OppositeEmpty(s);
    cancelTaker, on := cancelTaker || flag, on && !flag;

    var better := GetQuote(r.isAsk, s.leaf.sums, s.path, s.helpers);
    if on && better.base != 0 { return None; }

    // Nothing that crosses
    flag := on && isIoc && empty;
    cancelTaker, on := cancelTaker || flag, on && !flag;
    flag := on && empty;
    insert, on := insert || flag, on && !flag;

    // No trade must have happened
    if on { return None; }
    return Some(Flags(true, false, cancelTaker, false, insert));
  }

  /** `execute_matching_light`: it rejects states in which the orders would have to meet. Whatever it accepts,
      the full engine accepts under the notional cap, with the same resulting state. */
  method ExecuteMatchingLight(e: Env, s: Valid) returns (result: Option<Engine>)
    requires WithinCap(s)
    ensures result.Some? ==> ExecuteMatching(e, s) == result
    ensures result.Some? ==> !result.value.f.on && !result.value.f.cancelMaker
    ensures result.Some? && s.enabled ==> TakerDone(result.value.f)
  {
    var r := Pending(s);
    var decision := Decide(e, s);
    if decision == None { return None; }
    var f := decision.value;
    DecidedEarly(e, s);
    ConcludeWithoutMaker(s, f);

    var next := s;
    if f.cancelTaker || f.insert {
      if s.count == 0 { return None; }
      next := Pop(s);
    }
    if f.cancelTaker {
      var filled := r.initialSize - r.size;
      next := next.(instructions := Children(next.instructions, r.account, r.marketIndex, r.child0, r.child1,
                                             filled, 5));
    }
    if f.insert {
      var inserted := InsertTaker(next, r);
      if !inserted.f.ok { return None; }
      next := inserted.s;
    }
    return Some(Engine(next, f));
  }
}
