/** Whole runs of matching steps of one taker: how long they last, and what they cost. */
module MatchingRuns {
  import opened Numbers
  import opened SparseTree
  import opened MerkleOpenings
  import opened BookTree
  import opened Matching
  import opened MatchingProgress

  /** One step: the state it starts from, and the book with the leaf it is presented with. */
  datatype Turn = Turn(e: Env, s: Valid, book: Book, k: Path)

  predicate Presented(t: Turn) {
    && Depth(t.k) == t.book.depth
    && t.s.path == PathOf(t.book, t.k) && t.s.helpers == Bits(t.k)
    && t.s.leaf.sums == OrderAt(t.book, t.k)
  }

  predicate Accepted(t: Turn) {
    Presented(t) && ExecuteMatching(t.e, t.s).Some?
  }

  function Result(t: Turn): Engine
    requires Accepted(t)
  {
    ExecuteMatching(t.e, t.s).value
  }

  function BookAfter(t: Turn): Book
    requires Accepted(t)
  {
    Replaced(t.book, t.k, Result(t).s.leaf.sums)
  }

  /** The same taker goes on with the book that the step left. */
  predicate GoesOn(t: Turn, u: Turn) {
    && Accepted(t) && Accepted(u)
    && !TakerDone(Result(t).f)
    && u.book == BookAfter(t)
    && Pending(u.s) == Pending(Result(t).s)
  }

  predicate Linked(turns: seq<Turn>, i: nat)
    requires i + 1 < |turns|
  {
    GoesOn(turns[i], turns[i + 1])
  }

  predicate AcceptedAt(turns: seq<Turn>, i: nat)
    requires i < |turns|
  {
    Accepted(turns[i])
  }

  predicate Run(turns: seq<Turn>) {
    && turns != []
    && (forall i: nat :: i < |turns| ==> AcceptedAt(turns, i))
    && (forall i: nat :: i + 1 < |turns| ==> Linked(turns, i))
  }

  // How long a run lasts

  /** All resting orders. */
  function Resting(book: Book): set<Path> {
    set k | k in book.orders && book.orders[k] != NO_SUMS
  }

  lemma {:induction false} OpeningMeetsOrders(e: Env, s: Valid)
    ensures !Opening(e, s).cancelMaker && (Opening(e, s).on ==> s.leaf.sums != NO_SUMS)
  {
  }

  /** What a stage before the conclusion may do: shrink both orders; the leaf is emptied only with a decision. */
  predicate Shrinks(s: Valid, t: Engine) {
    && Pending(t.s).size <= Pending(s).size
    && (t.s.leaf == s.leaf || t.f.cancelMaker || t.s.leaf.sums != NO_SUMS)
  }

  lemma {:induction false} ReduceShrinks(s: Valid, f: Flags, flag: bool)
    ensures Shrinks(s, SelfTradeReduce(s, f, flag))
    ensures f.cancelMaker ==> SelfTradeReduce(s, f, flag).f.cancelMaker
  {
  }

  lemma {:induction false} CancelsOnlyAdd(e: Env, s: Valid, f: Flags)
    ensures f.cancelMaker ==> SelfTradeCancels(e, s, f).cancelMaker
  {
  }

  lemma {:induction false} BeforeTradeOnlyAdds(e: Env, s: Valid, f: Flags)
    ensures f.cancelMaker ==> BeforeTrade(e, s, f).cancelMaker
  {
  }

  lemma {:induction false} ChecksOnlyAdd(e: Env, d: Engine)
    ensures d.f.cancelMaker ==> Checked(e, d).cancelMaker
  {
  }

  lemma {:induction false} SelfTradesShrink(e: Env, s: Valid, f: Flags)
    ensures Shrinks(s, SelfTrades(e, s, f))
  {
    var withFees := f.on && SameAccount(s) && e.integratorFees;
    var first := ReduceWithFees(e, s, f);
    ReduceShrinks(s, CancelMakerIf(f, withFees && Expired(e, s)), withFees);
    CancelsOnlyAdd(e, first.s, first.f);
    ReduceShrinks(first.s, SelfTradeCancels(e, first.s, first.f),
                  !e.byMaster && SameAccount(first.s) && e.behavior == REDUCE);
  }

  lemma {:induction false} TradeShrinks(e: Env, s: Valid, f: Flags)
    ensures Shrinks(s, ApplyTrade(e, s, f))
    ensures f.cancelMaker ==> ApplyTrade(e, s, f).f.cancelMaker
    ensures f.on ==> Pending(ApplyTrade(e, s, f).s).size == Pending(s).size - TradeAmount(s)
  {
  }

  lemma {:induction false} MiddleShrinks(e: Env, s: Valid)
    ensures Shrinks(s, Middle(e, s))
    ensures Checked(e, Decided(e, s)).on ==> Pending(Middle(e, s).s).size == Pending(s).size - TradeAmount(s)
  {
    var d, t := Decided(e, s), SelfTrades(e, s, Opening(e, s));
    SelfTradesShrink(e, s, Opening(e, s));
    BeforeTradeOnlyAdds(e, t.s, t.f);
    ChecksOnlyAdd(e, d);
    ChecksTakeNothing(e, d);
    UndecidedIsUntouched(e, s);
    TradeShrinks(e, d.s, Checked(e, d));
  }

  /** Without an order to meet nothing happens before the conclusion, and no order is removed. */
  lemma {:induction false} MeetingNothing(e: Env, s: Valid)
    requires s.leaf.sums == NO_SUMS
    ensures Middle(e, s).s == s && !Middle(e, s).f.cancelMaker
  {
    var f, d := Opening(e, s), Decided(e, s);
    OpeningMeetsOrders(e, s);
    OffStaysOff(e, s, f);
    ChecksTakeNothing(e, d);
  }

  /** What a step leaves of the leaf and of the pending order when the taker is not finished. */
  lemma {:induction false} StepShrinks(e: Env, s: Valid)
    requires ExecuteMatching(e, s).Some? && !TakerDone(ExecuteMatching(e, s).value.f)
    ensures var r := ExecuteMatching(e, s).value;
            && r.s.leaf.sums == (if r.f.cancelMaker then NO_SUMS else Middle(e, s).s.leaf.sums)
            && (r.f.cancelMaker ==> s.leaf.sums != NO_SUMS)
            && (!r.f.cancelMaker ==> (r.s.leaf.sums == NO_SUMS <==> s.leaf.sums == NO_SUMS))
            && Pending(r.s) == Pending(Middle(e, s).s)
            && Pending(r.s).size <= Pending(s).size
  {
    MiddleShrinks(e, s);
    PendingStays(e, s);
    EndingKeepsFlags(e, s);
    var m := Middle(e, s);
    ConcludeTakesEffect(m.s, m.f);
    if s.leaf.sums == NO_SUMS {
      MeetingNothing(e, s);
    }
  }

  lemma {:induction false} PendingStays(e: Env, s: Valid)
    requires ExecuteMatching(e, s).Some? && !TakerDone(ExecuteMatching(e, s).value.f)
    ensures var t := Middle(e, s);
            && Pending(ExecuteMatching(e, s).value.s) == Pending(t.s)
            && Pending(t.s).isAsk == Pending(s).isAsk
  {
    var d := Decided(e, s);
    var t := ApplyTrade(e, d.s, Checked(e, d));
    SelfTradesKeepQueue(e, s, Opening(e, s));
    TradeKeepsQueue(e, d.s, Checked(e, d));
    ConcludeTakesEffect(t.s, t.f);
    EndingKeepsFlags(e, s);
  }

  /** A stalled fill is not empty. */
  lemma {:induction false} StallFills(e: Env, s: Valid)
    requires s.enabled && ReduceOnlyInPerps(s) && ExecuteMatching(e, s).Some? && Stalls(e, s)
    requires !TakerDone(ExecuteMatching(e, s).value.f)
    ensures Pending(ExecuteMatching(e, s).value.s).size < Pending(s).size
  {
    OpeningNeedsOk(e, s);
    TradesIff(e, s);
    ChecksTakeNothing(e, Decided(e, s));
    DecidedMeans(e, s);
    MiddleShrinks(e, s);
    PendingStays(e, s);
  }

  lemma {:induction false} RestingAfter(book: Book, k: Path, sums: Sums)
    requires OrderAt(book, k) == NO_SUMS ==> sums == NO_SUMS
    ensures Resting(Replaced(book, k, sums)) == if sums == NO_SUMS then Resting(book) - {k} else Resting(book)
  {
  }

  /** A step that does not finish the taker removes the resting order it met, or leaves all orders in place. */
  lemma {:induction false} TurnRemovesOne(t: Turn)
    requires Accepted(t) && !TakerDone(Result(t).f)
    ensures if Result(t).f.cancelMaker
            then t.k in Resting(t.book) && Resting(BookAfter(t)) == Resting(t.book) - {t.k}
            else Resting(BookAfter(t)) == Resting(t.book)
    ensures Pending(Result(t).s).isAsk == Pending(t.s).isAsk && Pending(Result(t).s).size <= Pending(t.s).size
  {
    StepShrinks(t.e, t.s);
    PendingStays(t.e, t.s);
    RestingAfter(t.book, t.k, Result(t).s.leaf.sums);
  }

  lemma {:induction false} OneLess(a: set<Path>, b: set<Path>, k: Path)
    requires k in a && b == a - {k}
    ensures |a| == |b| + 1
  {
  }

  lemma {:induction false} TurnShrinks(t: Turn, u: Turn)
    requires Accepted(t) && Accepted(u) && GoesOn(t, u)
    ensures |Resting(t.book)| == |Resting(u.book)| + (if Decisive(Result(t).f) then 1 else 0)
    ensures Pending(u.s).size <= Pending(t.s).size && Pending(u.s).isAsk == Pending(t.s).isAsk
  {
    TurnRemovesOne(t);
    if Result(t).f.cancelMaker {
      OneLess(Resting(t.book), Resting(u.book), t.k);
    }
  }

  /** The step pops the taker or removes a resting order. */
  predicate Moves(t: Turn) {
    ExecuteMatching(t.e, t.s).Some? && Decisive(ExecuteMatching(t.e, t.s).value.f)
  }

  function RestingCount(t: Turn): nat {
    |Resting(t.book)|
  }

  lemma {:induction false} LinkCounts(turns: seq<Turn>, i: nat)
    requires Run(turns) && i + 1 < |turns|
    ensures RestingCount(turns[i]) == RestingCount(turns[i + 1]) + if Moves(turns[i]) then 1 else 0
  {
    assert Linked(turns, i);
    TurnShrinks(turns[i], turns[i + 1]);
  }

  /** How many numbers from `i` up to but excluding `n` have a property. */
  function Count(f: nat -> bool, i: nat, n: nat): nat
    decreases n - i
  {
    if i >= n then 0 else (if f(i) then 1 else 0) + Count(f, i + 1, n)
  }

  lemma {:induction false} CountIsBounded(f: nat -> bool, left: nat -> nat, i: nat, n: nat)
    requires i < n && forall j: nat :: i <= j && j + 1 < n ==> left(j) == left(j + 1) + if f(j) then 1 else 0
    ensures Count(f, i, n) <= left(i) + 1
    decreases n - i
  {
    if i + 1 < n {
      CountIsBounded(f, left, i + 1, n);
    }
  }

  function MovesOf(turns: seq<Turn>): nat -> bool {
    (i: nat) => i < |turns| && Moves(turns[i])
  }

  function CountsOf(turns: seq<Turn>): nat -> nat {
    (i: nat) => if i < |turns| then RestingCount(turns[i]) else 0
  }

  lemma {:induction false} LinkCountsAt(turns: seq<Turn>, i: nat)
    requires Run(turns) && i + 1 < |turns|
    ensures CountsOf(turns)(i) == CountsOf(turns)(i + 1) + if MovesOf(turns)(i) then 1 else 0
  {
    LinkCounts(turns, i);
  }

  lemma {:induction false} AllLinksCount(turns: seq<Turn>, f: nat -> bool, left: nat -> nat)
    requires Run(turns) && f == MovesOf(turns) && left == CountsOf(turns)
    ensures forall i: nat :: i + 1 < |turns| ==> left(i) == left(i + 1) + if f(i) then 1 else 0
  {
    forall i: nat | i + 1 < |turns| ensures left(i) == left(i + 1) + if f(i) then 1 else 0 {
      LinkCountsAt(turns, i);
    }
  }

  /** In any run at most one step more makes progress than there are resting orders, whatever their sides. */
  lemma {:induction false} MovingIsBounded(turns: seq<Turn>)
    requires Run(turns)
    ensures Count(MovesOf(turns), 0, |turns|) <= RestingCount(turns[0]) + 1
  {
    AllLinksCount(turns, MovesOf(turns), CountsOf(turns));
    CountIsBounded(MovesOf(turns), CountsOf(turns), 0, |turns|);
  }

  /** What holds of every step in a market within its cap, whatever order is presented. */
  predicate Orderly(t: Turn) {
    t.s.enabled && ReduceOnlyInPerps(t.s) && WithinCap(t.s)
  }

  lemma {:induction false} OrderlyTurn(t: Turn, u: Turn)
    requires Accepted(t) && Accepted(u) && GoesOn(t, u) && Orderly(t)
    ensures |Resting(u.book)| + Pending(u.s).size < |Resting(t.book)| + Pending(t.s).size
    ensures !Stalls(t.e, t.s) ==> |Resting(u.book)| < |Resting(t.book)|
  {
    TurnShrinks(t, u);
    StepMakesProgressIff(t.e, t.s);
    if Stalls(t.e, t.s) {
      StallFills(t.e, t.s);
    }
  }

  predicate OrderlyAt(turns: seq<Turn>, i: nat)
    requires i < |turns|
  {
    Orderly(turns[i])
  }

  predicate OrderlyRun(turns: seq<Turn>) {
    Run(turns) && forall i: nat :: i < |turns| ==> OrderlyAt(turns, i)
  }

  predicate StallsAt(turns: seq<Turn>, i: nat)
    requires i < |turns|
  {
    Stalls(turns[i].e, turns[i].s)
  }

  lemma {:induction false} LinkFalls(turns: seq<Turn>, i: nat)
    requires OrderlyRun(turns) && i + 1 < |turns|
    ensures RestingCount(turns[i + 1]) + Pending(turns[i + 1].s).size
          < RestingCount(turns[i]) + Pending(turns[i].s).size
    ensures !StallsAt(turns, i) ==> RestingCount(turns[i + 1]) < RestingCount(turns[i])
  {
    assert Linked(turns, i) && OrderlyAt(turns, i);
    OrderlyTurn(turns[i], turns[i + 1]);
  }

  /** From any step on a taker is finished within one step more than there are resting orders and units of its
      size: a step that removes no order fills something. */
  lemma {:induction false} RunIsBounded(turns: seq<Turn>, i: nat)
    requires OrderlyRun(turns) && i < |turns|
    ensures |turns| - i <= RestingCount(turns[i]) + Pending(turns[i].s).size + 1
    decreases |turns| - i
  {
    if i + 1 < |turns| {
      LinkFalls(turns, i);
      RunIsBounded(turns, i + 1);
    }
  }

  /** Without stalls it is one step more than there are resting orders, on both sides together. */
  lemma {:induction false} RunWithoutStalls(turns: seq<Turn>, i: nat)
    requires OrderlyRun(turns) && i < |turns|
    requires forall j: nat :: i <= j < |turns| ==> !StallsAt(turns, j)
    ensures |turns| - i <= RestingCount(turns[i]) + 1
    decreases |turns| - i
  {
    if i + 1 < |turns| {
      LinkFalls(turns, i);
      RunWithoutStalls(turns, i + 1);
    }
  }

  // Runs that meet the other side only

  /** The resting orders of the other side. */
  function OppositeResting(book: Book, isAsk: bool): set<Path> {
    set k | k in book.orders && Opposite(isAsk, book.orders[k]).base != 0
  }

  /** The taker meets an order of the other side, or its own empty leaf. */
  predicate MeetsOpposite(t: Turn) {
    && OppositeSides(t.s)
    && (t.s.leaf.sums != NO_SUMS ==> Opposite(Pending(t.s).isAsk, t.s.leaf.sums).base != 0)
  }

  lemma {:induction false} OppositeAfter(book: Book, k: Path, isAsk: bool)
    ensures OppositeResting(Replaced(book, k, NO_SUMS), isAsk) == OppositeResting(book, isAsk) - {k}
  {
  }

  lemma {:induction false} OppositeTurn(t: Turn, u: Turn)
    requires Accepted(t) && Accepted(u) && GoesOn(t, u) && Orderly(t) && MeetsOpposite(t)
    ensures |OppositeResting(t.book, Pending(t.s).isAsk)| == |OppositeResting(u.book, Pending(u.s).isAsk)| + 1
  {
    StepMakesProgress(t.e, t.s);
    StepShrinks(t.e, t.s);
    PendingStays(t.e, t.s);
    OppositeAfter(t.book, t.k, Pending(t.s).isAsk);
    OneLess(OppositeResting(t.book, Pending(t.s).isAsk), OppositeResting(u.book, Pending(u.s).isAsk), t.k);
  }

  function OppositeCount(t: Turn): nat {
    |OppositeResting(t.book, Pending(t.s).isAsk)|
  }

  lemma {:induction false} OppositeLinkFalls(turns: seq<Turn>, i: nat)
    requires OrderlyRun(turns) && i + 1 < |turns| && MeetsOpposite(turns[i])
    ensures OppositeCount(turns[i]) == OppositeCount(turns[i + 1]) + 1
  {
    assert Linked(turns, i) && OrderlyAt(turns, i);
    OppositeTurn(turns[i], turns[i + 1]);
  }

  /** A taker that is presented with orders of the other side is finished within one step more than there are of
      those. */
  lemma {:induction false} OppositeRunIsBounded(turns: seq<Turn>, i: nat)
    requires OrderlyRun(turns) && i < |turns| && forall j :: i <= j < |turns| ==> MeetsOpposite(turns[j])
    ensures |turns| - i <= OppositeCount(turns[i]) + 1
    decreases |turns| - i
  {
    if i + 1 < |turns| {
      OppositeLinkFalls(turns, i);
      OppositeRunIsBounded(turns, i + 1);
    }
  }

  // Slippage

  /** The base amount a step trades, zero when it decides otherwise. */
  function FillBase(t: Turn): nat {
    if Checked(t.e, Decided(t.e, t.s)).on then TradeAmount(t.s) else 0
  }

  /** The pending order that a step leaves behind when the taker is not finished. */
  lemma {:induction false} PendingCarries(e: Env, s: Valid)
    requires ExecuteMatching(e, s).Some? && !TakerDone(ExecuteMatching(e, s).value.f)
    ensures var r, p := Pending(ExecuteMatching(e, s).value.s), Pending(s);
            && r.slippage == (if Checked(e, Decided(e, s)).on then NewSlippage(s) else p.slippage)
            && r.price == p.price && r.isAsk == p.isAsk && r.orderType == p.orderType
  {
    UndecidedIsUntouched(e, s);
    PendingStays(e, s);
    var d := Decided(e, s);
    ChecksTakeNothing(e, d);
    SelfTradesKeepQueue(e, s, Opening(e, s));
    TradeKeepsQueue(e, d.s, Checked(e, d));
    TradeSetsSlippage(e, d.s, Checked(e, d));
  }

  lemma {:induction false} TradeSetsSlippage(e: Env, s: Valid, f: Flags)
    ensures Pending(ApplyTrade(e, s, f).s).slippage == if f.on then NewSlippage(s) else Pending(s).slippage
  {
  }

  /** One fill against the budget. */
  lemma {:induction false} FillIsCovered(s: Valid, traded: bool)
    requires IsMarketLike(Pending(s).orderType)
    ensures var r := Pending(s);
            var fill := Fill(s.leaf.price, if traded then TradeAmount(s) else 0);
            var next := BudgetAfter(r.isAsk, r.price, r.slippage, fill);
            next >= 0 && next == if traded then NewSlippage(s) else r.slippage
  {
    SlippagePaysFor(s);
    if !traded {
      assert (s.leaf.price - Pending(s).price) * 0 == 0 && (Pending(s).price - s.leaf.price) * 0 == 0;
    }
  }

  datatype Fill = Fill(price: nat, base: nat)

  /** The fills of a run, at the resting orders' prices. */
  function Fills(turns: seq<Turn>): (fills: seq<Fill>)
    ensures |fills| == |turns|
  {
    if turns == [] then [] else [Fill(turns[0].s.leaf.price, FillBase(turns[0]))] + Fills(turns[1..])
  }

  function TotalBase(fills: seq<Fill>): nat {
    if fills == [] then 0 else fills[0].base + TotalBase(fills[1..])
  }

  function Product(a: nat, b: nat): nat {
    a * b
  }

  function TotalQuote(fills: seq<Fill>): nat {
    if fills == [] then 0 else Product(fills[0].price, fills[0].base) + TotalQuote(fills[1..])
  }

  function BudgetAfter(isAsk: bool, price: nat, budget: int, fill: Fill): int {
    budget + (if isAsk then fill.price - price else price - fill.price) * fill.base
  }

  /** The budget never goes negative while fills change it one after the other. */
  predicate Covered(isAsk: bool, price: nat, budget: int, fills: seq<Fill>)
    decreases |fills|
  {
    fills == []
    || (var next := BudgetAfter(isAsk, price, budget, fills[0]); next >= 0 && Covered(isAsk, price, next, fills[1..]))
  }

  lemma {:induction false} FirstFillCovered(t: Turn)
    requires Accepted(t) && IsMarketLike(Pending(t.s).orderType)
    ensures var r := Pending(t.s);
            var next := BudgetAfter(r.isAsk, r.price, r.slippage, Fill(t.s.leaf.price, FillBase(t)));
            && next >= 0
            && (!TakerDone(Result(t).f) ==>
                  var q := Pending(Result(t).s);
                  q.slippage == next && q.price == r.price && q.isAsk == r.isAsk && q.orderType == r.orderType)
  {
    FillIsCovered(t.s, Checked(t.e, Decided(t.e, t.s)).on);
    if !TakerDone(Result(t).f) {
      PendingCarries(t.e, t.s);
    }
  }

  /** From any step of a run on, the fills stay within the budget that the pending order has there. */
  lemma {:induction false} RunIsCovered(turns: seq<Turn>, i: nat)
    requires Run(turns) && i < |turns| && IsMarketLike(Pending(turns[i].s).orderType)
    ensures var r := Pending(turns[i].s);
            Covered(r.isAsk, r.price, r.slippage, Fills(turns[i..]))
    decreases |turns| - i
  {
    assert AcceptedAt(turns, i);
    FirstFillCovered(turns[i]);
    assert Fills(turns[i..])[1..] == Fills(turns[i + 1..]) by {
      assert turns[i..][1..] == turns[i + 1..];
    }
    if i + 1 < |turns| {
      assert Linked(turns, i);
      RunIsCovered(turns, i + 1);
    }
  }

  /** What is left of a budget is the start plus all price improvements. */
  lemma {:induction false} CoveredAddsUp(isAsk: bool, price: nat, budget: int, fills: seq<Fill>)
    requires Covered(isAsk, price, budget, fills) && budget >= 0
    ensures budget + Gain(isAsk, price, TotalBase(fills), TotalQuote(fills)) >= 0
    decreases |fills|
  {
    if fills == [] {
      assert price * 0 == 0;
    } else {
      var next := BudgetAfter(isAsk, price, budget, fills[0]);
      CoveredAddsUp(isAsk, price, next, fills[1..]);
      GainAdds(isAsk, price, fills[0], TotalBase(fills[1..]), TotalQuote(fills[1..]));
    }
  }

  /** Price improvement against a limit price. */
  function Gain(isAsk: bool, price: nat, base: nat, quote: nat): int {
    if isAsk then quote - price * base else price * base - quote
  }

  lemma {:induction false} GainAdds(isAsk: bool, price: nat, fill: Fill, restBase: nat, restQuote: nat)
    ensures Gain(isAsk, price, fill.base + restBase, Product(fill.price, fill.base) + restQuote)
         == BudgetAfter(isAsk, price, 0, fill) + Gain(isAsk, price, restBase, restQuote)
  {
    assert price * (fill.base + restBase) == price * fill.base + price * restBase;
    assert (fill.price - price) * fill.base == fill.price * fill.base - price * fill.base;
    assert (price - fill.price) * fill.base == price * fill.base - fill.price * fill.base;
  }

  /** The slippage budget over a whole run of fills: the start value plus all price improvements never goes
      negative. */
  lemma {:induction false} BudgetNeverNegative(turns: seq<Turn>)
    requires Run(turns) && IsMarketLike(Pending(turns[0].s).orderType)
    ensures var r, fills := Pending(turns[0].s), Fills(turns);
            r.slippage + Gain(r.isAsk, r.price, TotalBase(fills), TotalQuote(fills)) >= 0
  {
    RunIsCovered(turns, 0);
    assert turns[0..] == turns;
    var r := Pending(turns[0].s);
    CoveredAddsUp(r.isAsk, r.price, r.slippage, Fills(turns));
  }

  /** A market order that starts with no budget never fills at a worse average price than its own: an ask
      receives at least, a bid pays at most, price times base. */
  lemma {:induction false} AveragePriceNoWorse(turns: seq<Turn>)
    requires Run(turns) && IsMarketLike(Pending(turns[0].s).orderType)
    requires Pending(turns[0].s).slippage == 0
    ensures var r, fills := Pending(turns[0].s), Fills(turns);
            if r.isAsk then TotalQuote(fills) >= r.price * TotalBase(fills)
            else TotalQuote(fills) <= r.price * TotalBase(fills)
  {
    BudgetNeverNegative(turns);
  }

  // Leaf and account order agree

  /** The leaf holds exactly the account order's remaining amount, on its side. */
  predicate Agrees(leaf: Leaf, o: AccountOrder) {
    && leaf.price == o.price && leaf.nonce == o.nonce
    && leaf.sums == if o.isAsk then Sums(o.remaining, o.price * o.remaining, 0, 0)
                    else Sums(0, 0, o.remaining, o.price * o.remaining)
  }

  lemma {:induction false} ReducedAgrees(s: Valid, base: nat)
    requires Agrees(s.leaf, s.order) && base <= Pending(s).size && base <= s.order.remaining
    ensures Agrees(Reduced(s, base).leaf, Reduced(s, base).order)
  {
  }

  lemma {:induction false} ReduceAgrees(s: Valid, f: Flags, flag: bool)
    requires Agrees(s.leaf, s.order)
    ensures var r := SelfTradeReduce(s, f, flag).s; Agrees(r.leaf, r.order)
  {
    ReducedAgrees(s, AmountBoth(s));
  }

  lemma {:induction false} SelfTradesAgree(e: Env, s: Valid, f: Flags)
    requires Agrees(s.leaf, s.order)
    ensures var r := SelfTrades(e, s, f).s; Agrees(r.leaf, r.order)
  {
    var withFees := f.on && SameAccount(s) && e.integratorFees;
    var first := ReduceWithFees(e, s, f);
    ReduceAgrees(s, CancelMakerIf(f, withFees && Expired(e, s)), withFees);
    ReduceAgrees(first.s, SelfTradeCancels(e, first.s, first.f),
        !e.byMaster && SameAccount(first.s) && e.behavior == REDUCE);
  }

  lemma {:induction false} TradeAgrees(e: Env, s: Valid, f: Flags)
    requires Agrees(s.leaf, s.order)
    ensures var r := ApplyTrade(e, s, f).s; Agrees(r.leaf, r.order)
  {
    ReducedAgrees(s, TradeAmount(s));
  }

  /** After every step the order book leaf and the account order tell the same story: the order's remaining
      amount, an inserted order's, or an empty leaf for a removed order. An order inserted to wait for its
      trigger leaves the book alone. */
  lemma {:induction false} StepKeepsAgreement(e: Env, s: Valid)
    requires ExecuteMatching(e, s).Some?
    ensures var r := ExecuteMatching(e, s).value;
            if r.f.insert then
              && r.s.order == OrderFromRegister(Pending(s))
              && (if Pending(s).triggerStatus == TRIGGER_STATUS_NA then Agrees(r.s.leaf, r.s.order)
                  else r.s.leaf == s.leaf)
            else if r.f.cancelMaker then r.s.leaf.sums == NO_SUMS && r.s.order.remaining == 0
            else Agrees(s.leaf, s.order) ==> Agrees(r.s.leaf, r.s.order)
  {
    EndingKeepsFlags(e, s);
    var d := Decided(e, s);
    var t := ApplyTrade(e, d.s, Checked(e, d));
    if Agrees(s.leaf, s.order) {
      SelfTradesAgree(e, s, Opening(e, s));
      TradeAgrees(e, d.s, Checked(e, d));
    }
    SelfTradesKeepQueue(e, s, Opening(e, s));
    TradeKeepsQueue(e, d.s, Checked(e, d));
    ConclusionAgrees(t.s, t.f);
    if t.f.insert {
      InsertedIsUntouched(e, s);
    }
  }

  lemma {:induction false} InsertedIsUntouched(e: Env, s: Valid)
    requires ExecuteMatching(e, s).Some? && Checked(e, Decided(e, s)).insert
    ensures ApplyTrade(e, Decided(e, s).s, Checked(e, Decided(e, s))).s == s
  {
    var d, f := Decided(e, s), Opening(e, s);
    ChecksTakeNothing(e, d);
    OnlyOpeningInserts(e, s);
    InsertionIsOff(e, s);
    var t := SelfTrades(e, s, f);
    assert t == Engine(s, f);
    OffStaysOff(e, s, f);
  }

  lemma {:induction false} ReduceKeepsInsert(s: Valid, f: Flags, flag: bool)
    ensures SelfTradeReduce(s, f, flag).f.insert == f.insert
  {
  }

  lemma {:induction false} OnlyOpeningInserts(e: Env, s: Valid)
    ensures Decided(e, s).f.insert == Opening(e, s).insert
  {
    var f := Opening(e, s);
    var withFees := f.on && SameAccount(s) && e.integratorFees;
    var first := ReduceWithFees(e, s, f);
    ReduceKeepsInsert(s, CancelMakerIf(f, withFees && Expired(e, s)), withFees);
    ReduceKeepsInsert(first.s, SelfTradeCancels(e, first.s, first.f),
                      !e.byMaster && SameAccount(first.s) && e.behavior == REDUCE);
    BeforeTradeKeepsInsert(e, SelfTrades(e, s, f).s, SelfTrades(e, s, f).f);
  }

  lemma {:induction false} BeforeTradeKeepsInsert(e: Env, s: Valid, f: Flags)
    ensures BeforeTrade(e, s, f).insert == f.insert
  {
  }

  lemma {:induction false} InsertionIsOff(e: Env, s: Valid)
    ensures Opening(e, s).insert ==> !Opening(e, s).on
  {
  }

  lemma {:induction false} OffStaysOff(e: Env, s: Valid, f: Flags)
    requires !f.on
    ensures SelfTrades(e, s, f) == Engine(s, f) && BeforeTrade(e, s, f) == f
  {
  }

  lemma {:induction false} ConclusionAgrees(s: Valid, f: Flags)
    ensures var t := Conclude(s, f).s;
            if f.insert then
              && t.order == OrderFromRegister(Pending(s))
              && (if Pending(s).triggerStatus == TRIGGER_STATUS_NA then Agrees(t.leaf, t.order)
                  else !f.cancelMaker ==> t.leaf == s.leaf)
            else if f.cancelMaker then t.leaf.sums == NO_SUMS && t.order.remaining == 0
            else t.leaf == s.leaf && t.order == s.order
  {
  }
}
