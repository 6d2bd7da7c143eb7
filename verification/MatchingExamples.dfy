/** Steps and runs on resting orders of the taker's own side, which the engine accepts. */
module MatchingExamples {
  import opened Options
  import opened Numbers
  import opened Shifts
  import opened SparseTree
  import opened MerkleOpenings
  import opened BookTree
  import opened Matching
  import opened MatchingProgress
  import opened MatchingRuns
  import opened MatchingLight
  import Locks = LockedBalance

  const GOOD_TILL_TIME: nat := 1

  /** Nothing is rejected, nobody is expired, accounts are unrelated. */
  function QuietEnv(): Env {
    Env(0, false, true, false, false, false, EXPIRE_MAKER, _ => false, _ => false, _ => false, _ => false, _ => 0,
        _ => false, _ => true, _ => None, _ => None)
  }

  /** A resting bid for 10 at price 1 of account 2, on some leaf. */
  const BID: Sums := Sums(0, 0, 10, 10)

  predicate HoldsOneBid(book: Book, k: Path) {
    k.Child? && book == Book(map[k := BID], Depth(k))
  }

  function RestingBid(reduceOnly: bool): AccountOrder {
    AccountOrder(7, 0, 2, false, 10, 10, 1, 1, LIMIT_ORDER, GOOD_TILL_TIME, TRIGGER_STATUS_NA, reduceOnly, 0, 0, 100, 0)
  }

  /** A pending bid at the same price, of account 1. */
  function PendingBid(size: nat): Register {
    Register(0, 1, false, size, size, 1, 0, LIMIT_ORDER, GOOD_TILL_TIME, TRIGGER_STATUS_NA, false, 0, 8, 0, 0, 0,
             100, 0)
  }

  function Trader(index: nat, size: int, orders: int): Account {
    Account(index, false, false, orders, 0, 0, Position(size, orders, 0, false, false), [])
  }

  function TwoBids(size: nat, reduceOnly: bool, position: int, path: seq<PathNode>, helpers: seq<bool>): State {
    State(true, [PendingBid(size)], 1, Leaf(1, 1, BID), RestingBid(reduceOnly), path, helpers,
          Market(MARKET_TYPE_PERPS, 0, false, 10, 1, 1, 1, Locks.Multipliers(0, 0, 0, 0)),
          Trader(1, 0, 0), Trader(2, position, 1), map[])
  }

  predicate NoAsks(book: Book) {
    forall k :: k in book.orders ==> book.orders[k].askBase == 0 && book.orders[k].bidBase >= 0
  }

  /** A bid has no better order of the other side when there are no asks. */
  lemma {:induction false} BidIsBest(book: Book, k: Path)
    requires Depth(k) == book.depth && NoAsks(book)
    ensures PathQuote(false, OrderAt(book, k), PathOf(book, k), Bits(k)).base == 0
  {
    assert forall i: nat :: Opposite(false, OrderNo(book)(i)).base == 0;
    ZeroQuoteIsBest(book, false, k);
  }

  /** Two limit orders of unrelated accounts in front of each other, with nothing to decide before the trade. */
  predicate Plain(s: Valid) {
    var r := Pending(s);
    && s.enabled && IsPerps(s) && r.triggerStatus == TRIGGER_STATUS_NA && r.timeInForce == GOOD_TILL_TIME
    && r.orderType == LIMIT_ORDER && !r.reduceOnly && s.leaf.sums != NO_SUMS && BestPresented(s) && Crosses(s)
    && s.leaf.price == s.order.price && s.leaf.nonce == s.order.nonce && s.order.expiry > 0
    && s.order.owner == s.maker.index && s.maker.index != s.taker.index && s.order.owner != r.account
    && (s.order.reduceOnly ==> !InvalidReduceDirection(s.maker.position.size, s.order.isAsk))
  }

  lemma {:induction false} PlainMeet(s: Valid)
    requires Plain(s)
    ensures Opening(QuietEnv(), s) == Flags(true, true, false, false, false)
    ensures Undecided(QuietEnv(), s)
  {
  }

  lemma {:induction false} PlainDecided(s: Valid)
    requires Plain(s)
    ensures Decided(QuietEnv(), s) == Engine(s, Flags(true, true, false, false, false))
  {
    var e, f := QuietEnv(), Flags(true, true, false, false, false);
    PlainMeet(s);
    SelfTradesMean(e, s, f);
    PlainPassesScreen(s);
  }

  lemma {:induction false} PlainPassesScreen(s: Valid)
    requires Plain(s)
    ensures var f := Flags(true, true, false, false, false); BeforeTrade(QuietEnv(), s, f) == f
  {
  }

  predicate InCapAfter(s: Valid) {
    !OverCap(s.market, NewInterest(s, TradeAmount(s)))
  }

  lemma {:induction false} PlainPassesChecks(s: Valid, f: Flags)
    requires Plain(s) && InCapAfter(s) && f == Flags(true, true, false, false, false)
    ensures Checked(QuietEnv(), Engine(s, f)) == f
  {
  }

  /** Within the cap the step trades. */
  lemma {:induction false} PlainTrades(s: Valid)
    requires Plain(s) && InCapAfter(s)
    ensures Trades(QuietEnv(), s) && Middle(QuietEnv(), s).s == Traded(QuietEnv(), s)
    ensures Middle(QuietEnv(), s).f
         == Flags(true, true, TakerFinished(QuietEnv(), s), MakerFinished(s), false)
  {
    PlainMeet(s);
    PlainDecided(s);
    PlainPassesChecks(s, Flags(true, true, false, false, false));
  }

  lemma {:induction false} PerpsConclude(s: Valid, f: Flags)
    requires IsPerps(s) && f.ok && !f.insert && s.count > 0
    ensures Conclude(s, f).f == f
  {
  }

  lemma {:induction false} PlainAccepted(s: Valid)
    requires Plain(s) && InCapAfter(s) && s.count > 0
    ensures ExecuteMatching(QuietEnv(), s).Some?
    ensures ExecuteMatching(QuietEnv(), s).value.f
         == Flags(true, true, TakerFinished(QuietEnv(), s), MakerFinished(s), false)
  {
    PlainTrades(s);
    var m := Middle(QuietEnv(), s);
    PerpsConclude(m.s, m.f);
  }

  // A fill that stalls

  /** A state that shows a resting bid on a leaf of the book. */
  predicate ShowsBid(s: State, path: seq<PathNode>, helpers: seq<bool>) {
    s.path == path && s.helpers == helpers && s.leaf.sums == BID && Agrees(s.leaf, s.order)
  }

  lemma {:induction false} StallOfBids(path: seq<PathNode>, helpers: seq<bool>) returns (s: Valid)
    requires |path| == |helpers| > 0 && PathQuote(false, BID, path, helpers).base == 0
    ensures ShowsBid(s, path, helpers) && s.enabled && ReduceOnlyInPerps(s) && WithinCap(s)
    ensures ExecuteMatching(QuietEnv(), s).Some?
    ensures Stalls(QuietEnv(), s) && !Decisive(ExecuteMatching(QuietEnv(), s).value.f)
    ensures s.maker.position.size == -5 && ExecuteMatching(QuietEnv(), s).value.s.maker.position.size == -10
  {
    s := TwoBids(10, true, -5, path, helpers);
    assert Plain(s) && TradeAmount(s) == 5 && NewInterest(s, 5) == 20;
    PlainTrades(s);
    PlainAccepted(s);
    ProgressIff(QuietEnv(), s);
  }

  /** The resting bid may only reduce a short of 5. The fill is cut to 5, doubles the short, and leaves both orders
      where they are, in a market far below its cap. */
  lemma {:induction false} OwnSideStall(book: Book, k: Path) returns (t: Turn)
    requires HoldsOneBid(book, k)
    ensures Accepted(t) && Orderly(t) && t.book == book && Agrees(t.s.leaf, t.s.order)
    ensures Stalls(t.e, t.s) && !Moves(t)
    ensures t.s.maker.position.size == -5 && Result(t).s.maker.position.size == -10
  {
    BidIsBest(book, k);
    var s := StallOfBids(PathOf(book, k), Bits(k));
    t := Turn(QuietEnv(), s, book, k);
    assert Presented(t);
  }

  // A run past an order of the taker's own side

  lemma {:induction false} LargerBidGoesOn(s: Valid)
    requires Plain(s) && InCapAfter(s) && s.count > 0 && !OwnSideCut(s)
    requires MakerFinished(s) && !TakerFinished(QuietEnv(), s)
    ensures ExecuteMatching(QuietEnv(), s).Some? && !Stalls(QuietEnv(), s)
    ensures var r := ExecuteMatching(QuietEnv(), s).value;
            && r.f == Flags(true, true, false, true, false) && r.s.leaf.sums == NO_SUMS
            && Pending(r.s) == Pending(Traded(QuietEnv(), s))
  {
    PlainTrades(s);
    PlainAccepted(s);
    DecisionsTakeEffect(QuietEnv(), s);
    PendingStays(QuietEnv(), s);
  }

  /** A larger bid takes the resting one and goes on. */
  lemma {:induction false} LargerBid(path: seq<PathNode>, helpers: seq<bool>) returns (s: Valid)
    requires |path| == |helpers| > 0 && PathQuote(false, BID, path, helpers).base == 0
    ensures ShowsBid(s, path, helpers) && s.enabled && ReduceOnlyInPerps(s) && WithinCap(s)
    ensures ExecuteMatching(QuietEnv(), s).Some?
    ensures var r := ExecuteMatching(QuietEnv(), s).value;
            && r.f == Flags(true, true, false, true, false) && r.s.leaf.sums == NO_SUMS
            && Pending(r.s) == PendingBid(20).(size := 10)
    ensures !Stalls(QuietEnv(), s) && !Pending(s).isAsk
  {
    s := TwoBids(20, false, 0, path, helpers);
    assert Plain(s) && TradeAmount(s) == 10 && NewInterest(s, 10) == 30;
    LargerBidGoesOn(s);
  }

  /** What is left of it comes to rest on its own leaf. */
  lemma {:induction false} RestOfBid(path: seq<PathNode>, helpers: seq<bool>) returns (s: Valid)
    requires |path| == |helpers| > 0 && PathQuote(false, NO_SUMS, path, helpers).base == 0
    ensures s.path == path && s.helpers == helpers && s.leaf.sums == NO_SUMS
    ensures s.enabled && ReduceOnlyInPerps(s) && WithinCap(s) && Pending(s) == PendingBid(20).(size := 10)
    ensures ExecuteMatching(QuietEnv(), s).Some? && !Stalls(QuietEnv(), s)
  {
    s := State(true, [PendingBid(20).(size := 10)], 1, Leaf(1, 0, NO_SUMS), EmptyAccountOrder(8, 0, 1), path, helpers,
               Market(MARKET_TYPE_PERPS, 0, false, 30, 1, 1, 1, Locks.Multipliers(0, 0, 0, 0)),
               Trader(1, 10, 0), Trader(2, -10, 0), map[]);
    assert Opening(QuietEnv(), s) == Flags(true, false, false, false, true);
    DecidedEarly(QuietEnv(), s);
  }

  lemma {:induction false} BothAccepted(turns: seq<Turn>)
    requires |turns| == 2 && AcceptedAt(turns, 0) && AcceptedAt(turns, 1)
    ensures forall i: nat :: i < |turns| ==> AcceptedAt(turns, i)
  {
    forall i: nat | i < |turns| ensures AcceptedAt(turns, i) {
      assert i == 0 || i == 1;
    }
  }

  lemma {:induction false} BothOrderly(turns: seq<Turn>)
    requires |turns| == 2 && OrderlyAt(turns, 0) && OrderlyAt(turns, 1)
    ensures forall i: nat :: i < |turns| ==> OrderlyAt(turns, i)
  {
    forall i: nat | i < |turns| ensures OrderlyAt(turns, i) {
      assert i == 0 || i == 1;
    }
  }

  lemma {:induction false} OneLink(turns: seq<Turn>)
    requires |turns| == 2 && Linked(turns, 0)
    ensures forall i: nat :: i + 1 < |turns| ==> Linked(turns, i)
  {
    forall i: nat | i + 1 < |turns| ensures Linked(turns, i) {
      assert i == 0;
    }
  }

  lemma {:induction false} TwoTurns(turns: seq<Turn>)
    requires |turns| == 2 && AcceptedAt(turns, 0) && AcceptedAt(turns, 1) && Linked(turns, 0)
    requires OrderlyAt(turns, 0) && OrderlyAt(turns, 1)
    ensures OrderlyRun(turns)
  {
    BothAccepted(turns);
    BothOrderly(turns);
    OneLink(turns);
  }

  lemma {:induction false} FirstTurn(book: Book, k: Path) returns (t: Turn)
    requires HoldsOneBid(book, k)
    ensures Accepted(t) && Orderly(t) && t.book == book && !Stalls(t.e, t.s) && !Pending(t.s).isAsk
    ensures !TakerDone(Result(t).f) && BookAfter(t) == Replaced(book, k, NO_SUMS)
    ensures Pending(Result(t).s) == PendingBid(20).(size := 10)
  {
    BidIsBest(book, k);
    var s := LargerBid(PathOf(book, k), Bits(k));
    t := Turn(QuietEnv(), s, book, k);
    assert Presented(t);
  }

  lemma {:induction false} SecondTurn(book: Book, own: Path) returns (u: Turn)
    requires own.Child? && Depth(own) == book.depth && NoAsks(book) && OrderAt(book, own) == NO_SUMS
    ensures Accepted(u) && Orderly(u) && u.book == book && !Stalls(u.e, u.s)
    ensures Pending(u.s) == PendingBid(20).(size := 10)
  {
    BidIsBest(book, own);
    var s := RestOfBid(PathOf(book, own), Bits(own));
    u := Turn(QuietEnv(), s, book, own);
    assert Presented(u);
  }

  lemma {:induction false} AsRun(t: Turn, u: Turn)
    requires GoesOn(t, u) && Orderly(t) && Orderly(u)
    ensures OrderlyRun([t, u])
  {
    assert AcceptedAt([t, u], 0);
    assert AcceptedAt([t, u], 1);
    assert Linked([t, u], 0);
    TwoTurns([t, u]);
  }

  lemma {:induction false} GoesOnWith(t: Turn, u: Turn, rest: Register)
    requires Accepted(t) && Accepted(u) && !TakerDone(Result(t).f) && BookAfter(t) == u.book
    requires Pending(Result(t).s) == rest && Pending(u.s) == rest
    ensures GoesOn(t, u)
  {
  }

  lemma {:induction false} EmptyBook(book: Book, k: Path, own: Path)
    requires HoldsOneBid(book, k) && own != k
    ensures NoAsks(Replaced(book, k, NO_SUMS)) && OrderAt(Replaced(book, k, NO_SUMS), own) == NO_SUMS
  {
  }

  lemma {:induction false} OneBidCounts(t: Turn, k: Path)
    requires HoldsOneBid(t.book, k) && !Pending(t.s).isAsk
    ensures OppositeCount(t) == 0 && RestingCount(t) == 1
  {
    assert Resting(t.book) == {k} && OppositeResting(t.book, false) == {};
  }

  /** On a book without asks the bid takes two steps, where a count of asks would allow one. */
  lemma {:induction false} OwnSideRun(book: Book, k: Path, own: Path) returns (t: Turn, u: Turn)
    requires HoldsOneBid(book, k) && Depth(own) == Depth(k) && own != k
    ensures OrderlyRun([t, u]) && !Stalls(t.e, t.s) && !Stalls(u.e, u.s)
    ensures t.book == book && OppositeCount(t) == 0 && RestingCount(t) == 1
  {
    t, u := TwoSteps(book, k, own);
    OneBidCounts(t, k);
    AsRun(t, u);
  }

  lemma {:induction false} TwoSteps(book: Book, k: Path, own: Path) returns (t: Turn, u: Turn)
    requires HoldsOneBid(book, k) && Depth(own) == Depth(k) && own != k
    ensures GoesOn(t, u) && Orderly(t) && Orderly(u) && !Stalls(t.e, t.s) && !Stalls(u.e, u.s)
    ensures t.book == book && !Pending(t.s).isAsk
  {
    EmptyBook(book, k, own);
    t := FirstTurn(book, k);
    u := SecondTurn(Replaced(book, k, NO_SUMS), own);
    GoesOnWith(t, u, PendingBid(20).(size := 10));
  }
}
