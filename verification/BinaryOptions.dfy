/** Trades in binary options markets. Every share pays the settlement price to its YES side and the rest of
    the settlement cap to its NO side, and all exposure is paid for in USDC when it is opened.
 */
module BinaryOptions {
  import opened Constants
  import opened Options
  import opened Numbers
  import opened Totals

  const MAX_POSITION: nat := 0xFF_FFFF_FFFF_FFFF // 2^56 - 1, for sizes and entry quotes

  /** Positive sizes are YES shares, negative ones NO shares. */
  datatype Position = Position(size: int, entryQuote: nat)

  datatype Market = Market(settlementCap: nat, quoteExtensionMultiplier: nat, openInterest: int, openInterestLimit: nat)

  datatype Change = Change(closeAmount: nat, openAmount: nat, newPosition: Position, isValid: bool)

  function CloseAmount(pos: Position, isAsk: bool, base: nat): (c: nat)
    ensures c <= base && c <= Abs(pos.size)
  {
    if Sign(pos.size) == (if isAsk then 1 else -1) then Min(Abs(pos.size), base) else 0
  }

  function OpenCost(isAsk: bool, open: nat, base: nat, quote: nat, cap: nat): int {
    var openQuote := Div(quote * open, if open != 0 then base else 1);
    if isAsk then open * cap - openQuote else openQuote
  }

  function EntryAfterClose(pos: Position, close: nat): int {
    pos.entryQuote - Div(pos.entryQuote * close, if close != 0 then Abs(pos.size) else 1)
  }

  function CalculatePositionChange(pos: Position, isAsk: bool, base: nat, quote: nat, cap: nat): Change {
    var close := CloseAmount(pos, isAsk, base);
    var open := base - close;
    var newEntry := EntryAfterClose(pos, close) + OpenCost(isAsk, open, base, quote, cap);
    var newSize := if isAsk then pos.size - base else pos.size + base;
    Change(close, open, Position(newSize, Min(Abs(newEntry), MAX_POSITION + 1)),
           Abs(newEntry) <= MAX_POSITION && Abs(newSize) <= MAX_POSITION)
  }

  datatype Outcome = Outcome(
    taker: Position, maker: Position,
    takerUsdc: int, makerUsdc: int, feeUsdc: int,
    openInterest: int,
    takerValid: bool, makerValid: bool, openInterestValid: bool)

  datatype Order = Order(isTakerAsk: bool, base: nat, quote: int, takerFee: int, makerFee: int)

  function FeeDelta(m: Market, quote: int, fee: int, feesEnabled: bool): int {
    quote * (if feesEnabled then fee else 0) * (m.quoteExtensionMultiplier / FEE_TICK)
  }

  /** None when an assertion of the circuit fails. */
  function ApplyTrade(
    isEnabled: bool, m: Market, taker: Position, maker: Position, o: Order, feeIsTaker: bool, feeIsMaker: bool)
    : Option<Outcome>
  {
    if isEnabled && (o.quote < 0 || o.takerFee < 0) then None
    else
      var base := if isEnabled then o.base else 0;
      var quote: nat := if isEnabled then o.quote else 0;
      var cap, qem := m.settlementCap, m.quoteExtensionMultiplier;
      var t := CalculatePositionChange(taker, o.isTakerAsk, base, quote, cap);
      var k := CalculatePositionChange(maker, !o.isTakerAsk, base, quote, cap);
      var buyerClose := if o.isTakerAsk then k.closeAmount else t.closeAmount;
      var sellerOpen := if o.isTakerAsk then t.openAmount else k.openAmount;
      var buyerDelta := buyerClose * cap - quote;
      var sellerDelta := quote - sellerOpen * cap;
      var feesEnabled := o.takerFee != 0 || o.makerFee != 0;
      var takerFee := FeeDelta(m, quote, o.takerFee, feesEnabled);
      var makerFee := FeeDelta(m, quote, o.makerFee, feesEnabled);
      var fees := takerFee + makerFee;
      var interestDelta := (t.openAmount + k.openAmount) - (t.closeAmount + k.closeAmount);
      var interest := if isEnabled then m.openInterest + interestDelta else m.openInterest;
      Some(Outcome(
        t.newPosition, k.newPosition,
        (if o.isTakerAsk then sellerDelta else buyerDelta) * qem - takerFee + (if feeIsTaker then fees else 0),
        (if o.isTakerAsk then buyerDelta else sellerDelta) * qem - makerFee + (if feeIsMaker then fees else 0),
        if feeIsTaker || feeIsMaker then 0 else fees,
        interest,
        !isEnabled || t.isValid,
        !isEnabled || k.isValid,
        !isEnabled || interestDelta <= 0 || interest * cap <= m.openInterestLimit))
  }

  // One position

  /** A position never books more than the cap for each of its shares. */
  predicate EntryBounded(p: Position, cap: nat) {
    p.entryQuote <= cap * Abs(p.size)
  }

  lemma {:induction false} OpenCostBounds(isAsk: bool, open: nat, base: nat, quote: nat, cap: nat)
    requires open <= base && quote <= cap * base
    ensures 0 <= OpenCost(isAsk, open, base, quote, cap) <= cap * open
  {
    if open != 0 {
      assert quote * open <= cap * base * open by { MulMono(quote, cap * base, open); }
      assert cap * base * open == cap * open * base;
      DivIsSmallest(quote * open, base, cap * open);
    } else {
      assert quote * open == 0;
    }
  }

  lemma {:induction false} EntryAfterCloseBounds(pos: Position, close: nat, cap: nat)
    requires close <= Abs(pos.size) && EntryBounded(pos, cap)
    ensures 0 <= EntryAfterClose(pos, close) <= cap * (Abs(pos.size) - close)
    ensures close == 0 ==> EntryAfterClose(pos, close) == pos.entryQuote
  {
    var n, e := Abs(pos.size), pos.entryQuote;
    if close != 0 {
      var closed := Div(e * close, n);
      assert e * close <= e * n by { MulMono(close, n, e); }
      DivIsSmallest(e * close, n, e);
      var q := e - cap * (n - close);
      assert q * n <= e * close by {
        assert e * (n - close) <= cap * n * (n - close) by { MulMono(e, cap * n, n - close); }
        assert q * n == e * n - cap * (n - close) * n;
        assert cap * n * (n - close) == cap * (n - close) * n;
        assert e * (n - close) == e * n - e * close;
      }
      DivIsLargest(e * close, n, q);
    } else {
      assert e * close == 0;
    }
  }

  lemma {:induction false} SizeAfterTrade(pos: Position, isAsk: bool, base: nat)
    ensures var close := CloseAmount(pos, isAsk, base);
            Abs(if isAsk then pos.size - base else pos.size + base) == (Abs(pos.size) - close) + (base - close)
  {
  }

  /** Through any close, open or flip at a price within the cap, an accepted position keeps its entry quote
      between zero and the cap of all its shares, and taking the absolute value loses no sign. */
  lemma {:induction false} EntryStaysBounded(pos: Position, isAsk: bool, base: nat, quote: nat, cap: nat)
    requires EntryBounded(pos, cap) && quote <= cap * base
    ensures var c := CalculatePositionChange(pos, isAsk, base, quote, cap);
            && Abs(c.newPosition.size) == Abs(pos.size) + c.openAmount - c.closeAmount
            && EntryAfterClose(pos, c.closeAmount) + OpenCost(isAsk, c.openAmount, base, quote, cap) >= 0
            && EntryBounded(c.newPosition, cap)
            && (c.newPosition.size == 0 ==> c.newPosition.entryQuote == 0)
  {
    var close := CloseAmount(pos, isAsk, base);
    EntryAfterCloseBounds(pos, close, cap);
    OpenCostBounds(isAsk, base - close, base, quote, cap);
    SizeAfterTrade(pos, isAsk, base);
    var entry := EntryAfterClose(pos, close) + OpenCost(isAsk, base - close, base, quote, cap);
    BoundsAdd(0, cap, Abs(pos.size) - close, EntryAfterClose(pos, close), base - close,
              OpenCost(isAsk, base - close, base, quote, cap));
    StoredEntryBounded(entry, if isAsk then pos.size - base else pos.size + base, cap);
  }

  lemma {:induction false} StoredEntryBounded(entry: int, size: int, cap: nat)
    requires 0 <= entry <= cap * Abs(size)
    ensures EntryBounded(Position(size, Min(Abs(entry), MAX_POSITION + 1)), cap)
    ensures size == 0 ==> entry == 0
  {
    if size == 0 {
      assert cap * Abs(size) == 0;
    }
  }

  /** Closing keeps the entry quote of what is left pro rata, rounded up by less than one. */
  lemma {:induction false} ClosedPartIsProRata(pos: Position, close: nat)
    requires 0 < close <= Abs(pos.size)
    ensures var left, n := Abs(pos.size) - close, Abs(pos.size);
            (EntryAfterClose(pos, close) - 1) * n < pos.entryQuote * left <= EntryAfterClose(pos, close) * n
  {
    var n, e := Abs(pos.size), pos.entryQuote;
    var closed := Div(e * close, n);
    DivBounds(e * close, n);
    assert e * (n - close) == e * n - e * close;
    assert (e - closed) * n == e * n - closed * n && (e - closed - 1) * n == e * n - (closed + 1) * n;
  }

  /** Closing everything at once realizes the whole entry quote, however it was rounded before. */
  lemma {:induction false} FullCloseLeavesNothing(pos: Position, quote: nat, cap: nat)
    requires EntryBounded(pos, cap) && quote <= cap * Abs(pos.size)
    ensures CalculatePositionChange(pos, pos.size > 0, Abs(pos.size), quote, cap).newPosition == Position(0, 0)
  {
    EntryStaysBounded(pos, pos.size > 0, Abs(pos.size), quote, cap);
  }

  /** Above the cap the stored entry quote loses its sign: a NO share sold for 3 with a cap of 1. */
  lemma {:induction false} AboveTheCapSignsAreLost()
    ensures OpenCost(true, 1, 1, 3, 1) == -2
    ensures CalculatePositionChange(Position(0, 0), true, 1, 3, 1) == Change(0, 1, Position(-1, 2), true)
  {
  }

  /** One call opening from scratch keeps the sign exactly up to a price at the cap. */
  lemma {:induction false} OpenSignKeptIff(base: nat, quote: nat, cap: nat)
    requires base > 0
    ensures OpenCost(true, base, base, quote, cap) >= 0 <==> quote <= cap * base
  {
    DivBounds(quote * base, base);
    DivIsLargest(quote * base, base, quote);
    DivIsSmallest(quote * base, base, quote);
  }

  // What a trade books

  predicate Opens(pos: Position, isAsk: bool) {
    if isAsk then pos.size <= 0 else pos.size >= 0
  }

  lemma {:induction false} WholeOpenCost(isAsk: bool, base: nat, quote: nat, cap: nat)
    requires base > 0
    ensures OpenCost(isAsk, base, base, quote, cap) == if isAsk then cap * base - quote else quote
  {
    DivIsLargest(quote * base, base, quote);
    DivIsSmallest(quote * base, base, quote);
  }

  /** With nothing to close a buyer books exactly the quote and a seller exactly what is missing to the cap; the
      trade is valid exactly when entry quote and size stay within 56 bits. */
  lemma {:induction false} OpeningBooksExactly(pos: Position, isAsk: bool, base: nat, quote: nat, cap: nat)
    requires Opens(pos, isAsk) && base > 0 && quote <= cap * base
    ensures var c := CalculatePositionChange(pos, isAsk, base, quote, cap);
            var entry := pos.entryQuote + (if isAsk then cap * base - quote else quote);
            && c.closeAmount == 0 && c.openAmount == base
            && c.newPosition.size == (if isAsk then pos.size - base else pos.size + base)
            && (c.isValid <==> entry <= 0xFF_FFFF_FFFF_FFFF && Abs(c.newPosition.size) <= 0xFF_FFFF_FFFF_FFFF)
            && (c.isValid ==> c.newPosition.entryQuote == entry)
  {
    WholeOpenCost(isAsk, base, quote, cap);
    assert EntryAfterClose(pos, 0) == pos.entryQuote by { assert pos.entryQuote * 0 == 0; }
  }

  /** Two opening sides of one trade together book the cap of every share. */
  lemma {:induction false} OpeningsBookTheCap(buyer: Position, seller: Position, base: nat, quote: nat, cap: nat)
    requires Opens(buyer, false) && Opens(seller, true) && base > 0 && quote <= cap * base
    ensures var b := CalculatePositionChange(buyer, false, base, quote, cap);
            var s := CalculatePositionChange(seller, true, base, quote, cap);
            b.isValid && s.isValid ==>
              b.newPosition.entryQuote - buyer.entryQuote + (s.newPosition.entryQuote - seller.entryQuote) == cap * base
  {
    OpeningBooksExactly(buyer, false, base, quote, cap);
    OpeningBooksExactly(seller, true, base, quote, cap);
  }

  /** A trade that closes part of a position keeps its entry quote pro rata, rounded up by less than one. */
  lemma {:induction false} ReducingBooksProRata(pos: Position, base: nat, quote: nat, cap: nat)
    requires 0 < base < Abs(pos.size) && EntryBounded(pos, cap) && quote <= cap * base
    ensures var c := CalculatePositionChange(pos, pos.size > 0, base, quote, cap);
            var left, n := Abs(pos.size) - base, Abs(pos.size);
            && c.closeAmount == base && c.openAmount == 0 && Abs(c.newPosition.size) == left
            && (c.isValid ==>
                  (c.newPosition.entryQuote - 1) * n < pos.entryQuote * left <= c.newPosition.entryQuote * n)
  {
    ClosedPartIsProRata(pos, base);
    EntryAfterCloseBounds(pos, base, cap);
    assert OpenCost(pos.size > 0, 0, base, quote, cap) == 0 by { assert quote * 0 == 0 && 0 * cap == 0; }
  }

  lemma {:induction false} PartOpenCost(isAsk: bool, open: nat, base: nat, quote: nat, cap: nat)
    requires 0 < open <= base
    ensures var cost := OpenCost(isAsk, open, base, quote, cap);
            if isAsk then (cap * base - quote) * open <= cost * base < (cap * base - quote) * open + base
            else cost * base <= quote * open < cost * base + base
  {
    var unit := Div(quote * open, base);
    DivBounds(quote * open, base);
    assert (unit + 1) * base == unit * base + base;
    assert (cap * base - quote) * open == cap * base * open - quote * open;
    assert (open * cap - unit) * base == open * cap * base - unit * base;
    assert open * cap * base == cap * base * open;
  }

  /** A flip closes everything and books the opened part pro rata of what the whole would have booked: a buyer's
      rounded down, a seller's up, by less than one. */
  lemma {:induction false} FlippingBooksProRata(pos: Position, base: nat, quote: nat, cap: nat)
    requires pos.size != 0 && base > Abs(pos.size) && EntryBounded(pos, cap) && quote <= cap * base
    ensures var c := CalculatePositionChange(pos, pos.size > 0, base, quote, cap);
            var open, entry := base - Abs(pos.size), c.newPosition.entryQuote;
            && c.closeAmount == Abs(pos.size) && c.openAmount == open && Abs(c.newPosition.size) == open
            && (c.isValid ==>
                  if pos.size > 0 then (cap * base - quote) * open <= entry * base < (cap * base - quote) * open + base
                  else entry * base <= quote * open < entry * base + base)
  {
    var open := base - Abs(pos.size);
    EntryAfterCloseBounds(pos, Abs(pos.size), cap);
    OpenCostBounds(pos.size > 0, open, base, quote, cap);
    assert EntryAfterClose(pos, Abs(pos.size)) == 0;
    PartOpenCost(pos.size > 0, open, base, quote, cap);
  }

  // Ledgers

  datatype Account = Account(usdc: int, position: Position)

  datatype Ledger = Ledger(accounts: seq<Account>, openInterest: int)

  datatype Trade = Trade(taker: nat, maker: nat, feeAccount: nat, order: Order)

  function NoShares(p: Position): nat {
    if p.size < 0 then -p.size else 0
  }

  function Usdc(a: Account): int { a.usdc }

  function Size(a: Account): int { a.position.size }

  function AbsSize(a: Account): int { Abs(a.position.size) }

  function NoSize(a: Account): int { NoShares(a.position) }

  predicate Executes(l: Ledger, m: Market, t: Trade) {
    && t.taker < |l.accounts| && t.maker < |l.accounts| && t.feeAccount < |l.accounts|
    && t.taker != t.maker
    && var o := Outcomes(l, m, t);
       o.Some? && o.value.takerValid && o.value.makerValid && o.value.openInterestValid
  }

  function Outcomes(l: Ledger, m: Market, t: Trade): Option<Outcome>
    requires t.taker < |l.accounts| && t.maker < |l.accounts|
  {
    ApplyTrade(true, m.(openInterest := l.openInterest), l.accounts[t.taker].position,
               l.accounts[t.maker].position, t.order, t.feeAccount == t.taker, t.feeAccount == t.maker)
  }

  function Credit(accounts: seq<Account>, i: nat, usdc: int, position: Position): seq<Account>
    requires i < |accounts|
  {
    accounts[i := Account(accounts[i].usdc + usdc, position)]
  }

  function Settle(l: Ledger, t: Trade, o: Outcome): Ledger
    requires t.taker < |l.accounts| && t.maker < |l.accounts| && t.feeAccount < |l.accounts|
  {
    var one := Credit(l.accounts, t.taker, o.takerUsdc, o.taker);
    var two := Credit(one, t.maker, o.makerUsdc, o.maker);
    Ledger(Credit(two, t.feeAccount, o.feeUsdc, two[t.feeAccount].position), o.openInterest)
  }

  function Execute(l: Ledger, m: Market, t: Trade): Ledger
    requires Executes(l, m, t)
  {
    Settle(l, t, Outcomes(l, m, t).value)
  }

  /** Everything the market owes and owns: balances plus the escrow behind all NO shares. */
  function Wealth(l: Ledger, m: Market): int {
    Sum(l.accounts, Usdc) + m.settlementCap * m.quoteExtensionMultiplier * Sum(l.accounts, NoSize)
  }

  predicate Sound(l: Ledger) {
    Sum(l.accounts, Size) == 0 && l.openInterest == Sum(l.accounts, AbsSize)
  }

  predicate EntriesBounded(accounts: seq<Account>, cap: nat) {
    forall i :: 0 <= i < |accounts| ==> EntryBounded(accounts[i].position, cap)
  }

  /** Sums over all accounts after a trade. */
  lemma {:induction false} SumsAfterTrade(l: Ledger, t: Trade, o: Outcome)
    requires t.taker < |l.accounts| && t.maker < |l.accounts| && t.feeAccount < |l.accounts| && t.taker != t.maker
    ensures var a, after := l.accounts, Settle(l, t, o).accounts;
            var p, q := a[t.taker].position, a[t.maker].position;
            && Sum(after, Usdc) == Sum(a, Usdc) + o.takerUsdc + o.makerUsdc + o.feeUsdc
            && Sum(after, Size) == Sum(a, Size) + o.taker.size + o.maker.size - p.size - q.size
            && Sum(after, AbsSize)
                 == Sum(a, AbsSize) + Abs(o.taker.size) + Abs(o.maker.size) - Abs(p.size) - Abs(q.size)
            && Sum(after, NoSize)
                 == Sum(a, NoSize) + NoShares(o.taker) + NoShares(o.maker) - NoShares(p) - NoShares(q)
  {
    SumOfCredits(l, t, o, Usdc);
    SumOfCredits(l, t, o, Size);
    SumOfCredits(l, t, o, AbsSize);
    SumOfCredits(l, t, o, NoSize);
  }

  lemma {:induction false} SumOfCredits(l: Ledger, t: Trade, o: Outcome, f: Account -> int)
    requires t.taker < |l.accounts| && t.maker < |l.accounts| && t.feeAccount < |l.accounts|
    ensures var one := Credit(l.accounts, t.taker, o.takerUsdc, o.taker);
            var two := Credit(one, t.maker, o.makerUsdc, o.maker);
            Sum(Settle(l, t, o).accounts, f)
              == Sum(l.accounts, f) - f(l.accounts[t.taker]) + f(one[t.taker]) - f(one[t.maker]) + f(two[t.maker])
                 - f(two[t.feeAccount]) + f(Account(two[t.feeAccount].usdc + o.feeUsdc, two[t.feeAccount].position))
  {
    var one := Credit(l.accounts, t.taker, o.takerUsdc, o.taker);
    var two := Credit(one, t.maker, o.makerUsdc, o.maker);
    SumUpdate(l.accounts, t.taker, one[t.taker], f);
    SumUpdate(one, t.maker, two[t.maker], f);
    SumUpdate(two, t.feeAccount, Account(two[t.feeAccount].usdc + o.feeUsdc, two[t.feeAccount].position), f);
  }

  /** Balances and NO exposure of one trade cancel, wherever the fees go. */
  ghost predicate Funded(m: Market, taker: Position, maker: Position, r: Outcome) {
    && r.takerUsdc + r.makerUsdc + r.feeUsdc
         == -(m.settlementCap * m.quoteExtensionMultiplier
              * (NoShares(r.taker) + NoShares(r.maker) - NoShares(taker) - NoShares(maker)))
    && r.taker.size + r.maker.size == taker.size + maker.size
    && r.openInterest - m.openInterest == Abs(r.taker.size) + Abs(r.maker.size) - Abs(taker.size) - Abs(maker.size)
  }

  lemma {:induction false} TradeIsFunded(
    m: Market, taker: Position, maker: Position, o: Order, feeIsTaker: bool, feeIsMaker: bool)
    requires ApplyTrade(true, m, taker, maker, o, feeIsTaker, feeIsMaker).Some? && !(feeIsTaker && feeIsMaker)
    ensures Funded(m, taker, maker, ApplyTrade(true, m, taker, maker, o, feeIsTaker, feeIsMaker).value)
  {
    var r := ApplyTrade(true, m, taker, maker, o, feeIsTaker, feeIsMaker).value;
    TradeMovesUsdc(m, taker, maker, o, feeIsTaker, feeIsMaker);
    TradeMovesSizes(m, taker, maker, o, feeIsTaker, feeIsMaker);
    FundedFrom(m, taker, maker, r, BuyerClose(taker, maker, o), SellerOpen(taker, maker, o), o.quote);
  }

  function BuyerClose(taker: Position, maker: Position, o: Order): nat {
    if o.isTakerAsk then CloseAmount(maker, false, o.base) else CloseAmount(taker, false, o.base)
  }

  function SellerOpen(taker: Position, maker: Position, o: Order): nat {
    o.base - if o.isTakerAsk then CloseAmount(taker, true, o.base) else CloseAmount(maker, true, o.base)
  }

  lemma {:induction false} FundedFrom(
    m: Market, taker: Position, maker: Position, r: Outcome, close: int, open: int, quote: int)
    requires r.takerUsdc + r.makerUsdc + r.feeUsdc
          == (close * m.settlementCap - quote) * m.quoteExtensionMultiplier
             + (quote - open * m.settlementCap) * m.quoteExtensionMultiplier
    requires NoShares(r.taker) + NoShares(r.maker) - NoShares(taker) - NoShares(maker) == open - close
    requires r.taker.size + r.maker.size == taker.size + maker.size
    requires r.openInterest - m.openInterest
          == Abs(r.taker.size) + Abs(r.maker.size) - Abs(taker.size) - Abs(maker.size)
    ensures Funded(m, taker, maker, r)
  {
    Escrowed(close, open, quote, m.settlementCap, m.quoteExtensionMultiplier);
  }

  lemma {:induction false} TradeMovesUsdc(
    m: Market, taker: Position, maker: Position, o: Order, feeIsTaker: bool, feeIsMaker: bool)
    requires o.quote >= 0 && o.takerFee >= 0 && !(feeIsTaker && feeIsMaker)
    ensures var r := ApplyTrade(true, m, taker, maker, o, feeIsTaker, feeIsMaker).value;
            r.takerUsdc + r.makerUsdc + r.feeUsdc
              == (BuyerClose(taker, maker, o) * m.settlementCap - o.quote) * m.quoteExtensionMultiplier
                 + (o.quote - SellerOpen(taker, maker, o) * m.settlementCap) * m.quoteExtensionMultiplier
  {
  }

  lemma {:induction false} TradeMovesSizes(
    m: Market, taker: Position, maker: Position, o: Order, feeIsTaker: bool, feeIsMaker: bool)
    requires o.quote >= 0 && o.takerFee >= 0
    ensures var r := ApplyTrade(true, m, taker, maker, o, feeIsTaker, feeIsMaker).value;
            && NoShares(r.taker) + NoShares(r.maker) - NoShares(taker) - NoShares(maker)
                 == SellerOpen(taker, maker, o) - BuyerClose(taker, maker, o)
            && r.taker.size + r.maker.size == taker.size + maker.size
            && r.openInterest - m.openInterest
                 == Abs(r.taker.size) + Abs(r.maker.size) - Abs(taker.size) - Abs(maker.size)
  {
    SizeAfterTrade(taker, o.isTakerAsk, o.base);
    SizeAfterTrade(maker, !o.isTakerAsk, o.base);
    ExposureMoves(taker, maker, o.isTakerAsk, o.base);
  }

  /** NO exposure grows by what the seller opens and shrinks by what the buyer closes. */
  lemma {:induction false} ExposureMoves(taker: Position, maker: Position, isTakerAsk: bool, base: nat)
    ensures var takerSize := if isTakerAsk then taker.size - base else taker.size + base;
            var makerSize := if !isTakerAsk then maker.size - base else maker.size + base;
            var buyerClose := if isTakerAsk then CloseAmount(maker, false, base) else CloseAmount(taker, false, base);
            var sellerClose := if isTakerAsk then CloseAmount(taker, true, base) else CloseAmount(maker, true, base);
            NoShares(Position(takerSize, 0)) + NoShares(Position(makerSize, 0)) - NoShares(taker) - NoShares(maker)
              == base - sellerClose - buyerClose
  {
  }

  lemma {:induction false} Escrowed(close: int, open: int, quote: int, cap: int, qem: int)
    ensures (close * cap - quote) * qem + (quote - open * cap) * qem == -(cap * qem * (open - close))
  {
    assert (close * cap - quote) * qem + (quote - open * cap) * qem == (close * cap - open * cap) * qem;
    assert close * cap - open * cap == cap * (close - open);
    assert cap * (close - open) * qem == cap * qem * (close - open);
    assert cap * qem * (close - open) == -(cap * qem * (open - close));
  }

  lemma {:induction false} FundedKeepsSound(l: Ledger, m: Market, t: Trade, o: Outcome)
    requires t.taker < |l.accounts| && t.maker < |l.accounts| && t.feeAccount < |l.accounts| && t.taker != t.maker
    requires Sound(l)
    requires Funded(m.(openInterest := l.openInterest), l.accounts[t.taker].position, l.accounts[t.maker].position, o)
    ensures Sound(Settle(l, t, o))
    ensures Wealth(Settle(l, t, o), m) == Wealth(l, m)
  {
    SumsAfterTrade(l, t, o);
    WealthMoves(m.settlementCap * m.quoteExtensionMultiplier, Sum(l.accounts, Usdc), Sum(l.accounts, NoSize),
                Sum(Settle(l, t, o).accounts, Usdc), Sum(Settle(l, t, o).accounts, NoSize));
  }

  lemma {:induction false} WealthMoves(c: int, usdc: int, no: int, usdcAfter: int, noAfter: int)
    requires usdcAfter == usdc - c * (noAfter - no)
    ensures usdcAfter + c * noAfter == usdc + c * no
  {
    assert c * (noAfter - no) == c * noAfter - c * no;
  }

  lemma {:induction false} SettleKeepsEntries(l: Ledger, t: Trade, o: Outcome, cap: nat)
    requires t.taker < |l.accounts| && t.maker < |l.accounts| && t.feeAccount < |l.accounts|
    requires EntriesBounded(l.accounts, cap) && EntryBounded(o.taker, cap) && EntryBounded(o.maker, cap)
    ensures EntriesBounded(Settle(l, t, o).accounts, cap)
  {
    var one := Credit(l.accounts, t.taker, o.takerUsdc, o.taker);
    assert EntriesBounded(one, cap);
    assert EntriesBounded(Credit(one, t.maker, o.makerUsdc, o.maker), cap);
  }

  lemma {:induction false} TradeKeepsSound(l: Ledger, m: Market, t: Trade)
    requires Sound(l) && Executes(l, m, t)
    ensures Sound(Execute(l, m, t))
    ensures Wealth(Execute(l, m, t), m) == Wealth(l, m)
  {
    var p, q := l.accounts[t.taker].position, l.accounts[t.maker].position;
    TradeIsFunded(m.(openInterest := l.openInterest), p, q, t.order, t.feeAccount == t.taker, t.feeAccount == t.maker);
    FundedKeepsSound(l, m, t, Outcomes(l, m, t).value);
  }

  lemma {:induction false} TradeKeepsEntries(l: Ledger, m: Market, t: Trade)
    requires EntriesBounded(l.accounts, m.settlementCap) && Executes(l, m, t)
    requires t.order.quote <= m.settlementCap * t.order.base
    ensures EntriesBounded(Execute(l, m, t).accounts, m.settlementCap)
  {
    var p, q := l.accounts[t.taker].position, l.accounts[t.maker].position;
    EntryStaysBounded(p, t.order.isTakerAsk, t.order.base, t.order.quote, m.settlementCap);
    EntryStaysBounded(q, !t.order.isTakerAsk, t.order.base, t.order.quote, m.settlementCap);
    SettleKeepsEntries(l, t, Outcomes(l, m, t).value, m.settlementCap);
  }

  /** Size and entry quote of 56 bits. */
  predicate Narrow(p: Position) {
    p.entryQuote <= 0xFF_FFFF_FFFF_FFFF && Abs(p.size) <= 0xFF_FFFF_FFFF_FFFF
  }

  /** Where no binary options trade happens nothing moves and everything is valid. */
  lemma {:induction false} DisabledMovesNothing(
    m: Market, taker: Position, maker: Position, o: Order, feeIsTaker: bool, feeIsMaker: bool)
    requires Narrow(taker) && Narrow(maker)
    ensures ApplyTrade(false, m, taker, maker, o, feeIsTaker, feeIsMaker)
         == Some(Outcome(taker, maker, 0, 0, 0, m.openInterest, true, true, true))
  {
    NothingBooked(taker, o.isTakerAsk, m.settlementCap);
    NothingBooked(maker, !o.isTakerAsk, m.settlementCap);
    assert 0 * o.takerFee == 0 && 0 * o.makerFee == 0 && 0 * (m.quoteExtensionMultiplier / FEE_TICK) == 0;
  }

  lemma {:induction false} NothingBooked(p: Position, isAsk: bool, cap: nat)
    requires Narrow(p)
    ensures CalculatePositionChange(p, isAsk, 0, 0, cap) == Change(0, 0, p, true)
  {
    assert p.entryQuote * 0 == 0 && 0 * cap == 0;
  }

  /** A trade is refused exactly for a negative quote or taker fee, positions are valid exactly within 56 bits, and
      open interest may grow only while the escrow of all shares is within the market's limit. */
  lemma {:induction false} TradeIsAdmittedIff(
    m: Market, taker: Position, maker: Position, o: Order, feeIsTaker: bool, feeIsMaker: bool)
    ensures var r := ApplyTrade(true, m, taker, maker, o, feeIsTaker, feeIsMaker);
            && (r.None? <==> o.quote < 0 || o.takerFee < 0)
            && (r.Some? ==>
                  && (r.value.takerValid <==> Narrow(r.value.taker)) && (r.value.makerValid <==> Narrow(r.value.maker)))
            && (r.Some? ==>
                  var grows, escrow := r.value.openInterest > m.openInterest, r.value.openInterest * m.settlementCap;
                  r.value.openInterestValid <==> (grows ==> escrow <= m.openInterestLimit))
  {
  }

  // Runs and settlement

  predicate RunExecutes(l: Ledger, m: Market, trades: seq<Trade>)
    decreases |trades|
  {
    trades == [] || (Executes(l, m, trades[0]) && RunExecutes(Execute(l, m, trades[0]), m, trades[1..]))
  }

  function RunTrades(l: Ledger, m: Market, trades: seq<Trade>): Ledger
    requires RunExecutes(l, m, trades)
    decreases |trades|
  {
    if trades == [] then l else RunTrades(Execute(l, m, trades[0]), m, trades[1..])
  }

  lemma {:induction false} RunKeepsSound(l: Ledger, m: Market, trades: seq<Trade>)
    requires Sound(l) && RunExecutes(l, m, trades)
    ensures Sound(RunTrades(l, m, trades))
    ensures Wealth(RunTrades(l, m, trades), m) == Wealth(l, m)
    decreases |trades|
  {
    if trades != [] {
      TradeKeepsSound(l, m, trades[0]);
      RunKeepsSound(Execute(l, m, trades[0]), m, trades[1..]);
    }
  }

  /** In every reachable state of a market that trades within its cap no position books more than the cap
      for each of its shares; an empty position books nothing. */
  lemma {:induction false} RunKeepsEntries(l: Ledger, m: Market, trades: seq<Trade>)
    requires EntriesBounded(l.accounts, m.settlementCap) && RunExecutes(l, m, trades)
    requires forall i :: 0 <= i < |trades| ==> trades[i].order.quote <= m.settlementCap * trades[i].order.base
    ensures EntriesBounded(RunTrades(l, m, trades).accounts, m.settlementCap)
    decreases |trades|
  {
    if trades != [] {
      TradeKeepsEntries(l, m, trades[0]);
      RunKeepsEntries(Execute(l, m, trades[0]), m, trades[1..]);
    }
  }

  /** What a position receives at a settlement price. */
  function Payout(p: Position, price: nat, m: Market): int
    requires price <= m.settlementCap
  {
    Abs(p.size) * (if p.size < 0 then m.settlementCap - price else price) * m.quoteExtensionMultiplier
  }

  function TotalPayout(accounts: seq<Account>, price: nat, m: Market): int
    requires price <= m.settlementCap
  {
    if accounts == [] then 0
    else TotalPayout(accounts[..|accounts| - 1], price, m) + Payout(accounts[|accounts| - 1].position, price, m)
  }

  /** Each side is treated fairly on its own: valued at any settlement price, the buyer gains the price of all
      shares traded less the quote and the seller loses as much, both less their own fee and whatever part of
      the position the trade closed or opened; fees go to the fee account. */
  lemma {:induction false} SidesAreFair(
    m: Market, taker: Position, maker: Position, o: Order, feeIsTaker: bool, feeIsMaker: bool, price: nat)
    requires o.quote >= 0 && o.takerFee >= 0 && price <= m.settlementCap
    ensures var r := ApplyTrade(true, m, taker, maker, o, feeIsTaker, feeIsMaker).value;
            var worth := m.quoteExtensionMultiplier * (price * o.base - o.quote);
            var takerFee, makerFee := FeeOf(m, o.quote, o.takerFee), FeeOf(m, o.quote, o.makerFee);
            && Payout(r.taker, price, m) - Payout(taker, price, m) + r.takerUsdc
                 == (if o.isTakerAsk then -worth else worth) - takerFee
                    + (if feeIsTaker then takerFee + makerFee else 0)
            && Payout(r.maker, price, m) - Payout(maker, price, m) + r.makerUsdc
                 == (if o.isTakerAsk then worth else -worth) - makerFee
                    + (if feeIsMaker then takerFee + makerFee else 0)
            && r.feeUsdc == (if feeIsTaker || feeIsMaker then 0 else takerFee + makerFee)
  {
    var r := ApplyTrade(true, m, taker, maker, o, feeIsTaker, feeIsMaker).value;
    FeesByMultiplier(m, o);
    PayoutMoves(taker, o.isTakerAsk, o.base, r.taker, price, m);
    PayoutMoves(maker, !o.isTakerAsk, o.base, r.maker, price, m);
    SideUsdc(m, taker, maker, o, feeIsTaker, feeIsMaker);
    var qem, cap := m.quoteExtensionMultiplier, m.settlementCap;
    var close, open := BuyerClose(taker, maker, o), SellerOpen(taker, maker, o);
    FairArithmetic(qem, price, cap, o.base, o.quote, close, open);
  }

  /** A fee in extended units: the multiplier is a multiple of the fee tick. */
  function FeeOf(m: Market, quote: int, fee: int): int {
    quote * fee * (m.quoteExtensionMultiplier / FEE_TICK)
  }

  lemma {:induction false} FeesByMultiplier(m: Market, o: Order)
    ensures var enabled := o.takerFee != 0 || o.makerFee != 0;
            && FeeDelta(m, o.quote, o.takerFee, enabled) == FeeOf(m, o.quote, o.takerFee)
            && FeeDelta(m, o.quote, o.makerFee, enabled) == FeeOf(m, o.quote, o.makerFee)
  {
  }

  /** How a payout moves with the part of a trade that is closed. */
  lemma {:induction false} PayoutMoves(pos: Position, isAsk: bool, base: nat, after: Position, price: nat, m: Market)
    requires price <= m.settlementCap && after.size == if isAsk then pos.size - base else pos.size + base
    ensures var close, qem, cap := CloseAmount(pos, isAsk, base), m.quoteExtensionMultiplier, m.settlementCap;
            Payout(after, price, m) - Payout(pos, price, m)
              == if isAsk then qem * (cap * (base - close) - price * base) else qem * (price * base - cap * close)
  {
    PayoutOfOne(pos, price, m);
    PayoutOfOne(after, price, m);
    var close: int := CloseAmount(pos, isAsk, base);
    var moved := if isAsk then base - close else -close;
    NoSharesMove(pos, isAsk, base, after);
    PayoutSplits(m.quoteExtensionMultiplier, price, m.settlementCap, pos.size, after.size - pos.size, NoShares(pos),
                 moved);
    Negated(price, base, m.settlementCap, close);
  }

  lemma {:induction false} NoSharesMove(pos: Position, isAsk: bool, base: nat, after: Position)
    requires after.size == if isAsk then pos.size - base else pos.size + base
    ensures var close: int := CloseAmount(pos, isAsk, base);
            NoShares(after) == NoShares(pos) + if isAsk then base - close else -close
  {
  }

  lemma {:induction false} Negated(price: int, base: int, cap: int, close: int)
    ensures price * -base == -(price * base) && cap * -close == -(cap * close)
  {
  }

  lemma {:induction false} PayoutSplits(qem: int, price: int, cap: int, size: int, delta: int, no: int, moved: int)
    ensures qem * (price * (size + delta) + cap * (no + moved)) - qem * (price * size + cap * no)
         == qem * (price * delta + cap * moved)
  {
    AddUp(qem, price, cap, size, delta, no, moved);
  }

  lemma {:induction false} SideUsdc(
    m: Market, taker: Position, maker: Position, o: Order, feeIsTaker: bool, feeIsMaker: bool)
    requires o.quote >= 0 && o.takerFee >= 0
    ensures var r := ApplyTrade(true, m, taker, maker, o, feeIsTaker, feeIsMaker).value;
            var enabled := o.takerFee != 0 || o.makerFee != 0;
            var t, k := FeeDelta(m, o.quote, o.takerFee, enabled), FeeDelta(m, o.quote, o.makerFee, enabled);
            var buyer := (BuyerClose(taker, maker, o) * m.settlementCap - o.quote) * m.quoteExtensionMultiplier;
            var seller := (o.quote - SellerOpen(taker, maker, o) * m.settlementCap) * m.quoteExtensionMultiplier;
            && r.takerUsdc == (if o.isTakerAsk then seller else buyer) - t + (if feeIsTaker then t + k else 0)
            && r.makerUsdc == (if o.isTakerAsk then buyer else seller) - k + (if feeIsMaker then t + k else 0)
            && r.feeUsdc == (if feeIsTaker || feeIsMaker then 0 else t + k)
            && r.taker.size == (if o.isTakerAsk then taker.size - o.base else taker.size + o.base)
            && r.maker.size == (if !o.isTakerAsk then maker.size - o.base else maker.size + o.base)
  {
  }

  lemma {:induction false} FairArithmetic(qem: int, price: int, cap: int, base: int, quote: int, close: int, open: int)
    ensures qem * (price * base - cap * close) + (close * cap - quote) * qem == qem * (price * base - quote)
    ensures qem * (cap * open - price * base) + (quote - open * cap) * qem == -(qem * (price * base - quote))
  {
    assert qem * (price * base - cap * close) == qem * (price * base) - qem * (cap * close);
    assert (close * cap - quote) * qem == qem * (cap * close) - qem * quote;
    assert qem * (cap * open - price * base) == qem * (cap * open) - qem * (price * base);
    assert (quote - open * cap) * qem == qem * quote - qem * (cap * open);
  }

  lemma {:induction false} PayoutBySides(accounts: seq<Account>, price: nat, m: Market)
    requires price <= m.settlementCap
    ensures TotalPayout(accounts, price, m)
         == m.quoteExtensionMultiplier * (price * Sum(accounts, Size) + m.settlementCap * Sum(accounts, NoSize))
  {
    if accounts != [] {
      var last := accounts[|accounts| - 1];
      var front := accounts[..|accounts| - 1];
      PayoutBySides(front, price, m);
      var qem, cap := m.quoteExtensionMultiplier, m.settlementCap;
      PayoutOfOne(last.position, price, m);
      AddUp(qem, price, cap, Sum(front, Size), Size(last), Sum(front, NoSize), NoSize(last));
    }
  }

  lemma {:induction false} PayoutOfOne(p: Position, price: nat, m: Market)
    requires price <= m.settlementCap
    ensures Payout(p, price, m) == m.quoteExtensionMultiplier * (price * p.size + m.settlementCap * NoShares(p))
  {
    if p.size < 0 {
      assert -p.size * (m.settlementCap - price) == price * p.size + m.settlementCap * -p.size;
    }
  }

  lemma {:induction false} AddUp(k: int, p: int, c: int, s: int, ds: int, n: int, dn: int)
    ensures k * (p * s + c * n) + k * (p * ds + c * dn) == k * (p * (s + ds) + c * (n + dn))
  {
    assert p * (s + ds) == p * s + p * ds && c * (n + dn) == c * n + c * dn;
  }

  /** Solvency. After any run of accepted trades, whatever the settlement price, all payouts together are
      exactly the escrow, so balances plus payouts equal the wealth the market started with. */
  lemma {:induction false} SettlementIsExact(l: Ledger, m: Market, trades: seq<Trade>, price: nat)
    requires Sound(l) && RunExecutes(l, m, trades) && price <= m.settlementCap
    ensures var end := RunTrades(l, m, trades);
            && Sum(end.accounts, Size) == 0
            && end.openInterest == Sum(end.accounts, AbsSize)
            && TotalPayout(end.accounts, price, m)
                 == m.settlementCap * m.quoteExtensionMultiplier * Sum(end.accounts, NoSize)
            && Sum(end.accounts, Usdc) + TotalPayout(end.accounts, price, m) == Wealth(l, m)
  {
    RunKeepsSound(l, m, trades);
    BalancedPayout(RunTrades(l, m, trades).accounts, price, m);
  }

  lemma {:induction false} BalancedPayout(accounts: seq<Account>, price: nat, m: Market)
    requires price <= m.settlementCap && Sum(accounts, Size) == 0
    ensures TotalPayout(accounts, price, m) == m.settlementCap * m.quoteExtensionMultiplier * Sum(accounts, NoSize)
  {
    PayoutBySides(accounts, price, m);
    Commute(m.quoteExtensionMultiplier, price, m.settlementCap, Sum(accounts, NoSize));
  }

  lemma {:induction false} Commute(q: int, p: int, c: int, n: int)
    ensures q * (p * 0 + c * n) == c * q * n
  {
    assert q * (c * n) == (q * c) * n;
  }
}
