/** The impact price: the average price of the best orders that make up a given notional. */
module ImpactPrice {
  import opened Options
  import opened SparseTree
  import opened MerkleOpenings
  import opened Numbers
  import opened Shifts
  import opened BookTree

  /** The amounts of the book's own side: asks for an ask impact price. */
  function SideOf(isAsk: bool, s: Sums): Amounts {
    Opposite(!isAsk, s)
  }

  /** None when one of the two range assertions on the presented leaf fails; zero when the side holds too little. */
  function ImpactFrom(
    shouldUpdate: bool, isAsk: bool, notional: int, total: int, before: Amounts, leafQuote: int, price: nat)
    : Option<int>
  {
    if notional > total then Some(0)
    else if shouldUpdate && !(before.quote < notional <= before.quote + leafQuote) then None
    else Some(AveragePrice(isAsk, notional, before, price))
  }

  function GetImpactPrice(
    shouldUpdate: bool, isAsk: bool, notional: int, order: Sums, price: nat, path: seq<PathNode>, helpers: seq<bool>)
    : Option<int>
    requires |path| == |helpers| && path != []
  {
    ImpactFrom(shouldUpdate, isAsk, notional, SideOf(isAsk, path[|path| - 1].sums).quote,
               PathQuote(!isAsk, order, path, helpers), SideOf(isAsk, order).quote, price)
  }

  function AveragePrice(isAsk: bool, notional: int, before: Amounts, price: nat): int {
    var leafBase := CeilDiv(Abs(notional - before.quote), price);
    var base, quote := before.base + leafBase, before.quote + leafBase * price;
    if isAsk then CeilDiv(Abs(quote), Abs(base)) else Div(Abs(quote), Abs(base))
  }

  // Books whose orders carry their price

  /** The orders below `top` list amounts that are not negative, and quotes that are base times the price of
      their index. */
  ghost predicate Priced(f: nat -> Sums, price: nat -> nat, top: nat) {
    && (forall i: nat :: i < top ==> f(i).askBase >= 0 && f(i).bidBase >= 0)
    && (forall i: nat :: i < top ==>
          f(i).askQuote == f(i).askBase * price(i) && f(i).bidQuote == f(i).bidBase * price(i))
    && (forall i: nat, j: nat :: i <= j < top ==> price(i) <= price(j))
  }

  /** The price bits of an index. */
  function PriceOf(index: nat, nonceBits: nat): nat {
    if nonceBits == 0 then index else PriceOf(index / 2, nonceBits - 1)
  }

  lemma {:induction false} PriceOfOrderIndex(price: nat, nonce: nat, bits: nat)
    requires nonce < ShiftLeft(1, bits)
    ensures PriceOf(OrderIndex(price, nonce, bits), bits) == price
  {
    if bits > 0 {
      HalfOfSum(ShiftLeft(price, bits - 1), nonce);
      PriceOfOrderIndex(price, nonce / 2, bits - 1);
    }
  }

  lemma {:induction false} PriceOfMonotone(i: nat, j: nat, bits: nat)
    requires i <= j
    ensures PriceOf(i, bits) <= PriceOf(j, bits)
  {
    if bits > 0 {
      PriceOfMonotone(i / 2, j / 2, bits - 1);
    }
  }

  lemma {:induction false} QuotesNotNegative(f: nat -> Sums, price: nat -> nat, isAsk: bool, i: nat, top: nat)
    requires Priced(f, price, top) && i < top
    ensures SideOf(isAsk, f(i)).base >= 0 && SideOf(isAsk, f(i)).quote >= 0
    ensures SideOf(isAsk, f(i)).quote == SideOf(isAsk, f(i)).base * price(i)
  {
  }

  /** All orders of one side in a range are priced between two bounds. */
  ghost predicate PricedWithin(f: nat -> Sums, price: nat -> nat, isAsk: bool, lo: nat, hi: nat, low: nat, high: nat) {
    forall i: nat :: lo <= i < hi && SideOf(isAsk, f(i)).base != 0 ==> low <= price(i) <= high
  }

  /** Then so is their sum. */
  lemma {:induction false} RangeIsPriced(
    f: nat -> Sums, price: nat -> nat, isAsk: bool, lo: nat, hi: nat, low: nat, high: nat, top: nat)
    requires Priced(f, price, top) && hi <= top && PricedWithin(f, price, isAsk, lo, hi, low, high)
    ensures var s := SideOf(isAsk, RangeSum(f, lo, hi));
            s.base >= 0 && s.quote >= 0 && low * s.base <= s.quote <= high * s.base
  {
    if lo < hi {
      RangeIsPriced(f, price, isAsk, lo, hi - 1, low, high, top);
      QuotesNotNegative(f, price, isAsk, hi - 1, top);
      OneIsPriced(SideOf(isAsk, f(hi - 1)).base, price(hi - 1), low, high);
      var front, last := SideOf(isAsk, RangeSum(f, lo, hi - 1)), SideOf(isAsk, f(hi - 1));
      BoundsAdd(low, high, front.base, front.quote, last.base, last.quote);
    }
  }

  lemma {:induction false} OneIsPriced(base: int, price: nat, low: nat, high: nat)
    requires base >= 0 && (base != 0 ==> low <= price <= high)
    ensures low * base <= base * price <= high * base
  {
    if base != 0 {
      MulMono(low, price, base);
      MulMono(price, high, base);
    }
  }

  /** Where the cumulated quote before index `i` stands, best order first. */
  function Before(f: nat -> Sums, isAsk: bool, i: nat, end: nat): Amounts {
    SideOf(isAsk, if isAsk then RangeSum(f, 0, i) else RangeSum(f, i + 1, end))
  }

  ghost predicate Marginal(f: nat -> Sums, isAsk: bool, notional: int, i: nat, end: nat) {
    Before(f, isAsk, i, end).quote < notional <= Before(f, isAsk, i, end).quote + SideOf(isAsk, f(i)).quote
  }

  lemma {:induction false} RangeSumFront(f: nat -> Sums, lo: nat, hi: nat)
    requires lo < hi
    ensures RangeSum(f, lo, hi) == Plus(f(lo), RangeSum(f, lo + 1, hi))
  {
    RangeSumConcat(f, lo, lo + 1, hi);
    assert RangeSum(f, lo, lo) == NO_SUMS;
    assert RangeSum(f, lo, lo + 1) == Plus(NO_SUMS, f(lo));
  }

  lemma {:induction false} QuoteOfRange(
    f: nat -> Sums, price: nat -> nat, isAsk: bool, lo: nat, hi: nat, top: nat)
    requires Priced(f, price, top) && hi <= top
    ensures SideOf(isAsk, RangeSum(f, lo, hi)).quote >= 0
  {
    if lo < hi {
      QuoteOfRange(f, price, isAsk, lo, hi - 1, top);
      QuotesNotNegative(f, price, isAsk, hi - 1, top);
    }
  }

  /** A better order is wholly contained in what comes before a worse one. */
  lemma {:induction false} BeforeGrows(
    f: nat -> Sums, price: nat -> nat, isAsk: bool, better: nat, worse: nat, end: nat)
    requires Priced(f, price, end) && worse < end && better < end
    requires if isAsk then better < worse else worse < better
    ensures Before(f, isAsk, better, end).quote + SideOf(isAsk, f(better)).quote <= Before(f, isAsk, worse, end).quote
  {
    if isAsk {
      RangeSumConcat(f, 0, better + 1, worse);
      QuoteOfRange(f, price, isAsk, better + 1, worse, end);
    } else {
      RangeSumFront(f, better, end);
      RangeSumConcat(f, worse + 1, better, end);
      QuoteOfRange(f, price, isAsk, worse + 1, better, end);
    }
  }

  /** At most one leaf passes both range assertions. */
  lemma {:induction false} MarginalIsUnique(
    f: nat -> Sums, price: nat -> nat, isAsk: bool, notional: int, i: nat, j: nat, end: nat)
    requires Priced(f, price, end) && i < end && j < end
    requires Marginal(f, isAsk, notional, i, end) && Marginal(f, isAsk, notional, j, end)
    ensures i == j
  {
    if i != j {
      var better := if (i < j) == isAsk then i else j;
      BeforeGrows(f, price, isAsk, better, i + j - better, end);
      assert false;
    }
  }

  /** As long as the book holds the notional, some leaf passes them. */
  lemma {:induction false} MarginalExists(f: nat -> Sums, isAsk: bool, notional: int, end: nat) returns (i: nat)
    requires 0 < notional <= SideOf(isAsk, RangeSum(f, 0, end)).quote
    ensures i < end && Marginal(f, isAsk, notional, i, end)
  {
    if isAsk {
      i := end - 1;
      while SideOf(true, RangeSum(f, 0, i)).quote >= notional
        invariant i < end && notional <= SideOf(true, RangeSum(f, 0, i + 1)).quote
        decreases i
      {
        i := i - 1;
      }
    } else {
      i := 0;
      RangeSumFront(f, 0, end);
      while SideOf(false, RangeSum(f, i + 1, end)).quote >= notional
        invariant i < end && notional <= SideOf(false, RangeSum(f, i, end)).quote
        invariant RangeSum(f, i, end) == Plus(f(i), RangeSum(f, i + 1, end))
        decreases end - i
      {
        assert i + 1 < end;
        i := i + 1;
        RangeSumFront(f, i, end);
      }
    }
  }

  /** Rounded averages of a quantity bounded by two prices stay between them. */
  lemma {:induction false} AverageBounded(quote: nat, base: nat, low: nat, high: nat)
    requires base > 0 && low * base <= quote <= high * base
    ensures low <= Div(quote, base) <= high && low <= CeilDiv(quote, base) <= high
  {
    DivIsLargest(quote, base, low);
    DivIsSmallest(quote, base, high);
    assert quote == quote / base * base + quote % base;
    if quote % base != 0 && CeilDiv(quote, base) > high {
      MulMono(high, Div(quote, base), base);
      assert false;
    }
  }

  /** `best` is at least as good a price as that of any order of the side. */
  ghost predicate IsBestBound(f: nat -> Sums, price: nat -> nat, isAsk: bool, end: nat, best: nat) {
    forall j: nat :: j < end && SideOf(isAsk, f(j)).base != 0 ==> if isAsk then best <= price(j) else price(j) <= best
  }

  /** Better orders than a leaf that has one are priced between the best price and the leaf's. */
  lemma {:induction false} BeforeIsPriced(
    f: nat -> Sums, price: nat -> nat, isAsk: bool, i: nat, end: nat, best: nat)
    requires Priced(f, price, end) && i < end && IsBestBound(f, price, isAsk, end, best)
    requires SideOf(isAsk, f(i)).base != 0
    ensures var b := Before(f, isAsk, i, end);
            var low, high := if isAsk then best else price(i), if isAsk then price(i) else best;
            b.base >= 0 && b.quote >= 0 && low * b.base <= b.quote <= high * b.base && low <= price(i) <= high
  {
    if isAsk {
      RangeIsPriced(f, price, isAsk, 0, i, best, price(i), end);
    } else {
      RangeIsPriced(f, price, isAsk, i + 1, end, price(i), best, end);
    }
  }

  /** The average of amounts priced between two bounds and a rounded-up part of a leaf is between them too. */
  lemma {:induction false} AverageWithLeaf(isAsk: bool, notional: int, before: Amounts, price: nat, low: nat, high: nat)
    requires before.base >= 0 && before.quote >= 0 && price > 0 && before.quote < notional
    requires low * before.base <= before.quote <= high * before.base && low <= price <= high
    ensures low <= AveragePrice(isAsk, notional, before, price) <= high
  {
    var leaf := CeilDiv(notional - before.quote, price);
    assert leaf > 0 by { DivBounds(notional - before.quote, price); }
    OneIsPriced(leaf, price, low, high);
    BoundsAdd(low, high, before.base, before.quote, leaf, leaf * price);
    AverageBounded(before.quote + leaf * price, before.base + leaf, low, high);
  }

  lemma {:induction false} MarginalLeafHasOrder(
    f: nat -> Sums, price: nat -> nat, isAsk: bool, notional: int, i: nat, end: nat)
    requires Priced(f, price, end) && i < end && Marginal(f, isAsk, notional, i, end)
    ensures SideOf(isAsk, f(i)).base != 0 && price(i) > 0
  {
    QuotesNotNegative(f, price, isAsk, i, end);
    Factors(SideOf(isAsk, f(i)).base, price(i));
  }

  lemma {:induction false} Factors(a: int, b: int)
    requires a * b != 0
    ensures a != 0 && b != 0
  {
  }

  /** For the one accepted leaf the impact price lies between the best price and the leaf's own. */
  lemma {:induction false} AverageBetweenBestAndMarginal(
    f: nat -> Sums, price: nat -> nat, isAsk: bool, notional: int, i: nat, end: nat, best: nat)
    requires Priced(f, price, end) && i < end && Marginal(f, isAsk, notional, i, end)
    requires IsBestBound(f, price, isAsk, end, best)
    ensures var average := AveragePrice(isAsk, notional, Before(f, isAsk, i, end), price(i));
            if isAsk then best <= average <= price(i) else price(i) <= average <= best
  {
    MarginalLeafHasOrder(f, price, isAsk, notional, i, end);
    BeforeIsPriced(f, price, isAsk, i, end, best);
    AverageWithLeaf(isAsk, notional, Before(f, isAsk, i, end), price(i), if isAsk then best else price(i),
                    if isAsk then price(i) else best);
  }

  lemma {:induction false} TopOfPath(t: Book, k: Path)
    requires k.Child? && Depth(k) <= t.depth
    ensures PathOf(t, k)[Depth(k) - 1].sums == SumsAt(t, Root)
  {
    if k.parent.Child? {
      TopOfPath(t, k.parent);
    }
  }

  lemma {:induction false} RootIsWholeRange(t: Book)
    ensures SumsAt(t, Root) == RangeSum(OrderNo(t), 0, ShiftLeft(1, t.depth))
  {
    SubtreeIsRange(t, Root);
    ShiftLeftZero(t.depth);
  }

  /** The assertions on a presented leaf, in terms of the flat book. */
  lemma {:induction false} ImpactPriceIsFlat(t: Book, k: Path, isAsk: bool, notional: int, price: nat)
    requires Depth(k) == t.depth > 0
    ensures var f, i, end := OrderNo(t), IndexOf(k), ShiftLeft(1, t.depth);
            GetImpactPrice(true, isAsk, notional, OrderAt(t, k), price, PathOf(t, k), Bits(k))
              == if notional > SideOf(isAsk, RangeSum(f, 0, end)).quote then Some(0)
                 else if !Marginal(f, isAsk, notional, i, end) then None
                 else Some(AveragePrice(isAsk, notional, Before(f, isAsk, i, end), price))
  {
    TopOfPath(t, k);
    RootIsWholeRange(t);
    BetterIsBefore(t, k, isAsk);
    LeafHasNumber(t, k);
  }

  lemma {:induction false} BetterIsBefore(t: Book, k: Path, isAsk: bool)
    requires Depth(k) == t.depth
    ensures PathQuote(!isAsk, OrderAt(t, k), PathOf(t, k), Bits(k))
         == Before(OrderNo(t), isAsk, IndexOf(k), ShiftLeft(1, t.depth))
  {
    QuoteIsBetterOrders(t, !isAsk, k);
  }

  /** What a presented leaf of the tree yields: zero when the side is too thin, otherwise a price exactly for
      the marginal leaf, and that between the best price and its own. */
  lemma {:induction false} ImpactPriceOfBook(t: Book, k: Path, isAsk: bool, notional: int, price: nat -> nat, best: nat)
    requires Depth(k) == t.depth > 0 && Priced(OrderNo(t), price, ShiftLeft(1, t.depth))
    requires IsBestBound(OrderNo(t), price, isAsk, ShiftLeft(1, t.depth), best)
    requires notional <= SideOf(isAsk, RangeSum(OrderNo(t), 0, ShiftLeft(1, t.depth))).quote
    ensures var r := GetImpactPrice(true, isAsk, notional, OrderAt(t, k), price(IndexOf(k)), PathOf(t, k), Bits(k));
            && (r.Some? <==> Marginal(OrderNo(t), isAsk, notional, IndexOf(k), ShiftLeft(1, t.depth)))
            && (r.Some? ==> if isAsk then best <= r.value <= price(IndexOf(k))
                            else price(IndexOf(k)) <= r.value <= best)
  {
    ImpactPriceIsFlat(t, k, isAsk, notional, price(IndexOf(k)));
    LeafHasNumber(t, k);
    if Marginal(OrderNo(t), isAsk, notional, IndexOf(k), ShiftLeft(1, t.depth)) {
      AverageBetweenBestAndMarginal(OrderNo(t), price, isAsk, notional, IndexOf(k), ShiftLeft(1, t.depth), best);
    }
  }

  lemma {:induction false} LeafHasNumber(t: Book, k: Path)
    requires Depth(k) == t.depth
    ensures OrderNo(t)(IndexOf(k)) == OrderAt(t, k) && IndexOf(k) < ShiftLeft(1, t.depth)
  {
    IndexNamesPath(k);
  }

  // Books priced by the price bits of their indices

  function PriceBits(nonceBits: nat): nat -> nat {
    (i: nat) => PriceOf(i, nonceBits)
  }

  /** Amounts are not negative, and quotes are base times price. */
  predicate PricedOrder(order: Sums, price: nat) {
    && order.askBase >= 0 && order.askQuote == order.askBase * price
    && order.bidBase >= 0 && order.bidQuote == order.bidBase * price
  }

  ghost predicate PricedBook(t: Book, nonceBits: nat) {
    forall i: nat :: i < ShiftLeft(1, t.depth) ==> PricedOrder(OrderNo(t)(i), PriceOf(i, nonceBits))
  }

  lemma {:induction false} PricedBookIsPriced(t: Book, nonceBits: nat)
    requires PricedBook(t, nonceBits)
    ensures Priced(OrderNo(t), PriceBits(nonceBits), ShiftLeft(1, t.depth))
  {
    forall i: nat | i < ShiftLeft(1, t.depth)
      ensures PricedOrder(OrderNo(t)(i), PriceBits(nonceBits)(i))
    {
      assert PricedOrder(OrderNo(t)(i), PriceOf(i, nonceBits));
    }
    forall i: nat, j: nat | i <= j < ShiftLeft(1, t.depth)
      ensures PriceBits(nonceBits)(i) <= PriceBits(nonceBits)(j)
    {
      PriceOfMonotone(i, j, nonceBits);
    }
  }

  /** What the block producer presents: an order with its two indices, and its path. */
  datatype Leaf = Leaf(price: nat, nonce: nat, order: Sums, path: seq<PathNode>)

  /** The leaf must open the root of the book and pass the two range assertions. */
  function AcceptedPrice(t: Book, priceBits: nat, nonceBits: nat, isAsk: bool, notional: int, leaf: Leaf)
    : Option<int>
    requires |leaf.path| == nonceBits + priceBits > 0
  {
    var helpers := OrderIndexesToMerklePath(leaf.price, leaf.nonce, priceBits, nonceBits);
    if FoldBook(HashOrder(leaf.order), leaf.path, helpers) != BookTree.HashAt(t, Root) then None
    else GetImpactPrice(true, isAsk, notional, leaf.order, leaf.price, leaf.path, helpers)
  }

  ghost predicate InRange(leaf: Leaf, priceBits: nat, nonceBits: nat) {
    && leaf.price < ShiftLeft(1, priceBits) && leaf.nonce < ShiftLeft(1, nonceBits)
    && |leaf.path| == nonceBits + priceBits
  }

  function LeafPath(leaf: Leaf, priceBits: nat, nonceBits: nat): (k: Path)
    ensures Depth(k) == nonceBits + priceBits
  {
    KeyPath(OrderIndex(leaf.price, leaf.nonce, nonceBits), nonceBits + priceBits)
  }

  lemma {:induction false} LeafIndexInRange(leaf: Leaf, priceBits: nat, nonceBits: nat)
    requires InRange(leaf, priceBits, nonceBits)
    ensures IndexOf(LeafPath(leaf, priceBits, nonceBits)) == OrderIndex(leaf.price, leaf.nonce, nonceBits)
  {
    ShiftLeftMonotone(leaf.price + 1, ShiftLeft(1, priceBits), nonceBits);
    ShiftLeftAdds(leaf.price, 1, nonceBits);
    ShiftLeftTwice(1, priceBits, nonceBits);
    PathHasIndex(OrderIndex(leaf.price, leaf.nonce, nonceBits), nonceBits + priceBits);
  }

  /** An accepted leaf is the book's own, and so is its path. */
  lemma {:induction false} AcceptedIsOwn(
    t: Book, priceBits: nat, nonceBits: nat, isAsk: bool, notional: int, leaf: Leaf)
    requires InRange(leaf, priceBits, nonceBits) && t.depth == nonceBits + priceBits > 0
    ensures var k := LeafPath(leaf, priceBits, nonceBits);
            AcceptedPrice(t, priceBits, nonceBits, isAsk, notional, leaf)
              == if leaf.order != OrderAt(t, k) || leaf.path != PathOf(t, k) then None
                 else GetImpactPrice(true, isAsk, notional, OrderAt(t, k), leaf.price, PathOf(t, k), Bits(k))
  {
    var k := LeafPath(leaf, priceBits, nonceBits);
    PathOfPriceAndNonce(leaf.price, leaf.nonce, priceBits, nonceBits);
    BookOpeningIsUnique(t, k, leaf.order, leaf.path);
  }

  /** On a side that holds the notional, the accepted leaf is the marginal one and its price is within bounds. */
  lemma {:induction false} AcceptedIsMarginal(
    t: Book, priceBits: nat, nonceBits: nat, isAsk: bool, notional: int, leaf: Leaf, best: nat)
    requires InRange(leaf, priceBits, nonceBits) && t.depth == nonceBits + priceBits > 0 && PricedBook(t, nonceBits)
    requires IsBestBound(OrderNo(t), PriceBits(nonceBits), isAsk, ShiftLeft(1, t.depth), best)
    requires notional <= SideOf(isAsk, SumsAt(t, Root)).quote
    ensures var k := LeafPath(leaf, priceBits, nonceBits);
            var r := AcceptedPrice(t, priceBits, nonceBits, isAsk, notional, leaf);
            && (r.Some? <==> && leaf.order == OrderAt(t, k) && leaf.path == PathOf(t, k)
                             && Marginal(OrderNo(t), isAsk, notional, IndexOf(k), ShiftLeft(1, t.depth)))
            && (r.Some? ==> if isAsk then best <= r.value <= leaf.price else leaf.price <= r.value <= best)
  {
    var k := LeafPath(leaf, priceBits, nonceBits);
    AcceptedIsOwn(t, priceBits, nonceBits, isAsk, notional, leaf);
    PricedBookIsPriced(t, nonceBits);
    RootIsWholeRange(t);
    LeafIndexInRange(leaf, priceBits, nonceBits);
    PriceOfOrderIndex(leaf.price, leaf.nonce, nonceBits);
    ImpactPriceOfBook(t, k, isAsk, notional, PriceBits(nonceBits), best);
  }

  /** A price at which an amount of base is worth at least, or at most, a quote. */
  predicate CoversQuote(price: int, a: Amounts) {
    price * a.base >= a.quote
  }

  predicate WithinQuote(price: int, a: Amounts) {
    price * a.base <= a.quote
  }

  /** The average is the least price that covers all that is taken, for asks, or the greatest within it, for bids,
      where as few units as reach the notional are taken of the last leaf. */
  lemma {:induction false} AverageIsTight(
    isAsk: bool, notional: int, before: Amounts, price: nat, units: nat, taken: Amounts)
    requires before.base >= 0 && before.quote >= 0 && price > 0 && before.quote < notional
    requires (units - 1) * price < notional - before.quote <= units * price
    requires taken == Amounts(before.base + units, before.quote + units * price)
    ensures var r := AveragePrice(isAsk, notional, before, price);
            forall q: int ::
              && (isAsk ==> (CoversQuote(q, taken) <==> q >= r))
              && (!isAsk ==> (WithinQuote(q, taken) <==> q <= r))
  {
    LeastUnits(notional - before.quote, price, units);
    assert taken.base > 0 && taken.quote >= 0;
    var r := AveragePrice(isAsk, notional, before, price);
    assert r == if isAsk then CeilDiv(taken.quote, taken.base) else Div(taken.quote, taken.base);
    forall q: int
      ensures (isAsk ==> (CoversQuote(q, taken) <==> q >= r)) && (!isAsk ==> (WithinQuote(q, taken) <==> q <= r))
    {
      CeilDivIsLeast(taken.quote, taken.base, q);
      DivIsGreatest(taken.quote, taken.base, q);
    }
  }

  lemma {:induction false} LeastUnits(rest: nat, price: nat, units: nat)
    requires price > 0 && rest > 0 && (units - 1) * price < rest <= units * price
    ensures units == CeilDiv(rest, price) > 0
  {
    CeilDivIsLeast(rest, price, units);
    CeilDivIsLeast(rest, price, units - 1);
    assert 0 * price == 0;
  }

  /** What an accepted impact price is: the orders better than the presented leaf are taken whole, of the leaf as few
      units as reach the notional, and the price is the average of all of it, rounded up for asks and down for
      bids. */
  lemma {:induction false} ImpactPriceIsAverage(
    t: Book, priceBits: nat, nonceBits: nat, isAsk: bool, notional: int, leaf: Leaf, units: nat, taken: Amounts)
    requires InRange(leaf, priceBits, nonceBits) && t.depth == nonceBits + priceBits > 0 && PricedBook(t, nonceBits)
    requires AcceptedPrice(t, priceBits, nonceBits, isAsk, notional, leaf).Some?
    requires notional <= if isAsk then SumsAt(t, Root).askQuote else SumsAt(t, Root).bidQuote
    requires var i, top := OrderIndex(leaf.price, leaf.nonce, nonceBits), ShiftLeft(1, t.depth);
             var better := if isAsk then RangeSum(OrderNo(t), 0, i) else RangeSum(OrderNo(t), i + 1, top);
             var base, quote := if isAsk then better.askBase else better.bidBase,
                                if isAsk then better.askQuote else better.bidQuote;
             && (units - 1) * leaf.price < notional - quote <= units * leaf.price
             && taken == Amounts(base + units, quote + units * leaf.price)
    ensures var r := AcceptedPrice(t, priceBits, nonceBits, isAsk, notional, leaf).value;
            forall q: int ::
              && (isAsk ==> (CoversQuote(q, taken) <==> q >= r))
              && (!isAsk ==> (WithinQuote(q, taken) <==> q <= r))
  {
    var k, top := LeafPath(leaf, priceBits, nonceBits), ShiftLeft(1, t.depth);
    var best := if isAsk then 0 else PriceOf(top, nonceBits);
    BestBoundExists(t, nonceBits, isAsk, best);
    AcceptedIsMarginal(t, priceBits, nonceBits, isAsk, notional, leaf, best);
    AcceptedIsOwn(t, priceBits, nonceBits, isAsk, notional, leaf);
    RootIsWholeRange(t);
    LeafIndexInRange(leaf, priceBits, nonceBits);
    ImpactPriceIsFlat(t, k, isAsk, notional, leaf.price);
    MarginalIsPriced(t, priceBits, nonceBits, isAsk, notional, leaf, best);
    AverageIsTight(isAsk, notional, Before(OrderNo(t), isAsk, IndexOf(k), top), leaf.price, units, taken);
  }

  lemma {:induction false} BestBoundExists(t: Book, nonceBits: nat, isAsk: bool, best: nat)
    requires best == if isAsk then 0 else PriceOf(ShiftLeft(1, t.depth), nonceBits)
    ensures IsBestBound(OrderNo(t), PriceBits(nonceBits), isAsk, ShiftLeft(1, t.depth), best)
  {
    var top := ShiftLeft(1, t.depth);
    forall j: nat | j < top ensures PriceOf(j, nonceBits) <= PriceOf(top, nonceBits) {
      PriceOfMonotone(j, top, nonceBits);
    }
  }

  /** The marginal leaf has a price, and what comes before it is not negative. */
  lemma {:induction false} MarginalIsPriced(
    t: Book, priceBits: nat, nonceBits: nat, isAsk: bool, notional: int, leaf: Leaf, best: nat)
    requires InRange(leaf, priceBits, nonceBits) && t.depth == nonceBits + priceBits > 0 && PricedBook(t, nonceBits)
    requires var i, top := OrderIndex(leaf.price, leaf.nonce, nonceBits), ShiftLeft(1, t.depth);
             && Marginal(OrderNo(t), isAsk, notional, i, top)
             && IsBestBound(OrderNo(t), PriceBits(nonceBits), isAsk, top, best)
    ensures var b := Before(OrderNo(t), isAsk, OrderIndex(leaf.price, leaf.nonce, nonceBits), ShiftLeft(1, t.depth));
            leaf.price > 0 && b.base >= 0 && b.quote >= 0 && b.quote < notional
  {
    var i, top := OrderIndex(leaf.price, leaf.nonce, nonceBits), ShiftLeft(1, t.depth);
    LeafIndexInRange(leaf, priceBits, nonceBits);
    IndexNamesPath(LeafPath(leaf, priceBits, nonceBits));
    PriceOfOrderIndex(leaf.price, leaf.nonce, nonceBits);
    PricedBookIsPriced(t, nonceBits);
    MarginalLeafHasOrder(OrderNo(t), PriceBits(nonceBits), isAsk, notional, i, top);
    BeforeIsPriced(OrderNo(t), PriceBits(nonceBits), isAsk, i, top, best);
  }

  /** The impact price is a function of the book: whichever leaf is presented, the accepted price is the same. */
  lemma {:induction false} ImpactPriceIsDetermined(
    t: Book, priceBits: nat, nonceBits: nat, isAsk: bool, notional: int, one: Leaf, two: Leaf)
    requires InRange(one, priceBits, nonceBits) && InRange(two, priceBits, nonceBits)
    requires t.depth == nonceBits + priceBits > 0 && PricedBook(t, nonceBits)
    requires AcceptedPrice(t, priceBits, nonceBits, isAsk, notional, one).Some?
    requires AcceptedPrice(t, priceBits, nonceBits, isAsk, notional, two).Some?
    ensures AcceptedPrice(t, priceBits, nonceBits, isAsk, notional, one)
         == AcceptedPrice(t, priceBits, nonceBits, isAsk, notional, two)
    ensures notional <= SideOf(isAsk, SumsAt(t, Root)).quote ==> one == two
  {
    var top := ShiftLeft(1, t.depth);
    var best := if isAsk then 0 else PriceOf(top, nonceBits);
    BestBoundExists(t, nonceBits, isAsk, best);
    if notional <= SideOf(isAsk, SumsAt(t, Root)).quote {
      AcceptedIsMarginal(t, priceBits, nonceBits, isAsk, notional, one, best);
      AcceptedIsMarginal(t, priceBits, nonceBits, isAsk, notional, two, best);
      var k1, k2 := LeafPath(one, priceBits, nonceBits), LeafPath(two, priceBits, nonceBits);
      PricedBookIsPriced(t, nonceBits);
      IndexNamesPath(k1);
      IndexNamesPath(k2);
      MarginalIsUnique(OrderNo(t), PriceBits(nonceBits), isAsk, notional, IndexOf(k1), IndexOf(k2), top);
      SamePlace(one, two, priceBits, nonceBits);
    } else {
      TooThin(t, priceBits, nonceBits, isAsk, notional, one);
      TooThin(t, priceBits, nonceBits, isAsk, notional, two);
    }
  }

  lemma {:induction false} SamePlace(one: Leaf, two: Leaf, priceBits: nat, nonceBits: nat)
    requires InRange(one, priceBits, nonceBits) && InRange(two, priceBits, nonceBits)
    requires IndexOf(LeafPath(one, priceBits, nonceBits)) == IndexOf(LeafPath(two, priceBits, nonceBits))
    ensures one.price == two.price && one.nonce == two.nonce
  {
    LeafIndexInRange(one, priceBits, nonceBits);
    LeafIndexInRange(two, priceBits, nonceBits);
    IndexOrder(one.price, one.nonce, two.price, two.nonce, nonceBits);
    IndexOrder(two.price, two.nonce, one.price, one.nonce, nonceBits);
  }

  lemma {:induction false} TooThin(t: Book, priceBits: nat, nonceBits: nat, isAsk: bool, notional: int, leaf: Leaf)
    requires InRange(leaf, priceBits, nonceBits) && t.depth == nonceBits + priceBits > 0
    requires notional > SideOf(isAsk, SumsAt(t, Root)).quote
    requires AcceptedPrice(t, priceBits, nonceBits, isAsk, notional, leaf).Some?
    ensures AcceptedPrice(t, priceBits, nonceBits, isAsk, notional, leaf) == Some(0)
  {
    AcceptedIsOwn(t, priceBits, nonceBits, isAsk, notional, leaf);
    RootIsWholeRange(t);
    ImpactPriceIsFlat(t, LeafPath(leaf, priceBits, nonceBits), isAsk, notional, leaf.price);
  }

  /** And some leaf is accepted for every positive notional, so an update is never blocked. */
  lemma {:induction false} ImpactPriceExists(t: Book, priceBits: nat, nonceBits: nat, isAsk: bool, notional: int)
    returns (leaf: Leaf)
    requires t.depth == nonceBits + priceBits > 0 && notional > 0
    ensures InRange(leaf, priceBits, nonceBits)
    ensures AcceptedPrice(t, priceBits, nonceBits, isAsk, notional, leaf).Some?
  {
    RootIsWholeRange(t);
    var i: nat := 0;
    if notional <= SideOf(isAsk, SumsAt(t, Root)).quote {
      i := MarginalExists(OrderNo(t), isAsk, notional, ShiftLeft(1, t.depth));
    }
    var price, nonce := IndexSplits(i, priceBits, nonceBits);
    var k := KeyPath(i, t.depth);
    PathHasIndex(i, t.depth);
    leaf := Leaf(price, nonce, OrderAt(t, k), PathOf(t, k));
    AcceptedIsOwn(t, priceBits, nonceBits, isAsk, notional, leaf);
    ImpactPriceIsFlat(t, k, isAsk, notional, price);
  }

  lemma {:induction false} IndexSplits(i: nat, priceBits: nat, nonceBits: nat) returns (price: nat, nonce: nat)
    requires i < ShiftLeft(1, nonceBits + priceBits)
    ensures price < ShiftLeft(1, priceBits) && nonce < ShiftLeft(1, nonceBits)
    ensures OrderIndex(price, nonce, nonceBits) == i
  {
    if nonceBits == 0 {
      price, nonce := i, 0;
    } else {
      price, nonce := IndexSplits(i / 2, priceBits, nonceBits - 1);
      nonce := 2 * nonce + i % 2;
    }
  }

  lemma {:induction false} EmptyBookIsPriced(depth: nat, nonceBits: nat)
    ensures PricedBook(Book(map[], depth), nonceBits)
  {
  }

  /** Writing a leaf that lists base times the price of its own index keeps a book priced. */
  lemma {:induction false} UpdateKeepsPriced(t: Book, k: Path, order: Sums, nonceBits: nat)
    requires PricedBook(t, nonceBits) && Depth(k) == t.depth
    requires PricedOrder(order, PriceOf(IndexOf(k), nonceBits))
    ensures PricedBook(Replaced(t, k, order), nonceBits)
  {
    forall i: nat | i < ShiftLeft(1, t.depth)
      ensures PricedOrder(OrderNo(Replaced(t, k, order))(i), PriceOf(i, nonceBits))
    {
      PathHasIndex(i, t.depth);
      assert PricedOrder(OrderNo(t)(i), PriceOf(i, nonceBits));
    }
  }

  /** The book that a sequence of leaf writes makes of the empty one. */
  function WriteAll(depth: nat, writes: seq<(Path, Sums)>): (t: Book)
    ensures t.depth == depth
  {
    if writes == [] then Book(map[], depth)
    else
      var last := writes[|writes| - 1];
      Replaced(WriteAll(depth, writes[..|writes| - 1]), last.0, last.1)
  }

  /** So every book built by such writes is priced. */
  lemma {:induction false} WrittenBookIsPriced(depth: nat, writes: seq<(Path, Sums)>, nonceBits: nat)
    requires forall i :: 0 <= i < |writes| ==>
               Depth(writes[i].0) == depth && PricedOrder(writes[i].1, PriceOf(IndexOf(writes[i].0), nonceBits))
    ensures PricedBook(WriteAll(depth, writes), nonceBits)
  {
    if writes == [] {
      EmptyBookIsPriced(depth, nonceBits);
    } else {
      var front, last := writes[..|writes| - 1], writes[|writes| - 1];
      WrittenBookIsPriced(depth, front, nonceBits);
      UpdateKeepsPriced(WriteAll(depth, front), last.0, last.1, nonceBits);
    }
  }
}
