/** The order book: a binary tree over price and nonce whose inner nodes carry the sums of all orders below.
    The circuit sees one leaf and the path from it to the root.
 */
module BookTree {
  import opened SparseTree
  import opened MerkleOpenings
  import opened Shifts

  datatype Sums = Sums(askBase: int, askQuote: int, bidBase: int, bidQuote: int)

  const NO_SUMS: Sums := Sums(0, 0, 0, 0)

  function Plus(a: Sums, b: Sums): Sums {
    Sums(a.askBase + b.askBase, a.askQuote + b.askQuote, a.bidBase + b.bidBase, a.bidQuote + b.bidQuote)
  }

  function Minus(a: Sums, b: Sums): Sums {
    Sums(a.askBase - b.askBase, a.askQuote - b.askQuote, a.bidBase - b.bidBase, a.bidQuote - b.bidQuote)
  }

  /** Hashes as free constructors. Sums enter a node hash unhashed; an empty order hashes to zero sums. */
  datatype BookHash = Raw(sums: Sums) | OrderHash(order: Sums) | Two(left: BookHash, right: BookHash)

  function HashOrder(order: Sums): BookHash {
    if order == NO_SUMS then Raw(NO_SUMS) else OrderHash(order)
  }

  /** The book as a flat map of orders; a missing order is empty. */
  datatype Book = Book(orders: map<Path, Sums>, depth: nat)

  function OrderAt(t: Book, k: Path): Sums {
    if k in t.orders then t.orders[k] else NO_SUMS
  }

  function SubtreeSums(t: Book, p: Path, height: nat): Sums
    decreases height
  {
    if height == 0 then OrderAt(t, p)
    else Plus(SubtreeSums(t, Child(p, false), height - 1), SubtreeSums(t, Child(p, true), height - 1))
  }

  function SumsAt(t: Book, p: Path): Sums
    requires Depth(p) <= t.depth
  {
    SubtreeSums(t, p, t.depth - Depth(p))
  }

  function SubtreeHash(t: Book, p: Path, height: nat): BookHash
    decreases height
  {
    if height == 0 then HashOrder(OrderAt(t, p))
    else Two(Two(SubtreeHash(t, Child(p, false), height - 1), SubtreeHash(t, Child(p, true), height - 1)),
             Raw(SubtreeSums(t, p, height)))
  }

  function HashAt(t: Book, p: Path): BookHash
    requires Depth(p) <= t.depth
  {
    SubtreeHash(t, p, t.depth - Depth(p))
  }

  datatype PathNode = PathNode(sums: Sums, siblingHash: BookHash)

  /** The nodes on the way from `k` to the root, parent first, each with the hash of the child off the way. */
  function PathOf(t: Book, k: Path): (path: seq<PathNode>)
    requires Depth(k) <= t.depth
    ensures |path| == Depth(k)
  {
    if k.Root? then []
    else [PathNode(SumsAt(t, k.parent), HashAt(t, Child(k.parent, !k.right)))] + PathOf(t, k.parent)
  }

  function Swap(state: BookHash, sibling: BookHash, swap: bool): BookHash {
    if swap then Two(sibling, state) else Two(state, sibling)
  }

  function FoldBook(state: BookHash, path: seq<PathNode>, helpers: seq<bool>): BookHash
    requires |path| == |helpers|
    decreases |path|
  {
    if path == [] then state
    else FoldBook(Two(Swap(state, path[0].siblingHash, helpers[0]), Raw(path[0].sums)), path[1..], helpers[1..])
  }

  method RecalculateOrderBookTreeRoot(leaf: BookHash, path: seq<PathNode>, helpers: seq<bool>)
    returns (state: BookHash)
    requires |path| == |helpers|
    ensures state == FoldBook(leaf, path, helpers)
  {
    state := leaf;
    for i := 0 to |path|
      invariant FoldBook(state, path[i..], helpers[i..]) == FoldBook(leaf, path, helpers)
    {
      assert path[i..][1..] == path[i + 1..] && helpers[i..][1..] == helpers[i + 1..];
      var siblingHash := Swap(state, path[i].siblingHash, helpers[i]);
      state := Two(siblingHash, Raw(path[i].sums));
    }
  }

  lemma {:induction false} InnerNode(t: Book, p: Path)
    requires Depth(p) < t.depth
    ensures HashAt(t, p) == Two(Two(HashAt(t, Child(p, false)), HashAt(t, Child(p, true))), Raw(SumsAt(t, p)))
    ensures SumsAt(t, p) == Plus(SumsAt(t, Child(p, false)), SumsAt(t, Child(p, true)))
  {
  }

  lemma {:induction false} FoldIsUnique(t: Book, k: Path, hash: BookHash, path: seq<PathNode>)
    requires Depth(k) <= t.depth && |path| == Depth(k)
    ensures FoldBook(hash, path, Bits(k)) == HashAt(t, Root) <==> hash == HashAt(t, k) && path == PathOf(t, k)
  {
    if k.Child? {
      assert k == Child(k.parent, k.right);
      assert Bits(k)[1..] == Bits(k.parent);
      FoldIsUnique(t, k.parent, Two(Swap(hash, path[0].siblingHash, k.right), Raw(path[0].sums)), path[1..]);
      OneLevelIsUnique(t, k, hash, path[0]);
      assert path == [path[0]] + path[1..];
    }
  }

  lemma {:induction false} OneLevelIsUnique(t: Book, k: Path, hash: BookHash, node: PathNode)
    requires k.Child? && Depth(k) <= t.depth
    ensures Two(Swap(hash, node.siblingHash, k.right), Raw(node.sums)) == HashAt(t, k.parent) <==>
            hash == HashAt(t, k)
            && node == PathNode(SumsAt(t, k.parent), HashAt(t, Child(k.parent, !k.right)))
  {
    InnerNode(t, k.parent);
    assert k == Child(k.parent, k.right);
  }

  /** A presented order and path pass the root check exactly when they are the book's own, sums included. */
  lemma {:induction false} BookOpeningIsUnique(t: Book, k: Path, order: Sums, path: seq<PathNode>)
    requires Depth(k) == t.depth && |path| == t.depth
    ensures FoldBook(HashOrder(order), path, Bits(k)) == HashAt(t, Root)
        <==> order == OrderAt(t, k) && path == PathOf(t, k)
  {
    FoldIsUnique(t, k, HashOrder(order), path);
  }

  // Replacing one order

  function Replaced(t: Book, k: Path, order: Sums): Book {
    t.(orders := t.orders[k := order])
  }

  lemma {:induction false} OffPathKept(t: Book, k: Path, order: Sums, p: Path)
    requires Depth(k) == t.depth && Depth(p) <= t.depth && !Below(k, p)
    ensures SumsAt(Replaced(t, k, order), p) == SumsAt(t, p)
    ensures HashAt(Replaced(t, k, order), p) == HashAt(t, p)
    decreases t.depth - Depth(p)
  {
    if Depth(p) < t.depth {
      forall b: bool ensures !Below(k, Child(p, b)) {
        if Below(k, Child(p, b)) {
          BelowTransitive(k, Child(p, b), p);
        }
      }
      OffPathKept(t, k, order, Child(p, false));
      OffPathKept(t, k, order, Child(p, true));
      InnerNode(t, p);
      InnerNode(Replaced(t, k, order), p);
    }
  }

  lemma {:induction false} SiblingIsOffPath(k: Path, p: Path)
    requires Below(k, p) && p.Child?
    ensures !Below(k, Child(p.parent, !p.right))
    ensures Below(k, p.parent)
  {
    var sibling := Child(p.parent, !p.right);
    if Below(k, sibling) {
      BelowOneSibling(k, p, sibling);
      assert false;
    }
    BelowTransitive(k, p, p.parent);
  }

  /** Every sum on the way changes by the difference of the orders. */
  lemma {:induction false} SumsOnPath(t: Book, k: Path, order: Sums, p: Path)
    requires Depth(k) == t.depth && Below(k, p)
    ensures Depth(p) <= t.depth
    ensures SumsAt(Replaced(t, k, order), p) == Plus(order, Minus(SumsAt(t, p), OrderAt(t, k)))
    decreases t.depth - Depth(p)
  {
    BelowDepth(k, p);
    if p != k {
      var c := Toward(k, p);
      BelowDepth(k, c);
      SumsOnPath(t, k, order, c);
      SiblingIsOffPath(k, c);
      OffPathKept(t, k, order, Child(p, !c.right));
      ChildSums(t, c);
      ChildSums(Replaced(t, k, order), c);
      SwapOne(order, SumsAt(t, c), SumsAt(t, Child(p, !c.right)), OrderAt(t, k));
    }
  }

  lemma {:induction false} ChildSums(t: Book, c: Path)
    requires c.Child? && Depth(c) <= t.depth
    ensures SumsAt(t, c.parent) == Plus(SumsAt(t, c), SumsAt(t, Child(c.parent, !c.right)))
  {
    assert c == Child(c.parent, c.right);
    InnerNode(t, c.parent);
  }

  lemma {:induction false} SwapOne(order: Sums, a: Sums, b: Sums, was: Sums)
    ensures Plus(Plus(order, Minus(a, was)), b) == Plus(order, Minus(Plus(a, b), was))
  {
  }

  lemma {:induction false} PathAfter(t: Book, k: Path, order: Sums, p: Path)
    requires Depth(k) == t.depth && Below(k, p) && Depth(p) <= t.depth
    ensures var before, after := PathOf(t, p), PathOf(Replaced(t, k, order), p);
            forall i :: 0 <= i < |before| ==>
              after[i] == before[i].(sums := Plus(order, Minus(before[i].sums, OrderAt(t, k))))
  {
    if p.Child? {
      SiblingIsOffPath(k, p);
      OffPathKept(t, k, order, Child(p.parent, !p.right));
      SumsOnPath(t, k, order, p.parent);
      PathAfter(t, k, order, p.parent);
      var before, after := PathOf(t, p), PathOf(Replaced(t, k, order), p);
      forall i | 0 <= i < |before|
        ensures after[i] == before[i].(sums := Plus(order, Minus(before[i].sums, OrderAt(t, k))))
      {
        if i > 0 {
          assert before[i] == PathOf(t, p.parent)[i - 1];
          assert after[i] == PathOf(Replaced(t, k, order), p.parent)[i - 1];
        }
      }
    }
  }

  const MAX_SUM: nat := 0x7FFF_FFFF_FFFF_FFFF // 2^63 - 1

  predicate InSumRange(s: Sums) {
    && 0 <= s.askBase <= MAX_SUM && 0 <= s.askQuote <= MAX_SUM
    && 0 <= s.bidBase <= MAX_SUM && 0 <= s.bidQuote <= MAX_SUM
  }

  /** The new sums along a path, level by level from the differences of the old ones. Only the top is
      range-checked. */
  method GetOrderBookPathDelta(isEnabled: bool, before: Sums, path: seq<PathNode>, after: Sums)
    returns (newPath: seq<PathNode>, accepted: bool)
    requires path != []
    ensures |newPath| == |path|
    ensures var top := newPath[|path| - 1].sums;
            accepted <==> && 0 <= top.askBase < 0x8000_0000_0000_0000 && 0 <= top.askQuote < 0x8000_0000_0000_0000
                          && 0 <= top.bidBase < 0x8000_0000_0000_0000 && 0 <= top.bidQuote < 0x8000_0000_0000_0000
    ensures forall i :: 0 <= i < |path| ==>
              newPath[i] == path[i].(sums := Plus(after, Minus(path[i].sums, if isEnabled then before else NO_SUMS)))
  {
    var counted := if isEnabled then before else NO_SUMS;
    newPath := [path[0].(sums := Plus(after, Minus(path[0].sums, counted)))];
    for i := 1 to |path|
      invariant |newPath| == i
      invariant forall j :: 0 <= j < i ==> newPath[j] == path[j].(sums := Plus(after, Minus(path[j].sums, counted)))
    {
      var sibling := Minus(path[i].sums, path[i - 1].sums);
      newPath := newPath + [path[i].(sums := Plus(newPath[i - 1].sums, sibling))];
    }
    accepted := InSumRange(newPath[|path| - 1].sums);
  }

  predicate NotNegative(s: Sums) {
    s.askBase >= 0 && s.askQuote >= 0 && s.bidBase >= 0 && s.bidQuote >= 0
  }

  lemma {:induction false} SubtreeNotNegative(t: Book, p: Path, height: nat)
    requires forall k :: k in t.orders ==> NotNegative(t.orders[k])
    ensures NotNegative(SubtreeSums(t, p, height))
    decreases height
  {
    if height > 0 {
      SubtreeNotNegative(t, Child(p, false), height - 1);
      SubtreeNotNegative(t, Child(p, true), height - 1);
    }
  }

  /** The check of the top is enough: with order amounts that are not negative, every node's sums are in range
      when the root's are. */
  lemma {:induction false} TopBoundsEveryNode(t: Book, p: Path)
    requires Depth(p) <= t.depth && forall k :: k in t.orders ==> NotNegative(t.orders[k])
    requires InSumRange(SumsAt(t, Root))
    ensures InSumRange(SumsAt(t, p))
  {
    if p.Child? {
      TopBoundsEveryNode(t, p.parent);
      InnerNode(t, p.parent);
      assert p == Child(p.parent, p.right);
      SubtreeNotNegative(t, Child(p.parent, false), t.depth - Depth(p));
      SubtreeNotNegative(t, Child(p.parent, true), t.depth - Depth(p));
    }
  }

  /** Incremental update: the path computed from level differences is the path of the book with that one
      order replaced, and its root is that book's root; rebuilding the tree gives nothing else. */
  lemma {:induction false} DeltaPathIsRebuiltPath(t: Book, k: Path, order: Sums, newPath: seq<PathNode>)
    requires Depth(k) == t.depth && t.depth > 0
    requires var path := PathOf(t, k);
             && |newPath| == |path|
             && forall i :: 0 <= i < |path| ==>
                  newPath[i] == path[i].(sums := Plus(order, Minus(path[i].sums, OrderAt(t, k))))
    ensures newPath == PathOf(Replaced(t, k, order), k)
    ensures FoldBook(HashOrder(order), newPath, Bits(k)) == HashAt(Replaced(t, k, order), Root)
  {
    PathAfter(t, k, order, k);
    BookOpeningIsUnique(Replaced(t, k, order), k, order, newPath);
  }

  // Orders with better priority

  datatype Amounts = Amounts(base: int, quote: int)

  /** The side of the book a taker trades against. */
  function Opposite(isAsk: bool, s: Sums): Amounts {
    if isAsk then Amounts(s.bidBase, s.bidQuote) else Amounts(s.askBase, s.askQuote)
  }

  function AddAmounts(a: Amounts, b: Amounts): Amounts {
    Amounts(a.base + b.base, a.quote + b.quote)
  }

  /** Asks to the left of the path and bids to its right come first. */
  function LevelQuote(isAsk: bool, below: Sums, here: Sums, helper: bool): Amounts {
    if helper != isAsk then Opposite(isAsk, Minus(here, below)) else Amounts(0, 0)
  }

  function QuoteFrom(isAsk: bool, below: Sums, path: seq<PathNode>, helpers: seq<bool>, i: nat): Amounts
    requires |path| == |helpers| && i <= |path|
    decreases |path| - i
  {
    if i == |path| then Amounts(0, 0)
    else AddAmounts(LevelQuote(isAsk, below, path[i].sums, helpers[i]),
                    QuoteFrom(isAsk, path[i].sums, path, helpers, i + 1))
  }

  function PathQuote(isAsk: bool, order: Sums, path: seq<PathNode>, helpers: seq<bool>): Amounts
    requires |path| == |helpers|
  {
    QuoteFrom(isAsk, order, path, helpers, 0)
  }

  method GetQuote(isAsk: bool, order: Sums, path: seq<PathNode>, helpers: seq<bool>) returns (total: Amounts)
    requires |path| == |helpers| && path != []
    ensures total == PathQuote(isAsk, order, path, helpers)
  {
    total := Amounts(0, 0);
    for i := 1 to |path|
      invariant AddAmounts(total, QuoteFrom(isAsk, path[i - 1].sums, path, helpers, i))
             == QuoteFrom(isAsk, path[0].sums, path, helpers, 1)
    {
      total := AddAmounts(total, LevelQuote(isAsk, path[i - 1].sums, path[i].sums, helpers[i]));
    }
    total := AddAmounts(total, LevelQuote(isAsk, order, path[0].sums, helpers[0]));
  }

  lemma {:induction false} QuoteOfTail(
    isAsk: bool, below: Sums, node: PathNode, path: seq<PathNode>, helper: bool, helpers: seq<bool>, i: nat)
    requires |path| == |helpers| && i <= |path|
    ensures QuoteFrom(isAsk, below, [node] + path, [helper] + helpers, i + 1)
         == QuoteFrom(isAsk, below, path, helpers, i)
    decreases |path| - i
  {
    if i < |path| {
      QuoteOfTail(isAsk, path[i].sums, node, path, helper, helpers, i + 1);
    }
  }

  /** The order with a given index. */
  function OrderNo(t: Book): nat -> Sums {
    (key: nat) => OrderAt(t, KeyPath(key, t.depth))
  }

  /** The sum of everything with an index from `lo` up to but excluding `hi`. */
  function RangeSum(f: nat -> Sums, lo: nat, hi: nat): Sums {
    if lo >= hi then NO_SUMS else Plus(RangeSum(f, lo, hi - 1), f(hi - 1))
  }

  lemma {:induction false} RangeSumConcat(f: nat -> Sums, lo: nat, mid: nat, hi: nat)
    requires lo <= mid <= hi
    ensures RangeSum(f, lo, hi) == Plus(RangeSum(f, lo, mid), RangeSum(f, mid, hi))
  {
    if mid < hi {
      RangeSumConcat(f, lo, mid, hi - 1);
      PlusAssociates(RangeSum(f, lo, mid), RangeSum(f, mid, hi - 1), f(hi - 1));
    }
  }

  lemma {:induction false} PlusAssociates(a: Sums, b: Sums, c: Sums)
    ensures Plus(Plus(a, b), c) == Plus(a, Plus(b, c))
  {
  }

  // Index ranges

  /** The index of a node among those of its depth. */
  function IndexOf(p: Path): nat {
    if p.Root? then 0 else 2 * IndexOf(p.parent) + (if p.right then 1 else 0)
  }

  lemma {:induction false} IndexNamesPath(p: Path)
    ensures KeyPath(IndexOf(p), Depth(p)) == p
    ensures IndexOf(p) < ShiftLeft(1, Depth(p))
  {
    if p.Child? {
      IndexNamesPath(p.parent);
    }
  }

  lemma {:induction false} PathHasIndex(key: nat, depth: nat)
    requires key < ShiftLeft(1, depth)
    ensures IndexOf(KeyPath(key, depth)) == key
  {
    if depth > 0 {
      PathHasIndex(key / 2, depth - 1);
    }
  }

  function First(t: Book, p: Path): nat
    requires Depth(p) <= t.depth
  {
    ShiftLeft(IndexOf(p), t.depth - Depth(p))
  }

  function End(t: Book, p: Path): nat
    requires Depth(p) <= t.depth
  {
    ShiftLeft(IndexOf(p) + 1, t.depth - Depth(p))
  }

  /** The ranges of two children make up the range of their parent. */
  lemma {:induction false} RangesMeet(t: Book, p: Path)
    requires Depth(p) < t.depth
    ensures var l, r := Child(p, false), Child(p, true);
            First(t, p) == First(t, l) <= End(t, l) == First(t, r) <= End(t, r) == End(t, p)
  {
    var i, h := IndexOf(p), t.depth - Depth(p) - 1;
    ShiftLeftMonotone(2 * i, 2 * i + 1, h);
    ShiftLeftMonotone(2 * i + 1, 2 * i + 2, h);
    ShiftLeftDoubled(i, h);
    ShiftLeftDoubled(i + 1, h);
  }

  lemma {:induction false} MeetingRanges(f: nat -> Sums, a: nat, b: nat, c: nat, d: nat)
    requires a <= b == c <= d
    ensures Plus(RangeSum(f, a, b), RangeSum(f, c, d)) == RangeSum(f, a, d)
  {
    RangeSumConcat(f, a, b, d);
  }

  /** A subtree sums up a range of consecutive indices. */
  lemma {:induction false} SubtreeIsRange(t: Book, p: Path)
    requires Depth(p) <= t.depth
    ensures SumsAt(t, p) == RangeSum(OrderNo(t), First(t, p), End(t, p))
    decreases t.depth - Depth(p)
  {
    if Depth(p) == t.depth {
      IndexNamesPath(p);
      assert RangeSum(OrderNo(t), IndexOf(p), IndexOf(p)) == NO_SUMS;
    } else {
      var l, r := Child(p, false), Child(p, true);
      SubtreeIsRange(t, l);
      SubtreeIsRange(t, r);
      RangesMeet(t, p);
      InnerNode(t, p);
      MeetingRanges(OrderNo(t), First(t, l), End(t, l), First(t, r), End(t, r));
    }
  }

  /** All indices on the better side of a node's range. */
  function BetterSums(t: Book, isAsk: bool, p: Path): Sums
    requires Depth(p) <= t.depth
  {
    if isAsk then RangeSum(OrderNo(t), End(t, p), ShiftLeft(1, t.depth)) else RangeSum(OrderNo(t), 0, First(t, p))
  }

  lemma {:induction false} RangeFits(t: Book, p: Path)
    requires Depth(p) <= t.depth
    ensures First(t, p) <= End(t, p) <= ShiftLeft(1, t.depth)
  {
    IndexNamesPath(p);
    var i, h := IndexOf(p), t.depth - Depth(p);
    ShiftLeftTwice(1, Depth(p), h);
    ShiftLeftMonotone(i + 1, ShiftLeft(1, Depth(p)), h);
    ShiftLeftMonotone(i, i + 1, h);
  }

  /** One level down the better side grows by the sibling's range, or not at all. */
  lemma {:induction false} BetterSumsNext(t: Book, isAsk: bool, p: Path)
    requires p.Child? && Depth(p) <= t.depth
    ensures BetterSums(t, isAsk, p)
         == if p.right != isAsk
            then Plus(BetterSums(t, isAsk, p.parent), SumsAt(t, Child(p.parent, !p.right)))
            else BetterSums(t, isAsk, p.parent)
  {
    var sibling := Child(p.parent, !p.right);
    assert p == Child(p.parent, p.right);
    RangesMeet(t, p.parent);
    RangeFits(t, p.parent);
    SubtreeIsRange(t, sibling);
    if isAsk && !p.right {
      RangeSumConcat(OrderNo(t), End(t, p), End(t, sibling), ShiftLeft(1, t.depth));
    } else if !isAsk && p.right {
      RangeSumConcat(OrderNo(t), 0, First(t, sibling), First(t, p));
    }
  }

  lemma {:induction false} PathQuoteIsFlat(t: Book, isAsk: bool, p: Path)
    requires Depth(p) <= t.depth
    ensures PathQuote(isAsk, SumsAt(t, p), PathOf(t, p), Bits(p)) == Opposite(isAsk, BetterSums(t, isAsk, p))
  {
    if p.Root? {
      ShiftLeftZero(t.depth);
      assert RangeSum(OrderNo(t), 0, 0) == NO_SUMS;
      assert RangeSum(OrderNo(t), ShiftLeft(1, t.depth), ShiftLeft(1, t.depth)) == NO_SUMS;
    } else {
      PathQuoteIsFlat(t, isAsk, p.parent);
      QuoteOfLevel(isAsk, SumsAt(t, p), PathOf(t, p)[0], PathOf(t, p.parent), p.right, Bits(p.parent));
      ChildSums(t, p);
      BetterSumsNext(t, isAsk, p);
      LevelAdds(isAsk, SumsAt(t, p), SumsAt(t, Child(p.parent, !p.right)), p.right, BetterSums(t, isAsk, p.parent));
    }
  }

  lemma {:induction false} QuoteOfLevel(
    isAsk: bool, below: Sums, node: PathNode, path: seq<PathNode>, helper: bool, helpers: seq<bool>)
    requires |path| == |helpers|
    ensures PathQuote(isAsk, below, [node] + path, [helper] + helpers)
         == AddAmounts(LevelQuote(isAsk, below, node.sums, helper), PathQuote(isAsk, node.sums, path, helpers))
  {
    QuoteOfTail(isAsk, node.sums, node, path, helper, helpers, 0);
  }

  lemma {:induction false} LevelAdds(isAsk: bool, below: Sums, sibling: Sums, helper: bool, better: Sums)
    ensures AddAmounts(LevelQuote(isAsk, below, Plus(below, sibling), helper), Opposite(isAsk, better))
         == Opposite(isAsk, if helper != isAsk then Plus(better, sibling) else better)
  {
  }

  /** All opposite orders with a better index than a leaf: asks with a smaller one, bids with a larger one. */
  function BetterOrders(t: Book, isAsk: bool, k: Path): Amounts {
    Opposite(isAsk, if isAsk then RangeSum(OrderNo(t), IndexOf(k) + 1, ShiftLeft(1, t.depth))
                    else RangeSum(OrderNo(t), 0, IndexOf(k)))
  }

  predicate IsBetter(t: Book, isAsk: bool, other: nat, k: Path) {
    if isAsk then IndexOf(k) < other < ShiftLeft(1, t.depth) else other < IndexOf(k)
  }

  /** Priority by path: the quote of a presented leaf is exactly the flat sum over all opposite orders of
      strictly better priority. */
  lemma {:induction false} QuoteIsBetterOrders(t: Book, isAsk: bool, k: Path)
    requires Depth(k) == t.depth
    ensures PathQuote(isAsk, OrderAt(t, k), PathOf(t, k), Bits(k)) == BetterOrders(t, isAsk, k)
  {
    PathQuoteIsFlat(t, isAsk, k);
  }

  predicate NoNegativeBase(t: Book) {
    forall k :: k in t.orders ==> t.orders[k].askBase >= 0 && t.orders[k].bidBase >= 0
  }

  lemma {:induction false} RangeBaseIsMonotone(f: nat -> Sums, isAsk: bool, lo: nat, hi: nat, i: nat)
    requires forall j: nat :: Opposite(isAsk, f(j)).base >= 0
    ensures Opposite(isAsk, RangeSum(f, lo, hi)).base >= 0
    ensures lo <= i < hi ==> Opposite(isAsk, f(i)).base <= Opposite(isAsk, RangeSum(f, lo, hi)).base
  {
    if lo < hi {
      RangeBaseIsMonotone(f, isAsk, lo, hi - 1, i);
    }
  }

  lemma {:induction false} OrderBasesNotNegative(t: Book, isAsk: bool)
    requires NoNegativeBase(t)
    ensures forall j: nat :: Opposite(isAsk, OrderNo(t)(j)).base >= 0
  {
  }

  /** A zero base sum means the presented leaf is the best: no better index holds an opposite order. */
  lemma {:induction false} ZeroQuoteIsBest(t: Book, isAsk: bool, k: Path)
    requires Depth(k) == t.depth && NoNegativeBase(t)
    ensures PathQuote(isAsk, OrderAt(t, k), PathOf(t, k), Bits(k)).base == 0 <==>
            forall i :: IsBetter(t, isAsk, i, k) ==> Opposite(isAsk, OrderNo(t)(i)).base == 0
  {
    QuoteIsBetterOrders(t, isAsk, k);
    OrderBasesNotNegative(t, isAsk);
    var lo, hi := if isAsk then IndexOf(k) + 1 else 0, if isAsk then ShiftLeft(1, t.depth) else IndexOf(k);
    if PathQuote(isAsk, OrderAt(t, k), PathOf(t, k), Bits(k)).base == 0 {
      forall i | IsBetter(t, isAsk, i, k) ensures Opposite(isAsk, OrderNo(t)(i)).base == 0 {
        RangeBaseIsMonotone(OrderNo(t), isAsk, lo, hi, i);
      }
    } else {
      var i := SomeOrder(OrderNo(t), isAsk, lo, hi);
      assert IsBetter(t, isAsk, i, k);
    }
  }

  /** A range with a base sum other than zero holds an order. */
  lemma {:induction false} SomeOrder(f: nat -> Sums, isAsk: bool, lo: nat, hi: nat) returns (i: nat)
    requires Opposite(isAsk, RangeSum(f, lo, hi)).base != 0
    ensures lo <= i < hi && Opposite(isAsk, f(i)).base != 0
  {
    i := hi - 1;
    if Opposite(isAsk, f(i)).base == 0 {
      i := SomeOrder(f, isAsk, lo, hi - 1);
    }
  }

  // Prices and nonces

  /** Indices order by price first and nonce second. */
  function OrderIndex(price: nat, nonce: nat, nonceBits: nat): nat {
    ShiftLeft(price, nonceBits) + nonce
  }

  /** Little-endian bits, lowest first. */
  function LowBits(x: nat, count: nat): (bits: seq<bool>)
    ensures |bits| == count
  {
    if count == 0 then [] else [x % 2 == 1] + LowBits(x / 2, count - 1)
  }

  function OrderIndexesToMerklePath(price: nat, nonce: nat, priceBits: nat, nonceBits: nat): (bits: seq<bool>)
    ensures |bits| == nonceBits + priceBits
  {
    LowBits(nonce, nonceBits) + LowBits(price, priceBits)
  }

  lemma {:induction false} BitsOfKeyPath(key: nat, depth: nat)
    ensures Bits(KeyPath(key, depth)) == LowBits(key, depth)
  {
    if depth > 0 {
      BitsOfKeyPath(key / 2, depth - 1);
    }
  }

  lemma {:induction false} LowBitsSplit(price: nat, nonce: nat, n: nat, m: nat)
    requires nonce < ShiftLeft(1, n)
    ensures LowBits(ShiftLeft(price, n) + nonce, n + m) == LowBits(nonce, n) + LowBits(price, m)
    decreases n
  {
    if n > 0 {
      LowBitsSplit(price, nonce / 2, n - 1, m);
      HalfOfSum(ShiftLeft(price, n - 1), nonce);
    }
  }

  lemma {:induction false} HalfOfSum(high: nat, low: nat)
    ensures (2 * high + low) % 2 == low % 2 && (2 * high + low) / 2 == high + low / 2
  {
  }

  /** The circuit's path of a price and nonce is the tree path of their index. */
  lemma {:induction false} PathOfPriceAndNonce(price: nat, nonce: nat, priceBits: nat, nonceBits: nat)
    requires nonce < ShiftLeft(1, nonceBits)
    ensures OrderIndexesToMerklePath(price, nonce, priceBits, nonceBits)
         == Bits(KeyPath(OrderIndex(price, nonce, nonceBits), nonceBits + priceBits))
  {
    BitsOfKeyPath(OrderIndex(price, nonce, nonceBits), nonceBits + priceBits);
    LowBitsSplit(price, nonce, nonceBits, priceBits);
  }

  /** Smaller index means lower price, or the same price and smaller nonce. */
  lemma {:induction false} IndexOrder(p1: nat, n1: nat, p2: nat, n2: nat, bits: nat)
    requires n1 < ShiftLeft(1, bits) && n2 < ShiftLeft(1, bits)
    ensures OrderIndex(p1, n1, bits) < OrderIndex(p2, n2, bits) <==> p1 < p2 || (p1 == p2 && n1 < n2)
  {
    if p1 < p2 {
      ShiftLeftAdds(p1, 1, bits);
      ShiftLeftMonotone(p1 + 1, p2, bits);
    } else if p2 < p1 {
      ShiftLeftAdds(p2, 1, bits);
      ShiftLeftMonotone(p2 + 1, p1, bits);
    }
  }
}
