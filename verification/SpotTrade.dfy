/** Spot trades: two assets change hands, each fee is taken from the asset a side receives. */
module SpotTrade {
  import opened Constants
  import opened Options
  import opened Numbers
  import Locks = LockedBalance

  datatype Order = Order(isTakerAsk: bool, base: nat, quote: int, takerFee: int, makerFee: int)

  datatype Amounts = Amounts(base: int, quote: int)

  datatype Outcome = Outcome(taker: Amounts, maker: Amounts, fee: Amounts)

  /** Fees in extended units: the buyer's is taken from the base, the seller's from the quote. */
  function Fees(m: Locks.Multipliers, o: Order, base: nat, quote: nat): Amounts {
    var enabled := o.takerFee != 0 || o.makerFee != 0;
    var buyerFee := if o.isTakerAsk then o.makerFee else o.takerFee;
    var sellerFee := if o.isTakerAsk then o.takerFee else o.makerFee;
    Amounts((if enabled then buyerFee else 0) * (base * (m.sizeExtension / FEE_TICK)),
            (if enabled then sellerFee else 0) * (quote * (m.quoteExtension / FEE_TICK)))
  }

  /** None when an assertion of the circuit fails. */
  function ApplySpotTrade(isEnabled: bool, m: Locks.Multipliers, o: Order, feeIsTaker: bool, feeIsMaker: bool)
    : Option<Outcome>
  {
    if isEnabled && (o.quote < 0 || o.takerFee < 0 || o.makerFee < 0) then None
    else
      var base := if isEnabled then o.base else 0;
      var quote: nat := if isEnabled then o.quote else 0;
      var fees := Fees(m, o, base, quote);
      var extBase, extQuote := base * m.sizeExtension, quote * m.quoteExtension;
      var buyer := Amounts(extBase - fees.base, -extQuote);
      var seller := Amounts(-extBase, extQuote - fees.quote);
      var t, k := if o.isTakerAsk then seller else buyer, if o.isTakerAsk then buyer else seller;
      Some(Outcome(
        Amounts(t.base + (if feeIsTaker then fees.base else 0), t.quote + (if feeIsTaker then fees.quote else 0)),
        Amounts(k.base + (if feeIsMaker then fees.base else 0), k.quote + (if feeIsMaker then fees.quote else 0)),
        if feeIsTaker || feeIsMaker then Amounts(0, 0) else fees))
  }

  /** Nothing of either asset is created or lost, wherever the fees go. */
  lemma {:induction false} SpotTradeConserves(
    isEnabled: bool, m: Locks.Multipliers, o: Order, feeIsTaker: bool, feeIsMaker: bool)
    requires ApplySpotTrade(isEnabled, m, o, feeIsTaker, feeIsMaker).Some? && !(feeIsTaker && feeIsMaker)
    ensures var r := ApplySpotTrade(isEnabled, m, o, feeIsTaker, feeIsMaker).value;
            r.taker.base + r.maker.base + r.fee.base == 0 && r.taker.quote + r.maker.quote + r.fee.quote == 0
    ensures !isEnabled ==> ApplySpotTrade(isEnabled, m, o, feeIsTaker, feeIsMaker).value
                             == Outcome(Amounts(0, 0), Amounts(0, 0), Amounts(0, 0))
  {
    if !isEnabled {
      assert 0 * (m.sizeExtension / FEE_TICK) == 0 && 0 * (m.quoteExtension / FEE_TICK) == 0;
    }
  }

  /** What a maker who does not collect the fees gets in the asset that an order of the given side locks. */
  function MakerDelta(r: Outcome, isAsk: bool): int {
    if isAsk then r.maker.base else r.maker.quote
  }

  /** A maker on the other side pays the locked asset; on the taker's own side it is paid in it, less its fee. */
  lemma {:induction false} MakerPaysOrIsPaid(m: Locks.Multipliers, o: Order, feeIsTaker: bool, isAsk: bool)
    requires o.quote >= 0 && o.takerFee >= 0 && o.makerFee >= 0
    ensures var r := ApplySpotTrade(true, m, o, feeIsTaker, false).value;
            var amount, extension := if isAsk then o.base else o.quote,
                                     if isAsk then m.sizeExtension else m.quoteExtension;
            MakerDelta(r, isAsk) == if isAsk != o.isTakerAsk then 0 - amount * extension
                                    else amount * extension - o.makerFee * (amount * (extension / FEE_TICK))
  {
    if o.makerFee == 0 {
      NoFee(o.base * (m.sizeExtension / FEE_TICK));
      NoFee(o.quote * (m.quoteExtension / FEE_TICK));
    }
  }

  lemma {:induction false} NoFee(amount: int)
    ensures 0 * amount == 0
  {
  }

  /** The engine unlocks by the resting order's own side. A fill at its price takes exactly what is unlocked when
      the order is on the other side. On the taker's own side the maker is paid in the locked asset instead, so
      with fees of at most the whole the two agree in no fill but an empty one. */
  lemma {:induction false} FillTakesWhatWasLocked(
    m: Locks.Multipliers, o: Order, price: nat, feeIsTaker: bool, isAsk: bool)
    requires o.quote == o.base * price && o.takerFee >= 0 && o.makerFee >= 0
    ensures var r := ApplySpotTrade(true, m, o, feeIsTaker, false).value;
            var locked := Locks.LockedAmount(m, o.base, price, isAsk);
            && (isAsk != o.isTakerAsk ==> MakerDelta(r, isAsk) == 0 - locked)
            && (o.takerFee <= FEE_TICK && o.makerFee <= FEE_TICK ==>
                  (MakerDelta(r, isAsk) == 0 - locked <==> isAsk != o.isTakerAsk || locked == 0))
  {
    var amount, extension := if isAsk then o.base else o.quote, if isAsk then m.sizeExtension else m.quoteExtension;
    MakerPaysOrIsPaid(m, o, feeIsTaker, isAsk);
    LockedIsAmount(m, o.base, price, isAsk);
    if o.makerFee <= FEE_TICK {
      FeeWithin(amount, extension, o.makerFee);
    }
  }

  lemma {:induction false} LockedIsAmount(m: Locks.Multipliers, base: nat, price: nat, isAsk: bool)
    ensures Locks.LockedAmount(m, base, price, isAsk)
         == if isAsk then base * m.sizeExtension else base * price * m.quoteExtension
  {
    assert base * price * m.quoteExtension == base * (price * m.quoteExtension);
  }

  /** A fee of at most the whole takes no more than the amount, and nothing from nothing. */
  lemma {:induction false} FeeWithin(amount: nat, extension: nat, fee: int)
    requires 0 <= fee <= FEE_TICK
    ensures 0 <= fee * (amount * (extension / FEE_TICK)) <= amount * extension
  {
    var unit := extension / FEE_TICK;
    DivBounds(extension, FEE_TICK);
    MulMono(unit * FEE_TICK, extension, amount);
    MulMono(fee, FEE_TICK, amount * unit);
    assert FEE_TICK * (amount * unit) == unit * FEE_TICK * amount;
  }

  /** What amounts of base and quote are in one asset. */
  function InAsset(m: Locks.Multipliers, a: Amounts, asset: nat): int {
    (if asset == m.baseAsset then a.base else 0) + (if asset == m.quoteAsset then a.quote else 0)
  }

  /** The asset a fill unlocks is the one the maker is debited in, by the unlocked amount, and the only one. */
  lemma {:induction false} FillDebitsLockedAsset(
    m: Locks.Multipliers, o: Order, price: nat, feeIsTaker: bool, isAsk: bool, asset: nat)
    requires o.quote == o.base * price && 0 <= o.takerFee <= FEE_TICK && 0 <= o.makerFee <= FEE_TICK
    requires isAsk != o.isTakerAsk && m.baseAsset != m.quoteAsset
    ensures var r := ApplySpotTrade(true, m, o, feeIsTaker, false).value;
            if asset == Locks.LockedAsset(m, isAsk)
            then InAsset(m, r.maker, asset) == 0 - Locks.LockedAmount(m, o.base, price, isAsk)
            else InAsset(m, r.maker, asset) >= 0
  {
    FillTakesWhatWasLocked(m, o, price, feeIsTaker, isAsk);
    FeeWithin(o.base, m.sizeExtension, o.makerFee);
    FeeWithin(o.quote, m.quoteExtension, o.makerFee);
    MakersGain(m, o, feeIsTaker, isAsk);
  }

  /** In the other asset the maker is paid, less its fee. */
  lemma {:induction false} MakersGain(m: Locks.Multipliers, o: Order, feeIsTaker: bool, isAsk: bool)
    requires o.quote >= 0 && o.takerFee >= 0 && o.makerFee >= 0 && isAsk != o.isTakerAsk
    ensures var r := ApplySpotTrade(true, m, o, feeIsTaker, false).value;
            var amount, extension := if isAsk then o.quote else o.base,
                                     if isAsk then m.quoteExtension else m.sizeExtension;
            MakerDelta(r, !isAsk) == amount * extension - o.makerFee * (amount * (extension / FEE_TICK))
  {
    MakerPaysOrIsPaid(m, o, feeIsTaker, !isAsk);
  }

  /** Who pays what: the buyer the quote and the seller the base, each side its own fee, in the asset it receives,
      and the fee account collects both. */
  lemma {:induction false} SpotSidesAreFair(m: Locks.Multipliers, o: Order, feeIsTaker: bool, feeIsMaker: bool)
    requires o.quote >= 0 && o.takerFee >= 0 && o.makerFee >= 0 && !(feeIsTaker && feeIsMaker)
    ensures var r := ApplySpotTrade(true, m, o, feeIsTaker, feeIsMaker).value;
            var buyer, seller := if o.isTakerAsk then r.maker else r.taker, if o.isTakerAsk then r.taker else r.maker;
            var buyerRate, sellerRate := if o.isTakerAsk then o.makerFee else o.takerFee,
                                         if o.isTakerAsk then o.takerFee else o.makerFee;
            var buyerFee, sellerFee := buyerRate * (o.base * (m.sizeExtension / FEE_TICK)),
                                       sellerRate * (o.quote * (m.quoteExtension / FEE_TICK));
            var buyerKeeps := if o.isTakerAsk then feeIsMaker else feeIsTaker;
            var sellerKeeps := if o.isTakerAsk then feeIsTaker else feeIsMaker;
            && buyer == Amounts(o.base * m.sizeExtension - (if buyerKeeps then 0 else buyerFee),
                                (if buyerKeeps then sellerFee else 0) - o.quote * m.quoteExtension)
            && seller == Amounts((if sellerKeeps then buyerFee else 0) - o.base * m.sizeExtension,
                                 o.quote * m.quoteExtension - (if sellerKeeps then 0 else sellerFee))
            && r.fee == (if buyerKeeps || sellerKeeps then Amounts(0, 0) else Amounts(buyerFee, sellerFee))
  {
    if o.takerFee == 0 && o.makerFee == 0 {
      NoFee(o.base * (m.sizeExtension / FEE_TICK));
      NoFee(o.quote * (m.quoteExtension / FEE_TICK));
    }
  }

  /** The circuit refuses exactly a negative quote and negative fees. */
  lemma {:induction false} SpotRefusedIff(m: Locks.Multipliers, o: Order, feeIsTaker: bool, feeIsMaker: bool)
    ensures ApplySpotTrade(true, m, o, feeIsTaker, feeIsMaker).None?
        <==> o.quote < 0 || o.takerFee < 0 || o.makerFee < 0
    ensures ApplySpotTrade(false, m, o, feeIsTaker, feeIsMaker).Some?
  {
  }
}
