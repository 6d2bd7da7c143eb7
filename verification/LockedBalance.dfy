/** Balances locked behind resting spot orders: one transaction holds a few asset slots of an account. */
module LockedBalance {
  import opened Options

  const U96: nat := 0x1_0000_0000_0000_0000_0000_0000

  datatype AssetSlot = AssetSlot(index: nat, locked: nat)

  datatype Multipliers = Multipliers(baseAsset: nat, quoteAsset: nat, sizeExtension: nat, quoteExtension: nat)

  /** Asks lock base, bids lock quote. */
  function LockedAmount(m: Multipliers, base: nat, price: nat, isAsk: bool): nat {
    base * (if isAsk then m.sizeExtension else price * m.quoteExtension)
  }

  function LockedAsset(m: Multipliers, isAsk: bool): nat {
    if isAsk then m.baseAsset else m.quoteAsset
  }

  /** The first slot of an asset, or the number of slots. */
  function Find(assets: seq<AssetSlot>, asset: nat): (i: nat)
    ensures i <= |assets|
    ensures i < |assets| ==> assets[i].index == asset
    ensures forall j :: 0 <= j < i ==> assets[j].index != asset
  {
    if assets == [] then 0
    else if assets[0].index == asset then 0
    else 1 + Find(assets[1..], asset)
  }

  /** None when no slot matches, or the new balance would be negative or too wide. */
  function Adjusted(assets: seq<AssetSlot>, asset: nat, delta: int): Option<seq<AssetSlot>> {
    var i := Find(assets, asset);
    if i == |assets| then None
    else if 0 <= assets[i].locked + delta < U96
    then Some(assets[i := AssetSlot(asset, assets[i].locked + delta)])
    else None
  }

  /** The circuit walks over all slots and changes the first one that matches. */
  method ChangeLockedBalance(assets: seq<AssetSlot>, asset: nat, amount: nat, increment: bool)
    returns (changed: Option<seq<AssetSlot>>)
    ensures changed == Adjusted(assets, asset, if increment then amount else 0 - amount)
  {
    var found := false;
    var slots := assets;
    for i := 0 to |assets|
      invariant |slots| == |assets|
      invariant found <==> Find(assets, asset) < i
      invariant forall j :: 0 <= j < |assets| && j != Find(assets, asset) ==> slots[j] == assets[j]
      invariant found ==>
                  var delta := if increment then amount else 0 - amount;
                  var at := Find(assets, asset);
                  0 <= assets[at].locked + delta < U96 && slots[at] == AssetSlot(asset, assets[at].locked + delta)
      invariant !found ==> slots == assets
    {
      var matched := slots[i].index == asset;
      if matched && !found {
        var balance := slots[i].locked;
        var success := if increment then balance + amount < U96 else balance >= amount && balance - amount < U96;
        if !success { return None; }
        slots := slots[i := slots[i].(locked := if increment then balance + amount else balance - amount)];
      }
      found := found || matched;
    }
    if !found { return None; }
    assert slots == assets[Find(assets, asset) := slots[Find(assets, asset)]];
    return Some(slots);
  }

  function Lock(m: Multipliers, assets: seq<AssetSlot>, base: nat, price: nat, isAsk: bool): Option<seq<AssetSlot>> {
    var amount := LockedAmount(m, base, price, isAsk);
    if amount >= U96 then None else Adjusted(assets, LockedAsset(m, isAsk), amount)
  }

  function Unlock(m: Multipliers, assets: seq<AssetSlot>, base: nat, price: nat, isAsk: bool): Option<seq<AssetSlot>> {
    var amount := LockedAmount(m, base, price, isAsk);
    if amount >= U96 then None else Adjusted(assets, LockedAsset(m, isAsk), 0 - amount)
  }
}
