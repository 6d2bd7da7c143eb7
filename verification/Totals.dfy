/** Sums of a quantity over all accounts. */
module Totals {

  function Sum<T>(items: seq<T>, f: T -> int): int {
    if items == [] then 0 else Sum(items[..|items| - 1], f) + f(items[|items| - 1])
  }

  lemma {:induction false} SumUpdate<T>(items: seq<T>, i: nat, x: T, f: T -> int)
    requires i < |items|
    ensures Sum(items[i := x], f) == Sum(items, f) - f(items[i]) + f(x)
  {
    var last := |items| - 1;
    if i < last {
      assert items[i := x][..last] == items[..last][i := x];
      SumUpdate(items[..last], i, x, f);
    } else {
      assert items[i := x][..last] == items[..last];
    }
  }
}
