/** Left shifts of natural numbers. */
module Shifts {

  /** `x` with `bits` zero bits appended. */
  function ShiftLeft(x: nat, bits: nat): (r: nat)
    ensures x > 0 ==> r > 0
  {
    if bits == 0 then x else 2 * ShiftLeft(x, bits - 1)
  }

  lemma {:induction false} ShiftLeftAdds(x: nat, y: nat, bits: nat)
    ensures ShiftLeft(x + y, bits) == ShiftLeft(x, bits) + ShiftLeft(y, bits)
  {
    if bits > 0 {
      ShiftLeftAdds(x, y, bits - 1);
    }
  }

  lemma {:induction false} ShiftLeftMonotone(x: nat, y: nat, bits: nat)
    requires x <= y
    ensures ShiftLeft(x, bits) <= ShiftLeft(y, bits)
  {
    ShiftLeftAdds(x, y - x, bits);
  }

  lemma {:induction false} ShiftLeftDoubled(x: nat, bits: nat)
    ensures ShiftLeft(2 * x, bits) == 2 * ShiftLeft(x, bits)
  {
    ShiftLeftAdds(x, x, bits);
  }

  lemma {:induction false} ShiftLeftTwice(x: nat, a: nat, b: nat)
    ensures ShiftLeft(ShiftLeft(x, a), b) == ShiftLeft(x, a + b)
  {
    if b > 0 {
      ShiftLeftTwice(x, a, b - 1);
    }
  }

  lemma {:induction false} ShiftLeftZero(bits: nat)
    ensures ShiftLeft(0, bits) == 0
  {
    if bits > 0 {
      ShiftLeftZero(bits - 1);
    }
  }

  lemma {:induction false} ShiftLeftIsTimes(x: nat, bits: nat)
    ensures ShiftLeft(x, bits) == x * ShiftLeft(1, bits)
  {
    if bits > 0 {
      ShiftLeftIsTimes(x, bits - 1);
      assert 2 * (x * ShiftLeft(1, bits - 1)) == x * (2 * ShiftLeft(1, bits - 1));
    }
  }

  lemma {:induction false} ShiftLeftSums(a: nat, b: nat)
    ensures ShiftLeft(1, a + b) == ShiftLeft(1, a) * ShiftLeft(1, b)
  {
    ShiftLeftTwice(1, a, b);
    ShiftLeftIsTimes(ShiftLeft(1, a), b);
  }
}
