/** Signs and divisions of the circuits' integer gadgets. */
module Numbers {

  function Sign(x: int): int {
    if x > 0 then 1 else if x < 0 then -1 else 0
  }

  function Abs(x: int): nat {
    if x < 0 then -x else x
  }

  function Min(a: int, b: int): int {
    if a < b then a else b
  }

  function Max(a: int, b: int): int {
    if a < b then b else a
  }

  /** Quotient gadgets give zero for a zero divisor. */
  function Div(a: nat, b: nat): nat {
    if b == 0 then 0 else a / b
  }

  function CeilDiv(a: nat, b: nat): nat {
    if b == 0 then 0 else if a % b == 0 then a / b else a / b + 1
  }

  lemma {:induction false} MulMono(a: int, b: int, c: nat)
    requires a <= b
    ensures a * c <= b * c
  {
  }

  /** Quantities between two multiples add up. */
  lemma {:induction false} BoundsAdd(low: int, high: int, a: int, x: int, b: int, y: int)
    requires low * a <= x <= high * a && low * b <= y <= high * b
    ensures low * (a + b) <= x + y <= high * (a + b)
  {
  }

  /** What a floor division loses. */
  lemma {:induction false} DivBounds(a: nat, b: nat)
    requires b > 0
    ensures Div(a, b) * b <= a < (Div(a, b) + 1) * b
  {
    assert a == a / b * b + a % b;
  }

  lemma {:induction false} CancelFactor(a: int, b: int, c: int)
    requires c > 0 && a * c <= b * c
    ensures a <= b
  {
    if a > b {
      MulMono(b + 1, a, c);
      assert false;
    }
  }

  /** The largest integer below a quotient. */
  lemma {:induction false} DivIsLargest(a: nat, b: nat, q: int)
    requires b > 0 && q * b <= a
    ensures q <= Div(a, b)
  {
    DivBounds(a, b);
    if q > Div(a, b) {
      MulMono(Div(a, b) + 1, q, b);
      assert false;
    }
  }

  lemma {:induction false} DivIsSmallest(a: nat, b: nat, q: int)
    requires b > 0 && a <= q * b
    ensures Div(a, b) <= q
  {
    DivBounds(a, b);
    CancelFactor(Div(a, b), q, b);
  }

  /** The greatest integer not above a quotient. */
  lemma {:induction false} DivIsGreatest(a: nat, b: nat, q: int)
    requires b > 0
    ensures q * b <= a <==> q <= Div(a, b)
  {
    DivBounds(a, b);
    if q <= Div(a, b) {
      MulMono(q, Div(a, b), b);
    } else {
      MulMono(Div(a, b) + 1, q, b);
    }
  }

  /** The least integer not below a quotient. */
  lemma {:induction false} CeilDivIsLeast(a: nat, b: nat, q: int)
    requires b > 0
    ensures q * b >= a <==> q >= CeilDiv(a, b)
  {
    var c := CeilDiv(a, b);
    assert a == a / b * b + a % b;
    assert c * b >= a;
    assert (c - 1) * b < a || (a == 0 && c == 0);
    if q >= c {
      MulMono(c, q, b);
    } else {
      MulMono(q, c - 1, b);
      if a == 0 {
        MulMono(q, -1, b);
      }
    }
  }

  lemma {:induction false} CeilDivCovers(a: nat, b: nat)
    requires b > 0
    ensures CeilDiv(a, b) * b >= a
  {
    assert a == a / b * b + a % b;
  }
}
