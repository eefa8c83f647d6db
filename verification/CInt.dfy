/** C integer arithmetic that differs from Dafny's. */
module CInt {
  type Word = x: nat | x < 0x1_0000_0000

  /** What a 32-bit unsigned variable keeps of a number. */
  function Low(x: int): Word {
    x % 0x1_0000_0000
  }

  /** What a 32-bit signed variable keeps of a number. */
  function Signed(x: int): (r: int)
    ensures -0x8000_0000 <= x < 0x8000_0000 ==> r == x
    ensures -0x8000_0000 <= r < 0x8000_0000
  {
    if Low(x) < 0x8000_0000 then Low(x) else Low(x) - 0x1_0000_0000
  }

  /** Signed division by two as C does it: the quotient is rounded toward zero. */
  function Half(x: int): (r: int)
    ensures x >= 0 ==> r == x / 2
    ensures x <= 0 ==> r == -((-x) / 2)
  {
    if x >= 0 then x / 2 else -((-x) / 2)
  }

  function Min(a: int, b: int): (r: int)
    ensures r <= a && r <= b && (r == a || r == b)
  {
    if a <= b then a else b
  }

  function Max(a: int, b: int): (r: int)
    ensures r >= a && r >= b && (r == a || r == b)
  {
    if a >= b then a else b
  }

  function Clamp(x: int, lo: int, hi: int): (r: int)
    requires lo <= hi
    ensures lo <= r <= hi
    ensures lo <= x <= hi ==> r == x
    ensures x < lo ==> r == lo
    ensures x > hi ==> r == hi
  {
    Max(lo, Min(x, hi))
  }

  /** Quotient and remainder are determined by what they satisfy. */
  lemma DivModIs(x: int, n: nat, q: int, r: nat)
    requires r < n && x == q * n + r
    ensures x / n == q && x % n == r
  {
    var d := x / n - q;
    assert d * n == r - x % n;
    assert d >= 1 ==> d * n >= n;
    assert d <= -1 ==> d * n <= 0 - n;
  }

  lemma RingStep(x: nat, n: nat)
    requires n > 0
    ensures (x % n + 1) % n == (x + 1) % n
  {
    var q, r := x / n, x % n;
    assert x == q * n + r;
    if r + 1 < n {
      DivModIs(x + 1, n, q, r + 1);
      DivModIs(r + 1, n, 0, r + 1);
    } else {
      DivModIs(x + 1, n, q + 1, 0);
      DivModIs(r + 1, n, 1, 0);
    }
  }

  lemma RingLap(x: nat, n: nat)
    requires x < n
    ensures (x + n) % n == x && x % n == x
  {
    DivModIs(x + n, n, 1, x);
    DivModIs(x, n, 0, x);
  }

  lemma RingNext(x: nat, n: nat)
    requires x < n
    ensures (x + 1) % n == if x + 1 == n then 0 else x + 1
  {
    if x + 1 == n {
      DivModIs(x + 1, n, 1, 0);
    } else {
      DivModIs(x + 1, n, 0, x + 1);
    }
  }

  /** Rounding down what lies before x: q whole steps of n end before x and q + 1 do not. */
  lemma StepsBefore(x: nat, n: nat) returns (q: nat)
    requires n > 0 && x > 0
    ensures q * n < x <= (q + 1) * n
  {
    q := (x - 1) / n;
    assert x - 1 == q * n + (x - 1) % n;
  }

  /** Fewer steps, smaller product. */
  lemma StepsOrder(a: int, b: int, n: nat)
    requires n > 0
    ensures a * n < b * n <==> a < b
  {
    assert (b - a) * n == b * n - a * n;
    assert a < b ==> (b - a) * n > 0;
    assert a >= b ==> (b - a) * n <= 0;
  }

  /** Division as the equation it solves. */
  lemma DivMod(v: nat, n: nat) returns (q: nat, r: nat)
    requires n > 0
    ensures q == v / n && r == v % n && v == q * n + r && r < n
  {
    q, r := v / n, v % n;
  }
}
