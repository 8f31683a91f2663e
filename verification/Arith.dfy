/** C integer arithmetic the firmware relies on, and the circular-index facts
    shared by the rings. */
module Arith {

  /** C's `/` on signed integers: truncation toward zero. */
  function TruncDiv(a: int, b: int): int
    requires b > 0
  {
    if a >= 0 then a / b else -((-a) / b)
  }

  /** Toward zero: what is lost is less than b and has the sign of a. */
  lemma TruncDivExactly(a: int, b: int, q: int)
    requires b > 0
    ensures q == TruncDiv(a, b) <==> if a >= 0 then 0 <= a - b * q < b else -b < a - b * q <= 0
  {
    if a >= 0 {
      if 0 <= a - b * q < b { ModUnique(a, q, a - b * q, b); }
    } else {
      if -b < a - b * q <= 0 { ModUnique(-a, -q, b * q - a, b); }
    }
  }

  function Clamp(x: int, lo: int, hi: int): (r: int)
    requires lo <= hi
    ensures lo <= r <= hi
  {
    if x < lo then lo else if x > hi then hi else x
  }

  function Min(a: int, b: int): int { if a <= b then a else b }

  function Max(a: int, b: int): int { if a >= b then a else b }

  function Abs(x: int): int { if x < 0 then -x else x }

  /** A multiple of n strictly between -n and n is zero. */
  lemma SmallMultiple(q: int, n: int)
    requires n > 0 && -n < q * n < n
    ensures q == 0
  {
    if q >= 1 {
      Times(q - 1, n);
      assert false;
    } else if q <= -1 {
      Times(-q - 1, n);
      assert false;
    }
  }

  lemma Times(q: int, n: int)
    requires q >= 0 && n >= 0
    ensures q * n >= 0 && (q + 1) * n == q * n + n && (-q - 1) * n == -(q * n) - n
  {
  }

  lemma Distribute(a: int, b: int, n: int)
    ensures (a + b) * n == a * n + b * n
  {
  }

  lemma MulMonotone(a: int, b: int, n: int)
    requires a <= b && n >= 0
    ensures a * n <= b * n
  {
    Times(b - a, n);
    assert b * n == a * n + (b - a) * n;
  }

  lemma DivBelow(i: nat, n: nat, f: nat)
    requires f > 0 && i < n * f
    ensures i / f < n && i == (i / f) * f + i % f
  {
    if i / f >= n {
      MulMonotone(n, i / f, f);
      assert false;
    }
  }

  /** A number written as quotient and remainder has that remainder. */
  lemma ModUnique(x: int, q: int, r: int, n: nat)
    requires n > 0 && 0 <= r < n && x == q * n + r
    ensures x % n == r && x / n == q
  {
    assert x == (x / n) * n + x % n;
    assert (q - x / n) * n == x % n - r;
    SmallMultiple(q - x / n, n);
  }

  /** Two indices less than one lap apart never share a place on the ring. */
  lemma ModInjective(a: int, b: int, n: nat)
    requires n > 0 && a < b < a + n
    ensures a % n != b % n
  {
    if a % n == b % n {
      assert b - a == (b / n - a / n) * n;
      SmallMultiple(b / n - a / n, n);
      assert false;
    }
  }

  /** Following the "next descriptor" pointer is counting modulo the ring. */
  lemma NextMod(k: int, n: nat)
    requires n > 0
    ensures (k % n + 1) % n == (k + 1) % n
  {
    var q, r := k / n, k % n;
    if r + 1 < n {
      ModUnique(k + 1, q, r + 1, n);
    } else {
      assert k + 1 == (q + 1) * n;
      ModUnique(k + 1, q + 1, 0, n);
    }
  }

  /** Adding to a reduced index is adding before reducing. */
  lemma ModAdd(k: int, d: int, n: nat)
    requires n > 0
    ensures (k % n + d) % n == (k + d) % n
  {
    var q, r := (k % n + d) / n, (k % n + d) % n;
    assert k + d == (k / n) * n + (q * n + r) == (k / n + q) * n + r;
    ModUnique(k + d, k / n + q, r, n);
  }

  // ----- a closed chain of n descriptors -----------------------------------

  /** The "next descriptor" pointer: the last one points back to the first. */
  function Next(i: nat, n: nat): nat { if i + 1 == n then 0 else i + 1 }

  /** The descriptor reached after k steps from the first. */
  function Place(k: nat, n: nat): (i: nat)
    requires n > 0
    ensures i < n
  {
    if k == 0 then 0 else Next(Place(k - 1, n), n)
  }

  lemma PlaceNext(k: nat, n: nat)
    requires n > 0
    ensures Place(k + 1, n) == Next(Place(k, n), n)
  {
  }

  lemma {:induction false} PlaceSmall(k: nat, n: nat)
    requires k < n
    ensures Place(k, n) == k
  {
    if k > 0 { PlaceSmall(k - 1, n); }
  }

  /** Less than one lap apart means different descriptors. */
  lemma {:induction false} PlaceInjective(a: nat, b: nat, n: nat)
    requires n > 0 && a < b < a + n
    ensures Place(a, n) != Place(b, n)
  {
    if a == 0 {
      PlaceSmall(b, n);
    } else {
      PlaceInjective(a - 1, b - 1, n);
    }
  }

  lemma {:induction false} PlaceLap(k: nat, n: nat)
    requires n > 0
    ensures Place(k + n, n) == Place(k, n)
  {
    if k == 0 {
      PlaceSmall(n - 1, n);
    } else {
      PlaceLap(k - 1, n);
    }
  }
}
