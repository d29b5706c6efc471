// Shared result types and the small arithmetic facts that several components need.
module Results {
  datatype Option<+T> = None | Some(value: T)

  datatype Result<+T, +E> = Ok(value: T) | Err(error: E)
}

module RealNumbers {
  function Sum(xs: seq<real>): real {
    if xs == [] then 0.0 else Sum(xs[..|xs| - 1]) + xs[|xs| - 1]
  }

  function Max(a: real, b: real): (m: real)
    ensures m >= a && m >= b && (m == a || m == b)
  {
    if b > a then b else a
  }
}

module SetSizes {
  lemma {:induction false} SubsetSize<T>(a: set<T>, b: set<T>)
    requires a <= b
    ensures |a| <= |b|
    decreases a
  {
    if a != {} {
      var x :| x in a;
      SubsetSize(a - {x}, b - {x});
    }
  }
}

module Rationals {
  // A quotient times its divisor.
  lemma Quotient(a: real, b: real)
    requires b != 0.0
    ensures b * (a / b) == a
  {
  }

  function Product(a: nat, b: nat): nat {
    a * b
  }

  function FloorDiv(a: nat, b: nat): nat
    requires b > 0
  {
    a / b
  }

  // The least integer that is not below numerator / denominator.
  function CeilDiv(numerator: nat, denominator: nat): nat
    requires denominator > 0
  {
    (numerator + denominator - 1) / denominator
  }

  lemma DivBounds(a: nat, b: nat)
    requires b > 0
    ensures b * (a / b) <= a < b * (a / b) + b
  {
  }

  lemma NextMultiple(k: nat, b: nat)
    ensures (k + 1) * b == k * b + b
  {
  }

  lemma MulAtLeast(d: nat, b: nat)
    requires d > 0
    ensures d * b >= b
  {
    assert d * b == b + (d - 1) * b;
  }

  lemma MulLess(x: int, y: int, b: nat)
    requires b > 0
    ensures x * b < y * b <==> x < y
    ensures x * b <= y * b <==> x <= y
  {
    assert (y - x) * b == y * b - x * b;
    assert (x - y) * b == x * b - y * b;
    if x < y {
      MulAtLeast(y - x, b);
    } else if y < x {
      MulAtLeast(x - y, b);
    }
  }

  lemma CeilDivIsLeast(a: nat, b: nat, k: nat)
    requires b > 0
    ensures k < CeilDiv(a, b) <==> k * b < a
  {
    var c := CeilDiv(a, b);
    DivBounds(a + b - 1, b);
    assert b * c < a + b <= b * c + b;
    if k < c {
      MulLess(k + 1, c, b);
      assert (k + 1) * b == k * b + b;
      assert c * b == b * c;
    } else {
      MulLess(c, k, b);
      assert c * b == b * c;
    }
  }

  lemma FloorDivMonotone(a: nat, c: nat, b: nat)
    requires b > 0 && a <= c
    ensures FloorDiv(a, b) <= FloorDiv(c, b)
  {
    var d := FloorDiv(a, b);
    DivBounds(a, b);
    DivBounds(c, b);
    assert (FloorDiv(c, b) + 1) * b == b * FloorDiv(c, b) + b;
    assert d * b == b * d;
    MulLess(d, FloorDiv(c, b) + 1, b);
  }

  // Adding at least one divisor moves the quotient up.
  lemma FloorDivStep(a: nat, step: nat, b: nat)
    requires 0 < b <= step
    ensures FloorDiv(a, b) < FloorDiv(a + step, b)
  {
    DivModShift(1, a, b);
    FloorDivMonotone(a + b, a + step, b);
  }

  lemma MulNonNegative(x: real, y: real)
    requires x >= 0.0 && y >= 0.0
    ensures x * y >= 0.0
  {
  }

  // Quotient and remainder of a number split at a multiple of the divisor.
  lemma DivModShift(q: nat, r: nat, b: nat)
    requires b > 0
    ensures (q * b + r) / b == q + r / b
    ensures (q * b + r) % b == r % b
  {
    var a := q * b + r;
    DivBounds(r, b);
    DivBounds(a, b);
    assert (q + r / b) * b == q * b + b * (r / b);
    var d := a / b - (q + r / b);
    assert b * (a / b) == (q + r / b) * b + d * b;
    if d >= 1 {
      MulLess(1, d, b);
    } else if d <= -1 {
      MulLess(d, -1, b);
    }
    assert a % b == a - b * (a / b);
    assert r % b == r - b * (r / b);
  }

  // Python's round on the exact quotient a / b: ties go to the even neighbour.
  function RoundHalfEven(a: nat, b: nat): nat
    requires b > 0
  {
    var q, r := a / b, a % b;
    if 2 * r < b || (2 * r == b && q % 2 == 0) then q else q + 1
  }

  // RoundHalfEven is a nearest integer, and on a tie it is the even one.
  lemma RoundHalfEvenIsNearest(a: nat, b: nat)
    requires b > 0
    ensures -(b as int) <= 2 * (RoundHalfEven(a, b) * b - a) <= b
    ensures 2 * (RoundHalfEven(a, b) * b - a) == b || 2 * (a - RoundHalfEven(a, b) * b) == b
      ==> RoundHalfEven(a, b) % 2 == 0
  {
    var q, r := a / b, a % b;
    assert a == b * q + r;
    assert q * b == b * q;
    assert (q + 1) * b == b * q + b;
  }
}

// Sums over the values of a finite map.
module Totals {

  ghost function Total<K>(m: map<K, nat>): nat
    decreases |m|
  {
    if m == map[] then 0 else
      var k :| k in m;
      m[k] + Total(m - {k})
  }

  // The sum does not depend on the order in which keys are taken.
  lemma {:induction false} TotalTake<K>(m: map<K, nat>, k: K)
    requires k in m
    ensures Total(m) == m[k] + Total(m - {k})
    decreases |m|
  {
    var j :| j in m && Total(m) == m[j] + Total(m - {j});
    if j != k {
      TotalTake(m - {j}, k);
      TotalTake(m - {k}, j);
      assert m - {j} - {k} == m - {k} - {j};
    }
  }

  lemma TotalUpdate<K>(m: map<K, nat>, k: K, v: nat)
    ensures Total(m[k := v]) == Total(m) + v - (if k in m then m[k] else 0)
  {
    TotalTake(m[k := v], k);
    if k in m {
      TotalTake(m, k);
      assert m[k := v] - {k} == m - {k};
    } else {
      assert m[k := v] - {k} == m;
    }
  }
}
