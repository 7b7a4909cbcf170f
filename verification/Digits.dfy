/** Positional numerals: values of digit strings, fixed-width digits of values, and how they invert each other. */
module Digits {

  function Pow(b: nat, e: nat): (r: nat)
    ensures b > 0 ==> r > 0
  {
    if e == 0 then 1 else PowPos(b, Pow(b, e - 1)); b * Pow(b, e - 1)
  }

  lemma PowPos(b: nat, r: nat)
    ensures b > 0 && r > 0 ==> b * r > 0
  {}

  /** Most significant digit first. */
  function Value(b: nat, ds: seq<nat>): nat {
    if ds == [] then 0 else Value(b, ds[..|ds| - 1]) * b + ds[|ds| - 1]
  }

  /** The w least significant digits of v. */
  function ToDigits(b: nat, w: nat, v: nat): (ds: seq<nat>)
    requires b > 0
    ensures |ds| == w && forall i :: 0 <= i < w ==> ds[i] < b
  {
    seq(w, i requires 0 <= i < w => (v / Pow(b, w - 1 - i)) % b)
  }

  predicate Digital(b: nat, ds: seq<nat>) {
    forall i :: 0 <= i < |ds| ==> ds[i] < b
  }

  lemma {:induction false} PowAdd(b: nat, m: nat, n: nat)
    ensures Pow(b, m + n) == Pow(b, m) * Pow(b, n)
    decreases n
  {
    if n == 0 {
      assert Pow(b, m) * 1 == Pow(b, m);
    } else {
      PowAdd(b, m, n - 1);
      var x, y := Pow(b, m), Pow(b, n - 1);
      assert Pow(b, m + n) == b * (x * y);
      assert b * (x * y) == x * (b * y);
    }
  }

  lemma {:induction false} PowPow(b: nat, m: nat, n: nat)
    ensures Pow(Pow(b, m), n) == Pow(b, m * n)
    decreases n
  {
    if n == 0 {
      assert m * n == 0;
    } else {
      PowPow(b, m, n - 1);
      assert m * n == m + m * (n - 1);
      PowAdd(b, m, m * (n - 1));
    }
  }

  lemma {:induction false} ValueConcat(b: nat, x: seq<nat>, y: seq<nat>)
    ensures Value(b, x + y) == Value(b, x) * Pow(b, |y|) + Value(b, y)
    decreases |y|
  {
    if y == [] {
      assert x + y == x;
      assert Value(b, x) * 1 == Value(b, x);
    } else {
      var y' := y[..|y| - 1];
      assert (x + y)[..|x + y| - 1] == x + y';
      ValueConcat(b, x, y');
      Distribute(Value(b, x), Pow(b, |y'|), Value(b, y'), b);
    }
  }

  lemma Distribute(v: nat, p: nat, u: nat, b: nat)
    ensures (v * p + u) * b == v * (b * p) + u * b
  {
    assert (v * p) * b == v * (b * p);
  }

  lemma {:induction false} ValueBound(b: nat, ds: seq<nat>)
    requires b > 0 && Digital(b, ds)
    ensures Value(b, ds) < Pow(b, |ds|)
    decreases |ds|
  {
    if ds != [] {
      var r := ds[..|ds| - 1];
      ValueBound(b, r);
      var v, p := Value(b, r), Pow(b, |r|);
      assert v * b <= (p - 1) * b by { MulMono(v, p - 1, b); }
      assert (p - 1) * b == b * p - b;
    }
  }

  lemma MulMono(x: nat, y: nat, b: nat)
    requires x <= y
    ensures x * b <= y * b
  {
    assert (y - x) * b >= 0;
    assert (y - x) * b == y * b - x * b;
  }

  /** Dividing by b and then by c is dividing by m == b * c; the remainders combine. */
  lemma DivDiv(a: nat, b: nat, c: nat, m: nat)
    requires b > 0 && c > 0 && m == b * c
    ensures m > 0 && (a / b) / c == a / m
    ensures a % m == ((a / b) % c) * b + a % b
  {
    PowPos(b, c);
    var q := a / b;
    Combine(a, b, q, a % b, c, q / c, q % c, m);
    DivUnique(a, m, q / c, (q % c) * b + a % b);
  }

  lemma Combine(a: nat, b: nat, q: nat, r: nat, c: nat, s: nat, t: nat, m: nat)
    requires a == b * q + r && r < b && q == c * s + t && t < c && m == b * c
    ensures a == m * s + (t * b + r) && t * b + r < m
  {
    assert b * (c * s + t) == b * (c * s) + t * b;
    assert b * (c * s) == m * s;
    MulMono(t, c - 1, b);
    assert (c - 1) * b == m - b;
  }

  lemma DivUnique(a: nat, m: nat, q: nat, r: nat)
    requires m > 0 && a == m * q + r && r < m
    ensures a / m == q && a % m == r
  {
    var q', r' := a / m, a % m;
    assert a == m * q' + r';
    if q' < q {
      assert m * q == m * q' + m * (q - q');
      assert m * (q - q') >= m by { MulMono(1, q - q', m); }
    } else if q' > q {
      assert m * q' == m * q + m * (q' - q);
      assert m * (q' - q) >= m by { MulMono(1, q' - q, m); }
    }
  }

  lemma LastDigit(b: nat, w: nat, v: nat)
    requires b > 0 && w > 0
    ensures ToDigits(b, w, v) == ToDigits(b, w - 1, v / b) + [v % b]
  {
    forall i | 0 <= i < w - 1
      ensures ToDigits(b, w, v)[i] == ToDigits(b, w - 1, v / b)[i]
    {
      DivDiv(v, b, Pow(b, w - 2 - i), Pow(b, w - 1 - i));
    }
    assert ToDigits(b, w, v)[w - 1] == (v / Pow(b, 0)) % b && v / 1 == v;
  }

  lemma FirstDigit(b: nat, w: nat, p: nat, v: nat, n: nat)
    requires b > 0 && p == Pow(b, w) && v < n * p && n <= b
    ensures ToDigits(b, w + 1, v)[0] < n
  {
    DivBound(v, p, n);
    ModSmall(v / p, b);
  }

  lemma DivBound(v: nat, p: nat, n: nat)
    requires p > 0 && v < n * p
    ensures v / p < n
  {
    var q, r := v / p, v % p;
    assert v == p * q + r;
    if q >= n { MulMono(n, q, p); }
  }

  lemma ModSmall(v: nat, m: nat)
    requires v < m
    ensures v % m == v
  {}

  /** One more digit of width is the next digit in front. */
  lemma PrependDigit(b: nat, w: nat, v: nat)
    requires b > 0
    ensures ToDigits(b, w + 1, v) == [(v / Pow(b, w)) % b] + ToDigits(b, w, v)
  {}

  /** The digits of a width give the value modulo that power. */
  lemma {:induction false} DigitsValue(b: nat, w: nat, v: nat)
    requires b > 0
    ensures Value(b, ToDigits(b, w, v)) == v % Pow(b, w)
    decreases w
  {
    if w == 0 {
      assert v % 1 == 0;
    } else {
      var p, m, q := Pow(b, w - 1), Pow(b, w), v / b;
      var ds := ToDigits(b, w, v);
      DigitsValue(b, w - 1, q);
      LastDigit(b, w, v);
      assert ds[..w - 1] == ToDigits(b, w - 1, q) && ds[w - 1] == v % b;
      DivDiv(v, b, p, m);
      var hi := Value(b, ds[..w - 1]);
      assert hi == q % p;
      assert Value(b, ds) == hi * b + v % b;
    }
  }

  /** Fixed-width digits are the inverse of their value. */
  lemma {:induction false} ValueDigits(b: nat, ds: seq<nat>)
    requires b > 0 && Digital(b, ds)
    ensures ToDigits(b, |ds|, Value(b, ds)) == ds
    decreases |ds|
  {
    if ds != [] {
      var r, d := ds[..|ds| - 1], ds[|ds| - 1];
      ValueDigits(b, r);
      DivUnique(Value(b, ds), b, Value(b, r), d);
      LastDigit(b, |ds|, Value(b, ds));
      assert ds == r + [d];
    }
  }

  /** The leading k digits are the digits of the value shifted right. */
  lemma LeadingDigits(b: nat, w: nat, v: nat, k: nat)
    requires b > 0 && k <= w
    ensures ToDigits(b, w, v)[..k] == ToDigits(b, k, v / Pow(b, w - k))
  {
    forall i | 0 <= i < k
      ensures ToDigits(b, w, v)[i] == ToDigits(b, k, v / Pow(b, w - k))[i]
    {
      PowAdd(b, w - k, k - 1 - i);
      DivDiv(v, Pow(b, w - k), Pow(b, k - 1 - i), Pow(b, w - 1 - i));
    }
  }
}
