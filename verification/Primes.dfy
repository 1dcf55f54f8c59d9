/** Primality, and the one arithmetic fact the probe sequence needs of it: a prime that divides
    a product divides one of its factors. Large numbers are shown prime by Pocklington's
    criterion, whose certificates (a base and the inverses of two residues) the verifier
    evaluates. */
module Primes {
  predicate Divides(d: int, x: int)
    requires d > 0
  {
    x % d == 0
  }

  ghost predicate IsPrime(n: int)
  {
    2 <= n && forall d :: 2 <= d < n ==> !Divides(d, n)
  }

  // ---- products ---------------------------------------------------------------

  lemma MulMono(a: int, b: int, c: int)
    requires a <= b && 0 <= c
    ensures a * c <= b * c
    ensures c * a <= c * b
  {
  }

  lemma MulAssoc(a: int, b: int, c: int)
    ensures (a * b) * c == a * (b * c)
    ensures (a * b) * c == (a * c) * b
  {
  }

  lemma CancelLeft(a: int, x: int, y: int)
    requires a > 0 && a * x == a * y
    ensures x == y
  {
    var k := y - x;
    assert a * k == 0;
    if k >= 1 {
      MulMono(1, k, a);
      assert false;
    } else if k <= -1 {
      MulMono(k, -1, a);
      assert false;
    }
  }

  /** Quotient and remainder are unique. */
  lemma DivModUnique(d: int, q: int, r: int)
    requires 0 <= r < d
    ensures (d * q + r) / d == q && (d * q + r) % d == r
  {
    var x := d * q + r;
    var k := x / d - q;
    assert d * k == r - x % d by {
      assert d * (x / d) + x % d == x;
      assert d * (x / d - q) == d * (x / d) - d * q;
    }
    if k >= 1 {
      MulMono(1, k, d);
      assert false;
    } else if k <= -1 {
      MulMono(k, -1, d);
      assert false;
    }
  }

  lemma DividesIntro(d: int, q: int, x: int)
    requires d > 0 && d * q == x
    ensures Divides(d, x) && x / d == q
  {
    DivModUnique(d, q, 0);
  }

  lemma Quotient(d: int, x: int) returns (q: int)
    requires d > 0 && Divides(d, x)
    ensures d * q == x && q == x / d
  {
    q := x / d;
  }

  lemma DividesCombine(d: int, x: int, y: int, m: int)
    requires d > 0 && Divides(d, x) && Divides(d, y)
    ensures Divides(d, x - m * y)
  {
    var p := Quotient(d, x);
    var q := Quotient(d, y);
    MulAssoc(m, d, q);
    MulAssoc(d, m, q);
    assert d * (p - m * q) == d * p - d * (m * q);
    DividesIntro(d, p - m * q, x - m * y);
  }

  lemma DividesBound(d: int, x: int)
    requires d > 0 && x > 0 && Divides(d, x)
    ensures d <= x
  {
    var q := Quotient(d, x);
    if q <= 0 {
      MulMono(q, 0, d);
      assert false;
    }
    MulMono(1, q, d);
  }

  /** Euclid's lemma for a factor below the prime. */
  lemma {:induction false} EuclidBelow(p: int, x: int, y: int)
    requires IsPrime(p) && 0 < x < p && Divides(p, x * y)
    ensures Divides(p, y)
    decreases x
  {
    if x > 1 {
      assert !Divides(x, p);
      var q, r := p / x, p % x;
      assert p == q * x + r;
      assert r * y == p * y - q * (x * y) by {
        MulAssoc(q, x, y);
        assert (p - q * x) * y == p * y - (q * x) * y;
      }
      DividesIntro(p, y, p * y);
      DividesCombine(p, p * y, x * y, q);
      EuclidBelow(p, r, y);
    } else {
      assert x * y == y;
    }
  }

  /** Euclid's lemma: a prime dividing a product divides one of the factors. */
  lemma Euclid(p: int, x: int, y: int)
    requires IsPrime(p) && Divides(p, x * y) && !Divides(p, x)
    ensures Divides(p, y)
  {
    var q, r := x / p, x % p;
    assert x == p * q + r;
    assert r * y == x * y - y * (p * q) by {
      assert (x - p * q) * y == x * y - (p * q) * y;
    }
    DividesIntro(p, q, p * q);
    DividesCombine(p, x * y, p * q, y);
    EuclidBelow(p, r, y);
  }

  // ---- powers modulo n ----------------------------------------------------------

  function Pow(a: int, k: nat): int
  {
    if k == 0 then 1 else a * Pow(a, k - 1)
  }

  lemma {:induction false} PowAdd(a: int, i: nat, j: nat)
    ensures Pow(a, i + j) == Pow(a, i) * Pow(a, j)
  {
    if i > 0 {
      PowAdd(a, i - 1, j);
      MulAssoc(a, Pow(a, i - 1), Pow(a, j));
    }
  }

  lemma ModShift(p: int, m: int, z: int)
    requires p > 0
    ensures (p * m + z) % p == z % p
  {
    var c, r := z / p, z % p;
    assert p * (m + c) == p * m + p * c;
    DivModUnique(p, m + c, r);
  }

  lemma ResidueIsReduced(x: int, n: int)
    requires n > 0
    ensures (x % n) % n == x % n
  {
    DivModUnique(n, 0, x % n);
  }

  lemma MulModLeft(x: int, y: int, n: int)
    requires n > 0
    ensures (x * y) % n == ((x % n) * y) % n
  {
    var q, r := x / n, x % n;
    var m, z := q * y, r * y;
    assert x * y == n * m + z by {
      assert (n * q + r) * y == (n * q) * y + r * y;
      MulAssoc(n, q, y);
    }
    ModShift(n, m, z);
  }

  lemma MulMod(x: int, y: int, n: int)
    requires n > 0
    ensures (x * y) % n == ((x % n) * (y % n)) % n
  {
    var r, t := x % n, y % n;
    MulModLeft(x, y, n);
    assert (x * y) % n == (y * r) % n;
    MulModLeft(y, r, n);
    assert (y * r) % n == (r * t) % n;
  }

  lemma PowAddMod(a: int, i: nat, j: nat, n: int)
    requires n > 0
    ensures Pow(a, i + j) % n == ((Pow(a, i) % n) * (Pow(a, j) % n)) % n
  {
    PowAdd(a, i, j);
    MulMod(Pow(a, i), Pow(a, j), n);
  }

  ghost predicate IsUnitPower(a: int, k: nat, p: int)
    requires p > 1
  {
    Pow(a, k) % p == 1
  }

  lemma UnitPowerCancels(a: int, i: nat, j: nat, k: nat, p: int)
    requires p > 1 && IsUnitPower(a, j, p) && k == i + j
    ensures Pow(a, k) % p == Pow(a, i) % p
  {
    PowAddMod(a, i, j, p);
    ResidueIsReduced(Pow(a, i), p);
  }

  lemma {:induction false} UnitPowerMultiple(a: int, k: nat, t: nat, kt: nat, p: int)
    requires p > 1 && IsUnitPower(a, k, p) && kt == k * t
    ensures IsUnitPower(a, kt, p)
  {
    if t > 0 {
      var x := kt - k;
      assert x == k * (t - 1);
      MulMono(0, t - 1, k);
      UnitPowerMultiple(a, k, t - 1, x, p);
      UnitPowerCancels(a, x, k, kt, p);
    }
  }

  /** The least positive exponent at which a is 1 modulo p. */
  ghost predicate IsOrder(a: int, p: int, d: nat)
    requires p > 1
  {
    1 <= d && IsUnitPower(a, d, p) && forall e :: 1 <= e < d ==> !IsUnitPower(a, e, p)
  }

  lemma OrderDivides(a: int, p: int, d: nat, k: nat)
    requires p > 1 && IsOrder(a, p, d) && IsUnitPower(a, k, p)
    ensures Divides(d, k)
  {
    var t, r := k / d, k % d;
    var dt := k - r;
    assert dt == d * t;
    UnitPowerMultiple(a, d, t, dt, p);
    UnitPowerCancels(a, r, dt, k, p);
    assert IsUnitPower(a, r, p);
  }

  lemma {:induction false} LeastOrder(a: int, p: int, e: nat) returns (d: nat)
    requires p > 1 && e >= 1 && IsUnitPower(a, e, p)
    ensures d <= e && IsOrder(a, p, d)
    decreases e
  {
    if f: nat :| 1 <= f < e && IsUnitPower(a, f, p) {
      d := LeastOrder(a, p, f);
    } else {
      d := e;
    }
  }

  lemma UnitPowerAbove(a: int, p: int, k: nat, i: nat) returns (m: nat)
    requires p > 1 && k >= 1 && IsUnitPower(a, k, p)
    ensures m >= i && IsUnitPower(a, m, p)
  {
    MulMono(1, k, i);
    m := k * i;
    UnitPowerMultiple(a, k, i, m, p);
  }

  /** If some power of a is 1 modulo p, no power of a is 0 modulo p. */
  lemma PowNonzero(a: int, p: int, k: nat, i: nat)
    requires p > 1 && k >= 1 && IsUnitPower(a, k, p)
    ensures Pow(a, i) % p != 0
  {
    if Pow(a, i) % p == 0 {
      var m := UnitPowerAbove(a, p, k, i);
      PowAddMod(a, i, m - i, p);
      assert false;
    }
  }

  /** The order exists and is below p: the first p powers of a take at most p - 1
      residues, so two of them agree, and their quotient is 1. */
  lemma OrderExists(a: int, p: int, k: nat) returns (d: nat)
    requires p > 1 && k >= 1 && IsUnitPower(a, k, p)
    ensures IsOrder(a, p, d) && d < p
  {
    var residues := seq(p, i requires 0 <= i => Pow(a, i) % p - 1);
    forall i | 0 <= i < p
      ensures 0 <= residues[i] < p - 1
    {
      PowNonzero(a, p, k, i);
    }
    var i, j := Collision(residues, p - 1);
    EqualPowersQuotient(a, p, k, i, j, j - i);
    d := LeastOrder(a, p, j - i);
  }

  lemma PowShift(a: int, p: int, i: nat, j: nat, ic: nat, jc: nat)
    requires p > 1 && Pow(a, i) % p == Pow(a, j) % p
    requires ic >= i && ic - i == jc - j && IsUnitPower(a, ic, p)
    ensures IsUnitPower(a, jc, p)
  {
    PowAddMod(a, i, ic - i, p);
    PowAddMod(a, j, jc - j, p);
  }

  lemma UnitPowerSubtract(a: int, i: nat, j: nat, k: nat, p: int)
    requires p > 1 && IsUnitPower(a, j, p) && IsUnitPower(a, k, p) && k == i + j
    ensures IsUnitPower(a, i, p)
  {
    UnitPowerCancels(a, i, j, k, p);
  }

  lemma EqualPowersQuotient(a: int, p: int, k: nat, i: nat, j: nat, e: nat)
    requires p > 1 && k >= 1 && IsUnitPower(a, k, p)
    requires i < j && e == j - i && Pow(a, i) % p == Pow(a, j) % p
    ensures IsUnitPower(a, e, p)
  {
    var m := UnitPowerAbove(a, p, k, i);
    PowShift(a, p, i, j, m, m + e);
    UnitPowerSubtract(a, e, m, m + e, p);
  }

  // ---- counting -------------------------------------------------------------------

  /** The naturals below n, as a set. */
  ghost function Below(n: nat): (s: set<int>)
    ensures forall x :: x in s <==> 0 <= x < n
    ensures |s| == n
  {
    if n == 0 then {} else Below(n - 1) + {n - 1}
  }

  /** Distinct elements of a finite set are at most as many as the set has. */
  lemma {:induction false} DistinctBound<T>(s: seq<T>, whole: set<T>)
    requires forall x, y :: 0 <= x < y < |s| ==> s[x] != s[y]
    requires forall x :: 0 <= x < |s| ==> s[x] in whole
    ensures |s| <= |whole|
  {
    if s != [] {
      var last := |s| - 1;
      DistinctBound(s[..last], whole - {s[last]});
    }
  }

  /** Pigeonhole: more than m numbers below m cannot all be different. */
  lemma Collision(s: seq<int>, m: nat) returns (i: nat, j: nat)
    requires |s| > m && forall t :: 0 <= t < |s| ==> 0 <= s[t] < m
    ensures i < j < |s| && s[i] == s[j]
  {
    if forall x, y :: 0 <= x < y < |s| ==> s[x] != s[y] {
      DistinctBound(s, Below(m));
      assert false;
    } else {
      i, j :| 0 <= i < j < |s| && s[i] == s[j];
    }
  }

  // ---- Pocklington's criterion ------------------------------------------------------

  /** If the prime q does not divide m, a power of q dividing d * m divides d. */
  lemma {:induction false} PrimePowerDivides(q: int, e: nat, f: int, d: int, m: int)
    requires IsPrime(q) && !Divides(q, m) && f == Pow(q, e) && f > 0 && Divides(f, d * m)
    ensures Divides(f, d)
  {
    if e == 0 {
      DividesIntro(1, d, d);
    } else {
      var g := Pow(q, e - 1);
      assert f == q * g;
      assert g > 0 by {
        if g <= 0 { MulMono(g, 0, q); }
      }
      var t := Quotient(f, d * m);
      MulAssoc(q, g, t);
      DividesIntro(q, g * t, m * d);
      Euclid(q, m, d);
      var c := Quotient(q, d);
      MulAssoc(q, c, m);
      CancelLeft(q, g * t, c * m);
      DividesIntro(g, t, c * m);
      PrimePowerDivides(q, e - 1, g, c, m);
      var u := Quotient(g, c);
      MulAssoc(q, g, u);
      DividesIntro(f, u, d);
    }
  }

  lemma ModOfDivisor(x: int, n: int, p: int)
    requires n > 0 && p > 0 && Divides(p, n)
    ensures (x % n) % p == x % p
  {
    var t := Quotient(p, n);
    var y, z := x / n, x % n;
    var m := t * y;
    assert x == p * m + z by {
      MulAssoc(p, t, y);
    }
    ModShift(p, m, z);
  }

  lemma InvertibleNonzero(u: int, x: int, n: int, p: int)
    requires n > 1 && p > 1 && Divides(p, n) && (u * x) % n == 1
    ensures !Divides(p, x)
  {
    ModOfDivisor(u * x, n, p);
    DivModUnique(p, 0, 1);
    if Divides(p, x) {
      var t := Quotient(p, x);
      MulAssoc(u, p, t);
      MulAssoc(p, u, t);
      DividesIntro(p, u * t, u * x);
      assert false;
    }
  }

  lemma PredecessorDivides(x: int, p: int)
    requires p > 1 && x % p == 1
    ensures Divides(p, x - 1)
  {
    DividesIntro(p, x / p, x - 1);
  }

  /** A computed power: a^exponent leaves the remainder residue modulo n. */
  datatype Power = Power(exponent: nat, residue: int)

  ghost predicate IsPower(n: int, a: int, w: Power)
    requires n > 1
  {
    Pow(a, w.exponent) % n == w.residue
  }

  lemma PowerBelow(n: int, a: int, w: Power, p: int)
    requires n > 1 && p > 1 && Divides(p, n) && IsPower(n, a, w)
    ensures Pow(a, w.exponent) % p == w.residue % p
  {
    ModOfDivisor(Pow(a, w.exponent), n, p);
  }

  /** a^(n-1) is 1 modulo n: the Fermat half of a certificate. */
  ghost predicate Fermat(n: int, a: int, top: Power)
  {
    n > 1 && top == Power(n - 1, 1) && IsPower(n, a, top)
  }

  /** The other half, for one prime q: a^((n-1)/q) - 1 has the inverse u modulo n. */
  ghost predicate Certifies(n: int, a: int, q: int, w: Power, u: int)
  {
    n > 1 && q > 1 && w.exponent * q == n - 1 && IsPower(n, a, w) && (u * (w.residue - 1)) % n == 1
  }

  lemma CertifyFermat(n: int, a: int, top: Power)
    requires n > 1 && top == Power(n - 1, 1) && IsPower(n, a, top)
    ensures Fermat(n, a, top)
  {
  }

  /** Certifies, with every number a literal at the call so that the verifier computes it. */
  lemma Certify(n: int, a: int, q: int, k: nat, r: int, u: int, w: Power)
    requires n > 1 && q > 1 && k * q == n - 1 && (u * (r - 1)) % n == 1
    requires w == Power(k, r) && IsPower(n, a, w)
    ensures Certifies(n, a, q, w, u)
  {
  }

  lemma FermatBelow(n: int, a: int, top: Power, p: int, m: nat)
    requires Fermat(n, a, top) && p > 1 && Divides(p, n) && m == n - 1
    ensures IsUnitPower(a, m, p)
  {
    PowerBelow(n, a, top, p);
    DivModUnique(p, 0, 1);
  }

  lemma CertifiesBelow(n: int, a: int, q: int, w: Power, u: int, p: int, k: nat)
    requires Certifies(n, a, q, w, u) && p > 1 && Divides(p, n) && k == w.exponent
    ensures !IsUnitPower(a, k, p)
  {
    PowerBelow(n, a, w, p);
    InvertibleNonzero(u, w.residue - 1, n, p);
    if w.residue % p == 1 {
      PredecessorDivides(w.residue, p);
      assert false;
    }
  }

  lemma CertificateOrder(n: int, a: int, q: int, e: nat, f: int, top: Power, w: Power, u: int, p: int, d: nat)
    requires IsPrime(q) && Fermat(n, a, top) && Certifies(n, a, q, w, u)
    requires f == Pow(q, e) && f > 0 && Divides(f, n - 1)
    requires p > 1 && Divides(p, n) && IsOrder(a, p, d)
    ensures Divides(f, d)
  {
    FermatBelow(n, a, top, p, n - 1);
    OrderDivides(a, p, d, n - 1);
    var m := Quotient(d, n - 1);
    if Divides(q, m) {
      var c := Quotient(q, m);
      var k := w.exponent;
      MulAssoc(q, d, c);
      MulAssoc(d, q, c);
      CancelLeft(q, d * c, k);
      if c < 0 {
        MulMono(c, -1, d);
        assert false;
      }
      UnitPowerMultiple(a, d, c, k, p);
      CertifiesBelow(n, a, q, w, u, p, k);
      assert false;
    }
    PrimePowerDivides(q, e, f, d, m);
  }

  lemma PrimeNotInPrime(p: int, q: int)
    requires IsPrime(p) && IsPrime(q) && p != q
    ensures !Divides(p, q)
  {
    if Divides(p, q) {
      DividesBound(p, q);
    }
  }

  /** If no divisor of n above 1 is at most f, and (f + 1)^2 exceeds n, then n is prime. */
  lemma NoSmallDivisor(n: int, f: int)
    requires n >= 2 && f >= 1 && (f + 1) * (f + 1) > n
    requires forall p :: p > 1 && Divides(p, n) ==> p > f
    ensures IsPrime(n)
  {
    forall d | 2 <= d < n
      ensures !Divides(d, n)
    {
      if Divides(d, n) {
        var c := Quotient(d, n);
        if c <= 1 {
          MulMono(c, 1, d);
          assert false;
        }
        DividesIntro(c, d, n);
        MulMono(f + 1, d, c);
        MulMono(f + 1, c, f + 1);
        assert false;
      }
    }
  }

  /** Pocklington's criterion with one prime power. */
  lemma PocklingtonOne(n: int, a: int, q: int, e: nat, f: int, top: Power, w: Power, u: int)
    requires IsPrime(q) && Fermat(n, a, top) && Certifies(n, a, q, w, u)
    requires f == Pow(q, e) && f > 0 && Divides(f, n - 1) && (f + 1) * (f + 1) > n
    ensures IsPrime(n)
  {
    forall p | p > 1 && Divides(p, n)
      ensures p > f
    {
      FermatBelow(n, a, top, p, n - 1);
      var d := OrderExists(a, p, n - 1);
      CertificateOrder(n, a, q, e, f, top, w, u, p, d);
      DividesBound(f, d);
    }
    NoSmallDivisor(n, f);
  }

  /** Pocklington's criterion with two different primes and one base. */
  lemma PocklingtonTwo(n: int, a: int, top: Power, q: int, w: Power, u: int, r: int, x: Power, v: int, f: int)
    requires IsPrime(q) && IsPrime(r) && q != r && Fermat(n, a, top)
    requires Certifies(n, a, q, w, u) && Certifies(n, a, r, x, v)
    requires f == q * r && (f + 1) * (f + 1) > n
    ensures IsPrime(n)
  {
    MulMono(1, r, q);
    forall p | p > 1 && Divides(p, n)
      ensures p > f
    {
      FermatBelow(n, a, top, p, n - 1);
      var d := OrderExists(a, p, n - 1);
      CertificatePrime(n, a, q, top, w, u, p, d);
      CertificatePrime(n, a, r, top, x, v, p, d);
      ProductDivides(q, r, d);
      DividesBound(f, d);
    }
    NoSmallDivisor(n, f);
  }

  lemma CertificatePrime(n: int, a: int, q: int, top: Power, w: Power, u: int, p: int, d: nat)
    requires IsPrime(q) && Fermat(n, a, top) && Certifies(n, a, q, w, u)
    requires p > 1 && Divides(p, n) && IsOrder(a, p, d)
    ensures Divides(q, d)
  {
    DividesIntro(q, w.exponent, n - 1);
    assert Pow(q, 1) == q * Pow(q, 0) == q;
    CertificateOrder(n, a, q, 1, q, top, w, u, p, d);
  }

  lemma ProductDivides(q: int, r: int, d: int)
    requires IsPrime(q) && IsPrime(r) && q != r && Divides(q, d) && Divides(r, d)
    ensures q * r > 0 && Divides(q * r, d)
  {
    var m := Quotient(r, d);
    PrimeNotInPrime(q, r);
    Euclid(q, r, m);
    var t := Quotient(q, m);
    MulAssoc(q, r, t);
    MulAssoc(r, q, t);
    MulMono(1, r, q);
    DividesIntro(q * r, t, d);
  }

  // ---- computing powers -----------------------------------------------------------------

  ghost predicate Congruent(n: int, a: int, k: nat, x: int)
    requires n > 1
  {
    Pow(a, k) % n == x % n
  }

  lemma CongruentSquare(n: int, a: int, k: nat, x: int)
    requires n > 1 && Congruent(n, a, k, x)
    ensures Congruent(n, a, 2 * k, x * x)
  {
    PowAddMod(a, k, k, n);
    MulMod(x, x, n);
    assert k + k == 2 * k;
  }

  lemma CongruentTimes(n: int, a: int, k: nat, x: int, y: int)
    requires n > 1 && Congruent(n, a, k, x) && y == x * a
    ensures Congruent(n, a, k + 1, y)
  {
    PowAddMod(a, k, 1, n);
    assert Pow(a, 1) == a * Pow(a, 0) == a;
    MulMod(x, a, n);
  }

  /** One square-and-multiply step: what the exponent and the residue become. */
  predicate Step(n: int, a: int, k: nat, x: int, b: bool, k': nat, y: int)
    requires n > 1
  {
    if b then k' == 2 * k + 1 && (x * x * a) % n == y else k' == 2 * k && (x * x) % n == y
  }

  lemma SquareStep(n: int, a: int, k: nat, x: int, b: bool, k': nat, y: int)
    requires n > 1 && IsPower(n, a, Power(k, x)) && Step(n, a, k, x, b, k', y)
    ensures IsPower(n, a, Power(k', y))
  {
    ResidueIsReduced(Pow(a, k), n);
    CongruentSquare(n, a, k, x);
    if b {
      CongruentTimes(n, a, 2 * k, x * x, x * x * a);
    }
  }

  /** Four steps, one hexadecimal digit of the exponent; on literals the verifier computes them. */
  lemma Nibble(n: int, a: int, k: nat, x: int, b3: bool, x3: int, b2: bool, x2: int,
               b1: bool, x1: int, b0: bool, k': nat, y: int)
    requires n > 1 && IsPower(n, a, Power(k, x))
    requires (if b3 then x * x * a else x * x) % n == x3
    requires (if b2 then x3 * x3 * a else x3 * x3) % n == x2
    requires (if b1 then x2 * x2 * a else x2 * x2) % n == x1
    requires (if b0 then x1 * x1 * a else x1 * x1) % n == y
    requires k' == 16 * k + (if b3 then 8 else 0) + (if b2 then 4 else 0) + (if b1 then 2 else 0) + (if b0 then 1 else 0)
    ensures IsPower(n, a, Power(k', y))
  {
    var k3 := 2 * k + (if b3 then 1 else 0);
    var k2 := 2 * k3 + (if b2 then 1 else 0);
    var k1 := 2 * k2 + (if b1 then 1 else 0);
    SquareStep(n, a, k, x, b3, k3, x3);
    SquareStep(n, a, k3, x3, b2, k2, x2);
    SquareStep(n, a, k2, x2, b1, k1, x1);
    SquareStep(n, a, k1, x1, b0, k', y);
  }

  lemma PowerZero(n: int, a: int)
    requires n > 1
    ensures IsPower(n, a, Power(0, 1))
  {
    DivModUnique(n, 0, 1);
  }
}
