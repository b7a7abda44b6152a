/** Arithmetic modulo m: congruence, powers, primality, and Fermat's little theorem. */
module ModMath {
  /** a and b leave the same remainder modulo m. */
  ghost predicate Cong(a: int, b: int, m: int)
    requires m > 0
  {
    (a - b) % m == 0
  }

  function Pow(b: int, e: nat): int {
    if e == 0 then 1 else b * Pow(b, e - 1)
  }

  /** No divisor strictly between 1 and p. */
  ghost predicate Prime(p: int) {
    p > 1 && forall d :: 1 < d < p ==> p % d != 0
  }

  // ---------------------------------------------------------------------------------------------
  // Congruence is an equivalence and respects the ring operations
  // ---------------------------------------------------------------------------------------------

  lemma MulMono(x: int, y: int, w: nat)
    requires x <= y
    ensures x * w <= y * w
  {
  }

  /** Uniqueness of quotient and remainder. */
  lemma DivModUnique(n: int, m: int, q: int, r: int)
    requires m > 0 && 0 <= r < m && n == q * m + r
    ensures n / m == q && n % m == r
  {
    var q', r' := n / m, n % m;
    assert n == q' * m + r';
    if q < q' { MulMono(q + 1, q', m); }
    if q' < q { MulMono(q' + 1, q, m); }
  }

  lemma CongFromMultiple(a: int, b: int, m: int, k: int)
    requires m > 0 && a - b == k * m
    ensures Cong(a, b, m)
  {
    DivModUnique(a - b, m, k, 0);
  }

  lemma CongWitness(a: int, b: int, m: int) returns (k: int)
    requires m > 0 && Cong(a, b, m)
    ensures a == b + k * m
  {
    k := (a - b) / m;
  }

  lemma CongRefl(a: int, m: int)
    requires m > 0
    ensures Cong(a, a, m)
  {
    CongFromMultiple(a, a, m, 0);
  }

  lemma CongSym(a: int, b: int, m: int)
    requires m > 0 && Cong(a, b, m)
    ensures Cong(b, a, m)
  {
    var k := CongWitness(a, b, m);
    CongFromMultiple(b, a, m, -k);
  }

  lemma CongTrans(a: int, b: int, c: int, m: int)
    requires m > 0 && Cong(a, b, m) && Cong(b, c, m)
    ensures Cong(a, c, m)
  {
    var k := CongWitness(a, b, m);
    var l := CongWitness(b, c, m);
    assert (k + l) * m == k * m + l * m;
    CongFromMultiple(a, c, m, k + l);
  }

  lemma CongAdd(a: int, b: int, c: int, d: int, m: int)
    requires m > 0 && Cong(a, b, m) && Cong(c, d, m)
    ensures Cong(a + c, b + d, m)
    ensures Cong(a - c, b - d, m)
  {
    var k := CongWitness(a, b, m);
    var l := CongWitness(c, d, m);
    assert (k + l) * m == k * m + l * m && (k - l) * m == k * m - l * m;
    CongFromMultiple(a + c, b + d, m, k + l);
    CongFromMultiple(a - c, b - d, m, k - l);
  }

  lemma CongMul(a: int, b: int, c: int, d: int, m: int)
    requires m > 0 && Cong(a, b, m) && Cong(c, d, m)
    ensures Cong(a * c, b * d, m)
  {
    var k := CongWitness(a, b, m);
    var l := CongWitness(c, d, m);
    calc {
      a * c - b * d;
      { assert a == b + k * m && c == d + l * m; }
      (b + k * m) * (d + l * m) - b * d;
      (b * l + k * d + k * (l * m)) * m;
    }
    CongFromMultiple(a * c, b * d, m, b * l + k * d + k * (l * m));
  }

  /** Congruent numbers have the same remainder, and conversely. */
  lemma CongMod(a: int, b: int, m: int)
    requires m > 0
    ensures Cong(a, b, m) <==> a % m == b % m
  {
    if Cong(a, b, m) {
      var k := CongWitness(a, b, m);
      assert (b / m + k) * m == (b / m) * m + k * m;
      DivModUnique(a, m, b / m + k, b % m);
    }
    if a % m == b % m {
      assert (a / m - b / m) * m == (a / m) * m - (b / m) * m;
      CongFromMultiple(a, b, m, a / m - b / m);
    }
  }

  lemma CongReduce(a: int, m: int)
    requires m > 0
    ensures Cong(a % m, a, m) && 0 <= a % m < m
  {
    DivModUnique(a % m, m, 0, a % m);
    CongMod(a % m, a, m);
  }

  /** Two reduced numbers that are congruent are equal. */
  lemma CongReduced(a: int, b: int, m: int)
    requires m > 0 && 0 <= a < m && 0 <= b < m && Cong(a, b, m)
    ensures a == b
  {
    CongMod(a, b, m);
    DivModUnique(a, m, 0, a);
    DivModUnique(b, m, 0, b);
  }

  // ---------------------------------------------------------------------------------------------
  // Powers
  // ---------------------------------------------------------------------------------------------

  lemma {:induction false} PowAdd(b: int, i: nat, j: nat)
    ensures Pow(b, i + j) == Pow(b, i) * Pow(b, j)
  {
    if i > 0 {
      PowAdd(b, i - 1, j);
      assert (b * Pow(b, i - 1)) * Pow(b, j) == b * (Pow(b, i - 1) * Pow(b, j));
    }
  }

  lemma {:induction false} PowMulBase(a: int, b: int, e: nat)
    ensures Pow(a * b, e) == Pow(a, e) * Pow(b, e)
  {
    if e > 0 {
      PowMulBase(a, b, e - 1);
      MulInterchange(a, b, Pow(a, e - 1), Pow(b, e - 1));
    }
  }

  lemma MulInterchange(a: int, b: int, x: int, y: int)
    ensures (a * b) * (x * y) == (a * x) * (b * y)
  {
    assert b * (x * y) == x * (b * y);
  }

  lemma {:induction false} PowCong(a: int, b: int, e: nat, m: int)
    requires m > 0 && Cong(a, b, m)
    ensures Cong(Pow(a, e), Pow(b, e), m)
  {
    if e == 0 {
      CongRefl(1, m);
    } else {
      PowCong(a, b, e - 1, m);
      CongMul(a, b, Pow(a, e - 1), Pow(b, e - 1), m);
    }
  }

  // ---------------------------------------------------------------------------------------------
  // Primes
  // ---------------------------------------------------------------------------------------------

  /** Euclid's lemma, by descent on a: the remainder of p by a is a smaller factor with the same
      property. */
  lemma {:induction false} EuclidDescent(p: int, a: int, b: int)
    requires Prime(p) && 0 < a < p && (a * b) % p == 0
    ensures b % p == 0
    decreases a
  {
    if a > 1 {
      var q, r := p / a, p % a;
      var k := CongWitness(a * b, 0, p);
      calc {
        r * b;
        { assert r == p - q * a; }
        (p - q * a) * b;
        p * b - q * (a * b);
        { assert a * b == k * p; }
        (b - q * k) * p;
      }
      CongFromMultiple(r * b, 0, p, b - q * k);
      EuclidDescent(p, r, b);
    }
  }

  lemma Euclid(p: int, a: int, b: int)
    requires Prime(p) && (a * b) % p == 0
    ensures a % p == 0 || b % p == 0
  {
    if a % p != 0 {
      CongReduce(a, p);
      CongRefl(b, p);
      CongMul(a % p, a, b, b, p);
      CongMod((a % p) * b, a * b, p);
      EuclidDescent(p, a % p, b);
    }
  }

  /** A factor that is not divisible by the prime can be cancelled. */
  lemma CancelFactor(p: int, a: int, b: int, c: int)
    requires Prime(p) && a % p != 0 && Cong(a * b, a * c, p)
    ensures Cong(b, c, p)
  {
    assert a * (b - c) == a * b - a * c;
    Euclid(p, a, b - c);
  }

  // ---------------------------------------------------------------------------------------------
  // Fermat's little theorem, through the binomial theorem
  // ---------------------------------------------------------------------------------------------

  function Choose(n: nat, k: nat): nat {
    if k == 0 then 1 else if n == 0 then 0 else Choose(n - 1, k - 1) + Choose(n - 1, k)
  }

  lemma {:induction false} ChooseAbove(n: nat, k: nat)
    requires k > n
    ensures Choose(n, k) == 0
  {
    if n > 0 {
      ChooseAbove(n - 1, k - 1);
      ChooseAbove(n - 1, k);
    }
  }

  /** Absorption: k (n over k) = n (n-1 over k-1). */
  lemma {:induction false} ChooseAbsorb(n: nat, k: nat)
    requires n > 0 && k > 0
    ensures k * Choose(n, k) == n * Choose(n - 1, k - 1)
  {
    if n == 1 {
      if k > 1 { ChooseAbove(1, k); ChooseAbove(0, k - 1); }
    } else {
      var x, y := Choose(n - 1, k - 1), Choose(n - 1, k);
      ChooseAbsorb(n - 1, k);
      AbsorbSplit(k, x, y);
      if k > 1 {
        ChooseAbsorb(n - 1, k - 1);
        AbsorbJoin(n - 1, Choose(n - 2, k - 2), Choose(n - 2, k - 1));
      }
    }
  }

  lemma AbsorbSplit(k: int, x: int, y: int)
    ensures k * (x + y) == (k - 1) * x + x + k * y
  {
  }

  lemma AbsorbJoin(n: int, u: int, v: int)
    ensures n * u + (u + v) + n * v == (n + 1) * (u + v)
  {
  }

  lemma ChooseDivisible(p: int, k: nat)
    requires Prime(p) && 0 < k < p
    ensures Choose(p, k) % p == 0
  {
    ChooseAbsorb(p, k);
    CongFromMultiple(k * Choose(p, k), 0, p, Choose(p - 1, k - 1));
    DivModUnique(k, p, 0, k);
    Euclid(p, k, Choose(p, k));
  }

  /** The first j + 1 terms of the binomial expansion of (1 + a)^n. */
  function Binomial(n: nat, j: nat, a: int): int {
    Choose(n, j) * Pow(a, j) + if j == 0 then 0 else Binomial(n, j - 1, a)
  }

  lemma {:induction false} BinomialPascal(n: nat, j: nat, a: int)
    requires j > 0
    ensures Binomial(n + 1, j, a) == Binomial(n, j, a) + a * Binomial(n, j - 1, a)
  {
    var x, y, w := Choose(n, j - 1), Choose(n, j), Pow(a, j - 1);
    if j > 1 {
      BinomialPascal(n, j - 1, a);
      PascalAlgebra(x, y, a, w, Binomial(n, j - 2, a));
    } else {
      PascalAlgebra(x, y, a, w, 0);
    }
  }

  lemma PascalAlgebra(x: int, y: int, a: int, w: int, b: int)
    ensures (x + y) * (a * w) + a * b == y * (a * w) + a * (x * w + b)
  {
    assert x * (a * w) == a * (x * w);
  }

  lemma {:induction false} BinomialTheorem(n: nat, a: int)
    ensures Pow(a + 1, n) == Binomial(n, n, a)
  {
    if n > 0 {
      BinomialTheorem(n - 1, a);
      BinomialPascal(n - 1, n, a);
      ChooseAbove(n - 1, n);
    }
  }

  lemma {:induction false} BinomialModPrime(p: int, j: nat, a: int)
    requires Prime(p) && j < p
    ensures Cong(Binomial(p, j, a), 1, p)
  {
    if j == 0 {
      CongRefl(1, p);
    } else {
      BinomialModPrime(p, j - 1, a);
      ChooseDivisible(p, j);
      CongRefl(Pow(a, j), p);
      CongMul(Choose(p, j), 0, Pow(a, j), Pow(a, j), p);
      CongAdd(Choose(p, j) * Pow(a, j), 0, Binomial(p, j - 1, a), 1, p);
    }
  }

  lemma {:induction false} ChooseFull(n: nat)
    ensures Choose(n, n) == 1
  {
    if n > 0 {
      ChooseFull(n - 1);
      ChooseAbove(n - 1, n);
    }
  }

  /** a^p is congruent to a, by induction on a. */
  lemma {:induction false} FermatPower(p: int, a: nat)
    requires Prime(p)
    ensures Cong(Pow(a, p), a, p)
  {
    if a == 0 {
      CongRefl(0, p);
    } else {
      var b := a - 1;
      FermatPower(p, b);
      BinomialTheorem(p, b);
      ChooseFull(p);
      BinomialModPrime(p, p - 1, b);
      CongAdd(Pow(b, p), b, Binomial(p, p - 1, b), 1, p);
      assert Pow(a, p) == Pow(b, p) + Binomial(p, p - 1, b);
    }
  }

  /** Fermat's little theorem. */
  lemma Fermat(p: int, a: nat)
    requires Prime(p) && a % p != 0
    ensures Cong(Pow(a, p - 1), 1, p)
  {
    FermatPower(p, a);
    CancelFactor(p, a, Pow(a, p - 1), 1);
  }
}
