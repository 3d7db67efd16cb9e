/** Channel values and their one-integer code: modular inverses and Chinese remaindering. */
module Crt {
  import opened Basics

  // ----- Divisibility -----

  ghost predicate Times(d: int, k: int, x: int) {
    x == d * k
  }

  ghost predicate Divides(d: int, x: int) {
    exists k: int :: Times(d, k, x)
  }

  /** x and y leave the same remainder by m. */
  ghost predicate Congruent(x: int, y: int, m: int) {
    Divides(m, x - y)
  }

  ghost predicate Shared(d: nat, a: int, b: int) {
    Divides(d, a) && Divides(d, b)
  }

  /** One is the only natural number dividing both. */
  ghost predicate Coprime(a: nat, b: nat) {
    forall d: nat :: Shared(d, a, b) ==> d == 1
  }

  lemma DividesLinear(d: int, x: int, y: int, q: int, z: int)
    requires Divides(d, x) && Divides(d, y) && z == x + q * y
    ensures Divides(d, z)
  {
    var i: int :| Times(d, i, x);
    var j: int :| Times(d, j, y);
    LinearWitness(d, i, j, q);
    assert Times(d, i + q * j, z);
  }

  lemma LinearWitness(d: int, i: int, j: int, q: int)
    ensures d * i + q * (d * j) == d * (i + q * j)
  {
  }

  lemma DividesMultiple(d: int, x: int, q: int, z: int)
    requires Divides(d, x) && z == q * x
    ensures Divides(d, z)
  {
    assert Times(d, 0, 0);
    DividesLinear(d, 0, x, q, z);
  }

  lemma DividesSelf(d: int)
    ensures Divides(d, d) && Divides(d, 0)
  {
    assert Times(d, 1, d) && Times(d, 0, 0);
  }

  lemma CongruentAdd(x: int, y: int, z: int, m: int)
    requires Congruent(x, y, m) && Divides(m, z)
    ensures Congruent(x + z, y, m)
  {
    DividesLinear(m, x - y, z, 1, x + z - y);
  }

  /** Congruent numbers have equal remainders, and conversely. */
  lemma CongruentMeansSameRemainder(x: int, y: int, m: nat)
    requires m > 0
    ensures Congruent(x, y, m) <==> x % m == y % m
  {
    if Congruent(x, y, m) {
      var k: int :| Times(m, k, x - y);
      RemainderShift(y, m, k);
    }
    if x % m == y % m {
      assert x - y == m * (x / m) - m * (y / m);
      LinearWitness(m, x / m, y / m, -1);
      assert Times(m, x / m - y / m, x - y);
    }
  }

  lemma RemainderShift(y: int, m: nat, k: int)
    requires m > 0
    ensures (y + m * k) % m == y % m
  {
    var q, r := y / m, y % m;
    QuotientUnique(y + m * k, m, q + k, r);
  }

  // ----- Bezout -----

  ghost predicate Combines(a: int, m: int, x: int, t: int, g: int) {
    a * x + m * t == g
  }

  ghost predicate Bezout(a: int, m: int) {
    exists x: int, t: int :: Combines(a, m, x, t, 1)
  }

  lemma CombineStep(a: int, m: int, x: int, t: int, g: int, x': int, t': int, g': int, q: int)
    requires Combines(a, m, x, t, g) && Combines(a, m, x', t', g')
    ensures Combines(a, m, x - q * x', t - q * t', g - q * g')
  {
    assert a * (q * x') + m * (q * t') == q * (a * x' + m * t');
  }

  /** The common divisors of two numbers are those of the second and the first's remainder. */
  lemma SharedStep(d: nat, a: int, b: int, q: int, r: int)
    requires r == a - q * b
    ensures Shared(d, a, b) <==> Shared(d, b, r)
  {
    if Shared(d, a, b) { DividesLinear(d, a, b, -q, r); }
    if Shared(d, b, r) { DividesLinear(d, r, b, q, a); }
  }

  lemma SharedCombines(d: nat, a: int, m: int, x: int, t: int, g: int)
    requires Shared(d, a, m) && Combines(a, m, x, t, g)
    ensures Divides(d, g)
  {
    DividesMultiple(d, a, x, x * a);
    DividesLinear(d, x * a, m, t, g);
  }

  lemma DividesOne(d: nat)
    requires Divides(d, 1)
    ensures d == 1
  {
    var k: int :| Times(d, k, 1);
    MultipleGap(d, k);
  }

  lemma BezoutIsCoprime(a: nat, m: nat)
    requires Bezout(a, m)
    ensures Coprime(a, m)
  {
    var x: int, t: int :| Combines(a, m, x, t, 1);
    forall d: nat | Shared(d, a, m) ensures d == 1 {
      SharedCombines(d, a, m, x, t, 1);
      DividesOne(d);
    }
  }

  /** A common divisor that is a combination of the two numbers. */
  lemma {:induction false} Euclid(a: nat, b: nat) returns (g: nat, x: int, t: int)
    ensures Combines(a, b, x, t, g) && Shared(g, a, b)
    decreases b
  {
    if b == 0 {
      g, x, t := a, 1, 0;
      DividesSelf(a);
    } else {
      var x', t';
      g, x', t' := Euclid(b, a % b);
      var q := a / b;
      assert a - q * b == a % b;
      SharedStep(g, a, b, q, a % b);
      x, t := t', x' - q * t';
      assert b * (q * t') == (q * b) * t';
    }
  }

  lemma CoprimeIsBezout(a: nat, m: nat)
    requires Coprime(a, m)
    ensures Bezout(a, m)
  {
    var g, x, t := Euclid(a, m);
    assert Combines(a, m, x, t, 1);
  }

  lemma BezoutProduct(a: int, b: int, m: int)
    requires Bezout(a, m) && Bezout(b, m)
    ensures Bezout(a * b, m)
  {
    var x: int, t: int :| Combines(a, m, x, t, 1);
    var y: int, u: int :| Combines(b, m, y, u, 1);
    ProductWitness(a, b, m, x, t, y, u);
    assert Combines(a * b, m, x * y, t + a * x * u, 1);
  }

  lemma ProductWitness(a: int, b: int, m: int, x: int, t: int, y: int, u: int)
    requires a * x + m * t == 1 && b * y + m * u == 1
    ensures (a * b) * (x * y) + m * (t + a * x * u) == 1
  {
    var p := a * x;
    assert (a * b) * (x * y) == p * (b * y);
    assert p * (b * y) + p * (m * u) == p;
    assert m * (t + p * u) == m * t + p * (m * u);
  }

  // ----- The modular inverse -----

  /** The extended Euclidean loop: an inverse exactly when a and m are coprime. */
  method ModInverse(a: nat, m: nat) returns (inv: Option<nat>)
    requires m > 0 || a != 1
    ensures inv.Some? <==> Coprime(a, m)
    ensures inv.Some? ==> inv.value < m && Congruent(a * inv.value, 1, m)
  {
    if m == 1 {
      OneIsCoprime(a);
      return Some(0);
    }
    var oldR: int, r: int := a, m;
    var oldS: int, s: int := 1, 0;
    ghost var oldT: int, t: int := 0, 1;
    EuclidStart(a, m);
    while r != 0
      invariant Euclidean(a, m, oldR, r, oldS, s, oldT, t)
      decreases r
    {
      var q := oldR / r;
      EuclidStep(a, m, oldR, r, oldS, s, oldT, t, q);
      oldR, r := r, oldR - q * r;
      oldS, s := s, oldS - q * s;
      oldT, t := t, oldT - q * t;
    }
    EuclidEnd(a, m, oldR, oldS, oldT, s, t);
    if oldR != 1 { return None; }
    inv := Some((Rem(oldS, m) + m) % m);
    InverseReduced(a, m, oldS, oldT);
  }

  /** Both remainders are combinations of a and m, and share their common divisors. */
  ghost predicate Euclidean(a: nat, m: nat, oldR: int, r: int, oldS: int, s: int, oldT: int, t: int) {
    && oldR >= 0 && r >= 0 && Combines(a, m, oldS, oldT, oldR) && Combines(a, m, s, t, r)
    && (forall d: nat :: Shared(d, oldR, r) <==> Shared(d, a, m))
    && (m == 0 ==> r == 0 && oldR == a)
  }

  lemma EuclidStart(a: nat, m: nat)
    ensures Euclidean(a, m, a, m, 1, 0, 0, 1)
  {
  }

  lemma EuclidStep(a: nat, m: nat, oldR: int, r: int, oldS: int, s: int, oldT: int, t: int, q: int)
    requires Euclidean(a, m, oldR, r, oldS, s, oldT, t) && r != 0 && q == oldR / r
    ensures 0 <= oldR - q * r < r && Euclidean(a, m, r, oldR - q * r, s, oldS - q * s, t, oldT - q * t)
  {
    DivisionRule(oldR, r, q);
    CombineStep(a, m, oldS, oldT, oldR, s, t, r, q);
    forall d: nat ensures Shared(d, r, oldR - q * r) <==> Shared(d, a, m) {
      SharedStep(d, oldR, r, q, oldR - q * r);
    }
  }

  lemma DivisionRule(x: int, m: int, q: int)
    requires m > 0 && q == x / m
    ensures 0 <= x - q * m < m
  {
  }

  /** The last non-zero remainder is the greatest common divisor. */
  lemma EuclidEnd(a: nat, m: nat, g: int, x: int, t: int, s: int, u: int)
    requires Euclidean(a, m, g, 0, x, s, t, u)
    ensures g == 1 <==> Coprime(a, m)
    ensures m == 0 ==> g == a
  {
    DividesSelf(g);
    assert Shared(g, g, 0);
    if g == 1 { BezoutIsCoprime(a, m); }
  }

  /** Remainder of a division that truncates towards zero. */
  function Rem(x: int, m: nat): int
    requires m > 0
  {
    x - m * TDiv(x, m)
  }

  lemma OneIsCoprime(a: nat)
    ensures Coprime(a, 1) && Congruent(a * 0, 1, 1)
  {
    assert Times(1, -1, -1);
    assert Combines(a, 1, 0, 1, 1);
    BezoutIsCoprime(a, 1);
  }

  lemma InverseReduced(a: nat, m: nat, s: int, t: int)
    requires m > 1 && Combines(a, m, s, t, 1)
    ensures var x := (Rem(s, m) + m) % m; 0 <= x < m && Congruent(a * x, 1, m)
  {
    var w := Rem(s, m) + m;
    var x := w % m;
    var k := TDiv(s, m) - 1 + w / m;
    assert w == m * (w / m) + x;
    ReducedWitness(m, s, TDiv(s, m), w / m, x);
    InverseWitness(a, m, s, t, k, x);
    assert Times(m, -(t + a * k), a * x - 1);
  }

  lemma ReducedWitness(m: int, s: int, q: int, p: int, x: int)
    requires s - m * q + m == m * p + x
    ensures x == s - m * (q - 1 + p)
  {
  }

  lemma InverseWitness(a: int, m: int, s: int, t: int, k: int, x: int)
    requires a * s + m * t == 1 && x == s - m * k
    ensures a * x - 1 == m * -(t + a * k)
  {
    assert a * x == a * s - a * (m * k);
    assert m * (t + a * k) == m * t + a * (m * k);
  }

  // ----- Products of moduli -----

  function Product(ps: seq<nat>): nat {
    if ps == [] then 1 else Product(ps[..|ps| - 1]) * ps[|ps| - 1]
  }

  /** The product of all the moduli but one. */
  function Others(ps: seq<nat>, i: nat): nat
    requires i < |ps|
  {
    if i == |ps| - 1 then Product(ps[..|ps| - 1]) else Others(ps[..|ps| - 1], i) * ps[|ps| - 1]
  }

  ghost predicate Positive(ps: seq<nat>) {
    forall i :: 0 <= i < |ps| ==> ps[i] > 0
  }

  ghost predicate PairwiseCoprime(ps: seq<nat>) {
    forall i, j :: 0 <= i < |ps| && 0 <= j < |ps| && i != j ==> Coprime(ps[i], ps[j])
  }

  lemma {:induction false} ProductPositive(ps: seq<nat>)
    requires Positive(ps)
    ensures Product(ps) > 0
  {
    if ps != [] {
      ProductPositive(ps[..|ps| - 1]);
      PositiveTimes(Product(ps[..|ps| - 1]), ps[|ps| - 1]);
    }
  }

  lemma PositiveTimes(a: nat, b: nat)
    requires a > 0 && b > 0
    ensures a * b > 0
  {
  }

  lemma {:induction false} OthersTimes(ps: seq<nat>, i: nat)
    requires i < |ps|
    ensures Product(ps) == ps[i] * Others(ps, i)
  {
    if i < |ps| - 1 {
      OthersTimes(ps[..|ps| - 1], i);
      Regroup(ps[i], Others(ps[..|ps| - 1], i), ps[|ps| - 1]);
    }
  }

  lemma Regroup(a: int, b: int, c: int)
    ensures (a * b) * c == a * (b * c)
  {
  }

  lemma {:induction false} ProductDivided(ps: seq<nat>, i: nat)
    requires i < |ps|
    ensures Divides(ps[i], Product(ps))
  {
    OthersTimes(ps, i);
    assert Times(ps[i], Others(ps, i), Product(ps));
  }

  /** Every modulus divides the product of the others of another. */
  lemma {:induction false} OthersDivided(ps: seq<nat>, i: nat, j: nat)
    requires i < |ps| && j < |ps| && i != j
    ensures Divides(ps[i], Others(ps, j))
  {
    var front, p := ps[..|ps| - 1], ps[|ps| - 1];
    if j == |ps| - 1 {
      ProductDivided(front, i);
    } else if i == |ps| - 1 {
      assert Times(p, Others(front, j), Others(ps, j));
    } else {
      OthersDivided(front, i, j);
      DividesMultiple(ps[i], Others(front, j), p, Others(ps, j));
    }
  }

  lemma {:induction false} ProductBezout(ps: seq<nat>, m: nat)
    requires forall i :: 0 <= i < |ps| ==> Bezout(ps[i], m)
    ensures Bezout(Product(ps), m)
  {
    if ps == [] {
      assert Combines(1, m, 1, 0, 1);
    } else {
      ProductBezout(ps[..|ps| - 1], m);
      BezoutProduct(Product(ps[..|ps| - 1]), ps[|ps| - 1], m);
    }
  }

  lemma {:induction false} OthersBezout(ps: seq<nat>, i: nat, m: nat)
    requires i < |ps| && forall j :: 0 <= j < |ps| && j != i ==> Bezout(ps[j], m)
    ensures Bezout(Others(ps, i), m)
  {
    if i == |ps| - 1 {
      ProductBezout(ps[..|ps| - 1], m);
    } else {
      OthersBezout(ps[..|ps| - 1], i, m);
      BezoutProduct(Others(ps[..|ps| - 1], i), ps[|ps| - 1], m);
    }
  }

  lemma OthersCoprime(ps: seq<nat>, i: nat)
    requires PairwiseCoprime(ps) && i < |ps|
    ensures Coprime(Others(ps, i), ps[i])
  {
    forall j | 0 <= j < |ps| && j != i ensures Bezout(ps[j], ps[i]) {
      CoprimeIsBezout(ps[j], ps[i]);
    }
    OthersBezout(ps, i, ps[i]);
    BezoutIsCoprime(Others(ps, i), ps[i]);
  }

  /** A number both coprime moduli divide, their product divides. */
  lemma CoprimeDivide(a: int, b: int, z: int)
    requires Bezout(a, b) && Divides(a, z) && Divides(b, z)
    ensures Divides(a * b, z)
  {
    var x: int, t: int :| Combines(a, b, x, t, 1);
    var i: int :| Times(a, i, z);
    var j: int :| Times(b, j, z);
    CoprimeWitness(a, b, x, t, i, j, z);
    assert Times(a * b, x * j + t * i, z);
  }

  lemma CoprimeWitness(a: int, b: int, x: int, t: int, i: int, j: int, z: int)
    requires a * x + b * t == 1 && z == a * i && z == b * j
    ensures z == (a * b) * (x * j + t * i)
  {
    assert z * (a * x + b * t) == z;
    assert z * (a * x) == (b * j) * (a * x) == (a * b) * (x * j);
    assert z * (b * t) == (a * i) * (b * t) == (a * b) * (t * i);
  }

  lemma {:induction false} ProductDivides(ps: seq<nat>, z: int)
    requires PairwiseCoprime(ps) && forall i :: 0 <= i < |ps| ==> Divides(ps[i], z)
    ensures Divides(Product(ps), z)
  {
    if ps == [] {
      assert Times(1, z, z);
    } else {
      var front, k := ps[..|ps| - 1], |ps| - 1;
      ProductDivides(front, z);
      OthersCoprime(ps, k);
      CoprimeIsBezout(Product(front), ps[k]);
      CoprimeDivide(Product(front), ps[k], z);
    }
  }

  // ----- The code -----

  datatype Channel = Channel(prime: nat, value: nat, defect: nat)

  function Primes(chs: seq<Channel>): (ps: seq<nat>)
    ensures |ps| == |chs| && forall i :: 0 <= i < |chs| ==> ps[i] == chs[i].prime
  {
    seq(|chs|, i requires 0 <= i < |chs| => chs[i].prime)
  }

  /** x is below the product of the moduli and agrees with every channel. */
  ghost predicate Codes(chs: seq<Channel>, x: nat) {
    x < Product(Primes(chs)) && forall i :: 0 <= i < |chs| ==> Congruent(x, chs[i].value, chs[i].prime)
  }

  /** No two integers code the same channels. */
  lemma CodeIsUnique(chs: seq<Channel>, x: nat, y: nat)
    requires PairwiseCoprime(Primes(chs)) && Codes(chs, x) && Codes(chs, y)
    ensures x == y
  {
    var ps := Primes(chs);
    forall i | 0 <= i < |ps| ensures Divides(ps[i], x - y) {
      assert Congruent(x, chs[i].value, ps[i]) && Congruent(y, chs[i].value, ps[i]);
      DividesLinear(ps[i], x - chs[i].value, y - chs[i].value, -1, x - y);
    }
    ProductDivides(ps, x - y);
    SmallMultiple(Product(ps), x - y);
  }

  lemma SmallMultiple(n: nat, z: int)
    requires Divides(n, z) && 0 - n < z < n
    ensures z == 0
  {
    var k: int :| Times(n, k, z);
    MultipleGap(n, k);
  }

  /** Channels of the same moduli with one code hold the same values: distinct values have distinct codes. */
  lemma CodeIsInjective(c1: seq<Channel>, c2: seq<Channel>, x: nat)
    requires Primes(c1) == Primes(c2) && Codes(c1, x) && Codes(c2, x)
    requires forall i :: 0 <= i < |c1| ==> c1[i].value < c1[i].prime
    requires forall i :: 0 <= i < |c2| ==> c2[i].value < c2[i].prime
    ensures |c1| == |c2| && forall i :: 0 <= i < |c1| ==> c1[i].value == c2[i].value
  {
    assert |c1| == |c2|;
    forall i | 0 <= i < |c1| ensures c1[i].value == c2[i].value {
      assert Primes(c1)[i] == Primes(c2)[i];
      SameResidue(x, c1[i].value, c2[i].value, c1[i].prime);
    }
  }

  lemma SameResidue(x: int, v: nat, w: nat, m: nat)
    requires v < m && w < m && Congruent(x, v, m) && Congruent(x, w, m)
    ensures v == w
  {
    CongruentMeansSameRemainder(x, v, m);
    CongruentMeansSameRemainder(x, w, m);
    QuotientUnique(v, m, 0, v);
    QuotientUnique(w, m, 0, w);
  }

  /** The remainders of an integer below the product are coded by that integer. */
  lemma RemaindersCode(chs: seq<Channel>, x: nat)
    requires Positive(Primes(chs)) && x < Product(Primes(chs))
    requires forall i :: 0 <= i < |chs| ==> chs[i].prime > 0 && chs[i].value == x % chs[i].prime
    ensures Codes(chs, x)
  {
    forall i | 0 <= i < |chs| ensures Congruent(x, chs[i].value, chs[i].prime) {
      var m := chs[i].prime;
      QuotientUnique(x % m, m, 0, x % m);
      CongruentMeansSameRemainder(x, x % m, m);
    }
  }

  /** The first k channels are coded, and the other moduli divide the code. */
  ghost predicate Partly(chs: seq<Channel>, x: nat, k: nat) {
    forall i :: 0 <= i < |chs| ==> if i < k then Congruent(x, chs[i].value, chs[i].prime) else Divides(chs[i].prime, x)
  }

  lemma InverseTermCodes(chs: seq<Channel>, x: nat, k: nat, o: nat, inverse: Option<nat>, y: nat, term: nat)
    requires k < |chs| && Partly(chs, x, k) && o == Others(Primes(chs), k) && PairwiseCoprime(Primes(chs))
    requires Positive(Primes(chs)) && (inverse.Some? <==> Coprime(o, chs[k].prime))
    requires inverse.Some? ==> y == inverse.value && Congruent(o * y, 1, chs[k].prime)
    requires term == chs[k].value * o * y
    ensures Partly(chs, x + term, k + 1)
  {
    OthersCoprime(Primes(chs), k);
    TermCodes(chs, x, k, o, y, term);
  }

  lemma QuotientIsOthers(ps: seq<nat>, k: nat, n: nat, o: nat)
    requires k < |ps| && Positive(ps) && n == Product(ps) && ps[k] > 0 && o == n / ps[k]
    ensures o == Others(ps, k)
  {
    OthersTimes(ps, k);
    QuotientUnique(n, ps[k], Others(ps, k), 0);
  }

  lemma TermCodes(chs: seq<Channel>, x: nat, k: nat, o: nat, y: nat, term: nat)
    requires k < |chs| && Partly(chs, x, k) && o == Others(Primes(chs), k)
    requires Congruent(o * y, 1, chs[k].prime) && term == chs[k].value * o * y
    ensures Partly(chs, x + term, k + 1)
  {
    var ps := Primes(chs);
    TermOwnCodes(x, chs[k].value, o, y, ps[k], term);
    forall i | 0 <= i < |chs| && i != k ensures Divides(ps[i], term) {
      OthersDivided(ps, i, k);
      TermOtherDivides(chs[k].value, o, y, ps[i], term);
    }
    TermAdds(chs, x, k, term);
  }

  lemma TermAdds(chs: seq<Channel>, x: nat, k: nat, term: nat)
    requires k < |chs| && Partly(chs, x, k) && Congruent(x + term, chs[k].value, chs[k].prime)
    requires forall i :: 0 <= i < |chs| && i != k ==> Divides(Primes(chs)[i], term)
    ensures Partly(chs, x + term, k + 1)
  {
    forall i | 0 <= i < |chs|
      ensures if i < k + 1 then Congruent(x + term, chs[i].value, chs[i].prime) else Divides(chs[i].prime, x + term)
    {
      assert Primes(chs)[i] == chs[i].prime;
      if i < k {
        CongruentAdd(x, chs[i].value, term, chs[i].prime);
      } else if i > k {
        DividesLinear(chs[i].prime, x, term, 1, x + term);
      }
    }
  }

  /** A channel's own term adds its value. */
  lemma TermOwnCodes(x: int, v: int, o: int, y: int, m: int, term: int)
    requires Divides(m, x) && Congruent(o * y, 1, m) && term == v * o * y
    ensures Congruent(x + term, v, m)
  {
    TermOwn(v, o, y);
    DividesMultiple(m, o * y - 1, v, term - v);
    DividesLinear(m, x, term - v, 1, x + term - v);
  }

  /** Any other channel's term adds nothing. */
  lemma TermOtherDivides(v: int, o: int, y: int, m: int, term: int)
    requires Divides(m, o) && term == v * o * y
    ensures Divides(m, term)
  {
    TermOther(v, o, y);
    DividesMultiple(m, o, v * y, term);
  }

  lemma TermOwn(v: int, o: int, y: int)
    ensures v * (o * y - 1) == v * o * y - v
  {
  }

  lemma TermOther(v: int, o: int, y: int)
    ensures v * y * o == v * o * y
  {
  }

  lemma ReducedCodes(chs: seq<Channel>, x: nat, n: nat)
    requires Partly(chs, x, |chs|) && n == Product(Primes(chs)) && n > 0
    ensures Codes(chs, x % n)
  {
    forall i | 0 <= i < |chs| ensures Congruent(x % n, chs[i].value, chs[i].prime) {
      ProductDivided(Primes(chs), i);
      DividesMultiple(chs[i].prime, n, -(x / n), x % n - x);
      CongruentAdd(x, chs[i].value, x % n - x, chs[i].prime);
    }
  }

  class SAMRState {
    var channels: seq<Channel>

    ghost predicate Valid()
      reads this
    {
      forall i :: 0 <= i < |channels| ==> channels[i].value < channels[i].prime
    }

    /** Reachability, network tier, offset precision and drift category. */
    constructor ClockDefault()
      ensures Valid() && Primes(channels) == [2, 3, 5, 7]
    {
      var unknown := TWO64 - 1;
      channels := [Channel(2, 0, unknown), Channel(3, 0, unknown), Channel(5, 0, unknown), Channel(7, 0, unknown)];
    }

    method Set(i: nat, value: nat, defect: nat)
      requires Valid() && i < |channels| && value < channels[i].prime
      modifies this
      ensures Valid() && Primes(channels) == old(Primes(channels))
      ensures channels == old(channels)[i := Channel(old(channels[i]).prime, value, defect)]
    {
      channels := channels[i := Channel(channels[i].prime, value, defect)];
    }

    method TotalResolution() returns (n: nat)
      ensures n == Product(Primes(channels))
    {
      n := 1;
      ghost var ps := Primes(channels);
      for i := 0 to |channels|
        invariant n == Product(ps[..i])
      {
        assert ps[..i + 1][..i] == ps[..i];
        n := n * channels[i].prime;
      }
      assert ps[..|channels|] == ps;
    }

    /** One channel's term: its value times the product of the other moduli and that product's inverse. */
    method AddTerm(n: nat, result: nat, k: nat) returns (more: nat)
      requires Positive(Primes(channels)) && n == Product(Primes(channels)) && k < |channels|
      requires PairwiseCoprime(Primes(channels)) ==> Partly(channels, result, k)
      ensures PairwiseCoprime(Primes(channels)) ==> Partly(channels, more, k + 1)
    {
      ghost var ps := Primes(channels);
      assert ps[k] > 0;
      var o := n / channels[k].prime;
      QuotientIsOthers(ps, k, n, o);
      var inverse := ModInverse(o, channels[k].prime);
      var y := if inverse.Some? then inverse.value else 0;
      var term := channels[k].value * o * y;
      more := result + term;
      if PairwiseCoprime(ps) { InverseTermCodes(channels, result, k, o, inverse, y, term); }
    }

    /**
     * The code of the channels: below the product always, and the one integer that agrees with them all when the
     * moduli are coprime.
     */
    method CrtDecode() returns (code: nat)
      requires Positive(Primes(channels))
      ensures code < Product(Primes(channels))
      ensures PairwiseCoprime(Primes(channels)) ==> Codes(channels, code)
    {
      var n := TotalResolution();
      ghost var ps := Primes(channels);
      ProductPositive(ps);
      var result: nat := 0;
      forall i | 0 <= i < |channels| ensures Divides(channels[i].prime, 0) {
        DividesSelf(channels[i].prime);
      }
      for k := 0 to |channels|
        invariant PairwiseCoprime(ps) ==> Partly(channels, result, k)
      {
        result := AddTerm(n, result, k);
      }
      code := result % n;
      if PairwiseCoprime(ps) { ReducedCodes(channels, result, n); }
    }
  }
}
