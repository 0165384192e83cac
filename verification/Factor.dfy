/** `pq_factorize` of `src/infrastructure/mtproto_auth.c`: Pollard's rho with Floyd's cycle and
    Euclid's algorithm. */
module Factor {
  import opened Bytes

  const TWO_TO_128 := TWO_TO_64 * TWO_TO_64

  // ---- divisibility ----

  ghost predicate Divides(e: nat, a: nat) {
    exists k: nat :: a == e * k
  }

  ghost predicate IsGcd(d: nat, a: nat, b: nat) {
    && Divides(d, a) && Divides(d, b)
    && forall e: nat :: Divides(e, a) && Divides(e, b) ==> Divides(e, d)
  }

  ghost predicate Prime(n: nat) {
    n >= 2 && forall d: nat :: Divides(d, n) ==> d == 1 || d == n
  }

  lemma DividesIntro(e: nat, k: nat)
    ensures Divides(e, e * k)
  {
  }

  lemma DividesDifference(e: nat, k: nat, m: nat, t: nat, r: nat)
    requires e * k == e * m * t + r
    ensures Divides(e, r)
  {
    assert e * m * t == e * (m * t);
    assert r == e * (k - m * t);
    if e == 0 { DividesIntro(e, 0); } else { DividesIntro(e, k - m * t); }
  }

  lemma DividesSum(e: nat, k: nat, m: nat, t: nat)
    ensures Divides(e, e * m * t + e * k)
  {
    assert e * m * t + e * k == e * (m * t + k);
    DividesIntro(e, m * t + k);
  }

  /** `a` and `a % b` have the same divisors in common with `b`. */
  lemma DividesMod(e: nat, a: nat, b: nat)
    requires b > 0 && Divides(e, b)
    ensures Divides(e, a) <==> Divides(e, a % b)
  {
    hide Divides;
    var m := Quotient(e, b);
    var t, r := a / b, a % b;
    assert a == b * t + r;
    if Divides(e, a) {
      var k := Quotient(e, a);
      DividesDifference(e, k, m, t, r);
    }
    if Divides(e, r) {
      var k := Quotient(e, r);
      DividesSum(e, k, m, t);
    }
  }

  lemma Quotient(e: nat, a: nat) returns (k: nat)
    requires Divides(e, a)
    ensures a == e * k
  {
    k :| a == e * k;
  }

  /** One step of Euclid's loop keeps the greatest common divisor. */
  lemma GcdStep(d: nat, a: nat, b: nat)
    requires b > 0
    ensures IsGcd(d, a, b) <==> IsGcd(d, b, a % b)
  {
    forall e: nat | Divides(e, b) ensures Divides(e, a) <==> Divides(e, a % b) { DividesMod(e, a, b); }
  }

  lemma GcdOfZero(a: nat)
    ensures IsGcd(a, a, 0)
  {
    DividesIntro(a, 1);
    DividesIntro(a, 0);
  }

  function Euclid(a: nat, b: nat): (d: nat)
    decreases b
  {
    if b == 0 then a else Euclid(b, a % b)
  }

  lemma {:induction false} EuclidIsGcd(a: nat, b: nat)
    ensures IsGcd(Euclid(a, b), a, b)
    decreases b
  {
    hide IsGcd;
    if b == 0 {
      GcdOfZero(a);
    } else {
      EuclidIsGcd(b, a % b);
      GcdStep(Euclid(a, b), a, b);
    }
  }

  /** Euclid's loop. */
  method Gcd(a0: uint64, b0: uint64) returns (d: uint64)
    ensures d == Euclid(a0, b0) && IsGcd(d, a0, b0)
  {
    hide IsGcd;
    var a, b := a0, b0;
    while b != 0
      invariant Euclid(a, b) == Euclid(a0, b0)
      decreases b
    {
      a, b := b, a % b;
    }
    d := a;
    EuclidIsGcd(a0, b0);
  }

  // ---- rho ----

  /** The map of the iteration, as the code computes it in 128 bits. */
  function F(c: nat, pq: nat, v: nat): (r: nat)
    requires pq > 0
    ensures r < pq
  {
    (v * v + c) % pq
  }

  /** `k` steps of the iteration from `v`. */
  function Iterate(c: nat, pq: nat, v: nat, k: nat): (r: nat)
    requires pq > 0
  {
    if k == 0 then v else F(c, pq, Iterate(c, pq, v, k - 1))
  }

  function Distance(x: nat, y: nat): nat {
    if x > y then x - y else y - x
  }

  /** `d` is the common divisor of `pq` and of a point of the orbit of 2 and the point twice as far. */
  ghost predicate Found(pq: nat, d: nat) {
    exists c: nat, k: nat :: 1 <= c < 20 && 1 <= k <= 1000000 && CycleGcd(c, pq, k, d)
  }

  ghost predicate CycleGcd(c: nat, pq: nat, k: nat, d: nat) {
    pq > 0 && IsGcd(d, Distance(Iterate(c, pq, 2, k), Iterate(c, pq, 2, 2 * k)), pq)
  }

  /** The square of a word plus a small constant fits twice the width. */
  lemma NoOverflow(v: nat, c: nat, width: nat)
    requires v < width && c < 20 && width > 20
    ensures v * v + c < width * width
  {
    var m := width - 1;
    assert v * v <= m * v && m * v <= m * m;
    assert width * width == m * m + 2 * m + 1;
  }

  /** The first greatest common divisor other than 1 along the orbit, after `k` steps without one;
      1 when the two points meet or a million steps are over. */
  function Attempt(c: nat, pq: nat, k: nat): nat
    requires pq > 0
    decreases 1000000 - k
  {
    if k >= 1000000 then 1
    else
      var a := Distance(Iterate(c, pq, 2, k + 1), Iterate(c, pq, 2, 2 * (k + 1)));
      if a == 0 then 1
      else if Euclid(a, pq) != 1 then Euclid(a, pq)
      else Attempt(c, pq, k + 1)
  }

  /** The first of the attempts from `c` on that splits `pq`. */
  function Search(pq: nat, c: nat): Option<nat>
    requires pq > 0
    decreases 20 - c
  {
    if c >= 20 then None
    else
      var d := Attempt(c, pq, 0);
      if d != 1 && d != pq then Some(d) else Search(pq, c + 1)
  }

  /** One of the nineteen attempts: 1 when nothing was found. */
  method Rho(pq: uint64, c: nat) returns (d: uint64)
    requires pq >= 3 && 1 <= c < 20
    ensures d == Attempt(c, pq, 0) && (d == 1 || (Found(pq, d) && Divides(d, pq)))
  {
    hide F, IsGcd, Iterate, Euclid;
    var x, y, steps := 2, 2, 0;
    d := 1;
    StartOrbit(c, pq);
    while d == 1 && steps < 1000000
      invariant x < pq && y < pq && 0 <= steps <= 1000000
      invariant x == Iterate(c, pq, 2, steps) && y == Iterate(c, pq, 2, 2 * steps)
      invariant d == 1 || (Found(pq, d) && Divides(d, pq))
      invariant Attempt(c, pq, 0) == if d == 1 then Attempt(c, pq, steps) else d
      decreases 1000000 - steps
    {
      NextOrbit(c, pq, steps);
      x := Step(x, c, pq);
      y := Step(y, c, pq);
      y := Step(y, c, pq);
      steps := steps + 1;
      var a := if x > y then x - y else y - x;
      if a == 0 { break; }
      d := Gcd(a, pq);
      assert CycleGcd(c, pq, steps, d);
      GcdDivides(d, a, pq);
    }
  }

  /** `(uint64_t)(((__uint128_t)v * v + c) % pq)` */
  method Step(v: uint64, c: nat, pq: uint64) returns (r: uint64)
    requires pq > 0 && c < 20
    ensures r == F(c, pq, v) && r < pq
  {
    NoOverflow(v, c, TWO_TO_64);
    var wide := (v * v + c) % TWO_TO_128;
    r := wide % pq;
  }

  lemma StartOrbit(c: nat, pq: nat)
    requires pq > 0
    ensures Iterate(c, pq, 2, 0) == 2
  {
  }

  lemma NextOrbit(c: nat, pq: nat, k: nat)
    requires pq > 0
    ensures Iterate(c, pq, 2, k + 1) == F(c, pq, Iterate(c, pq, 2, k))
    ensures Iterate(c, pq, 2, 2 * (k + 1)) == F(c, pq, F(c, pq, Iterate(c, pq, 2, 2 * k)))
  {
    assert 2 * (k + 1) - 1 == 2 * k + 1;
    assert Iterate(c, pq, 2, 2 * k + 1) == F(c, pq, Iterate(c, pq, 2, 2 * k));
  }

  lemma GcdDivides(d: nat, a: nat, b: nat)
    requires IsGcd(d, a, b)
    ensures Divides(d, b)
  {
  }

  /** A proper divisor splits the number. */
  lemma Split(d: nat, n: nat)
    requires Divides(d, n) && n > 0 && d != 1 && d != n
    ensures 1 < d < n && 1 < n / d < n && d * (n / d) == n
  {
    var k: nat :| n == d * k;
    assert d != 0 && k != 0 && k != 1;
    assert n / d == k by { QuotientIs(d, k); }
    assert d * k >= 2 * d && d * k >= 2 * k by { MulAtLeast(d, k); }
  }

  lemma MulIncreases(d: nat, x: nat, y: nat)
    requires d > 0
    ensures x < y ==> d * x + d <= d * y
  {
    if x < y {
      var z: nat := y - x - 1;
      assert d * (x + 1 + z) == d * x + d + d * z;
    }
  }

  lemma QuotientIs(d: nat, k: nat)
    requires d > 0
    ensures d * k / d == k
  {
    var n := d * k;
    var t := n / d;
    assert d * t <= n < d * t + d;
    MulIncreases(d, t, k);
    MulIncreases(d, k, t);
  }

  lemma MulAtLeast(d: nat, k: nat)
    requires d >= 2 && k >= 2
    ensures d * k >= 2 * d && d * k >= 2 * k
  {
    assert d * (k - 2) >= 0 && (d - 2) * k >= 0;
  }

  /** `pq_factorize` */
  method PqFactorize(pq: uint64) returns (ok: bool, p: uint32, q: uint32)
    ensures Factored(pq) == if ok then Some((p, q)) else None
    ensures ok && pq % 2 == 1 ==> 1 < p <= q && p * q == pq && (Found(pq, p) || Found(pq, q))
  {
    hide Found, Divides, Attempt;
    p, q := 0, 0;
    if pq < 2 { return false, 0, 0; }
    if pq % 2 == 0 {
      p, q := 2, pq / 2 % TWO_TO_32;
      if p > q { p, q := q, p; }
      return true, p, q;
    }
    for c := 1 to 20
      invariant Search(pq, 1) == Search(pq, c)
    {
      var d := Rho(pq, c);
      if d != 1 && d != pq {
        Split(d, pq);
        var p1, q1 := d, pq / d;
        if p1 > q1 { p1, q1 := q1, p1; }
        if p1 > 0xFFFF_FFFF || q1 > 0xFFFF_FFFF { return false, 0, 0; }
        return true, p1, q1;
      }
    }
    ok := false;
  }

  /** The factors found: by the shortcut for even numbers, otherwise from the first attempt that splits
      pq, given up when its divisor or the cofactor does not fit 32 bits. */
  function Factored(pq: uint64): Option<(uint32, uint32)> {
    if pq < 2 then None
    else if pq % 2 == 0 then Some(EvenFactors(pq))
    else Halves(pq, Search(pq, 1))
  }

  /** A divisor and its cofactor in order, if both fit 32 bits. */
  function Halves(pq: uint64, found: Option<nat>): Option<(uint32, uint32)> {
    match found
    case None => None
    case Some(d) => if !Fits(pq, d) then None else Some(if d > pq / d then (pq / d, d) else (d, pq / d))
  }

  /** What the search finds divides pq properly. */
  lemma {:induction false} AttemptDivides(c: nat, pq: nat, k: nat)
    requires pq > 0
    ensures Divides(Attempt(c, pq, k), pq)
    decreases 1000000 - k
  {
    hide Divides, Iterate, Euclid, IsGcd;
    DividesIntro(1, pq);
    if k < 1000000 {
      var a := Distance(Iterate(c, pq, 2, k + 1), Iterate(c, pq, 2, 2 * (k + 1)));
      EuclidIsGcd(a, pq);
      GcdDivides(Euclid(a, pq), a, pq);
      AttemptDivides(c, pq, k + 1);
    }
  }

  lemma {:induction false} SearchDivides(pq: nat, c: nat)
    requires pq > 0
    ensures Search(pq, c).Some? ==> var d := Search(pq, c).value; Divides(d, pq) && d != 1 && d != pq
    decreases 20 - c
  {
    hide Divides, Attempt;
    if c < 20 {
      AttemptDivides(c, pq, 0);
      SearchDivides(pq, c + 1);
    }
  }

  /** For odd numbers the factors found are right. */
  lemma OddFactors(pq: uint64)
    requires pq % 2 == 1
    ensures Factored(pq).Some? ==> var (p, q) := Factored(pq).value; 1 < p <= q && p * q == pq
  {
    hide Divides, Search;
    if pq >= 2 {
      SearchDivides(pq, 1);
      var found := Search(pq, 1);
      if found.Some? { Split(found.value, pq); HalvesSplit(pq, found.value); }
    }
  }

  lemma HalvesSplit(pq: uint64, d: nat)
    requires 1 < d < pq && 1 < pq / d < pq && d * (pq / d) == pq
    ensures Halves(pq, Some(d)).Some? ==> var (p, q) := Halves(pq, Some(d)).value; 1 < p <= q && p * q == pq
  {
    var e := pq / d;
    assert e * d == d * e;
  }

  /** Both the divisor and its cofactor fit 32 bits. */
  predicate Fits(pq: nat, d: nat) {
    d > 0 && d <= 0xFFFF_FFFF && pq / d <= 0xFFFF_FFFF
  }

  /** What the shortcut for even numbers returns: the cofactor cut to 32 bits. */
  function EvenFactors(pq: uint64): (r: (uint32, uint32)) {
    var q := pq / 2 % TWO_TO_32;
    if q < 2 then (q, 2) else (2, q)
  }

  /** The shortcut is right, with both factors proper, exactly when the cofactor fits 32 bits and
      is not 1. */
  lemma EvenShortcut(pq: uint64)
    requires pq >= 2 && pq % 2 == 0
    ensures var (p, q) := EvenFactors(pq); (1 < p <= q && p * q == pq) <==> 2 <= pq / 2 < TWO_TO_32
  {
  }

  lemma EvenShortcutFails()
    ensures EvenFactors(0x2_0000_0000) == (0, 2) && EvenFactors(2) == (1, 2)
  {
  }

  // ---- when odd numbers are factored ----

  /** The orbit starts at 2 and squares. */
  lemma Orbit(c: nat, pq: nat, k: nat)
    requires pq > 0
    ensures Iterate(c, pq, 2, 0) == 2
    ensures var x := Iterate(c, pq, 2, k); Iterate(c, pq, 2, k + 1) == (x * x + c) % pq
  {
  }

  /** After `k` steps, and no sooner, two points of the orbit have a divisor in common with `pq`, and it is
      a proper one. */
  ghost predicate SplitsAt(c: nat, pq: nat, k: nat, d: nat) {
    && 1 <= k <= 1000000 && 1 < d < pq && CycleGcd(c, pq, k, d)
    && forall j :: 1 <= j < k ==> CycleGcd(c, pq, j, 1)
  }

  lemma DividesBoth(d: nat, e: nat)
    requires Divides(d, e) && Divides(e, d)
    ensures d == e
  {
    var k: nat :| e == d * k;
    var m: nat :| d == e * m;
    if d != 0 {
      assert d == d * (k * m) by { assert d * k * m == d * (k * m); }
      assert d * 1 == d;
      Cancel(d, k * m, 1);
      UnitFactors(k, m);
    }
  }

  lemma UnitFactors(k: nat, m: nat)
    requires k * m == 1
    ensures k == 1 && m == 1
  {
    if k >= 2 && m >= 2 { MulAtLeast(k, m); }
  }

  lemma GcdUnique(d: nat, e: nat, a: nat, b: nat)
    requires IsGcd(d, a, b) && IsGcd(e, a, b)
    ensures d == e
  {
    DividesBoth(d, e);
  }

  /** What the points after `k + 1` steps have in common with `pq` is what the attempt looks at. */
  lemma CycleIs(c: nat, pq: nat, k: nat, d: nat)
    requires pq >= 2 && k < 1000000 && CycleGcd(c, pq, k + 1, d) && d != pq
    ensures Attempt(c, pq, k) == if d == 1 then Attempt(c, pq, k + 1) else d
  {
    hide IsGcd, Iterate;
    var a := Distance(Iterate(c, pq, 2, k + 1), Iterate(c, pq, 2, 2 * (k + 1)));
    EuclidIsGcd(a, pq);
    GcdUnique(d, Euclid(a, pq), a, pq);
    assert Euclid(0, pq) == Euclid(pq, 0) == pq;
  }

  lemma {:induction false} AttemptIs(c: nat, pq: nat, i: nat, k: nat, d: nat)
    requires SplitsAt(c, pq, k, d) && i < k
    ensures Attempt(c, pq, i) == d
    decreases k - i
  {
    hide CycleGcd, Attempt;
    if i + 1 == k {
      CycleIs(c, pq, i, d);
    } else {
      CycleIs(c, pq, i, 1);
      AttemptIs(c, pq, i + 1, k, d);
    }
  }

  /** An attempt that finds a proper divisor splits `pq`. */
  lemma {:induction false} AttemptSplits(c: nat, pq: nat, i: nat) returns (k: nat)
    requires pq >= 2 && Attempt(c, pq, i) != 1 && Attempt(c, pq, i) != pq
    requires forall j :: 1 <= j <= i ==> CycleGcd(c, pq, j, 1)
    ensures SplitsAt(c, pq, k, Attempt(c, pq, i))
    decreases 1000000 - i
  {
    hide IsGcd, Iterate, Divides;
    var a := Distance(Iterate(c, pq, 2, i + 1), Iterate(c, pq, 2, 2 * (i + 1)));
    EuclidIsGcd(a, pq);
    assert CycleGcd(c, pq, i + 1, Euclid(a, pq));
    AttemptDivides(c, pq, i);
    Split(Attempt(c, pq, i), pq);
    if Euclid(a, pq) != 1 {
      k := i + 1;
    } else {
      k := AttemptSplits(c, pq, i + 1);
    }
  }

  /** No attempt before `c` splits `pq`. */
  ghost predicate NoneBefore(pq: nat, c: nat) {
    forall b, k, d :: 1 <= b < c ==> !SplitsAt(b, pq, k, d)
  }

  lemma {:induction false} SearchFrom(pq: nat, b: nat, c: nat)
    requires pq >= 2 && 1 <= b <= c <= 20 && NoneBefore(pq, c)
    ensures Search(pq, b) == Search(pq, c)
    decreases c - b
  {
    hide Attempt, SplitsAt;
    if b < c {
      if Attempt(b, pq, 0) != 1 && Attempt(b, pq, 0) != pq { var k := AttemptSplits(b, pq, 0); }
      SearchFrom(pq, b + 1, c);
    }
  }

  /** The first of nineteen attempts that splits an odd number decides: its divisor and the cofactor, in
      order, if both fit 32 bits; otherwise nothing. */
  lemma FirstSplitDecides(pq: uint64, c: nat, k: nat, d: nat)
    requires pq % 2 == 1 && 1 <= c < 20 && SplitsAt(c, pq, k, d) && NoneBefore(pq, c)
    ensures var e := pq / d;
            Factored(pq) == if d >= 0x1_0000_0000 || e >= 0x1_0000_0000 then None
                            else Some(if d > e then (e, d) else (d, e))
  {
    hide Attempt, NoneBefore;
    SearchFrom(pq, 1, c);
    AttemptIs(c, pq, 0, k, d);
  }

  /** Without such an attempt an odd number is not factored. */
  lemma NoSplitNoFactors(pq: uint64)
    requires pq % 2 == 1 && NoneBefore(pq, 20)
    ensures Factored(pq) == None
  {
    hide Attempt, NoneBefore;
    if pq >= 2 { SearchFrom(pq, 1, 20); }
  }

  // ---- products of two primes ----

  lemma Combine(a: nat, b: nat, t: nat, r: nat, u: int, v: int)
    requires a == b * t + r
    ensures v * a + (u - v * t) * b == u * b + v * r
  {
    assert v * (b * t + r) == v * b * t + v * r;
    assert (u - v * t) * b == u * b - v * t * b;
    assert v * b * t == v * t * b;
  }

  lemma {:induction false} Bezout(a: nat, b: nat) returns (d: nat, u: int, v: int)
    ensures IsGcd(d, a, b) && u * a + v * b == d
    decreases b
  {
    hide IsGcd;
    if b == 0 {
      GcdOfZero(a);
      d, u, v := a, 1, 0;
    } else {
      var u1, v1;
      d, u1, v1 := Bezout(b, a % b);
      GcdStep(d, a, b);
      Combine(a, b, a / b, a % b, u1, v1);
      u, v := v1, u1 - v1 * (a / b);
    }
  }

  lemma DividesInt(e: nat, z: int, n: nat)
    requires n == e * z && e > 0
    ensures Divides(e, n)
  {
    DividesIntro(e, z);
  }

  lemma Scaled(r: nat, p: nat, q: nat, k: nat, u: int, v: int)
    requires u * r + v * p == 1 && p * q == r * k
    ensures q == r * (q * u + v * k)
  {
    assert q * (u * r + v * p) == q * u * r + v * (p * q);
    assert v * (r * k) == r * (v * k);
    assert q * u * r == r * (q * u);
    assert r * (q * u + v * k) == r * (q * u) + r * (v * k);
  }

  /** A prime that divides a product divides one of its factors. */
  lemma PrimeDivides(r: nat, p: nat, q: nat)
    requires Prime(r) && Divides(r, p * q)
    ensures Divides(r, p) || Divides(r, q)
  {
    hide Divides;
    var d, u, v := Bezout(r, p);
    if d == 1 {
      var k := Quotient(r, p * q);
      Scaled(r, p, q, k, u, v);
      DividesInt(r, q * u + v * k, q);
    }
  }

  lemma Cancel(r: nat, x: nat, y: nat)
    requires r > 0 && r * x == r * y
    ensures x == y
  {
    MulIncreases(r, x, y);
    MulIncreases(r, y, x);
  }

  lemma WithoutFactor(r: nat, k: nat, n: nat, s: nat)
    requires r > 0 && r * k * n == r * s
    ensures k * n == s
  {
    assert r * k * n == r * (k * n);
    Cancel(r, k * n, s);
  }

  /** If `n` is a proper divisor of the prime `s` with cofactor `k`, then `n` is `s`. */
  lemma PrimeCofactor(k: nat, n: nat, s: nat)
    requires Prime(s) && k * n == s && n > 1
    ensures n == s && k == 1
  {
    DividesIntro(n, k);
    assert n * k == k * n;
    Cancel(s, k, 1);
  }

  /** The factors of a product of two primes are those primes, in order. */
  lemma SemiprimeFactors(p: nat, q: nat, r: nat, s: nat)
    requires 1 < p <= q && p * q == r * s && r <= s && Prime(r) && Prime(s)
    ensures p == r && q == s
  {
    hide Divides, Prime;
    DividesIntro(r, s);
    assert r > 0 by { assert Prime(r); PrimeIsPositive(r); }
    PrimeDivides(r, p, q);
    if Divides(r, p) {
      var k := Quotient(r, p);
      WithoutFactor(r, k, q, s);
      PrimeCofactor(k, q, s);
    } else {
      var k := Quotient(r, q);
      assert q * p == p * q;
      WithoutFactor(r, k, p, s);
      PrimeCofactor(k, p, s);
    }
  }

  lemma PrimeIsPositive(r: nat)
    requires Prime(r)
    ensures r > 0
  {
  }
}
