/** The three distances, over the reals.  Vectors of different lengths are cut to the shorter one. */
module Distance {
  import Flat

  /** The machine epsilon of a 32-bit float, 2 to the power of -23. */
  const EPSILON: real := 1.0 / 8388608.0

  function Shorter(a: seq<real>, b: seq<real>): nat {
    if |a| < |b| then |a| else |b|
  }

  /** The inner product of the first n components. */
  function DotUpTo(a: seq<real>, b: seq<real>, n: nat): real
    requires n <= |a| && n <= |b|
  {
    if n == 0 then 0.0 else DotUpTo(a, b, n - 1) + a[n - 1] * b[n - 1]
  }

  function Dot(a: seq<real>, b: seq<real>): real {
    DotUpTo(a, b, Shorter(a, b))
  }

  /** The squared length of what the cut leaves of `a`. */
  function NormSquared(a: seq<real>, b: seq<real>): real {
    DotUpTo(a, a, Shorter(a, b))
  }

  function SquaresUpTo(a: seq<real>, b: seq<real>, n: nat): real
    requires n <= |a| && n <= |b|
  {
    if n == 0 then 0.0 else SquaresUpTo(a, b, n - 1) + (a[n - 1] - b[n - 1]) * (a[n - 1] - b[n - 1])
  }

  function L2(a: seq<real>, b: seq<real>): real {
    SquaresUpTo(a, b, Shorter(a, b))
  }

  function NegDot(a: seq<real>, b: seq<real>): real {
    -Dot(a, b)
  }

  function Max(x: real, y: real): real {
    if x < y then y else x
  }

  /** The clamped product of the lengths. */
  function Clamped(ra: real, rb: real): (d: real)
    ensures d >= EPSILON && d >= ra * rb
  {
    Max(ra * rb, EPSILON)
  }

  /** The square root is a parameter: all that matters is what `IsRoot` says. */
  function Cosine(root: real -> real, a: seq<real>, b: seq<real>): real {
    1.0 - Dot(a, b) / Clamped(root(NormSquared(a, b)), root(NormSquared(b, a)))
  }

  predicate IsRoot(r: real, x: real) {
    r >= 0.0 && r * r == x
  }

  method L2Squared(a: seq<real>, b: seq<real>) returns (sum: real)
    ensures sum == L2(a, b)
  {
    sum := 0.0;
    for i := 0 to Shorter(a, b)
      invariant sum == SquaresUpTo(a, b, i)
    {
      var d := a[i] - b[i];
      sum := sum + d * d;
    }
  }

  method CosineDistance(root: real -> real, a: seq<real>, b: seq<real>) returns (d: real)
    ensures d == Cosine(root, a, b)
  {
    var dot, na, nb := 0.0, 0.0, 0.0;
    for i := 0 to Shorter(a, b)
      invariant dot == DotUpTo(a, b, i) && na == DotUpTo(a, a, i) && nb == DotUpTo(b, b, i)
    {
      dot := dot + a[i] * b[i];
      na := na + a[i] * a[i];
      nb := nb + b[i] * b[i];
    }
    assert dot == Dot(a, b) && na == NormSquared(a, b) && nb == NormSquared(b, a);
    d := 1.0 - dot / Clamped(root(na), root(nb));
  }

  method NegativeDot(a: seq<real>, b: seq<real>) returns (d: real)
    ensures d == NegDot(a, b)
  {
    var dot := 0.0;
    for i := 0 to Shorter(a, b)
      invariant dot == DotUpTo(a, b, i)
    {
      dot := dot + a[i] * b[i];
    }
    d := -dot;
  }

  // ---- Cauchy-Schwarz ----

  lemma SquareNonNegative(x: real)
    ensures x * x >= 0.0
  {
  }

  lemma ProductNonNegative(x: real, y: real)
    requires x >= 0.0 && y >= 0.0
    ensures x * y >= 0.0
  {
  }

  lemma ProductPositive(x: real, y: real)
    requires x > 0.0 && y > 0.0
    ensures x * y > 0.0
  {
  }

  lemma DifferenceOfSquares(x: real, y: real)
    ensures (x - y) * (x + y) == x * x - y * y
  {
  }

  /** Comparing numbers by their squares. */
  lemma SquaresCompare(v: real, u: real)
    requires u >= 0.0 && v * v <= u * u
    ensures -u <= v <= u
  {
    DifferenceOfSquares(v, u);
    DifferenceOfSquares(-v, u);
    if v > u {
      ProductPositive(v - u, v + u);
    }
    if -v > u {
      ProductPositive(-v - u, -v + u);
    }
  }

  lemma {:induction false} NormNonNegative(a: seq<real>, n: nat)
    requires n <= |a|
    ensures DotUpTo(a, a, n) >= 0.0
  {
    if n == 0 {
    } else {
      NormNonNegative(a, n - 1);
      SquareNonNegative(a[n - 1]);
    }
  }

  /** The mixed term of the induction step: 2 d x y <= p y^2 + q x^2 when d^2 <= p q. */
  lemma MixedTerm(d: real, p: real, q: real, x: real, y: real)
    requires p >= 0.0 && q >= 0.0 && d * d <= p * q
    ensures 2.0 * d * x * y <= p * (y * y) + q * (x * x)
  {
    var s, t, v := p * (y * y), q * (x * x), 2.0 * d * x * y;
    SquareNonNegative(x);
    SquareNonNegative(y);
    ProductNonNegative(p, y * y);
    ProductNonNegative(q, x * x);
    ProductNonNegative(x * x, y * y);
    MixedSquares(d, p, q, x, y);
    SquaresCompare(v, s + t);
  }

  lemma MixedSquares(d: real, p: real, q: real, x: real, y: real)
    requires d * d <= p * q && (x * x) * (y * y) >= 0.0
    ensures var s, t, v := p * (y * y), q * (x * x), 2.0 * d * x * y; v * v <= (s + t) * (s + t)
  {
    var s, t, v, m := p * (y * y), q * (x * x), 2.0 * d * x * y, (x * x) * (y * y);
    assert v * v == 4.0 * ((d * d) * m);
    assert s * t == (p * q) * m;
    ScaledCompare(d * d, p * q, m);
    SquareOfSum(s, t);
    SquareNonNegative(s - t);
  }

  lemma ScaledCompare(x: real, y: real, m: real)
    requires x <= y && m >= 0.0
    ensures x * m <= y * m
  {
  }

  lemma SquareOfSum(s: real, t: real)
    ensures (s + t) * (s + t) == (s - t) * (s - t) + 4.0 * (s * t)
  {
  }

  lemma OneMoreComponent(a: seq<real>, b: seq<real>, n: nat)
    requires 0 < n <= |a| && n <= |b|
    ensures DotUpTo(a, b, n) == DotUpTo(a, b, n - 1) + a[n - 1] * b[n - 1]
    ensures DotUpTo(a, a, n) == DotUpTo(a, a, n - 1) + a[n - 1] * a[n - 1]
    ensures DotUpTo(b, b, n) == DotUpTo(b, b, n - 1) + b[n - 1] * b[n - 1]
  {
  }

  /** The inequality of Cauchy and Schwarz. */
  lemma {:induction false} CauchySchwarz(a: seq<real>, b: seq<real>, n: nat)
    requires n <= |a| && n <= |b|
    ensures DotUpTo(a, b, n) * DotUpTo(a, b, n) <= DotUpTo(a, a, n) * DotUpTo(b, b, n)
  {
    if n == 0 {
    } else {
      hide DotUpTo;
      var d, p, q := DotUpTo(a, b, n - 1), DotUpTo(a, a, n - 1), DotUpTo(b, b, n - 1);
      CauchySchwarz(a, b, n - 1);
      NormNonNegative(a, n - 1);
      NormNonNegative(b, n - 1);
      StepExpands(d, p, q, a[n - 1], b[n - 1]);
      OneMoreComponent(a, b, n);
    }
  }

  lemma StepExpands(d: real, p: real, q: real, x: real, y: real)
    requires p >= 0.0 && q >= 0.0 && d * d <= p * q
    ensures (d + x * y) * (d + x * y) <= (p + x * x) * (q + y * y)
  {
    MixedTerm(d, p, q, x, y);
    assert (d + x * y) * (d + x * y) == d * d + 2.0 * d * x * y + (x * x) * (y * y);
    assert (p + x * x) * (q + y * y) == p * q + p * (y * y) + q * (x * x) + (x * x) * (y * y);
  }

  // ---- what the distances promise ----

  lemma {:induction false} DotCommutes(a: seq<real>, b: seq<real>, n: nat)
    requires n <= |a| && n <= |b|
    ensures DotUpTo(a, b, n) == DotUpTo(b, a, n) && SquaresUpTo(a, b, n) == SquaresUpTo(b, a, n)
  {
    if n == 0 {
    } else {
      DotCommutes(a, b, n - 1);
      DifferenceSquared(a[n - 1], b[n - 1]);
    }
  }

  lemma DifferenceSquared(x: real, y: real)
    ensures (x - y) * (x - y) == (y - x) * (y - x) && (x - y) * (x - y) == x * x + y * y - 2.0 * (x * y)
  {
  }

  lemma ClampedCommutes(ra: real, rb: real)
    ensures Clamped(ra, rb) == Clamped(rb, ra)
  {
    assert ra * rb == rb * ra;
  }

  /** All three metrics are symmetric, whatever the root function: the graph index may ask for the distance
      from the query and the oracle for the distance to it. */
  lemma MetricsAreSymmetric(root: real -> real)
    ensures Flat.Symmetric(L2) && Flat.Symmetric(NegDot) && Flat.Symmetric((a, b) => Cosine(root, a, b))
  {
    forall a: seq<real>, b: seq<real>
      ensures L2(a, b) == L2(b, a) && NegDot(a, b) == NegDot(b, a) && Cosine(root, a, b) == Cosine(root, b, a)
    {
      DotCommutes(a, b, Shorter(a, b));
      ClampedCommutes(root(NormSquared(a, b)), root(NormSquared(b, a)));
    }
  }

  lemma QuotientInRange(x: real, d: real)
    requires d > 0.0 && -d <= x <= d
    ensures -1.0 <= x / d <= 1.0
  {
  }

  /** The roots bound the inner product. */
  lemma DotWithinLengths(a: seq<real>, b: seq<real>, ra: real, rb: real)
    requires IsRoot(ra, NormSquared(a, b)) && IsRoot(rb, NormSquared(b, a))
    ensures -(ra * rb) <= Dot(a, b) <= ra * rb
  {
    var n := Shorter(a, b);
    hide DotUpTo;
    CauchySchwarz(a, b, n);
    ProductNonNegative(ra, rb);
    ProductOfSquares(ra, rb);
    SquaresCompare(Dot(a, b), ra * rb);
  }

  lemma ProductOfSquares(x: real, y: real)
    ensures (x * y) * (x * y) == (x * x) * (y * y)
  {
  }

  /** The cosine distance lies between 0 and 2, zero vectors and different lengths included. */
  lemma CosineInRange(root: real -> real, a: seq<real>, b: seq<real>)
    requires IsRoot(root(NormSquared(a, b)), NormSquared(a, b)) && IsRoot(root(NormSquared(b, a)), NormSquared(b, a))
    ensures 0.0 <= Cosine(root, a, b) <= 2.0
  {
    var ra, rb := root(NormSquared(a, b)), root(NormSquared(b, a));
    DotWithinLengths(a, b, ra, rb);
    QuotientInRange(Dot(a, b), Clamped(ra, rb));
  }

  // ---- when the distance is 0, 1 and 2 ----

  lemma ScalarSquare(p: real, q: real, x: real, y: real)
    ensures (q * x - p * y) * (q * x - p * y) == (q * q) * (x * x) - 2.0 * ((p * q) * (x * y)) + (p * p) * (y * y)
  {
    assert (q * x) * (q * x) == (q * q) * (x * x);
    assert (p * y) * (p * y) == (p * p) * (y * y);
    assert (q * x) * (p * y) == (p * q) * (x * y);
    DifferenceSquared(q * x, p * y);
  }

  /** How far a scaled by q is from b scaled by p, squared. */
  function GapUpTo(a: seq<real>, b: seq<real>, p: real, q: real, n: nat): real
    requires n <= |a| && n <= |b|
  {
    if n == 0 then 0.0
    else GapUpTo(a, b, p, q, n - 1) + Misfit(p, q, a[n - 1], b[n - 1])
  }

  function Misfit(p: real, q: real, x: real, y: real): real {
    (q * x - p * y) * (q * x - p * y)
  }

  lemma Distribute(k: real, x: real, y: real)
    ensures k * (x + y) == k * x + k * y
  {
  }

  lemma {:induction false} GapExpands(a: seq<real>, b: seq<real>, p: real, q: real, n: nat)
    requires n <= |a| && n <= |b|
    ensures GapUpTo(a, b, p, q, n) ==
            (q * q) * DotUpTo(a, a, n) - 2.0 * ((p * q) * DotUpTo(a, b, n)) + (p * p) * DotUpTo(b, b, n)
  {
    if n == 0 {
    } else {
      var x, y := a[n - 1], b[n - 1];
      GapExpands(a, b, p, q, n - 1);
      ScalarSquare(p, q, x, y);
      OneMoreComponent(a, b, n);
      Distribute(q * q, DotUpTo(a, a, n - 1), x * x);
      Distribute(p * q, DotUpTo(a, b, n - 1), x * y);
      Distribute(p * p, DotUpTo(b, b, n - 1), y * y);
    }
  }

  lemma PositiveProduct(x: real, y: real, s: real)
    requires x > 0.0 && y > 0.0 && s == x * y
    ensures s > 0.0
  {
  }

  /** The square s of x is zero exactly if x is. */
  lemma SquareOf(x: real, s: real)
    requires s == x * x
    ensures s >= 0.0 && (s == 0.0 <==> x == 0.0)
  {
    if x > 0.0 {
      PositiveProduct(x, x, s);
    } else if x < 0.0 {
      assert (-x) * (-x) == x * x;
      PositiveProduct(-x, -x, s);
    }
  }

  /** The two components lie on one line through the origin with (p, q). */
  predicate Aligned(p: real, q: real, x: real, y: real) {
    q * x == p * y
  }

  predicate AllAligned(a: seq<real>, b: seq<real>, p: real, q: real, n: nat)
    requires n <= |a| && n <= |b|
  {
    forall i :: 0 <= i < n ==> Aligned(p, q, a[i], b[i])
  }

  lemma AlignedOneMore(a: seq<real>, b: seq<real>, p: real, q: real, n: nat)
    requires 0 < n <= |a| && n <= |b|
    ensures AllAligned(a, b, p, q, n) <==> AllAligned(a, b, p, q, n - 1) && Aligned(p, q, a[n - 1], b[n - 1])
  {
    hide Aligned;
  }

  lemma MisfitIsZero(p: real, q: real, x: real, y: real)
    ensures Misfit(p, q, x, y) >= 0.0
    ensures Misfit(p, q, x, y) == 0.0 <==> Aligned(p, q, x, y)
  {
    var d := q * x - p * y;
    var s := d * d;
    SquareOf(d, s);
  }

  lemma {:induction false} GapZero(a: seq<real>, b: seq<real>, p: real, q: real, n: nat)
    requires n <= |a| && n <= |b|
    ensures GapUpTo(a, b, p, q, n) >= 0.0
    ensures GapUpTo(a, b, p, q, n) == 0.0 <==> AllAligned(a, b, p, q, n)
  {
    hide Misfit, Aligned;
    if n == 0 {
    } else {
      GapZero(a, b, p, q, n - 1);
      MisfitIsZero(p, q, a[n - 1], b[n - 1]);
      AlignedOneMore(a, b, p, q, n);
      hide AllAligned;
    }
  }

  /** One vector is a positive multiple of the other, as far as they are compared. */
  predicate SameDirection(a: seq<real>, b: seq<real>, c: real) {
    c > 0.0 && forall i :: 0 <= i < Shorter(a, b) ==> b[i] == c * a[i]
  }

  lemma QuotientIsOne(x: real, d: real)
    requires d > 0.0
    ensures x / d == 1.0 <==> x == d
    ensures x / d == 0.0 <==> x == 0.0
  {
  }

  /** The equality case of the inequality of Cauchy and Schwarz. */
  lemma FullDot(a: seq<real>, b: seq<real>, ra: real, rb: real)
    requires IsRoot(ra, NormSquared(a, b)) && IsRoot(rb, NormSquared(b, a)) && ra * rb > 0.0
    ensures Dot(a, b) == ra * rb <==> AllAligned(a, b, ra, rb, Shorter(a, b))
  {
    var n, d := Shorter(a, b), Dot(a, b);
    GapZero(a, b, ra, rb, n);
    GapExpands(a, b, ra, rb, n);
    hide DotUpTo, GapUpTo, Aligned;
    GapOfRoots(ra, rb, d);
  }

  lemma GapOfRoots(ra: real, rb: real, d: real)
    requires ra * rb > 0.0
    ensures (rb * rb) * (ra * ra) - 2.0 * ((ra * rb) * d) + (ra * ra) * (rb * rb) == 0.0 <==> d == ra * rb
  {
    var m := ra * rb;
    ProductOfSquares(ra, rb);
    assert (rb * rb) * (ra * ra) == m * m && (ra * ra) * (rb * rb) == m * m;
    TwiceProduct(m, d);
  }

  lemma TwiceProduct(m: real, d: real)
    requires m > 0.0
    ensures m * m - 2.0 * (m * d) + m * m == 0.0 <==> d == m
  {
    assert m * m - m * d == m * (m - d);
    if d < m { ProductPositive(m, m - d); }
    if d > m { ProductPositive(m, d - m); }
  }

  lemma {:induction false} DotScales(a: seq<real>, b: seq<real>, c: real, n: nat)
    requires n <= |a| && n <= |b| && forall i :: 0 <= i < n ==> b[i] == c * a[i]
    ensures DotUpTo(a, b, n) == c * DotUpTo(a, a, n) && DotUpTo(b, b, n) == (c * c) * DotUpTo(a, a, n)
  {
    if n == 0 {
    } else {
      var x := a[n - 1];
      DotScales(a, b, c, n - 1);
      OneMoreComponent(a, b, n);
      Distribute(c, DotUpTo(a, a, n - 1), x * x);
      Distribute(c * c, DotUpTo(a, a, n - 1), x * x);
      assert x * (c * x) == c * (x * x);
      ProductOfSquares(c, x);
    }
  }

  lemma RootScales(ra: real, rb: real, c: real, n: real)
    requires IsRoot(ra, n) && IsRoot(rb, (c * c) * n) && c > 0.0
    ensures rb == c * ra && ra * rb == c * n
  {
    ProductNonNegative(c, ra);
    ProductOfSquares(c, ra);
    SquaresCompare(rb, c * ra);
    SquaresCompare(c * ra, rb);
    assert ra * (c * ra) == c * (ra * ra);
  }

  /** Vectors of one direction, b being c times a, are at distance zero exactly if the product of their lengths,
      which is c times the squared length of a, reaches the clamp. */
  lemma CosineOfSameDirection(root: real -> real, a: seq<real>, b: seq<real>, c: real)
    requires SameDirection(a, b, c)
    requires IsRoot(root(NormSquared(a, b)), NormSquared(a, b)) && IsRoot(root(NormSquared(b, a)), NormSquared(b, a))
    ensures Cosine(root, a, b) == 0.0 <==> c * NormSquared(a, b) >= EPSILON
    ensures root(NormSquared(a, b)) * root(NormSquared(b, a)) == c * NormSquared(a, b)
  {
    var ra, rb, n := root(NormSquared(a, b)), root(NormSquared(b, a)), NormSquared(a, b);
    DotScales(a, b, c, Shorter(a, b));
    hide DotUpTo;
    RootScales(ra, rb, c, n);
    assert Dot(a, b) == ra * rb;
    FullDotReachesClamp(ra, rb);
  }

  lemma FullDotReachesClamp(ra: real, rb: real)
    ensures 1.0 - (ra * rb) / Clamped(ra, rb) == 0.0 <==> ra * rb >= EPSILON
  {
    QuotientIsOne(ra * rb, Clamped(ra, rb));
  }

  /** The distance is zero exactly for two vectors of one direction whose lengths multiply to the clamp or more. */
  lemma CosineIsZero(root: real -> real, a: seq<real>, b: seq<real>)
    requires IsRoot(root(NormSquared(a, b)), NormSquared(a, b)) && IsRoot(root(NormSquared(b, a)), NormSquared(b, a))
    ensures Cosine(root, a, b) == 0.0 <==>
            (exists c :: SameDirection(a, b, c)) && root(NormSquared(a, b)) * root(NormSquared(b, a)) >= EPSILON
  {
    var ra, rb := root(NormSquared(a, b)), root(NormSquared(b, a));
    DotWithinLengths(a, b, ra, rb);
    QuotientIsOne(Dot(a, b), Clamped(ra, rb));
    if c :| SameDirection(a, b, c) {
      CosineOfSameDirection(root, a, b, c);
    } else if Cosine(root, a, b) == 0.0 {
      FullDot(a, b, ra, rb);
      CommonDirection(a, b, ra, rb);
    }
  }

  lemma CommonDirection(a: seq<real>, b: seq<real>, ra: real, rb: real)
    requires ra >= 0.0 && rb >= 0.0 && ra * rb > 0.0
    requires AllAligned(a, b, ra, rb, Shorter(a, b))
    ensures SameDirection(a, b, rb / ra)
  {
    assert ra > 0.0 && rb > 0.0;
    forall i | 0 <= i < Shorter(a, b) ensures b[i] == (rb / ra) * a[i] {
      assert Aligned(ra, rb, a[i], b[i]);
      DivideBoth(ra, rb, a[i], b[i]);
    }
  }

  lemma DivideBoth(ra: real, rb: real, x: real, y: real)
    requires ra > 0.0 && rb * x == ra * y
    ensures y == (rb / ra) * x
  {
    assert (rb / ra) * x == (rb * x) / ra;
    assert (ra * y) / ra == y;
  }

  /** A vector is at distance zero from itself exactly if its squared length reaches the clamp. */
  lemma CosineToItself(root: real -> real, a: seq<real>)
    requires IsRoot(root(NormSquared(a, a)), NormSquared(a, a))
    ensures Cosine(root, a, a) == 0.0 <==> NormSquared(a, a) >= EPSILON
  {
    CosineOfSameDirection(root, a, a, 1.0);
  }

  /** The distance is one exactly if the vectors are orthogonal. */
  lemma CosineIsOne(root: real -> real, a: seq<real>, b: seq<real>)
    ensures Cosine(root, a, b) == 1.0 <==> Dot(a, b) == 0.0
  {
    QuotientIsOne(Dot(a, b), Clamped(root(NormSquared(a, b)), root(NormSquared(b, a))));
  }

  /** It is more than one exactly if they point away from each other. */
  lemma CosineAtLeastOne(root: real -> real, a: seq<real>, b: seq<real>)
    ensures Cosine(root, a, b) >= 1.0 <==> Dot(a, b) <= 0.0
  {
    QuotientSign(Dot(a, b), Clamped(root(NormSquared(a, b)), root(NormSquared(b, a))));
  }

  lemma QuotientSign(x: real, d: real)
    requires d > 0.0
    ensures x / d <= 0.0 <==> x <= 0.0
  {
    if x > 0.0 { assert x / d > 0.0; }
  }

  function Opposite(b: seq<real>): (r: seq<real>)
    ensures |r| == |b| && forall i :: 0 <= i < |b| ==> r[i] == -b[i]
  {
    seq(|b|, i requires 0 <= i < |b| => -b[i])
  }

  lemma {:induction false} DotOfOpposite(a: seq<real>, b: seq<real>, n: nat)
    requires n <= |a| && n <= |b|
    ensures DotUpTo(a, Opposite(b), n) == -DotUpTo(a, b, n)
    ensures DotUpTo(Opposite(b), Opposite(b), n) == DotUpTo(b, b, n)
  {
    if n == 0 {
    } else {
      DotOfOpposite(a, b, n - 1);
      OneMoreComponent(a, b, n);
      OneMoreComponent(a, Opposite(b), n);
    }
  }

  /** Turning one vector round mirrors the distance at one.  So it is two exactly for opposite directions whose
      lengths multiply to the clamp or more. */
  lemma CosineOfOpposite(root: real -> real, a: seq<real>, b: seq<real>)
    ensures Cosine(root, a, Opposite(b)) == 2.0 - Cosine(root, a, b)
  {
    DotOfOpposite(a, b, Shorter(a, b));
    hide DotUpTo;
    Negated(Dot(a, b), Clamped(root(NormSquared(a, b)), root(NormSquared(b, a))));
  }

  lemma Negated(x: real, d: real)
    requires d > 0.0
    ensures (-x) / d == -(x / d)
  {
  }

  lemma {:induction false} SquaresExpand(a: seq<real>, b: seq<real>, n: nat)
    requires n <= |a| && n <= |b|
    ensures SquaresUpTo(a, b, n) == DotUpTo(a, a, n) + DotUpTo(b, b, n) - 2.0 * DotUpTo(a, b, n)
  {
    if n == 0 {
    } else {
      SquaresExpand(a, b, n - 1);
      DifferenceSquared(a[n - 1], b[n - 1]);
    }
  }

  /** On unit vectors the three metrics differ by constants and a factor, so they rank alike. */
  lemma UnitVectorsRankAlike(root: real -> real, a: seq<real>, b: seq<real>)
    requires NormSquared(a, b) == 1.0 && NormSquared(b, a) == 1.0 && IsRoot(root(1.0), 1.0)
    ensures Cosine(root, a, b) == 1.0 + NegDot(a, b) && L2(a, b) == 2.0 * Cosine(root, a, b)
  {
    SquaresExpand(a, b, Shorter(a, b));
    assert Clamped(root(1.0), root(1.0)) == 1.0;
  }
}
