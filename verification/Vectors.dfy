/** Cosine similarity over the reals. The square root is a parameter; theorems assume only that it is one. */
module Vectors {
  import opened Prelude

  type Vector = seq<real>

  function Dot(a: Vector, b: Vector): real
    requires |a| == |b|
  {
    if a == [] then 0.0 else a[0] * b[0] + Dot(a[1..], b[1..])
  }

  function Cosine(a: Vector, b: Vector, sqrt: real -> real): real {
    if a == [] || b == [] || |a| != |b| then 0.0
    else
      var na, nb := sqrt(Dot(a, a)), sqrt(Dot(b, b));
      if na == 0.0 || nb == 0.0 then 0.0 else Dot(a, b) / (na * nb)
  }

  ghost predicate IsSqrt(sqrt: real -> real) {
    forall x: real | x >= 0.0 :: sqrt(x) >= 0.0 && sqrt(x) * sqrt(x) == x
  }

  predicate NonZero(a: Vector) { exists i :: 0 <= i < |a| && a[i] != 0.0 }

  function Scale(t: real, a: Vector): (r: Vector)
    ensures |r| == |a|
  {
    if a == [] then [] else [t * a[0]] + Scale(t, a[1..])
  }

  lemma ProductPositive(x: real, y: real, p: real)
    requires x > 0.0 && y > 0.0 && p == x * y
    ensures p > 0.0
  {}

  lemma Square(x: real, p: real)
    requires p == x * x
    ensures p >= 0.0
    ensures p > 0.0 <==> x != 0.0
  {
    if x > 0.0 {
      ProductPositive(x, x, p);
    } else if x < 0.0 {
      ProductPositive(-x, -x, p);
    }
  }

  lemma NonZeroCons(x: real, a: Vector)
    ensures NonZero([x] + a) <==> x != 0.0 || NonZero(a)
  {
    var v := [x] + a;
    assert v[0] == x && v[1..] == a;
    if NonZero(a) {
      var i :| 0 <= i < |a| && a[i] != 0.0;
      assert v[i + 1] != 0.0;
    }
    if NonZero(v) {
      var i :| 0 <= i < |v| && v[i] != 0.0;
      assert i > 0 ==> a[i - 1] == v[i];
    }
  }

  lemma {:induction false} DotSelf(a: Vector)
    ensures Dot(a, a) >= 0.0
    ensures Dot(a, a) > 0.0 <==> NonZero(a)
  {
    if a != [] {
      var x, rest := a[0], a[1..];
      DotSelf(rest);
      assert a == [x] + rest;
      NonZeroCons(x, rest);
      Square(x, a[0] * a[0]);
    }
  }

  lemma {:induction false} DotCommutes(a: Vector, b: Vector)
    requires |a| == |b|
    ensures Dot(a, b) == Dot(b, a)
  {
    if a != [] { DotCommutes(a[1..], b[1..]); }
  }

  lemma {:induction false} DotScales(t: real, a: Vector, b: Vector)
    requires |a| == |b|
    ensures Dot(Scale(t, a), b) == t * Dot(a, b)
  {
    if a != [] {
      DotScales(t, a[1..], b[1..]);
      var u, v := a[0] * b[0], Dot(a[1..], b[1..]);
      assert Scale(t, a)[1..] == Scale(t, a[1..]);
      assert (t * a[0]) * b[0] == t * u;
      assert t * (u + v) == t * u + t * v;
    }
  }

  function Plus(a: Vector, b: Vector): (r: Vector)
    requires |a| == |b|
    ensures |r| == |a| && forall i :: 0 <= i < |a| ==> r[i] == a[i] + b[i]
  {
    if a == [] then [] else [a[0] + b[0]] + Plus(a[1..], b[1..])
  }

  /** The vector with 1 in place `i` and 0 elsewhere. */
  function Unit(n: nat, i: nat): (r: Vector)
    requires i < n
    ensures |r| == n && forall j :: 0 <= j < n ==> r[j] == if j == i then 1.0 else 0.0
  {
    seq(n, j requires 0 <= j < n => if j == i then 1.0 else 0.0)
  }

  lemma {:induction false} DotAdds(a: Vector, b: Vector, c: Vector)
    requires |a| == |b| == |c|
    ensures Dot(Plus(a, b), c) == Dot(a, c) + Dot(b, c)
  {
    if a != [] {
      DotAdds(a[1..], b[1..], c[1..]);
      assert Plus(a, b)[1..] == Plus(a[1..], b[1..]);
      assert (a[0] + b[0]) * c[0] == a[0] * c[0] + b[0] * c[0];
    }
  }

  lemma {:induction false} DotZero(z: Vector, b: Vector)
    requires |z| == |b| && forall j | 0 <= j < |z| :: z[j] == 0.0
    ensures Dot(z, b) == 0.0
  {
    if z != [] { DotZero(z[1..], b[1..]); }
  }

  /** Every coordinate counts once: with `DotAdds` and `DotScales` this is all there is to the sum. */
  lemma {:induction false} DotUnit(i: nat, b: Vector)
    requires i < |b|
    ensures Dot(Unit(|b|, i), b) == b[i]
  {
    var u := Unit(|b|, i);
    if i == 0 {
      DotZero(u[1..], b[1..]);
    } else {
      DotUnit(i - 1, b[1..]);
      assert u[1..] == Unit(|b| - 1, i - 1);
    }
  }

  /** Sums over the two halves of a split vector add up. */
  lemma {:induction false} DotSplits(a: Vector, b: Vector, c: Vector, d: Vector)
    requires |a| == |b| && |c| == |d|
    ensures Dot(a + c, b + d) == Dot(a, b) + Dot(c, d)
  {
    if a == [] {
      assert a + c == c && b + d == d;
    } else {
      assert (a + c)[1..] == a[1..] + c && (b + d)[1..] == b[1..] + d;
      DotSplits(a[1..], b[1..], c, d);
    }
  }

  // -- Cauchy-Schwarz ------------------------------------------------------------

  /** Twice a product is at most the sum of two non-negative terms whose product bounds its square. */
  lemma MeansInequality(p: real, q: real, r: real)
    requires p >= 0.0 && q >= 0.0 && r * r <= p * q
    ensures r + r <= p + q
  {
    Square(p - q, (p - q) * (p - q));
    assert (p + q) * (p + q) == (p - q) * (p - q) + 4.0 * (p * q);
    assert (r + r) * (r + r) == 4.0 * (r * r);
    RootsOrder(r + r, p + q, (r + r) * (r + r), (p + q) * (p + q));
  }

  lemma SquareGrows(x: real, m: real, xx: real, mm: real)
    requires xx == x * x && mm == m * m && x > m >= 0.0
    ensures xx > mm
  {
    ProductPositive(x - m, x + m, xx - mm);
  }

  /** Squares order roots. */
  lemma RootsOrder(x: real, m: real, xx: real, mm: real)
    requires xx == x * x && mm == m * m && xx <= mm && m >= 0.0
    ensures -m <= x <= m
  {
    if x > m {
      SquareGrows(x, m, xx, mm);
    } else if -x > m {
      SquareGrows(-x, m, xx, mm);
    }
  }

  lemma Positive(x: real, y: real)
    ensures x > 0.0 && y > 0.0 ==> x * y > 0.0
  {}

  lemma NonNegative(x: real, y: real)
    requires x >= 0.0 && y >= 0.0
    ensures x * y >= 0.0
  {}

  lemma {:induction false} CauchySchwarz(a: Vector, b: Vector)
    requires |a| == |b|
    ensures Dot(a, b) * Dot(a, b) <= Dot(a, a) * Dot(b, b)
  {
    if a != [] {
      CauchySchwarz(a[1..], b[1..]);
      DotSelf(a[1..]);
      DotSelf(b[1..]);
      CauchySchwarzStep(a[0], b[0], Dot(a[1..], a[1..]), Dot(b[1..], b[1..]), Dot(a[1..], b[1..]));
    }
  }

  lemma CauchySchwarzStep(x: real, y: real, aa: real, bb: real, ab: real)
    requires aa >= 0.0 && bb >= 0.0 && ab * ab <= aa * bb
    ensures (x * y + ab) * (x * y + ab) <= (x * x + aa) * (y * y + bb)
  {
    var p, q, r := (x * x) * bb, (y * y) * aa, (x * y) * ab;
    Square(x, x * x);
    Square(y, y * y);
    Square(x * y, (x * y) * (x * y));
    NonNegative(x * x, bb);
    NonNegative(y * y, aa);
    assert r * r <= p * q by {
      assert r * r == ((x * y) * (x * y)) * (ab * ab) by { Rearrange(x * y, ab); }
      assert p * q == ((x * y) * (x * y)) * (aa * bb) by { RearrangeProduct(x, y, aa, bb); }
      NonNegative((x * y) * (x * y), aa * bb - ab * ab);
    }
    MeansInequality(p, q, r);
    assert (x * y + ab) * (x * y + ab) == (x * y) * (x * y) + (r + r) + ab * ab;
    assert (x * x + aa) * (y * y + bb) == (x * x) * (y * y) + p + q + aa * bb;
    assert (x * y) * (x * y) == (x * x) * (y * y);
  }

  lemma Rearrange(u: real, v: real)
    ensures (u * v) * (u * v) == (u * u) * (v * v)
  {}

  lemma RearrangeProduct(x: real, y: real, a: real, b: real)
    ensures ((x * x) * b) * ((y * y) * a) == ((x * y) * (x * y)) * (a * b)
  {
    assert (x * x) * (y * y) == (x * y) * (x * y);
    assert ((x * x) * b) * ((y * y) * a) == ((x * x) * (y * y)) * (a * b);
  }

  // -- what callers of cosine rely on ------------------------------------------------

  lemma RootPositive(a: Vector, sqrt: real -> real)
    requires IsSqrt(sqrt)
    ensures var n := sqrt(Dot(a, a)); n >= 0.0 && n * n == Dot(a, a) && (n > 0.0 <==> NonZero(a))
  {
    DotSelf(a);
    var x := Dot(a, a);
    var n := sqrt(x);
    assert n >= 0.0 && n * n == x;
    Square(n, x);
  }

  /** A score always lies between -1 and 1. */
  lemma CosineBounded(a: Vector, b: Vector, sqrt: real -> real)
    requires IsSqrt(sqrt)
    ensures -1.0 <= Cosine(a, b, sqrt) <= 1.0
  {
    hide Dot, IsSqrt, NonZero;
    if |a| == |b| {
      var na, nb := sqrt(Dot(a, a)), sqrt(Dot(b, b));
      RootPositive(a, sqrt);
      RootPositive(b, sqrt);
      if a != [] && na != 0.0 && nb != 0.0 {
        assert na > 0.0 && nb > 0.0;
        var d, m := Dot(a, b), na * nb;
        Positive(na, nb);
        assert m > 0.0;
        CauchySchwarz(a, b);
        assert m * m == Dot(a, a) * Dot(b, b) by { Rearrange(na, nb); }
        RootsOrder(d, m, d * d, m * m);
        Quotient(d, m);
        CosineIsQuotient(a, b, sqrt, d, m);
      }
    }
  }

  lemma CosineIsQuotient(a: Vector, b: Vector, sqrt: real -> real, d: real, m: real)
    requires |a| == |b| > 0 && sqrt(Dot(a, a)) != 0.0 && sqrt(Dot(b, b)) != 0.0 && m != 0.0
    requires d == Dot(a, b) && m == sqrt(Dot(a, a)) * sqrt(Dot(b, b))
    ensures Cosine(a, b, sqrt) == d / m
  {
    hide Dot;
  }

  lemma Quotient(x: real, m: real)
    requires m > 0.0 && -m <= x <= m
    ensures -1.0 <= x / m <= 1.0
  {
    var q := x / m;
    assert q * m == x;
    assert (q - 1.0) * m == x - m && (-1.0 - q) * m == -m - x;
    Positive(q - 1.0, m);
    Positive(-1.0 - q, m);
  }

  lemma SelfQuotient(d: real, m: real)
    requires d == m && m > 0.0
    ensures d / m == 1.0
  {}

  lemma CosineSymmetric(a: Vector, b: Vector, sqrt: real -> real)
    ensures Cosine(a, b, sqrt) == Cosine(b, a, sqrt)
  {
    if |a| == |b| { DotCommutes(a, b); }
  }

  lemma CosineSelf(a: Vector, sqrt: real -> real)
    requires IsSqrt(sqrt)
    ensures Cosine(a, a, sqrt) == if NonZero(a) then 1.0 else 0.0
  {
    RootPositive(a, sqrt);
    var n := sqrt(Dot(a, a));
    if a != [] && n != 0.0 {
      var d := Dot(a, a);
      Square(n, d);
      SelfQuotient(d, n * n);
    }
  }

  /** Exactly when a score is forced to zero without looking at the angle. */
  lemma CosineGuards(a: Vector, b: Vector, sqrt: real -> real)
    requires IsSqrt(sqrt)
    ensures Cosine(a, b, sqrt) == 0.0
       <==> |a| != |b| || !NonZero(a) || !NonZero(b) || Dot(a, b) == 0.0
  {
    RootPositive(a, sqrt);
    RootPositive(b, sqrt);
    if |a| == |b| && NonZero(a) && NonZero(b) {
      var m := sqrt(Dot(a, a)) * sqrt(Dot(b, b));
      Positive(sqrt(Dot(a, a)), sqrt(Dot(b, b)));
      assert (Dot(a, b) / m) * m == Dot(a, b);
    }
  }

  lemma NonZeroLength(a: Vector)
    requires NonZero(a)
    ensures a != []
  {}

  /** What the score is: the sum of products is the score times the two lengths. */
  lemma CosineIsAngle(a: Vector, b: Vector, sqrt: real -> real)
    requires IsSqrt(sqrt) && |a| == |b| && NonZero(a) && NonZero(b)
    ensures Cosine(a, b, sqrt) * (sqrt(Dot(a, a)) * sqrt(Dot(b, b))) == Dot(a, b)
    ensures sqrt(Dot(a, a)) > 0.0 && sqrt(Dot(b, b)) > 0.0
  {
    hide Dot, IsSqrt, NonZero;
    RootPositive(a, sqrt);
    RootPositive(b, sqrt);
    var d, m := Dot(a, b), sqrt(Dot(a, a)) * sqrt(Dot(b, b));
    Positive(sqrt(Dot(a, a)), sqrt(Dot(b, b)));
    NonZeroLength(a);
    CosineIsQuotient(a, b, sqrt, d, m);
    assert (d / m) * m == d;
  }

  /** A 3-4-5 triangle: the second axis is nearer than the first. */
  lemma ThreeFourFive(sqrt: real -> real)
    requires IsSqrt(sqrt)
    ensures Cosine([3.0, 4.0], [1.0, 0.0], sqrt) == 0.6 && Cosine([3.0, 4.0], [0.0, 1.0], sqrt) == 0.8
    ensures Cosine([1.0, 1.0], [1.0, -1.0], sqrt) == 0.0
  {
    var a, x, y := [3.0, 4.0], [1.0, 0.0], [0.0, 1.0];
    DotTwo(a, a);
    DotTwo(x, x);
    DotTwo(y, y);
    DotTwo(a, x);
    DotTwo(a, y);
    DotTwo([1.0, 1.0], [1.0, -1.0]);
    RootOf(25.0, 5.0, sqrt);
    RootOf(1.0, 1.0, sqrt);
    hide Dot, IsSqrt, NonZero;
    CosineIsQuotient(a, x, sqrt, 3.0, 5.0);
    CosineIsQuotient(a, y, sqrt, 4.0, 5.0);
    var u, v := [1.0, 1.0], [1.0, -1.0];
    assert Dot(u, v) == 0.0;
    RightAngle(u, v, sqrt);
  }

  lemma RightAngle(a: Vector, b: Vector, sqrt: real -> real)
    requires IsSqrt(sqrt) && |a| == |b| && Dot(a, b) == 0.0
    ensures Cosine(a, b, sqrt) == 0.0
  {
    hide Dot;
    CosineGuards(a, b, sqrt);
  }

  lemma DotTwo(a: Vector, b: Vector)
    requires |a| == |b| == 2
    ensures Dot(a, b) == a[0] * b[0] + a[1] * b[1]
  {
    assert a[1..] == [a[1]] && b[1..] == [b[1]] && [a[1]][1..] == [] == [b[1]][1..];
    assert Dot([a[1]], [b[1]]) == a[1] * b[1];
  }

  lemma RootOf(x: real, n: real, sqrt: real -> real)
    requires IsSqrt(sqrt) && n > 0.0 && n * n == x
    ensures sqrt(x) == n
  {
    Square(n, x);
    var m := sqrt(x);
    RootsOrder(m, n, m * m, n * n);
    RootsOrder(n, m, n * n, m * m);
  }

  lemma DotScaled(t: real, a: Vector, d: real)
    requires d == Dot(a, a)
    ensures Dot(Scale(t, a), Scale(t, a)) == t * (t * d)
  {
    var s := Scale(t, a);
    DotScales(t, a, s);
    DotCommutes(a, s);
    DotScales(t, a, a);
  }

  lemma RootScales(t: real, a: Vector, sqrt: real -> real)
    requires IsSqrt(sqrt) && t > 0.0
    ensures sqrt(Dot(Scale(t, a), Scale(t, a))) == t * sqrt(Dot(a, a))
    ensures sqrt(Dot(Scale(t, a), Scale(t, a))) == 0.0 <==> sqrt(Dot(a, a)) == 0.0
  {
    hide Dot, IsSqrt, NonZero;
    var d, e := Dot(a, a), Dot(Scale(t, a), Scale(t, a));
    DotScaled(t, a, d);
    RootPositive(a, sqrt);
    RootPositive(Scale(t, a), sqrt);
    StretchedRoot(t, d, sqrt(d), sqrt(e));
  }

  lemma StretchedRoot(t: real, d: real, n: real, m: real)
    requires t > 0.0 && n >= 0.0 && m >= 0.0 && n * n == d && m * m == t * (t * d)
    ensures m == t * n
    ensures m == 0.0 <==> n == 0.0
  {
    Rearrange(t, n);
    assert t * (t * d) == (t * t) * d;
    NonNegative(t, n);
    RootsOrder(m, t * n, m * m, (t * n) * (t * n));
    RootsOrder(t * n, m, (t * n) * (t * n), m * m);
    if n > 0.0 { ProductPositive(t, n, m); }
  }

  /** Stretching a vector changes no score. */
  lemma CosineScales(t: real, a: Vector, b: Vector, sqrt: real -> real)
    requires IsSqrt(sqrt) && t > 0.0
    ensures Cosine(Scale(t, a), b, sqrt) == Cosine(a, b, sqrt)
  {
    if |a| == |b| && a != [] {
      DotScales(t, a, b);
      RootScales(t, a, sqrt);
      hide Dot, IsSqrt, NonZero;
      var na, nb, ns := sqrt(Dot(a, a)), sqrt(Dot(b, b)), sqrt(Dot(Scale(t, a), Scale(t, a)));
      RootPositive(a, sqrt);
      RootPositive(b, sqrt);
      if na != 0.0 && nb != 0.0 {
        var p, q := na * nb, ns * nb;
        StretchedQuotient(t, Dot(a, b), na, nb, Dot(Scale(t, a), b), ns, p, q);
        CosineIsQuotient(a, b, sqrt, Dot(a, b), p);
        CosineIsQuotient(Scale(t, a), b, sqrt, Dot(Scale(t, a), b), q);
      }
    }
  }

  lemma StretchedQuotient(t: real, d: real, x: real, y: real, e: real, s: real, p: real, q: real)
    requires t > 0.0 && x > 0.0 && y > 0.0 && e == t * d && s == t * x && p == x * y && q == s * y
    ensures s > 0.0 && p > 0.0 && q > 0.0 && e / q == d / p
  {
    ProductPositive(t, x, s);
    ProductPositive(x, y, p);
    ProductPositive(s, y, q);
    Associate(t, x, y, s);
    CancelFactor(t, d, p, e, q);
  }

  lemma Associate(t: real, x: real, y: real, s: real)
    requires s == t * x
    ensures s * y == t * (x * y)
  {}

  lemma CancelFactor(t: real, x: real, m: real, tx: real, tm: real)
    requires t > 0.0 && m > 0.0 && tm > 0.0 && tx == t * x && tm == t * m
    ensures tx / tm == x / m
  {
    var q := x / m;
    assert q * m == x;
    assert q * tm == tx by { Associate(q, t, m, q * t); }
  }

  /** The database computes a distance; turned back, on non-zero vectors of one dimension, it is the same score. */
  function SqlSimilarity(needle: Vector, row: Vector, sqrt: real -> real): real
    requires |needle| == |row| && sqrt(Dot(needle, needle)) * sqrt(Dot(row, row)) != 0.0
  {
    var distance := 1.0 - Dot(needle, row) / (sqrt(Dot(needle, needle)) * sqrt(Dot(row, row)));
    1.0 - distance
  }

  lemma SqlSimilarityIsCosine(needle: Vector, row: Vector, sqrt: real -> real)
    requires IsSqrt(sqrt) && |needle| == |row| && NonZero(needle) && NonZero(row)
    ensures sqrt(Dot(needle, needle)) * sqrt(Dot(row, row)) != 0.0
    ensures SqlSimilarity(needle, row, sqrt) == Cosine(needle, row, sqrt)
  {
    RootPositive(needle, sqrt);
    RootPositive(row, sqrt);
    Positive(sqrt(Dot(needle, needle)), sqrt(Dot(row, row)));
  }
}
