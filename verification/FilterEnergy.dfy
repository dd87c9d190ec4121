/** The energy of the filtered controller (control.rs:20-83) closed through its follower: a quadratic
    form in the error and the estimate that every cycle contracts, at any gain for which it is definite. */
module FilterEnergy {
  import opened Control
  import opened FilterTheory

  /** The coefficients, other than `k` itself, of the quadratic form below. */
  function Cross(k: real, g: real): real {
    k * (1.0 - g)
  }

  function Rest(k: real, g: real): real {
    g * (1.0 - k)
  }

  /** The quadratic form, in the error and the estimate, that each cycle of filter gain `k` and
      loop gain `g` contracts. */
  function Energy(k: real, g: real, e: real, x: real): real {
    k * (e * e) - Cross(k, g) * (e * x) + Rest(k, g) * (x * x)
  }

  /** The form is positive, with a share `s` of its diagonal to spare. */
  predicate Definite(k: real, g: real, s: real) {
    g > 0.0 && 0.0 < s <= 1.0 && k * ((1.0 - g) * (1.0 - g)) <= (1.0 - s) * (4.0 * (g * (1.0 - k)))
  }

  // ---------------------------------------------------------------- one cycle, as arithmetic

  lemma ProductNonNegative(a: real, b: real)
    requires a >= 0.0 && b >= 0.0
    ensures a * b >= 0.0
  {
  }

  lemma SquareNonNegative(a: real)
    ensures a * a >= 0.0
  {
  }

  lemma DivideOut(k: real, a: real, b: real)
    requires k > 0.0 && k * a <= k * b
    ensures a <= b
  {
    assert k * a == a * k && k * b == b * k;
    CancelLe(a, b, k);
  }

  /** A form of positive diagonal whose discriminant leaves a share `s`. */
  predicate Positive(a: real, b: real, c: real, s: real) {
    a > 0.0 && c > 0.0 && s >= 0.0 && b * b <= (1.0 - s) * (4.0 * (a * c))
  }

  predicate IsForm(a: real, b: real, c: real, e: real, x: real, v: real) {
    v == a * (e * e) - b * (e * x) + c * (x * x)
  }

  /** What a miss of the step is multiplied with. */
  function Slope(a: real, b: real, e: real, x: real): real {
    2.0 * (a * e) - b * x
  }

  lemma CompleteSquare(a: real, b: real, c: real, s: real, e: real, x: real, v: real, y: real)
    requires Positive(a, b, c, s) && IsForm(a, b, c, e, x, v) && y == Slope(a, b, e, x)
    ensures y * y + s * (4.0 * (a * c)) * (x * x) <= 4.0 * (a * v)
  {
    SquareNonNegative(x);
    MulLeReal(b * b, (1.0 - s) * (4.0 * (a * c)), x * x);
    assert 4.0 * (a * v) == y * y + (4.0 * (a * c)) * (x * x) - (b * b) * (x * x);
    assert (1.0 - s) * (4.0 * (a * c)) * (x * x) == (4.0 * (a * c)) * (x * x) - s * (4.0 * (a * c)) * (x * x);
  }

  lemma FormDiagonal(a: real, b: real, c: real, s: real, e: real, x: real, v: real)
    requires Positive(a, b, c, s) && IsForm(a, b, c, e, x, v)
    ensures s * (c * (x * x)) <= v
  {
    hide IsForm, Slope;
    var y := Slope(a, b, e, x);
    CompleteSquare(a, b, c, s, e, x, v, y);
    SquareNonNegative(y);
    assert s * (4.0 * (a * c)) * (x * x) == (4.0 * a) * (s * (c * (x * x)));
    assert 4.0 * (a * v) == (4.0 * a) * v;
    DivideOut(4.0 * a, s * (c * (x * x)), v);
  }

  lemma FormSquare(a: real, b: real, c: real, s: real, e: real, x: real, v: real, y: real)
    requires Positive(a, b, c, s) && IsForm(a, b, c, e, x, v) && y == Slope(a, b, e, x)
    ensures y * y <= 4.0 * (a * v)
  {
    hide IsForm, Slope;
    CompleteSquare(a, b, c, s, e, x, v, y);
    SquareNonNegative(x);
    ProductNonNegative(a, c);
    ShareNonNegative(s, 4.0 * (a * c), x * x);
    assert s * (4.0 * (a * c)) * (x * x) == s * ((4.0 * (a * c)) * (x * x));
  }

  lemma SwappedForm(a: real, b: real, c: real, s: real, e: real, x: real, v: real)
    requires Positive(a, b, c, s) && IsForm(a, b, c, e, x, v)
    ensures Positive(c, b, a, s) && IsForm(c, b, a, x, e, v)
  {
    assert a * c == c * a && e * x == x * e;
  }

  lemma EnergyIsForm(k: real, g: real, s: real, e: real, x: real)
    requires 0.0 < k < 1.0 && Definite(k, g, s)
    ensures IsForm(k, Cross(k, g), Rest(k, g), e, x, Energy(k, g, e, x))
    ensures Positive(k, Cross(k, g), Rest(k, g), s)
  {
    hide Energy;
    assert Energy(k, g, e, x) == k * (e * e) - Cross(k, g) * (e * x) + Rest(k, g) * (x * x) by {
      EnergyUnfolds(k, g, e, x);
    }
    Discriminant(k, g, s);
  }

  lemma EnergyUnfolds(k: real, g: real, e: real, x: real)
    ensures Energy(k, g, e, x) == k * (e * e) - Cross(k, g) * (e * x) + Rest(k, g) * (x * x)
  {
  }

  lemma Discriminant(k: real, g: real, s: real)
    requires 0.0 < k < 1.0 && Definite(k, g, s)
    ensures Positive(k, Cross(k, g), Rest(k, g), s)
  {
    var h, q := g * (1.0 - k), (1.0 - g) * (1.0 - g);
    MulLessReal(0.0, g, 1.0 - k);
    MulLeReal(k * q, (1.0 - s) * (4.0 * h), k);
    assert (k * (1.0 - g)) * (k * (1.0 - g)) == (k * q) * k;
    assert (1.0 - s) * (4.0 * h) * k == (1.0 - s) * (4.0 * (k * h));
  }

  /** So the energy bounds the square of the error, of the estimate, and of the slope. */
  lemma ErrorBound(k: real, g: real, s: real, e: real, x: real)
    requires 0.0 < k < 1.0 && Definite(k, g, s)
    ensures s * (k * (e * e)) <= Energy(k, g, e, x)
  {
    hide Energy, Positive, IsForm, Cross, Rest, Definite;
    EnergyIsForm(k, g, s, e, x);
    SwappedForm(k, Cross(k, g), Rest(k, g), s, e, x, Energy(k, g, e, x));
    FormDiagonal(Rest(k, g), Cross(k, g), k, s, x, e, Energy(k, g, e, x));
  }

  lemma EstimateBound(k: real, g: real, s: real, e: real, x: real)
    requires 0.0 < k < 1.0 && Definite(k, g, s)
    ensures s * (Rest(k, g) * (x * x)) <= Energy(k, g, e, x)
  {
    hide Energy, Positive, IsForm, Cross, Rest, Definite;
    EnergyIsForm(k, g, s, e, x);
    FormDiagonal(k, Cross(k, g), Rest(k, g), s, e, x, Energy(k, g, e, x));
  }

  predicate Sloped(k: real, y: real, v: real) {
    y * y <= 4.0 * (k * v)
  }

  lemma SlopeBound(k: real, g: real, s: real, e: real, x: real)
    requires 0.0 < k < 1.0 && Definite(k, g, s)
    ensures Sloped(k, Slope(k, Cross(k, g), e, x), Energy(k, g, e, x))
  {
    hide Energy, Positive, IsForm, Cross, Rest, Slope, Definite;
    EnergyIsForm(k, g, s, e, x);
    FormSquare(k, Cross(k, g), Rest(k, g), s, e, x, Energy(k, g, e, x), Slope(k, Cross(k, g), e, x));
  }

  lemma ShareNonNegative(s: real, a: real, square: real)
    requires s >= 0.0 && a >= 0.0 && square >= 0.0
    ensures s * (a * square) >= 0.0
  {
    ProductNonNegative(a, square);
    ProductNonNegative(s, a * square);
  }

  lemma EnergyAtEstimate(k: real, g: real, e: real, x': real, z: real)
    requires z == e - g * x'
    ensures AtEstimate(k, g, e, x', Energy(k, g, z, x'))
  {
    var gx := g * x';
    assert z * z == e * e - 2.0 * (e * gx) + gx * gx;
    assert z * x' == e * x' - gx * x';
    assert e * gx == g * (e * x') && gx * x' == g * (x' * x') && gx * gx == g * (g * (x' * x'));
    EstimateTerms(k, g, e * e, e * x', x' * x');
  }

  lemma EstimateTerms(k: real, g: real, ee: real, ex: real, xx: real)
    ensures k * (ee - 2.0 * (g * ex) + g * (g * xx)) - (k * (1.0 - g)) * (ex - g * xx) + (g * (1.0 - k)) * xx
         == k * ee - (k * (1.0 + g)) * ex + g * xx
  {
  }

  /** A step of exactly the gain times the new estimate scales the energy by the gain's rest. */
  predicate Scaled(k: real, v: real, w: real) {
    w == (1.0 - k) * v
  }

  lemma EnergyScales(k: real, g: real, e: real, x: real, x': real, z: real)
    requires x' == x + k * (e - x) && z == e - g * x'
    ensures Scaled(k, Energy(k, g, e, x), Energy(k, g, z, x'))
  {
    hide Energy, Scaled;
    RestOfEstimate(k, 1.0 - k, e, x, x');
    ScalesBy(k, g, 1.0 - k, (1.0 - k) * x, e, x, x', z);
  }

  lemma RestOfEstimate(k: real, u: real, e: real, x: real, x': real)
    requires u == 1.0 - k && x' == x + k * (e - x)
    ensures u * x == x' - k * e
  {
  }

  /** The energy left, `w`, in terms of the old error and the new estimate. */
  predicate AtEstimate(k: real, g: real, e: real, x': real, w: real) {
    w == k * (e * e) - (k * (1.0 + g)) * (e * x') + g * (x' * x')
  }

  lemma ScalesBy(k: real, g: real, u: real, q: real, e: real, x: real, x': real, z: real)
    requires u == 1.0 - k && q == u * x && q == x' - k * e && z == e - g * x'
    ensures Scaled(k, Energy(k, g, e, x), Energy(k, g, z, x'))
  {
    hide Energy, Scaled, AtEstimate;
    EnergyAtEstimate(k, g, e, x', z);
    ShareAtEstimate(k, g, u, q, e, x, x', Energy(k, g, e, x), u * Energy(k, g, e, x));
    SameAtEstimate(k, g, e, x', u * Energy(k, g, e, x), Energy(k, g, z, x'));
    ScaledIf(k, u, Energy(k, g, e, x), Energy(k, g, z, x'));
  }

  lemma SameAtEstimate(k: real, g: real, e: real, x': real, v: real, w: real)
    requires AtEstimate(k, g, e, x', v) && AtEstimate(k, g, e, x', w)
    ensures v == w
  {
  }

  lemma ScaledIf(k: real, u: real, v: real, w: real)
    requires u == 1.0 - k && w == u * v
    ensures Scaled(k, v, w)
  {
  }

  lemma ShareAtEstimate(k: real, g: real, u: real, q: real, e: real, x: real, x': real, v: real, uv: real)
    requires u == 1.0 - k && q == u * x && q == x' - k * e && v == Energy(k, g, e, x) && uv == u * v
    ensures AtEstimate(k, g, e, x', uv)
  {
    hide Energy, AtEstimate, AtRest;
    RestOfEnergy(k, g, u, e, x, q, v, uv);
    RestAtEstimate(k, g, u, e, x', q, uv);
  }

  predicate AtRest(k: real, g: real, u: real, e: real, q: real, uv: real) {
    uv == (u * k) * (e * e) - (k * (1.0 - g)) * (e * q) + g * (q * q)
  }

  lemma RestOfEnergy(k: real, g: real, u: real, e: real, x: real, q: real, v: real, uv: real)
    requires u == 1.0 - k && q == u * x && v == Energy(k, g, e, x) && uv == u * v
    ensures AtRest(k, g, u, e, q, uv)
  {
    assert Rest(k, g) == g * u;
    assert e * q == u * (e * x) && q * q == u * (u * (x * x));
    assert u * (Rest(k, g) * (x * x)) == g * (q * q);
    assert u * (Cross(k, g) * (e * x)) == (k * (1.0 - g)) * (e * q);
  }

  lemma RestAtEstimate(k: real, g: real, u: real, e: real, x': real, q: real, uv: real)
    requires u == 1.0 - k && q == x' - k * e && AtRest(k, g, u, e, q, uv)
    ensures AtEstimate(k, g, e, x', uv)
  {
    assert e * q == e * x' - k * (e * e);
    assert q * q == x' * x' - 2.0 * (k * (e * x')) + k * (k * (e * e));
  }

  /** What a miss `f` of the step, times the slope `y`, makes of energy `v`. */
  predicate Missed(k: real, y: real, f: real, v: real, w: real) {
    w == v + y * f + k * (f * f)
  }

  lemma EnergyMissed(k: real, g: real, z: real, x': real, f: real)
    ensures Missed(k, Slope(k, Cross(k, g), z, x'), f, Energy(k, g, z, x'), Energy(k, g, z + f, x'))
  {
    hide Cross, Rest;
    MissedTerms(k, Cross(k, g), Rest(k, g), z, x', f);
  }

  lemma MissedTerms(a: real, b: real, c: real, z: real, x: real, f: real)
    ensures a * ((z + f) * (z + f)) - b * ((z + f) * x) + c * (x * x)
         == a * (z * z) - b * (z * x) + c * (x * x) + (2.0 * (a * z) - b * x) * f + a * (f * f)
  {
  }

  /** Energy `v` has become `w` in a cycle of gain `k` whose squared miss is at most `c`. */
  predicate Contracted(k: real, c: real, v: real, w: real) {
    w <= (1.0 - k / 2.0) * v + (2.0 - k) * c
  }

  /** One cycle whose step misses the gain times the estimate by less than `miss`, truncation and
      drift taken together: the energy loses half the filter gain's share, up to a constant for the
      miss that does not depend on the loop gain. */
  lemma EnergyContracts(k: real, g: real, s: real, e: real, x: real, x': real, f: real, e': real, miss: real, c: real)
    requires 0.0 < k < 1.0 && Definite(k, g, s)
    requires x' == x + k * (e - x) && e' == e - g * x' + f && -miss < f < miss && c == miss * miss
    ensures Contracted(k, c, Energy(k, g, e, x), Energy(k, g, e', x'))
  {
    hide Energy, Contracted, Definite, Slope, Cross, Scaled, Missed, Sloped;
    var z := e - g * x';
    EnergyScales(k, g, e, x, x', z);
    EnergyMissed(k, g, z, x', f);
    SlopeBound(k, g, s, z, x');
    MissSquare(f, miss);
    MissContracts(k, Slope(k, Cross(k, g), z, x'), f, c, Energy(k, g, e, x), Energy(k, g, z, x'), Energy(k, g, e', x'));
  }

  lemma MissContracts(k: real, y: real, f: real, c: real, v: real, v': real, w: real)
    requires 0.0 < k < 1.0 && f * f <= c
    requires Scaled(k, v, v') && Sloped(k, y, v') && Missed(k, y, f, v', w)
    ensures Contracted(k, c, v, w)
  {
    hide Contracted, Scaled, Sloped, Missed;
    var u := 1.0 - k;
    SlopeShare(k, u, y, v, v');
    CrossPaid(k, u, y, f, v);
    MissedSum(k, u, y, f, v, v', w);
    PaidFor(k, u, c, v, f * f, y * f, w);
  }

  lemma SlopeShare(k: real, u: real, y: real, v: real, v': real)
    requires u == 1.0 - k && Scaled(k, v, v') && Sloped(k, y, v')
    ensures y * y <= (4.0 * u) * (k * v)
  {
    assert 4.0 * (k * v') == (4.0 * u) * (k * v);
  }

  lemma MissedSum(k: real, u: real, y: real, f: real, v: real, v': real, w: real)
    requires u == 1.0 - k && Scaled(k, v, v') && Missed(k, y, f, v', w)
    ensures w == u * v + y * f + k * (f * f)
  {
  }

  /** The cross term of a miss is paid for by half the gain's share of the energy. */
  lemma CrossPaid(k: real, u: real, y: real, f: real, v: real)
    requires u > 0.0 && y * y <= (4.0 * u) * (k * v)
    ensures y * f <= k * v / 2.0 + 2.0 * (u * (f * f))
  {
    var uf := u * f;
    SquareNonNegative(y - 4.0 * uf);
    assert (y - 4.0 * uf) * (y - 4.0 * uf) == y * y - 8.0 * (y * uf) + 16.0 * (uf * uf);
    assert y * uf == u * (y * f) && uf * uf == u * (u * (f * f));
    assert (8.0 * u) * (k * v / 2.0) == (4.0 * u) * (k * v);
    DivideOut(8.0 * u, y * f, k * v / 2.0 + 2.0 * (u * (f * f)));
  }

  lemma PaidFor(k: real, u: real, c: real, v: real, ff: real, yf: real, w: real)
    requires 0.0 < k < 1.0 && u == 1.0 - k && ff <= c
    requires w == u * v + yf + k * ff && yf <= k * v / 2.0 + 2.0 * (u * ff)
    ensures Contracted(k, c, v, w)
  {
    MissRemainder(k, u, ff, c);
    HalfShare(k, u, v);
  }

  lemma HalfShare(k: real, u: real, v: real)
    requires u == 1.0 - k
    ensures u * v + k * v / 2.0 == (1.0 - k / 2.0) * v
  {
  }

  lemma MissRemainder(k: real, u: real, ff: real, c: real)
    requires 0.0 < k < 1.0 && u == 1.0 - k && ff <= c
    ensures 2.0 * u * ff + k * ff <= (2.0 - k) * c
  {
    MulLeReal(ff, c, 2.0 - k);
    assert ff * (2.0 - k) == 2.0 * u * ff + k * ff;
    assert c * (2.0 - k) == (2.0 - k) * c;
  }

  lemma MissSquare(f: real, miss: real)
    requires -miss < f < miss
    ensures f * f <= miss * miss
  {
    ProductNonNegative(miss - f, miss + f);
    assert (miss - f) * (miss + f) == miss * miss - f * f;
  }

  // ---------------------------------------------------------------- a gain that grows

  /** One cycle's bound on the energy per unit of gain; `c` is the square of the miss. */
  function NextLevel(k: real, c: real, b: real): real
    requires k > 0.0
  {
    (1.0 - k / 2.0) * b + (2.0 - k) / k * c
  }

  /** The level that bound tends to: its only fixed point. */
  function RestLevel(k: real, c: real): real
    requires k > 0.0
  {
    2.0 * ((2.0 - k) / k) / k * c
  }

  /** The bound after `n` cycles. */
  function Level(k: real, c: real, b: real, n: nat): real
    requires k > 0.0
  {
    RestLevel(k, c) + PowReal(1.0 - k / 2.0, n) * (b - RestLevel(k, c))
  }

  lemma RestIsFixed(k: real, c: real)
    requires 0.0 < k < 1.0 && c > 0.0
    ensures RestLevel(k, c) > 0.0 && NextLevel(k, c, RestLevel(k, c)) == RestLevel(k, c)
  {
    var g := (2.0 - k) / k;
    var unit := 2.0 * g / k;
    assert g * k == 2.0 - k;
    assert unit * k == 2.0 * g;
    PositiveRest(g, unit, k);
    ScaledRest(k, g, unit, c);
  }

  lemma PositiveRest(g: real, unit: real, k: real)
    requires 0.0 < k < 1.0 && g * k == 2.0 - k && unit * k == 2.0 * g
    ensures unit > 0.0
  {
    CancelLess(0.0, g, k);
    CancelLess(0.0, unit, k);
  }

  lemma ScaledRest(k: real, g: real, unit: real, c: real)
    requires unit * k == 2.0 * g && unit > 0.0 && c > 0.0
    ensures unit * c > 0.0 && (1.0 - k / 2.0) * (unit * c) + g * c == unit * c
  {
    MulLessReal(0.0, unit, c);
    assert (1.0 - k / 2.0) * (unit * c) == unit * c - (unit * k) * c / 2.0;
  }

  lemma PowRange(b: real, n: nat)
    requires 0.0 <= b <= 1.0
    ensures 0.0 <= PowReal(b, n) <= 1.0
  {
    if n > 0 {
      PowRange(b, n - 1);
      ProductNonNegative(b, PowReal(b, n - 1));
      ProductNonNegative(1.0 - b, PowReal(b, n - 1));
      Distribute(b, 1.0 - b, PowReal(b, n - 1));
    }
  }

  lemma LevelFacts(k: real, c: real, b: real, n: nat)
    requires 0.0 < k < 1.0 && c > 0.0 && RestLevel(k, c) <= b
    ensures 0.0 <= Level(k, c, b, n) <= b
    ensures Level(k, c, b, 0) == b
    ensures NextLevel(k, c, Level(k, c, b, n)) == Level(k, c, b, n + 1)
  {
    hide RestLevel, PowReal;
    var rest := RestLevel(k, c);
    RestIsFixed(k, c);
    PowRange(1.0 - k / 2.0, n);
    PowerStep(1.0 - k / 2.0, n);
    LevelArithmetic(k, rest, b - rest, PowReal(1.0 - k / 2.0, n), (2.0 - k) / k * c);
  }

  lemma LevelArithmetic(k: real, rest: real, d: real, power: real, c: real)
    requires 0.0 <= d && 0.0 <= power <= 1.0 && (1.0 - k / 2.0) * rest + c == rest
    ensures 0.0 <= power * d <= d
    ensures (1.0 - k / 2.0) * (rest + power * d) + c == rest + ((1.0 - k / 2.0) * power) * d
  {
  }

  lemma NextLevelFalls(k: real, k': real, c: real, b: real)
    requires 0.0 < k <= k' < 1.0 && c > 0.0 && b >= 0.0
    ensures NextLevel(k', c, b) <= NextLevel(k, c, b)
  {
    var g, g' := (2.0 - k) / k, (2.0 - k') / k';
    assert g * k == 2.0 - k && g' * k' == 2.0 - k';
    CancelLess(0.0, g, k);
    MulLeReal(k, k', g);
    calc { g' * k'; <= g * k; k * g; <= k' * g; g * k'; }
    CancelLe(g', g, k');
    MulLeReal(g', g, c);
    MulLeReal(1.0 - k' / 2.0, 1.0 - k / 2.0, b);
  }

  /** Raising the gain raises the energy by no more than the same factor. */
  lemma EnergyPerGain(k: real, k': real, g: real, e: real, x: real)
    requires 0.0 < k <= k' < 1.0 && g > 0.0
    ensures k * Energy(k', g, e, x) <= k' * Energy(k, g, e, x)
  {
    SquareNonNegative(x);
    PerGainTerms(k, k', g, e * e, e * x, x * x);
  }

  lemma PerGainTerms(k: real, k': real, g: real, ee: real, ex: real, xx: real)
    requires 0.0 < k <= k' < 1.0 && g > 0.0 && xx >= 0.0
    ensures k * (k' * ee - Cross(k', g) * ex + Rest(k', g) * xx) <= k' * (k * ee - Cross(k, g) * ex + Rest(k, g) * xx)
  {
    ProductNonNegative(g, xx);
    ProductNonNegative(k' - k, g * xx);
    assert k * (Rest(k', g) * xx) == k * (g * xx) - (k * k') * (g * xx);
    assert k' * (Rest(k, g) * xx) == k' * (g * xx) - (k * k') * (g * xx);
    assert k * (Cross(k', g) * ex) == k' * (Cross(k, g) * ex);
    assert (k' - k) * (g * xx) == k' * (g * xx) - k * (g * xx);
  }

  /** One cycle, with the energy counted per unit of gain: the gain may grow, and the bound
      still contracts at the rate of any gain it started above. */
  lemma LevelContracts(k0: real, k: real, k': real, g: real, e: real, x: real, e': real, x': real, c: real, b: real)
    requires 0.0 < k0 <= k <= k' < 1.0 && g > 0.0 && b >= 0.0 && c > 0.0
    requires Contracted(k, c, Energy(k, g, e, x), Energy(k, g, e', x'))
    requires Energy(k, g, e, x) <= k * b
    ensures Energy(k', g, e', x') <= k' * NextLevel(k0, c, b)
  {
    hide Energy, NextLevel, Contracted;
    EnergyPerGain(k, k', g, e', x');
    NextLevelFalls(k0, k, c, b);
    PerGain(k, c, b, Energy(k, g, e, x), Energy(k, g, e', x'));
    FinishLevel(k, k', Energy(k, g, e', x'), Energy(k', g, e', x'), NextLevel(k, c, b), NextLevel(k0, c, b));
  }

  lemma PerGain(k: real, c: real, b: real, v: real, w: real)
    requires 0.0 < k < 1.0 && v <= k * b && Contracted(k, c, v, w)
    ensures w <= k * NextLevel(k, c, b)
  {
    MulLeReal(v, k * b, 1.0 - k / 2.0);
    PerGainArithmetic(k, c, b);
    assert v * (1.0 - k / 2.0) == (1.0 - k / 2.0) * v;
  }

  lemma PerGainArithmetic(k: real, c: real, b: real)
    requires 0.0 < k < 1.0
    ensures (k * b) * (1.0 - k / 2.0) + (2.0 - k) * c == k * NextLevel(k, c, b)
  {
    var g := (2.0 - k) / k;
    assert g * k == 2.0 - k;
    assert k * (g * c) == (g * k) * c;
    Distribute((1.0 - k / 2.0) * b, g * c, k);
    assert k * ((1.0 - k / 2.0) * b) == (k * b) * (1.0 - k / 2.0);
  }

  lemma FinishLevel(k: real, k': real, w: real, w': real, l: real, l0: real)
    requires 0.0 < k <= k' && k * w' <= k' * w && w <= k * l && l <= l0
    ensures w' <= k' * l0
  {
  }

  // ---------------------------------------------------------------- squares and margins

  lemma SquareMonotone(b: real, c: real)
    requires 0.0 <= b < c
    ensures b * b < c * c
  {
    MulLessReal(0.0, c - b, c + b);
    assert (c - b) * (c + b) == c * c - b * b;
  }

  lemma SquareOrder(a: real, b: real)
    requires b >= 0.0 && a * a <= b * b
    ensures -b <= a <= b
  {
    if b < a {
      SquareMonotone(b, a);
    } else if b < -a {
      SquareMonotone(b, -a);
    }
  }

  /** What leaves a margin at the largest gain leaves it at every smaller one. */
  lemma DefiniteBelow(k: real, cap: real, g: real, s: real)
    requires 0.0 < k <= cap && Definite(cap, g, s)
    ensures Definite(k, g, s)
  {
    hide Definite, Spares;
    var q := (1.0 - g) * (1.0 - g);
    SquareNonNegative(1.0 - g);
    DefiniteBy(cap, g, s, q);
    DefiniteBy(k, g, s, q);
    SparesBelow(k, cap, g, 1.0 - s, q);
  }

  predicate Spares(k: real, g: real, t: real, q: real) {
    k * q <= t * (4.0 * (g * (1.0 - k)))
  }

  lemma SparesBelow(k: real, cap: real, g: real, t: real, q: real)
    requires 0.0 < k <= cap && g > 0.0 && t >= 0.0 && q >= 0.0 && Spares(cap, g, t, q)
    ensures Spares(k, g, t, q)
  {
    MulLeReal(k, cap, q);
    RestFalls(k, cap, g, t);
  }

  lemma DefiniteBy(k: real, g: real, s: real, q: real)
    requires q == (1.0 - g) * (1.0 - g)
    ensures Definite(k, g, s) <==> g > 0.0 && 0.0 < s <= 1.0 && Spares(k, g, 1.0 - s, q)
  {
  }

  lemma RestFalls(k: real, cap: real, g: real, t: real)
    requires k <= cap && g > 0.0 && t >= 0.0
    ensures t * (4.0 * (g * (1.0 - cap))) <= t * (4.0 * (g * (1.0 - k)))
  {
    Scale(g, 1.0 - cap, 1.0 - k);
    Scale(t, 4.0 * (g * (1.0 - cap)), 4.0 * (g * (1.0 - k)));
  }

  lemma Scale(c: real, a: real, b: real)
    requires a <= b && c >= 0.0
    ensures c * a <= c * b
  {
  }
}
