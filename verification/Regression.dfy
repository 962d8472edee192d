/** Averages and least-squares slopes over equally spaced observations, in exact
    arithmetic. Observation i has abscissa i. */
module Regression {

  function Sum(ys: seq<real>): real {
    if ys == [] then 0.0 else Sum(ys[..|ys| - 1]) + ys[|ys| - 1]
  }

  /** Σ x over the first n abscissas. */
  function SumX(n: nat): real {
    if n == 0 then 0.0 else SumX(n - 1) + (n - 1) as real
  }

  function SumXX(n: nat): real {
    if n == 0 then 0.0 else SumXX(n - 1) + (n - 1) as real * (n - 1) as real
  }

  function SumXY(ys: seq<real>): real {
    if ys == [] then 0.0 else SumXY(ys[..|ys| - 1]) + (|ys| - 1) as real * ys[|ys| - 1]
  }

  /** n·uv - u·v, for a number n of pairs with sums u and v and sum of products uv. */
  function Cross(n: real, uv: real, u: real, v: real): real {
    n * uv - u * v
  }

  /** n·Σx² - (Σx)², what the slope is divided by. */
  function Spread(n: nat): real {
    Cross(n as real, SumXX(n), SumX(n), SumX(n))
  }

  /** n·Σxy - Σx·Σy, what is divided. */
  function Covariation(ys: seq<real>): real {
    Cross(|ys| as real, SumXY(ys), SumX(|ys|), Sum(ys))
  }

  function Slope(ys: seq<real>): real {
    if |ys| < 2 then 0.0 else SpreadPositive(|ys|); Covariation(ys) / Spread(|ys|)
  }

  /** The height at 0 that goes with the slope. */
  function Intercept(ys: seq<real>): real
    requires ys != []
  {
    (Sum(ys) - Slope(ys) * SumX(|ys|)) / |ys| as real
  }

  function Mean(ys: seq<real>): real {
    if ys == [] then 0.0 else Sum(ys) / |ys| as real
  }

  method Average(values: seq<real>) returns (avg: real)
    ensures avg == Mean(values)
  {
    if |values| == 0 {
      return 0.0;
    }
    var sum := 0.0;
    for i := 0 to |values|
      invariant sum == Sum(values[..i])
    {
      sum := sum + values[i];
      assert values[..i + 1][..i] == values[..i];
    }
    assert values[..|values|] == values;
    avg := sum / |values| as real;
  }

  /** The loop of the regression. */
  method Sums(values: seq<real>) returns (sumX: real, sumY: real, sumXY: real, sumX2: real)
    ensures sumX == SumX(|values|) && sumX2 == SumXX(|values|)
    ensures sumY == Sum(values) && sumXY == SumXY(values)
  {
    sumX, sumY, sumXY, sumX2 := 0.0, 0.0, 0.0, 0.0;
    for i := 0 to |values|
      invariant sumX == SumX(i) && sumX2 == SumXX(i)
      invariant sumY == Sum(values[..i]) && sumXY == SumXY(values[..i])
    {
      var x := i as real;
      assert values[..i + 1][..i] == values[..i];
      sumX := sumX + x;
      sumY := sumY + values[i];
      sumXY := sumXY + x * values[i];
      sumX2 := sumX2 + x * x;
    }
    assert values[..|values|] == values;
  }

  /** The source tests the denominator for zero; that branch is dead. */
  method LinearSlope(values: seq<real>) returns (slope: real)
    ensures slope == Slope(values)
  {
    if |values| < 2 {
      return 0.0;
    }
    var n := |values| as real;
    var sumX, sumY, sumXY, sumX2 := Sums(values);
    SlopeFormula(values, n, sumX, sumX2, sumY, sumXY);
    hide *;
    var denom := n * sumX2 - sumX * sumX;
    if denom == 0.0 {
      assert false;
    }
    slope := (n * sumXY - sumX * sumY) / denom;
  }

  lemma {:induction false} SlopeFormula(ys: seq<real>, n: real, x: real, xx: real, y: real, xy: real)
    requires |ys| >= 2 && n == |ys| as real
    requires x == SumX(|ys|) && xx == SumXX(|ys|) && y == Sum(ys) && xy == SumXY(ys)
    ensures n * xx - x * x > 0.0
    ensures Slope(ys) == (n * xy - x * y) / (n * xx - x * x)
  {
    SpreadPositive(|ys|);
    CrossIs(n, xx, x, x);
    CrossIs(n, xy, x, y);
    hide Sum, SumX, SumXX, SumXY, Cross;
  }

  lemma {:induction false} CrossIs(n: real, uv: real, u: real, v: real)
    ensures Cross(n, uv, u, v) == n * uv - u * v
  {
  }

  lemma {:induction false} SumsClosed(n: nat)
    ensures 2.0 * SumX(n) == n as real * (n as real - 1.0)
    ensures 6.0 * SumXX(n) == n as real * (n as real - 1.0) * (2.0 * n as real - 1.0)
  {
    if n > 0 {
      SumsClosed(n - 1);
      var m := n as real;
      assert (n - 1) as real == m - 1.0;
    }
  }

  lemma {:induction false} Factored(m: real, x: real, xx: real)
    requires 2.0 * x == m * (m - 1.0)
    requires 6.0 * xx == m * (m - 1.0) * (2.0 * m - 1.0)
    ensures 12.0 * Cross(m, xx, x, x) == m * m * (m * m - 1.0)
  {
    calc {
      12.0 * Cross(m, xx, x, x);
      2.0 * m * (6.0 * xx) - 3.0 * (2.0 * x) * (2.0 * x);
      2.0 * m * (m * (m - 1.0) * (2.0 * m - 1.0)) - 3.0 * (m * (m - 1.0)) * (m * (m - 1.0));
      m * m * (m * m - 1.0);
    }
  }

  /** The denominator in closed form. From two observations on it is not zero. */
  lemma {:induction false} SpreadPositive(n: nat)
    ensures 12.0 * Spread(n) == n as real * n as real * (n as real * n as real - 1.0)
    ensures n >= 2 ==> Spread(n) > 0.0
  {
    hide *;
    SumsClosed(n);
    Factored(n as real, SumX(n), SumXX(n));
    SpreadIs(n, n as real, SumXX(n), SumX(n));
    if n >= 2 {
      FourthPower(n as real);
    }
  }

  lemma {:induction false} SpreadIs(m: nat, n: real, xx: real, x: real)
    requires n == m as real && xx == SumXX(m) && x == SumX(m)
    ensures Spread(m) == Cross(n, xx, x, x)
  {
    hide Cross, SumX, SumXX;
  }

  lemma {:induction false} FourthPower(m: real)
    requires m >= 2.0
    ensures m * m * (m * m - 1.0) > 0.0
  {
    assert m * m >= 2.0 * m;
    var q := m * m;
    assert q * (q - 1.0) > 0.0;
  }

  // ---- Least squares ----

  /** The height of a line. */
  function Height(a: real, b: real, x: real): real {
    a + b * x
  }

  function Square(v: real): real {
    v * v
  }

  function Residual(y: real, a: real, b: real, x: real): real {
    y - (a + b * x)
  }

  function Moment(x: real, r: real): real {
    x * r
  }

  /** Σ (y - (a + b·x))². */
  function SquaredResiduals(ys: seq<real>, a: real, b: real): real {
    if ys == [] then 0.0
    else SquaredResiduals(ys[..|ys| - 1], a, b) + Square(Residual(ys[|ys| - 1], a, b, (|ys| - 1) as real))
  }

  /** Σ (a + b·x)², how far apart two lines are over the first n abscissas. */
  function Gap(n: nat, a: real, b: real): real {
    if n == 0 then 0.0
    else Gap(n - 1, a, b) + Square(Height(a, b, (n - 1) as real))
  }

  lemma {:induction false} GapPositive(n: nat, a: real, b: real)
    ensures Gap(n, a, b) >= 0.0
    ensures n >= 2 && (a != 0.0 || b != 0.0) ==> Gap(n, a, b) > 0.0
  {
    if n == 0 {
    } else if n == 2 {
      TwoGaps(a, b, a + b);
    } else {
      GapPositive(n - 1, a, b);
      var v := a + b * (n - 1) as real;
      Squared(v, v * v);
    }
  }

  lemma {:induction false} TwoGaps(a: real, b: real, c: real)
    requires c == a + b
    ensures Gap(2, a, b) == a * a + c * c
    ensures Gap(2, a, b) >= 0.0
    ensures a != 0.0 || b != 0.0 ==> Gap(2, a, b) > 0.0
  {
    assert Gap(1, a, b) == Square(a + b * 0 as real);
    assert Gap(2, a, b) == Gap(1, a, b) + Square(a + b * 1 as real);
    assert a + b * 1 as real == c && a + b * 0 as real == a;
    assert Gap(2, a, b) == a * a + c * c;
    hide *;
    SumOfSquares(a, b, c, Gap(2, a, b));
  }

  lemma {:induction false} SumOfSquares(a: real, b: real, c: real, s: real)
    requires c == a + b && s == a * a + c * c
    ensures s >= 0.0
    ensures a != 0.0 || b != 0.0 ==> s > 0.0
  {
    Squared(a, a * a);
    Squared(c, c * c);
  }

  lemma {:induction false} Squared(x: real, p: real)
    requires p == x * x
    ensures p >= 0.0 && (x != 0.0 ==> p > 0.0)
  {
    if x > 0.0 {
      Product(x, x, p);
    } else if x < 0.0 {
      Product(-x, -x, p);
    }
  }

  lemma {:induction false} Product(x: real, y: real, p: real)
    requires p == x * y && x > 0.0 && y > 0.0
    ensures p > 0.0
  {
  }

  /** What is left of Σ y and Σ xy once the line (a, b) is taken away. */
  function Leftover(ys: seq<real>, a: real, b: real): real {
    Sum(ys) - (|ys| as real * a + b * SumX(|ys|))
  }

  function LeftoverX(ys: seq<real>, a: real, b: real): real {
    SumXY(ys) - (a * SumX(|ys|) + b * SumXX(|ys|))
  }

  lemma {:induction false} LeftoverStep(ys: seq<real>, a: real, b: real)
    requires ys != []
    ensures var x := (|ys| - 1) as real;
            var r := Residual(ys[|ys| - 1], a, b, x);
            && Leftover(ys, a, b) == Leftover(ys[..|ys| - 1], a, b) + r
            && LeftoverX(ys, a, b) == LeftoverX(ys[..|ys| - 1], a, b) + Moment(x, r)
  {
    var x := (|ys| - 1) as real;
    assert |ys| as real == x + 1.0;
  }

  lemma {:induction false} SquaredStep(ys: seq<real>, a: real, b: real)
    requires ys != []
    ensures var r := Residual(ys[|ys| - 1], a, b, (|ys| - 1) as real);
            SquaredResiduals(ys, a, b) == SquaredResiduals(ys[..|ys| - 1], a, b) + Square(r)
  {
  }

  /** Squared residuals sq with leftovers l and lx, after a move of the line by (da, db)
      across the given gap. */
  function Moved(sq: real, l: real, lx: real, gap: real, da: real, db: real): real {
    sq - 2.0 * da * l - 2.0 * db * lx + gap
  }

  /** Moving the line by (da, db) changes the squared residuals by a linear part,
      which the leftovers govern, and by the gap. */
  lemma {:induction false} Shifted(ys: seq<real>, a: real, b: real, da: real, db: real)
    ensures SquaredResiduals(ys, a + da, b + db)
         == Moved(SquaredResiduals(ys, a, b), Leftover(ys, a, b), LeftoverX(ys, a, b), Gap(|ys|, da, db), da, db)
  {
    hide *;
    if ys == [] {
      ShiftedBase(a, b, da, db);
    } else {
      var front, x, y := ys[..|ys| - 1], (|ys| - 1) as real, ys[|ys| - 1];
      Shifted(front, a, b, da, db);
      LeftoverStep(ys, a, b);
      SquaredStep(ys, a, b);
      SquaredStep(ys, a + da, b + db);
      GapStep(|ys|, da, db);
      ShiftOne(x, y, a, b, da, db,
               SquaredResiduals(front, a, b), Leftover(front, a, b), LeftoverX(front, a, b), Gap(|front|, da, db),
               SquaredResiduals(ys, a, b), Leftover(ys, a, b), LeftoverX(ys, a, b), Gap(|ys|, da, db));
    }
  }

  lemma {:induction false} ShiftedBase(a: real, b: real, da: real, db: real)
    ensures SquaredResiduals([], a + da, b + db)
         == Moved(SquaredResiduals([], a, b), Leftover([], a, b), LeftoverX([], a, b), Gap(0, da, db), da, db)
  {
    assert Leftover([], a, b) == 0.0 && LeftoverX([], a, b) == 0.0;
  }

  lemma {:induction false} GapStep(n: nat, a: real, b: real)
    requires n > 0
    ensures Gap(n, a, b) == Gap(n - 1, a, b) + Square(Height(a, b, (n - 1) as real))
  {
  }

  /** The arithmetic of one step of Shifted: the second row of arguments is the first
      one moved by the observation (x, y). */
  lemma {:induction false} ShiftOne(x: real, y: real, a: real, b: real, da: real, db: real,
                                    sq: real, l: real, lx: real, gap: real,
                                    sq1: real, l1: real, lx1: real, gap1: real)
    requires var r := Residual(y, a, b, x); (sq1 == sq + Square(r) && l1 == l + r && lx1 == lx + Moment(x, r))
    requires gap1 == gap + Square(Height(da, db, x))
    ensures var t := Residual(y, a + da, b + db, x);
            Moved(sq, l, lx, gap, da, db) + Square(t) == Moved(sq1, l1, lx1, gap1, da, db)
  {
    var r, t := y - (a + b * x), y - (a + da + (b + db) * x);
    var g := da + db * x;
    assert t == r - g;
    assert t * t == r * r - 2.0 * da * r - 2.0 * db * (x * r) + g * g;
    assert da * l1 == da * l + da * r;
    assert db * lx1 == db * lx + db * (x * r);
  }

  /** The normal equations: the regression line leaves nothing over. */
  lemma {:induction false} NothingLeftOver(ys: seq<real>)
    requires |ys| >= 2
    ensures Leftover(ys, Intercept(ys), Slope(ys)) == 0.0
    ensures LeftoverX(ys, Intercept(ys), Slope(ys)) == 0.0
  {
    hide Sum, SumX, SumXX, SumXY, Cross;
    SpreadPositive(|ys|);
    NormalEquations(|ys| as real, SumX(|ys|), SumXX(|ys|), Sum(ys), SumXY(ys), Slope(ys), Intercept(ys));
  }

  lemma {:induction false} NonZeroFactor(n: real, x: real)
    requires n > 0.0 && n * x == 0.0
    ensures x == 0.0
  {
  }

  lemma {:induction false} NormalEquations(n: real, x: real, xx: real, y: real, xy: real, b: real, a: real)
    requires n > 0.0 && Cross(n, xx, x, x) > 0.0
    requires b == Cross(n, xy, x, y) / Cross(n, xx, x, x)
    requires a == (y - b * x) / n
    ensures y - (n * a + b * x) == 0.0
    ensures xy - (a * x + b * xx) == 0.0
  {
    var left := xy - (a * x + b * xx);
    assert b * Cross(n, xx, x, x) == Cross(n, xy, x, y);
    assert n * a == y - b * x;
    calc {
      n * left;
      n * xy - (n * a) * x - n * b * xx;
      n * xy - (y - b * x) * x - n * b * xx;
      n * xy - x * y - b * (n * xx - x * x);
      0.0;
    }
    NonZeroFactor(n, left);
  }

  /** No line has smaller squared residuals than the regression line, and no other
      line has equally small ones. */
  lemma {:induction false} LeastSquares(ys: seq<real>, a: real, b: real)
    requires |ys| >= 2
    ensures SquaredResiduals(ys, Intercept(ys), Slope(ys)) <= SquaredResiduals(ys, a, b)
    ensures SquaredResiduals(ys, Intercept(ys), Slope(ys)) == SquaredResiduals(ys, a, b)
       ==> a == Intercept(ys) && b == Slope(ys)
  {
    hide SquaredResiduals, Gap, Leftover, LeftoverX, Slope, Intercept, Square;
    var a0, b0 := Intercept(ys), Slope(ys);
    Shifted(ys, a0, b0, a - a0, b - b0);
    NothingLeftOver(ys);
    GapPositive(|ys|, a - a0, b - b0);
  }

  // ---- Slopes and steps ----

  /** Σ (n - x)·(y - y_x) over the given observations. */
  function Rise(ys: seq<real>, n: real, y: real): real {
    if ys == [] then 0.0
    else Rise(ys[..|ys| - 1], n, y) + Moment(n - (|ys| - 1) as real, y - ys[|ys| - 1])
  }

  /** Σ (n - x)² over the first m abscissas. */
  function Run(m: nat, n: real): real {
    if m == 0 then 0.0
    else Run(m - 1, n) + Square(n - (m - 1) as real)
  }

  function RiseSum(m: real, sx: real, sy: real, sxy: real, n: real, y: real): real {
    y * (m * n - sx) - n * sy + sxy
  }

  function RunSum(m: real, sx: real, sxx: real, n: real): real {
    m * (n * n) - 2.0 * (n * sx) + sxx
  }

  lemma {:induction false} RiseExpanded(ys: seq<real>, n: real, y: real)
    ensures Rise(ys, n, y) == RiseSum(|ys| as real, SumX(|ys|), Sum(ys), SumXY(ys), n, y)
  {
    if ys == [] {
      assert RiseSum(0.0, 0.0, 0.0, 0.0, n, y) == 0.0;
    } else {
      RiseExpanded(ys[..|ys| - 1], n, y);
      RiseStep(ys, n, y);
    }
    hide *;
  }

  lemma {:induction false} Unfolded(ys: seq<real>)
    requires ys != []
    ensures SumX(|ys|) == SumX(|ys| - 1) + (|ys| - 1) as real
    ensures Sum(ys) == Sum(ys[..|ys| - 1]) + ys[|ys| - 1]
    ensures SumXY(ys) == SumXY(ys[..|ys| - 1]) + (|ys| - 1) as real * ys[|ys| - 1]
  {
  }

  lemma {:induction false} RiseUnfolded(ys: seq<real>, n: real, y: real)
    requires ys != []
    ensures Rise(ys, n, y) == Rise(ys[..|ys| - 1], n, y) + Moment(n - (|ys| - 1) as real, y - ys[|ys| - 1])
  {
  }

  lemma {:induction false} RiseStep(ys: seq<real>, n: real, y: real)
    requires ys != []
    requires var m := |ys| - 1;
             Rise(ys[..m], n, y) == RiseSum(m as real, SumX(m), Sum(ys[..m]), SumXY(ys[..m]), n, y)
    ensures Rise(ys, n, y) == RiseSum(|ys| as real, SumX(|ys|), Sum(ys), SumXY(ys), n, y)
  {
    hide *;
    var m := |ys| - 1;
    Unfolded(ys);
    RiseUnfolded(ys, n, y);
    RiseTerm(m as real, SumX(m), Sum(ys[..m]), SumXY(ys[..m]), ys[m], n, y);
    assert |ys| as real == m as real + 1.0;
  }

  lemma {:induction false} RiseTerm(x: real, sx: real, sy: real, sxy: real, v: real, n: real, y: real)
    ensures RiseSum(x, sx, sy, sxy, n, y) + Moment(n - x, y - v)
         == RiseSum(x + 1.0, sx + x, sy + v, sxy + x * v, n, y)
  {
  }

  lemma {:induction false} RunUnfolded(m: nat, n: real)
    requires m > 0
    ensures Run(m, n) == Run(m - 1, n) + Square(n - (m - 1) as real)
  {
  }

  lemma {:induction false} RunExpanded(m: nat, n: real)
    ensures Run(m, n) == RunSum(m as real, SumX(m), SumXX(m), n)
  {
    if m == 0 {
    } else {
      var x := (m - 1) as real;
      RunExpanded(m - 1, n);
      RunTerm(x, SumX(m - 1), SumXX(m - 1), n);
      NextSums(m - 1);
      RunUnfolded(m, n);
      assert m as real == x + 1.0;
    }
    hide *;
  }

  lemma {:induction false} SnocSums(ys: seq<real>, y: real)
    ensures Sum(ys + [y]) == Sum(ys) + y
    ensures SumXY(ys + [y]) == SumXY(ys) + |ys| as real * y
  {
    assert (ys + [y])[..|ys|] == ys;
  }

  lemma {:induction false} CovariationIs(ys: seq<real>, n: real, xy: real, x: real, y: real)
    requires n == |ys| as real && xy == SumXY(ys) && x == SumX(|ys|) && y == Sum(ys)
    ensures Covariation(ys) == Cross(n, xy, x, y)
  {
    hide Cross, Sum, SumX, SumXY;
  }

  lemma {:induction false} NextSums(n: nat)
    ensures SumX(n + 1) == SumX(n) + n as real && SumXX(n + 1) == SumXX(n) + n as real * n as real
  {
  }

  lemma {:induction false} RunTerm(x: real, sx: real, sxx: real, n: real)
    ensures RunSum(x, sx, sxx, n) + Square(n - x) == RunSum(x + 1.0, sx + x, sxx + x * x, n)
  {
  }

  /** How one more observation moves the covariation, and the spread. */
  lemma {:induction false} OneMore(ys: seq<real>, y: real)
    ensures Covariation(ys + [y]) == Covariation(ys) + Rise(ys, |ys| as real, y)
    ensures Spread(|ys| + 1) == Spread(|ys|) + Run(|ys|, |ys| as real)
  {
    hide *;
    var n := |ys| as real;
    var x, xx, s, xy := SumX(|ys|), SumXX(|ys|), Sum(ys), SumXY(ys);
    SnocSums(ys, y);
    NextSums(|ys|);
    CovariationIs(ys, n, xy, x, s);
    CovariationIs(ys + [y], n + 1.0, xy + n * y, x + n, s + y);
    SpreadIs(|ys|, n, xx, x);
    SpreadIs(|ys| + 1, n + 1.0, xx + n * n, x + n);
    RiseExpanded(ys, n, y);
    RunExpanded(|ys|, n);
    OneMoreTerm(n, x, xx, s, xy, y);
  }

  lemma {:induction false} OneMoreTerm(n: real, sx: real, sxx: real, sy: real, sxy: real, y: real)
    ensures Cross(n + 1.0, sxy + n * y, sx + n, sy + y) == Cross(n, sxy, sx, sy) + RiseSum(n, sx, sy, sxy, n, y)
    ensures Cross(n + 1.0, sxx + n * n, sx + n, sx + n) == Cross(n, sxx, sx, sx) + RunSum(n, sx, sxx, n)
  {
  }

  /** No observation rises by more than d over its predecessor. */
  ghost predicate StepsAtMost(ys: seq<real>, d: real) {
    forall i :: 0 < i < |ys| ==> ys[i] - ys[i - 1] <= d
  }

  ghost predicate StepsAtLeast(ys: seq<real>, d: real) {
    forall i :: 0 < i < |ys| ==> ys[i] - ys[i - 1] >= d
  }

  /** d times a distance. */
  function Climb(d: real, distance: real): real {
    d * distance
  }

  lemma {:induction false} Distributed(d: real, p: real, q: real)
    ensures Climb(d, p + q) == Climb(d, p) + Climb(d, q)
  {
  }

  lemma {:induction false} ClimbAtMost(ys: seq<real>, d: real, i: nat, j: nat)
    requires StepsAtMost(ys, d) && i <= j < |ys|
    ensures ys[j] - ys[i] <= Climb(d, j as real - i as real)
    decreases j
  {
    if i < j {
      ClimbAtMost(ys, d, i, j - 1);
      Distributed(d, (j - 1) as real - i as real, 1.0);
      assert Climb(d, 1.0) == d;
    } else {
      assert Climb(d, 0.0) == 0.0;
    }
  }

  lemma {:induction false} RiseBase(n: real, y: real, d: real)
    ensures Rise([], n, y) <= Climb(d, Run(0, n))
  {
  }

  lemma {:induction false} RiseAtMost(ys: seq<real>, k: nat, y: real, d: real)
    requires k <= |ys| && StepsAtMost(ys + [y], d)
    ensures Rise(ys[..k], |ys| as real, y) <= Climb(d, Run(k, |ys| as real))
  {
    hide *;
    var n := |ys| as real;
    if k == 0 {
      RiseBase(n, y, d);
      assert ys[..k] == [];
    } else {
      var gap := n - (k - 1) as real;
      RiseAtMost(ys, k - 1, y, d);
      ClimbAtMost(ys + [y], d, k - 1, |ys|);
      assert ys[..k][..k - 1] == ys[..k - 1];
      RiseUnfolded(ys[..k], n, y);
      RunUnfolded(k, n);
      Scaled(gap, y - ys[k - 1], d);
      Distributed(d, Run(k - 1, n), Square(gap));
    }
  }

  lemma {:induction false} Scaled(gap: real, climb: real, d: real)
    requires gap >= 0.0 && climb <= Climb(d, gap)
    ensures Moment(gap, climb) <= Climb(d, Square(gap))
  {
    assert gap * climb <= gap * (d * gap);
  }

  lemma {:induction false} CovariationAtMost(ys: seq<real>, d: real)
    requires StepsAtMost(ys, d)
    ensures Covariation(ys) <= Climb(d, Spread(|ys|))
  {
    hide *;
    if ys == [] {
      CovariationBase(d);
    } else {
      var front, y := ys[..|ys| - 1], ys[|ys| - 1];
      assert ys == front + [y] && front == front[..|front|];
      FrontSteps(ys, d);
      CovariationAtMost(front, d);
      RiseAtMost(front, |front|, y, d);
      OneMore(front, y);
      Distributed(d, Spread(|front|), Run(|front|, |front| as real));
    }
  }

  lemma {:induction false} CovariationBase(d: real)
    ensures Covariation([]) <= Climb(d, Spread(0))
  {
    hide Cross;
    CovariationIs([], 0.0, 0.0, 0.0, 0.0);
    SpreadIs(0, 0.0, 0.0, 0.0);
    CrossIs(0.0, 0.0, 0.0, 0.0);
    assert Climb(d, 0.0) == 0.0;
    hide *;
  }

  lemma {:induction false} FrontSteps(ys: seq<real>, d: real)
    requires ys != [] && StepsAtMost(ys, d)
    ensures StepsAtMost(ys[..|ys| - 1], d)
  {
  }

  /** The slope never exceeds the steepest step. In particular a series that never
      rises has a slope of at most zero. */
  lemma {:induction false} SlopeAtMost(ys: seq<real>, d: real)
    requires |ys| >= 2 && StepsAtMost(ys, d)
    ensures Slope(ys) <= d
  {
    hide Covariation, Spread, Climb;
    SpreadPositive(|ys|);
    CovariationAtMost(ys, d);
    Divided(Covariation(ys), Spread(|ys|), d);
  }

  lemma {:induction false} Divided(c: real, s: real, d: real)
    requires s > 0.0 && c <= Climb(d, s)
    ensures c / s <= d
  {
    var q := c / s;
    assert q * s == c;
    if q > d {
      assert (q - d) * s > 0.0;
    }
  }

  /** The same observations on another scale. */
  function Affine(ys: seq<real>, a: real, b: real): (r: seq<real>)
    ensures |r| == |ys|
  {
    if ys == [] then [] else Affine(ys[..|ys| - 1], a, b) + [Height(a, b, ys[|ys| - 1])]
  }

  lemma {:induction false} AffineAt(ys: seq<real>, a: real, b: real, i: nat)
    requires i < |ys|
    ensures Affine(ys, a, b)[i] == Height(a, b, ys[i])
  {
    hide Height;
    if i < |ys| - 1 {
      AffineAt(ys[..|ys| - 1], a, b, i);
    }
  }

  lemma {:induction false} AffineSnoc(ys: seq<real>, v: real, a: real, b: real)
    ensures Affine(ys + [v], a, b) == Affine(ys, a, b) + [Height(a, b, v)]
  {
    hide Height;
    assert (ys + [v])[..|ys|] == ys;
  }

  lemma {:induction false} AffineBase(a: real, b: real)
    ensures Sum(Affine([], a, b)) == 0 as real * a + b * Sum([])
    ensures SumXY(Affine([], a, b)) == a * SumX(0) + b * SumXY([])
  {
  }

  lemma {:induction false} AffineSums(ys: seq<real>, a: real, b: real)
    ensures Sum(Affine(ys, a, b)) == |ys| as real * a + b * Sum(ys)
    ensures SumXY(Affine(ys, a, b)) == a * SumX(|ys|) + b * SumXY(ys)
  {
    hide *;
    if ys == [] {
      AffineBase(a, b);
    } else {
      AffineSums(ys[..|ys| - 1], a, b);
      AffineStep(ys[..|ys| - 1], ys[|ys| - 1], a, b);
      assert ys == ys[..|ys| - 1] + [ys[|ys| - 1]];
    }
  }

  lemma {:induction false} AffineStep(front: seq<real>, v: real, a: real, b: real)
    requires Sum(Affine(front, a, b)) == |front| as real * a + b * Sum(front)
    requires SumXY(Affine(front, a, b)) == a * SumX(|front|) + b * SumXY(front)
    ensures var ys := front + [v];
            && Sum(Affine(ys, a, b)) == |ys| as real * a + b * Sum(ys)
            && SumXY(Affine(ys, a, b)) == a * SumX(|ys|) + b * SumXY(ys)
  {
    hide *;
    AffineSnoc(front, v, a, b);
    SnocSums(Affine(front, a, b), Height(a, b, v));
    SnocSums(front, v);
    NextSums(|front|);
    var n := |front| as real;
    assert |front + [v]| as real == n + 1.0;
    AffineTerm(n, Sum(front), SumX(|front|), SumXY(front), v, a, b);
  }

  lemma {:induction false} AffineTerm(n: real, y: real, x: real, xy: real, v: real, a: real, b: real)
    ensures n * a + b * y + Height(a, b, v) == (n + 1.0) * a + b * (y + v)
    ensures a * x + b * xy + n * Height(a, b, v) == a * (x + n) + b * (xy + n * v)
  {
  }

  lemma {:induction false} AffineCross(n: real, y: real, x: real, xy: real, a: real, b: real)
    ensures Cross(n, a * x + b * xy, x, n * a + b * y) == b * Cross(n, xy, x, y)
  {
  }

  lemma {:induction false} ScaledQuotient(b: real, c: real, s: real)
    requires s > 0.0
    ensures b * c / s == b * (c / s)
  {
    var q := c / s;
    assert q * s == c;
    assert b * q * s == b * c;
  }

  /** The slope follows the scale. */
  lemma {:induction false} AffineSlope(ys: seq<real>, a: real, b: real)
    ensures Slope(Affine(ys, a, b)) == b * Slope(ys)
  {
    hide Sum, SumX, SumXX, SumXY, Cross, Spread;
    if |ys| >= 2 {
      var n, y, x, xy := |ys| as real, Sum(ys), SumX(|ys|), SumXY(ys);
      AffineSums(ys, a, b);
      CovariationIs(ys, n, xy, x, y);
      CovariationIs(Affine(ys, a, b), n, a * x + b * xy, x, n * a + b * y);
      AffineCross(n, y, x, xy, a, b);
      SpreadPositive(|ys|);
      ScaledQuotient(b, Covariation(ys), Spread(|ys|));
    }
  }

  /** Nor does it fall short of the flattest one. */
  lemma {:induction false} SlopeAtLeast(ys: seq<real>, d: real)
    requires |ys| >= 2 && StepsAtLeast(ys, d)
    ensures Slope(ys) >= d
  {
    hide Slope;
    var down := Affine(ys, 0.0, -1.0);
    forall i | 0 < i < |ys|
      ensures down[i] - down[i - 1] <= -d
    {
      AffineAt(ys, 0.0, -1.0, i);
      AffineAt(ys, 0.0, -1.0, i - 1);
    }
    SlopeAtMost(down, -d);
    AffineSlope(ys, 0.0, -1.0);
  }

  ghost predicate OnLine(ys: seq<real>, a: real, b: real) {
    forall i :: 0 <= i < |ys| ==> ys[i] == a + b * i as real
  }

  /** Observations on a line have exactly its slope. */
  lemma {:induction false} SlopeOfLine(ys: seq<real>, a: real, b: real)
    requires |ys| >= 2 && OnLine(ys, a, b)
    ensures Slope(ys) == b
  {
    forall i | 0 < i < |ys|
      ensures ys[i] - ys[i - 1] == b
    {
      assert ys[i - 1] == a + b * (i - 1) as real;
      assert b * (i - 1) as real == b * i as real - b;
    }
    hide Slope;
    SlopeAtMost(ys, b);
    SlopeAtLeast(ys, b);
  }

  lemma {:induction false} SumAtLeast(ys: seq<real>, lo: real)
    requires forall y :: y in ys ==> y >= lo
    ensures Sum(ys) >= lo * |ys| as real
  {
    if ys != [] {
      var front := ys[..|ys| - 1];
      assert forall y :: y in front ==> y in ys;
      SumAtLeast(front, lo);
      assert ys[|ys| - 1] in ys;
      assert lo * (|ys| - 1) as real + lo == lo * |ys| as real;
    }
  }
}
