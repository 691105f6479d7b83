/** The cell arithmetic of `write_over_progress_bar` (ward/terminal.py),
    in exact rational arithmetic instead of floating point. */
module ProgressBar {

  /** Python's `int(x)` on a number: truncation toward zero. */
  function Trunc(x: real): (r: int)
    ensures x >= 0.0 ==> r as real <= x < r as real + 1.0
    ensures x < 0.0 ==> r as real - 1.0 < x <= r as real
  {
    if x >= 0.0 then x.Floor else -((-x).Floor)
  }

  /** The number of red and green cells drawn. */
  datatype Bar = Bar(red: int, green: int)

  /** Cells before the rounding compensation. */
  function RawGreen(greenPct: real, width: nat): int { Trunc(greenPct * width as real) }
  function RawRed(redPct: real, width: nat): int { Trunc(redPct * width as real) }

  /** `write_over_progress_bar(green_pct, red_pct, term)`: each colour gets
      `int(pct * width)` cells, and if exactly one cell is missing it goes
      to green. The compensation never touches red and raises green by one
      exactly when the raw counts fall one short of the width. */
  function BarCells(greenPct: real, redPct: real, width: nat): (b: Bar)
    ensures b.red == RawRed(redPct, width)
    ensures b.green == RawGreen(greenPct, width) || b.green == RawGreen(greenPct, width) + 1
    ensures b.green == RawGreen(greenPct, width) + 1 <==>
              width - RawGreen(greenPct, width) - RawRed(redPct, width) == 1
  {
    var green := RawGreen(greenPct, width);
    var red := RawRed(redPct, width);
    if width - green - red == 1 then Bar(red, green + 1) else Bar(red, green)
  }

  /** When the two fractions are non-negative and sum to one, the raw cell
      counts are the width or one short of it. */
  lemma {:induction false} RawCellsShortByAtMostOne(greenPct: real, redPct: real, width: nat)
    requires 0.0 <= greenPct && 0.0 <= redPct && greenPct + redPct == 1.0
    ensures var sum := RawGreen(greenPct, width) + RawRed(redPct, width);
            sum == width || sum == width - 1
  {
    var g := greenPct * width as real;
    var r := redPct * width as real;
    assert g + r == width as real;
    NonNegativeProduct(greenPct, width as real);
    NonNegativeProduct(redPct, width as real);
  }

  lemma {:induction false} NonNegativeProduct(a: real, b: real)
    requires 0.0 <= a && 0.0 <= b
    ensures 0.0 <= a * b
  {
  }

  /** The rounding-compensation invariant: the bar fills the width exactly,
      and both segments are non-negative. */
  lemma {:induction false} BarFillsWidth(greenPct: real, redPct: real, width: nat)
    requires 0.0 <= greenPct && 0.0 <= redPct && greenPct + redPct == 1.0
    ensures var b := BarCells(greenPct, redPct, width);
            b.green + b.red == width && 0 <= b.green && 0 <= b.red
  {
    RawCellsShortByAtMostOne(greenPct, redPct, width);
    NonNegativeProduct(greenPct, width as real);
    NonNegativeProduct(redPct, width as real);
  }

  /** With the fractions of the run loop, `passed / total` and
      `1 - passed / total`, the raw counts are the integer quotients
      `passed * width / total` and `failed * width / total`. */
  lemma {:induction false} RawCellsFromTally(passed: nat, failed: nat, width: nat)
    requires passed + failed > 0
    ensures var passPct := passed as real / (passed + failed) as real;
            RawGreen(passPct, width) == passed * width / (passed + failed) &&
            RawRed(1.0 - passPct, width) == failed * width / (passed + failed)
  {
    GreenFromTally(passed, passed + failed, width);
    RedFromTally(passed, failed, width);
  }

  lemma {:induction false} GreenFromTally(passed: nat, total: nat, width: nat)
    requires total > 0
    ensures RawGreen(passed as real / total as real, width) == passed * width / total
  {
    CellsOfFraction(passed, total, width);
  }

  lemma {:induction false} RedFromTally(passed: nat, failed: nat, width: nat)
    requires passed + failed > 0
    ensures RawRed(1.0 - passed as real / (passed + failed) as real, width) == failed * width / (passed + failed)
  {
    var complement := 1.0 - passed as real / (passed + failed) as real;
    var share := failed as real / (passed + failed) as real;
    ComplementOfFraction(passed, failed);
    RedOfFraction(failed, passed + failed, width);
    SameRed(complement, share, width);
  }

  lemma {:induction false} RedOfFraction(x: nat, total: nat, width: nat)
    requires total > 0
    ensures RawRed(x as real / total as real, width) == x * width / total
  {
    CellsOfFraction(x, total, width);
  }

  lemma {:induction false} SameRed(a: real, b: real, width: nat)
    requires a == b
    ensures RawRed(a, width) == RawRed(b, width)
  {
  }

  /** `int(x / total * width)` is the integer quotient `x * width / total`. */
  lemma {:induction false} CellsOfFraction(x: nat, total: nat, width: nat)
    requires total > 0
    ensures Trunc((x as real / total as real) * width as real) == x * width / total
  {
    ScaledFraction(x, total, width);
    FloorOfQuotient(x * width, total);
  }

  lemma {:induction false} DivMul(x: real, t: real)
    requires t != 0.0
    ensures (x / t) * t == x
  {
  }

  lemma {:induction false} Distributes(a: real, b: real, c: real)
    ensures (a + b) * c == a * c + b * c
  {
  }

  /** A number whose product with `t` is `y` is `y / t`. */
  lemma {:induction false} DivUnique(y: real, t: real, z: real)
    requires t != 0.0 && z * t == y
    ensures z == y / t
  {
    DivMul(y, t);
    var d := z - y / t;
    Distributes(z, -(y / t), t);
    assert d * t == 0.0;
  }

  lemma {:induction false} ComplementOfFraction(passed: nat, failed: nat)
    requires passed + failed > 0
    ensures 1.0 - passed as real / (passed + failed) as real == failed as real / (passed + failed) as real
  {
    var p, f := passed as real, failed as real;
    var t := p + f;
    assert t == (passed + failed) as real;
    DivMul(p, t);
    var q := p / t;
    var r := 1.0 - q;
    Distributes(1.0, -q, t);
    assert r * t == f;
    DivUnique(f, t, r);
  }

  lemma {:induction false} ScaledFraction(x: nat, total: nat, width: nat)
    requires total > 0
    ensures (x as real / total as real) * width as real == (x * width) as real / total as real
  {
    var t, w := total as real, width as real;
    DivMul(x as real, t);
    var q := x as real / t;
    var z := q * w;
    assert z * t == (q * t) * w;
    assert (x * width) as real == x as real * w;
    DivUnique((x * width) as real, t, z);
  }

  /** `(a / b).Floor` over the reals is the integer quotient `a / b`. */
  lemma {:induction false} FloorOfQuotient(a: nat, b: nat)
    requires b > 0
    ensures Trunc(a as real / b as real) == a / b
  {
    var q, m := a / b, a % b;
    var t := b as real;
    assert a == q * b + m && 0 <= m < b;
    var frac := m as real / t;
    DivMul(m as real, t);
    FractionBelowOne(m, b);
    var z := q as real + frac;
    Distributes(q as real, frac, t);
    assert (q * b) as real == q as real * t;
    assert z * t == a as real;
    DivUnique(a as real, t, z);
  }

  lemma {:induction false} FractionBelowOne(m: nat, b: nat)
    requires m < b
    ensures 0.0 <= m as real / b as real < 1.0
  {
    var t := b as real;
    var frac := m as real / t;
    DivMul(m as real, t);
  }
}
