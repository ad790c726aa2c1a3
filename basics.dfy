/**
 * Small shared vocabulary: optional values (Python's None), integer helpers,
 * Python's int() truncation, and the progress percentages the scanners and
 * detectors report.
 */
module Basics {

  /** A value that may be absent (Python's None). */
  datatype Option<+T> = None | Some(value: T)

  function Min(a: int, b: int): int { if a <= b then a else b }

  function Max(a: int, b: int): int { if a >= b then a else b }

  /** Python's int(x) on a float: truncation toward zero. */
  function TruncToInt(x: real): (r: int)
    ensures 0.0 <= x ==> r as real <= x < r as real + 1.0
    ensures x < 0.0 ==> r as real - 1.0 < x <= r as real
    ensures 0.0 <= x ==> 0 <= r
  {
    if x >= 0.0 then x.Floor else -((-x).Floor)
  }

  /** Truncation toward zero never reverses order. */
  lemma TruncMonotone(x: real, y: real)
    requires x <= y
    ensures TruncToInt(x) <= TruncToInt(y)
  {
    if 0.0 <= x {
      assert x.Floor as real <= y;
    } else if y < 0.0 {
      assert (-y).Floor as real <= -x;
    }
  }

  /**
   * The scan progress `min(90, 10 + int(processed / total * 80))` reported by
   * the text and the image scanner once `total > 0` files have been counted.
   * The quotient is taken exactly; float rounding can move a boundary by one.
   */
  function ScanProgress(processed: nat, total: nat): (p: int)
    requires total > 0
    ensures 10 <= p <= 90
    ensures processed <= total ==> p == 10 + (80 * processed) / total
  {
    Min(90, 10 + (80 * processed) / total)
  }

  /** Reported scan progress never goes down as more files are processed. */
  lemma ScanProgressMonotone(p1: nat, p2: nat, total: nat)
    requires total > 0 && p1 <= p2
    ensures ScanProgress(p1, total) <= ScanProgress(p2, total)
  {
    DivMonotone(80 * p1, 80 * p2, total);
  }

  lemma DivMonotone(a: int, b: int, d: int)
    requires d > 0 && 0 <= a <= b
    ensures a / d <= b / d
  {
    var qa, qb := a / d, b / d;
    assert d * qa + a % d == a && d * qb + b % d == b;
    assert d * (qa - qb - 1) < 0;
    SignOfProduct(d, qa - qb - 1);
  }

  lemma SignOfProduct(d: int, x: int)
    requires d > 0 && d * x < 0
    ensures x < 0
  {
  }
  /** A quotient by a positive divisor is at most c exactly when the dividend is at most c times the divisor. */
  lemma QuotientAtMost(d: real, r: real, c: real)
    requires r > 0.0
    ensures d / r <= c <==> d <= c * r
  {
    var q := d / r;
    assert q * r == d;
    if q <= c {
      assert (c - q) * r >= 0.0;
    } else {
      assert (q - c) * r > 0.0;
    }
  }

  /** A quotient by a positive divisor is at least c exactly when the dividend is at least c times the divisor. */
  lemma QuotientAtLeast(d: real, r: real, c: real)
    requires r > 0.0
    ensures d / r >= c <==> d >= c * r
  {
    var q := d / r;
    assert q * r == d;
    if q >= c {
      assert (q - c) * r >= 0.0;
    } else {
      assert (c - q) * r > 0.0;
    }
  }

  /** Cross-multiplication for positive denominators. */
  lemma CrossDiv(x: real, a: real, y: real, b: real)
    requires a > 0.0 && b > 0.0 && x * b <= y * a
    ensures x / a <= y / b
  {
    var p, q := x / a, y / b;
    assert p * a == x && q * b == y;
    var ab := a * b;
    assert p * ab == x * b;
    assert q * ab == y * a;
    if p > q {
      assert (p - q) * ab > 0.0;
    }
  }
}
