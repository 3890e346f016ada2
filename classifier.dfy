/**
 * `determineUndertone`: the warmth score `(r - b) / ((r + b) / 2)` of the
 * averaged red and blue channels, compared against plus and minus 0.1.
 *
 * The score is stated as the exact real number that JavaScript's division
 * rounds, or NaN when `r + b == 0` (`0 / 0`; both channels are bytes, so no
 * other zero denominator exists). With `r` and `b` in 0..255 the exact score
 * either equals plus or minus 0.1, where the rounded quotient is the double
 * `0.1` itself and the strict test fails, or lies at least 1/5100 away from it
 * (`WarmthAwayFromThresholds`), far beyond one rounding error. The comparisons
 * against the exact score are therefore the comparisons the code makes.
 */
module Classifier {

  import opened Canvas

  datatype Undertone = Warm | Cool | Neutral

  /** The string `determineUndertone` returns, which keys the palette table. */
  function Key(u: Undertone): string {
    match u
    case Warm => "warm"
    case Cool => "cool"
    case Neutral => "neutral"
  }

  /** The three labels have three different keys. */
  lemma KeyInjective(u: Undertone, v: Undertone)
    ensures Key(u) == Key(v) ==> u == v
  {
  }

  /** A JavaScript number: NaN, or the exact real value the double stands for. */
  datatype Score = NaN | Num(value: real)

  /** `x > t`; false when `x` is NaN, as every comparison with NaN is. */
  predicate Above(x: Score, t: real) {
    x.Num? && x.value > t
  }

  /** `x < t`; false when `x` is NaN. */
  predicate Below(x: Score, t: real) {
    x.Num? && x.value < t
  }

  function Negate(x: Score): Score {
    match x
    case NaN => NaN
    case Num(v) => Num(-v)
  }

  /**
   * `(r - b) / ((r + b) / 2)`: NaN for `0 / 0`, otherwise the number that
   * times `(r + b) / 2` gives `r - b`.
   */
  function Warmth(r: byte, b: byte): (w: Score)
    ensures w.NaN? <==> r + b == 0
    ensures w.Num? ==> w.value * ((r + b) as real / 2.0) == (r - b) as real
  {
    if r + b == 0 then NaN else Num((r - b) as real / ((r + b) as real / 2.0))
  }

  /** Comparing a quotient with a threshold is comparing after multiplying out. */
  lemma ScaleCompare(w: real, d: real, a: real, t: real)
    requires d > 0.0 && w * d == a
    ensures w > t <==> a > t * d
    ensures w < t <==> a < t * d
  {
    if w > t {
      assert w * d > t * d;
    }
    if w < t {
      assert w * d < t * d;
    }
    if w == t {
      assert w * d == t * d;
    }
  }

  /**
   * For byte inputs the two comparisons of the score are integer
   * cross-multiplications; with `r + b == 0` both sides are false.
   */
  lemma WarmthTests(r: byte, b: byte)
    ensures Above(Warmth(r, b), 0.1) <==> 20 * (r - b) > r + b
    ensures Below(Warmth(r, b), -0.1) <==> 20 * (b - r) > r + b
  {
    if r + b > 0 {
      var d := (r + b) as real / 2.0;
      ScaleCompare(Warmth(r, b).value, d, (r - b) as real, 0.1);
      ScaleCompare(Warmth(r, b).value, d, (r - b) as real, -0.1);
    }
  }

  /**
   * The label of `determineUndertone(r, g, b)`: warm when the warmth score
   * exceeds 0.1, cool when it is below -0.1, neutral otherwise (including NaN).
   * The tests are evaluated in their integer form, warm first.
   */
  function DetermineUndertone(r: byte, g: byte, b: byte): (u: Undertone)
    ensures u == Warm <==> Above(Warmth(r, b), 0.1)
    ensures u == Cool <==> Below(Warmth(r, b), -0.1)
    ensures u == Neutral <==> !Above(Warmth(r, b), 0.1) && !Below(Warmth(r, b), -0.1)
  {
    WarmthTests(r, b);
    if 20 * (r - b) > r + b then Warm
    else if 20 * (b - r) > r + b then Cool
    else Neutral
  }

  function Abs(x: real): real {
    if x < 0.0 then -x else x
  }

  /**
   * The exact warmth of bytes is either exactly plus or minus 0.1 or at least
   * 1/5100 away from it, so rounding the quotient to a double cannot move it
   * across either threshold.
   */
  lemma WarmthAwayFromThresholds(r: byte, b: byte)
    requires r + b > 0
    ensures Warmth(r, b).value == 0.1 || Abs(Warmth(r, b).value - 0.1) >= 1.0 / 5100.0
    ensures Warmth(r, b).value == -0.1 || Abs(Warmth(r, b).value + 0.1) >= 1.0 / 5100.0
  {
    var w := Warmth(r, b).value;
    var d := 10 * (r + b);
    assert 0 < d <= 5100;
    var e := 20 * (r - b) - (r + b);
    var f := 20 * (r - b) + (r + b);
    assert (w - 0.1) * d as real == e as real;
    assert (w + 0.1) * d as real == f as real;
    Apart(w - 0.1, d, e);
    Apart(w + 0.1, d, f);
  }

  /** A real that times a count of at most 5100 gives a non-zero integer is at least 1/5100 from zero. */
  lemma Apart(x: real, d: int, e: int)
    requires 0 < d <= 5100 && x * d as real == e as real
    ensures x == 0.0 || Abs(x) >= 1.0 / 5100.0
  {
    if x != 0.0 {
      assert e != 0;
      assert Abs(x) * d as real == Abs(e as real) >= 1.0;
      assert Abs(x) * 5100.0 >= Abs(x) * d as real;
    }
  }

  /** A black sample (or one with no red and no blue) has a NaN score and is neutral. */
  lemma BlackIsNeutral(g: byte)
    ensures Warmth(0, 0) == NaN
    ensures DetermineUndertone(0, g, 0) == Neutral
  {
  }

  /** The green average never influences the label. */
  lemma GreenIgnored(r: byte, g: byte, g': byte, b: byte)
    ensures DetermineUndertone(r, g, b) == DetermineUndertone(r, g', b)
  {
  }

  /** Exchanging warm and cool; neutral is fixed. */
  function Mirror(u: Undertone): Undertone {
    match u
    case Warm => Cool
    case Cool => Warm
    case Neutral => Neutral
  }

  /** Swapping red and blue negates the warmth score. */
  lemma WarmthAntisymmetric(r: byte, b: byte)
    ensures Warmth(b, r) == Negate(Warmth(r, b))
  {
    if r + b > 0 {
      var d := (r + b) as real / 2.0;
      assert Warmth(b, r).value * d == (b - r) as real;
      assert -Warmth(r, b).value * d == (b - r) as real;
    }
  }

  /** Swapping red and blue exchanges warm and cool and leaves neutral fixed. */
  lemma SwapMirrors(r: byte, g: byte, b: byte)
    ensures DetermineUndertone(b, g, r) == Mirror(DetermineUndertone(r, g, b))
  {
    WarmthAntisymmetric(r, b);
  }

  /**
   * Worked cases: (200, 120, 60) is warm, (60, 120, 200) cool and
   * (128, 128, 128) neutral; (21, g, 19) scores exactly 0.1 and is neutral,
   * while (22, g, 19) is warm.
   */
  lemma Examples(g: byte)
    ensures DetermineUndertone(200, 120, 60) == Warm
    ensures DetermineUndertone(60, 120, 200) == Cool
    ensures DetermineUndertone(128, 128, 128) == Neutral
    ensures Warmth(21, 19) == Num(0.1) && DetermineUndertone(21, g, 19) == Neutral
    ensures DetermineUndertone(19, g, 21) == Neutral
    ensures DetermineUndertone(22, g, 19) == Warm
  {
  }
}
