/**
 * The CIEDE2000 colour difference of src/lib/processing/Ciede2000.ts, following
 * "The CIEDE2000 Color-Difference Formula: Implementation Notes, Supplementary
 * Test Data, and Mathematical Observations" (Sharma, Wu and Dalal). The
 * transcendental functions and the HSL-to-Lab conversion are supplied by a
 * `MathOracle` that only promises the facts the proofs need.
 */
module Ciede2000 {
  import Geom
  import Color

  datatype Lab = Lab(l: real, a: real, b: real)

  datatype MathFns = MathFns(
    sqrt: real -> real,
    sin: real -> real,
    cos: real -> real,
    exp: real -> real,
    atan2: (real, real) -> real,
    hsl2Lab: Color.Hsl -> Lab)

  /**
   * The facts of `Math.sqrt`, `Math.sin`, `Math.cos` and `Math.atan2` the model
   * relies on: square roots are non-negative and positive on positive input,
   * sqrt(0) = 0, sin(0) = 0, cosines lie in [-1, 1], atan2 lies in [-π, π].
   */
  ghost predicate Lawful(m: MathFns) {
    (forall x :: x >= 0.0 ==> m.sqrt(x) >= 0.0)
    && (forall x :: x > 0.0 ==> m.sqrt(x) > 0.0)
    && m.sqrt(0.0) == 0.0
    && m.sin(0.0) == 0.0
    && (forall x :: -1.0 <= m.cos(x) <= 1.0)
    && (forall y, x :: -Geom.PI <= m.atan2(y, x) <= Geom.PI)
  }

  type MathOracle = m: MathFns | Lawful(m)
    witness MathFns(x => if x > 0.0 then x else 0.0, x => 0.0, x => 0.0, x => 1.0,
                    (y, x) => 0.0, c => Lab(0.0, 0.0, 0.0))

  function Abs(x: real): real { if x < 0.0 then -x else x }

  function Sq(x: real): real { x * x }

  /** `Math.pow(x, 7.0)`. */
  function Pow7(x: real): (r: real)
    ensures x >= 0.0 ==> r >= 0.0
  {
    x * x * x * x * x * x * x
  }

  const Pow25To7: real := 6103515625.0

  function Degrees(n: real): real { n * (180.0 / Geom.PI) }

  function Radians(n: real): real { n * (Geom.PI / 180.0) }

  /** `hp_f(x, y)`, equation (7): the hue angle in degrees, 0 for the origin. */
  function Hp(m: MathOracle, x: real, y: real): (h: real)
    ensures 0.0 <= h < 360.0
  {
    if x == 0.0 && y == 0.0 then 0.0
    else
      var t := Degrees(m.atan2(x, y));
      assert -180.0 <= t <= 180.0 by {
        assert -Geom.PI <= m.atan2(x, y) <= Geom.PI;
      }
      if t >= 0.0 then t else t + 360.0
  }

  /**
   * `dhp_f`, equation (10): the hue difference, 0 when either chroma is 0.
   * The `throw` branch of the code cannot be reached for reals: after the first
   * three tests, `h2p - h1p < -180` always holds.
   */
  function Dhp(c1: real, c2: real, h1p: real, h2p: real): (r: real)
    ensures c1 * c2 == 0.0 ==> r == 0.0
    ensures 0.0 <= h1p < 360.0 && 0.0 <= h2p < 360.0 ==> -180.0 <= r <= 180.0
  {
    if c1 * c2 == 0.0 then 0.0
    else if Abs(h2p - h1p) <= 180.0 then h2p - h1p
    else if h2p - h1p > 180.0 then h2p - h1p - 360.0
    else
      assert h2p - h1p < -180.0;
      h2p - h1p + 360.0
  }

  /**
   * `a_hp_f`, equation (14): the mean hue, the plain sum when either chroma is 0.
   * The `throw` branch cannot be reached: the last two tests are complementary.
   */
  function AHp(c1: real, c2: real, h1p: real, h2p: real): (r: real)
    ensures c1 * c2 != 0.0 && 0.0 <= h1p < 360.0 && 0.0 <= h2p < 360.0 ==> 0.0 <= r < 360.0
  {
    if c1 * c2 == 0.0 then h1p + h2p
    else if Abs(h1p - h2p) <= 180.0 then (h1p + h2p) / 2.0
    else if Abs(h1p - h2p) > 180.0 && h1p + h2p < 360.0 then (h1p + h2p + 360.0) / 2.0
    else
      assert Abs(h1p - h2p) > 180.0 && h1p + h2p >= 360.0;
      (h1p + h2p - 360.0) / 2.0
  }

  /** The intermediate quantities of steps 1 and 2 for one colour pair. */
  datatype Terms = Terms(dLp: real, dCp: real, dHp: real, c1p: real, c2p: real,
                         aL: real, aCp: real, aHp: real)

  function Chroma(m: MathOracle, a: real, b: real): (c: real)
    ensures c >= 0.0
  {
    m.sqrt(Sq(a) + Sq(b))
  }

  /** Steps 1 and 2: equations (2) to (14). */
  function StepTerms(m: MathOracle, lab1: Lab, lab2: Lab): (t: Terms)
    ensures t.c1p >= 0.0 && t.c2p >= 0.0 && t.aCp >= 0.0
  {
    var c1 := Chroma(m, lab1.a, lab1.b);
    var c2 := Chroma(m, lab2.a, lab2.b);
    var aC := (c1 + c2) / 2.0;
    var g := 0.5 * (1.0 - m.sqrt(Pow7(aC) / (Pow7(aC) + Pow25To7)));
    var a1p := (1.0 + g) * lab1.a;
    var a2p := (1.0 + g) * lab2.a;
    var c1p := Chroma(m, a1p, lab1.b);
    var c2p := Chroma(m, a2p, lab2.b);
    var h1p := Hp(m, lab1.b, a1p);
    var h2p := Hp(m, lab2.b, a2p);
    var dhp := Dhp(c1, c2, h1p, h2p);
    Terms(lab2.l - lab1.l, c2p - c1p,
          2.0 * m.sqrt(c1p * c2p) * m.sin(Radians(dhp) / 2.0),
          c1p, c2p, (lab1.l + lab2.l) / 2.0, (c1p + c2p) / 2.0, AHp(c1, c2, h1p, h2p))
  }

  /** `T` of equation (15): a positive weight, since every cosine is in [-1, 1]. */
  function HueWeight(m: MathOracle, aHp: real): (t: real)
    ensures t > 0.0
  {
    1.0 - 0.17 * m.cos(Radians(aHp - 30.0)) + 0.24 * m.cos(Radians(2.0 * aHp))
      + 0.32 * m.cos(Radians(3.0 * aHp + 6.0)) - 0.2 * m.cos(Radians(4.0 * aHp - 63.0))
  }

  /** `SL` of equation (18). */
  function LightnessWeight(m: MathOracle, aL: real): (sl: real)
    ensures sl >= 1.0
  {
    var root := m.sqrt(20.0 + Sq(aL - 50.0));
    assert root > 0.0;
    1.0 + (0.015 * Sq(aL - 50.0)) / root
  }

  /** `SH` of equation (20). */
  function HueSpread(aCp: real, tw: real): (sh: real)
    requires aCp >= 0.0 && tw > 0.0
    ensures sh >= 1.0
  {
    assert aCp * tw >= 0.0;
    1.0 + 0.015 * (aCp * tw)
  }

  /** `RT` of equation (21), with `Δθ` of equation (16) and `RC` of equation (17). */
  function Rotation(m: MathOracle, aHp: real, aCp: real): real
    requires aCp >= 0.0
  {
    var dRo := 30.0 * m.exp(-Sq((aHp - 275.0) / 25.0));
    var rc := m.sqrt(Pow7(aCp) / (Pow7(aCp) + Pow25To7));
    -2.0 * rc * m.sin(Radians(2.0 * dRo))
  }

  /** Equation (22) applied to the weighted differences. */
  function Combine(m: MathOracle, l: real, c: real, h: real, rt: real): (r: real)
    ensures Sq(l) + Sq(c) + Sq(h) + rt * c * h >= 0.0 ==> r >= 0.0
    ensures l == 0.0 && c == 0.0 && h == 0.0 ==> r == 0.0
  {
    m.sqrt(Sq(l) + Sq(c) + Sq(h) + rt * c * h)
  }

  /** `ciede2000(c1, c2)`: step 3, equations (15) to (22), with kL = kC = kH = 1. */
  function Ciede2000(m: MathOracle, c1: Color.Hsl, c2: Color.Hsl): (r: real)
    ensures c1 == c2 ==> r == 0.0
  {
    var t := StepTerms(m, m.hsl2Lab(c1), m.hsl2Lab(c2));
    EqualTermsVanish(m, m.hsl2Lab(c1), m.hsl2Lab(c2));
    var sl := LightnessWeight(m, t.aL);
    var sc := 1.0 + 0.045 * t.aCp;
    var sh := HueSpread(t.aCp, HueWeight(m, t.aHp));
    var l, c, h := t.dLp / sl, t.dCp / sc, t.dHp / sh;
    assert c1 == c2 ==> l == 0.0 && c == 0.0 && h == 0.0;
    Combine(m, l, c, h, Rotation(m, t.aHp, t.aCp))
  }

  // ---- properties ----

  /** With a zero chroma both helpers take their first branch. */
  lemma ZeroChroma(c1: real, c2: real, h1p: real, h2p: real)
    requires c1 * c2 == 0.0
    ensures Dhp(c1, c2, h1p, h2p) == 0.0
    ensures AHp(c1, c2, h1p, h2p) == h1p + h2p
  {
  }

  /** For hues in [0, 360) the hue difference lies in [-180, 180]. */
  lemma DhpRange(c1: real, c2: real, h1p: real, h2p: real)
    requires 0.0 <= h1p < 360.0 && 0.0 <= h2p < 360.0
    ensures -180.0 <= Dhp(c1, c2, h1p, h2p) <= 180.0
  {
  }

  /** Swapping the two hues negates the hue difference. */
  lemma DhpAntisymmetric(c1: real, c2: real, h1p: real, h2p: real)
    ensures Dhp(c2, c1, h2p, h1p) == -Dhp(c1, c2, h1p, h2p)
  {
    assert c2 * c1 == c1 * c2;
  }

  /** For non-zero chromas the mean hue is symmetric and lies in [0, 360). */
  lemma AHpSymmetricInRange(c1: real, c2: real, h1p: real, h2p: real)
    requires c1 * c2 != 0.0
    requires 0.0 <= h1p < 360.0 && 0.0 <= h2p < 360.0
    ensures AHp(c2, c1, h2p, h1p) == AHp(c1, c2, h1p, h2p)
    ensures 0.0 <= AHp(c1, c2, h1p, h2p) < 360.0
  {
    assert c2 * c1 == c1 * c2;
    assert Abs(h2p - h1p) == Abs(h1p - h2p);
  }

  /** For one Lab colour against itself ΔL′, ΔC′ and ΔH′ vanish (sin 0 = 0). */
  lemma SameTermsVanish(m: MathOracle, lab: Lab)
    ensures StepTerms(m, lab, lab).dLp == 0.0
    ensures StepTerms(m, lab, lab).dCp == 0.0
    ensures StepTerms(m, lab, lab).dHp == 0.0
  {
    var c1 := Chroma(m, lab.a, lab.b);
    var aC := (c1 + c1) / 2.0;
    var g := 0.5 * (1.0 - m.sqrt(Pow7(aC) / (Pow7(aC) + Pow25To7)));
    var a1p := (1.0 + g) * lab.a;
    var c1p := Chroma(m, a1p, lab.b);
    var h1p := Hp(m, lab.b, a1p);
    assert Dhp(c1, c1, h1p, h1p) == 0.0;
    assert Radians(0.0) / 2.0 == 0.0;
    assert StepTerms(m, lab, lab).dHp == 2.0 * m.sqrt(c1p * c1p) * m.sin(0.0);
  }

  lemma EqualTermsVanish(m: MathOracle, lab1: Lab, lab2: Lab)
    ensures lab1 == lab2 ==>
      StepTerms(m, lab1, lab2).dLp == 0.0 && StepTerms(m, lab1, lab2).dCp == 0.0 && StepTerms(m, lab1, lab2).dHp == 0.0
  {
    if lab1 == lab2 {
      SameTermsVanish(m, lab1);
    }
  }

  /** Identical colours differ by 0, given sqrt(0) = 0. */
  lemma SameColourIsZero(m: MathOracle, c: Color.Hsl)
    ensures Ciede2000(m, c, c) == 0.0
  {
    var lab := m.hsl2Lab(c);
    var t := StepTerms(m, lab, lab);
    SameTermsVanish(m, lab);
    var sl := LightnessWeight(m, t.aL);
    var sc := 1.0 + 0.045 * t.aCp;
    var sh := HueSpread(t.aCp, HueWeight(m, t.aHp));
    var rt := Rotation(m, t.aHp, t.aCp);
    assert t.dLp / sl == 0.0 && t.dCp / sc == 0.0 && t.dHp / sh == 0.0;
    assert Combine(m, 0.0, 0.0, 0.0, rt) == m.sqrt(0.0);
  }
}
