/** Value types and the few engine math helpers that the water scripts rely on:
    optional values, 2- and 3-component vectors, and Unity's Mathf.Clamp01 and
    Mathf.Lerp over exact reals. */
module Common {

  datatype Option<+T> = None | Some(value: T)

  /** A Vector2; `y` is the second component (world z when used on the water plane). */
  datatype Vec2 = Vec2(x: real, y: real)

  datatype Vec3 = Vec3(x: real, y: real, z: real)

  const Zero2: Vec2 := Vec2(0.0, 0.0)

  /** Vector2.right, the fallback wave direction. */
  const Right2: Vec2 := Vec2(1.0, 0.0)

  function SqrMagnitude(v: Vec2): real
  {
    v.x * v.x + v.y * v.y
  }

  /** Mathf.Clamp01: the closest value to `v` in [0, 1]. */
  function Clamp01(v: real): (r: real)
    ensures 0.0 <= r <= 1.0
    ensures 0.0 <= v <= 1.0 ==> r == v
    ensures v < 0.0 ==> r == 0.0
    ensures v > 1.0 ==> r == 1.0
  {
    if v < 0.0 then 0.0 else if v > 1.0 then 1.0 else v
  }

  /** Mathf.Lerp: interpolation from `a` to `b` with the parameter clamped to [0, 1]. */
  function Lerp(a: real, b: real, t: real): real
  {
    a + (b - a) * Clamp01(t)
  }

  /** Mathf.Abs. */
  function Abs(v: real): real
  {
    if v < 0.0 then -v else v
  }

  function Min(a: real, b: real): real
  {
    if a < b then a else b
  }

  function Max(a: real, b: real): real
  {
    if a < b then b else a
  }

  /** The interpolated value lies between the two ends, reaches `a` at t <= 0 and `b` at t >= 1. */
  lemma LerpBetween(a: real, b: real, t: real)
    ensures Min(a, b) <= Lerp(a, b, t) <= Max(a, b)
    ensures t <= 0.0 ==> Lerp(a, b, t) == a
    ensures t >= 1.0 ==> Lerp(a, b, t) == b
  {
    var d := b - a;
    var c := Clamp01(t);
    var m := d * c;
    ScaleBetween(d, c);
    assert Lerp(a, b, t) == a + m;
    if d >= 0.0 {
      assert Min(a, b) == a && Max(a, b) == b;
      assert a <= a + m <= b;
    } else {
      assert Min(a, b) == b && Max(a, b) == a;
      assert b <= a + m <= a;
    }
    if t <= 0.0 {
      assert c == 0.0 && m == 0.0;
    }
    if t >= 1.0 {
      assert c == 1.0 && m == d;
    }
  }

  /** d * c for c in [0, 1] lies between 0 and d, and is 0 at c = 0 and d at c = 1. */
  lemma ScaleBetween(d: real, c: real)
    requires 0.0 <= c <= 1.0
    ensures d >= 0.0 ==> 0.0 <= d * c <= d
    ensures d < 0.0 ==> d <= d * c <= 0.0
    ensures c == 0.0 ==> d * c == 0.0
    ensures c == 1.0 ==> d * c == d
  {
    if d >= 0.0 {
      assert d * c <= d * 1.0;
    } else {
      assert (-d) * c <= (-d) * 1.0;
    }
  }
}
