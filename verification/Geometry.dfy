/** Axis-angle positions (Geometry.java, Transform.java) over exact reals. Square roots, sines
    and cosines enter as values with their defining laws. */
module Geometry {
  import opened Text

  datatype Vec = Vec(x: real, y: real, z: real)

  function Add(p: Vec, q: Vec): Vec {
    Vec(p.x + q.x, p.y + q.y, p.z + q.z)
  }

  function Sub(p: Vec, q: Vec): Vec {
    Vec(p.x - q.x, p.y - q.y, p.z - q.z)
  }

  function Scale(k: real, p: Vec): Vec {
    Vec(Times(k, p.x), Times(k, p.y), Times(k, p.z))
  }

  function Times(k: real, x: real): real {
    k * x
  }

  function Dot(p: Vec, q: Vec): real {
    p.x * q.x + p.y * q.y + p.z * q.z
  }

  function Cross(p: Vec, q: Vec): Vec {
    Vec(Minor(p.y, q.z, p.z, q.y), Minor(p.z, q.x, p.x, q.z), Minor(p.x, q.y, p.y, q.x))
  }

  function Minor(a1: real, b2: real, a2: real, b1: real): real {
    a1 * b2 - a2 * b1
  }

  const EPSILON := 0.00001

  function Abs(x: real): real {
    if x < 0.0 then -x else x
  }

  // Rotating a point.

  /** `rotatePoint`, where `s` and `c` are the sine and cosine of the negated angle. */
  function RotatePoint(a: Vec, angle: real, s: real, c: real, p: Vec): Vec {
    if Abs(angle) < EPSILON then p else Matrix(a, s, c, 1.0 - c, p)
  }

  function Matrix(a: Vec, s: real, c: real, t: real, p: Vec): Vec {
    Vec(Row(Entry(t, a.x, a.x, c), Entry(t, a.x, a.y, Sine(s, a.z)), Entry(t, a.x, a.z, -Sine(s, a.y)), p),
        Row(Entry(t, a.x, a.y, -Sine(s, a.z)), Entry(t, a.y, a.y, c), Entry(t, a.y, a.z, Sine(s, a.x)), p),
        Row(Entry(t, a.x, a.z, Sine(s, a.y)), Entry(t, a.y, a.z, -Sine(s, a.x)), Entry(t, a.z, a.z, c), p))
  }

  function Entry(t: real, ai: real, aj: real, k: real): real {
    t * ai * aj + k
  }

  function Sine(s: real, ai: real): real {
    s * ai
  }

  function Row(m1: real, m2: real, m3: real, p: Vec): real {
    m1 * p.x + m2 * p.y + m3 * p.z
  }

  /** The same as a sum of three vectors. */
  function Rodrigues(a: Vec, s: real, c: real, t: real, p: Vec): Vec {
    Add(Add(Scale(c, p), Scale(t, Scale(Dot(a, p), a))), Scale(-s, Cross(a, p)))
  }

  lemma Times3(k: real, a: real, b: real, c: real)
    ensures k * (a + b + c) == k * a + k * b + k * c
  {
  }

  // Products of the matrix, by name.

  function TAAX(t: real, ai: real, aj: real, x: real): real {
    t * ai * aj * x
  }

  function SAX(s: real, ai: real, x: real): real {
    s * ai * x
  }

  lemma DiagonalTimes(t: real, ai: real, c: real, x: real)
    ensures Entry(t, ai, ai, c) * x == TAAX(t, ai, ai, x) + c * x
  {
  }

  lemma EntryTimes(t: real, ai: real, aj: real, s: real, b: real, x: real)
    ensures Entry(t, ai, aj, Sine(s, b)) * x == TAAX(t, ai, aj, x) + SAX(s, b, x)
    ensures Entry(t, ai, aj, -Sine(s, b)) * x == TAAX(t, ai, aj, x) - SAX(s, b, x)
    ensures TAAX(t, ai, aj, x) == TAAX(t, aj, ai, x)
  {
  }

  lemma AxisTimes(t: real, ai: real, a: Vec, p: Vec)
    ensures t * Dot(a, p) * ai == TAAX(t, ai, a.x, p.x) + TAAX(t, ai, a.y, p.y) + TAAX(t, ai, a.z, p.z)
  {
    Times3(t * ai, a.x * p.x, a.y * p.y, a.z * p.z);
    assert t * Dot(a, p) * ai == t * ai * Dot(a, p);
  }

  lemma CrossTimes(s: real, a: Vec, p: Vec)
    ensures -s * Cross(a, p).x == SAX(s, a.z, p.y) - SAX(s, a.y, p.z)
    ensures -s * Cross(a, p).y == SAX(s, a.x, p.z) - SAX(s, a.z, p.x)
    ensures -s * Cross(a, p).z == SAX(s, a.y, p.x) - SAX(s, a.x, p.y)
  {
  }

  /** One coordinate of the sum of three vectors. */
  function Coordinate3(c: real, x: real, t: real, d: real, ai: real, s: real, w: real): real {
    c * x + t * d * ai + -s * w
  }

  lemma RowX(a: Vec, s: real, c: real, t: real, p: Vec, d: real, w: Vec)
    requires d == Dot(a, p) && w == Cross(a, p)
    ensures Row(Entry(t, a.x, a.x, c), Entry(t, a.x, a.y, Sine(s, a.z)), Entry(t, a.x, a.z, -Sine(s, a.y)), p) ==
            Coordinate3(c, p.x, t, d, a.x, s, w.x)
  {
    hide Entry, Sine, TAAX, SAX, Dot, Cross;
    DiagonalTimes(t, a.x, c, p.x);
    EntryTimes(t, a.x, a.y, s, a.z, p.y);
    EntryTimes(t, a.x, a.z, s, a.y, p.z);
    AxisTimes(t, a.x, a, p);
    CrossTimes(s, a, p);
  }

  lemma RowY(a: Vec, s: real, c: real, t: real, p: Vec, d: real, w: Vec)
    requires d == Dot(a, p) && w == Cross(a, p)
    ensures Row(Entry(t, a.x, a.y, -Sine(s, a.z)), Entry(t, a.y, a.y, c), Entry(t, a.y, a.z, Sine(s, a.x)), p) ==
            Coordinate3(c, p.y, t, d, a.y, s, w.y)
  {
    hide Entry, Sine, TAAX, SAX, Dot, Cross;
    EntryTimes(t, a.x, a.y, s, a.z, p.x);
    DiagonalTimes(t, a.y, c, p.y);
    EntryTimes(t, a.y, a.z, s, a.x, p.z);
    AxisTimes(t, a.y, a, p);
    CrossTimes(s, a, p);
  }

  lemma RowZ(a: Vec, s: real, c: real, t: real, p: Vec, d: real, w: Vec)
    requires d == Dot(a, p) && w == Cross(a, p)
    ensures Row(Entry(t, a.x, a.z, Sine(s, a.y)), Entry(t, a.y, a.z, -Sine(s, a.x)), Entry(t, a.z, a.z, c), p) ==
            Coordinate3(c, p.z, t, d, a.z, s, w.z)
  {
    hide Entry, Sine, TAAX, SAX, Dot, Cross;
    EntryTimes(t, a.x, a.z, s, a.y, p.x);
    EntryTimes(t, a.y, a.z, s, a.x, p.y);
    DiagonalTimes(t, a.z, c, p.z);
    AxisTimes(t, a.z, a, p);
    CrossTimes(s, a, p);
  }

  lemma MatrixIsRodrigues(a: Vec, s: real, c: real, t: real, p: Vec)
    ensures Matrix(a, s, c, t, p) == Rodrigues(a, s, c, t, p)
  {
    hide Row, Entry, Sine, Coordinate3, Dot, Cross, Rodrigues;
    var d, w := Dot(a, p), Cross(a, p);
    RowX(a, s, c, t, p, d, w);
    RowY(a, s, c, t, p, d, w);
    RowZ(a, s, c, t, p, d, w);
    RodriguesIs(a, s, c, t, p, d, w);
  }

  /** A point is turned unless the angle is (almost) 0. */
  lemma RotatedUnless(a: Vec, angle: real, s: real, c: real, p: Vec)
    ensures RotatePoint(a, angle, s, c, p) ==
      if -0.00001 < angle < 0.00001 then p else Rodrigues(a, s, c, 1.0 - c, p)
  {
    hide Matrix, Rodrigues;
    MatrixIsRodrigues(a, s, c, 1.0 - c, p);
  }

  lemma EntriesAboutThird(t: real, s: real, k: real)
    ensures Entry(t, 0.0, 0.0, k) == k && Entry(t, 0.0, 1.0, k) == k && Entry(t, 1.0, 1.0, k) == t + k
    ensures Sine(s, 0.0) == 0.0 && Sine(s, 1.0) == s
  {
  }

  lemma RowsAboutThird(c: real, s: real, p: Vec)
    ensures Row(c, s, 0.0, p) == Times(c, p.x) + Times(s, p.y)
    ensures Row(-s, c, 0.0, p) == Times(c, p.y) - Times(s, p.x)
    ensures Row(0.0, 0.0, 1.0, p) == p.z
  {
  }

  /** The sense of the rotation: about the third axis, the first one goes to the cosine along
      itself and the sine against the second one. */
  lemma AboutThird(angle: real, s: real, c: real, p: Vec)
    requires angle >= 0.00001
    ensures RotatePoint(Vec(0.0, 0.0, 1.0), angle, s, c, p) ==
      Vec(Times(c, p.x) + Times(s, p.y), Times(c, p.y) - Times(s, p.x), p.z)
  {
    hide Entry, Sine, Row, Times;
    var t := 1.0 - c;
    EntriesAboutThird(t, s, c);
    EntriesAboutThird(t, s, s);
    EntriesAboutThird(t, s, -s);
    EntriesAboutThird(t, s, 0.0);
    EntriesAboutThird(t, s, -0.0);
    RowsAboutThird(c, s, p);
  }

  lemma RodriguesIs(a: Vec, s: real, c: real, t: real, p: Vec, d: real, w: Vec)
    requires d == Dot(a, p) && w == Cross(a, p)
    ensures Rodrigues(a, s, c, t, p) ==
      Vec(Coordinate3(c, p.x, t, d, a.x, s, w.x), Coordinate3(c, p.y, t, d, a.y, s, w.y),
          Coordinate3(c, p.z, t, d, a.z, s, w.z))
  {
    hide Dot, Cross;
  }

  lemma DotLinear(p: Vec, q: Vec, r: Vec, k: real)
    ensures Dot(Add(p, q), r) == Dot(p, r) + Dot(q, r)
    ensures Dot(r, Add(p, q)) == Dot(r, p) + Dot(r, q)
    ensures Dot(Scale(k, p), r) == k * Dot(p, r)
    ensures Dot(r, Scale(k, p)) == k * Dot(r, p)
  {
  }

  lemma CrossOrthogonal(a: Vec, p: Vec, q: Vec)
    ensures Dot(a, Cross(a, p)) == 0.0 && Dot(Cross(a, p), a) == 0.0
    ensures Dot(p, Cross(a, q)) + Dot(Cross(a, p), q) == 0.0
  {
  }

  lemma Triple(ax: real, ay: real, az: real, qx: real, qy: real, qz: real)
    ensures ay * (ax * qy - ay * qx) - az * (az * qx - ax * qz) ==
            (ax * qx + ay * qy + az * qz) * ax - (ax * ax + ay * ay + az * az) * qx
  {
    Times3(ax, ax * qx, ay * qy, az * qz);
    Times3(qx, ax * ax, ay * ay, az * az);
    assert ay * (ax * qy - ay * qx) == ay * ax * qy - ay * ay * qx;
    assert az * (az * qx - ax * qz) == az * az * qx - az * ax * qz;
    assert ax * (ay * qy) == ay * ax * qy && ax * (az * qz) == az * ax * qz && ax * (ax * qx) == ax * ax * qx;
    assert qx * (ay * ay) == ay * ay * qx && qx * (az * az) == az * az * qx && qx * (ax * ax) == ax * ax * qx;
  }

  lemma CrossTwice(a: Vec, q: Vec)
    ensures Cross(a, Cross(a, q)) == Sub(Scale(Dot(a, q), a), Scale(Dot(a, a), q))
  {
    hide Minor, Times;
    var d, n := Dot(a, q), Dot(a, a);
    TripleAs(a.x, a.y, a.z, q.x, q.y, q.z, d, n);
    TripleAs(a.y, a.z, a.x, q.y, q.z, q.x, d, n);
    TripleAs(a.z, a.x, a.y, q.z, q.x, q.y, d, n);
  }

  lemma TripleAs(ax: real, ay: real, az: real, qx: real, qy: real, qz: real, d: real, n: real)
    requires d == ax * qx + ay * qy + az * qz && n == ax * ax + ay * ay + az * az
    ensures Minor(ay, Minor(ax, qy, ay, qx), az, Minor(az, qx, ax, qz)) == Times(d, ax) - Times(n, qx)
  {
    Triple(ax, ay, az, qx, qy, qz);
  }

  /** The identity of Lagrange. */
  lemma CrossDot(a: Vec, p: Vec, q: Vec)
    ensures Dot(Cross(a, p), Cross(a, q)) == Dot(a, a) * Dot(p, q) - Dot(a, p) * Dot(a, q)
  {
    hide Cross, Dot, Scale, Sub;
    var w := Cross(a, q);
    CrossOrthogonal(a, p, w);
    CrossTwice(a, q);
    DotSub(p, Scale(Dot(a, q), a), Scale(Dot(a, a), q));
    DotLinear(a, a, p, Dot(a, q));
    DotLinear(q, q, p, Dot(a, a));
    DotSymmetric(p, a);
    assert Dot(a, q) * Dot(a, p) == Dot(a, p) * Dot(a, q);
  }

  lemma DotSub(r: Vec, p: Vec, q: Vec)
    ensures Dot(r, Sub(p, q)) == Dot(r, p) - Dot(r, q)
  {
  }

  lemma DotSymmetric(p: Vec, q: Vec)
    ensures Dot(p, q) == Dot(q, p)
  {
  }

  // Rotation keeps the geometry.

  predicate UnitAxis(a: Vec) {
    Dot(a, a) == 1.0
  }

  predicate SineCosine(s: real, c: real) {
    s * s + c * c == 1.0
  }

  lemma RodriguesDot(a: Vec, s: real, c: real, t: real, p: Vec, r: Vec)
    ensures Dot(Rodrigues(a, s, c, t, p), r) == c * Dot(p, r) + t * Dot(a, p) * Dot(a, r) - s * Dot(Cross(a, p), r)
  {
    hide Dot, Cross, Add, Scale;
    var u, v, w := Scale(c, p), Scale(t, Scale(Dot(a, p), a)), Scale(-s, Cross(a, p));
    DotLinear(Add(u, v), w, r, 0.0);
    DotLinear(u, v, r, 0.0);
    DotLinear(p, p, r, c);
    DotLinear(Scale(Dot(a, p), a), a, r, t);
    DotLinear(a, a, r, Dot(a, p));
    DotLinear(Cross(a, p), p, r, -s);
    assert Rodrigues(a, s, c, t, p) == Add(Add(u, v), w);
    assert Dot(v, r) == t * Dot(a, p) * Dot(a, r);
    assert Dot(w, r) == -(s * Dot(Cross(a, p), r));
  }

  lemma Closing(s: real, c: real, t: real, pq: real, ap: real, aq: real, z: real)
    requires SineCosine(s, c) && t == 1.0 - c
    ensures c * (c * pq + t * aq * ap - s * z) + t * ap * aq - s * (c * -z - s * (pq - ap * aq)) == pq
  {
    var m := ap * aq;
    assert t * aq * ap == t * m && t * ap * aq == t * m;
    assert c * (c * pq + t * m - s * z) == c * c * pq + c * t * m - c * s * z;
    assert s * (c * -z - s * (pq - m)) == -(c * s * z) - s * s * pq + s * s * m;
    assert c * c * pq + s * s * pq == (s * s + c * c) * pq;
    assert c * t + t - s * s == 0.0;
    assert (c * t + t - s * s) * m == c * t * m + t * m - s * s * m;
  }

  /** A rotation about a unit axis keeps all dot products, hence lengths and angles. */
  lemma RotationKeepsDots(a: Vec, angle: real, s: real, c: real, p: Vec, q: Vec)
    requires UnitAxis(a) && SineCosine(s, c)
    ensures Dot(RotatePoint(a, angle, s, c, p), RotatePoint(a, angle, s, c, q)) == Dot(p, q)
  {
    if Abs(angle) >= EPSILON {
      var t := 1.0 - c;
      MatrixIsRodrigues(a, s, c, t, p);
      MatrixIsRodrigues(a, s, c, t, q);
      RodriguesKeepsDots(a, s, c, t, p, q);
    }
  }

  lemma RodriguesKeepsDots(a: Vec, s: real, c: real, t: real, p: Vec, q: Vec)
    requires UnitAxis(a) && SineCosine(s, c) && t == 1.0 - c
    ensures Dot(Rodrigues(a, s, c, t, p), Rodrigues(a, s, c, t, q)) == Dot(p, q)
  {
    hide Dot, Cross, Rodrigues, SineCosine;
    var r := Rodrigues(a, s, c, t, q);
    var ap, aq, z := Dot(a, p), Dot(a, q), Dot(p, Cross(a, q));
    CrossOrthogonal(a, p, q);
    CrossOrthogonal(a, q, p);
    CrossDot(a, p, q);
    RodriguesDot(a, s, c, t, p, r);
    DotRodrigues(a, s, c, t, q, p);
    DotRodrigues(a, s, c, t, q, a);
    DotRodrigues(a, s, c, t, q, Cross(a, p));
    DotSymmetric(p, a);
    assert Dot(p, r) == c * Dot(p, q) + t * aq * ap - s * z;
    assert Dot(a, r) == aq by {
      assert c * aq + t * aq * 1.0 - s * 0.0 == (c + t) * aq;
    }
    assert Dot(Cross(a, p), r) == c * -z - s * (Dot(p, q) - ap * aq) by {
      assert t * aq * 0.0 == 0.0 && 1.0 * Dot(p, q) == Dot(p, q);
    }
    Closing(s, c, t, Dot(p, q), ap, aq, z);
  }

  lemma DotRodrigues(a: Vec, s: real, c: real, t: real, q: Vec, r: Vec)
    ensures Dot(r, Rodrigues(a, s, c, t, q)) == c * Dot(r, q) + t * Dot(a, q) * Dot(r, a) - s * Dot(r, Cross(a, q))
  {
    hide Dot, Cross, Rodrigues;
    RodriguesDot(a, s, c, t, q, r);
    DotSymmetric(r, Rodrigues(a, s, c, t, q));
    DotSymmetric(r, q);
    DotSymmetric(r, a);
    DotSymmetric(r, Cross(a, q));
  }

  /** It leaves its axis where it is. */
  lemma RotationFixesAxis(a: Vec, angle: real, s: real, c: real)
    requires UnitAxis(a) && SineCosine(s, c)
    ensures RotatePoint(a, angle, s, c, a) == a
  {
    if Abs(angle) >= EPSILON {
      var t := 1.0 - c;
      MatrixIsRodrigues(a, s, c, t, a);
      AxisStays(a, s, c, t);
    }
  }

  lemma AxisStays(a: Vec, s: real, c: real, t: real)
    requires UnitAxis(a) && t == 1.0 - c
    ensures Rodrigues(a, s, c, t, a) == a
  {
    hide Dot;
    assert Cross(a, a) == Vec(0.0, 0.0, 0.0);
    assert t * 1.0 == t && -s * 0.0 == 0.0;
    Sum(c, t, a.x);
    Sum(c, t, a.y);
    Sum(c, t, a.z);
  }

  lemma Sum(c: real, t: real, x: real)
    requires t == 1.0 - c
    ensures c * x + t * x == x
  {
    assert (c + t) * x == c * x + t * x;
  }

  lemma MinorScale(k: real, a1: real, b2: real, a2: real, b1: real)
    ensures Minor(a1, Times(k, b2), a2, Times(k, b1)) == Times(k, Minor(a1, b2, a2, b1))
  {
    assert k * (a1 * b2 - a2 * b1) == k * a1 * b2 - k * a2 * b1;
  }

  lemma CrossScale(a: Vec, k: real, p: Vec)
    ensures Cross(a, Scale(k, p)) == Scale(k, Cross(a, p))
  {
    hide Minor, Times;
    MinorScale(k, a.y, p.z, a.z, p.y);
    MinorScale(k, a.z, p.x, a.x, p.z);
    MinorScale(k, a.x, p.y, a.y, p.x);
  }

  lemma CrossAdd(a: Vec, p: Vec, q: Vec)
    ensures Cross(a, Add(p, q)) == Add(Cross(a, p), Cross(a, q))
  {
  }

  /** A multiple of the axis has no cross product with it. */
  lemma CrossAxis(a: Vec, k: real)
    ensures Cross(a, Scale(k, a)) == Vec(0.0, 0.0, 0.0)
  {
    CrossScale(a, k, a);
    assert k * 0.0 == 0.0;
  }

  lemma AddZero(p: Vec)
    ensures Add(p, Vec(0.0, 0.0, 0.0)) == p
  {
  }

  /** What the cross product with the axis makes of a rotated point. */
  lemma CrossRotated(a: Vec, s: real, c: real, t: real, p: Vec)
    requires UnitAxis(a)
    ensures var x := Cross(a, p);
      Cross(a, Rodrigues(a, s, c, t, p)) == Add(Scale(c, x), Scale(-s, Sub(Scale(Dot(a, p), a), p)))
  {
    hide Cross, Dot, Scale, Add, Sub;
    var x, d := Cross(a, p), Dot(a, p);
    var u, v, w := Scale(c, p), Scale(t, Scale(d, a)), Scale(-s, x);
    CrossAdd(a, Add(u, v), w);
    CrossAdd(a, u, v);
    CrossScale(a, c, p);
    CrossScale(a, t, Scale(d, a));
    CrossAxis(a, d);
    ScaleZero(t);
    AddZero(Scale(c, x));
    CrossScale(a, -s, x);
    CrossTwice(a, p);
    ScaleOne(p);
  }

  lemma ScaleZero(k: real)
    ensures Scale(k, Vec(0.0, 0.0, 0.0)) == Vec(0.0, 0.0, 0.0)
  {
  }

  lemma ScaleOne(p: Vec)
    ensures Scale(1.0, p) == p
  {
  }

  lemma Undone(s: real, c: real, t: real, p: real, w: real, x: real)
    requires SineCosine(s, c) && t == 1.0 - c
    ensures c * (c * p + t * w - s * x) + t * w + s * (c * x - s * (w - p)) == p
  {
    assert c * (c * p + t * w - s * x) == c * c * p + c * t * w - c * s * x;
    assert s * (c * x - s * (w - p)) == c * s * x - s * s * w + s * s * p;
    assert c * c * p + s * s * p == (s * s + c * c) * p;
    assert c * t + t - s * s == 0.0;
    assert (c * t + t - s * s) * w == c * t * w + t * w - s * s * w;
  }

  /** One coordinate of a rotated point. */
  function Turned(c: real, t: real, s: real, p: real, w: real, x: real): real {
    c * p + t * w - s * x
  }

  /** One coordinate of its cross product with the axis. */
  function Crossed(c: real, s: real, x: real, w: real, p: real): real {
    c * x + -s * (w - p)
  }

  lemma UndoneAt(s: real, c: real, t: real, p: real, w: real, x: real)
    requires SineCosine(s, c) && t == 1.0 - c
    ensures Turned(c, t, -s, Turned(c, t, s, p, w, x), w, Crossed(c, s, x, w, p)) == p
  {
    Undone(s, c, t, p, w, x);
    var y := c * x - s * (w - p);
    assert Crossed(c, s, x, w, p) == y;
    assert - -s * y == s * y;
  }

  /** Rotating by the negated angle undoes a rotation. */
  lemma RotationUndone(a: Vec, angle: real, s: real, c: real, p: Vec)
    requires UnitAxis(a) && SineCosine(s, c)
    ensures RotatePoint(a, -angle, -s, c, RotatePoint(a, angle, s, c, p)) == p
  {
    if Abs(angle) >= EPSILON {
      hide Matrix, SineCosine, UnitAxis;
      var t := 1.0 - c;
      MatrixIsRodrigues(a, s, c, t, p);
      MatrixIsRodrigues(a, -s, c, t, Rodrigues(a, s, c, t, p));
      RodriguesUndone(a, s, c, t, p);
    }
  }

  /** The coordinates of a rotated point, and of its cross product with the axis. */
  lemma RodriguesAt(a: Vec, s: real, c: real, t: real, p: Vec, w: Vec, x: Vec)
    requires w == Scale(Dot(a, p), a) && x == Cross(a, p)
    ensures Rodrigues(a, s, c, t, p) ==
      Vec(Turned(c, t, s, p.x, w.x, x.x), Turned(c, t, s, p.y, w.y, x.y), Turned(c, t, s, p.z, w.z, x.z))
  {
    hide Dot, Cross;
  }

  lemma CrossAt(c: real, x: Vec, s: real, w: Vec, p: Vec)
    ensures Add(Scale(c, x), Scale(-s, Sub(w, p))) ==
      Vec(Crossed(c, s, x.x, w.x, p.x), Crossed(c, s, x.y, w.y, p.y), Crossed(c, s, x.z, w.z, p.z))
  {
  }

  lemma RodriguesUndone(a: Vec, s: real, c: real, t: real, p: Vec)
    requires UnitAxis(a) && SineCosine(s, c) && t == 1.0 - c
    ensures Rodrigues(a, -s, c, t, Rodrigues(a, s, c, t, p)) == p
  {
    hide Dot, Cross, Rodrigues, SineCosine, Scale, Add, Sub, UnitAxis, Turned, Crossed;
    var x, r, w := Cross(a, p), Rodrigues(a, s, c, t, p), Scale(Dot(a, p), a);
    KeepsAxisPart(a, s, c, t, p);
    CrossRotated(a, s, c, t, p);
    CrossAt(c, x, s, w, p);
    RodriguesAt(a, s, c, t, p, w, x);
    RodriguesAt(a, -s, c, t, r, w, Cross(a, r));
    UndoneAt(s, c, t, p.x, w.x, x.x);
    UndoneAt(s, c, t, p.y, w.y, x.y);
    UndoneAt(s, c, t, p.z, w.z, x.z);
  }

  lemma KeepsAxisPart(a: Vec, s: real, c: real, t: real, p: Vec)
    requires UnitAxis(a) && t == 1.0 - c
    ensures Dot(a, Rodrigues(a, s, c, t, p)) == Dot(a, p)
  {
    hide Dot, Cross, Rodrigues;
    var d := Dot(a, p);
    DotRodrigues(a, s, c, t, p, a);
    CrossOrthogonal(a, p, p);
    assert c * d + t * d * 1.0 - s * 0.0 == (c + t) * d;
  }
}
