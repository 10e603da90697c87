/** Positions and orientations of the sensors: class SixDOF and Transform.process. */
module Sensors {
  import opened RealArith
  import opened Geometry

  /** `r` is the square root of `x`. */
  predicate IsRoot(r: real, x: real) {
    r >= 0.0 && r * r == x
  }

  datatype Pose = Pose(axis: Vec, angle: real, dropout: bool)

  predicate Tiny(a: Vec) {
    a.x < EPSILON && a.y < EPSILON && a.z < EPSILON
  }

  function Over(a: Vec, g: real): Vec
    requires g != 0.0
  {
    Vec(a.x / g, a.y / g, a.z / g)
  }

  function NewAngle(p: Pose, root: real): real {
    p.angle * root
  }

  /** What `normalise` makes of an axis with length `root`. */
  function Normalised(p: Pose, root: real): Pose {
    var g := NewAngle(p, root);
    if Abs(g) >= EPSILON then Pose(Over(p.axis, g), g, p.dropout)
    else if Tiny(p.axis) then Pose(Vec(0.0, 0.0, 1.0), 0.0, true)
    else p.(angle := g)
  }

  /** `normalise` multiplies the angle by the length of the axis. If the product is not
      (almost) 0 the axis is divided by it; otherwise, if no coordinate reaches 0.00001, the
      sensor counts as dropped out, upright and unturned. */
  lemma NormalisedMeans(p: Pose, root: real)
    ensures var q := Normalised(p, root); var g := p.angle * root;
      if g >= 0.00001 || g <= -0.00001 then
        q.angle == g && Scale(g, q.axis) == p.axis && q.dropout == p.dropout
      else if p.axis.x < 0.00001 && p.axis.y < 0.00001 && p.axis.z < 0.00001
      then q == Pose(Vec(0.0, 0.0, 1.0), 0.0, true) else q == Pose(p.axis, g, p.dropout)
  {
    hide Scale, Over;
    var g := NewAngle(p, root);
    if g != 0.0 {
      Divides(p.axis, g);
    }
  }

  lemma DotScaled(g: real, u: Vec)
    ensures Dot(Scale(g, u), Scale(g, u)) == g * g * Dot(u, u)
  {
    DotLinear(u, u, Scale(g, u), g);
    DotLinear(u, u, u, g);
  }

  /** Dividing by `g` and multiplying by it again. */
  lemma Divides(a: Vec, g: real)
    requires g != 0.0
    ensures Scale(g, Over(a, g)) == a
  {
    DividedBack(a.x, g);
    DividedBack(a.y, g);
    DividedBack(a.z, g);
  }

  lemma UnitAfterDivision(k: real, root: real, g: real, n: real)
    requires g == k * root && g != 0.0 && g * g * n == root * root
    ensures n == 1.0 <==> k * k == 1.0
  {
    assert root != 0.0 by {
      assert k * 0.0 == 0.0;
    }
    NoZeroDivisors(root, root);
    var q := root * root;
    SquareMonotone(0.0, if root > 0.0 then root else -root);
    QuadOf(k, root, k, root);
    assert g * g == k * k * q;
    assert g * g * n == q * (k * k * n);
    Cancel(q, k * k * n, 1.0);
    assert n == 1.0 ==> k * k * n == k * k;
    assert k * k == 1.0 ==> k * k * n == n;
  }

  /** `normalise` gives a unit axis exactly when the angle was 1 or -1 before, or there is
      (almost) no rotation, or the axis had length 1 and a tiny angle already. */
  lemma NormalisedIsUnit(p: Pose, root: real)
    requires IsRoot(root, Dot(p.axis, p.axis))
    ensures UnitAxis(Normalised(p, root).axis) <==>
      if Abs(NewAngle(p, root)) >= EPSILON then p.angle * p.angle == 1.0 else Tiny(p.axis) || root == 1.0
  {
    hide UnitAxis, Over, Dot, IsRoot, Tiny, NewAngle;
    VerticalIsUnit();
    if Abs(NewAngle(p, root)) >= EPSILON {
      DividedIsUnit(p, root, NewAngle(p, root));
    } else if !Tiny(p.axis) {
      RootIsOne(p.axis, root);
    }
  }

  lemma VerticalIsUnit()
    ensures UnitAxis(Vec(0.0, 0.0, 1.0))
  {
  }

  lemma RootIsOne(a: Vec, root: real)
    requires IsRoot(root, Dot(a, a))
    ensures UnitAxis(a) <==> root == 1.0
  {
    hide Dot;
    if Dot(a, a) == 1.0 {
      SquareInjective(root, 1.0);
    }
  }

  lemma DividedIsUnit(p: Pose, root: real, g: real)
    requires IsRoot(root, Dot(p.axis, p.axis)) && g == NewAngle(p, root) && g != 0.0
    ensures UnitAxis(Over(p.axis, g)) <==> p.angle * p.angle == 1.0
  {
    var u := Over(p.axis, g);
    Divides(p.axis, g);
    hide Dot, Scale;
    DotScaled(g, u);
    UnitAfterDivision(p.angle, root, g, Dot(u, u));
  }

  lemma NoLongerThan(x: real, n: real, root: real)
    requires IsRoot(root, n) && x * x <= n
    ensures x <= root
  {
    if x > 0.0 {
      SquareMonotone(x, root);
    }
  }

  /** From raw data, where the angle is 1 at first, `normalise` always gives a unit axis, and
      axis times angle is the raw vector, but for dropouts. */
  lemma RawIsUnit(a: Vec, root: real)
    requires IsRoot(root, Dot(a, a))
    ensures var p := Normalised(Pose(a, 1.0, false), root);
      UnitAxis(p.axis) && (p.dropout <==> root < EPSILON) &&
      (if p.dropout then p.axis == Vec(0.0, 0.0, 1.0) && p.angle == 0.0
        else p.angle == root && Scale(p.angle, p.axis) == a)
  {
    assert 1.0 * root == root;
    if root >= EPSILON {
      DividedIsUnit(Pose(a, 1.0, false), root, root);
      Divides(a, root);
    } else {
      ShortIsTiny(a, root);
    }
  }

  lemma ShortIsTiny(a: Vec, root: real)
    requires IsRoot(root, Dot(a, a)) && root < EPSILON
    ensures Tiny(a)
  {
    assert a.x * a.x >= 0.0 && a.y * a.y >= 0.0 && a.z * a.z >= 0.0;
    NoLongerThan(a.x, Dot(a, a), root);
    NoLongerThan(a.y, Dot(a, a), root);
    NoLongerThan(a.z, Dot(a, a), root);
  }

  /** A second call spoils the axis, unless the angle happens to be 1 radian. */
  lemma NormalisedTwice(a: Vec, root: real)
    requires IsRoot(root, Dot(a, a)) && root >= EPSILON
    ensures var p := Normalised(Pose(a, 1.0, false), root);
      IsRoot(1.0, Dot(p.axis, p.axis)) && (UnitAxis(Normalised(p, 1.0).axis) <==> root == 1.0)
  {
    RawIsUnit(a, root);
    var p := Normalised(Pose(a, 1.0, false), root);
    hide Normalised, Dot;
    NormalisedIsUnit(p, 1.0);
    assert NewAngle(p, 1.0) == root;
    if root * root == 1.0 {
      SquareInjective(root, 1.0);
    }
  }

  // Rotation about the vertical.

  /** `rotate`, where `s` and `c` are the sine and cosine of the negated bearing. */
  function Turn(s: real, c: real, p: Vec): Vec {
    Vec(c * p.x - s * p.y, s * p.x + c * p.y, p.z)
  }

  /** A quarter turn takes the first axis to the second and the second to the first, reversed;
      the height stays, and turns after each other add up. */
  lemma TurnsAdd(s: real, c: real, s2: real, c2: real, p: Vec)
    ensures Turn(1.0, 0.0, p) == Vec(-p.y, p.x, p.z) && Turn(0.0, 1.0, p) == p
    ensures Turn(s2, c2, Turn(s, c, p)) == Turn(s2 * c + c2 * s, c2 * c - s2 * s, p)
  {
  }

  lemma TurnKeepsDots(s: real, c: real, p: Vec, q: Vec)
    requires SineCosine(s, c)
    ensures Dot(Turn(s, c, p), Turn(s, c, q)) == Dot(p, q)
  {
    TurnProducts(s, c, p.x, p.y, q.x, q.y);
    assert 1.0 * (p.x * q.x + p.y * q.y) == p.x * q.x + p.y * q.y;
  }

  lemma TurnProducts(s: real, c: real, x1: real, y1: real, x2: real, y2: real)
    ensures (c * x1 - s * y1) * (c * x2 - s * y2) + (s * x1 + c * y1) * (s * x2 + c * y2)
          == (s * s + c * c) * (x1 * x2 + y1 * y2)
  {
    hide Quad;
    Differences(c * x1, s * y1, c * x2, s * y2);
    Differences(s * x1, c * y1, s * x2, c * y2);
    QuadOf(c, x1, c, x2);
    QuadOf(c, x1, s, y2);
    QuadOf(s, y1, c, x2);
    QuadOf(s, y1, s, y2);
    QuadOf(s, x1, s, x2);
    QuadOf(s, x1, c, y2);
    QuadOf(c, y1, s, x2);
    QuadOf(c, y1, c, y2);
    QuadSum(s, c, x1 * x2, y1 * y2);
    QuadIs(c, c, x1, x2);
    QuadIs(s, s, x1, x2);
    QuadIs(c, c, y1, y2);
    QuadIs(s, s, y1, y2);
  }

  lemma QuadIs(a: real, b: real, x: real, y: real)
    ensures Quad(a, b, x, y) == a * b * (x * y)
  {
  }

  lemma QuadSum(s: real, c: real, x: real, y: real)
    ensures (s * s + c * c) * (x + y) == c * c * x + s * s * x + c * c * y + s * s * y
  {
  }

  lemma TurnSub(s: real, c: real, p: Vec, q: Vec)
    ensures Turn(s, c, Sub(p, q)) == Sub(Turn(s, c, p), Turn(s, c, q))
  {
  }

  lemma SubSub(p: Vec, q: Vec, o: Vec)
    ensures Sub(Sub(p, o), Sub(q, o)) == Sub(p, q)
  {
  }

  /** What `process` makes of an arm's position. */
  function Processed(s: real, c: real, body: Vec, arm: Vec): Vec {
    Turn(s, c, Sub(arm, body))
  }

  /** Processing a frame keeps the distance between the arms, and the distance of an arm from
      the body becomes its distance from the origin. */
  lemma ProcessKeepsDistances(s: real, c: real, body: Vec, left: Vec, right: Vec)
    requires SineCosine(s, c)
    ensures var l, r := Processed(s, c, body, left), Processed(s, c, body, right);
      Dot(Sub(l, r), Sub(l, r)) == Dot(Sub(left, right), Sub(left, right)) &&
      Dot(l, l) == Dot(Sub(left, body), Sub(left, body))
  {
    hide Dot, Sub, Turn;
    TurnSub(s, c, Sub(left, body), Sub(right, body));
    SubSub(left, right, body);
    TurnKeepsDots(s, c, Sub(left, right), Sub(left, right));
    TurnKeepsDots(s, c, Sub(left, body), Sub(left, body));
  }

  // The objects.

  class SixDOF {
    var ax: real
    var ay: real
    var az: real
    var angle: real
    var tx: real
    var ty: real
    var tz: real
    var dropout: bool

    function Orientation(): Pose
      reads this
    {
      Pose(Vec(ax, ay, az), angle, dropout)
    }

    function Place(): Vec
      reads this
    {
      Vec(tx, ty, tz)
    }

    /** `SixDOF(double[], int)`: three angles in degrees, `degree` radians each, and a place;
        `root` is the square root that `normalise` takes. */
    constructor (a: seq<real>, offset: nat, degree: real, root: real)
      requires offset + 6 <= |a|
      requires var v := Scale(degree, Vec(a[offset], a[offset + 1], a[offset + 2])); IsRoot(root, Dot(v, v))
      ensures UnitAxis(Orientation().axis) && Place() == Vec(a[offset + 3], a[offset + 4], a[offset + 5])
      ensures Orientation()
           == Normalised(Pose(Scale(degree, Vec(a[offset], a[offset + 1], a[offset + 2])), 1.0, false), root)
    {
      hide Normalised, UnitAxis, Dot, Scale;
      angle, dropout := 1.0, false;
      var v := Scale(degree, Vec(a[offset], a[offset + 1], a[offset + 2]));
      ax, ay, az := v.x, v.y, v.z;
      tx, ty, tz := a[offset + 3], a[offset + 4], a[offset + 5];
      new;
      RawIsUnit(Orientation().axis, root);
      Normalise(root);
    }

    method Normalise(root: real)
      requires IsRoot(root, Dot(Orientation().axis, Orientation().axis))
      modifies this`ax, this`ay, this`az, this`angle, this`dropout
      ensures Orientation() == Normalised(old(Orientation()), root)
    {
      hide Dot, IsRoot;
      angle := angle * root;
      assert angle == NewAngle(old(Orientation()), root);
      hide NewAngle;
      if Abs(angle) >= EPSILON {
        ax := ax / angle;
        ay := ay / angle;
        az := az / angle;
      } else if ax < EPSILON && ay < EPSILON && az < EPSILON {
        dropout := true;
        angle := 0.0;
        ax, ay := 0.0, 0.0;
        az := 1.0;
      }
    }

    method Rotate(s: real, c: real)
      modifies this`tx, this`ty, this`ax, this`ay
      ensures Place() == Turn(s, c, old(Place()))
      ensures Orientation() == old(Orientation()).(axis := Turn(s, c, old(Orientation()).axis))
    {
      var newx := c * tx - s * ty;
      var newy := s * tx + c * ty;
      tx, ty := newx, newy;
      newx := c * ax - s * ay;
      newy := s * ax + c * ay;
      ax, ay := newx, newy;
    }

    method Translate(axes: SixDOF)
      modifies this`tx, this`ty, this`tz
      ensures Place() == Sub(old(Place()), old(axes.Place()))
    {
      tx := tx - axes.tx;
      ty := ty - axes.ty;
      tz := tz - axes.tz;
    }
  }

  /** `Transform.process`, with the sine and cosine of the heading it computes. */
  method Process(body: SixDOF, left: SixDOF, right: SixDOF, s: real, c: real)
    requires body != left && body != right && left != right
    requires SineCosine(s, c) && UnitAxis(left.Orientation().axis) && UnitAxis(right.Orientation().axis)
    modifies left, right
    ensures left.Place() == Processed(s, c, body.Place(), old(left.Place()))
    ensures right.Place() == Processed(s, c, body.Place(), old(right.Place()))
    ensures left.Orientation() == old(left.Orientation()).(axis := Turn(s, c, old(left.Orientation().axis)))
    ensures right.Orientation() == old(right.Orientation()).(axis := Turn(s, c, old(right.Orientation().axis)))
    ensures UnitAxis(left.Orientation().axis) && UnitAxis(right.Orientation().axis)
  {
    hide UnitAxis, Turn;
    left.Translate(body);
    right.Translate(body);
    KeepsUnit(s, c, left.Orientation().axis);
    KeepsUnit(s, c, right.Orientation().axis);
    left.Rotate(s, c);
    right.Rotate(s, c);
  }

  lemma KeepsUnit(s: real, c: real, a: Vec)
    requires SineCosine(s, c) && UnitAxis(a)
    ensures UnitAxis(Turn(s, c, a))
  {
    TurnKeepsDots(s, c, a, a);
  }
}
